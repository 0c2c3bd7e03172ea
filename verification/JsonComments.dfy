// What cJSON_Minify takes out of a text and what it keeps, for texts put together of blanks, comments, string
// literals and other characters. JSON itself has no comments.

module JsonComments {
  import opened JsonString
  import opened JsonText
  import opened JsonMinify
  import opened Options

  // A line comment has its newline with it.
  datatype Piece =
    | Blank(c: char)
    | LineComment(text: string)
    | BlockComment(text: string)
    | Literal(body: string)
    | Other(c: char)

  predicate Valid(p: Piece) {
    match p
    case Blank(c) => c in " \t\r\n"
    case LineComment(c) => '\n' !in c && '\0' !in c
    case BlockComment(c) => '\0' !in c && NoEnd(c) && (c == "" || c[0] != '/')
    case Literal(body) => Closing(body + "\"") == Some(|body|)
    case Other(c) => c !in " \t\r\n\"" && c != '\0'
  }

  // There is no end of a comment in c, nor one that a slash behind c would make.
  predicate NoEnd(c: string) {
    forall i :: 0 <= i < |c| - 1 ==> !(c[i] == '*' && c[i + 1] == '/')
  }

  function Shown(p: Piece): (s: string)
    ensures s != ""
  {
    match p
    case Blank(c) => [c]
    case LineComment(c) => "//" + c + "\n"
    case BlockComment(c) => "/*" + c + "*/"
    case Literal(body) => "\"" + body + "\""
    case Other(c) => [c]
  }

  function ShownAll(ps: seq<Piece>): string {
    if ps == [] then "" else Shown(ps[0]) + ShownAll(ps[1..])
  }

  // What is left.
  function Kept(ps: seq<Piece>): string {
    if ps == [] then ""
    else (if ps[0].Literal? || ps[0].Other? then Shown(ps[0]) else "") + Kept(ps[1..])
  }

  // Each piece is what it is taken for: a slash is not the start of a comment.
  predicate Fits(ps: seq<Piece>, end: string) {
    ps == []
    || (Valid(ps[0]) && Fits(ps[1..], end)
        && (ps[0] == Other('/') ==>
              var next := ShownAll(ps[1..]) + end; next == "" || (next[0] != '/' && next[0] != '*')))
  }

  // ----- one piece

  lemma {:induction false} LineIsLeft(c: string, rest: string)
    requires '\n' !in c && '\0' !in c
    ensures LineEnd(c + "\n" + rest) == "\n" + rest
  {
    if c == "" {
      assert c + "\n" + rest == "\n" + rest;
    } else {
      LineIsLeft(c[1..], rest);
      assert (c + "\n" + rest)[1..] == c[1..] + "\n" + rest;
    }
  }

  lemma {:induction false} LastLineIsLeft(c: string)
    requires '\n' !in c && '\0' !in c
    ensures LineEnd(c + "\0") == "\0"
  {
    if c == "" {
      assert c + "\0" == "\0";
    } else {
      LastLineIsLeft(c[1..]);
      assert (c + "\0")[1..] == c[1..] + "\0";
    }
  }

  lemma NoEndBehind(c: string)
    requires NoEnd(c) && c != ""
    ensures NoEnd(c[1..])
  {
    var t := c[1..];
    forall i | 0 <= i < |t| - 1 ensures !(t[i] == '*' && t[i + 1] == '/') {
      assert t[i] == c[i + 1] && t[i + 1] == c[i + 1 + 1];
    }
  }

  lemma {:induction false} BlockIsLeft(c: string, rest: string)
    requires '\0' !in c && NoEnd(c)
    ensures CommentEnd(c + "*/" + rest) == Some(rest)
  {
    var s := c + "*/" + rest;
    if c == "" {
      assert s[2..] == rest;
    } else {
      NoEndBehind(c);
      BlockIsLeft(c[1..], rest);
      assert s[1..] == c[1..] + "*/" + rest;
      assert s[0] == c[0] && s[1] == if |c| > 1 then c[1] else '*';
    }
  }

  lemma Twice(s: string)
    requires |s| >= 2
    ensures LineEnd(s) == if s[0] == '\n' || s[0] == '\0' then s else LineEnd(s[1..])
    ensures CommentEnd(s) == if s[0] == '\0' then None
                             else if s[0] == '*' && s[1] == '/' then Some(s[2..])
                             else CommentEnd(s[1..])
  {}

  lemma LineCommentIsLeft(c: string, rest: string)
    requires Valid(LineComment(c))
    ensures Minified("//" + c + "\n" + rest) == Minified(rest)
  {
    hide LineEnd, CommentEnd, Minified;
    var s := "//" + c + "\n" + rest;
    LineIsLeft(c, rest);
    Twice(s);
    Twice(s[1..]);
    assert s[1..][1..] == c + "\n" + rest;
    Slashes(s);
    assert s[..] == s;
    AtLine(s);
    AtBlank("\n" + rest, 0);
    assert ("\n" + rest)[0..] == "\n" + rest && ("\n" + rest)[1..] == rest;
  }

  lemma Slashes(s: string)
    requires |s| >= 2
    ensures StartsWith(s, "//") <==> s[0] == '/' && s[1] == '/'
    ensures StartsWith(s, "/*") <==> s[0] == '/' && s[1] == '*'
  {}

  lemma AtLine(s: string)
    requires |s| >= 2 && s[0] == '/' && s[1] == '/'
    ensures Minified(s) == Minified(LineEnd(s))
  {
    hide LineEnd, CommentEnd;
    Slashes(s);
  }

  lemma AtBlock(s: string)
    requires |s| >= 2 && s[0] == '/' && s[1] == '*' && CommentEnd(s).Some?
    ensures Minified(s) == Minified(CommentEnd(s).value)
  {
    hide LineEnd, CommentEnd;
    Slashes(s);
  }

  lemma BlockCommentIsLeft(c: string, rest: string)
    requires Valid(BlockComment(c))
    ensures Minified("/*" + c + "*/" + rest) == Minified(rest)
  {
    hide LineEnd, CommentEnd, Minified;
    var s := "/*" + c + "*/" + rest;
    BlockIsLeft(c, rest);
    Twice(s);
    Twice(s[1..]);
    assert s[2..] == c + "*/" + rest && s[1..][1..] == s[2..];
    assert s[1..][1] == s[2] == (if c == "" then '*' else c[0]);
    AtBlock(s);
  }

  lemma LiteralStays(body: string, rest: string)
    requires Valid(Piece.Literal(body))
    ensures Minified("\"" + body + "\"" + rest) == Before("\"" + body + "\"", Minified(rest))
  {
    hide Closing, StartsWith;
    var s := "\"" + body + "\"" + rest;
    ClosingStays(body + "\"", rest);
    assert s[1..] == body + "\"" + rest;
    assert s[..|body| + 2] == "\"" + body + "\"" && s[|body| + 2..] == rest;
    assert s[0] != '/';
    NotSlash(s);
  }

  lemma NotSlash(s: string)
    requires s != "" && s[0] != '/'
    ensures !StartsWith(s, "//") && !StartsWith(s, "/*")
  {}

  lemma {:induction false} ClosingStays(s: string, rest: string)
    requires Closing(s).Some?
    ensures Closing(s + rest) == Closing(s)
    decreases |s|
  {
    if s[0] != '\"' {
      var step := if s[0] == '\\' then 2 else 1;
      ClosingStays(s[step..], rest);
      assert (s + rest)[step..] == s[step..] + rest;
    }
  }

  lemma OtherStays(c: char, rest: string)
    requires Valid(Other(c)) && (c == '/' ==> rest != "" && rest[0] != '/' && rest[0] != '*')
    ensures Minified([c] + rest) == Before([c], Minified(rest))
  {
    hide StartsWith;
    var s := [c] + rest;
    assert s[1..] == rest;
    if c == '/' {
      Slashes(s);
    } else {
      NotSlash(s);
    }
  }

  lemma BlankIsLeft(c: char, rest: string)
    requires Valid(Blank(c))
    ensures Minified([c] + rest) == Minified(rest)
  {
    assert ([c] + rest)[1..] == rest;
  }

  // ----- whole texts

  // What can be at the end: nothing, or a line comment without a newline.
  predicate IsEnd(end: string) {
    end == "" || (|end| >= 2 && end[0] == '/' && end[1] == '/' && '\n' !in end && '\0' !in end)
  }

  lemma EndIsLeft(end: string)
    requires IsEnd(end)
    ensures Minified(end + "\0") == Some("")
  {
    hide LineEnd, CommentEnd, Minified;
    AtNul("\0");
    if end == "" {
      assert end + "\0" == "\0";
    } else {
      LastLineIsLeft(end);
      AtLine(end + "\0");
    }
  }

  lemma AtNul(s: string)
    requires s != "" && s[0] == '\0'
    ensures Minified(s) == Some("")
  {}

  lemma {:induction false} PieceDone(p: Piece, ps: seq<Piece>, end: string, rest: string)
    requires Fits([p] + ps, end) && rest == ShownAll(ps) + end + "\0"
    ensures Minified(Shown(p) + rest) == Before(if p.Literal? || p.Other? then Shown(p) else "", Minified(rest))
  {
    hide Minified;
    assert ([p] + ps)[1..] == ps;
    BeforeNothing(Minified(rest));
    match p
    case Blank(c) => BlankIsLeft(c, rest);
    case LineComment(c) => LineCommentIsLeft(c, rest);
    case BlockComment(c) => BlockCommentIsLeft(c, rest);
    case Literal(body) => LiteralStays(body, rest);
    case Other(c) =>
      if c == '/' {
        var next := ShownAll(ps) + end;
        assert rest == next + "\0";
        assert rest[0] == if next == "" then '\0' else next[0];
      }
      OtherStays(c, rest);
  }

  // Blanks and comments are taken out, and nothing else.
  lemma {:induction false} OnlyCommentsGo(ps: seq<Piece>, end: string)
    requires Fits(ps, end) && IsEnd(end)
    ensures Minified(ShownAll(ps) + end + "\0") == Some(Kept(ps))
  {
    hide Minified, Shown;
    if ps == [] {
      EndIsLeft(end);
      assert ShownAll(ps) + end + "\0" == end + "\0";
    } else {
      var rest := ShownAll(ps[1..]) + end + "\0";
      OnlyCommentsGo(ps[1..], end);
      assert [ps[0]] + ps[1..] == ps;
      PieceDone(ps[0], ps[1..], end, rest);
      assert ShownAll(ps) + end + "\0" == Shown(ps[0]) + rest;
    }
  }

  // A block comment that begins with a slash ends at once: its star is taken for that of the end.
  lemma ShortComment(rest: string)
    ensures Minified("/*/" + rest) == Minified(rest)
  {
    hide LineEnd, CommentEnd, Minified;
    var s := "/*/" + rest;
    Twice(s);
    Twice(s[1..]);
    assert s[1..][2..] == rest;
    AtBlock(s);
  }
}
