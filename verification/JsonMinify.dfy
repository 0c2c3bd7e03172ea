// cJSON_Minify: white space and comments are taken out of a text in place.

module JsonMinify {
  import opened JsonString
  import opened JsonText
  import opened Options

  predicate IsBlank(c: char) {
    c == ' ' || c == '\t' || c == '\r' || c == '\n'
  }

  // The rest of s from its first newline or NUL on.
  function LineEnd(s: string): (r: string)
    ensures |r| <= |s|
  {
    if s == "" || s[0] == '\n' || s[0] == '\0' then s else LineEnd(s[1..])
  }

  // The rest of s behind its first */. None: it ends before, and the pointer runs past the NUL.
  function CommentEnd(s: string): (r: Option<string>)
    ensures r.Some? ==> |r.value| < |s|
  {
    if |s| < 2 || s[0] == '\0' then None
    else if s[0] == '*' && s[1] == '/' then Some(s[2..])
    else CommentEnd(s[1..])
  }

  // What is left of s, which goes on to the NUL at the end of the buffer. None: a comment or
  // string literal does not end, and the pointer runs past the NUL.
  function Minified(s: string): Option<string>
    decreases |s|
  {
    if s == "" then None
    else if s[0] == '\0' then Some("")
    else if IsBlank(s[0]) then Minified(s[1..])
    else if StartsWith(s, "//") then
      Minified(LineEnd(s))
    else if StartsWith(s, "/*") then
      match CommentEnd(s)
      case None => None
      case Some(rest) => Minified(rest)
    else if s[0] == '\"' then
      match Closing(s[1..])
      case None => None
      case Some(n) => Before(s[..n + 2], Minified(s[n + 2..]))
    else Before([s[0]], Minified(s[1..]))
  }

  // ----- the method

  // The content of a C string's buffer: one NUL, at the end.
  predicate Terminated(s: string) {
    s != "" && s[|s| - 1] == '\0' && forall i :: 0 <= i < |s| - 1 ==> s[i] != '\0'
  }

  // ----- skipping in the buffer

  lemma Suffix(s: string, k: nat)
    requires Terminated(s) && k < |s|
    ensures Terminated(s[k..])
  {}

  method SkipLine(s: array<char>, from: nat) returns (to: nat)
    requires from < s.Length && Terminated(s[from..])
    ensures from <= to < s.Length && s[to..] == LineEnd(s[from..]) && Terminated(s[to..])
    ensures s[from] != '\0' && s[from] != '\n' ==> from < to
  {
    to := from;
    while s[to] != '\0' && s[to] != '\n'
      invariant from <= to < s.Length && Terminated(s[to..]) && LineEnd(s[to..]) == LineEnd(s[from..])
      decreases s.Length - to
    {
      assert s[to..][1..] == s[to + 1..];
      Suffix(s[to..], 1);
      to := to + 1;
    }
  }

  method SkipComment(s: array<char>, from: nat) returns (to: nat)
    requires from < s.Length && Terminated(s[from..]) && CommentEnd(s[from..]).Some?
    ensures from < to < s.Length && Some(s[to..]) == CommentEnd(s[from..]) && Terminated(s[to..])
  {
    to := from;
    while s[to] != '\0' && !(s[to] == '*' && s[to + 1] == '/')
      invariant from <= to < s.Length && Terminated(s[to..]) && CommentEnd(s[to..]) == CommentEnd(s[from..])
      decreases s.Length - to
    {
      assert s[to..][1..] == s[to + 1..];
      Suffix(s[to..], 1);
      to := to + 1;
    }
    assert s[to..][2..] == s[to + 2..];
    Suffix(s[to..], 2);
    to := to + 2;
  }

  // ----- copying in place

  // The buffer holds front, then the characters of text from from to to; the rest is as in text.
  ghost predicate Copied(json: array<char>, into: nat, text: string, from: nat, to: nat, front: string)
    reads json
  {
    && json.Length == |text| && from <= to <= |text| && into <= to && into == |front| + (to - from)
    && json[..into] == front + text[from..to] && json[into..] == text[into..]
  }

  lemma NotReached(json: array<char>, into: nat, text: string, from: nat, to: nat, front: string)
    requires Copied(json, into, text, from, to, front) && to < |text|
    ensures json[to] == text[to]
  {
    assert json[to] == json[into..][to - into];
  }

  // *into++ = *json++
  method Shift(json: array<char>, into: nat, ghost text: string, ghost from: nat, to: nat, ghost front: string)
    returns (into': nat, to': nat)
    requires Copied(json, into, text, from, to, front) && to < |text|
    modifies json
    ensures Copied(json, into', text, from, to', front) && to' == to + 1
  {
    NotReached(json, into, text, from, to, front);
    ghost var tail := json[into..];
    json[into] := json[to];
    into', to' := into + 1, to + 1;
    assert json[..into] == front + text[from..to];
    assert text[from..to + 1] == text[from..to] + [text[to]];
    assert json[into + 1..] == tail[1..];
  }

  // At place at of text, inside a string literal that ends at close.
  ghost predicate InLiteral(text: string, at: nat, close: nat) {
    at <= close < |text| && Terminated(text[at..]) && Closing(text[at..]) == Some(close - at)
  }

  lemma LiteralStep(text: string, at: nat, close: nat)
    requires InLiteral(text, at, close)
    ensures text[at] != '\0' && (text[at] == '\"' <==> at == close) && close + 1 < |text|
    ensures at < close ==> InLiteral(text, if text[at] == '\\' then at + 2 else at + 1, close)
  {
    hide Closing, Terminated;
    var s := text[at..];
    TerminatedAt(s);
    ClosingIsQuote(s);
    ClosingStep(s);
    if at < close {
      var step := if s[0] == '\\' then 2 else 1;
      assert s[step..] == text[at + step..];
      Suffix(s, step);
    }
  }

  lemma TerminatedAt(s: string)
    requires Terminated(s)
    ensures s != ""
  {}

  lemma ClosingStep(s: string)
    requires s != "" && Closing(s).Some?
    ensures s[0] == '\"' <==> Closing(s).value == 0
    ensures s[0] != '\"' ==>
      var step := if s[0] == '\\' then 2 else 1;
      step <= |s| && Closing(s[step..]).Some? && Closing(s).value == Closing(s[step..]).value + step
  {}

  lemma {:induction false} ClosingIsQuote(s: string)
    requires Terminated(s) && Closing(s).Some?
    ensures s[0] != '\0' && s[Closing(s).value] == '\"' && Closing(s).value + 1 < |s|
  {
    if s[0] != '\"' {
      var step := if s[0] == '\\' then 2 else 1;
      Suffix(s, step);
      ClosingIsQuote(s[step..]);
    }
  }

  // One character or escape sequence of a string literal.
  method CopyOne(json: array<char>, into: nat, ghost text: string, ghost from: nat, to: nat, ghost close: nat,
                 ghost front: string)
    returns (into': nat, to': nat)
    requires Copied(json, into, text, from, to, front) && InLiteral(text, to, close) && to < close
    modifies json
    ensures Copied(json, into', text, from, to', front) && InLiteral(text, to', close) && to < to'
  {
    hide Copied, InLiteral;
    LiteralStep(text, to, close);
    InBounds(json, into, text, from, to, close, front);
    into', to' := into, to;
    if json[to] == '\\' {
      into', to' := Shift(json, into', text, from, to', front);
    }
    into', to' := Shift(json, into', text, from, to', front);
  }

  // Copies a string literal.
  method CopyLiteral(json: array<char>, into: nat, ghost text: string, from: nat, ghost front: string)
    returns (into': nat, to: nat)
    requires Copied(json, into, text, from, from, front) && from + 1 < |text| && text[from] == '\"'
    requires Terminated(text[from + 1..]) && Closing(text[from + 1..]).Some?
    modifies json
    ensures to == from + 1 + Closing(text[from + 1..]).value + 1 < |text|
    ensures Copied(json, into', text, from, to, front)
  {
    ghost var close := from + 1 + Closing(text[from + 1..]).value;
    assert InLiteral(text, from + 1, close);
    hide Closing, Copied, InLiteral;
    into', to := Shift(json, into, text, from, from, front);
    InBounds(json, into', text, from, to, close, front);
    while json[to] != '\0' && json[to] != '\"'
      invariant Copied(json, into', text, from, to, front) && InLiteral(text, to, close)
      invariant to <= close < json.Length && (json[to] != '\0' && json[to] != '\"' <==> to < close)
      decreases close - to
    {
      into', to := CopyOne(json, into', text, from, to, close, front);
      InBounds(json, into', text, from, to, close, front);
    }
    LiteralStep(text, to, close);
    into', to := Shift(json, into', text, from, to, front);
  }

  lemma InBounds(json: array<char>, into: nat, text: string, from: nat, to: nat, close: nat, front: string)
    requires Copied(json, into, text, from, to, front) && InLiteral(text, to, close)
    ensures to <= close < json.Length && json[to] == text[to] && (json[to] != '\0' && json[to] != '\"' <==> to < close)
  {
    LiteralStep(text, to, close);
    NotReached(json, into, text, from, to, front);
  }

  // ----- cJSON_Minify

  // The minified text is in front of into, and the text from p on is still to be minified.
  ghost predicate Going(json: array<char>, into: nat, text: string, p: nat)
    reads json
  {
    && json.Length == |text| && into <= p < |text| && json[into..] == text[into..] && Terminated(text[p..])
    && Minified(text) == Before(json[..into], Minified(text[p..])) && Minified(text).Some?
  }

  lemma TwoSlashes(s: string)
    ensures StartsWith(s, "//") <==> |s| > 1 && s[0] == '/' && s[1] == '/'
    ensures StartsWith(s, "/*") <==> |s| > 1 && s[0] == '/' && s[1] == '*'
  {}

  predicate IsComment(text: string, p: nat) {
    p + 1 < |text| && text[p] == '/' && (text[p + 1] == '/' || text[p + 1] == '*')
  }

  lemma AtBlank(text: string, p: nat)
    requires p < |text| && IsBlank(text[p])
    ensures Minified(text[p..]) == Minified(text[p + 1..])
  {
    assert text[p..][1..] == text[p + 1..];
  }

  lemma AtPlain(text: string, p: nat)
    requires p < |text| && text[p] != '\0' && !IsBlank(text[p]) && text[p] != '\"' && !IsComment(text, p)
    ensures Minified(text[p..]) == Before([text[p]], Minified(text[p + 1..]))
  {
    var s := text[p..];
    TwoSlashes(s);
    assert s[1..] == text[p + 1..];
  }

  lemma AtComment(text: string, p: nat)
    requires IsComment(text, p) && Minified(text[p..]).Some?
    ensures text[p + 1] == '/' ==> Minified(text[p..]) == Minified(LineEnd(text[p..]))
    ensures text[p + 1] == '*' ==>
      CommentEnd(text[p..]).Some? && Minified(text[p..]) == Minified(CommentEnd(text[p..]).value)
  {
    hide LineEnd, CommentEnd, StartsWith;
    TwoSlashes(text[p..]);
  }

  lemma AtQuote(text: string, p: nat)
    requires p < |text| && text[p] == '\"' && Terminated(text[p..]) && Minified(text[p..]).Some?
    ensures Terminated(text[p + 1..]) && Closing(text[p + 1..]).Some?
    ensures var q := p + 1 + Closing(text[p + 1..]).value + 1;
            q < |text| && Terminated(text[q..]) && Minified(text[p..]) == Before(text[p..q], Minified(text[q..]))
  {
    hide Closing, StartsWith;
    var s := text[p..];
    TwoSlashes(s);
    assert s[1..] == text[p + 1..];
    Suffix(s, 1);
    ClosingIsQuote(s[1..]);
    var n := Closing(s[1..]).value;
    Suffix(s, n + 2);
    assert s[n + 2..] == text[p + n + 2..] && s[..n + 2] == text[p..p + n + 2];
  }

  lemma Next(json: array<char>, into: nat, text: string, p: nat)
    requires Going(json, into, text, p)
    ensures json.Length == |text| && json[p] == text[p] && (p + 1 < |text| ==> json[p + 1] == text[p + 1])
    ensures Minified(text[p..]).Some? && Terminated(text[p..]) && (text[p] != '\0' ==> p + 1 < |text|)
    ensures text[p] != '\0' ==> Terminated(text[p + 1..])
    ensures json[p..] == text[p..] && into <= p && Copied(json, into, text, p, p, json[..into])
    ensures Minified(text) == Before(json[..into], Minified(text[p..])) && Minified(text).Some?
  {
    assert json[..into] + "" == json[..into];
    assert json[p..] == json[into..][p - into..];
    assert json[p] == json[p..][0];
    if p + 1 < |text| {
      assert json[p + 1] == json[p..][1];
      Suffix(text[p..], 1);
      assert text[p..][1..] == text[p + 1..];
    }
  }

  lemma Later(json: array<char>, text: string, p: nat, q: nat)
    requires json.Length == |text| && p <= q <= |text| && json[p..] == text[p..]
    ensures json[q..] == text[q..]
  {
    assert json[q..] == json[p..][q - p..];
  }

  // The text from p to q is left out.
  lemma LeftOut(json: array<char>, into: nat, text: string, p: nat, q: nat)
    requires Going(json, into, text, p) && p <= q < |text|
    requires Minified(text[p..]) == Minified(text[q..]) && Terminated(text[q..])
    ensures Going(json, into, text, q)
  {}

  // The text from p to q has been copied behind front.
  lemma Kept(json: array<char>, into: nat, text: string, p: nat, q: nat, front: string)
    requires p <= q < |text|
    requires Minified(text) == Before(front, Minified(text[p..])) && Minified(text).Some?
    requires Terminated(text[q..]) && Minified(text[p..]) == Before(text[p..q], Minified(text[q..]))
    requires Copied(json, into, text, p, q, front)
    ensures Going(json, into, text, q)
  {
    BeforeBoth(front, text[p..q], Minified(text[q..]));
  }

  // One round of the loop.
  method MinifyOne(json: array<char>, into: nat, p: nat, ghost text: string) returns (into': nat, p': nat)
    requires Going(json, into, text, p) && json[p] != '\0'
    modifies json
    ensures Going(json, into', text, p') && p < p'
  {
    hide Minified, LineEnd, CommentEnd, Closing, Copied, Going, Terminated;
    into', p' := into, p;
    Next(json, into, text, p);
    if IsBlank(json[p]) {
      AtBlank(text, p);
      LeftOut(json, into, text, p, p + 1);
      p' := p + 1;
    } else if json[p] == '/' && json[p + 1] == '/' {
      AtComment(text, p);
      p' := SkipLine(json, p);
      Later(json, text, p, p');
      LeftOut(json, into, text, p, p');
    } else if json[p] == '/' && json[p + 1] == '*' {
      AtComment(text, p);
      p' := SkipComment(json, p);
      Later(json, text, p, p');
      LeftOut(json, into, text, p, p');
    } else if json[p] == '\"' {
      AtQuote(text, p);
      ghost var front := json[..into];
      into', p' := CopyLiteral(json, into, text, p, front);
      Kept(json, into', text, p, p', front);
    } else {
      AtPlain(text, p);
      ghost var front := json[..into];
      into', p' := Shift(json, into, text, p, p, front);
      assert text[p..p'] == [text[p]];
      Kept(json, into', text, p, p', front);
    }
  }

  // cJSON_Minify. The write index is never ahead of the read index.
  method Minify(json: array<char>)
    requires Terminated(json[..]) && Minified(json[..]).Some?
    modifies json
    ensures var m := Minified(old(json[..])).value;
            |m| < json.Length && json[..|m|] == m && json[|m|] == '\0' && json[|m| + 1..] == old(json[|m| + 1..])
  {
    ghost var text := json[..];
    var into: nat, p: nat := 0, 0;
    Begins(json, text);
    hide Minified, Going, Terminated;
    Next(json, into, text, p);
    while json[p] != '\0'
      invariant Going(json, into, text, p) && p < json.Length == |text| && json[p] == text[p]
      decreases json.Length - p
    {
      into, p := MinifyOne(json, into, p, text);
      Next(json, into, text, p);
    }
    Ends(json, into, text, p);
    ghost var tail := json[into..];
    json[into] := '\0';
    assert json[into + 1..] == tail[1..] == text[into + 1..];
  }

  lemma Begins(json: array<char>, text: string)
    requires text == json[..] && Terminated(text) && Minified(text).Some?
    ensures Going(json, 0, text, 0)
  {
    assert text[0..] == text;
    BeforeNothing(Minified(text));
  }

  lemma Ends(json: array<char>, into: nat, text: string, p: nat)
    requires Going(json, into, text, p) && json[p] == '\0'
    ensures into < |text| == json.Length && Minified(text) == Some(json[..into]) && json[into..] == text[into..]
  {
    Next(json, into, text, p);
    assert json[..into] + "" == json[..into];
  }
}
