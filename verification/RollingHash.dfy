// The hash of delta.c over a window of sixteen bytes.
//
// A hash value is a polynomial over GF(2): the remainder of the bytes hashed so far, divided
// by a fixed polynomial of degree 31. The laws of such a hash follow from a few laws of
// polynomials, so they are proved for any G with a sum and a multiplication by x.

module RollingHash {
  import opened Bytes

  const WINDOW := 16

  datatype Polynomials<!G(!new)> = Polynomials(add: (G, G) -> G, zero: G, twice: G -> G) {

    ghost predicate SwapAt(p: G, q: G, r: G) {
      add(add(p, q), r) == add(add(p, r), q)
    }

    ghost predicate CancelAt(p: G, q: G) {
      add(add(p, q), q) == p && add(zero, p) == p
    }

    ghost predicate LinearAt(p: G, q: G) {
      twice(add(p, q)) == add(twice(p), twice(q))
    }

    ghost predicate Laws() {
      && (forall p, q, r :: SwapAt(p, q, r))
      && (forall p, q :: CancelAt(p, q))
      && (forall p, q :: LinearAt(p, q))
    }

    // p * x^n.
    function Times(p: G, n: nat): G {
      if n == 0 then p else twice(Times(p, n - 1))
    }

    // The polynomial with the bits of i as coefficients, times one.
    function Scale(i: nat, one: G): G {
      if i == 0 then zero
      else if i % 2 == 0 then twice(Scale(i / 2, one))
      else add(twice(Scale(i / 2, one)), one)
    }

    // The hash of bs, started from p. The byte b stands for Scale(b, one).
    function Fold(one: G, p: G, bs: bytes): G {
      if bs == [] then p
      else add(Times(Fold(one, p, bs[..|bs| - 1]), 8), Scale(bs[|bs| - 1], one))
    }

    lemma ScaleStep(i: nat, one: G)
      ensures Scale(i, one) ==
              if i == 0 then zero
              else if i % 2 == 0 then twice(Scale(i / 2, one))
              else add(twice(Scale(i / 2, one)), one)
    {}

    lemma TwiceZero()
      requires Laws()
      ensures twice(zero) == zero
    {
      var z := twice(zero);
      assert CancelAt(zero, zero) && LinearAt(zero, zero) && CancelAt(zero, z) && CancelAt(z, zero);
    }

    lemma {:induction false} TimesAdd(p: G, q: G, n: nat)
      requires Laws()
      ensures Times(add(p, q), n) == add(Times(p, n), Times(q, n))
    {
      if n > 0 {
        TimesAdd(p, q, n - 1);
        assert LinearAt(Times(p, n - 1), Times(q, n - 1));
      }
    }

    lemma {:induction false} TimesTimes(p: G, m: nat, n: nat)
      ensures Times(Times(p, m), n) == Times(p, m + n)
    {
      if n > 0 {
        TimesTimes(p, m, n - 1);
      }
    }

    lemma EightTimes(p0: G, p1: G, p2: G, p3: G, p4: G, p5: G, p6: G, p7: G, p8: G)
      requires p1 == twice(p0) && p2 == twice(p1) && p3 == twice(p2) && p4 == twice(p3)
      requires p5 == twice(p4) && p6 == twice(p5) && p7 == twice(p6) && p8 == twice(p7)
      ensures Times(p0, 8) == p8
    {
      TimesTimes(p0, 1, 1); TimesTimes(p0, 2, 1); TimesTimes(p0, 3, 1); TimesTimes(p0, 4, 1);
      TimesTimes(p0, 5, 1); TimesTimes(p0, 6, 1); TimesTimes(p0, 7, 1);
    }

    lemma {:induction false} TimesZero(n: nat)
      requires Laws()
      ensures Times(zero, n) == zero
    {
      if n > 0 {
        TimesZero(n - 1);
        TwiceZero();
      }
    }

    lemma {:induction false} TimesScale(i: nat, one: G, n: nat)
      requires Laws()
      ensures Times(Scale(i, one), n) == Scale(i, Times(one, n))
    {
      if i == 0 {
        TimesZero(n);
      } else {
        var half := Scale(i / 2, one);
        TimesScale(i / 2, one, n);
        TimesTimes(half, 1, n);
        assert Times(half, 1) == twice(Times(half, 0));
        assert Times(half, n + 1) == twice(Times(half, n));
        if i % 2 == 1 {
          TimesAdd(twice(half), one, n);
        }
      }
    }

    // The sum of the two scaled polynomials, one bit of i at a time.
    lemma {:induction false} ScaleAdd(i: nat, one: G, two: G)
      requires Laws()
      ensures Scale(i, add(one, two)) == add(Scale(i, one), Scale(i, two))
    {
      if i == 0 {
        assert CancelAt(zero, zero);
      } else {
        ScaleAdd(i / 2, one, two);
        var p, q := twice(Scale(i / 2, one)), twice(Scale(i / 2, two));
        assert LinearAt(Scale(i / 2, one), Scale(i / 2, two));
        if i % 2 == 1 {
          AddPairs(p, q, one, two);
        }
      }
    }

    lemma AddCommutes(p: G, q: G)
      requires Laws()
      ensures add(p, q) == add(q, p)
    {
      assert CancelAt(p, p) && CancelAt(q, q) && SwapAt(zero, p, q);
    }

    lemma AddPairs(p: G, q: G, r: G, s: G)
      requires Laws()
      ensures add(add(p, q), add(r, s)) == add(add(p, r), add(q, s))
    {
      assert SwapAt(p, q, add(r, s));
      AddCommutes(p, add(r, s));
      assert SwapAt(r, s, p);
      AddCommutes(r, p);
      assert SwapAt(add(p, r), s, q);
      AddCommutes(q, s);
      AddCommutes(add(add(p, r), q), s);
      AddAssociates(add(p, r), q, s);
    }

    lemma AddAssociates(p: G, q: G, r: G)
      requires Laws()
      ensures add(add(p, q), r) == add(p, add(q, r))
    {
      AddCommutes(p, q);
      assert SwapAt(q, p, r);
      AddCommutes(add(q, r), p);
    }

    // A step by a byte, made of the parts of v: top leaves the word and comes back as its
    // remainder s through the table entry, which also clears lost; low is only shifted.
    lemma StepLaw(v: G, b: G, top: G, low: G, s: G, lifted: G, lost: G, shifted: G, entry: G)
      requires Laws()
      requires v == add(top, low) && Times(top, 8) == s && Times(low, 8) == lifted
      requires shifted == add(lifted, lost) && entry == add(s, lost)
      ensures add(add(shifted, b), entry) == add(Times(v, 8), b)
    {
      TimesAdd(top, low, 8);
      assert SwapAt(shifted, b, entry);
      AddCommutes(lifted, lost);
      AddCommutes(s, lost);
      AddPairs(lost, lifted, lost, s);
      AddCommutes(lifted, s);
      assert CancelAt(zero, lost) && CancelAt(lost, lost) && CancelAt(add(lifted, s), lost);
    }

    lemma {:induction false} FoldAdd(one: G, p: G, q: G, bs: bytes)
      requires Laws()
      ensures Fold(one, add(p, q), bs) == add(Fold(one, p, bs), Times(q, 8 * |bs|))
    {
      if bs != [] {
        var front := bs[..|bs| - 1];
        FoldAdd(one, p, q, front);
        TimesAdd(Fold(one, p, front), Times(q, 8 * |front|), 8);
        TimesTimes(q, 8 * |front|, 8);
        assert SwapAt(Times(Fold(one, p, front), 8), Times(q, 8 * |bs|), Scale(bs[|bs| - 1], one));
      }
    }

    lemma {:induction false} FoldSplit(one: G, p: G, a: bytes, b: bytes)
      ensures Fold(one, p, a + b) == Fold(one, Fold(one, p, a), b)
    {
      if b == [] {
        assert a + b == a;
      } else {
        FoldSplit(one, p, a, b[..|b| - 1]);
        assert (a + b)[..|a + b| - 1] == a + b[..|b| - 1];
      }
    }

    // After n more bytes the oldest byte counts Times(byte, 8 * n); adding that drops it.
    lemma {:induction false} FoldDrop(one: G, bs: bytes)
      requires Laws() && bs != []
      ensures add(Fold(one, zero, bs), Scale(bs[0], Times(one, 8 * (|bs| - 1)))) == Fold(one, zero, bs[1..])
    {
      var b, n := Scale(bs[0], one), 8 * (|bs| - 1);
      assert bs == [bs[0]] + bs[1..];
      FoldSplit(one, zero, [bs[0]], bs[1..]);
      TimesZero(8);
      assert Fold(one, zero, [bs[0]]) == add(Times(Fold(one, zero, []), 8), b) by { assert [bs[0]][..0] == []; }
      FoldAdd(one, zero, b, bs[1..]);
      TimesScale(bs[0], one, n);
      assert CancelAt(Fold(one, zero, bs[1..]), Times(b, n));
    }

    // ----- tables of multiples

    // A row of multiples of one, made from the eight entries with the halved indices.
    ghost predicate Grows(row: Sixteen<G>, h0: G, h1: G, h2: G, h3: G, h4: G, h5: G, h6: G, h7: G, one: G) {
      && row.e0 == twice(h0) && row.e1 == add(twice(h0), one)
      && row.e2 == twice(h1) && row.e3 == add(twice(h1), one)
      && row.e4 == twice(h2) && row.e5 == add(twice(h2), one)
      && row.e6 == twice(h3) && row.e7 == add(twice(h3), one)
      && row.e8 == twice(h4) && row.e9 == add(twice(h4), one)
      && row.eA == twice(h5) && row.eB == add(twice(h5), one)
      && row.eC == twice(h6) && row.eD == add(twice(h6), one)
      && row.eE == twice(h7) && row.eF == add(twice(h7), one)
    }

    ghost predicate GrowsLow(row: Sixteen<G>, h: Sixteen<G>, one: G) {
      Grows(row, h.e0, h.e1, h.e2, h.e3, h.e4, h.e5, h.e6, h.e7, one)
    }

    ghost predicate GrowsHigh(row: Sixteen<G>, h: Sixteen<G>, one: G) {
      Grows(row, h.e8, h.e9, h.eA, h.eB, h.eC, h.eD, h.eE, h.eF, one)
    }

    // The whole table holds multiples of one.
    ghost predicate Multiples(rows: Sixteen<Sixteen<G>>, one: G) {
      && rows.e0.e0 == zero
      && GrowsLow(rows.e0, rows.e0, one) && GrowsHigh(rows.e1, rows.e0, one)
      && GrowsLow(rows.e2, rows.e1, one) && GrowsHigh(rows.e3, rows.e1, one)
      && GrowsLow(rows.e4, rows.e2, one) && GrowsHigh(rows.e5, rows.e2, one)
      && GrowsLow(rows.e6, rows.e3, one) && GrowsHigh(rows.e7, rows.e3, one)
      && GrowsLow(rows.e8, rows.e4, one) && GrowsHigh(rows.e9, rows.e4, one)
      && GrowsLow(rows.eA, rows.e5, one) && GrowsHigh(rows.eB, rows.e5, one)
      && GrowsLow(rows.eC, rows.e6, one) && GrowsHigh(rows.eD, rows.e6, one)
      && GrowsLow(rows.eE, rows.e7, one) && GrowsHigh(rows.eF, rows.e7, one)
    }

    lemma RowStep(row: Sixteen<G>, h: Sixteen<G>, one: G, j: nat)
      requires j < 16
      ensures GrowsLow(row, h, one) ==>
                row.At(j) == if j % 2 == 0 then twice(h.At(j / 2)) else add(twice(h.At(j / 2)), one)
      ensures GrowsHigh(row, h, one) ==>
                row.At(j) == if j % 2 == 0 then twice(h.At(8 + j / 2)) else add(twice(h.At(8 + j / 2)), one)
    {}

    lemma TableStep(rows: Sixteen<Sixteen<G>>, one: G, q: nat)
      requires Multiples(rows, one) && q < 16
      ensures if q % 2 == 0 then GrowsLow(rows.At(q), rows.At(q / 2), one)
              else GrowsHigh(rows.At(q), rows.At(q / 2), one)
    {}

    lemma HalfIndex(i: byte)
      ensures (i / 2) / 16 == i / 16 / 2 && (i / 2) % 16 == 8 * (i / 16 % 2) + i % 16 / 2
      ensures i % 2 == i % 16 % 2
    {}

    lemma EntryStep(rows: Sixteen<Sixteen<G>>, one: G, i: byte)
      requires Multiples(rows, one)
      ensures Entry(rows, i) == if i % 2 == 0 then twice(Entry(rows, i / 2)) else add(twice(Entry(rows, i / 2)), one)
    {
      hide Sixteen.At, GrowsLow, GrowsHigh, Multiples;
      HalfIndex(i);
      TableStep(rows, one, i / 16);
      RowStep(rows.At(i / 16), rows.At(i / 16 / 2), one, i % 16);
    }

    lemma {:induction false} EntryIsScale(rows: Sixteen<Sixteen<G>>, one: G, i: byte)
      requires Multiples(rows, one)
      ensures Entry(rows, i) == Scale(i, one)
    {
      if i > 0 {
        EntryIsScale(rows, one, i / 2);
        EntryStep(rows, one, i);
      }
    }
  }

  function Entry<G>(rows: Sixteen<Sixteen<G>>, i: byte): G {
    rows.At(i / 16).At(i % 16)
  }

  datatype Sixteen<+G> = Sixteen(e0: G, e1: G, e2: G, e3: G, e4: G, e5: G, e6: G, e7: G,
                                 e8: G, e9: G, eA: G, eB: G, eC: G, eD: G, eE: G, eF: G) {
    function At(i: nat): G
      requires i < 16
    {
      match i
      case 0 => e0 case 1 => e1 case 2 => e2 case 3 => e3
      case 4 => e4 case 5 => e5 case 6 => e6 case 7 => e7
      case 8 => e8 case 9 => e9 case 10 => eA case 11 => eB
      case 12 => eC case 13 => eD case 14 => eE case _ => eF
    }
  }
}
