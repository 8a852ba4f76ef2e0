/** The split ratio and Java's Math.round, in exact integer arithmetic.

    The generator draws a double `size` and cuts a side of length h at
    Math.round(h * (1 - size)).  Here `size` is a rational num/den and the
    rounding is done exactly, so no IEEE effects are modelled. */
module Rounding {

  /** A split ratio size = num / den (the value getRandom returns). */
  datatype Ratio = Ratio(num: nat, den: nat) {
    /** 0 <= size <= 1, the range in which a split keeps both halves inside the original. */
    predicate Valid() {
      0 < den && num <= den
    }
  }

  /** getRandom's range: Math.random() * 2 / 3 + 0.1 lies in [1/10, 23/30). */
  predicate FromGetRandom(s: Ratio) {
    s.den <= 10 * s.num && 30 * s.num < 23 * s.den
  }

  /** Math.round(p / q) for q > 0: the integer nearest p / q, ties rounded up
      (Java's round is floor(v + 1/2)). */
  function Round(p: int, q: int): (r: int)
    requires 0 < q
    ensures 2 * q * r <= 2 * p + q < 2 * q * r + 2 * q
  {
    (2 * p + q) / (2 * q)
  }

  /** Math.round(h * (1 - size)): the height of the top part of a horizontal
      split (or the width of the left part of a vertical one). */
  function Cut(h: int, s: Ratio): (c: int)
    requires s.Valid()
  {
    Round(h * (s.den - s.num), s.den)
  }

  /** Math.round(h * size), the size the source gives the bottom (right) part. */
  function SourceRest(h: int, s: Ratio): (rest: int)
    requires s.Valid()
  {
    Round(h * s.num, s.den)
  }

  lemma MulNonNeg(a: int, b: int)
    requires 0 <= a && 0 <= b
    ensures 0 <= a * b
  {
  }

  lemma MulMono(a: int, b: int, c: int)
    requires 0 <= a && b <= c
    ensures a * b <= a * c
  {
    MulNonNeg(a, c - b);
    assert a * (c - b) == a * c - a * b;
  }

  lemma RoundAtLeast(p: int, q: int, k: int)
    requires 0 < q && 2 * q * k <= 2 * p + q
    ensures k <= Round(p, q)
  {
    var r := Round(p, q);
    if r < k {
      MulMono(2 * q, r + 1, k);
    }
  }

  lemma RoundAtMost(p: int, q: int, k: int)
    requires 0 < q && 2 * p + q < 2 * q * (k + 1)
    ensures Round(p, q) <= k
  {
    var r := Round(p, q);
    if r > k {
      MulMono(2 * q, k + 1, r);
    }
  }

  /** A cut of a non-negative side with a valid ratio stays inside the side. */
  lemma CutBounds(h: int, s: Ratio)
    requires 0 <= h && s.Valid()
    ensures 0 <= Cut(h, s) <= h
  {
    var p, q := h * (s.den - s.num), s.den;
    MulNonNeg(h, s.den - s.num);
    RoundAtLeast(p, q, 0);
    MulMono(h, s.den - s.num, s.den);
    assert 2 * q * (h + 1) == 2 * q * h + 2 * q;
    RoundAtMost(p, q, h);
  }

  /** With a ratio from getRandom, a side of length at least 6 is always cut
      into two non-empty parts. */
  lemma CutLeavesBothParts(h: int, s: Ratio)
    requires FromGetRandom(s) && 6 <= h
    ensures s.Valid()
    ensures 1 <= Cut(h, s) <= h - 1
  {
    var a, q := s.den - s.num, s.den;
    var p, hn := h * a, h * s.num;
    assert 30 * a > 7 * q;
    MulMono(a, 6, h);
    assert 6 * a <= p;
    RoundAtLeast(p, q, 1);
    MulMono(s.num, 6, h);
    assert 6 * s.num <= hn;
    Distrib(h, s.den, s.num);
    assert p + hn == h * q;
    assert 2 * q * (h - 1 + 1) == 2 * (h * q);
    RoundAtMost(p, q, h - 1);
  }

  /** The bound 6 in CutLeavesBothParts is tight: a side of 5 cut at the
      smallest ratio getRandom returns (0.1) leaves an empty second part. */
  lemma CutMayCollapse()
    ensures FromGetRandom(Ratio(1, 10)) && Cut(5, Ratio(1, 10)) == 5
  {
  }

  lemma Distrib(a: int, b: int, c: int)
    ensures a * (b - c) + a * c == a * b
  {
  }

  lemma DivSum(a: int, b: int, d: int, m: int)
    requires 0 < d && a + b == d * m
    ensures a / d + b / d == (if a % d == 0 then m else m - 1)
  {
    var qa, ra, qb, rb := a / d, a % d, b / d, b % d;
    assert a == d * qa + ra && 0 <= ra < d;
    assert b == d * qb + rb && 0 <= rb < d;
    assert d * (qa + qb) + ra + rb == d * m;
    if ra == 0 {
      assert rb == d * (m - qa - qb);
      if m - qa - qb != 0 {
        if m - qa - qb > 0 { MulMono(d, 1, m - qa - qb); } else { MulMono(d, m - qa - qb, -1); }
        assert false;
      }
    } else {
      assert ra + rb == d * (m - qa - qb);
      if m - qa - qb != 1 {
        if m - qa - qb > 1 { MulMono(d, 2, m - qa - qb); } else { MulMono(d, m - qa - qb, 0); }
        assert false;
      }
    }
  }

  /** The source rounds the two parts of a split independently: together they
      are either exactly the original side or one unit longer, and one unit
      longer precisely when h * (1 - size) ends in exactly one half. */
  lemma {:induction false} SourceHalvesOverhang(h: int, s: Ratio)
    requires s.Valid()
    ensures Cut(h, s) + SourceRest(h, s) == h || Cut(h, s) + SourceRest(h, s) == h + 1
    ensures Cut(h, s) + SourceRest(h, s) == h + 1
        <==> (2 * (h * (s.den - s.num)) + s.den) % (2 * s.den) == 0
  {
    var p, q, d := h * (s.den - s.num), h * s.num, 2 * s.den;
    Distrib(h, s.den, s.num);
    var a, b := 2 * p + s.den, 2 * q + s.den;
    Distrib(d, h + 1, h);
    assert Cut(h, s) == a / d;
    assert SourceRest(h, s) == b / d;
    DivSum(a, b, d, h + 1);
  }

  /** The overhang on the reference canvas: a 750-pixel side cut with
      size = 1/4 gets parts of 563 and 188 pixels, 751 in all. */
  lemma SourceOverhangAt750()
    ensures FromGetRandom(Ratio(1, 4))
    ensures Cut(750, Ratio(1, 4)) == 563 && SourceRest(750, Ratio(1, 4)) == 188
  {
  }
}
