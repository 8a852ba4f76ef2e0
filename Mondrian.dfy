/** The partition generator of MondrianGenerator.java: rectangles are mutable
    objects, the list holds references to them, and a split may leave the same
    object at two positions of the list, as in the source. */
module Mondrian {
  import opened Rounding
  import opened Geometry

  /** java.awt.Rectangle, with the four public fields the generator assigns. */
  class Rectangle {
    var x: int
    var y: int
    var width: int
    var height: int

    constructor (x: int, y: int, width: int, height: int)
      ensures Bounds() == Box(x, y, width, height)
    {
      this.x, this.y, this.width, this.height := x, y, width, height;
    }

    function Bounds(): (b: Box)
      reads this
    {
      Box(x, y, width, height)
    }
  }

  /** The panes a list of rectangle references denotes: each distinct object,
      however many positions of the list hold it, with its current bounds. */
  ghost function Layout(rs: seq<Rectangle>): (panes: map<Rectangle, Box>)
    reads rs
  {
    map r | r in rs :: r.Bounds()
  }

  /** splitHorBottom: a fresh rectangle for the bottom part; r is not changed. */
  method SplitHorBottom(r: Rectangle, s: Ratio) returns (r2: Rectangle)
    requires s.Valid()
    ensures fresh(r2)
    ensures r2.Bounds() == HorBottom(r.Bounds(), Cut(r.height, s))
  {
    r2 := new Rectangle(r.x, r.y, r.width, r.height);
    var c := Cut(r2.height, s);
    r2.y := r2.y + c;
    r2.height := r2.height - c;
  }

  /** splitHorTop: r itself becomes the top part; only its height changes. */
  method SplitHorTop(r: Rectangle, s: Ratio) returns (top: Rectangle)
    requires s.Valid()
    modifies r
    ensures top == r
    ensures r.Bounds() == HorTop(old(r.Bounds()), Cut(old(r.height), s))
  {
    r.height := Cut(r.height, s);
    top := r;
  }

  /** splitVerRight: a fresh rectangle for the right part; r is not changed. */
  method SplitVerRight(r: Rectangle, s: Ratio) returns (r2: Rectangle)
    requires s.Valid()
    ensures fresh(r2)
    ensures r2.Bounds() == VerRight(r.Bounds(), Cut(r.width, s))
  {
    r2 := new Rectangle(r.x, r.y, r.width, r.height);
    var c := Cut(r2.width, s);
    r2.x := r2.x + c;
    r2.width := r2.width - c;
  }

  /** splitVerLeft: r itself becomes the left part; only its width changes. */
  method SplitVerLeft(r: Rectangle, s: Ratio) returns (left: Rectangle)
    requires s.Valid()
    modifies r
    ensures left == r
    ensures r.Bounds() == VerLeft(old(r.Bounds()), Cut(old(r.width), s))
  {
    r.width := Cut(r.width, s);
    left := r;
  }

  /** splitRectangleHor: the fresh bottom part is appended, then the mutated
      original is inserted again at index, so it sits at index and index + 1;
      the old entries after index move up by one.  Among the panes, the
      original's box becomes the top part and the new object holds the bottom. */
  method SplitRectangleHor(rs: seq<Rectangle>, index: int, s: Ratio) returns (rs': seq<Rectangle>)
    requires 0 <= index < |rs| && s.Valid()
    modifies rs[index]
    ensures |rs'| == |rs| + 2
    ensures forall i :: 0 <= i <= index ==> rs'[i] == rs[i]
    ensures rs'[index + 1] == rs[index]
    ensures forall i :: index < i < |rs| ==> rs'[i + 1] == rs[i]
    ensures fresh(rs'[|rs| + 1])
    ensures forall o :: o in rs' <==> o in rs || o == rs'[|rs| + 1]
    ensures rs[index].Bounds() == HorTop(old(rs[index].Bounds()), Cut(old(rs[index].height), s))
    ensures rs'[|rs| + 1].Bounds() == HorBottom(old(rs[index].Bounds()), Cut(old(rs[index].height), s))
    ensures Layout(rs') == old(Layout(rs))[rs[index] := rs[index].Bounds()][rs'[|rs| + 1] := rs'[|rs| + 1].Bounds()]
  {
    var r := rs[index];
    var bottom := SplitHorBottom(r, s);
    rs' := rs + [bottom];
    var top := SplitHorTop(rs'[index], s);
    rs' := rs'[..index] + [top] + rs'[index..];
    assert rs'[|rs| + 1] == bottom;
    ghost var expected := old(Layout(rs))[r := r.Bounds()][bottom := bottom.Bounds()];
    assert rs' == rs[..index] + [r] + rs[index..] + [bottom];
    assert rs == rs[..index] + rs[index..];
    assert forall o :: o in rs' <==> o in rs || o == bottom;
    forall o | o in Layout(rs') ensures o in expected && Layout(rs')[o] == expected[o] {
      if o != r && o != bottom {
        assert o in rs && o.Bounds() == old(o.Bounds());
      }
    }
    assert Layout(rs').Keys == expected.Keys;
  }

  /** splitRectangleVer: the mirror image of SplitRectangleHor. */
  method SplitRectangleVer(rs: seq<Rectangle>, index: int, s: Ratio) returns (rs': seq<Rectangle>)
    requires 0 <= index < |rs| && s.Valid()
    modifies rs[index]
    ensures |rs'| == |rs| + 2
    ensures forall i :: 0 <= i <= index ==> rs'[i] == rs[i]
    ensures rs'[index + 1] == rs[index]
    ensures forall i :: index < i < |rs| ==> rs'[i + 1] == rs[i]
    ensures fresh(rs'[|rs| + 1])
    ensures forall o :: o in rs' <==> o in rs || o == rs'[|rs| + 1]
    ensures rs[index].Bounds() == VerLeft(old(rs[index].Bounds()), Cut(old(rs[index].width), s))
    ensures rs'[|rs| + 1].Bounds() == VerRight(old(rs[index].Bounds()), Cut(old(rs[index].width), s))
    ensures Layout(rs') == old(Layout(rs))[rs[index] := rs[index].Bounds()][rs'[|rs| + 1] := rs'[|rs| + 1].Bounds()]
  {
    var r := rs[index];
    var right := SplitVerRight(r, s);
    rs' := rs + [right];
    var left := SplitVerLeft(rs'[index], s);
    rs' := rs'[..index] + [left] + rs'[index..];
    assert rs'[|rs| + 1] == right;
    ghost var expected := old(Layout(rs))[r := r.Bounds()][right := right.Bounds()];
    assert rs' == rs[..index] + [r] + rs[index..] + [right];
    assert rs == rs[..index] + rs[index..];
    assert forall o :: o in rs' <==> o in rs || o == right;
    forall o | o in Layout(rs') ensures o in expected && Layout(rs')[o] == expected[o] {
      if o != r && o != right {
        assert o in rs && o.Bounds() == old(o.Bounds());
      }
    }
    assert Layout(rs').Keys == expected.Keys;
  }

  /** createRectangles, lines 52-61: the canvas rectangle, one horizontal
      split of it, and one vertical split of each half with the same ratio.
      The list then holds 7 references to 4 panes: top-left three times,
      bottom-left twice, then top-right and bottom-right.  Both left panes get
      the same width cx and both right panes start at x = cx, so the vertical
      line at cx and the horizontal line at cy each run across the canvas. */
  method InitialCross(width: int, height: int, s1: Ratio, s2: Ratio) returns (rs: seq<Rectangle>)
    requires 0 <= width && 0 <= height && s1.Valid() && s2.Valid()
    ensures |rs| == 7 && fresh(rs[0]) && fresh(rs[3]) && fresh(rs[5]) && fresh(rs[6])
    ensures rs[1] == rs[0] && rs[2] == rs[0] && rs[4] == rs[3]
    ensures rs[0] != rs[3] && rs[0] != rs[5] && rs[0] != rs[6]
    ensures rs[3] != rs[5] && rs[3] != rs[6] && rs[5] != rs[6]
    ensures var cy, cx := Cut(height, s1), Cut(width, s2);
      && rs[0].Bounds() == Box(0, 0, cx, cy)
      && rs[3].Bounds() == Box(0, cy, cx, height - cy)
      && rs[5].Bounds() == Box(cx, 0, width - cx, cy)
      && rs[6].Bounds() == Box(cx, cy, width - cx, height - cy)
  {
    var cy, cx := Cut(height, s1), Cut(width, s2);
    CutBounds(height, s1);
    CutBounds(width, s2);
    var tl := new Rectangle(0, 0, width, height);
    rs := [tl];
    rs := SplitRectangleHor(rs, 0, s1);
    var bl := rs[2];
    assert rs == [tl, tl, bl];
    // the full-span horizontal line: both parts keep x = 0 and the full width
    assert tl.Bounds() == Box(0, 0, width, cy) && bl.Bounds() == Box(0, cy, width, height - cy);
    rs := SplitRectangleVer(rs, 0, s2);
    var tr := rs[4];
    assert rs == [tl, tl, tl, bl, tr];
    rs := SplitRectangleVer(rs, 3, s2);
    var br := rs[6];
    assert rs == [tl, tl, tl, bl, bl, tr, br];
    assert tl.Bounds() == Box(0, 0, cx, cy) && bl.Bounds() == Box(0, cy, cx, height - cy);
  }

  /** The list InitialCross leaves denotes 4 panes, which tile the canvas and
      leave the line y = cy and the line x = cx clear. */
  lemma InitialLayout(rs: seq<Rectangle>, width: int, height: int, cy: int, cx: int)
    requires |rs| == 7 && rs[1] == rs[0] && rs[2] == rs[0] && rs[4] == rs[3]
    requires rs[0] != rs[3] && rs[0] != rs[5] && rs[0] != rs[6]
    requires rs[3] != rs[5] && rs[3] != rs[6] && rs[5] != rs[6]
    requires 0 <= cy <= height && 0 <= cx <= width
    requires rs[0].Bounds() == Box(0, 0, cx, cy) && rs[3].Bounds() == Box(0, cy, cx, height - cy)
    requires rs[5].Bounds() == Box(cx, 0, width - cx, cy) && rs[6].Bounds() == Box(cx, cy, width - cx, height - cy)
    ensures forall o :: o in rs <==> o in {rs[0], rs[3], rs[5], rs[6]}
    ensures |Layout(rs)| == 4
    ensures Composition(Layout(rs), width, height, cy, cx)
  {
    assert forall o :: o in rs <==> o in {rs[0], rs[3], rs[5], rs[6]};
    assert Layout(rs).Keys == {rs[0], rs[3], rs[5], rs[6]};
    assert Layout(rs) == map[rs[0] := rs[0].Bounds(), rs[3] := rs[3].Bounds(),
                             rs[5] := rs[5].Bounds(), rs[6] := rs[6].Bounds()];
    CrossTiles(rs[0], rs[3], rs[5], rs[6], width, height, cy, cx);
  }

  /** One bulk-pass iteration's draws: the ratio from getRandom, the roll
      (int) (Math.random() * 3 + 1) and the roll (int) (Math.random() * 2 + 1). */
  datatype Draw = Draw(size: Ratio, splitRoll: int, orientRoll: int) {
    /** the 1/3 chance: the rectangle is split when the first roll is 3 */
    predicate Splits() {
      splitRoll == 3
    }

    /** the 1/2 chance: the split is horizontal when the second roll is 1 */
    predicate Horizontal() {
      orientRoll == 1
    }
  }

  predicate ValidDraws(draws: seq<Draw>) {
    forall i :: 0 <= i < |draws| ==> draws[i].size.Valid()
  }

  /** The number of split decisions among the first n iterations' draws;
      iterations beyond the end of the draws do not split. */
  function SplitCount(draws: seq<Draw>, n: nat): (k: nat) {
    if n == 0 then 0
    else SplitCount(draws, n - 1) + (if n - 1 < |draws| && draws[n - 1].Splits() then 1 else 0)
  }

  /** At most one split per iteration and per draw. */
  lemma {:induction false} SplitCountBound(draws: seq<Draw>, n: nat)
    ensures SplitCount(draws, n) <= n && SplitCount(draws, n) <= |draws|
  {
    if n > 0 {
      SplitCountBound(draws, n - 1);
    }
  }

  /** The bulk pass over a list of n0 entries runs through its first n
      iterations: iteration i, which visits index i, starts only while the
      list, grown by the splits of the i - 1 iterations before it, has an
      entry at index i. */
  predicate Continues(n0: nat, draws: seq<Draw>, n: nat) {
    n == 0 || (Continues(n0, draws, n - 1) && n < n0 + 2 * SplitCount(draws, n - 1))
  }

  /** The bulk pass over a list of n0 entries stops with n entries: it ran
      through n - 1 iterations, after which index n does not exist. */
  predicate PassStops(n0: nat, draws: seq<Draw>, n: nat) {
    1 <= n && n == n0 + 2 * SplitCount(draws, n - 1) && Continues(n0, draws, n - 1)
  }

  lemma {:induction false} ContinuesPrefix(n0: nat, draws: seq<Draw>, n: nat, i: nat)
    requires Continues(n0, draws, n) && 1 <= i <= n
    ensures i < n0 + 2 * SplitCount(draws, i - 1)
  {
    if i < n {
      ContinuesPrefix(n0, draws, n - 1, i);
    }
  }

  /** The draws determine where the pass stops. */
  lemma PassStopsUnique(n0: nat, draws: seq<Draw>, a: nat, b: nat)
    requires PassStops(n0, draws, a) && PassStops(n0, draws, b)
    ensures a == b
  {
    if a < b {
      ContinuesPrefix(n0, draws, b - 1, a);
    } else if b < a {
      ContinuesPrefix(n0, draws, a - 1, b);
    }
  }

  /** One iteration of the bulk pass, lines 65-74: with draw d, entry j is
      split horizontally or vertically, or left alone.  A split adds one new
      pane and two list entries, keeps entries 0..j where they are, and keeps
      the tiling and the cross lines. */
  method VisitEntry(rs: seq<Rectangle>, j: int, d: Draw, ghost w: int, ghost h: int, ghost cy: int, ghost cx: int,
                    ghost m0: map<Rectangle, Box>)
    returns (rs': seq<Rectangle>)
    requires 0 <= j < |rs| && d.size.Valid()
    requires Composition(Layout(rs), w, h, cy, cx) && Refines(Layout(rs), m0)
    modifies rs[j]
    ensures Composition(Layout(rs'), w, h, cy, cx) && Refines(Layout(rs'), m0)
    ensures !d.Splits() ==> rs' == rs && unchanged(rs[j])
    ensures forall o :: o in rs' ==> o in rs || fresh(o)
    ensures d.Splits() ==>
      && |rs'| == |rs| + 2 && |Layout(rs')| == |old(Layout(rs))| + 1
      && fresh(rs'[|rs| + 1]) && (forall o :: o in rs' <==> o in rs || o == rs'[|rs| + 1])
      && (forall i :: 0 <= i <= j ==> rs'[i] == rs[i]) && rs'[j + 1] == rs[j]
      && (forall i :: j < i < |rs| ==> rs'[i + 1] == rs[i])
    ensures d.Splits() && d.Horizontal() ==>
      var b, c := old(rs[j].Bounds()), Cut(old(rs[j].height), d.size);
      Layout(rs') == old(Layout(rs))[rs[j] := HorTop(b, c)][rs'[|rs| + 1] := HorBottom(b, c)]
    ensures d.Splits() && !d.Horizontal() ==>
      var b, c := old(rs[j].Bounds()), Cut(old(rs[j].width), d.size);
      Layout(rs') == old(Layout(rs))[rs[j] := VerLeft(b, c)][rs'[|rs| + 1] := VerRight(b, c)]
  {
    rs' := rs;
    if d.Splits() {
      var r := rs[j];
      ghost var before := Layout(rs);
      assert r in before;
      if d.Horizontal() {
        CutBounds(r.height, d.size);
        HorSplit(r.Bounds(), Cut(r.height, d.size));
        rs' := SplitRectangleHor(rs, j, d.size);
      } else {
        CutBounds(r.width, d.size);
        VerSplit(r.Bounds(), Cut(r.width, d.size));
        rs' := SplitRectangleVer(rs, j, d.size);
      }
      var n := rs'[|rs'| - 1];
      assert Layout(rs').Keys == before.Keys + {n};
      SplitPreservesTiling(before, r, n, r.Bounds(), n.Bounds(), w, h);
      SplitPreservesCross(before, r, n, r.Bounds(), n.Bounds(), cy, cx);
      SplitPreservesRefines(before, r, n, r.Bounds(), n.Bounds(), m0);
    }
  }

  /** createRectangles, lines 64-75: for j = 1 while j < rs.size(), iteration j
      uses draws[j - 1] and may split entry j.  The bound is read again on every
      iteration, so the loop also visits the entries it appends: it ends after
      exactly |rs| - 1 iterations, each of which added 2 entries or none.
      Entry 0 is never split and the tiling and the cross lines survive. */
  method BulkPass(rs0: seq<Rectangle>, draws: seq<Draw>, ghost w: int, ghost h: int, ghost cy: int, ghost cx: int,
                  ghost m0: map<Rectangle, Box>)
    returns (rs: seq<Rectangle>)
    requires 1 <= |rs0| && ValidDraws(draws)
    requires Composition(Layout(rs0), w, h, cy, cx) && Refines(Layout(rs0), m0)
    modifies set r | r in rs0
    ensures Composition(Layout(rs), w, h, cy, cx) && Refines(Layout(rs), m0)
    ensures |rs0| <= |rs| && rs[0] == rs0[0]
    ensures PassStops(|rs0|, draws, |rs|)
    ensures |Layout(rs)| == |Layout(rs0)| + SplitCount(draws, |rs| - 1)
    ensures 3 <= |rs0| && rs0[1] == rs0[0] && rs0[2] == rs0[0] ==> rs[1] == rs[0] && rs[2] == rs[0]
  {
    rs := rs0;
    var j := 1;
    while j < |rs|
      invariant 1 <= j <= |rs|
      invariant rs[0] == rs0[0]
      invariant |rs| == |rs0| + 2 * SplitCount(draws, j - 1)
      invariant Continues(|rs0|, draws, j - 1)
      invariant |Layout(rs)| == |Layout(rs0)| + SplitCount(draws, j - 1)
      invariant 3 <= |rs0| && rs0[1] == rs0[0] && rs0[2] == rs0[0] ==> rs[1] == rs[0] && rs[2] == rs[0]
      invariant forall r :: r in rs ==> r in rs0 || fresh(r)
      invariant Composition(Layout(rs), w, h, cy, cx) && Refines(Layout(rs), m0)
      decreases (if j <= |draws| then 3 * (|draws| - j + 1) else 0) + |rs| - j
    {
      if j - 1 < |draws| {
        rs := VisitEntry(rs, j, draws[j - 1], w, h, cy, cx, m0);
      }
      j := j + 1;
    }
  }

  /** createRectangles: the distinct rectangles of the result tile the
      width x height canvas exactly, the horizontal line at the first cut and
      the vertical line at the second run edge to edge through it, and the
      list holds the 7 initial entries plus 2 for every split the bulk pass
      made while visiting each of its entries. */
  method CreateRectangles(width: int, height: int, s1: Ratio, s2: Ratio, draws: seq<Draw>)
    returns (rs: seq<Rectangle>)
    requires 0 <= width && 0 <= height && s1.Valid() && s2.Valid() && ValidDraws(draws)
    ensures 7 <= |rs| && PassStops(7, draws, |rs|)
    ensures Tiles(Layout(rs), width, height) && WellFormed(Layout(rs))
    ensures forall X, Y :: 0 < X < width && 0 < Y < height ==> Junction(Layout(rs), X, Y)
    ensures Cross(Layout(rs), Cut(height, s1), Cut(width, s2))
    ensures |Layout(rs)| == 4 + SplitCount(draws, |rs| - 1) && |rs| <= 7 + 2 * |draws|
    ensures rs[1] == rs[0] && rs[2] == rs[0]
  {
    rs := InitialCross(width, height, s1, s2);
    CutBounds(height, s1);
    CutBounds(width, s2);
    InitialLayout(rs, width, height, Cut(height, s1), Cut(width, s2));
    ghost var initial := Layout(rs);
    RefinesSelf(initial);
    rs := BulkPass(rs, draws, width, height, Cut(height, s1), Cut(width, s2), initial);
    SplitCountBound(draws, |rs| - 1);
    NoNakedCorners(Layout(rs), width, height);
  }
}
