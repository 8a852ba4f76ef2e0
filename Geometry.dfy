/** Value-level geometry of the panes: boxes, the halves of a split, and what
    it means for a family of panes to tile the canvas. */
module Geometry {
  import opened Rounding

  /** The bounds of a java.awt.Rectangle: top-left corner, width and height. */
  datatype Box = Box(x: int, y: int, width: int, height: int)

  function Area(b: Box): (a: int) {
    b.width * b.height
  }

  /** Pixel (px, py) lies in the half-open box [x, x + width) x [y, y + height). */
  predicate Covers(b: Box, px: int, py: int) {
    b.x <= px < b.x + b.width && b.y <= py < b.y + b.height
  }

  predicate InCanvas(w: int, h: int, px: int, py: int) {
    0 <= px < w && 0 <= py < h
  }

  predicate NonNegBox(b: Box) {
    0 <= b.width && 0 <= b.height
  }

  /** p lies within b. */
  predicate Inside(p: Box, b: Box) {
    b.x <= p.x && p.x + p.width <= b.x + b.width &&
    b.y <= p.y && p.y + p.height <= b.y + b.height
  }

  /** The two halves of a horizontal split at cut c (the top part's height). */
  function HorTop(b: Box, c: int): (top: Box) {
    b.(height := c)
  }

  function HorBottom(b: Box, c: int): (bottom: Box) {
    b.(y := b.y + c, height := b.height - c)
  }

  /** The two halves of a vertical split at cut c (the left part's width). */
  function VerLeft(b: Box, c: int): (left: Box) {
    b.(width := c)
  }

  function VerRight(b: Box, c: int): (right: Box) {
    b.(x := b.x + c, width := b.width - c)
  }

  /** p and q together cover exactly the pixels of b, and no pixel twice. */
  ghost predicate Partitions(b: Box, p: Box, q: Box) {
    forall px, py ::
      (Covers(b, px, py) <==> Covers(p, px, py) || Covers(q, px, py)) &&
      !(Covers(p, px, py) && Covers(q, px, py))
  }

  /** A legal split of b into p and q: an exact partition into two
      well-formed boxes inside b. */
  ghost predicate SplitOf(b: Box, p: Box, q: Box) {
    Partitions(b, p, q) && Inside(p, b) && Inside(q, b) && NonNegBox(p) && NonNegBox(q)
  }

  /** A horizontal split at 0 <= c <= height keeps x and width, gives the top
      part the rows [y, y + c) and the bottom part the rows [y + c, y + height):
      the two share the edge y + c, their areas add up, and they tile b. */
  lemma HorSplit(b: Box, c: int)
    requires NonNegBox(b) && 0 <= c <= b.height
    ensures HorTop(b, c).x == HorBottom(b, c).x == b.x
    ensures HorTop(b, c).width == HorBottom(b, c).width == b.width
    ensures HorTop(b, c).y == b.y && HorTop(b, c).y + HorTop(b, c).height == b.y + c
    ensures HorBottom(b, c).y == b.y + c && HorBottom(b, c).y + HorBottom(b, c).height == b.y + b.height
    ensures Area(HorTop(b, c)) + Area(HorBottom(b, c)) == Area(b)
    ensures SplitOf(b, HorTop(b, c), HorBottom(b, c))
  {
    assert b.width * c + b.width * (b.height - c) == b.width * b.height;
  }

  /** The mirror image of HorSplit on x and width. */
  lemma VerSplit(b: Box, c: int)
    requires NonNegBox(b) && 0 <= c <= b.width
    ensures VerLeft(b, c).y == VerRight(b, c).y == b.y
    ensures VerLeft(b, c).height == VerRight(b, c).height == b.height
    ensures VerLeft(b, c).x == b.x && VerLeft(b, c).x + VerLeft(b, c).width == b.x + c
    ensures VerRight(b, c).x == b.x + c && VerRight(b, c).x + VerRight(b, c).width == b.x + b.width
    ensures Area(VerLeft(b, c)) + Area(VerRight(b, c)) == Area(b)
    ensures SplitOf(b, VerLeft(b, c), VerRight(b, c))
  {
    assert c * b.height + (b.width - c) * b.height == b.width * b.height;
  }

  /** Pixel (px, py) is in some pane of m exactly when it lies in the w x h
      canvas, and it is never in two different panes. */
  ghost predicate TiledAt<K>(m: map<K, Box>, w: int, h: int, px: int, py: int) {
    (InCanvas(w, h, px, py) <==> exists k :: k in m && Covers(m[k], px, py)) &&
    (forall k1, k2 :: k1 in m && k2 in m && k1 != k2 && Covers(m[k1], px, py) ==> !Covers(m[k2], px, py))
  }

  /** The panes m (one box per distinct pane) tile the w x h canvas exactly:
      they cover every canvas pixel, nothing outside it, and no pixel twice. */
  ghost predicate Tiles<K>(m: map<K, Box>, w: int, h: int) {
    forall px, py :: TiledAt(m, w, h, px, py)
  }

  /** Line y = cy and line x = cx cut through no pane: each pane lies wholly
      above or below the one and wholly left or right of the other.  With
      Tiles this makes both lines full-span boundaries of the composition. */
  predicate Clear(b: Box, cy: int, cx: int) {
    (b.y + b.height <= cy || cy <= b.y) && (b.x + b.width <= cx || cx <= b.x)
  }

  ghost predicate Cross<K>(m: map<K, Box>, cy: int, cx: int) {
    forall k :: k in m ==> Clear(m[k], cy, cx)
  }

  ghost predicate WellFormed<K>(m: map<K, Box>) {
    forall k :: k in m ==> NonNegBox(m[k])
  }

  /** A legal composition: the panes tile the canvas, are well formed, and
      leave the line y = cy and the line x = cx clear. */
  ghost predicate Composition<K>(m: map<K, Box>, w: int, h: int, cy: int, cx: int) {
    Tiles(m, w, h) && WellFormed(m) && Cross(m, cy, cx)
  }

  /** The canvas as a single pane tiles itself. */
  lemma CanvasTiles<K>(k: K, w: int, h: int)
    ensures Tiles(map[k := Box(0, 0, w, h)], w, h)
  {
    var m := map[k := Box(0, 0, w, h)];
    forall px, py ensures TiledAt(m, w, h, px, py) {
      if InCanvas(w, h, px, py) {
        assert Covers(m[k], px, py);
      }
    }
  }

  /** Replacing pane k by p and adding a new pane n with q, where p and q
      partition k's box, keeps the tiling of the canvas exact. */
  lemma {:induction false} SplitPreservesTiling<K>(m: map<K, Box>, k: K, n: K, p: Box, q: Box, w: int, h: int)
    requires Tiles(m, w, h) && k in m && n !in m && Partitions(m[k], p, q)
    ensures Tiles(m[k := p][n := q], w, h)
  {
    var m' := m[k := p][n := q];
    assert forall k' :: k' in m' && k' != k && k' != n ==> k' in m && m'[k'] == m[k'];
    forall px, py ensures TiledAt(m', w, h, px, py) {
      assert TiledAt(m, w, h, px, py);
      assert Covers(m[k], px, py) <==> Covers(p, px, py) || Covers(q, px, py);
      assert !(Covers(p, px, py) && Covers(q, px, py));
      if InCanvas(w, h, px, py) {
        var k0 :| k0 in m && Covers(m[k0], px, py);
        if k0 != k {
          assert Covers(m'[k0], px, py);
        } else if Covers(p, px, py) {
          assert Covers(m'[k], px, py);
        } else {
          assert Covers(m'[n], px, py);
        }
      }
      if exists k' :: k' in m' && Covers(m'[k'], px, py) {
        var k1 :| k1 in m' && Covers(m'[k1], px, py);
        var o1 := if k1 == n then k else k1;
        assert Covers(m[o1], px, py);
      }
      forall k1, k2 | k1 in m' && k2 in m' && k1 != k2 && Covers(m'[k1], px, py)
        ensures !Covers(m'[k2], px, py)
      {
        var o1 := if k1 == n then k else k1;
        var o2 := if k2 == n then k else k2;
        assert Covers(m[o1], px, py);
        if o1 == o2 {
          assert !(Covers(p, px, py) && Covers(q, px, py));
        } else {
          assert !Covers(m[o2], px, py);
        }
      }
    }
  }

  /** The same replacement, with p and q well formed and inside k's box,
      keeps every pane well formed and both cross lines clear. */
  lemma SplitPreservesCross<K>(m: map<K, Box>, k: K, n: K, p: Box, q: Box, cy: int, cx: int)
    requires WellFormed(m) && Cross(m, cy, cx) && k in m && SplitOf(m[k], p, q)
    ensures WellFormed(m[k := p][n := q]) && Cross(m[k := p][n := q], cy, cx)
  {
    var m' := m[k := p][n := q];
    forall k' | k' in m' ensures Clear(m'[k'], cy, cx) {
      if k' == k || k' == n {
        assert Clear(m[k], cy, cx);
      }
    }
  }

  /** The four panes left by the initial cross, top-left, bottom-left,
      top-right and bottom-right, tile the canvas and leave the line y = cy
      and the line x = cx clear: it is the canvas split at cy and both halves
      split at the same cx. */
  lemma CrossTiles<K>(tl: K, bl: K, tr: K, br: K, w: int, h: int, cy: int, cx: int)
    requires tl != bl && tl != tr && tl != br && bl != tr && bl != br && tr != br
    requires 0 <= cy <= h && 0 <= cx <= w
    ensures var m := map[tl := Box(0, 0, cx, cy), bl := Box(0, cy, cx, h - cy),
                         tr := Box(cx, 0, w - cx, cy), br := Box(cx, cy, w - cx, h - cy)];
      Composition(m, w, h, cy, cx)
  {
    var canvas := Box(0, 0, w, h);
    var m0 := map[tl := canvas];
    CanvasTiles(tl, w, h);
    HorSplit(canvas, cy);
    var top, bottom := HorTop(canvas, cy), HorBottom(canvas, cy);
    SplitPreservesTiling(m0, tl, bl, top, bottom, w, h);
    var m1 := m0[tl := top][bl := bottom];
    VerSplit(top, cx);
    SplitPreservesTiling(m1, tl, tr, VerLeft(top, cx), VerRight(top, cx), w, h);
    var m2 := m1[tl := VerLeft(top, cx)][tr := VerRight(top, cx)];
    VerSplit(bottom, cx);
    SplitPreservesTiling(m2, bl, br, VerLeft(bottom, cx), VerRight(bottom, cx), w, h);
    var m3 := m2[bl := VerLeft(bottom, cx)][br := VerRight(bottom, cx)];
    assert m3 == map[tl := Box(0, 0, cx, cy), bl := Box(0, cy, cx, h - cy),
                     tr := Box(cx, 0, w - cx, cy), br := Box(cx, cy, w - cx, h - cy)];
  }

  /** Pane k of m, if there is one, lies inside some pane of m0. */
  ghost predicate RefinedAt<K>(m: map<K, Box>, m0: map<K, Box>, k: K) {
    k in m ==> exists k0 :: k0 in m0 && Inside(m[k], m0[k0])
  }

  /** Every pane of m lies inside some pane of m0: m refines m0. */
  ghost predicate Refines<K>(m: map<K, Box>, m0: map<K, Box>) {
    forall k {:trigger RefinedAt(m, m0, k)} :: k in m ==> RefinedAt(m, m0, k)
  }

  lemma RefinesSelf<K>(m: map<K, Box>)
    ensures Refines(m, m)
  {
    forall k | k in m ensures RefinedAt(m, m, k) {
      assert Inside(m[k], m[k]);
    }
  }

  /** Replacing pane k by two parts inside its box keeps a refinement of m0. */
  lemma SplitPreservesRefines<K>(m: map<K, Box>, k: K, n: K, p: Box, q: Box, m0: map<K, Box>)
    requires Refines(m, m0) && k in m && Inside(p, m[k]) && Inside(q, m[k])
    ensures Refines(m[k := p][n := q], m0)
  {
    var m' := m[k := p][n := q];
    forall k' | k' in m' ensures RefinedAt(m', m0, k') {
      if k' == k || k' == n {
        assert RefinedAt(m, m0, k);
        var k0 :| k0 in m0 && Inside(m[k], m0[k0]);
        assert Inside(m'[k'], m0[k0]);
      } else {
        assert RefinedAt(m, m0, k') && m'[k'] == m[k'];
      }
    }
  }

  /** No pane of m holds both pixel (px, py) and pixel (qx, qy): a pane edge
      runs between them. */
  ghost predicate Apart<K>(m: map<K, Box>, px: int, py: int, qx: int, qy: int) {
    !exists k :: k in m && Covers(m[k], px, py) && Covers(m[k], qx, qy)
  }

  /** The lattice point (X, Y) is a proper junction of the lines of m.  Four
      unit edges meet there: up and down (between the pixels left and right
      of the point, above and below it) and left and right (between the
      pixels above and below it, left and right of it).  No line ends at the
      point (exactly one edge) and no two perpendicular edges meet alone (a
      naked L-corner): what remains is nothing, a straight line, a T-junction
      or a crossing. */
  ghost predicate Junction<K>(m: map<K, Box>, X: int, Y: int) {
    var up := Apart(m, X - 1, Y - 1, X, Y - 1);
    var down := Apart(m, X - 1, Y, X, Y);
    var left := Apart(m, X - 1, Y - 1, X - 1, Y);
    var right := Apart(m, X, Y - 1, X, Y);
    (up == down || (left && right)) && (left == right || (up && down))
  }

  /** In a tiling, two canvas pixels are apart exactly when different panes
      hold them. */
  lemma ApartIff<K>(m: map<K, Box>, w: int, h: int, k1: K, px: int, py: int, k2: K, qx: int, qy: int)
    requires TiledAt(m, w, h, px, py) && TiledAt(m, w, h, qx, qy)
    requires k1 in m && Covers(m[k1], px, py) && k2 in m && Covers(m[k2], qx, qy)
    ensures Apart(m, px, py, qx, qy) <==> k1 != k2
  {
    if k1 == k2 {
      assert Covers(m[k1], px, py) && Covers(m[k1], qx, qy);
    }
  }

  /** The junction rule on the panes holding the four pixels around a point
      (a, b above, c, d below): when two diagonal pixels share a pane, all
      four do. */
  lemma JunctionOfOwners<K>(ka: K, kb: K, kc: K, kd: K)
    requires ka == kd ==> kb == ka && kc == ka
    requires kb == kc ==> ka == kb && kd == kb
    ensures var up, down, left, right := ka != kb, kc != kd, ka != kc, kb != kd;
      (up == down || (left && right)) && (left == right || (up && down))
  {
  }

  /** In a tiling, the interior lattice point (X, Y) is a proper junction. */
  lemma JunctionAt<K>(m: map<K, Box>, w: int, h: int, X: int, Y: int)
    requires Tiles(m, w, h) && 0 < X < w && 0 < Y < h
    ensures Junction(m, X, Y)
  {
    assert TiledAt(m, w, h, X - 1, Y - 1) && TiledAt(m, w, h, X, Y - 1);
    assert TiledAt(m, w, h, X - 1, Y) && TiledAt(m, w, h, X, Y);
    var ka :| ka in m && Covers(m[ka], X - 1, Y - 1);
    var kb :| kb in m && Covers(m[kb], X, Y - 1);
    var kc :| kc in m && Covers(m[kc], X - 1, Y);
    var kd :| kd in m && Covers(m[kd], X, Y);
    ApartIff(m, w, h, ka, X - 1, Y - 1, kb, X, Y - 1);
    ApartIff(m, w, h, kc, X - 1, Y, kd, X, Y);
    ApartIff(m, w, h, ka, X - 1, Y - 1, kc, X - 1, Y);
    ApartIff(m, w, h, kb, X, Y - 1, kd, X, Y);
    // a pane holding two diagonal pixels holds all four
    if ka == kd {
      assert Covers(m[ka], X, Y - 1) && Covers(m[ka], X - 1, Y);
    }
    if kb == kc {
      assert Covers(m[kb], X - 1, Y - 1) && Covers(m[kb], X, Y);
    }
    JunctionOfOwners(ka, kb, kc, kd);
  }

  /** Lines of an exact tiling by rectangles never end in open space and
      never form a naked L-corner: every interior lattice point is a proper
      junction. */
  lemma NoNakedCorners<K>(m: map<K, Box>, w: int, h: int)
    requires Tiles(m, w, h)
    ensures forall X, Y :: 0 < X < w && 0 < Y < h ==> Junction(m, X, Y)
  {
    forall X, Y | 0 < X < w && 0 < Y < h ensures Junction(m, X, Y) {
      JunctionAt(m, w, h, X, Y);
    }
  }

  /** The bottom part exactly as the source computes it (lines 82-85):
      its height is rounded on its own instead of taking what the top left. */
  function SourceHorBottom(b: Box, s: Ratio): (bottom: Box)
    requires s.Valid()
  {
    b.(y := b.y + Cut(b.height, s), height := SourceRest(b.height, s))
  }

  /** The right part exactly as the source computes it (lines 95-98). */
  function SourceVerRight(b: Box, s: Ratio): (right: Box)
    requires s.Valid()
  {
    b.(x := b.x + Cut(b.width, s), width := SourceRest(b.width, s))
  }

  /** On the 750 x 750 canvas with size = 1/4, the source's first split makes
      a bottom part reaching row 750, one row below the canvas. */
  lemma SourceBottomLeavesCanvas()
    ensures var canvas, s := Box(0, 0, 750, 750), Ratio(1, 4);
      s.Valid() && FromGetRandom(s) &&
      SourceHorBottom(canvas, s) == Box(0, 563, 750, 188) &&
      Covers(SourceHorBottom(canvas, s), 0, 750) && !InCanvas(750, 750, 0, 750) &&
      !Partitions(canvas, HorTop(canvas, Cut(750, s)), SourceHorBottom(canvas, s))
  {
    var canvas, s := Box(0, 0, 750, 750), Ratio(1, 4);
    SourceOverhangAt750();
    assert Covers(SourceHorBottom(canvas, s), 0, 750) && !Covers(canvas, 0, 750);
  }

  /** The same on the right part of a vertical split. */
  lemma SourceRightLeavesCanvas()
    ensures var canvas, s := Box(0, 0, 750, 750), Ratio(1, 4);
      s.Valid() && FromGetRandom(s) &&
      SourceVerRight(canvas, s) == Box(563, 0, 188, 750) &&
      Covers(SourceVerRight(canvas, s), 750, 0) && !InCanvas(750, 750, 750, 0) &&
      !Partitions(canvas, VerLeft(canvas, Cut(750, s)), SourceVerRight(canvas, s))
  {
    var canvas, s := Box(0, 0, 750, 750), Ratio(1, 4);
    SourceOverhangAt750();
    assert Covers(SourceVerRight(canvas, s), 750, 0) && !Covers(canvas, 750, 0);
  }
}
