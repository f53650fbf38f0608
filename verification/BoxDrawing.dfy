/**
  Geometric box drawing: glyphs as filled bars, and the paint loop that merges a run of horizontal
  rules into one bar. Pixel coordinates are reals.
  */
module BoxDrawing {
  import opened Text

  /** 0 none, 1 light, 2 heavy. */
  type Weight = n: int | 0 <= n <= 2

  datatype BoxParts = BoxParts(up: Weight, right: Weight, down: Weight, left: Weight)

  datatype Rect = Rect(x: real, y: real, w: real, h: real)

  datatype BoxCell = BoxCell(col: nat, parts: BoxParts, color: int)

  datatype Quad = Quad(rect: Rect, color: int)

  /** Pixel thickness of the two stroke weights. */
  datatype Strokes = Strokes(light: real, heavy: real)

  /** The grid a row is painted on: its left edge, the row's top, the cell size, and the strokes. */
  datatype Grid = Grid(left: real, top: real, cw: real, ch: real, px: Strokes)

  /** Rounding to the nearest integer, halves up: what `round` does for a non-negative height. */
  function Round(x: real): real {
    (x + 0.5).Floor as real
  }

  /** The strokes for a cell height: a twelfth of it, and twice that, never under one and two pixels. */
  function StrokePx(ch: real): Strokes {
    var rounded := Round(ch / 12.0);
    var light := if rounded < 1.0 then 1.0 else rounded;
    Strokes(light, if light * 2.0 < 2.0 then 2.0 else light * 2.0)
  }

  predicate Inked(px: Strokes) {
    px.light > 0.0 && px.heavy > 0.0
  }

  /** No stroke ever vanishes, the heavy one is twice the light one, and the light one is close to a twelfth. */
  lemma StrokesNeverVanish(ch: real)
    ensures var px := StrokePx(ch);
      px.light >= 1.0 && px.heavy == 2.0 * px.light && (ch >= 12.0 ==> -0.5 <= px.light - ch / 12.0 <= 0.5)
  {
    var x := ch / 12.0 + 0.5;
    assert x.Floor as real <= x < x.Floor as real + 1.0;
  }

  function WeightPx(w: Weight, px: Strokes): real {
    if w == 1 then px.light else if w == 2 then px.heavy else 0.0
  }

  predicate PureHorizontal(p: BoxParts) {
    p.up == 0 && p.down == 0 && p.left == p.right && p.left != 0
  }

  /** The one bar a pure horizontal stroke paints across its cell. */
  function HBar(p: BoxParts, g: Grid): Option<Rect> {
    if !PureHorizontal(p) then None
    else
      var t := if p.left == 2 then g.px.heavy else g.px.light;
      Some(Rect(0.0, g.ch / 2.0 - t / 2.0, g.cw, t))
  }

  /** The bars from the cell's centre to each edge the glyph reaches, of the given thicknesses. */
  function LeftBar(t: real, cx: real, cy: real): seq<Rect> {
    if t > 0.0 then [Rect(0.0, cy - t / 2.0, cx + t / 2.0, t)] else []
  }

  function RightBar(t: real, cw: real, cx: real, cy: real): seq<Rect> {
    if t > 0.0 then [Rect(cx - t / 2.0, cy - t / 2.0, cw - (cx - t / 2.0), t)] else []
  }

  function UpBar(t: real, cx: real, cy: real): seq<Rect> {
    if t > 0.0 then [Rect(cx - t / 2.0, 0.0, t, cy + t / 2.0)] else []
  }

  function DownBar(t: real, ch: real, cx: real, cy: real): seq<Rect> {
    if t > 0.0 then [Rect(cx - t / 2.0, cy - t / 2.0, t, ch - (cy - t / 2.0))] else []
  }

  function Bars(p: BoxParts, g: Grid): seq<Rect> {
    var (cx, cy) := (g.cw / 2.0, g.ch / 2.0);
    LeftBar(WeightPx(p.left, g.px), cx, cy)
    + RightBar(WeightPx(p.right, g.px), g.cw, cx, cy)
    + UpBar(WeightPx(p.up, g.px), cx, cy)
    + DownBar(WeightPx(p.down, g.px), g.ch, cx, cy)
  }

  /** The `push` of the source: one more bar into the fixed array. */
  method Push(out: array<Rect>, n: nat, r: Rect) returns (m: nat)
    requires n < out.Length
    modifies out
    ensures m == n + 1 && out[..m] == old(out[..n]) + [r]
  {
    out[n] := r;
    m := n + 1;
  }

  method Rects(p: BoxParts, g: Grid) returns (out: array<Rect>, n: nat)
    ensures out.Length == 4 && n <= 4 && out[..n] == Bars(p, g)
  {
    var cx, cy := g.cw / 2.0, g.ch / 2.0;
    out := new Rect[4](_ => Rect(0.0, 0.0, 0.0, 0.0));
    n := 0;
    var left := WeightPx(p.left, g.px);
    if left > 0.0 {
      n := Push(out, n, Rect(0.0, cy - left / 2.0, cx + left / 2.0, left));
    }
    assert n <= 1 && out[..n] == LeftBar(left, cx, cy);
    var right := WeightPx(p.right, g.px);
    if right > 0.0 {
      n := Push(out, n, Rect(cx - right / 2.0, cy - right / 2.0, g.cw - (cx - right / 2.0), right));
    }
    assert n <= 2 && out[..n] == LeftBar(left, cx, cy) + RightBar(right, g.cw, cx, cy);
    ghost var across := LeftBar(left, cx, cy) + RightBar(right, g.cw, cx, cy);
    var up := WeightPx(p.up, g.px);
    if up > 0.0 {
      n := Push(out, n, Rect(cx - up / 2.0, 0.0, up, cy + up / 2.0));
    }
    assert n <= 3 && out[..n] == across + UpBar(up, cx, cy);
    var down := WeightPx(p.down, g.px);
    if down > 0.0 {
      n := Push(out, n, Rect(cx - down / 2.0, cy - down / 2.0, down, g.ch - (cy - down / 2.0)));
    }
  }

  // ------------------------------------------------------------ ink

  ghost predicate Covers(r: Rect, x: real, y: real) {
    r.x <= x < r.x + r.w && r.y <= y < r.y + r.h
  }

  /** The colour showing at a point once the quads are painted in order. */
  ghost function Showing(quads: seq<Quad>, x: real, y: real): Option<int> {
    if quads == [] then None
    else if Covers(quads[|quads| - 1].rect, x, y) then Some(quads[|quads| - 1].color)
    else Showing(quads[..|quads| - 1], x, y)
  }

  ghost predicate SamePicture(a: seq<Quad>, b: seq<Quad>) {
    forall x, y :: Showing(a, x, y) == Showing(b, x, y)
  }

  ghost predicate SomeBarCovers(bars: seq<Rect>, x: real, y: real) {
    exists i :: 0 <= i < |bars| && Covers(bars[i], x, y)
  }

  /**
    The single bar of a horizontal stroke covers exactly what the glyph's own bars cover, if and only
    if the stroke is no thicker than the cell is wide.
    */
  lemma HBarIsUnionIff(p: BoxParts, g: Grid)
    requires PureHorizontal(p) && g.cw > 0.0 && Inked(g.px)
    ensures (forall x, y :: Covers(HBar(p, g).value, x, y) <==> SomeBarCovers(Bars(p, g), x, y))
       <==> WeightPx(p.left, g.px) <= g.cw
  {
    var t, bar, bars := WeightPx(p.left, g.px), HBar(p, g).value, Bars(p, g);
    assert |bars| == 2;
    if t <= g.cw {
      forall x, y ensures Covers(bar, x, y) <==> SomeBarCovers(bars, x, y) {
        assert Covers(bar, x, y) <==> Covers(bars[0], x, y) || Covers(bars[1], x, y);
      }
    } else {
      assert !Covers(bar, g.cw, g.ch / 2.0) && Covers(bars[0], g.cw, g.ch / 2.0);
      assert SomeBarCovers(bars, g.cw, g.ch / 2.0);
    }
  }

  // ------------------------------------------------------------ painting a row

  /** The width of `cols` cells side by side. */
  function Width(cw: real, cols: nat): real {
    if cols == 0 then 0.0 else Width(cw, cols - 1) + cw
  }

  lemma {:induction false} WidthIsProduct(cw: real, cols: nat)
    ensures Width(cw, cols) == cw * cols as real
  {
    if cols > 0 {
      WidthIsProduct(cw, cols - 1);
    }
  }

  ghost predicate Paintable(g: Grid) {
    g.cw > 0.0 && Inked(g.px)
  }

  function CellX(g: Grid, col: nat): real {
    g.left + Width(g.cw, col)
  }

  function Placed(r: Rect, g: Grid, col: nat, color: int): Quad {
    Quad(Rect(CellX(g, col) + r.x, g.top + r.y, r.w, r.h), color)
  }

  function PlacedAll(rs: seq<Rect>, g: Grid, col: nat, color: int): seq<Quad> {
    if rs == [] then [] else PlacedAll(rs[..|rs| - 1], g, col, color) + [Placed(rs[|rs| - 1], g, col, color)]
  }

  function CellQuads(c: BoxCell, g: Grid): seq<Quad> {
    PlacedAll(Bars(c.parts, g), g, c.col, c.color)
  }

  /** Painting one thing after the other. */
  function PaintAll<C>(cells: seq<C>, paint: C -> seq<Quad>): seq<Quad> {
    if cells == [] then [] else PaintAll(cells[..|cells| - 1], paint) + paint(cells[|cells| - 1])
  }

  function Painter(g: Grid): BoxCell -> seq<Quad> {
    c => CellQuads(c, g)
  }

  /** The plain way: every cell paints its own bars. */
  function CellByCell(cells: seq<BoxCell>, g: Grid): seq<Quad> {
    PaintAll(cells, Painter(g))
  }

  /** One bar across `cols` cells from a column on. */
  function RunQuad(bar: Rect, g: Grid, col: nat, cols: nat, color: int): Quad {
    Quad(Rect(CellX(g, col), g.top + bar.y, Width(g.cw, cols), bar.h), color)
  }

  ghost predicate StrokesFit(cells: seq<BoxCell>, g: Grid) {
    forall i :: 0 <= i < |cells| && PureHorizontal(cells[i].parts) ==> WeightPx(cells[i].parts.left, g.px) <= g.cw
  }

  /** Cells `i` to `end` have the same glyph and colour and stand in consecutive columns. */
  ghost predicate IsRun(cells: seq<BoxCell>, i: nat, end: nat)
    requires i < end <= |cells|
  {
    forall k :: i <= k < end ==> cells[k] == BoxCell(cells[i].col + (k - i), cells[i].parts, cells[i].color)
  }

  lemma ShowingAppend(a: seq<Quad>, q: Quad, x: real, y: real)
    ensures Showing(a + [q], x, y) == if Covers(q.rect, x, y) then Some(q.color) else Showing(a, x, y)
  {
    assert (a + [q])[..|a|] == a;
  }

  /** A pure horizontal cell shows over its whole width, in its stroke's band. */
  lemma HorizontalCell(a: seq<Quad>, c: BoxCell, g: Grid, x: real, y: real)
    requires Paintable(g) && PureHorizontal(c.parts) && WeightPx(c.parts.left, g.px) <= g.cw
    ensures Showing(a + CellQuads(c, g), x, y)
         == if Covers(RunQuad(HBar(c.parts, g).value, g, c.col, 1, c.color).rect, x, y)
            then Some(c.color) else Showing(a, x, y)
  {
    var bars := Bars(c.parts, g);
    assert |bars| == 2;
    assert Width(g.cw, 1) == Width(g.cw, 0) + g.cw;
    var q0, q1 := Placed(bars[0], g, c.col, c.color), Placed(bars[1], g, c.col, c.color);
    assert PlacedAll(bars, g, c.col, c.color) == [q0, q1] by {
      assert bars[..1] == [bars[0]] && bars[..1][..0] == [];
      assert PlacedAll(bars[..1], g, c.col, c.color) == [] + [q0];
    }
    assert a + [q0, q1] == (a + [q0]) + [q1];
    ShowingAppend(a + [q0], q1, x, y);
    ShowingAppend(a, q0, x, y);
  }

  /** A bar over `n + 1` cells is a bar over `n` cells and one over the next. */
  lemma RunQuadGrows(bar: Rect, g: Grid, col: nat, n: nat, color: int, x: real, y: real)
    requires n > 0 && Paintable(g)
    ensures Covers(RunQuad(bar, g, col, n + 1, color).rect, x, y)
       <==> Covers(RunQuad(bar, g, col, n, color).rect, x, y) || Covers(RunQuad(bar, g, col + n, 1, color).rect, x, y)
  {
    WidthAdds(g.cw, col, n);
    WidthAdds(g.cw, n, 1);
    assert Width(g.cw, 1) == Width(g.cw, 0) + g.cw;
    WidthIsPositive(g.cw, n);
  }

  lemma {:induction false} WidthIsPositive(cw: real, cols: nat)
    requires cw > 0.0 && cols > 0
    ensures Width(cw, cols) > 0.0
  {
    if cols > 1 {
      WidthIsPositive(cw, cols - 1);
    }
  }

  lemma {:induction false} WidthAdds(cw: real, a: nat, b: nat)
    ensures Width(cw, a + b) == Width(cw, a) + Width(cw, b)
  {
    if b > 0 {
      WidthAdds(cw, a, b - 1);
    }
  }

  /** Whether the bar over `cols` cells from `col` on covers the point. */
  ghost predicate RunCovers(bar: Rect, g: Grid, col: nat, cols: nat, x: real, y: real) {
    Covers(RunQuad(bar, g, col, cols, 0).rect, x, y)
  }

  /** Whatever was painted before, `quads` show at the point as the bar over the one cell at `col`. */
  ghost predicate ShowsBar(quads: seq<Quad>, bar: Rect, g: Grid, col: nat, color: int, x: real, y: real) {
    forall base ::
      Showing(base + quads, x, y) == if RunCovers(bar, g, col, 1, x, y) then Some(color) else Showing(base, x, y)
  }

  lemma HorizontalShowsBar(c: BoxCell, g: Grid, x: real, y: real)
    requires Paintable(g) && PureHorizontal(c.parts) && WeightPx(c.parts.left, g.px) <= g.cw
    ensures ShowsBar(CellQuads(c, g), HBar(c.parts, g).value, g, c.col, c.color, x, y)
  {
    forall base
      ensures Showing(base + CellQuads(c, g), x, y)
           == if RunCovers(HBar(c.parts, g).value, g, c.col, 1, x, y) then Some(c.color) else Showing(base, x, y)
    {
      HorizontalCell(base, c, g, x, y);
    }
  }

  /** Cells that each show as a bar over their own column show, together, as one bar over them all. */
  lemma {:induction false} OneBarOverAll<C>(cells: seq<C>, paint: C -> seq<Quad>, i: nat, end: nat,
                                            bar: Rect, g: Grid, col: nat, color: int, x: real, y: real)
    requires i < end <= |cells| && Paintable(g)
    requires forall k :: i <= k < end ==> ShowsBar(paint(cells[k]), bar, g, col + (k - i), color, x, y)
    ensures Showing(PaintAll(cells[..end], paint), x, y)
         == if RunCovers(bar, g, col, end - i, x, y) then Some(color) else Showing(PaintAll(cells[..i], paint), x, y)
  {
    var m := end - 1;
    assert cells[..end][..m] == cells[..m];
    assert ShowsBar(paint(cells[m]), bar, g, col + (m - i), color, x, y);
    assert PaintAll(cells[..end], paint) == PaintAll(cells[..m], paint) + paint(cells[m]);
    if i < m {
      OneBarOverAll(cells, paint, i, m, bar, g, col, color, x, y);
      RunQuadGrows(bar, g, col, m - i, 0, x, y);
    }
  }

  /** A whole run shows as one bar as wide as its cells. */
  lemma RunShowsAsOneBar(cells: seq<BoxCell>, i: nat, end: nat, bar: Rect, g: Grid, x: real, y: real)
    requires i < end <= |cells| && IsRun(cells, i, end) && Paintable(g)
    requires HBar(cells[i].parts, g) == Some(bar) && WeightPx(cells[i].parts.left, g.px) <= g.cw
    ensures Showing(CellByCell(cells[..end], g), x, y)
         == if RunCovers(bar, g, cells[i].col, end - i, x, y) then Some(cells[i].color)
            else Showing(CellByCell(cells[..i], g), x, y)
  {
    var c := cells[i];
    forall k | i <= k < end ensures ShowsBar(Painter(g)(cells[k]), bar, g, c.col + (k - i), c.color, x, y) {
      HorizontalShowsBar(cells[k], g, x, y);
    }
    OneBarOverAll(cells, Painter(g), i, end, bar, g, c.col, c.color, x, y);
  }

  /** What the row painted so far must look like: cell by cell, as long as the strokes fit their cells. */
  ghost predicate Faithful(quads: seq<Quad>, cells: seq<BoxCell>, g: Grid) {
    Paintable(g) && StrokesFit(cells, g) ==> SamePicture(quads, CellByCell(cells, g))
  }

  lemma AddRun(quads: seq<Quad>, cells: seq<BoxCell>, i: nat, end: nat, bar: Rect, g: Grid)
    requires i < end <= |cells| && IsRun(cells, i, end) && HBar(cells[i].parts, g) == Some(bar)
    requires Faithful(quads, cells[..i], g)
    ensures Faithful(quads + [RunQuad(bar, g, cells[i].col, end - i, cells[i].color)], cells[..end], g)
  {
    var q := RunQuad(bar, g, cells[i].col, end - i, cells[i].color);
    if Paintable(g) && StrokesFit(cells[..end], g) {
      assert cells[..end][i] == cells[i];
      FitPrefix(cells[..end], i, g);
      assert cells[..end][..i] == cells[..i];
      forall x, y ensures Showing(quads + [q], x, y) == Showing(CellByCell(cells[..end], g), x, y) {
        ShowingAppend(quads, q, x, y);
        RunShowsAsOneBar(cells, i, end, bar, g, x, y);
        assert Covers(q.rect, x, y) == RunCovers(bar, g, cells[i].col, end - i, x, y);
      }
    }
  }

  lemma FitPrefix(cells: seq<BoxCell>, n: nat, g: Grid)
    requires n <= |cells| && StrokesFit(cells, g)
    ensures StrokesFit(cells[..n], g)
  {
  }

  /** Painting the same quads on top of two rows that look the same keeps them looking the same. */
  lemma {:induction false} ShowingOver(a: seq<Quad>, b: seq<Quad>, top: seq<Quad>, x: real, y: real)
    requires Showing(a, x, y) == Showing(b, x, y)
    ensures Showing(a + top, x, y) == Showing(b + top, x, y)
  {
    if top == [] {
      assert a + top == a && b + top == b;
    } else {
      var n := |top| - 1;
      ShowingOver(a, b, top[..n], x, y);
      assert a + top == (a + top[..n]) + [top[n]] && b + top == (b + top[..n]) + [top[n]];
      ShowingAppend(a + top[..n], top[n], x, y);
      ShowingAppend(b + top[..n], top[n], x, y);
    }
  }

  lemma SameOver(a: seq<Quad>, b: seq<Quad>, top: seq<Quad>)
    requires SamePicture(a, b)
    ensures SamePicture(a + top, b + top)
  {
    forall x, y ensures Showing(a + top, x, y) == Showing(b + top, x, y) {
      ShowingOver(a, b, top, x, y);
    }
  }

  lemma AddCell(quads: seq<Quad>, cells: seq<BoxCell>, i: nat, g: Grid)
    requires i < |cells| && Faithful(quads, cells[..i], g)
    ensures Faithful(quads + CellQuads(cells[i], g), cells[..i + 1], g)
  {
    assert cells[..i + 1][..i] == cells[..i];
    if Paintable(g) && StrokesFit(cells[..i + 1], g) {
      FitPrefix(cells[..i + 1], i, g);
      SameOver(quads, CellByCell(cells[..i], g), Painter(g)(cells[i]));
    }
  }

  /** The end of the run of like cells that starts at `i`. */
  method RunEnd(cells: seq<BoxCell>, i: nat) returns (end: nat)
    requires i < |cells|
    ensures i < end <= |cells| && IsRun(cells, i, end)
    ensures end < |cells| ==> !IsRun(cells, i, end + 1)
  {
    end := i + 1;
    while end < |cells|
      invariant i < end <= |cells| && IsRun(cells, i, end)
    {
      var next := cells[end];
      if next.col != cells[end - 1].col + 1 || next.parts != cells[i].parts || next.color != cells[i].color {
        return;
      }
      end := end + 1;
    }
  }

  /** The row is one unbroken rule: one glyph that joins left and right alike, in one colour and consecutive columns. */
  ghost predicate WholeRule(cells: seq<BoxCell>) {
    && cells != [] && cells[0].parts in {BoxParts(0, 1, 0, 1), BoxParts(0, 2, 0, 2)}
    && forall k :: 0 <= k < |cells| ==> cells[k] == BoxCell(cells[0].col + k, cells[0].parts, cells[0].color)
  }

  method PaintCell(before: seq<Quad>, c: BoxCell, g: Grid) returns (quads: seq<Quad>)
    ensures quads == before + CellQuads(c, g)
  {
    quads := before;
    var bars, n := Rects(c.parts, g);
    for k := 0 to n
      invariant quads == before + PlacedAll(bars[..k], g, c.col, c.color)
    {
      assert bars[..k + 1][..k] == bars[..k];
      quads := quads + [Placed(bars[k], g, c.col, c.color)];
    }
  }

  method PaintRun(before: seq<Quad>, cells: seq<BoxCell>, i: nat, bar: Rect, g: Grid)
    returns (quads: seq<Quad>, end: nat)
    requires i < |cells| && HBar(cells[i].parts, g) == Some(bar) && Faithful(before, cells[..i], g)
    ensures i < end <= |cells| && Faithful(quads, cells[..end], g)
    ensures |quads| == |before| + 1
    ensures IsRun(cells, i, |cells|) ==> end == |cells|
  {
    var c := cells[i];
    end := RunEnd(cells, i);
    assert cells[end - 1].col == c.col + (end - 1 - i);
    var cols := cells[end - 1].col - c.col + 1;
    AddRun(before, cells, i, end, bar, g);
    quads := before + [RunQuad(bar, g, c.col, cols, c.color)];
  }

  /**
    The paint loop, which merges runs of horizontal rules, draws the picture the plain cell-by-cell
    painting would, whatever mix of glyphs and colours the row holds; an unbroken rule is one bar.
    */
  method PaintRow(cells: seq<BoxCell>, g: Grid) returns (quads: seq<Quad>)
    ensures Faithful(quads, cells, g)
    ensures WholeRule(cells) ==> |quads| == 1
  {
    quads := [];
    var i := 0;
    while i < |cells|
      invariant i <= |cells| && Faithful(quads, cells[..i], g)
      invariant WholeRule(cells) ==> if i == 0 then quads == [] else i == |cells| && |quads| == 1
    {
      var bar := HBar(cells[i].parts, g);
      if bar.Some? {
        quads, i := PaintRun(quads, cells, i, bar.value, g);
        continue;
      }
      AddCell(quads, cells, i, g);
      quads := PaintCell(quads, cells[i], g);
      i := i + 1;
    }
    assert cells[..|cells|] == cells;
  }

  // ------------------------------------------------------------ the picture itself

  /** Between `from` and `to` across, and in a band of thickness `t` about `mid`. */
  ghost predicate InArm(along: real, from: real, to: real, across: real, mid: real, t: real) {
    from <= along < to && mid - t / 2.0 <= across < mid + t / 2.0
  }

  // An arm reaches from its edge past the centre by half its thickness, in a band about the middle of the cell.

  ghost predicate LeftInk(t: real, g: Grid, x: real, y: real) {
    InArm(x, 0.0, g.cw / 2.0 + t / 2.0, y, g.ch / 2.0, t)
  }

  ghost predicate RightInk(t: real, g: Grid, x: real, y: real) {
    InArm(x, g.cw / 2.0 - t / 2.0, g.cw, y, g.ch / 2.0, t)
  }

  ghost predicate UpInk(t: real, g: Grid, x: real, y: real) {
    InArm(y, 0.0, g.ch / 2.0 + t / 2.0, x, g.cw / 2.0, t)
  }

  ghost predicate DownInk(t: real, g: Grid, x: real, y: real) {
    InArm(y, g.ch / 2.0 - t / 2.0, g.ch, x, g.cw / 2.0, t)
  }

  /** Where a glyph has ink in its own cell: 1 is the light stroke, 2 the heavy one, and 0 is no arm. */
  ghost predicate HasInk(p: BoxParts, g: Grid, x: real, y: real) {
    var l, h := g.px.light, g.px.heavy;
    || (p.left == 1 && LeftInk(l, g, x, y)) || (p.left == 2 && LeftInk(h, g, x, y))
    || (p.right == 1 && RightInk(l, g, x, y)) || (p.right == 2 && RightInk(h, g, x, y))
    || (p.up == 1 && UpInk(l, g, x, y)) || (p.up == 2 && UpInk(h, g, x, y))
    || (p.down == 1 && DownInk(l, g, x, y)) || (p.down == 2 && DownInk(h, g, x, y))
  }

  lemma CoverAppend(a: seq<Rect>, b: seq<Rect>, x: real, y: real)
    ensures SomeBarCovers(a + b, x, y) <==> SomeBarCovers(a, x, y) || SomeBarCovers(b, x, y)
  {
    var s := a + b;
    if i :| 0 <= i < |a| && Covers(a[i], x, y) { assert s[i] == a[i]; }
    if i :| 0 <= i < |b| && Covers(b[i], x, y) { assert s[|a| + i] == b[i]; }
  }

  lemma AcrossCovers(t: real, g: Grid, x: real, y: real)
    requires t >= 0.0
    ensures SomeBarCovers(LeftBar(t, g.cw / 2.0, g.ch / 2.0), x, y) <==> LeftInk(t, g, x, y)
    ensures SomeBarCovers(RightBar(t, g.cw, g.cw / 2.0, g.ch / 2.0), x, y) <==> RightInk(t, g, x, y)
  {
    var (cx, cy) := (g.cw / 2.0, g.ch / 2.0);
    if t > 0.0 {
      OneCovers(LeftBar(t, cx, cy)[0], x, y);
      OneCovers(RightBar(t, g.cw, cx, cy)[0], x, y);
    }
  }

  lemma DownCovers(t: real, g: Grid, x: real, y: real)
    requires t >= 0.0
    ensures SomeBarCovers(UpBar(t, g.cw / 2.0, g.ch / 2.0), x, y) <==> UpInk(t, g, x, y)
    ensures SomeBarCovers(DownBar(t, g.ch, g.cw / 2.0, g.ch / 2.0), x, y) <==> DownInk(t, g, x, y)
  {
    var (cx, cy) := (g.cw / 2.0, g.ch / 2.0);
    if t > 0.0 {
      OneCovers(UpBar(t, cx, cy)[0], x, y);
      OneCovers(DownBar(t, g.ch, cx, cy)[0], x, y);
    }
  }

  lemma NoArmNoInk(g: Grid, x: real, y: real)
    ensures !LeftInk(0.0, g, x, y) && !RightInk(0.0, g, x, y) && !UpInk(0.0, g, x, y) && !DownInk(0.0, g, x, y)
  {
  }

  lemma OneCovers(r: Rect, x: real, y: real)
    ensures SomeBarCovers([r], x, y) <==> Covers(r, x, y)
  {
    if Covers(r, x, y) { assert Covers([r][0], x, y); }
  }

  /** A glyph's bars cover exactly its ink, whatever its arms and their weights. */
  lemma BarsAreInk(p: BoxParts, g: Grid, x: real, y: real)
    requires Inked(g.px)
    ensures SomeBarCovers(Bars(p, g), x, y) <==> HasInk(p, g, x, y)
  {
    var (cx, cy) := (g.cw / 2.0, g.ch / 2.0);
    var a, b := LeftBar(WeightPx(p.left, g.px), cx, cy), RightBar(WeightPx(p.right, g.px), g.cw, cx, cy);
    var c, d := UpBar(WeightPx(p.up, g.px), cx, cy), DownBar(WeightPx(p.down, g.px), g.ch, cx, cy);
    CoverAppend(a + b + c, d, x, y);
    CoverAppend(a + b, c, x, y);
    CoverAppend(a, b, x, y);
    AcrossCovers(WeightPx(p.left, g.px), g, x, y);
    AcrossCovers(WeightPx(p.right, g.px), g, x, y);
    DownCovers(WeightPx(p.up, g.px), g, x, y);
    DownCovers(WeightPx(p.down, g.px), g, x, y);
    NoArmNoInk(g, x, y);
  }

  lemma {:induction false} PlacedShow(base: seq<Quad>, rs: seq<Rect>, g: Grid, col: nat, color: int, x: real, y: real)
    ensures Showing(base + PlacedAll(rs, g, col, color), x, y)
         == if SomeBarCovers(rs, x - CellX(g, col), y - g.top) then Some(color) else Showing(base, x, y)
  {
    if rs == [] {
      assert base + [] == base;
    } else {
      var n := |rs| - 1;
      PlacedShow(base, rs[..n], g, col, color, x, y);
      Assoc(base, PlacedAll(rs[..n], g, col, color), [Placed(rs[n], g, col, color)]);
      ShowingAppend(base + PlacedAll(rs[..n], g, col, color), Placed(rs[n], g, col, color), x, y);
      CoverAppend(rs[..n], [rs[n]], x - CellX(g, col), y - g.top);
      OneCovers(rs[n], x - CellX(g, col), y - g.top);
      assert rs == rs[..n] + [rs[n]];
    }
  }

  /** Whether a cell has ink at a point of the row, its column lying that many cell widths from the left edge. */
  ghost predicate CellInk(c: BoxCell, g: Grid, x: real, y: real) {
    HasInk(c.parts, g, x - (g.left + g.cw * c.col as real), y - g.top)
  }

  /** The colour a row must show at a point: that of the last cell with ink there, each cell at its column. */
  ghost function RowColor(cells: seq<BoxCell>, g: Grid, x: real, y: real): Option<int> {
    if cells == [] then None
    else
      var c := cells[|cells| - 1];
      if CellInk(c, g, x, y) then Some(c.color)
      else RowColor(cells[..|cells| - 1], g, x, y)
  }

  lemma ColumnAt(g: Grid, col: nat)
    ensures CellX(g, col) == g.left + g.cw * col as real
  {
    WidthIsProduct(g.cw, col);
  }

  lemma InkAtColumn(c: BoxCell, g: Grid, x: real, y: real)
    ensures CellInk(c, g, x, y) == HasInk(c.parts, g, x - CellX(g, c.col), y - g.top)
  {
    ColumnAt(g, c.col);
  }

  lemma CellShows(base: seq<Quad>, c: BoxCell, g: Grid, x: real, y: real)
    requires Inked(g.px)
    ensures Showing(base + CellQuads(c, g), x, y) == if CellInk(c, g, x, y) then Some(c.color) else Showing(base, x, y)
  {
    PlacedShow(base, Bars(c.parts, g), g, c.col, c.color, x, y);
    BarsAreInk(c.parts, g, x - CellX(g, c.col), y - g.top);
    InkAtColumn(c, g, x, y);
  }

  lemma {:induction false} RowShows(cells: seq<BoxCell>, g: Grid, x: real, y: real)
    requires Inked(g.px)
    ensures Showing(CellByCell(cells, g), x, y) == RowColor(cells, g, x, y)
  {
    if cells != [] {
      var before, c := cells[..|cells| - 1], cells[|cells| - 1];
      RowShows(before, g, x, y);
      CellShows(CellByCell(before, g), c, g, x, y);
      assert CellByCell(cells, g) == CellByCell(before, g) + CellQuads(c, g);
    }
  }

  /** A row painted faithfully shows at every point the colour of the last cell with ink there. */
  lemma FaithfulRowShows(quads: seq<Quad>, cells: seq<BoxCell>, g: Grid, x: real, y: real)
    requires Faithful(quads, cells, g) && Paintable(g) && StrokesFit(cells, g)
    ensures Showing(quads, x, y) == RowColor(cells, g, x, y)
  {
    RowShows(cells, g, x, y);
  }
}
