/** composeThreeWayDiff: reference, output A and output B side by side, centred vertically. */
module ThreeWayDiff {
  import opened Basics
  import opened PixelCanvas
  import opened RealFacts

  datatype Size = Size(width: nat, height: nat)

  const PLACEHOLDER_FALLBACK_SIZE := 64

  // ---- Refusals --------------------------------------------------------------------------------

  /** A ratio that may be Number.POSITIVE_INFINITY. */
  datatype Ratio = Finite(value: real) | Infinite

  function Smallest(sizes: seq<Size>): nat
    requires sizes != []
  {
    var s := sizes[|sizes| - 1];
    var own := Min(s.width, s.height);
    if |sizes| == 1 then own else Min(Smallest(sizes[..|sizes| - 1]), own)
  }

  function Largest(sizes: seq<Size>): nat
    requires sizes != []
  {
    var s := sizes[|sizes| - 1];
    var own := Max(s.width, s.height);
    if |sizes| == 1 then own else Max(Largest(sizes[..|sizes| - 1]), own)
  }

  lemma {:induction false} ExtremesAreAttained(sizes: seq<Size>)
    requires sizes != []
    ensures forall s :: s in sizes ==> Smallest(sizes) <= s.width <= Largest(sizes) && Smallest(sizes) <= s.height <= Largest(sizes)
    ensures exists s :: s in sizes && (Smallest(sizes) == s.width || Smallest(sizes) == s.height)
    ensures exists s :: s in sizes && (Largest(sizes) == s.width || Largest(sizes) == s.height)
  {
    var s := sizes[|sizes| - 1];
    assert s in sizes;
    if |sizes| > 1 {
      var init := sizes[..|sizes| - 1];
      ExtremesAreAttained(init);
      assert sizes == init + [s];
    }
  }

  /** The largest present dimension over the smallest; 1 when there is nothing to compare. */
  function DivergenceRatio(present: seq<Size>): Ratio {
    if |present| < 2 then Finite(1.0)
    else if Smallest(present) == 0 then Infinite
    else Finite(Largest(present) as real / Smallest(present) as real)
  }

  /** computeDivergenceRatio, with its running extremes. */
  method ComputeDivergenceRatio(present: seq<Size>) returns (ratio: Ratio)
    ensures ratio == DivergenceRatio(present)
  {
    if |present| < 2 {
      return Finite(1.0);
    }
    var minDim, maxDim := Min(present[0].width, present[0].height), Max(present[0].width, present[0].height);
    for i := 1 to |present|
      invariant minDim == Smallest(present[..i]) && maxDim == Largest(present[..i])
    {
      assert present[..i + 1][..i] == present[..i];
      var image := present[i];
      if image.width < minDim { minDim := image.width; }
      if image.height < minDim { minDim := image.height; }
      if image.width > maxDim { maxDim := image.width; }
      if image.height > maxDim { maxDim := image.height; }
    }
    assert present[..|present|] == present;
    if minDim <= 0 {
      return Infinite;
    }
    return Finite(maxDim as real / minDim as real);
  }

  /** Some side of some image has length d. */
  ghost predicate IsSide(sizes: seq<Size>, d: nat) {
    exists s :: s in sizes && (s.width == d || s.height == d)
  }

  lemma ExtremesAreSides(sizes: seq<Size>)
    requires sizes != []
    ensures IsSide(sizes, Smallest(sizes)) && IsSide(sizes, Largest(sizes))
  {
    ExtremesAreAttained(sizes);
  }

  /** No side exceeds any other by more than the limit. */
  ghost predicate SidesWithin(present: seq<Size>, limit: real) {
    forall d: nat, e: nat :: IsSide(present, d) && IsSide(present, e) ==> d as real <= limit * e as real
  }

  lemma BoundsChain(limit: real, small: nat, large: nat, d: nat, e: nat)
    requires limit >= 0.0 && large as real <= limit * small as real
    requires d <= large && small <= e
    ensures d as real <= limit * e as real
  {
    assert d as real <= large as real && small as real <= e as real;
    RealsChain(limit, small as real, large as real, d as real, e as real);
  }

  lemma RealsChain(limit: real, small: real, large: real, d: real, e: real)
    requires limit >= 0.0 && large <= limit * small && d <= large && small <= e
    ensures d <= limit * e
  {
    ProductIsMonotone(limit, small, e);
    assert limit * small <= limit * e;
  }

  lemma ExtremesBoundSides(present: seq<Size>, limit: real, small: nat, large: nat)
    requires limit >= 0.0 && large as real <= limit * small as real
    requires forall d: nat :: IsSide(present, d) ==> small <= d <= large
    ensures SidesWithin(present, limit)
  {
    forall d: nat, e: nat | IsSide(present, d) && IsSide(present, e)
      ensures d as real <= limit * e as real
    {
      BoundsChain(limit, small, large, d, e);
    }
  }

  lemma SmallestIsPositive(sizes: seq<Size>)
    requires sizes != []
    requires forall s :: s in sizes ==> s.width > 0 && s.height > 0
    ensures Smallest(sizes) > 0
  {
    ExtremesAreAttained(sizes);
  }

  lemma AllSidesAreBounded(sizes: seq<Size>)
    requires sizes != []
    ensures forall d: nat :: IsSide(sizes, d) ==> Smallest(sizes) <= d <= Largest(sizes)
  {
    ExtremesAreAttained(sizes);
  }

  /** The quotient of the extremes decides the spread of all sides. */
  lemma ExtremesDecide(sizes: seq<Size>, limit: real, small: nat, large: nat)
    requires limit >= 0.0 && small > 0
    requires forall d: nat :: IsSide(sizes, d) ==> small <= d <= large
    requires IsSide(sizes, small) && IsSide(sizes, large)
    ensures large as real / small as real <= limit <==> SidesWithin(sizes, limit)
  {
    QuotientAtMost(large as real, small as real, limit);
    if large as real <= limit * small as real {
      ExtremesBoundSides(sizes, limit, small, large);
    }
  }

  /** The divergence test accepts exactly when no side exceeds any other by more than the limit. */
  lemma DivergenceIsPairwise(present: seq<Size>, limit: real, ratio: Ratio)
    requires |present| >= 2 && limit >= 0.0 && ratio == DivergenceRatio(present)
    requires forall s :: s in present ==> s.width > 0 && s.height > 0
    ensures ratio.Finite? && (ratio.value <= limit <==> SidesWithin(present, limit))
  {
    SmallestIsPositive(present);
    ExtremesAreSides(present);
    AllSidesAreBounded(present);
    ExtremesDecide(present, limit, Smallest(present), Largest(present));
  }

  function PresentSizes(sizes: seq<Option<Size>>): seq<Size> {
    if sizes == [] then []
    else (if sizes[0].Some? then [sizes[0].value] else []) + PresentSizes(sizes[1..])
  }

  predicate Unsafe(size: Option<Size>) {
    size.Some? && (size.value.width == 0 || size.value.height == 0 || size.value.width * size.value.height > MAX_PNG_PIXELS)
  }

  function SizeOr(size: Option<Size>, placeholder: Size): Size {
    if size.Some? then size.value else placeholder
  }

  function LargestSides(present: seq<Size>): Size {
    if present == [] then Size(0, 0)
    else
      var rest := LargestSides(present[1..]);
      Size(Max(present[0].width, rest.width), Max(present[0].height, rest.height))
  }

  /** Placeholders take the largest present width and height, with a fallback for an empty side. */
  function PlaceholderSize(present: seq<Size>): Size {
    var sides := LargestSides(present);
    Size(if sides.width > 0 then sides.width else PLACEHOLDER_FALLBACK_SIZE,
         if sides.height > 0 then sides.height else PLACEHOLDER_FALLBACK_SIZE)
  }

  /** For images of non-zero size the fallback is never taken: the placeholder is the least upper bound
      of the present sizes. */
  lemma {:induction false} PlaceholderIsTight(present: seq<Size>)
    requires present != []
    requires forall s :: s in present ==> s.width > 0 && s.height > 0
    ensures PlaceholderSize(present) == LargestSides(present)
    ensures forall s :: s in present ==> s.width <= PlaceholderSize(present).width && s.height <= PlaceholderSize(present).height
    ensures exists s :: s in present && s.width == PlaceholderSize(present).width
    ensures exists s :: s in present && s.height == PlaceholderSize(present).height
  {
    assert present[0] in present && present == [present[0]] + present[1..];
    if |present| > 1 {
      PlaceholderIsTight(present[1..]);
    }
  }

  function CanvasSize(gap: nat, r: Size, a: Size, b: Size): Size {
    Size(r.width + gap + a.width + gap + b.width, Max(r.height, Max(a.height, b.height)))
  }

  /** Why a composition is refused, in the order of the checks. */
  function Refusal(r: Option<Size>, a: Option<Size>, b: Option<Size>, gap: nat, maxDimensionRatio: real): Option<string> {
    var present := PresentSizes([r, a, b]);
    var p := PlaceholderSize(present);
    var canvas := CanvasSize(gap, SizeOr(r, p), SizeOr(a, p), SizeOr(b, p));
    if Unsafe(r) || Unsafe(a) || Unsafe(b) then Some("unsafe PNG")
    else if present == [] then Some("nothing to compose")
    else if DivergenceRatio(present).Infinite? || DivergenceRatio(present).value > maxDimensionRatio then Some("divergence")
    else if canvas.width * canvas.height > MAX_CANVAS_PIXELS then Some("canvas too large")
    else None
  }

  // ---- Placement -------------------------------------------------------------------------------

  /** Where a panel starting at column dx goes: centred vertically, rounded towards the top. */
  function PanelAt(total: Size, dx: nat, size: Size): Rect {
    Rect(dx, (total.height - size.height) / 2, size.width, size.height)
  }

  function RefPanel(gap: nat, r: Size, a: Size, b: Size): Rect {
    PanelAt(CanvasSize(gap, r, a, b), 0, r)
  }

  function APanel(gap: nat, r: Size, a: Size, b: Size): Rect {
    PanelAt(CanvasSize(gap, r, a, b), r.width + gap, a)
  }

  function BPanel(gap: nat, r: Size, a: Size, b: Size): Rect {
    PanelAt(CanvasSize(gap, r, a, b), r.width + gap + a.width + gap, b)
  }

  /** The panels lie inside the canvas and never overlap, and the gaps above and below a panel differ
      by at most one row. */
  lemma PanelsFit(gap: nat, r: Size, a: Size, b: Size)
    ensures var canvas := CanvasSize(gap, r, a, b);
            var p, q, s := RefPanel(gap, r, a, b), APanel(gap, r, a, b), BPanel(gap, r, a, b);
            && p.Inside(canvas.width, canvas.height) && q.Inside(canvas.width, canvas.height) && s.Inside(canvas.width, canvas.height)
            && p.Disjoint(q) && q.Disjoint(s) && p.Disjoint(s)
            && 0 <= (canvas.height - p.y - p.height) - p.y <= 1
            && 0 <= (canvas.height - q.y - q.height) - q.y <= 1
            && 0 <= (canvas.height - s.y - s.height) - s.y <= 1
  {
  }

  /** From left to right: the reference at the edge, output A one gap after it, output B one gap after that
      and up to the other edge; every panel has its source's size, and the tallest fills the height. */
  lemma PanelsInOrder(gap: nat, r: Size, a: Size, b: Size)
    ensures var canvas := CanvasSize(gap, r, a, b);
            var p, q, s := RefPanel(gap, r, a, b), APanel(gap, r, a, b), BPanel(gap, r, a, b);
            && p.x == 0 && q.x == p.x + p.width + gap && s.x == q.x + q.width + gap && s.x + s.width == canvas.width
            && Size(p.width, p.height) == r && Size(q.width, q.height) == a && Size(s.width, s.height) == b
            && (canvas.height == p.height || canvas.height == q.height || canvas.height == s.height)
  {
  }

  /** A present image is usable: not empty, and of at most 4,194,304 pixels. */
  predicate Usable(size: Option<Size>) {
    size.Some? ==> size.value.width > 0 && size.value.height > 0 && size.value.width * size.value.height <= 4_194_304
  }

  lemma {:induction false} PresentAre(sizes: seq<Option<Size>>)
    ensures forall s :: s in PresentSizes(sizes) <==> Some(s) in sizes
  {
    if sizes != [] {
      PresentAre(sizes[1..]);
      assert sizes == [sizes[0]] + sizes[1..];
    }
  }

  lemma UsableSides(r: Option<Size>, a: Option<Size>, b: Option<Size>)
    requires Usable(r) && Usable(a) && Usable(b)
    ensures forall s :: s in PresentSizes([r, a, b]) ==> s.width > 0 && s.height > 0
  {
    PresentAre([r, a, b]);
  }

  /** The sides of two or more present images stay within the limit of each other; a single image needs a
      limit of at least one. */
  ghost predicate SidesAccepted(present: seq<Size>, limit: real) {
    if |present| < 2 then 1.0 <= limit else SidesWithin(present, limit)
  }

  lemma RatioIsPositive(present: seq<Size>)
    requires |present| >= 2 && forall s :: s in present ==> s.width > 0 && s.height > 0
    ensures DivergenceRatio(present).Finite? && DivergenceRatio(present).value > 0.0
  {
    SmallestIsPositive(present);
    ExtremesAreSides(present);
    AllSidesAreBounded(present);
    QuotientIsPositive(Largest(present) as real, Smallest(present) as real);
  }

  lemma QuotientIsPositive(a: real, b: real)
    requires a > 0.0 && b > 0.0
    ensures a / b > 0.0
  {
  }

  lemma DivergenceDecides(present: seq<Size>, limit: real)
    requires forall s :: s in present ==> s.width > 0 && s.height > 0
    ensures SidesAccepted(present, limit) <==> DivergenceRatio(present).Finite? && DivergenceRatio(present).value <= limit
  {
    if |present| >= 2 {
      if limit >= 0.0 {
        DivergenceIsPairwise(present, limit, DivergenceRatio(present));
      } else {
        RatioIsPositive(present);
        NothingIsWithin(present, limit);
      }
    }
  }

  lemma NothingIsWithin(present: seq<Size>, limit: real)
    requires limit < 0.0 && present != [] && forall s :: s in present ==> s.width > 0 && s.height > 0
    ensures !SidesWithin(present, limit)
  {
    SmallestIsPositive(present);
    ExtremesAreSides(present);
    var d := Smallest(present);
    assert IsSide(present, d) && limit * d as real < 0.0;
  }

  lemma UsableIsSafe(size: Option<Size>)
    ensures Usable(size) <==> !Unsafe(size)
  {
  }

  /** The canvas has at most 16,777,216 pixels. */
  predicate CanvasFits(canvas: Size) {
    canvas.width * canvas.height <= 16_777_216
  }

  /** The canvas of three images, placeholders standing in for absent ones. */
  function CanvasFor(r: Option<Size>, a: Option<Size>, b: Option<Size>, gap: nat): Size {
    var p := PlaceholderSize(PresentSizes([r, a, b]));
    CanvasSize(gap, SizeOr(r, p), SizeOr(a, p), SizeOr(b, p))
  }

  lemma RefusalInSteps(r: Option<Size>, a: Option<Size>, b: Option<Size>, gap: nat, limit: real)
    ensures var ratio := DivergenceRatio(PresentSizes([r, a, b]));
            Refusal(r, a, b, gap, limit).None? <==>
              (!Unsafe(r) && !Unsafe(a) && !Unsafe(b) && PresentSizes([r, a, b]) != []
               && ratio.Finite? && ratio.value <= limit && CanvasFits(CanvasFor(r, a, b, gap)))
  {
  }

  /** Composing is refused exactly when an image is unusable, none is present, the sides are too far apart,
      or the canvas would be too large. */
  lemma RefusedExactly(r: Option<Size>, a: Option<Size>, b: Option<Size>, gap: nat, limit: real)
    ensures Refusal(r, a, b, gap, limit).None? <==>
              (Usable(r) && Usable(a) && Usable(b) && (r.Some? || a.Some? || b.Some?)
               && SidesAccepted(PresentSizes([r, a, b]), limit) && CanvasFits(CanvasFor(r, a, b, gap)))
  {
    RefusalInSteps(r, a, b, gap, limit);
    UsableIsSafe(r);
    UsableIsSafe(a);
    UsableIsSafe(b);
    SomePresent(r, a, b);
    if Usable(r) && Usable(a) && Usable(b) {
      UsableSides(r, a, b);
      DivergenceDecides(PresentSizes([r, a, b]), limit);
    }
  }

  lemma SomePresent(r: Option<Size>, a: Option<Size>, b: Option<Size>)
    ensures PresentSizes([r, a, b]) != [] <==> r.Some? || a.Some? || b.Some?
  {
    PresentAre([r, a, b]);
    EmptyOrInhabited(PresentSizes([r, a, b]));
  }

  // ---- Composition -----------------------------------------------------------------------------

  function SizeOf(png: Png?): Option<Size> {
    if png == null then None else Some(Size(png.width, png.height))
  }

  /** The panel shows the source verbatim, or the placeholder colour when there is none. */
  ghost predicate Shows(canvas: Png, panel: Rect, source: Png?)
    requires canvas.Valid() && panel.Inside(canvas.width, canvas.height)
    requires source != null ==> source.Valid() && source.width == panel.width && source.height == panel.height
    reads canvas.data, if source == null then {} else {source.data}
  {
    forall x, y :: panel.Covers(x, y) ==>
      canvas.data[y, x] == if source == null then PLACEHOLDER_RGB.Opaque() else source.data[y - panel.y, x - panel.x]
  }

  /** Every pixel of the placeholder colour. */
  ghost predicate IsPlaceholder(png: Png)
    requires png.Valid()
    reads png.data
  {
    forall x, y :: 0 <= x < png.width && 0 <= y < png.height ==> png.data[y, x] == PLACEHOLDER_RGB.Opaque()
  }

  lemma PlaceholderShows(canvas: Png, panel: Rect, png: Png)
    requires canvas.Valid() && panel.Inside(canvas.width, canvas.height)
    requires png.Valid() && png.width == panel.width && png.height == panel.height
    requires Shows(canvas, panel, png) && IsPlaceholder(png)
    ensures Shows(canvas, panel, null)
  {
    forall x, y | panel.Covers(x, y)
      ensures canvas.data[y, x] == PLACEHOLDER_RGB.Opaque()
    {
      assert png.data[y - panel.y, x - panel.x] == PLACEHOLDER_RGB.Opaque();
    }
  }

  /** The given PNG, or a placeholder of the given size. */
  method PngOrPlaceholder(source: Png?, size: Size) returns (png: Png)
    requires source != null ==> source.Valid()
    ensures png.Valid() && Size(png.width, png.height) == SizeOr(SizeOf(source), size)
    ensures source != null ==> png == source
    ensures source == null ==> fresh(png) && fresh(png.data) && IsPlaceholder(png)
  {
    if source != null {
      return source;
    }
    png := new Png(size.width, size.height);
    Fill(png, PLACEHOLDER_RGB);
  }

  /** Draws one source into its panel and touches nothing else. */
  method DrawAt(source: Png, canvas: Png, panel: Rect)
    requires source.Valid() && canvas.Valid() && source.data != canvas.data
    requires panel.Inside(canvas.width, canvas.height)
    requires panel.width == source.width && panel.height == source.height
    modifies canvas.data
    ensures Shows(canvas, panel, source)
    ensures forall x, y :: 0 <= x < canvas.width && 0 <= y < canvas.height && !panel.Covers(x, y) ==>
              canvas.data[y, x] == old(canvas.data[y, x])
  {
    Bitblt(source, canvas, 0, 0, panel.width, panel.height, panel.x, panel.y);
    assert Rect(panel.x, panel.y, panel.width, panel.height) == panel;
  }

  /** Every pixel outside the three panels is background. */
  ghost predicate BackgroundElsewhere(canvas: Png, rp: Rect, ap: Rect, bp: Rect, background: Rgb)
    requires canvas.Valid()
    reads canvas.data
  {
    forall x, y :: 0 <= x < canvas.width && 0 <= y < canvas.height ==>
      rp.Covers(x, y) || ap.Covers(x, y) || bp.Covers(x, y) || canvas.data[y, x] == background.Opaque()
  }

  /** The canvas holding three equally treated panels over the background. */
  method DrawPanels(refCanvas: Png, aCanvas: Png, bCanvas: Png, gap: nat, background: Rgb) returns (canvas: Png)
    requires refCanvas.Valid() && aCanvas.Valid() && bCanvas.Valid()
    ensures fresh(canvas) && fresh(canvas.data) && canvas.Valid()
    ensures
      var r, a, b := Size(refCanvas.width, refCanvas.height), Size(aCanvas.width, aCanvas.height), Size(bCanvas.width, bCanvas.height);
      var rp, ap, bp := RefPanel(gap, r, a, b), APanel(gap, r, a, b), BPanel(gap, r, a, b);
      && Size(canvas.width, canvas.height) == CanvasSize(gap, r, a, b)
      && rp.Inside(canvas.width, canvas.height) && Shows(canvas, rp, refCanvas)
      && ap.Inside(canvas.width, canvas.height) && Shows(canvas, ap, aCanvas)
      && bp.Inside(canvas.width, canvas.height) && Shows(canvas, bp, bCanvas)
      && BackgroundElsewhere(canvas, rp, ap, bp, background)
  {
    var r, a, b := Size(refCanvas.width, refCanvas.height), Size(aCanvas.width, aCanvas.height), Size(bCanvas.width, bCanvas.height);
    var total := CanvasSize(gap, r, a, b);
    PanelsFit(gap, r, a, b);
    canvas := new Png(total.width, total.height);
    Fill(canvas, background);
    var rp, ap, bp := RefPanel(gap, r, a, b), APanel(gap, r, a, b), BPanel(gap, r, a, b);
    DrawAt(refCanvas, canvas, rp);
    DrawAt(aCanvas, canvas, ap);
    assert Shows(canvas, rp, refCanvas);
    DrawAt(bCanvas, canvas, bp);
    assert Shows(canvas, rp, refCanvas) && Shows(canvas, ap, aCanvas);
  }

  /** composeThreeWayDiff. */
  method Compose(reference: Png?, outputA: Png?, outputB: Png?, gap: nat, background: Rgb, maxDimensionRatio: real)
    returns (composed: Result<Png>)
    requires reference != null ==> reference.Valid()
    requires outputA != null ==> outputA.Valid()
    requires outputB != null ==> outputB.Valid()
    ensures composed.Err? <==> Refusal(SizeOf(reference), SizeOf(outputA), SizeOf(outputB), gap, maxDimensionRatio).Some?
    ensures composed.Err? ==> Refusal(SizeOf(reference), SizeOf(outputA), SizeOf(outputB), gap, maxDimensionRatio) == Some(composed.error)
    ensures composed.Ok? ==> fresh(composed.value) && fresh(composed.value.data) && composed.value.Valid()
    ensures composed.Ok? ==>
      var canvas := composed.value;
      var p := PlaceholderSize(PresentSizes([SizeOf(reference), SizeOf(outputA), SizeOf(outputB)]));
      var r, a, b := SizeOr(SizeOf(reference), p), SizeOr(SizeOf(outputA), p), SizeOr(SizeOf(outputB), p);
      var rp, ap, bp := RefPanel(gap, r, a, b), APanel(gap, r, a, b), BPanel(gap, r, a, b);
      && Size(canvas.width, canvas.height) == CanvasSize(gap, r, a, b)
      && canvas.width * canvas.height <= MAX_CANVAS_PIXELS
      && rp.Inside(canvas.width, canvas.height) && Shows(canvas, rp, reference)
      && ap.Inside(canvas.width, canvas.height) && Shows(canvas, ap, outputA)
      && bp.Inside(canvas.width, canvas.height) && Shows(canvas, bp, outputB)
      && BackgroundElsewhere(canvas, rp, ap, bp, background)
  {
    if Unsafe(SizeOf(reference)) || Unsafe(SizeOf(outputA)) || Unsafe(SizeOf(outputB)) {
      return Err("unsafe PNG");
    }
    var present := PresentSizes([SizeOf(reference), SizeOf(outputA), SizeOf(outputB)]);
    if present == [] {
      return Err("nothing to compose");
    }
    var observed := ComputeDivergenceRatio(present);
    if observed.Infinite? || observed.value > maxDimensionRatio {
      return Err("divergence");
    }
    var p := PlaceholderSize(present);
    var r, a, b := SizeOr(SizeOf(reference), p), SizeOr(SizeOf(outputA), p), SizeOr(SizeOf(outputB), p);
    var total := CanvasSize(gap, r, a, b);
    if total.width * total.height > MAX_CANVAS_PIXELS {
      return Err("canvas too large");
    }
    var canvas := DrawOptional(reference, outputA, outputB, p, gap, background);
    return Ok(canvas);
  }

  /** The mosaic of the sources that are present, placeholders standing in for the others. */
  method DrawOptional(reference: Png?, outputA: Png?, outputB: Png?, p: Size, gap: nat, background: Rgb) returns (canvas: Png)
    requires reference != null ==> reference.Valid()
    requires outputA != null ==> outputA.Valid()
    requires outputB != null ==> outputB.Valid()
    ensures fresh(canvas) && fresh(canvas.data) && canvas.Valid()
    ensures
      var r, a, b := SizeOr(SizeOf(reference), p), SizeOr(SizeOf(outputA), p), SizeOr(SizeOf(outputB), p);
      var rp, ap, bp := RefPanel(gap, r, a, b), APanel(gap, r, a, b), BPanel(gap, r, a, b);
      && Size(canvas.width, canvas.height) == CanvasSize(gap, r, a, b)
      && rp.Inside(canvas.width, canvas.height) && Shows(canvas, rp, reference)
      && ap.Inside(canvas.width, canvas.height) && Shows(canvas, ap, outputA)
      && bp.Inside(canvas.width, canvas.height) && Shows(canvas, bp, outputB)
      && BackgroundElsewhere(canvas, rp, ap, bp, background)
  {
    var refCanvas := PngOrPlaceholder(reference, p);
    var aCanvas := PngOrPlaceholder(outputA, p);
    var bCanvas := PngOrPlaceholder(outputB, p);
    canvas := DrawPanels(refCanvas, aCanvas, bCanvas, gap, background);
    ghost var r, a, b := SizeOr(SizeOf(reference), p), SizeOr(SizeOf(outputA), p), SizeOr(SizeOf(outputB), p);
    if reference == null { PlaceholderShows(canvas, RefPanel(gap, r, a, b), refCanvas); }
    if outputA == null { PlaceholderShows(canvas, APanel(gap, r, a, b), aCanvas); }
    if outputB == null { PlaceholderShows(canvas, BPanel(gap, r, a, b), bCanvas); }
  }
}
