/** The pack carousel of `view/PackOpeningView.swift`: which of the three
    packs is selected, as moved by taps and by horizontal drags. Drag widths
    (`CGFloat`) are modelled as reals. */
module PackCarousel {
  import opened Common

  /** Number of entries of `packs`. */
  const PackCount := 3

  /** Horizontal drag distance past which a drag changes the selection. */
  const SwipeThreshold: real := 50.0

  datatype Carousel = Carousel(selectedPackIndex: int, offset: real)

  /** The state the screen opens in: the middle pack, no drag. */
  const Initial := Carousel(1, 0.0)

  predicate InBounds(c: Carousel)
  {
    0 <= c.selectedPackIndex < PackCount
  }

  /** `onChanged` of the drag: the carousel follows the finger. */
  function DragChanged(c: Carousel, width: real): (r: Carousel)
    ensures r.selectedPackIndex == c.selectedPackIndex && r.offset == width
  {
    c.(offset := width)
  }

  /** `onEnded` of the drag: far enough to the left selects the next pack,
      far enough to the right the previous one, unless already at that end;
      the offset springs back to 0. */
  function DragEnded(c: Carousel, width: real): (r: Carousel)
    ensures width < -SwipeThreshold && c.selectedPackIndex < PackCount - 1 ==> r.selectedPackIndex == c.selectedPackIndex + 1
    ensures !(width < -SwipeThreshold && c.selectedPackIndex < PackCount - 1) && width > SwipeThreshold && c.selectedPackIndex > 0 ==>
      r.selectedPackIndex == c.selectedPackIndex - 1
    ensures -SwipeThreshold <= width <= SwipeThreshold ==> r.selectedPackIndex == c.selectedPackIndex
    ensures !(width < -SwipeThreshold && c.selectedPackIndex < PackCount - 1) && !(width > SwipeThreshold && c.selectedPackIndex > 0) ==>
      r.selectedPackIndex == c.selectedPackIndex
    ensures c.selectedPackIndex - 1 <= r.selectedPackIndex <= c.selectedPackIndex + 1
    ensures r.offset == 0.0
    ensures InBounds(c) ==> InBounds(r)
  {
    if width < -SwipeThreshold && c.selectedPackIndex < PackCount - 1 then Carousel(c.selectedPackIndex + 1, 0.0)
    else if width > SwipeThreshold && c.selectedPackIndex > 0 then Carousel(c.selectedPackIndex - 1, 0.0)
    else c.(offset := 0.0)
  }

  /** Following the finger never changes where a drag ends: the outcome of
      `onEnded` depends on the selection and the final width only. */
  lemma DragChangedThenEnded(c: Carousel, w: real, width: real)
    ensures DragEnded(DragChanged(c, w), width) == DragEnded(c, width)
    ensures DragChanged(DragChanged(c, w), width) == DragChanged(c, width)
  {
  }

  /** A tap on pack `index` of the `ForEach(0..<packs.count)` selects it. */
  function Tap(c: Carousel, index: int): (r: Carousel)
    requires 0 <= index < PackCount
    ensures r.selectedPackIndex == index && r.offset == c.offset
    ensures InBounds(r)
  {
    c.(selectedPackIndex := index)
  }

  datatype Gesture = Dragging(width: real) | DragEnd(width: real) | TapPack(index: int)

  /** Gestures the screen can produce: taps only on displayed packs. */
  predicate Possible(g: Gesture)
  {
    g.TapPack? ==> 0 <= g.index < PackCount
  }

  function Apply(c: Carousel, g: Gesture): Carousel
    requires Possible(g)
  {
    match g
    case Dragging(w) => DragChanged(c, w)
    case DragEnd(w) => DragEnded(c, w)
    case TapPack(i) => Tap(c, i)
  }

  /** The carousel after a series of gestures. */
  function Run(c: Carousel, gestures: seq<Gesture>): Carousel
    requires forall k :: 0 <= k < |gestures| ==> Possible(gestures[k])
    decreases |gestures|
  {
    if gestures == [] then c else Run(Apply(c, gestures[0]), gestures[1..])
  }

  /** No series of gestures takes an in-bounds selection outside the packs. */
  lemma {:induction false} RunStaysInBounds(c: Carousel, gestures: seq<Gesture>)
    requires InBounds(c)
    requires forall k :: 0 <= k < |gestures| ==> Possible(gestures[k])
    ensures InBounds(Run(c, gestures))
    decreases |gestures|
  {
    if gestures != [] {
      RunStaysInBounds(Apply(c, gestures[0]), gestures[1..]);
    }
  }

  /** The screen opens on the middle pack, so its selection always names one
      of the three packs. */
  lemma InitialInBounds(gestures: seq<Gesture>)
    requires forall k :: 0 <= k < |gestures| ==> Possible(gestures[k])
    ensures InBounds(Run(Initial, gestures))
  {
    RunStaysInBounds(Initial, gestures);
  }

  /** Without taps, every swipe-end moves the selection by at most one, so
      `n` swipe-ends move it at most `n` away. */
  lemma {:induction false} DragsMoveOneStepEach(c: Carousel, widths: seq<real>)
    ensures
      var r := Run(c, seq(|widths|, k requires 0 <= k < |widths| => DragEnd(widths[k])));
      c.selectedPackIndex - |widths| <= r.selectedPackIndex <= c.selectedPackIndex + |widths|
    decreases |widths|
  {
    var gs := seq(|widths|, k requires 0 <= k < |widths| => DragEnd(widths[k]));
    if widths != [] {
      DragsMoveOneStepEach(DragEnded(c, widths[0]), widths[1..]);
      assert gs[1..] == seq(|widths[1..]|, k requires 0 <= k < |widths[1..]| => DragEnd(widths[1..][k]));
    }
  }

  /** The page indicators for packs `lo..hi-1`: highlighted where the index
      is the selected one. */
  function IndicatorsFrom(selected: int, lo: int, hi: int): (dots: seq<bool>)
    decreases hi - lo
    ensures |dots| == if lo < hi then hi - lo else 0
  {
    if lo >= hi then [] else [lo == selected] + IndicatorsFrom(selected, lo + 1, hi)
  }

  /** The row of page indicators. */
  function Indicators(selected: int): seq<bool>
  {
    IndicatorsFrom(selected, 0, PackCount)
  }

  lemma {:induction false} HighlightedCount(selected: int, lo: int, hi: int)
    ensures CountWhere(IndicatorsFrom(selected, lo, hi), (b: bool) => b) == if lo <= selected < hi then 1 else 0
    decreases hi - lo
  {
    if lo < hi {
      HighlightedCount(selected, lo + 1, hi);
      var dots := IndicatorsFrom(selected, lo, hi);
      assert dots[1..] == IndicatorsFrom(selected, lo + 1, hi);
    }
  }

  /** Exactly one indicator is lit when the selection is in bounds, and it
      is the selected one. */
  lemma ExactlyOneHighlighted(c: Carousel)
    requires InBounds(c)
    ensures CountWhere(Indicators(c.selectedPackIndex), (b: bool) => b) == 1
    ensures Indicators(c.selectedPackIndex)[c.selectedPackIndex]
  {
    HighlightedCount(c.selectedPackIndex, 0, PackCount);
    IndicatorAt(c.selectedPackIndex, 0, PackCount, c.selectedPackIndex);
  }

  lemma {:induction false} IndicatorAt(selected: int, lo: int, hi: int, i: int)
    requires lo <= i < hi
    ensures IndicatorsFrom(selected, lo, hi)[i - lo] == (i == selected)
    decreases hi - lo
  {
    if i > lo {
      IndicatorAt(selected, lo + 1, hi, i);
    }
  }
}
