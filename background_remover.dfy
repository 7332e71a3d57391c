/** The background-removal step: a brightness threshold that clears the alpha
    byte of near-white pixels, run in place over an RGBA buffer, and the
    component around it, which shows ten progress ticks before running the pass. */
module BackgroundRemover {
  import opened Media
  import opened ImageContext
  import opened JsArray

  /** A byte of a `Uint8ClampedArray`. */
  type Byte = x: int | 0 <= x < 256

  /** The source's test: average brightness `(r + g + b) / 3` above 240, or all
      three channels above 250. The division is exact, as JavaScript's is for
      sums below 2^53. */
  predicate IsBackground(r: Byte, g: Byte, b: Byte)
    ensures IsBackground(r, g, b) ==> r > 210 && g > 210 && b > 210
    ensures r > 240 && g > 240 && b > 240 ==> IsBackground(r, g, b)
  {
    (r + g + b) as real / 3.0 > 240.0 || (r > 250 && g > 250 && b > 250)
  }

  /** The test needs no division, and its second disjunct adds nothing: three
      channels above 250 sum to at least 753, which is above 720. */
  lemma IsBackgroundIffSumAbove720(r: Byte, g: Byte, b: Byte)
    ensures IsBackground(r, g, b) <==> r + g + b > 720
    ensures r > 250 && g > 250 && b > 250 ==> r + g + b > 720
  {
  }

  /** The pass as a function of the buffer, four bytes per pixel. */
  function Masked(d: seq<Byte>): (m: seq<Byte>)
    requires |d| % 4 == 0
    ensures |m| == |d|
    decreases |d|
  {
    if d == [] then []
    else [d[0], d[1], d[2], if IsBackground(d[0], d[1], d[2]) then 0 else d[3]] + Masked(d[4..])
  }

  /** What the pass leaves at index `k` of `d`. */
  function MaskedByte(d: seq<Byte>, k: nat): Byte
    requires |d| % 4 == 0 && k < |d|
  {
    if k % 4 == 3 && IsBackground(d[k - 3], d[k - 2], d[k - 1]) then 0 else d[k]
  }

  /** Only alpha bytes change: the R, G and B bytes are kept, and an alpha byte
      becomes 0 exactly for a background pixel and is kept otherwise. */
  lemma {:induction false} MaskedAt(d: seq<Byte>, k: nat)
    requires |d| % 4 == 0 && k < |d|
    ensures Masked(d)[k] == MaskedByte(d, k)
    ensures k % 4 != 3 ==> Masked(d)[k] == d[k]
    ensures k % 4 == 3 ==> (Masked(d)[k] == 0 <==> IsBackground(d[k - 3], d[k - 2], d[k - 1]) || d[k] == 0)
    decreases |d|
  {
    if k >= 4 {
      MaskedAt(d[4..], k - 4);
    }
  }

  /** Running the pass again changes nothing. */
  lemma {:induction false} MaskedIdempotent(d: seq<Byte>)
    requires |d| % 4 == 0
    ensures Masked(Masked(d)) == Masked(d)
    decreases |d|
  {
    if d != [] {
      var m := Masked(d);
      assert m[4..] == Masked(d[4..]);
      MaskedIdempotent(d[4..]);
    }
  }

  /** The buffer may be cut at any pixel boundary and the pieces masked on their own. */
  lemma {:induction false} MaskedAppend(x: seq<Byte>, y: seq<Byte>)
    requires |x| % 4 == 0 && |y| % 4 == 0
    ensures Masked(x + y) == Masked(x) + Masked(y)
    decreases |x|
  {
    if x != [] {
      var xy := x + y;
      assert xy[0] == x[0] && xy[1] == x[1] && xy[2] == x[2] && xy[3] == x[3];
      assert xy[4..] == x[4..] + y;
      MaskedAppend(x[4..], y);
      var head := [x[0], x[1], x[2], if IsBackground(x[0], x[1], x[2]) then 0 else x[3]];
      calc {
        Masked(xy);
        head + Masked(x[4..] + y);
        head + (Masked(x[4..]) + Masked(y));
        (head + Masked(x[4..])) + Masked(y);
        Masked(x) + Masked(y);
      }
    } else {
      assert x + y == y;
    }
  }

  /** The byte at index `k` after the pass depends only on the bytes of `k`'s
      own pixel: itself, and for an alpha byte the three colour bytes before it. */
  lemma PixelLocal(d: seq<Byte>, e: seq<Byte>, k: nat)
    requires |d| % 4 == 0 && |e| % 4 == 0 && k < |d| && k < |e|
    requires d[k] == e[k]
    requires k % 4 == 3 ==> d[k - 3] == e[k - 3] && d[k - 2] == e[k - 2] && d[k - 1] == e[k - 1]
    ensures Masked(d)[k] == Masked(e)[k]
  {
    assert MaskedByte(d, k) == MaskedByte(e, k);
    MaskedAt(d, k);
    MaskedAt(e, k);
  }

  /** The pixel loop of `processImage`, in place over `getImageData`'s buffer. */
  method ApplyMask(data: array<Byte>)
    requires data.Length % 4 == 0
    modifies data
    ensures data[..] == Masked(old(data[..]))
  {
    ghost var original := data[..];
    var i := 0;
    while i < data.Length
      invariant 0 <= i <= data.Length && i % 4 == 0
      invariant forall k :: 0 <= k < data.Length ==>
        data[k] == (if k < i then MaskedByte(original, k) else original[k])
    {
      var r, g, b := data[i], data[i + 1], data[i + 2];
      if IsBackground(r, g, b) {
        data[i + 3] := 0;
      }
      i := i + 4;
    }
    forall k | 0 <= k < data.Length
      ensures data[..][k] == Masked(original)[k]
    {
      MaskedAt(original, k);
    }
  }

  datatype RemovalQuality = Low | Medium | High

  /** One entry of `qualityOptions`: a simulated duration in milliseconds and a
      `quality` figure that nothing reads. */
  datatype QualityOption = QualityOption(id: RemovalQuality, caption: string, time: nat, quality: real)

  const QualityOptions: seq<QualityOption> := [
    QualityOption(Low, "Low (Fast)", 2000, 0.7),
    QualityOption(Medium, "Medium", 4000, 0.85),
    QualityOption(High, "High (Slow)", 6000, 0.95)
  ]

  const TotalSteps: nat := 10

  /** `qualityOptions.find(q => q.id === removalQuality).time`; every quality
      has an entry, so the lookup always finds one. */
  function TimeOf(q: RemovalQuality): (t: nat)
    ensures exists k :: 0 <= k < |QualityOptions| && QualityOptions[k].id == q && QualityOptions[k].time == t
  {
    assert QualityOptions[0].id == Low && QualityOptions[1].id == Medium && QualityOptions[2].id == High;
    var found := Find(QualityOptions, (o: QualityOption) => o.id == q);
    assert found.Some?;
    found.value.time
  }

  /** The interval period of a run, `selectedQuality.time / totalSteps`. */
  function TickPeriod(q: RemovalQuality): (period: nat)
    ensures TotalSteps * period == TimeOf(q)
  {
    TimeOf(q) / TotalSteps
  }

  /** Ten ticks of 200, 400 or 600 ms make the 2, 4 or 6 seconds of low, medium
      and high quality. */
  lemma TickPeriods(q: RemovalQuality)
    ensures TickPeriod(Low) == 200 && TickPeriod(Medium) == 400 && TickPeriod(High) == 600
    ensures TotalSteps * TickPeriod(q) == TimeOf(q)
  {
    assert QualityOptions[0].id == Low;
    assert QualityOptions[1].id == Medium && QualityOptions[0].id != Medium;
    assert QualityOptions[2].id == High && QualityOptions[0].id != High && QualityOptions[1].id != High;
  }

  /** A live `setInterval`: the ticks it has counted and its period. */
  datatype Run = Run(ticks: nat, period: nat)

  /** The `BackgroundRemover` component's state. Every call of
      `simulateBackgroundRemoval` starts an interval of its own and nothing
      cancels an earlier one, so several runs may be live at once. */
  class Remover {
    const store: Store
    var isProcessing: bool
    var progress: int
    var resultImage: Option<DataUrl>
    var removalQuality: RemovalQuality
    var runs: seq<Run>

    /** A live interval has not yet reached its tenth tick. */
    ghost predicate Valid()
      reads this
    {
      forall j :: 0 <= j < |runs| ==> runs[j].ticks < TotalSteps
    }

    /** Mounting the component: quality `high`, and a first run if there is an
        edited image to process. */
    constructor (store: Store)
      ensures Valid() && this.store == store
      ensures removalQuality == High && resultImage == None
      ensures store.state.editedImage.Some? ==> isProcessing && progress == 0 && runs == [Run(0, TickPeriod(High))]
      ensures store.state.editedImage.None? ==> !isProcessing && progress == 0 && runs == []
    {
      this.store := store;
      isProcessing := false;
      progress := 0;
      resultImage := None;
      removalQuality := High;
      runs := [];
      if store.state.editedImage.Some? {
        isProcessing := true;
        runs := [Run(0, TickPeriod(High))];
      }
    }

    /** `simulateBackgroundRemoval`, with the quality its closure captured. */
    method Simulate(quality: RemovalQuality)
      requires Valid()
      modifies this
      ensures Valid()
      ensures resultImage == old(resultImage) && removalQuality == old(removalQuality)
      ensures store.state.editedImage.None? ==>
        isProcessing == old(isProcessing) && progress == old(progress) && runs == old(runs)
      ensures store.state.editedImage.Some? ==>
        isProcessing && progress == 0 && runs == old(runs) + [Run(0, TickPeriod(quality))]
    {
      if store.state.editedImage.None? {
        return;
      }
      isProcessing := true;
      progress := 0;
      runs := runs + [Run(0, TickPeriod(quality))];
    }

    /** `processImage`: masks the pixels drawn from the edited image, keeps the
        PNG encoding as the result and hands it to the store. */
    method ProcessImage(pixels: array<Byte>)
      requires pixels.Length % 4 == 0
      modifies this, store, pixels
      ensures runs == old(runs) && removalQuality == old(removalQuality)
      ensures old(store.state.editedImage).None? ==>
        unchanged(this) && unchanged(store) && unchanged(pixels)
      ensures old(store.state.editedImage).Some? ==>
        var url := DataUrl("image/png", old(store.state.editedImage).value.width, old(store.state.editedImage).value.height);
        && pixels[..] == Masked(old(pixels[..]))
        && resultImage == Some(url)
        && store.state == Reduce(Reduce(old(store.state), SetProcessedImage(Some(url))), SetBackgroundRemoved(true))
        && store.dispatched == old(store.dispatched) + [SetProcessedImage(Some(url)), SetBackgroundRemoved(true)]
        && !isProcessing && progress == 100
    {
      if store.state.editedImage.None? {
        return;
      }
      var source := store.state.editedImage.value;
      ApplyMask(pixels);
      var url := DataUrl("image/png", source.width, source.height);
      resultImage := Some(url);
      store.Dispatch(SetProcessedImage(Some(url)));
      store.Dispatch(SetBackgroundRemoved(true));
      isProcessing := false;
      progress := 100;
    }

    /** One interval callback of run `j`. The tenth tick clears the interval and
        runs the pixel pass on `pixels`, the canvas data of the edited image. */
    method Tick(j: nat, pixels: array<Byte>) returns (passRan: bool)
      requires Valid() && j < |runs| && pixels.Length % 4 == 0
      modifies this, store, pixels
      ensures Valid() && removalQuality == old(removalQuality)
      ensures passRan <==> old(runs[j].ticks) + 1 == TotalSteps
      ensures !passRan ==>
        && runs == old(runs)[j := Run(old(runs[j].ticks) + 1, old(runs[j].period))]
        && progress == 10 * runs[j].ticks
        && isProcessing == old(isProcessing) && resultImage == old(resultImage)
        && unchanged(store) && unchanged(pixels)
      ensures passRan ==>
        && runs == old(runs[..j]) + old(runs[j + 1..])
        && progress == 100
        && (old(store.state.editedImage).None? ==>
              isProcessing == old(isProcessing) && resultImage == old(resultImage)
              && unchanged(store) && unchanged(pixels))
        && (old(store.state.editedImage).Some? ==>
              var url := DataUrl("image/png", old(store.state.editedImage).value.width, old(store.state.editedImage).value.height);
              && pixels[..] == Masked(old(pixels[..]))
              && resultImage == Some(url) && !isProcessing
              && store.state == Reduce(Reduce(old(store.state), SetProcessedImage(Some(url))), SetBackgroundRemoved(true))
              && store.dispatched == old(store.dispatched) + [SetProcessedImage(Some(url)), SetBackgroundRemoved(true)])
    {
      var run := runs[j];
      var ticks := run.ticks + 1;
      progress := ticks * 10;
      if ticks >= TotalSteps {
        runs := runs[..j] + runs[j + 1..];
        passRan := true;
        ProcessImage(pixels);
        progress := 100;
      } else {
        runs := runs[j := Run(ticks, run.period)];
        passRan := false;
      }
    }

    /** `handleQualityChange`: records the new quality and, when a result already
        exists, starts a new run. That run's closure still holds the quality
        from before the change, so its period is the old one. */
    method ChangeQuality(q: RemovalQuality)
      requires Valid()
      modifies this
      ensures Valid() && removalQuality == q && resultImage == old(resultImage)
      ensures old(resultImage).None? || store.state.editedImage.None? ==>
        runs == old(runs) && isProcessing == old(isProcessing) && progress == old(progress)
      ensures old(resultImage).Some? && store.state.editedImage.Some? ==>
        runs == old(runs) + [Run(0, TickPeriod(old(removalQuality)))] && isProcessing && progress == 0
    {
      var previous := removalQuality;
      removalQuality := q;
      if resultImage.Some? {
        Simulate(previous);
      }
    }

    /** `handleNext`: the wizard moves on only once a result exists. */
    method Continue() returns (next: bool)
      ensures next <==> resultImage.Some?
    {
      next := resultImage.Some?;
    }
  }
}
