/** The resize step: the aspect-ratio table and lock, the dimension-field
    validator, the presets, and the editor component whose local dimensions
    are changed by handlers and by React effects. */
module ImageEditor {
  import opened Media
  import opened JsArray
  import opened Rounding
  import opened Text
  import opened ImageContext

  type Positive = n: int | n > 0 witness 1

  /** A fixed ratio `num / den`, kept exact. */
  datatype Ratio = Ratio(num: Positive, den: Positive)

  /** One entry of `aspectRatios`; `free` has no ratio. */
  datatype AspectRatioOption = AspectRatioOption(id: string, caption: string, ratio: Option<Ratio>)

  const AspectRatios: seq<AspectRatioOption> := [
    AspectRatioOption("free", "Free", None),
    AspectRatioOption("1:1", "Square (1:1)", Some(Ratio(1, 1))),
    AspectRatioOption("4:3", "Standard (4:3)", Some(Ratio(4, 3))),
    AspectRatioOption("16:9", "Widescreen (16:9)", Some(Ratio(16, 9))),
    AspectRatioOption("3:2", "Photo (3:2)", Some(Ratio(3, 2))),
    AspectRatioOption("5:4", "Portrait (5:4)", Some(Ratio(5, 4)))
  ]

  const FixedRatioIds: set<string> := {"1:1", "4:3", "16:9", "3:2", "5:4"}

  /** The ratio of `aspectRatios.find(ar => ar.id === id)`, if that finds an
      entry and the entry has a ratio. */
  function RatioOf(id: string): (r: Option<Ratio>)
    ensures r.Some? ==> exists k :: 0 <= k < |AspectRatios| && AspectRatios[k].id == id && AspectRatios[k].ratio == r
    ensures r.None? ==> id == "free" || forall k :: 0 <= k < |AspectRatios| ==> AspectRatios[k].id != id
  {
    match Find(AspectRatios, (o: AspectRatioOption) => o.id == id)
    case Some(o) => o.ratio
    case None => None
  }

  /** Each of the five fixed ids finds its own ratio. */
  lemma RatioTable()
    ensures RatioOf("1:1") == Some(Ratio(1, 1)) && RatioOf("4:3") == Some(Ratio(4, 3))
    ensures RatioOf("16:9") == Some(Ratio(16, 9)) && RatioOf("3:2") == Some(Ratio(3, 2))
    ensures RatioOf("5:4") == Some(Ratio(5, 4))
  {
    FoundAt("1:1", 1);
    FoundAt("4:3", 2);
    FoundAt("16:9", 3);
    FoundAt("3:2", 4);
    FoundAt("5:4", 5);
  }

  lemma FoundAt(id: string, i: nat)
    requires i < |AspectRatios| && AspectRatios[i].id == id
    ensures RatioOf(id) == AspectRatios[i].ratio
  {
    var p := (o: AspectRatioOption) => o.id == id;
    assert p(AspectRatios[i]);
    var k := FindIndex(AspectRatios, p);
    assert AspectRatios[k].id == AspectRatios[i].id;
  }

  /** Exactly the five fixed ids have a ratio: `free` and unknown ids have none. */
  lemma RatioExactlyForFixedIds(id: string)
    ensures RatioOf(id).Some? <==> id in FixedRatioIds
  {
    var p := (o: AspectRatioOption) => o.id == id;
    if id in FixedRatioIds {
      var i := if id == "1:1" then 1 else if id == "4:3" then 2 else if id == "16:9" then 3 else if id == "3:2" then 4 else 5;
      FoundAt(id, i);
    } else if id == "free" {
      FoundAt(id, 0);
    } else {
      assert forall i :: 0 <= i < |AspectRatios| ==> !p(AspectRatios[i]);
    }
  }

  /** The height the lock derives from `width` for ratio id `id`:
      `Math.round(width / ratio)` when `id` is not `free` and names a ratio. */
  function LockedHeight(width: int, id: string): (h: Option<int>)
    ensures h.Some? <==> RatioOf(id).Some?
    ensures h.Some? ==>
      var ratio := RatioOf(id).value;
      ratio.num * (2 * h.value - 1) <= 2 * width * ratio.den < ratio.num * (2 * h.value + 1)
  {
    if id == "free" then None
    else
      match RatioOf(id)
      case Some(ratio) => Some(RoundDiv(width * ratio.den, ratio.num))
      case None => None
  }

  /** 800 pixels wide at 4:3 gives 600; 1920 at 16:9 gives 1080; 1000 at 1:1 gives 1000. */
  lemma LockedHeightExamples()
    ensures LockedHeight(800, "4:3") == Some(600)
    ensures LockedHeight(1920, "16:9") == Some(1080)
    ensures LockedHeight(1000, "1:1") == Some(1000)
    ensures LockedHeight(1000, "free") == None
  {
    RatioTable();
    RoundDivUnique(800 * 3, 4, 600);
    RoundDivUnique(1920 * 9, 16, 1080);
    RoundDivUnique(1000 * 1, 1, 1000);
  }

  /** `parseInt(value) || 0` followed by the `<= 0` guard: the value a
      dimension field takes, or `None` when the input is ignored. */
  function AcceptedDimension(value: string): (d: Option<int>)
    ensures d.Some? ==> d.value > 0 && ParseInt(value) == d
    ensures d.None? <==> ParseInt(value).None? || ParseInt(value).value <= 0
  {
    match ParseInt(value)
    case Some(n) => if n > 0 then Some(n) else None
    case None => None
  }

  /** Every positive whole number is accepted as typed: there is no upper bound. */
  lemma AcceptsPositiveDecimal(n: nat)
    requires n > 0
    ensures AcceptedDimension(Decimal(n)) == Some(n)
  {
    ParseDecimal(n);
  }

  /** Zero, negative numbers and text without digits are ignored. */
  lemma RejectsNonPositive(n: nat)
    ensures AcceptedDimension(Decimal(n)).None? <==> n == 0
    ensures AcceptedDimension("-" + Decimal(n)) == None
    ensures AcceptedDimension("") == None
  {
    ParseDecimal(n);
    ParseNegativeDecimal(n);
  }

  /** A fraction is cut at the point: "640.9" gives 640. */
  lemma TruncatesFraction()
    ensures AcceptedDimension("640.9") == Some(640)
  {
    var s := "640.9";
    assert !IsDigit(s[3]) && DigitRun(s[3..]) == 0;
    assert s[2..][1..] == s[3..] && DigitRun(s[2..]) == 1;
    assert s[1..][1..] == s[2..] && DigitRun(s[1..]) == 2;
    assert s[1..] == s[1..] && DigitRun(s) == 3;
    assert s[0..][..3] == "640";
    assert "640"[..2] == "64" && "64"[..1] == "6" && "6"[..0] == "";
    assert DigitsValue("6") == 6;
    assert DigitsValue("64") == 64;
    assert DigitsValue("640") == 640;
  }

  datatype Axis = Width | Height

  const Presets: seq<Dimensions> := [
    Dimensions(800, 600), Dimensions(1920, 1080), Dimensions(1200, 1200), Dimensions(1500, 1000)
  ]

  /** The preview `generatePreview` makes: the original drawn onto a canvas of
      the local dimensions, encoded as JPEG. */
  function Preview(d: Dimensions): (url: DataUrl)
    ensures url.mime == "image/jpeg"
    ensures url.width == d.width && url.height == d.height
  {
    DataUrl("image/jpeg", d.width, d.height)
  }

  /** The aspect-lock effect: with the lock on and a fixed ratio, the height is
      derived from the width; otherwise the dimensions stay as they are. */
  function Locked(d: Dimensions, ratioId: string, maintain: bool): (e: Dimensions)
    ensures e.width == d.width
    ensures !maintain || RatioOf(ratioId).None? ==> e == d
    ensures maintain && RatioOf(ratioId).Some? ==> e.height == LockedHeight(d.width, ratioId).value
  {
    if maintain && LockedHeight(d.width, ratioId).Some? then d.(height := LockedHeight(d.width, ratioId).value)
    else d
  }

  /** The dimensions the editor starts from: the original image's natural size
      when there is one, the store's target dimensions otherwise. */
  function StartDimensions(s: State): (d: Dimensions)
    ensures s.originalImage.Some? ==> d == Reduce(s, SetOriginalImage(s.originalImage)).imageDimensions
    ensures s.originalImage.Some? ==> d == Reduce(s, SetOriginalImage(s.originalImage)).targetDimensions
    ensures s.originalImage.None? ==> d == s.targetDimensions
  {
    match s.originalImage
    case Some(img) => NaturalDimensions(img)
    case None => s.targetDimensions
  }

  /** The `ImageEditor` component's state. */
  class Editor {
    const store: Store
    var localDimensions: Dimensions
    var maintainAspectRatio: bool
    var previewUrl: Option<DataUrl>

    /** Once effects have run, the preview shows the local dimensions whenever
        there is an original image to draw. */
    ghost predicate Valid()
      reads this, store
    {
      previewUrl == (if store.state.originalImage.Some? then Some(Preview(localDimensions)) else None)
    }

    /** Mounting: the lock is on, the local dimensions come from the original
        image (or the target), and the mount-time lock effect applies. */
    constructor (store: Store)
      ensures Valid() && this.store == store && maintainAspectRatio
      ensures localDimensions == Locked(StartDimensions(store.state), store.state.aspectRatio, true)
    {
      this.store := store;
      maintainAspectRatio := true;
      localDimensions := StartDimensions(store.state);
      previewUrl := None;
      new;
      localDimensions := Locked(localDimensions, store.state.aspectRatio, maintainAspectRatio);
      if store.state.originalImage.Some? {
        previewUrl := Some(Preview(localDimensions));
      }
    }

    /** The effects React runs after a handler: the lock effect when the width,
        the ratio or the checkbox changed, then the preview effect. */
    method Rerender(oldWidth: int, oldRatio: string, oldMaintain: bool)
      modifies this
      ensures Valid() && maintainAspectRatio == old(maintainAspectRatio)
      ensures localDimensions ==
        if oldWidth != old(localDimensions).width || oldRatio != store.state.aspectRatio || oldMaintain != maintainAspectRatio
        then Locked(old(localDimensions), store.state.aspectRatio, maintainAspectRatio)
        else old(localDimensions)
    {
      if oldWidth != localDimensions.width || oldRatio != store.state.aspectRatio || oldMaintain != maintainAspectRatio {
        localDimensions := Locked(localDimensions, store.state.aspectRatio, maintainAspectRatio);
      }
      previewUrl := if store.state.originalImage.Some? then Some(Preview(localDimensions)) else None;
    }

    /** `handleDimensionChange`: an ignored input changes nothing; a height
        replaces the height; a new width is followed by the lock effect. */
    method ChangeDimension(axis: Axis, value: string)
      requires Valid()
      modifies this
      ensures Valid() && maintainAspectRatio == old(maintainAspectRatio)
      ensures AcceptedDimension(value).None? ==> localDimensions == old(localDimensions)
      ensures AcceptedDimension(value).Some? && axis == Height ==>
        localDimensions == old(localDimensions).(height := AcceptedDimension(value).value)
      ensures AcceptedDimension(value).Some? && axis == Width ==>
        var typed := old(localDimensions).(width := AcceptedDimension(value).value);
        localDimensions == if typed.width != old(localDimensions).width
                           then Locked(typed, store.state.aspectRatio, maintainAspectRatio)
                           else typed
    {
      var n := AcceptedDimension(value);
      if n.None? {
        return;
      }
      var oldWidth := localDimensions.width;
      if axis == Width {
        localDimensions := localDimensions.(width := n.value);
      } else {
        localDimensions := localDimensions.(height := n.value);
      }
      Rerender(oldWidth, store.state.aspectRatio, maintainAspectRatio);
    }

    /** `handleAspectRatioChange`: dispatches the new ratio id, and for a fixed
        ratio derives the height from the current width, whether or not the
        lock is on. The lock effect that follows adds nothing. */
    method ChangeAspectRatio(id: string)
      requires Valid()
      modifies this, store
      ensures Valid() && maintainAspectRatio == old(maintainAspectRatio)
      ensures store.state == Reduce(old(store.state), SetAspectRatio(id))
      ensures store.dispatched == old(store.dispatched) + [SetAspectRatio(id)]
      ensures localDimensions ==
        match LockedHeight(old(localDimensions).width, id)
        case Some(h) => old(localDimensions).(height := h)
        case None => old(localDimensions)
    {
      var oldWidth, oldRatio := localDimensions.width, store.state.aspectRatio;
      store.Dispatch(SetAspectRatio(id));
      var h := LockedHeight(localDimensions.width, id);
      if h.Some? {
        localDimensions := localDimensions.(height := h.value);
      }
      Rerender(oldWidth, oldRatio, maintainAspectRatio);
    }

    /** `handleMaintainAspectRatio`: unchecking dispatches the `free` ratio;
        checking dispatches nothing and lets the lock effect apply. */
    method SetMaintain(checked: bool)
      requires Valid()
      modifies this, store
      ensures Valid() && maintainAspectRatio == checked
      ensures !checked ==>
        && store.state == Reduce(old(store.state), SetAspectRatio("free"))
        && store.dispatched == old(store.dispatched) + [SetAspectRatio("free")]
        && localDimensions == old(localDimensions)
      ensures checked ==>
        && unchanged(store)
        && localDimensions == if old(maintainAspectRatio) then old(localDimensions)
                              else Locked(old(localDimensions), store.state.aspectRatio, true)
    {
      var oldRatio, oldMaintain := store.state.aspectRatio, maintainAspectRatio;
      maintainAspectRatio := checked;
      if !checked {
        store.Dispatch(SetAspectRatio("free"));
      }
      Rerender(localDimensions.width, oldRatio, oldMaintain);
    }

    /** A preset button sets both dimensions; the lock effect then applies when
        the width changed. */
    method ApplyPreset(k: nat)
      requires Valid() && k < |Presets|
      modifies this
      ensures Valid() && maintainAspectRatio == old(maintainAspectRatio)
      ensures localDimensions == if Presets[k].width != old(localDimensions).width
                                 then Locked(Presets[k], store.state.aspectRatio, maintainAspectRatio)
                                 else Presets[k]
    {
      var oldWidth := localDimensions.width;
      localDimensions := Presets[k];
      Rerender(oldWidth, store.state.aspectRatio, maintainAspectRatio);
    }

    /** `handleNext`: the target dimensions, then the preview as the edited
        image, then on to the next step. */
    method Continue() returns (next: bool)
      requires Valid()
      modifies store
      ensures Valid() && next
      ensures store.dispatched == old(store.dispatched) + [SetTargetDimensions(localDimensions), SetEditedImage(previewUrl)]
      ensures store.state == Reduce(Reduce(old(store.state), SetTargetDimensions(localDimensions)), SetEditedImage(previewUrl))
    {
      store.Dispatch(SetTargetDimensions(localDimensions));
      store.Dispatch(SetEditedImage(previewUrl));
      next := true;
    }
  }

  /** With the lock on, a preset whose width differs from the current one keeps
      its width but has its height derived from the ratio. */
  lemma PresetUnderLock(k: nat, ratioId: string)
    requires k < |Presets| && RatioOf(ratioId).Some?
    ensures Locked(Presets[k], ratioId, true).width == Presets[k].width
    ensures Locked(Presets[k], ratioId, true).height == LockedHeight(Presets[k].width, ratioId).value
  {
  }
}
