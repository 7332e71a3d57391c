/** The shared session store: the state record, its initial value, the pure
    reducer over named actions, and the store object that `useReducer`
    provides to every component. */
module ImageContext {
  import opened Media

  datatype State = State(
    originalImage: Option<ImageElement>,
    editedImage: Option<DataUrl>,
    processedImage: Option<DataUrl>,
    imageDimensions: Dimensions,
    targetDimensions: Dimensions,
    aspectRatio: string,
    isProcessing: bool,
    processingError: Option<string>,
    backgroundRemoved: bool)

  /** The provider's `initialState`: no image of any kind, nothing in
      progress, a default target of 800x600 and the `free` ratio. */
  function InitialState(): (s: State)
    ensures s.originalImage.None? && s.editedImage.None? && s.processedImage.None?
    ensures !s.isProcessing && s.processingError.None? && !s.backgroundRemoved
    ensures s.targetDimensions == Dimensions(800, 600) && s.aspectRatio == "free"
  {
    State(None, None, None, Dimensions(0, 0), Dimensions(800, 600), "free", false, None, false)
  }

  /** The `type` strings the reducer's switch handles. */
  const HandledTypes: set<string> := {
    "SET_ORIGINAL_IMAGE", "SET_EDITED_IMAGE", "SET_PROCESSED_IMAGE",
    "SET_TARGET_DIMENSIONS", "SET_ASPECT_RATIO", "SET_PROCESSING",
    "SET_PROCESSING_ERROR", "SET_BACKGROUND_REMOVED", "RESET"
  }

  /** One constructor per action type the reducer knows; any other `type`
      string is `Unknown`. The constructor itself accepts every string, so an
      `Unknown` that stands for a real dispatch is one that satisfies
      `Dispatchable`; the lemmas about `Unknown` hold for every string. */
  datatype Action =
    | SetOriginalImage(original: Option<ImageElement>)
    | SetEditedImage(edited: Option<DataUrl>)
    | SetProcessedImage(processed: Option<DataUrl>)
    | SetTargetDimensions(target: Dimensions)
    | SetAspectRatio(ratio: string)
    | SetProcessing(processing: bool)
    | SetProcessingError(error: Option<string>)
    | SetBackgroundRemoved(removed: bool)
    | Reset
    | Unknown(actionType: string)

  /** An action some dispatch can produce: a handled `type` string never
      reaches the switch's `default`. */
  predicate Dispatchable(a: Action) {
    a.Unknown? ==> a.actionType !in HandledTypes
  }

  datatype Field =
    | OriginalImageField | EditedImageField | ProcessedImageField
    | ImageDimensionsField | TargetDimensionsField | AspectRatioField
    | IsProcessingField | ProcessingErrorField | BackgroundRemovedField

  /** The fields an action other than `Reset` may write. */
  function Writes(a: Action): set<Field> {
    match a
    case SetOriginalImage(_) => {OriginalImageField, ImageDimensionsField, TargetDimensionsField}
    case SetEditedImage(_) => {EditedImageField}
    case SetProcessedImage(_) => {ProcessedImageField}
    case SetTargetDimensions(_) => {TargetDimensionsField}
    case SetAspectRatio(_) => {AspectRatioField}
    case SetProcessing(_) => {IsProcessingField}
    case SetProcessingError(_) => {ProcessingErrorField}
    case SetBackgroundRemoved(_) => {BackgroundRemovedField}
    case Reset => {}
    case Unknown(_) => {}
  }

  /** `s` and `t` agree on every field outside `written`. */
  predicate AgreeOutside(s: State, t: State, written: set<Field>) {
    && (OriginalImageField !in written ==> s.originalImage == t.originalImage)
    && (EditedImageField !in written ==> s.editedImage == t.editedImage)
    && (ProcessedImageField !in written ==> s.processedImage == t.processedImage)
    && (ImageDimensionsField !in written ==> s.imageDimensions == t.imageDimensions)
    && (TargetDimensionsField !in written ==> s.targetDimensions == t.targetDimensions)
    && (AspectRatioField !in written ==> s.aspectRatio == t.aspectRatio)
    && (IsProcessingField !in written ==> s.isProcessing == t.isProcessing)
    && (ProcessingErrorField !in written ==> s.processingError == t.processingError)
    && (BackgroundRemovedField !in written ==> s.backgroundRemoved == t.backgroundRemoved)
  }

  /** The dimensions `SET_ORIGINAL_IMAGE` records for both `imageDimensions`
      and `targetDimensions`. */
  function OriginalDimensions(original: Option<ImageElement>, fallback: Dimensions): Dimensions {
    match original
    case Some(img) => NaturalDimensions(img)
    case None => fallback
  }

  /** `imageReducer`: each action overwrites its own fields with its payload,
      `RESET` gives the initial record and an unknown action changes nothing. */
  function Reduce(s: State, a: Action): (r: State)
    ensures a.Reset? ==> r == InitialState()
    ensures !a.Reset? ==> AgreeOutside(s, r, Writes(a))
    ensures a.SetOriginalImage? ==> r.originalImage == a.original
    ensures a.SetEditedImage? ==> r.editedImage == a.edited
    ensures a.SetProcessedImage? ==> r.processedImage == a.processed
    ensures a.SetTargetDimensions? ==> r.targetDimensions == a.target
    ensures a.SetAspectRatio? ==> r.aspectRatio == a.ratio
    ensures a.SetProcessing? ==> r.isProcessing == a.processing
    ensures a.SetProcessingError? ==> r.processingError == a.error
    ensures a.SetBackgroundRemoved? ==> r.backgroundRemoved == a.removed
  {
    match a
    case SetOriginalImage(img) =>
      s.(originalImage := img,
         imageDimensions := OriginalDimensions(img, Dimensions(0, 0)),
         targetDimensions := OriginalDimensions(img, Dimensions(800, 600)))
    case SetEditedImage(url) => s.(editedImage := url)
    case SetProcessedImage(url) => s.(processedImage := url)
    case SetTargetDimensions(d) => s.(targetDimensions := d)
    case SetAspectRatio(id) => s.(aspectRatio := id)
    case SetProcessing(b) => s.(isProcessing := b)
    case SetProcessingError(e) => s.(processingError := e)
    case SetBackgroundRemoved(b) => s.(backgroundRemoved := b)
    case Reset => InitialState()
    case Unknown(_) => s
  }

  /** A state is determined by its fields: agreeing everywhere means equal. */
  lemma AgreeEverywhere(s: State, t: State)
    requires AgreeOutside(s, t, {})
    ensures s == t
  {
  }

  /** An action type the reducer does not know returns the state unchanged. */
  lemma UnknownIsIdentity(s: State, actionType: string)
    ensures Reduce(s, Unknown(actionType)) == s
  {
    AgreeEverywhere(s, Reduce(s, Unknown(actionType)));
  }

  /** `RESET` forgets everything: any two states reset to the same record. */
  lemma ResetForgetsState(s: State, t: State)
    ensures Reduce(s, Reset) == Reduce(t, Reset) == InitialState()
    ensures Reduce(s, Reset).targetDimensions == Dimensions(800, 600)
    ensures Reduce(s, Reset).aspectRatio == "free"
  {
  }

  /** A loaded image sets both dimension records to its natural size, falling
      back to `width`/`height` where the natural size is 0. */
  lemma OriginalImageSetsDimensions(s: State, img: ImageElement)
    ensures Reduce(s, SetOriginalImage(Some(img))).imageDimensions == NaturalDimensions(img)
    ensures Reduce(s, SetOriginalImage(Some(img))).targetDimensions == NaturalDimensions(img)
  {
  }

  /** A null image clears `imageDimensions` to 0x0 and puts the target back to 800x600. */
  lemma NullOriginalImageDimensions(s: State)
    ensures Reduce(s, SetOriginalImage(None)).imageDimensions == Dimensions(0, 0)
    ensures Reduce(s, SetOriginalImage(None)).targetDimensions == Dimensions(800, 600)
  {
  }

  /** A new original image leaves the downstream images and the removal flag as
      they were, so they may describe an earlier image. */
  lemma OriginalImageKeepsDownstream(s: State, img: Option<ImageElement>)
    ensures Reduce(s, SetOriginalImage(img)).editedImage == s.editedImage
    ensures Reduce(s, SetOriginalImage(img)).processedImage == s.processedImage
    ensures Reduce(s, SetOriginalImage(img)).backgroundRemoved == s.backgroundRemoved
  {
  }

  /** Every action is an overwrite, so dispatching it twice is dispatching it once. */
  lemma ReduceIdempotent(s: State, a: Action)
    ensures Reduce(Reduce(s, a), a) == Reduce(s, a)
  {
    var once := Reduce(s, a);
    if !a.Reset? {
      AgreeEverywhere(Reduce(once, a), once);
    }
  }

  /** Two actions that write disjoint fields commute. */
  lemma DisjointActionsCommute(s: State, a: Action, b: Action)
    requires !a.Reset? && !b.Reset?
    requires Writes(a) !! Writes(b)
    ensures Reduce(Reduce(s, a), b) == Reduce(Reduce(s, b), a)
  {
    var sa, sb := Reduce(s, a), Reduce(s, b);
    var x, y := Reduce(sa, b), Reduce(sb, a);
    assert AgreeOutside(sa, x, Writes(b));
    assert AgreeOutside(sb, y, Writes(a));
    WrittenFieldsIgnoreState(s, sb, a);
    WrittenFieldsIgnoreState(s, sa, b);
    AgreeEverywhere(x, y);
  }

  const AllFields: set<Field> := {
    OriginalImageField, EditedImageField, ProcessedImageField,
    ImageDimensionsField, TargetDimensionsField, AspectRatioField,
    IsProcessingField, ProcessingErrorField, BackgroundRemovedField
  }

  /** What an action writes depends on its payload alone, not on the state it
      is applied to. */
  lemma WrittenFieldsIgnoreState(s: State, t: State, a: Action)
    requires !a.Reset?
    ensures AgreeOutside(Reduce(s, a), Reduce(t, a), AllFields - Writes(a))
  {
  }

  /** The store `ImageProvider` holds: the current state and, as a record of
      what the components did, every action dispatched so far. */
  class Store {
    var state: State
    ghost var dispatched: seq<Action>

    constructor ()
      ensures state == InitialState() && dispatched == []
    {
      state := InitialState();
      dispatched := [];
    }

    method Dispatch(a: Action)
      modifies this
      ensures state == Reduce(old(state), a)
      ensures dispatched == old(dispatched) + [a]
    {
      state := Reduce(state, a);
      dispatched := dispatched + [a];
    }
  }
}
