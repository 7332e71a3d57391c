/** The upload step: the checks a dropped file must pass before it is read,
    and what a successful load does to the shared state. */
module ImageUpload {
  import opened Media
  import opened Text
  import opened ImageContext

  /** A file handed over by the drop zone. `decoded` is the image element the
      file's data URL loads into, or `None` when that load never completes. */
  datatype DroppedFile = DroppedFile(mimeType: string, size: int, decoded: Option<ImageElement>)

  /** Ten mebibytes, the largest size accepted. */
  const MaxFileSize: int := 10 * 1024 * 1024

  const InvalidTypeMessage: string := "Please select a valid image file"
  const TooLargeMessage: string := "File size must be less than 10MB"

  /** What `onDrop` decides before the file is read. */
  datatype DropOutcome = NothingDropped | Rejected(message: string) | Accepted(file: DroppedFile)

  /** The guards of `onDrop`: an empty drop is ignored, and the first file
      must have an `image/` type and then be at most `MaxFileSize` bytes. */
  function CheckDrop(files: seq<DroppedFile>): (r: DropOutcome)
    ensures r.NothingDropped? <==> |files| == 0
    ensures r == Rejected(InvalidTypeMessage) <==> |files| > 0 && !StartsWith(files[0].mimeType, "image/")
    ensures r == Rejected(TooLargeMessage) <==>
      |files| > 0 && StartsWith(files[0].mimeType, "image/") && files[0].size > MaxFileSize
    ensures r.Accepted? <==>
      |files| > 0 && StartsWith(files[0].mimeType, "image/") && files[0].size <= MaxFileSize
    ensures r.Accepted? ==> r.file == files[0]
  {
    if |files| == 0 then NothingDropped
    else if !StartsWith(files[0].mimeType, "image/") then Rejected(InvalidTypeMessage)
    else if files[0].size > MaxFileSize then Rejected(TooLargeMessage)
    else Accepted(files[0])
  }

  /** Only the first dropped file is examined. */
  lemma OnlyFirstFileCounts(files: seq<DroppedFile>, others: seq<DroppedFile>)
    requires |files| > 0
    ensures CheckDrop(files) == CheckDrop([files[0]] + others)
  {
    assert ([files[0]] + others)[0] == files[0];
  }

  /** The type check comes first: an oversized non-image is reported as a
      wrong type. */
  lemma TypeCheckedBeforeSize(f: DroppedFile)
    requires !StartsWith(f.mimeType, "image/") && f.size > MaxFileSize
    ensures CheckDrop([f]) == Rejected(InvalidTypeMessage)
  {
  }

  /** The size limit is inclusive: exactly 10485760 bytes passes, one more
      byte does not. */
  lemma SizeLimitBoundary(img: Option<ImageElement>)
    ensures CheckDrop([DroppedFile("image/png", 10485760, img)]).Accepted?
    ensures CheckDrop([DroppedFile("image/png", 10485761, img)]) == Rejected(TooLargeMessage)
  {
    assert StartsWith("image/png", "image/");
  }

  /** The `ImageUpload` component with its local `uploadError` state. */
  class Uploader {
    const store: Store
    var uploadError: Option<string>

    constructor (store: Store)
      ensures this.store == store && uploadError == None
    {
      this.store := store;
      uploadError := None;
    }

    /** `onDrop`: clears the error, applies the guards, and once the image has
        loaded dispatches it as the original image and calls `onNext`
        (`next`). A file whose image never loads changes nothing more. */
    method OnDrop(files: seq<DroppedFile>) returns (next: bool)
      modifies this, store
      ensures uploadError == if CheckDrop(files).Rejected? then Some(CheckDrop(files).message) else None
      ensures next <==> CheckDrop(files).Accepted? && CheckDrop(files).file.decoded.Some?
      ensures next ==> store.dispatched == old(store.dispatched) + [SetOriginalImage(files[0].decoded)]
      ensures next ==> store.state == Reduce(old(store.state), SetOriginalImage(files[0].decoded))
      ensures next ==> store.state.originalImage == files[0].decoded
      ensures next ==> store.state.imageDimensions == NaturalDimensions(files[0].decoded.value)
      ensures next ==> store.state.targetDimensions == NaturalDimensions(files[0].decoded.value)
      ensures !next ==> store.state == old(store.state) && store.dispatched == old(store.dispatched)
    {
      uploadError := None;
      next := false;
      var outcome := CheckDrop(files);
      match outcome
      case NothingDropped =>
      case Rejected(message) =>
        uploadError := Some(message);
      case Accepted(file) =>
        if file.decoded.Some? {
          OriginalImageSetsDimensions(store.state, file.decoded.value);
          store.Dispatch(SetOriginalImage(file.decoded));
          next := true;
        }
    }
  }
}
