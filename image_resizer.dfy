/** The desktop application: the state `ImageResizerApp` keeps between
    button presses, the guards of its handlers, the default file name offered
    when saving and the choice of the JPEG branch. Dialogs, Pillow and rembg
    are outside the model; what they return is passed in. */
module ImageResizer {
  import opened Media
  import opened Text

  /** A Pillow image: its size and its mode (`"RGB"`, `"RGBA"`, `"P"`, ...). */
  datatype PilImage = PilImage(width: int, height: int, mode: string)

  datatype Rgb = Rgb(red: int, green: int, blue: int)

  const White: Rgb := Rgb(255, 255, 255)
  const JpegQuality: int := 95

  /** What `save_image` writes: the image handed to Pillow's `save`, the JPEG
      quality when the JPEG branch is taken, and the colour an RGBA image was
      composited onto. */
  datatype SavedImage = SavedImage(path: string, image: PilImage, jpegQuality: Option<int>, matte: Option<Rgb>)

  /** The outcome of `resize_image`. */
  datatype ResizeOutcome = NoImage | InvalidNumber | NotPositive | Resized

  /** The position of the last `c` in `s`, or -1 (`str.rfind`). */
  function LastIndexOf(s: string, c: char): (i: int)
    ensures -1 <= i < |s|
    ensures i >= 0 ==> s[i] == c
    ensures forall j :: i < j < |s| ==> s[j] != c
  {
    if |s| == 0 then -1
    else if s[|s| - 1] == c then |s| - 1
    else LastIndexOf(s[..|s| - 1], c)
  }

  /** `LastIndexOf` finds a `c` that no later `c` follows. */
  lemma LastIndexAt(s: string, c: char, k: int)
    requires 0 <= k < |s| && s[k] == c
    requires forall j :: k < j < |s| ==> s[j] != c
    ensures LastIndexOf(s, c) == k
  {
  }

  /** `os.path.basename` with the POSIX separator: what follows the last `/`. */
  function Basename(path: string): (name: string)
    ensures forall i :: 0 <= i < |name| ==> name[i] != '/'
    ensures |name| <= |path| && path[|path| - |name|..] == name
    ensures |name| < |path| ==> path[|path| - |name| - 1] == '/'
  {
    path[LastIndexOf(path, '/') + 1..]
  }

  predicate AllDots(s: string) {
    forall k :: 0 <= k < |s| ==> s[k] == '.'
  }

  /** The root of `os.path.splitext` for a name without separators: the name
      up to its last dot, unless that dot is preceded only by dots (a hidden
      file such as `.bashrc` has no extension). */
  function SplitExtRoot(name: string): (root: string)
    ensures |root| <= |name| && name[..|root|] == root
    ensures root != name ==> name[|root|] == '.' && '.' !in name[|root| + 1..] && !AllDots(root)
    ensures root == name ==> forall i :: 0 <= i < |name| && name[i] == '.' && '.' !in name[i + 1..] ==> AllDots(name[..i])
  {
    var i := LastIndexOf(name, '.');
    if i >= 0 && !AllDots(name[..i]) then name[..i] else name
  }

  /** `os.path.splitext(os.path.basename(path))[0]`. */
  function Stem(path: string): (stem: string)
    ensures forall i :: 0 <= i < |stem| ==> stem[i] != '/'
    ensures |stem| <= |Basename(path)| && Basename(path)[..|stem|] == stem
    ensures stem != Basename(path) ==> Basename(path)[|stem|] == '.' && '.' !in Basename(path)[|stem| + 1..]
  {
    SplitExtRoot(Basename(path))
  }

  /** Lower-casing, for ASCII letters. */
  function Lower(s: string): (t: string)
    ensures |t| == |s|
    ensures forall i :: 0 <= i < |s| ==> t[i] == if 'A' <= s[i] <= 'Z' then (s[i] as int + 32) as char else s[i]
  {
    if s == [] then []
    else [if 'A' <= s[0] <= 'Z' then (s[0] as int + 32) as char else s[0]] + Lower(s[1..])
  }

  /** The JPEG branch of `save_image` is taken when the lower-cased path ends
      with `.jpg` or `.jpeg`. */
  predicate IsJpegPath(path: string)
    ensures IsJpegPath(path) ==> |path| >= 4 && (path[|path| - 1] == 'g' || path[|path| - 1] == 'G')
  {
    EndsWith(Lower(path), ".jpg") || EndsWith(Lower(path), ".jpeg")
  }

  /** The name offered in the save dialog. */
  function DefaultSaveName(imagePath: Option<string>, backgroundRemoved: bool): (name: string)
    ensures EndsWith(name, ".png")
    ensures imagePath.None? ==> name == "processed_image.png"
    ensures imagePath.Some? && backgroundRemoved ==> name == Stem(imagePath.value) + "_no_bg.png"
    ensures imagePath.Some? && !backgroundRemoved ==> name == Stem(imagePath.value) + "_resized.png"
  {
    match imagePath
    case None => "processed_image.png"
    case Some(p) =>
      var suffix := if backgroundRemoved then "_no_bg.png" else "_resized.png";
      assert suffix[|suffix| - 4..] == ".png";
      EndsWithAppended(Stem(p), suffix, ".png");
      Stem(p) + suffix
  }

  lemma EndsWithAppended(s: string, t: string, suffix: string)
    requires EndsWith(t, suffix)
    ensures EndsWith(s + t, suffix)
  {
    assert (s + t)[|s + t| - |suffix|..] == t[|t| - |suffix|..];
  }

  /** `image.resize((width, height), ...)`: the size asked for, the same mode. */
  function Resize(img: PilImage, width: int, height: int): (r: PilImage)
    ensures r.width == width && r.height == height && r.mode == img.mode
  {
    PilImage(width, height, img.mode)
  }

  /** What Pillow is asked to write for the chosen `path`. In the JPEG branch
      an RGBA image is pasted onto white through its alpha channel, any other
      image is converted to RGB, and the quality is 95; otherwise the image is
      saved as it is. */
  function SaveAs(img: PilImage, path: string): (r: SavedImage)
    ensures r.path == path && r.image.width == img.width && r.image.height == img.height
    ensures r.jpegQuality.Some? <==> IsJpegPath(path)
    ensures r.jpegQuality.Some? ==> r.jpegQuality.value == JpegQuality && r.image.mode == "RGB"
    ensures r.matte.Some? <==> IsJpegPath(path) && img.mode == "RGBA"
    ensures r.matte.Some? ==> r.matte.value == White
    ensures !IsJpegPath(path) ==> r.image == img
  {
    if IsJpegPath(path) then
      if img.mode == "RGBA" then SavedImage(path, PilImage(img.width, img.height, "RGB"), Some(JpegQuality), Some(White))
      else SavedImage(path, PilImage(img.width, img.height, "RGB"), Some(JpegQuality), None)
    else SavedImage(path, img, None, None)
  }

  /** The file name of `dir/name`, for a `name` without separators. */
  lemma BasenameOfJoin(dir: string, name: string)
    requires forall i :: 0 <= i < |name| ==> name[i] != '/'
    ensures Basename(dir + "/" + name) == name
  {
    var path := dir + "/" + name;
    assert forall j :: |dir| < j < |path| ==> path[j] == name[j - |dir| - 1];
    LastIndexAt(path, '/', |dir|);
    assert path[|dir| + 1..] == name;
  }

  /** The stem of a path is the file name without its extension. */
  lemma StemOfPath(dir: string, base: string, ext: string)
    requires forall i :: 0 <= i < |base| ==> base[i] != '/'
    requires forall i :: 0 <= i < |ext| ==> ext[i] != '/' && ext[i] != '.'
    requires !AllDots(base)
    ensures Stem(dir + "/" + base + "." + ext) == base
  {
    var name := base + "." + ext;
    assert dir + "/" + base + "." + ext == dir + "/" + name;
    BasenameOfJoin(dir, name);
    assert forall j :: |base| < j < |name| ==> name[j] == ext[j - |base| - 1];
    LastIndexAt(name, '.', |base|);
    assert name[..|base|] == base;
  }

  /** A hidden file (a name whose only dot leads it) keeps its whole name as
      its stem. */
  lemma HiddenFileStem(dir: string, ext: string)
    requires forall i :: 0 <= i < |ext| ==> ext[i] != '/' && ext[i] != '.'
    ensures Stem(dir + "/" + "." + ext) == "." + ext
  {
    var name := "." + ext;
    assert dir + "/" + "." + ext == dir + "/" + name;
    BasenameOfJoin(dir, name);
    assert forall j :: 0 < j < |name| ==> name[j] == ext[j - 1];
    LastIndexAt(name, '.', 0);
    assert AllDots(name[..0]);
  }

  /** The default name for `dir/base.ext` is built from `base` alone. */
  lemma DefaultSaveNameOfPath(dir: string, base: string, ext: string)
    requires forall i :: 0 <= i < |base| ==> base[i] != '/'
    requires forall i :: 0 <= i < |ext| ==> ext[i] != '/' && ext[i] != '.'
    requires !AllDots(base)
    ensures DefaultSaveName(Some(dir + "/" + base + "." + ext), true) == base + "_no_bg.png"
    ensures DefaultSaveName(Some(dir + "/" + base + "." + ext), false) == base + "_resized.png"
  {
    StemOfPath(dir, base, ext);
  }

  /** The extension test ignores case: any path with `.JPG` or `.jpeg`
      appended takes the JPEG branch, and `.png` does not. */
  lemma JpegPathIgnoresCase(p: string)
    ensures IsJpegPath(p + ".JPG")
    ensures IsJpegPath(p + ".jpeg")
    ensures !IsJpegPath(p + ".png")
  {
    var a, b, c := Lower(p + ".JPG"), Lower(p + ".jpeg"), Lower(p + ".png");
    assert a[|a| - 4..] == ".jpg";
    assert b[|b| - 5..] == ".jpeg";
    assert c[|c| - 4..] == ".png";
    assert c[|c| - 1] != 'g' || c[|c| - 4..] != ".jpg";
    assert c[|c| - 2] == 'n';
  }

  /** After two resizes the size is the last one asked for and the mode is
      the original's. A `PilImage` carries no pixels, so this says nothing
      about the resampled content. */
  lemma ResizesCompose(img: PilImage, w1: int, h1: int, w2: int, h2: int)
    ensures Resize(Resize(img, w1, h1), w2, h2).width == w2
    ensures Resize(Resize(img, w1, h1), w2, h2).height == h2
    ensures Resize(Resize(img, w1, h1), w2, h2).mode == img.mode
  {
  }

  /** How far `select_image` gets with a chosen file. `Image.open` may raise.
      It reads lazily, so a damaged file may open and then raise in `copy`.
      Showing the two images may raise after both fields are set, before the
      flag is reset. */
  datatype LoadProgress =
    | OpenRaised
    | CopyRaised(original: PilImage)
    | DisplayRaised(original: PilImage)
    | Loaded(original: PilImage)

  /** The options Tk's save dialog (`tk_getSaveFile`) accepts. Any other
      option makes the call raise `TclError: bad option`. */
  const SaveDialogOptions: set<string> := {
    "-confirmoverwrite", "-defaultextension", "-filetypes", "-initialdir",
    "-initialfile", "-parent", "-title", "-typevariable"
  }

  /** The option `save_image` passes the default name under. */
  const AsWrittenNameOption: string := "-initialname"

  /** The option Tk provides for a default file name. */
  const InitialFileOption: string := "-initialfile"

  /** The outcome of `save_image`. */
  datatype SaveResult =
    | NothingToSave
    | DialogRaised(badOption: string)
    | Cancelled(offered: string)
    | Written(offered: string, file: SavedImage)

  /** `save_image` with the default name passed under `nameOption`; its
      other options (`-title`, `-defaultextension`, `-filetypes`) are known to
      Tk. Nothing happens without an image. The dialog call sits outside the
      `try`, so an option Tk does not know raises out of the handler before any
      dialog opens. Otherwise the dialog offers the default name, and
      `chosenPath` (empty when cancelled) receives the processed image. */
  function SaveOutcome(processed: Option<PilImage>, imagePath: Option<string>, removed: bool,
                       nameOption: string, chosenPath: string): (r: SaveResult)
    ensures r.NothingToSave? <==> processed.None?
    ensures r.DialogRaised? <==> processed.Some? && nameOption !in SaveDialogOptions
    ensures r.DialogRaised? ==> r.badOption == nameOption
    ensures r.Written? <==> processed.Some? && nameOption in SaveDialogOptions && chosenPath != ""
    ensures r.Cancelled? || r.Written? ==> r.offered == DefaultSaveName(imagePath, removed)
    ensures r.Written? ==> r.file == SaveAs(processed.value, chosenPath)
  {
    if processed.None? then NothingToSave
    else if nameOption !in SaveDialogOptions then DialogRaised(nameOption)
    else if chosenPath == "" then Cancelled(DefaultSaveName(imagePath, removed))
    else Written(DefaultSaveName(imagePath, removed), SaveAs(processed.value, chosenPath))
  }

  /** As written, `save_image` never saves: with an image, Tk rejects
      `-initialname` before the dialog opens. */
  lemma AsWrittenNeverSaves(processed: Option<PilImage>, imagePath: Option<string>, removed: bool, chosenPath: string)
    ensures !SaveOutcome(processed, imagePath, removed, AsWrittenNameOption, chosenPath).Written?
    ensures processed.Some? ==>
      SaveOutcome(processed, imagePath, removed, AsWrittenNameOption, chosenPath) == DialogRaised("-initialname")
  {
    assert AsWrittenNameOption !in SaveDialogOptions;
  }

  /** With `-initialfile` the dialog offers the default name, and a chosen
      path receives the processed image, through the JPEG branch exactly for
      `.jpg` and `.jpeg` paths. */
  lemma InitialFileSaves(img: PilImage, imagePath: Option<string>, removed: bool, chosenPath: string)
    ensures chosenPath != "" ==>
      SaveOutcome(Some(img), imagePath, removed, InitialFileOption, chosenPath)
        == Written(DefaultSaveName(imagePath, removed), SaveAs(img, chosenPath))
    ensures chosenPath == "" ==>
      SaveOutcome(Some(img), imagePath, removed, InitialFileOption, chosenPath)
        == Cancelled(DefaultSaveName(imagePath, removed))
    ensures chosenPath != "" ==>
      (SaveOutcome(Some(img), imagePath, removed, InitialFileOption, chosenPath).file.jpegQuality.Some? <==> IsJpegPath(chosenPath))
  {
    assert InitialFileOption in SaveDialogOptions;
  }

  /** The fields `ImageResizerApp` updates. */
  class ImageResizerApp {
    var originalImage: Option<PilImage>
    var processedImage: Option<PilImage>
    var imagePath: Option<string>
    var backgroundRemoved: bool

    constructor ()
      ensures originalImage == None && processedImage == None && imagePath == None && !backgroundRemoved
    {
      originalImage := None;
      processedImage := None;
      imagePath := None;
      backgroundRemoved := false;
    }

    /** `select_image`: `filePath` is the dialog's answer (empty when
        cancelled) and `progress` how far loading it got. Each field is
        assigned in turn until something raises: the path before the image is
        opened, then the original, then the processed copy, then the flag. */
    method SelectImage(filePath: string, progress: LoadProgress) returns (loaded: bool)
      modifies this
      ensures loaded <==> filePath != "" && progress.Loaded?
      ensures imagePath == if filePath != "" then Some(filePath) else old(imagePath)
      ensures filePath == "" || progress.OpenRaised? ==>
        originalImage == old(originalImage) && processedImage == old(processedImage) && backgroundRemoved == old(backgroundRemoved)
      ensures filePath != "" && !progress.OpenRaised? ==> originalImage == Some(progress.original)
      ensures filePath != "" && progress.CopyRaised? ==>
        processedImage == old(processedImage) && backgroundRemoved == old(backgroundRemoved)
      ensures filePath != "" && progress.DisplayRaised? ==>
        processedImage == Some(progress.original) && backgroundRemoved == old(backgroundRemoved)
      ensures loaded ==> processedImage == Some(progress.original) && !backgroundRemoved
    {
      loaded := false;
      if filePath == "" {
        return;
      }
      imagePath := Some(filePath);
      if progress.OpenRaised? {
        return;
      }
      originalImage := Some(progress.original);
      if progress.CopyRaised? {
        return;
      }
      processedImage := Some(progress.original);
      if progress.DisplayRaised? {
        return;
      }
      backgroundRemoved := false;
      loaded := true;
    }

    /** `resize_image`: `width` and `height` are what `int()` made of the two
        fields (`None` when it raised `ValueError`). Only a resize to a
        positive size replaces the processed image. */
    method ResizeImage(width: Option<int>, height: Option<int>) returns (outcome: ResizeOutcome)
      modifies this
      ensures outcome == NoImage <==> old(processedImage).None?
      ensures outcome == InvalidNumber <==> old(processedImage).Some? && (width.None? || height.None?)
      ensures outcome == NotPositive <==>
        old(processedImage).Some? && width.Some? && height.Some? && (width.value <= 0 || height.value <= 0)
      ensures outcome == Resized ==> processedImage == Some(Resize(old(processedImage).value, width.value, height.value))
      ensures outcome != Resized ==> processedImage == old(processedImage)
      ensures originalImage == old(originalImage) && imagePath == old(imagePath) && backgroundRemoved == old(backgroundRemoved)
    {
      if processedImage.None? {
        return NoImage;
      }
      if width.None? || height.None? {
        return InvalidNumber;
      }
      if width.value <= 0 || height.value <= 0 {
        return NotPositive;
      }
      processedImage := Some(Resize(processedImage.value, width.value, height.value));
      outcome := Resized;
    }

    /** `remove_background`, run to completion: `removed` is what rembg
        returned for the RGBA conversion (`None` when it raised). */
    method RemoveBackground(removed: Option<PilImage>)
      modifies this
      ensures old(processedImage).Some? && removed.Some? ==> processedImage == removed && backgroundRemoved
      ensures old(processedImage).None? || removed.None? ==>
        processedImage == old(processedImage) && backgroundRemoved == old(backgroundRemoved)
      ensures originalImage == old(originalImage) && imagePath == old(imagePath)
    {
      if processedImage.Some? && removed.Some? {
        processedImage := removed;
        backgroundRemoved := true;
      }
    }

    /** `save_image` as written, which passes the default name as
        `initialname`. */
    method SaveImage(chosenPath: string) returns (result: SaveResult)
      ensures result == SaveOutcome(processedImage, imagePath, backgroundRemoved, AsWrittenNameOption, chosenPath)
      ensures !result.Written?
    {
      result := SaveOutcome(processedImage, imagePath, backgroundRemoved, AsWrittenNameOption, chosenPath);
      AsWrittenNeverSaves(processedImage, imagePath, backgroundRemoved, chosenPath);
    }

    /** `save_image` with the default name passed as `initialfile`, the option
        Tk provides for it. */
    method SaveImageWithInitialFile(chosenPath: string) returns (result: SaveResult)
      ensures result == SaveOutcome(processedImage, imagePath, backgroundRemoved, InitialFileOption, chosenPath)
      ensures result.Written? <==> processedImage.Some? && chosenPath != ""
    {
      result := SaveOutcome(processedImage, imagePath, backgroundRemoved, InitialFileOption, chosenPath);
    }
  }
}
