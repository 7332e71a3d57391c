/** The save step: which image is exported, the format switch, file names, the
    ordered all-formats emission and the file-size estimate. Encodings are
    opaque; a download is described by its name, its encoding request and
    the canvas size it is drawn at. */
module SaveOptions {
  import opened Media
  import opened JsArray
  import opened Rounding
  import opened ImageContext
  import opened Text

  datatype FormatOption = FormatOption(id: string, caption: string, extension: string)

  const FormatOptions: seq<FormatOption> := [
    FormatOption("png", "PNG", ".png"),
    FormatOption("jpg", "JPEG", ".jpg"),
    FormatOption("webp", "WebP", ".webp"),
    FormatOption("gif", "GIF", ".gif")
  ]

  /** The component's choices. */
  datatype Settings = Settings(format: string, quality: int, fileName: string)

  const Defaults: Settings := Settings("png", 90, "processed-image")

  /** The range of the quality slider. */
  const QualityMin: int := 10
  const QualityMax: int := 100

  /** The slider's `onChange`, `setQuality(parseInt(e.target.value))`: the
      browser keeps a range input's value between its `min` and `max` and
      reports it as decimal text, which `parseInt` reads back. */
  function SliderQuality(position: int): (q: Option<int>)
    ensures q.Some? && QualityMin <= q.value <= QualityMax
    ensures QualityMin <= position <= QualityMax ==> q == Some(position)
    ensures position < QualityMin ==> q == Some(QualityMin)
    ensures position > QualityMax ==> q == Some(QualityMax)
  {
    var kept := if position < QualityMin then QualityMin else if position > QualityMax then QualityMax else position;
    ParseDecimal(kept);
    ParseInt(Decimal(kept))
  }

  /** The quality slider is rendered unless the format is png or gif. */
  predicate ShowsQualityControl(format: string)
    ensures !ShowsQualityControl(format) <==> format in {"png", "gif"}
    ensures SingleEncoding(format, QualityMax).qualityPercent.Some? ==> ShowsQualityControl(format)
  {
    format != "png" && format != "gif"
  }

  datatype ExportSource = Processed(url: DataUrl) | Edited(url: DataUrl) | Original(element: ImageElement)

  /** `processedImage || editedImage || originalImage`. */
  function ImageToSave(s: State): (r: Option<ExportSource>)
    ensures r.None? <==> s.processedImage.None? && s.editedImage.None? && s.originalImage.None?
    ensures r.Some? && r.value.Edited? ==> s.processedImage.None? && s.editedImage == Some(r.value.url)
    ensures r.Some? && r.value.Original? ==> s.processedImage.None? && s.editedImage.None? && s.originalImage == Some(r.value.element)
    ensures r.Some? && r.value.Processed? ==> s.processedImage == Some(r.value.url)
  {
    if s.processedImage.Some? then Some(Processed(s.processedImage.value))
    else if s.editedImage.Some? then Some(Edited(s.editedImage.value))
    else if s.originalImage.Some? then Some(Original(s.originalImage.value))
    else None
  }

  /** With the background step skipped, the edited image is exported rather
      than the original. */
  lemma SkippedBackgroundExportsEdited(s: State)
    requires s.processedImage.None? && s.editedImage.Some?
    ensures ImageToSave(s) == Some(Edited(s.editedImage.value))
  {
  }

  /** The request passed to `toDataURL`: a MIME type and, for lossy formats,
      `quality / 100`, kept here as the percentage. */
  datatype Encoding = Encoding(mime: string, qualityPercent: Option<int>)

  /** The format switch of `downloadImage`. */
  function SingleEncoding(format: string, quality: int): (e: Encoding)
    ensures e.qualityPercent.Some? <==> format == "jpg" || format == "webp"
    ensures e.qualityPercent.Some? ==> e.qualityPercent.value == quality
    ensures format !in {"jpg", "webp", "gif"} ==> e.mime == "image/png"
  {
    match format
    case "png" => Encoding("image/png", None)
    case "jpg" => Encoding("image/jpeg", Some(quality))
    case "webp" => Encoding("image/webp", Some(quality))
    case "gif" => Encoding("image/gif", None)
    case _ => Encoding("image/png", None)
  }

  /** The format switch of `downloadAllFormats`: the same, except that its gif
      case asks for `image/gpif`. */
  function AllFormatsEncoding(format: string, quality: int): (e: Encoding)
    ensures e.qualityPercent == SingleEncoding(format, quality).qualityPercent
    ensures format != "gif" ==> e == SingleEncoding(format, quality)
    ensures format == "gif" ==> e.mime == "image/gpif"
  {
    if format == "gif" then Encoding("image/gpif", None) else SingleEncoding(format, quality)
  }

  /** The MIME type of each listed format, and the two paths disagree on gif only. */
  lemma EncodingTable(format: string, quality: int)
    ensures SingleEncoding("png", quality).mime == "image/png"
    ensures SingleEncoding("jpg", quality).mime == "image/jpeg"
    ensures SingleEncoding("webp", quality).mime == "image/webp"
    ensures SingleEncoding("gif", quality).mime == "image/gif"
    ensures AllFormatsEncoding(format, quality) != SingleEncoding(format, quality) <==> format == "gif"
  {
  }

  /** For the four listed formats, the slider is shown exactly when the chosen
      format passes the quality on. */
  lemma QualityControlMatchesEncoding(i: nat, quality: int)
    requires i < |FormatOptions|
    ensures ShowsQualityControl(FormatOptions[i].id) <==> SingleEncoding(FormatOptions[i].id, quality).qualityPercent.Some?
  {
  }

  /** `formatOptions.find(f => f.id === format).extension`; `None` where the
      lookup finds nothing and reading `.extension` would throw. */
  function Extension(format: string): (ext: Option<string>)
    ensures ext.Some? <==> exists k :: 0 <= k < |FormatOptions| && FormatOptions[k].id == format
    ensures ext.Some? ==> ext.value == "." + format
  {
    match Find(FormatOptions, (f: FormatOption) => f.id == format)
    case Some(f) => Some(f.extension)
    case None => None
  }

  /** One file handed to the browser: its name, the encoding request and the
      size of the canvas it was drawn on. */
  datatype Download = Download(fileName: string, encoding: Encoding, width: int, height: int)

  /** `downloadImage`: no download without an image to save or when the format
      has no table entry; otherwise `fileName + extension`, drawn at the
      target dimensions whatever the size of the source. An original-only
      source is the image element itself, not a URL: assigned to `img.src` it
      becomes the text of the element, which does not load, so `onload` never
      runs and nothing is downloaded. */
  function DownloadImage(s: State, settings: Settings): (r: Option<Download>)
    ensures r.Some? <==>
      ImageToSave(s).Some? && !ImageToSave(s).value.Original? && Extension(settings.format).Some?
    ensures r.Some? ==>
      && r.value.fileName == settings.fileName + Extension(settings.format).value
      && r.value.encoding == SingleEncoding(settings.format, settings.quality)
      && r.value.width == s.targetDimensions.width && r.value.height == s.targetDimensions.height
  {
    match ImageToSave(s)
    case None => None
    case Some(Original(_)) => None
    case Some(_) =>
      match Extension(settings.format)
      case Some(ext) =>
        Some(Download(settings.fileName + ext, SingleEncoding(settings.format, settings.quality),
                      s.targetDimensions.width, s.targetDimensions.height))
      case None => None
  }

  /** Whether `isProcessing` stays set after `downloadImage`: it is set once
      there is an image, and cleared only at the end of `onload`, which never
      runs for an original-only source and throws before the end when the
      format has no extension. */
  function ProcessingLeftOn(s: State, settings: Settings): (stuck: bool)
    ensures stuck <==> ImageToSave(s).Some? && DownloadImage(s, settings).None?
  {
    match ImageToSave(s)
    case None => false
    case Some(source) => source.Original? || Extension(settings.format).None?
  }

  /** With only the uploaded original in the session, the save step downloads
      nothing and its buttons stay disabled. */
  lemma OriginalOnlyNeverDownloads(s: State, settings: Settings)
    requires s.processedImage.None? && s.editedImage.None? && s.originalImage.Some?
    ensures DownloadImage(s, settings).None? && ProcessingLeftOn(s, settings)
  {
    assert ImageToSave(s) == Some(Original(s.originalImage.value));
  }

  /** The defaults save `processed-image.png` as lossless PNG. */
  lemma DefaultDownload(s: State)
    requires ImageToSave(s).Some? && !ImageToSave(s).value.Original?
    ensures DownloadImage(s, Defaults) ==
      Some(Download("processed-image.png", Encoding("image/png", None), s.targetDimensions.width, s.targetDimensions.height))
  {
    var p := (f: FormatOption) => f.id == "png";
    assert p(FormatOptions[0]);
    var r := Find(FormatOptions, p);
    assert r.value in FormatOptions && r.value.id == "png";
    assert Extension("png") == Some(".png");
    assert Defaults.fileName + ".png" == "processed-image.png";
    assert SingleEncoding(Defaults.format, Defaults.quality) == Encoding("image/png", None);
  }

  /** One `setTimeout` of `downloadAllFormats`: its delay, its download, and
      whether it is the one that clears `isProcessing`. */
  datatype Emission = Emission(delay: int, download: Download, clearsProcessing: bool)

  /** The emission for entry `index` of the format table. */
  function EmissionAt(s: State, settings: Settings, index: nat): (e: Emission)
    requires index < |FormatOptions|
    ensures Extension(FormatOptions[index].id).Some?
    ensures e.download.fileName == settings.fileName + "-" + FormatOptions[index].id + Extension(FormatOptions[index].id).value
    ensures e.download.encoding == AllFormatsEncoding(FormatOptions[index].id, settings.quality)
    ensures e.clearsProcessing <==> index == |FormatOptions| - 1
  {
    var f := FormatOptions[index];
    Emission(index * 500,
             Download(settings.fileName + "-" + f.id + f.extension, AllFormatsEncoding(f.id, settings.quality),
                      s.targetDimensions.width, s.targetDimensions.height),
             index == |FormatOptions| - 1)
  }

  /** `downloadAllFormats`: nothing without an image or for an original-only
      source (whose `onload` never runs, as in `DownloadImage`); otherwise one
      emission per table entry, in table order. `stuck` tells whether
      `isProcessing` is left set, which happens exactly when it was set and no
      emission clears it. */
  method DownloadAllFormats(s: State, settings: Settings) returns (emitted: seq<Emission>, stuck: bool)
    ensures ImageToSave(s).None? || ImageToSave(s).value.Original? ==> emitted == []
    ensures ImageToSave(s).Some? && !ImageToSave(s).value.Original? ==> |emitted| == |FormatOptions|
    ensures forall i :: 0 <= i < |emitted| ==> emitted[i] == EmissionAt(s, settings, i)
    ensures stuck <==> ImageToSave(s).Some? && forall i :: 0 <= i < |emitted| ==> !emitted[i].clearsProcessing
  {
    emitted := [];
    if ImageToSave(s).None? {
      return [], false;
    }
    if ImageToSave(s).value.Original? {
      return [], true;
    }
    var index := 0;
    while index < |FormatOptions|
      invariant 0 <= index <= |FormatOptions| && |emitted| == index
      invariant forall i :: 0 <= i < index ==> emitted[i] == EmissionAt(s, settings, i)
    {
      var f := FormatOptions[index];
      var download := Download(settings.fileName + "-" + f.id + f.extension, AllFormatsEncoding(f.id, settings.quality),
                               s.targetDimensions.width, s.targetDimensions.height);
      emitted := emitted + [Emission(index * 500, download, index == |FormatOptions| - 1)];
      index := index + 1;
    }
    assert emitted[|FormatOptions| - 1].clearsProcessing;
    stuck := false;
  }

  /** The four files come as png, jpg, webp, gif, 500 ms apart, named
      `fileName-id.ext`; only the last clears `isProcessing`, and the gif one is
      tagged `image/gpif`. */
  lemma AllFormatsPlan(s: State, settings: Settings)
    ensures EmissionAt(s, settings, 0).download.fileName == settings.fileName + "-png.png"
    ensures EmissionAt(s, settings, 1).download.fileName == settings.fileName + "-jpg.jpg"
    ensures EmissionAt(s, settings, 2).download.fileName == settings.fileName + "-webp.webp"
    ensures EmissionAt(s, settings, 3).download.fileName == settings.fileName + "-gif.gif"
    ensures EmissionAt(s, settings, 3).download.encoding.mime == "image/gpif"
    ensures forall i, j :: 0 <= i < j < |FormatOptions| ==> EmissionAt(s, settings, i).delay < EmissionAt(s, settings, j).delay
    ensures forall i :: 0 <= i < |FormatOptions| ==> (EmissionAt(s, settings, i).clearsProcessing <==> i == 3)
  {
    var name := settings.fileName;
    assert name + "-" + "png" + ".png" == name + "-png.png";
    assert name + "-" + "jpg" + ".jpg" == name + "-jpg.jpg";
    assert name + "-" + "webp" + ".webp" == name + "-webp.webp";
    assert name + "-" + "gif" + ".gif" == name + "-gif.gif";
  }

  /** Bytes per pixel of the estimate: 3 for jpg, 1 for gif, 4 otherwise. */
  function BytesPerPixel(format: string): (n: nat)
    ensures 1 <= n <= 4
    ensures n == 4 <==> format !in {"jpg", "gif"}
  {
    if format == "jpg" then 3 else if format == "gif" then 1 else 4
  }

  /** 100 times the estimate `pixels * bytesPerPixel * quality / 100`, an
      integer, so the estimate is computed without rounding. */
  function ScaledEstimate(s: State, settings: Settings): (scaled: int)
    ensures var w, h := s.targetDimensions.width, s.targetDimensions.height;
      w >= 0 && h >= 0 && settings.quality >= 0 ==> 0 <= scaled <= w * h * 4 * settings.quality
  {
    s.targetDimensions.width * s.targetDimensions.height * BytesPerPixel(settings.format) * settings.quality
  }

  const MiB: int := 1024 * 1024

  /** The label `getFileSizeEstimate` returns. Megabytes are shown with
      `toFixed(1)`, which is not modelled: that case keeps the scaled count. */
  datatype SizeEstimate = UnknownSize | Kilobytes(kb: int) | Megabytes(scaledBytes: int)

  /** `getFileSizeEstimate`: 'Unknown' without an image; below one MiB, the
      estimate in KiB rounded half up; otherwise megabytes. */
  function FileSizeEstimate(s: State, settings: Settings): (r: SizeEstimate)
    ensures r.UnknownSize? <==> ImageToSave(s).None?
    ensures r.Kilobytes? ==>
      && ScaledEstimate(s, settings) < 100 * MiB
      && 102400 * (2 * r.kb - 1) <= 2 * ScaledEstimate(s, settings) < 102400 * (2 * r.kb + 1)
    ensures r.Megabytes? ==> r.scaledBytes == ScaledEstimate(s, settings) >= 100 * MiB
  {
    if ImageToSave(s).None? then UnknownSize
    else
      var scaled := ScaledEstimate(s, settings);
      if scaled < 100 * MiB then Kilobytes(RoundDiv(scaled, 100 * 1024)) else Megabytes(scaled)
  }

  /** The quality scales the estimate for every format, png and gif included,
      although the slider is hidden for those two. */
  lemma QualityScalesEveryFormat(s: State, settings: Settings, q: int)
    requires s.targetDimensions.width > 0 && s.targetDimensions.height > 0
    requires settings.quality < q
    ensures ScaledEstimate(s, settings) < ScaledEstimate(s, settings.(quality := q))
  {
    var w, h, bpp := s.targetDimensions.width, s.targetDimensions.height, BytesPerPixel(settings.format);
    var perQuality := w * h * bpp;
    assert perQuality > 0 by {
      assert w * h > 0;
    }
    assert perQuality * q - perQuality * settings.quality == perQuality * (q - settings.quality);
  }

  /** A 400x300 png at the default quality is estimated at 422 KB (421.875
      rounded); 1000x1000 is past one MiB. */
  lemma EstimateExamples(s: State)
    requires ImageToSave(s).Some?
    ensures s.targetDimensions == Dimensions(400, 300) ==> FileSizeEstimate(s, Defaults) == Kilobytes(422)
    ensures s.targetDimensions == Dimensions(1000, 1000) ==> FileSizeEstimate(s, Defaults).Megabytes?
  {
    RoundDivUnique(400 * 300 * 4 * 90, 100 * 1024, 422);
  }
}
