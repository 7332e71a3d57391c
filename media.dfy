/** Values shared by the wizard's components: optional values, pixel sizes and
    images. Images are opaque here; they carry only what the logic reads. */
module Media {

  /** `null` in the source is `None`. */
  datatype Option<+T> = None | Some(value: T)

  /** A `{ width, height }` record, in pixels. */
  datatype Dimensions = Dimensions(width: int, height: int)

  /** A decoded HTML image element. Browsers report `naturalWidth` and
      `naturalHeight` as 0 until the image has been decoded. */
  datatype ImageElement = ImageElement(naturalWidth: int, naturalHeight: int, width: int, height: int)

  /** The result of `canvas.toDataURL`: an encoding whose bytes are not
      modelled, tagged with the MIME type asked for and the canvas size. */
  datatype DataUrl = DataUrl(mime: string, width: int, height: int)

  /** `naturalWidth || width` and `naturalHeight || height`: JavaScript's `||`
      falls back to the right operand when the left one is 0. */
  function NaturalDimensions(img: ImageElement): (d: Dimensions)
    ensures img.naturalWidth != 0 ==> d.width == img.naturalWidth
    ensures img.naturalWidth == 0 ==> d.width == img.width
    ensures img.naturalHeight != 0 ==> d.height == img.naturalHeight
    ensures img.naturalHeight == 0 ==> d.height == img.height
  {
    Dimensions(if img.naturalWidth != 0 then img.naturalWidth else img.width,
               if img.naturalHeight != 0 then img.naturalHeight else img.height)
  }
}
