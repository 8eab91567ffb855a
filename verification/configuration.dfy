/**
 * The engine's settings: the plugin defaults and the caller's options
 * merged over them the way `$.extend({}, defaults, options)` does.
 */
module Configuration {
  import opened Optional

  /** A cell's edge in CSS pixels (the canvas `font-size`, so `1em` is one cell). */
  type PixelSize = n: int | n > 0 witness 1

  datatype Settings = Settings(
    pixelSize: PixelSize,
    canvasWidth: int,
    canvasHeight: int,
    canvasBackground: string,
    canvasBorderColor: string,
    canvasBorderWidth: int,
    canvasBorderStyle: string)

  /** The plugin's `defaults` object. */
  const Defaults: Settings := Settings(10, 50, 50, "#fff", "#000", 1, "solid")

  /** A caller's options object: each field present or absent. */
  datatype Options = Options(
    pixelSize: Option<PixelSize>,
    canvasWidth: Option<int>,
    canvasHeight: Option<int>,
    canvasBackground: Option<string>,
    canvasBorderColor: Option<string>,
    canvasBorderWidth: Option<int>,
    canvasBorderStyle: Option<string>)

  const NoOptions: Options := Options(None, None, None, None, None, None, None)

  /** An options object that names every field, with the values of `s`. */
  function Full(s: Settings): Options {
    Options(Some(s.pixelSize), Some(s.canvasWidth), Some(s.canvasHeight), Some(s.canvasBackground),
            Some(s.canvasBorderColor), Some(s.canvasBorderWidth), Some(s.canvasBorderStyle))
  }

  /** `$.extend({}, defaults, options)`: a field the caller gives wins, any other keeps its default. */
  function Merge(o: Options): (s: Settings)
    ensures o.pixelSize.Some? ==> s.pixelSize == o.pixelSize.value
    ensures o.pixelSize.None? ==> s.pixelSize == Defaults.pixelSize
    ensures o.canvasWidth.Some? ==> s.canvasWidth == o.canvasWidth.value
    ensures o.canvasWidth.None? ==> s.canvasWidth == Defaults.canvasWidth
    ensures o.canvasHeight.Some? ==> s.canvasHeight == o.canvasHeight.value
    ensures o.canvasHeight.None? ==> s.canvasHeight == Defaults.canvasHeight
    ensures o.canvasBackground.Some? ==> s.canvasBackground == o.canvasBackground.value
    ensures o.canvasBackground.None? ==> s.canvasBackground == Defaults.canvasBackground
    ensures o.canvasBorderColor.Some? ==> s.canvasBorderColor == o.canvasBorderColor.value
    ensures o.canvasBorderColor.None? ==> s.canvasBorderColor == Defaults.canvasBorderColor
    ensures o.canvasBorderWidth.Some? ==> s.canvasBorderWidth == o.canvasBorderWidth.value
    ensures o.canvasBorderWidth.None? ==> s.canvasBorderWidth == Defaults.canvasBorderWidth
    ensures o.canvasBorderStyle.Some? ==> s.canvasBorderStyle == o.canvasBorderStyle.value
    ensures o.canvasBorderStyle.None? ==> s.canvasBorderStyle == Defaults.canvasBorderStyle
  {
    Settings(
      o.pixelSize.Or(Defaults.pixelSize),
      o.canvasWidth.Or(Defaults.canvasWidth),
      o.canvasHeight.Or(Defaults.canvasHeight),
      o.canvasBackground.Or(Defaults.canvasBackground),
      o.canvasBorderColor.Or(Defaults.canvasBorderColor),
      o.canvasBorderWidth.Or(Defaults.canvasBorderWidth),
      o.canvasBorderStyle.Or(Defaults.canvasBorderStyle))
  }

  /**
   * Whole records: no options give the defaults, options naming every field
   * give exactly those values, and options naming one field give the
   * defaults with that one field replaced.
   */
  lemma MergeSpec(s: Settings, ps: PixelSize, w: int)
    ensures Merge(NoOptions) == Defaults
    ensures Merge(Full(s)) == s
    ensures Merge(NoOptions.(pixelSize := Some(ps))) == Defaults.(pixelSize := ps)
    ensures Merge(NoOptions.(canvasWidth := Some(w))) == Defaults.(canvasWidth := w)
  {
  }
}
