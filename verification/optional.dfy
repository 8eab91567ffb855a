/**
 * A cell that may be empty, an options field that may be absent, or a
 * parse that may fail: one wrapper for all three.
 */
module Optional {

  /** `None` stands for JavaScript's `null` or a missing property. */
  datatype Option<T> = None | Some(value: T) {

    /** The held value if there is one, else `fallback` (how `$.extend` fills a missing option). */
    function Or(fallback: T): T {
      if Some? then value else fallback
    }
  }
}
