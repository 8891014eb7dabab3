/** The parts of the browser the editor leans on but does not implement:
    number parsing, JSON, and turning a number back into input-box text.
    They are modelled as functions handed to the editor, so every property
    that depends on how they behave states that dependence as a premise. */
module Platform {

  /** A value that may be absent: `None` stands for JavaScript's NaN,
      `null` or a missing entry. */
  datatype Option<+T> = None | Some(value: T)

  /** What `JSON.parse` makes of the stored artwork text, as far as the
      load handler looks at it: an array (whose elements are read as the
      color strings they are assigned as), some other JSON value, or text
      that is not JSON at all (the parse throws). */
  datatype Json = JsonArray(items: seq<string>) | JsonNotArray | JsonSyntaxError

  /** The host functions the editor calls. */
  datatype Host = Host(
    /** `parseInt` on a text: `None` when the result is NaN; the `Infinity`
        it gives for a very long digit string is not modelled. */
    parseInt: string -> Option<int>,
    /** `JSON.parse` on a text. */
    parseJson: string -> Json,
    /** `JSON.stringify` on an array of strings. */
    stringify: seq<string> -> string,
    /** The text an input box shows after a number is assigned to its value. */
    numberText: int -> string)

  /** `JSON.stringify` followed by `JSON.parse` gives the same array back,
      and the stored text is never empty (an array encodes as at least `[]`). */
  predicate JsonRoundTrips(h: Host, xs: seq<string>)
  {
    h.stringify(xs) != "" && h.parseJson(h.stringify(xs)) == JsonArray(xs)
  }

  /** A text the size box may hold, read back by `parseInt` as `n`. */
  predicate ParsesTo(h: Host, text: string, n: int)
  {
    text != "" && h.parseInt(text) == Some(n)
  }
}
