/**
 * The validation and defaulting rules of the player's dynamic overrides:
 * which transform `setImage` keeps, and how `setText` normalises a bare string
 * or a style record before storing it.
 */
module Overrides {
  import opened Optional

  /** What a caller may pass as `setImage`'s transform: an array (of numbers) or any other value. */
  datatype TransformArg = ArrayValue(items: seq<real>) | NonArrayValue

  /** The transform `setImage` stores: only an array of exactly six components. */
  function AcceptedTransform(transform: Option<TransformArg>): (kept: Option<seq<real>>)
    ensures kept.Some? <==> transform.Some? && transform.value.ArrayValue? && |transform.value.items| == 6
    ensures kept.Some? ==> kept.value == transform.value.items
  {
    match transform
    case Some(ArrayValue(items)) => if |items| == 6 then Some(items) else None
    case _ => None
  }

  datatype Offset = Offset(x: real, y: real)

  /** A style record's fields; `None` is an absent (or `null`) property. */
  datatype TextStyle = TextStyle(
    text: Option<string>,
    size: Option<string>,
    family: Option<string>,
    color: Option<string>,
    offset: Option<Offset>)

  /** `setText`'s first argument: a string or a style record. */
  datatype TextArg = PlainText(s: string) | StyledText(style: TextStyle)

  /** A normalised text override, as stored under its layer key. */
  datatype TextRecord = TextRecord(text: Option<string>, size: string, family: string, color: string, offset: Offset)

  const DefaultSize: string := "14px"
  const DefaultFamily: string := ""
  const DefaultColor: string := "#000000"
  const DefaultOffset: Offset := Offset(0.0, 0.0)

  /** `value || fallback` for a string property: absent and empty strings are falsy. */
  function OrDefault(value: Option<string>, fallback: string): string {
    if value.Some? && value.value != "" then value.value else fallback
  }

  /** Every falsy field was replaced by its default. */
  predicate Normalized(r: TextRecord) {
    r.size != "" && r.color != ""
  }

  function NormalizeText(arg: TextArg): (r: TextRecord)
    ensures Normalized(r)
    ensures arg.PlainText? ==> r == TextRecord(Some(arg.s), DefaultSize, DefaultFamily, DefaultColor, DefaultOffset)
  {
    match arg
    case PlainText(s) => TextRecord(Some(s), DefaultSize, DefaultFamily, DefaultColor, DefaultOffset)
    case StyledText(style) =>
      TextRecord(
        style.text,
        OrDefault(style.size, DefaultSize),
        OrDefault(style.family, DefaultFamily),
        OrDefault(style.color, DefaultColor),
        if style.offset.Some? then style.offset.value else DefaultOffset)
  }

  /** The style record that spells out every field of `r`. */
  function AsStyle(r: TextRecord): TextStyle {
    TextStyle(r.text, Some(r.size), Some(r.family), Some(r.color), Some(r.offset))
  }

  /**
   * The defaulting table of `setText`, field by field: a style record keeps each
   * non-empty field it gives and takes the default for each absent or empty one;
   * the text itself is never defaulted.
   */
  lemma StyledFields(style: TextStyle)
    ensures var r := NormalizeText(StyledText(style));
      r.text == style.text &&
      (r.size == if style.size.Some? && style.size.value != "" then style.size.value else DefaultSize) &&
      (r.family == if style.family.Some? && style.family.value != "" then style.family.value else DefaultFamily) &&
      (r.color == if style.color.Some? && style.color.value != "" then style.color.value else DefaultColor) &&
      (r.offset == if style.offset.Some? then style.offset.value else DefaultOffset)
  {
  }

  /** A normalised record, passed back as a style record, normalises to itself. */
  lemma NormalizeIsFixedPoint(arg: TextArg)
    ensures NormalizeText(StyledText(AsStyle(NormalizeText(arg)))) == NormalizeText(arg)
  {
  }

  /** A bare string behaves as a style record that gives only the text. */
  lemma PlainIsTextOnlyStyle(s: string)
    ensures NormalizeText(PlainText(s)) == NormalizeText(StyledText(TextStyle(Some(s), None, None, None, None)))
  {
  }
}
