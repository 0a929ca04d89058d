/**
 * Converters from a decoded header value (src/utils/mailparser.ts) to a string,
 * to a list of strings, and to the source of a date. Each is a chain of type tests
 * in a fixed order: string, array, object with `text`, object with `value`, Date.
 */
module MailParser {
  import opened Outcomes
  import Text

  /**
   * A decoded header value. `Record` is a plain object: an address object carries
   * `text`, a structured header carries `value` (either may be missing). `Instant` is
   * a Date: its time value and the text its `toISOString()` yields.
   */
  datatype HeaderValue =
    | Str(s: string)
    | List(items: seq<string>)
    | Record(text: Option<string>, value: Option<string>)
    | Instant(time: int, iso: string)

  /** The message of the Error thrown on a value of no known shape. */
  const IncompatibleType: string := "Incompatible type"

  /** Holds of the one shape every converter rejects: an object with neither `text` nor `value`. */
  predicate Unknown(h: HeaderValue)
  {
    h.Record? && h.text.None? && h.value.None?
  }

  /** `parseHeaderValueToString`. */
  function ToString(h: HeaderValue): (r: Result<string>)
    ensures r.Err? <==> Unknown(h)
    ensures r.Err? ==> r.message == IncompatibleType
  {
    match h
    case Str(s) => Ok(s)
    case List(items) => Ok(Text.Join(items, ", "))
    case Record(text, value) =>
      if text.Some? then Ok(text.value)
      else if value.Some? then Ok(value.value)
      else Err(IncompatibleType)
    case Instant(_, iso) => Ok(iso)
  }

  /** `parseHeaderValueToArray`. */
  function ToArray(h: HeaderValue): (r: Result<seq<string>>)
    ensures r.Err? <==> Unknown(h)
    ensures r.Err? ==> r.message == IncompatibleType
    ensures r.Ok? ==> (r.value == [] <==> h == List([]))
  {
    match h
    case Str(s) => Ok([s])
    case List(items) => Ok(items)
    case Record(text, value) =>
      if text.Some? then Ok([text.value])
      else if value.Some? then Ok([value.value])
      else Err(IncompatibleType)
    case Instant(_, iso) => Ok([iso])
  }

  /** Where `parseHeaderValueToDate` takes its Date from: text handed to `new Date`, or the Date itself. */
  datatype DateSource = ParseText(text: string) | AsGiven(time: int)

  /** `parseHeaderValueToDate`, up to (and excluding) the parsing of the text. */
  function ToDate(h: HeaderValue): (r: Result<DateSource>)
    ensures r.Err? <==> Unknown(h)
    ensures h.Instant? ==> r == Ok(AsGiven(h.time))
  {
    match h
    case Str(s) => Ok(ParseText(s))
    case List(items) => Ok(ParseText(if |items| > 0 then items[0] else ""))
    case Record(text, value) =>
      if text.Some? then Ok(ParseText(text.value))
      else if value.Some? then Ok(ParseText(value.value))
      else Err(IncompatibleType)
    case Instant(time, _) => Ok(AsGiven(time))
  }

  /** The string form of a value is its list form joined with ", ". */
  lemma StringIsJoinedArray(h: HeaderValue)
    ensures ToString(h).Ok? <==> ToArray(h).Ok?
    ensures ToString(h).Ok? ==> ToString(h).value == Text.Join(ToArray(h).value, ", ")
  {
  }

  /** An object with both `text` and `value` is read through `text`, by every converter. */
  lemma TextBeforeValue(t: string, v: string)
    ensures ToString(Record(Some(t), Some(v))) == Ok(t)
    ensures ToArray(Record(Some(t), Some(v))) == Ok([t])
    ensures ToDate(Record(Some(t), Some(v))) == Ok(ParseText(t))
  {
  }

  /**
   * Except for a Date, the text handed to `new Date` is the first element of the
   * list form, or "" when that list is empty.
   */
  lemma DateParsesFirstOfArray(h: HeaderValue)
    requires !Unknown(h) && !h.Instant?
    ensures ToDate(h) == Ok(ParseText(if ToArray(h).value == [] then "" else ToArray(h).value[0]))
  {
  }
}
