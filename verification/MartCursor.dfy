/** The composite keys of the mart pages and their text in the cursor (data_marts/repository/marts.go). */
module MartCursor {
  import opened Basics
  import opened Calendar
  import opened Text

  /** The three shapes of a primary key: two texts and a date, two texts, one text and a date. */
  datatype Shape = TextTextDate | TextText | TextDate

  /** A key of any shape; the parts that its shape does not have are empty. */
  datatype Key = Key(first: string, second: string, date: Date)

  const DAY_ONE: Date := Date(1, 1, 1)

  /** Where a scan starts. */
  const START: Key := Key("", "", DAY_ONE)

  predicate HasShape(k: Key, shape: Shape) {
    && IsDate(k.date)
    && match shape
       case TextTextDate => true
       case TextText => k.date == DAY_ONE
       case TextDate => k.second == ""
  }

  /** A date column holds dates only. */
  function DateText(d: Date): string { if IsDate(d) then FormatDate(d) else "" }

  function FormatKey(shape: Shape, k: Key): string {
    match shape
    case TextTextDate => k.first + "|" + k.second + "|" + DateText(k.date)
    case TextText => k.first + "|" + k.second
    case TextDate => k.first + "|" + DateText(k.date)
  }

  /** SplitN at the first bar: what stands before it, and what behind, if there is one. */
  function Split(s: string): (parts: (string, Option<string>))
    ensures '|' !in parts.0
    ensures s == parts.0 + if parts.1.Some? then "|" + parts.1.value else ""
  {
    if s == "" then ("", None)
    else if s[0] == '|' then ("", Some(s[1..]))
    else
      var rest := Split(s[1..]);
      ([s[0]] + rest.0, rest.1)
  }

  function DateOr(s: string): (d: Date)
    ensures IsDate(d)
  {
    if ParseDate(s).Some? then ParseDate(s).value else DAY_ONE
  }

  /** parsePK3, parsePK2Text, parsePK2TextDate: parts that are missing or unreadable are those of the start. */
  function ParseKey(shape: Shape, s: string): (k: Key)
    ensures HasShape(k, shape)
  {
    var parts := Split(s);
    var rest := if parts.1.Some? then parts.1.value else "";
    match shape
    case TextText => Key(parts.0, rest, DAY_ONE)
    case TextDate => Key(parts.0, "", DateOr(rest))
    case TextTextDate =>
      var second := Split(rest);
      Key(parts.0, second.0, DateOr(if second.1.Some? then second.1.value else ""))
  }

  lemma EmptyTextIsTheStart(shape: Shape)
    ensures ParseKey(shape, "") == START
  {}

  lemma SplitJoined(a: string, x: string)
    requires '|' !in a
    ensures Split(a + "|" + x) == (a, Some(x))
  {
    var s := a + "|" + x;
    var parts := Split(s);
    assert s[|a|] == '|';
    if parts.1.Some? {
      FirstMark('|', a, x, parts.0, parts.1.value);
    }
  }

  predicate FourDigitYear(d: Date) { 0 <= d.year <= 9999 }

  /** The keys that survive the trip through the cursor. */
  predicate Survives(k: Key, shape: Shape) {
    && '|' !in k.first
    && (shape.TextTextDate? ==> '|' !in k.second)
    && (shape.TextText? || FourDigitYear(k.date))
  }

  lemma DateOrRoundTrip(d: Date)
    requires IsDate(d)
    ensures DateOr(DateText(d)) == d <==> FourDigitYear(d)
  {
    DateRoundTrip(d);
  }

  /** A key comes back from its text exactly when its leading texts have no bar and its year has four digits; the
      last text of the two-text form may hold anything. */
  lemma KeyRoundTrip(k: Key, shape: Shape)
    requires HasShape(k, shape)
    ensures ParseKey(shape, FormatKey(shape, k)) == k <==> Survives(k, shape)
  {
    hide DateText, DateOr;
    DateOrRoundTrip(k.date);
    var date := DateText(k.date);
    if '|' !in k.first {
      match shape
      case TextText => SplitJoined(k.first, k.second);
      case TextDate => SplitJoined(k.first, date);
      case TextTextDate =>
        assert FormatKey(shape, k) == k.first + "|" + (k.second + "|" + date);
        SplitJoined(k.first, k.second + "|" + date);
        if '|' !in k.second {
          SplitJoined(k.second, date);
        }
    }
  }
}
