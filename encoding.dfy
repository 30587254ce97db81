/**
 * `CustomJSONEncoder.default`: the hook the JSON encoder calls for a value it
 * cannot serialise natively. A `datetime` becomes `DD/MM/YYYY HH:MM:SS`, any
 * other iterable becomes the list of its elements, and everything else is
 * handed to Flask's base `JSONEncoder.default`, which encodes some types
 * itself and raises `TypeError` for the rest.
 */
module Encoding {
  import opened Wrappers
  import Digits

  type Year = y: int | 1 <= y <= 9999 witness 1
  type Month = m: int | 1 <= m <= 12 witness 1
  type Day = d: int | 1 <= d <= 31 witness 1
  type Hour = h: int | 0 <= h < 24
  type Minute = m: int | 0 <= m < 60
  type Second = s: int | 0 <= s < 60
  type Microsecond = u: int | 0 <= u < 1000000

  /** A naive `datetime.datetime`, within `MINYEAR`..`MAXYEAR`. */
  datatype DateTime = DateTime(
    year: Year, month: Month, day: Day,
    hour: Hour, minute: Minute, second: Second, microsecond: Microsecond)

  /**
   * A value of a fetched row, by the case `default` distinguishes.
   * `Sequence` is a list, a tuple or another non-text iterable: the encoder
   * writes lists and tuples itself and gets other iterables listed by
   * `default`, and either way writes the elements in order. `Other` is every
   * other value: text, numbers, booleans, `None` and dicts, which the encoder
   * writes itself, and the rest, which go to the base `default`.
   */
  datatype Value =
    | Temporal(instant: DateTime)
    | Sequence(items: seq<Value>)
    | Other(typeName: string)

  /** What `default` hands back to the encoder, or the error it raises. */
  datatype Encoded =
    | Text(text: string)
    | Items(items: seq<Value>)
    | YearBefore1900(year: int)
    | ToBaseEncoder(typeName: string)

  /** The fields of `%d/%m/%Y %H:%M:%S`: zero-padded digits between fixed separators. */
  predicate IsDateTimeText(s: string) {
    && |s| == 19
    && s[2] == '/' && s[5] == '/' && s[10] == ' ' && s[13] == ':' && s[16] == ':'
    && Digits.AllDigits(s[0..2]) && Digits.AllDigits(s[3..5]) && Digits.AllDigits(s[6..10])
    && Digits.AllDigits(s[11..13]) && Digits.AllDigits(s[14..16]) && Digits.AllDigits(s[17..19])
  }

  /** The text `%d/%m/%Y %H:%M:%S` produces from its six fields. */
  function Layout(day: string, month: string, year: string, hour: string, minute: string, second: string): string {
    day + "/" + month + "/" + year + " " + hour + ":" + minute + ":" + second
  }

  /** Where each field lands in the laid-out text. */
  lemma LayoutFields(day: string, month: string, year: string, hour: string, minute: string, second: string)
    requires |day| == 2 && |month| == 2 && |year| == 4 && |hour| == 2 && |minute| == 2 && |second| == 2
    ensures var s := Layout(day, month, year, hour, minute, second);
      && |s| == 19
      && s[2] == '/' && s[5] == '/' && s[10] == ' ' && s[13] == ':' && s[16] == ':'
      && s[0..2] == day && s[3..5] == month && s[6..10] == year
      && s[11..13] == hour && s[14..16] == minute && s[17..19] == second
  {
    var s := Layout(day, month, year, hour, minute, second);
    var date := day + "/" + month + "/" + year;
    var time := hour + ":" + minute + ":" + second;
    assert s == date + " " + time;
    assert s[..10] == date;
    assert s[11..] == time;
    assert date[..2] == day && date[3..5] == month && date[6..] == year;
    assert time[..2] == hour && time[3..5] == minute && time[6..] == second;
  }

  /** `instant.strftime('%d/%m/%Y %H:%M:%S')`; the microseconds are dropped. */
  function Format(d: DateTime): (s: string)
    ensures IsDateTimeText(s)
  {
    var day, month, year := Digits.Padded(d.day, 2), Digits.Padded(d.month, 2), Digits.Padded(d.year, 4);
    var hour, minute, second := Digits.Padded(d.hour, 2), Digits.Padded(d.minute, 2), Digits.Padded(d.second, 2);
    LayoutFields(day, month, year, hour, minute, second);
    Layout(day, month, year, hour, minute, second)
  }

  /** Each field of an instant, zero-padded, at its fixed place in the formatted text. */
  lemma FormatFields(d: DateTime)
    ensures var s := Format(d);
      && s[0..2] == Digits.Padded(d.day, 2) && s[3..5] == Digits.Padded(d.month, 2)
      && s[6..10] == Digits.Padded(d.year, 4) && s[11..13] == Digits.Padded(d.hour, 2)
      && s[14..16] == Digits.Padded(d.minute, 2) && s[17..19] == Digits.Padded(d.second, 2)
  {
    LayoutFields(Digits.Padded(d.day, 2), Digits.Padded(d.month, 2), Digits.Padded(d.year, 4),
      Digits.Padded(d.hour, 2), Digits.Padded(d.minute, 2), Digits.Padded(d.second, 2));
  }

  /** Reads `DD/MM/YYYY HH:MM:SS` back into the instant it names (microsecond 0). */
  function Parse(s: string): (r: Option<DateTime>)
    ensures r.Some? ==> IsDateTimeText(s)
  {
    if !IsDateTimeText(s) then None
    else
      var day, month, year := Digits.Value(s[0..2]), Digits.Value(s[3..5]), Digits.Value(s[6..10]);
      var hour, minute, second := Digits.Value(s[11..13]), Digits.Value(s[14..16]), Digits.Value(s[17..19]);
      if 1 <= year <= 9999 && 1 <= month <= 12 && 1 <= day <= 31 && hour < 24 && minute < 60 && second < 60
      then Some(DateTime(year, month, day, hour, minute, second, 0))
      else None
  }

  /** The formatted text names the instant, up to the dropped microseconds. */
  lemma FormatThenParse(d: DateTime)
    ensures Parse(Format(d)) == Some(d.(microsecond := 0))
  {
    FormatFields(d);
  }

  /** A text of the date-time shape is the layout of its own six fields. */
  lemma LayoutOfSlices(s: string)
    requires |s| == 19
    requires s[2] == '/' && s[5] == '/' && s[10] == ' ' && s[13] == ':' && s[16] == ':'
    ensures s == Layout(s[0..2], s[3..5], s[6..10], s[11..13], s[14..16], s[17..19])
  {
    var t := Layout(s[0..2], s[3..5], s[6..10], s[11..13], s[14..16], s[17..19]);
    LayoutFields(s[0..2], s[3..5], s[6..10], s[11..13], s[14..16], s[17..19]);
    assert forall i :: 0 <= i < 19 ==> t[i] == s[i] by {
      forall i | 0 <= i < 19 ensures t[i] == s[i] {
        if i < 2 { assert t[i] == t[0..2][i]; }
        else if 3 <= i < 5 { assert t[i] == t[3..5][i - 3]; }
        else if 6 <= i < 10 { assert t[i] == t[6..10][i - 6]; }
        else if 11 <= i < 13 { assert t[i] == t[11..13][i - 11]; }
        else if 14 <= i < 16 { assert t[i] == t[14..16][i - 14]; }
        else if 17 <= i < 19 { assert t[i] == t[17..19][i - 17]; }
      }
    }
  }

  /** Every text `Parse` accepts is exactly the format of what it yields. */
  lemma ParseThenFormat(s: string)
    requires Parse(s).Some?
    ensures Format(Parse(s).value) == s
  {
    Digits.PaddedValue(s[0..2]);
    Digits.PaddedValue(s[3..5]);
    Digits.PaddedValue(s[6..10]);
    Digits.PaddedValue(s[11..13]);
    Digits.PaddedValue(s[14..16]);
    Digits.PaddedValue(s[17..19]);
    LayoutOfSlices(s);
  }

  /**
   * `CustomJSONEncoder.default(obj)`. Python 2's `strftime` raises `ValueError`
   * for years before 1900, which the `except TypeError` does not catch.
   */
  function Default(v: Value): (r: Encoded)
    ensures v.Temporal? && v.instant.year >= 1900 ==>
      r.Text? && IsDateTimeText(r.text) && Parse(r.text) == Some(v.instant.(microsecond := 0))
    ensures v.Temporal? && v.instant.year < 1900 ==> r == YearBefore1900(v.instant.year)
    ensures v.Sequence? ==>
      && r.Items? && |r.items| == |v.items|
      && forall i :: 0 <= i < |v.items| ==> r.items[i] == v.items[i]
    ensures v.Other? ==> r == ToBaseEncoder(v.typeName)
    ensures r.Items? ==> v.Sequence?
  {
    match v
    case Temporal(d) =>
      if d.year < 1900 then YearBefore1900(d.year)
      else
        FormatThenParse(d);
        Text(Format(d))
    case Sequence(items) => Items(items)
    case Other(name) => ToBaseEncoder(name)
  }

  /**
   * Whether the JSON encoder writes `v` out without raising. A datetime goes
   * through `default`; the elements of a sequence are encoded in turn; for
   * any other value, `baseEncodes` tells whether its type is written out,
   * either by the encoder itself (text, numbers, booleans, `None`, dicts) or
   * by the base `default`.
   */
  function Encodes(v: Value, baseEncodes: string -> bool): (ok: bool)
    ensures v.Temporal? ==> (ok <==> v.instant.year >= 1900)
    ensures v.Sequence? ==> (ok <==> forall i :: 0 <= i < |v.items| ==> Encodes(v.items[i], baseEncodes))
    ensures v.Other? ==> (ok <==> baseEncodes(v.typeName))
  {
    match Default(v)
    case Text(_) => true
    case Items(items) => forall i :: 0 <= i < |items| ==> Encodes(items[i], baseEncodes)
    case YearBefore1900(_) => false
    case ToBaseEncoder(name) => baseEncodes(name)
  }

  /** One instant before 1900, however deeply nested, makes the whole value fail to encode. */
  lemma {:induction false} NestedEarlyYearFails(v: Value, path: seq<nat>, baseEncodes: string -> bool)
    requires ReachedBy(v, path).Some?
    requires ReachedBy(v, path).value.Temporal? && ReachedBy(v, path).value.instant.year < 1900
    ensures !Encodes(v, baseEncodes)
    decreases |path|
  {
    if path != [] {
      NestedEarlyYearFails(v.items[path[0]], path[1..], baseEncodes);
    }
  }

  /** The value found by following element indices down nested sequences. */
  function ReachedBy(v: Value, path: seq<nat>): Option<Value>
    decreases |path|
  {
    if path == [] then Some(v)
    else if v.Sequence? && path[0] < |v.items| then ReachedBy(v.items[path[0]], path[1..])
    else None
  }
}
