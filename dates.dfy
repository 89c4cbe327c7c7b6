/**
 * `format_date`: the display of the API's ISO-8601 timestamps as
 * "day/month/year hour:minute", falling back to the raw text.
 *
 * The ISO-8601 parser of the Python standard library is not modelled: it is
 * a parameter, a partial function from text to the fields it recognises.
 */
module Dates {
  import opened Wrappers
  import opened Text

  /** The fields of a parsed timestamp that the display format reads. */
  datatype DateTime = DateTime(year: nat, month: nat, day: nat, hour: nat, minute: nat)

  /** The ranges Python's `datetime` allows for these fields. */
  predicate Valid(d: DateTime) {
    1 <= d.year <= 9999 && 1 <= d.month <= 12 && 1 <= d.day <= 31 && d.hour < 24 && d.minute < 60
  }

  /** `datetime.fromisoformat`: `None` when the text is not a timestamp it accepts. */
  type DateParser = string -> Option<DateTime>

  const NotAvailable := "N/A"

  function Digit(d: nat): char
    requires d < 10
  {
    ('0' as int + d) as char
  }

  /** `n` in decimal, with leading zeros up to `width` digits (`%02d`, `%04d`). */
  function Padded(n: nat, width: nat): (r: string)
    ensures |r| >= width
    decreases n + width
  {
    if width == 0 && n == 0 then ""
    else Padded(n / 10, if width == 0 then 0 else width - 1) + [Digit(n % 10)]
  }

  predicate IsDigits(s: string) {
    forall i :: 0 <= i < |s| ==> '0' <= s[i] <= '9'
  }

  /** Padding writes decimal digits only. */
  lemma {:induction false} PaddedDigits(n: nat, width: nat)
    ensures IsDigits(Padded(n, width))
    decreases n + width
  {
    if !(width == 0 && n == 0) {
      PaddedDigits(n / 10, if width == 0 then 0 else width - 1);
    }
  }

  /** The number a string of decimal digits stands for. */
  function DecimalValue(s: string): nat
    requires IsDigits(s)
  {
    if s == [] then 0 else DecimalValue(s[..|s| - 1]) * 10 + (s[|s| - 1] as int - '0' as int)
  }

  function Pow10(k: nat): nat {
    if k == 0 then 1 else 10 * Pow10(k - 1)
  }

  /** Reading the digits back gives the number. */
  lemma {:induction false} PaddedValue(n: nat, width: nat)
    ensures IsDigits(Padded(n, width)) && DecimalValue(Padded(n, width)) == n
    decreases n + width
  {
    if !(width == 0 && n == 0) {
      var w := if width == 0 then 0 else width - 1;
      var r := Padded(n, width);
      PaddedValue(n / 10, w);
      PaddedDigits(n, width);
      PaddedDigits(n / 10, w);
      assert r[..|r| - 1] == Padded(n / 10, w);
    }
  }

  /** A number below 10^width takes exactly `width` digits. */
  lemma {:induction false} PaddedLength(n: nat, width: nat)
    requires n < Pow10(width)
    ensures |Padded(n, width)| == width
    decreases width
  {
    if width > 0 {
      PaddedLength(n / 10, width - 1);
    }
  }

  /** `strftime("%d/%m/%Y %H:%M")`. */
  function Render(d: DateTime): (r: string)
    ensures |r| >= 16
  {
    Padded(d.day, 2) + "/" + Padded(d.month, 2) + "/" + Padded(d.year, 4) + " "
      + Padded(d.hour, 2) + ":" + Padded(d.minute, 2)
  }

  /** Reads a rendered timestamp back by position. */
  function ReadRendered(r: string): Option<DateTime> {
    if |r| == 16 && IsDigits(r[0..2]) && IsDigits(r[3..5]) && IsDigits(r[6..10]) && IsDigits(r[11..13]) && IsDigits(r[14..16]) then
      Some(DateTime(DecimalValue(r[6..10]), DecimalValue(r[3..5]), DecimalValue(r[0..2]),
                    DecimalValue(r[11..13]), DecimalValue(r[14..16])))
    else None
  }

  /** Where each field sits in the display format, once every field has its width. */
  lemma FieldPositions(day: string, month: string, year: string, hour: string, minute: string)
    requires |day| == 2 && |month| == 2 && |year| == 4 && |hour| == 2 && |minute| == 2
    ensures var r := day + "/" + month + "/" + year + " " + hour + ":" + minute;
            |r| == 16 && r[0..2] == day && r[3..5] == month && r[6..10] == year
            && r[11..13] == hour && r[14..16] == minute
  {
  }

  /**
   * A valid timestamp renders in 16 characters from which it can be read
   * back, so two different timestamps are never displayed alike.
   */
  lemma RenderReadBack(d: DateTime)
    requires Valid(d)
    ensures |Render(d)| == 16
    ensures ReadRendered(Render(d)) == Some(d)
  {
    PaddedLength(d.day, 2);
    PaddedLength(d.month, 2);
    PaddedLength(d.year, 4);
    PaddedLength(d.hour, 2);
    PaddedLength(d.minute, 2);
    PaddedValue(d.day, 2);
    PaddedValue(d.month, 2);
    PaddedValue(d.year, 4);
    PaddedValue(d.hour, 2);
    PaddedValue(d.minute, 2);
    FieldPositions(Padded(d.day, 2), Padded(d.month, 2), Padded(d.year, 4), Padded(d.hour, 2), Padded(d.minute, 2));
  }

  /** The API writes UTC as a trailing 'Z', which the parser is given as "+00:00" instead. */
  function ZuluToOffset(s: string): (r: string)
    ensures 'Z' !in r
    ensures 'Z' !in s ==> r == s
  {
    Replace(s, 'Z', "+00:00")
  }

  /** A timestamp ending in 'Z', and holding no other, reaches the parser with the offset in its place. */
  lemma ZuluSuffix(s: string)
    requires 'Z' !in s
    ensures ZuluToOffset(s + "Z") == s + "+00:00"
  {
    ReplaceAppend(s, "Z", 'Z', "+00:00");
  }

  /**
   * `format_date`: "N/A" for an absent or empty value; otherwise the rendered
   * timestamp when the parser accepts the text (with 'Z' replaced), and the
   * text itself when it does not. It never fails and never shows a blank.
   */
  function FormatDate(value: Option<string>, parse: DateParser): (r: string)
    ensures value.None? || value == Some("") ==> r == NotAvailable
    ensures value.Some? && value.value != "" && parse(ZuluToOffset(value.value)).Some? ==>
              r == Render(parse(ZuluToOffset(value.value)).value)
    ensures value.Some? && value.value != "" && parse(ZuluToOffset(value.value)).None? ==> r == value.value
    ensures r != ""
  {
    if value.None? || value.value == "" then NotAvailable
    else
      match parse(ZuluToOffset(value.value))
      case Some(d) => Render(d)
      case None => value.value
  }

  /**
   * A UTC timestamp as the API writes it, "...T14:30:00.000Z", is displayed
   * as whatever the parser reads from the same text with "+00:00" in place
   * of the 'Z'.
   */
  lemma FormatZuluTimestamp(s: string, d: DateTime, parse: DateParser)
    requires 'Z' !in s
    requires parse(s + "+00:00") == Some(d)
    ensures FormatDate(Some(s + "Z"), parse) == Render(d)
  {
    ZuluSuffix(s);
  }

  /** The two-digit fields of the example below. */
  lemma PaddedExamples()
    ensures Padded(9, 2) == "09" && Padded(5, 2) == "05" && Padded(14, 2) == "14" && Padded(30, 2) == "30"
  {
  }

  /** The year of the example below. */
  lemma PaddedYearExample()
    ensures Padded(2023, 4) == "2023"
  {
  }

  /** 9 May 2023, 14:30 is displayed as "09/05/2023 14:30". */
  lemma RenderExample()
    ensures Render(DateTime(2023, 5, 9, 14, 30)) == "09/05/2023 14:30"
  {
    PaddedExamples();
    PaddedYearExample();
  }
}
