/**
 * Rewriting a forum timestamp such as "Jan 02, 2006 03:04 PM" into the fixed-width IMF-fixdate
 * layout of section 7.1.1.1 of RFC 7231 ("Sun, 02 Jan 2006 15:04:00 GMT"), by copying fields
 * into a 29-byte template and adding 12 to the hour for "PM". Two versions exist: the shared
 * one in `util` (ASCII input, a length guard, checked ASCII arithmetic) and the older one of
 * the hackforums scraper (raw bytes, no guard, wrapping byte arithmetic). The weekday stays
 * "Sun"; turning the buffer into a time is left to an HTTP-date parser that is not modelled.
 */
module DateTemplate {
  import opened Wrappers

  const UtilTemplate: string := "Sun, 0D MMM YYYY_hh_mm:00 GMT"
  const ForumTemplate: string := "Sun, 06 Nov 1994 08:49:00 GMT"

  /** Indices of the two hour digits in the template. */
  const HourTens: nat := 17
  const HourUnits: nat := 18

  predicate IsAscii(s: seq<char>) {
    forall i | 0 <= i < |s| :: s[i] as int < 128
  }

  predicate IsBytes(s: seq<char>) {
    forall i | 0 <= i < |s| :: s[i] as int < 256
  }

  /** The number of bytes in front of the year: "Jan 2, " is 7 long, "Jan 02, " is 8. */
  function DayWidth(time: seq<char>): nat
    requires |time| > 5
  {
    if time[5] == ',' then 7 else 8
  }

  /**
   * What both versions need of the input: the fields they copy and the AM/PM byte exist.
   * With a one-digit day that is 19 bytes, with a two-digit day 20.
   */
  predicate LongEnough(time: seq<char>) {
    |time| > 5 && |time| >= DayWidth(time) + 12
  }

  /** The template with the month, the day and "YYYY hh:mm" of the input copied into place. */
  function Placed(template: string, time: seq<char>): (b: seq<char>)
    requires |template| == 29 && LongEnough(time)
    ensures |b| == 29
    ensures b[..5] == template[..5] && b[7] == template[7] && b[11] == template[11]
    ensures b[22..] == template[22..]
    ensures b[8..11] == time[..3]
    ensures time[5] == ',' ==> b[5] == template[5] && b[6] == time[4]
    ensures time[5] != ',' ==> b[5] == time[4] && b[6] == time[5]
    ensures b[12..22] == time[DayWidth(time)..DayWidth(time) + 10]
    ensures IsAscii(template) && IsAscii(time) ==> IsAscii(b)
    ensures IsBytes(template) && IsBytes(time) ==> IsBytes(b)
  {
    var day := if time[5] == ',' then [template[5], time[4]] else [time[4], time[5]];
    template[..5] + day + [template[7]] + time[..3] + [template[11]]
    + time[DayWidth(time)..DayWidth(time) + 10] + template[22..]
  }

  /** The AM/PM byte: the one after "hh:mm ". */
  function Meridiem(time: seq<char>): char
    requires LongEnough(time)
  {
    time[DayWidth(time) + 11]
  }

  /** `Char::from_u8`: an ASCII character, or None for a value of 128 or more. */
  function FromU8(x: int): (r: Option<char>)
    requires 0 <= x
    ensures r.Some? <==> x < 128
    ensures r.Some? ==> r.value as int == x
  {
    if x < 128 then Some(x as char) else None
  }

  /** The checked "+12 hours" of `util`: tens + 1, units + 2, then a decimal carry past '9'. */
  function CheckedPm(b: seq<char>): (r: Option<seq<char>>)
    requires |b| == 29
    ensures r.Some? ==> |r.value| == 29 && (IsAscii(b) ==> IsAscii(r.value))
    ensures r.Some? ==> forall i | 0 <= i < 29 && i != HourTens && i != HourUnits :: r.value[i] == b[i]
  {
    var t := FromU8(b[HourTens] as int + 1);
    var u := FromU8(b[HourUnits] as int + 2);
    if t.None? || u.None? then None
    else if u.value > '9' then
      var t' := FromU8(t.value as int + 1);
      var u' := FromU8(u.value as int - 10);
      if t'.None? || u'.None? then None else Some(b[HourTens := t'.value][HourUnits := u'.value])
    else Some(b[HourTens := t.value][HourUnits := u.value])
  }

  /** The wrapping "+12 hours" of the forum scraper, on bytes. */
  function WrappingPm(b: seq<char>): (r: seq<char>)
    requires |b| == 29
    ensures |r| == 29 && (IsBytes(b) ==> IsBytes(r))
    ensures forall i | 0 <= i < 29 && i != HourTens && i != HourUnits :: r[i] == b[i]
  {
    var t := (b[HourTens] as int + 1) % 256;
    var u := (b[HourUnits] as int + 2) % 256;
    if u >= 58 then b[HourTens := ((t + 1) % 256) as char][HourUnits := (u - 10) as char]
    else b[HourTens := t as char][HourUnits := u as char]
  }

  function HourValue(tens: char, units: char): int {
    10 * (tens as int - '0' as int) + (units as int - '0' as int)
  }

  /**
   * "+12 hours" on two decimal digits: the result is again two decimal digits, worth twelve
   * more, whenever that stays below 100 ("03" gives "15", "08" gives "20", "12" gives "24").
   */
  lemma CheckedPmAddsTwelve(b: seq<char>)
    requires |b| == 29 && IsAscii(b)
    requires '0' <= b[HourTens] <= '7' && '0' <= b[HourUnits] <= '9'
    ensures CheckedPm(b).Some?
    ensures '0' <= CheckedPm(b).value[HourTens] <= '9' && '0' <= CheckedPm(b).value[HourUnits] <= '9'
    ensures HourValue(CheckedPm(b).value[HourTens], CheckedPm(b).value[HourUnits])
            == HourValue(b[HourTens], b[HourUnits]) + 12
  {
  }

  /** Noon is not special-cased: "12:30 PM" becomes hour 24. */
  lemma NoonBecomesHour24(b: seq<char>)
    requires |b| == 29 && IsAscii(b) && b[HourTens] == '1' && b[HourUnits] == '2'
    ensures CheckedPm(b).Some? && CheckedPm(b).value[HourTens] == '2' && CheckedPm(b).value[HourUnits] == '4'
  {
  }

  /** On decimal hour digits the wrapping byte arithmetic and the checked one agree. */
  lemma PmVersionsAgree(b: seq<char>)
    requires |b| == 29 && IsAscii(b)
    requires '0' <= b[HourTens] <= '7' && '0' <= b[HourUnits] <= '9'
    ensures CheckedPm(b) == Some(WrappingPm(b))
  {
    CheckedPmAddsTwelve(b);
  }

  lemma TemplatesAreAscii()
    ensures IsAscii(UtilTemplate) && IsAscii(ForumTemplate)
    ensures IsBytes(UtilTemplate) && IsBytes(ForumTemplate)
  {
  }

  /**
   * `util::simple_parse`, up to the HTTP-date parse: None for fewer than 19 bytes or when the
   * hour arithmetic leaves ASCII, otherwise the filled template.
   */
  method UtilSimpleParse(time: seq<char>) returns (r: Option<seq<char>>)
    requires IsAscii(time)
    requires |time| >= 19 ==> LongEnough(time)
    ensures |time| < 19 ==> r.None?
    ensures |time| >= 19 && Meridiem(time) != 'P' ==> r == Some(Placed(UtilTemplate, time))
    ensures |time| >= 19 && Meridiem(time) == 'P' ==> r == CheckedPm(Placed(UtilTemplate, time))
  {
    if |time| < 19 {
      return None;
    }
    var buf := new char[29](i requires 0 <= i < 29 => UtilTemplate[i]);
    assert buf[..] == UtilTemplate;
    ghost var placed := Placed(UtilTemplate, time);
    var off := FillTemplate(buf, time);
    if time[off + 11] == 'P' {
      assert buf[..] == placed;
      var t := FromU8(buf[HourTens] as int + 1);
      if t.None? { return None; }
      buf[HourTens] := t.value;
      var u := FromU8(buf[HourUnits] as int + 2);
      if u.None? { return None; }
      buf[HourUnits] := u.value;
      if buf[HourUnits] > '9' {
        var t' := FromU8(buf[HourTens] as int + 1);
        if t'.None? { return None; }
        buf[HourTens] := t'.value;
        var u' := FromU8(buf[HourUnits] as int - 10);
        if u'.None? { return None; }
        buf[HourUnits] := u'.value;
      }
      assert buf[..] == CheckedPm(placed).value;
    }
    r := Some(buf[..]);
  }

  /** The copying common to both versions: month, day and "YYYY hh:mm" into a template buffer. */
  method FillTemplate(buf: array<char>, time: seq<char>) returns (off: nat)
    requires buf.Length == 29 && LongEnough(time)
    modifies buf
    ensures off == DayWidth(time)
    ensures buf[..] == Placed(old(buf[..]), time)
  {
    ghost var template := buf[..];
    buf[8], buf[9], buf[10] := time[0], time[1], time[2];
    if time[5] == ',' {
      buf[6] := time[4];
      off := 7;
    } else {
      buf[5] := time[4];
      buf[6] := time[5];
      off := 8;
    }
    for k := 0 to 10
      invariant forall i | 0 <= i < 12 :: buf[i] == Placed(template, time)[i]
      invariant forall i | 12 <= i < 12 + k :: buf[i] == time[off + i - 12]
      invariant forall i | 12 + k <= i < 29 :: buf[i] == template[i]
    {
      buf[12 + k] := time[off + k];
    }
    assert buf[..] == Placed(template, time);
  }

  /** The buffer the forum scraper's `simple_parse` hands to the HTTP-date parser. */
  function ForumBuffer(time: seq<char>): (b: seq<char>)
    requires LongEnough(time)
    ensures |b| == 29
  {
    if Meridiem(time) == 'P' then WrappingPm(Placed(ForumTemplate, time)) else Placed(ForumTemplate, time)
  }

  /**
   * The older `simple_parse` of the forum scraper, up to the HTTP-date parse. It has no length
   * guard: on input that is not `LongEnough` it panics, which its callers have to rule out.
   */
  method ForumSimpleParse(time: seq<char>) returns (r: seq<char>)
    requires LongEnough(time)
    ensures Meridiem(time) != 'P' ==> r == Placed(ForumTemplate, time)
    ensures Meridiem(time) == 'P' ==> r == WrappingPm(Placed(ForumTemplate, time))
    ensures r == ForumBuffer(time)
  {
    var buf := new char[29](i requires 0 <= i < 29 => ForumTemplate[i]);
    assert buf[..] == ForumTemplate;
    var off := FillTemplate(buf, time);
    if time[off + 11] == 'P' {
      WrappingAddTwelve(buf);
    }
    r := buf[..];
  }

  /** The forum scraper's in-place "+12 hours" on the hour bytes of the buffer, with byte wrap-around. */
  method WrappingAddTwelve(buf: array<char>)
    requires buf.Length == 29
    modifies buf
    ensures buf[..] == WrappingPm(old(buf[..]))
  {
    var t := (buf[HourTens] as int + 1) % 256;
    var u := (buf[HourUnits] as int + 2) % 256;
    buf[HourTens] := t as char;
    buf[HourUnits] := u as char;
    if buf[HourUnits] as int >= 58 {
      buf[HourTens] := ((t + 1) % 256) as char;
      buf[HourUnits] := (u - 10) as char;
    }
  }

  /**
   * The two versions build the same bytes: their templates differ only where the input is
   * copied, and on decimal hours before 18:00 the two "+12" computations agree.
   */
  lemma VersionsAgree(time: seq<char>)
    requires IsAscii(time) && LongEnough(time)
    requires var b := Placed(UtilTemplate, time);
             '0' <= b[HourTens] <= '7' && '0' <= b[HourUnits] <= '9'
    ensures Placed(UtilTemplate, time) == Placed(ForumTemplate, time)
    ensures IsAscii(Placed(UtilTemplate, time))
    ensures CheckedPm(Placed(UtilTemplate, time)) == Some(WrappingPm(Placed(ForumTemplate, time)))
  {
    PlacedTemplatesAgree(time);
    TemplatesAreAscii();
    PmVersionsAgree(Placed(UtilTemplate, time));
  }

  /** The two templates differ only in bytes that the input overwrites. */
  lemma PlacedTemplatesAgree(time: seq<char>)
    requires LongEnough(time)
    ensures Placed(UtilTemplate, time) == Placed(ForumTemplate, time)
  {
    assert UtilTemplate[..5] == ForumTemplate[..5] && UtilTemplate[22..] == ForumTemplate[22..];
    assert UtilTemplate[5] == ForumTemplate[5] && UtilTemplate[7] == ForumTemplate[7];
    assert UtilTemplate[11] == ForumTemplate[11];
  }
}
