/** Option and Result: the absent value and the error path of the modelled Rust and Python code. */
module Wrappers {

  datatype Option<+T> = None | Some(value: T) {
    /** `Option::unwrap_or` */
    function GetOr(default: T): T {
      if Some? then value else default
    }
  }

  datatype Result<+T, +E> = Ok(value: T) | Err(error: E)
}

/**
 * The standard string operations the scrapers lean on, written out with the semantics of
 * Rust's `str` methods: integer parsing in radix 10, decimal formatting, Unicode
 * whitespace, trimming, character replacement, prefix stripping and substring search.
 */
module Strings {
  import opened Wrappers

  const I32_MIN: int := -0x8000_0000
  const I32_MAX: int := 0x7FFF_FFFF
  const I64_MIN: int := -0x8000_0000_0000_0000
  const I64_MAX: int := 0x7FFF_FFFF_FFFF_FFFF
  const U16_MAX: int := 0xFFFF
  const U32_MAX: int := 0xFFFF_FFFF
  const U64_MAX: int := 0xFFFF_FFFF_FFFF_FFFF

  /** Rust's `i32`. */
  type Int32 = x: int | I32_MIN <= x <= I32_MAX

  // ---------------------------------------------------------------- digits and integers

  predicate IsDigit(c: char) {
    '0' <= c <= '9'
  }

  predicate AllDigits(s: string) {
    forall i | 0 <= i < |s| :: IsDigit(s[i])
  }

  function DigitValue(c: char): (d: nat)
    requires IsDigit(c)
    ensures d < 10
  {
    c as int - '0' as int
  }

  function DigitChar(d: nat): (c: char)
    requires d < 10
    ensures IsDigit(c) && DigitValue(c) == d
  {
    ('0' as int + d) as char
  }

  /** The value of a run of decimal digits, most significant first. */
  function DigitsValue(s: string): nat
    requires AllDigits(s)
  {
    if s == [] then 0 else 10 * DigitsValue(s[..|s| - 1]) + DigitValue(s[|s| - 1])
  }

  /** A Rust integer type as `str::parse` sees it: its range and whether a '-' sign is read. */
  datatype IntType = IntType(min: int, max: int, signed: bool)

  const I32: IntType := IntType(I32_MIN, I32_MAX, true)
  const I64: IntType := IntType(I64_MIN, I64_MAX, true)
  const U16: IntType := IntType(0, U16_MAX, false)
  const U64: IntType := IntType(0, U64_MAX, false)

  /** The text after the one leading sign T reads: '+' always, '-' only for a signed type. */
  function Unsigned(s: string, t: IntType): (d: string)
    ensures |d| <= |s| && d == s[|s| - |d|..]
  {
    if s != [] && (s[0] == '+' || (t.signed && s[0] == '-')) then s[1..] else s
  }

  predicate Negative(s: string, t: IntType) {
    t.signed && s != [] && s[0] == '-'
  }

  /** The value the digits after the sign spell, negated after a '-'. */
  function SignedValue(s: string, t: IntType): int
    requires AllDigits(Unsigned(s, t))
  {
    var magnitude: int := DigitsValue(Unsigned(s, t));
    if Negative(s, t) then -magnitude else magnitude
  }

  /**
   * `str::parse::<T>()` for an integer type T: an optional '+' (or, for a signed type, '-'),
   * then one or more ASCII digits and nothing else, and the value must fit T.
   * A lone sign and the empty string are errors.
   */
  function ParseInt(s: string, t: IntType): (r: Option<int>)
    ensures r.Some? ==> t.min <= r.value <= t.max
    ensures r.Some? ==> s != [] && (IsDigit(s[0]) || s[0] == '+' || (t.signed && s[0] == '-'))
    ensures r.Some? ==> forall i | 0 < i < |s| :: IsDigit(s[i])
  {
    if s == [] || s == "+" || s == "-" then None
    else
      var negative := t.signed && s[0] == '-';
      var digits := if s[0] == '+' || negative then s[1..] else s;
      if !AllDigits(digits) then None
      else
        var magnitude: int := DigitsValue(digits);
        var v := if negative then -magnitude else magnitude;
        if t.min <= v <= t.max then Some(v) else None
  }

  /**
   * `str::parse` succeeds exactly on an optional sign followed by one or more digits whose
   * value, negated after a '-', fits the type; the result is that value.
   */
  lemma ParseIntMeaning(s: string, t: IntType)
    ensures var r := ParseInt(s, t);
            && (r.Some? <==> Unsigned(s, t) != [] && AllDigits(Unsigned(s, t)) && t.min <= SignedValue(s, t) <= t.max)
            && (r.Some? ==> AllDigits(Unsigned(s, t)) && r.value == SignedValue(s, t))
  {
    var d := Unsigned(s, t);
    if s == [] || s == "+" || s == "-" {
      if s != [] && d != [] {
        assert d == s && !IsDigit(d[0]);
      }
    } else {
      var negative := t.signed && s[0] == '-';
      var digits := if s[0] == '+' || negative then s[1..] else s;
      assert d == digits && Negative(s, t) == negative;
      assert ParseInt(s, t) == if !AllDigits(digits) then None
                               else if t.min <= (if negative then -(DigitsValue(digits) as int) else DigitsValue(digits)) <= t.max
                               then Some(if negative then -(DigitsValue(digits) as int) else DigitsValue(digits))
                               else None;
    }
  }

  /** A '+' sign is read; "-0" is zero for a signed type and an error for an unsigned one. */
  lemma ParseIntSigns()
    ensures ParseInt("+5", I32) == Some(5)
    ensures ParseInt("-0", I32) == Some(0)
    ensures ParseInt("-0", U16) == None
  {
    assert "+5"[1..] == "5" && "-0"[1..] == "0";
    assert DigitsValue("5") == 5 && DigitsValue("0") == 0 by { assert "5"[..0] == [] && "0"[..0] == []; }
    assert !AllDigits("-0") by { assert !IsDigit("-0"[0]); }
  }

  /** Leading zeros are read. */
  lemma ParseIntLeadingZeros()
    ensures ParseInt("007", U16) == Some(7)
  {
    assert DigitsValue("007") == 7 by {
      assert "007"[..2] == "00" && "00"[..1] == "0" && "0"[..0] == [];
    }
  }

  /** A sign alone, a second sign and the empty string are errors. */
  lemma ParseIntMalformed()
    ensures ParseInt("+", I32) == None && ParseInt("-", I32) == None && ParseInt("", U64) == None
    ensures ParseInt("+-1", I32) == None && ParseInt("--1", I32) == None
  {
    assert !AllDigits("-1") by { assert !IsDigit("-1"[0]); }
  }

  /** The range check: 65535 fits a `u16` and 65536 does not. */
  lemma ParseIntRange()
    ensures ParseInt("65536", U16) == None && ParseInt("65535", U16) == Some(65535)
  {
    assert DigitsValue("65536") == 65536 by {
      assert "65536"[..4] == "6553" && "6553"[..3] == "655" && "655"[..2] == "65" && "65"[..1] == "6" && "6"[..0] == [];
    }
    assert DigitsValue("65535") == 65535 by {
      assert "65535"[..4] == "6553" && "6553"[..3] == "655" && "655"[..2] == "65" && "65"[..1] == "6" && "6"[..0] == [];
    }
  }

  /** The shortest decimal spelling of a natural number (Rust's `Display` for integers). */
  function Decimal(n: nat): string
    decreases n
  {
    if n < 10 then [DigitChar(n)] else Decimal(n / 10) + [DigitChar(n % 10)]
  }

  /** `format!("{x}")` for an integer: a '-' sign for negatives, then the decimal digits. */
  function FormatInt(x: int): string {
    if x < 0 then "-" + Decimal(-x) else Decimal(x)
  }

  lemma {:induction false} DecimalDigits(n: nat)
    ensures |Decimal(n)| >= 1 && AllDigits(Decimal(n)) && DigitsValue(Decimal(n)) == n
    decreases n
  {
    if n >= 10 {
      DecimalDigits(n / 10);
      var s := Decimal(n);
      assert s[..|s| - 1] == Decimal(n / 10);
    }
  }

  /** Parsing what `format!` printed gives the number back, for every value the type holds. */
  lemma ParseFormatRoundTrip(x: int, t: IntType)
    requires t.min <= x <= t.max
    requires x < 0 ==> t.signed
    ensures ParseInt(FormatInt(x), t) == Some(x)
  {
    var n := if x < 0 then -x else x;
    DecimalDigits(n);
    var s := FormatInt(x);
    if x < 0 {
      assert s[0] == '-' && s[1..] == Decimal(n);
      assert s != "-" by { assert |s| >= 2; }
    } else {
      assert s[0] != '+' && s[0] != '-' by { assert IsDigit(s[0]); }
    }
  }

  // ---------------------------------------------------------------- whitespace

  /** Rust's `char::is_whitespace`: the Unicode White_Space property. */
  predicate IsWhitespace(c: char) {
    var n := c as int;
    (0x9 <= n <= 0xD) || n == 0x20 || n == 0x85 || n == 0xA0 || n == 0x1680
    || (0x2000 <= n <= 0x200A) || n == 0x2028 || n == 0x2029 || n == 0x202F
    || n == 0x205F || n == 0x3000
  }

  /** `str::trim_start` */
  function TrimStart(s: string): (r: string)
    ensures |r| <= |s|
  {
    if s != [] && IsWhitespace(s[0]) then TrimStart(s[1..]) else s
  }

  /** `str::trim_end` */
  function TrimEnd(s: string): (r: string)
    ensures |r| <= |s|
  {
    if s != [] && IsWhitespace(s[|s| - 1]) then TrimEnd(s[..|s| - 1]) else s
  }

  /** `str::trim`: the slice between the leading and the trailing whitespace. */
  function Trim(s: string): (r: string)
    ensures |r| <= |s|
  {
    TrimEnd(TrimStart(s))
  }

  /** What `trim_start` keeps: a suffix of s that does not start with whitespace, after only whitespace. */
  lemma {:induction false} TrimStartSpec(s: string)
    ensures var r := TrimStart(s);
            && r == s[|s| - |r|..]
            && (forall i | 0 <= i < |s| - |r| :: IsWhitespace(s[i]))
            && (r != [] ==> !IsWhitespace(r[0]))
    decreases |s|
  {
    if s != [] && IsWhitespace(s[0]) {
      TrimStartSpec(s[1..]);
    }
  }

  /** What `trim_end` keeps: a prefix of s that does not end with whitespace, before only whitespace. */
  lemma {:induction false} TrimEndSpec(s: string)
    ensures var r := TrimEnd(s);
            && r == s[..|r|]
            && (forall i | |r| <= i < |s| :: IsWhitespace(s[i]))
            && (r != [] ==> !IsWhitespace(r[|r| - 1]))
    decreases |s|
  {
    if s != [] && IsWhitespace(s[|s| - 1]) {
      TrimEndSpec(s[..|s| - 1]);
    }
  }

  /**
   * What `str::trim` keeps: a slice of s with no whitespace at either end, and only
   * whitespace around it.
   */
  lemma TrimSpec(s: string)
    ensures var r := Trim(s);
            && (r != [] ==> !IsWhitespace(r[0]) && !IsWhitespace(r[|r| - 1]))
            && LeadingWhitespace(s) + |r| <= |s| && r == s[LeadingWhitespace(s)..LeadingWhitespace(s) + |r|]
            && (forall i | 0 <= i < LeadingWhitespace(s) :: IsWhitespace(s[i]))
            && (forall i | LeadingWhitespace(s) + |r| <= i < |s| :: IsWhitespace(s[i]))
  {
    TrimStartSpec(s);
    TrimEndSpec(TrimStart(s));
  }

  /** How many whitespace characters `str::trim` drops at the front. */
  function LeadingWhitespace(s: string): nat {
    |s| - |TrimStart(s)|
  }

  /** `s.replace(char::is_whitespace, "")`: every whitespace character removed. */
  function RemoveWhitespace(s: string): (r: string)
    ensures |r| <= |s|
    ensures forall i | 0 <= i < |r| :: !IsWhitespace(r[i])
  {
    if s == [] then []
    else (if IsWhitespace(s[0]) then [] else [s[0]]) + RemoveWhitespace(s[1..])
  }

  lemma {:induction false} RemoveWhitespaceAppend(a: string, b: string)
    ensures RemoveWhitespace(a + b) == RemoveWhitespace(a) + RemoveWhitespace(b)
    decreases |a|
  {
    if a != [] {
      assert (a + b)[1..] == a[1..] + b;
      RemoveWhitespaceAppend(a[1..], b);
    } else {
      assert a + b == b;
    }
  }

  /** The concatenation of a sequence of text pieces (`Iterator::collect::<String>`). */
  function Concat(pieces: seq<string>): string {
    if pieces == [] then [] else Concat(pieces[..|pieces| - 1]) + pieces[|pieces| - 1]
  }

  /** Removing whitespace from every piece and then joining equals joining and then removing it. */
  lemma {:induction false} RemoveWhitespaceConcat(pieces: seq<string>)
    ensures Concat(MapRemoveWhitespace(pieces)) == RemoveWhitespace(Concat(pieces))
    decreases |pieces|
  {
    if pieces != [] {
      var init := pieces[..|pieces| - 1];
      RemoveWhitespaceConcat(init);
      assert MapRemoveWhitespace(pieces)[..|pieces| - 1] == MapRemoveWhitespace(init);
      RemoveWhitespaceAppend(Concat(init), pieces[|pieces| - 1]);
    }
  }

  function MapRemoveWhitespace(pieces: seq<string>): (r: seq<string>)
    ensures |r| == |pieces|
    ensures forall i | 0 <= i < |pieces| :: r[i] == RemoveWhitespace(pieces[i])
  {
    seq(|pieces|, i requires 0 <= i < |pieces| => RemoveWhitespace(pieces[i]))
  }

  function MapTrim(pieces: seq<string>): (r: seq<string>)
    ensures |r| == |pieces|
    ensures forall i | 0 <= i < |pieces| :: r[i] == Trim(pieces[i])
  {
    seq(|pieces|, i requires 0 <= i < |pieces| => Trim(pieces[i]))
  }

  // ---------------------------------------------------------------- replacing and matching

  /** `s.replace(c, repl)`: every occurrence of the character c replaced by the string `repl`. */
  function ReplaceChar(s: string, c: char, repl: string): (r: string)
    ensures c !in repl ==> c !in r
    ensures |r| == |s| + (|repl| - 1) * Count(s, c)
  {
    if s == [] then []
    else (if s[0] == c then repl else [s[0]]) + ReplaceChar(s[1..], c, repl)
  }

  lemma {:induction false} ReplaceCharAppend(a: string, b: string, c: char, repl: string)
    ensures ReplaceChar(a + b, c, repl) == ReplaceChar(a, c, repl) + ReplaceChar(b, c, repl)
    decreases |a|
  {
    if a == [] {
      assert a + b == b;
    } else {
      assert (a + b)[1..] == a[1..] + b;
      ReplaceCharAppend(a[1..], b, c, repl);
    }
  }

  /** Replacing a character that does not occur changes nothing. */
  lemma {:induction false} ReplaceAbsent(s: string, c: char, repl: string)
    requires c !in s
    ensures ReplaceChar(s, c, repl) == s
    decreases |s|
  {
    if s != [] {
      assert s[0] != c;
      ReplaceAbsent(s[1..], c, repl);
    }
  }

  /** The number of occurrences of c in s. */
  function Count(s: string, c: char): nat {
    if s == [] then 0 else (if s[0] == c then 1 else 0) + Count(s[1..], c)
  }

  /** `str::strip_prefix`: the rest of s when it starts with p. */
  function StripPrefix(s: string, p: string): (r: Option<string>)
    ensures r.Some? <==> |p| <= |s| && s[..|p|] == p
    ensures r.Some? ==> s == p + r.value
  {
    if |p| <= |s| && s[..|p|] == p then Some(s[|p|..]) else None
  }

  predicate OccursAt(text: string, pat: string, i: int) {
    0 <= i && i + |pat| <= |text| && text[i..i + |pat|] == pat
  }

  /** `str::find`: the first index at or after `from` where pat occurs. */
  function FindFrom(text: string, pat: string, from: nat): (r: Option<nat>)
    requires from <= |text|
    ensures r.Some? ==> from <= r.value && OccursAt(text, pat, r.value)
    ensures r.Some? ==> forall j | from <= j < r.value :: !OccursAt(text, pat, j)
    ensures r.None? ==> forall j | from <= j <= |text| :: !OccursAt(text, pat, j)
    decreases |text| - from
  {
    if OccursAt(text, pat, from) then Some(from)
    else if from == |text| then None
    else FindFrom(text, pat, from + 1)
  }

  function Find(text: string, pat: string): (r: Option<nat>)
    ensures r.Some? ==> OccursAt(text, pat, r.value)
    ensures r.Some? ==> forall j | 0 <= j < r.value :: !OccursAt(text, pat, j)
    ensures r.None? ==> forall j | 0 <= j <= |text| :: !OccursAt(text, pat, j)
  {
    FindFrom(text, pat, 0)
  }

  /** `str::contains` */
  predicate Contains(text: string, pat: string) {
    Find(text, pat).Some?
  }

  // ---------------------------------------------------------------- ASCII case folding

  function AsciiLower(c: char): char {
    if 'A' <= c <= 'Z' then (c as int + 32) as char else c
  }

  function AsciiFold(s: string): (r: string)
    ensures |r| == |s|
    ensures forall i | 0 <= i < |s| :: r[i] == AsciiLower(s[i])
  {
    seq(|s|, i requires 0 <= i < |s| => AsciiLower(s[i]))
  }

  /** `str::eq_ignore_ascii_case` */
  predicate EqIgnoreAsciiCase(a: string, b: string) {
    |a| == |b| && forall i | 0 <= i < |a| :: AsciiLower(a[i]) == AsciiLower(b[i])
  }

  lemma EqIgnoreAsciiCaseIsFoldEquality(a: string, b: string)
    ensures EqIgnoreAsciiCase(a, b) <==> AsciiFold(a) == AsciiFold(b)
  {
    if AsciiFold(a) == AsciiFold(b) {
      forall i | 0 <= i < |a| ensures AsciiLower(a[i]) == AsciiLower(b[i]) {
        assert AsciiFold(a)[i] == AsciiFold(b)[i];
      }
    }
  }
}

/**
 * `Iterator::filter_map(..).collect()`: each item gives a value to keep, nothing, or a panic
 * that ends the whole iteration.
 */
module FilterMap {
  import opened Wrappers

  datatype Step<T> = Keep(value: T) | Skip | Panic

  /** The kept values in item order; None when some item panics. */
  function Collect<T>(steps: seq<Step<T>>): (r: Option<seq<T>>)
    ensures r.None? <==> exists i | 0 <= i < |steps| :: steps[i].Panic?
    ensures r.Some? ==> |r.value| <= |steps|
    decreases |steps|
  {
    if steps == [] then Some([])
    else
      var init := Collect(steps[..|steps| - 1]);
      var last := steps[|steps| - 1];
      assert forall i | 0 <= i < |steps| - 1 :: steps[..|steps| - 1][i] == steps[i];
      if last.Panic? || init.None? then None
      else if last.Skip? then init
      else Some(init.value + [last.value])
  }

  /** Joins what two runs of items collect to, as collecting their concatenation does. */
  function Join<T>(a: Option<seq<T>>, b: Option<seq<T>>): Option<seq<T>> {
    if a.None? || b.None? then None else Some(a.value + b.value)
  }

  /** Items are judged one by one: what a run collects to is what its two parts collect to, joined. */
  lemma {:induction false} CollectAppend<T>(a: seq<Step<T>>, b: seq<Step<T>>)
    ensures Collect(a + b) == Join(Collect(a), Collect(b))
    decreases |b|
  {
    if b == [] {
      assert a + b == a;
      if Collect(a).Some? {
        assert Collect(a).value + [] == Collect(a).value;
      }
    } else {
      var b' := b[..|b| - 1];
      CollectAppend(a, b');
      assert (a + b)[..|a + b| - 1] == a + b';
      assert (a + b)[|a + b| - 1] == b[|b| - 1];
      var ra := Collect(a);
      var rb := Collect(b');
      var last := b[|b| - 1];
      if last.Keep? && ra.Some? && rb.Some? {
        assert ra.value + (rb.value + [last.value]) == (ra.value + rb.value) + [last.value];
      }
    }
  }

  /** Without a skip or a panic, every item's value is kept, in item order. */
  lemma {:induction false} CollectAllKept<T>(steps: seq<Step<T>>)
    requires forall i | 0 <= i < |steps| :: steps[i].Keep?
    ensures Collect(steps).Some? && |Collect(steps).value| == |steps|
    ensures forall i | 0 <= i < |steps| :: Collect(steps).value[i] == steps[i].value
    decreases |steps|
  {
    if steps != [] {
      CollectAllKept(steps[..|steps| - 1]);
    }
  }

  /** What the closure f gives for each item, in item order. */
  function Judge<S, T>(items: seq<S>, f: S -> Step<T>): (r: seq<Step<T>>)
    ensures |r| == |items|
    ensures forall i | 0 <= i < |items| :: r[i] == f(items[i])
  {
    seq(|items|, i requires 0 <= i < |items| => f(items[i]))
  }

  lemma JudgeAppend<S, T>(a: seq<S>, b: seq<S>, f: S -> Step<T>)
    ensures Judge(a + b, f) == Judge(a, f) + Judge(b, f)
  {
    var r, ra, rb := Judge(a + b, f), Judge(a, f), Judge(b, f);
    assert forall i | 0 <= i < |r| :: r[i] == (ra + rb)[i];
  }
}
