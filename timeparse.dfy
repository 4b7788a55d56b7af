/**
 * parseTimeDuration (internal/analyzer/parse_time_duration.go): reads an
 * OCR'd countdown such as "42d171612", "3d4h30m" or "90m10s" as a number of
 * seconds.
 *
 * The two regular expressions are modelled by what they can match. The
 * anchored compact form `^(\d+)d(\d{2})(\d{2})(\d{2})$` has exactly one parse
 * because a digit is never 'd'. The unanchored free form
 * `(?:(\d+)d)?(?:(\d+)h)?(?:(\d+)m)?(?:(\d+)s)?` always matches at position 0
 * (possibly the empty string); each optional group is taken exactly when the
 * maximal run of digits at the current position is followed by the group's
 * unit letter, since a shorter run would be followed by a digit.
 */
module TimeParse {
  import opened Text

  const SecondsPerMinute: nat := 60
  const SecondsPerHour: nat := 3600
  const SecondsPerDay: nat := 86400

  predicate IsDigit(c: char) {
    '0' <= c <= '9'
  }

  predicate AllDigits(s: string) {
    forall i :: 0 <= i < |s| ==> IsDigit(s[i])
  }

  function DigitValue(c: char): nat
    requires IsDigit(c)
  {
    c as int - '0' as int
  }

  /** `strconv.Atoi` on a run of decimal digits. */
  function DigitsValue(s: string): nat
    requires AllDigits(s)
  {
    if s == [] then 0 else DigitsValue(s[..|s| - 1]) * 10 + DigitValue(s[|s| - 1])
  }

  /** `strings.ReplaceAll(s, " ", "")`. */
  function RemoveSpaces(s: string): (r: string)
    ensures forall i :: 0 <= i < |r| ==> r[i] != ' '
    ensures |r| <= |s|
  {
    if s == [] then [] else (if s[0] == ' ' then [] else [s[0]]) + RemoveSpaces(s[1..])
  }

  /** Removing spaces distributes over concatenation, so the other characters keep their order. */
  lemma {:induction false} RemoveSpacesAppend(a: string, b: string)
    ensures RemoveSpaces(a + b) == RemoveSpaces(a) + RemoveSpaces(b)
  {
    if a == [] {
      assert a + b == b;
    } else {
      assert (a + b)[1..] == a[1..] + b;
      RemoveSpacesAppend(a[1..], b);
    }
  }

  /** Every character other than a space is kept as often as it occurs; only the spaces go. */
  lemma {:induction false} RemoveSpacesCounts(s: string)
    ensures forall c :: c != ' ' ==> multiset(RemoveSpaces(s))[c] == multiset(s)[c]
    ensures |RemoveSpaces(s)| == |s| - multiset(s)[' ']
  {
    if s != [] {
      RemoveSpacesCounts(s[1..]);
      assert s == [s[0]] + s[1..];
      assert multiset(s) == multiset([s[0]]) + multiset(s[1..]);
    }
  }

  /** The input as both expressions see it: spaces removed, then lower-cased. */
  function Clean(s: string): string {
    Lower(RemoveSpaces(s))
  }

  /** The compact form matches the whole cleaned input. */
  predicate IsCompact(c: string) {
    |c| >= 8 && c[|c| - 7] == 'd' && AllDigits(c[..|c| - 7]) && AllDigits(c[|c| - 6..])
  }

  function CompactSeconds(c: string): nat
    requires IsCompact(c)
  {
    assert AllDigits(c[|c| - 6..|c| - 4]) && AllDigits(c[|c| - 4..|c| - 2]) && AllDigits(c[|c| - 2..]);
    DigitsValue(c[..|c| - 7]) * SecondsPerDay
      + DigitsValue(c[|c| - 6..|c| - 4]) * SecondsPerHour
      + DigitsValue(c[|c| - 4..|c| - 2]) * SecondsPerMinute
      + DigitsValue(c[|c| - 2..])
  }

  /** Length of the maximal run of digits at the start of `s`. */
  function LeadingDigits(s: string): (k: nat)
    ensures k <= |s| && AllDigits(s[..k])
    ensures k < |s| ==> !IsDigit(s[k])
  {
    if s == [] || !IsDigit(s[0]) then 0
    else
      var k := 1 + LeadingDigits(s[1..]);
      assert s[..k] == [s[0]] + s[1..][..k - 1];
      k
  }

  /** One optional group `(?:(\d+)<unit>)?`: its value (0 when absent) and the unread rest. */
  datatype Field = Field(value: nat, rest: string)

  function TakeField(s: string, unit: char): Field
    requires !IsDigit(unit)
  {
    var k := LeadingDigits(s);
    if 0 < k < |s| && s[k] == unit then Field(DigitsValue(s[..k]), s[k + 1..]) else Field(0, s)
  }

  /** The free form: the fields d, h, m, s of the longest prefix, in that fixed order. */
  function FreeSeconds(c: string): nat {
    var d := TakeField(c, 'd');
    var h := TakeField(d.rest, 'h');
    var m := TakeField(h.rest, 'm');
    var sec := TakeField(m.rest, 's');
    d.value * SecondsPerDay + h.value * SecondsPerHour + m.value * SecondsPerMinute + sec.value
  }

  /**
   * parseTimeDuration, in seconds. The final `return 0` of the source is
   * unreachable: the free form always matches. Only a cleaned text that
   * starts with a digit can give more than 0 (the converse of
   * NoLeadingGroupIsZero).
   */
  function ParseTimeDuration(s: string): (r: nat)
    ensures r > 0 ==> Clean(s) != [] && IsDigit(Clean(s)[0])
  {
    var c := Clean(s);
    if IsCompact(c) then CompactSeconds(c)
    else
      if c == [] || !IsDigit(c[0]) then
        NoFieldAtStart(c);
        FreeSeconds(c)
      else FreeSeconds(c)
  }

  /** With no digit at the start, none of the four optional groups is taken. */
  lemma NoFieldAtStart(c: string)
    requires c == [] || !IsDigit(c[0])
    ensures FreeSeconds(c) == 0
  {
    assert LeadingDigits(c) == 0;
  }

  // ---------------------------------------------------------------------------
  // Rendering durations, the inverse used to state round trips
  // ---------------------------------------------------------------------------

  function Digit(n: nat): (c: char)
    requires n < 10
    ensures IsDigit(c) && DigitValue(c) == n
  {
    ('0' as int + n) as char
  }

  /** `strconv.Itoa` on a natural number. */
  function NatToString(n: nat): (s: string)
    ensures |s| > 0 && AllDigits(s)
  {
    if n < 10 then [Digit(n)] else NatToString(n / 10) + [Digit(n % 10)]
  }

  /** Two-digit zero-padded rendering, as in the compact form's HH, MM and SS. */
  function TwoDigits(n: nat): (s: string)
    requires n < 100
    ensures |s| == 2 && AllDigits(s)
  {
    [Digit(n / 10), Digit(n % 10)]
  }

  /** One field as the free form reads it: the number, its unit letter, then what follows. */
  function Part(n: nat, unit: char, rest: string): string {
    NatToString(n) + [unit] + rest
  }

  function Render(d: nat, h: nat, m: nat, s: nat): string {
    Part(d, 'd', Part(h, 'h', Part(m, 'm', Part(s, 's', []))))
  }

  function RenderCompact(d: nat, hh: nat, mm: nat, ss: nat): string
    requires hh < 100 && mm < 100 && ss < 100
  {
    NatToString(d) + "d" + TwoDigits(hh) + TwoDigits(mm) + TwoDigits(ss)
  }

  lemma {:induction false} NatToStringValue(n: nat)
    ensures DigitsValue(NatToString(n)) == n
  {
    if n >= 10 {
      NatToStringValue(n / 10);
      var s := NatToString(n);
      assert s[..|s| - 1] == NatToString(n / 10);
    }
  }

  lemma TwoDigitsValue(n: nat)
    requires n < 100
    ensures DigitsValue(TwoDigits(n)) == n
  {
    var s := TwoDigits(n);
    assert s[..1] == [Digit(n / 10)];
    assert s[..1][..0] == [];
    assert DigitsValue(s[..1]) == n / 10;
    assert DigitsValue(s) == DigitsValue(s[..1]) * 10 + DigitValue(s[1]);
  }

  lemma {:induction false} LeadingDigitsOfRun(digits: string, rest: string)
    requires AllDigits(digits)
    requires rest == [] || !IsDigit(rest[0])
    ensures LeadingDigits(digits + rest) == |digits|
  {
    if digits != [] {
      assert (digits + rest)[1..] == digits[1..] + rest;
      LeadingDigitsOfRun(digits[1..], rest);
    } else {
      assert digits + rest == rest;
    }
  }

  lemma TakeRenderedField(n: nat, unit: char, rest: string)
    requires !IsDigit(unit)
    ensures TakeField(Part(n, unit, rest), unit) == Field(n, rest)
  {
    var ds := NatToString(n);
    var s := Part(n, unit, rest);
    assert s == ds + ([unit] + rest);
    LeadingDigitsOfRun(ds, [unit] + rest);
    assert s[..|ds|] == ds;
    assert s[|ds| + 1..] == rest;
    NatToStringValue(n);
  }

  /** A field that is not there: the text does not start with digits followed by `unit`. */
  lemma TakeAbsentField(n: nat, other: char, rest: string, unit: char)
    requires !IsDigit(other) && !IsDigit(unit) && other != unit
    ensures TakeField(Part(n, other, rest), unit) == Field(0, Part(n, other, rest))
  {
    var s := Part(n, other, rest);
    assert s == NatToString(n) + ([other] + rest);
    LeadingDigitsOfRun(NatToString(n), [other] + rest);
  }

  /** No spaces and no upper-case ASCII letters: cleaning leaves the text as it is. */
  predicate Plain(s: string) {
    forall i :: 0 <= i < |s| ==> s[i] != ' ' && !('A' <= s[i] <= 'Z')
  }

  lemma PlainConcat(a: string, b: string)
    requires Plain(a) && Plain(b)
    ensures Plain(a + b)
  {
    assert forall i :: 0 <= i < |b| ==> (a + b)[|a| + i] == b[i];
  }

  lemma CleanIdentity(s: string)
    requires Plain(s)
    ensures Clean(s) == s
  {
    RemoveSpacesIdentity(s);
    assert Lower(s) == s;
  }

  lemma {:induction false} RemoveSpacesIdentity(s: string)
    requires forall i :: 0 <= i < |s| ==> s[i] != ' '
    ensures RemoveSpaces(s) == s
  {
    if s != [] {
      RemoveSpacesIdentity(s[1..]);
    }
  }

  /** A plain text that is not in the compact form is read field by field. */
  lemma ParseFree(c: string)
    requires Plain(c) && !IsCompact(c)
    ensures ParseTimeDuration(c) == FreeSeconds(c)
  {
    CleanIdentity(c);
  }

  lemma FreeFromFields(c: string, c1: string, c2: string, c3: string, c4: string, d: nat, h: nat, m: nat, s: nat)
    requires TakeField(c, 'd') == Field(d, c1) && TakeField(c1, 'h') == Field(h, c2)
    requires TakeField(c2, 'm') == Field(m, c3) && TakeField(c3, 's') == Field(s, c4)
    ensures FreeSeconds(c) == d * SecondsPerDay + h * SecondsPerHour + m * SecondsPerMinute + s
  {
  }

  /** A rendered field is plain, and its text ends where `rest` ends, or in `unit` when nothing follows. */
  lemma PlainField(n: nat, unit: char, rest: string)
    requires unit != ' ' && !('A' <= unit <= 'Z') && Plain(rest)
    ensures var f := Part(n, unit, rest);
      Plain(f) && |f| > 0 && f[|f| - 1] == (if rest == [] then unit else rest[|rest| - 1])
  {
    PlainConcat(NatToString(n), [unit]);
    PlainConcat(NatToString(n) + [unit], rest);
  }

  /** Round trip: a duration rendered with the units d, h, m, s in order parses back to its total in seconds. */
  lemma RenderRoundTrip(d: nat, h: nat, m: nat, s: nat)
    ensures ParseTimeDuration(Render(d, h, m, s)) ==
            d * SecondsPerDay + h * SecondsPerHour + m * SecondsPerMinute + s
  {
    var sPart := Part(s, 's', []);
    var mPart := Part(m, 'm', sPart);
    var hPart := Part(h, 'h', mPart);
    var r := Part(d, 'd', hPart);
    assert ParseTimeDuration(r) == FreeSeconds(r) by {
      PlainField(s, 's', []);
      PlainField(m, 'm', sPart);
      PlainField(h, 'h', mPart);
      PlainField(d, 'd', hPart);
      EndsInUnitNotCompact(r, 's');
      ParseFree(r);
    }
    TakeRenderedField(d, 'd', hPart);
    TakeRenderedField(h, 'h', mPart);
    TakeRenderedField(m, 'm', sPart);
    TakeRenderedField(s, 's', []);
    FreeFromFields(r, hPart, mPart, sPart, [], d, h, m, s);
  }

  /** The compact form reads HH, MM and SS without any range check: 99 minutes are accepted as 99 minutes. */
  lemma CompactRoundTrip(d: nat, hh: nat, mm: nat, ss: nat)
    requires hh < 100 && mm < 100 && ss < 100
    ensures ParseTimeDuration(RenderCompact(d, hh, mm, ss)) ==
            d * SecondsPerDay + hh * SecondsPerHour + mm * SecondsPerMinute + ss
  {
    var r := RenderCompact(d, hh, mm, ss);
    CompactParts(r, NatToString(d), TwoDigits(hh), TwoDigits(mm), TwoDigits(ss));
    ParseCompact(r);
    NatToStringValue(d);
    TwoDigitsValue(hh);
    TwoDigitsValue(mm);
    TwoDigitsValue(ss);
  }

  /** Digits, a 'd' and three pairs of digits are in the compact form, and read pair by pair. */
  lemma CompactParts(c: string, ds: string, a: string, b: string, e: string)
    requires |ds| > 0 && AllDigits(ds)
    requires |a| == 2 && AllDigits(a) && |b| == 2 && AllDigits(b) && |e| == 2 && AllDigits(e)
    requires c == ds + ['d'] + a + b + e
    ensures Plain(c) && IsCompact(c)
    ensures CompactSeconds(c) ==
            DigitsValue(ds) * SecondsPerDay + DigitsValue(a) * SecondsPerHour
            + DigitsValue(b) * SecondsPerMinute + DigitsValue(e)
  {
    CompactPlain(c, ds, a, b, e);
    CompactSlices(c, ds, a, b, e);
    CompactFields(c, ds, a, b, e);
  }

  lemma CompactPlain(c: string, ds: string, a: string, b: string, e: string)
    requires AllDigits(ds) && AllDigits(a) && AllDigits(b) && AllDigits(e)
    requires c == ds + ['d'] + a + b + e
    ensures Plain(c)
  {
    DigitsPlain(ds);
    DigitsPlain(a);
    DigitsPlain(b);
    DigitsPlain(e);
    PlainConcat(ds, ['d']);
    PlainConcat(ds + ['d'], a);
    PlainConcat(ds + ['d'] + a, b);
    PlainConcat(ds + ['d'] + a + b, e);
  }

  lemma CompactSlices(c: string, ds: string, a: string, b: string, e: string)
    requires |ds| > 0 && AllDigits(ds)
    requires |a| == 2 && AllDigits(a) && |b| == 2 && AllDigits(b) && |e| == 2 && AllDigits(e)
    requires c == ds + ['d'] + a + b + e
    ensures IsCompact(c) && c[..|c| - 7] == ds && c[|c| - 6..|c| - 4] == a
    ensures c[|c| - 4..|c| - 2] == b && c[|c| - 2..] == e
  {
    MiddleSlice(ds, ['d'], a + b + e);
    assert c == ds + ['d'] + (a + b + e);
    MiddleSlice(ds + ['d'], a, b + e);
    assert c == ds + ['d'] + a + (b + e);
    MiddleSlice(ds + ['d'] + a, b, e);
    assert |c| == |ds| + 7;
    assert c[|c| - 6..] == a + b + e;
    DigitsConcat(a, b);
    DigitsConcat(a + b, e);
  }

  /** A plain text in the compact form is read by the compact expression. */
  lemma ParseCompact(c: string)
    requires Plain(c) && IsCompact(c)
    ensures ParseTimeDuration(c) == CompactSeconds(c)
  {
    CleanIdentity(c);
  }

  /** The value of a compact text, given its four fields. */
  lemma CompactFields(c: string, ds: string, a: string, b: string, e: string)
    requires IsCompact(c) && AllDigits(ds) && AllDigits(a) && AllDigits(b) && AllDigits(e)
    requires c[..|c| - 7] == ds && c[|c| - 6..|c| - 4] == a && c[|c| - 4..|c| - 2] == b && c[|c| - 2..] == e
    ensures CompactSeconds(c) == DigitsValue(ds) * SecondsPerDay + DigitsValue(a) * SecondsPerHour
            + DigitsValue(b) * SecondsPerMinute + DigitsValue(e)
  {
  }

  lemma DigitsPlain(s: string)
    requires AllDigits(s)
    ensures Plain(s)
  {
  }

  lemma DigitsConcat(s: string, t: string)
    requires AllDigits(s) && AllDigits(t)
    ensures AllDigits(s + t)
  {
    assert forall i :: 0 <= i < |t| ==> (s + t)[|s| + i] == t[i];
  }

  /** The part between a prefix and a suffix is where it was put. */
  lemma MiddleSlice(x: string, y: string, z: string)
    ensures (x + y + z)[..|x|] == x && (x + y + z)[|x|..|x| + |y|] == y && (x + y + z)[|x| + |y|..] == z
  {
  }

  /** A text that ends in a unit letter is never in the compact form. */
  lemma EndsInUnitNotCompact(c: string, unit: char)
    requires |c| > 0 && c[|c| - 1] == unit && !IsDigit(unit)
    ensures !IsCompact(c)
  {
    if |c| >= 8 {
      assert c[|c| - 6..][5] == unit;
    }
  }

  /** Days, hours and minutes without seconds. */
  lemma DaysHoursMinutesRoundTrip(d: nat, h: nat, m: nat)
    ensures ParseTimeDuration(Part(d, 'd', Part(h, 'h', Part(m, 'm', [])))) ==
            d * SecondsPerDay + h * SecondsPerHour + m * SecondsPerMinute
  {
    var mPart := Part(m, 'm', []);
    var hPart := Part(h, 'h', mPart);
    var c := Part(d, 'd', hPart);
    assert ParseTimeDuration(c) == FreeSeconds(c) by {
      PlainField(m, 'm', []);
      PlainField(h, 'h', mPart);
      PlainField(d, 'd', hPart);
      EndsInUnitNotCompact(c, 'm');
      ParseFree(c);
    }
    TakeRenderedField(d, 'd', hPart);
    TakeRenderedField(h, 'h', mPart);
    TakeRenderedField(m, 'm', []);
    assert TakeField([], 's') == Field(0, []);
    FreeFromFields(c, hPart, mPart, [], [], d, h, m, 0);
  }

  /** Minutes and seconds, with no day or hour field. */
  lemma MinutesSecondsRoundTrip(m: nat, s: nat)
    ensures ParseTimeDuration(Part(m, 'm', Part(s, 's', []))) ==
            m * SecondsPerMinute + s
  {
    var sPart := Part(s, 's', []);
    var c := Part(m, 'm', sPart);
    assert ParseTimeDuration(c) == FreeSeconds(c) by {
      PlainField(s, 's', []);
      PlainField(m, 'm', sPart);
      EndsInUnitNotCompact(c, 's');
      ParseFree(c);
    }
    TakeAbsentField(m, 'm', sPart, 'd');
    TakeAbsentField(m, 'm', sPart, 'h');
    TakeRenderedField(m, 'm', sPart);
    TakeRenderedField(s, 's', []);
    FreeFromFields(c, c, c, sPart, [], 0, 0, m, s);
  }

  /** Units out of order end the parse: minutes followed by hours read as the minutes alone. */
  lemma OutOfOrderUnitEndsParse(m: nat, h: nat)
    ensures ParseTimeDuration(Part(m, 'm', Part(h, 'h', []))) == m * SecondsPerMinute
  {
    var tail := Part(h, 'h', []);
    var c := Part(m, 'm', tail);
    assert ParseTimeDuration(c) == FreeSeconds(c) by {
      PlainField(h, 'h', []);
      PlainField(m, 'm', tail);
      EndsInUnitNotCompact(c, 'h');
      ParseFree(c);
    }
    TakeAbsentField(m, 'm', tail, 'd');
    TakeAbsentField(m, 'm', tail, 'h');
    TakeRenderedField(m, 'm', tail);
    TakeAbsentField(h, 'h', [], 's');
    FreeFromFields(c, c, c, tail, tail, 0, 0, m, 0);
  }

  /** An input that does not start with a digit (after cleaning) is read as 0. */
  lemma NoLeadingGroupIsZero(s: string)
    requires Clean(s) == [] || !IsDigit(Clean(s)[0])
    ensures ParseTimeDuration(s) == 0
  {
  }

  /** The documented compact example: 42d171612 is 42 days, 17 hours, 16 minutes and 12 seconds. */
  lemma CompactExample()
    ensures ParseTimeDuration("42d171612") == 42 * SecondsPerDay + 17 * SecondsPerHour + 16 * SecondsPerMinute + 12
  {
    assert NatToString(42) == "42";
    CompactRoundTrip(42, 17, 16, 12);
    assert RenderCompact(42, 17, 16, 12) == "42d171612";
  }
}
