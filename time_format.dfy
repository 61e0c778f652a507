/** normalizeTime of the event schema: parse `H:MM`, `HH:MM`, optionally followed by
    AM or PM, convert to the 24-hour clock and print zero-padded `HH:MM`. */
module TimeFormat {
  import opened Wrappers
  import opened JsString

  datatype Period = AM | PM

  /** The capture groups of /^(\d{1,2}):(\d{2})(\s*(AM|PM))?$/i: the hour digits,
      the minute digits and the period, when one is given. */
  datatype TimeMatch = TimeMatch(hourDigits: string, minuteDigits: string, period: Option<Period>)

  /** The two errors normalizeTime throws. */
  datatype TimeError =
    | InvalidFormat   // "Invalid time format. Use HH:MM or HH:MM AM/PM"
    | InvalidValues   // "Invalid time values"

  predicate IsDigit(c: char) {
    '0' <= c <= '9'
  }

  predicate AllDigits(s: string) {
    forall i :: 0 <= i < |s| ==> IsDigit(s[i])
  }

  /** The text of group 1: one or two decimal digits. */
  predicate IsHourField(h: string) {
    1 <= |h| <= 2 && AllDigits(h)
  }

  /** Exactly two decimal digits: the text of group 2, and the printed hour. */
  predicate IsTwoDigits(m: string) {
    |m| == 2 && AllDigits(m)
  }

  /** `word` is AM or PM under the regex's case-insensitive flag. */
  predicate SpellsPeriod(word: string, p: Period) {
    |word| == 2 &&
    (match p
     case AM => word[0] == 'A' || word[0] == 'a'
     case PM => word[0] == 'P' || word[0] == 'p') &&
    (word[1] == 'M' || word[1] == 'm')
  }

  /** What the regex accepts after the minutes when a period is given: \s* then the period. */
  predicate IsPeriodTail(tail: string, p: Period) {
    |tail| >= 2 && AllWhitespace(tail[..|tail| - 2]) && SpellsPeriod(tail[|tail| - 2..], p)
  }

  function DigitValue(c: char): nat
    requires IsDigit(c)
  {
    c as int - '0' as int
  }

  function DigitChar(d: nat): (c: char)
    requires d < 10
    ensures IsDigit(c) && DigitValue(c) == d
  {
    (d + '0' as int) as char
  }

  /** parseInt of a one- or two-digit decimal string. */
  function FieldValue(s: string): (n: nat)
    requires IsHourField(s)
    ensures n < 100
  {
    if |s| == 1 then DigitValue(s[0]) else 10 * DigitValue(s[0]) + DigitValue(s[1])
  }

  /** Number.prototype.toString() in base 10. */
  function DecimalString(n: nat): (s: string)
    ensures |s| > 0 && AllDigits(s)
  {
    if n < 10 then [DigitChar(n)] else DecimalString(n / 10) + [DigitChar(n % 10)]
  }

  /** String.prototype.padStart(2, '0'). */
  function PadStart2(s: string): string {
    if |s| == 0 then "00" else if |s| < 2 then ['0'] + s else s
  }

  /** For an hour of the clock, padStart(2, '0') of its decimal text is the two digits
      that read back as that hour. */
  lemma PaddedHour(n: nat)
    requires n < 100
    ensures IsTwoDigits(PadStart2(DecimalString(n)))
    ensures FieldValue(PadStart2(DecimalString(n))) == n
  {
    if n >= 10 {
      assert DecimalString(n / 10) == [DigitChar(n / 10)];
    }
  }

  /** Group 4 after \s*: whitespace is skipped, then exactly AM or PM in any case. */
  function ParsePeriod(tail: string): (p: Option<Period>)
  {
    var word := TrimStart(tail);
    if |word| != 2 || !(word[1] == 'M' || word[1] == 'm') then None
    else if word[0] == 'A' || word[0] == 'a' then Some(AM)
    else if word[0] == 'P' || word[0] == 'p' then Some(PM)
    else None
  }

  /** Where the regex's ':' must stand: after one hour digit or after two; 0 when neither. */
  function ColonIndex(t: string): (k: nat)
    ensures k == 0 || (k + 1 <= |t| && t[k] == ':')
  {
    if |t| >= 2 && t[1] == ':' then 1 else if |t| >= 3 && t[2] == ':' then 2 else 0
  }

  /** The rest of the regex once ':' is found at index colon. */
  function MatchFrom(t: string, colon: nat): Option<TimeMatch>
    requires 0 < colon < |t|
  {
    if !AllDigits(t[..colon]) || |t| < colon + 3 || !AllDigits(t[colon + 1..colon + 3]) then None
    else if |t| == colon + 3 then Some(TimeMatch(t[..colon], t[colon + 1..colon + 3], None))
    else match ParsePeriod(t[colon + 3..])
      case None => None
      case Some(p) => Some(TimeMatch(t[..colon], t[colon + 1..colon + 3], Some(p)))
  }

  /** The match of the time regex against the trimmed input, or None when it does not match. */
  function MatchTime(t: string): Option<TimeMatch> {
    var colon := ColonIndex(t);
    if colon == 0 then None else MatchFrom(t, colon)
  }

  /** The 12-hour to 24-hour conversion; without a period the hour is kept. */
  function To24Hour(hours: nat, period: Option<Period>): nat {
    match period
    case Some(PM) => if hours != 12 then hours + 12 else hours
    case Some(AM) => if hours == 12 then 0 else hours
    case None => hours
  }

  /** The output format: two hour digits 00..23, ':', two minute digits 00..59. */
  predicate IsCanonicalTime(r: string) {
    |r| == 5 && IsTwoDigits(r[..2]) && r[2] == ':' && IsTwoDigits(r[3..]) &&
    FieldValue(r[..2]) <= 23 && FieldValue(r[3..]) <= 59
  }

  /** The printed result, `${hours.toString().padStart(2, '0')}:${minutes}`. */
  function Clock(hours: nat, minutes: string): string {
    PadStart2(DecimalString(hours)) + ":" + minutes
  }

  /** The part of normalizeTime after a successful match: convert, range-check, print. */
  function NormalizeMatch(m: TimeMatch): (r: Result<string, TimeError>)
    requires IsHourField(m.hourDigits) && IsTwoDigits(m.minuteDigits)
    ensures r.Ok? ==> IsCanonicalTime(r.value) && r.value[3..] == m.minuteDigits
    ensures r.Ok? ==> FieldValue(r.value[..2]) == To24Hour(FieldValue(m.hourDigits), m.period)
    ensures r.Err? ==> r.error == InvalidValues
    ensures r.Ok? <==> To24Hour(FieldValue(m.hourDigits), m.period) <= 23 && FieldValue(m.minuteDigits) <= 59
    ensures r.Ok? ==> r.value == Clock(To24Hour(FieldValue(m.hourDigits), m.period), m.minuteDigits)
  {
    var hours := To24Hour(FieldValue(m.hourDigits), m.period);
    var minutes := FieldValue(m.minuteDigits);
    if hours > 23 || minutes > 59 then Err(InvalidValues)
    else
      PaddedHour(hours);
      var text := Clock(hours, m.minuteDigits);
      assert text[..2] == PadStart2(DecimalString(hours)) && text[3..] == m.minuteDigits;
      Ok(text)
  }

  /** normalizeTime: either one of its two errors, or a canonical HH:MM string. */
  function NormalizeTime(s: string): (r: Result<string, TimeError>)
    ensures r.Ok? ==> IsCanonicalTime(r.value)
    ensures r == Err(InvalidFormat) <==> MatchTime(Trim(s)).None?
  {
    var t := Trim(s);
    match MatchTime(t)
    case None => Err(InvalidFormat)
    case Some(m) =>
      MatchTimeFields(t);
      NormalizeMatch(m)
  }

  lemma MatchTimeFields(t: string)
    requires MatchTime(t).Some?
    ensures IsHourField(MatchTime(t).value.hourDigits) && IsTwoDigits(MatchTime(t).value.minuteDigits)
  {}

  lemma ParsePeriodSound(tail: string)
    requires ParsePeriod(tail).Some?
    ensures IsPeriodTail(tail, ParsePeriod(tail).value)
  {
    var word := TrimStart(tail);
    TrimStartShape(tail);
    assert tail[|tail| - 2..] == word;
  }

  /** Every string the regex matches is built from its groups: the hour field, ':', the
      minute field, then nothing or whitespace and the period. */
  lemma MatchTimeSound(t: string)
    requires MatchTime(t).Some?
    ensures var x := MatchTime(t).value;
      IsHourField(x.hourDigits) && IsTwoDigits(x.minuteDigits) &&
      |t| >= |x.hourDigits| + 3 &&
      t == x.hourDigits + ":" + x.minuteDigits + t[|x.hourDigits| + 3..] &&
      (x.period.None? <==> |t| == |x.hourDigits| + 3) &&
      (x.period.Some? ==> IsPeriodTail(t[|x.hourDigits| + 3..], x.period.value))
  {
    var x := MatchTime(t).value;
    var colon := ColonIndex(t);
    assert x.hourDigits == t[..colon];
    var tail := t[colon + 3..];
    assert t == t[..colon] + [':'] + t[colon + 1..colon + 3] + tail;
    if x.period.Some? {
      assert ParsePeriod(tail) == x.period;
      ParsePeriodSound(tail);
    }
  }

  lemma ParsePeriodOfTail(spaces: string, word: string, p: Period)
    requires AllWhitespace(spaces) && SpellsPeriod(word, p)
    ensures ParsePeriod(spaces + word) == Some(p)
  {
    WhitespaceIsNotPrintable(word[0]);
    TrimStartPadded(spaces, word);
  }

  /** The hour field ends where the grammar's ':' stands. */
  lemma ColonAfterHour(h: string, rest: string)
    requires IsHourField(h)
    ensures ColonIndex(h + [':'] + rest) == |h|
  {
    var u := h + [':'] + rest;
    assert u[|h|] == ':';
    if |h| == 2 {
      assert u[1] == h[1];
    }
  }

  /** A bare `H:MM` or `HH:MM` string is matched, with the groups it was built from. */
  lemma MatchTimeCompleteBare(h: string, m: string)
    requires IsHourField(h) && IsTwoDigits(m)
    ensures MatchTime(h + ":" + m) == Some(TimeMatch(h, m, None))
  {
    var t := h + ":" + m;
    assert t == h + [':'] + m;
    ColonAfterHour(h, m);
    assert t[..|h|] == h && t[|h| + 1..|h| + 3] == m && |t| == |h| + 3;
  }

  /** A string with a period is matched, with the groups it was built from. */
  lemma MatchTimeCompletePeriod(h: string, m: string, spaces: string, word: string, p: Period)
    requires IsHourField(h) && IsTwoDigits(m) && AllWhitespace(spaces) && SpellsPeriod(word, p)
    ensures MatchTime(h + ":" + m + spaces + word) == Some(TimeMatch(h, m, Some(p)))
  {
    var u := h + ":" + m + spaces + word;
    assert u == h + [':'] + (m + spaces + word);
    ColonAfterHour(h, m + spaces + word);
    assert u[..|h|] == h && u[|h| + 1..|h| + 3] == m && u[|h| + 3..] == spaces + word;
    ParsePeriodOfTail(spaces, word, p);
    assert MatchFrom(u, |h|) == Some(TimeMatch(h, m, Some(p)));
  }

  /** The grammar's strings are left alone by trim(): they start with a digit and end
      with a digit or a letter. */
  lemma GrammarIsTrimmed(h: string, m: string, spaces: string, word: string, p: Period)
    requires IsHourField(h) && IsTwoDigits(m) && AllWhitespace(spaces) && SpellsPeriod(word, p)
    ensures IsTrimmed(h + ":" + m)
    ensures IsTrimmed(h + ":" + m + spaces + word)
  {
    var t := h + ":" + m;
    var u := h + ":" + m + spaces + word;
    WhitespaceIsNotPrintable(h[0]);
    WhitespaceIsNotPrintable(m[1]);
    WhitespaceIsNotPrintable(word[1]);
    assert t[0] == h[0] && t[|t| - 1] == m[1];
    assert u[0] == h[0] && u[|u| - 1] == word[1];
  }

  /** normalizeTime accepts only text that, once trimmed, has the shape
      digits{1,2} ':' digits{2} [whitespace (AM|PM)]; every other input fails. */
  lemma AcceptedInputMatchesGrammar(s: string)
    requires NormalizeTime(s).Ok?
    ensures var t := Trim(s); var x := MatchTime(t).value;
      MatchTime(t).Some? &&
      IsHourField(x.hourDigits) && IsTwoDigits(x.minuteDigits) &&
      t == x.hourDigits + ":" + x.minuteDigits + t[|x.hourDigits| + 3..] &&
      (x.period.None? <==> |t| == |x.hourDigits| + 3) &&
      (x.period.Some? ==> IsPeriodTail(t[|x.hourDigits| + 3..], x.period.value))
  {
    MatchTimeSound(Trim(s));
  }

  /** What normalizeTime makes of a whitespace-padded bare time: the match's groups,
      converted and range-checked. */
  lemma NormalizeBare(lead: string, h: string, m: string, trail: string)
    requires AllWhitespace(lead) && AllWhitespace(trail) && IsHourField(h) && IsTwoDigits(m)
    ensures NormalizeTime(lead + (h + ":" + m) + trail) == NormalizeMatch(TimeMatch(h, m, None))
  {
    GrammarIsTrimmed(h, m, [], "AM", AM);
    TrimPadded(lead, h + ":" + m, trail);
    MatchTimeCompleteBare(h, m);
  }

  /** What normalizeTime makes of a whitespace-padded time with a period. */
  lemma NormalizePeriod(lead: string, h: string, m: string, spaces: string, word: string, p: Period, trail: string)
    requires AllWhitespace(lead) && AllWhitespace(trail)
    requires IsHourField(h) && IsTwoDigits(m) && AllWhitespace(spaces) && SpellsPeriod(word, p)
    ensures NormalizeTime(lead + (h + ":" + m + spaces + word) + trail) == NormalizeMatch(TimeMatch(h, m, Some(p)))
  {
    GrammarIsTrimmed(h, m, spaces, word, p);
    TrimPadded(lead, h + ":" + m + spaces + word, trail);
    MatchTimeCompletePeriod(h, m, spaces, word, p);
  }

  /** The 12-hour clock as normalizeTime reads it: PM adds 12 except to 12, 12 AM is 00,
      12 PM stays 12, and without a period the hour is kept. Surrounding whitespace
      does not matter. */
  lemma TwelveHourConversion(lead: string, h: string, m: string, spaces: string, word: string, p: Period, trail: string)
    requires AllWhitespace(lead) && AllWhitespace(trail)
    requires IsHourField(h) && IsTwoDigits(m) && AllWhitespace(spaces) && SpellsPeriod(word, p)
    requires FieldValue(m) <= 59
    ensures var hour := FieldValue(h); var timed := NormalizeTime(lead + (h + ":" + m + spaces + word) + trail);
      (p == PM && hour != 12 && hour + 12 <= 23 ==> timed == Ok(Clock(hour + 12, m))) &&
      (p == PM && hour == 12 ==> timed == Ok(Clock(12, m))) &&
      (p == AM && hour == 12 ==> timed == Ok(Clock(0, m))) &&
      (p == AM && hour != 12 && hour <= 23 ==> timed == Ok(Clock(hour, m)))
    ensures var hour := FieldValue(h);
      NormalizeTime(lead + (h + ":" + m) + trail) == if hour <= 23 then Ok(Clock(hour, m)) else Err(InvalidValues)
  {
    NormalizePeriod(lead, h, m, spaces, word, p, trail);
    NormalizeBare(lead, h, m, trail);
  }

  /** Inputs of the right shape whose hour, after conversion, or whose minutes are out
      of range fail with the value error. */
  lemma OutOfRangeFails(h: string, m: string, spaces: string, word: string, p: Period)
    requires IsHourField(h) && IsTwoDigits(m) && AllWhitespace(spaces) && SpellsPeriod(word, p)
    ensures FieldValue(h) > 23 || FieldValue(m) > 59 ==> NormalizeTime(h + ":" + m) == Err(InvalidValues)
    ensures To24Hour(FieldValue(h), Some(p)) > 23 || FieldValue(m) > 59 ==>
      NormalizeTime(h + ":" + m + spaces + word) == Err(InvalidValues)
  {
    GrammarIsTrimmed(h, m, spaces, word, p);
    TrimOfTrimmed(h + ":" + m);
    TrimOfTrimmed(h + ":" + m + spaces + word);
    MatchTimeCompleteBare(h, m);
    MatchTimeCompletePeriod(h, m, spaces, word, p);
  }

  /** Two two-digit fields with the same value are the same text. */
  lemma FieldValueInjective(a: string, b: string)
    requires IsTwoDigits(a) && IsTwoDigits(b) && FieldValue(a) == FieldValue(b)
    ensures a == b
  {
    assert DigitValue(a[0]) == DigitValue(b[0]);
    assert DigitValue(a[1]) == DigitValue(b[1]);
  }

  /** A canonical time normalises to itself. */
  lemma CanonicalIsFixedPoint(r: string)
    requires IsCanonicalTime(r)
    ensures NormalizeTime(r) == Ok(r)
  {
    var h := r[..2];
    var m := r[3..];
    assert r == h + ":" + m;
    GrammarIsTrimmed(h, m, [], "AM", AM);
    TrimOfTrimmed(r);
    MatchTimeCompleteBare(h, m);
    var n := FieldValue(h);
    PaddedHour(n);
    FieldValueInjective(PadStart2(DecimalString(n)), h);
    assert Clock(n, m) == r;
  }

  /** normalizeTime is idempotent: its output normalises to itself. */
  lemma NormalizeTimeIdempotent(s: string)
    requires NormalizeTime(s).Ok?
    ensures NormalizeTime(NormalizeTime(s).value) == NormalizeTime(s)
  {
    CanonicalIsFixedPoint(NormalizeTime(s).value);
  }
}
