/** The timestamp printer and scanner of `utils/time.cpp`. An instant is a count of clock ticks. */
module Timestamp {
  import opened Options
  import opened Decimal
  import opened Calendar

  const TICKS_PER_SECOND := 1_000_000_000
  const BUFFER_SIZE := 40

  /** `duration_cast<seconds>` drops the fraction toward zero. */
  function ToUnixSeconds(ticks: int): (secs: int) { TruncDiv(ticks, TICKS_PER_SECOND) }

  function FromUnixSeconds(secs: int): (ticks: int) { secs * TICKS_PER_SECOND }

  /** `HH:MM:SSZ` for a second of the day. */
  function TimeText(sod: int): (s: string) {
    PrintPadded(TruncDiv(sod, 3600), 2) +
    (":" + (PrintPadded(TruncDiv(TruncMod(sod, 3600), 60), 2) + (":" + (PrintPadded(TruncMod(sod, 60), 2) + "Z"))))
  }

  /** `%04lld-%02u-%02uT` and the time of day. */
  function DateText(c: Date, time: string): (s: string) {
    PrintPadded(c.year, 4) + ("-" + (PrintPadded(c.month, 2) + ("-" + (PrintPadded(c.day, 2) + ("T" + time)))))
  }

  function ToIso8601(ticks: int): (s: string) {
    var secs := ToUnixSeconds(ticks);
    var days := FloorDiv(secs, 86400);
    SnPrint(DateText(CivilFromDays(days), TimeText(secs - days * 86400)))
  }

  /** `snprintf` keeps what fits beside the terminator. */
  function SnPrint(s: string): (r: string) {
    if |s| < BUFFER_SIZE then s else s[..BUFFER_SIZE - 1]
  }

  /** A literal character of the format, then `%d`. */
  function ScanAfter(c: char, s: string): (r: Option<(int, string)>) {
    if s != "" && s[0] == c then ScanInt(s[1..]) else None
  }

  /** `%*c` (any one character, short of the end of the C string), then `%d`. */
  function ScanAfterAny(s: string): (r: Option<(int, string)>) {
    if s != "" && s[0] != '\0' then ScanInt(s[1..]) else None
  }

  /** `sscanf(value, "%d-%d-%d%*c%d:%d:%d", ...)` with all six conversions made: the date and
      the second of the day the three time fields add up to. */
  function ScanTimestamp(value: string): (r: Option<(Date, int)>) {
    var (year, s1) :- ScanInt(value);
    var (month, s2) :- ScanAfter('-', s1);
    var (day, s3) :- ScanAfter('-', s2);
    var (hour, s4) :- ScanAfterAny(s3);
    var (minute, s5) :- ScanAfter(':', s4);
    var (second, _) :- ScanAfter(':', s5);
    Some((Date(year, month, day), hour * 3600 + minute * 60 + second))
  }

  function ParsePgTimestamp(value: string): (r: Option<int>) {
    if value == "" then None else
      var (c, sod) :- ScanTimestamp(value);
      if c.month < 1 || c.month > 12 || c.day < 1 || c.day > 31 then None
      else Some(FromUnixSeconds(DaysFromCivil(c.year, c.month, c.day) * 86400 + sod))
  }

  // ----- Proofs -----

  /** Text that one `%d` turns into `n`, whatever non-digit follows it. */
  ghost predicate Reads(t: string, n: int) {
    forall rest: string {:trigger ScanInt(t + rest)} ::
      (rest == "" || !IsDigit(rest[0])) ==> ScanInt(t + rest) == Some((n, rest))
  }

  lemma PrintedReads(n: int, width: nat)
    requires INT32_MIN <= n <= INT32_MAX
    ensures Reads(PrintPadded(n, width), n)
  {
    forall rest: string | rest == "" || !IsDigit(rest[0])
      ensures ScanInt(PrintPadded(n, width) + rest) == Some((n, rest))
    {
      ScanPrinted(n, width, rest);
    }
  }

  lemma ScanAfterReads(c: char, t: string, n: int, rest: string)
    requires Reads(t, n) && (rest == "" || !IsDigit(rest[0])) && c != '\0'
    ensures ScanAfter(c, [c] + (t + rest)) == Some((n, rest)) == ScanAfterAny([c] + (t + rest))
  {
    assert ([c] + (t + rest))[1..] == t + rest;
  }

  /** Six fields between the separators of the format, with any character between date and time and any
      text but a digit after them, are read back one by one. */
  lemma ScanReads(y: string, mo: string, d: string, sep: char, h: string, mi: string, s: string, tail: string, c: Date,
                  hour: int, minute: int, second: int)
    requires Reads(y, c.year) && Reads(mo, c.month) && Reads(d, c.day)
    requires Reads(h, hour) && Reads(mi, minute) && Reads(s, second)
    requires sep != '\0' && !IsDigit(sep) && (tail == "" || !IsDigit(tail[0]))
    ensures ScanTimestamp(y + ("-" + (mo + ("-" + (d + ([sep] + (h + (":" + (mi + (":" + (s + tail))))))))))) ==
            Some((c, hour * 3600 + minute * 60 + second))
  {
    hide ScanInt, ScanAfter, ScanAfterAny;
    var s5 := ":" + (s + tail);
    var s4 := ":" + (mi + s5);
    var s3 := [sep] + (h + s4);
    var s2 := "-" + (d + s3);
    var s1 := "-" + (mo + s2);
    assert ScanInt(y + s1) == Some((c.year, s1));
    ScanAfterReads('-', mo, c.month, s2);
    ScanAfterReads('-', d, c.day, s3);
    ScanAfterReads(sep, h, hour, s4);
    ScanAfterReads(':', mi, minute, s5);
    ScanAfterReads(':', s, second, tail);
  }

  lemma SecondsSplit(sod: int)
    requires 0 <= sod < 86400
    ensures var h, m, s := TruncDiv(sod, 3600), TruncDiv(TruncMod(sod, 3600), 60), TruncMod(sod, 60);
            0 <= h <= 23 && 0 <= m <= 59 && 0 <= s <= 59 && h * 3600 + m * 60 + s == sod
  {}

  /** The scanner reads back the six fields of a printed timestamp. */
  lemma ScanReadsText(c: Date, sod: int)
    requires INT32_MIN <= c.year <= INT32_MAX && 0 <= c.month <= 99 && 0 <= c.day <= 99 && 0 <= sod < 86400
    ensures ScanTimestamp(DateText(c, TimeText(sod))) == Some((c, sod))
  {
    hide PrintPadded, Reads, ScanTimestamp;
    SecondsSplit(sod);
    var h, m, s := TruncDiv(sod, 3600), TruncDiv(TruncMod(sod, 3600), 60), TruncMod(sod, 60);
    PrintedReads(c.year, 4);
    PrintedReads(c.month, 2);
    PrintedReads(c.day, 2);
    PrintedReads(h, 2);
    PrintedReads(m, 2);
    PrintedReads(s, 2);
    ScanReads(PrintPadded(c.year, 4), PrintPadded(c.month, 2), PrintPadded(c.day, 2), 'T',
              PrintPadded(h, 2), PrintPadded(m, 2), PrintPadded(s, 2), "Z", c, h, m, s);
  }

  /** The 40-byte buffer is never too small, so nothing is cut off. */
  lemma TextFits(c: Date, sod: int)
    requires INT32_MIN <= c.year <= INT32_MAX && 0 <= c.month <= 99 && 0 <= c.day <= 99 && 0 <= sod < 86400
    ensures SnPrint(DateText(c, TimeText(sod))) == DateText(c, TimeText(sod))
  {
    hide PrintPadded;
    SecondsSplit(sod);
    PrintedLength(c.year, 4, 11);
    PrintedLength(c.month, 2, 2);
    PrintedLength(c.day, 2, 2);
    PrintedLength(TruncDiv(sod, 3600), 2, 2);
    PrintedLength(TruncDiv(TruncMod(sod, 3600), 60), 2, 2);
    PrintedLength(TruncMod(sod, 60), 2, 2);
  }

  /** The year that `to_iso8601` prints. */
  function YearOf(ticks: int): (y: int) { CivilFromDays(FloorDiv(ToUnixSeconds(ticks), 86400)).year }

  lemma ParseOfText(c: Date, sod: int)
    requires ValidDate(c) && INT32_MIN <= c.year <= INT32_MAX && 0 <= sod < 86400
    ensures ParsePgTimestamp(SnPrint(DateText(c, TimeText(sod)))) ==
            Some(FromUnixSeconds(DaysFromCivil(c.year, c.month, c.day) * 86400 + sod))
  {
    hide ScanTimestamp, DateText, SnPrint, DaysFromCivil, TimeText;
    TextFits(c, sod);
    ScanReadsText(c, sod);
    assert ScanTimestamp("").None? by { EmptyDoesNotScan(); }
  }

  lemma EmptyDoesNotScan()
    ensures ScanTimestamp("") == None
  {
    assert SkipSpace("") == "";
    assert DigitRun("") == 0;
  }

  /** Printing then parsing gives back the instant with its fraction of a second dropped, before
      1970 too; so it gives back the instant itself exactly when it is a whole second. */
  lemma ParseUndoesPrint(ticks: int)
    requires INT32_MIN <= YearOf(ticks) <= INT32_MAX
    ensures ParsePgTimestamp(ToIso8601(ticks)) == Some(FromUnixSeconds(ToUnixSeconds(ticks)))
    ensures ParsePgTimestamp(ToIso8601(ticks)) == Some(ticks) <==> ticks % TICKS_PER_SECOND == 0
  {
    hide ParsePgTimestamp, DateText, TimeText, SnPrint, CivilFromDays, DaysFromCivil, FloorDiv;
    var secs := ToUnixSeconds(ticks);
    var days := FloorDiv(secs, 86400);
    FloorDivRoundsDown(secs, 86400);
    CivilFromDaysIsInverse(days);
    ParseOfText(CivilFromDays(days), secs - days * 86400);
  }

  /** One tick after the epoch comes back as the epoch. */
  lemma FractionIsLost()
    ensures ParsePgTimestamp(ToIso8601(1)) == Some(0)
  {
    hide ParsePgTimestamp, ToIso8601;
    EpochIsDayZero();
    assert ToUnixSeconds(1) == 0 && FloorDiv(0, 86400) == 0;
    hide CivilFromDays, FloorDiv, ToUnixSeconds;
    ParseUndoesPrint(1);
  }

  // ----- The texts themselves -----

  lemma SecondsJoin(h: int, m: int, s: int)
    requires 0 <= h <= 23 && 0 <= m <= 59 && 0 <= s <= 59
    ensures var sod := h * 3600 + m * 60 + s;
            && 0 <= sod < 86400 && TruncDiv(sod, 3600) == h && TruncDiv(TruncMod(sod, 3600), 60) == m
            && TruncMod(sod, 60) == s
  {
    var sod := h * 3600 + m * 60 + s;
    SecondsSplit(sod);
  }

  lemma InstantSplits(days: int, sod: int)
    requires 0 <= sod < 86400
    ensures ToUnixSeconds(FromUnixSeconds(days * 86400 + sod)) == days * 86400 + sod
    ensures FloorDiv(days * 86400 + sod, 86400) == days
  {
    var secs := days * 86400 + sod;
    TruncDivSplits(secs * TICKS_PER_SECOND, TICKS_PER_SECOND);
    FloorDivRoundsDown(secs, 86400);
    hide TruncDiv, TruncMod, FloorDiv;
  }

  /** Six texts with the separators of the format between them. */
  function Fields(y: string, mo: string, d: string, h: string, mi: string, s: string): (t: string) {
    y + ("-" + (mo + ("-" + (d + ("T" + (h + (":" + (mi + (":" + (s + "Z"))))))))))
  }

  lemma TimeTextPrints(c: Date, h: int, m: int, s: int)
    requires 0 <= h <= 23 && 0 <= m <= 59 && 0 <= s <= 59
    ensures DateText(c, TimeText(h * 3600 + m * 60 + s)) ==
            Fields(PrintPadded(c.year, 4), PrintPadded(c.month, 2), PrintPadded(c.day, 2), PrintPadded(h, 2),
                   PrintPadded(m, 2), PrintPadded(s, 2))
  {
    hide PrintPadded, TruncDiv, TruncMod;
    SecondsJoin(h, m, s);
  }

  /** The instant of a date and a time of day. */
  function Instant(c: Date, h: int, m: int, s: int): (ticks: int) {
    FromUnixSeconds(DaysFromCivil(c.year, c.month, c.day) * 86400 + (h * 3600 + m * 60 + s))
  }

  /** A date and a time of day are printed as the year, month, day, hour, minute and second in that order. */
  lemma DateTimePrints(c: Date, h: int, m: int, s: int)
    requires ValidDate(c) && INT32_MIN <= c.year <= INT32_MAX && 0 <= h <= 23 && 0 <= m <= 59 && 0 <= s <= 59
    ensures ToIso8601(Instant(c, h, m, s)) ==
            Fields(PrintPadded(c.year, 4), PrintPadded(c.month, 2), PrintPadded(c.day, 2), PrintPadded(h, 2),
                   PrintPadded(m, 2), PrintPadded(s, 2))
  {
    hide DaysFromCivil, CivilFromDays, FloorDiv, PrintPadded, SnPrint, ToUnixSeconds, FromUnixSeconds, DateText,
         TimeText, Fields;
    var days, sod := DaysFromCivil(c.year, c.month, c.day), h * 3600 + m * 60 + s;
    SecondsJoin(h, m, s);
    InstantSplits(days, sod);
    DaysFromCivilIsInverse(c);
    TextFits(c, sod);
    TimeTextPrints(c, h, m, s);
  }

  /** For the years 0 to 9999 that is twenty characters, each field at its place with its full width. */
  lemma IsoIsFixedWidth(c: Date, h: int, m: int, s: int)
    requires ValidDate(c) && 0 <= c.year <= 9999 && 0 <= h <= 23 && 0 <= m <= 59 && 0 <= s <= 59
    ensures var t := ToIso8601(Instant(c, h, m, s));
            && |t| == 20 && t[4] == t[7] == '-' && t[10] == 'T' && t[13] == t[16] == ':' && t[19] == 'Z'
            && IsField(t[..4], c.year) && IsField(t[5..7], c.month) && IsField(t[8..10], c.day)
            && IsField(t[11..13], h) && IsField(t[14..16], m) && IsField(t[17..19], s)
  {
    hide ToIso8601, Instant, PrintPadded, Fields, IsField;
    DateTimePrints(c, h, m, s);
    FieldIsPadded(c.year, 4);
    FieldIsPadded(c.month, 2);
    FieldIsPadded(c.day, 2);
    FieldIsPadded(h, 2);
    FieldIsPadded(m, 2);
    FieldIsPadded(s, 2);
    FieldsInPlace(PrintPadded(c.year, 4), PrintPadded(c.month, 2), PrintPadded(c.day, 2), PrintPadded(h, 2),
                  PrintPadded(m, 2), PrintPadded(s, 2));
  }

  lemma FieldIsPadded(n: nat, width: nat)
    requires (width == 2 && n < 100) || (width == 4 && n < 10000)
    ensures |PrintPadded(n, width)| == width && IsField(PrintPadded(n, width), n)
  {
    assert Power10(2) == 100 && Power10(4) == 10000;
    PaddedText(n, width);
  }

  predicate IsField(t: string, n: int) { AllDigits(t) && Value(t) == n }

  lemma FieldsInPlace(y: string, mo: string, d: string, h: string, mi: string, s: string)
    requires |y| == 4 && |mo| == |d| == |h| == |mi| == |s| == 2
    ensures var t := Fields(y, mo, d, h, mi, s);
            && |t| == 20 && t[4] == t[7] == '-' && t[10] == 'T' && t[13] == t[16] == ':' && t[19] == 'Z'
            && t[..4] == y && t[5..7] == mo && t[8..10] == d && t[11..13] == h && t[14..16] == mi && t[17..19] == s
  {
    var time := TimeFields(h, mi, s);
    var t := Fields(y, mo, d, h, mi, s);
    assert t == y + ("-" + (mo + ("-" + (d + ("T" + time)))));
    hide Fields, TimeFields;
    DateInPlace(t, y, mo, d, time);
    TimeInPlace(t, h, mi, s);
  }

  function TimeFields(h: string, mi: string, s: string): (t: string) { h + (":" + (mi + (":" + (s + "Z")))) }

  lemma DateInPlace(t: string, y: string, mo: string, d: string, time: string)
    requires t == y + ("-" + (mo + ("-" + (d + ("T" + time))))) && |y| == 4 && |mo| == |d| == 2
    ensures |t| == 11 + |time| && t[4] == t[7] == '-' && t[10] == 'T'
    ensures t[..4] == y && t[5..7] == mo && t[8..10] == d && t[11..] == time
  {
    assert t[0..] == t;
    Peel(t, 0, y, "-", mo + ("-" + (d + ("T" + time))));
    Peel(t, 5, mo, "-", d + ("T" + time));
    Peel(t, 8, d, "T", time);
  }

  lemma TimeInPlace(t: string, h: string, mi: string, s: string)
    requires |t| >= 11 && t[11..] == TimeFields(h, mi, s) && |h| == |mi| == |s| == 2
    ensures |t| == 20 && t[13] == t[16] == ':' && t[19] == 'Z'
    ensures t[11..13] == h && t[14..16] == mi && t[17..19] == s
  {
    assert s + "Z" == s + ("Z" + "");
    Peel(t, 11, h, ":", mi + (":" + (s + "Z")));
    Peel(t, 14, mi, ":", s + "Z");
    Peel(t, 17, s, "Z", "");
  }

  /** The next field of a text, its separator, and what follows. */
  lemma Peel(t: string, i: nat, x: string, sep: string, rest: string)
    requires i <= |t| && t[i..] == x + (sep + rest) && |sep| == 1
    ensures |t| == i + |x| + 1 + |rest| && t[i..i + |x|] == x && t[i + |x|] == sep[0] && t[i + |x| + 1..] == rest
  {
    var u := t[i..];
    assert u[..|x|] == x && u[|x|] == sep[0] && u[|x| + 1..] == rest;
  }

  /** What the database sends, with a blank and a fraction or an offset after the seconds, say, is read as
      the same instant; a month or day out of range is refused. */
  lemma ParseReadsFields(c: Date, sep: char, h: int, m: int, s: int, tail: string)
    requires INT32_MIN <= c.year <= INT32_MAX && 0 <= c.month <= 99 && 0 <= c.day <= 99
    requires 0 <= h <= 99 && 0 <= m <= 99 && 0 <= s <= 99
    requires sep != '\0' && !IsDigit(sep) && (tail == "" || !IsDigit(tail[0]))
    ensures var t := PrintPadded(c.year, 4) + ("-" + (PrintPadded(c.month, 2) + ("-" + (PrintPadded(c.day, 2) + ([sep] +
                     (PrintPadded(h, 2) + (":" + (PrintPadded(m, 2) + (":" + (PrintPadded(s, 2) + tail))))))))));
            ParsePgTimestamp(t) ==
            if 1 <= c.month <= 12 && 1 <= c.day <= 31
            then Some(Instant(c, h, m, s))
            else None
  {
    hide PrintPadded, Reads, ScanTimestamp, DaysFromCivil;
    PrintedReads(c.year, 4);
    PrintedReads(c.month, 2);
    PrintedReads(c.day, 2);
    PrintedReads(h, 2);
    PrintedReads(m, 2);
    PrintedReads(s, 2);
    ScanReads(PrintPadded(c.year, 4), PrintPadded(c.month, 2), PrintPadded(c.day, 2), sep,
              PrintPadded(h, 2), PrintPadded(m, 2), PrintPadded(s, 2), tail, c, h, m, s);
  }
}
