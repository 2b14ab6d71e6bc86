/**
 * The two pure helpers of the extraction step that shape what the index
 * later reads: the file-name sanitiser and the publication-date converter.
 */
module Extract {
  import opened Wrappers
  import opened PyText

  // ---------------------------------------------------------------------------
  // File names
  // ---------------------------------------------------------------------------

  /** A character the pattern `[\w\-_\.=]` keeps (on ASCII text `\w` is letters, digits and `_`). */
  predicate IsNameChar(c: char) { IsWordChar(c) || c == '-' || c == '.' || c == '=' }

  /** `re.sub(r"[^\w\-_\.=]", "_", s)`: every other character becomes `_`. */
  function ReplaceOthers(s: string): (r: string)
    ensures |r| == |s|
    ensures forall i :: 0 <= i < |s| && IsNameChar(s[i]) ==> r[i] == s[i]
    ensures forall i :: 0 <= i < |s| && !IsNameChar(s[i]) ==> r[i] == '_'
  {
    seq(|s|, i requires 0 <= i < |s| => if IsNameChar(s[i]) then s[i] else '_')
  }

  /**
   * The sanitiser: NFKD-normalise, drop what is not ASCII, replace the
   * characters outside the kept class by `_`, collapse runs of `_`, and strip
   * `_` from both ends.
   */
  function SanitizeFilename(db: UnicodeDb, name: string): string {
    var ascii := AsciiOnly(db.nfkd(name));
    Strip(CollapseRuns(ReplaceOthers(ascii), IsUnderscore, '_'), IsUnderscore)
  }

  /** A name the sanitiser can produce: kept characters only, no `__`, no `_` at either end. */
  predicate CleanName(s: string) {
    && (forall i :: 0 <= i < |s| ==> IsNameChar(s[i]))
    && NoAdjacent(s, IsUnderscore)
    && (s != [] ==> s[0] != '_' && s[|s| - 1] != '_')
  }

  /** A slice of a string whose characters are kept ones, or `_`, has only kept characters. */
  lemma {:induction false} SliceNameChars(collapsed: string, replaced: string, a: nat, r: string)
    requires CharsFrom(collapsed, replaced, IsUnderscore, '_')
    requires forall c :: c in replaced ==> IsNameChar(c)
    requires a + |r| <= |collapsed| && r == collapsed[a..a + |r|]
    ensures forall i :: 0 <= i < |r| ==> IsNameChar(r[i])
  {
    forall i | 0 <= i < |r| ensures IsNameChar(r[i]) {
      assert r[i] == collapsed[a + i];
    }
  }

  /** A slice keeps the absence of `__`. */
  lemma {:induction false} SliceNoAdjacent(s: string, a: nat, r: string)
    requires NoAdjacent(s, IsUnderscore)
    requires a + |r| <= |s| && r == s[a..a + |r|]
    ensures NoAdjacent(r, IsUnderscore)
  {
    forall i | 0 <= i < |r| - 1 ensures !(IsUnderscore(r[i]) && IsUnderscore(r[i + 1])) {
      assert r[i] == s[a + i] && r[i + 1] == s[a + i + 1];
    }
  }

  /** Replacing leaves only kept characters. */
  lemma {:induction false} ReplacedNameChars(s: string)
    ensures forall c :: c in ReplaceOthers(s) ==> IsNameChar(c)
  {
  }

  /** Stripping `_` from a string of kept characters without `__` gives a clean name. */
  lemma {:induction false} StripClean(collapsed: string, replaced: string)
    requires CharsFrom(collapsed, replaced, IsUnderscore, '_')
    requires forall c :: c in replaced ==> IsNameChar(c)
    requires NoAdjacent(collapsed, IsUnderscore)
    ensures CleanName(Strip(collapsed, IsUnderscore))
  {
    var r := Strip(collapsed, IsUnderscore);
    StripSlice(collapsed, IsUnderscore);
    var a := LeadingCount(collapsed, IsUnderscore);
    SliceNameChars(collapsed, replaced, a, r);
    SliceNoAdjacent(collapsed, a, r);
  }

  /** Collapsing and stripping a string of kept characters gives a clean name. */
  lemma {:induction false} CollapseClean(replaced: string)
    requires forall c :: c in replaced ==> IsNameChar(c)
    ensures CleanName(Strip(CollapseRuns(replaced, IsUnderscore, '_'), IsUnderscore))
  {
    CollapseChars(replaced, IsUnderscore, '_');
    CollapseNoAdjacent(replaced, IsUnderscore, '_');
    StripClean(CollapseRuns(replaced, IsUnderscore, '_'), replaced);
  }

  /** Every sanitised name is clean. */
  lemma {:induction false} SanitizeIsClean(db: UnicodeDb, name: string)
    ensures CleanName(SanitizeFilename(db, name))
  {
    var ascii := AsciiOnly(db.nfkd(name));
    ReplacedNameChars(ascii);
    CollapseClean(ReplaceOthers(ascii));
  }

  /** A kept character other than `_`: what the pieces of a sanitised name are made of. */
  predicate IsNamePiece(c: char) { IsNameChar(c) && c != '_' }

  /**
   * What the sanitiser keeps: the maximal runs of kept characters other than
   * `_` in the ASCII form of the name, in order, joined by single `_`. Every
   * stretch of other characters and `_` between them becomes one `_`, and
   * none is left at either end.
   */
  lemma {:induction false} SanitizeRuns(db: UnicodeDb, name: string)
    ensures SanitizeFilename(db, name) == JoinWith('_', Runs(AsciiOnly(db.nfkd(name)), IsNamePiece))
  {
    var ascii := AsciiOnly(db.nfkd(name));
    var replaced := ReplaceOthers(ascii);
    RunsSameMask(ascii, replaced, IsNamePiece);
    var collapsed := CollapseRuns(replaced, IsUnderscore, '_');
    CollapseKeepsRuns(replaced, IsUnderscore, '_', IsNamePiece);
    StripKeepsRuns(collapsed, IsUnderscore, IsNamePiece);
    SanitizeIsClean(db, name);
    JoinOfRuns(SanitizeFilename(db, name), '_', IsUnderscore, IsNamePiece);
  }

  /**
   * One ASCII character outside the kept class, or `_`, between two pieces
   * becomes one `_`: `"a b"` is sanitised to `"a_b"`.
   */
  lemma {:induction false} SanitizeSeparatedPieces(db: UnicodeDb, a: string, c: char, b: string)
    requires NfkdFixesAscii(db)
    requires a != [] && forall i :: 0 <= i < |a| ==> IsNamePiece(a[i])
    requires b != [] && forall i :: 0 <= i < |b| ==> IsNamePiece(b[i])
    requires IsAsciiChar(c) && !IsNamePiece(c)
    ensures SanitizeFilename(db, a + [c] + b) == a + "_" + b
  {
    var s := a + [c] + b;
    assert IsAscii(s) by {
      assert forall i :: 0 <= i < |a| ==> s[i] == a[i];
      assert forall i :: 0 <= i < |b| ==> s[|a| + 1 + i] == b[i];
    }
    assert AsciiOnly(db.nfkd(s)) == s;
    SanitizeRuns(db, s);
    RunsOfTwo(a, c, b, IsNamePiece);
    JoinCons(a, '_', [b]);
  }

  /** A clean name passes through the sanitiser unchanged. */
  lemma {:induction false} SanitizeKeepsClean(db: UnicodeDb, s: string)
    requires NfkdFixesAscii(db)
    requires CleanName(s)
    ensures SanitizeFilename(db, s) == s
  {
    assert IsAscii(s) by {
      forall i | 0 <= i < |s| ensures IsAsciiChar(s[i]) {
        assert IsNameChar(s[i]);
      }
    }
    assert ReplaceOthers(s) == s;
    CollapseIdentity(s, IsUnderscore, '_');
    if s != [] {
      assert LeadingCount(s, IsUnderscore) == 0;
      assert TrailingCount(s, IsUnderscore) == 0;
    }
  }

  /** Sanitising twice is sanitising once. */
  lemma {:induction false} SanitizeIdempotent(db: UnicodeDb, name: string)
    requires NfkdFixesAscii(db)
    ensures SanitizeFilename(db, SanitizeFilename(db, name)) == SanitizeFilename(db, name)
  {
    SanitizeIsClean(db, name);
    SanitizeKeepsClean(db, SanitizeFilename(db, name));
  }

  // ---------------------------------------------------------------------------
  // Calendar dates
  // ---------------------------------------------------------------------------

  /** What the converter raises: `IndexError` from the missing `-`, `ValueError` otherwise. */
  datatype DateError = IndexError | ValueError

  datatype Date = Date(year: int, month: int, day: int)

  /** The proleptic Gregorian leap-year rule `datetime` uses. */
  predicate IsLeap(year: int) { year % 4 == 0 && (year % 100 != 0 || year % 400 == 0) }

  function DaysIn(year: int, month: int): int {
    if month == 2 then (if IsLeap(year) then 29 else 28)
    else if month == 4 || month == 6 || month == 9 || month == 11 then 30
    else 31
  }

  /** The dates `datetime(year, month, day)` accepts. */
  predicate ValidDate(d: Date) {
    1 <= d.year <= 9999 && 1 <= d.month <= 12 && 1 <= d.day <= DaysIn(d.year, d.month)
  }

  /** `datetime(year, month, day)`, which raises `ValueError` out of range. */
  function NewDate(year: int, month: int, day: int): Result<Date, DateError> {
    var d := Date(year, month, day);
    if ValidDate(d) then Success(d) else Failure(ValueError)
  }

  predicate AllDigits(s: string) { forall i :: 0 <= i < |s| ==> IsDigit(s[i]) }

  /** The value of a decimal numeral. */
  function DigitsValue(s: string): nat
    requires AllDigits(s)
    decreases |s|
  {
    if s == [] then 0 else 10 * DigitsValue(s[..|s| - 1]) + (s[|s| - 1] as int - '0' as int)
  }

  function Digit(n: int): char
    requires 0 <= n < 10
  {
    ('0' as int + n) as char
  }

  /** `n` zero-padded to two digits, as `%m` and `%d` print it. */
  function Digits2(n: int): string
    requires 0 <= n < 100
  {
    [Digit(n / 10), Digit(n % 10)]
  }

  /** `n` zero-padded to four digits, as `%Y` prints it. */
  function Digits4(n: int): string
    requires 0 <= n < 10000
  {
    Digits2(n / 100) + Digits2(n % 100)
  }

  /** `d.strftime("%Y-%m-%d")`. */
  function Format(d: Date): string
    requires ValidDate(d)
  {
    Digits4(d.year) + "-" + Digits2(d.month) + "-" + Digits2(d.day)
  }

  /** A `YYYY-mm-dd` text naming a real date. */
  predicate IsIsoDate(s: string) {
    && |s| == 10 && s[4] == '-' && s[7] == '-'
    && AllDigits(s[..4]) && AllDigits(s[5..7]) && AllDigits(s[8..])
    && ValidDate(IsoFields(s))
  }

  /** The date a `YYYY-mm-dd` text spells. */
  function IsoFields(s: string): Date
    requires |s| == 10 && AllDigits(s[..4]) && AllDigits(s[5..7]) && AllDigits(s[8..])
  {
    Date(DigitsValue(s[..4]), DigitsValue(s[5..7]), DigitsValue(s[8..]))
  }

  lemma {:induction false} DigitOf(n: int)
    requires 0 <= n < 10
    ensures IsDigit(Digit(n)) && Digit(n) as int - '0' as int == n
  {
  }

  /** Appending one digit multiplies by ten and adds it. */
  lemma {:induction false} ValueSnoc(a: string, c: char)
    requires AllDigits(a) && IsDigit(c)
    ensures AllDigits(a + [c]) && DigitsValue(a + [c]) == 10 * DigitsValue(a) + (c as int - '0' as int)
  {
    assert (a + [c])[..|a|] == a;
  }

  lemma {:induction false} Digits2Value(n: int)
    requires 0 <= n < 100
    ensures AllDigits(Digits2(n)) && DigitsValue(Digits2(n)) == n
  {
    DigitOf(n / 10);
    DigitOf(n % 10);
    ValueSnoc([], Digit(n / 10));
    ValueSnoc([Digit(n / 10)], Digit(n % 10));
    assert [] + [Digit(n / 10)] == [Digit(n / 10)];
    assert [Digit(n / 10)] + [Digit(n % 10)] == Digits2(n);
  }

  lemma {:induction false} ValueAppend2(a: string, b: string)
    requires AllDigits(a) && AllDigits(b) && |b| == 2
    ensures AllDigits(a + b) && DigitsValue(a + b) == 100 * DigitsValue(a) + DigitsValue(b)
  {
    var hi, lo := b[0] as int - '0' as int, b[1] as int - '0' as int;
    ValueSnoc([], b[0]);
    assert [] + [b[0]] == [b[0]];
    ValueSnoc([b[0]], b[1]);
    assert [b[0]] + [b[1]] == b;
    assert DigitsValue(b) == 10 * hi + lo;
    ValueSnoc(a, b[0]);
    var a1 := a + [b[0]];
    ValueSnoc(a1, b[1]);
    assert a1 + [b[1]] == a + b;
  }

  lemma {:induction false} Digits4Value(n: int)
    requires 0 <= n < 10000
    ensures AllDigits(Digits4(n)) && DigitsValue(Digits4(n)) == n
  {
    Digits2Value(n / 100);
    Digits2Value(n % 100);
    ValueAppend2(Digits2(n / 100), Digits2(n % 100));
  }

  /** Formatting a valid date gives a `YYYY-mm-dd` text that reads back as the same date. */
  lemma {:induction false} FormatIsIso(d: Date)
    requires ValidDate(d)
    ensures IsIsoDate(Format(d)) && IsoFields(Format(d)) == d
  {
    var s := Format(d);
    assert s[..4] == Digits4(d.year);
    assert s[5..7] == Digits2(d.month);
    assert s[8..] == Digits2(d.day);
    Digits4Value(d.year);
    Digits2Value(d.month);
    Digits2Value(d.day);
  }

  /** What `%d` accepts: `0[1-9]`, `[12]\d`, `3[01]` or `[1-9]`. */
  predicate DayText(s: string) {
    (|s| == 1 || |s| == 2) && AllDigits(s) && 1 <= DigitsValue(s) <= 31
  }

  /** What `%m` accepts: `0[1-9]`, `1[0-2]` or `[1-9]`. */
  predicate MonthText(s: string) {
    (|s| == 1 || |s| == 2) && AllDigits(s) && 1 <= DigitsValue(s) <= 12
  }

  /** What `%Y` accepts: four digits. */
  predicate YearText(s: string) { |s| == 4 && AllDigits(s) }

  /** `datetime.strptime(f, "%d/%m/%Y")`. */
  function ParseDayMonthYear(f: string): Result<Date, DateError> {
    var parts := Split(f, '/');
    if |parts| == 3 && DayText(parts[0]) && MonthText(parts[1]) && YearText(parts[2])
    then NewDate(DigitsValue(parts[2]), DigitsValue(parts[1]), DigitsValue(parts[0]))
    else Failure(ValueError)
  }

  /** `datetime.strptime(f, "%Y.%m")`, whose day defaults to 1. */
  function ParseYearMonth(f: string): Result<Date, DateError> {
    var parts := Split(f, '.');
    if |parts| == 2 && YearText(parts[0]) && MonthText(parts[1])
    then NewDate(DigitsValue(parts[0]), DigitsValue(parts[1]), 1)
    else Failure(ValueError)
  }

  /** `datetime(int(f), 12, 31)` for a four-character field. */
  function ParseYear(f: string): Result<Date, DateError>
    requires |f| == 4
  {
    if AllDigits(f) then NewDate(DigitsValue(f), 12, 31) else Failure(ValueError)
  }

  /** The date field read in the order the converter tests: `/` first, then `.`, then a bare year. */
  function ParseDate(f: string): (r: Result<Date, DateError>)
    ensures r.Success? ==> ValidDate(r.value)
    ensures r.Failure? ==> r.error == ValueError
    ensures '/' !in f && '.' !in f && |f| != 4 ==> r == Failure(ValueError)
  {
    if '/' in f then ParseDayMonthYear(f)
    else if '.' in f then ParseYearMonth(f)
    else if |f| == 4 then ParseYear(f)
    else Failure(ValueError)
  }

  predicate IsT(c: char) { c == 'T' }

  /** `date.split("-")[1].strip().rstrip("T")`, with the `IndexError` of a missing `-`. */
  function DateField(date: string): Result<string, DateError> {
    var parts := Split(date, '-');
    if |parts| < 2 then Failure(IndexError)
    else Success(RStrip(Strip(parts[1], IsSpace), IsT))
  }

  /** The converted form of a date field: a real date, or `ValueError`. */
  function ConvertField(f: string): (r: Result<string, DateError>)
    ensures r.Success? ==> IsIsoDate(r.value)
    ensures r.Failure? ==> r.error == ValueError
  {
    match ParseDate(f)
    case Failure(e) => Failure(e)
    case Success(d) => FormatIsIso(d); Success(Format(d))
  }

  /**
   * The publication-date converter: the field after the first `-`, read as
   * `dd/mm/YYYY`, `YYYY.mm` or `YYYY`, printed as `YYYY-mm-dd`. It fails with
   * `IndexError` exactly when there is no `-`, and what it returns is always
   * a real calendar date.
   */
  function ConvertDate(date: string): (r: Result<string, DateError>)
    ensures r == Failure(IndexError) <==> '-' !in date
    ensures r.Success? ==> IsIsoDate(r.value)
  {
    SplitHasTwoPieces(date, '-');
    match DateField(date)
    case Failure(e) => Failure(e)
    case Success(f) => ConvertField(f)
  }

  /** Blanks around a field and `T`s after it are dropped. */
  lemma {:induction false} StripFieldOf(lead: string, f: string, ts: string, trail: string)
    requires forall i :: 0 <= i < |lead| ==> IsSpace(lead[i])
    requires forall i :: 0 <= i < |trail| ==> IsSpace(trail[i])
    requires forall i :: 0 <= i < |ts| ==> ts[i] == 'T'
    requires f != [] && !IsSpace(f[0]) && !IsSpace(f[|f| - 1]) && f[|f| - 1] != 'T'
    ensures RStrip(Strip(lead + f + ts + trail, IsSpace), IsT) == f
  {
    var field := lead + f + ts + trail;
    assert field == lead + (f + ts + trail);
    LeadingCountOf(lead, f + ts + trail, IsSpace);
    assert LStrip(field, IsSpace) == f + ts + trail;
    assert f + ts + trail == (f + ts) + trail;
    TrailingCountOf(f + ts, trail, IsSpace);
    assert Strip(field, IsSpace) == f + ts;
    TrailingCountOf(f, ts, IsT);
  }

  /**
   * The field is what lies between the first `-` and the next, with blanks
   * around it and `T`s after it dropped.
   */
  lemma {:induction false} DateFieldOf(prefix: string, lead: string, f: string, ts: string, trail: string, rest: string)
    requires '-' !in prefix && '-' !in lead + f + ts + trail
    requires forall i :: 0 <= i < |lead| ==> IsSpace(lead[i])
    requires forall i :: 0 <= i < |trail| ==> IsSpace(trail[i])
    requires forall i :: 0 <= i < |ts| ==> ts[i] == 'T'
    requires f != [] && !IsSpace(f[0]) && !IsSpace(f[|f| - 1]) && f[|f| - 1] != 'T'
    requires rest == [] || rest[0] == '-'
    ensures DateField(prefix + "-" + (lead + f + ts + trail) + rest) == Success(f)
  {
    var field := lead + f + ts + trail;
    SplitFirstTwo(prefix, '-', field, rest);
    StripFieldOf(lead, f, ts, trail);
  }

  /** Every character of a numeral is a digit, so none is a separator. */
  lemma {:induction false} DigitsHaveNo(s: string, c: char)
    requires AllDigits(s) && !IsDigit(c)
    ensures c !in s
  {
  }

  /** `dd/mm/YYYY` becomes that date, or `ValueError` when the day is past the month's end or the year is 0. */
  lemma {:induction false} ParseDayMonthYearOf(dd: string, mm: string, yyyy: string)
    requires DayText(dd) && MonthText(mm) && YearText(yyyy)
    ensures ParseDate(dd + "/" + mm + "/" + yyyy)
      == NewDate(DigitsValue(yyyy), DigitsValue(mm), DigitsValue(dd))
  {
    var f := dd + "/" + mm + "/" + yyyy;
    DigitsHaveNo(dd, '/');
    DigitsHaveNo(mm, '/');
    DigitsHaveNo(yyyy, '/');
    assert JoinWith('/', [mm, yyyy]) == mm + ['/'] + yyyy;
    assert JoinWith('/', [dd, mm, yyyy]) == f;
    SplitOfJoin([dd, mm, yyyy], '/');
    assert f[|dd|] == '/';
  }

  /** `YYYY.mm` becomes the first of that month. */
  lemma {:induction false} ParseYearMonthOf(yyyy: string, mm: string)
    requires YearText(yyyy) && MonthText(mm)
    ensures ParseDate(yyyy + "." + mm) == NewDate(DigitsValue(yyyy), DigitsValue(mm), 1)
  {
    var f := yyyy + "." + mm;
    DigitsHaveNo(yyyy, '.');
    DigitsHaveNo(mm, '.');
    DigitsHaveNo(yyyy, '/');
    DigitsHaveNo(mm, '/');
    assert '/' !in f;
    assert JoinWith('.', [yyyy, mm]) == f;
    SplitOfJoin([yyyy, mm], '.');
    assert f[4] == '.';
  }

  /** A bare `YYYY` becomes the last day of that year. */
  lemma {:induction false} ParseYearOf(yyyy: string)
    requires YearText(yyyy)
    ensures ParseDate(yyyy) == NewDate(DigitsValue(yyyy), 12, 31)
  {
    DigitsHaveNo(yyyy, '/');
    DigitsHaveNo(yyyy, '.');
  }

  /**
   * Because `/` is tested first, a field holding both `/` and `.` is never
   * read as `YYYY.mm`: it fails.
   */
  lemma {:induction false} SlashBeforeDot(f: string)
    requires '/' in f && '.' in f
    ensures ParseDate(f) == Failure(ValueError)
  {
    var parts := Split(f, '/');
    if |parts| == 3 && DayText(parts[0]) && MonthText(parts[1]) && YearText(parts[2]) {
      SplitJoin(f, '/');
      JoinOfNumerals(parts);
      assert false;
    }
  }

  /** Three numerals joined by `/` hold no `.`. */
  lemma {:induction false} JoinOfNumerals(parts: seq<string>)
    requires |parts| == 3
    requires AllDigits(parts[0]) && AllDigits(parts[1]) && AllDigits(parts[2])
    ensures '.' !in JoinWith('/', parts)
  {
    assert parts[1..][1..] == [parts[2]];
    assert JoinWith('/', parts[1..]) == parts[1] + ['/'] + parts[2];
    assert JoinWith('/', parts) == parts[0] + ['/'] + (parts[1] + ['/'] + parts[2]);
    DigitsHaveNo(parts[0], '.');
    DigitsHaveNo(parts[1], '.');
    DigitsHaveNo(parts[2], '.');
  }

  /** A field of digits and separators is taken whole. */
  lemma {:induction false} PlainFieldOf(prefix: string, f: string)
    requires '-' !in prefix && '-' !in f
    requires f != [] && IsDigit(f[0]) && IsDigit(f[|f| - 1])
    ensures DateField(prefix + "-" + f) == Success(f)
  {
    assert "" + f + "" + "" == f;
    DateFieldOf(prefix, "", f, "", "", "");
    assert prefix + "-" + ("" + f + "" + "") + "" == prefix + "-" + f;
  }

  /** The whole conversion of a date whose field is `dd/mm/YYYY`. */
  lemma {:induction false} ConvertDayMonthYear(prefix: string, dd: string, mm: string, yyyy: string)
    requires '-' !in prefix
    requires DayText(dd) && MonthText(mm) && YearText(yyyy)
    ensures var d := Date(DigitsValue(yyyy), DigitsValue(mm), DigitsValue(dd));
      ConvertDate(prefix + "-" + (dd + "/" + mm + "/" + yyyy))
        == if ValidDate(d) then Success(Format(d)) else Failure(ValueError)
  {
    var f := dd + "/" + mm + "/" + yyyy;
    DigitsHaveNo(dd, '-');
    DigitsHaveNo(mm, '-');
    DigitsHaveNo(yyyy, '-');
    assert f[0] == dd[0] && f[|f| - 1] == yyyy[3];
    PlainFieldOf(prefix, f);
    ParseDayMonthYearOf(dd, mm, yyyy);
  }

  /** The whole conversion of a date whose field is `YYYY.mm`. */
  lemma {:induction false} ConvertYearMonth(prefix: string, yyyy: string, mm: string)
    requires '-' !in prefix
    requires YearText(yyyy) && MonthText(mm)
    ensures var d := Date(DigitsValue(yyyy), DigitsValue(mm), 1);
      ConvertDate(prefix + "-" + (yyyy + "." + mm))
        == if ValidDate(d) then Success(Format(d)) else Failure(ValueError)
  {
    var f := yyyy + "." + mm;
    DigitsHaveNo(yyyy, '-');
    DigitsHaveNo(mm, '-');
    assert f[0] == yyyy[0] && f[|f| - 1] == mm[|mm| - 1];
    PlainFieldOf(prefix, f);
    ParseYearMonthOf(yyyy, mm);
  }

  /** The whole conversion of a date whose field is a bare `YYYY`. */
  lemma {:induction false} ConvertYear(prefix: string, yyyy: string)
    requires '-' !in prefix
    requires YearText(yyyy)
    ensures var d := Date(DigitsValue(yyyy), 12, 31);
      ConvertDate(prefix + "-" + yyyy)
        == if ValidDate(d) then Success(Format(d)) else Failure(ValueError)
  {
    DigitsHaveNo(yyyy, '-');
    PlainFieldOf(prefix, yyyy);
    ParseYearOf(yyyy);
  }
}
