/** The names of tars: how they are printed, read back after a restart, and turned into upload keys. */
module TarNames {
  import opened Wrappers
  import opened Strings

  /** A UTC time to the second, in a year of four digits. */
  datatype Time = Time(year: nat, month: nat, day: nat, hour: nat, minute: nat, second: nat)
  {
    predicate Valid() {
      && year < 10000 && 1 <= month <= 12 && 1 <= day <= DaysIn(month, year)
      && hour < 24 && minute < 60 && second < 60
    }
  }

  function DaysIn(month: nat, year: nat): nat {
    if month == 2 then (if year % 4 == 0 && (year % 100 != 0 || year % 400 == 0) then 29 else 28)
    else if month == 4 || month == 6 || month == 9 || month == 11 then 30
    else 31
  }

  predicate IsDigit(c: char) {
    '0' <= c <= '9'
  }

  function DigitOf(d: nat): (c: char)
    requires d < 10
    ensures IsDigit(c) && ValueOf(c) == d
  {
    '0' + d as char
  }

  function ValueOf(c: char): (d: nat)
    requires IsDigit(c)
    ensures d < 10
  {
    c as int - '0' as int
  }

  lemma DigitOfValue(c: char)
    requires IsDigit(c)
    ensures DigitOf(ValueOf(c)) == c
  {
  }

  function TwoDigits(n: nat): string
    requires n < 100
  {
    [DigitOf(n / 10), DigitOf(n % 10)]
  }

  // ---------- Printing ----------

  function Field(n: nat, rest: string): string
    requires n < 100
  {
    "-" + TwoDigits(n) + rest
  }

  /** The time in the layout "2006-01-02-15-04-05". */
  function Format(t: Time): string
    requires t.Valid()
  {
    FormatWith(t, "")
  }

  function FormatWith(t: Time, suffix: string): string
    requires t.Valid()
  {
    Digits4(t.year) + Field(t.month, Field(t.day, Field(t.hour, Field(t.minute, Field(t.second, suffix)))))
  }

  function Digits4(year: nat): string
    requires year < 10000
  {
    TwoDigits(year / 100) + TwoDigits(year % 100)
  }

  /** The same with an hour of one digit. */
  function FormatShort(t: Time): string
    requires t.Valid() && t.hour < 10
  {
    ShortWith(t, "")
  }

  function ShortWith(t: Time, suffix: string): string
    requires t.Valid() && t.hour < 10
  {
    Digits4(t.year)
    + Field(t.month, Field(t.day, "-" + [DigitOf(t.hour)] + Field(t.minute, Field(t.second, suffix))))
  }

  function TarName(clusterID: string, t: Time): string
    requires t.Valid()
  {
    clusterID + "_" + Format(t) + ".tgz"
  }

  /** A number in decimal digits, with leading zeros. */
  predicate Reads(s: string, n: nat) {
    && (forall c :: c in s ==> IsDigit(c))
    && match |s|
       case 2 => n == 10 * (s[0] as int - '0' as int) + (s[1] as int - '0' as int)
       case 4 => n == 1000 * (s[0] as int - '0' as int) + 100 * (s[1] as int - '0' as int)
                      + 10 * (s[2] as int - '0' as int) + (s[3] as int - '0' as int)
       case _ => false
  }

  lemma TwoDigitsRead(n: nat)
    requires n < 100
    ensures Reads(TwoDigits(n), n)
  {
  }

  lemma Digits4Read(n: nat)
    requires n < 10000
    ensures Reads(Digits4(n), n)
  {
    TwoDigitsRead(n / 100);
    TwoDigitsRead(n % 100);
    var s, t := TwoDigits(n / 100), TwoDigits(n % 100);
    assert (s + t)[0] == s[0] && (s + t)[1] == s[1] && (s + t)[2] == t[0] && (s + t)[3] == t[1];
  }

  lemma DashedPlaces(year: string, month: string, day: string, hour: string, minute: string, second: string)
    requires |year| == 4 && |month| == |day| == |hour| == |minute| == |second| == 2
    ensures
      var s := year + ("-" + month + ("-" + day + ("-" + hour + ("-" + minute + ("-" + second + "")))));
      && |s| == 19 && s[..4] == year && s[5..7] == month && s[8..10] == day && s[11..13] == hour && s[14..16] == minute
      && s[17..] == second && s[4] == s[7] == s[10] == s[13] == s[16] == '-'
  {
  }

  /** The layout of a stamp: year, month, day, hour, minute and second, with dashes between them. */
  lemma StampPlaces(t: Time)
    requires t.Valid()
    ensures
      var s := Format(t);
      && |s| == 19 && s[4] == s[7] == s[10] == s[13] == s[16] == '-'
      && Reads(s[..4], t.year) && Reads(s[5..7], t.month) && Reads(s[8..10], t.day)
      && Reads(s[11..13], t.hour) && Reads(s[14..16], t.minute) && Reads(s[17..], t.second)
  {
    Digits4Read(t.year);
    TwoDigitsRead(t.month);
    TwoDigitsRead(t.day);
    TwoDigitsRead(t.hour);
    TwoDigitsRead(t.minute);
    TwoDigitsRead(t.second);
    DashedPlaces(Digits4(t.year), TwoDigits(t.month), TwoDigits(t.day), TwoDigits(t.hour), TwoDigits(t.minute), TwoDigits(t.second));
  }

  // ---------- Parsing ----------

  /** One or two digits, two if they are fixed, and what follows. */
  function Num(s: string, fixed: bool): Option<(nat, string)> {
    if s == "" || !IsDigit(s[0]) then None
    else if |s| == 1 || !IsDigit(s[1]) then (if fixed then None else Some((ValueOf(s[0]), s[1..])))
    else Some((10 * ValueOf(s[0]) + ValueOf(s[1]), s[2..]))
  }

  function DashNum(s: string, fixed: bool): Option<(nat, string)> {
    if s == "" || s[0] != '-' then None else Num(s[1..], fixed)
  }

  function ParseYear(s: string): Option<(nat, string)> {
    if |s| < 4 || !(IsDigit(s[0]) && IsDigit(s[1]) && IsDigit(s[2]) && IsDigit(s[3])) then None
    else Some((1000 * ValueOf(s[0]) + 100 * ValueOf(s[1]) + 10 * ValueOf(s[2]) + ValueOf(s[3]), s[4..]))
  }

  /** A fraction of a second may follow although the layout has none. */
  predicate IsFraction(s: string) {
    |s| >= 2 && (s[0] == '.' || s[0] == ',') && forall i :: 1 <= i < |s| ==> IsDigit(s[i])
  }

  /** Everything after the date, to the second. */
  function ParseClock(s: string): Option<(nat, nat, nat)> {
    var hour := DashNum(s, false);
    if hour == None then None
    else
      var minute := DashNum(hour.value.1, true);
      if minute == None then None
      else
        var second := DashNum(minute.value.1, true);
        if second == None || !(second.value.1 == "" || IsFraction(second.value.1)) then None
        else Some((hour.value.0, minute.value.0, second.value.0))
  }

  function ParseTime(s: string): Option<Time> {
    var year := ParseYear(s);
    if year == None then None
    else
      var month := DashNum(year.value.1, true);
      if month == None then None
      else
        var day := DashNum(month.value.1, true);
        if day == None then None
        else
          var clock := ParseClock(day.value.1);
          if clock == None then None
          else
            var t := Time(year.value.0, month.value.0, day.value.0, clock.value.0, clock.value.1, clock.value.2);
            if t.Valid() then Some(t) else None
  }

  lemma FieldParsed(n: nat, rest: string, fixed: bool)
    requires n < 100
    ensures DashNum(Field(n, rest), fixed) == Some((n, rest))
  {
    var s := Field(n, rest);
    assert s[1..] == TwoDigits(n) + rest;
    assert s[1..][2..] == rest;
  }

  lemma ParsedField(s: string, fixed: bool)
    requires DashNum(s, fixed).Some?
    ensures
      var (n, rest) := DashNum(s, fixed).value;
      || (n < 100 && s == Field(n, rest))
      || (!fixed && n < 10 && s == "-" + [DigitOf(n)] + rest && (rest == "" || !IsDigit(rest[0])))
  {
    var digits := s[1..];
    assert s == "-" + digits;
    DigitOfValue(digits[0]);
    if |digits| > 1 && IsDigit(digits[1]) {
      DigitOfValue(digits[1]);
      var n := 10 * ValueOf(digits[0]) + ValueOf(digits[1]);
      assert n / 10 == ValueOf(digits[0]) && n % 10 == ValueOf(digits[1]);
      assert digits == TwoDigits(n) + digits[2..];
    } else {
      assert digits == [digits[0]] + digits[1..];
    }
  }

  lemma ShortParsed(n: nat, rest: string)
    requires n < 10 && (rest == "" || !IsDigit(rest[0]))
    ensures DashNum("-" + [DigitOf(n)] + rest, false) == Some((n, rest))
  {
    var s := "-" + [DigitOf(n)] + rest;
    assert s[1..] == [DigitOf(n)] + rest;
    assert s[1..][1..] == rest;
  }

  lemma YearParsed(year: nat, rest: string)
    requires year < 10000
    ensures ParseYear(Digits4(year) + rest) == Some((year, rest))
  {
    var s := Digits4(year) + rest;
    assert s[4..] == rest;
    var high, low := year / 100, year % 100;
    assert year == 100 * high + low && high == 10 * (high / 10) + high % 10 && low == 10 * (low / 10) + low % 10;
  }

  lemma ParsedYear(s: string)
    requires ParseYear(s).Some?
    ensures ParseYear(s).value.0 < 10000 && s == Digits4(ParseYear(s).value.0) + ParseYear(s).value.1
  {
    var a, b, c, d := ValueOf(s[0]), ValueOf(s[1]), ValueOf(s[2]), ValueOf(s[3]);
    var high, low := 10 * a + b, 10 * c + d;
    var year := 100 * high + low;
    assert year / 100 == high && year % 100 == low;
    assert high / 10 == a && high % 10 == b && low / 10 == c && low % 10 == d;
    DigitOfValue(s[0]);
    DigitOfValue(s[1]);
    DigitOfValue(s[2]);
    DigitOfValue(s[3]);
    assert s[..4] == Digits4(year);
    assert s == s[..4] + s[4..];
  }

  lemma FormatParsed(t: Time, fraction: string)
    requires t.Valid() && (fraction == "" || IsFraction(fraction))
    ensures ParseTime(FormatWith(t, fraction)) == Some(t)
  {
    var clock := Field(t.hour, Field(t.minute, Field(t.second, fraction)));
    YearParsed(t.year, Field(t.month, Field(t.day, clock)));
    FieldParsed(t.month, Field(t.day, clock), true);
    FieldParsed(t.day, clock, true);
    FieldParsed(t.hour, Field(t.minute, Field(t.second, fraction)), false);
    FieldParsed(t.minute, Field(t.second, fraction), true);
    FieldParsed(t.second, fraction, true);
  }

  lemma ShortFormatParsed(t: Time, fraction: string)
    requires t.Valid() && t.hour < 10 && (fraction == "" || IsFraction(fraction))
    ensures ParseTime(ShortWith(t, fraction)) == Some(t)
  {
    var rest := Field(t.minute, Field(t.second, fraction));
    var clock := "-" + [DigitOf(t.hour)] + rest;
    YearParsed(t.year, Field(t.month, Field(t.day, clock)));
    FieldParsed(t.month, Field(t.day, clock), true);
    FieldParsed(t.day, clock, true);
    ShortParsed(t.hour, rest);
    FieldParsed(t.minute, Field(t.second, fraction), true);
    FieldParsed(t.second, fraction, true);
  }

  lemma ParsedClock(s: string) returns (fraction: string)
    requires ParseClock(s).Some?
    ensures fraction == "" || IsFraction(fraction)
    ensures
      var (hour, minute, second) := ParseClock(s).value;
      && hour < 100 && minute < 100 && second < 100
      && (s == Field(hour, Field(minute, Field(second, fraction)))
          || (hour < 10 && s == "-" + [DigitOf(hour)] + Field(minute, Field(second, fraction))))
  {
    var s1 := DashNum(s, false).value.1;
    var s2 := DashNum(s1, true).value.1;
    fraction := DashNum(s2, true).value.1;
    ParsedField(s, false);
    ParsedField(s1, true);
    ParsedField(s2, true);
  }

  lemma ParsedIsFormatted(s: string) returns (fraction: string)
    requires ParseTime(s).Some?
    ensures fraction == "" || IsFraction(fraction)
    ensures
      var t := ParseTime(s).value;
      t.Valid() && (s == FormatWith(t, fraction) || (t.hour < 10 && s == ShortWith(t, fraction)))
  {
    var t := ParseTime(s).value;
    var s1 := ParseYear(s).value.1;
    var s2 := DashNum(s1, true).value.1;
    var s3 := DashNum(s2, true).value.1;
    ParsedYear(s);
    ParsedField(s1, true);
    ParsedField(s2, true);
    fraction := ParsedClock(s3);
  }

  lemma FieldSuffix(n: nat, rest: string, suffix: string)
    requires n < 100
    ensures Field(n, rest) + suffix == Field(n, rest + suffix)
  {
  }

  lemma FormatWithSuffix(t: Time, suffix: string)
    requires t.Valid()
    ensures Format(t) + suffix == FormatWith(t, suffix)
  {
    var s5 := Field(t.second, "");
    var s4 := Field(t.minute, s5);
    var s3 := Field(t.hour, s4);
    var s2 := Field(t.day, s3);
    var s1 := Field(t.month, s2);
    FieldSuffix(t.second, "", suffix);
    FieldSuffix(t.minute, s5, suffix);
    FieldSuffix(t.hour, s4, suffix);
    FieldSuffix(t.day, s3, suffix);
    FieldSuffix(t.month, s2, suffix);
    assert "" + suffix == suffix;
    assert (Digits4(t.year) + s1) + suffix == Digits4(t.year) + (s1 + suffix);
  }

  lemma ShortWithSuffix(t: Time, suffix: string)
    requires t.Valid() && t.hour < 10
    ensures FormatShort(t) + suffix == ShortWith(t, suffix)
  {
    var s5 := Field(t.second, "");
    var s4 := Field(t.minute, s5);
    var s3 := "-" + [DigitOf(t.hour)] + s4;
    var s2 := Field(t.day, s3);
    var s1 := Field(t.month, s2);
    FieldSuffix(t.second, "", suffix);
    FieldSuffix(t.minute, s5, suffix);
    assert s3 + suffix == "-" + [DigitOf(t.hour)] + (s4 + suffix);
    FieldSuffix(t.day, s3, suffix);
    FieldSuffix(t.month, s2, suffix);
    assert "" + suffix == suffix;
    assert (Digits4(t.year) + s1) + suffix == Digits4(t.year) + (s1 + suffix);
  }

  /**
   * A stamp reads as a time, to the second, if and only if it is that time in the layout, but for an
   * hour of one digit and for a fraction of a second.
   */
  lemma ParseTimeExactly(s: string, t: Time)
    ensures ParseTime(s) == Some(t)
            <==> t.Valid() && exists fraction ::
                   && (fraction == "" || IsFraction(fraction))
                   && (s == Format(t) + fraction || (t.hour < 10 && s == FormatShort(t) + fraction))
  {
    if ParseTime(s) == Some(t) {
      var fraction := ParsedIsFormatted(s);
      FormatWithSuffix(t, fraction);
      if t.hour < 10 {
        ShortWithSuffix(t, fraction);
      }
    }
    if t.Valid() {
      forall fraction | fraction == "" || IsFraction(fraction)
        ensures ParseTime(Format(t) + fraction) == Some(t)
        ensures t.hour < 10 ==> ParseTime(FormatShort(t) + fraction) == Some(t)
      {
        FormatParsed(t, fraction);
        FormatWithSuffix(t, fraction);
        if t.hour < 10 {
          ShortFormatParsed(t, fraction);
          ShortWithSuffix(t, fraction);
        }
      }
    }
  }

  // ---------- After a restart ----------

  function TrimTgz(s: string): string {
    if |s| >= 4 && s[|s| - 4..] == ".tgz" then s[..|s| - 4] else s
  }

  /** The time that recovery reads off the path of a tar. */
  function RecoveredTime(path: string): Option<Time> {
    var parts := Split(path, '_');
    ParseTime(TrimTgz(parts[|parts| - 1]))
  }

  predicate StampOnly(s: string) {
    forall c :: c in s ==> IsDigit(c) || c == '-'
  }

  lemma FieldIsStamp(n: nat, rest: string)
    requires n < 100 && StampOnly(rest)
    ensures StampOnly(Field(n, rest))
  {
  }

  lemma FormatIsStamp(t: Time)
    requires t.Valid()
    ensures StampOnly(Format(t))
  {
    FieldIsStamp(t.second, "");
    FieldIsStamp(t.minute, Field(t.second, ""));
    FieldIsStamp(t.hour, Field(t.minute, Field(t.second, "")));
    FieldIsStamp(t.day, Field(t.hour, Field(t.minute, Field(t.second, ""))));
    FieldIsStamp(t.month, Field(t.day, Field(t.hour, Field(t.minute, Field(t.second, "")))));
  }

  /** Whatever the directory and the cluster ID, recovery reads the second that was printed. */
  lemma TarNameRoundTrip(dir: string, clusterID: string, t: Time)
    requires t.Valid()
    ensures RecoveredTime(dir + "/" + TarName(clusterID, t)) == Some(t)
  {
    var front, stamp := dir + "/" + clusterID, Format(t) + ".tgz";
    assert dir + "/" + TarName(clusterID, t) == front + "_" + stamp;
    FormatIsStamp(t);
    assert '_' !in stamp;
    SplitSum(front, '_', stamp);
    assert stamp[|stamp| - 4..] == ".tgz" && stamp[..|stamp| - 4] == Format(t);
    FormatParsed(t, "");
  }

  // ---------- The upload key ----------

  datatype KeyResult = Key(key: string) | Rejected | Panicked

  function KeyOf(clusterUID: string, year: string, month: string, day: string, hour: string, minute: string): string {
    "production/data/metrics-agent/" + year + "/" + month + "/" + day + "/" + clusterUID + "/"
    + clusterUID + "-" + year + month + day + "-" + hour + "-" + minute + ".tgz"
  }

  function KeyOfStamp(stamp: string, clusterUID: string): KeyResult {
    var segments := Split(stamp, '-');
    var n := |segments|;
    if n < 5 then Rejected
    else if n < 6 then Panicked
    else Key(KeyOf(clusterUID, segments[n - 6], segments[n - 5], segments[n - 4], segments[n - 3], segments[n - 2]))
  }

  /** Five segments pass the check, but the year is looked up as the sixth from the end. */
  function GenerateSampleKey(fileName: string, clusterUID: string): KeyResult {
    var withoutID := Split(fileName, '_');
    if |withoutID| < 2 then Rejected else KeyOfStamp(withoutID[1], clusterUID)
  }

  lemma SplitField(a: string, n: nat, rest: string)
    requires '-' !in a && n < 100
    ensures Split(a + Field(n, rest), '-') == [a] + Split(TwoDigits(n) + rest, '-')
  {
    assert a + Field(n, rest) == a + "-" + (TwoDigits(n) + rest);
    SplitFront(a, '-', TwoDigits(n) + rest);
  }

  lemma SplitDigits(n: nat, next: nat, rest: string)
    requires n < 100 && next < 100
    ensures Split(TwoDigits(n) + Field(next, rest), '-') == [TwoDigits(n)] + Split(TwoDigits(next) + rest, '-')
  {
    SplitField(TwoDigits(n), next, rest);
  }

  lemma LastSegment(n: nat)
    requires n < 100
    ensures Split(TwoDigits(n) + ".tgz", '-') == [TwoDigits(n) + ".tgz"]
  {
    assert '-' !in TwoDigits(n) && '-' !in ".tgz";
  }

  lemma ClockSegments(day: nat, hour: nat, minute: nat, second: nat)
    requires day < 100 && hour < 100 && minute < 100 && second < 100
    ensures Split(TwoDigits(day) + Field(hour, Field(minute, Field(second, ".tgz"))), '-')
            == [TwoDigits(day)] + [TwoDigits(hour)] + [TwoDigits(minute)] + [TwoDigits(second) + ".tgz"]
  {
    SplitDigits(day, hour, Field(minute, Field(second, ".tgz")));
    SplitDigits(hour, minute, Field(second, ".tgz"));
    SplitDigits(minute, second, ".tgz");
    LastSegment(second);
  }

  lemma DateSegments(year: nat, month: nat, day: nat, rest: string)
    requires year < 10000 && month < 100 && day < 100
    ensures Split(Digits4(year) + Field(month, Field(day, rest)), '-')
            == [Digits4(year)] + ([TwoDigits(month)] + Split(TwoDigits(day) + rest, '-'))
  {
    SplitField(Digits4(year), month, Field(day, rest));
    SplitDigits(month, day, rest);
  }

  /** The segments of a stamp with its suffix. */
  function Segments(t: Time): seq<string>
    requires t.Valid()
  {
    [Digits4(t.year), TwoDigits(t.month), TwoDigits(t.day), TwoDigits(t.hour), TwoDigits(t.minute),
     TwoDigits(t.second) + ".tgz"]
  }

  lemma SixInAll(a: string, b: string, c: string, d: string, e: string, f: string)
    ensures [a] + ([b] + ([c] + [d] + [e] + [f])) == [a, b, c, d, e, f]
  {
  }

  lemma StampSegments(t: Time)
    requires t.Valid()
    ensures Split(Format(t) + ".tgz", '-') == Segments(t)
  {
    var year, month, day, last := Digits4(t.year), TwoDigits(t.month), TwoDigits(t.day), TwoDigits(t.second) + ".tgz";
    FormatWithSuffix(t, ".tgz");
    DateSegments(t.year, t.month, t.day, Field(t.hour, Field(t.minute, Field(t.second, ".tgz"))));
    ClockSegments(t.day, t.hour, t.minute, t.second);
    SixInAll(year, month, day, TwoDigits(t.hour), TwoDigits(t.minute), last);
  }

  function KeyFor(t: Time, clusterUID: string): string
    requires t.Valid()
  {
    KeyOf(clusterUID, Digits4(t.year), TwoDigits(t.month), TwoDigits(t.day), TwoDigits(t.hour), TwoDigits(t.minute))
  }

  lemma KeyOfOwnStamp(t: Time, clusterUID: string)
    requires t.Valid()
    ensures KeyOfStamp(Format(t) + ".tgz", clusterUID) == Key(KeyFor(t, clusterUID))
  {
    StampSegments(t);
  }

  lemma StampBehindID(clusterID: string, t: Time)
    requires t.Valid() && '_' !in clusterID
    ensures Split(TarName(clusterID, t), '_') == [clusterID, Format(t) + ".tgz"]
  {
    var stamp := Format(t) + ".tgz";
    assert TarName(clusterID, t) == clusterID + "_" + stamp;
    FormatIsStamp(t);
    assert '_' !in stamp;
    SplitFront(clusterID, '_', stamp);
  }

  /** For a cluster ID without underscores every tar has a key, that of its minute. */
  lemma KeyOfTar(clusterID: string, t: Time, clusterUID: string)
    requires t.Valid() && '_' !in clusterID
    ensures GenerateSampleKey(TarName(clusterID, t), clusterUID) == Key(KeyFor(t, clusterUID))
  {
    StampBehindID(clusterID, t);
    KeyOfOwnStamp(t, clusterUID);
  }

  /** With an underscore in it, the time is not looked at: all of its tars fare the same. */
  lemma UnderscoreHidesTime(clusterID: string, t: Time, u: Time, clusterUID: string)
    requires t.Valid() && u.Valid() && '_' in clusterID
    ensures GenerateSampleKey(TarName(clusterID, t), clusterUID) == GenerateSampleKey(TarName(clusterID, u), clusterUID)
    ensures GenerateSampleKey(TarName(clusterID, t), clusterUID) == KeyOfStamp(Split(clusterID, '_')[1], clusterUID)
  {
    assert TarName(clusterID, t) == clusterID + "_" + (Format(t) + ".tgz");
    assert TarName(clusterID, u) == clusterID + "_" + (Format(u) + ".tgz");
    SplitSum(clusterID, '_', Format(t) + ".tgz");
    SplitSum(clusterID, '_', Format(u) + ".tgz");
    assert |Split(clusterID, '_')| >= 2;
  }

  lemma DigitsDetermine(m: nat, n: nat)
    requires m < 100 && n < 100 && TwoDigits(m) == TwoDigits(n)
    ensures m == n
  {
    FieldParsed(m, "", true);
    FieldParsed(n, "", true);
  }

  lemma DirectoryPlaces(year: string, month: string, day: string, uid: string, name: string)
    requires |year| == 4 && |month| == 2 && |day| == 2
    ensures
      var front := "production/data/metrics-agent/" + year + "/" + month + "/" + day + "/" + uid + "/";
      && |front| == 42 + |uid|
      && (front + name)[30..34] == year && (front + name)[35..37] == month && (front + name)[38..40] == day
      && (front + name)[41..41 + |uid|] == uid && (front + name)[42 + |uid|..] == name
  {
    assert |"production/data/metrics-agent/"| == 30;
  }

  lemma FilePlaces(year: string, month: string, day: string, hour: string, minute: string, uid: string)
    requires |year| == 4 && |month| == 2 && |day| == 2 && |hour| == 2 && |minute| == 2
    ensures
      var name := uid + "-" + year + month + day + "-" + hour + "-" + minute + ".tgz";
      var u := |uid|;
      && |name| == u + 19 && name[..u] == uid
      && name[u + 1..u + 5] == year && name[u + 5..u + 7] == month && name[u + 7..u + 9] == day
      && name[u + 10..u + 12] == hour && name[u + 13..u + 15] == minute
  {
  }

  /** Where in a key the cluster and the parts of the time stand, in the directories and in the file's name. */
  lemma KeyPlaces(t: Time, clusterUID: string)
    requires t.Valid()
    ensures
      var key, u := KeyFor(t, clusterUID), |clusterUID|;
      && |key| == 61 + 2 * u
      && key[30..34] == Digits4(t.year) && key[35..37] == TwoDigits(t.month) && key[38..40] == TwoDigits(t.day)
      && key[41..41 + u] == clusterUID
      && var name := key[42 + u..];
         && name[..u] == clusterUID
         && name[u + 1..u + 5] == Digits4(t.year) && name[u + 5..u + 7] == TwoDigits(t.month) && name[u + 7..u + 9] == TwoDigits(t.day)
         && name[u + 10..u + 12] == TwoDigits(t.hour) && name[u + 13..u + 15] == TwoDigits(t.minute)
  {
    var year, month, day := Digits4(t.year), TwoDigits(t.month), TwoDigits(t.day);
    var hour, minute := TwoDigits(t.hour), TwoDigits(t.minute);
    var name := clusterUID + "-" + year + month + day + "-" + hour + "-" + minute + ".tgz";
    DirectoryPlaces(year, month, day, clusterUID, name);
    FilePlaces(year, month, day, hour, minute, clusterUID);
    assert KeyFor(t, clusterUID)
        == ("production/data/metrics-agent/" + year + "/" + month + "/" + day + "/" + clusterUID + "/") + name;
  }

  /** Keys leave the second out: two tars share one if and only if they are of the same minute. */
  lemma KeysByMinute(t: Time, u: Time, clusterUID: string)
    requires t.Valid() && u.Valid()
    ensures KeyFor(t, clusterUID) == KeyFor(u, clusterUID) <==> t == u.(second := t.second)
  {
    if KeyFor(t, clusterUID) == KeyFor(u, clusterUID) {
      KeyPlaces(t, clusterUID);
      KeyPlaces(u, clusterUID);
      DigitsDetermine(t.hour, u.hour);
      DigitsDetermine(t.minute, u.minute);
      DigitsDetermine(t.month, u.month);
      DigitsDetermine(t.day, u.day);
      YearParsed(t.year, "");
      YearParsed(u.year, "");
    }
  }

  /**
   * The upload of a tar panics if and only if its cluster ID has an underscore and five segments
   * follow it, up to the next underscore if there is one.
   */
  lemma PanicsExactly(clusterID: string, t: Time, clusterUID: string)
    requires t.Valid()
    ensures GenerateSampleKey(TarName(clusterID, t), clusterUID) == Panicked
            <==> '_' in clusterID && |Split(Split(clusterID, '_')[1], '-')| == 5
  {
    if '_' in clusterID {
      UnderscoreHidesTime(clusterID, t, t, clusterUID);
    } else {
      KeyOfTar(clusterID, t, clusterUID);
    }
  }

  lemma {:induction false} NoUnderscore(parts: seq<string>)
    requires Without(parts, '_')
    ensures '_' !in Join(parts, '-')
  {
    if |parts| > 1 {
      NoUnderscore(parts[1..]);
      assert parts[0] in parts;
    } else if |parts| == 1 {
      assert parts[0] in parts;
    }
  }

  /** For instance, five segments as those of a UUID behind an underscore: every one of its tars panics. */
  lemma FiveSegmentsPanic(front: string, parts: seq<string>, t: Time, clusterUID: string)
    requires t.Valid() && '_' !in front
    requires |parts| == 5 && Without(parts, '-') && Without(parts, '_')
    ensures GenerateSampleKey(TarName(front + "_" + Join(parts, '-'), t), clusterUID) == Panicked
  {
    var id := front + "_" + Join(parts, '-');
    assert id[|front|] == '_';
    SplitFront(front, '_', Join(parts, '-'));
    NoUnderscore(parts);
    assert Split(Join(parts, '-'), '_') == [Join(parts, '-')];
    SplitOfJoin(parts, '-');
    PanicsExactly(id, t, clusterUID);
  }

  // ---------- Names printed in another zone ----------

  function DaysBeforeMonth(month: nat, year: nat): nat {
    if month <= 1 then 0 else DaysBeforeMonth(month - 1, year) + DaysIn(month - 1, year)
  }

  function DaysBeforeYear(year: nat): nat {
    if year == 0 then 0 else DaysBeforeYear(year - 1) + DaysBeforeMonth(13, year - 1)
  }

  function DayNumber(year: nat, month: nat, day: nat): int {
    DaysBeforeYear(year) + DaysBeforeMonth(month, year) + day - 1
  }

  /** Seconds since the start of the year 0, of a wall clock in UTC. */
  function Seconds(t: Time): int {
    DayNumber(t.year, t.month, t.day) * 86400 + t.hour * 3600 + t.minute * 60 + t.second
  }

  const START := Time(0, 1, 1, 0, 0, 0)

  const END := Time(9999, 12, 31, 23, 59, 59)

  /** Midnight of the day after. */
  function NextDay(t: Time): Time {
    if t.day < DaysIn(t.month, t.year) then Time(t.year, t.month, t.day + 1, 0, 0, 0)
    else if t.month < 12 then Time(t.year, t.month + 1, 1, 0, 0, 0)
    else Time(t.year + 1, 1, 1, 0, 0, 0)
  }

  /** The wall clock a second later. */
  function NextSecond(t: Time): Time {
    if t.second < 59 then t.(second := t.second + 1)
    else if t.minute < 59 then t.(second := 0, minute := t.minute + 1)
    else if t.hour < 23 then t.(second := 0, minute := 0, hour := t.hour + 1)
    else NextDay(t)
  }

  lemma NextDayIsNext(t: Time)
    requires t.Valid() && (t.year < 9999 || t.month < 12 || t.day < 31)
    ensures NextDay(t).Valid()
    ensures DayNumber(NextDay(t).year, NextDay(t).month, NextDay(t).day) == DayNumber(t.year, t.month, t.day) + 1
  {
    if t.month == 12 {
      assert DaysBeforeMonth(13, t.year) == DaysBeforeMonth(12, t.year) + DaysIn(12, t.year);
      assert DaysBeforeMonth(1, t.year + 1) == 0;
    }
  }

  lemma NextSecondIsNext(t: Time)
    requires t.Valid() && t != END
    ensures NextSecond(t).Valid() && Seconds(NextSecond(t)) == Seconds(t) + 1
  {
    if t.hour == 23 && t.minute == 59 && t.second == 59 {
      NextDayIsNext(t);
    }
  }

  /** What the wall clock shows at an instant in a zone with the given offset. */
  predicate Shows(t: Time, instant: int, offset: int) {
    t.Valid() && Seconds(t) == instant + offset
  }

  /** It shows something at every instant that falls into the years 0 to 9999 there. */
  lemma {:induction false} ClockShows(instant: int, offset: int) returns (t: Time)
    requires 0 <= instant + offset <= Seconds(END)
    ensures Shows(t, instant, offset)
    decreases instant + offset
  {
    if instant + offset == 0 {
      t := START;
    } else {
      var before := ClockShows(instant - 1, offset);
      NextSecondIsNext(before);
      t := NextSecond(before);
    }
  }

  /** The instant that recovery takes the payload to be of, if its name parses. */
  function RecoveredInstant(path: string): Option<int> {
    match RecoveredTime(path)
    case Some(t) => Some(Seconds(t))
    case None => None
  }

  lemma InstantOfName(dir: string, clusterID: string, t: Time)
    requires t.Valid()
    ensures RecoveredInstant(dir + "/" + TarName(clusterID, t)) == Some(Seconds(t))
  {
    TarNameRoundTrip(dir, clusterID, t);
  }

  /**
   * A payload is named in UTC in a tick, and in the zone of the process when its sample is recovered;
   * the name is read back as UTC. So it always parses, as the instant that was printed if and only if
   * that zone is then at UTC.
   */
  lemma ZoneRoundTrip(dir: string, clusterID: string, t: Time, instant: int, offset: int)
    requires Shows(t, instant, offset)
    ensures RecoveredInstant(dir + "/" + TarName(clusterID, t)) == Some(instant + offset)
    ensures RecoveredInstant(dir + "/" + TarName(clusterID, t)) == Some(instant) <==> offset == 0
  {
    InstantOfName(dir, clusterID, t);
  }

  /** The verdict on a name that parses: older than the recovery period. */
  predicate Expired(now: int, path: string, recoveryPeriod: int) {
    RecoveredInstant(path).Some? && now - RecoveredInstant(path).value > recoveryPeriod
  }

  /**
   * A payload of a recovered sample is deleted as expired, or kept although it is, if and only if its
   * age is closer to the recovery period than the offset.
   */
  lemma ZoneMovesExpiry(dir: string, clusterID: string, t: Time, instant: int, offset: int, now: int, recoveryPeriod: int)
    requires Shows(t, instant, offset)
    ensures
      var path := dir + "/" + TarName(clusterID, t);
      && (Expired(now, path, recoveryPeriod) && now - instant <= recoveryPeriod
          <==> recoveryPeriod + offset < now - instant <= recoveryPeriod)
      && (!Expired(now, path, recoveryPeriod) && now - instant > recoveryPeriod
          <==> recoveryPeriod < now - instant <= recoveryPeriod + offset)
  {
    ZoneRoundTrip(dir, clusterID, t, instant, offset);
  }
}
