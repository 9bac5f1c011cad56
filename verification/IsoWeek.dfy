/** Calendar arithmetic of the partition manager: ISO 8601 weeks, partition names,
    and reading a week back from a name. Days are counted from Monday,
    1 January of year 1 (proleptic Gregorian, UTC); instants are seconds from its midnight. */
module IsoWeek {
  import opened Basics

  const DAY: int := 86400
  const WEEK: int := 7 * DAY

  // ------------------------------------------------------------ years

  /** Days from the epoch to 1 January of a year. */
  function DaysBefore(year: int): int {
    var y := year - 1;
    365 * y + y / 4 - y / 100 + y / 400
  }

  /** The civil year of a day and the day's position in it, by 400-, 100-, 4- and
      1-year cycles. */
  function YearAndDay(day: nat): (r: (int, int))
    ensures DaysBefore(r.0) + r.1 == day
    ensures 0 <= r.1 < DaysBefore(r.0 + 1) - DaysBefore(r.0)
    ensures r.0 >= 1
  {
    var a, d1 := day / 146097, day % 146097;
    var b := if d1 / 36524 == 4 then 3 else d1 / 36524;
    var d2 := d1 - 36524 * b;
    var c, d3 := d2 / 1461, d2 % 1461;
    var e := if d3 / 365 == 4 then 3 else d3 / 365;
    CycleYears(a, b, c, e);
    (400 * a + 100 * b + 4 * c + e + 1, d3 - 365 * e)
  }

  lemma CycleYears(a: int, b: int, c: int, e: int)
    requires a >= 0 && 0 <= b <= 3 && 0 <= c <= 24 && 0 <= e <= 3
    ensures DaysBefore(400 * a + 100 * b + 4 * c + e + 1) == 146097 * a + 36524 * b + 1461 * c + 365 * e
    ensures var y := 400 * a + 100 * b + 4 * c + e + 1;
            DaysBefore(y + 1) - DaysBefore(y)
            == if e == 3 && (c < 24 || b == 3) then 366 else 365
  {
    var y := 400 * a + 100 * b + 4 * c + e;
    assert y / 4 == 100 * a + 25 * b + c && y / 100 == 4 * a + b && y / 400 == a;
    var z := y + 1;
    if e < 3 {
      assert z / 4 == 100 * a + 25 * b + c && z / 100 == 4 * a + b && z / 400 == a;
    } else if c < 24 {
      assert z == 400 * a + 100 * b + 4 * (c + 1);
      assert z / 4 == 100 * a + 25 * b + c + 1 && z / 100 == 4 * a + b && z / 400 == a;
    } else if b < 3 {
      assert z == 400 * a + 100 * (b + 1);
      assert z / 4 == 100 * a + 25 * (b + 1) && z / 100 == 4 * a + b + 1 && z / 400 == a;
    } else {
      assert z == 400 * (a + 1);
      assert z / 4 == 100 * (a + 1) && z / 100 == 4 * (a + 1) && z / 400 == a + 1;
    }
  }

  // ------------------------------------------------------------ weeks

  /** Sunday is 0, as in the source's library. */
  function Weekday(day: int): int { (day + 1) % 7 }

  function DaysSinceMonday(day: int): (r: int)
    ensures 0 <= r < 7 && (day - r) % 7 == 0
  {
    (Weekday(day) + 6) % 7
  }

  /** Midnight of the Monday on or before an instant. */
  function WeekStart(t: nat): (r: nat)
    ensures r <= t < r + WEEK && r % WEEK == 0
  {
    var day := t / DAY;
    DAY * (day - DaysSinceMonday(day))
  }

  /** The ISO year and week of a day: those of the Thursday of its week. */
  function IsoYearWeek(day: nat): (r: (int, int))
    ensures r.0 >= 1 && r.1 >= 1
  {
    var (year, yday) := YearAndDay(day - DaysSinceMonday(day) + 3);
    (year, yday / 7 + 1)
  }

  /** Midnight of the Monday of an ISO week: week one holds 4 January. */
  function IsoWeekStart(year: int, week: int): int {
    var jan4 := DaysBefore(year) + 3;
    DAY * (jan4 - DaysSinceMonday(jan4) + (week - 1) * 7)
  }

  /** The Monday of the week that a day's ISO year and week denote is the day's own Monday. */
  lemma IsoWeekRoundTrip(day: nat)
    ensures var (y, w) := IsoYearWeek(day);
      && IsoWeekStart(y, w) == DAY * (day - DaysSinceMonday(day))
      && w <= 53
  {
    hide YearAndDay, DaysBefore, Weekday;
    var monday := day - DaysSinceMonday(day);
    var (y, yday) := YearAndDay(monday + 3);
    var (a, b) := (DaysBefore(y), DaysBefore(y + 1));
    YearLength(y);
    var jan4 := a + 3;
    var first := jan4 - DaysSinceMonday(jan4);
    assert monday + 3 == a + yday;
    assert (monday - first) % 7 == 0 by { Difference(monday, first); }
    assert monday - first == yday / 7 * 7 by {
      assert a - 3 <= first <= a + 3;
      Multiple(monday - first, yday);
    }
  }

  /** The number of Thursdays among the days from one on. */
  function Thursdays(from: int, days: nat): nat {
    if days == 0 then 0
    else Thursdays(from, days - 1) + (if DaysSinceMonday(from + days - 1) == 3 then 1 else 0)
  }

  lemma {:induction false} ThursdaysCounted(from: int, days: nat)
    ensures Thursdays(from, days) == (from + days + 3) / 7 - (from + 3) / 7
  {
    hide DaysSinceMonday;
    if days > 0 {
      ThursdaysCounted(from, days - 1);
      ThursdayStep(from + days - 1);
    }
  }

  lemma ThursdayStep(day: int)
    ensures (day + 4) / 7 - (day + 3) / 7 == if DaysSinceMonday(day) == 3 then 1 else 0
  {
  }

  /** The ISO rule: a week belongs to the year of its Thursday, and its number is one more than
      the Thursdays of that year before it. So no year has a week beyond its number of Thursdays,
      which is 52 or 53. */
  lemma WeeksCountThursdays(day: nat)
    ensures var (y, w) := IsoYearWeek(day);
      var thursday := day - DaysSinceMonday(day) + 3;
      && DaysBefore(y) <= thursday < DaysBefore(y + 1)
      && w == Thursdays(DaysBefore(y), thursday - DaysBefore(y)) + 1
      && w <= Thursdays(DaysBefore(y), DaysBefore(y + 1) - DaysBefore(y))
      && 52 <= Thursdays(DaysBefore(y), DaysBefore(y + 1) - DaysBefore(y)) <= 53
  {
    hide DaysBefore, YearAndDay, Thursdays, DaysSinceMonday;
    var thursday := day - DaysSinceMonday(day) + 3;
    var (y, yday) := YearAndDay(thursday);
    var a, b := DaysBefore(y), DaysBefore(y + 1);
    IsThursday(day);
    YearLength(y);
    ThursdaysCounted(a, yday);
    ThursdaysCounted(a, b - a);
    ThursdayArithmetic(a, b, thursday);
  }

  lemma IsThursday(day: int)
    ensures (day - DaysSinceMonday(day) + 3) % 7 == 3
  {
  }

  lemma ThursdayArithmetic(a: int, b: int, thursday: int)
    requires a <= thursday < b && thursday % 7 == 3 && 365 <= b - a <= 366
    ensures (thursday - a) / 7 == (thursday + 3) / 7 - (a + 3) / 7
    ensures (thursday - a) / 7 + 1 <= (b + 3) / 7 - (a + 3) / 7
    ensures 52 <= (b + 3) / 7 - (a + 3) / 7 <= 53
  {
  }

  lemma YearLength(y: int)
    ensures 365 <= DaysBefore(y + 1) - DaysBefore(y) <= 366
  {
    LeapSteps(y);
    Divides(y);
  }

  lemma LeapSteps(y: int)
    ensures y / 4 - (y - 1) / 4 == if y % 4 == 0 then 1 else 0
    ensures y / 100 - (y - 1) / 100 == if y % 100 == 0 then 1 else 0
    ensures y / 400 - (y - 1) / 400 == if y % 400 == 0 then 1 else 0
  {
  }

  lemma Divides(y: int)
    ensures y % 400 == 0 ==> y % 100 == 0
    ensures y % 100 == 0 ==> y % 4 == 0
  {
    if y % 400 == 0 {
      var q := y / 400;
      assert y == 400 * q;
      Hundreds(4 * q);
    }
    if y % 100 == 0 {
      var q := y / 100;
      assert y == 100 * q;
      Fours(25 * q);
    }
  }

  lemma Hundreds(k: int)
    ensures (100 * k) % 100 == 0
  {
  }

  lemma Fours(k: int)
    ensures (4 * k) % 4 == 0
  {
  }

  lemma Difference(x: int, y: int)
    requires x % 7 == 0 && y % 7 == 0
    ensures (x - y) % 7 == 0
  {
  }

  /** The one multiple of 7 in the week that ends at d. */
  lemma Multiple(m: int, d: int)
    requires m % 7 == 0 && 0 <= d && d - 6 <= m <= d
    ensures m == d / 7 * 7
  {
  }

  // ------------------------------------------------------------ names

  function Digit(d: nat): char
    requires d < 10
  {
    '0' + d as char
  }

  predicate IsDigit(c: char) { '0' <= c <= '9' }

  function Decimal(n: nat): (s: string)
    ensures |s| >= 1 && AllDigits(s)
  {
    if n < 10 then [Digit(n)] else Decimal(n / 10) + [Digit(n % 10)]
  }

  predicate AllDigits(s: string) {
    forall i :: 0 <= i < |s| ==> IsDigit(s[i])
  }

  function Zeros(k: nat): (s: string)
    ensures |s| == k && AllDigits(s)
  {
    if k == 0 then "" else Zeros(k - 1) + "0"
  }

  /** %0<width>d of a natural number. */
  function Padded(n: nat, width: nat): (s: string)
    ensures AllDigits(s) && |s| >= width && |s| >= 1
  {
    var d := Decimal(n);
    if |d| >= width then d else Zeros(width - |d|) + d
  }

  /** The number a digit string denotes. */
  function Value(s: string): nat
    requires AllDigits(s)
  {
    if s == "" then 0 else 10 * Value(s[..|s| - 1]) + (s[|s| - 1] - '0') as nat
  }

  lemma {:induction false} ValueOfDecimal(n: nat)
    ensures Value(Decimal(n)) == n
  {
    if n >= 10 {
      ValueOfDecimal(n / 10);
      assert Decimal(n)[..|Decimal(n)| - 1] == Decimal(n / 10);
    } else {
      assert Decimal(n)[..0] == "";
    }
  }

  lemma {:induction false} LeadingZeros(k: nat, s: string)
    requires AllDigits(s)
    ensures Value(Zeros(k) + s) == Value(s)
  {
    if s == "" {
      assert Zeros(k) + s == Zeros(k);
      if k > 0 {
        LeadingZeros(k - 1, s);
        assert Zeros(k - 1) + s == Zeros(k - 1);
        assert Zeros(k)[..k - 1] == Zeros(k - 1);
      }
    } else {
      LeadingZeros(k, s[..|s| - 1]);
      assert (Zeros(k) + s)[..k + |s| - 1] == Zeros(k) + s[..|s| - 1];
    }
  }

  lemma ValueOfPadded(n: nat, width: nat)
    ensures Value(Padded(n, width)) == n
  {
    ValueOfDecimal(n);
    LeadingZeros(if |Decimal(n)| >= width then 0 else width - |Decimal(n)|, Decimal(n));
  }

  /** The length of the longest prefix of digits. */
  function DigitRun(s: string): (k: nat)
    ensures k <= |s| && AllDigits(s[..k]) && (k < |s| ==> !IsDigit(s[k]))
  {
    if s == "" || !IsDigit(s[0]) then 0
    else
      var k := DigitRun(s[1..]);
      assert s[..k + 1] == [s[0]] + s[1..][..k];
      k + 1
  }

  /** Scanning %d: an optional sign, then digits, as a 64-bit integer. */
  function ScanInt(s: string): Option<(int, string)> {
    if s != "" && (s[0] == '+' || s[0] == '-') then ScanDigits(s[1..], s[0] == '-') else ScanDigits(s, false)
  }

  function ScanDigits(body: string, negative: bool): Option<(int, string)> {
    var k := DigitRun(body);
    if k == 0 then None
    else
      var m: int := Value(body[..k]);
      var v := if negative then -m else m;
      if FitsInt64(v) then Some((v, body[k..])) else None
  }

  function ScanLiteral(s: string, lit: string): Option<string> {
    if lit <= s then Some(s[|lit|..]) else None
  }

  function PartitionName(weekStart: nat): string {
    var (y, w) := IsoYearWeek(weekStart / DAY);
    NameOf(y, w)
  }

  function NameOf(year: nat, week: nat): string {
    "outbox_" + Padded(year, 4) + "_W" + Padded(week, 2)
  }

  /** The end of the week a partition name denotes; what follows the week number is ignored. */
  function WeekEndFromName(name: string): Option<int> {
    match ScanLiteral(name, "outbox_")
    case None => None
    case Some(rest) =>
      match ScanInt(rest)
      case None => None
      case Some((y, rest1)) =>
        match ScanLiteral(rest1, "_W")
        case None => None
        case Some(rest2) =>
          match ScanInt(rest2)
          case None => None
          case Some((w, _)) => Some(IsoWeekStart(y, w) + WEEK)
  }

  /** The names the partition store accepts: four digits of year, two of week. */
  predicate ValidName(name: string) {
    |name| == 15 && name[..7] == "outbox_" && AllDigits(name[7..11]) && name[11..13] == "_W" && AllDigits(name[13..])
  }

  lemma {:induction false} DigitRunOf(s: string, rest: string)
    requires AllDigits(s) && (rest == "" || !IsDigit(rest[0]))
    ensures DigitRun(s + rest) == |s|
  {
    if s == "" {
      assert s + rest == rest;
    } else {
      assert (s + rest)[1..] == s[1..] + rest;
      DigitRunOf(s[1..], rest);
    }
  }

  lemma ScanPadded(n: nat, width: nat, rest: string)
    requires n <= INT64_MAX && (rest == "" || !IsDigit(rest[0]))
    ensures ScanInt(Padded(n, width) + rest) == Some((n, rest))
  {
    var s := Padded(n, width);
    DigitRunOf(s, rest);
    ValueOfPadded(n, width);
    assert (s + rest)[..|s|] == s && (s + rest)[|s|..] == rest;
    assert IsDigit((s + rest)[0]);
  }

  /** Scanning reads the sign and all the digits, and refuses what does not fit in 64 bits. */
  lemma ScanSigned(digits: string, rest: string)
    requires digits != "" && AllDigits(digits) && (rest == "" || !IsDigit(rest[0]))
    ensures var m: int := Value(digits); var body := digits + rest;
      && ScanInt(body) == ScanInt(['+'] + body) == (if FitsInt64(m) then Some((m, rest)) else None)
      && ScanInt(['-'] + body) == (if FitsInt64(-m) then Some((-m, rest)) else None)
  {
    var body := digits + rest;
    SplitDigits(digits, rest);
    assert (['+'] + body)[1..] == body && (['-'] + body)[1..] == body;
    hide DigitRun, Value;
  }

  lemma SplitDigits(digits: string, rest: string)
    requires digits != "" && AllDigits(digits) && (rest == "" || !IsDigit(rest[0]))
    ensures var body := digits + rest;
      DigitRun(body) == |digits| && body[..|digits|] == digits && body[|digits|..] == rest && IsDigit(body[0])
  {
    DigitRunOf(digits, rest);
  }

  lemma ScanName(year: nat, week: nat)
    requires year <= INT64_MAX && week <= INT64_MAX
    ensures WeekEndFromName(NameOf(year, week)) == Some(IsoWeekStart(year, week) + WEEK)
  {
    hide Padded, ScanInt, IsoWeekStart;
    var w := Padded(week, 2);
    var tail := "_W" + w;
    var body := Padded(year, 4) + tail;
    assert NameOf(year, week) == "outbox_" + body;
    assert NameOf(year, week)[7..] == body;
    ScanPadded(year, 4, tail);
    assert tail[2..] == w;
    ScanPadded(week, 2, "");
    assert w + "" == w;
  }

  lemma DivideDay(t: nat)
    ensures WeekStart(t) / DAY == t / DAY - DaysSinceMonday(t / DAY)
    ensures DaysSinceMonday(WeekStart(t) / DAY) == 0
  {
    var day := t / DAY;
    var monday := day - DaysSinceMonday(day);
    assert WeekStart(t) == DAY * monday;
    assert (DAY * monday) / DAY == monday;
  }

  /** ISO week naming round-trips: from any instant, the week read back from the name of
      its partition ends seven days after it starts. */
  lemma NamingRoundTrip(t: nat)
    requires IsoYearWeek(WeekStart(t) / DAY).0 <= INT64_MAX
    ensures WeekEndFromName(PartitionName(WeekStart(t))) == Some(WeekStart(t) + WEEK)
  {
    hide WeekEndFromName, NameOf, IsoYearWeek, IsoWeekStart, DaysSinceMonday;
    var start := WeekStart(t);
    DivideDay(t);
    IsoWeekRoundTrip(start / DAY);
    var (y, w) := IsoYearWeek(start / DAY);
    ScanName(y, w);
  }

  /** Names are injective on weeks, and the week after begins where the named one ends. */
  lemma NamesTileTime(t: nat, u: nat)
    requires IsoYearWeek(WeekStart(t) / DAY).0 <= INT64_MAX && IsoYearWeek(WeekStart(u) / DAY).0 <= INT64_MAX
    ensures PartitionName(WeekStart(t)) == PartitionName(WeekStart(u)) <==> WeekStart(t) == WeekStart(u)
    ensures WeekStart(WeekStart(t) + WEEK) == WeekStart(t) + WEEK
    ensures WeekEndFromName(PartitionName(WeekStart(t))) == Some(WeekStart(WeekStart(t) + WEEK))
  {
    hide PartitionName, WeekEndFromName, WeekStart, IsoYearWeek;
    NamingRoundTrip(t);
    NamingRoundTrip(u);
    var next := WeekStart(t) + WEEK;
    assert next % WEEK == 0 && WeekStart(next) % WEEK == 0;
    SameMultiple(next, WeekStart(next));
  }

  lemma SameMultiple(a: nat, b: nat)
    requires a % WEEK == 0 && b % WEEK == 0 && b <= a < b + WEEK
    ensures a == b
  {
  }

  lemma {:induction false} DecimalLength(n: nat)
    ensures |Decimal(n)| <= 2 <==> n < 100
    ensures |Decimal(n)| <= 4 <==> n < 10000
    ensures |Decimal(n)| <= 1 <==> n < 10
    ensures |Decimal(n)| <= 3 <==> n < 1000
  {
    if n >= 10 {
      DecimalLength(n / 10);
    }
  }

  /** The store accepts the name of a week exactly when its ISO year has at most four digits. */
  lemma NameValidUpTo9999(t: nat)
    ensures ValidName(PartitionName(WeekStart(t))) <==> IsoYearWeek(WeekStart(t) / DAY).0 <= 9999
  {
    IsoWeekRoundTrip(WeekStart(t) / DAY);
    var (y, w) := IsoYearWeek(WeekStart(t) / DAY);
    DecimalLength(y);
    DecimalLength(w);
    var name := PartitionName(WeekStart(t));
    if y <= 9999 {
      assert name[7..11] == Padded(y, 4) && name[13..] == Padded(w, 2);
    }
  }
}
