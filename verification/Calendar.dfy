/**
 Broadcast times: a modified Julian date and BCD digits of Japan Standard Time, turned into Unix
 milliseconds. No operand of a division is negative here, so `/` is the original's division.
*/
module Calendar {
  import opened Basics

  datatype Date = Date(year: int, month: int, day: int)

  // ---------------------------------------------------------------- the Gregorian calendar

  predicate Leap(year: int) {
    year % 4 == 0 && (year % 100 != 0 || year % 400 == 0)
  }

  function MonthDays(year: int, month: int): int {
    if month == 2 then (if Leap(year) then 29 else 28)
    else if month == 4 || month == 6 || month == 9 || month == 11 then 30
    else 31
  }

  predicate IsDate(d: Date) {
    1 <= d.month <= 12 && 1 <= d.day <= MonthDays(d.year, d.month)
  }

  function NextDay(d: Date): Date {
    if d.day < MonthDays(d.year, d.month) then d.(day := d.day + 1)
    else if d.month < 12 then Date(d.year, d.month + 1, 1)
    else Date(d.year + 1, 1, 1)
  }

  /** The date some days after 17 November 1858, where modified Julian dates begin. */
  function DateAfter(days: nat): Date {
    if days == 0 then Date(1858, 11, 17) else NextDay(DateAfter(days - 1))
  }

  // ---------------------------------------------------------------- the conversions

  const UNIX_EPOCH: int := 40587

  /** Days since `n` centuries, years `i` and months `j` of the March-based count. */
  datatype Split = Split(n: int, l1: int, i: int, l2: int, j: int)

  function SplitMjd(mjd: nat): Split {
    var l := mjd + 2400001 + 68569;
    var n := 4 * l / 146097;
    var l1 := l - (146097 * n + 3) / 4;
    var i := 4000 * (l1 + 1) / 1461001;
    var l2 := l1 - 1461 * i / 4 + 31;
    Split(n, l1, i, l2, 80 * l2 / 2447)
  }

  function DateOf(s: Split): Date {
    var wrap := s.j / 11;
    Date(100 * (s.n - 49) + s.i + wrap, s.j + 2 - 12 * wrap, s.l2 - 2447 * s.j / 80)
  }

  function MjdToYmd(mjd: nat): Date {
    DateOf(SplitMjd(mjd))
  }

  function UnixDays(d: Date): int {
    var y := if d.month <= 2 then d.year - 1 else d.year;
    var era := y / 400;
    var yoe := y - era * 400;
    var mp := d.month + if d.month > 2 then -3 else 9;
    var doy := (153 * mp + 2) / 5 + d.day - 1;
    var doe := yoe * 365 + yoe / 4 - yoe / 100 + doy;
    era * 146097 + doe - 719468
  }

  datatype Time = Time(hour: nat, minute: nat, second: nat)

  function Seconds(t: Time): nat {
    t.hour * 3600 + t.minute * 60 + t.second
  }

  function CivilToUnixMillis(d: Date, t: Time): int {
    (UnixDays(d) * 86400 + Seconds(t)) * 1000
  }

  /** The March-based year and day of year of a date. */
  function MarchYear(d: Date): int {
    if d.month <= 2 then d.year - 1 else d.year
  }

  function MonthIndex(d: Date): int {
    if d.month > 2 then d.month - 2 else d.month + 10
  }

  function YearDay(d: Date): int {
    2447 * MonthIndex(d) / 80 - 31 + d.day
  }

  // ---------------------------------------------------------------- centuries, years and months

  /** The century count, split into whole eras and the rest. */
  lemma Centuries(mjd: nat, q: int, r: int)
    requires var c := SplitMjd(mjd).n - 49; q == c / 4 && r == c % 4
    ensures SplitMjd(mjd).n >= 67 && q >= 4 && 0 <= r < 4
    ensures mjd == SplitMjd(mjd).l1 + 146097 * q + 36524 * r - 678881
    ensures 0 <= SplitMjd(mjd).l1 <= (if r == 3 then 36524 else 36523)
  {
    var l := mjd + 2468570;
    var n := 4 * l / 146097;
    assert n == 4 * q + r + 49;
    assert (146097 * n + 3) / 4 == 146097 * q + 1789689 + 36524 * r;
  }

  lemma Years(l1: int, i: int)
    requires 0 <= l1 <= 36524 && i == 4000 * (l1 + 1) / 1461001
    ensures 0 <= i <= 99 && 1461 * i / 4 == 365 * i + i / 4
    ensures 0 <= l1 - 1461 * i / 4 <= (if i % 4 == 3 then 365 else 364)
  {
  }

  lemma Months(l2: int, j: int)
    requires 31 <= l2 <= 396 && j == 80 * l2 / 2447
    ensures 1 <= j <= 12
    ensures 1 <= l2 - 2447 * j / 80 <= (if j == 2 || j == 4 || j == 7 || j == 9 then 30 else 31)
    ensures (153 * (j - 1) + 2) / 5 == 2447 * j / 80 - 30
  {
  }

  lemma YearOfEra(q: int, r: int, i: int)
    requires 0 <= r < 4 && 0 <= i <= 99
    ensures var y := 100 * (4 * q + r) + i;
            && y / 400 == q && (y - q * 400) / 4 == 25 * r + i / 4 && (y - q * 400) / 100 == r
  {
  }

  /** A date of a March-based year, `i` years into century `4 * q + r`. */
  lemma LeapInCentury(q: int, r: int, i: int)
    requires 0 <= r < 4 && 0 <= i <= 99
    ensures Leap(100 * (4 * q + r) + i + 1) <==> i % 4 == 3 && (i == 99 ==> r == 3)
  {
    var y := 100 * (4 * q + r) + i + 1;
    Remainders(q, 100 * r + i + 1, y);
    CenturyParts(r, i + 1);
  }

  lemma CenturyParts(r: nat, k: nat)
    requires r < 4 && 1 <= k <= 100
    ensures (100 * r + k) % 4 == k % 4 && (100 * r + k) % 100 == k % 100 && (k % 100 == 0 <==> k == 100)
  {
    assert r == 0 || r == 1 || r == 2 || r == 3;
  }

  lemma Remainders(q: int, t: nat, y: int)
    requires y == 400 * q + t && t <= 400
    ensures y % 4 == t % 4 && y % 100 == t % 100 && (y % 400 == 0 <==> t == 0 || t == 400)
  {
    assert y == 4 * (100 * q + t / 4) + t % 4;
    Remainder(y, 4, 100 * q + t / 4, t % 4);
    assert y == 100 * (4 * q + t / 100) + t % 100;
    Remainder(y, 100, 4 * q + t / 100, t % 100);
    Remainder(y, 400, if t == 400 then q + 1 else q, if t == 400 then 0 else t);
  }

  lemma Remainder(y: int, m: int, k: int, t: int)
    requires m > 0 && y == m * k + t && 0 <= t < m
    ensures y % m == t
  {
    var d := y / m - k;
    assert y == m * (y / m) + y % m;
    assert m * d == t - y % m;
    Multiples(m, d);
  }

  lemma Multiples(m: int, d: int)
    requires m > 0
    ensures (d >= 1 ==> m * d >= m) && (d <= -1 ==> m * d <= -m)
  {
  }

  lemma PartsAreDate(s: Split, q: int, r: int)
    requires s.n == 4 * q + r + 49 && 0 <= r < 4 && 0 <= s.i <= 99 && 1 <= s.j <= 12
    requires 31 <= s.l2 <= (if s.i % 4 == 3 && (s.i == 99 ==> r == 3) then 396 else 395)
    requires 1 <= s.l2 - 2447 * s.j / 80 <= (if s.j == 2 || s.j == 4 || s.j == 7 || s.j == 9 then 30 else 31)
    ensures IsDate(DateOf(s))
  {
    LeapInCentury(q, r, s.i);
  }

  /** Every number is a date that exists. */
  lemma MjdIsDate(mjd: nat)
    ensures IsDate(MjdToYmd(mjd))
  {
    var s := SplitMjd(mjd);
    var q, r := (s.n - 49) / 4, (s.n - 49) % 4;
    Centuries(mjd, q, r);
    Years(s.l1, s.i);
    Months(s.l2, s.j);
    PartsAreDate(s, q, r);
  }

  // ---------------------------------------------------------------- and back again

  lemma YearDayBounds(d: Date)
    requires IsDate(d)
    ensures 0 <= YearDay(d) <= (if Leap(MarchYear(d) + 1) then 365 else 364)
    ensures 80 * (YearDay(d) + 31) / 2447 == MonthIndex(d)
  {
  }

  lemma CenturyBack(q: int, r: int, l1: int)
    requires q >= 0 && 0 <= r < 4 && 0 <= l1 <= (if r == 3 then 36524 else 36523)
    ensures var n := 4 * q + r + 49;
            var l := l1 + 146097 * q + 1789689 + 36524 * r;
            4 * l / 146097 == n && (146097 * n + 3) / 4 == l - l1
  {
    var n := 4 * q + r + 49;
    var l := l1 + 146097 * q + 1789689 + 36524 * r;
    assert 146097 * n <= 4 * l < 146097 * (n + 1);
    assert (146097 * n + 3) / 4 == 146097 * q + 1789689 + 36524 * r;
  }

  lemma YearBack(i: int, doy: int)
    requires 0 <= i <= 99 && 0 <= doy <= (if i % 4 == 3 then 365 else 364)
    ensures 4000 * (365 * i + i / 4 + doy + 1) / 1461001 == i
    ensures 1461 * i / 4 == 365 * i + i / 4
  {
    var l := 365 * i + i / 4 + doy + 1;
    assert 1461001 * i <= 4000 * l < 1461001 * (i + 1);
  }

  /** A date in terms of the parts that the conversion from days goes through. */
  lemma UnixDaysByParts(d: Date, q: int, r: int, i: int)
    requires IsDate(d) && 0 <= r < 4 && 0 <= i <= 99 && MarchYear(d) == 100 * (4 * q + r) + i
    ensures UnixDays(d) + UNIX_EPOCH == 365 * i + i / 4 + YearDay(d) + 146097 * q + 36524 * r - 678881
  {
    YearOfEra(q, r, i);
    YearDayBounds(d);
    Months(YearDay(d) + 31, MonthIndex(d));
  }

  lemma PartsOfDate(s: Split)
    requires 1 <= s.j <= 12
    ensures var d := DateOf(s);
            MarchYear(d) == 100 * (s.n - 49) + s.i && MonthIndex(d) == s.j && YearDay(d) == s.l2 - 31
  {
  }

  lemma DateOfParts(d: Date, s: Split)
    requires 1 <= d.month <= 12
    requires MarchYear(d) == 100 * (s.n - 49) + s.i && MonthIndex(d) == s.j && YearDay(d) == s.l2 - 31
    ensures DateOf(s) == d
  {
  }

  /** Both conversions count the same days. */
  lemma MjdThenUnix(mjd: nat)
    ensures UnixDays(MjdToYmd(mjd)) == mjd - UNIX_EPOCH
  {
    var s := SplitMjd(mjd);
    MjdIsDate(mjd);
    SplitThenUnix(mjd, s, (s.n - 49) / 4, (s.n - 49) % 4);
  }

  lemma SplitThenUnix(mjd: nat, s: Split, q: int, r: int)
    requires s == SplitMjd(mjd) && IsDate(DateOf(s)) && q == (s.n - 49) / 4 && r == (s.n - 49) % 4
    ensures UnixDays(DateOf(s)) == mjd - UNIX_EPOCH
  {
    Centuries(mjd, q, r);
    Years(s.l1, s.i);
    Months(s.l2, s.j);
    PartsOfDate(s);
    UnixDaysByParts(DateOf(s), q, r, s.i);
  }

  lemma SplitBack(mjd: nat, q: int, r: int, i: int, doy: int)
    requires q >= 0 && 0 <= r < 4 && 0 <= i <= 99
    requires 0 <= doy <= (if i % 4 == 3 && (i == 99 ==> r == 3) then 365 else 364)
    requires mjd == 365 * i + i / 4 + doy + 146097 * q + 36524 * r - 678881
    ensures SplitMjd(mjd) == Split(4 * q + r + 49, 365 * i + i / 4 + doy, i, doy + 31, 80 * (doy + 31) / 2447)
  {
    YearBack(i, doy);
    CenturyBack(q, r, 365 * i + i / 4 + doy);
  }

  /** Every date from the beginning of the count on is found again. */
  lemma UnixThenMjd(d: Date)
    requires IsDate(d) && UnixDays(d) + UNIX_EPOCH >= 0 && d.year >= 1
    ensures MjdToYmd(UnixDays(d) + UNIX_EPOCH) == d
  {
    var q, r, i := YearDigits(MarchYear(d));
    FoundAgain(d, UnixDays(d) + UNIX_EPOCH, q, r, i);
  }

  lemma YearDigits(y: nat) returns (q: nat, r: nat, i: nat)
    ensures r < 4 && i <= 99 && y == 100 * (4 * q + r) + i
  {
    q, r, i := y / 400, y / 100 % 4, y % 100;
  }

  lemma FoundAgain(d: Date, mjd: nat, q: int, r: int, i: int)
    requires IsDate(d) && mjd == UnixDays(d) + UNIX_EPOCH
    requires q >= 0 && 0 <= r < 4 && 0 <= i <= 99 && MarchYear(d) == 100 * (4 * q + r) + i
    ensures MjdToYmd(mjd) == d
  {
    UnixDaysByParts(d, q, r, i);
    YearDayBounds(d);
    LeapInCentury(q, r, i);
    SplitBack(mjd, q, r, i, YearDay(d));
    DateOfParts(d, SplitMjd(mjd));
  }

  lemma NextDayIsDate(d: Date)
    requires IsDate(d)
    ensures IsDate(NextDay(d))
  {
  }

  lemma NextDayCounts(d: Date)
    requires IsDate(d)
    ensures UnixDays(NextDay(d)) == UnixDays(d) + 1
  {
    var y := MarchYear(d);
    var q, r, i := y / 400, y / 100 % 4, y % 100;
    assert y == 100 * (4 * q + r) + i;
    UnixDaysByParts(d, q, r, i);
    NextDayIsDate(d);
    var e := NextDay(d);
    if MarchYear(e) == y {
      UnixDaysByParts(e, q, r, i);
      NextInYear(d);
    } else {
      LeapInCentury(q, r, i);
      NewYear(d);
      if i < 99 {
        UnixDaysByParts(e, q, r, i + 1);
      } else if r < 3 {
        UnixDaysByParts(e, q, r + 1, 0);
      } else {
        UnixDaysByParts(e, q + 1, 0, 0);
      }
    }
  }

  lemma NextInYear(d: Date)
    requires IsDate(d) && MarchYear(NextDay(d)) == MarchYear(d)
    ensures YearDay(NextDay(d)) == YearDay(d) + 1
  {
  }

  lemma NewYear(d: Date)
    requires IsDate(d) && MarchYear(NextDay(d)) != MarchYear(d)
    ensures MarchYear(NextDay(d)) == MarchYear(d) + 1 && YearDay(NextDay(d)) == 0
    ensures YearDay(d) == if Leap(MarchYear(d) + 1) then 365 else 364
  {
  }

  lemma NextMjd(mjd: nat)
    ensures MjdToYmd(mjd + 1) == NextDay(MjdToYmd(mjd))
  {
    var d := MjdToYmd(mjd);
    MjdIsDate(mjd);
    MjdThenUnix(mjd);
    YearIsPositive(mjd);
    NextFound(d, mjd);
  }

  lemma NextFound(d: Date, mjd: nat)
    requires IsDate(d) && d.year >= 1 && UnixDays(d) == mjd - UNIX_EPOCH
    ensures MjdToYmd(mjd + 1) == NextDay(d)
  {
    NextDayIsDate(d);
    NextDayCounts(d);
    UnixThenMjd(NextDay(d));
  }

  lemma FirstMjd()
    ensures MjdToYmd(0) == Date(1858, 11, 17)
  {
    SplitBack(0, 4, 2, 58, 261);
  }

  lemma {:induction false} Walk(f: nat -> Date, n: nat)
    requires f(0) == DateAfter(0) && forall k: nat :: f(k + 1) == NextDay(f(k))
    ensures f(n) == DateAfter(n)
    decreases n
  {
    if n > 0 {
      Walk(f, n - 1);
      var k: nat := n - 1;
      assert f(k + 1) == NextDay(f(k));
    }
  }

  /** Counting up from the first day, the dates are those of the Gregorian calendar, one by one. */
  lemma MjdWalksTheCalendar(mjd: nat)
    ensures MjdToYmd(mjd) == DateAfter(mjd)
  {
    FirstMjd();
    forall k: nat ensures MjdToYmd(k + 1) == NextDay(MjdToYmd(k)) {
      NextMjd(k);
    }
    Walk(MjdToYmd, mjd);
  }

  lemma YearIsPositive(mjd: nat)
    ensures MjdToYmd(mjd).year >= 1600
  {
    var s := SplitMjd(mjd);
    Centuries(mjd, (s.n - 49) / 4, (s.n - 49) % 4);
    Years(s.l1, s.i);
    Months(s.l2, s.j);
  }

  predicate Fits32(x: int) {
    -0x8000_0000 <= x < 0x8000_0000
  }

  /** Every value that the conversion from days computes on its way. */
  predicate SplitFits(mjd: nat) {
    var s := SplitMjd(mjd);
    var l := mjd + 2400001 + 68569;
    && Fits32(l) && Fits32(4 * l) && Fits32(146097 * s.n) && Fits32(146097 * s.n + 3) && Fits32(s.l1)
    && Fits32(4000 * (s.l1 + 1)) && Fits32(1461 * s.i) && Fits32(s.l2) && Fits32(80 * s.l2) && Fits32(2447 * s.j)
    && Fits32(12 * (s.j / 11)) && Fits32(100 * (s.n - 49)) && Fits32(100 * (s.n - 49) + s.i + s.j / 11)
  }

  /** Every 32-bit value that the conversion to days computes on its way. */
  predicate CivilFits(d: Date) {
    var y := if d.month <= 2 then d.year - 1 else d.year;
    var era := y / 400;
    var yoe := y - era * 400;
    var mp := d.month + if d.month > 2 then -3 else 9;
    var doy := (153 * mp + 2) / 5 + d.day - 1;
    var doe := yoe * 365 + yoe / 4 - yoe / 100 + doy;
    && Fits32(y) && Fits32(era) && Fits32(era * 400) && Fits32(yoe) && Fits32(mp) && Fits32(153 * mp + 2)
    && Fits32((153 * mp + 2) / 5 + d.day) && Fits32(doy) && Fits32(yoe * 365) && Fits32(yoe * 365 + yoe / 4)
    && Fits32(yoe * 365 + yoe / 4 - yoe / 100) && Fits32(doe) && Fits32(era * 146097) && Fits32(era * 146097 + doe)
    && Fits32(era * 146097 + doe - 719468)
  }

  lemma CivilIsSmall(d: Date)
    requires IsDate(d) && 1 <= d.year <= 9999
    ensures CivilFits(d)
  {
    var y := if d.month <= 2 then d.year - 1 else d.year;
    EraIsSmall(y, y / 400, y - y / 400 * 400);
  }

  lemma EraIsSmall(y: nat, era: int, yoe: int)
    requires y <= 9999 && era == y / 400 && yoe == y - era * 400
    ensures 0 <= era <= 24 && 0 <= yoe < 400
  {
  }

  lemma YearIsBelow2200(mjd: uint16)
    ensures MjdToYmd(mjd).year < 2200
  {
    var s := SplitMjd(mjd);
    Centuries(mjd, (s.n - 49) / 4, (s.n - 49) % 4);
    Years(s.l1, s.i);
    Months(s.l2, s.j);
    assert s.n <= 69;
  }

  /** No value that either conversion computes on the way from a 16-bit date leaves 32 signed bits. */
  lemma NoOverflow(mjd: uint16)
    ensures SplitFits(mjd) && CivilFits(MjdToYmd(mjd))
    ensures 0 <= UnixDays(MjdToYmd(mjd)) + UNIX_EPOCH < 0x1_0000
  {
    SplitIsSmall(mjd);
    MjdThenUnix(mjd);
    MjdIsDate(mjd);
    YearIsPositive(mjd);
    YearIsBelow2200(mjd);
    hide SplitFits, CivilFits, MjdToYmd, UnixDays, IsDate;
    CivilIsSmall(MjdToYmd(mjd));
  }

  lemma SplitIsSmall(mjd: uint16)
    ensures SplitFits(mjd)
  {
    var s := SplitMjd(mjd);
    Centuries(mjd, (s.n - 49) / 4, (s.n - 49) % 4);
    Years(s.l1, s.i);
    Months(s.l2, s.j);
    assert s.n <= 69;
  }

  // ---------------------------------------------------------------- the time fields

  function DecodeBcd2(v: byte): (r: Option<nat>)
    ensures r.Some? <==> v / 16 <= 9 && v % 16 <= 9
    ensures r.Some? ==> r.value <= 99 && r.value / 10 == v / 16 && r.value % 10 == v % 16
  {
    if v / 16 <= 9 && v % 16 <= 9 then Some(v / 16 * 10 + v % 16) else None
  }

  /** Three digits pairs below `hours`, 60 and 60. */
  function DecodeTime(bytes: Bytes, hours: nat): (r: Option<Time>)
    requires |bytes| == 3
    ensures r.Some? ==> r.value.hour < hours && r.value.minute < 60 && r.value.second < 60
  {
    var h, m, s := DecodeBcd2(bytes[0]), DecodeBcd2(bytes[1]), DecodeBcd2(bytes[2]);
    if h.None? || m.None? || s.None? || h.value >= hours || m.value > 59 || s.value > 59 then None
    else Some(Time(h.value, m.value, s.value))
  }

  function DecodeDurationMillis(bytes: Bytes): (r: Option<int>)
    requires |bytes| == 3
  {
    var t := DecodeTime(bytes, 100);
    if t.None? then None else Some(Seconds(t.value) * 1000)
  }

  function DecodeMjdBcdMillis(bytes: Bytes): (r: Option<int>)
    requires |bytes| == 5
  {
    StartAt(Be16(bytes[0], bytes[1]), DecodeTime(bytes[2..], 24))
  }

  function StartAt(mjd: nat, t: Option<Time>): Option<int> {
    if mjd == 0xffff || t.None? then None
    else Some(CivilToUnixMillis(MjdToYmd(mjd), t.value) - 9 * 60 * 60 * 1000)
  }

  function StartMillis(mjd: nat, t: Time): int {
    ((mjd - UNIX_EPOCH) * 86400 + Seconds(t) - 32400) * 1000
  }

  /** A start time in closed form: no date has to be formed. */
  lemma StartTime(mjd: nat, t: Option<Time>)
    ensures StartAt(mjd, t) == if mjd == 0xffff || t.None? then None else Some(StartMillis(mjd, t.value))
  {
    MjdThenUnix(mjd);
  }

  lemma BcdInjective(v: byte, w: byte)
    requires DecodeBcd2(v).Some? && DecodeBcd2(v) == DecodeBcd2(w)
    ensures v == w
  {
  }

  lemma Positional(t: Time, u: Time)
    requires t.minute < 60 && t.second < 60 && u.minute < 60 && u.second < 60 && Seconds(t) == Seconds(u)
    ensures t == u
  {
    Remainder(Seconds(t), 60, t.hour * 60 + t.minute, t.second);
    Remainder(Seconds(u), 60, u.hour * 60 + u.minute, u.second);
    var minutes := t.hour * 60 + t.minute;
    assert minutes == u.hour * 60 + u.minute;
    Remainder(minutes, 60, t.hour, t.minute);
    Remainder(minutes, 60, u.hour, u.minute);
  }

  lemma TimeDigits(x: Bytes, hours: nat)
    requires |x| == 3 && DecodeTime(x, hours).Some?
    ensures var t := DecodeTime(x, hours).value;
            DecodeBcd2(x[0]) == Some(t.hour) && DecodeBcd2(x[1]) == Some(t.minute) && DecodeBcd2(x[2]) == Some(t.second)
  {
    hide DecodeBcd2;
  }

  lemma TimeInjective(x: Bytes, y: Bytes, hours: nat)
    requires |x| == |y| == 3 && DecodeTime(x, hours).Some? && DecodeTime(x, hours) == DecodeTime(y, hours)
    ensures x == y
  {
    hide DecodeTime, DecodeBcd2;
    TimeDigits(x, hours);
    TimeDigits(y, hours);
    BcdInjective(x[0], y[0]);
    BcdInjective(x[1], y[1]);
    BcdInjective(x[2], y[2]);
    assert x == [x[0], x[1], x[2]] && y == [y[0], y[1], y[2]];
  }

  lemma StartMillisInjective(mjd: nat, t: Time, mjd': nat, u: Time)
    requires Seconds(t) < 86400 && Seconds(u) < 86400 && StartMillis(mjd, t) == StartMillis(mjd', u)
    ensures mjd == mjd' && Seconds(t) == Seconds(u)
  {
  }

  lemma SameStart(m: nat, t: Option<Time>, n: nat, u: Option<Time>)
    requires t.Some? ==> t.value.hour < 24 && t.value.minute < 60 && t.value.second < 60
    requires u.Some? ==> u.value.hour < 24 && u.value.minute < 60 && u.value.second < 60
    requires StartAt(m, t).Some? && StartAt(m, t) == StartAt(n, u)
    ensures m == n && t.Some? && t == u
  {
    StartTime(m, t);
    StartTime(n, u);
    StartMillisInjective(m, t.value, n, u.value);
    Positional(t.value, u.value);
  }

  /** Two start fields that mean the same time are the same field. */
  lemma StartTimeInjective(x: Bytes, y: Bytes)
    requires |x| == |y| == 5 && DecodeMjdBcdMillis(x).Some? && DecodeMjdBcdMillis(x) == DecodeMjdBcdMillis(y)
    ensures x == y
  {
    SameStart(Be16(x[0], x[1]), DecodeTime(x[2..], 24), Be16(y[0], y[1]), DecodeTime(y[2..], 24));
    SameFields(x, y);
  }

  lemma SameFields(x: Bytes, y: Bytes)
    requires |x| == |y| == 5 && Be16(x[0], x[1]) == Be16(y[0], y[1])
    requires DecodeTime(x[2..], 24).Some? && DecodeTime(x[2..], 24) == DecodeTime(y[2..], 24)
    ensures x == y
  {
    TimeInjective(x[2..], y[2..], 24);
    assert x == [x[0], x[1]] + x[2..] && y == [y[0], y[1]] + y[2..];
  }

  lemma DurationInjective(x: Bytes, y: Bytes)
    requires |x| == |y| == 3 && DecodeDurationMillis(x).Some? && DecodeDurationMillis(x) == DecodeDurationMillis(y)
    ensures x == y
  {
    Positional(DecodeTime(x, 100).value, DecodeTime(y, 100).value);
    TimeInjective(x, y, 100);
  }

  datatype TimingState = Defined | UndefinedTime | BothTimingUndefined | MalformedTiming

  predicate Undefined(bytes: Bytes) {
    forall i :: 0 <= i < |bytes| ==> bytes[i] == 0xff
  }

  function ClassifyTiming(start: Bytes, duration: Bytes): (TimingState, Option<int>, Option<int>)
    requires |start| == 5 && |duration| == 3
  {
    if Undefined(start) && Undefined(duration) then (BothTimingUndefined, None, None)
    else if Undefined(start) || Undefined(duration) then
      var s := if Undefined(start) then None else DecodeMjdBcdMillis(start);
      var d := if Undefined(duration) then None else DecodeDurationMillis(duration);
      if (!Undefined(start) && s.None?) || (!Undefined(duration) && d.None?) then (MalformedTiming, s, d)
      else (UndefinedTime, s, d)
    else
      var s, d := DecodeMjdBcdMillis(start), DecodeDurationMillis(duration);
      (if s.None? || d.None? then MalformedTiming else Defined, s, d)
  }

  /** The class follows from which fields are blank and which decode, and a value is given whenever one is known. */
  lemma TimingIff(start: Bytes, duration: Bytes)
    requires |start| == 5 && |duration| == 3
    ensures var (state, s, d) := ClassifyTiming(start, duration);
            && s == DecodeMjdBcdMillis(start) && d == DecodeDurationMillis(duration)
            && (state == Defined <==> s.Some? && d.Some?)
            && (state == BothTimingUndefined <==> Undefined(start) && Undefined(duration))
            && (state == MalformedTiming <==> (s.None? && !Undefined(start)) || (d.None? && !Undefined(duration)))
  {
    assert Undefined(start) ==> start[0] == 0xff && start[1] == 0xff;
    assert Undefined(duration) ==> duration[0] == 0xff;
  }
}
