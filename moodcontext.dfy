/** The mood-entry engine (src/context/MoodContext.tsx): the entry store with
    at most one entry per UTC day, its date queries, the streak walk and the
    simulated campus aggregate. */
module MoodContext {
  import opened Types
  import opened Catalog
  import opened Helpers
  import opened Ordering
  import MockData

  /** The day key of an entry's timestamp. */
  function DayOf(e: MoodEntry): int
  {
    FormatDate(e.date)
  }

  // ---------------------------------------------------------------------
  // Entry store: at most one entry per day

  /** `r` is `s` with some elements left out, the rest in their order. */
  ghost predicate IsSubsequence(r: seq<MoodEntry>, s: seq<MoodEntry>)
    decreases |s|
  {
    r == [] || (s != [] && ((r[0] == s[0] && IsSubsequence(r[1..], s[1..])) || IsSubsequence(r, s[1..])))
  }

  /** No two entries share a day key. */
  ghost predicate OnePerDay(s: seq<MoodEntry>)
  {
    forall i, j :: 0 <= i < j < |s| ==> DayOf(s[i]) != DayOf(s[j])
  }

  /** How many entries carry day key `day`. */
  function CountOnDay(s: seq<MoodEntry>, day: int): (n: nat)
    ensures n <= |s|
  {
    if s == [] then 0 else (if DayOf(s[0]) == day then 1 else 0) + CountOnDay(s[1..], day)
  }

  /** The entries not dated `day`, in their order (the filter of `addEntry`). */
  function OtherDays(s: seq<MoodEntry>, day: int): (r: seq<MoodEntry>)
    ensures IsSubsequence(r, s)
    ensures forall i :: 0 <= i < |r| ==> DayOf(r[i]) != day
    ensures forall e :: e in r <==> e in s && DayOf(e) != day
    ensures |r| == |s| - CountOnDay(s, day)
  {
    if s == [] then
      []
    else
      var rest := OtherDays(s[1..], day);
      if DayOf(s[0]) == day then
        rest
      else
        assert ([s[0]] + rest)[1..] == rest;
        [s[0]] + rest
  }

  /** A subsequence of a one-per-day list is one-per-day. */
  lemma {:induction false} SubsequenceKeepsOnePerDay(r: seq<MoodEntry>, s: seq<MoodEntry>)
    requires IsSubsequence(r, s) && OnePerDay(s)
    ensures OnePerDay(r)
    ensures forall e :: e in r ==> e in s
    decreases |s|
  {
    if r != [] {
      assert OnePerDay(s[1..]) by {
        forall i, j | 0 <= i < j < |s[1..]| ensures DayOf(s[1..][i]) != DayOf(s[1..][j]) {
          assert s[1..][i] == s[i + 1] && s[1..][j] == s[j + 1];
        }
      }
      if r[0] == s[0] && IsSubsequence(r[1..], s[1..]) {
        SubsequenceKeepsOnePerDay(r[1..], s[1..]);
        forall i, j | 0 <= i < j < |r| ensures DayOf(r[i]) != DayOf(r[j]) {
          if i == 0 {
            assert r[j] == r[1..][j - 1] && r[j] in s[1..];
            var k :| 0 <= k < |s[1..]| && s[1..][k] == r[j];
            assert s[k + 1] == r[j];
          } else {
            assert r[i] == r[1..][i - 1] && r[j] == r[1..][j - 1];
          }
        }
        forall e | e in r ensures e in s {
          if e != r[0] { assert e in r[1..]; }
        }
      } else {
        SubsequenceKeepsOnePerDay(r, s[1..]);
      }
    }
  }

  /** `addEntry`'s list update: drop every entry dated like `entry`, then append it. */
  function WithEntry(s: seq<MoodEntry>, entry: MoodEntry): (r: seq<MoodEntry>)
    ensures r != [] && r[|r| - 1] == entry
    ensures forall e :: e in r <==> e == entry || (e in s && DayOf(e) != DayOf(entry))
  {
    OtherDays(s, DayOf(entry)) + [entry]
  }

  /** After an add, exactly one entry has the new entry's day, and it is the new entry, last. */
  lemma AddLeavesOneEntryForTheDay(s: seq<MoodEntry>, entry: MoodEntry)
    ensures CountOnDay(WithEntry(s, entry), DayOf(entry)) == 1
    ensures WithEntry(s, entry)[|WithEntry(s, entry)| - 1] == entry
    ensures |WithEntry(s, entry)| == |s| - CountOnDay(s, DayOf(entry)) + 1
  {
    var r := OtherDays(s, DayOf(entry));
    CountOnDayAppend(r, entry, DayOf(entry));
    NoneOnDay(r, DayOf(entry));
  }

  lemma {:induction false} CountOnDayAppend(s: seq<MoodEntry>, e: MoodEntry, day: int)
    ensures CountOnDay(s + [e], day) == CountOnDay(s, day) + (if DayOf(e) == day then 1 else 0)
  {
    if s != [] {
      assert (s + [e])[1..] == s[1..] + [e];
      CountOnDayAppend(s[1..], e, day);
    }
  }

  lemma {:induction false} NoneOnDay(s: seq<MoodEntry>, day: int)
    requires forall i :: 0 <= i < |s| ==> DayOf(s[i]) != day
    ensures CountOnDay(s, day) == 0
  {
    if s != [] {
      NoneOnDay(s[1..], day);
    }
  }

  /** Adding keeps at most one entry per day. */
  lemma AddKeepsOnePerDay(s: seq<MoodEntry>, entry: MoodEntry)
    requires OnePerDay(s)
    ensures OnePerDay(WithEntry(s, entry))
  {
    var r := OtherDays(s, DayOf(entry));
    SubsequenceKeepsOnePerDay(r, s);
    var w := WithEntry(s, entry);
    forall i, j | 0 <= i < j < |w| ensures DayOf(w[i]) != DayOf(w[j]) {
      if j < |r| {
        assert w[i] == r[i] && w[j] == r[j];
      } else {
        assert w[i] == r[i] && w[j] == entry;
      }
    }
  }

  /** Two adds on the same day leave only the second. */
  lemma SecondAddReplacesFirst(s: seq<MoodEntry>, first: MoodEntry, second: MoodEntry)
    requires DayOf(first) == DayOf(second)
    ensures WithEntry(WithEntry(s, first), second) == WithEntry(s, second)
  {
    var d := DayOf(first);
    var r := OtherDays(s, d);
    OtherDaysAppendOnDay(r, first, d);
    OtherDaysIdle(r, d);
  }

  lemma {:induction false} OtherDaysAppendOnDay(s: seq<MoodEntry>, e: MoodEntry, day: int)
    requires DayOf(e) == day
    ensures OtherDays(s + [e], day) == OtherDays(s, day)
  {
    if s == [] {
      assert OtherDays([e], day) == OtherDays([e][1..], day);
    } else {
      assert (s + [e])[1..] == s[1..] + [e];
      OtherDaysAppendOnDay(s[1..], e, day);
    }
  }

  lemma {:induction false} OtherDaysIdle(s: seq<MoodEntry>, day: int)
    requires forall i :: 0 <= i < |s| ==> DayOf(s[i]) != day
    ensures OtherDays(s, day) == s
  {
    if s != [] {
      OtherDaysIdle(s[1..], day);
      assert s == [s[0]] + s[1..];
    }
  }

  /** The list update as written: the new entry's timestamp and the key of
      "today" come from two separate clock reads. */
  function WithEntryAsWritten(s: seq<MoodEntry>, entry: MoodEntry, todayKey: int): (r: seq<MoodEntry>)
    ensures r != [] && r[|r| - 1] == entry
    ensures forall e :: e in r <==> e == entry || (e in s && DayOf(e) != todayKey)
    ensures todayKey == DayOf(entry) ==> r == WithEntry(s, entry)
  {
    OtherDays(s, todayKey) + [entry]
  }

  /** A check-in created in the last millisecond of a day, whose "today" is read
      one millisecond later, keeps the earlier entry of that day: two entries on one day. */
  lemma TwoClockReadsBreakOnePerDay()
    ensures exists s: seq<MoodEntry>, entry: MoodEntry, todayKey: int ::
      OnePerDay(s) && !OnePerDay(WithEntryAsWritten(s, entry, todayKey))
  {
    var earlier := MoodEntry("a", 1000, "😊", 8, None, None);
    var entry := MoodEntry("b", MsPerDay - 1, "😔", -7, None, None);
    var todayKey := FormatDate(MsPerDay);
    assert DayOf(earlier) == 0 && DayOf(entry) == 0 && todayKey == 1;
    var r := WithEntryAsWritten([earlier], entry, todayKey);
    assert OtherDays([earlier], todayKey) == [earlier] + OtherDays([], todayKey);
    assert r == [earlier, entry];
    assert DayOf(r[0]) == DayOf(r[1]);
  }

  // ---------------------------------------------------------------------
  // Date queries

  /** The first entry dated like `ms`, as `entries.find` does (getEntriesByDate). */
  function EntryOnDate(s: seq<MoodEntry>, ms: int): (r: Option<MoodEntry>)
    ensures r.None? <==> forall i :: 0 <= i < |s| ==> DayOf(s[i]) != FormatDate(ms)
    ensures r.Some? ==> exists i :: 0 <= i < |s| && s[i] == r.value && DayOf(s[i]) == FormatDate(ms)
                         && forall j :: 0 <= j < i ==> DayOf(s[j]) != FormatDate(ms)
  {
    if s == [] then
      None
    else if DayOf(s[0]) == FormatDate(ms) then
      Some(s[0])
    else
      var r := EntryOnDate(s[1..], ms);
      if r.Some? then
        var i :| 0 <= i < |s[1..]| && s[1..][i] == r.value && DayOf(s[1..][i]) == FormatDate(ms)
                 && forall j :: 0 <= j < i ==> DayOf(s[1..][j]) != FormatDate(ms);
        assert s[i + 1] == r.value;
        assert forall j :: 0 <= j < i + 1 ==> DayOf(s[j]) != FormatDate(ms) by {
          forall j | 0 <= j < i + 1 ensures DayOf(s[j]) != FormatDate(ms) {
            if j > 0 { assert s[j] == s[1..][j - 1]; }
          }
        }
        r
      else
        assert forall i :: 0 <= i < |s| ==> DayOf(s[i]) != FormatDate(ms) by {
          forall i | 0 <= i < |s| ensures DayOf(s[i]) != FormatDate(ms) {
            if i > 0 { assert s[i] == s[1..][i - 1]; }
          }
        }
        r
  }

  /** With one entry per day, the entry found for a day is the only one that day. */
  lemma EntryOnDateIsTheOnlyOne(s: seq<MoodEntry>, ms: int, e: MoodEntry)
    requires OnePerDay(s) && e in s && DayOf(e) == FormatDate(ms)
    ensures EntryOnDate(s, ms) == Some(e)
  {
    var k :| 0 <= k < |s| && s[k] == e;
    var r := EntryOnDate(s, ms);
    var i :| 0 <= i < |s| && s[i] == r.value && DayOf(s[i]) == FormatDate(ms)
             && forall j :: 0 <= j < i ==> DayOf(s[j]) != FormatDate(ms);
  }

  /** The civil (proleptic Gregorian) date of a day number: year, month 1..12, day. */
  function CivilFromDays(days: int): (r: (int, int, int))
    ensures 1 <= r.1 <= 12 && 1 <= r.2 <= 31
  {
    var z := days + 719468;
    var era := z / 146097;
    var doe := z - era * 146097;
    YearOfEraBound(doe);
    DayOfYearBound(doe);
    DateInEra(era, doe)
  }

  /** The date of day `doe` of the 400-year era `era`, eras counted from 0000-03-01. */
  function DateInEra(era: int, doe: int): (int, int, int)
  {
    DateOfYear(YearOfEra(doe) + era * 400, DayOfEraYear(doe))
  }

  /** The year of the era (0..399) that day `doe` of the era falls in, years starting in March. */
  function YearOfEra(doe: int): int
  {
    (doe - doe / 1460 + doe / 36524 - doe / 146096) / 365
  }

  /** The day of its March-based year that day `doe` of the era is. */
  function DayOfEraYear(doe: int): int
  {
    var yoe := YearOfEra(doe);
    doe - (365 * yoe + yoe / 4 - yoe / 100)
  }

  /** The date of day `doy` of the year that starts on 1 March of `y`. */
  function DateOfYear(y: int, doy: int): (int, int, int)
  {
    var mp := (5 * doy + 2) / 153;
    var d := doy - (153 * mp + 2) / 5 + 1;
    var m := if mp < 10 then mp + 3 else mp - 9;
    (if m <= 2 then y + 1 else y, m, d)
  }

  /** The year of the era lies in 0..399. */
  lemma YearOfEraBound(doe: int)
    requires 0 <= doe < 146097
    ensures 0 <= YearOfEra(doe) <= 399
  {
  }

  /** The day of the March-based year lies in 0..365. */
  lemma DayOfYearBound(doe: int)
    requires 0 <= doe < 146097
    ensures 0 <= DayOfEraYear(doe) <= 365
  {
    LastDayIsLeap(doe);
  }

  /** The day of the March-based year lies in 0..365, and is 365 only when the
      February that ends the year is a leap one. */
  lemma LastDayIsLeap(doe: int)
    requires 0 <= doe < 146097
    ensures 0 <= DayOfEraYear(doe) <= 365
    ensures DayOfEraYear(doe) == 365 ==> IsLeapYear(YearOfEra(doe) + 1)
  {
    if doe == 146096 {
      assert YearOfEra(doe) == 399;
    } else {
      // doe = 36524 * c + 1461 * q + s: the century, the four-year block, the rest
      var c := doe / 36524;
      var r := doe - 36524 * c;
      var q := r / 1461;
      var s := r - 1461 * q;
      assert 0 <= c <= 3 && 0 <= q <= 24 && 0 <= s <= 1460;
      var e := if s >= 1460 - 24 * c - q then 1 else 0;
      assert doe / 1460 == 25 * c + q + e;
      assert doe / 146096 == 0;
      var k := (s - e) / 365;
      assert 0 <= k <= 3;
      var yoe := YearOfEra(doe);
      assert yoe == 100 * c + 4 * q + k;
      assert yoe / 4 == 25 * c + q;
      assert yoe / 100 == c;
      if s - 365 * k == 365 {
        assert k == 3 && s == 1460 && q < 24;
        assert (yoe + 1) % 4 == 0 && (yoe + 1) % 100 != 0;
      }
    }
  }

  /** The Gregorian leap-year rule. */
  predicate IsLeapYear(y: int)
  {
    y % 4 == 0 && (y % 100 != 0 || y % 400 == 0)
  }

  /** The number of days in month `m` (1..12) of year `y`. */
  function MonthLength(y: int, m: int): int
  {
    if m == 2 then (if IsLeapYear(y) then 29 else 28)
    else if m == 4 || m == 6 || m == 9 || m == 11 then 30
    else 31
  }

  /** Day 0 of the year that starts on 1 March of `y`, counted from 0000-03-01. */
  function MarchStart(y: int): int
  {
    var era := y / 400;
    var yoe := y - era * 400;
    era * 146097 + yoe * 365 + yoe / 4 - yoe / 100
  }

  /** The day number of a civil date, counted from 1970-01-01. */
  function DaysFromCivil(year: int, month: int, day: int): int
  {
    var y := if month <= 2 then year - 1 else year;
    var mp := if month > 2 then month - 3 else month + 9;
    MarchStart(y) + (153 * mp + 2) / 5 + day - 1 - 719468
  }

  /** The date of day `doy` of a March-based year lies `doy` days after its start. */
  lemma YearRoundTrip(y: int, doy: int)
    requires 0 <= doy <= 365
    ensures DaysFromCivil(DateOfYear(y, doy).0, DateOfYear(y, doy).1, DateOfYear(y, doy).2)
            == MarchStart(y) + doy - 719468
  {
    assert 0 <= (5 * doy + 2) / 153 <= 11;
  }

  /** The start of year `yoe` of an era. */
  lemma MarchStartInEra(era: int, yoe: int)
    requires 0 <= yoe <= 399
    ensures MarchStart(yoe + era * 400) == era * 146097 + yoe * 365 + yoe / 4 - yoe / 100
  {
    assert (yoe + era * 400) / 400 == era;
  }

  /** The date of day `doy` of year `yoe` of an era lies that many days after the era's start. */
  lemma PartsRoundTrip(era: int, yoe: int, doy: int)
    requires 0 <= yoe <= 399 && 0 <= doy <= 365
    ensures DaysFromCivil(DateOfYear(yoe + era * 400, doy).0, DateOfYear(yoe + era * 400, doy).1,
                          DateOfYear(yoe + era * 400, doy).2)
            == era * 146097 + yoe * 365 + yoe / 4 - yoe / 100 + doy - 719468
  {
    YearRoundTrip(yoe + era * 400, doy);
    MarchStartInEra(era, yoe);
  }

  /** Day `doe` of an era is day `doy` of year `yoe` of the era. */
  lemma EraParts(era: int, doe: int) returns (yoe: int, doy: int)
    requires 0 <= doe < 146097
    ensures 0 <= yoe <= 399 && 0 <= doy <= 365
    ensures doe == 365 * yoe + yoe / 4 - yoe / 100 + doy
    ensures DateInEra(era, doe) == DateOfYear(yoe + era * 400, doy)
  {
    YearOfEraBound(doe);
    DayOfYearBound(doe);
    DateInEraUnfold(era, doe);
    yoe, doy := YearOfEra(doe), DayOfEraYear(doe);
    assert doe == 365 * yoe + yoe / 4 - yoe / 100 + doy;
    assert DateInEra(era, doe) == DateOfYear(yoe + era * 400, doy);
  }

  /** `DateInEra` read through `YearOfEra` and `DayOfEraYear`. */
  lemma DateInEraUnfold(era: int, doe: int)
    ensures DateInEra(era, doe) == DateOfYear(YearOfEra(doe) + era * 400, DayOfEraYear(doe))
  {
  }

  /** The date of day `doe` of an era lies `doe` days after the era's start. */
  lemma EraRoundTrip(era: int, doe: int)
    requires 0 <= doe < 146097
    ensures DaysFromCivil(DateInEra(era, doe).0, DateInEra(era, doe).1, DateInEra(era, doe).2)
            == era * 146097 + doe - 719468
  {
    var yoe, doy := EraParts(era, doe);
    PartsRoundTrip(era, yoe, doy);
  }

  /** Converting a day number to a date and back gives the day number. */
  lemma CivilRoundTrip(days: int)
    ensures DaysFromCivil(CivilFromDays(days).0, CivilFromDays(days).1, CivilFromDays(days).2) == days
  {
    var z := days + 719468;
    var era := z / 146097;
    EraRoundTrip(era, z - era * 146097);
  }

  /** The leap-year rule repeats every 400 years. */
  lemma LeapYearPeriodic(x: int, era: int)
    ensures IsLeapYear(x + era * 400) == IsLeapYear(x)
  {
    var t := x + era * 400;
    assert t / 4 == x / 4 + era * 100;
    assert t / 100 == x / 100 + era * 4;
    assert t / 400 == x / 400 + era;
  }

  /** Within an era, year `k + 1` starts 366 days after year `k` when it ends in a leap February. */
  lemma YearOfEraStep(k: int)
    requires 0 <= k < 399
    ensures (k + 1) * 365 + (k + 1) / 4 - (k + 1) / 100 - (k * 365 + k / 4 - k / 100)
            == if IsLeapYear(k + 1) then 366 else 365
  {
    assert (k + 1) / 4 == k / 4 + (if (k + 1) % 4 == 0 then 1 else 0);
    assert (k + 1) / 100 == k / 100 + (if (k + 1) % 100 == 0 then 1 else 0);
    assert (k + 1) % 400 != 0;
  }

  /** A March-based year has 366 days when the February that ends it is a leap one. */
  lemma MarchYearLength(y: int)
    ensures MarchStart(y) - MarchStart(y - 1) == if IsLeapYear(y) then 366 else 365
  {
    var e := (y - 1) / 400;
    var k := y - 1 - e * 400;
    assert y == (k + 1) + e * 400;
    LeapYearPeriodic(k + 1, e);
    assert MarchStart(y - 1) == e * 146097 + (k * 365 + k / 4 - k / 100);
    if k == 399 {
      assert y / 400 == e + 1;
      assert MarchStart(y) == (e + 1) * 146097;
    } else {
      assert y / 400 == e;
      YearOfEraStep(k);
      assert MarchStart(y) == e * 146097 + ((k + 1) * 365 + (k + 1) / 4 - (k + 1) / 100);
    }
  }

  /** The first of a month comes `MonthLength` days after the first of the month before. */
  lemma NextMonthStart(y: int, m: int)
    requires 1 <= m <= 11
    ensures DaysFromCivil(y, m + 1, 1) == DaysFromCivil(y, m, 1) + MonthLength(y, m)
  {
    if m == 2 {
      MarchYearLength(y);
    }
  }

  /** 1 January comes 31 days after 1 December of the year before. */
  lemma NextYearStart(y: int)
    ensures DaysFromCivil(y + 1, 1, 1) == DaysFromCivil(y, 12, 1) + 31
  {
  }

  /** The month table of the March-based year: a day of the year (0..365) falls
      within the length of its month, and 29 February is day 365 only. */
  lemma ShiftedMonthDay(doy: int)
    requires 0 <= doy <= 365
    ensures var mp := (5 * doy + 2) / 153;
      var d := doy - (153 * mp + 2) / 5 + 1;
      var m := if mp < 10 then mp + 3 else mp - 9;
      d <= (if m == 2 then (if doy == 365 then 29 else 28)
            else if m == 4 || m == 6 || m == 9 || m == 11 then 30 else 31)
  {
    var mp := (5 * doy + 2) / 153;
    assert 0 <= mp <= 11;
    assert 153 * mp <= 5 * doy + 2 < 153 * (mp + 1);
  }

  /** Day `doy` of year `yoe` of an era has a real date. */
  lemma DateFromParts(era: int, yoe: int, doy: int)
    requires 0 <= yoe <= 399 && 0 <= doy <= 365
    requires doy == 365 ==> IsLeapYear(yoe + 1)
    ensures DateOfYear(yoe + era * 400, doy).2
            <= MonthLength(DateOfYear(yoe + era * 400, doy).0, DateOfYear(yoe + era * 400, doy).1)
  {
    ShiftedMonthDay(doy);
    LeapYearPeriodic(yoe + 1, era);
    assert yoe + era * 400 + 1 == (yoe + 1) + era * 400;
  }

  /** Every date `DateInEra` gives is a real date. */
  lemma EraDateIsADate(era: int, doe: int)
    requires 0 <= doe < 146097
    ensures DateInEra(era, doe).2 <= MonthLength(DateInEra(era, doe).0, DateInEra(era, doe).1)
  {
    YearOfEraBound(doe);
    LastDayIsLeap(doe);
    DateFromParts(era, YearOfEra(doe), DayOfEraYear(doe));
  }

  /** Every date `CivilFromDays` gives is a real date: its day lies within its month. */
  lemma CivilIsADate(days: int)
    ensures CivilFromDays(days).2 <= MonthLength(CivilFromDays(days).0, CivilFromDays(days).1)
  {
    var z := days + 719468;
    var era := z / 146097;
    EraDateIsADate(era, z - era * 146097);
  }

  /** Day 0 is 1 January 1970. */
  lemma CivilEpoch()
    ensures CivilFromDays(0) == (1970, 1, 1)
  {
    assert 719468 / 146097 == 4;
    assert (135080 - 135080 / 1460 + 135080 / 36524 - 135080 / 146096) / 365 == 369;
    assert (5 * 306 + 2) / 153 == 10;
    assert (153 * 10 + 2) / 5 == 306;
  }

  /** An entry falls in `year` and the zero-based `month` (`getFullYear`, `getMonth`). */
  predicate InMonth(e: MoodEntry, year: int, month: int)
    ensures InMonth(e, year, month) ==> 0 <= month <= 11
  {
    var (y, m, _) := CivilFromDays(DayOf(e));
    y == year && m - 1 == month
  }

  /** How many entries fall in `year` and the zero-based `month`. */
  function CountInMonth(s: seq<MoodEntry>, year: int, month: int): (n: nat)
    ensures n <= |s|
  {
    if s == [] then 0 else (if InMonth(s[0], year, month) then 1 else 0) + CountInMonth(s[1..], year, month)
  }

  /** The entries of one month, in their order (getEntriesForMonth). */
  function EntriesForMonth(s: seq<MoodEntry>, year: int, month: int): (r: seq<MoodEntry>)
    ensures IsSubsequence(r, s)
    ensures forall i :: 0 <= i < |r| ==> InMonth(r[i], year, month)
    ensures forall e :: e in s && InMonth(e, year, month) ==> e in r
    ensures |r| == CountInMonth(s, year, month)
  {
    if s == [] then
      []
    else
      var rest := EntriesForMonth(s[1..], year, month);
      if InMonth(s[0], year, month) then
        assert ([s[0]] + rest)[1..] == rest;
        [s[0]] + rest
      else
        rest
  }

  /** `getMonth` counts from 0 to 11, so any other month selects nothing. */
  lemma {:induction false} NoMonthOutsideTheYear(s: seq<MoodEntry>, year: int, month: int)
    requires month < 0 || month > 11
    ensures EntriesForMonth(s, year, month) == []
  {
    if s != [] {
      NoMonthOutsideTheYear(s[1..], year, month);
    }
  }

  // ---------------------------------------------------------------------
  // Streak

  /** The sort key of `calculateStreak`: the entry's timestamp. */
  function TimeOf(e: MoodEntry): int
  {
    e.date
  }

  /** A copy of the entries, newest first. */
  function NewestFirst(s: seq<MoodEntry>): (r: seq<MoodEntry>)
    ensures multiset(r) == multiset(s) && |r| == |s|
    ensures forall i, j :: 0 <= i < j < |r| ==> r[i].date >= r[j].date
  {
    SortedLength(s, TimeOf);
    SortDescending(s, TimeOf)
  }

  /** How many leading entries fall on `expected`, `expected - 1`, ... in turn. */
  function RunLength(s: seq<MoodEntry>, expected: int): (n: nat)
    ensures n <= |s|
  {
    if s == [] || DayOf(s[0]) != expected then 0 else 1 + RunLength(s[1..], expected - 1)
  }

  /** The run from position `i`: one more than the run after it when `s[i]`
      falls on the expected day, none otherwise. */
  lemma RunLengthAt(s: seq<MoodEntry>, i: nat, expected: int)
    requires i < |s|
    ensures RunLength(s[i..], expected)
            == if DayOf(s[i]) == expected then 1 + RunLength(s[i + 1..], expected - 1) else 0
  {
    assert s[i..][1..] == s[i + 1..];
  }

  /** The streak on the day of `now`: 0 when there are no entries or the newest
      is neither today nor yesterday, else the run of consecutive days from it. */
  function Streak(s: seq<MoodEntry>, now: int): (n: nat)
    ensures n <= |s|
    ensures s == [] ==> n == 0
  {
    if s == [] then
      0
    else
      var sorted := NewestFirst(s);
      var latest := DayOf(sorted[0]);
      var today := FormatDate(now);
      if latest != today && latest != today - 1 then 0 else 1 + RunLength(sorted[1..], latest - 1)
  }

  /** Later timestamps never get earlier day keys. */
  lemma DayOfMonotone(a: MoodEntry, b: MoodEntry)
    requires a.date <= b.date
    ensures DayOf(a) <= DayOf(b)
  {
  }

  /** The newest entry's day is the largest day key in the list. */
  lemma NewestHasLatestDay(s: seq<MoodEntry>)
    requires s != []
    ensures NewestFirst(s)[0] in s
    ensures forall e :: e in s ==> DayOf(e) <= DayOf(NewestFirst(s)[0])
  {
    var sorted := NewestFirst(s);
    assert sorted[0] in multiset(sorted);
    forall e | e in s ensures DayOf(e) <= DayOf(sorted[0]) {
      assert e in multiset(s);
      var k :| 0 <= k < |sorted| && sorted[k] == e;
      if k > 0 { DayOfMonotone(e, sorted[0]); }
    }
  }

  /** The streak is 0, or between 1 and the number of entries. */
  lemma StreakBounds(s: seq<MoodEntry>, now: int)
    ensures Streak(s, now) == 0 || 1 <= Streak(s, now) <= |s|
    ensures s == [] ==> Streak(s, now) == 0
  {
  }

  /** The streak is alive exactly when no entry is dated after today and
      some entry is dated today or yesterday. */
  lemma StreakAliveIff(s: seq<MoodEntry>, now: int)
    ensures Streak(s, now) > 0 <==>
      (forall e :: e in s ==> DayOf(e) <= FormatDate(now)) && (exists e :: e in s && DayOf(e) >= FormatDate(now) - 1)
  {
    if s != [] {
      NewestHasLatestDay(s);
    }
  }

  /** An element at two positions occurs at least twice. */
  lemma TwiceInMultiset(r: seq<MoodEntry>, i: int, j: int)
    requires 0 <= i < j < |r| && r[i] == r[j]
    ensures multiset(r)[r[i]] >= 2
  {
    assert r == r[..j] + [r[j]] + r[j + 1..];
    assert r[i] in r[..j];
  }

  /** With one entry per day, every entry occurs once. */
  lemma CountOnce(s: seq<MoodEntry>, a: int)
    requires OnePerDay(s) && 0 <= a < |s|
    ensures multiset(s)[s[a]] == 1
  {
    forall k | 0 <= k < |s| && k != a ensures s[k] != s[a] {
      if k < a { assert DayOf(s[k]) != DayOf(s[a]); } else { assert DayOf(s[a]) != DayOf(s[k]); }
    }
    OccursOnce(s, a);
  }

  /** An element found at no other position occurs once. */
  lemma OccursOnce(s: seq<MoodEntry>, a: int)
    requires 0 <= a < |s|
    requires forall k :: 0 <= k < |s| && k != a ==> s[k] != s[a]
    ensures multiset(s)[s[a]] == 1
  {
    var rest := s[..a] + s[a + 1..];
    assert s == s[..a] + [s[a]] + s[a + 1..];
    assert s[a] !in rest by {
      forall k | 0 <= k < |rest| ensures rest[k] != s[a] {
        if k < a { assert rest[k] == s[k]; } else { assert rest[k] == s[k + 1]; }
      }
    }
    assert multiset(s) == multiset(rest) + multiset{s[a]};
  }

  /** Reordering a one-per-day list keeps it one-per-day. */
  lemma PermutationKeepsOnePerDay(s: seq<MoodEntry>, r: seq<MoodEntry>)
    requires OnePerDay(s) && multiset(r) == multiset(s)
    ensures OnePerDay(r)
  {
    forall i, j | 0 <= i < j < |r| ensures DayOf(r[i]) != DayOf(r[j]) {
      assert r[i] in multiset(s) && r[j] in multiset(s);
      var a :| 0 <= a < |s| && s[a] == r[i];
      var b :| 0 <= b < |s| && s[b] == r[j];
      if a == b {
        TwiceInMultiset(r, i, j);
        CountOnce(s, a);
      }
    }
  }

  /** With one entry per day, days strictly decrease along the newest-first copy. */
  lemma NewestFirstStrict(s: seq<MoodEntry>)
    requires OnePerDay(s)
    ensures forall i, j :: 0 <= i < j < |NewestFirst(s)| ==> DayOf(NewestFirst(s)[i]) > DayOf(NewestFirst(s)[j])
  {
    var r := NewestFirst(s);
    PermutationKeepsOnePerDay(s, r);
    forall i, j | 0 <= i < j < |r| ensures DayOf(r[i]) > DayOf(r[j]) {
      DayOfMonotone(r[j], r[i]);
    }
  }

  /** A run over strictly decreasing days: its days are all present, and the next one is not. */
  lemma {:induction false} RunLengthMeaning(r: seq<MoodEntry>, expected: int)
    requires forall i, j :: 0 <= i < j < |r| ==> DayOf(r[i]) > DayOf(r[j])
    requires r != [] ==> DayOf(r[0]) <= expected
    ensures forall k :: 0 <= k < RunLength(r, expected) ==> DayOf(r[k]) == expected - k
    ensures forall e :: e in r ==> DayOf(e) != expected - RunLength(r, expected)
  {
    if r != [] && DayOf(r[0]) == expected {
      RunLengthMeaning(r[1..], expected - 1);
      var n := RunLength(r, expected);
      forall k | 0 <= k < n ensures DayOf(r[k]) == expected - k {
        if k > 0 { assert r[k] == r[1..][k - 1]; }
      }
      forall e | e in r ensures DayOf(e) != expected - n {
        if e != r[0] { assert e in r[1..]; }
      }
    } else if r != [] {
      forall e | e in r ensures DayOf(e) != expected {
        var k :| 0 <= k < |r| && r[k] == e;
        if k > 0 { assert DayOf(r[0]) > DayOf(r[k]); }
      }
    }
  }

  /** Some entry falls on `day`. */
  ghost predicate HasEntryOn(s: seq<MoodEntry>, day: int)
  {
    exists e :: e in s && DayOf(e) == day
  }

  /** With one entry per day, a live streak of `k` means: the newest day and the
      `k - 1` days before it all have an entry, and the day before those has none. */
  lemma StreakCountsConsecutiveDays(s: seq<MoodEntry>, now: int)
    requires OnePerDay(s) && Streak(s, now) > 0
    ensures forall d :: DayOf(NewestFirst(s)[0]) - Streak(s, now) < d <= DayOf(NewestFirst(s)[0]) ==> HasEntryOn(s, d)
    ensures !HasEntryOn(s, DayOf(NewestFirst(s)[0]) - Streak(s, now))
  {
    var sorted := NewestFirst(s);
    NewestFirstStrict(s);
    RunCoversDays(s, sorted, Streak(s, now));
  }

  /** The days a run of a strictly decreasing reordering of `s` covers are
      exactly the days of `s` from its head back. */
  lemma RunCoversDays(s: seq<MoodEntry>, sorted: seq<MoodEntry>, n: nat)
    requires multiset(sorted) == multiset(s) && sorted != []
    requires forall i, j :: 0 <= i < j < |sorted| ==> DayOf(sorted[i]) > DayOf(sorted[j])
    requires n == 1 + RunLength(sorted[1..], DayOf(sorted[0]) - 1)
    ensures forall d :: DayOf(sorted[0]) - n < d <= DayOf(sorted[0]) ==> HasEntryOn(s, d)
    ensures !HasEntryOn(s, DayOf(sorted[0]) - n)
  {
    var latest := DayOf(sorted[0]);
    RunStrict(sorted, latest, n);
    forall d | latest - n < d <= latest ensures HasEntryOn(s, d) {
      var j := latest - d;
      assert sorted[j] in multiset(s);
    }
    forall e | e in s ensures DayOf(e) != latest - n {
      assert e in multiset(sorted);
    }
  }

  /** The run of a strictly decreasing list, seen from its head. */
  lemma RunStrict(sorted: seq<MoodEntry>, latest: int, n: nat)
    requires sorted != [] && DayOf(sorted[0]) == latest
    requires forall i, j :: 0 <= i < j < |sorted| ==> DayOf(sorted[i]) > DayOf(sorted[j])
    requires n == 1 + RunLength(sorted[1..], latest - 1)
    ensures n <= |sorted|
    ensures forall j :: 0 <= j < n ==> DayOf(sorted[j]) == latest - j
    ensures forall e :: e in sorted ==> DayOf(e) != latest - n
  {
    var tail := sorted[1..];
    RunLengthMeaning(tail, latest - 1);
    forall j | 0 <= j < n ensures DayOf(sorted[j]) == latest - j {
      if j > 0 { assert sorted[j] == tail[j - 1]; }
    }
    forall e | e in sorted ensures DayOf(e) != latest - n {
      if e != sorted[0] { assert e in tail; }
    }
  }

  // ---------------------------------------------------------------------
  // Campus aggregate

  /** `(counts[emoji] || 0)`. */
  function CountOf(counts: map<string, nat>, emoji: string): nat
  {
    if emoji in counts then counts[emoji] else 0
  }

  /** The sum of all counts. */
  ghost function SumCounts(counts: map<string, nat>): nat
    decreases |counts|
  {
    if counts == map[] then
      0
    else
      var k :| k in counts;
      assert |counts - {k}| < |counts| by {
        assert (counts - {k}).Keys == counts.Keys - {k};
      }
      counts[k] + SumCounts(counts - {k})
  }

  lemma {:induction false} SumCountsRemove(counts: map<string, nat>, k: string)
    requires k in counts
    ensures SumCounts(counts) == counts[k] + SumCounts(counts - {k})
    decreases |counts|
  {
    var c :| c in counts && SumCounts(counts) == counts[c] + SumCounts(counts - {c});
    if c != k {
      assert (counts - {c}).Keys == counts.Keys - {c};
      SumCountsRemove(counts - {c}, k);
      assert (counts - {c}) - {k} == (counts - {k}) - {c};
      assert (counts - {k}).Keys == counts.Keys - {k};
      SumCountsRemove(counts - {k}, c);
    }
  }

  /** Raising one count by 1 raises the sum by 1. */
  lemma SumCountsBump(counts: map<string, nat>, emoji: string)
    ensures SumCounts(counts[emoji := CountOf(counts, emoji) + 1]) == SumCounts(counts) + 1
  {
    var bumped := counts[emoji := CountOf(counts, emoji) + 1];
    SumCountsRemove(bumped, emoji);
    if emoji in counts {
      SumCountsRemove(counts, emoji);
      assert bumped - {emoji} == counts - {emoji};
    } else {
      assert bumped - {emoji} == counts;
    }
  }

  /** A note long enough to be quoted: present and over 5 UTF-16 code units. */
  predicate QuoteWorthy(note: Option<string>)
  {
    note.Some? && Utf16Length(note.value) > 5
  }

  /** `String.prototype.length`: characters beyond U+FFFF take two code units. */
  function Utf16Length(s: string): (n: nat)
    ensures |s| <= n <= 2 * |s|
    ensures (forall i :: 0 <= i < |s| ==> s[i] as int < 0x10000) ==> n == |s|
    ensures (forall i :: 0 <= i < |s| ==> s[i] as int >= 0x10000) ==> n == 2 * |s|
  {
    if s == [] then 0 else (if s[0] as int >= 0x10000 then 2 else 1) + Utf16Length(s[1..])
  }

  /** The code units of a concatenation are those of its parts. */
  lemma {:induction false} Utf16LengthAppend(a: string, b: string)
    ensures Utf16Length(a + b) == Utf16Length(a) + Utf16Length(b)
  {
    if a != [] {
      assert (a + b)[1..] == a[1..] + b;
      Utf16LengthAppend(a[1..], b);
    } else {
      assert a + b == b;
    }
  }

  /** `n` copies of `x` added up, that is `x * n` (see ScaledIsProduct).
      Written as repeated addition so that facts about the aggregate stay in
      linear arithmetic. */
  function Scaled(x: real, n: nat): real
  {
    if n == 0 then 0.0 else Scaled(x, n - 1) + x
  }

  lemma {:induction false} ScaledIsProduct(x: real, n: nat)
    ensures Scaled(x, n) == x * n as real
  {
    if n > 0 {
      ScaledIsProduct(x, n - 1);
    }
  }

  /** `next` is the running mean after folding `x` into a mean `avg` of `n`
      values: `next * (n + 1) == avg * n + x`. */
  ghost predicate MeanStep(avg: real, n: nat, x: real, next: real)
  {
    Scaled(next, n + 1) == Scaled(avg, n) + x
  }

  /** The relation between the aggregate before and after folding in one check-in. */
  ghost predicate Folded(prev: CommunityMood, next: CommunityMood, emoji: string, note: Option<string>)
  {
    && next.date == prev.date
    && CountsBumped(prev.moodCounts, next.moodCounts, emoji)
    && next.totalEntries == prev.totalEntries + 1
    && MeanStep(prev.averageSentiment, prev.totalEntries, Real(SentimentOf(emoji)), next.averageSentiment)
    && QuotesFolded(prev.quotes, next.quotes, note)
  }

  /** `next` holds the counts of `prev` with the count of `emoji` (0 when absent) raised by 1. */
  ghost predicate CountsBumped(prev: map<string, nat>, next: map<string, nat>, emoji: string)
  {
    && next.Keys == prev.Keys + {emoji}
    && next[emoji] == CountOf(prev, emoji) + 1
    && forall k :: k in prev && k != emoji ==> next[k] == prev[k]
  }

  /** A quotable note is appended and, past 10 quotes, the oldest one dropped;
      any other note leaves the quotes alone. */
  ghost predicate QuotesFolded(prev: seq<string>, next: seq<string>, note: Option<string>)
  {
    if QuoteWorthy(note) then
      var appended := prev + [note.value];
      next == if |appended| > 10 then appended[1..] else appended
    else
      next == prev
  }

  /** Bumped counts are the old map with one key raised by 1. */
  lemma BumpedCounts(prev: map<string, nat>, next: map<string, nat>, emoji: string)
    requires CountsBumped(prev, next, emoji)
    ensures next == prev[emoji := CountOf(prev, emoji) + 1]
  {
  }

  /** The sum of the counts minus the total is the same before and after a fold. */
  lemma FoldKeepsCountBalance(prev: CommunityMood, next: CommunityMood, emoji: string, note: Option<string>)
    requires Folded(prev, next, emoji, note)
    ensures SumCounts(next.moodCounts) - next.totalEntries == SumCounts(prev.moodCounts) - prev.totalEntries
  {
    BumpedSum(prev.moodCounts, next.moodCounts, emoji);
  }

  /** Bumping a count raises the sum of the counts by 1. */
  lemma BumpedSum(prev: map<string, nat>, next: map<string, nat>, emoji: string)
    requires CountsBumped(prev, next, emoji)
    ensures SumCounts(next) == SumCounts(prev) + 1
  {
    BumpedCounts(prev, next, emoji);
    SumCountsBump(prev, emoji);
  }

  /** At most 10 quotes stay at most 10; a note arriving at 10 evicts the oldest. */
  lemma FoldKeepsQuoteBound(prev: CommunityMood, next: CommunityMood, emoji: string, note: Option<string>)
    requires Folded(prev, next, emoji, note) && |prev.quotes| <= 10
    ensures |next.quotes| <= 10
    ensures QuoteWorthy(note) && |prev.quotes| == 10 ==> next.quotes == prev.quotes[1..] + [note.value]
    ensures QuoteWorthy(note) ==> next.quotes[|next.quotes| - 1] == note.value
  {
    QuotesFoldedBound(prev.quotes, next.quotes, note);
  }

  lemma QuotesFoldedBound(prev: seq<string>, next: seq<string>, note: Option<string>)
    requires QuotesFolded(prev, next, note) && |prev| <= 10
    ensures |next| <= 10
    ensures QuoteWorthy(note) && |prev| == 10 ==> next == prev[1..] + [note.value]
    ensures QuoteWorthy(note) ==> next[|next| - 1] == note.value
  {
    if QuoteWorthy(note) && |prev| == 10 {
      assert (prev + [note.value])[1..] == prev[1..] + [note.value];
    }
  }

  /** The source's division is a mean step. */
  lemma DivisionIsMeanStep(avg: real, n: nat, x: real)
    ensures MeanStep(avg, n, x, (avg * n as real + x) / (n as real + 1.0))
  {
    var next := (avg * n as real + x) / (n as real + 1.0);
    ScaledIsProduct(next, n + 1);
    ScaledIsProduct(avg, n);
  }

  /** `(avg * n + x) / (n + 1)`: the source's running-mean update. */
  function NextAverage(avg: real, n: nat, x: real): (next: real)
    ensures MeanStep(avg, n, x, next)
  {
    DivisionIsMeanStep(avg, n, x);
    (avg * n as real + x) / (n as real + 1.0)
  }

  /** The running-mean step written as the source computes it. */
  lemma MeanStepIsDivision(avg: real, n: nat, x: real, next: real)
    requires MeanStep(avg, n, x, next)
    ensures next == (avg * n as real + x) / (n + 1) as real
  {
    ScaledIsProduct(next, n + 1);
    ScaledIsProduct(avg, n);
  }

  /** The new average is the mean of the old mean, weighted by the old total, and the new sentiment. */
  lemma FoldAverage(prev: CommunityMood, next: CommunityMood, emoji: string, note: Option<string>)
    requires Folded(prev, next, emoji, note)
    ensures next.averageSentiment
            == (prev.averageSentiment * prev.totalEntries as real + Real(SentimentOf(emoji))) / (prev.totalEntries + 1) as real
  {
    MeanStepIsDivision(prev.averageSentiment, prev.totalEntries, Real(SentimentOf(emoji)), next.averageSentiment);
  }

  /** A mean step between values in [-1, 1] stays in [-1, 1]. */
  lemma MeanStepInRange(avg: real, n: nat, x: real, next: real)
    requires MeanStep(avg, n, x, next)
    requires -1.0 <= avg <= 1.0 && -1.0 <= x <= 1.0
    ensures -1.0 <= next <= 1.0
  {
    ScaledIsProduct(next, n + 1);
    ScaledIsProduct(avg, n);
    WeightedMeanInRange(avg, n as real, x, next);
  }

  lemma WeightedMeanInRange(avg: real, m: real, x: real, next: real)
    requires m >= 0.0 && next * (m + 1.0) == avg * m + x
    requires -1.0 <= avg <= 1.0 && -1.0 <= x <= 1.0
    ensures -1.0 <= next <= 1.0
  {
    assert -m <= avg * m <= m by {
      assert (avg + 1.0) * m >= 0.0;
      assert (1.0 - avg) * m >= 0.0;
    }
  }

  /** An average in [-1, 1] stays in [-1, 1]. */
  lemma FoldKeepsAverageInRange(prev: CommunityMood, next: CommunityMood, emoji: string, note: Option<string>)
    requires Folded(prev, next, emoji, note)
    requires -1.0 <= prev.averageSentiment <= 1.0
    ensures -1.0 <= next.averageSentiment <= 1.0
  {
    MeanStepInRange(prev.averageSentiment, prev.totalEntries, Real(SentimentOf(emoji)), next.averageSentiment);
  }

  /** The sum of the sentiments the check-ins `emojis` fold in. */
  function SumSentiments(emojis: seq<string>): real
  {
    if emojis == [] then 0.0
    else SumSentiments(emojis[..|emojis| - 1]) + Real(SentimentOf(emojis[|emojis| - 1]))
  }


  /** Step `i` of a chain of folds. */
  ghost predicate FoldedAt(states: seq<CommunityMood>, emojis: seq<string>, notes: seq<Option<string>>, i: int)
    requires 0 <= i < |emojis| && |states| == |emojis| + 1 && |notes| == |emojis|
  {
    Folded(states[i], states[i + 1], emojis[i], notes[i])
  }

  /** `states[i + 1]` is `states[i]` with check-in `i` folded in. */
  ghost predicate FoldChain(states: seq<CommunityMood>, emojis: seq<string>, notes: seq<Option<string>>)
  {
    |states| == |emojis| + 1 && |notes| == |emojis|
    && forall i :: 0 <= i < |emojis| ==> FoldedAt(states, emojis, notes, i)
  }

  /** What one fold does to the total and the average. */
  lemma FoldedStep(prev: CommunityMood, next: CommunityMood, emoji: string, note: Option<string>)
    requires Folded(prev, next, emoji, note)
    ensures next.totalEntries == prev.totalEntries + 1
    ensures MeanStep(prev.averageSentiment, prev.totalEntries, Real(SentimentOf(emoji)), next.averageSentiment)
  {
  }

  /** Fold `i` of a chain raises the total by 1. */
  lemma ChainTotalStep(states: seq<CommunityMood>, emojis: seq<string>, notes: seq<Option<string>>, i: nat)
    requires |states| == |emojis| + 1 && |notes| == |emojis| && i < |emojis|
    requires FoldChain(states, emojis, notes)
    ensures states[i + 1].totalEntries == states[i].totalEntries + 1
  {
    assert FoldedAt(states, emojis, notes, i);
  }

  /** Fold `i` of a chain moves the average by one mean step. */
  lemma ChainStep(states: seq<CommunityMood>, emojis: seq<string>, notes: seq<Option<string>>, i: nat)
    requires |states| == |emojis| + 1 && |notes| == |emojis| && i < |emojis|
    requires FoldChain(states, emojis, notes)
    ensures MeanStep(states[i].averageSentiment, states[i].totalEntries, Real(SentimentOf(emojis[i])), states[i + 1].averageSentiment)
  {
    assert FoldedAt(states, emojis, notes, i);
    FoldedStep(states[i], states[i + 1], emojis[i], notes[i]);
  }

  /** Along a chain of folds from an empty aggregate, the total after `k` folds is `k`. */
  lemma {:induction false} TotalsCount(states: seq<CommunityMood>, emojis: seq<string>, notes: seq<Option<string>>, k: nat)
    requires |states| == |emojis| + 1 && |notes| == |emojis| && k < |states|
    requires states[0].totalEntries == 0
    requires FoldChain(states, emojis, notes)
    ensures states[k].totalEntries == k
  {
    if k > 0 {
      TotalsCount(states, emojis, notes, k - 1);
      ChainTotalStep(states, emojis, notes, k - 1);
    }
  }

  /** Fold `i` of a chain from an empty aggregate is a mean step over `i` values. */
  lemma ChainMeanStep(states: seq<CommunityMood>, emojis: seq<string>, notes: seq<Option<string>>, i: nat)
    requires |states| == |emojis| + 1 && |notes| == |emojis| && i < |emojis|
    requires states[0].totalEntries == 0
    requires FoldChain(states, emojis, notes)
    ensures MeanStep(states[i].averageSentiment, i, Real(SentimentOf(emojis[i])), states[i + 1].averageSentiment)
  {
    TotalsCount(states, emojis, notes, i);
    ChainStep(states, emojis, notes, i);
  }

  /** After `k` folds from an empty aggregate, the average times `k` is the
      sum of the first `k` sentiments. */
  lemma {:induction false} ChainKeepsSum(states: seq<CommunityMood>, emojis: seq<string>, notes: seq<Option<string>>, k: nat)
    requires |states| == |emojis| + 1 && |notes| == |emojis| && k <= |emojis|
    requires states[0].totalEntries == 0
    requires FoldChain(states, emojis, notes)
    ensures Scaled(states[k].averageSentiment, k) == SumSentiments(emojis[..k])
  {
    if k > 0 {
      ChainKeepsSum(states, emojis, notes, k - 1);
      ChainMeanStep(states, emojis, notes, k - 1);
      assert emojis[..k][..k - 1] == emojis[..k - 1];
    }
  }

  /** Folding check-ins one at a time from an empty aggregate keeps the exact
      mean of their sentiments: the total is their number, and the average
      times the total (`Scaled`, see ScaledIsProduct) is their sum. */
  lemma FoldsKeepExactMean(states: seq<CommunityMood>, emojis: seq<string>, notes: seq<Option<string>>)
    requires |states| == |emojis| + 1 && |notes| == |emojis|
    requires states[0].totalEntries == 0
    requires FoldChain(states, emojis, notes)
    ensures states[|emojis|].totalEntries == |emojis|
    ensures Scaled(states[|emojis|].averageSentiment, |emojis|) == SumSentiments(emojis)
  {
    TotalsCount(states, emojis, notes, |emojis|);
    ChainKeepsSum(states, emojis, notes, |emojis|);
    assert emojis[..|emojis|] == emojis;
  }

  /** Adding a fresh key adds its count to the sum. */
  lemma SumCountsAdd(m: map<string, nat>, k: string, v: nat)
    requires k !in m
    ensures SumCounts(m[k := v]) == SumCounts(m) + v
  {
    SumCountsRemove(m[k := v], k);
    assert m[k := v] - {k} == m;
  }

  /** The seeded counts add up to the seeded total, 98. */
  lemma SeedCountsMatchTotal()
    ensures SumCounts(MockData.MockCommunityMood.moodCounts) == MockData.MockCommunityMood.totalEntries == 98
  {
    var m0: map<string, nat> := map[];
    var m1 := m0["😊" := 23];
    SumCountsAdd(m0, "😊", 23);
    var m2 := m1["😌" := 18];
    SumCountsAdd(m1, "😌", 18);
    var m3 := m2["😐" := 15];
    SumCountsAdd(m2, "😐", 15);
    var m4 := m3["😔" := 12];
    SumCountsAdd(m3, "😔", 12);
    var m5 := m4["😫" := 10];
    SumCountsAdd(m4, "😫", 10);
    var m6 := m5["😄" := 8];
    SumCountsAdd(m5, "😄", 8);
    var m7 := m6["😴" := 7];
    SumCountsAdd(m6, "😴", 7);
    var m8 := m7["🤔" := 5];
    SumCountsAdd(m7, "🤔", 5);
    assert m8 == MockData.MockCommunityMood.moodCounts;
  }

  /** The seed starts within the quote bound, with catalog keys and an average in [-1, 1]. */
  lemma SeedIsWithinBounds()
    ensures |MockData.MockCommunityMood.quotes| == 8 <= 10
    ensures forall k :: k in MockData.MockCommunityMood.moodCounts ==> InCatalog(k)
    ensures -1.0 <= MockData.MockCommunityMood.averageSentiment <= 1.0
  {
    var m := MockData.MockCommunityMood.moodCounts;
    forall k | k in m ensures InCatalog(k) {
      var o := if k == "😊" then MoodOptions[0] else if k == "😌" then MoodOptions[2]
               else if k == "😐" then MoodOptions[3] else if k == "😔" then MoodOptions[5]
               else if k == "😫" then MoodOptions[7] else if k == "😄" then MoodOptions[1]
               else if k == "😴" then MoodOptions[8] else MoodOptions[10];
      assert o in MoodOptions && o.emoji == k;
    }
  }

  // ---------------------------------------------------------------------
  // The provider's state

  class MoodStore {
    var entries: seq<MoodEntry>
    var communityMood: CommunityMood
    const storage: LocalStorage

    /** Fresh provider state: no entries, the seeded aggregate. */
    constructor (storage: LocalStorage)
      ensures entries == [] && communityMood == MockData.MockCommunityMood
      ensures this.storage == storage
    {
      entries := [];
      communityMood := MockData.MockCommunityMood;
      this.storage := storage;
    }

    /** The mount effect: restores the saved list when one is stored. */
    method LoadSaved() returns (loaded: bool)
      modifies this`entries
      ensures loaded <==> MoodEntriesKey in storage.items && storage.items[MoodEntriesKey].EntriesBlob?
      ensures entries == if loaded then storage.items[MoodEntriesKey].entries else old(entries)
    {
      loaded := false;
      if MoodEntriesKey in storage.items {
        match storage.items[MoodEntriesKey]
        case EntriesBlob(saved) =>
          entries := saved;
          loaded := true;
        case _ =>
      }
    }

    /** Records a check-in. `now` is the clock read that dates the new entry
        and `todayMs` the second read that names "today". An emoji outside the
        catalog changes nothing; otherwise the entries of today are dropped,
        the new entry is appended, the list is saved and the aggregate folds
        the check-in in. When both reads fall on one day, this is `WithEntry`. */
    method AddEntry(emoji: string, note: Option<string>, id: string, now: int, todayMs: int, userId: Option<string>)
      modifies this`entries, this`communityMood, storage
      ensures !InCatalog(emoji) ==>
        entries == old(entries) && communityMood == old(communityMood) && storage.items == old(storage.items)
      ensures InCatalog(emoji) ==>
        && entries == WithEntryAsWritten(old(entries), MoodEntry(id, now, emoji, SentimentOf(emoji), note, userId), FormatDate(todayMs))
        && storage.items == old(storage.items)[MoodEntriesKey := EntriesBlob(entries)]
        && Folded(old(communityMood), communityMood, emoji, note)
      ensures InCatalog(emoji) && FormatDate(todayMs) == FormatDate(now) ==>
        entries == WithEntry(old(entries), MoodEntry(id, now, emoji, SentimentOf(emoji), note, userId))
    {
      var option := Find(emoji);
      if option.None? {
        return;
      }
      var entry := MoodEntry(id, now, emoji, option.value.tenths, note, userId);
      var updated := OtherDays(entries, FormatDate(todayMs)) + [entry];
      entries := updated;
      storage.SetItem(MoodEntriesKey, EntriesBlob(updated));
      UpdateCommunityMood(emoji, note);
    }

    /** Folds one check-in into the aggregate, on copies of its map and quote list. */
    method UpdateCommunityMood(emoji: string, note: Option<string>)
      modifies this`communityMood
      ensures Folded(old(communityMood), communityMood, emoji, note)
    {
      var prev := communityMood;
      var counts := prev.moodCounts;
      counts := counts[emoji := (if emoji in counts then counts[emoji] else 0) + 1];
      var quotes := prev.quotes;
      if note.Some? && Utf16Length(note.value) > 5 {
        quotes := quotes + [note.value];
        if |quotes| > 10 {
          quotes := quotes[1..];
        }
      }
      var sentiment := Real(SentimentOf(emoji));
      var average := NextAverage(prev.averageSentiment, prev.totalEntries, sentiment);
      assert CountsBumped(prev.moodCounts, counts, emoji);
      assert QuotesFolded(prev.quotes, quotes, note);
      communityMood := CommunityMood(prev.date, counts, average, prev.totalEntries + 1, quotes);
    }

    /** `getEntriesByDate`. */
    method GetEntriesByDate(ms: int) returns (r: Option<MoodEntry>)
      ensures r == EntryOnDate(entries, ms)
      ensures r.None? <==> forall e :: e in entries ==> DayOf(e) != FormatDate(ms)
      ensures r.Some? ==> r.value in entries && DayOf(r.value) == FormatDate(ms)
      ensures OnePerDay(entries) && r.Some? ==> forall e :: e in entries && DayOf(e) == FormatDate(ms) ==> e == r.value
    {
      r := EntryOnDate(entries, ms);
      if r.Some? && OnePerDay(entries) {
        forall e | e in entries && DayOf(e) == FormatDate(ms) ensures e == r.value {
          EntryOnDateIsTheOnlyOne(entries, ms, e);
        }
      }
    }

    /** `calculateStreak`: sorts a copy newest first and, when its newest day is
        today or yesterday, counts the consecutive days back from it. */
    method CalculateStreak(now: int) returns (streak: nat)
      ensures streak == Streak(entries, now)
    {
      if |entries| == 0 {
        return 0;
      }
      var sorted := NewestFirst(entries);
      var today := FormatDate(now);
      var latest := DayOf(sorted[0]);
      if latest != today && latest != today - 1 {
        return 0;
      }
      streak := CountBack(sorted, latest);
    }
  }

  /** The counting loop of `calculateStreak`: starting from the head, which is
      on day `latest`, steps the expected day back by one per entry and stops at
      the first entry that is not on it. */
  method CountBack(sorted: seq<MoodEntry>, latest: int) returns (streak: nat)
    requires sorted != []
    ensures streak == 1 + RunLength(sorted[1..], latest - 1)
  {
    streak := 1;
    var expected := latest;
    var i := 1;
    while i < |sorted|
      invariant 1 <= i <= |sorted|
      invariant streak == i && expected == latest - (i - 1)
      invariant 1 + RunLength(sorted[1..], latest - 1) == i + RunLength(sorted[i..], expected - 1)
    {
      expected := expected - 1;
      RunLengthAt(sorted, i, expected);
      if DayOf(sorted[i]) == expected {
        streak := streak + 1;
      } else {
        break;
      }
      i := i + 1;
    }
  }
}
