/** The pure post-processing in pkg/growatt/plant.go: parsing a day's power
    readings into hour/minute samples (ParsePowerData) and turning the API's
    time-to-value maps into slices sorted by key (GetPlantPower,
    GetPlantEnergy).  The HTTP requests around them are not modelled. */
module Plant {
  import opened Wrappers
  import opened GoStrings
  import Sorting

  /** One reading of a plant's power: "HH:MM" (or "YYYY-MM-DD HH:MM") and watts. */
  datatype PowerDataPoint = PowerDataPoint(Time: string, Power: real)

  /** A day of readings for one plant. */
  datatype PowerData = PowerData(PlantID: string, Date: string, Powers: seq<PowerDataPoint>)

  /** One entry of a plant's energy history. */
  datatype EnergyDataPoint = EnergyDataPoint(Date: string, Energy: real)

  /** A reading with its time of day taken apart.  `Date` is the day as
      YYYY-MM-DD text; the Go value is the time.Time parsed from that text,
      and formatting it with the same layout gives the text back. */
  datatype ParsedPowerData = ParsedPowerData(Date: string, Time: string, Power: real, Hour: int, Minute: int)

  /** The error ParsePowerData returns when the day's date does not parse. */
  datatype DateError = DateError(Date: string)

  // ---------------------------------------------------------------------------
  // time.Parse("2006-01-02", s)

  predicate IsLeapYear(year: int)
  {
    year % 4 == 0 && (year % 100 != 0 || year % 400 == 0)
  }

  function DaysIn(month: int, year: int): int
  {
    if month == 2 then (if IsLeapYear(year) then 29 else 28)
    else if month == 4 || month == 6 || month == 9 || month == 11 then 30
    else 31
  }

  /** The year, month and day written in "YYYY-MM-DD" text. */
  function DateFields(s: string): (int, int, int)
    requires |s| == 10 && AllDigits(s[..4]) && AllDigits(s[5..7]) && AllDigits(s[8..])
  {
    (DigitsValue(s[..4]), DigitsValue(s[5..7]), DigitsValue(s[8..]))
  }

  /** The text time.Parse accepts for the layout "2006-01-02": four-digit year,
      two-digit month 01-12, two-digit day that exists in that month. */
  predicate IsValidDate(s: string)
  {
    && |s| == 10 && s[4] == '-' && s[7] == '-'
    && AllDigits(s[..4]) && AllDigits(s[5..7]) && AllDigits(s[8..])
    && var (year, month, day) := DateFields(s);
       1 <= month <= 12 && 1 <= day <= DaysIn(month, year)
  }

  function DigitChar(n: int): char
    requires 0 <= n <= 9
  {
    ('0' as int + n) as char
  }

  function DigitOf(c: char): int
  {
    c as int - '0' as int
  }

  /** Format("2006-01-02") of a date: zero-padded year, month and day. */
  function FormatDate(year: int, month: int, day: int): (s: string)
    requires 0 <= year <= 9999 && 0 <= month <= 99 && 0 <= day <= 99
    ensures |s| == 10
  {
    [DigitChar(year / 10 / 10 / 10), DigitChar(year / 10 / 10 % 10), DigitChar(year / 10 % 10), DigitChar(year % 10),
     '-', DigitChar(month / 10), DigitChar(month % 10), '-', DigitChar(day / 10), DigitChar(day % 10)]
  }

  lemma DigitsValueTwo(s: string)
    requires |s| == 2 && AllDigits(s)
    ensures DigitsValue(s) == 10 * DigitOf(s[0]) + DigitOf(s[1])
  {
    var head := s[..1];
    assert head[..0] == [] && head[0] == s[0];
    assert DigitsValue(head) == DigitOf(s[0]);
  }

  lemma DigitsValueFour(s: string)
    requires |s| == 4 && AllDigits(s)
    ensures DigitsValue(s) == 1000 * DigitOf(s[0]) + 100 * DigitOf(s[1]) + 10 * DigitOf(s[2]) + DigitOf(s[3])
  {
    assert s[..3][..2] == s[..2];
    DigitsValueTwo(s[..2]);
  }

  /** Parsing a formatted calendar date succeeds and gives the date back. */
  lemma FormatDateParses(year: int, month: int, day: int)
    requires 0 <= year <= 9999 && 1 <= month <= 12 && 1 <= day <= DaysIn(month, year)
    ensures IsValidDate(FormatDate(year, month, day))
    ensures DateFields(FormatDate(year, month, day)) == (year, month, day)
  {
    var s := FormatDate(year, month, day);
    assert AllDigits(s[..4]) && AllDigits(s[5..7]) && AllDigits(s[8..]);
    DigitsValueFour(s[..4]);
    DigitsValueTwo(s[5..7]);
    DigitsValueTwo(s[8..]);
    var a, b := year / 10, year / 10 / 10;
    assert year == 10 * a + year % 10;
    assert a == 10 * b + a % 10;
    assert b == 10 * (b / 10) + b % 10;
  }

  lemma FourDigitsSplit(d0: int, d1: int, d2: int, d3: int)
    requires 0 <= d0 <= 9 && 0 <= d1 <= 9 && 0 <= d2 <= 9 && 0 <= d3 <= 9
    ensures var year := 1000 * d0 + 100 * d1 + 10 * d2 + d3;
      && year / 10 / 10 / 10 == d0 && year / 10 / 10 % 10 == d1
      && year / 10 % 10 == d2 && year % 10 == d3
  {
    var year := 1000 * d0 + 100 * d1 + 10 * d2 + d3;
    assert year / 10 == 100 * d0 + 10 * d1 + d2;
    assert year / 10 / 10 == 10 * d0 + d1;
  }

  lemma FormatDateDigits(d0: int, d1: int, d2: int, d3: int, m0: int, m1: int, e0: int, e1: int)
    requires 0 <= d0 <= 9 && 0 <= d1 <= 9 && 0 <= d2 <= 9 && 0 <= d3 <= 9
    requires 0 <= m0 <= 9 && 0 <= m1 <= 9 && 0 <= e0 <= 9 && 0 <= e1 <= 9
    ensures FormatDate(1000 * d0 + 100 * d1 + 10 * d2 + d3, 10 * m0 + m1, 10 * e0 + e1)
      == [DigitChar(d0), DigitChar(d1), DigitChar(d2), DigitChar(d3), '-',
          DigitChar(m0), DigitChar(m1), '-', DigitChar(e0), DigitChar(e1)]
  {
    FourDigitsSplit(d0, d1, d2, d3);
  }

  lemma DigitCharOf(c: char)
    requires IsDigit(c)
    ensures 0 <= DigitOf(c) <= 9 && DigitChar(DigitOf(c)) == c
  {
  }

  /** Formatting the fields of a valid date text gives the text back, so the
      date string stands for the parsed time.Time. */
  lemma ValidDateFormatsBack(s: string)
    requires IsValidDate(s)
    ensures var (year, month, day) := DateFields(s);
      0 <= year <= 9999 && FormatDate(year, month, day) == s
  {
    assert s[..4][0] == s[0] && s[..4][1] == s[1] && s[..4][2] == s[2] && s[..4][3] == s[3];
    assert s[5..7][0] == s[5] && s[5..7][1] == s[6];
    assert s[8..][0] == s[8] && s[8..][1] == s[9];
    DigitsValueFour(s[..4]);
    DigitsValueTwo(s[5..7]);
    DigitsValueTwo(s[8..]);
    DigitCharOf(s[0]); DigitCharOf(s[1]); DigitCharOf(s[2]); DigitCharOf(s[3]);
    DigitCharOf(s[5]); DigitCharOf(s[6]); DigitCharOf(s[8]); DigitCharOf(s[9]);
    var d0, d1, d2, d3 := DigitOf(s[0]), DigitOf(s[1]), DigitOf(s[2]), DigitOf(s[3]);
    var m0, m1, e0, e1 := DigitOf(s[5]), DigitOf(s[6]), DigitOf(s[8]), DigitOf(s[9]);
    var (year, month, day) := DateFields(s);
    assert year == 1000 * d0 + 100 * d1 + 10 * d2 + d3;
    assert month == 10 * m0 + m1 && day == 10 * e0 + e1;
    FormatDateDigits(d0, d1, d2, d3, m0, m1, e0, e1);
    assert FormatDate(year, month, day) == FormatDate(1000 * d0 + 100 * d1 + 10 * d2 + d3, 10 * m0 + m1, 10 * e0 + e1);
    assert s == [s[0], s[1], s[2], s[3], s[4], s[5], s[6], s[7], s[8], s[9]];
  }

  // ---------------------------------------------------------------------------
  // ParsePowerData

  /** The time part of a reading's time text: of "YYYY-MM-DD HH:MM" (exactly
      one space) the part after the space, otherwise the text unchanged. */
  function TimePart(t: string): string
  {
    if ' ' in t then
      var parts := Split(t, ' ');
      if |parts| == 2 then parts[1] else t
    else t
  }

  /** What ParsePowerData makes of one reading: None when it is skipped. */
  function ParsePoint(date: string, p: PowerDataPoint): Option<ParsedPowerData>
  {
    var timeStr := TimePart(p.Time);
    var parts := Split(timeStr, ':');
    if |parts| < 2 then None
    else
      match (Atoi(parts[0]), Atoi(parts[1]))
      case (Some(hour), Some(minute)) => Some(ParsedPowerData(date, timeStr, p.Power, hour, minute))
      case _ => None
  }

  /** The parsed readings, in input order, skipping those that do not parse. */
  function ParsedPoints(date: string, ps: seq<PowerDataPoint>): seq<ParsedPowerData>
  {
    if |ps| == 0 then []
    else
      ParsedPoints(date, ps[..|ps| - 1]) +
      match ParsePoint(date, ps[|ps| - 1])
      case Some(x) => [x]
      case None => []
  }

  /** For each parsed reading, the index of the reading it came from. */
  function SourceIndices(date: string, ps: seq<PowerDataPoint>): seq<nat>
  {
    if |ps| == 0 then []
    else
      SourceIndices(date, ps[..|ps| - 1]) +
      if ParsePoint(date, ps[|ps| - 1]).Some? then [|ps| - 1] else []
  }

  /** ParsePowerData: an error exactly when the day's date is invalid,
      otherwise the readings that parse. */
  method ParsePowerData(data: PowerData) returns (r: Result<seq<ParsedPowerData>, DateError>)
    ensures r.Failure? <==> !IsValidDate(data.Date)
    ensures r.Failure? ==> r.error == DateError(data.Date)
    ensures r.Success? ==> r.value == ParsedPoints(data.Date, data.Powers)
  {
    if !IsValidDate(data.Date) {
      return Failure(DateError(data.Date));
    }
    var result: seq<ParsedPowerData> := [];
    for i := 0 to |data.Powers|
      invariant result == ParsedPoints(data.Date, data.Powers[..i])
    {
      var p := data.Powers[i];
      assert data.Powers[..i + 1][..i] == data.Powers[..i];
      var timeStr := p.Time;
      if ' ' in timeStr {
        var parts := Split(timeStr, ' ');
        if |parts| == 2 {
          timeStr := parts[1];
        }
      }
      var parts := Split(timeStr, ':');
      if |parts| < 2 {
        continue;
      }
      var hour := Atoi(parts[0]);
      if hour.None? {
        continue;
      }
      var minute := Atoi(parts[1]);
      if minute.None? {
        continue;
      }
      result := result + [ParsedPowerData(data.Date, timeStr, p.Power, hour.value, minute.value)];
    }
    assert data.Powers[..|data.Powers|] == data.Powers;
    return Success(result);
  }

  /** `idx` traces `out` back to `ps`: increasing indices into `ps`, and each
      output element is what ParsePoint makes of the reading at its index. */
  ghost predicate Traces(date: string, ps: seq<PowerDataPoint>, out: seq<ParsedPowerData>, idx: seq<nat>)
  {
    && |out| == |idx|
    && (forall k, l :: 0 <= k < l < |idx| ==> idx[k] < idx[l])
    && (forall k :: 0 <= k < |idx| ==> idx[k] < |ps| && ParsePoint(date, ps[idx[k]]) == Some(out[k]))
  }

  /** A reading that parses keeps its power, gets the day's date, and stores
      its time part. */
  lemma ParsePointKeeps(date: string, p: PowerDataPoint)
    ensures ParsePoint(date, p).Some? ==>
      && ParsePoint(date, p).value.Date == date
      && ParsePoint(date, p).value.Power == p.Power
      && ParsePoint(date, p).value.Time == TimePart(p.Time)
    ensures var parts := Split(TimePart(p.Time), ':');
      ParsePoint(date, p).Some? ==>
        && |parts| >= 2 && Atoi(parts[0]).Some? && Atoi(parts[1]).Some?
        && ParsePoint(date, p).value.Hour == Atoi(parts[0]).value
        && ParsePoint(date, p).value.Minute == Atoi(parts[1]).value
  {
  }

  /** A trace into the readings but the last is a trace into all of them. */
  lemma TracesWiden(date: string, ps: seq<PowerDataPoint>, out: seq<ParsedPowerData>, idx: seq<nat>)
    requires |ps| > 0 && Traces(date, ps[..|ps| - 1], out, idx)
    ensures Traces(date, ps, out, idx)
  {
    forall k | 0 <= k < |idx|
      ensures idx[k] < |ps| && ParsePoint(date, ps[idx[k]]) == Some(out[k])
    {
      assert ps[idx[k]] == ps[..|ps| - 1][idx[k]];
    }
  }

  /** A last reading that parses extends the trace by its own index. */
  lemma TracesAppend(date: string, ps: seq<PowerDataPoint>, out: seq<ParsedPowerData>, idx: seq<nat>,
                     x: ParsedPowerData)
    requires |ps| > 0 && Traces(date, ps[..|ps| - 1], out, idx)
    requires ParsePoint(date, ps[|ps| - 1]) == Some(x)
    ensures Traces(date, ps, out + [x], idx + [|ps| - 1])
  {
    TracesWiden(date, ps, out, idx);
    var out', idx' := out + [x], idx + [|ps| - 1];
    forall k | 0 <= k < |idx'|
      ensures idx'[k] < |ps| && ParsePoint(date, ps[idx'[k]]) == Some(out'[k])
    {
      if k < |idx| {
        assert idx'[k] == idx[k] && out'[k] == out[k];
      }
    }
    forall k, l | 0 <= k < l < |idx'|
      ensures idx'[k] < idx'[l]
    {
      assert idx'[k] == idx[k];
      if l < |idx| {
        assert idx'[l] == idx[l];
      }
    }
  }

  /** The output is a subsequence of the input: SourceIndices traces it back. */
  lemma {:induction false} ParsedIsTraced(date: string, ps: seq<PowerDataPoint>)
    ensures |SourceIndices(date, ps)| <= |ps|
    ensures Traces(date, ps, ParsedPoints(date, ps), SourceIndices(date, ps))
  {
    if |ps| > 0 {
      var init := ps[..|ps| - 1];
      ParsedIsTraced(date, init);
      var out0, idx0 := ParsedPoints(date, init), SourceIndices(date, init);
      match ParsePoint(date, ps[|ps| - 1])
      case None =>
        TracesWiden(date, ps, out0, idx0);
      case Some(x) =>
        TracesAppend(date, ps, out0, idx0, x);
    }
  }

  /** Every parsed reading carries the day's date and the power of the reading
      it came from, and there are no more of them than readings. */
  lemma ParsedIsSubsequence(date: string, ps: seq<PowerDataPoint>)
    ensures |ParsedPoints(date, ps)| <= |ps|
    ensures Traces(date, ps, ParsedPoints(date, ps), SourceIndices(date, ps))
    ensures forall k :: 0 <= k < |ParsedPoints(date, ps)| ==>
      && ParsedPoints(date, ps)[k].Date == date
      && ParsedPoints(date, ps)[k].Power == ps[SourceIndices(date, ps)[k]].Power
  {
    ParsedIsTraced(date, ps);
    var out, idx := ParsedPoints(date, ps), SourceIndices(date, ps);
    forall k | 0 <= k < |out|
      ensures out[k].Date == date && out[k].Power == ps[idx[k]].Power
    {
      ParsePointKeeps(date, ps[idx[k]]);
    }
  }

  /** Every reading that parses is kept: its index is among the source
      indices, so the readings dropped are exactly those ParsePoint rejects. */
  lemma {:induction false} ParsedIsComplete(date: string, ps: seq<PowerDataPoint>, i: int)
    requires 0 <= i < |ps| && ParsePoint(date, ps[i]).Some?
    ensures i in SourceIndices(date, ps)
  {
    var init := ps[..|ps| - 1];
    if i < |init| {
      assert ps[i] == init[i];
      ParsedIsComplete(date, init, i);
    }
  }

  /** All readings are kept when all parse, and none when none does. */
  lemma {:induction false} ParsedCount(date: string, ps: seq<PowerDataPoint>)
    ensures (forall i :: 0 <= i < |ps| ==> ParsePoint(date, ps[i]).Some?) ==>
      |ParsedPoints(date, ps)| == |ps|
    ensures (forall i :: 0 <= i < |ps| ==> ParsePoint(date, ps[i]).None?) ==>
      ParsedPoints(date, ps) == []
  {
    if |ps| > 0 {
      var init := ps[..|ps| - 1];
      ParsedCount(date, init);
      assert forall k :: 0 <= k < |init| ==> ps[k] == init[k];
    }
  }

  /** The space rule of TimePart in terms of the number of spaces. */
  lemma TimePartBySpaces(t: string)
    ensures Count(t, ' ') == 1 ==> |Split(t, ' ')| == 2 && TimePart(t) == Split(t, ' ')[1]
    ensures Count(t, ' ') != 1 ==> TimePart(t) == t
  {
    SplitLength(t, ' ');
    CountZero(t, ' ');
  }

  /** With exactly one space, the time part is what follows it: the text is
      some space-free date part, a space and the space-free time part. */
  lemma TimePartShape(t: string) returns (datePart: string)
    ensures Count(t, ' ') == 1 ==>
      ' ' !in datePart && ' ' !in TimePart(t) && t == datePart + " " + TimePart(t)
  {
    datePart := "";
    if Count(t, ' ') == 1 {
      TimePartBySpaces(t);
      SplitPiecesFree(t, ' ');
      JoinSplit(t, ' ');
      var parts := Split(t, ' ');
      datePart := parts[0];
      assert parts[1..] == [parts[1]];
      assert t == parts[0] + [' '] + parts[1];
    }
  }

  lemma {:induction false} CountZero(s: string, c: char)
    ensures (Count(s, c) == 0) == (c !in s)
  {
    if |s| > 0 {
      CountZero(s[1..], c);
      assert s == [s[0]] + s[1..];
    }
  }

  /** Splitting at a separator the first part does not contain. */
  lemma {:induction false} SplitAtFirst(a: string, rest: string, sep: char)
    requires sep !in a
    ensures Split(a + [sep] + rest, sep) == [a] + Split(rest, sep)
  {
    if |a| > 0 {
      SplitAtFirst(a[1..], rest, sep);
      assert (a + [sep] + rest)[1..] == a[1..] + [sep] + rest;
      assert [a[0]] + a[1..] == a;
    } else {
      assert a + [sep] + rest == [sep] + rest;
    }
  }

  lemma {:induction false} SplitWithoutSeparator(s: string, sep: char)
    requires sep !in s
    ensures Split(s, sep) == [s]
  {
    if |s| > 0 {
      SplitWithoutSeparator(s[1..], sep);
      assert [s[0]] + s[1..] == s;
    }
  }

  /** ParsePoint in terms of the time part and its ":"-fields. */
  lemma ParsePointFromFields(date: string, p: PowerDataPoint, hour: int, minute: int)
    requires |Split(TimePart(p.Time), ':')| >= 2
    requires Atoi(Split(TimePart(p.Time), ':')[0]) == Some(hour)
    requires Atoi(Split(TimePart(p.Time), ':')[1]) == Some(minute)
    ensures ParsePoint(date, p) == Some(ParsedPowerData(date, TimePart(p.Time), p.Power, hour, minute))
  {
  }

  /** The time part of "date time" is "time", and a time without spaces is its
      own time part. */
  lemma TimePartOfDated(prefix: string, t: string)
    requires ' ' !in prefix && ' ' !in t
    ensures TimePart(t) == t
    ensures TimePart(prefix + " " + t) == t
  {
    SplitWithoutSeparator(t, ' ');
    assert prefix + " " + t == prefix + [' '] + t;
    SplitAtFirst(prefix, t, ' ');
  }

  /** The first two ":"-fields of "H:M" followed by nothing or by ":...". */
  lemma FieldsOfClock(h: string, m: string, tail: string)
    requires ':' !in h && ':' !in m
    requires tail == [] || tail[0] == ':'
    ensures var parts := Split(h + ":" + m + tail, ':');
      |parts| >= 2 && parts[0] == h && parts[1] == m
  {
    assert h + ":" + m + tail == h + [':'] + (m + tail);
    SplitAtFirst(h, m + tail, ':');
    if tail == [] {
      assert m + tail == m;
      SplitWithoutSeparator(m, ':');
    } else {
      assert m + tail == m + [':'] + tail[1..];
      SplitAtFirst(m, tail[1..], ':');
    }
  }

  /** Round trip: an hour and a minute written in decimal as "H:M", optionally
      behind a date and a space and followed by more ":"-fields, parse back to
      that hour and minute.  No range check is applied, so 25 and -1 come
      back as they are. */
  lemma ParsePointRoundTrip(date: string, prefix: string, hour: int, minute: int, tail: string, power: real)
    requires MinInt64 <= hour <= MaxInt64 && MinInt64 <= minute <= MaxInt64
    requires ' ' !in prefix && ' ' !in tail
    requires tail == [] || tail[0] == ':'
    ensures var hm := Itoa(hour) + ":" + Itoa(minute) + tail;
      && ParsePoint(date, PowerDataPoint(hm, power)) == Some(ParsedPowerData(date, hm, power, hour, minute))
      && ParsePoint(date, PowerDataPoint(prefix + " " + hm, power)) == Some(ParsedPowerData(date, hm, power, hour, minute))
  {
    var h, m := Itoa(hour), Itoa(minute);
    ItoaHasNoSeparators(hour);
    ItoaHasNoSeparators(minute);
    AtoiItoa(hour);
    AtoiItoa(minute);
    var hm := h + ":" + m + tail;
    assert ' ' !in hm;
    TimePartOfDated(prefix, hm);
    FieldsOfClock(h, m, tail);
    ParsePointFromFields(date, PowerDataPoint(hm, power), hour, minute);
    ParsePointFromFields(date, PowerDataPoint(prefix + " " + hm, power), hour, minute);
  }

  /** Two-digit fields with a leading zero, as in the plant test's "06:05". */
  lemma AtoiTwoDigits(c1: char, c2: char)
    requires IsDigit(c1) && IsDigit(c2)
    ensures Atoi([c1, c2]) == Some((c1 as int - '0' as int) * 10 + (c2 as int - '0' as int))
  {
    var s := [c1, c2];
    assert s[..1] == [c1];
    assert [c1][..0] == [];
    assert AllDigits(s);
    assert DigitsValue([c1]) == c1 as int - '0' as int;
    assert DigitsValue(s) == (c1 as int - '0' as int) * 10 + (c2 as int - '0' as int);
  }

  /** A reading "ab:cd" of digit pairs parses to hour ab and minute cd. */
  lemma ParsePointClock(date: string, a: string, b: string, power: real)
    requires |a| == 2 && |b| == 2 && AllDigits(a) && AllDigits(b)
    ensures ParsePoint(date, PowerDataPoint(a + ":" + b, power)) ==
      Some(ParsedPowerData(date, a + ":" + b, power,
        (a[0] as int - '0' as int) * 10 + (a[1] as int - '0' as int),
        (b[0] as int - '0' as int) * 10 + (b[1] as int - '0' as int)))
  {
    var t := a + ":" + b;
    assert ' ' !in t;
    assert t == a + [':'] + b;
    assert ':' !in a && ':' !in b;
    SplitAtFirst(a, b, ':');
    SplitWithoutSeparator(b, ':');
    assert a == [a[0], a[1]] && b == [b[0], b[1]];
    AtoiTwoDigits(a[0], a[1]);
    AtoiTwoDigits(b[0], b[1]);
  }

  /** "12:30" of the plant test gives hour 12 and minute 30. */
  lemma ParsePointNoon(date: string, t: string)
    requires t == "12:30"
    ensures ParsePoint(date, PowerDataPoint(t, 4523.5)) == Some(ParsedPowerData(date, t, 4523.5, 12, 30))
  {
    ParsePointClock(date, "12", "30", 4523.5);
    assert "12" + ":" + "30" == t;
  }

  /** "06:05" of the plant test: leading zeros are accepted. */
  lemma ParsePointLeadingZeros(date: string, t: string)
    requires t == "06:05"
    ensures ParsePoint(date, PowerDataPoint(t, 25.5)) == Some(ParsedPowerData(date, t, 25.5, 6, 5))
  {
    ParsePointClock(date, "06", "05", 25.5);
    assert "06" + ":" + "05" == t;
  }

  /** "25:00": no range check, hour 25 is let through. */
  lemma ParsePointHourTooLarge(date: string, t: string)
    requires t == "25:00"
    ensures ParsePoint(date, PowerDataPoint(t, 1.0)) == Some(ParsedPowerData(date, t, 1.0, 25, 0))
  {
    ParsePointClock(date, "25", "00", 1.0);
    assert "25" + ":" + "00" == t;
  }

  /** "-1:5": a negative hour is let through. */
  lemma ParsePointNegativeHour(date: string, t: string)
    requires t == "-1:5"
    ensures ParsePoint(date, PowerDataPoint(t, 1.0)) == Some(ParsedPowerData(date, t, 1.0, -1, 5))
  {
    ParsePointRoundTrip(date, "", -1, 5, "", 1.0);
    assert Itoa(-1) + ":" + Itoa(5) + "" == t;
  }

  /** A time without a colon is skipped. */
  lemma ParsePointNoColon(date: string, t: string, power: real)
    requires ':' !in t && ' ' !in t
    ensures ParsePoint(date, PowerDataPoint(t, power)) == None
  {
    SplitWithoutSeparator(t, ':');
  }

  // ---------------------------------------------------------------------------
  // Map to sorted slice (GetPlantPower, GetPlantEnergy)

  /** The comparator of the sort.Slice calls: by key, with Go's string `<`. */
  function ByKey(x: (string, real), y: (string, real)): bool
  {
    LexLess(x.0, y.0)
  }

  lemma ByKeyIsStrictWeakOrder()
    ensures Sorting.StrictWeakOrder(ByKey)
  {
    forall x: (string, real) ensures !ByKey(x, x) {
      LexLessIrreflexive(x.0);
    }
    forall x: (string, real), y: (string, real), z: (string, real) | ByKey(x, y) && ByKey(y, z)
      ensures ByKey(x, z)
    {
      LexLessTransitive(x.0, y.0, z.0);
    }
    forall x: (string, real), y: (string, real), z: (string, real) | !ByKey(x, y) && !ByKey(y, z)
      ensures !ByKey(x, z)
    {
      if x.0 != y.0 { LexLessTotal(x.0, y.0); }
      if y.0 != z.0 { LexLessTotal(y.0, z.0); }
      if z.0 != y.0 && y.0 != x.0 { LexLessTransitive(z.0, y.0, x.0); }
      LexLessIrreflexive(x.0);
      if ByKey(x, z) && x.0 != z.0 && LexLess(z.0, x.0) { LexLessTransitive(x.0, z.0, x.0); }
    }
  }

  lemma CountsTwoWhenRepeated<T>(s: seq<T>, i: int, j: int)
    requires 0 <= i < j < |s|
    ensures s[i] == s[j] ==> multiset(s)[s[i]] >= 2
  {
    assert s == s[..i] + [s[i]] + s[i + 1..j] + [s[j]] + s[j + 1..];
  }

  /** `es` lists the entries of `m`, each key once, with its value. */
  ghost predicate ListsEntries(m: map<string, real>, es: seq<(string, real)>)
  {
    && |es| == |m|
    && (forall i :: 0 <= i < |es| ==> es[i].0 in m && es[i].1 == m[es[i].0])
    && (forall k :: k in m ==> exists i :: 0 <= i < |es| && es[i].0 == k)
  }

  /** `for key, value := range m { append }`: the entries in an arbitrary order. */
  method CollectEntries(m: map<string, real>) returns (collected: seq<(string, real)>)
    ensures ListsEntries(m, collected)
    ensures forall x :: multiset(collected)[x] <= 1
  {
    var rest := m.Keys;
    collected := [];
    while rest != {}
      invariant rest <= m.Keys
      invariant |collected| + |rest| == |m|
      invariant forall i :: 0 <= i < |collected| ==>
        collected[i].0 in m && collected[i].0 !in rest && collected[i].1 == m[collected[i].0]
      invariant forall k :: k in m && k !in rest ==> exists i :: 0 <= i < |collected| && collected[i].0 == k
      invariant forall x :: multiset(collected)[x] <= 1
      decreases rest
    {
      var t :| t in rest;
      assert (t, m[t]) !in collected;
      ghost var before := collected;
      collected := collected + [(t, m[t])];
      rest := rest - {t};
      forall k | k in m && k !in rest ensures exists i :: 0 <= i < |collected| && collected[i].0 == k {
        if k == t {
          assert collected[|before|].0 == k;
        } else {
          var i :| 0 <= i < |before| && before[i].0 == k;
          assert collected[i].0 == k;
        }
      }
    }
  }

  /** A permutation of a listing of entries is a listing of entries. */
  lemma PermutedListing(m: map<string, real>, collected: seq<(string, real)>, es: seq<(string, real)>)
    requires ListsEntries(m, collected)
    requires multiset(es) == multiset(collected)
    ensures ListsEntries(m, es)
  {
    assert |es| == |multiset(es)| == |multiset(collected)| == |collected|;
    forall i | 0 <= i < |es| ensures es[i].0 in m && es[i].1 == m[es[i].0] {
      assert es[i] in multiset(collected);
    }
    forall k | k in m ensures exists i :: 0 <= i < |es| && es[i].0 == k {
      var c :| 0 <= c < |collected| && collected[c].0 == k;
      assert collected[c] in multiset(es);
    }
  }

  /** A listing of entries without repeats, sorted by key, is strictly ascending. */
  lemma SortedListingAscends(m: map<string, real>, es: seq<(string, real)>)
    requires ListsEntries(m, es)
    requires forall x :: multiset(es)[x] <= 1
    requires Sorting.SortedBy(es, ByKey)
    ensures forall i, j :: 0 <= i < j < |es| ==> LexLess(es[i].0, es[j].0)
  {
    forall i, j | 0 <= i < j < |es| ensures LexLess(es[i].0, es[j].0) {
      CountsTwoWhenRepeated(es, i, j);
      assert !ByKey(es[j], es[i]);
      if es[i].0 != es[j].0 {
        LexLessTotal(es[i].0, es[j].0);
      }
    }
  }

  /** The entries of a map[string]float64, one per key, in ascending key order:
      what both conversions build before choosing the record type. */
  method SortedEntries(m: map<string, real>) returns (es: seq<(string, real)>)
    ensures ListsEntries(m, es)
    ensures forall i, j :: 0 <= i < j < |es| ==> LexLess(es[i].0, es[j].0)
  {
    var collected := CollectEntries(m);
    var a := new (string, real)[|collected|](i requires 0 <= i < |collected| => collected[i]);
    assert a[..] == collected;
    ByKeyIsStrictWeakOrder();
    Sorting.SortInPlace(a, ByKey);
    es := a[..];
    PermutedListing(m, collected, es);
    SortedListingAscends(m, es);
  }

  /** The conversion in GetPlantPower: one point per map key, carrying that
      key's power, strictly ascending by Time. */
  method PowerPoints(powers: map<string, real>) returns (points: seq<PowerDataPoint>)
    ensures |points| == |powers|
    ensures forall i :: 0 <= i < |points| ==> points[i].Time in powers && points[i].Power == powers[points[i].Time]
    ensures forall t :: t in powers ==> exists i :: 0 <= i < |points| && points[i].Time == t
    ensures forall i, j :: 0 <= i < j < |points| ==> LexLess(points[i].Time, points[j].Time)
  {
    var es := SortedEntries(powers);
    points := seq(|es|, i requires 0 <= i < |es| => PowerDataPoint(es[i].0, es[i].1));
    forall t | t in powers ensures exists i :: 0 <= i < |points| && points[i].Time == t {
      var i :| 0 <= i < |es| && es[i].0 == t;
      assert points[i].Time == t;
    }
  }

  /** The conversion in GetPlantEnergy: one point per map key, carrying that
      key's energy, strictly ascending by Date. */
  method EnergyPoints(datas: map<string, real>) returns (points: seq<EnergyDataPoint>)
    ensures |points| == |datas|
    ensures forall i :: 0 <= i < |points| ==> points[i].Date in datas && points[i].Energy == datas[points[i].Date]
    ensures forall d :: d in datas ==> exists i :: 0 <= i < |points| && points[i].Date == d
    ensures forall i, j :: 0 <= i < j < |points| ==> LexLess(points[i].Date, points[j].Date)
  {
    var es := SortedEntries(datas);
    points := seq(|es|, i requires 0 <= i < |es| => EnergyDataPoint(es[i].0, es[i].1));
    forall d | d in datas ensures exists i :: 0 <= i < |points| && points[i].Date == d {
      var i :| 0 <= i < |es| && es[i].0 == d;
      assert points[i].Date == d;
    }
  }
}
