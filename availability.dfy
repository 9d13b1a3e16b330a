/** What `parse_weekend_availability` makes of the matches it finds: the date is
    rebuilt from the monitored year and month and the captured day, impossible
    dates are dropped, the weekday is computed rather than read, and only weekend
    days with lodging left become records, in match order. */
module Availability {
  import opened Decimal
  import opened Calendar
  import opened Pattern

  /** One available date: `{'date': ..., 'weekday': ..., 'remaining': ...}`. */
  datatype Record = Record(date: string, weekday: string, remaining: nat)

  const FridayLabel: string := "금요일"
  const SaturdayLabel: string := "토요일"

  /** `f"{year}-{month:02d}-{day:02d}"`. */
  function DateString(year: nat, month: nat, day: nat): string {
    DecimalString(year) + "-" + ZeroPad2(month) + "-" + ZeroPad2(day)
  }

  /** Reads "Y-MM-DD" back: the year is everything before the last six characters. */
  function ParseDate(s: string): Option<(nat, nat, nat)> {
    if |s| < 7 then None
    else
      var y, m, d := s[..|s| - 6], s[|s| - 5..|s| - 3], s[|s| - 2..];
      if s[|s| - 6] == '-' && s[|s| - 3] == '-' && IsDigits(y) && IsDigits(m) && IsDigits(d)
      then Some((ParseDecimal(y), ParseDecimal(m), ParseDecimal(d)))
      else None
  }

  /** The label the parser gives a kept weekday: Friday's for weekday 4, Saturday's for any other. */
  function WeekdayLabel(w: int): (name: string)
    ensures name == FridayLabel <==> w == Friday
    ensures name == FridayLabel || name == SaturdayLabel
  {
    if w == Friday then FridayLabel else SaturdayLabel
  }

  /** Both groups of a match are digit strings, so `int()` reads them. */
  predicate NumericGroups(h: Hit) {
    IsDigits(h.dayText) && IsDigits(h.remainingText)
  }

  /** What a record says about itself: its date is the "Y-MM-DD" text of a real
      day of the monitored month, that day is a monitored weekday, the label names
      it, and there is lodging left. */
  ghost predicate IsWeekendRecord(year: int, month: int, weekendDays: seq<int>, r: Record) {
    && ParseDate(r.date).Some?
    && (var (y, m, d) := ParseDate(r.date).value;
        && y == year && m == month && IsValidDate(y, m, d)
        && r.date == DateString(y, m, d)
        && Weekday(y, m, d) in weekendDays
        && r.weekday == WeekdayLabel(Weekday(y, m, d)))
    && r.remaining >= 1
  }

  /** One iteration of the parser's loop: the record a match yields, if any. */
  function Classify(year: int, month: int, weekendDays: seq<int>, h: Hit): (r: Option<Record>)
    requires NumericGroups(h)
    ensures var day, remaining := ParseDecimal(h.dayText), ParseDecimal(h.remainingText);
      r.Some? <==> IsValidDate(year, month, day) && Weekday(year, month, day) in weekendDays && remaining > 0
    ensures r.Some? ==> IsWeekendRecord(year, month, weekendDays, r.value)
    ensures r.Some? ==> ParseDate(r.value.date) == Some((year, month, ParseDecimal(h.dayText)))
    ensures r.Some? ==> r.value.remaining == ParseDecimal(h.remainingText)
  {
    var day, remaining := ParseDecimal(h.dayText), ParseDecimal(h.remainingText);
    if !IsValidDate(year, month, day) then None
    else
      var w := Weekday(year, month, day);
      if w in weekendDays && remaining > 0 then
        DateRoundTrip(year, month, day);
        Some(Record(DateString(year, month, day), WeekdayLabel(w), remaining))
      else None
  }

  /** The records the parser returns for these matches, built as its loop builds them. */
  function WeekendRecords(year: int, month: int, weekendDays: seq<int>, hits: seq<Hit>): (records: seq<Record>)
    requires forall k :: 0 <= k < |hits| ==> NumericGroups(hits[k])
    ensures |records| <= |hits|
  {
    if hits == [] then []
    else
      var last := hits[|hits| - 1];
      WeekendRecords(year, month, weekendDays, hits[..|hits| - 1]) + Yield(year, month, weekendDays, last)
  }

  /** The records one match contributes: its record, or none. */
  function Yield(year: int, month: int, weekendDays: seq<int>, h: Hit): seq<Record>
    requires NumericGroups(h)
  {
    match Classify(year, month, weekendDays, h)
    case Some(r) => [r]
    case None => []
  }

  /** Reading one more match appends that match's record, if it has one. */
  lemma RecordsStep(year: int, month: int, weekendDays: seq<int>, hits: seq<Hit>, i: nat)
    requires i < |hits|
    requires forall k :: 0 <= k < |hits| ==> NumericGroups(hits[k])
    ensures WeekendRecords(year, month, weekendDays, hits[..i + 1])
         == WeekendRecords(year, month, weekendDays, hits[..i])
            + Yield(year, month, weekendDays, hits[i])
  {
    assert hits[..i + 1][..i] == hits[..i];
  }

  /** The date text reads back as the numbers it was written from. */
  lemma DateRoundTrip(year: nat, month: nat, day: nat)
    requires month < 100 && day < 100
    ensures ParseDate(DateString(year, month, day)) == Some((year, month, day))
  {
    var y, m, d := DecimalString(year), ZeroPad2(month), ZeroPad2(day);
    ZeroPad2RoundTrip(month);
    ZeroPad2RoundTrip(day);
    ParseDecimalString(year);
    var s := DateString(year, month, day);
    assert s == y + "-" + m + "-" + d;
    assert s[..|s| - 6] == y;
    assert s[|s| - 5..|s| - 3] == m;
    assert s[|s| - 2..] == d;
  }

  /** In a four-digit year the date text is always ten characters, "YYYY-MM-DD". */
  lemma DateStringLength(year: nat, month: nat, day: nat)
    requires 1000 <= year <= 9999 && month < 100 && day < 100
    ensures |DateString(year, month, day)| == 10
  {
    ZeroPad2RoundTrip(month);
    ZeroPad2RoundTrip(day);
    DecimalStringLength(year, 4);
    DecimalStringLength(year, 5);
  }

  /** Every record is a weekend record of the monitored month with lodging left. */
  lemma {:induction false} RecordsAreWeekendRecords(year: int, month: int, weekendDays: seq<int>, hits: seq<Hit>)
    requires forall k :: 0 <= k < |hits| ==> NumericGroups(hits[k])
    ensures forall r :: r in WeekendRecords(year, month, weekendDays, hits) ==> IsWeekendRecord(year, month, weekendDays, r)
  {
    if hits != [] {
      RecordsAreWeekendRecords(year, month, weekendDays, hits[..|hits| - 1]);
    }
  }

  /** A record of a four-digit year carries its date as ten characters, "YYYY-MM-DD". */
  lemma RecordDateLength(year: int, month: int, weekendDays: seq<int>, r: Record)
    requires 1000 <= year && IsWeekendRecord(year, month, weekendDays, r)
    ensures |r.date| == 10 && r.date[4] == '-' && r.date[7] == '-'
  {
    var (y, m, d) := ParseDate(r.date).value;
    DateStringLength(y, m, d);
  }

  /** Matches are handled one by one in order: the records of two runs of matches
      are the records of the first run followed by those of the second, with no
      merging of equal records. */
  lemma {:induction false} RecordsOfConcat(year: int, month: int, weekendDays: seq<int>, a: seq<Hit>, b: seq<Hit>)
    requires forall k :: 0 <= k < |a| ==> NumericGroups(a[k])
    requires forall k :: 0 <= k < |b| ==> NumericGroups(b[k])
    ensures forall k :: 0 <= k < |a + b| ==> NumericGroups((a + b)[k])
    ensures WeekendRecords(year, month, weekendDays, a + b)
         == WeekendRecords(year, month, weekendDays, a) + WeekendRecords(year, month, weekendDays, b)
    decreases |b|
  {
    assert forall k :: 0 <= k < |a + b| ==> NumericGroups((a + b)[k]) by {
      forall k | 0 <= k < |a + b| ensures NumericGroups((a + b)[k]) {
        if k < |a| { assert (a + b)[k] == a[k]; } else { assert (a + b)[k] == b[k - |a|]; }
      }
    }
    if b == [] {
      assert a + b == a;
    } else {
      var b' := b[..|b| - 1];
      assert (a + b)[..|a + b| - 1] == a + b';
      assert (a + b)[|a + b| - 1] == b[|b| - 1];
      RecordsOfConcat(year, month, weekendDays, a, b');
    }
  }

  /** A match the parser cannot use, such as one whose day is not in the month,
      is skipped on its own: the matches after it are still read. */
  lemma SkippedMatch(year: int, month: int, weekendDays: seq<int>, a: seq<Hit>, h: Hit, b: seq<Hit>)
    requires forall k :: 0 <= k < |a| ==> NumericGroups(a[k])
    requires forall k :: 0 <= k < |b| ==> NumericGroups(b[k])
    requires NumericGroups(h) && Classify(year, month, weekendDays, h).None?
    ensures forall k :: 0 <= k < |a + [h] + b| ==> NumericGroups((a + [h] + b)[k])
    ensures WeekendRecords(year, month, weekendDays, a + [h] + b)
         == WeekendRecords(year, month, weekendDays, a) + WeekendRecords(year, month, weekendDays, b)
  {
    var ah := a + [h];
    assert WeekendRecords(year, month, weekendDays, ah) == WeekendRecords(year, month, weekendDays, a) by {
      assert ah[..|ah| - 1] == a && ah[|ah| - 1] == h;
    }
    RecordsOfConcat(year, month, weekendDays, ah, b);
  }

  /** Matches that differ only in the weekday glyph, or in where they stand, give
      the same records: the glyph on the page is never consulted. */
  lemma {:induction false} GlyphIgnored(year: int, month: int, weekendDays: seq<int>, hits: seq<Hit>, hits': seq<Hit>)
    requires |hits| == |hits'|
    requires forall k :: 0 <= k < |hits| ==> NumericGroups(hits[k])
    requires forall k :: 0 <= k < |hits| ==>
      hits[k].dayText == hits'[k].dayText && hits[k].remainingText == hits'[k].remainingText
    ensures forall k :: 0 <= k < |hits'| ==> NumericGroups(hits'[k])
    ensures WeekendRecords(year, month, weekendDays, hits) == WeekendRecords(year, month, weekendDays, hits')
  {
    assert forall k :: 0 <= k < |hits'| ==> NumericGroups(hits'[k]) by {
      forall k | 0 <= k < |hits'| ensures NumericGroups(hits'[k]) {
        assert NumericGroups(hits[k]);
      }
    }
    if hits != [] {
      GlyphIgnored(year, month, weekendDays, hits[..|hits| - 1], hits'[..|hits'| - 1]);
    }
  }

  /** With the monitored days Friday and Saturday, a record is labelled Saturday
      exactly when its date is a Saturday. */
  lemma SaturdayLabelled(year: int, month: int, r: Record)
    requires IsWeekendRecord(year, month, [Friday, Saturday], r)
    ensures var (y, m, d) := ParseDate(r.date).value;
      (r.weekday == SaturdayLabel <==> Weekday(y, m, d) == Saturday)
      && (r.weekday == FridayLabel <==> Weekday(y, m, d) == Friday)
  {
  }

  /** Every match found in a page has numeric groups. */
  lemma FoundGroupsNumeric(s: string)
    ensures forall k :: 0 <= k < |FindAll(s, 0)| ==> NumericGroups(FindAll(s, 0)[k])
  {
    forall k | 0 <= k < |FindAll(s, 0)| ensures NumericGroups(FindAll(s, 0)[k]) {
      FindAllSound(s, 0, k);
    }
  }

  /** A lone cell for 5 September 2025 that shows the Wednesday glyph "수" is
      found with that glyph ... */
  lemma WrongGlyphCellFound()
    ensures FindAll(Rendered("5", '수', "2"), 0) == [WrongGlyphHit()]
  {
    CellRoundTrip("5", '수', "2");
  }

  /** ... and still gives a Friday record: the weekday comes from the calendar,
      not from the page. */
  lemma WrongGlyphCellIsFriday()
    ensures WeekendRecords(2025, 9, [Friday, Saturday], [WrongGlyphHit()]) == [Record("2025-09-05", FridayLabel, 2)]
  {
    FirstMonitoredWeekend();
    assert ParseDecimal("5") == 5 && ParseDecimal("2") == 2;
    assert DateString(2025, 9, 5) == "2025-09-05";
    assert [WrongGlyphHit()][..0] == [];
  }

  function WrongGlyphHit(): Hit {
    Hit("5", '수', "2", 0, |Rendered("5", '수', "2")|)
  }
}
