/** The monitor object: its fixed configuration and the two operations that turn
    page text into records and results into a report message. */
module Monitor {
  import opened Decimal
  import opened Calendar
  import opened Pattern
  import opened Availability
  import opened Report

  class ComprehensiveParkMonitor {
    /** The reservation page; the report's link points here. */
    const url: string
    const targetYear: int
    const targetMonths: seq<int>
    /** Monitored weekdays, Monday = 0. */
    const weekendDays: seq<int>
    /** Park name to the park's code on the reservation site, in listing order. */
    const parks: seq<(string, string)>

    constructor ()
      ensures url == "https://reservation.knps.or.kr/eco/searchEcoMonthReservation.do"
      ensures targetYear == 2025 && targetMonths == [9, 10] && weekendDays == [Friday, Saturday]
      ensures parks == [
        ("북한산", "B971002"), ("지리산", "B014003"), ("소백산", "B123002"),
        ("설악산", "B301002"), ("한려해상", "B024002"), ("무등산", "B061002"),
        ("가야산", "B051001"), ("내장산", "B063002"), ("변산반도", "B183001")]
    {
      url := "https://reservation.knps.or.kr/eco/searchEcoMonthReservation.do";
      targetYear := 2025;
      targetMonths := [9, 10];
      weekendDays := [4, 5];
      parks := [
        ("북한산", "B971002"), ("지리산", "B014003"), ("소백산", "B123002"),
        ("설악산", "B301002"), ("한려해상", "B024002"), ("무등산", "B061002"),
        ("가야산", "B051001"), ("내장산", "B063002"), ("변산반도", "B183001")];
    }

    /** `parse_weekend_availability`: the weekend dates of `month` with lodging
        left, one per calendar cell found in the page text, in page order. */
    method ParseWeekendAvailability(pageText: string, month: int) returns (availableDates: seq<Record>)
      ensures FoundNumeric(pageText)
      ensures availableDates == WeekendRecords(targetYear, month, weekendDays, FindAll(pageText, 0))
      ensures forall r :: r in availableDates ==> IsWeekendRecord(targetYear, month, weekendDays, r)
      ensures |availableDates| <= |FindAll(pageText, 0)|
    {
      var matches := FindAll(pageText, 0);
      FoundGroupsNumeric(pageText);
      availableDates := ReadMatches(targetYear, month, weekendDays, matches);
      RecordsAreWeekendRecords(targetYear, month, weekendDays, matches);
    }

    /** `send_comprehensive_report`: the message it hands to the sender, or None
        when it returns False without sending because there are no results. */
    method SendComprehensiveReport(allResults: ParkResults, checkedAt: string) returns (sent: Option<string>)
      ensures sent == ReportMessage(url, checkedAt, allResults)
    {
      if |allResults| == 0 {
        return None;
      }
      var availableParks := SelectAvailableParks(allResults);
      if |availableParks| == 0 {
        return Some(StatusMessage(checkedAt));
      }
      var message := ReportHeader(checkedAt);
      ghost var header := message;
      var i := 0;
      while i < |availableParks|
        invariant 0 <= i <= |availableParks|
        invariant message == header + ConcatMap(availableParks[..i], ParkSection)
      {
        message := AppendParkSection(message, availableParks[i]);
        JoinStep(header, availableParks, ParkSection, i);
        i := i + 1;
      }
      assert availableParks[..i] == availableParks;
      message := message + ReportFooter(url);
      return Some(message);
    }
  }

  /** The loop of `parse_weekend_availability` over the matches, in page order. */
  method ReadMatches(year: int, month: int, weekendDays: seq<int>, matches: seq<Hit>) returns (availableDates: seq<Record>)
    requires forall k :: 0 <= k < |matches| ==> NumericGroups(matches[k])
    ensures availableDates == WeekendRecords(year, month, weekendDays, matches)
  {
    availableDates := [];
    var i := 0;
    while i < |matches|
      invariant 0 <= i <= |matches|
      invariant availableDates == WeekendRecords(year, month, weekendDays, matches[..i])
    {
      var h := matches[i];
      var day := ParseDecimal(h.dayText);
      var remaining := ParseDecimal(h.remainingText);
      RecordsStep(year, month, weekendDays, matches, i);
      if IsValidDate(year, month, day) {
        var weekdayNum := Weekday(year, month, day);
        if weekdayNum in weekendDays && remaining > 0 {
          var weekdayName := if weekdayNum == 4 then "금요일" else "토요일";
          availableDates := availableDates + [Record(DateString(year, month, day), weekdayName, remaining)];
        }
      }
      i := i + 1;
    }
    assert matches[..i] == matches;
  }

  /** The filling of `available_parks`: each park's months are searched for a
      non-empty date list, stopping at the first. */
  method SelectAvailableParks(allResults: ParkResults) returns (availableParks: ParkResults)
    ensures availableParks == AvailableParks(allResults)
  {
    availableParks := [];
    var i := 0;
    while i < |allResults|
      invariant 0 <= i <= |allResults|
      invariant availableParks == AvailableParks(allResults[..i])
    {
      var (parkName, monthsData) := allResults[i];
      var parkHasAvailability := false;
      var j := 0;
      while j < |monthsData|
        invariant 0 <= j <= |monthsData|
        invariant !parkHasAvailability
        invariant forall k :: 0 <= k < j ==> monthsData[k].1 == []
      {
        if monthsData[j].1 != [] {
          parkHasAvailability := true;
          break;
        }
        j := j + 1;
      }
      assert parkHasAvailability <==> HasAvailability(monthsData);
      assert allResults[..i + 1][..i] == allResults[..i];
      if parkHasAvailability {
        availableParks := availableParks + [(parkName, monthsData)];
      }
      i := i + 1;
    }
    assert allResults[..i] == allResults;
  }

  /** One pass of the report's outer loop: a park's heading, its months, a blank line. */
  method AppendParkSection(message: string, park: (string, MonthResults)) returns (message': string)
    ensures message' == message + ParkSection(park)
  {
    var (parkName, monthsData) := park;
    message' := message + ParkHeading(parkName);
    message' := AppendMonths(message', monthsData);
    message' := message' + "\n";
  }

  /** The report's month loop for one park. */
  method AppendMonths(message: string, monthsData: MonthResults) returns (message': string)
    ensures message' == message + ConcatMap(monthsData, MonthBlock)
  {
    message' := message;
    var j := 0;
    while j < |monthsData|
      invariant 0 <= j <= |monthsData|
      invariant message' == message + ConcatMap(monthsData[..j], MonthBlock)
    {
      message' := AppendMonthBlock(message', monthsData[j]);
      JoinStep(message, monthsData, MonthBlock, j);
      j := j + 1;
    }
    assert monthsData[..j] == monthsData;
  }

  /** One pass of the report's month loop: a count and the date lines, or "no weekend". */
  method AppendMonthBlock(message: string, month: (string, seq<Record>)) returns (message': string)
    ensures message' == message + MonthBlock(month)
  {
    var (monthName, dates) := month;
    if dates != [] {
      message' := message + MonthHeading(monthName, |dates|);
      ghost var heading := message';
      var k := 0;
      while k < |dates|
        invariant 0 <= k <= |dates|
        invariant message' == heading + ConcatMap(dates[..k], DateLine)
      {
        message' := message' + DateLine(dates[k]);
        JoinStep(heading, dates, DateLine, k);
        k := k + 1;
      }
      assert dates[..k] == dates;
    } else {
      message' := message + UnavailableMonthLine(monthName);
    }
  }

  /** Appending the next piece to a joined prefix joins one element more. */
  lemma JoinStep<T>(heading: string, xs: seq<T>, f: T -> string, j: nat)
    requires j < |xs|
    ensures heading + ConcatMap(xs[..j], f) + f(xs[j]) == heading + ConcatMap(xs[..j + 1], f)
  {
    assert xs[..j + 1][..j] == xs[..j];
  }

  /** Every match found in a page can be read by `int()`. */
  predicate FoundNumeric(pageText: string) {
    forall k :: 0 <= k < |FindAll(pageText, 0)| ==> NumericGroups(FindAll(pageText, 0)[k])
  }
}
