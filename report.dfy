/** The report `send_comprehensive_report` sends: which parks it lists and the
    text of the message. A results dictionary is a sequence of (key, value) pairs
    in insertion order: park name to its months, month name ("9월") to the
    records the parser returned for that month. */
module Report {
  import opened Decimal
  import opened Pattern
  import opened Availability

  /** `months_data`: month name to that month's available dates. */
  type MonthResults = seq<(string, seq<Record>)>
  /** `all_results`: park name to its `months_data`. */
  type ParkResults = seq<(string, MonthResults)>

  /** Whether some month of a park has at least one available date. */
  predicate HasAvailability(months: MonthResults) {
    exists k :: 0 <= k < |months| && months[k].1 != []
  }

  /** `available_parks`: the parks with availability, in their original order. */
  function AvailableParks(all: ParkResults): (parks: ParkResults)
    ensures |parks| <= |all|
    ensures forall k :: 0 <= k < |parks| ==> HasAvailability(parks[k].1)
  {
    if all == [] then []
    else
      var last := all[|all| - 1];
      AvailableParks(all[..|all| - 1]) + (if HasAvailability(last.1) then [last] else [])
  }

  /** The pieces of text, one per element, joined in order. */
  function ConcatMap<T>(xs: seq<T>, f: T -> string): string {
    if xs == [] then "" else ConcatMap(xs[..|xs| - 1], f) + f(xs[|xs| - 1])
  }

  /** The message sent when no park has availability; `checkedAt` is the time of the check. */
  function StatusMessage(checkedAt: string): string {
    "\U{1F4CA} <b>국립공원 예약 현황</b>\n\n\U{1F550} 체크 시간: " + checkedAt
      + "\n\n\U{274C} 현재 9월, 10월 주말에 예약 가능한 국립공원이 없습니다.\n\n다음 체크: 10분 후"
  }

  function ReportHeader(checkedAt: string): string {
    "\U{1F389} <b>국립공원 주말 예약 가능!</b>\n\n\U{1F550} 체크 시간: " + checkedAt + "\n\n"
  }

  function ReportFooter(url: string): string {
    "\U{1F517} <b>예약 링크:</b>\n" + url + "\n\n\U{26A1} <b>빠른 예약을 권장합니다!</b>\n다음 체크: 10분 후"
  }

  function ParkHeading(name: string): string {
    "\U{1F3D4}\U{FE0F} <b>" + name + "</b>\n"
  }

  function MonthHeading(monthName: string, count: nat): string {
    "  \U{1F4C5} " + monthName + ": " + DecimalString(count) + "개 주말 예약 가능\n"
  }

  function UnavailableMonthLine(monthName: string): string {
    "  \U{1F4C5} " + monthName + ": 주말 예약 불가\n"
  }

  /** `    • {date} ({weekday}) - 잔여 {remaining}개`, one line per available date. */
  function DateLine(r: Record): string {
    "    \U{2022} " + r.date + " (" + r.weekday + ") - 잔여 " + DecimalString(r.remaining) + "개\n"
  }

  /** A month's lines: a count and its dates, or a line saying it has none. */
  function MonthBlock(month: (string, seq<Record>)): string {
    if month.1 != [] then MonthHeading(month.0, |month.1|) + ConcatMap(month.1, DateLine)
    else UnavailableMonthLine(month.0)
  }

  /** A park's lines: its name, every month, and a blank line. */
  function ParkSection(park: (string, MonthResults)): string {
    ParkHeading(park.0) + ConcatMap(park.1, MonthBlock) + "\n"
  }

  function DetailedReport(url: string, checkedAt: string, parks: ParkResults): string {
    ReportHeader(checkedAt) + ConcatMap(parks, ParkSection) + ReportFooter(url)
  }

  /** The message handed to the sender, or None when the report returns False at
      once: nothing is sent exactly when there are no results. */
  function ReportMessage(url: string, checkedAt: string, all: ParkResults): (message: Option<string>)
    ensures message.None? <==> all == []
  {
    if all == [] then None
    else
      var parks := AvailableParks(all);
      if parks == [] then Some(StatusMessage(checkedAt)) else Some(DetailedReport(url, checkedAt, parks))
  }

  /** A park is listed exactly when it has a month with at least one date. */
  lemma {:induction false} AvailableParksExact(all: ParkResults, park: (string, MonthResults))
    ensures park in AvailableParks(all) <==> park in all && HasAvailability(park.1)
  {
    if all != [] {
      var init := all[..|all| - 1];
      AvailableParksExact(init, park);
      assert all == init + [all[|all| - 1]];
    }
  }

  /** Filtering keeps the order of the parks: it distributes over concatenation. */
  lemma {:induction false} AvailableParksOfConcat(a: ParkResults, b: ParkResults)
    ensures AvailableParks(a + b) == AvailableParks(a) + AvailableParks(b)
    decreases |b|
  {
    if b == [] {
      assert a + b == a;
    } else {
      var b' := b[..|b| - 1];
      assert (a + b)[..|a + b| - 1] == a + b';
      assert (a + b)[|a + b| - 1] == b[|b| - 1];
      AvailableParksOfConcat(a, b');
    }
  }

  /** When no park has a date, the short status message is sent. */
  lemma StatusWhenNothingAvailable(url: string, checkedAt: string, all: ParkResults)
    requires all != [] && forall k :: 0 <= k < |all| ==> !HasAvailability(all[k].1)
    ensures ReportMessage(url, checkedAt, all) == Some(StatusMessage(checkedAt))
  {
    if AvailableParks(all) != [] {
      var park := AvailableParks(all)[0];
      AvailableParksExact(all, park);
    }
  }

  /** `piece` stands in `t` at position `at`. */
  predicate OccursAt(t: string, at: nat, piece: string) {
    at + |piece| <= |t| && t[at..at + |piece|] == piece
  }

  /** The k-th piece stands in the joined text right after the pieces before it. */
  lemma {:induction false} ConcatMapPiece<T>(xs: seq<T>, f: T -> string, k: nat)
    requires k < |xs|
    ensures OccursAt(ConcatMap(xs, f), |ConcatMap(xs[..k], f)|, f(xs[k]))
  {
    var init := xs[..|xs| - 1];
    if k == |xs| - 1 {
      assert xs[..k] == init;
    } else {
      ConcatMapPiece(init, f, k);
      assert init[..k] == xs[..k];
      assert init[k] == xs[k];
    }
  }

  /** A piece standing at `at` in `t` stands at `|a| + at` in `a + t + b`. */
  lemma Embedded(a: string, t: string, b: string, at: nat, piece: string)
    requires OccursAt(t, at, piece)
    ensures OccursAt(a + t + b, |a| + at, piece)
  {
    assert (a + t + b)[|a| + at..|a| + at + |piece|] == t[at..at + |piece|];
  }

  /** A piece of a piece of `t` is a piece of `t`. */
  lemma SliceWithin(t: string, at: nat, inner: string, at': nat, piece: string)
    requires OccursAt(t, at, inner) && OccursAt(inner, at', piece)
    ensures OccursAt(t, at + at', piece)
  {
    forall j | 0 <= j < |piece| ensures t[at + at' + j] == piece[j] {
      assert t[at + at' + j] == t[at..at + |inner|][at' + j];
      assert piece[j] == inner[at'..at' + |piece|][j];
    }
  }

  /** What stands in one element's text stands in the joined text between a heading and a closing. */
  lemma InJoined<T>(heading: string, xs: seq<T>, f: T -> string, closing: string, i: nat, at0: nat, piece: string)
    returns (at: nat)
    requires i < |xs| && OccursAt(f(xs[i]), at0, piece)
    ensures OccursAt(heading + ConcatMap(xs, f) + closing, at, piece)
  {
    ConcatMapPiece(xs, f, i);
    var c0 := |ConcatMap(xs[..i], f)|;
    SliceWithin(ConcatMap(xs, f), c0, f(xs[i]), at0, piece);
    Embedded(heading, ConcatMap(xs, f), closing, c0 + at0, piece);
    at := |heading| + c0 + at0;
  }

  /** Each date of a month with dates has its line in the month's block. */
  lemma LineInMonthBlock(month: (string, seq<Record>), d: nat) returns (at: nat)
    requires d < |month.1|
    ensures OccursAt(MonthBlock(month), at, DateLine(month.1[d]))
  {
    var line := DateLine(month.1[d]);
    assert OccursAt(line, 0, line);
    at := InJoined(MonthHeading(month.0, |month.1|), month.1, DateLine, "", d, 0, line);
    assert MonthBlock(month) == MonthHeading(month.0, |month.1|) + ConcatMap(month.1, DateLine) + "";
  }

  /** What stands in a month's block stands in its park's section. */
  lemma InParkSection(park: (string, MonthResults), m: nat, at0: nat, piece: string) returns (at: nat)
    requires m < |park.1| && OccursAt(MonthBlock(park.1[m]), at0, piece)
    ensures OccursAt(ParkSection(park), at, piece)
  {
    at := InJoined(ParkHeading(park.0), park.1, MonthBlock, "\n", m, at0, piece);
  }

  /** What stands in a listed park's section stands in the detailed report. */
  lemma InDetailedReport(url: string, checkedAt: string, parks: ParkResults, i: nat, at0: nat, piece: string) returns (at: nat)
    requires i < |parks| && OccursAt(ParkSection(parks[i]), at0, piece)
    ensures OccursAt(DetailedReport(url, checkedAt, parks), at, piece)
  {
    at := InJoined(ReportHeader(checkedAt), parks, ParkSection, ReportFooter(url), i, at0, piece);
  }

  /** Every available date of every park appears as its own line in the message. */
  lemma DateListed(url: string, checkedAt: string, all: ParkResults, p: nat, m: nat, d: nat) returns (at: nat)
    requires p < |all| && m < |all[p].1| && d < |all[p].1[m].1|
    ensures ReportMessage(url, checkedAt, all).Some?
    ensures OccursAt(ReportMessage(url, checkedAt, all).value, at, DateLine(all[p].1[m].1[d]))
  {
    var park := all[p];
    assert HasAvailability(park.1);
    AvailableParksExact(all, park);
    var parks := AvailableParks(all);
    var i :| 0 <= i < |parks| && parks[i] == park;
    var at0 := LineInMonthBlock(park.1[m], d);
    var at1 := InParkSection(park, m, at0, DateLine(park.1[m].1[d]));
    at := InDetailedReport(url, checkedAt, parks, i, at1, DateLine(park.1[m].1[d]));
  }

  /** Every park with availability is listed under its name. */
  lemma ParkListed(url: string, checkedAt: string, all: ParkResults, p: nat) returns (at: nat)
    requires p < |all| && HasAvailability(all[p].1)
    ensures ReportMessage(url, checkedAt, all).Some?
    ensures OccursAt(ReportMessage(url, checkedAt, all).value, at, ParkHeading(all[p].0))
  {
    var park := all[p];
    AvailableParksExact(all, park);
    var parks := AvailableParks(all);
    var i :| 0 <= i < |parks| && parks[i] == park;
    var heading := ParkHeading(park.0);
    assert OccursAt(ParkSection(park), 0, heading) by {
      assert ParkSection(park) == heading + (ConcatMap(park.1, MonthBlock) + "\n");
    }
    at := InDetailedReport(url, checkedAt, parks, i, 0, heading);
  }

  /** Under a listed park, every month is listed: with the number of its dates,
      or as having no weekend date. */
  lemma MonthListed(url: string, checkedAt: string, all: ParkResults, p: nat, m: nat) returns (at: nat)
    requires p < |all| && HasAvailability(all[p].1) && m < |all[p].1|
    ensures ReportMessage(url, checkedAt, all).Some?
    ensures var (name, dates) := all[p].1[m];
      OccursAt(ReportMessage(url, checkedAt, all).value, at,
               if dates != [] then MonthHeading(name, |dates|) else UnavailableMonthLine(name))
  {
    var park := all[p];
    AvailableParksExact(all, park);
    var parks := AvailableParks(all);
    var i :| 0 <= i < |parks| && parks[i] == park;
    var (name, dates) := park.1[m];
    var line := if dates != [] then MonthHeading(name, |dates|) else UnavailableMonthLine(name);
    assert OccursAt(MonthBlock(park.1[m]), 0, line) by {
      if dates != [] {
        assert MonthBlock(park.1[m]) == line + ConcatMap(dates, DateLine);
      }
    }
    var at1 := InParkSection(park, m, 0, line);
    at := InDetailedReport(url, checkedAt, parks, i, at1, line);
  }
}
