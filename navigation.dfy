/** The arithmetic of `navigate_to_month`: which month the calendar header shows,
    and how many presses of the "next" and "previous" buttons reach the target. */
module Navigation {
  import opened Decimal
  import opened Pattern

  /** Python's `pat in text` for strings. */
  predicate Contains(text: string, pat: string) {
    exists i :: 0 <= i <= |text| && HasAt(text, i, pat)
  }

  /** The header's marker for month `m`, "09월" for September. */
  function MonthMarker(m: nat): string {
    ZeroPad2(m) + "월"
  }

  /** The month the header shows: the first of September, August, October and
      November whose marker it contains, and September when it contains none. */
  function CurrentMonth(header: string): (m: int)
    ensures 8 <= m <= 11
  {
    if Contains(header, "09월") then 9
    else if Contains(header, "08월") then 8
    else if Contains(header, "10월") then 10
    else if Contains(header, "11월") then 11
    else 9
  }

  /** How many presses of "next" and of "previous" take the calendar from `current` to `target`. */
  function Clicks(current: int, target: int): (r: (nat, nat))
    ensures current + r.0 - r.1 == target
    ensures r.0 == 0 || r.1 == 0
  {
    var clicksNeeded := target - current;
    if clicksNeeded > 0 then (clicksNeeded, 0)
    else if clicksNeeded < 0 then (0, -clicksNeeded)
    else (0, 0)
  }

  /** The presses `navigate_to_month` makes for a header and a target month: they
      take the month the header shows to the target, `max(0, target - current)`
      forward and `max(0, current - target)` back. */
  function NavigationClicks(header: string, target: int): (r: (nat, nat))
    ensures var current := CurrentMonth(header);
      && current + r.0 - r.1 == target
      && r.0 == (if target > current then target - current else 0)
      && r.1 == (if current > target then current - target else 0)
  {
    Clicks(CurrentMonth(header), target)
  }

  /** The presses are the shortest way there: `max(0, target - current)` forward
      and `max(0, current - target)` back, and no way with fewer presses exists. */
  lemma ClicksMinimal(current: int, target: int, next: nat, prev: nat)
    requires current + next - prev == target
    ensures Clicks(current, target).0 <= next && Clicks(current, target).1 <= prev
    ensures Clicks(current, target).0 == if target > current then target - current else 0
    ensures Clicks(current, target).1 == if current > target then current - target else 0
  {
  }

  /** A header that reads "<prefix>MM월", where the prefix has no "월" (as in
      "2025년 10월"), is read as month MM when MM is 8 to 11, and as 9 otherwise. */
  lemma CurrentMonthOfHeader(prefix: string, m: nat)
    requires forall i :: 0 <= i < |prefix| ==> prefix[i] != '월'
    requires 1 <= m <= 12
    ensures CurrentMonth(prefix + MonthMarker(m)) == if 8 <= m <= 11 then m else 9
  {
    var header := prefix + MonthMarker(m);
    MarkerFound(prefix, m, 9);
    MarkerFound(prefix, m, 8);
    MarkerFound(prefix, m, 10);
    MarkerFound(prefix, m, 11);
    assert MonthMarker(9) == "09월" && MonthMarker(8) == "08월";
    assert MonthMarker(10) == "10월" && MonthMarker(11) == "11월";
  }

  /** Such a header contains the marker of month `k` exactly when it shows month `k`. */
  lemma MarkerFound(prefix: string, m: nat, k: nat)
    requires forall i :: 0 <= i < |prefix| ==> prefix[i] != '월'
    requires m < 100 && k < 100
    ensures Contains(prefix + MonthMarker(m), MonthMarker(k)) <==> m == k
  {
    var digits := ZeroPad2(m);
    var header := prefix + MonthMarker(m);
    assert header == prefix + digits + "월";
    ZeroPad2RoundTrip(m);
    ZeroPad2RoundTrip(k);
    if m == k {
      assert HasAt(header, |prefix|, MonthMarker(k));
    }
    if Contains(header, MonthMarker(k)) {
      var i :| 0 <= i <= |header| && HasAt(header, i, MonthMarker(k));
      MarkerOnlyAtEnd(prefix, m, k, i);
    }
  }

  /** Where the marker of month `k` occurs in such a header, it is the header's own marker. */
  lemma MarkerOnlyAtEnd(prefix: string, m: nat, k: nat, i: nat)
    requires forall i :: 0 <= i < |prefix| ==> prefix[i] != '월'
    requires m < 100 && k < 100
    requires i <= |prefix + MonthMarker(m)| && HasAt(prefix + MonthMarker(m), i, MonthMarker(k))
    ensures m == k
  {
    var digits := ZeroPad2(m);
    var header := prefix + MonthMarker(m);
    assert header == prefix + digits + "월";
    ZeroPad2RoundTrip(m);
    ZeroPad2RoundTrip(k);
    assert header[i + 2] == header[i..i + 3][2] == '월';
    OnlyLastIsMonth(prefix, digits, i + 2);
    assert digits == header[i..i + 2] == MonthMarker(k)[..2] == ZeroPad2(k);
  }

  /** In "<prefix>DD월" the only "월" is the last character. */
  lemma OnlyLastIsMonth(prefix: string, digits: string, j: nat)
    requires forall i :: 0 <= i < |prefix| ==> prefix[i] != '월'
    requires IsDigits(digits)
    requires j < |prefix + digits + "월"| && (prefix + digits + "월")[j] == '월'
    ensures j == |prefix| + |digits|
  {
    var header := prefix + digits + "월";
    assert forall i :: 0 <= i < |prefix| ==> header[i] == prefix[i];
    assert forall i :: |prefix| <= i < |prefix| + |digits| ==> header[i] == digits[i - |prefix|];
  }

  /** A header showing a month outside August to November, July say, is read as September. */
  lemma UnlistedMonthReadAsSeptember()
    ensures CurrentMonth("2025년 07월") == 9
  {
    CurrentMonthOfHeader("2025년 ", 7);
    assert "2025년 " + MonthMarker(7) == "2025년 07월";
  }
}
