/** `re.findall` for the one pattern the availability parser uses,
    `(\d{1,2})\n([월화수목금토일])\n생활관 : 잔여 (\d+) 개`, with `\d` read as an
    ASCII digit. A calendar cell on the reservation page reads, line by line,
    the day of the month, a one-letter weekday and the lodge's remaining count. */
module Pattern {
  import opened Decimal

  datatype Option<T> = None | Some(value: T)

  /** One match: the three captured groups and the span [start, end) of text it covers. */
  datatype Hit = Hit(dayText: string, glyph: char, remainingText: string, start: nat, end: nat)

  /** The character class `[월화수목금토일]`. */
  const WeekdayGlyphs: string := "월화수목금토일"
  /** The line break after the glyph and the lodge's line up to its count:
      "\n생활관 : 잔여 " (lodge: remaining). */
  const LodgeLine: string := "\n생활관 : 잔여 "
  /** What follows the count: " 개" (pieces). */
  const CountSuffix: string := " 개"

  /** Where the glyph of a match at `i` with an `n`-digit day group stands. */
  function GlyphPos(i: nat, n: nat): nat {
    i + n + 1
  }

  /** Where the count group of a match at `i` with an `n`-digit day group starts. */
  function CountPos(i: nat, n: nat): nat {
    i + n + 2 + |LodgeLine|
  }

  /** The text a match with these three groups spans. */
  function Rendered(dayText: string, glyph: char, remainingText: string): string {
    dayText + ("\n" + ([glyph] + (LodgeLine + (remainingText + CountSuffix))))
  }

  /** What it means for the pattern to match at `i` with groups and span `h`:
      the text at `i` spells out the pattern's pieces with these groups. */
  ghost predicate MatchesAt(s: string, i: nat, h: Hit) {
    var n, c := |h.dayText|, |h.remainingText|;
    var g, k := GlyphPos(i, n), CountPos(i, n);
    && h.start == i
    && 1 <= n <= 2 && IsDigits(h.dayText)
    && h.glyph in WeekdayGlyphs
    && 1 <= c && IsDigits(h.remainingText)
    && h.end == k + c + |CountSuffix| <= |s|
    && s[i..i + n] == h.dayText && s[i + n] == '\n' && s[g] == h.glyph
    && s[g + 1..k] == LodgeLine && s[k..k + c] == h.remainingText && s[k + c..h.end] == CountSuffix
  }

  /** The pieces spell out exactly the text of the match, and only it. */
  lemma MatchesAtRendered(s: string, i: nat, h: Hit)
    requires h.start == i && h.end <= |s|
    requires 1 <= |h.dayText| <= 2 && IsDigits(h.dayText) && h.glyph in WeekdayGlyphs
    requires 1 <= |h.remainingText| && IsDigits(h.remainingText)
    ensures MatchesAt(s, i, h) <==>
      h.end == i + |Rendered(h.dayText, h.glyph, h.remainingText)| && s[i..h.end] == Rendered(h.dayText, h.glyph, h.remainingText)
  {
    if MatchesAt(s, i, h) {
      PiecesSpellRendered(s, i, h);
    }
    var r := Rendered(h.dayText, h.glyph, h.remainingText);
    if h.end == i + |r| && s[i..h.end] == r {
      RenderedHasPieces(s, i, h);
    }
  }

  lemma PiecesSpellRendered(s: string, i: nat, h: Hit)
    requires MatchesAt(s, i, h)
    ensures h.end == i + |Rendered(h.dayText, h.glyph, h.remainingText)|
    ensures s[i..h.end] == Rendered(h.dayText, h.glyph, h.remainingText)
  {
    var n, c := |h.dayText|, |h.remainingText|;
    var g, k := GlyphPos(i, n), CountPos(i, n);
    var e := h.end;
    var r4 := h.remainingText + CountSuffix;
    var r3 := LodgeLine + r4;
    var r2 := [h.glyph] + r3;
    var r1 := "\n" + r2;
    assert s[i + n..g] == "\n";
    assert s[g..g + 1] == [h.glyph];
    SliceJoin(s, k, e, h.remainingText, CountSuffix);
    SliceJoin(s, g + 1, e, LodgeLine, r4);
    SliceJoin(s, g, e, [h.glyph], r3);
    SliceJoin(s, i + n, e, "\n", r2);
    SliceJoin(s, i, e, h.dayText, r1);
  }

  lemma RenderedHasPieces(s: string, i: nat, h: Hit)
    requires h.start == i && h.end <= |s|
    requires 1 <= |h.dayText| <= 2 && IsDigits(h.dayText) && h.glyph in WeekdayGlyphs
    requires 1 <= |h.remainingText| && IsDigits(h.remainingText)
    requires h.end == i + |Rendered(h.dayText, h.glyph, h.remainingText)|
    requires s[i..h.end] == Rendered(h.dayText, h.glyph, h.remainingText)
    ensures MatchesAt(s, i, h)
  {
    var n := |h.dayText|;
    RenderedHead(s, i, h.end, h.dayText, h.glyph, h.remainingText);
    RenderedTail(s, GlyphPos(i, n) + 1, h.end, h.remainingText);
  }

  /** The day group, the line break and the glyph of a rendered match. */
  lemma RenderedHead(s: string, i: nat, e: nat, dayText: string, glyph: char, remainingText: string)
    requires e == i + |Rendered(dayText, glyph, remainingText)| <= |s|
    requires s[i..e] == Rendered(dayText, glyph, remainingText)
    ensures var g := GlyphPos(i, |dayText|);
      && s[i..i + |dayText|] == dayText && s[i + |dayText|] == '\n' && s[g] == glyph
      && s[g + 1..e] == LodgeLine + (remainingText + CountSuffix)
  {
    var n := |dayText|;
    var g := GlyphPos(i, n);
    var r3 := LodgeLine + (remainingText + CountSuffix);
    var r2 := [glyph] + r3;
    var r1 := "\n" + r2;
    SliceCancel(s, i, e, dayText, r1);
    SliceCancel(s, i + n, e, "\n", r2);
    SliceCancel(s, g, e, [glyph], r3);
    assert s[i + n] == s[i + n..g][0];
    assert s[g] == s[g..g + 1][0];
  }

  /** The lodge line, the count group and the closing of a rendered match. */
  lemma RenderedTail(s: string, j: nat, e: nat, remainingText: string)
    requires j + |LodgeLine| + |remainingText| + |CountSuffix| == e <= |s|
    requires s[j..e] == LodgeLine + (remainingText + CountSuffix)
    ensures var k := j + |LodgeLine|;
      s[j..k] == LodgeLine && s[k..k + |remainingText|] == remainingText && s[k + |remainingText|..e] == CountSuffix
  {
    SliceCancel(s, j, e, LodgeLine, remainingText + CountSuffix);
    SliceCancel(s, j + |LodgeLine|, e, remainingText, CountSuffix);
  }

  /** A slice that spells `x` and then `y` spells `x + y`. */
  lemma SliceJoin(s: string, a: nat, e: nat, x: string, y: string)
    requires a + |x| + |y| == e <= |s| && s[a..a + |x|] == x && s[a + |x|..e] == y
    ensures s[a..e] == x + y
  {
    SliceSplit(s, a, a + |x|, e);
  }

  /** A slice that spells `x + y` spells `x` and then `y`. */
  lemma SliceCancel(s: string, a: nat, e: nat, x: string, y: string)
    requires a + |x| + |y| == e <= |s| && s[a..e] == x + y
    ensures s[a..a + |x|] == x && s[a + |x|..e] == y
  {
    SliceSplit(s, a, a + |x|, e);
    AppendCancel(s[a..a + |x|], s[a + |x|..e], x, y);
  }

  /** Equal concatenations with equally long first parts have equal parts. */
  lemma AppendCancel(a: string, b: string, c: string, d: string)
    requires a + b == c + d && |a| == |c|
    ensures a == c && b == d
  {
    assert a == (a + b)[..|a|] && c == (c + d)[..|c|];
    assert b == (a + b)[|a|..] && d == (c + d)[|c|..];
  }

  lemma SliceSplit(s: string, a: nat, b: nat, c: nat)
    requires a <= b <= c <= |s|
    ensures s[a..c] == s[a..b] + s[b..c]
  {
  }

  /** The length of the run of ASCII digits at `i`, stopping after `max` of them. */
  function DigitRun(s: string, i: nat, max: nat): (n: nat)
    requires i <= |s|
    ensures n <= max && i + n <= |s|
    ensures forall k :: i <= k < i + n ==> IsDigit(s[k])
    ensures n < max && i + n < |s| ==> !IsDigit(s[i + n])
    decreases max
  {
    if max == 0 || i == |s| || !IsDigit(s[i]) then 0 else 1 + DigitRun(s, i + 1, max - 1)
  }

  /** Whether `lit` occurs in `s` at position `i`. */
  predicate HasAt(s: string, i: nat, lit: string)
    requires i <= |s|
  {
    i + |lit| <= |s| && s[i..i + |lit|] == lit
  }

  /** The regular-expression engine's attempt to match at `i`. Both digit groups
      are greedy; backtracking into them never helps, because a shorter group would
      be followed by another digit where the pattern needs "\n" or " " (the lemma
      MatchAtComplete shows no match is missed). */
  function MatchAt(s: string, i: nat): (r: Option<Hit>)
    requires i <= |s|
    ensures r.Some? ==> r.value.start == i < r.value.end <= |s|
  {
    var n := DigitRun(s, i, 2);
    if n == 0 then None else MatchAfterDay(s, i, n)
  }

  /** The rest of the pattern once the day group is s[i..i + n]: "\n", a glyph, the lodge line. */
  function MatchAfterDay(s: string, i: nat, n: nat): (r: Option<Hit>)
    requires i + n <= |s|
    ensures r.Some? ==> r.value.start == i < r.value.end <= |s|
  {
    var g := GlyphPos(i, n);
    if !HasAt(s, i + n, "\n") || g >= |s| || s[g] !in WeekdayGlyphs || !HasAt(s, g + 1, LodgeLine) then None
    else MatchCount(s, i, n)
  }

  /** The count group `(\d+)` and the closing " 개". */
  function MatchCount(s: string, i: nat, n: nat): (r: Option<Hit>)
    requires CountPos(i, n) <= |s|
    ensures r.Some? ==> r.value.start == i < r.value.end <= |s|
  {
    var k := CountPos(i, n);
    var c := DigitRun(s, k, |s| - k);
    if c == 0 || !HasAt(s, k + c, CountSuffix) then None
    else Some(Hit(s[i..i + n], s[GlyphPos(i, n)], s[k..k + c], i, k + c + |CountSuffix|))
  }

  /** What the engine returns is a match. */
  lemma MatchAtSound(s: string, i: nat)
    requires i <= |s|
    ensures MatchAt(s, i).Some? ==> MatchesAt(s, i, MatchAt(s, i).value)
  {
  }

  /** The engine finds every match there is: a match at `i` is the one it returns. */
  lemma MatchAtComplete(s: string, i: nat, h: Hit)
    requires i <= |s| && MatchesAt(s, i, h)
    ensures MatchAt(s, i) == Some(h)
  {
    var n := |h.dayText|;
    DayGroupFound(s, i, h);
    CountFound(s, i, h);
    assert HasAt(s, i + n, "\n");
    assert HasAt(s, GlyphPos(i, n) + 1, LodgeLine);
  }

  /** In a match, the engine's count stage returns it. */
  lemma CountFound(s: string, i: nat, h: Hit)
    requires i <= |s| && MatchesAt(s, i, h)
    ensures CountPos(i, |h.dayText|) <= |s| && MatchCount(s, i, |h.dayText|) == Some(h)
  {
    var k := CountPos(i, |h.dayText|);
    CountRunFound(s, k, |h.remainingText|);
  }

  /** A digit run of length `c` at `k` followed by " 개" is read whole, then the closing. */
  lemma CountRunFound(s: string, k: nat, c: nat)
    requires k + c + |CountSuffix| <= |s| && IsDigits(s[k..k + c])
    requires s[k + c..k + c + |CountSuffix|] == CountSuffix
    ensures DigitRun(s, k, |s| - k) == c && HasAt(s, k + c, CountSuffix)
  {
    assert s[k + c] == s[k + c..k + c + |CountSuffix|][0] == ' ';
    DigitRunExact(s, k, |s| - k, c);
  }

  /** In a match, the engine's greedy day run is exactly the day group. */
  lemma DayGroupFound(s: string, i: nat, h: Hit)
    requires i <= |s| && MatchesAt(s, i, h)
    ensures DigitRun(s, i, 2) == |h.dayText|
  {
    DigitRunExact(s, i, 2, |h.dayText|);
  }

  /** A run of `n` digits that ends before a non-digit (or the text, or `max`) has length `n`. */
  lemma {:induction false} DigitRunExact(s: string, i: nat, max: nat, n: nat)
    requires i + n <= |s| && n <= max
    requires IsDigits(s[i..i + n])
    requires n < max && i + n < |s| ==> !IsDigit(s[i + n])
    ensures DigitRun(s, i, max) == n
    decreases n
  {
    if n > 0 {
      assert IsDigit(s[i..i + n][0]);
      assert s[i + 1..i + n] == s[i..i + n][1..];
      DigitRunExact(s, i + 1, max - 1, n - 1);
    }
  }

  /** The engine's attempt at every position of `s`. */
  function Attempts(s: string): (a: seq<Option<Hit>>)
    ensures |a| == |s| && Advancing(a)
  {
    seq(|s|, i requires 0 <= i < |s| => MatchAt(s, i))
  }

  /** Attempts that succeed at `i` cover a non-empty span starting at `i`. */
  predicate Advancing(a: seq<Option<Hit>>) {
    forall i :: 0 <= i < |a| && a[i].Some? ==> a[i].value.start == i < a[i].value.end <= |a|
  }

  /** The scan of `re.findall` over a row of attempts: take the attempt at `from`;
      after a match, resume where it ended; otherwise move on by one position. */
  function Scan(a: seq<Option<Hit>>, from: nat): (hits: seq<Hit>)
    requires Advancing(a) && from <= |a|
    ensures |hits| <= |a| - from
    decreases |a| - from
  {
    if from == |a| then []
    else
      match a[from]
      case Some(h) => [h] + Scan(a, h.end)
      case None => Scan(a, from + 1)
  }

  /** `re.findall(pattern, s[from:])` for positions from `from` on; every match
      spans at least one character, so there are at most as many as characters. */
  function FindAll(s: string, from: nat): (hits: seq<Hit>)
    requires from <= |s|
    ensures |hits| <= |s| - from
  {
    Scan(Attempts(s), from)
  }

  /** Matches come out left to right, inside the scanned text and without overlapping. */
  lemma {:induction false} ScanInOrder(a: seq<Option<Hit>>, from: nat, k: nat)
    requires Advancing(a) && from <= |a| && k < |Scan(a, from)|
    ensures from <= Scan(a, from)[k].start < Scan(a, from)[k].end <= |a|
    ensures k + 1 < |Scan(a, from)| ==> Scan(a, from)[k].end <= Scan(a, from)[k + 1].start
    decreases |a| - from
  {
    var hits := Scan(a, from);
    match a[from]
    case Some(h) =>
      var rest := Scan(a, h.end);
      assert hits == [h] + rest;
      if k == 0 {
        if 1 < |hits| {
          ScanInOrder(a, h.end, 0);
          assert hits[1] == rest[0];
        }
      } else {
        ScanInOrder(a, h.end, k - 1);
        assert hits[k] == rest[k - 1];
        if k + 1 < |hits| {
          assert hits[k + 1] == rest[k];
        }
      }
    case None =>
      ScanInOrder(a, from + 1, k);
  }

  /** Every match the scan returns is the attempt at its own start. */
  lemma {:induction false} ScanFromAttempts(a: seq<Option<Hit>>, from: nat, k: nat)
    requires Advancing(a) && from <= |a| && k < |Scan(a, from)|
    ensures Scan(a, from)[k].start < |a| && a[Scan(a, from)[k].start] == Some(Scan(a, from)[k])
    decreases |a| - from
  {
    var hits := Scan(a, from);
    match a[from]
    case Some(h) =>
      var rest := Scan(a, h.end);
      assert hits == [h] + rest;
      if k > 0 {
        ScanFromAttempts(a, h.end, k - 1);
        assert hits[k] == rest[k - 1];
      }
    case None =>
      ScanFromAttempts(a, from + 1, k);
  }

  /** Scanning from `from` either runs through position `j` inside a match, or
      passes through `j` itself, from where it finds what a scan from `j` finds. */
  lemma {:induction false} ScanResumes(a: seq<Option<Hit>>, from: nat, j: nat) returns (k: nat)
    requires Advancing(a) && from <= j <= |a|
    ensures k <= |Scan(a, from)|
    ensures || (k < |Scan(a, from)| && Scan(a, from)[k].start < j < Scan(a, from)[k].end)
            || Scan(a, from)[k..] == Scan(a, j)
    decreases |a| - from
  {
    var hits := Scan(a, from);
    if from == j {
      k := 0;
    } else {
      match a[from]
      case Some(h) =>
        var rest := Scan(a, h.end);
        assert hits == [h] + rest;
        if j < h.end {
          k := 0;
        } else {
          var k' := ScanResumes(a, h.end, j);
          k := k' + 1;
          assert hits[k..] == rest[k'..];
          if k' < |rest| {
            assert hits[k] == rest[k'];
          }
        }
      case None =>
        k := ScanResumes(a, from + 1, j);
    }
  }

  /** Every returned match is a match of the pattern where it says it starts. */
  lemma FindAllSound(s: string, from: nat, k: nat)
    requires from <= |s| && k < |FindAll(s, from)|
    ensures MatchesAt(s, FindAll(s, from)[k].start, FindAll(s, from)[k])
  {
    var h := FindAll(s, from)[k];
    ScanFromAttempts(Attempts(s), from, k);
    assert MatchAt(s, h.start) == Some(h);
    MatchAtSound(s, h.start);
  }

  /** No occurrence of the pattern is skipped: every place it matches is the start
      of a returned match or lies inside one. */
  lemma FindAllLeftmost(s: string, from: nat, j: nat, h: Hit) returns (k: nat)
    requires from <= j <= |s| && MatchesAt(s, j, h)
    ensures k < |FindAll(s, from)| && FindAll(s, from)[k].start <= j < FindAll(s, from)[k].end
  {
    var a := Attempts(s);
    var hits := Scan(a, from);
    k := ScanResumes(a, from, j);
    if !(k < |hits| && hits[k].start < j < hits[k].end) {
      MatchAtComplete(s, j, h);
      assert a[j] == Some(h);
      assert Scan(a, j) == [h] + Scan(a, h.end);
      assert hits[k] == Scan(a, j)[0];
    }
  }

  /** The groups the pattern accepts. */
  predicate WellFormedGroups(dayText: string, glyph: char, remainingText: string) {
    1 <= |dayText| <= 2 && IsDigits(dayText) && glyph in WeekdayGlyphs
    && 1 <= |remainingText| && IsDigits(remainingText)
  }

  /** A calendar cell rendered on its own is read back as exactly its groups. */
  lemma CellRoundTrip(dayText: string, glyph: char, remainingText: string)
    requires WellFormedGroups(dayText, glyph, remainingText)
    ensures var s := Rendered(dayText, glyph, remainingText);
      FindAll(s, 0) == [Hit(dayText, glyph, remainingText, 0, |s|)]
  {
    var s := Rendered(dayText, glyph, remainingText);
    var h := Hit(dayText, glyph, remainingText, 0, |s|);
    assert MatchAt(s, 0) == Some(h) by {
      assert s[0..|s|] == s;
      RenderedHasPieces(s, 0, h);
      MatchAtComplete(s, 0, h);
    }
    var a := Attempts(s);
    assert Scan(a, 0) == [h] + Scan(a, |s|);
  }

  /** The pattern is not anchored: a cell whose day reads with a third digit in
      front, as in "123", is still found, with the last two digits as its day. */
  lemma UnanchoredDay(x: char, dayText: string, glyph: char, remainingText: string)
    requires IsDigit(x) && |dayText| == 2 && WellFormedGroups(dayText, glyph, remainingText)
    ensures var s := [x] + Rendered(dayText, glyph, remainingText);
      FindAll(s, 0) == [Hit(dayText, glyph, remainingText, 1, |s|)]
  {
    var r := Rendered(dayText, glyph, remainingText);
    var s := [x] + r;
    var h := Hit(dayText, glyph, remainingText, 1, |s|);
    assert MatchAt(s, 0) == None by {
      assert s[1] == dayText[0] && s[2] == dayText[1];
      assert DigitRun(s, 0, 2) == 2;
    }
    assert MatchAt(s, 1) == Some(h) by {
      assert s[1..|s|] == r;
      RenderedHasPieces(s, 1, h);
      MatchAtComplete(s, 1, h);
    }
    var a := Attempts(s);
    assert Scan(a, 1) == [h] + Scan(a, |s|);
    assert Scan(a, 0) == Scan(a, 1);
  }
}
