/**
 * `ATSAnalyzer.extract_data_from_response`: the match score is read from the
 * response with `re.search(r'Match Score:?\s*(\d+)%', response)`, which is
 * case-sensitive and reports the leftmost match; no match gives 0. The regex
 * is modelled as a scanner (MatchAt, FirstMatchFrom) and, independently, by
 * what it means for the pattern to match at a position (RegexMatch).
 */
module ScoreExtraction {
  import opened Wrappers
  import opened Text

  /** The literal that starts the pattern. */
  const Label: string := "Match Score"

  /** The record `{'match_score': ..., 'raw_response': ...}`. */
  datatype AnalysisData = AnalysisData(matchScore: nat, rawResponse: string)

  /** The span of the capture group `(\d+)` in the response. */
  datatype Capture = Capture(start: nat, end: nat)

  /** The characters from `j` on that are whitespace, counted up to the first one that is not. */
  function SpaceRun(s: string, j: nat): (n: nat)
    requires j <= |s|
    ensures j + n <= |s|
    ensures forall k :: j <= k < j + n ==> IsSpace(s[k])
    ensures j + n == |s| || !IsSpace(s[j + n])
    decreases |s| - j
  {
    if j < |s| && IsSpace(s[j]) then 1 + SpaceRun(s, j + 1) else 0
  }

  /** The characters from `j` on that are digits, counted up to the first one that is not. */
  function DigitRun(s: string, j: nat): (n: nat)
    requires j <= |s|
    ensures j + n <= |s|
    ensures forall k :: j <= k < j + n ==> IsDigit(s[k])
    ensures j + n == |s| || !IsDigit(s[j + n])
    decreases |s| - j
  {
    if j < |s| && IsDigit(s[j]) then 1 + DigitRun(s, j + 1) else 0
  }

  /** `float(s[a..b])` for a run of decimal digits (always a whole number). */
  function DigitsValue(s: string, a: nat, b: nat): nat
    requires a <= b <= |s|
    requires forall k :: a <= k < b ==> IsDigit(s[k])
    decreases b
  {
    if b == a then 0
    else
      assert IsDigit(s[b - 1]);
      DigitsValue(s, a, b - 1) * 10 + (s[b - 1] as int - '0' as int)
  }

  /**
   * The pattern matched at position `i` with `c` colons (0 or 1), `w`
   * whitespace characters and `d` digits: any way the regex can match there.
   */
  ghost predicate RegexMatch(s: string, i: nat, c: nat, w: nat, d: nat) {
    OccursAt(s, Label, i) && TailMatch(s, i + |Label|, c, w, d)
  }

  /** The part `:?\s*(\d+)%` of the pattern matched from position `p`. */
  ghost predicate TailMatch(s: string, p: nat, c: nat, w: nat, d: nat) {
    && c <= 1
    && p + c + w + d < |s|
    && (c == 1 ==> s[p] == ':')
    && (forall k :: p + c <= k < p + c + w ==> IsSpace(s[k]))
    && d >= 1
    && (forall k :: p + c + w <= k < p + c + w + d ==> IsDigit(s[k]))
    && s[p + c + w + d] == '%'
  }

  /** The greedy, deterministic reading of the pattern at position `i`. */
  function MatchAt(s: string, i: nat): (m: Option<Capture>)
    ensures m.Some? ==> m.value.start < m.value.end < |s|
    ensures m.Some? ==> forall k :: m.value.start <= k < m.value.end ==> IsDigit(s[k])
  {
    if OccursAt(s, Label, i) then CaptureAfterLabel(s, i + |Label|) else None
  }

  /** The optional colon `:?`, taken whenever it is there. */
  function ColonLength(s: string, p: nat): (c: nat)
    requires p <= |s|
    ensures c <= 1 && p + c <= |s|
    ensures c == 1 <==> p < |s| && s[p] == ':'
  {
    if p < |s| && s[p] == ':' then 1 else 0
  }

  /** The rest of the pattern, `:?\s*(\d+)%`, read greedily from position `p`. */
  function CaptureAfterLabel(s: string, p: nat): (m: Option<Capture>)
    requires p <= |s|
    ensures m.Some? ==> p <= m.value.start < m.value.end < |s|
    ensures m.Some? ==> forall k :: m.value.start <= k < m.value.end ==> IsDigit(s[k])
  {
    CaptureAfterColon(s, p + ColonLength(s, p))
  }

  /** The part `\s*(\d+)%` read greedily from position `q`. */
  function CaptureAfterColon(s: string, q: nat): (m: Option<Capture>)
    requires q <= |s|
    ensures m.Some? ==> q <= m.value.start < m.value.end < |s|
    ensures m.Some? ==> forall k :: m.value.start <= k < m.value.end ==> IsDigit(s[k])
  {
    DigitsThenPercent(s, q + SpaceRun(s, q))
  }

  /** The part `(\d+)%` read greedily from position `q`: the capture starts right there. */
  function DigitsThenPercent(s: string, q: nat): (m: Option<Capture>)
    requires q <= |s|
    ensures m.Some? ==> m.value.start == q < m.value.end < |s| && s[m.value.end] == '%'
    ensures m.Some? ==> forall k :: q <= k < m.value.end ==> IsDigit(s[k])
  {
    var d := DigitRun(s, q);
    if d > 0 && q + d < |s| && s[q + d] == '%' then Some(Capture(q, q + d)) else None
  }

  lemma CaptureSound(s: string, p: nat)
    requires p <= |s| && CaptureAfterLabel(s, p).Some?
    ensures exists c: nat, w: nat, d: nat :: TailMatch(s, p, c, w, d)
                              && CaptureAfterLabel(s, p).value == Capture(p + c + w, p + c + w + d)
  {
    var c := ColonLength(s, p);
    var w := SpaceRun(s, p + c);
    var m := DigitsThenPercent(s, p + c + w);
    assert CaptureAfterLabel(s, p) == m;
    var d := m.value.end - (p + c + w);
    assert TailMatch(s, p, c, w, d);
  }

  /** What the scanner finds at `i` is a match of the pattern, and its capture is the digit run. */
  lemma MatchAtSound(s: string, i: nat)
    requires MatchAt(s, i).Some?
    ensures exists c: nat, w: nat, d: nat :: RegexMatch(s, i, c, w, d)
                              && MatchAt(s, i).value == Capture(i + |Label| + c + w, i + |Label| + c + w + d)
  {
    CaptureSound(s, i + |Label|);
    var c: nat, w: nat, d: nat :| TailMatch(s, i + |Label|, c, w, d)
          && CaptureAfterLabel(s, i + |Label|).value == Capture(i + |Label| + c + w, i + |Label| + c + w + d);
    assert RegexMatch(s, i, c, w, d);
  }

  lemma {:induction false} SpaceRunUnique(s: string, j: nat, n: nat)
    requires j + n <= |s|
    requires forall k :: j <= k < j + n ==> IsSpace(s[k])
    requires j + n == |s| || !IsSpace(s[j + n])
    ensures SpaceRun(s, j) == n
    decreases n
  {
    if n > 0 {
      SpaceRunUnique(s, j + 1, n - 1);
    }
  }

  lemma {:induction false} DigitRunUnique(s: string, j: nat, n: nat)
    requires j + n <= |s|
    requires forall k :: j <= k < j + n ==> IsDigit(s[k])
    requires j + n == |s| || !IsDigit(s[j + n])
    ensures DigitRun(s, j) == n
    decreases n
  {
    if n > 0 {
      DigitRunUnique(s, j + 1, n - 1);
    }
  }

  lemma ColonComplete(s: string, p: nat, c: nat, w: nat, d: nat)
    requires TailMatch(s, p, c, w, d)
    ensures ColonLength(s, p) == c
  {
    // The character after the optional colon opens the whitespace run or the
    // digit run, so it is never a colon: the colon is consumed exactly when present.
    if c == 0 {
      if w > 0 { assert IsSpace(s[p]); } else { assert IsDigit(s[p]); }
    }
  }

  lemma CaptureComplete(s: string, p: nat, c: nat, w: nat, d: nat)
    requires TailMatch(s, p, c, w, d)
    ensures CaptureAfterLabel(s, p) == Some(Capture(p + c + w, p + c + w + d))
  {
    ColonComplete(s, p, c, w, d);
    SpacesBeforeDigits(s, p + c, w, d);
    DigitsBeforePercent(s, p + c + w, d);
    CaptureFromRuns(s, p, c, w, d);
  }

  /** The scanner's result once the colon, the whitespace run and the digit run are known. */
  lemma CaptureFromRuns(s: string, p: nat, c: nat, w: nat, d: nat)
    requires p + c + w + d < |s|
    requires ColonLength(s, p) == c && SpaceRun(s, p + c) == w
    requires DigitsThenPercent(s, p + c + w) == Some(Capture(p + c + w, p + c + w + d))
    ensures CaptureAfterLabel(s, p) == Some(Capture(p + c + w, p + c + w + d))
  {
  }

  /** A whitespace run followed by a digit is read whole. */
  lemma SpacesBeforeDigits(s: string, j: nat, w: nat, d: nat)
    requires j + w + d < |s| && d >= 1
    requires forall k :: j <= k < j + w ==> IsSpace(s[k])
    requires forall k :: j + w <= k < j + w + d ==> IsDigit(s[k])
    ensures SpaceRun(s, j) == w
  {
    assert IsDigit(s[j + w]);
    SpaceRunUnique(s, j, w);
  }

  /** A digit run followed by `%` is read whole. */
  lemma DigitsBeforePercent(s: string, j: nat, d: nat)
    requires d >= 1 && j + d < |s| && s[j + d] == '%'
    requires forall k :: j <= k < j + d ==> IsDigit(s[k])
    ensures DigitsThenPercent(s, j) == Some(Capture(j, j + d))
  {
    DigitRunUnique(s, j, d);
  }

  /**
   * Every way the pattern can match at `i` is the one the scanner finds: the
   * regex's backtracking cannot produce a different capture.
   */
  lemma MatchAtComplete(s: string, i: nat, c: nat, w: nat, d: nat)
    requires RegexMatch(s, i, c, w, d)
    ensures MatchAt(s, i) == Some(Capture(i + |Label| + c + w, i + |Label| + c + w + d))
  {
    CaptureComplete(s, i + |Label|, c, w, d);
    MatchAtLabel(s, i);
  }

  /** Where the label occurs, the scanner reads the rest of the pattern right after it. */
  lemma MatchAtLabel(s: string, i: nat)
    requires OccursAt(s, Label, i)
    ensures MatchAt(s, i) == CaptureAfterLabel(s, i + |Label|)
  {
  }

  /** The scanner fails at `i` exactly when the pattern cannot match there. */
  lemma NoMatchAt(s: string, i: nat)
    ensures MatchAt(s, i).None? <==> forall c: nat, w: nat, d: nat :: !RegexMatch(s, i, c, w, d)
  {
    if MatchAt(s, i).Some? {
      MatchAtSound(s, i);
    } else {
      forall c: nat, w: nat, d: nat | RegexMatch(s, i, c, w, d) ensures false {
        MatchAtComplete(s, i, c, w, d);
      }
    }
  }

  /** The positions where the scanner succeeds. */
  function Hits(s: string): nat -> bool {
    (j: nat) => MatchAt(s, j).Some?
  }

  /** The leftmost position from `i` up to `n` at which `found` holds, if any. */
  function Leftmost(found: nat -> bool, i: nat, n: nat): (r: Option<nat>)
    requires i <= n
    ensures r.Some? ==> i <= r.value <= n && found(r.value)
    decreases n - i
  {
    if found(i) then Some(i)
    else if i == n then None
    else Leftmost(found, i + 1, n)
  }

  /** Nothing before the reported position is found, and nothing at all when none is reported. */
  lemma {:induction false} LeftmostIsLeftmost(found: nat -> bool, i: nat, n: nat)
    requires i <= n
    ensures var r := Leftmost(found, i, n);
            && (r.Some? ==> forall j :: i <= j < r.value ==> !found(j))
            && (r.None? ==> forall j :: i <= j <= n ==> !found(j))
    decreases n - i
  {
    if !found(i) && i < n {
      LeftmostIsLeftmost(found, i + 1, n);
    }
  }

  /** A position where `found` holds, with nothing found before it, is the one reported. */
  lemma {:induction false} LeftmostIs(found: nat -> bool, k: nat, i: nat, n: nat)
    requires k <= i <= n && found(i)
    requires forall j :: k <= j < i ==> !found(j)
    ensures Leftmost(found, k, n) == Some(i)
    decreases i - k
  {
    if k < i {
      LeftmostIs(found, k + 1, i, n);
    }
  }

  /** `re.search`: the leftmost position at or after `i` where the scanner succeeds. */
  function FirstMatchFrom(s: string, i: nat): (r: Option<nat>)
    requires i <= |s|
    ensures r.Some? ==> i <= r.value <= |s| && MatchAt(s, r.value).Some?
  {
    Leftmost(Hits(s), i, |s|)
  }

  /** The search reports the leftmost position where the scanner succeeds, and none only when it never does. */
  lemma FirstMatchLeftmost(s: string, i: nat)
    requires i <= |s|
    ensures var r := FirstMatchFrom(s, i);
            && (r.Some? ==> forall j :: i <= j < r.value ==> MatchAt(s, j).None?)
            && (r.None? ==> forall j :: i <= j <= |s| ==> MatchAt(s, j).None?)
  {
    var r := FirstMatchFrom(s, i);
    LeftmostIsLeftmost(Hits(s), i, |s|);
    forall j | i <= j <= |s| && (r.None? || j < r.value) ensures MatchAt(s, j).None? {
      assert !Hits(s)(j);
    }
  }

  /** `extract_data_from_response(response)`. */
  function ExtractData(response: string): (data: AnalysisData)
    ensures data.rawResponse == response
  {
    var score := match FirstMatchFrom(response, 0)
      case None => 0
      case Some(k) =>
        var cap := MatchAt(response, k).value;
        DigitsValue(response, cap.start, cap.end);
    AnalysisData(score, response)
  }

  /** The search started at `k` stops at the first position where the scanner succeeds. */
  lemma FirstMatchIs(s: string, k: nat, i: nat)
    requires k <= i <= |s| && MatchAt(s, i).Some?
    requires forall j :: k <= j < i ==> MatchAt(s, j).None?
    ensures FirstMatchFrom(s, k) == Some(i)
  {
    LeftmostIs(Hits(s), k, i, |s|);
  }

  /** No way of matching before `i` means the scanner fails everywhere before `i`. */
  lemma ScannerFailsBefore(s: string, i: nat)
    requires forall j: nat, c: nat, w: nat, d: nat :: j < i ==> !RegexMatch(s, j, c, w, d)
    ensures forall j :: 0 <= j < i ==> MatchAt(s, j).None?
  {
    forall j | 0 <= j < i ensures MatchAt(s, j).None? {
      NoMatchAt(s, j);
    }
  }

  /**
   * When the pattern matches at `i` and at no earlier position, the score is
   * the value of the digits it captured there.
   */
  lemma ScoreOfLeftmostMatch(s: string, i: nat, c: nat, w: nat, d: nat)
    requires RegexMatch(s, i, c, w, d)
    requires forall j: nat, c': nat, w': nat, d': nat :: j < i ==> !RegexMatch(s, j, c', w', d')
    ensures var g := i + |Label| + c + w;
            && (forall k :: g <= k < g + d ==> IsDigit(s[k]))
            && ExtractData(s).matchScore == DigitsValue(s, g, g + d)
  {
    MatchAtComplete(s, i, c, w, d);
    ScannerFailsBefore(s, i);
    FirstMatchIs(s, 0, i);
    ScoreAtFirstMatch(s, i);
  }

  /** Once the search has found its position, the score is the value of the digits captured there. */
  lemma ScoreAtFirstMatch(s: string, i: nat)
    requires FirstMatchFrom(s, 0) == Some(i)
    ensures var cap := MatchAt(s, i).value;
            ExtractData(s).matchScore == DigitsValue(s, cap.start, cap.end)
  {
  }

  /** When the pattern matches nowhere, the score is 0. */
  lemma ScoreZeroWithoutMatch(s: string)
    requires forall j: nat, c: nat, w: nat, d: nat :: !RegexMatch(s, j, c, w, d)
    ensures ExtractData(s).matchScore == 0
  {
    var r := FirstMatchFrom(s, 0);
    if r.Some? {
      MatchAtSound(s, r.value);
    }
  }

  /** A response without the exact, case-sensitive label scores 0. */
  lemma ScoreZeroWithoutLabel(s: string)
    requires forall j: nat :: !OccursAt(s, Label, j)
    ensures ExtractData(s).matchScore == 0
  {
    forall j: nat, c: nat, w: nat, d: nat ensures !RegexMatch(s, j, c, w, d) {
    }
    ScoreZeroWithoutMatch(s);
  }

  /** Matching is case-sensitive: a lower-case label is not recognised. */
  lemma LowerCaseLabelScoresZero(s: string)
    requires s == "match score: 82%"
    ensures ExtractData(s).matchScore == 0
  {
    assert 'M' !in s && Label[0] == 'M';
    forall j: nat ensures !OccursAt(s, Label, j) {
      if j + |Label| <= |s| {
        assert s[j] in s && s[j..j + |Label|][0] == s[j];
      }
    }
    ScoreZeroWithoutLabel(s);
  }

  /** The labelled percentage is read, with the colon and the space between. */
  lemma LabelledPercentage(s: string)
    requires s == "Match Score: 82%"
    ensures ExtractData(s).matchScore == 82
  {
    assert s[..|Label|] == Label;
    assert s[11] == ':' && s[12] == ' ' && s[13] == '8' && s[14] == '2' && s[15] == '%';
    assert RegexMatch(s, 0, 1, 1, 2);
    ScoreOfLeftmostMatch(s, 0, 1, 1, 2);
    assert DigitsValue(s, 13, 14) == 8;
  }

  /** The score is not bounded by 100: whatever number the response labels is taken. */
  lemma ScoreNotClamped(s: string)
    requires s == "Match Score 150%"
    ensures ExtractData(s).matchScore == 150
  {
    assert s[..|Label|] == Label;
    assert s[11] == ' ' && s[12] == '1' && s[13] == '5' && s[14] == '0' && s[15] == '%';
    assert RegexMatch(s, 0, 0, 1, 3);
    ScoreOfLeftmostMatch(s, 0, 0, 1, 3);
    assert DigitsValue(s, 12, 13) == 1;
    assert DigitsValue(s, 12, 14) == 15;
  }
}
