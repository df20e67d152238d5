/**
 * `is_relevant_job` of job_update.py: the decision whether a job page is worth applying to.
 * The page text is lower-cased once; then, in this order, a job posted more than 30 days ago is
 * rejected, a page with no include keyword is rejected, a page with an exclude keyword is
 * rejected, a page naming no allowed location is rejected, and a page whose experience figures
 * all lie below 8 years or all above 12 is rejected.
 *
 * The three regular expressions of the function are written out as scanners that do what
 * Python's engine does on these particular patterns; each scanner is proved to agree with a
 * declarative description of what its pattern matches.
 */
module Relevance {
  import opened Wrappers
  import opened Text
  import opened Locator

  const IncludeKeywords: seq<string> := [
    "devops", "dev ops", "platform engineer", "platform engineering", "site reliability", "sre",
    "cloud engineer", "aws", "amazon web services", "kubernetes", "docker", "terraform",
    "infrastructure as code", "iac", "cicd", "ci/cd", "jenkins", "github actions", "gcp",
    "google cloud"
  ]

  const ExcludeKeywords: seq<string> := [
    "java developer", "frontend", "react", "angular", "php", "dotnet", ".net", "support engineer",
    "manual testing", "bpo", "sales", "data entry"
  ]

  const AllowedLocations: seq<string> := [
    "bengaluru", "bangalore", "bengaluru/bangalore", "bengaluru / bangalore", "bangalore urban",
    "remote", "work from home", "wfh"
  ]

  const MinExperienceYears: nat := 8
  const MaxExperienceYears: nat := 12
  const MaxAgeDays: nat := 30

  /** `int(...)` of the digits `s[i..j]`, read in place. */
  function Number(s: string, i: nat, j: nat): nat
    requires i <= j <= |s|
    requires forall k :: i <= k < j ==> IsDigit(s[k])
    decreases j
  {
    if j == i then 0 else Number(s, i, j - 1) * 10 + DigitValue(s[j - 1])
  }

  /** Reading the digits in place is reading the substring they form. */
  lemma {:induction false} NumberIsDecimalValue(s: string, i: nat, j: nat)
    requires i <= j <= |s|
    requires forall k :: i <= k < j ==> IsDigit(s[k])
    ensures AllDigits(s[i..j]) && Number(s, i, j) == DecimalValue(s[i..j])
    decreases j
  {
    assert AllDigits(s[i..j]) by {
      forall k | 0 <= k < j - i ensures IsDigit(s[i..j][k]) {
        assert s[i..j][k] == s[i + k];
      }
    }
    if j > i {
      NumberIsDecimalValue(s, i, j - 1);
      assert s[i..j][..j - 1 - i] == s[i..j - 1];
    }
  }

  /** The first digit at or after `i` (what `[^0-9]*` followed by `\d` must stop at). */
  function FirstDigitFrom(s: string, i: nat): (k: nat)
    requires i <= |s|
    ensures i <= k <= |s|
    ensures forall j :: i <= j < k ==> !IsDigit(s[j])
    ensures k == |s| || IsDigit(s[k])
    decreases |s| - i
  {
    if i == |s| || IsDigit(s[i]) then i else FirstDigitFrom(s, i + 1)
  }

  lemma {:induction false} FirstDigitFromIs(s: string, i: nat, k: nat)
    requires i <= k < |s| && IsDigit(s[k])
    requires forall j :: i <= j < k ==> !IsDigit(s[j])
    ensures FirstDigitFrom(s, i) == k
    decreases k - i
  {
    if i < k {
      FirstDigitFromIs(s, i + 1, k);
    }
  }

  // ---------------------------------------------------------------------------------------
  // The age rule: re.search(r"posted[^0-9]*(\d+)\s+day", text)
  // ---------------------------------------------------------------------------------------

  /**
   * The pattern matches from `i`: "posted", non-digits up to `d`, the digits `s[d..dEnd]`,
   * whitespace up to `w`, and "day" at `w`.
   */
  ghost predicate AgeShape(s: string, i: nat, d: nat, dEnd: nat, w: nat) {
    && OccursAt(s, "posted", i)
    && i + 6 <= d < dEnd < w
    && OccursAt(s, "day", w)
    && (forall k :: i + 6 <= k < d ==> !IsDigit(s[k]))
    && (forall k :: d <= k < dEnd ==> IsDigit(s[k]))
    && (forall k :: dEnd <= k < w ==> IsSpace(s[k]))
  }

  /** "posted" at `i`, letter by letter. */
  predicate PostedAt(s: string, i: nat) {
    i + 6 <= |s| && s[i] == 'p' && s[i + 1] == 'o' && s[i + 2] == 's' && s[i + 3] == 't'
    && s[i + 4] == 'e' && s[i + 5] == 'd'
  }

  /** "day" at `w`, letter by letter. */
  predicate DayAt(s: string, w: nat) {
    w + 3 <= |s| && s[w] == 'd' && s[w + 1] == 'a' && s[w + 2] == 'y'
  }

  lemma PostedAtIsOccurrence(s: string, i: nat)
    ensures PostedAt(s, i) <==> OccursAt(s, "posted", i)
  {
    if OccursAt(s, "posted", i) {
      var t := s[i..i + 6];
      assert t[0] == s[i] && t[1] == s[i + 1] && t[2] == s[i + 2];
      assert t[3] == s[i + 3] && t[4] == s[i + 4] && t[5] == s[i + 5];
    }
    if PostedAt(s, i) {
      assert s[i..i + 6] == "posted";
    }
  }

  lemma DayAtIsOccurrence(s: string, w: nat)
    ensures DayAt(s, w) <==> OccursAt(s, "day", w)
  {
    if OccursAt(s, "day", w) {
      var t := s[w..w + 3];
      assert t[0] == s[w] && t[1] == s[w + 1] && t[2] == s[w + 2];
    }
    if DayAt(s, w) {
      assert s[w..w + 3] == "day";
    }
  }

  /** The day count the age pattern captures when its match starts at `i`. */
  function AgeMatchAt(s: string, i: nat): Option<nat>
    requires i <= |s|
  {
    if !PostedAt(s, i) then None
    else
      var d := FirstDigitFrom(s, i + 6);
      if d == |s| then None
      else
        var dEnd := DigitRunEnd(s, d);
        var w := SpaceRunEnd(s, dEnd);
        if w > dEnd && DayAt(s, w) then Some(Number(s, d, dEnd)) else None
  }

  /** The scanner reports a match only where the pattern matches, with the captured number. */
  lemma AgeMatchAtSound(s: string, i: nat)
    requires i <= |s| && AgeMatchAt(s, i).Some?
    ensures exists d: nat, dEnd: nat, w: nat ::
              AgeShape(s, i, d, dEnd, w) && AgeMatchAt(s, i) == Some(Number(s, d, dEnd))
  {
    var d := FirstDigitFrom(s, i + 6);
    var dEnd := DigitRunEnd(s, d);
    var w := SpaceRunEnd(s, dEnd);
    PostedAtIsOccurrence(s, i);
    DayAtIsOccurrence(s, w);
    assert AgeShape(s, i, d, dEnd, w);
  }

  /** Wherever the pattern matches, the scanner finds that match and its number. */
  lemma AgeMatchAtComplete(s: string, i: nat, d: nat, dEnd: nat, w: nat)
    requires AgeShape(s, i, d, dEnd, w)
    ensures AgeMatchAt(s, i) == Some(Number(s, d, dEnd))
  {
    PostedAtIsOccurrence(s, i);
    DayAtIsOccurrence(s, w);
    FirstDigitFromIs(s, i + 6, d);
    assert !IsDigit(s[dEnd]);
    DigitRunEndIs(s, d, dEnd);
    SpaceRunEndIs(s, dEnd, w);
  }

  /** What the age pattern captures when its match starts at each position of `s`. */
  function AgeMatches(s: string): (ms: seq<Option<nat>>)
    ensures |ms| == |s| + 1
    ensures forall k :: 0 <= k <= |s| ==> ms[k] == AgeMatchAt(s, k)
  {
    seq(|s| + 1, k requires 0 <= k <= |s| => AgeMatchAt(s, k))
  }

  /** `re.search(...)`: the day count captured by the leftmost match, if any. */
  function AgeDays(text: string): Option<nat> {
    match FirstSuccess(AgeMatches(text))
    case None => None
    case Some(i) => AgeMatchAt(text, i)
  }

  /** The age figure is the number of the leftmost match, and there is none exactly when the
      pattern matches nowhere. */
  lemma AgeDaysIsLeftmostMatch(text: string)
    ensures AgeDays(text).None? <==> forall k :: 0 <= k <= |text| ==> AgeMatchAt(text, k).None?
    ensures AgeDays(text).Some? ==>
              exists i :: 0 <= i <= |text| && AgeDays(text) == AgeMatchAt(text, i)
                          && forall k :: 0 <= k < i ==> AgeMatchAt(text, k).None?
  {
    var ms := AgeMatches(text);
    if FirstSuccess(ms).Some? {
      var i := FirstSuccess(ms).value;
      assert forall k :: 0 <= k < i ==> ms[k].None?;
    }
  }

  // ---------------------------------------------------------------------------------------
  // The experience figures:
  //   re.finditer(r"(\d+)\s*[-–]\s*(\d+)\s*(?:yrs|years|yr)", text)  and
  //   re.finditer(r"(\d+)\s*\+\s*(?:yrs|years|yr)", text)
  // ---------------------------------------------------------------------------------------

  /** The two experience patterns. */
  datatype YearsPattern = RangePattern | PlusPattern

  /** One match of an experience pattern: the numbers it captures and where it ends. */
  datatype YearsMatch = YearsMatch(years: seq<nat>, end: nat)

  /** `[-–]`: a hyphen or an en dash. */
  predicate IsDash(c: char) {
    c == '-' || c == '–'
  }

  /** `(?:yrs|years|yr)` at `k`: the alternatives are tried in order and the first that fits wins,
      so "yrs" is taken whole even though "yr" also fits. */
  function UnitEnd(s: string, k: nat): (r: Option<nat>)
    ensures r.Some? ==> k < r.value <= |s|
  {
    if k + 3 <= |s| && s[k] == 'y' && s[k + 1] == 'r' && s[k + 2] == 's' then Some(k + 3)
    else if k + 5 <= |s| && s[k] == 'y' && s[k + 1] == 'e' && s[k + 2] == 'a' && s[k + 3] == 'r'
            && s[k + 4] == 's' then Some(k + 5)
    else if k + 2 <= |s| && s[k] == 'y' && s[k + 1] == 'r' then Some(k + 2)
    else None
  }

  /** Every unit alternative starts with 'y', which is neither a digit nor whitespace. */
  lemma UnitStartsWithY(s: string, k: nat)
    requires UnitEnd(s, k).Some?
    ensures k < |s| && s[k] == 'y'
  {
  }

  /**
   * The range pattern matches from `st`: digits `s[st..d1]`, whitespace, a dash at `s1`,
   * whitespace, digits `s[s2..d2]`, whitespace up to `s3`, and a unit ending at `e`.
   */
  ghost predicate RangeShape(s: string, st: nat, d1: nat, s1: nat, s2: nat, d2: nat, s3: nat, e: nat) {
    && st < d1 <= s1 < s2 < d2 <= s3 <= |s|
    && (forall k :: st <= k < d1 ==> IsDigit(s[k]))
    && (forall k :: d1 <= k < s1 ==> IsSpace(s[k]))
    && IsDash(s[s1])
    && (forall k :: s1 + 1 <= k < s2 ==> IsSpace(s[k]))
    && (forall k :: s2 <= k < d2 ==> IsDigit(s[k]))
    && (forall k :: d2 <= k < s3 ==> IsSpace(s[k]))
    && UnitEnd(s, s3) == Some(e)
  }

  /** The plus pattern matches from `st`: digits `s[st..d1]`, whitespace, '+' at `s1`,
      whitespace up to `s2`, and a unit ending at `e`. */
  ghost predicate PlusShape(s: string, st: nat, d1: nat, s1: nat, s2: nat, e: nat) {
    && st < d1 <= s1 < s2 <= |s|
    && (forall k :: st <= k < d1 ==> IsDigit(s[k]))
    && (forall k :: d1 <= k < s1 ==> IsSpace(s[k]))
    && s[s1] == '+'
    && (forall k :: s1 + 1 <= k < s2 ==> IsSpace(s[k]))
    && UnitEnd(s, s2) == Some(e)
  }

  /** The match of the range pattern that starts at `st`, if any. */
  function RangeAt(s: string, st: nat): (r: Option<YearsMatch>)
    requires st <= |s|
    ensures r.Some? ==> st < r.value.end <= |s| && |r.value.years| == 2
  {
    if st == |s| || !IsDigit(s[st]) then None
    else
      var d1 := DigitRunEnd(s, st);
      var s1 := SpaceRunEnd(s, d1);
      if s1 == |s| || !IsDash(s[s1]) then None
      else RangeSecondNumber(s, Number(s, st, d1), SpaceRunEnd(s, s1 + 1))
  }

  /** The range pattern after its dash and the whitespace behind it: the second number at `s2`,
      whitespace, and the unit. */
  function RangeSecondNumber(s: string, first: nat, s2: nat): (r: Option<YearsMatch>)
    requires s2 <= |s|
    ensures r.Some? ==> s2 < r.value.end <= |s| && |r.value.years| == 2
  {
    if s2 == |s| || !IsDigit(s[s2]) then None
    else
      var d2 := DigitRunEnd(s, s2);
      match UnitEnd(s, SpaceRunEnd(s, d2))
      case None => None
      case Some(e) => Some(YearsMatch([first, Number(s, s2, d2)], e))
  }

  /** The match of the plus pattern that starts at `st`, if any. */
  function PlusAt(s: string, st: nat): (r: Option<YearsMatch>)
    requires st <= |s|
    ensures r.Some? ==> st < r.value.end <= |s| && |r.value.years| == 1
  {
    if st == |s| || !IsDigit(s[st]) then None
    else
      var d1 := DigitRunEnd(s, st);
      var s1 := SpaceRunEnd(s, d1);
      if s1 == |s| || s[s1] != '+' then None
      else
        var s2 := SpaceRunEnd(s, s1 + 1);
        match UnitEnd(s, s2)
        case None => None
        case Some(e) => Some(YearsMatch([Number(s, st, d1)], e))
  }

  lemma RangeAtSound(s: string, st: nat)
    requires st <= |s| && RangeAt(s, st).Some?
    ensures exists d1: nat, s1: nat, s2: nat, d2: nat, s3: nat, e: nat ::
              && RangeShape(s, st, d1, s1, s2, d2, s3, e)
              && RangeAt(s, st) == Some(YearsMatch([Number(s, st, d1), Number(s, s2, d2)], e))
  {
    var d1 := DigitRunEnd(s, st);
    var s1 := SpaceRunEnd(s, d1);
    var s2 := SpaceRunEnd(s, s1 + 1);
    var d2 := DigitRunEnd(s, s2);
    var s3 := SpaceRunEnd(s, d2);
    assert RangeShape(s, st, d1, s1, s2, d2, s3, RangeAt(s, st).value.end);
  }

  lemma RangeAtComplete(s: string, st: nat, d1: nat, s1: nat, s2: nat, d2: nat, s3: nat, e: nat)
    requires RangeShape(s, st, d1, s1, s2, d2, s3, e)
    ensures RangeAt(s, st) == Some(YearsMatch([Number(s, st, d1), Number(s, s2, d2)], e))
  {
    UnitStartsWithY(s, s3);
    NumberThenSpace(s, st, d1, s1);
    SpaceRunEndIs(s, s1 + 1, s2);
    NumberThenSpace(s, s2, d2, s3);
    RangeAtFromRuns(s, st, d1, s1, s2, d2, s3, e);
  }

  /** `RangeAt` once the ends of its runs are known. */
  lemma RangeAtFromRuns(s: string, st: nat, d1: nat, s1: nat, s2: nat, d2: nat, s3: nat, e: nat)
    requires st < d1 <= s1 < s2 < d2 <= s3 <= |s| && s1 < |s|
    requires forall k :: st <= k < d1 ==> IsDigit(s[k])
    requires forall k :: s2 <= k < d2 ==> IsDigit(s[k])
    requires DigitRunEnd(s, st) == d1 && SpaceRunEnd(s, d1) == s1 && IsDash(s[s1])
    requires SpaceRunEnd(s, s1 + 1) == s2 && DigitRunEnd(s, s2) == d2 && SpaceRunEnd(s, d2) == s3
    requires UnitEnd(s, s3) == Some(e)
    ensures RangeAt(s, st) == Some(YearsMatch([Number(s, st, d1), Number(s, s2, d2)], e))
  {
    var n1 := Number(s, st, d1);
    assert RangeAt(s, st) == RangeSecondNumber(s, n1, s2);
    assert RangeSecondNumber(s, n1, s2) == Some(YearsMatch([n1, Number(s, s2, d2)], e));
  }

  /** A digit run followed by a whitespace run that ends at a character that is neither: the
      greedy `\d+\s*` ends exactly there. */
  lemma NumberThenSpace(s: string, st: nat, d: nat, k: nat)
    requires st < d <= k < |s|
    requires forall j :: st <= j < d ==> IsDigit(s[j])
    requires forall j :: d <= j < k ==> IsSpace(s[j])
    requires !IsDigit(s[k]) && !IsSpace(s[k])
    ensures DigitRunEnd(s, st) == d && SpaceRunEnd(s, d) == k
  {
    assert !IsDigit(s[d]) by {
      if d < k { assert IsSpace(s[d]); }
    }
    DigitRunEndIs(s, st, d);
    SpaceRunEndIs(s, d, k);
  }

  lemma PlusAtSound(s: string, st: nat)
    requires st <= |s| && PlusAt(s, st).Some?
    ensures exists d1: nat, s1: nat, s2: nat, e: nat ::
              && PlusShape(s, st, d1, s1, s2, e)
              && PlusAt(s, st) == Some(YearsMatch([Number(s, st, d1)], e))
  {
    var d1 := DigitRunEnd(s, st);
    var s1 := SpaceRunEnd(s, d1);
    var s2 := SpaceRunEnd(s, s1 + 1);
    assert PlusShape(s, st, d1, s1, s2, PlusAt(s, st).value.end);
  }

  lemma PlusAtComplete(s: string, st: nat, d1: nat, s1: nat, s2: nat, e: nat)
    requires PlusShape(s, st, d1, s1, s2, e)
    ensures PlusAt(s, st) == Some(YearsMatch([Number(s, st, d1)], e))
  {
    UnitStartsWithY(s, s2);
    NumberThenSpace(s, st, d1, s1);
    SpaceRunEndIs(s, s1 + 1, s2);
  }

  /** The match of `pat` that starts at `st`; a match always ends after where it starts. */
  function MatchAt(s: string, pat: YearsPattern, st: nat): (r: Option<YearsMatch>)
    requires st <= |s|
    ensures r.Some? ==> st < r.value.end <= |s|
  {
    match pat
    case RangePattern => RangeAt(s, st)
    case PlusPattern => PlusAt(s, st)
  }

  /** `re.finditer(pat, s[i..])` flattened into the captured numbers: the leftmost match at or
      after `i` is taken, and the search resumes where it ended. */
  function Scan(s: string, pat: YearsPattern, i: nat): seq<nat>
    requires i <= |s|
    decreases |s| - i
  {
    if i == |s| then []
    else
      match MatchAt(s, pat, i)
      case Some(m) => m.years + Scan(s, pat, m.end)
      case None => Scan(s, pat, i + 1)
  }

  /** The search for a match at `i`, stated as one step of the scan: a match is consumed
      whole, and without one the search moves on by one character. */
  method NextMatch(s: string, pat: YearsPattern, i: nat) returns (next: Option<YearsMatch>)
    requires i < |s|
    ensures next.Some? ==> i < next.value.end <= |s|
    ensures next.Some? ==> Scan(s, pat, i) == next.value.years + Scan(s, pat, next.value.end)
    ensures next.None? ==> Scan(s, pat, i) == Scan(s, pat, i + 1)
  {
    next := MatchAt(s, pat, i);
  }

  /** `years` after both loops: every range match contributes two numbers, then every plus
      match one. */
  function Years(text: string): seq<nat> {
    Scan(text, RangePattern, 0) + Scan(text, PlusPattern, 0)
  }

  /** The smallest figure, `min(years)`. */
  function SeqMin(ys: seq<nat>): (m: nat)
    requires |ys| > 0
    ensures m in ys && forall k :: 0 <= k < |ys| ==> m <= ys[k]
  {
    if |ys| == 1 then ys[0]
    else var rest := SeqMin(ys[1..]); if ys[0] <= rest then ys[0] else rest
  }

  /** The largest figure, `max(years)`. */
  function SeqMax(ys: seq<nat>): (m: nat)
    requires |ys| > 0
    ensures m in ys && forall k :: 0 <= k < |ys| ==> ys[k] <= m
  {
    if |ys| == 1 then ys[0]
    else var rest := SeqMax(ys[1..]); if ys[0] >= rest then ys[0] else rest
  }

  /** The experience rule: no figures at all, or figures that reach into the 8..12 band. */
  predicate ExperienceOk(ys: seq<nat>) {
    |ys| == 0 || !(SeqMax(ys) < MinExperienceYears || SeqMin(ys) > MaxExperienceYears)
  }

  /** The experience rule asks for some figure of at least 8 and some figure of at most 12. */
  lemma ExperienceOkIffOverlap(ys: seq<nat>)
    ensures ExperienceOk(ys) <==>
              |ys| == 0 ||
              ((exists k :: 0 <= k < |ys| && ys[k] >= MinExperienceYears) &&
               (exists k :: 0 <= k < |ys| && ys[k] <= MaxExperienceYears))
  {
    if |ys| > 0 {
      var hi := SeqMax(ys);
      var lo := SeqMin(ys);
      var i :| 0 <= i < |ys| && ys[i] == hi;
      var j :| 0 <= j < |ys| && ys[j] == lo;
    }
  }

  /** Why a page is rejected, in the order the rules are checked. */
  datatype Verdict =
    | Accepted
    | TooOld(days: nat)
    | NoIncludeKeyword
    | ExcludedKeyword
    | LocationNotAllowed
    | ExperienceOutside(minYears: nat, maxYears: nat)

  /** The first four rules on the lower-cased text, in order; Accepted when all of them pass. */
  function TextVerdict(text: string): Verdict {
    var age := AgeDays(text);
    if age.Some? && age.value > MaxAgeDays then TooOld(age.value)
    else if !AnyContains(text, IncludeKeywords) then NoIncludeKeyword
    else if AnyContains(text, ExcludeKeywords) then ExcludedKeyword
    else if !AnyContains(text, AllowedLocations) then LocationNotAllowed
    else Accepted
  }

  /** The experience rule on the figures found. */
  function ExperienceVerdict(ys: seq<nat>): Verdict {
    if ExperienceOk(ys) then Accepted else ExperienceOutside(SeqMin(ys), SeqMax(ys))
  }

  /** The decision, rule by rule, on the lower-cased page text. */
  function Judge(pageText: string): Verdict {
    var text := Lower(pageText);
    var v := TextVerdict(text);
    if v != Accepted then v else ExperienceVerdict(Years(text))
  }

  /** `years.extend(...)` / `years.append(...)` for every match of `pat`, in order. */
  method ExtendWithMatches(text: string, pat: YearsPattern, start: seq<nat>) returns (years: seq<nat>)
    ensures years == start + Scan(text, pat, 0)
  {
    years := start;
    var i := 0;
    while i < |text|
      invariant i <= |text|
      invariant years + Scan(text, pat, i) == start + Scan(text, pat, 0)
      decreases |text| - i
    {
      var next := NextMatch(text, pat, i);
      match next {
        case Some(m) =>
          assert years + Scan(text, pat, i) == (years + m.years) + Scan(text, pat, m.end);
          years := years + m.years;
          i := m.end;
        case None =>
          i := i + 1;
      }
    }
  }

  /** The age, include, exclude and location checks of `is_relevant_job`, each returning False
      as soon as it fails. */
  method PassesTextRules(text: string) returns (ok: bool)
    ensures ok <==> TextVerdict(text) == Accepted
  {
    var age := AgeDays(text);
    if age.Some? && age.value > MaxAgeDays {
      return false;
    }
    if !AnyContains(text, IncludeKeywords) {
      return false;
    }
    if AnyContains(text, ExcludeKeywords) {
      return false;
    }
    if !AnyContains(text, AllowedLocations) {
      return false;
    }
    return true;
  }

  /** Both scans of `is_relevant_job`: every range match, then every plus match. */
  method CollectYears(text: string) returns (years: seq<nat>)
    ensures years == Years(text)
  {
    years := ExtendWithMatches(text, RangePattern, []);
    years := ExtendWithMatches(text, PlusPattern, years);
  }

  /** The experience check of `is_relevant_job`: an empty list passes. */
  method ExperienceWithin(years: seq<nat>) returns (ok: bool)
    ensures ok <==> ExperienceVerdict(years) == Accepted
  {
    if |years| > 0 {
      var minExp, maxExp := SeqMin(years), SeqMax(years);
      if maxExp < MinExperienceYears || minExp > MaxExperienceYears {
        return false;
      }
    }
    return true;
  }

  /** `is_relevant_job(page_text)`. */
  method IsRelevantJob(pageText: string) returns (relevant: bool)
    ensures relevant <==> Judge(pageText) == Accepted
  {
    var text := Lower(pageText);
    var ok := PassesTextRules(text);
    if !ok {
      return false;
    }
    var years := CollectYears(text);
    relevant := ExperienceWithin(years);
  }

  /** A page is accepted exactly when it passes every rule. */
  lemma AcceptedIffAllRulesPass(pageText: string)
    ensures var text := Lower(pageText);
            Judge(pageText) == Accepted <==>
              && (AgeDays(text).None? || AgeDays(text).value <= MaxAgeDays)
              && AnyContains(text, IncludeKeywords)
              && !AnyContains(text, ExcludeKeywords)
              && AnyContains(text, AllowedLocations)
              && ExperienceOk(Years(text))
  {
  }

  /** The rules short-circuit in order: each rejection reason means every earlier rule passed. */
  lemma RejectionOrder(pageText: string)
    ensures var text := Lower(pageText);
            var ageOk := AgeDays(text).None? || AgeDays(text).value <= MaxAgeDays;
            && (Judge(pageText).TooOld? <==> !ageOk)
            && (Judge(pageText) == NoIncludeKeyword <==> ageOk && !AnyContains(text, IncludeKeywords))
            && (Judge(pageText) == ExcludedKeyword <==>
                  ageOk && AnyContains(text, IncludeKeywords) && AnyContains(text, ExcludeKeywords))
            && (Judge(pageText) == LocationNotAllowed <==>
                  ageOk && AnyContains(text, IncludeKeywords) && !AnyContains(text, ExcludeKeywords)
                  && !AnyContains(text, AllowedLocations))
  {
  }

  /** The age boundary: more than 30 days rejects, 30 days or no age figure passes the age rule. */
  lemma AgeBoundary(pageText: string)
    ensures var age := AgeDays(Lower(pageText));
            && (age.Some? && age.value > 30 ==> Judge(pageText) == TooOld(age.value))
            && (age.None? || age.value <= 30 ==> !Judge(pageText).TooOld?)
  {
  }

  lemma LowerLowerIsLower(s: string)
    ensures Lower(Lower(s)) == Lower(s)
  {
  }

  /** Matching ignores letter case: a page and its lower-cased copy are judged alike. */
  lemma JudgeIgnoresCase(pageText: string)
    ensures Judge(Lower(pageText)) == Judge(pageText)
  {
    LowerLowerIsLower(pageText);
  }

  /** No ASCII capital letter in `s`. */
  predicate NoCapitals(s: string) {
    forall i :: 0 <= i < |s| ==> !('A' <= s[i] <= 'Z')
  }

  lemma LowerOfNoCapitals(s: string)
    requires NoCapitals(s)
    ensures Lower(s) == s
  {
  }

  /** Every keyword list is written in lower case, so lower-casing the page once suffices. */
  lemma IncludeKeywordsAreLowerCase()
    ensures forall k :: 0 <= k < |IncludeKeywords| ==> NoCapitals(IncludeKeywords[k])
  {
    IncludeKeywordsFirstFive();
    IncludeKeywordsSecondFive();
    IncludeKeywordsThirdFive();
    IncludeKeywordsLastFive();
  }

  lemma IncludeKeywordsFirstFive()
    ensures forall k :: 0 <= k < 5 ==> NoCapitals(IncludeKeywords[k])
  {
  }

  lemma IncludeKeywordsSecondFive()
    ensures forall k :: 5 <= k < 10 ==> NoCapitals(IncludeKeywords[k])
  {
  }

  lemma IncludeKeywordsThirdFive()
    ensures forall k :: 10 <= k < 15 ==> NoCapitals(IncludeKeywords[k])
  {
  }

  lemma IncludeKeywordsLastFive()
    ensures forall k :: 15 <= k < 20 ==> NoCapitals(IncludeKeywords[k])
  {
  }

  lemma ExcludeKeywordsAreLowerCase()
    ensures forall k :: 0 <= k < |ExcludeKeywords| ==> NoCapitals(ExcludeKeywords[k])
  {
  }

  lemma AllowedLocationsAreLowerCase()
    ensures forall k :: 0 <= k < |AllowedLocations| ==> NoCapitals(AllowedLocations[k])
  {
  }

  /** A keyword that appears in the page in any letter case counts as found. */
  lemma KeywordInAnyCase(pageText: string, keywords: seq<string>, k: nat, written: string)
    requires k < |keywords| && NoCapitals(keywords[k])
    requires Lower(written) == keywords[k] && Contains(pageText, written)
    ensures AnyContains(Lower(pageText), keywords)
  {
    ContainsLower(pageText, written);
    LowerOfNoCapitals(keywords[k]);
  }

  /** "a-b yrs" with single digits yields the figures a and b, and nothing from the plus pattern. */
  lemma {:induction false} YearsOfSimpleRange(a: char, b: char)
    requires IsDigit(a) && IsDigit(b)
    ensures Years([a, '-', b, ' ', 'y', 'r', 's']) == [DigitValue(a), DigitValue(b)]
  {
    var s := [a, '-', b, ' ', 'y', 'r', 's'];
    assert UnitEnd(s, 4) == Some(7);
    assert RangeShape(s, 0, 1, 1, 2, 3, 4, 7);
    RangeAtComplete(s, 0, 1, 1, 2, 3, 4, 7);
    assert Number(s, 0, 1) == DigitValue(a);
    assert Number(s, 2, 3) == DigitValue(b);
    assert Scan(s, RangePattern, 0) == [DigitValue(a), DigitValue(b)];
    DigitRunEndIs(s, 0, 1);
    SpaceRunEndIs(s, 1, 1);
    DigitRunEndIs(s, 2, 3);
    SpaceRunEndIs(s, 3, 4);
    assert PlusAt(s, 0).None? && PlusAt(s, 2).None?;
    assert Scan(s, PlusPattern, 7) == [];
    assert Scan(s, PlusPattern, 6) == [];
    assert Scan(s, PlusPattern, 5) == [];
    assert Scan(s, PlusPattern, 4) == [];
    assert Scan(s, PlusPattern, 3) == [];
    assert Scan(s, PlusPattern, 2) == [];
    assert Scan(s, PlusPattern, 1) == [];
    assert Scan(s, PlusPattern, 0) == [];
  }

  /** "d+ yrs" with a single digit yields the one figure d. */
  lemma {:induction false} YearsOfSimplePlus(d: char)
    requires IsDigit(d)
    ensures Years([d, '+', ' ', 'y', 'r', 's']) == [DigitValue(d)]
  {
    var s := [d, '+', ' ', 'y', 'r', 's'];
    assert UnitEnd(s, 3) == Some(6);
    assert PlusShape(s, 0, 1, 1, 3, 6);
    PlusAtComplete(s, 0, 1, 1, 3, 6);
    assert Number(s, 0, 1) == DigitValue(d);
    assert Scan(s, PlusPattern, 0) == [DigitValue(d)];
    DigitRunEndIs(s, 0, 1);
    SpaceRunEndIs(s, 1, 1);
    assert RangeAt(s, 0).None?;
    assert Scan(s, RangePattern, 6) == [];
    assert Scan(s, RangePattern, 5) == [];
    assert Scan(s, RangePattern, 4) == [];
    assert Scan(s, RangePattern, 3) == [];
    assert Scan(s, RangePattern, 2) == [];
    assert Scan(s, RangePattern, 1) == [];
    assert Scan(s, RangePattern, 0) == [];
  }

  /** "5-8 yrs" and "9+ yrs" reach into the band; "3-5 yrs" does not. */
  lemma ExperiencePageExamples()
    ensures ExperienceOk(Years("5-8 yrs"))
    ensures ExperienceOk(Years("9+ yrs"))
    ensures !ExperienceOk(Years("3-5 yrs"))
  {
    YearsOfSimpleRange('5', '8');
    assert "5-8 yrs" == ['5', '-', '8', ' ', 'y', 'r', 's'];
    YearsOfSimplePlus('9');
    assert "9+ yrs" == ['9', '+', ' ', 'y', 'r', 's'];
    YearsOfSimpleRange('3', '5');
    assert "3-5 yrs" == ['3', '-', '5', ' ', 'y', 'r', 's'];
    ExperienceExamples();
  }

  lemma ExperienceExamples()
    ensures ExperienceOk([5, 8]) && ExperienceOk([9]) && !ExperienceOk([3, 5]) && ExperienceOk([])
    ensures !ExperienceOk([13, 15])
  {
    assert SeqMax([5, 8]) == 8;
    assert SeqMax([3, 5]) == 5;
    assert SeqMin([13, 15]) == 13;
  }
}
