/**
 * The two ways the profile scripts make a "tiny change" to the resume headline:
 * update_profile.py appends (or refreshes) a timestamp suffix " · upd DDMonHHMM", and
 * job_agent.py toggles a trailing dot.
 *
 * The suffix is removed with `re.sub(r"\s*·\s*upd\s+\d{2}[A-Za-z]{3}\d{4}$", "", headline)`.
 * That pattern can match in only one place: `$` matches at the end of the text or just before
 * a final newline, the stamp is the nine characters before that point, and the whitespace runs
 * around "upd" are bounded by 'd' and '·', which are not whitespace. `FindMarker` computes that
 * place and `HasMarkerAt` describes it declaratively; the two are proved to agree.
 */
module Headline {
  import opened Wrappers
  import opened Text

  /** The text placed between the base and the stamp. */
  const Separator: string := " · upd "

  /** A stamp as `strftime("%d%b%H%M")` writes it and as `\d{2}[A-Za-z]{3}\d{4}` reads it. */
  predicate IsStamp(t: string) {
    && |t| == 9
    && IsDigit(t[0]) && IsDigit(t[1])
    && IsLetter(t[2]) && IsLetter(t[3]) && IsLetter(t[4])
    && IsDigit(t[5]) && IsDigit(t[6]) && IsDigit(t[7]) && IsDigit(t[8])
  }

  /** Where `$` lets a match end: at the very end, or before one final newline. */
  predicate MatchMayEndAt(s: string, e: nat) {
    e == |s| || (e + 1 == |s| && s[e] == '\n')
  }

  /**
   * `s[p..e]` is `·`, whitespace, "upd", at least one whitespace character and a stamp; `a` is
   * where "upd" starts and `b` where the stamp starts.
   */
  ghost predicate MarkerShape(s: string, p: nat, a: nat, b: nat, e: nat) {
    && p + 1 <= a && a + 3 < b && b + 9 == e && e <= |s|
    && s[p] == '·'
    && AllSpace(s[p + 1..a])
    && s[a] == 'u' && s[a + 1] == 'p' && s[a + 2] == 'd'
    && AllSpace(s[a + 3..b])
    && IsStamp(s[b..e])
  }

  /** The suffix pattern (without its optional leading whitespace) matches from the '·' at `p`. */
  ghost predicate HasMarkerAt(s: string, p: nat) {
    exists a: nat, b: nat, e: nat :: MarkerShape(s, p, a, b, e) && MatchMayEndAt(s, e)
  }

  /** The only position at which a match can end: before a final newline, otherwise the end. */
  function MatchEnd(s: string): (e: nat)
    ensures MatchMayEndAt(s, e)
  {
    if |s| > 0 && s[|s| - 1] == '\n' then |s| - 1 else |s|
  }

  /** The position of the '·' of a marker that ends exactly at `e`, if there is one. */
  function MarkerEndingAt(s: string, e: nat): (r: Option<nat>)
    requires e <= |s|
    ensures r.Some? ==> r.value < e && s[r.value] == '·'
  {
    if e < 9 || !IsStamp(s[e - 9..e]) then None
    else
      var k := SpaceRunStart(s, e - 9);
      if k == e - 9 || k < 3 || s[k - 3] != 'u' || s[k - 2] != 'p' || s[k - 1] != 'd' then None
      else
        var m := SpaceRunStart(s, k - 3);
        if m == 0 || s[m - 1] != '·' then None else Some(m - 1)
  }

  /** The position of the '·' of the suffix the pattern matches, if it matches. */
  function FindMarker(s: string): (r: Option<nat>)
    ensures r.Some? ==> r.value < MatchEnd(s) && s[r.value] == '·'
  {
    MarkerEndingAt(s, MatchEnd(s))
  }

  /** What `FindMarker` reports is a match of the pattern. */
  lemma FindMarkerSound(s: string)
    requires FindMarker(s).Some?
    ensures HasMarkerAt(s, FindMarker(s).value)
  {
    var e := MatchEnd(s);
    var b := e - 9;
    var k := SpaceRunStart(s, b);
    var a := k - 3;
    var m := SpaceRunStart(s, a);
    var p := m - 1;
    assert MarkerShape(s, p, a, b, e);
  }

  /** A marker's stamp ends in a digit, so it can only end where `MatchEnd` says. */
  lemma MarkerEndsAtMatchEnd(s: string, p: nat, a: nat, b: nat, e: nat)
    requires MarkerShape(s, p, a, b, e) && MatchMayEndAt(s, e)
    ensures e == MatchEnd(s)
  {
    assert s[e - 1] == s[b..e][8];
  }

  /** The whitespace runs of a marker are maximal: they are bounded by 'd' and by '·'. */
  lemma MarkerRuns(s: string, p: nat, a: nat, b: nat, e: nat)
    requires MarkerShape(s, p, a, b, e)
    ensures SpaceRunStart(s, b) == a + 3
    ensures SpaceRunStart(s, a) == p + 1
  {
    assert forall m :: a + 3 <= m < b ==> IsSpace(s[m]) by {
      forall m | a + 3 <= m < b ensures IsSpace(s[m]) {
        assert s[m] == s[a + 3..b][m - (a + 3)];
      }
    }
    SpaceRunStartIs(s, a + 3, b);
    assert forall m :: p + 1 <= m < a ==> IsSpace(s[m]) by {
      forall m | p + 1 <= m < a ensures IsSpace(s[m]) {
        assert s[m] == s[p + 1..a][m - (p + 1)];
      }
    }
    SpaceRunStartIs(s, p + 1, a);
  }

  /** `MarkerEndingAt` follows the runs back from the stamp to the '·'. */
  lemma MarkerEndingAtIs(s: string, p: nat, a: nat, b: nat, e: nat)
    requires b + 9 == e <= |s| && IsStamp(s[b..e])
    requires a + 3 < b && SpaceRunStart(s, b) == a + 3
    requires s[a] == 'u' && s[a + 1] == 'p' && s[a + 2] == 'd'
    requires p + 1 <= a && SpaceRunStart(s, a) == p + 1 && s[p] == '·'
    ensures MarkerEndingAt(s, e) == Some(p)
  {
  }

  /** Every match of the pattern is the one `FindMarker` reports; in particular there is at most one. */
  lemma FindMarkerComplete(s: string, p: nat)
    requires HasMarkerAt(s, p)
    ensures FindMarker(s) == Some(p)
  {
    var a: nat, b: nat, e: nat :| MarkerShape(s, p, a, b, e) && MatchMayEndAt(s, e);
    MarkerEndsAtMatchEnd(s, p, a, b, e);
    MarkerRuns(s, p, a, b, e);
    MarkerEndingAtIs(s, p, a, b, e);
  }

  /** `re.sub(pattern, "", s)`: the leftmost match begins where the whitespace before '·' begins. */
  function StripMarker(s: string): (r: string)
    ensures FindMarker(s).None? ==> r == s
    ensures FindMarker(s).Some? ==> |r| < |s|
  {
    match FindMarker(s)
    case None => s
    case Some(p) => s[..SpaceRunStart(s, p)] + s[MatchEnd(s)..]
  }

  /** The base the builder keeps: the text before the marker, stripped of trailing whitespace. */
  lemma {:induction false} BaseBeforeMarker(s: string)
    requires FindMarker(s).Some?
    ensures RStrip(StripMarker(s)) == RStrip(s[..FindMarker(s).value])
  {
    var p := FindMarker(s).value;
    var st := SpaceRunStart(s, p);
    var e := MatchEnd(s);
    assert StripMarker(s) == s[..st] + s[e..];
    assert AllSpace(s[e..]) by {
      if e < |s| {
        assert s[e..] == [s[e]];
      }
    }
    RStripAppendSpace(s[..st], s[e..]);
    var gap := s[st..p];
    assert AllSpace(gap) by {
      forall i | 0 <= i < |gap|
        ensures IsSpace(gap[i])
      {
        assert gap[i] == s[st + i];
      }
    }
    assert s[..p] == s[..st] + gap;
    RStripAppendSpace(s[..st], gap);
  }

  /** Where the parts of `base + Separator + ts` sit. */
  lemma AppendedSuffix(base: string, ts: string)
    ensures EndsWith(base + Separator + ts, Separator + ts)
    ensures var r := base + Separator + ts; r[..|r| - |Separator + ts|] == base
  {
    var r := base + Separator + ts;
    assert r[..|base|] == base;
    assert r[|base|..] == Separator + ts;
  }

  /** `build_new_headline_text(headline, ts)`, as written: strip the marker, then trailing whitespace. */
  function BuildNewHeadlineText(headline: string, ts: string): (r: string)
    ensures EndsWith(r, Separator + ts)
    ensures var base := r[..|r| - |Separator + ts|]; base == RStrip(base)
  {
    var stripped := StripMarker(headline);
    RStripAppendSpace(stripped, []);
    assert stripped + [] == stripped;
    AppendedSuffix(RStrip(stripped), ts);
    RStrip(stripped) + Separator + ts
  }

  /** `build_new_headline_text` with the trailing whitespace removed BEFORE the marker is looked for. */
  function BuildNewHeadlineTextFixed(headline: string, ts: string): (r: string)
    ensures EndsWith(r, Separator + ts)
  {
    BuildNewHeadlineText(RStrip(headline), ts)
  }

  /** The characters of `base + " · upd " + ts`, position by position. */
  lemma SuffixLayout(base: string, ts: string)
    ensures var r := base + Separator + ts;
            && |r| == |base| + 7 + |ts|
            && r[..|base|] == base
            && r[|base|] == ' ' && r[|base| + 1] == '·' && r[|base| + 2] == ' '
            && r[|base| + 3..|base| + 6] == "upd" && r[|base| + 6] == ' '
            && r[|base| + 7..] == ts
  {
    var r := base + Separator + ts;
    assert r[|base| + 3..|base| + 6] == Separator[3..6];
    assert r[|base| + 7..] == ts;
  }

  /** A headline ending in `base + " · upd " + ts` with a well-formed stamp has its marker at the
      '·' of that suffix. */
  lemma {:induction false} MarkerOfSuffix(base: string, ts: string)
    requires IsStamp(ts)
    ensures FindMarker(base + Separator + ts) == Some(|base| + 1)
  {
    var r := base + Separator + ts;
    SuffixLayout(base, ts);
    var b := |base| + 7;
    var e := |r|;
    assert r[b..e] == ts;
    assert AllSpace(r[|base| + 2..|base| + 3]) by {
      assert r[|base| + 2..|base| + 3] == [' '];
    }
    assert AllSpace(r[|base| + 6..b]) by {
      assert r[|base| + 6..b] == [' '];
    }
    assert MarkerShape(r, |base| + 1, |base| + 3, b, e);
    FindMarkerComplete(r, |base| + 1);
  }

  /** The text the builder keeps from the headline it is given. */
  function BaseOf(headline: string): string {
    RStrip(StripMarker(headline))
  }

  /** The builder unfolded through `BaseOf`. */
  lemma BuildIsBaseOf(headline: string, ts: string)
    ensures BuildNewHeadlineText(headline, ts) == BaseOf(headline) + Separator + ts
  {
  }

  /**
   * What the builder keeps, in terms of the match: the whole headline when the pattern does not
   * match, and otherwise the text before the marker's '·'; either way right-trimmed and followed
   * by " · upd " + ts.
   */
  lemma BuildByMatch(headline: string, ts: string)
    ensures FindMarker(headline).None? ==>
              BuildNewHeadlineText(headline, ts) == RStrip(headline) + Separator + ts
    ensures FindMarker(headline).Some? ==>
              BuildNewHeadlineText(headline, ts)
              == RStrip(headline[..FindMarker(headline).value]) + Separator + ts
  {
    if FindMarker(headline).Some? {
      BaseBeforeMarker(headline);
    }
  }

  /** The base of a built headline is the base it was built from. */
  lemma {:induction false} BaseOfBuilt(base: string, ts: string)
    requires IsStamp(ts) && RStrip(base) == base
    ensures BaseOf(base + Separator + ts) == base
  {
    var t := base + Separator + ts;
    MarkerOfSuffix(base, ts);
    BaseBeforeMarker(t);
    SuffixLayout(base, ts);
    assert t[..|base| + 1] == base + [' '];
    RStripAppendSpace(base, [' ']);
  }

  /**
   * Refreshing a headline the builder produced replaces its stamp and keeps its base: running the
   * refresh again never stacks a second suffix on a freshly built headline.
   */
  lemma {:induction false} BuildTwice(headline: string, ts1: string, ts2: string)
    requires IsStamp(ts1)
    ensures BuildNewHeadlineText(BuildNewHeadlineText(headline, ts1), ts2) == BuildNewHeadlineText(headline, ts2)
  {
    var base := BaseOf(headline);
    RStripAppendSpace(StripMarker(headline), []);
    assert StripMarker(headline) + [] == StripMarker(headline);
    BaseOfBuilt(base, ts1);
    BuildIsBaseOf(headline, ts1);
    BuildIsBaseOf(BuildNewHeadlineText(headline, ts1), ts2);
    BuildIsBaseOf(headline, ts2);
  }

  /** The same stamp twice in a row leaves a built headline as it is. */
  lemma SameStampIsFixedPoint(headline: string, ts: string)
    requires IsStamp(ts)
    ensures var t := BuildNewHeadlineText(headline, ts); BuildNewHeadlineText(t, ts) == t
  {
    BuildTwice(headline, ts, ts);
  }

  /** A different stamp always changes the text, so a save is a real edit once the minute changed. */
  lemma NewStampChanges(headline: string, ts1: string, ts2: string)
    requires IsStamp(ts1) && IsStamp(ts2) && ts1 != ts2
    ensures var t := BuildNewHeadlineText(headline, ts1); BuildNewHeadlineText(t, ts2) != t
  {
    var t := BuildNewHeadlineText(headline, ts1);
    var r := BuildNewHeadlineText(t, ts2);
    BuildTwice(headline, ts1, ts2);
    BuildIsBaseOf(headline, ts1);
    BuildIsBaseOf(headline, ts2);
    assert r[|r| - 9..] == ts2;
    assert t[|t| - 9..] == ts1;
  }

  /**
   * As written, whitespace after an existing suffix hides it from the pattern (the `$` anchor only
   * allows a newline there), so the headline suffix survives and a second one is appended.
   */
  lemma {:induction false} TrailingSpaceStacksSuffix(headline: string, ts0: string, ts: string)
    requires IsStamp(ts0)
    ensures var t := BuildNewHeadlineText(headline, ts0);
            && BuildNewHeadlineText(t + " ", ts) == t + Separator + ts
            && BuildNewHeadlineText(t + " ", ts) != BuildNewHeadlineText(headline, ts)
  {
    var t := BuildNewHeadlineText(headline, ts0);
    BuildIsBaseOf(headline, ts0);
    assert t[|t| - 1] == ts0[8];
    NoMarkerBeforeSpace(t);
    var s := t + " ";
    assert StripMarker(s) == s;
    RStripAppendSpace(t, " ");
    assert RStrip(t) == t by {
      SpaceRunStartIs(t, |t|, |t|);
    }
    assert BaseOf(s) == t;
    BuildIsBaseOf(s, ts);
    BuildIsBaseOf(headline, ts);
    assert |BuildNewHeadlineText(s, ts)| == |t| + 7 + |ts|;
    assert |BuildNewHeadlineText(headline, ts)| + 16 == |t| + 7 + |ts|;
  }

  /** A trailing space after the last stamp digit leaves nothing for the pattern to match. */
  lemma NoMarkerBeforeSpace(t: string)
    ensures FindMarker(t + " ").None?
  {
    var s := t + " ";
    assert s[|s| - 1] == ' ';
    assert MatchEnd(s) == |s|;
    if |s| >= 9 {
      assert s[|s| - 9..|s|][8] == ' ';
    }
  }

  /** One concrete headline that shows the stacked suffix. */
  lemma StackedSuffixExample()
    ensures var t := BuildNewHeadlineText("Engineer", "09Dec1523");
            BuildNewHeadlineText(t + " ", "10Dec0900") == t + " · upd 10Dec0900"
  {
    TrailingSpaceStacksSuffix("Engineer", "09Dec1523", "10Dec0900");
  }

  /** With the whitespace stripped first, a built headline is refreshed in place whatever whitespace
      follows it. */
  lemma {:induction false} FixedRefreshesAfterTrailingSpace(headline: string, ts0: string, w: string, ts: string)
    requires IsStamp(ts0) && AllSpace(w)
    ensures BuildNewHeadlineTextFixed(BuildNewHeadlineText(headline, ts0) + w, ts) == BuildNewHeadlineText(headline, ts)
  {
    var t := BuildNewHeadlineText(headline, ts0);
    RStrippedBuild(headline, ts0);
    RStripAppendSpace(t, w);
    assert RStrip(t + w) == t;
    BuildTwice(headline, ts0, ts);
  }

  /** The corrected builder also replaces its own stamp rather than stacking a new one. */
  lemma FixedBuildTwice(headline: string, ts1: string, ts2: string)
    requires IsStamp(ts1)
    ensures BuildNewHeadlineTextFixed(BuildNewHeadlineTextFixed(headline, ts1), ts2) == BuildNewHeadlineTextFixed(headline, ts2)
  {
    FixedRefreshesAfterTrailingSpace(RStrip(headline), ts1, [], ts2);
    var t := BuildNewHeadlineTextFixed(headline, ts1);
    assert t + [] == t;
  }

  /** An empty headline becomes the bare suffix (the f-string keeps the space before '·'). */
  lemma EmptyHeadline(ts: string)
    ensures BuildNewHeadlineText("", ts) == Separator + ts
  {
    assert FindMarker("").None?;
    assert RStrip("") == "";
  }

  /** How many suffixes are stacked at the end of `s`: each one found, after stripping the
      whitespace before it, may end in another. */
  function MarkerCount(s: string): nat
    decreases |s|
  {
    match FindMarker(s)
    case None => 0
    case Some(p) => 1 + MarkerCount(RStrip(s[..p]))
  }

  /** The count of a freshly built headline is one more than that of its base. */
  lemma {:induction false} MarkerCountOfBuild(headline: string, ts: string)
    requires IsStamp(ts)
    ensures MarkerCount(BuildNewHeadlineText(headline, ts)) == 1 + MarkerCount(BaseOf(headline))
  {
    var base := BaseOf(headline);
    var r := BuildNewHeadlineText(headline, ts);
    BuildIsBaseOf(headline, ts);
    MarkerOfSuffix(base, ts);
    SuffixLayout(base, ts);
    assert r[..|base| + 1] == base + [' '];
    RStripAppendSpace(base, [' ']);
    RStripAppendSpace(StripMarker(headline), []);
    assert StripMarker(headline) + [] == StripMarker(headline);
  }

  /**
   * As written: a headline that ends in a suffix keeps its count (only the outermost suffix is
   * replaced, so stacked suffixes below it stay), and one that does not gains one on top of
   * whatever its right-stripped text already ends in.
   */
  lemma MarkerCountAsWritten(headline: string, ts: string)
    requires IsStamp(ts)
    ensures FindMarker(headline).Some? ==>
              MarkerCount(BuildNewHeadlineText(headline, ts)) == MarkerCount(headline)
    ensures FindMarker(headline).None? ==>
              MarkerCount(BuildNewHeadlineText(headline, ts)) == 1 + MarkerCount(RStrip(headline))
  {
    MarkerCountOfBuild(headline, ts);
    if FindMarker(headline).Some? {
      BaseBeforeMarker(headline);
    }
  }

  /** A headline with no suffix, and no trailing whitespace, gets exactly one. */
  lemma OneMarkerFromClean(headline: string, ts: string)
    requires IsStamp(ts) && FindMarker(headline).None? && RStrip(headline) == headline
    ensures MarkerCount(BuildNewHeadlineText(headline, ts)) == 1
  {
    MarkerCountAsWritten(headline, ts);
  }

  /** As written, the count can grow: a built headline followed by a space, which the pattern no
      longer sees as carrying a suffix, gets a new suffix on top of the old one. */
  lemma MarkerCountGrowsAfterSpace(headline: string, ts0: string, ts: string)
    requires IsStamp(ts0) && IsStamp(ts)
    ensures var t := BuildNewHeadlineText(headline, ts0);
            && MarkerCount(t + " ") == 0
            && MarkerCount(BuildNewHeadlineText(t + " ", ts)) == MarkerCount(t) + 1
  {
    var t := BuildNewHeadlineText(headline, ts0);
    var s := t + " ";
    NoMarkerBeforeSpace(t);
    assert MarkerCount(s) == 0;
    MarkerCountAsWritten(s, ts);
    assert MarkerCount(BuildNewHeadlineText(s, ts)) == 1 + MarkerCount(RStrip(s));
    RStrippedBuild(headline, ts0);
    RStripAppendSpace(t, " ");
  }

  /** A built headline ends in a stamp digit, so right-stripping leaves it as it is. */
  lemma RStrippedBuild(headline: string, ts: string)
    requires IsStamp(ts)
    ensures RStrip(BuildNewHeadlineText(headline, ts)) == BuildNewHeadlineText(headline, ts)
  {
    var t := BuildNewHeadlineText(headline, ts);
    BuildIsBaseOf(headline, ts);
    assert t[|t| - 1] == ts[8];
    SpaceRunStartIs(t, |t|, |t|);
  }

  /** The corrected builder never grows the count past one more than nothing: a headline whose
      stripped text ends in suffixes keeps their number, any other gets exactly one. */
  lemma {:induction false} MarkerCountFixed(headline: string, ts: string)
    requires IsStamp(ts)
    ensures MarkerCount(BuildNewHeadlineTextFixed(headline, ts)) ==
              if MarkerCount(RStrip(headline)) == 0 then 1 else MarkerCount(RStrip(headline))
  {
    var h := RStrip(headline);
    MarkerCountAsWritten(h, ts);
    RStripAppendSpace(headline, []);
    assert headline + [] == headline;
  }

  /** job_agent.py's tiny change: drop a trailing '.' if there is one, otherwise add one. */
  function ToggleTrailingDot(text: string): (r: string)
    ensures r != text
    ensures EndsWith(text, ".") <==> |r| + 1 == |text|
    ensures !EndsWith(text, ".") <==> |r| == |text| + 1
    ensures EndsWith(text, ".") ==> r == text[..|text| - 1]
    ensures !EndsWith(text, ".") ==> r[..|text|] == text && r[|text|] == '.'
  {
    if EndsWith(text, ".") then text[..|text| - 1] else text + "."
  }

  /** Ending in "." is a test of the last character. */
  lemma EndsWithDot(s: string)
    ensures EndsWith(s, ".") <==> |s| >= 1 && s[|s| - 1] == '.'
  {
    if |s| >= 1 { assert s[|s| - 1..][0] == s[|s| - 1]; }
  }

  /** Ending in ".." is a test of the last two characters. */
  lemma EndsWithTwoDots(s: string)
    ensures EndsWith(s, "..") <==> |s| >= 2 && s[|s| - 2] == '.' && s[|s| - 1] == '.'
  {
    if |s| >= 2 {
      var t := s[|s| - 2..];
      assert t[0] == s[|s| - 2] && t[1] == s[|s| - 1];
      if s[|s| - 2] == '.' && s[|s| - 1] == '.' { assert t == ".."; }
    }
  }

  /** Toggling twice restores the headline exactly when it did not end in two dots. */
  lemma {:induction false} ToggleTwice(text: string)
    ensures ToggleTrailingDot(ToggleTrailingDot(text)) == text <==> !EndsWith(text, "..")
  {
    var n := |text|;
    var r := ToggleTrailingDot(text);
    EndsWithDot(text);
    EndsWithDot(r);
    EndsWithTwoDots(text);
    if EndsWith(text, ".") {
      assert r == text[..n - 1];
      if n >= 2 && text[n - 2] == '.' {
        assert r[|r| - 1] == text[n - 2];
        assert ToggleTrailingDot(r) == r[..|r| - 1];
      } else {
        if n >= 2 { assert r[|r| - 1] == text[n - 2]; }
        assert ToggleTrailingDot(r) == r + ".";
        assert text == text[..n - 1] + [text[n - 1]];
      }
    } else {
      assert r[|r| - 1] == '.';
      assert ToggleTrailingDot(r) == r[..|r| - 1];
    }
  }
}
