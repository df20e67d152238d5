/**
 * `apply_jobs` of job_apply.py: walk the job cards of the Recommended Jobs page by index, open
 * each one, and click Apply where the page offers it and does not already say "applied", until
 * `max_jobs` applications were made or the cards run out.
 *
 * Each card is replaced by what the browser would report for it; `Classify` gives the branch of
 * the loop body that the card takes.
 */
module JobApply {
  import opened Text
  import opened Caps

  /** What the browser reports for one job card. */
  datatype JobCard = JobCard(
    opens: bool,             // scrolling to the card and clicking it did not raise
    pageLoads: bool,         // a new tab opened, or the same tab reached a "/job-listings-" URL
    applyButton: bool,       // an Apply button became clickable within the wait
    pageText: string,        // the string value of the job page, for the "applied" lookup
    applyClickWorks: bool    // the scripted click on Apply did not raise
  )

  /** The branch of the loop body a card takes. */
  datatype CardOutcome =
    | Crashed           // an exception before the job page; caught, loop continues
    | PageNotLoaded     // same-tab navigation timed out; go back, continue
    | NoApplyButton     // no clickable Apply within the wait; close, continue
    | AlreadyApplied    // some element mentions "applied"; close without clicking
    | ApplyClickFailed  // the click raised; warning only
    | ApplyClicked      // the only branch that counts

  /** XPath `translate(., 'APPLIED', 'applied')`: only the capitals of "APPLIED" are lowered. */
  function TranslateApplied(s: string): (r: string)
    ensures |r| == |s|
    ensures forall i :: 0 <= i < |s| ==>
              r[i] == (if s[i] in "APLIED" then LowerChar(s[i]) else s[i])
  {
    seq(|s|, i requires 0 <= i < |s| => if s[i] in "APLIED" then LowerChar(s[i]) else s[i])
  }

  /** The "already applied" lookup finds an element: the page mentions "applied" in any mix of
      case of those letters. */
  predicate LooksApplied(pageText: string) {
    Contains(TranslateApplied(pageText), "applied")
  }

  function Classify(card: JobCard): CardOutcome {
    if !card.opens then Crashed
    else if !card.pageLoads then PageNotLoaded
    else if !card.applyButton then NoApplyButton
    else if LooksApplied(card.pageText) then AlreadyApplied
    else if !card.applyClickWorks then ApplyClickFailed
    else ApplyClicked
  }

  /** A card is applied to exactly when it opens, loads, offers Apply, does not look applied and
      the click goes through. */
  lemma ClassifyApplied(card: JobCard)
    ensures Classify(card) == ApplyClicked <==>
              card.opens && card.pageLoads && card.applyButton && !LooksApplied(card.pageText)
              && card.applyClickWorks
  {
  }

  /** "Applied" written in capitals, as the page usually shows it, is found. */
  lemma CapitalisedAppliedIsFound(pre: string, post: string)
    ensures LooksApplied(pre + "APPLIED" + post) && LooksApplied(pre + "Applied" + post)
  {
    var s1 := pre + "APPLIED" + post;
    var s2 := pre + "Applied" + post;
    assert TranslateApplied(s1)[|pre|..|pre| + 7] == "applied";
    assert OccursAt(TranslateApplied(s1), "applied", |pre|);
    assert TranslateApplied(s2)[|pre|..|pre| + 7] == "applied";
    assert OccursAt(TranslateApplied(s2), "applied", |pre|);
  }

  /** The body of the loop for one card: which branch it takes. */
  method VisitCard(card: JobCard) returns (outcome: CardOutcome)
    ensures outcome == Classify(card)
  {
    if !card.opens {
      return Crashed;
    }
    if !card.pageLoads {
      return PageNotLoaded;
    }
    if !card.applyButton {
      return NoApplyButton;
    }
    if LooksApplied(card.pageText) {
      return AlreadyApplied;
    }
    if !card.applyClickWorks {
      return ApplyClickFailed;
    }
    return ApplyClicked;
  }

  /** The branches taken by the first `n` cards, in order. */
  function CardLog(cards: seq<JobCard>, n: nat): (log: seq<CardOutcome>)
    requires n <= |cards|
    ensures |log| == n
    ensures forall i :: 0 <= i < n ==> log[i] == Classify(cards[i])
  {
    seq(n, i requires 0 <= i < n => Classify(cards[i]))
  }

  /** One more card adds its branch at the end of the log. */
  lemma CardLogStep(cards: seq<JobCard>, n: nat)
    requires n < |cards|
    ensures CardLog(cards, n + 1) == CardLog(cards, n) + [Classify(cards[n])]
  {
  }

  /** Which cards would count as an application, card by card. */
  function Successes(cards: seq<JobCard>): (oks: seq<bool>)
    ensures |oks| == |cards|
    ensures forall i :: 0 <= i < |cards| ==> oks[i] == (Classify(cards[i]) == ApplyClicked)
  {
    seq(|cards|, i requires 0 <= i < |cards| => Classify(cards[i]) == ApplyClicked)
  }

  /**
   * The loop of `apply_jobs`. Before each card it checks `applied < max_jobs`, then stops when
   * `idx` reaches the number of cards; every card is attempted once, in order, and only
   * `ApplyClicked` raises the count.
   */
  method WalkCards(cards: seq<JobCard>, maxJobs: int)
    returns (applied: nat, attempted: nat, outcomes: seq<CardOutcome>)
    ensures CappedRun(Successes(cards), maxJobs, attempted)
    ensures applied == CountTrue(Successes(cards)[..attempted])
    ensures applied <= CapOf(maxJobs)
    ensures attempted <= |cards| && outcomes == CardLog(cards, attempted)
  {
    applied, outcomes := 0, [];
    ghost var oks := Successes(cards);
    var idx := 0;
    while applied < maxJobs
      invariant idx <= |cards|
      invariant applied == CountTrue(oks[..idx])
      invariant forall k :: 0 <= k < idx ==> CountTrue(oks[..k]) < maxJobs
      invariant outcomes == CardLog(cards, idx)
      decreases |cards| - idx
    {
      if idx >= |cards| {
        break;
      }
      var outcome := VisitCard(cards[idx]);
      assert oks[idx] == (outcome == ApplyClicked);
      CountTruePrefix(oks, idx);
      CardLogStep(cards, idx);
      outcomes := outcomes + [outcome];
      if outcome == ApplyClicked {
        applied := applied + 1;
      }
      idx := idx + 1;
    }
    attempted := idx;
    CappedRunBound(oks, maxJobs, attempted);
  }

  /** `apply_jobs`: when no card appears within the first wait, nothing is done; otherwise the
      cards are walked as above. */
  method ApplyJobs(cardsAppear: bool, cards: seq<JobCard>, maxJobs: int)
    returns (applied: nat, attempted: nat, outcomes: seq<CardOutcome>)
    ensures !cardsAppear ==> applied == 0 && attempted == 0 && outcomes == []
    ensures cardsAppear ==> CappedRun(Successes(cards), maxJobs, attempted)
    ensures applied == CountTrue(Successes(cards)[..attempted])
    ensures applied <= CapOf(maxJobs)
    ensures attempted <= |cards| && outcomes == CardLog(cards, attempted)
  {
    if !cardsAppear {
      applied, attempted, outcomes := 0, 0, [];
      assert Successes(cards)[..0] == [];
      return;
    }
    applied, attempted, outcomes := WalkCards(cards, maxJobs);
  }
}
