/**
 * The search-and-apply loop of job_update.py's `main`: up to four result pages, each read for
 * job links that were not seen before (one `visited` set across all pages), every new link
 * opened and judged by `is_relevant_job`, and Apply clicked on the relevant ones unless
 * `DRY_RUN` is set.
 *
 * The browser is replaced by data: the result pages in the order the Next link leads through
 * them (a page has a Next link exactly when another page follows it), for every link the job
 * page it opens, and for every link whether tidying up its tab raises. Two exceptions are not
 * caught inside the loop: reading an `href`, and the tab clean-up in the per-job `except`
 * handler. Either one leaves `main` through its `finally`, so the run ends without the final
 * counts.
 */
module JobSearch {
  import opened Wrappers
  import opened Text
  import opened Locator
  import opened Links
  import opened Relevance

  const MaxPages: nat := 4

  /** The two Apply locators, tried in order. */
  const ApplyXPaths: seq<XPath> := ["//button[contains(.,'Apply')]", "//a[contains(.,'Apply')]"]

  /** What Naukri shows after a failed application. */
  const ProcessingError: string := "error while processing"

  /** One Apply locator: finding, clicking or reading the page afterwards raised, or the click
      went through and the page then read `afterText`. */
  datatype ApplyAttempt = AttemptRaised | Clicked(afterText: string)

  /** A job page opened from a link: opening or reading it raised, or its body text and how each
      Apply locator behaves on it. */
  datatype JobPage = Unreachable | Opened(body: string, attempt: XPath -> ApplyAttempt)

  /** Reading the `href` attribute of one job link element: it raised, or it gave this value. */
  datatype LinkElem = HrefRaised | HrefRead(href: Option<string>)

  /** The job link elements of one result page, in document order. */
  type ResultPage = seq<LinkElem>

  /** Every `href` of the page can be read. */
  predicate Readable(page: ResultPage) {
    forall j :: 0 <= j < |page| ==> page[j].HrefRead?
  }

  predicate AllReadable(pages: seq<ResultPage>) {
    forall q :: 0 <= q < |pages| ==> Readable(pages[q])
  }

  /** The `href` values of a page; an element whose read raised stands as None. */
  function Hrefs(page: ResultPage): (r: seq<Option<string>>)
    ensures |r| == |page|
    ensures forall j :: 0 <= j < |page| && page[j].HrefRead? ==> r[j] == page[j].href
  {
    seq(|page|, j requires 0 <= j < |page| => if page[j].HrefRead? then page[j].href else None)
  }

  /** job_update.py queues every link it has not seen (its XPath already selects job links). */
  predicate AnyLink(href: string) {
    true
  }

  function AfterClick(a: ApplyAttempt): Option<string> {
    match a
    case AttemptRaised => None
    case Clicked(t) => Some(t)
  }

  /** `applied_here`: the first locator whose click went through decides, and it counts unless
      the page then reports a processing error. */
  function AppliedHere(attempt: XPath -> ApplyAttempt): bool {
    match Resolve(xp => AfterClick(attempt(xp)), ApplyXPaths)
    case None => false
    case Some(hit) => !Contains(Lower(hit.elem), ProcessingError)
  }

  /** Whether visiting a link ends in an application. */
  predicate JobApplied(page: JobPage, dryRun: bool) {
    page.Opened? && Judge(page.body) == Accepted && !dryRun && AppliedHere(page.attempt)
  }

  /** The inner `for xpath in [...]` loop: stop at the first locator whose click goes through. */
  method TryApply(attempt: XPath -> ApplyAttempt) returns (appliedHere: bool)
    ensures appliedHere == AppliedHere(attempt)
    ensures appliedHere ==> exists i :: 0 <= i < |ApplyXPaths| && attempt(ApplyXPaths[i]).Clicked?
  {
    var hit := FirstHit(xp => AfterClick(attempt(xp)), ApplyXPaths);
    if hit.None? {
      return false;
    }
    var afterText := Lower(hit.value.elem);
    appliedHere := !Contains(afterText, ProcessingError);
    if appliedHere {
      var i := hit.value.strategy;
      assert attempt(ApplyXPaths[i]).Clicked?;
    }
  }

  /** One queued link: open it, judge it, and apply unless it is irrelevant or this is a dry run. */
  method VisitJob(page: JobPage, dryRun: bool) returns (applied: bool)
    ensures applied == JobApplied(page, dryRun)
  {
    if page.Unreachable? {
      return false;
    }
    var relevant := IsRelevantJob(page.body);
    if !relevant || dryRun {
      return false;
    }
    applied := TryApply(page.attempt);
  }

  function Flatten(pages: seq<ResultPage>): seq<Option<string>> {
    if pages == [] then [] else Flatten(pages[..|pages| - 1]) + Hrefs(pages[|pages| - 1])
  }

  /** The links read from the first pages are read again, in front, from more pages. */
  lemma {:induction false} FlattenPrefix(pages: seq<ResultPage>, a: nat, b: nat)
    requires a <= b <= |pages|
    ensures Flatten(pages[..a]) <= Flatten(pages[..b])
    decreases b
  {
    if a < b {
      FlattenPrefix(pages, a, b - 1);
      assert pages[..b][..b - 1] == pages[..b - 1];
    }
  }

  /** None of these links makes its visit raise past the per-job handler. */
  predicate NoneEscapes(escapes: string -> bool, hrefs: seq<string>) {
    hrefs == [] || (NoneEscapes(escapes, hrefs[..|hrefs| - 1]) && !escapes(hrefs[|hrefs| - 1]))
  }

  lemma {:induction false} NoneEscapesMembers(escapes: string -> bool, hrefs: seq<string>)
    ensures NoneEscapes(escapes, hrefs) <==> forall h :: h in hrefs ==> !escapes(h)
  {
    if hrefs != [] {
      var init := hrefs[..|hrefs| - 1];
      NoneEscapesMembers(escapes, init);
      assert hrefs == init + [hrefs[|hrefs| - 1]];
    }
  }

  /** How many of the queued links end in an application. */
  function CountApplied(site: string -> JobPage, dryRun: bool, hrefs: seq<string>): (n: nat)
    ensures n <= |hrefs|
  {
    if hrefs == [] then 0
    else CountApplied(site, dryRun, hrefs[..|hrefs| - 1])
         + (if JobApplied(site(hrefs[|hrefs| - 1]), dryRun) then 1 else 0)
  }

  /** A dry run applies to nothing. */
  lemma {:induction false} DryRunAppliesNothing(site: string -> JobPage, hrefs: seq<string>)
    ensures CountApplied(site, true, hrefs) == 0
  {
    if hrefs != [] {
      DryRunAppliesNothing(site, hrefs[..|hrefs| - 1]);
    }
  }

  function Min(a: nat, b: nat): nat {
    if a <= b then a else b
  }

  lemma {:induction false} CountAppliedAppend(site: string -> JobPage, dryRun: bool, a: seq<string>, b: seq<string>)
    ensures CountApplied(site, dryRun, a + b) == CountApplied(site, dryRun, a) + CountApplied(site, dryRun, b)
    decreases |b|
  {
    if b == [] {
      assert a + b == a;
    } else {
      var init := b[..|b| - 1];
      assert (a + b)[..|a + b| - 1] == a + init;
      assert (a + b)[|a + b| - 1] == b[|b| - 1];
      CountAppliedAppend(site, dryRun, a, init);
    }
  }

  /** The body of the first inner loop for one `href` that could be read. */
  method QueueIfNew(ghost read: seq<Option<string>>, href: Option<string>, visited: set<string>,
                    queued: seq<string>, jobHrefs: seq<string>)
    returns (jobHrefsAfter: seq<string>, visitedAfter: set<string>)
    requires queued + jobHrefs == KeepNew(AnyLink, read) && visited == set h | h in queued + jobHrefs
    ensures queued + jobHrefsAfter == KeepNew(AnyLink, read + [href])
    ensures visitedAfter == set h | h in queued + jobHrefsAfter
  {
    assert (read + [href])[..|read|] == read;
    jobHrefsAfter, visitedAfter := jobHrefs, visited;
    if href.Some? && href.value != "" && href.value !in visited {
      visitedAfter := visited + {href.value};
      jobHrefsAfter := jobHrefs + [href.value];
    }
  }

  /**
   * The first inner loop: `if href and href not in visited: visited.add(href); job_hrefs.append(href)`.
   * Together with the links already queued, the new ones are what ordered de-duplication of
   * everything read so far keeps. A read that raises is not caught inside `main`'s loop, so it
   * ends the run: `ok` is false exactly then.
   */
  method QueueNewLinks(ghost seen: seq<Option<string>>, page: ResultPage, visited: set<string>, queued: seq<string>)
    returns (ok: bool, jobHrefs: seq<string>, visitedAfter: set<string>)
    requires queued == KeepNew(AnyLink, seen) && visited == set h | h in queued
    ensures ok <==> Readable(page)
    ensures ok ==> queued + jobHrefs == KeepNew(AnyLink, seen + Hrefs(page))
    ensures ok ==> visitedAfter == set h | h in queued + jobHrefs
  {
    jobHrefs, visitedAfter := [], visited;
    ghost var hrefs := Hrefs(page);
    assert seen + hrefs[..0] == seen;
    for j := 0 to |page|
      invariant forall k :: 0 <= k < j ==> page[k].HrefRead?
      invariant queued + jobHrefs == KeepNew(AnyLink, seen + hrefs[..j])
      invariant visitedAfter == set h | h in queued + jobHrefs
    {
      if page[j].HrefRaised? {
        return false, jobHrefs, visitedAfter;
      }
      assert seen + hrefs[..j + 1] == (seen + hrefs[..j]) + [page[j].href];
      jobHrefs, visitedAfter := QueueIfNew(seen + hrefs[..j], page[j].href, visitedAfter, queued, jobHrefs);
    }
    assert hrefs[..|page|] == hrefs;
    ok := true;
  }

  /**
   * The second inner loop: every queued link of the page is checked, and counted as applied when
   * visiting it ends in an application. `escapes(href)` says that tidying up after that visit
   * (`driver.close()` and `switch_to.window` in the `except` handler) raises, which nothing in
   * the loop catches; then the loop stops there with `escaped` set.
   */
  method CheckLinks(jobHrefs: seq<string>, site: string -> JobPage, escapes: string -> bool, dryRun: bool)
    returns (escaped: bool, checked: nat, applied: nat)
    ensures escaped <==> !NoneEscapes(escapes, jobHrefs)
    ensures !escaped ==> checked == |jobHrefs|
    ensures !escaped ==> applied == CountApplied(site, dryRun, jobHrefs)
    ensures escaped ==> 1 <= checked <= |jobHrefs| && escapes(jobHrefs[checked - 1])
                        && NoneEscapes(escapes, jobHrefs[..checked - 1])
  {
    checked, applied := 0, 0;
    for j := 0 to |jobHrefs|
      invariant checked == j
      invariant applied == CountApplied(site, dryRun, jobHrefs[..j])
      invariant NoneEscapes(escapes, jobHrefs[..j])
    {
      checked := checked + 1;
      var ok := VisitJob(site(jobHrefs[j]), dryRun);
      assert jobHrefs[..j + 1][..j] == jobHrefs[..j];
      if ok {
        applied := applied + 1;
      }
      if escapes(jobHrefs[j]) {
        NoneEscapesMembers(escapes, jobHrefs);
        return true, checked, applied;
      }
    }
    assert jobHrefs[..|jobHrefs|] == jobHrefs;
    escaped := false;
  }

  /** How the page loop ends: with its final counts printed, or by an exception that leaves `main`
      on the given page before anything is printed. */
  datatype RunOutcome =
    | Done(pagesVisited: nat, queued: seq<string>, checked: nat, applied: nat)
    | Aborted(page: nat)

  lemma NoneEscapesAppend(escapes: string -> bool, a: seq<string>, b: seq<string>)
    ensures NoneEscapes(escapes, a + b) <==> NoneEscapes(escapes, a) && NoneEscapes(escapes, b)
  {
    NoneEscapesMembers(escapes, a);
    NoneEscapesMembers(escapes, b);
    NoneEscapesMembers(escapes, a + b);
  }

  lemma AllReadableExtend(pages: seq<ResultPage>, p: nat)
    requires p < |pages| && AllReadable(pages[..p]) && Readable(pages[p])
    ensures AllReadable(pages[..p + 1])
  {
    var init := pages[..p + 1];
    forall q | 0 <= q < |init|
      ensures Readable(init[q])
    {
      if q < p {
        assert init[q] == pages[..p][q];
      }
    }
  }

  /** An abort on page `p` of the first `n` means the run could not have finished. */
  lemma AbortedIsNotDone(pages: seq<ResultPage>, escapes: string -> bool, p: nat, n: nat)
    requires p < n <= |pages|
    requires !Readable(pages[p]) || !NoneEscapes(escapes, KeepNew(AnyLink, Flatten(pages[..p + 1])))
    ensures !(AllReadable(pages[..n]) && NoneEscapes(escapes, KeepNew(AnyLink, Flatten(pages[..n]))))
  {
    if !Readable(pages[p]) {
      assert pages[..n][p] == pages[p];
    } else {
      var q := KeepNew(AnyLink, Flatten(pages[..p + 1]));
      NoneEscapesMembers(escapes, q);
      var h :| h in q && escapes(h);
      KeepNewMembers(AnyLink, Flatten(pages[..p + 1]), h);
      FlattenPrefix(pages, p + 1, n);
      KeepNewMembers(AnyLink, Flatten(pages[..n]), h);
      NoneEscapesMembers(escapes, KeepNew(AnyLink, Flatten(pages[..n])));
    }
  }

  lemma FlattenStep(pages: seq<ResultPage>, p: nat)
    requires p < |pages|
    ensures Flatten(pages[..p + 1]) == Flatten(pages[..p]) + Hrefs(pages[p])
  {
    assert pages[..p + 1][..p] == pages[..p];
  }

  /** What the links queued from everything read satisfy. */
  lemma QueuedLinks(read: seq<Option<string>>, site: string -> JobPage, dryRun: bool)
    ensures var queued := KeepNew(AnyLink, read);
            && NoDuplicates(queued)
            && (forall h :: h in queued <==> h != "" && Some(h) in read)
            && (dryRun ==> CountApplied(site, dryRun, queued) == 0)
  {
    var queued := KeepNew(AnyLink, read);
    KeepNewNoDuplicates(AnyLink, read);
    forall h {
      KeepNewMembers(AnyLink, read, h);
    }
    if dryRun {
      DryRunAppliesNothing(site, queued);
    }
  }

  /** A page that ends without an exception extends what the loop keeps about the pages before it. */
  lemma PageCompleted(pages: seq<ResultPage>, site: string -> JobPage, escapes: string -> bool, dryRun: bool,
                      p: nat, queued: seq<string>, jobHrefs: seq<string>)
    requires p < |pages| && AllReadable(pages[..p]) && Readable(pages[p])
    requires queued == KeepNew(AnyLink, Flatten(pages[..p])) && NoneEscapes(escapes, queued)
    requires queued + jobHrefs == KeepNew(AnyLink, Flatten(pages[..p]) + Hrefs(pages[p]))
    requires NoneEscapes(escapes, jobHrefs)
    ensures AllReadable(pages[..p + 1])
    ensures queued + jobHrefs == KeepNew(AnyLink, Flatten(pages[..p + 1]))
    ensures NoneEscapes(escapes, queued + jobHrefs)
    ensures CountApplied(site, dryRun, queued + jobHrefs)
            == CountApplied(site, dryRun, queued) + CountApplied(site, dryRun, jobHrefs)
  {
    FlattenStep(pages, p);
    NoneEscapesAppend(escapes, queued, jobHrefs);
    CountAppliedAppend(site, dryRun, queued, jobHrefs);
    AllReadableExtend(pages, p);
  }

  /** What an exception on page `p` leaves: the links queued up to that page include one whose
      visit escaped, unless the page itself could not be read; and the run cannot finish. */
  lemma AbortOnPage(pages: seq<ResultPage>, escapes: string -> bool, p: nat, queued: seq<string>, jobHrefs: seq<string>)
    requires p < Min(|pages|, MaxPages)
    requires queued == KeepNew(AnyLink, Flatten(pages[..p]))
    requires Readable(pages[p]) ==> queued + jobHrefs == KeepNew(AnyLink, Flatten(pages[..p]) + Hrefs(pages[p]))
    requires !Readable(pages[p]) || !NoneEscapes(escapes, jobHrefs)
    ensures Readable(pages[p]) ==> !NoneEscapes(escapes, KeepNew(AnyLink, Flatten(pages[..p + 1])))
    ensures var n := Min(|pages|, MaxPages);
            !(AllReadable(pages[..n]) && NoneEscapes(escapes, KeepNew(AnyLink, Flatten(pages[..n]))))
  {
    FlattenStep(pages, p);
    NoneEscapesAppend(escapes, queued, jobHrefs);
    AbortedIsNotDone(pages, escapes, p, Min(|pages|, MaxPages));
  }

  /** One page of the loop: queue its new links, then check them. `stop` says that an exception
      ended the run on this page. */
  method VisitPage(ghost seen: seq<Option<string>>, page: ResultPage, site: string -> JobPage,
                   escapes: string -> bool, dryRun: bool, visited: set<string>, queued: seq<string>)
    returns (stop: bool, jobHrefs: seq<string>, visitedAfter: set<string>, checked: nat, applied: nat)
    requires queued == KeepNew(AnyLink, seen) && visited == set h | h in queued
    ensures Readable(page) ==> queued + jobHrefs == KeepNew(AnyLink, seen + Hrefs(page))
    ensures stop <==> !Readable(page) || !NoneEscapes(escapes, jobHrefs)
    ensures !stop ==> visitedAfter == set h | h in queued + jobHrefs
    ensures !stop ==> checked == |jobHrefs| && applied == CountApplied(site, dryRun, jobHrefs)
  {
    var ok;
    ok, jobHrefs, visitedAfter := QueueNewLinks(seen, page, visited, queued);
    if !ok {
      return true, jobHrefs, visitedAfter, 0, 0;
    }
    stop, checked, applied := CheckLinks(jobHrefs, site, escapes, dryRun);
  }

  /**
   * The whole loop. When nothing raises, it visits the first `min(len(pages), 4)` pages, queues
   * each link the first time it is seen (never twice, across pages), counts every queued link as
   * checked and every successful application as applied. An `href` read that raises, or a tab
   * clean-up that raises past the per-job handler, ends it on that page with no counts.
   */
  method Run(pages: seq<ResultPage>, site: string -> JobPage, escapes: string -> bool, dryRun: bool)
    returns (outcome: RunOutcome)
    ensures var n := Min(|pages|, MaxPages);
            outcome.Done? <==>
              AllReadable(pages[..n]) && NoneEscapes(escapes, KeepNew(AnyLink, Flatten(pages[..n])))
    ensures outcome.Done? ==>
              && outcome.pagesVisited == Min(|pages|, MaxPages)
              && outcome.queued == KeepNew(AnyLink, Flatten(pages[..outcome.pagesVisited]))
              && NoDuplicates(outcome.queued)
              && (forall h :: h in outcome.queued <==>
                    h != "" && Some(h) in Flatten(pages[..outcome.pagesVisited]))
              && outcome.checked == |outcome.queued|
              && outcome.applied == CountApplied(site, dryRun, outcome.queued)
              && outcome.applied <= outcome.checked
              && (dryRun ==> outcome.applied == 0)
    ensures outcome.Aborted? ==>
              var p := outcome.page;
              && p < Min(|pages|, MaxPages)
              && AllReadable(pages[..p])
              && NoneEscapes(escapes, KeepNew(AnyLink, Flatten(pages[..p])))
              && (Readable(pages[p]) ==> !NoneEscapes(escapes, KeepNew(AnyLink, Flatten(pages[..p + 1]))))
  {
    var visited: set<string> := {};
    var queued: seq<string> := [];
    var checked, applied := 0, 0;
    var p := 0;
    while p < MaxPages
      invariant p <= Min(|pages|, MaxPages)
      invariant AllReadable(pages[..p])
      invariant queued == KeepNew(AnyLink, Flatten(pages[..p]))
      invariant NoneEscapes(escapes, queued)
      invariant visited == set h | h in queued
      invariant checked == |queued|
      invariant applied == CountApplied(site, dryRun, queued)
      decreases MaxPages - p
    {
      if p == |pages| {
        break;
      }
      var stop, jobHrefs, pageChecked, pageApplied;
      stop, jobHrefs, visited, pageChecked, pageApplied :=
        VisitPage(Flatten(pages[..p]), pages[p], site, escapes, dryRun, visited, queued);
      if stop {
        AbortOnPage(pages, escapes, p, queued, jobHrefs);
        return Aborted(p);
      }
      PageCompleted(pages, site, escapes, dryRun, p, queued, jobHrefs);
      queued := queued + jobHrefs;
      checked := checked + pageChecked;
      applied := applied + pageApplied;
      p := p + 1;
    }
    assert p == Min(|pages|, MaxPages);
    assert pages[..p] == pages[..Min(|pages|, MaxPages)];
    QueuedLinks(Flatten(pages[..p]), site, dryRun);
    return Done(p, queued, checked, applied);
  }
}
