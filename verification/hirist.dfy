/**
 * job_hirish.py: apply to jobs on Hirist. Job links are collected from the listing page
 * (`collect_job_links`), each one is opened and its Apply button looked for through three
 * locators (`apply_on_job_page`), and at most `HIRIST_MAX_JOBS_PER_RUN` applications are made
 * (`auto_apply_hirist`). Before that, `click_jobseeker_login` opens the login form and
 * `locate_login_fields_and_submit` fills and submits it; only their outcome logic is modelled.
 */
module Hirist {
  import opened Wrappers
  import opened Text
  import opened Locator
  import opened Links
  import opened Caps

  // ---------------------------------------------------------------------------------------
  // collect_job_links
  // ---------------------------------------------------------------------------------------

  /** Reading the `href` attribute of one anchor: its value (None when absent), or it raised. */
  datatype HrefRead = Read(href: Option<string>) | ReadFailed

  /** The filter of `collect_job_links`: a Hirist address that is not a login page. */
  predicate HiristJobLink(href: string) {
    Contains(href, "hirist.tech") && !Contains(href, "login")
  }

  predicate AllRead(anchorReads: seq<HrefRead>) {
    forall i :: 0 <= i < |anchorReads| ==> anchorReads[i].Read?
  }

  function Hrefs(anchorReads: seq<HrefRead>): (hs: seq<Option<string>>)
    requires AllRead(anchorReads)
    ensures |hs| == |anchorReads|
    ensures forall i :: 0 <= i < |anchorReads| ==> hs[i] == anchorReads[i].href
  {
    seq(|anchorReads|, i requires 0 <= i < |anchorReads| => anchorReads[i].href)
  }

  /** The links `collect_job_links` returns: none when the anchor lookup or any attribute read
      raised, and otherwise the ordered de-duplication of the Hirist job links read. */
  function CollectedLinks(anchors: Option<seq<HrefRead>>): seq<string> {
    if anchors.None? || !AllRead(anchors.value) then []
    else KeepNew(HiristJobLink, Hrefs(anchors.value))
  }

  /** `collect_job_links`: `for a in anchors: href = a.get_attribute("href"); if ...: hrefs.append(href)`. */
  method CollectJobLinks(anchors: Option<seq<HrefRead>>) returns (hrefs: seq<string>)
    ensures hrefs == CollectedLinks(anchors)
    ensures NoDuplicates(hrefs)
    ensures forall h :: h in hrefs ==> h != "" && Contains(h, "hirist.tech") && !Contains(h, "login")
  {
    if anchors.None? {
      return [];
    }
    var anchorReads := anchors.value;
    hrefs := [];
    for i := 0 to |anchorReads|
      invariant AllRead(anchorReads[..i])
      invariant hrefs == KeepNew(HiristJobLink, Hrefs(anchorReads[..i]))
    {
      match anchorReads[i]
      case ReadFailed =>
        assert !AllRead(anchorReads);
        return [];
      case Read(href) =>
        assert AllRead(anchorReads[..i + 1]);
        assert Hrefs(anchorReads[..i + 1])[..i] == Hrefs(anchorReads[..i]);
        if href.Some? && href.value != "" && HiristJobLink(href.value) && href.value !in hrefs {
          hrefs := hrefs + [href.value];
        }
    }
    assert anchorReads[..|anchorReads|] == anchorReads;
    KeepNewNoDuplicates(HiristJobLink, Hrefs(anchorReads));
    forall h | h in hrefs ensures h != "" && HiristJobLink(h) {
      KeepNewMembers(HiristJobLink, Hrefs(anchorReads), h);
    }
  }

  // ---------------------------------------------------------------------------------------
  // apply_on_job_page
  // ---------------------------------------------------------------------------------------

  const ApplyXPaths: seq<XPath> := [
    "//button[contains(.,'Apply') or contains(.,'APPLY')]",
    "//a[contains(.,'Apply') or contains(@href,'apply')]",
    "//button[contains(@class,'apply') or contains(@id,'apply')]"
  ]

  /** One Apply locator on a job page: not found, found but scrolling or clicking raised, or
      clicked. */
  datatype ApplyProbe = NoSuchElement | ClickRaised | ApplyClicked

  /** A job page: opening it raised, or how each Apply locator behaves on it. */
  datatype HiristJob = Unreachable | Loaded(probe: XPath -> ApplyProbe)

  function Clicks(p: ApplyProbe): Option<()> {
    if p == ApplyClicked then Some(()) else None
  }

  /**
   * `apply_on_job_page`: the locators are tried in order; a missing element and a failing click
   * both move on to the next one, and the first click that goes through returns True.
   */
  method ApplyOnJobPage(probe: XPath -> ApplyProbe) returns (ok: bool, strategy: Option<nat>)
    ensures ok <==> exists i :: 0 <= i < |ApplyXPaths| && probe(ApplyXPaths[i]) == ApplyClicked
    ensures ok <==> strategy.Some?
    ensures strategy.Some? ==> strategy.value < |ApplyXPaths|
                               && probe(ApplyXPaths[strategy.value]) == ApplyClicked
                               && forall j :: 0 <= j < strategy.value ==> probe(ApplyXPaths[j]) != ApplyClicked
  {
    var hit := FirstHit(xp => Clicks(probe(xp)), ApplyXPaths);
    ok := hit.Some?;
    strategy := if hit.Some? then Some(hit.value.strategy) else None;
    if !ok {
      assert forall j :: 0 <= j < |ApplyXPaths| ==> Clicks(probe(ApplyXPaths[j])).None?;
    }
  }

  /** Whether visiting a job ends in a click on Apply. */
  predicate AppliedTo(job: HiristJob) {
    job.Loaded? && exists i :: 0 <= i < |ApplyXPaths| && job.probe(ApplyXPaths[i]) == ApplyClicked
  }

  // ---------------------------------------------------------------------------------------
  // auto_apply_hirist
  // ---------------------------------------------------------------------------------------

  function Outcomes(site: string -> HiristJob, links: seq<string>): (oks: seq<bool>)
    ensures |oks| == |links|
    ensures forall i :: 0 <= i < |links| ==> oks[i] == AppliedTo(site(links[i]))
  {
    seq(|links|, i requires 0 <= i < |links| => AppliedTo(site(links[i])))
  }

  /** Visiting one job: opening it raised (skipped), or `apply_on_job_page` on it. */
  method VisitJob(job: HiristJob) returns (ok: bool)
    ensures ok == AppliedTo(job)
  {
    ok := false;
    if job.Loaded? {
      var strategy;
      ok, strategy := ApplyOnJobPage(job.probe);
    }
  }

  /** The loop of `auto_apply_hirist`: the links in order, the cap checked before each one. */
  method ApplyToLinks(links: seq<string>, site: string -> HiristJob, maxJobs: int)
    returns (visited: nat, applied: nat)
    ensures CappedRun(Outcomes(site, links), maxJobs, visited)
    ensures applied == CountTrue(Outcomes(site, links)[..visited])
    ensures applied <= CapOf(maxJobs)
  {
    visited, applied := 0, 0;
    ghost var oks := Outcomes(site, links);
    while visited < |links|
      invariant visited <= |links|
      invariant applied == CountTrue(oks[..visited])
      invariant forall k :: 0 <= k < visited ==> CountTrue(oks[..k]) < maxJobs
      decreases |links| - visited
    {
      if applied >= maxJobs {
        break;
      }
      var ok := VisitJob(site(links[visited]));
      CountTruePrefix(oks, visited);
      if ok {
        applied := applied + 1;
      }
      visited := visited + 1;
    }
    CappedRunBound(oks, maxJobs, visited);
  }

  /** `auto_apply_hirist`: collect the links, return at once when there are none, and otherwise
      apply through them up to the cap; a job that raises is skipped. */
  method AutoApplyHirist(anchors: Option<seq<HrefRead>>, site: string -> HiristJob, maxJobs: int)
    returns (links: seq<string>, visited: nat, applied: nat)
    ensures links == CollectedLinks(anchors)
    ensures links == [] ==> visited == 0 && applied == 0
    ensures CappedRun(Outcomes(site, links), maxJobs, visited)
    ensures applied == CountTrue(Outcomes(site, links)[..visited])
    ensures applied <= CapOf(maxJobs)
  {
    links := CollectJobLinks(anchors);
    if links == [] {
      visited, applied := 0, 0;
      assert Outcomes(site, links)[..0] == [];
      return;
    }
    visited, applied := ApplyToLinks(links, site, maxJobs);
  }

  // ---------------------------------------------------------------------------------------
  // click_jobseeker_login
  // ---------------------------------------------------------------------------------------

  /** The texts the fallback looks for, in order. */
  const LoginTexts: seq<string> := ["Jobseeker Login", "Login", "Sign in"]

  /** Which element was clicked: the primary button, or element `element` of those containing
      `LoginTexts[text]`. */
  datatype LoginClick = PrimaryButton | ByText(text: nat, element: nat)

  /** The first element whose click went through. */
  function FirstClick(clicks: seq<bool>): (r: Option<nat>)
    ensures r.Some? ==> r.value < |clicks| && clicks[r.value]
                        && forall j :: 0 <= j < r.value ==> !clicks[j]
    ensures r.None? <==> forall j :: 0 <= j < |clicks| ==> !clicks[j]
  {
    if clicks == [] then None
    else if clicks[0] then Some(0)
    else match FirstClick(clicks[1..])
      case None => None
      case Some(j) => Some(j + 1)
  }

  /**
   * The text fallback from text `t` on: for each text the elements containing it are looked up
   * (None: the lookup raised, which ends the whole fallback) and clicked in turn.
   */
  function FallbackFrom(found: string -> Option<seq<bool>>, t: nat): Option<LoginClick>
    requires t <= |LoginTexts|
    decreases |LoginTexts| - t
  {
    if t == |LoginTexts| then None
    else match found(LoginTexts[t])
      case None => None
      case Some(clicks) =>
        match FirstClick(clicks)
        case Some(e) => Some(ByText(t, e))
        case None => FallbackFrom(found, t + 1)
  }

  /** The fallback clicks element `e` for text `t` exactly when every earlier text was looked up
      without error and had no clickable element, and `e` is the first clickable one for `t`. */
  lemma {:induction false} FallbackFromChoice(found: string -> Option<seq<bool>>, t0: nat, t: nat, e: nat)
    requires t0 <= t < |LoginTexts|
    ensures FallbackFrom(found, t0) == Some(ByText(t, e)) <==>
              && (forall u :: t0 <= u < t ==>
                    found(LoginTexts[u]).Some? && FirstClick(found(LoginTexts[u]).value).None?)
              && found(LoginTexts[t]).Some?
              && FirstClick(found(LoginTexts[t]).value) == Some(e)
    decreases t - t0
  {
    if t0 < t {
      FallbackFromChoice(found, t0 + 1, t, e);
    }
  }

  /** `click_jobseeker_login`: the primary locator first; when it times out or raises, the texts
      in order, and within a text the elements in order. */
  method ClickJobseekerLogin(primaryClicks: bool, found: string -> Option<seq<bool>>)
    returns (ok: bool, clicked: Option<LoginClick>)
    ensures primaryClicks ==> clicked == Some(PrimaryButton)
    ensures !primaryClicks ==> clicked == FallbackFrom(found, 0)
    ensures ok <==> clicked.Some?
  {
    if primaryClicks {
      return true, Some(PrimaryButton);
    }
    for t := 0 to |LoginTexts|
      invariant FallbackFrom(found, 0) == FallbackFrom(found, t)
    {
      var elems := found(LoginTexts[t]);
      if elems.None? {
        return false, None;
      }
      var clicks := elems.value;
      for e := 0 to |clicks|
        invariant forall j :: 0 <= j < e ==> !clicks[j]
      {
        if clicks[e] {
          assert FirstClick(clicks) == Some(e);
          return true, Some(ByText(t, e));
        }
      }
    }
    return false, None;
  }

  // ---------------------------------------------------------------------------------------
  // locate_login_fields_and_submit
  // ---------------------------------------------------------------------------------------

  /** One element lookup: found, not found (`TimeoutException` / `NoSuchElementException`), or
      any other exception. */
  datatype Lookup = Present | Absent | Broken

  /** What the login form offers: the email and password inputs, whether typing into them works,
      and the submit candidates (None: the lookup raised; otherwise whether each click works). */
  datatype LoginForm = LoginForm(email: Lookup, password: Lookup, typingWorks: bool, buttons: Option<seq<bool>>)

  datatype LoginOutcome =
    | Submitted
    | FieldsMissing       // the email input never appeared
    | PasswordMissing     // OTP-only or stepwise login
    | NoLoginButton
    | ButtonClickFailed   // no candidate could be clicked
    | Unexpected          // any other exception

  function LoginOutcomeOf(form: LoginForm): LoginOutcome {
    if form.email == Absent then FieldsMissing
    else if form.email == Broken then Unexpected
    else if form.password == Absent then PasswordMissing
    else if form.password == Broken || !form.typingWorks || form.buttons.None? then Unexpected
    else if form.buttons.value == [] then NoLoginButton
    else if FirstClick(form.buttons.value).None? then ButtonClickFailed
    else Submitted
  }

  /** The login is submitted exactly when both inputs are there, typing works and some candidate
      button can be clicked; every other case returns False. */
  lemma SubmittedIff(form: LoginForm)
    ensures LoginOutcomeOf(form) == Submitted <==>
              && form.email == Present && form.password == Present && form.typingWorks
              && form.buttons.Some?
              && exists i :: 0 <= i < |form.buttons.value| && form.buttons.value[i]
  {
  }

  /** `locate_login_fields_and_submit`. `typed` says whether the credentials were typed in, which
      happens only once both inputs were found. */
  method LocateLoginFieldsAndSubmit(form: LoginForm) returns (ok: bool, outcome: LoginOutcome, typed: bool)
    ensures outcome == LoginOutcomeOf(form)
    ensures ok <==> outcome == Submitted
    ensures typed <==> form.email == Present && form.password == Present
  {
    typed := false;
    if form.email == Absent {
      return false, FieldsMissing, typed;
    }
    if form.email == Broken {
      return false, Unexpected, typed;
    }
    if form.password == Absent {
      return false, PasswordMissing, typed;
    }
    if form.password == Broken {
      return false, Unexpected, typed;
    }
    typed := true;
    if !form.typingWorks || form.buttons.None? {
      return false, Unexpected, typed;
    }
    var candidates := form.buttons.value;
    if candidates == [] {
      return false, NoLoginButton, typed;
    }
    for i := 0 to |candidates|
      invariant forall j :: 0 <= j < i ==> !candidates[j]
    {
      if candidates[i] {
        return true, Submitted, typed;
      }
    }
    return false, ButtonClickFailed, typed;
  }
}
