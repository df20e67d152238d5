/**
 * job_agent.py: the older profile refresh. It finds the Resume Headline edit button and the
 * textarea through the same locators as update_profile.py, toggles a trailing "." on the
 * headline, and clicks Save through a primary locator with one fallback.
 */
module AgentRefresh {
  import opened Wrappers
  import opened Text
  import opened Locator
  import opened Headline
  import ProfileRefresh

  /** The Save locators, tried in this order; the strings are those of update_profile.py. */
  const SaveXPaths: seq<XPath> := [ProfileRefresh.ContainsSave, ProfileRefresh.FirstSaveButton]

  /** `find_resume_headline_edit_button` (the same four locators as update_profile.py). */
  method FindResumeHeadlineEditButton(probe: XPath -> Option<Element>) returns (elem: Option<Element>)
    ensures elem == Found(probe, ProfileRefresh.EditButtonXPaths)
  {
    elem := ProfileRefresh.FindResumeHeadlineEditButton(probe);
  }

  /** `find_resume_headline_textarea`: the four textarea locators, no contenteditable fallback. */
  method FindResumeHeadlineTextarea(probe: XPath -> Option<Element>) returns (elem: Option<Element>)
    ensures elem == Found(probe, ProfileRefresh.TextareaXPaths)
  {
    var hit := FirstHit(probe, ProfileRefresh.TextareaXPaths);
    elem := if hit.Some? then Some(hit.value.elem) else None;
  }

  /** The nested lookups for Save: the primary locator, and only when it raises, the fallback. */
  method FindSaveButton(probe: XPath -> Option<Element>) returns (button: Option<Element>)
    ensures button == Found(probe, SaveXPaths)
    ensures button == if probe(SaveXPaths[0]).Some? then probe(SaveXPaths[0]) else probe(SaveXPaths[1])
  {
    button := probe(ProfileRefresh.ContainsSave);
    if button.None? {
      button := probe(ProfileRefresh.FirstSaveButton);
    }
    var results := Probes(probe, SaveXPaths);
    if results[0].Some? {
      assert FirstSuccess(results) == Some(0);
    } else if results[1].Some? {
      assert FirstSuccess(results) == Some(1);
    }
  }

  /**
   * The profile page as this refresh sees it: the element lookups, whether the JavaScript click on
   * the edit button works, what reading the textarea's `value` gives, whether clearing and typing
   * into it work, and whether the JavaScript click on Save works.
   */
  datatype AgentPage = AgentPage(
    probe: XPath -> Option<Element>,
    editClickWorks: bool,
    valueAttribute: ProfileRefresh.HeadlineRead,
    typingWorks: bool,
    saveClickWorks: bool)

  datatype AgentEvent =
    | ClickedEdit
    | ReadHeadline(text: string)
    | WroteHeadline(text: string)
    | ClickedSave(strategy: nat)

  datatype AgentOutcome =
    | EditButtonMissing
    | EditOpenFailed     // the click on the edit button raised
    | TextareaMissing
    | Failed             // reading, writing or clicking Save raised
    | SaveMissing        // both Save lookups raised; the headline was changed but not saved
    | Refreshed(headline: string)

  datatype AgentRun = AgentRun(outcome: AgentOutcome, events: seq<AgentEvent>)

  /** Steps 1 and 2 up to the textarea: whether it is open, or how the refresh ended. */
  function OpenTextarea(page: AgentPage): (r: Option<AgentRun>)
    ensures r.Some? ==> forall e :: e in r.value.events ==> e == ClickedEdit
  {
    if Found(page.probe, ProfileRefresh.EditButtonXPaths).None? then Some(AgentRun(EditButtonMissing, []))
    else if !page.editClickWorks then Some(AgentRun(EditOpenFailed, []))
    else if Found(page.probe, ProfileRefresh.TextareaXPaths).None? then Some(AgentRun(TextareaMissing, [ClickedEdit]))
    else None
  }

  /** The rest, once the textarea is there: read (`or ""`), toggle, write, find Save, click it. */
  function Rewrite(page: AgentPage): AgentRun {
    match page.valueAttribute
    case ReadRaised => AgentRun(Failed, [])
    case ReadValue(v) =>
      var headline := v.GetOr("");
      var newText := ToggleTrailingDot(headline);
      if !page.typingWorks then AgentRun(Failed, [ReadHeadline(headline)])
      else match FirstSuccess(Probes(page.probe, SaveXPaths))
        case None => AgentRun(SaveMissing, [ReadHeadline(headline), WroteHeadline(newText)])
        case Some(i) =>
          if !page.saveClickWorks then AgentRun(Failed, [ReadHeadline(headline), WroteHeadline(newText)])
          else AgentRun(Refreshed(newText), [ReadHeadline(headline), WroteHeadline(newText), ClickedSave(i)])
  }

  /** The run of job_agent.py's `refresh_profile_resume_headline` on a page. */
  function Refresh(page: AgentPage): AgentRun {
    match OpenTextarea(page)
    case Some(run) => run
    case None =>
      var rest := Rewrite(page);
      AgentRun(rest.outcome, [ClickedEdit] + rest.events)
  }

  method OpenResumeHeadlineTextarea(page: AgentPage) returns (ended: Option<AgentRun>)
    ensures ended == OpenTextarea(page)
  {
    var editButton := FindResumeHeadlineEditButton(page.probe);
    if editButton.None? {
      return Some(AgentRun(EditButtonMissing, []));
    }
    if !page.editClickWorks {
      return Some(AgentRun(EditOpenFailed, []));
    }
    var textarea := FindResumeHeadlineTextarea(page.probe);
    if textarea.None? {
      return Some(AgentRun(TextareaMissing, [ClickedEdit]));
    }
    return None;
  }

  method ToggleAndSave(page: AgentPage) returns (outcome: AgentOutcome, events: seq<AgentEvent>)
    ensures AgentRun(outcome, events) == Rewrite(page)
  {
    events := [];
    if page.valueAttribute.ReadRaised? {
      return Failed, events;
    }
    var headline := page.valueAttribute.value.GetOr("");
    events := events + [ReadHeadline(headline)];
    var newText := ToggleTrailingDot(headline);
    if !page.typingWorks {
      return Failed, events;
    }
    events := events + [WroteHeadline(newText)];
    var saveButton := FindSaveButton(page.probe);
    if saveButton.None? {
      return SaveMissing, events;
    }
    if !page.saveClickWorks {
      return Failed, events;
    }
    var strategy := if page.probe(SaveXPaths[0]).Some? then 0 else 1;
    assert FirstSuccess(Probes(page.probe, SaveXPaths)) == Some(strategy);
    events := events + [ClickedSave(strategy)];
    return Refreshed(newText), events;
  }

  /** job_agent.py's `refresh_profile_resume_headline`, with the events it causes. */
  method RefreshProfileResumeHeadline(page: AgentPage) returns (outcome: AgentOutcome, events: seq<AgentEvent>)
    ensures AgentRun(outcome, events) == Refresh(page)
  {
    var ended := OpenResumeHeadlineTextarea(page);
    if ended.Some? {
      return ended.value.outcome, ended.value.events;
    }
    var rest;
    outcome, rest := ToggleAndSave(page);
    events := [ClickedEdit] + rest;
  }

  // ---------------------------------------------------------------------------------------
  // What the refresh guarantees
  // ---------------------------------------------------------------------------------------

  /** Without the edit button nothing happens at all; without the textarea the headline is
      neither read nor written. */
  lemma EarlyExits(page: AgentPage)
    ensures Found(page.probe, ProfileRefresh.EditButtonXPaths).None? ==> Refresh(page).events == []
    ensures Found(page.probe, ProfileRefresh.TextareaXPaths).None? ==>
              forall e :: e in Refresh(page).events ==> !e.ReadHeadline? && !e.WroteHeadline?
  {
  }

  /** The refresh succeeds exactly when every lookup and every click goes through. */
  lemma RefreshedIff(page: AgentPage)
    ensures Refresh(page).outcome.Refreshed? <==>
              && Found(page.probe, ProfileRefresh.EditButtonXPaths).Some? && page.editClickWorks
              && Found(page.probe, ProfileRefresh.TextareaXPaths).Some?
              && page.valueAttribute.ReadValue? && page.typingWorks
              && (page.probe(SaveXPaths[0]).Some? || page.probe(SaveXPaths[1]).Some?)
              && page.saveClickWorks
  {
  }

  /** The headline saved differs from the one read by exactly one trailing dot. */
  lemma {:induction false} SavedHeadlineIsToggled(page: AgentPage)
    requires Refresh(page).outcome.Refreshed?
    ensures var run := Refresh(page);
            && |run.events| == 4
            && run.events[1].ReadHeadline?
            && run.events[2] == WroteHeadline(run.outcome.headline)
            && var before := run.events[1].text;
               && run.outcome.headline != before
               && (EndsWith(before, ".") ==> |run.outcome.headline| + 1 == |before|)
               && (!EndsWith(before, ".") ==> |run.outcome.headline| == |before| + 1)
  {
    var headline := page.valueAttribute.value.GetOr("");
    var rest := Rewrite(page);
    assert rest.events[0] == ReadHeadline(headline);
    assert rest.outcome.headline == ToggleTrailingDot(headline);
  }

  /** When neither Save lookup finds a button, the toggled headline has been written but is not
      saved. */
  lemma ChangedButNotSaved(page: AgentPage)
    requires Refresh(page).outcome == SaveMissing
    ensures page.probe(SaveXPaths[0]).None? && page.probe(SaveXPaths[1]).None?
    ensures Refresh(page).events[|Refresh(page).events| - 1].WroteHeadline?
    ensures forall e :: e in Refresh(page).events ==> !e.ClickedSave?
  {
  }

  /** A second refresh that reads back the headline the first one saved restores the original,
      unless the original ended in "..". */
  lemma SecondRefreshRestores(first: AgentPage, second: AgentPage)
    requires Refresh(first).outcome.Refreshed? && Refresh(second).outcome.Refreshed?
    requires second.valueAttribute == ProfileRefresh.ReadValue(Some(Refresh(first).outcome.headline))
    ensures var original := first.valueAttribute.value.GetOr("");
            Refresh(second).outcome.headline == original <==> !EndsWith(original, "..")
  {
    ToggleTwice(first.valueAttribute.value.GetOr(""));
  }
}
