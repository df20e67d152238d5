/**
 * update_profile.py: refresh the profile by rewriting the Resume Headline with a fresh
 * timestamp marker. The edit button and the editor are found through ordered XPath fallbacks,
 * the headline is read, rebuilt and written back, and the Save button is clicked through a
 * second fallback list. Each step that fails ends the refresh at once.
 */
module ProfileRefresh {
  import opened Wrappers
  import opened Text
  import opened Locator
  import opened Headline

  // The locators, each named after what it looks for.
  const EditAfterHeadlineLabel: XPath := "//span[contains(translate(., 'RESUME HEADLINE', 'resume headline'), 'resume headline')]/following::span[contains(@class,'edit')][1]"
  const EditInHeadlineSection: XPath := "//*[contains(translate(., 'RESUME HEADLINE', 'resume headline'), 'resume headline')]/ancestor::section[1]//span[contains(@class,'edit') or contains(.,'Edit')][1]"
  const EditInHeadlineDiv: XPath := "//*[contains(translate(., 'RESUME HEADLINE', 'resume headline'), 'resume headline')]/ancestor::div[1]//span[contains(@class,'edit') or contains(.,'Edit')][1]"
  const EditAfterHeadlineText: XPath := "//*[contains(.,'Resume headline') or contains(.,'Resume Headline')]/following::span[contains(@class,'edit') or contains(.,'Edit')][1]"
  const DescribeTextarea: XPath := "//textarea[contains(@placeholder,'Describe')]"
  const HeadlineTextarea: XPath := "//textarea[contains(translate(@placeholder, 'HEADLINE', 'headline'),'headline')]"
  const ResumeTextarea: XPath := "//textarea[contains(@class,'resume') or contains(@id,'resume')]"
  const AnyTextarea: XPath := "//textarea"
  const EditableDiv: XPath := "//div[@contenteditable='true']"
  const QuillEditor: XPath := "//div[contains(@class,'ql-editor')]"
  const EditableResumeDiv: XPath := "//div[contains(@class,'resume') and @contenteditable='true']"
  const ExactSave: XPath := "//button[normalize-space(.)='Save']"
  const ContainsSave: XPath := "//button[contains(., 'Save') or contains(., 'SAVE')]"
  const SaveInModal: XPath := "//div[contains(@class,'modal')]//button[contains(.,'Save')]"
  const FirstSaveButton: XPath := "(//button[contains(.,'Save') or contains(.,'SAVE')])[1]"

  const EditButtonXPaths: seq<XPath> := [
    EditAfterHeadlineLabel,
    EditInHeadlineSection,
    EditInHeadlineDiv,
    EditAfterHeadlineText
  ]

  const TextareaXPaths: seq<XPath> := [
    DescribeTextarea,
    HeadlineTextarea,
    ResumeTextarea,
    AnyTextarea
  ]

  const ContentEditableXPaths: seq<XPath> := [
    EditableDiv,
    QuillEditor,
    EditableResumeDiv
  ]

  const SaveXPaths: seq<XPath> := [
    ExactSave,
    ContainsSave,
    SaveInModal,
    FirstSaveButton
  ]

  // ---------------------------------------------------------------------------------------
  // The two finders
  // ---------------------------------------------------------------------------------------

  /** `find_resume_headline_edit_button`: the first of the four locators that finds an element. */
  method FindResumeHeadlineEditButton(probe: XPath -> Option<Element>) returns (elem: Option<Element>)
    ensures elem == Found(probe, EditButtonXPaths)
  {
    var hit := FirstHit(probe, EditButtonXPaths);
    elem := if hit.Some? then Some(hit.value.elem) else None;
  }

  /** Which list the editor was found by; the source tags it "textarea" or "contenteditable". */
  datatype EditorMode = Textarea | ContentEditable

  /** The editor `find_resume_headline_editor` returns, with its mode tag. */
  function EditorOf(probe: XPath -> Option<Element>): (r: (Option<Element>, Option<EditorMode>))
    ensures r.0.Some? <==> r.1.Some?
    ensures r.1 == Some(Textarea) <==> Found(probe, TextareaXPaths).Some?
    ensures r.1 == Some(Textarea) ==> r.0 == Found(probe, TextareaXPaths)
    ensures r.1 == Some(ContentEditable) <==>
              Found(probe, TextareaXPaths).None? && Found(probe, ContentEditableXPaths).Some?
    ensures r.1 == Some(ContentEditable) ==> r.0 == Found(probe, ContentEditableXPaths)
  {
    match Found(probe, TextareaXPaths)
    case Some(e) => (Some(e), Some(Textarea))
    case None =>
      match Found(probe, ContentEditableXPaths)
      case Some(e) => (Some(e), Some(ContentEditable))
      case None => (None, None)
  }

  /** The editor search is one first-success search over the textarea locators followed by the
      contenteditable ones; the mode tag says on which side of the join the winner sits. */
  lemma {:induction false} EditorIsFirstOfBothLists(probe: XPath -> Option<Element>)
    ensures EditorOf(probe).0 == Found(probe, TextareaXPaths + ContentEditableXPaths)
    ensures EditorOf(probe).1 == Some(Textarea) <==>
              (Resolve(probe, TextareaXPaths + ContentEditableXPaths).Some?
               && Resolve(probe, TextareaXPaths + ContentEditableXPaths).value.strategy < |TextareaXPaths|)
  {
    var both := TextareaXPaths + ContentEditableXPaths;
    ProbesAppend(probe, TextareaXPaths, ContentEditableXPaths);
    FirstSuccessAppend(Probes(probe, TextareaXPaths), Probes(probe, ContentEditableXPaths));
    var f := FirstSuccess(Probes(probe, TextareaXPaths));
    var g := FirstSuccess(Probes(probe, ContentEditableXPaths));
    if f.None? && g.Some? {
      assert both[|TextareaXPaths| + g.value] == ContentEditableXPaths[g.value];
    }
  }

  /** `find_resume_headline_editor`: every textarea locator first, then the contenteditable ones,
      and (None, None) when all are exhausted. */
  method FindResumeHeadlineEditor(probe: XPath -> Option<Element>)
    returns (editor: Option<Element>, mode: Option<EditorMode>)
    ensures (editor, mode) == EditorOf(probe)
  {
    var hit := FirstHit(probe, TextareaXPaths);
    if hit.Some? {
      return Some(hit.value.elem), Some(Textarea);
    }
    hit := FirstHit(probe, ContentEditableXPaths);
    if hit.Some? {
      return Some(hit.value.elem), Some(ContentEditable);
    }
    return None, None;
  }

  // ---------------------------------------------------------------------------------------
  // The save fallback
  // ---------------------------------------------------------------------------------------

  /**
   * One Save locator: it never became clickable (or the wait, the scroll or the click raised
   * anything but an interception), it was clicked, or the click was intercepted and the
   * JavaScript click that follows went through or raised.
   */
  datatype SaveAttempt = NotClickable | Clicked | Intercepted(scriptClickWorks: bool)

  predicate SaveWorks(a: SaveAttempt) {
    a == Clicked || a == Intercepted(true)
  }

  function SaveResults(save: XPath -> SaveAttempt): (rs: seq<Option<()>>)
    ensures |rs| == |SaveXPaths|
    ensures forall i :: 0 <= i < |SaveXPaths| ==> (rs[i].Some? <==> SaveWorks(save(SaveXPaths[i])))
  {
    seq(|SaveXPaths|, i requires 0 <= i < |SaveXPaths| =>
      if SaveWorks(save(SaveXPaths[i])) then Some(()) else None)
  }

  /** The Save locator that is clicked: the first one that works. */
  function SavedBy(save: XPath -> SaveAttempt): Option<nat> {
    FirstSuccess(SaveResults(save))
  }

  lemma SavedByIff(save: XPath -> SaveAttempt)
    ensures SavedBy(save).Some? <==> exists i :: 0 <= i < |SaveXPaths| && SaveWorks(save(SaveXPaths[i]))
  {
    if exists i :: 0 <= i < |SaveXPaths| && SaveWorks(save(SaveXPaths[i])) {
      var i :| 0 <= i < |SaveXPaths| && SaveWorks(save(SaveXPaths[i]));
      assert SaveResults(save)[i].Some?;
    }
  }

  /** The save loop: `save_clicked` is set by the first locator that works, which ends the loop;
      it stays false exactly when every locator failed. */
  method ClickSave(save: XPath -> SaveAttempt) returns (saveClicked: bool, strategy: Option<nat>)
    ensures strategy == SavedBy(save)
    ensures saveClicked <==> strategy.Some?
    ensures saveClicked <==> exists i :: 0 <= i < |SaveXPaths| && SaveWorks(save(SaveXPaths[i]))
  {
    saveClicked, strategy := false, None;
    for i := 0 to |SaveXPaths|
      invariant !saveClicked && strategy.None?
      invariant forall j :: 0 <= j < i ==> !SaveWorks(save(SaveXPaths[j]))
    {
      match save(SaveXPaths[i]) {
        case NotClickable =>
        case Clicked =>
          saveClicked := true;
        case Intercepted(scriptClickWorks) =>
          saveClicked := scriptClickWorks;
      }
      if saveClicked {
        strategy := Some(i);
        assert FirstSuccess(SaveResults(save)) == Some(i);
        break;
      }
    }
    if !saveClicked {
      assert forall j :: 0 <= j < |SaveXPaths| ==> SaveResults(save)[j].None?;
    }
  }

  // ---------------------------------------------------------------------------------------
  // refresh_profile_resume_headline
  // ---------------------------------------------------------------------------------------

  /** Reading the headline out of the editor: it raised, or gave a value (None when absent). */
  datatype HeadlineRead = ReadRaised | ReadValue(value: Option<string>)

  /**
   * The profile page as the refresh sees it: the element lookups, whether the JavaScript click on
   * the edit button works, whether an editor appears within the wait, what reading the textarea's
   * `value` and an element's `text` give, whether typing into the textarea and setting
   * `innerText` by script work, and how each Save locator behaves.
   */
  datatype ProfilePage = ProfilePage(
    probe: XPath -> Option<Element>,
    editClickWorks: bool,
    editorAppears: bool,
    valueAttribute: HeadlineRead,
    innerText: HeadlineRead,
    typingWorks: bool,
    scriptWriteWorks: bool,
    save: XPath -> SaveAttempt)

  /** What the refresh did to the page, in order. */
  datatype RefreshEvent =
    | ClickedEdit
    | ReadHeadline(text: string)
    | WroteHeadline(text: string)
    | ClickedSave(strategy: nat)

  datatype RefreshOutcome =
    | EditButtonMissing
    | EditOpenFailed       // scrolling to or clicking the edit button raised
    | EditorDidNotAppear   // the wait for an editor timed out
    | EditorMissing
    | Failed               // reading or writing the headline raised
    | SaveMissing          // the headline was changed but not saved
    | Refreshed(headline: string)

  datatype RefreshRun = RefreshRun(outcome: RefreshOutcome, events: seq<RefreshEvent>)

  function ReadOf(page: ProfilePage, mode: EditorMode): HeadlineRead {
    if mode == Textarea then page.valueAttribute else page.innerText
  }

  function WriteWorks(page: ProfilePage, mode: EditorMode): bool {
    if mode == Textarea then page.typingWorks else page.scriptWriteWorks
  }

  /** Steps 1 to 3: the editor is open in some mode, or the refresh has already ended. */
  datatype Opening = NotOpened(outcome: RefreshOutcome, events: seq<RefreshEvent>) | EditorOpen(mode: EditorMode)

  function OpenEditor(page: ProfilePage): (r: Opening)
    ensures r.NotOpened? ==> forall e :: e in r.events ==> e == ClickedEdit
  {
    if Found(page.probe, EditButtonXPaths).None? then NotOpened(EditButtonMissing, [])
    else if !page.editClickWorks then NotOpened(EditOpenFailed, [])
    else if !page.editorAppears then NotOpened(EditorDidNotAppear, [ClickedEdit])
    else match EditorOf(page.probe).1
      case None => NotOpened(EditorMissing, [ClickedEdit])
      case Some(mode) => EditorOpen(mode)
  }

  /** Step 5, once `newText` was built from `headline`: write it, then click Save. */
  function WriteBack(page: ProfilePage, mode: EditorMode, headline: string, newText: string): RefreshRun {
    if !WriteWorks(page, mode) then RefreshRun(Failed, [ReadHeadline(headline)])
    else match SavedBy(page.save)
      case None => RefreshRun(SaveMissing, [ReadHeadline(headline), WroteHeadline(newText)])
      case Some(i) => RefreshRun(Refreshed(newText), [ReadHeadline(headline), WroteHeadline(newText), ClickedSave(i)])
  }

  /** Steps 4 and 5, once the editor is open in `mode`: read, rebuild, write, save. */
  function Rewrite(page: ProfilePage, mode: EditorMode, ts: string): RefreshRun {
    match ReadOf(page, mode)
    case ReadRaised => RefreshRun(Failed, [])
    case ReadValue(v) =>
      var headline := v.GetOr("");
      WriteBack(page, mode, headline, BuildNewHeadlineText(headline, ts))
  }

  /** The run of `refresh_profile_resume_headline` on a page, with timestamp `ts`. */
  function Refresh(page: ProfilePage, ts: string): RefreshRun {
    match OpenEditor(page)
    case NotOpened(outcome, events) => RefreshRun(outcome, events)
    case EditorOpen(mode) =>
      var rest := Rewrite(page, mode, ts);
      RefreshRun(rest.outcome, [ClickedEdit] + rest.events)
  }

  /** Steps 1 to 3 of `refresh_profile_resume_headline`: find and click the edit button, wait
      for an editor, find it. */
  method OpenResumeHeadlineEditor(page: ProfilePage) returns (opening: Opening)
    ensures opening == OpenEditor(page)
  {
    var editButton := FindResumeHeadlineEditButton(page.probe);
    if editButton.None? {
      return NotOpened(EditButtonMissing, []);
    }
    if !page.editClickWorks {
      return NotOpened(EditOpenFailed, []);
    }
    if !page.editorAppears {
      return NotOpened(EditorDidNotAppear, [ClickedEdit]);
    }
    var editor, mode := FindResumeHeadlineEditor(page.probe);
    if editor.None? {
      return NotOpened(EditorMissing, [ClickedEdit]);
    }
    return EditorOpen(mode.value);
  }

  /** Step 5: write the rebuilt headline, click Save. */
  method WriteAndSave(page: ProfilePage, mode: EditorMode, headline: string, newText: string)
    returns (outcome: RefreshOutcome, events: seq<RefreshEvent>)
    ensures RefreshRun(outcome, events) == WriteBack(page, mode, headline, newText)
  {
    events := [ReadHeadline(headline)];
    var written := if mode == Textarea then page.typingWorks else page.scriptWriteWorks;
    if !written {
      return Failed, events;
    }
    events := events + [WroteHeadline(newText)];
    var saveClicked, strategy := ClickSave(page.save);
    if !saveClicked {
      return SaveMissing, events;
    }
    events := events + [ClickedSave(strategy.value)];
    return Refreshed(newText), events;
  }

  /** Steps 4 and 5: read the headline (`or ""`), write the rebuilt one, click Save. */
  method RewriteHeadline(page: ProfilePage, mode: EditorMode, ts: string)
    returns (outcome: RefreshOutcome, events: seq<RefreshEvent>)
    ensures RefreshRun(outcome, events) == Rewrite(page, mode, ts)
  {
    var read := if mode == Textarea then page.valueAttribute else page.innerText;
    if read.ReadRaised? {
      return Failed, [];
    }
    var headline := read.value.GetOr("");
    var newText := BuildNewHeadlineText(headline, ts);
    outcome, events := WriteAndSave(page, mode, headline, newText);
  }

  /** `refresh_profile_resume_headline`, with the events it causes. */
  method RefreshProfileResumeHeadline(page: ProfilePage, ts: string)
    returns (outcome: RefreshOutcome, events: seq<RefreshEvent>)
    ensures RefreshRun(outcome, events) == Refresh(page, ts)
  {
    var opening := OpenResumeHeadlineEditor(page);
    if opening.NotOpened? {
      return opening.outcome, opening.events;
    }
    events := [ClickedEdit];
    var rest;
    outcome, rest := RewriteHeadline(page, opening.mode, ts);
    events := events + rest;
  }

  // ---------------------------------------------------------------------------------------
  // What the refresh guarantees
  // ---------------------------------------------------------------------------------------

  predicate Touches(e: RefreshEvent) {
    e.ReadHeadline? || e.WroteHeadline?
  }

  /** When the edit button or the editor is not found, the refresh ends before the headline is
      read or written. */
  lemma EarlyExitsTouchNothing(page: ProfilePage, ts: string)
    requires Found(page.probe, EditButtonXPaths).None? || !page.editClickWorks
             || !page.editorAppears || EditorOf(page.probe).0.None?
    ensures forall e :: e in Refresh(page, ts).events ==> !Touches(e)
    ensures !Refresh(page, ts).outcome.Refreshed? && Refresh(page, ts).outcome != SaveMissing
  {
  }

  /** The refresh succeeds exactly when every step finds what it looks for. */
  lemma RefreshedIff(page: ProfilePage, ts: string)
    ensures Refresh(page, ts).outcome.Refreshed? <==>
              && Found(page.probe, EditButtonXPaths).Some? && page.editClickWorks && page.editorAppears
              && EditorOf(page.probe).1.Some?
              && ReadOf(page, EditorOf(page.probe).1.value).ReadValue?
              && WriteWorks(page, EditorOf(page.probe).1.value)
              && exists i :: 0 <= i < |SaveXPaths| && SaveWorks(page.save(SaveXPaths[i]))
  {
    SavedByIff(page.save);
  }

  /**
   * A successful refresh reads the headline, writes the rebuilt one, which ends with the new
   * marker, and then clicks the first Save locator that works.
   */
  lemma {:induction false} RefreshedWritesFreshMarker(page: ProfilePage, ts: string)
    requires Refresh(page, ts).outcome.Refreshed?
    ensures var run := Refresh(page, ts);
            && |run.events| == 4
            && run.events[0] == ClickedEdit
            && run.events[1].ReadHeadline?
            && run.events[2] == WroteHeadline(run.outcome.headline)
            && run.events[3] == ClickedSave(SavedBy(page.save).value)
            && run.outcome.headline == BuildNewHeadlineText(run.events[1].text, ts)
            && EndsWith(run.outcome.headline, Separator + ts)
  {
    var mode := OpenEditor(page).mode;
    var headline := ReadOf(page, mode).value.GetOr("");
    var rest := Rewrite(page, mode, ts);
    assert rest.events == [ReadHeadline(headline), WroteHeadline(rest.outcome.headline), ClickedSave(SavedBy(page.save).value)];
  }

  /** The events of a refresh that wrote the headline but found no Save locator. */
  lemma SaveMissingEvents(page: ProfilePage, ts: string) returns (headline: string, newText: string)
    requires Refresh(page, ts).outcome == SaveMissing
    ensures SavedBy(page.save).None?
    ensures Refresh(page, ts).events == [ClickedEdit, ReadHeadline(headline), WroteHeadline(newText)]
  {
    var mode := OpenEditor(page).mode;
    headline := ReadOf(page, mode).value.GetOr("");
    newText := BuildNewHeadlineText(headline, ts);
    assert WriteBack(page, mode, headline, newText).outcome == SaveMissing;
  }

  /** When no Save locator works, the headline has been written but the refresh reports that it
      was not saved, and nothing is clicked after the write. */
  lemma ChangedButNotSaved(page: ProfilePage, ts: string)
    requires Refresh(page, ts).outcome == SaveMissing
    ensures forall i :: 0 <= i < |SaveXPaths| ==> !SaveWorks(page.save(SaveXPaths[i]))
    ensures Refresh(page, ts).events[|Refresh(page, ts).events| - 1].WroteHeadline?
    ensures forall e :: e in Refresh(page, ts).events ==> !e.ClickedSave?
  {
    var headline, newText := SaveMissingEvents(page, ts);
    SavedByIff(page.save);
  }

  /** A second refresh within the same minute, reading back what the first one saved, writes the
      same headline again. */
  lemma SameMinuteRefreshIsStable(first: ProfilePage, second: ProfilePage, ts: string)
    requires IsStamp(ts)
    requires Refresh(first, ts).outcome.Refreshed? && Refresh(second, ts).outcome.Refreshed?
    requires OpenEditor(second).EditorOpen?
    requires ReadOf(second, OpenEditor(second).mode) == ReadValue(Some(Refresh(first, ts).outcome.headline))
    ensures Refresh(second, ts).outcome.headline == Refresh(first, ts).outcome.headline
  {
    RefreshedWritesFreshMarker(first, ts);
    RefreshedWritesFreshMarker(second, ts);
    var t := Refresh(first, ts).outcome.headline;
    var before := Refresh(first, ts).events[1].text;
    assert t == BuildNewHeadlineText(before, ts);
    SameStampIsFixedPoint(before, ts);
  }

  /**
   * The stacked marker of `build_new_headline_text` reaches the page: when the headline read
   * back is a refreshed one followed by a space, the refresh writes it with its old marker kept
   * and a second one appended.
   */
  lemma TrailingSpaceRefreshStacks(page: ProfilePage, headline: string, ts0: string, ts: string)
    requires IsStamp(ts0)
    requires Refresh(page, ts).outcome.Refreshed?
    requires OpenEditor(page).EditorOpen?
    requires ReadOf(page, OpenEditor(page).mode) == ReadValue(Some(BuildNewHeadlineText(headline, ts0) + " "))
    ensures var t := BuildNewHeadlineText(headline, ts0);
            && Refresh(page, ts).outcome.headline == t + Separator + ts
            && Refresh(page, ts).outcome.headline != BuildNewHeadlineText(headline, ts)
  {
    RefreshedWritesFreshMarker(page, ts);
    TrailingSpaceStacksSuffix(headline, ts0, ts);
  }
}
