# Naukri / Hirist automation scripts: a verified model of their decision logic

The scripts drive two job portals (Naukri and Hirist) through a browser: they log in, update
the salary fields, rewrite the resume headline to bump the profile's "last updated" date, judge
job pages against a relevance filter, and click Apply on a capped number of jobs. Most of each
script is browser plumbing. This project models the logic inside that plumbing in Dafny and
proves what the scripts promise about it.

The browser is replaced by data throughout:

- an XPath lookup is a probe function from the XPath string to an optional element (or to a
  richer per-site outcome such as "found but the click raised");
- a page is a record of what the browser would report (does the edit button click, does typing
  work, which Save locators are clickable);
- the effects a flow has on the page are returned as an event trace. Ordering and early-exit
  rules become statements about that trace.

Every flow is an imperative method proved equal to a specification function of the page. The
lemmas about that function state the promises: which step ends the run, what is written, and
when the run succeeds.

Modules, one per concern:

- `Wrappers`: `Option`.
- `Text`: ASCII character classes, lower-casing, substring tests, whitespace and digit runs,
  `rstrip`, decimal text.
- `Locator`: the ordered fallback resolver shared by every finder. The strategies are tried in
  list order and the first success wins; the result is `None` when all of them fail.
- `Caps`: a walk that checks `count < cap` before each item.
- `Links`: de-duplication in first-seen order.
- `Salary`: `parse_salary`, `_get_int_env`, the "+1" bump and the salary form flow
  (job_apply.py and update_salary.py).
- `Headline`:
  - `build_new_headline_text` of update_profile.py, with the timestamp as a parameter and the
    marker regex written out as a scanner;
  - the trailing-dot toggle of job_agent.py.
- `Relevance`: `is_relevant_job` of job_update.py, with its three regexes written out as
  scanners.
- `JobApply`: the `apply_jobs` card walk of job_apply.py.
- `JobSearch`: the page, visited-set and counter loop of job_update.py's `main`.
- `Hirist`: link collection, the apply fallback, the capped apply loop and the two login helpers
  of job_hirish.py.
- `ProfileRefresh`: the finders and `refresh_profile_resume_headline` of update_profile.py.
- `AgentRefresh`: the finders and `refresh_profile_resume_headline` of job_agent.py.

The salary bump does not always keep the promise its own text makes. The docstring at
update_salary.py:77, the comment "4) Add ₹1 logic" (update_salary.py:132) and the messages at
update_salary.py:141 and :170 (job_apply.py:100, :170 and :197 for the copy there) all speak of
adding ₹1. The code keeps that promise for a consistent or aggregate-only triple, but not for an
inconsistent one: when the page holds current 1000, fixed 10 and variable 0, it writes
current = 11. `Salary.BumpCanLowerCurrent` proves this, and `Salary.Bump` promises the increase
only when the triple was consistent or aggregate-only. The model follows the code.

## Model

| member | source | states |
|---|---|---|
| Locator.FirstSuccess | Automation_Naukri/update_profile.py:97-104 | the index returned holds a success and every earlier strategy failed; None exactly when every strategy failed |
| Locator.FirstSuccessAppend | Automation_Naukri/update_profile.py:111-140 | searching two lists one after the other is searching their concatenation: the second list is consulted only when the first has no success |
| Locator.Found | Automation_Naukri/job_agent.py:99-106 | the element returned comes from the first XPath whose lookup succeeds; None exactly when every lookup fails |
| Locator.FirstHit | Automation_Naukri/job_agent.py:119-126 | the `for xp in xpaths: try ... return elem` loop: it returns the element and the position of the first successful lookup, with every earlier lookup failing; None exactly when all fail |
| Caps.CappedRunBound | Automation_Naukri/job_apply.py:229-303 | a loop that checks `count < cap` before each item and adds at most one per item never counts more than max(cap, 0) |
| Caps.CappedRunUnique | Automation_Naukri/job_hirish.py:197-199 | how many items a capped loop takes is fixed by the outcomes and the cap |
| Links.KeepNewMembers | Automation_Naukri/job_hirish.py:152-155 | an href is kept exactly when it was read, is non-empty and passes the filter |
| Links.KeepNewNoDuplicates | Automation_Naukri/job_hirish.py:154 | the `href not in hrefs` test leaves no duplicates |
| Links.KeepNewFirstSeenOrder | Automation_Naukri/job_hirish.py:151-155 | kept hrefs appear in the order of their first occurrence in the input |
| Salary.ParseSalary | Automation_Naukri/job_apply.py:39-42 | no value, the empty string or text without a digit reads as 0 |
| Salary.ParseSalaryIgnoresNonDigit | Automation_Naukri/job_apply.py:41 | removing a non-digit character anywhere does not change the value |
| Salary.ParseSalaryExample | Automation_Naukri/job_apply.py:40-42 | "29,00,001" reads as 2900001 |
| Salary.ParseSalaryOfWritten | Automation_Naukri/update_salary.py:29-32 | what the flow writes, `str(n)`, reads back as n |
| Salary.Bump | Automation_Naukri/job_apply.py:162-168 | afterwards current == fixed + variable; variable unchanged; fixed strictly larger; aggregate-only input gives current + 1 == fixed; otherwise fixed + 1; current rises by one when the input was consistent or aggregate-only |
| Salary.BumpAgain | Automation_Naukri/update_salary.py:133-139 | every bump after the first adds exactly one to current and to fixed |
| Salary.BumpCanLowerCurrent | Automation_Naukri/update_salary.py:133-139 | the triple (1000, 10, 0) becomes (11, 11, 0): current can decrease |
| Salary.GetIntEnv | Automation_Naukri/job_apply.py:23-28 | unset gives the default; a value `int` rejects gives the default; otherwise the parsed integer |
| Salary.ParseIntOfNatString | Automation_Naukri/job_apply.py:26 | `int` of the decimal text of a natural number is that number |
| Salary.ParseIntOfNegativeString | Automation_Naukri/job_apply.py:26 | `int` of "-" followed by the decimal text of a positive number is its negation |
| Salary.GetIntEnvRoundTrip | Automation_Naukri/job_apply.py:23-28 | a variable set to `str(n)` yields n for every integer n |
| Salary.GetIntEnvNoDigit | Automation_Naukri/job_apply.py:26-28 | a value without any digit yields the default |
| Salary.UpdateSalaryPlusOne | Automation_Naukri/update_salary.py:83-167 | the events are a prefix of read, write current, write fixed, write variable, save, and each outcome holds exactly when its condition does. The run stops with nothing read or written when the Employment section fails to open (update_salary.py only; job_apply.py:110-129 goes on), when the form does not appear, or when any input is missing. A failing write stops the later ones, and the events are the read plus the writes before it. Save is clicked exactly when all three writes succeeded and the button was found |
| Salary.SavedFormIsConsistent | Automation_Naukri/update_salary.py:143-152 | the three written texts read back as current == fixed + variable, with variable as it was before |
| Headline.FindMarkerSound | Automation_Naukri/update_profile.py:153 | a marker that is found has the shape `\s*·\s*upd\s+\d{2}[A-Za-z]{3}\d{4}` ending where `$` matches |
| Headline.FindMarkerComplete | Automation_Naukri/update_profile.py:153 | every such marker is found, at its leftmost start |
| Headline.StripMarker | Automation_Naukri/update_profile.py:153 | the text is unchanged when there is no marker, and shorter when there is one |
| Headline.BaseBeforeMarker | Automation_Naukri/update_profile.py:153 | the kept base is the right-stripped text before the marker |
| Headline.BuildNewHeadlineText | Automation_Naukri/update_profile.py:143-157 | the result ends with " · upd " + ts, and the base in front of it has no trailing whitespace |
| Headline.BuildByMatch | Automation_Naukri/update_profile.py:153-156 | with no marker match the result is the whole headline right-trimmed, then " · upd " + ts; with a match it is the text before the marker's '·', right-trimmed, then " · upd " + ts |
| Headline.MarkerOfSuffix | Automation_Naukri/update_profile.py:153-156 | the appended suffix is found again as the marker, at the separator |
| Headline.BuildTwice | Automation_Naukri/update_profile.py:153-156 | rebuilding a rebuilt headline with any stamp equals building the original with that stamp |
| Headline.SameStampIsFixedPoint | Automation_Naukri/update_profile.py:153-156 | for a well-formed stamp, rewriting twice with the same stamp equals rewriting once |
| Headline.NewStampChanges | Automation_Naukri/update_profile.py:145-146 | a different well-formed stamp always changes the headline |
| Headline.EmptyHeadline | Automation_Naukri/update_profile.py:149-156 | an empty headline becomes " · upd " + ts |
| Headline.MarkerCountOfBuild | Automation_Naukri/update_profile.py:153-156 | the result has one marker more than the kept base |
| Headline.MarkerCountAsWritten | Automation_Naukri/update_profile.py:153 | with a trailing marker the count is unchanged (an inner stacked marker stays); without one it is one more than the right-stripped text's |
| Headline.OneMarkerFromClean | Automation_Naukri/update_profile.py:153-156 | a clean headline gets exactly one marker |
| Headline.TrailingSpaceStacksSuffix | Automation_Naukri/update_profile.py:153 | as written: a refreshed headline followed by a space keeps its old marker and gets a second one |
| Headline.NoMarkerBeforeSpace | Automation_Naukri/update_profile.py:153 | as written: trailing whitespace hides the marker from the `$`-anchored pattern |
| Headline.StackedSuffixExample | Automation_Naukri/update_profile.py:153 | as written: "Engineer · upd 09Dec1523 " becomes "Engineer · upd 09Dec1523 · upd 10Dec0900" |
| Headline.MarkerCountGrowsAfterSpace | Automation_Naukri/update_profile.py:153 | as written: the marker count grows by one on such an input |
| Headline.BuildNewHeadlineTextFixed | Automation_Naukri/update_profile.py:153-157 | corrected builder for the finding below, which strips trailing whitespace before looking for the old marker; the result ends with " · upd " + ts. The refresh flow keeps the builder as written |
| Headline.FixedRefreshesAfterTrailingSpace | Automation_Naukri/update_profile.py:153 | corrected: trailing whitespace after the marker no longer stacks a second one |
| Headline.FixedBuildTwice | Automation_Naukri/update_profile.py:153-156 | corrected: rebuilding equals building the original with the later stamp |
| Headline.RStrippedBuild | Automation_Naukri/update_profile.py:153-156 | the built headline has no trailing whitespace |
| Headline.MarkerCountFixed | Automation_Naukri/update_profile.py:153 | corrected: the count is 1 for a clean headline and otherwise stays as it was |
| Headline.ToggleTrailingDot | Automation_Naukri/job_agent.py:164-168 | the result always differs from the input, and its length changes by exactly one: one shorter if it ended in ".", one longer with a "." appended otherwise |
| Headline.ToggleTwice | Automation_Naukri/job_agent.py:164-168 | toggling twice restores the text exactly when it does not end in ".." |
| Relevance.AgeMatchAtSound | Automation_Naukri/job_update.py:91 | a match at i has the shape "posted", then non-digits, then digits, then whitespace, then "day"; its value is the digit run |
| Relevance.AgeMatchAtComplete | Automation_Naukri/job_update.py:91 | every such shape at i is matched, with that value |
| Relevance.AgeDaysIsLeftmostMatch | Automation_Naukri/job_update.py:91-93 | the age read is the leftmost match; None exactly when nothing matches |
| Relevance.RangeAtSound | Automation_Naukri/job_update.py:116 | a range match has the shape digits, spaces, a hyphen or en dash, spaces, digits, spaces, yrs/years/yr, and captures both numbers |
| Relevance.RangeAtComplete | Automation_Naukri/job_update.py:116 | every such shape is matched, with those numbers |
| Relevance.PlusAtSound | Automation_Naukri/job_update.py:120 | a plus match has the shape digits, spaces, "+", spaces, yrs/years/yr, and captures the number |
| Relevance.PlusAtComplete | Automation_Naukri/job_update.py:120 | every such shape is matched, with that number |
| Relevance.SeqMin | Automation_Naukri/job_update.py:124 | `min(years)` is an element and no larger than any element |
| Relevance.SeqMax | Automation_Naukri/job_update.py:124 | `max(years)` is an element and no smaller than any element |
| Relevance.ExperienceOkIffOverlap | Automation_Naukri/job_update.py:123-127 | the experience rule passes exactly when the list is empty, or some figure is at least 8 and some figure is at most 12 |
| Relevance.ExtendWithMatches | Automation_Naukri/job_update.py:116-121 | the `finditer` loop appends the captures of every non-overlapping match, left to right |
| Relevance.CollectYears | Automation_Naukri/job_update.py:114-121 | the years list is every range capture, then every plus capture |
| Relevance.PassesTextRules | Automation_Naukri/job_update.py:88-111 | the age, include, exclude and location checks pass exactly when the text verdict is Accepted |
| Relevance.ExperienceWithin | Automation_Naukri/job_update.py:123-129 | the min/max check passes exactly when the experience verdict is Accepted |
| Relevance.IsRelevantJob | Automation_Naukri/job_update.py:87-129 | the result is True exactly when the rule-by-rule verdict is Accepted |
| Relevance.AcceptedIffAllRulesPass | Automation_Naukri/job_update.py:87-129 | a page is accepted exactly when the age is at most 30 or absent, an include keyword occurs, no exclude keyword occurs, an allowed location occurs and the experience rule passes |
| Relevance.RejectionOrder | Automation_Naukri/job_update.py:90-111 | each rejection reason is reported exactly when every earlier rule passed and this one fails |
| Relevance.AgeBoundary | Automation_Naukri/job_update.py:91-96 | an age above 30 rejects as too old; an age of 30 or no age match is never rejected as too old |
| Relevance.JudgeIgnoresCase | Automation_Naukri/job_update.py:88 | the verdict does not depend on letter case |
| Relevance.IncludeKeywordsAreLowerCase | Automation_Naukri/job_update.py:23-44 | every include keyword is lower case |
| Relevance.ExcludeKeywordsAreLowerCase | Automation_Naukri/job_update.py:46-59 | every exclude keyword is lower case |
| Relevance.AllowedLocationsAreLowerCase | Automation_Naukri/job_update.py:61-70 | every allowed location is lower case |
| Relevance.KeywordInAnyCase | Automation_Naukri/job_update.py:88-109 | a keyword written in the page in any letter case is found |
| Relevance.YearsOfSimpleRange | Automation_Naukri/job_update.py:116-118 | "a-b yrs" yields exactly the two figures a and b |
| Relevance.YearsOfSimplePlus | Automation_Naukri/job_update.py:120-121 | "d+ yrs" yields exactly the figure d |
| Relevance.ExperiencePageExamples | Automation_Naukri/job_update.py:114-127 | "5-8 yrs" and "9+ yrs" pass; "3-5 yrs" fails |
| Relevance.ExperienceExamples | Automation_Naukri/job_update.py:123-127 | [5, 8], [9] and [] pass; [3, 5] and [13, 15] fail |
| JobApply.TranslateApplied | Automation_Naukri/job_apply.py:295 | XPath `translate` lowers exactly the letters of "APPLIED" and keeps every other character |
| JobApply.CapitalisedAppliedIsFound | Automation_Naukri/job_apply.py:293-297 | a page showing "APPLIED" or "Applied" counts as already applied |
| JobApply.ClassifyApplied | Automation_Naukri/job_apply.py:244-305 | a card counts exactly when it opens, its page loads, Apply is clickable, the page does not look applied and the click goes through |
| JobApply.VisitCard | Automation_Naukri/job_apply.py:244-322 | the branch the loop body takes for one card, as `Classify` decides it in the loop body's order: the tab does not open, the page does not load, no Apply button, already applied, the click raises, or the click succeeds |
| JobApply.WalkCards | Automation_Naukri/job_apply.py:229-322 | every card is tried once, in index order, each below the cap; the loop stops at the last card or at the cap; applied counts the successful clicks among the cards tried, never more than max(max_jobs, 0) |
| JobApply.ApplyJobs | Automation_Naukri/job_apply.py:204-324 | when no card appears nothing is tried; otherwise as the walk above |
| JobSearch.TryApply | Automation_Naukri/job_update.py:232-253 | the first Apply locator whose click goes through decides, and it counts unless the page then says "error while processing" |
| JobSearch.VisitJob | Automation_Naukri/job_update.py:208-269 | a link counts exactly when its page opens, is relevant, this is not a dry run and the apply step counts |
| JobSearch.DryRunAppliesNothing | Automation_Naukri/job_update.py:225-229 | a dry run applies to nothing |
| JobSearch.CountAppliedAppend | Automation_Naukri/job_update.py:208-256 | the applied count of two batches of links is the sum of their counts |
| JobSearch.QueueNewLinks | Automation_Naukri/job_update.py:198-203 | the run goes on exactly when every `href` of the page can be read; then the links queued from it are exactly the ones that first-seen de-duplication of everything read so far adds, and `visited` is the set of all links queued |
| JobSearch.CheckLinks | Automation_Naukri/job_update.py:208-269 | the loop stops early exactly when tidying up after some link's visit raises, with that link the last one checked; otherwise every queued link is checked once and applied counts the ones that end in an application |
| JobSearch.VisitPage | Automation_Naukri/job_update.py:192-269 | one page of the loop: it stops the run exactly when an `href` of the page cannot be read or tidying up after one of its new links raises; otherwise it queues the page's new links and checks each of them once |
| JobSearch.Run | Automation_Naukri/job_update.py:189-283 | the run prints its counts exactly when no `href` read and no tab clean-up raises on the pages it reaches. Then at most 4 pages are read, stopping where there is no Next link; no link is queued twice across pages; checked is the number queued; applied counts the applications, never exceeds checked and is 0 in a dry run. Otherwise it ends, with no counts, on the first page where such an exception happens |
| Hirist.CollectJobLinks | Automation_Naukri/job_hirish.py:143-161 | the links are de-duplicated in first-seen order; each is non-empty, contains "hirist.tech" and not "login"; an exception gives [] |
| Hirist.ApplyOnJobPage | Automation_Naukri/job_hirish.py:169-189 | True exactly when some strategy clicks, and then the first such one in order was used; a missing element and a failing click both move on |
| Hirist.VisitJob | Automation_Naukri/job_hirish.py:200-205 | a link counts exactly when its page opens and some Apply strategy clicks; an exception skips it |
| Hirist.ApplyToLinks | Automation_Naukri/job_hirish.py:196-205 | links are taken in order, with the cap checked before each one; applied counts the successes among the links taken, never more than max(cap, 0) |
| Hirist.AutoApplyHirist | Automation_Naukri/job_hirish.py:191-206 | the links are those collected; no links means nothing is visited or applied; otherwise as the loop above |
| Hirist.FirstClick | Automation_Naukri/job_hirish.py:77-84 | the element clicked is the first whose click goes through; None exactly when none does |
| Hirist.FallbackFromChoice | Automation_Naukri/job_hirish.py:75-87 | element e of text t is clicked exactly when every earlier text was looked up without error and had nothing clickable, and e is the first clickable element for t |
| Hirist.ClickJobseekerLogin | Automation_Naukri/job_hirish.py:59-87 | the primary button when it clicks; otherwise the text fallback; True exactly when something was clicked |
| Hirist.SubmittedIff | Automation_Naukri/job_hirish.py:94-141 | the login is submitted exactly when both inputs are found, typing works and some candidate button clicks |
| Hirist.LocateLoginFieldsAndSubmit | Automation_Naukri/job_hirish.py:89-141 | the outcome follows the branch order of the code; True exactly on a submit click; credentials are typed only after both inputs are found |
| ProfileRefresh.FindResumeHeadlineEditButton | Automation_Naukri/update_profile.py:78-104 | the element from the first of the four XPaths that succeeds; None when all fail |
| ProfileRefresh.EditorOf | Automation_Naukri/update_profile.py:107-140 | textarea mode exactly when some textarea XPath succeeds; contenteditable mode exactly when none does and some contenteditable XPath does; the element comes from the list the mode names; (None, None) otherwise |
| ProfileRefresh.EditorIsFirstOfBothLists | Automation_Naukri/update_profile.py:111-140 | the editor is the first success over the textarea list followed by the contenteditable list, and textarea mode means it came from the first part |
| ProfileRefresh.FindResumeHeadlineEditor | Automation_Naukri/update_profile.py:107-140 | returns the editor and the mode described above |
| ProfileRefresh.SavedByIff | Automation_Naukri/update_profile.py:239-256 | some Save locator is used exactly when one of the four works |
| ProfileRefresh.ClickSave | Automation_Naukri/update_profile.py:232-256 | the loop stops at the first working locator; `save_clicked` is false exactly when every locator failed |
| ProfileRefresh.OpenResumeHeadlineEditor | Automation_Naukri/update_profile.py:181-211 | steps 1 to 3 and their early returns; none of them has read or written the headline |
| ProfileRefresh.WriteAndSave | Automation_Naukri/update_profile.py:223-260 | the write, then the Save loop; a failing write stops before Save |
| ProfileRefresh.RewriteHeadline | Automation_Naukri/update_profile.py:213-260 | reads the value (or inner text) `or ""`, builds the new headline with `build_new_headline_text` as written, writes it and saves |
| ProfileRefresh.RefreshProfileResumeHeadline | Automation_Naukri/update_profile.py:170-267 | the whole refresh, with the events it causes, as the refresh specification |
| ProfileRefresh.EarlyExitsTouchNothing | Automation_Naukri/update_profile.py:184-211 | when the edit button or the editor is missing, nothing is read or written, and the run is neither refreshed nor "changed but not saved" |
| ProfileRefresh.RefreshedIff | Automation_Naukri/update_profile.py:170-264 | the refresh succeeds exactly when the button is found and clicks, the editor appears and is found, reading and writing work and some Save locator works |
| ProfileRefresh.RefreshedWritesFreshMarker | Automation_Naukri/update_profile.py:213-260 | a successful refresh clicks edit, reads, writes the headline `build_new_headline_text` makes of what it read, which ends with the new marker, and clicks the first working Save |
| ProfileRefresh.ChangedButNotSaved | Automation_Naukri/update_profile.py:258-260 | when no Save locator works, the last event is the write and nothing is saved |
| ProfileRefresh.SameMinuteRefreshIsStable | Automation_Naukri/update_profile.py:220 | a second refresh in the same minute that reads back what the first one saved writes the same headline again |
| ProfileRefresh.TrailingSpaceRefreshStacks | Automation_Naukri/update_profile.py:213-220 | when the headline read back is a refreshed one followed by a space, the refresh writes it with the old marker kept and a second one appended, not what a fresh build would give: the finding below reaches the page |
| AgentRefresh.FindResumeHeadlineEditButton | Automation_Naukri/job_agent.py:80-106 | first success over the four edit-button XPaths; None when all fail |
| AgentRefresh.FindResumeHeadlineTextarea | Automation_Naukri/job_agent.py:109-126 | first success over the four textarea XPaths; None when all fail |
| AgentRefresh.FindSaveButton | Automation_Naukri/job_agent.py:175-189 | the primary Save XPath, else the indexed fallback, else None |
| AgentRefresh.OpenResumeHeadlineTextarea | Automation_Naukri/job_agent.py:142-160 | steps 1 and 2 and their early returns; none of them reads or writes the headline |
| AgentRefresh.ToggleAndSave | Automation_Naukri/job_agent.py:162-193 | reads the value `or ""`, writes the toggled text, clicks Save when a Save button is found |
| AgentRefresh.RefreshProfileResumeHeadline | Automation_Naukri/job_agent.py:132-196 | the whole refresh, with its events, as the refresh specification |
| AgentRefresh.EarlyExits | Automation_Naukri/job_agent.py:144-160 | a missing edit button ends the run before any event; a missing textarea ends it before the headline is read or written |
| AgentRefresh.RefreshedIff | Automation_Naukri/job_agent.py:132-196 | the refresh succeeds exactly when every step finds what it looks for and its action works |
| AgentRefresh.SavedHeadlineIsToggled | Automation_Naukri/job_agent.py:162-171 | a successful refresh writes a headline that differs from the one read, one character shorter or longer |
| AgentRefresh.ChangedButNotSaved | Automation_Naukri/job_agent.py:175-189 | when both Save locators fail, the last event is the write and Save is never clicked |
| AgentRefresh.SecondRefreshRestores | Automation_Naukri/job_agent.py:164-168 | a second refresh reading back the first one's headline restores the original exactly when it does not end in ".." |

## Left out

- Selenium itself: driver setup, implicit and explicit waits, `time.sleep`, scrolling and window-handle switching. Each lookup, wait and click is an input of the model, either a given result or a probe function.
- The `login()` functions and `main()` of every script, except the page loop of job_update.py's `main`, which `JobSearch.Run` models. They sequence the modelled operations, read `.env` and quit the driver.
- `debug_dump` screenshots and HTML dumps, and every `print`. Their only effect is on files and the console.
- `datetime.now().strftime("%d%b%H%M")`: the timestamp is a parameter. The stamp-shape lemmas require it to be two digits, three ASCII letters, then four digits.
- Python's `str.isdigit`, `str.lower`, `\s` and `\d` beyond ASCII. Python's `int()` also accepts non-ASCII digits; the model reads ASCII digits only.
- The general regex engine. Only the four patterns the scripts use are written out, as scanners.
- JobApply.ApplyJobs: the card list is read once. The source re-reads it on every iteration and may see a different list after navigating back; the model cannot express that.
- JobApply.LooksApplied: the "already applied" lookup uses the page's text as the string value of every element, so it approximates an XPath `//*[...]` match over the whole document by one string.
- ProfileRefresh.OpenResumeHeadlineEditor: only the `TimeoutException` of the editor wait is modelled. Other exceptions there propagate out of the function, as in the source.
- Hirist: the gating in `main` on whether the login helpers succeeded is part of `main` and is not modelled.

## Findings

| source | as written | input that shows it | evidently intended | confidence | as-written member | corrected member |
|---|---|---|---|---|---|---|
| Automation_Naukri/update_profile.py:153 | the `$`-anchored marker pattern is matched before `.rstrip()`, so trailing whitespace after an earlier marker hides it and a second marker is appended | headline "Engineer · upd 09Dec1523 " becomes "Engineer · upd 09Dec1523 · upd 10Dec0900" | the old marker is replaced, so the headline carries exactly one marker | medium (not executed) | Headline.TrailingSpaceStacksSuffix | Headline.FixedRefreshesAfterTrailingSpace |
