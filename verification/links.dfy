/**
 * Ordered de-duplication of the job links read from a listing page, as done by
 * `collect_job_links` (job_hirish.py) and the page loop of job_update.py: a link is queued when
 * its `href` attribute is present and non-empty, passes the script's filter, and has not been
 * queued before.
 */
module Links {
  import opened Wrappers
  import opened Text

  /** The link is worth queueing after `queued` has been built. */
  predicate Fresh(accept: string -> bool, href: Option<string>, queued: seq<string>) {
    href.Some? && href.value != "" && accept(href.value) && href.value !in queued
  }

  /** The queue built from the `href` attributes, in the order they were read. */
  function KeepNew(accept: string -> bool, hrefs: seq<Option<string>>): seq<string> {
    if hrefs == [] then []
    else
      var queued := KeepNew(accept, hrefs[..|hrefs| - 1]);
      var h := hrefs[|hrefs| - 1];
      if Fresh(accept, h, queued) then queued + [h.value] else queued
  }

  /** A link is queued iff some read `href` is that non-empty link and the filter accepts it. */
  lemma {:induction false} KeepNewMembers(accept: string -> bool, hrefs: seq<Option<string>>, x: string)
    ensures x in KeepNew(accept, hrefs) <==> x != "" && accept(x) && Some(x) in hrefs
  {
    if hrefs != [] {
      var init := hrefs[..|hrefs| - 1];
      KeepNewMembers(accept, init, x);
      assert hrefs == init + [hrefs[|hrefs| - 1]];
    }
  }

  /** No link is queued twice. */
  lemma {:induction false} KeepNewNoDuplicates(accept: string -> bool, hrefs: seq<Option<string>>)
    ensures NoDuplicates(KeepNew(accept, hrefs))
  {
    if hrefs != [] {
      KeepNewNoDuplicates(accept, hrefs[..|hrefs| - 1]);
    }
  }

  /** Links are queued in the order in which each was first read. */
  lemma {:induction false} KeepNewFirstSeenOrder(accept: string -> bool, hrefs: seq<Option<string>>)
    ensures var q := KeepNew(accept, hrefs);
            forall i, j :: 0 <= i < j < |q| ==>
              Some(q[i]) in hrefs && Some(q[j]) in hrefs && IndexOf(hrefs, Some(q[i])) < IndexOf(hrefs, Some(q[j]))
  {
    if hrefs != [] {
      var init := hrefs[..|hrefs| - 1];
      var last := hrefs[|hrefs| - 1];
      assert hrefs == init + [last];
      KeepNewFirstSeenOrder(accept, init);
      var q0 := KeepNew(accept, init);
      var q := KeepNew(accept, hrefs);
      forall i | 0 <= i < |q0|
        ensures Some(q0[i]) in init && IndexOf(hrefs, Some(q0[i])) == IndexOf(init, Some(q0[i]))
      {
        KeepNewMembers(accept, init, q0[i]);
        IndexOfAppend(init, last, Some(q0[i]));
      }
      if q != q0 {
        KeepNewMembers(accept, init, last.value);
        IndexOfAppend(init, last, last);
        assert q == q0 + [last.value];
      }
    }
  }
}
