/**
 * The ordered fallback element lookup used throughout the scripts: a list of XPath strategies is
 * tried in order, a strategy that raises is skipped, and the first one that yields an element
 * wins. The page is replaced by a probe that answers each XPath with the element found, or None
 * where `find_element` (or the scroll into view that follows it) raises.
 */
module Locator {
  import opened Wrappers

  type XPath = string

  /** An opaque handle to a DOM node. */
  datatype Element = Element(handle: nat)

  /** An element together with the index of the strategy that found it. */
  datatype Resolved<E> = Resolved(elem: E, strategy: nat)

  /** The index of the first successful strategy, or None when every strategy failed. */
  function FirstSuccess<T>(results: seq<Option<T>>): (r: Option<nat>)
    ensures r.Some? ==> r.value < |results| && results[r.value].Some?
    ensures r.Some? ==> forall j :: 0 <= j < r.value ==> results[j].None?
    ensures r.None? <==> forall j :: 0 <= j < |results| ==> results[j].None?
  {
    if |results| == 0 then None
    else if results[0].Some? then Some(0)
    else match FirstSuccess(results[1..])
      case None => None
      case Some(i) => Some(i + 1)
  }

  /** Searching a list made of two lists tries all of the first before any of the second. */
  lemma {:induction false} FirstSuccessAppend<T>(a: seq<Option<T>>, b: seq<Option<T>>)
    ensures FirstSuccess(a + b) ==
              if FirstSuccess(a).Some? then FirstSuccess(a)
              else if FirstSuccess(b).Some? then Some(|a| + FirstSuccess(b).value)
              else None
  {
    var r := FirstSuccess(a + b);
    if FirstSuccess(a).Some? {
      var i := FirstSuccess(a).value;
      assert (a + b)[i] == a[i];
    } else if FirstSuccess(b).Some? {
      var i := FirstSuccess(b).value;
      assert (a + b)[|a| + i] == b[i];
      assert forall j :: 0 <= j < |a| ==> (a + b)[j] == a[j];
      assert forall j :: 0 <= j < i ==> (a + b)[|a| + j] == b[j];
    } else {
      assert forall j :: 0 <= j < |a + b| ==> (a + b)[j] == if j < |a| then a[j] else b[j - |a|];
    }
  }

  /** What the page answers for each strategy of the list. */
  function Probes<E>(probe: XPath -> Option<E>, xpaths: seq<XPath>): (r: seq<Option<E>>)
    ensures |r| == |xpaths|
    ensures forall i :: 0 <= i < |xpaths| ==> r[i] == probe(xpaths[i])
  {
    seq(|xpaths|, i requires 0 <= i < |xpaths| => probe(xpaths[i]))
  }

  lemma ProbesAppend<E>(probe: XPath -> Option<E>, a: seq<XPath>, b: seq<XPath>)
    ensures Probes(probe, a + b) == Probes(probe, a) + Probes(probe, b)
  {
  }

  /** The element the fallback chain resolves to. */
  function Resolve<E>(probe: XPath -> Option<E>, xpaths: seq<XPath>): Option<Resolved<E>> {
    match FirstSuccess(Probes(probe, xpaths))
    case None => None
    case Some(i) => Some(Resolved(probe(xpaths[i]).value, i))
  }

  /** The element alone, as the `find_*` helpers return it: the first strategy's element, or
      None exactly when every strategy failed. */
  function Found<E>(probe: XPath -> Option<E>, xpaths: seq<XPath>): (r: Option<E>)
    ensures r.None? <==> forall j :: 0 <= j < |xpaths| ==> probe(xpaths[j]).None?
    ensures r.Some? ==> exists i :: 0 <= i < |xpaths| && probe(xpaths[i]) == r
                                    && forall j :: 0 <= j < i ==> probe(xpaths[j]).None?
  {
    match Resolve(probe, xpaths)
    case None => None
    case Some(h) => Some(h.elem)
  }

  /**
   * The lookup loop: `for xp in xpaths: try: return find(xp) except: continue`, then None.
   * It returns the element of the first strategy that succeeds, tagged with that strategy.
   */
  method FirstHit<E>(probe: XPath -> Option<E>, xpaths: seq<XPath>) returns (hit: Option<Resolved<E>>)
    ensures hit == Resolve(probe, xpaths)
    ensures hit.Some? ==> hit.value.strategy < |xpaths|
                          && probe(xpaths[hit.value.strategy]) == Some(hit.value.elem)
                          && forall j :: 0 <= j < hit.value.strategy ==> probe(xpaths[j]).None?
    ensures hit.None? <==> forall j :: 0 <= j < |xpaths| ==> probe(xpaths[j]).None?
  {
    for i := 0 to |xpaths|
      invariant forall j :: 0 <= j < i ==> probe(xpaths[j]).None?
    {
      var found := probe(xpaths[i]);
      if found.Some? {
        assert FirstSuccess(Probes(probe, xpaths)) == Some(i);
        return Some(Resolved(found.value, i));
      }
    }
    return None;
  }
}
