/** The two patterns all five adapters share: the selector fallback chain
    (an ordered list of selectors, the first that succeeds wins, exhaustion
    means "absent") and the result loop that stops emitting after ten
    listings. */
module Chains {
  import opened Types
  import opened Text
  import opened Browser

  /** The cap every adapter's `if (results.length >= 10) return;` enforces. */
  const MaxResults: nat := 10

  /** The position of the first entry that passes `ok`. */
  function FirstIndex<T>(xs: seq<T>, ok: T -> bool): (k: Option<nat>)
    ensures k.Some? ==> k.value < |xs| && ok(xs[k.value])
    ensures k.Some? ==> forall j :: 0 <= j < k.value ==> !ok(xs[j])
    ensures k.None? ==> forall j :: 0 <= j < |xs| ==> !ok(xs[j])
  {
    if xs == [] then None
    else if ok(xs[0]) then Some(0)
    else match FirstIndex(xs[1..], ok)
      case None => None
      case Some(k) => Some(k + 1)
  }

  /** The first index is the one that passes with nothing passing before it. */
  lemma {:induction false} FirstIndexIs<T>(xs: seq<T>, ok: T -> bool, k: nat)
    requires k < |xs| && ok(xs[k])
    requires forall j :: 0 <= j < k ==> !ok(xs[j])
    ensures FirstIndex(xs, ok) == Some(k)
  {
    if k > 0 {
      assert !ok(xs[0]);
      assert forall j :: 0 <= j < k - 1 ==> xs[1..][j] == xs[j + 1];
      FirstIndexIs(xs[1..], ok, k - 1);
    }
  }

  /** The `for (const selector of ...) { ... break; }` loop: tries the entries
      in order, stops at the first that passes, and reports how many it tried,
      so later entries are never tried once one has succeeded. */
  method FindFirst<T>(xs: seq<T>, ok: T -> bool) returns (k: Option<nat>, tried: nat)
    ensures k == FirstIndex(xs, ok)
    ensures tried == if k.Some? then k.value + 1 else |xs|
  {
    k, tried := None, |xs|;
    for i := 0 to |xs|
      invariant forall j :: 0 <= j < i ==> !ok(xs[j])
    {
      if ok(xs[i]) {
        k, tried := Some(i), i + 1;
        break;
      }
    }
  }

  /** The selector is present inside the element and its node passes the test. */
  predicate Accepted(el: Element, sel: string, accept: Node -> bool) {
    el.Query(sel).Some? && accept(el.Query(sel).value)
  }

  function AcceptedBy(el: Element, accept: Node -> bool): string -> bool {
    sel => Accepted(el, sel, accept)
  }

  /** A per-field selector chain: the node of the first selector, in listed
      order, that is present and passes the test; None when none does. */
  function FirstMatch(el: Element, sels: seq<string>, accept: Node -> bool): (r: Option<Node>)
    ensures r.Some? <==> exists k :: 0 <= k < |sels| && Accepted(el, sels[k], accept)
    ensures r.Some? ==> accept(r.value)
    ensures r.Some? ==> exists k :: 0 <= k < |sels| && el.Query(sels[k]) == r
                                   && (forall j :: 0 <= j < k ==> !Accepted(el, sels[j], accept))
  {
    match FirstIndex(sels, AcceptedBy(el, accept))
    case None => None
    case Some(k) => el.Query(sels[k])
  }

  /** Running a field chain in the page. */
  method MatchFirst(el: Element, sels: seq<string>, accept: Node -> bool) returns (r: Option<Node>)
    ensures r == FirstMatch(el, sels, accept)
  {
    var k, _ := FindFirst(sels, AcceptedBy(el, accept));
    r := if k.Some? then el.Query(sels[k.value]) else None;
  }

  /** The tests the chains apply to a node. */
  predicate HasTrimmedText(n: Node) {
    Trim(n.text) != ""
  }

  predicate HasText(n: Node) {
    n.text != ""
  }

  predicate HasHref(n: Node) {
    n.href != ""
  }

  /** The listings the per-element step yields over the elements, in
      document order, skipping elements it rejects (or that threw). */
  function Kept<E>(els: seq<E>, item: E -> Option<Listing>): (r: seq<Listing>)
    ensures |r| <= |els|
    ensures forall l :: l in r ==> exists e :: e in els && item(e) == Some(l)
  {
    if els == [] then []
    else
      var last := els[|els| - 1];
      var r := Kept(els[..|els| - 1], item) + (if item(last).Some? then [item(last).value] else []);
      assert forall e :: e in els[..|els| - 1] ==> e in els;
      r
  }

  /** The first ten of what the loop would emit without the cap. */
  function Capped(xs: seq<Listing>): (r: seq<Listing>)
    ensures |r| <= MaxResults && |r| <= |xs| && r == xs[..|r|]
    ensures |r| == MaxResults || r == xs
  {
    if |xs| <= MaxResults then xs else xs[..MaxResults]
  }

  /** One more element through the capped loop: a listing is appended only
      while fewer than ten have been collected. */
  lemma CappedStep<E>(els: seq<E>, i: nat, item: E -> Option<Listing>)
    requires i < |els|
    ensures Capped(Kept(els[..i + 1], item))
         == if |Capped(Kept(els[..i], item))| >= MaxResults || item(els[i]).None?
            then Capped(Kept(els[..i], item))
            else Capped(Kept(els[..i], item)) + [item(els[i]).value]
  {
    assert els[..i + 1][..i] == els[..i];
  }

  /** The `elements.forEach` loop: an element is looked at only while fewer
      than ten listings have been collected, and what it yields is appended. */
  method Collect<E>(els: seq<E>, item: E -> Option<Listing>) returns (results: seq<Listing>)
    ensures results == Capped(Kept(els, item))
  {
    results := [];
    for i := 0 to |els|
      invariant results == Capped(Kept(els[..i], item))
    {
      CappedStep(els, i, item);
      if |results| >= MaxResults {
        continue;
      }
      var found := item(els[i]);
      if found.Some? {
        results := results + [found.value];
      }
    }
    assert els[..|els|] == els;
  }

  /** Every emitted listing satisfies what every emitted item satisfies. */
  lemma KeptAll<E>(els: seq<E>, item: E -> Option<Listing>, good: Listing -> bool)
    requires forall e :: item(e).Some? ==> good(item(e).value)
    ensures forall l :: l in Capped(Kept(els, item)) ==> good(l)
  {
    forall l | l in Capped(Kept(els, item)) ensures good(l) {
      var r := Capped(Kept(els, item));
      assert l in Kept(els, item) by {
        var i :| 0 <= i < |r| && r[i] == l;
        assert Kept(els, item)[i] == l;
      }
      var e :| e in els && item(e) == Some(l);
    }
  }
}
