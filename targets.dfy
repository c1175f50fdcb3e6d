/**
 * Target discovery: collapsing nested clickable elements
 * (`getTargetableElements` in f-to-pay-a-visit.js).
 *
 * The visible-and-clickable filter queries geometry and computed style, so
 * its result arrives as a sequence of element numbers in document order.
 * The `Set` the loop mutates keeps insertion order, which `[...elementSet]`
 * exposes; it is modelled as a sequence without duplicates.
 */
module Targets {
  import opened Wrappers
  import opened Dom

  /** How many ancestors the collapse looks at: `getNAncestors(e, 5)`. */
  const Reach: nat := 5

  predicate NoDuplicates(s: seq<nat>)
  {
    forall i, j :: 0 <= i < j < |s| ==> s[i] != s[j]
  }

  /** Every element lies in the document. */
  predicate InDocument(nodes: seq<Node>, es: seq<nat>)
  {
    forall i :: 0 <= i < |es| ==> es[i] < |nodes|
  }

  /** Document order: every element comes strictly after the ones before it. */
  predicate Increasing(es: seq<nat>)
  {
    forall i, j :: 0 <= i < j < |es| ==> es[i] < es[j]
  }

  /** An element of the document that is an `A` with a non-empty `href`. */
  predicate IsLink(nodes: seq<Node>, a: nat)
  {
    a < |nodes| && LinkWithHref(nodes[a])
  }

  /** `elementSet.add(e)`: appended unless already present. */
  function Add(kept: seq<nat>, e: nat): (r: seq<nat>)
    ensures forall x :: x in r <==> x in kept || x == e
    ensures NoDuplicates(kept) ==> NoDuplicates(r)
    ensures |r| <= |kept| + 1
  {
    if e in kept then kept else kept + [e]
  }

  /** `elementSet.delete(x)`: the others keep their order. */
  function Delete(kept: seq<nat>, x: nat): (r: seq<nat>)
    ensures forall y :: y in r <==> y in kept && y != x
    ensures NoDuplicates(kept) ==> NoDuplicates(r)
    ensures x in kept ==> |r| < |kept|
    ensures |r| <= |kept|
  {
    if kept == [] then []
    else if kept[0] == x then Delete(kept[1..], x)
    else
      var rest := Delete(kept[1..], x);
      assert NoDuplicates(kept) ==> kept[0] !in kept[1..] && NoDuplicates(kept[1..]);
      assert forall j :: 0 <= j < |rest| ==> rest[j] in kept[1..];
      [kept[0]] + rest
  }

  /** `ancestors.find((a) => elementSet.has(a))`, as the position of the first kept ancestor. */
  function Find(ancestors: seq<nat>, kept: seq<nat>): (r: Option<nat>)
    ensures r.Some? ==> r.value < |ancestors| && ancestors[r.value] in kept
    ensures r.Some? ==> forall j :: 0 <= j < r.value ==> ancestors[j] !in kept
    ensures r.None? ==> forall j :: 0 <= j < |ancestors| ==> ancestors[j] !in kept
  {
    if ancestors == [] then None
    else if ancestors[0] in kept then Some(0)
    else match Find(ancestors[1..], kept)
      case None => None
      case Some(i) => Some(i + 1)
  }

  /**
   * One round of the `forEach` over the relevant elements. The ancestors
   * come farthest first, so the kept ancestor found is the farthest one
   * within reach.
   */
  function Step(nodes: seq<Node>, kept: seq<nat>, e: nat): (r: seq<nat>)
    requires WellFormed(nodes) && e < |nodes|
    ensures NoDuplicates(kept) ==> NoDuplicates(r)
    ensures forall x :: x in r ==> x in kept || x == e
    ensures |r| <= |kept| + 1
    // no kept element among the nearest ancestors: `e` is added and nothing is dropped
    ensures (forall a :: a in NAncestors(nodes, e, Reach) ==> a !in kept) ==>
              e in r && forall x :: x in kept ==> x in r
    // the farthest kept ancestor is a link: `e` is dropped and the set is unchanged
    ensures var anc := NAncestors(nodes, e, Reach); var i := Find(anc, kept);
            i.Some? && IsLink(nodes, anc[i.value]) ==> r == kept
    // otherwise that ancestor is swapped for `e`
    ensures var anc := NAncestors(nodes, e, Reach); var i := Find(anc, kept);
            i.Some? && !IsLink(nodes, anc[i.value]) ==>
              e in r && anc[i.value] !in r &&
              forall x :: x in kept && x != anc[i.value] ==> x in r
  {
    var ancestors := NAncestors(nodes, e, Reach);
    match Find(ancestors, kept)
    case None => Add(kept, e)
    case Some(i) =>
      var a := ancestors[i];
      if IsLink(nodes, a) then kept
      else Add(Delete(kept, a), e)
  }

  /** The set after the `forEach` has seen every element of `es`, in order. */
  function CollapseAll(nodes: seq<Node>, es: seq<nat>): (r: seq<nat>)
    requires WellFormed(nodes) && InDocument(nodes, es)
    ensures NoDuplicates(r)
    ensures forall x :: x in r ==> x in es
    ensures |r| <= |es|
  {
    if es == [] then []
    else Step(nodes, CollapseAll(nodes, es[..|es| - 1]), es[|es| - 1])
  }

  /** No kept element is within `Reach` levels below another kept element. */
  predicate NoNested(nodes: seq<Node>, kept: seq<nat>)
    requires WellFormed(nodes)
  {
    forall x, y :: x in kept && y in kept && y < |nodes| ==> x !in NAncestors(nodes, y, Reach)
  }

  /** One round keeps `NoNested` when `e` comes after everything kept so far. */
  lemma StepKeepsNoNested(nodes: seq<Node>, kept: seq<nat>, e: nat)
    requires WellFormed(nodes) && e < |nodes|
    requires forall x :: x in kept ==> x < e
    requires NoNested(nodes, kept)
    ensures NoNested(nodes, Step(nodes, kept, e))
  {
    var anc := NAncestors(nodes, e, Reach);
    var found := Find(anc, kept);
    var r := Step(nodes, kept, e);
    forall x, y | x in r && y in r && y < |nodes|
      ensures x !in NAncestors(nodes, y, Reach)
    {
      if x in NAncestors(nodes, y, Reach) {
        AncestorsPrecede(nodes, y, Reach, x);
        if y == e {
          // a link ancestor drops `e`; otherwise `x` is a kept ancestor of `e` nearer than
          // the one `Find` chose, and that farther one is a kept ancestor of `x` within reach
          var j :| 0 <= j < |anc| && anc[j] == x;
          var i := found.value;
          assert !IsLink(nodes, anc[i]) && j != i;
          FartherIsAncestorOfNearer(nodes, e, Reach, i, j);
          assert false;
        }
      }
    }
  }

  /**
   * When the relevant elements come in document order, the collapsed set
   * never holds an element together with one of its five nearest ancestors:
   * a target below a kept link is dropped, and any other kept ancestor is
   * swapped for the target.
   */
  lemma {:induction false} CollapseNoNested(nodes: seq<Node>, es: seq<nat>)
    requires WellFormed(nodes) && InDocument(nodes, es)
    requires Increasing(es)
    ensures NoNested(nodes, CollapseAll(nodes, es))
  {
    if es != [] {
      var init := es[..|es| - 1];
      CollapseNoNested(nodes, init);
      forall x | x in CollapseAll(nodes, init) ensures x < es[|es| - 1] {
        var i :| 0 <= i < |init| && init[i] == x;
      }
      StepKeepsNoNested(nodes, CollapseAll(nodes, init), es[|es| - 1]);
    }
  }

  /**
   * The collapse loop of `getTargetableElements`: it walks the relevant
   * elements in order and keeps the resulting set.
   */
  method Collapse(nodes: seq<Node>, es: seq<nat>) returns (kept: seq<nat>)
    requires WellFormed(nodes) && InDocument(nodes, es)
    ensures kept == CollapseAll(nodes, es)
    ensures NoDuplicates(kept) && |kept| <= |es|
    ensures forall x :: x in kept ==> x in es
    ensures Increasing(es) ==> NoNested(nodes, kept)
  {
    kept := [];
    var i := 0;
    while i < |es|
      invariant 0 <= i <= |es|
      invariant kept == CollapseAll(nodes, es[..i])
    {
      var e := es[i];
      var ancestors := NAncestors(nodes, e, Reach);
      var found := Find(ancestors, kept);
      if found.Some? {
        var a := ancestors[found.value];
        if !IsLink(nodes, a) {
          kept := Delete(kept, a);
          kept := Add(kept, e);
        }
      } else {
        kept := Add(kept, e);
      }
      assert es[..i + 1][..i] == es[..i];
      i := i + 1;
    }
    assert es[..i] == es;
    if Increasing(es) {
      CollapseNoNested(nodes, es);
    }
  }
}
