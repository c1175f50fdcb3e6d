/**
 * The document as the core sees it: elements numbered in document order
 * (the order of `document.getElementsByTagName('*')`), each with its parent
 * and the attributes the core reads. Because a parent precedes its
 * children in document order, every parent index is below its child's.
 */
module Dom {
  import opened Wrappers

  /** One element: `parentElement` (absent at the root), `tagName`, `href` and the `contenteditable` attribute. */
  datatype Node = Node(parent: Option<nat>, tagName: string, href: string, contentEditable: Option<string>)

  /** Parents come before their children. */
  predicate WellFormed(nodes: seq<Node>)
  {
    forall e :: 0 <= e < |nodes| && nodes[e].parent.Some? ==> nodes[e].parent.value < e
  }

  /** The ancestor `k` levels above `e` (`e` itself for `k == 0`), if the tree is that deep. */
  function Up(nodes: seq<Node>, e: nat, k: nat): (r: Option<nat>)
    requires WellFormed(nodes) && e < |nodes|
    ensures r.Some? ==> r.value <= e
    ensures r.Some? && k > 0 ==> r.value < e
    decreases k
  {
    if k == 0 then Some(e)
    else match nodes[e].parent
      case None => None
      case Some(p) => Up(nodes, p, k - 1)
  }

  /** Going up `i` levels and then `j` more is going up `i + j` levels. */
  lemma {:induction false} UpUp(nodes: seq<Node>, e: nat, i: nat, j: nat)
    requires WellFormed(nodes) && e < |nodes|
    requires Up(nodes, e, i).Some?
    ensures Up(nodes, Up(nodes, e, i).value, j) == Up(nodes, e, i + j)
    decreases i
  {
    if i > 0 {
      UpUp(nodes, nodes[e].parent.value, i - 1, j);
    }
  }

  /** Past the root there is nothing: no ancestor at a level means none above it either. */
  lemma {:induction false} UpPastRoot(nodes: seq<Node>, e: nat, i: nat, j: nat)
    requires WellFormed(nodes) && e < |nodes|
    requires i <= j && Up(nodes, e, i).None?
    ensures Up(nodes, e, j).None?
    decreases i
  {
    if nodes[e].parent.Some? {
      UpPastRoot(nodes, nodes[e].parent.value, i - 1, j - 1);
    }
  }

  /**
   * `getNAncestors(e, n)`: at most `n` proper ancestors of `e`, farthest
   * first, so that the last one is `e`'s parent. It stops early only at the
   * root.
   */
  function NAncestors(nodes: seq<Node>, e: nat, n: nat): (r: seq<nat>)
    requires WellFormed(nodes) && e < |nodes|
    ensures |r| <= n
    ensures forall i :: 0 <= i < |r| ==> Up(nodes, e, |r| - i) == Some(r[i])
    ensures |r| < n ==> Up(nodes, e, |r| + 1).None?
    ensures r != [] ==> nodes[e].parent == Some(r[|r| - 1])
    ensures r == [] && n > 0 ==> nodes[e].parent.None?
    decreases n
  {
    if n == 0 then []
    else match nodes[e].parent
      case None => []
      case Some(p) => NAncestors(nodes, p, n - 1) + [p]
  }

  /** Every element `NAncestors` returns is a proper ancestor, so it precedes `e`. */
  lemma AncestorsPrecede(nodes: seq<Node>, e: nat, n: nat, a: nat)
    requires WellFormed(nodes) && e < |nodes|
    requires a in NAncestors(nodes, e, n)
    ensures a < e
  {
    var r := NAncestors(nodes, e, n);
    var i :| 0 <= i < |r| && r[i] == a;
    assert Up(nodes, e, |r| - i) == Some(a);
  }

  /** Any ancestor at most `n` levels up is among the `n` nearest ones. */
  lemma AncestorWithin(nodes: seq<Node>, e: nat, n: nat, k: nat)
    requires WellFormed(nodes) && e < |nodes|
    requires 1 <= k <= n && Up(nodes, e, k).Some?
    ensures Up(nodes, e, k).value in NAncestors(nodes, e, n)
  {
    var r := NAncestors(nodes, e, n);
    if |r| < k {
      UpPastRoot(nodes, e, |r| + 1, k);
    }
    assert Up(nodes, e, |r| - (|r| - k)) == Some(r[|r| - k]);
  }

  /** The entry at position `i` lies `|r| - i` levels up. */
  lemma AncestorAt(nodes: seq<Node>, e: nat, n: nat, i: nat)
    requires WellFormed(nodes) && e < |nodes|
    requires i < |NAncestors(nodes, e, n)|
    ensures var r := NAncestors(nodes, e, n); Up(nodes, e, |r| - i) == Some(r[i]) && r[i] < e
  {
  }

  /** In a list of nearest ancestors, the farther entry `i` lies `j - i` levels above the nearer entry `j`. */
  lemma UpBetween(nodes: seq<Node>, e: nat, n: nat, i: nat, j: nat)
    requires WellFormed(nodes) && e < |nodes|
    requires i < j < |NAncestors(nodes, e, n)|
    ensures var r := NAncestors(nodes, e, n); r[j] < |nodes| && Up(nodes, r[j], j - i) == Some(r[i])
  {
    var r := NAncestors(nodes, e, n);
    AncestorAt(nodes, e, n, j);
    AncestorAt(nodes, e, n, i);
    UpUp(nodes, e, |r| - j, j - i);
  }

  /**
   * In a list of nearest ancestors, a farther one is within the same number
   * of levels of a nearer one.
   */
  lemma FartherIsAncestorOfNearer(nodes: seq<Node>, e: nat, n: nat, i: nat, j: nat)
    requires WellFormed(nodes) && e < |nodes|
    requires i < j < |NAncestors(nodes, e, n)|
    ensures NAncestors(nodes, e, n)[j] < |nodes|
    ensures NAncestors(nodes, e, n)[i] in NAncestors(nodes, NAncestors(nodes, e, n)[j], n)
  {
    var r := NAncestors(nodes, e, n);
    UpBetween(nodes, e, n, i, j);
    AncestorWithin(nodes, r[j], n, j - i);
  }

  /** The `contenteditable` attribute turns editing on: it is `''` or `'true'`. */
  predicate EditableAttribute(node: Node)
  {
    node.contentEditable == Some("") || node.contentEditable == Some("true")
  }

  /** The ancestor (or `e` itself, for `k == 0`) `k` levels up exists and turns editing on. */
  predicate EditableAt(nodes: seq<Node>, e: nat, k: nat)
    requires WellFormed(nodes) && e < |nodes|
  {
    var a := Up(nodes, e, k);
    a.Some? && a.value < |nodes| && EditableAttribute(nodes[a.value])
  }

  /** A root whose own attribute does not turn editing on is not editable at any level. */
  lemma RootNotEditable(nodes: seq<Node>, e: nat)
    requires WellFormed(nodes) && e < |nodes|
    requires nodes[e].parent.None? && !EditableAttribute(nodes[e])
    ensures forall k: nat :: !EditableAt(nodes, e, k)
  {
    forall k: nat ensures !EditableAt(nodes, e, k) {
      if k > 0 { assert Up(nodes, e, k).None?; }
    }
  }

  /** When `e`'s own attribute does not turn editing on, it is on for `e` exactly when it is on for its parent. */
  lemma EditableThroughParent(nodes: seq<Node>, e: nat, p: nat)
    requires WellFormed(nodes) && e < |nodes|
    requires nodes[e].parent == Some(p) && !EditableAttribute(nodes[e])
    ensures p < |nodes|
    ensures (exists k: nat :: EditableAt(nodes, e, k)) <==> (exists k: nat :: EditableAt(nodes, p, k))
  {
    if exists k: nat :: EditableAt(nodes, p, k) {
      var k: nat :| EditableAt(nodes, p, k);
      assert Up(nodes, e, k + 1) == Up(nodes, p, k);
      assert EditableAt(nodes, e, k + 1);
    }
    if exists k: nat :: EditableAt(nodes, e, k) {
      var k: nat :| EditableAt(nodes, e, k);
      assert k > 0;
      assert Up(nodes, e, k) == Up(nodes, p, k - 1);
      assert EditableAt(nodes, p, k - 1);
    }
  }

  /**
   * `isContentEditable(element)`: the recursion up the parent chain holds
   * exactly when some element on the path to the root, the element itself
   * included, has `contenteditable` equal to `''` or `'true'`.
   */
  function IsContentEditable(nodes: seq<Node>, e: nat): (r: bool)
    requires WellFormed(nodes) && e < |nodes|
    ensures r <==> exists k: nat :: EditableAt(nodes, e, k)
    decreases e
  {
    if EditableAttribute(nodes[e]) then
      assert EditableAt(nodes, e, 0);
      true
    else match nodes[e].parent
      case None =>
        RootNotEditable(nodes, e);
        false
      case Some(p) =>
        EditableThroughParent(nodes, e, p);
        IsContentEditable(nodes, p)
  }

  /** `isInputElement(element)`: an INPUT or TEXTAREA, or inside an editable region. */
  function IsInputElement(nodes: seq<Node>, e: nat): (r: bool)
    requires WellFormed(nodes) && e < |nodes|
    ensures r <==> nodes[e].tagName in {"INPUT", "TEXTAREA"} || exists k: nat :: EditableAt(nodes, e, k)
  {
    nodes[e].tagName in {"INPUT", "TEXTAREA"} || IsContentEditable(nodes, e)
  }

  /** `tagName === 'A' && href`: a hyperlink with a non-empty address. */
  predicate LinkWithHref(node: Node)
  {
    node.tagName == "A" && node.href != ""
  }
}
