/**
 * The filter matcher (`partition` and the buffer update of `filter` in
 * f-to-pay-a-visit.js). A tag on screen is reduced to the element it
 * labels, its name and whether it is shown.
 */
module Filter {

  /** A tag in `tagsInDom`: its `target`, `tagData.name`, and `style.display` being `''` (shown) or `"none"`. */
  datatype Tag = Tag(target: nat, name: string, shown: bool)

  /** `name.startsWith(prefix)`. */
  predicate StartsWith(name: string, prefix: string)
  {
    |prefix| <= |name| && name[..|prefix|] == prefix
  }

  /** `arr.filter(p)`. */
  function Keep<T(!new)>(arr: seq<T>, p: T -> bool): (r: seq<T>)
    ensures |r| <= |arr|
    ensures forall x :: x in r ==> x in arr && p(x)
    ensures forall x :: x in arr && p(x) ==> x in r
    decreases |arr|
  {
    if arr == [] then []
    else if p(arr[|arr| - 1]) then Keep(arr[..|arr| - 1], p) + [arr[|arr| - 1]]
    else Keep(arr[..|arr| - 1], p)
  }

  /** `arr.filter` keeps the order: filtering a concatenation filters each part. */
  lemma {:induction false} KeepAppend<T(!new)>(a: seq<T>, b: seq<T>, p: T -> bool)
    ensures Keep(a + b, p) == Keep(a, p) + Keep(b, p)
    decreases |b|
  {
    if b == [] {
      assert a + b == a;
    } else {
      var last := b[|b| - 1];
      assert (a + b)[..|a + b| - 1] == a + b[..|b| - 1];
      KeepAppend(a, b[..|b| - 1], p);
    }
  }

  /** A single element is kept exactly when it satisfies the predicate. */
  lemma KeepSingle<T(!new)>(x: T, p: T -> bool)
    ensures Keep([x], p) == if p(x) then [x] else []
  {
    assert [x][..0] == [];
  }

  function Not<T>(p: T -> bool): T -> bool
  {
    x => !p(x)
  }

  /** `partition(arr, p)`: the elements that satisfy `p` and those that do not. */
  function Partition<T(!new)>(arr: seq<T>, p: T -> bool): (r: (seq<T>, seq<T>))
    ensures forall x :: x in r.0 <==> x in arr && p(x)
    ensures forall x :: x in r.1 <==> x in arr && !p(x)
  {
    (Keep(arr, p), Keep(arr, Not(p)))
  }

  /** Together the two parts hold every element of `arr` exactly once. */
  lemma {:induction false} PartitionPermutes<T(!new)>(arr: seq<T>, p: T -> bool)
    ensures multiset(Partition(arr, p).0) + multiset(Partition(arr, p).1) == multiset(arr)
    ensures |Partition(arr, p).0| + |Partition(arr, p).1| == |arr|
    decreases |arr|
  {
    if arr != [] {
      var init, last := arr[..|arr| - 1], arr[|arr| - 1];
      PartitionPermutes(init, p);
      assert arr == init + [last];
    }
  }

  /** The tags whose name starts with `prefix`. */
  function Matching(prefix: string): Tag -> bool
  {
    (tag: Tag) => StartsWith(tag.name, prefix)
  }

  /** `key.toUpperCase()` on ASCII letters; every other character is kept. */
  function Upper(key: string): (r: string)
    ensures |r| == |key|
    ensures forall i :: 0 <= i < |r| ==> !('a' <= r[i] <= 'z')
    ensures forall i :: 0 <= i < |r| ==> ('a' <= key[i] <= 'z' ==> r[i] as int == key[i] as int - 32)
    ensures forall i :: 0 <= i < |r| ==> (!('a' <= key[i] <= 'z') ==> r[i] == key[i])
  {
    seq(|key|, i requires 0 <= i < |key| =>
      if 'a' <= key[i] <= 'z' then (key[i] as int - 32) as char else key[i])
  }

  /** Upper-casing twice is upper-casing once. */
  lemma UpperIdempotent(key: string)
    ensures Upper(Upper(key)) == Upper(key)
  {
  }

  /**
   * The update of `filterString` by `filter`: `Backspace` drops the last
   * character (`slice(0, -1)`, nothing on an empty string); any other key
   * appends its upper-cased `event.key`.
   */
  function Edit(filterString: string, key: string): (r: string)
    ensures key == "Backspace" && filterString == "" ==> r == ""
    ensures key == "Backspace" && filterString != "" ==> r + [filterString[|filterString| - 1]] == filterString
    ensures key != "Backspace" ==> |r| == |filterString| + |key| && r[..|filterString|] == filterString && r[|filterString|..] == Upper(key)
  {
    if key == "Backspace" then
      if filterString == "" then filterString else filterString[..|filterString| - 1]
    else filterString + Upper(key)
  }

  /** A one-character key followed by `Backspace` restores the filter string. */
  lemma TypeThenErase(filterString: string, key: string)
    requires |key| == 1
    ensures Edit(Edit(filterString, key), "Backspace") == filterString
  {
    assert key != "Backspace";
    var typed := Edit(filterString, key);
    assert typed == filterString + Upper(key);
  }

  /** A longer prefix matches fewer names: every name it matches, the shorter one matches too. */
  lemma NarrowingPrefix(name: string, prefix: string, more: string)
    requires StartsWith(name, prefix + more)
    ensures StartsWith(name, prefix)
  {
    assert name[..|prefix|] == (name[..|prefix + more|])[..|prefix|];
  }

  /** A predicate that implies another keeps no more elements than it. */
  lemma {:induction false} KeepMono<T(!new)>(arr: seq<T>, p: T -> bool, q: T -> bool)
    requires forall x :: p(x) ==> q(x)
    ensures |Keep(arr, p)| <= |Keep(arr, q)|
    decreases |arr|
  {
    if arr != [] {
      KeepMono(arr[..|arr| - 1], p, q);
    }
  }

  /**
   * Typing a key never adds to the matches: they stay among the matches of
   * the shorter filter string, and there are never more of them.
   */
  lemma TypingNarrows(tags: seq<Tag>, filterString: string, key: string)
    requires key != "Backspace"
    ensures forall t :: t in Partition(tags, Matching(Edit(filterString, key))).0 ==>
              t in Partition(tags, Matching(filterString)).0
    ensures |Partition(tags, Matching(Edit(filterString, key))).0| <= |Partition(tags, Matching(filterString)).0|
  {
    forall t: Tag | Matching(Edit(filterString, key))(t)
      ensures Matching(filterString)(t)
    {
      NarrowingPrefix(t.name, filterString, Upper(key));
    }
    KeepMono(tags, Matching(Edit(filterString, key)), Matching(filterString));
  }

  /** Every name starts with the empty filter string: after erasing everything all tags match. */
  lemma EmptyMatchesAll(tags: seq<Tag>)
    ensures Partition(tags, Matching("")).0 == tags
  {
    var all := Partition(tags, Matching(""));
    KeepAllWhenAllMatch(tags, Matching(""));
  }

  lemma {:induction false} KeepAllWhenAllMatch<T(!new)>(arr: seq<T>, p: T -> bool)
    requires forall x :: x in arr ==> p(x)
    ensures Keep(arr, p) == arr
    decreases |arr|
  {
    if arr != [] {
      KeepAllWhenAllMatch(arr[..|arr| - 1], p);
    }
  }

  /**
   * The display update of `filter` with several matches: the `rest` tags
   * are hidden, the matches are shown, and nothing else about a tag changes.
   */
  function Shade(tags: seq<Tag>, prefix: string): (r: seq<Tag>)
    ensures |r| == |tags|
    ensures forall i :: 0 <= i < |r| ==>
              r[i].target == tags[i].target && r[i].name == tags[i].name &&
              (r[i].shown <==> tags[i] in Partition(tags, Matching(prefix)).0)
  {
    seq(|tags|, i requires 0 <= i < |tags| => tags[i].(shown := StartsWith(tags[i].name, prefix)))
  }
}
