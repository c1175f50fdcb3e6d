/**
 * Label generation (`generateIdxes` in f-to-pay-a-visit.js): every string
 * of one width over the label alphabet, produced breadth first through a
 * queue.
 */
module Labels {

  /** `b ** n` */
  function Pow(b: nat, n: nat): (r: nat)
    ensures b >= 1 ==> r >= 1
    ensures b >= 2 && n >= 1 ==> r >= b
  {
    if n == 0 then 1 else b * Pow(b, n - 1)
  }

  /** Each extra letter of width at least doubles the number of strings. */
  lemma PowDoubles(b: nat, n: nat)
    requires b >= 2
    ensures Pow(b, n + 1) >= 2 * Pow(b, n)
  {
    var p := Pow(b, n);
    assert (b - 2) * p >= 0;
    assert b * p == 2 * p + (b - 2) * p;
  }

  /** The search for the width, starting at `w`. */
  function WidthFrom(count: nat, base: nat, w: nat): (r: nat)
    requires base >= 2 && w >= 1
    requires w == 1 || Pow(base, w - 1) < count
    ensures r >= w
    ensures count <= Pow(base, r)
    ensures r == 1 || Pow(base, r - 1) < count
    decreases count - Pow(base, w)
  {
    if count <= Pow(base, w) then w
    else
      PowDoubles(base, w);
      WidthFrom(count, base, w + 1)
  }

  /**
   * `Math.max(1, Math.ceil(Math.log2(count) / Math.log2(base)))` in exact
   * arithmetic: the least width of at least one whose `base ** width`
   * strings are enough for `count` targets.
   */
  function Width(count: nat, base: nat): (w: nat)
    requires base >= 2
    ensures w >= 1
    ensures count <= Pow(base, w)
    ensures w == 1 || Pow(base, w - 1) < count
  {
    WidthFrom(count, base, 1)
  }

  /** No more targets than letters: labels are one letter wide. */
  lemma SmallCountWidthOne(count: nat, base: nat)
    requires base >= 2 && count <= base
    ensures Width(count, base) == 1
  {
  }

  /** One more target than letters needs two letters. */
  lemma OneMoreThanBaseWidthTwo(base: nat)
    requires base >= 2
    ensures Width(base + 1, base) == 2
  {
  }

  lemma MulMono(a: nat, b: nat, L: nat)
    requires a <= b
    ensures a * L <= b * L
  {
  }

  /** Division by `L` splits a number below `P * L` into a quotient below `P` and a remainder. */
  lemma DivideBelow(i: nat, L: nat, P: nat)
    requires L >= 1 && i < P * L
    ensures i / L < P && i % L < L && i == (i / L) * L + i % L
  {
    if i / L >= P {
      assert false;
    }
  }

  /** `q * L + m` with `m < L` has quotient `q` and remainder `m`. */
  lemma DivideExact(q: nat, m: nat, L: nat)
    requires m < L
    ensures (q * L + m) / L == q && (q * L + m) % L == m
  {
    DivideBelow(q * L + m, L, q + 1);
    var t := q * L + m;
    if t / L < q {
      MulMono(t / L + 1, q, L);
    } else if t / L > q {
      MulMono(q + 1, t / L, L);
    }
  }

  /** Division by `L` keeps the order of numbers; equal quotients leave it to the remainders. */
  lemma DivideOrdered(i: nat, j: nat, L: nat)
    requires L >= 1 && i < j
    ensures i / L <= j / L
    ensures i / L == j / L ==> i % L < j % L
  {
    DivideBelow(i, L, i / L + 1);
    DivideBelow(j, L, j / L + 1);
    if j / L < i / L {
      MulMono(j / L + 1, i / L, L);
    }
  }

  /** The strings `s + l` for every letter `l`, in letter order. */
  function Children(s: string, letters: seq<char>): (r: seq<string>)
    ensures |r| == |letters|
    ensures forall m :: 0 <= m < |letters| ==> r[m] == s + [letters[m]]
  {
    seq(|letters|, m requires 0 <= m < |letters| => s + [letters[m]])
  }

  /**
   * The children of every string of `ws`, in the order of `ws`: entry `t`
   * extends string `t / |letters|` with letter `t % |letters|`.
   */
  function Expand(ws: seq<string>, letters: seq<char>): (r: seq<string>)
    requires |letters| >= 1
    ensures |r| == |ws| * |letters|
  {
    seq(|ws| * |letters|, t requires 0 <= t < |ws| * |letters| =>
      DivideBelow(t, |letters|, |ws|);
      ws[t / |letters|] + [letters[t % |letters|]])
  }

  /** Entry `t` of the expansion of `ws + [s]`. */
  lemma ExpandSnocAt(ws: seq<string>, s: string, letters: seq<char>, t: nat)
    requires |letters| >= 1 && t < (|ws| + 1) * |letters|
    ensures t < |Expand(ws + [s], letters)|
    ensures t < |ws| * |letters| ==> Expand(ws + [s], letters)[t] == Expand(ws, letters)[t]
    ensures t >= |ws| * |letters| ==> Expand(ws + [s], letters)[t] == s + [letters[t - |ws| * |letters|]]
  {
    var L := |letters|;
    DivideBelow(t, L, |ws| + 1);
    if t < |ws| * L {
      DivideBelow(t, L, |ws|);
    } else {
      DivideExact(|ws|, t - |ws| * L, L);
    }
  }

  /** Expanding one more string appends its children: the queue's order. */
  lemma ExpandSnoc(ws: seq<string>, s: string, letters: seq<char>)
    requires |letters| >= 1
    ensures Expand(ws + [s], letters) == Expand(ws, letters) + Children(s, letters)
  {
    var L := |letters|;
    var a, b := Expand(ws + [s], letters), Expand(ws, letters) + Children(s, letters);
    assert (|ws| + 1) * L == |ws| * L + L;
    forall t | 0 <= t < |a| ensures a[t] == b[t] {
      ExpandSnocAt(ws, s, letters, t);
    }
  }

  /** All strings of length `n` over `letters`, in the order the queue produces them. */
  function Words(letters: seq<char>, n: nat): seq<string>
    requires |letters| >= 1
  {
    if n == 0 then [""] else Expand(Words(letters, n - 1), letters)
  }

  /** There are `|letters| ** n` strings of width `n`. */
  lemma {:induction false} WordsCount(letters: seq<char>, n: nat)
    requires |letters| >= 1
    ensures |Words(letters, n)| == Pow(|letters|, n)
  {
    if n > 0 {
      WordsCount(letters, n - 1);
      assert |Words(letters, n)| == Pow(|letters|, n - 1) * |letters|;
    }
  }

  /** The `n` digits of `i` in base `base`, most significant first (`i` taken modulo `base ** n`). */
  function Digits(base: nat, i: nat, n: nat): (r: seq<nat>)
    requires base >= 1
    ensures |r| == n
    ensures forall k :: 0 <= k < n ==> r[k] < base
    decreases n
  {
    if n == 0 then [] else Digits(base, i / base, n - 1) + [i % base]
  }

  /** The letters at the given positions. */
  function Spell(letters: seq<char>, positions: seq<nat>): (r: string)
    requires forall k :: 0 <= k < |positions| ==> positions[k] < |letters|
    ensures |r| == |positions|
    ensures forall k :: 0 <= k < |positions| ==> r[k] == letters[positions[k]]
  {
    seq(|positions|, k requires 0 <= k < |positions| => letters[positions[k]])
  }

  /**
   * The `i`-th string of width `n` is `i` written with `n` digits in base
   * `|letters|`, each digit spelled by the letter at that position.
   */
  lemma {:induction false} WordIsNumeral(letters: seq<char>, n: nat, i: nat)
    requires |letters| >= 1
    requires i < |Words(letters, n)|
    ensures Words(letters, n)[i] == Spell(letters, Digits(|letters|, i, n))
    decreases n
  {
    if n > 0 {
      var L := |letters|;
      DivideBelow(i, L, |Words(letters, n - 1)|);
      WordIsNumeral(letters, n - 1, i / L);
      assert Spell(letters, Digits(L, i, n)) == Spell(letters, Digits(L, i / L, n - 1)) + [letters[i % L]];
    }
  }

  /** `a` precedes `b` lexicographically. */
  predicate LexLess(a: seq<nat>, b: seq<nat>)
  {
    exists k :: 0 <= k < |a| && k < |b| && a[..k] == b[..k] && a[k] < b[k]
  }

  /** Sequences that agree up to their last element are ordered by it. */
  lemma LexLessLast(d: seq<nat>, x: nat, y: nat)
    requires x < y
    ensures LexLess(d + [x], d + [y])
  {
    assert (d + [x])[..|d|] == d == (d + [y])[..|d|];
  }

  /** Appending to two ordered sequences of one length keeps them ordered. */
  lemma LexLessSnoc(da: seq<nat>, db: seq<nat>, x: nat, y: nat)
    requires |da| == |db| && LexLess(da, db)
    ensures LexLess(da + [x], db + [y])
  {
    var k :| 0 <= k < |da| && k < |db| && da[..k] == db[..k] && da[k] < db[k];
    assert (da + [x])[..k] == da[..k] && (db + [y])[..k] == db[..k];
  }

  /** Dropping the last digit of a number below `base ** n` leaves one below `base ** (n - 1)`. */
  lemma QuotientBelow(base: nat, n: nat, j: nat)
    requires base >= 1 && n >= 1 && j < Pow(base, n)
    ensures j / base < Pow(base, n - 1)
  {
    assert Pow(base, n) == Pow(base, n - 1) * base;
    DivideBelow(j, base, Pow(base, n - 1));
  }

  /** Smaller numbers have lexicographically smaller digit sequences. */
  lemma {:induction false} DigitsOrdered(base: nat, i: nat, j: nat, n: nat)
    requires base >= 1 && i < j < Pow(base, n)
    ensures LexLess(Digits(base, i, n), Digits(base, j, n))
    decreases n
  {
    var qi, qj := i / base, j / base;
    DivideOrdered(i, j, base);
    assert Digits(base, i, n) == Digits(base, qi, n - 1) + [i % base];
    assert Digits(base, j, n) == Digits(base, qj, n - 1) + [j % base];
    if qi == qj {
      LexLessLast(Digits(base, qi, n - 1), i % base, j % base);
    } else {
      QuotientBelow(base, n, j);
      DigitsOrdered(base, qi, qj, n - 1);
      LexLessSnoc(Digits(base, qi, n - 1), Digits(base, qj, n - 1), i % base, j % base);
    }
  }

  /** The letters are pairwise distinct. */
  predicate Distinct(letters: seq<char>)
  {
    forall p, q :: 0 <= p < q < |letters| ==> letters[p] != letters[q]
  }

  /**
   * The labels of one width: there are `|letters| ** n` of them, all of
   * length `n`, the `i`-th spells the base-`|letters|` digits of `i` (so
   * they come in lexicographic order of letter position), and they are
   * pairwise distinct when the letters are.
   */
  lemma WordsProperties(letters: seq<char>, n: nat)
    requires |letters| >= 1
    ensures |Words(letters, n)| == Pow(|letters|, n)
    ensures forall i :: 0 <= i < |Words(letters, n)| ==>
              Words(letters, n)[i] == Spell(letters, Digits(|letters|, i, n)) && |Words(letters, n)[i]| == n
    ensures forall i, j :: 0 <= i < j < |Words(letters, n)| ==>
              LexLess(Digits(|letters|, i, n), Digits(|letters|, j, n))
    ensures Distinct(letters) ==>
              forall i, j :: 0 <= i < j < |Words(letters, n)| ==> Words(letters, n)[i] != Words(letters, n)[j]
  {
    WordsCount(letters, n);
    var ws := Words(letters, n);
    forall i | 0 <= i < |ws|
      ensures ws[i] == Spell(letters, Digits(|letters|, i, n))
    {
      WordIsNumeral(letters, n, i);
    }
    forall i, j | 0 <= i < j < |ws|
      ensures LexLess(Digits(|letters|, i, n), Digits(|letters|, j, n))
      ensures Distinct(letters) ==> ws[i] != ws[j]
    {
      DigitsOrdered(|letters|, i, j, n);
      var a, b := Digits(|letters|, i, n), Digits(|letters|, j, n);
      var k :| 0 <= k < n && a[..k] == b[..k] && a[k] < b[k];
      assert ws[i][k] == letters[a[k]] && ws[j][k] == letters[b[k]];
    }
  }

  /** The queue entries `[i, str]` for every string of `ws`, all at level `level`. */
  function Tagged(level: nat, ws: seq<string>): (r: seq<(nat, string)>)
    ensures |r| == |ws|
    ensures forall t :: 0 <= t < |ws| ==> r[t] == (level, ws[t])
  {
    seq(|ws|, t requires 0 <= t < |ws| => (level, ws[t]))
  }

  /** The first `m + 1` children are the first `m` and then child `m`. */
  lemma ChildrenPrefix(s: string, letters: seq<char>, m: nat)
    requires m < |letters|
    ensures Children(s, letters)[..m + 1] == Children(s, letters)[..m] + [s + [letters[m]]]
  {
  }

  /** Tagging distributes over concatenation. */
  lemma TaggedAppend(level: nat, a: seq<string>, b: seq<string>)
    ensures Tagged(level, a + b) == Tagged(level, a) + Tagged(level, b)
  {
  }

  /** Taking the head off a queue that starts with tagged strings. */
  lemma Dequeue(level: nat, ws: seq<string>, rest: seq<(nat, string)>)
    requires ws != []
    ensures (Tagged(level, ws) + rest)[0] == (level, ws[0])
    ensures (Tagged(level, ws) + rest)[1..] == Tagged(level, ws[1..]) + rest
  {
    assert Tagged(level, ws) == [(level, ws[0])] + Tagged(level, ws[1..]);
  }

  /** Expanding one more string of a row appends its children. */
  lemma ExpandPrefix(row: seq<string>, j: nat, letters: seq<char>)
    requires |letters| >= 1 && j < |row|
    ensures Expand(row[..j + 1], letters) == Expand(row[..j], letters) + Children(row[j], letters)
  {
    assert row[..j + 1] == row[..j] + [row[j]];
    ExpandSnoc(row[..j], row[j], letters);
  }

  /**
   * The body of `generateIdxes`'s `for (const l of letters)` loop for the
   * task `[i, str]`: each child goes to `names` on the last level and back
   * into the queue otherwise.
   */
  method PushChildren(i: nat, str: string, width: nat, letters: seq<char>,
                      stack: seq<(nat, string)>, names: seq<string>)
    returns (stack': seq<(nat, string)>, names': seq<string>)
    ensures i == width - 1 ==> stack' == stack && names' == names + Children(str, letters)
    ensures i != width - 1 ==> stack' == stack + Tagged(i + 1, Children(str, letters)) && names' == names
  {
    stack', names' := stack, names;
    for m := 0 to |letters|
      invariant i == width - 1 ==> stack' == stack && names' == names + Children(str, letters)[..m]
      invariant i != width - 1 ==> stack' == stack + Tagged(i + 1, Children(str, letters)[..m]) && names' == names
    {
      var nextStr := str + [letters[m]];
      ChildrenPrefix(str, letters, m);
      if i == width - 1 {
        names' := names' + [nextStr];
      } else {
        TaggedAppend(i + 1, Children(str, letters)[..m], [nextStr]);
        stack' := stack' + [(i + 1, nextStr)];
      }
    }
    assert Children(str, letters)[..|letters|] == Children(str, letters);
  }

  /**
   * The state of `generateIdxes`'s queue while level `k` is dequeued and
   * `j` of its strings have been expanded: the rest of the level, then the
   * children of the ones already expanded. On the last level those children
   * went to `names` instead.
   */
  ghost predicate QueueAt(letters: seq<char>, width: nat, k: nat, j: nat,
                          stack: seq<(nat, string)>, names: seq<string>)
    requires |letters| >= 1
  {
    var row := Words(letters, k);
    k < width && |row| >= 1 && (j < |row| || (k == width - 1 && j == |row|)) &&
    (k + 1 < width ==> stack == Tagged(k, row[j..]) + Tagged(k + 1, Expand(row[..j], letters)) && names == []) &&
    (k + 1 == width ==> stack == Tagged(k, row[j..]) && names == Expand(row[..j], letters))
  }

  /** The position after one more string has been expanded; a finished level gives way to the next. */
  function Bump(letters: seq<char>, width: nat, k: nat, j: nat): (r: (nat, nat))
    requires |letters| >= 1
    ensures r.0 > k || (r.0 == k && r.1 == j + 1)
  {
    if j + 1 == |Words(letters, k)| && k + 1 < width then (k + 1, 0) else (k, j + 1)
  }

  /** Dequeuing a task of a level below the last queues its children behind the others. */
  lemma QueueStepInner(letters: seq<char>, width: nat, k: nat, j: nat,
                       stack: seq<(nat, string)>, names: seq<string>)
    requires |letters| >= 2 && QueueAt(letters, width, k, j, stack, names) && stack != []
    requires k + 1 < width
    ensures stack[0] == (k, Words(letters, k)[j])
    ensures var next := Bump(letters, width, k, j);
            QueueAt(letters, width, next.0, next.1,
                    stack[1..] + Tagged(k + 1, Children(stack[0].1, letters)), names)
  {
    var row := Words(letters, k);
    var done := Expand(row[..j], letters);
    assert row[j..][1..] == row[j + 1..] && row[j..][0] == row[j];
    Dequeue(k, row[j..], Tagged(k + 1, done));
    ExpandPrefix(row, j, letters);
    TaggedAppend(k + 1, done, Children(row[j], letters));
    if j + 1 == |row| {
      assert row[..j + 1] == row && row[j + 1..] == [];
      WordsCount(letters, k + 1);
      assert Words(letters, k + 1)[0..] == Words(letters, k + 1);
      assert Words(letters, k + 1)[..0] == [];
    }
  }

  /** Dequeuing a task of the last level sends its children to `names`. */
  lemma QueueStepLast(letters: seq<char>, width: nat, k: nat, j: nat,
                      stack: seq<(nat, string)>, names: seq<string>)
    requires |letters| >= 2 && QueueAt(letters, width, k, j, stack, names) && stack != []
    requires k + 1 == width
    ensures stack[0] == (k, Words(letters, k)[j])
    ensures var next := Bump(letters, width, k, j);
            QueueAt(letters, width, next.0, next.1, stack[1..], names + Children(stack[0].1, letters))
  {
    var row := Words(letters, k);
    assert row[j..][1..] == row[j + 1..] && row[j..][0] == row[j];
    Dequeue(k, row[j..], []);
    ExpandPrefix(row, j, letters);
  }

  /** An empty queue means every string of the last level has been expanded. */
  lemma QueueDone(letters: seq<char>, width: nat, k: nat, j: nat, names: seq<string>)
    requires |letters| >= 1 && QueueAt(letters, width, k, j, [], names)
    ensures names == Words(letters, width)
  {
    var row := Words(letters, k);
    assert |Tagged(k, row[j..])| == 0;
    assert row[..j] == row;
  }

  /**
   * `generateIdxes(count, letters)`: a breadth-first walk over the strings
   * of width up to `Width(count, |letters|)`.
   */
  method GenerateIdxes(count: nat, letters: seq<char>) returns (names: seq<string>)
    requires |letters| >= 2
    ensures names == Words(letters, Width(count, |letters|))
    ensures |names| == Pow(|letters|, Width(count, |letters|)) && count <= |names|
  {
    var width := Width(count, |letters|);
    names := [];
    var stack: seq<(nat, string)> := [(0, "")];   // used as a queue
    ghost var k: nat := 0;                        // the level being dequeued
    ghost var j: nat := 0;                        // how many of its strings have been expanded
    assert Words(letters, 0)[0..] == [""] && Words(letters, 0)[..0] == [];
    while stack != []
      invariant QueueAt(letters, width, k, j, stack, names)
      decreases width - k, |Words(letters, k)| - j
    {
      if k + 1 < width {
        QueueStepInner(letters, width, k, j, stack, names);
      } else {
        QueueStepLast(letters, width, k, j, stack, names);
      }
      var task := stack[0];
      stack := stack[1..];
      var i, str := task.0, task.1;
      stack, names := PushChildren(i, str, width, letters, stack, names);
      k, j := Bump(letters, width, k, j).0, Bump(letters, width, k, j).1;
    }
    QueueDone(letters, width, k, j, names);
    WordsCount(letters, width);
  }
}
