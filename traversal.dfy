/** `traverse_nested_lists` (mycode_netlist.py:38-70): every list node of a
    nested value, recorded with its depth after its own sub-lists, then
    sorted by depth, deepest first, keeping the recorded order among equal
    depths. */
module Traversal {
  import opened Nested

  /** A `(depth, lst)` pair of the result list. */
  datatype Entry = Entry(depth: nat, node: seq<Elem>)

  // ----- The recursive walk -----

  /** The entries recorded for the list elements of `xs`, each sub-list at
      `depth`, in the order the walk appends them. */
  function WalkIn(xs: seq<Elem>, depth: nat): seq<Entry> {
    if xs == [] then []
    else
      WalkIn(xs[..|xs| - 1], depth)
      + (match xs[|xs| - 1] { case Tok(_) => [] case Grp(ys) => WalkIn(ys, depth + 1) + [Entry(depth, ys)] })
  }

  /** The entries `inner_traverse(e, depth)` appends: nothing for a
      non-list; for a list, those of its sub-lists, then its own. */
  function Walk(e: Elem, depth: nat): seq<Entry> {
    match e
    case Tok(_) => []
    case Grp(xs) => WalkIn(xs, depth + 1) + [Entry(depth, xs)]
  }

  predicate HasNested(xs: seq<Elem>) {
    exists k :: 0 <= k < |xs| && xs[k].Grp?
  }

  /** `inner_traverse(lst, depth)`, appending to `result`. */
  method InnerTraverse(lst: Elem, depth: nat, result: seq<Entry>) returns (out: seq<Entry>)
    ensures out == result + Walk(lst, depth)
    decreases lst
  {
    if !lst.Grp? {
      return result;
    }
    var xs := lst.items;
    var hasNested := exists k | 0 <= k < |xs| :: xs[k].Grp?;
    if !hasNested {
      NoNestedWalk(xs, depth + 1);
      return result + [Entry(depth, xs)];
    }
    out := result;
    for j := 0 to |xs|
      invariant out == result + WalkIn(xs[..j], depth + 1)
    {
      assert xs[..j + 1][..j] == xs[..j];
      if xs[j].Grp? {
        out := InnerTraverse(xs[j], depth + 1, out);
      }
    }
    assert xs[..|xs|] == xs;
    out := out + [Entry(depth, xs)];
  }

  /** A list without sub-lists records no entry for its elements. */
  lemma {:induction false} NoNestedWalk(xs: seq<Elem>, depth: nat)
    requires !HasNested(xs)
    ensures WalkIn(xs, depth) == []
  {
    if xs != [] {
      var init := xs[..|xs| - 1];
      assert !HasNested(init) by {
        forall k | 0 <= k < |init| ensures !init[k].Grp? {
          assert init[k] == xs[k];
        }
      }
      NoNestedWalk(init, depth);
      assert !xs[|xs| - 1].Grp?;
    }
  }

  /** The walk records one entry per list node. */
  lemma {:induction false} WalkInCount(xs: seq<Elem>, depth: nat)
    ensures |WalkIn(xs, depth)| == CountGroupsIn(xs)
  {
    if xs != [] {
      WalkInCount(xs[..|xs| - 1], depth);
      match xs[|xs| - 1]
      case Tok(_) =>
      case Grp(ys) => WalkInCount(ys, depth + 1);
    }
  }

  /** Entries of the elements' sub-lists are at least as deep as `depth`. */
  lemma {:induction false} WalkInDeep(xs: seq<Elem>, depth: nat)
    ensures forall i :: 0 <= i < |WalkIn(xs, depth)| ==> WalkIn(xs, depth)[i].depth >= depth
  {
    if xs != [] {
      WalkInDeep(xs[..|xs| - 1], depth);
      match xs[|xs| - 1]
      case Tok(_) =>
      case Grp(ys) => WalkInDeep(ys, depth + 1);
    }
  }

  /** Every list of the walk has, for each of its sub-lists, an entry one
      level deeper. */
  predicate Closed(w: seq<Entry>) {
    forall i, k :: 0 <= i < |w| && 0 <= k < |w[i].node| && w[i].node[k].Grp? ==>
      Entry(w[i].depth + 1, w[i].node[k].items) in w
  }

  lemma {:induction false} ClosedAppend(a: seq<Entry>, b: seq<Entry>)
    requires Closed(a) && Closed(b)
    ensures Closed(a + b)
  {
    forall i, k | 0 <= i < |a + b| && 0 <= k < |(a + b)[i].node| && (a + b)[i].node[k].Grp?
      ensures Entry((a + b)[i].depth + 1, (a + b)[i].node[k].items) in a + b
    {
      if i < |a| {
        assert (a + b)[i] == a[i];
      } else {
        assert (a + b)[i] == b[i - |a|];
      }
    }
  }

  /** Each sub-list of `xs` is recorded at `depth`. */
  lemma {:induction false} ChildRecorded(xs: seq<Elem>, depth: nat, k: nat)
    requires k < |xs| && xs[k].Grp?
    ensures Entry(depth, xs[k].items) in WalkIn(xs, depth)
  {
    var init := xs[..|xs| - 1];
    if k < |xs| - 1 {
      assert init[k] == xs[k];
      ChildRecorded(init, depth, k);
    } else {
      var ys := xs[k].items;
      assert WalkIn(xs, depth) == WalkIn(init, depth) + (WalkIn(ys, depth + 1) + [Entry(depth, ys)]);
    }
  }

  lemma {:induction false} WalkInClosed(xs: seq<Elem>, depth: nat)
    ensures Closed(WalkIn(xs, depth))
  {
    if xs != [] {
      var init := xs[..|xs| - 1];
      WalkInClosed(init, depth);
      match xs[|xs| - 1]
      case Tok(_) =>
        assert WalkIn(xs, depth) == WalkIn(init, depth) + [];
        assert WalkIn(xs, depth) == WalkIn(init, depth);
      case Grp(ys) =>
        WalkInClosed(ys, depth + 1);
        OwnEntryClosed(ys, depth);
        ClosedAppend(WalkIn(init, depth), WalkIn(ys, depth + 1) + [Entry(depth, ys)]);
        assert WalkIn(xs, depth) == WalkIn(init, depth) + (WalkIn(ys, depth + 1) + [Entry(depth, ys)]);
    }
  }

  /** The sub-lists of a list's own entry are recorded just before it. */
  lemma OwnEntryClosed(ys: seq<Elem>, depth: nat)
    requires Closed(WalkIn(ys, depth + 1))
    ensures Closed(WalkIn(ys, depth + 1) + [Entry(depth, ys)])
  {
    var inner := WalkIn(ys, depth + 1);
    forall k | 0 <= k < |ys| && ys[k].Grp?
      ensures Entry(depth + 1, ys[k].items) in inner
    {
      ChildRecorded(ys, depth + 1, k);
    }
    ClosedSnoc(inner, depth, ys);
  }

  /** A closed walk stays closed with one more entry whose sub-lists it
      already holds. */
  lemma ClosedSnoc(inner: seq<Entry>, depth: nat, ys: seq<Elem>)
    requires Closed(inner)
    requires forall k :: 0 <= k < |ys| && ys[k].Grp? ==> Entry(depth + 1, ys[k].items) in inner
    ensures Closed(inner + [Entry(depth, ys)])
  {
    var last := Entry(depth, ys);
    var w := inner + [last];
    forall i, k | 0 <= i < |w| && 0 <= k < |w[i].node| && w[i].node[k].Grp?
      ensures Entry(w[i].depth + 1, w[i].node[k].items) in w
    {
      if i < |inner| {
        assert w[i] == inner[i];
        assert Entry(inner[i].depth + 1, inner[i].node[k].items) in inner;
      } else {
        assert w[i] == last;
      }
    }
  }

  // ----- The stable sort by depth, deepest first -----

  /** Places `e` before the first entry that is not deeper than it. */
  function Insert(e: Entry, t: seq<Entry>): seq<Entry> {
    if t == [] || e.depth >= t[0].depth then [e] + t
    else [t[0]] + Insert(e, t[1..])
  }

  /** `result.sort(key=depth, reverse=True)`: Python's sort is stable, also
      when reversed. */
  function SortDesc(s: seq<Entry>): seq<Entry> {
    if s == [] then [] else Insert(s[0], SortDesc(s[1..]))
  }

  predicate Sorted(t: seq<Entry>) {
    forall j, k :: 0 <= j < k < |t| ==> t[j].depth >= t[k].depth
  }

  /** The entries of depth `d`, in order. */
  function AtDepth(d: nat, s: seq<Entry>): seq<Entry> {
    if s == [] then []
    else (if s[0].depth == d then [s[0]] else []) + AtDepth(d, s[1..])
  }

  lemma {:induction false} InsertSorted(e: Entry, t: seq<Entry>)
    requires Sorted(t)
    ensures Sorted(Insert(e, t))
  {
    if t == [] || e.depth >= t[0].depth {
      var r := [e] + t;
      forall j, k | 0 <= j < k < |r| ensures r[j].depth >= r[k].depth {
        assert r[k] == t[k - 1];
        if j > 0 {
          assert r[j] == t[j - 1];
        }
      }
    } else {
      var rest := t[1..];
      assert Sorted(rest) by {
        forall j, k | 0 <= j < k < |rest| ensures rest[j].depth >= rest[k].depth {
          assert rest[j] == t[j + 1] && rest[k] == t[k + 1];
        }
      }
      InsertSorted(e, rest);
      var ins := Insert(e, rest);
      assert forall k :: 0 <= k < |rest| ==> rest[k].depth <= t[0].depth;
      InsertBounded(e, rest, t[0].depth);
      var r := [t[0]] + ins;
      forall j, k | 0 <= j < k < |r| ensures r[j].depth >= r[k].depth {
        assert r[k] == ins[k - 1];
        if j > 0 {
          assert r[j] == ins[j - 1];
        }
      }
    }
  }

  lemma {:induction false} InsertMultiset(e: Entry, t: seq<Entry>)
    ensures multiset(Insert(e, t)) == multiset(t) + multiset{e}
  {
    if !(t == [] || e.depth >= t[0].depth) {
      InsertMultiset(e, t[1..]);
      assert t == [t[0]] + t[1..];
    }
  }

  lemma AtDepthCons(d: nat, x: Entry, s: seq<Entry>)
    ensures AtDepth(d, [x] + s) == (if x.depth == d then [x] else []) + AtDepth(d, s)
  {
    assert ([x] + s)[0] == x && ([x] + s)[1..] == s;
  }

  lemma {:induction false} InsertAtDepth(e: Entry, t: seq<Entry>, d: nat)
    ensures e.depth != d ==> AtDepth(d, Insert(e, t)) == AtDepth(d, t)
    ensures e.depth == d ==> AtDepth(d, Insert(e, t)) == [e] + AtDepth(d, t)
  {
    if t == [] || e.depth >= t[0].depth {
      AtDepthCons(d, e, t);
    } else {
      var rest := t[1..];
      InsertAtDepth(e, rest, d);
      AtDepthCons(d, t[0], Insert(e, rest));
      AtDepthCons(d, t[0], rest);
      assert [t[0]] + rest == t;
    }
  }

  /** Inserting into entries no deeper than `b` keeps them no deeper than `b`. */
  lemma {:induction false} InsertBounded(e: Entry, t: seq<Entry>, b: nat)
    requires e.depth <= b && forall k :: 0 <= k < |t| ==> t[k].depth <= b
    ensures forall k :: 0 <= k < |Insert(e, t)| ==> Insert(e, t)[k].depth <= b
  {
    if !(t == [] || e.depth >= t[0].depth) {
      var rest := t[1..];
      assert forall k :: 0 <= k < |rest| ==> rest[k] == t[k + 1];
      InsertBounded(e, rest, b);
      var r := [t[0]] + Insert(e, rest);
      assert forall k :: 1 <= k < |r| ==> r[k] == Insert(e, rest)[k - 1];
    }
  }

  /** The sort orders by depth, deepest first. */
  lemma {:induction false} SortSorted(s: seq<Entry>)
    ensures Sorted(SortDesc(s))
  {
    if s != [] {
      SortSorted(s[1..]);
      InsertSorted(s[0], SortDesc(s[1..]));
    }
  }

  /** The sort loses and adds nothing. */
  lemma {:induction false} SortMultiset(s: seq<Entry>)
    ensures multiset(SortDesc(s)) == multiset(s)
  {
    if s != [] {
      SortMultiset(s[1..]);
      InsertMultiset(s[0], SortDesc(s[1..]));
      assert s == [s[0]] + s[1..];
    }
  }

  /** The sort is stable: entries of equal depth keep their order. */
  lemma {:induction false} SortStable(s: seq<Entry>, d: nat)
    ensures AtDepth(d, SortDesc(s)) == AtDepth(d, s)
  {
    if s != [] {
      SortStable(s[1..], d);
      InsertAtDepth(s[0], SortDesc(s[1..]), d);
    }
  }

  // ----- traverse_nested_lists -----

  /** The lists of the walk, deepest first. */
  function Traversal(root: Elem): seq<seq<Elem>> {
    var sorted := SortDesc(Walk(root, 0));
    seq(|sorted|, k requires 0 <= k < |sorted| => sorted[k].node)
  }

  /** `traverse_nested_lists(nested_list)`. */
  method TraverseNestedLists(nestedList: Elem) returns (order: seq<seq<Elem>>)
    ensures order == Traversal(nestedList)
  {
    var result := InnerTraverse(nestedList, 0, []);
    assert result == Walk(nestedList, 0);
    result := SortDesc(result);
    order := seq(|result|, k requires 0 <= k < |result| => result[k].node);
  }

  /** A value that is not a list has no list nodes. */
  lemma NotAList(s: string)
    ensures Traversal(Tok(s)) == []
  {
  }

  /** Every list node is listed once: the order is a rearrangement of the
      walk, which has one entry per list node. */
  lemma {:induction false} TraversalCount(root: Elem)
    ensures |Traversal(root)| == CountGroups(root)
    ensures multiset(SortDesc(Walk(root, 0))) == multiset(Walk(root, 0))
  {
    SortMultiset(Walk(root, 0));
    assert |SortDesc(Walk(root, 0))| == |multiset(SortDesc(Walk(root, 0)))|;
    match root
    case Tok(_) =>
    case Grp(xs) => WalkInCount(xs, 1);
  }

  /** The walk of a value has, for each sub-list of each list, an entry
      one level deeper. */
  lemma WalkClosed(root: Elem)
    ensures Closed(Walk(root, 0))
  {
    match root
    case Tok(_) =>
    case Grp(xs) =>
      WalkInClosed(xs, 1);
      OwnEntryClosed(xs, 0);
  }

  /** Each entry's sub-lists are listed before it, one level deeper. */
  predicate ChildrenListed(sorted: seq<Entry>) {
    forall k, c :: 0 <= k < |sorted| && 0 <= c < |sorted[k].node| && sorted[k].node[c].Grp? ==>
      Entry(sorted[k].depth + 1, sorted[k].node[c].items) in sorted[..k]
  }

  /** The order goes by depth, deepest first, and a sub-list is always
      listed before the list holding it. */
  lemma ChildrenFirst(root: Elem)
    ensures Sorted(SortDesc(Walk(root, 0))) && ChildrenListed(SortDesc(Walk(root, 0)))
  {
    var w := Walk(root, 0);
    SortSorted(w);
    SortMultiset(w);
    WalkClosed(root);
    SortedClosed(w, SortDesc(w));
  }

  /** A closed walk, sorted deepest first, lists every sub-list before its
      list. */
  lemma SortedClosed(w: seq<Entry>, sorted: seq<Entry>)
    requires Closed(w) && Sorted(sorted) && multiset(sorted) == multiset(w)
    ensures ChildrenListed(sorted)
  {
    forall k, c | 0 <= k < |sorted| && 0 <= c < |sorted[k].node| && sorted[k].node[c].Grp?
      ensures Entry(sorted[k].depth + 1, sorted[k].node[c].items) in sorted[..k]
    {
      ChildBefore(w, sorted, k, c);
    }
  }

  /** In a closed walk sorted deepest first, the entry of a sub-list comes
      before the entry of its list. */
  lemma ChildBefore(w: seq<Entry>, sorted: seq<Entry>, k: nat, c: nat)
    requires Closed(w) && Sorted(sorted) && multiset(sorted) == multiset(w)
    requires k < |sorted| && c < |sorted[k].node| && sorted[k].node[c].Grp?
    ensures Entry(sorted[k].depth + 1, sorted[k].node[c].items) in sorted[..k]
  {
    var child := Entry(sorted[k].depth + 1, sorted[k].node[c].items);
    assert sorted[k] in multiset(w);
    var i :| 0 <= i < |w| && w[i] == sorted[k];
    assert child in w;
    assert child in multiset(sorted);
    var j :| 0 <= j < |sorted| && sorted[j] == child;
    assert sorted[..k][j] == child;
  }

  /** The root list is the last one listed, and the only one at depth 0. */
  lemma {:induction false} RootLast(xs: seq<Elem>)
    ensures var sorted := SortDesc(Walk(Grp(xs), 0));
      && sorted != [] && sorted[|sorted| - 1] == Entry(0, xs)
      && forall k :: 0 <= k < |sorted| - 1 ==> sorted[k].depth > 0
  {
    var w := Walk(Grp(xs), 0);
    WalkInDeep(xs, 1);
    assert forall k :: 0 <= k < |w| - 1 ==> w[k] == WalkIn(xs, 1)[k];
    SortLast(w, Entry(0, xs));
  }

  /** An entry shallower than all before it stays last after sorting. */
  lemma {:induction false} SortLast(s: seq<Entry>, last: Entry)
    requires s != [] && s[|s| - 1] == last
    requires forall k :: 0 <= k < |s| - 1 ==> s[k].depth > last.depth
    ensures var t := SortDesc(s);
      && t != [] && t[|t| - 1] == last
      && forall k :: 0 <= k < |t| - 1 ==> t[k].depth > last.depth
  {
    if |s| == 1 {
      assert SortDesc(s) == Insert(last, SortDesc(s[1..])) == [last];
    } else {
      var rest := s[1..];
      assert SortDesc(s) == Insert(s[0], SortDesc(rest));
      assert rest[|rest| - 1] == last;
      forall k | 0 <= k < |rest| - 1 ensures rest[k].depth > last.depth {
        assert rest[k] == s[k + 1];
      }
      SortLast(rest, last);
      InsertKeepsLast(s[0], SortDesc(rest), last);
    }
  }

  lemma {:induction false} InsertKeepsLast(x: Entry, t: seq<Entry>, last: Entry)
    requires t != [] && t[|t| - 1] == last && x.depth > last.depth
    requires forall k :: 0 <= k < |t| - 1 ==> t[k].depth > last.depth
    ensures var r := Insert(x, t);
      && r != [] && r[|r| - 1] == last
      && forall k :: 0 <= k < |r| - 1 ==> r[k].depth > last.depth
  {
    if x.depth >= t[0].depth {
      var r := [x] + t;
      forall k | 1 <= k < |r| - 1 ensures r[k].depth > last.depth {
        assert r[k] == t[k - 1];
      }
      assert r[|r| - 1] == t[|t| - 1];
    } else {
      var rest := t[1..];
      assert |t| > 1;
      assert rest[|rest| - 1] == last;
      forall k | 0 <= k < |rest| - 1 ensures rest[k].depth > last.depth {
        assert rest[k] == t[k + 1];
      }
      InsertKeepsLast(x, rest, last);
      var ins := Insert(x, rest);
      var r := [t[0]] + ins;
      forall k | 1 <= k < |r| - 1 ensures r[k].depth > last.depth {
        assert r[k] == ins[k - 1];
      }
      assert r[|r| - 1] == ins[|ins| - 1];
    }
  }
}
