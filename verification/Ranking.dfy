/** The ranked lists of the exporter: the largest items of a library and the newest items
    of the server (internal/libstats/libstats.go). A list is kept at ten entries while
    entries stream through it; here it is proved to be the head of a full sort. */
module Ranking {
  import opened Ints
  import opened Sequences

  const TOP_N: nat := 10

  /** A show's newest episode is labelled by its season and episode numbers. */
  datatype EpisodeLabel = NoEpisode | Episode(season: int, number: int)

  datatype Item = Item(
    libraryId: string,
    libraryType: string,
    title: string,
    episode: EpisodeLabel,
    ratingKey: uint64,
    showKey: uint64,
    bytes: int64,
    lastPlayed: int64,
    addedAt: int64,
    year: int
  )

  datatype Order = BySize | ByAdded

  function Value(o: Order, it: Item): int {
    match o
    case BySize => it.bytes
    case ByAdded => it.addedAt
  }

  /** a ranks strictly ahead of b: greater value first, ties to the smaller rating key. */
  predicate Before(o: Order, a: Item, b: Item) {
    Value(o, a) > Value(o, b) || (Value(o, a) == Value(o, b) && a.ratingKey < b.ratingKey)
  }

  ghost predicate Sorted(o: Order, s: seq<Item>) {
    forall i, j | 0 <= i < j < |s| :: !Before(o, s[j], s[i])
  }

  function FirstTop(s: seq<Item>): (top: seq<Item>)
    ensures |top| == Min(|s|, TOP_N) && top <= s
  {
    if |s| <= TOP_N then s else s[..TOP_N]
  }

  ghost predicate FullSort(o: Order, full: seq<Item>, all: multiset<Item>) {
    Sorted(o, full) && multiset(full) == all
  }

  /** The list is the first ten entries of a full sort of all. */
  ghost predicate IsTop(o: Order, list: seq<Item>, all: multiset<Item>) {
    exists full: seq<Item> :: FullSort(o, full, all) && list == FirstTop(full)
  }

  /** No two different entries share both value and rating key. */
  ghost predicate NoTies(o: Order, all: multiset<Item>) {
    forall a, b | a in all && b in all && Value(o, a) == Value(o, b) && a.ratingKey == b.ratingKey :: a == b
  }

  /** The place of it in a sorted list: behind everything it does not rank ahead of. */
  ghost predicate IsPlace(o: Order, s: seq<Item>, p: nat, it: Item) {
    && p <= |s|
    && (forall j | 0 <= j < p :: !Before(o, it, s[j]))
    && (forall j | p <= j < |s| :: Before(o, it, s[j]))
  }

  ghost function Place(o: Order, s: seq<Item>, it: Item): (p: nat)
    requires Sorted(o, s)
    ensures IsPlace(o, s, p, it)
  {
    if s == [] then 0
    else if !Before(o, it, s[|s| - 1]) then |s|
    else Place(o, s[..|s| - 1], it)
  }

  lemma InsertSorted(o: Order, s: seq<Item>, p: nat, it: Item)
    requires Sorted(o, s) && IsPlace(o, s, p, it)
    ensures Sorted(o, InsertAt(s, p, it))
  {
    var r := InsertAt(s, p, it);
    forall a, b | 0 <= a < b < |r| ensures !Before(o, r[b], r[a]) {
      assert r[a] == if a < p then s[a] else if a == p then it else s[a - 1];
      assert r[b] == if b < p then s[b] else if b == p then it else s[b - 1];
    }
  }

  /** Inserting at its place keeps a full sort a full sort, with one entry more. */
  lemma FullSortInsert(o: Order, full: seq<Item>, all: multiset<Item>, p: nat, it: Item)
    requires FullSort(o, full, all) && IsPlace(o, full, p, it)
    ensures FullSort(o, InsertAt(full, p, it), all + multiset{it})
  {
    InsertSorted(o, full, p, it);
    InsertAtMultiset(full, p, it);
  }

  /** The place of it in the head of a full sort is its place in the full sort, cut at ten. */
  lemma PlaceInHead(o: Order, full: seq<Item>, i: nat, p: nat, it: Item)
    requires IsPlace(o, FirstTop(full), i, it) && IsPlace(o, full, p, it)
    ensures i == Min(p, |FirstTop(full)|)
  {
    var list := FirstTop(full);
    assert i < |list| ==> list[i] == full[i];
    assert p < |list| ==> list[p] == full[p];
  }

  lemma HeadOfInsert(full: seq<Item>, p: nat, it: Item)
    requires p <= |full|
    ensures FirstTop(InsertAt(full, p, it))
         == if TOP_N <= p then FirstTop(full) else FirstTop(InsertAt(FirstTop(full), p, it))
  {
  }

  /** One step of insertTop against the full sort it is the head of. */
  lemma InsertTopStep(o: Order, list: seq<Item>, i: nat, it: Item, all: multiset<Item>)
    requires IsTop(o, list, all)
    requires IsPlace(o, list, i, it)
    ensures IsTop(o, if i == TOP_N then list else FirstTop(InsertAt(list, i, it)), all + multiset{it})
  {
    var full: seq<Item> :| FullSort(o, full, all) && list == FirstTop(full);
    var p := Place(o, full, it);
    PlaceInHead(o, full, i, p, it);
    FullSortInsert(o, full, all, p, it);
    HeadOfInsert(full, p, it);
  }

  lemma TopSorted(o: Order, list: seq<Item>, all: multiset<Item>)
    requires IsTop(o, list, all)
    ensures Sorted(o, list) && |list| <= TOP_N
  {
    var full: seq<Item> :| FullSort(o, full, all) && list == FirstTop(full);
    assert forall j | 0 <= j < |list| :: list[j] == full[j];
  }

  /** Where a scan from the end stops is the entry's place. */
  lemma ScanFindsPlace(o: Order, list: seq<Item>, i: nat, it: Item)
    requires Sorted(o, list) && i <= |list|
    requires 0 < i ==> !Before(o, it, list[i - 1])
    requires forall j | i <= j < |list| :: Before(o, it, list[j])
    ensures IsPlace(o, list, i, it)
  {
  }

  /** insertTop: one entry streams into the list of the ten best of all. The result is the
      ten best of all and it together, whichever entries were dropped before. */
  method InsertTop(list: seq<Item>, it: Item, o: Order, ghost all: multiset<Item>) returns (r: seq<Item>)
    requires IsTop(o, list, all)
    ensures IsTop(o, r, all + multiset{it})
  {
    TopSorted(o, list, all);
    var i := |list|;
    while i > 0 && Before(o, it, list[i - 1])
      invariant 0 <= i <= |list|
      invariant forall j | i <= j < |list| :: Before(o, it, list[j])
    {
      i := i - 1;
    }
    ScanFindsPlace(o, list, i, it);
    InsertTopStep(o, list, i, it, all);
    if i == TOP_N {
      return list;
    }
    r := InsertAt(list, i, it);
    if |r| > TOP_N {
      r := r[..TOP_N];
    }
  }

  lemma EmptyIsTop(o: Order)
    ensures IsTop(o, [], multiset{})
  {
    assert FullSort(o, [], multiset{});
    assert FirstTop([]) == [];
  }

  /** Two full sorts of the same entries end in entries that tie. */
  lemma SameLast(o: Order, a: seq<Item>, b: seq<Item>)
    requires Sorted(o, a) && Sorted(o, b) && multiset(a) == multiset(b) && a != []
    ensures b != [] && !Before(o, a[|a| - 1], b[|b| - 1])
  {
    assert a[|a| - 1] in multiset(b);
    assert |b| > 0;
    assert b[|b| - 1] in multiset(a);
    var j :| 0 <= j < |a| && a[j] == b[|b| - 1];
    assert j == |a| - 1 || !Before(o, a[|a| - 1], a[j]);
  }

  lemma SameLastItem(o: Order, a: seq<Item>, b: seq<Item>, all: multiset<Item>)
    requires FullSort(o, a, all) && FullSort(o, b, all) && NoTies(o, all) && a != []
    ensures b != [] && a[|a| - 1] == b[|b| - 1]
  {
    SameLast(o, a, b);
    SameLast(o, b, a);
    assert a[|a| - 1] in all && b[|b| - 1] in all;
  }

  /** A full sort without its last entry is a full sort of the other entries. */
  lemma DropLast(o: Order, a: seq<Item>, all: multiset<Item>)
    requires FullSort(o, a, all) && a != []
    ensures FullSort(o, a[..|a| - 1], all - multiset{a[|a| - 1]})
  {
    var a' := a[..|a| - 1];
    assert a == a' + [a[|a| - 1]];
    assert multiset(a') == all - multiset{a[|a| - 1]};
  }

  lemma EqualParts<T>(a: seq<T>, b: seq<T>)
    requires a != [] && b != []
    requires a[..|a| - 1] == b[..|b| - 1] && a[|a| - 1] == b[|b| - 1]
    ensures a == b
  {
    assert a == a[..|a| - 1] + [a[|a| - 1]];
  }

  lemma {:induction false} SortedUnique(o: Order, a: seq<Item>, b: seq<Item>, all: multiset<Item>)
    requires FullSort(o, a, all) && FullSort(o, b, all) && NoTies(o, all)
    ensures a == b
    decreases |a|
  {
    if a == [] {
      assert |multiset(b)| == 0;
    } else {
      SameLastItem(o, a, b, all);
      DropLast(o, a, all);
      DropLast(o, b, all);
      SortedUnique(o, a[..|a| - 1], b[..|b| - 1], all - multiset{a[|a| - 1]});
      EqualParts(a, b);
    }
  }

  /** Without ties there is only one top ten, so the order of arrival cannot matter. */
  lemma TopUnique(o: Order, l1: seq<Item>, l2: seq<Item>, all: multiset<Item>)
    requires IsTop(o, l1, all) && IsTop(o, l2, all) && NoTies(o, all)
    ensures l1 == l2
  {
    var f1: seq<Item> :| FullSort(o, f1, all) && l1 == FirstTop(f1);
    var f2: seq<Item> :| FullSort(o, f2, all) && l2 == FirstTop(f2);
    SortedUnique(o, f1, f2, all);
  }

  /** Nothing in dropped ranks ahead of anything in top. */
  ghost predicate Outranked(o: Order, top: seq<Item>, dropped: seq<Item>) {
    forall i, j | 0 <= i < |top| && 0 <= j < |dropped| :: !Before(o, dropped[j], top[i])
  }

  lemma HeadOutranksTail(o: Order, top: seq<Item>, dropped: seq<Item>)
    requires Sorted(o, top + dropped)
    ensures Outranked(o, top, dropped)
  {
    var full := top + dropped;
    forall i, j | 0 <= i < |top| && 0 <= j < |dropped| ensures !Before(o, dropped[j], top[i]) {
      assert full[i] == top[i] && full[|top| + j] == dropped[j];
    }
  }

  /** What being in the list means: the entries are the listed ones, in rank order, and the
      dropped ones; entries are dropped only past ten, and none outranks a listed one. */
  lemma SplitTop(o: Order, top: seq<Item>, all: multiset<Item>) returns (dropped: seq<Item>)
    requires IsTop(o, top, all)
    ensures all == multiset(top) + multiset(dropped)
    ensures |top| <= TOP_N && (dropped != [] ==> |top| == TOP_N)
    ensures Sorted(o, top) && Outranked(o, top, dropped)
  {
    TopSorted(o, top, all);
    var full: seq<Item> :| FullSort(o, full, all) && top == FirstTop(full);
    dropped := full[|top|..];
    assert full == top + dropped;
    HeadOutranksTail(o, top, dropped);
  }

  /** Every entry of the given lists, list by list. */
  ghost function Joined(lists: seq<seq<Item>>): multiset<Item> {
    if lists == [] then multiset{} else Joined(lists[..|lists| - 1]) + multiset(lists[|lists| - 1])
  }

  /** MergeRecent: the newest ten over several lists, in any order and of any length. */
  method MergeRecent(lists: seq<seq<Item>>) returns (out: seq<Item>)
    ensures IsTop(ByAdded, out, Joined(lists))
  {
    out := [];
    EmptyIsTop(ByAdded);
    for l := 0 to |lists|
      invariant IsTop(ByAdded, out, Joined(lists[..l]))
    {
      ghost var base := Joined(lists[..l]);
      assert base + multiset(lists[l][..0]) == base;
      for i := 0 to |lists[l]|
        invariant IsTop(ByAdded, out, base + multiset(lists[l][..i]))
      {
        assert lists[l][..i + 1] == lists[l][..i] + [lists[l][i]];
        assert base + multiset(lists[l][..i + 1]) == (base + multiset(lists[l][..i])) + multiset{lists[l][i]};
        out := InsertTop(out, lists[l][i], ByAdded, base + multiset(lists[l][..i]));
      }
      assert lists[l][..|lists[l]|] == lists[l];
      assert lists[..l + 1][..l] == lists[..l];
    }
    assert lists[..|lists|] == lists;
  }

  /** An entry outranked or tied by ten listed entries lands behind the tenth place. */
  lemma InsertBehind(o: Order, full: seq<Item>, top: seq<Item>, it: Item)
    requires Sorted(o, full) && |top| == TOP_N && multiset(top) <= multiset(full)
    requires forall i | 0 <= i < |top| :: !Before(o, it, top[i])
    ensures TOP_N <= Place(o, full, it)
  {
    var p := Place(o, full, it);
    var head, tail := full[..p], full[p..];
    assert full == head + tail;
    forall t ensures multiset(top)[t] <= multiset(head)[t] {
      if t in multiset(top) {
        assert t !in tail;
        assert multiset(full)[t] == multiset(head)[t] + multiset(tail)[t];
      }
    }
    assert multiset(top) <= multiset(head);
    assert |multiset(head)| == |multiset(top)| + |multiset(head) - multiset(top)|;
  }

  /** An entry that a library's own list dropped cannot enter the merged list. */
  lemma AddOneDropped(o: Order, out: seq<Item>, all: multiset<Item>, top: seq<Item>, d: Item)
    requires IsTop(o, out, all) && |top| == TOP_N && multiset(top) <= all
    requires forall i | 0 <= i < |top| :: !Before(o, d, top[i])
    ensures IsTop(o, out, all + multiset{d})
  {
    var full: seq<Item> :| FullSort(o, full, all) && out == FirstTop(full);
    InsertBehind(o, full, top, d);
    var p := Place(o, full, d);
    FullSortInsert(o, full, all, p, d);
    assert FirstTop(InsertAt(full, p, d)) == out;
  }

  lemma {:induction false} AddDropped(
      o: Order, out: seq<Item>, all: multiset<Item>, top: seq<Item>, dropped: seq<Item>)
    requires IsTop(o, out, all) && |top| == TOP_N && multiset(top) <= all
    requires Outranked(o, top, dropped)
    ensures IsTop(o, out, all + multiset(dropped))
    decreases |dropped|
  {
    if dropped == [] {
      assert all + multiset(dropped) == all;
    } else {
      var init, d := dropped[..|dropped| - 1], dropped[|dropped| - 1];
      assert dropped == init + [d];
      assert Outranked(o, top, init) by {
        assert forall j | 0 <= j < |init| :: init[j] == dropped[j];
      }
      AddDropped(o, out, all, top, init);
      AddOneDropped(o, out, all + multiset(init), top, d);
      assert all + multiset(dropped) == all + multiset(init) + multiset{d};
    }
  }

  lemma AbsorbLibrary(o: Order, out: seq<Item>, base: multiset<Item>, top: seq<Item>, all: multiset<Item>)
    requires IsTop(o, out, base + multiset(top)) && IsTop(o, top, all)
    ensures IsTop(o, out, base + all)
  {
    var dropped := SplitTop(o, top, all);
    assert base + all == base + multiset(top) + multiset(dropped);
    if dropped != [] {
      AddDropped(o, out, base + multiset(top), top, dropped);
    } else {
      assert base + all == base + multiset(top);
    }
  }

  /** Merging the libraries' ten-entry lists gives the ten newest of all the libraries'
      items together: cutting each library to ten first loses nothing. */
  lemma {:induction false} TruncatingFirstLosesNothing(
      o: Order, out: seq<Item>, base: multiset<Item>, tops: seq<seq<Item>>, alls: seq<seq<Item>>)
    requires |tops| == |alls|
    requires forall i | 0 <= i < |tops| :: IsTop(o, tops[i], multiset(alls[i]))
    requires IsTop(o, out, base + Joined(tops))
    ensures IsTop(o, out, base + Joined(alls))
    decreases |tops|
  {
    if tops != [] {
      var n := |tops| - 1;
      assert base + Joined(tops) == (base + multiset(tops[n])) + Joined(tops[..n]);
      TruncatingFirstLosesNothing(o, out, base + multiset(tops[n]), tops[..n], alls[..n]);
      assert (base + multiset(tops[n])) + Joined(alls[..n]) == (base + Joined(alls[..n])) + multiset(tops[n]);
      AbsorbLibrary(o, out, base + Joined(alls[..n]), tops[n], multiset(alls[n]));
      assert (base + Joined(alls[..n])) + multiset(alls[n]) == base + Joined(alls);
    }
  }
}
