/** What a scrape publishes of the walks and the history (internal/server/collect_catalog.go):
    which libraries' watch figures, the two completeness flags and the newest items. */
module Catalog {
  import opened Ints
  import opened History
  import opened Ranking
  import opened LibStats
  import opened Walks

  /** The server's state at one instant. */
  datatype Snapshot = Snapshot(
    sections: seq<Library>,
    walks: map<string, LibWalk>,
    passDone: bool,
    historyEnabled: bool,
    view: View
  )

  /** The library has a walk to publish. */
  predicate HasWalk(snap: Snapshot, l: Library) {
    l.id in snap.walks && snap.walks[l.id].walked
  }

  predicate LastWalkSucceeded(snap: Snapshot, l: Library) {
    HasWalk(snap, l) && !snap.walks[l.id].failed
  }

  /** History vouches for a walk: it is current, no row of it is unmatched, and the walk was
      made from the generation it is at now. */
  predicate Vouched(snap: Snapshot, w: LibWalk) {
    && snap.historyEnabled && snap.view.current && snap.view.unmatched == 0
    && w.stamp != 0 && w.stamp == snap.view.gen
  }

  predicate Publishes(snap: Snapshot, l: Library) {
    HasWalk(snap, l) && Vouched(snap, snap.walks[l.id])
  }

  /** The published samples that carry a watch figure, and the sizes published beside them. */
  datatype Sample =
    | ItemBytes(library: string, key: uint64, bytes: int)
    | ItemLastPlayed(library: string, key: uint64, at: int)
    | WatchAgeBytes(library: string, bucket: WatchBucket, value: int)
    | WatchAgeItems(library: string, bucket: WatchBucket, value: int)

  predicate IsWatchSample(x: Sample) {
    !x.ItemBytes?
  }

  const WATCH_BUCKETS: seq<WatchBucket> := [Never, Over1y, From90dTo1y, Under90d]

  ghost function SizeSamples(id: string, list: seq<Item>): set<Sample> {
    set it | it in list :: ItemBytes(id, it.ratingKey, it.bytes)
  }

  ghost function PlaySamples(id: string, list: seq<Item>): set<Sample> {
    set it | it in list :: ItemLastPlayed(id, it.ratingKey, it.lastPlayed)
  }

  ghost function AgeSamples(id: string, st: Stats, buckets: seq<WatchBucket>): set<Sample> {
    (set b | b in buckets :: WatchAgeBytes(id, b, Get(st.watchAgeBytes, b)))
    + (set b | b in buckets :: WatchAgeItems(id, b, Get(st.watchAgeItems, b)))
  }

  /** Everything one library publishes; its watch figures only when vouched for. */
  ghost function Samples(id: string, st: Stats, watch: bool): set<Sample> {
    SizeSamples(id, st.largest)
    + if watch then PlaySamples(id, st.largest) + AgeSamples(id, st, WATCH_BUCKETS) else {}
  }

  ghost function SamplesOf(snap: Snapshot, l: Library): set<Sample> {
    if HasWalk(snap, l) then Samples(l.id, snap.walks[l.id].stats, Publishes(snap, l)) else {}
  }

  ghost function AllSamples(snap: Snapshot, walkable: seq<Library>): set<Sample> {
    set l, x | l in walkable && x in SamplesOf(snap, l) :: x
  }

  function RecentLists(snap: Snapshot, walkable: seq<Library>): seq<seq<Item>> {
    if walkable == [] then []
    else
      var before := RecentLists(snap, walkable[..|walkable| - 1]);
      var l := walkable[|walkable| - 1];
      if HasWalk(snap, l) then before + [snap.walks[l.id].stats.recent] else before
  }

  lemma ListSnoc(id: string, list: seq<Item>, n: nat)
    requires n < |list|
    ensures SizeSamples(id, list[..n + 1]) == SizeSamples(id, list[..n]) + {ItemBytes(id, list[n].ratingKey, list[n].bytes)}
    ensures PlaySamples(id, list[..n + 1]) == PlaySamples(id, list[..n]) + {ItemLastPlayed(id, list[n].ratingKey, list[n].lastPlayed)}
  {
    assert list[..n + 1] == list[..n] + [list[n]];
    assert forall it :: it in list[..n + 1] <==> it in list[..n] || it == list[n];
  }

  lemma AgeSnoc(id: string, st: Stats, n: nat)
    requires n < |WATCH_BUCKETS|
    ensures AgeSamples(id, st, WATCH_BUCKETS[..n + 1])
         == AgeSamples(id, st, WATCH_BUCKETS[..n])
            + {WatchAgeBytes(id, WATCH_BUCKETS[n], Get(st.watchAgeBytes, WATCH_BUCKETS[n])),
               WatchAgeItems(id, WATCH_BUCKETS[n], Get(st.watchAgeItems, WATCH_BUCKETS[n]))}
  {
    assert WATCH_BUCKETS[..n + 1] == WATCH_BUCKETS[..n] + [WATCH_BUCKETS[n]];
    assert forall b :: b in WATCH_BUCKETS[..n + 1] <==> b in WATCH_BUCKETS[..n] || b == WATCH_BUCKETS[n];
  }

  ghost function SetOf<T>(s: seq<T>): set<T> {
    set x | x in s
  }

  lemma SetOfConcat<T>(a: seq<T>, b: seq<T>)
    ensures SetOf(a + b) == SetOf(a) + SetOf(b)
  {
  }

  /** emitLibraryWalk */
  method EmitLibraryWalk(id: string, st: Stats, watch: bool) returns (out: seq<Sample>)
    ensures SetOf(out) == Samples(id, st, watch)
  {
    hide SizeSamples, PlaySamples, AgeSamples, SetOf;
    out := [];
    ghost var list := st.largest;
    assert SetOf(out) == SizeSamples(id, list[..0]) + if watch then PlaySamples(id, list[..0]) else {} by {
      NothingListed(id, st);
    }
    for i := 0 to |st.largest|
      invariant SetOf(out) == SizeSamples(id, list[..i]) + if watch then PlaySamples(id, list[..i]) else {}
    {
      var it := st.largest[i];
      ListSnoc(id, list, i);
      SetOfConcat(out, [ItemBytes(id, it.ratingKey, it.bytes)]);
      SetOfOne(ItemBytes(id, it.ratingKey, it.bytes));
      out := out + [ItemBytes(id, it.ratingKey, it.bytes)];
      if watch {
        SetOfConcat(out, [ItemLastPlayed(id, it.ratingKey, it.lastPlayed)]);
        SetOfOne(ItemLastPlayed(id, it.ratingKey, it.lastPlayed));
        out := out + [ItemLastPlayed(id, it.ratingKey, it.lastPlayed)];
      }
    }
    assert list[..|list|] == list;
    if !watch {
      return;
    }
    ghost var listed := SetOf(out);
    assert AgeSamples(id, st, WATCH_BUCKETS[..0]) == {} by { NothingListed(id, st); }
    for i := 0 to |WATCH_BUCKETS|
      invariant SetOf(out) == listed + AgeSamples(id, st, WATCH_BUCKETS[..i])
    {
      var b := WATCH_BUCKETS[i];
      AgeSnoc(id, st, i);
      SetOfConcat(out, [WatchAgeBytes(id, b, Get(st.watchAgeBytes, b))]);
      SetOfOne(WatchAgeBytes(id, b, Get(st.watchAgeBytes, b)));
      out := out + [WatchAgeBytes(id, b, Get(st.watchAgeBytes, b))];
      SetOfConcat(out, [WatchAgeItems(id, b, Get(st.watchAgeItems, b))]);
      SetOfOne(WatchAgeItems(id, b, Get(st.watchAgeItems, b)));
      out := out + [WatchAgeItems(id, b, Get(st.watchAgeItems, b))];
    }
    assert WATCH_BUCKETS[..|WATCH_BUCKETS|] == WATCH_BUCKETS;
  }

  lemma SetOfOne<T>(x: T)
    ensures SetOf([x]) == {x}
  {
  }

  lemma NothingListed(id: string, st: Stats)
    ensures SetOf<Sample>([]) == {} && SizeSamples(id, st.largest[..0]) == {} && PlaySamples(id, st.largest[..0]) == {}
    ensures AgeSamples(id, st, WATCH_BUCKETS[..0]) == {}
  {
  }

  lemma AllSamplesSnoc(snap: Snapshot, walkable: seq<Library>, n: nat)
    requires n < |walkable|
    ensures AllSamples(snap, walkable[..n + 1]) == AllSamples(snap, walkable[..n]) + SamplesOf(snap, walkable[n])
  {
    hide SamplesOf;
    assert walkable[..n + 1] == walkable[..n] + [walkable[n]];
    assert forall l :: l in walkable[..n + 1] <==> l in walkable[..n] || l == walkable[n];
  }

  /** emitLibraries: what each walkable library publishes, the server's newest items, and
      whether every library's last walk succeeded and every one publishes watch figures. */
  method EmitLibraries(snap: Snapshot, walkable: seq<Library>)
    returns (out: seq<Sample>, newest: seq<Item>, walked: bool, stamped: bool)
    ensures SetOf(out) == AllSamples(snap, walkable)
    ensures IsTop(ByAdded, newest, Joined(RecentLists(snap, walkable)))
    ensures walked <==> forall l | l in walkable :: LastWalkSucceeded(snap, l)
    ensures stamped <==> forall l | l in walkable :: Publishes(snap, l)
  {
    hide Samples, SetOf, AllSamples, IsTop;
    out, walked, stamped := [], true, true;
    var lists: seq<seq<Item>> := [];
    assert SetOf(out) == AllSamples(snap, walkable[..0]) by { NoLibraries(snap, walkable); }
    for i := 0 to |walkable|
      invariant SetOf(out) == AllSamples(snap, walkable[..i])
      invariant lists == RecentLists(snap, walkable[..i])
      invariant walked <==> forall j | 0 <= j < i :: LastWalkSucceeded(snap, walkable[j])
      invariant stamped <==> forall j | 0 <= j < i :: Publishes(snap, walkable[j])
    {
      var l := walkable[i];
      AllSamplesSnoc(snap, walkable, i);
      assert walkable[..i + 1][..i] == walkable[..i];
      if l.id !in snap.walks || !snap.walks[l.id].walked {
        walked, stamped := false, false;
        continue;
      }
      var w := snap.walks[l.id];
      var watch := snap.historyEnabled && snap.view.current && snap.view.unmatched == 0
                   && w.stamp != 0 && w.stamp == snap.view.gen;
      walked := walked && !w.failed;
      stamped := stamped && watch;
      var one := EmitLibraryWalk(l.id, w.stats, watch);
      SetOfConcat(out, one);
      out := out + one;
      lists := lists + [w.stats.recent];
    }
    assert walkable[..|walkable|] == walkable;
    newest := MergeRecent(lists);
  }

  lemma NoLibraries(snap: Snapshot, walkable: seq<Library>)
    ensures SetOf<Sample>([]) == AllSamples(snap, walkable[..0])
  {
  }

  lemma VideosWalked(libs: seq<Library>, walk: seq<Library>, skipped: nat)
    requires IsWalkable(libs, walk, skipped)
    ensures forall l | l in walk :: l in Videos(libs)
    ensures skipped == 0 ==> forall l | l in Videos(libs) :: l in walk
    ensures skipped == 0 <==> |Videos(libs)| <= MAX_WALKED_LIBRARIES
  {
    var all: seq<Library> :| multiset(all) == multiset(Videos(libs))
      && Sequences.SortedBy(all, (l: Library) => l.order)
      && walk <= all && |walk| == Min(|all|, MAX_WALKED_LIBRARIES) && skipped == |all| - |walk|;
    assert |multiset(all)| == |multiset(Videos(libs))|;
    forall l | l in walk ensures l in Videos(libs) {
      assert l in multiset(all);
    }
    forall l | skipped == 0 && l in Videos(libs) ensures l in walk {
      assert l in multiset(Videos(libs));
      assert walk == all;
    }
  }

  /** Every video library is walked, none failing its last walk or lying past the limit. */
  predicate WalksComplete(snap: Snapshot) {
    && snap.passDone && |Videos(snap.sections)| <= MAX_WALKED_LIBRARIES
    && forall l | l in Videos(snap.sections) :: LastWalkSucceeded(snap, l)
  }

  /** Watch ages cover the whole server: moreover every video library publishes its own from
      a history that is current and fully matched. */
  predicate WatchAgesComplete(snap: Snapshot) {
    && WalksComplete(snap)
    && snap.historyEnabled && snap.view.current && snap.view.unmatched == 0
    && forall l | l in Videos(snap.sections) :: Publishes(snap, l)
  }

  /** collectCatalog: the walks are complete exactly when a pass has finished, no video
      library is past the limit, and every one's last walk succeeded; watch ages are
      complete exactly when moreover every one of them publishes watch figures. */
  method CollectCatalog(snap: Snapshot)
    returns (out: seq<Sample>, newest: seq<Item>, walkComplete: bool, watchComplete: Option<bool>, ghost walkable: seq<Library>)
    ensures exists skipped: nat :: IsWalkable(snap.sections, walkable, skipped)
    ensures SetOf(out) == AllSamples(snap, walkable)
    ensures IsTop(ByAdded, newest, Joined(RecentLists(snap, walkable)))
    ensures walkComplete <==> WalksComplete(snap)
    ensures watchComplete.Some? <==> snap.historyEnabled
    ensures watchComplete == Some(true) <==> WatchAgesComplete(snap)
  {
    hide IsWalkable, AllSamples, SetOf, IsTop, Videos;
    var walk, skipped := WalkableLibraries(snap.sections);
    walkable := walk;
    VideosWalked(snap.sections, walk, skipped);
    var walked, stamped;
    out, newest, walked, stamped := EmitLibraries(snap, walk);
    walkComplete := walked && snap.passDone && skipped == 0;
    watchComplete := None;
    if snap.historyEnabled {
      watchComplete := Some(snap.view.current && snap.view.unmatched == 0 && walkComplete && stamped);
    }
  }

  /** A watch figure is out exactly when its library is walked and vouched for. */
  lemma WatchSamplesNeedAVouchedWalk(snap: Snapshot, walkable: seq<Library>, x: Sample)
    requires IsWatchSample(x) && x in AllSamples(snap, walkable)
    ensures exists l | l in walkable :: l.id == x.library && Publishes(snap, l)
  {
    var l :| l in walkable && x in SamplesOf(snap, l);
    assert l.id == x.library && Publishes(snap, l);
  }

  /** The published bucket figures of a library are one value each, 0 when nothing is in it. */
  lemma PublishedBuckets(snap: Snapshot, walkable: seq<Library>, l: Library, b: WatchBucket, v: int)
    requires l in walkable && Publishes(snap, l)
    ensures WatchAgeBytes(l.id, b, v) in AllSamples(snap, walkable) <==> v == Get(snap.walks[l.id].stats.watchAgeBytes, b)
    ensures WatchAgeItems(l.id, b, v) in AllSamples(snap, walkable) <==> v == Get(snap.walks[l.id].stats.watchAgeItems, b)
  {
    hide Samples, Vouched;
    LibraryBuckets(l.id, snap.walks[l.id].stats, b, v);
    assert SamplesOf(snap, l) == Samples(l.id, snap.walks[l.id].stats, true);
    if WatchAgeBytes(l.id, b, v) in AllSamples(snap, walkable) {
      var k :| k in walkable && WatchAgeBytes(l.id, b, v) in SamplesOf(snap, k);
      OfLibrary(snap, k, WatchAgeBytes(l.id, b, v));
    }
    if WatchAgeItems(l.id, b, v) in AllSamples(snap, walkable) {
      var k :| k in walkable && WatchAgeItems(l.id, b, v) in SamplesOf(snap, k);
      OfLibrary(snap, k, WatchAgeItems(l.id, b, v));
    }
  }

  lemma OfLibrary(snap: Snapshot, l: Library, x: Sample)
    requires x in SamplesOf(snap, l)
    ensures x.library == l.id && SamplesOf(snap, l) == Samples(l.id, snap.walks[l.id].stats, Publishes(snap, l))
  {
  }

  lemma LibraryBuckets(id: string, st: Stats, b: WatchBucket, v: int)
    ensures WatchAgeBytes(id, b, v) in Samples(id, st, true) <==> v == Get(st.watchAgeBytes, b)
    ensures WatchAgeItems(id, b, v) in Samples(id, st, true) <==> v == Get(st.watchAgeItems, b)
  {
    assert b in WATCH_BUCKETS by {
      assert WATCH_BUCKETS[0] == Never && WATCH_BUCKETS[1] == Over1y && WATCH_BUCKETS[2] == From90dTo1y && WATCH_BUCKETS[3] == Under90d;
    }
    assert AgeSamples(id, st, WATCH_BUCKETS) <= Samples(id, st, true);
  }

  /** The samples of ranked items: the size of each listed one, and its last play when the
      library publishes; there are no others. */
  lemma PublishedItems(snap: Snapshot, walkable: seq<Library>, id: string, key: uint64, value: int)
    ensures ItemBytes(id, key, value) in AllSamples(snap, walkable)
            <==> exists l, it :: l in walkable && l.id == id && HasWalk(snap, l) && it in snap.walks[id].stats.largest
                              && it.ratingKey == key && it.bytes == value
    ensures ItemLastPlayed(id, key, value) in AllSamples(snap, walkable)
            <==> exists l, it :: l in walkable && l.id == id && Publishes(snap, l) && it in snap.walks[id].stats.largest
                              && it.ratingKey == key && it.lastPlayed == value
  {
    hide Vouched, AgeSamples;
    if l, it :|
      l in walkable && l.id == id && HasWalk(snap, l) && it in snap.walks[id].stats.largest && it.ratingKey == key && it.bytes == value {
      assert ItemBytes(id, key, value) in SamplesOf(snap, l);
    }
    if l, it :|
      l in walkable && l.id == id && Publishes(snap, l) && it in snap.walks[id].stats.largest && it.ratingKey == key && it.lastPlayed == value {
      assert ItemLastPlayed(id, key, value) in SamplesOf(snap, l);
    }
    if ItemBytes(id, key, value) in AllSamples(snap, walkable) {
      var l :| l in walkable && ItemBytes(id, key, value) in SamplesOf(snap, l);
      SizeOnly(l.id, snap.walks[l.id].stats, Publishes(snap, l), ItemBytes(id, key, value));
    }
    if ItemLastPlayed(id, key, value) in AllSamples(snap, walkable) {
      var l :| l in walkable && ItemLastPlayed(id, key, value) in SamplesOf(snap, l);
      SizeOnly(l.id, snap.walks[l.id].stats, Publishes(snap, l), ItemLastPlayed(id, key, value));
    }
  }

  lemma SizeOnly(id: string, st: Stats, watch: bool, x: Sample)
    requires x in Samples(id, st, watch)
    ensures x.ItemBytes? ==> x in SizeSamples(id, st.largest)
    ensures x.ItemLastPlayed? ==> watch && x in PlaySamples(id, st.largest)
  {
  }

  /** A library's watch figures are out exactly when it publishes them; without a history at
      all there are none. */
  lemma PublishesIff(snap: Snapshot, walkable: seq<Library>, l: Library)
    requires l in walkable
    ensures (exists x :: x in AllSamples(snap, walkable) && IsWatchSample(x) && x.library == l.id) <==> Publishes(snap, l)
    ensures !snap.historyEnabled ==> !Publishes(snap, l)
  {
    hide AllSamples;
    if Publishes(snap, l) {
      var x := WatchAgeItems(l.id, Never, Get(snap.walks[l.id].stats.watchAgeItems, Never));
      PublishedBuckets(snap, walkable, l, Never, x.value);
      assert x in AllSamples(snap, walkable) && IsWatchSample(x) && x.library == l.id;
    }
    if x :| x in AllSamples(snap, walkable) && IsWatchSample(x) && x.library == l.id {
      WatchSamplesNeedAVouchedWalk(snap, walkable, x);
    }
  }

  // ---- the newest items of the server ----

  /** Naming the library of an item changes neither its value nor its rating key. */
  lemma LabelledTop(o: Order, l: Library, list: seq<Item>, all: seq<Item>)
    requires IsTop(o, list, multiset(all))
    ensures IsTop(o, InLibrary(l, list), multiset(InLibrary(l, all)))
  {
    var full: seq<Item> :| FullSort(o, full, multiset(all)) && list == FirstTop(full);
    var named := InLibrary(l, full);
    assert Sorted(o, named);
    SamePermutation(l, full, all);
    assert FullSort(o, named, multiset(InLibrary(l, all)));
    assert InLibrary(l, list) == FirstTop(named);
  }

  lemma RestInLibrary(l: Library, b: seq<Item>, i: nat)
    requires i < |b|
    ensures multiset(InLibrary(l, b)) == multiset(InLibrary(l, b[..i] + b[i + 1..])) + multiset{InLibrary(l, b)[i]}
  {
    hide InLibrary;
    Sequences.MultisetRemove(InLibrary(l, b), i);
    assert InLibrary(l, b)[..i] + InLibrary(l, b)[i + 1..] == InLibrary(l, b[..i] + b[i + 1..]);
  }

  lemma {:induction false} SamePermutation(l: Library, a: seq<Item>, b: seq<Item>)
    requires multiset(a) == multiset(b)
    ensures multiset(InLibrary(l, a)) == multiset(InLibrary(l, b))
    decreases |a|
  {
    hide InLibrary;
    if a == [] {
      assert |multiset(b)| == 0;
    } else {
      var n := |a| - 1;
      RestInLibrary(l, a, n);
      assert a == a[..n] + [a[n]];
      assert a[..n] + a[n + 1..] == a[..n];
      assert a[n] in multiset(b);
      var i :| 0 <= i < |b| && b[i] == a[n];
      var rest := b[..i] + b[i + 1..];
      Sequences.MultisetRemove(b, i);
      Sequences.MultisetCancel(multiset(a[..n]), multiset(rest), a[n]);
      SamePermutation(l, a[..n], rest);
      RestInLibrary(l, b, i);
    }
  }

  function ListsOf(snap: Snapshot, walkable: seq<Library>, all: Library -> seq<Item>): seq<seq<Item>> {
    if walkable == [] then []
    else
      var before := ListsOf(snap, walkable[..|walkable| - 1], all);
      var l := walkable[|walkable| - 1];
      if HasWalk(snap, l) then before + [all(l)] else before
  }

  /** The published newest items are the newest ten of all the walked libraries' items
      together, though each walk kept only its own ten. */
  lemma NewestOfAllLibraries(snap: Snapshot, walkable: seq<Library>, all: Library -> seq<Item>, newest: seq<Item>)
    requires forall l | l in walkable && HasWalk(snap, l) ::
               IsTop(ByAdded, snap.walks[l.id].stats.recent, multiset(all(l)))
    requires IsTop(ByAdded, newest, Joined(RecentLists(snap, walkable)))
    ensures IsTop(ByAdded, newest, Joined(ListsOf(snap, walkable, all)))
  {
    hide IsTop;
    ListsMatch(snap, walkable, all);
    assert multiset{} + Joined(RecentLists(snap, walkable)) == Joined(RecentLists(snap, walkable));
    TruncatingFirstLosesNothing(ByAdded, newest, multiset{}, RecentLists(snap, walkable), ListsOf(snap, walkable, all));
    assert multiset{} + Joined(ListsOf(snap, walkable, all)) == Joined(ListsOf(snap, walkable, all));
  }

  lemma {:induction false} ListsMatch(snap: Snapshot, walkable: seq<Library>, all: Library -> seq<Item>)
    requires forall l | l in walkable && HasWalk(snap, l) ::
               IsTop(ByAdded, snap.walks[l.id].stats.recent, multiset(all(l)))
    ensures var tops, alls := RecentLists(snap, walkable), ListsOf(snap, walkable, all);
            |tops| == |alls| && forall i | 0 <= i < |tops| :: IsTop(ByAdded, tops[i], multiset(alls[i]))
  {
    hide IsTop;
    if walkable != [] {
      var n := |walkable| - 1;
      assert forall l | l in walkable[..n] :: l in walkable;
      ListsMatch(snap, walkable[..n], all);
      assert walkable[n] in walkable;
    }
  }
}
