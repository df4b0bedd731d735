/** Laws of a library's figures: they are determined by the first row of each key, they do
    not depend on the order of the rows, and the byte figures are conserved. */
module LibStatsLaws {
  import opened Ints
  import opened Sequences
  import opened Ranking
  import opened LibStats

  // ---- the figures are determined ----

  lemma SameRow(rows: seq<Row>, a: Row, b: Row)
    requires DistinctKeys(rows) && a in rows && b in rows && a.key == b.key
    ensures a == b
  {
    var i :| 0 <= i < |rows| && rows[i] == a;
    var j :| 0 <= j < |rows| && rows[j] == b;
  }

  lemma SameEntry(c: Config, rows: seq<Row>, a: Item, b: Item)
    requires DistinctKeys(rows)
    requires a in LargestEntries(c, rows) && b in LargestEntries(c, rows) && a.ratingKey == b.ratingKey
    ensures a == b
  {
    if !c.showLibrary {
      var r :| r in rows && Sized(r.media) && a == VideoItem(c, r);
      var t :| t in rows && Sized(t.media) && b == VideoItem(c, t);
      SameRow(rows, r, t);
    }
  }

  lemma LargestKeyed(c: Config, rows: seq<Row>)
    requires DistinctKeys(rows)
    ensures NoTies(BySize, multiset(LargestEntries(c, rows)))
  {
    hide LargestEntries;
    var all := LargestEntries(c, rows);
    forall a, b | a in all && b in all && a.ratingKey == b.ratingKey ensures a == b {
      SameEntry(c, rows, a, b);
    }
  }

  /** A show's newest episode is one of its own episodes. */
  lemma NewestIsOwn(rows: seq<Row>, show: uint64) returns (e: Row)
    requires DistinctKeys(rows) && ShowNewest(rows, show) != NO_ITEM
    ensures e in rows && e.showKey == Some(show) && ShowNewest(rows, show) == EpisodeItem(show, e)
  {
    EpisodesMeans(rows, show);
    e :| e in Episodes(rows, show) && e.addedAt > 0 && ShowNewest(rows, show) == EpisodeItem(show, e);
  }

  lemma ShowsKeyed(rows: seq<Row>, s: uint64, t: uint64)
    requires DistinctKeys(rows) && ShowNewest(rows, s) != NO_ITEM && ShowNewest(rows, t) != NO_ITEM
    requires ShowNewest(rows, s).ratingKey == ShowNewest(rows, t).ratingKey
    ensures s == t
  {
    var e := NewestIsOwn(rows, s);
    var f := NewestIsOwn(rows, t);
    SameRow(rows, e, f);
  }

  lemma SameRecent(c: Config, rows: seq<Row>, a: Item, b: Item)
    requires DistinctKeys(rows)
    requires a in RecentEntries(c, rows) && b in RecentEntries(c, rows) && a.ratingKey == b.ratingKey
    ensures a == b
  {
    if c.showLibrary {
      ShowsKeyed(rows, a.showKey, b.showKey);
    } else {
      var r :| r in rows && r.addedAt > 0 && a == VideoItem(c, r);
      var t :| t in rows && t.addedAt > 0 && b == VideoItem(c, t);
      SameRow(rows, r, t);
    }
  }

  lemma RecentKeyed(c: Config, rows: seq<Row>)
    requires DistinctKeys(rows)
    ensures NoTies(ByAdded, multiset(RecentEntries(c, rows)))
  {
    hide RecentEntries;
    var all := RecentEntries(c, rows);
    forall a, b | a in all && b in all && a.ratingKey == b.ratingKey ensures a == b {
      SameRecent(c, rows, a, b);
    }
  }

  lemma LabelsUnique(c: Config, rows: seq<Row>, kind: MediaLabel, m: map<string, int>, n: map<string, int>)
    requires LabelsExact(c, rows, kind, m) && LabelsExact(c, rows, kind, n)
    ensures m == n
  {
    assert forall k: string :: k in m <==> k in n;
    assert forall k | k in m :: Get(m, k) == Get(n, k);
  }

  lemma WatchUnique(c: Config, rows: seq<Row>, s: Stats, t: Stats)
    requires WatchExact(c, rows, s) && WatchExact(c, rows, t)
    ensures s.watchAgeBytes == t.watchAgeBytes && s.watchAgeItems == t.watchAgeItems
  {
    assert forall b: WatchBucket :: b in s.watchAgeBytes <==> b in t.watchAgeBytes;
    assert forall b | b in s.watchAgeBytes :: Get(s.watchAgeBytes, b) == Get(t.watchAgeBytes, b);
    assert forall b: WatchBucket :: b in s.watchAgeItems <==> b in t.watchAgeItems;
    assert forall b | b in s.watchAgeItems :: Get(s.watchAgeItems, b) == Get(t.watchAgeItems, b);
  }

  /** The distinct rows determine everything a walk publishes, whatever order the shows
      were ranked in. */
  lemma StatsUnique(c: Config, rows: seq<Row>, s: Stats, t: Stats)
    requires StatsOf(c, rows, s) && StatsOf(c, rows, t)
    ensures s == t
  {
    hide *;
    assert s.resolutionBytes == t.resolutionBytes && s.codecBytes == t.codecBytes by {
      StatsParts(c, rows, s);
      StatsParts(c, rows, t);
      LabelsUnique(c, rows, Resolution, s.resolutionBytes, t.resolutionBytes);
      LabelsUnique(c, rows, Codec, s.codecBytes, t.codecBytes);
    }
    assert s.watchAgeBytes == t.watchAgeBytes && s.watchAgeItems == t.watchAgeItems by {
      StatsParts(c, rows, s);
      StatsParts(c, rows, t);
      WatchUnique(c, rows, s, t);
    }
    assert s.largest == t.largest && s.recent == t.recent by {
      StatsParts(c, rows, s);
      StatsParts(c, rows, t);
      LargestKeyed(c, rows);
      RecentKeyed(c, rows);
      TopUnique(BySize, s.largest, t.largest, multiset(LargestEntries(c, rows)));
      TopUnique(ByAdded, s.recent, t.recent, multiset(RecentEntries(c, rows)));
    }
    StatsParts(c, rows, s);
    StatsParts(c, rows, t);
  }

  lemma StatsParts(c: Config, rows: seq<Row>, s: Stats)
    requires StatsOf(c, rows, s)
    ensures DistinctKeys(rows)
    ensures LabelsExact(c, rows, Resolution, s.resolutionBytes) && LabelsExact(c, rows, Codec, s.codecBytes)
    ensures WatchExact(c, rows, s)
    ensures s.multiVersionItems == Total(c, MultiVersionItems, rows)
    ensures s.extraVersionBytes == Total(c, ExtraVersionBytes, rows)
    ensures s.unsized == Total(c, Unsized, rows)
    ensures s.added24h == Total(c, AddedWithin(1), rows)
    ensures s.added7d == Total(c, AddedWithin(7), rows)
    ensures s.newestAdded == NewestAdded(rows)
    ensures IsTop(BySize, s.largest, multiset(LargestEntries(c, rows)))
    ensures IsTop(ByAdded, s.recent, multiset(RecentEntries(c, rows)))
  {
  }

  // ---- repeats ----

  /** Reading a row again, or a row whose key does not parse, changes no distinct row, and
      so no figure and no list: wherever the row comes and whatever it then says. */
  lemma {:induction false} RepeatsChangeNothing(a: seq<Row>, r: Row, b: seq<Row>)
    requires r.key.None? || r.key.value in Keys(a)
    ensures FirstRows(a + [r] + b) == FirstRows(a + b)
    decreases |b|
  {
    if b == [] {
      assert a + [r] + b == a + [r] && a + b == a;
      FirstRowsSnoc(a, r);
    } else {
      var init, last := b[..|b| - 1], b[|b| - 1];
      RepeatsChangeNothing(a, r, init);
      assert a + [r] + b == (a + [r] + init) + [last];
      assert a + b == (a + init) + [last];
      FirstRowsSnoc(a + [r] + init, last);
      FirstRowsSnoc(a + init, last);
    }
  }

  /** The row at i is the first of its parsable rating key. */
  predicate FirstOfItsKey(rows: seq<Row>, i: nat)
    requires i < |rows|
  {
    rows[i].key.Some? && forall j | 0 <= j < i :: rows[j].key != rows[i].key
  }

  /** The rows that count are exactly those read first with their rating key. */
  lemma {:induction false} FirstRowsAreFirst(rows: seq<Row>, r: Row)
    ensures r in FirstRows(rows) <==> exists i :: 0 <= i < |rows| && rows[i] == r && FirstOfItsKey(rows, i)
  {
    if rows != [] {
      var n := |rows| - 1;
      var init := rows[..n];
      FirstRowsAreFirst(init, r);
      assert forall i | 0 <= i < n :: FirstOfItsKey(rows, i) == FirstOfItsKey(init, i);
      NewIsFirst(rows, n);
    }
  }

  lemma NewIsFirst(rows: seq<Row>, n: nat)
    requires n < |rows|
    ensures IsNew(FirstRows(rows[..n]), rows[n]) <==> FirstOfItsKey(rows, n)
  {
    if rows[n].key.Some? {
      if j: nat :| j < n && rows[j].key == rows[n].key {
        assert rows[..n][j] in rows[..n];
      }
    }
  }

  lemma FirstRowsSnoc(rows: seq<Row>, r: Row)
    ensures FirstRows(rows + [r]) == if IsNew(rows, r) then FirstRows(rows) + [r] else FirstRows(rows)
  {
    assert (rows + [r])[..|rows|] == rows;
  }

  // ---- order ----

  /** Every figure is the same for the same distinct rows in another order. */
  lemma FiguresIgnoreOrder(c: Config, rows: seq<Row>, other: seq<Row>, f: Figure)
    requires multiset(rows) == multiset(other)
    ensures Total(c, f, rows) == Total(c, f, other)
  {
    SumPermutation(rows, other, Shares(c, f));
  }

  lemma SameMembers<T>(rows: seq<T>, other: seq<T>)
    requires multiset(rows) == multiset(other)
    ensures forall r :: r in rows <==> r in other
  {
    forall r ensures r in rows <==> r in other {
      assert r in rows <==> r in multiset(rows);
      assert r in other <==> r in multiset(other);
    }
  }

  lemma {:induction false} NewestAddedMeans(rows: seq<Row>)
    ensures 0 <= NewestAdded(rows)
    ensures forall r | r in rows :: r.addedAt <= NewestAdded(rows)
    ensures NewestAdded(rows) == 0 || exists r :: r in rows && r.addedAt == NewestAdded(rows)
  {
    if rows != [] {
      NewestAddedMeans(rows[..|rows| - 1]);
      assert rows == rows[..|rows| - 1] + [rows[|rows| - 1]];
    }
  }

  lemma NewestAddedIgnoresOrder(rows: seq<Row>, other: seq<Row>)
    requires multiset(rows) == multiset(other)
    ensures NewestAdded(rows) == NewestAdded(other)
  {
    SameMembers(rows, other);
    NewestAddedMeans(rows);
    NewestAddedMeans(other);
  }

  lemma ShowNewestIgnoresOrder(rows: seq<Row>, other: seq<Row>, show: uint64)
    requires DistinctKeys(rows) && DistinctKeys(other) && multiset(rows) == multiset(other)
    ensures ShowNewest(rows, show) == ShowNewest(other, show)
  {
    SameMembers(rows, other);
    EpisodesMeans(rows, show);
    EpisodesMeans(other, show);
    var a, b := ShowNewest(rows, show), ShowNewest(other, show);
    if a != NO_ITEM && b != NO_ITEM {
      var e := NewestIsOwn(rows, show);
      var f := NewestIsOwn(other, show);
      assert e in Episodes(other, show) && f in Episodes(rows, show);
      assert e.addedAt > 0 && f.addedAt > 0;
      SameRow(rows, e, f);
    }
  }

  lemma RecentIgnoresOrder(c: Config, rows: seq<Row>, other: seq<Row>)
    requires DistinctKeys(rows) && DistinctKeys(other) && multiset(rows) == multiset(other)
    ensures RecentEntries(c, rows) == RecentEntries(c, other)
  {
    SameMembers(rows, other);
    assert Shows(rows) == Shows(other);
    forall s: uint64 ensures ShowNewest(rows, s) == ShowNewest(other, s) {
      ShowNewestIgnoresOrder(rows, other, s);
    }
  }

  // A show's title is its first-read episode's, so order-independence of the largest list
  // is stated on entries without titles.

  function Untitled(it: Item): Item {
    it.(title := "")
  }

  function UntitledList(list: seq<Item>): (r: seq<Item>)
    ensures |r| == |list| && forall i | 0 <= i < |r| :: r[i] == Untitled(list[i])
  {
    seq(|list|, i requires 0 <= i < |list| => Untitled(list[i]))
  }

  ghost function UntitledSet(all: set<Item>): set<Item> {
    set it | it in all :: Untitled(it)
  }

  lemma {:induction false} DistinctMultiset<T>(xs: seq<T>, all: set<T>)
    requires forall i, j | 0 <= i < j < |xs| :: xs[i] != xs[j]
    requires forall x :: x in xs <==> x in all
    ensures multiset(xs) == multiset(all)
    decreases |xs|
  {
    if xs == [] {
      assert all == {};
    } else {
      var init, last := xs[..|xs| - 1], xs[|xs| - 1];
      assert xs == init + [last];
      assert last !in init;
      DistinctMultiset(init, all - {last});
      assert multiset(all) == multiset(all - {last}) + multiset{last};
    }
  }

  lemma RepeatCounts<T>(xs: seq<T>, i: nat, j: nat)
    requires i < j < |xs| && xs[i] == xs[j]
    ensures multiset(xs)[xs[i]] >= 2
  {
    assert xs == xs[..j] + [xs[j]] + xs[j + 1..];
    assert xs[i] in xs[..j];
  }

  lemma SetHasNoRepeats<T>(xs: seq<T>, all: set<T>)
    requires multiset(xs) == multiset(all)
    ensures forall i, j | 0 <= i < j < |xs| :: xs[i] != xs[j]
    ensures forall x :: x in xs <==> x in all
  {
    forall x ensures x in xs <==> x in all {
      assert x in xs <==> x in multiset(xs);
    }
    forall i, j | 0 <= i < j < |xs| ensures xs[i] != xs[j] {
      if xs[i] == xs[j] {
        RepeatCounts(xs, i, j);
      }
    }
  }

  /** The top ten of entries with distinct keys, without titles, is the top ten of the
      entries without titles. */
  lemma UntitledTop(list: seq<Item>, all: set<Item>)
    requires IsTop(BySize, list, multiset(all))
    requires forall a, b | a in all && b in all && a.ratingKey == b.ratingKey :: a == b
    ensures IsTop(BySize, UntitledList(list), multiset(UntitledSet(all)))
  {
    var full: seq<Item> :| FullSort(BySize, full, multiset(all)) && list == FirstTop(full);
    SetHasNoRepeats(full, all);
    var bare := UntitledList(full);
    forall i, j | 0 <= i < j < |bare| ensures bare[i] != bare[j] {
      assert full[i] in all && full[j] in all;
    }
    forall x ensures x in bare <==> x in UntitledSet(all) {
      if x in UntitledSet(all) {
        var it :| it in all && x == Untitled(it);
        var i :| 0 <= i < |full| && full[i] == it;
        assert bare[i] == x;
      }
      if x in bare {
        var i :| 0 <= i < |bare| && bare[i] == x;
        assert full[i] in all;
      }
    }
    DistinctMultiset(bare, UntitledSet(all));
    UntitledSorted(full);
    assert FullSort(BySize, bare, multiset(UntitledSet(all)));
    assert UntitledList(list) == FirstTop(bare);
  }

  lemma UntitledSorted(full: seq<Item>)
    requires Sorted(BySize, full)
    ensures Sorted(BySize, UntitledList(full))
  {
  }

  lemma {:induction false} ShowLastPlayMeans(c: Config, show: uint64, episodes: seq<Row>)
    requires forall e | e in episodes :: e.key.Some?
    ensures c.played(ShowPlay(show)) <= ShowLastPlay(c, show, episodes)
    ensures forall e | e in episodes :: LastPlay(c, e) <= ShowLastPlay(c, show, episodes)
    ensures ShowLastPlay(c, show, episodes) == c.played(ShowPlay(show))
         || exists e :: e in episodes && LastPlay(c, e) == ShowLastPlay(c, show, episodes)
  {
    if episodes != [] {
      var n := |episodes| - 1;
      ShowLastPlayMeans(c, show, episodes[..n]);
      assert episodes == episodes[..n] + [episodes[n]];
    }
  }

  /** The episodes of a show, counted: only its own rows, each as often as it was read. */
  lemma {:induction false} EpisodesCounted(rows: seq<Row>, show: uint64, r: Row)
    ensures multiset(Episodes(rows, show))[r] == if r.showKey == Some(show) then multiset(rows)[r] else 0
  {
    if rows != [] {
      var init, last := rows[..|rows| - 1], rows[|rows| - 1];
      EpisodesCounted(init, show, r);
      assert rows == init + [last];
    }
  }

  lemma EpisodesIgnoreOrder(rows: seq<Row>, other: seq<Row>, show: uint64)
    requires multiset(rows) == multiset(other)
    ensures multiset(Episodes(rows, show)) == multiset(Episodes(other, show))
  {
    forall r ensures multiset(Episodes(rows, show))[r] == multiset(Episodes(other, show))[r] {
      EpisodesCounted(rows, show, r);
      EpisodesCounted(other, show, r);
    }
  }

  lemma ShowLastPlayIgnoresOrder(c: Config, show: uint64, a: seq<Row>, b: seq<Row>)
    requires multiset(a) == multiset(b) && forall e | e in a :: e.key.Some?
    requires forall e | e in b :: e.key.Some?
    ensures ShowLastPlay(c, show, a) == ShowLastPlay(c, show, b)
  {
    SameMembers(a, b);
    ShowLastPlayMeans(c, show, a);
    ShowLastPlayMeans(c, show, b);
  }

  lemma ShowItemIgnoresOrder(c: Config, rows: seq<Row>, other: seq<Row>, show: uint64)
    requires DistinctKeys(rows) && DistinctKeys(other) && multiset(rows) == multiset(other)
    requires show in Shows(rows) && show in Shows(other)
    ensures Rankable(Episodes(rows, show)) == Rankable(Episodes(other, show))
    ensures Rankable(Episodes(rows, show)) ==>
              Untitled(ShowEntry(c, rows, show)) == Untitled(ShowEntry(c, other, show))
  {
    SameMembers(rows, other);
    EpisodesMeans(rows, show);
    EpisodesMeans(other, show);
    EpisodesIgnoreOrder(rows, other, show);
    SameMembers(Episodes(rows, show), Episodes(other, show));
    SumPermutation(Episodes(rows, show), Episodes(other, show), RowBytes);
    ShowLastPlayIgnoresOrder(c, show, Episodes(rows, show), Episodes(other, show));
  }

  lemma LargestIgnoresOrder(c: Config, rows: seq<Row>, other: seq<Row>)
    requires DistinctKeys(rows) && DistinctKeys(other) && multiset(rows) == multiset(other)
    ensures UntitledSet(LargestEntries(c, rows)) <= UntitledSet(LargestEntries(c, other))
    ensures !c.showLibrary ==> LargestEntries(c, rows) == LargestEntries(c, other)
  {
    SameMembers(rows, other);
    if c.showLibrary {
      forall x | x in UntitledSet(LargestEntries(c, rows)) ensures x in UntitledSet(LargestEntries(c, other)) {
        var it :| it in LargestEntries(c, rows) && x == Untitled(it);
        LargestShowIgnoresOrder(c, rows, other, it);
      }
    }
  }

  lemma LargestShowIgnoresOrder(c: Config, rows: seq<Row>, other: seq<Row>, it: Item)
    requires DistinctKeys(rows) && DistinctKeys(other) && multiset(rows) == multiset(other)
    requires c.showLibrary && it in LargestEntries(c, rows)
    ensures Untitled(it) in UntitledSet(LargestEntries(c, other))
  {
    SameMembers(rows, other);
    assert Shows(rows) == Shows(other);
    var s := it.ratingKey;
    EpisodesMeans(rows, s);
    EpisodesMeans(other, s);
    ShowItemIgnoresOrder(c, rows, other, s);
    assert it == ShowEntry(c, rows, s);
    assert ShowEntry(c, other, s) in LargestEntries(c, other);
  }

  lemma UntitledKeyed(c: Config, rows: seq<Row>)
    requires DistinctKeys(rows)
    ensures forall a, b | a in LargestEntries(c, rows) && b in LargestEntries(c, rows) && a.ratingKey == b.ratingKey :: a == b
    ensures NoTies(BySize, multiset(UntitledSet(LargestEntries(c, rows))))
  {
    var all := LargestEntries(c, rows);
    forall a, b | a in all && b in all && a.ratingKey == b.ratingKey ensures a == b {
      SameEntry(c, rows, a, b);
    }
  }

  /** The same distinct rows in another order publish the same counts, byte totals and
      newest list, and the same largest list except for the titles of shows. */
  lemma StatsIgnoreOrder(c: Config, rows: seq<Row>, other: seq<Row>, s: Stats, t: Stats)
    requires multiset(rows) == multiset(other)
    requires StatsOf(c, rows, s) && StatsOf(c, other, t)
    ensures s == t.(largest := s.largest)
    ensures UntitledList(s.largest) == UntitledList(t.largest)
    ensures !c.showLibrary ==> s == t
  {
    hide LabelsExact, WatchExact, IsTop, LargestEntries, RecentEntries, UntitledList, Total;
    CountsIgnoreOrder(c, rows, other, s, t);
    MapsIgnoreOrder(c, rows, other, s, t);
    ListsIgnoreOrder(c, rows, other, s, t);
  }

  lemma CountsIgnoreOrder(c: Config, rows: seq<Row>, other: seq<Row>, s: Stats, t: Stats)
    requires multiset(rows) == multiset(other)
    requires CountsExact(c, rows, s) && CountsExact(c, other, t)
    ensures CountsExact(c, rows, t)
  {
    forall f ensures Total(c, f, rows) == Total(c, f, other) {
      FiguresIgnoreOrder(c, rows, other, f);
    }
    NewestAddedIgnoresOrder(rows, other);
  }

  lemma MapsIgnoreOrder(c: Config, rows: seq<Row>, other: seq<Row>, s: Stats, t: Stats)
    requires multiset(rows) == multiset(other)
    requires LabelsExact(c, rows, Resolution, s.resolutionBytes) && LabelsExact(c, other, Resolution, t.resolutionBytes)
    requires LabelsExact(c, rows, Codec, s.codecBytes) && LabelsExact(c, other, Codec, t.codecBytes)
    requires WatchExact(c, rows, s) && WatchExact(c, other, t)
    ensures s.resolutionBytes == t.resolutionBytes && s.codecBytes == t.codecBytes
    ensures s.watchAgeBytes == t.watchAgeBytes && s.watchAgeItems == t.watchAgeItems
  {
    forall f ensures Total(c, f, rows) == Total(c, f, other) {
      FiguresIgnoreOrder(c, rows, other, f);
    }
    assert LabelsExact(c, rows, Resolution, t.resolutionBytes) && LabelsExact(c, rows, Codec, t.codecBytes);
    LabelsUnique(c, rows, Resolution, s.resolutionBytes, t.resolutionBytes);
    LabelsUnique(c, rows, Codec, s.codecBytes, t.codecBytes);
    WatchUnique(c, rows, s, t);
  }

  lemma ListsIgnoreOrder(c: Config, rows: seq<Row>, other: seq<Row>, s: Stats, t: Stats)
    requires DistinctKeys(rows) && DistinctKeys(other) && multiset(rows) == multiset(other)
    requires ListsExact(c, rows, s) && ListsExact(c, other, t)
    ensures s.recent == t.recent
    ensures UntitledList(s.largest) == UntitledList(t.largest)
    ensures !c.showLibrary ==> s.largest == t.largest
  {
    hide Before, Sorted, IsTop, LargestEntries, RecentEntries, NoTies, UntitledSet;
    RecentIgnoresOrder(c, rows, other);
    RecentKeyed(c, rows);
    TopUnique(ByAdded, s.recent, t.recent, multiset(RecentEntries(c, rows)));
    LargestIgnoresOrder(c, rows, other);
    LargestIgnoresOrder(c, other, rows);
    UntitledKeyed(c, rows);
    UntitledKeyed(c, other);
    UntitledTop(s.largest, LargestEntries(c, rows));
    UntitledTop(t.largest, LargestEntries(c, other));
    assert UntitledSet(LargestEntries(c, rows)) == UntitledSet(LargestEntries(c, other));
    TopUnique(BySize, UntitledList(s.largest), UntitledList(t.largest), multiset(UntitledSet(LargestEntries(c, rows))));
    if !c.showLibrary {
      LargestKeyed(c, rows);
      TopUnique(BySize, s.largest, t.largest, multiset(LargestEntries(c, rows)));
    }
  }

  // ---- conservation ----

  /** The watch-age item buckets sum to the distinct items, which are the sized and the
      unsized ones; the watch-age byte buckets sum to the bytes of the sized ones. */
  lemma {:induction false} WatchBucketsConserve(c: Config, rows: seq<Row>)
    requires DistinctKeys(rows)
    ensures Total(c, WatchItems(Never), rows) + Total(c, WatchItems(Over1y), rows)
          + Total(c, WatchItems(From90dTo1y), rows) + Total(c, WatchItems(Under90d), rows) == |rows|
    ensures Total(c, WatchBytes(Never), rows) + Total(c, WatchBytes(Over1y), rows)
          + Total(c, WatchBytes(From90dTo1y), rows) + Total(c, WatchBytes(Under90d), rows)
         == Total(c, SizedBytes, rows)
    ensures Total(c, Items, rows) == |rows|
    ensures SizedCount(rows) + Total(c, Unsized, rows) == |rows|
  {
    if rows != [] {
      WatchBucketsConserve(c, rows[..|rows| - 1]);
      assert rows[|rows| - 1] in rows;
    }
  }

  function SizedCount(rows: seq<Row>): nat {
    if rows == [] then 0
    else SizedCount(rows[..|rows| - 1]) + if Sized(rows[|rows| - 1].media) then 1 else 0
  }

  lemma {:induction false} LargestVersionMeans(media: seq<Media>)
    requires forall m | m in media :: 0 < MediaBytes(m)
    ensures 0 <= LargestVersion(media) <= TotalBytes(media)
    ensures forall m | m in media :: MediaBytes(m) <= LargestVersion(media)
    ensures media != [] ==> exists m :: m in media && MediaBytes(m) == LargestVersion(media)
  {
    if media != [] {
      var n := |media| - 1;
      assert media == media[..n] + [media[n]];
      LargestVersionMeans(media[..n]);
      assert media[n] in media;
    }
  }

  /** The extra versions never exceed the sized bytes they are part of. */
  lemma {:induction false} ExtraVersionsWithinTotal(c: Config, rows: seq<Row>)
    ensures 0 <= Total(c, ExtraVersionBytes, rows) <= Total(c, SizedBytes, rows)
  {
    if rows != [] {
      ExtraVersionsWithinTotal(c, rows[..|rows| - 1]);
      var r := rows[|rows| - 1];
      if Sized(r.media) {
        SizedIsPositive(r.media);
        LargestVersionMeans(r.media);
      }
    }
  }

  /** A label table: each label once. */
  ghost predicate Distinct(labels: seq<string>) {
    forall i, j | 0 <= i < j < |labels| :: labels[i] != labels[j]
  }

  function TotalsByLabel(c: Config, kind: MediaLabel, rows: seq<Row>): string -> int {
    name => Total(c, LabelBytes(kind, name), rows)
  }

  function RowByLabel(c: Config, kind: MediaLabel, r: Row): string -> int {
    name => Share(c, LabelBytes(kind, name), r)
  }

  function MediaByLabel(c: Config, kind: MediaLabel, media: seq<Media>): string -> int {
    name => Sum(media, Labelled(c, kind, name))
  }

  function VersionByLabel(c: Config, kind: MediaLabel, m: Media): string -> int {
    name => LabelledBytes(c, kind, name, m)
  }

  /** One version's bytes land under exactly one label. */
  lemma {:induction false} VersionLabelled(c: Config, kind: MediaLabel, m: Media, labels: seq<string>)
    requires Distinct(labels)
    ensures Sum(labels, VersionByLabel(c, kind, m)) == if LabelOf(c, kind, m) in labels then MediaBytes(m) else 0
  {
    if labels != [] {
      var n := |labels| - 1;
      var own := LabelOf(c, kind, m);
      VersionLabelled(c, kind, m, labels[..n]);
      assert labels == labels[..n] + [labels[n]];
      assert own == labels[n] ==> own !in labels[..n];
    }
  }

  lemma {:induction false} MediaLabelled(c: Config, kind: MediaLabel, media: seq<Media>, labels: seq<string>)
    requires Distinct(labels) && forall m | m in media :: LabelOf(c, kind, m) in labels
    ensures Sum(labels, MediaByLabel(c, kind, media)) == TotalBytes(media)
    decreases |media|
  {
    if media == [] {
      SumZero(labels, MediaByLabel(c, kind, media));
    } else {
      var init, last := media[..|media| - 1], media[|media| - 1];
      assert last in media && forall m | m in init :: m in media;
      MediaLabelled(c, kind, init, labels);
      VersionLabelled(c, kind, last, labels);
      SumAdd(labels, MediaByLabel(c, kind, init), VersionByLabel(c, kind, last), MediaByLabel(c, kind, media));
    }
  }

  /** Every label that a sized row's versions carry is in the table. */
  ghost predicate Covers(c: Config, kind: MediaLabel, rows: seq<Row>, labels: seq<string>) {
    forall r, m | r in rows && Sized(r.media) && m in r.media :: LabelOf(c, kind, m) in labels
  }

  /** The resolution bytes, and the codec bytes, over all labels sum to the sized bytes. */
  lemma {:induction false} LabelsConserve(c: Config, kind: MediaLabel, rows: seq<Row>, labels: seq<string>)
    requires DistinctKeys(rows) && Distinct(labels) && Covers(c, kind, rows, labels)
    ensures Sum(labels, TotalsByLabel(c, kind, rows)) == Total(c, SizedBytes, rows)
    decreases |rows|
  {
    if rows == [] {
      SumZero(labels, TotalsByLabel(c, kind, rows));
    } else {
      var init, last := rows[..|rows| - 1], rows[|rows| - 1];
      assert last in rows && forall r | r in init :: r in rows;
      LabelsConserve(c, kind, init, labels);
      SumAdd(labels, TotalsByLabel(c, kind, init), RowByLabel(c, kind, last), TotalsByLabel(c, kind, rows));
      RowLabelled(c, kind, last, labels);
    }
  }

  lemma RowLabelled(c: Config, kind: MediaLabel, r: Row, labels: seq<string>)
    requires r.key.Some? && Distinct(labels)
    requires Sized(r.media) ==> forall m | m in r.media :: LabelOf(c, kind, m) in labels
    ensures Sum(labels, RowByLabel(c, kind, r)) == RowBytes(r)
  {
    if Sized(r.media) {
      MediaLabelled(c, kind, r.media, labels);
      SumSame(labels, RowByLabel(c, kind, r), MediaByLabel(c, kind, r.media));
    } else {
      SumZero(labels, RowByLabel(c, kind, r));
    }
  }

  lemma SumSame<T>(xs: seq<T>, f: T -> int, g: T -> int)
    requires forall x | x in xs :: f(x) == g(x)
    ensures Sum(xs, f) == Sum(xs, g)
  {
    SumMonotone(xs, f, g);
    SumMonotone(xs, g, f);
  }

  /** A published label map holds a positive figure for exactly the labels of the sized
      versions, so its own keys cover them and its values sum to the sized bytes. */
  lemma PublishedLabelsConserve(c: Config, kind: MediaLabel, rows: seq<Row>, st: Stats, labels: seq<string>)
    requires StatsOf(c, rows, st)
    requires Distinct(labels) && forall name :: name in labels <==> name in LabelMap(st, kind)
    ensures Sum(labels, (name: string) => Get(LabelMap(st, kind), name)) == Total(c, SizedBytes, rows)
  {
    forall r, m | r in rows && Sized(r.media) && m in r.media ensures LabelOf(c, kind, m) in labels {
      LabelPresent(c, kind, rows, r, m);
    }
    LabelsConserve(c, kind, rows, labels);
    SumSame(labels, (name: string) => Get(LabelMap(st, kind), name), TotalsByLabel(c, kind, rows));
  }

  lemma LabelPresent(c: Config, kind: MediaLabel, rows: seq<Row>, r: Row, m: Media)
    requires DistinctKeys(rows) && r in rows && Sized(r.media) && m in r.media
    ensures 0 < Total(c, LabelBytes(kind, LabelOf(c, kind, m)), rows)
  {
    var name := LabelOf(c, kind, m);
    LabelledPresent(c, kind, r.media, m);
    var i :| 0 <= i < |rows| && rows[i] == r;
    SumRemove(rows, i, Shares(c, LabelBytes(kind, name)));
    SharesNonNegative(c, LabelBytes(kind, name), rows[..i] + rows[i + 1..]);
  }

  lemma LabelledPresent(c: Config, kind: MediaLabel, media: seq<Media>, m: Media)
    requires Sized(media) && m in media
    ensures 0 < Sum(media, Labelled(c, kind, LabelOf(c, kind, m)))
  {
    var f := Labelled(c, kind, LabelOf(c, kind, m));
    SizedIsPositive(media);
    var k :| 0 <= k < |media| && media[k] == m;
    SumRemove(media, k, f);
    SumNonNegative(media[..k] + media[k + 1..], f);
  }

  lemma ShareNonNegative(c: Config, f: Figure, r: Row)
    ensures 0 <= Share(c, f, r)
  {
    if Sized(r.media) {
      SizedIsPositive(r.media);
      LargestVersionMeans(r.media);
      if f.LabelBytes? {
        SumNonNegative(r.media, Labelled(c, f.kind, f.name));
      }
    }
  }

  lemma SharesNonNegative(c: Config, f: Figure, rows: seq<Row>)
    ensures 0 <= Total(c, f, rows)
  {
    forall r ensures 0 <= Share(c, f, r) {
      ShareNonNegative(c, f, r);
    }
    SumNonNegative(rows, Shares(c, f));
  }

  /** Figures only grow as rows are read, so one that no longer fits never fits again. */
  lemma TotalGrows(c: Config, f: Figure, rows: seq<Row>, more: seq<Row>)
    ensures Total(c, f, rows) <= Total(c, f, rows + more)
  {
    SumConcat(rows, more, Shares(c, f));
    SharesNonNegative(c, f, more);
  }

  // ---- watch ages under other answers ----

  /** The distinct items last played at or after a time. */
  function PlayedFrom(c: Config, time: int): Row -> int {
    (r: Row) => if r.key.Some? && LastPlay(c, r) >= time then 1 else 0
  }

  function CountFrom(c: Config, time: int, rows: seq<Row>): int {
    Sum(rows, PlayedFrom(c, time))
  }

  /** The same walk with answers no older. */
  ghost predicate NoOlder(c: Config, newer: Config, rows: seq<Row>) {
    && newer == c.(played := newer.played)
    && forall r | r in rows :: r.key.Some? && c.played(ItemPlay(r.key.value)) <= newer.played(ItemPlay(r.key.value))
  }

  lemma CountRises(c: Config, newer: Config, time: int, rows: seq<Row>)
    requires NoOlder(c, newer, rows)
    ensures CountFrom(c, time, rows) <= CountFrom(newer, time, rows)
  {
    SumMonotone(rows, PlayedFrom(c, time), PlayedFrom(newer, time));
  }

  /** How many items were played within 90 days, within a year, and never. */
  datatype Ages = Ages(days90: int, year: int, never: int)

  function AgesOf(c: Config, rows: seq<Row>): Ages {
    Ages(Total(c, WatchItems(Under90d), rows), Total(c, WatchItems(Under90d), rows) + Total(c, WatchItems(From90dTo1y), rows),
         Total(c, WatchItems(Never), rows))
  }

  /** The same, as published. */
  function ShownAges(st: Stats): Ages {
    Ages(Get(st.watchAgeItems, Under90d), Get(st.watchAgeItems, Under90d) + Get(st.watchAgeItems, From90dTo1y),
         Get(st.watchAgeItems, Never))
  }

  predicate NoFresher(a: Ages, b: Ages) {
    a.days90 <= b.days90 && a.year <= b.year && b.never <= a.never
  }

  /** The published buckets are counts of items played since a time. */
  lemma {:induction false} AgesAreCounts(c: Config, rows: seq<Row>)
    requires forall r | r in rows :: r.key.Some?
    ensures AgesOf(c, rows) == Ages(CountFrom(c, Max(1, c.now - 90 * DAY + 1), rows), CountFrom(c, Max(1, c.now - 365 * DAY + 1), rows),
                                    |rows| - CountFrom(c, 1, rows))
  {
    if rows != [] {
      var n := |rows| - 1;
      assert forall r | r in rows[..n] :: r in rows;
      assert rows[n] in rows;
      AgesAreCounts(c, rows[..n]);
    }
  }

  /** Answers that are no older make no published age staler. */
  lemma AgesFollowAnswers(c: Config, newer: Config, rows: seq<Row>)
    requires NoOlder(c, newer, rows)
    ensures NoFresher(AgesOf(c, rows), AgesOf(newer, rows))
  {
    hide AgesOf, CountFrom;
    AgesAreCounts(c, rows);
    AgesAreCounts(newer, rows);
    CountRises(c, newer, Max(1, c.now - 90 * DAY + 1), rows);
    CountRises(c, newer, Max(1, c.now - 365 * DAY + 1), rows);
    CountRises(c, newer, 1, rows);
  }

  lemma PublishedAges(c: Config, rows: seq<Row>, st: Stats)
    requires WatchItemsExact(c, rows, st.watchAgeItems)
    ensures ShownAges(st) == AgesOf(c, rows)
  {
  }
}
