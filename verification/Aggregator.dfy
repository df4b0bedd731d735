/** The one-pass aggregation of a library walk (internal/libstats/libstats.go), proved to
    publish exactly what LibStats.dfy says of the first row of each rating key. */
module Aggregator {
  import opened Ints
  import opened Sequences
  import opened Ranking
  import opened LibStats
  import opened LibStatsLaws
  import opened KeySets

  // ---- the size of one item ----

  lemma PrefixTooBig(media: seq<Media>, i: nat, j: nat)
    requires i < |media| && j < |media[i].parts|
    requires Sum(media[..i], MediaBytes) + Sum(media[i].parts[..j + 1], PartBytes) > MAX_INT64
    ensures !Sized(media)
  {
    if Sized(media) {
      SizedIsPositive(media);
      var m := media[i];
      assert m in media;
      assert m.parts == m.parts[..j + 1] + m.parts[j + 1..];
      SumConcat(m.parts[..j + 1], m.parts[j + 1..], PartBytes);
      KnownTail(m, j + 1);
      PrefixWithin(media, i);
    }
  }

  lemma KnownTail(m: Media, j: nat)
    requires MediaKnown(m) && j <= |m.parts|
    ensures 0 <= Sum(m.parts[j..], PartBytes)
  {
    forall p | p in m.parts[j..] ensures 0 <= PartBytes(p) {
      assert p in m.parts;
    }
    SumNonNegative(m.parts[j..], PartBytes);
  }

  lemma PrefixWithin(media: seq<Media>, i: nat)
    requires i < |media| && forall m | m in media :: 0 < MediaBytes(m)
    ensures Sum(media[..i], MediaBytes) + MediaBytes(media[i]) <= TotalBytes(media)
  {
    assert media == media[..i] + [media[i]] + media[i + 1..];
    SumConcat(media[..i] + [media[i]], media[i + 1..], MediaBytes);
    SumSnoc(media[..i], media[i], MediaBytes);
    SumNonNegative(media[i + 1..], MediaBytes);
  }

  /** The running total passes int64 at part j. */
  ghost predicate PassesAt(m: Media, before: int, j: nat) {
    j < |m.parts| && before + Sum(m.parts[..j + 1], PartBytes) > MAX_INT64
  }

  /** The bytes of one version, on top of a running total; known is false once the size of a
      part is missing or not positive, or would carry the total past int64. */
  method VersionBytes(m: Media, before: int) returns (bytes: int, known: bool)
    requires 0 <= before <= MAX_INT64
    ensures known ==> MediaKnown(m) && bytes == MediaBytes(m) && before + bytes <= MAX_INT64
    ensures !known ==> (!MediaKnown(m) || exists j :: PassesAt(m, before, j))
  {
    bytes := 0;
    if |m.parts| == 0 {
      return 0, false;
    }
    for j := 0 to |m.parts|
      invariant 0 <= bytes && before + bytes <= MAX_INT64
      invariant bytes == Sum(m.parts[..j], PartBytes)
      invariant forall k | 0 <= k < j :: PartKnown(m.parts[k])
    {
      var p: Option<int64> := m.parts[j];
      assert m.parts[..j + 1] == m.parts[..j] + [p];
      SumSnoc(m.parts[..j], p, PartBytes);
      assert p in m.parts;
      if p.None? || p.value <= 0 || p.value > MAX_INT64 - (before + bytes) {
        assert p.Some? && p.value > 0 ==> PassesAt(m, before, j);
        return 0, false;
      }
      bytes := bytes + p.value;
    }
    assert m.parts[..|m.parts|] == m.parts;
    known := true;
  }

  /** itemBytes: every part of every version, or unsized when any size is unknown or the
      sum does not fit. */
  method ItemBytes(media: seq<Media>) returns (total: int, sizes: seq<int>, sized: bool)
    ensures sized <==> Sized(media)
    ensures sized ==> total == TotalBytes(media) && |sizes| == |media|
    ensures sized ==> forall i | 0 <= i < |media| :: sizes[i] == MediaBytes(media[i])
    ensures !sized ==> total == 0 && sizes == []
  {
    total, sizes := 0, [];
    if |media| == 0 {
      return 0, [], false;
    }
    for i := 0 to |media|
      invariant |sizes| == i && 0 <= total <= MAX_INT64
      invariant total == Sum(media[..i], MediaBytes)
      invariant forall k | 0 <= k < i :: sizes[k] == MediaBytes(media[k]) && MediaKnown(media[k])
    {
      var bytes, known := VersionBytes(media[i], total);
      if !known {
        if MediaKnown(media[i]) {
          ghost var j :| PassesAt(media[i], total, j);
          PrefixTooBig(media, i, j);
        }
        assert media[i] in media;
        return 0, [], false;
      }
      KnownIsPositive(media[i]);
      assert media[..i + 1] == media[..i] + [media[i]];
      SumSnoc(media[..i], media[i], MediaBytes);
      sizes := sizes + [bytes];
      total := total + bytes;
    }
    assert media[..|media|] == media;
    sized := true;
  }

  // ---- one row's effect on the figures, as values ----

  function Bump<K>(m: map<K, int>, k: K, n: int): map<K, int> {
    m[k := Get(m, k) + n]
  }

  /** A label map after the versions of one sized item. */
  function AddLabels(c: Config, kind: MediaLabel, m: map<string, int>, media: seq<Media>): map<string, int> {
    if media == [] then m
    else
      var last := media[|media| - 1];
      Bump(AddLabels(c, kind, m, media[..|media| - 1]), LabelOf(c, kind, last), MediaBytes(last))
  }

  lemma {:induction false} AddLabelsMeans(c: Config, kind: MediaLabel, m: map<string, int>, media: seq<Media>, name: string)
    ensures Get(AddLabels(c, kind, m, media), name) == Get(m, name) + Sum(media, Labelled(c, kind, name))
    ensures name in AddLabels(c, kind, m, media) <==> name in m || exists v :: v in media && LabelOf(c, kind, v) == name
  {
    if media != [] {
      var n := |media| - 1;
      AddLabelsMeans(c, kind, m, media[..n], name);
      assert media == media[..n] + [media[n]];
    }
  }

  /** The figures after one sized item's versions. */
  function MediaAfter(c: Config, st: Stats, media: seq<Media>): Stats {
    st.(resolutionBytes := AddLabels(c, Resolution, st.resolutionBytes, media),
        codecBytes := AddLabels(c, Codec, st.codecBytes, media),
        multiVersionItems := st.multiVersionItems + if |media| > 1 then 1 else 0,
        extraVersionBytes := st.extraVersionBytes + if |media| > 1 then TotalBytes(media) - LargestVersion(media) else 0)
  }

  function LabelsAfter(c: Config, kind: MediaLabel, m: map<string, int>, r: Row): map<string, int> {
    if Sized(r.media) then AddLabels(c, kind, m, r.media) else m
  }

  function WatchBytesAfter(c: Config, m: map<WatchBucket, int>, r: Row): map<WatchBucket, int>
    requires r.key.Some?
  {
    if Sized(r.media) then Bump(m, BucketOf(c, r), TotalBytes(r.media)) else m
  }

  /** The figures after one more distinct row; the lists are not its business. */
  function Counted(c: Config, st: Stats, r: Row): Stats
    requires r.key.Some?
  {
    Stats(
      LabelsAfter(c, Resolution, st.resolutionBytes, r),
      LabelsAfter(c, Codec, st.codecBytes, r),
      WatchBytesAfter(c, st.watchAgeBytes, r),
      Bump(st.watchAgeItems, BucketOf(c, r), 1),
      st.largest,
      st.recent,
      st.multiVersionItems + Share(c, MultiVersionItems, r),
      st.extraVersionBytes + Share(c, ExtraVersionBytes, r),
      Max(st.newestAdded, r.addedAt),
      st.added24h + Share(c, AddedWithin(1), r),
      st.added7d + Share(c, AddedWithin(7), r),
      st.unsized + Share(c, Unsized, r)
    )
  }

  /** All additive figures are exact. */
  ghost predicate Tallied(c: Config, rows: seq<Row>, st: Stats) {
    && LabelsExact(c, rows, Resolution, st.resolutionBytes)
    && LabelsExact(c, rows, Codec, st.codecBytes)
    && WatchExact(c, rows, st)
    && CountsExact(c, rows, st)
  }

  lemma TotalSnoc(c: Config, f: Figure, rows: seq<Row>, r: Row)
    ensures Total(c, f, rows + [r]) == Total(c, f, rows) + Share(c, f, r)
  {
    SumSnoc(rows, r, Shares(c, f));
  }

  lemma LabelsCounted(c: Config, rows: seq<Row>, r: Row, kind: MediaLabel, m: map<string, int>)
    requires r.key.Some? && LabelsExact(c, rows, kind, m)
    ensures LabelsExact(c, rows + [r], kind, LabelsAfter(c, kind, m, r))
  {
    var after := LabelsAfter(c, kind, m, r);
    forall name: string
      ensures Get(after, name) == Total(c, LabelBytes(kind, name), rows + [r])
      ensures name in after <==> 0 < Total(c, LabelBytes(kind, name), rows + [r])
    {
      TotalSnoc(c, LabelBytes(kind, name), rows, r);
      SharesNonNegative(c, LabelBytes(kind, name), rows);
      if Sized(r.media) {
        AddLabelsMeans(c, kind, m, r.media, name);
        LabelCounted(c, kind, r.media, name);
      }
    }
  }

  lemma LabelCounted(c: Config, kind: MediaLabel, media: seq<Media>, name: string)
    requires Sized(media)
    ensures 0 <= Sum(media, Labelled(c, kind, name))
    ensures 0 < Sum(media, Labelled(c, kind, name)) <==> exists v :: v in media && LabelOf(c, kind, v) == name
  {
    SizedIsPositive(media);
    SumNonNegative(media, Labelled(c, kind, name));
    if v :| v in media && LabelOf(c, kind, v) == name {
      LabelledPresent(c, kind, media, v);
    } else {
      SumZero(media, Labelled(c, kind, name));
    }
  }

  lemma WatchItemsCounted(c: Config, rows: seq<Row>, r: Row, m: map<WatchBucket, int>)
    requires r.key.Some? && WatchItemsExact(c, rows, m)
    ensures WatchItemsExact(c, rows + [r], Bump(m, BucketOf(c, r), 1))
  {
    forall b: WatchBucket
      ensures Total(c, WatchItems(b), rows + [r]) == Total(c, WatchItems(b), rows) + (if BucketOf(c, r) == b then 1 else 0)
      ensures 0 <= Total(c, WatchItems(b), rows)
    {
      TotalSnoc(c, WatchItems(b), rows, r);
      SharesNonNegative(c, WatchItems(b), rows);
    }
  }

  lemma WatchBytesCounted(c: Config, rows: seq<Row>, r: Row, m: map<WatchBucket, int>)
    requires r.key.Some? && WatchBytesExact(c, rows, m)
    ensures WatchBytesExact(c, rows + [r], WatchBytesAfter(c, m, r))
  {
    forall b: WatchBucket
      ensures Total(c, WatchBytes(b), rows + [r]) == Total(c, WatchBytes(b), rows) + (if BucketOf(c, r) == b then RowBytes(r) else 0)
      ensures 0 <= Total(c, WatchBytes(b), rows)
    {
      TotalSnoc(c, WatchBytes(b), rows, r);
      SharesNonNegative(c, WatchBytes(b), rows);
    }
  }

  lemma CountsCounted(c: Config, rows: seq<Row>, r: Row, st: Stats)
    requires r.key.Some? && CountsExact(c, rows, st)
    ensures CountsExact(c, rows + [r], Counted(c, st, r))
  {
    hide Share, Total, LabelsAfter, WatchBytesAfter;
    TotalSnoc(c, MultiVersionItems, rows, r);
    TotalSnoc(c, ExtraVersionBytes, rows, r);
    TotalSnoc(c, Unsized, rows, r);
    TotalSnoc(c, AddedWithin(1), rows, r);
    TotalSnoc(c, AddedWithin(7), rows, r);
    assert (rows + [r])[..|rows|] == rows;
  }

  /** One more distinct row keeps every additive figure exact. */
  lemma TalliedStep(c: Config, rows: seq<Row>, r: Row, st: Stats)
    requires r.key.Some? && Tallied(c, rows, st)
    ensures Tallied(c, rows + [r], Counted(c, st, r))
  {
    hide LabelsExact, WatchBytesExact, WatchItemsExact, CountsExact, LabelsAfter, WatchBytesAfter, Share;
    LabelsCounted(c, rows, r, Resolution, st.resolutionBytes);
    LabelsCounted(c, rows, r, Codec, st.codecBytes);
    WatchItemsCounted(c, rows, r, st.watchAgeItems);
    WatchBytesCounted(c, rows, r, st.watchAgeBytes);
    CountsCounted(c, rows, r, st);
  }

  // ---- overflow ----

  /** Every checked figure fits int64. */
  ghost predicate Fits(c: Config, rows: seq<Row>) {
    forall f | Checked(f) :: Total(c, f, rows) <= MAX_INT64
  }

  ghost predicate MapFits<K(!new)>(m: map<K, int>) {
    forall k: K :: Get(m, k) <= MAX_INT64
  }

  lemma BumpFits<K(!new)>(m: map<K, int>, k: K, n: int)
    ensures MapFits(m) && Get(m, k) + n <= MAX_INT64 ==> MapFits(Bump(m, k, n))
  {
    if MapFits(m) && Get(m, k) + n <= MAX_INT64 {
      forall x: K ensures Get(Bump(m, k, n), x) <= MAX_INT64 {
        assert Get(m, x) <= MAX_INT64;
      }
    }
  }

  /** The figure f passes int64 when one sized item's versions are added. */
  ghost predicate MediaOver(c: Config, st: Stats, media: seq<Media>, f: Figure) {
    || (f.LabelBytes? && Get(LabelMap(st, f.kind), f.name) + Sum(media, Labelled(c, f.kind, f.name)) > MAX_INT64)
    || (f.ExtraVersionBytes? && |media| > 1
        && st.extraVersionBytes + TotalBytes(media) - LargestVersion(media) > MAX_INT64)
  }

  lemma MediaOverMeans(c: Config, rows: seq<Row>, r: Row, st: Stats, f: Figure)
    requires r.key.Some? && Tallied(c, rows, st) && Sized(r.media) && MediaOver(c, st, r.media, f)
    ensures Checked(f) && Total(c, f, rows + [r]) > MAX_INT64
  {
    TotalSnoc(c, f, rows, r);
  }

  lemma FitsStep(c: Config, rows: seq<Row>, r: Row, st: Stats)
    requires r.key.Some? && Tallied(c, rows + [r], st)
    requires MapFits(st.resolutionBytes) && MapFits(st.codecBytes) && MapFits(st.watchAgeBytes)
    requires st.extraVersionBytes <= MAX_INT64
    ensures Fits(c, rows + [r])
  {
    forall f | Checked(f) ensures Total(c, f, rows + [r]) <= MAX_INT64 {
      match f {
        case WatchBytes(b) => assert Get(st.watchAgeBytes, b) <= MAX_INT64;
        case LabelBytes(kind, name) => assert Get(LabelMap(st, kind), name) <= MAX_INT64;
        case ExtraVersionBytes =>
      }
    }
  }

  lemma FitsMaps(c: Config, rows: seq<Row>, st: Stats)
    requires Tallied(c, rows, st) && Fits(c, rows)
    ensures MapFits(st.resolutionBytes) && MapFits(st.codecBytes) && MapFits(st.watchAgeBytes)
    ensures st.extraVersionBytes <= MAX_INT64
  {
    forall name: string ensures Get(st.resolutionBytes, name) <= MAX_INT64 && Get(st.codecBytes, name) <= MAX_INT64 {
      assert Checked(LabelBytes(Resolution, name)) && Checked(LabelBytes(Codec, name));
    }
    forall b: WatchBucket ensures Get(st.watchAgeBytes, b) <= MAX_INT64 {
      assert Checked(WatchBytes(b));
    }
    assert Checked(ExtraVersionBytes);
  }

  // ---- ranked lists and shows ----

  datatype Show = Show(
    title: string,
    newest: Item,
    key: uint64,
    bytes: int64,
    lastPlayed: int64,
    partial: bool
  )

  /** How a show's account stands in the largest list. */
  function Entry(s: Show): Item {
    Item("", "", s.title, NoEpisode, s.key, s.key, s.bytes, s.lastPlayed, 0, 0)
  }

  /** s is the running account of the show with these distinct episodes. */
  ghost predicate ShowIs(c: Config, show: uint64, episodes: seq<Row>, s: Show) {
    && episodes != [] && (forall e | e in episodes :: e.key.Some?)
    && s.title == episodes[0].showTitle && s.key == show
    && s.newest == NewestEpisode(show, episodes)
    && s.lastPlayed == ShowLastPlay(c, show, episodes)
    && 0 <= s.bytes
    && s.partial == !Rankable(episodes)
    && (!s.partial ==> s.bytes == Sum(episodes, RowBytes))
  }

  ghost predicate ShowsAre(c: Config, rows: seq<Row>, shows: map<uint64, Show>) {
    shows.Keys == Shows(rows) && forall k | k in shows :: ShowIs(c, k, Episodes(rows, k), shows[k])
  }

  function NewShow(c: Config, show: uint64, r: Row): Show {
    Show(r.showTitle, NO_ITEM, show, 0, c.played(ShowPlay(show)), false)
  }

  /** A show's account after one more distinct episode. */
  function ShowAfter(c: Config, s: Show, r: Row): Show
    requires r.key.Some? && 0 <= s.bytes
  {
    var fits := Sized(r.media) && RowBytes(r) <= MAX_INT64 - s.bytes;
    s.(bytes := if fits then s.bytes + RowBytes(r) else s.bytes,
       partial := s.partial || !fits,
       lastPlayed := Max(s.lastPlayed, LastPlay(c, r)),
       newest := if r.addedAt > 0 && Before(ByAdded, EpisodeItem(s.key, r), s.newest) then EpisodeItem(s.key, r) else s.newest)
  }

  lemma RankableStep(episodes: seq<Row>, r: Row)
    ensures Rankable(episodes + [r]) <==> Rankable(episodes) && Sized(r.media) && RowBytes(r) <= MAX_INT64 - Sum(episodes, RowBytes)
  {
    SumSnoc(episodes, r, RowBytes);
    assert forall e :: e in episodes + [r] <==> e in episodes || e == r;
  }

  lemma ShowStep(c: Config, show: uint64, episodes: seq<Row>, s: Show, r: Row)
    requires r.key.Some? && ShowIs(c, show, episodes, s)
    ensures ShowIs(c, show, episodes + [r], ShowAfter(c, s, r))
  {
    hide Sized, Before, LastPlay;
    assert (episodes + [r])[..|episodes|] == episodes;
    RankableStep(episodes, r);
    SumSnoc(episodes, r, RowBytes);
    assert (episodes + [r])[0] == episodes[0];
  }

  lemma FirstEpisode(c: Config, show: uint64, r: Row)
    requires r.key.Some?
    ensures ShowIs(c, show, [r], ShowAfter(c, NewShow(c, show, r), r))
  {
    assert [r][..0] == [];
    assert Rankable([]);
    RankableStep([], r);
    assert [] + [r] == [r];
    SumSnoc([], r, RowBytes);
  }

  lemma EpisodesSnoc(rows: seq<Row>, r: Row, show: uint64)
    ensures Episodes(rows + [r], show) == if r.showKey == Some(show) then Episodes(rows, show) + [r] else Episodes(rows, show)
  {
    assert (rows + [r])[..|rows|] == rows;
  }

  lemma ShowsSnoc(rows: seq<Row>, r: Row)
    ensures Shows(rows + [r]) == Shows(rows) + if r.showKey.Some? then {r.showKey.value} else {}
  {
    assert forall x :: x in rows + [r] <==> x in rows || x == r;
    if r.showKey.Some? {
      assert r in rows + [r];
    }
  }

  /** The shows after one more distinct episode. */
  function ShowsAfter(c: Config, shows: map<uint64, Show>, r: Row): map<uint64, Show>
    requires r.key.Some? && forall k | k in shows :: 0 <= shows[k].bytes
  {
    if r.showKey.None? then shows
    else
      var k := r.showKey.value;
      shows[k := ShowAfter(c, if k in shows then shows[k] else NewShow(c, k, r), r)]
  }

  lemma ShowsStep(c: Config, rows: seq<Row>, shows: map<uint64, Show>, r: Row)
    requires r.key.Some? && ShowsAre(c, rows, shows)
    ensures ShowsAre(c, rows + [r], ShowsAfter(c, shows, r))
  {
    hide ShowIs, ShowAfter, NewShow;
    assert forall k | k in shows :: ShowIs(c, k, Episodes(rows, k), shows[k]);
    assert forall k | k in shows :: 0 <= shows[k].bytes by { ShowsWellFormed(c, rows, shows); }
    var after := ShowsAfter(c, shows, r);
    ShowsSnoc(rows, r);
    forall k | k in after ensures ShowIs(c, k, Episodes(rows + [r], k), after[k]) {
      EpisodesSnoc(rows, r, k);
      if r.showKey == Some(k) {
        if k in shows {
          ShowStep(c, k, Episodes(rows, k), shows[k], r);
        } else {
          EpisodesMeans(rows, k);
          assert Episodes(rows, k) + [r] == [r];
          FirstEpisode(c, k, r);
        }
      }
    }
  }

  lemma ShowsWellFormed(c: Config, rows: seq<Row>, shows: map<uint64, Show>)
    requires ShowsAre(c, rows, shows)
    ensures forall k | k in shows :: 0 <= shows[k].bytes && shows[k].key == k
  {
  }

  lemma VideoListsStep(c: Config, rows: seq<Row>, r: Row)
    requires !c.showLibrary && DistinctKeys(rows) && IsNew(rows, r)
    ensures DistinctKeys(rows + [r])
    ensures multiset(LargestEntries(c, rows + [r]))
         == if Sized(r.media) then multiset(LargestEntries(c, rows)) + multiset{VideoItem(c, r)}
            else multiset(LargestEntries(c, rows))
    ensures multiset(RecentEntries(c, rows + [r]))
         == if r.addedAt > 0 then multiset(RecentEntries(c, rows)) + multiset{VideoItem(c, r)}
            else multiset(RecentEntries(c, rows))
  {
    DistinctStep(rows, r);
    var it := VideoItem(c, r);
    assert forall x :: x in rows + [r] <==> x in rows || x == r;
    forall x | x in rows ensures VideoItem(c, x).ratingKey != it.ratingKey {
      assert x.key.value in Keys(rows);
    }
    assert LargestEntries(c, rows + [r]) == LargestEntries(c, rows) + if Sized(r.media) then {it} else {};
    assert RecentEntries(c, rows + [r]) == RecentEntries(c, rows) + if r.addedAt > 0 then {it} else {};
    assert it !in LargestEntries(c, rows) && it !in RecentEntries(c, rows);
  }

  lemma DistinctStep(rows: seq<Row>, r: Row)
    requires DistinctKeys(rows) && IsNew(rows, r)
    ensures DistinctKeys(rows + [r])
  {
    forall i | 0 <= i < |rows| ensures rows[i].key != r.key {
      assert rows[i] in rows;
    }
    assert forall x | x in rows + [r] :: x in rows || x == r;
  }

  /** What has been asked of the watched map: one question for every distinct item key and,
      in a show library, one for every show key. */
  ghost function Asked(c: Config, rows: seq<Row>): set<Ask> {
    (set k | k in Keys(rows) :: ItemPlay(k))
    + (if c.showLibrary then set k | k in Shows(rows) :: ShowPlay(k) else {})
  }

  lemma AskedStep(c: Config, rows: seq<Row>, r: Row)
    requires IsNew(rows, r)
    ensures ItemPlay(r.key.value) !in Asked(c, rows)
    ensures Asked(c, rows + [r]) == Asked(c, rows) + {ItemPlay(r.key.value)}
              + if c.showLibrary && r.showKey.Some? then {ShowPlay(r.showKey.value)} else {}
  {
    KeysSnoc(rows, r);
    ShowsSnoc(rows, r);
  }

  datatype WalkError = ReadFailed(code: int) | ByteOverflow

  datatype WalkResult = Figures(stats: Stats) | Failed(error: WalkError)

  class Accumulator {
    const c: Config
    var stats: Stats
    var shows: map<uint64, Show>
    var overflow: bool
    const seen: KeySet
    ghost var rows: seq<Row>     // the distinct rows read
    ghost var asked: set<Ask>    // every question put to the watched map
    ghost var culprit: Figure    // the figure whose checked addition failed first

    /** The ranked lists of a video library; a show library ranks at the end. */
    ghost predicate Listed()
      reads this
    {
      DistinctKeys(rows) &&
      if c.showLibrary then stats.largest == [] && stats.recent == [] && ShowsAre(c, rows, shows)
      else shows == map[] && ListsExact(c, rows, stats)
    }

    /** The figures and lists are exact for the rows, or one of them no longer fits. */
    ghost predicate Accounted()
      reads this
    {
      && DistinctKeys(rows) && asked == Asked(c, rows)
      && (if overflow then Checked(culprit) && Total(c, culprit, rows) > MAX_INT64
          else Tallied(c, rows, stats) && Fits(c, rows) && Listed())
    }

    ghost predicate Valid()
      reads this, seen, seen.Owner.Keys
    {
      seen.Valid() && this !in seen.Owner.Keys && seen.Keys == Keys(rows) && Accounted()
    }

    constructor (c: Config)
      ensures Valid() && !overflow && rows == [] && this.c == c
      ensures fresh(seen) && fresh(seen.Owner.Keys)
    {
      this.c := c;
      stats := Stats(map[], map[], map[], map[], [], [], 0, 0, 0, 0, 0, 0);
      shows := map[];
      overflow := false;
      seen := new KeySet();
      rows, asked := [], {};
      new;
      EmptyIsTop(BySize);
      EmptyIsTop(ByAdded);
      assert LargestEntries(c, []) == {} && RecentEntries(c, []) == {};
    }

    /** checkedAdd: the sum, or the old sum and the overflow mark when it does not fit. */
    method CheckedAdd(sum: int, n: int, ghost f: Figure) returns (r: int)
      modifies this`overflow, this`culprit
      ensures overflow <==> old(overflow) || sum + n > MAX_INT64
      ensures r == if sum + n > MAX_INT64 then sum else sum + n
      ensures culprit == if old(overflow) || sum + n <= MAX_INT64 then old(culprit) else f
    {
      if n > MAX_INT64 - sum {
        if !overflow {
          culprit := f;
        }
        overflow := true;
        return sum;
      }
      return sum + n;
    }

    /** addTo for the resolution and codec maps. */
    method AddLabel(kind: MediaLabel, name: string, n: int)
      modifies this`stats, this`overflow, this`culprit
      ensures overflow <==> old(overflow) || Get(LabelMap(old(stats), kind), name) + n > MAX_INT64
      ensures culprit == if old(overflow) || !overflow then old(culprit) else LabelBytes(kind, name)
      ensures stats.largest == old(stats).largest && stats.recent == old(stats).recent
      ensures !overflow ==> stats == match kind
                case Resolution => old(stats).(resolutionBytes := Bump(old(stats).resolutionBytes, name, n))
                case Codec => old(stats).(codecBytes := Bump(old(stats).codecBytes, name, n))
    {
      var sum := CheckedAdd(Get(LabelMap(stats, kind), name), n, LabelBytes(kind, name));
      match kind {
        case Resolution => stats := stats.(resolutionBytes := stats.resolutionBytes[name := sum]);
        case Codec => stats := stats.(codecBytes := stats.codecBytes[name := sum]);
      }
    }

    /** The state after the first i versions of a sized item. failed is the overflow there
        was before the item, if any. */
    ghost predicate VersionsCounted(before: Stats, failed: Option<Figure>, media: seq<Media>, i: nat)
      requires i <= |media|
      reads this
    {
      && stats.largest == before.largest && stats.recent == before.recent
      && if failed.Some? then overflow && culprit == failed.value
      else if overflow then
        && culprit.LabelBytes?
        && Get(LabelMap(before, culprit.kind), culprit.name)
           + Sum(media[..i], Labelled(c, culprit.kind, culprit.name)) > MAX_INT64
      else
        && stats == before.(resolutionBytes := AddLabels(c, Resolution, before.resolutionBytes, media[..i]),
                            codecBytes := AddLabels(c, Codec, before.codecBytes, media[..i]))
        && (MapFits(before.resolutionBytes) ==> MapFits(stats.resolutionBytes))
        && (MapFits(before.codecBytes) ==> MapFits(stats.codecBytes))
    }

    /** One version's bytes under one label, against the sum over the versions so far. */
    lemma LabelSoFar(kind: MediaLabel, m: map<string, int>, media: seq<Media>, i: nat)
      requires i < |media|
      ensures AddLabels(c, kind, m, media[..i + 1])
           == Bump(AddLabels(c, kind, m, media[..i]), LabelOf(c, kind, media[i]), MediaBytes(media[i]))
      ensures Get(AddLabels(c, kind, m, media[..i]), LabelOf(c, kind, media[i])) + MediaBytes(media[i])
           == Get(m, LabelOf(c, kind, media[i])) + Sum(media[..i + 1], Labelled(c, kind, LabelOf(c, kind, media[i])))
    {
      var name := LabelOf(c, kind, media[i]);
      assert media[..i + 1] == media[..i] + [media[i]];
      AddLabelsMeans(c, kind, m, media[..i], name);
      SumSnoc(media[..i], media[i], Labelled(c, kind, name));
    }

    lemma LabelSumGrows(f: Figure, media: seq<Media>, i: nat)
      requires f.LabelBytes? && i < |media| && 0 < MediaBytes(media[i])
      ensures Sum(media[..i], Labelled(c, f.kind, f.name)) <= Sum(media[..i + 1], Labelled(c, f.kind, f.name))
    {
      assert media[..i + 1] == media[..i] + [media[i]];
      SumSnoc(media[..i], media[i], Labelled(c, f.kind, f.name));
    }

    method CountVersion(ghost before: Stats, ghost failed: Option<Figure>, media: seq<Media>, i: nat, size: int)
      requires i < |media| && size == MediaBytes(media[i]) && 0 < size
      requires VersionsCounted(before, failed, media, i)
      modifies this`stats, this`overflow, this`culprit
      ensures VersionsCounted(before, failed, media, i + 1)
    {
      hide AddLabels;
      if overflow && failed.None? {
        LabelSumGrows(culprit, media, i);
      }
      LabelSoFar(Resolution, before.resolutionBytes, media, i);
      LabelSoFar(Codec, before.codecBytes, media, i);
      BumpFits(stats.resolutionBytes, LabelOf(c, Resolution, media[i]), size);
      BumpFits(stats.codecBytes, LabelOf(c, Codec, media[i]), size);
      AddLabel(Resolution, LabelOf(c, Resolution, media[i]), size);
      AddLabel(Codec, LabelOf(c, Codec, media[i]), size);
    }

    /** countMedia: a sized item's bytes by version; every version but the largest is extra. */
    method CountMedia(media: seq<Media>, sizes: seq<int>, total: int)
      requires Sized(media) && |sizes| == |media| && total == TotalBytes(media)
      requires forall i | 0 <= i < |media| :: sizes[i] == MediaBytes(media[i])
      modifies this`stats, this`overflow, this`culprit
      ensures old(overflow) ==> overflow && culprit == old(culprit)
      ensures !old(overflow) && overflow ==> MediaOver(c, old(stats), media, culprit)
      ensures !overflow ==> stats == MediaAfter(c, old(stats), media)
      ensures !overflow && MapFits(old(stats).resolutionBytes) ==> MapFits(stats.resolutionBytes)
      ensures !overflow && MapFits(old(stats).codecBytes) ==> MapFits(stats.codecBytes)
      ensures !overflow && old(stats).extraVersionBytes <= MAX_INT64 ==> stats.extraVersionBytes <= MAX_INT64
      ensures stats.largest == old(stats).largest && stats.recent == old(stats).recent
    {
      SizedIsPositive(media);
      ghost var failed := if overflow then Some(culprit) else None;
      ghost var before := stats;
      var largest := 0;
      assert media[..0] == [];
      for i := 0 to |media|
        invariant largest == LargestVersion(media[..i])
        invariant VersionsCounted(before, failed, media, i)
      {
        assert media[i] in media;
        CountVersion(before, failed, media, i, sizes[i]);
        assert media[..i + 1][..i] == media[..i];
        largest := Max(largest, sizes[i]);
      }
      assert media[..|media|] == media;
      if |media| > 1 {
        stats := stats.(multiVersionItems := stats.multiVersionItems + 1);
        var extra := CheckedAdd(stats.extraVersionBytes, total - largest, ExtraVersionBytes);
        stats := stats.(extraVersionBytes := extra);
      }
    }

    /** countAdded: an item without an added time is neither newly added nor the newest. */
    method CountAdded(addedAt: int64)
      modifies this`stats
      ensures stats == old(stats).(
                newestAdded := if addedAt > 0 then Max(old(stats).newestAdded, addedAt) else old(stats).newestAdded,
                added24h := old(stats).added24h + if addedAt > 0 && c.now - addedAt <= DAY then 1 else 0,
                added7d := old(stats).added7d + if addedAt > 0 && c.now - addedAt <= 7 * DAY then 1 else 0)
    {
      if addedAt <= 0 {
        return;
      }
      stats := stats.(newestAdded := Max(stats.newestAdded, addedAt));
      var age := c.now - addedAt;
      if age <= DAY {
        stats := stats.(added24h := stats.added24h + 1);
      }
      if age <= 7 * DAY {
        stats := stats.(added7d := stats.added7d + 1);
      }
    }

    /** The additive part of add: every figure but the ranked lists. */
    method Tally(r: Row, total: int, sizes: seq<int>, sized: bool, last: int)
      requires r.key.Some? && last == LastPlay(c, r)
      requires sized == Sized(r.media) && (sized ==> total == TotalBytes(r.media) && |sizes| == |r.media|)
      requires sized ==> forall i | 0 <= i < |r.media| :: sizes[i] == MediaBytes(r.media[i])
      requires !overflow && Tallied(c, rows, stats) && Fits(c, rows)
      modifies this`stats, this`overflow, this`culprit
      ensures overflow ==> Checked(culprit) && Total(c, culprit, rows + [r]) > MAX_INT64
      ensures !overflow ==> Tallied(c, rows + [r], stats) && Fits(c, rows + [r])
      ensures stats.largest == old(stats).largest && stats.recent == old(stats).recent
    {
      hide Tallied, Fits, MapFits, AddLabels, Sized, TotalBytes, MediaOver, LabelsExact, LargestVersion;
      ghost var before := stats;
      FitsMaps(c, rows, stats);
      NewestAddedMeans(rows);
      assert 0 <= stats.newestAdded by { TalliedNewest(c, rows, stats); }
      CountAdded(r.addedAt);
      var b := BucketAt(c.now, last);
      stats := stats.(watchAgeItems := Bump(stats.watchAgeItems, b, 1));
      if sized {
        BumpFits(stats.watchAgeBytes, b, total);
        WatchOver(c, rows, r, before, b);
        var sum := CheckedAdd(Get(stats.watchAgeBytes, b), total, WatchBytes(b));
        stats := stats.(watchAgeBytes := stats.watchAgeBytes[b := sum]);
        ghost var watched := stats;
        CountMedia(r.media, sizes, total);
        if overflow {
          if culprit != WatchBytes(b) {
            MediaOverSame(c, watched, before, r.media, culprit);
            MediaOverMeans(c, rows, r, before, culprit);
          }
        }
      } else {
        stats := stats.(unsized := stats.unsized + 1);
      }
      if !overflow {
        CountedIs(c, before, r, stats);
        TalliedStep(c, rows, r, before);
        FitsStep(c, rows, r, stats);
      }
    }

    /** A question to the watched map; none is put twice. */
    method Play(k: Ask) returns (t: int64)
      requires k !in asked
      modifies this`asked
      ensures t == c.played(k) && asked == old(asked) + {k}
    {
      t := c.played(k);
      asked := asked + {k};
    }

    /** lastPlayed: what history answers or what the owner's watch state says, if that is newer. */
    method LastPlayed(r: Row) returns (last: int64)
      requires r.key.Some? && ItemPlay(r.key.value) !in asked
      modifies this`asked
      ensures last == LastPlay(c, r) && asked == old(asked) + {ItemPlay(r.key.value)}
    {
      last := Play(ItemPlay(r.key.value));
      if r.viewCount.Some? && r.viewCount.value > 0 && r.lastViewedAt.Some? {
        last := Max(last, r.lastViewedAt.value);
      }
      last := Max(last, 0);
    }

    /** The ranked-list part of add for a video library. */
    method RankVideo(r: Row, bytes: int64, sized: bool, last: int64)
      requires !c.showLibrary && ListedVideos() && IsNew(rows, r)
      requires bytes == RowBytes(r) && sized == Sized(r.media) && last == LastPlay(c, r)
      modifies this`stats
      ensures stats == old(stats).(largest := stats.largest, recent := stats.recent)
      ensures DistinctKeys(rows + [r]) && ListsExact(c, rows + [r], stats)
    {
      hide LargestEntries, RecentEntries, IsTop, Sized, LastPlay, DistinctKeys;
      VideoListsStep(c, rows, r);
      var entry := Item("", "", r.title, NoEpisode, r.key.value, 0, bytes, last, r.addedAt, r.year);
      assert entry == VideoItem(c, r);
      if sized {
        var list := InsertTop(stats.largest, entry, BySize, multiset(LargestEntries(c, rows)));
        stats := stats.(largest := list);
      }
      if r.addedAt > 0 {
        var list := InsertTop(stats.recent, entry, ByAdded, multiset(RecentEntries(c, rows)));
        stats := stats.(recent := list);
      }
    }

    ghost predicate ListedVideos()
      reads this
    {
      DistinctKeys(rows) && ListsExact(c, rows, stats)
    }

    /** The episode joins its show's running account. */
    method CountEpisode(show: Show, r: Row, bytes: int64, sized: bool, last: int64) returns (s: Show)
      requires r.key.Some? && 0 <= show.bytes
      requires bytes == RowBytes(r) && sized == Sized(r.media) && last == LastPlay(c, r)
      ensures s == ShowAfter(c, show, r)
    {
      hide Sized, LastPlay, RowBytes, Before;
      s := show;
      if !sized || bytes > MAX_INT64 - s.bytes {
        s := s.(partial := true);
      } else {
        s := s.(bytes := s.bytes + bytes);
      }
      s := s.(lastPlayed := Max(s.lastPlayed, last));
      if r.addedAt > 0 && Before(ByAdded, EpisodeItem(s.key, r), s.newest) {
        s := s.(newest := EpisodeItem(s.key, r));
      }
    }

    /** addEpisode: an episode without a show key counts for no show. */
    method AddEpisode(r: Row, bytes: int64, sized: bool, last: int64)
      requires c.showLibrary && ShowsAre(c, rows, shows) && r.key.Some?
      requires bytes == RowBytes(r) && sized == Sized(r.media) && last == LastPlay(c, r)
      requires asked == Asked(c, rows) + {ItemPlay(r.key.value)}
      modifies this`shows, this`asked
      ensures ShowsAre(c, rows + [r], shows)
      ensures asked == old(asked) + if r.showKey.Some? then {ShowPlay(r.showKey.value)} else {}
    {
      hide ShowIs, ShowAfter, RowBytes, Sized, LastPlay;
      ShowsWellFormed(c, rows, shows);
      ShowsStep(c, rows, shows, r);
      if r.showKey.None? {
        return;
      }
      var k := r.showKey.value;
      var show: Show;
      if k in shows {
        show := shows[k];
      } else {
        var own := Play(ShowPlay(k));
        show := Show(r.showTitle, NO_ITEM, k, 0, own, false);
      }
      show := CountEpisode(show, r, bytes, sized, last);
      shows := shows[k := show];
    }

    /** One new distinct row joins the figures and the lists. */
    method Count(r: Row)
      requires Accounted() && !overflow && IsNew(rows, r)
      modifies this
      ensures rows == old(rows) + [r] && Accounted()
      ensures overflow ==> Checked(culprit) && Total(c, culprit, rows) > MAX_INT64
    {
      hide Tallied, Fits, ListsExact, ShowsAre, Asked, Sized, LastPlay, Checked;
      AskedStep(c, rows, r);
      DistinctStep(rows, r);
      var bytes, sizes, sized := ItemBytes(r.media);
      var last := LastPlayed(r);
      assert bytes == RowBytes(r);
      Tally(r, bytes, sizes, sized, last);
      if c.showLibrary {
        AddEpisode(r, bytes, sized, last);
      } else {
        assert ListsExact(c, rows, stats) by { ListsSame(c, rows, old(stats), stats); }
        ghost var tallied := stats;
        RankVideo(r, bytes, sized, last);
        if !overflow {
          TalliedSame(c, rows + [r], tallied, stats);
        }
      }
      rows := rows + [r];
    }

    /** add: a row whose key does not parse, or was read before, changes nothing. */
    method Add(r: Row)
      requires Valid() && !overflow
      modifies this, seen, seen.Owner.Keys
      ensures Valid() && fresh(seen.Owner.Keys - old(seen.Owner.Keys))
      ensures rows == if IsNew(old(rows), r) then old(rows) + [r] else old(rows)
      ensures overflow ==> Checked(culprit) && Total(c, culprit, rows) > MAX_INT64
    {
      hide Accounted, KeySet.Valid;
      if r.key.None? {
        return;
      }
      var absent := seen.Insert(r.key.value);
      if !absent {
        assert seen.Keys == old(seen.Keys);
        return;
      }
      KeysSnoc(rows, r);
      Count(r);
    }

    lemma AskedNow()
      requires Accounted()
      ensures asked == Asked(c, rows)
    {
    }

    lemma FitsNow()
      requires Accounted() && !overflow
      ensures !Overflows(c, rows)
    {
    }

    /** finish: the shows are ranked in whatever order the map yields them. */
    method Finish() returns (st: Stats)
      requires Accounted() && !overflow
      modifies this`stats
      ensures StatsOf(c, rows, st)
    {
      hide Tallied, IsTop, ShowIs, ShowsAre, LargestEntries, RecentEntries, DistinctKeys, ShowNewest, ShowEntry;
      ghost var tallied := stats;
      ghost var done: set<uint64> := {};
      var left := shows.Keys;
      NothingRanked(c, rows, stats);
      while left != {}
        invariant left <= shows.Keys && done == shows.Keys - left
        invariant c.showLibrary ==> IsTop(BySize, stats.largest, multiset(LargestOf(c, rows, done)))
        invariant c.showLibrary ==> IsTop(ByAdded, stats.recent, multiset(RecentOf(c, rows, done)))
        invariant !c.showLibrary ==> left == {} && ListsExact(c, rows, stats)
        invariant stats == tallied.(largest := stats.largest, recent := stats.recent)
        decreases left
      {
        var k :| k in left;
        RankShow(k, done);
        left := left - {k};
        done := done + {k};
      }
      assert done == shows.Keys;
      if c.showLibrary {
        AllShowsRanked(c, rows, shows);
      }
      TalliedSame(c, rows, tallied, stats);
      st := stats;
      StatsTogether(c, rows, st);
    }

    method RankShow(k: uint64, ghost done: set<uint64>)
      requires c.showLibrary && DistinctKeys(rows) && ShowsAre(c, rows, shows) && k in shows && k !in done
      requires done <= shows.Keys
      requires IsTop(BySize, stats.largest, multiset(LargestOf(c, rows, done)))
      requires IsTop(ByAdded, stats.recent, multiset(RecentOf(c, rows, done)))
      modifies this`stats
      ensures stats == old(stats).(largest := stats.largest, recent := stats.recent)
      ensures IsTop(BySize, stats.largest, multiset(LargestOf(c, rows, done + {k})))
      ensures IsTop(ByAdded, stats.recent, multiset(RecentOf(c, rows, done + {k})))
    {
      hide IsTop, ShowIs, ShowsAre, LargestOf, RecentOf, DistinctKeys;
      var s := shows[k];
      RankedStep(c, rows, shows, done, k);
      if !s.partial {
        var entry := Entry(s);
        var list := InsertTop(stats.largest, entry, BySize, multiset(LargestOf(c, rows, done)));
        stats := stats.(largest := list);
      }
      if s.newest.addedAt > 0 {
        var list := InsertTop(stats.recent, s.newest, ByAdded, multiset(RecentOf(c, rows, done)));
        stats := stats.(recent := list);
      }
    }
  }

  lemma TalliedNewest(c: Config, rows: seq<Row>, st: Stats)
    requires Tallied(c, rows, st)
    ensures st.newestAdded == NewestAdded(rows)
  {
  }

  lemma WatchOver(c: Config, rows: seq<Row>, r: Row, st: Stats, b: WatchBucket)
    requires r.key.Some? && Tallied(c, rows, st) && b == BucketOf(c, r) && Sized(r.media)
    ensures Get(st.watchAgeBytes, b) + TotalBytes(r.media) == Total(c, WatchBytes(b), rows + [r])
  {
    TotalSnoc(c, WatchBytes(b), rows, r);
  }

  lemma MediaOverSame(c: Config, st: Stats, before: Stats, media: seq<Media>, f: Figure)
    requires MediaOver(c, st, media, f)
    requires st.resolutionBytes == before.resolutionBytes && st.codecBytes == before.codecBytes
    requires st.extraVersionBytes == before.extraVersionBytes
    ensures MediaOver(c, before, media, f)
  {
  }

  /** The steps of one row, put together, are the row's effect on the figures. */
  lemma CountedIs(c: Config, st: Stats, r: Row, after: Stats)
    requires r.key.Some? && 0 <= st.newestAdded
    requires after.largest == st.largest && after.recent == st.recent
    requires after.newestAdded == if r.addedAt > 0 then Max(st.newestAdded, r.addedAt) else st.newestAdded
    requires after.added24h == st.added24h + if r.addedAt > 0 && c.now - r.addedAt <= DAY then 1 else 0
    requires after.added7d == st.added7d + if r.addedAt > 0 && c.now - r.addedAt <= 7 * DAY then 1 else 0
    requires after.watchAgeItems == Bump(st.watchAgeItems, BucketOf(c, r), 1)
    requires after.watchAgeBytes == WatchBytesAfter(c, st.watchAgeBytes, r)
    requires after.unsized == st.unsized + if Sized(r.media) then 0 else 1
    requires var media := if Sized(r.media) then MediaAfter(c, st, r.media) else st;
             && after.resolutionBytes == media.resolutionBytes && after.codecBytes == media.codecBytes
             && after.multiVersionItems == media.multiVersionItems
             && after.extraVersionBytes == media.extraVersionBytes
    ensures after == Counted(c, st, r)
  {
  }

  lemma ListsSame(c: Config, rows: seq<Row>, a: Stats, b: Stats)
    requires DistinctKeys(rows) && ListsExact(c, rows, a)
    requires a.largest == b.largest && a.recent == b.recent
    ensures ListsExact(c, rows, b)
  {
  }

  lemma TalliedSame(c: Config, rows: seq<Row>, a: Stats, b: Stats)
    requires Tallied(c, rows, a) && b == a.(largest := b.largest, recent := b.recent)
    ensures Tallied(c, rows, b)
  {
  }

  /** What the shows done so far put up for the largest list. */
  ghost function LargestOf(c: Config, rows: seq<Row>, done: set<uint64>): set<Item>
    requires DistinctKeys(rows)
  {
    set s | s in done && s in Shows(rows) && Rankable(Episodes(rows, s)) :: ShowEntry(c, rows, s)
  }

  ghost function RecentOf(c: Config, rows: seq<Row>, done: set<uint64>): set<Item>
    requires DistinctKeys(rows)
  {
    set s | s in done && s in Shows(rows) && ShowNewest(rows, s) != NO_ITEM :: ShowNewest(rows, s)
  }

  lemma ShowEntryIs(c: Config, rows: seq<Row>, shows: map<uint64, Show>, k: uint64)
    requires DistinctKeys(rows) && ShowsAre(c, rows, shows) && k in shows
    ensures k in Shows(rows) && shows[k].partial == !Rankable(Episodes(rows, k))
    ensures shows[k].newest == ShowNewest(rows, k)
    ensures shows[k].newest.addedAt > 0 <==> ShowNewest(rows, k) != NO_ITEM
    ensures !shows[k].partial ==> ShowEntry(c, rows, k) == Entry(shows[k])
  {
    assert ShowIs(c, k, Episodes(rows, k), shows[k]);
    if ShowNewest(rows, k) != NO_ITEM {
      var e := NewestIsOwn(rows, k);
    }
  }

  lemma RankedStep(c: Config, rows: seq<Row>, shows: map<uint64, Show>, done: set<uint64>, k: uint64)
    requires DistinctKeys(rows) && c.showLibrary && ShowsAre(c, rows, shows) && k in shows && k !in done && done <= shows.Keys
    ensures var s := shows[k];
            && (if s.partial then LargestOf(c, rows, done + {k}) == LargestOf(c, rows, done)
                else multiset(LargestOf(c, rows, done + {k})) == multiset(LargestOf(c, rows, done)) + multiset{Entry(s)})
            && (if s.newest.addedAt <= 0 then RecentOf(c, rows, done + {k}) == RecentOf(c, rows, done)
                else multiset(RecentOf(c, rows, done + {k})) == multiset(RecentOf(c, rows, done)) + multiset{s.newest})
  {
    hide ShowsAre, ShowEntry, ShowNewest, Rankable, DistinctKeys;
    ShowEntryIs(c, rows, shows, k);
    LargestStep(c, rows, done, k);
    RecentStep(c, rows, done, k);
  }

  lemma LargestStep(c: Config, rows: seq<Row>, done: set<uint64>, k: uint64)
    requires DistinctKeys(rows) && k !in done && k in Shows(rows)
    ensures if !Rankable(Episodes(rows, k)) then LargestOf(c, rows, done + {k}) == LargestOf(c, rows, done)
            else multiset(LargestOf(c, rows, done + {k})) == multiset(LargestOf(c, rows, done)) + multiset{ShowEntry(c, rows, k)}
  {
    hide Rankable, DistinctKeys;
    if Rankable(Episodes(rows, k)) {
      var e := ShowEntry(c, rows, k);
      assert LargestOf(c, rows, done + {k}) == LargestOf(c, rows, done) + {e};
      assert forall s | s in done && s in Shows(rows) && Rankable(Episodes(rows, s)) :: ShowEntry(c, rows, s).ratingKey == s;
      assert e.ratingKey == k;
      assert e !in LargestOf(c, rows, done);
    }
  }

  lemma RecentStep(c: Config, rows: seq<Row>, done: set<uint64>, k: uint64)
    requires DistinctKeys(rows) && k !in done && k in Shows(rows)
    ensures if ShowNewest(rows, k) == NO_ITEM then RecentOf(c, rows, done + {k}) == RecentOf(c, rows, done)
            else multiset(RecentOf(c, rows, done + {k})) == multiset(RecentOf(c, rows, done)) + multiset{ShowNewest(rows, k)}
  {
    hide ShowNewest, DistinctKeys;
    if ShowNewest(rows, k) != NO_ITEM {
      var e := ShowNewest(rows, k);
      assert RecentOf(c, rows, done + {k}) == RecentOf(c, rows, done) + {e};
      if e in RecentOf(c, rows, done) {
        var s :| s in done && s in Shows(rows) && ShowNewest(rows, s) != NO_ITEM && e == ShowNewest(rows, s);
        ShowsKeyed(rows, s, k);
      }
    }
  }

  lemma NothingRanked(c: Config, rows: seq<Row>, st: Stats)
    requires DistinctKeys(rows)
    ensures c.showLibrary && st.largest == [] ==> IsTop(BySize, st.largest, multiset(LargestOf(c, rows, {})))
    ensures c.showLibrary && st.recent == [] ==> IsTop(ByAdded, st.recent, multiset(RecentOf(c, rows, {})))
  {
    EmptyIsTop(BySize);
    EmptyIsTop(ByAdded);
    assert LargestOf(c, rows, {}) == {} && RecentOf(c, rows, {}) == {};
  }

  lemma AllShowsRanked(c: Config, rows: seq<Row>, shows: map<uint64, Show>)
    requires DistinctKeys(rows) && c.showLibrary && ShowsAre(c, rows, shows)
    ensures LargestOf(c, rows, shows.Keys) == LargestEntries(c, rows)
    ensures RecentOf(c, rows, shows.Keys) == RecentEntries(c, rows)
  {
    hide ShowIs, ShowEntry, ShowNewest, Rankable, DistinctKeys;
  }

  lemma StatsTogether(c: Config, rows: seq<Row>, st: Stats)
    requires DistinctKeys(rows) && Tallied(c, rows, st) && ListsExact(c, rows, st)
    ensures StatsOf(c, rows, st)
  {
  }

  // ---- the whole walk ----

  /** Aggregate: reads every row the walk yields, then its error if it has one. It fails
      with an overflow exactly when some byte figure of the distinct rows exceeds int64, and
      otherwise publishes exactly the figures and lists of the distinct rows, having put
      one question to the watched map for each item key and, in a show library, each show key. */
  method Aggregate(c: Config, items: seq<Row>, error: Option<int>) returns (r: WalkResult, ghost asked: set<Ask>)
    ensures r == Failed(ByteOverflow) <==> Overflows(c, FirstRows(items))
    ensures !Overflows(c, FirstRows(items)) && error.Some? ==> r == Failed(ReadFailed(error.value))
    ensures !Overflows(c, FirstRows(items)) && error.None? ==> r.Figures? && StatsOf(c, FirstRows(items), r.stats)
    ensures r.Figures? ==> asked == Asked(c, FirstRows(items))
  {
    hide Accumulator.Accounted, KeySet.Valid, FirstRows, Overflows, IsNew, StatsOf, Checked, Total;
    var a := new Accumulator(c);
    assert items[..0] == [] && FirstRows([]) == [] by { NoRows(); }
    for i := 0 to |items|
      invariant fresh(a) && fresh(a.seen) && fresh(a.seen.Owner.Keys)
      invariant a.Valid() && !a.overflow && a.rows == FirstRows(items[..i]) && a.c == c
    {
      a.Add(items[i]);
      NextFirst(items, i);
      if a.overflow {
        StillOverflows(c, items, i + 1, a.culprit);
        return Failed(ByteOverflow), a.asked;
      }
    }
    assert items[..|items|] == items;
    a.FitsNow();
    assert a.asked == Asked(c, FirstRows(items)) by { a.AskedNow(); }
    asked := a.asked;
    if error.Some? {
      return Failed(ReadFailed(error.value)), asked;
    }
    var st := a.Finish();
    return Figures(st), asked;
  }

  lemma NoRows()
    ensures FirstRows([]) == []
  {
  }

  lemma NextFirst(items: seq<Row>, i: nat)
    requires i < |items|
    ensures FirstRows(items[..i + 1]) == if IsNew(FirstRows(items[..i]), items[i]) then FirstRows(items[..i]) + [items[i]] else FirstRows(items[..i])
  {
    assert items[..i + 1] == items[..i] + [items[i]];
    FirstRowsSnoc(items[..i], items[i]);
  }

  lemma {:induction false} FirstRowsPrefix(rows: seq<Row>, n: nat)
    requires n <= |rows|
    ensures FirstRows(rows[..n]) <= FirstRows(rows)
    decreases |rows| - n
  {
    if n < |rows| {
      FirstRowsPrefix(rows, n + 1);
      NextFirst(rows, n);
    } else {
      assert rows[..n] == rows;
    }
  }

  /** A figure that passed int64 part-way still passes it at the end. */
  lemma StillOverflows(c: Config, items: seq<Row>, n: nat, f: Figure)
    requires n <= |items| && Checked(f) && Total(c, f, FirstRows(items[..n])) > MAX_INT64
    ensures Overflows(c, FirstRows(items))
  {
    hide FirstRows, Total, Checked;
    FirstRowsPrefix(items, n);
    var head, all := FirstRows(items[..n]), FirstRows(items);
    assert all == head + all[|head|..];
    TotalGrows(c, f, head, all[|head|..]);
  }
}
