/** What the published figures of a library are in terms of the fields of its rows
    (internal/libstats/libstats.go): the account of LibStats.dfy, read back without its own
    definitions. */
module FieldLaws {
  import opened Ints
  import opened Sequences
  import opened Ranking
  import opened LibStats
  import opened LibStatsLaws

  // ---- sizes ----

  function Parts(media: seq<Media>): seq<Option<int64>> {
    if media == [] then [] else Parts(media[..|media| - 1]) + media[|media| - 1].parts
  }

  function FileSize(p: Option<int64>): int {
    if p.Some? then p.value else 0
  }

  /** All the files of these versions. */
  function FileSizes(media: seq<Media>): int {
    Sum(Parts(media), FileSize)
  }

  /** Every version has files, every file a known positive size, and all fit int64 together. */
  predicate KnownSize(media: seq<Media>) {
    && media != [] && (forall m | m in media :: m.parts != [])
    && (forall m, p | m in media && p in m.parts :: p.Some? && p.value > 0)
    && FileSizes(media) <= 0x7FFF_FFFF_FFFF_FFFF
  }

  lemma FileSizesOf(m: Media)
    ensures MediaBytes(m) == Sum(m.parts, FileSize)
  {
    SumSame(m.parts, PartBytes, FileSize);
  }

  lemma {:induction false} TotalIsFiles(media: seq<Media>)
    ensures TotalBytes(media) == FileSizes(media)
  {
    if media != [] {
      var n := |media| - 1;
      TotalIsFiles(media[..n]);
      FileSizesOf(media[n]);
      SumConcat(Parts(media[..n]), media[n].parts, FileSize);
    }
  }

  lemma SizedMeans(r: Row)
    ensures Sized(r.media) <==> KnownSize(r.media)
    ensures RowBytes(r) == if KnownSize(r.media) then FileSizes(r.media) else 0
  {
    TotalIsFiles(r.media);
  }

  // ---- last plays ----

  /** The owner's own play of an item counts with a positive view count and a date. */
  predicate OwnPlay(r: Row) {
    r.viewCount.Some? && r.viewCount.value > 0 && r.lastViewedAt.Some?
  }

  /** The last play of an item is the greatest of the recorded one, the owner's own when it
      counts, and 0. */
  lemma LastPlayMeans(c: Config, r: Row)
    requires r.key.Some?
    ensures 0 <= LastPlay(c, r) && c.played(ItemPlay(r.key.value)) <= LastPlay(c, r)
    ensures OwnPlay(r) ==> r.lastViewedAt.value <= LastPlay(c, r)
    ensures LastPlay(c, r) == 0 || LastPlay(c, r) == c.played(ItemPlay(r.key.value))
            || (OwnPlay(r) && LastPlay(c, r) == r.lastViewedAt.value)
  {
  }

  /** An item is in the never bucket when no play of it is recorded and the owner has none. */
  predicate NeverPlayed(c: Config, r: Row)
    requires r.key.Some?
  {
    c.played(ItemPlay(r.key.value)) <= 0 && !(OwnPlay(r) && r.lastViewedAt.value > 0)
  }

  predicate InBucket(c: Config, r: Row, b: WatchBucket)
    requires r.key.Some?
  {
    var last := LastPlay(c, r);
    match b
    case Never => NeverPlayed(c, r)
    case Under90d => !NeverPlayed(c, r) && c.now - last < 7_776_000
    case From90dTo1y => !NeverPlayed(c, r) && 7_776_000 <= c.now - last < 31_536_000
    case Over1y => !NeverPlayed(c, r) && 31_536_000 <= c.now - last
  }

  lemma BucketMeans(c: Config, r: Row, b: WatchBucket)
    requires r.key.Some?
    ensures BucketOf(c, r) == b <==> InBucket(c, r, b)
  {
  }

  // ---- figures ----

  function CountIf(rows: seq<Row>, p: Row -> bool): int {
    Sum(rows, (r: Row) => if p(r) then 1 else 0)
  }

  function SumIf(rows: seq<Row>, p: Row -> bool, size: Row -> int): int {
    Sum(rows, (r: Row) => if p(r) then size(r) else 0)
  }

  /** The version that takes the most room. */
  ghost predicate IsLargestVersion(media: seq<Media>, m: Media) {
    m in media && forall x | x in media :: Sum(x.parts, FileSize) <= Sum(m.parts, FileSize)
  }

  function VersionsNamed(media: seq<Media>, tag: Media -> string, name: string): int {
    Sum(media, (m: Media) => if tag(m) == name then Sum(m.parts, FileSize) else 0)
  }

  lemma CountsOf(c: Config, f: Figure, rows: seq<Row>, p: Row -> bool)
    requires forall r | r in rows :: Share(c, f, r) == if p(r) then 1 else 0
    ensures Total(c, f, rows) == CountIf(rows, p)
  {
    SumSame(rows, Shares(c, f), (r: Row) => if p(r) then 1 else 0);
  }

  lemma SumsOf(c: Config, f: Figure, rows: seq<Row>, p: Row -> bool, size: Row -> int)
    requires forall r | r in rows :: Share(c, f, r) == if p(r) then size(r) else 0
    ensures Total(c, f, rows) == SumIf(rows, p, size)
  {
    SumSame(rows, Shares(c, f), (r: Row) => if p(r) then size(r) else 0);
  }

  /** The published counts: items without a known size, items of several versions, and items
      added within a day and within a week. */
  lemma PublishedCounts(c: Config, rows: seq<Row>, st: Stats)
    requires StatsOf(c, rows, st)
    ensures st.unsized == CountIf(rows, (r: Row) => !KnownSize(r.media))
    ensures st.multiVersionItems == CountIf(rows, (r: Row) => KnownSize(r.media) && |r.media| >= 2)
    ensures st.added24h == CountIf(rows, (r: Row) => r.addedAt > 0 && c.now - r.addedAt <= 86_400)
    ensures st.added7d == CountIf(rows, (r: Row) => r.addedAt > 0 && c.now - r.addedAt <= 604_800)
    ensures (forall r | r in rows :: r.addedAt <= st.newestAdded) && 0 <= st.newestAdded
    ensures st.newestAdded == 0 || exists r :: r in rows && r.addedAt == st.newestAdded
  {
    hide ListsExact, LabelsExact, WatchExact, Total, CountIf, Sized, KnownSize;
    forall r | r in rows ensures r.key.Some? && (Sized(r.media) <==> KnownSize(r.media)) {
      SizedMeans(r);
    }
    NewestAddedMeans(rows);
    CountsOf(c, Unsized, rows, (r: Row) => !KnownSize(r.media));
    CountsOf(c, MultiVersionItems, rows, (r: Row) => KnownSize(r.media) && |r.media| >= 2);
    CountsOf(c, AddedWithin(1), rows, (r: Row) => r.addedAt > 0 && c.now - r.addedAt <= 86_400);
    CountsOf(c, AddedWithin(7), rows, (r: Row) => r.addedAt > 0 && c.now - r.addedAt <= 604_800);
  }

  /** The published watch ages: the items of each bucket, and their files. */
  lemma PublishedWatchAges(c: Config, rows: seq<Row>, st: Stats, b: WatchBucket)
    requires StatsOf(c, rows, st)
    ensures Get(st.watchAgeItems, b) == CountIf(rows, (r: Row) => r.key.Some? && InBucket(c, r, b))
    ensures Get(st.watchAgeBytes, b)
         == SumIf(rows, (r: Row) => r.key.Some? && InBucket(c, r, b) && KnownSize(r.media), (r: Row) => FileSizes(r.media))
  {
    hide ListsExact, LabelsExact, CountsExact, Total, CountIf, SumIf, KnownSize, InBucket, FileSizes, BucketOf, RowBytes;
    forall r | r in rows
      ensures r.key.Some? && (BucketOf(c, r) == b <==> InBucket(c, r, b))
      ensures RowBytes(r) == if KnownSize(r.media) then FileSizes(r.media) else 0
    {
      SizedMeans(r);
      BucketMeans(c, r, b);
    }
    CountsOf(c, WatchItems(b), rows, (r: Row) => r.key.Some? && InBucket(c, r, b));
    SumsOf(c, WatchBytes(b), rows, (r: Row) => r.key.Some? && InBucket(c, r, b) && KnownSize(r.media), (r: Row) => FileSizes(r.media));
  }

  lemma NamedVersions(c: Config, kind: MediaLabel, media: seq<Media>, tag: Media -> string, name: string)
    requires forall m: Media :: LabelOf(c, kind, m) == tag(m)
    ensures Sum(media, Labelled(c, kind, name)) == VersionsNamed(media, tag, name)
  {
    forall m | m in media ensures LabelledBytes(c, kind, name, m) == if tag(m) == name then Sum(m.parts, FileSize) else 0 {
      FileSizesOf(m);
    }
    SumSame(media, Labelled(c, kind, name), (m: Media) => if tag(m) == name then Sum(m.parts, FileSize) else 0);
  }

  lemma LabelTotal(c: Config, kind: MediaLabel, rows: seq<Row>, tag: Media -> string, name: string)
    requires DistinctKeys(rows) && forall m: Media :: LabelOf(c, kind, m) == tag(m)
    ensures Total(c, LabelBytes(kind, name), rows)
         == SumIf(rows, (r: Row) => KnownSize(r.media), (r: Row) => VersionsNamed(r.media, tag, name))
  {
    hide Total, SumIf, KnownSize, VersionsNamed, Sized, LabelOf;
    forall r | r in rows
      ensures Share(c, LabelBytes(kind, name), r) == if KnownSize(r.media) then VersionsNamed(r.media, tag, name) else 0
    {
      SizedMeans(r);
      NamedVersions(c, kind, r.media, tag, name);
    }
    SumsOf(c, LabelBytes(kind, name), rows, (r: Row) => KnownSize(r.media), (r: Row) => VersionsNamed(r.media, tag, name));
  }

  /** The published bytes of a resolution and of a codec: the versions that carry it, of items
      with a known size. */
  lemma PublishedLabels(c: Config, rows: seq<Row>, st: Stats, name: string)
    requires StatsOf(c, rows, st)
    ensures Get(st.resolutionBytes, name)
         == SumIf(rows, (r: Row) => KnownSize(r.media), (r: Row) => VersionsNamed(r.media, (m: Media) => c.resolutionBucket(m.resolution), name))
    ensures Get(st.codecBytes, name)
         == SumIf(rows, (r: Row) => KnownSize(r.media), (r: Row) => VersionsNamed(r.media, (m: Media) => c.normalizeCodec(m.codec), name))
  {
    hide ListsExact, WatchExact, CountsExact, Total, SumIf, KnownSize, VersionsNamed;
    LabelTotal(c, Resolution, rows, (m: Media) => c.resolutionBucket(m.resolution), name);
    LabelTotal(c, Codec, rows, (m: Media) => c.normalizeCodec(m.codec), name);
  }

  /** What an item of several versions adds to the extra bytes: all but its largest version. */
  lemma ExtraVersionsMean(c: Config, r: Row, m: Media)
    requires r.key.Some? && KnownSize(r.media) && |r.media| >= 2 && IsLargestVersion(r.media, m)
    ensures Share(c, ExtraVersionBytes, r) == FileSizes(r.media) - Sum(m.parts, FileSize)
  {
    SizedMeans(r);
    TotalIsFiles(r.media);
    SizedIsPositive(r.media);
    LargestVersionMeans(r.media);
    forall x | x in r.media ensures MediaBytes(x) == Sum(x.parts, FileSize) {
      FileSizesOf(x);
    }
  }

  /** An item of one version, or of unknown size, adds none. */
  lemma NoExtraVersions(c: Config, r: Row)
    requires !KnownSize(r.media) || |r.media| < 2
    ensures Share(c, ExtraVersionBytes, r) == 0
  {
    SizedMeans(r);
  }

  // ---- lists ----

  /** A listed entry is no worse than another: greater, or as great with no greater key. */
  predicate Leads(o: Order, a: Item, b: Item) {
    match o
    case BySize => a.bytes > b.bytes || (a.bytes == b.bytes && a.ratingKey <= b.ratingKey)
    case ByAdded => a.addedAt > b.addedAt || (a.addedAt == b.addedAt && a.ratingKey <= b.ratingKey)
  }

  /** A published list: at most ten entries, in order, and every other led by ten listed. */
  lemma TopMeans(o: Order, list: seq<Item>, all: multiset<Item>)
    requires IsTop(o, list, all)
    ensures |list| <= 10 && forall i, j | 0 <= i < j < |list| :: Leads(o, list[i], list[j])
    ensures forall it | it in list :: it in all
    ensures forall it | it in all && it !in list :: |list| == 10 && forall x | x in list :: Leads(o, x, it)
  {
    var dropped := SplitTop(o, list, all);
    forall it | it in all && it !in list ensures |list| == 10 && forall x | x in list :: Leads(o, x, it) {
      assert it in dropped;
      var j :| 0 <= j < |dropped| && dropped[j] == it;
      forall x | x in list ensures Leads(o, x, it) {
        var i :| 0 <= i < |list| && list[i] == x;
        assert !Before(o, dropped[j], list[i]);
      }
    }
    forall it | it in list ensures it in all {
      assert it in multiset(list);
    }
  }

  /** How a video stands in a list. */
  predicate IsVideo(c: Config, r: Row, it: Item)
    requires r.key.Some?
  {
    && it.ratingKey == r.key.value && it.title == r.title && it.year == r.year && it.addedAt == r.addedAt
    && it.bytes == (if KnownSize(r.media) then FileSizes(r.media) else 0) && it.lastPlayed == LastPlay(c, r)
    && it.showKey == 0 && it.episode == NoEpisode
  }

  lemma VideoMeans(c: Config, r: Row)
    requires r.key.Some?
    ensures IsVideo(c, r, VideoItem(c, r))
  {
    SizedMeans(r);
  }

  /** The largest videos: each is one of known size, and any other such is led by ten. */
  lemma ListedLargestVideos(c: Config, rows: seq<Row>, st: Stats)
    requires StatsOf(c, rows, st) && !c.showLibrary
    ensures |st.largest| <= 10 && forall i, j | 0 <= i < j < |st.largest| :: Leads(BySize, st.largest[i], st.largest[j])
    ensures forall it | it in st.largest :: exists r | r in rows :: r.key.Some? && KnownSize(r.media) && IsVideo(c, r, it)
    ensures forall r | r in rows && KnownSize(r.media) ::
              r.key.Some? && ((exists it | it in st.largest :: IsVideo(c, r, it))
                              || (|st.largest| == 10 && forall it | it in st.largest :: Leads(BySize, it, VideoItem(c, r))))
  {
    hide LabelsExact, WatchExact, CountsExact, IsTop, Leads, IsVideo, VideoItem, KnownSize, Sized;
    var all := multiset(LargestEntries(c, rows));
    TopMeans(BySize, st.largest, all);
    forall r | r in rows ensures r.key.Some? && (Sized(r.media) <==> KnownSize(r.media)) && IsVideo(c, r, VideoItem(c, r)) {
      SizedMeans(r);
      VideoMeans(c, r);
    }
    forall r | r in rows && KnownSize(r.media) ensures VideoItem(c, r) in all {
    }
  }

  /** The newest videos, likewise, of those with an added time. */
  lemma ListedNewestVideos(c: Config, rows: seq<Row>, st: Stats)
    requires StatsOf(c, rows, st) && !c.showLibrary
    ensures |st.recent| <= 10 && forall i, j | 0 <= i < j < |st.recent| :: Leads(ByAdded, st.recent[i], st.recent[j])
    ensures forall it | it in st.recent :: exists r | r in rows :: r.key.Some? && r.addedAt > 0 && IsVideo(c, r, it)
    ensures forall r | r in rows && r.addedAt > 0 ::
              r.key.Some? && ((exists it | it in st.recent :: IsVideo(c, r, it))
                              || (|st.recent| == 10 && forall it | it in st.recent :: Leads(ByAdded, it, VideoItem(c, r))))
  {
    hide LabelsExact, WatchExact, CountsExact, IsTop, Leads, IsVideo, VideoItem;
    var all := multiset(RecentEntries(c, rows));
    TopMeans(ByAdded, st.recent, all);
    forall r | r in rows ensures r.key.Some? && IsVideo(c, r, VideoItem(c, r)) {
      VideoMeans(c, r);
    }
    forall r | r in rows && r.addedAt > 0 ensures VideoItem(c, r) in all {
    }
  }

  function EpisodeFiles(e: Row): int {
    FileSizes(e.media)
  }

  /** A show can be ranked: it has an episode, each has a known size, and all fit int64. */
  predicate CanBeRanked(rows: seq<Row>, show: uint64) {
    && (exists e | e in rows :: e.showKey == Some(show))
    && (forall e | e in rows && e.showKey == Some(show) :: KnownSize(e.media))
    && Sum(Episodes(rows, show), EpisodeFiles) <= 0x7FFF_FFFF_FFFF_FFFF
  }

  lemma RankableMeans(rows: seq<Row>, show: uint64)
    ensures show in Shows(rows) && Rankable(Episodes(rows, show)) <==> CanBeRanked(rows, show)
    ensures CanBeRanked(rows, show) ==> Sum(Episodes(rows, show), RowBytes) == Sum(Episodes(rows, show), EpisodeFiles)
  {
    hide Sized, KnownSize, RowBytes;
    EpisodesMeans(rows, show);
    var episodes := Episodes(rows, show);
    forall e | e in episodes
      ensures (Sized(e.media) <==> KnownSize(e.media)) && (KnownSize(e.media) ==> RowBytes(e) == EpisodeFiles(e))
    {
      SizedMeans(e);
    }
    if forall e | e in episodes :: KnownSize(e.media) {
      SumSame(episodes, RowBytes, EpisodeFiles);
    }
  }

  /** How a show stands in the largest list, under the title of its first-read episode. */
  ghost predicate IsShow(c: Config, rows: seq<Row>, show: uint64, it: Item)
    requires DistinctKeys(rows)
  {
    EpisodesMeans(rows, show);
    var episodes := Episodes(rows, show);
    && it.ratingKey == show && it.showKey == show && it.episode == NoEpisode && it.year == 0 && it.addedAt == 0
    && episodes != [] && it.title == episodes[0].showTitle
    && it.bytes == Sum(episodes, EpisodeFiles) && it.lastPlayed == ShowLastPlay(c, show, episodes)
  }

  lemma ShowMeans(c: Config, rows: seq<Row>, show: uint64)
    requires DistinctKeys(rows) && show in Shows(rows) && Rankable(Episodes(rows, show))
    ensures IsShow(c, rows, show, ShowEntry(c, rows, show)) && CanBeRanked(rows, show)
  {
    hide CanBeRanked;
    RankableMeans(rows, show);
    EpisodesMeans(rows, show);
  }

  /** The largest shows: each can be ranked, and any other that can is led by ten. */
  lemma ListedShows(c: Config, rows: seq<Row>, st: Stats)
    requires StatsOf(c, rows, st) && c.showLibrary
    ensures |st.largest| <= 10 && forall i, j | 0 <= i < j < |st.largest| :: Leads(BySize, st.largest[i], st.largest[j])
    ensures forall it | it in st.largest :: CanBeRanked(rows, it.ratingKey) && IsShow(c, rows, it.ratingKey, it)
    ensures forall show: uint64 | CanBeRanked(rows, show) ::
              (exists it | it in st.largest :: it.ratingKey == show)
              || (|st.largest| == 10 && forall it | it in st.largest ::
                    var bytes := Sum(Episodes(rows, show), EpisodeFiles);
                    it.bytes > bytes || (it.bytes == bytes && it.ratingKey <= show))
  {
    hide LabelsExact, WatchExact, CountsExact, IsTop, CanBeRanked, ShowEntry, Rankable;
    var all := multiset(LargestEntries(c, rows));
    TopMeans(BySize, st.largest, all);
    forall it | it in st.largest ensures CanBeRanked(rows, it.ratingKey) && IsShow(c, rows, it.ratingKey, it) {
      var show: uint64 :| show in Shows(rows) && Rankable(Episodes(rows, show)) && it == ShowEntry(c, rows, show);
      ShowMeans(c, rows, show);
    }
    forall show: uint64 | CanBeRanked(rows, show)
      ensures (exists it | it in st.largest :: it.ratingKey == show)
              || (|st.largest| == 10 && forall it | it in st.largest ::
                    var bytes := Sum(Episodes(rows, show), EpisodeFiles);
                    it.bytes > bytes || (it.bytes == bytes && it.ratingKey <= show))
    {
      RankableMeans(rows, show);
      ShowMeans(c, rows, show);
      assert ShowEntry(c, rows, show) in all;
    }
  }

  /** An episode of a show with an added time, and no episode of it is newer, or as new with a
      smaller key. */
  ghost predicate IsNewestOf(rows: seq<Row>, show: uint64, e: Row)
    requires DistinctKeys(rows)
  {
    && e in rows && e.showKey == Some(show) && e.addedAt > 0
    && forall x | x in rows && x.showKey == Some(show) && x.addedAt > 0 ::
         x.addedAt < e.addedAt || (x.addedAt == e.addedAt && e.key.value <= x.key.value)
  }

  /** How an episode stands in the newest list for its show. */
  predicate IsEpisode(e: Row, it: Item)
    requires e.key.Some?
  {
    && it.ratingKey == e.key.value && e.showKey == Some(it.showKey) && it.title == e.showTitle && it.addedAt == e.addedAt
    && it.episode == Episode(e.season, e.number) && it.bytes == 0 && it.lastPlayed == 0 && it.year == 0
  }

  lemma NewestMeans(rows: seq<Row>, show: uint64)
    requires DistinctKeys(rows)
    ensures ShowNewest(rows, show) != NO_ITEM ==> exists e | e in rows :: IsNewestOf(rows, show, e) && IsEpisode(e, ShowNewest(rows, show))
    ensures (exists e | e in rows :: e.showKey == Some(show) && e.addedAt > 0) ==> ShowNewest(rows, show) != NO_ITEM
  {
    EpisodesMeans(rows, show);
    var episodes := Episodes(rows, show);
    var it := NewestEpisode(show, episodes);
    if it != NO_ITEM {
      var e :| e in episodes && e.addedAt > 0 && it == EpisodeItem(show, e);
      forall x | x in rows && x.showKey == Some(show) && x.addedAt > 0
        ensures x.addedAt < e.addedAt || (x.addedAt == e.addedAt && e.key.value <= x.key.value)
      {
        assert x in episodes && !Before(ByAdded, EpisodeItem(show, x), it);
      }
      assert IsNewestOf(rows, show, e) && IsEpisode(e, it);
    }
  }

  /** The newest shows: each by its newest episode, and any other with one is led by ten. */
  lemma ListedNewestShows(c: Config, rows: seq<Row>, st: Stats)
    requires StatsOf(c, rows, st) && c.showLibrary
    ensures |st.recent| <= 10 && forall i, j | 0 <= i < j < |st.recent| :: Leads(ByAdded, st.recent[i], st.recent[j])
    ensures forall it | it in st.recent :: exists e | e in rows :: IsNewestOf(rows, it.showKey, e) && IsEpisode(e, it)
    ensures forall e | e in rows && e.showKey.Some? && e.addedAt > 0 ::
              (exists it | it in st.recent :: it.showKey == e.showKey.value)
              || (|st.recent| == 10 && forall it | it in st.recent :: it.addedAt >= e.addedAt)
  {
    hide LabelsExact, WatchExact, CountsExact, IsTop, ShowNewest, IsNewestOf;
    var all := multiset(RecentEntries(c, rows));
    TopMeans(ByAdded, st.recent, all);
    forall it | it in st.recent ensures exists e | e in rows :: IsNewestOf(rows, it.showKey, e) && IsEpisode(e, it) {
      var show: uint64 :| show in Shows(rows) && ShowNewest(rows, show) != NO_ITEM && it == ShowNewest(rows, show);
      NewestMeans(rows, show);
      var e :| e in rows && IsNewestOf(rows, show, e) && IsEpisode(e, it);
      NewestIs(rows, show, e);
      assert IsNewestOf(rows, it.showKey, e);
    }
    forall e | e in rows && e.showKey.Some? && e.addedAt > 0
      ensures (exists it | it in st.recent :: it.showKey == e.showKey.value)
              || (|st.recent| == 10 && forall it | it in st.recent :: it.addedAt >= e.addedAt)
    {
      var show := e.showKey.value;
      NewestMeans(rows, show);
      var it := ShowNewest(rows, show);
      assert it in all;
      var x :| x in rows && IsNewestOf(rows, show, x) && IsEpisode(x, it);
      NewestIs(rows, show, x);
      NewestLeads(rows, show, x, e);
    }
  }

  lemma NewestIs(rows: seq<Row>, show: uint64, x: Row)
    requires DistinctKeys(rows) && IsNewestOf(rows, show, x)
    ensures x.showKey == Some(show) && x.addedAt > 0
  {
  }

  lemma NewestLeads(rows: seq<Row>, show: uint64, x: Row, e: Row)
    requires DistinctKeys(rows) && IsNewestOf(rows, show, x) && e in rows && e.showKey == Some(show) && e.addedAt > 0
    ensures e.addedAt <= x.addedAt && x.showKey == Some(show)
  {
  }

  // ---- dates that do not count ----

  /** The row without a view date that does not count. */
  function Viewed(r: Row): Row {
    if OwnPlay(r) then r else r.(lastViewedAt := None)
  }

  function AllViewed(rows: seq<Row>): seq<Row> {
    if rows == [] then [] else AllViewed(rows[..|rows| - 1]) + [Viewed(rows[|rows| - 1])]
  }

  lemma ViewedSame(c: Config, r: Row)
    ensures Viewed(r) == r.(lastViewedAt := Viewed(r).lastViewedAt)
    ensures r.key.Some? ==> LastPlay(c, Viewed(r)) == LastPlay(c, r)
    ensures forall f: Figure :: Share(c, f, Viewed(r)) == Share(c, f, r)
    ensures r.key.Some? ==> VideoItem(c, Viewed(r)) == VideoItem(c, r)
    ensures forall show: uint64 :: r.key.Some? ==> EpisodeItem(show, Viewed(r)) == EpisodeItem(show, r)
    ensures RowBytes(Viewed(r)) == RowBytes(r)
  {
    if r.key.Some? {
      assert LastPlay(c, Viewed(r)) == LastPlay(c, r);
    }
  }

  lemma {:induction false} AllViewedMeans(rows: seq<Row>)
    ensures |AllViewed(rows)| == |rows| && forall i | 0 <= i < |rows| :: AllViewed(rows)[i] == Viewed(rows[i])
    ensures forall x :: x in AllViewed(rows) <==> exists r | r in rows :: x == Viewed(r)
  {
    if rows != [] {
      var n := |rows| - 1;
      AllViewedMeans(rows[..n]);
      assert rows == rows[..n] + [rows[n]];
    }
  }

  lemma {:induction false} KeysViewed(rows: seq<Row>)
    ensures LibStats.Keys(AllViewed(rows)) == LibStats.Keys(rows) && Shows(AllViewed(rows)) == Shows(rows)
  {
    AllViewedMeans(rows);
    forall r | r in rows ensures Viewed(r) in AllViewed(rows) && Viewed(r).key == r.key && Viewed(r).showKey == r.showKey {
    }
  }

  lemma {:induction false} FirstViewed(rows: seq<Row>)
    ensures FirstRows(AllViewed(rows)) == AllViewed(FirstRows(rows))
  {
    if rows != [] {
      var n := |rows| - 1;
      FirstViewed(rows[..n]);
      KeysViewed(FirstRows(rows[..n]));
      assert AllViewed(rows)[..n] == AllViewed(rows[..n]) by { AllViewedMeans(rows[..n]); }
      var before := FirstRows(rows[..n]);
      assert AllViewed(rows) == AllViewed(rows[..n]) + [Viewed(rows[n])];
      AllViewedMeans(rows);
      if IsNew(before, rows[n]) {
        assert (before + [rows[n]])[..|before|] == before;
      }
    }
  }

  lemma {:induction false} EpisodesViewed(rows: seq<Row>, show: uint64)
    ensures Episodes(AllViewed(rows), show) == AllViewed(Episodes(rows, show))
  {
    if rows != [] {
      var n := |rows| - 1;
      EpisodesViewed(rows[..n], show);
      AllViewedMeans(rows[..n]);
      AllViewedMeans(rows);
      assert AllViewed(rows)[..n] == AllViewed(rows[..n]);
      var before := Episodes(rows[..n], show);
      if rows[n].showKey == Some(show) {
        assert (before + [rows[n]])[..|before|] == before;
      }
    }
  }

  lemma {:induction false} SumViewed(rows: seq<Row>, f: Row -> int)
    requires forall r | r in rows :: f(Viewed(r)) == f(r)
    ensures Sum(AllViewed(rows), f) == Sum(rows, f)
  {
    if rows != [] {
      var n := |rows| - 1;
      assert forall r | r in rows[..n] :: r in rows;
      assert rows[n] in rows;
      SumViewed(rows[..n], f);
      SumSnoc(AllViewed(rows[..n]), Viewed(rows[n]), f);
    }
  }

  lemma TotalViewed(c: Config, f: Figure, rows: seq<Row>)
    ensures Total(c, f, AllViewed(rows)) == Total(c, f, rows)
  {
    forall r | r in rows ensures Share(c, f, Viewed(r)) == Share(c, f, r) {
      ViewedSame(c, r);
    }
    SumViewed(rows, Shares(c, f));
  }

  lemma {:induction false} NewestAddedViewed(rows: seq<Row>)
    ensures NewestAdded(AllViewed(rows)) == NewestAdded(rows)
  {
    if rows != [] {
      var n := |rows| - 1;
      NewestAddedViewed(rows[..n]);
      AllViewedMeans(rows[..n]);
      assert AllViewed(rows) == AllViewed(rows[..n]) + [Viewed(rows[n])];
      assert AllViewed(rows)[..n] == AllViewed(rows[..n]);
    }
  }

  lemma DistinctViewed(rows: seq<Row>)
    ensures DistinctKeys(AllViewed(rows)) <==> DistinctKeys(rows)
  {
    AllViewedMeans(rows);
    assert forall r | r in rows :: Viewed(r) in AllViewed(rows) && Viewed(r).key == r.key;
  }

  lemma {:induction false} LastPlayViewed(c: Config, show: uint64, episodes: seq<Row>)
    requires forall e | e in episodes :: e.key.Some?
    ensures (forall e | e in AllViewed(episodes) :: e.key.Some?)
    ensures ShowLastPlay(c, show, AllViewed(episodes)) == ShowLastPlay(c, show, episodes)
  {
    AllViewedMeans(episodes);
    if episodes != [] {
      var n := |episodes| - 1;
      assert forall e | e in episodes[..n] :: e in episodes;
      LastPlayViewed(c, show, episodes[..n]);
      assert AllViewed(episodes)[..n] == AllViewed(episodes[..n]);
      ViewedSame(c, episodes[n]);
    }
  }

  lemma {:induction false} NewestViewed(c: Config, show: uint64, episodes: seq<Row>)
    requires forall e | e in episodes :: e.key.Some?
    ensures (forall e | e in AllViewed(episodes) :: e.key.Some?)
    ensures NewestEpisode(show, AllViewed(episodes)) == NewestEpisode(show, episodes)
  {
    AllViewedMeans(episodes);
    if episodes != [] {
      var n := |episodes| - 1;
      assert forall e | e in episodes[..n] :: e in episodes;
      NewestViewed(c, show, episodes[..n]);
      assert AllViewed(episodes)[..n] == AllViewed(episodes[..n]);
      ViewedSame(c, episodes[n]);
    }
  }

  lemma RankableViewed(episodes: seq<Row>)
    ensures Rankable(AllViewed(episodes)) <==> Rankable(episodes)
    ensures Sum(AllViewed(episodes), RowBytes) == Sum(episodes, RowBytes)
  {
    hide Sized, RowBytes;
    AllViewedMeans(episodes);
    forall e | e in episodes ensures Sized(Viewed(e).media) == Sized(e.media) && RowBytes(Viewed(e)) == RowBytes(e) && Viewed(e) in AllViewed(episodes) {
      SameMedia(e);
    }
    SumViewed(episodes, RowBytes);
  }

  lemma SameMedia(r: Row)
    ensures Viewed(r).media == r.media && RowBytes(Viewed(r)) == RowBytes(r)
  {
  }

  lemma ShowViewed(c: Config, rows: seq<Row>, show: uint64)
    requires DistinctKeys(rows) && DistinctKeys(AllViewed(rows)) && show in Shows(rows) && show in Shows(AllViewed(rows))
    ensures Rankable(Episodes(AllViewed(rows), show)) <==> Rankable(Episodes(rows, show))
    ensures Rankable(Episodes(rows, show)) ==> ShowEntry(c, AllViewed(rows), show) == ShowEntry(c, rows, show)
    ensures ShowNewest(AllViewed(rows), show) == ShowNewest(rows, show)
  {
    hide Rankable, Sized, RowBytes;
    EpisodesViewed(rows, show);
    EpisodesMeans(rows, show);
    EpisodesMeans(AllViewed(rows), show);
    var episodes := Episodes(rows, show);
    RankableViewed(episodes);
    LastPlayViewed(c, show, episodes);
    NewestViewed(c, show, episodes);
    AllViewedMeans(episodes);
    assert AllViewed(episodes)[0].showTitle == episodes[0].showTitle;
  }

  lemma EntriesViewed(c: Config, rows: seq<Row>)
    requires DistinctKeys(rows) && DistinctKeys(AllViewed(rows))
    ensures LargestEntries(c, AllViewed(rows)) == LargestEntries(c, rows)
    ensures RecentEntries(c, AllViewed(rows)) == RecentEntries(c, rows)
  {
    hide ShowEntry, ShowNewest, Rankable, Sized, VideoItem;
    KeysViewed(rows);
    AllViewedMeans(rows);
    if c.showLibrary {
      forall show | show in Shows(rows)
        ensures Rankable(Episodes(AllViewed(rows), show)) <==> Rankable(Episodes(rows, show))
        ensures Rankable(Episodes(rows, show)) ==> ShowEntry(c, AllViewed(rows), show) == ShowEntry(c, rows, show)
        ensures ShowNewest(AllViewed(rows), show) == ShowNewest(rows, show)
      {
        ShowViewed(c, rows, show);
      }
    } else {
      forall r | r in rows
        ensures Viewed(r) in AllViewed(rows) && r.key.Some? && VideoItem(c, Viewed(r)) == VideoItem(c, r)
        ensures Viewed(r).media == r.media && Viewed(r).addedAt == r.addedAt
      {
        ViewedSame(c, r);
      }
    }
  }

  lemma StatsViewed(c: Config, rows: seq<Row>, st: Stats)
    ensures StatsOf(c, AllViewed(rows), st) <==> StatsOf(c, rows, st)
  {
    hide Total, LargestEntries, RecentEntries, IsTop, DistinctKeys;
    DistinctViewed(rows);
    NewestAddedViewed(rows);
    forall f: Figure ensures Total(c, f, AllViewed(rows)) == Total(c, f, rows) {
      TotalViewed(c, f, rows);
    }
    if DistinctKeys(rows) {
      EntriesViewed(c, rows);
    }
  }

  /** The same row but for a view date that goes without a positive view count. */
  predicate SameButUnviewed(a: Row, b: Row) {
    a == b || (a.(lastViewedAt := None) == b.(lastViewedAt := None) && !(a.viewCount.Some? && a.viewCount.value > 0))
  }

  /** A view date without a positive view count changes nothing that is published. */
  lemma UnviewedDatesChangeNothing(c: Config, a: seq<Row>, b: seq<Row>, st: Stats)
    requires |a| == |b| && forall i | 0 <= i < |a| :: SameButUnviewed(a[i], b[i])
    ensures StatsOf(c, FirstRows(a), st) <==> StatsOf(c, FirstRows(b), st)
  {
    hide StatsOf, FirstRows;
    AllViewedMeans(a);
    AllViewedMeans(b);
    assert AllViewed(a) == AllViewed(b);
    FirstViewed(a);
    FirstViewed(b);
    StatsViewed(c, FirstRows(a), st);
    StatsViewed(c, FirstRows(b), st);
  }
}
