/** What one library's figures mean (internal/libstats/libstats.go): a declarative account,
    over the first row of each rating key, of everything a walk publishes. The loop that
    computes it is in Aggregator.dfy. */
module LibStats {
  import opened Ints
  import opened Sequences
  import opened Ranking

  const DAY: int := 24 * 60 * 60

  datatype Media = Media(resolution: string, codec: string, parts: seq<Option<int64>>)

  /** One item of a walk; the keys are the parsed rating keys, None when they do not parse. */
  datatype Row = Row(
    key: Option<uint64>,
    showKey: Option<uint64>,
    title: string,
    showTitle: string,
    year: int,
    addedAt: int64,
    viewCount: Option<int64>,
    lastViewedAt: Option<int64>,
    season: int,
    number: int,
    media: seq<Media>
  )

  /** A question put to the watched map. The answers may come from different states of the
      map, so an item key and an equal show key are different questions. */
  datatype Ask = ItemPlay(key: uint64) | ShowPlay(key: uint64)

  datatype Config = Config(
    showLibrary: bool,
    now: int64,
    played: Ask -> int64,
    resolutionBucket: string -> string,
    normalizeCodec: string -> string
  )

  // ---- sizes ----

  function PartBytes(p: Option<int64>): int {
    if p.Some? then p.value else 0
  }

  predicate PartKnown(p: Option<int64>) {
    p.Some? && p.value > 0
  }

  function MediaBytes(m: Media): int {
    Sum(m.parts, PartBytes)
  }

  predicate MediaKnown(m: Media) {
    m.parts != [] && forall p | p in m.parts :: PartKnown(p)
  }

  function TotalBytes(media: seq<Media>): int {
    Sum(media, MediaBytes)
  }

  /** The size of an item is known: every part of every version has one, and the sum fits. */
  predicate Sized(media: seq<Media>) {
    media != [] && (forall m | m in media :: MediaKnown(m)) && TotalBytes(media) <= MAX_INT64
  }

  lemma KnownIsPositive(m: Media)
    requires MediaKnown(m)
    ensures 0 < MediaBytes(m)
  {
    var n := |m.parts| - 1;
    assert forall x | x in m.parts[..n] :: x in m.parts;
    SumNonNegative(m.parts[..n], PartBytes);
    assert m.parts[n] in m.parts;
  }

  lemma SizedIsPositive(media: seq<Media>)
    requires Sized(media)
    ensures forall m | m in media :: 0 < MediaBytes(m)
    ensures 0 < TotalBytes(media)
  {
    forall m | m in media ensures 0 < MediaBytes(m) {
      KnownIsPositive(m);
    }
    var n := |media| - 1;
    SumNonNegative(media[..n], MediaBytes);
    assert media[n] in media;
  }

  /** The bytes a row counts with: none when unsized. */
  function RowBytes(r: Row): (b: int)
    ensures 0 <= b <= MAX_INT64
    ensures 0 < b <==> Sized(r.media)
  {
    if Sized(r.media) then SizedIsPositive(r.media); TotalBytes(r.media) else 0
  }

  function LargestVersion(media: seq<Media>): int {
    if media == [] then 0 else Max(LargestVersion(media[..|media| - 1]), MediaBytes(media[|media| - 1]))
  }

  // ---- last play ----

  datatype WatchBucket = Never | Over1y | From90dTo1y | Under90d

  /** The newer of the recorded play and the owner's own watch state, never negative. */
  function LastPlay(c: Config, r: Row): int64
    requires r.key.Some?
  {
    var recorded := c.played(ItemPlay(r.key.value));
    var own := if r.viewCount.Some? && r.viewCount.value > 0 && r.lastViewedAt.Some? then r.lastViewedAt.value else 0;
    Max(0, Max(recorded, own))
  }

  function BucketAt(now: int, last: int): WatchBucket {
    if last <= 0 then Never
    else if now - last < 90 * DAY then Under90d
    else if now - last < 365 * DAY then From90dTo1y
    else Over1y
  }

  function BucketOf(c: Config, r: Row): WatchBucket
    requires r.key.Some?
  {
    BucketAt(c.now, LastPlay(c, r))
  }

  // ---- figures that add up over rows ----

  datatype MediaLabel = Resolution | Codec

  function LabelOf(c: Config, kind: MediaLabel, m: Media): string {
    match kind
    case Resolution => c.resolutionBucket(m.resolution)
    case Codec => c.normalizeCodec(m.codec)
  }

  /** The bytes a version adds to a label. */
  function LabelledBytes(c: Config, kind: MediaLabel, name: string, m: Media): int {
    if LabelOf(c, kind, m) == name then MediaBytes(m) else 0
  }

  function Labelled(c: Config, kind: MediaLabel, name: string): Media -> int {
    m => LabelledBytes(c, kind, name, m)
  }

  datatype Figure =
    | Items
    | SizedBytes
    | WatchItems(bucket: WatchBucket)
    | WatchBytes(bucket: WatchBucket)
    | LabelBytes(kind: MediaLabel, name: string)
    | ExtraVersionBytes
    | MultiVersionItems
    | Unsized
    | AddedWithin(days: int)

  /** The figures kept in int64 with a checked addition. */
  predicate Checked(f: Figure) {
    f.WatchBytes? || f.LabelBytes? || f.ExtraVersionBytes?
  }

  /** What one distinct row adds to a figure. */
  function Share(c: Config, f: Figure, r: Row): int {
    if r.key.None? then 0 else
    match f
    case Items => 1
    case SizedBytes => RowBytes(r)
    case WatchItems(b) => if BucketOf(c, r) == b then 1 else 0
    case WatchBytes(b) => if BucketOf(c, r) == b then RowBytes(r) else 0
    case LabelBytes(kind, name) => if Sized(r.media) then Sum(r.media, Labelled(c, kind, name)) else 0
    case ExtraVersionBytes =>
      if Sized(r.media) && |r.media| > 1 then TotalBytes(r.media) - LargestVersion(r.media) else 0
    case MultiVersionItems => if Sized(r.media) && |r.media| > 1 then 1 else 0
    case Unsized => if Sized(r.media) then 0 else 1
    case AddedWithin(days) => if r.addedAt > 0 && c.now - r.addedAt <= days * DAY then 1 else 0
  }

  function Shares(c: Config, f: Figure): Row -> int {
    r => Share(c, f, r)
  }

  /** A figure of distinct rows: the exact sum of their shares. */
  function Total(c: Config, f: Figure, rows: seq<Row>): int {
    Sum(rows, Shares(c, f))
  }

  // ---- distinct rows ----

  function Keys(rows: seq<Row>): set<uint64> {
    set r | r in rows && r.key.Some? :: r.key.value
  }

  lemma KeysSnoc(rows: seq<Row>, r: Row)
    ensures Keys(rows + [r]) == Keys(rows) + (if r.key.Some? then {r.key.value} else {})
  {
    assert forall x :: x in rows + [r] <==> x in rows || x == r;
    if r.key.Some? {
      assert r in rows + [r];
    }
  }

  /** A row is new when its key parses and no row before it had it. */
  predicate IsNew(rows: seq<Row>, r: Row) {
    r.key.Some? && r.key.value !in Keys(rows)
  }

  /** Every row has a key and no two rows share one. */
  predicate DistinctKeys(rows: seq<Row>) {
    && (forall r | r in rows :: r.key.Some?)
    && (forall i, j | 0 <= i < j < |rows| :: rows[i].key != rows[j].key)
  }

  /** The first row of each parsable rating key, in the order read. */
  function FirstRows(rows: seq<Row>): (first: seq<Row>)
    ensures Keys(first) == Keys(rows) && DistinctKeys(first)
  {
    if rows == [] then []
    else
      var before := FirstRows(rows[..|rows| - 1]);
      var r := rows[|rows| - 1];
      assert rows == rows[..|rows| - 1] + [r];
      KeysSnoc(rows[..|rows| - 1], r); KeysSnoc(before, r);
      if IsNew(before, r) then before + [r] else before
  }

  // ---- shows ----

  function Episodes(rows: seq<Row>, show: uint64): seq<Row> {
    if rows == [] then []
    else
      var before := Episodes(rows[..|rows| - 1], show);
      var r := rows[|rows| - 1];
      if r.showKey == Some(show) then before + [r] else before
  }

  function Shows(rows: seq<Row>): set<uint64> {
    set r | r in rows && r.showKey.Some? :: r.showKey.value
  }

  /** A show is ranked when every distinct episode is sized and their sum fits. */
  predicate Rankable(episodes: seq<Row>) {
    (forall e | e in episodes :: Sized(e.media)) && Sum(episodes, RowBytes) <= MAX_INT64
  }

  function ShowLastPlay(c: Config, show: uint64, episodes: seq<Row>): int64
    requires forall e | e in episodes :: e.key.Some?
  {
    if episodes == [] then c.played(ShowPlay(show))
    else Max(ShowLastPlay(c, show, episodes[..|episodes| - 1]), LastPlay(c, episodes[|episodes| - 1]))
  }

  const NO_ITEM: Item := Item("", "", "", NoEpisode, 0, 0, 0, 0, 0, 0)

  /** How an episode stands for its show in the newest list. */
  function EpisodeItem(show: uint64, e: Row): Item
    requires e.key.Some?
  {
    Item("", "", e.showTitle, Episode(e.season, e.number), e.key.value, show, 0, 0, e.addedAt, 0)
  }

  /** The episode with the greatest known added time, ties to the smaller key. */
  function NewestEpisode(show: uint64, episodes: seq<Row>): (it: Item)
    requires forall e | e in episodes :: e.key.Some?
    ensures it == NO_ITEM || exists e :: e in episodes && e.addedAt > 0 && it == EpisodeItem(show, e)
    ensures forall e | e in episodes && e.addedAt > 0 :: it != NO_ITEM && !Before(ByAdded, EpisodeItem(show, e), it)
  {
    if episodes == [] then NO_ITEM
    else
      var before := NewestEpisode(show, episodes[..|episodes| - 1]);
      var e := episodes[|episodes| - 1];
      assert episodes == episodes[..|episodes| - 1] + [e];
      if e.addedAt > 0 && Before(ByAdded, EpisodeItem(show, e), before) then EpisodeItem(show, e) else before
  }

  // ---- the published result ----

  datatype Stats = Stats(
    resolutionBytes: map<string, int>,
    codecBytes: map<string, int>,
    watchAgeBytes: map<WatchBucket, int>,
    watchAgeItems: map<WatchBucket, int>,
    largest: seq<Item>,
    recent: seq<Item>,
    multiVersionItems: int,
    extraVersionBytes: int,
    newestAdded: int,
    added24h: int,
    added7d: int,
    unsized: int
  )

  function LabelMap(st: Stats, kind: MediaLabel): map<string, int> {
    match kind
    case Resolution => st.resolutionBytes
    case Codec => st.codecBytes
  }

  /** A Go map read: an absent key is zero. */
  function Get<K>(m: map<K, int>, k: K): int {
    if k in m then m[k] else 0
  }

  function NewestAdded(rows: seq<Row>): int {
    if rows == [] then 0 else Max(NewestAdded(rows[..|rows| - 1]), rows[|rows| - 1].addedAt)
  }

  /** How a video stands in the ranked lists. */
  function VideoItem(c: Config, r: Row): Item
    requires r.key.Some?
  {
    Item("", "", r.title, NoEpisode, r.key.value, 0, RowBytes(r), LastPlay(c, r), r.addedAt, r.year)
  }

  /** How a show stands in the largest list: its title is its first-read episode's. */
  function ShowItem(c: Config, show: uint64, episodes: seq<Row>): Item
    requires episodes != [] && Rankable(episodes)
    requires forall e | e in episodes :: e.key.Some?
  {
    SumNonNegative(episodes, RowBytes);
    Item("", "", episodes[0].showTitle, NoEpisode, show, show, Sum(episodes, RowBytes),
         ShowLastPlay(c, show, episodes), 0, 0)
  }

  lemma {:induction false} EpisodesMeans(rows: seq<Row>, show: uint64)
    ensures forall e :: e in Episodes(rows, show) <==> e in rows && e.showKey == Some(show)
    ensures Episodes(rows, show) != [] <==> show in Shows(rows)
  {
    if rows != [] {
      var n := |rows| - 1;
      EpisodesMeans(rows[..n], show);
      assert rows == rows[..n] + [rows[n]];
      var before := Episodes(rows[..n], show);
      assert Episodes(rows, show) == if rows[n].showKey == Some(show) then before + [rows[n]] else before;
    }
    var e := Episodes(rows, show);
    if e != [] {
      assert e[0] in e;
    }
    if show in Shows(rows) {
      var r :| r in rows && r.showKey == Some(show);
      assert r in e;
    }
  }

  ghost function ShowEntry(c: Config, rows: seq<Row>, show: uint64): Item
    requires DistinctKeys(rows) && show in Shows(rows) && Rankable(Episodes(rows, show))
  {
    EpisodesMeans(rows, show);
    ShowItem(c, show, Episodes(rows, show))
  }

  /** Everything that competes for the largest list. */
  ghost function LargestEntries(c: Config, rows: seq<Row>): set<Item>
    requires DistinctKeys(rows)
  {
    if c.showLibrary then
      set s | s in Shows(rows) && Rankable(Episodes(rows, s)) :: ShowEntry(c, rows, s)
    else
      set r | r in rows && Sized(r.media) :: VideoItem(c, r)
  }

  /** Everything that competes for the newest list. */
  ghost function RecentEntries(c: Config, rows: seq<Row>): set<Item>
    requires DistinctKeys(rows)
  {
    if c.showLibrary then
      set s | s in Shows(rows) && ShowNewest(rows, s) != NO_ITEM :: ShowNewest(rows, s)
    else
      set r | r in rows && r.addedAt > 0 :: VideoItem(c, r)
  }

  ghost function ShowNewest(rows: seq<Row>, show: uint64): Item
    requires DistinctKeys(rows)
  {
    EpisodesMeans(rows, show);
    NewestEpisode(show, Episodes(rows, show))
  }

  ghost predicate LabelsExact(c: Config, rows: seq<Row>, kind: MediaLabel, m: map<string, int>) {
    forall name: string ::
      && Get(m, name) == Total(c, LabelBytes(kind, name), rows)
      && (name in m <==> 0 < Total(c, LabelBytes(kind, name), rows))
  }

  ghost predicate WatchBytesExact(c: Config, rows: seq<Row>, m: map<WatchBucket, int>) {
    forall b: WatchBucket ::
      Get(m, b) == Total(c, WatchBytes(b), rows) && (b in m <==> 0 < Total(c, WatchBytes(b), rows))
  }

  ghost predicate WatchItemsExact(c: Config, rows: seq<Row>, m: map<WatchBucket, int>) {
    forall b: WatchBucket ::
      Get(m, b) == Total(c, WatchItems(b), rows) && (b in m <==> 0 < Total(c, WatchItems(b), rows))
  }

  ghost predicate WatchExact(c: Config, rows: seq<Row>, st: Stats) {
    WatchBytesExact(c, rows, st.watchAgeBytes) && WatchItemsExact(c, rows, st.watchAgeItems)
  }

  ghost predicate CountsExact(c: Config, rows: seq<Row>, st: Stats) {
    && st.multiVersionItems == Total(c, MultiVersionItems, rows)
    && st.extraVersionBytes == Total(c, ExtraVersionBytes, rows)
    && st.unsized == Total(c, Unsized, rows)
    && st.added24h == Total(c, AddedWithin(1), rows)
    && st.added7d == Total(c, AddedWithin(7), rows)
    && st.newestAdded == NewestAdded(rows)
  }

  ghost predicate ListsExact(c: Config, rows: seq<Row>, st: Stats)
    requires DistinctKeys(rows)
  {
    && IsTop(BySize, st.largest, multiset(LargestEntries(c, rows)))
    && IsTop(ByAdded, st.recent, multiset(RecentEntries(c, rows)))
  }

  /** st is what the walk of these distinct rows publishes. */
  ghost predicate StatsOf(c: Config, rows: seq<Row>, st: Stats) {
    && DistinctKeys(rows)
    && LabelsExact(c, rows, Resolution, st.resolutionBytes)
    && LabelsExact(c, rows, Codec, st.codecBytes)
    && WatchExact(c, rows, st)
    && CountsExact(c, rows, st)
    && ListsExact(c, rows, st)
  }

  /** Some int64 byte figure of these rows does not fit. */
  ghost predicate Overflows(c: Config, rows: seq<Row>) {
    exists f: Figure :: Checked(f) && Total(c, f, rows) > MAX_INT64
  }
}
