/** Following the history (internal/history/history.go): the source grows while it is read
    page by page and row by row, first in full and then by increments that are capped, fail
    and resume, with prunes, visits and catch-up folds in between. */
module Follower {
  import opened Ints
  import opened Sequences
  import opened History
  import opened StoreRuns

  const CAP: nat := MAX_INCREMENTAL_PAGES * PAGE_SIZE

  /** What is fixed: how rows are identified, and which rows a read from a time selects. */
  datatype Setting = Setting(identity: Row -> uint64, selects: (int, Row) -> bool)

  /** The source selects at least every row viewed at or after the time asked for. */
  ghost predicate Honest(c: Setting) {
    forall since: int, r: Row :: r.viewedAt >= since ==> c.selects(since, r)
  }

  function Selected(c: Setting, source: seq<Row>, since: int): seq<Row> {
    if source == [] then []
    else
      var before := Selected(c, source[..|source| - 1], since);
      var r := source[|source| - 1];
      if c.selects(since, r) then before + [r] else before
  }

  /** A read under way: where it reads from, how many rows it may hand on, the rows handed on,
      those of the present page still to be, and how many the selection held when that page was
      requested. */
  datatype Reading = Reading(since: int, start: nat, cap: nat, handed: seq<Row>, page: seq<Row>, total: Option<nat>)

  /** The source, the store, the read or the catch-up under way, and the past: which rows were
      folded, which keys were pruned, and the source as it stood when a page of a read was last
      requested. */
  datatype World = World(
    source: seq<Row>,
    s: State,
    reading: Option<Reading>,
    catchup: Option<Reading>,
    folded: set<Row>,
    pruned: set<uint64>,
    asked: seq<Row>
  )

  datatype Event =
    | Arrive(pos: nat, row: Row)          // the server inserts a row in its history
    | Begin                               // an increment starts
    | Fetch(rows: nat)                    // it requests a page and gets this many rows
    | Pull                                // it hands on the next row of its page, or ends
    | Break                               // its next page fails
    | CatchupBegin(since: int)            // a catch-up starts
    | CatchupFetch(rows: nat)             // it requests a page
    | CatchupPull                         // it hands on the next row of its page, or ends
    | CatchupBreak                        // its next page fails
    | Visit(key: uint64, pass: uint32)
    | Prune(pass: uint32, cutoff: int, gen: nat)

  /** The time the next row is read from, and its place in that selection. */
  function CurrentSince(w: World): int {
    if w.reading.Some? then w.reading.value.since else History.Since(w.s)
  }

  function Head(w: World): nat {
    if w.reading.Some? then w.reading.value.start + |w.reading.value.handed| else w.s.drain.offset
  }

  /** The place in the selection that the next page starts at. */
  function Front(w: World): nat {
    Head(w) + if w.reading.Some? then |w.reading.value.page| else 0
  }

  /** The place in the selection behind the rows requested so far. */
  function Place(a: Reading): nat {
    a.start + |a.handed| + |a.page|
  }

  /** Nothing was left behind the present page when it was requested, so it is the last. */
  predicate AtEnd(a: Reading) {
    a.total.Some? && a.total.value <= Place(a)
  }

  predicate LastPage(w: World) {
    w.reading.Some? && AtEnd(w.reading.value)
  }

  /** A page holds at most PAGE_SIZE rows, fewer when the server says so, none only at the end
      of the selection. */
  predicate Offers(c: Setting, source: seq<Row>, a: Reading, n: nat) {
    && a.page == [] && !AtEnd(a)
    && n <= PAGE_SIZE && Place(a) + n <= |Selected(c, source, a.since)|
    && (n == 0 ==> |Selected(c, source, a.since)| <= Place(a))
  }

  /** Increments and catch-ups share a goroutine, so neither runs during the other. */
  predicate Possible(c: Setting, w: World, e: Event) {
    match e
    case Arrive(pos, _) => pos <= |w.source|
    case Begin => w.reading.None? && w.catchup.None? && w.s.status == Complete
    case Fetch(n) => w.reading.Some? && Offers(c, w.source, w.reading.value, n)
    case Pull => w.reading.Some? && (w.reading.value.page != [] || LastPage(w))
    case Break => w.reading.Some?
    case CatchupBegin(_) => w.reading.None? && w.catchup.None? && w.s.status == Complete
    case CatchupFetch(n) => w.reading.None? && w.catchup.Some? && Offers(c, w.source, w.catchup.value, n)
    case CatchupPull => w.reading.None? && w.catchup.Some? && (w.catchup.value.page != [] || AtEnd(w.catchup.value))
    case CatchupBreak => w.reading.None? && w.catchup.Some?
    case _ => true
  }

  function Closed(w: World, o: Outcome, now: int): World
    requires w.reading.Some?
  {
    var r := w.reading.value;
    w.(s := EndIncrement(w.s, r.since, r.start, NewestTime(r.handed), |r.handed|, o, now), reading := None)
  }

  function FoldIn(c: Setting, w: World, r: Row): World {
    w.(s := FoldRow(c.identity, w.s, r), folded := w.folded + {r})
  }

  /** The reading with its next page of n rows. */
  function WithPage(c: Setting, source: seq<Row>, a: Reading, n: nat): Reading
    requires Place(a) + n <= |Selected(c, source, a.since)|
  {
    var rows := Selected(c, source, a.since);
    a.(page := rows[Place(a)..Place(a) + n], total := Some(|rows|))
  }

  function Fetched(c: Setting, w: World, n: nat): World
    requires w.reading.Some? && Place(w.reading.value) + n <= |Selected(c, w.source, w.reading.value.since)|
  {
    w.(reading := Some(WithPage(c, w.source, w.reading.value, n)), asked := w.source)
  }

  /** The page's first row is handed on. */
  function Turn(a: Reading): Reading
    requires a.page != []
  {
    a.(handed := a.handed + [a.page[0]], page := a.page[1..])
  }

  function Turned(w: World): World
    requires w.reading.Some? && w.reading.value.page != []
  {
    w.(reading := Some(Turn(w.reading.value)))
  }

  function CatchupPulled(c: Setting, w: World): World
    requires w.catchup.Some?
  {
    var a := w.catchup.value;
    if a.page == [] || |a.handed| == a.cap then w.(catchup := None)
    else FoldIn(c, w.(catchup := Some(Turn(a))), a.page[0])
  }

  const CATCHUP_CAP: nat := MAX_CATCHUP_PAGES * PAGE_SIZE

  function Next(c: Setting, w: World, e: Event, now: int): World
    requires Possible(c, w, e)
  {
    match e
    case Arrive(pos, r) => w.(source := InsertAt(w.source, pos, r))
    case Begin => w.(reading := Some(Reading(History.Since(w.s), w.s.drain.offset, CAP, [], [], None)))
    case Fetch(n) => Fetched(c, w, n)
    case Pull =>
      if w.reading.value.page == [] then Closed(w, Finished, now)
      else if |w.reading.value.handed| == w.reading.value.cap then Closed(w, OverLimit, now)
      else FoldIn(c, Turned(w), w.reading.value.page[0])
    case Break => Closed(w, Errored(false), now)
    case CatchupBegin(since) => w.(catchup := Some(Reading(since, 0, CATCHUP_CAP, [], [], None)))
    case CatchupFetch(n) => w.(catchup := Some(WithPage(c, w.source, w.catchup.value, n)))
    case CatchupPull => CatchupPulled(c, w)
    case CatchupBreak => w.(catchup := None)
    case Visit(key, pass) => w.(s := Visited(w.s, key, pass))
    case Prune(pass, cutoff, gen) =>
      var s := Pruned(w.s, pass, cutoff, gen);
      w.(s := s, pruned := w.pruned + (set k | k in WatchedOf(w.s) && k !in WatchedOf(s)))
  }

  /** An event that ends a read with its last row handed on. */
  predicate Finishes(w: World, e: Event) {
    e == Pull && LastPage(w) && w.reading.value.page == []
  }

  // ---- the selection under insertion ----

  lemma {:induction false} SelectedConcat(c: Setting, a: seq<Row>, b: seq<Row>, since: int)
    ensures Selected(c, a + b, since) == Selected(c, a, since) + Selected(c, b, since)
    decreases |b|
  {
    if b == [] {
      assert a + b == a;
    } else {
      var n := |b| - 1;
      SelectedConcat(c, a, b[..n], since);
      assert a + b == (a + b[..n]) + [b[n]];
      assert (a + b)[..|a + b| - 1] == a + b[..n];
    }
  }

  lemma {:induction false} SelectedMeans(c: Setting, source: seq<Row>, since: int)
    ensures forall r :: r in Selected(c, source, since) <==> r in source && c.selects(since, r)
  {
    if source != [] {
      var n := |source| - 1;
      SelectedMeans(c, source[..n], since);
      assert source == source[..n] + [source[n]];
    }
  }

  lemma SelectedOne(c: Setting, r: Row, since: int)
    ensures Selected(c, [r], since) == if c.selects(since, r) then [r] else []
  {
    assert [r][..0] == [];
  }

  /** Inserting one row in the source inserts at most that row in the selection, at the place
      of the rows selected before it. */
  lemma SelectedInsert(c: Setting, source: seq<Row>, pos: nat, r: Row, since: int)
    requires pos <= |source|
    ensures var p := |Selected(c, source[..pos], since)|;
            && p <= |Selected(c, source, since)|
            && Selected(c, InsertAt(source, pos, r), since)
               == (if c.selects(since, r) then InsertAt(Selected(c, source, since), p, r) else Selected(c, source, since))
  {
    var a, b := source[..pos], source[pos..];
    assert source == a + b;
    SelectedConcat(c, a, b, since);
    SelectedConcat(c, a + [r], b, since);
    SelectedConcat(c, a, [r], since);
    SelectedOne(c, r, since);
    var sa, sb := Selected(c, a, since), Selected(c, b, since);
    assert (sa + sb)[..|sa|] == sa && (sa + sb)[|sa|..] == sb;
  }

  lemma {:induction false} NewestTimeMeans(rows: seq<Row>)
    ensures 0 <= NewestTime(rows)
    ensures forall r | r in rows :: r.viewedAt <= NewestTime(rows)
    ensures NewestTime(rows) == 0 || exists r :: r in rows && r.viewedAt == NewestTime(rows)
  {
    if rows != [] {
      var n := |rows| - 1;
      NewestTimeMeans(rows[..n]);
      assert rows == rows[..n] + [rows[n]];
    }
  }

  lemma InsertMembers(rows: seq<Row>, pos: nat, r: Row)
    requires pos <= |rows|
    ensures forall x :: x in InsertAt(rows, pos, r) <==> x in rows || x == r
    ensures NewestTime(rows) <= NewestTime(InsertAt(rows, pos, r))
  {
    var after := InsertAt(rows, pos, r);
    assert rows == rows[..pos] + rows[pos..];
    NewestTimeMeans(rows);
    NewestTimeMeans(after);
    if NewestTime(rows) != 0 {
      var x :| x in rows && x.viewedAt == NewestTime(rows);
      assert x in after;
    }
  }

  // ---- what every step keeps ----

  /** The read under way reads from where the store would start one now. */
  predicate ReadingAgrees(w: World) {
    w.reading.Some? ==>
      var r := w.reading.value;
      && r.since == History.Since(w.s) && r.start == w.s.drain.offset
      && 0 < r.cap && |r.handed| <= r.cap
      && (r.total.None? ==> r.page == [])
  }

  /** The cursor and the window never run ahead of the source. */
  predicate TimesWithin(w: World) {
    && 0 <= w.s.cursor <= NewestTime(w.source)
    && 0 <= History.Since(w.s) <= NewestTime(w.source)
    && (w.reading.Some? ==> NewestTime(w.reading.value.handed) <= NewestTime(w.source))
  }

  /** Every row folded or on the page stands in the source, and stood there when the page was
      requested. */
  ghost predicate RowsWithin(w: World) {
    && (forall r | r in w.folded :: r in w.source)
    && (forall r | r in w.asked :: r in w.source)
    && (w.reading.Some? ==> forall r | r in w.reading.value.page :: r in w.asked)
    && (w.catchup.Some? ==> forall r | r in w.catchup.value.page :: r in w.source)
    && (w.reading.Some? && w.reading.value.total.Some? ==> forall r | r in w.folded :: r in w.asked)
  }

  /** The row stands in rows at place from or behind it. */
  predicate Behind(rows: seq<Row>, from: nat, r: Row) {
    exists k :: from <= k < |rows| && rows[k] == r
  }

  /** Insertions only push rows back: the rows of the page still stand at their place or
      behind it. */
  ghost predicate PageBehind(rows: seq<Row>, head: nat, page: seq<Row>) {
    forall i | 0 <= i < |page| :: Behind(rows, head + i, page[i])
  }

  ghost predicate HeadWithin(c: Setting, w: World) {
    var rows := Selected(c, w.source, CurrentSince(w));
    && Front(w) <= |rows|
    && (w.reading.Some? ==> PageBehind(rows, Head(w), w.reading.value.page))
  }

  /** The entry of a key: some folded row's play, and unless it was pruned the newest. */
  ghost predicate EntryIs(w: World, key: uint64) {
    && (key !in w.pruned ==> forall r | r in w.folded :: PlayOf(r, key) <= At(WatchedOf(w.s), key))
    && (At(WatchedOf(w.s), key) == 0 || exists r :: r in w.folded && PlayOf(r, key) == At(WatchedOf(w.s), key))
  }

  ghost predicate Entries(w: World) {
    forall key: uint64 :: EntryIs(w, key)
  }

  ghost predicate Good(c: Setting, w: World) {
    && w.s.tables.Some? && w.s.status == Complete
    && ReadingAgrees(w) && TimesWithin(w) && RowsWithin(w) && HeadWithin(c, w) && Entries(w)
  }

  lemma FoldEntry(c: Setting, w: World, r: Row, key: uint64)
    requires w.s.tables.Some? && EntryIs(w, key)
    ensures EntryIs(FoldIn(c, w, r), key)
  {
    var u := FoldIn(c, w, r);
    assert At(WatchedOf(u.s), key) == Max(At(WatchedOf(w.s), key), PlayOf(r, key));
    assert r in u.folded;
    if At(WatchedOf(u.s), key) == At(WatchedOf(w.s), key) && At(WatchedOf(w.s), key) != 0 {
      var x :| x in w.folded && PlayOf(x, key) == At(WatchedOf(w.s), key);
      assert x in u.folded;
    }
  }

  lemma FoldInFrame(c: Setting, w: World, r: Row)
    requires w.s.tables.Some? && Entries(w)
    ensures var u := FoldIn(c, w, r);
            && u.s == w.s.(tables := u.s.tables) && u.s.tables.Some?
            && u == w.(s := u.s, folded := w.folded + {r}) && Entries(u)
  {
    hide EntryIs;
    forall key: uint64 ensures EntryIs(FoldIn(c, w, r), key) {
      FoldEntry(c, w, r, key);
    }
  }

  lemma SameEntries(w: World, u: World)
    requires Entries(w) && u.folded == w.folded && u.pruned >= w.pruned
    requires forall key: uint64 :: At(WatchedOf(u.s), key) == At(WatchedOf(w.s), key) || (key in u.pruned && At(WatchedOf(u.s), key) == 0)
    ensures Entries(u)
  {
    forall key: uint64 ensures EntryIs(u, key) {
      assert EntryIs(w, key);
    }
  }

  lemma BehindShifts(rows: seq<Row>, from: nat, r: Row, p: nat, x: Row)
    requires Behind(rows, from, r) && p <= |rows|
    ensures Behind(InsertAt(rows, p, x), from, r)
  {
    var k :| from <= k < |rows| && rows[k] == r;
    assert InsertAt(rows, p, x)[if k < p then k else k + 1] == r;
  }

  lemma PageShifts(rows: seq<Row>, head: nat, page: seq<Row>, p: nat, x: Row)
    requires PageBehind(rows, head, page) && p <= |rows|
    ensures PageBehind(InsertAt(rows, p, x), head, page)
  {
    hide Behind;
    forall i | 0 <= i < |page| ensures Behind(InsertAt(rows, p, x), head + i, page[i]) {
      BehindShifts(rows, head + i, page[i], p, x);
    }
  }

  lemma GoodArrive(c: Setting, w: World, pos: nat, r: Row, now: int)
    requires Good(c, w) && pos <= |w.source|
    ensures Good(c, Next(c, w, Arrive(pos, r), now))
  {
    hide EntryIs, Selected, NewestTime, PageBehind;
    var u := Next(c, w, Arrive(pos, r), now);
    InsertMembers(w.source, pos, r);
    SelectedInsert(c, w.source, pos, r, CurrentSince(w));
    if w.reading.Some? && c.selects(CurrentSince(w), r) {
      PageShifts(Selected(c, w.source, CurrentSince(w)), Head(w), w.reading.value.page,
                 |Selected(c, w.source[..pos], CurrentSince(w))|, r);
    }
    SameEntries(w, u);
  }

  lemma GoodCatchupPull(c: Setting, w: World)
    requires Good(c, w) && Possible(c, w, CatchupPull)
    ensures Good(c, CatchupPulled(c, w))
  {
    hide EntryIs, Selected, NewestTime, Fold, FoldIn, PageBehind;
    var a := w.catchup.value;
    if a.page == [] || |a.handed| == a.cap {
      SameEntries(w, w.(catchup := None));
    } else {
      var v := w.(catchup := Some(Turn(a)));
      SameEntries(w, v);
      FoldInFrame(c, v, a.page[0]);
      assert forall x | x in a.page[1..] :: x in a.page;
    }
  }

  lemma GoodCatchup(c: Setting, w: World, e: Event, now: int)
    requires Good(c, w) && Possible(c, w, e) && (e.CatchupBegin? || e.CatchupFetch? || e.CatchupBreak?)
    ensures Good(c, Next(c, w, e, now))
  {
    hide EntryIs, Selected, NewestTime, PageBehind;
    var u := Next(c, w, e, now);
    SameEntries(w, u);
    if e.CatchupFetch? {
      SelectedMeans(c, w.source, w.catchup.value.since);
      forall r | r in u.catchup.value.page ensures r in w.source {
        assert r in Selected(c, w.source, w.catchup.value.since);
      }
    }
  }

  lemma GoodVisit(c: Setting, w: World, key: uint64, pass: uint32, now: int)
    requires Good(c, w)
    ensures Good(c, Next(c, w, Visit(key, pass), now))
  {
    hide EntryIs, Selected, NewestTime, PageBehind, RowsWithin;
    SameRows(w, Next(c, w, Visit(key, pass), now));
    SameEntries(w, Next(c, w, Visit(key, pass), now));
  }

  lemma SameRows(w: World, u: World)
    requires RowsWithin(w) && u.folded == w.folded && u.asked == w.asked && u.source == w.source && u.catchup == w.catchup
    requires u.reading == w.reading || u.reading.None?
    ensures RowsWithin(u)
  {
  }

  lemma GoodPrune(c: Setting, w: World, pass: uint32, cutoff: int, gen: nat, now: int)
    requires Good(c, w)
    ensures Good(c, Next(c, w, Prune(pass, cutoff, gen), now))
  {
    hide EntryIs, Selected, NewestTime, PageBehind, RowsWithin;
    var u := Next(c, w, Prune(pass, cutoff, gen), now);
    assert u.s == w.s.(tables := u.s.tables) && u.s.tables.Some?;
    SameRows(w, u);
    SameEntries(w, u);
  }

  lemma GoodEnded(c: Setting, w: World, o: Outcome, now: int)
    requires Good(c, w) && w.reading.Some?
    requires o == OverLimit ==> |w.reading.value.handed| == w.reading.value.cap
    ensures Good(c, Closed(w, o, now))
  {
    hide EntryIs, Selected, PageBehind, RowsWithin;
    NewestTimeMeans(w.reading.value.handed);
    NewestTimeMeans(w.source);
    SameRows(w, Closed(w, o, now));
    SameEntries(w, Closed(w, o, now));
  }

  lemma GoodFetch(c: Setting, w: World, n: nat, now: int)
    requires Good(c, w) && Possible(c, w, Fetch(n))
    ensures Good(c, Next(c, w, Fetch(n), now))
  {
    hide EntryIs, Selected, NewestTime;
    var u := Next(c, w, Fetch(n), now);
    var rows := Selected(c, w.source, CurrentSince(w));
    SelectedMeans(c, w.source, CurrentSince(w));
    var page := u.reading.value.page;
    forall i | 0 <= i < |page| ensures Behind(rows, Head(w) + i, page[i]) {
      assert rows[Head(w) + i] == page[i];
    }
    forall r | r in page ensures r in w.source {
      assert r in rows;
    }
    SameEntries(w, u);
  }

  lemma GoodPull(c: Setting, w: World, now: int)
    requires Good(c, w) && Possible(c, w, Pull)
    ensures Good(c, Next(c, w, Pull, now))
  {
    hide HeadWithin, RowsWithin, TimesWithin, Entries, NewestTime, EndIncrement, FoldIn, Turned;
    if w.reading.value.page == [] {
      GoodEnded(c, w, Finished, now);
    } else if |w.reading.value.handed| == w.reading.value.cap {
      GoodEnded(c, w, OverLimit, now);
    } else {
      GoodTook(c, w);
    }
  }

  lemma GoodTook(c: Setting, w: World)
    requires Good(c, w) && w.reading.Some? && w.reading.value.page != []
    requires |w.reading.value.handed| < w.reading.value.cap
    ensures Good(c, FoldIn(c, Turned(w), w.reading.value.page[0]))
  {
    hide EntryIs, Selected, FoldIn, NewestTime, PageBehind;
    var r := w.reading.value;
    var v := Turned(w);
    SameEntries(w, v);
    FoldInFrame(c, v, r.page[0]);
    NextNewest(r.handed, r.page[0]);
    NewestTimeMeans(w.source);
    assert r.page[0] in w.source;
    PageTurns(Selected(c, w.source, CurrentSince(w)), Head(w), r.page);
    assert forall x | x in r.page[1..] :: x in r.page;
  }

  lemma NextNewest(rows: seq<Row>, r: Row)
    ensures NewestTime(rows + [r]) == Max(NewestTime(rows), r.viewedAt)
  {
    assert (rows + [r])[..|rows|] == rows;
  }

  lemma PageTurns(rows: seq<Row>, head: nat, page: seq<Row>)
    requires PageBehind(rows, head, page) && page != []
    ensures PageBehind(rows, head + 1, page[1..])
  {
    hide Behind;
    forall i | 0 <= i < |page| - 1 ensures Behind(rows, head + 1 + i, page[1..][i]) {
      assert Behind(rows, head + (i + 1), page[i + 1]);
    }
  }

  lemma GoodBegin(c: Setting, w: World, now: int)
    requires Good(c, w) && Possible(c, w, Begin)
    ensures Good(c, Next(c, w, Begin, now))
  {
    hide EntryIs, Selected;
    NewestTimeMeans(w.source);
    SameEntries(w, Next(c, w, Begin, now));
  }

  lemma GoodNext(c: Setting, w: World, e: Event, now: int)
    requires Good(c, w) && Possible(c, w, e)
    ensures Good(c, Next(c, w, e, now))
  {
    hide Good, Fetched, Turned, Closed, FoldIn, CatchupPulled;
    match e {
      case Arrive(pos, r) => GoodArrive(c, w, pos, r, now);
      case Begin => GoodBegin(c, w, now);
      case Fetch(n) => GoodFetch(c, w, n, now);
      case Pull => GoodPull(c, w, now);
      case Break => GoodEnded(c, w, Errored(false), now);
      case CatchupPull => GoodCatchupPull(c, w);
      case CatchupBegin(_) => GoodCatchup(c, w, e, now);
      case CatchupFetch(_) => GoodCatchup(c, w, e, now);
      case CatchupBreak => GoodCatchup(c, w, e, now);
      case Visit(key, pass) => GoodVisit(c, w, key, pass, now);
      case Prune(pass, cutoff, gen) => GoodPrune(c, w, pass, cutoff, gen, now);
    }
  }

  // ---- rows that are folded or still to come ----

  /** The window under way, or else the next one, hands the row on: it is on the page, or a
      page still to be requested reaches it. */
  predicate Coming(c: Setting, w: World, r: Row) {
    || (w.reading.Some? && r in w.reading.value.page)
    || (!LastPage(w) && Behind(Selected(c, w.source, CurrentSince(w)), Front(w), r))
  }

  /** The row has been folded, or the reads to come hand it on. */
  predicate Due(c: Setting, w: World, r: Row) {
    r in w.folded || Coming(c, w, r)
  }

  lemma BehindArrive(c: Setting, w: World, pos: nat, x: Row, now: int, from: nat, r: Row)
    requires pos <= |w.source| && Behind(Selected(c, w.source, CurrentSince(w)), from, r)
    ensures var u := Next(c, w, Arrive(pos, x), now);
            Behind(Selected(c, u.source, CurrentSince(u)), from, r)
  {
    hide Selected, Behind;
    SelectedInsert(c, w.source, pos, x, CurrentSince(w));
    if c.selects(CurrentSince(w), x) {
      BehindShifts(Selected(c, w.source, CurrentSince(w)), from, r, |Selected(c, w.source[..pos], CurrentSince(w))|, x);
    }
  }

  lemma DueArrive(c: Setting, w: World, pos: nat, x: Row, now: int, r: Row)
    requires pos <= |w.source| && Due(c, w, r)
    ensures Due(c, Next(c, w, Arrive(pos, x), now), r)
  {
    hide Selected, Behind;
    if !LastPage(w) && Behind(Selected(c, w.source, CurrentSince(w)), Front(w), r) {
      BehindArrive(c, w, pos, x, now, Front(w), r);
    }
  }

  lemma DueFetch(c: Setting, w: World, n: nat, now: int, r: Row)
    requires Good(c, w) && Possible(c, w, Fetch(n)) && Due(c, w, r)
    ensures Due(c, Next(c, w, Fetch(n), now), r)
  {
    hide Selected, RowsWithin, TimesWithin, Entries;
    if r !in w.folded {
      var rows := Selected(c, w.source, CurrentSince(w));
      var k :| Front(w) <= k < |rows| && rows[k] == r;
      if k < Head(w) + n {
        assert rows[Head(w)..Head(w) + n][k - Head(w)] == r;
      }
    }
  }

  /** A row of the page stands in the selection behind the place reached. */
  lemma PageStands(c: Setting, w: World, r: Row)
    requires Good(c, w) && w.reading.Some? && r in w.reading.value.page
    ensures Behind(Selected(c, w.source, CurrentSince(w)), Head(w), r)
  {
    hide Selected, RowsWithin, TimesWithin, Entries;
    var page := w.reading.value.page;
    var i :| 0 <= i < |page| && page[i] == r;
    assert Behind(Selected(c, w.source, CurrentSince(w)), Head(w) + i, page[i]);
  }

  lemma BehindLess(rows: seq<Row>, from: nat, to: nat, r: Row)
    requires Behind(rows, to, r) && from <= to
    ensures Behind(rows, from, r)
  {
  }

  /** A failure or the cap closes the read; the window's next read repeats it from where the
      store stands. */
  lemma DueStopped(c: Setting, w: World, o: Outcome, now: int, r: Row)
    requires Good(c, w) && w.reading.Some? && Due(c, w, r)
    requires o.Errored? || (o == OverLimit && |w.reading.value.handed| == w.reading.value.cap)
    ensures Due(c, Closed(w, o, now), r)
  {
    hide Selected, Behind, RowsWithin, TimesWithin, Entries, PageBehind;
    var u := Closed(w, o, now);
    var rows := Selected(c, w.source, CurrentSince(w));
    if r !in w.folded {
      if r in w.reading.value.page {
        PageStands(c, w, r);
      } else {
        BehindLess(rows, Head(w), Front(w), r);
      }
      BehindLess(rows, Head(u), Head(w), r);
    }
  }

  lemma DuePull(c: Setting, w: World, now: int, r: Row)
    requires Good(c, w) && Possible(c, w, Pull) && !Finishes(w, Pull) && Due(c, w, r)
    ensures Due(c, Next(c, w, Pull, now), r)
  {
    hide Selected, Behind, Good, FoldRow, Closed;
    assert w.reading.value.page != [];
    if |w.reading.value.handed| == w.reading.value.cap {
      DueStopped(c, w, OverLimit, now, r);
    } else {
      var page := w.reading.value.page;
      assert page == [page[0]] + page[1..];
    }
  }

  lemma DueElse(c: Setting, w: World, e: Event, now: int, r: Row)
    requires Good(c, w) && Possible(c, w, e) && Due(c, w, r)
    requires e.Begin? || e.CatchupBegin? || e.CatchupFetch? || e.CatchupPull? || e.CatchupBreak? || e.Visit? || e.Prune?
    ensures Due(c, Next(c, w, e, now), r)
  {
    hide Selected, Behind, Fold, Kept, RowsWithin, TimesWithin, Entries, PageBehind;
  }

  /** Nothing but the end of the window makes a row miss: not a failure, the cap, an
      insertion anywhere, a prune, a visit or a catch-up. */
  lemma DueKept(c: Setting, w: World, e: Event, now: int, r: Row)
    requires Good(c, w) && Possible(c, w, e) && !Finishes(w, e) && Due(c, w, r)
    ensures Due(c, Next(c, w, e, now), r)
  {
    hide Good, Due, Fetched, Turned, Closed, FoldIn;
    match e {
      case Arrive(pos, x) => DueArrive(c, w, pos, x, now, r);
      case Fetch(n) => DueFetch(c, w, n, now, r);
      case Pull => DuePull(c, w, now, r);
      case Break => DueStopped(c, w, Errored(false), now, r);
      case _ => DueElse(c, w, e, now, r);
    }
  }

  /** The end of the window leaves every due row folded. */
  lemma FinishFoldsDue(c: Setting, w: World, e: Event, now: int, r: Row)
    requires Possible(c, w, e) && Finishes(w, e) && Due(c, w, r)
    ensures var u := Next(c, w, e, now);
            r in u.folded && u.folded == w.folded && u.source == w.source && u.asked == w.asked && u.s.drain == NO_DRAIN
  {
  }

  /** A row arrives in the window when a page still to be requested will start at or before
      its place in the selection. */
  predicate InWindow(c: Setting, w: World, pos: nat, r: Row)
    requires pos <= |w.source|
  {
    !LastPage(w) && c.selects(CurrentSince(w), r) && Front(w) <= |Selected(c, w.source[..pos], CurrentSince(w))|
  }

  lemma InWindowIsDue(c: Setting, w: World, pos: nat, r: Row, now: int)
    requires pos <= |w.source| && InWindow(c, w, pos, r)
    ensures Due(c, Next(c, w, Arrive(pos, r), now), r)
  {
    hide Selected;
    var u := Next(c, w, Arrive(pos, r), now);
    SelectedInsert(c, w.source, pos, r, CurrentSince(w));
    var p := |Selected(c, w.source[..pos], CurrentSince(w))|;
    assert Selected(c, u.source, CurrentSince(w))[p] == r;
  }

  /** At the moment a row not seen before arrives, the reads to come reach it, if nothing
      else moves it or them, exactly when it arrives in the window. */
  lemma {:induction false} DueExactlyInWindow(c: Setting, w: World, pos: nat, r: Row, now: int)
    requires Good(c, w) && pos <= |w.source| && r !in w.source
    ensures Due(c, Next(c, w, Arrive(pos, r), now), r) <==> InWindow(c, w, pos, r)
  {
    hide Good, Selected;
    if InWindow(c, w, pos, r) {
      InWindowIsDue(c, w, pos, r, now);
    } else if !LastPage(w) {
      NotBehind(c, w, pos, r, now);
      NewRow(c, w, r);
    } else {
      NewRow(c, w, r);
    }
  }

  lemma NewRow(c: Setting, w: World, r: Row)
    requires Good(c, w) && r !in w.source
    ensures r !in w.folded && (w.reading.Some? ==> r !in w.reading.value.page)
  {
    hide Selected, TimesWithin, Entries, HeadWithin;
  }

  lemma NotBehind(c: Setting, w: World, pos: nat, r: Row, now: int)
    requires Good(c, w) && pos <= |w.source| && r !in w.source
    requires !(c.selects(CurrentSince(w), r) && Front(w) <= |Selected(c, w.source[..pos], CurrentSince(w))|)
    ensures var u := Next(c, w, Arrive(pos, r), now);
            !Behind(Selected(c, u.source, CurrentSince(u)), Front(u), r)
  {
    hide Good, Selected;
    var u := Next(c, w, Arrive(pos, r), now);
    SelectedInsert(c, w.source, pos, r, CurrentSince(w));
    SelectedMeans(c, w.source, CurrentSince(w));
    var rows := Selected(c, w.source, CurrentSince(w));
    assert r !in rows;
    var after := Selected(c, u.source, CurrentSince(w));
    forall k | Front(w) <= k < |after| ensures after[k] != r {
      if c.selects(CurrentSince(w), r) {
        assert after[k] == rows[k - 1];
        assert rows[k - 1] in rows;
      } else {
        assert after[k] in rows;
      }
    }
  }

  // ---- runs ----

  datatype Timed = Timed(e: Event, now: int)

  /** The world after a run; an event that is not possible changes nothing. */
  function After(c: Setting, w: World, es: seq<Timed>): World {
    if es == [] then w
    else
      var v := After(c, w, es[..|es| - 1]);
      var t := es[|es| - 1];
      if Possible(c, v, t.e) then Next(c, v, t.e, t.now) else v
  }

  lemma AfterPrefix(c: Setting, w: World, es: seq<Timed>, i: nat)
    requires i < |es|
    ensures es[..|es| - 1][..i] == es[..i]
  {
  }

  lemma {:induction false} GoodRun(c: Setting, w: World, es: seq<Timed>)
    requires Good(c, w)
    ensures Good(c, After(c, w, es))
  {
    hide Good, Next;
    if es != [] {
      var n := |es| - 1;
      GoodRun(c, w, es[..n]);
      var v := After(c, w, es[..n]);
      if Possible(c, v, es[n].e) {
        GoodNext(c, v, es[n].e, es[n].now);
      }
    }
  }

  /** No read hands on its last row before the run's last event. */
  predicate StillOpen(c: Setting, w: World, es: seq<Timed>) {
    forall i | 0 <= i < |es| :: !Finishes(After(c, w, es[..i]), es[i].e)
  }

  lemma {:induction false} DueRun(c: Setting, w: World, es: seq<Timed>, r: Row)
    requires Good(c, w) && Due(c, w, r) && StillOpen(c, w, es)
    ensures Good(c, After(c, w, es)) && Due(c, After(c, w, es), r)
  {
    hide Good, Due, Next, Finishes;
    if es != [] {
      var n := |es| - 1;
      assert StillOpen(c, w, es[..n]) by {
        forall i | 0 <= i < n ensures !Finishes(After(c, w, es[..n][..i]), es[..n][i].e) {
          AfterPrefix(c, w, es, i);
        }
      }
      DueRun(c, w, es[..n], r);
      var v := After(c, w, es[..n]);
      if Possible(c, v, es[n].e) {
        GoodNext(c, v, es[n].e, es[n].now);
        DueKept(c, v, es[n].e, es[n].now, r);
      }
    }
  }

  /** Drain completeness. Every row selected when a window opens is folded once the window
      closes, however many capped, failed and resumed reads it takes, and whatever rows are
      inserted anywhere meanwhile; a play among them is then answered, unless pruned. */
  lemma WindowFoldsEveryRow(c: Setting, w: World, es: seq<Timed>, r: Row)
    requires Good(c, w) && w.reading.None? && w.s.drain.offset == 0
    requires r in Selected(c, w.source, History.Since(w.s))
    requires es != [] && StillOpen(c, w, es[..|es| - 1])
    requires Finishes(After(c, w, es[..|es| - 1]), es[|es| - 1].e)
    ensures var u := After(c, w, es);
            && r in u.folded && u.s.drain == NO_DRAIN
            && (Classify(r).Play? && Classify(r).key !in u.pruned
                ==> VisitAnswer(u.s, Classify(r).key) >= Clamp(r.viewedAt))
  {
    hide Good, Next;
    var n := |es| - 1;
    assert Due(c, w, r);
    DueRun(c, w, es[..n], r);
    var v := After(c, w, es[..n]);
    FinishFoldsDue(c, v, es[n].e, es[n].now, r);
    GoodRun(c, w, es);
    FoldedIsAnswered(c, After(c, w, es), r);
  }

  lemma FoldedIsAnswered(c: Setting, w: World, r: Row)
    requires Good(c, w) && r in w.folded
    ensures Classify(r).Play? && Classify(r).key !in w.pruned ==> VisitAnswer(w.s, Classify(r).key) >= Clamp(r.viewedAt)
  {
    if Classify(r).Play? {
      assert EntryIs(w, Classify(r).key);
    }
  }

  // ---- a row that arrives while a window is open ----

  /** The window that is open is read on without failing, without reaching its cap and without
      a row that pushes place pos back or repeats the row there; no catch-up hands on rows. */
  predicate Steady(w: World, e: Event, pos: nat, r: Row) {
    match e
    case Arrive(p, x) => pos < p && x != r
    case Break => false
    case Pull => w.reading.Some? ==> w.reading.value.page == [] || |w.reading.value.handed| < w.reading.value.cap
    case CatchupPull => false
    case _ => true
  }

  predicate SteadyRun(c: Setting, w: World, es: seq<Timed>, pos: nat, r: Row) {
    forall i | 0 <= i < |es| :: Steady(After(c, w, es[..i]), es[i].e, pos, r)
  }

  /** The row stands at place pos of the source and nowhere else, behind these rows. */
  predicate StandsAt(source: seq<Row>, front: seq<Row>, r: Row) {
    |front| < |source| && source[..|front|] == front && source[|front|] == r
    && forall i | 0 <= i < |source| && source[i] == r :: i == |front|
  }

  lemma SelectedAround(c: Setting, source: seq<Row>, front: seq<Row>, r: Row, since: int)
    requires StandsAt(source, front, r)
    ensures var rows, p := Selected(c, source, since), |Selected(c, front, since)|;
            && (c.selects(since, r) ==> p < |rows| && rows[p] == r)
            && forall k | 0 <= k < |rows| :: rows[k] == r ==> c.selects(since, r) && k == p
  {
    hide Selected;
    var tail := source[|front| + 1..];
    assert source == front + [r] + tail;
    SelectedConcat(c, front + [r], tail, since);
    SelectedConcat(c, front, [r], since);
    SelectedOne(c, r, since);
    SelectedMeans(c, front, since);
    SelectedMeans(c, tail, since);
    var sf, st := Selected(c, front, since), Selected(c, tail, since);
    var rows := Selected(c, source, since);
    assert rows == sf + (if c.selects(since, r) then [r] else []) + st;
    assert r !in front && r !in tail;
    assert r !in sf && r !in st;
    forall k | 0 <= k < |rows| ensures rows[k] == r ==> c.selects(since, r) && k == |sf| {
      if k < |sf| {
        assert rows[k] == sf[k] && sf[k] in sf;
      } else if !c.selects(since, r) || |sf| < k {
        var i := k - |sf| - if c.selects(since, r) then 1 else 0;
        assert rows[k] == st[i] && st[i] in st;
      }
    }
  }

  lemma NotThere(c: Setting, source: seq<Row>, front: seq<Row>, r: Row, since: int, k: nat)
    requires StandsAt(source, front, r) && k < |Selected(c, source, since)|
    requires c.selects(since, r) ==> |Selected(c, front, since)| < k
    ensures Selected(c, source, since)[k] != r
  {
    hide Selected, StandsAt;
    SelectedAround(c, source, front, r, since);
  }

  /** The row is out of this window's reach: not folded, not on the page, and before the place
      the next page starts at, if there is to be one. */
  predicate OutOfReach(c: Setting, w: World, front: seq<Row>, r: Row) {
    && StandsAt(w.source, front, r) && r !in w.folded
    && (w.reading.Some? ==> r !in w.reading.value.page)
    && (LastPage(w) || !c.selects(CurrentSince(w), r) || |Selected(c, front, CurrentSince(w))| < Front(w))
  }

  lemma OutOfReachFetch(c: Setting, w: World, n: nat, now: int, front: seq<Row>, r: Row)
    requires OutOfReach(c, w, front, r) && Possible(c, w, Fetch(n))
    ensures OutOfReach(c, Next(c, w, Fetch(n), now), front, r)
  {
    hide Selected, StandsAt;
    var rows := Selected(c, w.source, CurrentSince(w));
    var page := rows[Front(w)..Front(w) + n];
    assert Next(c, w, Fetch(n), now).reading.value.page == page;
    assert !LastPage(w);
    forall i | 0 <= i < |page| ensures page[i] != r {
      assert page[i] == rows[Front(w) + i];
      NotThere(c, w.source, front, r, CurrentSince(w), Front(w) + i);
    }
  }

  lemma OutOfReachArrive(c: Setting, w: World, p: nat, x: Row, now: int, front: seq<Row>, r: Row)
    requires OutOfReach(c, w, front, r) && |front| < p <= |w.source| && x != r
    ensures OutOfReach(c, Next(c, w, Arrive(p, x), now), front, r)
  {
    hide Selected;
    var after := InsertAt(w.source, p, x);
    assert after[..|front|] == front;
    forall i | 0 <= i < |after| ensures after[i] == r ==> i == |front| {
      assert after[i] == if i < p then w.source[i] else if i == p then x else w.source[i - 1];
    }
  }

  lemma OutOfReachPull(c: Setting, w: World, now: int, front: seq<Row>, r: Row)
    requires OutOfReach(c, w, front, r) && Possible(c, w, Pull)
    requires w.reading.value.page != [] && |w.reading.value.handed| < w.reading.value.cap
    ensures OutOfReach(c, Next(c, w, Pull, now), front, r)
  {
    hide Selected, StandsAt, FoldRow;
    var page := w.reading.value.page;
    assert page == [page[0]] + page[1..];
  }

  lemma OutOfReachElse(c: Setting, w: World, e: Event, now: int, front: seq<Row>, r: Row)
    requires OutOfReach(c, w, front, r) && Possible(c, w, e)
    requires e.Begin? || e.CatchupBegin? || e.CatchupFetch? || e.CatchupBreak? || e.Visit? || e.Prune?
    ensures OutOfReach(c, Next(c, w, e, now), front, r)
  {
    hide Selected, StandsAt, Kept;
  }

  lemma OutOfReachKept(c: Setting, w: World, e: Event, now: int, front: seq<Row>, r: Row)
    requires OutOfReach(c, w, front, r) && Possible(c, w, e) && Steady(w, e, |front|, r) && !Finishes(w, e)
    ensures OutOfReach(c, Next(c, w, e, now), front, r)
  {
    hide OutOfReach, Closed, Turned, Fetched, FoldIn, CatchupPulled;
    match e {
      case Arrive(p, x) => OutOfReachArrive(c, w, p, x, now, front, r);
      case Fetch(n) => OutOfReachFetch(c, w, n, now, front, r);
      case Pull => OutOfReachPull(c, w, now, front, r);
      case _ => OutOfReachElse(c, w, e, now, front, r);
    }
  }

  lemma {:induction false} OutOfReachRun(c: Setting, w: World, es: seq<Timed>, front: seq<Row>, r: Row)
    requires OutOfReach(c, w, front, r) && SteadyRun(c, w, es, |front|, r) && StillOpen(c, w, es)
    ensures OutOfReach(c, After(c, w, es), front, r)
  {
    hide OutOfReach, Next, Finishes, Steady;
    if es != [] {
      var n := |es| - 1;
      forall i | 0 <= i < n
        ensures Steady(After(c, w, es[..n][..i]), es[..n][i].e, |front|, r) && !Finishes(After(c, w, es[..n][..i]), es[..n][i].e)
      {
        AfterPrefix(c, w, es, i);
      }
      OutOfReachRun(c, w, es[..n], front, r);
      var v := After(c, w, es[..n]);
      if Possible(c, v, es[n].e) {
        OutOfReachKept(c, v, es[n].e, es[n].now, front, r);
      }
    }
  }

  lemma ArrivedOut(c: Setting, w: World, pos: nat, r: Row, now: int)
    requires Good(c, w) && pos <= |w.source| && r !in w.source && !InWindow(c, w, pos, r)
    ensures OutOfReach(c, Next(c, w, Arrive(pos, r), now), w.source[..pos], r)
  {
    hide Good, Selected;
    NewRow(c, w, r);
    var u := Next(c, w, Arrive(pos, r), now);
    forall i | 0 <= i < |u.source| ensures u.source[i] == r ==> i == pos {
      if i != pos {
        assert u.source[i] in w.source;
      }
    }
  }

  /** A row that arrives while a window is open, or before the next one opens, is handed on by
      it if and only if it arrives in the window: for every run from the arrival to the end of
      the window in which no page fails, the cap is not reached, no row comes in before it or
      repeats it, and no catch-up hands it on. */
  lemma {:induction false} HandedOnIffInWindow(c: Setting, w: World, pos: nat, r: Row, now: int, es: seq<Timed>)
    requires Good(c, w) && pos <= |w.source| && r !in w.source
    requires var v := Next(c, w, Arrive(pos, r), now);
             && es != [] && SteadyRun(c, v, es[..|es| - 1], pos, r) && StillOpen(c, v, es[..|es| - 1])
             && Finishes(After(c, v, es[..|es| - 1]), es[|es| - 1].e)
    ensures r in After(c, Next(c, w, Arrive(pos, r), now), es).folded <==> InWindow(c, w, pos, r)
  {
    hide Good, Next, Due, OutOfReach, InWindow;
    var v := Next(c, w, Arrive(pos, r), now);
    var n := |es| - 1;
    GoodNext(c, w, Arrive(pos, r), now);
    if InWindow(c, w, pos, r) {
      InWindowIsDue(c, w, pos, r, now);
      DueRun(c, v, es[..n], r);
      FinishFoldsDue(c, After(c, v, es[..n]), es[n].e, es[n].now, r);
    } else {
      ArrivedOut(c, w, pos, r, now);
      OutOfReachRun(c, v, es[..n], w.source[..pos], r);
      FinishFoldsNothing(c, After(c, v, es[..n]), es[n].e, es[n].now, w.source[..pos], r);
    }
  }

  lemma FinishFoldsNothing(c: Setting, w: World, e: Event, now: int, front: seq<Row>, r: Row)
    requires OutOfReach(c, w, front, r) && Possible(c, w, e) && Finishes(w, e)
    ensures r !in Next(c, w, e, now).folded
  {
  }

  // ---- the daily catch-up, page by page ----

  /** The row has been folded, or the catch-up under way is still to hand it on. */
  predicate CatchupDue(c: Setting, w: World, r: Row) {
    r in w.folded
    || (w.catchup.Some?
        && var a := w.catchup.value;
        r in a.page || (!AtEnd(a) && Behind(Selected(c, w.source, a.since), Place(a), r)))
  }

  /** The catch-up ends with its last row handed on. */
  predicate CatchupFinishes(w: World, e: Event) {
    e == CatchupPull && w.catchup.Some? && w.catchup.value.page == [] && AtEnd(w.catchup.value)
  }

  /** It ends before that: a page fails, or the cap is reached. */
  predicate CatchupStops(w: World, e: Event) {
    || e == CatchupBreak
    || (e == CatchupPull && w.catchup.Some? && w.catchup.value.page != [] && |w.catchup.value.handed| == w.catchup.value.cap)
  }

  lemma CatchupDueArrive(c: Setting, w: World, pos: nat, x: Row, now: int, r: Row)
    requires pos <= |w.source| && CatchupDue(c, w, r)
    ensures CatchupDue(c, Next(c, w, Arrive(pos, x), now), r)
  {
    hide Selected, Behind;
    if w.catchup.Some? {
      var a := w.catchup.value;
      SelectedInsert(c, w.source, pos, x, a.since);
      if c.selects(a.since, x) && Behind(Selected(c, w.source, a.since), Place(a), r) {
        BehindShifts(Selected(c, w.source, a.since), Place(a), r, |Selected(c, w.source[..pos], a.since)|, x);
      }
    }
  }

  lemma CatchupDueFetch(c: Setting, w: World, n: nat, now: int, r: Row)
    requires Possible(c, w, CatchupFetch(n)) && CatchupDue(c, w, r)
    ensures CatchupDue(c, Next(c, w, CatchupFetch(n), now), r)
  {
    hide Selected;
    if r !in w.folded {
      var a := w.catchup.value;
      var rows := Selected(c, w.source, a.since);
      var k :| Place(a) <= k < |rows| && rows[k] == r;
      if k < Place(a) + n {
        assert rows[Place(a)..Place(a) + n][k - Place(a)] == r;
      }
    }
  }

  lemma CatchupDuePull(c: Setting, w: World, now: int, r: Row)
    requires Possible(c, w, CatchupPull) && CatchupDue(c, w, r) && !CatchupFinishes(w, CatchupPull) && !CatchupStops(w, CatchupPull)
    ensures CatchupDue(c, Next(c, w, CatchupPull, now), r)
  {
    hide Selected, Behind, FoldRow;
    var page := w.catchup.value.page;
    assert page == [page[0]] + page[1..];
  }

  lemma CatchupDueKept(c: Setting, w: World, e: Event, now: int, r: Row)
    requires Possible(c, w, e) && w.reading.None? && w.catchup.Some? && CatchupDue(c, w, r)
    requires !CatchupFinishes(w, e) && !CatchupStops(w, e)
    ensures var u := Next(c, w, e, now);
            CatchupDue(c, u, r) && u.reading.None? && u.catchup.Some?
  {
    hide Selected, Behind, FoldRow, Kept;
    match e {
      case Arrive(pos, x) => CatchupDueArrive(c, w, pos, x, now, r);
      case CatchupFetch(n) => CatchupDueFetch(c, w, n, now, r);
      case CatchupPull => CatchupDuePull(c, w, now, r);
      case _ =>
    }
  }

  lemma {:induction false} CatchupDueRun(c: Setting, w: World, es: seq<Timed>, r: Row)
    requires w.reading.None? && w.catchup.Some? && CatchupDue(c, w, r)
    requires forall i | 0 <= i < |es| ::
               !CatchupFinishes(After(c, w, es[..i]), es[i].e) && !CatchupStops(After(c, w, es[..i]), es[i].e)
    ensures var u := After(c, w, es);
            CatchupDue(c, u, r) && u.reading.None? && u.catchup.Some?
  {
    hide CatchupDue, Next, CatchupFinishes, CatchupStops;
    if es != [] {
      var n := |es| - 1;
      forall i | 0 <= i < n
        ensures !CatchupFinishes(After(c, w, es[..n][..i]), es[..n][i].e) && !CatchupStops(After(c, w, es[..n][..i]), es[..n][i].e)
      {
        AfterPrefix(c, w, es, i);
      }
      CatchupDueRun(c, w, es[..n], r);
      var v := After(c, w, es[..n]);
      if Possible(c, v, es[n].e) {
        CatchupDueKept(c, v, es[n].e, es[n].now, r);
      }
    }
  }

  /** A play reported late is recovered by the next catch-up that reaches back to it: every
      row its selection holds when it starts is folded when it ends with its last row, over
      any arrivals, visits and prunes meanwhile, and a play among them is then answered,
      unless pruned. */
  lemma CatchupFoldsItsWindow(c: Setting, w: World, since: int, now: int, es: seq<Timed>, r: Row)
    requires Good(c, w) && Possible(c, w, CatchupBegin(since)) && r in Selected(c, w.source, since)
    requires var v := Next(c, w, CatchupBegin(since), now);
             && es != []
             && (forall i | 0 <= i < |es| - 1 ::
                   !CatchupFinishes(After(c, v, es[..i]), es[i].e) && !CatchupStops(After(c, v, es[..i]), es[i].e))
             && CatchupFinishes(After(c, v, es[..|es| - 1]), es[|es| - 1].e)
    ensures var u := After(c, Next(c, w, CatchupBegin(since), now), es);
            && r in u.folded
            && (Classify(r).Play? && Classify(r).key !in u.pruned
                ==> VisitAnswer(u.s, Classify(r).key) >= Clamp(r.viewedAt))
  {
    hide Good, CatchupFinishes, CatchupStops, Next, CatchupDue, Possible, Selected;
    var v := Next(c, w, CatchupBegin(since), now);
    var n := |es| - 1;
    GoodNext(c, w, CatchupBegin(since), now);
    CatchupBegins(c, w, since, now, r);
    forall i | 0 <= i < n
      ensures !CatchupFinishes(After(c, v, es[..n][..i]), es[..n][i].e) && !CatchupStops(After(c, v, es[..n][..i]), es[..n][i].e)
    {
      AfterPrefix(c, v, es, i);
    }
    CatchupDueRun(c, v, es[..n], r);
    CatchupFinishFolds(c, After(c, v, es[..n]), es[n].e, es[n].now, r);
    GoodRun(c, v, es);
    FoldedIsAnswered(c, After(c, v, es), r);
  }

  lemma CatchupBegins(c: Setting, w: World, since: int, now: int, r: Row)
    requires Possible(c, w, CatchupBegin(since)) && r in Selected(c, w.source, since)
    ensures var v := Next(c, w, CatchupBegin(since), now);
            v.reading.None? && v.catchup.Some? && CatchupDue(c, v, r)
  {
  }

  lemma CatchupFinishFolds(c: Setting, w: World, e: Event, now: int, r: Row)
    requires w.reading.None? && CatchupFinishes(w, e) && CatchupDue(c, w, r)
    ensures Possible(c, w, e) && r in Next(c, w, e, now).folded
  {
  }

  // ---- what was folded stays answered ----

  lemma FoldedStands(c: Setting, w: World)
    requires Good(c, w)
    ensures forall r | r in w.folded :: r in w.source
  {
    hide HeadWithin, Entries, TimesWithin;
  }

  lemma NextFolded(c: Setting, w: World, e: Event, now: int)
    requires Possible(c, w, e)
    ensures w.folded <= Next(c, w, e, now).folded && w.pruned <= Next(c, w, e, now).pruned
  {
    hide Selected, FoldRow, Pruned, Visited, EndIncrement;
  }

  lemma {:induction false} FoldedRun(c: Setting, w: World, es: seq<Timed>)
    ensures w.folded <= After(c, w, es).folded && w.pruned <= After(c, w, es).pruned
  {
    hide Next;
    if es != [] {
      FoldedRun(c, w, es[..|es| - 1]);
      var v, t := After(c, w, es[..|es| - 1]), es[|es| - 1];
      if Possible(c, v, t.e) {
        NextFolded(c, v, t.e, t.now);
      }
    }
  }

  /** Over a run no answer falls but for pruning. */
  lemma {:induction false} AnswersNeverFall(c: Setting, w: World, es: seq<Timed>, key: uint64)
    requires Good(c, w) && key !in After(c, w, es).pruned
    ensures VisitAnswer(w.s, key) <= VisitAnswer(After(c, w, es).s, key)
  {
    hide Next;
    GoodRun(c, w, es);
    FoldedRun(c, w, es);
    assert EntryIs(w, key) && EntryIs(After(c, w, es), key);
  }

  /** The source as it serves an uninterrupted read: the selection from an offset on. */
  function Serving(c: Setting, source: seq<Row>): Source {
    (since: int, start: nat) =>
      var rows := Selected(c, source, since);
      Stream(if start <= |rows| then rows[start..] else [], End.Ended)
  }

  // ---- the daily catch-up ----

  lemma {:induction false} FoldedAnswers(identity: Row -> uint64, s: State, rows: seq<Row>, r: Row, key: uint64)
    requires s.tables.Some?
    ensures var u := FoldRows(identity, s, rows);
            && u.tables.Some? && VisitAnswer(s, key) <= VisitAnswer(u, key)
            && (r in rows ==> PlayOf(r, key) <= VisitAnswer(u, key))
            && (VisitAnswer(u, key) == VisitAnswer(s, key) || exists x :: x in rows && PlayOf(x, key) == VisitAnswer(u, key))
  {
    if rows != [] {
      var n := |rows| - 1;
      FoldedAnswers(identity, s, rows[..n], r, key);
      assert rows == rows[..n] + [rows[n]];
      assert rows[n] in rows;
    }
  }

  /** A play reported late, by up to 30 days, is answered after a catch-up that reaches the
      end of its selection, whatever the increments missed; no answer falls, and none rises
      but to a play of the source. */
  lemma CatchupRecoversLatePlays(c: Setting, s: State, source: seq<Row>, now: int, r: Row, key: uint64)
    requires Honest(c) && s.status == Complete && s.tables.Some?
    requires |Selected(c, source, (now - 30 * 86_400 * 1_000_000_000) / 1_000_000_000)| <= 100_000
    ensures var u := AfterCatchup(c.identity, s, Serving(c, source), now);
            && VisitAnswer(s, key) <= VisitAnswer(u, key)
            && (r in source && r.viewedAt >= (now - 30 * 86_400 * 1_000_000_000) / 1_000_000_000 ==> PlayOf(r, key) <= VisitAnswer(u, key))
            && (VisitAnswer(u, key) == VisitAnswer(s, key) || exists x :: x in source && PlayOf(x, key) == VisitAnswer(u, key))
  {
    hide FoldRows;
    var since := (now - CATCHUP_WINDOW) / SECOND;
    var rows := Selected(c, source, since);
    SelectedMeans(c, source, since);
    assert rows[0..] == rows;
    FoldedAnswers(c.identity, s, rows, r, key);
  }

  // ---- how many reads a window takes ----

  /** An increment over a window that does not change: it succeeds, or fails after some rows. */
  datatype Attempt = Succeeds | FailsAfter(rows: nat)

  function ServingWindow(window: seq<Row>, a: Attempt): Source {
    (since: int, start: nat) =>
      var rest := if start <= |window| then window[start..] else [];
      match a
      case Succeeds => Stream(rest, End.Ended)
      case FailsAfter(m) => Stream(if m <= |rest| then rest[..m] else rest, End.Broken(false))
  }

  function Attempted(identity: Row -> uint64, s: State, window: seq<Row>, attempts: seq<Attempt>, now: int): State {
    if attempts == [] then s
    else AfterIncremental(identity, Attempted(identity, s, window, attempts[..|attempts| - 1], now),
                          ServingWindow(window, attempts[|attempts| - 1]), now)
  }

  function Successes(attempts: seq<Attempt>): nat {
    if attempts == [] then 0
    else Successes(attempts[..|attempts| - 1]) + if attempts[|attempts| - 1].Succeeds? then 1 else 0
  }

  /** The reads a window of n rows takes: one for every started 10000 rows, at least one. */
  function ReadsFor(n: nat): nat {
    if n == 0 then 1 else (n + 9_999) / 10_000
  }

  lemma OneAttempt(identity: Row -> uint64, s: State, window: seq<Row>, a: Attempt, now: int)
    requires s.status == Complete && s.tables.Some? && s.drain.offset <= |window|
    requires a.FailsAfter? ==> a.rows <= CAP
    ensures var u := AfterIncremental(identity, s, ServingWindow(window, a), now);
            && u.status == Complete && u.tables.Some?
            && (a.FailsAfter? ==> u == s.(tables := u.tables))
            && (a.Succeeds? ==> u.drain == if s.drain.offset + CAP < |window|
                  then Drain(History.Since(s), s.drain.offset + CAP) else NO_DRAIN)
  {
    hide FoldRows;
    FoldRowsFrame(identity, s, Handed(ServingWindow(window, a)(History.Since(s), s.drain.offset), MAX_INCREMENTAL_PAGES));
  }

  /** A window of n rows that nothing is inserted in closes with exactly its ReadsFor(n)-th
      successful read, whatever failed attempts fall between; until then every success has
      moved the offset on by the cap and the window reads from the same time. */
  lemma {:induction false} WindowClosesOnTime(identity: Row -> uint64, s: State, window: seq<Row>, attempts: seq<Attempt>, now: int)
    requires s.status == Complete && s.tables.Some? && s.drain == NO_DRAIN
    requires forall a | a in attempts :: a.FailsAfter? ==> a.rows <= CAP
    requires Successes(attempts) <= ReadsFor(|window|)
    ensures var u := Attempted(identity, s, window, attempts, now);
            var k := Successes(attempts);
            && u.status == Complete && u.tables.Some?
            && (k < ReadsFor(|window|) ==> u.drain.offset == k * 10_000 && History.Since(u) == History.Since(s))
            && (k == ReadsFor(|window|) ==> u.drain == NO_DRAIN)
  {
    hide AfterIncremental;
    if attempts != [] {
      var n := |attempts| - 1;
      assert attempts == attempts[..n] + [attempts[n]];
      WindowClosesOnTime(identity, s, window, attempts[..n], now);
      var v := Attempted(identity, s, window, attempts[..n], now);
      OneAttempt(identity, v, window, attempts[n], now);
    }
  }
}
