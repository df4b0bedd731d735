/** The watch-history store (internal/history/history.go): when each item was last played,
    rebuilt by a full read and followed by overlapping, capped, resumable reads. The pure
    functions give each locked region's effect on the state; the class performs them. */
module History {
  import opened Ints

  const PAGE_SIZE: nat := 500
  const MAX_PAGES: nat := 500
  const MAX_INCREMENTAL_PAGES: nat := 20
  const MAX_CATCHUP_PAGES: nat := 200
  const INCREMENTAL_OVERLAP: int := 300
  const MAX_COUNTED_ROWS: nat := MAX_PAGES * PAGE_SIZE

  // times are nanoseconds; history rows and cutoffs are Unix seconds
  const SECOND: int := 1_000_000_000
  const STALE_AFTER: int := 3600 * SECOND
  const CATCHUP_WINDOW: int := 30 * 24 * 3600 * SECOND

  /** A row's item key as Plex sends it: missing, not a number, or a rating key. */
  datatype ItemKey = Missing | NotNumeric(text: string) | Numeric(key: uint64)

  datatype Row = Row(item: ItemKey, viewedAt: int64, historyKey: string, account: int64)

  datatype Kind = Play(key: uint64) | Deleted | Unmatched

  /** classify: the item of a row that names none is gone from the server. A row that names one
      unreadably, or carries no time, might still have been a play of an item there now. */
  function Classify(r: Row): Kind {
    match r.item
    case Missing => Deleted
    case NotNumeric(_) => Unmatched
    case Numeric(key) => if r.viewedAt <= 0 then Unmatched else Play(key)
  }

  /** A play time as the map stores it. */
  function Clamp(viewedAt: int): uint32 {
    Min(Max(viewedAt, 0), MAX_UINT32)
  }

  datatype Entry = Entry(at: uint32, pass: uint32)

  type Watched = map<uint64, Entry>

  /** The newest play the map holds for a key, 0 when it holds none. */
  function At(m: Watched, key: uint64): uint32 {
    if key in m then m[key].at else 0
  }

  function Merge(m: Watched, key: uint64, viewedAt: int): Watched {
    m[key := Entry(Max(At(m, key), Clamp(viewedAt)), if key in m then m[key].pass else 0)]
  }

  /** The three tables a read writes. */
  datatype Tables = Tables(watched: Watched, unmatched: set<uint64>, deleted: set<uint64>)

  const EMPTY: Tables := Tables(map[], {}, {})

  function Count(ids: set<uint64>, id: uint64): set<uint64> {
    if |ids| < MAX_COUNTED_ROWS then ids + {id} else ids
  }

  /** fold: a play goes to the map, any other row is counted in its set. */
  function Fold(identity: Row -> uint64, t: Tables, r: Row): Tables {
    match Classify(r)
    case Play(key) => t.(watched := Merge(t.watched, key, r.viewedAt))
    case Deleted => t.(deleted := Count(t.deleted, identity(r)))
    case Unmatched => t.(unmatched := Count(t.unmatched, identity(r)))
  }

  function FoldAll(identity: Row -> uint64, t: Tables, rows: seq<Row>): Tables {
    if rows == [] then t else Fold(identity, FoldAll(identity, t, rows[..|rows| - 1]), rows[|rows| - 1])
  }

  /** The newest play time among rows, unusable ones included, at least 0. */
  function NewestTime(rows: seq<Row>): int {
    if rows == [] then 0 else Max(NewestTime(rows[..|rows| - 1]), rows[|rows| - 1].viewedAt)
  }

  // ---- reads ----

  /** What the source delivers: rows, then its end or an error, which may be the deadline. */
  datatype End = Ended | Broken(deadline: bool)

  datatype Stream = Stream(rows: seq<Row>, end: End)

  datatype Outcome = Finished | OverLimit | Errored(deadline: bool)

  /** The rows a read of at most pages hands on, and how it ends. */
  function Handed(s: Stream, pages: nat): seq<Row> {
    if |s.rows| > pages * PAGE_SIZE then s.rows[..pages * PAGE_SIZE] else s.rows
  }

  function OutcomeOf(s: Stream, pages: nat): Outcome {
    if |s.rows| > pages * PAGE_SIZE then OverLimit
    else if s.end.Broken? then Errored(s.end.deadline)
    else Finished
  }

  // ---- state ----

  datatype Status = Unread | Complete | PastLimit | Failed

  /** A window cut off at the cap, to be gone on with from the same time, so many rows in. */
  datatype Drain = Drain(since: int, offset: nat)

  const NO_DRAIN: Drain := Drain(0, 0)

  datatype State = State(
    tables: Option<Tables>,
    status: Status,
    gen: nat,
    cursor: int,
    drain: Drain,
    lastSuccess: int
  )

  const START: State := State(None, Unread, 0, 0, NO_DRAIN, 0)

  function WatchedOf(s: State): Watched {
    if s.tables.Some? then s.tables.value.watched else map[]
  }

  datatype View = View(lastSuccess: int, status: Status, gen: nat, unmatched: nat, deleted: nat, current: bool)

  /** View: history is current for an hour after each success, once a full read is complete. */
  function ViewAt(s: State, now: int): View {
    View(s.lastSuccess, s.status, s.gen,
         if s.tables.Some? then |s.tables.value.unmatched| else 0,
         if s.tables.Some? then |s.tables.value.deleted| else 0,
         s.status == Complete && now - s.lastSuccess < STALE_AFTER)
  }

  // ---- the locked regions ----

  /** One row folded by a merge; nothing is folded once the map is gone. */
  function FoldRow(identity: Row -> uint64, s: State, r: Row): State {
    if s.tables.None? then s else s.(tables := Some(Fold(identity, s.tables.value, r)))
  }

  function FoldRows(identity: Row -> uint64, s: State, rows: seq<Row>): State {
    if rows == [] then s else FoldRow(identity, FoldRows(identity, s, rows[..|rows| - 1]), rows[|rows| - 1])
  }

  function VisitAnswer(s: State, key: uint64): uint32 {
    At(WatchedOf(s), key)
  }

  /** Visit marks a present key with the pass; pass 0 marks nothing. */
  function Visited(s: State, key: uint64, pass: uint32): State {
    if key in WatchedOf(s) && pass != 0 then
      var t := s.tables.value;
      s.(tables := Some(t.(watched := t.watched[key := t.watched[key].(pass := pass)])))
    else s
  }

  /** What a prune deletes: the keys the pass did not mark, last played before cutoff. */
  predicate Prunable(e: Entry, pass: uint32, cutoff: int) {
    e.pass != pass && e.at < cutoff
  }

  function Kept(m: Watched, pass: uint32, cutoff: int): Watched {
    map k | k in m && !Prunable(m[k], pass, cutoff) :: m[k]
  }

  predicate PruneRuns(s: State, pass: uint32, gen: nat) {
    s.gen == gen && pass != 0 && s.tables.Some?
  }

  function Pruned(s: State, pass: uint32, cutoff: int, gen: nat): State {
    if PruneRuns(s, pass, gen) then
      s.(tables := Some(s.tables.value.(watched := Kept(s.tables.value.watched, pass, cutoff))))
    else s
  }

  function StatusOf(o: Outcome): Status {
    match o
    case Finished => Complete
    case OverLimit => PastLimit
    case Errored(deadline) => if deadline then PastLimit else Failed
  }

  /** The end of a full read: the new tables replace the old, or all is discarded. */
  function EndBootstrap(identity: Row -> uint64, s: State, rows: seq<Row>, o: Outcome, now: int): State {
    if o == Finished then
      State(Some(FoldAll(identity, EMPTY, rows)), Complete, s.gen + 1, NewestTime(rows), NO_DRAIN, now)
    else
      State(None, StatusOf(o), s.gen + 1, 0, NO_DRAIN, s.lastSuccess)
  }

  /** Where the next increment reads from. */
  function Since(s: State): int {
    if s.drain.offset > 0 then s.drain.since else Max(s.cursor - INCREMENTAL_OVERLAP, 0)
  }

  /** The end of an increment that read these rows from since and start. After an
      error all stays; after the cap the window stays open, with its offset moved on. */
  function EndIncrement(s: State, since: int, start: nat, newest: int, rows: nat, o: Outcome, now: int): State {
    if o.Errored? then s
    else s.(cursor := Max(s.cursor, newest),
            drain := if o == OverLimit then Drain(since, start + rows) else NO_DRAIN,
            lastSuccess := now)
  }

  // ---- whole calls, nothing in between ----

  /** The history as the source serves it from a time and a row offset. */
  type Source = (int, nat) -> Stream

  function AfterBootstrap(identity: Row -> uint64, s: State, src: Source, now: int): State {
    EndBootstrap(identity, s, Handed(src(0, 0), MAX_PAGES), OutcomeOf(src(0, 0), MAX_PAGES), now)
  }

  function AfterIncremental(identity: Row -> uint64, s: State, src: Source, now: int): State {
    if s.status != Complete then s
    else
      var since, start := Since(s), s.drain.offset;
      var rows := Handed(src(since, start), MAX_INCREMENTAL_PAGES);
      EndIncrement(FoldRows(identity, s, rows), since, start,
                   if s.tables.Some? then NewestTime(rows) else 0, |rows|,
                   OutcomeOf(src(since, start), MAX_INCREMENTAL_PAGES), now)
  }

  /** catchup folds the last 30 days and touches nothing else. */
  function AfterCatchup(identity: Row -> uint64, s: State, src: Source, now: int): State {
    if s.status != Complete then s
    else FoldRows(identity, s, Handed(src((now - CATCHUP_WINDOW) / SECOND, 0), MAX_CATCHUP_PAGES))
  }

  // ---- retries of the full read, in seconds ----

  const RETRY_FLOOR: nat := 5 * 60
  const RETRY_CEILING: nat := 6 * 3600
  const RETRY_OVER_LIMIT: nat := 24 * 3600

  /** bootstrapOnce: how long to wait after a full read ended this way, and the next backoff. */
  function AfterFullRead(st: Status, backoff: nat): (nat, nat) {
    match st
    case Complete => (0, backoff)
    case PastLimit => (RETRY_OVER_LIMIT, backoff)
    case _ => (backoff, Min(backoff * 2, RETRY_CEILING))
  }

  // ---- the store ----

  lemma FoldRowsNext(identity: Row -> uint64, s: State, rows: seq<Row>, n: nat)
    requires n < |rows|
    ensures FoldRows(identity, s, rows[..n + 1]) == FoldRow(identity, FoldRows(identity, s, rows[..n]), rows[n])
  {
    assert rows[..n + 1][..n] == rows[..n];
  }

  lemma NewestTimeNext(rows: seq<Row>, n: nat)
    requires n < |rows|
    ensures NewestTime(rows[..n + 1]) == Max(NewestTime(rows[..n]), rows[n].viewedAt)
  {
    assert rows[..n + 1][..n] == rows[..n];
  }

  lemma {:induction false} FoldRowsFrame(identity: Row -> uint64, s: State, rows: seq<Row>)
    ensures FoldRows(identity, s, rows).tables.Some? == s.tables.Some?
    ensures FoldRows(identity, s, rows) == s.(tables := FoldRows(identity, s, rows).tables)
    ensures s.tables.Some? ==> FoldRows(identity, s, rows).tables == Some(FoldAll(identity, s.tables.value, rows))
  {
    if rows != [] {
      FoldRowsFrame(identity, s, rows[..|rows| - 1]);
    }
  }

  class Store {
    const identity: Row -> uint64
    var watched: Option<Watched>
    var unmatched: set<uint64>
    var deleted: set<uint64>
    var status: Status
    var gen: nat
    var cursor: int
    var drain: Drain
    var lastSuccess: int

    function Abstract(): State
      reads this
    {
      State(if watched.Some? then Some(Tables(watched.value, unmatched, deleted)) else None,
            status, gen, cursor, drain, lastSuccess)
    }

    /** The maps are there exactly while the last full read is complete. */
    ghost predicate Valid()
      reads this
    {
      && (watched.Some? <==> status == Complete)
      && (watched.None? ==> unmatched == {} && deleted == {})
    }

    constructor (identity: Row -> uint64)
      ensures Valid() && Abstract() == START && this.identity == identity
    {
      this.identity := identity;
      watched, unmatched, deleted := None, {}, {};
      status, gen, cursor, drain, lastSuccess := Unread, 0, 0, NO_DRAIN, 0;
    }

    method GetView(now: int) returns (v: View)
      requires Valid()
      ensures v == ViewAt(Abstract(), now)
    {
      v := View(lastSuccess, status, gen, |unmatched|, |deleted|,
                status == Complete && now - lastSuccess < STALE_AFTER);
    }

    /** Visit: answers from the map, and leaves the pass's mark on a key that is there. */
    method Visit(key: uint64, pass: uint32) returns (at: uint32)
      requires Valid()
      modifies this`watched
      ensures Valid() && at == VisitAnswer(old(Abstract()), key)
      ensures Abstract() == Visited(old(Abstract()), key, pass)
    {
      if watched.None? {
        return 0;
      }
      var m := watched.value;
      if key !in m {
        return 0;
      }
      at := m[key].at;
      if pass != 0 {
        watched := Some(m[key := m[key].(pass := pass)]);
      }
    }

    /** Prune: deletes what the pass did not mark and was last played before cutoff, unless
        a full read ended since gen. */
    method Prune(pass: uint32, cutoff: int, gen: nat) returns (n: nat)
      requires Valid()
      modifies this`watched
      ensures Valid() && Abstract() == Pruned(old(Abstract()), pass, cutoff, gen)
      ensures n == |WatchedOf(old(Abstract()))| - |WatchedOf(Abstract())|
    {
      if this.gen != gen || pass == 0 || watched.None? {
        return 0;
      }
      var before := watched.value;
      var m := before;
      var left := before.Keys;
      n := 0;
      while left != {}
        invariant left <= before.Keys && left <= m.Keys <= before.Keys
        invariant forall k | k in m :: m[k] == before[k]
        invariant forall k | k in before && k !in left :: k in m <==> !Prunable(before[k], pass, cutoff)
        invariant n == |before| - |m|
        decreases left
      {
        var k :| k in left;
        if m[k].pass != pass && m[k].at < cutoff {
          assert m.Keys == (m - {k}).Keys + {k};
          m := m - {k};
          n := n + 1;
        }
        left := left - {k};
      }
      assert m == Kept(before, pass, cutoff);
      watched := Some(m);
    }

    /** The locked region of merge: one row, folded into the current maps. */
    method FoldOne(r: Row)
      requires Valid()
      modifies this`watched, this`unmatched, this`deleted
      ensures Valid() && Abstract() == FoldRow(identity, old(Abstract()), r)
    {
      if watched.None? {
        return;
      }
      var kind := Classify(r);
      match kind {
        case Play(key) =>
          watched := Some(Merge(watched.value, key, r.viewedAt));
        case Deleted =>
          if |deleted| < MAX_COUNTED_ROWS {
            deleted := deleted + {identity(r)};
          }
        case Unmatched =>
          if |unmatched| < MAX_COUNTED_ROWS {
            unmatched := unmatched + {identity(r)};
          }
      }
    }

    /** merge: folds what a capped read hands on into the current maps. */
    method MergeRead(stream: Stream, pages: nat) returns (newest: int, rows: nat, o: Outcome)
      requires Valid()
      modifies this`watched, this`unmatched, this`deleted
      ensures Valid() && Abstract() == FoldRows(identity, old(Abstract()), Handed(stream, pages))
      ensures newest == if old(watched).Some? then NewestTime(Handed(stream, pages)) else 0
      ensures rows == |Handed(stream, pages)| && o == OutcomeOf(stream, pages)
    {
      hide FoldRow;
      newest, rows := 0, 0;
      ghost var start := Abstract();
      ghost var some := watched.Some?;
      while rows < |stream.rows|
        invariant rows <= |stream.rows| && rows <= pages * PAGE_SIZE
        invariant Valid() && watched.Some? == some
        invariant Abstract() == FoldRows(identity, start, stream.rows[..rows])
        invariant newest == if some then NewestTime(stream.rows[..rows]) else 0
      {
        if rows == pages * PAGE_SIZE {
          return newest, rows, OverLimit;
        }
        FoldRowsNext(identity, start, stream.rows, rows);
        NewestTimeNext(stream.rows, rows);
        if watched.Some? {
          newest := Max(newest, stream.rows[rows].viewedAt);
        }
        FoldOne(stream.rows[rows]);
        rows := rows + 1;
      }
      assert stream.rows[..rows] == stream.rows;
      if stream.end.Broken? {
        return newest, rows, Errored(stream.end.deadline);
      }
      return newest, rows, Finished;
    }

    /** The rows of a full read, folded into tables of their own. */
    method ReadAll(stream: Stream, pages: nat) returns (t: Tables, newest: int, o: Outcome)
      ensures t == FoldAll(identity, EMPTY, Handed(stream, pages))
      ensures newest == NewestTime(Handed(stream, pages)) && o == OutcomeOf(stream, pages)
    {
      hide Fold;
      t, newest := EMPTY, 0;
      var rows := 0;
      while rows < |stream.rows|
        invariant rows <= |stream.rows| && rows <= pages * PAGE_SIZE
        invariant t == FoldAll(identity, EMPTY, stream.rows[..rows])
        invariant newest == NewestTime(stream.rows[..rows])
      {
        if rows == pages * PAGE_SIZE {
          return t, newest, OverLimit;
        }
        NewestTimeNext(stream.rows, rows);
        assert stream.rows[..rows + 1][..rows] == stream.rows[..rows];
        newest := Max(newest, stream.rows[rows].viewedAt);
        t := Fold(identity, t, stream.rows[rows]);
        rows := rows + 1;
      }
      assert stream.rows[..rows] == stream.rows;
      o := if stream.end.Broken? then Errored(stream.end.deadline) else Finished;
    }

    /** Bootstrap: rebuilds the maps from the whole history, or discards them. */
    method Bootstrap(src: Source, now: int) returns (st: Status)
      requires Valid()
      modifies this
      ensures Valid() && Abstract() == AfterBootstrap(identity, old(Abstract()), src, now)
      ensures st == status
    {
      hide FoldAll, NewestTime, Handed, OutcomeOf;
      var t, newest, o := ReadAll(src(0, 0), MAX_PAGES);
      gen := gen + 1;
      status := StatusOf(o);
      drain := NO_DRAIN;
      if status != Complete {
        watched, unmatched, deleted, cursor := None, {}, {}, 0;
        return status;
      }
      watched, unmatched, deleted, cursor := Some(t.watched), t.unmatched, t.deleted, newest;
      lastSuccess := now;
      return status;
    }

    /** Incremental: reads on from the cursor or an open drain; true unless the read failed. */
    method Incremental(src: Source, now: int) returns (ok: bool)
      requires Valid()
      modifies this
      ensures Valid() && Abstract() == AfterIncremental(identity, old(Abstract()), src, now)
      ensures ok <==> old(status) != Complete || !OutcomeOf(
                src(Since(old(Abstract())), old(drain).offset), MAX_INCREMENTAL_PAGES).Errored?
    {
      if status != Complete {
        return true;
      }
      FoldRowsFrame(identity, Abstract(), Handed(src(Since(Abstract()), drain.offset), MAX_INCREMENTAL_PAGES));
      var since, start := Max(cursor - INCREMENTAL_OVERLAP, 0), 0;
      if drain.offset > 0 {
        since, start := drain.since, drain.offset;
      }
      var newest, rows, o := MergeRead(src(since, start), MAX_INCREMENTAL_PAGES);
      if o.Errored? {
        return false;
      }
      cursor := Max(cursor, newest);
      drain := NO_DRAIN;
      if o == OverLimit {
        drain := Drain(since, start + rows);
      }
      lastSuccess := now;
      return true;
    }

    /** catchup: one more read of the past month, which loses nothing. */
    method Catchup(src: Source, now: int) returns (o: Outcome)
      requires Valid()
      modifies this`watched, this`unmatched, this`deleted
      ensures Valid() && Abstract() == AfterCatchup(identity, old(Abstract()), src, now)
      ensures status == Complete ==> o == OutcomeOf(src((now - CATCHUP_WINDOW) / SECOND, 0), MAX_CATCHUP_PAGES)
    {
      if status != Complete {
        return Finished;
      }
      var newest, rows;
      newest, rows, o := MergeRead(src((now - CATCHUP_WINDOW) / SECOND, 0), MAX_CATCHUP_PAGES);
    }

    /** bootstrapOnce: one full read of Run, how long to wait for the next one (0 follows the
        history from here), the next backoff, and which callback is called. */
    method BootstrapOnce(src: Source, now: int, cancelled: bool, backoff: nat)
      returns (wait: nat, next: nat, rebuilt: bool, failed: bool)
      requires Valid()
      modifies this
      ensures Valid() && Abstract() == AfterBootstrap(identity, old(Abstract()), src, now)
      ensures if cancelled then wait == 0 && next == backoff else (wait, next) == AfterFullRead(status, backoff)
      ensures rebuilt <==> !cancelled && status == Complete
      ensures failed <==> !cancelled && status != Complete && status != PastLimit
    {
      hide AfterBootstrap;
      var st := Bootstrap(src, now);
      wait, next, rebuilt, failed := 0, backoff, false, false;
      if cancelled {
        return;
      }
      match st {
        case Complete => rebuilt := true;
        case PastLimit => wait := RETRY_OVER_LIMIT;
        case _ =>
          failed := true;
          wait := backoff;
          next := Min(backoff * 2, RETRY_CEILING);
      }
    }
  }
}
