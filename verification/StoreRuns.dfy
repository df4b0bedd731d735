/** What the watch-history store holds after any sequence of its locked regions, in any
    order (internal/history/history.go): the map is exactly the newest plays folded, and the
    two row counts are exact up to their cap. */
module StoreRuns {
  import opened Ints
  import opened Sequences
  import opened History

  /** One locked region; rows and outcomes are whatever the source delivered. */
  datatype Op =
    | FoldOp(row: Row)
    | VisitOp(key: uint64, pass: uint32)
    | PruneOp(pass: uint32, cutoff: int, gen: nat)
    | BootstrapOp(rows: seq<Row>, outcome: Outcome, now: int)
    | IncrementOp(since: int, start: nat, newest: int, count: nat, outcome: Outcome, now: int)

  function Apply(identity: Row -> uint64, s: State, op: Op): State {
    match op
    case FoldOp(r) => FoldRow(identity, s, r)
    case VisitOp(key, pass) => Visited(s, key, pass)
    case PruneOp(pass, cutoff, gen) => Pruned(s, pass, cutoff, gen)
    case BootstrapOp(rows, o, now) => EndBootstrap(identity, s, rows, o, now)
    case IncrementOp(since, start, newest, rows, o, now) => EndIncrement(s, since, start, newest, rows, o, now)
  }

  /** The state with its past: the rows folded since the last completed full read began, its
      own included; how many of them had been folded when a key was last pruned; and the
      highest cutoff a prune has used on this map, 0 when there was none. */
  datatype Trace = Trace(s: State, folded: seq<Row>, prunedAt: map<uint64, nat>, highest: int)

  function Step(identity: Row -> uint64, t: Trace, op: Op): Trace {
    var s := Apply(identity, t.s, op);
    match op
    case FoldOp(r) => if t.s.tables.Some? then t.(s := s, folded := t.folded + [r]) else t
    case PruneOp(pass, cutoff, gen) =>
      if PruneRuns(t.s, pass, gen) then
        var gone := map k | k in WatchedOf(t.s) && k !in WatchedOf(s) :: |t.folded|;
        Trace(s, t.folded, t.prunedAt + gone, Max(t.highest, cutoff))
      else t
    case BootstrapOp(rows, o, _) => Trace(s, if o == Finished then rows else [], map[], 0)
    case _ => t.(s := s)
  }

  function Run(identity: Row -> uint64, ops: seq<Op>): Trace {
    if ops == [] then Trace(START, [], map[], 0)
    else Step(identity, Run(identity, ops[..|ops| - 1]), ops[|ops| - 1])
  }

  // What a row is, by its own fields: a play carries a numeric key and a time; a row without
  // an item belongs to none there is now; any other may be a play all the same.
  predicate IsPlay(r: Row, key: uint64) {
    r.item == Numeric(key) && r.viewedAt > 0
  }

  predicate IsGone(r: Row) {
    r.item == Missing
  }

  predicate MayBeAPlay(r: Row) {
    r.item.NotNumeric? || (r.item.Numeric? && r.viewedAt <= 0)
  }

  /** What one row tells about a key: its play time as far as 32 bits hold it, 0 when it is no
      play of it. */
  function PlayOf(r: Row, key: uint64): uint32 {
    if IsPlay(r, key) then Min(r.viewedAt, 0xFFFF_FFFF) else 0
  }

  lemma KindMeans(r: Row)
    ensures Classify(r) == Unmatched <==> MayBeAPlay(r)
    ensures Classify(r) == Deleted <==> IsGone(r)
    ensures forall key: uint64 :: Classify(r) == Play(key) <==> IsPlay(r, key)
    ensures forall key: uint64 :: PlayOf(r, key) == if Classify(r) == Play(key) then Clamp(r.viewedAt) else 0
  {
  }

  /** The newest play of a key among rows, as the map stores times; 0 when there is none. */
  function NewestPlay(rows: seq<Row>, key: uint64): (at: uint32)
    ensures forall i | 0 <= i < |rows| :: PlayOf(rows[i], key) <= at
    ensures at == 0 || exists i :: 0 <= i < |rows| && PlayOf(rows[i], key) == at
  {
    if rows == [] then 0
    else
      var n := |rows| - 1;
      var before := NewestPlay(rows[..n], key);
      assert forall i | 0 <= i < n :: PlayOf(rows[..n][i], key) == PlayOf(rows[i], key);
      Max(before, PlayOf(rows[n], key))
  }

  lemma NewestPlaySnoc(rows: seq<Row>, r: Row, key: uint64)
    ensures NewestPlay(rows + [r], key) == Max(NewestPlay(rows, key), PlayOf(r, key))
  {
    assert (rows + [r])[..|rows|] == rows;
  }

  function From(t: Trace, key: uint64): nat {
    if key in t.prunedAt then t.prunedAt[key] else 0
  }

  /** The rows a key's entry stands for: those folded since it was last pruned. */
  function Since(t: Trace, key: uint64): seq<Row>
    requires From(t, key) <= |t.folded|
  {
    t.folded[From(t, key)..]
  }

  function Ids(identity: Row -> uint64, rows: seq<Row>, kind: Kind): set<uint64> {
    set r | r in rows && Classify(r) == kind :: identity(r)
  }

  /** A counted set: the distinct identities, up to the cap. */
  predicate Counted(ids: set<uint64>, all: set<uint64>) {
    ids <= all && (ids == all || |ids| == MAX_COUNTED_ROWS) && |ids| <= MAX_COUNTED_ROWS
  }

  /** The entry of a key is exactly the newest play of it folded since it was last pruned. */
  predicate KeyExact(t: Trace, key: uint64) {
    && From(t, key) <= |t.folded|
    && At(WatchedOf(t.s), key) == NewestPlay(Since(t, key), key)
    && (key in WatchedOf(t.s) <==> 0 < At(WatchedOf(t.s), key))
  }

  /** Every play that pruning dropped lies below the highest cutoff used. */
  predicate KeyKept(t: Trace, key: uint64) {
    && From(t, key) <= |t.folded|
    && forall i | 0 <= i < From(t, key) :: PlayOf(t.folded[i], key) < t.highest
  }

  ghost predicate CountsExact(identity: Row -> uint64, t: Trace) {
    t.s.tables.Some? ==>
      && Counted(t.s.tables.value.unmatched, Ids(identity, t.folded, Unmatched))
      && Counted(t.s.tables.value.deleted, Ids(identity, t.folded, Deleted))
  }

  ghost predicate Inv(identity: Row -> uint64, t: Trace) {
    && (t.s.tables.Some? <==> t.s.status == Complete)
    && (t.s.tables.None? ==> t.folded == [] && t.prunedAt == map[])
    && (forall key: uint64 :: KeyExact(t, key) && KeyKept(t, key))
    && CountsExact(identity, t)
  }

  lemma FoldKey(identity: Row -> uint64, t: Trace, r: Row, key: uint64)
    requires t.s.tables.Some? && KeyExact(t, key) && KeyKept(t, key)
    ensures KeyExact(Step(identity, t, FoldOp(r)), key) && KeyKept(Step(identity, t, FoldOp(r)), key)
  {
    hide NewestPlay, Count;
    var u := Step(identity, t, FoldOp(r));
    assert Since(u, key) == Since(t, key) + [r];
    NewestPlaySnoc(Since(t, key), r, key);
    assert forall i | 0 <= i < From(t, key) :: u.folded[i] == t.folded[i];
  }

  lemma CountStep(ids: set<uint64>, all: set<uint64>, id: uint64)
    requires Counted(ids, all)
    ensures Counted(Count(ids, id), all + {id})
  {
    if ids != all {
      assert |ids| == MAX_COUNTED_ROWS;
    } else if id in all {
      assert all + {id} == all;
    }
  }

  lemma IdsSnoc(identity: Row -> uint64, rows: seq<Row>, r: Row, kind: Kind)
    ensures Ids(identity, rows + [r], kind) == Ids(identity, rows, kind) + if Classify(r) == kind then {identity(r)} else {}
  {
    assert forall x :: x in rows + [r] <==> x in rows || x == r;
    if Classify(r) == kind {
      assert r in rows + [r];
    }
  }

  lemma FoldCountsExact(identity: Row -> uint64, t: Trace, r: Row)
    requires t.s.tables.Some? && CountsExact(identity, t)
    ensures CountsExact(identity, Step(identity, t, FoldOp(r)))
  {
    hide Count, Counted, Ids;
    IdsSnoc(identity, t.folded, r, Unmatched);
    IdsSnoc(identity, t.folded, r, Deleted);
    var tables := t.s.tables.value;
    CountStep(tables.unmatched, Ids(identity, t.folded, Unmatched), identity(r));
    CountStep(tables.deleted, Ids(identity, t.folded, Deleted), identity(r));
    assert Ids(identity, t.folded, Unmatched) + {} == Ids(identity, t.folded, Unmatched);
    assert Ids(identity, t.folded, Deleted) + {} == Ids(identity, t.folded, Deleted);
  }

  lemma FoldInv(identity: Row -> uint64, t: Trace, r: Row)
    requires Inv(identity, t)
    ensures Inv(identity, Step(identity, t, FoldOp(r)))
  {
    hide KeyExact, KeyKept, CountsExact;
    if t.s.tables.Some? {
      FoldCountsExact(identity, t, r);
      forall key: uint64
        ensures KeyExact(Step(identity, t, FoldOp(r)), key) && KeyKept(Step(identity, t, FoldOp(r)), key)
      {
        FoldKey(identity, t, r, key);
      }
    }
  }

  lemma NothingFolded(identity: Row -> uint64, t: Trace)
    requires t.folded == [] && t.prunedAt == map[] && WatchedOf(t.s) == map[]
    requires t.s.tables.Some? <==> t.s.status == Complete
    requires t.s.tables.Some? ==> t.s.tables.value.unmatched == {} && t.s.tables.value.deleted == {}
    ensures Inv(identity, t)
  {
    forall key: uint64 ensures KeyExact(t, key) && KeyKept(t, key) {
      assert Since(t, key) == [];
    }
  }

  /** A full read's own tables are those of its rows folded one by one. */
  lemma {:induction false} FullReadInv(identity: Row -> uint64, s: State, rows: seq<Row>)
    requires s.tables == Some(FoldAll(identity, EMPTY, rows)) && s.status == Complete
    ensures Inv(identity, Trace(s, rows, map[], 0))
    decreases |rows|
  {
    hide Inv;
    if rows == [] {
      NothingFolded(identity, Trace(s, rows, map[], 0));
    } else {
      var n := |rows| - 1;
      var before := s.(tables := Some(FoldAll(identity, EMPTY, rows[..n])));
      FullReadInv(identity, before, rows[..n]);
      FoldInv(identity, Trace(before, rows[..n], map[], 0), rows[n]);
      assert rows == rows[..n] + [rows[n]];
      assert Step(identity, Trace(before, rows[..n], map[], 0), FoldOp(rows[n])) == Trace(s, rows, map[], 0);
    }
  }

  lemma PruneKey(identity: Row -> uint64, t: Trace, pass: uint32, cutoff: int, gen: nat, key: uint64)
    requires PruneRuns(t.s, pass, gen) && KeyExact(t, key) && KeyKept(t, key)
    ensures KeyExact(Step(identity, t, PruneOp(pass, cutoff, gen)), key)
    ensures KeyKept(Step(identity, t, PruneOp(pass, cutoff, gen)), key)
  {
    hide NewestPlay;
    var u := Step(identity, t, PruneOp(pass, cutoff, gen));
    if key in WatchedOf(t.s) && key !in WatchedOf(u.s) {
      assert Since(u, key) == [];
      assert NewestPlay([], key) == 0 by { NoPlay(key); }
      forall i | 0 <= i < |t.folded| ensures PlayOf(t.folded[i], key) < u.highest {
        if From(t, key) <= i {
          assert Since(t, key)[i - From(t, key)] == t.folded[i];
        }
      }
    } else {
      assert Since(u, key) == Since(t, key);
    }
  }

  lemma NoPlay(key: uint64)
    ensures NewestPlay([], key) == 0
  {
  }

  lemma PruneInv(identity: Row -> uint64, t: Trace, pass: uint32, cutoff: int, gen: nat)
    requires Inv(identity, t)
    ensures Inv(identity, Step(identity, t, PruneOp(pass, cutoff, gen)))
  {
    hide KeyExact, KeyKept, Kept;
    if PruneRuns(t.s, pass, gen) {
      forall key: uint64
        ensures KeyExact(Step(identity, t, PruneOp(pass, cutoff, gen)), key)
             && KeyKept(Step(identity, t, PruneOp(pass, cutoff, gen)), key)
      {
        PruneKey(identity, t, pass, cutoff, gen, key);
      }
    }
  }

  lemma VisitKey(identity: Row -> uint64, t: Trace, visited: uint64, pass: uint32, key: uint64)
    requires KeyExact(t, key) && KeyKept(t, key)
    ensures KeyExact(Step(identity, t, VisitOp(visited, pass)), key)
    ensures KeyKept(Step(identity, t, VisitOp(visited, pass)), key)
  {
    hide NewestPlay;
    var u := Step(identity, t, VisitOp(visited, pass));
    assert Since(u, key) == Since(t, key);
  }

  lemma VisitInv(identity: Row -> uint64, t: Trace, visited: uint64, pass: uint32)
    requires Inv(identity, t)
    ensures Inv(identity, Step(identity, t, VisitOp(visited, pass)))
  {
    hide KeyExact, KeyKept;
    forall key: uint64
      ensures KeyExact(Step(identity, t, VisitOp(visited, pass)), key)
           && KeyKept(Step(identity, t, VisitOp(visited, pass)), key)
    {
      VisitKey(identity, t, visited, pass, key);
    }
  }

  lemma SameTables(identity: Row -> uint64, t: Trace, s: State)
    requires Inv(identity, t) && s.tables == t.s.tables && s.status == t.s.status
    ensures Inv(identity, t.(s := s))
  {
    var u := t.(s := s);
    forall key: uint64 ensures KeyExact(u, key) && KeyKept(u, key) {
      assert KeyExact(t, key) && KeyKept(t, key);
      assert Since(u, key) == Since(t, key);
    }
  }

  lemma StepInv(identity: Row -> uint64, t: Trace, op: Op)
    requires Inv(identity, t)
    ensures Inv(identity, Step(identity, t, op))
  {
    hide Inv, FoldRow, Visited, Pruned;
    match op {
      case FoldOp(r) => FoldInv(identity, t, r);
      case VisitOp(key, pass) => VisitInv(identity, t, key, pass);
      case PruneOp(pass, cutoff, gen) => PruneInv(identity, t, pass, cutoff, gen);
      case BootstrapOp(rows, o, now) =>
        var u := Step(identity, t, op);
        if o == Finished {
          FullReadInv(identity, u.s, rows);
        } else {
          NothingFolded(identity, u);
        }
      case IncrementOp(since, start, newest, rows, o, now) =>
        SameTables(identity, t, Apply(identity, t.s, op));
    }
  }

  /** After any sequence of locked regions the map, the counts and what pruning may have
      dropped are exactly what was folded since the last completed full read. */
  lemma {:induction false} RunInv(identity: Row -> uint64, ops: seq<Op>)
    ensures Inv(identity, Run(identity, ops))
  {
    hide Inv, Step;
    if ops == [] {
      NothingFolded(identity, Run(identity, ops));
    } else {
      RunInv(identity, ops[..|ops| - 1]);
      StepInv(identity, Run(identity, ops[..|ops| - 1]), ops[|ops| - 1]);
    }
  }

  // ---- what the invariant says to a reader of the store ----

  /** Visit answers with exactly the newest play of the key folded since it was last pruned,
      and 0 exactly when there was none. */
  lemma VisitAnswersNewestPlay(identity: Row -> uint64, ops: seq<Op>, key: uint64)
    ensures var t := Run(identity, ops);
            From(t, key) <= |t.folded| && VisitAnswer(t.s, key) == NewestPlay(Since(t, key), key)
  {
    RunInv(identity, ops);
    assert KeyExact(Run(identity, ops), key);
  }

  /** The published counts: while the last full read is complete, the distinct rows folded
      since it began that may be a play, and those of items that are gone, up to 250000; so
      zero exactly when there was no such row, whatever the identity function does. */
  lemma CountsPublishTheFoldedRows(identity: Row -> uint64, ops: seq<Op>, now: int)
    ensures var t := Run(identity, ops);
            var v := ViewAt(t.s, now);
            if v.status == Complete then
              && v.unmatched == Min(|set r | r in t.folded && MayBeAPlay(r) :: identity(r)|, 250_000)
              && v.deleted == Min(|set r | r in t.folded && IsGone(r) :: identity(r)|, 250_000)
              && (v.unmatched == 0 <==> forall r | r in t.folded :: !MayBeAPlay(r))
            else v.unmatched == 0 && v.deleted == 0 && !v.current
  {
    RunInv(identity, ops);
    var t := Run(identity, ops);
    if t.s.status == Complete {
      CountedMeans(t.s.tables.value.unmatched, Ids(identity, t.folded, Unmatched));
      CountedMeans(t.s.tables.value.deleted, Ids(identity, t.folded, Deleted));
      NoIds(identity, t.folded, Unmatched);
      IdsMean(identity, t.folded);
    }
  }

  lemma IdsMean(identity: Row -> uint64, rows: seq<Row>)
    ensures Ids(identity, rows, Unmatched) == set r | r in rows && MayBeAPlay(r) :: identity(r)
    ensures Ids(identity, rows, Deleted) == set r | r in rows && IsGone(r) :: identity(r)
    ensures (forall r | r in rows :: Classify(r) != Unmatched) <==> forall r | r in rows :: !MayBeAPlay(r)
  {
    forall r: Row ensures (Classify(r) == Unmatched <==> MayBeAPlay(r)) && (Classify(r) == Deleted <==> IsGone(r)) {
      KindMeans(r);
    }
  }

  lemma CountedMeans(ids: set<uint64>, all: set<uint64>)
    requires Counted(ids, all)
    ensures |ids| == Min(|all|, MAX_COUNTED_ROWS)
  {
    SubsetSize(ids, all);
  }

  lemma NoIds(identity: Row -> uint64, rows: seq<Row>, kind: Kind)
    ensures |Ids(identity, rows, kind)| == 0 <==> forall r | r in rows :: Classify(r) != kind
  {
    if r :| r in rows && Classify(r) == kind {
      assert identity(r) in Ids(identity, rows, kind);
    } else {
      assert Ids(identity, rows, kind) == {};
    }
  }

  /** No prune loses a recent play: every play folded since the last completed full read, and
      not older than any cutoff a prune has used, is still answered. */
  lemma RecentPlaysSurvivePruning(identity: Row -> uint64, ops: seq<Op>, i: nat, key: uint64)
    requires var t := Run(identity, ops);
             && i < |t.folded| && IsPlay(t.folded[i], key)
             && t.highest <= MAX_UINT32 && t.folded[i].viewedAt >= t.highest
    ensures var t := Run(identity, ops);
            VisitAnswer(t.s, key) >= PlayOf(t.folded[i], key)
  {
    RunInv(identity, ops);
    var t := Run(identity, ops);
    assert KeyExact(t, key) && KeyKept(t, key);
    assert From(t, key) <= i;
    assert Since(t, key)[i - From(t, key)] == t.folded[i];
  }

  /** Play times are stored in 32 bits. A cutoff protects every play at or after it exactly
      when it fits them too, which it does until 2106. */
  lemma CutoffProtectsNewPlays(cutoff: int64)
    ensures (forall viewedAt: int64 :: viewedAt >= cutoff ==> Clamp(viewedAt) >= cutoff) <==> cutoff <= MAX_UINT32
  {
    if cutoff > MAX_UINT32 {
      assert Clamp(cutoff) < cutoff;
    }
  }

  // ---- when history is current ----

  /** The op ends a read that succeeded. */
  predicate Succeeds(op: Op) {
    (op.BootstrapOp? && op.outcome == Finished) || (op.IncrementOp? && !op.outcome.Errored?)
  }

  /** Reads end in clock order. */
  predicate InOrder(ops: seq<Op>) {
    forall i, j | 0 <= i < j < |ops| && Succeeds(ops[i]) && Succeeds(ops[j]) :: ops[i].now <= ops[j].now
  }

  /** The last full read of the run completed. */
  predicate LastFullReadCompleted(ops: seq<Op>) {
    exists i :: 0 <= i < |ops| && ops[i].BootstrapOp? && ops[i].outcome == Finished
             && forall j | i < j < |ops| :: !ops[j].BootstrapOp?
  }

  predicate SucceededSince(ops: seq<Op>, after: int) {
    exists i :: 0 <= i < |ops| && Succeeds(ops[i]) && ops[i].now > after
  }

  lemma StepEndsRead(identity: Row -> uint64, t: Trace, op: Op)
    ensures Step(identity, t, op).s.status == if op.BootstrapOp? then StatusOf(op.outcome) else t.s.status
    ensures Step(identity, t, op).s.lastSuccess == if Succeeds(op) then op.now else t.s.lastSuccess
  {
    hide Fold, FoldAll, Kept, NewestTime;
  }

  lemma {:induction false} StatusMeans(identity: Row -> uint64, ops: seq<Op>)
    ensures Run(identity, ops).s.status == Complete <==> LastFullReadCompleted(ops)
  {
    hide Step;
    if ops != [] {
      var n := |ops| - 1;
      var before := ops[..n];
      StatusMeans(identity, before);
      StepEndsRead(identity, Run(identity, before), ops[n]);
      assert forall i | 0 <= i < n :: ops[i] == before[i];
      if ops[n].BootstrapOp? {
        assert LastFullReadCompleted(ops) <==> ops[n].outcome == Finished;
      } else {
        assert LastFullReadCompleted(ops) <==> LastFullReadCompleted(before);
      }
    }
  }

  lemma {:induction false} LastSuccessMeans(identity: Row -> uint64, ops: seq<Op>)
    requires InOrder(ops)
    ensures var s := Run(identity, ops).s;
            if exists i :: 0 <= i < |ops| && Succeeds(ops[i])
            then (exists i :: 0 <= i < |ops| && Succeeds(ops[i]) && ops[i].now == s.lastSuccess)
                 && forall i | 0 <= i < |ops| && Succeeds(ops[i]) :: ops[i].now <= s.lastSuccess
            else s.lastSuccess == 0
  {
    hide Step;
    if ops != [] {
      var n := |ops| - 1;
      var before := ops[..n];
      assert forall i | 0 <= i < n :: ops[i] == before[i];
      LastSuccessMeans(identity, before);
      StepEndsRead(identity, Run(identity, before), ops[n]);
      assert Run(identity, ops).s.lastSuccess == if Succeeds(ops[n]) then ops[n].now else Run(identity, before).s.lastSuccess;
    }
  }

  /** History is current exactly when no later full read has replaced a completed one, and less
      than an hour has passed since some read ended well. */
  lemma CurrentMeans(identity: Row -> uint64, ops: seq<Op>, now: int)
    requires InOrder(ops)
    ensures ViewAt(Run(identity, ops).s, now).current
       <==> LastFullReadCompleted(ops) && SucceededSince(ops, now - 3600 * 1_000_000_000)
  {
    hide Run;
    StatusMeans(identity, ops);
    LastSuccessMeans(identity, ops);
  }

  function FullReads(ops: seq<Op>): nat {
    if ops == [] then 0 else FullReads(ops[..|ops| - 1]) + if ops[|ops| - 1].BootstrapOp? then 1 else 0
  }

  lemma StepGen(identity: Row -> uint64, t: Trace, op: Op)
    ensures Step(identity, t, op).s.gen == t.s.gen + if op.BootstrapOp? then 1 else 0
  {
    hide Fold, Kept;
  }

  lemma {:induction false} GenCountsFullReads(identity: Row -> uint64, before: seq<Op>, between: seq<Op>)
    ensures Run(identity, before + between).s.gen == Run(identity, before).s.gen + FullReads(between)
    decreases |between|
  {
    hide Step;
    if between == [] {
      assert before + between == before;
    } else {
      var n := |between| - 1;
      GenCountsFullReads(identity, before, between[..n]);
      assert (before + between)[..|before| + n] == before + between[..n];
      StepGen(identity, Run(identity, before + between[..n]), between[n]);
    }
  }

  /** The rest of the view: the time of the newest read that ended well, 0 before there is
      one, whether the last full read completed, and how many full reads have ended. */
  lemma ViewMeans(identity: Row -> uint64, ops: seq<Op>, now: int)
    requires InOrder(ops)
    ensures var v := ViewAt(Run(identity, ops).s, now);
            && (if exists i :: 0 <= i < |ops| && Succeeds(ops[i])
                then (exists i :: 0 <= i < |ops| && Succeeds(ops[i]) && ops[i].now == v.lastSuccess)
                     && forall i | 0 <= i < |ops| && Succeeds(ops[i]) :: ops[i].now <= v.lastSuccess
                else v.lastSuccess == 0)
            && (v.status == Complete <==> LastFullReadCompleted(ops))
            && v.gen == FullReads(ops)
  {
    hide Run, LastFullReadCompleted, FullReads;
    StatusMeans(identity, ops);
    LastSuccessMeans(identity, ops);
    GenMeans(identity, ops);
  }

  lemma GenMeans(identity: Row -> uint64, ops: seq<Op>)
    ensures Run(identity, ops).s.gen == FullReads(ops)
  {
    hide Step, FullReads;
    GenCountsFullReads(identity, [], ops);
    assert [] + ops == ops;
  }

  lemma {:induction false} NoFullReads(ops: seq<Op>)
    ensures FullReads(ops) == 0 <==> forall op | op in ops :: !op.BootstrapOp?
  {
    if ops != [] {
      NoFullReads(ops[..|ops| - 1]);
      assert ops == ops[..|ops| - 1] + [ops[|ops| - 1]];
    }
  }

  /** A history that is complete has a generation: some full read has ended. */
  lemma CompleteHasGeneration(identity: Row -> uint64, ops: seq<Op>)
    requires Run(identity, ops).s.status == Complete
    ensures 0 < Run(identity, ops).s.gen
  {
    StatusMeans(identity, ops);
    var i :| 0 <= i < |ops| && ops[i].BootstrapOp? && ops[i].outcome == Finished && forall j | i < j < |ops| :: !ops[j].BootstrapOp?;
    GenCountsFullReads(identity, [], ops);
    NoFullReads(ops);
    assert [] + ops == ops && ops[i] in ops;
  }

  /** Two views with the same generation bracket a span in which no full read ended: the map
      at its end has grown out of the one at its start. */
  lemma EqualGenerationsBracket(identity: Row -> uint64, before: seq<Op>, between: seq<Op>)
    ensures Run(identity, before + between).s.gen == Run(identity, before).s.gen
       <==> forall op | op in between :: !op.BootstrapOp?
  {
    GenCountsFullReads(identity, before, between);
    NoFullReads(between);
  }

  // ---- the store's calls are runs of its locked regions ----

  function FoldOps(rows: seq<Row>): seq<Op> {
    if rows == [] then [] else FoldOps(rows[..|rows| - 1]) + [FoldOp(rows[|rows| - 1])]
  }

  function Applied(identity: Row -> uint64, s: State, ops: seq<Op>): State {
    if ops == [] then s else Apply(identity, Applied(identity, s, ops[..|ops| - 1]), ops[|ops| - 1])
  }

  lemma {:induction false} FoldOpsApplied(identity: Row -> uint64, s: State, rows: seq<Row>)
    ensures Applied(identity, s, FoldOps(rows)) == FoldRows(identity, s, rows)
  {
    if rows != [] {
      var n := |rows| - 1;
      FoldOpsApplied(identity, s, rows[..n]);
      assert FoldOps(rows)[..|FoldOps(rows)| - 1] == FoldOps(rows[..n]);
    }
  }

  /** An uninterrupted increment is its rows folded one by one and one closing region. */
  lemma IncrementalIsARun(identity: Row -> uint64, s: State, src: Source, now: int)
    requires s.status == Complete && s.tables.Some?
    ensures var rows := Handed(src(History.Since(s), s.drain.offset), MAX_INCREMENTAL_PAGES);
            AfterIncremental(identity, s, src, now)
              == Applied(identity, s, FoldOps(rows) + [IncrementOp(History.Since(s), s.drain.offset, NewestTime(rows), |rows|,
                   OutcomeOf(src(History.Since(s), s.drain.offset), MAX_INCREMENTAL_PAGES), now)])
  {
    var rows := Handed(src(History.Since(s), s.drain.offset), MAX_INCREMENTAL_PAGES);
    FoldOpsApplied(identity, s, rows);
    var ops := FoldOps(rows) + [IncrementOp(History.Since(s), s.drain.offset, NewestTime(rows), |rows|,
                   OutcomeOf(src(History.Since(s), s.drain.offset), MAX_INCREMENTAL_PAGES), now)];
    assert ops[..|ops| - 1] == FoldOps(rows);
  }

  // ---- where increments read from ----

  /** The greatest time this ended read handed on. */
  predicate ReadsUpTo(op: Op, time: int) {
    (op.BootstrapOp? && op.outcome == Finished && time == NewestTime(op.rows))
    || (op.IncrementOp? && !op.outcome.Errored? && time == op.newest)
  }

  /** After the last full read of the run. */
  predicate SinceFullRead(ops: seq<Op>, i: nat) {
    i < |ops| && forall j | i < j < |ops| :: !ops[j].BootstrapOp?
  }

  /** The cursor is the newest time handed on since the last full read, by it or by an
      increment that did not fail; it never goes back. */
  lemma {:induction false} CursorMeans(identity: Row -> uint64, ops: seq<Op>)
    ensures var cursor := Run(identity, ops).s.cursor;
            && (forall i: nat, time: int | SinceFullRead(ops, i) && ReadsUpTo(ops[i], time) :: time <= cursor)
            && (cursor == 0 || exists i: nat :: SinceFullRead(ops, i) && ReadsUpTo(ops[i], cursor))
  {
    hide Fold, FoldAll, Kept, NewestTime, Step;
    if ops != [] {
      var n := |ops| - 1;
      var before, op := ops[..n], ops[n];
      CursorMeans(identity, before);
      StepCursor(identity, Run(identity, before), op);
      var cursor := Run(identity, ops).s.cursor;
      forall i: nat, time: int | SinceFullRead(ops, i) && ReadsUpTo(ops[i], time) ensures time <= cursor {
        if i < n {
          assert SinceFullRead(before, i) && ops[i] == before[i];
        }
      }
      if !op.BootstrapOp? && cursor != 0 && !ReadsUpTo(op, cursor) {
        var i: nat :| SinceFullRead(before, i) && ReadsUpTo(before[i], cursor);
        assert SinceFullRead(ops, i) && ops[i] == before[i];
      } else if cursor != 0 {
        assert SinceFullRead(ops, n);
      }
    }
  }

  lemma StepCursor(identity: Row -> uint64, t: Trace, op: Op)
    ensures Step(identity, t, op).s.cursor
         == match op
            case BootstrapOp(rows, o, _) => if o == Finished then NewestTime(rows) else 0
            case IncrementOp(_, _, newest, _, o, _) => if o.Errored? then t.s.cursor else Max(t.s.cursor, newest)
            case _ => t.s.cursor
  {
    hide Fold, FoldAll, Kept, NewestTime;
  }

  /** How a full read ends, by the rows the history delivers: complete within 250000 of them,
      past the limit with more or when the time is up, failed otherwise. */
  lemma FullReadEnds(identity: Row -> uint64, s: State, src: Source, now: int)
    ensures var rows, end := src(0, 0).rows, src(0, 0).end;
            var st := AfterBootstrap(identity, s, src, now).status;
            && (st == Complete <==> |rows| <= 250_000 && end == Ended)
            && (st == PastLimit <==> |rows| > 250_000 || end == Broken(true))
            && (st == Failed <==> |rows| <= 250_000 && end == Broken(false))
  {
    hide FoldAll, NewestTime;
  }

  // ---- retries of the full read ----

  function Backoff(ends: seq<Status>): nat {
    if ends == [] then RETRY_FLOOR else AfterFullRead(ends[|ends| - 1], Backoff(ends[..|ends| - 1])).1
  }

  function Failures(ends: seq<Status>): nat {
    if ends == [] then 0
    else Failures(ends[..|ends| - 1]) + if ends[|ends| - 1] in {Complete, PastLimit} then 0 else 1
  }

  function Power2(n: nat): nat {
    if n == 0 then 1 else 2 * Power2(n - 1)
  }

  /** The wait after the next failed read is five minutes doubled once per earlier failure,
      at most six hours, however many reads ended over the limit in between. */
  lemma {:induction false} BackoffDoubles(ends: seq<Status>)
    ensures Backoff(ends) == Min(300 * Power2(Failures(ends)), 21_600)
  {
    if ends != [] {
      BackoffDoubles(ends[..|ends| - 1]);
    }
  }

  /** The wait after a full read: none when complete, a day past the limit, and otherwise five
      minutes doubled for each failure before it, at most six hours. */
  lemma WaitsMean(ends: seq<Status>, st: Status)
    ensures AfterFullRead(st, Backoff(ends)).0
         == match st
            case Complete => 0
            case PastLimit => 86_400
            case _ => Min(300 * Power2(Failures(ends)), 21_600)
  {
    BackoffDoubles(ends);
  }
}
