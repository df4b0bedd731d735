/** The history reader, the library walk and the scrape as they interleave
    (internal/history/history.go, internal/server/walk.go, internal/server/collect_catalog.go).
    Each event is one locked region or one channel operation; an event that the goroutine
    is not ready for changes nothing, so every interleaving is a sequence of events. */
module Protocol {
  import opened Ints
  import opened History
  import opened LibStats
  import opened LibStatsLaws
  import opened Aggregator
  import opened Walks
  import opened Catalog
  import StoreRuns
  import Ranking

  type HistoryRow = History.Row
  type LibraryRow = LibStats.Row

  datatype Env = Env(
    identity: HistoryRow -> uint64,
    resolutionBucket: string -> string,
    normalizeCodec: string -> string
  )

  // ---- the walk ----

  /** What Visit answered, at which generation, and when. */
  datatype Answer = Answer(value: uint32, gen: nat, time: nat)

  /** One walkPass. A stale-only pass has number 0. seen holds the keys that were in the
      map when this pass visited them. */
  datatype Pass = Pass(
    stale: bool,
    number: uint32,
    cutoff: int,
    gen: nat,
    walk: seq<Library>,
    skipped: nat,
    through: nat,
    allOk: bool,
    seen: set<uint64>
  )

  /** One walkLibrary, from reading its first generation; base is the map at that moment, and
      began counts the events before it. */
  datatype LibraryRun = LibraryRun(
    began: nat,
    gen0: nat,
    gen1: Option<nat>,
    started: int64,
    base: Watched,
    answers: map<Ask, Answer>
  )

  datatype Walker =
    | Waiting
    | Signalled
    | Between(pass: Pass)
    | Reading(pass: Pass, run: LibraryRun)
    | Pruning(pass: Pass)

  /** Where a library's stored figures came from. */
  datatype Evidence = Evidence(library: Library, c: Config, rows: seq<LibraryRow>, run: LibraryRun, stats: Stats)

  datatype System = System(
    s: State,
    rebuilt: Option<nat>,          // a full read completed at this generation, its callback still to run
    signal: bool,                  // walkSignal, a channel of capacity one
    signalled: nat,                // the newest generation signalled
    served: nat,                   // the generation the newest stale-only pass took
    walker: Walker,
    libs: map<string, LibWalk>,
    evidence: map<string, Evidence>,
    fulls: nat,                    // full passes started; walkState.pass is this, wrapped
    passDone: bool,
    clock: nat                     // events so far
  )

  const INITIAL: System :=
    System(START, None, false, 0, 0, Waiting, map[], map[], 0, false, 0)

  datatype Event =
    | RowFolded(row: HistoryRow)
    | ReadEnded(since: int, start: nat, newest: int, count: nat, outcome: Outcome, now: int)
    | FullReadEnded(rows: seq<HistoryRow>, outcome: Outcome, now: int, cancelled: bool)
    | SignalSent
    | SignalTaken
    | PassStarted(stale: bool, sections: seq<Library>, walk: seq<Library>, skipped: nat, cutoff: int)
    | LibrarySkipped
    | WalkStarted(now: int, started: int64)
    | Visit(ask: Ask)
    | VisitsOver(now: int)
    | WalkStored(items: seq<LibraryRow>, result: WalkResult, ended: int, context: Context)
    | PassOver
    | PruneAsked

  function StampableGen(s: State, now: int): nat {
    if ViewAt(s, now).current then s.gen else 0
  }

  function KeyOf(ask: Ask): uint64 {
    ask.key
  }

  function Played(answers: map<Ask, Answer>): Ask -> int64 {
    (ask: Ask) => (var at: int64 := if ask in answers then answers[ask].value else 0; at)
  }

  function WalkConfig(env: Env, l: Library, run: LibraryRun): Config {
    Config(l.kind == ShowType, run.started, Played(run.answers), env.resolutionBucket, env.normalizeCodec)
  }

  function Labelling(l: Library, st: Stats): Stats {
    st.(largest := InLibrary(l, st.largest), recent := InLibrary(l, st.recent))
  }

  /** The figures a walk may store: those of the rows it read, given what it was answered,
      every question it put being one the aggregation asks. */
  ghost predicate Computed(env: Env, l: Library, run: LibraryRun, rows: seq<LibraryRow>, result: WalkResult) {
    result.Figures? ==>
      && StatsOf(WalkConfig(env, l, run), FirstRows(rows), result.stats)
      && run.answers.Keys == Asked(WalkConfig(env, l, run), FirstRows(rows))
  }

  function AttemptOf(run: LibraryRun, result: WalkResult, ended: int, context: Context): Attempt
    requires run.gen1.Some?
  {
    Attempt(run.gen0, run.gen1.value, result, run.started, ended, context)
  }

  // ---- the events ----

  function FullReadEndedAt(env: Env, y: System, rows: seq<HistoryRow>, o: Outcome, now: int, cancelled: bool): System {
    var s := EndBootstrap(env.identity, y.s, rows, o, now);
    y.(s := s, rebuilt := if o == Finished && !cancelled then Some(s.gen) else None)
  }

  function PassStartedAt(y: System, stale: bool, walk: seq<Library>, skipped: nat, cutoff: int): System {
    if stale then
      y.(walker := Between(Pass(true, 0, cutoff, y.s.gen, walk, skipped, 0, true, {})), served := y.s.gen)
    else
      y.(walker := Between(Pass(false, (y.fulls + 1) % 0x1_0000_0000, cutoff, y.s.gen, walk, skipped, 0, true, {})),
         fulls := y.fulls + 1)
  }

  function VisitedAt(y: System, pass: Pass, run: LibraryRun, ask: Ask): System {
    var key := KeyOf(ask);
    var seen := if key in WatchedOf(y.s) then pass.seen + {key} else pass.seen;
    var answer := Answer(VisitAnswer(y.s, key), y.s.gen, y.clock);
    y.(s := Visited(y.s, key, pass.number),
       walker := Reading(pass.(seen := seen), run.(answers := run.answers[ask := answer])))
  }

  function StoredAt(env: Env, y: System, pass: Pass, run: LibraryRun, rows: seq<LibraryRow>, result: WalkResult, ended: int, context: Context): System
    requires run.gen1.Some? && pass.through < |pass.walk|
  {
    var l := pass.walk[pass.through];
    var next := pass.(through := pass.through + 1, allOk := pass.allOk && result.Figures?);
    y.(libs := LibsAfter(y.libs, l, AttemptOf(run, result, ended, context)),
       evidence := if result.Figures? then y.evidence[l.id := Evidence(l, WalkConfig(env, l, run), rows, run, result.stats)] else y.evidence,
       walker := if context != Live then Waiting else Between(next))
  }

  function PassOverAt(y: System, pass: Pass): System {
    if pass.stale then y.(walker := Waiting)
    else
      y.(passDone := true,
         libs := map id | id in y.libs && id in Ids(pass.walk) :: y.libs[id],
         walker := if pass.allOk && pass.skipped == 0 then Pruning(pass) else Waiting)
  }

  function PrunedNow(y: System, pass: Pass): System {
    y.(s := Pruned(y.s, pass.number, pass.cutoff, pass.gen), walker := Waiting)
  }

  /** One event; one that cannot happen now changes nothing but the clock. */
  ghost function Move(env: Env, y: System, e: Event): System {
    match e
    case RowFolded(r) => y.(s := FoldRow(env.identity, y.s, r))
    case ReadEnded(since, start, newest, count, o, now) => y.(s := EndIncrement(y.s, since, start, newest, count, o, now))
    case FullReadEnded(rows, o, now, cancelled) =>
      if y.rebuilt.None? then FullReadEndedAt(env, y, rows, o, now, cancelled) else y
    case SignalSent =>
      if y.rebuilt.Some? then y.(rebuilt := None, signal := true, signalled := y.rebuilt.value) else y
    case SignalTaken =>
      if y.walker.Waiting? && y.signal then y.(signal := false, walker := Signalled) else y
    case PassStarted(stale, sections, walk, skipped, cutoff) =>
      if IsWalkable(sections, walk, skipped) && (if stale then y.walker.Signalled? else y.walker.Waiting?)
      then PassStartedAt(y, stale, walk, skipped, cutoff) else y
    case LibrarySkipped =>
      if y.walker.Between? && y.walker.pass.through < |y.walker.pass.walk|
         && Skips(y.libs, y.walker.pass.walk[y.walker.pass.through], y.walker.pass.stale, y.walker.pass.gen)
      then y.(walker := Between(y.walker.pass.(through := y.walker.pass.through + 1))) else y
    case WalkStarted(now, started) =>
      if y.walker.Between? && y.walker.pass.through < |y.walker.pass.walk|
         && !Skips(y.libs, y.walker.pass.walk[y.walker.pass.through], y.walker.pass.stale, y.walker.pass.gen)
      then y.(walker := Reading(y.walker.pass, LibraryRun(y.clock, StampableGen(y.s, now), None, started, WatchedOf(y.s), map[]))) else y
    case Visit(ask) =>
      if y.walker.Reading? && y.walker.run.gen1.None? && ask !in y.walker.run.answers
      then VisitedAt(y, y.walker.pass, y.walker.run, ask) else y
    case VisitsOver(now) =>
      if y.walker.Reading? && y.walker.run.gen1.None?
      then y.(walker := y.walker.(run := y.walker.run.(gen1 := Some(StampableGen(y.s, now))))) else y
    case WalkStored(items, result, ended, context) =>
      if y.walker.Reading? && y.walker.run.gen1.Some? && y.walker.pass.through < |y.walker.pass.walk|
         && Computed(env, y.walker.pass.walk[y.walker.pass.through], y.walker.run, items, result)
      then StoredAt(env, y, y.walker.pass, y.walker.run, items, result, ended, context) else y
    case PassOver =>
      if y.walker.Between? && y.walker.pass.through == |y.walker.pass.walk| then PassOverAt(y, y.walker.pass) else y
    case PruneAsked =>
      if y.walker.Pruning? then PrunedNow(y, y.walker.pass) else y
  }

  ghost function Next(env: Env, y: System, e: Event): System {
    Move(env, y, e).(clock := y.clock + 1)
  }

  ghost function Run(env: Env, events: seq<Event>): System {
    if events == [] then INITIAL else Next(env, Run(env, events[..|events| - 1]), events[|events| - 1])
  }

  // ---- what every event keeps ----

  /** An answer given at the present generation is no newer than what the map holds now. */
  predicate AnswerOk(y: System, key: uint64, a: Answer) {
    && a.gen <= y.s.gen && a.time < y.clock
    && (a.gen == y.s.gen ==> a.value <= VisitAnswer(y.s, key))
  }

  /** Every key a pass was answered a play for, at its own generation, it saw in the map. */
  predicate AnswersSeen(pass: Pass, answers: map<Ask, Answer>) {
    forall q | q in answers && answers[q].gen == pass.gen && 0 < answers[q].value :: KeyOf(q) in pass.seen
  }

  ghost predicate AnswersOk(y: System, answers: map<Ask, Answer>) {
    forall q | q in answers :: AnswerOk(y, KeyOf(q), answers[q])
  }

  /** Every answer of a walk came from one generation, and none is older than the map was
      when the walk began. */
  ghost predicate OneGeneration(run: LibraryRun) {
    forall q | q in run.answers :: run.answers[q].gen == run.gen0 && At(run.base, KeyOf(q)) <= run.answers[q].value
  }

  /** A library's stored figures are those of the rows and answers of one walk, whose
      answers are of one generation if the figures are stamped with it. */
  ghost predicate Evident(id: string, w: LibWalk, ev: Evidence) {
    && StatsOf(ev.c, FirstRows(ev.rows), ev.stats)
    && ev.c.played == Played(ev.run.answers)
    && ev.run.answers.Keys == Asked(ev.c, FirstRows(ev.rows))
    && ev.library.id == id && w.stats == Labelling(ev.library, ev.stats)
    && (w.stamp != 0 ==> w.stamp == ev.run.gen0 && OneGeneration(ev.run))
  }

  ghost predicate LibraryOk(y: System, id: string) {
    id in y.libs && y.libs[id].walked ==>
      && id in y.evidence && Evident(id, y.libs[id], y.evidence[id]) && AnswersOk(y, y.evidence[id].run.answers)
      && y.libs[id].stamp <= y.s.gen
  }

  /** While the generation a walk began with lasts, its answers are of it and the map only
      grows. */
  ghost predicate RunOk(y: System, run: LibraryRun) {
    && AnswersOk(y, run.answers)
    && run.gen0 <= y.s.gen
    && (run.gen0 != 0 && run.gen1.None? && run.gen0 == y.s.gen ==>
          OneGeneration(run) && forall k: uint64 :: At(run.base, k) <= VisitAnswer(y.s, k))
    && (run.gen0 != 0 && run.gen1 == Some(run.gen0) ==> OneGeneration(run))
  }

  /** While a pass's generation lasts, what it saw is in the map under its number; and
      nothing else is, until the number has gone once around. */
  ghost predicate PassMarks(y: System, pass: Pass) {
    && pass.gen <= y.s.gen
    && (pass.stale ==> pass.number == 0)
    && (!pass.stale ==> 0 < y.fulls && pass.number == y.fulls % 0x1_0000_0000)
    && (pass.gen == y.s.gen ==>
          forall k | k in pass.seen :: k in WatchedOf(y.s) && (pass.number != 0 ==> WatchedOf(y.s)[k].pass == pass.number))
    && (!pass.stale && y.fulls < 0x1_0000_0000 ==>
          forall k | k in WatchedOf(y.s) && WatchedOf(y.s)[k].pass == pass.number :: k in pass.seen)
  }

  ghost predicate MarksBounded(y: System) {
    y.fulls < 0x1_0000_0000 ==> forall k | k in WatchedOf(y.s) :: WatchedOf(y.s)[k].pass <= y.fulls
  }

  predicate LibraryFine(y: System, l: Library) {
    l.id in y.libs && y.libs[l.id].walked && !y.libs[l.id].failed
  }

  /** The library's stored figures rest on answers whose keys the pass saw. */
  predicate LibrarySeen(y: System, pass: Pass, l: Library) {
    l.id in y.evidence && AnswersSeen(pass, y.evidence[l.id].run.answers)
  }

  /** A full pass that has had no failure has walked every library it got through, and their
      figures rest on what it saw. */
  ghost predicate PassFine(y: System, pass: Pass) {
    && pass.through <= |pass.walk|
    && (exists sections: seq<Library> :: IsWalkable(sections, pass.walk, pass.skipped))
    && (!pass.stale && pass.allOk ==> forall i | 0 <= i < pass.through :: LibraryFine(y, pass.walk[i]) && LibrarySeen(y, pass, pass.walk[i]))
  }

  ghost predicate WalkerOk(y: System) {
    match y.walker
    case Waiting => true
    case Signalled => true
    case Between(pass) => PassMarks(y, pass) && PassFine(y, pass)
    case Reading(pass, run) =>
      PassMarks(y, pass) && PassFine(y, pass) && RunOk(y, run) && AnswersSeen(pass, run.answers)
      && pass.through < |pass.walk|
    case Pruning(pass) =>
      PassMarks(y, pass) && PassFine(y, pass)
      && !pass.stale && pass.allOk && pass.skipped == 0 && pass.through == |pass.walk|
      && forall id | id in y.libs :: id in Ids(pass.walk)
  }

  /** A signalled rebuild waits in the channel, is about to be served, or was served by a
      stale-only pass that took a generation no older. */
  predicate SignalOk(y: System) {
    && y.signalled <= y.s.gen && y.served <= y.s.gen
    && (y.rebuilt.Some? ==> y.rebuilt.value <= y.s.gen)
    && (y.signal || y.walker.Signalled? || y.signalled <= y.served)
  }

  ghost predicate Inv(y: System) {
    && (y.s.tables.Some? <==> y.s.status == Complete)
    && (forall id: string :: LibraryOk(y, id))
    && WalkerOk(y) && MarksBounded(y) && SignalOk(y)
  }

  // ---- events of the history reader ----

  /** What a history event does to the map under the others: it grows with its marks kept,
      or a full read ended and nothing is marked. */
  ghost predicate Moves(s: State, t: State) {
    if s.gen == t.gen then
      && (forall k | k in WatchedOf(s) :: k in WatchedOf(t) && WatchedOf(t)[k].pass == WatchedOf(s)[k].pass)
      && (forall k | k in WatchedOf(t) && k !in WatchedOf(s) :: WatchedOf(t)[k].pass == 0)
      && (forall k: uint64 :: VisitAnswer(s, k) <= VisitAnswer(t, k))
    else
      s.gen < t.gen && forall k | k in WatchedOf(t) :: WatchedOf(t)[k].pass == 0
  }

  lemma FoldMoves(identity: HistoryRow -> uint64, s: State, r: HistoryRow)
    ensures Moves(s, FoldRow(identity, s, r))
  {
    hide Count;
  }

  lemma {:induction false} FreshTablesUnmarked(identity: HistoryRow -> uint64, rows: seq<HistoryRow>)
    ensures forall k | k in FoldAll(identity, EMPTY, rows).watched :: FoldAll(identity, EMPTY, rows).watched[k].pass == 0
  {
    hide Count;
    if rows != [] {
      FreshTablesUnmarked(identity, rows[..|rows| - 1]);
    }
  }

  lemma FullReadMoves(identity: HistoryRow -> uint64, s: State, rows: seq<HistoryRow>, o: Outcome, now: int)
    ensures Moves(s, EndBootstrap(identity, s, rows, o, now))
  {
    FreshTablesUnmarked(identity, rows);
  }

  lemma MovesAnswers(y: System, z: System, answers: map<Ask, Answer>)
    requires Moves(y.s, z.s) && y.clock <= z.clock && AnswersOk(y, answers)
    ensures AnswersOk(z, answers)
  {
    forall q | q in answers ensures AnswerOk(z, KeyOf(q), answers[q]) {
      assert AnswerOk(y, KeyOf(q), answers[q]);
    }
  }

  lemma MovesRun(y: System, z: System, run: LibraryRun)
    requires Moves(y.s, z.s) && y.clock <= z.clock && RunOk(y, run)
    ensures RunOk(z, run)
  {
    hide OneGeneration, AnswersOk;
    MovesAnswers(y, z, run.answers);
    if run.gen0 != 0 && run.gen1.None? && run.gen0 == z.s.gen {
      forall k: uint64 ensures At(run.base, k) <= VisitAnswer(z.s, k) {
        assert At(run.base, k) <= VisitAnswer(y.s, k) <= VisitAnswer(z.s, k);
      }
    }
  }

  lemma MovesMarks(y: System, z: System, pass: Pass)
    requires Moves(y.s, z.s) && z.fulls == y.fulls && PassMarks(y, pass) && MarksBounded(y)
    ensures PassMarks(z, pass)
  {
    if !pass.stale && z.fulls < 0x1_0000_0000 {
      forall k | k in WatchedOf(z.s) && WatchedOf(z.s)[k].pass == pass.number ensures k in pass.seen {
        assert k in WatchedOf(y.s) && WatchedOf(y.s)[k].pass == pass.number;
      }
    }
  }

  lemma MovesBounded(y: System, z: System)
    requires Moves(y.s, z.s) && z.fulls == y.fulls && MarksBounded(y)
    ensures MarksBounded(z)
  {
  }

  lemma MovesLibraries(y: System, z: System)
    requires Moves(y.s, z.s) && y.clock <= z.clock
    requires z.libs == y.libs && z.evidence == y.evidence && forall id: string :: LibraryOk(y, id)
    ensures forall id: string :: LibraryOk(z, id)
  {
    hide Moves, AnswersOk, Evident;
    GenMoves(y.s, z.s);
    forall id: string ensures LibraryOk(z, id) {
      assert LibraryOk(y, id);
      if id in y.libs && y.libs[id].walked {
        MovesAnswers(y, z, y.evidence[id].run.answers);
      }
    }
  }

  /** A history event keeps everything the walk relies on. */
  lemma HistoryMoves(y: System, z: System)
    requires Inv(y) && Moves(y.s, z.s) && (z.s.tables.Some? <==> z.s.status == Complete)
    requires z == y.(s := z.s, clock := y.clock + 1, rebuilt := z.rebuilt)
    requires z.rebuilt.Some? ==> z.rebuilt.value <= z.s.gen
    ensures Inv(z)
  {
    hide Moves, LibraryOk, PassMarks, RunOk, MarksBounded;
    MovesLibraries(y, z);
    MovesBounded(y, z);
    assert y.s.gen <= z.s.gen by { GenMoves(y.s, z.s); }
    if y.walker.Between? || y.walker.Reading? || y.walker.Pruning? {
      MovesMarks(y, z, y.walker.pass);
      SameLibraries(y, z, y.walker.pass);
    }
    if y.walker.Reading? {
      MovesRun(y, z, y.walker.run);
    }
  }

  lemma GenMoves(s: State, t: State)
    requires Moves(s, t)
    ensures s.gen <= t.gen
  {
  }

  lemma SameLibraries(y: System, z: System, pass: Pass)
    requires PassFine(y, pass) && z.libs == y.libs && z.evidence == y.evidence
    ensures PassFine(z, pass)
  {
    forall i | 0 <= i < pass.through && !pass.stale && pass.allOk
      ensures LibraryFine(z, pass.walk[i]) && LibrarySeen(z, pass, pass.walk[i])
    {
      assert LibraryFine(y, pass.walk[i]) && LibrarySeen(y, pass, pass.walk[i]);
    }
  }

  lemma HistoryEvent(env: Env, y: System, e: Event)
    requires Inv(y) && (e.RowFolded? || e.ReadEnded? || e.FullReadEnded?)
    ensures Inv(Next(env, y, e))
  {
    hide Inv, Moves, FoldRow, FoldAll, NewestTime, ViewAt, FullReadEndedAt;
    InvParts(y);
    match e {
      case RowFolded(r) =>
        FoldMoves(env.identity, y.s, r);
        FoldKeeps(env.identity, y.s, r);
        HistoryMoves(y, Next(env, y, e));
      case ReadEnded(since, start, newest, count, o, now) =>
        ReadEndedEvent(y, since, start, newest, count, o, now);
      case FullReadEnded(rows, o, now, cancelled) =>
        Idle(y);
        if y.rebuilt.None? {
          FullReadEvent(env, y, rows, o, now, cancelled);
        }
    }
  }

  lemma ReadEndedEvent(y: System, since: int, start: nat, newest: int, count: nat, o: Outcome, now: int)
    requires Inv(y)
    ensures Inv(y.(s := EndIncrement(y.s, since, start, newest, count, o, now), clock := y.clock + 1))
  {
    hide Inv, Moves;
    InvParts(y);
    var s := EndIncrement(y.s, since, start, newest, count, o, now);
    SameTablesMove(y.s, s);
    HistoryMoves(y, y.(s := s, clock := y.clock + 1));
  }

  lemma FullReadEvent(env: Env, y: System, rows: seq<HistoryRow>, o: Outcome, now: int, cancelled: bool)
    requires Inv(y) && y.rebuilt.None?
    ensures Inv(FullReadEndedAt(env, y, rows, o, now, cancelled).(clock := y.clock + 1))
  {
    hide Inv, Moves, FoldAll, NewestTime;
    InvParts(y);
    FullReadMoves(env.identity, y.s, rows, o, now);
    HistoryMoves(y, FullReadEndedAt(env, y, rows, o, now, cancelled).(clock := y.clock + 1));
  }

  lemma Idle(y: System)
    requires Inv(y)
    ensures Inv(y.(clock := y.clock + 1))
  {
    hide Inv, Moves;
    InvParts(y);
    SameTablesMove(y.s, y.s);
    HistoryMoves(y, y.(clock := y.clock + 1));
  }

  lemma InvParts(y: System)
    requires Inv(y)
    ensures (y.s.tables.Some? <==> y.s.status == Complete) && SignalOk(y)
  {
  }

  lemma FoldKeeps(identity: HistoryRow -> uint64, s: State, r: HistoryRow)
    ensures FoldRow(identity, s, r) == s.(tables := FoldRow(identity, s, r).tables)
    ensures FoldRow(identity, s, r).tables.Some? == s.tables.Some?
  {
  }

  lemma SameTablesMove(s: State, t: State)
    requires t.tables == s.tables && t.gen == s.gen
    ensures Moves(s, t)
  {
  }

  // ---- events of the signal and the walk ----

  /** Nothing but the walker, the channel and the clock changes. */
  ghost predicate SameFigures(y: System, z: System) {
    z.s == y.s && z.libs == y.libs && z.evidence == y.evidence && z.clock == y.clock + 1
  }

  lemma SameFiguresKept(y: System, z: System)
    requires SameFigures(y, z) && forall id: string :: LibraryOk(y, id)
    ensures forall id: string :: LibraryOk(z, id)
    ensures Moves(y.s, z.s)
  {
    hide LibraryOk, Moves;
    SameTablesMove(y.s, z.s);
    MovesLibraries(y, z);
  }

  lemma SignalEvent(env: Env, y: System, e: Event)
    requires Inv(y) && (e.SignalSent? || e.SignalTaken?)
    ensures Inv(Next(env, y, e))
  {
    hide LibraryOk, PassMarks, PassFine, RunOk, MarksBounded, Moves;
    var z := Next(env, y, e);
    SameFiguresKept(y, z);
    WalkerKept(y, z);
    MovesBounded(y, z);
  }

  /** A walker that does not move stays as it was. */
  lemma WalkerKept(y: System, z: System)
    requires SameFigures(y, z) && z.fulls == y.fulls && WalkerOk(y) && MarksBounded(y) && Moves(y.s, z.s)
    requires z.walker == y.walker || !(z.walker.Between? || z.walker.Reading? || z.walker.Pruning?)
    ensures WalkerOk(z)
  {
    hide Moves, PassMarks, PassFine, RunOk, MarksBounded;
    if z.walker.Between? || z.walker.Reading? || z.walker.Pruning? {
      MovesMarks(y, z, z.walker.pass);
      SameLibraries(y, z, z.walker.pass);
    }
    if z.walker.Reading? {
      MovesRun(y, z, z.walker.run);
    }
  }

  lemma PassStartedEvent(env: Env, y: System, stale: bool, sections: seq<Library>, walk: seq<Library>, skipped: nat, cutoff: int)
    requires Inv(y) && IsWalkable(sections, walk, skipped) && (if stale then y.walker.Signalled? else y.walker.Waiting?)
    ensures Inv(PassStartedAt(y, stale, walk, skipped, cutoff).(clock := y.clock + 1))
  {
    hide LibraryOk, Moves, IsWalkable;
    var z := PassStartedAt(y, stale, walk, skipped, cutoff).(clock := y.clock + 1);
    SameFiguresKept(y, z);
    assert MarksBounded(z);
    assert PassMarks(z, z.walker.pass);
    assert PassFine(z, z.walker.pass);
  }

  lemma LibrarySkippedEvent(y: System, pass: Pass)
    requires Inv(y) && y.walker == Between(pass) && pass.stale && pass.through < |pass.walk|
    ensures Inv(y.(walker := Between(pass.(through := pass.through + 1)), clock := y.clock + 1))
  {
    hide LibraryOk, Moves, MarksBounded;
    var z := y.(walker := Between(pass.(through := pass.through + 1)), clock := y.clock + 1);
    SameFiguresKept(y, z);
    MovesBounded(y, z);
    assert PassMarks(z, z.walker.pass);
  }

  lemma WalkStartedEvent(y: System, pass: Pass, now: int, started: int64)
    requires Inv(y) && y.walker == Between(pass) && pass.through < |pass.walk|
    ensures Inv(y.(walker := Reading(pass, LibraryRun(y.clock, StampableGen(y.s, now), None, started, WatchedOf(y.s), map[])),
                   clock := y.clock + 1))
  {
    hide LibraryOk, Moves, MarksBounded, PassMarks, PassFine;
    var run := LibraryRun(y.clock, StampableGen(y.s, now), None, started, WatchedOf(y.s), map[]);
    var z := y.(walker := Reading(pass, run), clock := y.clock + 1);
    SameFiguresKept(y, z);
    MovesBounded(y, z);
    MovesMarks(y, z, pass);
    SameLibraries(y, z, pass);
    assert RunOk(z, run);
  }

  lemma VisitsOverEvent(y: System, pass: Pass, run: LibraryRun, now: int)
    requires Inv(y) && y.walker == Reading(pass, run) && run.gen1.None?
    ensures Inv(y.(walker := Reading(pass, run.(gen1 := Some(StampableGen(y.s, now)))), clock := y.clock + 1))
  {
    hide LibraryOk, Moves, MarksBounded, PassMarks, PassFine, AnswersOk;
    var over := run.(gen1 := Some(StampableGen(y.s, now)));
    var z := y.(walker := Reading(pass, over), clock := y.clock + 1);
    SameFiguresKept(y, z);
    MovesBounded(y, z);
    MovesMarks(y, z, pass);
    SameLibraries(y, z, pass);
    MovesAnswers(y, z, over.answers);
    assert RunOk(z, over);
  }

  // ---- a visit ----

  lemma VisitedKeeps(s: State, key: uint64, pass: uint32)
    ensures Visited(s, key, pass) == s.(tables := Visited(s, key, pass).tables)
    ensures Visited(s, key, pass).tables.Some? == s.tables.Some?
    ensures forall k: uint64 :: VisitAnswer(Visited(s, key, pass), k) == VisitAnswer(s, k)
    ensures forall k :: k in WatchedOf(Visited(s, key, pass)) <==> k in WatchedOf(s)
    ensures forall k | k in WatchedOf(s) ::
              WatchedOf(Visited(s, key, pass))[k].pass == if k == key && pass != 0 then pass else WatchedOf(s)[k].pass
  {
  }

  lemma VisitAnswersKept(y: System, z: System, answers: map<Ask, Answer>)
    requires z.s.gen == y.s.gen && y.clock <= z.clock && AnswersOk(y, answers)
    requires forall k: uint64 :: VisitAnswer(z.s, k) == VisitAnswer(y.s, k)
    ensures AnswersOk(z, answers)
  {
    forall q | q in answers ensures AnswerOk(z, KeyOf(q), answers[q]) {
      assert AnswerOk(y, KeyOf(q), answers[q]);
    }
  }

  lemma VisitLibrariesKept(y: System, z: System)
    requires z.s.gen == y.s.gen && y.clock <= z.clock
    requires z.libs == y.libs && z.evidence == y.evidence && forall id: string :: LibraryOk(y, id)
    requires forall k: uint64 :: VisitAnswer(z.s, k) == VisitAnswer(y.s, k)
    ensures forall id: string :: LibraryOk(z, id)
  {
    hide AnswersOk, Evident;
    forall id: string ensures LibraryOk(z, id) {
      assert LibraryOk(y, id);
      if id in y.libs && y.libs[id].walked {
        VisitAnswersKept(y, z, y.evidence[id].run.answers);
      }
    }
  }

  lemma VisitRun(y: System, z: System, run: LibraryRun, ask: Ask)
    requires RunOk(y, run) && run.gen1.None? && z.s.gen == y.s.gen && z.clock == y.clock + 1
    requires forall k: uint64 :: VisitAnswer(z.s, k) == VisitAnswer(y.s, k)
    ensures RunOk(z, run.(answers := run.answers[ask := Answer(VisitAnswer(y.s, KeyOf(ask)), y.s.gen, y.clock)]))
  {
    var answers := run.answers[ask := Answer(VisitAnswer(y.s, KeyOf(ask)), y.s.gen, y.clock)];
    VisitAnswersKept(y, z, run.answers);
    forall q | q in answers ensures AnswerOk(z, KeyOf(q), answers[q]) {
      assert q != ask ==> AnswerOk(z, KeyOf(q), run.answers[q]);
    }
    if run.gen0 != 0 && run.gen0 == y.s.gen {
      forall q | q in answers ensures answers[q].gen == run.gen0 && At(run.base, KeyOf(q)) <= answers[q].value {
        assert At(run.base, KeyOf(q)) <= VisitAnswer(y.s, KeyOf(q));
      }
    }
  }

  lemma VisitMarks(y: System, z: System, pass: Pass, key: uint64, seen: set<uint64>)
    requires z.s == Visited(y.s, key, pass.number) && z.fulls == y.fulls
    requires seen == if key in WatchedOf(y.s) then pass.seen + {key} else pass.seen
    requires PassMarks(y, pass) && MarksBounded(y)
    ensures PassMarks(z, pass.(seen := seen)) && MarksBounded(z)
  {
    hide Visited;
    VisitedKeeps(y.s, key, pass.number);
  }

  lemma SeenMore(y: System, pass: Pass, seen: set<uint64>)
    requires PassFine(y, pass) && pass.seen <= seen
    ensures PassFine(y, pass.(seen := seen))
  {
    hide IsWalkable;
    forall i | 0 <= i < pass.through && !pass.stale && pass.allOk
      ensures LibraryFine(y, pass.walk[i]) && LibrarySeen(y, pass.(seen := seen), pass.walk[i])
    {
      assert LibraryFine(y, pass.walk[i]) && LibrarySeen(y, pass, pass.walk[i]);
    }
  }

  lemma VisitSeesAnswer(y: System, pass: Pass, run: LibraryRun, ask: Ask)
    requires AnswersSeen(pass, run.answers)
    ensures var z := VisitedAt(y, pass, run, ask);
            && pass.seen <= z.walker.pass.seen && z.walker.pass == pass.(seen := z.walker.pass.seen)
            && AnswersSeen(z.walker.pass, z.walker.run.answers)
  {
    hide Visited;
  }

  lemma VisitEvent(y: System, pass: Pass, run: LibraryRun, ask: Ask)
    requires Inv(y) && y.walker == Reading(pass, run) && run.gen1.None?
    ensures Inv(VisitedAt(y, pass, run, ask).(clock := y.clock + 1))
  {
    hide LibraryOk, MarksBounded, PassMarks, PassFine, AnswersSeen, RunOk, Visited, VisitAnswer;
    var z := VisitedAt(y, pass, run, ask).(clock := y.clock + 1);
    VisitedKeeps(y.s, KeyOf(ask), pass.number);
    VisitLibrariesKept(y, z);
    VisitRun(y, z, run, ask);
    VisitMarks(y, z, pass, KeyOf(ask), z.walker.pass.seen);
    VisitSeesAnswer(y, pass, run, ask);
    SameLibraries(y, z, pass);
    SeenMore(z, pass, z.walker.pass.seen);
  }

  // ---- the end of a walk and of a pass ----

  lemma StoredEvident(env: Env, l: Library, run: LibraryRun, items: seq<LibraryRow>, result: WalkResult, ended: int, context: Context, before: LibWalk)
    requires run.gen1.Some? && result.Figures? && Computed(env, l, run, items, result)
    requires run.gen0 != 0 && run.gen1 == Some(run.gen0) ==> OneGeneration(run)
    ensures Evident(l.id, EntryAfter(before, l, AttemptOf(run, result, ended, context)),
                    Evidence(l, WalkConfig(env, l, run), items, run, result.stats))
  {
    hide StatsOf, Asked, OneGeneration, FirstRows;
    var w := EntryAfter(before, l, AttemptOf(run, result, ended, context));
    assert w.stats == Labelling(l, result.stats);
  }

  lemma FailureKeepsEvident(id: string, w: LibWalk, ev: Evidence)
    requires Evident(id, w, ev)
    ensures Evident(id, w.(failed := true), ev)
  {
    hide StatsOf, Asked, OneGeneration, FirstRows;
  }

  lemma StoredLibrary(env: Env, y: System, z: System, pass: Pass, run: LibraryRun, items: seq<LibraryRow>, result: WalkResult,
                      ended: int, context: Context, id: string)
    requires run.gen1.Some? && pass.through < |pass.walk| && RunOk(z, run)
    requires Computed(env, pass.walk[pass.through], run, items, result) && LibraryOk(y, id)
    requires z == StoredAt(env, y, pass, run, items, result, ended, context).(clock := y.clock + 1)
    requires id in y.libs && y.libs[id].walked ==> AnswersOk(z, y.evidence[id].run.answers)
    ensures LibraryOk(z, id)
  {
    hide Evident, Computed, AnswersOk, OneGeneration, InLibrary, WalkConfig;
    var l := pass.walk[pass.through];
    if id == l.id {
      if result.Figures? {
        StoredEvident(env, l, run, items, result, ended, context, EntryOf(y.libs, id));
      } else if id in y.libs && y.libs[id].walked {
        FailureKeepsEvident(id, y.libs[id], y.evidence[id]);
      }
    }
  }

  lemma StoredFine(env: Env, y: System, z: System, pass: Pass, run: LibraryRun, items: seq<LibraryRow>, result: WalkResult,
                   ended: int, context: Context)
    requires run.gen1.Some? && pass.through < |pass.walk| && PassFine(y, pass) && AnswersSeen(pass, run.answers)
    requires z == StoredAt(env, y, pass, run, items, result, ended, context).(clock := y.clock + 1)
    ensures PassFine(z, pass.(through := pass.through + 1, allOk := pass.allOk && result.Figures?))
  {
    hide InLibrary, IsWalkable, WalkConfig;
    if !pass.stale && pass.allOk && result.Figures? {
      var next := pass.(through := pass.through + 1);
      forall i | 0 <= i < pass.through + 1 ensures LibraryFine(z, pass.walk[i]) && LibrarySeen(z, next, pass.walk[i]) {
        assert i < pass.through ==> LibraryFine(y, pass.walk[i]) && LibrarySeen(y, pass, pass.walk[i]);
      }
    }
  }

  lemma WalkStoredEvent(env: Env, y: System, pass: Pass, run: LibraryRun, items: seq<LibraryRow>, result: WalkResult,
                        ended: int, context: Context)
    requires Inv(y) && y.walker == Reading(pass, run) && run.gen1.Some? && pass.through < |pass.walk|
    requires Computed(env, pass.walk[pass.through], run, items, result)
    ensures Inv(StoredAt(env, y, pass, run, items, result, ended, context).(clock := y.clock + 1))
  {
    hide Moves, MarksBounded, PassMarks, PassFine, AnswersSeen, RunOk, Computed, Evident, AnswersOk, LibsAfter;
    var z := StoredAt(env, y, pass, run, items, result, ended, context).(clock := y.clock + 1);
    SameTablesMove(y.s, z.s);
    MovesBounded(y, z);
    MovesRun(y, z, run);
    forall id: string ensures LibraryOk(z, id) {
      assert LibraryOk(y, id);
      if id in y.libs && y.libs[id].walked {
        MovesAnswers(y, z, y.evidence[id].run.answers);
      }
      StoredLibrary(env, y, z, pass, run, items, result, ended, context, id);
    }
    if context == Live {
      MovesMarks(y, z, pass);
      MarksOf(z, pass, z.walker.pass);
      StoredFine(env, y, z, pass, run, items, result, ended, context);
    }
  }

  lemma MarksOf(y: System, pass: Pass, next: Pass)
    requires PassMarks(y, pass) && next == pass.(through := next.through, allOk := next.allOk)
    ensures PassMarks(y, next)
  {
  }

  lemma PassOverEvent(y: System, pass: Pass)
    requires Inv(y) && y.walker == Between(pass) && pass.through == |pass.walk|
    ensures Inv(PassOverAt(y, pass).(clock := y.clock + 1))
  {
    hide Moves, MarksBounded, PassMarks, PassFine, LibraryOk, PassOverAt;
    var z := PassOverAt(y, pass).(clock := y.clock + 1);
    PassOverKeeps(y, z, pass);
    SameTablesMove(y.s, z.s);
    MovesBounded(y, z);
    forall id: string ensures LibraryOk(z, id) {
      ForgottenLibrary(y, z, id);
    }
    if z.walker.Pruning? {
      MovesMarks(y, z, pass);
      assert PassFine(y, pass);
      FineAfterPass(y, z, pass);
    }
  }

  lemma PassOverKeeps(y: System, z: System, pass: Pass)
    requires z == PassOverAt(y, pass).(clock := y.clock + 1)
    ensures z == y.(libs := z.libs, walker := z.walker, passDone := z.passDone, clock := y.clock + 1)
    ensures forall id | id in z.libs :: id in y.libs && z.libs[id] == y.libs[id]
    ensures z.walker.Waiting? || (z.walker == Pruning(pass) && !pass.stale && pass.allOk && pass.skipped == 0
                                  && forall id | id in z.libs :: id in Ids(pass.walk))
  {
  }

  lemma ForgottenLibrary(y: System, z: System, id: string)
    requires LibraryOk(y, id) && Moves(y.s, z.s) && z.s == y.s && y.clock <= z.clock
    requires z.evidence == y.evidence && (id in z.libs ==> id in y.libs && z.libs[id] == y.libs[id])
    ensures LibraryOk(z, id)
  {
    hide Moves, AnswersOk, Evident;
    if id in z.libs && z.libs[id].walked {
      MovesAnswers(y, z, y.evidence[id].run.answers);
    }
  }

  lemma FineAfterPass(y: System, z: System, pass: Pass)
    requires z == PassOverAt(y, pass).(clock := y.clock + 1) && PassFine(y, pass) && !pass.stale
    ensures PassFine(z, pass)
  {
    hide IsWalkable;
    if pass.allOk {
      forall i | 0 <= i < pass.through ensures LibraryFine(z, pass.walk[i]) && LibrarySeen(z, pass, pass.walk[i]) {
        assert LibraryFine(y, pass.walk[i]) && LibrarySeen(y, pass, pass.walk[i]);
        assert pass.walk[i] in pass.walk;
      }
    }
  }

  // ---- a prune ----

  lemma PruneKeeps(s: State, pass: uint32, cutoff: int, gen: nat)
    ensures Pruned(s, pass, cutoff, gen) == s.(tables := Pruned(s, pass, cutoff, gen).tables)
    ensures Pruned(s, pass, cutoff, gen).tables.Some? == s.tables.Some?
    ensures WatchedOf(Pruned(s, pass, cutoff, gen)).Keys <= WatchedOf(s).Keys
    ensures forall k | k in WatchedOf(Pruned(s, pass, cutoff, gen)) :: WatchedOf(Pruned(s, pass, cutoff, gen))[k] == WatchedOf(s)[k]
  {
  }

  /** What a pass saw its own prune spares, so answers that rest on what it saw stand. */
  lemma PruneAnswers(y: System, z: System, pass: Pass, answers: map<Ask, Answer>)
    requires z == PrunedNow(y, pass).(clock := y.clock + 1) && AnswersOk(y, answers)
    requires PassMarks(y, pass) && !pass.stale && AnswersSeen(pass, answers)
    ensures AnswersOk(z, answers)
  {
    hide Pruned, PassMarks;
    PruneKeeps(y.s, pass.number, pass.cutoff, pass.gen);
    PruneSafeFrom(y, pass);
    forall q | q in answers ensures AnswerOk(z, KeyOf(q), answers[q]) {
      assert AnswerOk(y, KeyOf(q), answers[q]);
    }
  }

  lemma PruneLibrary(y: System, z: System, pass: Pass, id: string)
    requires z == PrunedNow(y, pass).(clock := y.clock + 1) && LibraryOk(y, id) && id in y.libs && y.libs[id].walked
    requires PassMarks(y, pass) && PassFine(y, pass) && !pass.stale && pass.allOk && pass.through == |pass.walk| && id in Ids(pass.walk)
    ensures LibraryOk(z, id)
  {
    hide PassMarks, AnswersOk, Evident, Pruned, IsWalkable, LibraryFine, AnswersSeen;
    PruneKeeps(y.s, pass.number, pass.cutoff, pass.gen);
    var i :| 0 <= i < |pass.walk| && pass.walk[i].id == id;
    assert LibrarySeen(y, pass, pass.walk[i]);
    PruneAnswers(y, z, pass, y.evidence[id].run.answers);
  }

  /** A prune comes only after a full pass has replaced the figures of every library there is,
      so none rests on an answer that the prune takes back. */
  lemma PruneEvent(y: System, pass: Pass)
    requires Inv(y) && y.walker == Pruning(pass)
    ensures Inv(PrunedNow(y, pass).(clock := y.clock + 1))
  {
    hide PassMarks, PassFine, Evident, AnswersOk, Pruned;
    var z := PrunedNow(y, pass).(clock := y.clock + 1);
    PruneKeeps(y.s, pass.number, pass.cutoff, pass.gen);
    forall id: string ensures LibraryOk(z, id) {
      assert LibraryOk(y, id);
      if id in y.libs && y.libs[id].walked {
        PruneLibrary(y, z, pass, id);
      }
    }
  }

  // ---- every run ----

  lemma NextInv(env: Env, y: System, e: Event)
    requires Inv(y)
    ensures Inv(Next(env, y, e))
  {
    hide LibraryOk, PassMarks, PassFine, RunOk, MarksBounded, SignalOk, Computed, IsWalkable, StatsOf, StoredAt, PrunedNow,
      PassOverAt, VisitedAt, FullReadEndedAt, PassStartedAt;
    Idle(y);
    match e {
      case RowFolded(_) => HistoryEvent(env, y, e);
      case ReadEnded(_, _, _, _, _, _) => HistoryEvent(env, y, e);
      case FullReadEnded(_, _, _, _) => HistoryEvent(env, y, e);
      case SignalSent => SignalEvent(env, y, e);
      case SignalTaken => SignalEvent(env, y, e);
      case PassStarted(stale, sections, walk, skipped, cutoff) =>
        if IsWalkable(sections, walk, skipped) && (if stale then y.walker.Signalled? else y.walker.Waiting?) {
          PassStartedEvent(env, y, stale, sections, walk, skipped, cutoff);
        }
      case LibrarySkipped =>
        if Next(env, y, e) != y.(clock := y.clock + 1) {
          LibrarySkippedEvent(y, y.walker.pass);
        }
      case WalkStarted(now, started) =>
        if Next(env, y, e) != y.(clock := y.clock + 1) {
          WalkStartedEvent(y, y.walker.pass, now, started);
        }
      case Visit(ask) =>
        if y.walker.Reading? && y.walker.run.gen1.None? {
          VisitEvent(y, y.walker.pass, y.walker.run, ask);
        }
      case VisitsOver(now) =>
        if y.walker.Reading? && y.walker.run.gen1.None? {
          VisitsOverEvent(y, y.walker.pass, y.walker.run, now);
        }
      case WalkStored(items, result, ended, context) =>
        if y.walker.Reading? && y.walker.run.gen1.Some? && y.walker.pass.through < |y.walker.pass.walk|
           && Computed(env, y.walker.pass.walk[y.walker.pass.through], y.walker.run, items, result) {
          WalkStoredEvent(env, y, y.walker.pass, y.walker.run, items, result, ended, context);
        }
      case PassOver =>
        if y.walker.Between? && y.walker.pass.through == |y.walker.pass.walk| {
          PassOverEvent(y, y.walker.pass);
        }
      case PruneAsked =>
        if y.walker.Pruning? {
          PruneEvent(y, y.walker.pass);
        }
    }
  }

  lemma {:induction false} RunInv(env: Env, events: seq<Event>)
    ensures Inv(Run(env, events))
  {
    hide Inv, Next;
    if events == [] {
      assert Inv(INITIAL) by { InitialInv(); }
    } else {
      RunInv(env, events[..|events| - 1]);
      NextInv(env, Run(env, events[..|events| - 1]), events[|events| - 1]);
    }
  }

  lemma InitialInv()
    ensures Inv(INITIAL)
  {
  }

  // ---- what a scrape may rely on ----

  function SnapshotAt(y: System, sections: seq<Library>, now: int): Snapshot {
    Snapshot(sections, y.libs, y.passDone, true, ViewAt(y.s, now))
  }

  /** An answer is no older than the map its walk began with, and no newer than the map now. */
  predicate Bracketed(y: System, run: LibraryRun, q: Ask) {
    q in run.answers ==>
      && At(run.base, KeyOf(q)) <= run.answers[q].value
      && run.answers[q].value <= VisitAnswer(y.s, KeyOf(q))
  }

  /** In every interleaving, a library's published watch figures are exactly the aggregation
      of one walk's rows, every question of which was answered by the map of the generation
      current now. */
  lemma PublishedFiguresAreCurrent(env: Env, events: seq<Event>, sections: seq<Library>, l: Library, now: int)
    requires Publishes(SnapshotAt(Run(env, events), sections, now), l)
    ensures var y := Run(env, events);
            && l.id in y.evidence
            && var ev := y.evidence[l.id];
            && StatsOf(ev.c, FirstRows(ev.rows), ev.stats)
            && ev.c.played == Played(ev.run.answers) && ev.run.answers.Keys == Asked(ev.c, FirstRows(ev.rows))
            && ev.library.id == l.id && y.libs[l.id].stats == Labelling(ev.library, ev.stats)
            && (forall q | q in ev.run.answers :: ev.run.answers[q].gen == y.s.gen)
            && (forall q: Ask :: Bracketed(y, ev.run, q))
  {
    hide StatsOf, Asked, FirstRows, Run;
    var y := Run(env, events);
    RunInv(env, events);
    assert LibraryOk(y, l.id);
    var ev := y.evidence[l.id];
    forall q: Ask ensures Bracketed(y, ev.run, q) {
      assert q in ev.run.answers ==> AnswerOk(y, KeyOf(q), ev.run.answers[q]);
    }
  }

  /** As soon as a full read ends, whatever its outcome, no library publishes watch figures. */
  lemma RebuildWithdrawsFigures(env: Env, events: seq<Event>, e: Event, sections: seq<Library>, l: Library, now: int)
    requires e.FullReadEnded? && Run(env, events).rebuilt.None?
    ensures !Publishes(SnapshotAt(Next(env, Run(env, events), e), sections, now), l)
  {
    hide Evident, AnswersOk, Run, FoldAll, NewestTime;
    RunInv(env, events);
    assert LibraryOk(Run(env, events), l.id);
  }

  // ---- the newest items of the server ----

  /** The entries of a set in some order. */
  ghost function InSomeOrder(items: set<Ranking.Item>): (list: seq<Ranking.Item>)
    ensures multiset(list) == multiset(items)
  {
    if items == {} then []
    else
      var it :| it in items;
      assert multiset(items) == multiset(items - {it}) + multiset{it};
      InSomeOrder(items - {it}) + [it]
  }

  /** All that the last successful walk of a library could list as new, each item labelled
      with its library. */
  ghost function NewItems(y: System, l: Library): seq<Ranking.Item> {
    if l.id in y.evidence then
      var ev := y.evidence[l.id];
      InLibrary(ev.library, InSomeOrder(RecentEntries(ev.c, FirstRows(ev.rows))))
    else []
  }

  lemma RecentIsTop(y: System, l: Library)
    requires LibraryOk(y, l.id) && l.id in y.libs && y.libs[l.id].walked
    ensures Ranking.IsTop(Ranking.ByAdded, y.libs[l.id].stats.recent, multiset(NewItems(y, l)))
  {
    hide Ranking.IsTop, RecentEntries, LargestEntries, FirstRows, AnswersOk, OneGeneration, LabelsExact, WatchExact, CountsExact, Asked,
      InLibrary;
    var ev := y.evidence[l.id];
    LabelledTop(Ranking.ByAdded, ev.library, ev.stats.recent, InSomeOrder(RecentEntries(ev.c, FirstRows(ev.rows))));
  }

  /** In every interleaving the newest items a scrape publishes are the newest ten among
      everything the walked libraries hold, though each walk kept only its own ten. */
  lemma PublishedNewestIsOfAll(env: Env, events: seq<Event>, sections: seq<Library>, walkable: seq<Library>, now: int, newest: seq<Ranking.Item>)
    requires Ranking.IsTop(Ranking.ByAdded, newest, Ranking.Joined(RecentLists(SnapshotAt(Run(env, events), sections, now), walkable)))
    ensures var y := Run(env, events);
            Ranking.IsTop(Ranking.ByAdded, newest,
                          Ranking.Joined(ListsOf(SnapshotAt(y, sections, now), walkable, (l: Library) => NewItems(y, l))))
  {
    hide Run, LibraryOk, Ranking.IsTop, NewItems, Ranking.Joined, RecentLists, ListsOf;
    var y := Run(env, events);
    RunInv(env, events);
    forall l | l in walkable && HasWalk(SnapshotAt(y, sections, now), l)
      ensures Ranking.IsTop(Ranking.ByAdded, y.libs[l.id].stats.recent, multiset(NewItems(y, l)))
    {
      RecentIsTop(y, l);
    }
    NewestOfAllLibraries(SnapshotAt(y, sections, now), walkable, (l: Library) => NewItems(y, l), newest);
  }

  // ---- what the published figures say of the present ----

  function PlayedIn(m: Watched): Ask -> int64 {
    (ask: Ask) => (var at: int64 := At(m, KeyOf(ask)); at)
  }

  lemma ItemsAsked(c: Config, rows: seq<LibraryRow>, r: LibraryRow)
    requires r in rows && DistinctKeys(rows)
    ensures r.key.Some? && ItemPlay(r.key.value) in Asked(c, rows)
  {
    assert r.key.value in LibStats.Keys(rows);
  }

  /** The published watch ages, in every interleaving: none staler than the map the walk
      began with would give, and none fresher than the map now would give; and so the items
      last played at or after any time. */
  lemma WatchAgesAreBracketed(env: Env, events: seq<Event>, sections: seq<Library>, l: Library, now: int)
    requires Publishes(SnapshotAt(Run(env, events), sections, now), l)
    ensures var y := Run(env, events);
            && l.id in y.evidence
            && var ev := y.evidence[l.id];
            var rows, shown := FirstRows(ev.rows), ShownAges(y.libs[l.id].stats);
            var base, present := ev.c.(played := PlayedIn(ev.run.base)), ev.c.(played := PlayedIn(WatchedOf(y.s)));
            && NoFresher(AgesOf(base, rows), shown) && NoFresher(shown, AgesOf(present, rows))
            && forall t: int :: CountFrom(base, t, rows) <= CountFrom(ev.c, t, rows) <= CountFrom(present, t, rows)
  {
    hide Run, FirstRows, Asked, AgesOf, NoFresher, CountFrom, InLibrary, LabelsExact, CountsExact, ListsExact, WatchItemsExact,
      WatchBytesExact;
    PublishedFiguresAreCurrent(env, events, sections, l, now);
    var y := Run(env, events);
    var ev := y.evidence[l.id];
    var rows := FirstRows(ev.rows);
    PublishedAges(ev.c, rows, ev.stats);
    var base, present := ev.c.(played := PlayedIn(ev.run.base)), ev.c.(played := PlayedIn(WatchedOf(y.s)));
    forall r | r in rows
      ensures r.key.Some? && base.played(ItemPlay(r.key.value)) <= ev.c.played(ItemPlay(r.key.value))
           && ev.c.played(ItemPlay(r.key.value)) <= present.played(ItemPlay(r.key.value))
    {
      ItemsAsked(ev.c, rows, r);
      assert Bracketed(y, ev.run, ItemPlay(r.key.value));
    }
    AgesFollowAnswers(base, ev.c, rows);
    AgesFollowAnswers(ev.c, present, rows);
    forall t: int ensures CountFrom(base, t, rows) <= CountFrom(ev.c, t, rows) <= CountFrom(present, t, rows) {
      CountRises(base, ev.c, t, rows);
      CountRises(ev.c, present, t, rows);
    }
  }

  // ---- prune safety ----

  /** A prune comes only from a full pass that walked every walkable library, none skipped.
      If a full read has ended since the pass took its generation it deletes nothing. What it
      deletes the pass did not see in the map and was last played before the pass started;
      and, until pass numbers go round, it deletes all of that. */
  lemma PruneIsSafe(env: Env, events: seq<Event>)
    requires Run(env, events).walker.Pruning?
    ensures var y := Run(env, events);
            var pass := y.walker.pass;
            var z := Next(env, y, PruneAsked);
            && (exists sections: seq<Library> :: IsWalkable(sections, pass.walk, 0))
            && (forall l | l in pass.walk :: LibraryFine(y, l))
            && (y.s.gen != pass.gen ==> z.s == y.s)
            && (forall k | k in WatchedOf(z.s) :: k in WatchedOf(y.s) && WatchedOf(z.s)[k] == WatchedOf(y.s)[k])
            && (y.s.gen == pass.gen ==> forall k | k in pass.seen :: k in WatchedOf(z.s))
            && (forall k | k in WatchedOf(y.s) && k !in WatchedOf(z.s) ::
                  k !in pass.seen && VisitAnswer(y.s, k) < pass.cutoff)
            && (y.s.gen == pass.gen && y.fulls < 0x1_0000_0000 ==>
                  forall k | k in WatchedOf(y.s) && k !in pass.seen && VisitAnswer(y.s, k) < pass.cutoff :: k !in WatchedOf(z.s))
  {
    hide LibraryOk, Run, IsWalkable, LibraryFine, PassMarks, MarksBounded, Pruned;
    RunInv(env, events);
    PruneSafeFrom(Run(env, events), Run(env, events).walker.pass);
    var pass := Run(env, events).walker.pass;
    forall l | l in pass.walk ensures LibraryFine(Run(env, events), l) {
      var i :| 0 <= i < |pass.walk| && pass.walk[i] == l;
    }
  }

  lemma PruneSafeFrom(y: System, pass: Pass)
    requires PassMarks(y, pass) && !pass.stale
    ensures var s := Pruned(y.s, pass.number, pass.cutoff, pass.gen);
            && (y.s.gen != pass.gen ==> s == y.s)
            && (forall k | k in WatchedOf(s) :: k in WatchedOf(y.s) && WatchedOf(s)[k] == WatchedOf(y.s)[k])
            && (y.s.gen == pass.gen ==> forall k | k in pass.seen :: k in WatchedOf(s))
            && (forall k | k in WatchedOf(y.s) && k !in WatchedOf(s) :: k !in pass.seen && VisitAnswer(y.s, k) < pass.cutoff)
            && (y.s.gen == pass.gen && y.fulls < 0x1_0000_0000 ==>
                  forall k | k in WatchedOf(y.s) && k !in pass.seen && VisitAnswer(y.s, k) < pass.cutoff :: k !in WatchedOf(s))
  {
  }

  predicate InFullPass(y: System) {
    (y.walker.Between? || y.walker.Reading? || y.walker.Pruning?) && !y.walker.pass.stale
  }

  /** The key was seen in the map by the full pass of this number, or that pass is over. */
  predicate SeenBy(y: System, full: nat, key: uint64) {
    full <= y.fulls && (y.fulls == full && InFullPass(y) ==> key in y.walker.pass.seen)
  }

  /** What the walker does in one event: it stays, goes on with its pass, or leaves it. */
  predicate GoesOn(y: System, z: System) {
    || z.fulls == y.fulls + 1
    || (z.fulls == y.fulls
        && (InFullPass(z) ==> InFullPass(y) && y.walker.pass.seen <= z.walker.pass.seen))
  }

  lemma StoredGoesOn(env: Env, y: System, items: seq<LibraryRow>, result: WalkResult, ended: int, context: Context)
    requires y.walker.Reading? && y.walker.run.gen1.Some? && y.walker.pass.through < |y.walker.pass.walk|
    ensures GoesOn(y, StoredAt(env, y, y.walker.pass, y.walker.run, items, result, ended, context))
  {
    hide LibsAfter, WalkConfig;
  }

  lemma PassGoesOn(y: System, pass: Pass)
    requires y.walker == Walker.Between(pass) || y.walker == Pruning(pass)
    ensures GoesOn(y, PassOverAt(y, pass)) && GoesOn(y, PrunedNow(y, pass))
  {
    hide Pruned;
  }

  lemma VisitGoesOn(y: System, ask: Ask)
    requires y.walker.Reading?
    ensures GoesOn(y, VisitedAt(y, y.walker.pass, y.walker.run, ask))
  {
    hide Visited;
  }

  lemma StartGoesOn(y: System, stale: bool, walk: seq<Library>, skipped: nat, cutoff: int)
    ensures GoesOn(y, PassStartedAt(y, stale, walk, skipped, cutoff))
  {
  }

  lemma NextGoesOn(env: Env, y: System, e: Event)
    ensures GoesOn(y, Move(env, y, e))
  {
    hide FoldRow, EndIncrement, FullReadEndedAt, Computed, IsWalkable, Skips, StampableGen, StoredAt, PassOverAt, PrunedNow, VisitedAt,
      PassStartedAt;
    match e {
      case FullReadEnded(_, _, _, _) => hide *; FullReadGoesOn(env, y, e);
      case PassStarted(stale, _, walk, skipped, cutoff) => StartGoesOn(y, stale, walk, skipped, cutoff);
      case WalkStored(items, result, ended, context) =>
        if y.walker.Reading? && y.walker.run.gen1.Some? && y.walker.pass.through < |y.walker.pass.walk| {
          StoredGoesOn(env, y, items, result, ended, context);
        }
      case Visit(ask) => if y.walker.Reading? { VisitGoesOn(y, ask); }
      case PassOver => if y.walker.Between? { PassGoesOn(y, y.walker.pass); }
      case PruneAsked => if y.walker.Pruning? { PassGoesOn(y, y.walker.pass); }
      case _ =>
    }
  }

  lemma FullReadGoesOn(env: Env, y: System, e: Event)
    requires e.FullReadEnded?
    ensures GoesOn(y, Move(env, y, e))
  {
    hide EndBootstrap;
  }

  lemma SeenNext(env: Env, y: System, e: Event, full: nat, key: uint64)
    requires SeenBy(y, full, key)
    ensures SeenBy(Next(env, y, e), full, key)
  {
    hide Move;
    NextGoesOn(env, y, e);
  }

  lemma {:induction false} SeenLater(env: Env, events: seq<Event>, more: seq<Event>, full: nat, key: uint64)
    requires SeenBy(Run(env, events), full, key)
    ensures SeenBy(Run(env, events + more), full, key)
    decreases |more|
  {
    hide Next, SeenBy;
    if more == [] {
      assert events + more == events;
    } else {
      var n := |more| - 1;
      SeenLater(env, events, more[..n], full, key);
      assert (events + more)[..|events| + n] == events + more[..n];
      SeenNext(env, Run(env, events + more[..n]), more[n], full, key);
    }
  }

  /** Prune safety along a whole run: a key that was in the map when a full pass visited it
      survives the prune of that pass, whatever happens in between; it is still there unless
      a full read has ended, and then the prune deletes nothing. */
  lemma VisitedKeySurvivesPrune(env: Env, before: seq<Event>, ask: Ask, more: seq<Event>)
    requires var y := Run(env, before);
             && InFullPass(y) && y.walker.Reading? && y.walker.run.gen1.None? && ask !in y.walker.run.answers
             && KeyOf(ask) in WatchedOf(y.s)
    requires var z := Run(env, before + [Visit(ask)] + more);
             z.walker.Pruning? && z.fulls == Run(env, before).fulls
    ensures var z := Run(env, before + [Visit(ask)] + more);
            var after := Next(env, z, PruneAsked).s;
            if z.s.gen == z.walker.pass.gen then KeyOf(ask) in WatchedOf(after) else after == z.s
  {
    hide Run, Next;
    var y := Run(env, before);
    var all := before + [Visit(ask)];
    assert SeenBy(Run(env, all), y.fulls, KeyOf(ask)) by { VisitSeen(env, before, ask); }
    SeenLater(env, all, more, y.fulls, KeyOf(ask));
    PruneIsSafe(env, all + more);
    assert InFullPass(Run(env, all + more)) by { PruningIsFull(env, all + more); }
  }

  lemma VisitSeen(env: Env, before: seq<Event>, ask: Ask)
    requires var y := Run(env, before);
             && InFullPass(y) && y.walker.Reading? && y.walker.run.gen1.None? && ask !in y.walker.run.answers
             && KeyOf(ask) in WatchedOf(y.s)
    ensures SeenBy(Run(env, before + [Visit(ask)]), Run(env, before).fulls, KeyOf(ask))
  {
    hide Visited, VisitAnswer;
    assert (before + [Visit(ask)])[..|before|] == before;
    var y := Run(env, before);
    assert Run(env, before + [Visit(ask)]) == Next(env, y, Visit(ask));
  }

  lemma PruningIsFull(env: Env, events: seq<Event>)
    requires Run(env, events).walker.Pruning?
    ensures InFullPass(Run(env, events))
  {
    hide Run, LibraryOk, PassMarks, PassFine, MarksBounded;
    RunInv(env, events);
  }

  // ---- rebuild signals ----

  /** No rebuild signal is lost in the channel of capacity one: while the walk loop waits and
      the channel is empty, the newest stale-only pass took a generation no older than any
      signalled; and one that is signalled is served by the next wake-up. */
  lemma NoRebuildForgotten(env: Env, events: seq<Event>, sections: seq<Library>, walk: seq<Library>, skipped: nat, cutoff: int)
    requires Run(env, events).walker.Waiting?
    requires IsWalkable(sections, walk, skipped)
    ensures var y := Run(env, events);
            if y.signal then
              Next(env, Next(env, y, SignalTaken), PassStarted(true, sections, walk, skipped, cutoff)).served >= y.signalled
            else y.served >= y.signalled
  {
    hide LibraryOk, Run, IsWalkable, MarksBounded;
    RunInv(env, events);
  }

  // ---- answers are the store's own, at their time ----

  /** The walk began with the map of its first moment, and every answer is what the store
      answered at the answer's moment. */
  ghost predicate FromThen(env: Env, events: seq<Event>, run: LibraryRun) {
    && run.began <= |events| && run.base == WatchedOf(Run(env, events[..run.began]).s)
    && forall q | q in run.answers :: AnsweredThen(env, events, KeyOf(q), run.answers[q])
  }

  ghost predicate AnsweredThen(env: Env, events: seq<Event>, key: uint64, a: Answer) {
    && a.time < |events|
    && a.gen == Run(env, events[..a.time]).s.gen && a.value == VisitAnswer(Run(env, events[..a.time]).s, key)
  }

  ghost predicate AllFromThen(env: Env, events: seq<Event>) {
    var y := Run(env, events);
    && y.clock == |events|
    && (y.walker.Reading? ==> FromThen(env, events, y.walker.run))
    && forall id | id in y.evidence :: FromThen(env, events, y.evidence[id].run)
  }

  lemma StillFromThen(env: Env, events: seq<Event>, e: Event, run: LibraryRun)
    requires FromThen(env, events, run)
    ensures FromThen(env, events + [e], run)
  {
    hide Run;
    var all := events + [e];
    assert all[..run.began] == events[..run.began];
    forall q | q in run.answers ensures AnsweredThen(env, all, KeyOf(q), run.answers[q]) {
      assert AnsweredThen(env, events, KeyOf(q), run.answers[q]);
      assert all[..run.answers[q].time] == events[..run.answers[q].time];
    }
  }

  /** What one event does to the walks recorded: it starts one, answers it, closes it or
      stores it, or leaves them. */
  ghost predicate RunsMove(y: System, z: System, e: Event) {
    && z.clock == y.clock + 1
    && (forall id | id in z.evidence ::
          (id in y.evidence && z.evidence[id] == y.evidence[id]) || (y.walker.Reading? && z.evidence[id].run == y.walker.run))
    && (z.walker.Reading? ==>
          var run := z.walker.run;
          || (y.walker.Reading? && run == y.walker.run)
          || (y.walker.Reading? && e.VisitsOver? && run == y.walker.run.(gen1 := Some(StampableGen(y.s, e.now))))
          || (e.WalkStarted? && run.started == e.started && run.gen0 == StampableGen(y.s, e.now) && run.gen1.None?
              && run.began == y.clock && run.base == WatchedOf(y.s) && run.answers == map[])
          || (y.walker.Reading? && e.Visit?
              && run == y.walker.run.(answers := y.walker.run.answers[e.ask := Answer(VisitAnswer(y.s, KeyOf(e.ask)), y.s.gen, y.clock)])))
  }

  lemma RunsStay(y: System, z: System, e: Event)
    requires z.evidence == y.evidence
    requires z.walker.Reading? ==> y.walker.Reading? && z.walker.run == y.walker.run
    ensures RunsMove(y, z.(clock := y.clock + 1), e)
  {
  }

  lemma RunsStored(env: Env, y: System, items: seq<LibraryRow>, result: WalkResult, ended: int, context: Context, e: Event)
    requires y.walker.Reading? && y.walker.run.gen1.Some? && y.walker.pass.through < |y.walker.pass.walk|
    ensures RunsMove(y, StoredAt(env, y, y.walker.pass, y.walker.run, items, result, ended, context).(clock := y.clock + 1), e)
  {
    hide LibsAfter, WalkConfig;
  }

  lemma RunsVisited(y: System, ask: Ask)
    requires y.walker.Reading?
    ensures RunsMove(y, VisitedAt(y, y.walker.pass, y.walker.run, ask).(clock := y.clock + 1), Visit(ask))
  {
    hide Visited, VisitAnswer;
  }

  lemma RunsStarted(y: System, stale: bool, walk: seq<Library>, skipped: nat, cutoff: int, e: Event)
    ensures RunsMove(y, PassStartedAt(y, stale, walk, skipped, cutoff).(clock := y.clock + 1), e)
  {
    hide RunsMove;
    RunsStay(y, PassStartedAt(y, stale, walk, skipped, cutoff), e);
  }

  lemma RunsEnded(y: System, pass: Pass, e: Event)
    ensures y.walker == Walker.Between(pass) ==> RunsMove(y, PassOverAt(y, pass).(clock := y.clock + 1), e)
    ensures RunsMove(y, PrunedNow(y, pass).(clock := y.clock + 1), e)
  {
    hide Pruned, RunsMove;
    if y.walker == Walker.Between(pass) {
      RunsStay(y, PassOverAt(y, pass), e);
    }
    RunsStay(y, PrunedNow(y, pass), e);
  }

  lemma RunsOpened(y: System, z: System, e: Event)
    requires z.evidence == y.evidence && z.walker.Reading?
    requires (e.WalkStarted? && z.walker.run.started == e.started && z.walker.run.gen0 == StampableGen(y.s, e.now)
              && z.walker.run.gen1.None?
              && z.walker.run.began == y.clock && z.walker.run.base == WatchedOf(y.s) && z.walker.run.answers == map[])
          || (y.walker.Reading? && e.VisitsOver? && z.walker.run == y.walker.run.(gen1 := Some(StampableGen(y.s, e.now))))
    ensures RunsMove(y, z.(clock := y.clock + 1), e)
  {
  }

  lemma NextRunsMove(env: Env, y: System, e: Event)
    ensures RunsMove(y, Next(env, y, e), e)
  {
    hide FoldRow, EndIncrement, EndBootstrap, Computed, IsWalkable, Skips, StampableGen, StoredAt, PassOverAt, PrunedNow, VisitedAt,
      PassStartedAt, RunsMove, WatchedOf;
    RunsStay(y, y, e);
    match e {
      case PassStarted(stale, _, walk, skipped, cutoff) => RunsStarted(y, stale, walk, skipped, cutoff, e);
      case WalkStarted(_, _) =>
        if Next(env, y, e) != y.(clock := y.clock + 1) {
          RunsOpened(y, Move(env, y, e), e);
        }
      case VisitsOver(_) =>
        if Next(env, y, e) != y.(clock := y.clock + 1) {
          RunsOpened(y, Move(env, y, e), e);
        }
      case Visit(ask) => if y.walker.Reading? { RunsVisited(y, ask); }
      case WalkStored(items, result, ended, context) =>
        if y.walker.Reading? && y.walker.run.gen1.Some? && y.walker.pass.through < |y.walker.pass.walk| {
          RunsStored(env, y, items, result, ended, context, e);
        }
      case PassOver => if y.walker.Between? { RunsEnded(y, y.walker.pass, e); }
      case PruneAsked => if y.walker.Pruning? { RunsEnded(y, y.walker.pass, e); }
      case _ => RunsStay(y, Move(env, y, e), e);
    }
  }

  lemma MovedFromThen(env: Env, events: seq<Event>, e: Event)
    requires AllFromThen(env, events) && RunsMove(Run(env, events), Run(env, events + [e]), e)
    ensures AllFromThen(env, events + [e])
  {
    hide Run, FromThen, VisitAnswer;
    var y, z := Run(env, events), Run(env, events + [e]);
    var all := events + [e];
    assert all[..|events|] == events;
    if y.walker.Reading? {
      StillFromThen(env, events, e, y.walker.run);
    }
    forall id | id in z.evidence ensures FromThen(env, all, z.evidence[id].run) {
      if id in y.evidence && z.evidence[id] == y.evidence[id] {
        StillFromThen(env, events, e, y.evidence[id].run);
      }
    }
    if z.walker.Reading? {
      RunFromThen(env, events, e);
    }
  }

  lemma RunFromThen(env: Env, events: seq<Event>, e: Event)
    requires AllFromThen(env, events) && RunsMove(Run(env, events), Run(env, events + [e]), e)
    requires Run(env, events + [e]).walker.Reading?
    ensures FromThen(env, events + [e], Run(env, events + [e]).walker.run)
  {
    hide Run;
    var y, all := Run(env, events), events + [e];
    var run := Run(env, all).walker.run;
    assert all[..|events|] == events;
    if y.walker.Reading? {
      StillFromThen(env, events, e, y.walker.run);
    }
    forall q | q in run.answers ensures AnsweredThen(env, all, KeyOf(q), run.answers[q]) {
      assert y.walker.Reading? && q in y.walker.run.answers ==> AnsweredThen(env, all, KeyOf(q), y.walker.run.answers[q]);
    }
  }

  /** In every interleaving each answer of a walk is what the store answered when asked. */
  lemma {:induction false} AnswersAreTheStores(env: Env, events: seq<Event>)
    ensures AllFromThen(env, events)
  {
    hide Next, RunsMove;
    if events != [] {
      var n := |events| - 1;
      AnswersAreTheStores(env, events[..n]);
      assert events == events[..n] + [events[n]];
      NextRunsMove(env, Run(env, events[..n]), events[n]);
      MovedFromThen(env, events[..n], events[n]);
    }
  }

  // ---- the store in this system is the store on its own ----

  /** The locked region of the store that an event performs, if it performs one. */
  function StoreOp(y: System, e: Event): seq<StoreRuns.Op> {
    match e
    case RowFolded(r) => [StoreRuns.FoldOp(r)]
    case ReadEnded(since, start, newest, count, o, now) => [StoreRuns.IncrementOp(since, start, newest, count, o, now)]
    case FullReadEnded(rows, o, now, _) => if y.rebuilt.None? then [StoreRuns.BootstrapOp(rows, o, now)] else []
    case Visit(ask) =>
      if y.walker.Reading? && y.walker.run.gen1.None? && ask !in y.walker.run.answers
      then [StoreRuns.VisitOp(KeyOf(ask), y.walker.pass.number)] else []
    case PruneAsked =>
      if y.walker.Pruning? then [StoreRuns.PruneOp(y.walker.pass.number, y.walker.pass.cutoff, y.walker.pass.gen)] else []
    case _ => []
  }

  ghost function StoreOps(env: Env, events: seq<Event>): seq<StoreRuns.Op> {
    if events == [] then []
    else
      var before := events[..|events| - 1];
      StoreOps(env, before) + StoreOp(Run(env, before), events[|events| - 1])
  }

  /** An event changes the store by its locked region, or not at all. */
  lemma StoreStep(env: Env, y: System, e: Event)
    ensures Next(env, y, e).s
         == if StoreOp(y, e) == [] then y.s else StoreRuns.Apply(env.identity, y.s, StoreOp(y, e)[0])
  {
    hide FoldRow, Pruned, EndBootstrap, EndIncrement, Visited, VisitAnswer, Computed, IsWalkable, Skips, StampableGen;
    hide StoredAt, PassOverAt, PassStartedAt;
    match e {
      case RowFolded(_) =>
      case ReadEnded(_, _, _, _, _, _) =>
      case FullReadEnded(_, _, _, _) =>
      case Visit(_) =>
      case PruneAsked =>
      case _ => WalkLeavesStore(env, y, e);
    }
  }

  lemma WalkLeavesStore(env: Env, y: System, e: Event)
    requires !e.RowFolded? && !e.ReadEnded? && !e.FullReadEnded? && !e.Visit? && !e.PruneAsked?
    ensures Next(env, y, e).s == y.s
  {
    hide Computed, IsWalkable, Skips, StampableGen, LibsAfter, WalkConfig;
    match e {
      case PassStarted(_, _, _, _, _) =>
      case WalkStarted(_, _) =>
      case WalkStored(_, _, _, _) =>
      case PassOver =>
      case _ =>
    }
  }

  lemma StepApplies(identity: HistoryRow -> uint64, t: StoreRuns.Trace, op: StoreRuns.Op)
    ensures StoreRuns.Step(identity, t, op).s == StoreRuns.Apply(identity, t.s, op)
  {
    hide Fold, Kept, EndBootstrap, EndIncrement, Visited;
  }

  /** Every interleaving is, for the store, a run of its locked regions: what StoreRuns
      proves of those holds here. */
  lemma {:induction false} StoreRunsUnchanged(env: Env, events: seq<Event>)
    ensures StoreRuns.Run(env.identity, StoreOps(env, events)).s == Run(env, events).s
  {
    hide Next, StoreRuns.Step, StoreOp;
    if events != [] {
      var before, e := events[..|events| - 1], events[|events| - 1];
      StoreRunsUnchanged(env, before);
      var y, ops := Run(env, before), StoreOps(env, before);
      AtMostOneOp(y, e);
      StoreStep(env, y, e);
      if StoreOp(y, e) != [] {
        StepApplies(env.identity, StoreRuns.Run(env.identity, ops), StoreOp(y, e)[0]);
        assert (ops + StoreOp(y, e))[..|ops|] == ops;
      } else {
        assert ops + StoreOp(y, e) == ops;
      }
    }
  }

  // ---- a rebuild brings the figures back ----

  /** A stale-only pass over these libraries that has so far stamped all it got through with
      generation gen, at which history still is. */
  predicate Restamping(y: System, gen: nat, walk: seq<Library>) {
    && (y.walker.Between? || y.walker.Reading?)
    && var pass := y.walker.pass;
    && pass.stale && pass.gen == gen && y.s.gen == gen && pass.walk == walk && pass.through <= |walk|
    && (forall i | 0 <= i < pass.through :: StampOf(y.libs, walk[i].id) == gen)
    && (y.walker.Reading? ==>
          && pass.through < |walk| && y.walker.run.gen0 == gen
          && (y.walker.run.gen1.Some? ==> y.walker.run.gen1.value == gen))
  }

  /** No full read ends, history is current whenever a walk looks at it, every walk succeeds
      and the pass is not over yet. */
  predicate Undisturbed(y: System, e: Event) {
    match e
    case FullReadEnded(_, _, _, _) => false
    case WalkStarted(now, _) => ViewAt(y.s, now).current
    case VisitsOver(now) => ViewAt(y.s, now).current
    case WalkStored(_, result, _, context) => result.Figures? && context == Live
    case PassOver => false
    case _ => true
  }

  lemma RestampingStored(env: Env, y: System, gen: nat, walk: seq<Library>, items: seq<LibraryRow>, result: WalkResult, ended: int)
    requires Restamping(y, gen, walk) && y.walker.Reading? && y.walker.run.gen1.Some? && result.Figures?
    ensures Restamping(StoredAt(env, y, y.walker.pass, y.walker.run, items, result, ended, Live), gen, walk)
  {
    hide LibsAfter, StampOf, WalkConfig;
    var pass := y.walker.pass;
    var a := AttemptOf(y.walker.run, result, ended, Live);
    var z := StoredAt(env, y, pass, y.walker.run, items, result, ended, Live);
    forall i | 0 <= i < pass.through + 1 ensures StampOf(z.libs, walk[i].id) == gen {
      StampAfter(y.libs, walk[pass.through], a, walk[i].id);
    }
  }

  lemma RestampingSame(y: System, z: System, gen: nat, walk: seq<Library>)
    requires Restamping(y, gen, walk) && z.s.gen == y.s.gen && z.walker == y.walker && z.libs == y.libs
    ensures Restamping(z, gen, walk)
  {
  }

  lemma RestampingSkipped(y: System, pass: Pass, gen: nat, walk: seq<Library>)
    requires Restamping(y, gen, walk) && y.walker == Walker.Between(pass) && pass.through < |walk|
    requires Skips(y.libs, walk[pass.through], true, gen)
    ensures Restamping(y.(walker := Walker.Between(pass.(through := pass.through + 1)), clock := y.clock + 1), gen, walk)
  {
  }

  lemma RestampingStarted(y: System, pass: Pass, now: int, started: int64, gen: nat, walk: seq<Library>)
    requires Restamping(y, gen, walk) && y.walker == Walker.Between(pass) && pass.through < |walk| && ViewAt(y.s, now).current
    ensures Restamping(y.(walker := Reading(pass, LibraryRun(y.clock, StampableGen(y.s, now), None, started, WatchedOf(y.s), map[])),
                          clock := y.clock + 1), gen, walk)
  {
    hide StampOf;
  }

  lemma RestampingOver(y: System, now: int, gen: nat, walk: seq<Library>)
    requires Restamping(y, gen, walk) && y.walker.Reading? && ViewAt(y.s, now).current
    ensures Restamping(y.(walker := y.walker.(run := y.walker.run.(gen1 := Some(StampableGen(y.s, now)))), clock := y.clock + 1), gen, walk)
  {
    hide StampOf;
  }

  lemma RestampingVisit(y: System, ask: Ask, gen: nat, walk: seq<Library>)
    requires Restamping(y, gen, walk) && y.walker.Reading?
    ensures Restamping(VisitedAt(y, y.walker.pass, y.walker.run, ask), gen, walk)
  {
    hide StampOf, Visited, VisitAnswer;
    VisitedKeeps(y.s, KeyOf(ask), y.walker.pass.number);
  }

  lemma RestampingNext(env: Env, y: System, e: Event, gen: nat, walk: seq<Library>)
    requires Restamping(y, gen, walk) && Undisturbed(y, e)
    ensures Restamping(Next(env, y, e), gen, walk)
  {
    hide FoldRow, EndIncrement, Computed, IsWalkable, Skips, StampableGen, StoredAt, VisitedAt, Restamping, ViewAt, WatchedOf;
    RestampingWalker(y, gen, walk);
    match e {
      case RowFolded(r) =>
        FoldKeeps(env.identity, y.s, r);
        RestampingSame(y, Next(env, y, e), gen, walk);
      case ReadEnded(since, start, newest, count, o, now) =>
        assert EndIncrement(y.s, since, start, newest, count, o, now).gen == y.s.gen by { IncrementKeepsGen(y.s, since, start, newest, count, o, now); }
        RestampingSame(y, Next(env, y, e), gen, walk);
      case Visit(ask) =>
        RestampingSame(y, y.(clock := y.clock + 1), gen, walk);
        if y.walker.Reading? {
          RestampingVisit(y, ask, gen, walk);
          RestampingSame(VisitedAt(y, y.walker.pass, y.walker.run, ask),
                         VisitedAt(y, y.walker.pass, y.walker.run, ask).(clock := y.clock + 1), gen, walk);
        }
      case WalkStored(items, result, ended, _) =>
        RestampingSame(y, y.(clock := y.clock + 1), gen, walk);
        if y.walker.Reading? && y.walker.run.gen1.Some? && y.walker.pass.through < |y.walker.pass.walk| {
          RestampingStored(env, y, gen, walk, items, result, ended);
          var z := StoredAt(env, y, y.walker.pass, y.walker.run, items, result, ended, Live);
          RestampingSame(z, z.(clock := y.clock + 1), gen, walk);
        }
      case LibrarySkipped =>
        RestampingSame(y, y.(clock := y.clock + 1), gen, walk);
        if Next(env, y, e) != y.(clock := y.clock + 1) {
          RestampingSkipped(y, y.walker.pass, gen, walk);
        }
      case WalkStarted(now, started) =>
        RestampingSame(y, y.(clock := y.clock + 1), gen, walk);
        if Next(env, y, e) != y.(clock := y.clock + 1) {
          RestampingStarted(y, y.walker.pass, now, started, gen, walk);
        }
      case VisitsOver(now) =>
        RestampingSame(y, y.(clock := y.clock + 1), gen, walk);
        if Next(env, y, e) != y.(clock := y.clock + 1) {
          RestampingOver(y, now, gen, walk);
        }
      case _ => RestampingSame(y, Next(env, y, e), gen, walk);
    }
  }

  lemma RestampingWalker(y: System, gen: nat, walk: seq<Library>)
    requires Restamping(y, gen, walk)
    ensures y.walker.Between? || y.walker.Reading?
    ensures y.walker.pass.stale && y.walker.pass.gen == gen && y.walker.pass.walk == walk
  {
  }

  lemma IncrementKeepsGen(s: State, since: int, start: nat, newest: int, count: nat, o: Outcome, now: int)
    ensures EndIncrement(s, since, start, newest, count, o, now).gen == s.gen
  {
  }

  ghost predicate UndisturbedRun(env: Env, events: seq<Event>, more: seq<Event>) {
    forall i | 0 <= i < |more| :: Undisturbed(Run(env, events + more[..i]), more[i])
  }

  lemma {:induction false} RestampingRun(env: Env, events: seq<Event>, more: seq<Event>, gen: nat, walk: seq<Library>)
    requires Restamping(Run(env, events), gen, walk) && UndisturbedRun(env, events, more)
    ensures Restamping(Run(env, events + more), gen, walk)
    decreases |more|
  {
    hide Restamping, Undisturbed, Next;
    if more == [] {
      assert events + more == events;
    } else {
      var n := |more| - 1;
      assert UndisturbedRun(env, events, more[..n]) by {
        forall i | 0 <= i < n ensures Undisturbed(Run(env, events + more[..n][..i]), more[..n][i]) {
          assert more[..n][..i] == more[..i];
        }
      }
      RestampingRun(env, events, more[..n], gen, walk);
      assert (events + more)[..|events| + n] == events + more[..n];
      RestampingNext(env, Run(env, events + more[..n]), more[n], gen, walk);
    }
  }

  /** Once a signalled rebuild is served by a stale-only pass whose every walk succeeds, while
      history stays current and no full read ends, every walkable library publishes its watch
      figures again, for as long as history is current and no row is unmatched. */
  lemma RebuildRepublishes(env: Env, before: seq<Event>, sections: seq<Library>, walk: seq<Library>, skipped: nat, cutoff: int,
                           more: seq<Event>, now: int)
    requires Run(env, before).walker.Signalled? && IsWalkable(sections, walk, skipped)
    requires var started := before + [PassStarted(true, sections, walk, skipped, cutoff)];
             && UndisturbedRun(env, started, more)
             && Run(env, started + more).walker.Between? && Run(env, started + more).walker.pass.through == |walk|
    ensures var started := before + [PassStarted(true, sections, walk, skipped, cutoff)];
            var z := Next(env, Run(env, started + more), PassOver);
            && z.walker.Waiting? && z.s.gen >= Run(env, before).signalled
            && (ViewAt(z.s, now).current && ViewAt(z.s, now).unmatched == 0 ==>
                  forall l | l in walk :: Publishes(SnapshotAt(z, sections, now), l))
  {
    hide Run, IsWalkable, LibraryOk, MarksBounded, StampOf, UndisturbedRun;
    var pass := PassStarted(true, sections, walk, skipped, cutoff);
    var started := before + [pass];
    var y := Run(env, before);
    RunInv(env, before);
    assert SignalOk(y) by { InvParts(y); }
    var first := Run(env, started);
    assert first == Next(env, y, pass) by { RunSnoc(env, before, pass); }
    RestampingRun(env, started, more, first.s.gen, walk);
    var z := Run(env, started + more);
    StampsPublish(env, started + more, sections, walk, now);
  }

  lemma RunSnoc(env: Env, events: seq<Event>, e: Event)
    ensures Run(env, events + [e]) == Next(env, Run(env, events), e)
  {
    assert (events + [e])[..|events|] == events;
  }

  lemma CurrentHasGeneration(env: Env, events: seq<Event>, now: int)
    requires ViewAt(Run(env, events).s, now).current
    ensures 0 < Run(env, events).s.gen
  {
    hide Run, StoreRuns.Run;
    StoreRunsUnchanged(env, events);
    StoreRuns.CompleteHasGeneration(env.identity, StoreOps(env, events));
  }

  lemma StalePassOver(env: Env, y: System)
    requires y.walker.Between? && y.walker.pass.stale && y.walker.pass.through == |y.walker.pass.walk|
    ensures Next(env, y, PassOver) == y.(walker := Waiting, clock := y.clock + 1)
  {
  }

  lemma StampedPublishes(y: System, sections: seq<Library>, now: int, l: Library)
    requires StampOf(y.libs, l.id) == y.s.gen && 0 < y.s.gen
    requires ViewAt(y.s, now).current && ViewAt(y.s, now).unmatched == 0
    ensures Publishes(SnapshotAt(y.(walker := Waiting, clock := y.clock + 1), sections, now), l)
  {
  }

  lemma StampsPublish(env: Env, events: seq<Event>, sections: seq<Library>, walk: seq<Library>, now: int)
    requires var y := Run(env, events); Restamping(y, y.s.gen, walk) && y.walker.Between? && y.walker.pass.through == |walk|
    ensures var z := Next(env, Run(env, events), PassOver);
            && z.walker.Waiting? && z.s == Run(env, events).s
            && (ViewAt(z.s, now).current && ViewAt(z.s, now).unmatched == 0 ==>
                  forall l | l in walk :: Publishes(SnapshotAt(z, sections, now), l))
  {
    hide Run, Next, StampOf;
    var y := Run(env, events);
    StalePassOver(env, y);
    if ViewAt(y.s, now).current {
      CurrentHasGeneration(env, events, now);
      forall l | l in walk && ViewAt(y.s, now).unmatched == 0 ensures Publishes(SnapshotAt(y.(walker := Waiting, clock := y.clock + 1), sections, now), l) {
        var i :| 0 <= i < |walk| && walk[i] == l;
        StampedPublishes(y, sections, now, l);
      }
    }
  }

  /** The completeness flag never lies: while it says so, no video library is skipped, each
      one's last walk succeeded, all their figures rest on answers of the generation current
      now, and no row folded since the last full read began is unmatched. */
  lemma CompletenessNeverLies(env: Env, events: seq<Event>, sections: seq<Library>, now: int)
    requires WatchAgesComplete(SnapshotAt(Run(env, events), sections, now))
    ensures var y := Run(env, events);
            && y.s.status == Complete && |Videos(sections)| <= MAX_WALKED_LIBRARIES
            && (forall l | l in Videos(sections) :: LibraryFine(y, l) && AnsweredNow(y, l.id))
            && (forall r | r in StoreRuns.Run(env.identity, StoreOps(env, events)).folded :: Classify(r) != Unmatched)
  {
    hide Run, StoreRuns.Run, Videos, StatsOf, Asked, FirstRows, Publishes, Bracketed;
    var y := Run(env, events);
    forall l | l in Videos(sections) ensures LibraryFine(y, l) && AnsweredNow(y, l.id) {
      PublishedFiguresAreCurrent(env, events, sections, l, now);
    }
    StoreRunsUnchanged(env, events);
    StoreRuns.CountsPublishTheFoldedRows(env.identity, StoreOps(env, events), now);
  }

  /** Every watch figure a scrape publishes, of whatever library, rests on such answers. */
  lemma EveryWatchSampleIsCurrent(env: Env, events: seq<Event>, sections: seq<Library>, walkable: seq<Library>, now: int, x: Sample)
    requires IsWatchSample(x) && x in AllSamples(SnapshotAt(Run(env, events), sections, now), walkable)
    ensures AnsweredNow(Run(env, events), x.library)
  {
    hide Run, AllSamples, StatsOf, Asked, FirstRows, Publishes, Bracketed;
    WatchSamplesNeedAVouchedWalk(SnapshotAt(Run(env, events), sections, now), walkable, x);
    var l :| l in walkable && l.id == x.library && Publishes(SnapshotAt(Run(env, events), sections, now), l);
    PublishedFiguresAreCurrent(env, events, sections, l, now);
  }

  /** A library's stored figures rest on answers of the present generation only. */
  ghost predicate AnsweredNow(y: System, id: string) {
    id in y.evidence && forall q | q in y.evidence[id].run.answers :: y.evidence[id].run.answers[q].gen == y.s.gen
  }

  lemma AtMostOneOp(y: System, e: Event)
    ensures |StoreOp(y, e)| <= 1
  {
  }
}
