/** The history server, the store that follows it, the library walk and the scrape, together
    (internal/history/history.go, internal/server/walk.go, internal/server/collect_catalog.go):
    what a published figure says about the history as the server holds it. */
module EndToEnd {
  import opened Ints
  import opened History
  import opened StoreRuns
  import opened LibStats
  import opened LibStatsLaws
  import opened Aggregator
  import opened Catalog
  import F = Follower
  import R = Refinement
  import P = Protocol
  import Walks

  /** One event of the history goroutine or its server, or one of the walk. */
  datatype Step = Reads(read: F.Event, now: int) | Walks(walk: P.Event)

  /** The same run as the walk's system sees it and as the follower does. */
  datatype Joint = Joint(events: seq<P.Event>, es: seq<F.Timed>)

  /** Visits and prunes come from the walk; rows and ends of reads from the history. */
  predicate Allowed(s: Step) {
    match s
    case Reads(e, _) => !e.Visit? && !e.Prune?
    case Walks(e) => !e.RowFolded? && !e.ReadEnded? && !e.FullReadEnded?
  }

  function ReadEnd(a: F.Reading, o: Outcome, now: int): P.Event {
    P.ReadEnded(a.since, a.start, NewestTime(a.handed), |a.handed|, o, now)
  }

  /** What an event of the history goroutine does to the store, as the walk's system has it. */
  function AsStoreEvent(c: F.Setting, w: F.World, e: F.Event, now: int): seq<P.Event> {
    if !F.Possible(c, w, e) then []
    else
      match e
      case Pull =>
        var a := w.reading.value;
        if a.page == [] then [ReadEnd(a, Finished, now)]
        else if |a.handed| == a.cap then [ReadEnd(a, OverLimit, now)]
        else [P.RowFolded(a.page[0])]
      case Break => [ReadEnd(w.reading.value, Errored(false), now)]
      case CatchupPull =>
        var a := w.catchup.value;
        if a.page == [] || |a.handed| == a.cap then [] else [P.RowFolded(a.page[0])]
      case _ => []
  }

  /** What an event of the walk does to the store, as the follower has it. */
  function AsMark(y: P.System, e: P.Event): seq<F.Timed> {
    match e
    case Visit(ask) =>
      if y.walker.Reading? && y.walker.run.gen1.None? && ask !in y.walker.run.answers
      then [F.Timed(F.Visit(P.KeyOf(ask), y.walker.pass.number), 0)] else []
    case PruneAsked =>
      if y.walker.Pruning? then [F.Timed(F.Prune(y.walker.pass.number, y.walker.pass.cutoff, y.walker.pass.gen), 0)] else []
    case _ => []
  }

  ghost function Take(env: P.Env, c: F.Setting, w: F.World, j: Joint, s: Step): Joint {
    match s
    case Reads(e, now) => Joint(j.events + AsStoreEvent(c, F.After(c, w, j.es), e, now), j.es + [F.Timed(e, now)])
    case Walks(e) => Joint(j.events + [e], j.es + AsMark(P.Run(env, j.events), e))
  }

  ghost function Played(env: P.Env, c: F.Setting, w: F.World, j: Joint, steps: seq<Step>): Joint {
    if steps == [] then j else Take(env, c, w, Played(env, c, w, j, steps[..|steps| - 1]), steps[|steps| - 1])
  }

  /** Both machines have the same store. */
  ghost predicate Agree(env: P.Env, c: F.Setting, w: F.World, j: Joint) {
    P.Run(env, j.events).s == F.After(c, w, j.es).s
  }

  lemma OneMoreRead(c: F.Setting, w: F.World, es: seq<F.Timed>, t: F.Timed)
    ensures F.After(c, w, es + [t])
         == var v := F.After(c, w, es); if F.Possible(c, v, t.e) then F.Next(c, v, t.e, t.now) else v
  {
    assert (es + [t])[..|es|] == es;
  }

  lemma ReadAgrees(env: P.Env, c: F.Setting, y: P.System, w: F.World, e: F.Event, now: int)
    requires env.identity == c.identity && y.s == w.s && F.Possible(c, w, e) && !e.Visit? && !e.Prune?
    ensures var events := AsStoreEvent(c, w, e, now);
            && |events| <= 1
            && F.Next(c, w, e, now).s == if events == [] then y.s else P.Next(env, y, events[0]).s
  {
    hide FoldRow, EndIncrement, NewestTime, F.Selected;
    match e {
      case Pull =>
      case Break =>
      case CatchupPull =>
      case _ =>
    }
  }

  lemma MarkAgrees(env: P.Env, c: F.Setting, y: P.System, w: F.World, e: P.Event)
    requires y.s == w.s && !e.RowFolded? && !e.ReadEnded? && !e.FullReadEnded?
    ensures var es := AsMark(y, e);
            && |es| <= 1
            && P.Next(env, y, e).s == if es == [] then w.s else F.Next(c, w, es[0].e, es[0].now).s
  {
    hide Visited, Pruned, VisitAnswer, P.Next;
    P.StoreStep(env, y, e);
  }

  lemma TakeAgrees(env: P.Env, c: F.Setting, w: F.World, j: Joint, s: Step)
    requires env.identity == c.identity && Agree(env, c, w, j) && Allowed(s)
    ensures var t := Take(env, c, w, j, s);
            && Agree(env, c, w, t) && j.events <= t.events && j.es <= t.es && |t.events| <= |j.events| + 1
  {
    hide P.Run, P.Next, F.After, F.Next, AsStoreEvent, AsMark;
    var y, v := P.Run(env, j.events), F.After(c, w, j.es);
    match s {
      case Reads(e, now) =>
        OneMoreRead(c, w, j.es, F.Timed(e, now));
        if F.Possible(c, v, e) {
          ReadAgrees(env, c, y, v, e, now);
          var events := AsStoreEvent(c, v, e, now);
          if events == [] {
            assert j.events + events == j.events;
          } else {
            P.RunSnoc(env, j.events, events[0]);
            assert events == [events[0]];
          }
        } else {
          ImpossibleIsNothing(c, v, e, now);
          assert j.events + [] == j.events;
        }
      case Walks(e) =>
        P.RunSnoc(env, j.events, e);
        MarkAgrees(env, c, y, v, e);
        var es := AsMark(y, e);
        if es == [] {
          assert j.es + es == j.es;
        } else {
          OneMoreRead(c, w, j.es, es[0]);
          assert es == [es[0]];
          MarksPossible(c, v, y, e);
        }
    }
  }

  lemma ImpossibleIsNothing(c: F.Setting, w: F.World, e: F.Event, now: int)
    requires !F.Possible(c, w, e)
    ensures AsStoreEvent(c, w, e, now) == []
  {
  }

  lemma MarksPossible(c: F.Setting, w: F.World, y: P.System, e: P.Event)
    ensures forall t | t in AsMark(y, e) :: F.Possible(c, w, t.e)
  {
  }

  /** The moments of a joint run, each going on from the one before. */
  lemma {:induction false} PlayedAgrees(env: P.Env, c: F.Setting, w: F.World, j: Joint, steps: seq<Step>, n: nat)
    requires env.identity == c.identity && Agree(env, c, w, j) && n <= |steps|
    requires forall s | s in steps :: Allowed(s)
    ensures var m, t := Played(env, c, w, j, steps[..n]), Played(env, c, w, j, steps);
            && Agree(env, c, w, t) && j.events <= t.events && j.es <= t.es && m.events <= t.events && m.es <= t.es
    decreases |steps|
  {
    hide Take, Agree, Allowed;
    if n == |steps| {
      assert steps[..n] == steps;
    }
    if steps != [] {
      var k := |steps| - 1;
      assert forall s | s in steps[..k] :: s in steps;
      assert steps[k] in steps;
      PlayedAgrees(env, c, w, j, steps[..k], if n <= k then n else k);
      assert n <= k ==> steps[..k][..n] == steps[..n];
      TakeAgrees(env, c, w, Played(env, c, w, j, steps[..k]), steps[k]);
    }
  }

  /** Every prefix of the walk's side of a joint run is the walk's side at some moment of it. */
  lemma {:induction false} MomentOf(env: P.Env, c: F.Setting, w: F.World, j: Joint, steps: seq<Step>, from: nat, n: nat) returns (i: nat)
    requires env.identity == c.identity && Agree(env, c, w, j) && from <= |steps|
    requires forall s | s in steps :: Allowed(s)
    requires |Played(env, c, w, j, steps[..from]).events| <= n <= |Played(env, c, w, j, steps).events|
    ensures from <= i <= |steps|
    ensures Played(env, c, w, j, steps[..i]).events == Played(env, c, w, j, steps).events[..n]
    decreases |steps|
  {
    hide Take, Agree, Allowed;
    var all := Played(env, c, w, j, steps);
    assert steps[..|steps|] == steps;
    if n == |all.events| {
      i := |steps|;
    } else {
      assert from < |steps|;
      var k := |steps| - 1;
      var before := Played(env, c, w, j, steps[..k]);
      assert forall s | s in steps[..k] :: s in steps;
      assert steps[k] in steps;
      PlayedAgrees(env, c, w, j, steps[..k], k);
      TakeAgrees(env, c, w, before, steps[k]);
      assert steps[..k][..from] == steps[..from];
      i := MomentOf(env, c, w, j, steps[..k], from, n);
      assert steps[..k][..i] == steps[..i];
    }
  }

  // ---- a joint run that begins with a full read ----

  /** How the run starts: after any events, a whole full read that the history grew under. */
  ghost predicate Starts(env: P.Env, c: F.Setting, before: seq<P.Event>, source: seq<History.Row>, first: seq<F.Timed>) {
    && env.identity == c.identity && P.Run(env, before).rebuilt.None?
    && R.WholeRead(c, R.Opening(P.Run(env, before).s, source), first)
  }

  ghost function Opened(env: P.Env, before: seq<P.Event>, source: seq<History.Row>): F.World {
    R.Opening(P.Run(env, before).s, source)
  }

  ghost function Begun(env: P.Env, c: F.Setting, before: seq<P.Event>, source: seq<History.Row>, first: seq<F.Timed>, cancelled: bool): Joint
    requires Starts(env, c, before, source, first)
  {
    R.WholeReadIsBootstrap(c, P.Run(env, before).s, source, first);
    var rows := F.After(c, Opened(env, before, source), first[..|first| - 1]).reading.value.handed;
    Joint(before + [P.FullReadEnded(rows, Finished, first[|first| - 1].now, cancelled)], first)
  }

  lemma BegunAgrees(env: P.Env, c: F.Setting, before: seq<P.Event>, source: seq<History.Row>, first: seq<F.Timed>, cancelled: bool)
    requires Starts(env, c, before, source, first)
    ensures var j := Begun(env, c, before, source, first, cancelled);
            && Agree(env, c, Opened(env, before, source), j)
            && P.Run(env, j.events).s.gen == P.Run(env, before).s.gen + 1
  {
    hide FoldAll, NewestTime, R.WholeRead, P.Run, F.After;
    R.WholeReadIsBootstrap(c, P.Run(env, before).s, source, first);
    var j := Begun(env, c, before, source, first, cancelled);
    P.RunSnoc(env, before, j.events[|before|]);
  }

  lemma GenNext(env: P.Env, y: P.System, e: P.Event)
    ensures y.s.gen <= P.Next(env, y, e).s.gen
    ensures !e.FullReadEnded? ==> P.Next(env, y, e).s.gen == y.s.gen
  {
    hide P.Next, FoldRow, Visited, Pruned;
    P.StoreStep(env, y, e);
    if P.StoreOp(y, e) != [] {
      var t := Trace(y.s, [], map[], 0);
      StepGen(env.identity, t, P.StoreOp(y, e)[0]);
      P.StepApplies(env.identity, t, P.StoreOp(y, e)[0]);
    }
  }

  lemma {:induction false} GenGrows(env: P.Env, events: seq<P.Event>, n: nat)
    requires n <= |events|
    ensures P.Run(env, events[..n]).s.gen <= P.Run(env, events).s.gen
    decreases |events|
  {
    hide P.Next;
    if n == |events| {
      assert events[..n] == events;
    } else {
      var k := |events| - 1;
      GenGrows(env, events[..k], n);
      assert events[..k][..n] == events[..n];
      GenNext(env, P.Run(env, events[..k]), events[k]);
    }
  }

  // ---- what the published figures say of the history ----

  /** The plays a full read of this source would record. */
  function Recorded(c: F.Setting, source: seq<History.Row>): Ask -> int64 {
    (ask: Ask) => (var at: int64 := R.FreshAnswer(c, source, P.KeyOf(ask)); at)
  }

  /** Between two moments of a joint run the store's answer for a key never pruned only grows. */
  lemma MomentsGrow(env: P.Env, c: F.Setting, w: F.World, j: Joint, steps: seq<Step>, m: nat, n: nat, key: uint64)
    requires env.identity == c.identity && Agree(env, c, w, j) && m <= n <= |steps| && F.Good(c, w)
    requires forall s | s in steps :: Allowed(s)
    requires key !in F.After(c, w, Played(env, c, w, j, steps).es).pruned
    ensures var a, b := Played(env, c, w, j, steps[..m]), Played(env, c, w, j, steps[..n]);
            && VisitAnswer(P.Run(env, a.events).s, key) <= VisitAnswer(P.Run(env, b.events).s, key)
            && key !in F.After(c, w, a.es).pruned
  {
    hide P.Run, F.After, F.Good, Allowed, Take, F.Next, VisitAnswer;
    var a, b, all := Played(env, c, w, j, steps[..m]), Played(env, c, w, j, steps[..n]), Played(env, c, w, j, steps);
    assert forall s | s in steps[..n] :: s in steps;
    assert forall s | s in steps[..m] :: s in steps;
    PlayedAgrees(env, c, w, j, steps, n);
    PlayedAgrees(env, c, w, j, steps[..n], m);
    assert steps[..n][..m] == steps[..m];
    PlayedAgrees(env, c, w, j, steps[..m], m);
    var more, rest := b.es[|a.es|..], all.es[|b.es|..];
    assert b.es == a.es + more && all.es == b.es + rest;
    AfterConcat(c, w, a.es, more);
    AfterConcat(c, w, b.es, rest);
    F.GoodRun(c, w, a.es);
    F.FoldedRun(c, F.After(c, w, b.es), rest);
    F.FoldedRun(c, F.After(c, w, a.es), more);
    F.AnswersNeverFall(c, F.After(c, w, a.es), more, key);
  }

  lemma {:induction false} AfterConcat(c: F.Setting, w: F.World, a: seq<F.Timed>, b: seq<F.Timed>)
    ensures F.After(c, w, a + b) == F.After(c, F.After(c, w, a), b)
    decreases |b|
  {
    hide F.Next, F.Possible;
    if b == [] {
      assert a + b == a;
    } else {
      assert (a + b)[..|a + b| - 1] == a + b[..|b| - 1];
      AfterConcat(c, w, a, b[..|b| - 1]);
    }
  }

  /** Along a joint run the rows folded stay folded, and the source keeps its rows. */
  lemma MomentsKeepRows(env: P.Env, c: F.Setting, w: F.World, j: Joint, steps: seq<Step>, i: nat)
    requires env.identity == c.identity && Agree(env, c, w, j) && i <= |steps| && F.Good(c, w)
    requires forall s | s in steps :: Allowed(s)
    ensures var a, b := F.After(c, w, Played(env, c, w, j, steps[..i]).es), F.After(c, w, Played(env, c, w, j, steps).es);
            F.Good(c, a) && forall r | r in a.folded :: r in b.source
  {
    hide P.Run, F.After, F.Good, Allowed, Take, F.Next;
    var a, all := Played(env, c, w, j, steps[..i]), Played(env, c, w, j, steps);
    PlayedAgrees(env, c, w, j, steps, i);
    var more := all.es[|a.es|..];
    assert all.es == a.es + more;
    AfterConcat(c, w, a.es, more);
    F.GoodRun(c, w, a.es);
    F.GoodRun(c, w, all.es);
    F.FoldedRun(c, F.After(c, w, a.es), more);
    F.FoldedStands(c, F.After(c, w, all.es));
  }

  /** An answer of a published walk was given within the joint run, and so is at most what a
      full read made now would record, whatever has been pruned. */
  lemma AnswerWithinHistory(env: P.Env, c: F.Setting, before: seq<P.Event>, source: seq<History.Row>, first: seq<F.Timed>, cancelled: bool,
                            steps: seq<Step>, key: uint64, a: P.Answer)
    requires F.Honest(c) && Starts(env, c, before, source, first) && forall s | s in steps :: Allowed(s)
    requires var w := Opened(env, before, source);
             var all := Played(env, c, w, Begun(env, c, before, source, first, cancelled), steps);
             P.AnsweredThen(env, all.events, key, a) && a.gen == P.Run(env, all.events).s.gen
    ensures var w := Opened(env, before, source);
            var all := Played(env, c, w, Begun(env, c, before, source, first, cancelled), steps);
            a.value <= R.FreshAnswer(c, F.After(c, w, all.es).source, key)
  {
    hide P.Run, F.After, F.Good, F.Honest, Allowed, Take, F.Next, VisitAnswer, Starts, R.FreshAnswer, Opened;
    var w, j := Opened(env, before, source), Begun(env, c, before, source, first, cancelled);
    var all := Played(env, c, w, j, steps);
    assert F.Good(c, w) by { OpenedGood(env, c, before, source); }
    assert env.identity == c.identity by { StartsSame(env, c, before, source, first); }
    BegunAgrees(env, c, before, source, first, cancelled);
    PlayedAgrees(env, c, w, j, steps, 0);
    assert steps[..0] == [];
    assert |j.events| <= a.time by { NotBefore(env, before, j.events, all.events, a.time); }
    var i := MomentOf(env, c, w, j, steps, 0, a.time);
    assert forall s | s in steps[..i] :: s in steps;
    PlayedAgrees(env, c, w, j, steps[..i], 0);
    MomentsKeepRows(env, c, w, j, steps, i);
    R.AnswersAgainst(c, F.After(c, w, Played(env, c, w, j, steps[..i]).es), F.After(c, w, all.es).source, key);
  }

  lemma OpenedGood(env: P.Env, c: F.Setting, before: seq<P.Event>, source: seq<History.Row>)
    ensures F.Good(c, Opened(env, before, source))
  {
    hide P.Run;
    R.OpeningGood(c, P.Run(env, before).s, source);
  }

  lemma StartsSame(env: P.Env, c: F.Setting, before: seq<P.Event>, source: seq<History.Row>, first: seq<F.Timed>)
    requires Starts(env, c, before, source, first)
    ensures env.identity == c.identity
  {
  }

  lemma NotBefore(env: P.Env, before: seq<P.Event>, begun: seq<P.Event>, all: seq<P.Event>, time: nat)
    requires |begun| == |before| + 1 && begun[..|before|] == before && begun <= all && time <= |all|
    requires P.Run(env, begun).s.gen == P.Run(env, before).s.gen + 1
    requires P.Run(env, all[..time]).s.gen == P.Run(env, all).s.gen
    ensures |begun| <= time
  {
    hide P.Run;
    GenGrows(env, all, |begun|);
    assert all[..|begun|] == begun;
    var n := Min(time, |before|);
    GenGrows(env, before, n);
    assert before[..n] == all[..n];
  }

  /** The published watch ages are none fresher than a full read of the history made now would
      give: an item the history knows to be played lately may still be shown as older, never
      the other way round. So of the items last played at or after any time. */
  lemma NoFresherThanTheHistory(env: P.Env, c: F.Setting, before: seq<P.Event>, source: seq<History.Row>, first: seq<F.Timed>,
                                cancelled: bool, steps: seq<Step>, sections: seq<Walks.Library>, l: Walks.Library, now: int, time: int)
    requires F.Honest(c) && Starts(env, c, before, source, first) && forall s | s in steps :: Allowed(s)
    requires var all := Played(env, c, Opened(env, before, source), Begun(env, c, before, source, first, cancelled), steps);
             Publishes(P.SnapshotAt(P.Run(env, all.events), sections, now), l)
    ensures var w := Opened(env, before, source);
            var all := Played(env, c, w, Begun(env, c, before, source, first, cancelled), steps);
            var y := P.Run(env, all.events);
            && l.id in y.evidence
            && var ev := y.evidence[l.id];
            var rows, recorded := FirstRows(ev.rows), ev.c.(played := Recorded(c, F.After(c, w, all.es).source));
            && NoFresher(ShownAges(y.libs[l.id].stats), AgesOf(recorded, rows))
            && CountFrom(ev.c, time, rows) <= CountFrom(recorded, time, rows)
  {
    hide P.Run, F.After, F.Honest, Allowed, Take, Starts, R.FreshAnswer, Opened, Played, FirstRows, Asked, AgesOf, CountFrom, NoFresher,
      Walks.InLibrary, LabelsExact, LibStats.CountsExact, ListsExact, WatchItemsExact, WatchBytesExact, P.AnsweredThen, P.Bracketed, Begun;
    var w := Opened(env, before, source);
    var all := Played(env, c, w, Begun(env, c, before, source, first, cancelled), steps);
    var y := P.Run(env, all.events);
    P.PublishedFiguresAreCurrent(env, all.events, sections, l, now);
    P.AnswersAreTheStores(env, all.events);
    var ev := y.evidence[l.id];
    var rows := FirstRows(ev.rows);
    assert P.FromThen(env, all.events, ev.run);
    var recorded := ev.c.(played := Recorded(c, F.After(c, w, all.es).source));
    PublishedAges(ev.c, rows, ev.stats);
    forall r | r in rows ensures r.key.Some? && ev.c.played(ItemPlay(r.key.value)) <= recorded.played(ItemPlay(r.key.value)) {
      P.ItemsAsked(ev.c, rows, r);
      var q := ItemPlay(r.key.value);
      AnswerWithinHistory(env, c, before, source, first, cancelled, steps, P.KeyOf(q), ev.run.answers[q]);
    }
    AgesFollowAnswers(ev.c, recorded, rows);
    CountRises(ev.c, recorded, time, rows);
  }

  /** At this moment a read has just handed on its last row, after a history in which every
      play arrived in time. */
  ghost predicate ReadOver(env: P.Env, c: F.Setting, w: F.World, j: Joint, steps: seq<Step>) {
    var es := Played(env, c, w, j, steps).es;
    && es != [] && R.PlaysInTime(c, w, es) && F.Finishes(F.After(c, w, es[..|es| - 1]), es[|es| - 1].e)
  }

  /** A walk that began at moment b, after a read had handed on its last row at moment m, began
      with all that a full read of the history, as it stood at that read's last page request,
      would record, but for what had been pruned by then. */
  lemma WalkKnowsTheHistory(env: P.Env, c: F.Setting, before: seq<P.Event>, source: seq<History.Row>, first: seq<F.Timed>, cancelled: bool,
                            steps: seq<Step>, m: nat, b: nat, run: P.LibraryRun, key: uint64)
    requires F.Honest(c) && Starts(env, c, before, source, first) && forall s | s in steps :: Allowed(s)
    requires var w, j := Opened(env, before, source), Begun(env, c, before, source, first, cancelled);
             && m <= b <= |steps| && ReadOver(env, c, w, j, steps[..m])
             && P.FromThen(env, Played(env, c, w, j, steps).events, run) && |Played(env, c, w, j, steps[..b]).events| == run.began
             && key !in F.After(c, w, Played(env, c, w, j, steps[..b]).es).pruned
    ensures var w, j := Opened(env, before, source), Begun(env, c, before, source, first, cancelled);
            R.FreshAnswer(c, F.After(c, w, Played(env, c, w, j, steps[..m]).es).asked, key) <= At(run.base, key)
  {
    hide P.Run, F.After, F.Good, F.Honest, Allowed, Take, F.Next, Starts, R.FreshAnswer, Opened, R.InTime, Begun, F.Finishes;
    var w, j := Opened(env, before, source), Begun(env, c, before, source, first, cancelled);
    var moment := Played(env, c, w, j, steps[..m]);
    assert F.Good(c, w) by { OpenedGood(env, c, before, source); }
    assert env.identity == c.identity by { StartsSame(env, c, before, source, first); }
    BegunAgrees(env, c, before, source, first, cancelled);
    PlayedAgrees(env, c, w, j, steps, b);
    assert forall s | s in steps[..b] :: s in steps;
    assert steps[..b][..m] == steps[..m] && steps[..b][..b] == steps[..b];
    assert Played(env, c, w, j, steps).events[..run.began] == Played(env, c, w, j, steps[..b]).events;
    MomentsGrow(env, c, w, j, steps[..b], m, b, key);
    assert forall s | s in steps[..m] :: s in steps;
    PlayedAgrees(env, c, w, j, steps[..m], 0);
    assert w == R.Opening(P.Run(env, before).s, source) by { OpenedIs(env, before, source); }
    R.FinishRefines(c, P.Run(env, before).s, source, moment.es, key);
  }

  lemma OpenedIs(env: P.Env, before: seq<P.Event>, source: seq<History.Row>)
    ensures Opened(env, before, source) == R.Opening(P.Run(env, before).s, source)
  {
  }

  /** Every walk began at some moment of the joint run, if it began within it. */
  lemma WalkBeganAt(env: P.Env, c: F.Setting, before: seq<P.Event>, source: seq<History.Row>, first: seq<F.Timed>, cancelled: bool,
                    steps: seq<Step>, m: nat, run: P.LibraryRun) returns (b: nat)
    requires Starts(env, c, before, source, first) && m <= |steps| && forall s | s in steps :: Allowed(s)
    requires var w, j := Opened(env, before, source), Begun(env, c, before, source, first, cancelled);
             && run.began <= |Played(env, c, w, j, steps).events| && |Played(env, c, w, j, steps[..m]).events| <= run.began
    ensures var w, j := Opened(env, before, source), Begun(env, c, before, source, first, cancelled);
            m <= b <= |steps| && |Played(env, c, w, j, steps[..b]).events| == run.began
  {
    hide P.Run, F.After, Allowed, Take, Starts, Opened, Begun, Played;
    var w, j := Opened(env, before, source), Begun(env, c, before, source, first, cancelled);
    assert env.identity == c.identity by { StartsSame(env, c, before, source, first); }
    BegunAgrees(env, c, before, source, first, cancelled);
    b := MomentOf(env, c, w, j, steps, m, run.began);
  }

  /** And none staler than a full read would give of the history as of the last page request
      of any read that was over, with every play so far in time, when the walk began, unless
      by then something the walk was to ask about had been pruned. */
  lemma NoStalerThanTheHistory(env: P.Env, c: F.Setting, before: seq<P.Event>, source: seq<History.Row>, first: seq<F.Timed>,
                               cancelled: bool, steps: seq<Step>, m: nat, b: nat, sections: seq<Walks.Library>, l: Walks.Library, now: int, time: int)
    requires F.Honest(c) && Starts(env, c, before, source, first) && forall s | s in steps :: Allowed(s)
    requires var w, j := Opened(env, before, source), Begun(env, c, before, source, first, cancelled);
             var y := P.Run(env, Played(env, c, w, j, steps).events);
             && Publishes(P.SnapshotAt(y, sections, now), l)
             && m <= b <= |steps| && ReadOver(env, c, w, j, steps[..m])
             && (l.id in y.evidence ==>
                   && |Played(env, c, w, j, steps[..b]).events| == y.evidence[l.id].run.began
                   && forall q | q in y.evidence[l.id].run.answers ::
                        P.KeyOf(q) !in F.After(c, w, Played(env, c, w, j, steps[..b]).es).pruned)
    ensures var w, j := Opened(env, before, source), Begun(env, c, before, source, first, cancelled);
            var y := P.Run(env, Played(env, c, w, j, steps).events);
            && l.id in y.evidence
            && var ev := y.evidence[l.id];
            var recorded := ev.c.(played := Recorded(c, F.After(c, w, Played(env, c, w, j, steps[..m]).es).asked));
            && NoFresher(AgesOf(recorded, FirstRows(ev.rows)), ShownAges(y.libs[l.id].stats))
            && CountFrom(recorded, time, FirstRows(ev.rows)) <= CountFrom(ev.c, time, FirstRows(ev.rows))
  {
    hide P.Run, F.After, F.Honest, Allowed, Take, Starts, R.FreshAnswer, Opened, Played, FirstRows, Asked, AgesOf, CountFrom, NoFresher,
      Walks.InLibrary, LabelsExact, LibStats.CountsExact, ListsExact, WatchItemsExact, WatchBytesExact, P.FromThen, Begun, ReadOver;
    var w, j := Opened(env, before, source), Begun(env, c, before, source, first, cancelled);
    var all := Played(env, c, w, j, steps);
    var y := P.Run(env, all.events);
    P.PublishedFiguresAreCurrent(env, all.events, sections, l, now);
    P.AnswersAreTheStores(env, all.events);
    var ev := y.evidence[l.id];
    var rows := FirstRows(ev.rows);
    var recorded := ev.c.(played := Recorded(c, F.After(c, w, Played(env, c, w, j, steps[..m]).es).asked));
    PublishedAges(ev.c, rows, ev.stats);
    forall r | r in rows ensures r.key.Some? && recorded.played(ItemPlay(r.key.value)) <= ev.c.played(ItemPlay(r.key.value)) {
      P.ItemsAsked(ev.c, rows, r);
      var q := ItemPlay(r.key.value);
      assert P.Bracketed(y, ev.run, q);
      WalkKnowsTheHistory(env, c, before, source, first, cancelled, steps, m, b, ev.run, P.KeyOf(q));
    }
    AgesFollowAnswers(recorded, ev.c, rows);
    CountRises(recorded, ev.c, time, rows);
  }
}
