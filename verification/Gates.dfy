/** What the published flags and figures rest on, told by the events of a run alone
    (internal/server/walk.go, internal/server/collect_catalog.go, internal/history/history.go):
    which walks succeeded, which passes are over, which rebuilds are owed a signal, and when
    exactly a library's watch figures and the completeness flags are out. */
module Gates {
  import opened Ints
  import opened History
  import opened StoreRuns
  import opened LibStats
  import opened Aggregator
  import opened Walks
  import opened Catalog
  import P = Protocol
  import Ranking

  // ---- what the walks of a library came to ----

  /** The event stores the end of a walk. */
  ghost predicate EndsWalk(env: P.Env, y: P.System, e: P.Event) {
    && e.WalkStored? && y.walker.Reading? && y.walker.run.gen1.Some? && y.walker.pass.through < |y.walker.pass.walk|
    && P.Computed(env, y.walker.pass.walk[y.walker.pass.through], y.walker.run, e.items, e.result)
  }

  ghost predicate EndsWalkOf(env: P.Env, y: P.System, e: P.Event, id: string) {
    EndsWalk(env, y, e) && y.walker.pass.walk[y.walker.pass.through].id == id
  }

  /** The event ends a full pass. */
  predicate EndsFullPass(y: P.System, e: P.Event) {
    e.PassOver? && y.walker.Between? && y.walker.pass.through == |y.walker.pass.walk| && !y.walker.pass.stale
  }

  /** It forgets the libraries that the pass had none of. */
  predicate Forgets(y: P.System, e: P.Event, id: string) {
    EndsFullPass(y, e) && forall l | l in y.walker.pass.walk :: l.id != id
  }

  /** One end of a walk: what the aggregation returned and when the context ended. */
  datatype Tried = Tried(result: WalkResult, context: Context)

  /** The walks of a library since it was last forgotten. */
  ghost function Walked(env: P.Env, events: seq<P.Event>, id: string): seq<Tried> {
    if events == [] then []
    else
      var before, e := events[..|events| - 1], events[|events| - 1];
      var y := P.Run(env, before);
      if EndsWalkOf(env, y, e, id) then Walked(env, before, id) + [Tried(e.result, e.context)]
      else if Forgets(y, e, id) then []
      else Walked(env, before, id)
  }

  /** The walk broke off because the exporter was shutting down. */
  predicate ShutDown(t: Tried) {
    t.result.Failed? && t.context == EndsDuring
  }

  /** The last walk that was not broken off that way failed. */
  predicate LastFailed(tried: seq<Tried>) {
    exists i :: 0 <= i < |tried| && tried[i].result.Failed? && tried[i].context != EndsDuring
             && forall j | i < j < |tried| :: ShutDown(tried[j])
  }

  /** The last walk that was not broken off that way succeeded. */
  predicate LastSucceeded(tried: seq<Tried>) {
    exists i :: 0 <= i < |tried| && tried[i].result.Figures? && forall j | i < j < |tried| :: ShutDown(tried[j])
  }

  predicate SomeSucceeded(tried: seq<Tried>) {
    exists i :: 0 <= i < |tried| && tried[i].result.Figures?
  }

  /** The figures were aggregated as of the walk's start, for the library's own kind, under the
      labels the exporter uses. */
  ghost predicate WalkedAs(env: P.Env, ev: P.Evidence) {
    && ev.c.now == ev.run.started && (ev.c.showLibrary <==> ev.library.kind == ShowType)
    && ev.c.resolutionBucket == env.resolutionBucket && ev.c.normalizeCodec == env.normalizeCodec
  }

  /** What one event does to a library's entry. */
  lemma EntryNext(env: P.Env, y: P.System, e: P.Event, id: string)
    ensures var z := P.Next(env, y, e);
            if EndsWalkOf(env, y, e, id) then
              && id in z.libs
              && (if e.result.Figures? then
                    && z.libs[id].walked && !z.libs[id].failed && id in z.evidence && z.evidence[id].run == y.walker.run
                    && z.libs[id].stamp == (if y.walker.run.gen0 == y.walker.run.gen1.value then y.walker.run.gen0 else 0)
                    && z.libs[id].lastSuccess == e.ended && z.libs[id].duration == e.ended - y.walker.run.started
                    && WalkedAs(env, z.evidence[id])
                  else
                    && z.libs[id] == EntryOf(y.libs, id).(failed := EntryOf(y.libs, id).failed || e.context != EndsDuring)
                    && (id in z.evidence <==> id in y.evidence) && (id in y.evidence ==> z.evidence[id] == y.evidence[id]))
            else
              && (id in z.libs <==> id in y.libs && !Forgets(y, e, id)) && (id in z.libs ==> z.libs[id] == y.libs[id])
              && (id in z.evidence <==> id in y.evidence) && (id in y.evidence ==> z.evidence[id] == y.evidence[id])
  {
    hide FoldRow, Pruned, EndBootstrap, EndIncrement, Visited, VisitAnswer, P.Computed, IsWalkable, Skips, P.StampableGen, P.WalkConfig, WalkedAs,
      InLibrary, LibsAfter, EntryAfter, EntryOf, Stamp, ViewAt, P.PassStartedAt, P.VisitedAt, P.FullReadEndedAt, P.PrunedNow;
    match e {
      case WalkStored(_, _, _, _) => EntryStored(env, y, e, id);
      case PassOver =>
      case PassStarted(stale, _, walk, skipped, cutoff) => StartKeepsEntries(y, stale, walk, skipped, cutoff);
      case Visit(ask) => if y.walker.Reading? { VisitKeepsEntries(y, ask); }
      case PruneAsked => if y.walker.Pruning? { PruneKeepsEntries(y); }
      case FullReadEnded(_, _, _, _) => ReadKeepsEntries(env, y, e);
      case _ =>
    }
  }

  lemma EntryStored(env: P.Env, y: P.System, e: P.Event, id: string)
    requires e.WalkStored?
    ensures var z := P.Next(env, y, e);
            if EndsWalkOf(env, y, e, id) then
              && id in z.libs
              && (if e.result.Figures? then
                    && z.libs[id].walked && !z.libs[id].failed && id in z.evidence && z.evidence[id].run == y.walker.run
                    && z.libs[id].stamp == (if y.walker.run.gen0 == y.walker.run.gen1.value then y.walker.run.gen0 else 0)
                    && z.libs[id].lastSuccess == e.ended && z.libs[id].duration == e.ended - y.walker.run.started
                    && WalkedAs(env, z.evidence[id])
                  else
                    && z.libs[id] == EntryOf(y.libs, id).(failed := EntryOf(y.libs, id).failed || e.context != EndsDuring)
                    && (id in z.evidence <==> id in y.evidence) && (id in y.evidence ==> z.evidence[id] == y.evidence[id]))
            else
              && (id in z.libs <==> id in y.libs) && (id in z.libs ==> z.libs[id] == y.libs[id])
              && (id in z.evidence <==> id in y.evidence) && (id in y.evidence ==> z.evidence[id] == y.evidence[id])
  {
    hide P.Computed, InLibrary, StatsOf;
  }

  lemma StartKeepsEntries(y: P.System, stale: bool, walk: seq<Library>, skipped: nat, cutoff: int)
    ensures var z := P.PassStartedAt(y, stale, walk, skipped, cutoff); z.libs == y.libs && z.evidence == y.evidence
  {
  }

  lemma VisitKeepsEntries(y: P.System, ask: Ask)
    requires y.walker.Reading?
    ensures var z := P.VisitedAt(y, y.walker.pass, y.walker.run, ask); z.libs == y.libs && z.evidence == y.evidence
  {
    hide Visited;
  }

  lemma PruneKeepsEntries(y: P.System)
    requires y.walker.Pruning?
    ensures var z := P.PrunedNow(y, y.walker.pass); z.libs == y.libs && z.evidence == y.evidence
  {
    hide Pruned;
  }

  lemma ReadKeepsEntries(env: P.Env, y: P.System, e: P.Event)
    requires e.FullReadEnded?
    ensures var z := P.Next(env, y, e); z.libs == y.libs && z.evidence == y.evidence
  {
    hide EndBootstrap;
  }

  lemma TriedSnoc(tried: seq<Tried>, t: Tried)
    ensures SomeSucceeded(tried + [t]) <==> SomeSucceeded(tried) || t.result.Figures?
    ensures LastFailed(tried + [t]) <==> (t.result.Failed? && (t.context != EndsDuring || LastFailed(tried)))
    ensures LastSucceeded(tried + [t]) <==> t.result.Figures? || (ShutDown(t) && LastSucceeded(tried))
  {
    var all := tried + [t];
    assert all[|tried|] == t;
    assert forall i | 0 <= i < |tried| :: all[i] == tried[i];
    if LastFailed(tried) && ShutDown(t) {
      var i :| 0 <= i < |tried| && tried[i].result.Failed? && tried[i].context != EndsDuring && forall j | i < j < |tried| :: ShutDown(tried[j]);
      assert forall j | i < j < |all| :: ShutDown(all[j]);
    }
    if LastSucceeded(tried) && ShutDown(t) {
      var i :| 0 <= i < |tried| && tried[i].result.Figures? && forall j | i < j < |tried| :: ShutDown(tried[j]);
      assert forall j | i < j < |all| :: ShutDown(all[j]);
    }
    if SomeSucceeded(tried) {
      var i :| 0 <= i < |tried| && tried[i].result.Figures?;
      assert all[i].result.Figures?;
    }
  }

  /** In every interleaving a library has an entry when it has been walked at all since it was
      last forgotten; the entry is one of figures when a walk succeeded, and marked failed
      exactly when the last one failed that shutting down did not break off. */
  lemma {:induction false} EntryMeans(env: P.Env, events: seq<P.Event>, id: string)
    ensures var y, tried := P.Run(env, events), Walked(env, events, id);
            && (id in y.libs <==> tried != [])
            && (id in y.libs ==> (y.libs[id].walked <==> SomeSucceeded(tried)) && (y.libs[id].failed <==> LastFailed(tried)))
  {
    hide P.Next, EndsWalkOf, Forgets, LastFailed, SomeSucceeded;
    if events == [] {
      assert P.Run(env, events) == P.INITIAL;
    } else {
      var before, e := events[..|events| - 1], events[|events| - 1];
      EntryMeans(env, before, id);
      EntryNext(env, P.Run(env, before), e, id);
      var tried := Walked(env, before, id);
      if EndsWalkOf(env, P.Run(env, before), e, id) {
        assert e.WalkStored? by { EndsWalkIsStored(env, P.Run(env, before), e, id); }
        TriedSnoc(tried, Tried(e.result, e.context));
        NothingTried();
      }
    }
  }

  lemma EndsWalkIsStored(env: P.Env, y: P.System, e: P.Event, id: string)
    requires EndsWalkOf(env, y, e, id)
    ensures e.WalkStored?
  {
  }

  lemma NothingTried()
    ensures !SomeSucceeded([]) && !LastFailed([])
  {
  }

  lemma {:induction false} FailedOrSucceeded(tried: seq<Tried>)
    ensures SomeSucceeded(tried) && !LastFailed(tried) <==> LastSucceeded(tried)
  {
    if tried != [] {
      var n := |tried| - 1;
      FailedOrSucceeded(tried[..n]);
      assert tried == tried[..n] + [tried[n]];
      TriedSnoc(tried[..n], tried[n]);
    }
  }

  // ---- passes ----

  /** A full pass has ended. */
  ghost predicate FullPassOver(env: P.Env, events: seq<P.Event>) {
    exists i :: 0 <= i < |events| && EndsFullPass(P.Run(env, events[..i]), events[i])
  }

  lemma PassDoneNext(env: P.Env, y: P.System, e: P.Event)
    ensures P.Next(env, y, e).passDone <==> y.passDone || EndsFullPass(y, e)
  {
    hide FoldRow, Pruned, EndBootstrap, EndIncrement, Visited, VisitAnswer, P.Computed, IsWalkable, Skips, P.StampableGen, P.WalkConfig,
      LibsAfter;
    match e {
      case PassOver =>
      case PassStarted(_, _, _, _, _) =>
      case WalkStored(_, _, _, _) =>
      case Visit(_) =>
      case _ =>
    }
  }

  lemma {:induction false} PassDoneMeans(env: P.Env, events: seq<P.Event>)
    ensures P.Run(env, events).passDone <==> FullPassOver(env, events)
  {
    hide P.Next, EndsFullPass;
    if events != [] {
      var n := |events| - 1;
      var before := events[..n];
      PassDoneMeans(env, before);
      PassDoneNext(env, P.Run(env, before), events[n]);
      assert forall i | 0 <= i < n :: events[..i] == before[..i] && events[i] == before[i];
    }
  }

  predicate StartsPass(y: P.System, z: P.System, e: P.Event) {
    e.PassStarted? && z.walker.Between? && !y.walker.Between?
  }

  /** What the walks of the pass under way, or of the last one, came to. */
  ghost function Returned(env: P.Env, events: seq<P.Event>): seq<Tried> {
    if events == [] then []
    else
      var before, e := events[..|events| - 1], events[|events| - 1];
      var y, z := P.Run(env, before), P.Run(env, events);
      if StartsPass(y, z, e) then []
      else if EndsWalk(env, y, e) then Returned(env, before) + [Tried(e.result, e.context)]
      else Returned(env, before)
  }

  predicate AllFigures(tried: seq<Tried>) {
    forall t | t in tried :: t.result.Figures?
  }

  /** None of them found that the exporter was shutting down. */
  predicate AllLive(tried: seq<Tried>) {
    forall t | t in tried :: t.context == Live
  }

  /** What one event does to the pass under way. */
  lemma PassNext(env: P.Env, y: P.System, e: P.Event)
    ensures var z := P.Next(env, y, e);
            if StartsPass(y, z, e) then z.walker.pass.allOk
            else if EndsWalk(env, y, e) then
              && (z.walker.Between? ==> (z.walker.pass.allOk <==> y.walker.pass.allOk && e.result.Figures?))
              && (z.walker.Between? <==> e.context == Live)
            else
              z.walker.Between? || z.walker.Reading? || z.walker.Pruning? ==>
                (y.walker.Between? || y.walker.Reading? || y.walker.Pruning?) && z.walker.pass.allOk == y.walker.pass.allOk
    ensures EndsWalk(env, y, e) ==> P.Next(env, y, e).walker.Between? || P.Next(env, y, e).walker.Waiting?
  {
    hide FoldRow, Pruned, EndBootstrap, EndIncrement, Visited, VisitAnswer, P.Computed, IsWalkable, Skips, P.StampableGen, P.WalkConfig,
      LibsAfter;
    match e {
      case PassStarted(_, _, _, _, _) =>
      case LibrarySkipped =>
      case WalkStarted(_, _) =>
      case Visit(_) =>
      case VisitsOver(_) =>
      case WalkStored(_, _, _, _) =>
      case PassOver =>
      case PruneAsked =>
      case SignalTaken =>
      case _ =>
    }
  }

  /** A pass under way has had a failure exactly when one of its walks failed, and stops at the
      first that finds the exporter shutting down. */
  lemma {:induction false} PassMeans(env: P.Env, events: seq<P.Event>)
    ensures var y := P.Run(env, events);
            y.walker.Between? || y.walker.Reading? || y.walker.Pruning? ==>
              (y.walker.pass.allOk <==> AllFigures(Returned(env, events))) && AllLive(Returned(env, events))
  {
    hide P.Next, EndsWalk;
    if events != [] {
      var before, e := events[..|events| - 1], events[|events| - 1];
      PassMeans(env, before);
      PassNext(env, P.Run(env, before), e);
      if EndsWalk(env, P.Run(env, before), e) {
        EndsWalkStores(env, P.Run(env, before), e);
        var tried, t := Returned(env, before), Tried(e.result, e.context);
        assert forall r :: r in tried + [t] <==> r in tried || r == t;
      }
    }
  }

  lemma EndsWalkStores(env: P.Env, y: P.System, e: P.Event)
    requires EndsWalk(env, y, e)
    ensures e.WalkStored? && y.walker.Reading?
  {
  }

  /** A prune is asked for exactly at the end of a full pass that skipped no library and all of
      whose walks succeeded. */
  lemma PruneIsAskedIff(env: P.Env, events: seq<P.Event>)
    requires var y := P.Run(env, events); y.walker.Between? && y.walker.pass.through == |y.walker.pass.walk|
    ensures var y := P.Run(env, events);
            P.Next(env, y, P.PassOver).walker.Pruning?
            <==> !y.walker.pass.stale && y.walker.pass.skipped == 0 && AllFigures(Returned(env, events))
  {
    hide P.Run, Returned, AllFigures;
    PassMeans(env, events);
  }

  /** What a stale-only pass is at is never a library whose figures are stamped with the
      generation it took already. */
  lemma {:induction false} StalePassLeavesFreshOnes(env: P.Env, events: seq<P.Event>)
    ensures var y := P.Run(env, events);
            y.walker.Reading? && y.walker.pass.stale && y.walker.pass.through < |y.walker.pass.walk| ==>
              var id := y.walker.pass.walk[y.walker.pass.through].id;
              id in y.libs && y.libs[id].walked ==> y.libs[id].stamp != y.walker.pass.gen
  {
    hide P.Next;
    if events != [] {
      var before, e := events[..|events| - 1], events[|events| - 1];
      StalePassLeavesFreshOnes(env, before);
      ReadingNext(env, P.Run(env, before), e);
    }
  }

  lemma ReadingNext(env: P.Env, y: P.System, e: P.Event)
    ensures var z := P.Next(env, y, e);
            z.walker.Reading? && z.walker.pass.through < |z.walker.pass.walk| ==>
              && z.libs == y.libs
              && (if y.walker.Reading? then
                    z.walker.pass.walk == y.walker.pass.walk && z.walker.pass.through == y.walker.pass.through
                    && z.walker.pass.gen == y.walker.pass.gen && z.walker.pass.stale == y.walker.pass.stale
                  else
                    z.walker.pass.stale ==>
                      var id := z.walker.pass.walk[z.walker.pass.through].id;
                      id in z.libs && z.libs[id].walked ==> z.libs[id].stamp != z.walker.pass.gen)
  {
    hide FoldRow, Pruned, EndBootstrap, EndIncrement, Visited, VisitAnswer, P.Computed, IsWalkable, P.StampableGen, P.WalkConfig,
      LibsAfter, ViewAt, EntryOf;
    match e {
      case PassStarted(_, _, _, _, _) =>
      case WalkStarted(_, _) =>
      case Visit(_) =>
      case VisitsOver(_) =>
      case WalkStored(_, _, _, _) =>
      case _ =>
    }
  }

  // ---- rebuild signals ----

  /** The generation of the last completed full read of the run, 0 when there is none; one that
      shutting down interrupts owes no signal. */
  ghost function LastRebuild(env: P.Env, events: seq<P.Event>): nat {
    if events == [] then 0
    else
      var before, e := events[..|events| - 1], events[|events| - 1];
      if e.FullReadEnded? && P.Run(env, before).rebuilt.None? then
        if e.outcome == Finished && !e.cancelled then P.Run(env, events).s.gen else LastRebuild(env, before)
      else LastRebuild(env, before)
  }

  lemma RebuiltNext(env: P.Env, y: P.System, e: P.Event)
    ensures var z := P.Next(env, y, e);
            && (e.FullReadEnded? && y.rebuilt.None? ==>
                  z.signalled == y.signalled
                  && z.rebuilt == (if e.outcome == Finished && !e.cancelled then Some(z.s.gen) else None) && y.s.gen < z.s.gen)
            && (e.SignalSent? && y.rebuilt.Some? ==> z.signalled == y.rebuilt.value && z.rebuilt.None?)
            && (!(e.FullReadEnded? && y.rebuilt.None?) && !(e.SignalSent? && y.rebuilt.Some?) ==>
                  z.signalled == y.signalled && z.rebuilt == y.rebuilt)
  {
    hide FoldRow, Pruned, FoldAll, NewestTime, EndIncrement, Visited, VisitAnswer, P.Computed, IsWalkable, Skips, P.StampableGen, P.WalkConfig,
      LibsAfter;
    match e {
      case FullReadEnded(_, _, _, _) =>
      case SignalSent =>
      case PassStarted(_, _, _, _, _) =>
      case WalkStored(_, _, _, _) =>
      case PassOver =>
      case Visit(_) =>
      case _ =>
    }
  }

  /** Every completed full read owes the walk loop a signal: it is still to be sent, or has
      been, of a generation no older. */
  lemma {:induction false} RebuildsAreSignalled(env: P.Env, events: seq<P.Event>)
    ensures var y := P.Run(env, events);
            y.rebuilt == Some(LastRebuild(env, events)) || (y.rebuilt.None? && LastRebuild(env, events) <= y.signalled)
  {
    hide P.Next;
    if events != [] {
      var before, e := events[..|events| - 1], events[|events| - 1];
      RebuildsAreSignalled(env, before);
      RebuiltNext(env, P.Run(env, before), e);
    }
  }

  /** So while the walk loop waits with the channel empty, and no signal is being sent, a
      stale-only pass has taken a generation no older than the last completed full read. */
  lemma NoRebuildUnserved(env: P.Env, events: seq<P.Event>)
    requires var y := P.Run(env, events); y.walker.Waiting? && !y.signal && y.rebuilt.None?
    ensures LastRebuild(env, events) <= P.Run(env, events).served
  {
    hide P.Run, P.LibraryOk, P.MarksBounded;
    RebuildsAreSignalled(env, events);
    P.RunInv(env, events);
  }

  /** The stale-only passes begun. */
  ghost function StalePasses(env: P.Env, events: seq<P.Event>): nat {
    if events == [] then 0
    else
      var before, e := events[..|events| - 1], events[|events| - 1];
      StalePasses(env, before) + if e.PassStarted? && e.stale && StartsPass(P.Run(env, before), P.Run(env, events), e) then 1 else 0
  }

  /** The full reads completed that owe a signal. */
  ghost function Rebuilds(env: P.Env, events: seq<P.Event>): nat {
    if events == [] then 0
    else
      var before, e := events[..|events| - 1], events[|events| - 1];
      Rebuilds(env, before)
      + if e.FullReadEnded? && P.Run(env, before).rebuilt.None? && e.outcome == Finished && !e.cancelled then 1 else 0
  }

  /** Signals on their way: owed, in the channel, or taken with the pass still to begin. */
  function OnTheWay(y: P.System): nat {
    (if y.rebuilt.Some? then 1 else 0) + (if y.signal then 1 else 0) + if y.walker.Signalled? then 1 else 0
  }

  lemma OnTheWayNext(env: P.Env, y: P.System, e: P.Event)
    ensures var z := P.Next(env, y, e);
            OnTheWay(z) + (if e.PassStarted? && e.stale && StartsPass(y, z, e) then 1 else 0)
            <= OnTheWay(y) + if e.FullReadEnded? && y.rebuilt.None? && e.outcome == Finished && !e.cancelled then 1 else 0
  {
    hide FoldRow, Pruned, EndBootstrap, EndIncrement, Visited, VisitAnswer, ViewAt, EntryOf, P.Computed, IsWalkable, Skips, P.StampableGen, P.WalkConfig,
      LibsAfter;
    match e {
      case FullReadEnded(_, _, _, _) =>
      case SignalSent =>
      case SignalTaken =>
      case PassStarted(_, _, _, _, _) =>
      case WalkStored(_, _, _, _) =>
      case PassOver =>
      case Visit(_) =>
      case _ =>
    }
  }

  /** No stale-only pass without a rebuild: signals that meet in the channel become one, and
      none comes from nowhere. */
  lemma {:induction false} StalePassesAreOwed(env: P.Env, events: seq<P.Event>)
    ensures StalePasses(env, events) + OnTheWay(P.Run(env, events)) <= Rebuilds(env, events)
  {
    hide P.Next, OnTheWay, StartsPass;
    if events != [] {
      var before, e := events[..|events| - 1], events[|events| - 1];
      StalePassesAreOwed(env, before);
      OnTheWayNext(env, P.Run(env, before), e);
    } else {
      NothingOnTheWay();
    }
  }

  lemma NothingOnTheWay()
    ensures OnTheWay(P.INITIAL) == 0
  {
  }

  // ---- what a stamp says ----

  /** History was current, at this generation, when the walk began and when its visits were
      over. */
  ghost predicate CurrentAtEnds(env: P.Env, events: seq<P.Event>, began: nat, gen: nat) {
    && began < |events| && events[began].WalkStarted? && CurrentAt(env, events, began, gen)
    && exists j :: began < j < |events| && events[j].VisitsOver? && CurrentAt(env, events, j, gen)
  }

  ghost predicate CurrentAt(env: P.Env, events: seq<P.Event>, i: nat, gen: nat)
    requires i < |events| && (events[i].WalkStarted? || events[i].VisitsOver?)
  {
    var s := P.Run(env, events[..i]).s;
    s.gen == gen && ViewAt(s, events[i].now).current
  }

  /** A walk's two generations are those its events found stampable. */
  ghost predicate GensFrom(env: P.Env, events: seq<P.Event>, run: P.LibraryRun) {
    && run.began < |events| && events[run.began].WalkStarted?
    && run.started == events[run.began].started
    && run.gen0 == P.StampableGen(P.Run(env, events[..run.began]).s, events[run.began].now)
    && (run.gen1.Some? ==>
          exists j :: run.began < j < |events| && events[j].VisitsOver?
                   && run.gen1.value == P.StampableGen(P.Run(env, events[..j]).s, events[j].now))
  }

  ghost predicate AllGensFrom(env: P.Env, events: seq<P.Event>) {
    var y := P.Run(env, events);
    && (y.walker.Reading? ==> GensFrom(env, events, y.walker.run))
    && forall id | id in y.libs && y.libs[id].walked ::
         && id in y.evidence && GensFrom(env, events, y.evidence[id].run) && y.evidence[id].run.gen1.Some? && WalkedAs(env, y.evidence[id])
         && y.libs[id].stamp == (if y.evidence[id].run.gen0 == y.evidence[id].run.gen1.value then y.evidence[id].run.gen0 else 0)
  }

  lemma StillGensFrom(env: P.Env, events: seq<P.Event>, e: P.Event, run: P.LibraryRun)
    requires GensFrom(env, events, run)
    ensures GensFrom(env, events + [e], run)
  {
    hide P.Run;
    var all := events + [e];
    assert all[..run.began] == events[..run.began];
    if run.gen1.Some? {
      var j :| run.began < j < |events| && events[j].VisitsOver?
               && run.gen1.value == P.StampableGen(P.Run(env, events[..j]).s, events[j].now);
      assert all[..j] == events[..j] && all[j] == events[j];
    }
  }

  lemma GensFromNext(env: P.Env, events: seq<P.Event>, e: P.Event)
    requires P.Run(env, events).clock == |events| && AllGensFrom(env, events)
    requires P.RunsMove(P.Run(env, events), P.Run(env, events + [e]), e)
    requires P.Run(env, events + [e]).walker.Reading?
    ensures GensFrom(env, events + [e], P.Run(env, events + [e]).walker.run)
  {
    hide P.Run, P.StampableGen;
    var y, all := P.Run(env, events), events + [e];
    var run := P.Run(env, all).walker.run;
    assert all[..|events|] == events && all[|events|] == e;
    if y.walker.Reading? {
      StillGensFrom(env, events, e, y.walker.run);
    }
  }

  lemma {:induction false} GensAreFound(env: P.Env, events: seq<P.Event>)
    ensures AllGensFrom(env, events)
  {
    hide P.Next, P.RunsMove, GensFrom, EndsWalkOf, Forgets, WalkedAs;
    if events != [] {
      var n := |events| - 1;
      var before, e := events[..n], events[n];
      var y, z := P.Run(env, before), P.Run(env, events);
      GensAreFound(env, before);
      P.AnswersAreTheStores(env, before);
      P.NextRunsMove(env, y, e);
      assert events == before + [e];
      if z.walker.Reading? {
        GensFromNext(env, before, e);
      }
      forall id | id in z.libs && z.libs[id].walked
        ensures id in z.evidence && GensFrom(env, events, z.evidence[id].run) && z.evidence[id].run.gen1.Some? && WalkedAs(env, z.evidence[id])
             && z.libs[id].stamp == (if z.evidence[id].run.gen0 == z.evidence[id].run.gen1.value then z.evidence[id].run.gen0 else 0)
      {
        EntryNext(env, y, e, id);
        if EndsWalkOf(env, y, e, id) {
          assert e.WalkStored? && y.walker.Reading? && y.walker.run.gen1.Some? by { EndsWalkOver(env, y, e, id); }
          StillGensFrom(env, before, e, y.walker.run);
        }
        if id in y.libs && y.libs[id].walked {
          StillGensFrom(env, before, e, y.evidence[id].run);
        }
      }
    }
  }

  lemma EndsWalkOver(env: P.Env, y: P.System, e: P.Event, id: string)
    requires EndsWalkOf(env, y, e, id)
    ensures e.WalkStored? && y.walker.Reading? && y.walker.run.gen1.Some?
  {
  }

  /** A stored walk is stamped with a generation only when history was current at that
      generation both when the walk began and when its visits were over. */
  lemma StampMeans(env: P.Env, events: seq<P.Event>, id: string)
    requires var y := P.Run(env, events); id in y.libs && y.libs[id].walked && y.libs[id].stamp != 0
    ensures var y := P.Run(env, events);
            id in y.evidence && CurrentAtEnds(env, events, y.evidence[id].run.began, y.libs[id].stamp)
  {
    hide P.Run;
    GensAreFound(env, events);
    var y := P.Run(env, events);
    var run := y.evidence[id].run;
    var j :| run.began < j < |events| && events[j].VisitsOver?
             && run.gen1.value == P.StampableGen(P.Run(env, events[..j]).s, events[j].now);
    assert CurrentAt(env, events, j, y.libs[id].stamp);
  }

  /** The stored lists and figures of a library are those of one walk: of its kind, as of the
      time it began, and every listed item under the library's own id and type. */
  lemma StoredAsWalked(env: P.Env, events: seq<P.Event>, id: string)
    requires var y := P.Run(env, events); id in y.libs && y.libs[id].walked
    ensures var y := P.Run(env, events);
            && id in y.evidence
            && var ev, st := y.evidence[id], y.libs[id].stats;
            && WalkedAs(env, ev) && ev.library.id == id && ev.run.began < |events| && events[ev.run.began].WalkStarted?
            && ev.run.started == events[ev.run.began].started
            && |st.recent| == |ev.stats.recent| && |st.largest| == |ev.stats.largest|
            && (forall i | 0 <= i < |st.recent| ::
                  st.recent[i].libraryId == id && st.recent[i].libraryType == ev.library.kindName
                  && st.recent[i].ratingKey == ev.stats.recent[i].ratingKey && st.recent[i].addedAt == ev.stats.recent[i].addedAt)
            && (forall i | 0 <= i < |st.largest| ::
                  st.largest[i].libraryId == id && st.largest[i].libraryType == ev.library.kindName
                  && st.largest[i].ratingKey == ev.stats.largest[i].ratingKey && st.largest[i].bytes == ev.stats.largest[i].bytes
                  && st.largest[i].lastPlayed == ev.stats.largest[i].lastPlayed)
  {
    hide P.Run, StatsOf, Asked, FirstRows, P.AnswersOk, P.OneGeneration;
    GensAreFound(env, events);
    P.RunInv(env, events);
    assert P.LibraryOk(P.Run(env, events), id);
  }

  /** The published newest items leave out no walked library: whatever its last walk could list
      as new is published, or led by ten that are. */
  lemma NewestCoverEveryLibrary(env: P.Env, events: seq<P.Event>, sections: seq<Library>, walkable: seq<Library>, now: int,
                                newest: seq<Ranking.Item>, l: Library, it: Ranking.Item)
    requires Ranking.IsTop(Ranking.ByAdded, newest, Ranking.Joined(RecentLists(P.SnapshotAt(P.Run(env, events), sections, now), walkable)))
    requires l in walkable && SomeSucceeded(Walked(env, events, l.id)) && it in P.NewItems(P.Run(env, events), l)
    ensures it in newest || (|newest| == 10 && forall x | x in newest ::
              x.addedAt > it.addedAt || (x.addedAt == it.addedAt && x.ratingKey <= it.ratingKey))
  {
    hide P.Run, Ranking.IsTop, P.NewItems, Walked, SomeSucceeded, Ranking.Joined, RecentLists, ListsOf;
    var y := P.Run(env, events);
    var snap := P.SnapshotAt(y, sections, now);
    var all := (k: Library) => P.NewItems(y, k);
    P.PublishedNewestIsOfAll(env, events, sections, walkable, now, newest);
    EntryMeans(env, events, l.id);
    NothingTried();
    assert HasWalk(snap, l);
    JoinedCovers(snap, walkable, all, l, it);
    var dropped := Ranking.SplitTop(Ranking.ByAdded, newest, Ranking.Joined(ListsOf(snap, walkable, all)));
    if it !in newest {
      assert it in multiset(newest) + multiset(dropped);
      assert it in dropped;
      var j :| 0 <= j < |dropped| && dropped[j] == it;
      forall x | x in newest ensures x.addedAt > it.addedAt || (x.addedAt == it.addedAt && x.ratingKey <= it.ratingKey) {
        var i :| 0 <= i < |newest| && newest[i] == x;
        assert !Ranking.Before(Ranking.ByAdded, dropped[j], newest[i]);
      }
    }
  }

  lemma {:induction false} JoinedCovers(snap: Snapshot, walkable: seq<Library>, all: Library -> seq<Ranking.Item>, l: Library, it: Ranking.Item)
    requires l in walkable && HasWalk(snap, l) && it in all(l)
    ensures it in Ranking.Joined(ListsOf(snap, walkable, all))
  {
    var n := |walkable| - 1;
    assert walkable == walkable[..n] + [walkable[n]];
    var before := ListsOf(snap, walkable[..n], all);
    if HasWalk(snap, walkable[n]) {
      assert (before + [all(walkable[n])])[..|before|] == before;
    }
    if l != walkable[n] {
      JoinedCovers(snap, walkable[..n], all, l, it);
    } else {
      assert it in multiset(all(l));
    }
  }

  // ---- when figures and flags are out ----

  /** History, as the events tell it: its last full read completed, a read ended well within
      the hour, and no row folded since that full read began may be an unnoticed play. */
  ghost predicate Vouches(env: P.Env, events: seq<P.Event>, now: int) {
    var ops := P.StoreOps(env, events);
    && LastFullReadCompleted(ops) && SucceededSince(ops, now - 3600 * 1_000_000_000)
    && forall r | r in StoreRuns.Run(env.identity, ops).folded :: !MayBeAPlay(r)
  }

  lemma VouchesMeans(env: P.Env, events: seq<P.Event>, now: int)
    requires InOrder(P.StoreOps(env, events))
    ensures var v := ViewAt(P.Run(env, events).s, now);
            v.current && v.unmatched == 0 <==> Vouches(env, events, now)
    ensures Vouches(env, events, now) ==> 0 < P.Run(env, events).s.gen
  {
    hide P.Run, StoreRuns.Run, LastFullReadCompleted, SucceededSince, InOrder;
    var ops := P.StoreOps(env, events);
    P.StoreRunsUnchanged(env, events);
    CurrentMeans(env.identity, ops, now);
    CountsPublishTheFoldedRows(env.identity, ops, now);
    if Vouches(env, events, now) {
      CompleteHasGeneration(env.identity, ops);
    }
  }

  /** A library's watch figures are out if and only if a walk of it is stored that is stamped
      with the generation history is at now, and history vouches for itself. */
  lemma WatchFiguresAreOutIff(env: P.Env, events: seq<P.Event>, sections: seq<Library>, walkable: seq<Library>, l: Library, now: int)
    requires l in walkable && InOrder(P.StoreOps(env, events))
    ensures var y := P.Run(env, events);
            (exists x :: x in AllSamples(P.SnapshotAt(y, sections, now), walkable) && IsWatchSample(x) && x.library == l.id)
            <==> SomeSucceeded(Walked(env, events, l.id)) && l.id in y.libs && y.libs[l.id].stamp == y.s.gen && Vouches(env, events, now)
  {
    hide P.Run, AllSamples, Vouches, SomeSucceeded, InOrder, Walked;
    var y := P.Run(env, events);
    VouchesMeans(env, events, now);
    EntryMeans(env, events, l.id);
    PublishesIff(P.SnapshotAt(y, sections, now), walkable, l);
    assert SomeSucceeded(Walked(env, events, l.id)) ==> Walked(env, events, l.id) != [] by { NothingTried(); }
  }

  /** The walks are reported complete if and only if a full pass has ended, no more than 32
      video libraries are listed, and the last walk of each that shutting down did not break
      off succeeded. */
  lemma WalksAreCompleteIff(env: P.Env, events: seq<P.Event>, sections: seq<Library>, now: int)
    ensures WalksComplete(P.SnapshotAt(P.Run(env, events), sections, now))
            <==> FullPassOver(env, events) && |Videos(sections)| <= 32
                 && forall l | l in sections && l.kind in {Movie, ShowType, HomeVideo} :: LastSucceeded(Walked(env, events, l.id))
  {
    hide P.Run, Walked, FullPassOver, LastSucceeded, LastFailed, SomeSucceeded;
    PassDoneMeans(env, events);
    VideosMean(sections);
    forall l | l in Videos(sections)
      ensures LastWalkSucceeded(P.SnapshotAt(P.Run(env, events), sections, now), l) <==> LastSucceeded(Walked(env, events, l.id))
    {
      EntryMeans(env, events, l.id);
      FailedOrSucceeded(Walked(env, events, l.id));
      NothingTried();
    }
  }

  /** Watch ages are reported complete if and only if moreover history vouches for itself and
      every video library's walk is stamped with the generation it is at now. */
  lemma WatchAgesAreCompleteIff(env: P.Env, events: seq<P.Event>, sections: seq<Library>, now: int)
    requires InOrder(P.StoreOps(env, events))
    ensures var y := P.Run(env, events);
            WatchAgesComplete(P.SnapshotAt(y, sections, now))
            <==> FullPassOver(env, events) && |Videos(sections)| <= 32 && Vouches(env, events, now)
                 && forall l | l in sections && l.kind in {Movie, ShowType, HomeVideo} ::
                      LastSucceeded(Walked(env, events, l.id)) && l.id in y.libs && y.libs[l.id].stamp == y.s.gen
  {
    hide P.Run, Walked, FullPassOver, LastSucceeded, Vouches, Videos, InOrder;
    var y := P.Run(env, events);
    WalksAreCompleteIff(env, events, sections, now);
    VouchesMeans(env, events, now);
    VideosMean(sections);
  }

  /** What completeness says: no video library is left out, the last walk of each succeeded,
      all its answers are of the generation current now, and no row may be an unnoticed play. */
  lemma CompletenessNeverLies(env: P.Env, events: seq<P.Event>, sections: seq<Library>, now: int)
    requires WatchAgesComplete(P.SnapshotAt(P.Run(env, events), sections, now)) && InOrder(P.StoreOps(env, events))
    ensures |Videos(sections)| <= 32 && Vouches(env, events, now)
    ensures forall l | l in sections && l.kind in {Movie, ShowType, HomeVideo} ::
              LastSucceeded(Walked(env, events, l.id)) && P.AnsweredNow(P.Run(env, events), l.id)
  {
    hide P.Run, Walked, FullPassOver, LastSucceeded, Vouches, Videos, InOrder, P.AnsweredNow;
    WatchAgesAreCompleteIff(env, events, sections, now);
    P.CompletenessNeverLies(env, events, sections, now);
    VideosMean(sections);
  }
}
