/** Increments refine the full read (internal/history/history.go): what the followed map
    answers, against what a full read would, while the history grows under both. */
module Refinement {
  import opened Ints
  import opened Sequences
  import opened History
  import opened StoreRuns
  import opened Follower

  // ---- the full read, while the history grows ----

  /** A full read about to start. It folds into tables of its own, which become the store's
      when it ends with its last row; a read that ends otherwise is no part of these runs. */
  function Opening(s: State, source: seq<Row>): World {
    World(source, State(Some(EMPTY), Complete, s.gen + 1, 0, NO_DRAIN, s.lastSuccess),
          Some(Reading(0, 0, MAX_COUNTED_ROWS, [], [], None)), None, {}, {}, source)
  }

  /** Nothing but pages, rows and arrivals. */
  predicate OnlyReads(es: seq<Timed>) {
    forall i | 0 <= i < |es| :: es[i].e.Arrive? || es[i].e.Fetch? || es[i].e.Pull?
  }

  /** The read is under way at every moment of the run. */
  predicate Underway(c: Setting, w: World, es: seq<Timed>) {
    forall i | 0 <= i <= |es| :: After(c, w, es[..i]).reading.Some?
  }

  /** The run is one whole read that ends with its last row. */
  predicate WholeRead(c: Setting, w: World, es: seq<Timed>) {
    && OnlyReads(es) && es != [] && Underway(c, w, es[..|es| - 1])
    && Finishes(After(c, w, es[..|es| - 1]), es[|es| - 1].e)
  }

  lemma UnderwayPrefix(c: Setting, w: World, es: seq<Timed>)
    requires es != [] && Underway(c, w, es)
    ensures Underway(c, w, es[..|es| - 1]) && After(c, w, es).reading.Some?
  {
    hide After;
    var n := |es| - 1;
    assert es[..|es|] == es;
    forall i | 0 <= i <= n ensures After(c, w, es[..n][..i]).reading.Some? {
      assert es[..n][..i] == es[..i];
    }
  }

  /** What a full read has folded so far is its rows so far. */
  predicate Opened(c: Setting, s: State, source: seq<Row>, u: World) {
    && u.reading.Some? && u.reading.value.since == 0 && u.reading.value.start == 0 && u.reading.value.cap == MAX_COUNTED_ROWS
    && u.s == Opening(s, source).s.(tables := Some(FoldAll(c.identity, EMPTY, u.reading.value.handed)))
  }

  lemma FoldAllSnoc(identity: Row -> uint64, t: Tables, rows: seq<Row>, r: Row)
    ensures FoldAll(identity, t, rows + [r]) == Fold(identity, FoldAll(identity, t, rows), r)
  {
    assert (rows + [r])[..|rows|] == rows;
  }

  lemma OpenedNext(c: Setting, s: State, source: seq<Row>, u: World, e: Event, now: int)
    requires Opened(c, s, source, u) && Possible(c, u, e) && (e.Arrive? || e.Fetch? || e.Pull?)
    requires Next(c, u, e, now).reading.Some?
    ensures Opened(c, s, source, Next(c, u, e, now))
  {
    hide Selected, Fold;
    if e.Pull? {
      FoldAllSnoc(c.identity, EMPTY, u.reading.value.handed, u.reading.value.page[0]);
    }
  }

  lemma {:induction false} OpenedRun(c: Setting, s: State, source: seq<Row>, es: seq<Timed>)
    requires OnlyReads(es) && Underway(c, Opening(s, source), es)
    ensures Opened(c, s, source, After(c, Opening(s, source), es))
  {
    hide Opened, Next, Underway;
    var w := Opening(s, source);
    if es == [] {
      assert Opened(c, s, source, w) by { NothingOpened(c, s, source); }
    } else {
      var n := |es| - 1;
      UnderwayPrefix(c, w, es);
      OpenedRun(c, s, source, es[..n]);
      if Possible(c, After(c, w, es[..n]), es[n].e) {
        OpenedNext(c, s, source, After(c, w, es[..n]), es[n].e, es[n].now);
      }
    }
  }

  lemma NothingOpened(c: Setting, s: State, source: seq<Row>)
    ensures Opened(c, s, source, Opening(s, source))
  {
  }

  /** A whole full read, whatever arrived during it, leaves the store as the end of Bootstrap
      does with the rows handed on. */
  lemma WholeReadIsBootstrap(c: Setting, s: State, source: seq<Row>, es: seq<Timed>)
    requires WholeRead(c, Opening(s, source), es)
    ensures var v := After(c, Opening(s, source), es[..|es| - 1]);
            && v.reading.Some?
            && After(c, Opening(s, source), es).s
               == EndBootstrap(c.identity, s, v.reading.value.handed, Finished, es[|es| - 1].now)
  {
    hide FoldAll, NewestTime, Selected;
    var n := |es| - 1;
    OpenedRun(c, s, source, es[..n]);
    var v := After(c, Opening(s, source), es[..n]);
    NewestTimeMeans(v.reading.value.handed);
  }

  lemma OpeningGood(c: Setting, s: State, source: seq<Row>)
    ensures Good(c, Opening(s, source))
  {
    var w := Opening(s, source);
    NewestTimeMeans(source);
    assert NewestTime([]) == 0;
    forall key: uint64 ensures EntryIs(w, key) {
    }
  }

  // ---- plays that this window or the next reaches ----

  /** Where the next read of this window, or of the next, starts if this read cannot finish. */
  function Keep(w: World): nat
    requires w.reading.Some?
  {
    var r := w.reading.value;
    if r.start + r.cap < Front(w) then r.start + r.cap else r.start
  }

  /** The cursor if this read finishes with the present page. */
  function Latest(w: World): int
    requires w.reading.Some?
  {
    Max(w.s.cursor, NewestTime(w.reading.value.handed + w.reading.value.page))
  }

  /** The row came behind the last page, and the reads after it reach it. */
  predicate Later(c: Setting, w: World, r: Row) {
    && LastPage(w) && Behind(Selected(c, w.source, CurrentSince(w)), Keep(w), r)
    && r.viewedAt >= Latest(w) - INCREMENTAL_OVERLAP
  }

  predicate Reached(c: Setting, w: World, r: Row) {
    Due(c, w, r) || Later(c, w, r)
  }

  lemma LaterArrive(c: Setting, w: World, pos: nat, x: Row, now: int, r: Row)
    requires pos <= |w.source| && Later(c, w, r)
    ensures Later(c, Next(c, w, Arrive(pos, x), now), r)
  {
    hide Selected, Behind, NewestTime;
    BehindArrive(c, w, pos, x, now, Keep(w), r);
  }

  lemma LaterStopped(c: Setting, w: World, o: Outcome, now: int, r: Row)
    requires Good(c, w) && Later(c, w, r)
    requires o.Errored? || (o == OverLimit && |w.reading.value.handed| == w.reading.value.cap && w.reading.value.page != [])
    ensures Due(c, Closed(w, o, now), r)
  {
    hide Selected, Behind, NewestTime, RowsWithin, TimesWithin, Entries, HeadWithin;
    BehindLess(Selected(c, w.source, CurrentSince(w)), Head(Closed(w, o, now)), Keep(w), r);
  }

  lemma LaterFinished(c: Setting, w: World, now: int, r: Row)
    requires Honest(c) && Good(c, w) && Finishes(w, Pull) && Later(c, w, r) && 0 < r.viewedAt
    ensures Due(c, Closed(w, Finished, now), r)
  {
    hide NewestTime, RowsWithin, TimesWithin, Entries, HeadWithin;
    var u := Closed(w, Finished, now);
    assert w.reading.value.handed + [] == w.reading.value.handed;
    SelectedMeans(c, w.source, CurrentSince(w));
    SelectedMeans(c, w.source, CurrentSince(u));
    var k :| Keep(w) <= k < |Selected(c, w.source, CurrentSince(w))| && Selected(c, w.source, CurrentSince(w))[k] == r;
    assert r in Selected(c, w.source, CurrentSince(w));
    assert c.selects(CurrentSince(u), r);
    assert r in Selected(c, u.source, CurrentSince(u));
  }

  lemma LaterTook(c: Setting, w: World, r: Row)
    requires Later(c, w, r) && w.reading.value.page != []
    ensures Later(c, FoldIn(c, Turned(w), w.reading.value.page[0]), r)
  {
    hide Selected, Behind, NewestTime, FoldRow;
    var a := w.reading.value;
    assert (a.handed + [a.page[0]]) + a.page[1..] == a.handed + a.page;
    FoldFrame(c.identity, w.s, a.page[0]);
  }

  lemma FoldFrame(identity: Row -> uint64, s: State, r: Row)
    ensures FoldRow(identity, s, r) == s.(tables := FoldRow(identity, s, r).tables)
  {
  }

  lemma LaterPull(c: Setting, w: World, now: int, r: Row)
    requires Honest(c) && Good(c, w) && Possible(c, w, Pull) && Later(c, w, r) && 0 < r.viewedAt
    ensures Reached(c, Next(c, w, Pull, now), r)
  {
    hide Good, Due, Later, Closed, Turned, FoldIn;
    if w.reading.value.page == [] {
      LaterFinished(c, w, now, r);
    } else if |w.reading.value.handed| == w.reading.value.cap {
      LaterStopped(c, w, OverLimit, now, r);
    } else {
      LaterTook(c, w, r);
    }
  }

  lemma LaterElse(c: Setting, w: World, e: Event, now: int, r: Row)
    requires Later(c, w, r) && (e.Visit? || e.Prune?)
    ensures Later(c, Next(c, w, e, now), r)
  {
    hide Selected, Behind, NewestTime, Kept;
  }

  lemma ReachedKept(c: Setting, w: World, e: Event, now: int, r: Row)
    requires Honest(c) && Good(c, w) && Possible(c, w, e) && Reached(c, w, r) && Classify(r).Play?
    ensures Reached(c, Next(c, w, e, now), r)
  {
    hide Good, Due, Later, Closed, Turned, FoldIn, Fetched;
    if Due(c, w, r) {
      if Finishes(w, e) {
        FinishFoldsDue(c, w, e, now, r);
        assert Due(c, Next(c, w, e, now), r) by { FoldedIsDue(c, Next(c, w, e, now), r); }
      } else {
        DueKept(c, w, e, now, r);
      }
    } else {
      assert LastPage(w) by { LaterIsLast(c, w, r); }
      match e {
        case Arrive(pos, x) => LaterArrive(c, w, pos, x, now, r);
        case Pull => LaterPull(c, w, now, r);
        case Break => LaterStopped(c, w, Errored(false), now, r);
        case Visit(_, _) => LaterElse(c, w, e, now, r);
        case Prune(_, _, _) => LaterElse(c, w, e, now, r);
        case _ =>
      }
    }
  }

  lemma LaterIsLast(c: Setting, w: World, r: Row)
    requires Later(c, w, r)
    ensures LastPage(w)
  {
  }

  lemma FoldedIsDue(c: Setting, w: World, r: Row)
    requires r in w.folded
    ensures Due(c, w, r)
  {
  }

  /** Every play of the source is reached; once the last page is requested, every play that
      stood in the source then is folded or on it. */
  ghost predicate PlaysReached(c: Setting, w: World) {
    && (forall r | r in w.source && Classify(r).Play? :: Reached(c, w, r))
    && (LastPage(w) ==> forall r | r in w.asked && Classify(r).Play? :: r in w.folded || r in w.reading.value.page)
  }

  /** A play arrives in time when this window, the next one, or once the last page is
      requested the one after it, hands it on. */
  predicate InTime(c: Setting, w: World, pos: nat, r: Row)
    requires pos <= |w.source|
  {
    || InWindow(c, w, pos, r)
    || (LastPage(w) && c.selects(CurrentSince(w), r)
        && Keep(w) <= |Selected(c, w.source[..pos], CurrentSince(w))|
        && r.viewedAt >= Latest(w) - INCREMENTAL_OVERLAP)
  }

  lemma InTimeIsReached(c: Setting, w: World, pos: nat, r: Row, now: int)
    requires pos <= |w.source| && InTime(c, w, pos, r)
    ensures Reached(c, Next(c, w, Arrive(pos, r), now), r)
  {
    hide Due, NewestTime, Selected;
    if InWindow(c, w, pos, r) {
      InWindowIsDue(c, w, pos, r, now);
    } else {
      var u := Next(c, w, Arrive(pos, r), now);
      SelectedInsert(c, w.source, pos, r, CurrentSince(w));
      var p := |Selected(c, w.source[..pos], CurrentSince(w))|;
      assert Selected(c, u.source, CurrentSince(w))[p] == r;
    }
  }

  lemma AskedKept(c: Setting, w: World, e: Event, now: int)
    requires Good(c, w) && Possible(c, w, e) && PlaysReached(c, w) && LastPage(Next(c, w, e, now))
    ensures forall r | r in Next(c, w, e, now).asked && Classify(r).Play? ::
              r in Next(c, w, e, now).folded || r in Next(c, w, e, now).reading.value.page
  {
    hide Good, Selected, FoldRow, EndIncrement, Pruned, Visited;
    var u := Next(c, w, e, now);
    forall r | r in u.asked && Classify(r).Play? ensures r in u.folded || r in u.reading.value.page {
      match e {
        case Fetch(n) => FetchedLast(c, w, n, now, r);
        case Pull =>
          assert LastPage(w) && w.reading.value.page == [w.reading.value.page[0]] + w.reading.value.page[1..];
        case _ =>
      }
    }
  }

  lemma FetchedLast(c: Setting, w: World, n: nat, now: int, r: Row)
    requires Good(c, w) && Possible(c, w, Fetch(n)) && PlaysReached(c, w) && LastPage(Next(c, w, Fetch(n), now))
    requires r in w.source && Classify(r).Play?
    ensures r in w.folded || r in Next(c, w, Fetch(n), now).reading.value.page
  {
    hide Good, Selected, Behind;
    assert Reached(c, w, r);
    DueFetch(c, w, n, now, r);
  }

  lemma PlaysReachedNext(c: Setting, w: World, e: Event, now: int)
    requires Honest(c) && Good(c, w) && Possible(c, w, e) && PlaysReached(c, w)
    requires e.Arrive? && Classify(e.row).Play? ==> InTime(c, w, e.pos, e.row)
    ensures PlaysReached(c, Next(c, w, e, now))
  {
    hide Good, Reached, InTime, Fold, Selected, LastPage;
    var u := Next(c, w, e, now);
    forall r | r in u.source && Classify(r).Play? ensures Reached(c, u, r) {
      if e.Arrive? {
        InsertMembers(w.source, e.pos, e.row);
      }
      if e.Arrive? && r == e.row {
        InTimeIsReached(c, w, e.pos, r, now);
      } else {
        assert r in w.source;
        ReachedKept(c, w, e, now, r);
      }
    }
    if LastPage(u) {
      AskedKept(c, w, e, now);
    }
  }

  /** Every play that arrives in the run arrives in time. */
  predicate PlaysInTime(c: Setting, w: World, es: seq<Timed>) {
    forall i | 0 <= i < |es| && es[i].e.Arrive? && Classify(es[i].e.row).Play? ::
      var v := After(c, w, es[..i]);
      es[i].e.pos <= |v.source| ==> InTime(c, v, es[i].e.pos, es[i].e.row)
  }

  lemma PlaysInTimePrefix(c: Setting, w: World, es: seq<Timed>)
    requires es != [] && PlaysInTime(c, w, es)
    ensures PlaysInTime(c, w, es[..|es| - 1])
  {
    hide InTime, After;
    var n := |es| - 1;
    forall i | 0 <= i < n && es[i].e.Arrive? && Classify(es[i].e.row).Play?
      ensures var v := After(c, w, es[..n][..i]);
              es[i].e.pos <= |v.source| ==> InTime(c, v, es[i].e.pos, es[i].e.row)
    {
      AfterPrefix(c, w, es, i);
    }
  }

  lemma {:induction false} PlaysReachedRun(c: Setting, w: World, es: seq<Timed>)
    requires Honest(c) && Good(c, w) && PlaysReached(c, w) && PlaysInTime(c, w, es)
    ensures Good(c, After(c, w, es)) && PlaysReached(c, After(c, w, es))
  {
    hide Good, PlaysReached, Next, InTime, Honest;
    if es != [] {
      var n := |es| - 1;
      PlaysInTimePrefix(c, w, es);
      PlaysReachedRun(c, w, es[..n]);
      var v := After(c, w, es[..n]);
      if Possible(c, v, es[n].e) {
        GoodNext(c, v, es[n].e, es[n].now);
        assert es[n].e.Arrive? && Classify(es[n].e.row).Play? ==> InTime(c, v, es[n].e.pos, es[n].e.row);
        PlaysReachedNext(c, v, es[n].e, es[n].now);
      }
    }
  }

  lemma OpeningReached(c: Setting, s: State, source: seq<Row>)
    requires Honest(c)
    ensures PlaysReached(c, Opening(s, source))
  {
    var w := Opening(s, source);
    SelectedMeans(c, source, 0);
    forall r | r in source && Classify(r).Play? ensures Reached(c, w, r) {
      assert r in Selected(c, source, 0);
    }
  }

  // ---- against a full read ----

  /** What a full read of this source would answer for a key. */
  function FreshAnswer(c: Setting, source: seq<Row>, key: uint64): uint32 {
    VisitAnswer(EndBootstrap(c.identity, START, Selected(c, source, 0), Finished, 0), key)
  }

  lemma FreshAnswerMeans(c: Setting, source: seq<Row>, key: uint64)
    ensures FreshAnswer(c, source, key) == NewestPlay(Selected(c, source, 0), key)
  {
    hide FoldAll;
    var rows := Selected(c, source, 0);
    var s := EndBootstrap(c.identity, START, rows, Finished, 0);
    FullReadInv(c.identity, s, rows);
    var t := Trace(s, rows, map[], 0);
    assert KeyExact(t, key);
    assert StoreRuns.Since(t, key) == rows;
  }

  /** While all that was folded stands in a source, the store answers no more than a full
      read of it; and, pruned keys apart, as much when every play of it is folded. */
  lemma AnswersAgainst(c: Setting, w: World, source: seq<Row>, key: uint64)
    requires Honest(c) && Good(c, w) && forall r | r in w.folded :: r in source
    ensures VisitAnswer(w.s, key) <= FreshAnswer(c, source, key)
    ensures key !in w.pruned && (forall r | r in source && Classify(r).Play? :: r in w.folded)
            ==> VisitAnswer(w.s, key) == FreshAnswer(c, source, key)
  {
    FreshAnswerMeans(c, source, key);
    assert EntryIs(w, key);
    SelectedMeans(c, source, 0);
    var rows := Selected(c, source, 0);
    if VisitAnswer(w.s, key) != 0 {
      var r :| r in w.folded && PlayOf(r, key) == VisitAnswer(w.s, key);
      assert r in rows;
      var k :| 0 <= k < |rows| && rows[k] == r;
    }
    if key !in w.pruned && NewestPlay(rows, key) != 0 {
      var k :| 0 <= k < |rows| && PlayOf(rows[k], key) == NewestPlay(rows, key);
      assert rows[k] in rows;
    }
  }

  /** The store never answers more than a full read made now would. */
  lemma NeverAheadOfFullRead(c: Setting, w: World, key: uint64)
    requires Honest(c) && Good(c, w)
    ensures VisitAnswer(w.s, key) <= FreshAnswer(c, w.source, key)
  {
    AnswersAgainst(c, w, w.source, key);
  }

  /** Incremental refines Bootstrap. Let the history grow during a whole full read and then
      while increments run, are capped, fail and resume, with prunes, visits and catch-ups
      among them. If every play arrives in time, then whenever a read hands on its last row
      the store answers for every key not pruned since exactly what a full read of the source
      as it stood when the last page was requested would; so, if nothing has arrived since
      that request, exactly what a full read made now would. */
  lemma IncrementsRefineFullRead(c: Setting, s: State, source: seq<Row>, first: seq<Timed>, es: seq<Timed>, key: uint64)
    requires Honest(c) && WholeRead(c, Opening(s, source), first)
    requires var all := first + es;
             && PlaysInTime(c, Opening(s, source), all)
             && Finishes(After(c, Opening(s, source), all[..|all| - 1]), all[|all| - 1].e)
    ensures var u := After(c, Opening(s, source), first + es);
            && VisitAnswer(u.s, key) <= FreshAnswer(c, u.asked, key)
            && (key !in u.pruned ==> VisitAnswer(u.s, key) == FreshAnswer(c, u.asked, key))
  {
    hide WholeRead;
    FinishRefines(c, s, source, first + es, key) by { assert first != [] by { WholeReadReads(c, s, source, first); } }
  }

  lemma WholeReadReads(c: Setting, s: State, source: seq<Row>, es: seq<Timed>)
    requires WholeRead(c, Opening(s, source), es)
    ensures es != []
  {
  }

  lemma FinishRefines(c: Setting, s: State, source: seq<Row>, es: seq<Timed>, key: uint64)
    requires Honest(c) && es != [] && PlaysInTime(c, Opening(s, source), es)
    requires Finishes(After(c, Opening(s, source), es[..|es| - 1]), es[|es| - 1].e)
    ensures var u := After(c, Opening(s, source), es);
            && VisitAnswer(u.s, key) <= FreshAnswer(c, u.asked, key)
            && (key !in u.pruned ==> VisitAnswer(u.s, key) == FreshAnswer(c, u.asked, key))
  {
    hide Good, PlaysReached, Next, InTime, Opening, FreshAnswer, Honest;
    var w := Opening(s, source);
    var n := |es| - 1;
    OpeningGood(c, s, source);
    OpeningReached(c, s, source);
    PlaysInTimePrefix(c, w, es);
    PlaysReachedRun(c, w, es[..n]);
    GoodRun(c, w, es);
    FinishFoldsAsked(c, After(c, w, es[..n]), es[n].e, es[n].now);
    AnswersAgainst(c, After(c, w, es), After(c, w, es).asked, key);
  }

  lemma FinishFoldsAsked(c: Setting, w: World, e: Event, now: int)
    requires Good(c, w) && Possible(c, w, e) && Finishes(w, e) && PlaysReached(c, w)
    ensures var u := Next(c, w, e, now);
            && (forall r | r in u.asked && Classify(r).Play? :: r in u.folded)
            && (forall r | r in u.folded :: r in u.asked)
  {
    hide Reached, Selected, NewestTime, Entries, HeadWithin, EndIncrement;
  }

  /** The two rules of arrival a server can be held to. Between increments with no drain
      open, and once the last page of a window that one read covers is requested, a play may
      be up to five minutes older than the newest row and stand anywhere; at any other time
      it must be appended and not older than any row. */
  predicate Lenient(w: World) {
    if w.reading.None? then w.s.drain.offset == 0
    else LastPage(w) && Keep(w) == 0
  }

  predicate ArrivalRules(c: Setting, w: World, es: seq<Timed>) {
    forall i | 0 <= i < |es| && es[i].e.Arrive? && Classify(es[i].e.row).Play? ::
      var v := After(c, w, es[..i]);
      if Lenient(v) then es[i].e.row.viewedAt >= NewestTime(v.source) - 300
      else es[i].e.pos == |v.source| && es[i].e.row.viewedAt >= NewestTime(v.source)
  }

  lemma LatestWithin(c: Setting, w: World)
    requires Good(c, w) && w.reading.Some?
    ensures Latest(w) <= NewestTime(w.source) && CurrentSince(w) <= NewestTime(w.source)
    ensures w.s.drain.offset == 0 ==> CurrentSince(w) == Max(w.s.cursor - INCREMENTAL_OVERLAP, 0)
  {
    hide Selected, Entries, HeadWithin;
    var r := w.reading.value;
    NewestTimeMeans(r.handed + r.page);
    NewestTimeMeans(r.handed);
    NewestTimeMeans(w.source);
    forall x | x in r.handed + r.page ensures x.viewedAt <= NewestTime(w.source) {
      if x in r.page {
        assert x in w.source;
      }
    }
  }

  lemma LateRowInTime(c: Setting, w: World, pos: nat, r: Row)
    requires Honest(c) && Good(c, w) && pos <= |w.source| && Lenient(w)
    requires Classify(r).Play? && r.viewedAt >= NewestTime(w.source) - INCREMENTAL_OVERLAP
    ensures InTime(c, w, pos, r)
  {
    hide Selected, Entries, HeadWithin, RowsWithin, NewestTime, Latest;
    if w.reading.Some? {
      LatestWithin(c, w);
    }
  }

  lemma InOrderRowInTime(c: Setting, w: World, r: Row)
    requires Honest(c) && Good(c, w)
    requires Classify(r).Play? && r.viewedAt >= NewestTime(w.source)
    ensures InTime(c, w, |w.source|, r)
  {
    hide Selected, Entries, RowsWithin, NewestTime, Latest;
    assert w.source[..|w.source|] == w.source;
    if w.reading.Some? {
      LatestWithin(c, w);
    }
  }

  lemma ArrivalRulesSuffice(c: Setting, w: World, es: seq<Timed>)
    requires Honest(c) && Good(c, w) && ArrivalRules(c, w, es)
    ensures PlaysInTime(c, w, es)
  {
    hide Good, InTime, After, Honest, Lenient;
    forall i | 0 <= i < |es| && es[i].e.Arrive? && Classify(es[i].e.row).Play?
      ensures var v := After(c, w, es[..i]);
              es[i].e.pos <= |v.source| ==> InTime(c, v, es[i].e.pos, es[i].e.row)
    {
      var v := After(c, w, es[..i]);
      GoodRun(c, w, es[..i]);
      if es[i].e.pos <= |v.source| {
        if Lenient(v) {
          LateRowInTime(c, v, es[i].e.pos, es[i].e.row);
        } else {
          InOrderRowInTime(c, v, es[i].e.row);
        }
      }
    }
  }

  // ---- uninterrupted reads ----

  predicate OnlyPages(es: seq<Timed>) {
    forall i | 0 <= i < |es| :: es[i].e.Fetch? || es[i].e.Pull?
  }

  /** A read about to request its first page. */
  predicate Unread(c: Setting, w: World) {
    && w.reading.Some? && w.reading.value.handed == [] && w.reading.value.page == [] && w.reading.value.total.None?
    && w.reading.value.start <= |Selected(c, w.source, w.reading.value.since)|
  }

  /** The rows this read has handed on and has on its page, with nothing inserted since it
      began, are the selection's own, one after another. */
  predicate Uncut(c: Setting, w: World, u: World)
    requires w.reading.Some?
  {
    && u.reading.Some? && u.source == w.source
    && var a, r := w.reading.value, u.reading.value;
    var rows := Selected(c, w.source, a.since);
    && r.since == a.since && r.start == a.start && r.cap == a.cap && |r.handed| <= r.cap
    && Front(u) <= |rows| && r.handed == rows[r.start..Head(u)] && r.page == rows[Head(u)..Front(u)]
    && (r.total.Some? ==> r.total.value == |rows|)
    && u.s == FoldRows(c.identity, w.s, r.handed)
  }

  lemma UncutFetch(c: Setting, w: World, u: World, n: nat, now: int)
    requires w.reading.Some? && Uncut(c, w, u) && Possible(c, u, Fetch(n))
    ensures Uncut(c, w, Next(c, u, Fetch(n), now))
  {
    hide Selected, FoldRows;
  }

  lemma UncutTook(c: Setting, w: World, u: World, now: int)
    requires w.reading.Some? && Uncut(c, w, u) && Possible(c, u, Pull)
    requires u.reading.value.page != [] && |u.reading.value.handed| < u.reading.value.cap
    ensures Uncut(c, w, Next(c, u, Pull, now))
  {
    hide Selected, FoldRow;
    var r := u.reading.value;
    var next := r.handed + [r.page[0]];
    assert next[..|next| - 1] == r.handed;
  }

  lemma {:induction false} UncutRun(c: Setting, w: World, es: seq<Timed>)
    requires Unread(c, w) && OnlyPages(es) && Underway(c, w, es)
    ensures Uncut(c, w, After(c, w, es))
  {
    hide Uncut, Next, Underway;
    if es == [] {
      assert Uncut(c, w, w) by { UncutStart(c, w); }
    } else {
      var n := |es| - 1;
      UnderwayPrefix(c, w, es);
      UncutRun(c, w, es[..n]);
      var u := After(c, w, es[..n]);
      if Possible(c, u, es[n].e) {
        UncutNext(c, w, u, es[n].e, es[n].now);
      }
    }
  }

  lemma UncutStart(c: Setting, w: World)
    requires Unread(c, w)
    ensures Uncut(c, w, w)
  {
  }

  lemma UncutNext(c: Setting, w: World, u: World, e: Event, now: int)
    requires w.reading.Some? && Uncut(c, w, u) && Possible(c, u, e) && (e.Fetch? || e.Pull?)
    requires Next(c, u, e, now).reading.Some?
    ensures Uncut(c, w, Next(c, u, e, now))
  {
    hide Uncut, Selected;
    match e {
      case Fetch(n) => UncutFetch(c, w, u, n, now);
      case Pull =>
        assert |u.reading.value.handed| <= u.reading.value.cap by { UncutCap(c, w, u); }
        UncutTook(c, w, u, now);
    }
  }

  lemma UncutCap(c: Setting, w: World, u: World)
    requires w.reading.Some? && Uncut(c, w, u)
    ensures u.reading.Some? && |u.reading.value.handed| <= u.reading.value.cap
  {
  }

  /** The pull that ends an uninterrupted read of so many pages: it has handed on just the
      rows the store's read hands on, and ends as that does. */
  lemma UncutEnds(c: Setting, w: World, u: World, pages: nat, now: int)
    requires w.reading.Some? && Uncut(c, w, u) && Possible(c, u, Pull) && Next(c, u, Pull, now).reading.None?
    requires u.reading.value.cap == pages * PAGE_SIZE
    ensures var a := w.reading.value;
            var stream := Serving(c, w.source)(a.since, a.start);
            && u.reading.value.handed == Handed(stream, pages)
            && Next(c, u, Pull, now).s
               == EndIncrement(FoldRows(c.identity, w.s, Handed(stream, pages)), a.since, a.start, NewestTime(Handed(stream, pages)),
                               |Handed(stream, pages)|, OutcomeOf(stream, pages), now)
            && (u.reading.value.page == [] <==> OutcomeOf(stream, pages) == Finished)
  {
    hide Selected, FoldRows, NewestTime, EndIncrement;
    var rows := Selected(c, w.source, w.reading.value.since);
    var r := u.reading.value;
    assert rows[r.start..][..|r.handed|] == r.handed;
    if r.page == [] {
      assert Front(u) == |rows|;
    }
  }

  /** The run is one read, begun at w, that the last event ends. */
  predicate OneRead(c: Setting, w: World, es: seq<Timed>) {
    OnlyPages(es) && es != [] && Underway(c, w, es[..|es| - 1]) && After(c, w, es).reading.None?
  }

  lemma LastEvent(c: Setting, w: World, es: seq<Timed>)
    requires OneRead(c, w, es)
    ensures var u := After(c, w, es[..|es| - 1]);
            && u.reading.Some? && es[|es| - 1].e == Pull && Possible(c, u, Pull)
            && After(c, w, es) == Next(c, u, Pull, es[|es| - 1].now)
  {
    var n := |es| - 1;
    assert es[..n][..n] == es[..n];
    assert After(c, w, es[..n]).reading.Some?;
  }

  /** The store's own Incremental is a read of this machine with nothing in between, whatever
      sizes its pages come in. */
  lemma IncrementalIsARead(c: Setting, w: World, begun: int, es: seq<Timed>)
    requires Good(c, w) && Possible(c, w, Begin) && OneRead(c, Next(c, w, Begin, begun), es)
    ensures After(c, Next(c, w, Begin, begun), es).s
         == AfterIncremental(c.identity, w.s, Serving(c, w.source), es[|es| - 1].now)
  {
    hide Selected, FoldRow, FoldRows, NewestTime, EndIncrement, After, Uncut, Entries, Serving, Handed, OutcomeOf;
    var w0 := Next(c, w, Begin, begun);
    LastEvent(c, w0, es);
    UncutRun(c, w0, es[..|es| - 1]);
    var u := After(c, w0, es[..|es| - 1]);
    assert u.reading.value.cap == CAP by { UncutKeeps(c, w0, u); }
    UncutEnds(c, w0, u, MAX_INCREMENTAL_PAGES, es[|es| - 1].now);
  }

  lemma UncutKeeps(c: Setting, w: World, u: World)
    requires w.reading.Some? && Uncut(c, w, u)
    ensures u.reading.value.cap == w.reading.value.cap
  {
  }

  /** So is its Bootstrap, of a history within the limit. */
  lemma BootstrapIsARead(c: Setting, s: State, source: seq<Row>, es: seq<Timed>)
    requires OneRead(c, Opening(s, source), es)
    requires |Selected(c, source, 0)| <= 250_000
    ensures After(c, Opening(s, source), es).s == AfterBootstrap(c.identity, s, Serving(c, source), es[|es| - 1].now)
  {
    hide Selected, FoldRow, FoldRows, FoldAll, NewestTime, After, Uncut, Handed, EndIncrement;
    var w0 := Opening(s, source);
    var n := |es| - 1;
    LastEvent(c, w0, es);
    UncutRun(c, w0, es[..n]);
    var u := After(c, w0, es[..n]);
    assert u.reading.value.cap == MAX_COUNTED_ROWS by { UncutKeeps(c, w0, u); }
    UncutEnds(c, w0, u, MAX_PAGES, es[n].now);
    assert Selected(c, source, 0)[0..] == Selected(c, source, 0);
    assert OnlyReads(es);
    assert WholeRead(c, w0, es) by { OneWhole(c, w0, es, u); }
    WholeReadIsBootstrap(c, s, source, es);
  }

  lemma OneWhole(c: Setting, w: World, es: seq<Timed>, u: World)
    requires OneRead(c, w, es) && u == After(c, w, es[..|es| - 1]) && u.reading.Some? && u.reading.value.page == []
    requires Possible(c, u, Pull) && es[|es| - 1].e == Pull
    ensures WholeRead(c, w, es)
  {
  }

  /** What the store would answer had it just made an uninterrupted full read: what the
      history holds, or nothing when the history is past the row limit. */
  lemma {:induction false} BootstrapAnswers(c: Setting, s: State, source: seq<Row>, now: int, key: uint64)
    ensures VisitAnswer(AfterBootstrap(c.identity, s, Serving(c, source), now), key)
         == if |Selected(c, source, 0)| <= 250_000 then FreshAnswer(c, source, key) else 0
  {
    hide FoldAll, Selected;
    assert Selected(c, source, 0)[0..] == Selected(c, source, 0);
  }
}
