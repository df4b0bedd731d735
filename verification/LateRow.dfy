/** Runs of a small history in which a play comes in late while an increment reads it: what
    the conditions in Follower.dfy and Refinement.dfy are needed for. */
module LateRow {
  import opened Ints
  import opened Sequences
  import opened History
  import opened StoreRuns
  import opened Follower
  import opened Refinement

  // a server that selects by play time alone, and four plays
  const BY_TIME: Setting := Setting((r: Row) => 0, (since: int, r: Row) => r.viewedAt >= since)
  const FIRST: Row := Row(Numeric(1), 1000, "", 0)
  const NEWER: Row := Row(Numeric(3), 1100, "", 0)
  const LATE: Row := Row(Numeric(2), 900, "", 0)

  lemma {:induction false} AllSelected(rows: seq<Row>, since: int)
    requires forall r | r in rows :: r.viewedAt >= since
    ensures Selected(BY_TIME, rows, since) == rows
  {
    if rows != [] {
      var n := |rows| - 1;
      assert forall r | r in rows[..n] :: r in rows;
      AllSelected(rows[..n], since);
      assert rows[n] in rows && rows == rows[..n] + [rows[n]];
    }
  }

  /** Where a run stands that has not folded the late play. */
  predicate Stands(w: World, source: seq<Row>, reading: Option<Reading>, cursor: int) {
    && w.source == source && w.reading == reading && w.catchup.None? && w.pruned == {}
    && w.s.tables.Some? && w.s.status == Complete && w.s.cursor == cursor && w.s.drain == NO_DRAIN
    && 2 !in WatchedOf(w.s)
  }

  lemma OneMore(w: World, es: seq<Timed>, e: Event)
    ensures After(BY_TIME, w, es + [Timed(e, 0)])
         == var v := After(BY_TIME, w, es); if Possible(BY_TIME, v, e) then Next(BY_TIME, v, e, 0) else v
  {
    assert (es + [Timed(e, 0)])[..|es|] == es;
  }

  lemma FetchOne(w: World, source: seq<Row>, r: Reading, cursor: int)
    requires Stands(w, source, Some(r), cursor) && r.page == [] && r.start + |r.handed| < |source|
    requires forall x | x in source :: x.viewedAt >= r.since
    requires r.total.Some? ==> r.start + |r.handed| < r.total.value
    ensures Possible(BY_TIME, w, Fetch(1))
    ensures var u := Next(BY_TIME, w, Fetch(1), 0);
            Stands(u, source, Some(r.(page := [source[r.start + |r.handed|]], total := Some(|source|))), cursor) && u.asked == source
  {
    hide Selected, Behind, PageBehind;
    AllSelected(source, r.since);
    var h := r.start + |r.handed|;
    assert source[h..h + 1] == [source[h]];
  }

  lemma PullOne(w: World, source: seq<Row>, r: Reading, cursor: int, x: Row)
    requires Stands(w, source, Some(r), cursor) && r.page == [x] && |r.handed| < r.cap && x in {FIRST, NEWER}
    ensures Possible(BY_TIME, w, Pull)
    ensures var u := Next(BY_TIME, w, Pull, 0);
            Stands(u, source, Some(r.(handed := r.handed + [x], page := [])), cursor) && u.asked == w.asked
  {
    hide Selected;
    assert r.page[1..] == [] && r.page[0] == x;
  }

  lemma PullLast(w: World, source: seq<Row>, r: Reading, cursor: int)
    requires Stands(w, source, Some(r), cursor) && r.page == [] && r.total == Some(r.start + |r.handed|)
    ensures Possible(BY_TIME, w, Pull) && Finishes(w, Pull)
    ensures var u := Next(BY_TIME, w, Pull, 0);
            Stands(u, source, None, Max(cursor, NewestTime(r.handed))) && u.asked == w.asked
  {
    hide Selected, NewestTime;
  }

  lemma NewestOf(a: Row, b: Row, c: Row)
    ensures NewestTime([a]) == Max(0, a.viewedAt)
    ensures NewestTime([a, b, c]) == Max(Max(Max(0, a.viewedAt), b.viewedAt), c.viewedAt)
  {
    hide NewestTime;
    NothingNewest();
    NextNewest([], a);
    NextNewest([a], b);
    NextNewest([a, b], c);
    assert [] + [a] == [a] && [a] + [b] == [a, b] && [a, b] + [c] == [a, b, c];
  }

  lemma NothingNewest()
    ensures NewestTime([]) == 0
  {
  }

  /** The full read of one play. */
  lemma FullReadOfOne() returns (first: seq<Timed>)
    ensures WholeRead(BY_TIME, Opening(START, [FIRST]), first)
    ensures Stands(After(BY_TIME, Opening(START, [FIRST]), first), [FIRST], None, 1000)
  {
    hide Selected, Next, Possible, Finishes, NewestTime;
    var w := Opening(START, [FIRST]);
    var r := Reading(0, 0, MAX_COUNTED_ROWS, [], [], None);
    var a := [] + [Timed(Fetch(1), 0)];
    OneMore(w, [], Fetch(1));
    FetchOne(w, [FIRST], r, 0);
    var b := a + [Timed(Pull, 0)];
    OneMore(w, a, Pull);
    PullOne(After(BY_TIME, w, a), [FIRST], r.(page := [FIRST], total := Some(1)), 0, FIRST);
    assert [] + [FIRST] == [FIRST];
    first := b + [Timed(Pull, 0)];
    OneMore(w, b, Pull);
    PullLast(After(BY_TIME, w, b), [FIRST], r.(handed := [FIRST], total := Some(1)), 0);
    NewestOf(FIRST, FIRST, FIRST);
    assert first[..2] == b && b[..2] == b && b[..1] == a && b[..0] == [];
  }

  /** The page behind the late play repeats the row before it. */
  lemma LateReread(w: World, es: seq<Timed>) returns (more: seq<Timed>)
    requires Stands(After(BY_TIME, w, es), [LATE, FIRST, NEWER], Some(Reading(700, 0, CAP, [FIRST], [], Some(2))), 1000)
    ensures more == es + [Timed(Fetch(1), 0)] + [Timed(Pull, 0)]
    ensures Stands(After(BY_TIME, w, more), [LATE, FIRST, NEWER], Some(Reading(700, 0, CAP, [FIRST, FIRST], [], Some(3))), 1000)
  {
    hide Selected, Next, Possible, Finishes, NewestTime, Stands;
    var r := Reading(700, 0, CAP, [FIRST], [], Some(2));
    FetchOne(After(BY_TIME, w, es), [LATE, FIRST, NEWER], r, 1000);
    OneMore(w, es, Fetch(1));
    var fetched := es + [Timed(Fetch(1), 0)];
    PullOne(After(BY_TIME, w, fetched), [LATE, FIRST, NEWER], r.(page := [FIRST], total := Some(3)), 1000, FIRST);
    OneMore(w, fetched, Pull);
    assert [FIRST] + [FIRST] == [FIRST, FIRST];
    more := fetched + [Timed(Pull, 0)];
  }

  lemma LatePage(w: World, es: seq<Timed>) returns (more: seq<Timed>)
    requires Stands(After(BY_TIME, w, es), [LATE, FIRST, NEWER], Some(Reading(700, 0, CAP, [FIRST, FIRST], [], Some(3))), 1000)
    ensures more == es + [Timed(Fetch(1), 0)] + [Timed(Pull, 0)]
    ensures Stands(After(BY_TIME, w, more), [LATE, FIRST, NEWER], Some(Reading(700, 0, CAP, [FIRST, FIRST, NEWER], [], Some(3))), 1000)
    ensures After(BY_TIME, w, more).asked == [LATE, FIRST, NEWER]
  {
    hide Selected, Next, Possible, Finishes, NewestTime, Stands;
    var r := Reading(700, 0, CAP, [FIRST, FIRST], [], Some(3));
    FetchOne(After(BY_TIME, w, es), [LATE, FIRST, NEWER], r, 1000);
    OneMore(w, es, Fetch(1));
    var fetched := es + [Timed(Fetch(1), 0)];
    PullOne(After(BY_TIME, w, fetched), [LATE, FIRST, NEWER], r.(page := [NEWER]), 1000, NEWER);
    OneMore(w, fetched, Pull);
    assert [FIRST, FIRST] + [NEWER] == [FIRST, FIRST, NEWER];
    more := fetched + [Timed(Pull, 0)];
  }

  /** The increment of a server that sends its pages row by row: the late play comes in behind
      the first page, in front of the second. */
  lemma LateIncrement(w: World, es: seq<Timed>) returns (more: seq<Timed>)
    requires Stands(After(BY_TIME, w, es), [FIRST], None, 1000)
    ensures 5 <= |more| && more[..5] == [Timed(Arrive(1, NEWER), 0), Timed(Begin, 0), Timed(Fetch(1), 0), Timed(Pull, 0), Timed(Arrive(0, LATE), 0)]
    ensures Stands(After(BY_TIME, w, es + more[..4]), [FIRST, NEWER], Some(Reading(700, 0, CAP, [FIRST], [], Some(2))), 1000)
    ensures Finishes(After(BY_TIME, w, es + more[..|more| - 1]), more[|more| - 1].e)
    ensures Stands(After(BY_TIME, w, es + more), [LATE, FIRST, NEWER], None, 1100)
    ensures After(BY_TIME, w, es + more).asked == [LATE, FIRST, NEWER]
  {
    hide Selected, Next, Possible, Finishes, NewestTime, Stands;
    var source := [LATE, FIRST, NEWER];
    more := LateStart(w, es);
    var r := Reading(700, 0, CAP, [FIRST], [], Some(2));
    var e5 := es + more;
    var e7 := LateReread(w, e5);
    var e9 := LatePage(w, e7);
    PullLast(After(BY_TIME, w, e9), source, r.(handed := [FIRST, FIRST, NEWER], total := Some(3)), 1000);
    OneMore(w, e9, Pull);
    NewestOf(FIRST, FIRST, NEWER);
    var tail := [Timed(Fetch(1), 0), Timed(Pull, 0), Timed(Fetch(1), 0), Timed(Pull, 0), Timed(Pull, 0)];
    assert e9 + [Timed(Pull, 0)] == es + (more + tail);
    assert es + (more + tail)[..9] == e9;
    assert (more + tail)[..4] == more[..4];
    more := more + tail;
  }

  lemma LateStart(w: World, es: seq<Timed>) returns (more: seq<Timed>)
    requires Stands(After(BY_TIME, w, es), [FIRST], None, 1000)
    ensures more == [Timed(Arrive(1, NEWER), 0), Timed(Begin, 0), Timed(Fetch(1), 0), Timed(Pull, 0), Timed(Arrive(0, LATE), 0)]
    ensures Stands(After(BY_TIME, w, es + more[..4]), [FIRST, NEWER], Some(Reading(700, 0, CAP, [FIRST], [], Some(2))), 1000)
    ensures Stands(After(BY_TIME, w, es + more), [LATE, FIRST, NEWER], Some(Reading(700, 0, CAP, [FIRST], [], Some(2))), 1000)
  {
    hide Selected, NewestTime, Next, Possible, Stands;
    var r := Reading(700, 0, CAP, [], [], None);
    assert InsertAt([FIRST], 1, NEWER) == [FIRST, NEWER];
    OneMore(w, es, Arrive(1, NEWER));
    ArriveOne(After(BY_TIME, w, es), [FIRST], None, 1000, 1, NEWER);
    var e1 := es + [Timed(Arrive(1, NEWER), 0)];
    OneMore(w, e1, Begin);
    BeginOne(After(BY_TIME, w, e1), [FIRST, NEWER], 1000);
    var e2 := e1 + [Timed(Begin, 0)];
    FetchOne(After(BY_TIME, w, e2), [FIRST, NEWER], r, 1000);
    OneMore(w, e2, Fetch(1));
    var e3 := e2 + [Timed(Fetch(1), 0)];
    PullOne(After(BY_TIME, w, e3), [FIRST, NEWER], r.(page := [FIRST], total := Some(2)), 1000, FIRST);
    OneMore(w, e3, Pull);
    var e4 := e3 + [Timed(Pull, 0)];
    assert [] + [FIRST] == [FIRST];
    assert InsertAt([FIRST, NEWER], 0, LATE) == [LATE, FIRST, NEWER];
    OneMore(w, e4, Arrive(0, LATE));
    ArriveOne(After(BY_TIME, w, e4), [FIRST, NEWER], Some(Reading(700, 0, CAP, [FIRST], [], Some(2))), 1000, 0, LATE);
    more := [Timed(Arrive(1, NEWER), 0), Timed(Begin, 0), Timed(Fetch(1), 0), Timed(Pull, 0), Timed(Arrive(0, LATE), 0)];
    assert es + more[..4] == e4 && es + more == e4 + [Timed(Arrive(0, LATE), 0)];
  }

  lemma ArriveOne(w: World, source: seq<Row>, reading: Option<Reading>, cursor: int, pos: nat, x: Row)
    requires Stands(w, source, reading, cursor) && pos <= |source|
    ensures Possible(BY_TIME, w, Arrive(pos, x))
    ensures Stands(Next(BY_TIME, w, Arrive(pos, x), 0), InsertAt(source, pos, x), reading, cursor)
  {
    hide Selected;
  }

  lemma BeginOne(w: World, source: seq<Row>, cursor: int)
    requires Stands(w, source, None, cursor)
    ensures Possible(BY_TIME, w, Begin)
    ensures Stands(Next(BY_TIME, w, Begin, 0), source, Some(Reading(Max(cursor - 300, 0), 0, CAP, [], [], None)), cursor)
  {
    hide Selected;
  }

  lemma FreshLate()
    ensures FreshAnswer(BY_TIME, [LATE, FIRST, NEWER], 2) == 900
  {
    hide NewestPlay, FreshAnswer, Selected;
    AllSelected([LATE, FIRST, NEWER], 0);
    FreshAnswerMeans(BY_TIME, [LATE, FIRST, NEWER], 2);
    assert [LATE, FIRST, NEWER] == (([] + [LATE]) + [FIRST]) + [NEWER];
    NewestPlaySnoc(([] + [LATE]) + [FIRST], NEWER, 2);
    NewestPlaySnoc([] + [LATE], FIRST, 2);
    NewestPlaySnoc([], LATE, 2);
    NoPlay(2);
  }

  /** Lateness is not tolerated while a read is under way: with no drain open, a play 200 s
      older than the newest row comes in before the end of a page already requested, and when
      the increment has handed on its last row the play is not answered, though it stood in
      the source before the last page was requested. */
  lemma LateRowDuringAReadIsMissed() returns (first: seq<Timed>, es: seq<Timed>)
    ensures Honest(BY_TIME) && WholeRead(BY_TIME, Opening(START, [FIRST]), first) && 5 <= |es|
    ensures es[4].e == Arrive(0, LATE) && Classify(LATE) == Play(2)
    ensures var v := After(BY_TIME, Opening(START, [FIRST]), first + es[..4]);
            v.s.drain == NO_DRAIN && LATE.viewedAt >= NewestTime(v.source) - 300
    ensures Finishes(After(BY_TIME, Opening(START, [FIRST]), first + es[..|es| - 1]), es[|es| - 1].e)
    ensures var u := After(BY_TIME, Opening(START, [FIRST]), first + es);
            u.pruned == {} && VisitAnswer(u.s, 2) == 0 && FreshAnswer(BY_TIME, u.asked, 2) == 900
  {
    hide After, WholeRead, Finishes, NewestTime, FreshAnswer;
    first := FullReadOfOne();
    es := LateIncrement(Opening(START, [FIRST]), first);
    assert es[4] == es[..5][4];
    NextNewest([FIRST], NEWER);
    NewestOf(FIRST, FIRST, FIRST);
    assert [FIRST] + [NEWER] == [FIRST, NEWER];
    FreshLate();
  }

  // ---- a row that comes in before the page, handed on after all ----

  lemma PullLate(w: World, source: seq<Row>, r: Reading, cursor: int)
    requires Stands(w, source, Some(r), cursor) && r.page == [LATE] && |r.handed| < r.cap
    ensures Possible(BY_TIME, w, Pull) && !Finishes(w, Pull)
    ensures LATE in Next(BY_TIME, w, Pull, 0).folded
  {
    hide Selected;
  }

  /** A play inserted in front of the page to come, in a window that is good and open. */
  lemma LateArrival() returns (w: World)
    ensures Good(BY_TIME, w) && LATE !in w.source && !InWindow(BY_TIME, w, 0, LATE)
    ensures Stands(w, [FIRST, NEWER], Some(Reading(700, 0, CAP, [FIRST], [], Some(2))), 1000)
    ensures Possible(BY_TIME, w, Arrive(0, LATE))
    ensures Stands(Next(BY_TIME, w, Arrive(0, LATE), 0), [LATE, FIRST, NEWER], Some(Reading(700, 0, CAP, [FIRST], [], Some(2))), 1000)
  {
    hide After, NewestTime, WholeRead, Good;
    var first := FullReadOfOne();
    var more := LateStart(Opening(START, [FIRST]), first);
    w := After(BY_TIME, Opening(START, [FIRST]), first + more[..4]);
    OpeningGood(BY_TIME, START, [FIRST]);
    GoodRun(BY_TIME, Opening(START, [FIRST]), first + more[..4]);
    assert InsertAt([FIRST, NEWER], 0, LATE) == [LATE, FIRST, NEWER];
    assert [FIRST, NEWER][..0] == [] && Selected(BY_TIME, [], 700) == [];
  }

  lemma NotYet(w: World, es: seq<Timed>, e: Event)
    requires StillOpen(BY_TIME, w, es) && !Finishes(After(BY_TIME, w, es), e)
    ensures StillOpen(BY_TIME, w, es + [Timed(e, 0)])
  {
    hide After, Finishes;
    var all := es + [Timed(e, 0)];
    forall i | 0 <= i < |all| ensures !Finishes(After(BY_TIME, w, all[..i]), all[i].e) {
      assert all[..i] == es[..i];
      assert i == |es| ==> es[..i] == es;
    }
  }

  /** One event on, with the window still open. */
  lemma Goes(w: World, es: seq<Timed>, e: Event)
    requires StillOpen(BY_TIME, w, es) && e != Pull
    ensures StillOpen(BY_TIME, w, es + [Timed(e, 0)])
    ensures After(BY_TIME, w, es + [Timed(e, 0)])
         == var v := After(BY_TIME, w, es); if Possible(BY_TIME, v, e) then Next(BY_TIME, v, e, 0) else v
  {
    hide After, Possible, Next;
    OneMore(w, es, e);
    NotYet(w, es, e);
  }

  lemma NothingYet(w: World)
    ensures StillOpen(BY_TIME, w, []) && After(BY_TIME, w, []) == w
  {
  }

  /** A page that fails can make up for it: the window's next read starts over and hands the
      play on. */
  lemma FailedPageReachesLateRow() returns (w: World, es: seq<Timed>)
    ensures Good(BY_TIME, w) && LATE !in w.source && !InWindow(BY_TIME, w, 0, LATE) && Possible(BY_TIME, w, Arrive(0, LATE))
    ensures var v := Next(BY_TIME, w, Arrive(0, LATE), 0);
            StillOpen(BY_TIME, v, es) && LATE in After(BY_TIME, v, es).folded && exists t :: t in es && t.e == Break
  {
    hide After, Selected, StillOpen, Good, InWindow, NewestTime;
    w := LateArrival();
    var v := Next(BY_TIME, w, Arrive(0, LATE), 0);
    var source := [LATE, FIRST, NEWER];
    NothingYet(v);
    Goes(v, [], Break);
    var broken := [] + [Timed(Break, 0)];
    Goes(v, broken, Begin);
    var begun := broken + [Timed(Begin, 0)];
    var r := Reading(700, 0, CAP, [], [], None);
    assert Stands(After(BY_TIME, v, begun), source, Some(r), 1000);
    FetchOne(After(BY_TIME, v, begun), source, r, 1000);
    Goes(v, begun, Fetch(1));
    var fetched := begun + [Timed(Fetch(1), 0)];
    PullLate(After(BY_TIME, v, fetched), source, r.(page := [LATE], total := Some(3)), 1000);
    OneMore(v, fetched, Pull);
    NotYet(v, fetched, Pull);
    es := fetched + [Timed(Pull, 0)];
    assert es[0] == Timed(Break, 0) && es[0] in es;
  }

  /** So can another row that comes in before it and pushes it onto the next page. */
  lemma LaterRowPushesItOn() returns (w: World, es: seq<Timed>)
    ensures Good(BY_TIME, w) && LATE !in w.source && !InWindow(BY_TIME, w, 0, LATE) && Possible(BY_TIME, w, Arrive(0, LATE))
    ensures var v := Next(BY_TIME, w, Arrive(0, LATE), 0);
            StillOpen(BY_TIME, v, es) && LATE in After(BY_TIME, v, es).folded && forall t | t in es :: t.e != Break
  {
    hide After, Selected, StillOpen, Good, InWindow, NewestTime;
    w := LateArrival();
    var v := Next(BY_TIME, w, Arrive(0, LATE), 0);
    var source := [NEWER, LATE, FIRST, NEWER];
    NothingYet(v);
    Goes(v, [], Arrive(0, NEWER));
    var pushed := [] + [Timed(Arrive(0, NEWER), 0)];
    assert InsertAt([LATE, FIRST, NEWER], 0, NEWER) == source;
    var r := Reading(700, 0, CAP, [FIRST], [], Some(2));
    assert Stands(After(BY_TIME, v, pushed), source, Some(r), 1000);
    FetchOne(After(BY_TIME, v, pushed), source, r, 1000);
    Goes(v, pushed, Fetch(1));
    var fetched := pushed + [Timed(Fetch(1), 0)];
    PullLate(After(BY_TIME, v, fetched), source, r.(page := [LATE], total := Some(4)), 1000);
    OneMore(v, fetched, Pull);
    NotYet(v, fetched, Pull);
    es := fetched + [Timed(Pull, 0)];
    assert forall t | t in es :: t == Timed(Arrive(0, NEWER), 0) || t == Timed(Fetch(1), 0) || t == Timed(Pull, 0);
  }
}
