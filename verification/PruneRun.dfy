/** A small run of the walk and the history (internal/server/walk.go) in which a prune takes
    an item that is in a library: what the conditions of Protocol.PruneIsSafe are needed for. */
module PruneRun {
  import opened Ints
  import opened Sequences
  import opened History
  import opened LibStats
  import opened LibStatsLaws
  import opened Ranking
  import opened Aggregator
  import opened Walks
  import P = Protocol

  // a library of one film without files or play state, and a play of it at 50
  const ENV: P.Env := P.Env((r: History.Row) => 0, (s: string) => s, (s: string) => s)
  const FILMS: Library := Library("1", Movie, "movie", 1)
  const FILM: LibStats.Row := LibStats.Row(Some(7), None, "", "", 0, 0, None, None, 0, 0, [])
  const PLAYED: History.Row := History.Row(Numeric(7), 50, "", 0)
  const FIGURES: Stats := Stats(map[], map[], map[], map[Never := 1], [], [], 0, 0, 0, 0, 0, 1)

  lemma OneLibrary()
    ensures IsWalkable([FILMS], [FILMS], 0)
  {
    assert [FILMS][..0] == [];
    var all := [FILMS];
    assert Videos([FILMS]) == [FILMS];
    assert multiset(all) == multiset(Videos([FILMS])) && SortedBy(all, (l: Library) => l.order) && [FILMS] <= all;
  }

  lemma OneRow()
    ensures FirstRows([FILM]) == [FILM] && DistinctKeys([FILM])
  {
    assert [FILM][..0] == [];
    NoRows();
  }

  lemma OneTotal(c: Config, f: Figure)
    ensures Total(c, f, [FILM]) == Share(c, f, FILM)
  {
    SumSnoc([], FILM, Shares(c, f));
    assert [] + [FILM] == [FILM];
  }

  lemma OneLastPlay(c: Config)
    requires c.played(ItemPlay(7)) == 0
    ensures LastPlay(c, FILM) == 0 && BucketOf(c, FILM) == Never
  {
  }

  /** The figures of that library when nothing was answered. */
  lemma OneFilm(c: Config)
    requires !c.showLibrary && c.played(ItemPlay(7)) == 0
    ensures StatsOf(c, [FILM], FIGURES)
  {
    hide Total, Share, IsTop;
    OneRow();
    forall f: Figure ensures Total(c, f, [FILM]) == Share(c, f, FILM) {
      OneTotal(c, f);
    }
    OneShares(c);
    assert NewestAdded([FILM]) == 0 by { assert [FILM][..0] == []; }
    assert LargestEntries(c, [FILM]) == {} && RecentEntries(c, [FILM]) == {};
    EmptyIsTop(BySize);
    EmptyIsTop(ByAdded);
    var none: set<Item> := {};
    assert multiset(none) == multiset{};
    assert ListsExact(c, [FILM], FIGURES);
    assert LabelsExact(c, [FILM], Resolution, FIGURES.resolutionBytes) && LabelsExact(c, [FILM], Codec, FIGURES.codecBytes);
    assert WatchExact(c, [FILM], FIGURES);
    assert CountsExact(c, [FILM], FIGURES);
  }

  lemma OneShares(c: Config)
    requires c.played(ItemPlay(7)) == 0
    ensures forall kind: MediaLabel, name: string :: Share(c, LabelBytes(kind, name), FILM) == 0
    ensures forall b: WatchBucket :: Share(c, WatchBytes(b), FILM) == 0
    ensures forall b: WatchBucket :: Share(c, WatchItems(b), FILM) == if b == Never then 1 else 0
    ensures Share(c, MultiVersionItems, FILM) == 0 && Share(c, ExtraVersionBytes, FILM) == 0 && Share(c, Unsized, FILM) == 1
    ensures forall days: int :: Share(c, AddedWithin(days), FILM) == 0
  {
    OneLastPlay(c);
  }

  // ---- the run ----

  const EMPTY_STORE: State := State(Some(EMPTY), Complete, 1, 0, NO_DRAIN, 0)
  const PASS: P.Pass := P.Pass(false, 1, 100, 1, [FILMS], 0, 0, true, {})

  function Started(): seq<P.Event> {
    [P.FullReadEnded([], Finished, 0, false), P.PassStarted(false, [FILMS], [FILMS], 0, 100), P.WalkStarted(0, 0)]
  }

  lemma AfterStart()
    ensures var y := P.Run(ENV, Started());
            && y.s == EMPTY_STORE && y.libs == map[] && y.evidence == map[] && y.clock == 3
            && y.walker == P.Reading(PASS, P.LibraryRun(2, 1, None, 0, map[], map[]))
  {
    hide IsWalkable;
    OneLibrary();
    var a, b, c := P.FullReadEnded([], Finished, 0, false), P.PassStarted(false, [FILMS], [FILMS], 0, 100), P.WalkStarted(0, 0);
    assert P.Run(ENV, []) == P.INITIAL;
    P.RunSnoc(ENV, [], a);
    P.RunSnoc(ENV, [a], b);
    P.RunSnoc(ENV, [a, b], c);
    assert [] + [a] == [a] && [a] + [b] == [a, b] && [a, b] + [c] == Started();
    var y := P.Run(ENV, [a]);
    assert y.s == EMPTY_STORE && y.walker == P.Waiting;
    assert P.Run(ENV, [a, b]).walker == P.Walker.Between(PASS);
  }

  const ANSWERS: map<Ask, P.Answer> := map[ItemPlay(7) := P.Answer(0, 1, 3)]
  const PLAYED_STORE: State := EMPTY_STORE.(tables := Some(EMPTY.(watched := map[7 := Entry(50, 0)])))

  /** The film is visited before its play is folded. */
  lemma AfterVisit(y: P.System)
    requires y.s == EMPTY_STORE && y.clock == 3 && y.walker == P.Reading(PASS, P.LibraryRun(2, 1, None, 0, map[], map[]))
    ensures var v := P.Next(ENV, P.Next(ENV, y, P.Visit(ItemPlay(7))), P.RowFolded(PLAYED));
            && v.s == PLAYED_STORE && v.libs == y.libs && v.evidence == y.evidence && v.clock == 5
            && v.walker == P.Reading(PASS, P.LibraryRun(2, 1, None, 0, map[], ANSWERS))
  {
    var u := P.Next(ENV, y, P.Visit(ItemPlay(7)));
    assert u.s == EMPTY_STORE && u.walker == P.Reading(PASS, P.LibraryRun(2, 1, None, 0, map[], ANSWERS));
    assert Merge(map[], 7, 50) == map[7 := Entry(50, 0)];
  }

  const WALKED: P.LibraryRun := P.LibraryRun(2, 1, Some(1), 0, map[], ANSWERS)

  lemma AfterOver(v: P.System)
    requires v.s == PLAYED_STORE && v.walker == P.Reading(PASS, WALKED.(gen1 := None))
    ensures var z := P.Next(ENV, v, P.VisitsOver(0));
            z.s == PLAYED_STORE && z.walker == P.Reading(PASS, WALKED)
  {
  }

  lemma AfterStored(v: P.System)
    requires v.s == PLAYED_STORE && v.walker == P.Reading(PASS, WALKED)
    ensures var z := P.Next(ENV, v, P.WalkStored([FILM], Figures(FIGURES), 0, Live));
            && z.s == PLAYED_STORE && z.walker == P.Walker.Between(PASS.(through := 1))
            && FILMS.id in z.libs && FILMS.id in z.evidence && z.evidence[FILMS.id].run == WALKED
  {
    hide P.Computed, InLibrary, P.WalkConfig;
    FilmComputed(WALKED);
    var stored := P.StoredAt(ENV, v, PASS, WALKED, [FILM], Figures(FIGURES), 0, Live);
    assert P.Next(ENV, v, P.WalkStored([FILM], Figures(FIGURES), 0, Live)) == stored.(clock := v.clock + 1);
  }

  lemma AfterPass(v: P.System)
    requires v.s == PLAYED_STORE && v.walker == P.Walker.Between(PASS.(through := 1)) && FILMS.id in v.libs
    requires FILMS.id in v.evidence && v.evidence[FILMS.id].run == WALKED
    ensures var z := P.Next(ENV, v, P.PassOver);
            && z.s == PLAYED_STORE && z.walker == P.Pruning(PASS.(through := 1))
            && FILMS.id in z.evidence && z.evidence[FILMS.id].run == WALKED
  {
  }

  lemma FilmComputed(run: P.LibraryRun)
    requires run.answers == ANSWERS
    ensures P.Computed(ENV, FILMS, run, [FILM], Figures(FIGURES))
  {
    hide StatsOf;
    OneRow();
    var c := P.WalkConfig(ENV, FILMS, run);
    OneFilm(c);
    assert LibStats.Keys([FILM]) == {7} by { assert FILM in [FILM]; }
    assert Asked(c, [FILM]) == {ItemPlay(7)};
  }

  /** A prune can take an item that is still in a library and was visited by the very pass:
      it was not in the map when visited, and a play of it older than the pass was folded
      behind the visit. */
  lemma VisitedItemCanBePruned() returns (events: seq<P.Event>)
    ensures var y := P.Run(ENV, events);
            && y.walker.Pruning? && FILMS in y.walker.pass.walk && FILMS.id in y.evidence
            && ItemPlay(7) in y.evidence[FILMS.id].run.answers
            && VisitAnswer(y.s, 7) == 50 && VisitAnswer(P.Next(ENV, y, P.PruneAsked).s, 7) == 0
  {
    hide P.Next, P.Run;
    AfterStart();
    var y := P.Run(ENV, Started());
    AfterVisit(y);
    var v := P.Next(ENV, P.Next(ENV, y, P.Visit(ItemPlay(7))), P.RowFolded(PLAYED));
    AfterOver(v);
    AfterStored(P.Next(ENV, v, P.VisitsOver(0)));
    AfterPass(P.Next(ENV, P.Next(ENV, v, P.VisitsOver(0)), P.WalkStored([FILM], Figures(FIGURES), 0, Live)));
    var visit, fold, over, stored := P.Visit(ItemPlay(7)), P.RowFolded(PLAYED), P.VisitsOver(0), P.WalkStored([FILM], Figures(FIGURES), 0, Live);
    P.RunSnoc(ENV, Started(), visit);
    P.RunSnoc(ENV, Started() + [visit], fold);
    P.RunSnoc(ENV, Started() + [visit] + [fold], over);
    P.RunSnoc(ENV, Started() + [visit] + [fold] + [over], stored);
    P.RunSnoc(ENV, Started() + [visit] + [fold] + [over] + [stored], P.PassOver);
    events := Started() + [visit] + [fold] + [over] + [stored] + [P.PassOver];
    FilmPruned(P.Run(ENV, events));
  }

  lemma FilmPruned(z: P.System)
    requires z.s == PLAYED_STORE && z.walker == P.Pruning(PASS.(through := 1))
    ensures VisitAnswer(z.s, 7) == 50 && VisitAnswer(P.Next(ENV, z, P.PruneAsked).s, 7) == 0
  {
  }
}
