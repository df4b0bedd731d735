/** The library walk (internal/server/walk.go): which libraries a pass reads, what it stores
    for each, which it skips as still current, and when it asks the store to prune. What the
    history answers at the two ends of a library's walk comes in with each attempt. */
module Walks {
  import opened Ints
  import opened Sequences
  import opened Ranking
  import opened LibStats
  import opened Aggregator

  const MAX_WALKED_LIBRARIES: nat := 32

  datatype LibraryType = Movie | ShowType | HomeVideo | OtherType

  /** A library section; order is its id as a number. */
  datatype Library = Library(id: string, kind: LibraryType, kindName: string, order: uint64)

  predicate Video(l: Library) {
    l.kind != OtherType
  }

  function Videos(libs: seq<Library>): seq<Library> {
    if libs == [] then []
    else
      var before := Videos(libs[..|libs| - 1]);
      var l := libs[|libs| - 1];
      if Video(l) then before + [l] else before
  }

  /** Some ordering by section id of the video libraries, cut at the limit. */
  ghost predicate IsWalkable(libs: seq<Library>, walk: seq<Library>, skipped: nat) {
    exists all: seq<Library> ::
      && multiset(all) == multiset(Videos(libs))
      && SortedBy(all, (l: Library) => l.order)
      && walk <= all && |walk| == Min(|all|, MAX_WALKED_LIBRARIES) && skipped == |all| - |walk|
  }

  /** walkableLibraries: the video libraries of a pass, ordered by section id and cut at the
      limit, and the number cut off. */
  method WalkableLibraries(libs: seq<Library>) returns (walk: seq<Library>, skipped: nat)
    ensures IsWalkable(libs, walk, skipped)
    ensures skipped == 0 <==> |Videos(libs)| <= MAX_WALKED_LIBRARIES
  {
    walk := [];
    for i := 0 to |libs|
      invariant walk == Videos(libs[..i])
    {
      assert libs[..i + 1][..i] == libs[..i];
      if Video(libs[i]) {
        walk := walk + [libs[i]];
      }
    }
    assert libs[..|libs|] == libs;
    var all := SortBy(walk, (l: Library) => l.order);
    assert |multiset(all)| == |multiset(walk)|;
    if |all| > MAX_WALKED_LIBRARIES {
      return all[..MAX_WALKED_LIBRARIES], |all| - MAX_WALKED_LIBRARIES;
    }
    return all, 0;
  }

  /** What is kept of a library's newest walk to succeed; stamp names the generation whose
      answers its watch figures rest on, and is 0 unless one was current at both ends. */
  datatype LibWalk = LibWalk(stats: Stats, lastSuccess: int, duration: int, stamp: nat, walked: bool, failed: bool)

  const NO_STATS: Stats := Stats(map[], map[], map[], map[], [], [], 0, 0, 0, 0, 0, 0)
  const UNWALKED: LibWalk := LibWalk(NO_STATS, 0, 0, 0, false, false)

  /** The stamp of a walk: the generation seen at both ends, if it is one. */
  function Stamp(gen0: nat, gen1: nat): nat {
    if gen0 != 0 && gen0 == gen1 then gen0 else 0
  }

  /** When the context of a walk ended, if it did: seen by the walk itself, or only by the
      check the pass makes behind it. */
  datatype Context = Live | EndsAfter | EndsDuring

  /** The video libraries of a list: movies, shows and home videos, each as often as listed. */
  lemma {:induction false} VideosMean(libs: seq<Library>)
    ensures forall l :: multiset(Videos(libs))[l] == if l.kind in {Movie, ShowType, HomeVideo} then multiset(libs)[l] else 0
    ensures forall l :: l in Videos(libs) <==> l in libs && l.kind in {Movie, ShowType, HomeVideo}
  {
    if libs != [] {
      var n := |libs| - 1;
      VideosMean(libs[..n]);
      assert libs == libs[..n] + [libs[n]];
      var before := Videos(libs[..n]);
      assert Videos(libs) == before + if Video(libs[n]) then [libs[n]] else [];
    }
  }

  /** What a pass walks: video libraries in the order of their section ids, all of them or 32,
      and then none that is left out comes before one that is walked. */
  lemma WalkableMeans(libs: seq<Library>, walk: seq<Library>, skipped: nat)
    requires IsWalkable(libs, walk, skipped)
    ensures |walk| == Min(|Videos(libs)|, 32) && skipped == |Videos(libs)| - |walk|
    ensures forall i, j | 0 <= i < j < |walk| :: walk[i].order <= walk[j].order
    ensures forall l | l in walk :: l in Videos(libs)
    ensures forall l | l in Videos(libs) && l !in walk :: skipped > 0 && forall x | x in walk :: x.order <= l.order
  {
    var all: seq<Library> :| multiset(all) == multiset(Videos(libs)) && SortedBy(all, (l: Library) => l.order)
      && walk <= all && |walk| == Min(|all|, MAX_WALKED_LIBRARIES) && skipped == |all| - |walk|;
    assert |multiset(all)| == |multiset(Videos(libs))|;
    assert forall l :: l in all <==> l in Videos(libs) by { assert forall l :: l in all <==> l in multiset(all); }
    CutMeans(all, |walk|);
    assert walk == all[..|walk|];
  }

  /** What a cut of an ordered list leaves out comes behind what it keeps. */
  lemma CutMeans(all: seq<Library>, n: nat)
    requires n <= |all| && SortedBy(all, (l: Library) => l.order)
    ensures forall i, j | 0 <= i < j < n :: all[..n][i].order <= all[..n][j].order
    ensures forall l | l in all[..n] :: l in all
    ensures forall l | l in all && l !in all[..n] :: n < |all| && forall x | x in all[..n] :: x.order <= l.order
  {
    forall l | l in all && l !in all[..n] ensures n < |all| && forall x | x in all[..n] :: x.order <= l.order {
      var j :| 0 <= j < |all| && all[j] == l;
      assert forall k | 0 <= k < n :: all[k] in all[..n] by { assert forall k | 0 <= k < n :: all[..n][k] == all[k]; }
    }
  }

  /** One library's walk as the environment made it go: the stampable generation at its two
      ends, what the aggregation returned, its times, and whether the context had ended. */
  datatype Attempt = Attempt(gen0: nat, gen1: nat, result: WalkResult, started: int, ended: int, context: Context)

  function InLibrary(l: Library, list: seq<Item>): (r: seq<Item>)
    ensures |r| == |list|
    ensures forall i | 0 <= i < |r| :: r[i] == list[i].(libraryId := l.id, libraryType := l.kindName)
  {
    seq(|list|, i requires 0 <= i < |list| => list[i].(libraryId := l.id, libraryType := l.kindName))
  }

  function EntryOf(libs: map<string, LibWalk>, id: string): LibWalk {
    if id in libs then libs[id] else UNWALKED
  }

  /** A library's entry after one attempt: a success replaces it, a failure keeps the figures
      and the stamp and only marks it failed, unless the exporter is shutting down. */
  function EntryAfter(w: LibWalk, l: Library, a: Attempt): LibWalk {
    match a.result
    case Failed(_) => if a.context == EndsDuring then w else w.(failed := true)
    case Figures(st) =>
      LibWalk(st.(largest := InLibrary(l, st.largest), recent := InLibrary(l, st.recent)),
              a.ended, a.ended - a.started, Stamp(a.gen0, a.gen1), true, false)
  }

  function LibsAfter(libs: map<string, LibWalk>, l: Library, a: Attempt): map<string, LibWalk> {
    libs[l.id := EntryAfter(EntryOf(libs, l.id), l, a)]
  }

  function StampOf(libs: map<string, LibWalk>, id: string): nat {
    if id in libs && libs[id].walked then libs[id].stamp else 0
  }

  /** A stale-only pass skips the libraries already stamped with its generation. */
  predicate Skips(libs: map<string, LibWalk>, l: Library, staleOnly: bool, gen: nat) {
    staleOnly && StampOf(libs, l.id) == gen
  }

  /** The libraries after a pass got through these, in order; attempts are matched to them
      one by one, and one that a skipped library does not use is not made. */
  function PassOver(libs: map<string, LibWalk>, walk: seq<Library>, attempts: seq<Attempt>, staleOnly: bool, gen: nat): map<string, LibWalk>
    requires |walk| <= |attempts|
  {
    if walk == [] then libs
    else
      var n := |walk| - 1;
      var before := PassOver(libs, walk[..n], attempts, staleOnly, gen);
      if Skips(before, walk[n], staleOnly, gen) then before else LibsAfter(before, walk[n], attempts[n])
  }

  /** The library at i is walked, not skipped. */
  predicate Made(libs: map<string, LibWalk>, walk: seq<Library>, attempts: seq<Attempt>, staleOnly: bool, gen: nat, i: nat)
    requires i < |walk| <= |attempts|
  {
    !Skips(PassOver(libs, walk[..i], attempts, staleOnly, gen), walk[i], staleOnly, gen)
  }

  function Ids(walk: seq<Library>): set<string> {
    set l | l in walk :: l.id
  }

  class WalkState {
    var libs: map<string, LibWalk>
    var passDuration: int
    var pass: uint32
    var passDone: bool

    constructor ()
      ensures libs == map[] && pass == 0 && !passDone && passDuration == 0
    {
      libs, passDuration, pass, passDone := map[], 0, 0, false;
    }

    /** walkLibrary: a completed walk takes the place of the one before. */
    method WalkLibrary(l: Library, a: Attempt) returns (ok: bool)
      modifies this`libs
      ensures libs == LibsAfter(old(libs), l, a)
      ensures ok <==> a.result.Figures?
    {
      var w := if l.id in libs then libs[l.id] else UNWALKED;
      match a.result {
        case Failed(_) =>
          if a.context != EndsDuring {
            w := w.(failed := true);
          }
          libs := libs[l.id := w];
          return false;
        case Figures(st) =>
          var stamp := 0;
          if a.gen0 != 0 && a.gen0 == a.gen1 {
            stamp := a.gen0;
          }
          var labelled := st.(largest := InLibrary(l, st.largest), recent := InLibrary(l, st.recent));
          libs := libs[l.id := LibWalk(labelled, a.ended, a.ended - a.started, stamp, true, false)];
          return true;
      }
    }

    /** The loop of walkPass: walks the libraries in order, a stale-only pass only those not
        stamped with gen, until one finds the context ended; reached counts those got through. */
    method WalkEach(walk: seq<Library>, attempts: seq<Attempt>, staleOnly: bool, gen: nat)
      returns (reached: nat, cancelled: bool, allOk: bool)
      requires |walk| <= |attempts|
      modifies this`libs
      ensures Reached(old(libs), walk, attempts, staleOnly, gen, reached, cancelled)
      ensures libs == PassOver(old(libs), walk[..reached], attempts, staleOnly, gen)
      ensures !staleOnly ==> (allOk <==> forall i | 0 <= i < reached :: attempts[i].result.Figures?)
    {
      hide PassOver, LibsAfter;
      reached, cancelled, allOk := 0, false, true;
      ghost var before := libs;
      assert walk[..0] == [];
      assert PassOver(before, [], attempts, staleOnly, gen) == before by { NothingWalked(before, attempts, staleOnly, gen); }
      while reached < |walk| && !cancelled
        invariant reached <= |walk| && before == old(libs)
        invariant cancelled ==> 0 < reached && Made(before, walk, attempts, staleOnly, gen, reached - 1) && attempts[reached - 1].context != Live
        invariant Uncancelled(before, walk, attempts, staleOnly, gen, if cancelled then reached - 1 else reached)
        invariant libs == PassOver(before, walk[..reached], attempts, staleOnly, gen)
        invariant !staleOnly ==> (allOk <==> forall i | 0 <= i < reached :: attempts[i].result.Figures?)
        decreases |walk| - reached, !cancelled
      {
        PassOverNext(before, walk, attempts, staleOnly, gen, reached);
        var l, a := walk[reached], attempts[reached];
        reached := reached + 1;
        if !(staleOnly && StampOf(libs, l.id) == gen) {
          var ok := WalkLibrary(l, a);
          allOk := allOk && ok;
          cancelled := a.context != Live;
        }
      }
    }

    /** walkPass: a full pass takes the next number and, once through, forgets libraries no
        longer walkable; prune reports that it then asks the store to prune under its number. */
    method WalkPass(walk: seq<Library>, skipped: nat, attempts: seq<Attempt>, staleOnly: bool, gen: nat, took: int)
      returns (reached: nat, cancelled: bool, prune: bool, number: uint32)
      requires |walk| <= |attempts|
      modifies this
      ensures number == if staleOnly then 0 else (old(pass) + 1) % 0x1_0000_0000
      ensures pass == if staleOnly then old(pass) else number
      ensures Reached(old(libs), walk, attempts, staleOnly, gen, reached, cancelled)
      ensures libs == var all := PassOver(old(libs), walk[..reached], attempts, staleOnly, gen);
                if cancelled || staleOnly then all else map id | id in all && id in Ids(walk) :: all[id]
      ensures if cancelled || staleOnly then passDone == old(passDone) && passDuration == old(passDuration)
              else passDone && passDuration == took
      ensures prune == (!cancelled && !staleOnly && skipped == 0
                && forall i | 0 <= i < |walk| :: attempts[i].result.Figures?)
    {
      number := 0;
      if !staleOnly {
        pass := (pass + 1) % 0x1_0000_0000;
        number := pass;
      }
      var allOk;
      reached, cancelled, allOk := WalkEach(walk, attempts, staleOnly, gen);
      if cancelled || staleOnly {
        return reached, cancelled, false, number;
      }
      passDuration := took;
      passDone := true;
      libs := map id | id in libs && id in Ids(walk) :: libs[id];
      prune := allOk && skipped == 0;
    }
  }

  /** No library walked before n found the context ended. */
  ghost predicate Uncancelled(libs: map<string, LibWalk>, walk: seq<Library>, attempts: seq<Attempt>, staleOnly: bool, gen: nat, n: nat)
    requires n <= |walk| <= |attempts|
  {
    forall i | 0 <= i < n && Made(libs, walk, attempts, staleOnly, gen, i) :: attempts[i].context == Live
  }

  /** A pass stops right behind the first library walked that finds the context ended, and
      gets through them all when there is none. */
  ghost predicate Reached(libs: map<string, LibWalk>, walk: seq<Library>, attempts: seq<Attempt>, staleOnly: bool, gen: nat,
                          reached: nat, cancelled: bool)
    requires |walk| <= |attempts|
  {
    && reached <= |walk|
    && (if cancelled then
          && 0 < reached && Made(libs, walk, attempts, staleOnly, gen, reached - 1) && attempts[reached - 1].context != Live
          && Uncancelled(libs, walk, attempts, staleOnly, gen, reached - 1)
        else reached == |walk| && Uncancelled(libs, walk, attempts, staleOnly, gen, reached))
  }

  lemma NothingWalked(libs: map<string, LibWalk>, attempts: seq<Attempt>, staleOnly: bool, gen: nat)
    ensures PassOver(libs, [], attempts, staleOnly, gen) == libs
  {
  }

  lemma PassOverNext(libs: map<string, LibWalk>, walk: seq<Library>, attempts: seq<Attempt>, staleOnly: bool, gen: nat, n: nat)
    requires n < |walk| <= |attempts|
    ensures PassOver(libs, walk[..n + 1], attempts, staleOnly, gen)
         == if Made(libs, walk, attempts, staleOnly, gen, n)
            then LibsAfter(PassOver(libs, walk[..n], attempts, staleOnly, gen), walk[n], attempts[n])
            else PassOver(libs, walk[..n], attempts, staleOnly, gen)
  {
    assert walk[..n + 1][..n] == walk[..n];
  }

  /** After a rebuild the stale-only pass brings every library up to date: if history stayed
      current at the pass's generation through every walk it made, and each succeeded, then
      every walkable library is stamped with that generation. */
  lemma {:induction false} StalePassStampsEveryLibrary(
      libs: map<string, LibWalk>, walk: seq<Library>, attempts: seq<Attempt>, gen: nat)
    requires |walk| <= |attempts| && gen != 0
    requires forall i | 0 <= i < |walk| && Made(libs, walk, attempts, true, gen, i) ::
               attempts[i].result.Figures? && attempts[i].gen0 == gen && attempts[i].gen1 == gen
    ensures forall i | 0 <= i < |walk| :: StampOf(PassOver(libs, walk, attempts, true, gen), walk[i].id) == gen
  {
    hide PassOver, LibsAfter;
    if walk != [] {
      var n := |walk| - 1;
      forall i | 0 <= i < n && Made(libs, walk[..n], attempts, true, gen, i)
        ensures attempts[i].result.Figures? && attempts[i].gen0 == gen && attempts[i].gen1 == gen
      {
        assert walk[..n][..i] == walk[..i];
        assert Made(libs, walk, attempts, true, gen, i);
      }
      StalePassStampsEveryLibrary(libs, walk[..n], attempts, gen);
      var before := PassOver(libs, walk[..n], attempts, true, gen);
      PassOverNext(libs, walk, attempts, true, gen, n);
      assert walk[..n + 1] == walk;
      forall i | 0 <= i < |walk| ensures StampOf(PassOver(libs, walk, attempts, true, gen), walk[i].id) == gen {
        if i < n {
          assert walk[..n][i] == walk[i];
        }
        if Made(libs, walk, attempts, true, gen, n) {
          StampAfter(before, walk[n], attempts[n], walk[i].id);
        }
      }
    }
  }

  /** A successful walk stamps its own library and leaves the others. */
  lemma StampAfter(libs: map<string, LibWalk>, l: Library, a: Attempt, id: string)
    requires a.result.Figures?
    ensures StampOf(LibsAfter(libs, l, a), id) == if id == l.id then Stamp(a.gen0, a.gen1) else StampOf(libs, id)
  {
  }

  /** A stamp is never made up: after a pass a library's stamp is the one it had, or a
      generation that one of its attempts saw at both ends. */
  lemma {:induction false} StampsComeFromBothEnds(
      libs: map<string, LibWalk>, walk: seq<Library>, attempts: seq<Attempt>, staleOnly: bool, gen: nat, id: string)
    requires |walk| <= |attempts|
    ensures var stamp := StampOf(PassOver(libs, walk, attempts, staleOnly, gen), id);
            stamp == 0 || stamp == StampOf(libs, id)
            || exists i :: 0 <= i < |walk| && walk[i].id == id && attempts[i].gen0 == stamp && attempts[i].gen1 == stamp
                        && attempts[i].result.Figures?
  {
    if walk != [] {
      var n := |walk| - 1;
      StampsComeFromBothEnds(libs, walk[..n], attempts, staleOnly, gen, id);
      var stamp := StampOf(PassOver(libs, walk[..n], attempts, staleOnly, gen), id);
      if stamp != 0 && stamp != StampOf(libs, id) {
        var i :| 0 <= i < n && walk[..n][i].id == id && attempts[i].gen0 == stamp && attempts[i].gen1 == stamp
              && attempts[i].result.Figures?;
        assert walk[i].id == id;
      }
    }
  }
}
