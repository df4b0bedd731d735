/** The session poll (internal/server/server.go): one read of the playing sessions, fed to the
    tracker call by call. The tracker's prune and the scrape may fall between any two calls,
    so a poll is also given as the sequence of tracker events it makes. */
module SessionPoll {
  import opened Ints
  import opened Tracking

  datatype Section = Section(id: string, name: string, kind: string)

  /** ParseState; a session without a player has no state. */
  function ParseState(player: Option<string>): PlayState {
    match player
    case None => OtherState
    case Some(raw) =>
      if raw == "playing" then Playing
      else if raw == "stopped" then Stopped
      else if raw == "paused" then Paused
      else OtherState
  }

  /** An active session the poll works on. */
  datatype Work = Work(sess: Item, state: PlayState)

  predicate Usable(isNumber: string -> bool, it: Item) {
    it.sessionKey != "" && isNumber(it.ratingKey)
  }

  function WorkOf(isNumber: string -> bool, active: seq<Item>): seq<Work> {
    if active == [] then []
    else
      var before := WorkOf(isNumber, active[..|active| - 1]);
      var it := active[|active| - 1];
      if Usable(isNumber, it) then before + [Work(it, ParseState(it.player))] else before
  }

  /** The session keys a poll lists, unusable rating keys included. */
  function PresentKeys(active: seq<Item>): seq<string> {
    if active == [] then []
    else
      var before := PresentKeys(active[..|active| - 1]);
      var it := active[|active| - 1];
      if it.sessionKey != "" then before + [it.sessionKey] else before
  }

  /** What a poll works on: every listed session with a key and a numeric rating key, and no
      other, in the state its player reports. */
  lemma {:induction false} WorkMeans(isNumber: string -> bool, active: seq<Item>)
    ensures forall it :: (exists w :: w in WorkOf(isNumber, active) && w.sess == it)
                    <==> it in active && it.sessionKey != "" && isNumber(it.ratingKey)
    ensures forall w | w in WorkOf(isNumber, active) ::
              && (w.state == Playing <==> w.sess.player == Some("playing"))
              && (w.state == Stopped <==> w.sess.player == Some("stopped"))
              && (w.state == Paused <==> w.sess.player == Some("paused"))
              && w.state != Unset
  {
    if active != [] {
      var n := |active| - 1;
      WorkMeans(isNumber, active[..n]);
      assert active == active[..n] + [active[n]];
      var before, work := WorkOf(isNumber, active[..n]), WorkOf(isNumber, active);
      var more := if Usable(isNumber, active[n]) then [Work(active[n], ParseState(active[n].player))] else [];
      assert work == before + more;
      assert forall w :: w in work <==> w in before || w in more;
      assert Usable(isNumber, active[n]) ==> Work(active[n], ParseState(active[n].player)) in more;
    }
  }

  /** The keys of a poll's sessions, whatever their rating keys. */
  lemma {:induction false} PresentMeans(active: seq<Item>)
    ensures forall k :: k in PresentKeys(active) <==> k != "" && exists it :: it in active && it.sessionKey == k
  {
    if active != [] {
      var n := |active| - 1;
      PresentMeans(active[..n]);
      assert active == active[..n] + [active[n]];
      var more := if active[n].sessionKey != "" then [active[n].sessionKey] else [];
      assert PresentKeys(active) == PresentKeys(active[..n]) + more;
    }
  }

  // ---- library labels ----

  function FirstSection(libs: seq<Section>, id: string): Option<Section> {
    if libs == [] then None else if libs[0].id == id then Some(libs[0]) else FirstSection(libs[1..], id)
  }

  /** The section found is listed under the id, and none is before it. */
  lemma {:induction false} FirstSectionMeans(libs: seq<Section>, id: string)
    ensures match FirstSection(libs, id)
            case None => forall l | l in libs :: l.id != id
            case Some(found) => exists i :: 0 <= i < |libs| && libs[i] == found && found.id == id && forall j | 0 <= j < i :: libs[j].id != id
  {
    if libs != [] && libs[0].id != id {
      FirstSectionMeans(libs[1..], id);
      if FirstSection(libs[1..], id).Some? {
        var i :| 0 <= i < |libs[1..]| && libs[1..][i] == FirstSection(libs[1..], id).value && libs[1..][i].id == id
              && forall j | 0 <= j < i :: libs[1..][j].id != id;
        assert libs[i + 1] == libs[1..][i];
        assert forall j | 0 <= j < i + 1 :: libs[j] == if j == 0 then libs[0] else libs[1..][j - 1];
      }
    }
  }

  method FindSection(libs: seq<Section>, id: string) returns (found: Option<Section>)
    ensures found == FirstSection(libs, id)
  {
    for i := 0 to |libs|
      invariant FirstSection(libs, id) == FirstSection(libs[i..], id)
    {
      if libs[i].id == id {
        return Some(libs[i]);
      }
      assert libs[i..][1..] == libs[i + 1..];
    }
    return None;
  }

  /** fillSessionLibrary: names the library unless one is named already. */
  function Filled(s: Session, section: Option<Section>): Session {
    if s.library.name != "" || section.None? then s
    else s.(library := LibraryLabels(section.value.name, section.value.id, section.value.kind))
  }

  /** classifyTranscode: without a transcode the labels stay and the video flag is dropped. */
  function Classified(s: Session, t: Option<Transcode>): Session {
    match t
    case None => s.(pipeline := s.pipeline.(video := false))
    case Some(t) =>
      s.(pipeline := Pipeline(t.kind, t.subtitle, t.video, t.decode, t.encode, t.sourceCodec, t.targetCodec))
  }

  function Filling(section: Option<Section>): Session -> Session {
    s => Filled(s, section)
  }

  function Classifying(t: Option<Transcode>): Session -> Session {
    s => Classified(s, t)
  }

  // ---- the events of a poll ----

  /** applySessionUpdate */
  function ApplyEvents(normalize: string -> string, w: Work, media: Option<Item>, libs: seq<Section>, at: int, stamp: int): seq<Event> {
    var key := normalize(w.sess.sessionKey);
    [Update(key, w.state, Some(w.sess), media, at, stamp)]
    + (if media.Some? then [Label(key, Filling(FirstSection(libs, media.value.sectionId)))] else [])
    + [Label(key, Classifying(w.sess.transcode))]
  }

  /** The updates of the first n pieces of work; clock gives the readings in order. */
  function WorkEvents(normalize: string -> string, work: seq<Work>, results: seq<Option<Item>>, libs: seq<Section>,
                      clock: nat -> int, n: nat): seq<Event>
    requires n <= |work| == |results|
  {
    if n == 0 then []
    else WorkEvents(normalize, work, results, libs, clock, n - 1)
         + ApplyEvents(normalize, work[n - 1], results[n - 1], libs, clock(2 * n - 1), clock(2 * n))
  }

  function PollEvents(normalize: string -> string, active: seq<Item>, work: seq<Work>, results: seq<Option<Item>>,
                      libs: seq<Section>, clock: nat -> int): seq<Event>
    requires |work| == |results|
  {
    [MarkAbsent(set k | k in PresentKeys(active) :: normalize(k), clock(0))]
    + WorkEvents(normalize, work, results, libs, clock, |work|)
  }

  // ---- the metadata cache ----

  /** What has been fetched: which item for which rating key. */
  type Fetched = iset<(string, Item)>

  /** Metadata enters the tracker only together with the session whose rating key it was
      fetched for, and labels leave it alone. */
  ghost predicate FetchedFor(fetched: Fetched, e: Event) {
    match e
    case Update(_, _, meta, media, _, _) => media.Some? ==> meta.Some? && (meta.value.ratingKey, media.value) in fetched
    case Label(_, f) => KeepsMedia(f)
    case _ => true
  }

  ghost predicate KeepsMedia(f: Session -> Session) {
    forall s: Session :: f(s).mediaKey == s.mediaKey && f(s).mediaMeta == s.mediaMeta && (s.library.name != "" ==> f(s).library == s.library)
  }

  ghost predicate CacheSound(fetched: Fetched, m: Sessions) {
    forall k | k in m && m[k].mediaKey != "" :: (m[k].mediaKey, m[k].mediaMeta) in fetched
  }

  lemma NextSound(fetched: Fetched, m: Sessions, e: Event)
    requires CacheSound(fetched, m) && FetchedFor(fetched, e)
    ensures CacheSound(fetched, Next(m, e))
  {
  }

  /** Over every run of polls, prunes and scrapes, through failed fetches, changes of rating
      key and session keys that normalise alike: a session answered as resolved for a rating
      key holds the item fetched for exactly that rating key. */
  lemma {:induction false} ResolvedHoldsItsItem(fetched: Fetched, events: seq<Event>, key: string, ratingKey: string)
    requires forall e | e in events :: FetchedFor(fetched, e)
    ensures CacheSound(fetched, Run(map[], events))
    ensures Resolved(Run(map[], events), key, ratingKey) ==> (ratingKey, Run(map[], events)[key].mediaMeta) in fetched
  {
    hide Next, FetchedFor;
    if events != [] {
      var before := events[..|events| - 1];
      assert forall e | e in before :: e in events;
      ResolvedHoldsItsItem(fetched, before, key, ratingKey);
      assert events[|events| - 1] in events;
      NextSound(fetched, Run(map[], before), events[|events| - 1]);
    }
  }

  /** The event leaves a session resolved for a rating key: it removes nothing, and an update
      of the session carries no metadata, or metadata of the same rating key. */
  ghost predicate LeavesResolved(m: Sessions, e: Event, key: string, ratingKey: string) {
    match e
    case Update(k, _, meta, media, _, _) => k == key && media.Some? ==> meta.Some? && meta.value.ratingKey == ratingKey
    case Label(_, f) => KeepsMedia(f)
    case Sweep(reading, _, _) => key in m ==> !Expired(m[key], reading(key))
    case _ => true
  }

  lemma StaysResolved(m: Sessions, e: Event, key: string, ratingKey: string)
    requires Resolved(m, key, ratingKey) && LeavesResolved(m, e, key, ratingKey)
    ensures Resolved(Next(m, e), key, ratingKey)
  {
  }

  /** Over a run that leaves it so a session stays resolved, and so is not fetched again. */
  lemma {:induction false} StaysResolvedOverRun(m: Sessions, events: seq<Event>, key: string, ratingKey: string)
    requires Resolved(m, key, ratingKey)
    requires forall i | 0 <= i < |events| :: LeavesResolved(Run(m, events[..i]), events[i], key, ratingKey)
    ensures Resolved(Run(m, events), key, ratingKey)
  {
    hide Next, LeavesResolved, Resolved;
    if events != [] {
      var n := |events| - 1;
      forall i | 0 <= i < n ensures LeavesResolved(Run(m, events[..n][..i]), events[..n][i], key, ratingKey) {
        assert events[..n][..i] == events[..i];
      }
      StaysResolvedOverRun(m, events[..n], key, ratingKey);
      StaysResolved(Run(m, events[..n]), events[n], key, ratingKey);
    }
  }

  /** The event brings a session metadata of a rating key. */
  predicate Brings(e: Event, key: string, ratingKey: string, item: Item) {
    e.Update? && e.key == key && e.media == Some(item) && e.meta.Some? && e.meta.value.ratingKey == ratingKey
  }

  /** The metadata a session holds was brought by one of the events. */
  predicate Brought(m: Sessions, events: seq<Event>, key: string) {
    key in m && m[key].mediaKey != "" ==>
      exists i :: 0 <= i < |events| && Brings(events[i], key, m[key].mediaKey, m[key].mediaMeta)
  }

  /** The event does not touch metadata, or brings it with the session it is of. */
  ghost predicate KeepsPairs(e: Event) {
    match e
    case Update(_, _, meta, media, _, _) => media.Some? ==> meta.Some?
    case Label(_, f) => KeepsMedia(f)
    case _ => true
  }

  lemma NextBrought(m: Sessions, events: seq<Event>, e: Event, key: string)
    requires Brought(m, events, key) && KeepsPairs(e)
    ensures Brought(Next(m, e), events + [e], key)
  {
    var all := events + [e];
    var u := Next(m, e);
    if key in u && u[key].mediaKey != "" {
      if e.Update? && e.key == key && e.media.Some? && !Refused(m, key) {
        assert Brings(all[|events|], key, u[key].mediaKey, u[key].mediaMeta);
      } else {
        var i :| 0 <= i < |events| && Brings(events[i], key, m[key].mediaKey, m[key].mediaMeta);
        assert Brings(all[i], key, u[key].mediaKey, u[key].mediaMeta);
      }
    }
  }

  /** Nothing but a fetch resolves: a session resolved for a rating key holds the item that
      one of its updates brought together with that very rating key. */
  lemma {:induction false} OnlyFetchesResolve(events: seq<Event>, key: string, ratingKey: string)
    requires forall e | e in events :: KeepsPairs(e)
    ensures Brought(Run(map[], events), events, key)
    ensures Resolved(Run(map[], events), key, ratingKey) ==>
              exists i :: 0 <= i < |events| && Brings(events[i], key, ratingKey, Run(map[], events)[key].mediaMeta)
  {
    hide Next, KeepsPairs, Brings;
    if events != [] {
      var n := |events| - 1;
      assert forall e | e in events[..n] :: e in events;
      OnlyFetchesResolve(events[..n], key, ratingKey);
      assert events[n] in events && events[..n] + [events[n]] == events;
      NextBrought(Run(map[], events[..n]), events[..n], events[n], key);
    }
  }

  lemma LabelsAreHarmless(w: Work, section: Option<Section>)
    ensures LabelsOnly(Filling(section)) && KeepsMedia(Filling(section))
    ensures LabelsOnly(Classifying(w.sess.transcode)) && KeepsMedia(Classifying(w.sess.transcode))
    ensures forall s: Session :: Classifying(w.sess.transcode)(s).library == s.library
  {
  }

  // ---- what the events of a poll are ----

  ghost predicate Increasing(clock: nat -> int) {
    forall i: nat, j: nat | i <= j :: clock(i) <= clock(j)
  }

  /** Every result was fetched for its session's rating key. */
  ghost predicate ResultsFetched(fetched: Fetched, work: seq<Work>, results: seq<Option<Item>>) {
    |work| == |results|
    && forall i | 0 <= i < |work| && results[i].Some? :: (work[i].sess.ratingKey, results[i].value) in fetched
  }

  /** Everything the metadata requests of a poll may answer. */
  ghost function Answers(fetch: (nat, string) -> Option<Item>): Fetched {
    iset i: nat, ratingKey: string | fetch(i, ratingKey).Some? :: (ratingKey, fetch(i, ratingKey).value)
  }

  lemma {:induction false} WorkEventsFetched(fetched: Fetched, normalize: string -> string, work: seq<Work>, results: seq<Option<Item>>,
                            libs: seq<Section>, clock: nat -> int, n: nat)
    requires n <= |work| == |results| && ResultsFetched(fetched, work, results)
    ensures forall e | e in WorkEvents(normalize, work, results, libs, clock, n) :: FetchedFor(fetched, e)
  {
    hide KeepsMedia;
    if n != 0 {
      WorkEventsFetched(fetched, normalize, work, results, libs, clock, n - 1);
      var w, media := work[n - 1], results[n - 1];
      LabelsAreHarmless(w, if media.Some? then FirstSection(libs, media.value.sectionId) else None);
      forall e | e in ApplyEvents(normalize, w, media, libs, clock(2 * n - 1), clock(2 * n)) ensures FetchedFor(fetched, e) {
      }
    }
  }

  /** A poll feeds the cache only with what it fetched. */
  lemma PollEventsFetched(fetched: Fetched, normalize: string -> string, active: seq<Item>, work: seq<Work>,
                          results: seq<Option<Item>>, libs: seq<Section>, clock: nat -> int)
    requires ResultsFetched(fetched, work, results)
    ensures forall e | e in PollEvents(normalize, active, work, results, libs, clock) :: FetchedFor(fetched, e)
  {
    hide FetchedFor;
    WorkEventsFetched(fetched, normalize, work, results, libs, clock, |work|);
    var first := MarkAbsent(set k | k in PresentKeys(active) :: normalize(k), clock(0));
    assert FetchedFor(fetched, first) by { MarkFetchesNothing(fetched, first); }
  }

  lemma MarkFetchesNothing(fetched: Fetched, e: Event)
    requires e.MarkAbsent?
    ensures FetchedFor(fetched, e)
  {
  }

  lemma ClockedSnoc(start: int, events: seq<Event>, e: Event)
    requires Clocked(start, events) && Timed(Clock(start, events), e)
    ensures Clocked(start, events + [e]) && Clock(start, events + [e]) == ClockAfter(Clock(start, events), e)
  {
    hide Timed;
    var all := events + [e];
    assert all[..|events|] == events;
    forall i | 0 <= i < |all| ensures Timed(Clock(start, all[..i]), all[i]) {
      if i < |events| {
        assert all[..i] == events[..i];
      }
    }
  }

  lemma ApplyClocked(start: int, events: seq<Event>, normalize: string -> string, w: Work, media: Option<Item>, libs: seq<Section>,
                     at: int, stamp: int)
    requires Clocked(start, events) && Clock(start, events) <= at <= stamp
    ensures var all := events + ApplyEvents(normalize, w, media, libs, at, stamp);
            Clocked(start, all) && Clock(start, all) == stamp
  {
    hide Clock, Clocked, LabelsOnly, FirstSection, Filling, Classifying;
    var key := normalize(w.sess.sessionKey);
    var section := if media.Some? then FirstSection(libs, media.value.sectionId) else None;
    LabelsAreHarmless(w, section);
    var first := events + [Update(key, w.state, Some(w.sess), media, at, stamp)];
    ClockedSnoc(start, events, Update(key, w.state, Some(w.sess), media, at, stamp));
    var second := if media.Some? then first + [Label(key, Filling(section))] else first;
    if media.Some? {
      ClockedSnoc(start, first, Label(key, Filling(section)));
    }
    ClockedSnoc(start, second, Label(key, Classifying(w.sess.transcode)));
    assert events + ApplyEvents(normalize, w, media, libs, at, stamp) == second + [Label(key, Classifying(w.sess.transcode))];
  }

  lemma {:induction false} WorkClocked(normalize: string -> string, first: Event, work: seq<Work>, results: seq<Option<Item>>,
                                       libs: seq<Section>, clock: nat -> int, n: nat)
    requires n <= |work| == |results| && Increasing(clock) && first.MarkAbsent? && first.now == clock(0)
    ensures var all := [first] + WorkEvents(normalize, work, results, libs, clock, n);
            Clocked(clock(0), all) && Clock(clock(0), all) == clock(2 * n)
  {
    hide Clocked, ApplyEvents;
    if n == 0 {
      assert Clocked(clock(0), []) by { NothingClocked(clock(0)); }
      ClockedSnoc(clock(0), [], first);
      assert [] + [first] == [first] + WorkEvents(normalize, work, results, libs, clock, 0);
    } else {
      WorkClocked(normalize, first, work, results, libs, clock, n - 1);
      var before := [first] + WorkEvents(normalize, work, results, libs, clock, n - 1);
      assert clock(2 * n - 2) <= clock(2 * n - 1) <= clock(2 * n);
      ApplyClocked(clock(0), before, normalize, work[n - 1], results[n - 1], libs, clock(2 * n - 1), clock(2 * n));
      assert [first] + WorkEvents(normalize, work, results, libs, clock, n)
          == before + ApplyEvents(normalize, work[n - 1], results[n - 1], libs, clock(2 * n - 1), clock(2 * n));
    }
  }

  lemma NothingClocked(start: int)
    ensures Clocked(start, [])
  {
  }

  /** A poll reads the clock in order, so what holds of clocked runs holds of polls. */
  lemma PollIsClocked(normalize: string -> string, active: seq<Item>, work: seq<Work>, results: seq<Option<Item>>,
                      libs: seq<Section>, clock: nat -> int)
    requires |work| == |results| && Increasing(clock)
    ensures Clocked(clock(0), PollEvents(normalize, active, work, results, libs, clock))
  {
    hide Clocked;
    WorkClocked(normalize, MarkAbsent(set k | k in PresentKeys(active) :: normalize(k), clock(0)), work, results, libs, clock, |work|);
  }

  lemma {:induction false} RunConcat(m: Sessions, a: seq<Event>, b: seq<Event>)
    ensures Run(m, a + b) == Run(Run(m, a), b)
    decreases |b|
  {
    hide Next;
    if b == [] {
      assert a + b == a;
    } else {
      RunConcat(m, a, b[..|b| - 1]);
      assert (a + b)[..|a + b| - 1] == a + b[..|b| - 1];
    }
  }

  lemma RunTwo(m: Sessions, e: Event, f: Event)
    ensures Run(m, [e]) == Next(m, e) && Run(m, [e, f]) == Next(Next(m, e), f)
  {
    assert [e, f][..1] == [e] && [e][..0] == [];
  }

  lemma ApplyRun(m: Sessions, normalize: string -> string, w: Work, media: Option<Item>, libs: seq<Section>, at: int, stamp: int)
    ensures var key := normalize(w.sess.sessionKey);
            var up := Updated(m, key, w.state, Some(w.sess), media, at, stamp);
            var named := if media.Some? then Labelled(up, key, Filling(FirstSection(libs, media.value.sectionId))) else up;
            Run(m, ApplyEvents(normalize, w, media, libs, at, stamp)) == Labelled(named, key, Classifying(w.sess.transcode))
  {
    hide Updated, Labelled, FirstSection, Run;
    var key := normalize(w.sess.sessionKey);
    var update := Update(key, w.state, Some(w.sess), media, at, stamp);
    var classify := Label(key, Classifying(w.sess.transcode));
    RunTwo(m, update, classify);
    if media.Some? {
      var fill := Label(key, Filling(FirstSection(libs, media.value.sectionId)));
      RunTwo(m, update, fill);
      RunConcat(m, [update, fill], [classify]);
      RunTwo(Run(m, [update, fill]), classify, classify);
      assert ApplyEvents(normalize, w, media, libs, at, stamp) == [update, fill] + [classify];
    } else {
      assert ApplyEvents(normalize, w, media, libs, at, stamp) == [update, classify];
    }
  }

  // ---- one poll ----

  class Poller {
    const tracker: Tracker
    const isNumber: string -> bool
    var libraries: seq<Section>
    var reachable: bool
    var invalidKeys: nat

    constructor (tracker: Tracker, isNumber: string -> bool)
      ensures this.tracker == tracker && this.isNumber == isNumber && libraries == [] && !reachable && invalidKeys == 0
    {
      this.tracker, this.isNumber := tracker, isNumber;
      libraries, reachable, invalidKeys := [], false, 0;
    }

    /** buildSessionWork: drops sessions without a key, and counts those dropped because their
        rating key is not a number. */
    method BuildSessionWork(active: seq<Item>) returns (work: seq<Work>)
      modifies this`invalidKeys
      ensures work == WorkOf(isNumber, active)
      ensures invalidKeys == old(invalidKeys) + |PresentKeys(active)| - |work|
    {
      work := [];
      for i := 0 to |active|
        invariant work == WorkOf(isNumber, active[..i])
        invariant invalidKeys == old(invalidKeys) + |PresentKeys(active[..i])| - |work|
      {
        assert active[..i + 1][..i] == active[..i];
        if active[i].sessionKey == "" {
          continue;
        }
        if !isNumber(active[i].ratingKey) {
          invalidKeys := invalidKeys + 1;
          continue;
        }
        work := work + [Work(active[i], ParseState(active[i].player))];
      }
      assert active[..|active|] == active;
    }

    /** fetchSessionMedia: fetches what the tracker does not hold yet; a failed fetch leaves
        its place empty. */
    method FetchSessionMedia(work: seq<Work>, fetch: (nat, string) -> Option<Item>) returns (results: seq<Option<Item>>)
      ensures |results| == |work|
      ensures forall i | 0 <= i < |work| :: results[i] ==
                if Resolved(tracker.sessions, tracker.normalize(work[i].sess.sessionKey), work[i].sess.ratingKey) then None
                else fetch(i, work[i].sess.ratingKey)
    {
      results := [];
      for i := 0 to |work|
        invariant |results| == i
        invariant forall j | 0 <= j < i :: results[j] == (
                    if Resolved(tracker.sessions, tracker.normalize(work[j].sess.sessionKey), work[j].sess.ratingKey) then None
                    else fetch(j, work[j].sess.ratingKey))
      {
        var resolved := tracker.MediaResolved(work[i].sess.sessionKey, work[i].sess.ratingKey);
        var result: Option<Item> := None;
        if !resolved {
          result := fetch(i, work[i].sess.ratingKey);
        }
        results := results + [result];
      }
    }

    /** applySessionUpdate */
    method ApplySessionUpdate(w: Work, media: Option<Item>, libs: seq<Section>, at: int, stamp: int)
      requires WellStarted(tracker.sessions)
      modifies tracker
      ensures tracker.sessions == Run(old(tracker.sessions), ApplyEvents(tracker.normalize, w, media, libs, at, stamp))
      ensures WellStarted(tracker.sessions)
    {
      hide Updated, Run, ApplyEvents;
      ApplyRun(tracker.sessions, tracker.normalize, w, media, libs, at, stamp);
      tracker.Update(w.sess.sessionKey, w.state, Some(w.sess), media, at, stamp);
      if media.Some? {
        var section := FindSection(libs, media.value.sectionId);
        tracker.UpdateLibraryLabels(w.sess.sessionKey, Filling(section));
      }
      tracker.UpdateLibraryLabels(w.sess.sessionKey, Classifying(w.sess.transcode));
    }

    /** refreshSessions: a failed read only says so; otherwise sessions not listed stop, and
        every usable one is updated with what was fetched for it. */
    method RefreshSessions(active: Option<seq<Item>>, fetch: (nat, string) -> Option<Item>, clock: nat -> int)
      returns (results: seq<Option<Item>>)
      requires WellStarted(tracker.sessions)
      modifies this`reachable, this`invalidKeys, tracker
      ensures WellStarted(tracker.sessions) && reachable == active.Some?
      ensures active.None? ==> tracker.sessions == old(tracker.sessions)
      ensures active.Some? ==>
                var work := WorkOf(isNumber, active.value);
                && |results| == |work|
                && (forall i | 0 <= i < |work| :: results[i] ==
                      if Resolved(old(tracker.sessions), tracker.normalize(work[i].sess.sessionKey), work[i].sess.ratingKey)
                      then None else fetch(i, work[i].sess.ratingKey))
                && ResultsFetched(Answers(fetch), work, results)
                && tracker.sessions
                   == Run(old(tracker.sessions), PollEvents(tracker.normalize, active.value, work, results, libraries, clock))
    {
      hide Run, MarkedAbsent, WorkEvents, WorkOf, PresentKeys, Resolved, Increasing;
      results := [];
      if active.None? {
        reachable := false;
        return;
      }
      reachable := true;
      ghost var start := tracker.sessions;
      var present := Listed(active.value);
      tracker.MarkAbsentStopped(present, clock(0));
      ghost var first := MarkAbsent(set k | k in present :: tracker.normalize(k), clock(0));
      AbsentRun(start, first);
      var work := BuildSessionWork(active.value);
      results := FetchSessionMedia(work, fetch);
      ApplyWork(work, results, libraries, clock);
      RunConcat(start, [first], WorkEvents(tracker.normalize, work, results, libraries, clock, |work|));
    }

    /** The loop of refreshSessions: every piece of work in order. */
    method ApplyWork(work: seq<Work>, results: seq<Option<Item>>, libs: seq<Section>, clock: nat -> int)
      requires WellStarted(tracker.sessions) && |work| == |results|
      modifies tracker
      ensures WellStarted(tracker.sessions)
      ensures tracker.sessions == Run(old(tracker.sessions), WorkEvents(tracker.normalize, work, results, libs, clock, |work|))
    {
      hide Run, ApplyEvents;
      ghost var start := tracker.sessions;
      assert Run(start, []) == start by { RunNothing(start); }
      for n := 0 to |work|
        invariant WellStarted(tracker.sessions)
        invariant tracker.sessions == Run(start, WorkEvents(tracker.normalize, work, results, libs, clock, n))
      {
        RunConcat(start, WorkEvents(tracker.normalize, work, results, libs, clock, n),
                  ApplyEvents(tracker.normalize, work[n], results[n], libs, clock(2 * n + 1), clock(2 * n + 2)));
        ApplySessionUpdate(work[n], results[n], libs, clock(2 * n + 1), clock(2 * n + 2));
      }
    }

    method Listed(active: seq<Item>) returns (present: seq<string>)
      ensures present == PresentKeys(active)
    {
      present := [];
      for i := 0 to |active|
        invariant present == PresentKeys(active[..i])
      {
        assert active[..i + 1][..i] == active[..i];
        if active[i].sessionKey != "" {
          present := present + [active[i].sessionKey];
        }
      }
      assert active[..|active|] == active;
    }
  }

  lemma AbsentRun(m: Sessions, e: Event)
    requires e.MarkAbsent?
    ensures Run(m, [e]) == MarkedAbsent(m, e.present, e.now)
    ensures forall key, ratingKey :: Resolved(MarkedAbsent(m, e.present, e.now), key, ratingKey) <==> Resolved(m, key, ratingKey)
  {
    RunTwo(m, e, e);
  }

  lemma RunNothing(m: Sessions)
    ensures Run(m, []) == m
  {
  }

  // ---- what one poll achieves ----

  /** The metadata of a session fetched in a poll is what the tracker then holds, and the
      session needs no further fetch, once its library is listed by a name. */
  lemma FetchedIsResolved(m: Sessions, normalize: string -> string, w: Work, media: Item, libs: seq<Section>, at: int, stamp: int)
    requires !Refused(m, normalize(w.sess.sessionKey)) && w.sess.ratingKey != ""
    ensures var key := normalize(w.sess.sessionKey);
            var after := Run(m, ApplyEvents(normalize, w, Some(media), libs, at, stamp));
            && key in after && after[key].mediaMeta == media && after[key].mediaKey == w.sess.ratingKey
            && after[key].state == w.state && after[key].meta == w.sess
            && (Resolved(after, key, w.sess.ratingKey) <==>
                  EntryOf(m, key).library.name != ""
                  || (FirstSection(libs, media.sectionId).Some? && FirstSection(libs, media.sectionId).value.name != ""))
  {
    hide Run, ApplyEvents, FirstSection;
    ApplyRun(m, normalize, w, Some(media), libs, at, stamp);
  }

  /** How a session is shown as transcoded after an update of it: as the poll found it, or, when
      it found no transcode, as before but without video. */
  lemma TranscodeIsShown(m: Sessions, normalize: string -> string, w: Work, media: Option<Item>, libs: seq<Section>, at: int, stamp: int)
    requires !Refused(m, normalize(w.sess.sessionKey))
    ensures var key := normalize(w.sess.sessionKey);
            var after := Run(m, ApplyEvents(normalize, w, media, libs, at, stamp));
            && key in after
            && var shown, before := after[key].pipeline, EntryOf(m, key).pipeline;
            match w.sess.transcode
            case None =>
              && !shown.video && shown.kind == before.kind && shown.subtitle == before.subtitle
              && shown.decode == before.decode && shown.encode == before.encode
              && shown.sourceCodec == before.sourceCodec && shown.targetCodec == before.targetCodec
            case Some(t) =>
              && shown.video == t.video && shown.kind == t.kind && shown.subtitle == t.subtitle
              && shown.decode == t.decode && shown.encode == t.encode
              && shown.sourceCodec == t.sourceCodec && shown.targetCodec == t.targetCodec
  {
    hide Run, ApplyEvents, FirstSection;
    ApplyRun(m, normalize, w, media, libs, at, stamp);
  }

  /** The library labels are those of the first item whose library was found: after a session
      moves to an item of another library they name that item's library exactly when they
      already did, or were still empty and it is listed by a name. */
  lemma LabelsFollowTheItemIff(m: Sessions, normalize: string -> string, w: Work, media: Item, libs: seq<Section>, at: int, stamp: int)
    requires !Refused(m, normalize(w.sess.sessionKey))
    requires FirstSection(libs, media.sectionId).Some?
    ensures var key := normalize(w.sess.sessionKey);
            var section := FirstSection(libs, media.sectionId).value;
            var labels := LibraryLabels(section.name, section.id, section.kind);
            var after := Run(m, ApplyEvents(normalize, w, Some(media), libs, at, stamp));
            key in after && (after[key].library == labels <==>
                               EntryOf(m, key).library.name == "" || EntryOf(m, key).library == labels)
  {
    hide Run, ApplyEvents, FirstSection;
    ApplyRun(m, normalize, w, Some(media), libs, at, stamp);
  }

  /** So a resolved session can carry the labels of another library than its item's: it is
      first seen with a film, and goes on with an episode. */
  lemma LabelsCanNameAnotherLibrary() returns (libs: seq<Section>, first: Work, film: Item, w: Work, media: Item)
    ensures var apply := (m: Sessions, w: Work, it: Item) => Run(m, ApplyEvents(k => k, w, Some(it), libs, 0, 0));
            var after := apply(apply(map[], first, film), w, media);
            && first.sess.sessionKey == w.sess.sessionKey && first.sess.ratingKey != w.sess.ratingKey
            && Resolved(after, w.sess.sessionKey, w.sess.ratingKey)
            && after[w.sess.sessionKey].mediaMeta == media
            && media.sectionId == "2" && after[w.sess.sessionKey].library.id == "1"
  {
    hide Run, ApplyEvents;
    libs := [Section("1", "Films", "movie"), Section("2", "Shows", "show")];
    first := Work(NO_ITEM.(sessionKey := "s", ratingKey := "6"), Playing);
    film := NO_ITEM.(ratingKey := "6", sectionId := "1");
    w := Work(NO_ITEM.(sessionKey := "s", ratingKey := "7"), Playing);
    media := NO_ITEM.(ratingKey := "7", sectionId := "2");
    ApplyRun(map[], k => k, first, Some(film), libs, 0, 0);
    ApplyRun(Run(map[], ApplyEvents(k => k, first, Some(film), libs, 0, 0)), k => k, w, Some(media), libs, 0, 0);
  }

  // ---- what a whole poll leaves ----

  /** An update of another session leaves this one as it was. */
  lemma ApplyLeaves(m: Sessions, normalize: string -> string, w: Work, media: Option<Item>, libs: seq<Section>, at: int, stamp: int, k: string)
    requires k != normalize(w.sess.sessionKey)
    ensures var after := Run(m, ApplyEvents(normalize, w, media, libs, at, stamp));
            (k in after <==> k in m) && (k in m ==> after[k] == m[k])
  {
    hide Run, ApplyEvents, FirstSection, Transition, WithItems;
    ApplyRun(m, normalize, w, media, libs, at, stamp);
  }

  lemma ApplySets(m: Sessions, normalize: string -> string, w: Work, media: Option<Item>, libs: seq<Section>, at: int, stamp: int)
    ensures var key := normalize(w.sess.sessionKey);
            var after := Run(m, ApplyEvents(normalize, w, media, libs, at, stamp));
            (key in after <==> key in m || |m| < 256)
            && (key in after ==> after[key].state == w.state && after[key].meta == w.sess && after[key].lastUpdate == stamp)
  {
    hide Run, ApplyEvents, FirstSection;
    ApplyRun(m, normalize, w, media, libs, at, stamp);
  }

  lemma {:induction false} WorkLeaves(m: Sessions, normalize: string -> string, work: seq<Work>, results: seq<Option<Item>>, libs: seq<Section>,
                                      clock: nat -> int, n: nat, k: string)
    requires n <= |work| == |results| && forall i | 0 <= i < n :: normalize(work[i].sess.sessionKey) != k
    ensures var after := Run(m, WorkEvents(normalize, work, results, libs, clock, n));
            (k in after <==> k in m) && (k in m ==> after[k] == m[k])
  {
    hide Run, ApplyEvents;
    if n == 0 {
      RunNothing(m);
    } else {
      WorkLeaves(m, normalize, work, results, libs, clock, n - 1, k);
      var before := WorkEvents(normalize, work, results, libs, clock, n - 1);
      RunConcat(m, before, ApplyEvents(normalize, work[n - 1], results[n - 1], libs, clock(2 * n - 1), clock(2 * n)));
      ApplyLeaves(Run(m, before), normalize, work[n - 1], results[n - 1], libs, clock(2 * n - 1), clock(2 * n), k);
    }
  }

  /** The last piece of work on a session settles its state. */
  lemma {:induction false} WorkSets(m: Sessions, normalize: string -> string, work: seq<Work>, results: seq<Option<Item>>, libs: seq<Section>,
                                    clock: nat -> int, n: nat, i: nat)
    requires i < n <= |work| == |results|
    requires forall j | i < j < n :: normalize(work[j].sess.sessionKey) != normalize(work[i].sess.sessionKey)
    ensures var key := normalize(work[i].sess.sessionKey);
            var after := Run(m, WorkEvents(normalize, work, results, libs, clock, n));
            key in after ==> after[key].state == work[i].state && after[key].meta == work[i].sess && after[key].lastUpdate == clock(2 * i + 2)
    decreases n
  {
    hide Run, ApplyEvents;
    var before := WorkEvents(normalize, work, results, libs, clock, n - 1);
    RunConcat(m, before, ApplyEvents(normalize, work[n - 1], results[n - 1], libs, clock(2 * n - 1), clock(2 * n)));
    if i == n - 1 {
      ApplySets(Run(m, before), normalize, work[i], results[i], libs, clock(2 * n - 1), clock(2 * n));
    } else {
      WorkSets(m, normalize, work, results, libs, clock, n - 1, i);
      ApplyLeaves(Run(m, before), normalize, work[n - 1], results[n - 1], libs, clock(2 * n - 1), clock(2 * n), normalize(work[i].sess.sessionKey));
    }
  }

  /** A poll as a whole: a tracked session it does not list is stopped when it ends, and one it
      works on, if tracked then, is in the state the poll last found it in. */
  lemma PollMeans(m: Sessions, normalize: string -> string, isNumber: string -> bool, active: seq<Item>, results: seq<Option<Item>>,
                  libs: seq<Section>, clock: nat -> int, k: string)
    requires |WorkOf(isNumber, active)| == |results|
    ensures var after := Run(m, PollEvents(normalize, active, WorkOf(isNumber, active), results, libs, clock));
            && (k in m && (forall it | it in active && it.sessionKey != "" :: normalize(it.sessionKey) != k) ==>
                  k in after && after[k].state == Stopped)
            && forall i: nat | i < |results| && normalize(WorkOf(isNumber, active)[i].sess.sessionKey) == k
                               && (forall j | i < j < |results| :: normalize(WorkOf(isNumber, active)[j].sess.sessionKey) != k) ::
                 k in after ==> after[k].state == WorkOf(isNumber, active)[i].state && after[k].meta == WorkOf(isNumber, active)[i].sess
  {
    hide Run, MarkedAbsent, WorkEvents, WorkOf, PresentKeys;
    var work := WorkOf(isNumber, active);
    var present := set p | p in PresentKeys(active) :: normalize(p);
    var first := MarkAbsent(present, clock(0));
    RunConcat(m, [first], WorkEvents(normalize, work, results, libs, clock, |work|));
    AbsentRun(m, first);
    ListedIsLeft(m, present, clock(0), k);
    PresentMeans(active);
    WorkMeans(isNumber, active);
    var marked := Run(m, [first]);
    if k in m && forall it | it in active && it.sessionKey != "" :: normalize(it.sessionKey) != k {
      forall i | 0 <= i < |work| ensures normalize(work[i].sess.sessionKey) != k {
        assert work[i] in work;
      }
      WorkLeaves(marked, normalize, work, results, libs, clock, |work|, k);
    }
    forall i: nat | i < |results| && normalize(work[i].sess.sessionKey) == k
                    && (forall j | i < j < |results| :: normalize(work[j].sess.sessionKey) != k)
      ensures k in Run(m, PollEvents(normalize, active, work, results, libs, clock)) ==>
                var after := Run(m, PollEvents(normalize, active, work, results, libs, clock));
                after[k].state == work[i].state && after[k].meta == work[i].sess
    {
      WorkSets(marked, normalize, work, results, libs, clock, |work|, i);
    }
  }
}
