/** The session tracker (internal/sessions/tracker.go): the map of playing sessions, its
    play-time accounting, its bounds and its pruning. Session keys are taken as already cut
    to their maximum length by normalize, an arbitrary function. Times are nanoseconds. */
module Tracking {
  import opened Ints
  import opened Sequences

  const SECOND: int := 1_000_000_000
  const SESSION_TIMEOUT: int := 60 * SECOND
  const STALE_TIMEOUT: int := 300 * SECOND
  const MAX_TRACKED: nat := 256

  /** Unset is the state of a session never updated. */
  datatype PlayState = Unset | Playing | Stopped | Paused | OtherState

  /** What Plex says of an item, as far as the poll reads it. */
  datatype Transcode = Transcode(kind: string, subtitle: string, decode: string, encode: string, video: bool,
                                 sourceCodec: string, targetCodec: string)

  datatype Item = Item(
    sessionKey: string,
    ratingKey: string,
    player: Option<string>,
    sectionId: string,
    transcode: Option<Transcode>,
    content: string
  )

  const NO_ITEM: Item := Item("", "", None, "", None, "")

  datatype Session = Session(
    playStarted: Option<int>,
    lastUpdate: int,
    prevPlayed: int,
    state: PlayState,
    meta: Item,
    mediaMeta: Item,
    mediaKey: string,
    library: LibraryLabels,
    pipeline: Pipeline
  )

  /** The library a session plays from; the name is empty until one is found. */
  datatype LibraryLabels = LibraryLabels(name: string, id: string, kind: string)

  /** How a session is transcoded; the codecs and ends are set while video is. */
  datatype Pipeline = Pipeline(kind: string, subtitle: string, video: bool, decode: string, encode: string,
                               sourceCodec: string, targetCodec: string)

  const NEW_SESSION: Session :=
    Session(None, 0, 0, Unset, NO_ITEM, NO_ITEM, "", LibraryLabels("", "", ""), Pipeline("", "", false, "", "", "", ""))

  type Sessions = map<string, Session>

  function EntryOf(m: Sessions, key: string): Session {
    if key in m then m[key] else NEW_SESSION
  }

  /** bankPlayTime */
  function Banked(s: Session, now: int): Session {
    if s.playStarted.Some? then s.(prevPlayed := s.prevPlayed + (now - s.playStarted.value)) else s
  }

  function WithItems(s: Session, meta: Option<Item>, media: Option<Item>): Session {
    var a := if meta.Some? then s.(meta := meta.value) else s;
    if media.None? then a
    else a.(mediaMeta := media.value, mediaKey := if meta.Some? then meta.value.ratingKey else a.mediaKey)
  }

  /** A change of state at a clock reading; stamp is the later reading that dates the update. */
  function Transition(s: Session, state: PlayState, at: int, stamp: int): Session {
    var b := if s.state == Playing && state != Playing then Banked(s, at) else s;
    var c := if s.state != Playing && state == Playing then b.(playStarted := Some(at)) else b;
    c.(state := state, lastUpdate := stamp)
  }

  predicate Refused(m: Sessions, key: string) {
    key !in m && |m| >= MAX_TRACKED
  }

  function Updated(m: Sessions, key: string, state: PlayState, meta: Option<Item>, media: Option<Item>, at: int, stamp: int): Sessions {
    if Refused(m, key) then m
    else m[key := Transition(WithItems(EntryOf(m, key), meta, media), state, at, stamp)]
  }

  /** A tracked session that a poll no longer lists stops there. */
  function Unlisted(s: Session, now: int): Session {
    if s.state == Stopped then s else Transition(s, Stopped, now, now)
  }

  function MarkedAbsent(m: Sessions, present: set<string>, now: int): Sessions {
    map k | k in m :: if k in present then m[k] else Unlisted(m[k], now)
  }

  /** Idle past the bound of its state, both bounds exclusive. */
  predicate Expired(s: Session, now: int) {
    now - s.lastUpdate > if s.state == Stopped then SESSION_TIMEOUT else STALE_TIMEOUT
  }

  /** prune reads the clock once for every session. */
  function Swept(m: Sessions, reading: string -> int): Sessions {
    map k | k in m && !Expired(m[k], reading(k)) :: m[k]
  }

  function Labelled(m: Sessions, key: string, f: Session -> Session): Sessions {
    if key in m then m[key := f(m[key])] else m
  }

  predicate Resolved(m: Sessions, key: string, ratingKey: string) {
    key in m && ratingKey != "" && m[key].mediaKey == ratingKey && m[key].library.name != ""
  }

  predicate WellStarted(m: Sessions) {
    forall k | k in m && m[k].state == Playing :: m[k].playStarted.Some?
  }

  /** The state change inside Update and MarkAbsentStopped: leaving Playing banks the open
      interval, entering it opens one. */
  method ChangeState(s: Session, state: PlayState, at: int, stamp: int) returns (t: Session)
    requires s.state == Playing ==> s.playStarted.Some?
    ensures t == Transition(s, state, at, stamp)
    ensures t.state == Playing ==> t.playStarted.Some?
  {
    t := s;
    if s.state == Playing && state != Playing {
      t := t.(prevPlayed := t.prevPlayed + (at - t.playStarted.value));
    }
    if s.state != Playing && state == Playing {
      t := t.(playStarted := Some(at));
    }
    t := t.(state := state, lastUpdate := stamp);
  }

  class Tracker {
    const normalize: string -> string
    var sessions: Sessions

    constructor (normalize: string -> string)
      ensures this.normalize == normalize && sessions == map[]
    {
      this.normalize := normalize;
      sessions := map[];
    }

    /** Update: a state transition of one session; a new one is refused once the map is full. */
    method Update(id: string, state: PlayState, meta: Option<Item>, media: Option<Item>, at: int, stamp: int)
      requires WellStarted(sessions)
      modifies this
      ensures sessions == Updated(old(sessions), normalize(id), state, meta, media, at, stamp)
      ensures WellStarted(sessions)
    {
      hide Transition;
      var key := normalize(id);
      if key !in sessions && |sessions| >= MAX_TRACKED {
        return;
      }
      var s := if key in sessions then sessions[key] else NEW_SESSION;
      if meta.Some? {
        s := s.(meta := meta.value);
      }
      if media.Some? {
        s := s.(mediaMeta := media.value);
        if meta.Some? {
          s := s.(mediaKey := meta.value.ratingKey);
        }
      }
      s := ChangeState(s, state, at, stamp);
      sessions := sessions[key := s];
    }

    method Normalized(keys: seq<string>) returns (present: set<string>)
      ensures present == set k | k in keys :: normalize(k)
    {
      present := {};
      for i := 0 to |keys|
        invariant present == set k | k in keys[..i] :: normalize(k)
      {
        assert keys[..i + 1] == keys[..i] + [keys[i]];
        present := present + {normalize(keys[i])};
      }
      assert keys[..|keys|] == keys;
    }

    /** MarkAbsentStopped: every tracked session the poll does not list stops, once. */
    method MarkAbsentStopped(presentKeys: seq<string>, now: int)
      requires WellStarted(sessions)
      modifies this
      ensures sessions == MarkedAbsent(old(sessions), set k | k in presentKeys :: normalize(k), now)
      ensures WellStarted(sessions)
    {
      hide Transition;
      var present := Normalized(presentKeys);
      var before := sessions;
      var left := sessions.Keys;
      while left != {}
        invariant left <= before.Keys && sessions.Keys == before.Keys
        invariant forall k | k in left :: sessions[k] == before[k]
        invariant forall k | k in before && k !in left :: sessions[k] == if k in present then before[k] else Unlisted(before[k], now)
        invariant WellStarted(sessions)
        decreases left
      {
        var k :| k in left;
        left := left - {k};
        var s := sessions[k];
        if k !in present && s.state != Stopped {
          s := ChangeState(s, Stopped, now, now);
          sessions := sessions[k := s];
        }
      }
    }

    /** prune */
    method Prune(reading: string -> int)
      modifies this
      ensures sessions == Swept(old(sessions), reading)
      ensures old(WellStarted(sessions)) ==> WellStarted(sessions)
    {
      var before := sessions;
      var left := sessions.Keys;
      while left != {}
        invariant left <= before.Keys && sessions.Keys <= before.Keys
        invariant forall k | k in sessions :: sessions[k] == before[k]
        invariant forall k | k in before :: k in sessions <==> k in left || !Expired(before[k], reading(k))
        decreases left
      {
        var k :| k in left;
        left := left - {k};
        var s := sessions[k];
        if (s.state == Stopped && reading(k) - s.lastUpdate > SESSION_TIMEOUT)
           || (s.state != Stopped && reading(k) - s.lastUpdate > STALE_TIMEOUT) {
          sessions := sessions - {k};
        }
      }
    }

    /** UpdateLibraryLabels: changes a tracked session and never adds one. */
    method UpdateLibraryLabels(id: string, f: Session -> Session)
      modifies this
      ensures sessions == Labelled(old(sessions), normalize(id), f)
    {
      if normalize(id) in sessions {
        sessions := sessions[normalize(id) := f(sessions[normalize(id)])];
      }
    }

    method MediaResolved(id: string, ratingKey: string) returns (resolved: bool)
      ensures resolved <==> Resolved(sessions, normalize(id), ratingKey)
    {
      var key := normalize(id);
      resolved := key in sessions && ratingKey != "" && sessions[key].mediaKey == ratingKey && sessions[key].library.name != "";
    }
  }

  // ---- runs ----

  datatype Event =
    | Update(key: string, state: PlayState, meta: Option<Item>, media: Option<Item>, at: int, stamp: int)
    | MarkAbsent(present: set<string>, now: int)
    | Label(key: string, f: Session -> Session)
    | Sweep(reading: string -> int, began: int, ended: int)

  function Next(m: Sessions, e: Event): Sessions {
    match e
    case Update(key, state, meta, media, at, stamp) => Updated(m, key, state, meta, media, at, stamp)
    case MarkAbsent(present, now) => MarkedAbsent(m, present, now)
    case Label(key, f) => Labelled(m, key, f)
    case Sweep(reading, _, _) => Swept(m, reading)
  }

  function Run(m: Sessions, events: seq<Event>): Sessions {
    if events == [] then m else Next(Run(m, events[..|events| - 1]), events[|events| - 1])
  }

  /** Labels leave the clock fields, the state and the play time alone. */
  ghost predicate LabelsOnly(f: Session -> Session) {
    forall s: Session ::
      var t := f(s);
      t.playStarted == s.playStarted && t.lastUpdate == s.lastUpdate && t.prevPlayed == s.prevPlayed && t.state == s.state
  }

  /** The event reads the clock no earlier than clock, and in order. */
  ghost predicate Timed(clock: int, e: Event) {
    match e
    case Update(_, _, _, _, at, stamp) => clock <= at <= stamp
    case MarkAbsent(_, now) => clock <= now
    case Label(_, f) => LabelsOnly(f)
    case Sweep(reading, began, ended) => clock <= began <= ended && forall k: string :: began <= reading(k) <= ended
  }

  function ClockAfter(clock: int, e: Event): int {
    match e
    case Update(_, _, _, _, _, stamp) => stamp
    case MarkAbsent(_, now) => now
    case Label(_, _) => clock
    case Sweep(_, _, ended) => ended
  }

  function Clock(start: int, events: seq<Event>): int {
    if events == [] then start else ClockAfter(Clock(start, events[..|events| - 1]), events[|events| - 1])
  }

  ghost predicate Clocked(start: int, events: seq<Event>) {
    forall i | 0 <= i < |events| :: Timed(Clock(start, events[..i]), events[i])
  }

  lemma ClockedPrefix(start: int, events: seq<Event>, n: nat)
    requires Clocked(start, events) && n <= |events|
    ensures Clocked(start, events[..n])
  {
    forall i | 0 <= i < n ensures Timed(Clock(start, events[..n][..i]), events[..n][i]) {
      assert events[..n][..i] == events[..i];
    }
  }

  // ---- the map is bounded ----

  lemma NextBounded(m: Sessions, e: Event)
    requires |m| <= MAX_TRACKED
    ensures |Next(m, e)| <= MAX_TRACKED
  {
    hide Transition, WithItems;
    var n := Next(m, e);
    match e {
      case Update(key, _, _, _, _, _) =>
        if !Refused(m, key) {
          assert n.Keys == m.Keys + {key};
        }
      case MarkAbsent(_, _) => assert n.Keys == m.Keys;
      case Label(key, _) => if key in m { assert n.Keys == m.Keys; }
      case Sweep(_, _, _) => SubsetSize(n.Keys, m.Keys);
    }
  }

  /** However many session keys a server sends, at most 256 sessions are tracked. */
  lemma {:induction false} NeverMoreThan256(m: Sessions, events: seq<Event>)
    requires |m| <= 256
    ensures |Run(m, events)| <= 256
  {
    hide Next;
    if events != [] {
      NeverMoreThan256(m, events[..|events| - 1]);
      NextBounded(Run(m, events[..|events| - 1]), events[|events| - 1]);
    }
  }

  // ---- play time ----

  /** From a time on, the session is in a state. */
  datatype Change = Change(at: int, state: PlayState)

  /** The time a timeline spends playing up to now. */
  function PlayTime(changes: seq<Change>, now: int): int {
    if changes == [] then 0
    else
      var last := changes[|changes| - 1];
      PlayTime(changes[..|changes| - 1], last.at) + if last.state == Playing then now - last.at else 0
  }

  /** What an event changes about a tracked session, if it stays tracked. */
  function ChangesOf(m: Sessions, e: Event, k: string): seq<Change> {
    match e
    case Update(key, state, _, _, at, _) => if key == k && !Refused(m, k) then [Change(at, state)] else []
    case MarkAbsent(present, now) =>
      if k in m && k !in present && m[k].state != Stopped then [Change(now, Stopped)] else []
    case _ => []
  }

  /** The timeline of a key's present entry: its changes since the entry was created. */
  function Timeline(events: seq<Event>, k: string): seq<Change> {
    if events == [] then []
    else
      var before := events[..|events| - 1];
      var m, e := Run(map[], before), events[|events| - 1];
      if k !in Next(m, e) then [] else Timeline(before, k) + ChangesOf(m, e, k)
  }

  /** The published counter of a session: banked time and the open interval. */
  function Published(s: Session, now: int): int {
    s.prevPlayed + if s.state == Playing && s.playStarted.Some? then now - s.playStarted.value else 0
  }

  /** The entry accounts for its timeline: nothing lost, nothing twice. */
  ghost predicate Accounts(s: Session, changes: seq<Change>, clock: int) {
    && changes != [] && changes[|changes| - 1].state == s.state && changes[|changes| - 1].at <= clock
    && (s.state == Playing ==> s.playStarted.Some?)
    && (s.playStarted.None? ==> s.prevPlayed == 0)
    && forall now: int :: Published(s, now) == PlayTime(changes, now)
  }

  lemma PlayTimeSnoc(changes: seq<Change>, c: Change, now: int)
    ensures PlayTime(changes + [c], now) == PlayTime(changes, c.at) + if c.state == Playing then now - c.at else 0
  {
    assert (changes + [c])[..|changes|] == changes;
  }

  lemma TransitionAccounts(s: Session, changes: seq<Change>, clock: int, state: PlayState, at: int, stamp: int)
    requires Accounts(s, changes, clock) && clock <= at <= stamp
    ensures Accounts(Transition(s, state, at, stamp), changes + [Change(at, state)], stamp)
  {
    hide PlayTime;
    var t := Transition(s, state, at, stamp);
    forall now: int ensures Published(t, now) == PlayTime(changes + [Change(at, state)], now) {
      PlayTimeSnoc(changes, Change(at, state), now);
      assert Published(s, at) == PlayTime(changes, at);
    }
  }

  lemma FirstAccounts(s: Session, state: PlayState, at: int, stamp: int)
    requires s.state == Unset && s.prevPlayed == 0 && at <= stamp && s.playStarted.None?
    ensures Accounts(Transition(s, state, at, stamp), [Change(at, state)], stamp)
  {
    forall now: int ensures PlayTime([Change(at, state)], now) == if state == Playing then now - at else 0 {
      assert [Change(at, state)][..0] == [];
    }
  }

  lemma SameAccounts(s: Session, t: Session, changes: seq<Change>, clock: int, later: int)
    requires Accounts(s, changes, clock) && clock <= later
    requires t.playStarted == s.playStarted && t.prevPlayed == s.prevPlayed && t.state == s.state
    ensures Accounts(t, changes, later)
  {
    hide PlayTime;
    forall now: int ensures Published(t, now) == PlayTime(changes, now) {
      assert Published(s, now) == PlayTime(changes, now);
    }
  }

  lemma NextAccounts(m: Sessions, e: Event, k: string, changes: seq<Change>, clock: int)
    requires Timed(clock, e) && k in Next(m, e)
    requires if k in m then Accounts(m[k], changes, clock) else changes == []
    ensures Accounts(Next(m, e)[k], changes + ChangesOf(m, e, k), ClockAfter(clock, e))
  {
    hide Accounts, Transition;
    var later := ClockAfter(clock, e);
    assert changes + [] == changes;
    match e {
      case Update(key, state, meta, media, at, stamp) =>
        if key == k {
          var s := WithItems(EntryOf(m, k), meta, media);
          if k in m {
            SameAccounts(m[k], s, changes, clock, clock);
            TransitionAccounts(s, changes, clock, state, at, stamp);
          } else {
            FirstAccounts(s, state, at, stamp);
            assert changes + [Change(at, state)] == [Change(at, state)];
          }
        } else {
          SameAccounts(m[k], m[k], changes, clock, later);
        }
      case MarkAbsent(present, now) =>
        SameAccounts(m[k], m[k], changes, clock, later);
        if k !in present && m[k].state != Stopped {
          TransitionAccounts(m[k], changes, clock, Stopped, now, now);
        }
      case Label(key, f) =>
        SameAccounts(m[k], Next(m, e)[k], changes, clock, later);
      case Sweep(_, _, _) =>
        SameAccounts(m[k], m[k], changes, clock, later);
    }
  }

  /** Over every run the banked time and the open interval are exactly the time the entry's
      timeline spent playing, at every later moment. */
  lemma {:induction false} PlayTimeIsConserved(start: int, events: seq<Event>, k: string)
    requires Clocked(start, events)
    ensures k in Run(map[], events) ==> Accounts(Run(map[], events)[k], Timeline(events, k), Clock(start, events))
    ensures k !in Run(map[], events) ==> Timeline(events, k) == []
  {
    hide Accounts, Next, Timed;
    if events != [] {
      var before, e := events[..|events| - 1], events[|events| - 1];
      ClockedPrefix(start, events, |events| - 1);
      PlayTimeIsConserved(start, before, k);
      assert Timed(Clock(start, events[..|events| - 1]), e);
      if k in Next(Run(map[], before), e) {
        NextAccounts(Run(map[], before), e, k, Timeline(before, k), Clock(start, before));
      }
    }
  }

  // ---- the published counter ----

  /** A session over a whole stretch of a run. */
  predicate TrackedOver(events: seq<Event>, i: nat, j: nat, k: string) {
    i <= j <= |events| && forall n | i <= n <= j :: k in Run(map[], events[..n])
  }

  /** What a session's entry went through between two moments of a run. */
  function ChangesSince(events: seq<Event>, i: nat, j: nat, k: string): seq<Change>
    requires i <= j <= |events|
  {
    var before, after := Timeline(events[..i], k), Timeline(events[..j], k);
    if |before| <= |after| then after[|before|..] else []
  }

  predicate Ascending(from: int, changes: seq<Change>) {
    && (forall c | c in changes :: from <= c.at)
    && (forall i, j | 0 <= i < j < |changes| :: changes[i].at <= changes[j].at)
  }

  lemma NextTimed(m: Sessions, e: Event, k: string, clock: int)
    requires Timed(clock, e)
    ensures clock <= ClockAfter(clock, e)
    ensures forall c | c in ChangesOf(m, e, k) :: clock <= c.at <= ClockAfter(clock, e)
    ensures |ChangesOf(m, e, k)| <= 1
  {
  }

  lemma NextKeepsStart(m: Sessions, e: Event, k: string, clock: int)
    requires k in m && k in Next(m, e) && Timed(clock, e)
    ensures m[k].playStarted.Some? ==> Next(m, e)[k].playStarted.Some?
  {
  }

  lemma AscendingMore(from: int, changes: seq<Change>, more: seq<Change>, clock: int)
    requires Ascending(from, changes) && from <= clock && |more| <= 1
    requires forall c | c in changes :: c.at <= clock
    requires forall c | c in more :: clock <= c.at
    ensures Ascending(from, changes + more)
  {
    var all := changes + more;
    forall i | 0 <= i < |all| ensures from <= all[i].at {
      assert i < |changes| ==> changes[i] in changes;
      assert |changes| <= i ==> more[i - |changes|] in more;
    }
    forall i, j | 0 <= i < j < |all| ensures all[i].at <= all[j].at {
      assert changes[i] in changes;
      assert |changes| <= j ==> more[j - |changes|] in more;
    }
  }

  /** What a run, its clock and a timeline owe to the last of j events. */
  lemma LastOf(start: int, events: seq<Event>, j: nat, k: string)
    requires 0 < j <= |events|
    ensures var before, e := events[..j - 1], events[j - 1];
            && Run(map[], events[..j]) == Next(Run(map[], before), e)
            && Clock(start, events[..j]) == ClockAfter(Clock(start, before), e)
            && Timeline(events[..j], k) == (if k !in Next(Run(map[], before), e) then []
                                            else Timeline(before, k) + ChangesOf(Run(map[], before), e, k))
  {
    hide Next, ClockAfter, ChangesOf;
    assert events[..j][..j - 1] == events[..j - 1];
  }

  lemma TailGrows(b: seq<Change>, d: seq<Change>, more: seq<Change>)
    ensures b + d + more == b + (d + more) && (b + (d + more))[|b|..] == d + more
  {
  }

  /** One more event of a session that stays tracked. */
  lemma TimelineNext(start: int, events: seq<Event>, i: nat, j: nat, k: string)
    requires Clocked(start, events) && i < j <= |events| && k in Run(map[], events[..j - 1]) && k in Run(map[], events[..j])
    requires Timeline(events[..j - 1], k) == Timeline(events[..i], k) + ChangesSince(events, i, j - 1, k)
    ensures var e, clock := events[j - 1], Clock(start, events[..j - 1]);
            var more := ChangesOf(Run(map[], events[..j - 1]), e, k);
            && Timeline(events[..j], k) == Timeline(events[..i], k) + ChangesSince(events, i, j, k)
            && ChangesSince(events, i, j, k) == ChangesSince(events, i, j - 1, k) + more
            && |more| <= 1 && clock <= Clock(start, events[..j])
            && (forall c | c in more :: clock <= c.at <= Clock(start, events[..j]))
            && (Run(map[], events[..j - 1])[k].playStarted.Some? ==> Run(map[], events[..j])[k].playStarted.Some?)
  {
    hide Next, Clocked, Timed, ChangesOf, Run, Timeline, Clock;
    var before, e := events[..j - 1], events[j - 1];
    LastOf(start, events, j, k);
    ClockedAt(start, events, j - 1);
    var m := Run(map[], before);
    NextTimed(m, e, k, Clock(start, before));
    NextKeepsStart(m, e, k, Clock(start, before));
    TailGrows(Timeline(events[..i], k), ChangesSince(events, i, j - 1, k), ChangesOf(m, e, k));
  }

  /** While a session is tracked its timeline only grows, in clock order, and once it has
      been played there stays a counter to publish. */
  lemma {:induction false} TimelineGrows(start: int, events: seq<Event>, i: nat, j: nat, k: string)
    requires Clocked(start, events) && TrackedOver(events, i, j, k)
    ensures Timeline(events[..j], k) == Timeline(events[..i], k) + ChangesSince(events, i, j, k)
    ensures Ascending(Clock(start, events[..i]), ChangesSince(events, i, j, k))
    ensures Clock(start, events[..i]) <= Clock(start, events[..j])
    ensures forall c | c in ChangesSince(events, i, j, k) :: c.at <= Clock(start, events[..j])
    ensures Run(map[], events[..i])[k].playStarted.Some? ==> Run(map[], events[..j])[k].playStarted.Some?
    decreases j - i
  {
    hide Run, Timeline, Clock, Clocked, ChangesOf, Ascending;
    if i == j {
      NoChanges(start, events, i, k);
    } else {
      TimelineGrows(start, events, i, j - 1, k);
      TimelineNext(start, events, i, j, k);
      AscendingMore(Clock(start, events[..i]), ChangesSince(events, i, j - 1, k),
                    ChangesOf(Run(map[], events[..j - 1]), events[j - 1], k), Clock(start, events[..j - 1]));
    }
  }

  lemma NoChanges(start: int, events: seq<Event>, i: nat, k: string)
    requires i <= |events|
    ensures ChangesSince(events, i, i, k) == [] && Ascending(Clock(start, events[..i]), [])
  {
  }

  /** The time from since to now spent playing, or not playing, by a session that was in
      state at since and then went through changes. */
  function TimeIn(playing: bool, state: PlayState, since: int, changes: seq<Change>, now: int): int {
    if changes == [] then if (state == Playing) == playing then now - since else 0
    else
      var last := changes[|changes| - 1];
      TimeIn(playing, state, since, changes[..|changes| - 1], last.at)
      + if (last.state == Playing) == playing then now - last.at else 0
  }

  lemma {:induction false} TimeInAddsUp(state: PlayState, since: int, changes: seq<Change>, now: int)
    ensures TimeIn(true, state, since, changes, now) + TimeIn(false, state, since, changes, now) == now - since
  {
    if changes != [] {
      TimeInAddsUp(state, since, changes[..|changes| - 1], changes[|changes| - 1].at);
    }
  }

  lemma AscendingPrefix(since: int, changes: seq<Change>)
    requires Ascending(since, changes) && changes != []
    ensures var n := |changes| - 1;
            && Ascending(since, changes[..n]) && since <= changes[n].at
            && forall c | c in changes[..n] :: c.at <= changes[n].at
  {
    var n := |changes| - 1;
    forall c | c in changes[..n] ensures since <= c.at <= changes[n].at {
      var i :| 0 <= i < n && changes[..n][i] == c;
      assert changes[i] in changes && changes[i] == c;
    }
    assert changes[n] in changes;
  }

  lemma {:induction false} TimeInBounds(playing: bool, state: PlayState, since: int, changes: seq<Change>, now: int)
    requires Ascending(since, changes) && since <= now && forall c | c in changes :: c.at <= now
    ensures 0 <= TimeIn(playing, state, since, changes, now)
  {
    hide Ascending;
    if changes != [] {
      var n := |changes| - 1;
      assert changes[n] in changes;
      AscendingPrefix(since, changes);
      TimeInBounds(playing, state, since, changes[..n], changes[n].at);
    }
  }

  lemma {:induction false} PlayTimeSplits(before: seq<Change>, since: int, changes: seq<Change>, now: int)
    requires before != []
    ensures PlayTime(before + changes, now)
         == PlayTime(before, since) + TimeIn(true, before[|before| - 1].state, since, changes, now)
    decreases |changes|
  {
    if changes == [] {
      assert before + changes == before;
    } else {
      var n := |changes| - 1;
      PlayTimeSplits(before, since, changes[..n], changes[n].at);
      assert before + changes == (before + changes[..n]) + [changes[n]];
      PlayTimeSnoc(before + changes[..n], changes[n], now);
    }
  }

  /** One scrape of a session: its entry is copied after the first copied events, and the
      clock is read later, at now, when the first seen events have made their change. */
  datatype Scrape = Scrape(copied: nat, seen: nat, now: int)

  predicate IsScrape(start: int, events: seq<Event>, x: Scrape, k: string) {
    && TrackedOver(events, x.copied, x.seen, k)
    && Clock(start, events[..x.copied]) <= x.now
    && forall c | c in ChangesSince(events, x.copied, x.seen, k) :: c.at <= x.now
  }

  function Copied(events: seq<Event>, x: Scrape, k: string): Session
    requires TrackedOver(events, x.copied, x.seen, k)
  {
    Run(map[], events[..x.copied])[k]
  }

  /** The published value. */
  function Shown(events: seq<Event>, x: Scrape, k: string): int
    requires TrackedOver(events, x.copied, x.seen, k)
  {
    Published(Copied(events, x, k), x.now)
  }

  /** The time between copy and reading that the session was not as it was copied: out of
      play when it was copied playing, playing when it was not. */
  function Misread(start: int, events: seq<Event>, x: Scrape, k: string): int
    requires TrackedOver(events, x.copied, x.seen, k)
  {
    var s := Copied(events, x, k);
    TimeIn(s.state != Playing, s.state, Clock(start, events[..x.copied]), ChangesSince(events, x.copied, x.seen, k), x.now)
  }

  lemma CopiedAccounts(start: int, events: seq<Event>, n: nat, k: string)
    requires Clocked(start, events) && n <= |events| && k in Run(map[], events[..n])
    ensures var changes := Timeline(events[..n], k);
            && changes != [] && changes[|changes| - 1].state == Run(map[], events[..n])[k].state
            && forall now: int :: Published(Run(map[], events[..n])[k], now) == PlayTime(changes, now)
  {
    ClockedPrefix(start, events, n);
    PlayTimeIsConserved(start, events[..n], k);
  }

  /** A published value is the session's play time at the reading, too high by the time it
      was out of play since a copy made while it played, and too low by the time it played
      since a copy made while it did not; so it is exact if and only if there was none. */
  lemma ShownAgainstPlayTime(start: int, events: seq<Event>, x: Scrape, k: string)
    requires Clocked(start, events) && IsScrape(start, events, x, k)
    ensures var played := PlayTime(Timeline(events[..x.seen], k), x.now);
            var off := Misread(start, events, x, k);
            && 0 <= off
            && Shown(events, x, k) == (if Copied(events, x, k).state == Playing then played + off else played - off)
            && (Shown(events, x, k) == played <==> off == 0)
  {
    hide Published, Timeline, PlayTime, TimeIn, ChangesSince, Run, Clocked;
    CopiedAccounts(start, events, x.copied, k);
    TimelineGrows(start, events, x.copied, x.seen, k);
    var changes, since := ChangesSince(events, x.copied, x.seen, k), Clock(start, events[..x.copied]);
    var s := Copied(events, x, k);
    var before := Timeline(events[..x.copied], k);
    TimeInBounds(s.state != Playing, s.state, since, changes, x.now);
    PlayTimeSplits(before, since, changes, x.now);
    PlayTimeSplits(before, since, [], x.now);
    assert before + [] == before;
    StillIn(s.state, since, x.now);
    TimeInAddsUp(s.state, since, changes, x.now);
  }

  lemma StillIn(state: PlayState, since: int, now: int)
    ensures TimeIn(true, state, since, [], now) == if state == Playing then now - since else 0
  {
  }

  /** The next scrape copies the session after the reading of this one. */
  predicate Follows(start: int, events: seq<Event>, x: Scrape, y: Scrape, k: string) {
    && IsScrape(start, events, x, k) && IsScrape(start, events, y, k)
    && x.seen <= y.copied && x.now <= y.now && TrackedOver(events, x.seen, y.copied, k)
    && forall c | c in ChangesSince(events, x.seen, y.copied, k) :: x.now <= c.at <= y.now
  }

  /** The time played from this reading to the next, as the next copy tells it. */
  function Gained(events: seq<Event>, x: Scrape, y: Scrape, k: string): int
    requires TrackedOver(events, x.seen, y.copied, k)
  {
    TimeIn(true, Run(map[], events[..x.seen])[k].state, x.now, ChangesSince(events, x.seen, y.copied, k), y.now)
  }

  /** From one scrape to the next the published counter does not fall, unless this one was
      copied playing and was out of play, before its clock was read, for longer than it has
      played since: it does not fall if and only if that is not so. It stays published. */
  lemma CounterDoesNotFallIff(start: int, events: seq<Event>, x: Scrape, y: Scrape, k: string)
    requires Clocked(start, events) && Follows(start, events, x, y, k)
    ensures 0 <= Gained(events, x, y, k)
    ensures Shown(events, x, k) <= Shown(events, y, k)
       <==> Copied(events, x, k).state != Playing || Misread(start, events, x, k) <= Gained(events, x, y, k)
    ensures Copied(events, x, k).playStarted.Some? ==> Copied(events, y, k).playStarted.Some?
  {
    hide Published, Timeline, PlayTime, TimeIn, ChangesSince, Run, Clocked, Misread;
    ShownAgainstPlayTime(start, events, x, k);
    CopiedAccounts(start, events, x.seen, k);
    CopiedAccounts(start, events, y.copied, k);
    TimelineGrows(start, events, x.copied, x.seen, k);
    TimelineGrows(start, events, x.seen, y.copied, k);
    var changes := ChangesSince(events, x.seen, y.copied, k);
    PlayTimeSplits(Timeline(events[..x.seen], k), x.now, changes, y.now);
    TimeInBounds(true, Run(map[], events[..x.seen])[k].state, x.now, changes, y.now);
  }

  /** So the counter never falls between scrapes that read the clock before the session
      leaves the state it was copied in. */
  lemma PromptScrapesNeverFall(start: int, events: seq<Event>, x: Scrape, y: Scrape, k: string)
    requires Clocked(start, events) && Follows(start, events, x, y, k)
    requires ChangesSince(events, x.copied, x.seen, k) == []
    ensures Shown(events, x, k) <= Shown(events, y, k)
    ensures Shown(events, x, k) == PlayTime(Timeline(events[..x.seen], k), x.now)
  {
    hide Timeline, PlayTime, ChangesSince, Run, Clocked, Published;
    assert Misread(start, events, x, k) == 0;
    ShownAgainstPlayTime(start, events, x, k);
    CounterDoesNotFallIff(start, events, x, y, k);
  }

  /** And it can fall: a session plays from 0, is copied, stops at 11, the scrape reads the
      clock at 12, and the next one at 20. */
  lemma CounterCanFall() returns (events: seq<Event>, x: Scrape, y: Scrape)
    ensures Clocked(0, events) && Follows(0, events, x, y, "s")
    ensures Shown(events, x, "s") == 12 && Shown(events, y, "s") == 11
  {
    var plays := Update("s", Playing, None, None, 0, 0);
    var stops := MarkAbsent({}, 11);
    events := [plays, stops];
    x, y := Scrape(1, 2, 12), Scrape(2, 2, 20);
    hide Run, Timeline, Clock;
    assert events[..0] == [] && events[..1] == [plays] && events[..2] == events;
    NothingRun(0, "s");
    LastOf(0, events, 1, "s");
    LastOf(0, events, 2, "s");
    assert Clocked(0, events);
    assert Timeline(events[..1], "s") == [Change(0, Playing)];
    assert Timeline(events[..2], "s") == [Change(0, Playing), Change(11, Stopped)];
  }

  lemma NothingRun(start: int, k: string)
    ensures Run(map[], []) == map[] && Clock(start, []) == start && Timeline([], k) == []
  {
  }

  lemma ClockedAt(start: int, events: seq<Event>, n: nat)
    requires Clocked(start, events) && n < |events|
    ensures Timed(Clock(start, events[..n]), events[n])
  {
  }

  // ---- what an update and a poll leave ----

  /** An update of a tracked session, or of a new one while fewer than 256 are tracked, leaves
      it in the state and at the time given, with the metadata that came; any other is lost.
      No other session changes. */
  lemma UpdateMeans(m: Sessions, key: string, state: PlayState, meta: Option<Item>, media: Option<Item>, at: int, stamp: int)
    ensures var n := Updated(m, key, state, meta, media, at, stamp);
            && (key in n <==> key in m || |m| < 256)
            && (forall k | k != key :: (k in n <==> k in m) && (k in m ==> n[k] == m[k]))
            && (key in n ==>
                  && n[key].state == state && n[key].lastUpdate == stamp
                  && n[key].meta == (if meta.Some? then meta.value else EntryOf(m, key).meta)
                  && n[key].mediaMeta == (if media.Some? then media.value else EntryOf(m, key).mediaMeta)
                  && n[key].library == EntryOf(m, key).library && n[key].pipeline == EntryOf(m, key).pipeline)
  {
  }

  /** A poll leaves the sessions it lists, and those that had stopped, as they were. */
  lemma ListedIsLeft(m: Sessions, present: set<string>, now: int, k: string)
    ensures k in MarkedAbsent(m, present, now) <==> k in m
    ensures k in m && (k in present || m[k].state == Stopped) ==> MarkedAbsent(m, present, now)[k] == m[k]
    ensures k in m && k !in present ==> MarkedAbsent(m, present, now)[k].state == Stopped
  {
  }

  // ---- pruning ----

  /** The event does not update the session. */
  predicate Leaves(e: Event, k: string) {
    !(e.Update? && e.key == k)
  }

  function SweepReadings(events: seq<Event>, k: string): seq<int> {
    if events == [] then []
    else
      var before := SweepReadings(events[..|events| - 1], k);
      var e := events[|events| - 1];
      if e.Sweep? then before + [e.reading(k)] else before
  }

  /** Session k is tracked, stopped at t. */
  predicate StoppedAt(m: Sessions, k: string, t: int) {
    k in m && m[k].state == Stopped && m[k].lastUpdate == t
  }

  lemma StoppedNext(m: Sessions, e: Event, k: string, t: int)
    requires Leaves(e, k) && (e.Label? ==> LabelsOnly(e.f))
    ensures k !in m ==> k !in Next(m, e)
    ensures StoppedAt(m, k, t) && !(e.Sweep? && e.reading(k) > t + SESSION_TIMEOUT) ==> StoppedAt(Next(m, e), k, t)
    ensures StoppedAt(m, k, t) && e.Sweep? && e.reading(k) > t + SESSION_TIMEOUT ==> k !in Next(m, e)
  {
    hide Transition, WithItems;
  }

  /** A session that stopped at t and is not updated again is removed by the first sweep that
      looks at it strictly later than a minute after t, and by nothing else. */
  lemma {:induction false} StoppedUntilSwept(m: Sessions, events: seq<Event>, k: string, t: int)
    requires StoppedAt(m, k, t)
    requires forall e | e in events :: Leaves(e, k) && (e.Label? ==> LabelsOnly(e.f))
    ensures if exists r | r in SweepReadings(events, k) :: r > t + 60 * SECOND
            then k !in Run(m, events) else StoppedAt(Run(m, events), k, t)
    decreases |events|
  {
    hide Next, LabelsOnly, StoppedAt;
    if events == [] {
      assert SweepReadings(events, k) == [];
    } else {
      var before, e := events[..|events| - 1], events[|events| - 1];
      assert events == before + [e];
      StoppedUntilSwept(m, before, k, t);
      StoppedNext(Run(m, before), e, k, t);
      var late := if e.Sweep? then [e.reading(k)] else [];
      assert SweepReadings(events, k) == SweepReadings(before, k) + late;
      assert forall r :: r in SweepReadings(events, k) <==> r in SweepReadings(before, k) || r in late;
      assert e.Sweep? ==> e.reading(k) in late;
    }
  }

  /** The sweeps look at the session at least once a minute, from no later than a minute
      after t on, and at least once after that minute. */
  predicate SweptEachMinute(readings: seq<int>, t: int) {
    && readings != [] && readings[0] <= t + 60 * SECOND && readings[|readings| - 1] > t + 60 * SECOND
    && forall i | 0 < i < |readings| :: readings[i] <= readings[i - 1] + 60 * SECOND
  }

  lemma {:induction false} FirstLateReading(readings: seq<int>, t: int) returns (i: nat)
    requires SweptEachMinute(readings, t)
    ensures i < |readings| && t + SESSION_TIMEOUT < readings[i] <= t + 2 * SESSION_TIMEOUT
    ensures forall j | 0 <= j < i :: readings[j] <= t + SESSION_TIMEOUT
  {
    i := 1;
    while readings[i] <= t + SESSION_TIMEOUT
      invariant 0 < i < |readings|
      invariant forall j | 0 <= j < i :: readings[j] <= t + SESSION_TIMEOUT
      decreases |readings| - i
    {
      i := i + 1;
    }
    assert readings[i - 1] <= t + SESSION_TIMEOUT;
  }

  lemma {:induction false} SweepOf(events: seq<Event>, k: string, i: nat) returns (n: nat)
    requires i < |SweepReadings(events, k)|
    ensures n < |events| && events[n].Sweep? && events[n].reading(k) == SweepReadings(events, k)[i]
    ensures SweepReadings(events[..n], k) == SweepReadings(events, k)[..i]
    decreases |events|
  {
    n := |events| - 1;
    var before := SweepReadings(events[..n], k);
    if i < |before| {
      var last := n;
      n := SweepOf(events[..last], k, i);
      assert events[..last][..n] == events[..n];
    }
  }

  /** The real-time bound: given a sweep each minute, a session stopped at t and absent
      afterwards is removed strictly later than t + 60 s and no later than t + 120 s. */
  lemma StoppedIsRemovedInTime(m: Sessions, events: seq<Event>, k: string, t: int) returns (n: nat)
    requires StoppedAt(m, k, t)
    requires forall e | e in events :: Leaves(e, k) && (e.Label? ==> LabelsOnly(e.f))
    requires SweptEachMinute(SweepReadings(events, k), t)
    ensures n < |events| && events[n].Sweep?
    ensures t + 60 * SECOND < events[n].reading(k) <= t + 120 * SECOND
    ensures k in Run(m, events[..n])
    ensures forall later | n < later <= |events| :: k !in Run(m, events[..later])
  {
    hide Run, LabelsOnly;
    var i := FirstLateReading(SweepReadings(events, k), t);
    n := SweepOf(events, k, i);
    assert forall e | e in events[..n] :: e in events;
    StoppedUntilSwept(m, events[..n], k, t);
    forall later | n < later <= |events| ensures k !in Run(m, events[..later]) {
      assert forall e | e in events[..later] :: e in events;
      StoppedUntilSwept(m, events[..later], k, t);
      SweepAmong(events[..later], k, n);
      assert events[..later][n] == events[n];
    }
  }

  lemma {:induction false} SweepAmong(events: seq<Event>, k: string, n: nat)
    requires n < |events| && events[n].Sweep?
    ensures events[n].reading(k) in SweepReadings(events, k)
    decreases |events|
  {
    if n < |events| - 1 {
      SweepAmong(events[..|events| - 1], k, n);
    }
  }

  /** A session the poll no longer lists stops then, unless it had stopped before. */
  lemma AbsentStops(m: Sessions, present: set<string>, now: int, k: string)
    requires k in m && k !in present
    ensures StoppedAt(MarkedAbsent(m, present, now), k, if m[k].state == Stopped then m[k].lastUpdate else now)
  {
    hide Banked;
  }

  /** A stream that vanishes from the poll at a time now is gone from the tracker within two
      minutes of it, given a sweep each minute and no update. */
  lemma VanishedIsRemovedInTime(m: Sessions, present: set<string>, now: int, events: seq<Event>, k: string) returns (n: nat)
    requires k in m && k !in present && m[k].state != Stopped
    requires forall e | e in events :: Leaves(e, k) && (e.Label? ==> LabelsOnly(e.f))
    requires SweptEachMinute(SweepReadings(events, k), now)
    ensures n < |events| && events[n].Sweep?
    ensures now + 60 * SECOND < events[n].reading(k) <= now + 120 * SECOND
    ensures k in Run(MarkedAbsent(m, present, now), events[..n])
    ensures forall later | n < later <= |events| :: k !in Run(MarkedAbsent(m, present, now), events[..later])
  {
    AbsentStops(m, present, now, k);
    n := StoppedIsRemovedInTime(MarkedAbsent(m, present, now), events, k, now);
  }

  // ---- sessions that fall silent without stopping ----

  /** Session k is tracked in another state than stopped, last updated at t. */
  predicate SilentSince(m: Sessions, k: string, t: int) {
    k in m && m[k].state != Stopped && m[k].lastUpdate == t
  }

  /** The event neither updates the session nor finds it missing from a poll. */
  ghost predicate Overlooks(e: Event, k: string) {
    Leaves(e, k) && (e.MarkAbsent? ==> k in e.present) && (e.Label? ==> LabelsOnly(e.f))
  }

  lemma SilentNext(m: Sessions, e: Event, k: string, t: int)
    requires Overlooks(e, k)
    ensures k !in m ==> k !in Next(m, e)
    ensures SilentSince(m, k, t) && !(e.Sweep? && e.reading(k) > t + 300 * SECOND) ==> SilentSince(Next(m, e), k, t)
    ensures SilentSince(m, k, t) && e.Sweep? && e.reading(k) > t + 300 * SECOND ==> k !in Next(m, e)
  {
    hide Transition, WithItems;
  }

  /** A session that has not stopped, and that no poll updates or misses any more, stays for
      five minutes and is removed by the first sweep that looks at it later, and by nothing
      else. */
  lemma {:induction false} SilentUntilSwept(m: Sessions, events: seq<Event>, k: string, t: int)
    requires SilentSince(m, k, t)
    requires forall e | e in events :: Overlooks(e, k)
    ensures if exists r | r in SweepReadings(events, k) :: r > t + 300 * SECOND
            then k !in Run(m, events) else SilentSince(Run(m, events), k, t)
    decreases |events|
  {
    hide Next, Overlooks, SilentSince;
    if events == [] {
      assert SweepReadings(events, k) == [];
    } else {
      var before, e := events[..|events| - 1], events[|events| - 1];
      assert events == before + [e];
      SilentUntilSwept(m, before, k, t);
      SilentNext(Run(m, before), e, k, t);
      var late := if e.Sweep? then [e.reading(k)] else [];
      assert SweepReadings(events, k) == SweepReadings(before, k) + late;
      assert forall r :: r in SweepReadings(events, k) <==> r in SweepReadings(before, k) || r in late;
      assert e.Sweep? ==> e.reading(k) in late;
    }
  }

  /** Given a sweep each minute, such a session is gone strictly later than t + 300 s and no
      later than t + 360 s, for good. */
  lemma SilentIsRemovedInTime(m: Sessions, events: seq<Event>, k: string, t: int) returns (n: nat)
    requires SilentSince(m, k, t)
    requires forall e | e in events :: Overlooks(e, k)
    requires SweptEachMinute(SweepReadings(events, k), t + 240 * SECOND)
    ensures n < |events| && events[n].Sweep?
    ensures t + 300 * SECOND < events[n].reading(k) <= t + 360 * SECOND
    ensures k in Run(m, events[..n])
    ensures forall later | n < later <= |events| :: k !in Run(m, events[..later])
  {
    hide Run, Overlooks;
    var i := FirstLateReading(SweepReadings(events, k), t + 240 * SECOND);
    n := SweepOf(events, k, i);
    assert forall e | e in events[..n] :: e in events;
    SilentUntilSwept(m, events[..n], k, t);
    forall later | n < later <= |events| ensures k !in Run(m, events[..later]) {
      assert forall e | e in events[..later] :: e in events;
      SilentUntilSwept(m, events[..later], k, t);
      SweepAmong(events[..later], k, n);
      assert events[..later][n] == events[n];
    }
  }

  predicate UpdatedSince(m: Sessions, k: string, t: int) {
    k in m && m[k].lastUpdate >= t
  }

  lemma UpdatedNext(m: Sessions, e: Event, k: string, t: int, clock: int)
    requires UpdatedSince(m, k, t) && t <= clock && Timed(clock, e)
    requires e.Sweep? ==> e.reading(k) <= t + SESSION_TIMEOUT
    ensures UpdatedSince(Next(m, e), k, t)
  {
    hide Banked, WithItems;
  }

  /** A session updated at t or later is never removed by a sweep within the minute after t. */
  lemma {:induction false} UpdatedIsKept(m: Sessions, events: seq<Event>, k: string, t: int)
    requires UpdatedSince(m, k, t) && Clocked(t, events)
    requires forall r | r in SweepReadings(events, k) :: r <= t + SESSION_TIMEOUT
    ensures UpdatedSince(Run(m, events), k, t) && t <= Clock(t, events)
    decreases |events|
  {
    hide Next, Timed;
    if events != [] {
      var before, e := events[..|events| - 1], events[|events| - 1];
      ClockedPrefix(t, events, |before|);
      assert Timed(Clock(t, before), e);
      assert forall r | r in SweepReadings(before, k) :: r in SweepReadings(events, k);
      UpdatedIsKept(m, before, k, t);
      if e.Sweep? {
        assert e.reading(k) in SweepReadings(events, k);
      }
      UpdatedNext(Run(m, before), e, k, t, Clock(t, before));
      ClockMoves(Clock(t, before), e);
    }
  }

  /** So an update that is not refused keeps its session for the minute after its stamp. */
  lemma UpdateKeepsForAMinute(m: Sessions, e: Event, events: seq<Event>)
    requires e.Update? && !Refused(m, e.key) && Clocked(e.stamp, events)
    requires forall r | r in SweepReadings(events, e.key) :: r <= e.stamp + 60 * SECOND
    ensures e.key in Run(Next(m, e), events)
  {
    hide Run, Clocked, SweepReadings;
    UpdatedIsKept(Next(m, e), events, e.key, e.stamp);
  }

  lemma ClockMoves(clock: int, e: Event)
    requires Timed(clock, e)
    ensures clock <= ClockAfter(clock, e)
  {
  }
}
