/** The transmitted-bytes counter (refreshBandwidth in internal/server/server.go): each read
    of the bandwidth samples adds those newer than a watermark. */
module Bandwidth {
  import opened Ints
  import opened Sequences

  datatype Sample = Sample(at: int, bytes: int)

  function Bytes(s: Sample): int {
    s.bytes
  }

  function NewerBytes(mark: int): Sample -> int {
    (s: Sample) => if s.at > mark then s.bytes else 0
  }

  /** The samples in (low, high], in order. */
  function Within(samples: seq<Sample>, low: int, high: int): seq<Sample> {
    if samples == [] then []
    else
      var before := Within(samples[..|samples| - 1], low, high);
      var s := samples[|samples| - 1];
      if low < s.at <= high then before + [s] else before
  }

  /** The watermark after a read: the newest time seen. */
  function Mark(mark: int, samples: seq<Sample>): int {
    if samples == [] then mark else Max(Mark(mark, samples[..|samples| - 1]), samples[|samples| - 1].at)
  }

  lemma {:induction false} MarkMeans(mark: int, samples: seq<Sample>)
    ensures mark <= Mark(mark, samples)
    ensures forall s | s in samples :: s.at <= Mark(mark, samples)
    ensures Mark(mark, samples) == mark || exists s :: s in samples && s.at == Mark(mark, samples)
  {
    if samples != [] {
      var n := |samples| - 1;
      MarkMeans(mark, samples[..n]);
      assert samples == samples[..n] + [samples[n]];
    }
  }

  /** The order of the samples does not matter to the watermark. */
  lemma MarkIgnoresOrder(mark: int, a: seq<Sample>, b: seq<Sample>)
    requires multiset(a) == multiset(b)
    ensures Mark(mark, a) == Mark(mark, b)
  {
    MarkMeans(mark, a);
    MarkMeans(mark, b);
    assert forall s :: s in a <==> s in multiset(a);
    assert forall s :: s in b <==> s in multiset(b);
  }

  /** The answers of successive reads; None is a read that failed. */
  type Rounds = seq<Option<seq<Sample>>>

  function MarkAfter(start: int, rounds: Rounds): int {
    if rounds == [] then start
    else
      var before := MarkAfter(start, rounds[..|rounds| - 1]);
      match rounds[|rounds| - 1]
      case None => before
      case Some(samples) => Mark(before, samples)
  }

  /** The counter after these reads, read by read as the meter adds. */
  function Counter(start: int, rounds: Rounds): int {
    if rounds == [] then 0
    else
      var before := rounds[..|rounds| - 1];
      Counter(start, before)
      + match rounds[|rounds| - 1]
        case None => 0
        case Some(samples) => Sum(samples, NewerBytes(MarkAfter(start, before)))
  }

  lemma RoundSnoc(start: int, rounds: Rounds, r: Option<seq<Sample>>)
    ensures MarkAfter(start, rounds + [r])
         == if r.None? then MarkAfter(start, rounds) else Mark(MarkAfter(start, rounds), r.value)
    ensures Counter(start, rounds + [r])
         == Counter(start, rounds) + if r.None? then 0 else Sum(r.value, NewerBytes(MarkAfter(start, rounds)))
  {
    assert (rounds + [r])[..|rounds|] == rounds;
  }

  class Meter {
    var transmitted: int
    var mark: int
    var known: bool
    ghost const start: int
    ghost var rounds: Rounds

    /** The counter and the watermark are those of all the reads so far. */
    ghost predicate Valid()
      reads this
    {
      transmitted == Counter(start, rounds) && mark == MarkAfter(start, rounds)
    }

    constructor (now: int)
      ensures Valid() && transmitted == 0 && mark == now && start == now && !known && rounds == []
    {
      transmitted, mark, known := 0, now, false;
      start, rounds := now, [];
    }

    /** refreshBandwidth: adds exactly the samples newer than the watermark, whatever their
        order; a failed read changes nothing. */
    method RefreshBandwidth(samples: Option<seq<Sample>>)
      requires Valid()
      modifies this
      ensures Valid() && rounds == old(rounds) + [samples]
      ensures samples.None? ==> transmitted == old(transmitted) && mark == old(mark) && known == old(known)
      ensures (samples.Some? ==>
                known && mark == Mark(old(mark), samples.value)
                && transmitted == old(transmitted) + Sum(samples.value, NewerBytes(old(mark))))
    {
      hide Counter, MarkAfter;
      RoundSnoc(start, rounds, samples);
      rounds := rounds + [samples];
      if samples.None? {
        return;
      }
      var updates := SortBy(samples.value, (s: Sample) => s.at);
      known := true;
      var highest := mark;
      ghost var before := transmitted;
      for i := 0 to |updates|
        invariant mark == old(mark) && known && rounds == old(rounds) + [samples]
        invariant transmitted == before + Sum(updates[..i], NewerBytes(mark))
        invariant highest == Mark(mark, updates[..i])
      {
        var u := updates[i];
        assert updates[..i + 1] == updates[..i] + [u] && updates[..i + 1][..i] == updates[..i];
        MarkMeans(mark, updates[..i]);
        if u.at > mark {
          transmitted := transmitted + u.bytes;
          if u.at > highest {
            highest := u.at;
          }
        }
      }
      assert updates[..|updates|] == updates;
      SumPermutation(updates, samples.value, NewerBytes(mark));
      MarkIgnoresOrder(mark, updates, samples.value);
      mark := highest;
    }
  }

  // ---- runs ----

  /** The samples that read n adds to the counter. */
  function AddedBy(start: int, rounds: Rounds, n: nat): seq<Sample>
    requires n < |rounds|
  {
    match rounds[n]
    case None => []
    case Some(samples) => Within(samples, MarkAfter(start, rounds[..n]), MarkAfter(start, rounds[..n + 1]))
  }

  function Added(start: int, rounds: Rounds, n: nat): seq<Sample>
    requires n <= |rounds|
  {
    if n == 0 then [] else Added(start, rounds, n - 1) + AddedBy(start, rounds, n - 1)
  }

  lemma {:induction false} WithinMeans(samples: seq<Sample>, low: int, high: int)
    ensures forall s | s in Within(samples, low, high) :: low < s.at <= high
    ensures (forall s | s in samples :: s.at <= high) ==> Sum(samples, NewerBytes(low)) == Sum(Within(samples, low, high), Bytes)
  {
    if samples != [] {
      var n := |samples| - 1;
      WithinMeans(samples[..n], low, high);
      assert forall s | s in samples[..n] :: s in samples;
      assert samples[n] in samples;
      if low < samples[n].at <= high {
        SumSnoc(Within(samples[..n], low, high), samples[n], Bytes);
      }
    }
  }

  lemma MarkStep(start: int, rounds: Rounds, n: nat)
    requires n < |rounds|
    ensures MarkAfter(start, rounds[..n + 1])
         == if rounds[n].None? then MarkAfter(start, rounds[..n]) else Mark(MarkAfter(start, rounds[..n]), rounds[n].value)
  {
    assert rounds[..n + 1][..n] == rounds[..n];
  }

  lemma {:induction false} MarkGrows(start: int, rounds: Rounds, i: nat, j: nat)
    requires i <= j <= |rounds|
    ensures MarkAfter(start, rounds[..i]) <= MarkAfter(start, rounds[..j])
    decreases j - i
  {
    if i < j {
      MarkGrows(start, rounds, i, j - 1);
      MarkStep(start, rounds, j - 1);
      if rounds[j - 1].Some? {
        MarkMeans(MarkAfter(start, rounds[..j - 1]), rounds[j - 1].value);
      }
    }
  }

  lemma AddedByWithin(start: int, rounds: Rounds, n: nat)
    requires n < |rounds|
    ensures forall s | s in AddedBy(start, rounds, n) :: MarkAfter(start, rounds[..n]) < s.at <= MarkAfter(start, rounds[..n + 1])
    ensures rounds[n].Some? ==> Sum(rounds[n].value, NewerBytes(MarkAfter(start, rounds[..n]))) == Sum(AddedBy(start, rounds, n), Bytes)
  {
    if rounds[n].Some? {
      MarkStep(start, rounds, n);
      MarkMeans(MarkAfter(start, rounds[..n]), rounds[n].value);
      WithinMeans(rounds[n].value, MarkAfter(start, rounds[..n]), MarkAfter(start, rounds[..n + 1]));
    }
  }

  /** No sample is added twice: what a later read adds is newer than all an earlier one did. */
  lemma ReadsAddApart(start: int, rounds: Rounds, i: nat, j: nat, a: Sample, b: Sample)
    requires i < j < |rounds| && a in AddedBy(start, rounds, i) && b in AddedBy(start, rounds, j)
    ensures a.at < b.at
  {
    AddedByWithin(start, rounds, i);
    AddedByWithin(start, rounds, j);
    MarkGrows(start, rounds, i + 1, j);
  }

  lemma {:induction false} AddedWithin(start: int, rounds: Rounds, n: nat)
    requires n <= |rounds|
    ensures forall s | s in Added(start, rounds, n) :: start < s.at <= MarkAfter(start, rounds[..n])
  {
    if n > 0 {
      AddedWithin(start, rounds, n - 1);
      AddedByWithin(start, rounds, n - 1);
      MarkGrows(start, rounds, n - 1, n);
      MarkGrows(start, rounds, 0, n - 1);
      assert rounds[..0] == [];
    }
  }

  lemma {:induction false} WithinSplits(log: seq<Sample>, low: int, mid: int, high: int)
    requires low <= mid <= high
    ensures multiset(Within(log, low, high)) == multiset(Within(log, low, mid)) + multiset(Within(log, mid, high))
  {
    if log != [] {
      WithinSplits(log[..|log| - 1], low, mid, high);
    }
  }

  lemma SplitEqual(a: multiset<Sample>, b: multiset<Sample>, c: multiset<Sample>, d: multiset<Sample>, mid: int)
    requires forall s | s in a || s in c :: s.at <= mid
    requires forall s | s in b || s in d :: mid < s.at
    ensures a + b == c + d <==> a == c && b == d
  {
    if a + b == c + d {
      forall s: Sample ensures a[s] == c[s] && b[s] == d[s] {
        assert (a + b)[s] == (c + d)[s];
      }
    }
  }

  /** A read adds all that the server's log holds between its two watermarks. */
  ghost predicate Covers(start: int, rounds: Rounds, log: seq<Sample>, n: nat)
    requires n < |rounds|
  {
    multiset(AddedBy(start, rounds, n)) == multiset(Within(log, MarkAfter(start, rounds[..n]), MarkAfter(start, rounds[..n + 1])))
  }

  lemma OneMoreRead(start: int, rounds: Rounds, log: seq<Sample>, m: nat)
    requires m < |rounds|
    ensures multiset(Added(start, rounds, m + 1)) == multiset(Within(log, start, MarkAfter(start, rounds[..m + 1])))
       <==> multiset(Added(start, rounds, m)) == multiset(Within(log, start, MarkAfter(start, rounds[..m])))
            && Covers(start, rounds, log, m)
  {
    hide Within, AddedBy, MarkAfter;
    MarkGrows(start, rounds, m, m + 1);
    MarkGrows(start, rounds, 0, m);
    assert MarkAfter(start, rounds[..0]) == start by { NothingRead(start, rounds); }
    var mid, high := MarkAfter(start, rounds[..m]), MarkAfter(start, rounds[..m + 1]);
    WithinSplits(log, start, mid, high);
    AddedWithin(start, rounds, m);
    AddedByWithin(start, rounds, m);
    WithinMeans(log, start, mid);
    WithinMeans(log, mid, high);
    SplitEqual(multiset(Added(start, rounds, m)), multiset(AddedBy(start, rounds, m)),
               multiset(Within(log, start, mid)), multiset(Within(log, mid, high)), mid);
  }

  /** The counter has every sample of the server's log up to the watermark exactly once, if
      and only if no read missed one between its watermarks: a window that scrolled past, or
      a sample that appeared behind the watermark. */
  lemma {:induction false} CountsTheLogIff(start: int, rounds: Rounds, log: seq<Sample>, n: nat)
    requires n <= |rounds|
    ensures multiset(Added(start, rounds, n)) == multiset(Within(log, start, MarkAfter(start, rounds[..n])))
       <==> forall i | 0 <= i < n :: Covers(start, rounds, log, i)
  {
    hide *;
    if n == 0 {
      NothingWithin(log, start);
      NothingRead(start, rounds);
      NothingAdded(start, rounds);
    } else {
      CountsTheLogIff(start, rounds, log, n - 1);
      OneMoreRead(start, rounds, log, n - 1);
    }
  }

  lemma {:induction false} NothingWithin(log: seq<Sample>, at: int)
    ensures Within(log, at, at) == []
  {
    if log != [] {
      NothingWithin(log[..|log| - 1], at);
    }
  }

  lemma NothingAdded(start: int, rounds: Rounds)
    ensures Added(start, rounds, 0) == []
  {
  }

  lemma NothingRead(start: int, rounds: Rounds)
    ensures MarkAfter(start, rounds[..0]) == start
  {
  }

  lemma {:induction false} CounterIsAdded(start: int, rounds: Rounds, n: nat)
    requires n <= |rounds|
    ensures Counter(start, rounds[..n]) == Sum(Added(start, rounds, n), Bytes)
  {
    hide MarkAfter, Within, Sum;
    if n > 0 {
      assert rounds[..n][..n - 1] == rounds[..n - 1];
      CounterIsAdded(start, rounds, n - 1);
      AddedByWithin(start, rounds, n - 1);
      SumConcat(Added(start, rounds, n - 1), AddedBy(start, rounds, n - 1), Bytes);
      assert rounds[n - 1].None? ==> AddedBy(start, rounds, n - 1) == [];
    }
    NoBytes();
  }

  lemma NoBytes()
    ensures Sum([], Bytes) == 0
  {
  }

  /** When every read covers its span, the published counter is the log's own sum from the
      start to the watermark, whatever reads failed, overlapped or came in any order. */
  lemma CounterIsTheLogSum(start: int, rounds: Rounds, log: seq<Sample>)
    requires forall i | 0 <= i < |rounds| :: Covers(start, rounds, log, i)
    ensures Counter(start, rounds) == Sum(Within(log, start, MarkAfter(start, rounds)), Bytes)
  {
    hide Covers;
    CountsTheLogIff(start, rounds, log, |rounds|);
    assert rounds[..|rounds|] == rounds;
    CounterIsAdded(start, rounds, |rounds|);
    SumPermutation(Added(start, rounds, |rounds|), Within(log, start, MarkAfter(start, rounds)), Bytes);
  }

  // ---- what a server must do ----

  /** Read n answers with the end of the log as it then stood, from some time back. */
  ghost predicate AnswersFrom(samples: seq<Sample>, log: seq<Sample>, back: int) {
    forall s: Sample :: multiset(samples)[s] == if back < s.at then multiset(log)[s] else 0
  }

  /** Up to this time the log has not changed since. */
  ghost predicate SettledTo(log: seq<Sample>, final: seq<Sample>, mark: int) {
    forall s: Sample | s.at <= mark :: multiset(log)[s] == multiset(final)[s]
  }

  /** The server's side of read n, told from its answers and its log alone: the answer
      reaches back to the newest time answered so far, and the log later gains nothing at or
      below the newest time answered by now. */
  ghost predicate Serves(start: int, rounds: Rounds, logs: seq<seq<Sample>>, backs: seq<int>, final: seq<Sample>, n: nat)
    requires n < |rounds| == |logs| == |backs|
  {
    rounds[n].Some? ==>
      && AnswersFrom(rounds[n].value, logs[n], backs[n]) && backs[n] <= MarkAfter(start, rounds[..n])
      && SettledTo(logs[n], final, MarkAfter(start, rounds[..n + 1]))
  }

  lemma {:induction false} WithinCounts(samples: seq<Sample>, low: int, high: int, s: Sample)
    ensures multiset(Within(samples, low, high))[s] == if low < s.at <= high then multiset(samples)[s] else 0
  {
    if samples != [] {
      var n := |samples| - 1;
      WithinCounts(samples[..n], low, high, s);
      assert samples == samples[..n] + [samples[n]];
    }
  }

  /** Such a read misses nothing between its two watermarks. */
  lemma ServedReadCovers(start: int, rounds: Rounds, logs: seq<seq<Sample>>, backs: seq<int>, final: seq<Sample>, n: nat)
    requires n < |rounds| == |logs| == |backs| && Serves(start, rounds, logs, backs, final, n)
    ensures Covers(start, rounds, final, n)
  {
    hide Within, MarkAfter;
    var low, high := MarkAfter(start, rounds[..n]), MarkAfter(start, rounds[..n + 1]);
    MarkStep(start, rounds, n);
    if rounds[n].None? {
      NothingWithin(final, low);
    } else {
      var samples := rounds[n].value;
      forall s: Sample ensures multiset(Within(samples, low, high))[s] == multiset(Within(final, low, high))[s] {
        WithinCounts(samples, low, high, s);
        WithinCounts(final, low, high, s);
      }
    }
  }

  /** So a server whose every answer reaches back to the last one, and whose log only grows
      past what it has answered, is counted exactly. */
  lemma ServedLogIsCounted(start: int, rounds: Rounds, logs: seq<seq<Sample>>, backs: seq<int>, final: seq<Sample>)
    requires |rounds| == |logs| == |backs|
    requires forall n | 0 <= n < |rounds| :: Serves(start, rounds, logs, backs, final, n)
    ensures Counter(start, rounds) == Sum(Within(final, start, MarkAfter(start, rounds)), Bytes)
  {
    hide Serves, Covers;
    forall n | 0 <= n < |rounds| ensures Covers(start, rounds, final, n) {
      ServedReadCovers(start, rounds, logs, backs, final, n);
    }
    CounterIsTheLogSum(start, rounds, final);
  }

  /** A sample missed: the second answer no longer reaches back to the first. */
  lemma ScrolledPastIsMissed() returns (rounds: Rounds, log: seq<Sample>)
    ensures |rounds| == 2 && !Covers(0, rounds, log, 1)
    ensures MarkAfter(0, rounds) == 3 && Counter(0, rounds) == 40
    ensures Sum(Within(log, 0, 3), Bytes) == 60
  {
    var a, b, c := Sample(1, 10), Sample(2, 20), Sample(3, 30);
    log := [a, b, c];
    rounds := [Some([a]), Some([c])];
    hide Within, MarkAfter, Counter, Sum;
    RoundsOf(a, c);
    LogOf(a, b, c);
    WithinCounts([c], 1, 3, b);
    WithinCounts(log, 1, 3, b);
    assert multiset([c])[b] == 0 && multiset([a, b, c])[b] == 1;
  }

  lemma LogOf(a: Sample, b: Sample, c: Sample)
    requires a == Sample(1, 10) && b == Sample(2, 20) && c == Sample(3, 30)
    ensures Sum(Within([a, b, c], 0, 3), Bytes) == 60
  {
    hide Within, Sum;
    assert Within([], 0, 3) == [] by { NothingIn(0, 3); }
    WithinSnoc([], a, 0, 3);
    WithinSnoc([a], b, 0, 3);
    WithinSnoc([a, b], c, 0, 3);
    assert [] + [a] == [a] && [a] + [b] == [a, b] && [a, b] + [c] == [a, b, c];
    SumSnoc([], a, Bytes);
    SumSnoc([a], b, Bytes);
    SumSnoc([a, b], c, Bytes);
    NoBytes();
  }

  lemma NothingIn(low: int, high: int)
    ensures Within([], low, high) == []
  {
  }

  lemma WithinSnoc(samples: seq<Sample>, s: Sample, low: int, high: int)
    ensures Within(samples + [s], low, high) == Within(samples, low, high) + if low < s.at <= high then [s] else []
  {
    assert (samples + [s])[..|samples|] == samples;
  }

  lemma RoundsOf(a: Sample, c: Sample)
    requires a == Sample(1, 10) && c == Sample(3, 30)
    ensures var rounds := [Some([a]), Some([c])];
            && MarkAfter(0, rounds[..1]) == 1 && MarkAfter(0, rounds[..2]) == 3 && MarkAfter(0, rounds) == 3
            && Counter(0, rounds) == 40
  {
    RoundSnoc(0, [], Some([a]));
    RoundSnoc(0, [Some([a])], Some([c]));
    assert [] + [Some([a])] == [Some([a])] && [Some([a])] + [Some([c])] == [Some([a]), Some([c])];
    assert [Some([a]), Some([c])][..1] == [Some([a])] && [Some([a]), Some([c])][..2] == [Some([a]), Some([c])];
    SumSnoc([], a, NewerBytes(0));
    SumSnoc([], c, NewerBytes(1));
    assert [] + [a] == [a] && [] + [c] == [c] && [a][..0] == [] && [c][..0] == [];
  }
}
