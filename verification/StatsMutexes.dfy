/**
 The latency statistics of the full client. update_latency_stats takes latency_mutex_ for the
 window, lets it go, and then takes stats_mutex_ for the aggregates; reset_stats takes
 stats_mutex_ and, inside it, latency_mutex_. Any number of threads run these at once; one
 step is the taking of a mutex or one critical section.
 */
module StatsMutexes {
  import opened Words

  /** The most measurements that the window keeps. */
  const WINDOW: nat := 10000

  /** The values of a default ClientStats. */
  datatype Aggregates = Aggregates(total: Word, min: Word, max: Word)
  const CLEARED: Aggregates := Aggregates(0, MAX_WORD, 0)

  /** What a thread does next. */
  datatype Pc =
    // update_latency_stats
    | WantWindow(sample: Word)
    | InWindow(sample: Word)
    | WantStats(sample: Word)
    | InStats(sample: Word)
    // reset_stats
    | WantReset
    | InReset
    | WantClear     // has reset the aggregates, holds stats_mutex_
    | InClear       // holds both
    | Leaving
    // any other use of stats_mutex_, such as get_stats
    | WantTouch
    | InTouch
    | Done

  datatype Mutex = Free | HeldBy(thread: nat)

  /**
   The last three fields record the past: the samples pushed since the window was last
   cleared, the samples folded into the aggregates since they were last reset, and the
   samples that were between the two critical sections when the window was last cleared.
   */
  datatype State = State(
    threads: seq<Pc>, statsMutex: Mutex, latencyMutex: Mutex,
    window: seq<Word>, stats: Aggregates,
    pushes: seq<Word>, folded: seq<Word>, carried: seq<Word>)

  predicate WantsStatsMutex(pc: Pc) { pc.WantStats? || pc.WantReset? || pc.WantTouch? }
  predicate WantsLatencyMutex(pc: Pc) { pc.WantWindow? || pc.WantClear? }
  predicate HasStatsMutex(pc: Pc) { pc.InStats? || pc.InReset? || pc.WantClear? || pc.InClear? || pc.Leaving? || pc.InTouch? }
  predicate HasLatencyMutex(pc: Pc) { pc.InWindow? || pc.InClear? }

  function Push(window: seq<Word>, sample: Word): seq<Word> {
    var longer := window + [sample];
    if |longer| > WINDOW then longer[1..] else longer
  }

  function Fold(a: Aggregates, sample: Word): Aggregates {
    Aggregates(Wrap(a.total + sample), if sample < a.min then sample else a.min, if sample > a.max then sample else a.max)
  }

  predicate Enabled(s: State, i: nat) {
    && i < |s.threads| && !s.threads[i].Done?
    && (WantsStatsMutex(s.threads[i]) ==> s.statsMutex == Free)
    && (WantsLatencyMutex(s.threads[i]) ==> s.latencyMutex == Free)
  }

  function Next(s: State, i: nat): State
    requires Enabled(s, i)
  {
    match s.threads[i]
    case WantWindow(x) => s.(threads := s.threads[i := InWindow(x)], latencyMutex := HeldBy(i))
    case InWindow(x) =>
      s.(threads := s.threads[i := WantStats(x)], latencyMutex := Free,
         window := Push(s.window, x), pushes := s.pushes + [x])
    case WantStats(x) => s.(threads := s.threads[i := InStats(x)], statsMutex := HeldBy(i))
    case InStats(x) =>
      s.(threads := s.threads[i := Done], statsMutex := Free,
         stats := Fold(s.stats, x), folded := s.folded + [x])
    case WantReset => s.(threads := s.threads[i := InReset], statsMutex := HeldBy(i))
    case InReset => s.(threads := s.threads[i := WantClear], stats := CLEARED, folded := [])
    case WantClear => s.(threads := s.threads[i := InClear], latencyMutex := HeldBy(i))
    case InClear =>
      s.(threads := s.threads[i := Leaving], latencyMutex := Free,
         window := [], pushes := [], carried := InFlight(s.threads))
    case Leaving => s.(threads := s.threads[i := Done], statsMutex := Free)
    case WantTouch => s.(threads := s.threads[i := InTouch], statsMutex := HeldBy(i))
    case InTouch => s.(threads := s.threads[i := Done], statsMutex := Free)
  }

  predicate Flies(pc: Pc) { pc.WantStats? || pc.InStats? }

  /** The samples of the threads that are between their push and their fold. */
  function InFlight(threads: seq<Pc>): seq<Word> {
    if threads == [] then []
    else
      var last := threads[|threads| - 1];
      InFlight(threads[..|threads| - 1]) + if Flies(last) then [last.sample] else []
  }

  ghost predicate Initial(s: State) {
    && s == State(s.threads, Free, Free, [], CLEARED, [], [], [])
    && forall i :: 0 <= i < |s.threads| ==>
         s.threads[i].WantWindow? || s.threads[i].WantReset? || s.threads[i].WantTouch?
  }

  ghost predicate Steps(s: State, t: State) {
    exists i :: Enabled(s, i) && t == Next(s, i)
  }

  ghost predicate Run(tr: seq<State>) {
    && tr != [] && Initial(tr[0])
    && forall k :: 0 <= k < |tr| - 1 ==> Steps(tr[k], tr[k + 1])
  }

  // The mutexes.

  ghost predicate MutexInv(s: State) {
    && (forall i :: 0 <= i < |s.threads| ==> (HasStatsMutex(s.threads[i]) <==> s.statsMutex == HeldBy(i)))
    && (forall i :: 0 <= i < |s.threads| ==> (HasLatencyMutex(s.threads[i]) <==> s.latencyMutex == HeldBy(i)))
    && (s.statsMutex.HeldBy? ==> s.statsMutex.thread < |s.threads|)
    && (s.latencyMutex.HeldBy? ==> s.latencyMutex.thread < |s.threads|)
  }

  lemma MutexInvStep(s: State, i: nat)
    requires MutexInv(s) && Enabled(s, i)
    ensures MutexInv(Next(s, i))
  {
    var t := Next(s, i);
    assert forall k :: 0 <= k < |s.threads| && k != i ==> t.threads[k] == s.threads[k];
  }

  // The window and the aggregates.

  /** The last measurements pushed, at most WINDOW of them. */
  function Newest(pushes: seq<Word>): seq<Word> {
    if |pushes| <= WINDOW then pushes else pushes[|pushes| - WINDOW..]
  }

  /** Folding a whole sequence, first to last. */
  function FoldAll(samples: seq<Word>): Aggregates {
    if samples == [] then CLEARED else Fold(FoldAll(samples[..|samples| - 1]), samples[|samples| - 1])
  }

  /** The window in figures: the last 10000 samples, in order, or all if there are no more. */
  lemma NewestAreLast(pushes: seq<Word>)
    ensures |Newest(pushes)| == if |pushes| < 10000 then |pushes| else 10000
    ensures Newest(pushes) == pushes[|pushes| - |Newest(pushes)|..]
  {
    assert pushes[0..] == pushes;
  }

  lemma PushKeepsNewest(pushes: seq<Word>, x: Word)
    ensures Push(Newest(pushes), x) == Newest(pushes + [x])
  {
  }

  /** What the aggregates mean: the sum of the samples modulo 2^64, and their extremes. */
  lemma {:induction false} FoldAllIsExact(samples: seq<Word>)
    ensures var a := FoldAll(samples);
      && a.total == Wrap(Sum(samples))
      && (forall k :: 0 <= k < |samples| ==> a.min <= samples[k] <= a.max)
      && (samples != [] ==> a.min in samples && a.max in samples)
  {
    if samples != [] {
      var before, x := samples[..|samples| - 1], samples[|samples| - 1];
      FoldAllIsExact(before);
      WrapAdd(Sum(before), x);
      assert samples == before + [x];
      assert before != [] ==> before[0] <= FoldAll(before).max && FoldAll(before).min <= before[0];
    }
  }

  // The samples.

  /** How often x occurs. */
  function Count(xs: seq<Word>, x: Word): nat {
    multiset(xs)[x]
  }

  function One(present: bool): nat { if present then 1 else 0 }

  lemma CountAppend(xs: seq<Word>, y: Word, x: Word)
    ensures Count(xs + [y], x) == Count(xs, x) + One(y == x)
  {
  }

  predicate FliesAs(pc: Pc, x: Word) { Flies(pc) && pc.sample == x }

  /** When thread i moves on, what is in flight changes by that thread's sample. */
  lemma {:induction false} InFlightUpdate(threads: seq<Pc>, i: nat, pc: Pc, x: Word)
    requires i < |threads|
    ensures Count(InFlight(threads[i := pc]), x) + One(FliesAs(threads[i], x))
         == Count(InFlight(threads), x) + One(FliesAs(pc, x))
  {
    var last := |threads| - 1;
    var changed := threads[i := pc];
    LastFlies(threads, x);
    LastFlies(changed, x);
    if i < last {
      assert changed[..last] == threads[..last][i := pc] && changed[last] == threads[last];
      InFlightUpdate(threads[..last], i, pc, x);
    } else {
      assert changed[..last] == threads[..last] && changed[last] == pc;
    }
  }

  lemma LastFlies(threads: seq<Pc>, x: Word)
    requires threads != []
    ensures var last := |threads| - 1;
      Count(InFlight(threads), x) == Count(InFlight(threads[..last]), x) + One(FliesAs(threads[last], x))
  {
    var last := |threads| - 1;
    if Flies(threads[last]) {
      CountAppend(InFlight(threads[..last]), threads[last].sample, x);
    } else {
      assert InFlight(threads) == InFlight(threads[..last]);
    }
  }

  /** Some thread has reset the aggregates and has not cleared the window yet. */
  ghost predicate Resetting(s: State) {
    exists i :: 0 <= i < |s.threads| && (s.threads[i].WantClear? || s.threads[i].InClear?)
  }

  /** Each sample was pushed or carried as often as it was folded or is in flight. */
  ghost predicate Accounted(s: State) {
    forall x: Word :: Count(s.pushes, x) + Count(s.carried, x) == Count(s.folded, x) + Count(InFlight(s.threads), x)
  }

  ghost predicate SampleInv(s: State) {
    && s.window == Newest(s.pushes)
    && s.stats == FoldAll(s.folded)
    && if Resetting(s) then s.folded == [] else Accounted(s)
  }

  lemma OneResetter(s: State, i: nat)
    requires MutexInv(s) && i < |s.threads| && HasStatsMutex(s.threads[i])
    ensures forall k :: 0 <= k < |s.threads| && k != i ==> !HasStatsMutex(s.threads[k])
    ensures Resetting(s) <==> s.threads[i].WantClear? || s.threads[i].InClear?
  {
  }

  lemma ResettingStep(s: State, i: nat)
    requires MutexInv(s) && Enabled(s, i)
    ensures Resetting(Next(s, i)) <==>
      if s.threads[i].InReset? then true else if s.threads[i].InClear? then false else Resetting(s)
  {
    var t := Next(s, i);
    assert forall k :: 0 <= k < |s.threads| && k != i ==> t.threads[k] == s.threads[k];
    if Resetting(s) && !s.threads[i].InClear? {
      var k :| 0 <= k < |s.threads| && (s.threads[k].WantClear? || s.threads[k].InClear?);
      assert t.threads[k].WantClear? || t.threads[k].InClear?;
    }
    if s.threads[i].InReset? {
      assert t.threads[i].WantClear?;
    }
    if HasStatsMutex(s.threads[i]) {
      OneResetter(s, i);
    }
  }

  lemma AccountedStep(s: State, i: nat)
    requires Enabled(s, i) && Accounted(s) && !s.threads[i].InReset? && !s.threads[i].InClear?
    ensures Accounted(Next(s, i))
  {
    var t, pc := Next(s, i), s.threads[i];
    assert t.threads == s.threads[i := t.threads[i]] && t.carried == s.carried;
    forall x: Word
      ensures Count(t.pushes, x) + Count(t.carried, x) == Count(t.folded, x) + Count(InFlight(t.threads), x)
    {
      InFlightUpdate(s.threads, i, t.threads[i], x);
      if pc.InWindow? {
        CountAppend(s.pushes, pc.sample, x);
      } else if pc.InStats? {
        CountAppend(s.folded, pc.sample, x);
      } else {
        assert t.pushes == s.pushes && t.folded == s.folded;
      }
    }
  }

  lemma ClearingAccounts(s: State, i: nat)
    requires Enabled(s, i) && s.threads[i].InClear? && s.folded == []
    ensures Accounted(Next(s, i))
  {
    var t := Next(s, i);
    forall x: Word ensures Count(t.carried, x) == Count(InFlight(t.threads), x) {
      InFlightUpdate(s.threads, i, Leaving, x);
    }
  }

  lemma SampleInvStep(s: State, i: nat)
    requires MutexInv(s) && SampleInv(s) && Enabled(s, i)
    ensures SampleInv(Next(s, i))
  {
    ResettingStep(s, i);
    match s.threads[i]
    case InWindow(x) =>
      PushKeepsNewest(s.pushes, x);
      if !Resetting(s) { AccountedStep(s, i); }
    case InStats(x) =>
      OneResetter(s, i);
      assert (s.folded + [x])[..|s.folded|] == s.folded;
      AccountedStep(s, i);
    case InReset =>
    case InClear => ClearingAccounts(s, i);
    case _ =>
      if !Resetting(s) { AccountedStep(s, i); }
  }

  lemma {:induction false} RunInv(tr: seq<State>, k: nat)
    requires Run(tr) && k < |tr|
    ensures MutexInv(tr[k]) && SampleInv(tr[k])
  {
    if k > 0 {
      RunInv(tr, k - 1);
      assert Steps(tr[k - 1], tr[k]);
      var i :| Enabled(tr[k - 1], i) && tr[k] == Next(tr[k - 1], i);
      MutexInvStep(tr[k - 1], i);
      SampleInvStep(tr[k - 1], i);
    } else {
      NothingFlying(tr[0].threads);
    }
  }

  lemma {:induction false} NothingFlying(threads: seq<Pc>)
    requires forall i :: 0 <= i < |threads| ==> !Flies(threads[i])
    ensures InFlight(threads) == []
  {
    if threads != [] {
      NothingFlying(threads[..|threads| - 1]);
    }
  }

  /**
   In every state of every run outside the middle of a reset, the samples pushed since the
   window was cleared, and those in flight when it was, are exactly the samples folded in
   since the aggregates were reset and those in flight now. The window holds the newest of
   the pushed samples in order, and the aggregates are exactly those of the folded samples.
   */
  lemma SamplesAreAccountedFor(tr: seq<State>, k: nat)
    requires Run(tr) && k < |tr| && !Resetting(tr[k])
    ensures var s := tr[k];
      && multiset(s.pushes + s.carried) == multiset(s.folded + InFlight(s.threads))
      && s.window == Newest(s.pushes)
      && s.stats.total == Wrap(Sum(s.folded))
      && (forall j :: 0 <= j < |s.folded| ==> s.stats.min <= s.folded[j] <= s.stats.max)
      && (s.folded != [] ==> s.stats.min in s.folded && s.stats.max in s.folded)
  {
    RunInv(tr, k);
    FoldAllIsExact(tr[k].folded);
    var s := tr[k];
    forall x: Word
      ensures multiset(s.pushes + s.carried)[x] == multiset(s.folded + InFlight(s.threads))[x]
    {
      assert Count(s.pushes, x) + Count(s.carried, x) == Count(s.folded, x) + Count(InFlight(s.threads), x);
    }
  }

  /** What a reset leaves behind: nothing but the samples of the threads that are mid-update. */
  lemma ResetCarriesOnlyInFlight(tr: seq<State>, k: nat, i: nat)
    requires Run(tr) && k < |tr| && Enabled(tr[k], i) && tr[k].threads[i].InClear?
    ensures var t := Next(tr[k], i);
      && t.window == [] && t.pushes == [] && t.stats == CLEARED && t.folded == []
      && !Resetting(t) && multiset(t.carried) == multiset(InFlight(t.threads))
  {
    RunInv(tr, k);
    var t := Next(tr[k], i);
    ResettingStep(tr[k], i);
    assert Resetting(tr[k]);
    SampleInvStep(tr[k], i);
    forall x: Word ensures multiset(t.carried)[x] == multiset(InFlight(t.threads))[x] {
      assert Count(t.pushes, x) + Count(t.carried, x) == Count(t.folded, x) + Count(InFlight(t.threads), x);
    }
  }

  /** When all threads are done, the two copies differ by what was in flight at the last reset only. */
  lemma QuietSamples(tr: seq<State>, k: nat)
    requires Run(tr) && k < |tr| && forall i :: 0 <= i < |tr[k].threads| ==> tr[k].threads[i].Done?
    ensures multiset(tr[k].folded) == multiset(tr[k].pushes + tr[k].carried)
  {
    SamplesAreAccountedFor(tr, k);
    NothingFlying(tr[k].threads);
    assert tr[k].folded + [] == tr[k].folded;
  }

  // No deadlock.

  /** Thread i waits for a mutex that thread j holds. */
  ghost predicate WaitsFor(s: State, i: nat, j: nat) {
    && i < |s.threads| && j < |s.threads|
    && (|| (WantsStatsMutex(s.threads[i]) && s.statsMutex == HeldBy(j))
        || (WantsLatencyMutex(s.threads[i]) && s.latencyMutex == HeldBy(j)))
  }

  ghost predicate WaitChain(s: State, chain: seq<nat>) {
    forall k :: 0 <= k < |chain| - 1 ==> WaitsFor(s, chain[k], chain[k + 1])
  }

  /** No chain of waiting threads has more than three members, so in particular none is a cycle. */
  lemma NoWaitCycle(tr: seq<State>, k: nat, chain: seq<nat>)
    requires Run(tr) && k < |tr| && WaitChain(tr[k], chain)
    ensures |chain| <= 3
    ensures |chain| >= 2 ==> chain[0] != chain[|chain| - 1]
  {
    var s := tr[k];
    assert |chain| >= 2 ==> WaitsFor(s, chain[0], chain[1]);
    assert |chain| >= 3 ==> WaitsFor(s, chain[1], chain[2]);
    assert |chain| >= 4 ==> WaitsFor(s, chain[2], chain[3]);
    RunInv(tr, k);
  }

  /** As long as some thread is not done, some thread can take a step. */
  lemma SomeThreadCanStep(tr: seq<State>, k: nat, i: nat)
    requires Run(tr) && k < |tr| && i < |tr[k].threads| && !tr[k].threads[i].Done?
    ensures exists j :: Enabled(tr[k], j)
  {
    RunInv(tr, k);
    var s := tr[k];
    if !Enabled(s, i) {
      var j := if WantsStatsMutex(s.threads[i]) then s.statsMutex.thread else s.latencyMutex.thread;
      if !Enabled(s, j) {
        assert Enabled(s, s.latencyMutex.thread);
      }
    }
  }

  /** The steps a thread has before it. */
  function StepsLeft(pc: Pc): int {
    match pc
    case WantWindow(_) => 4
    case InWindow(_) => 3
    case WantStats(_) => 2
    case InStats(_) => 1
    case WantReset => 5
    case InReset => 4
    case WantClear => 3
    case InClear => 2
    case Leaving => 1
    case WantTouch => 2
    case InTouch => 1
    case Done => 0
  }

  lemma StepTakesOne(s: State, i: nat)
    requires Enabled(s, i)
    ensures Total(Next(s, i).threads, StepsLeft) == Total(s.threads, StepsLeft) - 1
  {
    var t := Next(s, i);
    TotalUpdate(s.threads, i, t.threads[i], StepsLeft);
    assert t.threads == s.threads[i := t.threads[i]];
  }

  /** An update takes four steps, a reset five and a look two: so every run comes to an end. */
  lemma {:induction false} RunsAreBounded(tr: seq<State>, k: nat)
    requires Run(tr) && k < |tr|
    ensures Total(tr[k].threads, StepsLeft) == Total(tr[0].threads, StepsLeft) - k
  {
    if k > 0 {
      RunsAreBounded(tr, k - 1);
      assert Steps(tr[k - 1], tr[k]);
      var i :| Enabled(tr[k - 1], i) && tr[k] == Next(tr[k - 1], i);
      StepTakesOne(tr[k - 1], i);
    }
  }

  /** A run that cannot go on has all its threads done, after as many steps as they had before them. */
  lemma EveryRunCompletes(tr: seq<State>, last: nat)
    requires Run(tr) && last == |tr| - 1 && forall i :: !Enabled(tr[last], i)
    ensures forall i :: 0 <= i < |tr[last].threads| ==> tr[last].threads[i].Done?
    ensures last == Total(tr[0].threads, StepsLeft)
  {
    forall i | 0 <= i < |tr[last].threads| ensures tr[last].threads[i].Done? {
      if !tr[last].threads[i].Done? {
        SomeThreadCanStep(tr, last, i);
      }
    }
    RunsAreBounded(tr, last);
    AllDone(tr[last].threads);
  }

  lemma {:induction false} AllDone(threads: seq<Pc>)
    requires forall i :: 0 <= i < |threads| ==> threads[i].Done?
    ensures Total(threads, StepsLeft) == 0
  {
    if threads != [] {
      AllDone(threads[..|threads| - 1]);
    }
  }
}
