/**
 The lock-free statistics of the latency client. Any number of calls of update_latency_stats
 run at once; each atomic operation of a call is one step, the scheduler picks the call that
 takes the next step, and compare_exchange_weak may fail for no reason.
 */
module AtomicStats {
  import opened Words

  datatype Shared = Shared(total: Word, min: Word, max: Word)

  /** The next atomic operation of a call; `cur` is its local current_min or current_max. */
  datatype Pc = AddTotal | LoadMin | TryMin(cur: Word) | LoadMax | TryMax(cur: Word) | Finished

  /**
   One call. The last five fields only record its past: the exchanges it lost because another
   call had changed the word, the ones it lost spuriously, and whether it won one.
   */
  datatype Call = Call(sample: Word, pc: Pc, minFails: nat, maxFails: nat, spurious: nat,
                       minWon: bool, maxWon: bool)

  datatype State = State(shared: Shared, calls: seq<Call>)

  /** The scheduler lets call `who` take its next step. */
  datatype Choice = Choice(who: nat, spurious: bool)

  function NewCall(sample: Word): Call {
    Call(sample, AddTotal, 0, 0, 0, false, false)
  }

  /** The values that reset_stats stores. */
  const RESET: Shared := Shared(0, MAX_WORD, 0)

  /** One atomic step of one call. */
  function StepCall(sh: Shared, c: Call, spurious: bool): (Shared, Call) {
    match c.pc
    case AddTotal =>
      (sh.(total := Wrap(sh.total + c.sample)), c.(pc := LoadMin))
    case LoadMin =>
      (sh, c.(pc := TryMin(sh.min)))
    case TryMin(cur) =>
      if !(c.sample < cur) then (sh, c.(pc := LoadMax))
      else if sh.min != cur then (sh, c.(pc := TryMin(sh.min), minFails := c.minFails + 1))
      else if spurious then (sh, c.(spurious := c.spurious + 1))
      else (sh.(min := c.sample), c.(pc := LoadMax, minWon := true))
    case LoadMax =>
      (sh, c.(pc := TryMax(sh.max)))
    case TryMax(cur) =>
      if !(c.sample > cur) then (sh, c.(pc := Finished))
      else if sh.max != cur then (sh, c.(pc := TryMax(sh.max), maxFails := c.maxFails + 1))
      else if spurious then (sh, c.(spurious := c.spurious + 1))
      else (sh.(max := c.sample), c.(pc := Finished, maxWon := true))
    case Finished =>
      (sh, c)
  }

  predicate Enabled(s: State, ch: Choice) {
    ch.who < |s.calls| && !s.calls[ch.who].pc.Finished?
  }

  function Next(s: State, ch: Choice): (t: State)
    requires Enabled(s, ch)
    ensures |t.calls| == |s.calls|
  {
    var (sh, c) := StepCall(s.shared, s.calls[ch.who], ch.spurious);
    State(sh, s.calls[ch.who := c])
  }

  predicate Legal(s: State, schedule: seq<Choice>)
    decreases |schedule|
  {
    schedule == [] || (Enabled(s, schedule[0]) && Legal(Next(s, schedule[0]), schedule[1..]))
  }

  function Exec(s: State, schedule: seq<Choice>): (t: State)
    requires Legal(s, schedule)
    ensures |t.calls| == |s.calls|
    decreases |schedule|
  {
    if schedule == [] then s else Exec(Next(s, schedule[0]), schedule[1..])
  }

  // What the calls have done so far.

  function Added(c: Call): int { if c.pc.AddTotal? then 0 else c.sample }
  function WonMin(c: Call): int { if c.minWon then 1 else 0 }
  function WonMax(c: Call): int { if c.maxWon then 1 else 0 }
  function Spurious(c: Call): int { c.spurious }

  predicate PastMin(c: Call) { c.pc.LoadMax? || c.pc.TryMax? || c.pc.Finished? }
  predicate PastMax(c: Call) { c.pc.Finished? }

  /** 1 when the call's local copy is out of date, so that its next exchange must fail. */
  function StaleMin(sh: Shared, c: Call): int { if c.pc.TryMin? && c.pc.cur != sh.min then 1 else 0 }
  function StaleMax(sh: Shared, c: Call): int { if c.pc.TryMax? && c.pc.cur != sh.max then 1 else 0 }

  ghost predicate CallOk(s: State, c: Call) {
    && (PastMin(c) ==> s.shared.min <= c.sample)
    && (PastMax(c) ==> s.shared.max >= c.sample)
    && (c.pc.TryMin? ==> s.shared.min <= c.pc.cur)
    && (c.pc.TryMax? ==> s.shared.max >= c.pc.cur)
    && (c.minWon ==> PastMin(c))
    && (c.maxWon ==> PastMax(c))
    && c.minFails + StaleMin(s.shared, c) <= Total(s.calls, WonMin) - WonMin(c)
    && c.maxFails + StaleMax(s.shared, c) <= Total(s.calls, WonMax) - WonMax(c)
  }

  ghost predicate MinIsWon(s: State) {
    exists i :: 0 <= i < |s.calls| && s.calls[i].minWon && s.calls[i].sample == s.shared.min
  }

  ghost predicate MaxIsWon(s: State) {
    exists i :: 0 <= i < |s.calls| && s.calls[i].maxWon && s.calls[i].sample == s.shared.max
  }

  /** What every reachable state keeps, when the shared words started as `base`. */
  ghost predicate Inv(base: Shared, s: State) {
    && s.shared.total == Wrap(base.total + Total(s.calls, Added))
    && s.shared.min <= base.min
    && s.shared.max >= base.max
    && (s.shared.min == base.min || MinIsWon(s))
    && (s.shared.max == base.max || MaxIsWon(s))
    && forall i :: 0 <= i < |s.calls| ==> CallOk(s, s.calls[i])
  }

  ghost predicate Fresh(s: State) {
    forall i :: 0 <= i < |s.calls| ==> s.calls[i] == NewCall(s.calls[i].sample)
  }

  lemma InitInv(s: State)
    requires Fresh(s)
    ensures Inv(s.shared, s)
  {
    TotalAtMost(s.calls, 0, Added);
    TotalAtLeast(s.calls, 0, Added);
    TotalAtLeast(s.calls, 0, WonMin);
    TotalAtLeast(s.calls, 0, WonMax);
  }

  /** How one step of call `who` moves the three totals that the invariant speaks of. */
  lemma StepTotals(s: State, ch: Choice)
    requires Enabled(s, ch)
    ensures var t := Next(s, ch); var c, d := s.calls[ch.who], t.calls[ch.who];
      && Total(t.calls, Added) == Total(s.calls, Added) - Added(c) + Added(d)
      && Total(t.calls, WonMin) == Total(s.calls, WonMin) - WonMin(c) + WonMin(d)
      && Total(t.calls, WonMax) == Total(s.calls, WonMax) - WonMax(c) + WonMax(d)
  {
    var d := Next(s, ch).calls[ch.who];
    TotalUpdate(s.calls, ch.who, d, Added);
    TotalUpdate(s.calls, ch.who, d, WonMin);
    TotalUpdate(s.calls, ch.who, d, WonMax);
  }

  lemma CallStaysOk(s: State, ch: Choice, i: nat)
    requires Enabled(s, ch) && i < |s.calls|
    requires CallOk(s, s.calls[ch.who]) && CallOk(s, s.calls[i])
    ensures CallOk(Next(s, ch), Next(s, ch).calls[i])
  {
    StepTotals(s, ch);
    if i == ch.who {
      assert Next(s, ch).calls[i] == StepCall(s.shared, s.calls[i], ch.spurious).1;
    } else {
      assert Next(s, ch).calls[i] == s.calls[i];
    }
  }

  lemma WinnersStay(s: State, ch: Choice)
    requires Enabled(s, ch)
    ensures Next(s, ch).shared.min == s.shared.min && MinIsWon(s) ==> MinIsWon(Next(s, ch))
    ensures Next(s, ch).shared.max == s.shared.max && MaxIsWon(s) ==> MaxIsWon(Next(s, ch))
    ensures Next(s, ch).shared.min != s.shared.min ==> MinIsWon(Next(s, ch)) && Next(s, ch).shared.min < s.shared.min
    ensures Next(s, ch).shared.max != s.shared.max ==> MaxIsWon(Next(s, ch)) && Next(s, ch).shared.max > s.shared.max
  {
    var t := Next(s, ch);
    assert forall i :: 0 <= i < |s.calls| && i != ch.who ==> t.calls[i] == s.calls[i];
    assert t.calls[ch.who] == StepCall(s.shared, s.calls[ch.who], ch.spurious).1;
    if t.shared.min == s.shared.min && MinIsWon(s) {
      var i :| 0 <= i < |s.calls| && s.calls[i].minWon && s.calls[i].sample == s.shared.min;
      assert t.calls[i].minWon && t.calls[i].sample == t.shared.min;
    }
    if t.shared.max == s.shared.max && MaxIsWon(s) {
      var i :| 0 <= i < |s.calls| && s.calls[i].maxWon && s.calls[i].sample == s.shared.max;
      assert t.calls[i].maxWon && t.calls[i].sample == t.shared.max;
    }
  }

  lemma TotalStays(base: Word, s: State, ch: Choice)
    requires Enabled(s, ch) && s.shared.total == Wrap(base + Total(s.calls, Added))
    ensures Next(s, ch).shared.total == Wrap(base + Total(Next(s, ch).calls, Added))
  {
    StepTotals(s, ch);
    WrapAdd(base + Total(s.calls, Added), s.calls[ch.who].sample);
    assert Next(s, ch).calls[ch.who] == StepCall(s.shared, s.calls[ch.who], ch.spurious).1;
  }

  lemma NextInv(base: Shared, s: State, ch: Choice)
    requires Inv(base, s) && Enabled(s, ch)
    ensures Inv(base, Next(s, ch))
  {
    var t := Next(s, ch);
    TotalStays(base.total, s, ch);
    WinnersStay(s, ch);
    forall i | 0 <= i < |t.calls| ensures CallOk(t, t.calls[i]) {
      CallStaysOk(s, ch, i);
    }
  }

  lemma {:induction false} ExecInv(base: Shared, s: State, schedule: seq<Choice>)
    requires Inv(base, s) && Legal(s, schedule)
    ensures Inv(base, Exec(s, schedule))
    decreases |schedule|
  {
    if schedule != [] {
      NextInv(base, s, schedule[0]);
      ExecInv(base, Next(s, schedule[0]), schedule[1..]);
    }
  }

  /** Whatever the state, min never rises and max never falls, and no call changes its sample. */
  lemma {:induction false} ExtremesAreMonotone(s: State, schedule: seq<Choice>)
    requires Legal(s, schedule)
    ensures var t := Exec(s, schedule);
      && t.shared.min <= s.shared.min && t.shared.max >= s.shared.max
      && |t.calls| == |s.calls|
      && forall i :: 0 <= i < |s.calls| ==> t.calls[i].sample == s.calls[i].sample
    decreases |schedule|
  {
    if schedule != [] {
      ExtremesAreMonotone(Next(s, schedule[0]), schedule[1..]);
    }
  }

  /**
   In every state that any interleaving reaches, min and max are their first value or a
   submitted sample, and every call past its min (max) loop is bounded by min (max).
   */
  lemma ExtremesAreSamples(s: State, schedule: seq<Choice>)
    requires Fresh(s) && Legal(s, schedule)
    ensures var t := Exec(s, schedule);
      && (t.shared.min == s.shared.min || exists i :: 0 <= i < |s.calls| && s.calls[i].sample == t.shared.min)
      && (t.shared.max == s.shared.max || exists i :: 0 <= i < |s.calls| && s.calls[i].sample == t.shared.max)
      && forall i :: 0 <= i < |t.calls| ==>
           && (PastMin(t.calls[i]) ==> t.shared.min <= s.calls[i].sample)
           && (PastMax(t.calls[i]) ==> t.shared.max >= s.calls[i].sample)
  {
    InitInv(s);
    ExecInv(s.shared, s, schedule);
    ExtremesAreMonotone(s, schedule);
    var t := Exec(s, schedule);
    assert forall i :: 0 <= i < |t.calls| ==> CallOk(t, t.calls[i]);
  }

  function SampleOf(c: Call): int { c.sample }

  /** `t` holds the sum of the samples on top of `base`, and the extremes of both. */
  ghost predicate IsTally(base: Shared, calls: seq<Call>, t: Shared) {
    && t.total == Wrap(base.total + Total(calls, SampleOf))
    && t.min <= base.min && t.max >= base.max
    && (forall i :: 0 <= i < |calls| ==> t.min <= calls[i].sample <= t.max)
    && (t.min == base.min || exists i :: 0 <= i < |calls| && calls[i].sample == t.min)
    && (t.max == base.max || exists i :: 0 <= i < |calls| && calls[i].sample == t.max)
  }

  ghost predicate AllFinished(s: State) {
    forall i :: 0 <= i < |s.calls| ==> s.calls[i].pc.Finished?
  }

  /**
   When every call has returned, min and max are exactly the extremes of the samples and the
   words before, and total is their sum modulo 2^64, whatever the interleaving was.
   */
  lemma FinishedIsExact(s: State, schedule: seq<Choice>)
    requires Fresh(s) && Legal(s, schedule) && AllFinished(Exec(s, schedule))
    ensures IsTally(s.shared, s.calls, Exec(s, schedule).shared)
  {
    var t := Exec(s, schedule);
    InitInv(s);
    ExecInv(s.shared, s, schedule);
    assert Inv(s.shared, t);
    ExtremesAreMonotone(s, schedule);
    ExtremesAreSamples(s, schedule);
    TotalsAgree(s.calls, t.calls);
  }

  /** After a reset, and with at least one call, both extremes are samples. */
  lemma FinishedAfterReset(s: State, schedule: seq<Choice>)
    requires Fresh(s) && Legal(s, schedule) && AllFinished(Exec(s, schedule))
    requires s.shared == RESET && s.calls != []
    ensures var t := Exec(s, schedule).shared;
      && t.total == Wrap(Total(s.calls, SampleOf))
      && (exists i :: 0 <= i < |s.calls| && s.calls[i].sample == t.min)
      && (exists i :: 0 <= i < |s.calls| && s.calls[i].sample == t.max)
      && (forall i :: 0 <= i < |s.calls| ==> t.min <= s.calls[i].sample <= t.max)
  {
    FinishedIsExact(s, schedule);
    var t := Exec(s, schedule).shared;
    assert t.min <= s.calls[0].sample <= t.max;
  }

  lemma {:induction false} TotalsAgree(before: seq<Call>, after: seq<Call>)
    requires |before| == |after|
    requires forall i :: 0 <= i < |after| ==> after[i].sample == before[i].sample && after[i].pc.Finished?
    ensures Total(before, SampleOf) == Total(after, Added)
  {
    if before != [] {
      TotalsAgree(before[..|before| - 1], after[..|after| - 1]);
    }
  }

  // Progress.

  /**
   An exchange of the min (max) loop that fails because the word has changed leaves the
   call's local copy strictly closer to its sample, and never past a value the loop stops at.
   */
  lemma FailureShrinksTheGap(base: Shared, s: State, ch: Choice)
    requires Inv(base, s) && Enabled(s, ch)
    ensures var c, d := s.calls[ch.who], Next(s, ch).calls[ch.who];
      && (d.minFails > c.minFails ==> c.pc.TryMin? && d.pc.TryMin? && 0 <= d.pc.cur < c.pc.cur)
      && (d.maxFails > c.maxFails ==> c.pc.TryMax? && d.pc.TryMax? && c.pc.cur < d.pc.cur <= MAX_WORD)
  {
    assert CallOk(s, s.calls[ch.who]);
  }

  lemma {:induction false} OthersAtMost(calls: seq<Call>, i: nat, f: Call -> int)
    requires i < |calls| && forall c: Call :: 0 <= f(c) <= 1
    ensures Total(calls, f) - f(calls[i]) <= |calls| - 1
  {
    var last := |calls| - 1;
    if i < last {
      OthersAtMost(calls[..last], i, f);
    } else {
      TotalAtMost(calls[..last], 1, f);
    }
  }

  /** Among n calls no call loses more than n - 1 exchanges of either loop to the others. */
  lemma FewFailures(s: State, schedule: seq<Choice>, i: nat)
    requires Fresh(s) && Legal(s, schedule) && i < |s.calls|
    ensures var t := Exec(s, schedule);
      && |t.calls| == |s.calls|
      && t.calls[i].minFails <= |s.calls| - 1 && t.calls[i].maxFails <= |s.calls| - 1
  {
    InitInv(s);
    ExecInv(s.shared, s, schedule);
    ExtremesAreMonotone(s, schedule);
    var t := Exec(s, schedule);
    assert CallOk(t, t.calls[i]);
    OthersAtMost(t.calls, i, WonMin);
    OthersAtMost(t.calls, i, WonMax);
  }

  function Rank(pc: Pc): nat {
    match pc
    case AddTotal => 0
    case LoadMin => 1
    case TryMin(_) => 2
    case LoadMax => 3
    case TryMax(_) => 4
    case Finished => 5
  }

  /** The steps a call has taken. */
  function Taken(c: Call): int { Rank(c.pc) + c.minFails + c.maxFails + c.spurious }

  lemma StepTakesOne(s: State, ch: Choice)
    requires Enabled(s, ch)
    ensures Total(Next(s, ch).calls, Taken) == Total(s.calls, Taken) + 1
  {
    var d := StepCall(s.shared, s.calls[ch.who], ch.spurious).1;
    assert Taken(d) == Taken(s.calls[ch.who]) + 1;
    TotalUpdate(s.calls, ch.who, d, Taken);
  }

  lemma {:induction false} EveryStepCounts(s: State, schedule: seq<Choice>)
    requires Legal(s, schedule)
    ensures Total(Exec(s, schedule).calls, Taken) == Total(s.calls, Taken) + |schedule|
    decreases |schedule|
  {
    if schedule != [] {
      StepTakesOne(s, schedule[0]);
      EveryStepCounts(Next(s, schedule[0]), schedule[1..]);
    }
  }

  function Genuine(c: Call): int { Taken(c) - c.spurious }

  lemma {:induction false} TakenSplits(calls: seq<Call>)
    ensures Total(calls, Taken) == Total(calls, Genuine) + Total(calls, Spurious)
  {
    if calls != [] {
      TakenSplits(calls[..|calls| - 1]);
    }
  }

  /**
   The loops end: an interleaving of n calls has at most n * (2n + 3) steps besides its
   spurious failures. A schedule without them can therefore not go on for ever.
   */
  lemma RunsAreBounded(s: State, schedule: seq<Choice>)
    requires Fresh(s) && Legal(s, schedule)
    ensures var n := |s.calls|; |schedule| <= n * (2 * n + 3) + Total(Exec(s, schedule).calls, Spurious)
  {
    var n := |s.calls|;
    var t := Exec(s, schedule);
    ExtremesAreMonotone(s, schedule);
    EveryStepCounts(s, schedule);
    TakenSplits(t.calls);
    TotalAtLeast(s.calls, 0, Taken);
    forall i | 0 <= i < n ensures Genuine(t.calls[i]) <= 2 * n + 3 {
      FewFailures(s, schedule, i);
    }
    TotalAtMost(t.calls, 2 * n + 3, Genuine);
  }

  lemma {:induction false} LegalConcat(s: State, a: seq<Choice>, b: seq<Choice>)
    requires Legal(s, a) && Legal(Exec(s, a), b)
    ensures Legal(s, a + b) && Exec(s, a + b) == Exec(Exec(s, a), b)
    decreases |a|
  {
    if a == [] {
      assert a + b == b;
    } else {
      LegalConcat(Next(s, a[0]), a[1..], b);
      assert (a + b)[1..] == a[1..] + b;
    }
  }

  /** What the other threads do just before an atomic operation, and whether it fails spuriously. */
  datatype Gap = Gap(others: seq<Choice>, spurious: bool)

  /** The other threads take these steps; a choice of a call that cannot step is skipped. Call 0 is ours. */
  function Interfered(s: State, choices: seq<Choice>): State
    decreases |choices|
  {
    if choices == [] then s
    else
      var step := Choice(choices[0].who + 1, choices[0].spurious);
      Interfered(if Enabled(s, step) then Next(s, step) else s, choices[1..])
  }

  /** The choices of the other threads that make up a schedule without steps of call 0. */
  function Others(schedule: seq<Choice>): (choices: seq<Choice>)
    requires forall k :: 0 <= k < |schedule| ==> schedule[k].who > 0
  {
    if schedule == [] then []
    else [Choice(schedule[0].who - 1, schedule[0].spurious)] + Others(schedule[1..])
  }

  /** Interference is no less than what the scheduler may do: every legal schedule of the others. */
  lemma {:induction false} AnyScheduleCanInterfere(s: State, schedule: seq<Choice>)
    requires Legal(s, schedule) && forall k :: 0 <= k < |schedule| ==> schedule[k].who > 0
    ensures Interfered(s, Others(schedule)) == Exec(s, schedule)
    decreases |schedule|
  {
    if schedule != [] {
      AnyScheduleCanInterfere(Next(s, schedule[0]), schedule[1..]);
      var choices := Others(schedule);
      assert Choice(choices[0].who + 1, choices[0].spurious) == schedule[0] && choices[1..] == Others(schedule[1..]);
    }
  }

  /** The three shared words, and the calls that other threads have under way. */
  class LatencyStats {
    var total: Word
    var min: Word
    var max: Word
    var others: seq<Call>

    constructor ()
      ensures total == 0 && min == MAX_WORD && max == 0 && others == []
    {
      total, min, max, others := 0, MAX_WORD, 0, [];
    }

    /** The interleaving state, with our own call as call 0. */
    ghost function View(mine: Call): State
      reads this
    {
      State(Shared(total, min, max), [mine] + others)
    }

    /** Lets other threads take the given steps. */
    method Interfere(choices: seq<Choice>, ghost mine: Call) returns (ghost ran: seq<Choice>)
      modifies this
      ensures |others| == old(|others|)
      ensures Legal(old(View(mine)), ran)
      ensures View(mine) == Exec(old(View(mine)), ran) == Interfered(old(View(mine)), choices)
    {
      ran := [];
      for k := 0 to |choices|
        invariant |others| == old(|others|)
        invariant Legal(old(View(mine)), ran) && View(mine) == Exec(old(View(mine)), ran)
        invariant Interfered(View(mine), choices[k..]) == Interfered(old(View(mine)), choices)
      {
        var ch := choices[k];
        assert choices[k..][1..] == choices[k + 1..];
        if ch.who < |others| && !others[ch.who].pc.Finished? {
          ghost var before := View(mine);
          var (sh, c) := StepCall(Shared(total, min, max), others[ch.who], ch.spurious);
          total, min, max := sh.total, sh.min, sh.max;
          others := others[ch.who := c];
          ghost var step := Choice(ch.who + 1, ch.spurious);
          assert View(mine) == Next(before, step);
          LegalConcat(old(View(mine)), ran, [step]);
          ran := ran + [step];
        }
      }
    }

    /** The interference before our next operation; past the end of `gaps` there is none. */
    method Yield(gaps: seq<Gap>, k: nat, ghost start: State, ghost mine: Call, ghost ran: seq<Choice>)
      returns (spurious: bool, ghost ran': seq<Choice>)
      requires Legal(start, ran) && View(mine) == Exec(start, ran)
      modifies this
      ensures Legal(start, ran') && View(mine) == Exec(start, ran')
      ensures View(mine) == Interfered(old(View(mine)), if k < |gaps| then gaps[k].others else [])
      ensures spurious == (k < |gaps| && gaps[k].spurious)
    {
      spurious, ran' := false, ran;
      if k < |gaps| {
        ghost var more := Interfere(gaps[k].others, mine);
        LegalConcat(start, ran, more);
        spurious, ran' := gaps[k].spurious, ran + more;
      }
    }

    /** Records that we have taken step `mine` to `mine'` from the state that `ran` leads to. */
    ghost method Took(start: State, before: State, mine': Call, spurious: bool, ran: seq<Choice>)
      returns (ran': seq<Choice>)
      requires Legal(start, ran) && before == Exec(start, ran)
      requires Enabled(before, Choice(0, spurious)) && View(mine') == Next(before, Choice(0, spurious))
      ensures Legal(start, ran') && View(mine') == Exec(start, ran')
    {
      LegalConcat(start, ran, [Choice(0, spurious)]);
      ran' := ran + [Choice(0, spurious)];
    }

    /** An atomic load of min. */
    method ReadMin(gaps: seq<Gap>, k: nat, ghost start: State, ghost mine0: Call, ghost ran0: seq<Choice>)
      returns (current: Word, ghost mine: Call, ghost ran: seq<Choice>)
      requires Legal(start, ran0) && View(mine0) == Exec(start, ran0)
      requires mine0.pc == LoadMin
      modifies this
      ensures Legal(start, ran) && View(mine) == Exec(start, ran)
      ensures current == min && mine == mine0.(pc := TryMin(current))
    {
      var spurious;
      spurious, ran := Yield(gaps, k, start, mine0, ran0);
      current := min;
      mine := mine0.(pc := TryMin(current));
      ran := Took(start, View(mine0), mine, spurious, ran);
    }

    /** One compare_exchange_weak on min: on failure the caller's copy takes the current word. */
    method ExchangeMin(latency: Word, expected: Word, gaps: seq<Gap>, k: nat,
        ghost start: State, ghost mine0: Call, ghost ran0: seq<Choice>)
      returns (exchanged: bool, actual: Word, ghost mine: Call, ghost ran: seq<Choice>)
      requires Legal(start, ran0) && View(mine0) == Exec(start, ran0)
      requires mine0.pc == TryMin(expected) && mine0.sample == latency < expected
      modifies this
      ensures Legal(start, ran) && View(mine) == Exec(start, ran)
      ensures mine.sample == latency && mine.pc == if exchanged then LoadMax else TryMin(actual)
      ensures !exchanged ==> actual == min
      ensures k >= |gaps| && expected == old(min) ==> exchanged
    {
      var spurious;
      spurious, ran := Yield(gaps, k, start, mine0, ran0);
      ghost var before := View(mine0);
      mine := StepCall(before.shared, mine0, spurious).1;
      actual := min;
      exchanged := min == expected && !spurious;
      if exchanged {
        min := latency;
      }
      ran := Took(start, before, mine, spurious, ran);
    }

    /** The exchange loop that lowers min to the sample. */
    method LowerMin(latency: Word, gaps: seq<Gap>, k0: nat, ghost start: State, ghost mine0: Call, ghost ran0: seq<Choice>)
      returns (k: nat, ghost mine: Call, ghost ran: seq<Choice>)
      requires Legal(start, ran0) && View(mine0) == Exec(start, ran0)
      requires mine0.pc == LoadMin && mine0.sample == latency
      modifies this
      ensures Legal(start, ran) && View(mine) == Exec(start, ran)
      ensures mine.pc == LoadMax && mine.sample == latency
    {
      var currentMin, exchanged;
      k, exchanged := k0, false;
      currentMin, mine, ran := ReadMin(gaps, k0, start, mine0, ran0);
      k := k + 1;
      while latency < currentMin && !exchanged
        invariant Legal(start, ran) && View(mine) == Exec(start, ran)
        invariant mine.sample == latency
        invariant mine.pc == if exchanged then LoadMax else TryMin(currentMin)
        decreases if k < |gaps| then |gaps| - k else 0, !exchanged, if min == currentMin then 0 else 1
      {
        exchanged, currentMin, mine, ran := ExchangeMin(latency, currentMin, gaps, k, start, mine, ran);
        k := k + 1;
      }
      if !exchanged {
        ghost var before := View(mine);
        mine := mine.(pc := LoadMax);
        ran := Took(start, before, mine, false, ran);
      }
    }

    /** An atomic load of max. */
    method ReadMax(gaps: seq<Gap>, k: nat, ghost start: State, ghost mine0: Call, ghost ran0: seq<Choice>)
      returns (current: Word, ghost mine: Call, ghost ran: seq<Choice>)
      requires Legal(start, ran0) && View(mine0) == Exec(start, ran0)
      requires mine0.pc == LoadMax
      modifies this
      ensures Legal(start, ran) && View(mine) == Exec(start, ran)
      ensures current == max && mine == mine0.(pc := TryMax(current))
    {
      var spurious;
      spurious, ran := Yield(gaps, k, start, mine0, ran0);
      current := max;
      mine := mine0.(pc := TryMax(current));
      ran := Took(start, View(mine0), mine, spurious, ran);
    }

    /** One compare_exchange_weak on max: on failure the caller's copy takes the current word. */
    method ExchangeMax(latency: Word, expected: Word, gaps: seq<Gap>, k: nat,
        ghost start: State, ghost mine0: Call, ghost ran0: seq<Choice>)
      returns (exchanged: bool, actual: Word, ghost mine: Call, ghost ran: seq<Choice>)
      requires Legal(start, ran0) && View(mine0) == Exec(start, ran0)
      requires mine0.pc == TryMax(expected) && mine0.sample == latency > expected
      modifies this
      ensures Legal(start, ran) && View(mine) == Exec(start, ran)
      ensures mine.sample == latency && mine.pc == if exchanged then Finished else TryMax(actual)
      ensures !exchanged ==> actual == max
      ensures k >= |gaps| && expected == old(max) ==> exchanged
    {
      var spurious;
      spurious, ran := Yield(gaps, k, start, mine0, ran0);
      ghost var before := View(mine0);
      mine := StepCall(before.shared, mine0, spurious).1;
      actual := max;
      exchanged := max == expected && !spurious;
      if exchanged {
        max := latency;
      }
      ran := Took(start, before, mine, spurious, ran);
    }

    /** The exchange loop that raises max to the sample. */
    method RaiseMax(latency: Word, gaps: seq<Gap>, k0: nat, ghost start: State, ghost mine0: Call, ghost ran0: seq<Choice>)
      returns (k: nat, ghost mine: Call, ghost ran: seq<Choice>)
      requires Legal(start, ran0) && View(mine0) == Exec(start, ran0)
      requires mine0.pc == LoadMax && mine0.sample == latency
      modifies this
      ensures Legal(start, ran) && View(mine) == Exec(start, ran)
      ensures mine.pc == Finished && mine.sample == latency
    {
      var currentMax, exchanged;
      k, exchanged := k0, false;
      currentMax, mine, ran := ReadMax(gaps, k0, start, mine0, ran0);
      k := k + 1;
      while latency > currentMax && !exchanged
        invariant Legal(start, ran) && View(mine) == Exec(start, ran)
        invariant mine.sample == latency
        invariant mine.pc == if exchanged then Finished else TryMax(currentMax)
        decreases if k < |gaps| then |gaps| - k else 0, !exchanged, if max == currentMax then 0 else 1
      {
        exchanged, currentMax, mine, ran := ExchangeMax(latency, currentMax, gaps, k, start, mine, ran);
        k := k + 1;
      }
      if !exchanged {
        ghost var before := View(mine);
        mine := mine.(pc := Finished);
        ran := Took(start, before, mine, false, ran);
      }
    }

    /**
     The code of update_latency_stats: a fetch-add and two exchange loops. Under any
     interference it comes to its end, and what it has done is an interleaving of call 0.
     */
    method UpdateLatencyStats(latency: Word, gaps: seq<Gap>) returns (ghost mine: Call, ghost ran: seq<Choice>)
      modifies this
      ensures mine.pc.Finished? && mine.sample == latency
      ensures Legal(old(View(NewCall(latency))), ran)
      ensures View(mine) == Exec(old(View(NewCall(latency))), ran)
    {
      mine, ran := NewCall(latency), [];
      ghost var start := View(mine);
      var spurious;
      spurious, ran := Yield(gaps, 0, start, mine, ran);
      ghost var before := View(mine);
      total := Wrap(total + latency);
      mine := mine.(pc := LoadMin);
      ran := Took(start, before, mine, spurious, ran);
      var k;
      k, mine, ran := LowerMin(latency, gaps, 1, start, mine, ran);
      k, mine, ran := RaiseMax(latency, gaps, k, start, mine, ran);
    }
  }
}
