/** The request governor (governor.go): a channel of tokens and a read/write
  * mutex, as interleaved steps of any number of threads. */
module Governor {
  /** Where a thread stands in ReadLock, ReadUnLock, WriteLock or WriteUnLock. */
  datatype PC =
    | Idle
    | WantRead            // in ReadLock, before the token
    | HasToken            // in ReadLock, token taken
    | Reading             // past ReadLock
    | Returning           // in ReadUnLock, mutex released
    | Gathering(n: nat)   // in WriteLock with n tokens
    | Pending             // in Lock, announced, waiting for the readers inside
    | Writing             // past WriteLock
    | Unlocked            // in WriteUnLock, mutex released
    | Restoring(n: nat)   // in WriteUnLock with n tokens to put back
    | Failed              // WriteUnLock found the channel not empty

  datatype State = State(max: nat, tokens: nat, rwReaders: nat, rwPending: bool, rwWriter: bool, threads: seq<PC>)

  /** NewGovernor: the channel starts full. */
  function Init(max: nat, threads: nat): State {
    State(max, max, 0, false, false, seq(threads, i => Idle))
  }

  /** Thread `t` is not blocked. Lock waits for other writers and then, announced, for
    * the readers inside; RLock waits for a writer, announced or in; a receive waits
    * for a token, a send for room in the channel. */
  predicate CanStep(s: State, t: nat)
    requires t < |s.threads|
  {
    match s.threads[t]
    case Idle => true
    case WantRead => s.max == 0 || s.tokens > 0
    case HasToken => !s.rwWriter && !s.rwPending
    case Reading => s.rwReaders > 0
    case Returning => s.max == 0 || s.tokens < s.max
    case Gathering(n) => if n < s.max then s.tokens > 0 else !s.rwWriter && !s.rwPending
    case Pending => s.rwReaders == 0
    case Writing => s.rwWriter
    case Unlocked => true
    case Restoring(n) => n == 0 || s.tokens < s.max
    case Failed => false
  }

  function Move(s: State, t: nat, pc: PC): State
    requires t < |s.threads|
  {
    s.(threads := s.threads[t := pc])
  }

  /** Outside the governor and in ReadLock and ReadUnLock; an idle thread chooses. */
  predicate ReaderStep(s: State, t: nat, s': State)
    requires t < |s.threads| && CanStep(s, t)
  {
    match s.threads[t]
    case Idle => s' == Move(s, t, WantRead) || s' == Move(s, t, Gathering(0))
    case WantRead => s' == Move(if s.max == 0 then s else s.(tokens := s.tokens - 1), t, HasToken)
    case HasToken => s' == Move(s.(rwReaders := s.rwReaders + 1), t, Reading)
    case Reading => s' == Move(s.(rwReaders := s.rwReaders - 1), t, Returning)
    case Returning => s' == Move(if s.max == 0 then s else s.(tokens := s.tokens + 1), t, Idle)
    case _ => false
  }

  /** In WriteLock and WriteUnLock. */
  predicate WriterStep(s: State, t: nat, s': State)
    requires t < |s.threads| && CanStep(s, t)
  {
    match s.threads[t]
    case Gathering(n) =>
      if n < s.max then s' == Move(s.(tokens := s.tokens - 1), t, Gathering(n + 1))
      else s' == Move(s.(rwPending := true), t, Pending)
    case Pending => s' == Move(s.(rwPending := false, rwWriter := true), t, Writing)
    case Writing => s' == Move(s.(rwWriter := false), t, Unlocked)
    case Unlocked => s' == Move(s, t, if s.max == 0 then Idle else if s.tokens != 0 then Failed else Restoring(s.max))
    case Restoring(n) =>
      if n == 0 then s' == Move(s, t, Idle) else s' == Move(s.(tokens := s.tokens + 1), t, Restoring(n - 1))
    case _ => false
  }

  /** One step of thread `t`. */
  predicate Next(s: State, t: nat, s': State) {
    t < |s.threads| && CanStep(s, t) && (ReaderStep(s, t, s') || WriterStep(s, t, s'))
  }

  /** A run: any threads, in any order, each step by one thread. */
  ghost predicate Run(max: nat, threads: nat, trace: seq<State>, who: seq<nat>) {
    |trace| == |who| + 1 && trace[0] == Init(max, threads) &&
    forall i :: 0 <= i < |who| ==> Next(trace[i], who[i], trace[i + 1])
  }

  // ---------------------------------------------------------------- token counts

  /** The tokens a thread holds. */
  function Held(max: nat, pc: PC): nat {
    match pc
    case HasToken => if max == 0 then 0 else 1
    case Reading => if max == 0 then 0 else 1
    case Returning => if max == 0 then 0 else 1
    case Gathering(n) => n
    case Pending => max
    case Writing => max
    case Unlocked => max
    case Restoring(n) => n
    case Failed => max
    case Idle => 0
    case WantRead => 0
  }

  function ReadingOne(pc: PC): nat {
    if pc.Reading? then 1 else 0
  }

  function PendingOne(pc: PC): nat {
    if pc.Pending? then 1 else 0
  }

  function WritingOne(pc: PC): nat {
    if pc.Writing? then 1 else 0
  }

  function Total(ts: seq<PC>, w: PC -> nat): nat {
    if ts == [] then 0 else w(ts[0]) + Total(ts[1..], w)
  }

  lemma {:induction false} TotalUpdate(ts: seq<PC>, w: PC -> nat, t: nat, pc: PC)
    requires t < |ts|
    ensures Total(ts[t := pc], w) + w(ts[t]) == Total(ts, w) + w(pc)
  {
    if t == 0 {
      assert ts[0 := pc][1..] == ts[1..];
    } else {
      TotalUpdate(ts[1..], w, t - 1, pc);
      assert ts[t := pc][1..] == ts[1..][t - 1 := pc];
    }
  }

  lemma {:induction false} TotalAtLeast(ts: seq<PC>, w: PC -> nat, t: nat)
    requires t < |ts|
    ensures w(ts[t]) <= Total(ts, w)
  {
    if t > 0 {
      TotalAtLeast(ts[1..], w, t - 1);
    }
  }

  lemma {:induction false} TotalOfTwo(ts: seq<PC>, w: PC -> nat, t: nat, u: nat)
    requires t < u < |ts|
    ensures w(ts[t]) + w(ts[u]) <= Total(ts, w)
  {
    if t == 0 {
      TotalAtLeast(ts[1..], w, u - 1);
    } else {
      TotalOfTwo(ts[1..], w, t - 1, u - 1);
    }
  }

  lemma {:induction false} TotalMonotone(ts: seq<PC>, v: PC -> nat, w: PC -> nat)
    requires forall pc :: v(pc) <= w(pc)
    ensures Total(ts, v) <= Total(ts, w)
  {
    if ts != [] {
      TotalMonotone(ts[1..], v, w);
    }
  }

  lemma {:induction false} TotalPositive(ts: seq<PC>, w: PC -> nat) returns (t: nat)
    requires Total(ts, w) > 0
    ensures t < |ts| && w(ts[t]) > 0
  {
    if w(ts[0]) > 0 {
      t := 0;
    } else {
      t := TotalPositive(ts[1..], w);
      t := t + 1;
    }
  }

  lemma {:induction false} TotalOfIdle(n: nat, w: PC -> nat)
    requires w(Idle) == 0
    ensures Total(seq(n, i => Idle), w) == 0
  {
    var ts := seq(n, i => Idle);
    if n > 0 {
      TotalOfIdle(n - 1, w);
      assert ts[1..] == seq(n - 1, i => Idle);
    }
  }

  // ---------------------------------------------------------------- the invariant

  predicate PossiblePC(s: State, pc: PC) {
    match pc
    case Gathering(n) => n <= s.max
    case Restoring(n) => n <= s.max && s.max > 0
    case Failed => false
    case _ => true
  }

  ghost function HeldBy(max: nat): PC -> nat {
    pc => Held(max, pc)
  }

  /** The tokens add up, and the mutex knows who is in it. */
  ghost predicate Sums(s: State) {
    && s.tokens + Total(s.threads, HeldBy(s.max)) == s.max
    && s.rwReaders == Total(s.threads, ReadingOne)
    && (if s.rwPending then 1 else 0) == Total(s.threads, PendingOne)
    && (if s.rwWriter then 1 else 0) == Total(s.threads, WritingOne)
    && (s.rwWriter ==> s.rwReaders == 0 && !s.rwPending)
  }

  ghost predicate Inv(s: State) {
    Sums(s) && forall t :: 0 <= t < |s.threads| ==> PossiblePC(s, s.threads[t])
  }

  /** The check in WriteUnLock always finds the channel empty. */
  lemma EmptyAtUnlock(s: State, t: nat)
    requires Inv(s) && t < |s.threads| && (s.threads[t].Unlocked? || s.threads[t].Writing?)
    ensures s.tokens == 0
  {
    TotalAtLeast(s.threads, HeldBy(s.max), t);
  }

  lemma MoveTotals(s: State, t: nat, pc: PC)
    requires t < |s.threads|
    ensures var ts := s.threads[t := pc];
            && Total(ts, HeldBy(s.max)) + Held(s.max, s.threads[t]) == Total(s.threads, HeldBy(s.max)) + Held(s.max, pc)
            && Total(ts, ReadingOne) + ReadingOne(s.threads[t]) == Total(s.threads, ReadingOne) + ReadingOne(pc)
            && Total(ts, PendingOne) + PendingOne(s.threads[t]) == Total(s.threads, PendingOne) + PendingOne(pc)
            && Total(ts, WritingOne) + WritingOne(s.threads[t]) == Total(s.threads, WritingOne) + WritingOne(pc)
  {
    TotalUpdate(s.threads, HeldBy(s.max), t, pc);
    TotalUpdate(s.threads, ReadingOne, t, pc);
    TotalUpdate(s.threads, PendingOne, t, pc);
    TotalUpdate(s.threads, WritingOne, t, pc);
  }

  /** The tokens change by as many as the thread takes or gives. */
  predicate MovesTokens(s: State, t: nat, s': State) {
    && t < |s.threads| == |s'.threads| && s'.max == s.max && s'.threads == s.threads[t := s'.threads[t]]
    && s'.tokens + Held(s.max, s'.threads[t]) == s.tokens + Held(s.max, s.threads[t])
    && PossiblePC(s, s'.threads[t])
  }

  /** The mutex changes by the thread itself; a writer goes in when nobody is in. */
  predicate MovesMutex(s: State, t: nat, s': State) {
    && t < |s.threads| == |s'.threads|
    && s'.rwReaders + ReadingOne(s.threads[t]) == s.rwReaders + ReadingOne(s'.threads[t])
    && (s'.rwPending <==> s'.threads[t].Pending? || (s.rwPending && !s.threads[t].Pending?))
    && (s'.rwWriter <==> s'.threads[t].Writing? || (s.rwWriter && !s.threads[t].Writing?))
    && (s'.threads[t].Pending? ==> !s.rwPending && !s.rwWriter)
    && (s'.threads[t].Reading? ==> !s.rwWriter)
    && (s'.threads[t].Writing? ==> s.threads[t].Pending? && s.rwReaders == 0)
  }

  lemma ReaderMoves(s: State, t: nat, s': State)
    requires t < |s.threads| && CanStep(s, t) && ReaderStep(s, t, s')
    ensures MovesTokens(s, t, s') && MovesMutex(s, t, s')
  {
  }

  lemma WriterMoves(s: State, t: nat, s': State)
    requires t < |s.threads| && CanStep(s, t) && WriterStep(s, t, s')
    requires PossiblePC(s, s.threads[t]) && (s.threads[t].Unlocked? ==> s.tokens == 0)
    ensures MovesTokens(s, t, s') && MovesMutex(s, t, s')
  {
  }

  lemma StepKeeps(s: State, t: nat, s': State)
    requires Inv(s) && Next(s, t, s')
    ensures Inv(s') && s'.max == s.max && |s'.threads| == |s.threads|
  {
    hide Total, Held, PossiblePC, CanStep, ReaderStep, WriterStep;
    assert PossiblePC(s, s.threads[t]);
    if s.threads[t].Unlocked? {
      EmptyAtUnlock(s, t);
    }
    if ReaderStep(s, t, s') {
      ReaderMoves(s, t, s');
    } else {
      WriterMoves(s, t, s');
    }
    MoveTotals(s, t, s'.threads[t]);
    TotalAtLeast(s.threads, PendingOne, t);
    TotalAtLeast(s.threads, WritingOne, t);
    SameLimit(s, s');
  }

  lemma SameLimit(s: State, s': State)
    requires s.max == s'.max
    ensures forall pc :: PossiblePC(s, pc) <==> PossiblePC(s', pc)
  {
  }

  lemma {:induction false} RunKeeps(max: nat, threads: nat, trace: seq<State>, who: seq<nat>, i: nat)
    requires Run(max, threads, trace, who) && i < |trace|
    ensures Inv(trace[i]) && trace[i].max == max && |trace[i].threads| == threads
  {
    if i == 0 {
      TotalOfIdle(threads, HeldBy(max));
      TotalOfIdle(threads, ReadingOne);
      TotalOfIdle(threads, PendingOne);
      TotalOfIdle(threads, WritingOne);
    } else {
      RunKeeps(max, threads, trace, who, i - 1);
      StepKeeps(trace[i - 1], who[i - 1], trace[i]);
    }
  }

  // ------------------------------------------------------------------ the theorems

  /** Theorem: tokens are conserved, and WriteUnLock never reports its error. */
  lemma TokensConserved(max: nat, threads: nat, trace: seq<State>, who: seq<nat>, i: nat, t: nat)
    requires Run(max, threads, trace, who) && i < |trace| && t < |trace[i].threads|
    ensures trace[i].tokens + Total(trace[i].threads, HeldBy(max)) == max
    ensures !trace[i].threads[t].Failed?
  {
    RunKeeps(max, threads, trace, who, i);
    assert PossiblePC(trace[i], trace[i].threads[t]);
  }

  /** Theorem: while a writer is announced or inside, no reader gets in. */
  lemma WriterHoldsReadersOff(s: State, t: nat, s': State, u: nat)
    requires Inv(s) && Next(s, t, s') && u < |s.threads| && (s.threads[u].Pending? || s.threads[u].Writing?)
    ensures !s'.threads[t].Reading? && s'.rwReaders <= s.rwReaders
  {
    TotalAtLeast(s.threads, PendingOne, u);
    TotalAtLeast(s.threads, WritingOne, u);
  }

  /** Theorem: past WriteLock a thread is alone, whatever `max` is; with a limit it
    * holds every token and nobody else holds any. */
  lemma WriterIsAlone(max: nat, threads: nat, trace: seq<State>, who: seq<nat>, i: nat, t: nat, u: nat)
    requires Run(max, threads, trace, who) && i < |trace| && t < |trace[i].threads| && u < |trace[i].threads| && t != u
    requires trace[i].threads[t].Writing?
    ensures !trace[i].threads[u].Reading? && !trace[i].threads[u].Writing?
    ensures max > 0 ==> trace[i].tokens == 0 && Held(max, trace[i].threads[u]) == 0
  {
    RunKeeps(max, threads, trace, who, i);
    var s := trace[i];
    var a, b := if t < u then t else u, if t < u then u else t;
    TotalOfTwo(s.threads, WritingOne, a, b);
    TotalOfTwo(s.threads, HeldBy(max), a, b);
    TotalAtLeast(s.threads, WritingOne, t);
    TotalAtLeast(s.threads, ReadingOne, u);
  }

  /** Theorem: with a limit, at most `max` readers are inside. */
  lemma ReadersLimited(max: nat, threads: nat, trace: seq<State>, who: seq<nat>, i: nat)
    requires Run(max, threads, trace, who) && i < |trace| && max > 0
    ensures Total(trace[i].threads, ReadingOne) <= max
  {
    RunKeeps(max, threads, trace, who, i);
    TotalMonotone(trace[i].threads, ReadingOne, HeldBy(max));
  }

  /** Theorem: with a limit, neither giving back a token nor the mutex ever blocks. */
  lemma OnlyTokensBlock(max: nat, threads: nat, trace: seq<State>, who: seq<nat>, i: nat, t: nat)
    requires Run(max, threads, trace, who) && i < |trace| && t < |trace[i].threads| && max > 0
    ensures !CanStep(trace[i], t) ==>
              trace[i].tokens == 0 &&
              (trace[i].threads[t].WantRead? || (trace[i].threads[t].Gathering? && trace[i].threads[t].n < max))
  {
    RunKeeps(max, threads, trace, who, i);
    BlockedOnTokens(trace[i], t);
  }

  /** What two threads hold is not more than there is. */
  lemma TwoHold(s: State, t: nat, u: nat)
    requires Inv(s) && t < |s.threads| && u < |s.threads| && t != u
    ensures Held(s.max, s.threads[t]) + Held(s.max, s.threads[u]) <= s.max
  {
    TotalOfTwo(s.threads, HeldBy(s.max), if t < u then t else u, if t < u then u else t);
  }

  /** With a limit, a thread at the mutex has it to itself as far as it needs to. */
  lemma MutexIsFree(s: State, t: nat)
    requires Inv(s) && t < |s.threads| && s.max > 0
    ensures Held(s.max, s.threads[t]) > 0 && !s.threads[t].Writing? ==> !s.rwWriter
    ensures Held(s.max, s.threads[t]) > 0 && !s.threads[t].Pending? ==> !s.rwPending
    ensures Held(s.max, s.threads[t]) == s.max && !s.threads[t].Reading? ==> s.rwReaders == 0
  {
    if s.rwWriter {
      var u := TotalPositive(s.threads, WritingOne);
      if u != t {
        TwoHold(s, t, u);
      }
    }
    if s.rwPending {
      var u := TotalPositive(s.threads, PendingOne);
      if u != t {
        TwoHold(s, t, u);
      }
    }
    if s.rwReaders > 0 {
      var u := TotalPositive(s.threads, ReadingOne);
      if u != t {
        TwoHold(s, t, u);
      }
    }
  }

  lemma BlockedOnTokens(s: State, t: nat)
    requires Inv(s) && t < |s.threads| && s.max > 0
    ensures !CanStep(s, t) <==>
              s.tokens == 0 && (s.threads[t].WantRead? || (s.threads[t].Gathering? && s.threads[t].n < s.max))
  {
    hide Total;
    assert PossiblePC(s, s.threads[t]);
    TotalAtLeast(s.threads, HeldBy(s.max), t);
    TotalAtLeast(s.threads, ReadingOne, t);
    TotalAtLeast(s.threads, WritingOne, t);
    MutexIsFree(s, t);
  }

  /** No thread that is inside the governor can move. */
  predicate Stuck(s: State) {
    && (exists t :: 0 <= t < |s.threads| && !s.threads[t].Idle?)
    && forall t :: 0 <= t < |s.threads| && !s.threads[t].Idle? ==> !CanStep(s, t)
  }

  predicate Waiting(s: State, t: nat)
    requires t < |s.threads|
  {
    s.threads[t].Idle? || s.threads[t].WantRead? || (s.threads[t].Gathering? && s.threads[t].n < s.max)
  }

  /** Theorem: the governor is stuck iff the channel is empty and every thread inside
    * still waits for a token. */
  lemma StuckIff(s: State)
    requires Inv(s) && s.max > 0
    ensures Stuck(s) <==> s.tokens == 0 && forall t :: 0 <= t < |s.threads| ==> Waiting(s, t)
  {
    if Stuck(s) {
      var t :| 0 <= t < |s.threads| && !s.threads[t].Idle?;
      BlockedOnTokens(s, t);
      forall u | 0 <= u < |s.threads| ensures Waiting(s, u) {
        BlockedOnTokens(s, u);
      }
    }
    if s.tokens == 0 && forall t :: 0 <= t < |s.threads| ==> Waiting(s, t) {
      var u := TotalPositive(s.threads, HeldBy(s.max));
      forall t | 0 <= t < |s.threads| && !s.threads[t].Idle? ensures !CanStep(s, t) {
        assert Waiting(s, t);
        BlockedOnTokens(s, t);
      }
      assert !s.threads[u].Idle?;
    }
  }

  /** Theorem: it takes two writers. While at most one thread gathers tokens the
    * governor is never stuck. */
  lemma StuckNeedsTwoWriters(s: State) returns (t: nat, u: nat)
    requires Inv(s) && s.max > 0 && Stuck(s)
    ensures t < |s.threads| && u < |s.threads| && t != u
    ensures s.threads[t].Gathering? && s.threads[t].n > 0
    ensures s.threads[u].Gathering? && s.threads[u].n > 0
  {
    StuckIff(s);
    t := TotalPositive(s.threads, HeldBy(s.max));
    assert Waiting(s, t);
    TotalUpdate(s.threads, HeldBy(s.max), t, Idle);
    var others := s.threads[t := Idle];
    u := TotalPositive(others, HeldBy(s.max));
    assert Waiting(s, u);
  }

  /** Theorem: once stuck it stays stuck. Threads may still come in, but all inside,
    * and they, wait for ever. */
  lemma StuckForGood(s: State, t: nat, s': State)
    requires Inv(s) && s.max > 0 && Stuck(s) && Next(s, t, s')
    ensures Stuck(s') && s.threads[t].Idle?
    ensures forall u :: 0 <= u < |s.threads| && !s.threads[u].Idle? ==> s'.threads[u] == s.threads[u]
  {
    hide Inv;
    StuckIff(s);
    StepKeeps(s, t, s');
    StuckIff(s');
    var u :| 0 <= u < |s.threads| && !s.threads[u].Idle?;
    assert s'.threads[u] == s.threads[u];
  }

  // ------------------------------------------------- which limits let it get stuck

  ghost predicate Reachable(max: nat, threads: nat, s: State) {
    exists trace, who :: Run(max, threads, trace, who) && trace[|who|] == s
  }

  lemma InitReachable(max: nat, threads: nat)
    ensures Reachable(max, threads, Init(max, threads))
  {
    var trace, who: seq<nat> := [Init(max, threads)], [];
    assert Run(max, threads, trace, who) && trace[|who|] == Init(max, threads);
  }

  lemma OneMoreStep(max: nat, threads: nat, s: State, t: nat, s': State)
    requires Reachable(max, threads, s) && Next(s, t, s')
    ensures Reachable(max, threads, s')
  {
    hide Next;
    var trace, who :| Run(max, threads, trace, who) && trace[|who|] == s;
    assert Run(max, threads, trace + [s'], who + [t]);
  }

  /** Threads 0 and 1 in WriteLock, with `n` tokens and `m`. */
  function TwoWriters(max: nat, threads: nat, n: nat, m: nat): State
    requires threads >= 2 && n + m <= max
  {
    State(max, max - n - m, 0, false, false, Init(max, threads).threads[0 := Gathering(n)][1 := Gathering(m)])
  }

  lemma {:induction false} FirstWriterGathers(max: nat, threads: nat, n: nat)
    requires threads >= 2 && n <= max
    ensures Reachable(max, threads, TwoWriters(max, threads, n, 0))
  {
    var s := TwoWriters(max, threads, n, 0);
    if n > 0 {
      FirstWriterGathers(max, threads, n - 1);
      var before := TwoWriters(max, threads, n - 1, 0);
      assert s.threads == before.threads[0 := Gathering(n)];
      OneMoreStep(max, threads, before, 0, s);
    } else {
      var init := Init(max, threads);
      InitReachable(max, threads);
      OneMoreStep(max, threads, init, 0, Move(init, 0, Gathering(0)));
      OneMoreStep(max, threads, Move(init, 0, Gathering(0)), 1, s);
    }
  }

  /** Without a limit whoever has the mutex can go on, else the first to want it. */
  lemma SomeoneMoves(s: State, t: nat) returns (u: nat)
    requires Inv(s) && s.max == 0 && t < |s.threads| && !s.threads[t].Idle?
    ensures u < |s.threads| && !s.threads[u].Idle? && CanStep(s, u)
  {
    if s.rwWriter {
      u := TotalPositive(s.threads, WritingOne);
    } else if s.rwReaders > 0 {
      u := TotalPositive(s.threads, ReadingOne);
    } else if s.rwPending {
      u := TotalPositive(s.threads, PendingOne);
    } else {
      u := t;
      assert PossiblePC(s, s.threads[t]);
      TotalAtLeast(s.threads, ReadingOne, t);
      TotalAtLeast(s.threads, WritingOne, t);
    }
  }

  /** Theorem: the governor can get stuck iff its limit is at least two and so is the
    * number of threads. */
  lemma StuckIffLimits(max: nat, threads: nat)
    ensures (exists s :: Reachable(max, threads, s) && Stuck(s)) <==> max >= 2 && threads >= 2
  {
    if s :| Reachable(max, threads, s) && Stuck(s) {
      var trace, who :| Run(max, threads, trace, who) && trace[|who|] == s;
      RunKeeps(max, threads, trace, who, |who|);
      if max == 0 {
        var t :| 0 <= t < |s.threads| && !s.threads[t].Idle?;
        var u := SomeoneMoves(s, t);
        assert false;
      } else {
        var t, u := StuckNeedsTwoWriters(s);
        TotalOfTwo(s.threads, HeldBy(max), if t < u then t else u, if t < u then u else t);
      }
    }
    if max >= 2 && threads >= 2 {
      FirstWriterGathers(max, threads, max - 1);
      LastTokenBlocks(max, threads);
    }
  }

  lemma LastTokenBlocks(max: nat, threads: nat)
    requires max >= 2 && threads >= 2 && Reachable(max, threads, TwoWriters(max, threads, max - 1, 0))
    ensures Reachable(max, threads, TwoWriters(max, threads, max - 1, 1))
    ensures Stuck(TwoWriters(max, threads, max - 1, 1))
  {
    var before, s := TwoWriters(max, threads, max - 1, 0), TwoWriters(max, threads, max - 1, 1);
    assert s.threads == before.threads[1 := Gathering(1)];
    OneMoreStep(max, threads, before, 1, s);
    assert !s.threads[0].Idle?;
  }
}
