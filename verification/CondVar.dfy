/** `pthread_cond_wait`, `_signal` and `_broadcast` of os2threads.h, as atomic steps of any number of threads. */
module CondVar {

  /** Where a thread is. `all` tells the calls made by a broadcast from a plain signal. */
  datatype Pc =
    | Outside            // does not hold the mutex
    | Inside             // holds the mutex, between calls
    | Counted            // wait: counted, the mutex not yet released
    | Blocked            // wait: the mutex released, waiting for the event semaphore
    | Woken              // wait: took the event
    | Left               // wait: no longer counted
    | Relocking          // wait: acknowledged, waiting for the mutex
    | LoopTest           // broadcast: at the loop test
    | Test(all: bool)    // signal: at the test of wait_count
    | Post(all: bool)    // signal: about to post the event
    | Await(all: bool)   // signal: waiting for the acknowledgement

  datatype Owner = Free | Held(thread: nat)

  datatype State = State(pcs: seq<Pc>, owner: Owner, wait_count: int, event: bool, ack: bool)

  function Move(s: State, t: nat, pc: Pc): State
    requires t < |s.pcs|
  {
    s.(pcs := s.pcs[t := pc])
  }

  /** Where a signal goes on return. */
  function Back(all: bool): Pc { if all then LoopTest else Inside }

  /** One atomic step of thread t. An auto-reset semaphore stays posted until one waiter takes it. */
  ghost predicate Step(s: State, t: nat, s': State)
  {
    t < |s.pcs| &&
    match s.pcs[t]
    case Outside => s.owner == Free && s' == Move(s, t, Inside).(owner := Held(t))
    case Inside =>
      || s' == Move(s, t, Outside).(owner := Free)
      || s' == Move(s, t, Counted).(wait_count := s.wait_count + 1)
      || s' == Move(s, t, Test(false))
      || s' == Move(s, t, LoopTest)
    case Counted => s' == Move(s, t, Blocked).(owner := Free)
    case Blocked => s.event && s' == Move(s, t, Woken).(event := false)
    case Woken => s' == Move(s, t, Left).(wait_count := s.wait_count - 1)
    case Left => s' == Move(s, t, Relocking).(ack := true)
    case Relocking => s.owner == Free && s' == Move(s, t, Inside).(owner := Held(t))
    case LoopTest => s' == Move(s, t, if s.wait_count == 0 then Inside else Test(true))
    case Test(all) => s' == Move(s, t, if s.wait_count == 0 then Back(all) else Post(all))
    case Post(all) => s' == Move(s, t, Await(all)).(event := true)
    case Await(all) => s.ack && s' == Move(s, t, Back(all)).(ack := false)
  }

  ghost predicate Init(s: State)
  {
    && (forall t :: 0 <= t < |s.pcs| ==> s.pcs[t] == Outside)
    && s.owner == Free && s.wait_count == 0 && !s.event && !s.ack
  }

  // ----- counting threads

  function Holding(pc: Pc): bool
  {
    pc.Inside? || pc.Counted? || pc.LoopTest? || pc.Test? || pc.Post? || pc.Await?
  }

  function B(b: bool): nat { if b then 1 else 0 }

  /** Between the increment and the decrement of wait_count. */
  function Waits(pc: Pc): nat { B(pc.Counted? || pc.Blocked? || pc.Woken?) }

  function Wakes(pc: Pc): nat { B(pc.Woken?) }

  function Leaves(pc: Pc): nat { B(pc.Left?) }

  function Total(pcs: seq<Pc>, w: Pc -> nat): nat
  {
    if pcs == [] then 0 else Total(pcs[..|pcs| - 1], w) + w(pcs[|pcs| - 1])
  }

  lemma {:induction false} TotalUpdate(pcs: seq<Pc>, t: nat, pc: Pc, w: Pc -> nat)
    requires t < |pcs|
    ensures Total(pcs[t := pc], w) == Total(pcs, w) - w(pcs[t]) + w(pc)
  {
    var n := |pcs| - 1;
    if t == n {
      assert pcs[t := pc][..n] == pcs[..n];
    } else {
      assert pcs[t := pc][..n] == pcs[..n][t := pc];
      TotalUpdate(pcs[..n], t, pc, w);
    }
  }

  lemma {:induction false} TotalFinds(pcs: seq<Pc>, w: Pc -> nat) returns (t: nat)
    requires Total(pcs, w) > 0
    ensures t < |pcs| && w(pcs[t]) > 0
  {
    if w(pcs[|pcs| - 1]) > 0 {
      t := |pcs| - 1;
    } else {
      t := TotalFinds(pcs[..|pcs| - 1], w);
    }
  }

  lemma {:induction false} TotalAtLeast(pcs: seq<Pc>, w: Pc -> nat, t: nat)
    requires t < |pcs|
    ensures Total(pcs, w) >= w(pcs[t])
  {
    if t < |pcs| - 1 { TotalAtLeast(pcs[..|pcs| - 1], w, t); }
  }

  lemma {:induction false} TotalNone(pcs: seq<Pc>, w: Pc -> nat)
    requires forall t :: 0 <= t < |pcs| ==> w(pcs[t]) == 0
    ensures Total(pcs, w) == 0
  {
    if pcs != [] { TotalNone(pcs[..|pcs| - 1], w); }
  }

  // ----- the invariant

  ghost predicate Mutual(s: State)
  {
    && (s.owner.Held? ==> s.owner.thread < |s.pcs| && Holding(s.pcs[s.owner.thread]))
    && (forall t :: 0 <= t < |s.pcs| && Holding(s.pcs[t]) ==> s.owner == Held(t))
  }

  function OwnerAt(s: State): Pc
  {
    if s.owner.Held? && s.owner.thread < |s.pcs| then s.pcs[s.owner.thread] else Outside
  }

  /** Signals under way: posted, not yet taken, or taken and not yet acknowledged, or acknowledged. */
  function InFlight(s: State): nat
  {
    B(s.event) + B(s.ack) + Total(s.pcs, Wakes) + Total(s.pcs, Leaves)
  }

  ghost predicate Inv(s: State)
  {
    && Mutual(s)
    && s.wait_count == Total(s.pcs, Waits)
    && InFlight(s) == B(OwnerAt(s).Await?)
    && (s.event || OwnerAt(s).Post? || OwnerAt(s) == Test(true) ==> s.wait_count > 0)
  }

  lemma InitInv(s: State)
    requires Init(s)
    ensures Inv(s)
  {
    TotalNone(s.pcs, Waits);
    TotalNone(s.pcs, Wakes);
    TotalNone(s.pcs, Leaves);
  }

  /** What a step does to the three counts. */
  lemma Recount(s: State, t: nat, s': State)
    requires t < |s.pcs| == |s'.pcs| && s'.pcs == s.pcs[t := s'.pcs[t]]
    ensures Total(s'.pcs, Waits) == Total(s.pcs, Waits) - Waits(s.pcs[t]) + Waits(s'.pcs[t])
    ensures Total(s'.pcs, Wakes) == Total(s.pcs, Wakes) - Wakes(s.pcs[t]) + Wakes(s'.pcs[t])
    ensures Total(s'.pcs, Leaves) == Total(s.pcs, Leaves) - Leaves(s.pcs[t]) + Leaves(s'.pcs[t])
    ensures Total(s.pcs, Waits) >= Waits(s.pcs[t]) && Total(s.pcs, Wakes) >= Wakes(s.pcs[t])
    ensures Total(s.pcs, Leaves) >= Leaves(s.pcs[t])
  {
    TotalUpdate(s.pcs, t, s'.pcs[t], Waits);
    TotalUpdate(s.pcs, t, s'.pcs[t], Wakes);
    TotalUpdate(s.pcs, t, s'.pcs[t], Leaves);
    TotalAtLeast(s.pcs, Waits, t);
    TotalAtLeast(s.pcs, Wakes, t);
    TotalAtLeast(s.pcs, Leaves, t);
  }

  /** A step moves one thread, and moves the mutex only with it. */
  lemma StepMoves(s: State, t: nat, s': State)
    requires Step(s, t, s')
    ensures t < |s.pcs| == |s'.pcs| && s'.pcs == s.pcs[t := s'.pcs[t]]
    ensures if Holding(s.pcs[t]) then s'.owner == (if Holding(s'.pcs[t]) then s.owner else Free)
            else if Holding(s'.pcs[t]) then s.owner == Free && s'.owner == Held(t) else s'.owner == s.owner
  {
  }

  lemma StepMutual(s: State, t: nat, s': State)
    requires Mutual(s) && Step(s, t, s')
    ensures Mutual(s')
  {
    StepMoves(s, t, s');
    hide Step, Holding;
  }

  /** Every step of every thread keeps the invariant. */
  lemma StepInv(s: State, t: nat, s': State)
    requires Inv(s) && Step(s, t, s')
    ensures Inv(s')
  {
    StepMoves(s, t, s');
    StepMutual(s, t, s');
    Recount(s, t, s');
    hide Total;
  }

  // ----- runs

  ghost predicate Next(s: State, s': State)
  {
    exists t: nat :: Step(s, t, s')
  }

  ghost predicate IsRun(run: seq<State>)
  {
    && run != []
    && (forall k, l :: 0 <= k < |run| && l == k + 1 < |run| ==> Next(run[k], run[l]))
  }

  /** Runs are what grows from one state by steps. */
  lemma RunsGrow(run: seq<State>, s: State)
    ensures IsRun([s])
    ensures run != [] ==> (IsRun(run + [s]) <==> IsRun(run) && Next(run[|run| - 1], s))
  {
    hide Next;
    if run != [] {
      var more, n := run + [s], |run|;
      assert more[n - 1] == run[n - 1] && more[n] == s;
      if IsRun(more) {
        forall k, l | 0 <= k < n && l == k + 1 < n ensures Next(run[k], run[l]) {
          assert more[k] == run[k] && more[l] == run[l];
        }
        assert Next(more[n - 1], more[n]);
      }
      if IsRun(run) && Next(run[n - 1], s) {
        forall k, l | 0 <= k <= n && l == k + 1 <= n ensures Next(more[k], more[l]) {
          assert l < n ==> Next(run[k], run[l]);
        }
      }
    }
  }

  lemma {:induction false} RunInv(run: seq<State>, k: nat)
    requires IsRun(run) && Inv(run[0]) && k < |run|
    ensures Inv(run[k])
  {
    if k > 0 {
      RunInv(run, k - 1);
      assert Next(run[k - 1], run[k]);
      var t: nat :| Step(run[k - 1], t, run[k]);
      StepInv(run[k - 1], t, run[k]);
    }
  }

  lemma NoneOf(s: State, t: nat)
    requires t < |s.pcs|
    ensures Total(s.pcs, Waits) == 0 ==> Waits(s.pcs[t]) == 0
    ensures Total(s.pcs, Wakes) == 0 ==> Wakes(s.pcs[t]) == 0
    ensures Total(s.pcs, Leaves) == 0 ==> Leaves(s.pcs[t]) == 0
  {
    TotalAtLeast(s.pcs, Waits, t);
    TotalAtLeast(s.pcs, Wakes, t);
    TotalAtLeast(s.pcs, Leaves, t);
  }

  /**
   * In every interleaving: wait_count is the number of threads between the increment and the decrement, both
   * semaphores are clear unless a signal awaits its acknowledgement, and no post is made on a posted semaphore.
   */
  lemma Protocol(run: seq<State>, k: nat)
    requires IsRun(run) && Init(run[0]) && k < |run|
    ensures var s := run[k];
      && s.wait_count == Total(s.pcs, Waits)
      && (!OwnerAt(s).Await? ==> !s.event && !s.ack)
      && (forall t, u :: 0 <= t < u < |s.pcs| ==> !(Holding(s.pcs[t]) && Holding(s.pcs[u])))
      && (forall t :: 0 <= t < |s.pcs| && s.pcs[t].Post? ==> !s.event)
      && (forall t :: 0 <= t < |s.pcs| && s.pcs[t].Left? ==> !s.ack)
  {
    InitInv(run[0]);
    RunInv(run, k);
    var s := run[k];
    forall t | 0 <= t < |s.pcs| && s.pcs[t].Left? ensures !s.ack {
      TotalAtLeast(s.pcs, Leaves, t);
    }
    hide Total, IsRun;
  }

  // ----- a call of signal or broadcast

  predicate Signalling(pc: Pc) { pc.LoopTest? || pc.Test? || pc.Post? || pc.Await? }

  /** Steps left until the call in progress returns. */
  function Rank(s: State): int
  {
    var phase :=
      if s.event then 4 else if Total(s.pcs, Wakes) > 0 then 3 else if Total(s.pcs, Leaves) > 0 then 2 else 1;
    match OwnerAt(s)
    case LoopTest => 7 * s.wait_count + 1
    case Test(all) => if all then 7 * s.wait_count else if s.wait_count == 0 then 1 else 6
    case Post(all) => if all then 7 * s.wait_count - 1 else 5
    case Await(all) =>
      if !all then phase else if phase >= 3 then 7 * s.wait_count - 6 + phase else 7 * s.wait_count + 1 + phase
    case _ => 0
  }

  /** While a signal is under way every step of any thread brings its return one step nearer. */
  lemma StepRank(s: State, t: nat, s': State)
    requires Inv(s) && Signalling(OwnerAt(s)) && Step(s, t, s')
    ensures Rank(s') == Rank(s) - 1 && s'.owner == s.owner
    ensures OwnerAt(s') == Inside || Signalling(OwnerAt(s'))
    ensures OwnerAt(s') == Inside <==> Rank(s') == 0
  {
    StepMoves(s, t, s');
    Recount(s, t, s');
    StepInv(s, t, s');
    hide Total;
  }

  /** A call in progress is never stuck: the caller or the thread it is releasing can move. */
  lemma Progress(s: State) returns (t: nat, s': State)
    requires Inv(s) && Signalling(OwnerAt(s))
    ensures Step(s, t, s')
  {
    var o := s.owner.thread;
    match s.pcs[o]
    case LoopTest => t, s' := o, Move(s, o, if s.wait_count == 0 then Inside else Test(true));
    case Test(all) => t, s' := o, Move(s, o, if s.wait_count == 0 then Back(all) else Post(all));
    case Post(all) => t, s' := o, Move(s, o, Await(all)).(event := true);
    case Await(all) =>
      if s.ack {
        t, s' := o, Move(s, o, Back(all)).(ack := false);
      } else if s.event {
        t := WaiterBlocked(s);
        s' := Move(s, t, Woken).(event := false);
      } else if Total(s.pcs, Wakes) > 0 {
        t := TotalFinds(s.pcs, Wakes);
        s' := Move(s, t, Left).(wait_count := s.wait_count - 1);
      } else {
        t := TotalFinds(s.pcs, Leaves);
        s' := Move(s, t, Relocking).(ack := true);
      }
  }

  /** While a signal has posted, a counted thread is blocked. */
  lemma WaiterBlocked(s: State) returns (t: nat)
    requires Inv(s) && s.event
    ensures t < |s.pcs| && s.pcs[t] == Blocked
  {
    t := TotalFinds(s.pcs, Waits);
    NoneOf(s, t);
    hide Total;
  }

  predicate InBroadcast(pc: Pc) { pc.LoopTest? || (Signalling(pc) && !pc.LoopTest? && pc.all) }

  /** A broadcast goes on until no thread waits. */
  lemma StepBroadcast(s: State, t: nat, s': State)
    requires Inv(s) && InBroadcast(OwnerAt(s)) && Step(s, t, s')
    ensures InBroadcast(OwnerAt(s')) || (OwnerAt(s') == Inside && s'.wait_count == 0)
  {
    StepRank(s, t, s');
    hide Rank, Total;
  }

  /** Thread by thread, what a broadcast by t may have done since it began. */
  ghost predicate Released(first: State, s: State, t: nat)
  {
    && |s.pcs| == |first.pcs| && s.owner == Held(t)
    && (forall u: nat :: u < |s.pcs| && u != t ==>
        s.pcs[u] == first.pcs[u] || (first.pcs[u].Blocked?
          && (s.pcs[u].Woken? || s.pcs[u].Left? || s.pcs[u].Relocking?)))
  }

  lemma ReleasedStep(first: State, s: State, t: nat, v: nat, s': State)
    requires Inv(s) && Signalling(OwnerAt(s)) && Released(first, s, t) && Step(s, v, s')
    requires forall u: nat :: u < |first.pcs| ==> !first.pcs[u].Woken? && !first.pcs[u].Left?
    ensures Released(first, s', t)
  {
    StepMoves(s, v, s');
    StepRank(s, v, s');
    hide Rank, InFlight, Total;
  }

  /** What a run of a call looks like after k steps. */
  lemma {:induction false} CallAt(run: seq<State>, t: nat, k: nat)
    requires IsRun(run) && Inv(run[0]) && run[0].owner == Held(t) && Signalling(OwnerAt(run[0]))
      && !OwnerAt(run[0]).Await?
    requires k < |run| && k <= Rank(run[0])
    ensures Inv(run[k]) && Rank(run[k]) == Rank(run[0]) - k && Released(run[0], run[k], t)
    ensures if k < Rank(run[0]) then Signalling(OwnerAt(run[k])) else OwnerAt(run[k]) == Inside
    ensures InBroadcast(OwnerAt(run[0])) ==> InBroadcast(OwnerAt(run[k])) || run[k].wait_count == 0
  {
    RunInv(run, k);
    NoneInFlight(run[0]);
    if k > 0 {
      CallAt(run, t, k - 1);
      assert Next(run[k - 1], run[k]);
      var v: nat :| Step(run[k - 1], v, run[k]);
      StepRank(run[k - 1], v, run[k]);
      if InBroadcast(OwnerAt(run[k - 1])) { StepBroadcast(run[k - 1], v, run[k]); }
      ReleasedStep(run[0], run[k - 1], t, v, run[k]);
    } else {
      CallRank(run[0]);
    }
    hide *;
  }

  lemma CallRank(s: State)
    requires Inv(s) && Signalling(OwnerAt(s)) && !OwnerAt(s).Await?
    ensures Rank(s) > 0 && Released(s, s, s.owner.thread)
  {
    hide Total;
  }

  lemma NoneInFlight(s: State)
    requires Inv(s) && !OwnerAt(s).Await?
    ensures forall u: nat :: u < |s.pcs| ==> !s.pcs[u].Woken? && !s.pcs[u].Left?
  {
    forall u: nat | u < |s.pcs| ensures !s.pcs[u].Woken? && !s.pcs[u].Left? {
      NoneOf(s, u);
    }
  }

  lemma AllGone(first: State, last: State, t: nat)
    requires Inv(last) && OwnerAt(last) == Inside && last.wait_count == 0 && Released(first, last, t)
    ensures !last.event && !last.ack && t < |last.pcs| == |first.pcs|
    ensures forall u: nat :: u < |last.pcs| ==>
      last.pcs[u] == if u == t then Inside else if first.pcs[u] == Blocked then Relocking else first.pcs[u]
  {
    forall u: nat | u < |last.pcs|
      ensures last.pcs[u] == if u == t then Inside else if first.pcs[u] == Blocked then Relocking else first.pcs[u]
    {
      NoneOf(last, u);
    }
  }

  /**
   * A broadcast that finds n threads waiting returns after exactly 7n + 1 steps of any interleaving, having
   * sent exactly those threads on to take the mutex again and touched no other thread.
   */
  lemma BroadcastReleasesAll(run: seq<State>, t: nat)
    requires IsRun(run) && Inv(run[0]) && t < |run[0].pcs| && run[0].pcs[t] == LoopTest
    requires |run| == 7 * Total(run[0].pcs, Waits) + 2
    ensures var first, last := run[0], run[|run| - 1];
      && |last.pcs| == |first.pcs| && last.wait_count == 0 && !last.event && !last.ack && last.owner == first.owner
      && (forall u: nat :: u < |last.pcs| ==>
          last.pcs[u] == if u == t then Inside else if first.pcs[u] == Blocked then Relocking else first.pcs[u])
    ensures forall k :: 0 <= k < |run| - 1 ==> Signalling(OwnerAt(run[k]))
  {
    var n := |run| - 1;
    CallAt(run, t, n);
    forall k | 0 <= k < n ensures Signalling(OwnerAt(run[k])) {
      CallAt(run, t, k);
    }
    AllGone(run[0], run[n], t);
    hide *;
  }

  // ----- a plain signal

  /** Only t has moved since the call began; or t and one waiter u. */
  ghost predicate OnlyCaller(first: State, s: State, t: nat)
  {
    t < |first.pcs| == |s.pcs| && s.pcs == first.pcs[t := s.pcs[t]]
  }

  ghost predicate CallerAnd(first: State, s: State, t: nat, u: nat)
  {
    && t < |first.pcs| == |s.pcs| && u < |s.pcs| && u != t && first.pcs[u].Blocked?
    && s.pcs == first.pcs[t := s.pcs[t]][u := s.pcs[u]]
    && (s.pcs[u].Woken? || s.pcs[u].Left? || s.pcs[u].Relocking?)
  }

  ghost predicate OneReleased(first: State, s: State, t: nat)
  {
    exists u: nat :: CallerAnd(first, s, t, u)
  }

  ghost predicate PlainSignal(s: State, t: nat)
  {
    Inv(s) && s.owner == Held(t) && Signalling(OwnerAt(s)) && !InBroadcast(OwnerAt(s))
      && (OwnerAt(s).Test? ==> s.wait_count > 0)
  }

  lemma BeforeTaking(first: State, s: State, t: nat, v: nat, s': State)
    requires PlainSignal(s, t) && Rank(s) >= 4 && OnlyCaller(first, s, t) && Step(s, v, s')
    requires forall u: nat :: u < |first.pcs| ==> !first.pcs[u].Woken? && !first.pcs[u].Left?
    ensures if Rank(s) > 4 then OnlyCaller(first, s', t) else OneReleased(first, s', t)
  {
    StepMoves(s, v, s');
    if v != t {
      assert CallerAnd(first, s', t, v) || Rank(s) > 4;
    }
    hide Total;
  }

  lemma AfterTaking(first: State, s: State, t: nat, v: nat, s': State)
    requires PlainSignal(s, t) && OneReleased(first, s, t) && Step(s, v, s')
    requires forall u: nat :: u < |first.pcs| ==> !first.pcs[u].Woken? && !first.pcs[u].Left?
    requires Rank(s) < 4
    ensures OneReleased(first, s', t)
  {
    var u: nat :| CallerAnd(first, s, t, u);
    StepMoves(s, v, s');
    assert s'.pcs == first.pcs[t := s'.pcs[t]][u := s'.pcs[u]];
    assert CallerAnd(first, s', t, u);
    hide Total;
  }

  lemma PlainStep(s: State, t: nat, v: nat, s': State)
    requires PlainSignal(s, t) && Step(s, v, s')
    ensures Inv(s') && s'.owner == Held(t) && Rank(s') == Rank(s) - 1
    ensures Rank(s') > 0 ==> PlainSignal(s', t)
    ensures Rank(s') == 0 ==> OwnerAt(s') == Inside
    ensures s'.wait_count == s.wait_count - (if Rank(s) == 3 then 1 else 0)
  {
    StepInv(s, v, s');
    StepRank(s, v, s');
    StepMoves(s, v, s');
    hide Total;
  }

  lemma {:induction false} SignalAt(run: seq<State>, t: nat, k: nat)
    requires IsRun(run) && PlainSignal(run[0], t) && Rank(run[0]) == 6 && k <= 6 && k < |run|
    ensures Inv(run[k]) && run[k].owner == Held(t) && Rank(run[k]) == 6 - k
    ensures if k < 6 then PlainSignal(run[k], t) else OwnerAt(run[k]) == Inside
    ensures if k <= 2 then OnlyCaller(run[0], run[k], t) else OneReleased(run[0], run[k], t)
    ensures run[k].wait_count == run[0].wait_count - (if k >= 4 then 1 else 0)
  {
    NoneInFlight(run[0]);
    if k > 0 {
      SignalAt(run, t, k - 1);
      assert Next(run[k - 1], run[k]);
      var v: nat :| Step(run[k - 1], v, run[k]);
      PlainStep(run[k - 1], t, v, run[k]);
      if k <= 3 {
        BeforeTaking(run[0], run[k - 1], t, v, run[k]);
      } else {
        AfterTaking(run[0], run[k - 1], t, v, run[k]);
      }
    } else {
      assert run[0].pcs == run[0].pcs[t := run[0].pcs[t]];
    }
    hide *;
  }

  /**
   * A signal that finds a waiter returns after exactly six steps of any interleaving, having sent exactly one
   * waiting thread on to take the mutex again and touched no other thread; one that finds none changes nothing.
   */
  lemma SignalReleasesOne(run: seq<State>, t: nat)
    requires IsRun(run) && Inv(run[0]) && t < |run[0].pcs| && run[0].pcs[t] == Test(false)
    requires |run| == if Total(run[0].pcs, Waits) > 0 then 7 else 2
    ensures var first, last := run[0], run[|run| - 1];
      && last.owner == first.owner && !last.event && !last.ack
      && if Total(first.pcs, Waits) == 0 then last.pcs == first.pcs[t := Inside] && last.wait_count == 0
         else last.wait_count == first.wait_count - 1
              && exists u: nat :: u < |first.pcs| && u != t && first.pcs[u] == Blocked
                                  && last.pcs == first.pcs[t := Inside][u := Relocking]
  {
    var first, last := run[0], run[|run| - 1];
    if Total(first.pcs, Waits) == 0 {
      assert Next(run[0], run[1]);
      var v: nat :| Step(run[0], v, run[1]);
      NoneInFlight(first);
      OnlyCallerSteps(first, t, v, last);
    } else {
      SignalAt(run, t, 6);
      OneGone(first, last, t);
    }
    hide *;
  }

  lemma OnlyCallerSteps(s: State, t: nat, v: nat, s': State)
    requires Inv(s) && t < |s.pcs| && s.pcs[t] == Test(false) && s.wait_count == 0 && Step(s, v, s')
    ensures s'.pcs == s.pcs[t := Inside] && s'.wait_count == 0 && s'.owner == s.owner && !s'.event && !s'.ack
  {
    NoneOf(s, v);
    hide Total;
  }

  lemma OneGone(first: State, last: State, t: nat)
    requires Inv(last) && OwnerAt(last) == Inside && last.owner == Held(t) && OneReleased(first, last, t)
    ensures !last.event && !last.ack
    ensures exists u: nat :: u < |first.pcs| && u != t && first.pcs[u] == Blocked
                             && last.pcs == first.pcs[t := Inside][u := Relocking]
  {
    var u: nat :| CallerAnd(first, last, t, u);
    NoneOf(last, u);
    hide Total;
  }

  // ----- a call of wait

  /** Between the increment of wait_count and the mutex taken again. */
  predicate Waiting(pc: Pc) { pc.Counted? || pc.Blocked? || pc.Woken? || pc.Left? || pc.Relocking? }

  function At(run: seq<State>, k: nat, t: nat): Pc
    requires k < |run|
  {
    if t < |run[k].pcs| then run[k].pcs[t] else Outside
  }

  lemma OneMoves(run: seq<State>, t: nat, k: nat)
    requires IsRun(run) && k + 1 < |run|
    ensures At(run, k + 1, t) != At(run, k, t) ==> Step(run[k], t, run[k + 1])
  {
    assert Next(run[k], run[k + 1]);
    var u: nat :| Step(run[k], u, run[k + 1]);
    StepMoves(run[k], u, run[k + 1]);
    hide Step, IsRun, Next, Holding;
  }

  /** The first step after k that moves thread t is its own. */
  lemma {:induction false} FirstMove(run: seq<State>, t: nat, k: nat, m: nat) returns (j: nat)
    requires IsRun(run) && k < m < |run| && At(run, k, t) != At(run, m, t)
    ensures k <= j < m && (forall i :: k <= i <= j ==> At(run, i, t) == At(run, k, t))
    ensures At(run, j + 1, t) != At(run, k, t) && Step(run[j], t, run[j + 1])
    decreases m - k
  {
    hide Step, IsRun, At;
    OneMoves(run, t, k);
    if At(run, k + 1, t) != At(run, k, t) { j := k; } else { j := FirstMove(run, t, k + 1, m); }
  }

  /** The steps of a wait. */
  lemma WaitStep(s: State, t: nat, s': State)
    requires Step(s, t, s') && Waiting(s.pcs[t])
    ensures |s'.pcs| == |s.pcs|
    ensures s.pcs[t].Counted? ==> s'.pcs[t] == Blocked && s'.owner == Free
    ensures s.pcs[t].Blocked? ==> s'.pcs[t] == Woken && s.event && !s'.event
    ensures s.pcs[t].Woken? ==> s'.pcs[t] == Left && s'.wait_count == s.wait_count - 1
    ensures s.pcs[t].Left? ==> s'.pcs[t] == Relocking && s'.ack
    ensures s.pcs[t].Relocking? ==> s'.pcs[t] == Inside && s.owner == Free && s'.owner == Held(t)
  {
  }

  /** The next step of a thread in a wait. */
  lemma WaitMove(run: seq<State>, t: nat, k: nat, m: nat) returns (j: nat)
    requires IsRun(run) && k < m < |run| && Waiting(At(run, k, t)) && !Waiting(At(run, m, t))
    ensures k <= j < m && (forall i :: k <= i <= j ==> At(run, i, t) == At(run, k, t))
    ensures t < |run[j].pcs| == |run[j + 1].pcs| && run[j].pcs[t] == At(run, k, t)
    ensures Step(run[j], t, run[j + 1])
  {
    hide Step, IsRun;
    j := FirstMove(run, t, k, m);
    assert At(run, j, t) == At(run, k, t);
    WaitStep(run[j], t, run[j + 1]);
  }

  lemma InvAt(run: seq<State>, k: nat)
    requires IsRun(run) && Init(run[0]) && k < |run|
    ensures Inv(run[k])
  {
    InitInv(run[0]);
    RunInv(run, k);
  }

  /** A thread that has been woken finds no acknowledgement posted. */
  lemma NoAckYet(s: State, t: nat)
    requires Inv(s) && t < |s.pcs| && s.pcs[t].Left?
    ensures !s.ack
  {
    TotalAtLeast(s.pcs, Leaves, t);
  }

  lemma HeldWhileCounted(s: State, t: nat)
    requires Inv(s) && t < |s.pcs| && s.pcs[t].Counted?
    ensures s.owner == Held(t)
  {
    assert Holding(s.pcs[t]);
    hide Total;
  }

  lemma EndOfWait(run: seq<State>, t: nat, k: nat, m: nat, j: nat)
    requires k <= j <= m < |run| && (forall i :: k <= i < m ==> Waiting(At(run, i, t))) && !Waiting(At(run, j, t))
    ensures j == m
  {
  }

  /** Where the thread is before its step of these numbers. */
  function InTurn(i: int, release: nat, take: nat, uncount: nat, answer: nat): Pc
  {
    if i <= release then Counted
    else if i <= take then Blocked
    else if i <= uncount then Woken
    else if i <= answer then Left
    else Relocking
  }

  /**
   * A wait in any run: when thread t is first no longer in it, it holds the mutex. Until then it has moved exactly
   * five times: it gave the mutex free, took one posted event, uncounted itself, posted one acknowledgement where
   * none was posted, and took the free mutex.
   */
  lemma WaitRun(run: seq<State>, t: nat, k: nat, m: nat)
      returns (release: nat, take: nat, uncount: nat, answer: nat, relock: nat)
    requires IsRun(run) && Init(run[0]) && k < m < |run| && At(run, k, t).Counted? && !Waiting(At(run, m, t))
    requires forall i :: k <= i < m ==> Waiting(At(run, i, t))
    ensures run[m].owner == Held(t) && At(run, m, t) == Inside
    ensures k <= release < take < uncount < answer < relock == m - 1
    ensures forall i :: k <= i < m ==> At(run, i, t) == InTurn(i, release, take, uncount, answer)
    ensures run[release].owner == Held(t) && run[release + 1].owner == Free
    ensures run[take].event && !run[take + 1].event
    ensures run[uncount + 1].wait_count == run[uncount].wait_count - 1
    ensures !run[answer].ack && run[answer + 1].ack
    ensures run[relock].owner == Free && run[m].owner == Held(t)
  {
    hide Step, IsRun, Inv, Init, Holding;
    release := WaitMove(run, t, k, m);
    WaitStep(run[release], t, run[release + 1]);
    InvAt(run, release);
    HeldWhileCounted(run[release], t);
    take := WaitMove(run, t, release + 1, m);
    WaitStep(run[take], t, run[take + 1]);
    uncount := WaitMove(run, t, take + 1, m);
    WaitStep(run[uncount], t, run[uncount + 1]);
    answer := WaitMove(run, t, uncount + 1, m);
    WaitStep(run[answer], t, run[answer + 1]);
    InvAt(run, answer);
    NoAckYet(run[answer], t);
    relock := WaitMove(run, t, answer + 1, m);
    WaitStep(run[relock], t, run[relock + 1]);
    EndOfWait(run, t, k, m, relock + 1);
  }
}
