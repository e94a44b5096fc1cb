/** `pthread_once` of os2threads.h, as atomic steps of any number of threads. */
module Once {

  datatype Pc =
    | Start       // about to test done without the lock
    | Request     // saw it clear, waiting for the lock
    | Recheck     // holds the lock, about to test again
    | Running     // in the routine
    | Storing     // the routine has returned, done not yet set
    | Releasing   // about to release the lock
    | Returned

  datatype Owner = Free | Held(thread: nat)

  /** `started` and `finished` count the runs of the routine. */
  datatype State = State(pcs: seq<Pc>, owner: Owner, done: bool, started: nat, finished: nat)

  function Move(s: State, t: nat, pc: Pc): State
    requires t < |s.pcs|
  {
    s.(pcs := s.pcs[t := pc])
  }

  ghost predicate Step(s: State, t: nat, s': State)
  {
    t < |s.pcs| &&
    match s.pcs[t]
    case Start => s' == Move(s, t, if s.done then Returned else Request)
    case Request => s.owner == Free && s' == Move(s, t, Recheck).(owner := Held(t))
    case Recheck => s' == if s.done then Move(s, t, Releasing) else Move(s, t, Running).(started := s.started + 1)
    case Running => s' == Move(s, t, Storing).(finished := s.finished + 1)
    case Storing => s' == Move(s, t, Releasing).(done := true)
    case Releasing => s' == Move(s, t, Returned).(owner := Free)
    case Returned => false
  }

  ghost predicate Init(s: State)
  {
    && (forall t :: 0 <= t < |s.pcs| ==> s.pcs[t] == Start)
    && s.owner == Free && !s.done && s.started == 0 && s.finished == 0
  }

  function Holding(pc: Pc): bool { pc.Recheck? || pc.Running? || pc.Storing? || pc.Releasing? }

  function OwnerAt(s: State): Pc
  {
    if s.owner.Held? && s.owner.thread < |s.pcs| then s.pcs[s.owner.thread] else Start
  }

  ghost predicate Inv(s: State)
  {
    && (s.owner.Held? ==> s.owner.thread < |s.pcs| && Holding(s.pcs[s.owner.thread]))
    && (forall t :: 0 <= t < |s.pcs| && Holding(s.pcs[t]) ==> s.owner == Held(t))
    && (forall t :: 0 <= t < |s.pcs| && (s.pcs[t].Returned? || s.pcs[t].Releasing?) ==> s.done)
    && s.started == (if s.done || OwnerAt(s).Running? || OwnerAt(s).Storing? then 1 else 0)
    && s.finished == (if s.done || OwnerAt(s).Storing? then 1 else 0)
    && (OwnerAt(s).Running? || OwnerAt(s).Storing? ==> !s.done)
  }

  lemma StepInv(s: State, t: nat, s': State)
    requires Inv(s) && Step(s, t, s')
    ensures Inv(s')
  {
  }

  // ----- runs

  ghost predicate Next(s: State, s': State)
  {
    exists t: nat :: Step(s, t, s')
  }

  ghost predicate IsRun(run: seq<State>)
  {
    && run != [] && Init(run[0])
    && (forall k, l :: 0 <= k < |run| && l == k + 1 < |run| ==> Next(run[k], run[l]))
  }

  /** Runs are what grows from an initial state by steps. */
  lemma RunsGrow(run: seq<State>, s: State)
    ensures Init(s) ==> IsRun([s])
    ensures run != [] ==> (IsRun(run + [s]) <==> IsRun(run) && Next(run[|run| - 1], s))
  {
    hide Next, Init;
    if run != [] {
      var more, n := run + [s], |run|;
      assert more[n - 1] == run[n - 1] && more[n] == s;
      if IsRun(more) {
        forall k, l | 0 <= k < n && l == k + 1 < n ensures Next(run[k], run[l]) {
          assert more[k] == run[k] && more[l] == run[l];
        }
        assert Next(more[n - 1], more[n]);
      }
      if IsRun(run) && Next(run[n - 1], s) {
        forall k, l | 0 <= k <= n && l == k + 1 <= n ensures Next(more[k], more[l]) {
          assert l < n ==> Next(run[k], run[l]);
        }
      }
    }
  }

  /** Steps a thread has left at most. */
  function Left(pc: Pc): nat
  {
    match pc
    case Start => 6
    case Request => 5
    case Recheck => 4
    case Running => 3
    case Storing => 2
    case Releasing => 1
    case Returned => 0
  }

  function AllLeft(pcs: seq<Pc>): nat
  {
    if pcs == [] then 0 else AllLeft(pcs[..|pcs| - 1]) + Left(pcs[|pcs| - 1])
  }

  lemma {:induction false} LeftUpdate(pcs: seq<Pc>, t: nat, pc: Pc)
    requires t < |pcs|
    ensures AllLeft(pcs[t := pc]) == AllLeft(pcs) - Left(pcs[t]) + Left(pc)
  {
    var n := |pcs| - 1;
    if t == n {
      assert pcs[t := pc][..n] == pcs[..n];
    } else {
      assert pcs[t := pc][..n] == pcs[..n][t := pc];
      LeftUpdate(pcs[..n], t, pc);
    }
  }

  lemma {:induction false} LeftAtStart(pcs: seq<Pc>)
    requires forall t :: 0 <= t < |pcs| ==> pcs[t] == Start
    ensures AllLeft(pcs) == 6 * |pcs|
  {
    if pcs != [] { LeftAtStart(pcs[..|pcs| - 1]); }
  }

  lemma {:induction false} RunInv(run: seq<State>, k: nat)
    requires IsRun(run) && k < |run|
    ensures Inv(run[k]) && |run[k].pcs| == |run[0].pcs| && AllLeft(run[k].pcs) <= 6 * |run[0].pcs| - k
  {
    if k == 0 {
      LeftAtStart(run[0].pcs);
    } else {
      RunInv(run, k - 1);
      assert Next(run[k - 1], run[k]);
      var t: nat :| Step(run[k - 1], t, run[k]);
      StepInv(run[k - 1], t, run[k]);
      LeftUpdate(run[k - 1].pcs, t, run[k].pcs[t]);
      hide AllLeft, IsRun;
    }
  }

  /** Unless every thread has returned, one of them can move: nobody waits for ever. */
  lemma Progress(s: State, t: nat)
    requires Inv(s) && t < |s.pcs| && s.pcs[t] != Returned
    ensures exists s' :: Next(s, s')
  {
    var u := if s.pcs[t] == Request && s.owner.Held? then s.owner.thread else t;
    var s' := match s.pcs[u]
      case Start => Move(s, u, if s.done then Returned else Request)
      case Request => Move(s, u, Recheck).(owner := Held(u))
      case Recheck => if s.done then Move(s, u, Releasing) else Move(s, u, Running).(started := s.started + 1)
      case Running => Move(s, u, Storing).(finished := s.finished + 1)
      case Storing => Move(s, u, Releasing).(done := true)
      case Releasing => Move(s, u, Returned).(owner := Free);
    assert Step(s, u, s');
    assert Next(s, s');
  }

  /**
   * In every interleaving of n callers the routine starts at most once, and has run to its end, exactly once,
   * before any caller returns; every run ends within 6n steps.
   */
  lemma RunsOnce(run: seq<State>, k: nat)
    requires IsRun(run) && k < |run|
    ensures run[k].finished <= run[k].started <= 1
    ensures forall t :: 0 <= t < |run[k].pcs| && run[k].pcs[t].Returned? ==> run[k].started == run[k].finished == 1
    ensures |run| - 1 <= 6 * |run[0].pcs|
  {
    RunInv(run, k);
    RunInv(run, |run| - 1);
    hide IsRun, AllLeft;
  }

  ghost predicate Stuck(s: State)
  {
    forall s' :: !Next(s, s')
  }

  /** A run that can go no further has all its callers returned. */
  lemma RunsEnd(run: seq<State>)
    requires IsRun(run) && Stuck(run[|run| - 1])
    ensures var last := run[|run| - 1];
      && (forall t :: 0 <= t < |last.pcs| ==> last.pcs[t] == Returned)
      && |last.pcs| == |run[0].pcs| && (run[0].pcs != [] ==> last.finished == 1)
  {
    var n := |run| - 1;
    RunInv(run, n);
    forall t: nat | t < |run[n].pcs| ensures run[n].pcs[t] == Returned {
      if run[n].pcs[t] != Returned { Progress(run[n], t); }
    }
    if run[0].pcs != [] { assert run[n].pcs[0] == Returned; }
    hide IsRun, AllLeft, Next;
  }

  /** Once the routine has run, a caller returns by one step of its own, whoever holds the lock. */
  lemma ReturnsAtOnce(s: State, t: nat)
    requires t < |s.pcs| && s.pcs[t] == Start && s.done
    ensures exists s' :: Step(s, t, s')
    ensures forall s' :: Step(s, t, s') ==> s'.pcs[t] == Returned && s'.owner == s.owner
  {
    assert Step(s, t, Move(s, t, Returned));
  }
}
