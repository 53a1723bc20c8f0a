/** The reusable barrier of libuv/src/win/thread.c, as a state machine over the atomic steps
    of its threads, for any number of threads and of rounds. */
module Barrier {
  import opened Options

  /** Where a thread is in uv_barrier_wait, by the operation it performs next. */
  datatype Pc =
    | Outside        // not in the call
    | Lock1          // uv_mutex_lock
    | Arrive         // ++count == n
    | TakeTurn2      // the last one: uv_sem_wait(turnstile2)
    | PostTurn1      // uv_sem_post(turnstile1)
    | Unlock1        // uv_mutex_unlock
    | Wait1          // uv_sem_wait(turnstile1)
    | Pass1          // uv_sem_post(turnstile1)
    | Lock2          // uv_mutex_lock
    | Leave          // --count == 0
    | TakeTurn1      // the last one: uv_sem_wait(turnstile1)
    | PostTurn2      // uv_sem_post(turnstile2)
    | Unlock2        // uv_mutex_unlock
    | Wait2          // uv_sem_wait(turnstile2)
    | Pass2          // uv_sem_post(turnstile2)

  datatype State = State(
    n: nat,
    count: int,
    mutex: Option<nat>,
    turnstile1: nat,
    turnstile2: nat,
    pc: seq<Pc>,
    entered: seq<nat>,     // calls each thread has entered
    returned: seq<nat>)    // calls each thread has returned from

  /** uv_barrier_init, before any thread has called. */
  function Initial(n: nat): State {
    State(n, 0, None, 0, 1, seq(n, _ => Outside), seq(n, _ => 0), seq(n, _ => 0))
  }

  predicate Shaped(s: State) {
    |s.pc| == |s.entered| == |s.returned| == s.n
  }

  function At(s: State, t: nat, pc: Pc): State
    requires Shaped(s) && t < s.n
  {
    s.(pc := s.pc[t := pc])
  }

  /** The next step of thread `t`, if it is not blocked. */
  function Next(s: State, t: nat): (r: Option<State>)
    requires Shaped(s) && t < s.n
    ensures r.Some? ==> Shaped(r.value) && r.value.n == s.n
  {
    match s.pc[t]
    case Outside => Some(At(s, t, Lock1).(entered := s.entered[t := s.entered[t] + 1]))
    case Lock1 => if s.mutex == None then Some(At(s, t, Arrive).(mutex := Some(t))) else None
    case Arrive =>
      Some(At(s, t, if s.count + 1 == s.n then TakeTurn2 else Unlock1).(count := s.count + 1))
    case TakeTurn2 =>
      if s.turnstile2 > 0 then Some(At(s, t, PostTurn1).(turnstile2 := s.turnstile2 - 1)) else None
    case PostTurn1 => Some(At(s, t, Unlock1).(turnstile1 := s.turnstile1 + 1))
    case Unlock1 => Some(At(s, t, Wait1).(mutex := None))
    case Wait1 =>
      if s.turnstile1 > 0 then Some(At(s, t, Pass1).(turnstile1 := s.turnstile1 - 1)) else None
    case Pass1 => Some(At(s, t, Lock2).(turnstile1 := s.turnstile1 + 1))
    case Lock2 => if s.mutex == None then Some(At(s, t, Leave).(mutex := Some(t))) else None
    case Leave =>
      Some(At(s, t, if s.count - 1 == 0 then TakeTurn1 else Unlock2).(count := s.count - 1))
    case TakeTurn1 =>
      if s.turnstile1 > 0 then Some(At(s, t, PostTurn2).(turnstile1 := s.turnstile1 - 1)) else None
    case PostTurn2 => Some(At(s, t, Unlock2).(turnstile2 := s.turnstile2 + 1))
    case Unlock2 => Some(At(s, t, Wait2).(mutex := None))
    case Wait2 =>
      if s.turnstile2 > 0 then Some(At(s, t, Pass2).(turnstile2 := s.turnstile2 - 1)) else None
    case Pass2 =>
      Some(At(s, t, Outside).(turnstile2 := s.turnstile2 + 1, returned := s.returned[t := s.returned[t] + 1]))
  }

  /** What happens under a scheduler that picks the threads in this order; a pick that is
      out of range or blocked changes nothing. */
  function Run(s: State, schedule: seq<nat>): (r: State)
    requires Shaped(s)
    ensures Shaped(r) && r.n == s.n
    decreases |schedule|
  {
    if schedule == [] then s else
    var t := schedule[0];
    if t < s.n && Next(s, t).Some? then Run(Next(s, t).value, schedule[1..]) else Run(s, schedule[1..])
  }

  // ---- counting threads ----

  datatype Kind = Counted | InPass1 | InPass2

  predicate Is(k: Kind, pc: Pc) {
    match k
    case Counted => pc in {TakeTurn2, PostTurn1, Unlock1, Wait1, Pass1, Lock2, Leave}
    case InPass1 => pc == Pass1
    case InPass2 => pc == Pass2
  }

  function One(k: Kind, pc: Pc): nat {
    if Is(k, pc) then 1 else 0
  }

  function Num(k: Kind, pcs: seq<Pc>): nat {
    if pcs == [] then 0 else One(k, pcs[0]) + Num(k, pcs[1..])
  }

  lemma {:induction false} NumUpdate(k: Kind, pcs: seq<Pc>, t: nat, pc: Pc)
    requires t < |pcs|
    ensures Num(k, pcs[t := pc]) == Num(k, pcs) - One(k, pcs[t]) + One(k, pc)
  {
    var u := pcs[t := pc];
    if t == 0 {
      assert u[1..] == pcs[1..];
    } else {
      NumUpdate(k, pcs[1..], t - 1, pc);
      assert u[1..] == pcs[1..][t - 1 := pc];
    }
  }

  lemma {:induction false} NumBounds(k: Kind, pcs: seq<Pc>)
    ensures Num(k, pcs) <= |pcs|
    ensures Num(k, pcs) == 0 <==> forall i :: 0 <= i < |pcs| ==> !Is(k, pcs[i])
    ensures Num(k, pcs) == |pcs| <==> forall i :: 0 <= i < |pcs| ==> Is(k, pcs[i])
  {
    if pcs != [] {
      NumBounds(k, pcs[1..]);
      assert forall i :: 1 <= i < |pcs| ==> pcs[i] == pcs[1..][i - 1];
    }
  }

  // ---- the invariant ----

  /** The barrier alternates between letting threads gather and letting them drain; in
      between, the last thread turns it over. */
  datatype Phase = Gather | Opening | Drain | Closing

  /** Where a thread of round `g` may be in each phase. */
  predicate Fits(p: Phase, g: nat, pc: Pc, entered: nat, returned: nat) {
    && entered == returned + (if pc == Outside then 0 else 1)
    && match p
       case Gather =>
         || (pc in {Outside, Unlock2, Wait2, Pass2} && entered == g)
         || (pc in {Lock1, Arrive, TakeTurn2, Unlock1, Wait1} && entered == g + 1)
       case Opening => pc in {PostTurn1, Wait1} && entered == g + 1
       case Drain =>
         pc in {Unlock1, Wait1, Pass1, Lock2, Leave, TakeTurn1, Unlock2, Wait2} && entered == g + 1
       case Closing => pc in {PostTurn2, Wait2} && entered == g + 1
  }

  predicate Holds(pc: Pc) {
    pc in {Arrive, TakeTurn2, PostTurn1, Unlock1, Leave, TakeTurn1, PostTurn2, Unlock2}
  }

  /** The thread that holds the mutex is at `pc`. */
  predicate OwnerAt(s: State, pc: Pc)
    requires Shaped(s)
  {
    s.mutex.Some? && s.mutex.value < s.n && s.pc[s.mutex.value] == pc
  }

  ghost predicate Counts(s: State, p: Phase)
    requires Shaped(s)
  {
    && s.count == Num(Counted, s.pc)
    && s.turnstile1 + Num(InPass1, s.pc) == (if p == Drain then 1 else 0)
    && s.turnstile2 + Num(InPass2, s.pc) == (if p == Gather then 1 else 0)
  }

  ghost predicate Exclusive(s: State)
    requires Shaped(s)
  {
    && (forall t :: 0 <= t < s.n ==> (Holds(s.pc[t]) <==> s.mutex == Some(t)))
    && (s.mutex.Some? ==> s.mutex.value < s.n)
  }

  ghost predicate Places(s: State, p: Phase, g: nat)
    requires Shaped(s)
  {
    forall t :: 0 <= t < s.n ==> Fits(p, g, s.pc[t], s.entered[t], s.returned[t])
  }

  /** The last thread to arrive, and the last to leave, turn the barrier over. */
  predicate Turnover(s: State, p: Phase)
    requires Shaped(s)
  {
    match p
    case Gather => OwnerAt(s, TakeTurn2) <==> s.count == s.n
    case Opening => OwnerAt(s, PostTurn1) && s.count == s.n
    case Drain => OwnerAt(s, TakeTurn1) <==> s.count == 0
    case Closing => OwnerAt(s, PostTurn2) && s.count == 0
  }

  ghost predicate InvAt(s: State, p: Phase, g: nat) {
    Shaped(s) && s.n > 0 && Counts(s, p) && Exclusive(s) && Places(s, p, g) && Turnover(s, p)
  }

  ghost predicate Inv(s: State) {
    exists p, g :: InvAt(s, p, g)
  }

  lemma InitialInv(n: nat)
    requires n > 0
    ensures InvAt(Initial(n), Gather, 0)
  {
    var s := Initial(n);
    NumBounds(Counted, s.pc);
    NumBounds(InPass1, s.pc);
    NumBounds(InPass2, s.pc);
  }

  function NextPhase(p: Phase, pc: Pc): Phase {
    match pc
    case TakeTurn2 => Opening
    case PostTurn1 => Drain
    case TakeTurn1 => Closing
    case PostTurn2 => Gather
    case _ => p
  }

  lemma StepKeepsCount(s: State, t: nat)
    requires Shaped(s) && t < s.n && Next(s, t).Some? && s.count == Num(Counted, s.pc)
    ensures Next(s, t).value.count == Num(Counted, Next(s, t).value.pc)
  {
    NumUpdate(Counted, s.pc, t, Next(s, t).value.pc[t]);
  }

  lemma StepKeepsTurnstile(s: State, t: nat, p: Phase, g: nat, k: Kind)
    requires Shaped(s) && t < s.n && Next(s, t).Some? && Counts(s, p)
    requires Fits(p, g, s.pc[t], s.entered[t], s.returned[t]) && k != Counted
    ensures var s', p' := Next(s, t).value, NextPhase(p, s.pc[t]);
      if k == InPass1 then s'.turnstile1 + Num(k, s'.pc) == (if p' == Drain then 1 else 0)
      else s'.turnstile2 + Num(k, s'.pc) == (if p' == Gather then 1 else 0)
  {
    NumUpdate(k, s.pc, t, Next(s, t).value.pc[t]);
  }

  lemma StepKeepsCounts(s: State, t: nat, p: Phase, g: nat)
    requires InvAt(s, p, g) && t < s.n && Next(s, t).Some?
    ensures Counts(Next(s, t).value, NextPhase(p, s.pc[t]))
  {
    StepKeepsCount(s, t);
    StepKeepsTurnstile(s, t, p, g, InPass1);
    StepKeepsTurnstile(s, t, p, g, InPass2);
  }

  lemma StepKeepsExclusive(s: State, t: nat)
    requires Shaped(s) && Exclusive(s) && t < s.n && Next(s, t).Some?
    ensures Exclusive(Next(s, t).value)
  {
  }

  /** In which phase a thread can be about to turn the barrier over, and where the others are. */
  lemma TurningPoints(s: State, t: nat, p: Phase, g: nat)
    requires InvAt(s, p, g) && t < s.n
    ensures s.pc[t] in {TakeTurn2, PostTurn1} ==> forall u :: 0 <= u < s.n && u != t ==> s.pc[u] == Wait1
    ensures s.pc[t] in {TakeTurn1, PostTurn2} ==> forall u :: 0 <= u < s.n && u != t ==> s.pc[u] == Wait2
  {
    NumBounds(Counted, s.pc);
    NumBounds(InPass1, s.pc);
    NumBounds(InPass2, s.pc);
    assert Fits(p, g, s.pc[t], s.entered[t], s.returned[t]);
    if s.pc[t] in {TakeTurn2, PostTurn1, TakeTurn1, PostTurn2} {
      forall u | 0 <= u < s.n && u != t
        ensures s.pc[u] == if s.pc[t] in {TakeTurn2, PostTurn1} then Wait1 else Wait2
      {
        assert Fits(p, g, s.pc[u], s.entered[u], s.returned[u]);
        assert !Holds(s.pc[u]);
      }
    }
  }

  lemma StepKeepsPlaces(s: State, t: nat, p: Phase, g: nat)
    requires InvAt(s, p, g) && t < s.n && Next(s, t).Some?
    ensures Places(Next(s, t).value, NextPhase(p, s.pc[t]), if s.pc[t] == PostTurn2 then g + 1 else g)
  {
    hide Num;
    TurningPoints(s, t, p, g);
    var s' := Next(s, t).value;
    forall u | 0 <= u < s.n
      ensures Fits(NextPhase(p, s.pc[t]), if s.pc[t] == PostTurn2 then g + 1 else g,
                   s'.pc[u], s'.entered[u], s'.returned[u])
    {
      assert Fits(p, g, s.pc[u], s.entered[u], s.returned[u]);
      assert Fits(p, g, s.pc[t], s.entered[t], s.returned[t]);
    }
  }

  lemma StepKeepsTurnover(s: State, t: nat, p: Phase, g: nat)
    requires InvAt(s, p, g) && t < s.n && Next(s, t).Some?
    ensures Turnover(Next(s, t).value, NextPhase(p, s.pc[t]))
  {
    hide Num;
    TurningPoints(s, t, p, g);
    NumBounds(Counted, s.pc);
    var s' := Next(s, t).value;
    NumUpdate(Counted, s.pc, t, s'.pc[t]);
    assert Fits(p, g, s.pc[t], s.entered[t], s.returned[t]);
  }

  lemma StepKeeps(s: State, t: nat, p: Phase, g: nat)
    requires InvAt(s, p, g) && t < s.n && Next(s, t).Some?
    ensures InvAt(Next(s, t).value, NextPhase(p, s.pc[t]), if s.pc[t] == PostTurn2 then g + 1 else g)
  {
    StepKeepsCounts(s, t, p, g);
    StepKeepsExclusive(s, t);
    StepKeepsPlaces(s, t, p, g);
    StepKeepsTurnover(s, t, p, g);
  }

  // ---- whole runs ----

  lemma {:induction false} RunKeeps(s: State, schedule: seq<nat>, p: Phase, g: nat)
    requires InvAt(s, p, g)
    ensures Inv(Run(s, schedule))
    decreases |schedule|
  {
    if schedule != [] {
      var t := schedule[0];
      if t < s.n && Next(s, t).Some? {
        StepKeeps(s, t, p, g);
        RunKeeps(Next(s, t).value, schedule[1..], NextPhase(p, s.pc[t]), if s.pc[t] == PostTurn2 then g + 1 else g);
      } else {
        RunKeeps(s, schedule[1..], p, g);
      }
    }
  }

  /** Safety: under every schedule, no thread has returned from its k-th call before every
      thread has entered its k-th call. */
  lemma NoEarlyReturn(n: nat, schedule: seq<nat>, i: nat, j: nat)
    requires i < n && j < n
    ensures var s := Run(Initial(n), schedule); s.returned[i] <= s.entered[j]
  {
    InitialInv(n);
    RunKeeps(Initial(n), schedule, Gather, 0);
    var s := Run(Initial(n), schedule);
    var p, g :| InvAt(s, p, g);
    assert Fits(p, g, s.pc[i], s.entered[i], s.returned[i]);
    assert Fits(p, g, s.pc[j], s.entered[j], s.returned[j]);
  }

  /** The mutex is never held across a blocked operation. */
  lemma OwnerCanMove(s: State, p: Phase, g: nat)
    requires InvAt(s, p, g) && s.mutex.Some?
    ensures Next(s, s.mutex.value).Some?
  {
    var t := s.mutex.value;
    TurningPoints(s, t, p, g);
    NumBounds(InPass1, s.pc);
    NumBounds(InPass2, s.pc);
    assert Fits(p, g, s.pc[t], s.entered[t], s.returned[t]);
  }

  /** Freedom from deadlock: if no thread inside the call can move, then any thread that is
      inside waits for one that has not entered its call of the same round yet. */
  lemma NoDeadlock(n: nat, schedule: seq<nat>, t: nat)
    requires t < n
    requires var s := Run(Initial(n), schedule);
      s.pc[t] != Outside && forall u :: 0 <= u < n && s.pc[u] != Outside ==> Next(s, u) == None
    ensures var s := Run(Initial(n), schedule);
      exists u :: 0 <= u < n && s.pc[u] == Outside && s.entered[u] < s.entered[t]
  {
    InitialInv(n);
    RunKeeps(Initial(n), schedule, Gather, 0);
    var s := Run(Initial(n), schedule);
    var p, g :| InvAt(s, p, g);
    BlockedAreWaiting(s, p, g);
    NumBounds(Counted, s.pc);
    assert Fits(p, g, s.pc[t], s.entered[t], s.returned[t]);
    if forall u :: 0 <= u < n ==> s.pc[u] == Wait1 {
      assert false;
    }
    var u :| 0 <= u < n && s.pc[u] != Wait1;
    assert Fits(p, g, s.pc[u], s.entered[u], s.returned[u]);
  }

  /** If nobody inside can move, everybody inside waits at the first turnstile, in the
      gathering phase. */
  lemma BlockedAreWaiting(s: State, p: Phase, g: nat)
    requires InvAt(s, p, g)
    requires forall u :: 0 <= u < s.n && s.pc[u] != Outside ==> Next(s, u) == None
    requires exists u :: 0 <= u < s.n && s.pc[u] != Outside
    ensures p == Gather
    ensures forall u :: 0 <= u < s.n ==> s.pc[u] in {Outside, Wait1}
  {
    if s.mutex.Some? {
      OwnerCanMove(s, p, g);
      assert false;
    }
    NumBounds(Counted, s.pc);
    NumBounds(InPass1, s.pc);
    NumBounds(InPass2, s.pc);
    forall u | 0 <= u < s.n ensures s.pc[u] in {Outside, Wait1} && p == Gather {
      assert Fits(p, g, s.pc[u], s.entered[u], s.returned[u]);
      assert s.pc[u] in {Outside, Wait1, Wait2};
    }
  }

  // ---- every call comes to an end ----

  /** How many steps a thread has left in its call. */
  function Left(pc: Pc): nat {
    match pc
    case Outside => 0
    case Lock1 => 14
    case Arrive => 13
    case TakeTurn2 => 12
    case PostTurn1 => 11
    case Unlock1 => 10
    case Wait1 => 9
    case Pass1 => 8
    case Lock2 => 7
    case Leave => 6
    case TakeTurn1 => 5
    case PostTurn2 => 4
    case Unlock2 => 3
    case Wait2 => 2
    case Pass2 => 1
  }

  function WorkLeft(pcs: seq<Pc>): nat {
    if pcs == [] then 0 else Left(pcs[0]) + WorkLeft(pcs[1..])
  }

  lemma {:induction false} WorkLeftUpdate(pcs: seq<Pc>, t: nat, pc: Pc)
    requires t < |pcs|
    ensures WorkLeft(pcs[t := pc]) == WorkLeft(pcs) - Left(pcs[t]) + Left(pc)
  {
    var u := pcs[t := pc];
    if t == 0 {
      assert u[1..] == pcs[1..];
    } else {
      WorkLeftUpdate(pcs[1..], t - 1, pc);
      assert u[1..] == pcs[1..][t - 1 := pc];
    }
  }

  /** Every step inside a call uses up some of the work left, so that only finitely many
      follow each other without a thread entering. */
  lemma StepsEnd(s: State, t: nat)
    requires Shaped(s) && t < s.n && s.pc[t] != Outside && Next(s, t).Some?
    ensures WorkLeft(Next(s, t).value.pc) < WorkLeft(s.pc)
  {
    WorkLeftUpdate(s.pc, t, Next(s, t).value.pc[t]);
  }

  lemma InsideStep(s: State, t: nat, p: Phase, g: nat) returns (p': Phase, g': nat)
    requires InvAt(s, p, g) && t < s.n && s.pc[t] != Outside && Next(s, t).Some?
    ensures InvAt(Next(s, t).value, p', g')
    ensures Next(s, t).value.entered == s.entered && WorkLeft(Next(s, t).value.pc) < WorkLeft(s.pc)
  {
    StepsEnd(s, t);
    StepKeeps(s, t, p, g);
    p', g' := NextPhase(p, s.pc[t]), if s.pc[t] == PostTurn2 then g + 1 else g;
  }

  /** Once every thread has entered its k-th call, the barrier opens: whichever steps are
      taken first, taking further ones brings every thread out of that call. */
  lemma {:induction false} EveryoneGetsThrough(s: State, p: Phase, g: nat, k: nat) returns (schedule: seq<nat>)
    requires InvAt(s, p, g) && forall t :: 0 <= t < s.n ==> s.entered[t] == k
    ensures var s' := Run(s, schedule);
      forall t :: 0 <= t < s'.n ==> s'.pc[t] == Outside && s'.returned[t] == k
    decreases WorkLeft(s.pc)
  {
    hide Next, WorkLeft, Counts;
    if t :| 0 <= t < s.n && s.pc[t] != Outside && Next(s, t).Some? {
      var p', g' := InsideStep(s, t, p, g);
      var rest := EveryoneGetsThrough(Next(s, t).value, p', g', k);
      schedule := [t] + rest;
      RunOne(s, t, rest);
    } else {
      schedule := [];
      AllOut(s, p, g, k);
    }
  }

  lemma RunOne(s: State, t: nat, rest: seq<nat>)
    requires Shaped(s) && t < s.n && Next(s, t).Some?
    ensures Run(s, [t] + rest) == Run(Next(s, t).value, rest)
  {
    assert ([t] + rest)[1..] == rest;
  }

  lemma AllOut(s: State, p: Phase, g: nat, k: nat)
    requires InvAt(s, p, g) && forall t :: 0 <= t < s.n ==> s.entered[t] == k
    requires forall t :: 0 <= t < s.n && s.pc[t] != Outside ==> Next(s, t) == None
    ensures forall t :: 0 <= t < s.n ==> s.pc[t] == Outside && s.returned[t] == k
  {
    NumBounds(Counted, s.pc);
    if t :| 0 <= t < s.n && s.pc[t] != Outside {
      BlockedAreWaiting(s, p, g);
      forall u | 0 <= u < s.n ensures s.pc[u] == Wait1 {
        assert Fits(p, g, s.pc[u], s.entered[u], s.returned[u]);
        assert Fits(p, g, s.pc[t], s.entered[t], s.returned[t]);
      }
      assert false;
    }
    forall t | 0 <= t < s.n ensures s.returned[t] == k {
      assert Fits(p, g, s.pc[t], s.entered[t], s.returned[t]);
    }
  }
}
