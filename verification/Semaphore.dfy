/** A counting semaphore over a mutex and a condition variable, as steps of its
    threads. Every access to the value is a step of its own, so that a run may go on
    with any thread in between. */
module Semaphore {

  /** The value is a 32-bit unsigned number. */
  const MODULUS: nat := 0x1_0000_0000

  /** Where a thread is; the states marked with a lock hold the mutex. */
  datatype Thread =
    | Outside
    | WaitLock
    | WaitTest      // lock
    | Asleep
    | Woken
    | WaitTake      // lock
    | PostLock
    | PostAdd       // lock
    | PostBroadcast // lock
    | GetLock
    | GetRead       // lock
    | GetUnlock(sval: nat) // lock
    | Unlock        // lock

  datatype Holder = Nobody | HeldBy(t: nat)

  datatype State = State(value: nat, holder: Holder, threads: seq<Thread>)

  /** A thread calls an operation, goes on with it by one step, or wakes up without a
      signal. */
  datatype Action = CallWait(t: nat) | CallPost(t: nat) | CallGet(t: nat) | Continue(t: nat) | WakeUp(t: nat)

  function At(s: State, t: nat): Thread {
    if t < |s.threads| then s.threads[t] else Outside
  }

  function Move(s: State, t: nat, pc: Thread): State {
    if t < |s.threads| then s.(threads := s.threads[t := pc]) else s
  }

  predicate HoldsLock(pc: Thread) {
    pc.WaitTest? || pc.WaitTake? || pc.PostAdd? || pc.PostBroadcast? || pc.GetRead? || pc.GetUnlock? || pc.Unlock?
  }

  /** Take the mutex if it is free. */
  function Lock(s: State, t: nat, pc: Thread): State {
    if s.holder.Nobody? then Move(s, t, pc).(holder := HeldBy(t)) else s
  }

  function Broadcast(threads: seq<Thread>): (r: seq<Thread>)
    ensures |r| == |threads|
    ensures forall t :: 0 <= t < |threads| ==> r[t] == if threads[t].Asleep? then Woken else threads[t]
  {
    seq(|threads|, t requires 0 <= t < |threads| => if threads[t].Asleep? then Woken else threads[t])
  }

  function Proceed(s: State, t: nat): State {
    match At(s, t)
    case Outside => s
    case WaitLock => Lock(s, t, WaitTest)
    case WaitTest => if s.value == 0 then Move(s, t, Asleep).(holder := Nobody) else Move(s, t, WaitTake)
    case Asleep => s
    case Woken => Lock(s, t, WaitTest)
    case WaitTake => Move(s, t, Unlock).(value := (s.value - 1) % MODULUS)
    case PostLock => Lock(s, t, PostAdd)
    case PostAdd => Move(s, t, PostBroadcast).(value := (s.value + 1) % MODULUS)
    case PostBroadcast => Move(s.(threads := Broadcast(s.threads)), t, Unlock)
    case GetLock => Lock(s, t, GetRead)
    case GetRead => Move(s, t, GetUnlock(s.value))
    case GetUnlock(_) => Move(s, t, Outside).(holder := Nobody)
    case Unlock => Move(s, t, Outside).(holder := Nobody)
  }

  /** One atomic step. A step that cannot be taken now changes nothing. */
  function Step(s: State, a: Action): State {
    match a
    case CallWait(t) => if At(s, t).Outside? then Move(s, t, WaitLock) else s
    case CallPost(t) => if At(s, t).Outside? then Move(s, t, PostLock) else s
    case CallGet(t) => if At(s, t).Outside? then Move(s, t, GetLock) else s
    case Continue(t) => Proceed(s, t)
    case WakeUp(t) => if At(s, t).Asleep? then Move(s, t, Woken) else s
  }

  /** `sem_wrapper_init` with `value`, before `n` threads use the semaphore. */
  function Initial(value: nat, n: nat): State {
    State(value, Nobody, seq(n, _ => Outside))
  }

  function Run(s: State, actions: seq<Action>): State {
    if actions == [] then s else Step(Run(s, actions[..|actions| - 1]), actions[|actions| - 1])
  }

  /** How many steps of a run increment the value. */
  ghost function Posts(s: State, actions: seq<Action>): nat {
    if actions == [] then 0
    else
      var before, a := actions[..|actions| - 1], actions[|actions| - 1];
      Posts(s, before) + if a.Continue? && At(Run(s, before), a.t).PostAdd? then 1 else 0
  }

  /** How many steps of a run decrement it. */
  ghost function Waits(s: State, actions: seq<Action>): nat {
    if actions == [] then 0
    else
      var before, a := actions[..|actions| - 1], actions[|actions| - 1];
      Waits(s, before) + if a.Continue? && At(Run(s, before), a.t).WaitTake? then 1 else 0
  }

  // ----------------------------------------------------------------- invariants

  ghost predicate Exclusive(s: State) {
    forall t: nat :: HoldsLock(At(s, t)) <==> s.holder == HeldBy(t)
  }

  /** `credit` is how many waits the increments allow beyond the decrements so far. */
  ghost predicate Accounted(s: State, credit: int) {
    && s.value < MODULUS && 0 <= credit && s.value == credit % MODULUS
    && forall t: nat :: At(s, t).WaitTake? ==> s.value > 0
  }

  /** A thread that sleeps although the value is not zero is about to be woken: some
      thread has incremented the value, still holds the mutex and will broadcast. */
  ghost predicate NoLostWakeUp(s: State) {
    forall t: nat :: At(s, t).Asleep? && s.value > 0 ==> s.holder.HeldBy? && At(s, s.holder.t).PostBroadcast?
  }

  /** What a thread has read is the value as long as it holds the mutex. */
  ghost predicate ReadsCurrent(s: State) {
    forall t: nat :: At(s, t).GetUnlock? ==> At(s, t).sval == s.value
  }

  ghost predicate Ok(s: State, credit: int) {
    Exclusive(s) && Accounted(s, credit) && NoLostWakeUp(s) && ReadsCurrent(s)
  }

  lemma CreditGrows(credit: int, value: nat)
    requires 0 <= credit && value == credit % MODULUS
    ensures (credit + 1) % MODULUS == (value + 1) % MODULUS
    ensures value > 0 ==> credit > 0 && (credit - 1) % MODULUS == value - 1
  {
  }

  lemma StepKeepsExclusive(s: State, a: Action)
    requires Exclusive(s)
    ensures Exclusive(Step(s, a))
  {
    var s' := Step(s, a);
    assert HoldsLock(At(s, a.t)) <==> s.holder == HeldBy(a.t);
    forall t: nat
      ensures HoldsLock(At(s', t)) <==> s'.holder == HeldBy(t)
    {
      assert HoldsLock(At(s, t)) <==> s.holder == HeldBy(t);
    }
  }

  /** What a step adds to the credit. */
  ghost function Earned(s: State, a: Action): int {
    if a.Continue? && At(s, a.t).PostAdd? then 1 else if a.Continue? && At(s, a.t).WaitTake? then -1 else 0
  }

  lemma StepKeepsAccounts(s: State, a: Action, credit: int)
    requires Ok(s, credit)
    ensures Accounted(Step(s, a), credit + Earned(s, a)) && ReadsCurrent(Step(s, a))
  {
    var s' := Step(s, a);
    CreditGrows(credit, s.value);
    assert HoldsLock(At(s, a.t)) <==> s.holder == HeldBy(a.t);
    forall t: nat
      ensures At(s', t).WaitTake? ==> s'.value > 0
      ensures At(s', t).GetUnlock? ==> At(s', t).sval == s'.value
    {
      assert HoldsLock(At(s, t)) <==> s.holder == HeldBy(t);
    }
  }

  lemma StepKeepsWakeUps(s: State, a: Action, credit: int)
    requires Ok(s, credit)
    ensures NoLostWakeUp(Step(s, a))
  {
    var s' := Step(s, a);
    assert HoldsLock(At(s, a.t)) <==> s.holder == HeldBy(a.t);
    forall t: nat | At(s', t).Asleep? && s'.value > 0
      ensures s'.holder.HeldBy? && At(s', s'.holder.t).PostBroadcast?
    {
      assert At(s, t).Asleep? || t == a.t;
    }
  }

  lemma StepKeeps(s: State, a: Action, credit: int)
    requires Ok(s, credit)
    ensures Ok(Step(s, a), credit + Earned(s, a))
  {
    StepKeepsExclusive(s, a);
    StepKeepsAccounts(s, a, credit);
    StepKeepsWakeUps(s, a, credit);
  }

  /** What a run has earned: the initial value, and its posts less its waits. */
  ghost function Credit(s: State, actions: seq<Action>): int {
    s.value + Posts(s, actions) - Waits(s, actions)
  }

  lemma LastStep(s: State, actions: seq<Action>, s1: State, s2: State, credit: int)
    requires actions != [] && s1 == Run(s, actions[..|actions| - 1]) && s2 == Run(s, actions)
    requires credit == Credit(s, actions[..|actions| - 1])
    ensures s2 == Step(s1, actions[|actions| - 1])
    ensures Credit(s, actions) == credit + Earned(s1, actions[|actions| - 1])
  {
  }

  ghost predicate Sound(s0: State, actions: seq<Action>) {
    Ok(Run(s0, actions), Credit(s0, actions))
  }

  lemma OkFollows(s: State, a: Action, credit: int, s': State, credit': int)
    requires Ok(s, credit) && s' == Step(s, a) && credit' == credit + Earned(s, a)
    ensures Ok(s', credit')
  {
    StepKeeps(s, a, credit);
  }

  lemma SoundStep(s0: State, actions: seq<Action>)
    requires actions != [] && Sound(s0, actions[..|actions| - 1])
    ensures Sound(s0, actions)
  {
    var s1, s2 := Run(s0, actions[..|actions| - 1]), Run(s0, actions);
    var credit := Credit(s0, actions[..|actions| - 1]);
    LastStep(s0, actions, s1, s2, credit);
    OkFollows(s1, actions[|actions| - 1], credit, s2, Credit(s0, actions));
  }

  /** Every state of every run is in order. */
  lemma {:induction false} RunKeeps(initial: nat, n: nat, actions: seq<Action>)
    requires initial < MODULUS
    ensures Ok(Run(Initial(initial, n), actions), Credit(Initial(initial, n), actions))
  {
    var s0 := Initial(initial, n);
    if actions == [] {
      StartsSound(initial, n);
    } else {
      RunKeeps(initial, n, actions[..|actions| - 1]);
      SoundStep(s0, actions);
    }
  }

  lemma StartsSound(initial: nat, n: nat)
    requires initial < MODULUS
    ensures Sound(Initial(initial, n), [])
  {
    var s0 := Initial(initial, n);
    assert Credit(s0, []) == initial;
  }

  // ------------------------------------------------------------------- theorems

  lemma ValueOf(s: State, credit: int)
    requires Ok(s, credit)
    ensures 0 <= credit && s.value == credit % MODULUS
    ensures s.value == credit <==> credit < 0x1_0000_0000
  {
  }

  /** Never more waits pass than the initial value and the posts allow. The value is
      the number of further waits that may pass, if and only if that number fits in
      32 bits; a post beyond that wraps around. Posts and waits are counted as steps of
      the run. */
  lemma ValueIsCreditIff(initial: nat, n: nat, actions: seq<Action>)
    requires initial < MODULUS
    ensures var s0 := Initial(initial, n);
      var credit := initial + Posts(s0, actions) - Waits(s0, actions);
      && 0 <= credit && Run(s0, actions).value == credit % MODULUS
      && (Run(s0, actions).value == credit <==> credit < 0x1_0000_0000)
  {
    RunKeeps(initial, n, actions);
    ValueOf(Run(Initial(initial, n), actions), Credit(Initial(initial, n), actions));
  }

  /** It does wrap: a post on the greatest value leaves nothing. */
  lemma PostWrapsAround()
    ensures Run(Initial(MODULUS - 1, 1), [CallPost(0)] + Continues(0, 4)) == Initial(0, 1)
  {
    PostCycle(MODULUS - 1, 1, [], 0);
    var s0 := Initial(MODULUS - 1, 1);
    assert [] + [CallPost(0)] + Continues(0, 4) == [CallPost(0)] + Continues(0, 4);
    var s := Run(s0, [CallPost(0)] + Continues(0, 4));
    assert s.threads[0] == At(s, 0) && s.threads == [Outside] == Initial(0, 1).threads;
  }

  lemma OneHolder(s: State, credit: int, t: nat, t': nat)
    requires Ok(s, credit)
    ensures HoldsLock(At(s, t)) && HoldsLock(At(s, t')) ==> t == t'
    ensures At(s, t).GetUnlock? ==> At(s, t).sval == s.value
  {
    assert HoldsLock(At(s, t)) <==> s.holder == HeldBy(t);
    assert HoldsLock(At(s, t')) <==> s.holder == HeldBy(t');
  }

  /** The mutex works, and a value that is read is the number of further waits. */
  lemma ReadIsExact(initial: nat, n: nat, actions: seq<Action>, t: nat, t': nat)
    requires initial < MODULUS
    ensures var s0 := Initial(initial, n);
      var s := Run(s0, actions);
      && (HoldsLock(At(s, t)) && HoldsLock(At(s, t')) ==> t == t')
      && (At(s, t).GetUnlock? ==>
            At(s, t).sval == (initial + Posts(s0, actions) - Waits(s0, actions)) % MODULUS)
  {
    RunKeeps(initial, n, actions);
    OneHolder(Run(Initial(initial, n), actions), Credit(Initial(initial, n), actions), t, t');
    ValueIsCreditIff(initial, n, actions);
  }

  // ------------------------------------------------- operations without interruption

  lemma {:induction false} RunAppend(s: State, a: seq<Action>, b: seq<Action>)
    ensures Run(s, a + b) == Run(Run(s, a), b)
  {
    if b == [] {
      assert a + b == a;
    } else {
      var ab := a + b;
      RunAppend(s, a, b[..|b| - 1]);
      assert ab[..|ab| - 1] == a + b[..|b| - 1] && ab[|ab| - 1] == b[|b| - 1];
      assert Run(s, ab) == Step(Run(s, ab[..|ab| - 1]), b[|b| - 1]);
    }
  }

  /** `n` steps of thread `t` in a row. */
  function Continues(t: nat, n: nat): (r: seq<Action>)
    ensures |r| == n
  {
    if n == 0 then [] else Continues(t, n - 1) + [Continue(t)]
  }

  function Proceeds(s: State, t: nat, n: nat): State {
    if n == 0 then s else Proceed(Proceeds(s, t, n - 1), t)
  }

  lemma {:induction false} RunContinues(s: State, t: nat, n: nat)
    ensures Run(s, Continues(t, n)) == Proceeds(s, t, n)
  {
    if n > 0 {
      RunContinues(s, t, n - 1);
      assert Continues(t, n)[..n - 1] == Continues(t, n - 1);
    }
  }

  lemma RunCall(s: State, actions: seq<Action>, call: Action, t: nat, n: nat)
    ensures Run(s, actions + [call] + Continues(t, n)) == Proceeds(Step(Run(s, actions), call), t, n)
  {
    RunAppend(s, actions + [call], Continues(t, n));
    assert (actions + [call])[..|actions|] == actions;
    RunContinues(Step(Run(s, actions), call), t, n);
  }

  /** All threads but `t` are where they were. */
  ghost predicate OthersStay(s: State, s': State, t: nat) {
    |s'.threads| == |s.threads| && forall u: nat :: u != t ==> At(s', u) == At(s, u)
  }

  lemma PostSteps(s: State, t: nat)
    requires s.holder.Nobody? && t < |s.threads| && At(s, t).Outside? && s.value < MODULUS
    ensures var s' := Proceeds(Step(s, CallPost(t)), t, 4);
      && s'.value == (s.value + 1) % MODULUS && s'.holder.Nobody? && |s'.threads| == |s.threads|
      && At(s', t).Outside?
      && forall u: nat :: u != t ==> At(s', u) == if At(s, u).Asleep? then Woken else At(s, u)
  {
    var s0 := Step(s, CallPost(t));
    var s1 := Proceeds(s0, t, 1);
    assert s1 == Proceed(Proceeds(s0, t, 0), t) && At(s1, t).PostAdd? && s1.value == s.value && s1.holder == HeldBy(t);
    var s2 := Proceeds(s0, t, 2);
    assert s2 == Proceed(s1, t) && At(s2, t).PostBroadcast? && s2.value == (s.value + 1) % MODULUS;
    var s3 := Proceeds(s0, t, 3);
    assert s3 == Proceed(s2, t) && At(s3, t).Unlock? && s3.value == s2.value;
    assert Proceeds(s0, t, 4) == Proceed(s3, t);
  }

  /** A post that is not interrupted raises the value by one, up to the wrap, and wakes
      all sleepers. */
  lemma PostCycle(initial: nat, n: nat, actions: seq<Action>, t: nat)
    requires initial < MODULUS && t < n
    requires var s := Run(Initial(initial, n), actions); s.holder.Nobody? && At(s, t).Outside?
    ensures var s, s' := Run(Initial(initial, n), actions),
                         Run(Initial(initial, n), actions + [CallPost(t)] + Continues(t, 4));
      && s'.value == (s.value + 1) % 0x1_0000_0000 && s'.holder.Nobody? && At(s', t).Outside?
      && |s'.threads| == n
      && forall u: nat :: u != t ==> At(s', u) == if At(s, u).Asleep? then Woken else At(s, u)
  {
    RunKeeps(initial, n, actions);
    SameThreads(initial, n, actions);
    PostSteps(Run(Initial(initial, n), actions), t);
    RunCall(Initial(initial, n), actions, CallPost(t), t, 4);
  }

  lemma {:induction false} SameThreads(initial: nat, n: nat, actions: seq<Action>)
    ensures |Run(Initial(initial, n), actions).threads| == n
  {
    if actions != [] {
      SameThreads(initial, n, actions[..|actions| - 1]);
    }
  }

  /** When the mutex is free and the value is not zero, no thread is asleep. */
  lemma NobodySleeps(initial: nat, n: nat, actions: seq<Action>, t: nat)
    requires initial < MODULUS
    requires var s := Run(Initial(initial, n), actions); s.holder.Nobody? && s.value > 0
    ensures !At(Run(Initial(initial, n), actions), t).Asleep?
  {
    RunKeeps(initial, n, actions);
  }

  lemma WaitSteps(s: State, t: nat)
    requires s.holder.Nobody? && 0 < s.value < MODULUS && (At(s, t).WaitLock? || At(s, t).Woken?)
    ensures var s' := Proceeds(s, t, 4);
      s'.value == s.value - 1 && s'.holder.Nobody? && At(s', t).Outside? && OthersStay(s, s', t)
  {
    var s1 := Proceeds(s, t, 1);
    assert s1 == Proceed(Proceeds(s, t, 0), t) && At(s1, t).WaitTest? && s1.value == s.value;
    var s2 := Proceeds(s, t, 2);
    assert s2 == Proceed(s1, t) && At(s2, t).WaitTake? && s2.value == s.value;
    var s3 := Proceeds(s, t, 3);
    assert s3 == Proceed(s2, t) && At(s3, t).Unlock? && s3.value == s.value - 1;
    assert Proceeds(s, t, 4) == Proceed(s3, t);
  }

  /** No wake-up is lost: when the mutex is free and the value is not zero, any
      thread inside a wait passes with its next four steps and takes one off. */
  lemma WaiterPasses(initial: nat, n: nat, actions: seq<Action>, t: nat)
    requires initial < MODULUS
    requires var s := Run(Initial(initial, n), actions);
      s.holder.Nobody? && s.value > 0 && (At(s, t).WaitLock? || At(s, t).Asleep? || At(s, t).Woken?)
    ensures var s, s' := Run(Initial(initial, n), actions), Run(Initial(initial, n), actions + Continues(t, 4));
      s'.value == s.value - 1 && s'.holder.Nobody? && At(s', t).Outside? && OthersStay(s, s', t)
  {
    var s := Run(Initial(initial, n), actions);
    NobodySleeps(initial, n, actions, t);
    assert s.value < MODULUS by {
      RunKeeps(initial, n, actions);
    }
    WaitSteps(s, t);
    RunAppend(Initial(initial, n), actions, Continues(t, 4));
    RunContinues(s, t, 4);
  }

  /** A wait that is not interrupted takes one off a positive value and returns; at zero
      it goes to sleep and leaves the mutex free. */
  lemma WaitCycle(initial: nat, n: nat, actions: seq<Action>, t: nat)
    requires initial < MODULUS && t < n
    requires var s := Run(Initial(initial, n), actions); s.holder.Nobody? && At(s, t).Outside?
    ensures var s := Run(Initial(initial, n), actions);
      if s.value > 0 then
        var s' := Run(Initial(initial, n), actions + [CallWait(t)] + Continues(t, 4));
        s'.value == s.value - 1 && s'.holder.Nobody? && At(s', t).Outside? && OthersStay(s, s', t)
      else
        var s' := Run(Initial(initial, n), actions + [CallWait(t)] + Continues(t, 2));
        s'.value == 0 && s'.holder.Nobody? && At(s', t).Asleep? && OthersStay(s, s', t)
  {
    var s := Run(Initial(initial, n), actions);
    RunKeeps(initial, n, actions);
    SameThreads(initial, n, actions);
    var s0 := Step(s, CallWait(t));
    if s.value > 0 {
      WaitSteps(s0, t);
      RunCall(Initial(initial, n), actions, CallWait(t), t, 4);
    } else {
      var s1 := Proceeds(s0, t, 1);
      assert s1 == Proceed(Proceeds(s0, t, 0), t) && At(s1, t).WaitTest? && s1.value == 0;
      assert Proceeds(s0, t, 2) == Proceed(s1, t);
      RunCall(Initial(initial, n), actions, CallWait(t), t, 2);
    }
  }

  lemma GetSteps(s: State, t: nat)
    requires s.holder.Nobody? && t < |s.threads| && At(s, t).Outside?
    ensures At(Proceeds(Step(s, CallGet(t)), t, 2), t) == GetUnlock(s.value)
    ensures var s' := Proceeds(Step(s, CallGet(t)), t, 3);
      s'.value == s.value && s'.holder.Nobody? && At(s', t).Outside? && OthersStay(s, s', t)
  {
    var s0 := Step(s, CallGet(t));
    var s1 := Proceeds(s0, t, 1);
    assert s1 == Proceed(Proceeds(s0, t, 0), t) && At(s1, t).GetRead? && s1.value == s.value;
    var s2 := Proceeds(s0, t, 2);
    assert s2 == Proceed(s1, t) && At(s2, t) == GetUnlock(s.value);
    assert Proceeds(s0, t, 3) == Proceed(s2, t);
  }

  /** A reading that is not interrupted reads the value, changes nothing and returns. */
  lemma GetCycle(initial: nat, n: nat, actions: seq<Action>, t: nat)
    requires initial < MODULUS && t < n
    requires var s := Run(Initial(initial, n), actions); s.holder.Nobody? && At(s, t).Outside?
    ensures var s := Run(Initial(initial, n), actions);
      && At(Run(Initial(initial, n), actions + [CallGet(t)] + Continues(t, 2)), t) == GetUnlock(s.value)
      && var s' := Run(Initial(initial, n), actions + [CallGet(t)] + Continues(t, 3));
         s'.value == s.value && s'.holder.Nobody? && At(s', t).Outside? && OthersStay(s, s', t)
  {
    SameThreads(initial, n, actions);
    GetSteps(Run(Initial(initial, n), actions), t);
    RunCall(Initial(initial, n), actions, CallGet(t), t, 2);
    RunCall(Initial(initial, n), actions, CallGet(t), t, 3);
  }
}
