/** No message gets stuck: whatever the threads have done so far, they can still hand
    over every message that was sent. */
module MessageProgress {
  import opened MessageBox
  import opened MessageExchange

  /** The run `more` goes from `s` to `s'`, and nobody sends in it. */
  ghost predicate Leads(users: seq<string>, s: State, more: seq<Action>, s': State) {
    s' == Run(users, s, more) && forall i :: 0 <= i < |more| ==> !more[i].Send?
  }

  lemma LeadsOn(users: seq<string>, s: State, a: seq<Action>, s1: State, b: seq<Action>, s2: State)
    requires Leads(users, s, a, s1) && Leads(users, s1, b, s2)
    ensures Leads(users, s, a + b, s2)
  {
    RunAppend(users, s, a, b);
  }

  lemma LeadsOne(users: seq<string>, s: State, a: Action)
    requires !a.Send?
    ensures Leads(users, s, [a], Step(users, s, a))
  {
    RunOne(users, s, a);
  }

  lemma LeadsTwo(users: seq<string>, s: State, a: Action, b: Action)
    requires !a.Send? && !b.Send?
    ensures Leads(users, s, [a, b], Step(users, Step(users, s, a), b))
  {
    RunTwo(users, s, a, b);
  }

  /** What nobody undoes as long as nobody sends. */
  ghost predicate Onward(s: State, s': State) {
    && SlotOk(s') && s.handled <= s'.handled && |s'.senders| == |s.senders| && (s.ready ==> s'.ready)
    && forall t: nat :: At(s, t).Idle? ==> At(s', t).Idle?
  }

  lemma StepsOnward(users: seq<string>, s: State, a: Action)
    requires SlotOk(s) && !a.Send?
    ensures Onward(s, Step(users, s, a))
  {
    StepKeepsSlot(users, s, a);
  }

  lemma {:induction false} RunsOnward(users: seq<string>, s: State, more: seq<Action>, s': State)
    requires SlotOk(s) && Leads(users, s, more, s')
    ensures Onward(s, s')
  {
    if more != [] {
      var before, last := more[..|more| - 1], more[|more| - 1];
      var s1 := Run(users, s, before);
      RunsOnward(users, s, before, s1);
      StepsOnward(users, s1, last);
    }
  }

  // ----------------------------------------------------------- the way to a free slot

  /** Where a sender is once the lock is free: only the one that held it has moved. */
  function Released(pc: Sender, slot: Slot): Sender {
    match pc
    case Inside(p) => if slot.Free? then Idle else Napping(p)
    case Refused(p) => Napping(p)
    case Signalling => Idle
    case Leaving => Idle
    case _ => pc
  }

  ghost predicate AllReleased(s: State, s': State) {
    forall t: nat :: At(s', t) == Released(At(s, t), s.slot)
  }

  /** The mail that the holder of the lock is about to put into the slot. */
  ghost function Offered(s: State): seq<Mail> {
    if s.holder.Sending? && At(s, s.holder.t).Inside? && s.slot.Free? then [Unpack(At(s, s.holder.t).payload)] else []
  }

  /** The steps in which `u` leaves the critical section. */
  ghost function Exit(s: State, u: nat): seq<Action> {
    if At(s, u).Inside? && s.slot.Free? then [Inspect(u)] + [Signal(u), Leave(u)]
    else if At(s, u).Inside? then [Inspect(u), Leave(u)]
    else if At(s, u).Signalling? then [Signal(u), Leave(u)]
    else [Leave(u)]
  }

  /** Sender `u` has left the critical section and all others are where they were. */
  ghost predicate Left(s: State, s': State, u: nat) {
    && s'.holder == Nobody && s'.handled == s.handled && At(s', u) == Released(At(s, u), s.slot)
    && s'.accepted == s.accepted + Offered(s) && forall t: nat :: t != u ==> At(s', t) == At(s, t)
  }

  lemma ExitLeaves(users: seq<string>, s: State, u: nat)
    requires s.holder == Sending(u) && HoldsLock(At(s, u)) && !(At(s, u).Inside? && s.slot.Free?)
    ensures Leads(users, s, Exit(s, u), Run(users, s, Exit(s, u))) && Left(s, Run(users, s, Exit(s, u)), u)
  {
    LeadsOne(users, s, Leave(u));
    LeadsTwo(users, s, Inspect(u), Leave(u));
    LeadsTwo(users, s, Signal(u), Leave(u));
  }

  lemma AcceptLeaves(users: seq<string>, s: State, u: nat)
    requires s.holder == Sending(u) && At(s, u).Inside? && s.slot.Free?
    ensures Leads(users, s, Exit(s, u), Run(users, s, Exit(s, u))) && Left(s, Run(users, s, Exit(s, u)), u)
  {
    var s1 := Step(users, s, Inspect(u));
    assert At(s1, u) == Signalling;
    LeadsOne(users, s, Inspect(u));
    LeadsTwo(users, s1, Signal(u), Leave(u));
    LeadsOn(users, s, [Inspect(u)], s1, [Signal(u), Leave(u)], Step(users, Step(users, s1, Signal(u)), Leave(u)));
  }

  lemma HolderLeaves(users: seq<string>, s: State, u: nat)
    requires SlotOk(s) && s.holder == Sending(u)
    ensures var s' := Run(users, s, Exit(s, u));
      && Leads(users, s, Exit(s, u), s') && s'.holder == Nobody && s'.handled == s.handled
      && s'.accepted == s.accepted + Offered(s) && AllReleased(s, s')
  {
    assert HoldsLock(At(s, u));
    if At(s, u).Inside? && s.slot.Free? {
      AcceptLeaves(users, s, u);
    } else {
      ExitLeaves(users, s, u);
    }
    LeftIsReleased(s, Run(users, s, Exit(s, u)), u);
  }

  lemma LeftIsReleased(s: State, s': State, u: nat)
    requires Exclusive(s) && s.holder == Sending(u) && Left(s, s', u)
    ensures AllReleased(s, s')
  {
    forall t: nat
      ensures At(s', t) == Released(At(s, t), s.slot)
    {
      assert HoldsLock(At(s, t)) <==> s.holder == Sending(t);
    }
  }

  /** The exchange thread handles what is in the slot and keeps the lock. */
  lemma SlotEmpties(users: seq<string>, s: State)
    requires SlotOk(s) && s.slot.Full? && !s.holder.Sending?
    ensures var s' := Run(users, s, Drain(s));
      && Leads(users, s, Drain(s), s') && s'.slot.Free? && s'.holder == Exchange && s'.senders == s.senders
      && s'.handled == s'.accepted == s.accepted
  {
    DrainHandles(users, s);
    DrainKeepsSenders(users, s);
  }

  lemma CheckedKeepsSenders(users: seq<string>, s: State)
    requires SlotOk(s) && s.slot.Full? && (s.consumer.Handling? || s.consumer.Checking?)
    ensures var s' := Run(users, s, Drain(s)); s'.holder == Exchange && s'.senders == s.senders
  {
    RunOne(users, s, Handle(0));
    RunTwo(users, s, Check, Handle(0));
  }

  lemma DrainKeepsSenders(users: seq<string>, s: State)
    requires SlotOk(s) && s.slot.Full? && !s.holder.Sending? && !s.consumer.Asleep?
    ensures var s' := Run(users, s, Drain(s)); s'.holder == Exchange && s'.senders == s.senders
  {
    if s.consumer.Handling? || s.consumer.Checking? {
      CheckedKeepsSenders(users, s);
    } else {
      var s1 := Step(users, s, Acquire);
      StepKeepsSlot(users, s, Acquire);
      CheckedKeepsSenders(users, s1);
      RunAppend(users, s, [Acquire], Drain(s1));
      RunOne(users, s, Acquire);
      assert [Acquire] + Drain(s1) == Drain(s);
    }
  }

  ghost predicate Clear(s: State) {
    SlotOk(s) && s.ready && s.holder == Nobody && s.slot.Free?
  }

  /** From a state in which no sender holds the lock, the slot and the lock get free. */
  lemma SlotGetsFree(users: seq<string>, s: State) returns (more: seq<Action>, s': State)
    requires SlotOk(s) && s.ready && !s.holder.Sending?
    ensures Leads(users, s, more, s') && Clear(s') && s'.senders == s.senders
    ensures s'.handled == s'.accepted == s.accepted
  {
    more, s' := [], s;
    if s.slot.Full? {
      SlotEmpties(users, s);
      more, s' := Drain(s), Run(users, s, Drain(s));
    }
    RunsOnward(users, s, more, s');
    if s'.holder == Exchange {
      var before, s1 := more, s';
      LeadsOne(users, s1, Check);
      StepKeepsSlot(users, s1, Check);
      more, s' := before + [Check], Step(users, s1, Check);
      LeadsOn(users, s, before, s1, [Check], s');
    }
  }

  /** The same from any state; the sender in the critical section leaves it first. */
  lemma GetsClear(users: seq<string>, s: State) returns (more: seq<Action>, s': State)
    requires SlotOk(s) && s.ready
    ensures Leads(users, s, more, s') && Clear(s') && AllReleased(s, s')
    ensures s'.handled == s'.accepted == s.accepted + Offered(s)
  {
    var exit, s1 := [], s;
    if s.holder.Sending? {
      var u := s.holder.t;
      HolderLeaves(users, s, u);
      exit, s1 := Exit(s, u), Run(users, s, Exit(s, u));
    } else {
      NobodyReleased(s);
    }
    RunsOnward(users, s, exit, s1);
    var rest;
    rest, s' := SlotGetsFree(users, s1);
    LeadsOn(users, s, exit, s1, rest, s');
    more := exit + rest;
    SameReleased(s, s1, s');
  }

  lemma NobodyReleased(s: State)
    requires Exclusive(s) && !s.holder.Sending?
    ensures AllReleased(s, s)
  {
    forall t: nat
      ensures At(s, t) == Released(At(s, t), s.slot)
    {
      assert HoldsLock(At(s, t)) <==> s.holder == Sending(t);
    }
  }

  lemma SameReleased(s: State, s1: State, s2: State)
    requires AllReleased(s, s1) && s2.senders == s1.senders
    ensures AllReleased(s, s2)
  {
    forall t: nat
      ensures At(s2, t) == Released(At(s, t), s.slot)
    {
      assert At(s2, t) == At(s1, t);
    }
  }

  // ------------------------------------------------------------------ handing over

  /** At a free lock and a free slot a sender's next four steps hand its mail over. */
  lemma LockIsTaken(users: seq<string>, s: State, t: nat, p: Payload)
    requires Clear(s) && At(s, t) == AtLock(p)
    ensures var more := [Enter(t), Inspect(t)] + [Signal(t), Leave(t)];
      var s' := Run(users, s, more);
      && Leads(users, s, more, s') && SlotOk(s') && s'.ready && s'.holder == Nobody && At(s', t).Idle?
      && s'.slot == Full(p) && s'.handled == s.handled && s'.accepted == s.accepted + [Unpack(p)]
  {
    var s1 := Step(users, s, Enter(t));
    var s2 := Step(users, s1, Inspect(t));
    assert At(s1, t) == Inside(p) && s1.slot == s.slot;
    assert At(s2, t) == Signalling && s2.slot == Full(p) && s2.accepted == s.accepted + [Unpack(p)];
    var s3 := Step(users, s2, Signal(t));
    assert At(s3, t) == Leaving;
    LeadsTwo(users, s, Enter(t), Inspect(t));
    LeadsTwo(users, s2, Signal(t), Leave(t));
    LeadsOn(users, s, [Enter(t), Inspect(t)], s2, [Signal(t), Leave(t)], Step(users, s3, Leave(t)));
    RunsOnward(users, s, [Enter(t), Inspect(t)] + [Signal(t), Leave(t)], Step(users, s3, Leave(t)));
  }

  /** A sender that is at the lock, or naps, gets its mail handled. */
  lemma WaitingGetsThrough(users: seq<string>, s: State, t: nat, p: Payload)
    returns (more: seq<Action>, s': State)
    requires Clear(s) && (At(s, t) == AtLock(p) || At(s, t) == Napping(p))
    ensures Leads(users, s, more, s') && Clear(s') && At(s', t).Idle?
    ensures s'.handled == s.accepted + [Unpack(p)]
  {
    var s1 := s;
    more := [];
    if At(s, t).Napping? {
      LeadsOne(users, s, Retry(t));
      StepKeepsSlot(users, s, Retry(t));
      more, s1 := [Retry(t)], Step(users, s, Retry(t));
    }
    LockIsTaken(users, s1, t, p);
    var hand := [Enter(t), Inspect(t)] + [Signal(t), Leave(t)];
    var s2 := Run(users, s1, hand);
    LeadsOn(users, s, more, s1, hand, s2);
    var rest;
    rest, s' := SlotGetsFree(users, s2);
    LeadsOn(users, s, more + hand, s2, rest, s');
    more := more + hand + rest;
    assert At(s', t) == At(s2, t);
  }

  /** Wherever a sender is with its mail, the mail can be handled, as the last one. */
  lemma LoadedGetsThrough(users: seq<string>, s: State, t: nat) returns (more: seq<Action>, s': State)
    requires SlotOk(s) && Loaded(At(s, t))
    ensures Leads(users, s, more, s') && At(s', t).Idle?
    ensures exists before :: s.handled <= before && s'.handled == before + [Unpack(At(s, t).payload)]
  {
    var p := At(s, t).payload;
    more, s' := GetsClear(users, s);
    assert At(s', t) == Released(At(s, t), s.slot);
    assert s.handled <= s.accepted;
    if At(s, t).Inside? && s.slot.Free? {
      assert HoldsLock(At(s, t)) <==> s.holder == Sending(t);
      assert s'.handled == s.accepted + [Unpack(p)];
    } else {
      var clear, s1 := more, s';
      var rest;
      rest, s' := WaitingGetsThrough(users, s1, t, p);
      LeadsOn(users, s, clear, s1, rest, s');
      more := clear + rest;
      assert s.handled <= s1.accepted && s'.handled == s1.accepted + [Unpack(p)];
    }
  }

  // ---------------------------------------------------------------- the main results

  /** The exchange thread can always be started. */
  lemma StartMakesReady(users: seq<string>, n: nat, actions: seq<Action>)
    requires Registered(users)
    ensures Run(users, Initial(users, n), actions + [Start]).ready
  {
    RunKeeps(users, n, actions);
    RunAppend(users, Initial(users, n), actions, [Start]);
    RunOne(users, Run(users, Initial(users, n), actions), Start);
  }

  /** The box of the user that the directory finds for `to`, if it finds one, has got
      `text` from `from` behind all that it had from there. */
  ghost predicate Delivered(users: seq<string>, s: State, s': State, from: string, to: string, text: string) {
    var v := Lookup(users, to);
    v < |users| ==>
      && v < |s.boxes| && v < |s'.boxes|
      && exists before :: InFrom(s.boxes[v], from) <= before && InFrom(s'.boxes[v], from) == before + [text]
  }

  lemma {:induction false} BetweenPrefix(log: seq<Mail>, log': seq<Mail>, users: seq<string>, from: string, v: nat)
    requires log <= log'
    ensures Between(log, users, from, v) <= Between(log', users, from, v)
  {
    if log == log' {
    } else {
      BetweenPrefix(log, log'[..|log'| - 1], users, from, v);
    }
  }

  lemma HandledIsDelivered(users: seq<string>, s: State, s': State, mail: Mail, before: seq<Mail>)
    requires LedgerOk(s, users) && LedgerOk(s', users)
    requires s.handled <= before && s'.handled == before + [mail]
    ensures Delivered(users, s, s', mail.from, mail.to, mail.text)
  {
    var v := Lookup(users, mail.to);
    if v < |users| {
      assert Received(s, users, v, mail.from) && Received(s', users, v, mail.from);
      BetweenPrefix(s.handled, before, users, mail.from, v);
      BetweenAppend(before, mail, users, mail.from, v);
      assert InFrom(s'.boxes[v], mail.from) == Between(before, users, mail.from, v) + [mail.text];
    }
  }

  /** From every reachable state in which a sender still has its message, a further run
      without a new message delivers it. */
  lemma MailGetsThrough(users: seq<string>, n: nat, actions: seq<Action>, t: nat) returns (more: seq<Action>)
    requires Registered(users)
    requires var pc := At(Run(users, Initial(users, n), actions), t);
      pc.AtLock? || pc.Inside? || pc.Refused? || pc.Napping?
    ensures forall i :: 0 <= i < |more| ==> !more[i].Send?
    ensures var s, s' := Run(users, Initial(users, n), actions), Run(users, Initial(users, n), actions + more);
      var mail := Unpack(At(s, t).payload);
      At(s', t).Idle? && Delivered(users, s, s', mail.from, mail.to, mail.text)
  {
    var s := Run(users, Initial(users, n), actions);
    RunKeeps(users, n, actions);
    var s';
    more, s' := LoadedGetsThrough(users, s, t);
    RunAppend(users, Initial(users, n), actions, more);
    RunKeeps(users, n, actions + more);
    var mail := Unpack(At(s, t).payload);
    var before :| s.handled <= before && s'.handled == before + [mail];
    HandledIsDelivered(users, s, s', mail, before);
  }

  /** From every reachable state in which thread `t` can send a message, sending it and
      a further run without another new message deliver it. */
  lemma SendGetsThrough(users: seq<string>, n: nat, actions: seq<Action>, a: Action) returns (more: seq<Action>)
    requires Registered(users) && a.Send? && a.t < n && a.host < |users|
    requires var s := Run(users, Initial(users, n), actions); s.ready && At(s, a.t).Idle?
    requires |users[a.host]| < 10 && |a.frdName| < 10 && 30 <= |a.behind|
    requires NUL !in users[a.host] && NUL !in a.frdName && NUL !in a.msg
    ensures forall i :: 0 <= i < |more| ==> !more[i].Send?
    ensures var s, s' := Run(users, Initial(users, n), actions), Run(users, Initial(users, n), actions + [a] + more);
      At(s', a.t).Idle? && Delivered(users, s, s', users[a.host], a.frdName, Clip(a.msg))
  {
    var s0 := Initial(users, n);
    var s := Run(users, s0, actions);
    RunKeeps(users, n, actions);
    SameSenders(users, n, actions);
    var s1 := Step(users, s, a);
    RunAppend(users, s0, actions, [a]);
    RunOne(users, s, a);
    RunKeeps(users, n, actions + [a]);
    assert At(s1, a.t) == AtLock(Pack(users[a.host], a.frdName, a.msg, a.behind));
    UnpackPacked(users[a.host], a.frdName, a.msg, a.behind);
    var s';
    more, s' := LoadedGetsThrough(users, s1, a.t);
    RunAppend(users, s0, actions + [a], more);
    RunKeeps(users, n, actions + [a] + more);
    var mail := Mail(users[a.host], a.frdName, Clip(a.msg));
    var before :| s1.handled <= before && s'.handled == before + [mail];
    HandledIsDelivered(users, s, s', mail, before);
  }

  lemma {:induction false} SameSenders(users: seq<string>, n: nat, actions: seq<Action>)
    ensures |Run(users, Initial(users, n), actions).senders| == n
    ensures |Run(users, Initial(users, n), actions).boxes| == |users|
  {
    if actions != [] {
      var before := actions[..|actions| - 1];
      SameSenders(users, n, before);
      StepKeepsSizes(users, Run(users, Initial(users, n), before), actions[|actions| - 1]);
    }
  }

  /** Any one sender can finish. */
  lemma GetsIdle(users: seq<string>, s: State, t: nat) returns (more: seq<Action>, s': State)
    requires SlotOk(s) && s.ready
    ensures Leads(users, s, more, s') && Onward(s, s') && At(s', t).Idle?
  {
    more, s' := [], s;
    if Loaded(At(s, t)) {
      more, s' := LoadedGetsThrough(users, s, t);
    } else if !At(s, t).Idle? {
      more, s' := GetsClear(users, s);
      assert At(s', t) == Released(At(s, t), s.slot);
    }
    RunsOnward(users, s, more, s');
  }

  ghost predicate IdleTo(s: State, k: nat) {
    forall t: nat :: t < k ==> At(s, t).Idle?
  }

  /** One after the other the first `k` senders finish. */
  lemma {:induction false} AllGetIdle(users: seq<string>, s: State, k: nat) returns (more: seq<Action>, s': State)
    requires SlotOk(s) && s.ready
    ensures Leads(users, s, more, s') && SlotOk(s') && s'.ready && IdleTo(s', k)
  {
    if k == 0 {
      more, s' := [], s;
    } else {
      var first, s1 := AllGetIdle(users, s, k - 1);
      var rest;
      rest, s' := GetsIdle(users, s1, k - 1);
      LeadsOn(users, s, first, s1, rest, s');
      more := first + rest;
    }
  }

  lemma {:induction false} IdleCarryNothing(senders: seq<Sender>, users: seq<string>, from: string, v: nat)
    requires forall t :: 0 <= t < |senders| ==> senders[t].Idle?
    ensures Pending(senders, users, from, v) == multiset{}
  {
    if senders != [] {
      IdleCarryNothing(senders[1..], users, from, v);
    }
  }

  /** Everybody is done: nobody holds the lock, nothing is in the slot, and every user has
      received exactly what the others have sent there. */
  ghost predicate Settled(users: seq<string>, s: State) {
    && |s.boxes| == |users| && s.holder == Nobody && s.slot.Free? && IdleTo(s, |s.senders|)
    && forall u, v :: 0 <= u < |users| && 0 <= v < |users| ==>
         OutTo(s.boxes[u].msgs, users, v) == multiset(InFrom(s.boxes[v], users[u]))
  }

  lemma NothingCarried(users: seq<string>, s: State, from: string, v: nat)
    requires IdleTo(s, |s.senders|)
    ensures Pending(s.senders, users, from, v) == multiset{}
  {
    forall t | 0 <= t < |s.senders|
      ensures s.senders[t].Idle?
    {
      assert At(s, t).Idle?;
    }
    IdleCarryNothing(s.senders, users, from, v);
  }

  lemma PairSettled(users: seq<string>, s: State, u: nat, v: nat)
    requires |s.boxes| == |users| && u < |users| && v < |users|
    requires Sent(s, users, u, v) && Received(s, users, v, users[u]) && s.accepted == s.handled
    requires Pending(s.senders, users, users[u], v) == multiset{}
    ensures OutTo(s.boxes[u].msgs, users, v) == multiset(InFrom(s.boxes[v], users[u]))
  {
  }

  lemma NothingPending(users: seq<string>, s: State)
    requires NothingLost(s) && LedgerOk(s, users) && s.holder == Nobody && s.slot.Free? && IdleTo(s, |s.senders|)
    ensures Settled(users, s)
  {
    forall u, v | 0 <= u < |users| && 0 <= v < |users|
      ensures OutTo(s.boxes[u].msgs, users, v) == multiset(InFrom(s.boxes[v], users[u]))
    {
      assert Sent(s, users, u, v) && Received(s, users, v, users[u]);
      NothingCarried(users, s, users[u], v);
      PairSettled(users, s, u, v);
    }
  }

  lemma DoneAtStart(s: State)
    requires SlotOk(s) && !s.ready
    ensures s.holder == Nobody && s.slot.Free? && IdleTo(s, |s.senders|)
  {
    var t := if s.holder.Sending? then s.holder.t else 0;
    assert HoldsLock(At(s, t)) <==> s.holder == Sending(t);
  }

  /** All senders finish. */
  lemma AllFinish(users: seq<string>, s: State) returns (more: seq<Action>, s': State)
    requires SlotOk(s)
    ensures Leads(users, s, more, s') && SlotOk(s') && s'.holder == Nobody && s'.slot.Free?
    ensures IdleTo(s', |s'.senders|)
  {
    if s.ready {
      var idle, s1 := AllGetIdle(users, s, |s.senders|);
      RunsOnward(users, s, idle, s1);
      var rest;
      rest, s' := GetsClear(users, s1);
      RunsOnward(users, s1, rest, s');
      more := idle + rest;
      LeadsOn(users, s, idle, s1, rest, s');
    } else {
      more, s' := [], s;
      DoneAtStart(s);
    }
  }

  /** From every reachable state some further run without a new message delivers all
      messages that are still under way. */
  lemma EverythingGetsThrough(users: seq<string>, n: nat, actions: seq<Action>) returns (more: seq<Action>)
    requires Registered(users)
    ensures forall i :: 0 <= i < |more| ==> !more[i].Send?
    ensures Settled(users, Run(users, Initial(users, n), actions + more))
  {
    var s0 := Initial(users, n);
    RunKeeps(users, n, actions);
    var s';
    more, s' := AllFinish(users, Run(users, s0, actions));
    RunAppend(users, s0, actions, more);
    RunKeeps(users, n, actions + more);
    NothingPending(users, s');
  }
}
