/** Many senders, one slot and one exchange thread: how a message gets from the
    sender's box into the recipient's. A run is a sequence of atomic steps; between
    the steps any thread may go on. */
module MessageExchange {
  import opened MessageBox

  // ------------------------------------------------------------- the slot's bytes

  const NUL: char := '\0'
  const MAX_EVENT_LENGTH: nat := 50

  type Payload = s: string | |s| == MAX_EVENT_LENGTH witness seq(MAX_EVENT_LENGTH, _ => NUL)

  /** What a C program reads from a buffer: everything before the first NUL. */
  function CString(buffer: string): string {
    if buffer == [] || buffer[0] == NUL then [] else [buffer[0]] + CString(buffer[1..])
  }

  /** `n` bytes copied from where `s` is stored; behind its NUL lies anything. */
  function Field(s: string, behind: string, n: nat): (f: string)
    requires n <= |behind|
    ensures |f| == n
  {
    (s + [NUL] + behind)[..n]
  }

  function Pack(host: string, frdName: string, msg: string, behind: string): Payload
    requires MAX_MSG_LENGTH <= |behind|
  {
    Field(host, behind, MAX_NAME_LENGTH) + Field(frdName, behind, MAX_NAME_LENGTH) + Field(msg, behind, MAX_MSG_LENGTH)
  }

  datatype Mail = Mail(from: string, to: string, text: string)

  function Unpack(p: Payload): Mail {
    Mail(CString(p[..MAX_NAME_LENGTH]),
         CString(p[MAX_NAME_LENGTH..2 * MAX_NAME_LENGTH]), CString(p[2 * MAX_NAME_LENGTH..]))
  }

  predicate IsName(s: string) {
    |s| < MAX_NAME_LENGTH && NUL !in s
  }

  lemma {:induction false} FieldReads(s: string, behind: string, n: nat)
    requires NUL !in s && n <= |behind|
    ensures CString(Field(s, behind, n)) == if |s| <= n then s else s[..n]
  {
    var f := Field(s, behind, n);
    if n > 0 && s != [] {
      FieldReads(s[1..], behind, n - 1);
      assert f[0] == s[0] && s[0] in s;
      assert f[1..] == Field(s[1..], behind, n - 1);
    }
  }

  /** The exchange thread reads what the sender wrote, whatever lies behind the
      strings; only the end of an overlong message is lost, in both boxes alike. */
  lemma UnpackPacked(host: string, frdName: string, msg: string, behind: string)
    requires IsName(host) && IsName(frdName) && NUL !in msg && MAX_MSG_LENGTH <= |behind|
    ensures Unpack(Pack(host, frdName, msg, behind)) == Mail(host, frdName, Clip(msg))
  {
    var p := Pack(host, frdName, msg, behind);
    FieldReads(host, behind, MAX_NAME_LENGTH);
    FieldReads(frdName, behind, MAX_NAME_LENGTH);
    FieldReads(msg, behind, MAX_MSG_LENGTH);
    assert p[..MAX_NAME_LENGTH] == Field(host, behind, MAX_NAME_LENGTH);
    assert p[MAX_NAME_LENGTH..2 * MAX_NAME_LENGTH] == Field(frdName, behind, MAX_NAME_LENGTH);
    assert p[2 * MAX_NAME_LENGTH..] == Field(msg, behind, MAX_MSG_LENGTH);
  }

  // ---------------------------------------------------------------- the directory

  /** `getUserInfo` without an e-mail address: the first user whose name begins with
      `name`, or the number of users. */
  function Lookup(users: seq<string>, name: string): (i: nat)
    ensures i <= |users|
    ensures i < |users| ==> name <= users[i]
    ensures forall j :: 0 <= j < i ==> !(name <= users[j])
  {
    if users == [] || name <= users[0] then 0 else 1 + Lookup(users[1..], name)
  }

  /** No two users have the same name. */
  ghost predicate Registered(users: seq<string>) {
    forall i, j :: 0 <= i < j < |users| ==> users[i] != users[j]
  }

  /** A user is found under the own name unless an earlier user's name begins with it. */
  lemma FoundUnderOwnNameIff(users: seq<string>, v: nat)
    requires v < |users|
    ensures Lookup(users, users[v]) == v <==> forall j :: 0 <= j < v ==> !(users[v] <= users[j])
  {
  }

  /** It does happen. */
  lemma FoundUnderOtherName()
    ensures Lookup(["annabel", "anna"], "anna") == 0
  {
    assert "anna" <= "annabel";
  }

  // ------------------------------------------------------------------- the state

  /** Where a sender is in `notifyExchange`. */
  datatype Sender =
    | Idle
    | AtLock(payload: Payload)
    | Inside(payload: Payload)
    | Signalling
    | Leaving
    | Refused(payload: Payload)
    | Napping(payload: Payload)

  /** Where the exchange thread is. */
  datatype Consumer = Starting | Entering | Checking | Handling | Asleep | Woken

  datatype Holder = Nobody | Sending(t: nat) | Exchange

  datatype Slot = Free | Full(payload: Payload)

  /** Where a reader is in `msg -f`: it has noted the contact's unread count, or it has
      shown the messages and has yet to take the noted number off the box's count.
      `arrived` and `cleared` remember what came in from the contact since the note,
      and what other readers cleared since. */
  datatype Reader =
    | Resting
    | Noting(user: nat, contact: string, noted: nat, arrived: nat, cleared: nat)
    | Settling(user: nat, noted: nat)

  /** Three fields only remember: which mail went into the slot (`accepted`) and was
      taken out of it (`handled`), and, for every user, the arrivals less the clearings
      between notes and showings (`missed`). */
  datatype State = State(ready: bool, holder: Holder, slot: Slot, senders: seq<Sender>, consumer: Consumer,
                         readers: seq<Reader>, boxes: seq<Box>, accepted: seq<Mail>, handled: seq<Mail>,
                         missed: seq<int>)

  datatype Action =
    | Send(t: nat, host: nat, frdName: string, msg: string, behind: string, now: int)
    | Enter(t: nat)
    | Inspect(t: nat)
    | Signal(t: nat)
    | Leave(t: nat)
    | Retry(t: nat)
    | Start
    | Acquire
    | Check
    | Handle(time: int)
    | WakeUp
    | NoteUnread(r: nat, user: nat, contact: string)
    | Show(r: nat)
    | Settle(r: nat)

  function At(s: State, t: nat): Sender {
    if t < |s.senders| then s.senders[t] else Idle
  }

  function Move(s: State, t: nat, pc: Sender): State {
    if t < |s.senders| then s.(senders := s.senders[t := pc]) else s
  }

  function Note(boxes: seq<Box>, u: nat, name: string, m: Message): seq<Box> {
    if u < |boxes| then boxes[u := Recorded(boxes[u], name, m)] else boxes
  }

  /** Readers of `name` in the box of `u` remember that a message came in. */
  function Arrive(readers: seq<Reader>, u: nat, name: string): (rs: seq<Reader>)
    ensures |rs| == |readers|
    ensures forall r :: 0 <= r < |readers| ==> rs[r] == Arrived(readers[r], u, name)
  {
    seq(|readers|, r requires 0 <= r < |readers| => Arrived(readers[r], u, name))
  }

  function Arrived(pc: Reader, u: nat, name: string): Reader {
    if pc.Noting? && pc.user == u && pc.contact == name then pc.(arrived := pc.arrived + 1) else pc
  }

  /** They remember that another reader cleared `n` messages. */
  function ClearFor(readers: seq<Reader>, u: nat, name: string, n: nat): (rs: seq<Reader>)
    ensures |rs| == |readers|
    ensures forall r :: 0 <= r < |readers| ==> rs[r] == ClearedFor(readers[r], u, name, n)
  {
    seq(|readers|, r requires 0 <= r < |readers| => ClearedFor(readers[r], u, name, n))
  }

  function ClearedFor(pc: Reader, u: nat, name: string, n: nat): Reader {
    if pc.Noting? && pc.user == u && pc.contact == name then pc.(cleared := pc.cleared + n) else pc
  }

  function ReaderAt(s: State, r: nat): Reader {
    if r < |s.readers| then s.readers[r] else Resting
  }

  /** A reader notes the unread count of a contact; for a missing contact the program
      ends, which is no step. */
  predicate CanNote(s: State, a: Action)
    requires a.NoteUnread?
  {
    && a.r < |s.readers| && s.readers[a.r].Resting? && a.user < |s.boxes|
    && NodeOf(s.boxes[a.user].msgs, a.contact) < |s.boxes[a.user].msgs|
  }

  /** A reader shows the messages and clears the contact's count; for more than four
      messages the program ends. */
  predicate CanShow(s: State, r: nat) {
    && ReaderAt(s, r).Noting? && s.readers[r].user < |s.boxes| == |s.missed|
    && Readable(s.boxes[s.readers[r].user], s.readers[r].contact)
  }

  predicate CanSettle(s: State, r: nat) {
    ReaderAt(s, r).Settling? && s.readers[r].user < |s.boxes|
  }

  predicate CanSend(users: seq<string>, s: State, a: Action)
    requires a.Send?
  {
    && s.ready && a.t < |s.senders| && s.senders[a.t].Idle? && a.host < |users| == |s.boxes|
    && IsName(users[a.host]) && IsName(a.frdName) && NUL !in a.msg && MAX_MSG_LENGTH <= |a.behind|
  }

  /** One atomic step. A step that cannot be taken now changes nothing. */
  function Step(users: seq<string>, s: State, a: Action): State {
    match a
    case Send(t, host, frdName, msg, behind, now) =>
      // sendReceiveMsg: the message is in the sender's box before the exchange knows
      if !CanSend(users, s, a) then s
      else
        var s1 := s.(boxes := Note(s.boxes, host, frdName, Message(Out, false, now, Clip(msg))));
        Move(s1, t, AtLock(Pack(users[host], frdName, msg, behind)))
    case Enter(t) =>
      if At(s, t).AtLock? && s.holder == Nobody then Move(s, t, Inside(At(s, t).payload)).(holder := Sending(t)) else s
    case Inspect(t) =>
      if !At(s, t).Inside? then s
      else
        var p := At(s, t).payload;
        if s.slot.Free? then Move(s, t, Signalling).(slot := Full(p), accepted := s.accepted + [Unpack(p)])
        else Move(s, t, Refused(p))
    case Signal(t) =>
      if At(s, t).Signalling? then
        Move(s, t, Leaving).(consumer := if s.consumer.Asleep? then Woken else s.consumer)
      else s
    case Leave(t) =>
      if At(s, t).Leaving? then Move(s, t, Idle).(holder := Nobody)
      else if At(s, t).Refused? then Move(s, t, Napping(At(s, t).payload)).(holder := Nobody)
      else s
    case Retry(t) =>
      if At(s, t).Napping? then Move(s, t, AtLock(At(s, t).payload)) else s
    case Start =>
      if s.consumer.Starting? then s.(ready := true, consumer := Entering) else s
    case Acquire =>
      if (s.consumer.Entering? || s.consumer.Woken?) && s.holder == Nobody then
        s.(holder := Exchange, consumer := Checking)
      else s
    case Check =>
      if !s.consumer.Checking? then s
      else if s.slot.Free? then s.(holder := Nobody, consumer := Asleep)
      else s.(consumer := Handling)
    case Handle(now) =>
      if s.consumer.Handling? && s.slot.Full? then
        var mail := Unpack(s.slot.payload);
        s.(boxes := Note(s.boxes, Lookup(users, mail.to), mail.from, Message(In, true, now, mail.text)),
           readers := Arrive(s.readers, Lookup(users, mail.to), mail.from),
           slot := Free, consumer := Checking, handled := s.handled + [mail])
      else s
    case WakeUp =>
      if s.consumer.Asleep? then s.(consumer := Woken) else s
    case NoteUnread(r, u, contact) =>
      if !CanNote(s, a) then s
      else
        var msgs := s.boxes[u].msgs;
        s.(readers := s.readers[r := Noting(u, contact, msgs[NodeOf(msgs, contact)].numUnread, 0, 0)])
    case Show(r) =>
      if !CanShow(s, r) then s
      else
        var Noting(u, contact, noted, arrived, cleared) := s.readers[r];
        var i := NodeOf(s.boxes[u].msgs, contact);
        var readers := ClearFor(s.readers, u, contact, s.boxes[u].msgs[i].numUnread);
        s.(boxes := s.boxes[u := Cleared(s.boxes[u], i)], readers := readers[r := Settling(u, noted)],
           missed := s.missed[u := s.missed[u] + arrived - cleared])
    case Settle(r) =>
      if !CanSettle(s, r) then s
      else
        var Settling(u, noted) := s.readers[r];
        var box := s.boxes[u];
        s.(boxes := s.boxes[u := box.(numUnread := box.numUnread - noted)], readers := s.readers[r := Resting])
  }

  lemma StepKeepsSizes(users: seq<string>, s: State, a: Action)
    ensures |Step(users, s, a).senders| == |s.senders| && |Step(users, s, a).boxes| == |s.boxes|
  {
  }

  /** All users start with an empty box; there are `n` threads that may send and as
      many that may read. */
  function Initial(users: seq<string>, n: nat): State {
    State(false, Nobody, Free, seq(n, _ => Idle), Starting, seq(n, _ => Resting), seq(|users|, _ => EMPTY), [], [],
          seq(|users|, _ => 0))
  }

  function Run(users: seq<string>, s: State, actions: seq<Action>): State {
    if actions == [] then s
    else Step(users, Run(users, s, actions[..|actions| - 1]), actions[|actions| - 1])
  }

  // ---------------------------------------------------------- the lock and the slot

  predicate HoldsLock(pc: Sender) {
    pc.Inside? || pc.Signalling? || pc.Leaving? || pc.Refused?
  }

  ghost predicate Exclusive(s: State) {
    && (forall t: nat :: HoldsLock(At(s, t)) <==> s.holder == Sending(t))
    && (s.consumer.Checking? || s.consumer.Handling? <==> s.holder == Exchange)
  }

  /** What was accepted is what was handled and then what is in the slot. */
  ghost predicate NothingLost(s: State) {
    && s.accepted == s.handled + (if s.slot.Full? then [Unpack(s.slot.payload)] else [])
    && (s.consumer.Handling? ==> s.slot.Full?)
  }

  /** When the exchange thread sleeps although the slot is full, the sender that
      filled the slot holds the lock and is about to signal. */
  ghost predicate NoLostWakeUp(s: State) {
    s.consumer.Asleep? && s.slot.Full? ==> s.holder.Sending? && At(s, s.holder.t).Signalling?
  }

  ghost predicate SlotOk(s: State) {
    Exclusive(s) && NothingLost(s) && NoLostWakeUp(s) && (s.slot.Full? ==> !s.consumer.Starting?)
    && (s.consumer.Starting? <==> !s.ready)
    && (!s.ready ==> forall t: nat :: At(s, t).Idle?)
  }

  lemma SenderKeepsSlot(users: seq<string>, s: State, a: Action)
    requires SlotOk(s) && (a.Send? || a.Enter? || a.Inspect? || a.Signal? || a.Leave? || a.Retry?)
    ensures SlotOk(Step(users, s, a))
  {
    var s' := Step(users, s, a);
    assert HoldsLock(At(s, a.t)) <==> s.holder == Sending(a.t);
    forall t: nat
      ensures HoldsLock(At(s', t)) <==> s'.holder == Sending(t)
    {
      assert t != a.t ==> At(s', t) == At(s, t);
    }
  }

  /** Every step keeps the lock exclusive, the slot accounted for and the exchange
      thread awake to a full slot. */
  lemma StepKeepsSlot(users: seq<string>, s: State, a: Action)
    requires SlotOk(s)
    ensures SlotOk(Step(users, s, a))
  {
    if a.Send? || a.Enter? || a.Inspect? || a.Signal? || a.Leave? || a.Retry? {
      SenderKeepsSlot(users, s, a);
    } else {
      assert Step(users, s, a).senders == s.senders;
    }
  }

  // ------------------------------------------------------------ the boxes' ledger

  /** The texts of one direction, the oldest first. */
  ghost function Texts(contexts: seq<Message>, io: Direction): seq<string> {
    if contexts == [] then []
    else Texts(contexts[1..], io) + if contexts[0].io == io then [contexts[0].text] else []
  }

  /** What a box received from `name`, in the order of arrival. */
  ghost function InFrom(box: Box, name: string): seq<string> {
    var i := NodeOf(box.msgs, name);
    if i < |box.msgs| then Texts(box.msgs[i].contexts, In) else []
  }

  /** What a box sent under any name that the directory resolves to user `v`; `v` is
      the number of users for names it does not resolve. */
  ghost function OutTo(msgs: seq<Contact>, users: seq<string>, v: nat): multiset<string> {
    if msgs == [] then multiset{} else OutOf(msgs[0], users, v) + OutTo(msgs[1..], users, v)
  }

  ghost function OutOf(c: Contact, users: seq<string>, v: nat): multiset<string> {
    if Lookup(users, c.name) == v then multiset(Texts(c.contexts, Out)) else multiset{}
  }

  /** The texts in a log from `from` to user `v`, in order. */
  ghost function Between(log: seq<Mail>, users: seq<string>, from: string, v: nat): seq<string> {
    if log == [] then []
    else Between(log[..|log| - 1], users, from, v) + One(log[|log| - 1], users, from, v)
  }

  ghost function One(mail: Mail, users: seq<string>, from: string, v: nat): seq<string> {
    if mail.from == from && Lookup(users, mail.to) == v then [mail.text] else []
  }

  lemma BetweenAppend(log: seq<Mail>, mail: Mail, users: seq<string>, from: string, v: nat)
    ensures Between(log + [mail], users, from, v) == Between(log, users, from, v) + One(mail, users, from, v)
  {
    assert (log + [mail])[..|log|] == log;
  }

  predicate Loaded(pc: Sender) {
    pc.AtLock? || pc.Inside? || pc.Refused? || pc.Napping?
  }

  /** The message that a sender has yet to hand over. */
  ghost function Carried(pc: Sender, users: seq<string>, from: string, v: nat): seq<string> {
    if Loaded(pc) then One(Unpack(pc.payload), users, from, v) else []
  }

  ghost function Pending(senders: seq<Sender>, users: seq<string>, from: string, v: nat): multiset<string> {
    if senders == [] then multiset{}
    else multiset(Carried(senders[0], users, from, v)) + Pending(senders[1..], users, from, v)
  }

  lemma Regroup(a: multiset<string>, b: multiset<string>, c: multiset<string>)
    ensures a + (b + c) == (a + b) + c == (a + c) + b
  {
  }

  lemma AddToBoth(h: multiset<string>, a: multiset<string>, x: multiset<string>, b: multiset<string>,
                  y: multiset<string>)
    requires a + x == b + y
    ensures (h + a) + x == (h + b) + y
  {
    assert (h + a) + x == h + (a + x);
    assert (h + b) + y == h + (b + y);
  }

  lemma {:induction false} PendingMoves(senders: seq<Sender>, t: nat, pc: Sender, users: seq<string>, from: string,
                                        v: nat)
    requires t < |senders|
    ensures Pending(senders[t := pc], users, from, v) + multiset(Carried(senders[t], users, from, v))
         == Pending(senders, users, from, v) + multiset(Carried(pc, users, from, v))
  {
    var rest, senders' := senders[1..], senders[t := pc];
    var carried, carried' := multiset(Carried(senders[t], users, from, v)), multiset(Carried(pc, users, from, v));
    if t == 0 {
      assert senders'[1..] == rest;
      Regroup(carried', Pending(rest, users, from, v), carried);
      Regroup(carried, Pending(rest, users, from, v), carried');
      Regroup(carried, carried', Pending(rest, users, from, v));
    } else {
      PendingMoves(rest, t - 1, pc, users, from, v);
      assert senders'[1..] == rest[t - 1 := pc];
      AddToBoth(multiset(Carried(senders[0], users, from, v)),
                Pending(rest[t - 1 := pc], users, from, v), carried, Pending(rest, users, from, v), carried');
    }
  }

  ghost predicate Received(s: State, users: seq<string>, v: nat, name: string)
    requires v < |s.boxes|
  {
    InFrom(s.boxes[v], name) == Between(s.handled, users, name, v)
  }

  ghost predicate Sent(s: State, users: seq<string>, u: nat, v: nat)
    requires u < |s.boxes| == |users|
  {
    OutTo(s.boxes[u].msgs, users, v)
      == multiset(Between(s.accepted, users, users[u], v)) + Pending(s.senders, users, users[u], v)
  }

  ghost predicate LedgerOk(s: State, users: seq<string>) {
    && |s.boxes| == |users|
    && (forall v: nat, name :: v < |users| ==> Received(s, users, v, name))
    && (forall u: nat, v: nat :: u < |users| ==> Sent(s, users, u, v))
    && (forall u: nat :: u < |users| ==> Counted(s.boxes[u]))
  }

  // What recording and reading do to the two views of a box.

  lemma TextsGrow(contexts: seq<Message>, m: Message, io: Direction)
    ensures Texts([m] + contexts, io) == Texts(contexts, io) + if m.io == io then [m.text] else []
  {
    assert ([m] + contexts)[1..] == contexts;
  }

  lemma RecordedIn(box: Box, name: string, m: Message, other: string)
    ensures InFrom(Recorded(box, name, m), other)
         == InFrom(box, other) + if other == name && m.io == In then [m.text] else []
  {
    var box', i := Recorded(box, name, m), NodeOf(box.msgs, name);
    TextsGrow(if i < |box.msgs| then box.msgs[i].contexts else [], m, In);
    assert InFrom(box, other) + [] == InFrom(box, other);
    if i < |box.msgs| {
      NodeUnmoved(box.msgs, box'.msgs, other);
    } else {
      assert box'.msgs[1..] == box.msgs;
    }
  }

  lemma NotedOut(c: Contact, m: Message, users: seq<string>, v: nat)
    ensures OutOf(Noted(c, m), users, v)
         == OutOf(c, users, v) + if Lookup(users, c.name) == v && m.io == Out then multiset{m.text} else multiset{}
  {
    assert ([m] + c.contexts)[1..] == c.contexts;
    var texts := Texts(c.contexts, Out);
    assert multiset(texts + [m.text]) == multiset(texts) + multiset{m.text};
    assert texts + [] == texts;
  }

  lemma {:induction false} OutUpdate(msgs: seq<Contact>, i: nat, c: Contact, more: multiset<string>,
                                     users: seq<string>, v: nat)
    requires i < |msgs| && OutOf(c, users, v) == OutOf(msgs[i], users, v) + more
    ensures OutTo(msgs[i := c], users, v) == OutTo(msgs, users, v) + more
  {
    var rest, msgs' := msgs[1..], msgs[i := c];
    if i == 0 {
      assert msgs'[1..] == rest;
    } else {
      OutUpdate(rest, i - 1, c, more, users, v);
      assert msgs'[1..] == rest[i - 1 := c];
    }
    OneGrows(OutOf(msgs[0], users, v), OutTo(rest, users, v), OutOf(msgs'[0], users, v), OutTo(msgs'[1..], users, v),
             more);
  }

  lemma OneGrows(a: multiset<string>, b: multiset<string>, a': multiset<string>, b': multiset<string>,
                 more: multiset<string>)
    requires (a' == a + more && b' == b) || (a' == a && b' == b + more)
    ensures a' + b' == a + b + more
  {
  }

  lemma RecordedOut(box: Box, name: string, m: Message, users: seq<string>, v: nat)
    ensures OutTo(Recorded(box, name, m).msgs, users, v)
         == OutTo(box.msgs, users, v) + if Lookup(users, name) == v && m.io == Out then multiset{m.text} else multiset{}
  {
    var i := NodeOf(box.msgs, name);
    var c := if i < |box.msgs| then box.msgs[i] else Contact(name, [], 0, 0);
    NotedOut(c, m, users, v);
    if i < |box.msgs| {
      OutUpdate(box.msgs, i, Noted(c, m),
                if Lookup(users, name) == v && m.io == Out then multiset{m.text} else multiset{},
                users, v);
    } else {
      assert Recorded(box, name, m).msgs[1..] == box.msgs;
    }
  }

  lemma ClearKeepsTexts(box: Box, i: nat, users: seq<string>, v: nat, name: string)
    requires i < |box.msgs|
    ensures InFrom(Cleared(box, i), name) == InFrom(box, name)
    ensures OutTo(Cleared(box, i).msgs, users, v) == OutTo(box.msgs, users, v)
  {
    var c := box.msgs[i].(numUnread := 0);
    NodeUnmoved(box.msgs, box.msgs[i := c], name);
    OutUpdate(box.msgs, i, c, multiset{}, users, v);
  }

  // Each kind of step keeps the ledger.

  lemma SendKeepsSent(users: seq<string>, s: State, a: Action, u: nat, v: nat)
    requires |s.boxes| == |users| && a.Send? && CanSend(users, s, a) && u < |users|
    requires a.host == u || users[a.host] != users[u]
    requires Sent(s, users, u, v)
    ensures Sent(Step(users, s, a), users, u, v)
  {
    var s', mail := Step(users, s, a), Mail(users[a.host], a.frdName, Clip(a.msg));
    var p := Pack(users[a.host], a.frdName, a.msg, a.behind);
    UnpackPacked(users[a.host], a.frdName, a.msg, a.behind);
    PendingGrows(s.senders, a.t, p, mail, users, users[u], v);
    if a.host == u {
      OutGrows(s.boxes[u], mail, a.now, users, v);
    } else {
      assert One(mail, users, users[u], v) == [];
    }
    SentGrows(s, s', users, u, v, multiset(One(mail, users, users[u], v)));
  }

  lemma PendingGrows(senders: seq<Sender>, t: nat, p: Payload, mail: Mail, users: seq<string>, from: string, v: nat)
    requires t < |senders| && senders[t].Idle? && mail == Unpack(p)
    ensures Pending(senders[t := AtLock(p)], users, from, v)
         == Pending(senders, users, from, v) + multiset(One(mail, users, from, v))
  {
    PendingMoves(senders, t, AtLock(p), users, from, v);
  }

  lemma OutGrows(box: Box, mail: Mail, now: int, users: seq<string>, v: nat)
    ensures OutTo(Recorded(box, mail.to, Message(Out, false, now, mail.text)).msgs, users, v)
         == OutTo(box.msgs, users, v) + multiset(One(mail, users, mail.from, v))
  {
    RecordedOut(box, mail.to, Message(Out, false, now, mail.text), users, v);
  }

  lemma SentGrows(s: State, s': State, users: seq<string>, u: nat, v: nat, more: multiset<string>)
    requires |s.boxes| == |s'.boxes| == |users| && u < |users| && Sent(s, users, u, v) && s'.accepted == s.accepted
    requires OutTo(s'.boxes[u].msgs, users, v) == OutTo(s.boxes[u].msgs, users, v) + more
    requires Pending(s'.senders, users, users[u], v) == Pending(s.senders, users, users[u], v) + more
    ensures Sent(s', users, u, v)
  {
    Regroup(multiset(Between(s.accepted, users, users[u], v)), Pending(s.senders, users, users[u], v), more);
  }

  lemma SendKeepsLedger(users: seq<string>, s: State, a: Action)
    requires LedgerOk(s, users) && Registered(users) && a.Send? && CanSend(users, s, a)
    ensures LedgerOk(Step(users, s, a), users)
  {
    var s' := Step(users, s, a);
    var m := Message(Out, false, a.now, Clip(a.msg));
    StoreKeeps(s.boxes[a.host], a.frdName, m);
    forall v: nat, name | v < |users|
      ensures Received(s', users, v, name)
    {
      assert Received(s, users, v, name);
      RecordedIn(s.boxes[a.host], a.frdName, m, name);
    }
    forall u: nat, v: nat | u < |users|
      ensures Sent(s', users, u, v)
    {
      SendKeepsSent(users, s, a, u, v);
    }
  }

  /** The ledger depends on what the boxes hold, on the logs and on what is pending. */
  lemma SentFollows(s: State, s': State, users: seq<string>, u: nat, v: nat)
    requires |s.boxes| == |s'.boxes| == |users| && u < |users| && Sent(s, users, u, v) && s'.accepted == s.accepted
    requires OutTo(s'.boxes[u].msgs, users, v) == OutTo(s.boxes[u].msgs, users, v)
    requires Pending(s'.senders, users, users[u], v) == Pending(s.senders, users, users[u], v)
    ensures Sent(s', users, u, v)
  {
  }

  lemma ReceivedFollows(s: State, s': State, users: seq<string>, v: nat, name: string)
    requires |s.boxes| == |s'.boxes| && v < |s.boxes| && Received(s, users, v, name) && s'.handled == s.handled
    requires InFrom(s'.boxes[v], name) == InFrom(s.boxes[v], name)
    ensures Received(s', users, v, name)
  {
  }

  lemma AllReceivedFollow(users: seq<string>, s: State, s': State)
    requires LedgerOk(s, users) && s'.boxes == s.boxes && s'.handled == s.handled
    ensures forall v: nat, name :: v < |users| ==> Received(s', users, v, name)
  {
    forall v: nat, name | v < |users|
      ensures Received(s', users, v, name)
    {
      assert Received(s, users, v, name);
    }
  }

  /** A sender moves on and still carries what it carried. */
  lemma MoveKeepsLedger(users: seq<string>, s: State, s': State, t: nat, pc: Sender)
    requires LedgerOk(s, users) && t < |s.senders| && s'.senders == s.senders[t := pc]
    requires s'.boxes == s.boxes && s'.accepted == s.accepted && s'.handled == s.handled
    requires (Loaded(pc) <==> Loaded(s.senders[t])) && (Loaded(pc) ==> pc.payload == s.senders[t].payload)
    ensures LedgerOk(s', users)
  {
    AllReceivedFollow(users, s, s');
    forall u: nat, v: nat | u < |users|
      ensures Sent(s', users, u, v)
    {
      assert Sent(s, users, u, v);
      LoadKeepsPending(s.senders, t, pc, users, users[u], v);
      SentFollows(s, s', users, u, v);
    }
  }

  lemma LoadKeepsPending(senders: seq<Sender>, t: nat, pc: Sender, users: seq<string>, from: string, v: nat)
    requires t < |senders| && (Loaded(pc) <==> Loaded(senders[t])) && (Loaded(pc) ==> pc.payload == senders[t].payload)
    ensures Pending(senders[t := pc], users, from, v) == Pending(senders, users, from, v)
  {
    PendingMoves(senders, t, pc, users, from, v);
    assert Carried(pc, users, from, v) == Carried(senders[t], users, from, v);
    Cancel(Pending(senders[t := pc], users, from, v), Pending(senders, users, from, v),
           multiset(Carried(pc, users, from, v)));
  }

  lemma Cancel(a: multiset<string>, b: multiset<string>, x: multiset<string>)
    requires a + x == b + x
    ensures a == b
  {
    forall e
      ensures a[e] == b[e]
    {
      assert (a + x)[e] == (b + x)[e];
    }
  }

  /** The mail that a sender carries goes into the slot. */
  lemma AcceptKeepsLedger(users: seq<string>, s: State, t: nat)
    requires LedgerOk(s, users) && At(s, t).Inside? && s.slot.Free?
    ensures LedgerOk(Step(users, s, Inspect(t)), users)
  {
    var s' := Step(users, s, Inspect(t));
    AllReceivedFollow(users, s, s');
    forall u: nat, v: nat | u < |users|
      ensures Sent(s', users, u, v)
    {
      assert Sent(s, users, u, v);
      AcceptKeepsSent(users, s, t, u, v);
    }
  }

  lemma AcceptKeepsSent(users: seq<string>, s: State, t: nat, u: nat, v: nat)
    requires |s.boxes| == |users| && u < |users| && Sent(s, users, u, v) && At(s, t).Inside? && s.slot.Free?
    ensures Sent(Step(users, s, Inspect(t)), users, u, v)
  {
    var s', mail := Step(users, s, Inspect(t)), Unpack(At(s, t).payload);
    assert Pending(s'.senders, users, users[u], v) + multiset(One(mail, users, users[u], v))
        == Pending(s.senders, users, users[u], v) by {
      PendingMoves(s.senders, t, Signalling, users, users[u], v);
    }
    SentAccepts(s, s', users, u, v, mail);
  }

  lemma SentAccepts(s: State, s': State, users: seq<string>, u: nat, v: nat, mail: Mail)
    requires |s.boxes| == |users| && u < |users| && Sent(s, users, u, v)
    requires s'.boxes == s.boxes && s'.accepted == s.accepted + [mail]
    requires Pending(s'.senders, users, users[u], v) + multiset(One(mail, users, users[u], v))
          == Pending(s.senders, users, users[u], v)
    ensures Sent(s', users, u, v)
  {
    var log, one := Between(s.accepted, users, users[u], v), One(mail, users, users[u], v);
    BetweenAppend(s.accepted, mail, users, users[u], v);
    assert multiset(log + one) == multiset(log) + multiset(one);
    Regroup(multiset(log), Pending(s'.senders, users, users[u], v), multiset(one));
  }

  /** The mail in the slot goes into the recipient's box, if there is a recipient. */
  lemma HandleKeepsLedger(users: seq<string>, s: State, now: int)
    requires LedgerOk(s, users) && s.slot.Full? && s.consumer.Handling?
    ensures LedgerOk(Step(users, s, Handle(now)), users)
  {
    var s', mail := Step(users, s, Handle(now)), Unpack(s.slot.payload);
    var w, m := Lookup(users, mail.to), Message(In, true, now, mail.text);
    forall v: nat, name | v < |users|
      ensures Received(s', users, v, name)
    {
      assert Received(s, users, v, name);
      HandleKeepsReceived(users, s, now, v, name);
    }
    forall u: nat, v: nat | u < |users|
      ensures Sent(s', users, u, v)
    {
      assert Sent(s, users, u, v);
      HandleKeepsSent(users, s, now, u, v);
    }
    if w < |users| {
      StoreKeeps(s.boxes[w], mail.from, m);
    }
  }

  lemma ArrivalKeepsOut(box: Box, name: string, m: Message, users: seq<string>, v: nat)
    requires m.io == In
    ensures OutTo(Recorded(box, name, m).msgs, users, v) == OutTo(box.msgs, users, v)
  {
    RecordedOut(box, name, m, users, v);
    assert OutTo(box.msgs, users, v) + multiset{} == OutTo(box.msgs, users, v);
  }

  lemma HandleKeepsSent(users: seq<string>, s: State, now: int, u: nat, v: nat)
    requires |s.boxes| == |users| && u < |users| && Sent(s, users, u, v)
    requires s.slot.Full? && s.consumer.Handling?
    ensures Sent(Step(users, s, Handle(now)), users, u, v)
  {
    var s', mail := Step(users, s, Handle(now)), Unpack(s.slot.payload);
    var m := Message(In, true, now, mail.text);
    ArrivalKeepsOut(s.boxes[u], mail.from, m, users, v);
    HandledBox(users, s, now, u);
    SentFollows(s, s', users, u, v);
  }

  lemma HandledBox(users: seq<string>, s: State, now: int, u: nat)
    requires u < |s.boxes| && s.slot.Full? && s.consumer.Handling?
    ensures var s', mail := Step(users, s, Handle(now)), Unpack(s.slot.payload);
      && |s'.boxes| == |s.boxes| && s'.senders == s.senders && s'.accepted == s.accepted
      && s'.handled == s.handled + [mail]
      && s'.boxes[u] == if u == Lookup(users, mail.to)
                        then Recorded(s.boxes[u], mail.from, Message(In, true, now, mail.text)) else s.boxes[u]
  {
  }

  lemma HandleKeepsReceived(users: seq<string>, s: State, now: int, v: nat, name: string)
    requires |s.boxes| == |users| && v < |users| && Received(s, users, v, name)
    requires s.slot.Full? && s.consumer.Handling?
    ensures Received(Step(users, s, Handle(now)), users, v, name)
  {
    var s', mail := Step(users, s, Handle(now)), Unpack(s.slot.payload);
    var one := One(mail, users, name, v);
    BetweenAppend(s.handled, mail, users, name, v);
    HandledBox(users, s, now, v);
    if v == Lookup(users, mail.to) {
      RecordedIn(s.boxes[v], mail.from, Message(In, true, now, mail.text), name);
    } else {
      assert InFrom(s.boxes[v], name) + [] == InFrom(s.boxes[v], name);
    }
    ReceivedGrows(s, s', users, v, name, one);
  }

  lemma ReceivedGrows(s: State, s': State, users: seq<string>, v: nat, name: string, more: seq<string>)
    requires |s.boxes| == |s'.boxes| && v < |s.boxes| && Received(s, users, v, name)
    requires InFrom(s'.boxes[v], name) == InFrom(s.boxes[v], name) + more
    requires Between(s'.handled, users, name, v) == Between(s.handled, users, name, v) + more
    ensures Received(s', users, v, name)
  {
  }

  /** A box changes its unread counts at most. */
  ghost predicate SameTexts(box: Box, box': Box, users: seq<string>) {
    && (forall name :: InFrom(box', name) == InFrom(box, name))
    && (forall v: nat :: OutTo(box'.msgs, users, v) == OutTo(box.msgs, users, v))
  }

  lemma BoxKeepsLedger(users: seq<string>, s: State, s': State, u: nat, box: Box)
    requires LedgerOk(s, users) && u < |users| && s'.boxes == s.boxes[u := box]
    requires SameTexts(s.boxes[u], box, users) && Counted(box)
    requires s'.senders == s.senders && s'.accepted == s.accepted && s'.handled == s.handled
    ensures LedgerOk(s', users)
  {
    forall v: nat, name | v < |users|
      ensures Received(s', users, v, name)
    {
      assert Received(s, users, v, name);
      ReceivedFollows(s, s', users, v, name);
    }
    forall w: nat, v: nat | w < |users|
      ensures Sent(s', users, w, v)
    {
      assert Sent(s, users, w, v);
      SentFollows(s, s', users, w, v);
    }
  }

  lemma ShowKeepsLedger(users: seq<string>, s: State, r: nat)
    requires LedgerOk(s, users) && CanShow(s, r)
    ensures LedgerOk(Step(users, s, Show(r)), users)
  {
    var u := s.readers[r].user;
    var i := NodeOf(s.boxes[u].msgs, s.readers[r].contact);
    forall name
      ensures InFrom(Cleared(s.boxes[u], i), name) == InFrom(s.boxes[u], name)
    {
      ClearKeepsTexts(s.boxes[u], i, users, 0, name);
    }
    forall v: nat
      ensures OutTo(Cleared(s.boxes[u], i).msgs, users, v) == OutTo(s.boxes[u].msgs, users, v)
    {
      ClearKeepsTexts(s.boxes[u], i, users, v, "");
    }
    ClearKeeps(s.boxes[u], i);
    BoxKeepsLedger(users, s, Step(users, s, Show(r)), u, Cleared(s.boxes[u], i));
  }

  lemma SettleKeepsLedger(users: seq<string>, s: State, r: nat)
    requires LedgerOk(s, users) && CanSettle(s, r)
    ensures LedgerOk(Step(users, s, Settle(r)), users)
  {
    var Settling(u, noted) := s.readers[r];
    var box := s.boxes[u];
    BoxKeepsLedger(users, s, Step(users, s, Settle(r)), u, box.(numUnread := box.numUnread - noted));
  }

  lemma SameLedger(users: seq<string>, s: State, s': State)
    requires LedgerOk(s, users) && s'.senders == s.senders
    requires s'.boxes == s.boxes && s'.accepted == s.accepted && s'.handled == s.handled
    ensures LedgerOk(s', users)
  {
    forall v: nat, name | v < |users|
      ensures Received(s', users, v, name)
    {
      assert Received(s, users, v, name);
    }
    forall u: nat, v: nat | u < |users|
      ensures Sent(s', users, u, v)
    {
      assert Sent(s, users, u, v);
    }
  }

  lemma StepKeepsLedger(users: seq<string>, s: State, a: Action)
    requires LedgerOk(s, users) && Registered(users)
    ensures LedgerOk(Step(users, s, a), users)
  {
    var s' := Step(users, s, a);
    if a.Send? && CanSend(users, s, a) {
      SendKeepsLedger(users, s, a);
    } else if a.Inspect? && At(s, a.t).Inside? && s.slot.Free? {
      AcceptKeepsLedger(users, s, a.t);
    } else if a.Handle? && s.consumer.Handling? && s.slot.Full? {
      HandleKeepsLedger(users, s, a.time);
    } else if a.Show? && CanShow(s, a.r) {
      ShowKeepsLedger(users, s, a.r);
    } else if a.Settle? && CanSettle(s, a.r) {
      SettleKeepsLedger(users, s, a.r);
    } else if s'.senders == s.senders {
      SameLedger(users, s, s');
    } else {
      MoveKeepsLedger(users, s, s', a.t, At(s', a.t));
    }
  }

  // ------------------------------------------------------------------- whole runs

  lemma {:induction false} InitialPending(n: nat, users: seq<string>, from: string, v: nat)
    ensures Pending(seq(n, _ => Idle), users, from, v) == multiset{}
  {
    if n > 0 {
      InitialPending(n - 1, users, from, v);
      assert seq(n, _ => Idle)[1..] == seq(n - 1, _ => Idle);
    }
  }

  lemma InitialOk(users: seq<string>, n: nat)
    ensures SlotOk(Initial(users, n)) && LedgerOk(Initial(users, n), users)
  {
    var s := Initial(users, n);
    forall u: nat, v: nat | u < |users|
      ensures Sent(s, users, u, v)
    {
      InitialPending(n, users, users[u], v);
    }
  }

  lemma {:induction false} RunKeeps(users: seq<string>, n: nat, actions: seq<Action>)
    requires Registered(users)
    ensures SlotOk(Run(users, Initial(users, n), actions)) && LedgerOk(Run(users, Initial(users, n), actions), users)
  {
    if actions == [] {
      InitialOk(users, n);
    } else {
      var before, last := actions[..|actions| - 1], actions[|actions| - 1];
      RunKeeps(users, n, before);
      StepKeepsSlot(users, Run(users, Initial(users, n), before), last);
      StepKeepsLedger(users, Run(users, Initial(users, n), before), last);
    }
  }

  /** The message in the slot, if it goes from `from` to user `v`. */
  ghost function InSlot(s: State, users: seq<string>, from: string, v: nat): seq<string> {
    if s.slot.Full? then One(Unpack(s.slot.payload), users, from, v) else []
  }

  /** In every reachable state: at most one thread is in the critical section; a mail
      that was accepted is not overwritten before it is handled; and the exchange
      thread does not sleep through a full slot. */
  lemma SlotSafety(users: seq<string>, n: nat, actions: seq<Action>, t: nat, t': nat)
    requires Registered(users)
    ensures var s := Run(users, Initial(users, n), actions);
      && (HoldsLock(At(s, t)) && HoldsLock(At(s, t')) ==> t == t')
      && (HoldsLock(At(s, t)) ==> !s.consumer.Checking? && !s.consumer.Handling?)
      && s.accepted == s.handled + (if s.slot.Full? then [Unpack(s.slot.payload)] else [])
      && (s.consumer.Asleep? && s.slot.Full? ==> s.holder.Sending? && At(s, s.holder.t).Signalling?)
  {
    RunKeeps(users, n, actions);
    var s := Run(users, Initial(users, n), actions);
    assert HoldsLock(At(s, t)) <==> s.holder == Sending(t);
    assert HoldsLock(At(s, t')) <==> s.holder == Sending(t');
  }

  /** In every reachable state the box of user `v` holds, from each sender, exactly
      the handled mail that the directory resolves to `v`: each mail once, in the
      order in which it was accepted; the contacts are distinct and the messages are
      counted right. */
  lemma DeliveredOnceInOrder(users: seq<string>, n: nat, actions: seq<Action>, v: nat, name: string)
    requires Registered(users) && v < |users|
    ensures var s := Run(users, Initial(users, n), actions);
      |s.boxes| == |users| && InFrom(s.boxes[v], name) == Between(s.handled, users, name, v) && Counted(s.boxes[v])
  {
    RunKeeps(users, n, actions);
    assert Received(Run(users, Initial(users, n), actions), users, v, name);
  }

  /** In every reachable state, what `u` has sent to `v` is what `v` has received from
      `u`, the mail in the slot, and what threads of `u` are still trying to hand over. */
  lemma SentIsReceivedOrUnderWay(users: seq<string>, n: nat, actions: seq<Action>, u: nat, v: nat)
    requires Registered(users) && u < |users| && v < |users|
    ensures var s := Run(users, Initial(users, n), actions);
      |s.boxes| == |users|
      && OutTo(s.boxes[u].msgs, users, v) == multiset(InFrom(s.boxes[v], users[u]))
         + multiset(InSlot(s, users, users[u], v)) + Pending(s.senders, users, users[u], v)
  {
    var s := Run(users, Initial(users, n), actions);
    RunKeeps(users, n, actions);
    assert Sent(s, users, u, v) && Received(s, users, v, users[u]);
    AcceptedBetween(s, users, users[u], v);
  }

  lemma AcceptedBetween(s: State, users: seq<string>, from: string, v: nat)
    requires NothingLost(s)
    ensures multiset(Between(s.accepted, users, from, v))
         == multiset(Between(s.handled, users, from, v)) + multiset(InSlot(s, users, from, v))
  {
    var log, slot := Between(s.handled, users, from, v), InSlot(s, users, from, v);
    if s.slot.Full? {
      BetweenAppend(s.handled, Unpack(s.slot.payload), users, from, v);
    } else {
      assert s.handled + [] == s.handled && log + slot == log;
    }
    assert multiset(log + slot) == multiset(log) + multiset(slot);
  }

  /** Mail to a name that the directory does not resolve is dropped: nobody receives
      it, and the sender's box keeps it. */
  lemma UnknownIsDropped(users: seq<string>, n: nat, actions: seq<Action>, u: nat)
    requires Registered(users) && u < |users|
    ensures var s := Run(users, Initial(users, n), actions);
      |s.boxes| == |users|
      && OutTo(s.boxes[u].msgs, users, |users|) == multiset(Between(s.handled, users, users[u], |users|))
         + multiset(InSlot(s, users, users[u], |users|)) + Pending(s.senders, users, users[u], |users|)
  {
    var s := Run(users, Initial(users, n), actions);
    RunKeeps(users, n, actions);
    assert Sent(s, users, u, |users|);
    AcceptedBetween(s, users, users[u], |users|);
  }

  // --------------------------------------------------------------- no dead end

  /** The steps after which the lock is free, if sender `t` holds it. */
  ghost function Release(s: State): seq<Action> {
    if s.holder.Sending? then
      var t := s.holder.t;
      if At(s, t).Inside? then [Inspect(t), Leave(t)]
      else if At(s, t).Signalling? then [Signal(t), Leave(t)]
      else [Leave(t)]
    else []
  }

  /** The steps of the exchange thread that empty the slot. */
  ghost function Drain(s: State): seq<Action> {
    if s.consumer.Handling? then [Handle(0)] else if s.consumer.Checking? then [Check, Handle(0)]
    else [Acquire, Check, Handle(0)]
  }

  lemma {:induction false} RunAppend(users: seq<string>, s: State, a: seq<Action>, b: seq<Action>)
    ensures Run(users, s, a + b) == Run(users, Run(users, s, a), b)
  {
    if b == [] {
      assert a + b == a;
    } else {
      RunAppend(users, s, a, b[..|b| - 1]);
      assert (a + b)[..|a + b| - 1] == a + b[..|b| - 1];
    }
  }

  lemma RunOne(users: seq<string>, s: State, a: Action)
    ensures Run(users, s, [a]) == Step(users, s, a)
  {
    assert [a][..0] == [];
    assert Run(users, s, []) == s;
  }

  lemma RunTwo(users: seq<string>, s: State, a: Action, b: Action)
    ensures Run(users, s, [a, b]) == Step(users, Step(users, s, a), b)
  {
    RunAppend(users, s, [a], [b]);
    assert [a] + [b] == [a, b];
    RunOne(users, s, a);
    RunOne(users, Step(users, s, a), b);
  }

  lemma ReleaseFrees(users: seq<string>, s: State)
    requires SlotOk(s) && s.slot.Full?
    ensures var s' := Run(users, s, Release(s));
      && SlotOk(s') && !s'.holder.Sending? && !s'.consumer.Asleep?
      && s'.slot == s.slot && s'.accepted == s.accepted && s'.handled == s.handled
  {
    if s.holder.Sending? {
      var t := s.holder.t;
      assert HoldsLock(At(s, t));
      RunOne(users, s, Leave(t));
      RunTwo(users, s, Inspect(t), Leave(t));
      RunTwo(users, s, Signal(t), Leave(t));
      StepKeepsSlot(users, s, Inspect(t));
      StepKeepsSlot(users, s, Signal(t));
      StepKeepsSlot(users, s, Leave(t));
      StepKeepsSlot(users, Step(users, s, Inspect(t)), Leave(t));
      StepKeepsSlot(users, Step(users, s, Signal(t)), Leave(t));
    }
  }

  lemma CheckedHandles(users: seq<string>, s: State)
    requires s.slot.Full? && (s.consumer.Handling? || s.consumer.Checking?) && NothingLost(s)
    ensures var s' := Run(users, s, Drain(s));
      s'.slot.Free? && s'.accepted == s.accepted && s'.handled == s.accepted
  {
    RunOne(users, s, Handle(0));
    RunTwo(users, s, Check, Handle(0));
  }

  lemma DrainHandles(users: seq<string>, s: State)
    requires SlotOk(s) && s.slot.Full? && !s.holder.Sending? && !s.consumer.Asleep?
    ensures var s' := Run(users, s, Drain(s));
      s'.slot.Free? && s'.accepted == s.accepted && s'.handled == s.accepted
  {
    if s.consumer.Handling? || s.consumer.Checking? {
      CheckedHandles(users, s);
    } else {
      var s1 := Step(users, s, Acquire);
      RunAppend(users, s, [Acquire], Drain(s1));
      RunOne(users, s, Acquire);
      assert [Acquire] + Drain(s1) == Drain(s);
      CheckedHandles(users, s1);
    }
  }

  /** Both, one after the other. */
  ghost function Relieve(users: seq<string>, s: State): seq<Action> {
    Release(s) + Drain(Run(users, s, Release(s)))
  }

  lemma RelieveHandles(users: seq<string>, s: State)
    requires SlotOk(s) && s.slot.Full?
    ensures var s' := Run(users, s, Relieve(users, s));
      s'.slot.Free? && s'.accepted == s.accepted && s'.handled == s.accepted
  {
    var s1 := Run(users, s, Release(s));
    ReleaseFrees(users, s);
    DrainHandles(users, s1);
    RunAppend(users, s, Release(s), Drain(s1));
  }

  lemma RelieveIsShort(users: seq<string>, s: State)
    ensures |Relieve(users, s)| <= 5
    ensures forall a :: a in Relieve(users, s) ==> !a.Send? && !a.Retry? && !a.WakeUp?
  {
  }

  /** There is no dead end: from every reachable state with a full slot five more
      steps or fewer, none of them a new message, a retry or a spurious wake-up,
      hand the mail over and empty the slot. */
  lemma FullSlotCanBeHandled(users: seq<string>, n: nat, actions: seq<Action>) returns (more: seq<Action>)
    requires Registered(users) && Run(users, Initial(users, n), actions).slot.Full?
    ensures |more| <= 5 && forall a :: a in more ==> !a.Send? && !a.Retry? && !a.WakeUp?
    ensures var s, s' := Run(users, Initial(users, n), actions), Run(users, Initial(users, n), actions + more);
      s'.slot.Free? && s'.handled == s'.accepted == s.accepted
  {
    var s := Run(users, Initial(users, n), actions);
    more := Relieve(users, s);
    RunKeeps(users, n, actions);
    RelieveIsShort(users, s);
    RelieveHandles(users, s);
    RunAppend(users, Initial(users, n), actions, more);
  }
}
