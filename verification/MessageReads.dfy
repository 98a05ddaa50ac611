/** Reads in three steps, among all other steps: what becomes of the unread counts. */
module MessageReads {
  import opened MessageBox
  import opened MessageExchange

  ghost function Unread(box: Box, name: string): nat {
    var i := NodeOf(box.msgs, name);
    if i < |box.msgs| then box.msgs[i].numUnread else 0
  }

  predicate Known(box: Box, name: string) {
    NodeOf(box.msgs, name) < |box.msgs|
  }

  lemma RecordedUnread(box: Box, name: string, m: Message, other: string)
    ensures Known(box, other) ==> Known(Recorded(box, name, m), other)
    ensures Unread(Recorded(box, name, m), other) == Unread(box, other) + if other == name then Arrival(m) else 0
  {
    var box' := Recorded(box, name, m);
    if Known(box, name) {
      NodeUnmoved(box.msgs, box'.msgs, other);
    } else {
      assert box'.msgs[1..] == box.msgs;
    }
  }

  lemma ClearedUnread(box: Box, i: nat, other: string)
    requires i < |box.msgs| && i == NodeOf(box.msgs, box.msgs[i].name)
    ensures Known(Cleared(box, i), other) <==> Known(box, other)
    ensures Unread(Cleared(box, i), other) == if other == box.msgs[i].name then 0 else Unread(box, other)
  {
    NodeUnmoved(box.msgs, Cleared(box, i).msgs, other);
  }

  /** What a reader remembers accounts for the contact's unread count. */
  ghost predicate ReaderOk(boxes: seq<Box>, pc: Reader) {
    match pc
    case Resting => true
    case Noting(u, name, noted, arrived, cleared) =>
      u < |boxes| && Known(boxes[u], name) && Unread(boxes[u], name) == noted + arrived - cleared
    case Settling(u, _) => u < |boxes|
  }

  /** What readers have yet to take off the count of user `u`. */
  ghost function Owed(readers: seq<Reader>, u: nat): int {
    if readers == [] then 0
    else Owed(readers[1..], u) + if readers[0].Settling? && readers[0].user == u then readers[0].noted else 0
  }

  ghost function OwedBy(pc: Reader, u: nat): int {
    if pc.Settling? && pc.user == u then pc.noted else 0
  }

  lemma {:induction false} OwedUpdate(readers: seq<Reader>, r: nat, pc: Reader, u: nat)
    requires r < |readers|
    ensures Owed(readers[r := pc], u) == Owed(readers, u) - OwedBy(readers[r], u) + OwedBy(pc, u)
  {
    if r == 0 {
      assert readers[r := pc][1..] == readers[1..];
    } else {
      OwedUpdate(readers[1..], r - 1, pc, u);
      assert readers[r := pc][1..] == readers[1..][r - 1 := pc];
    }
  }

  lemma {:induction false} OwedSame(readers: seq<Reader>, readers': seq<Reader>, u: nat)
    requires |readers| == |readers'|
    requires forall r :: 0 <= r < |readers| ==> OwedBy(readers'[r], u) == OwedBy(readers[r], u)
    ensures Owed(readers', u) == Owed(readers, u)
  {
    if readers != [] {
      OwedSame(readers[1..], readers'[1..], u);
    }
  }

  ghost predicate DriftOk(s: State, u: nat)
    requires u < |s.boxes| == |s.missed|
  {
    Counted(s.boxes[u]) && Drift(s.boxes[u]) == Owed(s.readers, u) + s.missed[u]
  }

  ghost predicate ReadsOk(s: State) {
    && |s.missed| == |s.boxes|
    && (forall r :: 0 <= r < |s.readers| ==> ReaderOk(s.boxes, s.readers[r]))
    && (forall u: nat :: u < |s.boxes| ==> DriftOk(s, u))
  }

  /** A message is stored; the readers of its contact remember it if it came in. */
  lemma StoreKeepsReads(s: State, s': State, u: nat, name: string, m: Message)
    requires ReadsOk(s) && s'.boxes == Note(s.boxes, u, name, m) && s'.missed == s.missed
    requires s'.readers == if m.io == In then Arrive(s.readers, u, name) else s.readers
    ensures ReadsOk(s')
  {
    forall r | 0 <= r < |s'.readers|
      ensures ReaderOk(s'.boxes, s'.readers[r])
    {
      var pc := s.readers[r];
      if pc.Noting? && pc.user == u {
        RecordedUnread(s.boxes[u], name, m, pc.contact);
      }
    }
    forall v: nat | v < |s'.boxes|
      ensures DriftOk(s', v)
    {
      assert DriftOk(s, v);
      OwedSame(s.readers, s'.readers, v);
      StoreKeeps(s.boxes[v], name, m);
    }
  }

  lemma NoteKeepsReads(users: seq<string>, s: State, a: Action)
    requires ReadsOk(s) && a.NoteUnread? && CanNote(s, a)
    ensures ReadsOk(Step(users, s, a))
  {
    var s' := Step(users, s, a);
    forall v: nat | v < |s'.boxes|
      ensures DriftOk(s', v)
    {
      assert DriftOk(s, v);
      OwedUpdate(s.readers, a.r, s'.readers[a.r], v);
    }
  }

  lemma ShowKeepsReader(users: seq<string>, s: State, r: nat, q: nat)
    requires CanShow(s, r) && q < |s.readers| && ReaderOk(s.boxes, s.readers[q]) && ReaderOk(s.boxes, s.readers[r])
    ensures var s' := Step(users, s, Show(r)); q < |s'.readers| && ReaderOk(s'.boxes, s'.readers[q])
  {
    var u, pc := s.readers[r].user, s.readers[q];
    if pc.Noting? && pc.user == u {
      ClearedUnread(s.boxes[u], NodeOf(s.boxes[u].msgs, s.readers[r].contact), pc.contact);
    }
  }

  lemma ShowKeepsDrift(users: seq<string>, s: State, r: nat, v: nat)
    requires CanShow(s, r) && v < |s.boxes| && DriftOk(s, v) && ReaderOk(s.boxes, s.readers[r])
    ensures DriftOk(Step(users, s, Show(r)), v)
  {
    var Noting(u, contact, noted, arrived, cleared) := s.readers[r];
    var i := NodeOf(s.boxes[u].msgs, contact);
    var readers := ClearFor(s.readers, u, contact, s.boxes[u].msgs[i].numUnread);
    OwedSame(s.readers, readers, v);
    OwedUpdate(readers, r, Settling(u, noted), v);
    if v == u {
      ClearKeeps(s.boxes[u], i);
    }
  }

  lemma ShowKeepsReads(users: seq<string>, s: State, r: nat)
    requires ReadsOk(s) && CanShow(s, r)
    ensures ReadsOk(Step(users, s, Show(r)))
  {
    var s' := Step(users, s, Show(r));
    forall q | 0 <= q < |s'.readers|
      ensures ReaderOk(s'.boxes, s'.readers[q])
    {
      ShowKeepsReader(users, s, r, q);
    }
    forall v: nat | v < |s'.boxes|
      ensures DriftOk(s', v)
    {
      assert DriftOk(s, v);
      ShowKeepsDrift(users, s, r, v);
    }
  }

  lemma SettleKeepsReads(users: seq<string>, s: State, r: nat)
    requires ReadsOk(s) && CanSettle(s, r)
    ensures ReadsOk(Step(users, s, Settle(r)))
  {
    var s' := Step(users, s, Settle(r));
    forall q | 0 <= q < |s'.readers|
      ensures ReaderOk(s'.boxes, s'.readers[q])
    {
      assert ReaderOk(s.boxes, s.readers[q]);
    }
    forall v: nat | v < |s'.boxes|
      ensures DriftOk(s', v)
    {
      assert DriftOk(s, v);
      OwedUpdate(s.readers, r, Resting, v);
    }
  }

  lemma SameReads(s: State, s': State)
    requires ReadsOk(s) && s'.boxes == s.boxes && s'.readers == s.readers && s'.missed == s.missed
    ensures ReadsOk(s')
  {
    forall v: nat | v < |s'.boxes|
      ensures DriftOk(s', v)
    {
      assert DriftOk(s, v);
    }
  }

  lemma StepKeepsReads(users: seq<string>, s: State, a: Action)
    requires ReadsOk(s)
    ensures ReadsOk(Step(users, s, a))
  {
    var s' := Step(users, s, a);
    if a.Send? && CanSend(users, s, a) {
      StoreKeepsReads(s, s', a.host, a.frdName, Message(Out, false, a.now, Clip(a.msg)));
    } else if a.Handle? && s.consumer.Handling? && s.slot.Full? {
      var mail := Unpack(s.slot.payload);
      StoreKeepsReads(s, s', Lookup(users, mail.to), mail.from, Message(In, true, a.time, mail.text));
    } else if a.NoteUnread? && CanNote(s, a) {
      NoteKeepsReads(users, s, a);
    } else if a.Show? && CanShow(s, a.r) {
      ShowKeepsReads(users, s, a.r);
    } else if a.Settle? && CanSettle(s, a.r) {
      SettleKeepsReads(users, s, a.r);
    } else {
      SameReads(s, s');
    }
  }

  lemma {:induction false} NothingOwed(n: nat, u: nat)
    ensures Owed(seq(n, _ => Resting), u) == 0
  {
    if n > 0 {
      NothingOwed(n - 1, u);
      assert seq(n, _ => Resting)[1..] == seq(n - 1, _ => Resting);
    }
  }

  lemma {:induction false} RunKeepsReads(users: seq<string>, n: nat, actions: seq<Action>)
    ensures ReadsOk(Run(users, Initial(users, n), actions)) && |Run(users, Initial(users, n), actions).boxes| == |users|
  {
    if actions == [] {
      StartsReadsOk(users, n);
    } else {
      var before, last := actions[..|actions| - 1], actions[|actions| - 1];
      var s := Run(users, Initial(users, n), before);
      RunKeepsReads(users, n, before);
      StepKeepsReads(users, s, last);
      StepKeepsSizes(users, s, last);
    }
  }

  lemma StartsReadsOk(users: seq<string>, n: nat)
    ensures ReadsOk(Initial(users, n)) && |Initial(users, n).boxes| == |users|
  {
    var s := Initial(users, n);
    forall u: nat | u < |s.boxes|
      ensures DriftOk(s, u)
    {
      NothingOwed(n, u);
    }
  }

  /** In every reachable state the unread count of a box exceeds the sum over its
      contacts by what readers have yet to take off, and by what came in from their
      contacts between noting and showing less what other readers cleared there. So
      while no reader has something to take off, the counters are right if and only
      if these arrivals and clearings even out. */
  lemma DriftOverRuns(users: seq<string>, n: nat, actions: seq<Action>, u: nat)
    requires u < |users|
    ensures var s := Run(users, Initial(users, n), actions);
      && |s.boxes| == |s.missed| == |users|
      && Drift(s.boxes[u]) == Owed(s.readers, u) + s.missed[u]
      && (Owed(s.readers, u) == 0 ==> (InOrder(s.boxes[u]) <==> s.missed[u] == 0))
  {
    RunKeepsReads(users, n, actions);
    assert DriftOk(Run(users, Initial(users, n), actions), u);
  }

  /** The three steps without anything in between are the read of the box. */
  lemma UninterruptedRead(users: seq<string>, s: State, r: nat, u: nat, contact: string)
    requires r < |s.readers| && s.readers[r].Resting? && u < |s.boxes| == |s.missed| && Readable(s.boxes[u], contact)
    ensures var s' := Step(users, Step(users, Step(users, s, NoteUnread(r, u, contact)), Show(r)), Settle(r));
      s'.boxes == s.boxes[u := Apply(s.boxes[u], Read(contact))] && s'.missed == s.missed
  {
    var s1 := Step(users, s, NoteUnread(r, u, contact));
    assert ReaderAt(s1, r) == Noting(u, contact, Unread(s.boxes[u], contact), 0, 0);
    var s2 := Step(users, s1, Show(r));
    assert ReaderAt(s2, r) == Settling(u, Unread(s.boxes[u], contact));
    assert s2.missed == s.missed;
  }
}
