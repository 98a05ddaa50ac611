/** A user's message box: a list of contacts, each with its messages, and two pairs
    of counters that are kept by hand. */
module MessageBox {

  datatype Direction = In | Out

  datatype Message = Message(io: Direction, unread: bool, stamp: int, text: string)

  /** A `msgList` node; the newest message comes first. */
  datatype Contact = Contact(name: string, contexts: seq<Message>, numMsg: nat, numUnread: nat)

  /** A `MSG_BOX`; the newest contact comes first. */
  datatype Box = Box(msgs: seq<Contact>, numMsg: nat, numUnread: int)

  const EMPTY: Box := Box([], 0, 0)

  const MAX_NAME_LENGTH: nat := 10
  const MAX_MSG_LENGTH: nat := 30

  /** A message longer than its field loses its end. */
  function Clip(text: string): (clipped: string)
    ensures clipped <= text && |clipped| == if |text| < 30 then |text| else 30
  {
    if |text| <= MAX_MSG_LENGTH then text else text[..MAX_MSG_LENGTH]
  }

  // ------------------------------------------------------------ what is stored

  /** The place of a contact in the list, or the list's length. */
  function NodeOf(msgs: seq<Contact>, name: string): (i: nat)
    ensures i <= |msgs|
    ensures i < |msgs| ==> msgs[i].name == name
    ensures forall j :: 0 <= j < i ==> msgs[j].name != name
  {
    if msgs == [] || msgs[0].name == name then 0 else 1 + NodeOf(msgs[1..], name)
  }

  function Arrival(m: Message): nat {
    if m.io == In then 1 else 0
  }

  function Noted(c: Contact, m: Message): Contact {
    Contact(c.name, [m] + c.contexts, c.numMsg + 1, c.numUnread + Arrival(m))
  }

  function Recorded(box: Box, name: string, m: Message): Box {
    var i := NodeOf(box.msgs, name);
    var msgs := if i < |box.msgs| then box.msgs[i := Noted(box.msgs[i], m)]
                else [Noted(Contact(name, [], 0, 0), m)] + box.msgs;
    Box(msgs, box.numMsg + 1, box.numUnread + Arrival(m))
  }

  /** A message that is recorded becomes the newest one of its contact, which is new if
      need be; it counts as unread if it came in. */
  lemma RecordedFirst(box: Box, name: string, m: Message)
    ensures var i, box' := NodeOf(box.msgs, name), Recorded(box, name, m);
      var i' := NodeOf(box'.msgs, name);
      && i' < |box'.msgs| && box'.numMsg == box.numMsg + 1
      && box'.numUnread == box.numUnread + (if m.io == In then 1 else 0)
      && var before := if i < |box.msgs| then box.msgs[i] else Contact(name, [], 0, 0);
         box'.msgs[i'] == Contact(name, [m] + before.contexts, before.numMsg + 1,
                                  before.numUnread + if m.io == In then 1 else 0)
  {
    var i := NodeOf(box.msgs, name);
    if i < |box.msgs| {
      NodeUnmoved(box.msgs, box.msgs[i := Noted(box.msgs[i], m)], name);
    }
  }

  /** The contact at `i` counts as read; the box does not know yet. */
  function Cleared(box: Box, i: nat): Box
    requires i < |box.msgs|
  {
    box.(msgs := box.msgs[i := box.msgs[i].(numUnread := 0)])
  }

  function ReadAt(box: Box, i: nat): Box
    requires i < |box.msgs|
  {
    Cleared(box, i).(numUnread := box.numUnread - box.msgs[i].numUnread)
  }

  // ---------------------------------------------------------------- the totals

  ghost function SumMsg(msgs: seq<Contact>): nat {
    if msgs == [] then 0 else msgs[0].numMsg + SumMsg(msgs[1..])
  }

  ghost function SumUnread(msgs: seq<Contact>): nat {
    if msgs == [] then 0 else msgs[0].numUnread + SumUnread(msgs[1..])
  }

  ghost function SumStored(msgs: seq<Contact>): nat {
    if msgs == [] then 0 else |msgs[0].contexts| + SumStored(msgs[1..])
  }

  lemma {:induction false} SumsUpdate(msgs: seq<Contact>, i: nat, c: Contact)
    requires i < |msgs|
    ensures SumMsg(msgs[i := c]) == SumMsg(msgs) - msgs[i].numMsg + c.numMsg
    ensures SumUnread(msgs[i := c]) == SumUnread(msgs) - msgs[i].numUnread + c.numUnread
    ensures SumStored(msgs[i := c]) == SumStored(msgs) - |msgs[i].contexts| + |c.contexts|
  {
    if i == 0 {
      assert msgs[i := c][1..] == msgs[1..];
    } else {
      SumsUpdate(msgs[1..], i - 1, c);
      assert msgs[i := c][1..] == msgs[1..][i - 1 := c];
    }
  }

  lemma SumsPrepend(msgs: seq<Contact>, c: Contact)
    ensures SumMsg([c] + msgs) == c.numMsg + SumMsg(msgs)
    ensures SumUnread([c] + msgs) == c.numUnread + SumUnread(msgs)
    ensures SumStored([c] + msgs) == |c.contexts| + SumStored(msgs)
  {
    assert ([c] + msgs)[1..] == msgs;
  }

  /** How far the box's unread count is from the sum of its contacts'. */
  ghost function Drift(box: Box): int {
    box.numUnread - SumUnread(box.msgs)
  }

  lemma RecordedSums(box: Box, name: string, m: Message)
    ensures var box' := Recorded(box, name, m);
      && SumMsg(box'.msgs) == SumMsg(box.msgs) + 1 && SumStored(box'.msgs) == SumStored(box.msgs) + 1
      && Drift(box') == Drift(box)
  {
    var i := NodeOf(box.msgs, name);
    if i < |box.msgs| {
      SumsUpdate(box.msgs, i, Noted(box.msgs[i], m));
    } else {
      SumsPrepend(box.msgs, Noted(Contact(name, [], 0, 0), m));
    }
  }

  // ---------------------------------------------------------------- whole runs

  datatype Event = Store(name: string, m: Message) | Read(name: string)

  /** A read completes for a contact that is in the box and has at most four
      messages; see `MsgBox.ReadContact`. */
  predicate Readable(box: Box, name: string) {
    var i := NodeOf(box.msgs, name);
    i < |box.msgs| && |box.msgs[i].contexts| <= 4
  }

  function Apply(box: Box, e: Event): Box {
    match e
    case Store(name, m) => Recorded(box, name, m)
    case Read(name) => if Readable(box, name) then ReadAt(box, NodeOf(box.msgs, name)) else box
  }

  /** The box after a whole run; the last event is the latest. */
  function After(events: seq<Event>): Box {
    if events == [] then EMPTY else Apply(After(events[..|events| - 1]), events[|events| - 1])
  }

  predicate Completes(events: seq<Event>) {
    events != [] ==>
      var before := events[..|events| - 1];
      Completes(before) && (events[|events| - 1].Read? ==> Readable(After(before), events[|events| - 1].name))
  }

  /** What was stored for a contact, the newest first. */
  function StoredFor(events: seq<Event>, name: string): seq<Message> {
    if events == [] then [] else
      var last, before := events[|events| - 1], StoredFor(events[..|events| - 1], name);
      if last.Store? && last.name == name then [last.m] + before else before
  }

  /** How many messages came in from a contact since it was last read. */
  function UnreadFor(events: seq<Event>, name: string): nat {
    if events == [] then 0 else
      var last, before := events[|events| - 1], UnreadFor(events[..|events| - 1], name);
      if last.name != name then before else if last.Store? then before + Arrival(last.m) else 0
  }

  function Stores(events: seq<Event>): nat {
    if events == [] then 0 else Stores(events[..|events| - 1]) + if events[|events| - 1].Store? then 1 else 0
  }

  ghost predicate Distinct(msgs: seq<Contact>) {
    forall i, j :: 0 <= i < j < |msgs| ==> msgs[i].name != msgs[j].name
  }

  /** Contact `name` of the box is what the run says it is. */
  ghost predicate Represents(box: Box, events: seq<Event>, name: string) {
    var i, stored := NodeOf(box.msgs, name), StoredFor(events, name);
    && (i < |box.msgs| <==> stored != [])
    && (i < |box.msgs| ==> box.msgs[i] == Contact(name, stored, |stored|, UnreadFor(events, name)))
    && (stored == [] ==> UnreadFor(events, name) == 0)
  }

  /** The contacts are distinct and the messages are counted right. */
  ghost predicate Counted(box: Box) {
    Distinct(box.msgs) && box.numMsg == SumMsg(box.msgs) == SumStored(box.msgs)
  }

  ghost predicate InOrder(box: Box) {
    Counted(box) && Drift(box) == 0
  }

  lemma RecordedDistinct(box: Box, name: string, m: Message)
    requires Distinct(box.msgs)
    ensures Distinct(Recorded(box, name, m).msgs)
  {
  }

  /** Every event keeps the contacts distinct and the counters equal to the sums. */
  lemma ApplyKeeps(box: Box, e: Event)
    requires InOrder(box)
    ensures InOrder(Apply(box, e))
  {
    match e
    case Store(name, m) => StoreKeeps(box, name, m);
    case Read(name) =>
      if Readable(box, name) {
        ClearKeeps(box, NodeOf(box.msgs, name));
      }
  }

  lemma StoreKeeps(box: Box, name: string, m: Message)
    requires Counted(box)
    ensures Counted(Recorded(box, name, m)) && Drift(Recorded(box, name, m)) == Drift(box)
  {
    RecordedSums(box, name, m);
    RecordedDistinct(box, name, m);
  }

  lemma ClearKeeps(box: Box, i: nat)
    requires Counted(box) && i < |box.msgs|
    ensures Counted(Cleared(box, i)) && Drift(Cleared(box, i)) == Drift(box) + box.msgs[i].numUnread
  {
    SumsUpdate(box.msgs, i, box.msgs[i].(numUnread := 0));
  }

  lemma StoreRepresents(box: Box, events: seq<Event>, name: string, m: Message, other: string)
    requires Represents(box, events, other)
    ensures Represents(Recorded(box, name, m), events + [Store(name, m)], other)
  {
    var events', box' := events + [Store(name, m)], Recorded(box, name, m);
    assert events'[..|events|] == events;
    var i, j := NodeOf(box.msgs, other), NodeOf(box.msgs, name);
    if j < |box.msgs| {
      NodeUnmoved(box.msgs, box'.msgs, other);
    } else {
      assert box'.msgs[1..] == box.msgs;
    }
  }

  lemma {:induction false} NodeUnmoved(msgs: seq<Contact>, msgs': seq<Contact>, name: string)
    requires |msgs| == |msgs'| && forall i :: 0 <= i < |msgs| ==> msgs[i].name == msgs'[i].name
    ensures NodeOf(msgs', name) == NodeOf(msgs, name)
  {
    if msgs != [] {
      NodeUnmoved(msgs[1..], msgs'[1..], name);
    }
  }

  lemma ReadRepresents(box: Box, events: seq<Event>, name: string, other: string)
    requires Represents(box, events, other) && Readable(box, name)
    ensures Represents(ReadAt(box, NodeOf(box.msgs, name)), events + [Read(name)], other)
  {
    var events', box' := events + [Read(name)], ReadAt(box, NodeOf(box.msgs, name));
    assert events'[..|events|] == events;
    NodeUnmoved(box.msgs, box'.msgs, other);
  }

  /** After any run of sends, receipts and completed reads the contacts are distinct
      and both counters of the box are the sums over its contacts. */
  lemma {:induction false} BoxInOrder(events: seq<Event>)
    requires Completes(events)
    ensures InOrder(After(events)) && After(events).numMsg == Stores(events)
  {
    if events != [] {
      var before, last := events[..|events| - 1], events[|events| - 1];
      BoxInOrder(before);
      ApplyKeeps(After(before), last);
    }
  }

  /** For every contact the box holds exactly the messages of the run, the newest
      first, with exactly those unread that came in since the last read. */
  lemma {:induction false} BoxMeaning(events: seq<Event>, name: string)
    requires Completes(events)
    ensures Represents(After(events), events, name)
  {
    if events != [] {
      var before, last := events[..|events| - 1], events[|events| - 1];
      BoxMeaning(before, name);
      EventRepresents(After(before), before, last, name);
      assert before + [last] == events;
    }
  }

  lemma EventRepresents(box: Box, events: seq<Event>, e: Event, name: string)
    requires Represents(box, events, name) && (e.Read? ==> Readable(box, e.name))
    ensures Represents(Apply(box, e), events + [e], name)
  {
    match e
    case Store(n, m) => StoreRepresents(box, events, n, m, name);
    case Read(n) => ReadRepresents(box, events, n, name);
  }

  /** A run that stores one message after the other for one contact. */
  function StoresOf(name: string, ms: seq<Message>): seq<Event> {
    if ms == [] then [] else StoresOf(name, ms[..|ms| - 1]) + [Store(name, ms[|ms| - 1])]
  }

  lemma {:induction false} StoresOfComplete(name: string, ms: seq<Message>)
    ensures Completes(StoresOf(name, ms)) && |StoredFor(StoresOf(name, ms), name)| == |ms|
  {
    if ms != [] {
      StoresOfComplete(name, ms[..|ms| - 1]);
      var events := StoresOf(name, ms);
      assert events[..|events| - 1] == StoresOf(name, ms[..|ms| - 1]);
    }
  }

  /** Any five messages or more make their contact unreadable. */
  lemma FiveMessagesUnreadable(name: string, ms: seq<Message>)
    requires |ms| >= 5
    ensures Completes(StoresOf(name, ms)) && !Readable(After(StoresOf(name, ms)), name)
  {
    StoresOfComplete(name, ms);
    BoxMeaning(StoresOf(name, ms), name);
  }

  /** After any completed run, exactly the contacts with one to four messages can be
      read. */
  lemma ReadableIff(events: seq<Event>, name: string)
    requires Completes(events)
    ensures Readable(After(events), name) <==> 1 <= |StoredFor(events, name)| <= 4
  {
    BoxMeaning(events, name);
  }

  lemma {:induction false} StoresOfListed(name: string, ms: seq<Message>, i: nat)
    requires i < |ms|
    ensures |StoredFor(StoresOf(name, ms), name)| == |ms|
    ensures StoredFor(StoresOf(name, ms), name)[i] == ms[|ms| - 1 - i]
  {
    var before, events := ms[..|ms| - 1], StoresOf(name, ms);
    StoresOfComplete(name, ms);
    assert events[..|events| - 1] == StoresOf(name, before);
    if i > 0 {
      StoresOfListed(name, before, i - 1);
    }
  }

  /** One to four messages that are stored for a contact can be read: these and no
      others are shown, the newest first, and all are read then. */
  lemma FewMessagesReadable(name: string, ms: seq<Message>)
    requires 1 <= |ms| <= 4
    ensures var box := After(StoresOf(name, ms));
      && Readable(box, name)
      && var shown := box.msgs[NodeOf(box.msgs, name)].contexts;
         && |shown| == |ms| && (forall i :: 0 <= i < |ms| ==> shown[i] == ms[|ms| - 1 - i])
         && Apply(box, Read(name)).numUnread == 0
  {
    var events := StoresOf(name, ms);
    StoresOfComplete(name, ms);
    BoxMeaning(events, name);
    forall i | 0 <= i < |ms|
      ensures StoredFor(events, name)[i] == ms[|ms| - 1 - i]
    {
      StoresOfListed(name, ms, i);
    }
    OneContact(name, ms);
    BoxInOrder(events);
  }

  lemma {:induction false} OneContact(name: string, ms: seq<Message>)
    ensures var msgs := After(StoresOf(name, ms)).msgs;
      if ms == [] then msgs == [] else |msgs| == 1 && msgs[0].name == name
  {
    if ms != [] {
      OneContact(name, ms[..|ms| - 1]);
      var events := StoresOf(name, ms);
      assert events[..|events| - 1] == StoresOf(name, ms[..|ms| - 1]);
    }
  }

  // -------------------------------------------------- a read that is interrupted

  /** The box after storing `between` one after the other. */
  function StoreAll(box: Box, between: seq<Event>): Box {
    if between == [] then box
    else Apply(StoreAll(box, between[..|between| - 1]), between[|between| - 1])
  }

  ghost predicate OnlyStores(events: seq<Event>) {
    forall i :: 0 <= i < |events| ==> events[i].Store?
  }

  lemma {:induction false} StoringKeeps(box: Box, between: seq<Event>, i: nat)
    requires OnlyStores(between) && Distinct(box.msgs) && i < |box.msgs|
    ensures var box', name := StoreAll(box, between), box.msgs[i].name;
      && Distinct(box'.msgs) && Drift(box') == Drift(box)
      && NodeOf(box'.msgs, name) < |box'.msgs|
      && box'.msgs[NodeOf(box'.msgs, name)].numUnread == box.msgs[i].numUnread + UnreadFor(between, name)
  {
    var name := box.msgs[i].name;
    if between == [] {
      assert NodeOf(box.msgs, name) == i;
    } else {
      var before, last := between[..|between| - 1], between[|between| - 1];
      StoringKeeps(box, before, i);
      var b, n := StoreAll(box, before), last.name;
      assert between[|before|].Store?;
      RecordedSums(b, n, last.m);
      RecordedDistinct(b, n, last.m);
      var b', k := Recorded(b, n, last.m), NodeOf(b.msgs, name);
      if NodeOf(b.msgs, n) < |b.msgs| {
        NodeUnmoved(b.msgs, b'.msgs, name);
      } else {
        assert b'.msgs[1..] == b.msgs;
      }
    }
  }

  /** A read notes the unread count of the contact, clears it, and later takes the
      noted number off the box's count. If messages are stored between the first two
      steps, the box's count ends up too large by exactly the messages that came in
      from this contact meanwhile: the counters stay right if and only if there was
      none. What is stored before the last step does no harm. */
  lemma UnreadDrift(box: Box, i: nat, between: seq<Event>, later: seq<Event>)
    requires InOrder(box) && i < |box.msgs| && OnlyStores(between) && OnlyStores(later)
    ensures var noted, name := box.msgs[i].numUnread, box.msgs[i].name;
      var box1 := StoreAll(box, between);
      var k := NodeOf(box1.msgs, name);
      k < |box1.msgs| &&
      var box3 := StoreAll(Cleared(box1, k), later);
      Drift(box3.(numUnread := box3.numUnread - noted)) == UnreadFor(between, name)
  {
    var name := box.msgs[i].name;
    StoringKeeps(box, between, i);
    var box1 := StoreAll(box, between);
    var k := NodeOf(box1.msgs, name);
    SumsUpdate(box1.msgs, k, box1.msgs[k].(numUnread := 0));
    StoringKeeps(Cleared(box1, k), later, k);
  }

  /** One message that comes in after the unread count was noted is enough: nothing is
      unread any more, and the box says one. */
  lemma OneArrivalDrifts(name: string, m: Message, m': Message)
    requires m.io == In && m'.io == In
    ensures var box := Recorded(EMPTY, name, m);
      var box' := Recorded(box, name, m');
      && |box.msgs| == 1 && NodeOf(box'.msgs, name) < |box'.msgs| == 1
      && var read := Cleared(box', 0).(numUnread := box'.numUnread - box.msgs[0].numUnread);
         read.numUnread == 1 && SumUnread(read.msgs) == 0 && Drift(read) == 1
  {
    var box := Recorded(EMPTY, name, m);
    assert NodeOf(box.msgs, name) == 0;
    assert Recorded(box, name, m').msgs == [Noted(box.msgs[0], m')];
  }

  // ------------------------------------------------------------------ the code

  /** What a read returns: the lines shown, or the end of the program because a null
      pointer was followed. */
  datatype Shown = Lines(messages: seq<Message>) | NullFollowed

  class MsgBox {
    var msgs: seq<Contact>
    var numMsg: nat
    var numUnread: int

    ghost function Value(): Box
      reads this
    {
      Box(msgs, numMsg, numUnread)
    }

    constructor ()
      ensures Value() == EMPTY
    {
      msgs, numMsg, numUnread := [], 0, 0;
    }

    /** `getMsgNode` */
    method GetMsgNode(frdName: string) returns (current: nat)
      ensures current == NodeOf(msgs, frdName)
    {
      current := 0;
      while current < |msgs| && msgs[current].name != frdName
        invariant current <= |msgs|
        invariant forall j :: 0 <= j < current ==> msgs[j].name != frdName
      {
        current := current + 1;
      }
    }

    /** What `sendReceiveMsg` does to the box of its host. A new contact whose name
        does not fit, NUL included, spoils what lies behind; the model ends there. */
    method SendReceive(frdName: string, text: string, direction: Direction, now: int) returns (overrun: bool)
      modifies this
      ensures overrun <==> |frdName| >= MAX_NAME_LENGTH && NodeOf(old(msgs), frdName) == |old(msgs)|
      ensures overrun ==> Value() == old(Value())
      ensures !overrun ==>
        Value() == Recorded(old(Value()), frdName, Message(direction, direction == In, now, Clip(text)))
      ensures !overrun ==> numMsg == old(numMsg) + 1 && numUnread == old(numUnread) + if direction == In then 1 else 0
    {
      overrun := false;
      var newContext := Message(direction, direction == In, now, Clip(text));
      var msgNode := GetMsgNode(frdName);
      if msgNode == |msgs| {
        if |frdName| >= MAX_NAME_LENGTH {
          return true;
        }
        msgs := [Contact(frdName, [], 0, 0)] + msgs;
        msgNode := 0;
      }
      var c := msgs[msgNode];
      c := c.(contexts := [newContext] + c.contexts);
      c := c.(numMsg := c.numMsg + 1);
      numMsg := numMsg + 1;
      if direction == In {
        c := c.(numUnread := c.numUnread + 1);
        numUnread := numUnread + 1;
      }
      msgs := msgs[msgNode := c];
      assert NodeOf(old(msgs), frdName) == |old(msgs)| ==> msgs == [c] + old(msgs);
    }

    /** `briefMsgContexts`. Its loop goes on past the end of the list when it has
        shown five messages or more. */
    method BriefMsgContexts(msgNode: nat) returns (shown: Shown)
      requires msgNode < |msgs|
      modifies this`msgs
      ensures shown == if |old(msgs)[msgNode].contexts| <= 4 then Lines(old(msgs)[msgNode].contexts) else NullFollowed
      ensures shown.Lines? ==> Value() == Cleared(old(Value()), msgNode)
      ensures shown.NullFollowed? ==> msgs == old(msgs)
    {
      var contexts := msgs[msgNode].contexts;
      var current, counter, rtnMsg := 0, 0, [];
      while current < |contexts| || counter > 4
        invariant current == counter <= |contexts|
        invariant rtnMsg == contexts[..current]
        decreases |contexts| - current
      {
        if current == |contexts| {
          return NullFollowed;
        }
        rtnMsg := rtnMsg + [contexts[current]];
        current := current + 1;
        counter := counter + 1;
      }
      msgs := msgs[msgNode := msgs[msgNode].(numUnread := 0)];
      shown := Lines(rtnMsg);
    }

    /** The `msg -f` command. `getMsgInfo` reports success for a contact that is not
        in the box, and its null pointer is followed at once. */
    method ReadContact(frdName: string) returns (shown: Shown)
      modifies this
      ensures shown.Lines? <==> Readable(old(Value()), frdName)
      ensures shown.Lines? ==> shown.messages == old(msgs)[NodeOf(old(msgs), frdName)].contexts
      ensures Value() == Apply(old(Value()), Read(frdName))
    {
      var msgNode := GetMsgNode(frdName);
      if msgNode == |msgs| {
        return NullFollowed;
      }
      var unread := msgs[msgNode].numUnread;
      shown := BriefMsgContexts(msgNode);
      if shown.Lines? {
        numUnread := numUnread - unread;
      }
    }
  }
}
