/** Names that the directory takes for other names: when a box holds exactly the mail
    that was addressed to its user. */
module MessageNames {
  import opened MessageBox
  import opened MessageExchange

  // ------------------------------------------------------------------ directories

  lemma PrefixOfPrefix(a: string, b: string, c: string)
    requires a <= b <= c
    ensures a <= c
  {
    assert c[..|a|] == b[..|a|];
  }

  lemma ShorterPrefix(a: string, b: string)
    requires a <= b && a != b
    ensures b != "" && a <= b[..|b| - 1]
  {
    assert |a| == |b| ==> a == b;
  }

  /** A user found under the own name and under no other: no earlier user's name begins
      with it, but some earlier user's name begins with all of it but its last letter. */
  predicate OnlyOwnName(users: seq<string>, v: nat)
    requires v < |users|
  {
    var name := users[v];
    && (forall j :: 0 <= j < v ==> !(name <= users[j]))
    && (name == "" || exists j :: 0 <= j < v && name[..|name| - 1] <= users[j])
  }

  lemma OnlyOwnNameIff(users: seq<string>, v: nat)
    requires v < |users|
    ensures OnlyOwnName(users, v) <==> forall name :: Lookup(users, name) == v <==> name == users[v]
  {
    var own := users[v];
    if OnlyOwnName(users, v) {
      forall name
        ensures Lookup(users, name) == v <==> name == own
      {
        if name <= own && name != own {
          var j :| 0 <= j < v && own[..|own| - 1] <= users[j];
          ShorterPrefix(name, own);
          PrefixOfPrefix(name, own[..|own| - 1], users[j]);
        }
      }
    } else {
      var name := Misnomer(users, v);
    }
  }

  /** A name that shows it when there is one: the own name, or all of it but its last
      letter. */
  lemma Misnomer(users: seq<string>, v: nat) returns (name: string)
    requires v < |users| && !OnlyOwnName(users, v)
    ensures Lookup(users, name) == v <==> name != users[v]
  {
    name := users[v];
    if Lookup(users, name) == v {
      name := name[..|name| - 1];
      assert name <= users[v];
    }
  }

  // ------------------------------------------------------------------------- logs

  /** The mail from `from` that is delivered to user `v`. */
  ghost function MailTo(log: seq<Mail>, users: seq<string>, from: string, v: nat): seq<Mail> {
    if log == [] then []
    else
      var last := log[|log| - 1];
      MailTo(log[..|log| - 1], users, from, v) + if last.from == from && Lookup(users, last.to) == v then [last] else []
  }

  /** The mail from `from` that is addressed to `name`. */
  ghost function MailFor(log: seq<Mail>, from: string, name: string): seq<Mail> {
    if log == [] then []
    else
      var last := log[|log| - 1];
      MailFor(log[..|log| - 1], from, name) + if last.from == from && last.to == name then [last] else []
  }

  ghost function TextsOf(log: seq<Mail>): (texts: seq<string>)
    ensures |texts| == |log| && forall i :: 0 <= i < |log| ==> texts[i] == log[i].text
  {
    seq(|log|, i requires 0 <= i < |log| => log[i].text)
  }

  lemma {:induction false} BetweenIsMail(log: seq<Mail>, users: seq<string>, from: string, v: nat)
    ensures Between(log, users, from, v) == TextsOf(MailTo(log, users, from, v))
  {
    if log != [] {
      BetweenIsMail(log[..|log| - 1], users, from, v);
    }
  }

  /** What is delivered to a user is addressed to that user, and the other way round. */
  ghost predicate Straight(log: seq<Mail>, users: seq<string>, from: string, v: nat)
    requires v < |users|
  {
    forall mail :: mail in log && mail.from == from ==> (Lookup(users, mail.to) == v <==> mail.to == users[v])
  }

  lemma {:induction false} MailMembers(log: seq<Mail>, users: seq<string>, from: string, v: nat, name: string,
                                       mail: Mail)
    ensures mail in MailTo(log, users, from, v) <==> mail in log && mail.from == from && Lookup(users, mail.to) == v
    ensures mail in MailFor(log, from, name) <==> mail in log && mail.from == from && mail.to == name
  {
    if log != [] {
      var before, last := log[..|log| - 1], log[|log| - 1];
      MailMembers(before, users, from, v, name, mail);
      assert log == before + [last];
    }
  }

  lemma {:induction false} StraightMail(log: seq<Mail>, users: seq<string>, from: string, v: nat)
    requires v < |users| && Straight(log, users, from, v)
    ensures MailTo(log, users, from, v) == MailFor(log, from, users[v])
  {
    if log != [] {
      assert log[|log| - 1] in log;
      StraightMail(log[..|log| - 1], users, from, v);
    }
  }

  /** The mail delivered is the mail addressed, in order, exactly for straight logs. */
  lemma OwnMailIff(log: seq<Mail>, users: seq<string>, from: string, v: nat)
    requires v < |users|
    ensures MailTo(log, users, from, v) == MailFor(log, from, users[v]) <==> Straight(log, users, from, v)
  {
    if Straight(log, users, from, v) {
      StraightMail(log, users, from, v);
    } else {
      var mail :| mail in log && mail.from == from && !(Lookup(users, mail.to) == v <==> mail.to == users[v]);
      MailMembers(log, users, from, v, users[v], mail);
    }
  }

  // ------------------------------------------------------------------------- runs

  /** In every reachable state the box of a user who is found under the own name only
      holds, from each sender, exactly the mail addressed to that name: once each, in
      order of acceptance. */
  lemma OwnMailDelivered(users: seq<string>, n: nat, actions: seq<Action>, v: nat, from: string)
    requires Registered(users) && v < |users| && OnlyOwnName(users, v)
    ensures var s := Run(users, Initial(users, n), actions);
      |s.boxes| == |users| && InFrom(s.boxes[v], from) == TextsOf(MailFor(s.handled, from, users[v]))
  {
    var s := Run(users, Initial(users, n), actions);
    DeliveredOnceInOrder(users, n, actions, v, from);
    BetweenIsMail(s.handled, users, from, v);
    OnlyOwnNameIff(users, v);
    StraightMail(s.handled, users, from, v);
  }

  /** For other users it depends on what was sent: the mail delivered to a box is the
      mail addressed to its user if and only if no mail that was handled is addressed
      to one and resolved to another. */
  lemma DeliveredIsAddressedIff(users: seq<string>, n: nat, actions: seq<Action>, v: nat, from: string)
    requires Registered(users) && v < |users|
    ensures var s := Run(users, Initial(users, n), actions);
      && |s.boxes| == |users|
      && InFrom(s.boxes[v], from) == TextsOf(MailTo(s.handled, users, from, v))
      && (MailTo(s.handled, users, from, v) == MailFor(s.handled, from, users[v])
          <==> Straight(s.handled, users, from, v))
  {
    var s := Run(users, Initial(users, n), actions);
    DeliveredOnceInOrder(users, n, actions, v, from);
    BetweenIsMail(s.handled, users, from, v);
    OwnMailIff(s.handled, users, from, v);
  }
}
