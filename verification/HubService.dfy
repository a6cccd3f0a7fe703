/**
 The hub goroutine in its own form: a loop over the events its select hands it, updating the
 client set and each client's `send` field. Proved against `Received`, a reading of the event
 list alone, and tied to the interleaved machine of HubProtocol.
 */
module HubService {
  import opened Common
  import opened HubProtocol

  /** What one round of the select receives. */
  datatype Event<+C> = Joined(c: C) | Left(c: C) | Message(m: Payload)

  /** Is c registered after these events? */
  predicate Member<C(==)>(events: seq<Event<C>>, c: C, initially: bool) {
    if events == [] then initially
    else
      match events[|events| - 1]
      case Joined(d) => d == c || Member(events[..|events| - 1], c, initially)
      case Left(d) => d != c && Member(events[..|events| - 1], c, initially)
      case Message(_) => Member(events[..|events| - 1], c, initially)
  }

  /** The messages that arrive while c is registered. */
  function Received<C(==)>(events: seq<Event<C>>, c: C, initially: bool): seq<Payload> {
    if events == [] then []
    else
      var before, e := events[..|events| - 1], events[|events| - 1];
      Received(before, c, initially) + if e.Message? && Member(before, c, initially) then [e.m] else []
  }

  lemma {:induction false} ReceivedSnoc<C>(events: seq<Event<C>>, e: Event<C>, c: C, initially: bool)
    ensures Received(events + [e], c, initially) ==
            Received(events, c, initially) + if e.Message? && Member(events, c, initially) then [e.m] else []
    ensures Member(events + [e], c, initially) ==
            if e.Joined? && e.c == c then true
            else if e.Left? && e.c == c then false
            else Member(events, c, initially)
  {
    assert (events + [e])[..|events|] == events;
  }

  class Client {
    var send: Option<Payload>
    var attempted: seq<Payload>

    constructor ()
      ensures send == None && attempted == []
    {
      send, attempted := None, [];
    }

    /** WriteJSON of the current `send` value; a failure is only logged, so the attempt is what counts. */
    method Write()
      requires send.Some?
      modifies this`attempted
      ensures attempted == old(attempted) + [send.value]
    {
      var msg := send.value;
      attempted := attempted + [msg];
    }
  }

  class Hub {
    var clients: set<Client>

    constructor ()
      ensures clients == {}
    {
      clients := {};
    }

    /** The broadcast arm: map order is arbitrary, so the next client is any one not yet served. */
    method Broadcast(m: Payload)
      modifies clients
      ensures forall c :: c in clients ==> c.send == Some(m) && c.attempted == old(c.attempted) + [m]
    {
      var remaining := clients;
      while remaining != {}
        invariant remaining <= clients
        invariant forall c :: c in remaining ==> c.attempted == old(c.attempted)
        invariant forall c :: c in clients - remaining ==>
                    c.send == Some(m) && c.attempted == old(c.attempted) + [m]
        decreases remaining
      {
        var client :| client in remaining;
        client.send := Some(m);
        client.Write();
        remaining := remaining - {client};
      }
    }

    /** One round of the select. */
    method Dispatch(e: Event<Client>)
      modifies this, clients
      ensures clients == match e
                         case Joined(c) => old(clients) + {c}
                         case Left(c) => old(clients) - {c}
                         case Message(_) => old(clients)
      ensures forall c :: c in old(clients) ==>
                c.attempted == old(c.attempted) + if e.Message? then [e.m] else []
    {
      match e
      case Joined(c) => clients := clients + {c};
      case Left(c) =>
        if c in clients {
          clients := clients - {c};
        }
      case Message(m) => Broadcast(m);
    }

    /** The hub loop over any finite run of events; `everyone` bounds the clients that can turn up in it. */
    method HubStart(inbox: seq<Event<Client>>, ghost everyone: set<Client>)
      requires clients <= everyone
      requires forall i :: 0 <= i < |inbox| && !inbox[i].Message? ==> inbox[i].c in everyone
      modifies this, everyone
      ensures forall c :: c in everyone ==>
                && c.attempted == old(c.attempted) + Received(inbox, c, c in old(clients))
                && (c in clients <==> Member(inbox, c, c in old(clients)))
    {
      for i := 0 to |inbox|
        invariant clients <= everyone
        invariant forall c :: c in everyone ==>
                    && c.attempted == old(c.attempted) + Received(inbox[..i], c, c in old(clients))
                    && (c in clients <==> Member(inbox[..i], c, c in old(clients)))
      {
        forall c | c in everyone
          ensures Received(inbox[..i + 1], c, c in old(clients)) ==
                  Received(inbox[..i], c, c in old(clients)) +
                  if inbox[i].Message? && c in clients then [inbox[i].m] else []
          ensures Member(inbox[..i + 1], c, c in old(clients)) ==
                  if inbox[i].Joined? && inbox[i].c == c then true
                  else if inbox[i].Left? && inbox[i].c == c then false
                  else c in clients
        {
          assert inbox[..i + 1] == inbox[..i] + [inbox[i]];
          ReceivedSnoc(inbox[..i], inbox[i], c, c in old(clients));
        }
        Dispatch(inbox[i]);
      }
      assert inbox[..|inbox|] == inbox;
    }
  }

  // ---- the interleaved machine, read one select round at a time ----

  function SelectRounds(run: seq<Label>): seq<Event<ClientId>> {
    if run == [] then []
    else
      SelectRounds(run[..|run| - 1]) +
      match run[|run| - 1]
      case Register(c) => [Joined(c)]
      case Unregister(c) => [Left(c)]
      case Accept(_, m) => [Message(m)]
      case _ => []
  }

  /** The message the broadcast under way has yet to write to c. */
  function Owed(s: State, c: ClientId): seq<Payload> {
    if Pending(s, c) == 1 then [s.hub.msg] else []
  }

  /** What c has been written plus what it is owed; nothing for a client that never connected. */
  function Written(s: State, c: ClientId): seq<Payload> {
    if c in s.conns then s.conns[c].attempted + Owed(s, c) else []
  }

  /** Steps between two select rounds do not change what c is written or owed. */
  lemma WrittenBetweenRounds(run: seq<Label>, s: State, l: Label, c: ClientId)
    requires Enabled(s, l) && HubFollows(run, s)
    requires l.Pick? ==> l.c in s.clients
    requires if c in s.clients then c in s.conns else Pending(s, c) == 0
    requires !l.Register? && !l.Unregister? && !l.Accept?
    ensures Written(Step(s, l), c) == Written(s, c) && Step(s, l).clients == s.clients
  {
    if l.WriteCurrent? && s.hub.current == c {
      assert Owed(s, c) == [s.hub.msg];
    } else {
      assert Owed(Step(s, l), c) == Owed(s, c);
    }
  }

  lemma WrittenAtRound(s: State, l: Label, c: ClientId)
    requires Enabled(s, l)
    requires c in s.clients ==> c in s.conns
    requires l.Register? || l.Unregister? || l.Accept?
    ensures Written(Step(s, l), c) == Written(s, c) + if l.Accept? && c in s.clients then [l.m] else []
  {
    assert Owed(s, c) == [];
  }

  lemma {:induction false} RoundsSnoc(run: seq<Label>, l: Label, c: ClientId)
    ensures Received(SelectRounds(run + [l]), c, false) ==
            Received(SelectRounds(run), c, false) +
            if l.Accept? && Member(SelectRounds(run), c, false) then [l.m] else []
    ensures Member(SelectRounds(run + [l]), c, false) ==
            if l == Register(c) then true
            else if l == Unregister(c) then false
            else Member(SelectRounds(run), c, false)
  {
    assert (run + [l])[..|run|] == run;
    match l
    case Register(d) => ReceivedSnoc(SelectRounds(run), Joined(d), c, false);
    case Unregister(d) => ReceivedSnoc(SelectRounds(run), Left(d), c, false);
    case Accept(_, m) => ReceivedSnoc(SelectRounds(run), Message(m), c, false);
    case _ => assert SelectRounds(run + [l]) == SelectRounds(run);
  }

  /**
   However the steps interleave, each client is written exactly what the serial loop writes for the
   select rounds of the run, less the message still under way; between rounds the two are equal.
   */
  lemma {:induction false} InterleavingRefinesSerialHub(run: seq<Label>, c: ClientId)
    requires Exec(run).Some?
    ensures var s := Exec(run).value;
            && Received(SelectRounds(run), c, false) == Written(s, c)
            && (Member(SelectRounds(run), c, false) <==> c in s.clients)
            && (s.hub == Selecting && c in s.conns ==> s.conns[c].attempted == Received(SelectRounds(run), c, false))
  {
    if run != [] {
      var prefix, l := run[..|run| - 1], run[|run| - 1];
      assert run == prefix + [l];
      InterleavingRefinesSerialHub(prefix, c);
      RunFollows(prefix, c);
      RunFollows(run, c);
      if l.Pick? { RunFollows(prefix, l.c); }
      RoundsSnoc(prefix, l, c);
      if l.Register? || l.Unregister? || l.Accept? {
        WrittenAtRound(Exec(prefix).value, l, c);
      } else {
        WrittenBetweenRounds(prefix, Exec(prefix).value, l, c);
      }
    }
  }
}
