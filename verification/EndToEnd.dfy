/** The whole path of a robot's status: queue frame, store, hub, browser. */
module EndToEnd {
  import opened Common
  import Wire
  import opened RobotStore
  import opened RobotPipeline
  import Hub = HubProtocol
  import opened RobotsReducer

  /** What the browser dispatches for the status messages written to its socket. */
  function StatusActions(ps: seq<Hub.Payload>): (us: seq<Action>)
    ensures |us| == |ps|
    ensures AreStatusUpdates(us)
    ensures forall i :: 0 <= i < |ps| ==> us[i] == UpdateRobotState(ps[i].robotId, ps[i].hostname, ps[i].temperature)
  {
    seq(|ps|, i requires 0 <= i < |ps| => UpdateRobotState(ps[i].robotId, ps[i].hostname, ps[i].temperature))
  }

  lemma {:induction false} LatestOfStatusActions(ps: seq<Hub.Payload>, id: nat)
    ensures Latest(StatusActions(ps), id) ==
            match LastPayload(ps, id)
            case None => None
            case Some(p) => Some(UpdateRobotState(p.robotId, p.hostname, p.temperature))
  {
    if ps != [] {
      var k := |ps| - 1;
      assert StatusActions(ps)[..k] == StatusActions(ps[..k]);
      LatestOfStatusActions(ps[..k], id);
    }
  }

  lemma {:induction false} LastInSuffix(ps: seq<Hub.Payload>, a: nat, id: nat)
    requires a <= |ps| && LastPayload(ps[a..], id).Some?
    ensures LastPayload(ps, id) == LastPayload(ps[a..], id)
  {
    var k := |ps| - 1;
    assert ps[a..][..k - a] == ps[..k][a..];
    if ps[k].robotId != id {
      LastInSuffix(ps[..k], a, id);
    }
  }

  lemma {:induction false} LastPayloadMatches(ps: seq<Hub.Payload>, id: nat)
    ensures LastPayload(ps, id).Some? ==> LastPayload(ps, id).value.robotId == id
  {
    if ps != [] {
      LastPayloadMatches(ps[..|ps| - 1], id);
    }
  }

  /**
   Let the browser dispatch these actions: for the messages written to it the status updates, in order,
   and between them any others that keep that robot's row. Then the row, if any message concerned it,
   shows the record in this table.
   */
  ghost predicate RowShows(table: Table, screen: RobotsState, written: seq<Hub.Payload>, actions: seq<Action>,
                           row: nat, id: U64)
  {
    && id in table && row < |screen.current| && screen.current[row].instance.id == id
    && StatusPart(actions) == StatusActions(written)
    && (forall i :: 0 <= i < |actions| ==> KeepsRow(actions[i], id))
    && LastPayload(written, id).Some?
    ==>
      var after := Dispatch(screen, actions);
      && row < |after.current| && after.current[row].instance.id == id
      && ShownIn(after.current[row]) == Shown(id, table[id].hostname, table[id].temperature)
  }

  /** These are the messages a to k for these reports, and the row shows what the first k reports made of the record. */
  ghost predicate Follows(table: Table, handled: seq<Report>, written: seq<Hub.Payload>, a: int, k: int,
                          screen: RobotsState, actions: seq<Action>, row: nat, id: U64)
    requires WellKeyed(table)
  {
    && 0 <= a <= k <= |handled| && written == Payloads(handled)[a..k]
    && RowShows(ReportedTable(table, handled[..k]), screen, written, actions, row, id)
  }

  /**
   Take any received stream, any moment of any interleaving of the hub in which the receive loop is the
   only sender, and any client that has registered. What has been written to its socket is a contiguous
   stretch of the messages for the handled reports, from where it joined; and if one of those concerns a
   robot with a row on its screen, the row shows the robot's record as the store held it after the last
   report whose message was written, whatever else that keeps the row was dispatched meanwhile.
   */
  lemma {:induction false} ScreenFollowsStore(table: Table, first: Wire.Sysmsg, rounds: seq<Receipt>,
                                              run: seq<Hub.Label>, p: Hub.SenderId, c: Hub.ClientId,
                                              screen: RobotsState, actions: seq<Action>, row: nat, id: U64)
    requires WellKeyed(table)
    requires Hub.Exec(run).Some? && Hub.OnlySender(run, p)
    requires Hub.Offered(run, p) <= Payloads(Handled(Reports(first, rounds), table.Keys))
    requires Hub.JoinedAt(run, c).Some?
    ensures var s := Hub.Exec(run).value;
            && c in s.conns
            && Follows(table, Handled(Reports(first, rounds), table.Keys), s.conns[c].attempted,
                       Hub.JoinedAt(run, c).value, Hub.WindowEnd(run, c) - Hub.Pending(s, c),
                       screen, actions, row, id)
  {
    HandledTwice(Reports(first, rounds), table.Keys);
    ScreenFollowsReports(table, Handled(Reports(first, rounds), table.Keys), run, p, c, screen, actions, row, id);
  }

  lemma {:induction false} ScreenFollowsReports(table: Table, handled: seq<Report>,
                                                run: seq<Hub.Label>, p: Hub.SenderId, c: Hub.ClientId,
                                                screen: RobotsState, actions: seq<Action>, row: nat, id: U64)
    requires WellKeyed(table) && Handled(handled, table.Keys) == handled
    requires Hub.Exec(run).Some? && Hub.OnlySender(run, p) && Hub.Offered(run, p) <= Payloads(handled)
    requires Hub.JoinedAt(run, c).Some?
    ensures var s := Hub.Exec(run).value;
            && c in s.conns
            && Follows(table, handled, s.conns[c].attempted,
                       Hub.JoinedAt(run, c).value, Hub.WindowEnd(run, c) - Hub.Pending(s, c),
                       screen, actions, row, id)
  {
    WrittenIsStretch(Payloads(handled), run, p, c);
    var a, k := Hub.JoinedAt(run, c).value, Hub.WindowEnd(run, c) - Hub.Pending(Hub.Exec(run).value, c);
    var written := Hub.Exec(run).value.conns[c].attempted;
    assert written == Payloads(handled)[a..k];
    RowShowsRecord(table, handled, a, k, written, screen, actions, row, id);
  }

  /** With one sender, what a client was written is a stretch of what the sender has to send. */
  lemma {:induction false} WrittenIsStretch(sent: seq<Hub.Payload>, run: seq<Hub.Label>,
                                            p: Hub.SenderId, c: Hub.ClientId)
    requires Hub.Exec(run).Some? && Hub.OnlySender(run, p) && Hub.Offered(run, p) <= sent
    requires Hub.JoinedAt(run, c).Some?
    ensures var a, k := Hub.JoinedAt(run, c).value, Hub.WindowEnd(run, c) - Hub.Pending(Hub.Exec(run).value, c);
            && c in Hub.Exec(run).value.conns && a <= k <= |sent|
            && Hub.Exec(run).value.conns[c].attempted == sent[a..k]
  {
    Hub.SingleSenderOwnsTheLog(run, p);
    Hub.RunFollows(run, c);
    var log := Hub.Broadcasts(run);
    assert log == sent[..|log|];
  }

  /** A screen that was sent messages a to k shows the record as the first k reports left it. */
  lemma {:induction false} RowShowsRecord(table: Table, handled: seq<Report>, a: nat, k: nat, written: seq<Hub.Payload>,
                                          screen: RobotsState, actions: seq<Action>, row: nat, id: U64)
    requires WellKeyed(table) && Handled(handled, table.Keys) == handled
    requires a <= k <= |handled| && written == Payloads(handled)[a..k]
    ensures Follows(table, handled, written, a, k, screen, actions, row, id)
  {
    var ps := Payloads(handled[..k]);
    assert written == ps[a..];
    if id in table && row < |screen.current| && screen.current[row].instance.id == id
       && (forall i :: 0 <= i < |actions| ==> KeepsRow(actions[i], id))
       && LastPayload(written, id).Some? {
      LastInSuffix(ps, a, id);
      LastPayloadMatches(ps, id);
      LatestOfStatusActions(written, id);
      LatestOfStatusPart(actions, id);
      LastUpdateWinsAmongOthers(screen, actions, row);
      StoreAgreesWithMessages(table, handled, k, id);
    }
  }

  /** Once all messages are handed over and none is under way to a client still registered, k counts all the
      reports: what the row shows is the record the store holds now. */
  lemma {:induction false} ScreenAgreesWithStore(table: Table, first: Wire.Sysmsg, rounds: seq<Receipt>,
                                                 run: seq<Hub.Label>, p: Hub.SenderId, c: Hub.ClientId,
                                                 screen: RobotsState, actions: seq<Action>, row: nat, id: U64)
    requires WellKeyed(table)
    requires Hub.Exec(run).Some? && Hub.OnlySender(run, p)
    requires Hub.Offered(run, p) == Payloads(Handled(Reports(first, rounds), table.Keys))
    requires p !in Hub.Exec(run).value.blocked
    requires Hub.JoinedAt(run, c).Some? && Hub.LeftAt(run, c).None? && Hub.Pending(Hub.Exec(run).value, c) == 0
    ensures var handled := Handled(Reports(first, rounds), table.Keys);
            var a := Hub.JoinedAt(run, c).value;
            && c in Hub.Exec(run).value.conns && a <= |handled|
            && var written := Hub.Exec(run).value.conns[c].attempted;
            && written == Payloads(handled)[a..]
            && RowShows(ReportedTable(table, handled), screen, written, actions, row, id)
  {
    HandledTwice(Reports(first, rounds), table.Keys);
    AllReportsShown(table, Handled(Reports(first, rounds), table.Keys), run, p, c, screen, actions, row, id);
  }

  lemma {:induction false} AllReportsShown(table: Table, handled: seq<Report>, run: seq<Hub.Label>, p: Hub.SenderId,
                                           c: Hub.ClientId, screen: RobotsState, actions: seq<Action>,
                                           row: nat, id: U64)
    requires WellKeyed(table) && Handled(handled, table.Keys) == handled
    requires Hub.Exec(run).Some? && Hub.OnlySender(run, p) && Hub.Offered(run, p) == Payloads(handled)
    requires p !in Hub.Exec(run).value.blocked
    requires Hub.JoinedAt(run, c).Some? && Hub.LeftAt(run, c).None? && Hub.Pending(Hub.Exec(run).value, c) == 0
    ensures var a := Hub.JoinedAt(run, c).value;
            && c in Hub.Exec(run).value.conns && a <= |handled|
            && var written := Hub.Exec(run).value.conns[c].attempted;
            && written == Payloads(handled)[a..]
            && RowShows(ReportedTable(table, handled), screen, written, actions, row, id)
  {
    Hub.SingleSenderOwnsTheLog(run, p);
    WrittenIsStretch(Payloads(handled), run, p, c);
    var written := Hub.Exec(run).value.conns[c].attempted;
    RowShowsRecord(table, handled, Hub.JoinedAt(run, c).value, |handled|, written, screen, actions, row, id);
    assert handled[..|handled|] == handled;
  }

  lemma {:induction false} HandledTwice(reports: seq<Report>, known: set<U64>)
    ensures Handled(Handled(reports, known), known) == Handled(reports, known)
  {
    if reports != [] && reports[0].id in known {
      HandledTwice(reports[1..], known);
      assert Handled(reports, known)[1..] == Handled(reports[1..], known);
    }
  }
}
