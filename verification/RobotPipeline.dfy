/**
 From queue frames to broadcasts: the receive loop decodes each frame, and every robot report makes
 it read, change and write the robot's record and hand one status message to the hub.
 */
module RobotPipeline {
  import opened Common
  import opened Decimal
  import opened Wire
  import opened RobotStore
  import opened HubProtocol

  /** One round of the loop: the bytes received, and what os.Hostname and the clock return in it. */
  datatype Receipt = Receipt(bytes: seq<Byte>, host: string, now: int)

  /** A robot report as the loop acts on it. The host name in the frame itself is never used. */
  datatype Report = Report(id: U64, temperature: string, host: string, now: int)

  /** A frame shorter than a Sysmsg leaves the previous message in place. */
  function Decoded(previous: Sysmsg, bytes: seq<Byte>): Sysmsg {
    if |bytes| < SYSMSG_LEN then previous else DecodeSysmsg(bytes)
  }

  function LastMessage(first: Sysmsg, rounds: seq<Receipt>): Sysmsg {
    if rounds == [] then first
    else Decoded(LastMessage(first, rounds[..|rounds| - 1]), rounds[|rounds| - 1].bytes)
  }

  function ReportOf(m: Sysmsg, r: Receipt): seq<Report> {
    if m.cmd == MESSAGE_ID_INFO then
      var info := DecodeInfo(m.data);
      [Report(info.id, ToDecimal(info.temperature), r.host, r.now)]
    else []
  }

  /** The robot reports in the received stream, in order; other commands are skipped. */
  function Reports(first: Sysmsg, rounds: seq<Receipt>): seq<Report> {
    if rounds == [] then []
    else
      Reports(first, rounds[..|rounds| - 1]) + ReportOf(LastMessage(first, rounds), rounds[|rounds| - 1])
  }

  /** The reports before the first one for a robot that is not stored. */
  function Handled(reports: seq<Report>, known: set<U64>): (handled: seq<Report>)
    ensures |handled| <= |reports|
    ensures handled == reports[..|handled|]
    ensures forall i :: 0 <= i < |handled| ==> handled[i].id in known
    ensures |handled| < |reports| ==> reports[|handled|].id !in known
  {
    if reports == [] || reports[0].id !in known then []
    else [reports[0]] + Handled(reports[1..], known)
  }

  function PayloadOf(r: Report): Payload { Payload(r.id, r.host, r.temperature) }

  function Payloads(reports: seq<Report>): (ps: seq<Payload>)
    ensures |ps| == |reports|
    ensures forall i :: 0 <= i < |ps| ==> ps[i] == PayloadOf(reports[i])
  {
    seq(|reports|, i requires 0 <= i < |reports| => PayloadOf(reports[i]))
  }

  /** The last report for a robot, if any. */
  function LatestFor(reports: seq<Report>, id: U64): Option<Report> {
    if reports == [] then None
    else if reports[|reports| - 1].id == id then Some(reports[|reports| - 1])
    else LatestFor(reports[..|reports| - 1], id)
  }

  /** A record as it stands after reports: host name and temperature are the latest report's, the motors are
      untouched. */
  function Reported(r: RobotState, reports: seq<Report>): RobotState {
    match LatestFor(reports, r.id)
    case None => r
    case Some(latest) => r.(hostname := latest.host, temperature := latest.temperature)
  }

  function ReportedTable(table: Table, reports: seq<Report>): (t: Table)
    requires WellKeyed(table)
    ensures WellKeyed(t)
  {
    map id | id in table :: Reported(table[id], reports)
  }

  /** The update times the handled reports leave. */
  function Stamps(updated: map<U64, int>, reports: seq<Report>): map<U64, int> {
    if reports == [] then updated
    else
      var r := reports[|reports| - 1];
      Stamps(updated, reports[..|reports| - 1])[r.id := r.now]
  }

  /** The effect of one report on the table. */
  function Apply(table: Table, r: Report): Table
    requires r.id in table
  {
    table[r.id := table[r.id].(hostname := r.host, temperature := r.temperature)]
  }

  lemma {:induction false} ReportedSnoc(table: Table, reports: seq<Report>, r: Report)
    requires WellKeyed(table) && r.id in table
    ensures var before := ReportedTable(table, reports);
            ReportedTable(table, reports + [r]) == Apply(before, r)
  {
    assert (reports + [r])[..|reports|] == reports;
  }

  lemma {:induction false} HandledSnoc(reports: seq<Report>, r: Report, known: set<U64>)
    ensures Handled(reports + [r], known) ==
            if |Handled(reports, known)| == |reports| && r.id in known then reports + [r] else Handled(reports, known)
  {
    if reports != [] && reports[0].id in known {
      assert (reports + [r])[1..] == reports[1..] + [r];
      HandledSnoc(reports[1..], r, known);
    }
  }

  /** `sent` is the sequence of messages handed to the hub's broadcast channel. */
  class Receiver {
    var msg: Sysmsg
    const store: Storage
    var sent: seq<Payload>

    constructor (store: Storage)
      ensures msg == ZERO_SYSMSG && sent == [] && this.store == store
    {
      msg, sent := ZERO_SYSMSG, [];
      this.store := store;
    }

    /** For a missing record the Go method panics; `ok` is false then and nothing has changed. */
    method UpdateRobot(id: U64, host: string, temperature: string, now: int) returns (ok: bool)
      requires WellKeyed(store.table)
      modifies this`sent, store
      ensures ok == (id in old(store.table))
      ensures !ok ==> sent == old(sent) && store.table == old(store.table) && store.updated == old(store.updated)
      ensures ok ==>
                && store.updated == old(store.updated)[id := now]
                && sent == old(sent) + [Payload(id, host, temperature)]
                && store.table == Apply(old(store.table), Report(id, temperature, host, now))
    {
      var found := store.Get(id);
      if found.None? {
        return false;
      }
      var p := found.value.(hostname := host);
      p := p.(temperature := temperature);
      var err := store.Update(p, now);
      sent := sent + [Payload(id, p.hostname, temperature)];
      ok := true;
    }

    /** One round: decode, and act on a robot report. `ok` is false when the report's robot is unknown. */
    method Receive(r: Receipt) returns (ok: bool)
      requires WellKeyed(store.table)
      modifies this, store
      ensures msg == Decoded(old(msg), r.bytes)
      ensures var reports := ReportOf(msg, r);
              && ok == (reports == [] || reports[0].id in old(store.table))
              && (reports == [] || !ok ==>
                    sent == old(sent) && store.table == old(store.table) && store.updated == old(store.updated))
              && (reports != [] && ok ==>
                    && store.updated == old(store.updated)[reports[0].id := reports[0].now]
                    && sent == old(sent) + [PayloadOf(reports[0])]
                    && store.table == Apply(old(store.table), reports[0]))
    {
      if |r.bytes| >= SYSMSG_LEN {
        msg := DecodeSysmsg(r.bytes);
      }
      ok := true;
      if msg.cmd == MESSAGE_ID_INFO {
        var info := DecodeInfo(msg.data);
        ok := UpdateRobot(info.id, r.host, ToDecimal(info.temperature), r.now);
      }
    }

    /**
     The receive loop over any finite list of rounds. The messages sent are one for one and in order
     those of the reports up to the first unknown robot, where the Go loop panics; the store ends as
     those reports leave it.
     */
    method RecvMessageQ(rounds: seq<Receipt>) returns (ok: bool)
      requires WellKeyed(store.table)
      modifies this, store
      ensures var reports := Reports(old(msg), rounds);
              var handled := Handled(reports, old(store.table).Keys);
              && ok == (handled == reports)
              && sent == old(sent) + Payloads(handled)
              && store.table == ReportedTable(old(store.table), handled)
              && store.updated == Stamps(old(store.updated), handled)
    {
      ghost var first, table0, sent0, updated0 := msg, store.table, sent, store.updated;
      assert ReportedTable(table0, []) == table0;
      for i := 0 to |rounds|
        invariant msg == LastMessage(first, rounds[..i])
        invariant ReachedBy(table0, sent0, updated0, Reports(first, rounds[..i]), store.table, sent, store.updated)
      {
        ok := Receive(rounds[i]);
        OneMoreRound(first, rounds, i);
        ghost var next := ReportOf(msg, rounds[i]);
        if !ok {
          StopsHere(first, rounds, i, table0.Keys);
          return;
        }
        if next != [] {
          ReachedNext(table0, sent0, updated0, Reports(first, rounds[..i]), next[0]);
        }
      }
      assert rounds[..|rounds|] == rounds;
      ok := true;
    }
  }

  lemma {:induction false} OneMoreRound(first: Sysmsg, rounds: seq<Receipt>, i: nat)
    requires i < |rounds|
    ensures LastMessage(first, rounds[..i + 1]) == Decoded(LastMessage(first, rounds[..i]), rounds[i].bytes)
    ensures var next := ReportOf(LastMessage(first, rounds[..i + 1]), rounds[i]);
            && Reports(first, rounds[..i + 1]) == Reports(first, rounds[..i]) + next
            && (next == [] || next == [next[0]])
  {
    assert rounds[..i + 1][..i] == rounds[..i];
  }

  /** A round that reports an unknown robot ends what is handled of the whole stream. */
  lemma {:induction false} StopsHere(first: Sysmsg, rounds: seq<Receipt>, i: nat, known: set<U64>)
    requires i < |rounds|
    requires Handled(Reports(first, rounds[..i]), known) == Reports(first, rounds[..i])
    requires var next := ReportOf(LastMessage(first, rounds[..i + 1]), rounds[i]);
             next != [] && next[0].id !in known
    ensures Handled(Reports(first, rounds), known) == Reports(first, rounds[..i])
    ensures Reports(first, rounds[..i]) != Reports(first, rounds)
  {
    OneMoreRound(first, rounds, i);
    var reports, next := Reports(first, rounds[..i]), ReportOf(LastMessage(first, rounds[..i + 1]), rounds[i]);
    HandledSnoc(reports, next[0], known);
    ReportsExtend(first, rounds, i + 1);
    HandledExtend(reports + next, Reports(first, rounds), known);
  }

  /** All these reports were handled, and the table, the messages and the stamps are what they lead to. */
  ghost predicate ReachedBy(table0: Table, sent0: seq<Payload>, updated0: map<U64, int>, reports: seq<Report>,
                            table: Table, sent: seq<Payload>, updated: map<U64, int>)
    requires WellKeyed(table0)
  {
    && Handled(reports, table0.Keys) == reports
    && sent == sent0 + Payloads(reports)
    && table == ReportedTable(table0, reports)
    && updated == Stamps(updated0, reports)
  }

  lemma {:induction false} ReachedNext(table0: Table, sent0: seq<Payload>, updated0: map<U64, int>,
                                       reports: seq<Report>, r: Report)
    requires WellKeyed(table0) && r.id in table0 && Handled(reports, table0.Keys) == reports
    ensures ReachedBy(table0, sent0, updated0, reports + [r],
                      Apply(ReportedTable(table0, reports), r), sent0 + Payloads(reports) + [PayloadOf(r)],
                      Stamps(updated0, reports)[r.id := r.now])
  {
    HandledSnoc(reports, r, table0.Keys);
    ReportedSnoc(table0, reports, r);
    PayloadsSnoc(reports, r);
    assert (reports + [r])[..|reports|] == reports;
    assert sent0 + Payloads(reports) + [PayloadOf(r)] == sent0 + Payloads(reports + [r]);
  }

  lemma {:induction false} PayloadsSnoc(reports: seq<Report>, r: Report)
    ensures Payloads(reports + [r]) == Payloads(reports) + [PayloadOf(r)]
  {
  }

  lemma {:induction false} ReportsExtend(first: Sysmsg, rounds: seq<Receipt>, k: nat)
    requires k <= |rounds|
    ensures Reports(first, rounds[..k]) <= Reports(first, rounds)
  {
    if k < |rounds| {
      ReportsExtend(first, rounds[..|rounds| - 1], k);
      assert rounds[..|rounds| - 1][..k] == rounds[..k];
    } else {
      assert rounds[..k] == rounds;
    }
  }

  /** Later reports do not matter once an unknown robot has stopped the loop. */
  lemma {:induction false} HandledExtend(shorter: seq<Report>, longer: seq<Report>, known: set<U64>)
    requires shorter <= longer && |Handled(shorter, known)| < |shorter|
    ensures Handled(longer, known) == Handled(shorter, known)
  {
    if shorter[0].id in known {
      HandledExtend(shorter[1..], longer[1..], known);
    }
  }

  /**
   Each message agrees with the store at the moment it is sent: after the report that causes it, the
   robot's record carries exactly the host name and temperature of the message, and so does every
   other robot's record carry those of the last message sent for it.
   */
  lemma {:induction false} StoreAgreesWithMessages(table: Table, reports: seq<Report>, k: nat, id: U64)
    requires WellKeyed(table) && k <= |reports|
    requires Handled(reports, table.Keys) == reports
    requires id in table
    ensures var ps, t := Payloads(reports[..k]), ReportedTable(table, reports[..k]);
            && (k > 0 && ps[k - 1].robotId == id ==>
                  t[id].hostname == ps[k - 1].hostname && t[id].temperature == ps[k - 1].temperature)
            && (match LastPayload(ps, id)
                case None => t[id] == table[id]
                case Some(p) => t[id] == table[id].(hostname := p.hostname, temperature := p.temperature))
  {
    if k > 0 {
      assert reports[..k][..k - 1] == reports[..k - 1];
      assert Payloads(reports[..k])[..k - 1] == Payloads(reports[..k - 1]);
      StoreAgreesWithMessages(table, reports, k - 1, id);
    }
  }

  /** The last message about a robot in a sequence of messages. */
  function LastPayload(ps: seq<Payload>, id: nat): Option<Payload> {
    if ps == [] then None
    else if ps[|ps| - 1].robotId == id then Some(ps[|ps| - 1])
    else LastPayload(ps[..|ps| - 1], id)
  }

  /** A short frame reports once more what the message before it said. */
  lemma {:induction false} ShortFrameRepeats(first: Sysmsg, rounds: seq<Receipt>, k: nat)
    requires k < |rounds| && |rounds[k].bytes| < SYSMSG_LEN
    ensures LastMessage(first, rounds[..k + 1]) == LastMessage(first, rounds[..k])
    ensures Reports(first, rounds[..k + 1]) ==
            Reports(first, rounds[..k]) + ReportOf(LastMessage(first, rounds[..k]), rounds[k])
  {
    assert rounds[..k + 1][..k] == rounds[..k];
  }

  /** On full-length frames the reports are those of the frames themselves, the first message being irrelevant. */
  lemma {:induction false} FullFramesStandAlone(first: Sysmsg, rounds: seq<Receipt>, k: nat)
    requires k < |rounds| && |rounds[k].bytes| >= SYSMSG_LEN
    ensures LastMessage(first, rounds[..k + 1]) == DecodeSysmsg(rounds[k].bytes)
    ensures Reports(first, rounds[..k + 1]) ==
            Reports(first, rounds[..k]) + ReportOf(DecodeSysmsg(rounds[k].bytes), rounds[k])
  {
    assert rounds[..k + 1][..k] == rounds[..k];
  }

  /** A frame encoding a report, whatever its padding and trailing bytes, is read back as that report. */
  lemma {:induction false} EncodedReportIsRead(info: RobotInfo, padding: Data, trailing: seq<Byte>,
                                               host: string, now: int)
    ensures var frame := EncodeSysmsg(Sysmsg(MESSAGE_ID_INFO, CopyInto(padding, EncodeInfo(info)))) + trailing;
            |frame| >= SYSMSG_LEN &&
            ReportOf(DecodeSysmsg(frame), Receipt(frame, host, now)) ==
            [Report(info.id, ToDecimal(info.temperature), host, now)]
  {
    var m := Sysmsg(MESSAGE_ID_INFO, CopyInto(padding, EncodeInfo(info)));
    SysmsgCodecInverse(m, EncodeSysmsg(m), trailing);
    InfoSurvivesPadding(info, padding, EncodeInfo(info));
  }

  /**
   What a full-length frame reports, byte by byte: nothing unless its first word is 1; else the robot whose
   id is the second word, with the temperature found after the 32 bytes of host name, as decimal text.
   */
  lemma FrameBytesReport(b: seq<Byte>, r: Receipt)
    requires |b| >= SYSMSG_LEN
    ensures ReportOf(DecodeSysmsg(b), r) ==
            if b[0] == 1 && b[1] == b[2] == b[3] == 0
            then [Report(WordAt(b, 4), ToDecimal(WordAt(b, 40)), r.host, r.now)]
            else []
  {
    var data := DecodeSysmsg(b).data;
    assert data[..4] == b[4..8] && data[36..40] == b[40..44];
    assert GetU32(b[4..8]) == WordAt(b, 4) && GetU32(b[40..44]) == WordAt(b, 40);
    assert GetU32(b[..4]) == WordAt(b, 0);
  }
}
