/** The little-endian layouts exchanged over the POSIX queues. */
module Wire {

  type Byte = x: int | 0 <= x < 0x100
  type U32 = x: int | 0 <= x < 0x1_0000_0000

  const MESSAGE_DATA_LEN: nat := 50
  const HOSTNAME_LEN: nat := 32
  const SYSMSG_LEN: nat := 54
  const INFO_LEN: nat := 40
  const MOTOR_LEN: nat := 8

  const MESSAGE_ID_INFO: U32 := 1
  const MESSAGE_ID_ENGINE: U32 := 2

  type Data = s: seq<Byte> | |s| == MESSAGE_DATA_LEN witness seq(MESSAGE_DATA_LEN, _ => 0)
  type Host = s: seq<Byte> | |s| == HOSTNAME_LEN witness seq(HOSTNAME_LEN, _ => 0)

  datatype Sysmsg = Sysmsg(cmd: U32, data: Data)
  datatype RobotInfo = RobotInfo(id: U32, hostname: Host, temperature: U32)
  datatype MotorControl = MotorControl(id: U32, speed: U32)

  const ZEROS: Data := seq(MESSAGE_DATA_LEN, _ => 0)
  const ZERO_SYSMSG := Sysmsg(0, ZEROS)

  function PutU32(n: U32): (b: seq<Byte>)
    ensures |b| == 4
  {
    [n % 0x100, n / 0x100 % 0x100, n / 0x1_0000 % 0x100, n / 0x100_0000]
  }

  function GetU32(b: seq<Byte>): U32
    requires |b| == 4
  {
    var b0: int, b1: int, b2: int, b3: int := b[0], b[1], b[2], b[3];
    b0 + 0x100 * b1 + 0x1_0000 * b2 + 0x100_0000 * b3
  }

  lemma {:induction false} U32RoundTrip(n: U32)
    ensures GetU32(PutU32(n)) == n
  {
    var a := n / 0x100;
    var b := a / 0x100;
    assert n / 0x1_0000 == b && n / 0x100_0000 == b / 0x100;
    assert n == n % 0x100 + 0x100 * a && a == a % 0x100 + 0x100 * b && b == b % 0x100 + 0x100 * (b / 0x100);
  }

  lemma {:induction false} BytesRoundTrip(b: seq<Byte>)
    requires |b| == 4
    ensures PutU32(GetU32(b)) == b
  {
    var n := GetU32(b);
    var b1: int, b2: int, b3: int := b[1], b[2], b[3];
    assert n / 0x100 == b1 + 0x100 * b2 + 0x1_0000 * b3;
    assert n / 0x1_0000 == b2 + 0x100 * b3;
    assert n / 0x100_0000 == b3;
  }

  /** The 32-bit word at position i, least significant byte first. */
  function WordAt(b: seq<Byte>, i: nat): int
    requires i + 4 <= |b|
  {
    b[i] as int + 0x100 * b[i + 1] as int + 0x1_0000 * b[i + 2] as int + 0x100_0000 * b[i + 3] as int
  }

  function EncodeSysmsg(m: Sysmsg): (b: seq<Byte>)
    ensures |b| == SYSMSG_LEN
  {
    PutU32(m.cmd) + m.data
  }

  /** binary.Read takes the leading 54 bytes and leaves any that follow. */
  function DecodeSysmsg(b: seq<Byte>): Sysmsg
    requires |b| >= SYSMSG_LEN
  {
    Sysmsg(GetU32(b[..4]), b[4..54])
  }

  function EncodeInfo(i: RobotInfo): (b: seq<Byte>)
    ensures |b| == INFO_LEN
  {
    PutU32(i.id) + i.hostname + PutU32(i.temperature)
  }

  function DecodeInfo(b: seq<Byte>): RobotInfo
    requires |b| >= INFO_LEN
  {
    RobotInfo(GetU32(b[..4]), b[4..36], GetU32(b[36..40]))
  }

  function EncodeMotor(m: MotorControl): (b: seq<Byte>)
    ensures |b| == MOTOR_LEN
  {
    PutU32(m.id) + PutU32(m.speed)
  }

  function DecodeMotor(b: seq<Byte>): MotorControl
    requires |b| >= MOTOR_LEN
  {
    MotorControl(GetU32(b[..4]), GetU32(b[4..8]))
  }

  /** Go's copy into a 50-byte array: the prefix is replaced, the rest stays. */
  function CopyInto(data: Data, b: seq<Byte>): Data
    requires |b| <= MESSAGE_DATA_LEN
  {
    b + data[|b|..]
  }

  /** Decoding inverts encoding, and every 54-byte frame is the encoding of what it decodes to. */
  lemma {:induction false} SysmsgCodecInverse(m: Sysmsg, b: seq<Byte>, trailing: seq<Byte>)
    requires |b| == SYSMSG_LEN
    ensures DecodeSysmsg(EncodeSysmsg(m) + trailing) == m
    ensures EncodeSysmsg(DecodeSysmsg(b)) == b
  {
    var e := EncodeSysmsg(m) + trailing;
    assert e[..4] == PutU32(m.cmd) && e[4..54] == m.data;
    U32RoundTrip(m.cmd);
    BytesRoundTrip(b[..4]);
    assert b == b[..4] + b[4..54];
  }

  /** A 40-byte robot record put into the payload comes back whatever padding follows it; decoding is
      injective on the record's bytes. */
  lemma InfoSurvivesPadding(i: RobotInfo, padding: Data, b: seq<Byte>)
    requires |b| == INFO_LEN
    ensures DecodeInfo(CopyInto(padding, EncodeInfo(i))) == i
    ensures EncodeInfo(DecodeInfo(b)) == b
  {
    var d := CopyInto(padding, EncodeInfo(i));
    assert d[..4] == PutU32(i.id) && d[4..36] == i.hostname && d[36..40] == PutU32(i.temperature);
    U32RoundTrip(i.id);
    U32RoundTrip(i.temperature);
    BytesRoundTrip(b[..4]);
    BytesRoundTrip(b[36..40]);
    assert b == b[..4] + b[4..36] + b[36..40];
  }

  /** An 8-byte motor command put into the payload comes back whatever padding follows it. */
  lemma {:induction false} MotorSurvivesPadding(m: MotorControl, padding: Data, b: seq<Byte>)
    requires |b| == MOTOR_LEN
    ensures DecodeMotor(CopyInto(padding, EncodeMotor(m))) == m
    ensures EncodeMotor(DecodeMotor(b)) == b
  {
    var d := CopyInto(padding, EncodeMotor(m));
    assert d[..4] == PutU32(m.id) && d[4..8] == PutU32(m.speed);
    U32RoundTrip(m.id);
    U32RoundTrip(m.speed);
    BytesRoundTrip(b[..4]);
    BytesRoundTrip(b[4..8]);
    assert b == b[..4] + b[4..8];
  }

  /** The queue towards the system server; `sent` logs the frames handed to it. */
  class SendQueue {
    var sent: seq<seq<Byte>>

    constructor ()
      ensures sent == []
    {
      sent := [];
    }
  }

  /** A frame that carries an engine command for this motor and speed, zero-padded. */
  predicate IsEngineFrame(frame: seq<Byte>, motorId: U32, speed: U32) {
    && |frame| == SYSMSG_LEN
    && DecodeSysmsg(frame).cmd == MESSAGE_ID_ENGINE
    && DecodeMotor(DecodeSysmsg(frame).data) == MotorControl(motorId, speed)
    && forall i :: MOTOR_LEN <= i < MESSAGE_DATA_LEN ==> DecodeSysmsg(frame).data[i] == 0
  }

  /** Byte by byte: message 2, the motor, the speed, each least significant byte first, and zeros to the end. */
  lemma EngineFrameBytes(frame: seq<Byte>, motorId: U32, speed: U32)
    requires |frame| == SYSMSG_LEN
    ensures IsEngineFrame(frame, motorId, speed) <==>
            && frame[0] == 2 && frame[1] == frame[2] == frame[3] == 0
            && WordAt(frame, 4) == motorId && WordAt(frame, 8) == speed
            && forall i :: 12 <= i < 54 ==> frame[i] == 0
  {
    var data := DecodeSysmsg(frame).data;
    assert forall i :: 0 <= i < 50 ==> data[i] == frame[i + 4];
    assert forall i :: 12 <= i < 54 ==> frame[i] == data[i - 4];
    assert DecodeMotor(data) == MotorControl(WordAt(frame, 4), WordAt(frame, 8));
  }

  /** A zeroed payload array with the bytes copied to its front. */
  method FillPayload(buf: seq<Byte>) returns (data: Data)
    requires |buf| <= MESSAGE_DATA_LEN
    ensures data == CopyInto(ZEROS, buf)
  {
    var a := new Byte[50](_ => 0);
    for i := 0 to |buf|
      invariant a[..i] == buf[..i]
      invariant forall k :: i <= k < 50 ==> a[k] == 0
    {
      a[i] := buf[i];
    }
    data := a[..];
    assert data[..|buf|] == buf;
  }

  lemma {:induction false} EngineFrameDecodes(motorId: U32, speed: U32)
    ensures var data := CopyInto(ZEROS, EncodeMotor(MotorControl(motorId, speed)));
            IsEngineFrame(EncodeSysmsg(Sysmsg(MESSAGE_ID_ENGINE, data)), motorId, speed)
  {
    var motor := MotorControl(motorId, speed);
    var msg := Sysmsg(MESSAGE_ID_ENGINE, CopyInto(ZEROS, EncodeMotor(motor)));
    var frame := EncodeSysmsg(msg);
    SysmsgCodecInverse(msg, frame, []);
    assert frame + [] == frame;
    MotorSurvivesPadding(motor, ZEROS, EncodeMotor(motor));
  }

  /**
   Nothing is sent when the queue does not open. Otherwise one 54-byte frame goes out whose reader,
   decoding it the way the layouts are decoded above, gets the engine command back.
   */
  method SendEngineMessage(queue: SendQueue, openOk: bool, motorId: U32, speed: U32)
    modifies queue
    ensures !openOk ==> queue.sent == old(queue.sent)
    ensures openOk ==>
              && |queue.sent| == |old(queue.sent)| + 1
              && queue.sent[..|old(queue.sent)|] == old(queue.sent)
              && IsEngineFrame(queue.sent[|old(queue.sent)|], motorId, speed)
  {
    if !openOk {
      return;
    }
    var data := FillPayload(EncodeMotor(MotorControl(motorId, speed)));
    EngineFrameDecodes(motorId, speed);
    queue.sent := queue.sent + [EncodeSysmsg(Sysmsg(MESSAGE_ID_ENGINE, data))];
  }
}
