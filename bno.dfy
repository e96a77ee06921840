/** The BNO055 driver: UART command frames, the bounded retry loops of DigitalRead and
    DigitalWrite, decoding of little-endian int16 axis data and its integer scaling, the
    axis-remap choice of Setup and the kind-to-mode/name mapping of GetReading. The UART
    itself is an input: one Reply per attempt. */
module Bno {
  import opened Common
  import opened Defines
  import opened Templates
  import opened Event

  // ---------------------------------------------------------------------------------------
  // Command frames

  const FRAME_START: byte := 0xAA
  const CMD_WRITE: byte := 0x00
  const CMD_READ: byte := 0x01

  /** Response header of a successful read, and of an error response. */
  const READ_SUCCESS: int := 0xBB
  const ERROR_HEADER: int := 0xEE
  /** Status byte of a successful write. */
  const WRITE_SUCCESS: int := 0x01

  /** Statuses after which the loops try again: maybe a serial issue. */
  const READ_RETRY: seq<int> := [0x02, 0x06, 0x07, 0x0A]
  const WRITE_RETRY: seq<int> := [0x03, 0x06, 0x07, 0x0A]

  /** The read command DigitalRead writes. */
  function ReadFrame(reg: byte, len: byte): seq<byte>
  {
    [FRAME_START, CMD_READ, reg, len]
  }

  /** The write command DigitalWrite writes: the header and `len` bytes copied from the
      one-byte `value`, so `len` can be at most 1. */
  function WriteFrame(reg: byte, value: byte, len: byte): seq<byte>
    requires len <= 1
  {
    [FRAME_START, CMD_WRITE, reg, len] + [value][..len]
  }

  /** A command as the chip reads it off the wire. */
  datatype Command = ReadCommand(reg: byte, len: byte) | WriteCommand(reg: byte, payload: seq<byte>)

  function ParseCommand(f: seq<byte>): Option<Command>
  {
    if |f| < 4 || f[0] != FRAME_START then None
    else if f[1] == CMD_READ && |f| == 4 then Some(ReadCommand(f[2], f[3]))
    else if f[1] == CMD_WRITE && |f| == 4 + f[3] as int then Some(WriteCommand(f[2], f[4..]))
    else None
  }

  /** Both frames read back as the command they encode. */
  lemma FramesParse(reg: byte, value: byte, len: byte)
    ensures ParseCommand(ReadFrame(reg, len)) == Some(ReadCommand(reg, len))
    ensures len == 1 ==> ParseCommand(WriteFrame(reg, value, len)) == Some(WriteCommand(reg, [value]))
  {
    if len == 1 {
      assert WriteFrame(reg, value, len)[4..] == [value];
    }
  }

  // ---------------------------------------------------------------------------------------
  // The retry loops

  /** What one uart_read_bytes call left: nothing (timeout) or the contents of the response
      buffer after a read of at least one byte. */
  datatype Reply = Timeout | Received(data: seq<byte>)

  predicate RepliesOfWidth(replies: seq<Reply>, width: nat)
  {
    forall k :: 0 <= k < |replies| && replies[k].Received? ==> |replies[k].data| == width
  }

  /** How a read attempt sets `result`: 0xBB on a success header, the status byte on an
      error header, unchanged on any other header. */
  function ReadStatus(d: seq<byte>, result: int): int
    requires |d| >= 2
  {
    if d[0] as int == READ_SUCCESS then READ_SUCCESS
    else if d[0] as int == ERROR_HEADER then d[1] as int
    else result
  }

  /** The result of DigitalRead's loop: the final `result`, the bytes copied into the
      caller's buffer if any, and the number of attempts made. */
  datatype ReadOutcome = ReadOutcome(result: int, copied: Option<seq<byte>>, attempts: nat)

  /** DigitalRead's loop from attempt `i` on, with `result` as it stands. */
  function ReadAttempts(len: byte, replies: seq<Reply>, loopCount: int, i: nat, result: int): ReadOutcome
    requires RepliesOfWidth(replies, len as int + 2) && loopCount <= |replies|
    decreases loopCount - i
  {
    if i >= loopCount then ReadOutcome(result, None, i)
    else match replies[i]
      case Timeout => ReadAttempts(len, replies, loopCount, i + 1, result)
      case Received(d) =>
        var r := ReadStatus(d, result);
        if CompareTo(r, [READ_SUCCESS]) then
          ReadOutcome(r, if d[0] as int == READ_SUCCESS then Some(d[2..]) else None, i + 1)
        else if CompareTo(r, READ_RETRY) then ReadAttempts(len, replies, loopCount, i + 1, r)
        else ReadOutcome(r, None, i + 1)
  }

  /** DigitalRead: sends the read frame up to `loopCount` times. A success response copies
      `len` data bytes into `buff` and ends the loop; an error response ends it unless its
      status is a retry status; a timeout just uses up the attempt. */
  method DigitalRead(reg: byte, buff: array<byte>, len: byte, loopCount: int, replies: seq<Reply>)
    returns (result: int, frame: seq<byte>)
    requires len as int <= buff.Length
    requires RepliesOfWidth(replies, len as int + 2) && loopCount <= |replies|
    modifies buff
    ensures frame == ReadFrame(reg, len)
    ensures result == ReadAttempts(len, replies, loopCount, 0, 0).result
    ensures var copied := ReadAttempts(len, replies, loopCount, 0, 0).copied;
            buff[..] == if copied.Some? then copied.value + old(buff[len..]) else old(buff[..])
  {
    result := 0;
    frame := ReadFrame(reg, len);
    var i := 0;
    while i < loopCount
      invariant 0 <= i
      invariant ReadAttempts(len, replies, loopCount, i, result) == ReadAttempts(len, replies, loopCount, 0, 0)
      invariant buff[..] == old(buff[..])
    {
      if replies[i].Received? {
        var data := replies[i].data;
        if data[0] as int == READ_SUCCESS {
          forall k | 0 <= k < len as int {
            buff[k] := data[2 + k];
          }
          assert buff[..] == data[2..] + old(buff[len..]);
          result := data[0] as int;
        } else if data[0] as int == ERROR_HEADER {
          result := data[1] as int;
        }
        if CompareTo(result, [READ_SUCCESS]) {
          break;
        } else if CompareTo(result, READ_RETRY) {
          i := i + 1;
          continue;
        } else {
          break;
        }
      }
      i := i + 1;
    }
  }

  /** DigitalRead's loop makes at most `loopCount` attempts; it copies only on a success
      header, and then the result is 0xBB and `len` bytes are copied. */
  lemma {:induction false} ReadAttemptsBounded(len: byte, replies: seq<Reply>, loopCount: int, i: nat, result: int)
    requires RepliesOfWidth(replies, len as int + 2) && loopCount <= |replies|
    ensures var o := ReadAttempts(len, replies, loopCount, i, result);
            i <= o.attempts && (i < loopCount ==> o.attempts <= loopCount) &&
            (o.copied.Some? ==> o.result == READ_SUCCESS && |o.copied.value| == len as int)
    decreases loopCount - i
  {
    if i < loopCount {
      var r := ReadStatus(if replies[i].Received? then replies[i].data else [0, 0], result);
      if replies[i].Timeout? || (!CompareTo(r, [READ_SUCCESS]) && CompareTo(r, READ_RETRY)) {
        ReadAttemptsBounded(len, replies, loopCount, i + 1, if replies[i].Timeout? then result else r);
      }
    }
  }

  /** When every remaining attempt times out, the loop runs out its attempts, copies
      nothing and leaves `result` as it was. */
  lemma {:induction false} ReadAllTimeouts(len: byte, replies: seq<Reply>, loopCount: int, i: nat, result: int)
    requires RepliesOfWidth(replies, len as int + 2) && loopCount <= |replies|
    requires i <= loopCount
    requires forall k :: i <= k < loopCount ==> replies[k].Timeout?
    ensures ReadAttempts(len, replies, loopCount, i, result) == ReadOutcome(result, None, loopCount)
    decreases loopCount - i
  {
    if i < loopCount {
      ReadAllTimeouts(len, replies, loopCount, i + 1, result);
    }
  }

  /** The loop stops before its last attempt only on a received response whose status is
      not a retry status. */
  lemma {:induction false} ReadStopsEarlyOnlyOnFinalStatus(len: byte, replies: seq<Reply>, loopCount: int, i: nat, result: int)
    requires RepliesOfWidth(replies, len as int + 2) && loopCount <= |replies|
    requires i <= loopCount
    ensures var o := ReadAttempts(len, replies, loopCount, i, result);
            o.attempts < loopCount ==>
              i < o.attempts && replies[o.attempts - 1].Received? && !CompareTo(o.result, READ_RETRY)
    decreases loopCount - i
  {
    if i < loopCount {
      var r := ReadStatus(if replies[i].Received? then replies[i].data else [0, 0], result);
      if replies[i].Timeout? || (!CompareTo(r, [READ_SUCCESS]) && CompareTo(r, READ_RETRY)) {
        ReadStopsEarlyOnlyOnFinalStatus(len, replies, loopCount, i + 1, if replies[i].Timeout? then result else r);
      }
    }
  }

  /** The converse: after timeouts and error responses with a retry status, a success
      header, or an error header with any other status, ends the loop at that attempt. A
      success copies that response's data bytes; an error copies nothing. */
  lemma {:induction false} ReadStopsAtFirstFinal(len: byte, replies: seq<Reply>, loopCount: int, i: nat, result: int, j: nat)
    requires RepliesOfWidth(replies, len as int + 2) && loopCount <= |replies|
    requires i <= j < loopCount
    requires forall k :: i <= k < j ==>
               replies[k].Timeout? || (replies[k].data[0] as int == ERROR_HEADER && replies[k].data[1] as int in READ_RETRY)
    requires replies[j].Received?
    requires replies[j].data[0] as int == READ_SUCCESS ||
             (replies[j].data[0] as int == ERROR_HEADER && replies[j].data[1] as int !in READ_RETRY)
    ensures var d := replies[j].data;
            ReadAttempts(len, replies, loopCount, i, result) ==
              if d[0] as int == READ_SUCCESS then ReadOutcome(READ_SUCCESS, Some(d[2..]), j + 1)
              else ReadOutcome(d[1] as int, None, j + 1)
    decreases j - i
  {
    if i < j {
      ReadStopsAtFirstFinal(len, replies, loopCount, i + 1, if replies[i].Timeout? then result else replies[i].data[1] as int, j);
    }
  }

  /** DigitalWrite's loop from attempt `i` on: the result is the status byte of the last
      response received. */
  datatype WriteOutcome = WriteOutcome(result: int, attempts: nat)

  function WriteAttempts(replies: seq<Reply>, loopCount: int, i: nat, result: int): WriteOutcome
    requires RepliesOfWidth(replies, 2) && loopCount <= |replies|
    decreases loopCount - i
  {
    if i >= loopCount then WriteOutcome(result, i)
    else match replies[i]
      case Timeout => WriteAttempts(replies, loopCount, i + 1, result)
      case Received(d) =>
        var r := d[1] as int;
        if CompareTo(r, [WRITE_SUCCESS]) then WriteOutcome(r, i + 1)
        else if CompareTo(r, WRITE_RETRY) then WriteAttempts(replies, loopCount, i + 1, r)
        else WriteOutcome(r, i + 1)
  }

  /** DigitalWrite: sends the write frame up to `loopCount` times; status 0x01 ends the loop,
      a retry status or a timeout tries again, any other status ends it. */
  method DigitalWrite(reg: byte, value: byte, len: byte, loopCount: int, replies: seq<Reply>)
    returns (result: int, frame: seq<byte>)
    requires len <= 1
    requires RepliesOfWidth(replies, 2) && loopCount <= |replies|
    ensures frame == WriteFrame(reg, value, len)
    ensures result == WriteAttempts(replies, loopCount, 0, 0).result
  {
    result := 0;
    frame := WriteFrame(reg, value, len);
    var i := 0;
    while i < loopCount
      invariant 0 <= i
      invariant WriteAttempts(replies, loopCount, i, result) == WriteAttempts(replies, loopCount, 0, 0)
    {
      if replies[i].Received? {
        result := replies[i].data[1] as int;
        if CompareTo(result, [WRITE_SUCCESS]) {
          break;
        } else if CompareTo(result, WRITE_RETRY) {
          i := i + 1;
          continue;
        } else {
          break;
        }
      }
      i := i + 1;
    }
  }

  /** DigitalWrite's loop makes at most `loopCount` attempts and stops before the last one
      only on a received status that is not a retry status (success included). */
  lemma {:induction false} WriteAttemptsBounded(replies: seq<Reply>, loopCount: int, i: nat, result: int)
    requires RepliesOfWidth(replies, 2) && loopCount <= |replies|
    requires i <= loopCount
    ensures var o := WriteAttempts(replies, loopCount, i, result);
            i <= o.attempts <= loopCount &&
            (o.attempts < loopCount ==>
               i < o.attempts && replies[o.attempts - 1].Received? && o.result == replies[o.attempts - 1].data[1] as int &&
               !CompareTo(o.result, WRITE_RETRY))
    decreases loopCount - i
  {
    if i < loopCount {
      if replies[i].Timeout? {
        WriteAttemptsBounded(replies, loopCount, i + 1, result);
      } else {
        var r := replies[i].data[1] as int;
        if !CompareTo(r, [WRITE_SUCCESS]) && CompareTo(r, WRITE_RETRY) {
          WriteAttemptsBounded(replies, loopCount, i + 1, r);
        }
      }
    }
  }

  /** The converse: after timeouts and responses with a retry status, a response with any
      other status (0x01 included) ends the loop at that attempt with that status. */
  lemma {:induction false} WriteStopsAtFirstFinal(replies: seq<Reply>, loopCount: int, i: nat, result: int, j: nat)
    requires RepliesOfWidth(replies, 2) && loopCount <= |replies|
    requires i <= j < loopCount
    requires forall k :: i <= k < j ==> replies[k].Timeout? || replies[k].data[1] as int in WRITE_RETRY
    requires replies[j].Received? && replies[j].data[1] as int !in WRITE_RETRY
    ensures WriteAttempts(replies, loopCount, i, result) == WriteOutcome(replies[j].data[1] as int, j + 1)
    decreases j - i
  {
    if i < j {
      WriteStopsAtFirstFinal(replies, loopCount, i + 1, if replies[i].Timeout? then result else replies[i].data[1] as int, j);
    }
  }

  // ---------------------------------------------------------------------------------------
  // Axis data

  /** A uint16 assigned to an int16: values from 0x8000 up wrap to negative. */
  function ToInt16(u: int): (v: int)
    requires 0 <= u < 0x10000
    ensures -0x8000 <= v < 0x8000
    ensures (v - u) % 0x10000 == 0
  {
    if u >= 0x8000 then u - 0x10000 else u
  }

  /** Axis `k` of a data block: the int16 whose low byte comes first. */
  function AxisAt(b: seq<byte>, k: nat): (v: int)
    requires 2 * k + 1 < |b|
    ensures -0x8000 <= v < 0x8000
  {
    ToInt16(b[2 * k + 1] as int * 0x100 + b[2 * k] as int)
  }

  /** The two bytes, least significant first, of an int16 in two's complement. */
  function LittleEndian(v: int): (b: seq<byte>)
    requires -0x8000 <= v < 0x8000
    ensures |b| == 2
  {
    var u := if v < 0 then v + 0x10000 else v;
    [(u % 0x100) as byte, (u / 0x100) as byte]
  }

  /** Decoding is the inverse of little-endian two's-complement encoding, both ways. */
  lemma Int16RoundTrip(v: int, b: seq<byte>)
    requires -0x8000 <= v < 0x8000 && |b| == 2
    ensures AxisAt(LittleEndian(v), 0) == v
    ensures LittleEndian(AxisAt(b, 0)) == b
  {
  }

  /** An int16 divided by a double and stored back into an int16: the conversion truncates
      toward zero. */
  function TruncDiv(x: int, d: int): (q: int)
    requires d > 0
    ensures x >= 0 ==> q >= 0 && q * d <= x < (q + 1) * d
    ensures x < 0 ==> q <= 0 && -q * d <= -x < (-q + 1) * d
  {
    if x >= 0 then
      DivBounds(x, d);
      x / d
    else
      DivBounds(-x, d);
      -((-x) / d)
  }

  /** Euclidean division of a natural number brackets it between two multiples. */
  lemma DivBounds(x: nat, d: int)
    requires d > 0
    ensures x / d >= 0 && (x / d) * d <= x < (x / d + 1) * d
  {
    var q, r := x / d, x % d;
    assert x == q * d + r && 0 <= r < d;
    assert (q + 1) * d == q * d + d;
  }

  /** ReadVector's unit divisor: 16 LSB per unit for the magnetometer, gyroscope and Euler
      angles, 100 for the accelerations; the QUATERNION case is left unscaled. */
  function Divisor(kind: VectorType): (d: int)
    ensures d > 0
    ensures kind in {Magnetometer, Gyroscope, Euler} ==> d == 16
    ensures kind in {Accelerometer, LinearAccel, Gravity} ==> d == 100
    ensures kind == QuaternionData ==> d == 1
  {
    match kind
    case Magnetometer | Gyroscope | Euler => 16
    case Accelerometer | LinearAccel | Gravity => 100
    case QuaternionData => 1
  }

  /** The three scaled axes ReadVector stores, from the six bytes in its buffer. */
  function VectorAxes(kind: VectorType, b: seq<byte>): (axes: seq<int>)
    requires |b| == 6
    ensures |axes| == 3
    ensures forall k :: 0 <= k < 3 ==> axes[k] == TruncDiv(AxisAt(b, k), Divisor(kind))
    ensures forall k :: 0 <= k < 3 ==> -0x8000 <= axes[k] < 0x8000
  {
    var d := Divisor(kind);
    [TruncDiv(AxisAt(b, 0), d), TruncDiv(AxisAt(b, 1), d), TruncDiv(AxisAt(b, 2), d)]
  }

  /** The contents of a zeroed `width`-byte buffer after a DigitalRead into it. */
  function BlockAfterRead(width: byte, replies: seq<Reply>, loopCount: int): (b: seq<byte>)
    requires RepliesOfWidth(replies, width as int + 2) && loopCount <= |replies|
    ensures |b| == width as int
  {
    ReadAttemptsBounded(width, replies, loopCount, 0, 0);
    var o := ReadAttempts(width, replies, loopCount, 0, 0);
    if o.copied.Some? then o.copied.value else seq(width, _ => 0)
  }

  /** A zeroed buffer of exactly `width` bytes, after DigitalRead, is BlockAfterRead. */
  lemma ZeroedBufferAfterRead(width: byte, replies: seq<Reply>, loopCount: int, before: seq<byte>, after: seq<byte>)
    requires RepliesOfWidth(replies, width as int + 2) && loopCount <= |replies|
    requires |before| == width as int && forall k :: 0 <= k < |before| ==> before[k] == 0
    requires var copied := ReadAttempts(width, replies, loopCount, 0, 0).copied;
             after == if copied.Some? then copied.value + before[width..] else before
    ensures after == BlockAfterRead(width, replies, loopCount)
  {
    ReadAttemptsBounded(width, replies, loopCount, 0, 0);
    assert before[width..] == [];
  }

  /** ReadVector: reads the kind's six data bytes into a zeroed buffer, decodes three axes
      and scales them. */
  method ReadVector(kind: VectorType, loopCount: int, replies: seq<Reply>) returns (q: Quaternion)
    requires RepliesOfWidth(replies, 8) && loopCount <= |replies|
    ensures fresh(q) && !q.isQuaternion
    ensures var axes := VectorAxes(kind, BlockAfterRead(6, replies, loopCount));
            q.x == axes[0] as real && q.y == axes[1] as real && q.z == axes[2] as real
  {
    var buffer := new byte[6];
    ZeroMemory(buffer, 6);
    ghost var zeroed := buffer[..];
    var _, _ := DigitalRead(kind.Code(), buffer, 6, loopCount, replies);
    ZeroedBufferAfterRead(6, replies, loopCount, zeroed, buffer[..]);
    var axes := VectorAxes(kind, buffer[..]);
    q := new Quaternion.Vector(axes[0] as real, axes[1] as real, axes[2] as real);
  }

  /** ReadQuat: reads eight bytes from the quaternion block into a zeroed buffer and scales
      each int16 by 2^-14 (exact in a double). */
  method ReadQuat(loopCount: int, replies: seq<Reply>) returns (q: Quaternion)
    requires RepliesOfWidth(replies, 10) && loopCount <= |replies|
    ensures fresh(q) && q.isQuaternion
    ensures var b := BlockAfterRead(8, replies, loopCount);
            q.w == AxisAt(b, 0) as real / 16384.0 && q.x == AxisAt(b, 1) as real / 16384.0 &&
            q.y == AxisAt(b, 2) as real / 16384.0 && q.z == AxisAt(b, 3) as real / 16384.0
  {
    var buffer := new byte[8];
    ZeroMemory(buffer, 8);
    ghost var zeroed := buffer[..];
    var _, _ := DigitalRead(BNO_QUATERNION_DATA_W_LSB_ADDR, buffer, 8, loopCount, replies);
    ZeroedBufferAfterRead(8, replies, loopCount, zeroed, buffer[..]);
    var b := buffer[..];
    var w, x, y, z := AxisAt(b, 0), AxisAt(b, 1), AxisAt(b, 2), AxisAt(b, 3);
    ScaleIsDivision(w);
    ScaleIsDivision(x);
    ScaleIsDivision(y);
    ScaleIsDivision(z);
    q := new Quaternion.Full(QUAT_SCALE * w as real, QUAT_SCALE * x as real,
                             QUAT_SCALE * y as real, QUAT_SCALE * z as real);
  }

  /** The quaternion scale, 2^-14. */
  const QUAT_SCALE: real := 1.0 / 16384.0

  /** Multiplying by the quaternion scale divides by 16384. */
  lemma ScaleIsDivision(v: int)
    ensures QUAT_SCALE * v as real == v as real / 16384.0
  {
  }

  // ---------------------------------------------------------------------------------------
  // Setup

  /** One register write issued through DigitalWrite. */
  datatype RegWrite = RegWrite(reg: byte, value: byte)

  /** SetAxisSign's register value: the sign shifted left by the axis' bit position. */
  function AxisSignValue(sign: nat, axis: nat): (v: byte)
    requires sign <= 1 && axis <= 2
    ensures v == 0 <==> sign == 0
    ensures sign == 1 ==> v as int == if axis == AXIS_X then 4 else if axis == AXIS_Y then 2 else 1
  {
    (if axis == 0 then sign else if axis == 1 then 2 * sign else 4 * sign) as byte
  }

  /** SetAxisSign writes the whole sign register, not one bit of it. */
  function SetAxisSign(sign: nat, axis: nat): RegWrite
    requires sign <= 1 && axis <= 2
  {
    RegWrite(BNO_AXIS_MAP_SIGN_ADDR, AxisSignValue(sign, axis))
  }

  function SetAxisRemap(config: byte): RegWrite
  {
    RegWrite(BNO_AXIS_MAP_CONFIG_ADDR, config)
  }

  /** The axis configuration Setup chooses for the node's body location. */
  function AxisRemapWrites(location: byte): seq<RegWrite>
  {
    if location == LOC_CHEST then
      [SetAxisRemap(REMAP_SWITCH_YZ), SetAxisSign(REMAP_AXIS_NEGATIVE, AXIS_X)]
    else if location % 2 == 1 then
      [SetAxisRemap(REMAP_SHIFT_LEFT)]
    else
      [SetAxisRemap(REMAP_SHIFT_LEFT), SetAxisSign(REMAP_AXIS_NEGATIVE, AXIS_X),
       SetAxisSign(REMAP_AXIS_NEGATIVE, AXIS_Y)]
  }

  /** The value last written to `reg`, if any write to it was made. */
  function LastWrite(ws: seq<RegWrite>, reg: byte): Option<byte>
  {
    if ws == [] then None
    else if ws[|ws| - 1].reg == reg then Some(ws[|ws| - 1].value)
    else LastWrite(ws[..|ws| - 1], reg)
  }

  lemma {:induction false} LastWriteAppend(a: seq<RegWrite>, b: seq<RegWrite>, reg: byte)
    ensures LastWrite(a + b, reg) == if LastWrite(b, reg).Some? then LastWrite(b, reg) else LastWrite(a, reg)
    decreases |b|
  {
    if b != [] {
      assert (a + b)[..|a + b| - 1] == a + b[..|b| - 1];
      LastWriteAppend(a, b[..|b| - 1], reg);
    } else {
      assert a + b == a;
    }
  }

  datatype TestInfo = TestInfo(test: string, numTests: int)

  /** The fields of a BnoModule the rest of the firmware asks about. */
  datatype BnoModule = BnoModule(location: byte, deviceId: int, test: TestInfo)
  {
    /** The root node is the one configured with device id 1000. */
    predicate IsRoot() { deviceId == DEVICE_ID_ROOT }
    /** A node runs a test when its stored test name is not empty. */
    predicate IsTest() { test.test != "" }
    function GetTest(): TestInfo { test }
  }

  /** The inline queries of BnoModule read its fields and nothing else. */
  lemma BnoModuleQueries(m: BnoModule)
    ensures m.IsRoot() <==> m.deviceId == 1000
    ensures m.IsTest() <==> |m.test.test| > 0
    ensures m.GetTest() == m.test
  {
  }

  /** What Setup did: whether it succeeded, the module's configuration afterwards, and the
      register writes it issued in order. */
  datatype SetupResult = SetupResult(ok: bool, bno: BnoModule, writes: seq<RegWrite>)

  /** Setup(mode). `nvsOpened` is whether the device-config partition opened and `config`
      what ReadDeviceConfig read from it; `idReplies` are the UART replies to the one-byte
      chip-id read, whose buffer starts at 0. */
  function Setup(current: BnoModule, nvsOpened: bool, config: BnoModule,
                 idReplies: seq<Reply>, loopCount: int, mode: byte): (r: SetupResult)
    requires RepliesOfWidth(idReplies, 3) && loopCount <= |idReplies|
  {
    if !nvsOpened then SetupResult(false, current, [])
    else
      var id := BlockAfterRead(1, idReplies, loopCount)[0];
      var pageZero := [RegWrite(BNO_PAGE_ID_ADDR, 0)];
      if id != BNO_ID then SetupResult(false, config, pageZero)
      else
        SetupResult(true, config,
          pageZero +
          [RegWrite(BNO_OPR_MODE_ADDR, OPMODE_CONFIG), RegWrite(BNO_SYS_TRIGGER_ADDR, 0x20),
           RegWrite(BNO_PWR_MODE_ADDR, POWER_MODE_NORMAL), RegWrite(BNO_PAGE_ID_ADDR, 0)] +
          AxisRemapWrites(config.location) +
          [RegWrite(BNO_SYS_TRIGGER_ADDR, 0x00), RegWrite(BNO_OPR_MODE_ADDR, mode)])
  }

  /** A chip that does not answer with id 0xA0 fails Setup before any mode change. */
  lemma SetupChecksChipFirst(current: BnoModule, config: BnoModule, idReplies: seq<Reply>, loopCount: int, mode: byte)
    requires RepliesOfWidth(idReplies, 3) && loopCount <= |idReplies|
    requires BlockAfterRead(1, idReplies, loopCount)[0] != BNO_ID
    ensures var r := Setup(current, true, config, idReplies, loopCount, mode);
            !r.ok && LastWrite(r.writes, BNO_OPR_MODE_ADDR) == None
  {
  }

  /** A successful Setup leaves the remap register at SWITCH_YZ for the chest and at
      SHIFT_LEFT elsewhere; the sign register holds X negative for the chest, is not written
      for the right side, and holds only the Y bit for the left side, since each
      SetAxisSign overwrites the last. The operating mode ends as requested. */
  lemma {:induction false} SetupAxisConfiguration(current: BnoModule, config: BnoModule, idReplies: seq<Reply>, loopCount: int, mode: byte)
    requires RepliesOfWidth(idReplies, 3) && loopCount <= |idReplies|
    requires BlockAfterRead(1, idReplies, loopCount)[0] == BNO_ID
    ensures var r := Setup(current, true, config, idReplies, loopCount, mode);
            var loc := config.location;
            r.ok &&
            LastWrite(r.writes, BNO_AXIS_MAP_CONFIG_ADDR) == Some(if loc == LOC_CHEST then REMAP_SWITCH_YZ else REMAP_SHIFT_LEFT) &&
            LastWrite(r.writes, BNO_AXIS_MAP_SIGN_ADDR) ==
              (if loc == LOC_CHEST then Some(4) else if loc % 2 == 1 then None else Some(2)) &&
            LastWrite(r.writes, BNO_OPR_MODE_ADDR) == Some(mode)
  {
    var r := Setup(current, true, config, idReplies, loopCount, mode);
    var head := [RegWrite(BNO_PAGE_ID_ADDR, 0)] +
      [RegWrite(BNO_OPR_MODE_ADDR, OPMODE_CONFIG), RegWrite(BNO_SYS_TRIGGER_ADDR, 0x20),
       RegWrite(BNO_PWR_MODE_ADDR, POWER_MODE_NORMAL), RegWrite(BNO_PAGE_ID_ADDR, 0)];
    var remap := AxisRemapWrites(config.location);
    var tail := [RegWrite(BNO_SYS_TRIGGER_ADDR, 0x00), RegWrite(BNO_OPR_MODE_ADDR, mode)];
    assert r.writes == head + remap + tail;
    LastWriteAppend(head + remap, tail, BNO_AXIS_MAP_CONFIG_ADDR);
    LastWriteAppend(head + remap, tail, BNO_AXIS_MAP_SIGN_ADDR);
    LastWriteAppend(head + remap, tail, BNO_OPR_MODE_ADDR);
    LastWriteAppend(head, remap, BNO_AXIS_MAP_CONFIG_ADDR);
    LastWriteAppend(head, remap, BNO_AXIS_MAP_SIGN_ADDR);
    LastWriteAbsent(head, BNO_AXIS_MAP_CONFIG_ADDR);
    LastWriteAbsent(head, BNO_AXIS_MAP_SIGN_ADDR);
    LastWriteAbsent(tail, BNO_AXIS_MAP_CONFIG_ADDR);
    LastWriteAbsent(tail, BNO_AXIS_MAP_SIGN_ADDR);
    var config0 := SetAxisRemap(if config.location == LOC_CHEST then REMAP_SWITCH_YZ else REMAP_SHIFT_LEFT);
    assert remap[0] == config0;
    LastWriteAppend([config0], remap[1..], BNO_AXIS_MAP_CONFIG_ADDR);
    LastWriteAppend([config0], remap[1..], BNO_AXIS_MAP_SIGN_ADDR);
    assert [config0] + remap[1..] == remap;
    LastWriteAbsent(remap[1..], BNO_AXIS_MAP_CONFIG_ADDR);
    assert LastWrite([config0], BNO_AXIS_MAP_CONFIG_ADDR) == Some(config0.value);
    assert LastWrite([config0], BNO_AXIS_MAP_SIGN_ADDR) == None;
  }

  lemma {:induction false} LastWriteAbsent(ws: seq<RegWrite>, reg: byte)
    requires forall k :: 0 <= k < |ws| ==> ws[k].reg != reg
    ensures LastWrite(ws, reg) == None
  {
    if ws != [] {
      LastWriteAbsent(ws[..|ws| - 1], reg);
    }
  }

  // ---------------------------------------------------------------------------------------
  // GetReading

  /** The operating mode GetReading sets: AMG for the raw sensors, NDOF (fusion) otherwise. */
  function ReadingMode(kind: VectorType): byte
  {
    if kind in {Accelerometer, Magnetometer, Gyroscope} then OPMODE_AMG else OPMODE_NDOF
  }

  /** The name GetReading gives a reading. */
  function ReadingName(kind: VectorType): string
  {
    QuaternionNamedOneWay();
    if kind == QuaternionData then "Quaternion" else vectorToString[kind]
  }

  /** Every reading's name leads back to its kind through stringToVector, and the raw
      sensors are exactly the kinds read in AMG mode. */
  lemma ReadingNamesRoundTrip(kind: VectorType)
    ensures ReadingName(kind) in stringToVector && stringToVector[ReadingName(kind)] == kind
    ensures ReadingMode(kind) == OPMODE_AMG <==> kind in {Accelerometer, Magnetometer, Gyroscope}
  {
  }

  /** GetReading(kind), QUATERNION by default: a new event at the module's location, the
      mode switched for the kind, the object read by ReadQuat or ReadVector. */
  method GetReading(bno: BnoModule, loopCount: int, replies: seq<Reply>, kind: VectorType := QuaternionData)
    returns (e: SensorEvent, mode: byte)
    requires loopCount <= |replies|
    requires kind == QuaternionData ==> RepliesOfWidth(replies, 10)
    requires kind != QuaternionData ==> RepliesOfWidth(replies, 8)
    ensures fresh(e)
    ensures mode == ReadingMode(kind)
    ensures e.name == ReadingName(kind) && e.loc == Some(bno.location)
    ensures e.obj.Points? && e.obj.target.isQuaternion == (kind == QuaternionData)
    ensures kind == QuaternionData ==>
              var b := BlockAfterRead(8, replies, loopCount);
              e.obj.target.w == AxisAt(b, 0) as real / 16384.0 && e.obj.target.x == AxisAt(b, 1) as real / 16384.0 &&
              e.obj.target.y == AxisAt(b, 2) as real / 16384.0 && e.obj.target.z == AxisAt(b, 3) as real / 16384.0
    ensures kind != QuaternionData ==>
              var axes := VectorAxes(kind, BlockAfterRead(6, replies, loopCount));
              e.obj.target.x == axes[0] as real && e.obj.target.y == axes[1] as real && e.obj.target.z == axes[2] as real
  {
    e := new SensorEvent.Default();
    e.SetLocation(bno.location);
    mode := ReadingMode(kind);
    var obj: Quaternion;
    if kind == QuaternionData {
      obj := ReadQuat(loopCount, replies);
    } else {
      obj := ReadVector(kind, loopCount, replies);
    }
    e.SetObj(obj);
    e.SetName(ReadingName(kind));
  }
}
