/**
 Frames of the W5 command protocol, as `protocol_uart.c` and `protocol_i2c.c` build and check them. An I2C frame
 is the body and an additive checksum; a UART frame has a start and an end byte around it.
 */
module W5Frames {
  import opened Options

  type Byte = x: int | 0 <= x < 256

  const START: Byte := 0x7E
  const END: Byte := 0x7F
  const VERSION: Byte := 0x33
  const GEO: Byte := 0x47
  const MSG_ACK: Byte := 0x41
  const QUERY: Byte := 0x51
  const RESULT: Byte := 0x52
  const ACK: Byte := 1
  const NACK_GENERAL_ERROR: Byte := 2
  const NACK_FAILED_CHECKSUM: Byte := 3
  const NACK_BUSY: Byte := 4

  // ----- The checksum

  function CheckSum(s: seq<Byte>): Byte {
    if s == [] then 0 else (CheckSum(s[..|s| - 1]) + s[|s| - 1]) % 256
  }

  /** `calcCheckSum` over `size` bytes from `from` on, in an 8-bit variable. */
  method CalcCheckSum(buf: array<Byte>, from: nat, size: nat) returns (cs: Byte)
    requires from + size <= buf.Length
    ensures cs == CheckSum(buf[from..from + size])
  {
    cs := 0;
    for i := 0 to size
      invariant cs == CheckSum(buf[from..from + i])
    {
      assert buf[from..from + i + 1][..i] == buf[from..from + i];
      cs := (cs + buf[from + i]) % 256;
    }
  }

  lemma ModOfMod(x: int, d: int)
    ensures (x % 256 + d) % 256 == (x + d) % 256
  {
    var q := x / 256;
    assert x % 256 + d == x + d - 256 * q;
    Periodic(x + d - 256 * q, q);
  }

  lemma Periodic(x: int, q: int)
    ensures (x + 256 * q) % 256 == x % 256
  {
  }

  function Sum(s: seq<Byte>): nat { if s == [] then 0 else s[0] + Sum(s[1..]) }

  lemma {:induction false} SumOfTwo(s: seq<Byte>, t: seq<Byte>)
    ensures Sum(s + t) == Sum(s) + Sum(t)
  {
    if s == [] {
      assert s + t == t;
    } else {
      assert (s + t)[1..] == s[1..] + t;
      SumOfTwo(s[1..], t);
    }
  }

  /** The checksum is the sum of the bytes, whatever it wraps around on the way. */
  lemma {:induction false} CheckSumIsSum(s: seq<Byte>)
    ensures CheckSum(s) == Sum(s) % 256
  {
    if s != [] {
      var n := |s| - 1;
      CheckSumIsSum(s[..n]);
      assert s == s[..n] + [s[n]] && [s[n]][1..] == [];
      SumOfTwo(s[..n], [s[n]]);
      assert Sum([s[n]]) == s[n];
      ModOfMod(Sum(s[..n]), s[n]);
    }
  }

  lemma {:induction false} SumShifts(s: seq<Byte>, k: nat, b: Byte)
    requires k < |s|
    ensures Sum(s[k := b]) + s[k] == Sum(s) + b
  {
    var t := s[k := b];
    if k == 0 {
      assert t[1..] == s[1..];
    } else {
      assert t[1..] == s[1..][k - 1 := b];
      SumShifts(s[1..], k - 1, b);
    }
  }

  /** Replacing one byte shifts the sum by the difference. */
  lemma CheckSumShifts(s: seq<Byte>, k: nat, b: Byte)
    requires k < |s|
    ensures CheckSum(s[k := b]) == (CheckSum(s) + b - s[k]) % 256
  {
    hide CheckSum, Sum;
    CheckSumIsSum(s);
    CheckSumIsSum(s[k := b]);
    SumShifts(s, k, b);
    ModOfMod(Sum(s), b - s[k]);
  }

  lemma CheckSumTells(s: seq<Byte>, k: nat, b: Byte)
    requires k < |s| && b != s[k]
    ensures CheckSum(s[k := b]) != CheckSum(s)
  {
    CheckSumShifts(s, k, b);
  }

  // ----- Commands

  /** Four bytes, the lowest first. */
  function Little4(n: nat): seq<Byte> { [n % 256, n / 256 % 256, n / 65536 % 256, n / 16777216 % 256] }

  lemma LowestFirst(n: nat)
    requires n < 0x1_0000_0000
    ensures var s := Little4(n);
      |s| == 4 && n == 0x100_0000 * (s[3] as int) + 0x1_0000 * (s[2] as int) + 0x100 * (s[1] as int) + s[0] as int
  {
    var a := n / 0x100;
    var b := a / 0x100;
    var c := b / 0x100;
    assert n / 0x1_0000 == b && n / 0x100_0000 == c;
    assert n == 0x100 * a + n % 0x100 && a == 0x100 * b + a % 0x100 && b == 0x100 * c + b % 0x100 && c % 0x100 == c;
  }

  /** What the checksum of a command covers. */
  function Body(msgType: Byte, payload: seq<Byte>): seq<Byte> {
    [VERSION, msgType] + (if msgType == QUERY then [|payload| % 256] else Little4(|payload|)) + payload
  }

  function I2cFrame(msgType: Byte, payload: seq<Byte>): seq<Byte> {
    var body := Body(msgType, payload);
    body + [CheckSum(body)]
  }

  function UartFrame(msgType: Byte, payload: seq<Byte>): seq<Byte> { [START] + I2cFrame(msgType, payload) + [END] }

  /** The buffer that `sendW5UartCommand` fills. */
  method BuildUartCommand(msgType: Byte, payload: seq<Byte>) returns (cmd: array<Byte>)
    requires msgType == QUERY ==> |payload| == 7
    ensures fresh(cmd) && cmd[..] == UartFrame(msgType, payload)
  {
    if msgType == QUERY {
      cmd := BuildUartQuery(payload);
    } else {
      cmd := BuildUartApi(msgType, payload);
    }
  }

  /** The branch for all other commands. */
  method BuildUartApi(msgType: Byte, payload: seq<Byte>) returns (cmd: array<Byte>)
    requires msgType != QUERY
    ensures fresh(cmd) && cmd[..] == UartFrame(msgType, payload)
  {
    hide CheckSum, Little4, Body;
    ghost var body := Body(msgType, payload);
    var l := |payload|;
    var size := l + 2 + 7;
    cmd := new Byte[size];
    cmd[0], cmd[1], cmd[2] := START, VERSION, msgType;
    StoreLength(cmd, 3, l);
    forall k | 0 <= k < l { cmd[7 + k] := payload[k]; }
    assert cmd[3..7] == Little4(l) && cmd[7..7 + l] == payload;
    ghost var s := [VERSION, msgType] + Little4(l) + payload;
    BodyOfApi(msgType, payload);
    assert cmd[1..7 + l] == cmd[1..3] + cmd[3..7] + cmd[7..7 + l] == s;
    var cs := CalcCheckSum(cmd, 1, size - 3);
    cmd[7 + l] := cs;
    cmd[7 + l + 1] := END;
    assert cmd[1..7 + l] == s;
    Framed(cmd[..], 7 + l);
  }

  /** A first byte, a stretch, and two more bytes. */
  lemma Framed(u: seq<Byte>, n: nat)
    requires 1 <= n && |u| == n + 2
    ensures u == [u[0]] + (u[1..n] + [u[n]]) + [u[n + 1]]
  {
  }

  /** The branch for queries, whose payload has seven bytes: checksum and end stand at fixed places. */
  method BuildUartQuery(payload: seq<Byte>) returns (cmd: array<Byte>)
    requires |payload| == 7
    ensures fresh(cmd) && cmd[..] == UartFrame(QUERY, payload)
  {
    hide CheckSum, Little4;
    ghost var body := Body(QUERY, payload);
    cmd := new Byte[7 + 2 + 4];
    cmd[0], cmd[1], cmd[2], cmd[3] := START, VERSION, QUERY, 7;
    forall k | 0 <= k < 7 { cmd[4 + k] := payload[k]; }
    assert cmd[1..11] == body;
    var cs := CalcCheckSum(cmd, 1, 10);
    cmd[11] := cs;
    cmd[12] := END;
    assert cmd[1..11] == body;
    Framed(cmd[..], 11);
  }

  /** The size field: four bytes, the lowest first. */
  method StoreLength(cmd: array<Byte>, at: nat, l: nat)
    requires at + 4 <= cmd.Length
    modifies cmd
    ensures cmd[at..at + 4] == Little4(l)
    ensures forall k :: 0 <= k < cmd.Length && !(at <= k < at + 4) ==> cmd[k] == old(cmd[k])
  {
    cmd[at], cmd[at + 1] := l % 256, l / 256 % 256;
    cmd[at + 2], cmd[at + 3] := l / 65536 % 256, l / 16777216 % 256;
  }

  lemma BodyOfApi(msgType: Byte, payload: seq<Byte>)
    requires msgType != QUERY
    ensures Body(msgType, payload) == [VERSION, msgType] + Little4(|payload|) + payload
  {
  }

  /** The buffer that `sendW5I2cCommand` fills. */
  method BuildI2cCommand(msgType: Byte, payload: seq<Byte>) returns (cmd: array<Byte>)
    requires msgType == QUERY ==> |payload| == 7
    ensures fresh(cmd) && cmd[..] == I2cFrame(msgType, payload)
  {
    hide CheckSum, Little4;
    ghost var body := Body(msgType, payload);
    ghost var n := |body|;
    var l := |payload|;
    if msgType == QUERY {
      cmd := new Byte[7 + 4];
      cmd[0], cmd[1], cmd[2] := VERSION, msgType, 7;
      forall k | 0 <= k < 7 { cmd[3 + k] := payload[k]; }
      assert cmd[0..10] == body;
      var cs := CalcCheckSum(cmd, 0, 10);
      cmd[10] := cs;
    } else {
      var size := l + 7;
      cmd := new Byte[size];
      cmd[0], cmd[1] := VERSION, msgType;
      StoreLength(cmd, 2, l);
      forall k | 0 <= k < l { cmd[6 + k] := payload[k]; }
      assert cmd[2..6] == Little4(l) && cmd[6..6 + l] == payload;
      assert cmd[0..n] == cmd[0..2] + cmd[2..6] + cmd[6..6 + l] == body;
      var cs := CalcCheckSum(cmd, 0, size - 1);
      cmd[6 + l] := cs;
    }
    assert cmd[..] == cmd[0..n] + [cmd[n]] && cmd[0..n] == body;
  }

  // ----- Responses

  datatype Ret =
    | Ok | InvalidParam | GeneralError | TimedOut | RspChecksumFailed | CmdChecksumFailed | DeviceBusy
    | MsgIdMismatched

  /** The message id and the data are passed on only with an acknowledgement. */
  datatype Reply = Reply(ret: Ret, msgId: Option<Byte>, data: seq<Byte>)

  function Refused(ret: Ret): Reply { Reply(ret, None, []) }

  /** The bytes of a response besides what the caller asked for. */
  function I2cOverhead(msgType: Byte): nat { if msgType == RESULT then 9 else 6 }

  function UartOverhead(msgType: Byte): nat { 2 + I2cOverhead(msgType) }

  /** The decision of `receiveW5I2cResponse` on a complete response. */
  function I2cReply(r: seq<Byte>, msgType: Byte): Reply
    requires |r| >= I2cOverhead(msgType)
  {
    var n := |r|;
    if !(r[0] == VERSION && r[1] == msgType) then Refused(GeneralError)
    else if CheckSum(r[..n - 1]) != r[n - 1] then Refused(RspChecksumFailed)
    else Acknowledged(if msgType == RESULT then r[7] else r[4], if msgType == RESULT then r[6] else r[3],
                      if msgType == RESULT then r[8..n - 1] else [])
  }

  /** What an acknowledgement code leads to; an unknown code passes as success but delivers nothing. */
  function Acknowledged(ack: Byte, msgId: Byte, data: seq<Byte>): Reply {
    if ack == NACK_FAILED_CHECKSUM then Refused(CmdChecksumFailed)
    else if ack == NACK_BUSY then Refused(DeviceBusy)
    else if ack == NACK_GENERAL_ERROR then Refused(GeneralError)
    else if ack == ACK then Reply(Ok, Some(msgId), data)
    else Refused(Ok)
  }

  /** The decision of `receiveW5UartResponse` on a complete response. */
  function UartReply(u: seq<Byte>, msgType: Byte): Reply
    requires |u| >= UartOverhead(msgType)
  {
    var n := |u|;
    if !(u[0] == START && u[1] == VERSION && u[2] == msgType && u[n - 1] == END) then Refused(GeneralError)
    else if CheckSum(u[1..n - 2]) != u[n - 2] then Refused(RspChecksumFailed)
    else Acknowledged(if msgType == RESULT then u[8] else u[5], if msgType == RESULT then u[7] else u[4],
                      if msgType == RESULT then u[9..n - 2] else [])
  }

  /** The place of the acknowledgement code in a response. */
  function AckAt(msgType: Byte): nat { if msgType == RESULT then 7 else 4 }

  /** What comes of each response: what is wrong with it, or what its acknowledgement code says. */
  lemma ReplyDecides(r: seq<Byte>, msgType: Byte)
    requires |r| >= I2cOverhead(msgType)
    ensures var reply, ack := I2cReply(r, msgType), r[AckAt(msgType)];
      && (r[0] != 0x33 || r[1] != msgType ==> reply == Refused(GeneralError))
      && (r[0] == 0x33 && r[1] == msgType && Sum(r[..|r| - 1]) % 256 != r[|r| - 1] ==>
            reply == Refused(RspChecksumFailed))
      && (Sound(r, msgType) ==>
            && (ack == 1 ==> reply.ret == Ok && reply.msgId == Some(r[AckAt(msgType) - 1])
                             && reply.data == if msgType == RESULT then r[8..|r| - 1] else [])
            && (ack == 2 ==> reply == Refused(GeneralError))
            && (ack == 3 ==> reply == Refused(CmdChecksumFailed))
            && (ack == 4 ==> reply == Refused(DeviceBusy))
            && (ack == 0 || ack > 4 ==> reply == Refused(Ok)))
  {
    hide CheckSum, Sum;
    CheckSumIsSum(r[..|r| - 1]);
  }

  /** Both transports decide alike on the same response. */
  lemma RepliesAgree(r: seq<Byte>, msgType: Byte)
    requires |r| >= I2cOverhead(msgType)
    ensures UartReply([START] + r + [END], msgType) == I2cReply(r, msgType)
  {
    var u := [START] + r + [END];
    assert u[1..|u| - 2] == r[..|r| - 1];
    if msgType == RESULT { assert u[9..|u| - 2] == r[8..|r| - 1]; }
  }

  /** A response with the right frame and the right checksum, whatever it says. */
  predicate Sound(r: seq<Byte>, msgType: Byte) {
    |r| >= I2cOverhead(msgType) && r[0] == VERSION && r[1] == msgType && CheckSum(r[..|r| - 1]) == r[|r| - 1]
  }

  /** One wrong byte in a sound response is always noticed: in the frame as an error, elsewhere by the checksum. */
  lemma CorruptionNoticed(r: seq<Byte>, msgType: Byte, k: nat, b: Byte)
    requires Sound(r, msgType) && k < |r| && b != r[k]
    ensures I2cReply(r[k := b], msgType) == Refused(if k < 2 then GeneralError else RspChecksumFailed)
  {
    var n := |r| - 1;
    if 2 <= k < n {
      CheckSumTells(r[..n], k, b);
      assert r[k := b][..n] == r[..n][k := b];
    } else if k == n {
      assert r[k := b][..n] == r[..n];
    }
  }

  lemma UartCorruptionNoticed(r: seq<Byte>, msgType: Byte, k: nat, b: Byte)
    requires Sound(r, msgType) && k < |r| + 2 && b != ([START] + r + [END])[k]
    ensures UartReply(([START] + r + [END])[k := b], msgType)
         == Refused(if k < 3 || k == |r| + 1 then GeneralError else RspChecksumFailed)
  {
    var u := [START] + r + [END];
    if 1 <= k <= |r| {
      assert u[k := b] == [START] + r[k - 1 := b] + [END];
      RepliesAgree(r[k - 1 := b], msgType);
      CorruptionNoticed(r, msgType, k - 1, b);
    }
  }
}
