/**
 Commands over a link to a W5 device: the read loop that puts a response together from fragments, the retry
 loop, and the two calls above it. A caller cannot tell from the result which transport was used.
 */
module W5Link {
  import opened Options
  import opened W5Frames

  const READ_RETRIES: nat := 10
  const COMMAND_RETRIES: nat := 8

  /** A full-duplex link. The device answers each command with the next of `replies`; on a UART it puts a start
      and an end byte around it. */
  class Link {
    const uart: bool
    var replies: seq<seq<Byte>>
    var incoming: seq<Byte>
    var written: seq<seq<Byte>>
    var readCalls: nat
    /** A read or a write has failed, or nothing came for too long. */
    ghost var broken: bool
    /** How many reads in a row have gone well and given nothing. */
    ghost var idle: nat

    function OnWire(r: seq<Byte>): seq<Byte> { if uart then [START] + r + [END] else r }

    /** A write that succeeds is answered, as long as the device has answers. */
    method Write(frame: seq<Byte>) returns (ok: bool)
      modifies this`replies, this`incoming, this`written, this`broken
      ensures ok ==> written == old(written) + [frame] && broken == old(broken)
      ensures ok && old(replies) == [] ==> replies == [] && incoming == old(incoming)
      ensures ok && old(replies) != [] ==>
        replies == old(replies)[1..] && incoming == old(incoming) + OnWire(old(replies)[0])
      ensures !ok ==> broken && written == old(written) && replies == old(replies) && incoming == old(incoming)
    {
      ok := *;
      if ok {
        written := written + [frame];
        if replies != [] {
          incoming, replies := incoming + OnWire(replies[0]), replies[1..];
        }
      } else {
        broken := true;
      }
    }

    /** A read gives what has come so far, or a part of it, or nothing, or it fails. */
    method Read(max: nat) returns (ok: bool, data: seq<Byte>)
      modifies this`incoming, this`readCalls, this`broken, this`idle
      ensures readCalls == old(readCalls) + 1 && |data| <= max && old(incoming) == data + incoming
      ensures if ok then broken == old(broken) else broken
      ensures idle == if ok && data == [] then old(idle) + 1 else 0
    {
      var n: nat :| n <= max && n <= |incoming|;
      data, incoming, readCalls := incoming[..n], incoming[n..], readCalls + 1;
      ok := *;
      if !ok { broken := true; }
      idle := if ok && data == [] then idle + 1 else 0;
    }
  }

  /** The read loop of both transports. However the response is cut into pieces, what is put together is what
      was sent; and there are at most eleven reads for each byte. */
  method ReadResponse(link: Link, size: nat) returns (ret: Ret, rsp: array<Byte>)
    modifies link`incoming, link`readCalls, link`broken, link`idle
    ensures rsp.Length == size && fresh(rsp)
    ensures ret == Ok || ret == GeneralError || ret == TimedOut
    ensures ret == Ok ==> old(link.incoming) == rsp[..] + link.incoming && link.broken == old(link.broken)
    ensures ret != Ok ==> link.broken
    ensures ret == TimedOut ==> link.idle > READ_RETRIES && link.readCalls > old(link.readCalls) + READ_RETRIES
    ensures ret == GeneralError ==> link.idle == 0
    ensures link.readCalls <= old(link.readCalls) + (READ_RETRIES + 1) * size
  {
    rsp := new Byte[size];
    var bytesRead, retries := 0, 0;
    while bytesRead < size
      invariant bytesRead <= size && retries <= READ_RETRIES && (bytesRead == size ==> retries == 0)
      invariant link.readCalls <= old(link.readCalls) + (READ_RETRIES + 1) * bytesRead + retries
      invariant retries <= link.idle && old(link.readCalls) + retries <= link.readCalls
      invariant old(link.incoming) == rsp[..bytesRead] + link.incoming && link.broken == old(link.broken)
      decreases size - bytesRead, READ_RETRIES - retries
    {
      ghost var got := rsp[..bytesRead];
      assert (READ_RETRIES + 1) * bytesRead + READ_RETRIES + 1 <= (READ_RETRIES + 1) * size;
      var ok, data := link.Read(size - bytesRead);
      if !ok {
        return GeneralError, rsp;
      } else if |data| > 0 {
        forall k | 0 <= k < |data| { rsp[bytesRead + k] := data[k]; }
        assert rsp[..bytesRead + |data|] == got + data;
        bytesRead := bytesRead + |data|;
        retries := 0;
      } else if retries < READ_RETRIES {
        assert got + data + link.incoming == got + (data + link.incoming);
        retries := retries + 1;
      } else {
        link.broken := true;
        return TimedOut, rsp;
      }
    }
    assert rsp[..size] == rsp[..];
    ret := Ok;
  }

  /** `receiveW5UartResponse`. */
  method ReceiveUart(link: Link, msgType: Byte, readSize: nat) returns (reply: Reply)
    modifies link`incoming, link`readCalls, link`broken, link`idle
    ensures link.readCalls <= old(link.readCalls) + (READ_RETRIES + 1) * (readSize + UartOverhead(msgType))
    ensures link.broken ==> old(link.broken) || reply == Refused(GeneralError) || reply == Refused(TimedOut)
    ensures old(link.broken) ==> link.broken
    ensures !link.broken ==>
      var size := readSize + UartOverhead(msgType);
      size <= |old(link.incoming)| && link.incoming == old(link.incoming)[size..]
      && reply == UartReply(old(link.incoming)[..size], msgType)
  {
    hide CheckSum;
    var size := readSize + UartOverhead(msgType);
    var ret, rsp := ReadResponse(link, size);
    if ret != Ok { return Refused(ret); }
    ghost var u := rsp[..];
    assert link.incoming == old(link.incoming)[size..] && u == old(link.incoming)[..size];
    reply := Refused(Ok);
    if rsp[0] == START && rsp[1] == VERSION && rsp[2] == msgType && rsp[size - 1] == END {
      var cs := CalcCheckSum(rsp, 1, size - 3);
      assert rsp[1..1 + (size - 3)] == u[1..size - 2];
      var ackAt := if msgType == RESULT then 8 else 5;
      if cs != rsp[size - 2] {
        reply := Refused(RspChecksumFailed);
      } else if rsp[ackAt] == NACK_FAILED_CHECKSUM {
        reply := Refused(CmdChecksumFailed);
      } else if rsp[ackAt] == NACK_BUSY {
        reply := Refused(DeviceBusy);
      } else if rsp[ackAt] == NACK_GENERAL_ERROR {
        reply := Refused(GeneralError);
      } else if rsp[ackAt] == ACK {
        if msgType == RESULT {
          reply := Reply(Ok, Some(rsp[7]), rsp[9..9 + readSize]);
        } else {
          reply := Reply(Ok, Some(rsp[4]), []);
        }
      }
    } else {
      reply := Refused(GeneralError);
    }
  }

  /** `receiveW5I2cResponse`. */
  method ReceiveI2c(link: Link, msgType: Byte, readSize: nat) returns (reply: Reply)
    modifies link`incoming, link`readCalls, link`broken, link`idle
    ensures link.readCalls <= old(link.readCalls) + (READ_RETRIES + 1) * (readSize + I2cOverhead(msgType))
    ensures link.broken ==> old(link.broken) || reply == Refused(GeneralError) || reply == Refused(TimedOut)
    ensures old(link.broken) ==> link.broken
    ensures !link.broken ==>
      var size := readSize + I2cOverhead(msgType);
      size <= |old(link.incoming)| && link.incoming == old(link.incoming)[size..]
      && reply == I2cReply(old(link.incoming)[..size], msgType)
  {
    hide CheckSum;
    var size := readSize + I2cOverhead(msgType);
    var ret, rsp := ReadResponse(link, size);
    if ret != Ok { return Refused(ret); }
    ghost var r := rsp[..];
    assert link.incoming == old(link.incoming)[size..] && r == old(link.incoming)[..size];
    reply := Refused(Ok);
    if rsp[0] == VERSION && rsp[1] == msgType {
      var cs := CalcCheckSum(rsp, 0, size - 1);
      assert rsp[0..0 + (size - 1)] == r[..size - 1];
      var ackAt := if msgType == RESULT then 7 else 4;
      if cs != rsp[size - 1] {
        reply := Refused(RspChecksumFailed);
      } else if rsp[ackAt] == NACK_FAILED_CHECKSUM {
        reply := Refused(CmdChecksumFailed);
      } else if rsp[ackAt] == NACK_BUSY {
        reply := Refused(DeviceBusy);
      } else if rsp[ackAt] == NACK_GENERAL_ERROR {
        reply := Refused(GeneralError);
      } else if rsp[ackAt] == ACK {
        if msgType == RESULT {
          reply := Reply(Ok, Some(rsp[6]), rsp[8..8 + readSize]);
        } else {
          reply := Reply(Ok, Some(rsp[3]), []);
        }
      }
    } else {
      reply := Refused(GeneralError);
    }
  }

  // ----- Sending, and trying again

  /** The commands that `n` attempts with the same frame have put on the wire. */
  function Repeated(frame: seq<Byte>, n: nat): (s: seq<seq<Byte>>)
    ensures |s| == n
  {
    seq(n, _ => frame)
  }

  /** What comes of a command, given what the device answers one attempt after the other: busy answers cost
      nothing, complaints about the checksum cost one of the tries left; and how many answers that takes. */
  function Outcome(replies: seq<seq<Byte>>, tries: nat, msgType: Byte): (Reply, nat)
    requires forall k :: 0 <= k < |replies| ==> |replies[k]| >= I2cOverhead(msgType)
    decreases |replies|
  {
    if tries == 0 then (Refused(CmdChecksumFailed), 0)
    else if replies == [] then (Refused(TimedOut), 0)
    else
      var reply := I2cReply(replies[0], msgType);
      if reply.ret == CmdChecksumFailed then OneMore(Outcome(replies[1..], tries - 1, msgType))
      else if reply.ret == DeviceBusy then OneMore(Outcome(replies[1..], tries, msgType))
      else (reply, 1)
  }

  function OneMore(o: (Reply, nat)): (Reply, nat) { (o.0, o.1 + 1) }

  /** A sound response that says "busy", or that the command's checksum was wrong. */
  predicate Busy(r: seq<Byte>, msgType: Byte) { Sound(r, msgType) && r[AckAt(msgType)] == 4 }

  predicate Complaint(r: seq<Byte>, msgType: Byte) { Sound(r, msgType) && r[AckAt(msgType)] == 3 }

  predicate AllAgain(rs: seq<seq<Byte>>, msgType: Byte) {
    forall j :: 0 <= j < |rs| ==> Busy(rs[j], msgType) || Complaint(rs[j], msgType)
  }

  function Complaints(rs: seq<seq<Byte>>, msgType: Byte): nat {
    if rs == [] then 0 else (if Complaint(rs[0], msgType) then 1 else 0) + Complaints(rs[1..], msgType)
  }

  /** Answer `k` is the first that is neither, and came before the tries were used up. */
  predicate Settles(rs: seq<seq<Byte>>, k: nat, tries: nat, msgType: Byte) {
    && k < |rs| && !Busy(rs[k], msgType) && !Complaint(rs[k], msgType)
    && AllAgain(rs[..k], msgType) && Complaints(rs[..k], msgType) < tries
  }

  /** Answer `k` is the complaint that uses up the tries. */
  predicate Exhausts(rs: seq<seq<Byte>>, k: nat, tries: nat, msgType: Byte) {
    && k < |rs| && Complaint(rs[k], msgType)
    && AllAgain(rs[..k], msgType) && Complaints(rs[..k], msgType) == tries - 1
  }

  lemma OutcomeAt(rs: seq<seq<Byte>>, tries: nat, msgType: Byte)
    requires forall k :: 0 <= k < |rs| ==> |rs[k]| >= I2cOverhead(msgType)
    requires rs != [] && tries > 0
    ensures Busy(rs[0], msgType) ==> Outcome(rs, tries, msgType) == OneMore(Outcome(rs[1..], tries, msgType))
    ensures Complaint(rs[0], msgType) ==> Outcome(rs, tries, msgType) == OneMore(Outcome(rs[1..], tries - 1, msgType))
    ensures !Busy(rs[0], msgType) && !Complaint(rs[0], msgType) ==>
      Outcome(rs, tries, msgType) == (I2cReply(rs[0], msgType), 1)
  {
    hide CheckSum, Sum, I2cReply;
    ReplyDecides(rs[0], msgType);
    CheckSumIsSum(rs[0][..|rs[0]| - 1]);
  }

  /** The first answer that settles the matter is the outcome, however many busy ones came before it. */
  lemma {:induction false} OutcomeSettled(rs: seq<seq<Byte>>, k: nat, tries: nat, msgType: Byte)
    requires forall j :: 0 <= j < |rs| ==> |rs[j]| >= I2cOverhead(msgType)
    requires Settles(rs, k, tries, msgType)
    ensures Outcome(rs, tries, msgType) == (I2cReply(rs[k], msgType), k + 1)
  {
    hide Outcome, Busy, Complaint, I2cReply;
    OutcomeAt(rs, tries, msgType);
    if k > 0 {
      assert rs[..k][0] == rs[0] && rs[..k][1..] == rs[1..][..k - 1];
      OneAgain(rs[..k], msgType);
      OutcomeSettled(rs[1..], k - 1, if Complaint(rs[0], msgType) then tries - 1 else tries, msgType);
    }
  }

  /** A complaint is not a busy answer, and the rest of a run of such answers is one. */
  lemma OneAgain(rs: seq<seq<Byte>>, msgType: Byte)
    requires AllAgain(rs, msgType) && rs != []
    ensures AllAgain(rs[1..], msgType) && (Busy(rs[0], msgType) || Complaint(rs[0], msgType))
    ensures !(Busy(rs[0], msgType) && Complaint(rs[0], msgType))
  {
    assert !(Busy(rs[0], msgType) && Complaint(rs[0], msgType));
    hide Busy, Complaint;
  }

  /** When the last try meets a complaint, that is the outcome. */
  lemma {:induction false} OutcomeExhausted(rs: seq<seq<Byte>>, k: nat, tries: nat, msgType: Byte)
    requires forall j :: 0 <= j < |rs| ==> |rs[j]| >= I2cOverhead(msgType)
    requires Exhausts(rs, k, tries, msgType)
    ensures Outcome(rs, tries, msgType) == (Refused(CmdChecksumFailed), k + 1)
  {
    hide Busy, Complaint, I2cReply;
    OutcomeAt(rs, tries, msgType);
    if k > 0 {
      assert rs[..k][0] == rs[0] && rs[..k][1..] == rs[1..][..k - 1];
      OneAgain(rs[..k], msgType);
      OutcomeExhausted(rs[1..], k - 1, if Complaint(rs[0], msgType) then tries - 1 else tries, msgType);
    }
  }

  lemma OutcomeDecides(rs: seq<seq<Byte>>, msgType: Byte)
    requires forall j :: 0 <= j < |rs| ==> |rs[j]| >= I2cOverhead(msgType)
    ensures forall k: nat :: Settles(rs, k, COMMAND_RETRIES, msgType) ==>
      k < |rs| && Outcome(rs, COMMAND_RETRIES, msgType) == (I2cReply(rs[k], msgType), k + 1)
    ensures forall k: nat :: Exhausts(rs, k, COMMAND_RETRIES, msgType) ==>
      Outcome(rs, COMMAND_RETRIES, msgType) == (Refused(CmdChecksumFailed), k + 1)
  {
    forall k: nat | Settles(rs, k, COMMAND_RETRIES, msgType)
      ensures k < |rs| && Outcome(rs, COMMAND_RETRIES, msgType) == (I2cReply(rs[k], msgType), k + 1)
    {
      OutcomeSettled(rs, k, COMMAND_RETRIES, msgType);
    }
    forall k: nat | Exhausts(rs, k, COMMAND_RETRIES, msgType)
      ensures Outcome(rs, COMMAND_RETRIES, msgType) == (Refused(CmdChecksumFailed), k + 1)
    {
      OutcomeExhausted(rs, k, COMMAND_RETRIES, msgType);
    }
  }

  /** When the device falls silent before that, time runs out. */
  lemma {:induction false} OutcomeSilent(rs: seq<seq<Byte>>, tries: nat, msgType: Byte)
    requires forall j :: 0 <= j < |rs| ==> |rs[j]| >= I2cOverhead(msgType)
    requires AllAgain(rs, msgType) && Complaints(rs, msgType) < tries
    ensures Outcome(rs, tries, msgType) == (Refused(TimedOut), |rs|)
  {
    hide Busy, Complaint, I2cReply;
    if rs != [] {
      OutcomeAt(rs, tries, msgType);
      OneAgain(rs, msgType);
      OutcomeSilent(rs[1..], if Complaint(rs[0], msgType) then tries - 1 else tries, msgType);
    }
  }

  /** A link at rest whose device answers commands for `readSize` bytes with responses of the right length. */
  ghost predicate Ready(link: Link, rspType: Byte, readSize: nat) reads link {
    && link.incoming == []
    && forall k :: 0 <= k < |link.replies| ==> |link.replies[k]| == readSize + I2cOverhead(rspType)
  }

  /** One attempt, over either transport. */
  method Attempt(link: Link, msgType: Byte, payload: seq<Byte>, rspType: Byte, readSize: nat) returns (reply: Reply)
    requires msgType == QUERY ==> |payload| == 7
    requires Ready(link, rspType, readSize)
    modifies link
    ensures old(link.broken) ==> link.broken
    ensures link.broken ==> old(link.broken) || reply == Refused(GeneralError) || reply == Refused(TimedOut)
    ensures !link.broken ==> Ready(link, rspType, readSize) && old(link.replies) != []
    ensures !link.broken ==> link.replies == old(link.replies)[1..]
    ensures !link.broken ==> reply == I2cReply(old(link.replies)[0], rspType)
    ensures !link.broken ==> link.written == old(link.written) + [link.OnWire(I2cFrame(msgType, payload))]
  {
    hide CheckSum, I2cReply, UartReply, I2cFrame;
    var ok;
    if link.uart {
      var cmd := BuildUartCommand(msgType, payload);
      ok := link.Write(cmd[..]);
    } else {
      var cmd := BuildI2cCommand(msgType, payload);
      ok := link.Write(cmd[..]);
    }
    if !ok { return Refused(GeneralError); }
    ghost var sent := link.incoming;
    assert old(link.replies) != [] ==> sent == link.OnWire(old(link.replies)[0]) && sent[..|sent|] == sent;
    if link.uart {
      reply := ReceiveUart(link, rspType, readSize);
      if !link.broken {
        RepliesAgree(old(link.replies)[0], rspType);
      }
    } else {
      reply := ReceiveI2c(link, rspType, readSize);
    }
  }

  /** `W5protoUartProcessW5Commands` and `W5protoI2cProcessW5Commands` for one command. */
  method Process(link: Link, msgType: Byte, payload: seq<Byte>, rspType: Byte, readSize: nat) returns (reply: Reply)
    requires msgType == QUERY ==> |payload| == 7
    requires Ready(link, rspType, readSize) && !link.broken
    modifies link
    ensures link.broken ==> reply == Refused(GeneralError) || reply == Refused(TimedOut)
    ensures !link.broken ==> Served(link, old(link.replies), old(link.written), msgType, payload, rspType, reply)
    ensures !link.broken ==> forall k: nat :: Settles(old(link.replies), k, COMMAND_RETRIES, rspType) ==>
      && reply == I2cReply(old(link.replies)[k], rspType)
      && link.written == old(link.written) + Repeated(link.OnWire(I2cFrame(msgType, payload)), k + 1)
    ensures !link.broken ==> forall k: nat :: Exhausts(old(link.replies), k, COMMAND_RETRIES, rspType) ==>
      && reply == Refused(CmdChecksumFailed)
      && link.written == old(link.written) + Repeated(link.OnWire(I2cFrame(msgType, payload)), k + 1)
  {
    hide I2cReply, I2cFrame, Settles, Exhausts, Busy, Complaint;
    OutcomeDecides(link.replies, rspType);
    var retries := COMMAND_RETRIES;
    ghost var tried := 0;
    ghost var frame := link.OnWire(I2cFrame(msgType, payload));
    ghost var all := Outcome(link.replies, retries, rspType);
    reply := Refused(CmdChecksumFailed);
    while retries > 0
      invariant !link.broken && Ready(link, rspType, readSize)
      invariant retries == 0 ==> reply == Refused(CmdChecksumFailed)
      invariant var o := Outcome(link.replies, retries, rspType); all == (o.0, tried + o.1)
      invariant tried <= |old(link.replies)| && link.replies == old(link.replies)[tried..]
      invariant link.written == old(link.written) + Repeated(frame, tried)
      decreases |link.replies|
    {
      ghost var replies, written := link.replies, link.written;
      reply := Attempt(link, msgType, payload, rspType, readSize);
      if !link.broken { RefusedAlike(replies[0], rspType); }
      assert Repeated(frame, tried) + [frame] == Repeated(frame, tried + 1);
      assert written + [frame] == old(link.written) + Repeated(frame, tried + 1);
      tried := tried + 1;
      if reply.ret == CmdChecksumFailed {
        retries := retries - 1;
      } else if reply.ret != DeviceBusy {
        return;
      }
    }
  }

  lemma RefusedAlike(r: seq<Byte>, msgType: Byte)
    requires |r| >= I2cOverhead(msgType)
    ensures var reply := I2cReply(r, msgType); reply.ret == CmdChecksumFailed ==> reply == Refused(CmdChecksumFailed)
  {
    hide CheckSum;
  }

  /** The command was tried as often as the answers called for, each time with the same frame, and the reply is
      the one they lead to. */
  ghost predicate Served(link: Link, replies: seq<seq<Byte>>, written: seq<seq<Byte>>, msgType: Byte,
                         payload: seq<Byte>, rspType: Byte, reply: Reply)
    requires forall k :: 0 <= k < |replies| ==> |replies[k]| >= I2cOverhead(rspType)
    reads link
  {
    var o := Outcome(replies, COMMAND_RETRIES, rspType);
    && reply == o.0 && o.1 <= |replies| && link.replies == replies[o.1..]
    && link.written == written + Repeated(link.OnWire(I2cFrame(msgType, payload)), o.1)
  }

  // ----- The calls

  function IdOr(id: Option<Byte>, stale: Byte): Byte { match id case Some(b) => b case None => stale }

  /** `W5comCallApi`; `stale` is what stands in the memory of the command's response id. */
  method CallApi(link: Link, apiCode: Byte, data: seq<Byte>, chunk: nat, maxWrite: nat, stale: Byte)
    returns (ret: Ret, msgId: Byte)
    requires Ready(link, MSG_ACK, 0) && !link.broken && chunk < 0x10000
    modifies link
    ensures |data| + 3 > maxWrite ==> ret == InvalidParam && link.written == old(link.written) && !link.broken
    ensures |data| + 3 <= maxWrite && link.broken ==> ret == GeneralError || ret == TimedOut
    ensures |data| + 3 <= maxWrite && !link.broken ==>
      var o := Outcome(old(link.replies), COMMAND_RETRIES, MSG_ACK).0;
      && ret == o.ret && msgId == IdOr(o.msgId, stale)
      && Served(link, old(link.replies), old(link.written), GEO, ApiPayload(apiCode, chunk, data), MSG_ACK, o)
  {
    if |data| + 3 > maxWrite { return InvalidParam, stale; }
    var reply := Process(link, GEO, ApiPayload(apiCode, chunk, data), MSG_ACK, 0);
    ret, msgId := reply.ret, IdOr(reply.msgId, stale);
  }

  /** What a device answers to a query; `valid` is how much of the data it says is good. */
  datatype Answer = Answer(status: Byte, chunk: nat, valid: nat, data: seq<Byte>)

  /** What a query leaves with its caller: the status, the chunk number and the bytes copied into the caller's
      buffer, or a copy that ran over the end of a buffer. */
  datatype Fate = Delivered(status: Byte, chunk: nat, data: seq<Byte>) | Overrun

  /** Numbers of two and of four bytes, the lowest byte first. */
  function Two(a: int, b: int): int { a + 256 * b }

  function Four(a: int, b: int, c: int, d: int): int { a + 256 * (b + 256 * (c + 256 * d)) }

  /** A length of four bytes that is put together in a signed 32-bit number and widened to 64 bits. */
  function Widened(n: int): int {
    if n < 0x8000_0000 then n else n + 0x1_0000_0000_0000_0000 - 0x1_0000_0000
  }

  /** The seven bytes of a query. */
  function QueryPayload(msgId: Byte, chunk: nat, bytesToRead: nat): seq<Byte>
    requires chunk < 0x10000
  {
    [msgId, chunk % 256, chunk / 256] + Little4(bytesToRead)
  }

  /** What a reply to a query comes to. A reply that acknowledges nothing leaves the zeroed buffer. */
  function Answered(reply: Reply, msgId: Byte, bytesToRead: nat, stale: Byte): (Ret, Option<Fate>)
    requires reply.msgId.Some? ==> |reply.data| == bytesToRead + 7
  {
    if reply.ret != Ok then (reply.ret, None)
    else if IdOr(reply.msgId, stale) != msgId then (MsgIdMismatched, None)
    else (Ok, Some(Fetched(if reply.msgId.Some? then reply.data else seq(bytesToRead + 7, _ => 0), bytesToRead)))
  }

  /** The device's own number of bytes is copied, but nothing if none were asked for. */
  function Fetched(buf: seq<Byte>, bytesToRead: nat): Fate
    requires |buf| == bytesToRead + 7
  {
    var available := if bytesToRead == 0 then 0 else Widened(Four(buf[3], buf[4], buf[5], buf[6]));
    if 0 <= available <= bytesToRead then Delivered(buf[0], Two(buf[1], buf[2]), buf[7..7 + available]) else Overrun
  }

  lemma OutcomeHasData(replies: seq<seq<Byte>>, tries: nat, readSize: nat)
    requires forall k :: 0 <= k < |replies| ==> |replies[k]| == readSize + I2cOverhead(RESULT)
    ensures var o := Outcome(replies, tries, RESULT).0; o.msgId.Some? ==> |o.data| == readSize
    decreases |replies|
  {
    hide CheckSum;
    if replies != [] && tries > 0 {
      OutcomeHasData(replies[1..], tries - 1, readSize);
      OutcomeHasData(replies[1..], tries, readSize);
    }
  }

  /** `W5comCallQuery`. The data goes to the start of the caller's buffer, whose size the call does not know; an
      overrun leaves it in a state about which nothing is said. */
  method CallQuery(link: Link, msgId: Byte, bytesToRead: nat, into: array<Byte>, chunk: nat, maxRead: nat, stale: Byte)
    returns (ret: Ret, fate: Option<Fate>)
    requires Ready(link, RESULT, bytesToRead + 7) && !link.broken && chunk < 0x10000
    requires bytesToRead <= into.Length
    modifies link, into
    ensures bytesToRead + 7 > maxRead ==> ret == InvalidParam && fate == None && link.written == old(link.written)
    ensures bytesToRead + 7 <= maxRead && link.broken ==> (ret == GeneralError || ret == TimedOut) && fate == None
    ensures bytesToRead + 7 <= maxRead && !link.broken ==>
      var o := Outcome(old(link.replies), COMMAND_RETRIES, RESULT).0;
      && (o.msgId.Some? ==> |o.data| == bytesToRead + 7)
      && (ret, fate) == Answered(o, msgId, bytesToRead, stale)
      && Served(link, old(link.replies), old(link.written), QUERY, QueryPayload(msgId, chunk, bytesToRead), RESULT, o)
    ensures fate == None ==> into[..] == old(into[..])
    ensures fate.Some? && fate.value.Delivered? ==>
      |fate.value.data| <= bytesToRead && into[..] == fate.value.data + old(into[..])[|fate.value.data|..]
  {
    hide Outcome, I2cFrame, Four, Widened, Two;
    ret, fate := InvalidParam, None;
    if bytesToRead + 7 > maxRead { return; }
    OutcomeHasData(link.replies, COMMAND_RETRIES, bytesToRead + 7);
    var reply := Process(link, QUERY, QueryPayload(msgId, chunk, bytesToRead), RESULT, bytesToRead + 7);
    ret := reply.ret;
    if ret == Ok {
      if IdOr(reply.msgId, stale) != msgId {
        ret := MsgIdMismatched;
      } else {
        var buf := if reply.msgId.Some? then reply.data else seq(bytesToRead + 7, _ => 0);
        var inside := true;
        if bytesToRead > 0 { inside := CopyAvailable(buf, Widened(Four(buf[3], buf[4], buf[5], buf[6])), into); }
        fate := Some(if inside then Fetched(buf, bytesToRead) else Overrun);
      }
    }
  }

  /** The copy out of the receive buffer, if it stays inside that and the caller's buffer. */
  method CopyAvailable(buf: seq<Byte>, available: int, into: array<Byte>) returns (inside: bool)
    requires 7 <= |buf| <= into.Length + 7
    modifies into
    ensures inside <==> 0 <= available <= |buf| - 7
    ensures inside ==> into[..] == buf[7..7 + available] + old(into[..])[available..]
  {
    inside := 0 <= available && 7 + available <= |buf| && available <= into.Length;
    if inside {
      forall k | 0 <= k < available { into[k] := buf[7 + k]; }
    }
  }

  /** What a device can read from a query: its size, the message id, the chunk number and the size asked for. */
  lemma QueryReads(msgId: Byte, chunk: nat, bytesToRead: nat)
    requires chunk < 0x10000 && bytesToRead < 0x1_0000_0000
    ensures var f := I2cFrame(QUERY, QueryPayload(msgId, chunk, bytesToRead));
      && |f| == 11 && f[..3] == [0x33, 0x51, 7] && f[3] == msgId && f[4] + 256 * (f[5] as int) == chunk
      && f[6] + 0x100 * (f[7] as int) + 0x1_0000 * (f[8] as int) + 0x100_0000 * (f[9] as int) == bytesToRead
      && Sum(f[..10]) % 256 == f[10]
  {
    hide CheckSum, Sum;
    LowestFirst(bytesToRead);
    var payload := QueryPayload(msgId, chunk, bytesToRead);
    var body := Body(QUERY, payload);
    CheckSumIsSum(body);
    var f := I2cFrame(QUERY, payload);
    assert f[..10] == body && body[3..] == payload && f[3..10] == payload && payload[3..] == Little4(bytesToRead);
  }

  /** The payload of a call of the device's interface. */
  function ApiPayload(apiCode: Byte, chunk: nat, data: seq<Byte>): seq<Byte>
    requires chunk < 0x10000
  {
    [apiCode, chunk % 256, chunk / 256] + data
  }

  /** Likewise for a call: its size, the code, the chunk number and the data. */
  lemma ApiReads(apiCode: Byte, chunk: nat, data: seq<Byte>)
    requires chunk < 0x10000 && |data| + 3 < 0x1_0000_0000
    ensures var f := I2cFrame(GEO, ApiPayload(apiCode, chunk, data));
      var n := |data| + 3;
      && |f| == n + 7 && f[..2] == [0x33, 0x47]
      && f[2] + 0x100 * (f[3] as int) + 0x1_0000 * (f[4] as int) + 0x100_0000 * (f[5] as int) == n
      && f[6] == apiCode && f[7] + 256 * (f[8] as int) == chunk && f[9..n + 6] == data
      && Sum(f[..n + 6]) % 256 == f[n + 6]
  {
    hide CheckSum, Sum;
    LowestFirst(|data| + 3);
    var payload := ApiPayload(apiCode, chunk, data);
    var body := Body(GEO, payload);
    CheckSumIsSum(body);
    var f := I2cFrame(GEO, payload);
    var n := |data| + 3;
    assert f[..n + 6] == body && f[2..6] == Little4(n) && f[6..n + 6] == payload && payload[3..] == data;
  }

  // ----- Both transports, and the device's side

  /** The same call over a UART and over I2C, to devices that answer alike, gives the same result, however the
      responses are cut up on the way; and on the UART each frame has a start and an end byte around it. */
  method ApiCallsAgree(u: Link, i: Link, apiCode: Byte, data: seq<Byte>, chunk: nat, maxWrite: nat, stale: Byte)
    returns (fromUart: (Ret, Byte), fromI2c: (Ret, Byte))
    requires u.uart && !i.uart && u.replies == i.replies && u.written == i.written == []
    requires Ready(u, MSG_ACK, 0) && Ready(i, MSG_ACK, 0) && !u.broken && !i.broken && chunk < 0x10000
    modifies u, i
    ensures !u.broken && !i.broken && fromUart.0 != InvalidParam ==> fromUart == fromI2c
    ensures fromUart.0 == InvalidParam <==> fromI2c.0 == InvalidParam
    ensures !u.broken && !i.broken ==> u.written == Enclosed(i.written)
  {
    hide Outcome, I2cFrame;
    OutcomeIsNotInvalid(u.replies, COMMAND_RETRIES, MSG_ACK);
    var a, b := CallApi(u, apiCode, data, chunk, maxWrite, stale);
    var c, d := CallApi(i, apiCode, data, chunk, maxWrite, stale);
    fromUart, fromI2c := (a, b), (c, d);
  }

  function Enclosed(frames: seq<seq<Byte>>): (r: seq<seq<Byte>>)
    ensures |r| == |frames|
  {
    seq(|frames|, k requires 0 <= k < |frames| => [START] + frames[k] + [END])
  }

  lemma OutcomeIsNotInvalid(replies: seq<seq<Byte>>, tries: nat, msgType: Byte)
    requires forall k :: 0 <= k < |replies| ==> |replies[k]| >= I2cOverhead(msgType)
    ensures Outcome(replies, tries, msgType).0.ret != InvalidParam
    decreases |replies|
  {
    hide CheckSum;
    if replies != [] && tries > 0 {
      OutcomeIsNotInvalid(replies[1..], tries - 1, msgType);
      OutcomeIsNotInvalid(replies[1..], tries, msgType);
    }
  }

  method QueriesAgree(u: Link, i: Link, msgId: Byte, bytesToRead: nat, a: array<Byte>, b: array<Byte>, chunk: nat,
                      maxRead: nat, stale: Byte)
    returns (fromUart: (Ret, Option<Fate>), fromI2c: (Ret, Option<Fate>))
    requires u.uart && !i.uart && u.replies == i.replies && u.written == i.written == []
    requires Ready(u, RESULT, bytesToRead + 7) && Ready(i, RESULT, bytesToRead + 7)
    requires !u.broken && !i.broken && chunk < 0x10000
    requires a != b && a[..] == b[..] && bytesToRead <= a.Length
    modifies u, i, a, b
    ensures !u.broken && !i.broken ==> fromUart == fromI2c
    ensures !u.broken && !i.broken && fromUart.1 != Some(Overrun) ==> a[..] == b[..]
    ensures !u.broken && !i.broken && bytesToRead + 7 <= maxRead ==> u.written == Enclosed(i.written)
  {
    hide Outcome, I2cFrame, Answered;
    assert |a[..]| == |b[..]|;
    var x, y := CallQuery(u, msgId, bytesToRead, a, chunk, maxRead, stale);
    var z, w := CallQuery(i, msgId, bytesToRead, b, chunk, maxRead, stale);
    fromUart, fromI2c := (x, y), (z, w);
  }

  /** The response of a device to a query. */
  function DeviceResult(msgId: Byte, ack: Byte, answer: Answer): seq<Byte>
    requires answer.chunk < 0x10000
  {
    var body := [VERSION, RESULT] + Little4(|answer.data| + 7) + [msgId, ack] + Encoded(answer);
    body + [CheckSum(body)]
  }

  function Encoded(answer: Answer): seq<Byte>
    requires answer.chunk < 0x10000
  {
    [answer.status, answer.chunk % 256, answer.chunk / 256] + Little4(answer.valid) + answer.data
  }

  lemma FourBytes(n: nat)
    requires n < 0x1_0000_0000
    ensures var s := Little4(n); |s| == 4 && Four(s[0], s[1], s[2], s[3]) == n
  {
    assert n / 65536 == n / 256 / 256 && n / 16777216 == n / 65536 / 256;
  }

  lemma Arrives(msgId: Byte, answer: Answer)
    requires answer.chunk < 0x10000
    ensures var r := DeviceResult(msgId, ACK, answer);
      |r| == |answer.data| + 7 + I2cOverhead(RESULT) && I2cReply(r, RESULT) == Reply(Ok, Some(msgId), Encoded(answer))
  {
    hide CheckSum;
    var body := [VERSION, RESULT] + Little4(|answer.data| + 7) + [msgId, ACK] + Encoded(answer);
    var r := DeviceResult(msgId, ACK, answer);
    assert r[..|r| - 1] == body && r[8..|r| - 1] == Encoded(answer);
  }

  lemma Contents(answer: Answer)
    requires answer.chunk < 0x10000 && answer.valid < 0x1_0000_0000
    ensures var e := Encoded(answer);
      && |e| == |answer.data| + 7 && e[0] == answer.status && Two(e[1], e[2]) == answer.chunk
      && Four(e[3], e[4], e[5], e[6]) == answer.valid && e[7..] == answer.data
  {
    FourBytes(answer.valid);
    hide Little4, Four;
    var e := Encoded(answer);
    assert e[3..7] == Little4(answer.valid) && e[7..] == answer.data;
    assert e[3] == e[3..7][0] && e[4] == e[3..7][1] && e[5] == e[3..7][2] && e[6] == e[3..7][3];
  }

  /** As much of the data as the device says is good reaches the caller, unless the device says that more than the
      caller asked for is: then the copy runs over the end of a buffer. */
  lemma AnswerArrives(msgId: Byte, answer: Answer, stale: Byte, bytesToRead: nat)
    requires answer.chunk < 0x10000 && answer.valid < 0x1_0000_0000 && |answer.data| == bytesToRead
    ensures |DeviceResult(msgId, ACK, answer)| == bytesToRead + 7 + I2cOverhead(RESULT)
    ensures var reply := I2cReply(DeviceResult(msgId, ACK, answer), RESULT);
      && |reply.data| == bytesToRead + 7
      && var copied := if bytesToRead == 0 then 0 else Widened(answer.valid);
         Answered(reply, msgId, bytesToRead, stale)
           == (Ok, Some(if copied <= bytesToRead then Delivered(answer.status, answer.chunk, answer.data[..copied])
                        else Overrun))
  {
    hide CheckSum, I2cReply, DeviceResult, Encoded, Four, Two;
    Arrives(msgId, answer);
    Contents(answer);
    var e := Encoded(answer);
    assert forall n :: 0 <= n <= bytesToRead ==> e[7..7 + n] == e[7..][..n];
  }

  /** A device's refusal reaches the caller, who gets no data; and so does an answer to another message. After an
      unknown code the caller gets the zeros that the receive buffer was filled with, if the stale id fits. */
  lemma RefusalArrives(msgId: Byte, other: Byte, ack: Byte, answer: Answer, stale: Byte, bytesToRead: nat)
    requires answer.chunk < 0x10000 && |answer.data| == bytesToRead
    ensures var reply := I2cReply(DeviceResult(other, ack, answer), RESULT);
      && (reply.msgId.Some? ==> |reply.data| == bytesToRead + 7)
      && var fate := Answered(reply, msgId, bytesToRead, stale);
         && (ack == 1 && other != msgId ==> fate == (MsgIdMismatched, None))
         && (ack == 2 ==> fate == (GeneralError, None))
         && (ack == 3 ==> fate == (CmdChecksumFailed, None))
         && (ack == 4 ==> fate == (DeviceBusy, None))
         && (ack == 0 || ack > 4 ==>
               fate == if stale == msgId then (Ok, Some(Delivered(0, 0, []))) else (MsgIdMismatched, None))
  {
    hide CheckSum, I2cReply, Encoded, Fetched;
    ZerosFetched(bytesToRead);
    SoundResult(other, ack, answer);
    ReplyDecides(DeviceResult(other, ack, answer), RESULT);
    hide DeviceResult;
  }

  lemma ZerosFetched(bytesToRead: nat)
    ensures Fetched(seq(bytesToRead + 7, _ => 0), bytesToRead) == Delivered(0, 0, [])
  {
  }

  lemma SoundResult(msgId: Byte, ack: Byte, answer: Answer)
    requires answer.chunk < 0x10000
    ensures var r := DeviceResult(msgId, ack, answer);
      Sound(r, RESULT) && |r| == |answer.data| + 16 && r[7] == ack && r[6] == msgId && r[8..|r| - 1] == Encoded(answer)
  {
    hide CheckSum;
    var body := [VERSION, RESULT] + Little4(|answer.data| + 7) + [msgId, ack] + Encoded(answer);
    var r := DeviceResult(msgId, ack, answer);
    assert r[..|r| - 1] == body && r[8..|r| - 1] == Encoded(answer);
  }

  /** For requests of less than two gigabytes the copy stays inside both buffers exactly when the device does not
      claim more than it was asked for. */
  lemma CopyStaysInside(msgId: Byte, answer: Answer, stale: Byte, bytesToRead: nat)
    requires answer.chunk < 0x10000 && answer.valid < 0x1_0000_0000
    requires |answer.data| == bytesToRead && 0 < bytesToRead < 0x8000_0000
    ensures var reply := I2cReply(DeviceResult(msgId, ACK, answer), RESULT);
      && |reply.data| == bytesToRead + 7
      && (Answered(reply, msgId, bytesToRead, stale) == (Ok, Some(Overrun)) <==> answer.valid > bytesToRead)
  {
    hide CheckSum, I2cReply, DeviceResult, Answered;
    AnswerArrives(msgId, answer, stale, bytesToRead);
  }

  /** A well-formed response that makes the copy overrun, for any request. */
  lemma ClaimsOneTooMany(msgId: Byte, status: Byte, data: seq<Byte>, stale: Byte)
    requires 0 < |data| < 0xFFFF_FFFF
    ensures var r := DeviceResult(msgId, ACK, Answer(status, 0, |data| + 1, data));
      && |r| == |data| + 7 + I2cOverhead(RESULT) && |I2cReply(r, RESULT).data| == |data| + 7
      && Answered(I2cReply(r, RESULT), msgId, |data|, stale) == (Ok, Some(Overrun))
  {
    hide CheckSum, I2cReply, DeviceResult, Answered;
    AnswerArrives(msgId, Answer(status, 0, |data| + 1, data), stale, |data|);
  }

  // ----- Replies that are too long

  /** A reply with more bytes than asked for, `x` being the first that is too many. I2C judges what it asked for;
      the UART takes `x` for the end byte. The two agree exactly when `x` happens to be one, or the reply is
      refused for its frame anyway. */
  lemma OverlongReplies(r: seq<Byte>, x: Byte, more: seq<Byte>, msgType: Byte)
    requires |r| >= I2cOverhead(msgType)
    ensures var sent := r + [x] + more;
      var u, i := ([START] + sent + [END])[..|r| + 2], sent[..|r|];
      && I2cReply(i, msgType) == I2cReply(r, msgType)
      && UartReply(u, msgType) == (if x == END then I2cReply(r, msgType) else Refused(GeneralError))
      && (UartReply(u, msgType) == I2cReply(i, msgType)
          <==> x == END || I2cReply(r, msgType) == Refused(GeneralError))
  {
    hide CheckSum, I2cReply;
    var sent := r + [x] + more;
    var u := ([START] + sent + [END])[..|r| + 2];
    assert sent[..|r|] == r && u == [START] + r + [x];
    if x == END {
      RepliesAgree(r, msgType);
    }
  }
}
