/**
  Framing of messages on a byte stream. The sender queues whole messages and hands the channel
  whatever part of them it takes; the receiver is fed chunks cut anywhere and puts the messages
  together again. The reference is an automaton that reads one byte at a time.
 */
module WireFraming {
  import opened Basics

  const HEADER_SIZE := 24
  const COMMAND_OFFSET := 4
  const COMMAND_SIZE := 12
  const MESSAGE_SIZE_OFFSET := 16
  const CHECKSUM_OFFSET := 20
  const MAX_SIZE := 0x0200_0000
  const MAX_PROTOCOL_MESSAGE_LENGTH := 2 * 1024 * 1024
  const ALLOCATE_AHEAD := 256 * 1024

  // ---- Numbers in the header ----

  function Le32(b: seq<Byte>): (n: nat)
    requires |b| == 4
    ensures n < 0x1_0000_0000
  {
    b[0] as int + 256 * b[1] as int + 65536 * b[2] as int + 16777216 * b[3] as int
  }

  function ToLe32(n: nat): (b: seq<Byte>)
    requires n < 0x1_0000_0000
    ensures |b| == 4 && Le32(b) == n
  {
    var n1 := n / 256;
    var n2 := n1 / 256;
    [n % 256, n1 % 256, n2 % 256, n2 / 256]
  }

  /** Numbers go over the wire with the lowest byte first. */
  lemma LowByteFirst(n: nat)
    requires n < 0x1_0000_0000
    ensures var b := ToLe32(n); b[0] == n % 256 && b[1] == n / 256 % 256 && b[2] == n / 256 / 256 % 256 && b[3] == n / 256 / 256 / 256
  {
  }

  // ---- The reference: one byte at a time ----

  /** A message as it is received: its header and its data. */
  datatype Message = Message(header: seq<Byte>, data: seq<Byte>)

  datatype Partial = Head(bytes: seq<Byte>) | Body(header: seq<Byte>, data: seq<Byte>)

  datatype Rx = Rx(done: seq<Message>, cur: Partial, failed: bool)

  function SizeOf(header: seq<Byte>): nat
    requires |header| == HEADER_SIZE
  {
    Le32(header[MESSAGE_SIZE_OFFSET..CHECKSUM_OFFSET])
  }

  ghost predicate PartialOk(p: Partial)
  {
    match p
    case Head(h) => |h| < HEADER_SIZE
    case Body(h, d) => |h| == HEADER_SIZE && |d| < SizeOf(h) <= MAX_PROTOCOL_MESSAGE_LENGTH
  }

  /** A header or a message that is as long as it should be. */
  ghost function Settled(done: seq<Message>, p: Partial): Rx
    requires p.Head? ==> |p.bytes| <= HEADER_SIZE
    requires p.Body? ==> |p.header| == HEADER_SIZE
  {
    match p
    case Head(h) =>
      if |h| < HEADER_SIZE then Rx(done, p, false)
      else if SizeOf(h) > MAX_PROTOCOL_MESSAGE_LENGTH then Rx(done, Head([]), true)
      else if SizeOf(h) == 0 then Rx(done + [Message(h, [])], Head([]), false)
      else Rx(done, Body(h, []), false)
    case Body(h, d) =>
      if |d| < SizeOf(h) then Rx(done, p, false) else Rx(done + [Message(h, d)], Head([]), false)
  }

  ghost function Extended(p: Partial, s: seq<Byte>): Partial
  {
    match p
    case Head(h) => Head(h + s)
    case Body(h, d) => Body(h, d + s)
  }

  ghost function Step(rx: Rx, b: Byte): (r: Rx)
    requires PartialOk(rx.cur)
    ensures PartialOk(r.cur)
  {
    if rx.failed then rx else Settled(rx.done, Extended(rx.cur, [b]))
  }

  ghost function Run(rx: Rx, s: seq<Byte>): (r: Rx)
    requires PartialOk(rx.cur)
    ensures PartialOk(r.cur)
  {
    if s == [] then rx else Step(Run(rx, s[..|s| - 1]), s[|s| - 1])
  }

  /** Parsing one chunk after another is parsing them in one piece. */
  lemma {:induction false} RunConcat(rx: Rx, a: seq<Byte>, b: seq<Byte>)
    requires PartialOk(rx.cur)
    ensures Run(Run(rx, a), b) == Run(rx, a + b)
    decreases |b|
  {
    hide Step;
    if b == [] {
      assert a + b == a;
    } else {
      assert (a + b)[..|a + b| - 1] == a + b[..|b| - 1];
      RunConcat(rx, a, b[..|b| - 1]);
    }
  }

  lemma {:induction false} FailedStays(rx: Rx, s: seq<Byte>)
    requires PartialOk(rx.cur) && rx.failed
    ensures Run(rx, s) == rx
    decreases |s|
  {
    if s != [] { FailedStays(rx, s[..|s| - 1]); }
  }

  /** Completed messages are never taken back. */
  lemma {:induction false} DoneGrows(rx: Rx, s: seq<Byte>)
    requires PartialOk(rx.cur)
    ensures rx.done <= Run(rx, s).done
    decreases |s|
  {
    if s != [] { DoneGrows(rx, s[..|s| - 1]); }
  }

  /** What is already done plays no part in reading on. */
  lemma {:induction false} RunShift(done: seq<Message>, rx: Rx, s: seq<Byte>)
    requires PartialOk(rx.cur)
    ensures Run(rx.(done := done + rx.done), s) == Run(rx, s).(done := done + Run(rx, s).done)
    decreases |s|
  {
    if s != [] {
      var t := s[..|s| - 1];
      RunShift(done, rx, t);
      StepShift(done, Run(rx, t), s[|s| - 1]);
    }
  }

  lemma StepShift(done: seq<Message>, rx: Rx, b: Byte)
    requires PartialOk(rx.cur)
    ensures Step(rx.(done := done + rx.done), b) == Step(rx, b).(done := done + Step(rx, b).done)
  {
    hide SizeOf;
    assert forall m :: done + (rx.done + [m]) == (done + rx.done) + [m];
  }

  /** How many bytes the header or the message still needs. */
  ghost function Needs(p: Partial): nat
    requires PartialOk(p)
    ensures Needs(p) > 0
  {
    match p
    case Head(h) => HEADER_SIZE - |h|
    case Body(h, d) => SizeOf(h) - |d|
  }

  /** A chunk that does not go past the end of the header or of the message is taken in at once. */
  lemma {:induction false} RunWithin(done: seq<Message>, p: Partial, s: seq<Byte>)
    requires PartialOk(p) && 0 < |s| <= Needs(p)
    ensures var e := Extended(p, s);
            && (e.Head? ==> |e.bytes| <= HEADER_SIZE) && (e.Body? ==> |e.header| == HEADER_SIZE)
            && Run(Rx(done, p, false), s) == Settled(done, e)
    decreases |s|
  {
    hide SizeOf;
    var t, b := s[..|s| - 1], s[|s| - 1];
    if t == [] {
      assert s == [b] && Run(Rx(done, p, false), t) == Rx(done, p, false);
    } else {
      RunWithin(done, p, t);
      assert t + [b] == s;
      ExtendedTwice(p, t, [b]);
    }
  }

  lemma ExtendedTwice(p: Partial, a: seq<Byte>, b: seq<Byte>)
    ensures Extended(Extended(p, a), b) == Extended(p, a + b)
  {
    match p
    case Head(h) => assert h + a + b == h + (a + b);
    case Body(h, d) => assert d + a + b == d + (a + b);
  }

  // ---- The message under construction ----

  class NetMessage {
    var in_data: bool
    var hdrbuf: seq<Byte>
    var nHdrPos: nat
    var nMessageSize: nat
    var vRecv: seq<Byte>
    var nDataPos: nat

    /** Buffers are long enough, and never longer than the message. */
    ghost predicate Valid()
      reads this
    {
      && |hdrbuf| == HEADER_SIZE && nHdrPos <= HEADER_SIZE
      && (in_data <==> nHdrPos == HEADER_SIZE)
      && (!in_data ==> vRecv == [] && nDataPos == 0)
      && (in_data ==> nMessageSize == SizeOf(hdrbuf) <= MAX_PROTOCOL_MESSAGE_LENGTH && nDataPos <= |vRecv| <= nMessageSize)
    }

    predicate Complete()
      reads this
    {
      in_data && nMessageSize == nDataPos
    }

    ghost function Received(): Partial
      requires Valid()
      reads this
    {
      if in_data then Body(hdrbuf, vRecv[..nDataPos]) else Head(hdrbuf[..nHdrPos])
    }

    /** A complete message holds its data and nothing else. */
    ghost function Whole(): Message
      requires Valid() && Complete()
      ensures Body(Whole().header, Whole().data) == Received()
      reads this
    {
      assert vRecv == vRecv[..nDataPos];
      Message(hdrbuf, vRecv)
    }

    constructor ()
      ensures Valid() && !Complete() && Received() == Head([])
    {
      in_data, nHdrPos, nMessageSize, nDataPos := false, 0, 0xffff_ffff, 0;
      hdrbuf, vRecv := seq(HEADER_SIZE, _ => 0), [];
    }

    /** Takes bytes of the header; -1 if it announces more than any message may have. */
    method ReadHeader(pch: seq<Byte>) returns (handled: int)
      requires Valid() && !in_data && |pch| > 0
      modifies this
      ensures var n := if HEADER_SIZE - old(nHdrPos) < |pch| then HEADER_SIZE - old(nHdrPos) else |pch|;
              && nHdrPos == old(nHdrPos) + n <= |hdrbuf| == HEADER_SIZE
              && hdrbuf[..nHdrPos] == old(hdrbuf[..nHdrPos]) + pch[..n]
              && (handled == -1 || handled == n)
              && (handled == -1 <==> nHdrPos == HEADER_SIZE && SizeOf(hdrbuf) > MAX_SIZE)
              && (nHdrPos < HEADER_SIZE ==> !in_data)
              && (handled == n && nHdrPos == HEADER_SIZE ==> in_data && nMessageSize == SizeOf(hdrbuf))
              && vRecv == [] && nDataPos == 0
    {
      var nRemaining := HEADER_SIZE - nHdrPos;
      var nCopy := if nRemaining < |pch| then nRemaining else |pch|;
      hdrbuf := hdrbuf[..nHdrPos] + pch[..nCopy] + hdrbuf[nHdrPos + nCopy..];
      nHdrPos := nHdrPos + nCopy;
      if nHdrPos < HEADER_SIZE { return nCopy; }
      nMessageSize := SizeOf(hdrbuf);
      if nMessageSize > MAX_SIZE { return -1; }
      in_data := true;
      return nCopy;
    }

    /** Takes bytes of the data, growing the buffer ahead of them. */
    method ReadData(pch: seq<Byte>) returns (handled: nat)
      requires Valid() && in_data && !Complete() && |pch| > 0
      modifies this
      ensures Valid() && in_data && hdrbuf == old(hdrbuf)
      ensures handled == if nMessageSize - old(nDataPos) < |pch| then nMessageSize - old(nDataPos) else |pch|
      ensures Received() == Extended(old(Received()), pch[..handled])
    {
      var nRemaining := nMessageSize - nDataPos;
      var nCopy := if nRemaining < |pch| then nRemaining else |pch|;
      ghost var before := vRecv[..nDataPos];
      if |vRecv| < nDataPos + nCopy {
        var size := if nMessageSize < nDataPos + nCopy + ALLOCATE_AHEAD then nMessageSize else nDataPos + nCopy + ALLOCATE_AHEAD;
        vRecv := vRecv + seq(size - |vRecv|, _ => 0);
      }
      assert vRecv[..nDataPos] == before;
      vRecv := vRecv[..nDataPos] + pch[..nCopy] + vRecv[nDataPos + nCopy..];
      nDataPos := nDataPos + nCopy;
      assert vRecv[..nDataPos] == before + pch[..nCopy];
      return nCopy;
    }
  }

  datatype Status = MISSING_DATA | FAILURE | SUCCESS

  /** Feeds a message until it is complete, the input ends or the message is refused. */
  method Deserialize(pch: seq<Byte>, msg: NetMessage) returns (status: Status, rest: seq<Byte>)
    requires msg.Valid() && !msg.Complete()
    modifies msg
    ensures PartialOk(old(msg.Received()))
    ensures status.FAILURE? ==> Run(Rx([], old(msg.Received()), false), pch).failed
    ensures !status.FAILURE? ==>
              && msg.Valid() && |rest| <= |pch| && rest == pch[|pch| - |rest|..]
              && (msg.Complete() <==> status.SUCCESS?) && (status.MISSING_DATA? ==> rest == [])
              && Run(Rx([], old(msg.Received()), false), pch[..|pch| - |rest|])
                 == if status.SUCCESS? then Rx([msg.Whole()], Head([]), false) else Rx([], msg.Received(), false)
    ensures status.SUCCESS? ==> |rest| < |pch|
  {
    hide Run, SizeOf;
    OpenIsOk(msg);
    ghost var start := Rx([], msg.Received(), false);
    var k := 0;
    rest := pch;
    NothingRead(start);
    while |rest| > 0
      invariant 0 <= k <= |pch| && rest == pch[k..]
      invariant msg.Valid() && !msg.Complete() && PartialOk(msg.Received())
      invariant Run(start, pch[..k]) == Rx([], msg.Received(), false)
    {
      ghost var before := msg.Received();
      var handled;
      if !msg.in_data { handled := msg.ReadHeader(rest); } else { handled := msg.ReadData(rest); }
      ghost var n := if Needs(before) < |rest| then Needs(before) else |rest|;
      RunWithin([], before, rest[..n]);
      ReadOn(start, pch, k, n);
      if handled < 0 || (msg.in_data && msg.nMessageSize > MAX_PROTOCOL_MESSAGE_LENGTH) {
        assert msg.hdrbuf == msg.hdrbuf[..msg.nHdrPos];
        assert Run(start, pch[..k + n]).failed;
        FailedStays(Run(start, pch[..k + n]), pch[k + n..]);
        return FAILURE, rest;
      }
      k, rest := k + handled, rest[handled..];
      assert msg.nHdrPos == HEADER_SIZE ==> msg.hdrbuf == msg.hdrbuf[..msg.nHdrPos];
      assert msg.in_data ==> (msg.nDataPos == 0 ==> msg.vRecv[..msg.nDataPos] == []);
      if msg.Complete() {
        assert msg.vRecv == msg.vRecv[..msg.nDataPos];
        return SUCCESS, rest;
      }
      OpenIsOk(msg);
    }
    assert pch[..k] == pch;
    return MISSING_DATA, rest;
  }

  lemma OpenIsOk(msg: NetMessage)
    requires msg.Valid() && !msg.Complete()
    ensures PartialOk(msg.Received())
  {
  }

  lemma NothingRead(rx: Rx)
    requires PartialOk(rx.cur)
    ensures Run(rx, []) == rx
  {
  }

  lemma ReadOn(rx: Rx, pch: seq<Byte>, k: nat, n: nat)
    requires PartialOk(rx.cur) && k + n <= |pch|
    ensures Run(rx, pch[..k + n]) == Run(Run(rx, pch[..k]), pch[k..][..n])
    ensures Run(rx, pch) == Run(Run(rx, pch[..k + n]), pch[k + n..])
  {
    hide Run;
    RunConcat(rx, pch[..k], pch[k..][..n]);
    assert pch[..k] + pch[k..][..n] == pch[..k + n];
    RunConcat(rx, pch[..k + n], pch[k + n..]);
    assert pch[..k + n] + pch[k + n..] == pch;
  }

  // ---- Frames ----

  /** What BeginMessage and EndMessage put on the wire; start and checksum are arbitrary. */
  datatype Framing = Framing(start: seq<Byte>, checksum: seq<Byte> -> seq<Byte>) {
    ghost predicate Valid() { |start| == 4 && forall d :: |checksum(d)| == 4 }
  }

  ghost predicate IsFrame(f: seq<Byte>)
  {
    HEADER_SIZE <= |f| && SizeOf(f[..HEADER_SIZE]) == |f| - HEADER_SIZE <= MAX_PROTOCOL_MESSAGE_LENGTH
  }

  ghost function MessageOf(f: seq<Byte>): Message
    requires IsFrame(f)
  {
    Message(f[..HEADER_SIZE], f[HEADER_SIZE..])
  }

  ghost function Concat(fs: seq<seq<Byte>>): seq<Byte>
  {
    if fs == [] then [] else Concat(fs[..|fs| - 1]) + fs[|fs| - 1]
  }

  ghost function MessagesOf(fs: seq<seq<Byte>>): (r: seq<Message>)
    requires forall i :: 0 <= i < |fs| ==> IsFrame(fs[i])
    ensures |r| == |fs|
  {
    seq(|fs|, i requires 0 <= i < |fs| => MessageOf(fs[i]))
  }

  /** A whole frame is read back as the message it came from. */
  lemma ReadsFrame(done: seq<Message>, f: seq<Byte>)
    requires IsFrame(f)
    ensures Run(Rx(done, Head([]), false), f) == Rx(done + [MessageOf(f)], Head([]), false)
  {
    hide SizeOf, Run;
    var h, d := f[..HEADER_SIZE], f[HEADER_SIZE..];
    RunWithin(done, Head([]), h);
    assert [] + h == h && f == h + d;
    RunConcat(Rx(done, Head([]), false), h, d);
    if d != [] {
      assert [] + d == d;
      RunWithin(done, Body(h, []), d);
    } else {
      NothingRead(Rx(done + [MessageOf(f)], Head([]), false));
    }
  }

  lemma {:induction false} ReadsFrames(fs: seq<seq<Byte>>)
    requires forall i :: 0 <= i < |fs| ==> IsFrame(fs[i])
    ensures Run(Rx([], Head([]), false), Concat(fs)) == Rx(MessagesOf(fs), Head([]), false)
  {
    hide IsFrame, MessageOf, Run;
    if fs == [] {
      NothingRead(Rx([], Head([]), false));
    } else {
      var n := |fs| - 1;
      ReadsFrames(fs[..n]);
      ReadsFrame(MessagesOf(fs[..n]), fs[n]);
      RunConcat(Rx([], Head([]), false), Concat(fs[..n]), fs[n]);
      assert MessagesOf(fs) == MessagesOf(fs[..n]) + [MessageOf(fs[n])];
    }
  }

  /** Whatever part of the stream has arrived, the completed messages are the first ones sent. */
  lemma ReceivedIsPrefix(fs: seq<seq<Byte>>, s: seq<Byte>)
    requires (forall i :: 0 <= i < |fs| ==> IsFrame(fs[i])) && s <= Concat(fs)
    ensures var rx := Run(Rx([], Head([]), false), s);
            !rx.failed && rx.done <= MessagesOf(fs) && (s == Concat(fs) ==> rx.done == MessagesOf(fs))
  {
    hide Run, IsFrame;
    var start, rest := Rx([], Head([]), false), Concat(fs)[|s|..];
    assert s + rest == Concat(fs);
    ReadsFrames(fs);
    RunConcat(start, s, rest);
    DoneGrows(Run(start, s), rest);
    if Run(start, s).failed { FailedStays(Run(start, s), rest); }
  }

  // ---- The connection ----

  ghost predicate AllWhole(ms: seq<NetMessage>)
    reads ms
  {
    forall i :: 0 <= i < |ms| ==> ms[i].Valid() && ms[i].Complete()
  }

  ghost function Wholes(ms: seq<NetMessage>): (r: seq<Message>)
    requires AllWhole(ms)
    reads ms
  {
    if ms == [] then [] else Wholes(ms[..|ms| - 1]) + [ms[|ms| - 1].Whole()]
  }

  ghost function TotalSize(fs: seq<seq<Byte>>): nat { if fs == [] then 0 else |fs[0]| + TotalSize(fs[1..]) }

  class QueuedMessageConnection {
    /** What the channel answers to each attempt to send. */
    const answers: nat -> int
    /** Whether it then reports an error that is not one of being busy. */
    const errors: nat -> bool
    var calls: nat

    var ssSend: seq<Byte>
    var vSendMsg: seq<seq<Byte>>
    var nSendOffset: nat
    var nSendSize: int
    var fDisconnect: bool
    ghost var queued: seq<seq<Byte>>   // every message that was ever queued
    ghost var sent: seq<Byte>          // every byte that the channel ever took

    var vRecvMsg: seq<NetMessage>

    constructor (answers: nat -> int, errors: nat -> bool)
      ensures SendValid() && queued == [] && sent == [] && ssSend == [] && vRecvMsg == []
    {
      this.answers, this.errors := answers, errors;
      calls, ssSend, vSendMsg, nSendOffset, nSendSize, fDisconnect := 0, [], [], 0, 0, false;
      queued, sent, vRecvMsg := [], [], [];
    }

    // ---- Receiving ----

    ghost predicate RecvValid()
      reads this, vRecvMsg
    {
      && (forall i, j :: 0 <= i < j < |vRecvMsg| ==> vRecvMsg[i] != vRecvMsg[j])
      && (vRecvMsg != [] ==> AllWhole(vRecvMsg[..|vRecvMsg| - 1]) && vRecvMsg[|vRecvMsg| - 1].Valid())
    }

    ghost function Parsed(): Rx
      requires RecvValid()
      reads this, vRecvMsg
    {
      if vRecvMsg == [] then Rx([], Head([]), false) else
        var n := |vRecvMsg| - 1;
        var last := vRecvMsg[n];
        if last.Complete() then Rx(Wholes(vRecvMsg[..n]) + [last.Whole()], Head([]), false)
        else Rx(Wholes(vRecvMsg[..n]), last.Received(), false)
    }

    lemma ParsedOk()
      requires RecvValid()
      ensures PartialOk(Parsed().cur)
    {
      if vRecvMsg != [] && !vRecvMsg[|vRecvMsg| - 1].Complete() { OpenIsOk(vRecvMsg[|vRecvMsg| - 1]); }
    }

    /** Makes sure that the last message is one that can take bytes. */
    method OpenMessage()
      requires RecvValid()
      modifies this`vRecvMsg
      ensures RecvValid() && vRecvMsg != [] && !vRecvMsg[|vRecvMsg| - 1].Complete() && Parsed() == old(Parsed())
      ensures forall i :: 0 <= i < |vRecvMsg| ==> vRecvMsg[i] in old(vRecvMsg) || fresh(vRecvMsg[i])
    {
      hide NetMessage.Valid, NetMessage.Complete, NetMessage.Received;
      if vRecvMsg == [] || vRecvMsg[|vRecvMsg| - 1].Complete() {
        var msg := new NetMessage();
        ghost var before := vRecvMsg;
        vRecvMsg := vRecvMsg + [msg];
        assert vRecvMsg[..|before|] == before;
        if before != [] { assert before == before[..|before| - 1] + [before[|before| - 1]]; }
        assert AllWhole(before);
      }
    }

    /** Feeds the last message, or a new one, as much as it takes. */
    method FeedLast(left: seq<Byte>) returns (ok: bool, rest: seq<Byte>)
      requires RecvValid() && |left| > 0
      modifies this`vRecvMsg, vRecvMsg
      ensures PartialOk(old(Parsed()).cur)
      ensures !ok ==> Run(old(Parsed()), left).failed
      ensures ok ==> && RecvValid() && |rest| < |left| && rest == left[|left| - |rest|..]
                     && Parsed() == Run(old(Parsed()), left[..|left| - |rest|])
      ensures forall i :: 0 <= i < |vRecvMsg| ==> vRecvMsg[i] in old(vRecvMsg) || fresh(vRecvMsg[i])
    {
      hide Run, NetMessage.Valid, NetMessage.Complete, NetMessage.Received;
      ParsedOk();
      OpenMessage();
      var n := |vRecvMsg| - 1;
      var msg := vRecvMsg[n];
      ghost var done, cur := Wholes(vRecvMsg[..n]), msg.Received();
      assert msg !in vRecvMsg[..n] && msg in vRecvMsg;
      var status;
      status, rest := Deserialize(left, msg);
      assert done + [] == done;
      if status.FAILURE? {
        RunShift(done, Rx([], cur, false), left);
        return false, rest;
      }
      RunShift(done, Rx([], cur, false), left[..|left| - |rest|]);
      ok := true;
    }

    /** Feeding a chunk is running the byte automaton over it; false if the peer must be dropped. */
    method ConvertDataBufferToNetworkMessage(pch: seq<Byte>) returns (ok: bool)
      requires RecvValid()
      modifies this`vRecvMsg, vRecvMsg
      ensures PartialOk(old(Parsed()).cur)
      ensures ok ==> !Run(old(Parsed()), pch).failed && RecvValid() && Parsed() == Run(old(Parsed()), pch)
      ensures !ok ==> Run(old(Parsed()), pch).failed
      ensures forall i :: 0 <= i < |vRecvMsg| ==> vRecvMsg[i] in old(vRecvMsg) || fresh(vRecvMsg[i])
    {
      hide *;
      ParsedOk();
      ghost var start := Parsed();
      var left := pch;
      NothingRead(start);
      ghost var k := 0;
      while |left| > 0
        invariant 0 <= k <= |pch| && left == pch[k..]
        invariant RecvValid() && Parsed() == Run(start, pch[..k])
        invariant forall i :: 0 <= i < |vRecvMsg| ==> vRecvMsg[i] in old(vRecvMsg) || fresh(vRecvMsg[i])
        decreases |left|
      {
        var good, rest := FeedLast(left);
        if !good {
          ReadOn(start, pch, k, 0);
          assert pch[..k + 0] == pch[..k];
          return false;
        }
        ghost var taken := |left| - |rest|;
        ReadOn(start, pch, k, taken);
        left, k := rest, k + taken;
      }
      assert pch[..k] == pch;
      assert !Parsed().failed by { NotFailed(); }
      return true;
    }

    lemma NotFailed()
      requires RecvValid()
      ensures !Parsed().failed
    {
    }

    // ---- Sending ----

    /**
      The size counter is exact, the queue is the end of all that was queued, and the channel has
      taken everything before it and the part of its first message that has been sent.
     */
    ghost predicate SendValid()
      reads this`nSendSize, this`vSendMsg, this`queued, this`nSendOffset, this`sent
    {
      && nSendSize == TotalSize(vSendMsg)
      && (forall i :: 0 <= i < |queued| ==> Framed(queued[i]))
      && |vSendMsg| <= |queued| && vSendMsg == queued[|queued| - |vSendMsg|..]
      && SentUpTo(|queued| - |vSendMsg|)
    }

    /** The first n messages are out, and nSendOffset bytes of the next one. */
    ghost predicate SentUpTo(n: nat)
      reads this`queued, this`nSendOffset, this`sent
      requires n <= |queued|
    {
      Progressed(queued, n, nSendOffset, sent)
    }

    /** Hands the channel as much of one message as it takes: all that is left, or as many bytes as it answers. */
    method SendOne(data: seq<Byte>, ghost n: nat) returns (whole: bool)
      requires n < |queued| && data == queued[n] && SentUpTo(n) && (n + 1 < |queued| ==> |queued[n + 1]| > 0)
      modifies this`nSendOffset, this`nSendSize, this`sent, this`calls, this`fDisconnect
      ensures SentUpTo(if whole then n + 1 else n) && old(sent) <= sent
      ensures nSendSize == old(nSendSize) - if whole then |data| else 0
      ensures calls == old(calls) + 1
      ensures var answer := answers(old(calls));
              && (whole <==> answer >= |data| - old(nSendOffset)) && |data| > old(nSendOffset)
              && nSendOffset == (if whole then 0 else if answer > 0 then old(nSendOffset) + answer else old(nSendOffset))
              && fDisconnect == (old(fDisconnect) || (answer < 0 && errors(old(calls))))
    {
      hide Concat, Progressed;
      OffsetIsInside(queued, n, nSendOffset, sent);
      assert |data| > nSendOffset;   // the assertion of the source
      var nBytes := answers(calls);
      if nBytes > |data| - nSendOffset { nBytes := |data| - nSendOffset; }
      calls := calls + 1;
      if nBytes > 0 {
        SentPart(queued, n, nSendOffset, sent, nBytes);
        sent := sent + data[nSendOffset..nSendOffset + nBytes];
        nSendOffset := nSendOffset + nBytes;
        if nSendOffset == |data| {
          nSendOffset := 0;
          nSendSize := nSendSize - |data|;
          return true;
        }
      } else if nBytes < 0 && errors(calls - 1) {
        fDisconnect := true;
      }
      return false;
    }

    /**
      Message by message, until the channel does not take a whole one: the answers of the channel
      decide how many messages leave the queue, and how much of the next one is out.
     */
    method SendData()
      requires SendValid()
      modifies this`vSendMsg, this`nSendOffset, this`nSendSize, this`sent, this`calls, this`fDisconnect
      ensures SendValid() && old(sent) <= sent
      ensures var k := |old(vSendMsg)| - |vSendMsg|;
              && k >= 0 && vSendMsg == old(vSendMsg)[k..]
              && Stopped(answers, old(calls), old(vSendMsg), old(nSendOffset), k, calls, nSendOffset)
              && fDisconnect == (old(fDisconnect) || Drops(answers, errors, old(calls), old(vSendMsg), k))
    {
      hide *;
      ghost var first := |queued| - |vSendMsg|;
      QueueIs();
      var it := SendMessages(first);
      if it == |vSendMsg| {
        NothingLeft(vSendMsg, it);
        assert nSendOffset == 0 && nSendSize == 0;   // the assertions of the source
      }
      assert queued[first + it..] == queued[first..][it..];
      vSendMsg := vSendMsg[it..];
      QueueIsValid(first + it);
    }

    /** The loop of SendData: `it` messages are out, and what the channel answers to the next one stops it. */
    method SendMessages(ghost first: nat) returns (it: nat)
      requires |vSendMsg| <= |queued| && first == |queued| - |vSendMsg| && vSendMsg == queued[first..]
      requires (forall i :: 0 <= i < |queued| ==> Framed(queued[i])) && nSendSize == TotalSize(vSendMsg) && SentUpTo(first)
      modifies this`nSendOffset, this`nSendSize, this`sent, this`calls, this`fDisconnect
      ensures it <= |vSendMsg| && nSendSize == TotalSize(vSendMsg[it..]) && SentUpTo(first + it) && old(sent) <= sent
      ensures it == |vSendMsg| ==> nSendOffset == 0
      ensures Stopped(answers, old(calls), vSendMsg, old(nSendOffset), it, calls, nSendOffset)
      ensures fDisconnect == (old(fDisconnect) || Drops(answers, errors, old(calls), vSendMsg, it))
    {
      hide *;
      it := 0;
      assert vSendMsg[0..] == vSendMsg;
      AskedStarts(answers, calls, vSendMsg, nSendOffset);
      while it < |vSendMsg|
        invariant 0 <= it <= |vSendMsg|
        invariant nSendSize == TotalSize(vSendMsg[it..]) && SentUpTo(first + it)
        invariant old(sent) <= sent && fDisconnect == old(fDisconnect)
        invariant Asked(answers, old(calls), vSendMsg, old(nSendOffset), it, calls, nSendOffset)
      {
        assert vSendMsg[it] == queued[first + it];
        TotalSizeNext(vSendMsg, it);
        AskedNext(answers, errors, old(calls), vSendMsg, old(nSendOffset), it, calls, nSendOffset);
        FramedIsNotEmpty(first + it + 1);
        var whole := SendOne(vSendMsg[it], first + it);
        if !whole { return; }
        it := it + 1;
      }
      SentIsWhole(first + it);
      AskedEnds(answers, errors, old(calls), vSendMsg, old(nSendOffset), calls, nSendOffset);
    }

    lemma FramedIsNotEmpty(n: nat)
      requires forall i :: 0 <= i < |queued| ==> Framed(queued[i])
      ensures n < |queued| ==> |queued[n]| > 0
    {
    }

    lemma SentIsWhole(n: nat)
      requires n == |queued| && SentUpTo(n)
      ensures nSendOffset == 0
    {
    }

    lemma QueueIs()
      requires SendValid()
      ensures |vSendMsg| <= |queued| && vSendMsg == queued[|queued| - |vSendMsg|..] && SentUpTo(|queued| - |vSendMsg|)
      ensures (forall i :: 0 <= i < |queued| ==> Framed(queued[i])) && nSendSize == TotalSize(vSendMsg)
    {
    }

    lemma QueueIsValid(n: nat)
      requires n <= |queued| && vSendMsg == queued[n..] && SentUpTo(n) && nSendSize == TotalSize(vSendMsg)
      requires forall i :: 0 <= i < |queued| ==> Framed(queued[i])
      ensures SendValid()
    {
    }

    method BeginMessage(framing: Framing, name: seq<Byte>)
      requires framing.Valid() && ssSend == []
      modifies this`ssSend
      ensures ssSend == Opened(framing, name)
    {
      ssSend := framing.start + Padded(name) + seq(8, _ => 0);
    }

    /** A closed message goes to the end of the queue, and nothing of it is out yet. */
    method Enqueue(frame: seq<Byte>)
      requires SendValid() && Framed(frame)
      modifies this`vSendMsg, this`nSendSize, this`queued
      ensures SendValid() && queued == old(queued) + [frame] && vSendMsg == old(vSendMsg) + [frame]
      ensures old(vSendMsg) == [] ==> nSendOffset == 0
    {
      hide SizeOf, Concat, Framed, TotalSize;
      if vSendMsg == [] { SentIsWhole(|queued|); }
      QueueMore(frame);
      ghost var was, n := queued, |queued| - |vSendMsg|;
      vSendMsg := vSendMsg + [frame];
      queued := queued + [frame];
      nSendSize := nSendSize + |frame|;
      assert |queued| - |vSendMsg| == n && queued[n..] == was[n..] + [frame];
      assert SentUpTo(n);
    }

    /** Closes the message, queues it, and tries to send at once if nothing was queued before it. */
    method EndMessage(framing: Framing)
      requires SendValid() && framing.Valid()
      requires ssSend == [] || HEADER_SIZE <= |ssSend| < 0x1_0000_0000
      modifies this`ssSend, this`vSendMsg, this`nSendOffset, this`nSendSize, this`sent, this`calls, this`fDisconnect, this`queued
      ensures SendValid() && ssSend == [] && old(sent) <= sent
      ensures old(ssSend) == [] ==> queued == old(queued)
      ensures old(ssSend) != [] ==> queued == old(queued) + [Closed(framing, old(ssSend))] && Framed(Closed(framing, old(ssSend)))
      ensures old(ssSend) == [] || old(vSendMsg) != [] ==> sent == old(sent) && calls == old(calls)
      ensures old(ssSend) != [] && old(vSendMsg) == [] ==>
                && |vSendMsg| <= 1
                && Stopped(answers, old(calls), [Closed(framing, old(ssSend))], 0, 1 - |vSendMsg|, calls, nSendOffset)
    {
      hide *;
      if ssSend == [] { return; }
      ClosedIsFramed(framing, ssSend);
      var frame := Closed(framing, ssSend);
      Enqueue(frame);
      ssSend := [];
      if |vSendMsg| == 1 {
        assert vSendMsg == [frame];
        SendData();
      }
    }

    /** Begin, append, end: what is queued carries exactly the name of the command and the payload. */
    method PushMessage(framing: Framing, name: seq<Byte>, payload: seq<Byte>)
      requires SendValid() && framing.Valid() && ssSend == [] && 0 !in name && HEADER_SIZE + |payload| < 0x1_0000_0000
      modifies this`ssSend, this`vSendMsg, this`nSendOffset, this`nSendSize, this`sent, this`calls, this`fDisconnect, this`queued
      ensures SendValid() && ssSend == [] && old(sent) <= sent
      ensures |queued| == |old(queued)| + 1 && queued[..|old(queued)|] == old(queued)
      ensures Carries(framing, queued[|old(queued)|], name, payload)
    {
      hide Opened, Padded, Closed, Carries, Framing.Valid, TotalSize, Concat, Framed;
      PushedCarries(framing, name, payload);
      BeginMessage(framing, name);
      ssSend := ssSend + payload;
      EndMessage(framing);
    }

    lemma QueueMore(frame: seq<Byte>)
      requires SendValid() && Framed(frame)
      ensures TotalSize(vSendMsg + [frame]) == TotalSize(vSendMsg) + |frame|
      ensures var q, n := queued + [frame], |queued| - |vSendMsg|;
              && q[..n] == queued[..n]
              && (n < |queued| ==> q[n] == queued[n])
              && (n == |queued| ==> q[n] == frame && |frame| > 0 && frame[..0] == [] && sent == Concat(q[..n]) + frame[..0])
    {
      hide SizeOf, Concat;
      TotalSizeSnoc(vSendMsg, frame);
      assert (queued + [frame])[..|queued| - |vSendMsg|] == queued[..|queued| - |vSendMsg|];
    }
  }

  /** A message whose header tells its size. */
  ghost predicate Framed(f: seq<Byte>)
  {
    HEADER_SIZE <= |f| && SizeOf(f[..HEADER_SIZE]) == |f| - HEADER_SIZE
  }

  /** The message with its size and its checksum filled in. */
  function Closed(framing: Framing, s: seq<Byte>): (r: seq<Byte>)
    requires HEADER_SIZE <= |s| < 0x1_0000_0000
    ensures |framing.checksum(s[HEADER_SIZE..])| == 4 ==> |r| == |s|
  {
    s[..MESSAGE_SIZE_OFFSET] + ToLe32(|s| - HEADER_SIZE) + framing.checksum(s[HEADER_SIZE..]) + s[HEADER_SIZE..]
  }

  lemma ClosedIsFramed(framing: Framing, s: seq<Byte>)
    requires framing.Valid() && HEADER_SIZE <= |s| < 0x1_0000_0000
    ensures Framed(Closed(framing, s)) && Closed(framing, s)[HEADER_SIZE..] == s[HEADER_SIZE..]
    ensures Closed(framing, s)[..MESSAGE_SIZE_OFFSET] == s[..MESSAGE_SIZE_OFFSET]
    ensures Closed(framing, s)[CHECKSUM_OFFSET..HEADER_SIZE] == framing.checksum(s[HEADER_SIZE..])
  {
    var r := Closed(framing, s);
    assert |framing.checksum(s[HEADER_SIZE..])| == 4;
    assert r[..HEADER_SIZE][MESSAGE_SIZE_OFFSET..CHECKSUM_OFFSET] == ToLe32(|s| - HEADER_SIZE);
  }

  // ---- The header ----

  /** The name of the command, cut or filled up with zeros. */
  function Padded(name: seq<Byte>): (r: seq<Byte>)
    ensures |r| == COMMAND_SIZE
  {
    if |name| >= COMMAND_SIZE then name[..COMMAND_SIZE] else name + seq(COMMAND_SIZE - |name|, _ => 0)
  }

  /** A header with size and checksum zero. */
  function Opened(framing: Framing, name: seq<Byte>): seq<Byte> { framing.start + Padded(name) + seq(8, _ => 0) }

  /** What is before the first zero. */
  function Word(s: seq<Byte>): seq<Byte> { if s == [] || s[0] == 0 then [] else [s[0]] + Word(s[1..]) }

  function GetCommand(header: seq<Byte>): seq<Byte>
    requires |header| == HEADER_SIZE
  {
    Word(header[COMMAND_OFFSET..MESSAGE_SIZE_OFFSET])
  }

  lemma {:induction false} WordIs(s: seq<Byte>, n: nat)
    requires n <= |s| && 0 !in s[..n] && (n < |s| ==> s[n] == 0)
    ensures Word(s) == s[..n]
  {
    if n > 0 {
      assert s[..n][0] == s[0] && s[..n][1..] == s[1..][..n - 1];
      WordIs(s[1..], n - 1);
    }
  }

  /** The frame has the start string, the command, the size and the checksum of the payload, and the payload. */
  ghost predicate Carries(framing: Framing, f: seq<Byte>, name: seq<Byte>, payload: seq<Byte>)
  {
    && |f| == HEADER_SIZE + |payload| && f[..COMMAND_OFFSET] == framing.start
    && f[COMMAND_OFFSET..MESSAGE_SIZE_OFFSET] == Padded(name)
    && GetCommand(f[..HEADER_SIZE]) == (if |name| < COMMAND_SIZE then name else name[..COMMAND_SIZE])
    && SizeOf(f[..HEADER_SIZE]) == |payload| && f[CHECKSUM_OFFSET..HEADER_SIZE] == framing.checksum(payload)
    && f[HEADER_SIZE..] == payload
  }

  lemma NameComesBack(name: seq<Byte>)
    requires 0 !in name
    ensures Word(Padded(name)) == if |name| < COMMAND_SIZE then name else name[..COMMAND_SIZE]
  {
    var n := if |name| < COMMAND_SIZE then |name| else COMMAND_SIZE;
    assert Padded(name)[..n] == name[..n];
    assert forall b <- name[..n] :: b in name;
    WordIs(Padded(name), n);
  }

  lemma PushedCarries(framing: Framing, name: seq<Byte>, payload: seq<Byte>)
    requires framing.Valid() && 0 !in name && HEADER_SIZE + |payload| < 0x1_0000_0000
    ensures |Opened(framing, name)| == HEADER_SIZE
    ensures Carries(framing, Closed(framing, Opened(framing, name) + payload), name, payload)
  {
    hide Word;
    var s := Opened(framing, name) + payload;
    var f := Closed(framing, s);
    ClosedIsFramed(framing, s);
    NameComesBack(name);
    assert s[HEADER_SIZE..] == payload;
    assert f[..COMMAND_OFFSET] == f[..MESSAGE_SIZE_OFFSET][..COMMAND_OFFSET] == framing.start;
    assert f[COMMAND_OFFSET..MESSAGE_SIZE_OFFSET] == f[..MESSAGE_SIZE_OFFSET][COMMAND_OFFSET..] == Padded(name);
    assert f[..HEADER_SIZE][COMMAND_OFFSET..MESSAGE_SIZE_OFFSET] == f[COMMAND_OFFSET..MESSAGE_SIZE_OFFSET];
  }

  predicate Printable(b: Byte) { 32 <= b <= 126 }

  /** A printable word and nothing but zeros after it. */
  ghost predicate CommandOk(c: seq<Byte>, n: nat)
  {
    n <= |c| && (forall i :: 0 <= i < n ==> Printable(c[i])) && (forall i :: n <= i < |c| ==> c[i] == 0)
  }

  ghost predicate HeaderOk(framing: Framing, header: seq<Byte>)
    requires |header| == HEADER_SIZE
  {
    && header[..COMMAND_OFFSET] == framing.start
    && (exists n :: CommandOk(header[COMMAND_OFFSET..MESSAGE_SIZE_OFFSET], n))
    && SizeOf(header) <= MAX_SIZE
  }

  /** The scan of the command string: both loops move the same pointer. */
  method CommandIsValid(c: seq<Byte>) returns (ok: bool)
    ensures ok <==> exists n :: CommandOk(c, n)
    ensures ok ==> forall i :: 0 <= i < |c| ==> c[i] == 0 || 0x20 <= c[i] <= 0x7e
    ensures !ok ==> exists i :: 0 <= i < |c| && (c[i] == 0 ==> exists j :: i < j < |c| && c[j] != 0) && !(0x20 <= c[i] <= 0x7e)
  {
    var p := 0;
    while p < |c|
      invariant 0 <= p <= |c|
      invariant (forall i :: 0 <= i < p ==> Printable(c[i])) || exists n :: CommandOk(c, n)
      invariant p < |c| ==> forall i :: 0 <= i < p ==> Printable(c[i])
    {
      if c[p] == 0 {
        ghost var n := p;
        while p < |c|
          invariant n <= p <= |c| && forall i :: n <= i < p ==> c[i] == 0
        {
          if c[p] != 0 {
            forall m: nat ensures !CommandOk(c, m) { }
            return false;
          }
          p := p + 1;
        }
        assert CommandOk(c, n);
      } else if !Printable(c[p]) {
        forall m: nat ensures !CommandOk(c, m) { }
        return false;
      } else {
        p := p + 1;
      }
    }
    if forall i :: 0 <= i < |c| ==> Printable(c[i]) { assert CommandOk(c, |c|); }
    return true;
  }

  method IsValid(framing: Framing, header: seq<Byte>) returns (ok: bool)
    requires |header| == HEADER_SIZE
    ensures ok == HeaderOk(framing, header)
  {
    if header[..COMMAND_OFFSET] != framing.start { return false; }
    ok := CommandIsValid(header[COMMAND_OFFSET..MESSAGE_SIZE_OFFSET]);
    if !ok { return; }
    if SizeOf(header) > MAX_SIZE { return false; }
  }

  /** The header of a message that was pushed with a printable name is accepted, unless it is too long. */
  lemma PushedIsValid(framing: Framing, f: seq<Byte>, name: seq<Byte>, payload: seq<Byte>)
    requires Carries(framing, f, name, payload) && forall b <- name :: Printable(b)
    ensures HeaderOk(framing, f[..HEADER_SIZE]) <==> |payload| <= MAX_SIZE
  {
    hide SizeOf, Word;
    var h := f[..HEADER_SIZE];
    var c := h[COMMAND_OFFSET..MESSAGE_SIZE_OFFSET];
    assert c == f[COMMAND_OFFSET..MESSAGE_SIZE_OFFSET] == Padded(name);
    assert h[..COMMAND_OFFSET] == f[..COMMAND_OFFSET];
    assert CommandOk(c, if |name| < COMMAND_SIZE then |name| else COMMAND_SIZE);
  }

  /** The first n messages are out, and so many bytes of the next one. */
  /** Where sending starts in the i-th message of the queue. */
  function Begins(offset: nat, i: nat): nat { if i == 0 then offset else 0 }

  /** The channel was asked once for each of k messages, and every answer covers what was left of its message. */
  ghost predicate AllTaken(answers: nat -> int, from: nat, queue: seq<seq<Byte>>, offset: nat, k: nat)
  {
    k <= |queue| && forall i :: 0 <= i < k ==> answers(from + i) >= |queue[i]| - Begins(offset, i)
  }

  ghost predicate Asked(answers: nat -> int, from: nat, queue: seq<seq<Byte>>, offset: nat, k: nat, calls: nat, now: nat)
  {
    AllTaken(answers, from, queue, offset, k) && calls == from + k && (k < |queue| ==> now == Begins(offset, k))
  }

  /** After k whole messages the queue is empty, or the next answer falls short and says how much of the next message is out. */
  ghost predicate Stopped(answers: nat -> int, from: nat, queue: seq<seq<Byte>>, offset: nat, k: nat, calls: nat, now: nat)
  {
    && AllTaken(answers, from, queue, offset, k)
    && if k == |queue| then calls == from + k
       else
         && calls == from + k + 1 && answers(from + k) < |queue[k]| - Begins(offset, k)
         && now == Begins(offset, k) + if answers(from + k) > 0 then answers(from + k) else 0
  }

  /** The answer that stops the sending is an error for which the peer is dropped. */
  ghost predicate Drops(answers: nat -> int, errors: nat -> bool, from: nat, queue: seq<seq<Byte>>, k: nat)
  {
    k < |queue| && answers(from + k) < 0 && errors(from + k)
  }

  lemma AskedStarts(answers: nat -> int, from: nat, queue: seq<seq<Byte>>, offset: nat)
    ensures Asked(answers, from, queue, offset, 0, from, offset)
  {
  }

  lemma AskedNext(answers: nat -> int, errors: nat -> bool, from: nat, queue: seq<seq<Byte>>, offset: nat, k: nat,
                  calls: nat, now: nat)
    requires k < |queue| && Asked(answers, from, queue, offset, k, calls, now)
    ensures answers(calls) >= |queue[k]| - now ==> Asked(answers, from, queue, offset, k + 1, calls + 1, 0)
    ensures answers(calls) < |queue[k]| - now ==>
              Stopped(answers, from, queue, offset, k, calls + 1, if answers(calls) > 0 then now + answers(calls) else now)
    ensures Drops(answers, errors, from, queue, k) <==> answers(calls) < 0 && errors(calls)
  {
  }

  lemma AskedEnds(answers: nat -> int, errors: nat -> bool, from: nat, queue: seq<seq<Byte>>, offset: nat, calls: nat, now: nat)
    requires Asked(answers, from, queue, offset, |queue|, calls, now)
    ensures Stopped(answers, from, queue, offset, |queue|, calls, now) && !Drops(answers, errors, from, queue, |queue|)
  {
  }

  ghost predicate Progressed(fs: seq<seq<Byte>>, n: nat, offset: nat, sent: seq<Byte>)
    requires n <= |fs|
  {
    if n == |fs| then offset == 0 && sent == Concat(fs[..n])
    else offset < |fs[n]| && sent == Concat(fs[..n]) + fs[n][..offset]
  }

  lemma OffsetIsInside(fs: seq<seq<Byte>>, n: nat, offset: nat, sent: seq<Byte>)
    requires n <= |fs| && Progressed(fs, n, offset, sent)
    ensures if n == |fs| then offset == 0 else offset < |fs[n]|
  {
  }

  /** The channel takes some bytes of a message, or the rest of it. */
  lemma SentPart(fs: seq<seq<Byte>>, n: nat, offset: nat, sent: seq<Byte>, k: nat)
    requires n < |fs| && Progressed(fs, n, offset, sent) && 0 < k <= |fs[n]| - offset && (n + 1 < |fs| ==> |fs[n + 1]| > 0)
    ensures var now := sent + fs[n][offset..offset + k];
            if offset + k == |fs[n]| then Progressed(fs, n + 1, 0, now) else Progressed(fs, n, offset + k, now)
  {
    hide Concat;
    var f, more := fs[n], fs[n][offset..offset + k];
    assert f[..offset] + more == f[..offset + k];
    SentMore(sent, Concat(fs[..n]), f[..offset], more);
    if offset + k == |f| {
      ConcatNext(fs, n);
      assert f[..|f|] == f;
      if n + 1 < |fs| { assert fs[n + 1][..0] == [] && sent + more == (sent + more) + []; }
    }
  }

  lemma SentMore(sent: seq<Byte>, before: seq<Byte>, part: seq<Byte>, more: seq<Byte>)
    requires sent == before + part
    ensures sent + more == before + (part + more)
  {
  }

  lemma ConcatNext(fs: seq<seq<Byte>>, n: nat)
    requires n < |fs|
    ensures Concat(fs[..n + 1]) == Concat(fs[..n]) + fs[n]
  {
    assert fs[..n + 1][..n] == fs[..n];
  }

  lemma TotalSizeNext(fs: seq<seq<Byte>>, n: nat)
    requires n < |fs|
    ensures TotalSize(fs[n..]) == |fs[n]| + TotalSize(fs[n + 1..])
  {
    assert fs[n..][1..] == fs[n + 1..];
  }

  lemma NothingLeft(fs: seq<seq<Byte>>, n: nat)
    requires n == |fs|
    ensures TotalSize(fs[n..]) == 0
  {
  }

  lemma {:induction false} TotalSizeSnoc(fs: seq<seq<Byte>>, f: seq<Byte>)
    ensures TotalSize(fs + [f]) == TotalSize(fs) + |f|
  {
    if fs == [] {
      assert fs + [f] == [f] && [f][1..] == [];
    } else {
      assert (fs + [f])[1..] == fs[1..] + [f];
      TotalSizeSnoc(fs[1..], f);
    }
  }

  lemma {:induction false} ConcatPrefix(fs: seq<seq<Byte>>, n: nat)
    requires n <= |fs|
    ensures Concat(fs[..n]) <= Concat(fs)
    decreases |fs| - n
  {
    if n == |fs| { assert fs[..n] == fs; } else { ConcatPrefix(fs, n + 1); ConcatNext(fs, n); }
  }

  /** What the channel has taken is always a prefix of the stream of all queued messages, and all of it once the queue is empty. */
  lemma SentIsPrefix(c: QueuedMessageConnection)
    requires c.SendValid()
    ensures c.sent <= Concat(c.queued)
    ensures c.vSendMsg == [] ==> c.sent == Concat(c.queued)
  {
    hide Concat, Framed, TotalSize;
    var n := |c.queued| - |c.vSendMsg|;
    ConcatPrefix(c.queued, n);
    if n < |c.queued| {
      ConcatNext(c.queued, n);
      ConcatPrefix(c.queued, n + 1);
    } else {
      assert c.queued[..n] == c.queued;
    }
  }

  /**
    Both ends together: however the sender's writes were cut and however the bytes arrive, the
    receiver has completed the first messages that the sender queued, in order; all of them once
    everything has arrived.
   */
  lemma DeliveredInOrder(a: QueuedMessageConnection, b: QueuedMessageConnection, arrived: seq<Byte>)
    requires a.SendValid() && forall i :: 0 <= i < |a.queued| ==> |a.queued[i]| - HEADER_SIZE <= MAX_PROTOCOL_MESSAGE_LENGTH
    requires b.RecvValid() && arrived <= a.sent && b.Parsed() == Run(Rx([], Head([]), false), arrived)
    ensures b.Parsed().done <= MessagesOf(a.queued)
    ensures arrived == a.sent && a.vSendMsg == [] ==> b.Parsed().done == MessagesOf(a.queued)
    ensures !Run(Rx([], Head([]), false), arrived).failed
  {
    hide Concat, Run, SizeOf;
    SentIsPrefix(a);
    ReceivedIsPrefix(a.queued, arrived);
  }

  /** A receiver that has seen nothing, fed with the stream cut into any chunks. */
  method ReceiveChunks(a: QueuedMessageConnection, b: QueuedMessageConnection, chunks: seq<seq<Byte>>)
    requires a.SendValid() && forall i :: 0 <= i < |a.queued| ==> |a.queued[i]| - HEADER_SIZE <= MAX_PROTOCOL_MESSAGE_LENGTH
    requires a != b && b.vRecvMsg == [] && Concat(chunks) <= a.sent
    modifies b`vRecvMsg
    ensures b.RecvValid() && b.Parsed().done <= MessagesOf(a.queued)
    ensures Concat(chunks) == a.sent && a.vSendMsg == [] ==> b.Parsed().done == MessagesOf(a.queued)
  {
    hide *;
    ghost var start := Rx([], Head([]), false);
    NothingParsed(b);
    NothingRead0(chunks);
    var i := 0;
    while i < |chunks|
      invariant 0 <= i <= |chunks|
      invariant b.RecvValid() && b.Parsed() == Run(start, Concat(chunks[..i]))
      invariant forall k :: 0 <= k < |b.vRecvMsg| ==> fresh(b.vRecvMsg[k])
    {
      ConcatPrefix(chunks, i + 1);
      ConcatNext(chunks, i);
      RunConcat0(Concat(chunks[..i]), chunks[i]);
      StreamIsFine(a, Concat(chunks[..i + 1]));
      var ok := b.ConvertDataBufferToNetworkMessage(chunks[i]);
      i := i + 1;
    }
    assert chunks[..i] == chunks;
    DeliveredInOrder(a, b, Concat(chunks));
  }

  lemma NothingParsed(b: QueuedMessageConnection)
    requires b.vRecvMsg == []
    ensures b.RecvValid() && b.Parsed() == Rx([], Head([]), false)
  {
  }

  lemma NothingRead0(chunks: seq<seq<Byte>>)
    ensures Run(Rx([], Head([]), false), Concat(chunks[..0])) == Rx([], Head([]), false) && PartialOk(Head([]))
  {
  }

  lemma RunConcat0(a: seq<Byte>, b: seq<Byte>)
    ensures PartialOk(Head([])) && Run(Run(Rx([], Head([]), false), a), b) == Run(Rx([], Head([]), false), a + b)
  {
    RunConcat(Rx([], Head([]), false), a, b);
  }

  lemma StreamIsFine(a: QueuedMessageConnection, s: seq<Byte>)
    requires a.SendValid() && s <= a.sent
    requires forall i :: 0 <= i < |a.queued| ==> |a.queued[i]| - HEADER_SIZE <= MAX_PROTOCOL_MESSAGE_LENGTH
    ensures !Run(Rx([], Head([]), false), s).failed
  {
    hide Concat, Run, SizeOf;
    SentIsPrefix(a);
    ReceivedIsPrefix(a.queued, s);
  }
}
