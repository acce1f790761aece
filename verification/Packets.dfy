/** The packetizer: messages over a socket that delivers and accepts bytes in pieces of any size. */
module Packets {
  import opened Basics
  import opened Bytes
  import opened LongCodec
  import opened Framing
  import Rekey

  const LINEFEED: byte := 10
  const CR: byte := 13

  /** What one socket call does: move up to so many bytes, or fail in one of the ways the caller tells apart. */
  datatype Event = Ready(n: nat) | TimedOut | Again | Interrupted | Broken

  datatype IoResult = Data(x: bytes) | Count(n: nat) | Failed(e: Event) | Waiting

  /** Nothing is in store that was not before. */
  ghost predicate Remains(script: seq<Event>, before: seq<Event>) {
    forall e :: e in script ==> e in before
  }

  /** How many calls to come go through with room for at least `least` bytes. */
  function Readies(script: seq<Event>, least: nat): nat {
    if script == [] then 0
    else (if script[0].Ready? && script[0].n >= least then 1 else 0) + Readies(script[1..], least)
  }

  /**
   * A connected socket during one finite run: `script` is the fate of each call to come, `incoming` all bytes the
   * peer will have sent by the end of the run, `sent` the bytes accepted so far. A call beyond the script waits.
   */
  class Socket {
    var script: seq<Event>
    var incoming: bytes
    var sent: bytes

    constructor (script: seq<Event>, incoming: bytes)
      ensures this.script == script && this.incoming == incoming && sent == []
    {
      this.script, this.incoming, sent := script, incoming, [];
    }

    /** A non-empty piece of at most `n` bytes, empty only when the peer has closed. */
    method Recv(n: nat) returns (r: IoResult)
      requires n > 0
      modifies this
      ensures sent == old(sent)
      ensures (r.Waiting? <==> old(script) == []) && (r.Waiting? ==> script == [])
      ensures !r.Waiting? ==> |script| < |old(script)|
      ensures Remains(script, old(script)) && (r.Failed? ==> r.e in old(script))
      ensures r.Data? ==> |r.x| <= n && old(incoming) == r.x + incoming && (r.x == [] ==> incoming == [])
      ensures !r.Data? ==> incoming == old(incoming)
      ensures !r.Count? && (r.Failed? ==> !r.e.Ready?)
      ensures Readies(old(script), 0) == Readies(script, 0) + if r.Data? then 1 else 0
    {
      if script == [] {
        return Waiting;
      }
      var e := script[0];
      script := script[1..];
      match e
      case Ready(k) =>
        var m := Min(if k == 0 then 1 else k, Min(n, |incoming|));
        r := Data(incoming[..m]);
        incoming := incoming[m..];
      case _ =>
        r := Failed(e);
    }

    method Send(out: bytes) returns (r: IoResult)
      modifies this
      ensures incoming == old(incoming)
      ensures (r.Waiting? <==> old(script) == []) && (r.Waiting? ==> script == [])
      ensures !r.Waiting? ==> |script| < |old(script)|
      ensures Remains(script, old(script)) && (r.Failed? ==> r.e in old(script))
      ensures r.Count? && r.n == 0 && out != [] ==> Ready(0) in old(script)
      ensures r.Count? ==> r.n <= |out| && sent == old(sent) + out[..r.n]
      ensures !r.Count? ==> sent == old(sent)
      ensures !r.Data? && (r.Failed? ==> !r.e.Ready?)
      ensures out != [] ==> Readies(old(script), 1) == Readies(script, 1) + if r.Count? && r.n > 0 then 1 else 0
    {
      if script == [] {
        return Waiting;
      }
      var e := script[0];
      script := script[1..];
      match e
      case Ready(k) =>
        var m := Min(k, |out|);
        sent := sent + out[..m];
        r := Count(m);
      case _ =>
        r := Failed(e);
    }
  }

  /** Outcomes of the read and write loops: an end of file, a re-raised error, a request to rekey, or still waiting. */
  datatype Outcome = Done(data: bytes) | Eof | SocketError | NeedRekey | TimeoutError | Blocked

  datatype Fault = Wire(f: Framing.Fault) | IgnoringRekey | EmptyPayload

  datatype ReadOutcome = Message(cmd: byte, body: bytes, seqno: nat) | Invalid(fault: Fault) | NotRead(why: Outcome)

  datatype SendOutcome = Sent | EmptyData | PackError | NotSent(why: Outcome)

  /** Padding is zeros where nothing encrypts it, or where the cipher's counter mode makes random bytes a waste. */
  function PaddingBytes(zeros: bool, urandom: nat -> bytes, n: nat): (pad: bytes)
    requires |urandom(n)| == n
    ensures |pad| == n
    ensures zeros ==> forall b :: b in pad ==> b == 0
    ensures !zeros ==> pad == urandom(|pad|)
  {
    if zeros then Fill(0, n) else urandom(n)
  }

  /** A packet that is all there needs a call for each of its bytes at most, and so many are not to come. */
  ghost predicate TooFew(p: Parsed, script: seq<Event>) {
    p.Packet? ==> Readies(script, 0) < p.raw
  }

  /** `line` has no linefeed, and `data` is what is left of it once a final carriage return is dropped. */
  ghost predicate IsLine(data: bytes, line: bytes) {
    LINEFEED !in line && data == if line != [] && line[|line| - 1] == CR then line[..|line| - 1] else line
  }

  class Packetizer {
    const socket: Socket
    var closed: bool
    var handshakeTimedOut: bool
    var needRekey: bool
    var initCount: nat
    var remainder: bytes
    var sentBytes: nat
    var sentPackets: nat
    var receivedBytes: nat
    var receivedPackets: nat
    var receivedBytesOverflow: nat
    var receivedPacketsOverflow: nat
    var blockSizeOut: nat
    var blockSizeIn: nat
    var macSizeOut: nat
    var macSizeIn: nat
    var blockEngineOut: Cipher
    var blockEngineIn: Cipher
    var macEngineOut: (bytes, bytes) -> bytes
    var macEngineIn: (bytes, bytes) -> bytes
    var macKeyOut: bytes
    var macKeyIn: bytes
    var sequenceNumberOut: nat
    var sequenceNumberIn: nat

    function Out(): Direction
      reads this
    {
      Direction(blockEngineOut, blockSizeOut, macEngineOut, macSizeOut, macKeyOut, sequenceNumberOut)
    }

    function In(): Direction
      reads this
    {
      Direction(blockEngineIn, blockSizeIn, macEngineIn, macSizeIn, macKeyIn, sequenceNumberIn)
    }

    function Tally(): Rekey.Counters
      reads this
    {
      Rekey.Counters(needRekey, initCount, sentBytes, sentPackets,
                     receivedBytes, receivedPackets, receivedBytesOverflow, receivedPacketsOverflow)
    }

    /** All bytes not yet handed out: those over-read with the banner, then those still in the socket. */
    function Pending(): bytes
      reads this, socket
    {
      remainder + socket.incoming
    }

    ghost predicate Valid()
      reads this
    {
      Usable(Out()) && Usable(In())
    }

    constructor (socket: Socket)
      ensures Valid() && this.socket == socket && remainder == []
      ensures Tally() == Rekey.INITIAL
      ensures Out() == Direction(NoCipher, 8, NoMac, 0, [], 0) && In() == Out()
      ensures !closed && !handshakeTimedOut
    {
      this.socket := socket;
      closed, handshakeTimedOut, needRekey, initCount, remainder := false, false, false, 0, [];
      sentBytes, sentPackets, receivedBytes, receivedPackets := 0, 0, 0, 0;
      receivedBytesOverflow, receivedPacketsOverflow := 0, 0;
      blockSizeOut, blockSizeIn, macSizeOut, macSizeIn := 8, 8, 0, 0;
      blockEngineOut, blockEngineIn := NoCipher, NoCipher;
      macEngineOut, macEngineIn, macKeyOut, macKeyIn := NoMac, NoMac, [], [];
      sequenceNumberOut, sequenceNumberIn := 0, 0;
    }

    method SetOutboundCipher(engine: Cipher, blockSize: nat, macEngine: (bytes, bytes) -> bytes, macSize: nat,
                             macKey: bytes)
      modifies this`blockEngineOut, this`blockSizeOut, this`macEngineOut, this`macSizeOut, this`macKeyOut
      modifies this`sentBytes, this`sentPackets, this`initCount, this`needRekey
      ensures Out() == Direction(engine, blockSize, macEngine, macSize, macKey, old(sequenceNumberOut))
      ensures Tally() == Rekey.AfterOutbound(old(Tally()))
    {
      blockEngineOut, blockSizeOut, macEngineOut, macSizeOut, macKeyOut := engine, blockSize, macEngine, macSize,
          macKey;
      RestartSent();
    }

    /** Both resets clear the rekey flag only once the other direction has been switched too. */
    method RestartSent()
      modifies this`sentBytes, this`sentPackets, this`initCount, this`needRekey
      ensures Tally() == Rekey.AfterOutbound(old(Tally()))
    {
      sentBytes, sentPackets := 0, 0;
      initCount := Rekey.Or1(initCount);
      if initCount == 3 {
        initCount, needRekey := 0, false;
      }
    }

    method RestartReceived()
      modifies this`receivedBytes, this`receivedPackets, this`receivedBytesOverflow, this`receivedPacketsOverflow
      modifies this`initCount, this`needRekey
      ensures Tally() == Rekey.AfterInbound(old(Tally()))
    {
      receivedBytes, receivedPackets, receivedBytesOverflow, receivedPacketsOverflow := 0, 0, 0, 0;
      initCount := Rekey.Or2(initCount);
      if initCount == 3 {
        initCount, needRekey := 0, false;
      }
    }

    method CountSent(size: nat)
      modifies this`sentBytes, this`sentPackets, this`receivedBytesOverflow, this`receivedPacketsOverflow
      modifies this`needRekey
      ensures Tally() == Rekey.AfterSend(old(Tally()), size)
      ensures sentPackets == old(sentPackets) + 1 && sentBytes == old(sentBytes) + size
      ensures needRekey <==> old(needRekey) || sentPackets >= 0x2000_0000 || sentBytes >= 0x2000_0000
    {
      sentBytes := sentBytes + size;
      sentPackets := sentPackets + 1;
      var sentTooMuch := sentPackets >= Rekey.REKEY_PACKETS || sentBytes >= Rekey.REKEY_BYTES;
      if sentTooMuch && !needRekey {
        receivedBytesOverflow, receivedPacketsOverflow, needRekey := 0, 0, true;
      }
    }

    /** False when the peer has ignored the request to rekey for too long. */
    method CountReceived(raw: nat) returns (ok: bool)
      modifies this`receivedBytes, this`receivedPackets, this`receivedBytesOverflow, this`receivedPacketsOverflow
      modifies this`needRekey
      ensures (Tally(), ok) == Rekey.AfterRead(old(Tally()), raw)
      ensures receivedPackets == old(receivedPackets) + 1 && receivedBytes == old(receivedBytes) + raw
      ensures needRekey <==> old(needRekey) || receivedPackets >= 0x2000_0000 || receivedBytes >= 0x2000_0000
      ensures ok <==> !old(needRekey) || (receivedPacketsOverflow < 0x2000_0000 && receivedBytesOverflow < 0x2000_0000)
    {
      receivedBytes := receivedBytes + raw;
      receivedPackets := receivedPackets + 1;
      ok := true;
      if needRekey {
        receivedBytesOverflow := receivedBytesOverflow + raw;
        receivedPacketsOverflow := receivedPacketsOverflow + 1;
        if receivedPacketsOverflow >= Rekey.REKEY_PACKETS_OVERFLOW_MAX ||
           receivedBytesOverflow >= Rekey.REKEY_BYTES_OVERFLOW_MAX {
          ok := false;
        }
      } else if receivedPackets >= Rekey.REKEY_PACKETS || receivedBytes >= Rekey.REKEY_BYTES {
        receivedBytesOverflow, receivedPacketsOverflow, needRekey := 0, 0, true;
      }
    }

    method SetInboundCipher(engine: Cipher, blockSize: nat, macEngine: (bytes, bytes) -> bytes, macSize: nat,
                            macKey: bytes)
      modifies this`blockEngineIn, this`blockSizeIn, this`macEngineIn, this`macSizeIn, this`macKeyIn
      modifies this`receivedBytes, this`receivedPackets, this`receivedBytesOverflow, this`receivedPacketsOverflow
      modifies this`initCount, this`needRekey
      ensures In() == Direction(engine, blockSize, macEngine, macSize, macKey, old(sequenceNumberIn))
      ensures Tally() == Rekey.AfterInbound(old(Tally()))
    {
      blockEngineIn, blockSizeIn, macEngineIn, macSizeIn, macKeyIn := engine, blockSize, macEngine, macSize, macKey;
      RestartReceived();
    }

    /** What was left over from reading the version line comes first. */
    method TakeRemainder(n: nat) returns (out: bytes)
      modifies this`remainder
      ensures |out| <= n && old(Pending()) == out + Pending()
      ensures |out| < n ==> remainder == []
    {
      out := [];
      if |remainder| > 0 {
        out := remainder[..Min(n, |remainder|)];
        remainder := remainder[Min(n, |remainder|)..];
      }
    }

    /** What an error from the socket comes to: after a timeout or an interrupted call the read goes on. */
    method ReadError(e: Event, mayRekey: bool) returns (stop: Option<Outcome>)
      ensures e.TimedOut? || e.Again? ==>
                stop == if closed then Some(Eof) else if mayRekey && needRekey then Some(NeedRekey) else None
      ensures e.Interrupted? ==> stop == None
      ensures !e.TimedOut? && !e.Again? && !e.Interrupted? ==> stop == Some(if closed then Eof else SocketError)
    {
      stop := None;
      if e.TimedOut? || e.Again? {
        if closed {
          return Some(Eof);
        }
        if mayRekey && needRekey {
          return Some(NeedRekey);
        }
      } else if e.Interrupted? {
      } else if closed {
        return Some(Eof);
      } else {
        return Some(SocketError);
      }
    }

    /**
     * Exactly `n` bytes, over as many calls as it takes. Asking for a rekey gives up only while nothing has been
     * taken, so no byte is lost by it; an end of file means the stream is too short or was closed under us.
     */
    method ReadAll(n: nat, checkRekey: bool) returns (r: Outcome)
      modifies this`remainder, socket
      ensures socket.sent == old(socket.sent)
      ensures r.Done? ==> |r.data| == n && old(Pending()) == r.data + Pending()
      ensures r.NeedRekey? ==> checkRekey && needRekey && n > 0 && Pending() == old(Pending())
      ensures r.Eof? ==> closed || handshakeTimedOut || |old(Pending())| < n
      ensures r.Blocked? ==> socket.script == [] && Readies(old(socket.script), 0) < n
      ensures r.Done? ==> Readies(old(socket.script), 0) <= Readies(socket.script, 0) + n
      ensures r.SocketError? ==> !closed && Broken in old(socket.script)
      ensures !r.TimeoutError? && Remains(socket.script, old(socket.script))
    {
      ghost var all := Pending();
      var out := TakeRemainder(n);
      var left := n - |out|;
      while left > 0
        invariant 0 <= left == n - |out|
        invariant left == 0 ==> all == out + Pending()
        invariant left > 0 ==> remainder == [] && all == out + socket.incoming
        invariant socket.sent == old(socket.sent) && Remains(socket.script, old(socket.script))
        invariant Readies(old(socket.script), 0) <= Readies(socket.script, 0) + |out|
        decreases |socket.script|
      {
        if handshakeTimedOut {
          return Eof;
        }
        var x := socket.Recv(left);
        match x
        case Data(d) =>
          if d == [] {
            return Eof;
          }
          Regroup(out, d, socket.incoming);
          out := out + d;
          left := left - |d|;
        case Waiting =>
          return Blocked;
        case Failed(e) =>
          var stop := ReadError(e, checkRekey && |out| == 0);
          if stop.Some? {
            NothingTaken(out, socket.incoming);
            return stop.value;
          }
      }
      r := Done(out);
    }

    /** All of `out`, over as many calls as it takes; on failure some prefix of it has been sent. */
    method WriteAll(out: bytes) returns (r: Outcome)
      modifies socket
      ensures socket.incoming == old(socket.incoming)
      ensures r.Done? || r.Eof? || r.Blocked?
      ensures r.Blocked? ==> socket.script == [] && Readies(old(socket.script), 1) < |out|
      ensures r.Done? ==> Readies(old(socket.script), 1) <= Readies(socket.script, 1) + |out|
      ensures Remains(socket.script, old(socket.script))
      ensures r.Eof? ==> closed || Broken in old(socket.script) || Ready(0) in old(socket.script)
      ensures r.Done? ==> r.data == [] && socket.sent == old(socket.sent) + out
      ensures !r.Done? ==> exists k :: 0 <= k <= |out| && socket.sent == old(socket.sent) + out[..k]
    {
      var rest, iterations := out, 0;
      ghost var k := 0;
      while |rest| > 0
        invariant 0 <= k <= |out| && rest == out[k..] && socket.sent == old(socket.sent) + out[..k]
        invariant socket.incoming == old(socket.incoming) && Remains(socket.script, old(socket.script))
        invariant Readies(old(socket.script), 1) <= Readies(socket.script, 1) + k
        decreases |socket.script|
      {
        var x := socket.Send(rest);
        var n: int := 0;
        match x {
          case Waiting =>
            return Blocked;
          case Failed(e) =>
            if e.TimedOut? || e.Again? || e.Interrupted? {
              if closed {
                n := -1;
              }
            } else {
              n := -1;
            }
          case Count(m) =>
            n := m;
            k := k + m;
            if m == 0 && iterations > 10 {
              n := -1;
            }
            iterations := iterations + 1;
        }
        if n < 0 {
          return Eof;
        }
        if n == |rest| {
          return Done([]);
        }
        rest := rest[n..];
      }
      r := Done([]);
    }

    /**
     * The next line without its terminator; whatever was read beyond it is kept for the packets that follow. The
     * `expired` calls are the timeouts after which the deadline has passed.
     */
    method ReadLine(expired: nat) returns (r: Outcome)
      modifies this`remainder, socket
      ensures socket.sent == old(socket.sent)
      ensures r.Done? ==> exists line ::
                IsLine(r.data, line) && old(Pending()) == line + [LINEFEED] + Pending()
      ensures r.Blocked? ==>
                && socket.script == []
                && LINEFEED !in old(Pending())[..Min(Readies(old(socket.script), 0), |old(Pending())|)]
      ensures r.Eof? ==> closed || LINEFEED !in old(Pending())
      ensures r.SocketError? ==> Broken in old(socket.script) || Again in old(socket.script)
      ensures !r.NeedRekey?
    {
      var buf, timeouts := remainder, 0;
      while LINEFEED !in buf
        invariant old(Pending()) == buf + socket.incoming
        invariant socket.sent == old(socket.sent) && Remains(socket.script, old(socket.script))
        invariant Readies(old(socket.script), 0) <= Readies(socket.script, 0) + |buf|
        decreases |socket.script|
      {
        var x := socket.Recv(128);
        match x
        case Data(d) =>
          if d == [] {
            return Eof;
          }
          assert buf + (d + socket.incoming) == (buf + d) + socket.incoming;
          buf := buf + d;
        case Waiting =>
          return Blocked;
        case Failed(e) =>
          if e.Broken? || e.Again? {
            return SocketError;
          }
          if closed {
            return Eof;
          }
          timeouts := timeouts + 1;
          if timeouts >= expired {
            return TimeoutError;
          }
      }
      r := TakeLine(buf);
      ghost var line :| IsLine(r.data, line) && buf == line + [LINEFEED] + remainder;
      Regroup(line + [LINEFEED], remainder, socket.incoming);
    }

    /** Cuts the buffer behind its first linefeed. */
    method TakeLine(buf: bytes) returns (r: Outcome)
      requires LINEFEED in buf
      modifies this`remainder
      ensures r.Done? && exists line :: IsLine(r.data, line) && buf == line + [LINEFEED] + remainder
    {
      var n := 0;
      while buf[n] != LINEFEED
        invariant 0 <= n < |buf| && LINEFEED !in buf[..n]
        invariant exists k :: n <= k < |buf| && buf[k] == LINEFEED
        decreases |buf| - n
      {
        n := n + 1;
      }
      remainder := buf[n + 1..];
      ghost var line := buf[..n];
      assert buf == line + [LINEFEED] + remainder;
      var data := buf[..n];
      if |data| > 0 && data[|data| - 1] == CR {
        data := data[..|data| - 1];
      }
      assert IsLine(data, line);
      r := Done(data);
    }

    /** The plain packet for a payload; `urandom` supplies the padding when the padding is not zeros. */
    method BuildPacket(payload: bytes, zeros: bool, urandom: nat -> bytes) returns (packet: bytes, ghost pad: bytes)
      requires Valid() && Frameable(payload, blockSizeOut)
      requires forall n :: |urandom(n)| == n
      ensures packet == Plain(payload, PaddingBytes(zeros, urandom, Padding(|payload|, blockSizeOut)))
      ensures pad == PaddingBytes(zeros, urandom, Padding(|payload|, blockSizeOut))
    {
      var padding := 3 + blockSizeOut - (|payload| + 8) % blockSizeOut;
      packet := Pack32(|payload| + padding + 1) + [padding as byte];
      packet := packet + payload;
      var fill := PaddingBytes(zeros, urandom, padding);
      packet := packet + fill;
      pad := fill;
    }

    /** Encrypts and authenticates one packet under the current outbound state. */
    method SealPacket(packet: bytes) returns (out: bytes)
      requires Usable(Out())
      modifies this`blockEngineOut, this`sequenceNumberOut
      ensures (Out(), out) == Seal(old(Out()), packet)
    {
      var d := Out();
      var (d', x) := Crypt(d, packet);
      out := x;
      if blockEngineOut.Cipher? {
        out := out + Mac(d, packet);
      }
      blockEngineOut := d'.cipher;
      sequenceNumberOut := (sequenceNumberOut + 1) % WORD;
    }

    /** Writes one packet and, once all of it is out, accounts for it. */
    method WriteCounted(out: bytes) returns (w: Outcome)
      modifies socket
      modifies this`sentBytes, this`sentPackets, this`receivedBytesOverflow, this`receivedPacketsOverflow
      modifies this`needRekey
      ensures socket.incoming == old(socket.incoming)
      ensures w.Done? ==> socket.sent == old(socket.sent) + out && Tally() == Rekey.AfterSend(old(Tally()), |out|)
      ensures w.Blocked? ==> socket.script == [] && Readies(old(socket.script), 1) < |out|
      ensures w.Done? ==> Readies(old(socket.script), 1) <= Readies(socket.script, 1) + |out|
      ensures w.Eof? ==> closed || Broken in old(socket.script) || Ready(0) in old(socket.script)
      ensures Remains(socket.script, old(socket.script))
      ensures w.Done? || w.Eof? || w.Blocked?
      ensures w.Done? ==> sentPackets == old(sentPackets) + 1 && sentBytes == old(sentBytes) + |out|
      ensures w.Done? ==>
                (needRekey <==> old(needRekey) || sentPackets >= 0x2000_0000 || sentBytes >= 0x2000_0000)
      ensures !w.Done? ==>
                Tally() == old(Tally()) && exists k :: 0 <= k <= |out| && socket.sent == old(socket.sent) + out[..k]
    {
      w := WriteAll(out);
      if w.Done? {
        CountSent(|out|);
      }
    }

    method FrameData(data: bytes, zeros: bool, urandom: nat -> bytes) returns (out: bytes, ghost pad: bytes)
      requires Valid() && Frameable(data, blockSizeOut)
      requires forall n :: |urandom(n)| == n
      modifies this`blockEngineOut, this`sequenceNumberOut
      ensures pad == PaddingBytes(zeros, urandom, Padding(|data|, blockSizeOut))
      ensures (Out(), out) == Frame(old(Out()), data, pad) && Valid()
    {
      var packet;
      packet, pad := BuildPacket(data, zeros, urandom);
      FrameUsable(Out(), data, pad);
      out := SealPacket(packet);
    }

    /**
     * One message. The sequence number moves before the write, the accounting after it. `sdctr` stands for the
     * counter mode flag, which only selects zero padding.
     */
    method SendMessage(data: bytes, sdctr: bool, urandom: nat -> bytes) returns (r: SendOutcome, ghost pad: bytes)
      requires Valid()
      requires forall n :: |urandom(n)| == n
      modifies this`blockEngineOut, this`sequenceNumberOut, socket
      modifies this`sentBytes, this`sentPackets, this`receivedBytesOverflow, this`receivedPacketsOverflow
      modifies this`needRekey
      ensures Valid() && socket.incoming == old(socket.incoming)
      ensures Remains(socket.script, old(socket.script))
      ensures r.NotSent? ==> r.why.Eof? || r.why.Blocked?
      ensures r.NotSent? && r.why.Blocked? ==> socket.script == []
      ensures r.NotSent? && r.why.Eof? ==> closed || Broken in old(socket.script) || Ready(0) in old(socket.script)
      ensures r.EmptyData? <==> data == []
      ensures r.PackError? <==> data != [] && !Frameable(data, blockSizeOut)
      ensures r.Sent? ==>
                && sentPackets == old(sentPackets) + 1
                && sentBytes + |old(socket.sent)| == old(sentBytes) + |socket.sent|
                && (needRekey <==> old(needRekey) || sentPackets >= 0x2000_0000 || sentBytes >= 0x2000_0000)
      ensures r.EmptyData? || r.PackError? ==>
                socket.sent == old(socket.sent) && Out() == old(Out()) && Tally() == old(Tally())
      ensures r.Sent? || r.NotSent? ==>
                && Frameable(data, blockSizeOut)
                && pad == PaddingBytes(sdctr || old(blockEngineOut).NoCipher?, urandom, Padding(|data|, blockSizeOut))
                && var (d, wire) := Frame(old(Out()), data, pad);
                   && Out() == d
                   && (r.Sent? ==>
                         && socket.sent == old(socket.sent) + wire && Tally() == Rekey.AfterSend(old(Tally()), |wire|)
                         && Readies(old(socket.script), 1) <= Readies(socket.script, 1) + |wire|)
                   && (r.NotSent? ==>
                         && (r.why.Blocked? ==> Readies(old(socket.script), 1) < |wire|)
                         && Tally() == old(Tally())
                         && exists k :: 0 <= k <= |wire| && socket.sent == old(socket.sent) + wire[..k])
    {
      hide Frame, PaddingBytes, Rekey.AfterSend;
      pad := [];
      if data == [] {
        return EmptyData, pad;
      }
      if !Frameable(data, blockSizeOut) {
        return PackError, pad;
      }
      var w;
      w, pad := SendFramed(data, sdctr || blockEngineOut.NoCipher?, urandom);
      r := if w.Done? then Sent else NotSent(w);
    }

    /** Frames a message and writes it. */
    method SendFramed(data: bytes, zeros: bool, urandom: nat -> bytes) returns (w: Outcome, ghost pad: bytes)
      requires Valid() && Frameable(data, blockSizeOut)
      requires forall n :: |urandom(n)| == n
      modifies this`blockEngineOut, this`sequenceNumberOut, socket
      modifies this`sentBytes, this`sentPackets, this`receivedBytesOverflow, this`receivedPacketsOverflow
      modifies this`needRekey
      ensures Valid() && socket.incoming == old(socket.incoming) && blockSizeOut == old(blockSizeOut)
      ensures Remains(socket.script, old(socket.script)) && (w.Done? || w.Eof? || w.Blocked?)
      ensures w.Blocked? ==> socket.script == []
      ensures w.Eof? ==> closed || Broken in old(socket.script) || Ready(0) in old(socket.script)
      ensures w.Done? ==>
                && sentPackets == old(sentPackets) + 1
                && sentBytes + |old(socket.sent)| == old(sentBytes) + |socket.sent|
                && (needRekey <==> old(needRekey) || sentPackets >= 0x2000_0000 || sentBytes >= 0x2000_0000)
      ensures pad == PaddingBytes(zeros, urandom, Padding(|data|, blockSizeOut))
      ensures var (d, wire) := Frame(old(Out()), data, pad);
              && Out() == d
              && (w.Done? ==>
                    && socket.sent == old(socket.sent) + wire && Tally() == Rekey.AfterSend(old(Tally()), |wire|)
                    && Readies(old(socket.script), 1) <= Readies(socket.script, 1) + |wire|)
              && (!w.Done? ==>
                    && (w.Blocked? ==> Readies(old(socket.script), 1) < |wire|)
                    && Tally() == old(Tally())
                    && exists k :: 0 <= k <= |wire| && socket.sent == old(socket.sent) + wire[..k])
    {
      hide Frame, PaddingBytes, Readies, Rekey.AfterSend;
      var out;
      out, pad := FrameData(data, zeros, urandom);
      w := WriteCounted(out);
    }

    /** Decrypts whole blocks under the current inbound state. */
    method Decrypt(data: bytes) returns (out: bytes)
      requires Usable(In()) && |data| % blockSizeIn == 0
      modifies this`blockEngineIn
      ensures (In(), out) == Crypt(old(In()), data)
      ensures Usable(In()) && |out| == |data|
    {
      CryptLength(In(), data);
      var (d, x) := Crypt(In(), data);
      out := x;
      blockEngineIn := d.cipher;
    }

    /** The transfer part of `read_message`: one packet off the stream, decrypted and checked. */
    method ReadPacket() returns (why: Outcome, p: Parsed)
      requires Usable(In())
      modifies this`blockEngineIn, this`sequenceNumberIn, this`remainder, socket
      ensures socket.sent == old(socket.sent)
      ensures why.NeedRekey? ==> needRekey && In() == old(In()) && Pending() == old(Pending())
      ensures why.Eof? ==> closed || handshakeTimedOut || Parse(old(In()), old(Pending())).Incomplete?
      ensures why.Blocked? ==> socket.script == [] && TooFew(Parse(old(In()), old(Pending())), old(socket.script))
      ensures why.Done? && p.Packet? ==> Readies(old(socket.script), 0) <= Readies(socket.script, 0) + p.raw
      ensures why.SocketError? ==> Broken in old(socket.script)
      ensures !why.TimeoutError? && Remains(socket.script, old(socket.script))
      ensures why.Done? ==> p == Parse(old(In()), old(Pending())) && !p.Incomplete?
      ensures why.Done? && p.Packet? ==> Usable(In()) && In() == p.d && Pending() == p.rest
      ensures why.Done? && p.Packet? ==> |old(Pending())| == p.raw + |Pending()|
    {
      hide Parse, ParseBody;
      ParseNothing(In(), Pending());
      p := Incomplete;
      var first := ReadAll(blockSizeIn, true);
      if !first.Done? {
        return first, p;
      }
      RemainderUnique(|first.data|, 1, 0, blockSizeIn);
      ghost var d0, rest1 := In(), Pending();
      var header := Decrypt(first.data);
      var packetSize := Unpack32(header[..4]);
      if (packetSize - (blockSizeIn - 4)) % blockSizeIn != 0 {
        ParseHeader(d0, first.data, rest1);
        return first, Malformed(Blocking);
      }
      BodyIsBlocks(packetSize, blockSizeIn);
      ParseShort(d0, first.data, rest1);
      ParseRaw(d0, first.data, rest1);
      var size := packetSize - (blockSizeIn - 4);
      var second := ReadAll(packetSize + macSizeIn - (blockSizeIn - 4), false);
      if !second.Done? {
        return second, p;
      }
      var body, mac := second.data[..size], second.data[size..];
      ghost var rest := Pending();
      assert old(Pending()) == first.data + (body + mac + rest);
      ParseCut(d0, first.data, body, mac, rest);
      p := OpenBody(header, body, mac, d0);
      why := second;
    }

    /** The rest of a packet after its first block: decrypted, checked, and stripped of its padding. */
    method OpenBody(header: bytes, body: bytes, mac: bytes, ghost d0: Direction) returns (p: Parsed)
      requires Usable(In()) && In() == d0.(cipher := In().cipher)
      requires |header| == blockSizeIn && |body| % blockSizeIn == 0 && |header| + |body| - 4 < WORD
      requires Usable(d0)
      modifies this`blockEngineIn, this`sequenceNumberIn
      ensures p == ParseBody(d0, old(In()), header, body, mac, Pending())
      ensures !p.Incomplete? && (p.Packet? ==> Usable(In()) && In() == p.d && p.rest == Pending())
    {
      var packetSize := |header| + |body| - 4;
      var tail := Decrypt(body);
      var packet := header[4..] + tail;
      if macSizeIn > 0 {
        var mine := Mac(In(), Pack32(packetSize) + packet);
        assert mine == Mac(d0, Pack32(packetSize) + packet);
        if mine != mac {
          return Malformed(BadMac);
        }
      }
      var padding := packet[0];
      var payload := Slice(packet, 1, packetSize - padding);
      sequenceNumberIn := (sequenceNumberIn + 1) % WORD;
      p := Packet(payload, packetSize + macSizeIn + 4, In(), Pending());
    }

    /**
     * One message, if the stream holds one: what is returned, raised and left unread is what `Parse` says of the
     * pending bytes, whatever pieces they arrive in.
     */
    method ReadMessage() returns (r: ReadOutcome)
      requires Valid()
      modifies this`blockEngineIn, this`sequenceNumberIn, this`remainder, socket
      modifies this`receivedBytes, this`receivedPackets, this`receivedBytesOverflow, this`receivedPacketsOverflow
      modifies this`needRekey
      ensures socket.sent == old(socket.sent)
      ensures r.NotRead? ==> Tally() == old(Tally()) && !r.why.Done? && !r.why.TimeoutError?
      ensures r.NotRead? && r.why.Eof? ==> closed || handshakeTimedOut || Parse(old(In()), old(Pending())).Incomplete?
      ensures r.NotRead? && r.why.Blocked? ==>
                socket.script == [] && TooFew(Parse(old(In()), old(Pending())), old(socket.script))
      ensures r.NotRead? && r.why.SocketError? ==> Broken in old(socket.script)
      ensures Remains(socket.script, old(socket.script))
      ensures r.NotRead? && r.why.NeedRekey? ==> needRekey && In() == old(In()) && Pending() == old(Pending())
      ensures r.Message? ==>
                && receivedPackets == old(receivedPackets) + 1
                && receivedBytes + |Pending()| == old(receivedBytes) + |old(Pending())|
                && (needRekey <==> old(needRekey) || receivedPackets >= 0x2000_0000 || receivedBytes >= 0x2000_0000)
      ensures !r.NotRead? ==>
                match Parse(old(In()), old(Pending()))
                case Incomplete => false
                case Malformed(fault) => r == Invalid(Wire(fault)) && Tally() == old(Tally())
                case Packet(payload, raw, d, rest) =>
                  && Valid() && In() == d && Pending() == rest
                  && Tally() == Rekey.AfterRead(old(Tally()), raw).0
                  && Readies(old(socket.script), 0) <= Readies(socket.script, 0) + raw
                  && r == if !Rekey.AfterRead(old(Tally()), raw).1 then Invalid(IgnoringRekey)
                          else if payload == [] then Invalid(EmptyPayload)
                          else Message(payload[0], payload[1..], old(sequenceNumberIn))
    {
      hide Parse, Rekey.AfterRead;
      var seqno := sequenceNumberIn;
      var why, p := ReadPacket();
      if !why.Done? {
        return NotRead(why);
      }
      if p.Malformed? {
        return Invalid(Wire(p.fault));
      }
      var ok := CountReceived(p.raw);
      if !ok {
        return Invalid(IgnoringRekey);
      }
      if p.payload == [] {
        return Invalid(EmptyPayload);
      }
      r := Message(p.payload[0], p.payload[1..], seqno);
    }
  }

  lemma Regroup(a: bytes, b: bytes, c: bytes)
    ensures a + (b + c) == (a + b) + c && [] + c == c
  {
  }

  lemma NothingTaken(out: bytes, rest: bytes)
    ensures [] + rest == rest && (out == [] ==> out + rest == rest)
  {
  }

  lemma ParseNothing(d: Direction, s: bytes)
    requires Usable(d)
    ensures |s| < d.blockSize ==> Parse(d, s).Incomplete?
    ensures Parse(d, s).Packet? ==> Parse(d, s).raw >= d.blockSize
  {
    if |s| >= d.blockSize {
      var first, rest := s[..d.blockSize], s[d.blockSize..];
      assert first + rest == s;
      HeaderSize(d, first);
      ParseRaw(d, first, rest);
      PacketHasBlock(d, first, rest);
    }
  }

  lemma PacketHasBlock(d: Direction, first: bytes, rest: bytes)
    requires Usable(d) && |first| == d.blockSize
    requires |Crypt(d, first).1| == d.blockSize
    ensures Parse(d, first + rest).Packet? ==> Unpack32(Crypt(d, first).1[..4]) >= d.blockSize - 4
  {
    hide ParseBody;
    assert (first + rest)[..d.blockSize] == first;
    var size := Unpack32(Crypt(d, first).1[..4]);
    if (size - (d.blockSize - 4)) % d.blockSize == 0 {
      BodyIsBlocks(size, d.blockSize);
    }
  }

  lemma ParseShort(d: Direction, first: bytes, rest: bytes)
    requires Usable(d) && |first| == d.blockSize
    requires |Crypt(d, first).1| == d.blockSize
    ensures var size := Unpack32(Crypt(d, first).1[..4]);
            (size - (d.blockSize - 4)) % d.blockSize == 0 && |rest| < size + d.macSize - (d.blockSize - 4) ==>
              Parse(d, first + rest).Incomplete?
  {
    hide ParseBody;
    assert (first + rest)[..d.blockSize] == first;
  }

  /** What is accounted for a packet is what it takes of the stream. */
  lemma ParseRaw(d: Direction, first: bytes, rest: bytes)
    requires Usable(d) && |first| == d.blockSize
    requires |Crypt(d, first).1| == d.blockSize
    ensures var p := Parse(d, first + rest);
            p.Packet? ==> p.raw == Unpack32(Crypt(d, first).1[..4]) + d.macSize + 4
  {
    hide ParseBody;
    var bs, s := d.blockSize, first + rest;
    assert s[..bs] == first;
    var (d1, header) := Crypt(d, first);
    var size := Unpack32(header[..4]);
    if (size - (bs - 4)) % bs == 0 {
      BodyIsBlocks(size, bs);
      if |s| >= 4 + size + d.macSize {
        RawOfBody(d, d1, header, s[bs..4 + size], s[4 + size..4 + size + d.macSize], s[4 + size + d.macSize..]);
      }
    }
  }

  lemma RawOfBody(d: Direction, d1: Direction, header: bytes, body: bytes, mac: bytes, rest: bytes)
    requires Usable(d) && |header| >= 8 && |header| + |body| - 4 < WORD && d1.blockSize > 0
    ensures var p := ParseBody(d, d1, header, body, mac, rest); p.Packet? ==> p.raw == |header| + |body| + d.macSize
  {
    hide Mac, Slice, Crypt;
  }

  lemma ParseHeader(d: Direction, first: bytes, rest: bytes)
    requires Usable(d) && |first| == d.blockSize
    requires |Crypt(d, first).1| == d.blockSize
    ensures (Unpack32(Crypt(d, first).1[..4]) - (d.blockSize - 4)) % d.blockSize != 0 ==>
              Parse(d, first + rest) == Malformed(Blocking)
  {
    assert (first + rest)[..d.blockSize] == first;
  }

  function NoMac(key: bytes, message: bytes): bytes {
    []
  }
}
