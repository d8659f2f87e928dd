/** The packets of the controller: a 32-bit length, lowest byte first, and then the payload. */
module Framing {
  import opened Words

  type Bytes = seq<Byte>

  const INT: nat := 0x8000_0000

  // ----- frames -----

  /** `BitConverter.GetBytes((uint)n)`: the low 32 bits. */
  function LengthBytes(n: nat): (b: Bytes)
    ensures |b| == 4
  {
    [n % 0x100, n / 0x100 % 0x100, n / 0x1_0000 % 0x100, n / 0x100_0000 % 0x100]
  }

  /** `BitConverter.ToInt32`. */
  function ToInt32(b: Bytes): int
    requires |b| == 4
  {
    var n: nat := b[0] as nat + 0x100 * b[1] as nat + 0x1_0000 * b[2] as nat + 0x100_0000 * b[3] as nat;
    if n < INT then n else n - UINT
  }

  /** The lowest byte of a length goes first, and comes first. */
  lemma LowestFirst(b: Bytes)
    requires |b| == 4
    ensures var n: nat := b[0] as nat + 0x100 * (b[1] as nat + 0x100 * (b[2] as nat + 0x100 * b[3] as nat));
            LengthBytes(n) == b && (ToInt32(b) == if n < INT then n else n - UINT)
  {
    var c: nat := b[2] as nat + 0x100 * b[3] as nat;
    var d: nat := b[1] as nat + 0x100 * c;
    var n: nat := b[0] as nat + 0x100 * d;
    assert n / 0x100 == d && d / 0x100 == c && c / 0x100 == b[3];
    DivTwice(n);
    assert n / 0x1_0000 == c && n / 0x100_0000 == b[3];
  }

  lemma LengthReadsBack(n: nat)
    requires n < UINT
    ensures ToInt32(LengthBytes(n)) == if n < INT then n else n - UINT
  {
    var a, b, c := n / 0x100, n / 0x1_0000, n / 0x100_0000;
    DivTwice(n);
    DivTwice(a);
    assert n == 0x100 * a + n % 0x100 && a == 0x100 * b + a % 0x100 && b == 0x100 * c + b % 0x100 && c == c % 0x100;
  }

  lemma DivTwice(n: nat)
    ensures n / 0x100 / 0x100 == n / 0x1_0000 && n / 0x100 / 0x1_0000 == n / 0x100_0000
  {
  }

  /** What `SendCommand` writes for one packet. */
  function Frame(payload: Bytes): Bytes { LengthBytes(|payload|) + payload }

  function Framed(payloads: seq<Bytes>): Bytes {
    if payloads == [] then [] else Frame(payloads[0]) + Framed(payloads[1..])
  }

  lemma {:induction false} FramedSnoc(payloads: seq<Bytes>, payload: Bytes)
    ensures Framed(payloads + [payload]) == Framed(payloads) + Frame(payload)
  {
    if payloads == [] {
      assert [payload][1..] == [];
    } else {
      FramedSnoc(payloads[1..], payload);
      assert (payloads + [payload])[1..] == payloads[1..] + [payload];
    }
  }

  /** The sending side: whether there is a connection, whether the simulation runs, and what went into the stream. */
  class Sender {
    var connected: bool
    var hasConn: bool
    var running: bool
    var stream: Bytes
    ghost var sent: seq<Bytes>

    ghost predicate Valid()
      reads this
    {
      stream == Framed(sent)
    }

    constructor ()
      ensures Valid() && sent == []
    {
      connected, hasConn, running, stream, sent := false, false, false, [], [];
    }

    /** `SendCommand`: while the simulation runs only a pause gets through; `encode` is the codec. */
    method SendCommand(prefix: string, cmd: string, ignoreRunning: bool, encode: string -> Bytes) returns (ok: bool)
      requires Valid()
      modifies this`stream, this`sent
      ensures Valid() && ok == (connected && hasConn && (!running || cmd == "pause" || cmd == "p" || ignoreRunning))
      ensures sent == if ok then old(sent) + [encode(prefix + " " + cmd)] else old(sent)
      ensures stream == if ok then old(stream) + Frame(encode(prefix + " " + cmd)) else old(stream)
    {
      if !connected {
        return false;
      }
      if !hasConn {
        return false;
      }
      if running && cmd != "pause" && cmd != "p" && !ignoreRunning {
        return false;
      }
      var bytes := encode(prefix + " " + cmd);
      FramedSnoc(sent, bytes);
      stream := stream + LengthBytes(|bytes|);
      stream := stream + bytes;
      sent := sent + [bytes];
      ok := true;
    }
  }

  // ----- what a receiver makes of a stream -----

  /** The stream begins with a length that the receiver accepts. */
  predicate Announced(s: Bytes) { |s| >= 4 && ToInt32(s[..4]) > 0 }

  /** The stream begins with a whole packet. */
  predicate Complete(s: Bytes) { Announced(s) && |s| >= 4 + ToInt32(s[..4]) }

  /** The size of that packet. */
  function First(s: Bytes): (n: nat)
    requires Complete(s)
    ensures 4 < n <= |s|
  {
    4 + ToInt32(s[..4])
  }

  function Packets(s: Bytes): seq<Bytes>
    decreases |s|
  {
    if !Complete(s) then [] else [s[4..First(s)]] + Packets(s[First(s)..])
  }

  /** The bytes after the last whole packet. */
  function Rest(s: Bytes): (r: Bytes)
    ensures !Complete(r) && |r| <= |s|
    decreases |s|
  {
    if !Complete(s) then s else Rest(s[First(s)..])
  }

  /** More bytes only concern the rest. */
  lemma {:induction false} MoreBytes(s: Bytes, t: Bytes)
    ensures Packets(s + t) == Packets(s) + Packets(Rest(s) + t) && Rest(s + t) == Rest(Rest(s) + t)
    decreases |s|
  {
    if Complete(s) {
      SameFirst(s, t);
      MoreBytes(s[First(s)..], t);
    } else {
      assert Rest(s) == s;
    }
  }

  lemma SameFirst(s: Bytes, t: Bytes)
    requires Complete(s)
    ensures Complete(s + t) && First(s + t) == First(s)
    ensures (s + t)[4..First(s)] == s[4..First(s)] && (s + t)[First(s)..] == s[First(s)..] + t
  {
    assert (s + t)[..4] == s[..4];
  }

  /** A length of nothing, or one that is negative as an int, stops the receiver for good. */
  predicate Acceptable(payload: Bytes) { 0 < |payload| < INT }

  /** The payloads before the first that is not acceptable. */
  function Accepted(payloads: seq<Bytes>): seq<Bytes> {
    if payloads == [] || !Acceptable(payloads[0]) then [] else [payloads[0]] + Accepted(payloads[1..])
  }

  lemma FrameStarts(payload: Bytes, more: Bytes)
    requires |payload| < UINT
    ensures var s := Frame(payload) + more;
            && s[..4] == LengthBytes(|payload|) && Announced(s) == Acceptable(payload)
            && s[4..4 + |payload|] == payload && s[4 + |payload|..] == more
            && (Acceptable(payload) ==> Complete(s) && ToInt32(s[..4]) == |payload|)
  {
    var s := Frame(payload) + more;
    assert s[..4] == LengthBytes(|payload|);
    LengthReadsBack(|payload|);
  }

  /** Exactly the payloads before the first unacceptable one come out of their frames. */
  lemma {:induction false} RoundTrip(payloads: seq<Bytes>)
    requires forall i :: 0 <= i < |payloads| ==> |payloads[i]| < UINT
    ensures Packets(Framed(payloads)) == Accepted(payloads)
    ensures (forall i :: 0 <= i < |payloads| ==> Acceptable(payloads[i])) ==>
              Accepted(payloads) == payloads && Rest(Framed(payloads)) == []
  {
    if payloads != [] {
      FrameStarts(payloads[0], Framed(payloads[1..]));
      if Acceptable(payloads[0]) {
        RoundTrip(payloads[1..]);
      }
    }
  }

  /** A stream that is cut anywhere yields the first payloads. */
  lemma CutStream(payloads: seq<Bytes>, s: Bytes, t: Bytes)
    requires (forall i :: 0 <= i < |payloads| ==> |payloads[i]| < UINT) && Framed(payloads) == s + t
    ensures Packets(s) <= Accepted(payloads)
  {
    RoundTrip(payloads);
    MoreBytes(s, t);
  }

  /** A stream that ends no later than its first packet. */
  lemma OnePacket(length: Bytes, payload: Bytes)
    requires |length| == 4 && |payload| <= ToInt32(length) && ToInt32(length) > 0
    ensures var s := length + payload;
            if |payload| == ToInt32(length) then Packets(s) == [payload] && Rest(s) == [] else Packets(s) == [] && Rest(s) == s
  {
    var s, n := length + payload, 4 + |payload|;
    assert s[..4] == length && s[4..n] == payload && s[n..] == [];
    if |payload| == ToInt32(length) {
      assert Packets(s) == [s[4..n]] + Packets(s[n..]);
    }
  }

  // ----- the receiver -----

  class Receiver {
    var revLength: nat
    var packetPayload: array?<Byte>
    const packetLength: array<Byte>
    var recvQueue: seq<Bytes>
    ghost var taken: Bytes

    /** The fields are determined by the bytes read so far. */
    ghost predicate Valid()
      reads this, packetLength, packetPayload
    {
      && packetLength.Length == 4 && recvQueue == Packets(taken) && packetPayload != packetLength
      && if packetPayload == null then revLength <= 4 && Rest(taken) == packetLength[..revLength] && !Announced(Rest(taken))
         else revLength < packetPayload.Length == ToInt32(packetLength[..])
              && Rest(taken) == packetLength[..] + packetPayload[..revLength]
    }

    constructor ()
      ensures Valid() && taken == [] && fresh(packetLength) && packetPayload == null
    {
      revLength, packetPayload, recvQueue, taken := 0, null, [], [];
      packetLength := new Byte[4](_ => 0);
    }

    /** How many bytes the next read asks for. */
    function Wanted(): nat
      requires Valid()
      reads this, packetLength, packetPayload
    {
      if packetPayload == null then 4 - revLength else packetPayload.Length - revLength
    }

    /** `stream.Read`: the chunk goes into the buffer at `at`. */
    method ReadInto(buffer: array<Byte>, at: nat, chunk: Bytes)
      requires at + |chunk| <= buffer.Length
      modifies buffer
      ensures buffer[..at + |chunk|] == old(buffer[..at]) + chunk
    {
      ghost var before := buffer[..at];
      for i := 0 to |chunk|
        invariant buffer[..at + i] == before + chunk[..i]
      {
        buffer[at + i] := chunk[i];
      }
    }

    /** One round of the receive loop while the length is being read, when the read returns these bytes. */
    method RoundForLength(chunk: Bytes)
      requires Valid() && packetPayload == null && |chunk| <= Wanted()
      modifies this, packetLength
      ensures Valid() && taken == old(taken) + chunk && (packetPayload == null || fresh(packetPayload))
    {
      ghost var rest := Rest(taken) + chunk;
      MoreBytes(taken, chunk);
      ReadInto(packetLength, revLength, chunk);
      revLength := revLength + |chunk|;
      taken := taken + chunk;
      assert packetLength[..revLength] == rest;
      if revLength == packetLength.Length {
        assert packetLength[..] == rest && rest[..4] == rest;
        var length := ToInt32(packetLength[..]);
        if length > 0 {
          packetPayload := new Byte[length];
          revLength := 0;
        }
      }
    }

    /** The same while the payload is being read. */
    method RoundForPayload(chunk: Bytes)
      requires Valid() && packetPayload != null && |chunk| <= Wanted()
      modifies this, packetPayload
      ensures Valid() && taken == old(taken) + chunk && (packetPayload == null || packetPayload == old(packetPayload))
    {
      ghost var rest := Rest(taken) + chunk;
      MoreBytes(taken, chunk);
      ReadInto(packetPayload, revLength, chunk);
      revLength := revLength + |chunk|;
      taken := taken + chunk;
      assert rest == packetLength[..] + packetPayload[..revLength];
      OnePacket(packetLength[..], packetPayload[..revLength]);
      if revLength == packetPayload.Length {
        assert packetPayload[..revLength] == packetPayload[..];
        recvQueue := recvQueue + [packetPayload[..]];
        packetPayload := null;
        revLength := 0;
      } else {
        assert recvQueue + [] == recvQueue;
      }
    }

    /** One round of the receive loop. */
    method Round(chunk: Bytes)
      requires Valid() && |chunk| <= Wanted()
      modifies this, packetLength, packetPayload
      ensures Valid() && taken == old(taken) + chunk
      ensures packetPayload == old(packetPayload) || packetPayload == null || fresh(packetPayload)
    {
      if packetPayload == null {
        RoundForLength(chunk);
      } else {
        RoundForPayload(chunk);
      }
    }

    /**
     * The loop on a whole stream, whatever number of bytes each read returns. It stops early only at a length that the
     * receiver does not accept.
     */
    method Receive(stream: Bytes)
      requires Valid() && taken == [] && packetPayload == null
      modifies this, packetLength
      ensures Valid() && taken <= stream && (taken == stream || Wanted() == 0)
      ensures recvQueue == Packets(taken)
    {
      var pos := 0;
      while pos < |stream| && Wanted() > 0
        invariant Valid() && pos == |taken| && taken <= stream && (packetPayload == null || fresh(packetPayload))
        decreases |stream| - pos
      {
        var n :| 1 <= n <= Wanted() && pos + n <= |stream|;
        Round(stream[pos..pos + n]);
        pos := pos + n;
      }
    }

    /** On frames of acceptable payloads, all of them or cut anywhere, the queue gets the payloads in order. */
    method ReceiveFrames(stream: Bytes, ghost payloads: seq<Bytes>, ghost missing: Bytes)
      requires Valid() && taken == [] && packetPayload == null
      requires (forall i :: 0 <= i < |payloads| ==> Acceptable(payloads[i])) && Framed(payloads) == stream + missing
      modifies this, packetLength
      ensures Valid() && taken == stream && recvQueue <= payloads && (missing == [] ==> recvQueue == payloads)
    {
      Receive(stream);
      if taken != stream {
        NeverStuck(payloads, taken, stream[|taken|..] + missing);
      }
      CutStream(payloads, stream, missing);
      RoundTrip(payloads);
      if missing == [] {
        assert stream + missing == stream;
      }
    }
  }

  /** No cut of acceptable frames leaves four bytes that are not an accepted length. */
  lemma NeverStuck(payloads: seq<Bytes>, s: Bytes, t: Bytes)
    requires (forall i :: 0 <= i < |payloads| ==> Acceptable(payloads[i])) && Framed(payloads) == s + t
    ensures |Rest(s)| >= 4 ==> Announced(Rest(s))
  {
    RoundTrip(payloads);
    MoreBytes(s, t);
    StuckStays(Rest(s), t);
  }

  lemma StuckStays(r: Bytes, t: Bytes)
    ensures |r| >= 4 && !Announced(r) ==> Rest(r + t) == r + t != []
  {
    if |r| >= 4 {
      assert (r + t)[..4] == r[..4];
    }
  }

  // ----- the handler -----

  /** `packet.Split(' ')`. */
  function Pieces(packet: string): (r: seq<string>)
    ensures |r| > 0
  {
    if packet == "" then [""]
    else if packet[0] == ' ' then [""] + Pieces(packet[1..])
    else var rest := Pieces(packet[1..]); [[packet[0]] + rest[0]] + rest[1..]
  }

  datatype Reply = Reply(prefix: string, cmd: string, result: string)

  function ReplyIn(packet: string): Option<Reply> {
    var p := Pieces(packet);
    if |p| < 2 || |p[0]| + |p[1]| + 2 > |packet| then None else Some(Reply(p[0], p[1], packet[|p[0]| + |p[1]| + 2..]))
  }

  predicate NoSpace(s: string) { forall i :: 0 <= i < |s| ==> s[i] != ' ' }

  /** The packet is the three parts of r between single spaces. */
  predicate WellFormed(packet: string, r: Reply) {
    NoSpace(r.prefix) && NoSpace(r.cmd) && packet == r.prefix + " " + (r.cmd + " " + r.result)
  }

  /** The first piece ends at the first space. */
  lemma {:induction false} FirstPiece(a: string, rest: string)
    requires NoSpace(a)
    ensures Pieces(a + " " + rest) == [a] + Pieces(rest)
  {
    var s := a + " " + rest;
    if a == "" {
      assert s == " " + rest && s[1..] == rest;
    } else {
      FirstPiece(a[1..], rest);
      assert s[1..] == a[1..] + " " + rest;
      assert [a[0]] + a[1..] == a;
    }
  }

  /** Cut at the first space, if there is one. */
  lemma {:induction false} PiecesCut(packet: string)
    ensures NoSpace(Pieces(packet)[0])
    ensures |Pieces(packet)| > 1 ==>
              var a := Pieces(packet)[0];
              |a| < |packet| && packet == a + " " + packet[|a| + 1..] && Pieces(packet)[1..] == Pieces(packet[|a| + 1..])
    ensures |Pieces(packet)| == 1 ==> Pieces(packet)[0] == packet
  {
    if packet != "" {
      var rest := packet[1..];
      PiecesCut(rest);
      if packet[0] == ' ' {
        assert packet == "" + " " + packet[1..];
        assert Pieces(packet)[1..] == Pieces(rest);
      } else {
        assert Pieces(packet)[0] == [packet[0]] + Pieces(rest)[0] && Pieces(packet)[1..] == Pieces(rest)[1..];
        LongerPiece(packet, Pieces(rest)[0]);
      }
    }
  }

  lemma LongerPiece(packet: string, a: string)
    requires packet != "" && packet[0] != ' ' && NoSpace(a)
    ensures NoSpace([packet[0]] + a) && (packet[1..] == a ==> packet == [packet[0]] + a)
    ensures |a| < |packet[1..]| && packet[1..] == a + " " + packet[1..][|a| + 1..] ==>
              packet == [packet[0]] + a + " " + packet[|a| + 2..] && packet[1..][|a| + 1..] == packet[|a| + 2..]
  {
    assert packet == [packet[0]] + packet[1..];
  }

  lemma ReadsWellFormed(packet: string, r: Reply)
    requires WellFormed(packet, r)
    ensures ReplyIn(packet) == Some(r)
  {
    FirstPiece(r.prefix, r.cmd + " " + r.result);
    FirstPiece(r.cmd, r.result);
    assert packet[|r.prefix| + |r.cmd| + 2..] == r.result;
  }

  lemma ReadsOnlyWellFormed(packet: string, r: Reply)
    requires ReplyIn(packet) == Some(r)
    ensures WellFormed(packet, r)
  {
    PiecesCut(packet);
    var rest := packet[|r.prefix| + 1..];
    PiecesCut(rest);
    assert r.cmd == Pieces(packet)[1..][0] == Pieces(rest)[0];
    TwoCuts(packet, r, rest);
  }

  lemma TwoCuts(packet: string, r: Reply, rest: string)
    requires packet == r.prefix + " " + rest && |r.prefix| + |r.cmd| + 2 <= |packet|
    requires r.result == packet[|r.prefix| + |r.cmd| + 2..]
    requires rest == r.cmd || (|r.cmd| < |rest| && rest == r.cmd + " " + rest[|r.cmd| + 1..])
    ensures rest == r.cmd + " " + r.result
  {
    assert packet[|r.prefix| + |r.cmd| + 2..] == rest[|r.cmd| + 1..];
  }

  /** A packet is read as prefix, cmd and result exactly if it is those three between single spaces. */
  lemma ReadsReply(packet: string, r: Reply)
    ensures ReplyIn(packet) == Some(r) <==> WellFormed(packet, r)
  {
    if WellFormed(packet, r) {
      ReadsWellFormed(packet, r);
    }
    if ReplyIn(packet) == Some(r) {
      ReadsOnlyWellFormed(packet, r);
    }
  }

  /**
   * The handler reads a packet as prefix, cmd and result exactly if it is those three with one space after each of the
   * first two, which hold none themselves; for any other packet it throws and drops it.
   */
  method Handle(packet: string) returns (reply: Option<Reply>)
    ensures forall r :: reply == Some(r) <==> WellFormed(packet, r)
  {
    forall r ensures ReplyIn(packet) == Some(r) <==> WellFormed(packet, r) {
      ReadsReply(packet, r);
    }
    var cmdArgList := Pieces(packet);
    if |cmdArgList| < 2 {
      return None;
    }
    var prefix, cmd := cmdArgList[0], cmdArgList[1];
    var start := |prefix| + |cmd| + 2;
    if start > |packet| {
      return None;
    }
    reply := Some(Reply(prefix, cmd, packet[start..]));
  }
}
