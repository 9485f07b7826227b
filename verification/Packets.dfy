/** The framing of packets on a socket connection: a signature byte, the size of the data as four
    little-endian bytes, the data. */
module Packets {

  import opened Bytes
  import opened Common

  const HEADER_SIZE: nat := 5
  const HEADER_SIGNATURE: byte := 0x7F
  const MAX_PACKET_SIZE: nat := 32 * 1024 * 1024

  // ---------------------------------------------------------------- the connection

  /** The bytes still to arrive, and how many of them each coming receive finds ready. The peer is
      gone after the last byte. */
  datatype Line = Line(stream: seq<byte>, ready: seq<nat>)

  /** What one receive of up to `size` bytes gets: at least one byte. */
  function Ready(line: Line, size: nat): (n: nat)
    requires line.stream != [] && size > 0
    ensures 1 <= n <= size && n <= |line.stream|
  {
    var most := Min(size, |line.stream|);
    if line.ready == [] then most else if line.ready[0] == 0 then 1 else Min(line.ready[0], most)
  }

  function Rest(ready: seq<nat>): seq<nat> { if ready == [] then [] else ready[1..] }

  /** The line after n bytes have been received in one go. */
  function Took(line: Line, n: nat): Line
    requires n <= |line.stream|
  {
    Line(line.stream[n..], Rest(line.ready))
  }

  // ---------------------------------------------------------------- framing

  /** createHeader; the size parameter is a 32-bit number. */
  function Header(size: nat): (h: seq<byte>)
    ensures |h| == HEADER_SIZE
  {
    [HEADER_SIGNATURE] + ToLE(size % UINT32, 4)
  }

  function Packet(data: seq<byte>): seq<byte> { Header(|data|) + data }

  function Wire(packets: seq<seq<byte>>): seq<byte> {
    if packets == [] then [] else Packet(packets[0]) + Wire(packets[1..])
  }

  /** processHeader: the size a header announces, unless it is refused. */
  function Announced(h: seq<byte>): Option<nat> {
    if h == [] || h[0] != HEADER_SIGNATURE || |h| < HEADER_SIZE then None
    else
      var size := FromLE(h[1..5]);
      if size > MAX_PACKET_SIZE then None else Some(size)
  }

  /** A header is accepted exactly when the packet is within the limit. */
  lemma HeaderRoundTrip(size: nat)
    requires size < UINT32
    ensures Announced(Header(size)) == if size <= MAX_PACKET_SIZE then Some(size) else None
  {
    hide ToLE, FromLE, Pow256;
    WordSizes();
    LERoundTrip(size, 4);
    assert size % UINT32 == size;
    assert Header(size)[1..5] == ToLE(size, 4);
  }

  datatype Reply = Received(data: seq<byte>, rest: Line) | Error(rest: Line)

  /** The data of a packet, however many receives it takes. */
  function Payload(line: Line, size: nat): (r: Reply)
    ensures r.Received? ==> |r.data| == size
    ensures |r.rest.stream| <= |line.stream|
    decreases size
  {
    if size == 0 then Received([], line)
    else if line.stream == [] then Error(line)
    else
      var n := Ready(line, size);
      var r := Payload(Took(line, n), size - n);
      if r.Received? then r.(data := line.stream[..n] + r.data) else r
  }

  /** receivePacket on a connection without an earlier error. */
  function NextPacket(line: Line): (r: Reply)
    ensures r.Received? ==> |r.rest.stream| < |line.stream|
  {
    if line.stream == [] then Error(line)
    else
      var n := Ready(line, HEADER_SIZE);
      var size := Announced(line.stream[..n]);
      if size.None? then Error(Took(line, n)) else Payload(Took(line, n), size.value)
  }

  /** The packets received up to the first error. */
  function ReceiveAll(line: Line): seq<seq<byte>>
    decreases |line.stream|
  {
    var r := NextPacket(line);
    if r.Error? then [] else [r.data] + ReceiveAll(r.rest)
  }

  // ---------------------------------------------------------------- round trip

  /** The receives that `size` bytes of data take up. */
  function AfterData(ready: seq<nat>, size: nat): seq<nat>
    decreases size
  {
    if size == 0 || ready == [] then ready
    else AfterData(ready[1..], size - if ready[0] == 0 then 1 else Min(ready[0], size))
  }

  /** Every header is found whole when it is its turn; the data comes in any pieces. */
  predicate HeadersArriveWhole(packets: seq<seq<byte>>, ready: seq<nat>) {
    packets == [] ||
    ((ready == [] || ready[0] >= HEADER_SIZE) &&
     HeadersArriveWhole(packets[1..], AfterData(Rest(ready), |packets[0]|)))
  }

  /** One receive of the loop. */
  lemma PayloadStep(line: Line, size: nat)
    requires size > 0
    ensures Payload(line, size) ==
            if line.stream == [] then Error(line)
            else var n := Ready(line, size); Extend(line.stream[..n], Payload(Took(line, n), size - n))
  {}

  function Extend(front: seq<byte>, r: Reply): Reply {
    if r.Received? then r.(data := front + r.data) else r
  }

  lemma ExtendLaws(front: seq<byte>, next: seq<byte>, r: Reply)
    ensures Extend(front, Extend(next, r)) == Extend(front + next, r)
    ensures Extend([], r) == r && (r.Error? ==> Extend(front, r) == r)
    ensures Extend(front, Payload(r.rest, 0)) == Received(front, r.rest)
  {
    assert front + [] == front;
  }

  lemma Cut(a: seq<byte>, b: seq<byte>, n: nat)
    requires n <= |a|
    ensures (a + b)[..n] == a[..n] && (a + b)[n..] == a[n..] + b && a[..n] + a[n..] == a
  {}

  lemma {:induction false} DataArrives(data: seq<byte>, rest: seq<byte>, ready: seq<nat>)
    ensures Payload(Line(data + rest, ready), |data|) == Received(data, Line(rest, AfterData(ready, |data|)))
    decreases |data|
  {
    if data == [] {
      assert data + rest == rest;
    } else {
      hide Payload, Ready, AfterData, Rest;
      var line := Line(data + rest, ready);
      var n := Ready(line, |data|);
      Cut(data, rest, n);
      PayloadStep(line, |data|);
      DataArrives(data[n..], rest, Rest(ready));
      AfterDataStep(line, |data|);
    }
  }

  lemma AfterDataStep(line: Line, size: nat)
    requires 0 < size <= |line.stream|
    ensures AfterData(line.ready, size) == AfterData(Rest(line.ready), size - Ready(line, size))
  {}

  lemma HeaderArrives(data: seq<byte>, rest: seq<byte>, ready: seq<nat>)
    requires ready == [] || ready[0] >= HEADER_SIZE
    ensures var line := Line(Packet(data) + rest, ready);
            && line.stream != [] && Ready(line, HEADER_SIZE) == HEADER_SIZE
            && line.stream[..HEADER_SIZE] == Header(|data|) && line.stream[HEADER_SIZE..] == data + rest
  {
    hide Header;
    Cut(Header(|data|), data, HEADER_SIZE);
    assert Packet(data) + rest == Header(|data|) + (data + rest);
    Cut(Header(|data|), data + rest, HEADER_SIZE);
  }

  lemma PacketArrives(data: seq<byte>, rest: seq<byte>, ready: seq<nat>)
    requires |data| < UINT32 && (ready == [] || ready[0] >= HEADER_SIZE)
    ensures var r := NextPacket(Line(Packet(data) + rest, ready));
            if |data| <= MAX_PACKET_SIZE then r == Received(data, Line(rest, AfterData(Rest(ready), |data|)))
            else r == Error(Line(data + rest, Rest(ready)))
  {
    hide Packet, Header, Announced, Payload, Ready, AfterData;
    HeaderArrives(data, rest, ready);
    HeaderRoundTrip(|data|);
    DataArrives(data, rest, Rest(ready));
  }

  /** A header cut short ends the reception, whatever packet it belongs to. */
  lemma ShortHeader(data: seq<byte>, rest: seq<byte>, ready: seq<nat>)
    requires ready != [] && ready[0] < HEADER_SIZE
    ensures NextPacket(Line(Packet(data) + rest, ready)).Error?
  {}

  lemma {:induction false} PayloadNeedsAll(line: Line, size: nat)
    ensures Payload(line, size).Received? ==> size <= |line.stream|
    decreases size
  {
    if size > 0 && line.stream != [] {
      hide Payload;
      PayloadStep(line, size);
      var n := Ready(line, size);
      PayloadNeedsAll(Took(line, n), size - n);
    }
  }

  /** An accepted header is the one made for the size it announces. */
  lemma AcceptedIsHeader(h: seq<byte>)
    requires |h| == HEADER_SIZE && Announced(h).Some?
    ensures Announced(h).value <= MAX_PACKET_SIZE && h == Header(Announced(h).value)
  {
    hide ToLE, FromLE, Pow256;
    LEOfBytes(h[1..5]);
    WordSizes();
    assert h == [h[0]] + h[1..5];
  }

  /** The line begins with a packet within the limit whose header is found whole. */
  predicate Framed(line: Line, data: seq<byte>, rest: seq<byte>) {
    && |data| <= MAX_PACKET_SIZE && line.stream == Packet(data) + rest
    && (line.ready == [] || line.ready[0] >= HEADER_SIZE)
  }

  /** A packet is received if and only if a sender's packet within the limit stands in front, its
      header whole, and then it is that packet. Anything else is an error. */
  lemma ReceivedIffFramed(line: Line)
    ensures NextPacket(line).Received? <==> exists data, rest :: Framed(line, data, rest)
    ensures forall data, rest :: Framed(line, data, rest) ==>
              NextPacket(line) == Received(data, Line(rest, AfterData(Rest(line.ready), |data|)))
  {
    hide Packet, NextPacket;
    forall data, rest | Framed(line, data, rest)
      ensures NextPacket(line) == Received(data, Line(rest, AfterData(Rest(line.ready), |data|)))
    {
      PacketArrives(data, rest, line.ready);
    }
    if NextPacket(line).Received? {
      var data, rest := ReceivedFrame(line);
    }
  }

  lemma ReceivedFrame(line: Line) returns (data: seq<byte>, rest: seq<byte>)
    requires NextPacket(line).Received?
    ensures Framed(line, data, rest)
  {
    hide Payload, Header;
    var n := Ready(line, HEADER_SIZE);
    var h := line.stream[..n];
    assert n == HEADER_SIZE by { HeaderIsWhole(h); }
    AcceptedIsHeader(h);
    var size := Announced(h).value;
    PayloadNeedsAll(Took(line, n), size);
    data, rest := line.stream[n..n + size], line.stream[n + size..];
    assert line.stream == h + data + rest;
  }

  lemma HeaderIsWhole(h: seq<byte>)
    ensures Announced(h).Some? ==> |h| >= HEADER_SIZE
  {}

  /** No packet over the limit is ever received, not even with a size that does not fit 32 bits. */
  lemma ReceivedWithinLimit(line: Line)
    ensures NextPacket(line).Received? ==> |NextPacket(line).data| <= MAX_PACKET_SIZE
  {
    hide Payload, FromLE;
  }

  /** The packets in front of the first one that is over the limit, or whose header is cut short. */
  function Deliverable(packets: seq<seq<byte>>, ready: seq<nat>): (r: seq<seq<byte>>)
    ensures r <= packets
    ensures r == packets <==>
            HeadersArriveWhole(packets, ready) && forall k :: 0 <= k < |packets| ==> |packets[k]| <= MAX_PACKET_SIZE
  {
    if packets == [] || |packets[0]| > MAX_PACKET_SIZE || (ready != [] && ready[0] < HEADER_SIZE) then []
    else [packets[0]] + Deliverable(packets[1..], AfterData(Rest(ready), |packets[0]|))
  }

  /** The receiver gets all packets if and only if every header arrives whole and no packet is
      over the limit, which the sender does not check. As long as the sizes fit their 32 bits it
      gets, in order, the packets in front of the first that fails. */
  lemma {:induction false} PacketsRoundTrip(packets: seq<seq<byte>>, ready: seq<nat>)
    ensures ReceiveAll(Line(Wire(packets), ready)) == packets <==>
            HeadersArriveWhole(packets, ready) && forall k :: 0 <= k < |packets| ==> |packets[k]| <= MAX_PACKET_SIZE
    ensures (forall k :: 0 <= k < |packets| ==> |packets[k]| < UINT32) ==>
              ReceiveAll(Line(Wire(packets), ready)) == Deliverable(packets, ready)
    decreases |packets|
  {
    hide NextPacket, AfterData, Packet;
    if packets != [] {
      var line := Line(Wire(packets), ready);
      var next := AfterData(Rest(ready), |packets[0]|);
      PacketsRoundTrip(packets[1..], next);
      ReceivedWithinLimit(line);
      if ready != [] && ready[0] < HEADER_SIZE {
        ShortHeader(packets[0], Wire(packets[1..]), ready);
      } else if |packets[0]| < UINT32 {
        PacketArrives(packets[0], Wire(packets[1..]), ready);
      }
    }
  }

  /** One packet whose header comes in two pieces is lost. */
  lemma CutHeaderLosesThePacket()
    ensures ReceiveAll(Line(Wire([[7]]), [1])) == []
  {
    PacketsRoundTrip([[7]], [1]);
  }

  /** A packet of 2^32 bytes is announced as empty: what is received is no prefix of what was sent. */
  lemma SizeWraps(data: seq<byte>, rest: seq<byte>)
    requires |data| == UINT32
    ensures NextPacket(Line(Packet(data) + rest, [])) == Received([], Line(data + rest, []))
  {
    hide Packet, Header, Announced, Ready, AfterData;
    HeaderArrives(data, rest, []);
    HeaderWraps(|data|);
    HeaderRoundTrip(0);
  }

  // ---------------------------------------------------------------- the classes

  class SocketConnection {
    var line: Line
    var sent: seq<byte>
    var goodSends: nat    // how many more sends succeed

    constructor (line: Line, goodSends: nat)
      ensures this.line == line && this.goodSends == goodSends && sent == []
    {
      this.line, this.goodSends, sent := line, goodSends, [];
    }

    method Send(data: seq<byte>) returns (ok: bool)
      modifies this`sent, this`goodSends
      ensures ok == (old(goodSends) > 0)
      ensures sent == if ok then old(sent) + data else old(sent)
      ensures goodSends == if ok then old(goodSends) - 1 else 0
    {
      ok := goodSends > 0;
      if ok {
        sent, goodSends := sent + data, goodSends - 1;
      }
    }

    method Receive(size: nat) returns (ok: bool, data: seq<byte>)
      requires size > 0
      modifies this`line
      ensures ok == (old(line).stream != [])
      ensures ok ==> data == old(line).stream[..Ready(old(line), size)]
      ensures line == if ok then Took(old(line), |data|) else old(line)
    {
      ok, data := line.stream != [], [];
      if ok {
        var n := Ready(line, size);
        data, line := line.stream[..n], Took(line, n);
      }
    }
  }

  class Packetizer {
    const conn: SocketConnection
    var error: bool
    var expectedDataSize: nat

    constructor (conn: SocketConnection)
      ensures this.conn == conn && !error && expectedDataSize == 0
    {
      this.conn, error, expectedDataSize := conn, false, 0;
    }

    method CreateHeader(dataSize: nat) returns (header: seq<byte>)
      requires dataSize < UINT32
      ensures header == Header(dataSize) && header[0] == HEADER_SIGNATURE
      ensures dataSize == header[1] as int + header[2] as int * 0x100 + header[3] as int * 0x1_0000 + header[4] as int * 0x100_0000
    {
      header := [HEADER_SIGNATURE, dataSize % 256, (dataSize / 0x100) % 256, (dataSize / 0x1_0000) % 256,
                 (dataSize / 0x100_0000) % 256];
      FourBytes(dataSize);
      HeaderFields(dataSize, header);
    }

    /** The whole packet goes out, or the error is latched. */
    method SendPacket(data: seq<byte>) returns (ok: bool)
      modifies this`error, conn`sent, conn`goodSends
      ensures ok == (old(conn.goodSends) >= 2)
      ensures ok ==> error == old(error) && conn.sent == old(conn.sent) + Packet(data)
      ensures conn.goodSends == if ok then old(conn.goodSends) - 2 else 0
      ensures !ok ==> error && old(conn.sent) <= conn.sent <= old(conn.sent) + Header(|data|)
    {
      hide Header;
      var header := CreateHeader(|data| % UINT32);
      assert header == Header(|data|) by { HeaderWraps(|data|); }
      ok := conn.Send(header);
      if !ok {
        error := true;
        return;
      }
      ok := conn.Send(data);
      if !ok {
        error := true;
      }
    }

    method ParseDataSize(header: seq<byte>) returns (ok: bool)
      modifies this
      ensures ok == (|header| >= HEADER_SIZE)
      ensures ok ==> error == old(error) && expectedDataSize == FromLE(header[1..5]) < UINT32
      ensures ok ==> expectedDataSize == header[1] as int + header[2] as int * 0x100 + header[3] as int * 0x1_0000 + header[4] as int * 0x100_0000
      ensures !ok ==> error && expectedDataSize == 0
    {
      if |header| < HEADER_SIZE {
        error, expectedDataSize := true, 0;
        return false;
      }
      var size: nat := 0;
      size := size + header[1];
      size := size + header[2] as int * 0x100;
      size := size + header[3] as int * 0x1_0000;
      size := size + header[4] as int * 0x100_0000;
      ReadFourBytes(header);
      expectedDataSize := size;
      return true;
    }

    method ProcessHeader(header: seq<byte>) returns (ok: bool)
      requires header != []
      modifies this
      ensures ok == Announced(header).Some?
      ensures ok ==> error == old(error) && expectedDataSize == Announced(header).value
    {
      if header[0] != HEADER_SIGNATURE {
        return false;
      }
      ok := ParseDataSize(header);
      if ok && expectedDataSize > MAX_PACKET_SIZE {
        ok := false;
      }
    }

    /** An error stays until the next reset: with it nothing is read, without it the next packet
        is received whole or the error is set. */
    method ReceivePacket() returns (ok: bool, data: seq<byte>)
      modifies this, conn`line
      ensures old(error) ==> !ok && error && conn.line == old(conn.line)
      ensures !old(error) ==> ok == !error == NextPacket(old(conn.line)).Received?
      ensures !old(error) ==> (ok <==> exists packet, rest :: Framed(old(conn.line), packet, rest))
      ensures !old(error) ==> conn.line == NextPacket(old(conn.line)).rest
      ensures ok ==> data == NextPacket(old(conn.line)).data && expectedDataSize == |data|
    {
      hide Payload, Announced, Ready, Extend, Framed;
      ReceivedIffFramed(conn.line);
      data := [];
      if error {
        expectedDataSize := 0;
        return false, data;
      }
      var header;
      ok, header := conn.Receive(HEADER_SIZE);
      if ok {
        ok := ProcessHeader(header);
        if !ok {
          error, expectedDataSize := true, 0;
          return;
        }
      } else {
        error, expectedDataSize := true, 0;
        return;
      }
      ghost var start := conn.line;
      var receivedBytes := 0;
      ExtendLaws([], [], Payload(start, expectedDataSize));
      data := seq(expectedDataSize, i => 0);
      while receivedBytes < expectedDataSize
        invariant receivedBytes <= expectedDataSize == |data| && !error
        invariant expectedDataSize == Announced(header).value
        invariant Payload(start, expectedDataSize) == Extend(data[..receivedBytes], Payload(conn.line, expectedDataSize - receivedBytes))
      {
        var bytesToReceive := expectedDataSize - receivedBytes;
        ghost var before := conn.line;
        var received;
        ok, received := conn.Receive(bytesToReceive);
        if !ok {
          PayloadStep(before, bytesToReceive);
          ExtendLaws(data[..receivedBytes], [], Error(before));
          error := true;
          return;
        }
        ghost var last := data[..receivedBytes];
        PayloadStep(before, bytesToReceive);
        data := Patch(data, receivedBytes, received);
        assert data[..receivedBytes + |received|] == last + received;
        ExtendLaws(last, received, Payload(conn.line, bytesToReceive - |received|));
        receivedBytes := receivedBytes + |received|;
      }
      ExtendLaws(data, [], Error(conn.line));
      assert data[..receivedBytes] == data;
      ok := true;
    }

    method Reset()
      modifies this
      ensures !error && expectedDataSize == 0
    {
      expectedDataSize, error := 0, false;
    }
  }

  lemma HeaderWraps(n: nat)
    ensures Header(n % UINT32) == Header(n)
  {}

  lemma LEOfFour(n: nat)
    ensures ToLE(n, 4) == [n % 256, (n / 256) % 256, (n / 256 / 256) % 256, (n / 256 / 256 / 256) % 256]
  {}

  lemma FourBytes(n: nat)
    requires n < UINT32
    ensures [HEADER_SIGNATURE, n % 256, (n / 0x100) % 256, (n / 0x1_0000) % 256, (n / 0x100_0000) % 256] == Header(n)
  {
    hide ToLE;
    LEOfFour(n);
    assert n % UINT32 == n;
  }

  lemma HeaderFields(n: nat, h: seq<byte>)
    requires n < UINT32 && h == Header(n)
    ensures n == h[1] as int + h[2] as int * 0x100 + h[3] as int * 0x1_0000 + h[4] as int * 0x100_0000
  {
    hide ToLE, FromLE, Pow256;
    ReadFourBytes(h);
    WordSizes();
    LERoundTrip(n, 4);
    assert h[1..5] == ToLE(n % UINT32, 4);
  }

  lemma ReadFourBytes(h: seq<byte>)
    requires |h| >= HEADER_SIZE
    ensures FromLE(h[1..5]) == h[1] as int + h[2] as int * 0x100 + h[3] as int * 0x1_0000 + h[4] as int * 0x100_0000
  {
    var s := h[1..5];
    assert s[1..][1..] == s[2..] && s[2..][1..] == s[3..] && s[3..][1..] == s[4..] == [];
    assert FromLE(s[3..]) == s[3];
    assert FromLE(s[2..]) == s[2] + 256 * FromLE(s[3..]);
    assert FromLE(s[1..]) == s[1] + 256 * FromLE(s[2..]);
  }

  /** The receiving thread: packets until the first error. */
  method ReceiveLoop(packetizer: Packetizer) returns (packets: seq<seq<byte>>)
    requires !packetizer.error
    modifies packetizer, packetizer.conn`line
    ensures packets == ReceiveAll(old(packetizer.conn.line)) && packetizer.error
  {
    hide NextPacket;
    packets := [];
    while true
      invariant !packetizer.error
      invariant ReceiveAll(old(packetizer.conn.line)) == packets + ReceiveAll(packetizer.conn.line)
      decreases |packetizer.conn.line.stream|
    {
      var ok, data := packetizer.ReceivePacket();
      if !ok {
        return;
      }
      packets := packets + [data];
    }
  }

  lemma {:induction false} WireOfOneMore(packets: seq<seq<byte>>, data: seq<byte>)
    ensures Wire([]) == [] && Wire(packets + [data]) == Wire(packets) + Packet(data)
  {
    if packets == [] {
      assert packets + [data] == [data] && Wire([data][1..]) == [];
    } else {
      assert (packets + [data])[1..] == packets[1..] + [data];
      WireOfOneMore(packets[1..], data);
      assert (Packet(packets[0]) + Wire(packets[1..])) + Packet(data) == Packet(packets[0]) + (Wire(packets[1..]) + Packet(data));
    }
  }

  /** One end sends the packets, the other receives until its first error. */
  method SendThenReceive(packets: seq<seq<byte>>, ready: seq<nat>) returns (got: seq<seq<byte>>)
    ensures got == packets <==>
            HeadersArriveWhole(packets, ready) && forall k :: 0 <= k < |packets| ==> |packets[k]| <= MAX_PACKET_SIZE
    ensures (forall k :: 0 <= k < |packets| ==> |packets[k]| < UINT32) ==> got == Deliverable(packets, ready)
  {
    hide Wire, Packet, HeadersArriveWhole, Deliverable, ReceiveAll;
    var conn := new SocketConnection(Line([], []), 2 * |packets|);
    var sender := new Packetizer(conn);
    WireOfOneMore([], []);
    for i := 0 to |packets|
      invariant conn.sent == Wire(packets[..i]) && conn.goodSends == 2 * (|packets| - i)
    {
      var ok := sender.SendPacket(packets[i]);
      WireOfOneMore(packets[..i], packets[i]);
      assert packets[..i + 1] == packets[..i] + [packets[i]];
    }
    assert packets[..|packets|] == packets;
    var peer := new SocketConnection(Line(conn.sent, ready), 0);
    var receiver := new Packetizer(peer);
    got := ReceiveLoop(receiver);
    PacketsRoundTrip(packets, ready);
  }

}
