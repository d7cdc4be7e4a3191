/** UDP packets over one TCP stream: each packet travels behind its length in four big-endian bytes, and the stream may
    be cut anywhere. System calls end as a script of events says, which the caller does not know. */
module Framing {
  import opened Options
  import opened Bytes

  const MAX_PACKET: nat := 65507

  type Packet = p: seq<Byte> | |p| <= MAX_PACKET

  // ---------------------------------------------------------------- frames

  /** htonl, as bytes on the wire. */
  function BigEndian(n: nat): (bytes: seq<Byte>)
    requires n < 0x1_0000_0000
    ensures |bytes| == 4
  {
    [n / 0x100_0000, n / 0x1_0000 % 0x100, n / 0x100 % 0x100, n % 0x100]
  }

  function FromBigEndian(bytes: seq<Byte>): (n: nat)
    requires |bytes| == 4
    ensures n < 0x1_0000_0000
  {
    var a: nat, b: nat, c: nat, d: nat := bytes[0], bytes[1], bytes[2], bytes[3];
    a * 0x100_0000 + b * 0x1_0000 + c * 0x100 + d
  }

  lemma BigEndianIsBack(n: nat)
    requires n < 0x1_0000_0000
    ensures FromBigEndian(BigEndian(n)) == n
  {
    var low, high := n / 0x100, n / 0x1_0000;
    assert n == low * 0x100 + n % 0x100;
    assert low == high * 0x100 + low % 0x100 && high == low / 0x100;
    assert high == n / 0x100_0000 * 0x100 + high % 0x100 && n / 0x100_0000 == high / 0x100;
  }

  function Frame(packet: Packet): (bytes: seq<Byte>)
    ensures |bytes| == 4 + |packet| && bytes[..4] == BigEndian(|packet|) && bytes[4..] == packet
  {
    BigEndian(|packet|) + packet
  }

  function Frames(packets: seq<Packet>): seq<Byte> {
    if packets == [] then [] else Frame(packets[0]) + Frames(packets[1..])
  }

  /** The first frame of a stream and what follows it; None if it is cut short or too long. */
  function NextFrame(stream: seq<Byte>): (r: Option<(Packet, seq<Byte>)>)
    ensures r.Some? ==> |stream| == 4 + |r.value.0| + |r.value.1|
  {
    if |stream| < 4 then None
    else
      var size := FromBigEndian(stream[..4]);
      if size > MAX_PACKET || |stream| < 4 + size then None else Some((stream[4..4 + size], stream[4 + size..]))
  }

  /** All packets a receiver can take from a stream before it stops. */
  function Unframe(stream: seq<Byte>): seq<Packet>
    decreases |stream|
  {
    match NextFrame(stream)
    case None => []
    case Some((packet, rest)) => [packet] + Unframe(rest)
  }

  /** The number in four bytes, the most significant first. */
  function NetworkOrder(a: Byte, b: Byte, c: Byte, d: Byte): nat {
    16777216 * a + 65536 * b + 256 * c + d
  }

  /** What is on the wire: four bytes that are the packet's length in network order, and the packet. */
  lemma FrameLayout(packet: Packet)
    ensures var wire := Frame(packet);
            |wire| == 4 + |packet| && NetworkOrder(wire[0], wire[1], wire[2], wire[3]) == |packet| && wire[4..] == packet
  {
    hide BigEndian, FromBigEndian;
    BigEndianIsBack(|packet|);
    var wire := Frame(packet);
    assert wire[..4][0] == wire[0] && wire[..4][1] == wire[1] && wire[..4][2] == wire[2] && wire[..4][3] == wire[3];
    FromNetworkOrder(wire[..4]);
  }

  lemma FromNetworkOrder(bytes: seq<Byte>)
    requires |bytes| == 4
    ensures FromBigEndian(bytes) == NetworkOrder(bytes[0], bytes[1], bytes[2], bytes[3])
  {
  }

  /** A frame is taken exactly if its length is there, at most 65507, and its payload has arrived in full. */
  lemma TakenExactly(stream: seq<Byte>)
    ensures NextFrame(stream)
            == if |stream| >= 4
                  && NetworkOrder(stream[0], stream[1], stream[2], stream[3]) <= 65507
                  && |stream| - 4 >= NetworkOrder(stream[0], stream[1], stream[2], stream[3])
               then var size := NetworkOrder(stream[0], stream[1], stream[2], stream[3]);
                    Some((stream[4..4 + size], stream[4 + size..]))
               else None
  {
    hide FromBigEndian;
    if |stream| >= 4 {
      FromNetworkOrder(stream[..4]);
    }
  }

  lemma NextOfFrame(packet: Packet, rest: seq<Byte>)
    ensures NextFrame(Frame(packet) + rest) == Some((packet, rest))
  {
    hide BigEndian, FromBigEndian;
    var stream := Frame(packet) + rest;
    assert stream[..4] == BigEndian(|packet|);
    BigEndianIsBack(|packet|);
    assert stream[4..4 + |packet|] == packet && stream[4 + |packet|..] == rest;
  }

  /** A frame that has not arrived in full is not taken. */
  lemma NextOfPart(packet: Packet, n: nat)
    requires n < 4 + |packet|
    ensures NextFrame(Frame(packet)[..n]) == None
  {
    hide BigEndian, FromBigEndian;
    if n >= 4 {
      assert Frame(packet)[..n][..4] == BigEndian(|packet|);
      BigEndianIsBack(|packet|);
    }
  }

  /** However much of the framed packets has arrived, it yields the packets that have arrived in full, in order, and
      nothing else. */
  lemma {:induction false} WhatHasArrived(packets: seq<Packet>, n: nat) returns (k: nat)
    requires n <= |Frames(packets)|
    ensures k <= |packets| && Unframe(Frames(packets)[..n]) == packets[..k]
    ensures |Frames(packets[..k])| <= n && (k < |packets| ==> n < |Frames(packets[..k + 1])|)
    ensures n == |Frames(packets)| ==> k == |packets|
    decreases |packets|
  {
    hide NextFrame, Frame;
    if packets == [] {
      k := 0;
      assert Frames(packets)[..n] == [];
      NothingArrived();
    } else {
      var first, rest := packets[0], packets[1..];
      if n < 4 + |first| {
        k := 0;
        NextOfPart(first, n);
        assert Frames(packets)[..n] == Frame(first)[..n];
        assert packets[..1] == [first] && [first][1..] == [];
        assert Frames([first]) == Frame(first) + Frames([]);
      } else {
        var later := WhatHasArrived(rest, n - 4 - |first|);
        k := later + 1;
        var wire := Frames(packets)[..n];
        assert wire == Frame(first) + Frames(rest)[..n - 4 - |first|];
        NextOfFrame(first, Frames(rest)[..n - 4 - |first|]);
        assert packets[..k] == [first] + rest[..later];
        FramesFirst(packets, k);
        if k < |packets| {
          FramesFirst(packets, k + 1);
        }
      }
    }
  }

  lemma NothingArrived()
    ensures Unframe([]) == []
  {
  }

  lemma FramesFirst(packets: seq<Packet>, k: nat)
    requires 0 < k <= |packets|
    ensures Frames(packets[..k]) == Frame(packets[0]) + Frames(packets[1..][..k - 1])
  {
    hide Frame;
    assert packets[..k][1..] == packets[1..][..k - 1];
  }

  lemma {:induction false} FramesAppend(packets: seq<Packet>, packet: Packet)
    ensures Frames(packets + [packet]) == Frames(packets) + Frame(packet)
  {
    hide Frame;
    if packets == [] {
      assert [packet][1..] == [];
      assert Frames([packet]) == Frame(packet) + Frames([]);
    } else {
      var rest := packets[1..];
      FramesAppend(rest, packet);
      assert (packets + [packet])[1..] == rest + [packet] && (packets + [packet])[0] == packets[0];
      Associative(Frame(packets[0]), Frames(rest), Frame(packet));
    }
  }

  lemma Associative(a: seq<Byte>, b: seq<Byte>, c: seq<Byte>)
    ensures a + (b + c) == (a + b) + c
  {
  }

  /** Between a sender whose stream carries a prefix of its frames and a receiver that takes what it can from that
      stream, packets arrive in order, whole, and none is invented; if the stream is complete and the receiver goes to
      its end, all of them arrive. */
  lemma TunnelDelivers(taken: seq<Packet>, wire: seq<Byte>, delivered: seq<Packet>)
    requires wire <= Frames(taken) && delivered <= Unframe(wire)
    ensures delivered <= taken
    ensures wire == Frames(taken) && delivered == Unframe(wire) ==> delivered == taken
  {
    var k := WhatHasArrived(taken, |wire|);
    assert Frames(taken)[..|wire|] == wire;
  }

  // ---------------------------------------------------------------- the stream

  /** How one system call ends: interrupted, failed, or moving at most `count` bytes. */
  datatype Event = Interrupt | Fail | Ready(count: nat)

  datatype Moved = Interrupted | Error | Count(n: nat)

  class Stream {
    var sent: seq<Byte>
    var incoming: seq<Byte>     // what arrives before the peer closes
    var script: seq<Event>      // how the next calls end; they fail once it is used up
    var broken: bool            // a call has failed

    constructor (incoming: seq<Byte>, script: seq<Event>)
      ensures sent == [] && this.incoming == incoming && !broken
    {
      sent, broken := [], false;
      this.incoming, this.script := incoming, script;
    }

    method NextEvent() returns (event: Event)
      modifies `script, `broken
      ensures event != Fail ==> |script| < |old(script)| && broken == old(broken)
      ensures event == Fail ==> broken
      ensures |script| <= |old(script)|
    {
      if script == [] {
        broken := true;
        return Fail;
      }
      event := script[0];
      script := script[1..];
      if event == Fail {
        broken := true;
      }
    }

    /** send: some bytes from the front, at least one. */
    method Send(data: seq<Byte>) returns (r: Moved)
      requires data != []
      modifies `sent, `script, `broken
      ensures r.Count? ==> 1 <= r.n <= |data| && sent == old(sent) + data[..r.n]
      ensures !r.Count? ==> sent == old(sent)
      ensures r.Error? ==> broken
      ensures !r.Error? ==> |script| < |old(script)| && broken == old(broken)
    {
      var event := NextEvent();
      match event {
        case Interrupt => r := Interrupted;
        case Fail => r := Error;
        case Ready(count) =>
          var n := if count < 1 then 1 else if count > |data| then |data| else count;
          sent := sent + data[..n];
          r := Count(n);
      }
    }

    /** recv: at most `limit` bytes, and none only at the end of the stream. */
    method Recv(limit: nat) returns (r: Moved, block: seq<Byte>)
      requires limit > 0
      modifies `incoming, `script, `broken
      ensures r.Count? ==> r.n == |block| <= limit && old(incoming) == block + incoming
      ensures r.Count? ==> (r.n == 0 <==> old(incoming) == [])
      ensures !r.Count? ==> incoming == old(incoming)
      ensures r.Error? ==> broken
      ensures !r.Error? ==> |script| < |old(script)| && broken == old(broken)
    {
      var event := NextEvent();
      block := [];
      match event {
        case Interrupt => r := Interrupted;
        case Fail => r := Error;
        case Ready(count) =>
          var n := if count < 1 then 1 else count;
          n := if n > limit then limit else n;
          n := if n > |incoming| then |incoming| else n;
          block := incoming[..n];
          incoming := incoming[n..];
          r := Count(n);
      }
    }
  }

  // ---------------------------------------------------------------- the board side

  /** The two directions of a stream and the buffer beside it. */
  datatype Ends = Ends(sent: seq<Byte>, incoming: seq<Byte>, data: seq<Byte>)

  /** k bytes have moved: from the front of the buffer to the stream, or from the stream to the front of the buffer;
      nothing else has changed. */
  ghost predicate Progress(writing: bool, before: Ends, now: Ends, k: nat) {
    k <= |before.data| &&
    if writing then now == before.(sent := before.sent + before.data[..k])
    else
      && k <= |before.incoming|
      && now == before.(incoming := before.incoming[k..], data := before.incoming[..k] + before.data[k..])
  }

  lemma WrittenMore(before: Ends, now: Ends, k: nat, left: nat, n: nat)
    requires Progress(true, before, now, k) && k + left <= |before.data| && n <= left
    ensures |now.data| == |before.data|
    ensures Progress(true, before, now.(sent := now.sent + now.data[k..k + left][..n]), k + n)
  {
    var data := before.data;
    assert data[k..k + left][..n] == data[k..k + n];
    assert data[..k + n] == data[..k] + data[k..k + n];
  }

  lemma FilledMore(before: Ends, now: Ends, k: nat, block: seq<Byte>, incoming: seq<Byte>, data: seq<Byte>)
    requires Progress(false, before, now, k) && now.incoming == block + incoming && k + |block| <= |before.data|
    requires |now.data| == |before.data| ==> data == now.data[..k] + block + now.data[k + |block|..]
    ensures |now.data| == |before.data|
    ensures Progress(false, before, Ends(now.sent, incoming, data), k + |block|)
  {
    assert before.incoming[k..][..|block|] == block && before.incoming[k..][|block|..] == incoming;
    assert before.incoming[..k + |block|] == before.incoming[..k] + block;
    assert now.data[k + |block|..] == before.data[k + |block|..];
  }

  lemma NoProgress(writing: bool, ends: Ends)
    ensures Progress(writing, ends, ends, 0)
  {
    assert ends.sent + ends.data[..0] == ends.sent;
    assert [] + ends.data[0..] == ends.data;
  }

  function EndsOf(stream: Stream, data: array<Byte>): Ends
    reads stream, data
  {
    Ends(stream.sent, stream.incoming, data[..])
  }

  /** One send or recv of the loop below. */
  method TransferSome(stream: Stream, data: array<Byte>, cursor: nat, left: nat, writing: bool, ghost before: Ends)
      returns (count: Moved)
    requires left > 0 && cursor + left <= data.Length && |before.data| == data.Length
    requires Progress(writing, before, EndsOf(stream, data), cursor)
    modifies stream, data
    ensures count.Count? ==> count.n <= left
    ensures Progress(writing, before, EndsOf(stream, data), cursor + (if count.Count? then count.n else 0))
    ensures count.Error? ==> stream.broken
    ensures count == Count(0) ==> !writing && stream.incoming == []
    ensures !count.Error? ==> |stream.script| < |old(stream.script)| && stream.broken == old(stream.broken)
  {
    hide Progress;
    ghost var now := EndsOf(stream, data);
    if writing {
      count := stream.Send(data[cursor..cursor + left]);
      if count.Count? {
        WrittenMore(before, now, cursor, left, count.n);
      }
    } else {
      var block;
      count, block := stream.Recv(left);
      if count.Count? {
        Store(data, cursor, block);
        FilledMore(before, now, cursor, block, stream.incoming, data[..]);
      }
    }
  }

  /** transfer: moves `length` bytes between the stream and the buffer, in as many calls as it takes; interrupted calls
      are repeated. On failure `moved` bytes have gone. */
  method Transfer(stream: Stream, data: array<Byte>, length: nat, writing: bool) returns (ok: bool, ghost moved: nat)
    requires length <= data.Length
    modifies stream, data
    ensures moved <= length && (ok <==> moved == length)
    ensures Progress(writing, old(EndsOf(stream, data)), EndsOf(stream, data), moved)
    ensures !ok ==> stream.broken || (!writing && stream.incoming == [])
    ensures ok ==> stream.broken == old(stream.broken)
  {
    hide Progress, EndsOf;
    var cursor: nat, left: nat := 0, length;
    ghost var before := EndsOf(stream, data);
    EndsSize(stream, data);
    NoProgress(writing, before);
    while left > 0
      invariant cursor + left == length
      invariant Progress(writing, before, EndsOf(stream, data), cursor)
      invariant stream.broken == old(stream.broken)
      decreases |stream.script|
    {
      var count := TransferSome(stream, data, cursor, left, writing, before);
      if count.Interrupted? {
        continue;
      }
      if count.Error? || count.n == 0 {
        return false, cursor;
      }
      cursor := cursor + count.n;
      left := left - count.n;
    }
    return true, length;
  }

  lemma EndsSize(stream: Stream, data: array<Byte>)
    ensures |EndsOf(stream, data).data| == data.Length
  {
  }

  /** recv writes its block into the buffer. */
  method Store(data: array<Byte>, at: nat, block: seq<Byte>)
    requires at + |block| <= data.Length
    modifies data
    ensures data[..] == old(data[..])[..at] + block + old(data[..])[at + |block|..]
  {
    for k := 0 to |block|
      invariant data[..] == old(data[..])[..at] + block[..k] + old(data[..])[at + k..]
    {
      data[at + k] := block[k];
    }
  }

  /** The front of a frame, with n bytes of its header, or its header and n bytes of its payload. */
  lemma FrontOfFrame(packet: Packet, n: nat)
    ensures n <= 4 ==> BigEndian(|packet|)[..n] <= Frame(packet)
    ensures n <= |packet| ==> BigEndian(|packet|) + packet[..n] <= Frame(packet)
    ensures BigEndian(|packet|) + packet[..|packet|] == Frame(packet)
  {
    hide BigEndian;
    assert packet[..|packet|] == packet;
  }

  lemma Extends(start: seq<Byte>, front: seq<Byte>, all: seq<Byte>)
    requires front <= all
    ensures start <= start + front <= start + all
  {
    assert start + all == (start + front) + all[|front|..];
  }

  /** transfer, writing. */
  method Write(stream: Stream, data: array<Byte>, length: nat) returns (ok: bool, ghost n: nat)
    requires length <= data.Length
    modifies stream, data
    ensures n <= length && (ok <==> n == length)
    ensures data[..] == old(data[..]) && stream.incoming == old(stream.incoming)
    ensures stream.sent == old(stream.sent) + data[..n]
    ensures !ok ==> stream.broken
    ensures ok ==> stream.broken == old(stream.broken)
  {
    ok, n := Transfer(stream, data, length, true);
  }

  /** A packet from the UDP socket goes out behind its length. */
  method SendFrame(stream: Stream, packet: array<Byte>, count: nat) returns (ok: bool)
    requires count <= packet.Length && count <= MAX_PACKET
    modifies stream, packet
    ensures packet[..] == old(packet[..]) && stream.incoming == old(stream.incoming)
    ensures old(stream.sent) <= stream.sent <= old(stream.sent) + Frame(packet[..count])
    ensures ok ==> stream.sent == old(stream.sent) + Frame(packet[..count])
    ensures !ok ==> stream.broken
    ensures ok ==> stream.broken == old(stream.broken)
  {
    hide BigEndian, Frame;
    ghost var start, data := stream.sent, packet[..count];
    var header := new Byte[4];
    var length := BigEndian(count);
    header[0], header[1], header[2], header[3] := length[0], length[1], length[2], length[3];
    assert header[..] == length;
    var done, n := Write(stream, header, 4);
    FrontOfFrame(data, n);
    Extends(start, length[..n], Frame(data));
    if !done {
      return false;
    }
    assert stream.sent == start + length;
    done, n := Write(stream, packet, count);
    assert data[..n] == packet[..n];
    assert stream.sent == start + (length + data[..n]);
    FrontOfFrame(data, n);
    Extends(start, length + data[..n], Frame(data));
    ok := done;
  }

  /** The frame at the front of the stream, into the buffer; None where the loop of the board side ends. */
  method ReceiveFrame(stream: Stream, packet: array<Byte>) returns (r: Option<nat>)
    requires packet.Length == MAX_PACKET
    modifies stream, packet
    ensures stream.sent == old(stream.sent)
    ensures r.Some? ==> r.value <= packet.Length
                        && NextFrame(old(stream.incoming)) == Some((packet[..r.value], stream.incoming))
    ensures r.None? ==> stream.broken || NextFrame(old(stream.incoming)) == None
    ensures r.Some? ==> stream.broken == old(stream.broken)
  {
    hide FromBigEndian;
    ghost var start := stream.incoming;
    var header := new Byte[4];
    var done, n := Transfer(stream, header, 4, false);
    if !done {
      return None;
    }
    assert header[..] == start[..4];
    var length := FromBigEndian(header[..]);
    if length > packet.Length {
      return None;
    }
    ghost var rest := stream.incoming;
    done, n := Transfer(stream, packet, length, false);
    if !done {
      return None;
    }
    assert packet[..length] == rest[..length] == start[4..4 + length];
    assert stream.incoming == rest[length..] == start[4 + length..];
    r := Some(length);
  }

  // ---------------------------------------------------------------- the runner side

  /** receive: blocks are collected until the size is reached; None for the error at the end of the stream, or for a
      call that fails. */
  method Receive(stream: Stream, size: nat) returns (r: Option<seq<Byte>>)
    modifies stream
    ensures stream.sent == old(stream.sent)
    ensures r.Some? ==> |r.value| == size && old(stream.incoming) == r.value + stream.incoming
    ensures r.None? ==> stream.broken || |old(stream.incoming)| < size
    ensures r.Some? ==> stream.broken == old(stream.broken)
  {
    var result: seq<Byte> := [];
    while |result| < size
      invariant |result| <= size && stream.sent == old(stream.sent)
      invariant old(stream.incoming) == result + stream.incoming
      invariant stream.broken == old(stream.broken)
      decreases |stream.script|
    {
      var count, block := stream.Recv(size - |result|);
      if count.Interrupted? {
        continue;
      }
      if count.Error? || block == [] {
        return None;
      }
      result := result + block;
    }
    r := Some(result);
  }

  method ReceivePacket(stream: Stream) returns (r: Option<Packet>)
    modifies stream
    ensures stream.sent == old(stream.sent)
    ensures r.Some? ==> NextFrame(old(stream.incoming)) == Some((r.value, stream.incoming))
    ensures r.None? ==> stream.broken || NextFrame(old(stream.incoming)) == None
    ensures r.Some? ==> stream.broken == old(stream.broken)
  {
    hide FromBigEndian;
    ghost var start := stream.incoming;
    var header := Receive(stream, 4);
    if header.None? {
      return None;
    }
    assert start[..4] == header.value;
    var size := FromBigEndian(header.value);
    if size > MAX_PACKET {
      return None;
    }
    var payload := Receive(stream, size);
    if payload.None? {
      return None;
    }
    assert start[4..4 + size] == payload.value && start[4 + size..] == stream.incoming;
    r := Some(payload.value);
  }

  /** sendall: the whole of the data, or a part of it and a failure. */
  method SendAll(stream: Stream, data: seq<Byte>) returns (ok: bool)
    modifies stream
    ensures stream.incoming == old(stream.incoming)
    ensures old(stream.sent) <= stream.sent <= old(stream.sent) + data
    ensures ok ==> stream.sent == old(stream.sent) + data
    ensures !ok ==> stream.broken
    ensures ok ==> stream.broken == old(stream.broken)
  {
    var k := 0;
    while k < |data|
      invariant 0 <= k <= |data| && stream.sent == old(stream.sent) + data[..k]
      invariant stream.incoming == old(stream.incoming)
      invariant stream.broken == old(stream.broken)
      decreases |stream.script|
    {
      var count := stream.Send(data[k..]);
      if count.Count? {
        assert data[..k + count.n] == data[..k] + data[k..][..count.n];
        k := k + count.n;
      } else if count.Error? {
        assert old(stream.sent) + data == stream.sent + data[k..];
        return false;
      }
    }
    assert data[..k] == data;
    return true;
  }

  // ---------------------------------------------------------------- the event loops

  /** One round of poll or select: what has become readable, and whether sendto would pass a frame on. */
  datatype Round = Round(udp: Option<Packet>, stream: bool, sendto: bool)

  /** The packets the UDP socket delivers in these rounds. */
  function PacketsOf(rounds: seq<Round>): (packets: seq<Packet>) {
    if rounds == [] then []
    else
      var last := rounds[|rounds| - 1];
      PacketsOf(rounds[..|rounds| - 1]) + (if last.udp.Some? then [last.udp.value] else [])
  }

  lemma {:induction false} PacketsPrefix(rounds: seq<Round>, k: nat)
    requires k <= |rounds|
    ensures PacketsOf(rounds[..k]) <= PacketsOf(rounds)
    decreases |rounds|
  {
    if k < |rounds| {
      PacketsPrefix(rounds[..|rounds| - 1], k);
      assert rounds[..|rounds| - 1][..k] == rounds[..k];
    } else {
      assert rounds[..k] == rounds;
    }
  }

  lemma PacketsMore(rounds: seq<Round>, k: nat)
    requires k < |rounds|
    ensures PacketsOf(rounds[..k + 1])
            == PacketsOf(rounds[..k]) + (if rounds[k].udp.Some? then [rounds[k].udp.value] else [])
    ensures PacketsOf(rounds[..k + 1]) <= PacketsOf(rounds)
  {
    assert rounds[..k + 1][..k] == rounds[..k];
    PacketsPrefix(rounds, k + 1);
  }

  /** What a loop has done: it took `taken` from the UDP socket and sent their frames, all of them unless the stream
      broke; and it received `delivered`, the frames at the front of the stream. */
  ghost predicate Forwarded(sent: seq<Byte>, sent': seq<Byte>, taken: seq<Packet>, broken: bool) {
    sent <= sent' <= sent + Frames(taken) && (!broken ==> sent' == sent + Frames(taken))
  }

  ghost predicate Received(incoming: seq<Byte>, incoming': seq<Byte>, delivered: seq<Packet>) {
    incoming == Frames(delivered) + incoming'
  }

  lemma ForwardMore(sent: seq<Byte>, now: seq<Byte>, sent': seq<Byte>, taken: seq<Packet>, packet: Packet, broken: bool)
    requires Forwarded(sent, now, taken, false)
    requires now <= sent' <= now + Frame(packet) && (!broken ==> sent' == now + Frame(packet))
    ensures Forwarded(sent, sent', taken + [packet], broken)
  {
    hide Frame, Frames;
    FramesAppend(taken, packet);
    assert sent + (Frames(taken) + Frame(packet)) == now + Frame(packet);
  }

  lemma ReceiveMore(incoming: seq<Byte>, now: seq<Byte>, incoming': seq<Byte>, delivered: seq<Packet>, packet: Packet)
    requires Received(incoming, now, delivered) && NextFrame(now) == Some((packet, incoming'))
    ensures Received(incoming, incoming', delivered + [packet])
  {
    hide Frames;
    FramesAppend(delivered, packet);
    NextIsFrame(now);
    assert Frames(delivered) + (Frame(packet) + incoming') == (Frames(delivered) + Frame(packet)) + incoming';
  }

  lemma NextIsFrame(stream: seq<Byte>)
    requires NextFrame(stream).Some?
    ensures stream == Frame(NextFrame(stream).value.0) + NextFrame(stream).value.1
  {
    hide BigEndian, FromBigEndian;
    var size := FromBigEndian(stream[..4]);
    FromBigEndianIsBack(stream[..4]);
    assert stream == stream[..4] + stream[4..4 + size] + stream[4 + size..];
  }

  lemma FromBigEndianIsBack(bytes: seq<Byte>)
    requires |bytes| == 4
    ensures BigEndian(FromBigEndian(bytes)) == bytes
  {
    var a: nat, b: nat, c: nat, d: nat := bytes[0], bytes[1], bytes[2], bytes[3];
    FourDigits(a, b, c, d);
  }

  lemma FourDigits(a: nat, b: nat, c: nat, d: nat)
    requires a < 256 && b < 256 && c < 256 && d < 256
    ensures var n := a * 0x100_0000 + b * 0x1_0000 + c * 0x100 + d;
            && n / 0x100_0000 == a && n / 0x1_0000 % 0x100 == b && n / 0x100 % 0x100 == c && n % 0x100 == d
  {
    var n := a * 0x100_0000 + b * 0x1_0000 + c * 0x100 + d;
    assert n / 0x100 == a * 0x1_0000 + b * 0x100 + c;
    assert n / 0x1_0000 == a * 0x100 + b;
  }

  /** Received frames are what Unframe finds at the front. */
  lemma {:induction false} ReceivedIsUnframed(incoming: seq<Byte>, incoming': seq<Byte>, delivered: seq<Packet>)
    requires Received(incoming, incoming', delivered)
    ensures Unframe(incoming) == delivered + Unframe(incoming')
    decreases |delivered|
  {
    hide Frame, NextFrame;
    if delivered == [] {
      assert incoming == incoming';
    } else {
      var rest := Frames(delivered[1..]) + incoming';
      assert incoming == Frame(delivered[0]) + rest;
      NextOfFrame(delivered[0], rest);
      ReceivedIsUnframed(rest, incoming', delivered[1..]);
      assert [delivered[0]] + delivered[1..] == delivered;
    }
  }

  lemma NothingYet(sent: seq<Byte>, incoming: seq<Byte>)
    ensures Forwarded(sent, sent, [], false) && Received(incoming, incoming, [])
  {
  }

  lemma ForwardedBroken(sent: seq<Byte>, now: seq<Byte>, taken: seq<Packet>, broken: bool)
    requires Forwarded(sent, now, taken, false)
    ensures Forwarded(sent, now, taken, broken)
  {
  }

  lemma LastFrame(stream: seq<Byte>)
    requires NextFrame(stream) == None
    ensures Unframe(stream) == []
  {
  }

  lemma NoPackets(rounds: seq<Round>)
    ensures PacketsOf(rounds[..0]) == []
  {
  }

  method ForwardOne(stream: Stream, packet: array<Byte>, data: Packet, ghost before: seq<Byte>, ghost taken: seq<Packet>)
    requires packet.Length == MAX_PACKET && !stream.broken && Forwarded(before, stream.sent, taken, false)
    modifies stream, packet
    ensures stream.incoming == old(stream.incoming)
    ensures Forwarded(before, stream.sent, taken + [data], stream.broken)
  {
    hide Forwarded, Frame;
    ghost var now := stream.sent;
    Store(packet, 0, data);
    assert packet[..|data|] == data;
    var ok := SendFrame(stream, packet, |data|);
    ForwardMore(before, now, stream.sent, taken, data, stream.broken);
  }

  /** The board side: each round forwards a packet, or takes a frame and passes it on, until something fails or the
      rounds end. `ended` says that the stream had no further frame. */
  method BoardLoop(stream: Stream, rounds: seq<Round>)
      returns (taken: seq<Packet>, delivered: seq<Packet>, ended: bool)
    requires !stream.broken
    modifies stream
    ensures taken <= PacketsOf(rounds)
    ensures Forwarded(old(stream.sent), stream.sent, taken, stream.broken)
    ensures delivered <= Unframe(old(stream.incoming))
    ensures ended && !stream.broken ==> delivered == Unframe(old(stream.incoming))
  {
    taken, delivered, ended := [], [], false;
    var packet := new Byte[MAX_PACKET];
    NothingYet(stream.sent, stream.incoming);
    hide Forwarded, Received, Frame, NextFrame, PacketsOf, Unframe;
    NoPackets(rounds);
    for k := 0 to |rounds|
      invariant fresh(packet) && packet.Length == MAX_PACKET
      invariant !stream.broken && taken == PacketsOf(rounds[..k]) && taken <= PacketsOf(rounds) && !ended
      invariant Forwarded(old(stream.sent), stream.sent, taken, false)
      invariant Received(old(stream.incoming), stream.incoming, delivered)
    {
      PacketsMore(rounds, k);
      ReceivedIsUnframed(old(stream.incoming), stream.incoming, delivered);
      ghost var now := stream.incoming;
      if rounds[k].udp.Some? {
        ForwardOne(stream, packet, rounds[k].udp.value, old(stream.sent), taken);
        taken := taken + [rounds[k].udp.value];
        if stream.broken {
          return;
        }
      }
      if rounds[k].stream {
        var count := ReceiveFrame(stream, packet);
        if count.None? {
          ended := true;
          if !stream.broken {
            LastFrame(now);
          }
          ForwardedBroken(old(stream.sent), stream.sent, taken, stream.broken);
          return;
        }
        if !rounds[k].sendto {
          ForwardedBroken(old(stream.sent), stream.sent, taken, stream.broken);
          return;
        }
        ReceiveMore(old(stream.incoming), now, stream.incoming, delivered, packet[..count.value]);
        delivered := delivered + [packet[..count.value]];
      }
    }
    ReceivedIsUnframed(old(stream.incoming), stream.incoming, delivered);
  }

  /** The runner side does the same with sendall and receive. */
  method RunnerLoop(stream: Stream, rounds: seq<Round>)
      returns (taken: seq<Packet>, delivered: seq<Packet>, ended: bool)
    requires !stream.broken
    modifies stream
    ensures taken <= PacketsOf(rounds)
    ensures Forwarded(old(stream.sent), stream.sent, taken, stream.broken)
    ensures delivered <= Unframe(old(stream.incoming))
    ensures ended && !stream.broken ==> delivered == Unframe(old(stream.incoming))
  {
    taken, delivered, ended := [], [], false;
    NothingYet(stream.sent, stream.incoming);
    hide Forwarded, Received, Frame, NextFrame, PacketsOf, Unframe;
    NoPackets(rounds);
    for k := 0 to |rounds|
      invariant !stream.broken && taken == PacketsOf(rounds[..k]) && taken <= PacketsOf(rounds) && !ended
      invariant Forwarded(old(stream.sent), stream.sent, taken, false)
      invariant Received(old(stream.incoming), stream.incoming, delivered)
    {
      PacketsMore(rounds, k);
      ReceivedIsUnframed(old(stream.incoming), stream.incoming, delivered);
      ghost var now := stream.incoming;
      if rounds[k].udp.Some? {
        var packet := rounds[k].udp.value;
        ghost var sent := stream.sent;
        var ok := SendAll(stream, Frame(packet));
        ForwardMore(old(stream.sent), sent, stream.sent, taken, packet, stream.broken);
        taken := taken + [packet];
        if !ok {
          return;
        }
      }
      if rounds[k].stream {
        var packet := ReceivePacket(stream);
        if packet.None? {
          ended := true;
          if !stream.broken {
            LastFrame(now);
          }
          ForwardedBroken(old(stream.sent), stream.sent, taken, stream.broken);
          return;
        }
        if !rounds[k].sendto {
          return;
        }
        ReceiveMore(old(stream.incoming), now, stream.incoming, delivered, packet.value);
        delivered := delivered + [packet.value];
      }
    }
    ReceivedIsUnframed(old(stream.incoming), stream.incoming, delivered);
  }
}
