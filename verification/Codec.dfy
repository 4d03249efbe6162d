/** The frame format of the multiplexer and the buffered writer in front of the connection. */
module Codec {
  import opened Common
  import opened MuxPackets

  datatype Payload = Nothing | Content(data: seq<Byte>) | Credit(window: nat)

  datatype Packet = Packet(flag: Byte, id: int, payload: Payload)

  predicate CarriesContent(flag: Byte) {
    flag == PING || flag == PING_RETURN || flag == NEW_MSG || flag == NEW_MSG_PART
  }

  /** A signed 32-bit connection id and the payload its flag calls for. */
  predicate Legal(p: Packet) {
    && -0x8000_0000 <= p.id < 0x8000_0000
    && match p.payload
       case Content(data) => CarriesContent(p.flag) && |data| <= SEGMENT_MAX
       case Credit(window) => p.flag == MSG_SEND_OK && window < 0x1_0000_0000_0000_0000
       case Nothing => !CarriesContent(p.flag) && p.flag != MSG_SEND_OK
  }

  // Little-endian numbers.

  function Pow256(n: nat): nat {
    if n == 0 then 1 else 256 * Pow256(n - 1)
  }

  function ToBytes(x: nat, n: nat): (bytes: seq<Byte>)
    ensures |bytes| == n
  {
    if n == 0 then [] else [x % 256] + ToBytes(x / 256, n - 1)
  }

  function FromBytes(bytes: seq<Byte>): nat {
    if bytes == [] then 0 else bytes[0] + 256 * FromBytes(bytes[1..])
  }

  lemma {:induction false} FromToBytes(x: nat, n: nat)
    requires x < Pow256(n)
    ensures FromBytes(ToBytes(x, n)) == x
  {
    if n > 0 {
      FromToBytes(x / 256, n - 1);
      assert ToBytes(x, n)[1..] == ToBytes(x / 256, n - 1);
    }
  }

  lemma {:induction false} ToFromBytes(bytes: seq<Byte>)
    ensures ToBytes(FromBytes(bytes), |bytes|) == bytes
    ensures FromBytes(bytes) < Pow256(|bytes|)
  {
    if bytes != [] {
      ToFromBytes(bytes[1..]);
    }
  }

  lemma Powers()
    ensures Pow256(2) == 0x1_0000 && Pow256(4) == 0x1_0000_0000 && Pow256(8) == 0x1_0000_0000_0000_0000
  {
    assert Pow256(4) == 256 * (256 * Pow256(2));
    assert Pow256(6) == 256 * (256 * Pow256(4));
    assert Pow256(8) == 256 * (256 * Pow256(6));
  }

  /** The conversions between int32 and uint32. */
  function ToUnsigned(id: int): nat
    requires -0x8000_0000 <= id < 0x8000_0000
  {
    if id < 0 then id + 0x1_0000_0000 else id
  }

  function ToSigned(x: nat): int {
    if x < 0x8000_0000 then x else x - 0x1_0000_0000
  }

  // Frames.

  function EncodePayload(payload: Payload): seq<Byte> {
    match payload
    case Nothing => []
    case Content(data) => ToBytes(|data|, 2) + data
    case Credit(window) => ToBytes(window, 8)
  }

  function Encode(p: Packet): seq<Byte>
    requires Legal(p)
  {
    [p.flag] + ToBytes(ToUnsigned(p.id), 4) + EncodePayload(p.payload)
  }

  datatype Decoded = Failed | Ok(packet: Packet, rest: seq<Byte>)

  /** UnPack on the bytes still to be read: a short read or an over-long content fails. */
  function Decode(s: seq<Byte>): Decoded {
    if |s| < 5 then Failed
    else
      var flag, id, rest := s[0], ToSigned(FromBytes(s[1..5])), s[5..];
      if CarriesContent(flag) then
        if |rest| < 2 then Failed
        else
          var n := FromBytes(rest[..2]);
          if n > SEGMENT_MAX || |rest| < 2 + n then Failed
          else Ok(Packet(flag, id, Content(rest[2..2 + n])), rest[2 + n..])
      else if flag == MSG_SEND_OK then
        if |rest| < 8 then Failed
        else Ok(Packet(flag, id, Credit(FromBytes(rest[..8]))), rest[8..])
      else Ok(Packet(flag, id, Nothing), rest)
  }

  /** Decoding accepts exactly the frames of legal packets and leaves what follows untouched. */
  lemma DecodeExact(s: seq<Byte>, p: Packet, rest: seq<Byte>)
    ensures Decode(s) == Ok(p, rest) <==> Legal(p) && s == Encode(p) + rest
  {
    if Legal(p) && s == Encode(p) + rest {
      EncodedDecodes(p, rest);
    }
    if Decode(s) == Ok(p, rest) {
      DecodedEncodes(s);
    }
  }

  lemma EncodedDecodes(p: Packet, rest: seq<Byte>)
    requires Legal(p)
    ensures Decode(Encode(p) + rest) == Ok(p, rest)
  {
    Powers();
    var s := Encode(p) + rest;
    var body := EncodePayload(p.payload);
    FromToBytes(ToUnsigned(p.id), 4);
    assert s[1..5] == ToBytes(ToUnsigned(p.id), 4);
    assert s[5..] == body + rest;
    match p.payload
    case Nothing =>
    case Content(data) =>
      FromToBytes(|data|, 2);
      assert (body + rest)[..2] == ToBytes(|data|, 2);
      assert (body + rest)[2..2 + |data|] == data;
      assert (body + rest)[2 + |data|..] == rest;
    case Credit(window) =>
      FromToBytes(window, 8);
      assert (body + rest)[..8] == ToBytes(window, 8);
      assert (body + rest)[8..] == rest;
  }

  lemma FrontKept(s: seq<Byte>)
    requires |s| >= 5
    ensures s == [s[0]] + s[1..5] + s[5..]
    ensures var id := ToSigned(FromBytes(s[1..5]));
      -0x8000_0000 <= id < 0x8000_0000 && ToBytes(ToUnsigned(id), 4) == s[1..5]
  {
    Powers();
    ToFromBytes(s[1..5]);
  }

  lemma DecodedPayload(s: seq<Byte>)
    requires Decode(s).Ok?
    ensures var r := Decode(s); Legal(r.packet) && s[5..] == EncodePayload(r.packet.payload) + r.rest
  {
    Powers();
    var r, rest := Decode(s), s[5..];
    ToFromBytes(s[1..5]);
    match r.packet.payload
    case Nothing =>
    case Content(data) =>
      ToFromBytes(rest[..2]);
      assert rest == rest[..2] + data + r.rest;
    case Credit(window) =>
      ToFromBytes(rest[..8]);
      assert rest == rest[..8] + r.rest;
  }

  lemma DecodedEncodes(s: seq<Byte>)
    requires Decode(s).Ok?
    ensures var r := Decode(s); Legal(r.packet) && s == Encode(r.packet) + r.rest
  {
    var r := Decode(s);
    FrontKept(s);
    DecodedPayload(s);
    Regroup([s[0]] + s[1..5], EncodePayload(r.packet.payload), r.rest);
  }

  // Streams of frames.

  predicate AllLegal(ps: seq<Packet>) {
    forall i :: 0 <= i < |ps| ==> Legal(ps[i])
  }

  function EncodeAll(ps: seq<Packet>): seq<Byte>
    requires AllLegal(ps)
  {
    if ps == [] then [] else Encode(ps[0]) + EncodeAll(ps[1..])
  }

  /** What a reader gets from a closed stream: all packets, or None if bytes are left over or broken. */
  function DecodeAll(s: seq<Byte>): Option<seq<Packet>>
    decreases |s|
  {
    if s == [] then Some([])
    else
      match Decode(s)
      case Failed => None
      case Ok(p, rest) =>
        DecodeShrinks(s);
        match DecodeAll(rest)
        case None => None
        case Some(ps) => Some([p] + ps)
  }

  lemma DecodeShrinks(s: seq<Byte>)
    ensures Decode(s).Ok? ==> |Decode(s).rest| < |s|
  {
  }

  /** The packets a reader gets from a stream before the first failure. */
  function Received(s: seq<Byte>): seq<Packet>
    decreases |s|
  {
    DecodeShrinks(s);
    match Decode(s)
    case Failed => []
    case Ok(p, rest) => [p] + Received(rest)
  }

  /** What is left of the stream at that failure. */
  function Undecoded(s: seq<Byte>): seq<Byte>
    decreases |s|
  {
    DecodeShrinks(s);
    match Decode(s)
    case Failed => s
    case Ok(_, rest) => Undecoded(rest)
  }

  /** Every stream, broken off or corrupt, splits into the encodings of the packets received and a rest that
      does not begin with a packet; nothing is left exactly when the whole stream decodes. */
  lemma {:induction false} ReceivedExact(s: seq<Byte>)
    ensures AllLegal(Received(s)) && s == EncodeAll(Received(s)) + Undecoded(s) && Decode(Undecoded(s)).Failed?
    ensures Undecoded(s) == [] <==> DecodeAll(s).Some?
    ensures DecodeAll(s).Some? ==> DecodeAll(s).value == Received(s)
    decreases |s|
  {
    DecodeShrinks(s);
    match Decode(s)
    case Failed =>
    case Ok(p, rest) =>
      DecodedEncodes(s);
      ReceivedExact(rest);
      var all := [p] + Received(rest);
      assert all[0] == p && all[1..] == Received(rest);
      Regroup(Encode(p), EncodeAll(Received(rest)), Undecoded(rest));
  }

  lemma DecodeOneMore(s: seq<Byte>, p: Packet, rest: seq<Byte>, ps: seq<Packet>)
    requires Decode(s) == Ok(p, rest) && DecodeAll(rest) == Some(ps)
    ensures DecodeAll(s) == Some([p] + ps)
  {
  }

  lemma OneMoreRoundTrip(p: Packet, ps: seq<Packet>)
    requires Legal(p) && AllLegal(ps) && DecodeAll(EncodeAll(ps)) == Some(ps)
    ensures DecodeAll(Encode(p) + EncodeAll(ps)) == Some([p] + ps)
  {
    EncodedDecodes(p, EncodeAll(ps));
    DecodeOneMore(Encode(p) + EncodeAll(ps), p, EncodeAll(ps), ps);
  }

  /** The byte stream and the packet list determine each other. */
  lemma {:induction false} StreamRoundTrip(ps: seq<Packet>)
    requires AllLegal(ps)
    ensures DecodeAll(EncodeAll(ps)) == Some(ps)
  {
    if ps != [] {
      var p, rest := ps[0], ps[1..];
      StreamRoundTrip(rest);
      OneMoreRoundTrip(p, rest);
      EncodeAllFirst(p, rest);
      assert ps == [p] + rest;
    }
  }

  lemma EncodeAllFirst(p: Packet, rest: seq<Packet>)
    requires Legal(p) && AllLegal(rest)
    ensures AllLegal([p] + rest) && EncodeAll([p] + rest) == Encode(p) + EncodeAll(rest)
  {
    assert ([p] + rest)[1..] == rest;
  }

  lemma {:induction false} StreamUnique(s: seq<Byte>)
    requires DecodeAll(s).Some?
    ensures AllLegal(DecodeAll(s).value) && EncodeAll(DecodeAll(s).value) == s
    decreases |s|
  {
    if s != [] {
      DecodeShrinks(s);
      DecodedEncodes(s);
      StreamUnique(Decode(s).rest);
      var ps := DecodeAll(s).value;
      assert ps[1..] == DecodeAll(Decode(s).rest).value;
    }
  }

  lemma {:induction false} EncodeAllAppend(ps: seq<Packet>, p: Packet)
    requires AllLegal(ps) && Legal(p)
    ensures AllLegal(ps + [p])
    ensures EncodeAll(ps + [p]) == EncodeAll(ps) + Encode(p)
  {
    if ps == [] {
      assert ps + [p] == [p] && [p][1..] == [];
    } else {
      EncodeAllAppend(ps[1..], p);
      assert (ps + [p])[1..] == ps[1..] + [p];
      Regroup(Encode(ps[0]), EncodeAll(ps[1..]), Encode(p));
    }
  }

  /** FlushWriter, with the bytes handed to the connection so far. */
  class FlushWriter {
    var buf: seq<Byte>
    var wire: seq<Byte>

    ghost predicate Valid()
      reads this
    {
      |buf| <= BUFFER_SIZE
    }

    /** Everything written, flushed or not. */
    ghost function Total(): seq<Byte>
      reads this
    {
      wire + buf
    }

    constructor ()
      ensures Valid() && Total() == [] && wire == []
    {
      buf, wire := [], [];
    }

    method Write(p: seq<Byte>)
      requires Valid()
      modifies this
      ensures Valid() && Total() == old(Total()) + p && old(wire) <= wire
    {
      if |p| + |buf| > BUFFER_SIZE && |buf| > 0 {
        wire := wire + buf;
        buf := [];
      }
      if |p| > BUFFER_SIZE {
        wire := wire + p;
        return;
      }
      buf := buf + p;
    }

    method Flush()
      requires Valid()
      modifies this
      ensures Valid() && Total() == old(Total()) && wire == Total()
    {
      if |buf| == 0 {
        return;
      }
      wire := wire + buf;
      buf := [];
    }
  }

  /** binary.LittleEndian.PutUint16, PutUint32 and PutUint64. */
  method PutUint(buf: array<Byte>, at: nat, x: nat, n: nat)
    requires at + n <= buf.Length
    modifies buf
    ensures buf[at..at + n] == ToBytes(x, n)
    ensures forall i :: 0 <= i < buf.Length && !(at <= i < at + n) ==> buf[i] == old(buf[i])
  {
    var i, left := 0, x;
    while i < n
      invariant 0 <= i <= n
      invariant buf[at..at + i] + ToBytes(left, n - i) == ToBytes(x, n)
      invariant forall j :: 0 <= j < buf.Length && !(at <= j < at + n) ==> buf[j] == old(buf[j])
    {
      assert ToBytes(left, n - i) == [left % 256] + ToBytes(left / 256, n - i - 1);
      ghost var done := buf[at..at + i];
      buf[at + i] := left % 256;
      assert buf[at..at + i + 1] == done + [left % 256];
      left, i := left / 256, i + 1;
    }
  }

  /** muxPackager on the sending side, where the content shares the frame buffer. */
  class Packager {
    var flag: Byte
    var id: int
    var window: nat
    var length: nat
    const buf: array<Byte>

    ghost predicate Valid()
      reads this, buf
    {
      && buf.Length == BUFFER_SIZE
      && length <= SEGMENT_MAX
      && Legal(Value())
    }

    /** The packet the fields stand for. */
    ghost function Value(): Packet
      requires buf.Length == BUFFER_SIZE && length <= SEGMENT_MAX
      reads this, buf
    {
      Packet(flag, id,
        if CarriesContent(flag) then Content(buf[7..7 + length])
        else if flag == MSG_SEND_OK then Credit(window)
        else Nothing)
    }

    /** muxPackager.Set; a content larger than a segment is logged and dropped, leaving an empty one. */
    constructor Set(flag: Byte, id: int, content: seq<Byte>, window: nat)
      requires -0x8000_0000 <= id < 0x8000_0000 && window < 0x1_0000_0000_0000_0000
      ensures Valid() && fresh(buf)
      ensures Value() == Packet(flag, id,
        if CarriesContent(flag) then Content(if |content| <= SEGMENT_MAX then content else [])
        else if flag == MSG_SEND_OK then Credit(window)
        else Nothing)
    {
      this.flag, this.id, this.window, length := flag, id, window, 0;
      var b := new Byte[BUFFER_SIZE](_ => 0);
      buf := b;
      new;
      if CarriesContent(flag) && |content| <= SEGMENT_MAX {
        var _ := CopyInto(buf, 7, content);
        length := |content|;
        forall i | 0 <= i < length ensures buf[7..7 + length][i] == content[i] {
          assert buf[7 + i] == content[7 + i - 7];
        }
      }
    }

    /** basePackager.Pack's first writes: the flag and the id. */
    method PutHeader()
      requires buf.Length == BUFFER_SIZE && -0x8000_0000 <= id < 0x8000_0000
      modifies buf
      ensures buf[..5] == [flag] + ToBytes(ToUnsigned(id), 4)
      ensures forall i :: 5 <= i < buf.Length ==> buf[i] == old(buf[i])
    {
      buf[0] := flag;
      var u := if id < 0 then id + 0x1_0000_0000 else id;
      PutUint(buf, 1, u, 4);
      assert buf[..5] == [buf[0]] + buf[1..5];
    }

    /** muxPackager.Pack. */
    method Pack(w: FlushWriter)
      requires Valid() && w.Valid()
      modifies buf, w
      ensures w.Valid() && w.Total() == old(w.Total()) + Encode(old(Value()))
    {
      ghost var body := buf[7..7 + length];
      PutHeader();
      ghost var header := buf[..5];
      if CarriesContent(flag) {
        PutUint(buf, 5, length, 2);
        assert buf[7..7 + length] == body;
        assert buf[..5] == header;
        assert buf[..7 + length] == header + (buf[5..7] + body);
        w.Write(buf[..7 + length]);
      } else if flag == MSG_SEND_OK {
        PutUint(buf, 5, window, 8);
        assert buf[..5] == header;
        assert buf[..13] == header + buf[5..13];
        w.Write(buf[..13]);
      } else {
        w.Write(buf[..5]);
      }
    }
  }

  /** The receiving end of the connection. */
  class Reader {
    var input: seq<Byte>

    constructor (bytes: seq<Byte>)
      ensures input == bytes
    {
      input := bytes;
    }

    /** io.ReadFull. */
    method ReadFull(n: nat) returns (r: Option<seq<Byte>>)
      modifies this
      ensures |old(input)| < n ==> r == None
      ensures |old(input)| >= n ==> r == Some(old(input)[..n]) && input == old(input)[n..]
    {
      if |input| < n {
        return None;
      }
      r, input := Some(input[..n]), input[n..];
    }

    /** muxPackager.UnPack. */
    method UnPack() returns (r: Option<Packet>)
      modifies this
      ensures match Decode(old(input))
        case Failed => r == None
        case Ok(p, rest) => r == Some(p) && input == rest
    {
      var header := ReadFull(5);
      if header.None? {
        return None;
      }
      var flag, id := header.value[0], ToSigned(FromBytes(header.value[1..]));
      assert header.value[1..] == old(input)[1..5];
      if CarriesContent(flag) {
        var size := ReadFull(2);
        if size.None? {
          return None;
        }
        var length := FromBytes(size.value);
        if length > SEGMENT_MAX {
          return None;
        }
        var data := ReadFull(length);
        if data.None? {
          return None;
        }
        assert old(input)[5..][2..][..length] == old(input)[5..][2..2 + length];
        return Some(Packet(flag, id, Content(data.value)));
      } else if flag == MSG_SEND_OK {
        var bytes := ReadFull(8);
        if bytes.None? {
          return None;
        }
        return Some(Packet(flag, id, Credit(FromBytes(bytes.value))));
      }
      return Some(Packet(flag, id, Nothing));
    }
  }

  datatype Op = Send(p: Packet) | FlushNow

  function Sends(ops: seq<Op>): seq<Packet> {
    if ops == [] then []
    else Sends(ops[..|ops| - 1]) + (if ops[|ops| - 1].Send? then [ops[|ops| - 1].p] else [])
  }

  lemma SendsMore(ops: seq<Op>, k: nat)
    requires k < |ops|
    ensures Sends(ops[..k + 1]) == if ops[k].FlushNow? then Sends(ops[..k]) else Sends(ops[..k]) + [ops[k].p]
  {
    assert ops[..k + 1][..k] == ops[..k];
  }

  lemma WireMore(ops: seq<Op>, k: nat)
    requires k < |ops| && AllLegal(Sends(ops[..k])) && (ops[k].Send? ==> Legal(ops[k].p))
    ensures AllLegal(Sends(ops[..k + 1]))
    ensures EncodeAll(Sends(ops[..k + 1])) == EncodeAll(Sends(ops[..k])) + if ops[k].Send? then Encode(ops[k].p) else []
  {
    SendsMore(ops, k);
    if ops[k].Send? {
      EncodeAllAppend(Sends(ops[..k]), ops[k].p);
    } else {
      assert EncodeAll(Sends(ops[..k])) + [] == EncodeAll(Sends(ops[..k]));
    }
  }

  /** writeSession's loop: packets packed through the buffered writer, with flushes anywhere. */
  method WriteSession(ops: seq<Op>) returns (wire: seq<Byte>)
    requires forall i :: 0 <= i < |ops| && ops[i].Send? ==> Legal(ops[i].p)
    ensures AllLegal(Sends(ops)) && wire == EncodeAll(Sends(ops))
  {
    var w := new FlushWriter();
    var k := 0;
    while k < |ops|
      invariant 0 <= k <= |ops|
      invariant w.Valid() && AllLegal(Sends(ops[..k])) && w.Total() == EncodeAll(Sends(ops[..k]))
    {
      WireMore(ops, k);
      Do(ops[k], w);
      k := k + 1;
    }
    w.Flush();
    assert ops[..k] == ops;
    return w.wire;
  }

  method Do(op: Op, w: FlushWriter)
    requires w.Valid() && (op.Send? ==> Legal(op.p))
    modifies w
    ensures w.Valid() && w.Total() == old(w.Total()) + if op.Send? then Encode(op.p) else []
  {
    if op.FlushNow? {
      w.Flush();
    } else {
      SendPacket(op.p, w);
    }
  }

  /** Setting a packager to a legal packet and packing it appends its frame. */
  method SendPacket(p: Packet, w: FlushWriter)
    requires Legal(p) && w.Valid()
    modifies w
    ensures w.Valid() && w.Total() == old(w.Total()) + Encode(p)
  {
    var content := if p.payload.Content? then p.payload.data else [];
    var window := if p.payload.Credit? then p.payload.window else 0;
    var pack := new Packager.Set(p.flag, p.id, content, window);
    pack.Pack(w);
  }

  /** One session: whatever is written with flushes anywhere is read back from the wire as the same
      packets, with nothing left over. */
  method Session(ops: seq<Op>) returns (received: seq<Packet>, left: nat)
    requires forall i :: 0 <= i < |ops| && ops[i].Send? ==> Legal(ops[i].p)
    ensures received == Sends(ops) && left == 0
  {
    var wire := WriteSession(ops);
    StreamRoundTrip(Sends(ops));
    var r := new Reader(wire);
    ReceivedExact(wire);
    received, left := ReadSession(r);
  }

  /** readSession's loop over UnPack until it fails: at the end of the stream or at the first bytes that are no
      packet, of which left are not decoded. */
  method ReadSession(r: Reader) returns (received: seq<Packet>, left: nat)
    modifies r
    ensures received == Received(old(r.input)) && left == |Undecoded(old(r.input))|
  {
    received := [];
    while true
      invariant received + Received(r.input) == Received(old(r.input))
      invariant Undecoded(r.input) == Undecoded(old(r.input))
      decreases |r.input|
    {
      ghost var before := r.input;
      left := |r.input|;
      DecodeShrinks(r.input);
      var p := r.UnPack();
      if p.None? {
        return;
      }
      assert Received(before) == [p.value] + Received(r.input);
      assert received + ([p.value] + Received(r.input)) == received + [p.value] + Received(r.input);
      received := received + [p.value];
    }
  }
}
