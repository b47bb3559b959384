/**
 The framing loop shared by socket/socket_client.go and messages/api_client.go: a five-byte
 header (op, big-endian body size), then the body. Whatever has been read so far is decoded
 greedily; an incomplete frame at the end stays unread.
 */
module Frames {
  import opened Bytes
  import opened Codec

  /** What one turn of the read loop dispatches; a body of size 0 is nil in the program. */
  datatype Op = Op(op: byte, body: seq<byte>)

  datatype Decoded = Decoded(ops: seq<Op>, rest: seq<byte>)

  /** Body size announced by a header. */
  function SizeIn(s: seq<byte>): nat
    requires |s| >= 5
  {
    FromBigEndian(s[1..5])
  }

  predicate Complete(s: seq<byte>) {
    |s| >= 5 && |s| >= 5 + SizeIn(s)
  }

  function Decode(s: seq<byte>): Decoded
    decreases |s|
  {
    if !Complete(s) then Decoded([], s)
    else
      var d := Decode(s[5 + SizeIn(s)..]);
      Decoded([Op(s[0], s[5..5 + SizeIn(s)])] + d.ops, d.rest)
  }

  /** d, with these ops read before it. */
  function After(ops: seq<Op>, d: Decoded): Decoded {
    Decoded(ops + d.ops, d.rest)
  }

  lemma AfterBoth(a: seq<Op>, b: seq<Op>, d: Decoded)
    ensures After(a, After(b, d)) == After(a + b, d)
  {
    assert a + (b + d.ops) == (a + b) + d.ops;
  }

  lemma AfterNone(d: Decoded)
    ensures After([], d) == d
  {
    assert [] + d.ops == d.ops;
  }

  /** The first frame of a stream that starts with a whole one. */
  function First(s: seq<byte>): Op
    requires Complete(s)
  {
    Op(s[0], s[5..5 + SizeIn(s)])
  }

  lemma DecodeFirst(s: seq<byte>)
    requires Complete(s)
    ensures Decode(s) == After([First(s)], Decode(s[5 + SizeIn(s)..]))
  {
  }

  /** ops read so far, the unread stream starting at pos. */
  ghost predicate ReadSoFar(stream: seq<byte>, pos: nat, ops: seq<Op>)
    requires pos <= |stream|
  {
    Decode(stream) == After(ops, Decode(stream[pos..]))
  }

  lemma SliceOfDrop(s: seq<byte>, pos: nat, i: nat, j: nat)
    requires i <= j && pos + j <= |s|
    ensures s[pos..][i..j] == s[pos + i..pos + j]
  {
  }

  lemma DropTwice(s: seq<byte>, pos: nat, n: nat)
    requires pos + n <= |s|
    ensures s[pos..][n..] == s[pos + n..]
  {
  }

  /** The header and the body at pos are those of the stream from pos on. */
  lemma HeaderAt(stream: seq<byte>, pos: nat)
    requires pos + 5 <= |stream|
    ensures SizeIn(stream[pos..]) == FromBigEndian(stream[pos + 1..pos + 5])
  {
    SliceOfDrop(stream, pos, 1, 5);
  }

  /** The frame at pos, given the size its header announces. */
  lemma FrameAt(stream: seq<byte>, pos: nat, size: nat)
    requires pos + 5 + size <= |stream| && SizeIn(stream[pos..]) == size
    ensures Complete(stream[pos..])
    ensures First(stream[pos..]) == Op(stream[pos], stream[pos + 5..pos + 5 + size])
  {
    SliceOfDrop(stream, pos, 5, 5 + size);
  }

  lemma DecodeAt(stream: seq<byte>, pos: nat, size: nat)
    requires pos + 5 + size <= |stream| && SizeIn(stream[pos..]) == size
    ensures Complete(stream[pos..])
    ensures Decode(stream[pos..]) == After([First(stream[pos..])], Decode(stream[pos + 5 + size..]))
  {
    DropTwice(stream, pos, 5 + size);
    DecodeFirst(stream[pos..]);
  }

  lemma ReadOne(stream: seq<byte>, pos: nat, ops: seq<Op>, size: nat)
    requires pos + 5 + size <= |stream| && ReadSoFar(stream, pos, ops)
    requires SizeIn(stream[pos..]) == size
    ensures ReadSoFar(stream, pos + 5 + size, ops + [Op(stream[pos], stream[pos + 5..pos + 5 + size])])
  {
    DecodeAt(stream, pos, size);
    AfterBoth(ops, [First(stream[pos..])], Decode(stream[pos + 5 + size..]));
    FrameAt(stream, pos, size);
  }

  /** What is left when no whole frame is. */
  lemma ReadAll(stream: seq<byte>, pos: nat, ops: seq<Op>)
    requires pos <= |stream| && ReadSoFar(stream, pos, ops) && !Complete(stream[pos..])
    ensures Decode(stream) == Decoded(ops, stream[pos..])
  {
    assert ops + [] == ops;
  }

  /** The loop of read_tcp over the bytes the connection delivers before it ends. */
  method ReadTcp(stream: seq<byte>) returns (ops: seq<Op>, rest: seq<byte>)
    ensures Decoded(ops, rest) == Decode(stream)
  {
    ops := [];
    var pos := 0;
    assert stream[0..] == stream;
    AfterNone(Decode(stream));
    while |stream| - pos >= 5
      invariant 0 <= pos <= |stream|
      invariant ReadSoFar(stream, pos, ops)
    {
      var op := stream[pos];
      HeaderAt(stream, pos);
      var size := FromBigEndian(stream[pos + 1..pos + 5]);
      var b: seq<byte> := [];
      if size > 0 {
        if |stream| - pos < 5 + size {
          break;
        }
        b := stream[pos + 5..pos + 5 + size];
      }
      assert b == stream[pos + 5..pos + 5 + size];
      ReadOne(stream, pos, ops, size);
      ops := ops + [Op(op, b)];
      pos := pos + 5 + size;
    }
    rest := stream[pos..];
    ReadAll(stream, pos, ops);
  }

  // ---- resuming, both inverses -----------------------------------------------------------

  /** Decoding may stop anywhere and go on later: the pieces give what the whole gives. */
  lemma {:induction false} DecodeResumes(s: seq<byte>, t: seq<byte>)
    ensures Decode(s + t) == After(Decode(s).ops, Decode(Decode(s).rest + t))
    decreases |s|
  {
    if Complete(s) {
      var tail := s[5 + SizeIn(s)..];
      DecodeResumes(tail, t);
      SameFirstFrame(s, t);
      DecodeFirst(s);
      AfterBoth([First(s)], Decode(tail).ops, Decode(Decode(tail).rest + t));
    } else {
      AfterNone(Decode(s + t));
    }
  }

  /** More bytes behind a whole frame do not change it. */
  lemma SameFirstFrame(s: seq<byte>, t: seq<byte>)
    requires Complete(s)
    ensures Decode(s + t) == After([First(s)], Decode(s[5 + SizeIn(s)..] + t))
  {
    var n := 5 + SizeIn(s);
    assert (s + t)[1..5] == s[1..5];
    assert (s + t)[5..n] == s[5..n];
    assert (s + t)[n..] == s[n..] + t;
    DecodeFirst(s + t);
  }

  /** A frame at the front of a stream; a body of 2^32 bytes or more is cut to its size modulo 2^32. */
  lemma DecodeFrame(op: byte, body: seq<byte>, t: seq<byte>)
    ensures var n := |body| % TWO_TO_32;
            Decode(Frame(op, body) + t) == After([Op(op, body[..n])], Decode(body[n..] + t))
  {
    var n := |body| % TWO_TO_32;
    var s := Frame(op, body) + t;
    Widths();
    BigEndianRoundTrip(n, 4);
    assert s[1..5] == BigEndian(n, 4);
    assert s[5..5 + n] == body[..n];
    assert s[5 + n..] == body[n..] + t;
    DecodeFirst(s);
  }

  function EncodeAll(ops: seq<Op>): seq<byte> {
    if ops == [] then [] else Frame(ops[0].op, ops[0].body) + EncodeAll(ops[1..])
  }

  predicate Framable(o: Op) {
    |o.body| < TWO_TO_32
  }

  /** Decoding inverts encoding, for any list of ops whose bodies fit the size field. */
  lemma {:induction false} StreamRoundTrip(ops: seq<Op>)
    requires forall i :: 0 <= i < |ops| ==> Framable(ops[i])
    ensures Decode(EncodeAll(ops)) == Decoded(ops, [])
  {
    if ops != [] {
      StreamRoundTrip(ops[1..]);
      assert Framable(ops[0]);
      DecodeFitting(ops[0], EncodeAll(ops[1..]));
      assert ops == [ops[0]] + ops[1..];
    }
  }

  lemma WholeBody(body: seq<byte>, t: seq<byte>)
    ensures body[..|body|] == body && body[|body|..] + t == t
  {
  }

  lemma DecodeFitting(o: Op, t: seq<byte>)
    requires Framable(o)
    ensures Decode(Frame(o.op, o.body) + t) == After([o], Decode(t))
  {
    assert |o.body| % TWO_TO_32 == |o.body|;
    DecodeFrame(o.op, o.body, t);
    WholeBody(o.body, t);
  }

  lemma {:induction false} FromBigEndianBound(b: seq<byte>)
    ensures FromBigEndian(b) < Pow256(|b|)
    ensures BigEndian(FromBigEndian(b), |b|) == b
  {
    if b != [] {
      var init := b[..|b| - 1];
      FromBigEndianBound(init);
      assert FromBigEndian(b) / 256 == FromBigEndian(init);
      assert b == init + [b[|b| - 1]];
    }
  }

  /** Encoding inverts decoding: nothing of a stream is lost, altered or decoded twice. */
  lemma {:induction false} DecodeIsExact(s: seq<byte>)
    ensures s == EncodeAll(Decode(s).ops) + Decode(s).rest
    ensures !Complete(Decode(s).rest)
    decreases |s|
  {
    if Complete(s) {
      var n := 5 + SizeIn(s);
      var o, tail := Op(s[0], s[5..n]), Decode(s[n..]);
      DecodeIsExact(s[n..]);
      FrameAtFront(s);
      EncodeCons(o, tail.ops);
      Associate(Frame(o.op, o.body), EncodeAll(tail.ops), tail.rest);
    } else {
      assert [] + s == s;
    }
  }

  lemma Associate(a: seq<byte>, b: seq<byte>, c: seq<byte>)
    ensures a + (b + c) == (a + b) + c
  {
  }

  lemma EncodeCons(o: Op, ops: seq<Op>)
    ensures EncodeAll([o] + ops) == Frame(o.op, o.body) + EncodeAll(ops)
  {
    assert ([o] + ops)[1..] == ops;
  }

  lemma FrameAtFront(s: seq<byte>)
    requires Complete(s)
    ensures SizeIn(s) < TWO_TO_32
    ensures s == Frame(s[0], s[5..5 + SizeIn(s)]) + s[5 + SizeIn(s)..]
  {
    var size := SizeIn(s);
    FromBigEndianBound(s[1..5]);
    Widths();
    assert s == [s[0]] + s[1..5] + s[5..5 + size] + s[5 + size..];
  }

  /** Whatever is decoded has bodies that fit the size field. */
  lemma {:induction false} DecodedIsFramable(s: seq<byte>)
    ensures forall i :: 0 <= i < |Decode(s).ops| ==> Framable(Decode(s).ops[i])
    decreases |s|
  {
    if Complete(s) {
      FrameAtFront(s);
      DecodedIsFramable(s[5 + SizeIn(s)..]);
    }
  }

  /** The two are mutually inverse: what any stream decodes to can be sent again, and comes back. */
  lemma DecodedIsSentAgain(s: seq<byte>)
    ensures Decode(EncodeAll(Decode(s).ops)) == Decoded(Decode(s).ops, [])
  {
    DecodedIsFramable(s);
    StreamRoundTrip(Decode(s).ops);
  }

  /** And a list of ops comes back from the wire exactly when every one of its bodies fits. */
  lemma RoundTripExactly(ops: seq<Op>)
    ensures Decode(EncodeAll(ops)) == Decoded(ops, []) <==> forall i :: 0 <= i < |ops| ==> Framable(ops[i])
  {
    if Decode(EncodeAll(ops)) == Decoded(ops, []) {
      DecodedIsFramable(EncodeAll(ops));
    } else if forall i :: 0 <= i < |ops| ==> Framable(ops[i]) {
      StreamRoundTrip(ops);
    }
  }

  /**
   A byte prefix of a well-formed stream decodes to a prefix of its ops, and to no fewer than fit
   into it: the bytes left over are part of one incomplete frame.
   */
  lemma PrefixDecodesToPrefix(ops: seq<Op>, k: nat)
    requires forall i :: 0 <= i < |ops| ==> Framable(ops[i])
    requires k <= |EncodeAll(ops)|
    ensures var d := Decode(EncodeAll(ops)[..k]);
            && d.ops <= ops
            && EncodeAll(ops)[..k] == EncodeAll(d.ops) + d.rest
            && !Complete(d.rest)
  {
    var s := EncodeAll(ops);
    StreamRoundTrip(ops);
    assert s == s[..k] + s[k..];
    DecodeResumes(s[..k], s[k..]);
    DecodeIsExact(s[..k]);
  }

  // ---- everything this process writes to the router --------------------------------------

  datatype Sent =
    | Packaged(op: byte, params: Option<seq<seq<byte>>>, payload: Option<seq<byte>>)
    | SocketBeat(ver: byte, nano: nat, received: nat)
    | ApiBeat(ver: byte, nano: nat)

  function SocketBeatBody(ver: byte, nano: nat, received: nat): seq<byte> {
    [ver] + BigEndian(nano, 8) + BigEndian(received, 4)
  }

  function ApiBeatBody(ver: byte, nano: nat): seq<byte> {
    [ver] + BigEndian(nano, 8)
  }

  /** The bytes written: package_op frames, and heartbeats with hand-built headers. */
  function Wire(s: Sent): seq<byte> {
    match s
    case Packaged(op, params, payload) => Frame(op, Body(params, payload))
    case SocketBeat(ver, nano, received) => [1, 0, 0, 0, 13] + SocketBeatBody(ver, nano, received)
    case ApiBeat(ver, nano) => [1, 0, 0, 0, 9] + ApiBeatBody(ver, nano)
  }

  function Meant(s: Sent): Op {
    match s
    case Packaged(op, params, payload) => Op(op, Body(params, payload))
    case SocketBeat(ver, nano, received) => Op(1, SocketBeatBody(ver, nano, received))
    case ApiBeat(ver, nano) => Op(1, ApiBeatBody(ver, nano))
  }

  function WireAll(sent: seq<Sent>): seq<byte> {
    if sent == [] then [] else Wire(sent[0]) + WireAll(sent[1..])
  }

  function MeantAll(sent: seq<Sent>): (ops: seq<Op>)
    ensures |ops| == |sent|
  {
    if sent == [] then [] else [Meant(sent[0])] + MeantAll(sent[1..])
  }

  lemma HandBuiltHeader(n: byte)
    ensures BigEndian(n, 4) == [0, 0, 0, n]
  {
    assert BigEndian(0, 0) == [];
    assert BigEndian(0, 1) == [0];
    assert BigEndian(0, 2) == [0, 0];
    assert BigEndian(0, 3) == [0, 0, 0];
  }

  /** The hand-built headers are the ones package_op would write. */
  lemma WireIsFrame(s: Sent)
    ensures Wire(s) == Frame(Meant(s).op, Meant(s).body)
  {
    HandBuiltHeader(13);
    HandBuiltHeader(9);
  }

  lemma {:induction false} WireIsEncoding(sent: seq<Sent>)
    ensures WireAll(sent) == EncodeAll(MeantAll(sent))
  {
    if sent != [] {
      WireIsFrame(sent[0]);
      WireIsEncoding(sent[1..]);
      assert MeantAll(sent)[1..] == MeantAll(sent[1..]);
    }
  }

  /** Any mix of packaged frames and heartbeats is read back as exactly the ops that were meant. */
  lemma MixedStreamRoundTrip(sent: seq<Sent>)
    requires forall i :: 0 <= i < |sent| ==> Framable(MeantAll(sent)[i])
    ensures Decode(WireAll(sent)) == Decoded(MeantAll(sent), [])
  {
    WireIsEncoding(sent);
    StreamRoundTrip(MeantAll(sent));
  }

  /** The two fields of the API's heartbeat, at their offsets. */
  lemma ApiBeatRoundTrip(ver: byte, nano: nat)
    requires nano < TWO_TO_64
    ensures var b := ApiBeatBody(ver, nano);
            |b| == 9 && b[0] == ver && FromBigEndian(b[1..9]) == nano
  {
    Widths();
    BigEndianRoundTrip(nano, 8);
    assert ApiBeatBody(ver, nano)[1..9] == BigEndian(nano, 8);
  }

  /** The three fields of a heartbeat come back from the body at the offsets used to write them. */
  lemma BeatFieldsRoundTrip(ver: byte, nano: nat, received: nat)
    requires nano < TWO_TO_64 && received < TWO_TO_32
    ensures var b := SocketBeatBody(ver, nano, received);
            && |b| == 13
            && b[0] == ver
            && FromBigEndian(b[1..9]) == nano
            && FromBigEndian(b[9..13]) == received
  {
    var b := SocketBeatBody(ver, nano, received);
    Widths();
    BigEndianRoundTrip(nano, 8);
    BigEndianRoundTrip(received, 4);
    assert b[1..9] == BigEndian(nano, 8);
    assert b[9..13] == BigEndian(received, 4);
  }

  /** The buffer after the version byte: header, version, and whatever it held. */
  lemma BeatHeader(b: seq<byte>, ver: byte)
    requires |b| == 18 && b[..5] == [1, 0, 0, 0, 13] && b[5] == ver
    ensures b[..6] == [1, 0, 0, 0, 13] + [ver]
  {
    assert b[..6] == b[..5] + [b[5]];
  }

  /** Then the time, then the count: each fills its own segment of the buffer. */
  lemma BeatSegments(a: seq<byte>, b: seq<byte>, c: seq<byte>, ver: byte, nano: nat, received: nat)
    requires |a| == 18 && a[..6] == [1, 0, 0, 0, 13] + [ver]
    requires b == a[..6] + BigEndian(nano, 8) + a[14..]
    requires c == b[..14] + BigEndian(received, 4) + b[18..]
    ensures c == Wire(SocketBeat(ver, nano, received))
  {
    assert b[..14] == a[..6] + BigEndian(nano, 8);
    assert b[18..] == [];
  }

  /** One write of heartbeat_worker: the same 18-byte buffer is refilled each time. */
  method FillBeat(buffer: array<byte>, ver: byte, nano: nat, received: nat)
    requires buffer.Length == 18 && buffer[..5] == [1, 0, 0, 0, 13]
    modifies buffer
    ensures buffer[..] == Wire(SocketBeat(ver, nano, received))
    ensures buffer[..5] == [1, 0, 0, 0, 13]
  {
    buffer[5] := ver;
    ghost var a := buffer[..];
    assert a[..5] == buffer[..5];
    BeatHeader(a, ver);
    assert buffer[..6] == a[..6] && buffer[14..] == a[14..];
    PutBigEndian(buffer, 6, nano, 8);
    ghost var b := buffer[..];
    assert buffer[..14] == b[..14] && buffer[18..] == b[18..];
    PutBigEndian(buffer, 14, received, 4);
    BeatSegments(a, b, buffer[..], ver, nano, received);
    assert buffer[..5] == buffer[..][..5];
  }

  /**
   The size field has 32 bits: a frame comes back as what was put into it exactly when its body is
   shorter than 2^32 bytes. One of 2^32 or more is read as a body cut to its size modulo 2^32.
   */
  lemma OversizedFrameIsMisread(op: byte, body: seq<byte>)
    ensures var d := Decode(Frame(op, body));
            && d.ops != [] && d.ops[0] == Op(op, body[..|body| % TWO_TO_32])
            && (d.ops[0] == Op(op, body) <==> |body| < TWO_TO_32)
            && (d == Decoded([Op(op, body)], []) <==> |body| < TWO_TO_32)
  {
    DecodeFrame(op, body, []);
    assert Frame(op, body) + [] == Frame(op, body);
    if |body| < TWO_TO_32 {
      DecodeFitting(Op(op, body), []);
      assert body[..|body|] == body;
    }
  }
}
