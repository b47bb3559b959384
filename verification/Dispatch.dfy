/**
 From frames to channel items: the dispatch in read_tcp (socket/socket_client.go:254-259),
 socket_op (socket/socket_op.go) and connect_user (socket/websocket.go:324-398), on bytes.
 The table of connections is a plain map here; Shards shows that the sharded one is one.
 JSON is opaque: Json says how bodies are read.
 */
module Dispatch {
  import opened Bytes
  import opened Codec
  import opened Frames
  import opened Messages
  import opened Receiver
  import opened Session

  type WsId = seq<byte>

  /** Decoders for the two kinds of JSON body; marshal is the encoder used for op 30. */
  datatype Json = Json(state: seq<byte> -> Blob, message: seq<byte> -> Message, marshal: Blob -> seq<byte>)

  const ZERO: seq<byte> := [48]
  const ONE: seq<byte> := [49]
  const NO_STATE: seq<byte> := [123, 125]

  // ---- channel items as bytes ------------------------------------------------------------

  function Text(b: seq<byte>): (s: string)
    ensures |s| == |b|
  {
    seq(|b|, i requires 0 <= i < |b| => b[i] as char)
  }

  /** What the receiver and connect_user see in a channel item; never called on an empty one. */
  function ItemOf(json: Json, b: seq<byte>): Item
    requires b != []
  {
    var op, body := b[0], b[1..];
    if op == 0 then Comm(Text(body))
    else if op == 20 || op == 21 then
      var p := ParseSpec(body, 1, false);
      if p.err != NoError then Malformed(op) else Answer(op, p.params[0] == ONE)
    else if op == 30 then Handover(body)
    else if op == 31 then
      var p := ParseSpec(body, 1, true);
      if p.err != NoError then Malformed(op)
      else if p.params[0] == ONE then Prev(true, json.state(p.payload.GetOr([])))
      else Prev(false, EMPTY)
    else if op == 32 then Shut
    else if op == 100 then Deliver(json.message(body))
    else Other(op)
  }

  function ItemsOf(json: Json, chan: seq<seq<byte>>): (items: seq<Item>)
    requires forall i :: 0 <= i < |chan| ==> chan[i] != []
    ensures |items| == |chan| && forall i :: 0 <= i < |chan| ==> items[i] == ItemOf(json, chan[i])
  {
    seq(|chan|, i requires 0 <= i < |chan| => ItemOf(json, chan[i]))
  }

  /** connect_user: at most two reads from the channel, each checked as it comes. */
  method ConnectUser(json: Json, recovering: bool, chan: seq<seq<byte>>) returns (j: Joined)
    requires forall i :: 0 <= i < |chan| ==> chan[i] != []
    ensures j == Connect(recovering, ItemsOf(json, chan))
  {
    ghost var items := ItemsOf(json, chan);
    var state := EMPTY;
    var refresh := true;
    if chan == [] {
      return Waiting;
    }
    var b := chan[0];
    var read := 1;
    if !recovering {
      if b[0] != 20 {
        return Failed;
      }
      var p := ByteToParamsAndPayload(b[1..], 1, false);
      if p.err != NoError || p.params[0] != ONE {
        return Failed;
      }
    } else {
      if b[0] != 21 {
        return Failed;
      }
      var p := ByteToParamsAndPayload(b[1..], 1, false);
      if p.err != NoError {
        return Failed;
      }
      if p.params[0] == ONE {
        if |chan| == 1 {
          return Waiting;
        }
        b := chan[1];
        read := 2;
        if b[0] != 31 {
          return Failed;
        }
        p := ByteToParamsAndPayload(b[1..], 1, true);
        if p.err != NoError {
          return Failed;
        }
        if p.params[0] == ONE {
          refresh := false;
          state := json.state(p.payload.GetOr([]));
        }
      }
    }
    var left := chan[read..];
    assert forall i :: 0 <= i < |left| ==> left[i] == chan[read + i];
    assert items[read..] == ItemsOf(json, left);
    return Ready(state, refresh, ItemsOf(json, left));
  }

  // ---- socket_op -------------------------------------------------------------------------

  /**
   The op a missing session refuses. The program tests for 31 (socket/socket_op.go:38); the
   message with two parameters that asks for a state is op 30.
   */
  datatype RefuseRule = RefusesStateReply | RefusesStateRequest

  function RefusedOp(rule: RefuseRule): byte {
    if rule == RefusesStateReply then 31 else 30
  }

  /** received is the unsigned 32-bit counter the heartbeats report. */
  datatype Reader = Reader(received: nat, beats: seq<seq<byte>>, inboxes: map<WsId, seq<seq<byte>>>,
                           outbox: seq<Sent>, crashed: bool)

  function Refusal(sock: seq<byte>, ws: seq<byte>): Sent {
    Packaged(30, Some([sock, ws, ZERO]), Some(NO_STATE))
  }

  function OnRouted(rule: RefuseRule, r: Reader, body: seq<byte>): Reader {
    var p := ParseSpec(body, 1, true);
    if p.err != NoError then r
    else
      var id, payload := p.params[0], p.payload.GetOr([]);
      if payload == [] then r.(crashed := true)
      else if id in r.inboxes then r.(inboxes := r.inboxes[id := r.inboxes[id] + [payload]])
      else if payload[0] == RefusedOp(rule) then
        var q := ParseSpec(payload[1..], 2, false);
        if q.err != NoError then r else r.(outbox := r.outbox + [Refusal(q.params[0], q.params[1])])
      else r
  }

  /** One frame; an empty routed payload makes the program index out of range, crashed here. */
  function OnOp(rule: RefuseRule, r: Reader, o: Op): Reader {
    if r.crashed then r
    else if o.op == 1 then r.(beats := r.beats + [o.body], received := 0)
    else if o.op == 51 then OnRouted(rule, r.(received := (r.received + 1) % TWO_TO_32), o.body)
    else if o.op == 50 then OnRouted(rule, r, o.body)
    else r
  }

  function OnOps(rule: RefuseRule, r: Reader, ops: seq<Op>): Reader {
    if ops == [] then r else OnOp(rule, OnOps(rule, r, ops[..|ops| - 1]), ops[|ops| - 1])
  }

  class Socket {
    const rule: RefuseRule
    var received: nat
    var beats: seq<seq<byte>>
    var inboxes: map<WsId, seq<seq<byte>>>
    var outbox: seq<Sent>
    var crashed: bool

    constructor (rule: RefuseRule, inboxes: map<WsId, seq<seq<byte>>>)
      ensures this.rule == rule && Abstract() == Reader(0, [], inboxes, [], false)
    {
      this.rule := rule;
      this.inboxes := inboxes;
      received, beats, outbox, crashed := 0, [], [], false;
    }

    ghost function Abstract(): Reader
      reads this
    {
      Reader(received, beats, inboxes, outbox, crashed)
    }

    /** socket_op for one frame. */
    method SocketOp(op: byte, b: seq<byte>)
      requires !crashed && op != 1
      modifies this
      ensures Abstract() == OnOp(rule, old(Abstract()), Op(op, b))
    {
      if op == 50 || op == 51 {
        if op == 51 {
          received := (received + 1) % TWO_TO_32;
        }
        var p := ByteToParamsAndPayload(b, 1, true);
        if p.err != NoError {
          return;
        }
        var payload := p.payload.GetOr([]);
        if payload == [] {
          crashed := true;
          return;
        }
        var found := false;
        if p.params[0] in inboxes {
          inboxes := inboxes[p.params[0] := inboxes[p.params[0]] + [payload]];
          found := true;
        }
        if !found && payload[0] == RefusedOp(rule) {
          p := ByteToParamsAndPayload(payload[1..], 2, false);
          if p.err != NoError {
            return;
          }
          outbox := outbox + [Refusal(p.params[0], p.params[1])];
        }
      }
    }

    /** The dispatch of read_tcp over the frames of one stream. */
    method ServeStream(stream: seq<byte>)
      requires !crashed
      modifies this
      ensures Abstract() == OnOps(rule, old(Abstract()), Decode(stream).ops)
    {
      var ops, rest := ReadTcp(stream);
      var i := 0;
      while i < |ops|
        invariant 0 <= i <= |ops|
        invariant Abstract() == OnOps(rule, old(Abstract()), ops[..i])
      {
        assert ops[..i + 1][..i] == ops[..i];
        if !crashed {
          if ops[i].op == 1 {
            beats := beats + [ops[i].body];
            received := 0;
          } else {
            SocketOp(ops[i].op, ops[i].body);
          }
        }
        i := i + 1;
      }
      assert ops[..|ops|] == ops;
    }
  }

  // ---- what a missing session answers ----------------------------------------------------

  /** A frame for a session that does not exist is refused by its op, with the two parameters it carries. */
  lemma RoutedToMissing(rule: RefuseRule, r: Reader, id: WsId, payload: seq<byte>)
    requires !r.crashed && ColonFree(id) && id !in r.inboxes && payload != []
    ensures var q := ParseSpec(payload[1..], 2, false);
            OnOp(rule, r, Op(50, Body(Some([id]), Some(payload))))
            == if payload[0] != RefusedOp(rule) || q.err != NoError then r
               else r.(outbox := r.outbox + [Refusal(q.params[0], q.params[1])])
  {
    PayloadRoundTrip([id], payload);
  }

  /**
   A frame for a session that does not exist, asking it to hand its state over to ws on sock. As
   written nothing is answered, as meant the request is refused with its own two parameters.
   */
  lemma StateRequestToMissing(rule: RefuseRule, r: Reader, id: WsId, sock: seq<byte>, ws: seq<byte>)
    requires !r.crashed && ColonFree(id) && id !in r.inboxes
    requires ColonFree(sock) && ws != []
    ensures var o := Op(50, Body(Some([id]), Some([30] + Body(Some([sock, ws]), None))));
            OnOp(rule, r, o) == if rule == RefusesStateReply then r else r.(outbox := r.outbox + [Refusal(sock, ws)])
  {
    var request := [30] + Body(Some([sock, ws]), None);
    assert request[1..] == Body(Some([sock, ws]), None);
    RoutedToMissing(rule, r, id, request);
    ParamsRoundTrip([sock, ws]);
  }

  /** As parameters without payload, "1" and a state are the body of a state reply. */
  lemma ReplyParses(state: seq<byte>)
    requires state != []
    ensures ParseSpec(StateItemBytes(state)[1..], 2, false) == Parsed([ONE, state], None, NoError)
  {
    assert StateItemBytes(state)[1..] == Body(Some([ONE]), Some(state));
    assert Codec.Join([ONE, state][1..]) == state;
    assert Body(Some([ONE]), Some(state)) == Body(Some([ONE, state]), None);
    ParamsRoundTrip([ONE, state]);
  }

  /** As written, it is a forwarded state that is refused, with "1" and the state as its parameters. */
  lemma StateReplyToMissing(r: Reader, id: WsId, state: seq<byte>)
    requires !r.crashed && ColonFree(id) && id !in r.inboxes && state != []
    ensures var o := Op(50, Body(Some([id]), Some(StateItemBytes(state))));
            OnOp(RefusesStateReply, r, o) == r.(outbox := r.outbox + [Refusal(ONE, state)])
  {
    RoutedToMissing(RefusesStateReply, r, id, StateItemBytes(state));
    ReplyParses(state);
  }

  // ---- what the heartbeats report --------------------------------------------------------

  function CountSinceBeat(ops: seq<Op>): nat {
    if ops == [] || ops[|ops| - 1].op == 1 then 0
    else CountSinceBeat(ops[..|ops| - 1]) + if ops[|ops| - 1].op == 51 then 1 else 0
  }

  lemma RoutedKeepsReceived(rule: RefuseRule, r: Reader, body: seq<byte>)
    ensures OnRouted(rule, r, body).received == r.received && OnRouted(rule, r, body).beats == r.beats
  {
  }

  lemma NextCount(n: nat)
    ensures (n % TWO_TO_32 + 1) % TWO_TO_32 == (n + 1) % TWO_TO_32
  {
  }

  /** What one frame does to the counter. */
  lemma OpCounts(rule: RefuseRule, r: Reader, o: Op)
    requires !r.crashed
    ensures OnOp(rule, r, o).received
            == if o.op == 1 then 0 else if o.op == 51 then (r.received + 1) % TWO_TO_32 else r.received
  {
    RoutedKeepsReceived(rule, r.(received := (r.received + 1) % TWO_TO_32), o.body);
    RoutedKeepsReceived(rule, r, o.body);
  }

  /** The counter is the number of op-51 frames since the last heartbeat reply, modulo 2^32. */
  lemma {:induction false} ReceivedCounts(rule: RefuseRule, inboxes: map<WsId, seq<seq<byte>>>, ops: seq<Op>)
    requires !OnOps(rule, Reader(0, [], inboxes, [], false), ops).crashed
    ensures OnOps(rule, Reader(0, [], inboxes, [], false), ops).received == CountSinceBeat(ops) % TWO_TO_32
  {
    if ops != [] {
      var n := |ops| - 1;
      var r := OnOps(rule, Reader(0, [], inboxes, [], false), ops[..n]);
      if !r.crashed {
        ReceivedCounts(rule, inboxes, ops[..n]);
        OpCounts(rule, r, ops[n]);
        NextCount(CountSinceBeat(ops[..n]));
      }
    }
  }

  // ---- a state on its way between two connections ----------------------------------------

  /** The frame sent by get_prev_state when a connection hands over. */
  function HandoverFrame(save: Save, json: Json): Sent
    requires |save.params| == 2
  {
    Packaged(30, Some([save.params[0], save.params[1], ONE]), Some(json.marshal(save.state)))
  }

  /** The body of the op-30 request asking to hand over to connection ws on socket sock. */
  function RequestBody(sock: seq<byte>, ws: seq<byte>): seq<byte> {
    Body(Some([sock, ws]), None)
  }

  /** The frame the router sends to ws, with the state unchanged. */
  function ForwardFrame(ws: seq<byte>, state: seq<byte>): Sent {
    Packaged(50, Some([ws]), Some(StateItemBytes(state)))
  }

  lemma RequestIsParsed(sock: seq<byte>, ws: seq<byte>)
    requires ColonFree(sock) && ColonFree(ws) && ws != []
    ensures ParseSpec(RequestBody(sock, ws), 2, false) == Parsed([sock, ws], None, NoError)
  {
    ParamsRoundTrip([sock, ws]);
  }

  /** What the old connection sends is read back as its two parameters, "1" and the very state bytes. */
  lemma HandoverFrameRoundTrip(s: State, sock: seq<byte>, ws: seq<byte>, gate: bool, c: Choice, json: Json,
                               rule: AckRule)
    requires ColonFree(sock) && ColonFree(ws) && ws != []
    requires Legal(s, Handover(RequestBody(sock, ws)), c)
    ensures var t := Receive(rule, s, Handover(RequestBody(sock, ws)), gate, c);
            && t.saves == s.saves + [Save([sock, ws], Blob(s.ts, s.queue))]
            && var frame := HandoverFrame(t.saves[|s.saves|], json);
               && (Framable(Meant(frame)) ==> Decode(Wire(frame)) == Decoded([Meant(frame)], []))
               && ParseSpec(Meant(frame).body, 3, true)
                  == Parsed([sock, ws, ONE], Some(json.marshal(Blob(s.ts, s.queue))), NoError)
  {
    RequestIsParsed(sock, ws);
    var t := Receive(rule, s, Handover(RequestBody(sock, ws)), gate, c);
    var frame := HandoverFrame(t.saves[|s.saves|], json);
    var three := [sock, ws, ONE];
    assert forall i :: 0 <= i < 3 ==> ColonFree(three[i]);
    PayloadRoundTrip(three, json.marshal(Blob(s.ts, s.queue)));
    if Framable(Meant(frame)) {
      FrameReads(frame);
    }
  }

  function StateItemBytes(state: seq<byte>): seq<byte> {
    [31] + Body(Some([ONE]), Some(state))
  }

  /** A routed frame reaches the inbox it names, whole, and no other; op 51 is also counted. */
  lemma PayloadIsRouted(rule: RefuseRule, r: Reader, op: byte, id: WsId, payload: seq<byte>)
    requires !r.crashed && (op == 50 || op == 51)
    requires ColonFree(id) && id in r.inboxes && payload != []
    ensures OnOp(rule, r, Op(op, Body(Some([id]), Some(payload))))
            == r.(inboxes := r.inboxes[id := r.inboxes[id] + [payload]],
                  received := if op == 51 then (r.received + 1) % TWO_TO_32 else r.received)
  {
    PayloadRoundTrip([id], payload);
  }

  lemma ForwardIsRouted(rule: RefuseRule, r: Reader, ws: seq<byte>, state: seq<byte>)
    requires ColonFree(ws) && ws in r.inboxes && !r.crashed
    requires Framable(Meant(ForwardFrame(ws, state)))
    ensures OnOps(rule, r, Decode(Wire(ForwardFrame(ws, state))).ops)
            == r.(inboxes := r.inboxes[ws := r.inboxes[ws] + [StateItemBytes(state)]])
  {
    var frame := ForwardFrame(ws, state);
    FrameReads(frame);
    PayloadIsRouted(rule, r, 50, ws, StateItemBytes(state));
    var o := Meant(frame);
    assert [o][..0] == [];
    assert OnOps(rule, r, [o][..0]) == r;
  }

  lemma PositiveAnswer(json: Json)
    ensures ItemOf(json, [21] + ONE) == Answer(21, true)
  {
    assert ([21] + ONE)[1..] == Body(Some([ONE]), None);
    ParamsRoundTrip([ONE]);
  }

  /**
   Through framing, routing by the table, the channel and connect_user: the new connection ends
   up with exactly the state, colons in its JSON notwithstanding.
   */
  lemma ForwardedStateArrives(rule: RefuseRule, r: Reader, json: Json, ws: seq<byte>, b: Blob)
    requires ColonFree(ws) && ws in r.inboxes && !r.crashed
    requires json.state(json.marshal(b)) == b
    requires r.inboxes[ws] == [[21] + ONE]
    requires Framable(Meant(ForwardFrame(ws, json.marshal(b))))
    ensures var t := OnOps(rule, r, Decode(Wire(ForwardFrame(ws, json.marshal(b)))).ops);
            && ws in t.inboxes && |t.inboxes[ws]| == 2
            && t.inboxes[ws][0] != [] && t.inboxes[ws][1] != []
            && Connect(true, ItemsOf(json, t.inboxes[ws])) == Ready(b, false, [])
  {
    ForwardIsRouted(rule, r, ws, json.marshal(b));
    StateItem(json, b);
    PositiveAnswer(json);
    var inbox := [[21] + ONE] + [StateItemBytes(json.marshal(b))];
    assert ItemsOf(json, inbox) == [Answer(21, true), Prev(true, b)];
  }

  /** What the router reads out of an op-30 frame. */
  function ReadByRouter(frame: Sent): Parsed {
    ParseSpec(Meant(frame).body, 3, true)
  }

  /** The state in read is sent on to the connection that read names, and connect_user gets to run. */
  ghost predicate Arrives(rule: RefuseRule, r: Reader, json: Json, read: Parsed, b: Blob) {
    && |read.params| == 3 && read.payload.Some?
    && var u := OnOps(rule, r, Decode(Wire(ForwardFrame(read.params[1], read.payload.value))).ops);
       && read.params[1] in u.inboxes
       && (forall i :: 0 <= i < |u.inboxes[read.params[1]]| ==> u.inboxes[read.params[1]][i] != [])
       && Connect(true, ItemsOf(json, u.inboxes[read.params[1]])) == Ready(b, false, [])
  }

  /**
   A handover from end to end: whatever an old connection is asked to hand over, what the router
   reads out of its op-30 frame, sent on unchanged, reaches the named connection, and that one
   starts with exactly the clock and the queue the old one had.
   */
  lemma HandoverArrives(rule: RefuseRule, ack: AckRule, json: Json, s: State, sock: seq<byte>, ws: seq<byte>,
                        gate: bool, c: Choice, r: Reader)
    requires ColonFree(sock) && ColonFree(ws) && ws != []
    requires Legal(s, Handover(RequestBody(sock, ws)), c)
    requires json.state(json.marshal(Blob(s.ts, s.queue))) == Blob(s.ts, s.queue)
    requires ws in r.inboxes && !r.crashed && r.inboxes[ws] == [[21] + ONE]
    requires Framable(Meant(ForwardFrame(ws, json.marshal(Blob(s.ts, s.queue)))))
    ensures var t := Receive(ack, s, Handover(RequestBody(sock, ws)), gate, c);
            && |t.saves| == |s.saves| + 1 && |t.saves[|s.saves|].params| == 2
            && var read := ReadByRouter(HandoverFrame(t.saves[|s.saves|], json));
               && read.err == NoError && read.params == [sock, ws, ONE]
               && Arrives(rule, r, json, read, Blob(s.ts, s.queue))
  {
    HandoverFrameRoundTrip(s, sock, ws, gate, c, json, ack);
    ReadArrives(rule, r, json, sock, ws, Blob(s.ts, s.queue));
  }

  lemma ReadArrives(rule: RefuseRule, r: Reader, json: Json, sock: seq<byte>, ws: seq<byte>, b: Blob)
    requires ColonFree(ws) && ws in r.inboxes && !r.crashed && r.inboxes[ws] == [[21] + ONE]
    requires json.state(json.marshal(b)) == b && Framable(Meant(ForwardFrame(ws, json.marshal(b))))
    ensures Arrives(rule, r, json, Parsed([sock, ws, ONE], Some(json.marshal(b)), NoError), b)
  {
    ForwardedStateArrives(rule, r, json, ws, b);
  }

  lemma FrameReads(frame: Sent)
    requires Framable(Meant(frame))
    ensures Decode(Wire(frame)) == Decoded([Meant(frame)], [])
  {
    assert MeantAll([frame]) == [Meant(frame)];
    assert WireAll([frame]) == Wire(frame);
    MixedStreamRoundTrip([frame]);
  }

  lemma StateItem(json: Json, b: Blob)
    requires json.state(json.marshal(b)) == b
    ensures ItemOf(json, StateItemBytes(json.marshal(b))) == Prev(true, b)
  {
    var item := StateItemBytes(json.marshal(b));
    assert item[1..] == Body(Some([ONE]), Some(json.marshal(b)));
    PayloadRoundTrip([ONE], json.marshal(b));
  }
}
