/**
 Dispatch on the bytes themselves: what connect_user makes of the answers it can get
 (socket/websocket.go:324-398), what a stream of frames leaves on each channel and with the
 heartbeat checker (socket/socket_client.go:254-259, socket/socket_op.go:8-50), and what the frames
 this process builds look like.
 */
module DispatchLaws {
  import opened Bytes
  import opened Codec
  import opened Frames
  import opened Messages
  import opened Receiver
  import opened Session
  import opened Dispatch

  ghost predicate NonEmpty(chan: seq<seq<byte>>) {
    forall i :: 0 <= i < |chan| ==> chan[i] != []
  }

  /** One parameter and no payload: the whole body, colons included, unless there is none. */
  lemma OneParam(body: seq<byte>)
    ensures ParseSpec(body, 1, false)
            == if body == [] then Parsed([[]], None, ExpectedMore) else Parsed([body], None, NoError)
  {
    assert [] + [body] == [body];
    assert Padded([], 1) == [[]];
  }

  /** One parameter and a payload: split at the first colon, and an error without one. */
  lemma OneParamAndPayload(p: seq<byte>, payload: seq<byte>)
    requires ColonFree(p)
    ensures ParseSpec(p + [58] + payload, 1, true) == Parsed([p], Some(payload), NoError)
    ensures ParseSpec(p, 1, true).err == ExpectedMore
  {
    assert Body(Some([p]), Some(payload)) == p + [58] + payload;
    PayloadRoundTrip([p], payload);
    PayloadParse(p, 1);
    ColonFreeCount(p);
  }

  lemma Items(json: Json, chan: seq<seq<byte>>, n: nat)
    requires NonEmpty(chan) && n <= |chan|
    ensures NonEmpty(chan[n..])
    ensures ItemsOf(json, chan)[n..] == ItemsOf(json, chan[n..])
  {
    assert forall i :: 0 <= i < |chan[n..]| ==> chan[n..][i] == chan[i + n];
  }

  // ---- connect_user, on the bytes it gets ------------------------------------------------

  /** What a new session starts with: no clock, no queue. */
  const NEW: Blob := Blob(0, map[])

  /** A new session starts empty, and has to refresh, on exactly the answer op 20 "1". */
  lemma NewSession(json: Json, chan: seq<seq<byte>>)
    requires NonEmpty(chan)
    ensures NonEmpty(chan[if chan == [] then 0 else 1..])
    ensures Connect(false, ItemsOf(json, chan))
            == if chan == [] then Waiting
               else if chan[0] == [20, 49] then Ready(NEW, true, ItemsOf(json, chan[1..]))
               else Failed
  {
    if chan != [] {
      OneParam(chan[0][1..]);
      assert chan[0] == [chan[0][0]] + chan[0][1..];
      Items(json, chan, 1);
    }
  }

  /** A recovery answered by anything but op 21 with a parameter fails; by another than "1", it starts empty. */
  lemma RecoveryAnswered(json: Json, chan: seq<seq<byte>>)
    requires NonEmpty(chan) && chan != []
    ensures NonEmpty(chan[1..])
    ensures chan[0][0] != 21 || |chan[0]| == 1 ==> Connect(true, ItemsOf(json, chan)) == Failed
    ensures chan[0][0] == 21 && |chan[0]| > 1 && chan[0] != [21, 49] ==>
              Connect(true, ItemsOf(json, chan)) == Ready(NEW, true, ItemsOf(json, chan[1..]))
    ensures chan == [[21, 49]] ==> Connect(true, ItemsOf(json, chan)) == Waiting
  {
    OneParam(chan[0][1..]);
    assert chan[0] == [chan[0][0]] + chan[0][1..];
    Items(json, chan, 1);
  }

  /** Answered "1", it needs op 31 with a delimiter next. */
  lemma StateMissing(json: Json, chan: seq<seq<byte>>)
    requires NonEmpty(chan) && |chan| >= 2 && chan[0] == [21, 49]
    requires chan[1][0] != 31 || ColonFree(chan[1][1..])
    ensures Connect(true, ItemsOf(json, chan)) == Failed
  {
    OneParam([49]);
    assert [21, 49][1..] == [49];
    if chan[1][0] == 31 {
      OneParamAndPayload(chan[1][1..], []);
    }
  }

  /** Then "1" brings the state, and no refresh; any other parameter starts empty and refreshes. */
  lemma StateAnswered(json: Json, p: seq<byte>, payload: seq<byte>, rest: seq<seq<byte>>)
    requires ColonFree(p) && NonEmpty(rest)
    ensures var chan := [[21, 49], [31] + p + [58] + payload] + rest;
            && NonEmpty(chan)
            && Connect(true, ItemsOf(json, chan))
               == if p == [49] then Ready(json.state(payload), false, ItemsOf(json, rest))
                  else Ready(NEW, true, ItemsOf(json, rest))
  {
    var chan := [[21, 49], [31] + p + [58] + payload] + rest;
    OneParam([49]);
    assert [21, 49][1..] == [49];
    assert chan[1][1..] == p + [58] + payload;
    OneParamAndPayload(p, payload);
    Items(json, chan, 2);
    assert chan[2..] == rest;
  }

  /** So a client is spared the refresh exactly when a state was received for it. */
  lemma RefreshUnlessRecovered(json: Json, recovering: bool, chan: seq<seq<byte>>)
    requires NonEmpty(chan) && Connect(recovering, ItemsOf(json, chan)).Ready?
    ensures !Connect(recovering, ItemsOf(json, chan)).refresh
            <==> recovering && |chan| >= 2 && chan[0] == [21, 49] && [31, 49, 58] <= chan[1]
  {
    if !recovering {
      NewSession(json, chan);
    } else if chan != [] {
      RecoveryAnswered(json, chan);
      if |chan| >= 2 && chan[0] == [21, 49] {
        if chan[1][0] != 31 || ColonFree(chan[1][1..]) {
          StateMissing(json, chan);
        } else {
          var b := chan[1][1..];
          var d := FirstDelim(b);
          assert exists i :: 0 <= i < |b| && b[i] == 58;
          assert chan[1] == [31] + b[..d] + [58] + b[d + 1..];
          assert chan == [[21, 49], chan[1]] + chan[2..];
          Items(json, chan, 2);
          StateAnswered(json, b[..d], b[d + 1..], chan[2..]);
          assert b[..d] == [49] ==> chan[1][..3] == [31, 49, 58];
          assert [31, 49, 58] <= chan[1] ==> b[0] == 49 && b[1] == 58 && d == 1 && b[..d] == [49];
        }
      }
    }
  }

  // ---- what the receiver makes of a channel item -----------------------------------------

  /** Every op byte the receiver serves, with what it takes from the bytes behind it. */
  lemma ItemsByOp(json: Json, b: seq<byte>, op: byte)
    ensures ItemOf(json, [0] + b).Comm? && |ItemOf(json, [0] + b).text| == |b|
            && forall i :: 0 <= i < |b| ==> ItemOf(json, [0] + b).text[i] as int == b[i]
    ensures ItemOf(json, [30] + b) == Handover(b)
    ensures ItemOf(json, [32] + b) == Shut
    ensures ItemOf(json, [100] + b) == Deliver(json.message(b))
    ensures op !in {0, 20, 21, 30, 31, 32, 100} ==> ItemOf(json, [op] + b) == Other(op)
  {
    assert ([0] + b)[1..] == b && ([30] + b)[1..] == b && ([100] + b)[1..] == b;
  }

  /** The two commands as they lie on the channel. */
  lemma CommandBytes(json: Json)
    ensures ItemOf(json, [0, 70, 76, 85, 83, 72]) == FLUSH
    ensures ItemOf(json, [0, 83, 69, 84, 95, 84, 73, 77, 69, 82]) == SET_TIMER
  {
    var flush, timer: seq<byte> := [70, 76, 85, 83, 72], [83, 69, 84, 95, 84, 73, 77, 69, 82];
    assert [0, 70, 76, 85, 83, 72][1..] == flush;
    assert [0, 83, 69, 84, 95, 84, 73, 77, 69, 82][1..] == timer;
    assert Text(flush) == "FLUSH";
    assert Text(timer) == "SET_TIMER";
  }

  // ---- a stream of frames ----------------------------------------------------------------

  /** The body names this session and carries this payload. */
  predicate Addresses(body: seq<byte>, id: WsId, payload: seq<byte>) {
    ColonFree(id) && body == id + [58] + payload
  }

  lemma AddressedParses(body: seq<byte>, id: WsId, payload: seq<byte>)
    requires Addresses(body, id, payload)
    ensures ParseSpec(body, 1, true) == Parsed([id], Some(payload), NoError)
  {
    OneParamAndPayload(id, payload);
  }

  /** A body without a delimiter names nobody; any other names one session and one payload. */
  lemma BodyAddresses(body: seq<byte>) returns (id: WsId, payload: seq<byte>)
    ensures ColonFree(body) || Addresses(body, id, payload)
  {
    var d := FirstDelim(body);
    if d == |body| {
      id, payload := [], [];
      assert body[..d] == body;
    } else {
      id, payload := body[..d], body[d + 1..];
    }
  }

  lemma HasDelim(body: seq<byte>, id: WsId, payload: seq<byte>)
    requires Addresses(body, id, payload)
    ensures !ColonFree(body)
  {
    assert body[|id|] == 58;
  }

  lemma NobodyAddressed(body: seq<byte>)
    requires ColonFree(body)
    ensures forall id: WsId, payload: seq<byte> :: !Addresses(body, id, payload)
  {
    forall id: WsId, payload: seq<byte> ensures !Addresses(body, id, payload) {
      if Addresses(body, id, payload) {
        HasDelim(body, id, payload);
      }
    }
  }

  /** What one frame is to one session: the payload it routes there, if any. */
  function RoutedTo(id: WsId, o: Op): seq<seq<byte>> {
    var p := ParseSpec(o.body, 1, true);
    if (o.op == 50 || o.op == 51) && p.err == NoError && p.params[0] == id then [p.payload.GetOr([])] else []
  }

  function AllRoutedTo(id: WsId, ops: seq<Op>): seq<seq<byte>> {
    if ops == [] then [] else AllRoutedTo(id, ops[..|ops| - 1]) + RoutedTo(id, ops[|ops| - 1])
  }

  function BeatBodies(ops: seq<Op>): seq<seq<byte>> {
    if ops == [] then []
    else BeatBodies(ops[..|ops| - 1]) + if ops[|ops| - 1].op == 1 then [ops[|ops| - 1].body] else []
  }

  /** What RoutedTo is on bytes: ops 50 and 51 whose body is the id, a delimiter and the payload. */
  lemma RoutedOnBytes(id: WsId, o: Op)
    ensures forall payload: seq<byte> :: ColonFree(id) ==>
              (RoutedTo(id, o) == [payload] <==> (o.op == 50 || o.op == 51) && Addresses(o.body, id, payload))
  {
    var i, p := BodyAddresses(o.body);
    if ColonFree(o.body) {
      OneParamAndPayload(o.body, []);
    } else {
      AddressedParses(o.body, i, p);
    }
    forall payload: seq<byte> | ColonFree(id) && Addresses(o.body, id, payload)
      ensures RoutedTo(id, o) == if o.op == 50 || o.op == 51 then [payload] else []
    {
      AddressedParses(o.body, id, payload);
    }
  }

  /**
   One frame, if the program survives it. Op 1 goes to the heartbeat checker and clears the counter,
   op 51 counts; a payload is appended to the channel it names; other ops do nothing. The program
   crashes exactly on a payload that is empty.
   */
  lemma OneOp(rule: RefuseRule, r: Reader, o: Op, id: WsId)
    requires !r.crashed && id in r.inboxes
    ensures var u := OnOp(rule, r, o);
            && (u.crashed <==> (o.op == 50 || o.op == 51) && exists i: WsId :: Addresses(o.body, i, []))
            && (!u.crashed ==>
                  && u.inboxes.Keys == r.inboxes.Keys
                  && u.inboxes[id] == r.inboxes[id] + RoutedTo(id, o)
                  && u.beats == r.beats + (if o.op == 1 then [o.body] else []))
            && (o.op == 1 ==> u.received == 0)
            && (o.op !in {1, 50, 51} ==> u == r)
  {
    var i, p := BodyAddresses(o.body);
    if ColonFree(o.body) {
      OneParamAndPayload(o.body, []);
      NobodyAddressed(o.body);
    } else {
      AddressedParses(o.body, i, p);
      forall j: WsId | Addresses(o.body, j, []) ensures p == [] {
        AddressedParses(o.body, j, []);
      }
      assert p == [] ==> Addresses(o.body, i, []);
    }
  }

  /**
   Over any stream the program survives: each session's channel has gained exactly the payloads that
   named it, in order, and the heartbeat checker has got exactly the bodies of the op-1 frames.
   */
  lemma {:induction false} StreamIsRouted(rule: RefuseRule, r: Reader, ops: seq<Op>, id: WsId)
    requires !OnOps(rule, r, ops).crashed && id in r.inboxes
    ensures var u := OnOps(rule, r, ops);
            && u.inboxes.Keys == r.inboxes.Keys
            && u.inboxes[id] == r.inboxes[id] + AllRoutedTo(id, ops)
            && u.beats == r.beats + BeatBodies(ops)
  {
    if ops == [] {
      assert r.inboxes[id] + [] == r.inboxes[id] && r.beats + [] == r.beats;
    } else {
      var n := |ops| - 1;
      if !OnOps(rule, r, ops[..n]).crashed {
        StreamIsRouted(rule, r, ops[..n], id);
        OneOp(rule, OnOps(rule, r, ops[..n]), ops[n], id);
        Associate(r.inboxes[id], AllRoutedTo(id, ops[..n]), RoutedTo(id, ops[n]));
        Associate(r.beats, BeatBodies(ops[..n]), if ops[n].op == 1 then [ops[n].body] else []);
      }
    }
  }

  lemma Associate(a: seq<seq<byte>>, b: seq<seq<byte>>, c: seq<seq<byte>>)
    ensures (a + b) + c == a + (b + c)
  {
  }

  // ---- the frames this process builds ----------------------------------------------------

  /** Op 30 is sent with both ids, "1" and the state, or with both ids, "0" and {} for a refusal. */
  lemma StateFrames(save: Save, json: Json, sock: seq<byte>, ws: seq<byte>)
    requires |save.params| == 2
    ensures Meant(HandoverFrame(save, json))
            == Op(30, save.params[0] + [58] + save.params[1] + [58, 49, 58] + json.marshal(save.state))
    ensures Meant(Refusal(sock, ws)) == Op(30, sock + [58] + ws + [58, 48, 58, 123, 125])
  {
    BodyOfThree(save.params[0], save.params[1], 49, json.marshal(save.state));
    BodyOfThree(sock, ws, 48, [123, 125]);
    assert sock + [58] + ws + [58, 48, 58] + [123, 125] == sock + [58] + ws + [58, 48, 58, 123, 125];
  }

  lemma BodyOfThree(a: seq<byte>, b: seq<byte>, flag: byte, state: seq<byte>)
    ensures Body(Some([a, b, [flag]]), Some(state)) == a + [58] + b + [58, flag, 58] + state
  {
    assert [a, b, [flag]][1..] == [b, [flag]] && [b, [flag]][1..] == [[flag]];
    assert Codec.Join([b, [flag]]) == b + [58] + [flag];
    assert Codec.Join([a, b, [flag]]) == a + [58] + Codec.Join([b, [flag]]);
    var body := (a + [58] + (b + [58] + [flag])) + [58] + state;
    assert Body(Some([a, b, [flag]]), Some(state)) == body;
    assert body == a + [58] + b + [58, flag, 58] + state;
  }
}
