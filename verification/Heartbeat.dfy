/**
 The heartbeat of socket/socket_client.go (and messages/api_client.go): a worker numbers its
 heartbeats with one byte, a checker expects the replies in that order, and every heartbeat
 starts a timer that complains if the checker still expects that number when it fires.

 Assumed of the surroundings: the router answers only heartbeats that were sent, in order, and
 timers are handled in the order they were started.
 */
module Heartbeat {
  import opened Bytes
  import opened Frames

  datatype Outcome = Running | VersionMismatch | Timeout | Crashed

  datatype Input = Reply(body: seq<byte>) | Timer(ver: byte) | Closed

  datatype Checked = Checked(expected: byte, outcome: Outcome)

  // ---- the checker -----------------------------------------------------------------------

  /** The two copies of the checker: the API's also reads a 32-bit count after the version. */
  datatype Side = Socket | Api

  /** A body too short for what the code indexes is a run-time panic, Crashed here. */
  function OnReply(side: Side, expected: byte, body: seq<byte>): Checked {
    if body == [] then Checked(expected, Crashed)
    else if body[0] != expected then Checked(expected, VersionMismatch)
    else Checked((expected + 1) % 256, if side == Api && |body| < 5 then Crashed else Running)
  }

  function OnTimer(expected: byte, ver: byte): Checked {
    Checked(expected, if ver == expected then Timeout else Running)
  }

  /** All inputs up to the first that ends the checker. */
  function CheckAll(side: Side, expected: byte, inputs: seq<Input>): Checked
    decreases |inputs|
  {
    if inputs == [] || inputs[0].Closed? then Checked(expected, Running)
    else
      var c := if inputs[0].Reply? then OnReply(side, expected, inputs[0].body) else OnTimer(expected, inputs[0].ver);
      if c.outcome != Running then c else CheckAll(side, c.expected, inputs[1..])
  }

  /** heartbeat_check: the select loop, with the inputs in the order it receives them. */
  method HeartbeatCheck(side: Side, inputs: seq<Input>) returns (c: Checked)
    ensures c == CheckAll(side, 1, inputs)
  {
    var heartbeatVer: byte := 1;
    var i := 0;
    while i < |inputs|
      invariant 0 <= i <= |inputs|
      invariant CheckAll(side, 1, inputs) == CheckAll(side, heartbeatVer, inputs[i..])
    {
      assert inputs[i..][1..] == inputs[i + 1..];
      match inputs[i] {
        case Closed =>
          return Checked(heartbeatVer, Running);
        case Reply(b) =>
          if b == [] {
            return Checked(heartbeatVer, Crashed);
          }
          if b[0] != heartbeatVer {
            return Checked(heartbeatVer, VersionMismatch);
          }
          heartbeatVer := (heartbeatVer + 1) % 256;
          if side == Api && |b| < 5 {
            return Checked(heartbeatVer, Crashed);
          }
        case Timer(ver) =>
          if ver == heartbeatVer {
            return Checked(heartbeatVer, Timeout);
          }
      }
      i := i + 1;
    }
    return Checked(heartbeatVer, Running);
  }

  // ---- worker, router, timers and checker together ---------------------------------------

  datatype Event = Beat | Answer | Fire

  /**
   next is the worker's byte counter, expected the checker's; the other fields count the
   heartbeats sent, the replies accepted and the timers handled.
   */
  datatype Link = Link(sent: nat, replied: nat, fired: nat, next: byte, expected: byte, outcome: Outcome)

  /** Which checker runs, and what the router puts after the version byte of a reply. */
  datatype Reflector = Reflector(side: Side, tail: seq<byte>)

  /** To the API side the router answers with the four bytes of the count that its checker reads. */
  type Peer = p: Reflector | p.side == Api ==> |p.tail| >= 4 witness Reflector(Socket, [])

  const INITIAL := Link(0, 0, 0, 1, 1, Running)

  /** The byte carried by the k-th heartbeat, counting from 1. */
  function Version(k: nat): byte {
    if k == 0 then 0 else (Version(k - 1) + 1) % 256
  }

  predicate Enabled(l: Link, e: Event) {
    match e
    case Beat => true
    case Answer => l.replied < l.sent
    case Fire => l.fired < l.sent
  }

  function Step(l: Link, e: Event, peer: Peer): Link {
    match e
    case Beat => l.(sent := l.sent + 1, next := (l.next + 1) % 256)
    case Answer =>
      var c := OnReply(peer.side, l.expected, [Version(l.replied + 1)] + peer.tail);
      l.(expected := c.expected, outcome := c.outcome,
         replied := if c.outcome == Running then l.replied + 1 else l.replied)
    case Fire =>
      var c := OnTimer(l.expected, Version(l.fired + 1));
      l.(expected := c.expected, outcome := c.outcome, fired := l.fired + 1)
  }

  /** At most 254 heartbeats were sent after the one whose timer is handled next. */
  predicate InWindow(l: Link) {
    l.sent <= l.fired + 1 + 254
  }

  /** A trace in which every event can happen and every timer is handled within the window. */
  ghost predicate Regular(l: Link, trace: seq<Event>, peer: Peer)
    decreases |trace|
  {
    trace != [] && l.outcome == Running ==>
      && Enabled(l, trace[0])
      && (trace[0] == Fire ==> InWindow(l))
      && Regular(Step(l, trace[0], peer), trace[1..], peer)
  }

  function Run(l: Link, trace: seq<Event>, peer: Peer): Link
    decreases |trace|
  {
    if trace == [] || l.outcome != Running then l
    else Run(Step(l, trace[0], peer), trace[1..], peer)
  }

  /**
   The checker with unbounded counters: it stops at the first timer k whose reply has not been
   accepted, and never otherwise.
   */
  datatype Ideal = Ideal(sent: nat, replied: nat, fired: nat, alarm: bool)

  function IdealRun(i: Ideal, trace: seq<Event>): Ideal
    decreases |trace|
  {
    if trace == [] || i.alarm then i
    else
      var next := match trace[0]
        case Beat => i.(sent := i.sent + 1)
        case Answer => i.(replied := i.replied + 1)
        case Fire => i.(fired := i.fired + 1, alarm := i.replied < i.fired + 1);
      IdealRun(next, trace[1..])
  }

  function Abstract(l: Link): Ideal {
    Ideal(l.sent, l.replied, l.fired, l.outcome == Timeout)
  }

  ghost predicate Inv(l: Link) {
    && l.next == Version(l.sent + 1)
    && l.expected == Version(l.replied + 1)
    && l.replied <= l.sent && l.fired <= l.sent
    && (l.outcome == Running ==> l.fired <= l.replied)
    && (l.outcome == Running || l.outcome == Timeout)
  }

  lemma {:induction false} VersionIsModulo(k: nat)
    ensures Version(k) == k % 256
  {
    if k > 0 {
      VersionIsModulo(k - 1);
      var q, r := (k - 1) / 256, (k - 1) % 256;
      assert k == 256 * q + (r + 1);
      if r + 1 == 256 {
        Remainder(k, q + 1, 0);
      } else {
        Remainder(k, q, r + 1);
      }
    }
  }

  /** Handling timer k raises an error exactly when the replies accepted are congruent to k - 1. */
  lemma TimerCongruent(l: Link, peer: Peer)
    requires Inv(l) && l.outcome == Running && l.fired < l.sent
    ensures Step(l, Fire, peer).outcome == Timeout <==> (l.replied - l.fired) % 256 == 0
  {
    var a, b := l.replied + 1, l.fired + 1;
    VersionIsModulo(a);
    VersionIsModulo(b);
    Congruent(a, b);
    assert a - b == l.replied - l.fired;
  }

  /** Inside the window: exactly when reply k has not been accepted. */
  lemma TimerExact(l: Link, peer: Peer)
    requires Inv(l) && l.outcome == Running && l.fired < l.sent && InWindow(l)
    ensures Step(l, Fire, peer).outcome == Timeout <==> l.replied < l.fired + 1
  {
    TimerCongruent(l, peer);
    SmallMultiple(l.replied - l.fired);
  }

  lemma SmallMultiple(ahead: nat)
    requires ahead <= 255
    ensures ahead % 256 == ahead
  {
  }

  lemma Congruent(a: nat, b: nat)
    ensures a % 256 == b % 256 <==> (a - b) % 256 == 0
  {
    var q, r := a / 256 - b / 256, a % 256 - b % 256;
    assert a - b == 256 * q + r && -256 < r < 256;
    Remainder(a - b, q, r);
  }

  lemma Remainder(n: int, q: int, r: int)
    requires n == 256 * q + r && -256 < r < 256
    ensures n % 256 == if r < 0 then r + 256 else r
  {
  }

  /** In-order replies never raise a version mismatch, and the invariant survives every event. */
  lemma StepKeepsInv(l: Link, e: Event, peer: Peer)
    requires Inv(l) && l.outcome == Running && Enabled(l, e) && (e == Fire ==> InWindow(l))
    ensures Inv(Step(l, e, peer))
    ensures e == Answer ==> Step(l, e, peer).outcome == Running
  {
    assert ([Version(l.replied + 1)] + peer.tail)[0] == Version(l.replied + 1);
    assert Version(l.sent + 2) == (Version(l.sent + 1) + 1) % 256;
    assert Version(l.replied + 2) == (Version(l.replied + 1) + 1) % 256;
    if e == Fire {
      TimerExact(l, peer);
    }
  }

  /** Despite the wrap-around the byte checker does what the unbounded one does, over every run. */
  lemma {:induction false} WrappedRefinesIdeal(l: Link, trace: seq<Event>, peer: Peer)
    requires Inv(l) && Regular(l, trace, peer)
    ensures Inv(Run(l, trace, peer))
    ensures Abstract(Run(l, trace, peer)) == IdealRun(Abstract(l), trace)
    decreases |trace|
  {
    if trace != [] && l.outcome == Running {
      var e := trace[0];
      StepKeepsInv(l, e, peer);
      if e == Fire {
        TimerExact(l, peer);
      }
      WrappedRefinesIdeal(Step(l, e, peer), trace[1..], peer);
    }
  }

  /** The same from the start of a connection, with what it means for the program's errors. */
  lemma HeartbeatsAreExact(trace: seq<Event>, peer: Peer)
    requires Regular(INITIAL, trace, peer)
    ensures var l := Run(INITIAL, trace, peer);
            && l.outcome != VersionMismatch && l.outcome != Crashed
            && (l.outcome == Timeout <==> IdealRun(Ideal(0, 0, 0, false), trace).alarm)
  {
    assert Version(1) == 1;
    WrappedRefinesIdeal(INITIAL, trace, peer);
  }

  // ---- the loops take part in these traces -----------------------------------------------

  /** What the checker receives along a trace. */
  function Inputs(l: Link, trace: seq<Event>, peer: Peer): seq<Input>
    decreases |trace|
  {
    if trace == [] || l.outcome != Running then []
    else
      var rest := Inputs(Step(l, trace[0], peer), trace[1..], peer);
      match trace[0]
      case Beat => rest
      case Answer => [Reply([Version(l.replied + 1)] + peer.tail)] + rest
      case Fire => [Timer(Version(l.fired + 1))] + rest
  }

  /** heartbeat_check, given what a trace sends it, ends with the trace's outcome. */
  lemma {:induction false} CheckerFollowsTrace(l: Link, trace: seq<Event>, peer: Peer)
    requires l.outcome == Running
    ensures CheckAll(peer.side, l.expected, Inputs(l, trace, peer))
            == Checked(Run(l, trace, peer).expected, Run(l, trace, peer).outcome)
    decreases |trace|
  {
    if trace != [] {
      var m := Step(l, trace[0], peer);
      var inputs, rest := Inputs(l, trace, peer), Inputs(m, trace[1..], peer);
      if trace[0] != Beat {
        assert inputs[1..] == rest;
      }
      if m.outcome == Running {
        CheckerFollowsTrace(m, trace[1..], peer);
      }
    }
  }

  /** The k-th heartbeat the worker writes, with its two fields. */
  function BeatOf(k: nat, tick: (nat, nat)): Sent {
    SocketBeat(Version(k), tick.0, tick.1)
  }

  function Beats(ticks: seq<(nat, nat)>): (sent: seq<Sent>)
    ensures |sent| == |ticks| && forall i :: 0 <= i < |sent| ==> sent[i] == BeatOf(i + 1, ticks[i])
  {
    seq(|ticks|, i requires 0 <= i < |ticks| => BeatOf(i + 1, ticks[i]))
  }

  lemma {:induction false} WireAllSnoc(sent: seq<Sent>, s: Sent)
    ensures WireAll(sent + [s]) == WireAll(sent) + Wire(s)
  {
    if sent == [] {
      assert [s][1..] == [];
      assert Wire(s) + [] == Wire(s);
    } else {
      assert (sent + [s])[1..] == sent[1..] + [s];
      WireAllSnoc(sent[1..], s);
      Associate(Wire(sent[0]), WireAll(sent[1..]), Wire(s));
    }
  }

  lemma NextBeat(ticks: seq<(nat, nat)>, k: nat)
    requires k < |ticks|
    ensures WireAll(Beats(ticks[..k + 1])) == WireAll(Beats(ticks[..k])) + Wire(BeatOf(k + 1, ticks[k]))
  {
    assert Beats(ticks[..k + 1]) == Beats(ticks[..k]) + [BeatOf(k + 1, ticks[k])];
    WireAllSnoc(Beats(ticks[..k]), BeatOf(k + 1, ticks[k]));
  }

  /** heartbeat_worker: one buffer, refilled with a version one higher for every tick. */
  method HeartbeatWorker(ticks: seq<(nat, nat)>) returns (written: seq<byte>)
    ensures written == WireAll(Beats(ticks))
  {
    var heartbeatVer: byte := 1;
    var buffer := new byte[18](i => if i == 0 then 1 else if i == 4 then 13 else 0);
    written := [];
    for k := 0 to |ticks|
      invariant heartbeatVer == Version(k + 1)
      invariant buffer[..5] == [1, 0, 0, 0, 13]
      invariant written == WireAll(Beats(ticks[..k]))
    {
      FillBeat(buffer, heartbeatVer, ticks[k].0, ticks[k].1);
      NextBeat(ticks, k);
      written := written + buffer[..];
      heartbeatVer := (heartbeatVer + 1) % 256;
    }
    assert ticks[..|ticks|] == ticks;
  }

  /** What reading the worker's bytes as frames gives: the k-th is op 1, with version k, and its two fields. */
  ghost predicate ReadsAsBeat(o: Op, k: nat, tick: (nat, nat)) {
    && o.op == 1 && |o.body| == 13
    && o.body[0] == k % 256
    && FromBigEndian(o.body[1..9]) == tick.0
    && FromBigEndian(o.body[9..13]) == tick.1
  }

  lemma BeatReads(k: nat, tick: (nat, nat))
    requires tick.0 < TWO_TO_64 && tick.1 < TWO_TO_32
    ensures ReadsAsBeat(Meant(BeatOf(k, tick)), k, tick)
  {
    BeatFieldsRoundTrip(Version(k), tick.0, tick.1);
    VersionIsModulo(k);
  }

  lemma {:induction false} MeantAt(sent: seq<Sent>, i: nat)
    requires i < |sent|
    ensures MeantAll(sent)[i] == Meant(sent[i])
  {
    if i > 0 {
      MeantAt(sent[1..], i - 1);
    }
  }

  predicate Fitting(tick: (nat, nat)) {
    tick.0 < TWO_TO_64 && tick.1 < TWO_TO_32
  }

  /** The worker's bytes are whole heartbeat frames and nothing else, numbered from 1 modulo 256. */
  lemma WorkerIsRead(ticks: seq<(nat, nat)>)
    requires forall i :: 0 <= i < |ticks| ==> Fitting(ticks[i])
    ensures var d := Decode(WireAll(Beats(ticks)));
            && d.rest == [] && |d.ops| == |ticks|
            && forall k :: 0 <= k < |ticks| ==> ReadsAsBeat(d.ops[k], k + 1, ticks[k])
  {
    var sent := Beats(ticks);
    forall i | 0 <= i < |sent| ensures Framable(MeantAll(sent)[i]) && ReadsAsBeat(MeantAll(sent)[i], i + 1, ticks[i]) {
      MeantAt(sent, i);
      assert Fitting(ticks[i]);
      BeatReads(i + 1, ticks[i]);
    }
    MixedStreamRoundTrip(sent);
  }

  /** Replies that carry the versions read from these frames, in order. */
  ghost predicate Echoes(inputs: seq<Input>, ops: seq<Op>) {
    && |inputs| == |ops|
    && forall k :: 0 <= k < |inputs| ==>
         inputs[k].Reply? && inputs[k].body != [] && |ops[k].body| == 13 && inputs[k].body[0] == ops[k].body[0]
  }

  /** Replies numbered in order from n on keep the socket's checker running. */
  lemma {:induction false} InOrderRuns(inputs: seq<Input>, n: nat)
    requires forall k :: 0 <= k < |inputs| ==>
               inputs[k].Reply? && inputs[k].body != [] && inputs[k].body[0] == (n + k) % 256
    ensures CheckAll(Socket, n % 256, inputs) == Checked((n + |inputs|) % 256, Running)
    decreases |inputs|
  {
    if inputs != [] {
      assert inputs[0].body[0] == (n + 0) % 256;
      NextVersion(n);
      forall k | 0 <= k < |inputs[1..]|
        ensures inputs[1..][k].Reply? && inputs[1..][k].body != [] && inputs[1..][k].body[0] == (n + 1 + k) % 256
      {
        assert inputs[k + 1].body[0] == (n + (k + 1)) % 256;
      }
      InOrderRuns(inputs[1..], n + 1);
    }
  }

  lemma NextVersion(n: nat)
    ensures (n % 256 + 1) % 256 == (n + 1) % 256
  {
  }

  /** The checker accepts an echo of everything the worker wrote, and then expects the next number. */
  lemma WorkerAndCheckerAgree(ticks: seq<(nat, nat)>, inputs: seq<Input>)
    requires forall i :: 0 <= i < |ticks| ==> Fitting(ticks[i])
    requires Echoes(inputs, Decode(WireAll(Beats(ticks))).ops)
    ensures CheckAll(Socket, 1, inputs) == Checked((1 + |ticks|) % 256, Running)
  {
    WorkerIsRead(ticks);
    var ops := Decode(WireAll(Beats(ticks))).ops;
    forall k | 0 <= k < |inputs|
      ensures inputs[k].Reply? && inputs[k].body != [] && inputs[k].body[0] == (1 + k) % 256
    {
      assert ReadsAsBeat(ops[k], k + 1, ticks[k]);
    }
    InOrderRuns(inputs, 1);
  }

  // ---- what ends the checker -------------------------------------------------------------

  /**
   The checker's answer to its first input: it stops at an empty reply, at another number, at a timer
   for the number still expected, and at a reply too short for the API's side; it returns when the
   connection is closed; otherwise it goes on, one number further after a reply.
   */
  lemma FirstInput(side: Side, expected: byte, input: Input, rest: seq<Input>)
    ensures var c := CheckAll(side, expected, [input] + rest);
            match input
            case Closed => c == Checked(expected, Running)
            case Timer(ver) =>
              if ver == expected then c == Checked(expected, Timeout) else c == CheckAll(side, expected, rest)
            case Reply(b) =>
              if b == [] then c == Checked(expected, Crashed)
              else if b[0] != expected then c == Checked(expected, VersionMismatch)
              else if side == Api && |b| < 5 then c.outcome == Crashed
              else c == CheckAll(side, if expected == 255 then 0 else expected + 1, rest)
  {
    var inputs := [input] + rest;
    assert inputs[0] == input && inputs[1..] == rest;
    assert (expected + 1) % 256 == if expected == 255 then 0 else expected + 1;
  }

  // ---- regular traces exist --------------------------------------------------------------

  /** n heartbeats, each answered before its timer is handled. */
  function Steady(n: nat): (t: seq<Event>)
    ensures |t| == 3 * n
  {
    if n == 0 then [] else [Beat, Answer, Fire] + Steady(n - 1)
  }

  /** The connection after n such rounds. */
  ghost predicate AllAnswered(l: Link, n: nat) {
    Inv(l) && l.outcome == Running && l.sent == n && l.replied == n && l.fired == n
  }

  lemma OneRound(l: Link, n: nat, peer: Peer) returns (m: Link)
    requires AllAnswered(l, n)
    ensures m == Step(Step(Step(l, Beat, peer), Answer, peer), Fire, peer) && AllAnswered(m, n + 1)
    ensures Step(l, Beat, peer).outcome == Running && Step(Step(l, Beat, peer), Answer, peer).outcome == Running
    ensures Enabled(Step(l, Beat, peer), Answer)
    ensures var k := Step(Step(l, Beat, peer), Answer, peer); Enabled(k, Fire) && InWindow(k)
  {
    StepKeepsInv(l, Beat, peer);
    var a := Step(l, Beat, peer);
    StepKeepsInv(a, Answer, peer);
    var b := Step(a, Answer, peer);
    StepKeepsInv(b, Fire, peer);
    TimerExact(b, peer);
    m := Step(b, Fire, peer);
  }

  /** However long it goes on, past every wrap-around, a steady trace is regular and raises nothing. */
  lemma {:induction false} SteadyIsRegular(l: Link, n: nat, rounds: nat, peer: Peer)
    requires AllAnswered(l, n)
    ensures Regular(l, Steady(rounds), peer)
    ensures AllAnswered(Run(l, Steady(rounds), peer), n + rounds)
    decreases rounds
  {
    if rounds > 0 {
      var m := OneRound(l, n, peer);
      SteadyIsRegular(m, n + 1, rounds - 1, peer);
      RoundThen(l, n, m, Steady(rounds - 1), peer);
    }
  }

  lemma RoundThen(l: Link, n: nat, m: Link, t: seq<Event>, peer: Peer)
    requires AllAnswered(l, n) && AllAnswered(m, n + 1) && Regular(m, t, peer)
    requires m == Step(Step(Step(l, Beat, peer), Answer, peer), Fire, peer)
    ensures Regular(l, [Beat, Answer, Fire] + t, peer)
    ensures Run(l, [Beat, Answer, Fire] + t, peer) == Run(m, t, peer)
  {
    var a := Step(l, Beat, peer);
    var b := Step(a, Answer, peer);
    var r := OneRound(l, n, peer);
    var three := [Beat, Answer, Fire] + t;
    assert three[1..] == [Answer, Fire] + t && ([Answer, Fire] + t)[1..] == [Fire] + t && ([Fire] + t)[1..] == t;
    assert Regular(b, [Fire] + t, peer) && Run(b, [Fire] + t, peer) == Run(m, t, peer);
    assert Regular(a, [Answer, Fire] + t, peer) && Run(a, [Answer, Fire] + t, peer) == Run(m, t, peer);
  }

  /** And one whose reply is missing when the timer is handled is regular too, and times out. */
  lemma MissedReply(l: Link, n: nat, peer: Peer)
    requires AllAnswered(l, n)
    ensures Regular(l, [Beat, Fire], peer) && Run(l, [Beat, Fire], peer).outcome == Timeout
  {
    StepKeepsInv(l, Beat, peer);
    var a := Step(l, Beat, peer);
    TimerExact(a, peer);
    assert [Beat, Fire][1..] == [Fire] && [Fire][1..] == [];
    assert Run(a, [Fire], peer) == Step(a, Fire, peer);
  }

  lemma StartIsAnswered()
    ensures AllAnswered(INITIAL, 0)
  {
    assert Version(1) == 1;
  }

  // ---- the window is needed --------------------------------------------------------------

  /** n heartbeats, each answered at once, no timer handled yet. */
  function Lockstep(n: nat): (t: seq<Event>)
    ensures |t| == 2 * n
  {
    if n == 0 then [] else Lockstep(n - 1) + [Beat, Answer]
  }

  lemma {:induction false} RunConcat(l: Link, s: seq<Event>, t: seq<Event>, peer: Peer)
    ensures Run(l, s + t, peer) == Run(Run(l, s, peer), t, peer)
    decreases |s|
  {
    if s == [] {
      assert s + t == t;
    } else if l.outcome == Running {
      assert (s + t)[1..] == s[1..] + t;
      RunConcat(Step(l, s[0], peer), s[1..], t, peer);
    }
  }

  lemma {:induction false} LockstepRun(n: nat, peer: Peer)
    ensures Run(INITIAL, Lockstep(n), peer) == Link(n, n, 0, Version(n + 1), Version(n + 1), Running)
  {
    if n == 0 {
      assert Version(1) == 1;
    } else {
      LockstepRun(n - 1, peer);
      RunConcat(INITIAL, Lockstep(n - 1), [Beat, Answer], peer);
      var l := Link(n - 1, n - 1, 0, Version(n), Version(n), Running);
      var m := Step(l, Beat, peer);
      assert ([Version(n)] + peer.tail)[0] == Version(n);
      assert [Beat, Answer][1..] == [Answer];
      assert Run(m, [Answer], peer) == Step(m, Answer, peer);
    }
  }

  /** One heartbeat beyond the window, with every reply in: the first timer reports a timeout. */
  lemma WindowIsTight(peer: Peer)
    ensures var l := Run(INITIAL, Lockstep(256), peer);
            && l.sent == l.fired + 1 + 255
            && l.replied == l.sent
            && Step(l, Fire, peer).outcome == Timeout
  {
    var n := 256;
    LockstepRun(n, peer);
    VersionIsModulo(n + 1);
    VersionIsModulo(1);
    WrapsToFirst(Run(INITIAL, Lockstep(n), peer), peer);
  }

  lemma WrapsToFirst(l: Link, peer: Peer)
    requires l.expected == Version(l.fired + 1)
    ensures Step(l, Fire, peer).outcome == Timeout
  {
  }
}
