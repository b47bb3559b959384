/**
 One user session over a chain of reconnections. The router feeds one connection at a time; on a
 recovery it answers the new connection's op 21, tells the old one to hand its state over (op 30),
 and forwards that state as op 31 (socket/websocket.go:191-205, 324-398).

 Assumed of the router: once it has sent a connection op 30 it feeds it no more; it forwards the
 op-30 state unchanged inside op 31; and it sends a recovering connection nothing between the
 answer to op 21 and that op 31, which connect_user would take for a failure. Recoveries it
 refuses, and sessions removed, end the chain and are not steps here.
 */
module Session {
  import opened Bytes
  import opened Messages
  import opened Receiver
  import opened ReceiverLaws
  import opened Gate

  const EMPTY: Blob := Blob(0, map[])

  // ---- connect_user ----------------------------------------------------------------------

  /** rest is what the channel still holds for the receiver. */
  datatype Joined =
    | Waiting
    | Failed
    | Ready(state: Blob, refresh: bool, rest: seq<Item>)

  function Connect(recovering: bool, chan: seq<Item>): Joined {
    if chan == [] then Waiting
    else if !recovering then
      if chan[0] == Answer(20, true) then Ready(EMPTY, true, chan[1..]) else Failed
    else if !chan[0].Answer? || chan[0].op != 21 then Failed
    else if !chan[0].ok then Ready(EMPTY, true, chan[1..])
    else if |chan| == 1 then Waiting
    else if !chan[1].Prev? then Failed
    else if chan[1].ok then Ready(chan[1].state, false, chan[2..])
    else Ready(EMPTY, true, chan[2..])
  }

  // ---- the system ------------------------------------------------------------------------

  /** A connection; until it is live only its channel matters. start is what it was installed with. */
  datatype Peer = Peer(c: Conn, live: bool, start: Blob)

  datatype Router = Feeding(i: nat) | Moving(from: nat, to: nat)

  /** What happened to the session's messages, whichever connection served them. */
  datatype Happened = Accepted(m: Message, gate: bool) | Acked(text: string)

  /** live lists the messages, not atomic, written to a client as they arrived. */
  datatype Sys = Sys(peers: seq<Peer>, router: Router, wire: Option<Blob>, history: seq<Happened>,
                     live: seq<Message>)

  datatype Event =
    | Payload(m: Message)
    | Dismiss
    | Recover(body: seq<byte>)
    | Forward
    | Join(x: nat)
    | Local(x: nat, step: Step)

  function StartConn(b: Blob, chan: seq<Item>): Conn {
    Conn(State(b.ts, b.queue, [], [], false, false), chan, false, false)
  }

  /** A session just added (op 20 answered), with one live connection. */
  const INITIAL: Sys := Sys([Peer(StartConn(EMPTY, []), true, EMPTY)], Feeding(0), None, [], [])

  /** The connection whose queue is the session's, unless that queue is on its way to another. */
  predicate Owns(s: Sys, x: nat) {
    s.wire == None && x == if s.router.Feeding? then s.router.i else s.router.from
  }

  ghost predicate CanHappen(s: Sys, e: Event) {
    match e
    case Payload(_) => s.router.Feeding? && s.router.i < |s.peers|
    case Dismiss => s.router.Feeding? && s.router.i < |s.peers|
    case Recover(_) => s.router.Feeding? && s.router.i < |s.peers|
    case Forward => s.router.Moving? && s.wire.Some? && s.router.to < |s.peers|
    case Join(x) => x < |s.peers| && !s.peers[x].live && Connect(true, s.peers[x].c.chan).Ready?
    case Local(x, step) => x < |s.peers| && s.peers[x].live && !step.RouterPut? && Enabled(s.peers[x].c, step)
  }

  /** What the session's history gains when its owner receives an item. */
  function Gained(c: Conn): seq<Happened>
    requires c.chan != []
  {
    match c.chan[0]
    case Deliver(m) => if Stale(c.r, m, c.gate) then [] else [Accepted(m, c.gate)]
    case Comm(text) => if text == "FLUSH" || text == "SET_TIMER" then [] else [Acked(text)]
    case _ => []
  }

  /** The connection being fed gets an item: a payload, or op 32, which closes its websocket. */
  function FeedItem(s: Sys, item: Item): Sys
    requires s.router.Feeding? && s.router.i < |s.peers|
  {
    var p := s.peers[s.router.i];
    s.(peers := s.peers[s.router.i := p.(c := Put(p.c, item))])
  }

  ghost function Next(rule: AckRule, order: OpenOrder, s: Sys, e: Event): Sys
    requires CanHappen(s, e)
  {
    match e
    case Payload(m) => FeedItem(s, Deliver(m))
    case Dismiss => FeedItem(s, Shut)
    case Recover(body) =>
      var p := s.peers[s.router.i];
      var joining := Peer(StartConn(EMPTY, [Answer(21, true)]), false, EMPTY);
      s.(peers := s.peers[s.router.i := p.(c := Put(p.c, Handover(body)))] + [joining],
         router := Moving(s.router.i, |s.peers|))
    case Forward =>
      var p := s.peers[s.router.to];
      s.(peers := s.peers[s.router.to := p.(c := Put(p.c, Prev(true, s.wire.value)))],
         wire := None, router := Feeding(s.router.to))
    case Join(x) =>
      var j := Connect(true, s.peers[x].c.chan);
      s.(peers := s.peers[x := Peer(StartConn(j.state, j.rest), true, j.state)])
    case Local(x, step) =>
      var p := s.peers[x];
      var d := Do(rule, order, p.c, step);
      s.(peers := s.peers[x := p.(c := d)],
         wire := if step.Recv? && p.c.chan[0].Handover? then Some(d.r.saves[|d.r.saves| - 1].state) else s.wire,
         history := if step.Recv? && Owns(s, x) then s.history + Gained(p.c) else s.history,
         live := if step.Recv? then s.live + NewLive(Added(p.c.r, p.c.chan[0], p.c.gate, step.c)) else s.live)
  }

  /** A message written as it arrived is the last thing its item adds to the log. */
  function NewLive(added: seq<Entry>): seq<Message> {
    if added != [] && added[|added| - 1].Live? && !added[|added| - 1].m.atomic then [added[|added| - 1].m] else []
  }

  ghost predicate Reaches(rule: AckRule, order: OpenOrder, s: Sys, events: seq<Event>, t: Sys)
    decreases |events|
  {
    if events == [] then t == s
    else CanHappen(s, events[0]) && Reaches(rule, order, Next(rule, order, s, events[0]), events[1..], t)
  }

  // ---- one queue that never moves --------------------------------------------------------

  function Apply(rule: AckRule, b: Blob, h: Happened): Blob {
    match h
    case Accepted(m, _) => Blob(Max(b.ts, m.ts), b.queue[Key(m) := m])
    case Acked(text) => Blob(b.ts, b.queue - {AckedKey(rule, text)})
  }

  /** The session kept in one place: its history applied to an empty queue. */
  function Replay(rule: AckRule, history: seq<Happened>): Blob {
    if history == [] then EMPTY
    else Apply(rule, Replay(rule, history[..|history| - 1]), history[|history| - 1])
  }

  lemma ReplaySnoc(rule: AckRule, history: seq<Happened>, h: Happened)
    ensures Replay(rule, history + [h]) == Apply(rule, Replay(rule, history), h)
  {
    assert (history + [h])[..|history|] == history;
  }

  /** The state a connection holds, or is about to be given. */
  function HeldBy(p: Peer): Blob {
    if p.live then Blob(p.c.r.ts, p.c.r.queue)
    else if |p.c.chan| >= 2 && p.c.chan[1].Prev? then p.c.chan[1].state
    else EMPTY
  }

  /** Where the session's state is: on the wire, or held by the connection that owns it. */
  function Custody(s: Sys): Blob
    requires s.router.Feeding? ==> s.router.i < |s.peers|
    requires s.router.Moving? ==> s.router.from < |s.peers|
  {
    if s.wire.Some? then s.wire.value
    else HeldBy(s.peers[if s.router.Feeding? then s.router.i else s.router.from])
  }

  // ---- the invariant ---------------------------------------------------------------------

  datatype Role = Old | Fed | Leaving | Coming

  predicate Placed(s: Sys) {
    && (s.router.Feeding? ==> s.router.i + 1 == |s.peers| && s.wire == None)
    && (s.router.Moving? ==> s.router.from + 2 == |s.peers| && s.router.to + 1 == |s.peers|)
  }

  function RoleOf(s: Sys, x: nat): Role {
    if s.router.Feeding? then if x < s.router.i then Old else Fed
    else if x == s.router.to then Coming
    else if x == s.router.from && s.wire == None then Leaving
    else Old
  }

  predicate NoHandover(chan: seq<Item>) {
    forall n :: 0 <= n < |chan| ==> !chan[n].Handover?
  }

  predicate Unfed(chan: seq<Item>) {
    forall n :: 0 <= n < |chan| ==> !chan[n].Handover? && !chan[n].Deliver?
  }

  /** Exactly one op 30, and nothing delivered after it. */
  ghost predicate LeavesAt(chan: seq<Item>, h: nat) {
    && h < |chan| && chan[h].Handover?
    && (forall n :: 0 <= n < h ==> !chan[n].Handover?)
    && Unfed(chan[h + 1..])
  }

  ghost predicate LeavesOnce(chan: seq<Item>) {
    exists h: nat :: LeavesAt(chan, h)
  }

  /** The channel of a connection that connect_user will install from, without an error. */
  predicate Joining(chan: seq<Item>) {
    && |chan| >= 2 && chan[0] == Answer(21, true) && chan[1].Prev? && chan[1].ok
    && forall n :: 2 <= n < |chan| ==> chan[n].Deliver? || chan[n].Shut? || chan[n].Handover?
  }

  ghost predicate Plays(role: Role, p: Peer) {
    match role
    case Old => p.live && Unfed(p.c.chan)
    case Fed => NoHandover(p.c.chan) && (p.live || Joining(p.c.chan))
    case Leaving => LeavesOnce(p.c.chan) && (p.live || Joining(p.c.chan))
    case Coming => !p.live && p.c.chan == [Answer(21, true)]
  }

  /** A connection hands over once, when it becomes old; a successor starts with just that state. */
  ghost predicate Linked(s: Sys, x: nat)
    requires x < |s.peers|
  {
    var saves := s.peers[x].c.r.saves;
    && (RoleOf(s, x) != Old ==> saves == [])
    && (RoleOf(s, x) == Old ==> |saves| == 1)
    && (RoleOf(s, x) == Old && x + 1 < |s.peers| ==>
          var next := s.peers[x + 1];
          && (RoleOf(s, x + 1) == Coming ==> s.wire == Some(saves[0].state))
          && (RoleOf(s, x + 1) != Coming ==>
                if next.live then next.start == saves[0].state else HeldBy(next) == saves[0].state))
  }

  ghost predicate Inv(rule: AckRule, s: Sys) {
    && Placed(s)
    && (forall x: nat :: x < |s.peers| ==> Plays(RoleOf(s, x), s.peers[x]) && Linked(s, x))
    && Custody(s) == Replay(rule, s.history)
  }

  lemma InitialInv(rule: AckRule)
    ensures Inv(rule, INITIAL)
  {
  }

  // ---- every event keeps it --------------------------------------------------------------

  lemma FeedKeepsInv(rule: AckRule, s: Sys, item: Item)
    requires Inv(rule, s) && s.router.Feeding? && s.router.i < |s.peers|
    requires item.Deliver? || item.Shut?
    ensures Inv(rule, FeedItem(s, item))
  {
    var t := FeedItem(s, item);
    var i := s.router.i;
    assert Plays(RoleOf(s, i), s.peers[i]);
    forall x: nat | x < |t.peers| ensures Plays(RoleOf(t, x), t.peers[x]) && Linked(t, x) {
      assert Plays(RoleOf(s, x), s.peers[x]) && Linked(s, x);
      if x + 1 < |s.peers| {
        assert Plays(RoleOf(s, x + 1), s.peers[x + 1]);
      }
    }
  }

  lemma RecoverKeepsInv(rule: AckRule, order: OpenOrder, s: Sys, body: seq<byte>)
    requires Inv(rule, s) && CanHappen(s, Recover(body))
    ensures Inv(rule, Next(rule, order, s, Recover(body)))
  {
    var t := Next(rule, order, s, Recover(body));
    var i := s.router.i;
    var chan := s.peers[i].c.chan;
    assert Plays(RoleOf(s, i), s.peers[i]);
    assert LeavesAt(chan + [Handover(body)], |chan|);
    forall x: nat | x < |t.peers| ensures Plays(RoleOf(t, x), t.peers[x]) && Linked(t, x) {
      if x < |s.peers| {
        assert Plays(RoleOf(s, x), s.peers[x]) && Linked(s, x);
      }
    }
  }

  lemma ForwardKeepsInv(rule: AckRule, order: OpenOrder, s: Sys)
    requires Inv(rule, s) && CanHappen(s, Forward)
    ensures Inv(rule, Next(rule, order, s, Forward))
  {
    var t := Next(rule, order, s, Forward);
    var j := s.router.to;
    assert Plays(RoleOf(s, j), s.peers[j]);
    forall x: nat | x < |t.peers| ensures Plays(RoleOf(t, x), t.peers[x]) && Linked(t, x) {
      assert Plays(RoleOf(s, x), s.peers[x]) && Linked(s, x);
    }
  }

  lemma JoinKeepsInv(rule: AckRule, order: OpenOrder, s: Sys, x: nat)
    requires Inv(rule, s) && CanHappen(s, Join(x))
    ensures Inv(rule, Next(rule, order, s, Join(x)))
  {
    var t := Next(rule, order, s, Join(x));
    var chan := s.peers[x].c.chan;
    assert Plays(RoleOf(s, x), s.peers[x]) && Linked(s, x);
    assert Joining(chan);
    if RoleOf(s, x) == Leaving {
      var h: nat :| LeavesAt(chan, h);
      assert chan[2..][h - 2 + 1..] == chan[h + 1..];
      assert LeavesAt(chan[2..], h - 2);
    }
    forall y: nat | y < |t.peers| ensures Plays(RoleOf(t, y), t.peers[y]) && Linked(t, y) {
      assert Plays(RoleOf(s, y), s.peers[y]) && Linked(s, y);
      if y + 1 < |s.peers| {
        assert Plays(RoleOf(s, y + 1), s.peers[y + 1]);
      }
    }
  }

  lemma LocalKeepsInv(rule: AckRule, order: OpenOrder, s: Sys, x: nat, step: Step)
    requires Inv(rule, s) && CanHappen(s, Local(x, step))
    ensures Inv(rule, Next(rule, order, s, Local(x, step)))
  {
    var p := s.peers[x];
    assert Plays(RoleOf(s, x), p) && Linked(s, x);
    if !step.Recv? {
      ClientKeepsInv(rule, order, s, x, step);
    } else if p.c.chan[0].Handover? {
      HandoverKeepsInv(rule, order, s, x, step);
    } else {
      ServeKeepsInv(rule, order, s, x, step);
    }
  }

  lemma PutKeepsRole(role: Role, p: Peer, item: Item)
    requires Plays(role, p) && p.live && item.Comm?
    ensures Plays(role, p.(c := Put(p.c, item)))
  {
    var chan := p.c.chan;
    if role == Leaving {
      var h: nat :| LeavesAt(chan, h);
      assert (chan + [item])[h + 1..] == chan[h + 1..] + [item];
      assert LeavesAt(chan + [item], h);
    }
  }

  lemma ClientKeepsInv(rule: AckRule, order: OpenOrder, s: Sys, x: nat, step: Step)
    requires Inv(rule, s) && CanHappen(s, Local(x, step)) && !step.Recv?
    ensures Inv(rule, Next(rule, order, s, Local(x, step)))
  {
    var t := Next(rule, order, s, Local(x, step));
    var p, q := s.peers[x], t.peers[x];
    assert Plays(RoleOf(s, x), p);
    assert q.c.chan == p.c.chan || exists text :: q.c.chan == p.c.chan + [Comm(text)];
    if q.c.chan != p.c.chan {
      var text :| q.c.chan == p.c.chan + [Comm(text)];
      PutKeepsRole(RoleOf(s, x), p, Comm(text));
    }
    OthersKeepInv(rule, s, x, t);
  }

  /** t is s but for the connection x, whose role, start and saves stay. */
  ghost predicate OnlyChanged(s: Sys, x: nat, t: Sys) {
    && x < |s.peers| == |t.peers|
    && t == s.(peers := s.peers[x := t.peers[x]], history := t.history, live := t.live)
    && s.peers[x].live && t.peers[x].live && t.peers[x].start == s.peers[x].start
    && t.peers[x].c.r.saves == s.peers[x].c.r.saves
    && Plays(RoleOf(s, x), t.peers[x])
  }

  lemma OthersKeepLinks(s: Sys, x: nat, t: Sys, y: nat)
    requires OnlyChanged(s, x, t) && y < |s.peers|
    requires Plays(RoleOf(s, y), s.peers[y]) && Linked(s, y)
    ensures Plays(RoleOf(t, y), t.peers[y]) && Linked(t, y)
  {
  }

  /** Enough to show about the one connection that changed. */
  lemma OthersKeepInv(rule: AckRule, s: Sys, x: nat, t: Sys)
    requires Inv(rule, s) && OnlyChanged(s, x, t)
    ensures Placed(t)
    ensures Custody(t) == Replay(rule, t.history) ==> Inv(rule, t)
    ensures !Owns(s, x) ==> Custody(t) == Custody(s)
    ensures Owns(s, x) ==> Custody(t) == Blob(t.peers[x].c.r.ts, t.peers[x].c.r.queue)
  {
    forall y: nat | y < |t.peers| ensures Plays(RoleOf(t, y), t.peers[y]) && Linked(t, y) {
      assert Plays(RoleOf(s, y), s.peers[y]) && Linked(s, y);
      OthersKeepLinks(s, x, t, y);
    }
  }

  lemma ServedChan(role: Role, p: Peer, c: Conn)
    requires Plays(role, p) && p.live && p.c.chan != [] && !p.c.chan[0].Handover?
    requires c.chan == p.c.chan[1..]
    ensures Plays(role, p.(c := c))
  {
    if role == Leaving {
      var h: nat :| LeavesAt(p.c.chan, h);
      assert p.c.chan[1..][h - 1 + 1..] == p.c.chan[h + 1..];
      assert LeavesAt(c.chan, h - 1);
    }
  }

  /** What one item other than op 30 does to the queue is what its history entry says. */
  lemma ServeApplies(rule: AckRule, c: Conn, choice: Choice)
    requires c.chan != [] && !c.chan[0].Handover? && Legal(c.r, c.chan[0], choice)
    ensures var r := Receive(rule, c.r, c.chan[0], c.gate, choice);
            var g := Gained(c);
            && |g| <= 1
            && Blob(r.ts, r.queue) == (if g == [] then Blob(c.r.ts, c.r.queue)
                                       else Apply(rule, Blob(c.r.ts, c.r.queue), g[0]))
            && r.saves == c.r.saves
  {
  }

  lemma ServeKeepsInv(rule: AckRule, order: OpenOrder, s: Sys, x: nat, step: Step)
    requires Inv(rule, s) && CanHappen(s, Local(x, step)) && step.Recv?
    requires !s.peers[x].c.chan[0].Handover?
    ensures Inv(rule, Next(rule, order, s, Local(x, step)))
  {
    var t := Next(rule, order, s, Local(x, step));
    var p, q := s.peers[x], t.peers[x];
    assert Plays(RoleOf(s, x), p);
    ServeApplies(rule, p.c, step.c);
    ServedChan(RoleOf(s, x), p, q.c);
    OthersKeepInv(rule, s, x, t);
    if Owns(s, x) {
      var g := Gained(p.c);
      if g == [] {
        assert t.history == s.history;
      } else {
        assert t.history == s.history + [g[0]];
        ReplaySnoc(rule, s.history, g[0]);
      }
    }
  }

  lemma HandoverKeepsInv(rule: AckRule, order: OpenOrder, s: Sys, x: nat, step: Step)
    requires Inv(rule, s) && CanHappen(s, Local(x, step)) && step.Recv?
    requires s.peers[x].c.chan[0].Handover?
    ensures Inv(rule, Next(rule, order, s, Local(x, step)))
  {
    var t := Next(rule, order, s, Local(x, step));
    var p := s.peers[x];
    assert Plays(RoleOf(s, x), p) && Linked(s, x);
    var h: nat :| LeavesAt(p.c.chan, h);
    assert h == 0 && p.c.chan[h + 1..] == p.c.chan[1..];
    assert t.history == s.history;
    forall y: nat | y < |t.peers| ensures Plays(RoleOf(t, y), t.peers[y]) && Linked(t, y) {
      assert Plays(RoleOf(s, y), s.peers[y]) && Linked(s, y);
    }
  }

  lemma StepKeepsInv(rule: AckRule, order: OpenOrder, s: Sys, e: Event)
    requires Inv(rule, s) && CanHappen(s, e)
    ensures Inv(rule, Next(rule, order, s, e))
  {
    match e
    case Payload(m) => FeedKeepsInv(rule, s, Deliver(m));
    case Dismiss => FeedKeepsInv(rule, s, Shut);
    case Recover(body) => RecoverKeepsInv(rule, order, s, body);
    case Forward => ForwardKeepsInv(rule, order, s);
    case Join(x) => JoinKeepsInv(rule, order, s, x);
    case Local(x, step) => LocalKeepsInv(rule, order, s, x, step);
  }

  lemma {:induction false} RunKeepsInv(rule: AckRule, order: OpenOrder, s: Sys, events: seq<Event>, t: Sys)
    requires Inv(rule, s) && Reaches(rule, order, s, events, t)
    ensures Inv(rule, t)
    decreases |events|
  {
    if events != [] {
      StepKeepsInv(rule, order, s, events[0]);
      RunKeepsInv(rule, order, Next(rule, order, s, events[0]), events[1..], t);
    }
  }

  // ---- what it means ---------------------------------------------------------------------

  /**
   Over any chain of recoveries the session's state is in one place, and it is what a queue that
   never moved would hold. A connection serialises its state at most once, when it stops being
   the owner; its successor, once live, started with exactly that state; and no connection being
   recovered can take an error path of connect_user.
   */
  lemma HandoverConserves(rule: AckRule, order: OpenOrder, events: seq<Event>, t: Sys)
    requires Reaches(rule, order, INITIAL, events, t)
    ensures Placed(t) && Custody(t) == Replay(rule, t.history)
    ensures forall x: nat :: x + 1 < |t.peers| && t.peers[x + 1].live ==>
              && |t.peers[x].c.r.saves| == 1
              && t.peers[x + 1].start == t.peers[x].c.r.saves[0].state
    ensures forall x: nat :: x < |t.peers| && !t.peers[x].live ==> Connect(true, t.peers[x].c.chan) != Failed
  {
    InitialInv(rule);
    RunKeepsInv(rule, order, INITIAL, events, t);
    forall x: nat | x < |t.peers| ensures Plays(RoleOf(t, x), t.peers[x]) && Linked(t, x) {}
    forall x: nat | x + 1 < |t.peers| && t.peers[x + 1].live
      ensures && |t.peers[x].c.r.saves| == 1
              && t.peers[x + 1].start == t.peers[x].c.r.saves[0].state
    {
      assert Plays(RoleOf(t, x), t.peers[x]) && Linked(t, x);
      assert Plays(RoleOf(t, x + 1), t.peers[x + 1]);
    }
  }

  /** Entry p is the latest acceptance of m's key, and no later acknowledgement deletes that key. */
  ghost predicate StillOwed(rule: AckRule, history: seq<Happened>, p: nat, m: Message) {
    && p < |history| && history[p].Accepted? && history[p].m == m
    && forall q :: p < q < |history| ==>
         if history[q].Accepted? then Key(history[q].m) != Key(m)
         else AckedKey(rule, history[q].text) != Key(m)
  }

  /** b holds exactly the messages still owed, each under its key, and bounds what was accepted. */
  ghost predicate Faithful(rule: AckRule, history: seq<Happened>, b: Blob) {
    && (forall k :: k in b.queue ==>
          && Key(b.queue[k]) == k
          && b.queue[k].ts <= b.ts
          && exists p: nat :: StillOwed(rule, history, p, b.queue[k]))
    && (forall p: nat, m: Message :: StillOwed(rule, history, p, m) ==>
          Key(m) in b.queue && b.queue[Key(m)] == m)
    && (forall p :: 0 <= p < |history| && history[p].Accepted? ==> history[p].m.ts <= b.ts)
  }

  lemma {:induction false} ReplayExact(rule: AckRule, history: seq<Happened>)
    ensures Faithful(rule, history, Replay(rule, history))
  {
    if history != [] {
      var n := |history| - 1;
      var before, h := history[..n], history[n];
      assert history == before + [h];
      ReplayExact(rule, before);
      var b := Replay(rule, before);
      ApplyIsOwed(rule, before, b, h);
      OwedIsApplied(rule, before, b, h);
    }
  }

  lemma OwedLater(rule: AckRule, before: seq<Happened>, h: Happened, p: nat, m: Message)
    requires p < |before|
    ensures StillOwed(rule, before + [h], p, m)
            <==> StillOwed(rule, before, p, m)
                 && (if h.Accepted? then Key(h.m) != Key(m) else AckedKey(rule, h.text) != Key(m))
  {
    var l := before + [h];
    assert forall q :: 0 <= q < |before| ==> l[q] == before[q];
    assert l[|before|] == h;
  }

  lemma ApplyIsOwed(rule: AckRule, before: seq<Happened>, b: Blob, h: Happened)
    requires Faithful(rule, before, b)
    ensures var c := Apply(rule, b, h);
            forall k :: k in c.queue ==>
              && Key(c.queue[k]) == k
              && c.queue[k].ts <= c.ts
              && exists p: nat :: StillOwed(rule, before + [h], p, c.queue[k])
  {
    var c := Apply(rule, b, h);
    forall k | k in c.queue
      ensures Key(c.queue[k]) == k && c.queue[k].ts <= c.ts
      ensures exists p: nat :: StillOwed(rule, before + [h], p, c.queue[k])
    {
      if h.Accepted? && k == Key(h.m) {
        assert StillOwed(rule, before + [h], |before|, h.m);
      } else {
        var p: nat :| StillOwed(rule, before, p, b.queue[k]);
        OwedLater(rule, before, h, p, b.queue[k]);
      }
    }
  }

  lemma OwedIsApplied(rule: AckRule, before: seq<Happened>, b: Blob, h: Happened)
    requires Faithful(rule, before, b)
    ensures var c := Apply(rule, b, h);
            forall p: nat, m: Message :: StillOwed(rule, before + [h], p, m) ==>
              Key(m) in c.queue && c.queue[Key(m)] == m
  {
    var c := Apply(rule, b, h);
    forall p: nat, m: Message | StillOwed(rule, before + [h], p, m)
      ensures Key(m) in c.queue && c.queue[Key(m)] == m
    {
      if p < |before| {
        OwedLater(rule, before, h, p, m);
      }
    }
  }

  /** A message accepted anywhere along the chain and still owed is in the session's one queue, and vice versa. */
  lemma NothingIsLost(rule: AckRule, order: OpenOrder, events: seq<Event>, t: Sys, m: Message)
    requires Reaches(rule, order, INITIAL, events, t)
    ensures Placed(t)
    ensures (Key(m) in Custody(t).queue && Custody(t).queue[Key(m)] == m)
            <==> exists p: nat :: StillOwed(rule, t.history, p, m)
  {
    HandoverConserves(rule, order, events, t);
    ReplayExact(rule, t.history);
  }

  /** As written, acknowledgements delete nothing: every message ever accepted stays, by key. */
  lemma AsWrittenKeepsAll(order: OpenOrder, events: seq<Event>, t: Sys, p: nat)
    requires Reaches(AsWritten, order, INITIAL, events, t)
    requires p < |t.history| && t.history[p].Accepted?
    ensures Placed(t) && Key(t.history[p].m) in Custody(t).queue
  {
    HandoverConserves(AsWritten, order, events, t);
    ReplayKeepsAll(t.history, p);
  }

  lemma {:induction false} ReplayKeepsAll(history: seq<Happened>, p: nat)
    requires p < |history| && history[p].Accepted?
    ensures Key(history[p].m) in Replay(AsWritten, history).queue
  {
    var n := |history| - 1;
    KeyIsNotEmpty(history[p].m);
    if p < n {
      ReplayKeepsAll(history[..n], p);
    }
  }

  // ---- order of live writes --------------------------------------------------------------

  /** Live writes strictly ascend; what is accepted fresh is newer than all accepted before it. */
  ghost predicate InOrder(s: Sys) {
    && (forall a, b :: 0 <= a < b < |s.live| ==> s.live[a].ts < s.live[b].ts)
    && (forall p, q :: 0 <= p < q < |s.history| && s.history[p].Accepted? && IsFresh(s.history[q]) ==>
          s.history[p].m.ts < s.history[q].m.ts)
    && (forall a :: 0 <= a < |s.live| ==> Accepted(s.live[a], true) in s.history)
  }

  predicate IsFresh(h: Happened) {
    h.Accepted? && h.gate && !h.m.atomic
  }

  lemma StepKeepsOrder(rule: AckRule, order: OpenOrder, s: Sys, e: Event)
    requires Inv(rule, s) && InOrder(s) && CanHappen(s, e)
    ensures InOrder(Next(rule, order, s, e))
  {
    var t := Next(rule, order, s, e);
    if e.Local? && e.step.Recv? && s.peers[e.x].c.chan[0].Deliver? {
      var c := s.peers[e.x].c;
      assert Plays(RoleOf(s, e.x), s.peers[e.x]);
      assert Owns(s, e.x);
      ReplayExact(rule, s.history);
      if !Stale(c.r, c.chan[0].m, c.gate) {
        AcceptKeepsOrder(rule, s, t, c.chan[0].m, c.gate);
      } else {
        assert t.history == s.history && t.live == s.live;
      }
    } else {
      RestKeepsOrder(rule, order, s, e);
    }
  }

  lemma RestKeepsOrder(rule: AckRule, order: OpenOrder, s: Sys, e: Event)
    requires InOrder(s) && CanHappen(s, e)
    requires e.Local? && e.step.Recv? ==> !s.peers[e.x].c.chan[0].Deliver?
    ensures InOrder(Next(rule, order, s, e))
  {
    var t := Next(rule, order, s, e);
    if e.Local? && e.step.Recv? {
      var c := s.peers[e.x].c;
      QuietItem(c.r, c.chan[0], c.gate, e.step.c);
      assert t.live == s.live;
      assert forall h :: h in Gained(c) ==> h.Acked?;
      assert forall q :: |s.history| <= q < |t.history| ==> t.history[q] in Gained(c);
    }
  }

  lemma AcceptKeepsOrder(rule: AckRule, s: Sys, t: Sys, m: Message, gate: bool)
    requires InOrder(s)
    requires t.history == s.history + [Accepted(m, gate)]
    requires t.live == s.live || (t.live == s.live + [m] && gate && !m.atomic)
    requires forall p :: 0 <= p < |s.history| && s.history[p].Accepted? ==>
               s.history[p].m.ts <= Replay(rule, s.history).ts
    requires gate && !m.atomic ==> Replay(rule, s.history).ts < m.ts
    ensures InOrder(t)
  {
    assert forall q :: 0 <= q < |s.history| ==> t.history[q] == s.history[q];
    assert t.history[|s.history|] == Accepted(m, gate);
    forall a | 0 <= a < |s.live| ensures s.live[a].ts <= Replay(rule, s.history).ts {
      var p :| 0 <= p < |s.history| && s.history[p] == Accepted(s.live[a], true);
    }
  }

  lemma {:induction false} RunKeepsOrder(rule: AckRule, order: OpenOrder, s: Sys, events: seq<Event>, t: Sys)
    requires Inv(rule, s) && InOrder(s) && Reaches(rule, order, s, events, t)
    ensures InOrder(t)
    decreases |events|
  {
    if events != [] {
      StepKeepsInv(rule, order, s, events[0]);
      StepKeepsOrder(rule, order, s, events[0]);
      RunKeepsOrder(rule, order, Next(rule, order, s, events[0]), events[1..], t);
    }
  }

  /**
   Across all handovers: the messages, not atomic, that clients get as they arrive have strictly
   increasing timestamps, and each was newer than everything the session had accepted before.
   */
  lemma LiveWritesAscend(rule: AckRule, order: OpenOrder, events: seq<Event>, t: Sys)
    requires Reaches(rule, order, INITIAL, events, t)
    ensures InOrder(t)
  {
    InitialInv(rule);
    RunKeepsOrder(rule, order, INITIAL, events, t);
  }

  /** Wherever the state is, its last_timestamp never goes back. */
  lemma ClockNeverGoesBack(rule: AckRule, order: OpenOrder, s: Sys, e: Event)
    requires Inv(rule, s) && CanHappen(s, e)
    ensures Inv(rule, Next(rule, order, s, e))
    ensures Custody(s).ts <= Custody(Next(rule, order, s, e)).ts
  {
    StepKeepsInv(rule, order, s, e);
    var t := Next(rule, order, s, e);
    if t.history != s.history {
      var g := Gained(s.peers[e.x].c);
      assert t.history == s.history + [g[0]];
      ReplaySnoc(rule, s.history, g[0]);
    }
  }

  // ---- the gate laws hold on every connection of the chain -------------------------------

  ghost predicate GatesInv(s: Sys) {
    forall x: nat :: x < |s.peers| && s.peers[x].live ==>
      BaseInv(s.peers[x].c) && (!s.peers[x].c.r.done ==> CodeInv(s.peers[x].c) && HandedInv(s.peers[x].c))
  }

  lemma JoinStartsGate(rule: AckRule, s: Sys, x: nat)
    requires Inv(rule, s) && CanHappen(s, Join(x))
    ensures Started(Next(rule, FlushThenStore, s, Join(x)).peers[x].c)
  {
    assert Plays(RoleOf(s, x), s.peers[x]);
    assert Custody(s) == HeldBy(s.peers[x]);
    ReplayExact(rule, s.history);
  }

  lemma RouterPutKeepsGate(rule: AckRule, c: Conn, item: Item)
    requires BaseInv(c) && (!c.r.done ==> CodeInv(c) && HandedInv(c)) && !item.Comm?
    ensures BaseInv(Put(c, item)) && (!c.r.done ==> CodeInv(Put(c, item)) && HandedInv(Put(c, item)))
  {
    StepKeepsBase(rule, FlushThenStore, c, RouterPut(item));
    if !c.r.done {
      StepKeepsCodeInv(rule, c, RouterPut(item));
      StepKeepsHanded(rule, c, RouterPut(item));
    }
  }

  lemma StepKeepsGates(rule: AckRule, s: Sys, e: Event)
    requires Inv(rule, s) && GatesInv(s) && CanHappen(s, e)
    ensures GatesInv(Next(rule, FlushThenStore, s, e))
  {
    match e
    case Payload(m) =>
      if s.peers[s.router.i].live {
        RouterPutKeepsGate(rule, s.peers[s.router.i].c, Deliver(m));
      }
    case Dismiss =>
      if s.peers[s.router.i].live {
        RouterPutKeepsGate(rule, s.peers[s.router.i].c, Shut);
      }
    case Recover(body) =>
      if s.peers[s.router.i].live {
        RouterPutKeepsGate(rule, s.peers[s.router.i].c, Handover(body));
      }
    case Forward =>
      assert Plays(RoleOf(s, s.router.to), s.peers[s.router.to]);
    case Join(x) =>
      JoinStartsGate(rule, s, x);
      StartedInvs(Next(rule, FlushThenStore, s, e).peers[x].c);
    case Local(x, step) =>
      var c := s.peers[x].c;
      StepKeepsBase(rule, FlushThenStore, c, step);
      if c.r.done {
        DoneStays(rule, FlushThenStore, c, step);
      } else if !Do(rule, FlushThenStore, c, step).r.done {
        StepKeepsCodeInv(rule, c, step);
        StepKeepsHanded(rule, c, step);
      }
  }

  lemma {:induction false} RunKeepsGates(rule: AckRule, s: Sys, events: seq<Event>, t: Sys)
    requires Inv(rule, s) && GatesInv(s) && Reaches(rule, FlushThenStore, s, events, t)
    ensures GatesInv(t)
    decreases |events|
  {
    if events != [] {
      StepKeepsInv(rule, FlushThenStore, s, events[0]);
      StepKeepsGates(rule, s, events[0]);
      RunKeepsGates(rule, Next(rule, FlushThenStore, s, events[0]), events[1..], t);
    }
  }

  lemma GatesOverRuns(rule: AckRule, events: seq<Event>, t: Sys, x: nat)
    requires Reaches(rule, FlushThenStore, INITIAL, events, t)
    requires x < |t.peers| && t.peers[x].live && !t.peers[x].c.r.done
    ensures BaseInv(t.peers[x].c) && CodeInv(t.peers[x].c) && HandedInv(t.peers[x].c)
  {
    InitialInv(rule);
    StartedInvs(INITIAL.peers[0].c);
    RunKeepsGates(rule, INITIAL, events, t);
  }

  /** On any connection of any chain, a message accepted there and still unwritten is as in Gate. */
  lemma WaitingAlongTheChain(rule: AckRule, events: seq<Event>, t: Sys, x: nat, i: nat, k: string)
    requires Reaches(rule, FlushThenStore, INITIAL, events, t)
    requires x < |t.peers| && t.peers[x].live && !t.peers[x].c.r.done
    requires k in t.peers[x].c.r.queue && Unwritten(t.peers[x].c.r.log, i, k)
    ensures var c := t.peers[x].c;
            && !c.r.log[i].gate
            && (forall j :: i < j < |c.r.log| ==> c.r.log[j] != FlushDone)
            && (c.gate && FLUSH !in c.chan ==> InWindow(c.r.log, i))
  {
    GatesOverRuns(rule, events, t, x);
    assert SinceFlush(t.peers[x].c.r.log, i);
  }

  /**
   And one handed over from a predecessor, with no acceptance on this connection: it has been
   written here exactly when a FLUSH was served here, as it was if the gate is open and no FLUSH
   is on its way.
   */
  lemma HandedOverAlongTheChain(rule: AckRule, events: seq<Event>, t: Sys, x: nat, k: string)
    requires Reaches(rule, FlushThenStore, INITIAL, events, t)
    requires x < |t.peers| && t.peers[x].live && !t.peers[x].c.r.done && k in t.peers[x].c.r.queue
    requires forall j :: 0 <= j < |t.peers[x].c.r.log| ==> !QueuesKey(t.peers[x].c.r.log[j], k)
    ensures var c := t.peers[x].c;
            && ((exists j :: 0 <= j < |c.r.log| && WritesKey(c.r.log[j], k)) <==> FlushDone in c.r.log)
            && (c.gate && FLUSH !in c.chan ==> FlushDone in c.r.log)
  {
    GatesOverRuns(rule, events, t, x);
    HandedOverExactly(t.peers[x].c, k);
  }
}
