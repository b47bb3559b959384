/**
 A session over a chain of reconnections, seen from outside: every payload the router sent is on
 exactly one connection, in the order sent, and a recovery goes on until it is complete.
 */
module SessionLaws {
  import opened Bytes
  import opened Messages
  import opened Receiver
  import opened ReceiverLaws
  import opened ReceiverEnds
  import opened Gate
  import opened Session

  // ---- payloads flow through the chain in order ------------------------------------------

  function PayloadOf(e: Event): seq<Message> {
    if e.Payload? then [e.m] else []
  }

  /** The payloads sent by the router, in order. */
  function Payloads(events: seq<Event>): seq<Message> {
    if events == [] then []
    else PayloadOf(events[0]) + Payloads(events[1..])
  }

  function PayloadIn(item: Item): seq<Message> {
    if item.Deliver? then [item.m] else []
  }

  /** The payloads waiting on a channel. */
  function Waiting(chan: seq<Item>): seq<Message> {
    if chan == [] then [] else PayloadIn(chan[0]) + Waiting(chan[1..])
  }

  /** The payloads a log accounts for. */
  function Settled(log: seq<Entry>): seq<Message> {
    if log == [] then []
    else Settled(log[..|log| - 1]) + if Accounts(log[|log| - 1]) then [log[|log| - 1].m] else []
  }

  /** The payloads of one connection: those it has settled, and those it will. */
  function FlowOf(p: Peer): seq<Message> {
    Settled(p.c.r.log) + Waiting(p.c.chan)
  }

  function Flow(peers: seq<Peer>): seq<Message> {
    if peers == [] then [] else Flow(peers[..|peers| - 1]) + FlowOf(peers[|peers| - 1])
  }

  lemma Associate(a: seq<Message>, b: seq<Message>, c: seq<Message>)
    ensures (a + b) + c == a + (b + c)
  {
  }

  lemma {:induction false} WaitingConcat(a: seq<Item>, b: seq<Item>)
    ensures Waiting(a + b) == Waiting(a) + Waiting(b)
  {
    if a == [] {
      assert a + b == b;
    } else {
      assert (a + b)[1..] == a[1..] + b;
      WaitingConcat(a[1..], b);
      Associate(PayloadIn(a[0]), Waiting(a[1..]), Waiting(b));
    }
  }

  lemma WaitingOne(item: Item)
    ensures Waiting([item]) == PayloadIn(item)
  {
    assert [item][1..] == [];
  }

  lemma {:induction false} SettledConcat(a: seq<Entry>, b: seq<Entry>)
    ensures Settled(a + b) == Settled(a) + Settled(b)
  {
    if b == [] {
      assert a + b == a;
    } else {
      assert (a + b)[..|a + b| - 1] == a + b[..|b| - 1];
      SettledConcat(a, b[..|b| - 1]);
    }
  }

  lemma {:induction false} SettledNone(log: seq<Entry>)
    requires forall i :: 0 <= i < |log| ==> !Accounts(log[i])
    ensures Settled(log) == []
  {
    if log != [] {
      SettledNone(log[..|log| - 1]);
    }
  }

  lemma {:induction false} SettlesFirst(added: seq<Entry>)
    requires added != [] && Accounts(added[0])
    requires forall i :: 1 <= i < |added| ==> !Accounts(added[i])
    ensures Settled(added) == [added[0].m]
  {
    var n := |added| - 1;
    if n == 0 {
      assert added[..0] == [];
    } else {
      SettlesFirst(added[..n]);
    }
  }

  /** Receiving an item settles it if it is a payload. */
  lemma AddedSettles(s: State, item: Item, gate: bool, c: Choice)
    requires Legal(s, item, c)
    ensures Settled(Added(s, item, gate, c)) == PayloadIn(item)
  {
    if item.Deliver? {
      SettlesFirst(DeliverAdded(s, item.m, gate, c.ok));
    } else {
      NoneSettles(s, item, gate, c);
      SettledNone(Added(s, item, gate, c));
    }
  }

  lemma NoneSettles(s: State, item: Item, gate: bool, c: Choice)
    requires Legal(s, item, c) && !item.Deliver?
    ensures forall i :: 0 <= i < |Added(s, item, gate, c)| ==> !Accounts(Added(s, item, gate, c)[i])
  {
  }

  lemma RecvKeepsFlow(rule: AckRule, c: Conn, choice: Choice)
    requires c.chan != [] && Legal(c.r, c.chan[0], choice)
    ensures var r := Receive(rule, c.r, c.chan[0], c.gate, choice);
            Settled(r.log) + Waiting(c.chan[1..]) == Settled(c.r.log) + Waiting(c.chan)
  {
    var item := c.chan[0];
    var added := Added(c.r, item, c.gate, choice);
    LogGrowsBy(rule, c.r, item, c.gate, choice);
    SettledConcat(c.r.log, added);
    AddedSettles(c.r, item, c.gate, choice);
    Associate(Settled(c.r.log), PayloadIn(item), Waiting(c.chan[1..]));
  }

  lemma PutKeepsWaiting(chan: seq<Item>, item: Item)
    requires !item.Deliver?
    ensures Waiting(chan + [item]) == Waiting(chan)
  {
    WaitingConcat(chan, [item]);
    WaitingOne(item);
    assert Waiting(chan) + [] == Waiting(chan);
  }

  /** A step of a connection changes what it has settled and what waits there, not the two together. */
  lemma StepKeepsFlow(rule: AckRule, order: OpenOrder, p: Peer, step: Step)
    requires Enabled(p.c, step) && !step.RouterPut?
    ensures FlowOf(p.(c := Do(rule, order, p.c, step))) == FlowOf(p)
  {
    if step.Recv? {
      RecvKeepsFlow(rule, p.c, step.c);
    } else {
      StoreSettles(p.c.r.log, true);
      StoreSettles(p.c.r.log, false);
      if step.ClientAck? {
        PutKeepsWaiting(p.c.chan, Comm(AckText(step.sig, step.ts)));
      }
      PutKeepsWaiting(p.c.chan, SET_TIMER);
      PutKeepsWaiting(p.c.chan, FLUSH);
    }
  }

  lemma StoreSettles(log: seq<Entry>, open: bool)
    ensures Settled(log + [GateStored(open)]) == Settled(log)
  {
    assert (log + [GateStored(open)])[..|log|] == log;
  }

  lemma {:induction false} FlowUpdate(peers: seq<Peer>, x: nat, p: Peer)
    requires x < |peers| && FlowOf(p) == FlowOf(peers[x])
    ensures Flow(peers[x := p]) == Flow(peers)
  {
    var n := |peers| - 1;
    if x < n {
      assert peers[x := p][..n] == peers[..n][x := p];
      FlowUpdate(peers[..n], x, p);
    } else {
      assert peers[x := p][..n] == peers[..n];
    }
  }

  lemma FlowSnoc(peers: seq<Peer>, p: Peer)
    ensures Flow(peers + [p]) == Flow(peers) + FlowOf(p)
  {
    assert (peers + [p])[..|peers|] == peers;
  }

  /** The last connection gets an item. */
  lemma FlowAtLast(peers: seq<Peer>, item: Item)
    requires peers != []
    ensures var n := |peers| - 1;
            Flow(peers[n := peers[n].(c := Put(peers[n].c, item))])
            == Flow(peers) + PayloadIn(item)
  {
    var n := |peers| - 1;
    var p := peers[n];
    var q := p.(c := Put(p.c, item));
    assert peers[n := q][..n] == peers[..n];
    WaitingConcat(p.c.chan, [item]);
    WaitingOne(item);
    Associate(Settled(p.c.r.log), Waiting(p.c.chan), PayloadIn(item));
    Associate(Flow(peers[..n]), FlowOf(p), PayloadIn(item));
  }

  /** What is not yet live has settled nothing. */
  ghost predicate FreshInv(s: Sys) {
    forall x: nat :: x < |s.peers| && !s.peers[x].live ==> s.peers[x].c.r.log == []
  }

  lemma StepKeepsFresh(rule: AckRule, order: OpenOrder, s: Sys, e: Event)
    requires FreshInv(s) && CanHappen(s, e)
    ensures FreshInv(Next(rule, order, s, e))
  {
  }

  lemma FeedFlows(s: Sys, item: Item)
    requires Placed(s) && s.router.Feeding?
    ensures Flow(FeedItem(s, item).peers) == Flow(s.peers) + PayloadIn(item)
  {
    FlowAtLast(s.peers, item);
  }

  lemma ForwardFlows(rule: AckRule, order: OpenOrder, s: Sys)
    requires Placed(s) && CanHappen(s, Forward)
    ensures Flow(Next(rule, order, s, Forward).peers) == Flow(s.peers)
  {
    FlowAtLast(s.peers, Prev(true, s.wire.value));
  }

  lemma LocalFlows(rule: AckRule, order: OpenOrder, s: Sys, x: nat, step: Step)
    requires CanHappen(s, Local(x, step))
    ensures Flow(Next(rule, order, s, Local(x, step)).peers) == Flow(s.peers)
  {
    StepKeepsFlow(rule, order, s.peers[x], step);
    FlowUpdate(s.peers, x, s.peers[x].(c := Do(rule, order, s.peers[x].c, step)));
  }

  /** One event adds to the flow exactly the payload it sends, at its end. */
  lemma StepFlows(rule: AckRule, order: OpenOrder, s: Sys, e: Event)
    requires Inv(rule, s) && FreshInv(s) && CanHappen(s, e)
    ensures Flow(Next(rule, order, s, e).peers) == Flow(s.peers) + PayloadOf(e)
  {
    match e
    case Payload(m) => FeedFlows(s, Deliver(m));
    case Dismiss => FeedFlows(s, Shut);
    case Recover(body) => RecoverFlows(rule, order, s, body);
    case Forward => ForwardFlows(rule, order, s);
    case Join(x) => JoinFlows(rule, order, s, x);
    case Local(x, step) => LocalFlows(rule, order, s, x, step);
  }

  const JOINING: Peer := Peer(StartConn(EMPTY, [Answer(21, true)]), false, EMPTY)

  lemma NothingJoins(peers: seq<Peer>)
    ensures Flow(peers + [JOINING]) == Flow(peers)
  {
    FlowSnoc(peers, JOINING);
    WaitingOne(Answer(21, true));
    assert FlowOf(JOINING) == [];
  }

  lemma RecoverFlows(rule: AckRule, order: OpenOrder, s: Sys, body: seq<byte>)
    requires Inv(rule, s) && CanHappen(s, Recover(body))
    ensures Flow(Next(rule, order, s, Recover(body)).peers) == Flow(s.peers)
  {
    FlowAtLast(s.peers, Handover(body));
    NothingJoins(s.peers[s.router.i := s.peers[s.router.i].(c := Put(s.peers[s.router.i].c, Handover(body)))]);
  }

  lemma JoinFlows(rule: AckRule, order: OpenOrder, s: Sys, x: nat)
    requires Inv(rule, s) && FreshInv(s) && CanHappen(s, Join(x))
    ensures Flow(Next(rule, order, s, Join(x)).peers) == Flow(s.peers)
  {
    var chan := s.peers[x].c.chan;
    assert Plays(RoleOf(s, x), s.peers[x]);
    assert Joining(chan);
    assert chan == chan[..2] + chan[2..];
    assert chan[..2] == [chan[0]] + [chan[1]];
    WaitingOne(chan[0]);
    WaitingOne(chan[1]);
    WaitingConcat([chan[0]], [chan[1]]);
    WaitingConcat(chan[..2], chan[2..]);
    var j := Connect(true, chan);
    FlowUpdate(s.peers, x, Peer(StartConn(j.state, j.rest), true, j.state));
  }

  lemma {:induction false} RunFlows(rule: AckRule, order: OpenOrder, s: Sys, events: seq<Event>, t: Sys)
    requires Inv(rule, s) && FreshInv(s) && Reaches(rule, order, s, events, t)
    ensures Flow(t.peers) == Flow(s.peers) + Payloads(events)
    decreases |events|
  {
    if events != [] {
      var next := Next(rule, order, s, events[0]);
      StepKeepsInv(rule, order, s, events[0]);
      StepKeepsFresh(rule, order, s, events[0]);
      StepFlows(rule, order, s, events[0]);
      RunFlows(rule, order, next, events[1..], t);
      Associate(Flow(s.peers), PayloadOf(events[0]), Payloads(events[1..]));
    }
  }

  /**
   Over any chain of recoveries, every payload the router sent is on exactly one connection: read
   along the chain, what each connection has settled and what still waits there is exactly what was
   sent, once each and in order. No handover loses, doubles or overtakes a payload.
   */
  lemma PayloadsFlowInOrder(rule: AckRule, order: OpenOrder, events: seq<Event>, t: Sys)
    requires Reaches(rule, order, INITIAL, events, t)
    ensures Flow(t.peers) == Payloads(events)
  {
    InitialInv(rule);
    RunFlows(rule, order, INITIAL, events, t);
    assert INITIAL.peers[..0] == [];
    assert Flow(INITIAL.peers) == [];
  }

  // ---- what clients got as it arrived ----------------------------------------------------

  /** The messages, not atomic, that a log says were written as they arrived. */
  function LivesIn(log: seq<Entry>): multiset<Message> {
    if log == [] then multiset{}
    else LivesIn(log[..|log| - 1]) + if IsLive(log[|log| - 1]) then multiset{log[|log| - 1].m} else multiset{}
  }

  predicate IsLive(e: Entry) {
    e.Live? && !e.m.atomic
  }

  function AllLives(peers: seq<Peer>): multiset<Message> {
    if peers == [] then multiset{} else AllLives(peers[..|peers| - 1]) + LivesIn(peers[|peers| - 1].c.r.log)
  }

  lemma {:induction false} LivesConcat(a: seq<Entry>, b: seq<Entry>)
    ensures LivesIn(a + b) == LivesIn(a) + LivesIn(b)
  {
    if b == [] {
      assert a + b == a;
    } else {
      assert (a + b)[..|a + b| - 1] == a + b[..|b| - 1];
      LivesConcat(a, b[..|b| - 1]);
    }
  }

  lemma {:induction false} LivesNone(log: seq<Entry>)
    requires forall i :: 0 <= i < |log| ==> !IsLive(log[i])
    ensures LivesIn(log) == multiset{}
  {
    if log != [] {
      LivesNone(log[..|log| - 1]);
    }
  }

  lemma {:induction false} LivesUpdate(peers: seq<Peer>, x: nat, p: Peer, gained: multiset<Message>)
    requires x < |peers| && LivesIn(p.c.r.log) == LivesIn(peers[x].c.r.log) + gained
    ensures AllLives(peers[x := p]) == AllLives(peers) + gained
  {
    var n := |peers| - 1;
    if x < n {
      assert peers[x := p][..n] == peers[..n][x := p];
      LivesUpdate(peers[..n], x, p, gained);
      SumSwap(AllLives(peers[..n]), gained, LivesIn(peers[n].c.r.log));
    } else {
      assert peers[x := p][..n] == peers[..n];
      SumAssociate(AllLives(peers[..n]), LivesIn(peers[n].c.r.log), gained);
    }
  }

  lemma SumSwap(a: multiset<Message>, b: multiset<Message>, c: multiset<Message>)
    ensures (a + b) + c == (a + c) + b
  {
  }

  lemma SumAssociate(a: multiset<Message>, b: multiset<Message>, c: multiset<Message>)
    ensures a + (b + c) == (a + b) + c
  {
  }

  lemma LivesSnoc(peers: seq<Peer>, p: Peer)
    ensures AllLives(peers + [p]) == AllLives(peers) + LivesIn(p.c.r.log)
  {
    assert (peers + [p])[..|peers|] == peers;
  }

  lemma LivesOne(e: Entry)
    ensures LivesIn([e]) == if IsLive(e) then multiset{e.m} else multiset{}
  {
    assert [e][..0] == [];
  }

  /** What is recorded as written live is what the item adds to the log as such. */
  lemma NewLiveIsLive(s: State, item: Item, gate: bool, c: Choice)
    requires Legal(s, item, c)
    ensures multiset(NewLive(Added(s, item, gate, c))) == LivesIn(Added(s, item, gate, c))
  {
    var added := Added(s, item, gate, c);
    if item.Deliver? && |added| == 2 {
      assert added == [added[0]] + [added[1]];
      LivesConcat([added[0]], [added[1]]);
      LivesOne(added[0]);
      LivesOne(added[1]);
    } else {
      assert forall i :: 0 <= i < |added| ==> !added[i].Live?;
      LivesNone(added);
    }
  }

  /** What a step of connection p writes live. */
  ghost function Gain(c: Conn, step: Step): seq<Message>
    requires Enabled(c, step)
  {
    if step.Recv? then NewLive(Added(c.r, c.chan[0], c.gate, step.c)) else []
  }

  lemma LocalLives(rule: AckRule, order: OpenOrder, c: Conn, step: Step)
    requires Enabled(c, step)
    ensures LivesIn(Do(rule, order, c, step).r.log) == LivesIn(c.r.log) + multiset(Gain(c, step))
  {
    if step.Recv? {
      var added := Added(c.r, c.chan[0], c.gate, step.c);
      LogGrowsBy(rule, c.r, c.chan[0], c.gate, step.c);
      LivesConcat(c.r.log, added);
      NewLiveIsLive(c.r, c.chan[0], c.gate, step.c);
    } else {
      assert (c.r.log + [GateStored(true)])[..|c.r.log|] == c.r.log;
      assert (c.r.log + [GateStored(false)])[..|c.r.log|] == c.r.log;
    }
  }

  ghost predicate LivesInv(s: Sys) {
    multiset(s.live) == AllLives(s.peers)
  }

  /** A connection is replaced by one with the same log. */
  lemma SameLives(s: Sys, x: nat, t: Sys)
    requires LivesInv(s) && x < |s.peers| == |t.peers| && t.peers == s.peers[x := t.peers[x]] && t.live == s.live
    requires LivesIn(t.peers[x].c.r.log) == LivesIn(s.peers[x].c.r.log)
    ensures LivesInv(t)
  {
    LivesUpdate(s.peers, x, t.peers[x], multiset{});
  }

  lemma RecoverKeepsLives(rule: AckRule, order: OpenOrder, s: Sys, body: seq<byte>)
    requires LivesInv(s) && CanHappen(s, Recover(body))
    ensures LivesInv(Next(rule, order, s, Recover(body)))
  {
    var i := s.router.i;
    var left := s.peers[i := s.peers[i].(c := Put(s.peers[i].c, Handover(body)))];
    LivesUpdate(s.peers, i, left[i], multiset{});
    LivesSnoc(left, Peer(StartConn(EMPTY, [Answer(21, true)]), false, EMPTY));
  }

  lemma LocalKeepsLives(rule: AckRule, order: OpenOrder, s: Sys, x: nat, step: Step)
    requires LivesInv(s) && CanHappen(s, Local(x, step))
    ensures LivesInv(Next(rule, order, s, Local(x, step)))
  {
    var t := Next(rule, order, s, Local(x, step));
    var gain := Gain(s.peers[x].c, step);
    LocalLives(rule, order, s.peers[x].c, step);
    LivesUpdate(s.peers, x, t.peers[x], multiset(gain));
    assert t.live == s.live + gain;
  }

  lemma StepKeepsLives(rule: AckRule, order: OpenOrder, s: Sys, e: Event)
    requires FreshInv(s) && CanHappen(s, e) && LivesInv(s)
    ensures LivesInv(Next(rule, order, s, e))
  {
    var t := Next(rule, order, s, e);
    match e
    case Payload(m) => SameLives(s, s.router.i, t);
    case Dismiss => SameLives(s, s.router.i, t);
    case Recover(body) => RecoverKeepsLives(rule, order, s, body);
    case Forward => SameLives(s, s.router.to, t);
    case Join(x) => SameLives(s, x, t);
    case Local(x, step) => LocalKeepsLives(rule, order, s, x, step);
  }

  lemma {:induction false} RunKeepsLives(rule: AckRule, order: OpenOrder, s: Sys, events: seq<Event>, t: Sys)
    requires FreshInv(s) && LivesInv(s) && Reaches(rule, order, s, events, t)
    ensures LivesInv(t)
    decreases |events|
  {
    if events != [] {
      StepKeepsFresh(rule, order, s, events[0]);
      StepKeepsLives(rule, order, s, events[0]);
      RunKeepsLives(rule, order, Next(rule, order, s, events[0]), events[1..], t);
    }
  }

  /** The messages whose order LiveWritesAscend states are all that any connection wrote as they arrived. */
  lemma LiveIsComplete(rule: AckRule, order: OpenOrder, events: seq<Event>, t: Sys)
    requires Reaches(rule, order, INITIAL, events, t)
    ensures multiset(t.live) == AllLives(t.peers)
  {
    assert INITIAL.peers[..0] == [];
    RunKeepsLives(rule, order, INITIAL, events, t);
  }

  // ---- what the router does --------------------------------------------------------------

  /** What an event of the router puts on a channel, and on whose. */
  predicate PutsItem(s: Sys, e: Event, x: nat, item: Item) {
    match e
    case Payload(m) => s.router == Feeding(x) && item == Deliver(m)
    case Dismiss => s.router == Feeding(x) && item == Shut
    case Recover(body) => s.router == Feeding(x) && item == Handover(body)
    case Forward => s.router.Moving? && x == s.router.to && s.wire.Some? && item == Prev(true, s.wire.value)
    case _ => false
  }

  /** It reaches that connection's channel as its last item, and no other connection changes. */
  lemma RouterPutsOne(rule: AckRule, order: OpenOrder, s: Sys, e: Event, x: nat, item: Item)
    requires CanHappen(s, e) && PutsItem(s, e, x, item) && x < |s.peers|
    ensures var t := Next(rule, order, s, e);
            && |s.peers| <= |t.peers|
            && t.peers[x].c.chan == s.peers[x].c.chan + [item]
            && t.peers[x] == s.peers[x].(c := s.peers[x].c.(chan := t.peers[x].c.chan))
            && forall y: nat :: y < |s.peers| && y != x ==> t.peers[y] == s.peers[y]
  {
  }

  // ---- a recovery goes on ----------------------------------------------------------------

  /**
   In any state that can be reached: the router can send or start a recovery unless one is under
   way; and one that is under way goes on, with the old connection joining if it has not, taking
   its next item while it runs, or the router forwarding the state. Only a receiver that ended
   before it came to op 30 stops it.
   */
  lemma RecoveryGoesOn(rule: AckRule, s: Sys, m: Message, body: seq<byte>)
    requires Inv(rule, s)
    ensures s.router.Feeding? ==> CanHappen(s, Payload(m)) && CanHappen(s, Recover(body)) && CanHappen(s, Dismiss)
    ensures s.router.Feeding? && !s.peers[s.router.i].live ==> CanHappen(s, Join(s.router.i))
    ensures s.router.Moving? && s.wire.Some? ==> CanHappen(s, Forward)
    ensures s.router.Moving? && s.wire.None? ==>
              var x := s.router.from;
              if s.peers[x].live then
                s.peers[x].c.r.done || exists choice :: CanHappen(s, Local(x, Recv(choice)))
              else CanHappen(s, Join(x))
  {
    if s.router.Moving? && s.wire.None? {
      var x := s.router.from;
      assert Plays(RoleOf(s, x), s.peers[x]);
      if s.peers[x].live && !s.peers[x].c.r.done {
        var order := FlushOrderExists(s.peers[x].c.r.queue);
        assert CanHappen(s, Local(x, Recv(Choice(order, 0))));
      }
    } else if s.router.Feeding? {
      assert Plays(RoleOf(s, s.router.i), s.peers[s.router.i]);
    }
  }

  /** t is reached from s by these two events. */
  ghost predicate Two(rule: AckRule, order: OpenOrder, s: Sys, e: Event, f: Event, t: Sys) {
    && CanHappen(s, e) && CanHappen(Next(rule, order, s, e), f)
    && t == Next(rule, order, Next(rule, order, s, e), f)
  }

  lemma ReachesFirst(rule: AckRule, order: OpenOrder, s: Sys, e: Event, events: seq<Event>, t: Sys)
    requires CanHappen(s, e) && Reaches(rule, order, Next(rule, order, s, e), events, t)
    ensures Reaches(rule, order, s, [e] + events, t)
  {
    assert ([e] + events)[1..] == events;
  }

  lemma TwoThen(rule: AckRule, order: OpenOrder, s: Sys, e: Event, f: Event, t: Sys, events: seq<Event>, u: Sys)
    requires Two(rule, order, s, e, f, t) && Reaches(rule, order, t, events, u)
    ensures Reaches(rule, order, s, [e] + ([f] + events), u)
  {
    ReachesFirst(rule, order, Next(rule, order, s, e), f, events, u);
    ReachesFirst(rule, order, s, e, [f] + events, u);
  }

  const NONE: Choice := Choice([], 0)

  /** The state a session has after one payload: queued at the closed gate. */
  function Holding(m: Message): Blob {
    Blob(m.ts, map[Key(m) := m])
  }

  function OneQueued(m: Message): Sys {
    var r := State(m.ts, map[Key(m) := m], [Queued(m, false)], [], false, false);
    Sys([Peer(Conn(r, [], false, false), true, EMPTY)], Feeding(0), None, [Accepted(m, false)], [])
  }

  /** And when its connection has handed it over, under these parameters. */
  function OnWire(m: Message, params: seq<seq<byte>>): Sys {
    var r := State(m.ts, map[Key(m) := m], [Queued(m, false)], [Save(params, Holding(m))], true, false);
    Sys([Peer(Conn(r, [], false, false), true, EMPTY), JOINING], Moving(0, 1), Some(Holding(m)),
        [Accepted(m, false)], [])
  }

  lemma QueueOne(rule: AckRule, order: OpenOrder, m: Message)
    ensures Two(rule, order, INITIAL, Payload(m), Local(0, Recv(NONE)), OneQueued(m))
  {
    var s := Next(rule, order, INITIAL, Payload(m));
    assert s.peers[0].c.chan == [Deliver(m)];
    var t := Next(rule, order, s, Local(0, Recv(NONE)));
    assert t.peers[0].c.r == OneQueued(m).peers[0].c.r;
    assert t.peers[0] == OneQueued(m).peers[0] && t.peers == OneQueued(m).peers;
  }

  function Asked(m: Message, body: seq<byte>): Sys {
    var r := OneQueued(m).peers[0].c.r;
    Sys([Peer(Conn(r, [Handover(body)], false, false), true, EMPTY), JOINING], Moving(0, 1), None,
        [Accepted(m, false)], [])
  }

  lemma AskOver(rule: AckRule, order: OpenOrder, m: Message, body: seq<byte>)
    ensures CanHappen(OneQueued(m), Recover(body))
    ensures Next(rule, order, OneQueued(m), Recover(body)) == Asked(m, body)
  {
    var s := Next(rule, order, OneQueued(m), Recover(body));
    assert s.peers[0].c.chan == [Handover(body)];
    assert s.peers == Asked(m, body).peers;
  }

  lemma HandOver(rule: AckRule, order: OpenOrder, m: Message, body: seq<byte>) returns (params: seq<seq<byte>>)
    ensures Two(rule, order, OneQueued(m), Recover(body), Local(0, Recv(NONE)), OnWire(m, params))
  {
    AskOver(rule, order, m, body);
    var t := Next(rule, order, Asked(m, body), Local(0, Recv(NONE)));
    params := t.peers[0].c.r.saves[0].params;
    assert t.peers[0].c.r == OnWire(m, params).peers[0].c.r;
    assert t.peers[0] == OnWire(m, params).peers[0] && t.peers == OnWire(m, params).peers;
  }

  lemma TakeOver(rule: AckRule, order: OpenOrder, m: Message, params: seq<seq<byte>>) returns (t: Sys)
    ensures Two(rule, order, OnWire(m, params), Forward, Join(1), t)
    ensures t.router == Feeding(1) && |t.peers| == 2 && t.peers[1].live
    ensures t.peers[1].start == Holding(m) && t.history == [Accepted(m, false)]
  {
    var s := Next(rule, order, OnWire(m, params), Forward);
    assert s.peers[1].c.chan == [Answer(21, true), Prev(true, Holding(m))];
    t := Next(rule, order, s, Join(1));
  }

  /** A whole recovery: a payload is queued, and the next connection starts with it and is fed. */
  lemma RecoveryExample(rule: AckRule, order: OpenOrder, m: Message, body: seq<byte>)
    ensures var events := [Payload(m), Local(0, Recv(NONE)), Recover(body), Local(0, Recv(NONE)), Forward, Join(1)];
            exists t: Sys ::
              && Reaches(rule, order, INITIAL, events, t)
              && t.router == Feeding(1) && |t.peers| == 2 && t.peers[1].live
              && t.peers[1].start == Blob(m.ts, map[Key(m) := m])
              && t.history == [Accepted(m, false)]
  {
    var recv := Local(0, Recv(NONE));
    QueueOne(rule, order, m);
    var params := HandOver(rule, order, m, body);
    var t := TakeOver(rule, order, m, params);
    TwoThen(rule, order, OnWire(m, params), Forward, Join(1), t, [], t);
    var last := [Forward] + ([Join(1)] + []);
    TwoThen(rule, order, OneQueued(m), Recover(body), recv, OnWire(m, params), last, t);
    TwoThen(rule, order, INITIAL, Payload(m), recv, OneQueued(m), [Recover(body)] + ([recv] + last), t);
    assert [Payload(m)] + ([recv] + ([Recover(body)] + ([recv] + last)))
        == [Payload(m), recv, Recover(body), recv, Forward, Join(1)];
  }
}
