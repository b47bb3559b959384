/**
 The interleaving of Gate, read back from what the client asked for: the gate is what was last
 stored, the channel is first in first out, and the receiver's part of every interleaving is a run
 of the receiver on its own (socket/websocket.go:108-119, 147-252).
 */
module GateLaws {
  import opened Messages
  import opened Receiver
  import opened ReceiverLaws
  import opened ReceiverEnds
  import opened Gate

  // ---- the gate and the log --------------------------------------------------------------

  /** The values stored in the gate, in order. */
  function Stores(log: seq<Entry>): seq<bool> {
    if log == [] then []
    else Stores(log[..|log| - 1]) + if log[|log| - 1].GateStored? then [log[|log| - 1].open] else []
  }

  /** The value last stored; a gate never stored is closed. */
  function LastStore(log: seq<Entry>): bool {
    if log == [] then false
    else if log[|log| - 1].GateStored? then log[|log| - 1].open
    else LastStore(log[..|log| - 1])
  }

  lemma {:induction false} StoresConcat(a: seq<Entry>, b: seq<Entry>)
    ensures Stores(a + b) == Stores(a) + Stores(b)
  {
    if b == [] {
      assert a + b == a;
    } else {
      assert (a + b)[..|a + b| - 1] == a + b[..|b| - 1];
      StoresConcat(a, b[..|b| - 1]);
    }
  }

  lemma StoresOne(e: Entry)
    ensures Stores([e]) == if e.GateStored? then [e.open] else []
  {
    assert [e][..0] == [];
  }

  lemma {:induction false} NoStores(added: seq<Entry>)
    requires forall n :: 0 <= n < |added| ==> !added[n].GateStored?
    ensures Stores(added) == []
  {
    if added != [] {
      NoStores(added[..|added| - 1]);
    }
  }

  lemma {:induction false} LastStoreStays(log: seq<Entry>, added: seq<Entry>)
    requires forall n :: 0 <= n < |added| ==> !added[n].GateStored?
    ensures LastStore(log + added) == LastStore(log)
  {
    if added == [] {
      assert log + added == log;
    } else {
      assert (log + added)[..|log + added| - 1] == log + added[..|added| - 1];
      LastStoreStays(log, added[..|added| - 1]);
    }
  }

  /** Entry i agrees with the gate as last stored before it: it was read for it, or had to be open for it. */
  ghost predicate ReadsGate(log: seq<Entry>, i: nat)
    requires i < |log|
  {
    && (log[i].Queued? ==> log[i].gate == LastStore(log[..i]))
    && (log[i].Refused? || log[i].Live? ==> LastStore(log[..i]))
  }

  ghost predicate GateInv(c: Conn) {
    && c.gate == LastStore(c.r.log)
    && forall i: nat :: i < |c.r.log| ==> ReadsGate(c.r.log, i)
  }

  lemma ReadsGateAppend(log: seq<Entry>, added: seq<Entry>)
    requires forall i: nat :: i < |log| ==> ReadsGate(log, i)
    requires forall n :: 0 <= n < |added| ==> !added[n].GateStored?
    requires forall n :: 0 <= n < |added| ==>
               && (added[n].Queued? ==> added[n].gate == LastStore(log))
               && (added[n].Refused? || added[n].Live? ==> LastStore(log))
    ensures forall i: nat :: i < |log + added| ==> ReadsGate(log + added, i)
  {
    var l := log + added;
    forall i: nat | i < |l| ensures ReadsGate(l, i) {
      if i < |log| {
        assert l[..i] == log[..i] && ReadsGate(log, i);
      } else {
        assert l[..i] == log + added[..i - |log|];
        LastStoreStays(log, added[..i - |log|]);
      }
    }
  }

  lemma StoreKeepsGateInv(c: Conn, open: bool)
    requires GateInv(c)
    ensures GateInv(StoreGate(c, open))
  {
    var l := c.r.log + [GateStored(open)];
    assert l[..|l| - 1] == c.r.log;
    forall i: nat | i < |l| ensures ReadsGate(l, i) {
      if i < |c.r.log| {
        assert l[..i] == c.r.log[..i] && ReadsGate(c.r.log, i);
      }
    }
  }

  lemma RecvKeepsGateInv(rule: AckRule, order: OpenOrder, c: Conn, choice: Choice)
    requires GateInv(c) && Enabled(c, Recv(choice))
    ensures GateInv(Do(rule, order, c, Recv(choice)))
  {
    var added := Added(c.r, c.chan[0], c.gate, choice);
    LogGrowsBy(rule, c.r, c.chan[0], c.gate, choice);
    AddedNoStore(c.r, c.chan[0], c.gate, choice);
    LastStoreStays(c.r.log, added);
    ReadsGateAppend(c.r.log, added);
  }

  lemma StepKeepsGateInv(rule: AckRule, order: OpenOrder, c: Conn, s: Step)
    requires GateInv(c) && Enabled(c, s)
    ensures GateInv(Do(rule, order, c, s))
  {
    if s.Recv? {
      RecvKeepsGateInv(rule, order, c, s.c);
    } else {
      StoreKeepsGateInv(c, true);
      StoreKeepsGateInv(c, false);
    }
  }

  /** The gate store a step makes: closing stores at once, opening in one of its halves. */
  function Asks(order: OpenOrder, s: Step): seq<bool> {
    match s
    case CloseGate => [false]
    case OpenBegin => if order == StoreThenFlush then [true] else []
    case OpenEnd => if order == FlushThenStore then [true] else []
    case _ => []
  }

  function Asked(order: OpenOrder, steps: seq<Step>): seq<bool> {
    if steps == [] then [] else Asks(order, steps[0]) + Asked(order, steps[1..])
  }

  lemma StoresAppend(log: seq<Entry>, open: bool)
    ensures Stores(log + [GateStored(open)]) == Stores(log) + [open]
  {
    assert (log + [GateStored(open)])[..|log|] == log;
  }

  lemma RecvStores(s: State, item: Item, gate: bool, c: Choice)
    requires Legal(s, item, c)
    ensures Stores(s.log + Added(s, item, gate, c)) == Stores(s.log)
  {
    var added := Added(s, item, gate, c);
    AddedNoStore(s, item, gate, c);
    NoStores(added);
    StoresConcat(s.log, added);
  }

  lemma StepStores(rule: AckRule, order: OpenOrder, c: Conn, s: Step)
    requires Enabled(c, s)
    ensures Stores(Do(rule, order, c, s).r.log) == Stores(c.r.log) + Asks(order, s)
  {
    var log := c.r.log;
    if s.Recv? {
      LogGrowsBy(rule, c.r, c.chan[0], c.gate, s.c);
      RecvStores(c.r, c.chan[0], c.gate, s.c);
    } else {
      StoresAppend(log, true);
      StoresAppend(log, false);
    }
    assert Stores(log) + [] == Stores(log);
  }

  lemma Associate<T>(a: seq<T>, b: seq<T>, c: seq<T>)
    ensures (a + b) + c == a + (b + c)
  {
  }

  lemma {:induction false} RunStores(rule: AckRule, order: OpenOrder, c: Conn, steps: seq<Step>, d: Conn)
    requires GateInv(c) && Runs(rule, order, c, steps, d)
    ensures GateInv(d)
    ensures Stores(d.r.log) == Stores(c.r.log) + Asked(order, steps)
    decreases |steps|
  {
    if steps != [] {
      StepKeepsGateInv(rule, order, c, steps[0]);
      StepStores(rule, order, c, steps[0]);
      RunStores(rule, order, Do(rule, order, c, steps[0]), steps[1..], d);
      Associate(Stores(c.r.log), Asks(order, steps[0]), Asked(order, steps[1..]));
    }
  }

  /**
   Over every interleaving, in either order of opening: the gate is the value last stored; stored
   was what the client asked for, in order, and nothing else; every payload was queued under the
   value last stored before it; and after a closing none is refused or written as it arrives.
   */
  lemma GateFollowsClient(rule: AckRule, order: OpenOrder, c: Conn, steps: seq<Step>, d: Conn)
    requires Started(c) && Runs(rule, order, c, steps, d)
    ensures d.gate == LastStore(d.r.log)
    ensures Stores(d.r.log) == Asked(order, steps)
    ensures forall i: nat :: i < |d.r.log| ==> ReadsGate(d.r.log, i)
  {
    RunStores(rule, order, c, steps, d);
  }

  // ---- the receiver's part of an interleaving --------------------------------------------

  /** What a step puts on the channel. */
  function Puts(order: OpenOrder, s: Step): seq<Item> {
    match s
    case RouterPut(item) => [item]
    case ClientAck(sig, ts) => [Comm(sig + SignedDecimal(ts))]
    case ClientBye => [Comm("SET_TIMER")]
    case OpenBegin => if order == FlushThenStore then [Comm("FLUSH")] else []
    case OpenEnd => if order == StoreThenFlush then [Comm("FLUSH")] else []
    case _ => []
  }

  function AllPuts(order: OpenOrder, steps: seq<Step>): seq<Item> {
    if steps == [] then [] else Puts(order, steps[0]) + AllPuts(order, steps[1..])
  }

  /** The gate after a step that found it so. */
  function GateAfter(order: OpenOrder, gate: bool, s: Step): bool {
    var asked := Asks(order, s);
    if asked == [] then gate else asked[0]
  }

  /** What a step receives: with the gate as it finds it, and its choice. */
  function Takes(gate: bool, s: Step): seq<(bool, Choice)> {
    if s.Recv? then [(gate, s.c)] else []
  }

  /** The gate values and choices of the items received, in order. */
  function Taken(order: OpenOrder, gate: bool, steps: seq<Step>): seq<(bool, Choice)>
    decreases |steps|
  {
    if steps == [] then []
    else Takes(gate, steps[0]) + Taken(order, GateAfter(order, gate, steps[0]), steps[1..])
  }

  function Inputs(chan: seq<Item>, taken: seq<(bool, Choice)>): (items: seq<(Item, bool, nat)>)
    requires |taken| <= |chan|
    ensures |items| == |taken|
  {
    if taken == [] then []
    else [(chan[0], taken[0].0, taken[0].1.ok)] + Inputs(chan[1..], taken[1..])
  }

  function Choices(taken: seq<(bool, Choice)>): (choices: seq<Choice>)
    ensures |choices| == |taken|
  {
    if taken == [] then [] else [taken[0].1] + Choices(taken[1..])
  }

  /** The log without the gate stores, which are not the receiver's. */
  function Own(log: seq<Entry>): seq<Entry> {
    if log == [] then []
    else Own(log[..|log| - 1]) + if log[|log| - 1].GateStored? then [] else [log[|log| - 1]]
  }

  lemma {:induction false} OwnConcat(a: seq<Entry>, b: seq<Entry>)
    ensures Own(a + b) == Own(a) + Own(b)
  {
    if b == [] {
      assert a + b == a;
    } else {
      assert (a + b)[..|a + b| - 1] == a + b[..|b| - 1];
      OwnConcat(a, b[..|b| - 1]);
    }
  }

  /** The same receiver, but for the gate stores in its log. */
  predicate Same(r: State, s: State) {
    r == s.(log := r.log) && Own(r.log) == Own(s.log)
  }

  lemma SameReceives(rule: AckRule, r: State, s: State, item: Item, gate: bool, c: Choice)
    requires Same(r, s) && Legal(r, item, c)
    ensures Legal(s, item, c)
    ensures Same(Receive(rule, r, item, gate, c), Receive(rule, s, item, gate, c))
  {
    var added := Added(r, item, gate, c);
    LogGrowsBy(rule, r, item, gate, c);
    LogGrowsBy(rule, s, item, gate, c);
    assert Added(s, item, gate, c) == added;
    OwnConcat(r.log, added);
    OwnConcat(s.log, added);
  }

  lemma StoreIsSame(c: Conn, open: bool, s: State)
    requires Same(c.r, s)
    ensures Same(StoreGate(c, open).r, s)
  {
    OwnConcat(c.r.log, [GateStored(open)]);
    assert [GateStored(open)][..0] == [];
  }

  /** s, the receiver on its own, goes through these inputs and ends as d's. */
  ghost predicate RunsAlone(rule: AckRule, s: State, chan: seq<Item>, taken: seq<(bool, Choice)>, d: Conn) {
    && |taken| <= |chan|
    && d.chan == chan[|taken|..]
    && Fits(rule, s, Inputs(chan, taken), Choices(taken))
    && Same(d.r, ReceiveAll(rule, s, Inputs(chan, taken), Choices(taken)))
    && Served(rule, s, Inputs(chan, taken), Choices(taken)) == |taken|
  }

  lemma RecvRunsAlone(rule: AckRule, s: State, chan: seq<Item>, first: (bool, Choice), taken: seq<(bool, Choice)>,
                      d: Conn)
    requires chan != [] && !s.done && Legal(s, chan[0], first.1)
    requires RunsAlone(rule, Receive(rule, s, chan[0], first.0, first.1), chan[1..], taken, d)
    ensures RunsAlone(rule, s, chan, [first] + taken, d)
  {
    var all := [first] + taken;
    assert all[1..] == taken;
    assert chan[|all|..] == chan[1..][|taken|..];
    assert Inputs(chan, all)[1..] == Inputs(chan[1..], taken);
    assert Choices(all)[1..] == Choices(taken);
  }

  lemma FirstOf(chan: seq<Item>, later: seq<Item>)
    requires chan != []
    ensures (chan + later)[0] == chan[0] && (chan + later)[1..] == chan[1..] + later
  {
  }

  lemma {:induction false} RunsAloneFrom(rule: AckRule, order: OpenOrder, c: Conn, s: State, steps: seq<Step>, d: Conn)
    requires Runs(rule, order, c, steps, d) && Same(c.r, s)
    ensures RunsAlone(rule, s, c.chan + AllPuts(order, steps), Taken(order, c.gate, steps), d)
    decreases |steps|
  {
    if steps == [] {
      assert c.chan + [] == c.chan;
    } else {
      var step := steps[0];
      var next := Do(rule, order, c, step);
      var later, taken := AllPuts(order, steps[1..]), Taken(order, next.gate, steps[1..]);
      if step.Recv? {
        SameReceives(rule, c.r, s, c.chan[0], c.gate, step.c);
        RunsAloneFrom(rule, order, next, Receive(rule, s, c.chan[0], c.gate, step.c), steps[1..], d);
        FirstOf(c.chan, later);
        RecvRunsAlone(rule, s, c.chan + later, (c.gate, step.c), taken, d);
        assert Puts(order, step) + later == later;
      } else {
        OtherStep(rule, order, c, s, step);
        RunsAloneFrom(rule, order, next, s, steps[1..], d);
        Associate(c.chan, Puts(order, step), later);
        assert Takes(c.gate, step) + taken == taken;
      }
    }
  }

  /** A step that is not the receiver's only puts and stores. */
  lemma OtherStep(rule: AckRule, order: OpenOrder, c: Conn, s: State, step: Step)
    requires Enabled(c, step) && !step.Recv? && Same(c.r, s)
    ensures var d := Do(rule, order, c, step);
            Same(d.r, s) && d.chan == c.chan + Puts(order, step) && d.gate == GateAfter(order, c.gate, step)
  {
    StoreIsSame(c, true, s);
    StoreIsSame(c, false, s);
  }

  /**
   The receiver's part of any interleaving is a run of the receiver on its own: it takes what was
   put on the channel, first in first out, reads at each item the gate as then stored, and leaves
   the rest on the channel. So what holds of every run of the receiver holds here.
   */
  lemma InterleavingIsReceiverRun(rule: AckRule, order: OpenOrder, c: Conn, steps: seq<Step>, d: Conn)
    requires Runs(rule, order, c, steps, d)
    ensures RunsAlone(rule, c.r, c.chan + AllPuts(order, steps), Taken(order, c.gate, steps), d)
  {
    RunsAloneFrom(rule, order, c, c.r, steps, d);
  }

  lemma {:induction false} OwnAccounts(log: seq<Entry>)
    ensures AccountsOf(Own(log)) == AccountsOf(log)
  {
    if log != [] {
      var n := |log| - 1;
      OwnAccounts(log[..n]);
      AccountsConcat(Own(log[..n]), if log[n].GateStored? then [] else [log[n]]);
      assert [log[n]][..0] == [];
    }
  }

  /** Total accounting over every interleaving: one account for each payload taken, in the order they were put. */
  lemma AccountsOverInterleavings(rule: AckRule, order: OpenOrder, c: Conn, steps: seq<Step>, d: Conn)
    requires Runs(rule, order, c, steps, d)
    ensures var chan, taken := c.chan + AllPuts(order, steps), Taken(order, c.gate, steps);
            && |taken| <= |chan| && d.chan == chan[|taken|..]
            && Accounted(AccountsOf(c.r.log), AccountsOf(d.r.log), c.r.ts, Arrivals(Inputs(chan, taken)), !d.r.wsClosed)
  {
    var chan, taken := c.chan + AllPuts(order, steps), Taken(order, c.gate, steps);
    InterleavingIsReceiverRun(rule, order, c, steps, d);
    var items, choices := Inputs(chan, taken), Choices(taken);
    EveryPayloadIsAccounted(rule, c.r, items, choices);
    assert items[..|items|] == items;
    OwnAccounts(d.r.log);
    OwnAccounts(ReceiveAll(rule, c.r, items, choices).log);
  }

  // ---- nobody is ever stuck --------------------------------------------------------------

  /**
   In any state the receiver can take the next item unless it has ended or the channel is empty, the
   client is heard unless it is in the middle of opening, when it can go on, and the router can
   always put a payload.
   */
  lemma EveryoneCanMove(c: Conn, m: Message)
    ensures !c.r.done && c.chan != [] ==> exists choice :: Enabled(c, Recv(choice))
    ensures c.opening ==> Enabled(c, OpenEnd)
    ensures !c.opening ==> Enabled(c, OpenBegin) && Enabled(c, CloseGate) && Enabled(c, ClientBye)
    ensures !c.opening ==> forall sig: string, ts: int :: Enabled(c, ClientAck(sig, ts))
    ensures Enabled(c, RouterPut(Deliver(m))) && Enabled(c, RouterPut(Shut))
  {
    if !c.r.done && c.chan != [] {
      var order := FlushOrderExists(c.r.queue);
      assert Enabled(c, Recv(Choice(order, 0)));
    }
  }
}
