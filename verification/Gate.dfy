/**
 One connection's goroutines together: the dispatch loop of ClientSocket, which handles an open
 request by sending FLUSH on the channel and then storing the gate (socket/websocket.go:112-114),
 the router, which puts payloads on the same channel, and the receiver.

 Every step of the interleaving is atomic because only the gate is shared and the receiver reads
 it once per item. The router is assumed to put no item with op byte 0 on the channel.
 */
module Gate {
  import opened Messages
  import opened Receiver
  import opened ReceiverLaws

  /** The program's order of the two halves of opening, and the opposite one. */
  datatype OpenOrder = FlushThenStore | StoreThenFlush

  /** opening: the first half of an open request is done, the second not yet. */
  datatype Conn = Conn(r: State, chan: seq<Item>, gate: bool, opening: bool)

  datatype Step =
    | RouterPut(item: Item)
    | ClientAck(sig: string, ts: int)
    | ClientBye
    | OpenBegin
    | OpenEnd
    | CloseGate
    | Recv(c: Choice)

  ghost predicate Enabled(c: Conn, s: Step) {
    match s
    case RouterPut(item) => !item.Comm?
    case OpenEnd => c.opening
    case Recv(choice) => !c.r.done && c.chan != [] && Legal(c.r, c.chan[0], choice)
    case _ => !c.opening
  }

  function Put(c: Conn, item: Item): Conn {
    c.(chan := c.chan + [item])
  }

  function StoreGate(c: Conn, open: bool): Conn {
    c.(gate := open, r := c.r.(log := c.r.log + [GateStored(open)]))
  }

  ghost function Do(rule: AckRule, order: OpenOrder, c: Conn, s: Step): Conn
    requires Enabled(c, s)
  {
    match s
    case RouterPut(item) => Put(c, item)
    case ClientAck(sig, ts) => Put(c, Comm(AckText(sig, ts)))
    case ClientBye => Put(c, SET_TIMER)
    case OpenBegin => (if order == FlushThenStore then Put(c, FLUSH) else StoreGate(c, true)).(opening := true)
    case OpenEnd => (if order == FlushThenStore then StoreGate(c, true) else Put(c, FLUSH)).(opening := false)
    case CloseGate => StoreGate(c, false)
    case Recv(choice) => c.(chan := c.chan[1..], r := Receive(rule, c.r, c.chan[0], c.gate, choice))
  }

  /** d is reached from c by these steps. */
  ghost predicate Runs(rule: AckRule, order: OpenOrder, c: Conn, steps: seq<Step>, d: Conn)
    decreases |steps|
  {
    if steps == [] then d == c
    else Enabled(c, steps[0]) && Runs(rule, order, Do(rule, order, c, steps[0]), steps[1..], d)
  }

  /** As ClientSocket starts it: gate closed, any queue installed, perhaps payloads waiting. */
  ghost predicate Started(c: Conn) {
    && QueueInv(c.r) && c.r.log == [] && !c.r.done
    && (forall n :: 0 <= n < |c.chan| ==> !c.chan[n].Comm?)
    && !c.gate && !c.opening
  }

  // ---- both orders: what waits was queued at a closed gate, after the last FLUSH ----------

  /** Every Flushed entry is followed by a FlushDone. */
  ghost predicate FlushesEnd(log: seq<Entry>) {
    forall j :: 0 <= j < |log| && log[j].Flushed? ==> FlushDone in log[j..]
  }

  /** Every Live entry comes right behind its message's queueing. */
  ghost predicate LiveFollows(log: seq<Entry>) {
    forall j :: 0 <= j < |log| && log[j].Live? ==> j > 0 && log[j - 1] == Queued(log[j].m, true)
  }

  /** Served FLUSHes are complete, and nothing but a FLUSH or an arrival is written. */
  ghost predicate WritesExplained(log: seq<Entry>) {
    FlushesEnd(log) && LiveFollows(log)
  }

  ghost predicate BaseInv(c: Conn) {
    && QueueInv(c.r)
    && (!c.r.done ==> WaitingInv(c.r) && WritesExplained(c.r.log))
  }

  lemma StoreKeepsWaiting(s: State, open: bool)
    requires WaitingInv(s) && WritesExplained(s.log)
    ensures var t := s.(log := s.log + [GateStored(open)]);
            WaitingInv(t) && WritesExplained(t.log)
  {
    var added := [GateStored(open)];
    var t := s.(log := s.log + added);
    forall i: nat, k: string | Unwritten(t.log, i, k) && k in t.queue ensures SinceFlush(t.log, i) {
      UnwrittenBefore(s.log, added, i, k);
      SinceFlushAfter(s.log, added, i);
    }
    ExplainedAppend(s.log, added);
  }

  lemma FlushesEndAppend(log: seq<Entry>, added: seq<Entry>)
    requires FlushesEnd(log) && FlushesEnd(added)
    ensures FlushesEnd(log + added)
  {
    var l := log + added;
    forall j | 0 <= j < |l| && l[j].Flushed? ensures FlushDone in l[j..] {
      if j < |log| {
        assert l[j..] == log[j..] + added;
      } else {
        assert l[j..] == added[j - |log|..];
      }
    }
  }

  lemma ExplainedAppend(log: seq<Entry>, added: seq<Entry>)
    requires WritesExplained(log) && WritesExplained(added)
    ensures WritesExplained(log + added)
  {
    FlushesEndAppend(log, added);
  }

  lemma ReceiveKeepsExplained(rule: AckRule, s: State, item: Item, gate: bool, c: Choice)
    requires WritesExplained(s.log) && Legal(s, item, c)
    requires !Receive(rule, s, item, gate, c).done
    ensures WritesExplained(Receive(rule, s, item, gate, c).log)
  {
    var added := Added(s, item, gate, c);
    LogGrowsBy(rule, s, item, gate, c);
    if item == FLUSH {
      assert added[|c.order|] == FlushDone;
    }
    ExplainedAppend(s.log, added);
  }

  lemma StepKeepsBase(rule: AckRule, order: OpenOrder, c: Conn, s: Step)
    requires BaseInv(c) && Enabled(c, s)
    ensures BaseInv(Do(rule, order, c, s))
  {
    if s.Recv? {
      ReceiveKeepsQueue(rule, c.r, c.chan[0], c.gate, s.c);
      if !Receive(rule, c.r, c.chan[0], c.gate, s.c).done {
        ReceiveKeepsWaiting(rule, c.r, c.chan[0], c.gate, s.c);
        ReceiveKeepsExplained(rule, c.r, c.chan[0], c.gate, s.c);
      }
    } else if !c.r.done {
      StoreKeepsWaiting(c.r, true);
      StoreKeepsWaiting(c.r, false);
    }
  }

  /**
   For the latest acceptance of a key that is still queued: it is unwritten exactly when it was
   accepted with the gate closed and no FLUSH has been served since.
   */
  lemma UnwrittenExactly(c: Conn, i: nat, k: string)
    requires BaseInv(c) && !c.r.done && k in c.r.queue
    requires i < |c.r.log| && QueuesKey(c.r.log[i], k)
    requires forall j :: i < j < |c.r.log| ==> !QueuesKey(c.r.log[j], k)
    ensures Unwritten(c.r.log, i, k) <==> SinceFlush(c.r.log, i)
  {
    var log := c.r.log;
    if exists j :: i < j < |log| && log[j].Flushed? {
      var j :| i < j < |log| && log[j].Flushed?;
      var d :| 0 <= d < |log[j..]| && log[j..][d] == FlushDone;
      assert log[j + d] == FlushDone;
      assert !SinceFlush(log, i);
    }
    if exists j :: i < j < |log| && log[j].Live? && Key(log[j].m) == k {
      var j :| i < j < |log| && log[j].Live? && Key(log[j].m) == k;
      assert QueuesKey(log[j - 1], k) && log[j - 1].gate;
      assert j - 1 == i;
      assert !SinceFlush(log, i);
    }
  }

  // ---- the program's order ---------------------------------------------------------------

  /** Entry i lies between a served FLUSH and the gate store that belongs to it. */
  ghost predicate Between(log: seq<Entry>, f: nat, i: nat, j: nat) {
    && f < i < j < |log|
    && log[f] == FlushDone && log[j] == GateStored(true)
    && forall n :: f < n < j ==> !log[n].GateStored?
  }

  ghost predicate InWindow(log: seq<Entry>, i: nat) {
    exists f: nat, j: nat :: Between(log, f, i, j)
  }

  ghost predicate OpenedAfter(log: seq<Entry>, i: nat) {
    exists j :: i < j < |log| && log[j] == GateStored(true)
  }

  /** A FLUSH was served and the gate not stored since. */
  ghost predicate FlushSinceStore(log: seq<Entry>) {
    exists f: nat :: f < |log| && log[f] == FlushDone && forall n :: f < n < |log| ==> !log[n].GateStored?
  }

  ghost predicate CodeInv(c: Conn) {
    && (c.opening ==> FLUSH in c.chan || FlushSinceStore(c.r.log))
    && (forall i: nat :: i < |c.r.log| && SinceFlush(c.r.log, i) && OpenedAfter(c.r.log, i) ==>
          FLUSH in c.chan || InWindow(c.r.log, i))
    && (c.gate ==> forall i: nat :: i < |c.r.log| && c.r.log[i].Queued? && !c.r.log[i].gate ==>
          OpenedAfter(c.r.log, i))
  }

  lemma WindowStays(log: seq<Entry>, added: seq<Entry>, i: nat)
    requires InWindow(log, i)
    ensures InWindow(log + added, i)
  {
    var f: nat, j: nat :| Between(log, f, i, j);
    assert forall n :: 0 <= n < |log| ==> (log + added)[n] == log[n];
    assert Between(log + added, f, i, j);
  }

  lemma SinceFlushBefore(log: seq<Entry>, added: seq<Entry>, i: nat)
    requires i < |log| && SinceFlush(log + added, i)
    ensures SinceFlush(log, i) && FlushDone !in added
  {
    var l := log + added;
    assert forall n :: 0 <= n < |log| ==> l[n] == log[n];
    assert forall n :: 0 <= n < |added| ==> l[|log| + n] == added[n];
  }

  /** Storing the open gate closes the window of everything still waiting. */
  lemma OpenKeepsCodeInv(c: Conn)
    requires CodeInv(c) && c.opening
    ensures CodeInv(StoreGate(c, true).(opening := false))
  {
    var log, added := c.r.log, [GateStored(true)];
    var l := log + added;
    assert l[|log|] == GateStored(true);
    forall i: nat | i < |l| && SinceFlush(l, i) ensures FLUSH in c.chan || InWindow(l, i) {
      SinceFlushBefore(log, added, i);
      if FLUSH !in c.chan {
        var f: nat :| f < |log| && log[f] == FlushDone && forall n :: f < n < |log| ==> !log[n].GateStored?;
        assert f != i && l[f] == FlushDone;
        assert Between(l, f, i, |log|);
      }
    }
    assert forall i: nat :: i < |log| ==> OpenedAfter(l, i);
  }

  lemma CloseKeepsCodeInv(c: Conn)
    requires CodeInv(c) && !c.opening
    ensures CodeInv(StoreGate(c, false))
  {
    var log, added := c.r.log, [GateStored(false)];
    var l := log + added;
    forall i: nat | i < |l| && SinceFlush(l, i) && OpenedAfter(l, i) ensures FLUSH in c.chan || InWindow(l, i) {
      SinceFlushBefore(log, added, i);
      var j :| i < j < |l| && l[j] == GateStored(true);
      assert log[j] == GateStored(true);
      if InWindow(log, i) {
        WindowStays(log, added, i);
      }
    }
  }

  /** Entries of the receiver never include a gate store. */
  lemma AddedNoStore(s: State, item: Item, gate: bool, c: Choice)
    requires Legal(s, item, c)
    ensures forall n :: 0 <= n < |Added(s, item, gate, c)| ==>
              var e := Added(s, item, gate, c)[n]; !e.GateStored? && (e.Queued? ==> e.gate == gate)
  {
  }

  /** What was open stays accounted for when the receiver adds entries, made with the gate open. */
  lemma OpenedAppend(log: seq<Entry>, added: seq<Entry>)
    requires forall i: nat :: i < |log| && log[i].Queued? && !log[i].gate ==> OpenedAfter(log, i)
    requires forall n :: 0 <= n < |added| && added[n].Queued? ==> added[n].gate
    ensures var l := log + added;
            forall i: nat :: i < |l| && l[i].Queued? && !l[i].gate ==> OpenedAfter(l, i)
  {
    var l := log + added;
    assert forall n :: 0 <= n < |log| ==> l[n] == log[n];
    forall i: nat | i < |l| && l[i].Queued? && !l[i].gate ensures OpenedAfter(l, i) {
      assert i < |log|;
      var j :| i < j < |log| && log[j] == GateStored(true);
      assert l[j] == GateStored(true);
    }
  }

  /** What waits with a gate store behind it waited so before the receiver added its entries. */
  lemma WaitedBefore(log: seq<Entry>, added: seq<Entry>, i: nat)
    requires i < |log + added| && SinceFlush(log + added, i) && OpenedAfter(log + added, i)
    requires forall n :: 0 <= n < |added| ==> !added[n].GateStored?
    ensures i < |log| && SinceFlush(log, i) && OpenedAfter(log, i) && FlushDone !in added
  {
    var l := log + added;
    assert forall n :: 0 <= n < |added| ==> l[|log| + n] == added[n];
    var j :| i < j < |l| && l[j] == GateStored(true);
    assert j < |log| && log[j] == GateStored(true);
    SinceFlushBefore(log, added, i);
  }

  lemma RecvKeepsCodeInv(rule: AckRule, c: Conn, choice: Choice)
    requires CodeInv(c) && Enabled(c, Recv(choice))
    requires !Do(rule, FlushThenStore, c, Recv(choice)).r.done
    ensures CodeInv(Do(rule, FlushThenStore, c, Recv(choice)))
  {
    var item := c.chan[0];
    var d := Do(rule, FlushThenStore, c, Recv(choice));
    var log, added := c.r.log, Added(c.r, item, c.gate, choice);
    LogGrowsBy(rule, c.r, item, c.gate, choice);
    AddedNoStore(c.r, item, c.gate, choice);
    assert c.chan == [item] + d.chan;
    if FLUSH in c.chan || FlushSinceStore(log) {
      FlushServedOrStays(c, choice, d);
    }
    if item == FLUSH {
      ServedFlush(c.r, c.gate, choice);
    }
    forall i: nat | i < |d.r.log| && SinceFlush(d.r.log, i) && OpenedAfter(d.r.log, i)
      ensures FLUSH in d.chan || InWindow(d.r.log, i)
    {
      WaitedBefore(log, added, i);
      if FLUSH !in d.chan {
        WindowStays(log, added, i);
      }
    }
    if c.gate {
      OpenedAppend(log, added);
    }
  }

  /** A FLUSH that does not end the receiver leaves its mark. */
  lemma ServedFlush(s: State, gate: bool, c: Choice)
    requires Legal(s, FLUSH, c) && Writes(s, c.ok) >= |c.order|
    ensures FlushDone in Added(s, FLUSH, gate, c)
  {
    assert Added(s, FLUSH, gate, c)[|c.order|] == FlushDone;
  }

  lemma FlushServedOrStays(c: Conn, choice: Choice, d: Conn)
    requires Enabled(c, Recv(choice)) && d.chan == c.chan[1..]
    requires c.chan[0] == FLUSH ==> Writes(c.r, choice.ok) >= |choice.order|
    requires d.r.log == c.r.log + Added(c.r, c.chan[0], c.gate, choice)
    requires FLUSH in c.chan || FlushSinceStore(c.r.log)
    ensures FLUSH in d.chan || FlushSinceStore(d.r.log)
  {
    var log, added := c.r.log, Added(c.r, c.chan[0], c.gate, choice);
    AddedNoStore(c.r, c.chan[0], c.gate, choice);
    assert c.chan == [c.chan[0]] + d.chan;
    if c.chan[0] == FLUSH {
      assert d.r.log[|log| + |choice.order|] == FlushDone;
    } else if FLUSH !in c.chan {
      var f: nat :| f < |log| && log[f] == FlushDone && forall n :: f < n < |log| ==> !log[n].GateStored?;
      assert d.r.log[f] == FlushDone;
      assert forall n :: |log| <= n < |d.r.log| ==> d.r.log[n] == added[n - |log|];
    }
  }

  lemma StepKeepsCodeInv(rule: AckRule, c: Conn, s: Step)
    requires CodeInv(c) && Enabled(c, s)
    requires !Do(rule, FlushThenStore, c, s).r.done
    ensures CodeInv(Do(rule, FlushThenStore, c, s))
  {
    var d := Do(rule, FlushThenStore, c, s);
    if s.Recv? {
      RecvKeepsCodeInv(rule, c, s.c);
    } else if s.OpenEnd? {
      OpenKeepsCodeInv(c);
    } else if s.CloseGate? {
      CloseKeepsCodeInv(c);
    } else {
      assert d.r == c.r && c.chan <= d.chan;
      assert FLUSH in c.chan ==> FLUSH in d.chan;
    }
  }

  // ---- what a predecessor handed over ----------------------------------------------------

  /** Key k was queued or written on this connection. */
  ghost predicate Seen(log: seq<Entry>, k: string) {
    exists j: nat :: j < |log| && (QueuesKey(log[j], k) || WritesKey(log[j], k))
  }

  /**
   A served FLUSH leaves no key unseen, and behind an open gate, or one about to be opened, there
   is a FLUSH.
   */
  ghost predicate HandedInv(c: Conn) {
    && (FlushDone in c.r.log ==> forall k :: k in c.r.queue ==> Seen(c.r.log, k))
    && (c.gate || c.opening ==> FLUSH in c.chan || FlushDone in c.r.log)
  }

  lemma SeenStays(log: seq<Entry>, added: seq<Entry>, k: string)
    requires Seen(log, k)
    ensures Seen(log + added, k)
  {
    var j: nat :| j < |log| && (QueuesKey(log[j], k) || WritesKey(log[j], k));
    assert (log + added)[j] == log[j];
  }

  lemma SeenInAdded(log: seq<Entry>, added: seq<Entry>, e: Entry, k: string)
    requires e in added && (QueuesKey(e, k) || WritesKey(e, k))
    ensures Seen(log + added, k)
  {
    var n :| 0 <= n < |added| && added[n] == e;
    assert (log + added)[|log| + n] == e;
  }

  lemma RecvKeepsSeen(rule: AckRule, s: State, item: Item, gate: bool, c: Choice)
    requires QueueInv(s) && Legal(s, item, c) && !Receive(rule, s, item, gate, c).done
    requires FlushDone in s.log ==> forall k :: k in s.queue ==> Seen(s.log, k)
    ensures var t := Receive(rule, s, item, gate, c);
            FlushDone in t.log ==> forall k :: k in t.queue ==> Seen(t.log, k)
  {
    var t := Receive(rule, s, item, gate, c);
    var added := Added(s, item, gate, c);
    LogGrowsBy(rule, s, item, gate, c);
    if FlushDone in t.log {
      forall k | k in t.queue ensures Seen(t.log, k) {
        if item == FLUSH {
          FlushWritesKey(s, gate, c, k);
          var e :| e in added && WritesKey(e, k);
          SeenInAdded(s.log, added, e, k);
        } else if item.Deliver? && k == Key(item.m) && added[0].Queued? {
          SeenInAdded(s.log, added, added[0], k);
        } else {
          assert FlushDone !in added;
          SeenStays(s.log, added, k);
        }
      }
    }
  }

  lemma RecvKeepsHanded(rule: AckRule, c: Conn, choice: Choice)
    requires QueueInv(c.r) && HandedInv(c) && Enabled(c, Recv(choice))
    requires !Do(rule, FlushThenStore, c, Recv(choice)).r.done
    ensures HandedInv(Do(rule, FlushThenStore, c, Recv(choice)))
  {
    var item := c.chan[0];
    var d := Do(rule, FlushThenStore, c, Recv(choice));
    RecvKeepsSeen(rule, c.r, item, c.gate, choice);
    LogGrowsBy(rule, c.r, item, c.gate, choice);
    assert c.chan == [item] + d.chan;
    if item == FLUSH {
      ServedFlush(c.r, c.gate, choice);
    }
  }

  lemma StoreKeepsHanded(c: Conn, open: bool)
    requires HandedInv(c) && (open ==> c.opening)
    ensures HandedInv(StoreGate(c, open).(opening := false))
  {
    forall k | k in c.r.queue && FlushDone in c.r.log ensures Seen(c.r.log + [GateStored(open)], k) {
      SeenStays(c.r.log, [GateStored(open)], k);
    }
  }

  /** Putting items on the channel; an opening that begins puts a FLUSH there. */
  lemma PutKeepsHanded(c: Conn, d: Conn)
    requires HandedInv(c) && d.r == c.r && c.chan <= d.chan && d.gate == c.gate
    requires d.opening ==> c.opening || FLUSH in d.chan
    ensures HandedInv(d)
  {
    assert FLUSH in c.chan ==> FLUSH in d.chan;
  }

  lemma StepKeepsHanded(rule: AckRule, c: Conn, s: Step)
    requires QueueInv(c.r) && HandedInv(c) && Enabled(c, s)
    requires !Do(rule, FlushThenStore, c, s).r.done
    ensures HandedInv(Do(rule, FlushThenStore, c, s))
  {
    var d := Do(rule, FlushThenStore, c, s);
    match s
    case Recv(choice) => RecvKeepsHanded(rule, c, choice);
    case OpenEnd => StoreKeepsHanded(c, true);
    case CloseGate => StoreKeepsHanded(c, false);
    case OpenBegin =>
      assert d.chan[|d.chan| - 1] == FLUSH;
      PutKeepsHanded(c, d);
    case _ => PutKeepsHanded(c, d);
  }

  /**
   A message handed over from a predecessor, and not queued again here, has been written on this
   connection exactly when a FLUSH has been served on it.
   */
  lemma HandedOverExactly(c: Conn, k: string)
    requires BaseInv(c) && HandedInv(c) && !c.r.done && k in c.r.queue
    requires forall j :: 0 <= j < |c.r.log| ==> !QueuesKey(c.r.log[j], k)
    ensures (exists j :: 0 <= j < |c.r.log| && WritesKey(c.r.log[j], k)) <==> FlushDone in c.r.log
  {
    var log := c.r.log;
    if FlushDone in log {
      assert Seen(log, k);
      var j: nat :| j < |log| && (QueuesKey(log[j], k) || WritesKey(log[j], k));
      assert WritesKey(log[j], k);
    }
    if exists j :: 0 <= j < |log| && WritesKey(log[j], k) {
      var j :| 0 <= j < |log| && WritesKey(log[j], k);
      if log[j].Live? {
        LiveWasQueued(log, j, k);
      }
    }
  }

  /** A key is written on arrival only when it was just queued. */
  lemma LiveWasQueued(log: seq<Entry>, j: nat, k: string)
    requires WritesExplained(log) && j < |log| && WritesKey(log[j], k) && log[j].Live?
    ensures exists i :: 0 <= i < |log| && QueuesKey(log[i], k)
  {
    assert QueuesKey(log[j - 1], k);
  }

  lemma DoneStays(rule: AckRule, order: OpenOrder, c: Conn, s: Step)
    requires Enabled(c, s) && c.r.done
    ensures Do(rule, order, c, s).r.done
  {
  }

  lemma StartedInvs(c: Conn)
    requires Started(c)
    ensures BaseInv(c) && CodeInv(c) && HandedInv(c) && FixedInv(c)
  {
  }

  lemma {:induction false} CodeRunKeepsInvs(rule: AckRule, c: Conn, steps: seq<Step>, d: Conn)
    requires BaseInv(c) && (!c.r.done ==> CodeInv(c) && HandedInv(c))
    requires Runs(rule, FlushThenStore, c, steps, d)
    ensures BaseInv(d) && (!d.r.done ==> CodeInv(d) && HandedInv(d))
    decreases |steps|
  {
    if steps != [] {
      var next := Do(rule, FlushThenStore, c, steps[0]);
      StepKeepsBase(rule, FlushThenStore, c, steps[0]);
      if !next.r.done {
        if c.r.done {
          DoneStays(rule, FlushThenStore, c, steps[0]);
        }
        StepKeepsCodeInv(rule, c, steps[0]);
        StepKeepsHanded(rule, c, steps[0]);
      }
      CodeRunKeepsInvs(rule, next, steps[1..], d);
    }
  }

  /**
   Every run of the program. A message accepted and not yet written was accepted with the gate
   closed and after the last FLUSH served; and once the gate is open with no FLUSH left on the
   channel, it arrived between a FLUSH and the gate store belonging to it.
   */
  lemma WaitingMessages(rule: AckRule, c: Conn, steps: seq<Step>, d: Conn, i: nat, k: string)
    requires Started(c) && Runs(rule, FlushThenStore, c, steps, d) && !d.r.done
    requires k in d.r.queue && Unwritten(d.r.log, i, k)
    ensures !d.r.log[i].gate && forall j :: i < j < |d.r.log| ==> d.r.log[j] != FlushDone
    ensures d.gate && FLUSH !in d.chan ==> InWindow(d.r.log, i)
  {
    StartedInvs(c);
    CodeRunKeepsInvs(rule, c, steps, d);
    assert SinceFlush(d.r.log, i);
  }

  /**
   Conversely, whatever arrives in that window and is not flushed, acknowledged or sent again
   later stays unwritten although the gate is open.
   */
  lemma WindowArrivalIsStuck(rule: AckRule, c: Conn, steps: seq<Step>, d: Conn, i: nat, k: string)
    requires Started(c) && Runs(rule, FlushThenStore, c, steps, d) && !d.r.done
    requires k in d.r.queue && i < |d.r.log| && QueuesKey(d.r.log[i], k)
    requires forall j :: i < j < |d.r.log| ==> !QueuesKey(d.r.log[j], k)
    requires d.gate && FLUSH !in d.chan
    ensures Unwritten(d.r.log, i, k)
            <==> !d.r.log[i].gate && InWindow(d.r.log, i) && forall j :: i < j < |d.r.log| ==> d.r.log[j] != FlushDone
  {
    StartedInvs(c);
    CodeRunKeepsInvs(rule, c, steps, d);
    UnwrittenExactly(d, i, k);
  }

  /**
   What a predecessor handed over does not wait: with the gate open and no FLUSH left on the
   channel, every queued message has been queued or written on this connection.
   */
  lemma NothingHandedOverWaits(rule: AckRule, c: Conn, steps: seq<Step>, d: Conn, k: string)
    requires Started(c) && Runs(rule, FlushThenStore, c, steps, d) && !d.r.done
    requires d.gate && FLUSH !in d.chan && k in d.r.queue
    ensures Seen(d.r.log, k)
  {
    StartedInvs(c);
    CodeRunKeepsInvs(rule, c, steps, d);
  }

  /** Such a run: the FLUSH is served, a payload arrives, then the gate opens, and it is never written. */
  lemma StuckExample(rule: AckRule, c: Conn, m: Message)
    requires Started(c) && c.chan == [] && c.r == State(0, map[], [], [], false, false)
    ensures var none := Choice([], 1);
            var steps := [OpenBegin, Recv(none), RouterPut(Deliver(m)), Recv(none), OpenEnd];
            var log := [FlushDone, Queued(m, false), GateStored(true)];
            var d := Conn(State(m.ts, map[Key(m) := m], log, [], false, false), [], true, false);
            && Runs(rule, FlushThenStore, c, steps, d)
            && Unwritten(log, 1, Key(m))
  {
    var none := Choice([], 1);
    var c1 := Do(rule, FlushThenStore, c, OpenBegin);
    assert c1.chan == [FLUSH];
    assert Legal(c1.r, FLUSH, none);
    var c2 := Do(rule, FlushThenStore, c1, Recv(none));
    assert c2.r.log == [FlushDone] && c2.chan == [];
    var c3 := Do(rule, FlushThenStore, c2, RouterPut(Deliver(m)));
    assert c3.chan == [Deliver(m)];
    var c4 := Do(rule, FlushThenStore, c3, Recv(none));
    assert c4.r.log == [FlushDone, Queued(m, false)] && c4.chan == [];
    assert c4.r.queue == map[Key(m) := m];
    var c5 := Do(rule, FlushThenStore, c4, OpenEnd);
    assert c5.r.log == [FlushDone, Queued(m, false), GateStored(true)];
    RunsFive(rule, c, OpenBegin, Recv(none), RouterPut(Deliver(m)), Recv(none), OpenEnd);
  }

  lemma RunsFive(rule: AckRule, c: Conn, s1: Step, s2: Step, s3: Step, s4: Step, s5: Step)
    requires Enabled(c, s1)
    requires var c1 := Do(rule, FlushThenStore, c, s1); Enabled(c1, s2)
    requires var c2 := Do(rule, FlushThenStore, Do(rule, FlushThenStore, c, s1), s2); Enabled(c2, s3)
    requires var c3 := Do(rule, FlushThenStore, Do(rule, FlushThenStore, Do(rule, FlushThenStore, c, s1), s2), s3);
             Enabled(c3, s4) && Enabled(Do(rule, FlushThenStore, c3, s4), s5)
    ensures var c3 := Do(rule, FlushThenStore, Do(rule, FlushThenStore, Do(rule, FlushThenStore, c, s1), s2), s3);
            Runs(rule, FlushThenStore, c, [s1, s2, s3, s4, s5],
                 Do(rule, FlushThenStore, Do(rule, FlushThenStore, c3, s4), s5))
  {
    var c1 := Do(rule, FlushThenStore, c, s1);
    var c2 := Do(rule, FlushThenStore, c1, s2);
    var c3 := Do(rule, FlushThenStore, c2, s3);
    var c4 := Do(rule, FlushThenStore, c3, s4);
    var c5 := Do(rule, FlushThenStore, c4, s5);
    assert [s1, s2, s3, s4, s5][1..] == [s2, s3, s4, s5];
    assert [s2, s3, s4, s5][1..] == [s3, s4, s5];
    assert [s3, s4, s5][1..] == [s4, s5];
    assert [s4, s5][1..] == [s5];
    assert Runs(rule, FlushThenStore, c4, [s5], c5);
    assert Runs(rule, FlushThenStore, c3, [s4, s5], c5);
    assert Runs(rule, FlushThenStore, c2, [s3, s4, s5], c5);
  }

  // ---- the opposite order ----------------------------------------------------------------

  ghost predicate FixedInv(c: Conn) {
    && (c.opening ==> c.gate)
    && (c.gate && !c.opening && FLUSH !in c.chan ==>
          forall i: nat :: i < |c.r.log| ==> !SinceFlush(c.r.log, i))
  }

  lemma StepKeepsFixedInv(rule: AckRule, c: Conn, s: Step)
    requires FixedInv(c) && Enabled(c, s)
    requires !Do(rule, StoreThenFlush, c, s).r.done
    ensures FixedInv(Do(rule, StoreThenFlush, c, s))
  {
    var d := Do(rule, StoreThenFlush, c, s);
    if s.Recv? {
      RecvKeepsFixedInv(rule, c, s.c);
    } else if !s.OpenBegin? && !s.CloseGate? {
      assert d.r == c.r && c.chan <= d.chan;
      assert FLUSH in c.chan ==> FLUSH in d.chan;
      assert s.OpenEnd? ==> d.chan[|d.chan| - 1] == FLUSH;
    }
  }

  lemma RecvKeepsFixedInv(rule: AckRule, c: Conn, choice: Choice)
    requires FixedInv(c) && Enabled(c, Recv(choice))
    requires !Do(rule, StoreThenFlush, c, Recv(choice)).r.done
    ensures FixedInv(Do(rule, StoreThenFlush, c, Recv(choice)))
  {
    var item := c.chan[0];
    var d := Do(rule, StoreThenFlush, c, Recv(choice));
    var log, added := c.r.log, Added(c.r, item, c.gate, choice);
    var l := log + added;
    LogGrowsBy(rule, c.r, item, c.gate, choice);
    AddedNoStore(c.r, item, c.gate, choice);
    assert c.chan == [item] + d.chan;
    if item == FLUSH {
      ServedFlush(c.r, c.gate, choice);
    }
    if c.gate && !d.opening && FLUSH !in d.chan {
      forall i: nat | i < |l| ensures !SinceFlush(l, i) {
        if i < |log| {
          if SinceFlush(l, i) {
            SinceFlushBefore(log, added, i);
          }
        } else {
          assert l[i] == added[i - |log|];
        }
      }
    }
  }

  lemma {:induction false} FixedRunKeepsInvs(rule: AckRule, c: Conn, steps: seq<Step>, d: Conn)
    requires BaseInv(c) && (!c.r.done ==> FixedInv(c))
    requires Runs(rule, StoreThenFlush, c, steps, d)
    ensures BaseInv(d) && (!d.r.done ==> FixedInv(d))
    decreases |steps|
  {
    if steps != [] {
      var next := Do(rule, StoreThenFlush, c, steps[0]);
      StepKeepsBase(rule, StoreThenFlush, c, steps[0]);
      if !next.r.done {
        if c.r.done {
          DoneStays(rule, StoreThenFlush, c, steps[0]);
        }
        StepKeepsFixedInv(rule, c, steps[0]);
      }
      FixedRunKeepsInvs(rule, next, steps[1..], d);
    }
  }

  /** Storing the gate before sending FLUSH leaves nothing behind: no run ends with a stuck message. */
  lemma NothingStuckWhenStoredFirst(rule: AckRule, c: Conn, steps: seq<Step>, d: Conn, i: nat, k: string)
    requires Started(c) && Runs(rule, StoreThenFlush, c, steps, d) && !d.r.done
    requires d.gate && !d.opening && FLUSH !in d.chan
    requires k in d.r.queue && i < |d.r.log| && QueuesKey(d.r.log[i], k)
    ensures !Unwritten(d.r.log, i, k)
  {
    StartedInvs(c);
    FixedRunKeepsInvs(rule, c, steps, d);
    assert !SinceFlush(d.r.log, i);
  }
}
