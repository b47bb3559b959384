/** What one receiver keeps, whatever items, gate values and write failures it meets. */
module ReceiverLaws {
  import opened Bytes
  import opened Messages
  import opened Receiver

  // ---- invariants of the queue -----------------------------------------------------------

  /** Every entry is queued under its own key and is no newer than last_timestamp. */
  ghost predicate QueueInv(s: State) {
    forall k :: k in s.queue ==> Key(s.queue[k]) == k && s.queue[k].ts <= s.ts
  }

  lemma KeyIsNotEmpty(m: Message)
    ensures Key(m) != ""
  {
    AckIsNoCommand(m.sig, m.ts);
  }

  /** The empty text, which the program deletes for every acknowledgement, is never a key. */
  lemma EmptyKeyNeverQueued(s: State)
    requires QueueInv(s)
    ensures "" !in s.queue
  {
    if "" in s.queue {
      KeyIsNotEmpty(s.queue[""]);
    }
  }

  /**
   One item keeps the invariant, never lowers last_timestamp, and removes at most the key its
   acknowledgement names; as written, acknowledgements remove nothing.
   */
  lemma ReceiveKeepsQueue(rule: AckRule, s: State, item: Item, gate: bool, c: Choice)
    requires QueueInv(s) && Legal(s, item, c)
    ensures var t := Receive(rule, s, item, gate, c);
            && QueueInv(t)
            && s.ts <= t.ts
            && (forall k :: k in s.queue && k !in t.queue ==> rule == AsDocumented && item == Comm(k))
            && (forall k :: k in t.queue && k !in s.queue ==> item.Deliver? && k == Key(item.m))
  {
    EmptyKeyNeverQueued(s);
  }

  /** As written an acknowledgement changes nothing at all; as documented it removes its message. */
  lemma AckEffect(s: State, sig: string, ts: int, gate: bool, c: Choice)
    requires QueueInv(s)
    requires forall k :: k in s.queue ==> |s.queue[k].sig| == |sig|
    ensures var ack := Comm(AckText(sig, ts));
            && Legal(s, ack, c)
            && Receive(AsWritten, s, ack, gate, c) == s
            && Receive(AsDocumented, s, ack, gate, c)
               == s.(queue := map k | k in s.queue && !(s.queue[k].sig == sig && s.queue[k].ts == ts) :: s.queue[k])
  {
    var ack := AckText(sig, ts);
    AckIsNoCommand(sig, ts);
    EmptyKeyNeverQueued(s);
    assert s.queue - {""} == s.queue;
    forall k | k in s.queue ensures k == ack <==> s.queue[k].sig == sig && s.queue[k].ts == ts {
      AckMatchesKey(sig, ts, s.queue[k].sig, s.queue[k].ts);
    }
    assert s.queue - {ack}
        == map k | k in s.queue && !(s.queue[k].sig == sig && s.queue[k].ts == ts) :: s.queue[k];
  }

  /** So, as written, "an acknowledged message has left the queue" holds exactly when it was not there. */
  lemma AckAsWrittenFails(s: State, m: Message, gate: bool, c: Choice)
    requires QueueInv(s)
    ensures var ack := Comm(AckText(m.sig, m.ts));
            && Legal(s, ack, c)
            && (Key(m) !in Receive(AsWritten, s, ack, gate, c).queue <==> Key(m) !in s.queue)
            && Key(m) !in Receive(AsDocumented, s, ack, gate, c).queue
  {
    AckIsNoCommand(m.sig, m.ts);
    EmptyKeyNeverQueued(s);
  }

  /**
   Over a whole run as written, nothing that was ever queued leaves the queue, and every atomic
   payload served is in it.
   */
  lemma {:induction false} AsWrittenQueueOnlyGrows(s: State, items: seq<(Item, bool, nat)>, choices: seq<Choice>)
    requires QueueInv(s) && Fits(AsWritten, s, items, choices)
    ensures var t := ReceiveAll(AsWritten, s, items, choices);
            && QueueInv(t)
            && s.ts <= t.ts
            && s.queue.Keys <= t.queue.Keys
            && forall i :: 0 <= i < Served(AsWritten, s, items, choices) && IsAtomic(items[i].0) ==>
                 Key(items[i].0.m) in t.queue
    decreases |items|
  {
    if items != [] && !s.done {
      var item, gate := items[0].0, items[0].1;
      ReceiveKeepsQueue(AsWritten, s, item, gate, choices[0]);
      var t := Receive(AsWritten, s, item, gate, choices[0]);
      AsWrittenQueueOnlyGrows(t, items[1..], choices[1..]);
      assert forall i :: 1 <= i < |items| ==> items[i] == items[1..][i - 1];
    }
  }

  predicate IsAtomic(item: Item) {
    item.Deliver? && item.m.atomic
  }

  // ---- the queue, kept by signature and timestamp ----------------------------------------

  /** The receiver's clock and queue, had it been keyed by signature and timestamp. */
  datatype IdQueue = IdQueue(ts: nat, messages: map<Id, Message>)

  ghost function IdStep(rule: AckRule, q: IdQueue, item: Item, gate: bool): IdQueue {
    match item
    case Deliver(m) =>
      if m.ts <= q.ts && !m.atomic && gate then q
      else IdQueue(Max(q.ts, m.ts), q.messages[(m.sig, m.ts) := m])
    case Comm(text) => if rule == AsDocumented then q.(messages := Forget(q.messages, Named(text))) else q
    case _ => q
  }

  ghost function IdRun(rule: AckRule, q: IdQueue, items: seq<(Item, bool, nat)>): IdQueue
    decreases |items|
  {
    if items == [] then q else IdRun(rule, IdStep(rule, q, items[0].0, items[0].1), items[1..])
  }

  ghost predicate Refines(s: State, q: IdQueue) {
    s.ts == q.ts && Represents(s.queue, q.messages)
  }

  /** Payloads carry signatures as the API makes them. */
  predicate Signed(item: Item) {
    item.Deliver? ==> |item.m.sig| == SIGNATURE_LENGTH
  }

  lemma StepRefinesIds(rule: AckRule, s: State, q: IdQueue, item: Item, gate: bool, c: Choice)
    requires Refines(s, q) && Legal(s, item, c) && Signed(item)
    ensures Refines(Receive(rule, s, item, gate, c), IdStep(rule, q, item, gate))
  {
    match item
    case Deliver(m) =>
      QueueRefinesIds(s.queue, q.messages, m);
    case Comm(text) =>
      AckNames("", 0);
      AckRefinesIds(s.queue, q.messages, AckedKey(rule, text));
    case _ =>
  }

  /**
   Over any run, acknowledgements of any text included: the text-keyed queue is the one kept by
   signature and timestamp, given the items served.
   */
  lemma {:induction false} RunRefinesIds(rule: AckRule, s: State, q: IdQueue, items: seq<(Item, bool, nat)>,
                                         choices: seq<Choice>)
    requires Refines(s, q) && Fits(rule, s, items, choices)
    requires forall i :: 0 <= i < |items| ==> Signed(items[i].0)
    ensures Refines(ReceiveAll(rule, s, items, choices),
                    IdRun(rule, q, items[..Served(rule, s, items, choices)]))
    decreases |items|
  {
    if items != [] && !s.done {
      var item, gate := items[0].0, items[0].1;
      var next := Receive(rule, s, item, gate, choices[0]);
      assert Signed(items[0].0);
      StepRefinesIds(rule, s, q, item, gate, choices[0]);
      RunRefinesIds(rule, next, IdStep(rule, q, item, gate), items[1..], choices[1..]);
      var n := Served(rule, next, items[1..], choices[1..]);
      assert items[..n + 1][1..] == items[1..][..n];
    }
  }

  // ---- FLUSH -----------------------------------------------------------------------------

  lemma {:induction false} DistinctCover(order: seq<string>, keys: set<string>)
    requires Distinct(order) && forall k :: k in keys <==> k in order
    ensures |order| == |keys|
  {
    if order == [] {
      assert keys == {};
    } else {
      var n := |order| - 1;
      var rest := keys - {order[n]};
      assert order == order[..n] + [order[n]];
      DistinctCover(order[..n], rest);
    }
  }

  /**
   A FLUSH whose writes succeed writes each queued message exactly once, in non-decreasing
   timestamp order, leaves the queue alone, and reports it done.
   */
  lemma FlushWritesEachOnce(rule: AckRule, s: State, gate: bool, c: Choice)
    requires Legal(s, FLUSH, c) && Writes(s, c.ok) >= |s.queue|
    ensures var t := Receive(rule, s, FLUSH, gate, c);
            var added := Added(s, FLUSH, gate, c);
            && t == s.(log := s.log + added)
            && EachOnce(added, c.order, s.queue)
  {
    DistinctCover(c.order, s.queue.Keys);
  }

  /** added is the queue's messages, each once and in timestamp order, then FlushDone. */
  ghost predicate EachOnce(added: seq<Entry>, order: seq<string>, q: map<string, Message>) {
    && |order| == |q| && |added| == |q| + 1 && added[|q|] == FlushDone
    && Distinct(order)
    && (forall k :: k in q ==> k in order)
    && (forall i :: 0 <= i < |order| ==> order[i] in q && added[i] == Flushed(q[order[i]]))
    && (forall i, j :: 0 <= i < j < |order| && added[i].Flushed? && added[j].Flushed? ==>
          added[i].m.ts <= added[j].m.ts)
  }

  // ---- accounting ------------------------------------------------------------------------

  predicate Accounts(e: Entry) {
    e.Queued? || e.Refused?
  }

  /** The accounts of a log, in order. */
  function AccountsOf(log: seq<Entry>): (accounts: seq<Entry>)
    ensures forall i :: 0 <= i < |accounts| ==> Accounts(accounts[i])
  {
    if log == [] then []
    else AccountsOf(log[..|log| - 1]) + if Accounts(log[|log| - 1]) then [log[|log| - 1]] else []
  }

  lemma {:induction false} AccountsConcat(a: seq<Entry>, b: seq<Entry>)
    ensures AccountsOf(a + b) == AccountsOf(a) + AccountsOf(b)
  {
    if b == [] {
      assert a + b == a;
    } else {
      assert (a + b)[..|a + b| - 1] == a + b[..|b| - 1];
      AccountsConcat(a, b[..|b| - 1]);
    }
  }

  lemma {:induction false} NoAccounts(log: seq<Entry>)
    requires forall i :: 0 <= i < |log| ==> !Accounts(log[i])
    ensures AccountsOf(log) == []
  {
    if log != [] {
      NoAccounts(log[..|log| - 1]);
    }
  }

  lemma LogGrowsBy(rule: AckRule, s: State, item: Item, gate: bool, c: Choice)
    requires Legal(s, item, c)
    ensures Receive(rule, s, item, gate, c).log == s.log + Added(s, item, gate, c)
  {
  }

  lemma OthersDoNotAccount(s: State, item: Item, gate: bool, c: Choice)
    requires Legal(s, item, c) && !item.Deliver?
    ensures AccountsOf(Added(s, item, gate, c)) == []
  {
    if item == FLUSH {
      NoAccounts(FlushAdded(s, c.order, c.ok));
    } else {
      NoAccounts(Added(s, item, gate, c));
    }
  }

  lemma DeliverAccounts(s: State, m: Message, gate: bool, ok: nat)
    ensures AccountsOf(DeliverAdded(s, m, gate, ok)) == [DeliverAdded(s, m, gate, ok)[0]]
  {
    var added := DeliverAdded(s, m, gate, ok);
    var first := [added[0]];
    assert first[..0] == [];
    NoAccounts(added[1..]);
    AccountsConcat(first, added[1..]);
    assert added == first + added[1..];
  }

  /** A payload that came in, with the gate value read for it and the writes that would succeed. */
  datatype Arrival = Arrival(m: Message, gate: bool, ok: nat)

  function ArrivalOf(item: Item, gate: bool, ok: nat): seq<Arrival> {
    if item.Deliver? then [Arrival(item.m, gate, ok)] else []
  }

  function Arrivals(items: seq<(Item, bool, nat)>): seq<Arrival> {
    if items == [] then []
    else ArrivalOf(items[0].0, items[0].1, items[0].2) + Arrivals(items[1..])
  }

  /** Arrival i is no newer than the clock the run began with, or than one that came before it. */
  ghost predicate Overtaken(clock: nat, came: seq<Arrival>, i: nat)
    requires i < |came|
  {
    came[i].m.ts <= clock || exists j :: 0 <= j < i && came[i].m.ts <= came[j].m.ts
  }

  /** The kinds of message the API sends (messages/message_func.go). */
  predicate ApiKind(m: Message) {
    (200 <= m.op <= 202 && !m.atomic) || (m.op == 300 && m.atomic)
  }

  /**
   The one account of arrival i. It is refused exactly when the gate is open, it is not atomic and
   has been overtaken; it is queued otherwise. Refused, it gets the notice 3101 for ops 200..299, 3102
   for 300..399 and none for others, so 3101 for every kind the API sends; while the connection is
   open the notice is written exactly when the write succeeds.
   */
  ghost predicate Settles(e: Entry, clock: nat, came: seq<Arrival>, i: nat, open: bool)
    requires i < |came|
  {
    var a := came[i];
    && (e.Queued? || e.Refused?)
    && (e.Refused? <==> a.gate && !a.m.atomic && Overtaken(clock, came, i))
    && (e.Queued? ==> e == Queued(a.m, a.gate))
    && (e.Refused? ==>
          && e.m == a.m
          && e.notice == (if 200 <= a.m.op <= 299 then Some(3101)
                          else if 300 <= a.m.op <= 399 then Some(3102)
                          else None)
          && (ApiKind(a.m) ==> e.notice == Some(3101))
          && (e.sent ==> e.notice.Some?)
          && (open && e.notice.Some? ==> (e.sent <==> a.ok > 0)))
  }

  /** These accounts settle these arrivals, one each and in order. */
  ghost predicate AllSettled(accounts: seq<Entry>, clock: nat, came: seq<Arrival>, open: bool) {
    && |accounts| == |came|
    && forall i: nat :: i < |came| ==> Settles(accounts[i], clock, came, i, open)
  }

  /** The clock may be moved past a first arrival. */
  lemma OvertakenTail(clock: nat, a: Arrival, came: seq<Arrival>, i: nat)
    requires i < |came|
    ensures Overtaken(clock, [a] + came, i + 1) <==> Overtaken(Max(clock, a.m.ts), came, i)
  {
    var all := [a] + came;
    assert all[0] == a && all[i + 1] == came[i];
    assert forall j :: 0 <= j < i ==> all[j + 1] == came[j];
    if Overtaken(clock, all, i + 1) && !(all[i + 1].m.ts <= clock) {
      var j :| 0 <= j < i + 1 && all[i + 1].m.ts <= all[j].m.ts;
      assert j > 0 ==> came[i].m.ts <= came[j - 1].m.ts;
    }
    if Overtaken(Max(clock, a.m.ts), came, i) && !(came[i].m.ts <= Max(clock, a.m.ts)) {
      var j :| 0 <= j < i && came[i].m.ts <= came[j].m.ts;
      assert all[i + 1].m.ts <= all[j + 1].m.ts;
    }
  }

  lemma SettledCons(e: Entry, accounts: seq<Entry>, clock: nat, a: Arrival, came: seq<Arrival>, open: bool)
    requires Settles(e, clock, [a] + came, 0, open)
    requires AllSettled(accounts, Max(clock, a.m.ts), came, open)
    ensures AllSettled([e] + accounts, clock, [a] + came, open)
  {
    var both, all := [e] + accounts, [a] + came;
    forall i: nat | i < |both| ensures Settles(both[i], clock, all, i, open) {
      if i > 0 {
        assert both[i] == accounts[i - 1] && all[i] == came[i - 1];
        OvertakenTail(clock, a, came, i - 1);
        assert Settles(accounts[i - 1], Max(clock, a.m.ts), came, i - 1, open);
      }
    }
  }

  /** A closed connection stays closed. */
  lemma {:induction false} ClosedStays(rule: AckRule, s: State, items: seq<(Item, bool, nat)>, choices: seq<Choice>)
    requires Fits(rule, s, items, choices)
    ensures s.wsClosed ==> ReceiveAll(rule, s, items, choices).wsClosed
    decreases |items|
  {
    if items != [] && !s.done {
      ClosedStays(rule, Receive(rule, s, items[0].0, items[0].1, choices[0]), items[1..], choices[1..]);
    }
  }

  lemma ArrivalSettles(s: State, m: Message, gate: bool, ok: nat, rest: seq<Arrival>, open: bool)
    requires open ==> !s.wsClosed
    ensures Settles(DeliverAdded(s, m, gate, ok)[0], s.ts, [Arrival(m, gate, ok)] + rest, 0, open)
  {
  }

  /** after is before with one more account for each arrival. */
  ghost predicate Accounted(before: seq<Entry>, after: seq<Entry>, clock: nat, came: seq<Arrival>, open: bool) {
    exists accounts :: AccountedBy(accounts, before, after, clock, came, open)
  }

  ghost predicate AccountedBy(accounts: seq<Entry>, before: seq<Entry>, after: seq<Entry>, clock: nat,
                              came: seq<Arrival>, open: bool) {
    after == before + accounts && AllSettled(accounts, clock, came, open)
  }

  lemma NothingToAccount(accounts: seq<Entry>, clock: nat, open: bool)
    ensures Accounted(accounts, accounts, clock, [], open)
  {
    assert AccountedBy([], accounts, accounts, clock, [], open);
  }

  lemma AccountedCons(before: seq<Entry>, e: Entry, after: seq<Entry>, clock: nat, a: Arrival,
                      came: seq<Arrival>, open: bool)
    requires Settles(e, clock, [a] + came, 0, open)
    requires Accounted(before + [e], after, Max(clock, a.m.ts), came, open)
    ensures Accounted(before, after, clock, [a] + came, open)
  {
    var later :| AccountedBy(later, before + [e], after, Max(clock, a.m.ts), came, open);
    SettledCons(e, later, clock, a, came, open);
    Associate(before, e, later);
    assert AccountedBy([e] + later, before, after, clock, [a] + came, open);
  }

  lemma Associate(before: seq<Entry>, e: Entry, later: seq<Entry>)
    ensures (before + [e]) + later == before + ([e] + later)
  {
  }

  /** One item adds one account exactly when it is a payload, and only a payload moves the clock. */
  lemma StepAccounts(rule: AckRule, s: State, item: Item, gate: bool, c: Choice)
    requires Legal(s, item, c)
    ensures var t := Receive(rule, s, item, gate, c);
            && AccountsOf(t.log)
               == AccountsOf(s.log) + (if item.Deliver? then [DeliverAdded(s, item.m, gate, c.ok)[0]] else [])
            && t.ts == (if item.Deliver? then Max(s.ts, item.m.ts) else s.ts)
            && (s.wsClosed ==> t.wsClosed)
  {
    LogGrowsBy(rule, s, item, gate, c);
    AccountsConcat(s.log, Added(s, item, gate, c));
    if item.Deliver? {
      DeliverAccounts(s, item.m, gate, c.ok);
    } else {
      OthersDoNotAccount(s, item, gate, c);
    }
  }

  /** What is accounted for after an item is, with that item, accounted for before it. */
  lemma AccountItem(rule: AckRule, s: State, item: Item, gate: bool, c: Choice, after: seq<Entry>,
                    came: seq<Arrival>, open: bool)
    requires Legal(s, item, c) && (open ==> !s.wsClosed)
    requires var t := Receive(rule, s, item, gate, c);
             Accounted(AccountsOf(t.log), after, t.ts, came, open)
    ensures Accounted(AccountsOf(s.log), after, s.ts, ArrivalOf(item, gate, c.ok) + came, open)
  {
    StepAccounts(rule, s, item, gate, c);
    if item.Deliver? {
      ArrivalSettles(s, item.m, gate, c.ok, came, open);
      AccountedCons(AccountsOf(s.log), DeliverAdded(s, item.m, gate, c.ok)[0], after, s.ts,
                    Arrival(item.m, gate, c.ok), came, open);
    } else {
      assert AccountsOf(s.log) + [] == AccountsOf(s.log);
      assert [] + came == came;
    }
  }

  /** The payloads a run serves. */
  ghost function Came(rule: AckRule, s: State, items: seq<(Item, bool, nat)>, choices: seq<Choice>): seq<Arrival>
    requires Fits(rule, s, items, choices)
  {
    Arrivals(items[..Served(rule, s, items, choices)])
  }

  lemma CameCons(rule: AckRule, s: State, items: seq<(Item, bool, nat)>, choices: seq<Choice>)
    requires Fits(rule, s, items, choices) && items != [] && !s.done
    ensures Came(rule, s, items, choices)
            == ArrivalOf(items[0].0, items[0].1, items[0].2)
               + Came(rule, Receive(rule, s, items[0].0, items[0].1, choices[0]), items[1..], choices[1..])
  {
    var n := Served(rule, Receive(rule, s, items[0].0, items[0].1, choices[0]), items[1..], choices[1..]);
    assert items[..n + 1][1..] == items[1..][..n];
  }

  /**
   Total accounting, over any run: the log gains exactly one account for each payload served, in
   order, and each is settled by what came in alone.
   */
  lemma {:induction false} EveryPayloadIsAccounted(rule: AckRule, s: State, items: seq<(Item, bool, nat)>,
                                                   choices: seq<Choice>)
    requires Fits(rule, s, items, choices)
    ensures var t := ReceiveAll(rule, s, items, choices);
            Accounted(AccountsOf(s.log), AccountsOf(t.log), s.ts, Came(rule, s, items, choices), !t.wsClosed)
    decreases |items|
  {
    var t := ReceiveAll(rule, s, items, choices);
    if items == [] || s.done {
      NothingToAccount(AccountsOf(s.log), s.ts, !t.wsClosed);
    } else {
      var next := Receive(rule, s, items[0].0, items[0].1, choices[0]);
      EveryPayloadIsAccounted(rule, next, items[1..], choices[1..]);
      ClosedStays(rule, s, items, choices);
      CameCons(rule, s, items, choices);
      AccountItem(rule, s, items[0].0, items[0].1, choices[0], AccountsOf(t.log),
                  Came(rule, next, items[1..], choices[1..]), !t.wsClosed);
    }
  }

  /**
   What one payload leaves: the later of the two timestamps, and a queue that has gained it under
   its key, or is as before when it was stale, not atomic and met an open gate.
   */
  lemma PayloadOutcome(rule: AckRule, s: State, m: Message, gate: bool, c: Choice)
    ensures var t := Receive(rule, s, Deliver(m), gate, c);
            && s.ts <= t.ts && m.ts <= t.ts && (t.ts == s.ts || t.ts == m.ts)
            && (m.ts <= s.ts && !m.atomic && gate ==> t.queue == s.queue)
            && (!(m.ts <= s.ts && !m.atomic && gate) ==>
                  && t.queue.Keys == s.queue.Keys + {Key(m)} && t.queue[Key(m)] == m
                  && forall k :: k in s.queue && k != Key(m) ==> t.queue[k] == s.queue[k])
  {
  }

  // ---- messages written as they arrive ---------------------------------------------------

  /**
   A message that is not atomic and was queued with the gate open is newer than everything queued
   before it on this connection; what is written as it arrives was queued just before.
   */
  ghost predicate LiveInOrder(s: State) {
    && (forall i :: 0 <= i < |s.log| && s.log[i].Queued? ==> s.log[i].m.ts <= s.ts)
    && (forall i, j :: 0 <= j < i < |s.log| && Fresh(s.log[i]) && s.log[j].Queued? ==>
          s.log[j].m.ts < s.log[i].m.ts)
    && (forall i :: 0 <= i < |s.log| && s.log[i].Live? ==> i > 0 && s.log[i - 1] == Queued(s.log[i].m, true))
  }

  predicate Fresh(e: Entry) {
    e.Queued? && e.gate && !e.m.atomic
  }

  lemma QuietItem(s: State, item: Item, gate: bool, c: Choice)
    requires Legal(s, item, c) && !item.Deliver?
    ensures forall e :: e in Added(s, item, gate, c) ==> !e.Queued? && !e.Live?
  {
  }

  lemma AppendQuiet(s: State, t: State, added: seq<Entry>)
    requires LiveInOrder(s) && t.log == s.log + added && s.ts <= t.ts
    requires forall e :: e in added ==> !e.Queued? && !e.Live?
    ensures LiveInOrder(t)
  {
    assert forall i :: |s.log| <= i < |t.log| ==> t.log[i] in added;
  }

  lemma ReceiveKeepsLiveOrder(rule: AckRule, s: State, item: Item, gate: bool, c: Choice)
    requires LiveInOrder(s) && Legal(s, item, c)
    ensures LiveInOrder(Receive(rule, s, item, gate, c))
  {
    var t := Receive(rule, s, item, gate, c);
    var added := Added(s, item, gate, c);
    LogGrowsBy(rule, s, item, gate, c);
    if item.Deliver? {
      DeliverKeepsLiveOrder(s, item.m, gate, c.ok);
    } else {
      QuietItem(s, item, gate, c);
      AppendQuiet(s, t, added);
    }
  }

  lemma AppendQueued(s: State, m: Message, gate: bool)
    requires LiveInOrder(s) && !Stale(s, m, gate)
    ensures LiveInOrder(s.(ts := Max(s.ts, m.ts), log := s.log + [Queued(m, gate)]))
  {
    var q := s.(ts := Max(s.ts, m.ts), log := s.log + [Queued(m, gate)]);
    assert forall i :: 0 <= i < |s.log| ==> q.log[i] == s.log[i];
  }

  lemma AppendLive(s: State, m: Message)
    requires LiveInOrder(s) && s.log != [] && s.log[|s.log| - 1] == Queued(m, true)
    ensures LiveInOrder(s.(log := s.log + [Live(m)]))
  {
    var l := s.log + [Live(m)];
    assert forall i :: 0 <= i < |s.log| ==> l[i] == s.log[i];
  }

  lemma DeliverKeepsLiveOrder(s: State, m: Message, gate: bool, ok: nat)
    requires LiveInOrder(s)
    ensures LiveInOrder(OnDeliver(s, m, gate, ok))
  {
    if Stale(s, m, gate) {
      AppendQuiet(s, OnDeliver(s, m, gate, ok), DeliverAdded(s, m, gate, ok));
    } else {
      AppendQueued(s, m, gate);
      var q := s.(ts := Max(s.ts, m.ts), log := s.log + [Queued(m, gate)]);
      if gate && Writes(s, ok) > 0 {
        AppendLive(q, m);
        assert s.log + [Queued(m, gate), Live(m)] == q.log + [Live(m)];
      }
    }
  }

  // ---- after the connection is closed ----------------------------------------------------

  predicate ReachesClient(e: Entry) {
    e.Live? || e.Flushed? || (e.Refused? && e.sent)
  }

  lemma {:induction false} ClosedReachesNobody(rule: AckRule, s: State, items: seq<(Item, bool, nat)>,
                                               choices: seq<Choice>)
    requires Fits(rule, s, items, choices) && s.wsClosed
    ensures var t := ReceiveAll(rule, s, items, choices);
            && t.wsClosed && s.log <= t.log
            && forall i :: |s.log| <= i < |t.log| ==> !ReachesClient(t.log[i])
    decreases |items|
  {
    if items != [] && !s.done {
      var t := Receive(rule, s, items[0].0, items[0].1, choices[0]);
      LogGrowsBy(rule, s, items[0].0, items[0].1, choices[0]);
      ClosedItem(rule, s, items[0].0, items[0].1, choices[0]);
      ClosedReachesNobody(rule, t, items[1..], choices[1..]);
      assert forall i :: |s.log| <= i < |t.log| ==>
               t.log[i] == Added(s, items[0].0, items[0].1, choices[0])[i - |s.log|];
    }
  }

  /** Handing over and op 32 close the connection; closed, an item adds nothing the client gets. */
  lemma ClosedItem(rule: AckRule, s: State, item: Item, gate: bool, c: Choice)
    requires Legal(s, item, c)
    ensures item.Handover? || item.Shut? || s.wsClosed ==> Receive(rule, s, item, gate, c).wsClosed
    ensures s.wsClosed ==>
              forall i :: 0 <= i < |Added(s, item, gate, c)| ==> !ReachesClient(Added(s, item, gate, c)[i])
  {
  }

  // ---- what can be waiting unwritten -----------------------------------------------------

  predicate WritesKey(e: Entry, k: string) {
    (e.Live? || e.Flushed?) && Key(e.m) == k
  }

  predicate QueuesKey(e: Entry, k: string) {
    e.Queued? && Key(e.m) == k
  }

  /** Entry i is the latest to queue key k, and nothing after it wrote that key to the client. */
  ghost predicate Unwritten(log: seq<Entry>, i: nat, k: string) {
    && i < |log| && QueuesKey(log[i], k)
    && forall j :: i < j < |log| ==> !WritesKey(log[j], k) && !QueuesKey(log[j], k)
  }

  /** Entry i was made with the gate closed, and no FLUSH was served since. */
  ghost predicate SinceFlush(log: seq<Entry>, i: nat)
    requires i < |log|
  {
    && log[i].Queued? && !log[i].gate
    && forall j :: i < j < |log| ==> log[j] != FlushDone
  }

  /** A queued message still unwritten was queued with the gate closed, after the last FLUSH. */
  ghost predicate WaitingInv(s: State) {
    forall i: nat, k: string :: Unwritten(s.log, i, k) && k in s.queue ==> SinceFlush(s.log, i)
  }

  lemma UnwrittenBefore(log: seq<Entry>, added: seq<Entry>, i: nat, k: string)
    requires Unwritten(log + added, i, k) && i < |log|
    ensures Unwritten(log, i, k)
    ensures forall e :: e in added ==> !WritesKey(e, k) && !QueuesKey(e, k)
  {
    assert forall j :: 0 <= j < |log| ==> (log + added)[j] == log[j];
    forall e | e in added ensures !WritesKey(e, k) && !QueuesKey(e, k) {
      var n :| 0 <= n < |added| && added[n] == e;
      assert (log + added)[|log| + n] == e;
    }
  }

  lemma SinceFlushAfter(log: seq<Entry>, added: seq<Entry>, i: nat)
    requires i < |log| && SinceFlush(log, i) && FlushDone !in added
    ensures SinceFlush(log + added, i)
  {
    assert forall j :: |log| <= j < |log + added| ==> (log + added)[j] in added;
  }

  /** A served FLUSH leaves nothing queued unwritten. */
  lemma FlushWritesKey(s: State, gate: bool, c: Choice, k: string)
    requires QueueInv(s) && Legal(s, FLUSH, c) && k in s.queue
    requires Writes(s, c.ok) >= |c.order|
    ensures exists e :: e in Added(s, FLUSH, gate, c) && WritesKey(e, k)
  {
    var n :| 0 <= n < |c.order| && c.order[n] == k;
    var e := Added(s, FLUSH, gate, c)[n];
    assert e == Flushed(s.queue[k]) && e in Added(s, FLUSH, gate, c);
  }

  lemma ReceiveKeepsWaiting(rule: AckRule, s: State, item: Item, gate: bool, c: Choice)
    requires QueueInv(s) && WaitingInv(s) && Legal(s, item, c)
    requires !Receive(rule, s, item, gate, c).done
    ensures WaitingInv(Receive(rule, s, item, gate, c))
  {
    var t := Receive(rule, s, item, gate, c);
    var added := Added(s, item, gate, c);
    LogGrowsBy(rule, s, item, gate, c);
    forall i: nat, k: string | Unwritten(t.log, i, k) && k in t.queue
      ensures SinceFlush(t.log, i)
    {
      if i < |s.log| {
        UnwrittenBefore(s.log, added, i, k);
        if item == FLUSH {
          FlushWritesKey(s, gate, c, k);
        }
        assert item.Deliver? && k == Key(item.m) && k !in s.queue ==> QueuesKey(added[0], k);
        assert k in s.queue;
        SinceFlushAfter(s.log, added, i);
      } else {
        NewIsSinceFlush(s, item, gate, c, i, k);
      }
    }
  }

  lemma NewIsSinceFlush(s: State, item: Item, gate: bool, c: Choice, i: nat, k: string)
    requires Legal(s, item, c)
    requires var log := s.log + Added(s, item, gate, c);
             |s.log| <= i < |log| && Unwritten(log, i, k)
    requires item.Deliver? && gate ==> Writes(s, c.ok) > 0
    ensures SinceFlush(s.log + Added(s, item, gate, c), i)
  {
    var added := Added(s, item, gate, c);
    var log := s.log + added;
    assert log[i] == added[i - |s.log|];
    if item.Deliver? && gate {
      LiveIsWritten(s, item.m, c.ok);
    }
  }

  /** With the gate open and the write succeeding, nothing just queued is unwritten. */
  lemma LiveIsWritten(s: State, m: Message, ok: nat)
    requires Writes(s, ok) > 0
    ensures var log := s.log + DeliverAdded(s, m, true, ok);
            forall i: nat, k: string :: |s.log| <= i ==> !Unwritten(log, i, k)
  {
    var log := s.log + DeliverAdded(s, m, true, ok);
    assert !Stale(s, m, true) ==> log[|s.log|] == Queued(m, true) && log[|s.log| + 1] == Live(m);
    assert Stale(s, m, true) ==> log[|s.log|].Refused?;
  }
}
