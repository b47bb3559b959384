/**
 What every kind of item leaves behind, and when a receiver ends: only at a client write that
 fails (socket/websocket.go:173-179, 244-250).
 */
module ReceiverEnds {
  import opened Messages
  import opened Codec
  import opened Receiver
  import opened ReceiverLaws

  /** The payload is queued, and not refused as stale. */
  predicate Accepts(s: State, m: Message, gate: bool) {
    m.ts > s.ts || m.atomic || !gate
  }

  /** A write this item needs fails: the connection is closed, or fewer writes go through. */
  predicate WriteFails(s: State, item: Item, gate: bool, ok: nat) {
    || (item == FLUSH && s.queue != map[] && (s.wsClosed || ok < |s.queue|))
    || (item.Deliver? && gate && Accepts(s, item.m, gate) && (s.wsClosed || ok == 0))
  }

  /**
   The receiver ends at an item exactly when a write fails that the item needs: one of the queue's
   for a FLUSH, the payload's own for one accepted at an open gate. Such a payload also closes the
   connection, as do op 30 and op 32, and nothing else does.
   */
  lemma EndsExactly(rule: AckRule, s: State, item: Item, gate: bool, c: Choice)
    requires Legal(s, item, c)
    ensures var t := Receive(rule, s, item, gate, c);
            && (t.done <==> s.done || WriteFails(s, item, gate, c.ok))
            && (t.wsClosed <==> || s.wsClosed || item.Handover? || item.Shut?
                                || (item.Deliver? && WriteFails(s, item, gate, c.ok)))
  {
    if item == FLUSH {
      DistinctCover(c.order, s.queue.Keys);
    }
  }

  /** No item of the run needs a write that fails. */
  ghost predicate NeverFails(rule: AckRule, s: State, items: seq<(Item, bool, nat)>, choices: seq<Choice>)
    requires Fits(rule, s, items, choices)
    decreases |items|
  {
    items != [] && !s.done ==>
      && !WriteFails(s, items[0].0, items[0].1, items[0].2)
      && NeverFails(rule, Receive(rule, s, items[0].0, items[0].1, choices[0]), items[1..], choices[1..])
  }

  /** A run leaves the receiver running exactly when no write failed, and then it served every item. */
  lemma {:induction false} RunEndsExactly(rule: AckRule, s: State, items: seq<(Item, bool, nat)>,
                                          choices: seq<Choice>)
    requires Fits(rule, s, items, choices) && !s.done
    ensures !ReceiveAll(rule, s, items, choices).done <==> NeverFails(rule, s, items, choices)
    ensures NeverFails(rule, s, items, choices) ==> Served(rule, s, items, choices) == |items|
    decreases |items|
  {
    if items != [] {
      var next := Receive(rule, s, items[0].0, items[0].1, choices[0]);
      EndsExactly(rule, s, items[0].0, items[0].1, choices[0]);
      if !next.done {
        RunEndsExactly(rule, next, items[1..], choices[1..]);
      }
    }
  }

  /** Neither op 30 nor op 32, and as many writes go through as the queue can ever need. */
  predicate Undisturbed(item: (Item, bool, nat), writes: nat) {
    !item.0.Handover? && !item.0.Shut? && item.2 >= writes
  }

  lemma QueueGrowsByOne(rule: AckRule, s: State, item: Item, gate: bool, c: Choice)
    requires Legal(s, item, c)
    ensures |Receive(rule, s, item, gate, c).queue| <= |s.queue| + 1
  {
    var t := Receive(rule, s, item, gate, c);
    var grown := if item.Deliver? then s.queue.Keys + {Key(item.m)} else s.queue.Keys;
    assert t.queue.Keys <= grown;
    Smaller(t.queue.Keys, grown);
  }

  lemma {:induction false} Smaller(a: set<string>, b: set<string>)
    requires a <= b
    ensures |a| <= |b|
  {
    if a != {} {
      var k :| k in a;
      Smaller(a - {k}, b - {k});
    }
  }

  /**
   So on an open connection where no item closes it and writes succeed, every item is served and the
   receiver goes on.
   */
  lemma {:induction false} UndisturbedGoesOn(rule: AckRule, s: State, items: seq<(Item, bool, nat)>,
                                             choices: seq<Choice>)
    requires Fits(rule, s, items, choices) && !s.done && !s.wsClosed
    requires forall i :: 0 <= i < |items| ==> Undisturbed(items[i], |s.queue| + |items|)
    ensures var t := ReceiveAll(rule, s, items, choices);
            !t.done && !t.wsClosed && Served(rule, s, items, choices) == |items|
    decreases |items|
  {
    if items != [] {
      var next := Receive(rule, s, items[0].0, items[0].1, choices[0]);
      assert Undisturbed(items[0], |s.queue| + |items|);
      EndsExactly(rule, s, items[0].0, items[0].1, choices[0]);
      QueueGrowsByOne(rule, s, items[0].0, items[0].1, choices[0]);
      forall i | 0 <= i < |items[1..]| ensures Undisturbed(items[1..][i], |next.queue| + |items[1..]|) {
        assert Undisturbed(items[i + 1], |s.queue| + |items|);
      }
      UndisturbedGoesOn(rule, next, items[1..], choices[1..]);
    }
  }

  // ---- what an item leaves ---------------------------------------------------------------

  /** The first of the ordered messages, as many as go through, and FlushDone when that is all. */
  ghost predicate WrittenAsFar(added: seq<Entry>, order: seq<string>, q: map<string, Message>, writes: nat) {
    && |order| == |q|
    && |added| == (if writes >= |q| then |q| + 1 else writes)
    && (writes >= |q| ==> added[|q|] == FlushDone)
    && (forall i :: 0 <= i < |order| && i < writes ==> order[i] in q && added[i] == Flushed(q[order[i]]))
  }

  /** A FLUSH writes as far as the writes go through, and changes nothing else. */
  lemma FlushWritesAsFar(rule: AckRule, s: State, gate: bool, c: Choice)
    requires Legal(s, FLUSH, c)
    ensures var t := Receive(rule, s, FLUSH, gate, c);
            && t == s.(log := s.log + Added(s, FLUSH, gate, c), done := t.done)
            && WrittenAsFar(Added(s, FLUSH, gate, c), c.order, s.queue, if s.wsClosed then 0 else c.ok)
  {
    DistinctCover(c.order, s.queue.Keys);
  }

  /**
   A payload adds its account, and behind it the message as written exactly when it was accepted at
   an open gate and the write went through.
   */
  lemma PayloadWritten(rule: AckRule, s: State, m: Message, gate: bool, c: Choice)
    ensures var t := Receive(rule, s, Deliver(m), gate, c);
            var live := Accepts(s, m, gate) && gate && !s.wsClosed && c.ok > 0;
            && s.log <= t.log && |t.log| == |s.log| + (if live then 2 else 1)
            && (Accepts(s, m, gate) ==> t.log[|s.log|] == Queued(m, gate))
            && (!Accepts(s, m, gate) ==> t.log[|s.log|].Refused? && t.log[|s.log|].m == m)
            && (live ==> t.log[|s.log| + 1] == Live(m))
            && t.saves == s.saves
  {
  }

  /** Op 30 saves the clock and the queue under the parameters it came with; nothing else saves anything. */
  lemma SavesExactly(rule: AckRule, s: State, item: Item, gate: bool, c: Choice)
    requires Legal(s, item, c)
    ensures var t := Receive(rule, s, item, gate, c);
            if item.Handover? then
              && t == s.(saves := t.saves, wsClosed := true)
              && t.saves == s.saves + [Save(ParseSpec(item.body, 2, false).params, Blob(s.ts, s.queue))]
            else t.saves == s.saves
  {
  }

  /** The items that matter only while connecting, and unknown ops, leave everything as it is. */
  lemma OthersChangeNothing(rule: AckRule, s: State, item: Item, gate: bool, c: Choice)
    requires Legal(s, item, c)
    ensures var t := Receive(rule, s, item, gate, c);
            && (item.Answer? || item.Prev? || item.Malformed? || item.Other? ==> t == s)
            && (item.Shut? ==> t == s.(wsClosed := true))
            && (item == Comm("SET_TIMER") ==> t == s.(log := s.log + [TimerStarted]))
            && (item.Comm? && item.text != "FLUSH" ==> t == s.(log := t.log, queue := t.queue))
  {
  }

  // ---- a FLUSH can always be served ------------------------------------------------------

  lemma {:induction false} LatestKey(q: map<string, Message>) returns (k: string)
    requires q != map[]
    ensures k in q && forall j :: j in q ==> q[j].ts <= q[k].ts
    decreases |q|
  {
    var first :| first in q;
    var rest := q - {first};
    if rest == map[] {
      k := first;
      forall j | j in q ensures j == first {
        assert j != first ==> j in rest;
      }
    } else {
      assert rest.Keys < q.Keys;
      assert |rest.Keys| < |q.Keys| by { assert q.Keys == rest.Keys + {first}; }
      var latest := LatestKey(rest);
      k := if q[first].ts <= q[latest].ts then latest else first;
      assert forall j :: j in q ==> j == first || j in rest;
    }
  }

  /** Every queue has an order in which a FLUSH may write it, so no FLUSH is ever stuck. */
  lemma {:induction false} FlushOrderExists(q: map<string, Message>) returns (order: seq<string>)
    ensures IsFlushOrder(order, q)
    decreases |q|
  {
    if q == map[] {
      order := [];
    } else {
      var k := LatestKey(q);
      var rest := q - {k};
      assert |rest.Keys| < |q.Keys| by { assert q.Keys == rest.Keys + {k}; }
      var before := FlushOrderExists(rest);
      order := before + [k];
      LastInOrder(q, k, before);
    }
  }

  lemma LastInOrder(q: map<string, Message>, k: string, before: seq<string>)
    requires k in q && (forall j :: j in q ==> q[j].ts <= q[k].ts)
    requires IsFlushOrder(before, q - {k})
    ensures IsFlushOrder(before + [k], q)
  {
    var order := before + [k];
    forall j | j in q ensures j in order {
      if j == k {
        assert order[|before|] == k;
      } else {
        assert j in q - {k};
        var i :| 0 <= i < |before| && before[i] == j;
        assert order[i] == j;
      }
    }
    forall i, j | 0 <= i < j < |order| ensures order[i] != order[j] && q[order[i]].ts <= q[order[j]].ts {
      assert order[i] == before[i] && before[i] in q - {k};
      if j < |before| {
        assert order[j] == before[j] && before[j] in q - {k};
        assert (q - {k})[before[i]].ts <= (q - {k})[before[j]].ts;
      }
    }
  }
}
