/**
 The receiver goroutine of one websocket connection (msg_chan_recv in socket/websocket.go): it
 owns last_timestamp and message_queue, and serves one channel item after the other.
 */
module Receiver {
  import opened Bytes
  import opened Codec
  import opened Messages

  /** The session state carried from one connection to the next (ws_state). */
  datatype Blob = Blob(ts: nat, queue: map<string, Message>)

  /**
   A channel item: byte 0 and a command text, or an op byte with its body. Answers to ops 20 and
   21, the previous state of op 31 and malformed versions of these matter only while connecting.
   */
  datatype Item =
    | Comm(text: string)
    | Handover(body: seq<byte>)
    | Shut
    | Deliver(m: Message)
    | Answer(op: byte, ok: bool)
    | Prev(ok: bool, state: Blob)
    | Malformed(op: byte)
    | Other(op: byte)

  const FLUSH: Item := Comm("FLUSH")
  const SET_TIMER: Item := Comm("SET_TIMER")

  /**
   Which key an acknowledgement deletes. The program deletes the key held by a variable that is
   never assigned, the empty text (socket/websocket.go:139,186); websocket_codes.txt:43 documents
   the acknowledged message's own key.
   */
  datatype AckRule = AsWritten | AsDocumented

  /**
   What happens on the connection, in order; GateStored is an entry of the dispatch goroutine. A
   refused message has sent when it gets a notice and the notice is written.
   */
  datatype Entry =
    | Queued(m: Message, gate: bool)
    | Live(m: Message)
    | Flushed(m: Message)
    | FlushDone
    | Refused(m: Message, notice: Option<nat>, sent: bool)
    | TimerStarted
    | GateStored(open: bool)

  /** The state serialised for op 30, with the parameters it is sent under. */
  datatype Save = Save(params: seq<seq<byte>>, state: Blob)

  datatype State = State(ts: nat, queue: map<string, Message>, log: seq<Entry>, saves: seq<Save>,
                         wsClosed: bool, done: bool)

  /**
   What the environment decides during one item: the order in which a FLUSH writes the queue
   (map iteration and an unstable sort leave it open), and how many client writes succeed.
   */
  datatype Choice = Choice(order: seq<string>, ok: nat)

  /** The queue's keys, each once, by non-decreasing timestamp. */
  ghost predicate IsFlushOrder(order: seq<string>, q: map<string, Message>) {
    && (forall i :: 0 <= i < |order| ==> order[i] in q)
    && (forall k :: k in q ==> k in order)
    && Distinct(order)
    && (forall i, j :: 0 <= i < j < |order| && order[i] in q && order[j] in q
          ==> q[order[i]].ts <= q[order[j]].ts)
  }

  // ---- one item --------------------------------------------------------------------------

  /** Client writes that succeed, none after the connection has been closed. */
  function Writes(s: State, ok: nat): nat {
    if s.wsClosed then 0 else ok
  }

  function FlushedEntries(order: seq<string>, q: map<string, Message>): (log: seq<Entry>)
    requires forall i :: 0 <= i < |order| ==> order[i] in q
    ensures |log| == |order|
    ensures forall i :: 0 <= i < |log| ==> log[i] == Flushed(q[order[i]])
  {
    seq(|order|, i requires 0 <= i < |order| => Flushed(q[order[i]]))
  }

  /** What a FLUSH adds to the log: the messages written, and FlushDone if no write failed. */
  function FlushAdded(s: State, order: seq<string>, ok: nat): seq<Entry>
    requires forall i :: 0 <= i < |order| ==> order[i] in s.queue
  {
    var all := FlushedEntries(order, s.queue);
    if Writes(s, ok) < |order| then all[..Writes(s, ok)] else all + [FlushDone]
  }

  function OnFlush(s: State, order: seq<string>, ok: nat): State
    requires forall i :: 0 <= i < |order| ==> order[i] in s.queue
  {
    s.(log := s.log + FlushAdded(s, order, ok), done := s.done || Writes(s, ok) < |order|)
  }

  function AckedKey(rule: AckRule, text: string): string {
    if rule == AsWritten then "" else text
  }

  predicate Stale(s: State, m: Message, gate: bool) {
    m.ts <= s.ts && !m.atomic && gate
  }

  function NoticeFor(op: int): Option<nat> {
    if 200 <= op < 300 then Some(3101)
    else if 300 <= op < 400 then Some(3102)
    else None
  }

  function Max(a: nat, b: nat): nat {
    if a < b then b else a
  }

  function DeliverAdded(s: State, m: Message, gate: bool, ok: nat): seq<Entry> {
    if Stale(s, m, gate) then [Refused(m, NoticeFor(m.op), NoticeFor(m.op).Some? && Writes(s, ok) > 0)]
    else if gate && Writes(s, ok) > 0 then [Queued(m, gate), Live(m)]
    else [Queued(m, gate)]
  }

  function OnDeliver(s: State, m: Message, gate: bool, ok: nat): State {
    var log := s.log + DeliverAdded(s, m, gate, ok);
    if Stale(s, m, gate) then s.(log := log)
    else
      var failed := gate && Writes(s, ok) == 0;
      s.(ts := Max(s.ts, m.ts), queue := s.queue[Key(m) := m], log := log,
         wsClosed := s.wsClosed || failed, done := s.done || failed)
  }

  /** A choice the environment can make for this item in this state. */
  ghost predicate Legal(s: State, item: Item, c: Choice) {
    item == FLUSH ==> IsFlushOrder(c.order, s.queue)
  }

  /** The effect of one item, given the gate value read and the environment's choices. */
  ghost function Receive(rule: AckRule, s: State, item: Item, gate: bool, c: Choice): State
    requires Legal(s, item, c)
  {
    match item
    case Comm(text) =>
      if text == "FLUSH" then OnFlush(s, c.order, c.ok)
      else if text == "SET_TIMER" then s.(log := s.log + [TimerStarted])
      else s.(queue := s.queue - {AckedKey(rule, text)})
    case Handover(body) =>
      s.(saves := s.saves + [Save(ParseSpec(body, 2, false).params, Blob(s.ts, s.queue))], wsClosed := true)
    case Shut => s.(wsClosed := true)
    case Deliver(m) => OnDeliver(s, m, gate, c.ok)
    case _ => s
  }

  /** What one item adds to the log. */
  ghost function Added(s: State, item: Item, gate: bool, c: Choice): seq<Entry>
    requires Legal(s, item, c)
  {
    if item == FLUSH then FlushAdded(s, c.order, c.ok)
    else if item == SET_TIMER then [TimerStarted]
    else if item.Deliver? then DeliverAdded(s, item.m, gate, c.ok)
    else []
  }

  // ---- the goroutine's loop body, on its own variables -----------------------------------

  ghost predicate Distinct(keys: seq<string>) {
    forall i, j :: 0 <= i < j < |keys| ==> keys[i] != keys[j]
  }

  ghost predicate ByTimestamp(slice: seq<Message>) {
    forall i, j :: 0 <= i < j < |slice| ==> slice[i].ts <= slice[j].ts
  }

  /** slice holds the queue's values under these keys. */
  ghost predicate Holds(keys: seq<string>, slice: seq<Message>, q: map<string, Message>) {
    |keys| == |slice| && forall i :: 0 <= i < |keys| ==> keys[i] in q && q[keys[i]] == slice[i]
  }

  function InsertAt<T>(s: seq<T>, p: nat, x: T): (r: seq<T>)
    requires p <= |s|
    ensures |r| == |s| + 1 && r[p] == x
    ensures forall i :: 0 <= i < |r| ==> r[i] == if i < p then s[i] else if i == p then x else s[i - 1]
  {
    s[..p] + [x] + s[p..]
  }

  lemma InsertKeepsDistinct(s: seq<string>, p: nat, x: string)
    requires p <= |s| && Distinct(s) && x !in s
    ensures Distinct(InsertAt(s, p, x))
    ensures forall k :: k in InsertAt(s, p, x) <==> k == x || k in s
  {
    var r := InsertAt(s, p, x);
    forall k | k in s ensures k in r {
      var i :| 0 <= i < |s| && s[i] == k;
      assert r[if i < p then i else i + 1] == k;
    }
  }

  lemma InsertKeepsSorted(sorted: seq<Message>, order: seq<string>, p: nat, m: Message, k: string,
                          q: map<string, Message>)
    requires Holds(order, sorted, q) && ByTimestamp(sorted) && p <= |sorted|
    requires k in q && q[k] == m
    requires p > 0 ==> sorted[p - 1].ts <= m.ts
    requires forall j :: p <= j < |sorted| ==> sorted[j].ts > m.ts
    ensures Holds(InsertAt(order, p, k), InsertAt(sorted, p, m), q)
    ensures ByTimestamp(InsertAt(sorted, p, m))
  {
    InsertKeepsAscending(sorted, p, m);
  }

  lemma InsertKeepsAscending(sorted: seq<Message>, p: nat, m: Message)
    requires ByTimestamp(sorted) && p <= |sorted|
    requires p > 0 ==> sorted[p - 1].ts <= m.ts
    requires forall j :: p <= j < |sorted| ==> sorted[j].ts > m.ts
    ensures ByTimestamp(InsertAt(sorted, p, m))
  {
    assert p > 0 ==> forall i :: 0 <= i < p ==> sorted[i].ts <= sorted[p - 1].ts;
  }

  /** sort.Slice by timestamp; the keys ride along as ghosts. */
  method SortByTimestamp(slice: seq<Message>, ghost keys: seq<string>, ghost q: map<string, Message>)
    returns (sorted: seq<Message>, ghost order: seq<string>)
    requires Holds(keys, slice, q) && Distinct(keys)
    ensures Holds(order, sorted, q) && Distinct(order) && ByTimestamp(sorted)
    ensures forall k :: k in order <==> k in keys
  {
    sorted, order := [], [];
    for n := 0 to |slice|
      invariant Holds(order, sorted, q) && Distinct(order) && ByTimestamp(sorted)
      invariant forall k :: k in order <==> k in keys[..n]
    {
      var p := |sorted|;
      while p > 0 && sorted[p - 1].ts > slice[n].ts
        invariant 0 <= p <= |sorted|
        invariant forall j :: p <= j < |sorted| ==> sorted[j].ts > slice[n].ts
      {
        p := p - 1;
      }
      assert keys[n] !in keys[..n];
      InsertKeepsDistinct(order, p, keys[n]);
      InsertKeepsSorted(sorted, order, p, slice[n], keys[n], q);
      sorted, order := InsertAt(sorted, p, slice[n]), InsertAt(order, p, keys[n]);
      assert keys[..n + 1] == keys[..n] + [keys[n]];
    }
    assert keys[..|slice|] == keys;
  }

  class Connection {
    const rule: AckRule
    var lastTimestamp: nat
    var messageQueue: map<string, Message>
    /** The variable msg of the source: declared, never assigned. */
    var msg: string
    var log: seq<Entry>
    var saves: seq<Save>
    var wsClosed: bool
    var done: bool

    ghost function Abstract(): State
      reads this
    {
      State(lastTimestamp, messageQueue, log, saves, wsClosed, done)
    }

    ghost predicate Valid()
      reads this
    {
      msg == ""
    }

    constructor (rule: AckRule, lastTimestamp: nat, messageQueue: map<string, Message>)
      ensures Valid() && this.rule == rule
      ensures Abstract() == State(lastTimestamp, messageQueue, [], [], false, false)
    {
      this.rule := rule;
      this.lastTimestamp := lastTimestamp;
      this.messageQueue := messageQueue;
      msg, log, saves, wsClosed, done := "", [], [], false, false;
    }

    /** The FLUSH case: collect the queue, sort it, write until a write fails. */
    method Flush(ok: nat) returns (ghost order: seq<string>)
      requires Valid() && !done
      modifies this
      ensures Valid() && IsFlushOrder(order, old(messageQueue))
      ensures Abstract() == OnFlush(old(Abstract()), order, ok)
    {
      if |messageQueue| == 0 {
        log := log + [FlushDone];
        return [];
      }
      var slice;
      ghost var keys;
      slice, keys := Collect();
      var sorted;
      sorted, order := SortByTimestamp(slice, keys, messageQueue);
      WriteSlice(sorted, order, ok);
    }

    /** The write loop of FLUSH: it ends the receiver at the first write that fails. */
    method WriteSlice(sorted: seq<Message>, ghost order: seq<string>, ok: nat)
      requires Valid() && !done && Holds(order, sorted, messageQueue)
      modifies this`log, this`done
      ensures Abstract() == OnFlush(old(Abstract()), order, ok)
    {
      var budget := if wsClosed then 0 else ok;
      ghost var all := FlushedEntries(order, messageQueue);
      for i := 0 to |sorted|
        invariant i <= budget && !done
        invariant log == old(log) + all[..i]
      {
        if i == budget {
          done := true;
          return;
        }
        assert all[..i + 1] == all[..i] + [Flushed(sorted[i])];
        log := log + [Flushed(sorted[i])];
      }
      assert all[..|sorted|] == all;
      log := log + [FlushDone];
    }

    /** The map iteration that fills the slice, in any order. */
    method Collect() returns (slice: seq<Message>, ghost keys: seq<string>)
      ensures Holds(keys, slice, messageQueue) && Distinct(keys)
      ensures forall k :: k in messageQueue <==> k in keys
    {
      slice, keys := [], [];
      var left := messageQueue.Keys;
      while left != {}
        invariant left <= messageQueue.Keys
        invariant Holds(keys, slice, messageQueue) && Distinct(keys)
        invariant forall k :: k in messageQueue <==> k in left || k in keys
        invariant forall k :: k in keys ==> k !in left
        decreases left
      {
        var k :| k in left;
        slice, keys, left := slice + [messageQueue[k]], keys + [k], left - {k};
      }
    }

    /** The op-100 case. */
    method OnPayload(m: Message, gate: bool, ok: nat)
      requires Valid() && !done
      modifies this
      ensures Valid() && Abstract() == OnDeliver(old(Abstract()), m, gate, ok)
    {
      var budget := if wsClosed then 0 else ok;
      if m.ts <= lastTimestamp && !m.atomic && gate {
        if 200 <= m.op < 300 {
          log := log + [Refused(m, Some(3101), budget > 0)];
        } else if 300 <= m.op < 400 {
          log := log + [Refused(m, Some(3102), budget > 0)];
        } else {
          log := log + [Refused(m, None, false)];
        }
      } else {
        if m.ts > lastTimestamp {
          lastTimestamp := m.ts;
        }
        messageQueue := messageQueue[Key(m) := m];
        log := log + [Queued(m, gate)];
        if gate {
          if budget == 0 {
            wsClosed, done := true, true;
            return;
          }
          log := log + [Live(m)];
        }
      }
    }

    /** One turn of the loop. */
    method Process(item: Item, gate: bool, ok: nat) returns (ghost c: Choice)
      requires Valid() && !done
      modifies this
      ensures Valid()
      ensures c.ok == ok && Legal(old(Abstract()), item, c)
      ensures Abstract() == Receive(rule, old(Abstract()), item, gate, c)
    {
      c := Choice([], ok);
      match item {
        case Comm(text) =>
          if text == "FLUSH" {
            ghost var order := Flush(ok);
            c := Choice(order, ok);
          } else if text == "SET_TIMER" {
            log := log + [TimerStarted];
          } else {
            var key := if rule == AsWritten then msg else text;
            messageQueue := messageQueue - {key};
          }
        case Handover(body) =>
          var parsed := ByteToParamsAndPayload(body, 2, false);
          if parsed.err != NoError {
            wsClosed := true;
          }
          saves := saves + [Save(parsed.params, Blob(lastTimestamp, messageQueue))];
          wsClosed := true;
        case Shut =>
          wsClosed := true;
        case Deliver(m) =>
          OnPayload(m, gate, ok);
        case _ =>
      }
    }

    /** msg_chan_recv: items with the gate value read at each, until the channel closes or a write fails. */
    method MsgChanRecv(items: seq<(Item, bool, nat)>) returns (ghost choices: seq<Choice>)
      requires Valid() && !done
      modifies this
      ensures Valid()
      ensures Fits(rule, old(Abstract()), items, choices)
      ensures Abstract() == ReceiveAll(rule, old(Abstract()), items, choices)
    {
      choices := [];
      ghost var start := Abstract();
      var i := 0;
      while i < |items| && !done
        invariant 0 <= i <= |items| && |choices| == i && Valid()
        invariant Fits(rule, start, items[..i], choices)
        invariant Abstract() == ReceiveAll(rule, start, items[..i], choices)
      {
        ghost var c := Process(items[i].0, items[i].1, items[i].2);
        ReceiveSnoc(rule, start, items[..i], choices, items[i], c);
        assert items[..i + 1] == items[..i] + [items[i]];
        choices := choices + [c];
        i := i + 1;
      }
      ghost var rest := seq(|items| - i, _ => Choice([], 0));
      assert items == items[..i] + items[i..];
      ReceiveStopped(rule, start, items[..i], choices, items[i..], rest);
      choices := choices + rest;
    }
  }

  // ---- runs of the receiver --------------------------------------------------------------

  /** The choices made along a run are possible ones. */
  ghost predicate Fits(rule: AckRule, s: State, items: seq<(Item, bool, nat)>, choices: seq<Choice>)
    decreases |items|
  {
    && |items| == |choices|
    && (items != [] && !s.done ==>
          && Legal(s, items[0].0, choices[0])
          && choices[0].ok == items[0].2
          && Fits(rule, Receive(rule, s, items[0].0, items[0].1, choices[0]), items[1..], choices[1..]))
  }

  ghost function ReceiveAll(rule: AckRule, s: State, items: seq<(Item, bool, nat)>, choices: seq<Choice>): State
    requires Fits(rule, s, items, choices)
    decreases |items|
  {
    if items == [] || s.done then s
    else ReceiveAll(rule, Receive(rule, s, items[0].0, items[0].1, choices[0]), items[1..], choices[1..])
  }

  /** How many items are served: all of them, or as many as up to the one that ends the receiver. */
  ghost function Served(rule: AckRule, s: State, items: seq<(Item, bool, nat)>, choices: seq<Choice>): (n: nat)
    requires Fits(rule, s, items, choices)
    ensures n <= |items|
    decreases |items|
  {
    if items == [] || s.done then 0
    else 1 + Served(rule, Receive(rule, s, items[0].0, items[0].1, choices[0]), items[1..], choices[1..])
  }

  /**
   Served is where the run ends: the receiver is running after every shorter prefix of the items,
   after that many items it is in its last state, and it stops short of them all only by ending.
   */
  lemma {:induction false} ServedIsTheRun(rule: AckRule, s: State, items: seq<(Item, bool, nat)>,
                                          choices: seq<Choice>, k: nat)
    requires Fits(rule, s, items, choices) && k <= Served(rule, s, items, choices)
    ensures Fits(rule, s, items[..k], choices[..k])
    ensures var t, n := ReceiveAll(rule, s, items, choices), Served(rule, s, items, choices);
            var u := ReceiveAll(rule, s, items[..k], choices[..k]);
            && (k < n ==> !u.done)
            && (k == n ==> u == t)
            && (n < |items| ==> t.done)
    decreases |items|
  {
    if items != [] && !s.done {
      var next := Receive(rule, s, items[0].0, items[0].1, choices[0]);
      if k == 0 {
        ServedIsTheRun(rule, next, items[1..], choices[1..], 0);
      } else {
        ServedIsTheRun(rule, next, items[1..], choices[1..], k - 1);
        assert items[..k][1..] == items[1..][..k - 1];
        assert choices[..k][1..] == choices[1..][..k - 1];
      }
    }
  }

  lemma {:induction false} ReceiveSnoc(rule: AckRule, s: State, items: seq<(Item, bool, nat)>,
                                       choices: seq<Choice>, item: (Item, bool, nat), c: Choice)
    requires Fits(rule, s, items, choices)
    requires var t := ReceiveAll(rule, s, items, choices);
             !t.done && Legal(t, item.0, c) && c.ok == item.2
    ensures Fits(rule, s, items + [item], choices + [c])
    ensures ReceiveAll(rule, s, items + [item], choices + [c])
            == Receive(rule, ReceiveAll(rule, s, items, choices), item.0, item.1, c)
    decreases |items|
  {
    var its, cs := items + [item], choices + [c];
    if items == [] {
      assert its[1..] == [] && cs[1..] == [];
      assert its[0] == item && cs[0] == c;
    } else {
      assert its[1..] == items[1..] + [item] && cs[1..] == choices[1..] + [c];
      assert !s.done;
      ReceiveSnoc(rule, Receive(rule, s, items[0].0, items[0].1, choices[0]), items[1..], choices[1..], item, c);
    }
  }

  /** Nothing is received once the receiver has ended. */
  lemma {:induction false} ReceiveStopped(rule: AckRule, s: State, items: seq<(Item, bool, nat)>,
                                          choices: seq<Choice>, more: seq<(Item, bool, nat)>, any: seq<Choice>)
    requires Fits(rule, s, items, choices) && |more| == |any|
    requires more == [] || ReceiveAll(rule, s, items, choices).done
    ensures Fits(rule, s, items + more, choices + any)
    ensures ReceiveAll(rule, s, items + more, choices + any) == ReceiveAll(rule, s, items, choices)
    decreases |items|
  {
    if more == [] {
      assert items + more == items && choices + any == choices;
    } else if items == [] {
      assert items + more == more && choices + any == any;
    } else if !s.done {
      assert (items + more)[1..] == items[1..] + more;
      assert (choices + any)[1..] == choices[1..] + any;
      ReceiveStopped(rule, Receive(rule, s, items[0].0, items[0].1, choices[0]), items[1..], choices[1..], more, any);
    }
  }
}
