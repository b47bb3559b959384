/**
 The sharded table from session id to channel (socket/socket.go:17-85), for any hash function.
 A channel is a handle; the generated ids are the candidates, and running out of them stands for
 the generator failing.
 */
module Shards {
  import opened Bytes

  type Id = string
  type Chan = nat
  type Table = map<Id, Chan>

  const CONCURRENCY: nat := 32

  /**
   Where a connection whose first candidate collided is stored: in the shard of that first
   candidate (socket/socket.go:46,52,63), or in the shard of the id it finally gets.
   */
  datatype HomeRule = FirstCandidate | OwnShard

  type Tables = ts: seq<Table> | |ts| == CONCURRENCY witness seq(CONCURRENCY, _ => map[])

  function ShardOf(hash: Id -> nat, id: Id): (s: nat)
    ensures s < CONCURRENCY
  {
    hash(id) % CONCURRENCY
  }

  /** The shard in which candidate id is looked up and stored. */
  function Home(rule: HomeRule, hash: Id -> nat, first: Id, id: Id): (s: nat)
    ensures s < CONCURRENCY
  {
    ShardOf(hash, if rule == FirstCandidate then first else id)
  }

  /** Index of the first candidate that is free in its home, or their number. */
  function FirstFree(rule: HomeRule, hash: Id -> nat, ts: Tables, first: Id, candidates: seq<Id>): (k: nat)
    ensures k <= |candidates|
    ensures k < |candidates| ==> candidates[k] !in ts[Home(rule, hash, first, candidates[k])]
    ensures forall j :: 0 <= j < k ==> candidates[j] in ts[Home(rule, hash, first, candidates[j])]
  {
    if candidates == [] || candidates[0] !in ts[Home(rule, hash, first, candidates[0])] then 0
    else 1 + FirstFree(rule, hash, ts, first, candidates[1..])
  }

  datatype Created = Created(id: Option<Id>, ts: Tables)

  function Create(rule: HomeRule, hash: Id -> nat, ts: Tables, candidates: seq<Id>, ch: Chan): Created
    requires candidates != []
  {
    var k := FirstFree(rule, hash, ts, candidates[0], candidates);
    if k == |candidates| then Created(None, ts)
    else
      var s := Home(rule, hash, candidates[0], candidates[k]);
      var table: Table := ts[s][candidates[k] := ch];
      Created(Some(candidates[k]), ts[s := table])
  }

  function Find(hash: Id -> nat, ts: Tables, id: Id): Option<Chan> {
    var table := ts[ShardOf(hash, id)];
    if id in table then Some(table[id]) else None
  }

  function Delete(hash: Id -> nat, ts: Tables, id: Id): Tables {
    ts[ShardOf(hash, id) := ts[ShardOf(hash, id)] - {id}]
  }

  // ---- the program's operations on its shards --------------------------------------------

  /** held: shards whose lock was never given back. The contracts are about calls that get their lock. */
  class ShardTable {
    const rule: HomeRule
    const hash: Id -> nat
    const shards: array<Table>
    var held: set<nat>

    ghost predicate Valid()
      reads this
    {
      shards.Length == CONCURRENCY
    }

    ghost function Abstract(): Tables
      requires Valid()
      reads this, shards
    {
      shards[..]
    }

    constructor (rule: HomeRule, hash: Id -> nat)
      ensures Valid() && fresh(shards) && this.rule == rule && this.hash == hash
      ensures Abstract() == seq(CONCURRENCY, _ => map[]) && held == {}
      ensures shards.Length == 32
    {
      this.rule, this.hash, held := rule, hash, {};
      shards := new Table[CONCURRENCY](_ => map[]);
    }

    /**
     create_connection: retry until a candidate is free in the shard being looked at. When the
     generator fails, it returns with that shard's lock.
     */
    method CreateConnection(candidates: seq<Id>, ch: Chan) returns (id: Option<Id>)
      requires Valid() && candidates != []
      modifies shards, this`held
      ensures Valid() && Created(id, Abstract()) == Create(rule, hash, old(Abstract()), candidates, ch)
      ensures id.Some? ==> held == old(held)
      ensures id.None? ==> held == old(held) + {Home(rule, hash, candidates[0], candidates[|candidates| - 1])}
    {
      var i := 0;
      var shard := ShardOf(hash, candidates[0]);
      ghost var k := FirstFree(rule, hash, Abstract(), candidates[0], candidates);
      while candidates[i] in shards[shard]
        invariant 0 <= i < |candidates| && shard < CONCURRENCY
        invariant shard == Home(rule, hash, candidates[0], candidates[i])
        invariant i <= k
        invariant Abstract() == old(Abstract()) && held == old(held)
        decreases |candidates| - i
      {
        i := i + 1;
        if i == |candidates| {
          held := held + {shard};
          return None;
        }
        if rule == OwnShard {
          shard := ShardOf(hash, candidates[i]);
        }
      }
      shards[shard] := shards[shard][candidates[i] := ch];
      return Some(candidates[i]);
    }

    /** The part of delete_connection done under the lock; the channel returned is closed after it. */
    method DeleteConnection(id: Id) returns (ch: Option<Chan>)
      requires Valid()
      modifies shards
      ensures Valid() && Abstract() == Delete(hash, old(Abstract()), id)
      ensures ch == Find(hash, old(Abstract()), id)
    {
      var shard := ShardOf(hash, id);
      ch := if id in shards[shard] then Some(shards[shard][id]) else None;
      shards[shard] := shards[shard] - {id};
    }

    /** The lookup of socket_op. */
    method Lookup(id: Id) returns (ch: Option<Chan>)
      requires Valid()
      ensures ch == Find(hash, Abstract(), id)
    {
      var shard := ShardOf(hash, id);
      ch := if id in shards[shard] then Some(shards[shard][id]) else None;
    }
  }

  // ---- one map ---------------------------------------------------------------------------

  ghost predicate WellPlaced(hash: Id -> nat, ts: Tables) {
    forall s: nat, id: Id :: s < CONCURRENCY && id in ts[s] ==> s == ShardOf(hash, id)
  }

  /** The shards are the plain map m: each id in its own shard and in no other. */
  ghost predicate Is(hash: Id -> nat, ts: Tables, m: Table) {
    && WellPlaced(hash, ts)
    && (forall id :: id in m <==> id in ts[ShardOf(hash, id)])
    && (forall id :: id in m ==> ts[ShardOf(hash, id)][id] == m[id])
  }

  datatype Op = New(candidates: seq<Id>, ch: Chan) | Drop(id: Id) | Look(id: Id)

  datatype Result = Got(id: Option<Id>) | Saw(ch: Option<Chan>)

  predicate Sane(op: Op) {
    op.New? ==> op.candidates != []
  }

  /** The operation on one plain map: the first candidate that is no key gets the channel. */
  function FirstAbsent(m: Table, candidates: seq<Id>): (k: nat)
    ensures k <= |candidates|
    ensures k < |candidates| ==> candidates[k] !in m
    ensures forall j :: 0 <= j < k ==> candidates[j] in m
  {
    if candidates == [] || candidates[0] !in m then 0 else 1 + FirstAbsent(m, candidates[1..])
  }

  function PlainStep(m: Table, op: Op): (Table, Result) {
    match op
    case New(candidates, ch) =>
      var k := FirstAbsent(m, candidates);
      if k == |candidates| then (m, Got(None)) else (m[candidates[k] := ch], Got(Some(candidates[k])))
    case Drop(id) => (m - {id}, Saw(if id in m then Some(m[id]) else None))
    case Look(id) => (m, Saw(if id in m then Some(m[id]) else None))
  }

  function ShardStep(rule: HomeRule, hash: Id -> nat, ts: Tables, op: Op): (Tables, Result)
    requires Sane(op)
  {
    match op
    case New(candidates, ch) =>
      var c := Create(rule, hash, ts, candidates, ch);
      (c.ts, Got(c.id))
    case Drop(id) => (Delete(hash, ts, id), Saw(Find(hash, ts, id)))
    case Look(id) => (ts, Saw(Find(hash, ts, id)))
  }

  /** The id a creation settles on lies in the shard it is stored in. */
  predicate AtHome(rule: HomeRule, hash: Id -> nat, ts: Tables, op: Op)
    requires Sane(op)
  {
    op.New? ==>
      var k := FirstFree(rule, hash, ts, op.candidates[0], op.candidates);
      k < |op.candidates| ==> Home(rule, hash, op.candidates[0], op.candidates[k]) == ShardOf(hash, op.candidates[k])
  }

  lemma FirstFreeIsFirstAbsent(rule: HomeRule, hash: Id -> nat, ts: Tables, m: Table, candidates: seq<Id>)
    requires Is(hash, ts, m) && candidates != []
    requires AtHome(rule, hash, ts, New(candidates, 0))
    ensures FirstFree(rule, hash, ts, candidates[0], candidates) == FirstAbsent(m, candidates)
  {
    var k, n := FirstFree(rule, hash, ts, candidates[0], candidates), FirstAbsent(m, candidates);
    forall j | 0 <= j < k ensures candidates[j] in m {
      var s := Home(rule, hash, candidates[0], candidates[j]);
      assert candidates[j] in ts[s] && s < CONCURRENCY;
    }
    assert k < |candidates| ==> candidates[k] !in m;
  }

  /** The operation answers as on the plain map, and so does a lookup of the id it created, if any. */
  predicate AnswersAgree(rule: HomeRule, hash: Id -> nat, ts: Tables, m: Table, op: Op)
    requires Sane(op)
  {
    var (ts', r) := ShardStep(rule, hash, ts, op);
    var (m', p) := PlainStep(m, op);
    && r == p
    && (r.Got? && r.id.Some? ==>
          ShardStep(rule, hash, ts', Look(r.id.value)).1 == PlainStep(m', Look(r.id.value)).1)
  }

  /**
   One operation on the shards is that operation on the plain map when a created id is stored in
   its own shard; when it is not, that very answer or the next lookup of the id is another one.
   */
  lemma StepRefines(rule: HomeRule, hash: Id -> nat, ts: Tables, m: Table, op: Op)
    requires Is(hash, ts, m) && Sane(op)
    ensures AnswersAgree(rule, hash, ts, m, op) <==> AtHome(rule, hash, ts, op)
    ensures AtHome(rule, hash, ts, op) ==> Is(hash, ShardStep(rule, hash, ts, op).0, PlainStep(m, op).0)
  {
    if AtHome(rule, hash, ts, op) {
      AtHomeRefines(rule, hash, ts, m, op);
    } else {
      StrayAnswersDiffer(rule, hash, ts, m, op);
    }
  }

  lemma AtHomeRefines(rule: HomeRule, hash: Id -> nat, ts: Tables, m: Table, op: Op)
    requires Is(hash, ts, m) && Sane(op) && AtHome(rule, hash, ts, op)
    ensures Is(hash, ShardStep(rule, hash, ts, op).0, PlainStep(m, op).0)
    ensures AnswersAgree(rule, hash, ts, m, op)
  {
    match op
    case New(candidates, ch) => CreateRefines(rule, hash, ts, m, candidates, ch);
    case Drop(id) => DropRefines(hash, ts, m, id);
    case Look(id) =>
  }

  lemma CreateRefines(rule: HomeRule, hash: Id -> nat, ts: Tables, m: Table, candidates: seq<Id>, ch: Chan)
    requires Is(hash, ts, m) && candidates != [] && AtHome(rule, hash, ts, New(candidates, ch))
    ensures var (ts', r) := ShardStep(rule, hash, ts, New(candidates, ch));
            var (m', p) := PlainStep(m, New(candidates, ch));
            && Is(hash, ts', m') && r == p
            && (r.id.Some? ==> r.id.value in m' && Find(hash, ts', r.id.value) == Some(m'[r.id.value]))
  {
    assert AtHome(rule, hash, ts, New(candidates, 0));
    FirstFreeIsFirstAbsent(rule, hash, ts, m, candidates);
    var k := FirstFree(rule, hash, ts, candidates[0], candidates);
    if k < |candidates| {
      StoreRefines(hash, ts, m, candidates[k], ch);
    }
  }

  /** Storing a new id in its own shard is storing it in the map. */
  lemma StoreRefines(hash: Id -> nat, ts: Tables, m: Table, id: Id, ch: Chan)
    requires Is(hash, ts, m)
    ensures var table: Table := ts[ShardOf(hash, id)][id := ch];
            Is(hash, ts[ShardOf(hash, id) := table], m[id := ch])
  {
  }

  lemma DropRefines(hash: Id -> nat, ts: Tables, m: Table, id: Id)
    requires Is(hash, ts, m)
    ensures Is(hash, Delete(hash, ts, id), m - {id})
  {
  }

  /** An id stored outside its own shard is looked up as before, so not as the map has it now. */
  lemma StrayAnswersDiffer(rule: HomeRule, hash: Id -> nat, ts: Tables, m: Table, op: Op)
    requires Is(hash, ts, m) && Sane(op) && !AtHome(rule, hash, ts, op)
    ensures !AnswersAgree(rule, hash, ts, m, op)
  {
    StrayIsUnreachable(hash, ts, m, op.candidates, op.ch);
  }

  /** The storing rule that uses the id's own shard always meets the condition. */
  lemma OwnShardIsAtHome(hash: Id -> nat, ts: Tables, op: Op)
    requires Sane(op)
    ensures AtHome(OwnShard, hash, ts, op)
  {
  }

  /**
   A creation that ends up outside its own shard cannot be looked up: the table still answers for
   that id as before, and a later delete of it does not remove what was stored.
   */
  lemma StrayIsUnreachable(hash: Id -> nat, ts: Tables, m: Table, candidates: seq<Id>, ch: Chan)
    requires Is(hash, ts, m) && candidates != []
    requires FirstFree(FirstCandidate, hash, ts, candidates[0], candidates) < |candidates|
    requires !AtHome(FirstCandidate, hash, ts, New(candidates, ch))
    ensures var c := Create(FirstCandidate, hash, ts, candidates, ch);
            var id := c.id.GetOr("");
            var s := ShardOf(hash, candidates[0]);
            && c.id.Some?
            && Find(hash, c.ts, id) == Find(hash, ts, id)
            && id in Delete(hash, c.ts, id)[s] && Delete(hash, c.ts, id)[s][id] == ch
  {
  }

  /** And it can be the id of a live session: two connections then share one id. */
  lemma StrayCanDuplicate(hash: Id -> nat, a: Id, b: Id)
    requires ShardOf(hash, a) != ShardOf(hash, b)
    ensures var empty: Tables := seq(CONCURRENCY, _ => map[]);
            var t1 := Create(FirstCandidate, hash, empty, [a], 1).ts;
            var t2 := Create(FirstCandidate, hash, t1, [b], 2).ts;
            var c := Create(FirstCandidate, hash, t2, [a, b], 3);
            && c.id == Some(b)
            && c.ts[ShardOf(hash, a)] == map[a := 1, b := 3]
            && c.ts[ShardOf(hash, b)] == map[b := 2]
  {
    var empty: Tables := seq(CONCURRENCY, _ => map[]);
    var t1 := Create(FirstCandidate, hash, empty, [a], 1).ts;
    var t2 := Create(FirstCandidate, hash, t1, [b], 2).ts;
    assert t1[ShardOf(hash, a)] == map[a := 1] && t1[ShardOf(hash, b)] == map[];
    assert t2[ShardOf(hash, a)] == map[a := 1] && t2[ShardOf(hash, b)] == map[b := 2];
    assert [a, b][1..] == [b];
    assert FirstFree(FirstCandidate, hash, t2, a, [b]) == 0;
    assert FirstFree(FirstCandidate, hash, t2, a, [a, b]) == 1;
  }

  // ---- whole runs ------------------------------------------------------------------------

  predicate AllSane(ops: seq<Op>) {
    forall i :: 0 <= i < |ops| ==> Sane(ops[i])
  }

  /** Every created id is stored in its own shard. */
  ghost predicate Clean(rule: HomeRule, hash: Id -> nat, ts: Tables, ops: seq<Op>)
    requires AllSane(ops)
    decreases |ops|
  {
    ops != [] ==>
      && AtHome(rule, hash, ts, ops[0])
      && Clean(rule, hash, ShardStep(rule, hash, ts, ops[0]).0, ops[1..])
  }

  ghost function ShardRun(rule: HomeRule, hash: Id -> nat, ts: Tables, ops: seq<Op>): (Tables, seq<Result>)
    requires AllSane(ops)
    decreases |ops|
  {
    if ops == [] then (ts, [])
    else
      var (ts', r) := ShardStep(rule, hash, ts, ops[0]);
      var (ts'', rs) := ShardRun(rule, hash, ts', ops[1..]);
      (ts'', [r] + rs)
  }

  ghost function PlainRun(m: Table, ops: seq<Op>): (Table, seq<Result>)
    decreases |ops|
  {
    if ops == [] then (m, [])
    else
      var (m', r) := PlainStep(m, ops[0]);
      var (m'', rs) := PlainRun(m', ops[1..]);
      (m'', [r] + rs)
  }

  /** Over every clean run the 32 tables are one map: same answers, same contents, ids unique. */
  lemma {:induction false} RunRefines(rule: HomeRule, hash: Id -> nat, ts: Tables, m: Table, ops: seq<Op>)
    requires Is(hash, ts, m) && AllSane(ops) && Clean(rule, hash, ts, ops)
    ensures Is(hash, ShardRun(rule, hash, ts, ops).0, PlainRun(m, ops).0)
    ensures ShardRun(rule, hash, ts, ops).1 == PlainRun(m, ops).1
    decreases |ops|
  {
    if ops != [] {
      StepRefines(rule, hash, ts, m, ops[0]);
      RunRefines(rule, hash, ShardStep(rule, hash, ts, ops[0]).0, PlainStep(m, ops[0]).0, ops[1..]);
    }
  }

  ghost predicate SameAnswers(rule: HomeRule, hash: Id -> nat, ts: Tables, m: Table, ops: seq<Op>)
    requires AllSane(ops)
  {
    ShardRun(rule, hash, ts, ops).1 == PlainRun(m, ops).1
  }

  /** The run up to some operation, and a lookup after it. */
  function Probe(ops: seq<Op>, n: nat, id: Id): (probe: seq<Op>)
    requires AllSane(ops) && n <= |ops|
    ensures AllSane(probe)
  {
    ops[..n] + [Look(id)]
  }

  lemma SameAnswersCons(rule: HomeRule, hash: Id -> nat, ts: Tables, m: Table, op: Op, ops: seq<Op>)
    requires Sane(op) && AllSane(ops)
    ensures AllSane([op] + ops)
    ensures SameAnswers(rule, hash, ts, m, [op] + ops)
            <==> ShardStep(rule, hash, ts, op).1 == PlainStep(m, op).1
                 && SameAnswers(rule, hash, ShardStep(rule, hash, ts, op).0, PlainStep(m, op).0, ops)
  {
    var all := [op] + ops;
    assert all[0] == op && all[1..] == ops;
    var (ts', r) := ShardStep(rule, hash, ts, op);
    var (m', p) := PlainStep(m, op);
    var rs, ps := ShardRun(rule, hash, ts', ops).1, PlainRun(m', ops).1;
    assert ShardRun(rule, hash, ts, all).1 == [r] + rs && PlainRun(m, all).1 == [p] + ps;
    assert ([r] + rs)[0] == r && ([p] + ps)[0] == p;
    assert ([r] + rs)[1..] == rs && ([p] + ps)[1..] == ps;
  }

  lemma ProbeTail(ops: seq<Op>, n: nat, id: Id)
    requires AllSane(ops) && 0 < n <= |ops|
    ensures Probe(ops, n, id) == [ops[0]] + Probe(ops[1..], n - 1, id)
  {
    assert ops[..n] == [ops[0]] + ops[1..][..n - 1];
  }

  lemma LookAnswers(rule: HomeRule, hash: Id -> nat, ts: Tables, m: Table, id: Id)
    ensures SameAnswers(rule, hash, ts, m, [Look(id)])
            <==> ShardStep(rule, hash, ts, Look(id)).1 == PlainStep(m, Look(id)).1
  {
    SameAnswersCons(rule, hash, ts, m, Look(id), []);
    assert [Look(id)] + [] == [Look(id)];
  }

  /** A clean run answers like the map however it is probed. */
  lemma {:induction false} CleanProbes(rule: HomeRule, hash: Id -> nat, ts: Tables, m: Table, ops: seq<Op>,
                                       n: nat, id: Id)
    requires Is(hash, ts, m) && AllSane(ops) && Clean(rule, hash, ts, ops) && n <= |ops|
    ensures SameAnswers(rule, hash, ts, m, Probe(ops, n, id))
    decreases n
  {
    if n == 0 {
      assert Probe(ops, 0, id) == [Look(id)];
      LookAnswers(rule, hash, ts, m, id);
    } else {
      var ts', m' := ShardStep(rule, hash, ts, ops[0]).0, PlainStep(m, ops[0]).0;
      StepRefines(rule, hash, ts, m, ops[0]);
      CleanProbes(rule, hash, ts', m', ops[1..], n - 1, id);
      ProbeTail(ops, n, id);
      SameAnswersCons(rule, hash, ts, m, ops[0], Probe(ops[1..], n - 1, id));
    }
  }

  /** At the first operation that is not clean, some probe tells the tables from the map. */
  lemma {:induction false} StrayIsProbed(rule: HomeRule, hash: Id -> nat, ts: Tables, m: Table, ops: seq<Op>)
    returns (n: nat, id: Id)
    requires Is(hash, ts, m) && AllSane(ops) && !Clean(rule, hash, ts, ops)
    ensures n <= |ops| && !SameAnswers(rule, hash, ts, m, Probe(ops, n, id))
    decreases |ops|
  {
    var (ts', r) := ShardStep(rule, hash, ts, ops[0]);
    var m' := PlainStep(m, ops[0]).0;
    StepRefines(rule, hash, ts, m, ops[0]);
    if AtHome(rule, hash, ts, ops[0]) {
      n, id := StrayIsProbed(rule, hash, ts', m', ops[1..]);
      n := n + 1;
    } else {
      n, id := 1, if r.Got? then r.id.GetOr("") else "";
      assert Probe(ops[1..], 0, id) == [Look(id)];
      LookAnswers(rule, hash, ts', m', id);
    }
    ProbeTail(ops, n, id);
    SameAnswersCons(rule, hash, ts, m, ops[0], Probe(ops[1..], n - 1, id));
  }

  /**
   A run of the shards cannot be told from the map, by its answers or by looking any id up at any
   time during it, exactly when every created id is stored in its own shard.
   */
  lemma RunRefinesExactly(rule: HomeRule, hash: Id -> nat, ts: Tables, m: Table, ops: seq<Op>)
    requires Is(hash, ts, m) && AllSane(ops)
    ensures Clean(rule, hash, ts, ops)
            <==> forall n: nat, id: Id :: n <= |ops| ==> SameAnswers(rule, hash, ts, m, Probe(ops, n, id))
  {
    if Clean(rule, hash, ts, ops) {
      forall n: nat, id: Id | n <= |ops| ensures SameAnswers(rule, hash, ts, m, Probe(ops, n, id)) {
        CleanProbes(rule, hash, ts, m, ops, n, id);
      }
    } else {
      var n, id := StrayIsProbed(rule, hash, ts, m, ops);
    }
  }
}
