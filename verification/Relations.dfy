/**
 The relation and chain store: every pair of users has two rows in user_relations, one per side,
 and chains_users lists the members of a chain (services/relation.services.go,
 services/chain_messages.services.go, helpers/chain.helpers.go, middlewares/chain.middlewares.go).

 The database tables are finite maps. Each handler is one atomic step: its statements are not a
 transaction, so handlers that interleave, or stop half-way at a database error, are not covered.
 Users are numbered in the order the database keeps them. A chain id made by TimeUUID is assumed
 new, and the clock does not run backwards. A handler reads the clock once: in the program the expiry
 of a message is computed from an earlier reading than its creation time.
 */
module Relations {
  import opened Bytes

  type User = nat
  type ChainId = nat
  type Time = int

  /** How a null timestamp reads: the zero time, in milliseconds. */
  const ZERO_TIME: Time := -62135596800000
  const DAY: int := 86400000

  datatype Row = Row(created: Time, chain: Option<ChainId>, username: string, lastRecv: Time, lastSeen: Time,
                     friend: bool, requested: bool, active: bool)

  const NULL_ROW: Row := Row(ZERO_TIME, None, "", ZERO_TIME, ZERO_TIME, false, false, false)

  datatype Message = Message(sender: User, created: Time, expires: Time, display: string, duration: int)

  type Rows = map<(User, User), Row>

  /** clock is the time of the last step. */
  datatype Db = Db(names: map<User, string>, rows: Rows, members: map<ChainId, seq<User>>,
                   chains: map<ChainId, map<Time, Message>>, clock: Time)

  /** A row of user_relations; columns never written read as null. */
  function RowAt(rows: Rows, u: User, v: User): Row {
    if (u, v) in rows then rows[(u, v)] else NULL_ROW
  }

  // ---- the handlers ----------------------------------------------------------------------

  function RequestColumns(r: Row, created: Time, username: string, requested: bool): Row {
    r.(created := created, username := username, requested := requested, active := true)
  }

  function AcceptColumns(r: Row, chain: ChainId, now: Time): Row {
    r.(chain := Some(chain), lastRecv := now, lastSeen := now, friend := true)
  }

  function RemoveColumns(r: Row): Row {
    r.(friend := false, requested := false, active := false)
  }

  /** u, called name, asks v. Nothing happens when there is no user v. */
  function Request(db: Db, u: User, name: string, v: User, now: Time): Db {
    if v !in db.names then db
    else
      var rows := db.rows[(u, v) := RequestColumns(RowAt(db.rows, u, v), now, db.names[v], true)];
      db.(rows := rows[(v, u) := RequestColumns(RowAt(rows, v, u), now, name, false)])
  }

  /** Insertion of one chains_users row: the members of a chain come in ascending order. */
  function InsertMember(users: seq<User>, u: User): seq<User> {
    if users == [] || u < users[0] then [u] + users
    else if u == users[0] then users
    else [users[0]] + InsertMember(users[1..], u)
  }

  function MembersOf(db: Db, chain: ChainId): seq<User> {
    if chain in db.members then db.members[chain] else []
  }

  /** u accepts v: their chain is the one on u's row, or a new one with the two as members. */
  function Accept(db: Db, u: User, v: User, newId: ChainId, now: Time): Db {
    var known := RowAt(db.rows, u, v).chain;
    var chain := known.GetOr(newId);
    var members := if known.Some? then db.members
                   else db.members[newId := InsertMember(InsertMember(MembersOf(db, newId), u), v)];
    var rows := db.rows[(u, v) := AcceptColumns(RowAt(db.rows, u, v), chain, now)];
    db.(members := members, rows := rows[(v, u) := AcceptColumns(RowAt(rows, v, u), chain, now)])
  }

  function Remove(db: Db, u: User, v: User): Db {
    var rows := db.rows[(u, v) := RemoveColumns(RowAt(db.rows, u, v))];
    db.(rows := rows[(v, u) := RemoveColumns(RowAt(rows, v, u))])
  }

  /** What ChainRequestMiddleware finds out about a caller and a chain. */
  datatype Access = Peer(user: User) | Invalid | Unauthorized

  function Resolve(users: seq<User>, caller: User): Access {
    if |users| != 2 then Invalid
    else if users[0] == caller then Peer(users[1])
    else if users[1] == caller then Peer(users[0])
    else Unauthorized
  }

  datatype Audio = Audio(display: string, duration: int, expireDays: int, size: int)

  predicate Acceptable(a: Audio) {
    a.duration <= 5 * 60000 + 30 && a.size <= 2000000
  }

  function ExpiryDays(a: Audio): int {
    if 0 < a.expireDays < 60 then a.expireDays else 60
  }

  function MessagesOf(db: Db, chain: ChainId): map<Time, Message> {
    if chain in db.chains then db.chains[chain] else map[]
  }

  /** AddAudioMessage behind the middleware: the peer's last_recv and the sender's last_seen move to now. */
  function Send(db: Db, u: User, chain: ChainId, a: Audio, now: Time): Db {
    match Resolve(MembersOf(db, chain), u)
    case Peer(p) =>
      if !Acceptable(a) then db
      else
        var m := Message(u, now, now + ExpiryDays(a) * DAY, a.display, a.duration);
        var rows := db.rows[(p, u) := RowAt(db.rows, p, u).(lastRecv := now)];
        db.(chains := db.chains[chain := MessagesOf(db, chain)[now := m]],
            rows := rows[(u, p) := RowAt(rows, u, p).(lastSeen := now)])
    case _ => db
  }

  /** No row but the two of u and v differs. */
  ghost predicate OnlyRowsOf(before: Rows, after: Rows, u: User, v: User) {
    forall x: User, y: User :: (x, y) != (u, v) && (x, y) != (v, u) ==>
      RowAt(after, x, y) == RowAt(before, x, y) && ((x, y) in after <==> (x, y) in before)
  }

  /** The same handlers as they run, one statement after the other. */
  class Store {
    var names: map<User, string>
    var rows: Rows
    var members: map<ChainId, seq<User>>
    var chains: map<ChainId, map<Time, Message>>
    ghost var clock: Time

    ghost function Abstract(): Db
      reads this
    {
      Db(names, rows, members, chains, clock)
    }

    constructor (names: map<User, string>, ghost clock: Time)
      ensures Abstract() == Db(names, map[], map[], map[], clock)
    {
      this.names := names;
      this.clock := clock;
      rows, members, chains := map[], map[], map[];
    }

    method RequestRelation(u: User, name: string, v: User, now: Time) returns (ok: bool)
      modifies this`rows
      ensures Abstract() == Request(old(Abstract()), u, name, v, now)
      ensures ok <==> v in names
      ensures !ok ==> rows == old(rows)
      ensures OnlyRowsOf(old(rows), rows, u, v)
      ensures ok && u != v ==>
                && RowAt(rows, u, v) == RowAt(old(rows), u, v).(created := now, username := names[v],
                                                                requested := true, active := true)
                && RowAt(rows, v, u) == RowAt(old(rows), v, u).(created := now, username := name,
                                                                requested := false, active := true)
      ensures ok && u == v ==>
                RowAt(rows, u, u) == RowAt(old(rows), u, u).(created := now, username := name,
                                                             requested := false, active := true)
    {
      if v !in names {
        return false;
      }
      rows := rows[(u, v) := RequestColumns(RowAt(rows, u, v), now, names[v], true)];
      rows := rows[(v, u) := RequestColumns(RowAt(rows, v, u), now, name, false)];
      return true;
    }

    /** InsertChainsUsers: one batch entry per user. */
    method InsertChainsUsers(chain: ChainId, users: seq<User>)
      modifies this`members
      ensures members == old(members)[chain := InsertAll(MembersOf(old(Abstract()), chain), users)]
    {
      var list := if chain in members then members[chain] else [];
      ghost var start := list;
      for i := 0 to |users|
        invariant list == InsertAll(start, users[..i])
      {
        assert users[..i + 1][..i] == users[..i];
        list := InsertMember(list, users[i]);
      }
      assert users[..|users|] == users;
      members := members[chain := list];
    }

    method AcceptRelation(u: User, v: User, newId: ChainId, now: Time) returns (chain: ChainId)
      modifies this`rows, this`members
      ensures Abstract() == Accept(old(Abstract()), u, v, newId, now)
      ensures chain == RowAt(old(rows), u, v).chain.GetOr(newId)
      ensures OnlyRowsOf(old(rows), rows, u, v)
      ensures RowAt(rows, u, v) == RowAt(old(rows), u, v).(chain := Some(chain), lastRecv := now, lastSeen := now,
                                                           friend := true)
      ensures RowAt(rows, v, u) == RowAt(old(rows), v, u).(chain := Some(chain), lastRecv := now, lastSeen := now,
                                                           friend := true)
    {
      var known := RowAt(rows, u, v).chain;
      chain := newId;
      if known.Some? {
        chain := known.value;
      } else {
        InsertChainsUsers(newId, [u, v]);
        InsertAllTwo(MembersOf(old(Abstract()), newId), u, v);
      }
      rows := rows[(u, v) := AcceptColumns(RowAt(rows, u, v), chain, now)];
      rows := rows[(v, u) := AcceptColumns(RowAt(rows, v, u), chain, now)];
    }

    method RemoveRelation(u: User, v: User)
      modifies this`rows
      ensures Abstract() == Remove(old(Abstract()), u, v)
      ensures OnlyRowsOf(old(rows), rows, u, v)
      ensures RowAt(rows, u, v) == RowAt(old(rows), u, v).(friend := false, requested := false, active := false)
      ensures RowAt(rows, v, u) == RowAt(old(rows), v, u).(friend := false, requested := false, active := false)
    {
      rows := rows[(u, v) := RemoveColumns(RowAt(rows, u, v))];
      rows := rows[(v, u) := RemoveColumns(RowAt(rows, v, u))];
    }

    method AddAudioMessage(u: User, chain: ChainId, a: Audio, now: Time) returns (access: Access)
      modifies this`rows, this`chains
      ensures Abstract() == Send(old(Abstract()), u, chain, a, now)
      ensures access == Resolve(MembersOf(old(Abstract()), chain), u)
    {
      var users := if chain in members then members[chain] else [];
      access := Resolve(users, u);
      if !access.Peer? || a.duration > 5 * 60000 + 30 {
        return;
      }
      var days := 60;
      if a.expireDays > 0 && a.expireDays < 60 {
        days := a.expireDays;
      }
      if a.size > 2000000 {
        return;
      }
      var p := access.user;
      var stored := if chain in chains then chains[chain] else map[];
      chains := chains[chain := stored[now := Message(u, now, now + days * DAY, a.display, a.duration)]];
      rows := rows[(p, u) := RowAt(rows, p, u).(lastRecv := now)];
      rows := rows[(u, p) := RowAt(rows, u, p).(lastSeen := now)];
    }
  }

  /** Inserting keeps the members ascending, each once, and adds just the one. */
  lemma {:induction false} InsertMemberIsInsert(users: seq<User>, u: User)
    requires forall i, j :: 0 <= i < j < |users| ==> users[i] < users[j]
    ensures var r := InsertMember(users, u);
            && (forall i, j :: 0 <= i < j < |r| ==> r[i] < r[j])
            && (forall x :: x in r <==> x == u || x in users)
  {
    if users != [] && users[0] < u {
      InsertMemberIsInsert(users[1..], u);
      var tail := InsertMember(users[1..], u);
      assert users == [users[0]] + users[1..];
      forall x | x in users[1..] ensures users[0] < x {
        var k :| 0 <= k < |users[1..]| && users[1..][k] == x;
        assert users[k + 1] == x;
      }
      forall i | 0 <= i < |tail| ensures users[0] < tail[i] {
        assert tail[i] in tail;
      }
    } else {
      InsertInFront(users, u);
    }
  }

  lemma InsertInFront(users: seq<User>, u: User)
    requires (users == [] || u <= users[0]) && forall i, j :: 0 <= i < j < |users| ==> users[i] < users[j]
    ensures var r := InsertMember(users, u);
            && (forall i, j :: 0 <= i < j < |r| ==> r[i] < r[j])
            && (forall x :: x in r <==> x == u || x in users)
  {
    if users == [] || u < users[0] {
      assert InsertMember(users, u) == [u] + users;
    } else {
      assert InsertMember(users, u) == users;
    }
  }

  function InsertAll(list: seq<User>, users: seq<User>): seq<User> {
    if users == [] then list else InsertMember(InsertAll(list, users[..|users| - 1]), users[|users| - 1])
  }

  lemma InsertAllTwo(list: seq<User>, u: User, v: User)
    ensures InsertAll(list, [u, v]) == InsertMember(InsertMember(list, u), v)
  {
    assert [u, v][..1] == [u] && [u][..0] == [];
    assert InsertAll(list, [u]) == InsertMember(list, u);
  }

  // ---- runs ------------------------------------------------------------------------------

  datatype Op =
    | OpRequest(u: User, name: string, v: User)
    | OpAccept(u: User, v: User, newId: ChainId)
    | OpRemove(u: User, v: User)
    | OpSend(u: User, chain: ChainId, audio: Audio)

  function Step(db: Db, op: Op, now: Time): Db {
    var d := match op
      case OpRequest(u, name, v) => Request(db, u, name, v, now)
      case OpAccept(u, v, newId) => Accept(db, u, v, newId, now)
      case OpRemove(u, v) => Remove(db, u, v)
      case OpSend(u, chain, audio) => Send(db, u, chain, audio, now);
    d.(clock := now)
  }

  /** The clock has not run backwards, and a new chain id is new. */
  predicate Admissible(db: Db, op: Op, now: Time) {
    db.clock <= now && (op.OpAccept? ==> op.newId !in db.members)
  }

  ghost predicate Runs(db: Db, ops: seq<(Op, Time)>, end: Db)
    decreases |ops|
  {
    if ops == [] then db == end
    else Admissible(db, ops[0].0, ops[0].1) && Runs(Step(db, ops[0].0, ops[0].1), ops[1..], end)
  }

  predicate Empty(db: Db) {
    db.rows == map[] && db.members == map[] && db.chains == map[]
  }

  // ---- invariants ------------------------------------------------------------------------

  /** The two rows of a pair: same friend, active, chain and created; active just when one side has requested. */
  predicate Mirrored(r: Row, s: Row) {
    && r.active == s.active && r.friend == s.friend && r.chain == s.chain && r.created == s.created
    && (r.active ==> r.requested != s.requested)
    && (!r.active ==> !r.requested && !s.requested)
    && (r.friend ==> r.chain.Some?)
  }

  function Pair(u: User, v: User): seq<User> {
    if u < v then [u, v] else [v, u]
  }

  ghost predicate RowsInv(db: Db) {
    forall u: User, v: User :: u != v ==>
      && ((u, v) in db.rows <==> (v, u) in db.rows)
      && Mirrored(RowAt(db.rows, u, v), RowAt(db.rows, v, u))
  }

  ghost predicate ChainsInv(db: Db) {
    forall u: User, v: User :: u != v && RowAt(db.rows, u, v).chain.Some? ==>
      var c := RowAt(db.rows, u, v).chain.value;
      c in db.members && db.members[c] == Pair(u, v)
  }

  /**
   A stored message: within its limits, sent by a member, and no newer than the marks on the
   members' rows.
   */
  predicate Marked(db: Db, c: ChainId, t: Time)
    requires c in db.chains && t in db.chains[c]
  {
    var m := db.chains[c][t];
    var access := Resolve(MembersOf(db, c), m.sender);
    && m.created == t && t <= db.clock
    && t + DAY <= m.expires <= t + 60 * DAY && m.duration <= 300030
    && access.Peer? && access.user != m.sender
    && t <= RowAt(db.rows, access.user, m.sender).lastRecv
    && t <= RowAt(db.rows, m.sender, access.user).lastSeen
  }

  ghost predicate MarksInv(db: Db) {
    forall c: ChainId, t: Time :: c in db.chains && t in db.chains[c] ==> Marked(db, c, t)
  }

  /** A chain of two members always lists two different ones. */
  ghost predicate MembersInv(db: Db) {
    && (forall c :: c in db.members && |db.members[c]| == 2 ==> db.members[c][0] < db.members[c][1])
    && db.chains.Keys <= db.members.Keys
  }

  ghost predicate Inv(db: Db) {
    RowsInv(db) && ChainsInv(db) && MarksInv(db) && MembersInv(db)
  }

  lemma NewMembers(u: User, v: User)
    ensures InsertMember(InsertMember([], u), v) == if u == v then [u] else Pair(u, v)
  {
  }

  lemma RequestKeepsInv(db: Db, u: User, name: string, v: User, now: Time)
    requires Inv(db) && db.clock <= now
    ensures Inv(Step(db, OpRequest(u, name, v), now))
  {
    var d := Step(db, OpRequest(u, name, v), now);
    RequestKeepsRows(db, u, name, v, now);
    SameTimes(db, d);
  }

  lemma RequestKeepsRows(db: Db, u: User, name: string, v: User, now: Time)
    requires RowsInv(db)
    ensures RowsInv(Step(db, OpRequest(u, name, v), now))
  {
    var d := Step(db, OpRequest(u, name, v), now);
    forall x: User, y: User | x != y
      ensures ((x, y) in d.rows <==> (y, x) in d.rows) && Mirrored(RowAt(d.rows, x, y), RowAt(d.rows, y, x))
    {
      assert Mirrored(RowAt(db.rows, x, y), RowAt(db.rows, y, x));
    }
  }

  lemma RemoveKeepsInv(db: Db, u: User, v: User, now: Time)
    requires Inv(db) && db.clock <= now
    ensures Inv(Step(db, OpRemove(u, v), now))
  {
    var d := Step(db, OpRemove(u, v), now);
    RemoveKeepsRows(db, u, v, now);
    SameTimes(db, d);
  }

  lemma RemoveKeepsRows(db: Db, u: User, v: User, now: Time)
    requires RowsInv(db)
    ensures RowsInv(Step(db, OpRemove(u, v), now))
  {
    var d := Step(db, OpRemove(u, v), now);
    forall x: User, y: User | x != y
      ensures ((x, y) in d.rows <==> (y, x) in d.rows) && Mirrored(RowAt(d.rows, x, y), RowAt(d.rows, y, x))
    {
      assert Mirrored(RowAt(db.rows, x, y), RowAt(db.rows, y, x));
    }
  }

  predicate SameChainAndTimes(r: Row, s: Row) {
    r.chain == s.chain && r.lastRecv == s.lastRecv && r.lastSeen == s.lastSeen
  }

  /** A step that leaves chains, members, messages and marks alone keeps all but the rows' invariant. */
  lemma SameTimes(db: Db, d: Db)
    requires ChainsInv(db) && MarksInv(db) && MembersInv(db)
    requires d.chains == db.chains && d.members == db.members && db.clock <= d.clock
    requires forall x, y :: SameChainAndTimes(RowAt(d.rows, x, y), RowAt(db.rows, x, y))
    ensures ChainsInv(d) && MarksInv(d) && MembersInv(d)
  {
    SameMarks(db, d);
  }

  /** Marks only need to grow, and the members of chains with messages to stay. */
  lemma SameMarks(db: Db, d: Db)
    requires MarksInv(db) && d.chains == db.chains && db.clock <= d.clock
    requires forall c :: c in db.chains ==> MembersOf(d, c) == MembersOf(db, c)
    requires forall x, y :: RowAt(db.rows, x, y).lastRecv <= RowAt(d.rows, x, y).lastRecv
                            || db.clock <= RowAt(d.rows, x, y).lastRecv
    requires forall x, y :: RowAt(db.rows, x, y).lastSeen <= RowAt(d.rows, x, y).lastSeen
                            || db.clock <= RowAt(d.rows, x, y).lastSeen
    ensures MarksInv(d)
  {
    forall c: ChainId, t: Time | c in d.chains && t in d.chains[c] ensures Marked(d, c, t) {
      assert Marked(db, c, t);
    }
  }

  lemma AcceptKeepsInv(db: Db, u: User, v: User, newId: ChainId, now: Time)
    requires Inv(db) && Admissible(db, OpAccept(u, v, newId), now)
    ensures Inv(Step(db, OpAccept(u, v, newId), now))
  {
    AcceptKeepsRows(db, u, v, newId, now);
    AcceptKeepsChains(db, u, v, newId, now);
    AcceptKeepsMembers(db, u, v, newId, now);
    AcceptKeepsMarks(db, u, v, newId, now);
  }

  lemma AcceptKeepsChains(db: Db, u: User, v: User, newId: ChainId, now: Time)
    requires RowsInv(db) && ChainsInv(db) && newId !in db.members
    ensures ChainsInv(Step(db, OpAccept(u, v, newId), now))
  {
    NewMembers(u, v);
    assert u != v ==> Mirrored(RowAt(db.rows, u, v), RowAt(db.rows, v, u));
  }

  lemma AcceptKeepsMembers(db: Db, u: User, v: User, newId: ChainId, now: Time)
    requires MembersInv(db) && newId !in db.members
    ensures MembersInv(Step(db, OpAccept(u, v, newId), now))
  {
    NewMembers(u, v);
  }

  lemma AcceptKeepsMarks(db: Db, u: User, v: User, newId: ChainId, now: Time)
    requires MarksInv(db) && MembersInv(db) && Admissible(db, OpAccept(u, v, newId), now)
    ensures MarksInv(Step(db, OpAccept(u, v, newId), now))
  {
    SameMarks(db, Step(db, OpAccept(u, v, newId), now));
  }

  lemma AcceptKeepsRows(db: Db, u: User, v: User, newId: ChainId, now: Time)
    requires RowsInv(db)
    ensures RowsInv(Step(db, OpAccept(u, v, newId), now))
  {
    forall x: User, y: User | x != y
      ensures var d := Step(db, OpAccept(u, v, newId), now);
              && ((x, y) in d.rows <==> (y, x) in d.rows)
              && Mirrored(RowAt(d.rows, x, y), RowAt(d.rows, y, x))
    {
      assert Mirrored(RowAt(db.rows, x, y), RowAt(db.rows, y, x));
    }
  }

  lemma SendKeepsInv(db: Db, u: User, chain: ChainId, a: Audio, now: Time)
    requires Inv(db) && db.clock <= now
    ensures Inv(Step(db, OpSend(u, chain, a), now))
  {
    SendKeepsRows(db, u, chain, a, now);
    SendKeepsChains(db, u, chain, a, now);
    SendKeepsMarks(db, u, chain, a, now);
  }

  predicate SameRelation(r: Row, s: Row) {
    r == s.(lastRecv := r.lastRecv, lastSeen := r.lastSeen)
  }

  /** A send touches the two times only, and writes the rows of a pair together. */
  lemma SendMarksOnly(db: Db, u: User, chain: ChainId, a: Audio, now: Time, x: User, y: User)
    ensures var d := Step(db, OpSend(u, chain, a), now);
            SameRelation(RowAt(d.rows, x, y), RowAt(db.rows, x, y))
    ensures var d := Step(db, OpSend(u, chain, a), now);
            ((x, y) in db.rows <==> (y, x) in db.rows) ==> ((x, y) in d.rows <==> (y, x) in d.rows)
  {
  }

  lemma SendKeepsRows(db: Db, u: User, chain: ChainId, a: Audio, now: Time)
    requires RowsInv(db)
    ensures RowsInv(Step(db, OpSend(u, chain, a), now))
  {
    var d := Step(db, OpSend(u, chain, a), now);
    forall x: User, y: User | x != y
      ensures ((x, y) in d.rows <==> (y, x) in d.rows) && Mirrored(RowAt(d.rows, x, y), RowAt(d.rows, y, x))
    {
      assert Mirrored(RowAt(db.rows, x, y), RowAt(db.rows, y, x));
      SendMarksOnly(db, u, chain, a, now, x, y);
      SendMarksOnly(db, u, chain, a, now, y, x);
    }
  }

  lemma SendKeepsChains(db: Db, u: User, chain: ChainId, a: Audio, now: Time)
    requires ChainsInv(db) && MembersInv(db)
    ensures var d := Step(db, OpSend(u, chain, a), now);
            ChainsInv(d) && MembersInv(d)
  {
    var d := Step(db, OpSend(u, chain, a), now);
    assert forall x, y :: RowAt(d.rows, x, y).chain == RowAt(db.rows, x, y).chain;
  }

  lemma SendKeepsMarks(db: Db, u: User, chain: ChainId, a: Audio, now: Time)
    requires MarksInv(db) && MembersInv(db) && db.clock <= now
    ensures MarksInv(Step(db, OpSend(u, chain, a), now))
  {
    var d := Step(db, OpSend(u, chain, a), now);
    forall c: ChainId, t: Time | c in d.chains && t in d.chains[c] ensures Marked(d, c, t) {
      if c in db.chains && t in db.chains[c] && d.chains[c][t] == db.chains[c][t] {
        OldMessageStaysMarked(db, u, chain, a, now, c, t);
      } else {
        NewMessageIsMarked(db, u, chain, a, now);
      }
    }
  }

  lemma OldMessageStaysMarked(db: Db, u: User, chain: ChainId, a: Audio, now: Time, c: ChainId, t: Time)
    requires MarksInv(db) && db.clock <= now && c in db.chains && t in db.chains[c]
    requires var d := Step(db, OpSend(u, chain, a), now);
             c in d.chains && t in d.chains[c] && d.chains[c][t] == db.chains[c][t]
    ensures Marked(Step(db, OpSend(u, chain, a), now), c, t)
  {
    assert Marked(db, c, t);
  }

  lemma NewMessageIsMarked(db: Db, u: User, chain: ChainId, a: Audio, now: Time)
    requires MembersInv(db) && Resolve(MembersOf(db, chain), u).Peer? && Acceptable(a)
    ensures var d := Step(db, OpSend(u, chain, a), now);
            Marked(d, chain, now)
  {
  }

  lemma StepKeepsInv(db: Db, op: Op, now: Time)
    requires Inv(db) && Admissible(db, op, now)
    ensures Inv(Step(db, op, now))
  {
    match op
    case OpRequest(u, name, v) => RequestKeepsInv(db, u, name, v, now);
    case OpAccept(u, v, newId) => AcceptKeepsInv(db, u, v, newId, now);
    case OpRemove(u, v) => RemoveKeepsInv(db, u, v, now);
    case OpSend(u, chain, audio) => SendKeepsInv(db, u, chain, audio, now);
  }

  lemma {:induction false} RunKeepsInv(db: Db, ops: seq<(Op, Time)>, end: Db)
    requires Inv(db) && Runs(db, ops, end)
    ensures Inv(end)
    decreases |ops|
  {
    if ops != [] {
      StepKeepsInv(db, ops[0].0, ops[0].1);
      RunKeepsInv(Step(db, ops[0].0, ops[0].1), ops[1..], end);
    }
  }
}
