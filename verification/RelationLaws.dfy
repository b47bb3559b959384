/** What every run of the relation handlers keeps, and where they promise less than they seem to. */
module RelationLaws {
  import opened Bytes
  import opened Relations

  lemma EmptyInv(db: Db)
    requires Empty(db)
    ensures Inv(db)
  {
  }

  /**
   Mirror: after any run, for two different users, both rows exist or neither does, they agree on
   active, friend and chain, and the relation is active exactly when one side, and only one, has
   requested it.
   */
  lemma MirrorOverRuns(start: Db, ops: seq<(Op, Time)>, end: Db, u: User, v: User)
    requires Empty(start) && Runs(start, ops, end) && u != v
    ensures (u, v) in end.rows <==> (v, u) in end.rows
    ensures var r, s := RowAt(end.rows, u, v), RowAt(end.rows, v, u);
            && r.active == s.active && r.friend == s.friend && r.chain == s.chain && r.created == s.created
            && (r.active <==> r.requested != s.requested)
            && !(r.requested && s.requested)
            && (r.friend ==> r.chain.Some?)
  {
    EmptyInv(start);
    RunKeepsInv(start, ops, end);
    assert Mirrored(RowAt(end.rows, u, v), RowAt(end.rows, v, u));
  }

  /** A request leaves its two rows mirrored exactly when it is to somebody else. */
  lemma RequestMirrorsExactly(db: Db, u: User, name: string, v: User, now: Time)
    requires RowsInv(db) && v in db.names
    ensures var d := Step(db, OpRequest(u, name, v), now);
            Mirrored(RowAt(d.rows, u, v), RowAt(d.rows, v, u)) <==> u != v
  {
    if u != v {
      assert Mirrored(RowAt(db.rows, u, v), RowAt(db.rows, v, u));
    }
  }

  /** With oneself the two rows are one: it ends up active, with nobody having requested. */
  lemma SelfRequestBreaksMirror(db: Db, u: User, name: string, now: Time)
    requires u in db.names
    ensures var d := Step(db, OpRequest(u, name, u), now);
            && RowAt(d.rows, u, u).active && !RowAt(d.rows, u, u).requested
            && !Mirrored(RowAt(d.rows, u, u), RowAt(d.rows, u, u))
  {
  }

  // ---- frame -----------------------------------------------------------------------------

  /** The two users an operation is about; for a message, whoever the chain's members are. */
  predicate Concerns(db: Db, op: Op, x: User, y: User) {
    match op
    case OpRequest(u, _, v) => (x, y) == (u, v) || (x, y) == (v, u)
    case OpAccept(u, v, _) => (x, y) == (u, v) || (x, y) == (v, u)
    case OpRemove(u, v) => (x, y) == (u, v) || (x, y) == (v, u)
    case OpSend(u, c, _) =>
      var access := Resolve(MembersOf(db, c), u);
      access.Peer? && ((x, y) == (u, access.user) || (x, y) == (access.user, u))
  }

  /** An operation changes no row but those of its pair, and no messages but those of its chain. */
  lemma OthersAreUntouched(db: Db, op: Op, now: Time, x: User, y: User, c: ChainId)
    ensures !Concerns(db, op, x, y) ==>
              RowAt(Step(db, op, now).rows, x, y) == RowAt(db.rows, x, y)
              && ((x, y) in Step(db, op, now).rows <==> (x, y) in db.rows)
    ensures !(op.OpSend? && op.chain == c) ==> MessagesOf(Step(db, op, now), c) == MessagesOf(db, c)
  {
  }

  // ---- names -----------------------------------------------------------------------------

  /** Callers are known, and called by the name the store has for them. */
  predicate HonestName(db: Db, op: Op) {
    op.OpRequest? ==> op.u in db.names && op.name == db.names[op.u]
  }

  ghost predicate AllHonest(db: Db, ops: seq<(Op, Time)>) {
    forall i :: 0 <= i < |ops| ==> HonestName(db, ops[i].0)
  }

  /** An active row names the user on its other side. */
  ghost predicate NamesInv(db: Db) {
    forall u: User, v: User :: RowAt(db.rows, u, v).active ==>
      v in db.names && RowAt(db.rows, u, v).username == db.names[v]
  }

  lemma StepKeepsNames(db: Db, op: Op, now: Time)
    requires NamesInv(db) && HonestName(db, op)
    ensures NamesInv(Step(db, op, now)) && Step(db, op, now).names == db.names
  {
    var d := Step(db, op, now);
    forall u: User, v: User | RowAt(d.rows, u, v).active
      ensures v in d.names && RowAt(d.rows, u, v).username == d.names[v]
    {
      assert RowAt(db.rows, u, v).active ==> v in db.names && RowAt(db.rows, u, v).username == db.names[v];
    }
  }

  /** After any run with honest callers, what a user sees of an active relation bears the right name. */
  lemma {:induction false} NamesOverRuns(db: Db, ops: seq<(Op, Time)>, end: Db)
    requires NamesInv(db) && AllHonest(db, ops) && Runs(db, ops, end)
    ensures NamesInv(end) && end.names == db.names
    decreases |ops|
  {
    if ops != [] {
      assert HonestName(db, ops[0].0);
      StepKeepsNames(db, ops[0].0, ops[0].1);
      var next := Step(db, ops[0].0, ops[0].1);
      assert forall i :: 0 <= i < |ops[1..]| ==> ops[1..][i] == ops[i + 1] && HonestName(db, ops[i + 1].0);
      NamesOverRuns(next, ops[1..], end);
    }
  }

  // ---- chains ----------------------------------------------------------------------------

  lemma StepKeepsChains(db: Db, op: Op, now: Time, u: User, v: User)
    requires Inv(db) && Admissible(db, op, now) && u != v
    ensures var d := Step(db, op, now);
            && (RowAt(db.rows, u, v).chain.Some? ==> RowAt(d.rows, u, v).chain == RowAt(db.rows, u, v).chain)
            && (forall c :: c in db.members ==> c in d.members && d.members[c] == db.members[c])
  {
    assert Mirrored(RowAt(db.rows, u, v), RowAt(db.rows, v, u));
  }

  /** A pair's chain id, once assigned, survives every later remove, request or accept of either side. */
  lemma {:induction false} ChainIsForever(db: Db, ops: seq<(Op, Time)>, end: Db, u: User, v: User)
    requires Inv(db) && Runs(db, ops, end) && u != v
    requires RowAt(db.rows, u, v).chain.Some?
    ensures RowAt(end.rows, u, v).chain == RowAt(db.rows, u, v).chain
    ensures forall c :: c in db.members ==> c in end.members && end.members[c] == db.members[c]
    decreases |ops|
  {
    if ops != [] {
      StepKeepsChains(db, ops[0].0, ops[0].1, u, v);
      StepKeepsInv(db, ops[0].0, ops[0].1);
      ChainIsForever(Step(db, ops[0].0, ops[0].1), ops[1..], end, u, v);
    }
  }

  /** Different pairs have different chains, and a chain's members are exactly its pair. */
  lemma ChainsAreTheirPairs(start: Db, ops: seq<(Op, Time)>, end: Db, u: User, v: User, x: User, y: User)
    requires Empty(start) && Runs(start, ops, end) && u != v && x != y
    requires RowAt(end.rows, u, v).chain.Some?
    ensures MembersOf(end, RowAt(end.rows, u, v).chain.value) == Pair(u, v)
    ensures RowAt(end.rows, x, y).chain == RowAt(end.rows, u, v).chain <==> Pair(x, y) == Pair(u, v)
  {
    EmptyInv(start);
    RunKeepsInv(start, ops, end);
    assert Mirrored(RowAt(end.rows, u, v), RowAt(end.rows, v, u));
    if RowAt(end.rows, x, y).chain == RowAt(end.rows, u, v).chain {
      assert RowAt(end.rows, x, y).chain.Some?;
    }
  }

  /** On a pair's chain the middleware gives each member the other and turns everyone else away. */
  lemma PeerResolution(start: Db, ops: seq<(Op, Time)>, end: Db, u: User, v: User, w: User)
    requires Empty(start) && Runs(start, ops, end) && u != v
    requires RowAt(end.rows, u, v).chain.Some?
    ensures Resolve(MembersOf(end, RowAt(end.rows, u, v).chain.value), w)
            == if w == u then Peer(v) else if w == v then Peer(u) else Unauthorized
  {
    ChainsAreTheirPairs(start, ops, end, u, v, u, v);
  }

  /** The middleware's three answers, for any list of members. */
  lemma ResolvesExactly(users: seq<User>, w: User)
    ensures Resolve(users, w) == Invalid <==> |users| != 2
    ensures Resolve(users, w) == Unauthorized <==> |users| == 2 && w !in users
    ensures |users| == 2 && users[0] == w ==> Resolve(users, w) == Peer(users[1])
    ensures |users| == 2 && users[0] != w && users[1] == w ==> Resolve(users, w) == Peer(users[0])
  {
  }

  /** The first request of a pair leaves everything else null: no chain, and both marks at the zero time. */
  lemma FirstRequest(db: Db, u: User, name: string, v: User, now: Time)
    requires v in db.names && u != v && (u, v) !in db.rows && (v, u) !in db.rows
    ensures var d := Step(db, OpRequest(u, name, v), now);
            var zero := -62135596800000;
            && RowAt(d.rows, u, v) == Row(now, None, db.names[v], zero, zero, false, true, true)
            && RowAt(d.rows, v, u) == Row(now, None, name, zero, zero, false, false, true)
  {
  }

  /** On any chain of the store, being the peer of someone is mutual, and never oneself. */
  lemma PeersAreMutual(start: Db, ops: seq<(Op, Time)>, end: Db, c: ChainId, u: User, v: User)
    requires Empty(start) && Runs(start, ops, end)
    requires Resolve(MembersOf(end, c), u) == Peer(v)
    ensures Resolve(MembersOf(end, c), v) == Peer(u) && u != v
  {
    EmptyInv(start);
    RunKeepsInv(start, ops, end);
  }

  // ---- activity marks --------------------------------------------------------------------

  /**
   Over any mix of accepts, removes, requests and sends, the recipient's last_recv and the
   sender's last_seen are at least the time of every message of the sender in their chain.
   */
  lemma MarksBoundMessages(start: Db, ops: seq<(Op, Time)>, end: Db, u: User, v: User, t: Time)
    requires Empty(start) && Runs(start, ops, end) && u != v
    requires RowAt(end.rows, u, v).chain.Some?
    requires var c := RowAt(end.rows, u, v).chain.value;
             t in MessagesOf(end, c) && MessagesOf(end, c)[t].sender == u
    ensures t <= RowAt(end.rows, v, u).lastRecv && t <= RowAt(end.rows, u, v).lastSeen
    ensures var m := MessagesOf(end, RowAt(end.rows, u, v).chain.value)[t];
            m.created == t && t + DAY <= m.expires <= t + 60 * DAY && m.duration <= 300030
  {
    var c := RowAt(end.rows, u, v).chain.value;
    EmptyInv(start);
    RunKeepsInv(start, ops, end);
    PeerResolution(start, ops, end, u, v, u);
    assert Marked(end, c, t);
  }

  predicate Timely(r: Row, clock: Time) {
    r.lastRecv <= clock && r.lastSeen <= clock && r.created <= clock
  }

  /** No row is marked later than the clock. */
  ghost predicate TimesInv(db: Db) {
    && ZERO_TIME <= db.clock
    && forall u: User, v: User :: Timely(RowAt(db.rows, u, v), db.clock)
  }

  lemma StepKeepsTimes(db: Db, op: Op, now: Time)
    requires TimesInv(db) && db.clock <= now
    ensures TimesInv(Step(db, op, now))
  {
    var d := Step(db, op, now);
    forall u: User, v: User ensures Timely(RowAt(d.rows, u, v), now) {
      assert Timely(RowAt(db.rows, u, v), db.clock);
    }
  }

  lemma {:induction false} TimesOverRuns(db: Db, ops: seq<(Op, Time)>, end: Db)
    requires TimesInv(db) && Runs(db, ops, end)
    ensures TimesInv(end)
    decreases |ops|
  {
    if ops != [] {
      StepKeepsTimes(db, ops[0].0, ops[0].1);
      TimesOverRuns(Step(db, ops[0].0, ops[0].1), ops[1..], end);
    }
  }

  /** Messages are keyed by chain and millisecond: a second one in the same millisecond replaces the first. */
  lemma SameMillisecondReplaces(db: Db, u: User, v: User, c: ChainId, a: Audio, b: Audio, now: Time)
    requires Resolve(MembersOf(db, c), u) == Peer(v) && Resolve(MembersOf(db, c), v) == Peer(u)
    requires Acceptable(a) && Acceptable(b)
    ensures var d := Step(Step(db, OpSend(u, c, a), now), OpSend(v, c, b), now);
            && MessagesOf(d, c).Keys == MessagesOf(db, c).Keys + {now}
            && MessagesOf(d, c)[now].sender == v
  {
  }

  /**
   What a send does: it is accepted exactly from a member of a chain of two, up to five minutes and
   30 milliseconds and two million bytes, and then stores the message as given, to expire after the
   days asked for if they are 1 to 59, and after 60 otherwise; refused, it changes nothing.
   */
  lemma SendOutcome(db: Db, u: User, c: ChainId, a: Audio, now: Time)
    ensures var d := Step(db, OpSend(u, c, a), now);
            var users := MembersOf(db, c);
            var days := if 1 <= a.expireDays <= 59 then a.expireDays else 60;
            if |users| == 2 && u in users && a.duration <= 300030 && a.size <= 2000000 then
              var peer := if users[0] == u then users[1] else users[0];
              && MessagesOf(d, c)
                 == MessagesOf(db, c)[now := Message(u, now, now + days * 86400000, a.display, a.duration)]
              && RowAt(d.rows, peer, u).lastRecv == now && RowAt(d.rows, u, peer).lastSeen == now
              && d.names == db.names && d.members == db.members && d.clock == now
            else d == db.(clock := now)
  {
  }

  ghost predicate Keeps(db: Db, d: Db, c: ChainId) {
    forall t: Time :: t in MessagesOf(db, c) ==> t in MessagesOf(d, c) && MessagesOf(d, c)[t] == MessagesOf(db, c)[t]
  }

  /**
   An accepted send keeps everything stored in its chain exactly when nothing is stored there for
   this very millisecond, or what is stored is the message sent.
   */
  lemma SendKeepsExactly(db: Db, u: User, c: ChainId, a: Audio, now: Time)
    requires Resolve(MembersOf(db, c), u).Peer? && Acceptable(a)
    ensures var d := Step(db, OpSend(u, c, a), now);
            && now in MessagesOf(d, c)
            && (Keeps(db, d, c) <==> now !in MessagesOf(db, c) || MessagesOf(db, c)[now] == MessagesOf(d, c)[now])
  {
  }

  /** Every send comes later than the step before it. */
  ghost predicate SendsAdvance(clock: Time, ops: seq<(Op, Time)>)
    decreases |ops|
  {
    ops != [] ==> (ops[0].0.OpSend? ==> clock < ops[0].1) && SendsAdvance(ops[0].1, ops[1..])
  }

  lemma StepKeepsMessages(db: Db, op: Op, now: Time, c: ChainId)
    requires MarksInv(db) && (op.OpSend? ==> db.clock < now)
    ensures Keeps(db, Step(db, op, now), c)
  {
    forall t: Time | t in MessagesOf(db, c) ensures t <= db.clock {
      assert Marked(db, c, t);
    }
  }

  /** So over any run whose sends each come after the step before, no message is ever lost or altered. */
  lemma {:induction false} MessagesSurvive(db: Db, ops: seq<(Op, Time)>, end: Db, c: ChainId)
    requires Inv(db) && Runs(db, ops, end) && SendsAdvance(db.clock, ops)
    ensures Keeps(db, end, c)
    decreases |ops|
  {
    if ops != [] {
      var op, now := ops[0].0, ops[0].1;
      StepKeepsMessages(db, op, now, c);
      StepKeepsInv(db, op, now);
      MessagesSurvive(Step(db, op, now), ops[1..], end, c);
    }
  }

  // ---- friendship and consent ------------------------------------------------------------

  predicate Friends(db: Db, u: User, v: User) {
    RowAt(db.rows, u, v).active && RowAt(db.rows, u, v).friend
  }

  /** AcceptRelation checks nothing: it makes friends exactly when the relation was active, whoever had asked. */
  lemma AcceptMakesFriends(db: Db, u: User, v: User, newId: ChainId, now: Time)
    requires Inv(db) && u != v
    ensures var d := Step(db, OpAccept(u, v, newId), now);
            && (Friends(d, u, v) <==> RowAt(db.rows, u, v).active)
            && (Friends(d, v, u) <==> RowAt(db.rows, u, v).active)
  {
    assert Mirrored(RowAt(db.rows, u, v), RowAt(db.rows, v, u));
  }

  /** And RequestRelation keeps the friend column: a request makes friends at once exactly when it is set. */
  lemma RequestMakesFriends(db: Db, u: User, name: string, v: User, now: Time)
    requires Inv(db) && u != v && v in db.names
    ensures Friends(Step(db, OpRequest(u, name, v), now), u, v) <==> RowAt(db.rows, u, v).friend
  {
  }

  /** So an accept sent first turns one's own later request into a friendship nobody else agreed to. */
  lemma FriendshipWithoutConsent(db: Db, u: User, name: string, v: User, newId: ChainId, now: Time)
    requires Empty(db) && u != v && v in db.names && db.clock <= now
    ensures var ops := [(OpAccept(u, v, newId), now), (OpRequest(u, name, v), now)];
            exists end: Db :: Runs(db, ops, end) && Friends(end, u, v) && Friends(end, v, u)
  {
    var ops := [(OpAccept(u, v, newId), now), (OpRequest(u, name, v), now)];
    var d := Step(db, ops[0].0, now);
    var end := Step(d, ops[1].0, now);
    assert ops[1..] == [ops[1]] && [ops[1]][1..] == [];
    assert Runs(d, [ops[1]], end);
    assert Runs(db, ops, end);
  }

  /**
   After any run, a remove is what it takes to leave friendship, and it does; but the chain stays
   open: each side still reaches the other through it.
   */
  lemma RemovedPeersStillSend(start: Db, ops: seq<(Op, Time)>, db: Db, u: User, v: User, a: Audio, now: Time)
    requires Empty(start) && Runs(start, ops, db) && u != v && db.clock <= now
    requires RowAt(db.rows, u, v).chain.Some? && Acceptable(a)
    ensures var c := RowAt(db.rows, u, v).chain.value;
            var removed := Step(db, OpRemove(u, v), now);
            var sent := Step(removed, OpSend(u, c, a), now);
            && !RowAt(removed.rows, u, v).active && !RowAt(removed.rows, v, u).active
            && !Friends(removed, u, v) && !Friends(removed, v, u)
            && now in MessagesOf(sent, c) && MessagesOf(sent, c)[now].sender == u
  {
    PeerResolution(start, ops, db, u, v, u);
  }
}
