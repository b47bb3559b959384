/**
 RelationsMapper (helpers/relation.helpers.go:16-90): a user's rows, in the order the database
 keeps them, are spread over three lists, which are then sorted stably.
 */
module RelationLists {
  import opened Bytes
  import opened Relations
  import RelationLaws

  datatype Friend = Friend(relation: User, username: string, chain: Option<ChainId>, created: Time,
                           lastSeen: Time, lastRecv: Time)
  datatype Requested = Requested(relation: User, username: string, created: Time, requested: bool)

  datatype Lists = Lists(friends: seq<Friend>, requests: seq<Requested>, requested: seq<Requested>)

  type Listing = seq<(User, Row)>

  // ---- stable sorting --------------------------------------------------------------------

  /** Insert behind everything that is not larger. */
  function InsertLast<T>(s: seq<T>, x: T, key: T -> int): seq<T> {
    if s == [] || key(s[|s| - 1]) <= key(x) then s + [x]
    else InsertLast(s[..|s| - 1], x, key) + [s[|s| - 1]]
  }

  /** sort.SliceStable by an ascending key. */
  function SortStable<T>(s: seq<T>, key: T -> int): seq<T> {
    if s == [] then [] else InsertLast(SortStable(s[..|s| - 1], key), s[|s| - 1], key)
  }

  ghost predicate Ascending<T>(s: seq<T>, key: T -> int) {
    forall i, j :: 0 <= i < j < |s| ==> key(s[i]) <= key(s[j])
  }

  /** The elements with key k, in order. */
  function WithKey<T>(s: seq<T>, key: T -> int, k: int): seq<T> {
    if s == [] then []
    else WithKey(s[..|s| - 1], key, k) + if key(s[|s| - 1]) == k then [s[|s| - 1]] else []
  }

  lemma {:induction false} InsertLastHolds<T>(s: seq<T>, x: T, key: T -> int)
    ensures multiset(InsertLast(s, x, key)) == multiset(s) + multiset{x}
  {
    if s != [] && key(s[|s| - 1]) > key(x) {
      assert s == s[..|s| - 1] + [s[|s| - 1]];
      InsertLastHolds(s[..|s| - 1], x, key);
    }
  }

  /** No larger than what they were inserted among. */
  lemma {:induction false} InsertLastSorts<T>(s: seq<T>, x: T, key: T -> int, bound: int)
    requires Ascending(s, key)
    ensures Ascending(InsertLast(s, x, key), key)
    ensures (forall i :: 0 <= i < |s| ==> key(s[i]) <= bound) && key(x) <= bound ==>
              forall i :: 0 <= i < |InsertLast(s, x, key)| ==> key(InsertLast(s, x, key)[i]) <= bound
  {
    if s != [] && key(s[|s| - 1]) > key(x) {
      InsertLastSorts(s[..|s| - 1], x, key, bound);
      InsertLastSorts(s[..|s| - 1], x, key, key(s[|s| - 1]));
    }
  }

  lemma {:induction false} InsertLastWithKey<T>(s: seq<T>, x: T, key: T -> int, k: int)
    requires Ascending(s, key)
    ensures WithKey(InsertLast(s, x, key), key, k) == WithKey(s, key, k) + if key(x) == k then [x] else []
  {
    if s == [] || key(s[|s| - 1]) <= key(x) {
      assert (s + [x])[..|s|] == s;
    } else {
      var init, last := s[..|s| - 1], s[|s| - 1];
      var r := InsertLast(init, x, key);
      InsertLastWithKey(init, x, key, k);
      assert (r + [last])[..|r|] == r;
      if key(last) == k && key(x) == k {
        assert false;
      }
      if key(x) == k {
        assert WithKey(s, key, k) == WithKey(init, key, k);
      }
    }
  }

  /** It sorts, loses and invents nothing, and keeps the order of elements with equal keys. */
  lemma {:induction false} SortStableSorts<T>(s: seq<T>, key: T -> int, k: int)
    ensures var r := SortStable(s, key);
            Ascending(r, key) && multiset(r) == multiset(s) && WithKey(r, key, k) == WithKey(s, key, k)
  {
    if s != [] {
      var init := s[..|s| - 1];
      assert s == init + [s[|s| - 1]];
      SortStableSorts(init, key, k);
      InsertLastHolds(SortStable(init, key), s[|s| - 1], key);
      InsertLastSorts(SortStable(init, key), s[|s| - 1], key, 0);
      InsertLastWithKey(SortStable(init, key), s[|s| - 1], key, k);
    }
  }

  // ---- the mapper ------------------------------------------------------------------------

  function FriendOf(v: User, r: Row): Friend {
    Friend(v, r.username, r.chain, r.created, r.lastSeen, r.lastRecv)
  }

  function RequestOf(v: User, r: Row): Requested {
    Requested(v, r.username, r.created, r.requested)
  }

  /** The scan, before sorting. */
  function Scan(rows: Listing): Lists {
    if rows == [] then Lists([], [], [])
    else
      var l := Scan(rows[..|rows| - 1]);
      var (v, r) := rows[|rows| - 1];
      if !r.active then l
      else if r.friend then l.(friends := l.friends + [FriendOf(v, r)])
      else if r.requested then l.(requested := l.requested + [RequestOf(v, r)])
      else l.(requests := l.requests + [RequestOf(v, r)])
  }

  function ByCreated(e: Requested): int { e.created }
  function NewestCreated(e: Requested): int { -e.created }
  function LatestRecv(e: Friend): int { -e.lastRecv }

  /** Requests sent: oldest first. Requests received: newest first. Friends: latest message first. */
  function Mapped(rows: Listing): Lists {
    var l := Scan(rows);
    Lists(SortStable(l.friends, LatestRecv), SortStable(l.requests, NewestCreated), SortStable(l.requested, ByCreated))
  }

  method RelationsMapper(rows: Listing) returns (l: Lists)
    ensures l == Mapped(rows)
  {
    var friends: seq<Friend> := [];
    var requests: seq<Requested> := [];
    var requested: seq<Requested> := [];
    var i := 0;
    while i < |rows|
      invariant 0 <= i <= |rows|
      invariant Lists(friends, requests, requested) == Scan(rows[..i])
    {
      assert rows[..i + 1][..i] == rows[..i];
      var (v, r) := rows[i];
      if r.active {
        if r.friend {
          friends := friends + [FriendOf(v, r)];
        } else {
          if r.requested {
            requested := requested + [RequestOf(v, r)];
          } else {
            requests := requests + [RequestOf(v, r)];
          }
        }
      }
      i := i + 1;
    }
    assert rows[..|rows|] == rows;
    if |requested| >= 1 {
      requested := SortStable(requested, ByCreated);
    }
    if |requests| >= 1 {
      requests := SortStable(requests, NewestCreated);
    }
    if |friends| >= 1 {
      friends := SortStable(friends, LatestRecv);
    }
    return Lists(friends, requests, requested);
  }

  // ---- partition -------------------------------------------------------------------------

  ghost predicate OnceEach(rows: Listing) {
    forall i, j :: 0 <= i < j < |rows| ==> rows[i].0 != rows[j].0
  }

  function CountActive(rows: Listing): nat {
    if rows == [] then 0 else CountActive(rows[..|rows| - 1]) + if rows[|rows| - 1].1.active then 1 else 0
  }

  /** Where a row goes; f, q and s stand for friends, requests and requested. */
  ghost predicate Placed(v: User, r: Row, l: Lists) {
    && (r.active && r.friend <==> FriendOf(v, r) in l.friends)
    && (r.active && !r.friend && r.requested <==> RequestOf(v, r) in l.requested)
    && (r.active && !r.friend && !r.requested <==> RequestOf(v, r) in l.requests)
  }

  ghost predicate Names(l: Lists, rows: Listing) {
    && (forall e :: e in l.friends ==> exists i :: 0 <= i < |rows| && rows[i].0 == e.relation)
    && (forall e :: e in l.requests ==> exists i :: 0 <= i < |rows| && rows[i].0 == e.relation)
    && (forall e :: e in l.requested ==> exists i :: 0 <= i < |rows| && rows[i].0 == e.relation)
  }

  lemma {:induction false} ScanPartitions(rows: Listing)
    requires OnceEach(rows)
    ensures var l := Scan(rows);
            && Names(l, rows)
            && (forall i :: 0 <= i < |rows| ==> Placed(rows[i].0, rows[i].1, l))
            && |l.friends| + |l.requests| + |l.requested| == CountActive(rows)
  {
    if rows != [] {
      var n := |rows| - 1;
      ScanPartitions(rows[..n]);
      var before, l := Scan(rows[..n]), Scan(rows);
      assert forall i :: 0 <= i < n ==> rows[..n][i] == rows[i];
      forall i | 0 <= i < |rows| ensures Placed(rows[i].0, rows[i].1, l) {
        if i < n {
          assert Placed(rows[i].0, rows[i].1, before);
          assert rows[i].0 != rows[n].0;
        }
      }
    }
  }

  /** The elements of a sorted list are those of the list. */
  lemma SortStableIn<T>(s: seq<T>, key: T -> int)
    ensures Ascending(SortStable(s, key), key) && |SortStable(s, key)| == |s|
    ensures forall e :: e in SortStable(s, key) <==> e in s
  {
    SortStableSorts(s, key, 0);
    var r := SortStable(s, key);
    assert |multiset(r)| == |r| && |multiset(s)| == |s|;
    forall e ensures e in r <==> e in s {
      assert e in r <==> e in multiset(r);
      assert e in s <==> e in multiset(s);
    }
  }

  /**
   The three lists are a sorted partition of the user's active rows: each such row is in exactly
   one of them, the one its friend and requested columns say, and nothing else is in any.
   */
  lemma MapperPartitions(rows: Listing)
    requires OnceEach(rows)
    ensures var l := Mapped(rows);
            && Ascending(l.friends, LatestRecv)
            && Ascending(l.requests, NewestCreated)
            && Ascending(l.requested, ByCreated)
            && Names(l, rows)
            && (forall i :: 0 <= i < |rows| ==> Placed(rows[i].0, rows[i].1, l))
            && |l.friends| + |l.requests| + |l.requested| == CountActive(rows)
  {
    var l := Scan(rows);
    ScanPartitions(rows);
    SortStableIn(l.friends, LatestRecv);
    SortStableIn(l.requests, NewestCreated);
    SortStableIn(l.requested, ByCreated);
    forall i | 0 <= i < |rows| ensures Placed(rows[i].0, rows[i].1, Mapped(rows)) {
      assert Placed(rows[i].0, rows[i].1, l);
    }
  }

  /**
   In the columns themselves: friends by latest message first, requests received by newest first,
   requests sent by oldest first; and an active row shows with exactly its own columns.
   */
  lemma ListsInOrder(rows: Listing)
    requires OnceEach(rows)
    ensures var l := Mapped(rows);
            && (forall i, j :: 0 <= i < j < |l.friends| ==> l.friends[i].lastRecv >= l.friends[j].lastRecv)
            && (forall i, j :: 0 <= i < j < |l.requests| ==> l.requests[i].created >= l.requests[j].created)
            && (forall i, j :: 0 <= i < j < |l.requested| ==> l.requested[i].created <= l.requested[j].created)
  {
    MapperPartitions(rows);
    var l := Mapped(rows);
    forall i, j | 0 <= i < j < |l.friends| ensures l.friends[i].lastRecv >= l.friends[j].lastRecv {
      assert LatestRecv(l.friends[i]) <= LatestRecv(l.friends[j]);
    }
    forall i, j | 0 <= i < j < |l.requests| ensures l.requests[i].created >= l.requests[j].created {
      assert NewestCreated(l.requests[i]) <= NewestCreated(l.requests[j]);
    }
    forall i, j | 0 <= i < j < |l.requested| ensures l.requested[i].created <= l.requested[j].created {
      assert ByCreated(l.requested[i]) <= ByCreated(l.requested[j]);
    }
  }

  lemma ShownAsStored(rows: Listing, i: nat)
    requires OnceEach(rows) && i < |rows| && rows[i].1.active
    ensures var l, v, r := Mapped(rows), rows[i].0, rows[i].1;
            if r.friend then
              exists e :: e in l.friends && e.relation == v && e.username == r.username && e.chain == r.chain
                          && e.created == r.created && e.lastSeen == r.lastSeen && e.lastRecv == r.lastRecv
            else
              exists e :: e in (if r.requested then l.requested else l.requests) && e.relation == v
                          && e.username == r.username && e.created == r.created && e.requested == r.requested
  {
    MapperPartitions(rows);
    var l, v, r := Mapped(rows), rows[i].0, rows[i].1;
    assert Placed(v, r, l);
    if r.friend {
      assert FriendOf(v, r) in l.friends;
    } else {
      assert RequestOf(v, r) in (if r.requested then l.requested else l.requests);
    }
  }

  // ---- the two users' lists agree --------------------------------------------------------

  /** rows are all of u's rows, each once. */
  ghost predicate IsListing(db: Db, u: User, rows: Listing) {
    && OnceEach(rows)
    && (forall i :: 0 <= i < |rows| ==> (u, rows[i].0) in db.rows && db.rows[(u, rows[i].0)] == rows[i].1)
    && (forall v: User :: (u, v) in db.rows ==> exists i :: 0 <= i < |rows| && rows[i].0 == v)
  }

  ghost predicate ListsFriend(rows: Listing, v: User) {
    exists e :: e in Mapped(rows).friends && e.relation == v
  }

  ghost predicate ListsRequest(rows: Listing, v: User) {
    exists e :: e in Mapped(rows).requests && e.relation == v
  }

  ghost predicate ListsRequested(rows: Listing, v: User) {
    exists e :: e in Mapped(rows).requested && e.relation == v
  }

  /** What a user sees of v is what the row says. */
  lemma ListedByRow(db: Db, u: User, rows: Listing, v: User)
    requires IsListing(db, u, rows)
    ensures var r := RowAt(db.rows, u, v);
            && (ListsFriend(rows, v) <==> r.active && r.friend)
            && (ListsRequested(rows, v) <==> r.active && !r.friend && r.requested)
            && (ListsRequest(rows, v) <==> r.active && !r.friend && !r.requested)
  {
    var l := Mapped(rows);
    var r := RowAt(db.rows, u, v);
    ScanEntries(rows);
    MapperPartitions(rows);
    if (u, v) in db.rows {
      var i :| 0 <= i < |rows| && rows[i].0 == v;
      assert Placed(v, r, l);
    }
  }

  /** Every entry is the image of a row. */
  ghost predicate Images(l: Lists, rows: Listing) {
    && (forall e :: e in l.friends ==>
          exists i :: 0 <= i < |rows| && e == FriendOf(rows[i].0, rows[i].1) && rows[i].1.active && rows[i].1.friend)
    && (forall e :: e in l.requests ==>
          exists i :: 0 <= i < |rows| && e == RequestOf(rows[i].0, rows[i].1)
                      && rows[i].1.active && !rows[i].1.friend && !rows[i].1.requested)
    && (forall e :: e in l.requested ==>
          exists i :: 0 <= i < |rows| && e == RequestOf(rows[i].0, rows[i].1)
                      && rows[i].1.active && !rows[i].1.friend && rows[i].1.requested)
  }

  lemma {:induction false} ScanImages(rows: Listing)
    ensures Images(Scan(rows), rows)
  {
    if rows != [] {
      var n := |rows| - 1;
      ScanImages(rows[..n]);
      assert forall i :: 0 <= i < n ==> rows[..n][i] == rows[i];
    }
  }

  lemma ScanEntries(rows: Listing)
    ensures Images(Mapped(rows), rows)
  {
    var l := Scan(rows);
    ScanImages(rows);
    SortStableIn(l.friends, LatestRecv);
    SortStableIn(l.requests, NewestCreated);
    SortStableIn(l.requested, ByCreated);
  }

  /**
   After any run of the handlers, for two different users: each lists the other among the friends
   or neither does, and one lists the other as requested exactly when the other has the request.
   */
  lemma ListsAgree(start: Db, ops: seq<(Op, Time)>, db: Db, u: User, v: User, ofU: Listing, ofV: Listing)
    requires Empty(start) && Relations.Runs(start, ops, db) && u != v
    requires IsListing(db, u, ofU) && IsListing(db, v, ofV)
    ensures ListsFriend(ofU, v) <==> ListsFriend(ofV, u)
    ensures ListsRequested(ofU, v) <==> ListsRequest(ofV, u)
    ensures ListsRequest(ofU, v) <==> ListsRequested(ofV, u)
  {
    RelationLaws.MirrorOverRuns(start, ops, db, u, v);
    ListedByRow(db, u, ofU, v);
    ListedByRow(db, v, ofV, u);
  }

  // ---- what the handlers change, as the two users see it ---------------------------------

  /** A listed row is a row. */
  lemma EntryOf(db: Db, u: User, rows: Listing, v: User)
    requires IsListing(db, u, rows) && (u, v) in db.rows
    ensures Placed(v, RowAt(db.rows, u, v), Mapped(rows))
  {
    MapperPartitions(rows);
    var i :| 0 <= i < |rows| && rows[i].0 == v;
    assert Placed(rows[i].0, rows[i].1, Mapped(rows));
  }

  /** A request shows on both sides: with its time, under the other's name, as sent and as received. */
  lemma RequestShows(db: Db, u: User, name: string, v: User, now: Time, ofU: Listing, ofV: Listing)
    requires Inv(db) && u != v && v in db.names && !RowAt(db.rows, u, v).friend
    requires var d := Step(db, OpRequest(u, name, v), now); IsListing(d, u, ofU) && IsListing(d, v, ofV)
    ensures Requested(v, db.names[v], now, true) in Mapped(ofU).requested
    ensures Requested(u, name, now, false) in Mapped(ofV).requests
  {
    var d := Step(db, OpRequest(u, name, v), now);
    assert Mirrored(RowAt(db.rows, u, v), RowAt(db.rows, v, u));
    EntryOf(d, u, ofU, v);
    EntryOf(d, v, ofV, u);
  }

  /** Accepting an active relation makes each a friend of the other, on one chain, marked now. */
  lemma AcceptShows(db: Db, u: User, v: User, newId: ChainId, now: Time, ofU: Listing, ofV: Listing)
    requires Inv(db) && Admissible(db, OpAccept(u, v, newId), now) && u != v && RowAt(db.rows, u, v).active
    requires var d := Step(db, OpAccept(u, v, newId), now); IsListing(d, u, ofU) && IsListing(d, v, ofV)
    ensures var r, s := RowAt(db.rows, u, v), RowAt(db.rows, v, u);
            var chain := Some(r.chain.GetOr(newId));
            && Friend(v, r.username, chain, r.created, now, now) in Mapped(ofU).friends
            && Friend(u, s.username, chain, s.created, now, now) in Mapped(ofV).friends
  {
    var d := Step(db, OpAccept(u, v, newId), now);
    assert Mirrored(RowAt(db.rows, u, v), RowAt(db.rows, v, u));
    EntryOf(d, u, ofU, v);
    EntryOf(d, v, ofV, u);
  }

  /** After a remove neither lists the other anywhere. */
  lemma RemoveHides(db: Db, u: User, v: User, now: Time, ofU: Listing, ofV: Listing)
    requires u != v
    requires var d := Step(db, OpRemove(u, v), now); IsListing(d, u, ofU) && IsListing(d, v, ofV)
    ensures !ListsFriend(ofU, v) && !ListsRequest(ofU, v) && !ListsRequested(ofU, v)
    ensures !ListsFriend(ofV, u) && !ListsRequest(ofV, u) && !ListsRequested(ofV, u)
  {
    var d := Step(db, OpRemove(u, v), now);
    ListedByRow(d, u, ofU, v);
    ListedByRow(d, v, ofV, u);
  }

  /** When no row is later than now, a friend marked now puts now at the head of the list. */
  lemma LatestComesFirst(rows: Listing, e: Friend)
    requires OnceEach(rows) && e in Mapped(rows).friends
    requires forall i :: 0 <= i < |rows| ==> rows[i].1.lastRecv <= e.lastRecv
    ensures Mapped(rows).friends != [] && Mapped(rows).friends[0].lastRecv == e.lastRecv
  {
    MapperPartitions(rows);
    ScanEntries(rows);
    var friends := Mapped(rows).friends;
    var i :| 0 <= i < |friends| && friends[i] == e;
    assert LatestRecv(friends[0]) <= LatestRecv(friends[i]);
    assert friends[0] in friends;
  }

  /** The row a message to a friend marks. */
  lemma SentRow(db: Db, u: User, v: User, a: Audio, now: Time)
    requires Inv(db) && u != v && RelationLaws.Friends(db, v, u) && Acceptable(a)
    ensures var d := Step(db, OpSend(u, RowAt(db.rows, v, u).chain.GetOr(0), a), now);
            && (v, u) in d.rows && RowAt(d.rows, v, u) == RowAt(db.rows, v, u).(lastRecv := now)
  {
    var c := RowAt(db.rows, v, u).chain.GetOr(0);
    assert Mirrored(RowAt(db.rows, v, u), RowAt(db.rows, u, v));
    assert MembersOf(db, c) == Pair(v, u);
  }

  /** A message to a friend brings the sender to the head of the recipient's list, or level with it. */
  lemma SenderComesFirst(db: Db, u: User, v: User, a: Audio, now: Time, ofV: Listing)
    requires Inv(db) && RelationLaws.TimesInv(db) && db.clock <= now
    requires u != v && RelationLaws.Friends(db, v, u) && Acceptable(a)
    requires var d := Step(db, OpSend(u, RowAt(db.rows, v, u).chain.GetOr(0), a), now); IsListing(d, v, ofV)
    ensures var friends := Mapped(ofV).friends;
            && FriendOf(u, RowAt(db.rows, v, u).(lastRecv := now)) in friends
            && friends[0].lastRecv == now
  {
    var op := OpSend(u, RowAt(db.rows, v, u).chain.GetOr(0), a);
    var d := Step(db, op, now);
    SentRow(db, u, v, a, now);
    RelationLaws.StepKeepsTimes(db, op, now);
    EntryOf(d, v, ofV, u);
    forall i | 0 <= i < |ofV| ensures ofV[i].1.lastRecv <= now {
      assert RowAt(d.rows, v, ofV[i].0) == ofV[i].1;
    }
    LatestComesFirst(ofV, FriendOf(u, RowAt(d.rows, v, u)));
  }
}
