/**
 Reading a chain (helpers/chain.helpers.go:15-87, services/chain.services.go:31-57). The database
 keeps a chain's messages by their creation time, in milliseconds and without repetition; a
 chain is the ascending sequence of them. A query filters, orders and takes.
 */
module Chains {
  import opened Relations

  const PAGE: int := 10

  ghost predicate Ascending(s: seq<Message>) {
    forall i, j :: 0 <= i < j < |s| ==> s[i].created < s[j].created
  }

  type Chain = s: seq<Message> | Ascending(s) witness []

  /** s lists the rows stored for one chain. */
  ghost predicate Lists(stored: map<Time, Message>, s: seq<Message>) {
    && Ascending(s)
    && (forall i :: 0 <= i < |s| ==> s[i].created in stored && stored[s[i].created] == s[i])
    && (forall t :: t in stored ==> stored[t] in s)
  }

  // ---- queries ---------------------------------------------------------------------------

  function Before(t: Time): Time -> bool {
    c => c < t
  }

  function UpTo(t: Time): Time -> bool {
    c => c <= t
  }

  function After(t: Time): Time -> bool {
    c => c > t
  }

  function Filter(s: seq<Message>, keep: Time -> bool): (r: seq<Message>)
    ensures |r| <= |s|
  {
    if s == [] then [] else (if keep(s[0].created) then [s[0]] else []) + Filter(s[1..], keep)
  }

  function Reverse<T>(s: seq<T>): (r: seq<T>)
    ensures |r| == |s| && forall i :: 0 <= i < |s| ==> r[i] == s[|s| - 1 - i]
  {
    if s == [] then [] else Reverse(s[1..]) + [s[0]]
  }

  function Take<T>(s: seq<T>, n: nat): seq<T> {
    if |s| <= n then s else s[..n]
  }

  /** The three queries: newer than t oldest first; older than t, or not newer, newest first. */
  function Query(s: seq<Message>, t: Time, asc: bool, isNew: bool, n: nat): seq<Message> {
    if isNew then Take(Reverse(Filter(s, UpTo(t))), n)
    else if asc then Take(Filter(s, After(t)), n)
    else Take(Reverse(Filter(s, Before(t))), n)
  }

  method ReverseInPlace(a: array<Message>)
    modifies a
    ensures a[..] == Reverse(old(a[..]))
  {
    var n := a.Length;
    var i := 0;
    while i < n / 2
      invariant 0 <= i <= n / 2
      invariant forall k :: 0 <= k < i ==> a[k] == old(a[n - 1 - k]) && a[n - 1 - k] == old(a[k])
      invariant forall k :: i <= k < n - i ==> a[k] == old(a[k])
    {
      var j := n - i - 1;
      a[i], a[j] := a[j], a[i];
      i := i + 1;
    }
  }

  /** GetChain of the helpers: clamp, query, copy the rows, reverse them unless ascending. */
  method GetChain(s: seq<Message>, reqTime: Time, asc: bool, isNew: bool, limit: int) returns (chain: seq<Message>)
    ensures chain == Page(s, reqTime, asc, isNew, limit)
  {
    var n := limit;
    if n > 10 {
      n := 10;
    } else if n <= 0 {
      return [];
    }
    var rows := Query(s, reqTime, asc, isNew, n);
    chain := [];
    for i := 0 to |rows|
      invariant chain == rows[..i]
    {
      chain := chain + [rows[i]];
    }
    if !asc {
      var a := new Message[|chain|](i requires 0 <= i < |chain| => chain[i]);
      assert a[..] == rows;
      ReverseInPlace(a);
      chain := a[..];
    }
  }

  function Page(s: seq<Message>, t: Time, asc: bool, isNew: bool, limit: int): seq<Message> {
    if limit <= 0 then []
    else
      var rows := Query(s, t, asc, isNew, if limit > PAGE then PAGE else limit);
      if asc then rows else Reverse(rows)
  }

  /** GetChain of the service: the newest page, or a page down joined with a page up. */
  function Response(s: seq<Message>, t: Time, asc: bool, desc: bool, limit: int): seq<Message> {
    if !asc && !desc then Page(s, t, false, true, limit)
    else (if desc then Page(s, t, false, false, limit) else []) + (if asc then Page(s, t, true, false, limit) else [])
  }

  // ---- pages are windows -----------------------------------------------------------------

  /** How many messages are older than t, and how many are not newer. */
  function Older(s: seq<Message>, t: Time): (k: nat)
    ensures k <= |s|
  {
    |Filter(s, Before(t))|
  }

  function NotNewer(s: seq<Message>, t: Time): (m: nat)
    ensures m <= |s|
  {
    |Filter(s, UpTo(t))|
  }

  lemma {:induction false} FilterPrefix(s: Chain, keep: Time -> bool, k: nat)
    requires k <= |s|
    requires forall i :: 0 <= i < |s| ==> (keep(s[i].created) <==> i < k)
    ensures Filter(s, keep) == s[..k]
  {
    if s != [] {
      FilterPrefix(s[1..], keep, if k == 0 then 0 else k - 1);
      assert k > 0 ==> s[..k] == [s[0]] + s[1..][..k - 1];
    }
  }

  lemma {:induction false} FilterSuffix(s: Chain, keep: Time -> bool, k: nat)
    requires k <= |s|
    requires forall i :: 0 <= i < |s| ==> (keep(s[i].created) <==> i >= k)
    ensures Filter(s, keep) == s[k..]
  {
    if s != [] {
      FilterSuffix(s[1..], keep, if k == 0 then 0 else k - 1);
      assert k > 0 ==> s[k..] == s[1..][k - 1..];
      assert k == 0 ==> s[k..] == [s[0]] + s[1..];
    }
  }

  /** Where a downward-closed condition on times stops holding. */
  lemma {:induction false} Boundary(s: Chain, below: Time -> bool) returns (k: nat)
    requires forall a: Time, b: Time :: a <= b && below(b) ==> below(a)
    ensures k <= |s| && forall i :: 0 <= i < |s| ==> (below(s[i].created) <==> i < k)
  {
    k := 0;
    while k < |s| && below(s[k].created)
      invariant 0 <= k <= |s|
      invariant forall i :: 0 <= i < k ==> below(s[i].created)
    {
      k := k + 1;
    }
  }

  /** k messages are older than t and m not newer. */
  ghost predicate CutAt(s: seq<Message>, t: Time, k: nat, m: nat) {
    && k <= m <= |s| && m <= k + 1
    && (forall i :: 0 <= i < k ==> s[i].created < t)
    && (forall i :: k <= i < m ==> s[i].created == t)
    && (forall i :: m <= i < |s| ==> s[i].created > t)
  }

  lemma Filtered(s: Chain, t: Time, k: nat, m: nat)
    requires CutAt(s, t, k, m)
    ensures Filter(s, Before(t)) == s[..k] && Filter(s, UpTo(t)) == s[..m] && Filter(s, After(t)) == s[m..]
  {
    FilterPrefix(s, Before(t), k);
    FilterPrefix(s, UpTo(t), m);
    FilterSuffix(s, After(t), m);
  }

  /** Older and NotNewer are indices: they cut the chain at the cursor, at most one message apart. */
  lemma Cursor(s: Chain, t: Time)
    ensures CutAt(s, t, Older(s, t), NotNewer(s, t))
    ensures Filter(s, Before(t)) == s[..Older(s, t)]
    ensures Filter(s, UpTo(t)) == s[..NotNewer(s, t)]
    ensures Filter(s, After(t)) == s[NotNewer(s, t)..]
  {
    var k := Boundary(s, Before(t));
    var m := if k < |s| && s[k].created == t then k + 1 else k;
    assert k + 1 < |s| ==> s[k].created < s[k + 1].created;
    assert CutAt(s, t, k, m);
    Filtered(s, t, k, m);
  }

  function Least(a: int, b: int): int {
    if a < b then a else b
  }

  /** The clamped limit. */
  function Clamp(limit: int): nat {
    if limit <= 0 then 0 else Least(limit, PAGE)
  }

  /** The last n of the first k. */
  function LastOf(s: seq<Message>, k: nat, n: nat): seq<Message>
    requires k <= |s|
  {
    s[From(k, n)..k]
  }

  /** The first n from k on. */
  function FirstFrom(s: seq<Message>, k: nat, n: nat): seq<Message>
    requires k <= |s|
  {
    s[k..Least(k + n, |s|)]
  }

  function From(k: nat, n: nat): nat {
    if k < n then 0 else k - n
  }

  lemma ReversedTake(s: seq<Message>, k: nat, n: nat)
    requires k <= |s|
    ensures Reverse(Take(Reverse(s[..k]), n)) == LastOf(s, k, n)
  {
  }

  lemma EmptyWindows(s: seq<Message>, k: nat)
    requires k <= |s|
    ensures LastOf(s, k, 0) == [] && FirstFrom(s, k, 0) == []
  {
  }

  /**
   Every page is a window on the chain next to the cursor, in ascending order: of the min(limit,
   10) nearest messages on its side, or as many as there are.
   */
  lemma NewestPage(s: Chain, t: Time, limit: int)
    ensures Page(s, t, false, true, limit) == LastOf(s, NotNewer(s, t), Clamp(limit))
  {
    Cursor(s, t);
    EmptyWindows(s, NotNewer(s, t));
    ReversedTake(s, NotNewer(s, t), Clamp(limit));
  }

  lemma DownPage(s: Chain, t: Time, limit: int)
    ensures Page(s, t, false, false, limit) == LastOf(s, Older(s, t), Clamp(limit))
  {
    Cursor(s, t);
    EmptyWindows(s, Older(s, t));
    ReversedTake(s, Older(s, t), Clamp(limit));
  }

  lemma UpPage(s: Chain, t: Time, limit: int)
    ensures Page(s, t, true, false, limit) == FirstFrom(s, NotNewer(s, t), Clamp(limit))
  {
    Cursor(s, t);
    EmptyWindows(s, NotNewer(s, t));
    assert Take(s[NotNewer(s, t)..], Clamp(limit)) == FirstFrom(s, NotNewer(s, t), Clamp(limit));
  }

  /** How many messages a page has: as many as there are on its side, up to the limit and to ten. */
  lemma PageSize(s: Chain, t: Time, asc: bool, isNew: bool, limit: int)
    requires asc ==> !isNew
    ensures var there := if isNew then NotNewer(s, t) else if asc then |s| - NotNewer(s, t) else Older(s, t);
            |Page(s, t, asc, isNew, limit)| == if limit <= 0 then 0 else Least(Least(limit, 10), there)
  {
    Cursor(s, t);
    if isNew {
      NewestPage(s, t, limit);
    } else if asc {
      UpPage(s, t, limit);
    } else {
      DownPage(s, t, limit);
    }
  }

  /** The service, asked for one direction only, answers with the window on that side of the request time. */
  lemma OneDirection(s: Chain, t: Time, limit: int)
    ensures Older(s, t) <= |s| && NotNewer(s, t) <= |s|
    ensures Response(s, t, false, true, limit) == LastOf(s, Older(s, t), Clamp(limit))
    ensures Response(s, t, true, false, limit) == FirstFrom(s, NotNewer(s, t), Clamp(limit))
  {
    DownPage(s, t, limit);
    UpPage(s, t, limit);
    assert [] + Page(s, t, true, false, limit) == Page(s, t, true, false, limit);
    assert Page(s, t, false, false, limit) + [] == Page(s, t, false, false, limit);
  }

  lemma SliceAscends(s: Chain, i: nat, j: nat)
    requires i <= j <= |s|
    ensures Ascending(s[i..j])
  {
  }

  /** Nothing nearer to the cursor is left out of a window that ends there. */
  lemma WindowIsNearest(s: Chain, k: nat, n: nat)
    requires k <= |s|
    ensures var p := LastOf(s, k, n);
            && |p| == Least(n, k)
            && (forall j :: From(k, n) <= j < k ==> s[j] in p)
            && (forall i, j :: 0 <= i < |p| && 0 <= j < From(k, n) ==> s[j].created < p[i].created)
  {
    var p := LastOf(s, k, n);
    forall j | From(k, n) <= j < k ensures s[j] in p {
      assert p[j - From(k, n)] == s[j];
    }
  }

  /** The last n of the older ones: all older than the cursor, and what they omit is older still. */
  lemma OlderWindow(s: Chain, t: Time, k: nat, m: nat, n: nat)
    requires CutAt(s, t, k, m)
    ensures var p := LastOf(s, k, n);
            && (forall i :: 0 <= i < |p| ==> p[i] in s && p[i].created < t)
            && (forall j :: 0 <= j < |s| && s[j].created < t && s[j] !in p ==>
                  forall i :: 0 <= i < |p| ==> s[j].created < p[i].created)
  {
    var p := LastOf(s, k, n);
    WindowIsNearest(s, k, n);
    forall j | 0 <= j < |s| && s[j].created < t && s[j] !in p
      ensures forall i :: 0 <= i < |p| ==> s[j].created < p[i].created
    {
      assert j < From(k, n);
    }
  }

  /** A page down: as full as can be, all older than the cursor, and what it omits is older still. */
  lemma PageDown(s: Chain, t: Time, limit: int)
    ensures var p := Page(s, t, false, false, limit);
            && Ascending(p) && |p| == Least(Clamp(limit), Older(s, t))
            && (forall i :: 0 <= i < |p| ==> p[i] in s && p[i].created < t)
            && (forall j :: 0 <= j < |s| && s[j].created < t && s[j] !in p ==>
                  forall i :: 0 <= i < |p| ==> s[j].created < p[i].created)
  {
    var k, n := Older(s, t), Clamp(limit);
    DownPage(s, t, limit);
    Cursor(s, t);
    OlderWindow(s, t, k, NotNewer(s, t), n);
    SliceAscends(s, From(k, n), k);
  }

  /**
   Asking for both directions: strictly ascending, and contiguous in the chain except for a
   message at the request time itself, which neither side returns.
   */
  lemma JoinedPages(s: Chain, t: Time, limit: int)
    ensures var k, m, n := Older(s, t), NotNewer(s, t), Clamp(limit);
            && k <= m <= |s| && m <= k + 1 && (m == k + 1 ==> s[k].created == t)
            && Response(s, t, true, true, limit) == LastOf(s, k, n) + FirstFrom(s, m, n)
            && Ascending(Response(s, t, true, true, limit))
            && s[From(k, n)..Least(m + n, |s|)] == LastOf(s, k, n) + s[k..m] + FirstFrom(s, m, n)
  {
    var k, m, n := Older(s, t), NotNewer(s, t), Clamp(limit);
    Cursor(s, t);
    DownPage(s, t, limit);
    UpPage(s, t, limit);
    JoinAscends(s, t, k, m, n);
  }

  lemma ConcatAscends(a: seq<Message>, b: seq<Message>)
    requires Ascending(a) && Ascending(b)
    requires a != [] && b != [] ==> a[|a| - 1].created < b[0].created
    ensures Ascending(a + b)
  {
    assert forall i :: 0 <= i < |a| ==> a[i].created <= a[|a| - 1].created;
    assert forall j :: 0 <= j < |b| ==> b[0].created <= b[j].created;
  }

  lemma ThreeSlices(s: seq<Message>, a: nat, b: nat, c: nat, d: nat)
    requires a <= b <= c <= d <= |s|
    ensures s[a..d] == s[a..b] + s[b..c] + s[c..d]
  {
  }

  lemma JoinAscends(s: Chain, t: Time, k: nat, m: nat, n: nat)
    requires CutAt(s, t, k, m)
    ensures Ascending(LastOf(s, k, n) + FirstFrom(s, m, n))
    ensures s[From(k, n)..Least(m + n, |s|)] == LastOf(s, k, n) + s[k..m] + FirstFrom(s, m, n)
  {
    var lo, hi := From(k, n), Least(m + n, |s|);
    SliceAscends(s, lo, k);
    SliceAscends(s, m, hi);
    ConcatAscends(s[lo..k], s[m..hi]);
    ThreeSlices(s, lo, k, m, hi);
  }

  // ---- paging back -----------------------------------------------------------------------

  /** Answers to desc alone, each from the first message of the one before, until one is empty. */
  function PageBack(s: Chain, cursor: Time, limit: int): seq<Message>
    decreases Older(s, cursor)
  {
    var page := Response(s, cursor, false, true, limit);
    if page == [] then []
    else
      PageMovesBack(s, cursor, limit);
      PageBack(s, page[0].created, limit) + page
  }

  /** Starting with the newest page. */
  function Browse(s: Chain, t: Time, limit: int): seq<Message> {
    var page := Response(s, t, false, false, limit);
    if page == [] then [] else PageBack(s, page[0].created, limit) + page
  }

  /** The first message of a non-empty answer sits right after what is still older. */
  lemma PageMovesBack(s: Chain, cursor: Time, limit: int)
    requires Response(s, cursor, false, true, limit) != []
    ensures var k, n := Older(s, cursor), Clamp(limit);
            var first := Response(s, cursor, false, true, limit)[0].created;
            Older(s, first) < k && Older(s, first) == From(k, n)
  {
    OneDirection(s, cursor, limit);
    var k, n := Older(s, cursor), Clamp(limit);
    CursorAt(s, From(k, n));
  }

  lemma CursorAt(s: Chain, i: nat)
    requires i < |s|
    ensures Older(s, s[i].created) == i && NotNewer(s, s[i].created) == i + 1
  {
    Cursor(s, s[i].created);
    var k := Older(s, s[i].created);
    assert i < NotNewer(s, s[i].created);
    assert !(i < k);
  }

  /** Paging back ends having listed everything older than the cursor, once and in order. */
  lemma {:induction false} PageBackListsAll(s: Chain, cursor: Time, limit: int)
    requires limit > 0
    ensures Older(s, cursor) <= |s|
    ensures PageBack(s, cursor, limit) == s[..Older(s, cursor)]
    decreases Older(s, cursor)
  {
    var page := Response(s, cursor, false, true, limit);
    var k, n := Older(s, cursor), Clamp(limit);
    OneDirection(s, cursor, limit);
    if page != [] {
      PageMovesBack(s, cursor, limit);
      PageBackListsAll(s, page[0].created, limit);
      SplitPrefix(s, From(k, n), k);
    }
  }

  lemma SplitPrefix(s: seq<Message>, lo: nat, k: nat)
    requires lo <= k <= |s|
    ensures s[..lo] + s[lo..k] == s[..k]
  {
  }

  /** From the newest page on: the whole chain up to the request time; nothing when the limit is not positive. */
  lemma BrowseListsAll(s: Chain, t: Time, limit: int)
    ensures NotNewer(s, t) <= |s|
    ensures Browse(s, t, limit) == if limit > 0 then s[..NotNewer(s, t)] else []
  {
    NewestPage(s, t, limit);
    var m, n := NotNewer(s, t), Clamp(limit);
    var page := LastOf(s, m, n);
    if page != [] {
      BrowseFrom(s, m, n, limit);
    }
  }

  lemma BrowseFrom(s: Chain, m: nat, n: nat, limit: int)
    requires m <= |s| && limit > 0 && LastOf(s, m, n) != []
    ensures PageBack(s, LastOf(s, m, n)[0].created, limit) + LastOf(s, m, n) == s[..m]
  {
    var lo := From(m, n);
    assert LastOf(s, m, n)[0] == s[lo];
    CursorAt(s, lo);
    PageBackListsAll(s, s[lo].created, limit);
    SplitPrefix(s, lo, m);
  }

  // ---- sending to a chain that is being read ---------------------------------------------

  /** A message sent later than all others is listed last; nothing else moves. */
  lemma SentIsLast(db: Db, u: User, c: ChainId, a: Audio, now: Time, s: seq<Message>)
    requires Lists(MessagesOf(db, c), s)
    requires Resolve(MembersOf(db, c), u).Peer? && Acceptable(a)
    requires forall i :: 0 <= i < |s| ==> s[i].created < now
    ensures var d := Send(db, u, c, a, now);
            && now in MessagesOf(d, c)
            && MessagesOf(d, c)[now].sender == u
            && Lists(MessagesOf(d, c), s + [MessagesOf(d, c)[now]])
  {
    var d := Send(db, u, c, a, now);
    var stored := MessagesOf(d, c);
    var t := s + [stored[now]];
    forall x | x in stored ensures stored[x] in t {
      if x == now {
        assert t[|s|] == stored[x];
      } else {
        assert stored[x] in s;
      }
    }
  }
}
