/**
 Deletion against delivery (socket/socket.go:70-85, socket/socket_op.go:25-34). A deleter removes
 the table entry under the shard's write lock and closes the channel after releasing it; a router
 delivery holds the read lock while it looks the channel up and sends on it. Any number of both
 interleave. Only router deliveries are covered, not the sends of ClientSocket itself.

 A channel holds four items (socket/socket.go:39). Sending on a full one waits for its receiver,
 which takes nothing any more once it has ended.
 */
module Delivery {
  type Chan = nat
  type Thread = nat

  const CAPACITY: nat := 4

  /** A place in a table: a shard and an id stored there, its own shard or not. */
  datatype Slot = Slot(shard: nat, id: string)

  /** A delivery, holding the read lock: before its lookup, before its send, and after it. */
  datatype Hold = Locked(slot: Slot) | Looked(slot: Slot, ch: Chan) | Sent(slot: Slot, ch: Chan)

  /**
   entries: the shard tables. removed: channels taken out, not yet closed, one per deleter.
   closes counts the closes of each channel, queued the items in it. used: channels ever made.
   ended: channels whose receiver has returned. sends lists what deliveries sent on, with whether
   the channel was closed by then.
   */
  datatype State = State(entries: map<Slot, Chan>, removed: multiset<Chan>, closes: multiset<Chan>,
                         queued: multiset<Chan>, used: set<Chan>, ended: set<Chan>,
                         readers: map<Thread, Hold>, sends: seq<(Chan, bool)>)

  datatype Step =
    | Create(slot: Slot, ch: Chan)
    | Remove(slot: Slot)
    | Close(ch: Chan)
    | Lock(t: Thread, slot: Slot)
    | Look(t: Thread)
    | Send(t: Thread)
    | Unlock(t: Thread)
    | Take(ch: Chan)
    | End(ch: Chan)

  const INITIAL: State := State(map[], multiset{}, multiset{}, multiset{}, {}, {}, map[], [])

  /** A writer gets in only when no reader holds the shard. */
  predicate NoReader(s: State, shard: nat) {
    forall t :: t in s.readers ==> s.readers[t].slot.shard != shard
  }

  /** A send goes ahead when there is room; on a closed channel it panics, room or not. */
  predicate CanSend(s: State, ch: Chan) {
    s.queued[ch] < CAPACITY || s.closes[ch] > 0
  }

  predicate Enabled(s: State, step: Step) {
    match step
    case Create(slot, ch) => NoReader(s, slot.shard) && slot !in s.entries && ch !in s.used
    case Remove(slot) => NoReader(s, slot.shard)
    case Close(ch) => s.removed[ch] > 0
    case Lock(t, slot) => t !in s.readers
    case Look(t) => t in s.readers && s.readers[t].Locked? && s.readers[t].slot in s.entries
    case Send(t) => t in s.readers && s.readers[t].Looked? && CanSend(s, s.readers[t].ch)
    case Unlock(t) =>
      t in s.readers && (s.readers[t].Sent? || (s.readers[t].Locked? && s.readers[t].slot !in s.entries))
    case Take(ch) => ch !in s.ended && s.queued[ch] > 0
    case End(ch) => ch in s.used
  }

  function Do(s: State, step: Step): State
    requires Enabled(s, step)
  {
    match step
    case Create(slot, ch) => s.(entries := s.entries[slot := ch], used := s.used + {ch})
    case Remove(slot) =>
      if slot in s.entries
      then s.(entries := s.entries - {slot}, removed := s.removed + multiset{s.entries[slot]})
      else s
    case Close(ch) => s.(removed := s.removed - multiset{ch}, closes := s.closes + multiset{ch})
    case Lock(t, slot) => s.(readers := s.readers[t := Locked(slot)])
    case Look(t) => s.(readers := s.readers[t := Looked(s.readers[t].slot, s.entries[s.readers[t].slot])])
    case Send(t) =>
      var ch := s.readers[t].ch;
      s.(readers := s.readers[t := Hold.Sent(s.readers[t].slot, ch)], queued := s.queued + multiset{ch},
         sends := s.sends + [(ch, s.closes[ch] > 0)])
    case Unlock(t) => s.(readers := s.readers - {t})
    case Take(ch) => s.(queued := s.queued - multiset{ch})
    case End(ch) => s.(ended := s.ended + {ch})
  }

  ghost predicate Inv(s: State) {
    && (forall slot :: slot in s.entries ==>
          var ch := s.entries[slot]; ch in s.used && s.removed[ch] == 0 && s.closes[ch] == 0)
    && (forall a, b :: a in s.entries && b in s.entries && a != b ==> s.entries[a] != s.entries[b])
    && (forall ch :: s.removed[ch] + s.closes[ch] <= 1)
    && (forall ch :: s.removed[ch] + s.closes[ch] == 1 ==> ch in s.used)
    && (forall t :: t in s.readers && s.readers[t].Looked? ==>
          s.readers[t].slot in s.entries && s.entries[s.readers[t].slot] == s.readers[t].ch)
    && (forall i :: 0 <= i < |s.sends| ==> !s.sends[i].1)
    && (forall ch :: s.queued[ch] <= CAPACITY)
  }

  lemma StepKeepsInv(s: State, step: Step)
    requires Inv(s) && Enabled(s, step)
    ensures Inv(Do(s, step))
  {
    if step.Remove? {
      RemoveKeepsInv(s, step.slot);
    } else if step.Close? {
      CloseKeepsInv(s, step.ch);
    } else if step.Send? {
      SendKeepsInv(s, step.t);
    } else if step.Create? {
      CreateKeepsInv(s, step.slot, step.ch);
    }
  }

  lemma CreateKeepsInv(s: State, slot: Slot, ch: Chan)
    requires Inv(s) && Enabled(s, Create(slot, ch))
    ensures Inv(Do(s, Create(slot, ch)))
  {
    assert s.removed[ch] + s.closes[ch] == 0;
  }

  /** What is looked up is still in the table, so open: the send finds room and no closed channel. */
  lemma SendKeepsInv(s: State, t: Thread)
    requires Inv(s) && Enabled(s, Send(t))
    ensures Inv(Do(s, Send(t)))
  {
    assert s.closes[s.readers[t].ch] == 0;
  }

  /** Removing takes the channel out of the table before it can be closed, and no reader holds it. */
  lemma RemoveKeepsInv(s: State, slot: Slot)
    requires Inv(s) && Enabled(s, Remove(slot))
    ensures Inv(Do(s, Remove(slot)))
  {
    if slot in s.entries {
      assert Do(s, Remove(slot)).removed[s.entries[slot]] == 1;
      assert forall r :: r in s.readers ==> s.readers[r].slot != slot;
    }
  }

  lemma CloseKeepsInv(s: State, ch: Chan)
    requires Inv(s) && Enabled(s, Close(ch))
    ensures Inv(Do(s, Close(ch)))
  {
    var t := Do(s, Close(ch));
    assert forall c :: t.removed[c] + t.closes[c] == s.removed[c] + s.closes[c];
  }

  ghost predicate Reaches(s: State, steps: seq<Step>, t: State)
    decreases |steps|
  {
    if steps == [] then s == t
    else Enabled(s, steps[0]) && Reaches(Do(s, steps[0]), steps[1..], t)
  }

  lemma {:induction false} RunKeepsInv(s: State, steps: seq<Step>, t: State)
    requires Inv(s) && Reaches(s, steps, t)
    ensures Inv(t)
    decreases |steps|
  {
    if steps != [] {
      StepKeepsInv(s, steps[0]);
      RunKeepsInv(Do(s, steps[0]), steps[1..], t);
    }
  }

  /**
   In every interleaving: a channel still in a table is open, no delivery ever sent on a closed
   channel or is about to, and no channel is closed twice.
   */
  lemma DeliveryIsSafe(steps: seq<Step>, t: State)
    requires Reaches(INITIAL, steps, t)
    ensures forall slot :: slot in t.entries ==> t.closes[t.entries[slot]] == 0
    ensures forall i :: 0 <= i < |t.sends| ==> !t.sends[i].1
    ensures forall r :: r in t.readers && t.readers[r].Looked? ==> t.closes[t.readers[r].ch] == 0
    ensures forall ch :: t.closes[ch] <= 1
  {
    RunKeepsInv(INITIAL, steps, t);
  }

  ghost predicate InTable(s: State, ch: Chan) {
    exists slot :: slot in s.entries && s.entries[slot] == ch
  }

  /** No channel ever made is forgotten: it is in a table, taken out to be closed, or closed. */
  ghost predicate NoneForgotten(s: State) {
    forall ch :: ch in s.used && s.removed[ch] + s.closes[ch] == 0 ==> InTable(s, ch)
  }

  lemma StaysInTable(s: State, t: State, ch: Chan)
    requires InTable(s, ch)
    requires forall slot :: slot in s.entries && s.entries[slot] == ch ==>
               slot in t.entries && t.entries[slot] == ch
    ensures InTable(t, ch)
  {
    var slot :| slot in s.entries && s.entries[slot] == ch;
    assert slot in t.entries && t.entries[slot] == ch;
  }

  lemma CreateForgetsNone(s: State, slot: Slot, ch: Chan)
    requires NoneForgotten(s) && Enabled(s, Create(slot, ch))
    ensures NoneForgotten(Do(s, Create(slot, ch)))
  {
    var t := Do(s, Create(slot, ch));
    forall c | c in t.used && t.removed[c] + t.closes[c] == 0 ensures InTable(t, c) {
      if c == ch {
        assert slot in t.entries && t.entries[slot] == ch;
      } else {
        StaysInTable(s, t, c);
      }
    }
  }

  lemma RemoveForgetsNone(s: State, slot: Slot)
    requires NoneForgotten(s) && Enabled(s, Remove(slot))
    ensures NoneForgotten(Do(s, Remove(slot)))
  {
    var t := Do(s, Remove(slot));
    forall c | c in t.used && t.removed[c] + t.closes[c] == 0 ensures InTable(t, c) {
      StaysInTable(s, t, c);
    }
  }

  /** The tables stay, and so does what was taken out or closed. */
  lemma OthersForgetNone(s: State, t: State)
    requires NoneForgotten(s) && t.entries == s.entries && t.used == s.used
    requires forall ch :: t.removed[ch] + t.closes[ch] == s.removed[ch] + s.closes[ch]
    ensures NoneForgotten(t)
  {
    forall c | c in t.used && t.removed[c] + t.closes[c] == 0 ensures InTable(t, c) {
      StaysInTable(s, t, c);
    }
  }

  lemma StepForgetsNone(s: State, step: Step)
    requires Inv(s) && NoneForgotten(s) && Enabled(s, step)
    ensures NoneForgotten(Do(s, step))
  {
    match step
    case Create(slot, ch) => CreateForgetsNone(s, slot, ch);
    case Remove(slot) => RemoveForgetsNone(s, slot);
    case _ => OthersForgetNone(s, Do(s, step));
  }

  lemma {:induction false} RunForgetsNone(s: State, steps: seq<Step>, t: State)
    requires Inv(s) && NoneForgotten(s) && Reaches(s, steps, t)
    ensures Inv(t) && NoneForgotten(t)
    decreases |steps|
  {
    if steps != [] {
      StepKeepsInv(s, steps[0]);
      StepForgetsNone(s, steps[0]);
      RunForgetsNone(Do(s, steps[0]), steps[1..], t);
    }
  }

  /**
   In every interleaving each channel ever made is in exactly one place: in a table, taken out by one
   deleter who can still close it, or closed once.
   */
  lemma ChannelsAreConserved(steps: seq<Step>, t: State, ch: Chan)
    requires Reaches(INITIAL, steps, t) && ch in t.used
    ensures (if InTable(t, ch) then 1 else 0) + t.removed[ch] + t.closes[ch] == 1
    ensures t.removed[ch] == 1 ==> Enabled(t, Close(ch)) && Do(t, Close(ch)).closes[ch] == 1
  {
    RunForgetsNone(INITIAL, steps, t);
  }

  /** Without the read lock it fails: looked up, removed and closed, then sent on. */
  lemma LockIsNeeded(s: State, slot: Slot, ch: Chan, r: Thread)
    requires Inv(s) && slot in s.entries && s.entries[slot] == ch
    requires s.readers == map[r := Looked(slot, ch)]
    ensures !Enabled(s, Remove(slot))
    ensures var u := s.(readers := map[]);
            var closed := Do(Do(u, Remove(slot)), Close(ch)).(readers := s.readers);
            Do(closed, Send(r)).sends == s.sends + [(ch, true)]
  {
    assert s.readers[r].slot.shard == slot.shard;
  }

  // ---- a receiver that has ended ---------------------------------------------------------

  /** A delivery about to send on a full, open channel that nobody takes from. */
  predicate Stuck(s: State, t: Thread) {
    && t in s.readers && s.readers[t].Looked?
    && !CanSend(s, s.readers[t].ch) && s.readers[t].ch in s.ended
  }

  lemma StuckStep(s: State, step: Step, t: Thread)
    requires Inv(s) && Enabled(s, step) && Stuck(s, t)
    ensures Stuck(Do(s, step), t) && Do(s, step).readers[t] == s.readers[t]
  {
    var ch := s.readers[t].ch;
    assert s.entries[s.readers[t].slot] == ch;
    assert s.removed[ch] == 0;
  }

  /**
   Such a delivery holds its shard for ever: in no continuation does it send, or anybody create or
   remove a session in that shard.
   */
  lemma {:induction false} StuckHoldsTheShard(s: State, steps: seq<Step>, u: State, t: Thread, slot: Slot, ch: Chan)
    requires Inv(s) && Reaches(s, steps, u) && Stuck(s, t) && slot.shard == s.readers[t].slot.shard
    ensures Stuck(u, t) && u.readers[t] == s.readers[t]
    ensures !Enabled(u, Remove(slot)) && !Enabled(u, Create(slot, ch))
    decreases |steps|
  {
    if steps == [] {
      assert u.readers[t].slot.shard == slot.shard;
    } else {
      StuckStep(s, steps[0], t);
      StepKeepsInv(s, steps[0]);
      StuckHoldsTheShard(Do(s, steps[0]), steps[1..], u, t, slot, ch);
    }
  }

  /**
   The read lock is shared: any number of deliveries may hold a shard at once. One that finds its
   session goes on to the send, one that does not gives the lock back, as one that has sent does.
   */
  lemma DeliveriesShareTheLock(s: State, t: Thread, slot: Slot)
    requires t !in s.readers
    ensures Enabled(s, Lock(t, slot))
    ensures var locked := Do(s, Lock(t, slot));
            && (slot in s.entries ==>
                  Enabled(locked, Look(t)) && Do(locked, Look(t)).readers[t] == Looked(slot, s.entries[slot]))
            && (slot !in s.entries ==>
                  Enabled(locked, Unlock(t)) && Do(locked, Unlock(t)).readers == s.readers)
    ensures forall r :: r in s.readers && s.readers[r].Sent? ==> Enabled(s, Unlock(r))
  {
    var locked := Do(s, Lock(t, slot));
    assert slot !in s.entries ==> locked.readers - {t} == s.readers;
  }

  /** The write lock is not: a session comes or goes in a shard exactly when no delivery holds that shard. */
  lemma WritersWaitForReaders(s: State, slot: Slot, ch: Chan)
    ensures Enabled(s, Remove(slot)) <==> forall t :: t in s.readers ==> s.readers[t].slot.shard != slot.shard
    ensures slot !in s.entries && ch !in s.used ==> (Enabled(s, Create(slot, ch)) <==> Enabled(s, Remove(slot)))
  {
  }

  ghost predicate CanFinish(s: State, t: Thread) {
    exists steps: seq<Step>, u: State :: Finishes(s, steps, u, t)
  }

  ghost predicate Finishes(s: State, steps: seq<Step>, u: State, t: Thread) {
    Reaches(s, steps, u) && t in u.readers && u.readers[t].Sent?
  }

  /** And that is the only way: a delivery can still be made exactly when it is not stuck. */
  lemma DeliveredUnlessStuck(s: State, t: Thread)
    requires Inv(s) && t in s.readers && s.readers[t].Looked?
    ensures CanFinish(s, t) <==> !Stuck(s, t)
  {
    var slot, ch := s.readers[t].slot, s.readers[t].ch;
    if Stuck(s, t) {
      forall steps: seq<Step>, u: State ensures !Finishes(s, steps, u, t) {
        if Reaches(s, steps, u) {
          StuckHoldsTheShard(s, steps, u, t, slot, ch);
        }
      }
    } else if CanSend(s, ch) {
      var u := Do(s, Send(t));
      assert Reaches(u, [], u) && [Send(t)][1..] == [];
      assert Finishes(s, [Send(t)], u, t);
    } else {
      var taken := Do(s, Take(ch));
      var u := Do(taken, Send(t));
      var steps := [Take(ch), Send(t)];
      assert steps[1..] == [Send(t)] && [Send(t)][1..] == [];
      assert Reaches(u, [], u);
      assert Reaches(taken, [Send(t)], u);
      assert Finishes(s, steps, u, t);
    }
  }

  lemma {:induction false} ReachesConcat(s: State, a: seq<Step>, t: State, b: seq<Step>, u: State)
    requires Reaches(s, a, t) && Reaches(t, b, u)
    ensures Reaches(s, a + b, u)
    decreases |a|
  {
    if a == [] {
      assert a + b == b;
    } else {
      assert (a + b)[1..] == a[1..] + b;
      ReachesConcat(Do(s, a[0]), a[1..], t, b, u);
    }
  }

  /** Delivery t of one payload, from taking the lock to giving it back. */
  function Round(t: Thread, slot: Slot): seq<Step> {
    [Lock(t, slot), Look(t), Send(t), Unlock(t)]
  }

  /** One session, its channel holding n items, after these sends; the receiver may have ended. */
  function Holding(slot: Slot, ch: Chan, n: nat, sends: nat, ended: set<Chan>): State {
    State(map[slot := ch], multiset{}, multiset{}, multiset{}[ch := n], {ch}, ended, map[],
          seq(sends, _ => (ch, false)))
  }

  lemma RoundReaches(slot: Slot, ch: Chan, n: nat, sends: nat, ended: set<Chan>, t: Thread)
    requires n < CAPACITY
    ensures Reaches(Holding(slot, ch, n, sends, ended), Round(t, slot), Holding(slot, ch, n + 1, sends + 1, ended))
  {
    var s := Holding(slot, ch, n, sends, ended);
    var locked := Do(s, Lock(t, slot));
    var looked := Do(locked, Look(t));
    var sent := Do(looked, Send(t));
    var u := Do(sent, Unlock(t));
    assert sent.queued == multiset{}[ch := n + 1];
    assert u.readers == map[];
    assert u == Holding(slot, ch, n + 1, sends + 1, ended);
    assert Reaches(u, [], u);
    assert Round(t, slot)[1..] == [Look(t), Send(t), Unlock(t)];
    assert [Look(t), Send(t), Unlock(t)][1..] == [Send(t), Unlock(t)];
    assert [Send(t), Unlock(t)][1..] == [Unlock(t)];
    assert [Unlock(t)][1..] == [];
    assert Reaches(sent, [Unlock(t)], u);
    assert Reaches(looked, [Send(t), Unlock(t)], u);
    assert Reaches(locked, [Look(t), Send(t), Unlock(t)], u);
  }

  lemma RoundThen(s: State, steps: seq<Step>, slot: Slot, ch: Chan, n: nat, sends: nat, ended: set<Chan>, t: Thread)
    requires n < CAPACITY && Reaches(s, steps, Holding(slot, ch, n, sends, ended))
    ensures Reaches(s, steps + Round(t, slot), Holding(slot, ch, n + 1, sends + 1, ended))
  {
    RoundReaches(slot, ch, n, sends, ended, t);
    ReachesConcat(s, steps, Holding(slot, ch, n, sends, ended), Round(t, slot),
                  Holding(slot, ch, n + 1, sends + 1, ended));
  }

  function Rounds(t: Thread, slot: Slot, n: nat): seq<Step> {
    if n == 0 then [] else Rounds(t, slot, n - 1) + Round(t, slot)
  }

  lemma {:induction false} RoundsReach(slot: Slot, ch: Chan, n: nat, sends: nat, ended: set<Chan>, t: Thread)
    requires n <= CAPACITY
    ensures Reaches(Holding(slot, ch, 0, sends, ended), Rounds(t, slot, n), Holding(slot, ch, n, sends + n, ended))
  {
    if n > 0 {
      RoundsReach(slot, ch, n - 1, sends, ended, t);
      RoundThen(Holding(slot, ch, 0, sends, ended), Rounds(t, slot, n - 1), slot, ch, n - 1, sends + n - 1, ended, t);
    }
  }

  lemma ReachesTwo(s: State, a: Step, b: Step)
    requires Enabled(s, a) && Enabled(Do(s, a), b)
    ensures Reaches(s, [a, b], Do(Do(s, a), b))
  {
    var u := Do(Do(s, a), b);
    assert [a, b][1..] == [b] && [b][1..] == [];
    assert Reaches(u, [], u);
    assert Reaches(Do(s, a), [b], u);
  }

  lemma CreateReaches(slot: Slot, ch: Chan)
    ensures Reaches(INITIAL, [Create(slot, ch)], Holding(slot, ch, 0, 0, {}))
  {
    var made := Do(INITIAL, Create(slot, ch));
    assert multiset{}[ch := 0] == multiset{};
    assert made == Holding(slot, ch, 0, 0, {});
    assert [Create(slot, ch)][1..] == [] && Reaches(made, [], made);
  }

  /** The receiver takes the one item, and ends. */
  lemma EndReaches(slot: Slot, ch: Chan, sends: nat)
    ensures Reaches(Holding(slot, ch, 1, sends, {}), [Take(ch), End(ch)], Holding(slot, ch, 0, sends, {ch}))
  {
    var open := Holding(slot, ch, 1, sends, {});
    assert Do(open, Take(ch)).queued == multiset{}[ch := 0];
    ReachesTwo(open, Take(ch), End(ch));
    assert Do(Do(open, Take(ch)), End(ch)) == Holding(slot, ch, 0, sends, {ch});
  }

  /** The run: one payload is delivered and taken, the receiver ends on it, four more fill the channel. */
  function StuckRun(slot: Slot, ch: Chan, t: Thread): seq<Step> {
    [Create(slot, ch)] + Round(t, slot) + [Take(ch), End(ch)] + Rounds(t, slot, CAPACITY) + [Lock(t, slot), Look(t)]
  }

  /** It does happen, in any shard and to any session: the sixth delivery is stuck. */
  lemma StuckHappens(slot: Slot, ch: Chan, t: Thread)
    ensures exists u: State ::
              Reaches(INITIAL, StuckRun(slot, ch, t), u) && Stuck(u, t) && u.queued[ch] == 4 && |u.sends| == 5
  {
    var begun := [Create(slot, ch)] + Round(t, slot);
    var ended := begun + [Take(ch), End(ch)];
    var filled := ended + Rounds(t, slot, CAPACITY);
    var full := Holding(slot, ch, CAPACITY, 1 + CAPACITY, {ch});
    CreateReaches(slot, ch);
    RoundThen(INITIAL, [Create(slot, ch)], slot, ch, 0, 0, {}, t);
    EndReaches(slot, ch, 1);
    ReachesConcat(INITIAL, begun, Holding(slot, ch, 1, 1, {}), [Take(ch), End(ch)], Holding(slot, ch, 0, 1, {ch}));
    RoundsReach(slot, ch, CAPACITY, 1, {ch}, t);
    ReachesConcat(INITIAL, ended, Holding(slot, ch, 0, 1, {ch}), Rounds(t, slot, CAPACITY), full);
    StuckAtLast(slot, ch, 1 + CAPACITY, t);
    var u := Do(Do(full, Lock(t, slot)), Look(t));
    ReachesConcat(INITIAL, filled, full, [Lock(t, slot), Look(t)], u);
  }

  lemma StuckAtLast(slot: Slot, ch: Chan, sends: nat, t: Thread)
    ensures var full := Holding(slot, ch, CAPACITY, sends, {ch});
            && Enabled(full, Lock(t, slot)) && Enabled(Do(full, Lock(t, slot)), Look(t))
            && var u := Do(Do(full, Lock(t, slot)), Look(t));
               Reaches(full, [Lock(t, slot), Look(t)], u) && Stuck(u, t) && u.queued[ch] == 4 && |u.sends| == sends
  {
    ReachesTwo(Holding(slot, ch, CAPACITY, sends, {ch}), Lock(t, slot), Look(t));
  }
}
