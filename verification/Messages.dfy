/** Messages as the API emits them, and the text keys under which the socket queues them. */
module Messages {
  import opened Bytes

  /** The fields of the JSON message the socket looks at; data stands for the rest of it. */
  datatype Message = Message(op: int, ts: nat, sig: string, atomic: bool, chainID: string, data: string)

  const DIGITS: string := "0123456789"

  predicate IsDigit(c: char) {
    '0' <= c <= '9'
  }

  function Digit(d: nat): (c: char)
    requires d < 10
    ensures IsDigit(c) && c as int == '0' as int + d
  {
    DIGITS[d]
  }

  /** strconv.FormatUint in base 10. */
  function Decimal(n: nat): (s: string)
    ensures s != [] && forall i :: 0 <= i < |s| ==> IsDigit(s[i])
  {
    if n < 10 then [Digit(n)] else Decimal(n / 10) + [Digit(n % 10)]
  }

  /** strconv.FormatInt in base 10. */
  function SignedDecimal(n: int): string {
    if n < 0 then "-" + Decimal(-n) else Decimal(n)
  }

  function KeyOf(sig: string, ts: nat): string {
    sig + Decimal(ts)
  }

  /** The key a payload is queued under. */
  function Key(m: Message): string {
    KeyOf(m.sig, m.ts)
  }

  /** The text ClientSocket sends to the receiver for op 1007. */
  function AckText(sig: string, ts: int): string {
    sig + SignedDecimal(ts)
  }

  // ---- the keys are unambiguous ----------------------------------------------------------

  function Value(s: string): nat
    requires forall i :: 0 <= i < |s| ==> IsDigit(s[i])
  {
    if s == [] then 0
    else
      assert IsDigit(s[|s| - 1]);
      Value(s[..|s| - 1]) * 10 + (s[|s| - 1] as int - '0' as int)
  }

  lemma {:induction false} DecimalValue(n: nat)
    ensures Value(Decimal(n)) == n
  {
    if n < 10 {
      assert Value([]) == 0;
    } else {
      DecimalValue(n / 10);
      assert Decimal(n)[..|Decimal(n)| - 1] == Decimal(n / 10);
    }
  }

  /** A decimal has no leading zero. */
  lemma {:induction false} NoLeadingZero(n: nat)
    ensures Decimal(n)[0] == '0' <==> n == 0
    ensures n == 0 ==> Decimal(n) == "0"
  {
    if n >= 10 {
      NoLeadingZero(n / 10);
    }
  }

  lemma SignedStart(a: int)
    ensures a < 0 ==> SignedDecimal(a) == ['-'] + Decimal(-a) && SignedDecimal(a)[1..] == Decimal(-a)
    ensures a >= 0 ==> SignedDecimal(a) == Decimal(a) && IsDigit(SignedDecimal(a)[0])
  {
  }

  /** A signed timestamp is written with its own digits, behind a minus when negative, so no two alike. */
  lemma SignedInjective(a: int, b: int)
    ensures SignedDecimal(a) == SignedDecimal(b) <==> a == b
    ensures a < 0 ==> SignedDecimal(a) == ['-'] + Decimal(-a)
    ensures a >= 0 ==> SignedDecimal(a) == Decimal(a)
  {
    SignedStart(a);
    SignedStart(b);
    if SignedDecimal(a) == SignedDecimal(b) {
      if a < 0 && b < 0 {
        DecimalInjective(-a, -b);
      } else if a >= 0 && b >= 0 {
        DecimalInjective(a, b);
      }
    }
  }

  lemma DecimalInjective(a: nat, b: nat)
    requires Decimal(a) == Decimal(b)
    ensures a == b
  {
    DecimalValue(a);
    DecimalValue(b);
  }

  /** With signatures of one length, an ack names a queued message exactly when both parts agree. */
  lemma AckMatchesKey(s: string, t: int, sig: string, ts: nat)
    requires |s| == |sig|
    ensures AckText(s, t) == KeyOf(sig, ts) <==> s == sig && t == ts
  {
    var a, k := AckText(s, t), KeyOf(sig, ts);
    assert a[..|s|] == s && a[|s|..] == SignedDecimal(t);
    assert k[..|s|] == sig && k[|s|..] == Decimal(ts);
    assert t < 0 ==> SignedDecimal(t)[0] == '-';
    assert IsDigit(Decimal(ts)[0]);
    if a == k && t >= 0 {
      DecimalInjective(t, ts);
    }
  }

  lemma KeyInjective(m: Message, n: Message)
    requires |m.sig| == |n.sig|
    ensures Key(m) == Key(n) <==> m.sig == n.sig && m.ts == n.ts
  {
    AckMatchesKey(m.sig, m.ts, n.sig, n.ts);
  }

  /** No acknowledgement, whatever its signature, is taken for a command. */
  lemma AckIsNoCommand(s: string, t: int)
    ensures AckText(s, t) != "FLUSH" && AckText(s, t) != "SET_TIMER"
    ensures AckText(s, t) != ""
  {
    var a := AckText(s, t);
    assert IsDigit(a[|a| - 1]);
    assert "FLUSH"[4] == 'H' && "SET_TIMER"[8] == 'R';
  }

  /**
   With signatures of different lengths keys do collide: exactly when the longer signature goes on
   with the first digits of the shorter one's timestamp, and the other timestamp is the rest of it.
   */
  lemma LengthsMustAgree(s: string, t: nat, sig: string, ts: nat)
    requires |s| <= |sig|
    ensures KeyOf(s, t) == KeyOf(sig, ts) <==> s <= sig && Decimal(t) == sig[|s|..] + Decimal(ts)
    ensures KeyOf("abc", 12) == KeyOf("abc1", 2)
  {
    var a, b := KeyOf(s, t), KeyOf(sig, ts);
    assert a[..|s|] == s && a[|s|..] == Decimal(t);
    assert b[..|s|] == sig[..|s|] && b[|s|..] == sig[|s|..] + Decimal(ts);
    assert a == a[..|s|] + a[|s|..] && b == b[..|s|] + b[|s|..];
    assert Decimal(12) == Decimal(1) + ['2'];
  }

  // ---- the text-keyed queue refines one keyed by signature and timestamp -----------------

  const SIGNATURE_LENGTH: nat := 4

  type Id = (string, nat)

  ghost predicate Names(id: Id, text: string) {
    |id.0| == SIGNATURE_LENGTH && KeyOf(id.0, id.1) == text
  }

  /** The one id a text names, if any. */
  ghost function Named(text: string): (id: Option<Id>)
    ensures id.Some? ==> Names(id.value, text)
    ensures id.None? ==> forall i: Id :: !Names(i, text)
  {
    if exists id: Id :: Names(id, text) then
      var id: Id :| Names(id, text);
      Some(id)
    else None
  }

  lemma NamesOne(a: Id, b: Id, text: string)
    requires Names(a, text) && Names(b, text)
    ensures a == b
  {
    AckMatchesKey(a.0, a.1, b.0, b.1);
  }

  /**
   What an acknowledgement names: with a signature of the right length, that signature and
   timestamp, or nothing when the timestamp is negative; no command names anything.
   */
  lemma AckNames(s: string, t: int)
    ensures |s| == SIGNATURE_LENGTH ==> Named(AckText(s, t)) == if t >= 0 then Some((s, t)) else None
    ensures Named("FLUSH") == None && Named("SET_TIMER") == None && Named("") == None
  {
    if |s| == SIGNATURE_LENGTH {
      forall id: Id | Names(id, AckText(s, t)) ensures t >= 0 && id == (s, t) {
        AckMatchesKey(s, t, id.0, id.1);
      }
      assert t >= 0 ==> Names((s, t), AckText(s, t));
    }
    forall id: Id ensures !Names(id, "FLUSH") && !Names(id, "SET_TIMER") && !Names(id, "") {
      AckIsNoCommand(id.0, id.1);
    }
  }

  /** q holds p's message of this id under the key it makes. */
  ghost predicate HoldsId(q: map<string, Message>, p: map<Id, Message>, id: Id)
    requires id in p
  {
    var k := KeyOf(id.0, id.1);
    Names(id, k) && k in q && q[k] == p[id]
  }

  ghost predicate Covered(p: map<Id, Message>, k: string) {
    exists id <- p.Keys :: Names(id, k)
  }

  /** p is the queue q, under the ids that its keys name. */
  ghost predicate Represents(q: map<string, Message>, p: map<Id, Message>) {
    && (forall id <- p.Keys :: HoldsId(q, p, id))
    && (forall k <- q.Keys :: Covered(p, k))
  }

  lemma HeldByKey(q: map<string, Message>, p: map<Id, Message>, id: Id)
    requires Represents(q, p) && id in p
    ensures HoldsId(q, p, id)
  {
  }

  lemma QueueRefinesIds(q: map<string, Message>, p: map<Id, Message>, m: Message)
    requires Represents(q, p) && |m.sig| == SIGNATURE_LENGTH
    ensures Represents(q[Key(m) := m], p[(m.sig, m.ts) := m])
  {
    var q', p' := q[Key(m) := m], p[(m.sig, m.ts) := m];
    forall id | id in p'.Keys ensures HoldsId(q', p', id) {
      if id != (m.sig, m.ts) {
        assert HoldsId(q, p, id);
        if KeyOf(id.0, id.1) == Key(m) {
          NamesOne(id, (m.sig, m.ts), Key(m));
        }
      }
    }
    forall k | k in q'.Keys ensures Covered(p', k) {
      if k == Key(m) {
        assert (m.sig, m.ts) in p'.Keys && Names((m.sig, m.ts), k);
      } else {
        assert Covered(p, k);
        var id :| id in p.Keys && Names(id, k);
        assert id in p'.Keys;
      }
    }
  }

  ghost function Forget(p: map<Id, Message>, id: Option<Id>): map<Id, Message> {
    if id.Some? then p - {id.value} else p
  }

  /** Whatever text a client acknowledges, what goes is the id it names. */
  lemma AckRefinesIds(q: map<string, Message>, p: map<Id, Message>, text: string)
    requires Represents(q, p)
    ensures Represents(q - {text}, Forget(p, Named(text)))
  {
    var named := Named(text);
    var q', p' := q - {text}, Forget(p, named);
    forall id | id in p'.Keys ensures HoldsId(q', p', id) {
      assert HoldsId(q, p, id);
      if KeyOf(id.0, id.1) == text {
        NamesOne(id, named.value, text);
      }
    }
    forall k | k in q'.Keys ensures Covered(p', k) {
      StaysCovered(p, named, text, k);
    }
  }

  lemma StaysCovered(p: map<Id, Message>, named: Option<Id>, text: string, k: string)
    requires Covered(p, k) && k != text && (named.Some? ==> Names(named.value, text))
    ensures Covered(Forget(p, named), k)
  {
    var id :| id in p.Keys && Names(id, k);
    assert id in Forget(p, named).Keys;
  }

  /**
   So acknowledging signature s and timestamp t removes that id and no other, for every queue,
   unless the signature is of another length and its text happens to be the key of a message.
   */
  lemma AckRemovesItsOwn(q: map<string, Message>, p: map<Id, Message>, s: string, t: int)
    requires Represents(q, p)
    ensures Represents(q - {AckText(s, t)}, Forget(p, if t >= 0 then Some((s, t)) else None))
            <==> |s| == 4 || AckText(s, t) !in q
  {
    var text := AckText(s, t);
    AckRefinesIds(q, p, text);
    AckNames(s, t);
    if |s| != SIGNATURE_LENGTH {
      var own := if t >= 0 then Some((s, t)) else None;
      OthersForgetNothing(q, p, own);
      if text in q {
        StrayKey(q, p, text);
      } else {
        assert q - {text} == q;
      }
    }
  }

  /** No queued message has an id of the wrong length. */
  lemma OthersForgetNothing(q: map<string, Message>, p: map<Id, Message>, own: Option<Id>)
    requires Represents(q, p) && (own.Some? ==> |own.value.0| != SIGNATURE_LENGTH)
    ensures Forget(p, own) == p
  {
    if own.Some? && own.value in p {
      HeldByKey(q, p, own.value);
    }
  }

  lemma StrayKey(q: map<string, Message>, p: map<Id, Message>, text: string)
    requires Represents(q, p) && text in q
    ensures !Represents(q - {text}, p)
  {
    assert Covered(p, text);
    var id :| id in p.Keys && Names(id, text);
    if Represents(q - {text}, p) {
      HeldByKey(q - {text}, p, id);
    }
  }
}
