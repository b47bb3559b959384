/**
 The frame body codec of socket/conn_helpers.go; messages/conn_helpers.go is the same text.
 A body is a list of parameters joined by colons, with a further colon before the payload
 when both a parameter list and a payload are given.
 */
module Codec {
  import opened Bytes

  const DELIM: byte := 58

  datatype ParseError = NoError | UnexpectedPayload | ExpectedMore | ExpectedLess

  /** What byte_to_params_and_payload returns; params are filled as far as parsing got. */
  datatype Parsed = Parsed(params: seq<seq<byte>>, payload: Option<seq<byte>>, err: ParseError)

  datatype Fields = Fields(found: seq<seq<byte>>, rest: seq<byte>)

  // ---- reference definitions -------------------------------------------------------------

  predicate ColonFree(s: seq<byte>) {
    forall i :: 0 <= i < |s| ==> s[i] != DELIM
  }

  function CountDelims(b: seq<byte>): nat {
    if b == [] then 0 else (if b[0] == DELIM then 1 else 0) + CountDelims(b[1..])
  }

  /** strings.Join with the delimiter. */
  function Join(params: seq<seq<byte>>): seq<byte> {
    if params == [] then []
    else if |params| == 1 then params[0]
    else params[0] + [DELIM] + Join(params[1..])
  }

  /** The first delimiter from position i on, or the length. */
  function DelimFrom(b: seq<byte>, i: nat): (d: nat)
    requires i <= |b|
    ensures i <= d <= |b| && (d < |b| ==> b[d] == DELIM)
    ensures forall k :: i <= k < d ==> b[k] != DELIM
    decreases |b| - i
  {
    if i == |b| || b[i] == DELIM then i else DelimFrom(b, i + 1)
  }

  function FirstDelim(b: seq<byte>): (d: nat)
    ensures d <= |b| && ColonFree(b[..d])
    ensures d < |b| ==> b[d] == DELIM
  {
    DelimFrom(b, 0)
  }

  /** Cut at the first k delimiters, or at all of them when there are fewer. */
  function Cut(b: seq<byte>, k: nat): (f: Fields)
    ensures |f.found| <= k
  {
    var d := FirstDelim(b);
    if k == 0 || d == |b| then Fields([], b)
    else
      var f := Cut(b[d + 1..], k - 1);
      Fields([b[..d]] + f.found, f.rest)
  }

  /** found, followed by empty parameters up to length n. */
  function Padded(found: seq<seq<byte>>, n: nat): (p: seq<seq<byte>>)
    requires |found| <= n
    ensures |p| == n
  {
    found + seq(n - |found|, _ => [])
  }

  /** What the parser is meant to compute, without its index arithmetic. */
  function ParseSpec(b: seq<byte>, n: byte, payloadExists: bool): (p: Parsed)
    ensures |p.params| == n
  {
    if n == 0 then
      if payloadExists then Parsed([], Some(b), NoError)
      else if b == [] || b == [DELIM] then Parsed([], None, NoError)
      else Parsed([], None, UnexpectedPayload)
    else if payloadExists then
      var f := Cut(b, n);
      if |f.found| == n then Parsed(f.found, Some(f.rest), NoError)
      else Parsed(Padded(f.found, n), None, ExpectedMore)
    else
      var f := Cut(b, n - 1);
      if |f.found| == n - 1 && f.rest != [] then Parsed(f.found + [f.rest], None, NoError)
      else Parsed(Padded(f.found, n), None, ExpectedMore)
  }

  // ---- the parser loop -------------------------------------------------------------------

  lemma FirstDelimIs(b: seq<byte>, d: nat)
    requires d <= |b| && ColonFree(b[..d]) && (d < |b| ==> b[d] == DELIM)
    ensures FirstDelim(b) == d
  {
    var e := FirstDelim(b);
    assert forall i :: 0 <= i < d ==> b[..d][i] == b[i];
    assert forall i :: 0 <= i < e ==> b[..e][i] == b[i];
  }

  /** f with one more field cut off its rest, if there is one to cut. */
  function CutMore(f: Fields): Fields {
    var d := FirstDelim(f.rest);
    if d == |f.rest| then f else Fields(f.found + [f.rest[..d]], f.rest[d + 1..])
  }

  lemma CutMoreCons(head: seq<byte>, f: Fields)
    ensures CutMore(Fields([head] + f.found, f.rest)) == Fields([head] + CutMore(f).found, CutMore(f).rest)
  {
    var d := FirstDelim(f.rest);
    if d < |f.rest| {
      assert [head] + f.found + [f.rest[..d]] == [head] + (f.found + [f.rest[..d]]);
    }
  }

  lemma CutStep(b: seq<byte>, k: nat)
    requires FirstDelim(b) < |b|
    ensures var d := FirstDelim(b);
            var f := Cut(b[d + 1..], k);
            Cut(b, k + 1) == Fields([b[..d]] + f.found, f.rest)
  {
  }

  /** Cutting at one more delimiter splits the rest once more. */
  lemma {:induction false} CutNext(b: seq<byte>, k: nat)
    ensures Cut(b, k + 1) == CutMore(Cut(b, k))
  {
    var d := FirstDelim(b);
    if d < |b| {
      CutStep(b, k);
      var tail := b[d + 1..];
      if k == 0 {
        assert [b[..d]] + [] == [] + [b[..d]];
      } else {
        CutStep(b, k - 1);
        CutNext(tail, k - 1);
        CutMoreCons(b[..d], Cut(tail, k - 1));
      }
    }
  }

  /** The fields cut so far, and where the rest starts. */
  ghost predicate CutTo(b: seq<byte>, param: seq<seq<byte>>, last: nat) {
    last <= |b| && Cut(b, |param|) == Fields(param, b[last..])
  }

  /** How many delimiters end a parameter: all n with a payload behind them, n - 1 without. */
  function Cuts(nParam: byte, payloadExists: bool): nat
    requires nParam > 0
  {
    if payloadExists then nParam else nParam - 1
  }

  /**
   The loop of byte_to_params_and_payload, one pass over the bytes; complete says that it returned
   from inside. The branch that would report "expected less parameters" cannot be reached, which
   the assertion in it states.
   */
  method ScanParams(b: seq<byte>, nParam: byte, payloadExists: bool)
    returns (param: seq<seq<byte>>, lastDelim: nat, complete: bool)
    requires nParam > 0
    ensures lastDelim <= |b|
    ensures Cut(b, Cuts(nParam, payloadExists)) == Fields(param, b[lastDelim..])
    ensures complete <==> |param| == Cuts(nParam, payloadExists) && (payloadExists || lastDelim < |b|)
  {
    param := [];
    lastDelim := 0;
    var i := 0;
    while i < |b|
      invariant 0 <= lastDelim <= i <= |b|
      invariant |param| < nParam
      invariant i > lastDelim ==> payloadExists || |param| < nParam - 1
      invariant CutTo(b, param, lastDelim)
      invariant forall k :: lastDelim <= k < i ==> b[k] != DELIM
    {
      if |param| == nParam - 1 && !payloadExists {
        complete := true;
        return;
      }
      if b[i] == DELIM {
        CutField(b, param, lastDelim, i);
        param := param + [b[lastDelim..i]];
        lastDelim := i + 1;
        if |param| == nParam {
          if payloadExists {
            complete := true;
            return;
          } else {
            assert false;
          }
        }
      }
      i := i + 1;
    }
    CutEnd(b, param, lastDelim, Cuts(nParam, payloadExists));
    complete := false;
  }

  /** byte_to_params_and_payload; parameters not reached stay empty strings. */
  method ByteToParamsAndPayload(b: seq<byte>, nParam: byte, payloadExists: bool) returns (r: Parsed)
    ensures r == ParseSpec(b, nParam, payloadExists)
  {
    if nParam == 0 {
      if payloadExists {
        return Parsed([], Some(b), NoError);
      } else if |b| > 1 || (|b| == 1 && b[0] != DELIM) {
        return Parsed([], None, UnexpectedPayload);
      }
      return Parsed([], None, NoError);
    }
    var param, lastDelim, complete := ScanParams(b, nParam, payloadExists);
    if !complete {
      return Parsed(Padded(param, nParam), None, ExpectedMore);
    }
    if payloadExists {
      return Parsed(param, Some(b[lastDelim..]), NoError);
    }
    return Parsed(param + [b[lastDelim..]], None, NoError);
  }

  lemma CutField(b: seq<byte>, param: seq<seq<byte>>, last: nat, i: nat)
    requires CutTo(b, param, last) && last <= i < |b| && b[i] == DELIM && ColonFree(b[last..i])
    ensures CutTo(b, param + [b[last..i]], i + 1)
  {
    CutNext(b, |param|);
    FieldAt(b, last, i);
  }

  lemma FieldAt(b: seq<byte>, last: nat, i: nat)
    requires last <= i < |b| && b[i] == DELIM && ColonFree(b[last..i])
    ensures var rest := b[last..];
            FirstDelim(rest) == i - last && rest[..i - last] == b[last..i] && rest[i - last + 1..] == b[i + 1..]
  {
    assert b[last..][..i - last] == b[last..i];
    FirstDelimIs(b[last..], i - last);
  }

  lemma CutEnd(b: seq<byte>, param: seq<seq<byte>>, last: nat, m: nat)
    requires CutTo(b, param, last) && ColonFree(b[last..]) && |param| <= m
    ensures Cut(b, m) == Fields(param, b[last..])
  {
    assert b[last..][..|b| - last] == b[last..];
    FirstDelimIs(b[last..], |b| - last);
    CutStable(b, |param|, m);
  }

  /** When nothing is left to cut, asking for more cuts changes nothing. */
  lemma {:induction false} CutStable(b: seq<byte>, k: nat, m: nat)
    requires k <= m && FirstDelim(Cut(b, k).rest) == |Cut(b, k).rest|
    ensures Cut(b, m) == Cut(b, k)
    decreases m
  {
    if k < m {
      CutStable(b, k, m - 1);
      CutNext(b, m - 1);
    }
  }

  // ---- laws of the parser ----------------------------------------------------------------

  lemma {:induction false} CountDelimsConcat(a: seq<byte>, b: seq<byte>)
    ensures CountDelims(a + b) == CountDelims(a) + CountDelims(b)
  {
    if a == [] {
      assert a + b == b;
    } else {
      assert (a + b)[1..] == a[1..] + b;
      CountDelimsConcat(a[1..], b);
    }
  }

  lemma {:induction false} ColonFreeCount(a: seq<byte>)
    ensures CountDelims(a) == 0 <==> ColonFree(a)
  {
    if a != [] {
      ColonFreeCount(a[1..]);
      assert a == [a[0]] + a[1..];
    }
  }

  lemma CountPastField(head: seq<byte>, c: seq<byte>)
    requires ColonFree(head)
    ensures CountDelims(head + ([DELIM] + c)) == 1 + CountDelims(c)
  {
    ColonFreeCount(head);
    CountDelimsConcat(head, [DELIM] + c);
    assert ([DELIM] + c)[1..] == c;
  }

  /** A body is its first field, a delimiter and what follows it. */
  lemma CountAtFirst(b: seq<byte>)
    ensures var d := FirstDelim(b);
            CountDelims(b) == if d == |b| then 0 else 1 + CountDelims(b[d + 1..])
  {
    CountAtDelim(b, FirstDelim(b));
  }

  lemma CountAtDelim(b: seq<byte>, d: nat)
    requires d <= |b| && ColonFree(b[..d]) && (d < |b| ==> b[d] == DELIM)
    ensures CountDelims(b) == if d == |b| then 0 else 1 + CountDelims(b[d + 1..])
  {
    if d == |b| {
      assert b[..d] == b;
      ColonFreeCount(b);
    } else {
      assert b == b[..d] + ([DELIM] + b[d + 1..]);
      CountPastField(b[..d], b[d + 1..]);
    }
  }

  /** Cutting loses nothing: re-joining the fields and the rest gives the input back. */
  lemma {:induction false} CutRejoins(b: seq<byte>, k: nat)
    ensures var f := Cut(b, k);
            b == Join(f.found + [f.rest])
  {
    var d := FirstDelim(b);
    if k > 0 && d < |b| {
      var f := Cut(b[d + 1..], k - 1);
      CutRejoins(b[d + 1..], k - 1);
      JoinCons(b[..d], f.found, f.rest);
      SplitAtDelim(b, d);
    } else {
      assert [] + [b] == [b];
    }
  }

  lemma {:induction false} CutColonFree(b: seq<byte>, k: nat)
    ensures forall i :: 0 <= i < |Cut(b, k).found| ==> ColonFree(Cut(b, k).found[i])
  {
    var d := FirstDelim(b);
    if k > 0 && d < |b| {
      CutColonFree(b[d + 1..], k - 1);
    }
  }

  /** The number of fields found is the number of delimiters, up to k. */
  lemma {:induction false} CutCounts(b: seq<byte>, k: nat)
    ensures var f := Cut(b, k);
            && |f.found| == (if CountDelims(b) < k then CountDelims(b) else k)
            && CountDelims(f.rest) == CountDelims(b) - |f.found|
  {
    var d := FirstDelim(b);
    if k > 0 && d < |b| {
      CutCounts(b[d + 1..], k - 1);
      CutCountsStep(b, k);
    } else {
      CountAtFirst(b);
    }
  }

  lemma CutCountsStep(b: seq<byte>, k: nat)
    requires k > 0 && FirstDelim(b) < |b|
    ensures var d := FirstDelim(b);
            && CountDelims(b) == 1 + CountDelims(b[d + 1..])
            && |Cut(b, k).found| == 1 + |Cut(b[d + 1..], k - 1).found|
            && Cut(b, k).rest == Cut(b[d + 1..], k - 1).rest
  {
    CountAtFirst(b);
    CutStep(b, k - 1);
  }

  lemma SplitAtDelim(b: seq<byte>, d: nat)
    requires d < |b| && b[d] == DELIM
    ensures b == b[..d] + [DELIM] + b[d + 1..]
  {
  }

  lemma JoinCons(head: seq<byte>, found: seq<seq<byte>>, rest: seq<byte>)
    ensures Join([head] + found + [rest]) == head + [DELIM] + Join(found + [rest])
  {
    assert ([head] + found + [rest])[1..] == found + [rest];
  }

  /** Fields that contain no delimiter are found again, whatever follows them. */
  lemma {:induction false} CutOfJoin(params: seq<seq<byte>>, rest: seq<byte>)
    requires forall i :: 0 <= i < |params| ==> ColonFree(params[i])
    ensures Cut(Join(params + [rest]), |params|) == Fields(params, rest)
  {
    if params == [] {
      assert params + [rest] == [rest];
    } else {
      assert params == [params[0]] + params[1..];
      JoinCons(params[0], params[1..], rest);
      CutOfJoin(params[1..], rest);
      CutCons(params[0], Join(params[1..] + [rest]), |params| - 1);
    }
  }

  lemma CutCons(head: seq<byte>, b: seq<byte>, k: nat)
    requires ColonFree(head)
    ensures var f := Cut(b, k);
            Cut(head + [DELIM] + b, k + 1) == Fields([head] + f.found, f.rest)
  {
    var whole := head + [DELIM] + b;
    var d := |head|;
    assert whole[..d] == head && whole[d + 1..] == b;
    FirstDelimIs(whole, d);
  }

  /** Parsing inverts packaging: colon-free params and any payload, colons included, come back. */
  lemma PayloadRoundTrip(params: seq<seq<byte>>, payload: seq<byte>)
    requires 1 <= |params| < 256
    requires forall i :: 0 <= i < |params| ==> ColonFree(params[i])
    ensures ParseSpec(Body(Some(params), Some(payload)), |params|, true)
            == Parsed(params, Some(payload), NoError)
  {
    JoinSnoc(params, payload);
    CutOfJoin(params, payload);
  }

  lemma {:induction false} JoinSnoc(params: seq<seq<byte>>, last: seq<byte>)
    requires params != []
    ensures Join(params + [last]) == Join(params) + [DELIM] + last
  {
    if |params| == 1 {
      assert (params + [last])[1..] == [last];
    } else {
      assert (params + [last])[1..] == params[1..] + [last];
      JoinSnoc(params[1..], last);
      assert Join(params + [last]) == params[0] + [DELIM] + (Join(params[1..]) + [DELIM] + last);
    }
  }

  /**
   With a payload: success exactly when the input holds at least n delimiters; on success the
   params are colon-free and params and payload re-join to the input.
   */
  lemma PayloadParse(b: seq<byte>, n: byte)
    requires n >= 1
    ensures var p := ParseSpec(b, n, true);
            && (p.err == NoError <==> CountDelims(b) >= n)
            && (p.err != NoError <==> p.err == ExpectedMore)
            && (p.err == NoError ==>
                  && p.payload.Some?
                  && Body(Some(p.params), p.payload) == b
                  && forall i :: 0 <= i < n ==> ColonFree(p.params[i]))
  {
    CutRejoins(b, n);
    CutColonFree(b, n);
    CutCounts(b, n);
    var f := Cut(b, n);
    if |f.found| == n {
      JoinSnoc(f.found, f.rest);
    }
  }

  lemma BodyOfParams(params: seq<seq<byte>>)
    ensures Body(Some(params), None) == Join(params)
  {
    assert Join(params) + [] + [] == Join(params);
  }

  /** Params without a payload come back when the last is not empty; only it may hold colons. */
  lemma ParamsRoundTrip(params: seq<seq<byte>>)
    requires 1 <= |params| < 256
    requires forall i :: 0 <= i < |params| - 1 ==> ColonFree(params[i])
    ensures var p := ParseSpec(Body(Some(params), None), |params|, false);
            p == Parsed(params, None, if params[|params| - 1] != [] then NoError else ExpectedMore)
  {
    var init, last := params[..|params| - 1], params[|params| - 1];
    BodyOfParams(params);
    assert params == init + [last];
    CutOfJoin(init, last);
    assert last == [] ==> Padded(init, |params|) == params;
  }

  /**
   Without a payload: it fails exactly when there are fewer than n - 1 delimiters, or the last
   parameter would be empty, and the only error is "expected more parameters".
   */
  lemma ParamsParse(b: seq<byte>, n: byte)
    requires n >= 1
    ensures ParseSpec(b, n, false).err
            == if CountDelims(b) >= n || EndsInField(b, n - 1) then NoError else ExpectedMore
  {
    var k := n - 1;
    CutCounts(b, k);
    assert ParseSpec(b, n, false).err
        == if |Cut(b, k).found| == k && Cut(b, k).rest != [] then NoError else ExpectedMore;
    if CountDelims(b) >= k {
      RestEmpty(b, k);
    }
  }

  /** Exactly k delimiters, and something after the last of them. */
  predicate EndsInField(b: seq<byte>, k: nat) {
    CountDelims(b) == k && b != [] && b[|b| - 1] != DELIM
  }

  /** After k cuts nothing is left just when the input ends there: with its k-th delimiter, or empty. */
  lemma RestEmpty(b: seq<byte>, k: nat)
    requires |Cut(b, k).found| == k
    ensures Cut(b, k).rest != [] <==> CountDelims(b) > k || EndsInField(b, k)
  {
    var f := Cut(b, k);
    CutCounts(b, k);
    CutRejoins(b, k);
    LastOfJoin(f.found, f.rest);
    ColonFreeCount(f.rest);
    if f.rest != [] && f.rest[|f.rest| - 1] == DELIM {
      assert !ColonFree(f.rest);
    }
  }

  /** What a successful parse without a payload returns re-joins to the input. */
  lemma ParamsRejoin(b: seq<byte>, n: byte)
    requires n >= 1 && ParseSpec(b, n, false).err == NoError
    ensures var p := ParseSpec(b, n, false);
            && Body(Some(p.params), None) == b
            && forall i :: 0 <= i < n - 1 ==> ColonFree(p.params[i])
  {
    CutRejoins(b, n - 1);
    CutColonFree(b, n - 1);
    BodyOfParams(ParseSpec(b, n, false).params);
  }

  lemma LastOfJoin(found: seq<seq<byte>>, rest: seq<byte>)
    ensures rest != [] ==> var b := Join(found + [rest]); b != [] && b[|b| - 1] == rest[|rest| - 1]
    ensures rest == [] && found != [] ==> var b := Join(found + [rest]); b != [] && b[|b| - 1] == DELIM
  {
    if found != [] {
      JoinSnoc(found, rest);
    } else {
      assert found + [rest] == [rest];
    }
  }

  // ---- the printer -----------------------------------------------------------------------

  /** The body package_op lays out; None stands for a nil slice. */
  function Body(params: Option<seq<seq<byte>>>, payload: Option<seq<byte>>): seq<byte> {
    (if params.Some? then Join(params.value) else []) +
    (if params.Some? && payload.Some? then [DELIM] else []) +
    (if payload.Some? then payload.value else [])
  }

  /** The four layouts of a body, and what the parser makes of those without parameters. */
  lemma BodyLayouts(a: seq<byte>, b: seq<byte>, payload: seq<byte>)
    ensures Body(None, None) == []
    ensures Body(None, Some(payload)) == payload
    ensures Body(Some([a, b]), None) == a + [58] + b
    ensures Body(Some([a, b]), Some(payload)) == a + [58] + b + [58] + payload
    ensures ParseSpec(payload, 0, true) == Parsed([], Some(payload), NoError)
    ensures ParseSpec(payload, 0, false)
            == Parsed([], None, if payload == [] || payload == [58] then NoError else UnexpectedPayload)
  {
    assert [a, b][1..] == [b];
    assert Join([a, b]) == a + [58] + b;
    assert Body(Some([a, b]), None) == Join([a, b]) + [] + [];
  }

  /** One frame: op, size as an unsigned 32-bit number (larger sizes wrap), body. */
  function Frame(op: byte, body: seq<byte>): (f: seq<byte>)
    ensures |f| == 5 + |body|
  {
    [op] + BigEndian(|body| % TWO_TO_32, 4) + body
  }

  method CopyInto(buffer: array<byte>, at: nat, src: seq<byte>)
    requires at + |src| <= buffer.Length
    modifies buffer
    ensures buffer[..] == old(buffer[..at]) + src + old(buffer[at + |src|..])
  {
    for i := 0 to |src|
      invariant buffer[..at] == old(buffer[..at])
      invariant buffer[at..at + i] == src[..i]
      invariant buffer[at + |src|..] == old(buffer[at + |src|..])
    {
      buffer[at + i] := src[i];
      assert buffer[at..at + i + 1] == buffer[at..at + i] + [src[i]];
    }
    assert src[..|src|] == src;
    assert buffer[..] == buffer[..at] + buffer[at..at + |src|] + buffer[at + |src|..];
  }

  /** package_op: allocate 5 + size bytes and fill them in place. */
  method PackageOp(op: byte, params: Option<seq<seq<byte>>>, payload: Option<seq<byte>>)
    returns (packaged: array<byte>)
    ensures fresh(packaged)
    ensures packaged[..] == Frame(op, Body(params, payload))
  {
    var bParam := if params.Some? then Join(params.value) else [];
    if params.Some? && payload.Some? {
      bParam := bParam + [DELIM];
    }
    var tail := if payload.Some? then payload.value else [];
    assert Body(params, payload) == bParam + tail;
    packaged := FillFrame(op, bParam, tail);
    assert [op] + BigEndian((|bParam| + |tail|) % TWO_TO_32, 4) + bParam + tail == Frame(op, bParam + tail);
  }

  method FillFrame(op: byte, bParam: seq<byte>, payload: seq<byte>) returns (packaged: array<byte>)
    ensures fresh(packaged)
    ensures packaged[..] == [op] + BigEndian((|bParam| + |payload|) % TWO_TO_32, 4) + bParam + payload
  {
    var size := |bParam| + |payload|;
    packaged := new byte[5 + size];
    packaged[0] := op;
    ghost var head := [op] + BigEndian(size % TWO_TO_32, 4);
    PutBigEndian(packaged, 1, size % TWO_TO_32, 4);
    assert packaged[..1] == [op];
    assert packaged[..5] == head;
    CopyInto(packaged, 5, bParam);
    assert packaged[..5 + |bParam|] == head + bParam;
    CopyInto(packaged, 5 + |bParam|, payload);
  }
}
