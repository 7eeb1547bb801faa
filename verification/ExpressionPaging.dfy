/** Reading an expression out in pages of 27 bytes, and appending packets of 24: GET_EXPRESSION and
    APPEND_TO_EXPRESSION. */
module ExpressionPaging {
  import opened Bytes
  import opened Sequences
  import opened ExprOps
  import opened ConfigCodec

  const PAGE_SIZE: nat := 27
  const PACKET_SIZE: nat := 24

  // ---- reading -----------------------------------------------------------------------------------------

  /** How many elements from number i on still go into a page that has so many bytes. */
  function Fill(es: Expression, i: nat, used: nat): (n: nat)
    ensures i <= |es| ==> i + n <= |es|
    ensures i >= |es| ==> n == 0
    decreases |es| - i
  {
    if i >= |es| || used + |ElemBytes(es[i])| > PAGE_SIZE then 0 else 1 + Fill(es, i + 1, used + |ElemBytes(es[i])|)
  }

  /** The page that the elements from number i on give. */
  function PageOf(es: Expression, i: nat): (elems: Expression) {
    if i >= |es| then [] else es[i..i + Fill(es, i, 0)]
  }

  lemma ElemLength(e: Elem)
    ensures |ElemBytes(e)| == if PushesLiteral(e.op) then 5 else 1
  {
  }

  /** A page always makes progress: while elements are left, it holds at least one. */
  lemma PageProgresses(es: Expression, i: nat)
    requires i < |es|
    ensures PageOf(es, i) != []
  {
    ElemLength(es[i]);
  }

  /** The pages, each from where the last one ended. */
  function Pages(es: Expression, i: nat): Expression
    decreases |es| - i
  {
    if i >= |es| then [] else
      PageProgresses(es, i);
      PageOf(es, i) + Pages(es, i + |PageOf(es, i)|)
  }

  lemma ElementsSplit(es: Expression, i: nat, page: Expression)
    requires i <= |es| && page == PageOf(es, i)
    ensures i + |page| <= |es| && page + es[i + |page|..] == es[i..]
  {
  }

  /** Together the pages are the whole expression. */
  lemma {:induction false} PagesAreAll(es: Expression, i: nat)
    requires i <= |es|
    ensures Pages(es, i) == es[i..]
    decreases |es| - i
  {
    if i < |es| {
      PageProgresses(es, i);
      ElementsSplit(es, i, PageOf(es, i));
      PagesAreAll(es, i + |PageOf(es, i)|);
    }
  }

  /** The bytes of these elements: five for one with an operand, else one. */
  function BytesOf(es: Expression): nat {
    if es == [] then 0
    else BytesOf(es[1..]) + if es[0].op == 0 || es[0].op == 1 then 5 else 1
  }

  lemma {:induction false} FillIsFull(es: Expression, i: nat, used: nat)
    requires i <= |es| && used <= PAGE_SIZE
    ensures var n := Fill(es, i, used);
            && i + n <= |es| && used + BytesOf(es[i..i + n]) <= 27
            && (i + n < |es| ==> used + BytesOf(es[i..i + n]) + BytesOf([es[i + n]]) > 27)
    decreases |es| - i
  {
    if i < |es| {
      ElemLength(es[i]);
      assert BytesOf([es[i]]) == |ElemBytes(es[i])| by {
        assert [es[i]][1..] == [];
      }
      var n := Fill(es, i, used);
      if n > 0 {
        FillIsFull(es, i + 1, used + |ElemBytes(es[i])|);
        assert es[i..i + n][1..] == es[i + 1..i + n];
      } else {
        assert es[i..i] == [];
      }
    }
  }

  /** A page is full: it has at most 27 bytes, and the next element, if there is one, would make it longer. */
  lemma PageIsFull(es: Expression, i: nat)
    requires i < |es|
    ensures var page := PageOf(es, i);
            && i + |page| <= |es| && page == es[i..i + |page|] && BytesOf(page) <= 27
            && (i + |page| < |es| ==> BytesOf(page) + BytesOf([es[i + |page|]]) > 27)
  {
    FillIsFull(es, i, 0);
  }

  lemma FlatMapOne(e: Elem)
    ensures FlatMap(ElemBytes, [e]) == ElemBytes(e)
  {
    assert [e][..0] == [];
    assert FlatMap(ElemBytes, []) + ElemBytes(e) == ElemBytes(e);
  }

  /** What the host makes of a page: as many elements as it says. */
  lemma PageReadsBack(es: Expression, i: nat, t: seq<Byte>)
    requires i <= |es| && forall e :: e in es ==> CanonicalElem(e)
    ensures var page := PageOf(es, i); Repeat(ReadElem, |page|, FlatMap(ElemBytes, page) + t) == Got(page, t)
  {
    var page := PageOf(es, i);
    forall e | e in page
      ensures ReadsBack(ReadElem, ElemBytes, e)
    {
      assert e in es;
      ElemReadsBack(e);
    }
    RepeatReadsBack(ReadElem, ElemBytes, page, t);
  }

  lemma FillMore(es: Expression, from: nat, i: nat)
    requires from <= i < |es|
    requires var used := |FlatMap(ElemBytes, es[from..i])|;
             used <= PAGE_SIZE && Fill(es, from, 0) == i - from + Fill(es, i, used)
    ensures var used := |FlatMap(ElemBytes, es[from..i])|;
            && FlatMap(ElemBytes, es[from..i + 1]) == FlatMap(ElemBytes, es[from..i]) + ElemBytes(es[i])
            && (used + |ElemBytes(es[i])| > PAGE_SIZE ==> Fill(es, from, 0) == i - from)
            && (used + |ElemBytes(es[i])| <= PAGE_SIZE ==>
                  Fill(es, from, 0) == i + 1 - from + Fill(es, i + 1, used + |ElemBytes(es[i])|))
  {
    FlatMapSnoc(ElemBytes, es[from..i], es[i]);
    assert es[from..i] + [es[i]] == es[from..i + 1];
  }

  method WriteElem(e: Elem) returns (bytes: seq<Byte>)
    ensures bytes == ElemBytes(e)
  {
    bytes := LE(OpByte(e.op), 1);
    if PushesLiteral(e.op) {
      bytes := bytes + LE(e.val, 4);
    } else {
      assert bytes + [] == bytes;
    }
  }

  /** GET_EXPRESSION: from the requested element on, as many whole elements as fit. */
  method GetExpression(es: Expression, from: nat) returns (nelems: nat, data: seq<Byte>)
    ensures nelems == |PageOf(es, from)| && |data| <= PAGE_SIZE && data == FlatMap(ElemBytes, PageOf(es, from))
  {
    hide ElemBytes;
    nelems, data := 0, [];
    if from >= |es| {
      return;
    }
    var i := from;
    assert es[from..from] == [];
    while i < |es|
      invariant from <= i <= |es| && nelems == i - from && |data| <= PAGE_SIZE
      invariant data == FlatMap(ElemBytes, es[from..i])
      invariant Fill(es, from, 0) == i - from + Fill(es, i, |data|)
    {
      FillMore(es, from, i);
      ElemLength(es[i]);
      if |data| > PAGE_SIZE - (if PushesLiteral(es[i].op) then 5 else 1) {
        break;
      }
      var bytes := WriteElem(es[i]);
      data := data + bytes;
      nelems := nelems + 1;
      i := i + 1;
    }
  }

  // ---- writing ---------------------------------------------------------------------------------------------

  /** The elements of a packet, up to its end. */
  function Unpacked(n: nat, data: seq<Byte>): Expression {
    if n == 0 then [] else
      match ReadElem(data)
      case Short => []
      case Got(e, rest) => [e] + Unpacked(n - 1, rest)
  }

  /** The next element of a packet, if the packet holds all of it. */
  method TakeElem(data: seq<Byte>, at: nat) returns (e: Elem, next: nat, ok: bool)
    requires at <= |data| == PACKET_SIZE
    ensures at <= next <= |data|
    ensures ReadElem(data[at..]) == if ok then Got(e, data[next..]) else Short
  {
    e, next, ok := Elem(PUSH, 0), at, false;
    if at > PACKET_SIZE - 1 {
      return;
    }
    ghost var rest := data[at..];
    assert rest[..1] == [data[at]] && rest[1..] == data[at + 1..];
    ByteAlone(data[at]);
    var op := OpOf(data[at]);
    next := at + 1;
    if PushesLiteral(op) {
      if next > PACKET_SIZE - 4 {
        return;
      }
      assert rest[1..][..4] == data[next..next + 4] && rest[1..][4..] == data[next + 4..];
      e := Elem(op, As32(FromLE(data[next..next + 4])));
      next := next + 4;
    } else {
      e := Elem(op, 0);
    }
    ok := true;
  }

  /** APPEND_TO_EXPRESSION, on any packet. */
  method AppendToExpression(es: Expression, nelems: Byte, data: seq<Byte>) returns (r: Expression)
    requires |data| == PACKET_SIZE
    ensures r == es + Unpacked(nelems, data)
  {
    hide ReadElem;
    r := es;
    var at: nat, i: nat := 0, 0;
    assert data[0..] == data;
    while i < nelems
      invariant i <= nelems && at <= |data|
      invariant r + Unpacked(nelems - i, data[at..]) == es + Unpacked(nelems, data)
    {
      ghost var left := Unpacked(nelems - i, data[at..]);
      var e, next, ok := TakeElem(data, at);
      if !ok {
        assert r + left == r;
        return;
      }
      NextElem(r, e, left, Unpacked(nelems - i - 1, data[next..]));
      r := r + [e];
      at := next;
      i := i + 1;
    }
    assert r + Unpacked(0, data[at..]) == r;
  }

  lemma ByteAlone(b: Byte)
    ensures FromLE([b]) == b
  {
    assert [b][1..] == [];
  }

  lemma NextElem(r: Expression, e: Elem, left: Expression, others: Expression)
    requires left == [e] + others
    ensures (r + [e]) + others == r + left
  {
  }

  /** What is left of a packet does not hold another element. */
  predicate HoldsNone(rest: seq<Byte>) {
    rest == [] || ((rest[0] == 0 || rest[0] == 1) && |rest| < 5)
  }

  lemma ElemRead(data: seq<Byte>)
    ensures ReadElem(data).Short? <==> HoldsNone(data)
    ensures ReadElem(data).Got? ==> var e := ReadElem(data).value; data == ElemBytes(e) + ReadElem(data).rest
  {
    if data != [] {
      assert data[..1] == [data[0]];
      ByteAlone(data[0]);
      ByteBack(data[0]);
      if !HoldsNone(data) && (data[0] == 0 || data[0] == 1) {
        OperandRead(data[1..]);
        assert data == [data[0]] + data[1..];
        Regroup([data[0]], data[1..][..4], data[1..][4..]);
      }
    }
  }

  lemma OperandRead(data: seq<Byte>)
    requires |data| >= 4
    ensures LE(As32(FromLE(data[..4])), 4) == data[..4] && data == data[..4] + data[4..]
  {
    FromLERoundTrip(data[..4]);
    Pow256Values();
  }

  lemma ByteBack(b: Byte)
    ensures OpByte(OpOf(b)) == b && LE(b, 1) == [b]
    ensures PushesLiteral(OpOf(b)) <==> b == 0 || b == 1
  {
    assert LE(b / 0x100, 0) == [];
  }

  lemma NoElements(data: seq<Byte>)
    ensures FlatMap(ElemBytes, []) + data == data
  {
  }

  /** A packet's elements are those it starts with, as many as it says or, if it does not hold so many, all that it
      holds completely. */
  lemma {:induction false} UnpackedIsLongest(n: nat, data: seq<Byte>) returns (rest: seq<Byte>)
    ensures data == FlatMap(ElemBytes, Unpacked(n, data)) + rest
    ensures |Unpacked(n, data)| == n || (|Unpacked(n, data)| < n && HoldsNone(rest))
  {
    hide ElemBytes, ReadElem, HoldsNone, FlatMap;
    ElemRead(data);
    if n == 0 || ReadElem(data).Short? {
      rest := data;
      NoElements(data);
    } else {
      var e, others := ReadElem(data).value, ReadElem(data).rest;
      rest := UnpackedIsLongest(n - 1, others);
      var more := Unpacked(n - 1, others);
      FlatMapAppend(ElemBytes, [e], more);
      FlatMapOne(e);
      Regroup(ElemBytes(e), FlatMap(ElemBytes, more), rest);
    }
  }

  lemma {:induction false} UnpackedInverse(es: Expression, t: seq<Byte>)
    requires forall e :: e in es ==> CanonicalElem(e)
    ensures Unpacked(|es|, FlatMap(ElemBytes, es) + t) == es
  {
    if es != [] {
      var rest := FlatMap(ElemBytes, es[1..]) + t;
      FlatMapAppend(ElemBytes, [es[0]], es[1..]);
      FlatMapOne(es[0]);
      assert [es[0]] + es[1..] == es;
      assert FlatMap(ElemBytes, es) + t == ElemBytes(es[0]) + rest;
      ElemReadsBack(es[0]);
      assert ReadElem(ElemBytes(es[0]) + rest) == Got(es[0], rest);
      UnpackedInverse(es[1..], t);
    }
  }

  /** A packet of whole elements, padded, appends exactly those elements. */
  lemma PacketAppends(es: Expression, padding: seq<Byte>)
    requires |es| < 256 && forall e :: e in es ==> CanonicalElem(e)
    requires |FlatMap(ElemBytes, es) + padding| == PACKET_SIZE
    ensures Unpacked(|es|, FlatMap(ElemBytes, es) + padding) == es
  {
    UnpackedInverse(es, padding);
  }
}
