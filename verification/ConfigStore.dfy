/** `persist_config` as it works: a cursor through a zeroed buffer. */
module ConfigStore {
  import opened Bytes
  import opened Sequences
  import opened ExprOps
  import opened ConfigCodec

  lemma {:induction false} FlatMapGrows<A>(f: A -> seq<Byte>, s: seq<A>, i: nat)
    requires i <= |s|
    ensures |FlatMap(f, s[..i])| <= |FlatMap(f, s)|
  {
    if i < |s| {
      FlatMapGrows(f, s[..|s| - 1], i);
      assert s[..|s| - 1][..i] == s[..i];
    } else {
      assert s[..i] == s;
    }
  }

  /** One more item behind the first i. */
  lemma NextItem<A>(before: seq<Byte>, f: A -> seq<Byte>, items: seq<A>, i: nat)
    requires i < |items|
    ensures (before + FlatMap(f, items[..i])) + f(items[i]) == before + FlatMap(f, items[..i + 1])
    ensures |before + FlatMap(f, items[..i])| + |f(items[i])| <= |before| + |FlatMap(f, items)|
  {
    FlatMapPrefix(f, items, i);
    FlatMapGrows(f, items, i + 1);
  }

  lemma Whole<A>(s: seq<A>)
    ensures s[..|s|] == s
  {
  }

  class Writer {
    const buffer: array<Byte>
    var at: nat

    /** What lies before the cursor; behind it, the buffer is still zero. */
    ghost var written: seq<Byte>

    ghost predicate Valid()
      reads this, buffer
    {
      at <= buffer.Length && written == buffer[..at] && forall i :: at <= i < buffer.Length ==> buffer[i] == 0
    }

    constructor (size: nat)
      ensures Valid() && fresh(buffer) && buffer.Length == size && written == []
    {
      buffer := new Byte[size](_ => 0);
      at := 0;
      written := [];
    }

    method PutByte(b: Byte)
      requires Valid() && |written| < buffer.Length
      modifies this, buffer
      ensures Valid() && written == old(written) + [b]
    {
      buffer[at] := b;
      at := at + 1;
      written := written + [b];
    }

    /** A number, lowest byte first. */
    method PutNumber(n: nat, k: nat)
      requires Valid() && |written| + k <= buffer.Length
      modifies this, buffer
      ensures Valid() && written == old(written) + LE(n, k)
    {
      var rest: nat := n;
      ghost var before := written;
      for i := 0 to k
        invariant Valid() && |written| + (k - i) <= buffer.Length
        invariant written + LE(rest, k - i) == before + LE(n, k)
      {
        Regroup(written, [rest % 256], LE(rest / 256, k - i - 1));
        PutByte(rest % 256);
        rest := rest / 256;
      }
      assert written + LE(rest, 0) == written;
    }

    /** A packed struct. */
    method PutStruct(ns: seq<nat>, widths: seq<nat>)
      requires Valid() && |ns| == |widths| && |written| + |Pack(ns, widths)| <= buffer.Length
      modifies this, buffer
      ensures Valid() && written == old(written) + Pack(ns, widths)
    {
      ghost var before := written;
      assert written == before + Pack(ns[..0], widths[..0]);
      for i := 0 to |ns|
        invariant Valid() && written == before + Pack(ns[..i], widths[..i])
      {
        PackNext(ns, widths, i);
        Regroup(before, Pack(ns[..i], widths[..i]), LE(ns[i], widths[i]));
        PutNumber(ns[i], widths[i]);
      }
      Whole(ns);
      Whole(widths);
    }

    method PutEntry(e: Entry)
      requires Valid() && |written| + |EntryBytes(e)| <= buffer.Length
      modifies this, buffer
      ensures Valid() && written == old(written) + EntryBytes(e)
    {
      Regroup(written, LE(|e|, 1), FlatMap(UsageBytes, e));
      PutNumber(|e|, 1);
      ghost var before := written;
      for k := 0 to |e|
        invariant Valid() && written == before + FlatMap(UsageBytes, e[..k])
      {
        NextItem(before, UsageBytes, e, k);
        PutNumber(e[k], 4);
      }
      Whole(e);
    }

    method PutMacro(m: Macro)
      requires Valid() && |written| + |MacroBytes(m)| <= buffer.Length
      modifies this, buffer
      ensures Valid() && written == old(written) + MacroBytes(m)
    {
      Regroup(written, LE(|m|, 1), FlatMap(EntryBytes, m));
      PutNumber(|m|, 1);
      ghost var before := written;
      for j := 0 to |m|
        invariant Valid() && written == before + FlatMap(EntryBytes, m[..j])
      {
        NextItem(before, EntryBytes, m, j);
        PutEntry(m[j]);
      }
      Whole(m);
    }

    method PutElem(e: Elem)
      requires Valid() && |written| + |ElemBytes(e)| <= buffer.Length
      modifies this, buffer
      ensures Valid() && written == old(written) + ElemBytes(e)
    {
      Regroup(written, LE(OpByte(e.op), 1), if PushesLiteral(e.op) then LE(e.val, 4) else []);
      PutNumber(OpByte(e.op), 1);
      if PushesLiteral(e.op) {
        PutNumber(e.val, 4);
      }
    }

    method PutExpression(es: Expression)
      requires Valid() && |written| + |ExpressionBytes(es)| <= buffer.Length
      modifies this, buffer
      ensures Valid() && written == old(written) + ExpressionBytes(es)
    {
      Regroup(written, LE(|es|, 2), FlatMap(ElemBytes, es));
      PutNumber(|es|, 2);
      ghost var before := written;
      for j := 0 to |es|
        invariant Valid() && written == before + FlatMap(ElemBytes, es[..j])
      {
        NextItem(before, ElemBytes, es, j);
        PutElem(es[j]);
      }
      Whole(es);
    }

    method PutMappings(ms: seq<Mapping>)
      requires Valid() && |written| + |FlatMap(MappingBytes, ms)| <= buffer.Length
      modifies this, buffer
      ensures Valid() && written == old(written) + FlatMap(MappingBytes, ms)
    {
      ghost var before := written;
      for i := 0 to |ms|
        invariant Valid() && written == before + FlatMap(MappingBytes, ms[..i])
      {
        NextItem(before, MappingBytes, ms, i);
        var m := ms[i];
        PutStruct([m.target, m.source, Unsigned32(m.scaling), m.layers, m.flags, m.ports], MAPPING_WIDTHS);
      }
      Whole(ms);
    }

    method PutMacros(ms: seq<Macro>)
      requires Valid() && |written| + |FlatMap(MacroBytes, ms)| <= buffer.Length
      modifies this, buffer
      ensures Valid() && written == old(written) + FlatMap(MacroBytes, ms)
    {
      ghost var before := written;
      for i := 0 to |ms|
        invariant Valid() && written == before + FlatMap(MacroBytes, ms[..i])
      {
        NextItem(before, MacroBytes, ms, i);
        PutMacro(ms[i]);
      }
      Whole(ms);
    }

    method PutExpressions(es: seq<Expression>)
      requires Valid() && |written| + |FlatMap(ExpressionBytes, es)| <= buffer.Length
      modifies this, buffer
      ensures Valid() && written == old(written) + FlatMap(ExpressionBytes, es)
    {
      ghost var before := written;
      for i := 0 to |es|
        invariant Valid() && written == before + FlatMap(ExpressionBytes, es[..i])
      {
        NextItem(before, ExpressionBytes, es, i);
        PutExpression(es[i]);
      }
      Whole(es);
    }

    method PutQuirks(qs: seq<Quirk>)
      requires Valid() && |written| + |FlatMap(QuirkBytes, qs)| <= buffer.Length
      modifies this, buffer
      ensures Valid() && written == old(written) + FlatMap(QuirkBytes, qs)
    {
      ghost var before := written;
      for i := 0 to |qs|
        invariant Valid() && written == before + FlatMap(QuirkBytes, qs[..i])
      {
        NextItem(before, QuirkBytes, qs, i);
        var q := qs[i];
        PutStruct([q.vendor, q.product, q.itf, q.report, q.usage, q.bitpos, q.sizeFlags], QUIRK_WIDTHS);
      }
      Whole(qs);
    }

    /** Everything, one part behind the other. */
    method PutParts(header: seq<nat>, ms: seq<Mapping>, macros: seq<Macro>, es: seq<Expression>, qs: seq<Quirk>)
      requires Valid() && written == [] && |header| == |HEADER_WIDTHS|
      requires |Pack(header, HEADER_WIDTHS)| + |FlatMap(MappingBytes, ms)| + |FlatMap(MacroBytes, macros)|
               + |FlatMap(ExpressionBytes, es)| + |FlatMap(QuirkBytes, qs)| <= buffer.Length
      modifies this, buffer
      ensures Valid()
      ensures written == Pack(header, HEADER_WIDTHS) + FlatMap(MappingBytes, ms) + FlatMap(MacroBytes, macros)
                         + FlatMap(ExpressionBytes, es) + FlatMap(QuirkBytes, qs)
    {
      assert [] + Pack(header, HEADER_WIDTHS) == Pack(header, HEADER_WIDTHS);
      PutStruct(header, HEADER_WIDTHS);
      PutMappings(ms);
      PutMacros(macros);
      PutExpressions(es);
      PutQuirks(qs);
    }

    /** The checksum of all before it goes into the last four bytes. */
    method Seal(crc: Checksum)
      requires Valid() && |written| + 4 <= buffer.Length
      modifies this, buffer
      ensures var body := old(written) + Zeros(buffer.Length - 4 - |old(written)|);
              buffer[..] == body + LE(crc(body), 4)
    {
      ghost var body := written + Zeros(buffer.Length - 4 - |written|);
      assert buffer[..buffer.Length - 4] == body;
      var value := crc(buffer[..buffer.Length - 4]);
      at := buffer.Length - 4;
      written := body;
      PutNumber(value, 4);
      assert buffer[..at] == buffer[..];
    }
  }

  lemma PackNext(ns: seq<nat>, widths: seq<nat>, i: nat)
    requires |ns| == |widths| && i < |ns|
    ensures Pack(ns[..i + 1], widths[..i + 1]) == Pack(ns[..i], widths[..i]) + LE(ns[i], widths[i])
    ensures |Pack(ns[..i + 1], widths[..i + 1])| <= |Pack(ns, widths)|
  {
    assert ns[..i + 1][..i] == ns[..i] && widths[..i + 1][..i] == widths[..i];
    PackGrows(ns, widths, i + 1);
  }

  lemma {:induction false} PackGrows(ns: seq<nat>, widths: seq<nat>, i: nat)
    requires |ns| == |widths| && i <= |ns|
    ensures |Pack(ns[..i], widths[..i])| <= |Pack(ns, widths)|
  {
    var n := |ns| - 1;
    if i < |ns| {
      PackGrows(ns[..n], widths[..n], i);
      assert ns[..n][..i] == ns[..i] && widths[..n][..i] == widths[..i];
    } else {
      assert ns[..i] == ns && widths[..i] == widths;
    }
  }

  // ---- the size computed beforehand -----------------------------------------------------------------

  lemma SizesSnoc(ms: seq<Macro>, es: seq<Expression>, i: nat)
    ensures i < |ms| ==> MacrosSize(ms[..i + 1]) == MacrosSize(ms[..i]) + 1 + EntriesSize(ms[i])
    ensures i < |es| ==> ExpressionsSize(es[..i + 1]) == ExpressionsSize(es[..i]) + 2 + ElemsSize(es[i])
  {
    if i < |ms| {
      assert ms[..i + 1][..i] == ms[..i];
    }
    if i < |es| {
      assert es[..i + 1][..i] == es[..i];
    }
  }

  method MacroSize(m: Macro) returns (size: nat)
    ensures size == EntriesSize(m)
  {
    size := 0;
    for j := 0 to |m|
      invariant size == EntriesSize(m[..j])
    {
      assert m[..j + 1][..j] == m[..j];
      size := size + 1 + |m[j]| * 4;
    }
    Whole(m);
  }

  method ExpressionSize(es: Expression) returns (size: nat)
    ensures size == ElemsSize(es)
  {
    size := 0;
    for j := 0 to |es|
      invariant size == ElemsSize(es[..j])
    {
      assert es[..j + 1][..j] == es[..j];
      size := size + 1;
      if PushesLiteral(es[j].op) {
        size := size + 4;
      }
    }
    Whole(es);
  }

  method RealPersistedConfigSize(c: Config) returns (size: nat)
    ensures size == RealSize(c)
  {
    size := 19 + (|c.mappings| % 0x1_0000) * 15;
    ghost var start := size;
    for i := 0 to |c.macros|
      invariant size == start + MacrosSize(c.macros[..i])
    {
      SizesSnoc(c.macros, [], i);
      var macroSize := MacroSize(c.macros[i]);
      size := size + 1 + macroSize;
    }
    Whole(c.macros);
    for i := 0 to |c.expressions|
      invariant size == start + MacrosSize(c.macros) + ExpressionsSize(c.expressions[..i])
    {
      SizesSnoc([], c.expressions, i);
      var expressionSize := ExpressionSize(c.expressions[i]);
      size := size + 2 + expressionSize;
    }
    Whole(c.expressions);
    size := size + |c.quirks| * 13 + 4;
  }

  /** `persist_config`: the image, or nothing when there is no room for it. */
  method Persist(crc: Checksum, c: Config) returns (r: Persisted)
    ensures r == PersistConfig(crc, c)
  {
    var size := RealPersistedConfigSize(c);
    if size > PERSISTED_CONFIG_SIZE {
      return ConfigTooBig;
    }
    SizeIsExact(c);
    var w := new Writer(PERSISTED_CONFIG_SIZE);
    w.PutParts(HeaderFields(c), c.mappings[..|c.mappings| % 0x1_0000], c.macros, c.expressions, c.quirks);
    w.Seal(crc);
    r := Success(w.buffer[..]);
  }
}
