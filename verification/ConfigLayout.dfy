/** Where the numbers of a persisted configuration lie: byte by byte, as the packed structs of `types.h` lay them out.
    */
module ConfigLayout {
  import opened Bytes
  import opened Sequences
  import opened ExprOps
  import opened ConfigCodec

  /** Two bytes, the low one first. */
  function Half(s: seq<Byte>, at: nat): nat
    requires at + 2 <= |s|
  {
    s[at] as nat + 0x100 * s[at + 1] as nat
  }

  /** Four bytes, the lowest one first. */
  function Word(s: seq<Byte>, at: nat): nat
    requires at + 4 <= |s|
  {
    s[at] as nat + 0x100 * s[at + 1] as nat + 0x1_0000 * s[at + 2] as nat + 0x100_0000 * s[at + 3] as nat
  }

  lemma TwoDigits(n: nat)
    ensures n % 0x100 + 0x100 * (n / 0x100 % 0x100) == n % 0x1_0000
  {
    var high, low := n / 0x100, n % 0x100;
    var q, r := high / 0x100, high % 0x100;
    assert n == 0x1_0000 * q + (low + 0x100 * r) && 0 <= low + 0x100 * r < 0x1_0000;
    assert n / 0x1_0000 == q;
  }

  lemma ThreeDigits(n: nat)
    ensures n % 0x100 + 0x100 * (n / 0x100 % 0x1_0000) == n % 0x100_0000
  {
    var high, low := n / 0x100, n % 0x100;
    var q, r := high / 0x1_0000, high % 0x1_0000;
    assert n == 0x100_0000 * q + (low + 0x100 * r) && 0 <= low + 0x100 * r < 0x100_0000;
    assert n / 0x100_0000 == q;
  }

  lemma FourDigits(n: nat)
    ensures n % 0x100 + 0x100 * (n / 0x100 % 0x100_0000) == n % 0x1_0000_0000
  {
    var high, low := n / 0x100, n % 0x100;
    var q, r := high / 0x100_0000, high % 0x100_0000;
    assert n == 0x1_0000_0000 * q + (low + 0x100 * r) && 0 <= low + 0x100 * r < 0x1_0000_0000;
    assert n / 0x1_0000_0000 == q;
  }

  /** One, two and four bytes of a number, the lowest one first. */
  lemma LowestFirst(n: nat)
    ensures LE(n, 1) == [n % 0x100]
    ensures |LE(n, 2)| == 2 && Half(LE(n, 2), 0) == n % 0x1_0000
    ensures |LE(n, 4)| == 4 && Word(LE(n, 4), 0) == n % 0x1_0000_0000
  {
    var a, b, c := n / 0x100, n / 0x100 / 0x100, n / 0x100 / 0x100 / 0x100;
    assert LE(c, 1) == [c % 0x100];
    assert LE(b, 2) == [b % 0x100, c % 0x100];
    assert LE(a, 3) == [a % 0x100, b % 0x100, c % 0x100];
    assert LE(n, 2) == [n % 0x100, a % 0x100];
    assert LE(n, 4) == [n % 0x100, a % 0x100, b % 0x100, c % 0x100];
    TwoDigits(n);
    FourDigits(n);
    ThreeDigits(a);
    TwoDigits(b);
  }

  // ---- packed structs -------------------------------------------------------------------------------------

  function Offset(widths: seq<nat>, i: nat): nat
    requires i <= |widths|
  {
    if i == 0 then 0 else Offset(widths, i - 1) + widths[i - 1]
  }

  /** A struct's fields lie one behind the other. */
  lemma {:induction false} PackAt(ns: seq<nat>, widths: seq<nat>, i: nat)
    requires i < |ns| == |widths|
    ensures Offset(widths, i) + widths[i] <= |Pack(ns, widths)|
    ensures Pack(ns, widths)[Offset(widths, i)..][..widths[i]] == LE(ns[i], widths[i])
  {
    var n := |ns| - 1;
    OffsetOfPrefix(widths, n, i);
    if i < n {
      PackAt(ns[..n], widths[..n], i);
      var before := Pack(ns[..n], widths[..n]);
      Inside(before, LE(ns[n], widths[n]), Offset(widths, i), widths[i]);
    } else {
      PackedSoFar(ns[..n], widths[..n]);
    }
  }

  lemma Inside(before: seq<Byte>, after: seq<Byte>, at: nat, k: nat)
    requires at + k <= |before|
    ensures (before + after)[at..][..k] == before[at..][..k]
  {
  }

  lemma {:induction false} OffsetOfPrefix(widths: seq<nat>, n: nat, i: nat)
    requires i <= n <= |widths|
    ensures Offset(widths[..n], i) == Offset(widths, i)
    decreases i
  {
    if i > 0 {
      OffsetOfPrefix(widths, n, i - 1);
    }
  }

  lemma {:induction false} PackedSoFar(ns: seq<nat>, widths: seq<nat>)
    requires |ns| == |widths|
    ensures |Pack(ns, widths)| == Offset(widths, |widths|)
  {
    if ns != [] {
      var n := |ns| - 1;
      PackedSoFar(ns[..n], widths[..n]);
      OffsetOfPrefix(widths, n, n);
    }
  }

  /** A field of one, two or four bytes, at this place. */
  lemma FieldAt(ns: seq<nat>, widths: seq<nat>, i: nat, at: nat)
    requires i < |ns| == |widths| && at == Offset(widths, i)
    ensures at + widths[i] <= |Pack(ns, widths)|
    ensures widths[i] == 1 ==> Pack(ns, widths)[at] == ns[i] % 0x100
    ensures widths[i] == 2 ==> Half(Pack(ns, widths), at) == ns[i] % 0x1_0000
    ensures widths[i] == 4 ==> Word(Pack(ns, widths), at) == ns[i] % 0x1_0000_0000
  {
    PackAt(ns, widths, i);
    LowestFirst(ns[i]);
    var s, t := Pack(ns, widths), LE(ns[i], widths[i]);
    assert forall j :: 0 <= j < widths[i] ==> s[at..][..widths[i]][j] == s[at + j];
    assert forall j :: 0 <= j < widths[i] ==> t[j] == s[at + j];
  }

  /** Where the fields of a mapping lie: `mapping_config11_t`. */
  lemma MappingAt(m: Mapping)
    ensures var s := MappingBytes(m);
            && |s| == 15
            && Word(s, 0) == m.target && Word(s, 4) == m.source && Word(s, 8) == m.scaling % 0x1_0000_0000
            && s[12] == m.layers && s[13] == m.flags && s[14] == m.ports
  {
    hide Pack, Half, Word;
    var ns, w := [m.target, m.source, Unsigned32(m.scaling), m.layers, m.flags, m.ports], MAPPING_WIDTHS;
    PackedSoFar(ns, w);
    assert Offset(w, 1) == 4;
    assert Offset(w, 2) == 8;
    assert Offset(w, 3) == 12;
    assert Offset(w, 4) == 13;
    assert Offset(w, 5) == 14;
    FieldAt(ns, w, 0, 0);
    FieldAt(ns, w, 1, 4);
    FieldAt(ns, w, 2, 8);
    FieldAt(ns, w, 3, 12);
    FieldAt(ns, w, 4, 13);
    FieldAt(ns, w, 5, 14);
  }

  /** And those of a quirk: `quirk_t`. */
  lemma QuirkAt(q: Quirk)
    ensures var s := QuirkBytes(q);
            && |s| == 13
            && Half(s, 0) == q.vendor && Half(s, 2) == q.product && s[4] == q.itf && s[5] == q.report
            && Word(s, 6) == q.usage && Half(s, 10) == q.bitpos && s[12] == q.sizeFlags
  {
    hide Pack, Half, Word;
    var ns, w := [q.vendor, q.product, q.itf, q.report, q.usage, q.bitpos, q.sizeFlags], QUIRK_WIDTHS;
    PackedSoFar(ns, w);
    assert Offset(w, 1) == 2;
    assert Offset(w, 2) == 4;
    assert Offset(w, 3) == 5;
    assert Offset(w, 4) == 6;
    assert Offset(w, 5) == 10;
    assert Offset(w, 6) == 12;
    FieldAt(ns, w, 0, 0);
    FieldAt(ns, w, 1, 2);
    FieldAt(ns, w, 2, 4);
    FieldAt(ns, w, 3, 5);
    FieldAt(ns, w, 4, 6);
    FieldAt(ns, w, 5, 10);
    FieldAt(ns, w, 6, 12);
  }

  /** The flags byte: bit 4 for ignored authentication inputs, 5 for the output mode and 6 for normalised gamepads, the
      mode shifted in whole; no lower bit. */
  lemma FlagBits(s: Settings)
    ensures Flags(s) < 0x100 && Flags(s) % 16 == 0
    ensures Flags(s) / 16 % 2 == 1 <==> s.ignoreAuth
    ensures Flags(s) / 32 % 2 == s.gpioOutputMode % 2
    ensures Flags(s) / 64 % 2 == 1 <==> s.normalizeGamepads || s.gpioOutputMode / 2 % 2 == 1
    ensures Flags(s) / 128 % 2 == s.gpioOutputMode / 4 % 2
  {
  }

  lemma HeaderOffsets()
    ensures var w := HEADER_WIDTHS;
            && Offset(w, 0) == 0 && Offset(w, 1) == 1 && Offset(w, 2) == 2 && Offset(w, 3) == 3 && Offset(w, 4) == 7
            && Offset(w, 5) == 9 && Offset(w, 6) == 10 && Offset(w, 7) == 14 && Offset(w, 8) == 15 && Offset(w, 9) == 16
            && Offset(w, 10) == 17 && Offset(w, 11) == 19
  {
    var w := HEADER_WIDTHS;
    assert Offset(w, 3) == 3;
    assert Offset(w, 5) == 9;
    assert Offset(w, 7) == 14;
    assert Offset(w, 9) == 16;
  }

  /** The header of version 18: `persist_config_v18_t`. */
  lemma HeaderAt(c: Config)
    ensures var s, settings := Header(c), c.settings;
            && |s| == 19
            && s[0] == 18 && s[1] == Flags(settings) && s[2] == settings.unmappedLayers
            && Word(s, 3) == settings.partialScrollTimeout && Half(s, 7) == |c.mappings| % 0x1_0000
            && s[9] == settings.intervalOverride && Word(s, 10) == settings.tapHoldThreshold
            && s[14] == settings.gpioDebounceTime / 1000 % 0x100 && s[15] == settings.descriptorNumber
            && s[16] == settings.macroEntryDuration && Half(s, 17) == |c.quirks| % 0x1_0000
  {
    hide Pack, Half, Word, Offset, Flags;
    var ns, w := HeaderFields(c), HEADER_WIDTHS;
    FlagBits(c.settings);
    HeaderOffsets();
    PackedSoFar(ns, w);
    FieldAt(ns, w, 0, 0);
    FieldAt(ns, w, 1, 1);
    FieldAt(ns, w, 2, 2);
    FieldAt(ns, w, 3, 3);
    FieldAt(ns, w, 4, 7);
    FieldAt(ns, w, 5, 9);
    FieldAt(ns, w, 6, 10);
    FieldAt(ns, w, 7, 14);
    FieldAt(ns, w, 8, 15);
    FieldAt(ns, w, 9, 16);
    FieldAt(ns, w, 10, 17);
  }

  // ---- lists ------------------------------------------------------------------------------------------------

  /** In a list of values of k bytes each, value i lies at k * i. */
  lemma {:induction false} FixedAt<A>(f: A -> seq<Byte>, xs: seq<A>, k: nat, i: nat)
    requires i < |xs| && forall a :: |f(a)| == k
    ensures k * i + k <= |FlatMap(f, xs)| && FlatMap(f, xs)[k * i..][..k] == f(xs[i])
  {
    var n := |xs| - 1;
    FlatMapFixed(f, xs[..n], k);
    if i < n {
      FixedAt(f, xs[..n], k, i);
      Inside(FlatMap(f, xs[..n]), f(xs[n]), k * i, k);
    }
  }

  lemma Behind(a: seq<Byte>, b: seq<Byte>, at: nat, k: nat)
    requires at + k <= |b|
    ensures (a + b)[|a| + at..][..k] == b[at..][..k]
  {
  }

  lemma WordBehind(a: seq<Byte>, b: seq<Byte>, at: nat)
    requires at + 4 <= |b|
    ensures Word(a + b, |a| + at) == Word(b, at)
  {
  }

  lemma WordOfPart(s: seq<Byte>, at: nat)
    requires at + 4 <= |s|
    ensures Word(s, at) == Word(s[at..][..4], 0)
  {
  }

  /** A macro's entry: how many usages it has, in a byte, and the usages, four bytes each. */
  lemma EntryAt(e: Entry, k: nat)
    requires k < |e|
    ensures var s := EntryBytes(e); |s| == 1 + 4 * |e| && s[0] == |e| % 0x100 && Word(s, 1 + 4 * k) == e[k]
  {
    hide Word, FlatMap;
    forall u: Uint32
      ensures |UsageBytes(u)| == 4
    {
    }
    FlatMapFixed(UsageBytes, e, 4);
    FixedAt(UsageBytes, e, 4, k);
    LowestFirst(|e|);
    LowestFirst(e[k]);
    WordBehind(LE(|e|, 1), FlatMap(UsageBytes, e), 4 * k);
    WordOfPart(FlatMap(UsageBytes, e), 4 * k);
  }

  /** An element: its operation in a byte, and its operand in four if it pushes one. */
  lemma ElemAt(e: Elem)
    ensures var s := ElemBytes(e);
            && |s| == (if e.op == 0 || e.op == 1 then 5 else 1) && s[0] == e.op % 0x100
            && (|s| == 5 ==> Word(s, 1) == e.val)
  {
    LowestFirst(OpByte(e.op));
    LowestFirst(e.val);
    if e.op == 0 || e.op == 1 {
      WordBehind(LE(OpByte(e.op), 1), LE(e.val, 4), 0);
    }
  }

  /** A macro starts with the number of its entries in a byte, an expression with that of its elements in two. */
  lemma CountsAt(m: Macro, es: Expression)
    ensures |MacroBytes(m)| >= 1 && MacroBytes(m)[0] == |m| % 0x100
    ensures |ExpressionBytes(es)| >= 2 && Half(ExpressionBytes(es), 0) == |es| % 0x1_0000
  {
    LowestFirst(|m|);
    LowestFirst(|es|);
  }

  // ---- the image ----------------------------------------------------------------------------------------------

  /** Mapping i lies behind the header and the mappings before it. */
  lemma MappingIn(c: Config, i: nat)
    requires i < |c.mappings| % 0x1_0000
    ensures 34 + 15 * i <= |Payload(c)| && Payload(c)[19 + 15 * i..][..15] == MappingBytes(c.mappings[i])
  {
    hide MappingBytes, FlatMap, Header, MacroBytes, ExpressionBytes, QuirkBytes;
    forall m: Mapping
      ensures |MappingBytes(m)| == 15
    {
      MappingAt(m);
    }
    HeaderAt(c);
    var list := FlatMap(MappingBytes, SavedMappings(c));
    FixedAt(MappingBytes, SavedMappings(c), 15, i);
    Behind(Header(c), list, 15 * i, 15);
    var macros, exprs, quirks :=
      FlatMap(MacroBytes, c.macros), FlatMap(ExpressionBytes, c.expressions), FlatMap(QuirkBytes, c.quirks);
    Inside(Header(c) + list, macros, 19 + 15 * i, 15);
    Inside(Header(c) + list + macros, exprs, 19 + 15 * i, 15);
    Inside(Header(c) + list + macros + exprs, quirks, 19 + 15 * i, 15);
  }

  /** The quirks are the last of the payload; between them and the mappings come the macros and then the expressions. */
  lemma RestIn(c: Config, i: nat)
    ensures var s, at := Payload(c), 19 + 15 * (|c.mappings| % 0x1_0000);
            var macros, exprs := FlatMap(MacroBytes, c.macros), FlatMap(ExpressionBytes, c.expressions);
            && |s| == at + |macros| + |exprs| + 13 * |c.quirks|
            && s[at..][..|macros|] == macros && s[at + |macros|..][..|exprs|] == exprs
            && (i < |c.quirks| ==> s[at + |macros| + |exprs| + 13 * i..][..13] == QuirkBytes(c.quirks[i]))
  {
    hide MappingBytes, FlatMap, Header, MacroBytes, ExpressionBytes, QuirkBytes;
    forall m: Mapping
      ensures |MappingBytes(m)| == 15
    {
      MappingAt(m);
    }
    forall q: Quirk
      ensures |QuirkBytes(q)| == 13
    {
      QuirkAt(q);
    }
    HeaderAt(c);
    var list, macros, exprs, quirks :=
      FlatMap(MappingBytes, SavedMappings(c)), FlatMap(MacroBytes, c.macros), FlatMap(ExpressionBytes, c.expressions),
      FlatMap(QuirkBytes, c.quirks);
    FlatMapFixed(MappingBytes, SavedMappings(c), 15);
    FlatMapFixed(QuirkBytes, c.quirks, 13);
    Parts(Header(c) + list, macros, exprs, quirks);
    if i < |c.quirks| {
      FixedAt(QuirkBytes, c.quirks, 13, i);
      Behind(Header(c) + list + macros + exprs, quirks, 13 * i, 13);
    }
  }

  lemma Parts(a: seq<Byte>, b: seq<Byte>, c: seq<Byte>, d: seq<Byte>)
    ensures var s := a + b + c + d;
            |s| == |a| + |b| + |c| + |d| && s[|a|..][..|b|] == b && s[|a| + |b|..][..|c|] == c
  {
  }

  /** The image has the payload first, then zeros, and in its last four bytes the checksum of all before them. */
  lemma ImageAt(crc: Checksum, c: Config)
    requires RealSize(c) <= 4096
    ensures var s, p := Image(crc, c), Payload(c);
            && |p| <= 4092 && |s| == 4096 && s[..|p|] == p
            && (forall j :: |p| <= j < 4092 ==> s[j] == 0)
            && Word(s, 4092) == crc(s[..4092])
  {
    hide Payload, Word, RealSize;
    SizeIsExact(c);
    var body := Payload(c) + Zeros(4092 - |Payload(c)|);
    assert Image(crc, c) == body + LE(crc(body), 4);
    assert (body + LE(crc(body), 4))[..4092] == body;
    LowestFirst(crc(body));
    WordBehind(body, LE(crc(body), 4), 0);
  }

  /** Whatever is loaded has 32 macros and 8 expressions, describes one of six devices, and has a GPIO mode of 0 or 1;
      its debounce time is whole milliseconds, below 256. */
  lemma LoadedNumbers(crc: Checksum, image: seq<Byte>)
    requires |image| == 4096 && LoadConfig(crc, image).Ok?
    ensures var c := LoadConfig(crc, image).config;
            && |c.macros| == 32 && |c.expressions| == 8 && |c.mappings| < 0x1_0000 && |c.quirks| < 0x1_0000
            && c.settings.descriptorNumber < 6 && c.settings.gpioOutputMode <= 1
            && c.settings.gpioDebounceTime % 1000 == 0 && c.settings.gpioDebounceTime < 256000
  {
    hide LoadConfig;
    LoadedIsCanonical(crc, image);
  }
}
