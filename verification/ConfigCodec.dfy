/** The configuration in flash: `persist_config`, and `load_config` for the version it writes. */
module ConfigCodec {
  import opened Bytes
  import opened Sequences
  import opened ExprOps

  const PERSISTED_CONFIG_SIZE: nat := 4096
  const CONFIG_VERSION: Byte := 18
  const NMACROS: nat := 32
  const NEXPRESSIONS: nat := 8
  const NOUR_DESCRIPTORS: nat := 6

  type Uint16 = x: int | 0 <= x < 0x1_0000

  datatype Settings = Settings(
    unmappedLayers: Byte, ignoreAuth: bool, gpioOutputMode: Byte, normalizeGamepads: bool,
    partialScrollTimeout: Uint32, tapHoldThreshold: Uint32, gpioDebounceTime: nat,
    intervalOverride: Byte, descriptorNumber: Byte, macroEntryDuration: Byte)

  datatype Mapping = Mapping(target: Uint32, source: Uint32, scaling: Int32, layers: Byte, flags: Byte, ports: Byte)

  type Entry = seq<Uint32>
  type Macro = seq<Entry>

  type Expression = seq<Elem>

  datatype Quirk = Quirk(
    vendor: Uint16, product: Uint16, itf: Byte, report: Byte, usage: Uint32, bitpos: Uint16, sizeFlags: Byte)

  datatype Config = Config(
    settings: Settings, mappings: seq<Mapping>, macros: seq<Macro>, expressions: seq<Expression>, quirks: seq<Quirk>)

  // ---- packed structs ---------------------------------------------------------------------------

  /** Numbers in fields of these widths, lowest byte first. */
  function Pack(ns: seq<nat>, widths: seq<nat>): seq<Byte>
    requires |ns| == |widths|
  {
    if ns == [] then [] else
      var n := |ns| - 1;
      Pack(ns[..n], widths[..n]) + LE(ns[n], widths[n])
  }

  function Total(widths: seq<nat>): nat {
    if widths == [] then 0 else Total(widths[..|widths| - 1]) + widths[|widths| - 1]
  }

  lemma {:induction false} PackLength(ns: seq<nat>, widths: seq<nat>)
    requires |ns| == |widths|
    ensures |Pack(ns, widths)| == Total(widths)
  {
    if ns != [] {
      PackLength(ns[..|ns| - 1], widths[..|ns| - 1]);
    }
  }

  lemma TotalSnoc(widths: seq<nat>, total: nat, w: nat, longer: seq<nat>)
    requires Total(widths) == total && longer == widths + [w]
    ensures Total(longer) == total + w
  {
    assert longer[..|longer| - 1] == widths;
  }

  const HEADER_WIDTHS: seq<nat> := [1, 1, 1, 4, 2, 1, 4, 1, 1, 1, 2]
  const MAPPING_WIDTHS: seq<nat> := [4, 4, 4, 1, 1, 1]
  const QUIRK_WIDTHS: seq<nat> := [2, 2, 1, 1, 4, 2, 1]

  lemma HeaderSize()
    ensures Total(HEADER_WIDTHS) == 19
  {
    TotalSnoc([], 0, 1, [1]);
    TotalSnoc([1], 1, 1, [1, 1]);
    TotalSnoc([1, 1], 2, 1, [1, 1, 1]);
    TotalSnoc([1, 1, 1], 3, 4, [1, 1, 1, 4]);
    TotalSnoc([1, 1, 1, 4], 7, 2, [1, 1, 1, 4, 2]);
    TotalSnoc([1, 1, 1, 4, 2], 9, 1, [1, 1, 1, 4, 2, 1]);
    TotalSnoc([1, 1, 1, 4, 2, 1], 10, 4, [1, 1, 1, 4, 2, 1, 4]);
    TotalSnoc([1, 1, 1, 4, 2, 1, 4], 14, 1, [1, 1, 1, 4, 2, 1, 4, 1]);
    TotalSnoc([1, 1, 1, 4, 2, 1, 4, 1], 15, 1, [1, 1, 1, 4, 2, 1, 4, 1, 1]);
    TotalSnoc([1, 1, 1, 4, 2, 1, 4, 1, 1], 16, 1, [1, 1, 1, 4, 2, 1, 4, 1, 1, 1]);
    TotalSnoc([1, 1, 1, 4, 2, 1, 4, 1, 1, 1], 17, 2, [1, 1, 1, 4, 2, 1, 4, 1, 1, 1, 2]);
  }

  lemma MappingSize()
    ensures Total(MAPPING_WIDTHS) == 15
  {
    TotalSnoc([], 0, 4, [4]);
    TotalSnoc([4], 4, 4, [4, 4]);
    TotalSnoc([4, 4], 8, 4, [4, 4, 4]);
    TotalSnoc([4, 4, 4], 12, 1, [4, 4, 4, 1]);
    TotalSnoc([4, 4, 4, 1], 13, 1, [4, 4, 4, 1, 1]);
    TotalSnoc([4, 4, 4, 1, 1], 14, 1, [4, 4, 4, 1, 1, 1]);
  }

  lemma QuirkSize()
    ensures Total(QUIRK_WIDTHS) == 13
  {
    TotalSnoc([], 0, 2, [2]);
    TotalSnoc([2], 2, 2, [2, 2]);
    TotalSnoc([2, 2], 4, 1, [2, 2, 1]);
    TotalSnoc([2, 2, 1], 5, 1, [2, 2, 1, 1]);
    TotalSnoc([2, 2, 1, 1], 6, 4, [2, 2, 1, 1, 4]);
    TotalSnoc([2, 2, 1, 1, 4], 10, 2, [2, 2, 1, 1, 4, 2]);
    TotalSnoc([2, 2, 1, 1, 4, 2], 12, 1, [2, 2, 1, 1, 4, 2, 1]);
  }

  // ---- what is written -----------------------------------------------------------------------

  function Flag(on: bool, weight: nat): nat {
    if on then weight else 0
  }

  /** The flags byte: bits 4, 5 and 6. A mode is shifted in whole, so that one above 1 spills upwards. */
  function Flags(s: Settings): nat {
    Flag(s.ignoreAuth, 16) + Flag(s.gpioOutputMode % 2 == 1, 32)
    + Flag(s.gpioOutputMode / 2 % 2 == 1 || s.normalizeGamepads, 64) + Flag(s.gpioOutputMode / 4 % 2 == 1, 128)
  }

  function HeaderFields(c: Config): (ns: seq<nat>)
    ensures |ns| == |HEADER_WIDTHS|
  {
    var s := c.settings;
    [CONFIG_VERSION, Flags(s), s.unmappedLayers, s.partialScrollTimeout, |c.mappings|, s.intervalOverride,
     s.tapHoldThreshold, s.gpioDebounceTime / 1000, s.descriptorNumber, s.macroEntryDuration, |c.quirks|]
  }

  function Header(c: Config): seq<Byte> {
    Pack(HeaderFields(c), HEADER_WIDTHS)
  }

  function MappingBytes(m: Mapping): seq<Byte> {
    Pack([m.target, m.source, Unsigned32(m.scaling), m.layers, m.flags, m.ports], MAPPING_WIDTHS)
  }

  function UsageBytes(u: Uint32): seq<Byte> {
    LE(u, 4)
  }

  function EntryBytes(e: Entry): seq<Byte> {
    LE(|e|, 1) + FlatMap(UsageBytes, e)
  }

  function MacroBytes(m: Macro): seq<Byte> {
    LE(|m|, 1) + FlatMap(EntryBytes, m)
  }

  /** An operation is an `int8_t`, kept in one byte. */
  function OpByte(op: OpCode): Byte {
    op % 0x100
  }

  function OpOf(b: Byte): OpCode {
    if b >= 0x80 then b - 0x100 else b
  }

  function ElemBytes(e: Elem): seq<Byte> {
    LE(OpByte(e.op), 1) + if PushesLiteral(e.op) then LE(e.val, 4) else []
  }

  function ExpressionBytes(es: Expression): seq<Byte> {
    LE(|es|, 2) + FlatMap(ElemBytes, es)
  }

  function QuirkBytes(q: Quirk): seq<Byte> {
    Pack([q.vendor, q.product, q.itf, q.report, q.usage, q.bitpos, q.sizeFlags], QUIRK_WIDTHS)
  }

  /** Only as many mappings as a sixteen-bit count tells. */
  function SavedMappings(c: Config): seq<Mapping> {
    c.mappings[..|c.mappings| % 0x1_0000]
  }

  function Payload(c: Config): seq<Byte> {
    Header(c) + FlatMap(MappingBytes, SavedMappings(c)) + FlatMap(MacroBytes, c.macros)
    + FlatMap(ExpressionBytes, c.expressions) + FlatMap(QuirkBytes, c.quirks)
  }

  function Zeros(n: nat): seq<Byte> {
    seq(n, _ => 0)
  }

  // ---- the size computed beforehand ---------------------------------------------------------------

  function EntriesSize(m: Macro): nat {
    if m == [] then 0 else EntriesSize(m[..|m| - 1]) + 1 + 4 * |m[|m| - 1]|
  }

  function MacrosSize(ms: seq<Macro>): nat {
    if ms == [] then 0 else MacrosSize(ms[..|ms| - 1]) + 1 + EntriesSize(ms[|ms| - 1])
  }

  function ElemsSize(es: Expression): nat {
    if es == [] then 0 else ElemsSize(es[..|es| - 1]) + 1 + if PushesLiteral(es[|es| - 1].op) then 4 else 0
  }

  function ExpressionsSize(es: seq<Expression>): nat {
    if es == [] then 0 else ExpressionsSize(es[..|es| - 1]) + 2 + ElemsSize(es[|es| - 1])
  }

  /** What `persist_config` compares with the space there is. */
  function RealSize(c: Config): nat {
    19 + 15 * (|c.mappings| % 0x1_0000) + MacrosSize(c.macros) + ExpressionsSize(c.expressions) + 13 * |c.quirks| + 4
  }

  lemma {:induction false} FlatMapFixed<A>(f: A -> seq<Byte>, s: seq<A>, k: nat)
    requires forall a :: |f(a)| == k
    ensures |FlatMap(f, s)| == k * |s|
  {
    if s != [] {
      FlatMapFixed(f, s[..|s| - 1], k);
      assert k * |s| == k * (|s| - 1) + k;
    }
  }

  lemma {:induction false} EntriesLength(m: Macro)
    ensures |FlatMap(EntryBytes, m)| == EntriesSize(m)
  {
    if m != [] {
      EntriesLength(m[..|m| - 1]);
      FlatMapFixed(UsageBytes, m[|m| - 1], 4);
    }
  }

  lemma {:induction false} MacrosLength(ms: seq<Macro>)
    ensures |FlatMap(MacroBytes, ms)| == MacrosSize(ms)
  {
    if ms != [] {
      MacrosLength(ms[..|ms| - 1]);
      EntriesLength(ms[|ms| - 1]);
    }
  }

  lemma {:induction false} ElemsLength(es: Expression)
    ensures |FlatMap(ElemBytes, es)| == ElemsSize(es)
  {
    if es != [] {
      ElemsLength(es[..|es| - 1]);
    }
  }

  lemma {:induction false} ExpressionsLength(es: seq<Expression>)
    ensures |FlatMap(ExpressionBytes, es)| == ExpressionsSize(es)
  {
    if es != [] {
      ExpressionsLength(es[..|es| - 1]);
      ElemsLength(es[|es| - 1]);
    }
  }

  /** The size computed beforehand is the number of bytes written, and four for the checksum, for any configuration. */
  lemma SizeIsExact(c: Config)
    ensures |Payload(c)| + 4 == RealSize(c)
  {
    hide Unsigned32;
    HeaderSize();
    MappingSize();
    QuirkSize();
    PackLength(HeaderFields(c), HEADER_WIDTHS);
    forall m: Mapping
      ensures |MappingBytes(m)| == 15
    {
      PackLength([m.target, m.source, Unsigned32(m.scaling), m.layers, m.flags, m.ports], MAPPING_WIDTHS);
    }
    forall q: Quirk
      ensures |QuirkBytes(q)| == 13
    {
      PackLength([q.vendor, q.product, q.itf, q.report, q.usage, q.bitpos, q.sizeFlags], QUIRK_WIDTHS);
    }
    FlatMapFixed(MappingBytes, SavedMappings(c), 15);
    MacrosLength(c.macros);
    ExpressionsLength(c.expressions);
    FlatMapFixed(QuirkBytes, c.quirks, 13);
  }

  /** What goes to flash: the payload, zeros, and the checksum of both. */
  function Image(crc: Checksum, c: Config): (image: seq<Byte>)
    requires RealSize(c) <= PERSISTED_CONFIG_SIZE
    ensures |image| == PERSISTED_CONFIG_SIZE
  {
    SizeIsExact(c);
    var body := Payload(c) + Zeros(PERSISTED_CONFIG_SIZE - 4 - |Payload(c)|);
    body + LE(crc(body), 4)
  }

  datatype Persisted = Success(image: seq<Byte>) | ConfigTooBig

  function PersistConfig(crc: Checksum, c: Config): Persisted {
    if RealSize(c) > PERSISTED_CONFIG_SIZE then ConfigTooBig else Success(Image(crc, c))
  }

  // ---- what is read back --------------------------------------------------------------------------

  /** A value and what follows it, or the image is too short. */
  datatype Read<T> = Got(value: T, rest: seq<Byte>) | Short

  function Take(k: nat, s: seq<Byte>): Read<nat> {
    if |s| < k then Short else Got(FromLE(s[..k]), s[k..])
  }

  /** n values, one after another. */
  function Repeat<T>(read: seq<Byte> -> Read<T>, n: nat, s: seq<Byte>): (r: Read<seq<T>>)
    ensures r.Got? ==> |r.value| == n
  {
    if n == 0 then Got([], s) else
      match Repeat(read, n - 1, s)
      case Short => Short
      case Got(values, rest) =>
        match read(rest)
        case Short => Short
        case Got(value, others) => Got(values + [value], others)
  }

  /** This value is read back, whatever follows it. */
  ghost predicate ReadsBack<T(!new)>(read: seq<Byte> -> Read<T>, write: T -> seq<Byte>, x: T) {
    forall t {:trigger read(write(x) + t)} :: read(write(x) + t) == Got(x, t)
  }

  lemma {:induction false} RepeatReadsBack<T(!new)>(read: seq<Byte> -> Read<T>, write: T -> seq<Byte>, xs: seq<T>,
                                                    t: seq<Byte>)
    requires forall x :: x in xs ==> ReadsBack(read, write, x)
    ensures Repeat(read, |xs|, FlatMap(write, xs) + t) == Got(xs, t)
  {
    if xs == [] {
      assert FlatMap(write, xs) + t == t;
    } else {
      var n := |xs| - 1;
      RepeatReadsBack(read, write, xs[..n], write(xs[n]) + t);
      assert (FlatMap(write, xs[..n]) + write(xs[n])) + t == FlatMap(write, xs[..n]) + (write(xs[n]) + t);
      assert ReadsBack(read, write, xs[n]);
      assert xs[..n] + [xs[n]] == xs;
    }
  }

  lemma TakeReadsBack(n: nat, k: nat, t: seq<Byte>)
    ensures Take(k, LE(n, k) + t) == Got(FromLE(LE(n, k)), t)
  {
    assert (LE(n, k) + t)[..k] == LE(n, k) && (LE(n, k) + t)[k..] == t;
  }

  /** A number in a field it fits is read back. */
  lemma TakeExact(n: nat, k: nat, t: seq<Byte>)
    requires n < Pow256(k)
    ensures Take(k, LE(n, k) + t) == Got(n, t)
  {
    TakeReadsBack(n, k, t);
    LERoundTrip(n, k);
  }

  function Unpack(widths: seq<nat>, s: seq<Byte>): (r: Read<seq<nat>>)
    ensures r.Got? ==> |r.value| == |widths|
  {
    if widths == [] then Got([], s) else
      match Unpack(widths[..|widths| - 1], s)
      case Short => Short
      case Got(ns, rest) =>
        match Take(widths[|widths| - 1], rest)
        case Short => Short
        case Got(n, others) => Got(ns + [n], others)
  }

  lemma {:induction false} UnpackInverse(ns: seq<nat>, widths: seq<nat>, t: seq<Byte>)
    requires |ns| == |widths| && forall i :: 0 <= i < |ns| ==> ns[i] < Pow256(widths[i])
    ensures Unpack(widths, Pack(ns, widths) + t) == Got(ns, t)
  {
    if ns == [] {
      assert Pack(ns, widths) + t == t;
    } else {
      var n := |ns| - 1;
      UnpackInverse(ns[..n], widths[..n], LE(ns[n], widths[n]) + t);
      Regroup(Pack(ns[..n], widths[..n]), LE(ns[n], widths[n]), t);
      TakeExact(ns[n], widths[n], t);
      assert ns[..n] + [ns[n]] == ns;
    }
  }

  lemma {:induction false} UnpackFits(widths: seq<nat>, s: seq<Byte>)
    requires Unpack(widths, s).Got?
    ensures forall i :: 0 <= i < |widths| ==> Unpack(widths, s).value[i] < Pow256(widths[i])
  {
    if widths != [] {
      var n := |widths| - 1;
      UnpackFits(widths[..n], s);
      var rest := Unpack(widths[..n], s).rest;
      FromLERoundTrip(rest[..widths[n]]);
    }
  }

  lemma Pow256Values()
    ensures Pow256(1) == 0x100 && Pow256(2) == 0x1_0000 && Pow256(4) == 0x1_0000_0000
  {
    assert Pow256(3) == 0x100_0000;
  }

  lemma TakeFits(k: nat, s: seq<Byte>)
    requires Take(k, s).Got?
    ensures Take(k, s).value < Pow256(k)
  {
    FromLERoundTrip(s[..k]);
  }

  function AsByte(n: nat): Byte {
    n % 0x100
  }

  function As16(n: nat): Uint16 {
    n % 0x1_0000
  }

  function As32(n: nat): Uint32 {
    n % 0x1_0000_0000
  }

  function ReadMapping(s: seq<Byte>): Read<Mapping> {
    match Unpack(MAPPING_WIDTHS, s)
    case Short => Short
    case Got(v, rest) =>
      Got(Mapping(As32(v[0]), As32(v[1]), AsInt32(As32(v[2])), AsByte(v[3]), AsByte(v[4]), AsByte(v[5])), rest)
  }

  function ReadQuirk(s: seq<Byte>): Read<Quirk> {
    match Unpack(QUIRK_WIDTHS, s)
    case Short => Short
    case Got(v, rest) =>
      Got(Quirk(As16(v[0]), As16(v[1]), AsByte(v[2]), AsByte(v[3]), As32(v[4]), As16(v[5]), AsByte(v[6])), rest)
  }

  function ReadUsage(s: seq<Byte>): Read<Uint32> {
    match Take(4, s)
    case Short => Short
    case Got(n, rest) => Got(As32(n), rest)
  }

  function ReadEntry(s: seq<Byte>): Read<Entry> {
    match Take(1, s)
    case Short => Short
    case Got(n, rest) => Repeat(ReadUsage, n, rest)
  }

  function ReadMacro(s: seq<Byte>): Read<Macro> {
    match Take(1, s)
    case Short => Short
    case Got(n, rest) => Repeat(ReadEntry, n, rest)
  }

  function ReadElem(s: seq<Byte>): Read<Elem> {
    match Take(1, s)
    case Short => Short
    case Got(b, rest) =>
      var op := OpOf(AsByte(b));
      if !PushesLiteral(op) then Got(Elem(op, 0), rest)
      else
        match Take(4, rest)
        case Short => Short
        case Got(val, others) => Got(Elem(op, As32(val)), others)
  }

  function ReadExpression(s: seq<Byte>): Read<Expression> {
    match Take(2, s)
    case Short => Short
    case Got(n, rest) => Repeat(ReadElem, n, rest)
  }

  /** The settings that the header's fields tell. */
  function SettingsOf(v: seq<nat>): Settings
    requires |v| == |HEADER_WIDTHS|
  {
    var flags := v[1];
    Settings(AsByte(v[2]), flags / 16 % 2 == 1, flags / 32 % 2, flags / 64 % 2 == 1,
             As32(v[3]), As32(v[6]), v[7] * 1000, AsByte(v[5]),
             if v[8] >= NOUR_DESCRIPTORS then 0 else AsByte(v[8]), AsByte(v[9]))
  }

  datatype Loaded = Ok(config: Config) | Refused | OlderVersion | PastTheEnd

  /** Everything behind the header. */
  function LoadBody(v: seq<nat>, s: seq<Byte>): Loaded
    requires |v| == |HEADER_WIDTHS|
  {
    match Repeat(ReadMapping, v[4], s)
    case Short => PastTheEnd
    case Got(mappings, s1) =>
      match Repeat(ReadMacro, NMACROS, s1)
      case Short => PastTheEnd
      case Got(macros, s2) =>
        match Repeat(ReadExpression, NEXPRESSIONS, s2)
        case Short => PastTheEnd
        case Got(expressions, s3) =>
          match Repeat(ReadQuirk, v[10], s3)
          case Short => PastTheEnd
          case Got(quirks, s4) => Ok(Config(SettingsOf(v), mappings, macros, expressions, quirks))
  }

  /** `load_config`, from an empty state; reading past the image is told apart. */
  function LoadConfig(crc: Checksum, image: seq<Byte>): Loaded
    requires |image| == PERSISTED_CONFIG_SIZE
  {
    if !TrailerOk(crc, image) || !(3 <= image[0] <= CONFIG_VERSION) then Refused
    else if image[0] < 18 then OlderVersion
    else
      match Unpack(HEADER_WIDTHS, image)
      case Short => PastTheEnd
      case Got(v, rest) => LoadBody(v, rest)
  }

  // ---- the configurations that survive ---------------------------------------------------------------

  predicate CanonicalSettings(s: Settings) {
    && s.gpioOutputMode <= 1 && s.descriptorNumber < NOUR_DESCRIPTORS
    && s.gpioDebounceTime % 1000 == 0 && s.gpioDebounceTime < 256_000
  }

  predicate CanonicalEntry(e: Entry) {
    |e| < 0x100
  }

  predicate CanonicalMacro(m: Macro) {
    |m| < 0x100 && forall e :: e in m ==> CanonicalEntry(e)
  }

  predicate CanonicalElem(e: Elem) {
    -128 <= e.op < 128 && (PushesLiteral(e.op) || e.val == 0)
  }

  predicate CanonicalExpression(es: Expression) {
    |es| < 0x1_0000 && forall e :: e in es ==> CanonicalElem(e)
  }

  predicate Canonical(c: Config) {
    && CanonicalSettings(c.settings)
    && |c.mappings| < 0x1_0000 && |c.quirks| < 0x1_0000
    && |c.macros| == NMACROS && (forall m :: m in c.macros ==> CanonicalMacro(m))
    && |c.expressions| == NEXPRESSIONS && (forall es :: es in c.expressions ==> CanonicalExpression(es))
  }

  // ---- every piece is read back -------------------------------------------------------------------------

  lemma SignKept(x: Int32)
    ensures AsInt32(Unsigned32(x)) == x
  {
  }

  lemma MappingReadsBack(m: Mapping)
    ensures ReadsBack(ReadMapping, MappingBytes, m)
  {
    hide Unsigned32, AsInt32;
    SignKept(m.scaling);
    var ns: seq<nat> := [m.target, m.source, Unsigned32(m.scaling), m.layers, m.flags, m.ports];
    Pow256Values();
    forall t: seq<Byte>
      ensures ReadMapping(MappingBytes(m) + t) == Got(m, t)
    {
      UnpackInverse(ns, MAPPING_WIDTHS, t);
    }
  }

  lemma QuirkReadsBack(q: Quirk)
    ensures ReadsBack(ReadQuirk, QuirkBytes, q)
  {
    var ns: seq<nat> := [q.vendor, q.product, q.itf, q.report, q.usage, q.bitpos, q.sizeFlags];
    Pow256Values();
    forall t: seq<Byte>
      ensures ReadQuirk(QuirkBytes(q) + t) == Got(q, t)
    {
      UnpackInverse(ns, QUIRK_WIDTHS, t);
    }
  }

  lemma UsageReadsBack(u: Uint32)
    ensures ReadsBack(ReadUsage, UsageBytes, u)
  {
    Pow256Values();
    forall t: seq<Byte>
      ensures ReadUsage(UsageBytes(u) + t) == Got(u, t)
    {
      TakeExact(u, 4, t);
    }
  }

  lemma EntryReadsBack(e: Entry)
    requires CanonicalEntry(e)
    ensures ReadsBack(ReadEntry, EntryBytes, e)
  {
    Pow256Values();
    forall t: seq<Byte>
      ensures ReadEntry(EntryBytes(e) + t) == Got(e, t)
    {
      var items := FlatMap(UsageBytes, e);
      assert EntryBytes(e) + t == LE(|e|, 1) + (items + t);
      TakeExact(|e|, 1, items + t);
      forall u | u in e
        ensures ReadsBack(ReadUsage, UsageBytes, u)
      {
        UsageReadsBack(u);
      }
      RepeatReadsBack(ReadUsage, UsageBytes, e, t);
    }
  }

  lemma MacroReadsBack(m: Macro)
    requires CanonicalMacro(m)
    ensures ReadsBack(ReadMacro, MacroBytes, m)
  {
    Pow256Values();
    forall t: seq<Byte>
      ensures ReadMacro(MacroBytes(m) + t) == Got(m, t)
    {
      var entries := FlatMap(EntryBytes, m);
      assert MacroBytes(m) + t == LE(|m|, 1) + (entries + t);
      TakeExact(|m|, 1, entries + t);
      forall e | e in m
        ensures ReadsBack(ReadEntry, EntryBytes, e)
      {
        EntryReadsBack(e);
      }
      RepeatReadsBack(ReadEntry, EntryBytes, m, t);
    }
  }

  lemma ElemReadsBack(e: Elem)
    requires CanonicalElem(e)
    ensures ReadsBack(ReadElem, ElemBytes, e)
  {
    Pow256Values();
    forall t: seq<Byte>
      ensures ReadElem(ElemBytes(e) + t) == Got(e, t)
    {
      var operand: seq<Byte> := if PushesLiteral(e.op) then LE(e.val, 4) else [];
      assert ElemBytes(e) + t == LE(OpByte(e.op), 1) + (operand + t);
      TakeExact(OpByte(e.op), 1, operand + t);
      if PushesLiteral(e.op) {
        TakeExact(e.val, 4, t);
      } else {
        assert operand + t == t;
      }
    }
  }

  lemma ExpressionReadsBack(es: Expression)
    requires CanonicalExpression(es)
    ensures ReadsBack(ReadExpression, ExpressionBytes, es)
  {
    Pow256Values();
    forall t: seq<Byte>
      ensures ReadExpression(ExpressionBytes(es) + t) == Got(es, t)
    {
      var elems := FlatMap(ElemBytes, es);
      assert ExpressionBytes(es) + t == LE(|es|, 2) + (elems + t);
      TakeExact(|es|, 2, elems + t);
      forall e | e in es
        ensures ReadsBack(ReadElem, ElemBytes, e)
      {
        ElemReadsBack(e);
      }
      RepeatReadsBack(ReadElem, ElemBytes, es, t);
    }
  }

  // ---- the whole configuration ------------------------------------------------------------------------------

  lemma SettingsReadBack(c: Config)
    requires CanonicalSettings(c.settings)
    ensures SettingsOf(HeaderFields(c)) == c.settings
  {
    var s := c.settings;
    assert s.gpioOutputMode == 0 || s.gpioOutputMode == 1;
  }

  lemma HeaderFits(c: Config)
    requires Canonical(c)
    ensures forall i :: 0 <= i < |HEADER_WIDTHS| ==> HeaderFields(c)[i] < Pow256(HEADER_WIDTHS[i])
  {
    Pow256Values();
  }

  lemma BodyReadsBack(c: Config, t: seq<Byte>)
    requires Canonical(c)
    ensures var body := FlatMap(MappingBytes, c.mappings)
                        + (FlatMap(MacroBytes, c.macros)
                           + (FlatMap(ExpressionBytes, c.expressions) + (FlatMap(QuirkBytes, c.quirks) + t)));
            LoadBody(HeaderFields(c), body) == Ok(c)
  {
    var s4 := t;
    var s3 := FlatMap(QuirkBytes, c.quirks) + s4;
    var s2 := FlatMap(ExpressionBytes, c.expressions) + s3;
    var s1 := FlatMap(MacroBytes, c.macros) + s2;
    forall m | m in c.mappings
      ensures ReadsBack(ReadMapping, MappingBytes, m)
    {
      MappingReadsBack(m);
    }
    forall m | m in c.macros
      ensures ReadsBack(ReadMacro, MacroBytes, m)
    {
      MacroReadsBack(m);
    }
    forall es | es in c.expressions
      ensures ReadsBack(ReadExpression, ExpressionBytes, es)
    {
      ExpressionReadsBack(es);
    }
    forall q | q in c.quirks
      ensures ReadsBack(ReadQuirk, QuirkBytes, q)
    {
      QuirkReadsBack(q);
    }
    RepeatReadsBack(ReadMapping, MappingBytes, c.mappings, s1);
    RepeatReadsBack(ReadMacro, MacroBytes, c.macros, s2);
    RepeatReadsBack(ReadExpression, ExpressionBytes, c.expressions, s3);
    RepeatReadsBack(ReadQuirk, QuirkBytes, c.quirks, s4);
    SettingsReadBack(c);
  }

  lemma {:induction false} PackFirst(ns: seq<nat>, widths: seq<nat>)
    requires |ns| == |widths| > 0
    ensures LE(ns[0], widths[0]) <= Pack(ns, widths)
  {
    var n := |ns| - 1;
    if n > 0 {
      PackFirst(ns[..n], widths[..n]);
    }
  }

  lemma FirstByte(c: Config, t: seq<Byte>)
    ensures |Header(c)| > 0 && (Header(c) + t)[0] == CONFIG_VERSION
  {
    PackFirst(HeaderFields(c), HEADER_WIDTHS);
    assert LE(18, 1) == [18];
  }

  lemma TrailerMatches(crc: Checksum, body: seq<Byte>)
    ensures TrailerOk(crc, body + LE(crc(body), 4))
  {
    Pow256Values();
    LERoundTrip(crc(body), 4);
    var w := body + LE(crc(body), 4);
    assert w[..|w| - 4] == body && w[|w| - 4..] == LE(crc(body), 4);
  }

  lemma Nested(h: seq<Byte>, m: seq<Byte>, a: seq<Byte>, e: seq<Byte>, q: seq<Byte>, z: seq<Byte>, t: seq<Byte>)
    ensures ((h + m + a + e + q) + z) + t == h + (m + (a + (e + (q + (z + t)))))
  {
  }

  /** Whatever is persisted with success is read back, if it is canonical. */
  lemma RoundTrip(crc: Checksum, c: Config)
    requires Canonical(c) && RealSize(c) <= PERSISTED_CONFIG_SIZE
    ensures LoadConfig(crc, Image(crc, c)) == Ok(c)
  {
    SizeIsExact(c);
    var zeros := Zeros(PERSISTED_CONFIG_SIZE - 4 - |Payload(c)|);
    var trailer := LE(crc(Payload(c) + zeros), 4);
    var t := zeros + trailer;
    assert SavedMappings(c) == c.mappings;
    var rest := FlatMap(MappingBytes, c.mappings)
                + (FlatMap(MacroBytes, c.macros)
                   + (FlatMap(ExpressionBytes, c.expressions) + (FlatMap(QuirkBytes, c.quirks) + t)));
    Nested(Header(c), FlatMap(MappingBytes, c.mappings), FlatMap(MacroBytes, c.macros),
           FlatMap(ExpressionBytes, c.expressions), FlatMap(QuirkBytes, c.quirks), zeros, trailer);
    assert Image(crc, c) == Header(c) + rest;
    TrailerMatches(crc, Payload(c) + zeros);
    FirstByte(c, rest);
    HeaderFits(c);
    UnpackInverse(HeaderFields(c), HEADER_WIDTHS, rest);
    BodyReadsBack(c, t);
  }

  /** The checksum stands behind everything that is written. */
  lemma PayloadLeavesChecksumAlone(crc: Checksum, c: Config)
    requires RealSize(c) <= PERSISTED_CONFIG_SIZE
    ensures Payload(c) <= Image(crc, c)[..PERSISTED_CONFIG_SIZE - 4] && TrailerOk(crc, Image(crc, c))
  {
    SizeIsExact(c);
    var body := Payload(c) + Zeros(PERSISTED_CONFIG_SIZE - 4 - |Payload(c)|);
    TrailerMatches(crc, body);
    assert Image(crc, c)[..PERSISTED_CONFIG_SIZE - 4] == body;
  }

  // ---- and no other configuration is -----------------------------------------------------------------------------

  lemma {:induction false} RepeatAll<T(!new)>(read: seq<Byte> -> Read<T>, p: T -> bool, n: nat, s: seq<Byte>)
    requires forall t :: read(t).Got? ==> p(read(t).value)
    requires Repeat(read, n, s).Got?
    ensures forall x :: x in Repeat(read, n, s).value ==> p(x)
  {
    if n > 0 {
      RepeatAll(read, p, n - 1, s);
    }
  }

  lemma ReadMacroIsCanonical(s: seq<Byte>)
    requires ReadMacro(s).Got?
    ensures CanonicalMacro(ReadMacro(s).value)
  {
    Pow256Values();
    TakeFits(1, s);
    forall t: seq<Byte> | ReadEntry(t).Got?
      ensures CanonicalEntry(ReadEntry(t).value)
    {
      TakeFits(1, t);
    }
    RepeatAll(ReadEntry, e => CanonicalEntry(e), Take(1, s).value, Take(1, s).rest);
  }

  lemma ReadExpressionIsCanonical(s: seq<Byte>)
    requires ReadExpression(s).Got?
    ensures CanonicalExpression(ReadExpression(s).value)
  {
    Pow256Values();
    TakeFits(2, s);
    RepeatAll(ReadElem, e => CanonicalElem(e), Take(2, s).value, Take(2, s).rest);
  }

  /** The macros and expressions of any body are canonical. */
  lemma BodyIsCanonical(v: seq<nat>, s: seq<Byte>)
    requires |v| == |HEADER_WIDTHS| && LoadBody(v, s).Ok?
    ensures var c := LoadBody(v, s).config;
            && (forall m :: m in c.macros ==> CanonicalMacro(m)) && |c.macros| == NMACROS
            && (forall es :: es in c.expressions ==> CanonicalExpression(es)) && |c.expressions| == NEXPRESSIONS
            && |c.mappings| == v[4] && |c.quirks| == v[10] && c.settings == SettingsOf(v)
  {
    var s1 := Repeat(ReadMapping, v[4], s).rest;
    forall t: seq<Byte> | ReadMacro(t).Got?
      ensures CanonicalMacro(ReadMacro(t).value)
    {
      ReadMacroIsCanonical(t);
    }
    RepeatAll(ReadMacro, m => CanonicalMacro(m), NMACROS, s1);
    forall t: seq<Byte> | ReadExpression(t).Got?
      ensures CanonicalExpression(ReadExpression(t).value)
    {
      ReadExpressionIsCanonical(t);
    }
    RepeatAll(ReadExpression, es => CanonicalExpression(es), NEXPRESSIONS, Repeat(ReadMacro, NMACROS, s1).rest);
  }

  lemma SettingsAreCanonical(v: seq<nat>)
    requires |v| == |HEADER_WIDTHS| && v[7] < 0x100
    ensures CanonicalSettings(SettingsOf(v))
  {
  }

  /** Whatever is loaded, from any image, is canonical. */
  lemma LoadedIsCanonical(crc: Checksum, image: seq<Byte>)
    requires |image| == PERSISTED_CONFIG_SIZE && LoadConfig(crc, image).Ok?
    ensures Canonical(LoadConfig(crc, image).config)
  {
    Pow256Values();
    UnpackFits(HEADER_WIDTHS, image);
    var header := Unpack(HEADER_WIDTHS, image);
    var v := header.value;
    assert v[4] < Pow256(HEADER_WIDTHS[4]) && v[7] < Pow256(HEADER_WIDTHS[7]) && v[10] < Pow256(HEADER_WIDTHS[10]);
    SettingsAreCanonical(v);
    BodyIsCanonical(v, header.rest);
  }

  /** A configuration persisted with success is loaded again exactly when it is canonical. */
  lemma RoundTripExactly(crc: Checksum, c: Config)
    requires PersistConfig(crc, c).Success?
    ensures LoadConfig(crc, PersistConfig(crc, c).image) == Ok(c) <==> Canonical(c)
  {
    if Canonical(c) {
      RoundTrip(crc, c);
    }
    if LoadConfig(crc, Image(crc, c)).Ok? {
      LoadedIsCanonical(crc, Image(crc, c));
    }
  }

  // ---- what the firmware can receive ---------------------------------------------------------------------

  /** What SET_CONFIG and APPEND_TO_EXPRESSION can store: a mode and a descriptor number in range, whole
      milliseconds, and no operand on an operation that takes none. */
  predicate Received(c: Config) {
    && CanonicalSettings(c.settings)
    && |c.macros| == NMACROS && |c.expressions| == NEXPRESSIONS
    && forall es :: es in c.expressions ==> forall e :: e in es ==> CanonicalElem(e)
  }

  lemma {:induction false} ElemsFit(es: Expression)
    ensures |es| <= ElemsSize(es)
  {
    if es != [] {
      ElemsFit(es[..|es| - 1]);
    }
  }

  lemma {:induction false} ExpressionFits(all: seq<Expression>, es: Expression)
    requires es in all
    ensures |es| <= ExpressionsSize(all)
  {
    var n := |all| - 1;
    if es == all[n] {
      ElemsFit(es);
    } else {
      ExpressionFits(all[..n], es);
    }
  }

  /** Of the configurations that the firmware can receive, those persisted with success are loaded again exactly when no
      count exceeds its field: mappings counted in sixteen bits, a macro's entries and an entry's usages in eight. */
  lemma RoundTripOfReceived(crc: Checksum, c: Config)
    requires Received(c) && PersistConfig(crc, c).Success?
    ensures LoadConfig(crc, PersistConfig(crc, c).image) == Ok(c)
       <==> |c.mappings| < 0x1_0000 && forall m :: m in c.macros ==> CanonicalMacro(m)
  {
    hide LoadConfig, Image, ExpressionsSize, MacrosSize;
    RoundTripExactly(crc, c);
    forall es | es in c.expressions
      ensures CanonicalExpression(es)
    {
      ExpressionFits(c.expressions, es);
    }
  }

  function EmptyEntries(n: nat): Macro {
    seq(n, _ => [])
  }

  /** 256 empty entries in the first macro, as 255 zeros appended to it leave there, and nothing else. */
  function LongMacro(s: Settings): Config {
    Config(s, [], [EmptyEntries(256)] + seq(NMACROS - 1, _ => []), seq(NEXPRESSIONS, _ => []), [])
  }

  lemma {:induction false} EmptyEntriesSize(n: nat)
    ensures EntriesSize(EmptyEntries(n)) == n
  {
    if n > 0 {
      EmptyEntriesSize(n - 1);
      assert EmptyEntries(n)[..n - 1] == EmptyEntries(n - 1);
    }
  }

  lemma {:induction false} EmptyMacrosSize(m: Macro, n: nat)
    ensures MacrosSize([m] + seq(n, _ => [])) == 1 + EntriesSize(m) + n
  {
    var ms: seq<Macro> := [m] + seq(n, _ => []);
    if n > 0 {
      EmptyMacrosSize(m, n - 1);
      assert ms[..n] == [m] + seq(n - 1, _ => []);
    } else {
      assert ms[..0] == [];
    }
  }

  lemma {:induction false} EmptyExpressionsSize(n: nat)
    ensures ExpressionsSize(seq(n, _ => [])) == 2 * n
  {
    var es: seq<Expression> := seq(n, _ => []);
    if n > 0 {
      EmptyExpressionsSize(n - 1);
      assert es[..n - 1] == seq(n - 1, _ => []);
    }
  }

  lemma LongMacroFits(s: Settings)
    ensures RealSize(LongMacro(s)) == 19 + 256 + NMACROS + 2 * NEXPRESSIONS + 4
  {
    EmptyEntriesSize(256);
    EmptyMacrosSize(EmptyEntries(256), NMACROS - 1);
    EmptyExpressionsSize(NEXPRESSIONS);
  }

  /** That configuration is persisted with success, and not loaded again: its 256 entries are counted as none. */
  lemma LongMacroIsLost(crc: Checksum, s: Settings)
    requires CanonicalSettings(s)
    ensures Received(LongMacro(s)) && PersistConfig(crc, LongMacro(s)).Success?
    ensures LoadConfig(crc, PersistConfig(crc, LongMacro(s)).image) != Ok(LongMacro(s))
  {
    hide LoadConfig, Image, RealSize;
    LongMacroFits(s);
    RoundTripOfReceived(crc, LongMacro(s));
    assert LongMacro(s).macros[0] == EmptyEntries(256) && |EmptyEntries(256)| == 256;
    assert !CanonicalMacro(LongMacro(s).macros[0]);
  }
}
