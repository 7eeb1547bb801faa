/** `load_config` as it works: a cursor through the image. */
module ConfigReader {
  import opened Bytes
  import opened ExprOps
  import opened ConfigCodec

  lemma {:induction false} RepeatStops<T>(read: seq<Byte> -> Read<T>, n: nat, s: seq<Byte>, i: nat)
    requires Repeat(read, n, s).Got? && i <= n
    ensures Repeat(read, i, s).Got?
    decreases n
  {
    if i < n {
      RepeatStops(read, n - 1, s, i);
    }
  }

  /** If n values can be read, one more can be read after the first i. */
  lemma RepeatNext<T>(read: seq<Byte> -> Read<T>, n: nat, s: seq<Byte>, i: nat)
    requires Repeat(read, n, s).Got? && i < n
    ensures Repeat(read, i, s).Got? && read(Repeat(read, i, s).rest).Got?
    ensures var (before, now) := (Repeat(read, i, s), read(Repeat(read, i, s).rest));
            Repeat(read, i + 1, s) == Got(before.value + [now.value], now.rest)
  {
    RepeatStops(read, n, s, i);
    RepeatStops(read, n, s, i + 1);
  }

  class Reader {
    const image: seq<Byte>
    var at: nat

    ghost predicate Valid()
      reads this
    {
      at <= |image|
    }

    /** What is still to be read. */
    ghost function Rest(): seq<Byte>
      requires Valid()
      reads this
    {
      image[at..]
    }

    constructor (bytes: seq<Byte>)
      ensures Valid() && image == bytes && Rest() == bytes
    {
      image, at := bytes, 0;
    }

    /** A number, lowest byte first. */
    method GetNumber(k: nat) returns (n: nat)
      requires Valid() && Take(k, Rest()).Got?
      modifies this
      ensures Valid() && Take(k, old(Rest())) == Got(n, Rest())
    {
      ghost var s := Rest();
      assert s[..k] == image[at..at + k] && s[k..] == image[at + k..];
      n := 0;
      var i: int := k;
      while i > 0
        invariant 0 <= i <= k && n == FromLE(image[at + i..at + k])
      {
        i := i - 1;
        assert image[at + i..at + k][1..] == image[at + i + 1..at + k];
        n := image[at + i] + 256 * n;
      }
      at := at + k;
    }

    /** A packed struct. */
    method GetStruct(widths: seq<nat>) returns (ns: seq<nat>)
      requires Valid() && Unpack(widths, Rest()).Got?
      modifies this
      ensures Valid() && Unpack(widths, old(Rest())) == Got(ns, Rest())
    {
      ns := [];
      ghost var s := Rest();
      for i := 0 to |widths|
        invariant Valid() && Unpack(widths[..i], s) == Got(ns, Rest())
      {
        UnpackNext(widths, s, i);
        var n := GetNumber(widths[i]);
        ns := ns + [n];
      }
      assert widths[..|widths|] == widths;
    }

    method GetEntry() returns (e: Entry)
      requires Valid() && ReadEntry(Rest()).Got?
      modifies this
      ensures Valid() && ReadEntry(old(Rest())) == Got(e, Rest())
    {
      var n := GetNumber(1);
      e := [];
      ghost var s := Rest();
      for k := 0 to n
        invariant Valid() && Repeat(ReadUsage, k, s) == Got(e, Rest())
      {
        RepeatNext(ReadUsage, n, s, k);
        var usage := GetNumber(4);
        e := e + [As32(usage)];
      }
    }

    method GetMacro() returns (m: Macro)
      requires Valid() && ReadMacro(Rest()).Got?
      modifies this
      ensures Valid() && ReadMacro(old(Rest())) == Got(m, Rest())
    {
      var n := GetNumber(1);
      m := [];
      ghost var s := Rest();
      for j := 0 to n
        invariant Valid() && Repeat(ReadEntry, j, s) == Got(m, Rest())
      {
        RepeatNext(ReadEntry, n, s, j);
        var e := GetEntry();
        m := m + [e];
      }
    }

    method GetElem() returns (e: Elem)
      requires Valid() && ReadElem(Rest()).Got?
      modifies this
      ensures Valid() && ReadElem(old(Rest())) == Got(e, Rest())
    {
      var b := GetNumber(1);
      var op, val := OpOf(AsByte(b)), 0;
      if PushesLiteral(op) {
        val := GetNumber(4);
      }
      e := Elem(op, As32(val));
    }

    method GetExpression() returns (es: Expression)
      requires Valid() && ReadExpression(Rest()).Got?
      modifies this
      ensures Valid() && ReadExpression(old(Rest())) == Got(es, Rest())
    {
      var n := GetNumber(2);
      es := [];
      ghost var s := Rest();
      for j := 0 to n
        invariant Valid() && Repeat(ReadElem, j, s) == Got(es, Rest())
      {
        RepeatNext(ReadElem, n, s, j);
        var e := GetElem();
        es := es + [e];
      }
    }

    method GetMappings(n: nat) returns (ms: seq<Mapping>)
      requires Valid() && Repeat(ReadMapping, n, Rest()).Got?
      modifies this
      ensures Valid() && Repeat(ReadMapping, n, old(Rest())) == Got(ms, Rest())
    {
      ms := [];
      ghost var s := Rest();
      for i := 0 to n
        invariant Valid() && Repeat(ReadMapping, i, s) == Got(ms, Rest())
      {
        RepeatNext(ReadMapping, n, s, i);
        var v := GetStruct(MAPPING_WIDTHS);
        ms := ms + [Mapping(As32(v[0]), As32(v[1]), AsInt32(As32(v[2])), AsByte(v[3]), AsByte(v[4]), AsByte(v[5]))];
      }
    }

    method GetMacros() returns (ms: seq<Macro>)
      requires Valid() && Repeat(ReadMacro, NMACROS, Rest()).Got?
      modifies this
      ensures Valid() && Repeat(ReadMacro, NMACROS, old(Rest())) == Got(ms, Rest())
    {
      ms := [];
      ghost var s := Rest();
      for i := 0 to NMACROS
        invariant Valid() && Repeat(ReadMacro, i, s) == Got(ms, Rest())
      {
        RepeatNext(ReadMacro, NMACROS, s, i);
        var m := GetMacro();
        ms := ms + [m];
      }
    }

    method GetExpressions() returns (es: seq<Expression>)
      requires Valid() && Repeat(ReadExpression, NEXPRESSIONS, Rest()).Got?
      modifies this
      ensures Valid() && Repeat(ReadExpression, NEXPRESSIONS, old(Rest())) == Got(es, Rest())
    {
      es := [];
      ghost var s := Rest();
      for i := 0 to NEXPRESSIONS
        invariant Valid() && Repeat(ReadExpression, i, s) == Got(es, Rest())
      {
        RepeatNext(ReadExpression, NEXPRESSIONS, s, i);
        var e := GetExpression();
        es := es + [e];
      }
    }

    method GetQuirks(n: nat) returns (qs: seq<Quirk>)
      requires Valid() && Repeat(ReadQuirk, n, Rest()).Got?
      modifies this
      ensures Valid() && Repeat(ReadQuirk, n, old(Rest())) == Got(qs, Rest())
    {
      qs := [];
      ghost var s := Rest();
      for i := 0 to n
        invariant Valid() && Repeat(ReadQuirk, i, s) == Got(qs, Rest())
      {
        RepeatNext(ReadQuirk, n, s, i);
        var v := GetStruct(QUIRK_WIDTHS);
        qs := qs + [Quirk(As16(v[0]), As16(v[1]), AsByte(v[2]), AsByte(v[3]), As32(v[4]), As16(v[5]), AsByte(v[6]))];
      }
    }
  }

  lemma {:induction false} UnpackStops(widths: seq<nat>, s: seq<Byte>, i: nat)
    requires Unpack(widths, s).Got? && i <= |widths|
    ensures Unpack(widths[..i], s).Got?
    decreases |widths|
  {
    if i < |widths| {
      UnpackStops(widths[..|widths| - 1], s, i);
      assert widths[..|widths| - 1][..i] == widths[..i];
    } else {
      assert widths[..i] == widths;
    }
  }

  lemma UnpackNext(widths: seq<nat>, s: seq<Byte>, i: nat)
    requires Unpack(widths, s).Got? && i < |widths|
    ensures Unpack(widths[..i], s).Got? && Take(widths[i], Unpack(widths[..i], s).rest).Got?
    ensures var (before, now) := (Unpack(widths[..i], s), Take(widths[i], Unpack(widths[..i], s).rest));
            Unpack(widths[..i + 1], s) == Got(before.value + [now.value], now.rest)
  {
    UnpackStops(widths, s, i);
    UnpackStops(widths, s, i + 1);
    assert widths[..i + 1][..i] == widths[..i];
  }

  /** `load_config`, on any image that does not lead it past its end. */
  method Load(crc: Checksum, image: seq<Byte>) returns (r: Loaded)
    requires |image| == PERSISTED_CONFIG_SIZE && LoadConfig(crc, image) != PastTheEnd
    ensures r == LoadConfig(crc, image)
  {
    var stored := FromLE(image[|image| - 4..]);
    if crc(image[..|image| - 4]) != stored || !(3 <= image[0] <= CONFIG_VERSION) {
      return Refused;
    }
    if image[0] < 18 {
      return OlderVersion;
    }
    var reader := new Reader(image);
    var v := reader.GetStruct(HEADER_WIDTHS);
    var mappings := reader.GetMappings(v[4]);
    var macros := reader.GetMacros();
    var expressions := reader.GetExpressions();
    var quirks := reader.GetQuirks(v[10]);
    r := Ok(Config(SettingsOf(v), mappings, macros, expressions, quirks));
  }
}
