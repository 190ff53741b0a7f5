/** The version-4 UUID generator bundled into the server (RFC 4122): the
    octet-to-hex table, the 36-character string form of section 3, and the
    version (section 4.1.3) and variant (section 4.1.1) bits that section 4.4
    stamps over 16 random octets. */
module Uuid {

  /** An octet of a `Uint8Array`; the masking of the v4 generator is done
      on its 8-bit pattern. */
  type byte = x: int | 0 <= x < 256

  /** The lower-case digit `Number.prototype.toString(16)` writes for n. */
  function HexDigit(n: nat): (c: char)
    requires n < 16
  {
    if n < 10 then (48 + n) as char else (87 + n) as char
  }

  predicate IsHexDigit(c: char) {
    '0' <= c <= '9' || 'a' <= c <= 'f'
  }

  /** The value of one lower-case hex digit; the inverse of HexDigit. */
  function HexValue(c: char): (n: nat)
    requires IsHexDigit(c)
    ensures n < 16 && HexDigit(n) == c
  {
    if c <= '9' then c as int - 48 else c as int - 87
  }

  lemma HexDigitIsHex(n: nat)
    requires n < 16
    ensures IsHexDigit(HexDigit(n)) && HexValue(HexDigit(n)) == n
  {
  }

  /** `n.toString(16)` for a non-negative integer: base-16 digits, most
      significant first, without padding. */
  function ToHex(n: nat): (s: string)
    ensures |s| >= 1
    decreases n
  {
    if n < 16 then [HexDigit(n)] else ToHex(n / 16) + [HexDigit(n % 16)]
  }

  /** The two-digit spelling of one octet, high nibble first. */
  function OctetHex(b: nat): (s: string)
    requires b < 256
  {
    [HexDigit(b / 16), HexDigit(b % 16)]
  }

  /** Reads back the two digits that OctetHex writes. */
  function ParseOctet(s: string): (b: nat)
    requires |s| == 2 && IsHexDigit(s[0]) && IsHexDigit(s[1])
    ensures b < 256
  {
    HexValue(s[0]) * 16 + HexValue(s[1])
  }

  lemma OctetRoundTrip(b: nat)
    requires b < 256
    ensures IsHexDigit(OctetHex(b)[0]) && IsHexDigit(OctetHex(b)[1])
    ensures ParseOctet(OctetHex(b)) == b
  {
    HexDigitIsHex(b / 16);
    HexDigitIsHex(b % 16);
  }

  /** The table entry `(i + 256).toString(16).slice(1)`: the leading '1'
      that the added 256 contributes is dropped, leaving two digits. */
  lemma {:induction false} TableEntry(i: nat)
    requires i < 256
    ensures ToHex(i + 256)[1..] == OctetHex(i)
  {
    assert (i + 256) / 16 == 16 + i / 16 && (i + 256) % 16 == i % 16;
    assert (16 + i / 16) / 16 == 1 && (16 + i / 16) % 16 == i / 16;
    assert ToHex(16 + i / 16) == [HexDigit(1), HexDigit(i / 16)];
  }

  /** The module-level `byteToHex` array, filled by a push loop over 0..255. */
  method BuildByteToHex() returns (byteToHex: seq<string>)
    ensures |byteToHex| == 256
    ensures forall i | 0 <= i < 256 :: byteToHex[i] == OctetHex(i)
  {
    byteToHex := [];
    for i := 0 to 256
      invariant |byteToHex| == i
      invariant forall j | 0 <= j < i :: byteToHex[j] == OctetHex(j)
    {
      TableEntry(i);
      byteToHex := byteToHex + [ToHex(i + 256)[1..]];
    }
  }

  /** `byteToHex[arr[i]]`: BuildByteToHex shows the table holds OctetHex. */
  function HexAt(arr: seq<byte>, i: nat): string
    requires i < |arr|
  {
    OctetHex(arr[i])
  }

  /** The hex of n consecutive octets starting at `from`, in order. */
  function HexRun(arr: seq<byte>, from: nat, n: nat): (s: string)
    requires from + n <= |arr|
    ensures |s| == 2 * n
  {
    if n == 0 then "" else HexRun(arr, from, n - 1) + HexAt(arr, from + n - 1)
  }

  lemma {:induction false} HexRunAt(arr: seq<byte>, from: nat, n: nat, j: nat)
    requires from + n <= |arr| && j < n
    ensures HexRun(arr, from, n)[2 * j..2 * j + 2] == HexAt(arr, from + j)
  {
    if j < n - 1 {
      HexRunAt(arr, from, n - 1, j);
    }
  }

  /** `unsafeStringify(arr, offset)`: the 16 octets from offset on, in hex,
      grouped 4-2-2-2-6 and joined by '-' (the source spells out all sixteen
      table lookups in one concatenation; HexRun groups them). */
  function UnsafeStringify(arr: seq<byte>, offset: nat): (s: string)
    requires offset + 16 <= |arr|
  {
    HexRun(arr, offset, 4) + "-" + HexRun(arr, offset + 4, 2) + "-" + HexRun(arr, offset + 6, 2) + "-"
    + HexRun(arr, offset + 8, 2) + "-" + HexRun(arr, offset + 10, 6)
  }

  /** Where the two digits of octet k start in the 36-character form. */
  function CharIndex(k: nat): (p: nat)
    requires k < 16
    ensures p + 2 <= 36 && !IsDashIndex(p) && !IsDashIndex(p + 1)
  {
    2 * k + (if k >= 4 then 1 else 0) + (if k >= 6 then 1 else 0)
    + (if k >= 8 then 1 else 0) + (if k >= 10 then 1 else 0)
  }

  predicate IsDashIndex(p: nat) {
    p == 8 || p == 13 || p == 18 || p == 23
  }

  /** The string form of section 3 of RFC 4122, lower-case: 36 characters,
      hyphens at 8, 13, 18 and 23, hex digits everywhere else. */
  predicate IsUuidText(s: string) {
    && |s| == 36
    && (forall p | 0 <= p < 36 && IsDashIndex(p) :: s[p] == '-')
    && (forall p | 0 <= p < 36 && !IsDashIndex(p) :: IsHexDigit(s[p]))
  }

  /** Reads the 16 octets back out of a string in the section 3 form. */
  function Parse(s: string): (octets: seq<byte>)
    requires IsUuidText(s)
    ensures |octets| == 16
  {
    seq(16, k requires 0 <= k < 16 =>
      ParseOctet(s[CharIndex(k)..CharIndex(k) + 2]))
  }

  /** The five groups of the string form, as UnsafeStringify lays them out. */
  predicate GroupsOf(s: string, arr: seq<byte>, offset: nat)
    requires offset + 16 <= |arr|
  {
    && |s| == 36
    && s[8] == '-' && s[13] == '-' && s[18] == '-' && s[23] == '-'
    && s[0..8] == HexRun(arr, offset, 4)
    && s[9..13] == HexRun(arr, offset + 4, 2)
    && s[14..18] == HexRun(arr, offset + 6, 2)
    && s[19..23] == HexRun(arr, offset + 8, 2)
    && s[24..36] == HexRun(arr, offset + 10, 6)
  }

  lemma StringifyGroups(arr: seq<byte>, offset: nat)
    requires offset + 16 <= |arr|
    ensures GroupsOf(UnsafeStringify(arr, offset), arr, offset)
  {
    var g0, g1, g2 := HexRun(arr, offset, 4), HexRun(arr, offset + 4, 2), HexRun(arr, offset + 6, 2);
    var g3, g4 := HexRun(arr, offset + 8, 2), HexRun(arr, offset + 10, 6);
    var t1 := g0 + "-" + g1;
    var t2 := t1 + "-" + g2;
    var t3 := t2 + "-" + g3;
    AppendGroup(g0, g1);
    AppendGroup(t1, g2);
    AppendGroup(t2, g3);
    AppendGroup(t3, g4);
  }

  /** Joining `a` and `g` with a hyphen keeps `a` and puts `g` after the hyphen. */
  lemma AppendGroup(a: string, g: string)
    ensures var t := a + "-" + g;
      && |t| == |a| + 1 + |g|
      && (forall i | 0 <= i < |a| :: t[i] == a[i])
      && t[|a|] == '-'
      && t[|a| + 1..] == g
  {
    var t := a + "-" + g;
    assert t[|a| + 1..] == g;
  }

  lemma InGroup(s: string, start: nat, arr: seq<byte>, from: nat, len: nat, j: nat)
    requires from + len <= |arr| && j < len && start + 2 * len <= |s|
    requires s[start..start + 2 * len] == HexRun(arr, from, len)
    ensures s[start + 2 * j..start + 2 * j + 2] == HexAt(arr, from + j)
  {
    var g := s[start..start + 2 * len];
    HexRunAt(arr, from, len, j);
    assert g[2 * j] == s[start + 2 * j] && g[2 * j + 1] == s[start + 2 * j + 1];
    assert s[start + 2 * j..start + 2 * j + 2] == [s[start + 2 * j], s[start + 2 * j + 1]];
    assert g[2 * j..2 * j + 2] == [g[2 * j], g[2 * j + 1]];
  }

  /** Octet k of the input is spelled at CharIndex(k). */
  lemma OctetPosition(s: string, arr: seq<byte>, offset: nat, k: nat)
    requires offset + 16 <= |arr| && k < 16 && GroupsOf(s, arr, offset)
    ensures s[CharIndex(k)..CharIndex(k) + 2] == HexAt(arr, offset + k)
  {
    var (start, first, len) := GroupOf(k);
    assert s[start..start + 2 * len] == HexRun(arr, offset + first, len);
    InGroup(s, start, arr, offset + first, len, k - first);
  }

  /** The group holding octet k: where it starts in the string, its first
      octet and its length in octets. */
  function GroupOf(k: nat): (nat, nat, nat)
    requires k < 16
  {
    if k < 4 then (0, 0, 4)
    else if k < 6 then (9, 4, 2)
    else if k < 8 then (14, 6, 2)
    else if k < 10 then (19, 8, 2)
    else (24, 10, 6)
  }

  lemma StringifyLayout(arr: seq<byte>, offset: nat)
    requires offset + 16 <= |arr|
    ensures |UnsafeStringify(arr, offset)| == 36
    ensures forall k | 0 <= k < 16 ::
      UnsafeStringify(arr, offset)[CharIndex(k)..CharIndex(k) + 2] == OctetHex(arr[offset + k])
    ensures forall p | 0 <= p < 36 && IsDashIndex(p) :: UnsafeStringify(arr, offset)[p] == '-'
  {
    StringifyGroups(arr, offset);
    forall k | 0 <= k < 16
      ensures UnsafeStringify(arr, offset)[CharIndex(k)..CharIndex(k) + 2] == OctetHex(arr[offset + k])
    {
      OctetPosition(UnsafeStringify(arr, offset), arr, offset, k);
    }
  }

  /** The octet whose digits sit at position p of the string form. */
  function OctetAt(p: nat): (k: nat)
    requires p < 36 && !IsDashIndex(p)
    ensures k < 16 && CharIndex(k) <= p < CharIndex(k) + 2
  {
    (p - ((if p > 8 then 1 else 0) + (if p > 13 then 1 else 0)
          + (if p > 18 then 1 else 0) + (if p > 23 then 1 else 0))) / 2
  }

  lemma OctetHexInverse(t: string)
    requires |t| == 2 && IsHexDigit(t[0]) && IsHexDigit(t[1])
    ensures OctetHex(ParseOctet(t)) == t
  {
    var hi, lo := HexValue(t[0]), HexValue(t[1]);
    assert (hi * 16 + lo) / 16 == hi && (hi * 16 + lo) % 16 == lo;
  }

  /** The string form is well formed and reads back to the octets it spells. */
  lemma StringifyParse(arr: seq<byte>, offset: nat)
    requires offset + 16 <= |arr|
    ensures IsUuidText(UnsafeStringify(arr, offset))
    ensures Parse(UnsafeStringify(arr, offset)) == arr[offset..offset + 16]
  {
    var s := UnsafeStringify(arr, offset);
    StringifyLayout(arr, offset);
    forall p | 0 <= p < 36 && !IsDashIndex(p)
      ensures IsHexDigit(s[p])
    {
      var k := OctetAt(p);
      OctetRoundTrip(arr[offset + k]);
      assert s[p] == s[CharIndex(k)..CharIndex(k) + 2][p - CharIndex(k)];
    }
    forall k | 0 <= k < 16
      ensures Parse(s)[k] == arr[offset + k]
    {
      OctetRoundTrip(arr[offset + k]);
    }
  }

  /** A 36-character string with the hyphens of the section 3 form and the
      digits of `octets` at the octet positions. */
  predicate Spells(t: string, octets: seq<byte>)
    requires |octets| == 16
  {
    && |t| == 36
    && (forall p | 0 <= p < 36 && IsDashIndex(p) :: t[p] == '-')
    && (forall k | 0 <= k < 16 :: t[CharIndex(k)..CharIndex(k) + 2] == OctetHex(octets[k]))
  }

  lemma SpellsParsedAt(s: string, t: string, k: nat)
    requires IsUuidText(s) && |t| == 36 && k < 16
    requires t[CharIndex(k)..CharIndex(k) + 2] == OctetHex(Parse(s)[k])
    ensures t[CharIndex(k)..CharIndex(k) + 2] == s[CharIndex(k)..CharIndex(k) + 2]
  {
    var i := CharIndex(k);
    assert IsHexDigit(s[i]) && IsHexDigit(s[i + 1]);
    assert Parse(s)[k] == ParseOctet(s[i..i + 2]);
    OctetHexInverse(s[i..i + 2]);
  }

  lemma SpellsParsed(s: string, t: string)
    requires IsUuidText(s) && Spells(t, Parse(s))
    ensures t == s
  {
    forall p | 0 <= p < 36
      ensures t[p] == s[p]
    {
      if !IsDashIndex(p) {
        var k := OctetAt(p);
        var i := CharIndex(k);
        SpellsParsedAt(s, t, k);
        assert t[p] == t[i..i + 2][p - i] && s[p] == s[i..i + 2][p - i];
      }
    }
  }

  /** Every string in the section 3 form is the stringification of exactly
      the octets Parse reads from it. */
  lemma ParseStringify(s: string)
    requires IsUuidText(s)
    ensures UnsafeStringify(Parse(s), 0) == s
  {
    var octets := Parse(s);
    StringifySpells(octets);
    SpellsParsed(s, UnsafeStringify(octets, 0));
  }

  lemma StringifySpells(octets: seq<byte>)
    requires |octets| == 16
    ensures Spells(UnsafeStringify(octets, 0), octets)
  {
    StringifyLayout(octets, 0);
  }

  /** Lines 64-65 of the v4 generator: the high nibble of octet 6 becomes
      0100 (version 4) and the top two bits of octet 8 become 10 (the
      RFC 4122 variant); every other bit is the random input. */
  function StampVersion(rnds: seq<byte>): (r: seq<byte>)
    requires |rnds| >= 16
  {
    rnds[6 := (((rnds[6] as bv8) & 0x0F) | 0x40) as int][8 := (((rnds[8] as bv8) & 0x3F) | 0x80) as int]
  }

  lemma StampVersionBits(rnds: seq<byte>)
    requires |rnds| >= 16
    ensures var r := StampVersion(rnds);
      && |r| == |rnds|
      && (r[6] as bv8) >> 4 == 4 && (r[6] as bv8) & 0x0F == (rnds[6] as bv8) & 0x0F
      && (r[8] as bv8) >> 6 == 2 && (r[8] as bv8) & 0x3F == (rnds[8] as bv8) & 0x3F
      && forall i | 0 <= i < |rnds| && i != 6 && i != 8 :: r[i] == rnds[i]
  {
    var x6, x8 := rnds[6] as bv8, rnds[8] as bv8;
    PatternOfOctet((x6 & 0x0F) | 0x40);
    PatternOfOctet((x8 & 0x3F) | 0x80);
  }

  /** Reading an 8-bit pattern as a number and back gives the pattern. */
  lemma PatternOfOctet(x: bv8)
    ensures (x as int) as bv8 == x
  {
  }

  /** The string `v4()` returns when it is not given a buffer. */
  function V4Text(rnds: seq<byte>): string
    requires |rnds| >= 16
  {
    UnsafeStringify(StampVersion(rnds), 0)
  }

  /** A v4 string is in the section 3 form, its version digit is '4', its
      variant digit is one of 8, 9, a, b, and it reads back to the stamped octets. */
  lemma V4TextShape(rnds: seq<byte>)
    requires |rnds| >= 16
    ensures IsUuidText(V4Text(rnds))
    ensures V4Text(rnds)[14] == '4'
    ensures V4Text(rnds)[19] in "89ab"
    ensures Parse(V4Text(rnds)) == StampVersion(rnds)[..16]
  {
    var r := StampVersion(rnds);
    StringifyParse(r, 0);
    StringifyLayout(r, 0);
    NibbleOfVersion(rnds[6] as bv8);
    NibbleOfVariant(rnds[8] as bv8);
    VersionDigits(V4Text(rnds), r[6], r[8]);
  }

  lemma VersionDigits(t: string, r6: byte, r8: byte)
    requires |t| == 36 && t[14..16] == OctetHex(r6) && t[19..21] == OctetHex(r8)
    requires r6 / 16 == 4 && 8 <= r8 / 16 < 12
    ensures t[14] == '4' && t[19] in "89ab"
  {
    assert t[14] == t[14..16][0] && t[19] == t[19..21][0];
  }

  lemma NibbleOfVersion(b: bv8)
    ensures (((b & 0x0F) | 0x40) as int) / 16 == 4
  {
  }

  lemma NibbleOfVariant(b: bv8)
    ensures 8 <= (((b & 0x3F) | 0x80) as int) / 16 < 12
  {
  }

  /** The outcome of `v4(options, buf, offset)`. */
  datatype V4Result = Text(text: string) | Filled(buf: array<byte>)

  /** `v4` on the fallback path that draws 16 octets into `rnds`: the octets
      are stamped in place, then either copied into `buf` from `offset` on
      (and `buf` returned) or turned into the string form. */
  method V4(rnds: array<byte>, buf: array?<byte>, offset: nat) returns (r: V4Result)
    requires rnds.Length >= 16
    requires buf != null ==> buf != rnds && offset + 16 <= buf.Length
    modifies rnds, buf
    ensures rnds[..] == StampVersion(old(rnds[..]))
    ensures buf == null ==> r == Text(V4Text(old(rnds[..])))
    ensures buf != null ==> r == Filled(buf)
    ensures buf != null ==> forall i | 0 <= i < buf.Length ::
      buf[i] == if offset <= i < offset + 16 then rnds[i - offset] else old(buf[i])
  {
    rnds[6] := (((rnds[6] as bv8) & 0x0F) | 0x40) as int;
    rnds[8] := (((rnds[8] as bv8) & 0x3F) | 0x80) as int;
    assert rnds[..] == StampVersion(old(rnds[..]));
    if buf != null {
      for i := 0 to 16
        invariant rnds[..] == StampVersion(old(rnds[..]))
        invariant forall j | 0 <= j < buf.Length ::
          buf[j] == if offset <= j < offset + i then rnds[j - offset] else old(buf[j])
      {
        buf[offset + i] := rnds[i];
      }
      return Filled(buf);
    }
    return Text(UnsafeStringify(rnds[..], 0));
  }

  /** `v4().substring(0, 8)`: the room code, the first eight characters. */
  function RoomIdOf(rnds: seq<byte>): string
    requires |rnds| >= 16
  {
    V4Text(rnds)[..8]
  }

  /** A room code is the hex of the first four random octets, which the
      version and variant stamping does not touch. */
  lemma RoomIdSpellsFirstOctets(rnds: seq<byte>)
    requires |rnds| >= 16
    ensures RoomIdOf(rnds) == HexAt(rnds, 0) + HexAt(rnds, 1) + HexAt(rnds, 2) + HexAt(rnds, 3)
    ensures |RoomIdOf(rnds)| == 8 && forall p | 0 <= p < 8 :: IsHexDigit(RoomIdOf(rnds)[p])
  {
    var r := StampVersion(rnds);
    StringifyGroups(r, 0);
    StringifyParse(r, 0);
    assert forall i | 0 <= i < 4 :: HexAt(r, i) == HexAt(rnds, i);
    assert HexRun(r, 0, 1) == HexAt(r, 0);
    assert HexRun(r, 0, 2) == HexAt(r, 0) + HexAt(r, 1);
    assert HexRun(r, 0, 3) == HexAt(r, 0) + HexAt(r, 1) + HexAt(r, 2);
  }
}
