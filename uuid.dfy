/** Browser ids of src/utils/userActions.ts: the `UUID_RE` validator (lines 5-6) and the
    `newUuid` generator (lines 8-31), whose fallback forces the version and variant bits of
    RFC 4122 (sections 4.1.1, 4.1.3 and 4.4) onto 16 random bytes and writes them in
    8-4-4-4-12 hexadecimal form. */
module Uuid {

  // ---------------------------------------------------------------- the validator

  predicate IsLowerHexDigit(c: char)
  {
    '0' <= c <= '9' || 'a' <= c <= 'f'
  }

  /** `[0-9a-f]` under the regular expression's `i` flag. */
  predicate IsHexDigit(c: char)
  {
    IsLowerHexDigit(c) || 'A' <= c <= 'F'
  }

  predicate AllHex(s: string)
  {
    forall i :: 0 <= i < |s| ==> IsHexDigit(s[i])
  }

  /** Where the 8-4-4-4-12 layout puts its dashes. */
  predicate IsDashPosition(i: int)
  {
    i == 8 || i == 13 || i == 18 || i == 23
  }

  /** Thirty-six characters: dashes at 8, 13, 18 and 23, hexadecimal digits of either case
      everywhere else. */
  predicate HasUuidLayout(s: string)
  {
    |s| == 36 && forall i :: 0 <= i < 36 ==> if IsDashPosition(i) then s[i] == '-' else IsHexDigit(s[i])
  }

  /** `[89ab]` under the `i` flag. */
  predicate IsVariantDigit(c: char)
  {
    c == '8' || c == '9' || c == 'a' || c == 'b' || c == 'A' || c == 'B'
  }

  /** `UUID_RE.test(s)` for
      /^[0-9a-f]{8}-[0-9a-f]{4}-[1-5][0-9a-f]{3}-[89ab][0-9a-f]{3}-[0-9a-f]{12}$/i:
      the layout, a version digit 1 to 5 at position 14 and a variant digit at position 19. */
  predicate MatchesUuidRe(s: string)
  {
    HasUuidLayout(s) && '1' <= s[14] <= '5' && IsVariantDigit(s[19])
  }

  // ---------------------------------------------------------------- masking (lines 24-25)

  /** `(b & 0x0f) | 0x40`: the high nibble becomes the version 4, the low nibble is kept. */
  function WithVersion(b: bv8): (r: bv8)
    ensures r >> 4 == 4 && r & 0x0f == b & 0x0f
  {
    (b & 0x0f) | 0x40
  }

  /** `(b & 0x3f) | 0x80`: the top two bits become the variant `10`, the low six are kept. */
  function WithVariant(b: bv8): (r: bv8)
    ensures r >> 6 == 2 && r & 0x3f == b & 0x3f
  {
    (b & 0x3f) | 0x80
  }

  /** The 16 bytes after lines 24-25: byte 6 carries the version, byte 8 the variant, and every
      other bit of the input is kept. */
  function Masked(bytes: seq<bv8>): (r: seq<bv8>)
    requires |bytes| == 16
    ensures |r| == 16
    ensures r[6] >> 4 == 4 && r[6] & 0x0f == bytes[6] & 0x0f
    ensures r[8] >> 6 == 2 && r[8] & 0x3f == bytes[8] & 0x3f
    ensures forall i :: 0 <= i < 16 && i != 6 && i != 8 ==> r[i] == bytes[i]
  {
    bytes[6 := WithVersion(bytes[6])][8 := WithVariant(bytes[8])]
  }

  /** Lines 24-25 on the buffer itself. */
  method MaskInPlace(bytes: array<bv8>)
    requires bytes.Length == 16
    modifies bytes
    ensures bytes[..] == Masked(old(bytes[..]))
  {
    bytes[6] := WithVersion(bytes[6]);
    bytes[8] := WithVariant(bytes[8]);
  }

  // ---------------------------------------------------------------- hex encoding (lines 27-30)

  /** The value of a hexadecimal digit of either case. */
  function HexValue(c: char): (n: int)
    requires IsHexDigit(c)
    ensures 0 <= n < 16
  {
    if '0' <= c <= '9' then c as int - '0' as int
    else if 'a' <= c <= 'f' then c as int - 'a' as int + 10
    else c as int - 'A' as int + 10
  }

  /** The digit `toString(16)` writes for a value below 16: lower-case. */
  function HexDigit(n: int): (c: char)
    requires 0 <= n < 16
    ensures IsLowerHexDigit(c) && HexValue(c) == n
  {
    if n < 10 then ('0' as int + n) as char else ('a' as int + n - 10) as char
  }

  /** `b.toString(16).padStart(2, "0")`: exactly two lower-case digits that read back as `b`. */
  function HexByte(b: bv8): (r: string)
    ensures |r| == 2 && IsLowerHexDigit(r[0]) && IsLowerHexDigit(r[1])
    ensures HexValue(r[0]) * 16 + HexValue(r[1]) == b as int
  {
    [HexDigit(b as int / 16), HexDigit(b as int % 16)]
  }

  /** `bytes.map(toHex).join("")`: two digits per byte, in order. */
  function HexOf(bytes: seq<bv8>): (r: string)
    ensures |r| == 2 * |bytes|
    ensures forall k :: 0 <= k < |r| ==> IsLowerHexDigit(r[k])
    ensures forall i :: 0 <= i < |bytes| ==> r[2 * i] == HexByte(bytes[i])[0] && r[2 * i + 1] == HexByte(bytes[i])[1]
  {
    if bytes == [] then [] else HexByte(bytes[0]) + HexOf(bytes[1..])
  }

  /** The two hexadecimal digits `hi` and `lo` read as one byte. */
  function ByteOfHex(hi: char, lo: char): bv8
    requires IsHexDigit(hi) && IsHexDigit(lo)
  {
    (HexValue(hi) * 16 + HexValue(lo)) as bv8
  }

  /** Reading an even-length run of hexadecimal digits back into bytes. */
  function BytesOfHex(s: string): (r: seq<bv8>)
    requires |s| % 2 == 0 && AllHex(s)
    ensures |r| == |s| / 2
  {
    if s == [] then [] else [ByteOfHex(s[0], s[1])] + BytesOfHex(s[2..])
  }

  /** The text of lines 28-30: groups of 4, 2, 2, 2 and 6 bytes joined by dashes. */
  function FormatUuid(bytes: seq<bv8>): (s: string)
    requires |bytes| == 16
    ensures |s| == 36
  {
    HexOf(bytes[..4]) + "-" + HexOf(bytes[4..6]) + "-" + HexOf(bytes[6..8]) + "-"
    + HexOf(bytes[8..10]) + "-" + HexOf(bytes[10..])
  }

  /** The 16 bytes a UUID-shaped text spells, dashes skipped. */
  function UuidBytes(s: string): (r: seq<bv8>)
    requires HasUuidLayout(s)
    ensures |r| == 16
  {
    BytesOfHex(s[..8] + s[9..13] + s[14..18] + s[19..23] + s[24..])
  }

  // ---------------------------------------------------------------- what the generator promises

  /** Encoding a concatenation encodes the parts one after the other. */
  lemma {:induction false} HexOfAppend(a: seq<bv8>, b: seq<bv8>)
    ensures HexOf(a + b) == HexOf(a) + HexOf(b)
  {
    if a == [] {
      assert a + b == b;
    } else {
      assert (a + b)[0] == a[0] && (a + b)[1..] == a[1..] + b;
      HexOfAppend(a[1..], b);
    }
  }

  /** One byte's two digits read back as that byte. */
  lemma HexByteRoundTrip(b: bv8)
    ensures ByteOfHex(HexByte(b)[0], HexByte(b)[1]) == b
  {
    var h := HexByte(b);
    var v := HexValue(h[0]) * 16 + HexValue(h[1]);
    assert v == b as int;
    assert v as bv8 == b;
  }

  /** Decoding digits that start with one byte's pair reads that byte first. */
  lemma BytesOfHexCons(h: string, t: string)
    requires |h| == 2 && AllHex(h) && |t| % 2 == 0 && AllHex(t)
    ensures AllHex(h + t)
    ensures BytesOfHex(h + t) == [ByteOfHex(h[0], h[1])] + BytesOfHex(t)
  {
    var s := h + t;
    assert s[2..] == t;
  }

  /** Hex encoding loses nothing: reading the digits back gives the bytes. */
  lemma {:induction false} HexOfRoundTrip(bytes: seq<bv8>)
    ensures AllHex(HexOf(bytes)) && BytesOfHex(HexOf(bytes)) == bytes
  {
    if bytes != [] {
      var h := HexByte(bytes[0]);
      var t := HexOf(bytes[1..]);
      HexOfRoundTrip(bytes[1..]);
      assert HexOf(bytes) == h + t;
      BytesOfHexCons(h, t);
      HexByteRoundTrip(bytes[0]);
      assert bytes == [bytes[0]] + bytes[1..];
    }
  }

  /** Every character of the formatted text, by position: the two digits of each byte in
      order, and dashes at 8, 13, 18 and 23. */
  lemma FormatUuidShape(bytes: seq<bv8>)
    requires |bytes| == 16
    ensures var s := FormatUuid(bytes);
      && |s| == 36
      && s[..8] == HexOf(bytes[..4]) && s[8] == '-'
      && s[9..13] == HexOf(bytes[4..6]) && s[13] == '-'
      && s[14..18] == HexOf(bytes[6..8]) && s[18] == '-'
      && s[19..23] == HexOf(bytes[8..10]) && s[23] == '-'
      && s[24..] == HexOf(bytes[10..])
  {
  }

  /** The formatted text has the 8-4-4-4-12 layout and uses only lower-case digits and dashes. */
  lemma FormatUuidLayout(bytes: seq<bv8>)
    requires |bytes| == 16
    ensures HasUuidLayout(FormatUuid(bytes))
    ensures forall i :: 0 <= i < 36 ==> FormatUuid(bytes)[i] == '-' || IsLowerHexDigit(FormatUuid(bytes)[i])
  {
    FormatUuidShape(bytes);
    var s := FormatUuid(bytes);
    forall i | 0 <= i < 36
      ensures if IsDashPosition(i) then s[i] == '-' else IsLowerHexDigit(s[i])
    {
      if i < 8 { assert s[i] == s[..8][i]; }
      else if 8 < i < 13 { assert s[i] == s[9..13][i - 9]; }
      else if 13 < i < 18 { assert s[i] == s[14..18][i - 14]; }
      else if 18 < i < 23 { assert s[i] == s[19..23][i - 19]; }
      else if 23 < i { assert s[i] == s[24..][i - 24]; }
    }
  }

  /** Formatting is injective: the bytes can be read back from the text. */
  lemma FormatUuidRoundTrip(bytes: seq<bv8>)
    requires |bytes| == 16
    ensures HasUuidLayout(FormatUuid(bytes)) && UuidBytes(FormatUuid(bytes)) == bytes
  {
    FormatUuidLayout(bytes);
    FormatUuidShape(bytes);
    var s := FormatUuid(bytes);
    HexOfAppend(bytes[..4], bytes[4..6]);
    HexOfAppend(bytes[..6], bytes[6..8]);
    HexOfAppend(bytes[..8], bytes[8..10]);
    HexOfAppend(bytes[..10], bytes[10..]);
    assert bytes[..4] + bytes[4..6] == bytes[..6];
    assert bytes[..6] + bytes[6..8] == bytes[..8];
    assert bytes[..8] + bytes[8..10] == bytes[..10];
    assert bytes[..10] + bytes[10..] == bytes;
    assert s[..8] + s[9..13] + s[14..18] + s[19..23] + s[24..] == HexOf(bytes);
    HexOfRoundTrip(bytes);
  }

  /** The key property of the fallback: what it returns passes `UUID_RE`, and in the strict
      RFC 4122 version-4 form: lower-case, version digit `4`, variant digit 8, 9, a or b. */
  lemma FallbackMatchesUuidRe(bytes: seq<bv8>)
    requires |bytes| == 16
    ensures var s := FormatUuid(Masked(bytes));
      && MatchesUuidRe(s)
      && s[14] == '4' && (s[19] == '8' || s[19] == '9' || s[19] == 'a' || s[19] == 'b')
      && forall i :: 0 <= i < 36 ==> s[i] == '-' || IsLowerHexDigit(s[i])
  {
    var m := Masked(bytes);
    FormatUuidLayout(m);
    FormatUuidShape(m);
    var s := FormatUuid(m);
    assert s[14] == HexOf(m[6..8])[0] == HexByte(m[6])[0];
    assert s[19] == HexOf(m[8..10])[0] == HexByte(m[8])[0];
    VersionDigit(m[6]);
    VariantDigit(m[8]);
  }

  /** A byte whose high nibble is 4 is written with a leading `4`. */
  lemma VersionDigit(b: bv8)
    requires b >> 4 == 4
    ensures HexByte(b)[0] == '4'
  {
    assert b as int / 16 == 4;
  }

  /** A byte whose top two bits are `10` is written with a leading 8, 9, a or b. */
  lemma VariantDigit(b: bv8)
    requires b >> 6 == 2
    ensures var c := HexByte(b)[0]; c == '8' || c == '9' || c == 'a' || c == 'b'
  {
    var n := b as int / 16;
    assert 8 <= n < 12;
  }

  // ---------------------------------------------------------------- the generator (lines 8-31)

  /** Where `newUuid` gets its randomness: `crypto.randomUUID()` when the platform has it
      (lines 12-13), otherwise 16 random bytes, from `crypto.getRandomValues` or `Math.random`
      (lines 17-22). */
  datatype RandomSource = NativeRandomUuid(id: string) | RandomBytes(bytes: seq<bv8>)

  /** A source as the platform provides it: `randomUUID` yields a version-4 UUID (the model takes
      this from the platform rather than proving it) and the byte fallback yields 16 bytes. */
  predicate ValidSource(src: RandomSource)
  {
    match src
    case NativeRandomUuid(id) => MatchesUuidRe(id)
    case RandomBytes(bytes) => |bytes| == 16
  }

  /** The id `newUuid` returns for a given source. */
  function Generated(src: RandomSource): (id: string)
    requires src.RandomBytes? ==> |src.bytes| == 16
    ensures ValidSource(src) ==> MatchesUuidRe(id)
  {
    match src
    case NativeRandomUuid(id) => id
    case RandomBytes(bytes) => FallbackMatchesUuidRe(bytes); FormatUuid(Masked(bytes))
  }

  /** `newUuid`: the fallback fills a 16-byte buffer from the random bytes, masks it in place
      and formats it; its result always passes `UUID_RE`. */
  method NewUuid(src: RandomSource) returns (id: string)
    requires src.RandomBytes? ==> |src.bytes| == 16
    ensures id == Generated(src)
    ensures src.RandomBytes? ==> MatchesUuidRe(id) && id[14] == '4'
  {
    if src.NativeRandomUuid? {
      return src.id;
    }
    var bytes := new bv8[16];
    var i := 0;
    while i < bytes.Length
      invariant 0 <= i <= 16
      invariant bytes[..i] == src.bytes[..i]
    {
      bytes[i] := src.bytes[i];
      i := i + 1;
    }
    assert bytes[..] == src.bytes;
    MaskInPlace(bytes);
    id := FormatUuid(bytes[..]);
    FallbackMatchesUuidRe(src.bytes);
  }
}
