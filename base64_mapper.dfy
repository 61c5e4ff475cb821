/** worker/mapper/Base64BytesMapper.java and Base64PrefixBytesMapper.java:
    a binary column as java.util.Base64's basic encoder writes it (the
    alphabet of table 1 of RFC 4648, section 4, with `=` padding), the
    second behind the prefix `[BASE64]`. */
module Base64Mapping {
  import opened JavaText
  import opened Results

  /** The byte's unsigned value, 0..255. */
  function Unsigned(b: JByte): (u: int)
    ensures 0 <= u < 256
  {
    (b as int + 256) % 256
  }

  /** The character for a 6-bit value, from table 1 of RFC 4648. */
  function Base64Char(v: int): (c: JChar)
    requires 0 <= v < 64
    ensures IsBase64Char(c)
  {
    if v < 26 then ('A' as int + v) as JChar
    else if v < 52 then ('a' as int + v - 26) as JChar
    else if v < 62 then ('0' as int + v - 52) as JChar
    else if v == 62 then '+' as int as JChar
    else '/' as int as JChar
  }

  predicate IsBase64Char(c: JChar)
  {
    IsAsciiUpper(c) || IsAsciiLower(c) || ('0' as int <= c as int <= '9' as int)
    || c as int == '+' as int || c as int == '/' as int
  }

  const PAD: JChar := '=' as int as JChar

  /** Characters of the alphabet, or padding. */
  predicate IsBase64Text(s: JString)
  {
    forall k :: 0 <= k < |s| ==> IsBase64Char(s[k]) || s[k] == PAD
  }

  /** The four characters for the 24-bit group `n`, of which the first
      `k` are written and the rest are padding. */
  function Quantum(n: int, k: nat): (r: JString)
    requires 0 <= n < 0x100_0000 && 2 <= k <= 4
    ensures |r| == 4 && IsBase64Text(r)
    ensures forall j :: 0 <= j < k ==> IsBase64Char(r[j])
    ensures forall j :: k <= j < 4 ==> r[j] == PAD
  {
    var digits := [Base64Char(n / 262144), Base64Char((n / 4096) % 64), Base64Char((n / 64) % 64), Base64Char(n % 64)];
    digits[..k] + seq(4 - k, _ => PAD)
  }

  /** Base64.getEncoder().encodeToString(value) */
  function Base64Encode(bs: seq<JByte>): (r: JString)
    ensures |r| == 4 * ((|bs| + 2) / 3)
    ensures IsBase64Text(r)
  {
    if bs == [] then []
    else if |bs| == 1 then Quantum(Unsigned(bs[0]) * 65536, 2)
    else if |bs| == 2 then Quantum(Unsigned(bs[0]) * 65536 + Unsigned(bs[1]) * 256, 3)
    else
      var q := Quantum(Unsigned(bs[0]) * 65536 + Unsigned(bs[1]) * 256 + Unsigned(bs[2]), 4);
      var rest := Base64Encode(bs[3..]);
      GroupCountStep(|bs|);
      Base64TextAppend(q, rest);
      q + rest
  }

  /** One more group of three bytes is one more quantum. */
  lemma GroupCountStep(n: int)
    requires n >= 3
    ensures (n + 2) / 3 == 1 + (n - 1) / 3
  {
  }

  lemma Base64TextAppend(a: JString, b: JString)
    requires IsBase64Text(a) && IsBase64Text(b)
    ensures IsBase64Text(a + b)
  {
    assert forall k :: 0 <= k < |b| ==> (a + b)[|a| + k] == b[k];
  }

  const BASE64_PREFIX: JString := Str("[BASE64]")

  /** Base64BytesMapper.map: SQL NULL stays null; otherwise the value is
      the Base64 encoding of the bytes, in whole four-character groups of
      the Base64 alphabet. */
  function MapBase64(value: Option<seq<JByte>>): (r: Option<JString>)
    ensures r.None? <==> value.None?
    ensures r.Some? ==> r.value == Base64Encode(value.value)
    ensures r.Some? ==> |r.value| % 4 == 0 && IsBase64Text(r.value)
  {
    if value.None? then None
    else
      var e := Base64Encode(value.value);
      FourTimes((|value.value| + 2) / 3);
      Some(e)
  }

  /** Base64PrefixBytesMapper.map: SQL NULL stays null; otherwise the
      encoding follows `[BASE64]`. */
  function MapBase64Prefix(value: Option<seq<JByte>>): (r: Option<JString>)
    ensures r.None? <==> value.None?
    ensures r.Some? ==> StartsWith(r.value, BASE64_PREFIX) && r.value[|BASE64_PREFIX|..] == Base64Encode(value.value)
  {
    if value.None? then None else Some(BASE64_PREFIX + Base64Encode(value.value))
  }

  lemma FourTimes(q: int)
    ensures (4 * q) % 4 == 0
  {
  }

  /** RFC 4648 section 10: "f" is "Zg==", "fo" is "Zm8=", "foo" is "Zm9v". */
  lemma Base64Examples()
    ensures Base64Encode([0x66 as JByte]) == Str("Zg==")
    ensures Base64Encode([0x66 as JByte, 0x6f as JByte]) == Str("Zm8=")
    ensures Base64Encode([0x66 as JByte, 0x6f as JByte, 0x6f as JByte]) == Str("Zm9v")
  {
    Base64OneByte();
    Base64TwoBytes();
    Base64ThreeBytes();
  }

  lemma Base64OneByte()
    ensures Base64Encode([0x66 as JByte]) == Str("Zg==")
  {
  }

  lemma Base64TwoBytes()
    ensures Base64Encode([0x66 as JByte, 0x6f as JByte]) == Str("Zm8=")
  {
  }

  lemma Base64ThreeBytes()
    ensures Base64Encode([0x66 as JByte, 0x6f as JByte, 0x6f as JByte]) == Str("Zm9v")
  {
    var bs := [0x66 as JByte, 0x6f as JByte, 0x6f as JByte];
    assert Base64Encode(bs) == Quantum(0x666f6f, 4) by {
      assert bs[3..] == [];
      assert Unsigned(bs[0]) * 65536 + Unsigned(bs[1]) * 256 + Unsigned(bs[2]) == 0x666f6f;
    }
    assert Quantum(0x666f6f, 4) == Str("Zm9v") by {
      assert Base64Char(0x666f6f / 262144) == 'Z' as int as JChar;
      assert Base64Char((0x666f6f / 4096) % 64) == 'm' as int as JChar;
      assert Base64Char((0x666f6f / 64) % 64) == '9' as int as JChar;
      assert Base64Char(0x666f6f % 64) == 'v' as int as JChar;
    }
  }
}
