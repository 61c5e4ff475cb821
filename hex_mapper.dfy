/** worker/mapper/HexBytesMapper.java: writes a binary column as lowercase
    hexadecimal, two digits per byte. */
module HexBytesMapping {
  import opened JavaText
  import opened Results

  /** `(b >> 4) & 0x0f`: Dafny's `/` by a positive constant rounds down like
      the arithmetic shift, and `%` is never negative like the mask. */
  function HighNibble(b: JByte): (d: int)
    ensures 0 <= d < 16
  {
    (b as int / 16) % 16
  }

  /** `(b >> 0) & 0x0f` */
  function LowNibble(b: JByte): (d: int)
    ensures 0 <= d < 16
  {
    b as int % 16
  }

  /** The two digits written for one byte, high nibble first. */
  function HexPair(b: JByte): (r: JString)
    ensures |r| == 2 && IsHexDigit(r[0]) && IsHexDigit(r[1])
  {
    [HexDigit(HighNibble(b)), HexDigit(LowNibble(b))]
  }

  /** hexEncode(value), byte by byte. */
  function HexEncode(bs: seq<JByte>): JString
  {
    ConcatMap(HexPair, bs)
  }

  /** hexEncode(value) */
  method HexEncodeBytes(value: seq<JByte>) returns (r: JString)
    ensures r == HexEncode(value)
  {
    var builder: JString := [];
    for i := 0 to |value|
      invariant builder == HexEncode(value[..i])
    {
      var b := value[i];
      assert value[..i + 1][..i] == value[..i];
      builder := builder + [HexDigit((b as int / 16) % 16)];
      builder := builder + [HexDigit(b as int % 16)];
    }
    assert value[..|value|] == value;
    return builder;
  }

  /** map(resultSet): SQL NULL stays null; any other value is encoded. */
  function MapHex(value: Option<seq<JByte>>): (r: Option<JString>)
    ensures r.None? <==> value.None?
    ensures r.Some? ==> r.value == HexEncode(value.value)
  {
    if value.None? then None else Some(HexEncode(value.value))
  }

  // ---------------------------------------------------------------------
  // Decoding, the partner of the encoding

  /** The byte whose unsigned value is `v`. */
  function SignedByte(v: int): JByte
    requires 0 <= v < 256
  {
    if v >= 128 then (v - 256) as JByte else v as JByte
  }

  /** Reads pairs of lowercase hex digits back into bytes. */
  function HexDecode(s: JString): (r: Option<seq<JByte>>)
    decreases |s|
  {
    if s == [] then Some([])
    else if |s| == 1 || !IsHexDigit(s[0]) || !IsHexDigit(s[1]) then None
    else
      var rest := HexDecode(s[2..]);
      if rest.None? then None
      else Some([SignedByte(HexValue(s[0]) * 16 + HexValue(s[1]))] + rest.value)
  }

  /** Each byte's two digits hold its unsigned value, so -1 is `ff`. */
  lemma NibblesRebuild(b: JByte)
    ensures HighNibble(b) * 16 + LowNibble(b) == (b as int + 256) % 256
    ensures SignedByte(HighNibble(b) * 16 + LowNibble(b)) == b
  {
  }

  /** Two digits per byte, and only `0-9a-f`. */
  lemma {:induction false} HexEncodeShape(bs: seq<JByte>)
    ensures |HexEncode(bs)| == 2 * |bs|
    ensures forall k :: 0 <= k < |HexEncode(bs)| ==> IsHexDigit(HexEncode(bs)[k])
    decreases |bs|
  {
    if bs != [] {
      var init := bs[..|bs| - 1];
      HexEncodeShape(init);
      var a := HexEncode(init);
      var p := HexPair(bs[|bs| - 1]);
      assert HexEncode(bs) == a + p;
      assert forall k :: 0 <= k < |p| ==> (a + p)[|a| + k] == p[k];
    }
  }

  /** Decoding the hex text gives back the bytes, so the encoding is
      injective. */
  lemma {:induction false} HexRoundTrip(bs: seq<JByte>)
    ensures HexDecode(HexEncode(bs)) == Some(bs)
    decreases |bs|
  {
    if bs != [] {
      var x := bs[0];
      var rest := bs[1..];
      assert bs == [x] + rest;
      ConcatMapCons(HexPair, x, rest);
      HexRoundTrip(rest);
      NibblesRebuild(x);
      var s := HexEncode(bs);
      assert s[2..] == HexEncode(rest);
    }
  }

  /** -1 is written `ff`, 0 `00` and 127 `7f`. */
  lemma HexExamples()
    ensures HexEncode([-1 as JByte, 0 as JByte, 127 as JByte]) == Str("ff007f")
  {
    ConcatMapThree(HexPair, -1 as JByte, 0 as JByte, 127 as JByte);
    HexPairExamples();
    assert Str("ff") + Str("00") == Str("ff00") by {
      StrAppend("ff", "00");
      assert "ff" + "00" == "ff00";
    }
    assert Str("ff00") + Str("7f") == Str("ff007f") by {
      StrAppend("ff00", "7f");
      assert "ff00" + "7f" == "ff007f";
    }
  }

  lemma HexPairExamples()
    ensures HexPair(-1 as JByte) == Str("ff")
    ensures HexPair(0 as JByte) == Str("00")
    ensures HexPair(127 as JByte) == Str("7f")
  {
  }
}
