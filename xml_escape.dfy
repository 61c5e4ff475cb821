/** worker/mapper/XmlEscape.java: the five characters XML attribute values
    must not carry raw, and their named entities. Beside it, the reading
    the escaping mappers are checked against: numeric character references
    `&#x..;` and a decoder that undoes every escaping of this package. */
module XmlEscaping {
  import opened JavaText
  import opened Results

  const QUOT: JChar := '"' as int as JChar
  const AMP: JChar := '&' as int as JChar
  const APOS: JChar := '\'' as int as JChar
  const LT: JChar := '<' as int as JChar
  const GT: JChar := '>' as int as JChar
  const HASH: JChar := '#' as int as JChar
  const LETTER_X: JChar := 'x' as int as JChar
  const ENTITY_END: JChar := ';' as int as JChar

  /** isEscapeableChar(ch) */
  predicate IsEscapeableChar(c: JChar)
  {
    c == QUOT || c == AMP || c == APOS || c == LT || c == GT
  }

  /** A character that would end or open markup inside an attribute value. */
  predicate IsMarkupChar(c: JChar)
  {
    c == QUOT || c == APOS || c == LT || c == GT
  }

  /** Starts with `&`, ends with `;` and holds no markup character. */
  predicate IsEntity(e: JString)
  {
    |e| >= 3 && e[0] == AMP && e[|e| - 1] == ENTITY_END
    && forall k :: 0 <= k < |e| ==> !IsMarkupChar(e[k])
  }

  /** escapeChar(ch): the named entity, or null for any other character. */
  function EscapeChar(c: JChar): (r: Option<JString>)
    ensures r.Some? <==> IsEscapeableChar(c)
    ensures r.Some? ==> IsEntity(r.value)
  {
    if c == QUOT then Some(Str("&quot;"))
    else if c == AMP then Some(Str("&amp;"))
    else if c == APOS then Some(Str("&apos;"))
    else if c == LT then Some(Str("&lt;"))
    else if c == GT then Some(Str("&gt;"))
    else None
  }

  // ---------------------------------------------------------------------
  // Numeric character references, as the string mappers write them with
  // Character.forDigit((ch >> n) & 0x0f, 16). For a non-negative value
  // `ch >> n` is `ch / 2^n`, and `& 0x0f` is `% 16`.

  /** `&#x` + two lowercase hex digits + `;` (for ch < 256). */
  function HexRef2(c: JChar): (r: JString)
    ensures |r| == 6
  {
    Str("&#x") + [HexDigit((c as int / 16) % 16), HexDigit(c as int % 16)] + Str(";")
  }

  /** `&#x` + four lowercase hex digits + `;`. */
  function HexRef4(c: JChar): (r: JString)
    ensures |r| == 8
  {
    Str("&#x")
      + [HexDigit((c as int / 4096) % 16), HexDigit((c as int / 256) % 16),
         HexDigit((c as int / 16) % 16), HexDigit(c as int % 16)]
      + Str(";")
  }

  // ---------------------------------------------------------------------
  // Decoding

  /** The character at the head of `s` and how many code units it takes:
      a named entity, a two- or four-digit reference, or a raw character. */
  function DecodeAt(s: JString): (r: (JChar, nat))
    requires s != []
    ensures 1 <= r.1 <= |s|
  {
    if s[0] != AMP then (s[0], 1)
    else if StartsWith(s, Str("&quot;")) then (QUOT, 6)
    else if StartsWith(s, Str("&amp;")) then (AMP, 5)
    else if StartsWith(s, Str("&apos;")) then (APOS, 6)
    else if StartsWith(s, Str("&lt;")) then (LT, 4)
    else if StartsWith(s, Str("&gt;")) then (GT, 4)
    else if |s| >= 6 && s[1] == HASH && s[2] == LETTER_X && IsHexDigit(s[3]) && IsHexDigit(s[4])
            && s[5] == ENTITY_END then
      ((HexValue(s[3]) * 16 + HexValue(s[4])) as JChar, 6)
    else if |s| >= 8 && s[1] == HASH && s[2] == LETTER_X && IsHexDigit(s[3]) && IsHexDigit(s[4])
            && IsHexDigit(s[5]) && IsHexDigit(s[6]) && s[7] == ENTITY_END then
      ((((HexValue(s[3]) * 16 + HexValue(s[4])) * 16 + HexValue(s[5])) * 16 + HexValue(s[6])) as JChar, 8)
    else (s[0], 1)
  }

  /** Replaces every entity and reference by its character. */
  function Unescape(s: JString): JString
    decreases |s|
  {
    if s == [] then []
    else
      var d := DecodeAt(s);
      [d.0] + Unescape(s[d.1..])
  }

  /** Unescape reads a character followed by anything as that character
      when the character is not `&`. */
  lemma UnescapeRaw(c: JChar, rest: JString)
    requires c != AMP
    ensures Unescape([c] + rest) == [c] + Unescape(rest)
  {
    assert ([c] + rest)[1..] == rest;
  }

  /** A named entity is read back as its character. */
  lemma DecodeNamed(c: JChar, rest: JString)
    requires IsEscapeableChar(c)
    ensures DecodeAt(EscapeChar(c).value + rest) == (c, |EscapeChar(c).value|)
  {
    var s := EscapeChar(c).value + rest;
    assert s[..|EscapeChar(c).value|] == EscapeChar(c).value;
    if c == AMP {
      assert s[1] != Str("&quot;")[1];
    } else if c == APOS {
      assert s[1] != Str("&quot;")[1] && s[2] != Str("&amp;")[2];
    } else if c == LT {
      assert s[1] != Str("&quot;")[1] && s[1] != Str("&amp;")[1] && s[1] != Str("&apos;")[1];
    } else if c == GT {
      assert s[1] != Str("&quot;")[1] && s[1] != Str("&amp;")[1] && s[1] != Str("&apos;")[1];
      assert s[1] != Str("&lt;")[1];
    }
  }

  /** Four hexadecimal digits taken with `/` and `%` rebuild the value. */
  lemma HexDigitsRebuild(x: int)
    requires 0 <= x < 0x1_0000
    ensures ((x / 4096) % 16 * 16 + (x / 256) % 16) * 16 + (x / 16) % 16 == x / 16
    ensures (x / 16) % 16 * 16 + x % 16 == x % 256
    ensures (x / 16) * 16 + x % 16 == x
  {
    var y := x / 16;
    LowDigit(x);
    LowDigit(y);
    LowDigit(y / 16);
    assert x / 256 == y / 16 && x / 4096 == y / 256 by {
      Shift16(x);
      Shift16(y);
    }
    assert y / 256 == (y / 16) / 16 by {
      Shift16(y);
    }
    assert y / 256 < 16;
    assert x % 256 == (y % 16) * 16 + x % 16 by {
      LowByte(x);
    }
  }

  /** The last hexadecimal digit splits off. */
  lemma LowDigit(x: int)
    requires 0 <= x
    ensures (x / 16) * 16 + x % 16 == x && 0 <= x % 16 < 16
  {
  }

  /** Dropping one more digit. */
  lemma Shift16(x: int)
    requires 0 <= x
    ensures x / 256 == (x / 16) / 16
    ensures x / 4096 == (x / 256) / 16
  {
  }

  /** The low byte is the two last digits. */
  lemma LowByte(x: int)
    requires 0 <= x
    ensures x % 256 == ((x / 16) % 16) * 16 + x % 16
  {
  }

  /** Numeric references are made of `&`, `#`, `x`, hex digits and `;`. */
  lemma HexRefsNoMarkup(c: JChar)
    ensures forall k :: 0 <= k < |HexRef2(c)| ==> !IsMarkupChar(HexRef2(c)[k])
    ensures forall k :: 0 <= k < |HexRef4(c)| ==> !IsMarkupChar(HexRef4(c)[k])
  {
  }

  /** A two-digit reference is read back as its character. */
  lemma DecodeHexRef2(c: JChar, rest: JString)
    requires c < 256
    ensures DecodeAt(HexRef2(c) + rest) == (c, 6)
  {
    var s := HexRef2(c) + rest;
    assert s[0] == AMP && s[1] == HASH && s[2] == LETTER_X && s[5] == ENTITY_END;
    assert s[3] == HexDigit((c as int / 16) % 16) && s[4] == HexDigit(c as int % 16);
    assert s[1] != Str("&quot;")[1] && s[1] != Str("&amp;")[1] && s[1] != Str("&apos;")[1];
    assert s[1] != Str("&lt;")[1] && s[1] != Str("&gt;")[1];
    HexDigitsRebuild(c as int);
  }

  /** A four-digit reference is read back as its character. */
  lemma DecodeHexRef4(c: JChar, rest: JString)
    ensures DecodeAt(HexRef4(c) + rest) == (c, 8)
  {
    var s := HexRef4(c) + rest;
    assert s[0] == AMP && s[1] == HASH && s[2] == LETTER_X && s[7] == ENTITY_END;
    assert s[3] == HexDigit((c as int / 4096) % 16) && s[4] == HexDigit((c as int / 256) % 16);
    assert s[5] == HexDigit((c as int / 16) % 16) && s[6] == HexDigit(c as int % 16);
    assert s[1] != Str("&quot;")[1] && s[1] != Str("&amp;")[1] && s[1] != Str("&apos;")[1];
    assert s[1] != Str("&lt;")[1] && s[1] != Str("&gt;")[1];
    assert IsHexDigit(s[5]) && s[5] != ENTITY_END;
    HexDigitsRebuild(c as int);
  }
}
