/** worker/mapper/AsciiStringMapper.java: writes a string column as pure
    ASCII. Control characters and everything above U+007F become numeric
    references, the five XML characters become named entities, and the
    rest is copied. */
module AsciiStringMapping {
  import opened JavaText
  import opened Results
  import opened XmlEscaping

  /** The characters escapeNonAscii turns into numeric references. */
  predicate IsNonAscii(c: JChar)
  {
    c < 32 || c > 127
  }

  /** What escapeNonAscii writes for one character: two hex digits below
      256, four (zero-padded) from 256 on. */
  function AsciiEscapeChar(c: JChar): (r: JString)
    ensures r != []
  {
    if IsNonAscii(c) then (if c >= 256 then HexRef4(c) else HexRef2(c))
    else if IsEscapeableChar(c) then EscapeChar(c).value
    else [c]
  }

  /** escapeNonAscii(value), character by character. */
  function AsciiEscape(s: JString): JString
  {
    ConcatMap(AsciiEscapeChar, s)
  }

  /** escapeNonAscii(value) */
  method EscapeNonAscii(value: JString) returns (r: JString)
    ensures r == AsciiEscape(value)
  {
    var builder: JString := [];
    for i := 0 to |value|
      invariant builder == AsciiEscape(value[..i])
    {
      var ch := value[i];
      assert value[..i + 1][..i] == value[..i];
      if ch < 32 || ch > 127 {
        builder := builder + Str("&#x");
        if ch >= 256 {
          builder := builder + [HexDigit((ch as int / 4096) % 16)];
          builder := builder + [HexDigit((ch as int / 256) % 16)];
        }
        builder := builder + [HexDigit((ch as int / 16) % 16)];
        builder := builder + [HexDigit(ch as int % 16)];
        builder := builder + Str(";");
      } else if ch == QUOT {
        builder := builder + Str("&quot;");
      } else if ch == AMP {
        builder := builder + Str("&amp;");
      } else if ch == APOS {
        builder := builder + Str("&apos;");
      } else if ch == LT {
        builder := builder + Str("&lt;");
      } else if ch == GT {
        builder := builder + Str("&gt;");
      } else {
        builder := builder + [ch];
      }
    }
    assert value[..|value|] == value;
    return builder;
  }

  /** map(resultSet): SQL NULL stays null (the attribute is left out);
      any other string is escaped. */
  function MapAscii(value: Option<JString>): (r: Option<JString>)
    ensures r.None? <==> value.None?
    ensures r.Some? ==> r.value == AsciiEscape(value.value)
  {
    if value.None? then None else Some(AsciiEscape(value.value))
  }

  // ---------------------------------------------------------------------
  // Properties

  /** Escaping works character by character. */
  lemma AsciiEscapeAppend(s: JString, t: JString)
    ensures AsciiEscape(s + t) == AsciiEscape(s) + AsciiEscape(t)
  {
    ConcatMapAppend(AsciiEscapeChar, s, t);
  }

  /** Every character written is printable ASCII, 32..127. */
  lemma {:induction false} AsciiEscapeIsAscii(s: JString)
    ensures forall k :: 0 <= k < |AsciiEscape(s)| ==> 32 <= AsciiEscape(s)[k] <= 127
    decreases |s|
  {
    if s != [] {
      var init := s[..|s| - 1];
      var c := s[|s| - 1];
      AsciiEscapeIsAscii(init);
      AsciiCharIsAscii(c);
      var a := AsciiEscape(init);
      var b := AsciiEscapeChar(c);
      assert forall k :: 0 <= k < |b| ==> (a + b)[|a| + k] == b[k];
    }
  }

  lemma AsciiCharIsAscii(c: JChar)
    ensures forall k :: 0 <= k < |AsciiEscapeChar(c)| ==> 32 <= AsciiEscapeChar(c)[k] <= 127
  {
  }

  lemma AsciiCharNoMarkup(c: JChar)
    ensures forall k :: 0 <= k < |AsciiEscapeChar(c)| ==> !IsMarkupChar(AsciiEscapeChar(c)[k])
  {
    HexRefsNoMarkup(c);
  }

  /** No raw `"`, `'`, `<` or `>` is written. */
  lemma {:induction false} AsciiEscapeNoMarkup(s: JString)
    ensures forall k :: 0 <= k < |AsciiEscape(s)| ==> !IsMarkupChar(AsciiEscape(s)[k])
    decreases |s|
  {
    if s != [] {
      var init := s[..|s| - 1];
      var c := s[|s| - 1];
      AsciiEscapeNoMarkup(init);
      AsciiCharNoMarkup(c);
      var a := AsciiEscape(init);
      var b := AsciiEscapeChar(c);
      assert forall k :: 0 <= k < |b| ==> (a + b)[|a| + k] == b[k];
    }
  }

  /** Decoding the entities and references gives back the original. */
  lemma {:induction false} AsciiEscapeRoundTrip(s: JString)
    ensures Unescape(AsciiEscape(s)) == s
    decreases |s|
  {
    if s != [] {
      var c := s[0];
      var rest := s[1..];
      assert s == [c] + rest;
      ConcatMapCons(AsciiEscapeChar, c, rest);
      AsciiEscapeRoundTrip(rest);
      var e := AsciiEscapeChar(c);
      var out := e + AsciiEscape(rest);
      if IsNonAscii(c) {
        if c >= 256 {
          DecodeHexRef4(c, AsciiEscape(rest));
        } else {
          DecodeHexRef2(c, AsciiEscape(rest));
        }
      } else if IsEscapeableChar(c) {
        DecodeNamed(c, AsciiEscape(rest));
      }
      assert DecodeAt(out) == (c, |e|);
      assert out[|e|..] == AsciiEscape(rest);
    }
  }

  /** Distinct strings are escaped differently. */
  lemma AsciiEscapeInjective(s: JString, t: JString)
    requires AsciiEscape(s) == AsciiEscape(t)
    ensures s == t
  {
    AsciiEscapeRoundTrip(s);
    AsciiEscapeRoundTrip(t);
  }

  /** U+03BC is written with four digits, `&#x03bc;`; U+00E9 with two,
      `&#xe9;`; U+007F is copied. */
  lemma AsciiEscapeExamples()
    ensures AsciiEscapeChar(0x3bc as JChar) == Str("&#x03bc;")
    ensures AsciiEscapeChar(0xe9 as JChar) == Str("&#xe9;")
    ensures AsciiEscapeChar(0x7f as JChar) == [0x7f as JChar]
  {
  }
}
