/** worker/mapper/Utf8StringMapper.java: writes a string column keeping
    every character from U+0020 on. Control characters become two-digit
    numeric references, and the five XML characters become named
    entities. */
module Utf8StringMapping {
  import opened JavaText
  import opened Results
  import opened XmlEscaping

  /** What escapeControl writes for one character. */
  function Utf8EscapeChar(c: JChar): (r: JString)
    ensures r != []
  {
    if c < 32 then HexRef2(c)
    else if IsEscapeableChar(c) then EscapeChar(c).value
    else [c]
  }

  /** escapeControl(value), character by character. */
  function Utf8Escape(s: JString): JString
  {
    ConcatMap(Utf8EscapeChar, s)
  }

  /** escapeControl(value) */
  method EscapeControl(value: JString) returns (r: JString)
    ensures r == Utf8Escape(value)
  {
    var builder: JString := [];
    for i := 0 to |value|
      invariant builder == Utf8Escape(value[..i])
    {
      var ch := value[i];
      assert value[..i + 1][..i] == value[..i];
      if ch < 32 {
        builder := builder + Str("&#x");
        builder := builder + [HexDigit((ch as int / 16) % 16)];
        builder := builder + [HexDigit(ch as int % 16)];
        builder := builder + Str(";");
      } else if ch == QUOT {
        builder := builder + Str("&quot;");
      } else if ch == AMP {
        builder := builder + Str("&amp;");
      } else if ch == APOS {
        builder := builder + Str("&apos;");
      } else if ch == LT {
        builder := builder + Str("&lt;");
      } else if ch == GT {
        builder := builder + Str("&gt;");
      } else {
        builder := builder + [ch];
      }
    }
    assert value[..|value|] == value;
    return builder;
  }

  /** map(resultSet): SQL NULL stays null; any other string is escaped. */
  function MapUtf8(value: Option<JString>): (r: Option<JString>)
    ensures r.None? <==> value.None?
    ensures r.Some? ==> r.value == Utf8Escape(value.value)
  {
    if value.None? then None else Some(Utf8Escape(value.value))
  }

  // ---------------------------------------------------------------------
  // Properties

  /** Escaping works character by character. */
  lemma Utf8EscapeAppend(s: JString, t: JString)
    ensures Utf8Escape(s + t) == Utf8Escape(s) + Utf8Escape(t)
  {
    ConcatMapAppend(Utf8EscapeChar, s, t);
  }

  lemma Utf8CharNoControl(c: JChar)
    ensures forall k :: 0 <= k < |Utf8EscapeChar(c)| ==> Utf8EscapeChar(c)[k] >= 32
  {
  }

  /** No character below U+0020 is written. */
  lemma {:induction false} Utf8EscapeNoControl(s: JString)
    ensures forall k :: 0 <= k < |Utf8Escape(s)| ==> Utf8Escape(s)[k] >= 32
    decreases |s|
  {
    if s != [] {
      var init := s[..|s| - 1];
      var c := s[|s| - 1];
      Utf8EscapeNoControl(init);
      Utf8CharNoControl(c);
      var a := Utf8Escape(init);
      var b := Utf8EscapeChar(c);
      assert forall k :: 0 <= k < |b| ==> (a + b)[|a| + k] == b[k];
    }
  }

  lemma Utf8CharNoMarkup(c: JChar)
    ensures forall k :: 0 <= k < |Utf8EscapeChar(c)| ==> !IsMarkupChar(Utf8EscapeChar(c)[k])
  {
    HexRefsNoMarkup(c);
  }

  /** No raw `"`, `'`, `<` or `>` is written. */
  lemma {:induction false} Utf8EscapeNoMarkup(s: JString)
    ensures forall k :: 0 <= k < |Utf8Escape(s)| ==> !IsMarkupChar(Utf8Escape(s)[k])
    decreases |s|
  {
    if s != [] {
      var init := s[..|s| - 1];
      var c := s[|s| - 1];
      Utf8EscapeNoMarkup(init);
      Utf8CharNoMarkup(c);
      var a := Utf8Escape(init);
      var b := Utf8EscapeChar(c);
      assert forall k :: 0 <= k < |b| ==> (a + b)[|a| + k] == b[k];
    }
  }

  /** Decoding the entities and references gives back the original. */
  lemma {:induction false} Utf8EscapeRoundTrip(s: JString)
    ensures Unescape(Utf8Escape(s)) == s
    decreases |s|
  {
    if s != [] {
      var c := s[0];
      var rest := s[1..];
      assert s == [c] + rest;
      ConcatMapCons(Utf8EscapeChar, c, rest);
      Utf8EscapeRoundTrip(rest);
      var e := Utf8EscapeChar(c);
      var out := e + Utf8Escape(rest);
      if c < 32 {
        DecodeHexRef2(c, Utf8Escape(rest));
      } else if IsEscapeableChar(c) {
        DecodeNamed(c, Utf8Escape(rest));
      }
      assert DecodeAt(out) == (c, |e|);
      assert out[|e|..] == Utf8Escape(rest);
    }
  }

  /** A tab is written `&#x09;`; U+03BC and U+007F are copied. */
  lemma Utf8EscapeExamples()
    ensures Utf8EscapeChar(9 as JChar) == Str("&#x09;")
    ensures Utf8EscapeChar(0x3bc as JChar) == [0x3bc as JChar]
    ensures Utf8EscapeChar(0x7f as JChar) == [0x7f as JChar]
  {
  }
}
