/** escapeControlCharacters(value), which worker/TableRowBuilder.java,
    worker/dataset/TableRow.java and worker/BuildDatasetWorker.java each
    carry a copy of: five String.replace calls, `"` first and `&` second,
    so the `&` of `&quot;` is escaped again. */
module ReplaceEscaping {
  import opened JavaText
  import opened XmlEscaping

  /** String.replace(target, replacement) for a one-character target:
      every occurrence is replaced. */
  function ReplaceChar(s: JString, target: JChar, replacement: JString): (r: JString)
  {
    if s == [] then []
    else ReplaceChar(s[..|s| - 1], target, replacement) + ReplaceOneChar(s[|s| - 1], target, replacement)
  }

  function ReplaceOneChar(c: JChar, target: JChar, replacement: JString): JString
  {
    if c == target then replacement else [c]
  }

  const QUOT_ENTITY: JString := Str("&quot;")
  const AMP_ENTITY: JString := Str("&amp;")
  const APOS_ENTITY: JString := Str("&apos;")
  const LT_ENTITY: JString := Str("&lt;")
  const GT_ENTITY: JString := Str("&gt;")

  /** escapeControlCharacters(value) */
  function ChainEscape(value: JString): JString
  {
    var r1 := ReplaceChar(value, QUOT, QUOT_ENTITY);
    var r2 := ReplaceChar(r1, AMP, AMP_ENTITY);
    var r3 := ReplaceChar(r2, APOS, APOS_ENTITY);
    var r4 := ReplaceChar(r3, LT, LT_ENTITY);
    ReplaceChar(r4, GT, GT_ENTITY)
  }

  /** What the chain does to one character: `"` comes out as
      `&amp;quot;`, the other four as their named entity. */
  function ChainedChar(c: JChar): (r: JString)
  {
    if c == QUOT then Str("&amp;quot;")
    else if IsEscapeableChar(c) then EscapeChar(c).value
    else [c]
  }

  // ---------------------------------------------------------------------
  // Properties

  lemma {:induction false} ReplaceAppend(s: JString, t: JString, target: JChar, replacement: JString)
    ensures ReplaceChar(s + t, target, replacement) == ReplaceChar(s, target, replacement) + ReplaceChar(t, target, replacement)
    decreases |t|
  {
    if t == [] {
      assert s + t == s;
    } else {
      var u := t[..|t| - 1];
      var c := t[|t| - 1];
      assert (s + t)[..|s + t| - 1] == s + u && (s + t)[|s + t| - 1] == c;
      ReplaceAppend(s, u, target, replacement);
      var e := ReplaceOneChar(c, target, replacement);
      calc {
        ReplaceChar(s + t, target, replacement);
        ReplaceChar(s + u, target, replacement) + e;
        (ReplaceChar(s, target, replacement) + ReplaceChar(u, target, replacement)) + e;
        ReplaceChar(s, target, replacement) + (ReplaceChar(u, target, replacement) + e);
      }
    }
  }

  /** Replacing a character the string lacks changes nothing. */
  lemma {:induction false} ReplaceAbsent(s: JString, target: JChar, replacement: JString)
    requires target !in s
    ensures ReplaceChar(s, target, replacement) == s
    decreases |s|
  {
    if s != [] {
      var init := s[..|s| - 1];
      assert target !in init by {
        assert forall k :: 0 <= k < |init| ==> init[k] == s[k];
      }
      ReplaceAbsent(init, target, replacement);
      assert s == init + [s[|s| - 1]];
    }
  }

  lemma ReplaceOne(c: JChar, target: JChar, replacement: JString)
    ensures ReplaceChar([c], target, replacement) == ReplaceOneChar(c, target, replacement)
  {
    assert [c][..0] == [];
  }

  /** The chain works character by character. */
  lemma ChainAppend(s: JString, t: JString)
    ensures ChainEscape(s + t) == ChainEscape(s) + ChainEscape(t)
  {
    var s1 := ReplaceChar(s, QUOT, QUOT_ENTITY);
    var t1 := ReplaceChar(t, QUOT, QUOT_ENTITY);
    ReplaceAppend(s, t, QUOT, QUOT_ENTITY);
    var s2 := ReplaceChar(s1, AMP, AMP_ENTITY);
    var t2 := ReplaceChar(t1, AMP, AMP_ENTITY);
    ReplaceAppend(s1, t1, AMP, AMP_ENTITY);
    var s3 := ReplaceChar(s2, APOS, APOS_ENTITY);
    var t3 := ReplaceChar(t2, APOS, APOS_ENTITY);
    ReplaceAppend(s2, t2, APOS, APOS_ENTITY);
    var s4 := ReplaceChar(s3, LT, LT_ENTITY);
    var t4 := ReplaceChar(t3, LT, LT_ENTITY);
    ReplaceAppend(s3, t3, LT, LT_ENTITY);
    ReplaceAppend(s4, t4, GT, GT_ENTITY);
  }

  // The entities spelled out as displays, so that membership in them is
  // a plain disjunction.

  const A: JChar := 'a' as int as JChar
  const M: JChar := 'm' as int as JChar
  const P: JChar := 'p' as int as JChar
  const Q: JChar := 'q' as int as JChar
  const U: JChar := 'u' as int as JChar
  const O: JChar := 'o' as int as JChar
  const T: JChar := 't' as int as JChar
  const S: JChar := 's' as int as JChar
  const L: JChar := 'l' as int as JChar
  const G: JChar := 'g' as int as JChar

  lemma SpellAmp()
    ensures AMP_ENTITY == [AMP, A, M, P, ENTITY_END]
  {
  }

  lemma SpellQuot()
    ensures QUOT_ENTITY == [AMP, Q, U, O, T, ENTITY_END]
  {
  }

  lemma SpellDoubleQuot()
    ensures Str("&amp;quot;") == [AMP, A, M, P, ENTITY_END, Q, U, O, T, ENTITY_END]
  {
  }

  lemma SpellOthers()
    ensures APOS_ENTITY == [AMP, A, P, O, S, ENTITY_END]
    ensures LT_ENTITY == [AMP, L, T, ENTITY_END]
    ensures GT_ENTITY == [AMP, G, T, ENTITY_END]
  {
  }

  /** The chain applied to `"`: the `&` of `&quot;` is escaped again. */
  lemma ChainQuote()
    ensures ChainEscape([QUOT]) == Str("&amp;quot;")
  {
    var tail := [Q, U, O, T, ENTITY_END];
    var r1 := ReplaceChar([QUOT], QUOT, QUOT_ENTITY);
    assert r1 == [AMP] + tail by {
      ReplaceOne(QUOT, QUOT, QUOT_ENTITY);
      SpellQuot();
    }
    var r2 := ReplaceChar(r1, AMP, AMP_ENTITY);
    assert r2 == [AMP, A, M, P, ENTITY_END] + tail by {
      ReplaceAppend([AMP], tail, AMP, AMP_ENTITY);
      ReplaceOne(AMP, AMP, AMP_ENTITY);
      ReplaceAbsent(tail, AMP, AMP_ENTITY);
      SpellAmp();
    }
    assert ReplaceChar(r2, APOS, APOS_ENTITY) == r2 by {
      ReplaceAbsent(r2, APOS, APOS_ENTITY);
    }
    assert ReplaceChar(r2, LT, LT_ENTITY) == r2 by {
      ReplaceAbsent(r2, LT, LT_ENTITY);
    }
    assert ReplaceChar(r2, GT, GT_ENTITY) == r2 by {
      ReplaceAbsent(r2, GT, GT_ENTITY);
    }
    assert r2 == Str("&amp;quot;") by {
      SpellDoubleQuot();
    }
  }

  /** The chain applied to a character that is not `"`. */
  lemma ChainOther(c: JChar)
    requires c != QUOT
    ensures ChainEscape([c]) == ChainedChar(c)
  {
    if c == AMP {
      ChainAmp();
    } else if c == APOS {
      ChainSingleEntity(APOS, [AMP, A, P, O, S, ENTITY_END]);
    } else if c == LT {
      ChainSingleEntity(LT, [AMP, L, T, ENTITY_END]);
    } else if c == GT {
      ChainSingleEntity(GT, [AMP, G, T, ENTITY_END]);
    } else {
      ReplaceAbsent([c], QUOT, QUOT_ENTITY);
      ReplaceAbsent([c], AMP, AMP_ENTITY);
      ReplaceAbsent([c], APOS, APOS_ENTITY);
      ReplaceAbsent([c], LT, LT_ENTITY);
      ReplaceAbsent([c], GT, GT_ENTITY);
    }
  }

  /** `&` comes out as `&amp;` and is left alone by the later steps. */
  lemma ChainAmp()
    ensures ChainEscape([AMP]) == ChainedChar(AMP)
  {
    var e: JString := [AMP, A, M, P, ENTITY_END];
    var r1 := ReplaceChar([AMP], QUOT, QUOT_ENTITY);
    assert r1 == [AMP] by {
      ReplaceAbsent([AMP], QUOT, QUOT_ENTITY);
    }
    var r2 := ReplaceChar(r1, AMP, AMP_ENTITY);
    assert r2 == e by {
      ReplaceOne(AMP, AMP, AMP_ENTITY);
      SpellAmp();
    }
    var r3 := ReplaceChar(r2, APOS, APOS_ENTITY);
    assert r3 == e by {
      ReplaceAbsent(e, APOS, APOS_ENTITY);
    }
    var r4 := ReplaceChar(r3, LT, LT_ENTITY);
    assert r4 == e by {
      ReplaceAbsent(e, LT, LT_ENTITY);
    }
    assert ReplaceChar(r4, GT, GT_ENTITY) == e by {
      ReplaceAbsent(e, GT, GT_ENTITY);
    }
    ChainedAmpSpelled();
  }

  lemma ChainedAmpSpelled()
    ensures ChainedChar(AMP) == [AMP, A, M, P, ENTITY_END]
  {
    SpellAmp();
  }

  /** `'`, `<` and `>` come out as their entity `e`, which the later steps
      leave alone. */
  lemma ChainSingleEntity(c: JChar, e: JString)
    requires || (c == APOS && e == [AMP, A, P, O, S, ENTITY_END])
             || (c == LT && e == [AMP, L, T, ENTITY_END])
             || (c == GT && e == [AMP, G, T, ENTITY_END])
    ensures ChainEscape([c]) == ChainedChar(c)
  {
    SpellOthers();
    assert ChainedChar(c) == e;
    ReplaceAbsent([c], QUOT, QUOT_ENTITY);
    ReplaceAbsent([c], AMP, AMP_ENTITY);
    ReplaceOne(c, APOS, APOS_ENTITY);
    var r3 := ReplaceChar([c], APOS, APOS_ENTITY);
    ReplaceOne(c, LT, LT_ENTITY);
    if c == APOS {
      ReplaceAbsent(e, LT, LT_ENTITY);
      ReplaceAbsent(e, GT, GT_ENTITY);
    } else {
      assert r3 == [c];
      var r4 := ReplaceChar([c], LT, LT_ENTITY);
      ReplaceOne(c, GT, GT_ENTITY);
      if c == LT {
        ReplaceAbsent(e, GT, GT_ENTITY);
      } else {
        assert r4 == [c];
      }
    }
  }

  /** Characters with no entity pass through the chain unchanged. */
  lemma {:induction false} ChainedPlain(s: JString)
    requires forall k :: 0 <= k < |s| ==> !IsEscapeableChar(s[k])
    ensures ConcatMap(ChainedChar, s) == s
  {
    if s != [] {
      ChainedPlain(s[..|s| - 1]);
      assert s[..|s| - 1] + [s[|s| - 1]] == s;
    }
  }

  /** The chain is the per-character map ChainedChar. */
  lemma {:induction false} ChainIsPerChar(s: JString)
    ensures ChainEscape(s) == ConcatMap(ChainedChar, s)
    decreases |s|
  {
    if s == [] {
      assert ReplaceChar([], QUOT, QUOT_ENTITY) == [];
      assert ReplaceChar([], AMP, AMP_ENTITY) == [];
      assert ReplaceChar([], APOS, APOS_ENTITY) == [];
      assert ReplaceChar([], LT, LT_ENTITY) == [];
    } else {
      var init := s[..|s| - 1];
      var c := s[|s| - 1];
      assert s == init + [c];
      ChainAppend(init, [c]);
      ChainIsPerChar(init);
      if c == QUOT {
        ChainQuote();
      } else {
        ChainOther(c);
      }
    }
  }

  /** No `"`, `'`, `<` or `>` survives, so the value cannot end its
      attribute early. */
  lemma ChainNoMarkup(s: JString)
    ensures forall k :: 0 <= k < |ChainEscape(s)| ==> !IsMarkupChar(ChainEscape(s)[k])
  {
    ChainIsPerChar(s);
    ChainedNoMarkup(s);
  }

  lemma {:induction false} ChainedNoMarkup(s: JString)
    ensures forall k :: 0 <= k < |ConcatMap(ChainedChar, s)| ==> !IsMarkupChar(ConcatMap(ChainedChar, s)[k])
    decreases |s|
  {
    if s != [] {
      var init := s[..|s| - 1];
      ChainedNoMarkup(init);
      var a := ConcatMap(ChainedChar, init);
      var b := ChainedChar(s[|s| - 1]);
      assert forall k :: 0 <= k < |b| ==> (a + b)[|a| + k] == b[k];
      assert forall k :: 0 <= k < |b| ==> !IsMarkupChar(b[k]);
    }
  }

  /** What a reader decoding the entities gets back: the value, except
      that each `"` reads as the six characters `&quot;`. */
  lemma ChainDecodes(s: JString)
    ensures Unescape(ChainEscape(s)) == ReplaceChar(s, QUOT, QUOT_ENTITY)
  {
    ChainIsPerChar(s);
    ChainedDecodes(s);
  }

  lemma {:induction false} ChainedDecodes(s: JString)
    ensures Unescape(ConcatMap(ChainedChar, s)) == ReplaceChar(s, QUOT, QUOT_ENTITY)
    decreases |s|
  {
    if s == [] {
    } else {
      var c := s[0];
      var rest := s[1..];
      var tail := ConcatMap(ChainedChar, rest);
      assert ConcatMap(ChainedChar, s) == ChainedChar(c) + tail by {
        assert s == [c] + rest;
        ConcatMapCons(ChainedChar, c, rest);
      }
      assert ReplaceChar(s, QUOT, QUOT_ENTITY) == ReplaceOneChar(c, QUOT, QUOT_ENTITY) + ReplaceChar(rest, QUOT, QUOT_ENTITY) by {
        assert s == [c] + rest;
        ReplaceAppend([c], rest, QUOT, QUOT_ENTITY);
        ReplaceOne(c, QUOT, QUOT_ENTITY);
      }
      DecodeChainedChar(c, tail);
      ChainedDecodes(rest);
    }
  }

  /** One escaped character is read back, `"` as `&quot;`. */
  lemma DecodeChainedChar(c: JChar, tail: JString)
    ensures Unescape(ChainedChar(c) + tail) == ReplaceOneChar(c, QUOT, QUOT_ENTITY) + Unescape(tail)
  {
    if c == QUOT {
      DecodeChainedQuote(tail);
    } else if IsEscapeableChar(c) {
      var e := EscapeChar(c).value;
      DecodeNamed(c, tail);
      assert (e + tail)[|e|..] == tail;
    } else {
      UnescapeRaw(c, tail);
    }
  }

  /** `&amp;quot;` is read back as `&quot;`. */
  lemma DecodeChainedQuote(tail: JString)
    ensures Unescape(ChainedChar(QUOT) + tail) == QUOT_ENTITY + Unescape(tail)
  {
    var quotSemi: JString := [Q, U, O, T, ENTITY_END];
    var rest := quotSemi + tail;
    assert ChainedChar(QUOT) + tail == AMP_ENTITY + rest by {
      SpellDoubleQuot();
      SpellAmp();
      AppendAssoc(AMP_ENTITY, quotSemi, tail);
    }
    assert Unescape(AMP_ENTITY + rest) == [AMP] + Unescape(rest) by {
      DecodeNamed(AMP, rest);
      SpellAmp();
      assert (AMP_ENTITY + rest)[5..] == rest;
    }
    assert Unescape(rest) == quotSemi + Unescape(tail) by {
      DecodeRawRun(quotSemi, tail);
    }
    assert QUOT_ENTITY == [AMP] + quotSemi by {
      SpellQuot();
    }
    AppendAssoc([AMP], quotSemi, Unescape(tail));
  }

  /** A run of characters none of which is `&` is read as it is. */
  lemma {:induction false} DecodeRawRun(raw: JString, tail: JString)
    requires AMP !in raw
    ensures Unescape(raw + tail) == raw + Unescape(tail)
    decreases |raw|
  {
    if raw != [] {
      assert raw[0] in raw;
      assert AMP !in raw[1..] by {
        assert forall k :: 0 <= k < |raw| - 1 ==> raw[1..][k] == raw[k + 1];
      }
      assert raw + tail == [raw[0]] + (raw[1..] + tail);
      UnescapeRaw(raw[0], raw[1..] + tail);
      DecodeRawRun(raw[1..], tail);
      assert [raw[0]] + (raw[1..] + Unescape(tail)) == raw + Unescape(tail);
    } else {
      assert raw + tail == tail;
    }
  }
}
