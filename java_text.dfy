/** Java strings as sequences of UTF-16 code units, and the handful of
    java.lang.String / java.lang.Character operations the generator relies on. */
module JavaText {

  /** A Java `char`: an unsigned 16-bit code unit. */
  newtype JChar = x: int | 0 <= x < 0x1_0000

  /** A Java `byte`: signed, -128..127. */
  newtype JByte = x: int | -128 <= x < 128

  /** A Java `String`. */
  type JString = seq<JChar>

  /** Writes a Dafny string literal of Basic Multilingual Plane characters
      as a Java string. */
  function Str(s: string): (r: JString)
    ensures |r| == |s|
    ensures forall i :: 0 <= i < |s| && s[i] as int < 0x1_0000 ==> r[i] as int == s[i] as int
  {
    seq(|s|, i requires 0 <= i < |s| => if s[i] as int < 0x1_0000 then s[i] as int as JChar else 0)
  }

  lemma StrAppend(a: string, b: string)
    ensures Str(a + b) == Str(a) + Str(b)
  {
  }

  /** Concatenation of a sequence of strings, in order. */
  function Concat(parts: seq<JString>): JString
  {
    if parts == [] then [] else parts[0] + Concat(parts[1..])
  }

  lemma {:induction false} ConcatAppend(a: seq<JString>, b: seq<JString>)
    ensures Concat(a + b) == Concat(a) + Concat(b)
  {
    if a == [] {
      assert a + b == b;
    } else {
      assert (a + b)[1..] == a[1..] + b;
      ConcatAppend(a[1..], b);
    }
  }

  /** The strings `f` gives for the elements of `s`, concatenated in order:
      what a StringBuilder loop appending `f(x)` for each `x` builds. */
  function ConcatMap<T>(f: T -> JString, s: seq<T>): JString
  {
    if s == [] then [] else ConcatMap(f, s[..|s| - 1]) + f(s[|s| - 1])
  }

  lemma {:induction false} ConcatMapAppend<T>(f: T -> JString, a: seq<T>, b: seq<T>)
    ensures ConcatMap(f, a + b) == ConcatMap(f, a) + ConcatMap(f, b)
    decreases |b|
  {
    if b == [] {
      assert a + b == a;
    } else {
      var u := b[..|b| - 1];
      assert (a + b)[..|a + b| - 1] == a + u && (a + b)[|a + b| - 1] == b[|b| - 1];
      ConcatMapAppend(f, a, u);
    }
  }

  /** The first element's string comes first. */
  lemma ConcatMapCons<T>(f: T -> JString, x: T, rest: seq<T>)
    ensures ConcatMap(f, [x] + rest) == f(x) + ConcatMap(f, rest)
  {
    ConcatMapAppend(f, [x], rest);
    assert [x][..0] == [];
  }

  /** ConcatMap over three elements, written out. */
  lemma ConcatMapThree<T>(f: T -> JString, x: T, y: T, z: T)
    ensures ConcatMap(f, [x, y, z]) == f(x) + f(y) + f(z)
  {
    assert ConcatMap(f, [x]) == f(x) by {
      assert [x][..0] == [];
      assert [] + f(x) == f(x);
    }
    assert [x, y][..1] == [x];
    assert [x, y, z][..2] == [x, y];
  }

  /** Concatenation regrouped; proved once for any element type so that
      callers need not reason about indices. */
  lemma AppendAssoc<T>(a: seq<T>, b: seq<T>, c: seq<T>)
    ensures (a + b) + c == a + (b + c)
  {
  }

  // ---------------------------------------------------------------------
  // String.trim(): strips every code unit <= U+0020 from both ends.

  predicate IsTrimSpace(c: JChar) { c <= 32 }

  function TrimStart(s: JString): (r: JString)
    ensures |r| <= |s| && r == s[|s| - |r|..]
    ensures r == [] || !IsTrimSpace(r[0])
    ensures forall k :: 0 <= k < |s| - |r| ==> IsTrimSpace(s[k])
  {
    if |s| > 0 && IsTrimSpace(s[0]) then TrimStart(s[1..]) else s
  }

  function TrimEnd(s: JString): (r: JString)
    ensures |r| <= |s| && r == s[..|r|]
    ensures r == [] || !IsTrimSpace(r[|r| - 1])
    ensures forall k :: |r| <= k < |s| ==> IsTrimSpace(s[k])
  {
    if |s| > 0 && IsTrimSpace(s[|s| - 1]) then TrimEnd(s[..|s| - 1]) else s
  }

  /** No leading or trailing code unit <= U+0020. */
  predicate IsTrimmed(s: JString)
  {
    s == [] || (!IsTrimSpace(s[0]) && !IsTrimSpace(s[|s| - 1]))
  }

  /** String.trim(): the result is the middle of `s` left once the spaces
      and control characters at both ends are removed. */
  function Trim(s: JString): (r: JString)
    ensures IsTrimmed(r)
  {
    var t := TrimStart(s);
    var r := TrimEnd(t);
    assert r != [] ==> r[0] == t[0];
    r
  }

  /** What trim() keeps: the contiguous part of `s` left once everything
      cut off, at either end, is a space or control character; it is empty
      exactly when `s` holds nothing else. */
  lemma TrimSpec(s: JString)
    ensures exists i, j :: 0 <= i <= j <= |s| && Trim(s) == s[i..j]
              && (forall k :: 0 <= k < i ==> IsTrimSpace(s[k]))
              && (forall k :: j <= k < |s| ==> IsTrimSpace(s[k]))
    ensures Trim(s) == [] <==> forall k :: 0 <= k < |s| ==> IsTrimSpace(s[k])
  {
    var i, j := TrimCut(s);
    if Trim(s) != [] {
      assert s[i] == Trim(s)[0];
    }
  }

  /** Where trim() cuts `s`, and that only spaces and control characters
      are cut off. */
  lemma TrimCut(s: JString) returns (i: nat, j: nat)
    ensures i <= j <= |s| && Trim(s) == s[i..j]
    ensures forall k :: 0 <= k < i ==> IsTrimSpace(s[k])
    ensures forall k :: j <= k < |s| ==> IsTrimSpace(s[k])
  {
    var t := TrimStart(s);
    var r := TrimEnd(t);
    i := |s| - |t|;
    j := i + |r|;
    assert r == s[i..j] by {
      assert t == s[i..];
      assert r == t[..|r|];
    }
    forall k | j <= k < |s|
      ensures IsTrimSpace(s[k])
    {
      assert s[k] == t[k - i];
    }
  }

  /** trim() leaves a trimmed string as it is. */
  lemma TrimTrimmed(s: JString)
    requires IsTrimmed(s)
    ensures Trim(s) == s
  {
  }

  /** trim() drops a leading space or control character. */
  lemma TrimLeadingSpace(s: JString)
    requires |s| > 0 && IsTrimSpace(s[0])
    ensures Trim(s) == Trim(s[1..])
  {
  }

  // ---------------------------------------------------------------------
  // Line breaks

  const LF: JChar := '\n' as int as JChar
  const CR: JChar := '\r' as int as JChar

  predicate IsLineBreak(c: JChar) { c == LF || c == CR }

  /** Index of the first line break at or after `i`, or |s|. */
  function LineEnd(s: JString, i: nat): (e: nat)
    requires i <= |s|
    ensures i <= e <= |s|
    ensures e < |s| ==> IsLineBreak(s[e])
    ensures forall k :: i <= k < e ==> !IsLineBreak(s[k])
    decreases |s| - i
  {
    if i == |s| || IsLineBreak(s[i]) then i else LineEnd(s, i + 1)
  }

  // ---------------------------------------------------------------------
  // String.startsWith, String.indexOf(char)

  predicate StartsWith(s: JString, prefix: JString)
  {
    |prefix| <= |s| && s[..|prefix|] == prefix
  }

  /** String.indexOf(ch): the first position of `c`, or -1. */
  function IndexOf(s: JString, c: JChar): (r: int)
    ensures -1 <= r < |s|
    ensures r == -1 <==> c !in s
    ensures r >= 0 ==> s[r] == c && c !in s[..r]
  {
    if s == [] then -1
    else if s[0] == c then 0
    else
      var k := IndexOf(s[1..], c);
      assert s == [s[0]] + s[1..];
      if k == -1 then -1 else k + 1
  }

  // ---------------------------------------------------------------------
  // Case mapping restricted to ASCII letters (see README, "Left out").

  predicate IsAsciiUpper(c: JChar) { 'A' as int <= c as int <= 'Z' as int }
  predicate IsAsciiLower(c: JChar) { 'a' as int <= c as int <= 'z' as int }

  function ToLowerChar(c: JChar): JChar
  {
    if IsAsciiUpper(c) then c + 32 else c
  }

  function ToUpperChar(c: JChar): JChar
  {
    if IsAsciiLower(c) then c - 32 else c
  }

  function ToLowerAscii(s: JString): (r: JString)
    ensures |r| == |s|
    ensures forall i :: 0 <= i < |s| ==> r[i] == ToLowerChar(s[i])
  {
    seq(|s|, i requires 0 <= i < |s| => ToLowerChar(s[i]))
  }

  function ToUpperAscii(s: JString): (r: JString)
    ensures |r| == |s|
    ensures forall i :: 0 <= i < |s| ==> r[i] == ToUpperChar(s[i])
  {
    seq(|s|, i requires 0 <= i < |s| => ToUpperChar(s[i]))
  }

  lemma CaseMappingIdempotent(s: JString)
    ensures ToUpperAscii(ToUpperAscii(s)) == ToUpperAscii(s)
    ensures ToLowerAscii(ToLowerAscii(s)) == ToLowerAscii(s)
    ensures forall i :: 0 <= i < |s| ==> !IsAsciiLower(ToUpperAscii(s)[i]) && !IsAsciiUpper(ToLowerAscii(s)[i])
  {
  }

  /** Lower-casing after upper-casing is lower-casing alone. */
  lemma LowerOfUpper(s: JString)
    ensures ToLowerAscii(ToUpperAscii(s)) == ToLowerAscii(s)
  {
    forall i | 0 <= i < |s|
      ensures ToLowerAscii(ToUpperAscii(s))[i] == ToLowerAscii(s)[i]
    {
      assert ToUpperAscii(s)[i] == ToUpperChar(s[i]);
    }
  }

  // ---------------------------------------------------------------------
  // Character.forDigit(d, 16)

  /** The lowercase hexadecimal digit for 0 <= d < 16. */
  function HexDigit(d: int): (c: JChar)
    requires 0 <= d < 16
    ensures IsHexDigit(c) && HexValue(c) == d
  {
    if d < 10 then ('0' as int + d) as JChar else ('a' as int + d - 10) as JChar
  }

  predicate IsHexDigit(c: JChar)
  {
    ('0' as int <= c as int <= '9' as int) || ('a' as int <= c as int <= 'f' as int)
  }

  /** The inverse of HexDigit on the lowercase hexadecimal alphabet. */
  function HexValue(c: JChar): int
    requires IsHexDigit(c)
  {
    if c as int <= '9' as int then c as int - '0' as int else c as int - 'a' as int + 10
  }
}
