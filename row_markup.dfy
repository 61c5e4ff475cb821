/** The `<T a="v" ... />` element that worker/TableRowBuilder.java and
    worker/dataset/TableRow.java both write: the table name, then one
    attribute per column in order, each value passed through the
    replace-chain escape, then ` />`. */
module RowMarkup {
  import opened JavaText
  import opened XmlEscaping
  import opened ReplaceEscaping

  const ATTR_OPEN: JString := Str("=\"")
  const ROW_CLOSE: JString := Str(" />")
  const SPACE: JChar := ' ' as int as JChar

  /** ` name="escaped value"`: only the value is escaped. */
  function Attribute(name: JString, value: JString): (r: JString)
  {
    [SPACE] + name + ATTR_OPEN + ChainEscape(value) + [QUOT]
  }

  /** The attributes for the first |names| columns; attribute i pairs
      names[i] with values[i]. */
  function Attributes(names: seq<JString>, values: seq<JString>): JString
    requires |values| >= |names|
  {
    if names == [] then []
    else Attributes(names[..|names| - 1], values) + Attribute(names[|names| - 1], values[|names| - 1])
  }

  /** The element for a row of table `tableName`. */
  function RowXml(tableName: JString, names: seq<JString>, values: seq<JString>): JString
    requires |values| >= |names|
  {
    [LT] + tableName + Attributes(names, values) + ROW_CLOSE
  }

  // ---------------------------------------------------------------------
  // Properties

  /** Values beyond the last name are never read. */
  lemma {:induction false} AttributesIgnoreExtraValues(names: seq<JString>, values: seq<JString>, more: seq<JString>)
    requires |values| >= |names|
    ensures Attributes(names, values + more) == Attributes(names, values)
    decreases |names|
  {
    if names != [] {
      AttributesIgnoreExtraValues(names[..|names| - 1], values, more);
      assert (values + more)[|names| - 1] == values[|names| - 1];
    }
  }

  /** Appending the pieces of an attribute one by one appends the attribute. */
  lemma AppendAttribute(prefix: JString, name: JString, value: JString)
    ensures prefix + [SPACE] + name + ATTR_OPEN + ChainEscape(value) + [QUOT]
         == prefix + Attribute(name, value)
  {
  }

  /** Taking one more name adds its attribute at the end. */
  lemma AttributesStep(names: seq<JString>, values: seq<JString>, index: nat)
    requires index < |names| && index < |values|
    ensures Attributes(names[..index + 1], values)
         == Attributes(names[..index], values) + Attribute(names[index], values[index])
  {
    var taken := names[..index + 1];
    assert |taken| == index + 1 && taken[index] == names[index];
    assert taken[..|taken| - 1] == names[..index];
    assert Attributes(taken, values)
        == Attributes(taken[..|taken| - 1], values) + Attribute(taken[|taken| - 1], values[|taken| - 1]);
  }

  /** The same step for the open element `<T` followed by the attributes. */
  lemma OpenRowStep(tableName: JString, names: seq<JString>, values: seq<JString>, index: nat)
    requires index < |names| && index < |values|
    ensures [LT] + tableName + Attributes(names[..index + 1], values)
         == ([LT] + tableName + Attributes(names[..index], values)) + Attribute(names[index], values[index])
  {
    var attrs := Attributes(names[..index], values);
    var attr := Attribute(names[index], values[index]);
    assert Attributes(names[..index + 1], values) == attrs + attr by {
      AttributesStep(names, values, index);
    }
    AppendAssoc([LT] + tableName, attrs, attr);
  }

  /** A row with no columns is `<T />`. */
  lemma RowXmlEmpty(tableName: JString, values: seq<JString>)
    ensures RowXml(tableName, [], values) == [LT] + tableName + ROW_CLOSE
  {
  }

  /** One more column adds exactly its attribute, after the others and
      before ` />`; duplicate names are not merged. */
  lemma RowXmlPush(tableName: JString, names: seq<JString>, values: seq<JString>, name: JString, value: JString)
    requires |values| == |names|
    ensures RowXml(tableName, names + [name], values + [value])
         == [LT] + tableName + Attributes(names, values) + Attribute(name, value) + ROW_CLOSE
  {
    AttributesIgnoreExtraValues(names, values, [value]);
    assert (names + [name])[..|names|] == names;
  }

  /** An attribute opens with ` name="`, closes with `"`, and the escaped
      value between holds no `"`, so the first `"` after `="` ends it. */
  lemma AttributeShape(name: JString, value: JString)
    ensures var a := Attribute(name, value);
            var open := 1 + |name| + 2;
            && |a| == open + |ChainEscape(value)| + 1
            && a[..open] == [SPACE] + name + ATTR_OPEN
            && a[open..|a| - 1] == ChainEscape(value)
            && a[|a| - 1] == QUOT
            && forall k :: open <= k < |a| - 1 ==> a[k] != QUOT
  {
    var v := ChainEscape(value);
    var head := [SPACE] + name + ATTR_OPEN;
    var a := Attribute(name, value);
    assert |head| == 1 + |name| + 2;
    ThreeParts(head, v, [QUOT]);
    forall k | |head| <= k < |a| - 1
      ensures a[k] != QUOT
    {
      assert a[k] == v[k - |head|];
      ChainNoMarkup(value);
    }
  }

  /** The three parts of a concatenation are its slices. */
  lemma ThreeParts<T>(x: seq<T>, y: seq<T>, z: seq<T>)
    ensures (x + y + z)[..|x|] == x
    ensures (x + y + z)[|x|..|x| + |y|] == y
    ensures (x + y + z)[|x| + |y|..] == z
  {
  }
}
