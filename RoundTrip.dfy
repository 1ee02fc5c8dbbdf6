/** Serializing a value and parsing the result gives the value back: the promise that one
    processor tree describes both directions. It holds for processor trees in which the
    children of a dictionary own disjoint tags and aliases (Layout), and for values the
    processors can represent (ConformsAsItem / ConformsOnParent); the conditions spell
    out which values are lost on the way and why. */
module RoundTrip {
  import opened Base
  import opened Text
  import opened Values
  import opened ElementTree
  import opened Processors
  import opened Parsing
  import opened ParsingFacts
  import opened Serialization
  import opened SerializationFacts
  import opened Document

  /** The tag of the children a processor writes into its parent and reads back: its
      element name, the wrapper of a nested array, the items' tag for an embedded one. */
  function ClaimTag(p: Processor): string {
    match p
    case Array(item, _, nested, _) =>
      if nested.Some? then nested.value
      else if ElementName(item).Some? then ElementName(item).value
      else ""
    case _ => p.elementName
  }

  /** No processor reads or writes its parent itself (the path "."), a nested array's
      wrapper name is neither "" nor ".", an embedded array's items are not arrays (so
      they have an element name), and the children of every dictionary claim pairwise
      distinct tags and aliases. */
  predicate Layout(p: Processor)
    decreases p, 1
  {
    match p
    case Primitive(name, _, _, _, _, _, _) => name != "."
    case Dictionary(name, children, _, _) => name != "." && FieldsLayout(children)
    case Aggregate(name, _, children, _, _) => name != "." && FieldsLayout(children)
    case Array(item, _, nested, _) =>
      && Layout(item)
      && (nested.Some? ==> nested.value != "" && nested.value != ".")
      && (nested.None? ==> !item.Array?)
  }

  predicate FieldsLayout(children: seq<Processor>)
    decreases children, 0
  {
    && (forall i :: 0 <= i < |children| ==> Layout(children[i]))
    && (forall i, j :: 0 <= i < j < |children| ==>
          ClaimTag(children[i]) != ClaimTag(children[j])
          && Alias(children[i]) != Alias(children[j]))
  }

  /** The parser reads back what str() wrote: a bool, an int, or a string that survives
      the parser's whitespace stripping. */
  predicate TextRoundTrips(kind: PrimitiveKind, v: Value) {
    match kind
    case BooleanKind => v.VBool?
    case IntegerKind => v.VInt?
    case StringKind(strip) => v.VStr? && (strip ==> Strip(StrBlanks, v.s) == v.s)
  }

  /** A primitive value that is written survives: its text reads back, and an empty
      string written to an attribute (which reads as absent) is the default. */
  predicate WrittenConforms(p: Processor, v: Value)
    requires p.Primitive?
  {
    && TextRoundTrips(p.kind, v)
    && (Truthy(p.attribute) && v == VStr("") ==> !p.required && p.default == v)
  }

  /** Values that survive serialize followed by parse_at_element. */
  predicate ConformsAsItem(p: Processor, v: Value)
    decreases p, 1
  {
    match p
    case Primitive(_, _, _, _, _, _, _) => WrittenConforms(p, v)
    case Dictionary(_, children, required, _) => DictConforms(children, required, v)
    case Aggregate(_, conv, children, required, _) =>
      && conv.toDict(v).Some? && conv.fromDict(conv.toDict(v).value) == Some(v)
      && DictConforms(children, required, conv.toDict(v).value)
    case Array(_, _, nested, _) => nested.Some? && ItemsConform(p, v)
  }

  /** Values that survive serialize_on_parent followed by parse_from_parent. An omitted
      primitive reads back as its default, an omitted dictionary as {}. */
  predicate ConformsOnParent(p: Processor, v: Value)
    decreases p, 1
  {
    match p
    case Primitive(_, _, _, _, _, _, _) =>
      if Falsy(v) && OmitEmpty(p) then v == p.default else WrittenConforms(p, v)
    case Dictionary(_, children, required, _) => DictConformsOnParent(children, required, v)
    case Aggregate(_, conv, children, required, _) =>
      && conv.toDict(v).Some? && conv.fromDict(conv.toDict(v).value) == Some(v)
      && DictConformsOnParent(children, required, conv.toDict(v).value)
    case Array(_, _, _, _) => ItemsConform(p, v)
  }

  predicate ItemsConform(p: Processor, v: Value)
    requires p.Array?
    decreases p, 0
  {
    && v.VList?
    && (v.items == [] ==> !Required(p))
    && forall k :: 0 <= k < |v.items| ==> ConformsAsItem(p.item, v.items[k])
  }

  predicate DictConforms(children: seq<Processor>, required: bool, v: Value)
    decreases children, 2
  {
    && v.VDict? && v.fields.Keys == Aliases(children)
    && !(Falsy(v) && required)
    && forall i :: 0 <= i < |children| ==>
         ConformsOnParent(children[i], v.fields[Alias(children[i])])
  }

  predicate DictConformsOnParent(children: seq<Processor>, required: bool, v: Value)
    decreases children, 3
  {
    if Falsy(v) then !required && v == VDict(map[]) else DictConforms(children, required, v)
  }

  /** _parse_boolean, _parse_int and _parse_string read back what str() wrote. */
  lemma TextRoundTrip(kind: PrimitiveKind, v: Value)
    requires TextRoundTrips(kind, v)
    ensures ParseText(kind, Some(PyStr(v))) == Ok(v)
  {
    match kind
    case BooleanKind => BooleanRoundTrip(v.b);
    case IntegerKind => IntRoundTrip(v.i);
    case StringKind(_) =>
  }

  /** What a processor reads from a parent depends only on the parent's children that
      carry its tag. */
  lemma ParseLocal(c: Processor, a: Element, b: Element)
    requires Layout(c)
    requires TagFilter(a.children, ClaimTag(c)) == TagFilter(b.children, ClaimTag(c))
    ensures ParseFromParent(c, a) == ParseFromParent(c, b)
  {
    match c
    case Array(_, _, nested, _) =>
      if nested.Some? {
        FindLocal(a, b, nested.value);
      }
    case _ => FindLocal(a, b, c.elementName);
  }

  /** Appending elements that all carry one tag changes the children with that tag only. */
  lemma AppendTagged(before: seq<Element>, added: seq<Element>, tag: string)
    requires forall k :: 0 <= k < |added| ==> added[k].tag == tag
    ensures TagFilter(before + added, tag) == TagFilter(before, tag) + added
    ensures forall t :: t != tag ==> TagFilter(before + added, t) == TagFilter(before, t)
  {
    TagFilterAppend(before, added, tag);
    TagFilterAll(added, tag);
    forall t | t != tag
      ensures TagFilter(before + added, t) == TagFilter(before, t)
    {
      TagFilterAppend(before, added, t);
      TagFilterNone(added, t);
    }
  }

  /** Get-or-add on a parent without a child of that tag appends a fresh element, and
      what is written into it is then the child find() returns. */
  lemma GetOrAddFresh(parent: Element, name: string, e: Element)
    requires name != "." && TagFilter(parent.children, name) == [] && e.tag == name
    ensures GetOrAdd(parent, name).1 == Child(|parent.children|)
    ensures At(GetOrAdd(parent, name).0, GetOrAdd(parent, name).1) == NewElement(name)
    ensures Replace(GetOrAdd(parent, name).0, GetOrAdd(parent, name).1, e)
            == parent.(children := parent.children + [e])
    ensures Find(parent.(children := parent.children + [e]), name) == Some(e)
  {
    FindIsFirstOfFindAll(parent.children, name);
    var (np, loc) := GetOrAdd(parent, name);
    assert np.children[|parent.children| := e] == parent.children + [e];
    var r := parent.(children := parent.children + [e]);
    AppendTagged(parent.children, [e], name);
    FindIsFirstOfFindAll(r.children, name);
  }

  /** serialize succeeds, builds an element carrying the processor's tag, and
      parse_at_element on that element gives the value back. */
  ghost predicate BuiltAndReadBack(p: Processor, v: Value) {
    && Serialize(p, v).Ok?
    && Serialize(p, v).value.tag == ClaimTag(p)
    && ParseAtElement(p, Some(Serialize(p, v).value)) == Ok(v)
  }

  /** serialize, then parse_at_element on the element it built, gives the value back. */
  lemma RoundTripItem(p: Processor, v: Value)
    requires Layout(p) && ConformsAsItem(p, v)
    ensures Serialize(p, v).Ok?
    ensures Serialize(p, v).value.tag == ClaimTag(p)
    ensures ParseAtElement(p, Some(Serialize(p, v).value)) == Ok(v)
    decreases p, 1
  {
    match p
    case Primitive(_, kind, _, _, _, _, _) =>
      TextRoundTrip(kind, v);
    case Dictionary(_, _, _, _) => RoundTripItemDictionary(p, v);
    case Aggregate(_, _, _, _, _) => RoundTripItemDictionary(p, v);
    case Array(_, _, _, _) => RoundTripItemArray(p, v);
  }

  lemma RoundTripItemDictionary(p: Processor, v: Value)
    requires (p.Dictionary? || p.Aggregate?) && Layout(p) && ConformsAsItem(p, v)
    ensures BuiltAndReadBack(p, v)
    decreases p, 0
  {
    var name := p.elementName;
    var d := if p.Aggregate? then p.converter.toDict(v).value else v;
    RoundTripFields(p.children, NewElement(name), d);
    var r := SerializeFields(p.children, NewElement(name), d).value;
    ParseFieldsAll(p.children, r, d.fields);
    assert Serialize(p, v) == Ok(r);
    assert ParseDictionary(p.children, p.required, Some(r)) == Ok(d);
  }

  lemma RoundTripItemArray(p: Processor, v: Value)
    requires p.Array? && Layout(p) && ConformsAsItem(p, v)
    ensures BuiltAndReadBack(p, v)
    decreases p, 0
  {
    var w := NewElement(p.nested.value);
    if !Falsy(v) {
      RoundTripItems(p.item, w, v.items);
      var r := AppendItems(p.item, w, v.items).value;
      assert r.children[|w.children|..] == r.children;
      assert Serialize(p, v) == Ok(r);
      assert ParseItems(p.item, r.children) == Ok(v.items);
    } else {
      assert v == VList([]);
      assert Serialize(p, v) == Ok(w);
      assert ParseItems(p.item, w.children) == Ok([]);
    }
  }

  /** The item loop writes one element per value, tagged for the item processor, and
      parsing those elements gives the values back in order. */
  lemma RoundTripItems(item: Processor, parent: Element, vs: seq<Value>)
    requires Layout(item)
    requires forall k :: 0 <= k < |vs| ==> ConformsAsItem(item, vs[k])
    ensures AppendItems(item, parent, vs).Ok?
    ensures var r := AppendItems(item, parent, vs).value;
            var es := r.children[|parent.children|..];
            && r == parent.(children := r.children)
            && |es| == |vs|
            && r.children == parent.children + es
            && (forall k :: 0 <= k < |es| ==> es[k].tag == ClaimTag(item))
            && ParseItems(item, es) == Ok(vs)
    decreases item, 2
  {
    forall k | 0 <= k < |vs|
      ensures BuiltAndReadBack(item, vs[k])
    {
      RoundTripItem(item, vs[k]);
    }
    ItemsReadBack(item, parent, vs);
  }

  /** The item loop over values that each survive on their own. */
  lemma ItemsReadBack(item: Processor, parent: Element, vs: seq<Value>)
    requires forall k :: 0 <= k < |vs| ==> BuiltAndReadBack(item, vs[k])
    ensures AppendItems(item, parent, vs).Ok?
    ensures var r := AppendItems(item, parent, vs).value;
            var es := r.children[|parent.children|..];
            && r == parent.(children := r.children)
            && |es| == |vs|
            && r.children == parent.children + es
            && (forall k :: 0 <= k < |es| ==> es[k].tag == ClaimTag(item))
            && ParseItems(item, es) == Ok(vs)
  {
    assert AppendItems(item, parent, vs).Ok? by {
      forall k | 0 <= k < |vs|
        ensures Serialize(item, vs[k]).Ok?
      {
        assert BuiltAndReadBack(item, vs[k]);
      }
      AppendItemsOk(item, parent, vs);
    }
    AppendedElements(item, parent, vs);
    var r := AppendItems(item, parent, vs).value;
    var n := |parent.children|;
    var es := r.children[n..];
    ElementsReadBack(item, vs, es);
  }

  /** What a successful item loop leaves: the parent with the serialized items appended,
      as one slice after the old children. */
  lemma AppendedElements(item: Processor, parent: Element, vs: seq<Value>)
    requires AppendItems(item, parent, vs).Ok?
    ensures var r := AppendItems(item, parent, vs).value;
            var es := r.children[|parent.children|..];
            && r == parent.(children := r.children)
            && |es| == |vs|
            && r.children == parent.children + es
            && forall k :: 0 <= k < |vs| ==> Serialize(item, vs[k]) == Ok(es[k])
  {
    AppendItemsShape(item, parent, vs);
    var r := AppendItems(item, parent, vs).value;
    var n := |parent.children|;
    var es := r.children[n..];
    assert r.children == parent.children + es by {
      assert r.children == r.children[..n] + es;
    }
    forall k | 0 <= k < |vs|
      ensures Serialize(item, vs[k]) == Ok(es[k])
    {
      assert es[k] == r.children[n + k];
    }
  }

  /** The elements serialize built for the values carry the item's tag and parse back to
      the values, in order. */
  lemma ElementsReadBack(item: Processor, vs: seq<Value>, es: seq<Element>)
    requires |es| == |vs|
    requires forall k :: 0 <= k < |vs| ==> BuiltAndReadBack(item, vs[k])
    requires forall k :: 0 <= k < |vs| ==> Serialize(item, vs[k]) == Ok(es[k])
    ensures forall k :: 0 <= k < |es| ==> es[k].tag == ClaimTag(item)
    ensures ParseItems(item, es) == Ok(vs)
  {
    forall k | 0 <= k < |es|
      ensures es[k].tag == ClaimTag(item) && ParseAtElement(item, Some(es[k])) == Ok(vs[k])
    {
      assert BuiltAndReadBack(item, vs[k]);
    }
    ParseItemsSpec(item, es);
    assert ParseItems(item, es).value == vs;
  }

  /** The dictionary loop: each child, serialized in order onto e, reads its own value
      back from the final element, and children with tags no child claims are left as
      they were. */
  lemma {:induction false} RoundTripFields(children: seq<Processor>, e: Element, v: Value)
    requires FieldsLayout(children)
    requires v.VDict?
    requires forall i :: 0 <= i < |children| ==>
               Alias(children[i]) in v.fields
               && ConformsOnParent(children[i], v.fields[Alias(children[i])])
    requires forall i :: 0 <= i < |children| ==> TagFilter(e.children, ClaimTag(children[i])) == []
    ensures SerializeFields(children, e, v).Ok?
    ensures var r := SerializeFields(children, e, v).value;
            && r == e.(children := r.children)
            && (forall t :: (forall i :: 0 <= i < |children| ==> ClaimTag(children[i]) != t)
                  ==> TagFilter(r.children, t) == TagFilter(e.children, t))
            && forall i :: 0 <= i < |children| ==>
                 ParseFromParent(children[i], r) == Ok(v.fields[Alias(children[i])])
    decreases children, 3
  {
    if children != [] {
      var c := children[0];
      var rest := children[1..];
      var v0 := v.fields[Alias(c)];
      RoundTripOnParent(c, e, v0);
      var r0 := SerializeOnParent(c, e, v0).value;
      assert forall i :: 0 <= i < |rest| ==> rest[i] == children[i + 1];
      assert forall i :: 0 <= i < |rest| ==> ClaimTag(rest[i]) != ClaimTag(c);
      RoundTripFields(rest, r0, v);
      var r := SerializeFields(rest, r0, v).value;
      ParseLocal(c, r, r0);
    }
  }

  /** serialize_on_parent succeeds, leaves the parent's own tag, text and attributes and
      its children of every other tag as they were, and parse_from_parent on the result
      gives the value back. */
  ghost predicate WrittenAndReadBack(p: Processor, parent: Element, v: Value) {
    && SerializeOnParent(p, parent, v).Ok?
    && var r := SerializeOnParent(p, parent, v).value;
       && r == parent.(children := r.children)
       && (forall t :: t != ClaimTag(p) ==> TagFilter(r.children, t) == TagFilter(parent.children, t))
       && ParseFromParent(p, r) == Ok(v)
  }

  /** serialize_on_parent, onto a parent without children of the processor's tag, then
      parse_from_parent gives the value back; the parent's own tag, text and attributes,
      and its children of every other tag, are left as they were. */
  lemma RoundTripOnParent(p: Processor, parent: Element, v: Value)
    requires Layout(p) && ConformsOnParent(p, v)
    requires TagFilter(parent.children, ClaimTag(p)) == []
    ensures SerializeOnParent(p, parent, v).Ok?
    ensures var r := SerializeOnParent(p, parent, v).value;
            && r == parent.(children := r.children)
            && (forall t :: t != ClaimTag(p) ==> TagFilter(r.children, t) == TagFilter(parent.children, t))
            && ParseFromParent(p, r) == Ok(v)
    decreases p, 3
  {
    match p
    case Primitive(_, _, _, _, _, _, _) => RoundTripOnParentPrimitive(p, parent, v);
    case Dictionary(_, _, _, _) => RoundTripOnParentDictionary(p, parent, v);
    case Aggregate(_, _, _, _, _) => RoundTripOnParentDictionary(p, parent, v);
    case Array(_, _, nested, _) =>
      if nested.Some? {
        RoundTripOnParentNested(p, parent, v);
      } else {
        RoundTripOnParentEmbedded(p, parent, v);
      }
  }

  lemma RoundTripOnParentPrimitive(p: Processor, parent: Element, v: Value)
    requires p.Primitive? && Layout(p) && ConformsOnParent(p, v)
    requires TagFilter(parent.children, ClaimTag(p)) == []
    ensures WrittenAndReadBack(p, parent, v)
    decreases p, 2
  {
    FindIsFirstOfFindAll(parent.children, p.elementName);
    if !(Falsy(v) && OmitEmpty(p)) {
      RoundTripItem(p, v);
      var e := Serialize(p, v).value;
      GetOrAddFresh(parent, p.elementName, e);
      AppendTagged(parent.children, [e], p.elementName);
    }
  }

  lemma RoundTripOnParentDictionary(p: Processor, parent: Element, v: Value)
    requires (p.Dictionary? || p.Aggregate?) && Layout(p) && ConformsOnParent(p, v)
    requires TagFilter(parent.children, ClaimTag(p)) == []
    ensures WrittenAndReadBack(p, parent, v)
    decreases p, 2
  {
    FindIsFirstOfFindAll(parent.children, p.elementName);
    var d := if p.Aggregate? then p.converter.toDict(v).value else v;
    if !Falsy(d) {
      RoundTripItem(p, v);
      var e := Serialize(p, v).value;
      GetOrAddFresh(parent, p.elementName, e);
      AppendTagged(parent.children, [e], p.elementName);
      assert SerializeOnParent(p, parent, v) == Ok(parent.(children := parent.children + [e]));
    } else {
      assert d == VDict(map[]) && !p.required;
      assert SerializeOnParent(p, parent, v) == Ok(parent);
      assert Find(parent, p.elementName).None?;
      assert ParseFromParent(p, parent) == ParseAtElement(p, None);
      assert ParseDictionary(p.children, p.required, None) == Ok(d);
    }
  }

  lemma RoundTripOnParentNested(p: Processor, parent: Element, v: Value)
    requires p.Array? && p.nested.Some? && Layout(p) && ConformsOnParent(p, v)
    requires TagFilter(parent.children, ClaimTag(p)) == []
    ensures WrittenAndReadBack(p, parent, v)
    decreases p, 2
  {
    var w := p.nested.value;
    FindIsFirstOfFindAll(parent.children, w);
    if !(Falsy(v) && OmitEmpty(p)) {
      RoundTripItem(p, v);
      var e := Serialize(p, v).value;
      GetOrAddFresh(parent, w, e);
      AppendTagged(parent.children, [e], w);
    }
  }

  lemma RoundTripOnParentEmbedded(p: Processor, parent: Element, v: Value)
    requires p.Array? && p.nested.None? && Layout(p) && ConformsOnParent(p, v)
    requires TagFilter(parent.children, ClaimTag(p)) == []
    ensures WrittenAndReadBack(p, parent, v)
    decreases p, 2
  {
    if !Falsy(v) {
      RoundTripItems(p.item, parent, v.items);
      var r := AppendItems(p.item, parent, v.items).value;
      var es := r.children[|parent.children|..];
      assert ClaimTag(p.item) == ClaimTag(p);
      AppendTagged(parent.children, es, ClaimTag(p));
      assert FindAll(r, ClaimTag(p)) == es;
    } else {
      assert v == VList([]);
      assert SerializeOnParent(p, parent, v) == Ok(parent);
      assert FindAll(parent, ClaimTag(p)) == [];
      assert ParseItems(p.item, []) == Ok([]);
    }
  }

  /** The document round trip: serialize_to_string followed by parse_from_string, on the
      element tree, gives the value back for every root processor and value above (the
      root tag carrying no namespace separator). */
  lemma DocumentRoundTrip(p: Processor, v: Value)
    requires IsValidRootProcessor(p) && Layout(p) && ConformsAsItem(p, v)
    requires '}' !in ClaimTag(p)
    ensures SerializeDocument(p, v).Ok?
    ensures ParseDocument(p, SerializeDocument(p, v).value) == Ok(v)
  {
    RoundTripItem(p, v);
  }

  /** Why WrittenConforms excludes it: a required attribute holding "" is written, but
      reads back as missing. */
  lemma EmptyRequiredAttributeIsLost(parent: Element)
    requires TagFilter(parent.children, "user") == []
    ensures var p := String("user", attribute := Some("name"));
            && SerializeOnParent(p, parent, VStr("")).Ok?
            && ParseFromParent(p, SerializeOnParent(p, parent, VStr("")).value)
               == Err(MissingValue)
  {
    var p := String("user", attribute := Some("name"));
    var e := Serialize(p, VStr("")).value;
    GetOrAddFresh(parent, "user", e);
  }
}
