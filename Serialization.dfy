/** The serialize side of the processors as functions of the element tree: each call
    takes the tree it writes to and returns the tree it leaves behind (or the error it
    raises). serialize builds a fresh element; serialize_on_parent writes into a parent,
    finding or appending the element it owns with GetOrAdd. */
module Serialization {
  import opened Base
  import opened Values
  import opened ElementTree
  import opened Processors

  /** to_dict: a converter that raises is not an XmlError. */
  function ToDict(conv: Converter, v: Value): (r: Result<Value>)
    ensures r.Err? ==> r.error == Uncaught
    ensures conv.toDict(v).None? ==> r == Err(Uncaught)
    ensures conv.toDict(v).Some? ==> r == Ok(conv.toDict(v).value)
  {
    match conv.toDict(v)
    case None => Err(Uncaught)
    case Some(d) => Ok(d)
  }

  /** The text _PrimitiveValue._serialize writes: str(value), except that a None value is
      replaced by str(default), or by "" when the default is None as well. */
  function PrimitiveText(p: Processor, v: Value): (r: string)
    requires p.Primitive?
    ensures v != VNone ==> r == PyStr(v)
    ensures r == "" <==> v == VStr("") || (v == VNone && (p.default == VNone || p.default == VStr("")))
  {
    PyStrEmpty(v);
    PyStrEmpty(p.default);
    if v == VNone then (if p.default == VNone then "" else PyStr(p.default))
    else PyStr(v)
  }

  /** _PrimitiveValue._serialize: sets the attribute when the processor has one, and the
      element's text otherwise. */
  function WritePrimitive(p: Processor, e: Element, v: Value): (r: Element)
    requires p.Primitive?
    ensures r.tag == e.tag && r.children == e.children
    ensures Truthy(p.attribute) ==>
              r.attrs == e.attrs[p.attribute.value := PrimitiveText(p, v)] && r.text == e.text
    ensures !Truthy(p.attribute) ==> r.attrs == e.attrs && r.text == Some(PrimitiveText(p, v))
  {
    if Truthy(p.attribute) then e.(attrs := e.attrs[p.attribute.value := PrimitiveText(p, v)])
    else e.(text := Some(PrimitiveText(p, v)))
  }

  /** serialize: a new element holding the value. A primitive is written without any
      missing or omit check (it is only ever serialized as an array item); a non-nested
      array has no element of its own to create. */
  function Serialize(p: Processor, v: Value): (r: Result<Element>)
    ensures p.Primitive? ==> r.Ok?
    ensures p.Array? && p.nested.None? ==> r == Err(InvalidRootProcessor)
    ensures (p.Dictionary? || (p.Array? && p.nested.Some?)) && Falsy(v) && Required(p) ==>
              r == Err(MissingValue)
    ensures r.Ok? ==> r.value.tag == if p.Array? then p.nested.value else p.elementName
    decreases p, 2
  {
    match p
    case Primitive(name, _, _, _, _, _, _) => Ok(WritePrimitive(p, NewElement(name), v))
    case Dictionary(name, children, required, _) =>
      SerializeDictionary(name, children, required, v)
    case Array(item, _, nested, _) =>
      if nested.None? then Err(InvalidRootProcessor)
      else if Falsy(v) && Required(p) then Err(MissingValue)
      else SerializeItems(item, NewElement(nested.value), v)
    case Aggregate(name, conv, children, required, _) =>
      var d :- ToDict(conv, v);
      SerializeDictionary(name, children, required, d)
  }

  /** _Dictionary.serialize. */
  function SerializeDictionary(name: string, children: seq<Processor>, required: bool,
                               v: Value): (r: Result<Element>)
    ensures r.Ok? ==> r.value.tag == name
    decreases children, 1
  {
    if Falsy(v) && required then Err(MissingValue)
    else SerializeFields(children, NewElement(name), v)
  }

  /** _Dictionary._serialize: each child, in declaration order, writes value.get(alias)
      (None for a missing key) into the element. A value that is not a dict fails in
      .get, unless there is no child to ask for. */
  function SerializeFields(children: seq<Processor>, e: Element, v: Value): (r: Result<Element>)
    ensures children != [] && !v.VDict? ==> r == Err(Uncaught)
    ensures r.Ok? ==> r.value.tag == e.tag && |r.value.children| >= |e.children|
    decreases children, 0
  {
    if children == [] then Ok(e)
    else if !v.VDict? then Err(Uncaught)
    else
      var e' :- SerializeOnParent(children[0], e, Get(v.fields, Alias(children[0])));
      SerializeFields(children[1..], e', v)
  }

  /** serialize_on_parent. */
  function SerializeOnParent(p: Processor, parent: Element, v: Value): (r: Result<Element>)
    ensures v == VNone && Required(p) && !p.Aggregate? ==> r == Err(MissingValue)
    ensures Falsy(v) && OmitEmpty(p) ==> r == Ok(parent)
    ensures p.Dictionary? && Falsy(v) && !p.required ==> r == Ok(parent)
    ensures r.Ok? ==> r.value.tag == parent.tag && |r.value.children| >= |parent.children|
    decreases p, 3
  {
    match p
    case Primitive(name, _, _, required, _, _, _) =>
      if v == VNone && required then Err(MissingValue)
      else if Falsy(v) && OmitEmpty(p) then Ok(parent)
      else
        var (np, loc) := GetOrAdd(parent, name);
        Ok(Replace(np, loc, WritePrimitive(p, At(np, loc), v)))
    case Dictionary(name, children, required, _) =>
      SerializeDictionaryOnParent(name, children, required, parent, v)
    case Array(item, _, nested, _) =>
      if Falsy(v) && Required(p) then Err(MissingValue)
      else if Falsy(v) && OmitEmpty(p) then Ok(parent)
      else if nested.Some? then
        var (np, loc) := GetOrAdd(parent, nested.value);
        var wrapper :- SerializeItems(item, At(np, loc), v);
        Ok(Replace(np, loc, wrapper))
      else SerializeItems(item, parent, v)
    case Aggregate(name, conv, children, required, _) =>
      var d :- ToDict(conv, v);
      SerializeDictionaryOnParent(name, children, required, parent, d)
  }

  /** _Dictionary.serialize_on_parent. */
  function SerializeDictionaryOnParent(name: string, children: seq<Processor>, required: bool,
                                       parent: Element, v: Value): (r: Result<Element>)
    ensures r.Ok? ==> r.value.tag == parent.tag && |r.value.children| >= |parent.children|
    decreases children, 1
  {
    if Falsy(v) && required then Err(MissingValue)
    else if Falsy(v) then Ok(parent)
    else
      var (np, loc) := GetOrAdd(parent, name);
      var e :- SerializeFields(children, At(np, loc), v);
      Ok(Replace(np, loc, e))
  }

  /** The values `for item_value in value` visits: the items of a list, the characters
      of a string. Anything else is not iterable here (see README). */
  function Iterate(v: Value): (r: Result<seq<Value>>)
    ensures r.Ok? <==> v.VList? || v.VStr?
    ensures r.Err? ==> r.error == Uncaught
    ensures v.VList? ==> r == Ok(v.items)
    ensures v.VStr? ==> |r.value| == |v.s| && forall i :: 0 <= i < |v.s| ==> r.value[i] == VStr([v.s[i]])
  {
    match v
    case VList(items) => Ok(items)
    case VStr(s) => Ok(seq(|s|, i requires 0 <= i < |s| => VStr([s[i]])))
    case _ => Err(Uncaught)
  }

  /** _Array._serialize: nothing for a falsy value, otherwise one serialized item per
      value, appended in order. */
  function SerializeItems(item: Processor, arrayParent: Element, v: Value): (r: Result<Element>)
    ensures Falsy(v) ==> r == Ok(arrayParent)
    ensures r.Ok? ==> r.value.tag == arrayParent.tag
    ensures r.Ok? && v.VList? ==> |r.value.children| == |arrayParent.children| + |v.items|
    ensures r.Ok? ==> |r.value.children| >= |arrayParent.children|
    decreases item, 4
  {
    if Falsy(v) then Ok(arrayParent)
    else
      var vs :- Iterate(v);
      AppendItems(item, arrayParent, vs)
  }

  /** The loop of _Array._serialize over the values still to write. */
  function AppendItems(item: Processor, arrayParent: Element, vs: seq<Value>)
    : (r: Result<Element>)
    ensures r.Ok? ==> r.value.tag == arrayParent.tag
    ensures r.Ok? ==> |r.value.children| == |arrayParent.children| + |vs|
    decreases item, 3, |vs|
  {
    if vs == [] then Ok(arrayParent)
    else
      var e :- Serialize(item, vs[0]);
      AppendItems(item, arrayParent.(children := arrayParent.children + [e]), vs[1..])
  }
}

module SerializationFacts {
  import opened Base
  import opened Text
  import opened Values
  import opened ElementTree
  import opened Processors
  import opened Serialization

  /** A required primitive refuses None. */
  lemma PrimitiveRequiredNone(p: Processor, parent: Element)
    requires p.Primitive? && p.required
    ensures SerializeOnParent(p, parent, VNone) == Err(MissingValue)
  {
  }

  /** A falsy value of a primitive with omit_empty leaves the parent as it was. */
  lemma PrimitiveOmitted(p: Processor, parent: Element, v: Value)
    requires p.Primitive? && OmitEmpty(p) && Falsy(v)
    ensures SerializeOnParent(p, parent, v) == Ok(parent)
  {
  }

  /** Otherwise the primitive is written: afterwards find(element_name) returns an element
      whose attribute (or text) holds the written text, at most one child was added, and
      the parent's own tag, text and attributes are unchanged. */
  lemma PrimitiveWritten(p: Processor, parent: Element, v: Value)
    requires p.Primitive? && p.elementName != "."
    requires !(v == VNone && p.required) && !(Falsy(v) && OmitEmpty(p))
    ensures SerializeOnParent(p, parent, v).Ok?
    ensures var r := SerializeOnParent(p, parent, v).value;
            && r.tag == parent.tag && r.text == parent.text && r.attrs == parent.attrs
            && |parent.children| <= |r.children| <= |parent.children| + 1
            && Find(r, p.elementName).Some?
            && (Truthy(p.attribute) ==>
                  && p.attribute.value in Find(r, p.elementName).value.attrs
                  && Find(r, p.elementName).value.attrs[p.attribute.value] == PrimitiveText(p, v))
            && (!Truthy(p.attribute) ==>
                  Find(r, p.elementName).value.text == Some(PrimitiveText(p, v)))
  {
    var (np, loc) := GetOrAdd(parent, p.elementName);
    FindAfterWrite(parent, p.elementName, WritePrimitive(p, At(np, loc), v));
  }

  /** Two primitives on one element name, the second writing an attribute the first
      does not: both land on one element, at most one child is added in all, and what
      the first wrote (its attribute or the text) survives the second write. */
  lemma SharedElement(p1: Processor, p2: Processor, parent: Element, v1: Value, v2: Value)
    requires p1.Primitive? && p2.Primitive? && p1.elementName == p2.elementName != "."
    requires Truthy(p2.attribute)
    requires Truthy(p1.attribute) ==> p1.attribute.value != p2.attribute.value
    requires !(v1 == VNone && p1.required) && !(Falsy(v1) && OmitEmpty(p1))
    requires !(v2 == VNone && p2.required) && !(Falsy(v2) && OmitEmpty(p2))
    ensures SerializeOnParent(p1, parent, v1).Ok?
    ensures var r1 := SerializeOnParent(p1, parent, v1).value;
            var name := p1.elementName;
            && SerializeOnParent(p2, r1, v2).Ok?
            && var r := SerializeOnParent(p2, r1, v2).value;
            && r.tag == parent.tag && r.text == parent.text && r.attrs == parent.attrs
            && |parent.children| <= |r.children| <= |parent.children| + 1
            && Find(r, name).Some?
            && p2.attribute.value in Find(r, name).value.attrs
            && Find(r, name).value.attrs[p2.attribute.value] == PrimitiveText(p2, v2)
            && (Truthy(p1.attribute) ==>
                  && p1.attribute.value in Find(r, name).value.attrs
                  && Find(r, name).value.attrs[p1.attribute.value] == PrimitiveText(p1, v1))
            && (!Truthy(p1.attribute) ==> Find(r, name).value.text == Some(PrimitiveText(p1, v1)))
  {
    var name := p1.elementName;
    PrimitiveWritten(p1, parent, v1);
    var r1 := SerializeOnParent(p1, parent, v1).value;
    var (np, loc) := GetOrAdd(r1, name);
    assert np == r1 && At(np, loc) == Find(r1, name).value;
    PrimitiveWritten(p2, r1, v2);
    FindAfterWrite(r1, name, WritePrimitive(p2, At(np, loc), v2));
  }

  /** None is written as str(default), which is empty only for a default of None or "";
      any other value, falsy ones included, is written as str(value) and never replaced
      by the default. */
  lemma PrimitiveTextOfValue(p: Processor, v: Value)
    requires p.Primitive?
    ensures PrimitiveText(p, VNone) == "" <==> p.default == VNone || p.default == VStr("")
    ensures p.default != VNone ==> PrimitiveText(p, VNone) == PyStr(p.default)
    ensures v != VNone ==> PrimitiveText(p, v) == PyStr(v)
    ensures PrimitiveText(p, VInt(0)) == "0" && PrimitiveText(p, VBool(false)) == "False"
    ensures PrimitiveText(p, VStr("")) == ""
  {
    PyStrEmpty(p.default);
    assert PyStr(VInt(0)) == "0";
  }

  /** The loop over the children of a dictionary, cut after its first i children: the
      rest of the loop continues from the element the first part left behind. */
  lemma {:induction false} SerializeFieldsSplit(children: seq<Processor>, e: Element, v: Value,
                                                i: nat)
    requires v.VDict? && i <= |children|
    ensures var pre := SerializeFields(children[..i], e, v);
            SerializeFields(children, e, v)
            == if pre.Err? then pre else SerializeFields(children[i..], pre.value, v)
    decreases i
  {
    if i == 0 {
      assert children[..0] == [] && children[0..] == children;
    } else {
      var c := children[0];
      var head := SerializeOnParent(c, e, Get(v.fields, Alias(c)));
      assert children[..i][0] == c;
      if head.Ok? {
        var rest := children[1..];
        SerializeFieldsSplit(rest, head.value, v, i - 1);
        assert rest[..i - 1] == children[..i][1..];
        assert rest[i - 1..] == children[i..];
      }
    }
  }

  /** A dict value without the key of a required child (other than an aggregate, whose
      to_dict sees None first) is refused once the loop reaches that child. */
  lemma MissingRequiredField(children: seq<Processor>, e: Element, v: Value, i: nat)
    requires v.VDict? && i < |children| && Alias(children[i]) !in v.fields
    requires Required(children[i]) && !children[i].Aggregate?
    requires SerializeFields(children[..i], e, v).Ok?
    ensures SerializeFields(children, e, v) == Err(MissingValue)
  {
    SerializeFieldsSplit(children, e, v, i);
    assert children[i..][0] == children[i];
  }

  /** A dict value without the key of an optional primitive child: the child is written
      as None would be, that is as str(default) (or "" for a default of None), unless
      omit_empty drops it. */
  lemma MissingOptionalField(children: seq<Processor>, e: Element, v: Value, i: nat)
    requires v.VDict? && i < |children| && Alias(children[i]) !in v.fields
    requires children[i].Primitive? && !children[i].required
    requires children[i].elementName != "."
    requires SerializeFields(children[..i], e, v).Ok?
    ensures var pre := SerializeFields(children[..i], e, v).value;
            var c := children[i];
            var r := SerializeFields(children[..i + 1], e, v);
            && r.Ok?
            && (OmitEmpty(c) ==> r.value == pre)
            && (!OmitEmpty(c) ==>
                  && Find(r.value, c.elementName).Some?
                  && (Truthy(c.attribute) ==>
                        && c.attribute.value in Find(r.value, c.elementName).value.attrs
                        && Find(r.value, c.elementName).value.attrs[c.attribute.value]
                           == PrimitiveText(c, VNone))
                  && (!Truthy(c.attribute) ==>
                        Find(r.value, c.elementName).value.text == Some(PrimitiveText(c, VNone))))
  {
    var c := children[i];
    var pre := SerializeFields(children[..i], e, v).value;
    SerializeFieldsSplit(children[..i + 1], e, v, i);
    assert children[..i + 1][..i] == children[..i];
    assert children[..i + 1][i..] == [c];
    assert Get(v.fields, Alias(c)) == VNone;
    if !OmitEmpty(c) {
      PrimitiveWritten(c, pre, VNone);
    }
  }

  /** The item loop of _Array._serialize succeeds exactly when every item serializes; it
      then appends one element per value, in order, after the children already there,
      and changes nothing else. */
  lemma AppendItemsSpec(item: Processor, parent: Element, vs: seq<Value>)
    ensures AppendItems(item, parent, vs).Ok? <==>
              forall k :: 0 <= k < |vs| ==> Serialize(item, vs[k]).Ok?
    ensures AppendItems(item, parent, vs).Ok? ==>
              var r := AppendItems(item, parent, vs).value;
              && r.tag == parent.tag && r.text == parent.text && r.attrs == parent.attrs
              && |r.children| == |parent.children| + |vs|
              && r.children[..|parent.children|] == parent.children
              && forall k :: 0 <= k < |vs| ==>
                   Serialize(item, vs[k]) == Ok(r.children[|parent.children| + k])
  {
    AppendItemsOk(item, parent, vs);
    if AppendItems(item, parent, vs).Ok? {
      AppendItemsShape(item, parent, vs);
    }
  }

  lemma {:induction false} AppendItemsOk(item: Processor, parent: Element, vs: seq<Value>)
    ensures AppendItems(item, parent, vs).Ok? <==>
              forall k :: 0 <= k < |vs| ==> Serialize(item, vs[k]).Ok?
    decreases |vs|
  {
    if vs != [] && Serialize(item, vs[0]).Ok? {
      var e := Serialize(item, vs[0]).value;
      AppendItemsOk(item, parent.(children := parent.children + [e]), vs[1..]);
      assert forall k :: 1 <= k < |vs| ==> vs[k] == vs[1..][k - 1];
    }
  }

  lemma {:induction false} AppendItemsShape(item: Processor, parent: Element, vs: seq<Value>)
    requires AppendItems(item, parent, vs).Ok?
    ensures var r := AppendItems(item, parent, vs).value;
            && r == parent.(children := r.children)
            && |r.children| == |parent.children| + |vs|
            && r.children[..|parent.children|] == parent.children
            && forall k :: 0 <= k < |vs| ==>
                 Serialize(item, vs[k]) == Ok(r.children[|parent.children| + k])
    decreases |vs|
  {
    if vs != [] {
      var s0 := Serialize(item, vs[0]);
      assert s0.Ok?;
      var e := s0.value;
      var next := parent.(children := parent.children + [e]);
      AppendItemsStep(item, parent, vs);
      AppendItemsShape(item, next, vs[1..]);
      var r := AppendItems(item, next, vs[1..]).value;
      var n := |parent.children|;
      AppendedAfter(parent, e, r);
      forall k | 0 <= k < |vs|
        ensures Serialize(item, vs[k]) == Ok(r.children[n + k])
      {
        if k == 0 {
          assert r.children[n] == e;
        } else {
          SerializedLater(item, vs, r.children, n, k);
        }
      }
    }
  }

  /** An element grown from parent with e appended, and then more, still starts with
      parent's children followed by e, and differs from parent in its children only. */
  lemma AppendedAfter(parent: Element, e: Element, r: Element)
    requires var next := parent.(children := parent.children + [e]);
             && r == next.(children := r.children)
             && |r.children| >= |next.children|
             && r.children[..|next.children|] == next.children
    ensures r == parent.(children := r.children)
    ensures r.children[..|parent.children|] == parent.children
    ensures r.children[|parent.children|] == e
  {
    var n := |parent.children|;
    assert r.children[..n] == r.children[..n + 1][..n];
    assert r.children[n] == r.children[..n + 1][n];
  }

  /** The item at k > 0 of vs is the item at k - 1 of vs[1..]. */
  lemma SerializedLater(item: Processor, vs: seq<Value>, cs: seq<Element>, n: nat, k: nat)
    requires 1 <= k < |vs| && n + |vs| <= |cs|
    requires forall j :: 0 <= j < |vs[1..]| ==> Serialize(item, vs[1..][j]) == Ok(cs[n + 1 + j])
    ensures Serialize(item, vs[k]) == Ok(cs[n + k])
  {
    assert vs[k] == vs[1..][k - 1];
  }

  /** One turn of the item loop: the first value's element is appended, and the loop
      goes on with the rest. */
  lemma AppendItemsStep(item: Processor, parent: Element, vs: seq<Value>)
    requires vs != [] && Serialize(item, vs[0]).Ok?
    ensures AppendItems(item, parent, vs)
            == AppendItems(item, parent.(children := parent.children + [Serialize(item, vs[0]).value]),
                           vs[1..])
  {
  }

  /** Array items are never omitted: a primitive item always serializes, so a list of
      primitives appends exactly one element per value, None and falsy values included. */
  lemma PrimitiveItemsNeverOmitted(item: Processor, parent: Element, vs: seq<Value>)
    requires item.Primitive?
    ensures AppendItems(item, parent, vs).Ok?
    ensures |AppendItems(item, parent, vs).value.children| == |parent.children| + |vs|
  {
    AppendItemsSpec(item, parent, vs);
  }

  /** A list value on a parent: an embedded array appends its items to the parent, a
      nested one to its wrapper element, one element per value in both cases. */
  lemma ArrayOnParent(p: Processor, parent: Element, vs: seq<Value>)
    requires p.Array? && vs != []
    requires p.nested.Some? ==> p.nested.value != "."
    requires SerializeOnParent(p, parent, VList(vs)).Ok?
    ensures p.nested.None? ==>
              |SerializeOnParent(p, parent, VList(vs)).value.children|
              == |parent.children| + |vs|
    ensures p.nested.Some? ==>
              var r := SerializeOnParent(p, parent, VList(vs)).value;
              && Find(r, p.nested.value).Some?
              && |Find(r, p.nested.value).value.children|
                 == |At(GetOrAdd(parent, p.nested.value).0,
                        GetOrAdd(parent, p.nested.value).1).children| + |vs|
  {
    if p.nested.Some? {
      var (np, loc) := GetOrAdd(parent, p.nested.value);
      AppendItemsSpec(p.item, At(np, loc), vs);
      var w := SerializeItems(p.item, At(np, loc), VList(vs)).value;
      FindAfterWrite(parent, p.nested.value, w);
    } else {
      AppendItemsSpec(p.item, parent, vs);
    }
  }

  /** An empty array value: refused when the array is required, left out entirely with
      omit_empty, and otherwise a nested array still writes its (empty) wrapper element
      while an embedded one writes nothing. */
  lemma ArrayEmptyOnParent(p: Processor, parent: Element, v: Value)
    requires p.Array? && Falsy(v)
    requires p.nested.Some? ==> p.nested.value != "."
    ensures Required(p) ==> SerializeOnParent(p, parent, v) == Err(MissingValue)
    ensures !Required(p) && OmitEmpty(p) ==> SerializeOnParent(p, parent, v) == Ok(parent)
    ensures !Required(p) && p.nested.None? ==> SerializeOnParent(p, parent, v) == Ok(parent)
    ensures !Required(p) && !OmitEmpty(p) && p.nested.Some? ==>
              && SerializeOnParent(p, parent, v).Ok?
              && Find(SerializeOnParent(p, parent, v).value, p.nested.value).Some?
  {
    if !Required(p) && !OmitEmpty(p) && p.nested.Some? {
      var (np, loc) := GetOrAdd(parent, p.nested.value);
      FindAfterWrite(parent, p.nested.value, At(np, loc));
    }
  }

  /** A non-nested array cannot be serialized as a document root. */
  lemma NonNestedArraySerialize(p: Processor, v: Value)
    requires p.Array? && p.nested.None?
    ensures Serialize(p, v) == Err(InvalidRootProcessor)
  {
  }

  /** An empty dictionary value is refused when required and otherwise leaves the parent
      as it was. */
  lemma DictionaryEmptyOnParent(p: Processor, parent: Element, v: Value)
    requires (p.Dictionary? || p.Aggregate?) && Falsy(v)
    requires p.Aggregate? ==> p.converter.toDict(v) == Some(v)
    ensures SerializeOnParent(p, parent, v) ==
              if p.required then Err(MissingValue) else Ok(parent)
  {
  }
}
