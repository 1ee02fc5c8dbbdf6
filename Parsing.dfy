/** The parse side of the processors: parse_at_element, parse_from_parent and
    parse_at_root of the four processor kinds, as functions of the element tree. */
module Parsing {
  import opened Base
  import opened Text
  import opened Values
  import opened ElementTree
  import opened Processors

  /** from_dict: a converter that raises is not an XmlError. */
  function FromDict(conv: Converter, d: Value): (r: Result<Value>)
    ensures r.Err? ==> r.error == Uncaught
    ensures conv.fromDict(d).None? ==> r == Err(Uncaught)
    ensures conv.fromDict(d).Some? ==> r == Ok(conv.fromDict(d).value)
  {
    match conv.fromDict(d)
    case None => Err(Uncaught)
    case Some(v) => Ok(v)
  }

  /** _PrimitiveValue._parse_attribute: an attribute that is missing or holds "" counts
      as absent. */
  function ParseAttribute(p: Processor, e: Element): (r: Result<Value>)
    requires p.Primitive? && Truthy(p.attribute)
    ensures !(p.attribute.value in e.attrs && e.attrs[p.attribute.value] != "") ==>
              r == if p.required then Err(MissingValue) else Ok(p.default)
    ensures p.attribute.value in e.attrs && e.attrs[p.attribute.value] != "" ==>
              r == ParseText(p.kind, Some(e.attrs[p.attribute.value]))
    ensures r.Err? ==> r.error in {MissingValue, InvalidPrimitiveValue}
    ensures r.Err? && r.error == MissingValue ==> p.required
  {
    var name := p.attribute.value;
    if name in e.attrs && e.attrs[name] != "" then ParseText(p.kind, Some(e.attrs[name]))
    else if p.required then Err(MissingValue)
    else Ok(p.default)
  }

  /** parse_at_element. None stands for find() having found nothing. */
  function ParseAtElement(p: Processor, e: Option<Element>): (r: Result<Value>)
    ensures e.None? && Required(p) ==> r == Err(MissingValue)
    ensures r.Ok? && p.Dictionary? ==> r.value.VDict?
    ensures r.Ok? && p.Array? ==> r.value.VList? && (Required(p) ==> r.value.items != [])
    decreases p, 2
  {
    match p
    case Primitive(_, kind, attribute, required, _, default, _) =>
      if e.None? then (if required then Err(MissingValue) else Ok(default))
      else if Truthy(attribute) then ParseAttribute(p, e.value)
      else ParseText(kind, e.value.text)
    case Dictionary(_, children, required, _) => ParseDictionary(children, required, e)
    case Array(_, _, _, _) => ParseArray(p, if e.None? then None else Some(e.value.children))
    case Aggregate(_, conv, children, required, _) =>
      var d :- ParseDictionary(children, required, e);
      FromDict(conv, d)
  }

  /** _Dictionary.parse_at_element. */
  function ParseDictionary(children: seq<Processor>, required: bool, e: Option<Element>)
    : (r: Result<Value>)
    ensures e.None? ==> r == if required then Err(MissingValue) else Ok(VDict(map[]))
    ensures r.Ok? ==> r.value.VDict?
    decreases children, 1
  {
    if e.None? then (if required then Err(MissingValue) else Ok(VDict(map[])))
    else
      var fields :- ParseFields(children, e.value, map[]);
      Ok(VDict(fields))
  }

  /** The loop of _Dictionary.parse_at_element: each child, in order, parses from the
      element and stores its value under its alias; the first error stops the loop. */
  function ParseFields(children: seq<Processor>, e: Element, acc: map<string, Value>)
    : (r: Result<map<string, Value>>)
    ensures children == [] ==> r == Ok(acc)
    ensures r.Ok? ==> acc.Keys <= r.value.Keys
    decreases children, 0
  {
    if children == [] then Ok(acc)
    else
      var v :- ParseFromParent(children[0], e);
      ParseFields(children[1..], e, acc[Alias(children[0]) := v])
  }

  /** _Array._parse: items is None when there is nothing to iterate (no wrapper found). */
  function ParseArray(p: Processor, items: Option<seq<Element>>): (r: Result<Value>)
    requires p.Array?
    ensures r.Ok? ==> r.value.VList? && (Required(p) ==> r.value.items != [])
    ensures r.Ok? && items.Some? ==> |r.value.items| == |items.value|
    decreases p, 1
  {
    var parsed :- if items.None? then Ok([]) else ParseItems(p.item, items.value);
    if parsed == [] && Required(p) then Err(MissingValue) else Ok(VList(parsed))
  }

  /** The list comprehension of _Array._parse. */
  function ParseItems(item: Processor, es: seq<Element>): (r: Result<seq<Value>>)
    ensures r.Ok? ==> |r.value| == |es|
    decreases item, 3, |es|
  {
    if es == [] then Ok([])
    else
      var v :- ParseAtElement(item, Some(es[0]));
      var rest :- ParseItems(item, es[1..]);
      Ok([v] + rest)
  }

  /** parse_from_parent. A nested array iterates every child of its wrapper, whatever its
      tag; an embedded array collects the parent's children named after the item
      processor, which fails when the item processor (an array) has no element name. */
  function ParseFromParent(p: Processor, parent: Element): (r: Result<Value>)
    ensures r.Ok? && p.Dictionary? ==> r.value.VDict?
    ensures r.Ok? && p.Array? ==> r.value.VList? && (Required(p) ==> r.value.items != [])
    ensures p.Array? && !Truthy(p.nested) && p.item.Array? ==> r == Err(Uncaught)
    decreases p, 3
  {
    match p
    case Primitive(name, _, _, _, _, _, _) => ParseAtElement(p, Find(parent, name))
    case Dictionary(name, _, _, _) => ParseAtElement(p, Find(parent, name))
    case Array(item, _, nested, _) =>
      if Truthy(nested) then
        var wrapper := Find(parent, nested.value);
        ParseArray(p, if wrapper.None? then None else Some(wrapper.value.children))
      else if ElementName(item).None? then Err(Uncaught)
      else ParseArray(p, Some(FindAll(parent, ElementName(item).value)))
    case Aggregate(name, _, _, _, _) => ParseAtElement(p, Find(parent, name))
  }

  /** parse_at_root. A root whose tag is not the processor's is treated as a missing
      element; an array can only be the root when it is nested. */
  function ParseAtRoot(p: Processor, root: Element): (r: Result<Value>)
    requires IsValidRootProcessor(p)
    ensures p.Array? && !Truthy(p.nested) ==> r == Err(InvalidRootProcessor)
    ensures !p.Array? && root.tag != p.elementName && p.required ==> r == Err(MissingValue)
    ensures p.Dictionary? && root.tag != p.elementName && !p.required ==> r == Ok(VDict(map[]))
    ensures p.Array? && Truthy(p.nested) && root.tag != p.nested.value ==>
              r == if Required(p) then Err(MissingValue) else Ok(VList([]))
    ensures r.Ok? && p.Array? ==> r.value.VList?
  {
    match p
    case Dictionary(name, _, _, _) =>
      ParseAtElement(p, if root.tag == name then Some(root) else None)
    case Array(_, _, nested, _) =>
      if !Truthy(nested) then Err(InvalidRootProcessor)
      else if root.tag == nested.value then ParseArray(p, Some(root.children))
      else if Required(p) then Err(MissingValue)
      else Ok(VList([]))
    case Aggregate(name, _, _, _, _) =>
      ParseAtElement(p, if root.tag == name then Some(root) else None)
  }
}

module ParsingFacts {
  import opened Base
  import opened Text
  import opened Values
  import opened ElementTree
  import opened Processors
  import opened Parsing

  /** The aliases of a list of child processors: the keys a dictionary is parsed into. */
  function Aliases(children: seq<Processor>): (r: set<string>)
    ensures forall i :: 0 <= i < |children| ==> Alias(children[i]) in r
    ensures forall k :: k in r ==> exists i :: 0 <= i < |children| && Alias(children[i]) == k
  {
    set i | 0 <= i < |children| :: Alias(children[i])
  }

  /** A missing element gives the processor's default when it is not required and
      MissingValue when it is: the default itself for a primitive, {} for a dictionary
      and [] for an array. */
  lemma AbsentElement(p: Processor)
    ensures p.Primitive? ==>
              ParseAtElement(p, None) == if p.required then Err(MissingValue) else Ok(p.default)
    ensures p.Dictionary? ==>
              ParseAtElement(p, None) == if p.required then Err(MissingValue) else Ok(VDict(map[]))
    ensures p.Array? ==>
              ParseAtElement(p, None) == if Required(p) then Err(MissingValue) else Ok(VList([]))
  {
  }

  /** An attribute that is missing, or present with an empty value, reads exactly as a
      missing element does. */
  lemma EmptyAttributeIsAbsent(p: Processor, e: Element)
    requires p.Primitive? && Truthy(p.attribute)
    requires p.attribute.value !in e.attrs || e.attrs[p.attribute.value] == ""
    ensures ParseAtElement(p, Some(e)) == ParseAtElement(p, None)
  {
  }

  /** The default never replaces a value that is present: a primitive read from a present
      element (or a present, non-empty attribute) is the parser's result, whatever the
      default and even when that result is falsy. */
  lemma PresentValueIgnoresDefault(p: Processor, e: Element, d: Value)
    requires p.Primitive?
    requires Truthy(p.attribute) ==>
               p.attribute.value in e.attrs && e.attrs[p.attribute.value] != ""
    ensures ParseAtElement(p, Some(e)) == ParseAtElement(p.(default := d), Some(e))
    ensures !Truthy(p.attribute) ==> ParseAtElement(p, Some(e)) == ParseText(p.kind, e.text)
    ensures Truthy(p.attribute) ==>
              ParseAtElement(p, Some(e)) == ParseText(p.kind, Some(e.attrs[p.attribute.value]))
  {
  }

  /** integer('n', required=False, default=5) reads <n>0</n> as 0, not as its default. */
  lemma PresentZeroIsKept()
    ensures ParseFromParent(Integer("n", required := false, default := VInt(5)),
                            Element("root", None, map[], [Element("n", Some("0"), map[], [])]))
            == Ok(VInt(0))
  {
    var child := Element("n", Some("0"), map[], []);
    var root := Element("root", None, map[], [child]);
    assert ChildIndex(root.children, "n") == Some(0);
    assert Find(root, "n") == Some(child);
    IntRoundTrip(0);
    assert IntToDecimal(0) == "0";
    assert ParseText(IntegerKind, Some("0")) == Ok(VInt(0));
  }

  /** The loop over the children of a dictionary adds exactly one key per child alias. */
  lemma {:induction false} ParseFieldsKeys(children: seq<Processor>, e: Element,
                                           acc: map<string, Value>)
    requires ParseFields(children, e, acc).Ok?
    ensures ParseFields(children, e, acc).value.Keys == acc.Keys + Aliases(children)
  {
    if children != [] {
      var v := ParseFromParent(children[0], e).value;
      ParseFieldsKeys(children[1..], e, acc[Alias(children[0]) := v]);
      assert Aliases(children) == {Alias(children[0])} + Aliases(children[1..]) by {
        forall k | k in Aliases(children)
          ensures k in {Alias(children[0])} + Aliases(children[1..])
        {
          var i :| 0 <= i < |children| && Alias(children[i]) == k;
          if i > 0 {
            assert children[1..][i - 1] == children[i];
          }
        }
      }
    }
  }

  /** The loop succeeds exactly when every child parses, and the first failing child's
      error is the loop's error. */
  lemma {:induction false} ParseFieldsOk(children: seq<Processor>, e: Element,
                                         acc: map<string, Value>)
    ensures ParseFields(children, e, acc).Ok? <==>
              forall i :: 0 <= i < |children| ==> ParseFromParent(children[i], e).Ok?
    ensures ParseFields(children, e, acc).Err? ==>
              exists i :: 0 <= i < |children| &&
                ParseFromParent(children[i], e) == Err(ParseFields(children, e, acc).error) &&
                forall j :: 0 <= j < i ==> ParseFromParent(children[j], e).Ok?
  {
    if children != [] && ParseFromParent(children[0], e).Ok? {
      var v := ParseFromParent(children[0], e).value;
      var rest := children[1..];
      ParseFieldsOk(rest, e, acc[Alias(children[0]) := v]);
      assert forall i :: 1 <= i < |children| ==> children[i] == rest[i - 1];
      if ParseFields(children, e, acc).Err? {
        var i :| 0 <= i < |rest| &&
                 ParseFromParent(rest[i], e) == Err(ParseFields(children, e, acc).error) &&
                 forall j :: 0 <= j < i ==> ParseFromParent(rest[j], e).Ok?;
        assert ParseFromParent(children[i + 1], e) == ParseFromParent(rest[i], e);
      }
    }
  }

  /** Each key holds the value its child parsed, for the last child with that alias
      (a later child with the same alias overwrites an earlier one). */
  lemma {:induction false} ParseFieldsValues(children: seq<Processor>, e: Element,
                                             acc: map<string, Value>, i: nat)
    requires ParseFields(children, e, acc).Ok?
    requires i < |children|
    requires forall j :: i < j < |children| ==> Alias(children[j]) != Alias(children[i])
    ensures Alias(children[i]) in ParseFields(children, e, acc).value
    ensures ParseFromParent(children[i], e)
            == Ok(ParseFields(children, e, acc).value[Alias(children[i])])
  {
    var v := ParseFromParent(children[0], e).value;
    var acc' := acc[Alias(children[0]) := v];
    var rest := children[1..];
    if i == 0 {
      ParseFieldsUntouched(rest, e, acc', Alias(children[0]));
    } else {
      assert forall j :: i - 1 < j < |rest| ==> rest[j] == children[j + 1];
      ParseFieldsValues(rest, e, acc', i - 1);
    }
  }

  /** A key that no child has as alias keeps the value it had before the loop. */
  lemma {:induction false} ParseFieldsUntouched(children: seq<Processor>, e: Element,
                                                acc: map<string, Value>, k: string)
    requires ParseFields(children, e, acc).Ok?
    requires k in acc
    requires forall j :: 0 <= j < |children| ==> Alias(children[j]) != k
    ensures k in ParseFields(children, e, acc).value
    ensures ParseFields(children, e, acc).value[k] == acc[k]
  {
    if children != [] {
      var v := ParseFromParent(children[0], e).value;
      ParseFieldsUntouched(children[1..], e, acc[Alias(children[0]) := v], k);
    }
  }

  /** A dictionary read from a present element succeeds exactly when every child does;
      its keys are then exactly the children's aliases, and a child whose alias no later
      child shares finds its own value under it. */
  lemma DictionaryParse(p: Processor, e: Element)
    requires p.Dictionary?
    ensures ParseAtElement(p, Some(e)).Ok? <==>
              forall i :: 0 <= i < |p.children| ==> ParseFromParent(p.children[i], e).Ok?
    ensures ParseAtElement(p, Some(e)).Ok? ==>
              && ParseAtElement(p, Some(e)).value.VDict?
              && ParseAtElement(p, Some(e)).value.fields.Keys == Aliases(p.children)
    ensures ParseAtElement(p, Some(e)).Ok? ==>
              forall i :: 0 <= i < |p.children| &&
                (forall j :: i < j < |p.children| ==> Alias(p.children[j]) != Alias(p.children[i]))
                ==> ParseFromParent(p.children[i], e)
                    == Ok(ParseAtElement(p, Some(e)).value.fields[Alias(p.children[i])])
  {
    assert ParseAtElement(p, Some(e)) == ParseDictionary(p.children, p.required, Some(e));
    ParseFieldsOk(p.children, e, map[]);
    if ParseFields(p.children, e, map[]).Ok? {
      ParseFieldsKeys(p.children, e, map[]);
      forall i | 0 <= i < |p.children| &&
        (forall j :: i < j < |p.children| ==> Alias(p.children[j]) != Alias(p.children[i]))
        ensures ParseFromParent(p.children[i], e)
                == Ok(ParseAtElement(p, Some(e)).value.fields[Alias(p.children[i])])
      {
        ParseFieldsValues(p.children, e, map[], i);
      }
    }
  }

  /** When the children's aliases are distinct and each child reads the value a map holds
      under its alias, the dictionary loop reads back exactly that map. */
  lemma ParseFieldsAll(children: seq<Processor>, e: Element, fields: map<string, Value>)
    requires forall i, j :: 0 <= i < j < |children| ==> Alias(children[i]) != Alias(children[j])
    requires fields.Keys == Aliases(children)
    requires forall i :: 0 <= i < |children| ==>
               ParseFromParent(children[i], e) == Ok(fields[Alias(children[i])])
    ensures ParseFields(children, e, map[]) == Ok(fields)
  {
    ParseFieldsOk(children, e, map[]);
    ParseFieldsKeys(children, e, map[]);
    var m := ParseFields(children, e, map[]).value;
    forall k | k in fields
      ensures m[k] == fields[k]
    {
      var i :| 0 <= i < |children| && Alias(children[i]) == k;
      ParseFieldsValues(children, e, map[], i);
    }
    assert m == fields;
  }

  /** At the root, a dictionary (or aggregate) whose tag does not match reads like a
      missing element. */
  lemma RootTagMismatch(p: Processor, root: Element)
    requires p.Dictionary? || p.Aggregate?
    requires root.tag != p.elementName
    ensures ParseAtRoot(p, root) == ParseAtElement(p, None)
  {
  }

  /** An array's items: one value per item element, in document order, and the list
      fails exactly when one of its items does. */
  lemma {:induction false} ParseItemsSpec(item: Processor, es: seq<Element>)
    ensures ParseItems(item, es).Ok? <==>
              forall k :: 0 <= k < |es| ==> ParseAtElement(item, Some(es[k])).Ok?
    ensures ParseItems(item, es).Ok? ==>
              && |ParseItems(item, es).value| == |es|
              && forall k :: 0 <= k < |es| ==>
                   ParseAtElement(item, Some(es[k])) == Ok(ParseItems(item, es).value[k])
  {
    if es != [] {
      ParseItemsSpec(item, es[1..]);
      assert forall k :: 1 <= k < |es| ==> es[k] == es[1..][k - 1];
    }
  }

  /** _Array._parse: a list, which is never empty when the array is required. */
  lemma ParseArrayShape(p: Processor, items: Option<seq<Element>>)
    requires p.Array?
    ensures ParseArray(p, items).Ok? ==> ParseArray(p, items).value.VList?
    ensures ParseArray(p, items).Ok? && Required(p) ==> ParseArray(p, items).value.items != []
    ensures items.Some? && ParseArray(p, items).Ok? ==>
              |ParseArray(p, items).value.items| == |items.value|
    ensures items.None? || items.value == [] ==>
              ParseArray(p, items) == if Required(p) then Err(MissingValue) else Ok(VList([]))
  {
    if items.Some? {
      ParseItemsSpec(p.item, items.value);
    }
  }

  /** A nested array found under its parent yields one value per child of the wrapper
      element, in order, whatever the children's tags. */
  lemma NestedArrayReadsEveryChild(p: Processor, parent: Element, k: nat)
    requires p.Array? && Truthy(p.nested)
    requires Find(parent, p.nested.value).Some?
    requires ParseFromParent(p, parent).Ok?
    requires k < |Find(parent, p.nested.value).value.children|
    ensures |ParseFromParent(p, parent).value.items|
            == |Find(parent, p.nested.value).value.children|
    ensures ParseAtElement(p.item, Some(Find(parent, p.nested.value).value.children[k]))
            == Ok(ParseFromParent(p, parent).value.items[k])
  {
    ParseItemsSpec(p.item, Find(parent, p.nested.value).value.children);
  }

  /** An embedded array yields one value per child of the parent named after its item
      processor, in document order. */
  lemma EmbeddedArrayReadsMatchingChildren(p: Processor, parent: Element, k: nat)
    requires p.Array? && !Truthy(p.nested) && ElementName(p.item).Some?
    requires ElementName(p.item).value != "."
    requires ParseFromParent(p, parent).Ok?
    requires k < |TagFilter(parent.children, ElementName(p.item).value)|
    ensures |ParseFromParent(p, parent).value.items|
            == |TagFilter(parent.children, ElementName(p.item).value)|
    ensures ParseAtElement(p.item, Some(TagFilter(parent.children, ElementName(p.item).value)[k]))
            == Ok(ParseFromParent(p, parent).value.items[k])
  {
    ParseItemsSpec(p.item, TagFilter(parent.children, ElementName(p.item).value));
  }

  /** A non-nested array cannot be the root. */
  lemma NonNestedArrayRoot(p: Processor, root: Element)
    requires p.Array? && !Truthy(p.nested)
    ensures ParseAtRoot(p, root) == Err(InvalidRootProcessor)
  {
  }

  /** An aggregate parses as its dictionary does, then converts the dictionary. */
  lemma AggregateDelegates(p: Processor, e: Option<Element>, parent: Element)
    requires p.Aggregate?
    ensures ParseAtElement(p, e) ==
              match ParseAtElement(Record(p), e)
              case Err(k) => Err(k)
              case Ok(d) => FromDict(p.converter, d)
    ensures ParseFromParent(p, parent) ==
              match ParseFromParent(Record(p), parent)
              case Err(k) => Err(k)
              case Ok(d) => FromDict(p.converter, d)
  {
  }
}
