/** The serializer as the source runs it: serialize and serialize_on_parent as methods,
    with the two for-loops (_Dictionary._serialize over the child processors and
    _Array._serialize over the item values) as while loops that thread the element being
    written. Each method returns exactly what the matching function of Serialization
    describes. */
module Serializer {
  import opened Base
  import opened Values
  import opened ElementTree
  import opened Processors
  import opened Serialization

  /** serialize. */
  method SerializeValue(p: Processor, v: Value) returns (r: Result<Element>)
    ensures r == Serialize(p, v)
    decreases p, 2
  {
    match p {
      case Primitive(name, _, _, _, _, _, _) =>
        r := Ok(WritePrimitive(p, NewElement(name), v));
      case Dictionary(name, children, required, _) =>
        if Falsy(v) && required {
          return Err(MissingValue);
        }
        r := WriteFields(children, NewElement(name), v);
      case Array(item, _, nested, _) =>
        if nested.None? {
          return Err(InvalidRootProcessor);
        }
        if Falsy(v) && Required(p) {
          return Err(MissingValue);
        }
        r := WriteItems(item, NewElement(nested.value), v);
      case Aggregate(name, conv, children, required, _) =>
        var d := conv.toDict(v);
        if d.None? {
          return Err(Uncaught);
        }
        if Falsy(d.value) && required {
          return Err(MissingValue);
        }
        r := WriteFields(children, NewElement(name), d.value);
    }
  }

  /** serialize_on_parent: returns the parent as the call leaves it. */
  method WriteOnParent(p: Processor, parent: Element, v: Value) returns (r: Result<Element>)
    ensures r == SerializeOnParent(p, parent, v)
    decreases p, 3
  {
    match p {
      case Primitive(name, _, _, required, _, _, _) =>
        if v == VNone && required {
          return Err(MissingValue);
        }
        if Falsy(v) && OmitEmpty(p) {
          return Ok(parent);
        }
        var (np, loc) := GetOrAdd(parent, name);
        r := Ok(Replace(np, loc, WritePrimitive(p, At(np, loc), v)));
      case Dictionary(name, children, required, _) =>
        r := WriteDictionaryOnParent(name, children, required, parent, v);
      case Array(item, _, nested, _) =>
        if Falsy(v) && Required(p) {
          return Err(MissingValue);
        }
        if Falsy(v) && OmitEmpty(p) {
          return Ok(parent);
        }
        if nested.Some? {
          var (np, loc) := GetOrAdd(parent, nested.value);
          var wrapper := WriteItems(item, At(np, loc), v);
          if wrapper.Err? {
            return Err(wrapper.error);
          }
          r := Ok(Replace(np, loc, wrapper.value));
        } else {
          r := WriteItems(item, parent, v);
        }
      case Aggregate(name, conv, children, required, _) =>
        var d := conv.toDict(v);
        if d.None? {
          return Err(Uncaught);
        }
        r := WriteDictionaryOnParent(name, children, required, parent, d.value);
    }
  }

  /** _Dictionary.serialize_on_parent. */
  method WriteDictionaryOnParent(name: string, children: seq<Processor>, required: bool,
                                 parent: Element, v: Value) returns (r: Result<Element>)
    ensures r == SerializeDictionaryOnParent(name, children, required, parent, v)
    decreases children, 1
  {
    if Falsy(v) && required {
      return Err(MissingValue);
    }
    if Falsy(v) {
      return Ok(parent);
    }
    var (np, loc) := GetOrAdd(parent, name);
    var e := WriteFields(children, At(np, loc), v);
    if e.Err? {
      return Err(e.error);
    }
    r := Ok(Replace(np, loc, e.value));
  }

  /** _Dictionary._serialize: the loop over the child processors. */
  method WriteFields(children: seq<Processor>, e: Element, v: Value) returns (r: Result<Element>)
    ensures r == SerializeFields(children, e, v)
    decreases children, 0
  {
    var current := e;
    var i := 0;
    while i < |children|
      invariant 0 <= i <= |children|
      invariant SerializeFields(children, e, v) == SerializeFields(children[i..], current, v)
    {
      if !v.VDict? {
        return Err(Uncaught);
      }
      var step := WriteOnParent(children[i], current, Get(v.fields, Alias(children[i])));
      if step.Err? {
        return Err(step.error);
      }
      assert children[i..][1..] == children[i + 1..];
      current := step.value;
      i := i + 1;
    }
    r := Ok(current);
  }

  /** _Array._serialize: the loop over the item values, appending one element each. */
  method WriteItems(item: Processor, arrayParent: Element, v: Value) returns (r: Result<Element>)
    ensures r == SerializeItems(item, arrayParent, v)
    decreases item, 4
  {
    if Falsy(v) {
      return Ok(arrayParent);
    }
    var values := Iterate(v);
    if values.Err? {
      return Err(values.error);
    }
    var vs := values.value;
    var current := arrayParent;
    var i := 0;
    while i < |vs|
      invariant 0 <= i <= |vs|
      invariant SerializeItems(item, arrayParent, v) == AppendItems(item, current, vs[i..])
    {
      var element := SerializeValue(item, vs[i]);
      if element.Err? {
        return Err(element.error);
      }
      assert vs[i..][1..] == vs[i + 1..];
      current := current.(children := current.children + [element.value]);
      i := i + 1;
    }
    r := Ok(current);
  }
}
