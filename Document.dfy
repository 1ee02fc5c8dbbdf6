/** The document entry points parse_from_string and serialize_to_string, between the
    element tree and the processors: the root processor check, namespace stripping of a
    parsed tree, and parse_at_root / serialize on the root. Turning XML text into a tree
    and back is not part of this model. */
module Document {
  import opened Base
  import opened Values
  import opened ElementTree
  import opened Processors
  import opened Parsing
  import opened Serialization
  import opened Serializer

  /** parse_from_string, from the parsed tree on. */
  function ParseDocument(p: Processor, root: Element): (r: Result<Value>)
    ensures !IsValidRootProcessor(p) ==> r == Err(InvalidRootProcessor)
    ensures p.Array? && !Truthy(p.nested) ==> r == Err(InvalidRootProcessor)
    ensures IsValidRootProcessor(p) && '}' !in root.tag ==> r == ParseAtRoot(p, root)
    ensures r.Ok? && p.Array? ==> r.value.VList?
  {
    if !IsValidRootProcessor(p) then Err(InvalidRootProcessor)
    else ParseAtRoot(p, NamespaceStrip(root))
  }

  /** serialize_to_string, up to the tree it converts to text. */
  function SerializeDocument(p: Processor, v: Value): (r: Result<Element>)
    ensures !IsValidRootProcessor(p) ==> r == Err(InvalidRootProcessor)
    ensures p.Array? && p.nested.None? ==> r == Err(InvalidRootProcessor)
    ensures IsValidRootProcessor(p) ==> r == Serialize(p, v)
    ensures r.Ok? ==> r.value.tag == if p.Array? then p.nested.value else p.elementName
  {
    if !IsValidRootProcessor(p) then Err(InvalidRootProcessor)
    else Serialize(p, v)
  }

  /** parse_from_string as the source runs it: the tree's tags are rewritten in place
      before the root processor reads it. */
  method ParseTree(p: Processor, root: Element) returns (r: Result<Value>)
    ensures r == ParseDocument(p, root)
  {
    if !IsValidRootProcessor(p) {
      return Err(InvalidRootProcessor);
    }
    var stripped := XmlNamespaceStrip(root);
    r := ParseAtRoot(p, stripped);
  }

  /** serialize_to_string as the source runs it, up to the conversion to text. */
  method SerializeTree(p: Processor, v: Value) returns (r: Result<Element>)
    ensures r == SerializeDocument(p, v)
  {
    if !IsValidRootProcessor(p) {
      return Err(InvalidRootProcessor);
    }
    r := SerializeValue(p, v);
  }

  /** A primitive processor cannot be a document root, in either direction. */
  lemma PrimitiveRootRejected(p: Processor, root: Element, v: Value)
    requires p.Primitive?
    ensures ParseDocument(p, root) == Err(InvalidRootProcessor)
    ensures SerializeDocument(p, v) == Err(InvalidRootProcessor)
  {
  }

  /** Namespace prefixes never reach the processors: a tree reads the same as its
      stripped form. */
  lemma NamespacesIgnored(p: Processor, root: Element)
    ensures ParseDocument(p, root) == ParseDocument(p, NamespaceStrip(root))
  {
    NamespaceStripIdempotent(root);
  }
}
