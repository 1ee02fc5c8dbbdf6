/** The slice of xml.etree.ElementTree the engine uses, over an element tree held as a
    value: find(), findall(), Element(), append(), and the find-or-append helper
    _element_get_or_add_from_parent. Updating an element that the helper returned is
    modelled by returning its Location inside the parent and writing it back with
    Replace. */
module ElementTree {
  import opened Base

  datatype Element = Element(
    tag: string,
    text: Option<string>,
    attrs: map<string, string>,
    children: seq<Element>)

  /** ET.Element(tag): no text, no attributes, no children. */
  function NewElement(tag: string): Element {
    Element(tag, None, map[], [])
  }

  /** Where a lookup landed: the element itself (the path ".") or one of its children. */
  datatype Location = Self | Child(index: nat)

  predicate ValidLocation(parent: Element, loc: Location) {
    loc.Child? ==> loc.index < |parent.children|
  }

  function At(parent: Element, loc: Location): Element
    requires ValidLocation(parent, loc)
  {
    match loc
    case Self => parent
    case Child(i) => parent.children[i]
  }

  /** Writes back an element that was changed after a lookup. */
  function Replace(parent: Element, loc: Location, e: Element): Element
    requires ValidLocation(parent, loc)
  {
    match loc
    case Self => e
    case Child(i) => parent.(children := parent.children[i := e])
  }

  /** Index of the first element of children with the given tag. */
  function ChildIndex(children: seq<Element>, tag: string): (r: Option<nat>)
    ensures r.Some? ==> r.value < |children| && children[r.value].tag == tag
    ensures r.Some? ==> forall j :: 0 <= j < r.value ==> children[j].tag != tag
    ensures r.None? ==> forall j :: 0 <= j < |children| ==> children[j].tag != tag
  {
    if children == [] then None
    else if children[0].tag == tag then Some(0)
    else
      match ChildIndex(children[1..], tag)
      case None => None
      case Some(k) => Some(k + 1)
  }

  /** The elements of children whose tag is the given one, in document order. */
  function TagFilter(children: seq<Element>, tag: string): (r: seq<Element>)
    ensures |r| <= |children|
    ensures forall k :: 0 <= k < |r| ==> r[k].tag == tag
  {
    if children == [] then []
    else (if children[0].tag == tag then [children[0]] else []) + TagFilter(children[1..], tag)
  }

  /** The location find(name) resolves to: "." is the element itself, any other name the
      first direct child with that tag. */
  function Locate(parent: Element, name: string): (r: Option<Location>)
    ensures r.Some? ==> ValidLocation(parent, r.value)
  {
    if name == "." then Some(Self)
    else
      match ChildIndex(parent.children, name)
      case None => None
      case Some(i) => Some(Child(i))
  }

  /** element.find(name). */
  function Find(parent: Element, name: string): Option<Element> {
    match Locate(parent, name)
    case None => None
    case Some(loc) => Some(At(parent, loc))
  }

  /** find(name): "." is the element itself; a plain tag finds nothing exactly when no
      child has that tag, and otherwise a child with that tag (the first one, see
      FindIsFirstOfFindAll). */
  lemma FindSpec(parent: Element, name: string)
    ensures name == "." ==> Find(parent, name) == Some(parent)
    ensures name != "." ==>
              (Find(parent, name).None? <==>
                 forall j :: 0 <= j < |parent.children| ==> parent.children[j].tag != name)
    ensures name != "." && Find(parent, name).Some? ==>
              Find(parent, name).value in parent.children && Find(parent, name).value.tag == name
  {
  }

  /** element.findall(name). */
  function FindAll(parent: Element, name: string): seq<Element> {
    if name == "." then [parent] else TagFilter(parent.children, name)
  }

  /** findall(name) for a plain tag lists exactly the children with that tag: every
      element it lists is such a child, and every such child is listed; "." lists the
      element itself. */
  lemma {:induction false} FindAllMembers(parent: Element, name: string)
    ensures name == "." ==> FindAll(parent, name) == [parent]
    ensures name != "." ==>
              forall k :: 0 <= k < |FindAll(parent, name)| ==>
                FindAll(parent, name)[k].tag == name && FindAll(parent, name)[k] in parent.children
    ensures name != "." ==>
              forall j :: 0 <= j < |parent.children| && parent.children[j].tag == name ==>
                parent.children[j] in FindAll(parent, name)
  {
    if name != "." {
      TagFilterMembers(parent.children, name);
    }
  }

  /** TagFilter keeps exactly the children with the tag. */
  lemma {:induction false} TagFilterMembers(children: seq<Element>, tag: string)
    ensures forall k :: 0 <= k < |TagFilter(children, tag)| ==> TagFilter(children, tag)[k] in children
    ensures forall j :: 0 <= j < |children| && children[j].tag == tag ==>
              children[j] in TagFilter(children, tag)
  {
    if children != [] {
      TagFilterMembers(children[1..], tag);
      assert forall j :: 1 <= j < |children| ==> children[j] == children[1..][j - 1];
    }
  }

  /** find(name) for a plain tag is the first element findall(name) lists, and finds
      nothing exactly when findall finds nothing. */
  lemma {:induction false} FindIsFirstOfFindAll(children: seq<Element>, tag: string)
    ensures ChildIndex(children, tag).None? <==> TagFilter(children, tag) == []
    ensures ChildIndex(children, tag).Some? ==>
              TagFilter(children, tag)[0] == children[ChildIndex(children, tag).value]
  {
    if children != [] && children[0].tag != tag {
      FindIsFirstOfFindAll(children[1..], tag);
    }
  }

  lemma {:induction false} TagFilterAppend(a: seq<Element>, b: seq<Element>, tag: string)
    ensures TagFilter(a + b, tag) == TagFilter(a, tag) + TagFilter(b, tag)
  {
    if a == [] {
      assert a + b == b;
    } else {
      var head := if a[0].tag == tag then [a[0]] else [];
      assert (a + b)[0] == a[0];
      assert (a + b)[1..] == a[1..] + b;
      assert TagFilter(a + b, tag) == head + TagFilter(a[1..] + b, tag);
      TagFilterAppend(a[1..], b, tag);
      assert head + (TagFilter(a[1..], tag) + TagFilter(b, tag))
             == (head + TagFilter(a[1..], tag)) + TagFilter(b, tag);
    }
  }

  lemma {:induction false} TagFilterAll(children: seq<Element>, tag: string)
    requires forall k :: 0 <= k < |children| ==> children[k].tag == tag
    ensures TagFilter(children, tag) == children
  {
    if children != [] {
      TagFilterAll(children[1..], tag);
    }
  }

  lemma {:induction false} TagFilterNone(children: seq<Element>, tag: string)
    requires forall k :: 0 <= k < |children| ==> children[k].tag != tag
    ensures TagFilter(children, tag) == []
  {
    if children != [] {
      TagFilterNone(children[1..], tag);
    }
  }

  /** What find(tag) returns depends only on the children carrying that tag. */
  lemma FindLocal(a: Element, b: Element, tag: string)
    requires tag != "."
    requires TagFilter(a.children, tag) == TagFilter(b.children, tag)
    ensures Find(a, tag) == Find(b, tag)
  {
    FindIsFirstOfFindAll(a.children, tag);
    FindIsFirstOfFindAll(b.children, tag);
  }

  /** _element_get_or_add_from_parent: when find(name) succeeds, the parent is left as
      it is and the location of the found element is returned; otherwise exactly one new
      empty element named name is appended after the existing children, which are left
      untouched, and its location is returned. */
  function GetOrAdd(parent: Element, name: string): (r: (Element, Location))
    ensures ValidLocation(r.0, r.1)
    ensures r.0.tag == parent.tag && r.0.text == parent.text && r.0.attrs == parent.attrs
    ensures Find(parent, name).Some? ==>
              r.0 == parent && At(r.0, r.1) == Find(parent, name).value
    ensures Find(parent, name).None? ==>
              && r.0.children == parent.children + [NewElement(name)]
              && r.1 == Child(|parent.children|)
  {
    match Locate(parent, name)
    case Some(loc) => (parent, loc)
    case None =>
      (parent.(children := parent.children + [NewElement(name)]), Child(|parent.children|))
  }

  /** Two get-or-add calls with the same name add at most one element, and the second
      lands where the first did. This is what lets several attributes, and an attribute
      and a dictionary, share one element. */
  lemma GetOrAddTwice(parent: Element, name: string)
    ensures var (p1, l1) := GetOrAdd(parent, name);
            var (p2, l2) := GetOrAdd(p1, name);
            p2 == p1 && l2 == l1 && |p1.children| <= |parent.children| + 1
  {
    var (p1, l1) := GetOrAdd(parent, name);
    if name != "." && Find(parent, name).None? {
      var i := |parent.children|;
      assert p1.children[i].tag == name;
      assert forall j :: 0 <= j < i ==> p1.children[j].tag != name by {
        assert forall j :: 0 <= j < i ==> p1.children[j] == parent.children[j];
      }
      assert ChildIndex(p1.children, name) == Some(i);
    }
  }

  /** Writing back, at the location get-or-add returned, an element with the same tag
      leaves that element the one find(name) returns; for a plain tag the parent's own
      tag, text and attributes are untouched. */
  lemma FindAfterWrite(parent: Element, name: string, e: Element)
    requires e.tag == At(GetOrAdd(parent, name).0, GetOrAdd(parent, name).1).tag
    ensures Find(Replace(GetOrAdd(parent, name).0, GetOrAdd(parent, name).1, e), name) == Some(e)
    ensures name != "." ==>
              var r := Replace(GetOrAdd(parent, name).0, GetOrAdd(parent, name).1, e);
              r.tag == parent.tag && r.text == parent.text && r.attrs == parent.attrs
  {
    var (np, loc) := GetOrAdd(parent, name);
    if name != "." {
      var i := loc.index;
      var r := Replace(np, loc, e);
      assert np.children[i].tag == name;
      if Find(parent, name).Some? {
        assert ChildIndex(parent.children, name) == Some(i);
      } else {
        assert forall j :: 0 <= j < i ==> np.children[j] == parent.children[j];
      }
      assert forall j :: 0 <= j < i ==> r.children[j] == np.children[j];
      assert forall j :: 0 <= j < i ==> r.children[j].tag != name;
      assert r.children[i].tag == name;
      var c := ChildIndex(r.children, name);
      assert c.Some? && c.value <= i;
    }
  }

  function FirstIndexOf(s: string, c: char): (i: nat)
    requires c in s
    ensures i < |s| && s[i] == c && c !in s[..i]
  {
    if s[0] == c then 0 else FirstIndexOf(s[1..], c) + 1
  }

  /** tag.split('}')[1]: the text between the first '}' and the next '}' (or the end).
      A tag without '}' is returned as it is. */
  function StripNamespaceTag(tag: string): (r: string)
    ensures '}' !in r
    ensures '}' !in tag ==> r == tag
    ensures '}' in tag ==>
              var i := FirstIndexOf(tag, '}');
              r <= tag[i + 1..] && (|tag| == i + 1 + |r| || tag[i + 1 + |r|] == '}')
  {
    if '}' !in tag then tag
    else
      var rest := tag[FirstIndexOf(tag, '}') + 1..];
      if '}' in rest then rest[..FirstIndexOf(rest, '}')] else rest
  }

  /** Every tag of the tree with its namespace prefix removed. */
  function StripAll(e: Element): Element
    decreases e
  {
    Element(StripNamespaceTag(e.tag), e.text, e.attrs,
            seq(|e.children|, i requires 0 <= i < |e.children| => StripAll(e.children[i])))
  }

  /** b is a with every tag passed through StripNamespaceTag and nothing else changed. */
  ghost predicate Relabelled(a: Element, b: Element)
    decreases a
  {
    && b.tag == StripNamespaceTag(a.tag)
    && b.text == a.text && b.attrs == a.attrs
    && |b.children| == |a.children|
    && forall i :: 0 <= i < |a.children| ==> Relabelled(a.children[i], b.children[i])
  }

  /** No tag anywhere in the tree contains '}'. */
  ghost predicate NoNamespace(e: Element)
    decreases e
  {
    '}' !in e.tag && forall i :: 0 <= i < |e.children| ==> NoNamespace(e.children[i])
  }

  /** _xml_namespace_strip, as a function of the tree it rewrites. Only the root tag is
      looked at to decide whether anything is done. */
  function NamespaceStrip(root: Element): (r: Element)
    ensures '}' !in root.tag ==> r == root
    ensures '}' !in r.tag
  {
    if '}' !in root.tag then root else StripAll(root)
  }

  lemma {:induction false} StripAllRelabels(e: Element)
    ensures Relabelled(e, StripAll(e)) && NoNamespace(StripAll(e))
    decreases e
  {
    var r := StripAll(e);
    forall i | 0 <= i < |e.children|
      ensures Relabelled(e.children[i], r.children[i]) && NoNamespace(r.children[i])
    {
      StripAllRelabels(e.children[i]);
    }
  }

  /** When the root tag carries a namespace, every tag is stripped (tags without '}' are
      kept as they are) and nothing else changes; afterwards no tag carries '}'. */
  lemma NamespaceStripRelabels(root: Element)
    requires '}' in root.tag
    ensures Relabelled(root, NamespaceStrip(root)) && NoNamespace(NamespaceStrip(root))
  {
    StripAllRelabels(root);
  }

  /** Stripping twice is the same as stripping once. */
  lemma NamespaceStripIdempotent(root: Element)
    ensures NamespaceStrip(NamespaceStrip(root)) == NamespaceStrip(root)
  {
  }

  /** The in-place loop of _xml_namespace_strip over the subtree at e. */
  method StripTree(e: Element) returns (r: Element)
    ensures r == StripAll(e)
    decreases e
  {
    var kids := e.children;
    var i := 0;
    while i < |kids|
      invariant 0 <= i <= |kids| == |e.children|
      invariant forall j :: 0 <= j < i ==> kids[j] == StripAll(e.children[j])
      invariant forall j :: i <= j < |kids| ==> kids[j] == e.children[j]
    {
      var stripped := StripTree(kids[i]);
      kids := kids[i := stripped];
      i := i + 1;
    }
    var tag := e.tag;
    if '}' in tag {
      tag := StripNamespaceTag(tag);
    }
    r := Element(tag, e.text, e.attrs, kids);
  }

  /** _xml_namespace_strip: leaves the tree alone when the root tag has no namespace,
      and otherwise rewrites every tag. */
  method XmlNamespaceStrip(root: Element) returns (r: Element)
    ensures r == NamespaceStrip(root)
  {
    if '}' !in root.tag {
      return root;
    }
    r := StripTree(root);
  }
}
