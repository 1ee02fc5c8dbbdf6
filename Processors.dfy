/** The processor tree: the four processor kinds of declxml.py, the attributes their
    constructors compute (alias, required, omit_empty, element_name), the parser function
    of a primitive, and the public factory functions with their default arguments. */
module Processors {
  import opened Base
  import opened Text
  import opened Values

  /** Which parser_func a primitive processor was built with. */
  datatype PrimitiveKind = BooleanKind | IntegerKind | StringKind(stripWhitespace: bool)

  /** The parser_func applied to an element's text or an attribute's value. */
  function ParseText(kind: PrimitiveKind, text: Option<string>): (r: Result<Value>)
    ensures kind.BooleanKind? && r.Ok? ==> r.value.VBool?
    ensures kind.IntegerKind? && r.Ok? ==> r.value.VInt?
    ensures kind.StringKind? ==> r.Ok? && r.value.VStr?
    ensures r.Err? ==> (r.error == Uncaught <==> text.None?)
    ensures r.Err? ==> r.error in {Uncaught, InvalidPrimitiveValue}
  {
    match kind
    case BooleanKind =>
      var b :- ParseBoolean(text);
      Ok(VBool(b))
    case IntegerKind =>
      var i :- ParseInt(text);
      Ok(VInt(i))
    case StringKind(strip) => Ok(VStr(ParseString(strip, text)))
  }

  /** The from_dict / to_dict pair of an aggregate. None stands for the converter raising
      (a named tuple built from a dict that lacks a field, None._asdict(), ...). */
  datatype Converter = Converter(fromDict: Value -> Option<Value>, toDict: Value -> Option<Value>)

  /** A processor as its constructor stores it. Optional string arguments are Options so
      that None and "" can be told apart where the source does. An aggregate keeps the
      arguments of the dictionary processor it delegates to (see Record). */
  datatype Processor =
    | Primitive(elementName: string, kind: PrimitiveKind, attribute: Option<string>,
                required: bool, aliasArg: Option<string>, default: Value, omitEmptyArg: bool)
    | Dictionary(elementName: string, children: seq<Processor>, required: bool,
                 aliasArg: Option<string>)
    | Array(item: Processor, aliasArg: Option<string>, nested: Option<string>,
            omitEmptyArg: bool)
    | Aggregate(elementName: string, converter: Converter, children: seq<Processor>,
                required: bool, aliasArg: Option<string>)

  /** The _Dictionary an aggregate builds from its own arguments and delegates to. */
  function Record(p: Processor): (r: Processor)
    requires p.Aggregate?
    ensures r.Dictionary? && r.children == p.children
    ensures Alias(r) == Alias(p) && Required(r) == Required(p)
    ensures ElementName(r) == ElementName(p) && OmitEmpty(r) == OmitEmpty(p)
  {
    Dictionary(p.elementName, p.children, p.required, p.aliasArg)
  }

  /** Python truthiness of an optional string argument. */
  predicate Truthy(o: Option<string>) {
    o.Some? && o.value != ""
  }

  /** The alias attribute: the key of the processor's value in its parent dictionary. */
  function Alias(p: Processor): string {
    match p
    case Primitive(name, _, attribute, _, alias, _, _) =>
      if Truthy(alias) then alias.value
      else if Truthy(attribute) then attribute.value
      else name
    case Dictionary(name, _, _, alias) => if Truthy(alias) then alias.value else name
    case Array(item, alias, nested, _) =>
      if Truthy(alias) then alias.value
      else if Truthy(nested) then nested.value
      else Alias(item)
    case Aggregate(name, _, _, _, alias) => if Truthy(alias) then alias.value else name
  }

  /** The required attribute. An array is required exactly when its item processor is. */
  function Required(p: Processor): bool {
    match p
    case Primitive(_, _, _, required, _, _, _) => required
    case Dictionary(_, _, required, _) => required
    case Array(item, _, _, _) => Required(item)
    case Aggregate(_, _, _, required, _) => required
  }

  /** The omit_empty attribute the constructors settle on: the argument is ignored for a
      required primitive, and for an array that is embedded or required. Dictionaries and
      aggregates have no such option. */
  function OmitEmpty(p: Processor): (r: bool)
    ensures r ==> !Required(p)
    ensures r ==> (p.Primitive? && p.omitEmptyArg)
                  || (p.Array? && Truthy(p.nested) && p.omitEmptyArg)
  {
    match p
    case Primitive(_, _, _, required, _, _, omitEmpty) => !required && omitEmpty
    case Array(_, _, nested, omitEmpty) =>
      if !Truthy(nested) || Required(p) then false else omitEmpty
    case Dictionary(_, _, _, _) => false
    case Aggregate(_, _, _, _, _) => false
  }

  /** The element_name attribute. Arrays do not have one. */
  function ElementName(p: Processor): Option<string> {
    match p
    case Primitive(name, _, _, _, _, _, _) => Some(name)
    case Dictionary(name, _, _, _) => Some(name)
    case Array(_, _, _, _) => None
    case Aggregate(name, _, _, _, _) => Some(name)
  }

  /** _is_valid_root_processor: only processors with a parse_at_root method, which a
      primitive lacks. */
  function IsValidRootProcessor(p: Processor): (r: bool)
    ensures r <==> p.Dictionary? || p.Array? || p.Aggregate?
  {
    !p.Primitive?
  }

  /** _PrimitiveValue(...). The alias falls back to the attribute name and then to the
      element name; a required primitive is never omitted. */
  function MakePrimitive(elementName: string, kind: PrimitiveKind,
                         attribute: Option<string> := None, required: bool := true,
                         alias: Option<string> := None, default: Value := VNone,
                         omitEmpty: bool := false): (r: Processor)
    ensures Required(r) == required && ElementName(r) == Some(elementName)
    ensures OmitEmpty(r) <==> omitEmpty && !required
    ensures Truthy(alias) ==> Alias(r) == alias.value
    ensures !Truthy(alias) && Truthy(attribute) ==> Alias(r) == attribute.value
    ensures !Truthy(alias) && !Truthy(attribute) ==> Alias(r) == elementName
  {
    Primitive(elementName, kind, attribute, required, alias, default, omitEmpty)
  }

  /** _Dictionary(...). */
  function MakeDictionary(elementName: string, children: seq<Processor>,
                          required: bool := true, alias: Option<string> := None): (r: Processor)
    ensures Required(r) == required && ElementName(r) == Some(elementName) && !OmitEmpty(r)
    ensures Alias(r) == if Truthy(alias) then alias.value else elementName
  {
    Dictionary(elementName, children, required, alias)
  }

  /** _Array(...). The array takes its required flag from its item; omit_empty survives
      only for a nested array whose item is not required; the alias falls back to the
      wrapper name and then to the item's alias. */
  function MakeArray(item: Processor, alias: Option<string> := None,
                     nested: Option<string> := None, omitEmpty: bool := false): (r: Processor)
    ensures Required(r) == Required(item) && ElementName(r).None?
    ensures OmitEmpty(r) <==> omitEmpty && Truthy(nested) && !Required(item)
    ensures Truthy(alias) ==> Alias(r) == alias.value
    ensures !Truthy(alias) && Truthy(nested) ==> Alias(r) == nested.value
    ensures !Truthy(alias) && !Truthy(nested) ==> Alias(r) == Alias(item)
  {
    Array(item, alias, nested, omitEmpty)
  }

  /** _Aggregate(...): a dictionary processor behind a converter pair, with the same
      element name, required flag and alias as that dictionary. */
  function MakeAggregate(elementName: string, converter: Converter, children: seq<Processor>,
                         required: bool := true, alias: Option<string> := None): (r: Processor)
    ensures Required(r) == required && ElementName(r) == Some(elementName) && !OmitEmpty(r)
    ensures Alias(r) == if Truthy(alias) then alias.value else elementName
    ensures IsValidRootProcessor(r)
  {
    Aggregate(elementName, converter, children, required, alias)
  }

  /** boolean(...), with its default of False. */
  function Boolean(elementName: string, attribute: Option<string> := None,
                   required: bool := true, alias: Option<string> := None,
                   default: Value := VBool(false), omitEmpty: bool := false): (r: Processor)
    ensures r.Primitive? && r.kind == BooleanKind && r.default == default
    ensures Required(r) == required && (OmitEmpty(r) <==> omitEmpty && !required)
    ensures !IsValidRootProcessor(r)
  {
    MakePrimitive(elementName, BooleanKind, attribute, required, alias, default, omitEmpty)
  }

  /** integer(...), with its default of 0. */
  function Integer(elementName: string, attribute: Option<string> := None,
                   required: bool := true, alias: Option<string> := None,
                   default: Value := VInt(0), omitEmpty: bool := false): (r: Processor)
    ensures r.Primitive? && r.kind == IntegerKind && r.default == default
    ensures Required(r) == required && (OmitEmpty(r) <==> omitEmpty && !required)
    ensures !IsValidRootProcessor(r)
  {
    MakePrimitive(elementName, IntegerKind, attribute, required, alias, default, omitEmpty)
  }

  /** string(...), with its default of '' and whitespace stripping on. */
  function String(elementName: string, attribute: Option<string> := None,
                  required: bool := true, alias: Option<string> := None,
                  default: Value := VStr(""), omitEmpty: bool := false,
                  stripWhitespace: bool := true): (r: Processor)
    ensures r.Primitive? && r.kind == StringKind(stripWhitespace) && r.default == default
    ensures Required(r) == required && (OmitEmpty(r) <==> omitEmpty && !required)
    ensures !IsValidRootProcessor(r)
  {
    MakePrimitive(elementName, StringKind(stripWhitespace), attribute, required, alias,
                  default, omitEmpty)
  }
}
