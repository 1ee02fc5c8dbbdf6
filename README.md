# declxml, modelled in Dafny

declxml turns XML into Python values and back. The mapping is declared by a tree of
*processors*:

- primitives: `boolean`, `integer` and `string`;
- `dictionary`;
- `array`;
- aggregates: `named_tuple` and `user_object`.

One processor tree drives both directions:

- `parse_from_string` reads a document into nested dicts, lists and scalars;
- `serialize_to_string` writes such a value back as a document.

This project models the processor engine of `declxml.py`:

- the four processor classes (`_PrimitiveValue`, `_Dictionary`, `_Array`, `_Aggregate`), with their constructors and their `parse_at_element`, `parse_from_parent`, `parse_at_root`, `serialize` and `serialize_on_parent` methods;
- the text parsers `_parse_boolean`, `_parse_int` and `_parse_string`;
- `str()` on the written values;
- the find-or-append helper `_element_get_or_add_from_parent`;
- the root check `_is_valid_root_processor`;
- the in-place namespace stripper `_xml_namespace_strip`;
- the two document entry points, on element trees.

Modules:

- `Base`: Option, Result and the error kinds. The errors are:
  - `MissingValue`, `InvalidPrimitiveValue` and `InvalidRootProcessor`, the XmlError subclasses;
  - `Uncaught`, for any Python exception that declxml lets escape (a TypeError, AttributeError or converter failure).
- `Text`: Python's `str.strip`, `str.lower` and `int()` in base 10, plus the three text parsers. `int()` is Python 3.6 or later, which accepts single underscores between digits. The two functions skip different whitespace:
  - `str.strip()` removes every `str.isspace()` character (`StrBlanks`);
  - `int()` skips the same set except the separators U+001C to U+001F, which it rejects (`IntBlanks`).
- `Values`: the Python values the engine handles, their truthiness and `str()`.
- `ElementTree`: the element tree as a value, covering `find`, `findall`, `Element` and `append`. It also holds the get-or-add helper and the namespace stripper. The stripper is a function, and a method with the source's loop is proved equal to it.
- `Processors`: the processor datatype, the attributes the constructors compute (alias, required, omit_empty), and the factory functions with their default arguments.
- `Parsing` / `ParsingFacts`: the parse side as functions, and what they promise.
- `Serialization` / `SerializationFacts`: the serialize side as functions. Each one returns the tree the Python method leaves behind after mutating it. The second module states what they promise.
- `Serializer`: the serialize side as methods. The source's two `for` loops become `while` loops. Each method is proved to return what the function of the same operation describes.
- `Document`: `parse_from_string` and `serialize_to_string`, from the parsed tree on and up to the tree written out.
- `RoundTrip`: the round trip that the comment at declxml.py:534-538 gives as the reason a required value is never omitted: data serialized by a processor can be parsed by it. Serializing a value and parsing the result gives the value back when two conditions hold:
  - the processor tree is a `Layout` tree: the children of each dictionary have distinct tags and distinct aliases, no processor's element name is ".", a nested array's wrapper is neither "" nor ".", and an embedded array's items are not arrays themselves;
  - the value conforms to it (`ConformsAsItem` / `ConformsOnParent`). This excludes the values the processors lose. A falsy value of an `omit_empty` primitive with a different default reads back as that default: `integer("n", default=5, omit_empty=True)` given 0 reads back 5. A string with surrounding whitespace, under a stripping `string` processor, reads back stripped: `" a "` reads back `"a"`.

  For whole documents, the root's tag must also not contain `}`. The module also gives a concrete case where a value is lost.

## Model

| member | source | states |
|---|---|---|
| Text.Strip | declxml.py:692 | `str.strip()` (with `StrBlanks`), and the whitespace `int()` skips (with `IntBlanks`): the result is a slice of the input with only whitespace of that set outside it, and it neither starts nor ends with such whitespace |
| Text.StripIdempotent | declxml.py:692 | stripping twice is stripping once |
| Text.ParseBoolean | declxml.py:653-663 | True iff the lower-cased text is "true", False iff it is "false", InvalidPrimitiveValue for any other text, an uncaught error for a missing text |
| Values.BooleanRoundTrip | declxml.py:653-663 | `_parse_boolean(str(b)) == b` |
| Text.ParseInt | declxml.py:676-683 | a missing text is an uncaught TypeError; every other failure is InvalidPrimitiveValue |
| Text.IntRoundTrip | declxml.py:676-683 | `_parse_int(str(i)) == i` for every integer |
| Text.ParseIntIgnoresSpace | declxml.py:676-683 | `int()` ignores the whitespace it skips (`IntBlanks`: `str.isspace()` without U+001C to U+001F) around the number |
| Text.ParseIntRejectsLead | declxml.py:676-683 | a text whose first character after that whitespace is neither a digit nor a sign is InvalidPrimitiveValue |
| Text.IntRejectsSeparator | declxml.py:676-683 | the two whitespace sets differ: `str.strip()` turns "\x1c5" into "5", yet `int("\x1c5")` is a ValueError, so InvalidPrimitiveValue |
| Text.ParseString | declxml.py:686-698 | a missing text reads as ""; the text is `str.strip()`ped (Strip) when strip_whitespace is set and is kept verbatim otherwise |
| Values.PyStr | declxml.py:606-612 | `str()`: "None", "True"/"False", the decimal digits of an int, a string as it is, a list bracketed |
| Values.Falsy | declxml.py:582-583 | `not value`: true exactly for None, False, 0, "", [] and {} |
| Values.PyStrEmpty | declxml.py:606-612 | `str(value)` is empty exactly for the empty string |
| Processors.ParseText | declxml.py:653-698 | each parser_func yields its own type; a string parser never fails; a failure is uncaught exactly when the text is missing, and otherwise InvalidPrimitiveValue |
| Processors.MakePrimitive | declxml.py:510-544 | required and element name as given; omit_empty iff requested and not required; alias precedence alias, then attribute, then element name |
| Processors.MakeDictionary | declxml.py:440-447 | required and element name as given; the alias falls back to the element name |
| Processors.MakeArray | declxml.py:329-346 | required is the item's; omit_empty iff requested, nested and not required; alias precedence alias, then nested, then the item's alias |
| Processors.MakeAggregate | declxml.py:290-298 | required, element name and alias as for the dictionary it wraps; always a valid root |
| Processors.OmitEmpty | declxml.py:339-346 | omit_empty is never set on a required processor; only a primitive or a nested array can have it |
| Processors.Record | declxml.py:290-298 | the dictionary an aggregate delegates to has the aggregate's children, alias, required flag, element name and omit_empty |
| Processors.IsValidRootProcessor | declxml.py:648-650 | dictionaries, arrays and aggregates have `parse_at_root` and may be roots; primitives may not |
| Processors.Boolean | declxml.py:189-209 | a boolean primitive with the given default (False unless given); required and omit_empty as MakePrimitive settles them; never a valid root |
| Processors.Integer | declxml.py:237-243 | an integer primitive with the given default (0 unless given); required and omit_empty as MakePrimitive settles them; never a valid root |
| Processors.String | declxml.py:258-268 | a string primitive with the given default ('' unless given) and strip_whitespace flag; required and omit_empty as MakePrimitive settles them; never a valid root |
| ElementTree.FindSpec | declxml.py:628 | `find(name)`: "." is the element itself; a plain tag finds nothing iff no child has it, and otherwise a child with that tag |
| ElementTree.FindAllMembers | declxml.py:370-372 | `findall(name)` lists exactly the children with that tag; "." lists the element itself |
| ElementTree.GetOrAdd | declxml.py:620-633 | when find succeeds, the parent is unchanged and the found element is returned; otherwise exactly one new empty element is appended after the untouched children |
| ElementTree.GetOrAddTwice | declxml.py:620-633 | a second get-or-add with the same name adds nothing and lands on the same element |
| ElementTree.FindAfterWrite | declxml.py:620-633 | after the element returned is written back, find(name) returns it, and the parent's own tag, text and attributes are kept |
| ElementTree.StripNamespaceTag | declxml.py:725 | `tag.split('}')[1]`: the text between the first '}' and the next one; tags without '}' are kept |
| ElementTree.NamespaceStrip | declxml.py:718-725 | nothing happens when the root tag has no '}'; afterwards the root tag has none |
| ElementTree.NamespaceStripRelabels | declxml.py:718-725 | when the root tag has '}', every tag of the tree is stripped, nothing else changes, and no tag keeps a '}' |
| ElementTree.NamespaceStripIdempotent | declxml.py:718-725 | stripping namespaces twice is stripping once |
| ElementTree.StripTree | declxml.py:723-725 | the loop over `root.iter()` rewrites the tree to its stripped form |
| ElementTree.XmlNamespaceStrip | declxml.py:718-725 | the in-place stripper leaves the tree that NamespaceStrip describes |
| Parsing.FromDict | declxml.py:300-313 | a converter failure is an uncaught error, and a successful conversion is the result of from_dict |
| Parsing.ParseAttribute | declxml.py:589-599 | a missing attribute or one holding "" gives the default, or MissingValue when required; a present one is parsed by parser_func; no other error can arise |
| Parsing.ParseFields | declxml.py:453-455 | no children leave the dict as it was; a successful loop only adds keys |
| Parsing.ParseAtElement | declxml.py:300-303 | a missing element of a required processor is MissingValue; a dictionary yields a dict, an array a list that is non-empty when required; the other kinds are declxml.py:348-350, 449-459 and 547-559 |
| Parsing.ParseDictionary | declxml.py:449-459 | a missing element gives {} or MissingValue as required says; success yields a dict |
| Parsing.ParseArray | declxml.py:410-423 | a list with one value per item element, never empty when required |
| Parsing.ParseItems | declxml.py:418 | one parsed value per item element |
| Parsing.ParseFromParent | declxml.py:366-374 | a dictionary yields a dict and an array a list; an embedded array of arrays fails, since an array has no element_name; the other kinds are declxml.py:310-313, 472-475 and 561-564 |
| Parsing.ParseAtRoot | declxml.py:352-364 | a non-nested array is refused; a root with another tag reads as missing (MissingValue, {} or []); the other kinds are declxml.py:305-308 and 461-470 |
| ParsingFacts.AbsentElement | declxml.py:547-559 | a missing element gives the default when not required and MissingValue when required: the primitive default, {} or [] |
| ParsingFacts.EmptyAttributeIsAbsent | declxml.py:589-599 | an attribute that is missing or holds "" reads exactly as a missing element |
| ParsingFacts.PresentValueIgnoresDefault | declxml.py:547-559 | a present value is the parser's result, whatever the default |
| ParsingFacts.PresentZeroIsKept | declxml.py:547-564 | `<n>0</n>` reads as 0 even with a default of 5 |
| ParsingFacts.ParseFieldsKeys | declxml.py:453-455 | the dictionary loop adds exactly one key per child alias |
| ParsingFacts.ParseFieldsOk | declxml.py:453-455 | the loop succeeds iff every child parses; its error is the first failing child's |
| ParsingFacts.ParseFieldsValues | declxml.py:453-455 | each key holds the value the last child with that alias parsed |
| ParsingFacts.ParseFieldsUntouched | declxml.py:453-455 | keys no child names keep their earlier value |
| ParsingFacts.DictionaryParse | declxml.py:449-459 | a present dictionary parses iff all children do; its keys are exactly the aliases and each child's value sits under its alias |
| ParsingFacts.ParseFieldsAll | declxml.py:449-459 | with distinct aliases, children that each read the map's value give back exactly that map |
| ParsingFacts.RootTagMismatch | declxml.py:461-470 | a root whose tag differs from the dictionary's reads as a missing element |
| ParsingFacts.ParseItemsSpec | declxml.py:417-418 | one value per item element, in order; the list fails iff an item does |
| ParsingFacts.ParseArrayShape | declxml.py:410-423 | a list, non-empty when required, of the length of the items; no items give [] or MissingValue |
| ParsingFacts.NestedArrayReadsEveryChild | declxml.py:366-369 | a nested array reads every child of its wrapper, in order, whatever their tags |
| ParsingFacts.EmbeddedArrayReadsMatchingChildren | declxml.py:370-372 | an embedded array reads the parent's children named after the item, in order |
| ParsingFacts.NonNestedArrayRoot | declxml.py:352-356 | a non-nested array as root is InvalidRootProcessor |
| ParsingFacts.AggregateDelegates | declxml.py:300-313 | an aggregate parses as its dictionary and converts the result with from_dict |
| Serialization.ToDict | declxml.py:315-323 | a converter failure is an uncaught error, and a successful conversion is the result of to_dict |
| Serialization.PrimitiveText | declxml.py:601-612 | a value other than None is written as str(value); the text is empty exactly for "" or for None with a default of None or "" |
| Serialization.WritePrimitive | declxml.py:614-617 | the attribute is set when the processor has one, and the text otherwise; nothing else of the element changes |
| Serialization.Iterate | declxml.py:432 | a list iterates its items, a string its characters; any other value is not iterable (an uncaught error) |
| Serialization.Serialize | declxml.py:376-391 | a primitive always serializes; a non-nested array is refused; a falsy value of a required dictionary or array is MissingValue; the new element is named after the processor; the other kinds are declxml.py:315-318, 477-486 and 566-575 |
| Serialization.SerializeDictionary | declxml.py:477-486 | the new element carries the dictionary's name |
| Serialization.SerializeFields | declxml.py:500-504 | a value that is not a dict fails in `.get`; the element keeps its tag and loses no child |
| Serialization.SerializeOnParent | declxml.py:577-587 | None for a required processor is MissingValue; an omitted falsy value leaves the parent as it was; the parent keeps its tag and loses no child; the other kinds are declxml.py:320-323, 393-408 and 488-498 |
| Serialization.SerializeDictionaryOnParent | declxml.py:488-498 | the parent keeps its tag and loses no child |
| Serialization.SerializeItems | declxml.py:425-434 | a falsy value writes nothing; a list appends exactly one element per value |
| Serialization.AppendItems | declxml.py:432-434 | the loop appends one element per value |
| SerializationFacts.PrimitiveRequiredNone | declxml.py:580-581 | a required primitive refuses None |
| SerializationFacts.PrimitiveOmitted | declxml.py:583-584 | a falsy value with omit_empty leaves the parent unchanged |
| SerializationFacts.PrimitiveWritten | declxml.py:586-617 | otherwise find(element_name) afterwards holds the written text in the attribute or text, at most one child is added, and the parent itself is unchanged |
| SerializationFacts.SharedElement | declxml.py:620-633 | two primitives on one element name, the second writing another attribute, share one element: at most one child is added and both writes are found there |
| SerializationFacts.PrimitiveTextOfValue | declxml.py:601-612 | None is written as str(default), or "" for a default of None; any other value, falsy ones included, as str(value) |
| SerializationFacts.SerializeFieldsSplit | declxml.py:502-504 | the child loop cut after any child: the rest continues from the element the first part left |
| SerializationFacts.MissingRequiredField | declxml.py:502-504 | a dict without the key of a required, non-aggregate child is MissingValue once the loop reaches that child (`.get` gives None) |
| SerializationFacts.MissingOptionalField | declxml.py:502-504 | a dict without the key of an optional primitive child writes that child as None: str(default) or "" in its attribute or text, unless omit_empty drops it |
| SerializationFacts.AppendItemsSpec | declxml.py:432-434 | the loop succeeds iff every item serializes; it then appends the items in order after the untouched children |
| SerializationFacts.PrimitiveItemsNeverOmitted | declxml.py:571-575 | primitive items are never omitted: one element per value, None included |
| SerializationFacts.ArrayOnParent | declxml.py:393-408 | an embedded array appends its items to the parent, a nested one to its wrapper, one per value |
| SerializationFacts.ArrayEmptyOnParent | declxml.py:393-408 | an empty array is refused when required and skipped with omit_empty; an embedded one writes nothing, and a nested one still writes its empty wrapper |
| SerializationFacts.NonNestedArraySerialize | declxml.py:380-382 | a non-nested array cannot be serialized on its own |
| SerializationFacts.DictionaryEmptyOnParent | declxml.py:488-495 | an empty dictionary is refused when required and otherwise leaves the parent unchanged |
| Serializer.SerializeValue | declxml.py:315-318 | `serialize` of every processor kind returns what Serialize describes; the other kinds are declxml.py:376-391, 477-486 and 566-575 |
| Serializer.WriteOnParent | declxml.py:577-587 | `serialize_on_parent` of every kind leaves the parent that SerializeOnParent describes |
| Serializer.WriteDictionaryOnParent | declxml.py:488-498 | `_Dictionary.serialize_on_parent` as SerializeDictionaryOnParent describes |
| Serializer.WriteFields | declxml.py:500-504 | the loop over the child processors computes SerializeFields |
| Serializer.WriteItems | declxml.py:425-434 | the loop over the item values computes SerializeItems |
| Document.ParseDocument | declxml.py:85-99 | an invalid root, or a non-nested array, is InvalidRootProcessor; a tree without namespaces is read by parse_at_root as it is; an array root reads a list |
| Document.SerializeDocument | declxml.py:117-127 | an invalid root, or a non-nested array, is InvalidRootProcessor; a valid root is serialized; the root element is named after the processor (the wrapper for an array) |
| Document.ParseTree | declxml.py:85-99 | `parse_from_string` on a parsed tree: root check, in-place namespace strip, then parse_at_root |
| Document.SerializeTree | declxml.py:117-127 | `serialize_to_string` up to the text: root check, then serialize |
| Document.PrimitiveRootRejected | declxml.py:648-650 | a primitive is not a valid root, in either direction |
| Document.NamespacesIgnored | declxml.py:96-97 | a document reads the same as its namespace-stripped form |
| RoundTrip.TextRoundTrip | declxml.py:653-698 | each parser reads back what `str()` wrote, for the values it can represent |
| RoundTrip.ParseLocal | declxml.py:561-564 | what a processor reads from a parent depends only on the children with its tag |
| RoundTrip.GetOrAddFresh | declxml.py:620-633 | on a parent without that tag, get-or-add appends a fresh element that find then returns |
| RoundTrip.RoundTripItem | declxml.py:566-575 | serialize followed by parse_at_element gives the value back |
| RoundTrip.RoundTripItems | declxml.py:432-434 | the item loop writes elements that parse back to the values, in order |
| RoundTrip.RoundTripFields | declxml.py:500-504 | each child, written in order, reads its own value back from the finished element |
| RoundTrip.RoundTripOnParent | declxml.py:577-587 | serialize_on_parent followed by parse_from_parent gives the value back and leaves other tags alone |
| RoundTrip.DocumentRoundTrip | declxml.py:85-136 | parse_from_string(serialize_to_string(v)) == v on element trees, for Layout processor trees and conforming values |
| RoundTrip.EmptyRequiredAttributeIsLost | declxml.py:589-599 | a required attribute written as "" reads back as MissingValue |

## Left out

- Floating point (`floating_point`, `_parse_float`): the model has no floats.
- Reading and writing files, and XML text itself: `ET.fromstring`, `ET.tostring` and minidom pretty-printing are not modelled. The documents work on element trees.
- The `named_tuple` and `user_object` converters, which use reflection: an aggregate takes an abstract from_dict / to_dict pair, and a failing conversion is an uncaught error.
- The warnings the constructors emit for an ignored omit_empty: only the resulting flag is modelled.
- Error message text: only the error kind is kept.
- ElementPath syntax other than a plain tag and ".": `find` and `findall` are modelled for those two forms only.
- Text.ParseInt: non-ASCII decimal digits, which Python's `int()` accepts, are not modelled.
- Text.Lower: only ASCII letters are lowered. This is exact for comparing against "true" and "false".
- Values.PyStr: a non-empty dict prints as a fixed non-empty placeholder, and strings inside a list are quoted without escaping.
- Serialization.Iterate: iterating a dict value is an uncaught error in the model. In Python it would iterate the keys, but a map has no order.
- In-place mutation and aliasing: serialization passes trees by value and returns the new tree. Two processors that write the same element (an attribute and text under one tag) are modelled by get-or-add on the returned tree.
- RoundTrip.DocumentRoundTrip: holds only for Layout processor trees and conforming values, as listed under `RoundTrip` above. Processors that share one element are not covered.
- Processors.Alias: a primitive's alias falls back to the attribute name before the element name, as the constructor does at declxml.py:527-532. The factory docstring at declxml.py:199-200 only mentions the element name.
- Text.ParseInt: a missing text makes `int(None)` raise TypeError. This escapes as an uncaught error, not InvalidPrimitiveValue.
- Parsing.ParseFromParent: a nested array parses every child of its wrapper, whatever the children's tags: `parent.find(nested)` at declxml.py:366-369 returns the wrapper, and `_parse` at declxml.py:410-418 iterates all of its children.
- Parsing.ParseAtRoot: requires a valid root processor, because a primitive has no `parse_at_root`. Document.ParseDocument checks this first.
- Serialization.SerializeFields: a dictionary or aggregate given a truthy non-dict value fails in `.get` (an uncaught error), because the code does not check the type.
- Text.ParseInt: Python 2.7, 3.4 and 3.5, on which declxml also runs, reject underscores in `int()` (`int("1_000")` is a ValueError, so InvalidPrimitiveValue there). The model follows Python 3.6 and later.
- Values.PyStr: on Python 2.7, `str()` of a unicode value with non-ASCII characters raises UnicodeEncodeError. The model writes every string as it is, as Python 3 does.
- Values.Value: a dict is a map, so the insertion order of its keys is lost. Nothing in the engine depends on that order except the text of `str()` of a dict, which the model does not keep (see Values.PyStr).
- Text.IntRoundTrip: the limit on int/str conversion of CPython 3.11 and later (also in 3.7.14, 3.8.14, 3.9.14 and 3.10.7) is not modelled. There, `str()` of an int of more than 4300 digits raises ValueError (uncaught when serializing), and `int()` of such text is a ValueError, that is InvalidPrimitiveValue. The model, and the round trip proved for every integer, follow the versions without that limit.
