/** The Python values the engine reads and writes: None, bool, int, str, list and dict,
    with Python's truthiness and the str() conversion used when a value is written as
    element text or as an attribute. */
module Values {
  import opened Base
  import opened Text

  datatype Value =
    | VNone
    | VBool(b: bool)
    | VInt(i: int)
    | VStr(s: string)
    | VList(items: seq<Value>)
    | VDict(fields: map<string, Value>)

  /** Python's `not value`. */
  function Falsy(v: Value): (r: bool)
    ensures r <==> v in {VNone, VBool(false), VInt(0), VStr(""), VList([]), VDict(map[])}
  {
    match v
    case VNone => true
    case VBool(b) => !b
    case VInt(i) => i == 0
    case VStr(s) => s == ""
    case VList(items) => items == []
    case VDict(fields) => fields == map[]
  }

  /** dict.get(key): the entry, or None when the key is absent. */
  function Get(fields: map<string, Value>, key: string): Value {
    if key in fields then fields[key] else VNone
  }

  /** str(value). Strings are written as they are, booleans as True/False, ints in
      decimal, lists as their repr. */
  function PyStr(v: Value): (r: string)
    ensures v == VNone ==> r == "None"
    ensures v.VBool? ==> r == if v.b then "True" else "False"
    ensures v.VInt? ==> r == IntToDecimal(v.i)
    ensures v.VStr? ==> r == v.s
    ensures v.VList? ==> |r| >= 2 && r[0] == '[' && r[|r| - 1] == ']'
    decreases v, 0
  {
    match v
    case VNone => "None"
    case VBool(b) => if b then "True" else "False"
    case VInt(i) => IntToDecimal(i)
    case VStr(s) => s
    case VList(items) => "[" + ReprItems(items) + "]"
    case VDict(fields) => if fields == map[] then "{}" else "{...}"
  }

  function Repr(v: Value): string
    decreases v, 1
  {
    if v.VStr? then "'" + v.s + "'" else PyStr(v)
  }

  function ReprItems(items: seq<Value>): string
    decreases items, 2
  {
    if items == [] then ""
    else if |items| == 1 then Repr(items[0])
    else Repr(items[0]) + ", " + ReprItems(items[1..])
  }

  /** Only the empty string is written as empty text: every other value has a non-empty
      str(). This is why an attribute written from a value reads back as absent exactly
      when the value was "". */
  lemma PyStrEmpty(v: Value)
    ensures PyStr(v) == "" <==> v == VStr("")
  {
    if v.VInt? {
      if v.i < 0 {
        assert PyStr(v)[0] == '-';
      } else {
        assert |NatToDecimal(v.i)| > 0;
      }
    }
  }

  /** _parse_boolean(str(b)) == b: "True" and "False" lower-case to the accepted words. */
  lemma BooleanRoundTrip(b: bool)
    ensures ParseBoolean(Some(PyStr(VBool(b)))) == Ok(b)
  {
    if b {
      assert Lower("True") == "true";
    } else {
      assert Lower("False") == "false";
    }
  }
}
