/**
 The fragment of the JavaScript runtime that the chat widget relies on:
 the values a parsed JSON body can hold, their truthiness, property access
 that throws on `null`/`undefined`, and `String.prototype.trim`.
 Numbers are integers here; fractional numbers play no part in the widget.
 */
module JsRuntime {

  /** A JavaScript value as produced by `JSON.parse`, plus `undefined`. */
  datatype JsValue =
    | Undefined
    | Null
    | Bool(b: bool)
    | Num(n: int)
    | Str(s: string)
    | Arr(items: seq<JsValue>)
    | Obj(props: map<string, JsValue>)

  /** ToBoolean: `undefined`, `null`, `false`, `0` and `""` are falsy; every object is truthy. */
  predicate Truthy(v: JsValue) {
    match v
    case Undefined => false
    case Null => false
    case Bool(b) => b
    case Num(n) => n != 0
    case Str(s) => s != ""
    case Arr(_) => true
    case Obj(_) => true
  }

  /** The result of evaluating an expression that may throw a TypeError. */
  datatype Access = Threw | Got(v: JsValue)

  /**
   `v.name` for an own data property. Reading a property of `null` or
   `undefined` throws; a missing property, or any property of a primitive
   or an array, reads as `undefined` (none of the property names the widget
   reads is inherited from a prototype).
   */
  function Prop(v: JsValue, name: string): (r: Access)
    ensures r.Threw? <==> v.Undefined? || v.Null?
    ensures r.Got? && r.v != Undefined ==> v.Obj? && name in v.props && v.props[name] == r.v
    ensures v.Obj? && name in v.props ==> r == Got(v.props[name])
    ensures !v.Undefined? && !v.Null? && !(v.Obj? && name in v.props) ==> r == Got(Undefined)
  {
    match v
    case Undefined => Threw
    case Null => Threw
    case Obj(m) => if name in m then Got(m[name]) else Got(Undefined)
    case _ => Got(Undefined)
  }

  /** The ECMAScript LineTerminator code points; the regular-expression `.` matches none of them. */
  predicate IsLineTerminator(c: char) {
    c == '\n' || c == '\r' || c == '\U{2028}' || c == '\U{2029}'
  }

  /** WhiteSpace or LineTerminator: what `String.prototype.trim` strips. */
  predicate IsJsSpace(c: char) {
    || c == '\t' || c == '\U{000B}' || c == '\U{000C}' || c == ' '
    || c == '\U{00A0}' || c == '\U{FEFF}' || c == '\U{1680}'
    || ('\U{2000}' <= c <= '\U{200A}')
    || c == '\U{202F}' || c == '\U{205F}' || c == '\U{3000}'
    || IsLineTerminator(c)
  }

  predicate AllSpace(s: string) {
    forall i :: 0 <= i < |s| ==> IsJsSpace(s[i])
  }

  /** Drops leading white space: the result is the suffix that starts at the first non-space. */
  function TrimStart(s: string): (r: string)
    ensures |r| <= |s| && r == s[|s| - |r|..]
    ensures forall i :: 0 <= i < |s| - |r| ==> IsJsSpace(s[i])
    ensures |r| > 0 ==> !IsJsSpace(r[0])
    decreases |s|
  {
    if |s| > 0 && IsJsSpace(s[0]) then TrimStart(s[1..]) else s
  }

  /** Drops trailing white space: the result is the prefix that ends at the last non-space. */
  function TrimEnd(s: string): (r: string)
    ensures |r| <= |s| && r == s[..|r|]
    ensures forall i :: |r| <= i < |s| ==> IsJsSpace(s[i])
    ensures |r| > 0 ==> !IsJsSpace(r[|r| - 1])
    decreases |s|
  {
    if |s| > 0 && IsJsSpace(s[|s| - 1]) then TrimEnd(s[..|s| - 1]) else s
  }

  /** `s.trim()`. */
  function Trim(s: string): (r: string)
    ensures |r| <= |s|
    ensures r == [] <==> AllSpace(s)
    ensures |r| > 0 ==> !IsJsSpace(r[0]) && !IsJsSpace(r[|r| - 1])
  {
    var t := TrimStart(s);
    var r := TrimEnd(t);
    assert r == [] ==> t == [];
    r
  }

  /** The trimmed text is a contiguous slice of the input with only white space around it. */
  lemma TrimIsSlice(s: string)
    ensures var i := |s| - |TrimStart(s)|;
            && i + |Trim(s)| <= |s|
            && Trim(s) == s[i..i + |Trim(s)|]
            && (forall k :: 0 <= k < i ==> IsJsSpace(s[k]))
            && (forall k :: i + |Trim(s)| <= k < |s| ==> IsJsSpace(s[k]))
  {
    var t := TrimStart(s);
    var r := TrimEnd(t);
    PrefixOfSuffix(s, t, r);
  }

  /** A prefix `r` of a suffix `t` of `s` is a slice of `s`, and what follows it in `s` follows it in `t`. */
  lemma PrefixOfSuffix(s: string, t: string, r: string)
    requires |t| <= |s| && t == s[|s| - |t|..]
    requires |r| <= |t| && r == t[..|r|]
    ensures var i := |s| - |t|;
      && r == s[i..i + |r|]
      && forall k :: i + |r| <= k < |s| ==> s[k] == t[k - i]
  {
  }

  /** Trimming is idempotent. */
  lemma TrimIdempotent(s: string)
    ensures Trim(Trim(s)) == Trim(s)
  {
    var r := Trim(s);
    if |r| > 0 {
      assert TrimStart(r) == r;
      assert TrimEnd(r) == r;
    }
  }
}
