/**
 The fragment of PHP's value model that the AJAX handler relies on: the
 values `json_decode($body, true)` can produce (objects decode to
 associative arrays), PHP truthiness and `empty`, and `isset` on a chain of
 array offsets. Floats are not part of this model.
 */
module PhpValues {
  import opened Wrappers

  /**
   An array key. PHP stores a decimal-integer string key such as `"0"` as
   the integer key `0`; the keys here are taken to be in that canonical form.
   */
  datatype Key = IntKey(i: int) | StrKey(s: string)

  datatype PhpValue =
    | PNull
    | PBool(b: bool)
    | PInt(i: int)
    | PString(s: string)
    | PArray(entries: map<Key, PhpValue>)

  /**
   Conversion to boolean, as `if ($v)` performs it: `null`, `false`, `0`,
   the strings `""` and `"0"`, and the empty array are false; everything else is true.
   */
  predicate ToBool(v: PhpValue) {
    match v
    case PNull => false
    case PBool(b) => b
    case PInt(i) => i != 0
    case PString(s) => s != "" && s != "0"
    case PArray(m) => m != map[]
  }

  /** `empty($v)` on a variable that exists: the negation of its boolean value. */
  predicate Empty(v: PhpValue) {
    !ToBool(v)
  }

  /** A string is `empty` exactly when it is `""` or `"0"`; in particular a one-character string can be `empty`. */
  lemma EmptyString(s: string)
    ensures Empty(PString(s)) <==> |s| == 0 || (|s| == 1 && s[0] == '0')
  {
    if |s| == 1 && s[0] == '0' {
      assert s == "0";
    }
  }

  /** `$v[$k]` on an array that holds `$k`. */
  function Offset(v: PhpValue, k: Key): (r: Option<PhpValue>)
    ensures r.Some? <==> v.PArray? && k in v.entries
    ensures r.Some? ==> r.value == v.entries[k] && r.value < v
  {
    if v.PArray? && k in v.entries then Some(v.entries[k]) else None
  }

  /**
   Follows a chain of array offsets. `None` when some step does not land in
   an array that holds the next key. Offsets into strings are not followed:
   a path in which every integer key is followed by a non-numeric string key
   can never be completed through a string, so for such paths the answer is
   the same.
   */
  function Lookup(v: PhpValue, path: seq<Key>): (r: Option<PhpValue>)
    ensures r.Some? && |path| > 0 ==> v.PArray? && path[0] in v.entries
    decreases |path|
  {
    if |path| == 0 then Some(v)
    else match Offset(v, path[0])
      case None => None
      case Some(child) => Lookup(child, path[1..])
  }

  /** `isset($v[k1][k2]...)`: every step exists and the value reached is not `null`. */
  predicate IsSet(v: PhpValue, path: seq<Key>) {
    var r := Lookup(v, path);
    r.Some? && r.value != PNull
  }

  /** Following `p + q` is following `p`, then `q` from where `p` ended. */
  lemma {:induction false} LookupAppend(v: PhpValue, p: seq<Key>, q: seq<Key>)
    ensures Lookup(v, p + q) == (match Lookup(v, p) case None => None case Some(w) => Lookup(w, q))
    decreases |p|
  {
    if |p| == 0 {
      assert p + q == q;
    } else {
      assert (p + q)[0] == p[0];
      assert (p + q)[1..] == p[1..] + q;
      match Offset(v, p[0])
      case None =>
      case Some(child) => LookupAppend(child, p[1..], q);
    }
  }

  /** The array built by nesting `leaf` under the keys of `path`, one single-entry array per key. */
  function Nest(path: seq<Key>, leaf: PhpValue): PhpValue
    decreases |path|
  {
    if |path| == 0 then leaf else PArray(map[path[0] := Nest(path[1..], leaf)])
  }

  /** Following a path through the array nested along it reaches the leaf. */
  lemma {:induction false} LookupNest(path: seq<Key>, leaf: PhpValue)
    ensures Lookup(Nest(path, leaf), path) == Some(leaf)
    decreases |path|
  {
    if |path| > 0 {
      LookupNest(path[1..], leaf);
    }
  }
}
