/** The value trees that mcct serialises: the Python data a block's tag
    properties and NBT payload are made of (None, bool, int, str, list, and
    dict with string keys in insertion order). Floats are not modelled. */
module Values {

  datatype Option<T> = None | Some(value: T)

  /** A Python value. `Dict` keeps its entries in insertion order; a Python
      dict never holds a key twice (see `UniqueKeys`). */
  datatype Value =
    | Null
    | Bool(b: bool)
    | Int(i: int)
    | Str(s: string)
    | List(elems: seq<Value>)
    | Dict(entries: seq<Entry>)

  type Entry = (string, Value)

  /** The keys of a dict, in insertion order. */
  function Keys(es: seq<Entry>): (ks: seq<string>)
    ensures |ks| == |es|
    ensures forall i :: 0 <= i < |es| ==> ks[i] == es[i].0
  {
    seq(|es|, i requires 0 <= i < |es| => es[i].0)
  }

  predicate UniqueKeys(es: seq<Entry>) {
    forall i, j :: 0 <= i < j < |es| ==> es[i].0 != es[j].0
  }

  /** Printable ASCII other than the double quote and the backslash: the
      characters that `json.dumps` and `repr` write out unescaped. */
  predicate PlainChar(c: char) {
    ' ' <= c <= '~' && c != '"' && c != '\\'
  }

  predicate PlainString(s: string) {
    forall i :: 0 <= i < |s| ==> PlainChar(s[i])
  }

  /** Every dict key anywhere in `v` is a plain string. */
  predicate PlainKeys(v: Value) {
    match v
    case List(xs) => forall i :: 0 <= i < |xs| ==> PlainKeys(xs[i])
    case Dict(es) => forall i :: 0 <= i < |es| ==> PlainString(es[i].0) && PlainKeys(es[i].1)
    case _ => true
  }

  /** `v` holds no string value anywhere (dict keys are not values). */
  predicate StringFree(v: Value) {
    match v
    case Str(_) => false
    case List(xs) => forall i :: 0 <= i < |xs| ==> StringFree(xs[i])
    case Dict(es) => forall i :: 0 <= i < |es| ==> StringFree(es[i].1)
    case _ => true
  }

  /** Python's `d[k] = v`: an existing key keeps its place and takes the new
      value, a new key goes to the end. */
  function Put(d: seq<Entry>, k: string, v: Value): (r: seq<Entry>)
    ensures k in Keys(d) ==> Keys(r) == Keys(d)
    ensures k !in Keys(d) ==> r == d + [(k, v)]
    ensures (k, v) in r
    ensures forall i :: 0 <= i < |r| && r[i].0 != k ==> r[i] == d[i]
  {
    if d == [] then [(k, v)]
    else if d[0].0 == k then [(k, v)] + d[1..]
    else
      assert Keys(d) == [d[0].0] + Keys(d[1..]);
      [d[0]] + Put(d[1..], k, v)
  }

  /** Regrouping of a concatenation of three sequences. */
  lemma Assoc<T>(x: seq<T>, y: seq<T>, z: seq<T>)
    ensures (x + y) + z == x + (y + z)
  {
  }
}
