/** `convert_value` (mcct/__init__.py:15-30): the normaliser every tag
    property and NBT value goes through before it is rendered. */
module Convert {
  import opened Values

  /** The values `ConvertValue` can return: no bool anywhere a dict reaches,
      no empty list at the top, dicts converted all the way down. The elements
      of a list are left as they are. */
  predicate Converted(v: Value) {
    match v
    case Bool(_) => false
    case List(xs) => |xs| > 0
    case Dict(es) => forall i :: 0 <= i < |es| ==> Converted(es[i].1)
    case _ => true
  }

  /** Booleans become "true"/"false", an empty list becomes None, a dict is
      rebuilt key by key with its values converted, and everything else
      (including a non-empty list, whose elements are not touched) comes
      back unchanged. */
  function ConvertValue(v: Value): (r: Value)
    ensures Converted(r)
    ensures r.Null? <==> v.Null? || v == List([])
    ensures v.Bool? ==> r == Str(if v.b then "true" else "false")
    ensures v.Null? || v.Int? || v.Str? || (v.List? && v != List([])) ==> r == v
    ensures r.Dict? <==> v.Dict?
    ensures v.Dict? ==> Keys(r.entries) == Keys(v.entries)
  {
    match v
    case Dict(es) => Dict(seq(|es|, i requires 0 <= i < |es| => (es[i].0, ConvertValue(es[i].1))))
    case Bool(b) => Str(if b then "true" else "false")
    case List(xs) => if |xs| == 0 then Null else v
    case _ => v
  }

  /** Converted values are fixed points of the conversion. */
  lemma {:induction false} ConvertedIsFixed(v: Value)
    requires Converted(v)
    ensures ConvertValue(v) == v
  {
    match v
    case Dict(es) =>
      forall i | 0 <= i < |es|
        ensures ConvertValue(es[i].1) == es[i].1
      {
        ConvertedIsFixed(es[i].1);
      }
      assert ConvertValue(v).entries == es;
    case _ =>
  }

  /** A value is in converted form exactly when conversion leaves it alone. */
  lemma ConvertedIffFixed(v: Value)
    ensures Converted(v) <==> ConvertValue(v) == v
  {
    if Converted(v) {
      ConvertedIsFixed(v);
    }
  }

  /** Converting twice is converting once: the second `convert_value` call in
      `NBTData.parse` (mcct/__init__.py:121) changes nothing. */
  lemma Idempotent(v: Value)
    ensures ConvertValue(ConvertValue(v)) == ConvertValue(v)
  {
    ConvertedIsFixed(ConvertValue(v));
  }

  /** Conversion of a dict keeps every entry at its place under its key, and
      never yields None, even for an empty dict. */
  lemma ConvertDict(es: seq<Entry>)
    ensures ConvertValue(Dict(es)).Dict?
    ensures ConvertValue(Dict(es)) != Null
    ensures |ConvertValue(Dict(es)).entries| == |es|
    ensures forall i :: 0 <= i < |es| ==>
      ConvertValue(Dict(es)).entries[i] == (es[i].0, ConvertValue(es[i].1))
  {
  }

  /** List elements are not converted: a list holding a bool or an empty
      list passes through as it is. */
  lemma ListElementsUntouched()
    ensures ConvertValue(List([Bool(true), List([])])) == List([Bool(true), List([])])
  {
  }
}
