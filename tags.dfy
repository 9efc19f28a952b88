/** `TagData` (mcct/__init__.py:34-64): block-state properties rendered as
    `[key=value,...]`. */
module Tags {
  import opened Values
  import opened Convert
  import opened Text

  /** A `TagData` wraps its `_dict`, here an ordered list of entries. */
  datatype TagData = TagData(entries: seq<Entry>)

  /** What an f-string writes for a converted value: a str as it is,
      anything else as `str()` writes it (for a list or dict, its repr). */
  function PyStr(v: Value): string {
    if v.Str? then v.s else Show(v, Python)
  }

  /** One `key=value` item of the tag segment. */
  function Pair(key: string, c: Value): string {
    key + "=" + PyStr(c)
  }

  /** What one entry contributes to the parse: nothing when its value
      converts to None, its `key=value` item otherwise. */
  function Item(e: Entry): seq<string> {
    var c := ConvertValue(e.1);
    if c.Null? then [] else [Pair(e.0, c)]
  }

  /** The list `parse()` returns for these entries: one `key=value` string
      per entry whose converted value is not None, in insertion order. */
  function Parsed(es: seq<Entry>): (r: seq<string>)
    ensures |r| <= |es|
    ensures forall i :: 0 <= i < |r| ==> '=' in r[i]
  {
    if es == [] then [] else Parsed(es[..|es| - 1]) + Item(es[|es| - 1])
  }

  /** `parse()`: walks the entries in order, converts each value, skips the
      ones that convert to None and collects `key=value` for the rest. */
  method Parse(t: TagData) returns (kvs: seq<string>)
    ensures kvs == Parsed(t.entries)
    ensures |kvs| <= |t.entries|
  {
    var es := t.entries;
    kvs := [];
    for i := 0 to |es|
      invariant kvs == Parsed(es[..i])
    {
      var key, value := es[i].0, es[i].1;
      var c := ConvertValue(value);
      assert es[..i + 1][..i] == es[..i];
      if c.Null? {
        continue;
      }
      kvs := kvs + [Pair(key, c)];
    }
    assert es[..|es|] == es;
  }

  /** `str(TagData)`: the parsed items joined by commas inside brackets. It is
      exactly `[]` when every entry was dropped. */
  function Render(t: TagData): (r: string)
    ensures |r| >= 2 && r[0] == '[' && r[|r| - 1] == ']'
    ensures r == "[]" <==> Parsed(t.entries) == []
  {
    "[" + Join(Parsed(t.entries), ",") + "]"
  }

  /** Parsing is order-preserving: it distributes over concatenation of the
      entry list. */
  lemma {:induction false} ParsedAppend(a: seq<Entry>, b: seq<Entry>)
    ensures Parsed(a + b) == Parsed(a) + Parsed(b)
    decreases |b|
  {
    if b == [] {
      assert a + b == a;
    } else {
      var init, last := b[..|b| - 1], b[|b| - 1];
      assert b == init + [last];
      assert a + b == (a + init) + [last];
      ParsedSnoc(a + init, last);
      ParsedSnoc(init, last);
      ParsedAppend(a, init);
      Assoc(Parsed(a), Parsed(init), Item(last));
    }
  }

  /** One more entry adds its own contribution at the end. */
  lemma ParsedSnoc(xs: seq<Entry>, x: Entry)
    ensures Parsed(xs + [x]) == Parsed(xs) + Item(x)
  {
    assert (xs + [x])[..|xs|] == xs;
  }

  /** An item is in the parse exactly when some entry's converted value is
      not None and renders to it. */
  lemma ParsedMember(es: seq<Entry>, s: string)
    ensures s in Parsed(es) <==>
      exists i :: 0 <= i < |es| && !ConvertValue(es[i].1).Null? && s == Pair(es[i].0, ConvertValue(es[i].1))
  {
    if s in Parsed(es) {
      ParsedSound(es, s);
    }
    if exists i :: 0 <= i < |es| && !ConvertValue(es[i].1).Null? && s == Pair(es[i].0, ConvertValue(es[i].1)) {
      var i :| 0 <= i < |es| && !ConvertValue(es[i].1).Null? && s == Pair(es[i].0, ConvertValue(es[i].1));
      ParsedComplete(es, i);
    }
  }

  /** Every item of the parse comes from some entry. */
  lemma {:induction false} ParsedSound(es: seq<Entry>, s: string)
    requires s in Parsed(es)
    ensures exists i :: 0 <= i < |es| && !ConvertValue(es[i].1).Null? && s == Pair(es[i].0, ConvertValue(es[i].1))
  {
    var init, last := es[..|es| - 1], es[|es| - 1];
    assert Parsed(es) == Parsed(init) + Item(last);
    if s in Parsed(init) {
      ParsedSound(init, s);
      var i :| 0 <= i < |init| && !ConvertValue(init[i].1).Null? && s == Pair(init[i].0, ConvertValue(init[i].1));
      assert es[i] == init[i];
    } else {
      assert s in Item(last);
      assert es[|es| - 1] == last;
    }
  }

  /** Every entry whose value does not convert to None yields its item. */
  lemma {:induction false} ParsedComplete(es: seq<Entry>, i: nat)
    requires i < |es| && !ConvertValue(es[i].1).Null?
    ensures Pair(es[i].0, ConvertValue(es[i].1)) in Parsed(es)
  {
    var init, last := es[..|es| - 1], es[|es| - 1];
    assert Parsed(es) == Parsed(init) + Item(last);
    if i < |init| {
      assert init[i] == es[i];
      ParsedComplete(init, i);
    } else {
      assert Item(last) == [Pair(es[i].0, ConvertValue(es[i].1))];
    }
  }

  /** An entry whose value is None or an empty list vanishes from the parse
      without disturbing its neighbours. */
  lemma ParsedDropsNone(a: seq<Entry>, k: string, v: Value, b: seq<Entry>)
    requires v == Null || v == List([])
    ensures Parsed(a + [(k, v)] + b) == Parsed(a) + Parsed(b)
  {
    var e := [(k, v)];
    assert [] + e == e;
    assert Parsed(e) == Parsed([]) + Item((k, v)) == [];
    ParsedAppend(a + e, b);
    ParsedAppend(a, e);
    assert Parsed(a) + Parsed(e) == Parsed(a);
  }

  /** When no value converts to None, the parse has one item per entry, in
      the same positions. */
  lemma {:induction false} ParsedKeepsAll(es: seq<Entry>)
    requires forall i :: 0 <= i < |es| ==> !ConvertValue(es[i].1).Null?
    ensures |Parsed(es)| == |es|
    ensures forall i :: 0 <= i < |es| ==> Parsed(es)[i] == Pair(es[i].0, ConvertValue(es[i].1))
  {
    if es != [] {
      var init, last := es[..|es| - 1], es[|es| - 1];
      forall i | 0 <= i < |init|
        ensures !ConvertValue(init[i].1).Null?
      {
        assert init[i] == es[i];
      }
      ParsedKeepsAll(init);
      assert es == init + [last];
      ParsedSnoc(init, last);
      assert Item(last) == [Pair(last.0, ConvertValue(last.1))];
      forall i | 0 <= i < |es|
        ensures Parsed(es)[i] == Pair(es[i].0, ConvertValue(es[i].1))
      {
        if i < |init| {
          assert es[i] == init[i];
        }
      }
    }
  }

  /** The parse is empty exactly when every value converts to None. */
  lemma {:induction false} ParsedEmptyIff(es: seq<Entry>)
    ensures Parsed(es) == [] <==> forall i :: 0 <= i < |es| ==> ConvertValue(es[i].1).Null?
  {
    if es != [] {
      var init := es[..|es| - 1];
      ParsedEmptyIff(init);
      assert forall i :: 0 <= i < |init| ==> init[i] == es[i];
    }
  }

  /** A flat mapping of an int and a str renders without quotes. */
  lemma RenderIntAndStr()
    ensures Render(TagData([("a", Int(1)), ("b", Str("x"))])) == "[a=1,b=x]"
  {
    var es := [("a", Int(1)), ("b", Str("x"))];
    assert NatToString(1) == "1";
    assert IntToString(1) == "1";
    assert Show(Int(1), Python) == "1";
    assert PyStr(Int(1)) == "1";
    assert ConvertValue(Int(1)) == Int(1);
    assert ConvertValue(Str("x")) == Str("x");
    assert Pair("a", Int(1)) == "a=1";
    assert es[0] == ("a", Int(1));
    assert Item(("a", Int(1))) == ["a=1"];
    assert Item(es[0]) == ["a=1"];
    assert Pair("b", Str("x")) == "b=x";
    assert Item(("b", Str("x"))) == ["b=x"];
    assert es[..1][..0] == [];
    assert Parsed(es[..1]) == ["a=1"];
    assert es[..|es| - 1] == es[..1];
    assert Parsed(es) == ["a=1", "b=x"];
  }

  /** An empty mapping renders as a bare pair of brackets. */
  lemma RenderEmpty()
    ensures Render(TagData([])) == "[]"
  {
  }

  /** The f-string writes a str as it is, an int in decimal, None and bools
      as Python spells them, and a list or dict as its bracketed repr. */
  lemma PyStrCases(v: Value)
    ensures v.Str? ==> PyStr(v) == v.s
    ensures v.Int? ==> PyStr(v) == IntToString(v.i)
    ensures v.Null? ==> PyStr(v) == "None"
    ensures v.Bool? ==> PyStr(v) == if v.b then "True" else "False"
    ensures v.List? ==> |PyStr(v)| >= 2 && PyStr(v)[0] == '[' && PyStr(v)[|PyStr(v)| - 1] == ']'
    ensures v.Dict? ==> |PyStr(v)| >= 2 && PyStr(v)[0] == '{' && PyStr(v)[|PyStr(v)| - 1] == '}'
  {
    ShowShape(v, Python);
  }

  /** An item splits back at its first `=` into the key and the value text,
      as long as the key holds no `=`. */
  lemma PairSplits(key: string, c: Value)
    requires '=' !in key
    ensures |Pair(key, c)| > |key| && Pair(key, c)[..|key|] == key && Pair(key, c)[|key|] == '='
    ensures '=' !in Pair(key, c)[..|key|]
    ensures Pair(key, c)[|key| + 1..] == PyStr(c)
  {
    var r := Pair(key, c);
    assert r == key + ("=" + PyStr(c));
    assert r[..|key|] == key;
    assert r[|key| + 1..] == PyStr(c);
  }

  /** An entry contributes at most one item: none when its value converts
      to None, its `key=value` otherwise. */
  lemma ItemCases(e: Entry)
    ensures |Item(e)| <= 1
    ensures Item(e) == [] <==> ConvertValue(e.1).Null?
    ensures Item(e) != [] ==> Item(e)[0] == Pair(e.0, ConvertValue(e.1))
  {
  }
}
