/** `NBTData` (mcct/__init__.py:68-127): the NBT payload, pruned at its top
    level, dumped as JSON and rewritten by the key-quote regex. A subclass
    chooses what is rendered by overriding the `_nbt` view; here the
    renderer takes that view, an ordered list of entries, as its input. */
module Nbt {
  import opened Values
  import opened Convert
  import opened Text
  import opened KeyQuotes

  /** The converted values `parse()` skips: None, `{}` and `[]`. */
  predicate Prunable(c: Value)
    ensures Prunable(c) <==> c.Null? || (c.Dict? && |c.entries| == 0) || (c.List? && |c.elems| == 0)
  {
    c.Null? || c == Dict([]) || c == List([])
  }

  /** What one view entry contributes to the parse. */
  function Survivor(e: Entry): seq<Entry> {
    var c := ConvertValue(e.1);
    if Prunable(c) then [] else [(e.0, c)]
  }

  /** The dict `parse()` returns: the entries whose converted value is not
      None, `{}` or `[]`, in view order, each with its converted value. */
  function Pruned(es: seq<Entry>): (r: seq<Entry>)
    ensures |r| <= |es|
    ensures forall i :: 0 <= i < |r| ==> !Prunable(r[i].1) && Converted(r[i].1)
  {
    if es == [] then [] else Pruned(es[..|es| - 1]) + Survivor(es[|es| - 1])
  }

  /** `parse()`: converts each view value, skips it when the result is None,
      an empty dict or an empty list, and otherwise stores the result,
      converted once more, under its key. The view is a Python dict, so its
      keys are distinct and each store adds a new key at the end. */
  method Parse(view: seq<Entry>) returns (d: seq<Entry>)
    requires UniqueKeys(view)
    ensures d == Pruned(view)
  {
    d := [];
    for i := 0 to |view|
      invariant d == Pruned(view[..i])
    {
      var key, value := view[i].0, view[i].1;
      var c := ConvertValue(value);
      PrunedStep(view, i);
      if c.Null? {
        continue;
      } else if c.Dict? {
        if |c.entries| == 0 {
          continue;
        }
      } else if c.List? {
        if |c.elems| == 0 {
          continue;
        }
      }
      d := Put(d, key, ConvertValue(c));
    }
    assert view[..|view|] == view;
  }

  /** One step of `parse()`: an entry whose converted value is pruned leaves
      the dict as it was, any other one is stored under its key. */
  lemma PrunedStep(view: seq<Entry>, i: nat)
    requires UniqueKeys(view) && i < |view|
    ensures var c := ConvertValue(view[i].1);
      Pruned(view[..i + 1]) ==
        if Prunable(c) then Pruned(view[..i]) else Put(Pruned(view[..i]), view[i].0, ConvertValue(c))
  {
    var c := ConvertValue(view[i].1);
    assert view[..i + 1] == view[..i] + [view[i]];
    PrunedSnoc(view[..i], view[i]);
    if !Prunable(c) {
      Idempotent(view[i].1);
      NewKey(view, i);
    }
  }


  /** The key at position `i` is not among the keys parsed before it. */
  lemma NewKey(view: seq<Entry>, i: nat)
    requires UniqueKeys(view) && i < |view|
    ensures view[i].0 !in Keys(Pruned(view[..i]))
  {
    var pre := view[..i];
    var ks := Keys(Pruned(pre));
    forall m | 0 <= m < |ks|
      ensures ks[m] != view[i].0
    {
      var e := Pruned(pre)[m];
      PrunedSound(pre, e);
      var j :| 0 <= j < |pre| && pre[j].0 == e.0 && ConvertValue(pre[j].1) == e.1 && !Prunable(e.1);
      assert pre[j] == view[j];
    }
  }

  /** `str(NBTData)`: the JSON text of the parse with key quotes stripped.
      An empty parse gives `{}`. */
  function Render(view: seq<Entry>): (r: string)
    ensures |r| > 0 && r[0] == '{'
    ensures Pruned(view) == [] ==> r == "{}"
  {
    var body := ShowMembers(Pruned(view), Json) + "}";
    assert Dumps(Dict(Pruned(view))) == "{" + body;
    StripQuoteFree("{", body);
    assert Pruned(view) == [] ==> body == "}";
    StripKeyQuotes(Dumps(Dict(Pruned(view))))
  }

  /** Pruning is order-preserving: it distributes over concatenation of the
      view, so the parsed keys are a subsequence of the view's keys. */
  lemma {:induction false} PrunedAppend(a: seq<Entry>, b: seq<Entry>)
    ensures Pruned(a + b) == Pruned(a) + Pruned(b)
    decreases |b|
  {
    if b == [] {
      assert a + b == a;
    } else {
      var init, last := b[..|b| - 1], b[|b| - 1];
      assert b == init + [last];
      assert a + b == (a + init) + [last];
      PrunedSnoc(a + init, last);
      PrunedSnoc(init, last);
      PrunedAppend(a, init);
      Assoc(Pruned(a), Pruned(init), Survivor(last));
    }
  }

  /** One more entry adds its own contribution at the end. */
  lemma PrunedSnoc(xs: seq<Entry>, x: Entry)
    ensures Pruned(xs + [x]) == Pruned(xs) + Survivor(x)
  {
    assert (xs + [x])[..|xs|] == xs;
  }

  /** An entry is in the parse exactly when some view entry has its key and
      converts to its value, and that value is not pruned. */
  lemma PrunedMember(es: seq<Entry>, e: Entry)
    ensures e in Pruned(es) <==>
      exists i :: 0 <= i < |es| && es[i].0 == e.0 && ConvertValue(es[i].1) == e.1 && !Prunable(e.1)
  {
    if e in Pruned(es) {
      PrunedSound(es, e);
    }
    if exists i :: 0 <= i < |es| && es[i].0 == e.0 && ConvertValue(es[i].1) == e.1 && !Prunable(e.1) {
      var i :| 0 <= i < |es| && es[i].0 == e.0 && ConvertValue(es[i].1) == e.1 && !Prunable(e.1);
      PrunedComplete(es, i);
    }
  }

  /** Every entry of the parse comes from a view entry. */
  lemma {:induction false} PrunedSound(es: seq<Entry>, e: Entry)
    requires e in Pruned(es)
    ensures exists i :: 0 <= i < |es| && es[i].0 == e.0 && ConvertValue(es[i].1) == e.1 && !Prunable(e.1)
  {
    var init, last := es[..|es| - 1], es[|es| - 1];
    assert Pruned(es) == Pruned(init) + Survivor(last);
    if e in Pruned(init) {
      PrunedSound(init, e);
      var i :| 0 <= i < |init| && init[i].0 == e.0 && ConvertValue(init[i].1) == e.1 && !Prunable(e.1);
      assert es[i] == init[i];
    } else {
      assert e in Survivor(last);
      assert es[|es| - 1] == last;
    }
  }

  /** Every view entry whose converted value is not pruned survives. */
  lemma {:induction false} PrunedComplete(es: seq<Entry>, i: nat)
    requires i < |es| && !Prunable(ConvertValue(es[i].1))
    ensures (es[i].0, ConvertValue(es[i].1)) in Pruned(es)
  {
    var init, last := es[..|es| - 1], es[|es| - 1];
    assert Pruned(es) == Pruned(init) + Survivor(last);
    if i < |init| {
      assert init[i] == es[i];
      PrunedComplete(init, i);
    } else {
      assert Survivor(last) == [(es[i].0, ConvertValue(es[i].1))];
    }
  }

  /** Pruning looks at the top level only: an empty list one level down is
      converted to None and kept, and renders as `null`. */
  lemma NestedEmptyListKept()
    ensures Pruned([("a", Dict([("b", List([]))]))]) == [("a", Dict([("b", Null)]))]
    ensures Render([("a", Dict([("b", List([]))]))]) == "{a: {b: null}}"
  {
    var inner := Dict([("b", Null)]);
    NestedPrune();
    assert StripKeyQuotes(Dumps(Dict([("a", inner)]))) == Show(Dict([("a", inner)]), BareKeys) by {
      assert PlainString("a") && PlainString("b");
      StripDumps(Dict([("a", inner)]));
    }
    NestedText();
  }

  lemma NestedPrune()
    ensures Pruned([("a", Dict([("b", List([]))]))]) == [("a", Dict([("b", Null)]))]
  {
    var view := [("a", Dict([("b", List([]))]))];
    assert ConvertValue(Dict([("b", List([]))])) == Dict([("b", Null)]) by {
      ConvertDict([("b", List([]))]);
    }
    assert view[..0] == [];
  }

  lemma NestedText()
    ensures Show(Dict([("a", Dict([("b", Null)]))]), BareKeys) == "{a: {b: null}}"
  {
    var inner := Dict([("b", Null)]);
    ShowSingleMember("b", Null, BareKeys);
    assert Show(inner, BareKeys) == "{b: null}";
    ShowSingleMember("a", inner, BareKeys);
  }

  /** A one-entry dict is its key, `: `, and its value, inside braces. */
  lemma ShowSingleMember(k: string, v: Value, n: Notation)
    ensures Show(Dict([(k, v)]), n) == "{" + KeyText(n, k) + ": " + Show(v, n) + "}"
  {
    assert ShowMembers([(k, v)], n) == ShowMember((k, v), n);
  }

  /** The rendering of a non-empty parse starts with `{`, its first key
      written bare, and a colon. */
  lemma RenderFirstKey(view: seq<Entry>)
    requires forall i :: 0 <= i < |view| ==> PlainString(view[i].0)
    requires Pruned(view) != []
    ensures |Render(view)| > |Pruned(view)[0].0| + 1
    ensures Render(view)[..|Pruned(view)[0].0| + 2] == "{" + Pruned(view)[0].0 + ":"
    ensures Render(view)[|Pruned(view)[0].0| + 1] == ':'
  {
    var es := Pruned(view);
    var k := es[0].0;
    assert PlainString(k) by {
      PrunedSound(view, es[0]);
    }
    var after := if |es| == 1 then "}" else ", " + (ShowMembers(es[1..], Json) + "}");
    var tail := " " + (Show(es[0].1, Json) + after);
    assert Render(view) == "{" + (k + ":" + StripKeyQuotes(tail)) by {
      assert Render(view) == StripKeyQuotes("{" + (ShowMembers(es, Json) + "}")) by {
        assert Dumps(Dict(es)) == "{" + ShowMembers(es, Json) + "}" == "{" + (ShowMembers(es, Json) + "}");
      }
      calc {
        StripKeyQuotes("{" + (ShowMembers(es, Json) + "}"));
        { MembersStartWithFirst(es, after); MemberJsonText(k, es[0].1, after); }
        StripKeyQuotes("{" + ("\"" + k + "\":" + tail));
        { StripQuoteFree("{", "\"" + k + "\":" + tail); }
        "{" + StripKeyQuotes("\"" + k + "\":" + tail);
        { StripKey(k, tail); }
        "{" + (k + ":" + StripKeyQuotes(tail));
      }
    }
    BraceKeyColon(k, StripKeyQuotes(tail));
  }

  /** The text `{k:` followed by anything starts with `{k:`. */
  lemma BraceKeyColon(k: string, rest: string)
    ensures var t := "{" + (k + ":" + rest);
      |t| > |k| + 1 && t[..|k| + 2] == "{" + k + ":" && t[|k| + 1] == ':'
  {
    var t := "{" + (k + ":" + rest);
    assert t == ("{" + k + ":") + rest;
  }

  /** The JSON members of a non-empty dict: the first member, then either
      the closing brace or a comma and the rest. */
  lemma MembersStartWithFirst(es: seq<Entry>, after: string)
    requires |es| > 0
    requires after == if |es| == 1 then "}" else ", " + (ShowMembers(es[1..], Json) + "}")
    ensures ShowMembers(es, Json) + "}" == ShowMember(es[0], Json) + after
  {
    var first := ShowMember(es[0], Json);
    if |es| == 1 {
      calc {
        ShowMembers(es, Json) + "}";
        first + "}";
      }
    } else {
      var rest := ShowMembers(es[1..], Json);
      calc {
        ShowMembers(es, Json) + "}";
        ((first + ", ") + rest) + "}";
        { Assoc(first + ", ", rest, "}"); }
        (first + ", ") + (rest + "}");
        { Assoc(first, ", ", rest + "}"); }
        first + (", " + (rest + "}"));
      }
    }
  }

  /** With plain keys, the rendering is `{}` exactly when the parse is
      empty. */
  lemma RenderEmptyIff(view: seq<Entry>)
    requires forall i :: 0 <= i < |view| ==> PlainString(view[i].0)
    ensures Render(view) == "{}" <==> Pruned(view) == []
  {
    if Pruned(view) != [] {
      RenderFirstKey(view);
    }
  }

  /** A single string-valued entry renders with its key bare and its value
      quoted, with a space after the colon: `{k: "v"}`. */
  lemma RenderSingleString(k: string, s: string)
    requires PlainString(k) && PlainString(s)
    ensures Render([(k, Str(s))]) == "{" + k + ": \"" + s + "\"}"
  {
    var e := (k, Str(s));
    assert Render([e]) == StripKeyQuotes(Dumps(Dict([e]))) by {
      SinglePrunes(k, s);
    }
    assert StripKeyQuotes(Dumps(Dict([e]))) == Show(Dict([e]), BareKeys) by {
      assert [] + [e] == [e];
      StripDumpsLastString([], k, s);
    }
    assert Show(Dict([e]), BareKeys) == "{" + k + ": \"" + s + "\"}" by {
      ShowSingleMember(k, Str(s), BareKeys);
      assert Show(Str(s), BareKeys) == "\"" + s + "\"";
      QuotedSingle(k, s);
    }
  }

  lemma SinglePrunes(k: string, s: string)
    ensures Pruned([(k, Str(s))]) == [(k, Str(s))]
  {
    assert [(k, Str(s))][..0] == [];
  }

  /** Regrouping of the literal pieces of a one-entry dict with a string.
      It is a lemma of its own so that the solver proves it without the
      renderer's definitions in view. */
  lemma QuotedSingle(k: string, s: string)
    ensures "{" + k + ": " + ("\"" + s + "\"") + "}" == "{" + k + ": \"" + s + "\"}"
  {
  }

  /** A view entry contributes at most one entry: none when its converted
      value is None, `{}` or `[]`, itself with that converted value
      otherwise. */
  lemma SurvivorCases(e: Entry)
    ensures |Survivor(e)| <= 1
    ensures Survivor(e) == [] <==> Prunable(ConvertValue(e.1))
    ensures Survivor(e) != [] ==> Survivor(e)[0] == (e.0, ConvertValue(e.1))
  {
  }
}
