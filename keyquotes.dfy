/** The rewrite `re.sub(r'"(.*?)"(?=:)', r'\1', text)` that `NBTData.__str__`
    (mcct/__init__.py:127) applies to the JSON text, written out as the scan
    the regex engine performs. It is not a clean "unquote the keys" pass: the
    lazy group runs from ANY double quote to the nearest later `":`, so a
    string value followed by another key loses its opening quote together
    with that key's closing quote. */
module KeyQuotes {
  import opened Values
  import opened Text

  predicate NewlineBetween(s: string, lo: nat, hi: nat)
    requires hi <= |s|
  {
    exists p :: lo <= p < hi && s[p] == '\n'
  }

  /** The closing quote of a match whose opening quote sits just before `j`:
      the first `"` at or after `j` that is directly followed by `:`. The
      group's `.` does not match a newline, so the search gives up there. */
  function KeyClose(s: string, j: nat): (r: Option<nat>)
    ensures r.Some? ==> j <= r.value && r.value + 1 < |s| && s[r.value] == '"' && s[r.value + 1] == ':'
    ensures r.Some? ==> forall m :: j <= m < r.value ==> s[m] != '\n' && !(s[m] == '"' && s[m + 1] == ':')
    ensures r.None? ==> forall m :: j <= m && m + 1 < |s| && s[m] == '"' && s[m + 1] == ':' ==> NewlineBetween(s, j, m)
    decreases |s| - j
  {
    if j + 1 >= |s| then None
    else if s[j] == '\n' then None
    else if s[j] == '"' && s[j + 1] == ':' then Some(j)
    else KeyClose(s, j + 1)
  }

  /** The substitution, left to right: at a `"` with a closing match, both
      quotes go and the scan resumes at the `:`; any other character is
      copied. Only double quotes are ever removed, and they go in pairs. */
  function StripKeyQuotes(s: string): (r: string)
    ensures |r| <= |s| && (|s| - |r|) % 2 == 0
    decreases |s|
  {
    if s == [] then []
    else if s[0] == '"' then
      match KeyClose(s, 1)
      case Some(j) => s[1..j] + StripKeyQuotes(s[j + 1..])
      case None => [s[0]] + StripKeyQuotes(s[1..])
    else [s[0]] + StripKeyQuotes(s[1..])
  }

  /** The rewrite removes double quotes and nothing else: every other
      character occurs as often in the result as in the input. */
  lemma {:induction false} StripRemovesOnlyQuotes(s: string, c: char)
    requires c != '"'
    ensures multiset(StripKeyQuotes(s))[c] == multiset(s)[c]
    decreases |s|
  {
    if s != [] {
      if s[0] == '"' && KeyClose(s, 1).Some? {
        var j := KeyClose(s, 1).value;
        assert s == [s[0]] + s[1..j] + [s[j]] + s[j + 1..];
        StripRemovesOnlyQuotes(s[j + 1..], c);
      } else {
        assert s == [s[0]] + s[1..];
        StripRemovesOnlyQuotes(s[1..], c);
      }
    }
  }

  /** Text without double quotes passes through unchanged, whatever follows. */
  lemma {:induction false} StripQuoteFree(a: string, b: string)
    requires '"' !in a
    ensures StripKeyQuotes(a + b) == a + StripKeyQuotes(b)
  {
    if a != [] {
      assert (a + b)[0] == a[0] && a[0] != '"';
      assert (a + b)[1..] == a[1..] + b;
      assert StripKeyQuotes(a + b) == [a[0]] + StripKeyQuotes(a[1..] + b);
      StripQuoteFree(a[1..], b);
      assert a == [a[0]] + a[1..];
    } else {
      assert a + b == b;
    }
  }

  /** Text with no `"` directly followed by `:` (after its first character)
      passes through unchanged: no match can close. */
  lemma {:induction false} StripNoKeyClose(t: string)
    requires forall m :: 1 <= m < |t| - 1 ==> !(t[m] == '"' && t[m + 1] == ':')
    ensures StripKeyQuotes(t) == t
    decreases |t|
  {
    if t != [] {
      assert t == [t[0]] + t[1..];
      StripNoKeyClose(t[1..]);
    }
  }

  /** The search runs to the first `"` followed by `:` when nothing before it
      stops it. */
  lemma {:induction false} KeyCloseFinds(s: string, j: nat, t: nat)
    requires j <= t && t + 1 < |s| && s[t] == '"' && s[t + 1] == ':'
    requires forall m :: j <= m < t ==> s[m] != '\n' && !(s[m] == '"' && s[m + 1] == ':')
    ensures KeyClose(s, j) == Some(t)
    decreases t - j
  {
    if j < t {
      KeyCloseFinds(s, j + 1, t);
    }
  }

  /** A quoted run free of newlines and of `":` pairs, followed by `":`, is
      one match: both quotes go. */
  lemma QuotedRunCloses(mid: string, rest: string)
    requires forall m :: 0 <= m < |mid| ==> mid[m] != '\n'
    requires forall m :: 0 <= m < |mid| - 1 ==> !(mid[m] == '"' && mid[m + 1] == ':')
    ensures StripKeyQuotes("\"" + mid + "\":" + rest) == mid + ":" + StripKeyQuotes(rest)
  {
    var s := "\"" + mid + "\":" + rest;
    var t := |mid| + 1;
    assert s[1..t] == mid;
    assert s[t] == '"' && s[t + 1] == ':';
    forall m | 1 <= m < t
      ensures s[m] != '\n' && !(s[m] == '"' && s[m + 1] == ':')
    {
      assert s[m] == mid[m - 1];
      if m + 1 < t {
        assert s[m + 1] == mid[m];
      }
    }
    KeyCloseFinds(s, 1, t);
    assert s[t + 1..] == ":" + rest;
    StripQuoteFree(":", rest);
  }

  /** A quoted key followed by its colon loses its quotes. */
  lemma StripKey(k: string, b: string)
    requires PlainString(k)
    ensures StripKeyQuotes("\"" + k + "\":" + b) == k + ":" + StripKeyQuotes(b)
  {
    QuotedRunCloses(k, b);
  }

  /** A string value followed by another key: the match opens at the value's
      opening quote and closes at the next key's closing quote, so the text
      keeps the value's closing quote and the key's opening quote. */
  lemma StripValueThenKey(s: string, k: string, rest: string)
    requires PlainString(s) && PlainString(k)
    requires |k| > 0 ==> k[0] != ':'
    ensures StripKeyQuotes("\"" + s + "\", \"" + k + "\":" + rest)
         == s + "\", \"" + k + ":" + StripKeyQuotes(rest)
  {
    var mid := s + "\", \"" + k;
    assert "\"" + s + "\", \"" + k + "\":" + rest == "\"" + mid + "\":" + rest;
    forall m | 0 <= m < |mid|
      ensures mid[m] != '\n' && (m < |mid| - 1 ==> !(mid[m] == '"' && mid[m + 1] == ':'))
    {
      if m < |s| {
        assert mid[m] == s[m];
      } else if m == |s| {
        assert mid[m + 1] == ',';
      } else if m < |s| + 3 {
      } else if m == |s| + 3 {
        if m < |mid| - 1 {
          assert mid[m + 1] == k[0];
        }
      } else {
        assert mid[m] == k[m - |s| - 4];
      }
    }
    QuotedRunCloses(mid, rest);
  }

  /** Ints never hold a double quote. */
  lemma IntTextQuoteFree(i: int)
    ensures '"' !in IntToString(i)
  {
    var r := IntToString(i);
    assert forall m :: 0 <= m < |r| ==> r[m] == '-' || IsDigit(r[m]);
  }

  /** Where no string value occurs, the rewrite of `json.dumps` text is the
      JSON with bare keys: every match is exactly one key's quotes. */
  lemma {:induction false} StripShow(v: Value, b: string)
    requires StringFree(v) && PlainKeys(v)
    ensures StripKeyQuotes(Show(v, Json) + b) == Show(v, BareKeys) + StripKeyQuotes(b)
    decreases v, 1
  {
    match v
    case Null => StripQuoteFree("null", b);
    case Bool(x) => StripQuoteFree(if x then "true" else "false", b);
    case Int(i) =>
      IntTextQuoteFree(i);
      StripQuoteFree(IntToString(i), b);
    case List(xs) => StripShowList(xs, b);
    case Dict(es) => StripShowDict(es, b);
  }

  lemma {:induction false} StripShowList(xs: seq<Value>, b: string)
    requires StringFree(List(xs)) && PlainKeys(List(xs))
    ensures StripKeyQuotes(Show(List(xs), Json) + b) == Show(List(xs), BareKeys) + StripKeyQuotes(b)
    decreases List(xs), 0
  {
    var items := ShowItems(xs, Json);
    calc {
      StripKeyQuotes(Show(List(xs), Json) + b);
      { assert Show(List(xs), Json) + b == "[" + (items + ("]" + b)); }
      StripKeyQuotes("[" + (items + ("]" + b)));
      { StripQuoteFree("[", items + ("]" + b)); }
      "[" + StripKeyQuotes(items + ("]" + b));
      { StripItems(xs, "]" + b); }
      "[" + (ShowItems(xs, BareKeys) + StripKeyQuotes("]" + b));
      { StripQuoteFree("]", b); }
      "[" + (ShowItems(xs, BareKeys) + ("]" + StripKeyQuotes(b)));
      Show(List(xs), BareKeys) + StripKeyQuotes(b);
    }
  }

  lemma {:induction false} StripShowDict(es: seq<Entry>, b: string)
    requires StringFree(Dict(es)) && PlainKeys(Dict(es))
    ensures StripKeyQuotes(Show(Dict(es), Json) + b) == Show(Dict(es), BareKeys) + StripKeyQuotes(b)
    decreases Dict(es), 0
  {
    var members := ShowMembers(es, Json);
    calc {
      StripKeyQuotes(Show(Dict(es), Json) + b);
      { assert Show(Dict(es), Json) + b == "{" + (members + ("}" + b)); }
      StripKeyQuotes("{" + (members + ("}" + b)));
      { StripQuoteFree("{", members + ("}" + b)); }
      "{" + StripKeyQuotes(members + ("}" + b));
      { StripMembers(es, "}" + b); }
      "{" + (ShowMembers(es, BareKeys) + StripKeyQuotes("}" + b));
      { StripQuoteFree("}", b); }
      "{" + (ShowMembers(es, BareKeys) + ("}" + StripKeyQuotes(b)));
      Show(Dict(es), BareKeys) + StripKeyQuotes(b);
    }
  }

  lemma {:induction false} StripItems(xs: seq<Value>, b: string)
    requires forall i :: 0 <= i < |xs| ==> StringFree(xs[i]) && PlainKeys(xs[i])
    ensures StripKeyQuotes(ShowItems(xs, Json) + b) == ShowItems(xs, BareKeys) + StripKeyQuotes(b)
    decreases xs
  {
    if xs == [] {
      assert ShowItems(xs, Json) + b == b;
    } else if |xs| == 1 {
      StripShow(xs[0], b);
    } else {
      var rest := ShowItems(xs[1..], Json);
      var first := Show(xs[0], BareKeys);
      calc {
        StripKeyQuotes(ShowItems(xs, Json) + b);
        { assert ShowItems(xs, Json) + b == Show(xs[0], Json) + (", " + (rest + b)); }
        StripKeyQuotes(Show(xs[0], Json) + (", " + (rest + b)));
        { StripShow(xs[0], ", " + (rest + b)); }
        first + StripKeyQuotes(", " + (rest + b));
        { StripQuoteFree(", ", rest + b); }
        first + (", " + StripKeyQuotes(rest + b));
        { StripItems(xs[1..], b); }
        first + (", " + (ShowItems(xs[1..], BareKeys) + StripKeyQuotes(b)));
        ShowItems(xs, BareKeys) + StripKeyQuotes(b);
      }
    }
  }

  lemma {:induction false} StripMember(e: Entry, b: string)
    requires PlainString(e.0) && StringFree(e.1) && PlainKeys(e.1)
    ensures StripKeyQuotes(ShowMember(e, Json) + b) == ShowMember(e, BareKeys) + StripKeyQuotes(b)
    decreases e
  {
    var k, v := e.0, e.1;
    var value, bare := Show(v, Json), Show(v, BareKeys);
    var tail := " " + (value + b);
    assert ShowMember(e, Json) + b == "\"" + k + "\":" + tail by {
      assert KeyText(Json, k) == "\"" + k + "\"";
    }
    calc {
      StripKeyQuotes(ShowMember(e, Json) + b);
      { StripKey(k, tail); }
      k + ":" + StripKeyQuotes(tail);
      { StripQuoteFree(" ", value + b); }
      k + ":" + (" " + StripKeyQuotes(value + b));
      { StripShow(v, b); }
      k + ":" + (" " + (bare + StripKeyQuotes(b)));
      ShowMember(e, BareKeys) + StripKeyQuotes(b);
    }
  }

  lemma {:induction false} StripMembers(es: seq<Entry>, b: string)
    requires forall i :: 0 <= i < |es| ==> PlainString(es[i].0) && StringFree(es[i].1) && PlainKeys(es[i].1)
    ensures StripKeyQuotes(ShowMembers(es, Json) + b) == ShowMembers(es, BareKeys) + StripKeyQuotes(b)
    decreases es
  {
    if es == [] {
      assert ShowMembers(es, Json) + b == b;
    } else if |es| == 1 {
      StripMember(es[0], b);
    } else {
      var rest := ShowMembers(es[1..], Json);
      var first := ShowMember(es[0], BareKeys);
      assert ShowMembers(es, Json) + b == ShowMember(es[0], Json) + (", " + (rest + b));
      calc {
        StripKeyQuotes(ShowMembers(es, Json) + b);
        { StripMember(es[0], ", " + (rest + b)); }
        first + StripKeyQuotes(", " + (rest + b));
        { StripQuoteFree(", ", rest + b); }
        first + (", " + StripKeyQuotes(rest + b));
        { StripMembers(es[1..], b); }
        first + (", " + (ShowMembers(es[1..], BareKeys) + StripKeyQuotes(b)));
        ShowMembers(es, BareKeys) + StripKeyQuotes(b);
      }
    }
  }

  /** The rewrite of `json.dumps(v)` for a value without strings. */
  lemma StripDumps(v: Value)
    requires StringFree(v) && PlainKeys(v)
    ensures StripKeyQuotes(Dumps(v)) == Show(v, BareKeys)
  {
    StripShow(v, "");
    assert Dumps(v) + "" == Dumps(v);
  }

  /** Appending an entry appends its member text after a comma. */
  lemma {:induction false} ShowMembersSnoc(es: seq<Entry>, e: Entry, n: Notation)
    ensures ShowMembers(es + [e], n)
         == if es == [] then ShowMember(e, n) else ShowMembers(es, n) + ", " + ShowMember(e, n)
  {
    if |es| == 1 {
      assert (es + [e])[1..] == [e];
      assert (es + [e])[0] == es[0];
    } else if |es| > 1 {
      var tail := es[1..];
      assert (es + [e])[1..] == tail + [e];
      assert (es + [e])[0] == es[0];
      calc {
        ShowMembers(es + [e], n);
        ShowMember(es[0], n) + ", " + ShowMembers(tail + [e], n);
        { ShowMembersSnoc(tail, e, n); }
        ShowMember(es[0], n) + ", " + (ShowMembers(tail, n) + ", " + ShowMember(e, n));
        ShowMembers(es, n) + ", " + ShowMember(e, n);
      }
    }
  }

  /** A string value in the LAST entry keeps its quotes: after it no key
      follows, so no match can open at its quotes. */
  lemma StripMemberLastString(k: string, s: string)
    requires PlainString(k) && PlainString(s)
    ensures StripKeyQuotes(ShowMember((k, Str(s)), Json) + "}") == ShowMember((k, Str(s)), BareKeys) + "}"
  {
    var quoted := "\"" + s + "\"}";
    assert ShowMember((k, Str(s)), Json) + "}" == "\"" + k + "\":" + (" " + quoted) by {
      assert KeyText(Json, k) == "\"" + k + "\"";
      assert Show(Str(s), Json) == "\"" + s + "\"";
    }
    assert ShowMember((k, Str(s)), BareKeys) + "}" == k + ":" + (" " + quoted) by {
      assert Show(Str(s), BareKeys) == "\"" + s + "\"";
    }
    forall m | 1 <= m < |quoted| - 1
      ensures !(quoted[m] == '"' && quoted[m + 1] == ':')
    {
      if m <= |s| {
        assert quoted[m] == s[m - 1];
      } else {
        assert quoted[m + 1] == '}';
      }
    }
    calc {
      StripKeyQuotes("\"" + k + "\":" + (" " + quoted));
      { StripKey(k, " " + quoted); }
      k + ":" + StripKeyQuotes(" " + quoted);
      { StripQuoteFree(" ", quoted); StripNoKeyClose(quoted); }
      k + ":" + (" " + quoted);
    }
  }

  /** The text of a dict with one more entry at its end. */
  lemma ShowDictSnoc(es: seq<Entry>, e: Entry, n: Notation)
    ensures Show(Dict(es + [e]), n)
         == if es == [] then "{" + (ShowMember(e, n) + "}")
            else "{" + (ShowMembers(es, n) + (", " + (ShowMember(e, n) + "}")))
  {
    var me := ShowMember(e, n);
    var body := ShowMembers(es + [e], n);
    assert Show(Dict(es + [e]), n) == "{" + body + "}";
    ShowMembersSnoc(es, e, n);
    if es != [] {
      var ms := ShowMembers(es, n);
      assert body == ms + ", " + me;
      Regroup("{", ms, ", ", me, "}");
    } else {
      assert body == me;
      assert "{" + me + "}" == "{" + (me + "}");
    }
  }

  /** Re-association of a five-part concatenation.
      Like `MemberJsonText`, `QuotedValueThenKey` and `EggText`, it only
      regroups string pieces; it is a lemma of its own so that the solver
      proves it without the renderer's definitions in view. */
  lemma Regroup(a: string, b: string, c: string, d: string, e: string)
    ensures a + (b + c + d) + e == a + (b + (c + (d + e)))
  {
  }

  /** A member of json.dumps text is its quoted key, a colon, a space and
      its value. */
  lemma MemberJsonText(k: string, w: Value, rest: string)
    ensures ShowMember((k, w), Json) + rest == "\"" + k + "\":" + (" " + (Show(w, Json) + rest))
  {
    assert KeyText(Json, k) == "\"" + k + "\"";
  }

  /** A dict whose only string value sits in its last entry comes out with
      bare keys and that value still quoted, e.g. `{Lock: "key"}`. */
  lemma StripDumpsLastString(es: seq<Entry>, k: string, s: string)
    requires forall i :: 0 <= i < |es| ==> PlainString(es[i].0) && StringFree(es[i].1) && PlainKeys(es[i].1)
    requires PlainString(k) && PlainString(s)
    ensures StripKeyQuotes(Dumps(Dict(es + [(k, Str(s))]))) == Show(Dict(es + [(k, Str(s))]), BareKeys)
  {
    var last := (k, Str(s));
    ShowDictSnoc(es, last, Json);
    ShowDictSnoc(es, last, BareKeys);
    var lastJ, lastB := ShowMember(last, Json), ShowMember(last, BareKeys);
    if es == [] {
      calc {
        StripKeyQuotes(Dumps(Dict(es + [last])));
        StripKeyQuotes("{" + (lastJ + "}"));
        { StripQuoteFree("{", lastJ + "}"); }
        "{" + StripKeyQuotes(lastJ + "}");
        { StripMemberLastString(k, s); }
        "{" + (lastB + "}");
      }
    } else {
      var m := ShowMembers(es, Json);
      calc {
        StripKeyQuotes(Dumps(Dict(es + [last])));
        StripKeyQuotes("{" + (m + (", " + (lastJ + "}"))));
        { StripQuoteFree("{", m + (", " + (lastJ + "}"))); }
        "{" + StripKeyQuotes(m + (", " + (lastJ + "}")));
        { StripMembers(es, ", " + (lastJ + "}")); }
        "{" + (ShowMembers(es, BareKeys) + StripKeyQuotes(", " + (lastJ + "}")));
        { StripQuoteFree(", ", lastJ + "}"); StripMemberLastString(k, s); }
        "{" + (ShowMembers(es, BareKeys) + (", " + (lastB + "}")));
      }
    }
  }

  /** The json.dumps text of a two-entry dict whose first value is a string. */
  lemma DumpsStringThenEntry(k1: string, s: string, k2: string, v: Value)
    ensures Dumps(Dict([(k1, Str(s)), (k2, v)]))
         == "{" + ("\"" + k1 + "\":" + (" " + ("\"" + s + "\", \"" + k2 + "\":" + (" " + (Show(v, Json) + "}")))))
  {
    var e1, e2 := (k1, Str(s)), (k2, v);
    var t3 := " " + (Show(v, Json) + "}");
    var y := ", " + ("\"" + k2 + "\":" + t3);
    assert [e1, e2] == [e1] + [e2];
    calc {
      Dumps(Dict([e1, e2]));
      { ShowDictSnoc([e1], e2, Json); }
      "{" + (ShowMembers([e1], Json) + (", " + (ShowMember(e2, Json) + "}")));
      { assert ShowMembers([e1], Json) == ShowMember(e1, Json); MemberJsonText(k2, v, "}"); }
      "{" + (ShowMember(e1, Json) + y);
      { MemberJsonText(k1, Str(s), y); }
      "{" + ("\"" + k1 + "\":" + (" " + (Show(Str(s), Json) + y)));
      { assert Show(Str(s), Json) == "\"" + s + "\""; QuotedValueThenKey(s, k2, t3); }
      "{" + ("\"" + k1 + "\":" + (" " + ("\"" + s + "\", \"" + k2 + "\":" + t3)));
    }
  }

  /** A quoted value, the member separator, then a quoted key and `:`. */
  lemma QuotedValueThenKey(s: string, k: string, t: string)
    ensures "\"" + s + "\"" + (", " + ("\"" + k + "\":" + t)) == "\"" + s + "\", \"" + k + "\":" + t
  {
  }

  /** A string value followed by another key: the first key is unquoted as
      intended, but the next match runs from the value's opening quote to
      the second key's closing quote, leaving `s", "k2` behind. */
  lemma StripDumpsStringBeforeKey(k1: string, s: string, k2: string, v: Value)
    requires PlainString(k1) && PlainString(s) && PlainString(k2)
    requires |k2| > 0 ==> k2[0] != ':'
    requires StringFree(v) && PlainKeys(v)
    ensures StripKeyQuotes(Dumps(Dict([(k1, Str(s)), (k2, v)])))
         == "{" + (k1 + ":" + (" " + (s + "\", \"" + k2 + ":" + (" " + (Show(v, BareKeys) + "}")))))
  {
    var value := Show(v, Json);
    var t3 := " " + (value + "}");
    var t2 := "\"" + s + "\", \"" + k2 + "\":" + t3;
    var t1 := " " + t2;
    var t0 := "\"" + k1 + "\":" + t1;
    DumpsStringThenEntry(k1, s, k2, v);
    calc {
      StripKeyQuotes("{" + t0);
      { StripQuoteFree("{", t0); }
      "{" + StripKeyQuotes(t0);
      { StripKey(k1, t1); }
      "{" + (k1 + ":" + StripKeyQuotes(t1));
      { StripQuoteFree(" ", t2); }
      "{" + (k1 + ":" + (" " + StripKeyQuotes(t2)));
      { StripValueThenKey(s, k2, t3); }
      "{" + (k1 + ":" + (" " + (s + "\", \"" + k2 + ":" + StripKeyQuotes(t3))));
      { StripQuoteFree(" ", value + "}"); StripShow(v, "}"); assert StripKeyQuotes("}") == "}"; }
      "{" + (k1 + ":" + (" " + (s + "\", \"" + k2 + ":" + (" " + (Show(v, BareKeys) + "}")))));
    }
  }

  /** The item from the NBTData doc-comment, written with its id before its
      count, does not come out as `{id: "minecraft:egg", Count: 1}`. */
  lemma EggItemGarbled()
    ensures StripKeyQuotes(Dumps(Dict([("id", Str("minecraft:egg")), ("Count", Int(1))])))
         == "{id: minecraft:egg\", \"Count: 1}"
  {
    var one := Show(Int(1), BareKeys);
    assert StripKeyQuotes(Dumps(Dict([("id", Str("minecraft:egg")), ("Count", Int(1))])))
        == "{" + ("id" + ":" + (" " + ("minecraft:egg" + "\", \"" + "Count" + ":" + (" " + (one + "}"))))) by {
      assert PlainString("id") && PlainString("minecraft:egg") && PlainString("Count");
      StripDumpsStringBeforeKey("id", "minecraft:egg", "Count", Int(1));
    }
    assert one == "1" by {
      assert NatToString(1) == "1";
    }
    EggText();
  }

  /** The pieces of the garbled egg item, joined. */
  lemma EggText()
    ensures "{" + ("id" + ":" + (" " + ("minecraft:egg" + "\", \"" + "Count" + ":" + (" " + ("1" + "}")))))
         == "{id: minecraft:egg\", \"Count: 1}"
  {
  }
}
