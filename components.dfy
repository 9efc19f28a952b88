/** `Component` (mcct/__init__.py:131-156): a block or item, written as its
    identifier, its tag segment and its NBT segment, with nothing between
    them. The reflection over the instance (`getattr(self, '_id')`,
    `self.__dict__`) is replaced by explicit data: the identifier, the
    instance fields other than `NBT` in declaration order, and the `_nbt`
    view of the component's NBT object. */
module Components {
  import opened Values
  import opened Convert
  import Tags
  import Nbt

  datatype Component = Component(id: Option<string>, fields: seq<Entry>, nbt: seq<Entry>)

  /** A bare `Component()`: no identifier, no fields besides `NBT`, and an
      NBT object whose `_dict` is empty. */
  const Bare := Component(None, [], [])

  /** Whether an instance attribute goes into the tag segment: anything but
      `NBT` and names starting with an underscore. */
  predicate TagEligible(name: string)
    ensures TagEligible(name) ==> name != "NBT"
    ensures "_" <= name ==> !TagEligible(name)
  {
    name != "NBT" && !(|name| > 0 && name[0] == '_')
  }

  /** The attribute names in `self.__dict__`: the `NBT` field is always one
      of them, followed by the other fields. */
  function AttributeNames(c: Component): (r: seq<string>)
    ensures |r| > 0 && r[0] == "NBT"
  {
    ["NBT"] + Keys(c.fields)
  }

  /** One field's contribution to the tag dict comprehension. */
  function Kept(e: Entry): seq<Entry> {
    if TagEligible(e.0) then [e] else []
  }

  /** The dict comprehension that feeds `TagData`: the eligible fields, in
      declaration order. */
  function Eligible(fs: seq<Entry>): (r: seq<Entry>)
    ensures |r| <= |fs|
    ensures forall i :: 0 <= i < |r| ==> TagEligible(r[i].0)
  {
    if fs == [] then [] else Eligible(fs[..|fs| - 1]) + Kept(fs[|fs| - 1])
  }

  /** `c_id if c_id is not None else ''`. */
  function IdText(c: Component): (r: string)
    ensures c.id.Some? ==> r == c.id.value
    ensures c.id.None? ==> r == ""
  {
    if c.id.Some? then c.id.value else ""
  }

  /** The tag segment: `str(TagData(...))` whenever `self.__dict__` is
      non-empty, which it always is because it holds `NBT`. */
  function TagSegment(c: Component): (r: string)
    ensures |r| >= 2 && r[0] == '[' && r[|r| - 1] == ']'
  {
    if |AttributeNames(c)| > 0 then Tags.Render(Tags.TagData(Eligible(c.fields))) else ""
  }

  /** The NBT segment: the NBT text, unless it is `{}`. */
  function NbtSegment(view: seq<Entry>): (r: string)
    ensures r == "" <==> Nbt.Render(view) == "{}"
    ensures r != "" ==> r == Nbt.Render(view) && r[0] == '{'
  {
    var text := Nbt.Render(view);
    if text != "{}" then text else ""
  }

  /** `str(component)`: it always opens with the identifier (or nothing)
      followed by the `[` of the tag segment. */
  function Render(c: Component): (r: string)
    ensures |r| >= |IdText(c)| + 2
    ensures r[..|IdText(c)|] == IdText(c) && r[|IdText(c)|] == '['
  {
    var tag := TagSegment(c);
    var r := IdText(c) + tag + NbtSegment(c.nbt);
    assert r[..|IdText(c)|] == IdText(c);
    assert r[|IdText(c)|] == tag[0];
    r
  }

  /** The comprehension preserves order: it distributes over concatenation
      of the field list. */
  lemma {:induction false} EligibleAppend(a: seq<Entry>, b: seq<Entry>)
    ensures Eligible(a + b) == Eligible(a) + Eligible(b)
    decreases |b|
  {
    if b == [] {
      assert a + b == a;
    } else {
      var init, last := b[..|b| - 1], b[|b| - 1];
      assert b == init + [last];
      assert a + b == (a + init) + [last];
      EligibleSnoc(a + init, last);
      EligibleSnoc(init, last);
      EligibleAppend(a, init);
      Assoc(Eligible(a), Eligible(init), Kept(last));
    }
  }

  /** One more entry adds its own contribution at the end. */
  lemma EligibleSnoc(xs: seq<Entry>, x: Entry)
    ensures Eligible(xs + [x]) == Eligible(xs) + Kept(x)
  {
    assert (xs + [x])[..|xs|] == xs;
  }

  /** A field reaches the tag segment exactly when it is eligible. */
  lemma {:induction false} EligibleMember(fs: seq<Entry>, e: Entry)
    ensures e in Eligible(fs) <==> e in fs && TagEligible(e.0)
  {
    if fs != [] {
      var init := fs[..|fs| - 1];
      EligibleMember(init, e);
      assert fs == init + [fs[|fs| - 1]];
    }
  }

  /** When every field is eligible, all of them reach the tag segment. */
  lemma {:induction false} EligibleKeepsAll(fs: seq<Entry>)
    requires forall i :: 0 <= i < |fs| ==> TagEligible(fs[i].0)
    ensures Eligible(fs) == fs
  {
    if fs != [] {
      var init := fs[..|fs| - 1];
      EligibleKeepsAll(init);
      assert fs == init + [fs[|fs| - 1]];
    }
  }

  /** A private or `NBT`-named field, wherever it sits, changes nothing in
      the rendering. */
  lemma IgnoresHidden(c: Component, a: seq<Entry>, e: Entry, b: seq<Entry>)
    requires !TagEligible(e.0)
    ensures Render(c.(fields := a + [e] + b)) == Render(c.(fields := a + b))
  {
    var c1, c2 := c.(fields := a + [e] + b), c.(fields := a + b);
    assert Eligible(c1.fields) == Eligible(c2.fields) by {
      assert Eligible([e]) == [] by {
        assert [e][..0] == [];
      }
      EligibleAppend(a + [e], b);
      EligibleAppend(a, [e]);
      EligibleAppend(a, b);
      assert Eligible(a + [e]) == Eligible(a);
    }
    assert TagSegment(c1) == TagSegment(c2);
    assert IdText(c1) == IdText(c2) && c1.nbt == c2.nbt;
  }

  /** The rendering is the identifier and the tag segment alone exactly when
      the NBT parse is empty (for NBT keys in the plain JSON subset). */
  lemma NbtSegmentEmptyIff(c: Component)
    requires forall i :: 0 <= i < |c.nbt| ==> PlainString(c.nbt[i].0)
    ensures Render(c) == IdText(c) + TagSegment(c) <==> Nbt.Pruned(c.nbt) == []
  {
    Nbt.RenderEmptyIff(c.nbt);
    var prefix := IdText(c) + TagSegment(c);
    assert Render(c) == prefix + NbtSegment(c.nbt);
    if NbtSegment(c.nbt) != "" {
      assert |Render(c)| > |prefix|;
    }
  }

  /** The tag segment is `[]` exactly when every eligible field's value
      converts to None. */
  lemma TagSegmentEmptyIff(c: Component)
    ensures TagSegment(c) == "[]" <==>
      forall e :: e in c.fields && TagEligible(e.0) ==> ConvertValue(e.1).Null?
  {
    var es := Eligible(c.fields);
    Tags.ParsedEmptyIff(es);
    forall e | e in c.fields && TagEligible(e.0)
      ensures e in es
    {
      EligibleMember(c.fields, e);
    }
    forall i | 0 <= i < |es|
      ensures es[i] in c.fields
    {
      EligibleMember(c.fields, es[i]);
    }
  }

  /** A bare `Component()` renders as `[]`: no identifier, an empty but
      bracketed tag segment, and no NBT segment. */
  lemma BareRendersBrackets()
    ensures Render(Bare) == "[]"
  {
    assert Nbt.Pruned([]) == [];
    assert TagSegment(Bare) == "[]";
  }
}
