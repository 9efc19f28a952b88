/** The block kinds of mcct/minecraft/blocks.py, each a `Component` with a
    fixed identifier, a fixed list of tag fields in declaration order, and
    an NBT view. */
module Blocks {
  import opened Values
  import opened Convert
  import opened Text
  import Tags
  import Nbt
  import opened Components

  /** `BellBlock` (mcct/minecraft/blocks.py:9-18). Its NBT object is the
      plain component NBT, whose view is its `_dict`. */
  datatype Bell = Bell(facing: Value, attachment: Value, nbt: seq<Entry>)

  const BellId := "minecraft:bell"

  /** `BellBlock()`: both properties None, empty NBT. */
  const DefaultBell := Bell(Null, Null, [])

  function BellComponent(b: Bell): (c: Component)
    ensures IdText(c) == BellId
    ensures Keys(c.fields) == ["facing", "attachment"]
  {
    Component(Some(BellId), [("facing", b.facing), ("attachment", b.attachment)], b.nbt)
  }

  /** `str(BellBlock(...))`: always the bell identifier, then the tag
      segment. */
  function RenderBell(b: Bell): (r: string)
    ensures |r| >= |BellId| + 2 && r[..|BellId|] == BellId && r[|BellId|] == '['
  {
    Render(BellComponent(b))
  }

  /** `ChestBlock._NBT` (mcct/minecraft/blocks.py:48-78): the inherited
      `_dict`, `Lock` and `Items`. Items are plain value trees. */
  datatype ChestNbt = ChestNbt(dict: seq<Entry>, lock: Value, items: seq<Value>)

  /** `ChestBlock._NBT()`: empty `_dict`, no lock, no items. */
  const DefaultChestNbt := ChestNbt([], Null, [])

  /** The chest's `_nbt` view: `Lock` then `Items`, and nothing from its
      `_dict`. */
  function ChestView(n: ChestNbt): (r: seq<Entry>)
    ensures Keys(r) == ["Lock", "Items"]
    ensures r[0].1 == n.lock && r[1].1 == List(n.items)
    ensures UniqueKeys(r)
  {
    [("Lock", n.lock), ("Items", List(n.items))]
  }

  /** `ChestBlock` (mcct/minecraft/blocks.py:23-89). */
  datatype Chest = Chest(nbt: ChestNbt, facing: Value, kind: Value, waterlogged: Value)

  const ChestId := "minecraft:chest"

  /** `ChestBlock()`: every property None and the default chest NBT. */
  const DefaultChest := Chest(DefaultChestNbt, Null, Null, Null)

  function ChestComponent(c: Chest): (r: Component)
    ensures IdText(r) == ChestId
    ensures Keys(r.fields) == ["facing", "type", "waterlogged"]
  {
    Component(Some(ChestId), [("facing", c.facing), ("type", c.kind), ("waterlogged", c.waterlogged)], ChestView(c.nbt))
  }

  /** `str(ChestBlock(...))`: always the chest identifier, then the tag
      segment. */
  function RenderChest(c: Chest): (r: string)
    ensures |r| >= |ChestId| + 2 && r[..|ChestId|] == ChestId && r[|ChestId|] == '['
  {
    Render(ChestComponent(c))
  }

  /** An NBT view whose parse is empty contributes no NBT segment. */
  lemma EmptyNbtSegment(view: seq<Entry>)
    requires Nbt.Pruned(view) == []
    ensures NbtSegment(view) == ""
  {
  }

  /** The chest's view drops the inherited `_dict` entirely: two chest NBT
      objects differing only there render the same chest. */
  lemma ChestIgnoresDict(c: Chest, d: seq<Entry>)
    ensures RenderChest(c.(nbt := c.nbt.(dict := d))) == RenderChest(c)
  {
    assert ChestView(c.nbt.(dict := d)) == ChestView(c.nbt);
    assert ChestComponent(c.(nbt := c.nbt.(dict := d))) == ChestComponent(c);
  }

  /** The default chest NBT prunes to nothing: `Lock` is None and `Items` is
      an empty list. */
  lemma DefaultChestNbtPrunes(d: seq<Entry>)
    ensures Nbt.Pruned(ChestView(DefaultChestNbt.(dict := d))) == []
  {
    var view := ChestView(DefaultChestNbt.(dict := d));
    assert view[..1][..0] == [];
    assert view[..|view| - 1] == view[..1];
    assert Nbt.Survivor(view[1]) == [];
    assert Nbt.Survivor(view[0]) == [];
  }

  /** Two fields with string values render as `key=value` items, the first
      before the second. */
  lemma TwoStringFields(k1: string, s1: string, k2: string, s2: string)
    requires TagEligible(k1) && TagEligible(k2)
    ensures Tags.Render(Tags.TagData(Eligible([(k1, Str(s1)), (k2, Str(s2))]))) == "[" + k1 + "=" + s1 + "," + k2 + "=" + s2 + "]"
  {
    var fs := [(k1, Str(s1)), (k2, Str(s2))];
    var p1, p2 := k1 + "=" + s1, k2 + "=" + s2;
    assert Eligible(fs) == fs by {
      EligibleKeepsAll(fs);
    }
    assert Tags.Parsed(fs) == [p1, p2] by {
      Tags.ParsedKeepsAll(fs);
    }
    assert Join([p1, p2], ",") == p1 + "," + p2 by {
      assert [p1, p2][1..] == [p2];
    }
    calc {
      Tags.Render(Tags.TagData(Eligible(fs)));
      Tags.Render(Tags.TagData(fs));
      "[" + Join([p1, p2], ",") + "]";
      "[" + (p1 + "," + p2) + "]";
      { PairsText(k1, s1, k2, s2); }
      "[" + k1 + "=" + s1 + "," + k2 + "=" + s2 + "]";
    }
  }

  /** Regrouping of two bracketed `key=value` items.
      Like the other regrouping lemmas of this module, it only regroups
      string pieces; it is a lemma of its own so that the solver proves it
      without the renderer's definitions in view. */
  lemma PairsText(k1: string, s1: string, k2: string, s2: string)
    ensures "[" + ((k1 + "=" + s1) + "," + (k2 + "=" + s2)) + "]" == "[" + k1 + "=" + s1 + "," + k2 + "=" + s2 + "]"
  {
  }

  /** Bell properties render `facing` first, then `attachment`:
      `minecraft:bell[facing=f,attachment=a]`. */
  lemma BellFacingThenAttachment(f: string, a: string)
    ensures RenderBell(Bell(Str(f), Str(a), [])) == "minecraft:bell[facing=" + f + ",attachment=" + a + "]"
  {
    var c := BellComponent(Bell(Str(f), Str(a), []));
    TwoStringFields("facing", f, "attachment", a);
    assert TagSegment(c) == "[" + "facing" + "=" + f + "," + "attachment" + "=" + a + "]";
    EmptyNbtSegment([]);
    calc {
      Render(c);
      BellId + TagSegment(c) + "";
      "minecraft:bell" + ("[" + "facing" + "=" + f + "," + "attachment" + "=" + a + "]");
      { BellText(f, a); }
      "minecraft:bell[facing=" + f + ",attachment=" + a + "]";
    }
  }

  /** Regrouping of the literal pieces of a bell with two properties. */
  lemma BellText(f: string, a: string)
    ensures "minecraft:bell" + ("[" + "facing" + "=" + f + "," + "attachment" + "=" + a + "]")
      == "minecraft:bell[facing=" + f + ",attachment=" + a + "]"
  {
    calc {
      "minecraft:bell" + ("[" + "facing" + "=" + f + "," + "attachment" + "=" + a + "]");
      ("minecraft:bell" + "[" + "facing" + "=") + f + ("," + "attachment" + "=") + a + "]";
      { assert "minecraft:bell" + "[" + "facing" + "=" == "minecraft:bell[facing=";
        assert "," + "attachment" + "=" == ",attachment="; }
      "minecraft:bell[facing=" + f + ",attachment=" + a + "]";
    }
  }

  /** `BellBlock(facing="south", attachment="single_wall")`. */
  lemma SouthWallBell()
    ensures RenderBell(Bell(Str("south"), Str("single_wall"), []))
      == "minecraft:bell[facing=south,attachment=single_wall]"
  {
    calc {
      RenderBell(Bell(Str("south"), Str("single_wall"), []));
      { BellFacingThenAttachment("south", "single_wall"); }
      "minecraft:bell[facing=" + "south" + ",attachment=" + "single_wall" + "]";
      "minecraft:bell[facing=south,attachment=single_wall]";
    }
  }

  /** A rendering is its identifier, tag segment and NBT segment, in this
      order and with nothing between them. */
  lemma RenderAs(c: Component, tag: string, nbt: string)
    requires TagSegment(c) == tag && NbtSegment(c.nbt) == nbt
    ensures Render(c) == IdText(c) + tag + nbt
  {
  }

  /** A kind whose tag fields all convert to None has the tag segment
      `[]`. */
  lemma NoTagItems(c: Component)
    requires forall i :: 0 <= i < |c.fields| ==> TagEligible(c.fields[i].0) && ConvertValue(c.fields[i].1).Null?
    ensures TagSegment(c) == "[]"
  {
    EligibleKeepsAll(c.fields);
    Tags.ParsedEmptyIff(c.fields);
  }

  /** A bell whose properties are both None renders its brackets even
      though nothing is inside them, and no NBT segment when its NBT parse
      is empty. */
  lemma BellWithoutProperties(nbt: seq<Entry>)
    requires Nbt.Pruned(nbt) == []
    ensures RenderBell(Bell(Null, Null, nbt)) == "minecraft:bell[]"
  {
    var c := BellComponent(Bell(Null, Null, nbt));
    assert Render(c) == BellId + "[]" + "" by {
      NoTagItems(c);
      EmptyNbtSegment(nbt);
      RenderAs(c, "[]", "");
    }
    BracketsText();
  }

  /** The identifiers followed by an empty tag segment. */
  lemma BracketsText()
    ensures BellId + "[]" + "" == "minecraft:bell[]"
    ensures ChestId + "[]" + "" == "minecraft:chest[]"
  {
  }

  /** `BellBlock()` renders as `minecraft:bell[]`. */
  lemma DefaultBellRendersBrackets()
    ensures RenderBell(DefaultBell) == "minecraft:bell[]"
  {
    BellWithoutProperties([]);
  }

  /** A chest with no properties and no lock or items renders as
      `minecraft:chest[]`, whatever its NBT's `_dict` holds. */
  lemma PlainChest(d: seq<Entry>)
    ensures RenderChest(Chest(ChestNbt(d, Null, []), Null, Null, Null)) == "minecraft:chest[]"
  {
    var c := ChestComponent(Chest(ChestNbt(d, Null, []), Null, Null, Null));
    assert Render(c) == ChestId + "[]" + "" by {
      NoTagItems(c);
      DefaultChestNbtPrunes(d);
      EmptyNbtSegment(c.nbt);
      RenderAs(c, "[]", "");
    }
    BracketsText();
  }

  /** `ChestBlock()` renders as `minecraft:chest[]`. */
  lemma DefaultChestRendersBrackets()
    ensures RenderChest(DefaultChest) == "minecraft:chest[]"
  {
    PlainChest([]);
  }

  /** The waterlogged flag is written as a lower-case bool,
      `waterlogged=true` or `waterlogged=false`; the other properties, being
      None, vanish. */
  lemma WaterloggedChest(d: seq<Entry>, b: bool)
    ensures RenderChest(Chest(ChestNbt(d, Null, []), Null, Null, Bool(b)))
      == "minecraft:chest[waterlogged=" + (if b then "true" else "false") + "]"
  {
    var t := if b then "true" else "false";
    var c := ChestComponent(Chest(ChestNbt(d, Null, []), Null, Null, Bool(b)));
    var fs := c.fields;
    var item := "waterlogged" + "=" + t;
    assert TagSegment(c) == "[" + item + "]" by {
      assert Tags.Parsed(fs) == [item] by {
        assert Tags.Item(fs[2]) == [item] by {
          assert ConvertValue(Bool(b)) == Str(t);
        }
        LastItemOnly(fs, item);
      }
      EligibleKeepsAll(fs);
    }
    assert Render(c) == ChestId + ("[" + item + "]") + "" by {
      DefaultChestNbtPrunes(d);
      EmptyNbtSegment(c.nbt);
      RenderAs(c, "[" + item + "]", "");
    }
    WaterloggedText(t);
  }

  /** Three entries of which only the last survives parse to its item. */
  lemma LastItemOnly(fs: seq<Entry>, item: string)
    requires |fs| == 3 && Tags.Item(fs[0]) == [] && Tags.Item(fs[1]) == [] && Tags.Item(fs[2]) == [item]
    ensures Tags.Parsed(fs) == [item]
  {
    var f1, f2 := fs[..1], fs[..2];
    assert f1[..0] == [] && f1[0] == fs[0];
    assert Tags.Parsed(f1) == [];
    assert f2[..1] == f1 && f2[1] == fs[1];
    assert Tags.Parsed(f2) == [];
    assert fs[..|fs| - 1] == f2;
  }

  /** The chest identifier followed by a one-item tag segment. */
  lemma WaterloggedText(t: string)
    ensures ChestId + ("[" + ("waterlogged" + "=" + t) + "]") + "" == "minecraft:chest[waterlogged=" + t + "]"
  {
  }

  /** A chest NBT with a lock and no items has the NBT segment
      `{Lock: "key"}`: key bare, value quoted. */
  lemma LockedChestNbt(d: seq<Entry>, k: string)
    requires PlainString(k)
    ensures NbtSegment(ChestView(ChestNbt(d, Str(k), []))) == "{Lock: \"" + k + "\"}"
  {
    var view := ChestView(ChestNbt(d, Str(k), []));
    assert Nbt.Render(view) == Nbt.Render([("Lock", Str(k))]) by {
      LockedViewPrunes(d, k);
    }
    assert Nbt.Render([("Lock", Str(k))]) == "{Lock: \"" + k + "\"}" by {
      assert PlainString("Lock");
      Nbt.RenderSingleString("Lock", k);
      LockText(k);
    }
  }

  /** With a lock and no items, only the lock survives the parse. */
  lemma LockedViewPrunes(d: seq<Entry>, k: string)
    ensures Nbt.Pruned(ChestView(ChestNbt(d, Str(k), []))) == [("Lock", Str(k))]
    ensures Nbt.Pruned([("Lock", Str(k))]) == [("Lock", Str(k))]
  {
    var view := ChestView(ChestNbt(d, Str(k), []));
    assert view[..1][..0] == [];
    assert view[..|view| - 1] == view[..1];
    assert Nbt.Survivor(view[1]) == [];
    assert Nbt.Survivor(view[0]) == [("Lock", Str(k))];
    assert [("Lock", Str(k))][..0] == [];
  }

  /** The bare-key text of a one-entry `Lock` dict. */
  lemma LockText(k: string)
    ensures "{" + "Lock" + ": \"" + k + "\"}" == "{Lock: \"" + k + "\"}"
  {
  }

  /** A locked chest without properties or items: `minecraft:chest[]`
      followed by `{Lock: "k"}`. */
  lemma LockedChest(d: seq<Entry>, k: string)
    requires PlainString(k)
    ensures RenderChest(Chest(ChestNbt(d, Str(k), []), Null, Null, Null)) == "minecraft:chest[]{Lock: \"" + k + "\"}"
  {
    var c := ChestComponent(Chest(ChestNbt(d, Str(k), []), Null, Null, Null));
    assert Render(c) == ChestId + "[]" + ("{Lock: \"" + k + "\"}") by {
      NoTagItems(c);
      LockedChestNbt(d, k);
      RenderAs(c, "[]", "{Lock: \"" + k + "\"}");
    }
    LockedChestText(k);
  }

  /** The chest identifier, an empty tag segment and a `Lock` NBT segment. */
  lemma LockedChestText(k: string)
    ensures ChestId + "[]" + ("{Lock: \"" + k + "\"}") == "minecraft:chest[]{Lock: \"" + k + "\"}"
  {
  }
}
