# mcct in Dafny

mcct turns typed Python data for a Minecraft block into command text of the
form `id[key=value,...]{nbt}`. This project models the core of that
serialiser and proves properties of the model:

- `convert_value` (`Convert`): the normaliser of a small value tree (None,
  bool, int, str, list, dict with string keys in insertion order). Bools
  become `"true"`/`"false"`, an empty list becomes None, dicts are rebuilt
  key by key, and everything else passes through.
- `TagData` (`Tags`): `parse()` is a loop that skips properties converting
  to None and collects `key=value`. `__str__` joins the items with commas
  inside brackets.
- `NBTData` (`Nbt`): `parse()` is a loop that drops top-level None, `{}`
  and `[]`. `__str__` writes the parse as `json.dumps` does by default (with
  `", "` and `": "`). It then applies the rewrite `"(.*?)"(?=:)` → `\1`,
  which is modelled in `KeyQuotes` as the left-to-right scan the regex
  engine performs.
- `Component.__str__` (`Components`): identifier (or nothing), then the tag
  segment, then the NBT text unless it is `{}`.
- `BellBlock` and `ChestBlock` (`Blocks`): the fixed identifiers and field
  lists, and the chest's own NBT view holding only `Lock` and `Items`.

`TagData.parse` and `NBTData.parse` are methods with loops. Each is proved
equal to a specification function (`Tags.Parsed`, `Nbt.Pruned`). The
properties are proved about those functions. The rest of the source is
single expressions and is modelled as functions.

Behaviour of the code that the model reproduces as written:

- The quote-stripping rewrite is not a clean "unquote the keys" pass. The
  lazy group runs from any double quote to the nearest later `":`.
  - With no string values, the output is the JSON with bare keys
    (`KeyQuotes.StripDumps`).
  - The output is also correct for a dict whose last value is itself a
    string and whose other values hold no strings at any depth
    (`KeyQuotes.StripDumpsLastString`), e.g. `{Lock: "key"}`. A string
    nested inside the last value is not enough: `{"a": 1, "b": {"c": "x",
    "d": 1}}` still comes out as `{a: 1, b: {c: x", "d: 1}}`.
  - A string value followed by another key loses its opening quote together
    with that key's closing quote. `{"id": "minecraft:egg", "Count": 1}`
    becomes `{id: minecraft:egg", "Count: 1}` (`KeyQuotes.EggItemGarbled`).
- `len(self.__dict__) > 0` (mcct/__init__.py:152) always holds, because the
  `NBT` field is always an instance attribute. So the tag segment is always
  bracketed: `Component()` renders as `[]` and `ChestBlock()` as
  `minecraft:chest[]`, not as the bare identifier.
- Pruning looks at the top level only. A nested empty list becomes `null`
  and stays.
- The JSON separators keep their spaces, so a locked chest's NBT segment is
  `{Lock: "key"}`.
- List elements are not converted: a bool inside a list stays a bool.

Reflection is replaced by explicit data. `getattr(self, '_id')` becomes an
`Option<string>`. `self.__dict__` becomes the ordered list of fields other
than `NBT`, plus the fact that `NBT` is always present. The component's NBT
object is represented by its `_nbt` view.

## Model

| member | source | states |
|---|---|---|
| Values.Put | mcct/__init__.py:121 | Python `d[k] = v`: an existing key keeps its place and takes the new value, a new key is appended, and all other entries are untouched |
| Convert.ConvertValue | mcct/__init__.py:15-30 | the result is in converted form; it is None exactly for None and `[]`; bools become `"true"`/`"false"`; None, ints, strs and non-empty lists are returned unchanged; a dict gives a dict with the same keys in the same order |
| Convert.ConvertedIsFixed | mcct/__init__.py:15-30 | conversion leaves every value in converted form unchanged |
| Convert.ConvertedIffFixed | mcct/__init__.py:15-30 | a value is in converted form exactly when conversion leaves it unchanged |
| Convert.Idempotent | mcct/__init__.py:121 | converting twice gives the same as converting once, so the second call in `NBTData.parse` changes nothing |
| Convert.ConvertDict | mcct/__init__.py:20-21 | a dict, even an empty one, converts to a dict (never None) of the same length, with each entry's value converted under its key at its place |
| Convert.ListElementsUntouched | mcct/__init__.py:26-30 | a non-empty list holding a bool and an empty list comes back unchanged |
| Text.NatToString | mcct/__init__.py:58 | the decimal text of a natural number is non-empty, all digits, with no leading zero |
| Text.NatToStringRoundTrip | mcct/__init__.py:58 | reading that decimal text back gives the number |
| Text.IntToString | mcct/__init__.py:58 | `str(int)`: digits only for non-negative numbers, a minus sign then digits for negative ones |
| Text.Join | mcct/__init__.py:64 | `sep.join`: empty for no parts, the part itself for one, and always starting with the first part |
| Text.QuoteDelimits | mcct/__init__.py:58 | a string literal is the string between two equal delimiters: `"` in JSON, and in `repr` one the string does not hold unless it holds both kinds |
| Text.KeyTextBare | mcct/__init__.py:127 | a dict key is written unquoted exactly in the bare-key notation, and as a string literal otherwise |
| Text.ShowShape | mcct/__init__.py:127 | every text is non-empty, lists are bracketed, dicts braced, and a string is its literal |
| Text.ShowMemberSeparator | mcct/__init__.py:127 | a dict member is its key text, then the separator `: `, then its value |
| Text.ShowItemsJoin | mcct/__init__.py:127 | the items of a list are its elements' texts joined by `, ` |
| Text.ShowMembersJoin | mcct/__init__.py:127 | the members of a dict are its members' texts joined by `, ` |
| Text.DumpsScalars | mcct/__init__.py:127 | `json.dumps` writes None as `null`, bools as `true`/`false`, strings in double quotes, lists in brackets and dicts in braces |
| Tags.Parsed | mcct/__init__.py:45-60 | the parse is never longer than the entries and every item contains `=` |
| Tags.Parse | mcct/__init__.py:45-60 | the loop returns exactly `Parsed` of the entries, never more items than entries |
| Tags.ItemCases | mcct/__init__.py:53-58 | an entry contributes no item when its value converts to None, and otherwise exactly its `key=value` |
| Tags.PyStrCases | mcct/__init__.py:58 | the f-string writes a str as it is, an int in decimal, None as `None`, bools as `True`/`False`, and lists and dicts as their bracketed repr |
| Tags.PairSplits | mcct/__init__.py:58 | for a key without `=`, the item is the key, then the first `=`, then the value text, so it splits back into the two |
| Tags.Render | mcct/__init__.py:63-64 | the text is bracketed, and it is `[]` exactly when the parse is empty |
| Tags.ParsedAppend | mcct/__init__.py:50-58 | parsing distributes over concatenation, so items keep insertion order |
| Tags.ParsedMember | mcct/__init__.py:50-58 | an item is in the parse exactly when some entry's value does not convert to None and the item is that entry's `key=value` |
| Tags.ParsedSound | mcct/__init__.py:50-58 | every item of the parse is the `key=value` of some entry whose value does not convert to None |
| Tags.ParsedComplete | mcct/__init__.py:50-58 | every entry whose value does not convert to None contributes its `key=value` item |
| Tags.ParsedDropsNone | mcct/__init__.py:53-56 | a None or empty-list property vanishes without disturbing its neighbours |
| Tags.ParsedKeepsAll | mcct/__init__.py:50-58 | when no value converts to None, the parse has one item per entry, at the same position |
| Tags.ParsedEmptyIff | mcct/__init__.py:50-58 | the parse is empty exactly when every value converts to None |
| Tags.RenderIntAndStr | mcct/__init__.py:58-64 | `{a: 1, b: "x"}` renders as `[a=1,b=x]` |
| Tags.RenderEmpty | mcct/__init__.py:63-64 | an empty mapping renders as `[]` |
| KeyQuotes.KeyClose | mcct/__init__.py:127 | the lazy group's end: the first `"` directly followed by `:` with no newline before it, or none when a newline comes first or no such pair exists |
| KeyQuotes.StripKeyQuotes | mcct/__init__.py:127 | the rewrite never lengthens the text and removes characters in pairs |
| KeyQuotes.StripRemovesOnlyQuotes | mcct/__init__.py:127 | every character other than `"` occurs as often after the rewrite as before |
| KeyQuotes.StripQuoteFree | mcct/__init__.py:127 | text without `"` passes through unchanged, whatever follows it |
| KeyQuotes.StripNoKeyClose | mcct/__init__.py:127 | text where no `"` is followed by `:` is left as it is |
| KeyQuotes.KeyCloseFinds | mcct/__init__.py:127 | the search stops at the first `":` when nothing before it stops it |
| KeyQuotes.QuotedRunCloses | mcct/__init__.py:127 | a quoted run with no newline and no `":` inside, followed by `":`, is one match, and the rewrite drops just its two quotes |
| KeyQuotes.StripKey | mcct/__init__.py:127 | a quoted plain key followed by `:` loses exactly its two quotes |
| KeyQuotes.StripValueThenKey | mcct/__init__.py:127 | a quoted string followed by `, "k":` becomes `s", "k:`: the match spans from the value's opening quote to the key's closing quote |
| KeyQuotes.IntTextQuoteFree | mcct/__init__.py:127 | the JSON text of an int holds no `"` |
| KeyQuotes.StripShow | mcct/__init__.py:127 | for a value without strings and with plain keys, rewriting its JSON text (followed by anything) gives its bare-key text |
| KeyQuotes.StripShowList | mcct/__init__.py:127 | the same for a list value |
| KeyQuotes.StripShowDict | mcct/__init__.py:127 | the same for a dict value |
| KeyQuotes.StripItems | mcct/__init__.py:127 | the same for the items of a list |
| KeyQuotes.StripMember | mcct/__init__.py:127 | the same for one dict member |
| KeyQuotes.StripMembers | mcct/__init__.py:127 | the same for the members of a dict |
| KeyQuotes.StripDumps | mcct/__init__.py:127 | `str(NBTData)` of a value without strings is its JSON text with bare keys |
| KeyQuotes.ShowMembersSnoc | mcct/__init__.py:127 | appending an entry appends `, ` and its member text |
| KeyQuotes.StripDumpsLastString | mcct/__init__.py:127 | a dict whose last entry's value is a string, and whose other values hold no strings at any depth, comes out with bare keys and that string still quoted |
| KeyQuotes.StripMemberLastString | mcct/__init__.py:127 | a string-valued member followed by the closing brace loses only its key's quotes |
| KeyQuotes.DumpsStringThenEntry | mcct/__init__.py:127 | the JSON text of a two-entry dict whose first value is a string |
| KeyQuotes.StripDumpsStringBeforeKey | mcct/__init__.py:127 | a string value followed by another key comes out as `{k1: s", "k2: v}` |
| KeyQuotes.EggItemGarbled | mcct/__init__.py:73-89 | `{"id": "minecraft:egg", "Count": 1}` comes out as `{id: minecraft:egg", "Count: 1}` |
| Nbt.Pruned | mcct/__init__.py:100-123 | the parse is never longer than the view; every kept value is in converted form and is not None, `{}` or `[]` |
| Nbt.Prunable | mcct/__init__.py:110-119 | a converted value is skipped exactly when it is None, a dict with no entries or a list with no elements |
| Nbt.SurvivorCases | mcct/__init__.py:107-121 | a view entry contributes nothing when its converted value is skipped, and otherwise itself with that converted value |
| Nbt.Parse | mcct/__init__.py:100-123 | the loop, with Python dict assignment, returns exactly `Pruned` of the view |
| Nbt.NewKey | mcct/__init__.py:105-121 | the key being stored is not yet in the dict built so far, so each store appends |
| Nbt.PrunedStep | mcct/__init__.py:105-121 | one loop step: an entry whose converted value is None, `{}` or `[]` leaves the dict unchanged, any other is stored under its key by dict assignment, and the result is the parse of one more entry |
| Nbt.Render | mcct/__init__.py:126-127 | the text starts with `{`, and an empty parse gives `{}` |
| Nbt.PrunedAppend | mcct/__init__.py:105-121 | pruning distributes over concatenation, so the kept keys are an order-preserving subsequence of the view's keys |
| Nbt.PrunedMember | mcct/__init__.py:105-121 | an entry is in the parse exactly when some view entry has its key and converts to its value, and that value is not None, `{}` or `[]` |
| Nbt.PrunedSound | mcct/__init__.py:105-121 | every entry of the parse has a view key and that view value converted, which is not None, `{}` or `[]` |
| Nbt.PrunedComplete | mcct/__init__.py:105-121 | every view entry whose converted value is not None, `{}` or `[]` is in the parse with its key and converted value |
| Nbt.NestedEmptyListKept | mcct/__init__.py:110-121 | `{"a": {"b": []}}` parses to `{"a": {"b": None}}` and renders as `{a: {b: null}}` |
| Nbt.RenderFirstKey | mcct/__init__.py:126-127 | a non-empty parse renders as `{`, then the first key bare, then `:` |
| Nbt.RenderEmptyIff | mcct/__init__.py:126-127 | with plain keys, the text is `{}` exactly when the parse is empty |
| Nbt.RenderSingleString | mcct/__init__.py:126-127 | one string-valued entry renders as `{k: "v"}` |
| Components.AttributeNames | mcct/__init__.py:142-152 | `self.__dict__` is never empty: its first name is `NBT` |
| Components.TagEligible | mcct/__init__.py:151 | an attribute named `NBT` or starting with `_` never reaches the tag data |
| Components.IdText | mcct/__init__.py:148-156 | the identifier text is `_id` when it is set and empty when it is not |
| Components.Eligible | mcct/__init__.py:150-152 | the comprehension keeps only fields that are neither `NBT` nor `_`-prefixed, and yields no more fields than it is given |
| Components.TagSegment | mcct/__init__.py:150-152 | the tag segment is always bracketed |
| Components.NbtSegment | mcct/__init__.py:154-156 | the NBT segment is empty exactly when the NBT text is `{}`, and otherwise is that text |
| Components.Render | mcct/__init__.py:147-156 | the text starts with the identifier (or nothing) followed by `[` |
| Components.EligibleAppend | mcct/__init__.py:150-152 | the comprehension distributes over concatenation, so fields keep declaration order |
| Components.EligibleMember | mcct/__init__.py:150-152 | a field reaches `TagData` exactly when it is eligible |
| Components.EligibleKeepsAll | mcct/__init__.py:150-152 | when every field is eligible, all of them reach `TagData` |
| Components.IgnoresHidden | mcct/__init__.py:150-152 | inserting an `NBT`-named or `_`-prefixed field anywhere does not change the rendering |
| Components.NbtSegmentEmptyIff | mcct/__init__.py:154-156 | with plain keys, the rendering is the identifier and tag segment alone exactly when the NBT parse is empty |
| Components.TagSegmentEmptyIff | mcct/__init__.py:150-152 | the tag segment is `[]` exactly when every eligible field's value converts to None |
| Components.BareRendersBrackets | mcct/__init__.py:131-156 | `Component()` renders as `[]` |
| Blocks.BellComponent | mcct/minecraft/blocks.py:9-18 | a bell is the `minecraft:bell` component with fields `facing` then `attachment` |
| Blocks.RenderBell | mcct/minecraft/blocks.py:14 | every bell rendering starts with `minecraft:bell[` |
| Blocks.ChestView | mcct/minecraft/blocks.py:73-78 | the chest's NBT view is exactly `Lock` then `Items`, whatever `_dict` holds |
| Blocks.ChestComponent | mcct/minecraft/blocks.py:81-88 | a chest is the `minecraft:chest` component with fields `facing`, `type`, `waterlogged` |
| Blocks.RenderChest | mcct/minecraft/blocks.py:81 | every chest rendering starts with `minecraft:chest[` |
| Blocks.EmptyNbtSegment | mcct/__init__.py:154-156 | an NBT view whose parse is empty adds nothing after the tag segment |
| Blocks.ChestIgnoresDict | mcct/minecraft/blocks.py:73-78 | chests that differ only in their NBT's `_dict` render the same |
| Blocks.DefaultChestNbtPrunes | mcct/minecraft/blocks.py:54-78 | with the defaults `DefaultChestNbt` holds (`Lock` None, `Items` empty), the chest's NBT parse is empty, whatever `_dict` holds |
| Blocks.BellFacingThenAttachment | mcct/minecraft/blocks.py:16-18 | a bell with string properties and an empty NBT `_dict` renders `minecraft:bell[facing=f,attachment=a]` |
| Blocks.TwoStringFields | mcct/__init__.py:50-64 | two eligible string-valued fields render as `[k1=s1,k2=s2]`, in declaration order |
| Blocks.SouthWallBell | mcct/minecraft/blocks.py:16-18 | `BellBlock(facing="south", attachment="single_wall")` renders `minecraft:bell[facing=south,attachment=single_wall]` |
| Blocks.BellWithoutProperties | mcct/minecraft/blocks.py:16-18 | a bell with both properties None and an empty NBT parse renders `minecraft:bell[]` |
| Blocks.DefaultBellRendersBrackets | mcct/minecraft/blocks.py:16-18 | `BellBlock()`, whose defaults `DefaultBell` holds (both properties None, empty NBT), renders `minecraft:bell[]` |
| Blocks.PlainChest | mcct/minecraft/blocks.py:54-88 | a chest with no properties, no lock and no items renders `minecraft:chest[]`, whatever `_dict` holds |
| Blocks.DefaultChestRendersBrackets | mcct/minecraft/blocks.py:81-88 | `ChestBlock()`, whose defaults `DefaultChest` holds (all properties None, the default NBT), renders `minecraft:chest[]` |
| Blocks.WaterloggedChest | mcct/minecraft/blocks.py:88 | `waterlogged=True` or `False` is written `waterlogged=true` or `waterlogged=false`, and the None properties vanish |
| Blocks.LockedViewPrunes | mcct/minecraft/blocks.py:54-78 | with a lock and no items, only `Lock` survives the parse |
| Blocks.LockedChestNbt | mcct/minecraft/blocks.py:54-78 | a chest NBT with `Lock="k"` and no items has the NBT segment `{Lock: "k"}` |
| Blocks.LockedChest | mcct/minecraft/blocks.py:54-88 | a locked chest without properties or items renders `minecraft:chest[]{Lock: "k"}` |

## Left out

- Floats: their `str` and JSON text are floating-point formatting.
- Escaping: `json.dumps` escapes `"`, `\` and non-ASCII characters, and `repr` escapes quotes. The proofs about the NBT text assume plain printable-ASCII strings without `"` or `\`, and `Text.Quote` writes no escapes.
- Python `repr` of list and dict tag values is modelled without escapes.
- `ChestSlot` (mcct/minecraft/blocks.py:58-65): `json.dumps` cannot serialise these objects, so a chest with slot objects raises `TypeError`. Here `Items` holds plain value trees.
- The shared default NBT instance (mcct/__init__.py:142, mcct/minecraft/blocks.py:82): each component owns its NBT value, so aliasing between instances is not modelled. On Python 3.11 and later, `dataclass` also rejects `_NBT()` as a default, because the instance is unhashable, so the module does not import there. The model describes the behaviour on the versions that accept it.
- Reflection: `getattr(self, '_id', None)` and `self.__dict__` are replaced by the explicit identifier and field list of each kind. The `t.Literal` annotations are not enforced at runtime, so property values are arbitrary values.
- Python's general regex engine and `json.dumps`: only the one pattern at mcct/__init__.py:127 and the default-argument JSON of the modelled value tree are written out.
- setup.py: packaging metadata, with no logic.
