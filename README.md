# tm1js model objects and utilities in Dafny

tm1js is a TypeScript client for the IBM Planning Analytics (TM1) REST API. Its services
send requests to the server. The model objects they use are the subject of this project.
Each one modelled here either reads a REST response (`fromJson`), or keeps local state
that the caller edits (add and remove elements, edges, hierarchies, tasks, variables,
parameters, axes and groups), or writes the JSON request body the server expects
(`body` / `constructBody`).

The model covers these parts of the library:

- **utilities**
  - the case- and space-insensitive map and set;
  - the two tuple maps that key edges by `[parent, component]`, one over the insensitive
    map and a legacy one over a plain `Map`;
  - the helpers: unique-name splitting, `removeSpacesAndLower`, `fixedEncodeURIComponent`.
- **models**: Hierarchy, Dimension, Element, Edge, Chore and ChoreTask, Process, User,
  NativeView and MDXView, Subset, ViewAxisSelection and ViewAxisTitle, both
  ElementAttribute versions, and Cube.

How the model is built:

- **JavaScript values** are a datatype `JsValue.Js`.
  - Objects are lists of fields in insertion order.
  - `Field` is property access, and it gives `Undefined` for a missing key.
  - `Truthy` is JavaScript truthiness.
- **A JavaScript `Map`** is an insertion-ordered entry list (`OrderedMap`).
- **Thrown exceptions** are `Err`/`Fail` values. Reading a property of `undefined` or
  `null` is `TypeError`.
- **State the source mutates.** A class whose methods change its fields becomes a Dafny
  `class`, with those methods as `method`s. Its collections are `seq` fields, or objects
  of the insensitive map, set or tuple map classes.
- **Pure code**, such as the body builders, `fromJson` readers and string helpers,
  becomes functions. Their properties are proved as lemmas.
- **Loops in the source** (`forEach`, `map` with side effects) become methods with loop
  invariants.
- **TypeScript enums** are modelled with their reverse mappings, because the source
  indexes them by both name and code.

## Model

| member | source | states |
|---|---|---|
| JsString.LowerChar | src/utils/helpers.ts:26-28 | `toLowerCase` on one character: A-Z move by 32, everything else is kept, and whitespace stays whitespace |
| JsString.ToLower | src/utils/helpers.ts:26-28 | lower-casing keeps the length and maps every character by `LowerChar` |
| JsString.StripWhitespace | src/utils/helpers.ts:26-28 | `replace(/\s/g, '')` leaves no whitespace and never lengthens the text |
| JsString.LowerStripCommute | src/utils/helpers.ts:26-28 | lower-casing and removing whitespace commute |
| JsString.NormalizeIsNormalized | src/utils/helpers.ts:26-28 | the normal form has no whitespace and no upper-case letter |
| JsString.NormalizeIdempotent | src/utils/helpers.ts:26-28 | normalising twice is normalising once |
| JsString.NormalizeAppend | src/utils/helpers.ts:26-28 | normalisation distributes over concatenation |
| JsString.Substring | src/utils/helpers.ts:17 | `substring` inside the bounds is the slice; outside them it is clamped and never longer than the text |
| JsString.IndexOfFrom | src/utils/helpers.ts:5 | `indexOf` gives the first occurrence at or after the start, or -1 exactly when there is none |
| JsString.IndexOfFound | src/utils/helpers.ts:5 | `indexOf` is non-negative exactly when the pattern occurs |
| JsString.Split | src/utils/helpers.ts:5 | `split` returns at least one piece |
| Helpers.RemoveSpacesAndLower | src/utils/helpers.ts:26-28 | the result is the normal form: no whitespace and no upper case |
| Helpers.RemoveSpacesAndLowerIdempotent | src/utils/helpers.ts:26-28 | applying it twice equals applying it once |
| Helpers.InsensitiveEqualsIsEquivalence | src/utils/helpers.ts:30-32 | `CaseAndSpaceInsensitiveEquals` is reflexive, symmetric and transitive |
| Helpers.InsensitiveEqualsExample | src/utils/helpers.ts:30-32 | "A b" equals "aB" under the comparison |
| Helpers.CaseAndSpaceInsensitiveEquals | src/utils/helpers.ts:30-32 | two names are equal exactly when they have the same key in the case- and space-insensitive map |
| Helpers.DropLast | src/utils/helpers.ts:17 | `substring(0, length - 1)` drops the last character and leaves "" as "" |
| Helpers.ExtractComponentsFromUniqueName | src/utils/helpers.ts:2-24 | it throws TypeError exactly when the name contains no `].[` |
| Helpers.SplitWithoutSeparator | src/utils/helpers.ts:5-12 | the split has one piece exactly when the separator does not occur |
| Helpers.ExtractThreeParts | src/utils/helpers.ts:2-24 | `[d].[h].[m]` gives dimension d, hierarchy h and member m |
| Helpers.ExtractTwoParts | src/utils/helpers.ts:7-12 | `[d].[m]` gives dimension d, hierarchy d and member m |
| Helpers.ExtractFromPieces | src/utils/helpers.ts:14-22 | with three or more pieces, the components are piece 0 without its first character, piece 1, and piece 2 without its last |
| Helpers.ExtractIgnoresLaterParts | src/utils/helpers.ts:14-22 | pieces after the third are ignored, and the member is then the third piece minus its last character |
| Helpers.Utf8 | src/utils/helpers.ts:34-38 | UTF-8 gives 1 to 4 bytes, each below 256; ASCII characters give themselves |
| Helpers.FixedEncodeCharCorrect | src/utils/helpers.ts:34-38 | replacing the marks after `encodeURIComponent` equals the per-character encoding |
| Helpers.FixedEncodeByChars | src/utils/helpers.ts:34-38 | `fixedEncodeURIComponent` works character by character |
| Helpers.FixedEncodeUriComponent | src/utils/helpers.ts:34-38 | `encodeURIComponent`, then each of `!'()*` replaced by `%` and its lower-case hex code; what it gives is stated by FixedEncodeByChars, FixedEncodeHasNoMarks and FixedEncodeDecodes |
| Helpers.MarkExamples | src/utils/helpers.ts:34-38 | `*`, `(`, `)`, `!` and `'` become `%2a`, `%28`, `%29`, `%21` and `%27` |
| Helpers.FixedEncodeCharShape | src/utils/helpers.ts:34-38 | unreserved characters pass through unchanged; every other character becomes `%XX` triplets |
| Helpers.PercentUpperAllTriplets | src/utils/helpers.ts:34-38 | escaping n bytes gives 3n characters, each triplet a `%` and two hex digits |
| Helpers.FixedEncodeHasNoMarks | src/utils/helpers.ts:34-38 | the fixed encoding contains none of `!'()*` |
| Helpers.DecodeUpperEscapes | src/utils/helpers.ts:34-38 | percent-decoding undoes the upper-case escapes of a byte string |
| Helpers.DecodeChar | src/utils/helpers.ts:34-38 | decoding one encoded character gives its UTF-8 bytes |
| Helpers.FixedEncodeDecodes | src/utils/helpers.ts:34-38 | round trip: percent-decoding the fixed encoding of s gives the UTF-8 bytes of s |
| OrderedMap.GetAfterSet | src/utils/TupleMap.ts:9-16 | after `set(k, v)`, `get(k)` is v and other keys are unchanged |
| OrderedMap.SetKeys | src/utils/TupleMap.ts:13-16 | `set` keeps a present key in place and appends a new one |
| OrderedMap.GetAfterDelete | src/utils/TupleMap.ts:22-24 | after `delete(k)`, k is absent and other keys are unchanged |
| OrderedMap.DeleteKeys | src/utils/TupleMap.ts:22-24 | `delete` removes exactly the key's entry, or is a no-op when the key is absent |
| InsensitiveMap.NormalizeKey | src/utils/case-and-space-insensitive-map.ts:11-16 | string keys are normalised; keys of other types are kept as they are |
| InsensitiveMap.EquivalentIffNormalFormsEqual | src/utils/case-and-space-insensitive-map.ts:11-23 | two string keys address the same entry exactly when `removeSpacesAndLower` agrees on them |
| InsensitiveMap.OtherKeysExact | src/utils/case-and-space-insensitive-map.ts:11-23 | a key that is not a string addresses only itself |
| InsensitiveMap.SetKeepsWellformed | src/utils/case-and-space-insensitive-map.ts:11-16 | `set` keeps the keys unique and normalised |
| InsensitiveMap.DeleteKeepsWellformed | src/utils/case-and-space-insensitive-map.ts:32-37 | `delete` keeps the keys unique and normalised |
| InsensitiveMap.NormalizeKeyIdempotent | src/utils/case-and-space-insensitive-map.ts:11-16 | normalising a key twice equals normalising it once |
| InsensitiveMap.GetAfterSet | src/utils/case-and-space-insensitive-map.ts:11-23 | after `set(k, v)`, `get` of any equivalent key is v and other keys are unchanged |
| InsensitiveMap.SetSize | src/utils/case-and-space-insensitive-map.ts:11-16 | `set` of an equivalent key keeps the key list; a new key appends its normal form and grows the map by one |
| InsensitiveMap.HasIffGet | src/utils/case-and-space-insensitive-map.ts:18-30 | `has(k)` exactly when `get(k)` finds a value |
| InsensitiveMap.GetAfterDelete | src/utils/case-and-space-insensitive-map.ts:32-37 | after `delete(k)`, no equivalent key is present and other keys are unchanged |
| InsensitiveMap.DeleteSize | src/utils/case-and-space-insensitive-map.ts:32-37 | `delete` shrinks the map by one exactly when the key was present |
| InsensitiveMap.KeysAreNormalized | src/utils/case-and-space-insensitive-map.ts:47-49 | `keys()` yields only normalised strings |
| InsensitiveMap.FromPairsHas | src/utils/case-and-space-insensitive-map.ts:6-9 | every initial pair is present after construction |
| InsensitiveMap.CaseAndSpaceInsensitiveMap.constructor | src/utils/case-and-space-insensitive-map.ts:6-9 | the map holds the initial pairs set one after another, well formed |
| InsensitiveMap.CaseAndSpaceInsensitiveMap.Set | src/utils/case-and-space-insensitive-map.ts:11-16 | the entries become `set` of the normalised key |
| InsensitiveMap.CaseAndSpaceInsensitiveMap.Get | src/utils/case-and-space-insensitive-map.ts:18-23 | looks up the normalised key |
| InsensitiveMap.CaseAndSpaceInsensitiveMap.Has | src/utils/case-and-space-insensitive-map.ts:25-30 | tests the normalised key |
| InsensitiveMap.CaseAndSpaceInsensitiveMap.Delete | src/utils/case-and-space-insensitive-map.ts:32-37 | returns whether the key was present and removes its entry |
| InsensitiveMap.CaseAndSpaceInsensitiveMap.ForEach | src/utils/case-and-space-insensitive-map.ts:39-41 | the callback sees (value, key) for every entry, in insertion order |
| InsensitiveMap.CaseAndSpaceInsensitiveMap.Entries | src/utils/case-and-space-insensitive-map.ts:43-45 | yields the entries in insertion order |
| InsensitiveMap.CaseAndSpaceInsensitiveMap.Keys | src/utils/case-and-space-insensitive-map.ts:47-49 | yields the stored (normalised) keys in order |
| InsensitiveMap.CaseAndSpaceInsensitiveMap.Values | src/utils/case-and-space-insensitive-map.ts:51-53 | yields the values in order |
| InsensitiveSet.SetDelete | src/utils/case-and-space-insensitive-set.ts:23-28 | `delete` never adds a member and never grows the set |
| InsensitiveSet.SetAdd | src/utils/case-and-space-insensitive-set.ts:12-17 | `add` grows the set by at most one, never drops a member, and holds the normal form of the value afterwards; pinned by HasAfterAdd and AddSize |
| InsensitiveSet.AddKeepsWellformedSet | src/utils/case-and-space-insensitive-set.ts:12-17 | `add` keeps the members distinct and normalised |
| InsensitiveSet.DeleteKeepsWellformedSet | src/utils/case-and-space-insensitive-set.ts:23-28 | `delete` keeps the members distinct and normalised |
| InsensitiveSet.HasAfterAdd | src/utils/case-and-space-insensitive-set.ts:12-17 | after `add(y)`, `has(x)` exactly when x is equivalent to y or was already present |
| InsensitiveSet.AddSize | src/utils/case-and-space-insensitive-set.ts:12-17 | adding an equivalent member changes nothing; a new member grows the size by one |
| InsensitiveSet.DeleteRemovesClass | src/utils/case-and-space-insensitive-set.ts:23-28 | after `delete(x)`, exactly the members not equivalent to x remain, and the size drops by one exactly when x was present |
| InsensitiveSet.DistinctCard | src/utils/case-and-space-insensitive-set.ts:50-52 | the member list has as many entries as distinct members |
| InsensitiveSet.FromListMembers | src/utils/case-and-space-insensitive-set.ts:7-10 | the constructed set holds exactly the normal forms of the initial values, well formed |
| InsensitiveSet.FromListHas | src/utils/case-and-space-insensitive-set.ts:7-10 | every initial value, and everything equivalent to it, is present |
| InsensitiveSet.SizeIsDistinctNormalForms | src/utils/case-and-space-insensitive-set.ts:50-52 | the size is the number of distinct normal forms among the initial values |
| InsensitiveSet.TwoValues | test/utils/case-and-space-insensitive-set.test.ts:11-17 | two inequivalent values give size 2 and both are present; a third inequivalent value is absent |
| InsensitiveSet.AddEquivalentTwice | test/utils/case-and-space-insensitive-set.test.ts:19-28 | adding two spellings of one value keeps a single member, and a third spelling is found |
| InsensitiveSet.CaseAndSpaceInsensitiveSet.constructor | src/utils/case-and-space-insensitive-set.ts:7-10 | the set holds the initial values added one after another, well formed |
| InsensitiveSet.CaseAndSpaceInsensitiveSet.Add | src/utils/case-and-space-insensitive-set.ts:12-17 | the members become `add` of the normalised value |
| InsensitiveSet.CaseAndSpaceInsensitiveSet.Clear | src/utils/case-and-space-insensitive-set.ts:19-21 | the set becomes empty |
| InsensitiveSet.CaseAndSpaceInsensitiveSet.Delete | src/utils/case-and-space-insensitive-set.ts:23-28 | returns whether the value was present and removes it |
| InsensitiveSet.CaseAndSpaceInsensitiveSet.Has | src/utils/case-and-space-insensitive-set.ts:35-40 | tests the normalised value |
| InsensitiveSet.CaseAndSpaceInsensitiveSet.ForEach | src/utils/case-and-space-insensitive-set.ts:31-33 | the callback sees (value, value) for every member, in order |
| InsensitiveSet.CaseAndSpaceInsensitiveSet.Keys | src/utils/case-and-space-insensitive-set.ts:42-44 | yields the stored members |
| InsensitiveSet.CaseAndSpaceInsensitiveSet.Values | src/utils/case-and-space-insensitive-set.ts:46-48 | yields the stored members |
| InsensitiveSet.CaseAndSpaceInsensitiveSet.Size | src/utils/case-and-space-insensitive-set.ts:50-52 | the size is the number of distinct members |
| JsonText.ParseEscapedChar | src/utils/tuple-map.ts:32-36 | `JSON.parse` reads back one character that `JSON.stringify` escaped |
| JsonText.ParseEscaped | src/utils/tuple-map.ts:32-36 | `JSON.parse` reads back an escaped string up to its closing quote |
| JsonText.ParseStringifyPair | src/utils/tuple-map.ts:32-36 | round trip: parsing `JSON.stringify([a, b])` gives (a, b) |
| JsonText.StringifyPairInjective | src/utils/tuple-map.ts:11-18 | distinct pairs stringify to distinct texts |
| JsonText.EscapeAppend | src/utils/tuple-map.ts:11-18 | escaping distributes over concatenation |
| JsonText.StringifyPairPieces | src/utils/tuple-map.ts:11-18 | the stringified pair is `["` a `","` b `"]` with a and b escaped |
| TupleMaps.ComponentKey | src/utils/tuple-map.ts:11-18 | the part of a component's normal form that survives in the key is never longer than the component |
| TupleMaps.ComponentKeyAppend | src/utils/tuple-map.ts:11-18 | the surviving part distributes over concatenation |
| TupleMaps.NormalizeEscapeChar | src/utils/tuple-map.ts:11-18 | normalising an escaped character equals escaping what survives of it |
| TupleMaps.NormalizeEscape | src/utils/tuple-map.ts:11-18 | normalising an escaped string equals escaping what survives of it |
| TupleMaps.SlotKeyIs | src/utils/tuple-map.ts:11-18 | the stored key is the stringified pair of the surviving parts of both components |
| TupleMaps.NormalizeAroundPieces | src/utils/tuple-map.ts:11-18 | normalisation passes through the JSON punctuation |
| TupleMaps.SameSlotIff | src/utils/tuple-map.ts:11-18 | two pairs share an entry exactly when both components agree after normalisation |
| TupleMaps.Positional | src/utils/tuple-map.ts:11-18 | (a, b) and (b, a) share an entry only when a and b agree |
| TupleMaps.ComponentKeyIsNormalize | src/utils/tuple-map.ts:11-18 | for components without control whitespace, what survives is exactly `removeSpacesAndLower` |
| TupleMaps.ComponentKeyIdempotent | src/utils/tuple-map.ts:11-18 | applying it twice equals applying it once |
| TupleMaps.EquivalentComponentsShareSlot | src/utils/tuple-map.ts:11-18 | insensitively equal components without control whitespace address the same entry |
| TupleMaps.TabKeepsSlotsApart | src/utils/tuple-map.ts:11-18 | a tab survives as its escape `\t`, so "A\tB" and "AB" do not share an entry although they are insensitively equal |
| TupleMaps.ReportedSlots | src/utils/tuple-map.ts:32-36 | the pairs `forEach` reports match the stored keys one to one |
| TupleMaps.SetKeepsSlotsMatch | src/utils/tuple-map.ts:15-18 | `set` keeps every stored key the key of a normalised pair |
| TupleMaps.DeleteKeepsSlotsMatch | src/utils/tuple-map.ts:24-26 | `delete` keeps the remaining keys matched to their pairs |
| TupleMaps.ParseKeys | src/utils/tuple-map.ts:32-36 | parsing every stored key gives back its pair |
| TupleMaps.ParseKey | src/utils/tuple-map.ts:34 | `JSON.parse` of a stored key gives the pair it came from |
| TupleMaps.SlotKeyOfTuple | src/utils/tuple-map.ts:11-18 | the normalised key is the key of the normalised pair |
| TupleMaps.GetAfterSet | src/utils/tuple-map.ts:11-18 | after `set(p, v)`, `get(q)` is v exactly when q shares p's entry |
| TupleMaps.OverwriteKeepsSlots | src/utils/tuple-map.ts:15-18 | setting a present pair keeps the keys and the size and replaces the value |
| TupleMaps.GetAfterDelete | src/utils/tuple-map.ts:24-26 | after `delete(p)`, pairs sharing p's entry are absent and others are unchanged |
| TupleMaps.ReportedPair | src/utils/tuple-map.ts:32-36 | the pair reported for a set pair is its normalised form, not the pair as given |
| TupleMaps.SizeAfterSet | src/utils/tuple-map.ts:15-18 | `set` grows the map by one exactly for a new entry |
| TupleMaps.TupleMap.constructor | src/utils/tuple-map.ts:7-9 | the new map is empty |
| TupleMaps.TupleMap.Get | src/utils/tuple-map.ts:11-13 | looks up the stringified pair, ignoring case and spaces |
| TupleMaps.TupleMap.Set | src/utils/tuple-map.ts:15-18 | sets the stringified pair |
| TupleMaps.TupleMap.Clear | src/utils/tuple-map.ts:20-22 | as written: throws TypeError and leaves the map unchanged |
| TupleMaps.TupleMap.ClearIntended | src/utils/tuple-map.ts:20-22 | as intended: empties the map |
| TupleMaps.TupleMap.Delete | src/utils/tuple-map.ts:24-26 | returns whether the pair was present and removes its entry |
| TupleMaps.TupleMap.Has | src/utils/tuple-map.ts:28-30 | tests the stringified pair |
| TupleMaps.TupleMap.ForEach | src/utils/tuple-map.ts:32-36 | the callback sees every value with the parsed (normalised) pair of its key, in order |
| TupleMaps.TupleMap.Values | src/utils/tuple-map.ts:38-40 | yields the values in order |
| TupleMaps.TupleMap.Size | src/utils/tuple-map.ts:42-44 | as written: `undefined` |
| TupleMaps.TupleMap.SizeIntended | src/utils/tuple-map.ts:42-44 | as intended: the number of entries |
| LegacyTupleMaps.TupleMap.constructor | src/utils/TupleMap.ts:3-7 | the new map is empty |
| LegacyTupleMaps.TupleMap.Get | src/utils/TupleMap.ts:9-11 | looks up the exact stringified pair |
| LegacyTupleMaps.TupleMap.Set | src/utils/TupleMap.ts:13-16 | sets the exact stringified pair |
| LegacyTupleMaps.TupleMap.Clear | src/utils/TupleMap.ts:18-20 | empties the map |
| LegacyTupleMaps.TupleMap.Delete | src/utils/TupleMap.ts:22-24 | returns whether the pair was present and removes its entry |
| LegacyTupleMaps.TupleMap.Has | src/utils/TupleMap.ts:26-28 | tests the exact stringified pair |
| LegacyTupleMaps.TupleMap.ForEach | src/utils/TupleMap.ts:30-34 | the callback sees every value with the pair its key parses to |
| LegacyTupleMaps.TupleMap.Values | src/utils/TupleMap.ts:37-56 | one single-property object `{[key]: value}` per entry, in order |
| LegacyTupleMaps.TupleMap.Size | src/utils/TupleMap.ts:59-61 | the number of entries |
| LegacyTupleMaps.ParseKey | src/utils/TupleMap.ts:32 | `JSON.parse` of a key gives the pair that was set |
| LegacyTupleMaps.KeysExact | src/utils/TupleMap.ts:9-16 | two pairs share a key exactly when they are equal |
| LegacyTupleMaps.CaseMatters | src/utils/TupleMap.ts:9-16 | ("A", "b") and ("a", "b") are different keys |
| LegacyTupleMaps.GetAfterSet | src/utils/TupleMap.ts:9-16 | after `set(p, v)`, `get(p)` is v and other pairs are unchanged |
| LegacyTupleMaps.SetSize | src/utils/TupleMap.ts:13-16 | `set` grows the map by one exactly for a new pair |
| LegacyTupleMaps.GetAfterDelete | src/utils/TupleMap.ts:22-24 | after `delete(p)`, p is absent and other pairs are unchanged |
| LegacyTupleMaps.ReportedPairIsSetPair | src/utils/TupleMap.ts:30-34 | `forEach` reports the pair exactly as it was set |
| TsEnums.DecimalInjective | src/models/Element.ts:63-67 | distinct codes have distinct decimal property names |
| TsEnums.CodeOfNameAt | src/models/Element.ts:63-67 | indexing an enum by a member name gives its code |
| TsEnums.NameOfCodeAt | src/models/Element.ts:63-67 | indexing an enum by a code's decimal text gives the member name (the reverse mapping) |
| TsEnums.NoNameIsANumeral | src/models/Element.ts:63-67 | no member name is the decimal text of a code, so the two directions never collide |
| TsEnums.NumericRoundTrip | src/models/Element.ts:63-67 | name to code to name round-trips through the numeric enum object |
| TsEnums.NumericMissing | src/models/Element.ts:63-67 | a key that is neither a name nor a code gives `undefined` |
| TsEnums.StringLookupAt | src/models/user.ts:113-119 | a string enum maps each name to its value |
| TsEnums.StringMissing | src/models/user.ts:113-119 | a string enum has no entry for any other key, its values included |
| JsArray.FindIndex | src/models/Dimension.ts:52-53 | `findIndex` gives the first match, or -1 exactly when nothing matches |
| JsArray.SpliceAtIndex | src/models/Dimension.ts:52-53 | `splice(i, 1)` inside the array removes exactly element i |
| JsArray.SpliceOneKeeps | src/models/Dimension.ts:52-53 | `splice(i, 1)` never adds an element |
| JsArray.SpliceBehindHead | src/models/Dimension.ts:52-53 | splicing behind the head leaves the head in place |
| JsArray.SpliceMinusOne | src/models/Dimension.ts:52-53 | `splice(-1, 1)` removes the last element |
| Bindings.TakeName | src/models/chore.ts:98-107 | reading a name up to its quote splits the text without loss, and the name holds no quote |
| Bindings.SegmentRoundTrip | src/models/chore.ts:98-107 | a quote-free name reads back from its `Collection('name')` segment |
| Bindings.PathRoundTrip | src/models/Subset.ts:49-66 | a path of quote-free names reads back as those names |
| Bindings.ParsePathStep | src/models/Subset.ts:49-66 | a path reads as its first segment, a `/`, and the rest |
| Bindings.PathInjective | src/models/Subset.ts:49-66 | quote-free names give equal paths exactly when the names are equal |
| Bindings.ElementPathRoundTrip | src/models/Subset.ts:60 | the element binding of the names d, h and e reads back as (d, h, e) |
| Bindings.SubsetPathRoundTrip | src/models/view-axis.ts:21-24 | the subset binding of the names d, h and s reads back as (d, h, s) |
| Bindings.SegmentPathRoundTrip | src/models/Cube.ts:35-37 | a single binding segment reads back as its name |
| Bindings.Segment | src/models/Cube.ts:36 | `${collection}('${name}')`, as Cube.ts:36, chore.ts:102 and user.ts:105 write it; read back by SegmentRoundTrip |
| Bindings.Path | src/models/Subset.ts:60 | segments joined by `/`; read back by PathRoundTrip and ParsePathStep, and injective by PathInjective |
| Bindings.ElementPath | src/models/Subset.ts:60 | `Dimensions('d')/Hierarchies('h')/Elements('e')`, also written at view-axis.ts:70; read back by ElementPathRoundTrip |
| Bindings.SubsetPath | src/models/view-axis.ts:23 | `Dimensions('d')/Hierarchies('h')/Subsets('s')`, also written at view-axis.ts:62; read back by SubsetPathRoundTrip |
| Elements.ElementTypeOf | src/models/Element.ts:63-67 | `ElementType[key]` is a code, a name or `undefined` |
| Elements.ElementTypeCodes | src/models/Element.ts:63-67 | Numeric, String and Consolidated are 1, 2 and 3, and "1", "2" and "3" map back to the names |
| Elements.ElementTypeMissing | src/models/Element.ts:63-67 | any other key gives `undefined` |
| Elements.DimensionNameOf | src/models/Element.ts:21 | the dimension name is the text between the first character and the first `].[`; without `].[` it is the first character only |
| Elements.DimensionNameOfUniqueName | src/models/Element.ts:21 | `[d].[…` gives dimension d |
| Elements.DimensionNameWithoutSeparator | src/models/Element.ts:21 | without a separator, the dimension name is the first character |
| Elements.AttributesOf | src/models/Element.ts:29-34 | an object's attributes are copied; a falsy value gives none |
| Elements.NewElement | src/models/Element.ts:12-35 | as written: throws TypeError without a string unique name; otherwise the fields are stored, and the hierarchy name equals the dimension name |
| Elements.NewElementIntended | src/models/Element.ts:12-35 | as intended: with a unique name it equals the constructor; without one it succeeds with empty dimension and hierarchy names |
| Elements.FromJson | src/models/Element.ts:37-46 | fails with TypeError on `null`/`undefined` or a string Name without a string UniqueName, and with MalformedResponse on a non-string Name; succeeds exactly when Name and UniqueName are strings and Attributes is falsy or an object; then name, type, unique name, level, index and copied attributes are as given, and the hierarchy name equals the dimension sliced out of the unique name |
| Elements.Body | src/models/Element.ts:48-54 | the body is exactly `Name` and `Type` |
| Elements.CopyAttributesExact | src/models/Element.ts:29-34 | copying attributes with unique keys gives the same attributes |
| Elements.CopyAttributes | src/models/Element.ts:29-34 | each attribute set in turn on a fresh object; stated by CopyAttributesExact |
| Elements.ElementNamesFromUniqueName | src/models/Element.ts:12-35 | `[d].[h].[m]` gives dimension d and hierarchy d, and no attributes |
| Elements.NoUniqueNameThrows | src/models/Element.ts:21-23 | as written, the constructor throws without a unique name; the intended version succeeds |
| Edges.FromJson | src/models/Edge.ts:12-18 | reads `ParentName`, `ComponentName` and `Weight`; it fails with TypeError on `null`/`undefined` |
| Edges.Body | src/models/Edge.ts:20-28 | the body is exactly `ParentName`, `ComponentName` and `Weight` |
| Edges.FromJsonBody | src/models/Edge.ts:12-28 | round trip: the body reads back as the same edge |
| Edges.MissingWeightStaysUndefined | src/models/Edge.ts:6-18 | a response without `Weight` gives an `undefined` weight |
| Hierarchies.ParseList | src/models/Hierarchy.ts:71-80 | a falsy list gives []; an array is parsed item by item; any other value is malformed |
| Hierarchies.ElementPairs | src/models/Hierarchy.ts:31-37 | every element is set under its name |
| Hierarchies.BareElement | src/models/Hierarchy.ts:82-84 | the element `addElement` means to create, built by the intended constructor |
| Hierarchies.HierarchyBody | src/models/Hierarchy.ts:116-142 | the body is exactly `Name`, `Elements` and `Edges`, holding the element and edge bodies in order |
| Hierarchies.Hierarchy.constructor | src/models/Hierarchy.ts:20-61 | the elements are keyed by name in the insensitive map, the edges by pair in the tuple map, and the rest is stored as given |
| Hierarchies.Hierarchy.AddElement | src/models/Hierarchy.ts:82-84 | as written: always throws TypeError, because the Element constructor is called without a unique name |
| Hierarchies.Hierarchy.AddElementIntended | src/models/Hierarchy.ts:82-84 | as intended: sets a new element of that name and type |
| Hierarchies.Hierarchy.UpdateElement | src/models/Hierarchy.ts:86-94 | a present element gets the new type and keeps everything else; an absent name throws TypeError and changes nothing |
| Hierarchies.Hierarchy.UpdateElementIntended | src/models/Hierarchy.ts:86-94 | as intended: an absent name adds a new element |
| Hierarchies.Hierarchy.DeleteElement | src/models/Hierarchy.ts:96-100 | removes the element, ignoring case and spaces |
| Hierarchies.Hierarchy.AddEdge | src/models/Hierarchy.ts:102-104 | sets the pair to the weight |
| Hierarchies.Hierarchy.UpdateEdge | src/models/Hierarchy.ts:106-108 | sets the pair to the weight |
| Hierarchies.Hierarchy.DeleteEdge | src/models/Hierarchy.ts:110-114 | removes the pair's entry |
| Hierarchies.Hierarchy.ElementValues | src/models/Hierarchy.ts:67-69 | the `elements` getter lists the values in order |
| Hierarchies.Hierarchy.EdgeWeights | src/models/Hierarchy.ts:63-65 | the `edges` getter lists the weights in order |
| Hierarchies.Hierarchy.ConstructBody | src/models/Hierarchy.ts:116-142 | the body holds the stored elements and the edges that `forEach` reports |
| Hierarchies.InsertElements | src/models/Hierarchy.ts:31-37 | the loop sets every element under its name |
| Hierarchies.InsertEdges | src/models/Hierarchy.ts:39-47 | the loop sets every edge under its pair |
| Hierarchies.ElementsOfCalls | src/models/Hierarchy.ts:121-126 | collects the `forEach` values in order |
| Hierarchies.EdgesOfCalls | src/models/Hierarchy.ts:128-134 | rebuilds an edge from each reported pair and weight |
| Hierarchies.FromJson | src/models/Hierarchy.ts:20-80 | succeeds exactly on a readable response: an object with a string `UniqueName` and `Name` whose Elements, Edges, Subsets and ElementAttributes each read, and fails with TypeError on `null`/`undefined` or a non-string `UniqueName`; the hierarchy then holds the name, the dimension sliced out of the unique name, every element under its name, every edge under its pair, and the subsets and element attributes as read, in order |
| Hierarchies.SetKeepsKeyedByName | src/models/Hierarchy.ts:86-94 | setting an element under its own name keeps every entry keyed by its name |
| Hierarchies.DeleteKeepsKeyedByName | src/models/Hierarchy.ts:96-100 | deleting keeps every entry keyed by its name |
| Hierarchies.StoredNameMatches | src/models/Hierarchy.ts:86-94 | the element found under a name has that name, ignoring case and spaces |
| Hierarchies.SamePair | src/models/Hierarchy.ts:39-47 | the stringified key determines the pair |
| Hierarchies.ElementNamesDistinct | src/models/Hierarchy.ts:31-37 | no two stored elements have insensitively equal names |
| Hierarchies.AddElementCount | test/services/hierarchy-service.test.ts:89-98 | adding a new name grows the elements by one, and that name then finds the new element |
| Hierarchies.UpdateChangesOnlyType | src/models/Hierarchy.ts:86-94 | updating changes only that element's type and leaves other names unchanged |
| Hierarchies.DeleteElementEffect | src/models/Hierarchy.ts:96-100 | after deleting, the name is absent, other names are unchanged, and the count drops by one exactly when it was present |
| Hierarchies.AddEdgeDefaultWeight | src/models/Hierarchy.ts:102-104 | an edge added with the default weight reads back as 1 |
| Hierarchies.AddOneOfEach | test/services/hierarchy-service.test.ts:89-98 | a new element and a new edge each add one to their counts, whatever the counts were (the test's four elements and one edge become five and two) |
| Hierarchies.BodyEdgeNames | src/models/Hierarchy.ts:128-134 | the body's edges carry the normalised names, not the names as set |
| Dimensions.KeptBodies | src/models/Dimension.ts:70-84 | the hierarchies named `Leaves` are left out, and the list never grows |
| Dimensions.DimensionBody | src/models/Dimension.ts:70-84 | the body is exactly `Name` and `Hierarchies` |
| Dimensions.Dimension.Names | src/models/Dimension.ts:10-23 | the names of the hierarchies in order |
| Dimensions.Dimension.constructor | src/models/Dimension.ts:10-23 | the fields are stored as given |
| Dimensions.Dimension.HasHierarchy | src/models/Dimension.ts:26-35 | true exactly when some hierarchy's name matches, ignoring case and spaces |
| Dimensions.Dimension.AddHierarchy | src/models/Dimension.ts:37-44 | a matching name throws "Hierarchy … already exists in dimension …" and changes nothing; otherwise the hierarchy is appended |
| Dimensions.ExistsMessage | src/models/Dimension.ts:40 | the template-literal message AddHierarchy throws on a duplicate name |
| Dimensions.Dimension.DeleteHierarchy | src/models/Dimension.ts:46-55 | `leaves` in any case throws; otherwise `splice(findIndex(lower-case match), 1)` |
| Dimensions.Dimension.ConstructBody | src/models/Dimension.ts:70-84 | the body holds the bodies of the non-Leaves hierarchies in order |
| Dimensions.NamesOf | src/models/Dimension.ts:52 | the names of a list of hierarchies |
| Dimensions.CollectKeptBodies | src/models/Dimension.ts:75-80 | the loop collects exactly the kept bodies |
| Dimensions.KeptBodiesStep | src/models/Dimension.ts:75-80 | one loop step adds that hierarchy's body unless it is named Leaves |
| Dimensions.KeptBody | src/models/Dimension.ts:76-78 | a Leaves hierarchy contributes nothing, and any other contributes its body |
| Dimensions.ParseHierarchies | src/models/Dimension.ts:14-18 | succeeds exactly when every item is a readable hierarchy; hierarchy i then holds everything `Hierarchy.fromJson` reads from item i |
| Dimensions.FromJson | src/models/Dimension.ts:10-64 | succeeds exactly on a readable response: a string Name, a truthy Hierarchies that is an array of readable hierarchies, and a truthy DefaultHierarchy that is readable; fails with TypeError on `null`/`undefined`; hierarchy i holds what is read from item i (none when Hierarchies is falsy), and the default is present exactly when truthy and holds what is read from it |
| Dimensions.DeleteRemovesFirstMatch | src/models/Dimension.ts:52-53 | deletion removes the first hierarchy whose lower-case name matches |
| Dimensions.DeleteFromNames | src/models/Dimension.ts:52-53 | `splice(findIndex(…), 1)` always removes exactly one hierarchy from a non-empty list, since findIndex gives a match or -1; which one is stated by DeleteRemovesFirstMatch and DeleteWithoutMatchDropsLast |
| Dimensions.DeleteWithoutMatchDropsLast | src/models/Dimension.ts:52-53 | as written: with no match, `findIndex` gives -1 and the last hierarchy is removed |
| Dimensions.DeleteMatchIsCaseOnly | src/models/Dimension.ts:46-55 | deletion compares lower case only, unlike `hasHierarchy`, which also ignores spaces |
| Dimensions.KeptBodiesSnoc | src/models/Dimension.ts:75-80 | keeping works hierarchy by hierarchy |
| Dimensions.KeptWithoutLeaves | src/models/Dimension.ts:75-80 | without Leaves hierarchies every body is kept |
| Dimensions.KeptOnlyLeaves | src/models/Dimension.ts:75-80 | only Leaves hierarchies give no bodies |
| Dimensions.LeavesAddsNothing | test/services/dimension-service.test.ts:170-179 | appending a Leaves hierarchy adds nothing to the body; any other adds its body |
| Chores.ExecutionModeOf | src/models/chore.ts:119-122 | `ChoreExecutionMode[key]` is a code, a name or `undefined` |
| Chores.ExecutionModeCodes | src/models/chore.ts:119-122 | SingleCommit is 0 and MultipleCommit is 1, both ways |
| Chores.TaskKeysDistinct | src/models/chore.ts:98-107 | the task body keys are distinct |
| Chores.TaskBody | src/models/chore.ts:98-107 | the task body is `Step`, the process binding and `Parameters` |
| Chores.TaskFromJson | src/models/chore.ts:109-115 | succeeds exactly when the response and its `Process` are neither `null` nor `undefined` and `Process.Name` is a string; a missing `Process` throws TypeError; on success the step, the parameters and the process name are as given |
| Chores.TaskBodies | src/models/chore.ts:60-62 | one task body per task, in order |
| Chores.WithTask | src/models/chore.ts:31-34 | as written: appends a task with the process and parameters, its step being the old length minus one |
| Chores.WithTaskIntended | src/models/chore.ts:31-34 | as intended: appends a task whose step is the old length |
| Chores.WithoutStep | src/models/chore.ts:36-42 | removes one task; a missing step removes the last |
| Chores.Renumbered | src/models/chore.ts:36-42 | every task's step becomes its index |
| Chores.ChoreBody | src/models/chore.ts:48-65 | the body carries the seven keys with the stored values and the task bodies |
| Chores.Chore.constructor | src/models/chore.ts:12-28 | the fields are stored as given |
| Chores.Chore.AddTask | src/models/chore.ts:31-34 | the tasks become `WithTask`; nothing else changes |
| Chores.Chore.AddTaskIntended | src/models/chore.ts:31-34 | the tasks become `WithTaskIntended`; nothing else changes |
| Chores.Chore.RemoveTask | src/models/chore.ts:36-42 | as written: the tasks become `WithoutStep`, because the renumbered copy is discarded |
| Chores.Chore.RemoveTaskIntended | src/models/chore.ts:36-42 | as intended: the remaining tasks are renumbered |
| Chores.Chore.ConstructBody | src/models/chore.ts:48-65 | the body is the chore body of the stored fields and tasks |
| Chores.PushTaskBodies | src/models/chore.ts:60-62 | the loop collects every task body |
| Chores.TasksFromJson | src/models/chore.ts:67-77 | `Tasks` must be an array, read task by task |
| Chores.FromJson | src/models/chore.ts:67-77 | fails with TypeError on `null`/`undefined`, and otherwise exactly when the tasks fail to read, with their error; name, start time, DST flag, active flag, execution mode and frequency are stored as the response carries them, and the tasks are the read list |
| Chores.RemoveFirstWithStep | src/models/chore.ts:36-42 | removes the first task with that step |
| Chores.RemoveMissingStepDropsLast | src/models/chore.ts:36-42 | as written: a missing step removes the last task |
| Chores.RemoveKeepsSteps | src/models/chore.ts:36-42 | removal never adds a task |
| Chores.FirstTaskStepIsMinusOne | src/models/chore.ts:31-34 | as written: the first task added gets step -1 |
| Chores.AddTaskRepeatsLastStep | src/models/chore.ts:31-34 | as written: on tasks numbered 0…n-1, the new task repeats step n-1 |
| Chores.AddTaskIntendedKeepsIndices | src/models/chore.ts:31-34 | as intended: adding keeps the steps equal to the indices |
| Chores.RemoveTaskLeavesGap | src/models/chore.ts:36-42 | as written: on tasks numbered 0, 1, 2, …, removing any step but the last puts the next task, with its old step, in the gap, so the steps no longer number the tasks |
| Chores.RemoveTaskIntendedKeepsIndices | src/models/chore.ts:36-42 | as intended: after removal the steps equal the indices |
| Chores.TaskBodyBindsProcess | src/models/chore.ts:98-115 | the body of a read task binds the process of the response |
| Chores.ProcessBindRoundTrip | src/models/chore.ts:98-107 | the process binding reads back as the process name |
| Chores.TaskBodyIsNotAResponse | src/models/chore.ts:98-115 | a task body has no `Process` key, so reading it as a response throws |
| Processes.TestPattern | src/models/Process.ts:58-66 | true exactly when the begin marker occurs before the end marker |
| Processes.ProcedureText | src/models/Process.ts:68-84 | a missing procedure is "", and a string is kept |
| Processes.AddGeneratedStatement | src/models/Process.ts:58-66 | code that has the generated block is kept; otherwise the block and a CRLF are prepended |
| Processes.SourceObject | src/models/Process.ts:158-211 | the data source body is `Type` followed by the keys of its kind, copied from the stored data source |
| Processes.VariableUIData | src/models/Process.ts:90-107 | the UI data of a variable type, for its VarType code |
| Processes.VariableRecord | src/models/Process.ts:90-107 | a variable has exactly Name, Type, Position, StartByte 0 and EndByte 0 |
| Processes.ParameterType | src/models/Process.ts:117-134 | the given type wins; otherwise a string value is "String" and anything else "Numeric" |
| Processes.ParameterRecord | src/models/Process.ts:117-134 | a parameter has exactly Name, Type, Prompt and Value |
| Processes.FindByName | src/models/Process.ts:109-115 | `findIndex` of the name: the first match or -1; a `null` entry before a match throws TypeError |
| Processes.ProcessBodyHeader | src/models/Process.ts:143-213 | the body carries the name and the security flag |
| Processes.ProcessBodyPrologAndMetadata | src/models/Process.ts:143-213 | the body carries the prolog and the metadata procedure |
| Processes.ProcessBodyDataAndEpilog | src/models/Process.ts:143-213 | the body carries the data and the epilog procedure |
| Processes.ProcessBodyLists | src/models/Process.ts:143-213 | the body carries the UI data, the variables, their UI data, the parameters and the data source |
| Processes.ProcessBody | src/models/Process.ts:143-157 | the body has exactly the eleven keys in write order; the values are stated by the ProcessBody lemmas above |
| Processes.Process.constructor | src/models/Process.ts:35-56 | each procedure gets the generated block; the data source is the defaults overwritten by the given fields; absent lists are [] |
| Processes.Process.AddVariable | src/models/Process.ts:90-107 | appends the variable at position length + 1 and its UI data; the parameters, data source, procedures, name, security flag and UI data stay |
| Processes.Process.RemoveVariable | src/models/Process.ts:109-115 | removes the found variable and its UI data at the same index; a `null` entry throws; the parameters, data source, procedures, name, security flag and UI data stay |
| Processes.Process.AddParameter | src/models/Process.ts:117-134 | appends the parameter; the variables, their UI data, data source, procedures, name, security flag and UI data stay |
| Processes.Process.RemoveParameter | src/models/Process.ts:136-141 | as written: splices unless the index is 1; a `null` entry throws; every other field stays |
| Processes.Process.RemoveParameterIntended | src/models/Process.ts:136-141 | as intended: splices unless the index is -1; a `null` entry throws; every other field stays |
| Processes.Process.ConstructBody | src/models/Process.ts:143-213 | the body of the stored fields with the data source body of its type |
| Processes.OptionalList | src/models/Process.ts:68-84 | a missing list is absent, and an array is taken as it is |
| Processes.SpreadFields | src/models/Process.ts:68-84 | spreading a missing data source gives no fields; an object gives its fields |
| Processes.FromJson | src/models/Process.ts:68-84 | fails with TypeError on `null`/`undefined` and with MalformedResponse on any other unreadable response; succeeds exactly on a readable one (every procedure a string or missing, the data source spreadable, every list an array or missing); the name, security flag and UI data are as given, each procedure carries the generated block, the data source is merged over the defaults, and a missing list is `[]` |
| Processes.AutoGeneratedHasBlock | src/models/Process.ts:1-3 | the generated block matches the pattern |
| Processes.AddGeneratedHasBlock | src/models/Process.ts:58-66 | every procedure ends up with a generated block |
| Processes.AddGeneratedIdempotent | src/models/Process.ts:58-66 | adding the block twice equals adding it once |
| Processes.MissingCodeIsBareBlock | src/models/Process.ts:58-66 | empty code becomes the bare block and a CRLF |
| Processes.DefaultDataSourceBody | src/models/Process.ts:12-28 | the default data source writes as `{Type: "None"}` |
| Processes.MergeDataSourceKeys | src/models/Process.ts:51 | `{ ...this.dataSource, ...dataSource }` keeps every default key in its default place (the default keys are a prefix) and holds every given key |
| Processes.MergeDataSource | src/models/Process.ts:51 | the spread over the defaults: every default key stays, in the default order; that every given key is present is stated by MergeDataSourceKeys |
| Processes.FixedWidthOmitsDelimiter | src/models/Process.ts:177-179 | a fixed-width ASCII source writes every ASCII key except `asciiDelimiterChar` |
| Processes.DataSourceKeysByType | src/models/Process.ts:158-211 | each data source type writes exactly its keys; an unknown type writes `{}` |
| Processes.DataSourceBody | src/models/Process.ts:158-211 | the data-source part of the body, chosen by type; its keys per type are stated by DataSourceKeysByType, FixedWidthOmitsDelimiter and DefaultDataSourceBody |
| Processes.VariableUIDataCodes | src/models/Process.ts:90-107 | String is VarType 32 and Numeric is VarType 33 |
| Processes.FindByNameOfRecords | src/models/Process.ts:109-115 | on lists without `null`, the lookup is `findIndex` |
| Processes.RemoveVariableKeepsParallel | src/models/Process.ts:109-115 | removing at one index keeps the variables and their UI data aligned |
| Processes.RemoveMissingParameterDropsLast | src/models/Process.ts:136-141 | as written: an unknown name removes the last parameter |
| Processes.SecondParameterIsKept | src/models/Process.ts:136-141 | as written: the parameter at index 1 cannot be removed |
| Processes.AfterRemoveParameter | src/models/Process.ts:138-140 | the `index !== 1` guard around `splice(index, 1)`: at most one parameter goes and none is added (a sub-multiset); the effect as written is stated by SecondParameterIsKept and RemoveMissingParameterDropsLast |
| Processes.RemoveParameterIntendedEffect | src/models/Process.ts:136-141 | as intended: the found parameter is removed, and an unknown name changes nothing |
| Users.UserTypeOf | src/models/user.ts:113-119 | `UserType[key]` is a code string or `undefined` |
| Users.UserTypeCodes | src/models/user.ts:113-119 | User, SecurityAdmin, DataAdmin, Admin and OperationsAdmin are "0" to "4" |
| Users.UserTypeHasNoReverseMapping | src/models/user.ts:113-119 | a string enum has no entries for its codes |
| Users.GroupKeys | src/models/user.ts:24-29 | one string key per group name |
| Users.GroupBindings | src/models/user.ts:102-107 | one `Groups('g')` binding per group, in order |
| Users.BodyKeysDistinct | src/models/user.ts:90-110 | the body keys are distinct |
| Users.User.constructor | src/models/user.ts:12-52 | the groups are the insensitive set of the names; the type is the given one, or else inferred from the groups |
| Users.User.GetType | src/models/user.ts:54-56 | the getter gives `UserType[type]` |
| Users.User.SetType | src/models/user.ts:58-60 | the setter stores the type name; name, password, groups, friendly name, active flag and enabled flag stay |
| Users.User.AddGroup | src/models/user.ts:62-66 | adds the group, ignoring case and spaces |
| Users.User.RemoveGroup | src/models/user.ts:68-72 | deletes the group, ignoring case and spaces |
| Users.User.ConstructBody | src/models/user.ts:90-110 | the body of the stored fields, with the type code and the group bindings |
| Users.AddEach | src/models/user.ts:24-29 | the loop adds every group name |
| Users.ChooseType | src/models/user.ts:33-48 | the type chosen from the given type and the groups |
| Users.Infer | src/models/user.ts:33-48 | the type inferred from the admin groups |
| Users.CollectBindings | src/models/user.ts:102-107 | the loop collects one binding per group |
| Users.GroupNames | src/models/user.ts:74-84 | missing groups give []; an array gives the group names; any other value throws |
| Users.ItemNames | src/models/user.ts:74-84 | reads `Name` of every group item, and a `null` item fails |
| Users.TypeArgument | src/models/user.ts:74-84 | a string type is passed on, and a falsy one is absent |
| Users.FromJson | src/models/user.ts:74-84 | fails with TypeError on `null`/`undefined`, and otherwise exactly when the groups or the type cannot be read; name, password, friendly name, active flag and enabled flag as given; the groups are the read names and the type is chosen from them |
| Users.DeleteAbsent | src/models/user.ts:68-72 | removing an absent group changes nothing |
| Users.InferredTypeHasCode | src/models/user.ts:33-48 | every inferred type has a code |
| Users.InferredType | src/models/user.ts:33-48 | the inferred type is one of Admin, SecurityAdmin, DataAdmin, OperationsAdmin and User, and Admin whenever an ADMIN group is present |
| Users.ChosenType | src/models/user.ts:33-48 | the type is never empty: either the given type or the inferred one; which one is stated by GivenTypeWins and InferencePriority |
| Users.InferencePriority | src/models/user.ts:33-48 | ADMIN wins over SecurityAdmin, which wins over DataAdmin and OperationsAdmin; User exactly when there is no admin group |
| Users.GivenTypeWins | src/models/user.ts:33-48 | a non-empty given type is kept, even one that has no code |
| Users.AddGroupIdempotent | src/models/user.ts:62-66 | adding a group twice equals adding it once |
| Users.GroupsStayStrings | src/models/user.ts:62-72 | adding and removing keep every group a string |
| Users.UserBodyKeys | src/models/user.ts:90-110 | the body has Name, FriendlyName, Type and Enabled, then Password when it is truthy, then the bindings when there are groups |
| Users.UserBodyLayout | src/models/user.ts:90-110 | the body's fields are laid out in write order |
| Users.UserBodyBaseFields | src/models/user.ts:90-110 | FriendlyName falls back to the name; Name, Type and Enabled as stored |
| Users.UserBodyOptionalFields | src/models/user.ts:98-107 | Password and the group bindings carry the stored values |
| Users.UserBody | src/models/user.ts:90-110 | an object of four fields, plus one when the password is truthy and one when there is a group binding; keys, order and values are stated by the UserBody lemmas |
| Users.GroupBindingsReadBack | src/models/user.ts:102-107 | each group binding reads back as its group name |
| Users.AdminGroupMakesAdmin | src/models/user.ts:33-48 | without a given type, any spelling of ADMIN among the groups makes the user Admin |
| Subsets.NewSubset | src/models/Subset.ts:11-27 | the hierarchy name defaults to the dimension name when it is missing or empty; the other fields are stored |
| Subsets.ElementBinds | src/models/Subset.ts:60 | one element binding per element, in order |
| Subsets.StaticBody | src/models/Subset.ts:49-66 | throws TypeError without an element list; otherwise Name, Alias, then the bindings when there are elements |
| Subsets.DynamicBody | src/models/Subset.ts:68-75 | exactly Name, Alias and Expression |
| Subsets.Body | src/models/Subset.ts:41-47 | a truthy expression gives the dynamic body; otherwise the static one |
| Subsets.ElementNames | src/models/Subset.ts:36 | reads every element's `Name` |
| Subsets.OptName | src/models/Subset.ts:33 | a falsy hierarchy name is absent, and a string is kept |
| Subsets.FromJson | src/models/Subset.ts:29-39 | succeeds exactly when `UniqueName` is a string, `Hierarchy` is neither `null` nor `undefined`, `Elements` is an array of readable items and the names read; fails with TypeError on `null`/`undefined` or a non-string `UniqueName`; the hierarchy name is `Hierarchy.Name` when truthy and the dimension name otherwise; the other fields as read |
| Subsets.BodyShape | src/models/Subset.ts:41-75 | an `Expression` key exactly in the dynamic case; bindings exactly for a static subset with elements |
| Subsets.StaticBindsReadBack | src/models/Subset.ts:49-66 | each element binding reads back as (dimension, hierarchy, element) |
| Subsets.NoElementsThrows | src/models/Subset.ts:49-66 | a static subset without elements throws TypeError |
| ViewAxes.SubsetPart | src/models/view-axis.ts:18-30 | a named subset is bound; an unnamed one is written in full |
| ViewAxes.SelectionBody | src/models/view-axis.ts:18-30 | `{Subset: …}` of the subset part |
| ViewAxes.TitleBody | src/models/view-axis.ts:57-73 | exactly Subset and the selected element's binding |
| ViewAxes.SelectionFromJson | src/models/view-axis.ts:10-12 | reads the subset of the response |
| ViewAxes.SelectedName | src/models/view-axis.ts:46-51 | a missing `Selected` throws; a missing name is "" |
| ViewAxes.TitleFromJson | src/models/view-axis.ts:46-51 | fails with TypeError on `null`/`undefined`; otherwise succeeds exactly when the subset and the selected name read, and holds both |
| ViewAxes.NamedSubsetIsBound | src/models/view-axis.ts:21-24 | the subset binding reads back as (dimension, hierarchy, subset) |
| ViewAxes.TitleSelectsElement | src/models/view-axis.ts:68-70 | the selected binding reads back as (dimension, hierarchy, element) |
| ViewAxes.NullSelectionIsEmpty | src/models/view-axis.ts:49 | a selected element with a `null` name reads as "" |
| ViewAxes.MissingSelectionThrows | src/models/view-axis.ts:46-51 | a title without `Selected` throws TypeError |
| Views.MdxFromJson | src/models/View.ts:29-31 | reads Name and MDX; it fails with TypeError on `null`/`undefined` |
| Views.MdxBody | src/models/View.ts:37-44 | exactly @odata.type (the MDX view type), Name and MDX |
| Views.MdxRoundTrip | src/models/View.ts:29-44 | round trip: the body reads back as the same view |
| Views.FindIndexSpliceIsRemoveFirst | src/models/View.ts:93-100 | `splice(findIndex(p), 1)`, skipped at -1, removes the first match |
| Views.RemoveFirst | src/models/View.ts:93-100 | removes at most one axis and never adds one: the length drops by at most one and the result is a sub-multiset |
| Views.RemoveFirstNoMatch | src/models/View.ts:93-100 | without a match nothing is removed |
| Views.RemoveFirstAt | src/models/View.ts:93-100 | the first match is removed and the length drops by one |
| Views.AddThenRemove | src/models/View.ts:88-100 | adding an axis on a new dimension and removing by that dimension restores the list |
| Views.NativeKeysDistinct | src/models/View.ts:150-175 | the body keys are distinct |
| Views.NativeObject | src/models/View.ts:150-175 | exactly the seven keys with the stored values |
| Views.NativeBodyFails | src/models/View.ts:150-175 | the body succeeds exactly when every axis body does |
| Views.NativeBodyAxes | src/models/View.ts:150-175 | columns, rows and titles carry the axis bodies one for one |
| Views.NativeBody | src/models/View.ts:150-175 | a body that is built has exactly the native keys and the view's name; when it fails is stated by NativeBodyFails |
| Views.PushBodies | src/models/View.ts:150-175 | the loop maps every axis body or stops at the first failure |
| Views.NativeView.constructor | src/models/View.ts:55-86 | absent axes are []; the rest is stored |
| Views.NativeView.AddColumn | src/models/View.ts:88-91 | appends a column selection; nothing else changes |
| Views.NativeView.RemoveColumn | src/models/View.ts:93-100 | removes the first column on that dimension |
| Views.NativeView.AddRow | src/models/View.ts:102-105 | appends a row selection |
| Views.NativeView.RemoveRow | src/models/View.ts:107-114 | removes the first row on that dimension |
| Views.NativeView.AddTitle | src/models/View.ts:116-119 | appends a title with its selection |
| Views.NativeView.RemoveTitle | src/models/View.ts:121-128 | removes the first title on that dimension |
| Views.NativeView.SuppressEmptyCells | src/models/View.ts:130-133 | both suppress flags become true |
| Views.NativeView.ConstructBody | src/models/View.ts:150-175 | the native body of the stored fields |
| Views.MappedList | src/models/View.ts:135-144 | `.map` over an array, failing on a non-array |
| Views.NativeFromJson | src/models/View.ts:135-144 | fails with TypeError on `null`/`undefined` or without a Columns array; otherwise succeeds exactly when the three axis lists map and the name is a string, and then holds the mapped axes and the suppress flags |
| ElementAttributes.Type | src/models/element-attribute.ts:10-12 | the getter throws exactly on a missing type; otherwise it indexes the enum by the stored value's text, so a member name (plain or as a one-item array) gives its code |
| ElementAttributes.SetType | src/models/element-attribute.ts:14-16 | the setter stores the name, so the getter then gives its code |
| ElementAttributes.FromJson | src/models/element-attribute.ts:18-20 | reads Name and Type; it fails only on `null`/`undefined` |
| ElementAttributes.Body | src/models/element-attribute.ts:22-27 | exactly Name and Type, failing exactly when the getter throws |
| ElementAttributes.MembersWellformed | src/models/element-attribute.ts:36-40 | the enum names and codes are distinct |
| ElementAttributes.TypeCodes | src/models/element-attribute.ts:36-40 | Numeric, String and Alias are 0, 1 and 2 |
| ElementAttributes.SetThenGet | src/models/element-attribute.ts:10-27 | setting a member name makes the getter and the body give its code |
| ElementAttributes.ArrayOfNameReadsCode | src/models/element-attribute.ts:10-12 | a type stored as `[name]` reads the member's code, as `["Alias"].toString()` is `"Alias"` |
| ElementAttributes.BodyOfResponse | src/models/element-attribute.ts:18-27 | a response's type name is written as its code |
| LegacyElementAttributes.FromJson | src/models/ElementAttribute.ts:11-13 | reads Name and Type; it fails only on `null`/`undefined` |
| LegacyElementAttributes.Body | src/models/ElementAttribute.ts:15-21 | exactly Name and Type |
| LegacyElementAttributes.AttributeTypeAt | src/models/ElementAttribute.ts:18 | indexes the enum by `String(key)`; a key whose text is not modelled reads `undefined`, as no enum key is written with a point or an exponent |
| LegacyElementAttributes.ArrayOfCodeWritesName | src/models/ElementAttribute.ts:18 | a type stored as `[code]` is written as the member's name, as `AttributeType[[2]]` indexes by `"2"` |
| LegacyElementAttributes.MembersWellformed | src/models/ElementAttribute.ts:30-34 | the enum names and codes are distinct |
| LegacyElementAttributes.BodyTypeNames | src/models/ElementAttribute.ts:15-21 | codes 0, 1 and 2 are written as Numeric, String and Alias |
| LegacyElementAttributes.NameReadsAsCode | src/models/ElementAttribute.ts:15-21 | a stored type name is written as its code |
| Cubes.NewCube | src/models/Cube.ts:19-24 | a cube built with dimension names holds them as an array of strings |
| TsEnums.Text | src/models/Cube.ts:35-37 | `String(v)`: a string gives itself, a plain object `[object Object]`, an integer below 10^21 its decimal numeral, and an array its items' texts joined with `,` |
| TsEnums.JoinComma | src/models/Cube.ts:35-37 | the `,` join of array texts succeeds exactly when every text is modelled |
| TsEnums.SingletonText | src/models/element-attribute.ts:11 | a one-item array has its item's text, as `[x].toString()` does |
| Cubes.Iterated | src/models/Cube.ts:35 | `for … of` visits an array's items or a string's characters, and throws TypeError on anything else |
| Cubes.Bind | src/models/Cube.ts:36 | `Dimensions('${dimension}')` of a visited value's text |
| Cubes.DimensionBinds | src/models/Cube.ts:35-37 | one binding per visited value, in order |
| Cubes.BodyObject | src/models/Cube.ts:26-44 | Name and the bindings, plus Rules exactly when the rules are truthy |
| Cubes.Body | src/models/Cube.ts:26-48 | throws TypeError exactly when the dimensions cannot be iterated; otherwise the body of all the bindings |
| Cubes.ConstructBody | src/models/Cube.ts:26-44 | the loop pushes the bindings and gives `Body` |
| Cubes.FromJson | src/models/Cube.ts:50-56 | fails with TypeError exactly on `null`/`undefined`; otherwise Name, Dimensions and Rules are stored unchecked |
| Cubes.NamedItem | src/services/cube-service.ts:30-31 | a dimension as `$expand=Dimensions($select=Name)` returns it: an object holding its Name |
| Cubes.ExpandedResponse | src/services/cube-service.ts:30-31 | a cube response with its dimensions expanded to `{Name}` objects |
| Cubes.FromJsonIntended | src/services/cube-service.ts:119-120 | as intended: each dimension item replaced by its `Name`; TypeError on `null`/`undefined`, a non-array or a `null` item |
| Cubes.BindsNameDimensions | src/models/Cube.ts:35-37 | a cube built with names binds each: binding i reads back as dimension i |
| Cubes.MissingRules | src/models/Cube.ts:39-41 | a response without Rules writes no Rules key |
| Cubes.BodyOfResponse | src/models/Cube.ts:26-56 | for every response that is not `null`/`undefined`: the body throws exactly when Dimensions is neither an array nor a string, and otherwise carries the name, the truthy rules and one binding per item |
| Cubes.GetThenUpdateBindsObjectText | src/services/cube-service.ts:30-31 | as written: a cube read with `get` and sent back by `update` binds `Dimensions('[object Object]')` for every dimension |
| Cubes.GetThenUpdateIntendedBindsNames | src/services/cube-service.ts:96-97 | as intended: the same round trip binds each dimension by its name |

## Left out

- The services (REST calls, HTTP, authentication, sessions) are not part of this model. They include src/services/hierarchy-service.ts, dimension-service.ts, chore-service.ts and cell-service.ts. The model stops at the JSON bodies and responses those services exchange.
- Decorators (src/utils/decorators.ts), Member, cell and cellset, group, server, misc and object are outside this core.
- `toLowerCase` is modelled only for A-Z. Full Unicode case mapping has no model. The whitespace class of `\s` is modelled by its code points.
- `encodeURIComponent` on lone surrogates throws a URIError, and this is not modelled: Dafny characters are scalar values.
- Numbers are `real`. IEEE doubles, NaN and `-0` are not modelled. The weights, steps and codes the model uses are integral.
- A Date given as a chore start time is kept as an opaque JSON value, and `toISOString` is not modelled. This hides a throw: a chore read by `fromJson` holds the response's `StartTime` string (src/models/chore.ts:70), a string has no `toISOString` (src/models/chore.ts:51), so `chore.body` throws TypeError for every chore read from the server. The model's body writes the stored value instead.
- Object identity and aliasing of the JSON values are not modelled: values are immutable in the model. The properties of prototypes are not modelled either.
- The constructors take already-parsed lists. The `undefined`-or-array checks are done by the `fromJson` functions.
- Users.User.constructor: absent groups are passed as [], and the type is `Option<string>` rather than any value.
- Elements.AttributesOf: a truthy value that is not an object gives `MalformedResponse` instead of copying its enumerable properties.
- Type mismatches that JavaScript would carry on with (a number where a string is expected) are reported as `TypeError` or `MalformedResponse`. The model makes no claim on which of the two a given mismatch gives.
- Views.NativeFromJson: a `Name` that is not a string fails rather than being stored unchecked.
- Processes.Process.constructor: the UI data given always replaces the default, because the source overwrites the default field with the argument even when that argument is `undefined`.
- TsEnums.Text: the text of a number is modelled only for integers below 10^21; any other number gives None. A cube body that would interpolate one fails with `MalformedResponse`. An enum lookup by one reads `undefined`, which is what JavaScript gives, as no enum key has a point or an exponent.
- The model takes every import of the core to resolve to the class it names, although several do not as written:
  - src/utils/tuple-map.ts:1 and src/models/Hierarchy.ts:7 default-import src/utils/case-and-space-insensitive-map.ts, whose only export is the named one (:56);
  - src/models/View.ts:3 and src/models/view-axis.ts:2 import a named `Subset` (view-axis.ts also `SubsetResponse`) from `./subset`, while src/models/Subset.ts only has a default export (:78);
  - src/services/cube-service.ts:2 imports a named `Cube` from `../models/cube`, while src/models/Cube.ts only has a default export (:59); the cube Finding below takes `get` and `update` to reach Cube.ts;
  - `./subset`, `./hierarchy`, `./element`, `./dimension` and `../models/cube` differ in letter case from the files Subset.ts, Hierarchy.ts, Element.ts, Dimension.ts and Cube.ts.

## Findings

| source | as written | input that shows it | evidently intended | confidence | as-written member | corrected member |
|---|---|---|---|---|---|---|
| src/utils/tuple-map.ts:20-22 | `clear` calls `this._map.clear()`, which the insensitive map lacks because it wraps a Map rather than extending one | any `tupleMap.clear()` | empty the map | high, not executed | TupleMaps.TupleMap.Clear | TupleMaps.TupleMap.ClearIntended |
| src/utils/tuple-map.ts:42-44 | `size` reads `this._map.size`, which the insensitive map does not have | any `tupleMap.size()` | the number of entries | high, not executed | TupleMaps.TupleMap.Size | TupleMaps.TupleMap.SizeIntended |
| src/models/Element.ts:21-23 | the `HierarchyElement` constructor splits `uniqueName` unconditionally, although the parameter is optional | `new HierarchyElement("e", ElementType.Numeric)` | derive the names only when a unique name is given | high, not executed | Elements.NoUniqueNameThrows | Elements.NewElementIntended |
| src/models/Hierarchy.ts:82-84 | `addElement` constructs a HierarchyElement without a unique name, so it always throws | `h.addElement("x", "Numeric")` | add a bare element | high, not executed | Hierarchies.Hierarchy.AddElement | Hierarchies.Hierarchy.AddElementIntended |
| src/models/Process.ts:136-141 | `removeParameter` splices when `index !== 1` | parameters [p0, p1], removing p1's name | splice unless `index === -1` | high, not executed | Processes.SecondParameterIsKept | Processes.RemoveParameterIntendedEffect |
| src/models/chore.ts:36-42 | `removeTask` renumbers a copy with `map` and discards it | tasks with steps [0, 1, …, n], removing any step k < n | the remaining tasks renumbered from 0 | medium, not executed | Chores.RemoveTaskLeavesGap | Chores.RemoveTaskIntendedKeepsIndices |
| src/models/chore.ts:31-34 | `addTask` uses `tasks.length - 1` as the new step | tasks with steps [0], adding one | the step equals the new index | medium, not executed | Chores.AddTaskRepeatsLastStep | Chores.AddTaskIntendedKeepsIndices |
| src/models/Cube.ts:50-56 | `fromJson` stores `Dimensions` as the response carries it: the `{Name}` objects that `$expand=Dimensions($select=Name)` returns (src/services/cube-service.ts:30-31), which `constructBody` interpolates as text | `update(get(c))` for any cube c, taking the import at src/services/cube-service.ts:2 to reach Cube.ts | store each item's `Name`, as `getDimensionNames` reads it (src/services/cube-service.ts:119-120) | high, not executed | Cubes.GetThenUpdateBindsObjectText | Cubes.GetThenUpdateIntendedBindsNames |
