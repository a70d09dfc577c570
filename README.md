# Text components, NBT list building and block positions in Dafny

A model of five pieces of a Minecraft text-component and NBT library:

- **Storage NBT components** (`StorageNbtComponentImpl`): an immutable component node that names an NBT
  path in a command storage identified by a namespaced key. It has per-field updates ("withers") that return
  the same node when nothing changes, value equality, `toBuilder`, and a builder whose `build` insists on a
  path and a storage key.
- **Block positions** (`BlockNbtComponentPosSerializer`): the two text grammars for positions.
  - A *local* position is three `^`-prefixed decimals (`^1.5 ^0 ^2`).
  - A *world* position is three integer coordinates, each optionally `~`-prefixed (relative) (`~1 2 ~3`).
  - The model covers parsing, writing back, and the coordinate helpers.
- **Rendering** (`AbstractComponentRenderer.render`): dispatch of a component to one of eight kind-specific
  handlers. Components of any other kind pass through unchanged.
- **Keys** (`Key.of`): the three factories. One takes a namespace and value. One splits a string at the first
  separator character, defaulting the namespace to `minecraft`. One uses `:` as that separator.
- **List tag builder** (`ListTagBuilder`): a mutable builder of an NBT list.
  - It refuses End tags.
  - It fixes the element type from the first tag added.
  - `build` returns a snapshot of the tags added so far.

Module layout:

- `Wrappers`, `Ints` and `Strings` hold the Java library behaviour the model relies on: `indexOf`, the
  ASCII `\d` class, decimal text of `int`, and the Java integer widths.
- `Keys`, `Nbt`/`ListTags`, `Components`, `StorageNbt`, `Renderer` and `Positions` follow the
  original classes.
- `PositionsSigned` is the corrected position grammar that goes with the findings below.

The mutable builders are Dafny classes; their methods promise their whole new state. The immutable nodes,
the grammars and the renderer are datatypes and functions. Regular-expression matching is stated as
predicates over the space-separated tokens. The model lemmas show these predicates agree with the patterns'
structure: three tokens, each of the given shape.

Three behaviours of the code are easy to miss, and the model keeps them:

- The local pattern at line 39 of the position serializer has no minus sign, although `serializeLocal`
  writes one for a negative offset (see the findings).
- `ListTagBuilder.add` refuses only End tags. It never checks later tags against the first tag's type, so
  `ListTags.BuildIsSnapshot` accepts a mixed second tag.
- `deserialize` fails in two ways: a parse error when neither pattern matches, and a number-format error
  from `Integer.parseInt` when a matched world coordinate's value is above 2147483647. Leading zeros do not
  matter (`~007` is relative 7).

## Model

| member | source | states |
|---|---|---|
| Keys.OfParts | api/src/main/java/net/kyori/minecraft/Key.java:74-76 | the key carries exactly the given namespace and value |
| Keys.Of | api/src/main/java/net/kyori/minecraft/Key.java:58-63 | no separator: namespace `minecraft` and the whole string; a leading separator: `minecraft` and the rest; otherwise everything before the FIRST separator and everything after it |
| Keys.OfString | api/src/main/java/net/kyori/minecraft/Key.java:45-47 | the one-argument form is the two-argument form with `:` |
| Keys.OfReassembles | api/src/main/java/net/kyori/minecraft/Key.java:58-63 | for a string holding the separator but not starting with it, namespace + separator + value is the string again, and the namespace holds no separator |
| Keys.OfJoined | api/src/main/java/net/kyori/minecraft/Key.java:58-63 | a non-empty, separator-free namespace and any value (even one with more separators) are recovered from their joined text |
| Keys.DefaultNamespaceSpellings | api/src/main/java/net/kyori/minecraft/Key.java:35-63 | `v`, `:v` and `minecraft:v` give the same key in the `minecraft` namespace |
| Strings.IndexOf | api/src/main/java/net/kyori/minecraft/Key.java:59 | `-1` exactly when the character is absent; otherwise the index of its first occurrence |
| Strings.IntToString | text-serializer-gson/src/main/java/net/kyori/adventure/text/serializer/gson/BlockNbtComponentPosSerializer.java:100 | decimal text of an `int`: digits only for non-negative values, a leading `-` for negative ones |
| Nbt.BinaryTag.Type | api/src/main/java/net/kyori/adventure/nbt/ListTagBuilder.java:45 | a tag's type is End exactly for the End tag and List exactly for list tags |
| ListTags.ListTagBuilder.constructor | api/src/main/java/net/kyori/adventure/nbt/ListTagBuilder.java:34-36 | a new builder is empty and untyped (End) |
| ListTags.ListTagBuilder.OfType | api/src/main/java/net/kyori/adventure/nbt/ListTagBuilder.java:38-40 | a builder seeded with a type is empty and has that type |
| ListTags.ListTagBuilder.Add | api/src/main/java/net/kyori/adventure/nbt/ListTagBuilder.java:42-54 | an End tag is refused with the fixed message and leaves the builder unchanged; any other tag is appended, the builder itself is returned, and the type is set from the tag only while the builder is untyped; the builder never holds an End tag and an untyped builder is empty |
| ListTags.ListTagBuilder.Build | api/src/main/java/net/kyori/adventure/nbt/ListTagBuilder.java:56-59 | a list of the builder's type and exactly its tags, with no End element, typed whenever non-empty |
| ListTags.BuildIsSnapshot | api/src/main/java/net/kyori/adventure/nbt/ListTagBuilder.java:42-59 | a list built after one add keeps its one element after a second add; the second add of any non-End tag, even of another type, is accepted and the type stays that of the first tag |
| ListTags.EndTagRefused | api/src/main/java/net/kyori/adventure/nbt/ListTagBuilder.java:44-47 | adding an End tag to a fresh builder fails and the builder still builds the empty untyped list |
| Positions.WorldGroups | text-serializer-gson/src/main/java/net/kyori/adventure/text/serializer/gson/BlockNbtComponentPosSerializer.java:40 | a world token splits into a prefix `~` or empty and a digit group that reassemble into the token |
| Positions.LocalNumberValue | text-serializer-gson/src/main/java/net/kyori/adventure/text/serializer/gson/BlockNbtComponentPosSerializer.java:53-55 | the exact decimal value that `Double.parseDouble` approximates; never negative, and `WholeLocalNumber` and `FractionalLocalNumber` give its value for `p` and `p.q` |
| Positions.MatchesLocal | text-serializer-gson/src/main/java/net/kyori/adventure/text/serializer/gson/BlockNbtComponentPosSerializer.java:39 | the whole string matches LOCAL_PATTERN: it splits at spaces into exactly three local tokens |
| Positions.IsLocalToken | text-serializer-gson/src/main/java/net/kyori/adventure/text/serializer/gson/BlockNbtComponentPosSerializer.java:39 | one group of the local pattern: `^` followed by a local number |
| Positions.IsLocalNumber | text-serializer-gson/src/main/java/net/kyori/adventure/text/serializer/gson/BlockNbtComponentPosSerializer.java:39 | the number group of the local pattern, `\d+(\.\d+)?`: digits, optionally a point followed by more digits |
| Positions.MatchesWorld | text-serializer-gson/src/main/java/net/kyori/adventure/text/serializer/gson/BlockNbtComponentPosSerializer.java:40 | the whole string matches WORLD_PATTERN: it splits at spaces into exactly three world tokens |
| Positions.IsWorldToken | text-serializer-gson/src/main/java/net/kyori/adventure/text/serializer/gson/BlockNbtComponentPosSerializer.java:40 | one group of the world pattern, `(~?)(\d+)`: ASCII digits, optionally after one `~` |
| Positions.ParseInt | text-serializer-gson/src/main/java/net/kyori/adventure/text/serializer/gson/BlockNbtComponentPosSerializer.java:85 | succeeds exactly when the digits denote at most 2147483647, with that value; otherwise a number-format error naming the digits |
| Positions.DeserializeCoordinate | text-serializer-gson/src/main/java/net/kyori/adventure/text/serializer/gson/BlockNbtComponentPosSerializer.java:84-93 | success exactly when the value fits; its value is the digits' value; relative exactly when the prefix is `~` |
| Positions.DeserializeWorldToken | text-serializer-gson/src/main/java/net/kyori/adventure/text/serializer/gson/BlockNbtComponentPosSerializer.java:62-64 | one matched token converted: success exactly when its digits' value is at most 2147483647; the coordinate has that value and is relative exactly when the token starts with `~`; otherwise a number-format error naming the digits |
| Positions.DeserializeWorld | text-serializer-gson/src/main/java/net/kyori/adventure/text/serializer/gson/BlockNbtComponentPosSerializer.java:59-65 | success exactly when all three tokens' values fit in an `int`, with each coordinate the one its token spells; otherwise a number-format error naming the digits of the leftmost token that does not fit |
| Positions.TokenKindsDisjoint | text-serializer-gson/src/main/java/net/kyori/adventure/text/serializer/gson/BlockNbtComponentPosSerializer.java:39-40 | no token is both a local and a world token |
| Positions.GrammarsExclusive | text-serializer-gson/src/main/java/net/kyori/adventure/text/serializer/gson/BlockNbtComponentPosSerializer.java:39-40 | no string matches both patterns, so the order of the two tests does not matter |
| Positions.Deserialize | text-serializer-gson/src/main/java/net/kyori/adventure/text/serializer/gson/BlockNbtComponentPosSerializer.java:47-69 | a local position exactly when the local pattern matches; a world position or number-format error only when the world pattern matches; a parse error naming the input exactly when neither matches |
| Positions.SerializeCoordinate | text-serializer-gson/src/main/java/net/kyori/adventure/text/serializer/gson/BlockNbtComponentPosSerializer.java:99-101 | `~` followed by the value's decimal text for a relative coordinate, the bare text for an absolute one |
| Positions.SerializeLocal | text-serializer-gson/src/main/java/net/kyori/adventure/text/serializer/gson/BlockNbtComponentPosSerializer.java:95-97 | `^` followed by the caller's double-to-text rule applied to the offset |
| Positions.Serialize | text-serializer-gson/src/main/java/net/kyori/adventure/text/serializer/gson/BlockNbtComponentPosSerializer.java:71-82 | the three serialized parts joined by single spaces, for both kinds of position |
| Positions.SplitThree | text-serializer-gson/src/main/java/net/kyori/adventure/text/serializer/gson/BlockNbtComponentPosSerializer.java:39-40 | three space-free tokens joined by spaces split back into exactly those tokens |
| Positions.LocalPatternSound | text-serializer-gson/src/main/java/net/kyori/adventure/text/serializer/gson/BlockNbtComponentPosSerializer.java:39-56 | a string matching the local pattern is three local tokens joined by spaces |
| Positions.LocalPatternComplete | text-serializer-gson/src/main/java/net/kyori/adventure/text/serializer/gson/BlockNbtComponentPosSerializer.java:39-56 | any three local tokens joined by spaces match and parse to the local position of their values |
| Positions.WorldPatternSound | text-serializer-gson/src/main/java/net/kyori/adventure/text/serializer/gson/BlockNbtComponentPosSerializer.java:59-66 | a string matching the world pattern is three world tokens joined by spaces |
| Positions.WorldPatternComplete | text-serializer-gson/src/main/java/net/kyori/adventure/text/serializer/gson/BlockNbtComponentPosSerializer.java:59-66 | any three world tokens joined by spaces match, and parse as their coordinates do |
| Positions.CoordinateRoundTrip | text-serializer-gson/src/main/java/net/kyori/adventure/text/serializer/gson/BlockNbtComponentPosSerializer.java:84-101 | a non-negative coordinate serializes to a world token that parses back to it |
| Positions.WorldRoundTrip | text-serializer-gson/src/main/java/net/kyori/adventure/text/serializer/gson/BlockNbtComponentPosSerializer.java:47-101 | a world position with non-negative values parses back from its text |
| Positions.NegativeTokenRejected | text-serializer-gson/src/main/java/net/kyori/adventure/text/serializer/gson/BlockNbtComponentPosSerializer.java:99-101 | a negative coordinate's text is neither a world nor a local token |
| Positions.CoordinateTokenHasNoSpace | text-serializer-gson/src/main/java/net/kyori/adventure/text/serializer/gson/BlockNbtComponentPosSerializer.java:99-101 | a coordinate's text holds no space |
| Positions.NegativeWorldPosRejected | text-serializer-gson/src/main/java/net/kyori/adventure/text/serializer/gson/BlockNbtComponentPosSerializer.java:40-101 | a world position with any negative value serializes to text the parser rejects with a parse error |
| Positions.LocalRoundTrip | text-serializer-gson/src/main/java/net/kyori/adventure/text/serializer/gson/BlockNbtComponentPosSerializer.java:50-97 | a local position parses back from its text whenever each offset is written as a plain decimal denoting it |
| Positions.WorldExample | text-serializer-gson/src/main/java/net/kyori/adventure/text/serializer/gson/BlockNbtComponentPosSerializer.java:59-78 | `~1 2 ~3` parses to relative 1, absolute 2, relative 3, and that position serializes to `~1 2 ~3` |
| Positions.TwoTokensRejected | text-serializer-gson/src/main/java/net/kyori/adventure/text/serializer/gson/BlockNbtComponentPosSerializer.java:47-69 | `1 2` is rejected with a parse error |
| Positions.SignedTokenRejected | text-serializer-gson/src/main/java/net/kyori/adventure/text/serializer/gson/BlockNbtComponentPosSerializer.java:39-40 | a token starting `^-` belongs to neither grammar |
| Positions.SignedLocalStringRejected | text-serializer-gson/src/main/java/net/kyori/adventure/text/serializer/gson/BlockNbtComponentPosSerializer.java:47-69 | three tokens whose first is local-prefixed and whose last starts `^-` are rejected with a parse error |
| Positions.SignedLocalRejected | text-serializer-gson/src/main/java/net/kyori/adventure/text/serializer/gson/BlockNbtComponentPosSerializer.java:47-69 | `^1.5 ^0 ^-2.25` is rejected with a parse error |
| Positions.WholeLocalNumber | text-serializer-gson/src/main/java/net/kyori/adventure/text/serializer/gson/BlockNbtComponentPosSerializer.java:52-56 | a digit group is a local number whose value is its integer value |
| Positions.FractionalLocalNumber | text-serializer-gson/src/main/java/net/kyori/adventure/text/serializer/gson/BlockNbtComponentPosSerializer.java:52-56 | `p.q` is a local number whose value is `p` plus the fraction `q` |
| Positions.FirstCoordinateOverflows | text-serializer-gson/src/main/java/net/kyori/adventure/text/serializer/gson/BlockNbtComponentPosSerializer.java:84-85 | a well-formed world string whose first coordinate exceeds 2147483647 fails with a number-format error for those digits |
| Positions.SecondCoordinateOverflows | text-serializer-gson/src/main/java/net/kyori/adventure/text/serializer/gson/BlockNbtComponentPosSerializer.java:59-65 | when the first coordinate fits and the second does not, the error names the second coordinate's digits |
| Positions.OverflowExample | text-serializer-gson/src/main/java/net/kyori/adventure/text/serializer/gson/BlockNbtComponentPosSerializer.java:84-85 | `2147483648 0 0` fails with a number-format error for `2147483648` |
| Positions.LeadingZerosExample | text-serializer-gson/src/main/java/net/kyori/adventure/text/serializer/gson/BlockNbtComponentPosSerializer.java:84-89 | `~007 0 1` parses to relative 7, absolute 0, absolute 1: leading zeros do not matter |
| Positions.ForeignCharRejected | text-serializer-gson/src/main/java/net/kyori/adventure/text/serializer/gson/BlockNbtComponentPosSerializer.java:39 | a token holding a character that is neither a digit nor `.` is not a local number |
| Positions.JavaSpecialFormsRejected | text-serializer-gson/src/main/java/net/kyori/adventure/text/serializer/gson/BlockNbtComponentPosSerializer.java:39 | `1.0E7`, `1.0E-4`, `NaN` and `Infinity`, as `Double.toString` writes them, are not local numbers |
| Positions.NonPlainOffsetRejected | text-serializer-gson/src/main/java/net/kyori/adventure/text/serializer/gson/BlockNbtComponentPosSerializer.java:95-97 | a local position is rejected with a parse error whenever some offset's text (free of spaces) is not a plain decimal |
| Positions.PlainWholeFaithful | text-serializer-gson/src/main/java/net/kyori/adventure/text/serializer/gson/BlockNbtComponentPosSerializer.java:95-97 | the plain-decimal writer `PlainWhole` writes every whole non-negative offset as a local number denoting it |
| Positions.PlainWholeRoundTrip | text-serializer-gson/src/main/java/net/kyori/adventure/text/serializer/gson/BlockNbtComponentPosSerializer.java:47-97 | with that writer, local positions with whole non-negative offsets, 10^7 included, parse back from their text |
| PositionsSigned.ParseSignedInt | text-serializer-gson/src/main/java/net/kyori/adventure/text/serializer/gson/BlockNbtComponentPosSerializer.java:85 | an optionally signed digit group parses exactly when its value lies in the 32-bit range, to that value |
| PositionsSigned.SignedWorldDigits | text-serializer-gson/src/main/java/net/kyori/adventure/text/serializer/gson/BlockNbtComponentPosSerializer.java:40 | the number group of a signed world token: the token without its `~`, an optionally signed digit group |
| PositionsSigned.DeserializeSignedWorldToken | text-serializer-gson/src/main/java/net/kyori/adventure/text/serializer/gson/BlockNbtComponentPosSerializer.java:84-93 | success exactly when the token's number lies in the `int` range; the coordinate has that value and is relative exactly when the token starts with `~`; otherwise a number-format error naming the number |
| PositionsSigned.DeserializeSignedWorld | text-serializer-gson/src/main/java/net/kyori/adventure/text/serializer/gson/BlockNbtComponentPosSerializer.java:59-65 | success exactly when all three numbers fit in an `int`, with each coordinate the one its token spells; otherwise a number-format error naming the leftmost number that does not fit |
| PositionsSigned.DeserializeSigned | text-serializer-gson/src/main/java/net/kyori/adventure/text/serializer/gson/BlockNbtComponentPosSerializer.java:47-69 | the corrected parser: a local position exactly when the signed local grammar matches; a parse error naming the input exactly when neither signed grammar matches |
| PositionsSigned.LocalTokenStillAccepted | text-serializer-gson/src/main/java/net/kyori/adventure/text/serializer/gson/BlockNbtComponentPosSerializer.java:39 | every token of the original local grammar is accepted with the same value |
| PositionsSigned.WorldTokenStillAccepted | text-serializer-gson/src/main/java/net/kyori/adventure/text/serializer/gson/BlockNbtComponentPosSerializer.java:40 | every token of the original world grammar is accepted and parsed the same way |
| PositionsSigned.SignedExtendsOriginal | text-serializer-gson/src/main/java/net/kyori/adventure/text/serializer/gson/BlockNbtComponentPosSerializer.java:47-69 | wherever the original parser succeeds, the corrected one gives the same position |
| PositionsSigned.TokenKindsDisjointSigned | text-serializer-gson/src/main/java/net/kyori/adventure/text/serializer/gson/BlockNbtComponentPosSerializer.java:39-40 | no token is both a signed local and a signed world token |
| PositionsSigned.SignedGrammarsExclusive | text-serializer-gson/src/main/java/net/kyori/adventure/text/serializer/gson/BlockNbtComponentPosSerializer.java:39-40 | no string matches both corrected grammars |
| PositionsSigned.IntTextRoundTrip | text-serializer-gson/src/main/java/net/kyori/adventure/text/serializer/gson/BlockNbtComponentPosSerializer.java:100 | the decimal text of every `int` is an optionally signed digit group denoting it, with no space and no `~` |
| PositionsSigned.SignedCoordinateRoundTrip | text-serializer-gson/src/main/java/net/kyori/adventure/text/serializer/gson/BlockNbtComponentPosSerializer.java:84-101 | every coordinate's text is a signed world token that parses back to it |
| PositionsSigned.SignedWorldComplete | text-serializer-gson/src/main/java/net/kyori/adventure/text/serializer/gson/BlockNbtComponentPosSerializer.java:59-66 | three space-free signed world tokens joined by spaces parse as their coordinates do |
| PositionsSigned.SignedWorldRoundTrip | text-serializer-gson/src/main/java/net/kyori/adventure/text/serializer/gson/BlockNbtComponentPosSerializer.java:47-101 | every world position parses back from its text under the corrected grammar |
| PositionsSigned.SignedLocalNumberHasNoSpace | text-serializer-gson/src/main/java/net/kyori/adventure/text/serializer/gson/BlockNbtComponentPosSerializer.java:39 | a signed local number holds no space |
| PositionsSigned.SignedLocalComplete | text-serializer-gson/src/main/java/net/kyori/adventure/text/serializer/gson/BlockNbtComponentPosSerializer.java:50-56 | three space-free signed local tokens joined by spaces parse to the local position of their values |
| PositionsSigned.SignedLocalRoundTrip | text-serializer-gson/src/main/java/net/kyori/adventure/text/serializer/gson/BlockNbtComponentPosSerializer.java:47-97 | a local position, negative offsets included, parses back under the corrected grammar whenever each offset is written as a signed plain decimal denoting it |
| PositionsSigned.NegativeWorldExample | text-serializer-gson/src/main/java/net/kyori/adventure/text/serializer/gson/BlockNbtComponentPosSerializer.java:40-101 | absolute -5, absolute 64, relative -3 serializes to `-5 64 ~-3`, which the original parser rejects and the corrected one reads back |
| Renderer.KindOf | api/src/main/java/net/kyori/text/renderer/AbstractComponentRenderer.java:46-64 | each of the eight kinds is recognised exactly for its own variant, and the fall-through kind exactly for components of none of them |
| Renderer.Render | api/src/main/java/net/kyori/text/renderer/AbstractComponentRenderer.java:45-67 | each of the eight kinds goes to its own handler with the component and context; anything else (including an NBT component of an unknown NBT kind) is returned unchanged |
| Renderer.RenderUsesOnlyItsHandler | api/src/main/java/net/kyori/text/renderer/AbstractComponentRenderer.java:45-67 | replacing the handler for the component's kind gives the replacement's result, and replacing any other handler changes nothing |
| Renderer.IdentityRendererPreserves | api/src/main/java/net/kyori/text/renderer/AbstractComponentRenderer.java:45-67 | with handlers that return their argument, rendering is the identity on every component |
| StorageNbt.WithNbtPath | api/src/main/java/net/kyori/text/StorageNbtComponentImpl.java:43-47 | the same node when the path is equal; otherwise a node with the new path and every other field kept |
| StorageNbt.WithInterpret | api/src/main/java/net/kyori/text/StorageNbtComponentImpl.java:49-53 | the same node when the flag is equal; otherwise a node with the new flag and every other field kept |
| StorageNbt.WithStorage | api/src/main/java/net/kyori/text/StorageNbtComponentImpl.java:60-64 | the same node when the key is equal; otherwise a node with the new key and every other field kept |
| StorageNbt.WithChildren | api/src/main/java/net/kyori/text/StorageNbtComponentImpl.java:66-69 | a node with the given children and every other field kept (no short-circuit) |
| StorageNbt.WithStyle | api/src/main/java/net/kyori/text/StorageNbtComponentImpl.java:71-75 | the same node when the style is equal; otherwise a node with the new style and every other field kept |
| StorageNbt.Equals | api/src/main/java/net/kyori/text/StorageNbtComponentImpl.java:77-84 | true exactly when the other component is a storage-NBT component with equal children, style, path, flag and key |
| StorageNbt.EqualsSymmetric | api/src/main/java/net/kyori/text/StorageNbtComponentImpl.java:77-84 | a consequence of `equals` comparing fields: it is symmetric between storage-NBT components |
| StorageNbt.ShortCircuitUnobservable | api/src/main/java/net/kyori/text/StorageNbtComponentImpl.java:43-75 | each short-circuiting wither gives a node equal to the plain one-field update |
| StorageNbt.WitherEqualsOriginal | api/src/main/java/net/kyori/text/StorageNbtComponentImpl.java:43-84 | a path, key or children update yields a node equal to the original exactly when the new value equals the old |
| StorageNbt.WithersCompose | api/src/main/java/net/kyori/text/StorageNbtComponentImpl.java:43-64 | a consequence of the withers' contracts: the last path update wins, and path and key updates commute |
| StorageNbt.StorageNbtComponentBuilder.constructor | api/src/main/java/net/kyori/text/StorageNbtComponentImpl.java:107-108 | a new builder has no path, no key, no children, the empty style and the flag off |
| StorageNbt.StorageNbtComponentBuilder.FromComponent | api/src/main/java/net/kyori/text/StorageNbtComponentImpl.java:99-113 | `toBuilder`: the builder holds every field of the node |
| StorageNbt.StorageNbtComponentBuilder.Storage | api/src/main/java/net/kyori/text/StorageNbtComponentImpl.java:115-119 | sets the key, keeps the other fields and returns the same builder |
| StorageNbt.StorageNbtComponentBuilder.NbtPath | api/src/main/java/net/kyori/text/StorageNbtComponentImpl.java:104 | the inherited path setter: sets the path, keeps the other fields and returns the same builder |
| StorageNbt.StorageNbtComponentBuilder.Interpret | api/src/main/java/net/kyori/text/StorageNbtComponentImpl.java:104 | the inherited flag setter: sets the flag, keeps the other fields and returns the same builder |
| StorageNbt.StorageNbtComponentBuilder.Build | api/src/main/java/net/kyori/text/StorageNbtComponentImpl.java:121-126 | an unset path fails with `nbt path must be set` (checked first); then an unset key fails with `storage must be set`; success exactly when both are set, with a node of exactly the builder's fields |
| StorageNbt.ToBuilderRoundTrip | api/src/main/java/net/kyori/text/StorageNbtComponentImpl.java:99-126 | building an untouched `toBuilder()` gives back the node |
| StorageNbt.BuildWithPathAndStorage | api/src/main/java/net/kyori/text/StorageNbtComponentImpl.java:115-126 | a fresh builder given a path and a key builds a node reporting exactly those, with default other fields |
| StorageNbt.BuildWithoutStorage | api/src/main/java/net/kyori/text/StorageNbtComponentImpl.java:121-126 | a builder given only a path fails with `storage must be set` |
| StorageNbt.BuildWithoutNbtPath | api/src/main/java/net/kyori/text/StorageNbtComponentImpl.java:121-126 | a builder given only a key fails with `nbt path must be set` |

## Left out

- Positions.LocalRoundTrip: takes the double-to-text rule as a parameter and assumes it writes a plain decimal
  denoting the value exactly. Java's `Double.toString` does not always do that: it writes exponent forms such
  as `1.0E7` and the words `NaN` and `Infinity` (see the findings). Binary rounding of `Double.parseDouble` is
  not modelled either: local offsets are exact decimals (`real`).
- PositionsSigned.SignedLocalRoundTrip: has the same formatter assumption as `Positions.LocalRoundTrip`.
- The JSON plumbing of the position serializer is not modelled: `JsonElement.getAsString`, `JsonPrimitive`
  and the Gson type and context parameters.
- The "don't know how to serialize" branch of `serialize` (line 80) is not modelled. It cannot be reached
  because `Pos` is a closed datatype of the two position kinds.
- The `AssertionError` branch of `deserializeCoordinate` (line 91) is not modelled. The pattern admits only
  `~` or an empty prefix, and `DeserializeCoordinate` requires exactly that.
- `KeyImpl` is not part of this model. Its namespace and value validation, `asString`, `compareTo` and
  `Key.ParseException` are not modelled; a key is a pair of strings compared by value.
- `StorageNbtComponentImpl.hashCode`, `populateToString` and the `storage()` getter are not modelled. The
  getter is field access on the datatype.
- StorageNbt.Equals: compares by value. It does not model the reference-identity shortcut `this == other`,
  which coincides with value equality for immutable nodes. The superclass `equals` is taken as equality of
  children, style, path and flag.
- StorageNbt.Equals: does not model the `ClassCastException` of the cast at line 82. Another class
  implementing `StorageNbtComponent`, with equal inherited fields, would make `equals` throw; the closed
  `Component` datatype has no such class.
- Keys.Of: works on Unicode scalar values (Dafny `char`). Java's `indexOf(char)` and `substring` count UTF-16
  code units (Key.java lines 59-61), so a separator that is half of a surrogate pair cannot be expressed.
  Positions are in characters, not code units, which differs on supplementary characters; the split pieces
  are the same.
- The withers return the *same* node when nothing changes; the model states this as value equality, since
  the model has no object identity for immutable nodes.
- `NbtComponentImpl` and its builder are not part of this model. Only the path and flag setters that
  `build` depends on are given, as plain field updates. The children and style setters and the separate
  style builder (`buildStyle`) are not modelled; the builder's style is used as is.
- `Style` internals are not modelled. A style is an opaque value compared for equality.
- The other component kinds' own operations (their withers, builders and equality) are not modelled. They
  appear only as records for the renderer.
- The eight abstract handlers of `AbstractComponentRenderer` are not modelled as methods. A concrete renderer
  is given as a record of eight total functions, so the handlers cannot have side effects.
- `BinaryTagTypes` ids, the binary codec, compound-tag operations and tag equality beyond value equality
  are not part of this model. `ListTagBuilder` needs only a tag's type.
- The generic parameter `T` of `ListTagBuilder` is not modelled, because it has no run-time effect.
- `BigTest` (reading `bigtest.nbt` from disk) is not modelled, because it is file I/O.
- The `@NonNull` annotations are not modelled. Dafny values are never null, so null arguments cannot arise.

## Findings

| source | as written | input that shows it | evidently intended | confidence | as-written member | corrected member |
|---|---|---|---|---|---|---|
| text-serializer-gson/src/main/java/net/kyori/adventure/text/serializer/gson/BlockNbtComponentPosSerializer.java:40 | the world pattern `(~?)(\d+)` has no sign, while `serializeCoordinate` (lines 99-101) writes a negative `int` with a leading `-` | WorldPos(absolute -5, absolute 64, relative -3) serializes to `-5 64 ~-3`, which `deserialize` rejects | every world position, negative coordinates included, reads back from the text the serializer writes | high; not executed | Positions.NegativeWorldPosRejected | PositionsSigned.SignedWorldRoundTrip |
| text-serializer-gson/src/main/java/net/kyori/adventure/text/serializer/gson/BlockNbtComponentPosSerializer.java:39 | the local pattern `\^(\d+(\.\d+)?)` has no sign, while `serializeLocal` (lines 95-97) writes a negative double with a leading `-` | LocalPos(1.5, 0, -2.25) serializes to `^1.5 ^0.0 ^-2.25`; `^1.5 ^0 ^-2.25` is rejected | local positions with negative offsets read back, with an optional `-` before each number | high; not executed | Positions.SignedLocalRejected | PositionsSigned.SignedLocalRoundTrip |
| text-serializer-gson/src/main/java/net/kyori/adventure/text/serializer/gson/BlockNbtComponentPosSerializer.java:96 | `serializeLocal` writes the offset with `Double.toString`, which uses an exponent form for magnitudes of at least 10^7 or below 10^-3, and writes `NaN` and `Infinity`; the local pattern at line 39 accepts none of these | LocalPos(10000000, 0, 0) serializes to `^1.0E7 ^0.0 ^0.0`, which `deserialize` rejects | every local position the serializer writes reads back, for instance by writing offsets as plain decimals | medium; not executed | Positions.NonPlainOffsetRejected | Positions.PlainWholeRoundTrip |
