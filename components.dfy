/**
 * The text-component algebra: eight component kinds, each an immutable
 * record with its children and style, plus the variant-specific fields.
 * Two extra variants stand for implementations outside the eight kinds
 * (one of them an NBT component of no known NBT kind); the renderer passes
 * those through unchanged.
 */
module Components {
  import opened Wrappers
  import opened Keys
  import opened Positions

  /** Stand-in for the formatting attributes; the model only compares styles for equality. */
  datatype Style = Style(attributes: map<string, string>)

  const EmptyStyle: Style := Style(map[])

  datatype TextComponent = TextComponent(children: seq<Component>, style: Style, content: string)

  datatype TranslatableComponent =
    TranslatableComponent(children: seq<Component>, style: Style, key: string, args: seq<Component>)

  datatype KeybindComponent = KeybindComponent(children: seq<Component>, style: Style, keybind: string)

  datatype ScoreComponent =
    ScoreComponent(children: seq<Component>, style: Style, name: string, objective: string, value: Option<string>)

  datatype SelectorComponent = SelectorComponent(children: seq<Component>, style: Style, pattern: string)

  datatype BlockNbtComponent =
    BlockNbtComponent(children: seq<Component>, style: Style, nbtPath: string, interpret: bool, pos: Pos)

  datatype EntityNbtComponent =
    EntityNbtComponent(children: seq<Component>, style: Style, nbtPath: string, interpret: bool, selector: string)

  datatype StorageNbtComponent =
    StorageNbtComponent(children: seq<Component>, style: Style, nbtPath: string, interpret: bool, storage: Key)

  /** An NBT component of none of the three known NBT kinds. */
  datatype CustomNbtComponent = CustomNbtComponent(children: seq<Component>, style: Style, nbtPath: string, interpret: bool)

  /** A component of none of the eight known kinds. */
  datatype CustomComponent = CustomComponent(children: seq<Component>, style: Style)

  datatype Component =
    | Text(text: TextComponent)
    | Translatable(translatable: TranslatableComponent)
    | Keybind(keybind: KeybindComponent)
    | Score(score: ScoreComponent)
    | Selector(selector: SelectorComponent)
    | BlockNbt(blockNbt: BlockNbtComponent)
    | EntityNbt(entityNbt: EntityNbtComponent)
    | StorageNbt(storageNbt: StorageNbtComponent)
    | CustomNbt(customNbt: CustomNbtComponent)
    | Custom(custom: CustomComponent)
  {
    /** The `NbtComponent` kinds. */
    predicate IsNbt() {
      BlockNbt? || EntityNbt? || StorageNbt? || CustomNbt?
    }
  }
}
