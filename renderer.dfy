/**
 * `AbstractComponentRenderer.render`: dispatch on the component's kind to
 * one of eight handlers. A concrete renderer is the record of its eight
 * handler functions; a component of no known kind is returned unchanged.
 */
module Renderer {
  import opened Components

  /** The kind `render` tests for, in the order it tests them. */
  datatype Kind = TextKind | TranslatableKind | KeybindKind | ScoreKind | SelectorKind
                | BlockNbtKind | EntityNbtKind | StorageNbtKind | OtherKind

  function KindOf(c: Component): (k: Kind)
    ensures k == TextKind <==> c.Text?
    ensures k == TranslatableKind <==> c.Translatable?
    ensures k == KeybindKind <==> c.Keybind?
    ensures k == ScoreKind <==> c.Score?
    ensures k == SelectorKind <==> c.Selector?
    ensures k == BlockNbtKind <==> c.BlockNbt?
    ensures k == EntityNbtKind <==> c.EntityNbt?
    ensures k == StorageNbtKind <==> c.StorageNbt?
    ensures k == OtherKind <==> c.CustomNbt? || c.Custom?
  {
    match c
    case Text(_) => TextKind
    case Translatable(_) => TranslatableKind
    case Keybind(_) => KeybindKind
    case Score(_) => ScoreKind
    case Selector(_) => SelectorKind
    case BlockNbt(_) => BlockNbtKind
    case EntityNbt(_) => EntityNbtKind
    case StorageNbt(_) => StorageNbtKind
    case CustomNbt(_) => OtherKind
    case Custom(_) => OtherKind
  }

  /** The eight handlers a concrete renderer supplies, over a context of type `C`. */
  datatype ComponentRenderer<!C> = ComponentRenderer(
    renderText: (TextComponent, C) -> Component,
    renderTranslatable: (TranslatableComponent, C) -> Component,
    renderKeybind: (KeybindComponent, C) -> Component,
    renderScore: (ScoreComponent, C) -> Component,
    renderSelector: (SelectorComponent, C) -> Component,
    renderBlockNbt: (BlockNbtComponent, C) -> Component,
    renderEntityNbt: (EntityNbtComponent, C) -> Component,
    renderStorageNbt: (StorageNbtComponent, C) -> Component)

  /** `render(component, context)`. */
  function Render<C>(r: ComponentRenderer<C>, c: Component, ctx: C): (out: Component)
    ensures c.Text? ==> out == r.renderText(c.text, ctx)
    ensures c.Translatable? ==> out == r.renderTranslatable(c.translatable, ctx)
    ensures c.Keybind? ==> out == r.renderKeybind(c.keybind, ctx)
    ensures c.Score? ==> out == r.renderScore(c.score, ctx)
    ensures c.Selector? ==> out == r.renderSelector(c.selector, ctx)
    ensures c.BlockNbt? ==> out == r.renderBlockNbt(c.blockNbt, ctx)
    ensures c.EntityNbt? ==> out == r.renderEntityNbt(c.entityNbt, ctx)
    ensures c.StorageNbt? ==> out == r.renderStorageNbt(c.storageNbt, ctx)
    ensures KindOf(c) == OtherKind ==> out == c
  {
    if c.Text? then r.renderText(c.text, ctx)
    else if c.Translatable? then r.renderTranslatable(c.translatable, ctx)
    else if c.Keybind? then r.renderKeybind(c.keybind, ctx)
    else if c.Score? then r.renderScore(c.score, ctx)
    else if c.Selector? then r.renderSelector(c.selector, ctx)
    else if c.IsNbt() then
      (if c.BlockNbt? then r.renderBlockNbt(c.blockNbt, ctx)
       else if c.EntityNbt? then r.renderEntityNbt(c.entityNbt, ctx)
       else if c.StorageNbt? then r.renderStorageNbt(c.storageNbt, ctx)
       else c)
    else c
  }

  /** `r` with its handler for kind `k` taken from `s` (no change for `OtherKind`). */
  function WithHandlerOf<C>(r: ComponentRenderer<C>, k: Kind, s: ComponentRenderer<C>): ComponentRenderer<C> {
    match k
    case TextKind => r.(renderText := s.renderText)
    case TranslatableKind => r.(renderTranslatable := s.renderTranslatable)
    case KeybindKind => r.(renderKeybind := s.renderKeybind)
    case ScoreKind => r.(renderScore := s.renderScore)
    case SelectorKind => r.(renderSelector := s.renderSelector)
    case BlockNbtKind => r.(renderBlockNbt := s.renderBlockNbt)
    case EntityNbtKind => r.(renderEntityNbt := s.renderEntityNbt)
    case StorageNbtKind => r.(renderStorageNbt := s.renderStorageNbt)
    case OtherKind => r
  }

  /**
   * `render` consults exactly one handler, the one for the component's kind:
   * swapping in another renderer's handler for that kind gives that
   * renderer's result, and swapping any other kind's handler changes nothing.
   */
  lemma RenderUsesOnlyItsHandler<C>(r: ComponentRenderer<C>, s: ComponentRenderer<C>, k: Kind, c: Component, ctx: C)
    ensures KindOf(c) == k ==> Render(WithHandlerOf(r, k, s), c, ctx) == Render(s, c, ctx)
    ensures KindOf(c) != k ==> Render(WithHandlerOf(r, k, s), c, ctx) == Render(r, c, ctx)
  {
  }

  /** The renderer whose every handler gives back its argument. */
  function IdentityRenderer<C>(): ComponentRenderer<C>
  {
    ComponentRenderer(
      (t, ctx) => Text(t), (t, ctx) => Translatable(t), (t, ctx) => Keybind(t), (t, ctx) => Score(t),
      (t, ctx) => Selector(t), (t, ctx) => BlockNbt(t), (t, ctx) => EntityNbt(t), (t, ctx) => StorageNbt(t))
  }

  /** Rendering with handlers that change nothing changes nothing, for every kind. */
  lemma IdentityRendererPreserves<C>(c: Component, ctx: C)
    ensures Render(IdentityRenderer<C>(), c, ctx) == c
  {
  }
}
