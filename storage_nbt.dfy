/**
 * `StorageNbtComponentImpl`: the immutable storage-NBT component node, its
 * per-field updates ("withers") and equality, and its builder.
 */
module StorageNbt {
  import opened Wrappers
  import opened Keys
  import opened Components

  // ---------------------------------------------------------------- the immutable node

  /** `nbtPath(p)`: the same node when the path is unchanged, else a node differing only in the path. */
  function WithNbtPath(n: StorageNbtComponent, nbtPath: string): (r: StorageNbtComponent)
    ensures nbtPath == n.nbtPath ==> r == n
    ensures r.nbtPath == nbtPath
    ensures r.children == n.children && r.style == n.style && r.interpret == n.interpret && r.storage == n.storage
  {
    if n.nbtPath == nbtPath then n else StorageNbtComponent(n.children, n.style, nbtPath, n.interpret, n.storage)
  }

  /** `interpret(b)`: the same node when the flag is unchanged, else a node differing only in the flag. */
  function WithInterpret(n: StorageNbtComponent, interpret: bool): (r: StorageNbtComponent)
    ensures interpret == n.interpret ==> r == n
    ensures r.interpret == interpret
    ensures r.children == n.children && r.style == n.style && r.nbtPath == n.nbtPath && r.storage == n.storage
  {
    if n.interpret == interpret then n else StorageNbtComponent(n.children, n.style, n.nbtPath, interpret, n.storage)
  }

  /** `storage(k)`: the same node when the key is unchanged, else a node differing only in the key. */
  function WithStorage(n: StorageNbtComponent, storage: Key): (r: StorageNbtComponent)
    ensures storage == n.storage ==> r == n
    ensures r.storage == storage
    ensures r.children == n.children && r.style == n.style && r.nbtPath == n.nbtPath && r.interpret == n.interpret
  {
    if n.storage == storage then n else StorageNbtComponent(n.children, n.style, n.nbtPath, n.interpret, storage)
  }

  /** `children(cs)`: always a new node with the given children; no short-circuit. */
  function WithChildren(n: StorageNbtComponent, children: seq<Component>): (r: StorageNbtComponent)
    ensures r.children == children
    ensures r.style == n.style && r.nbtPath == n.nbtPath && r.interpret == n.interpret && r.storage == n.storage
  {
    StorageNbtComponent(children, n.style, n.nbtPath, n.interpret, n.storage)
  }

  /** `style(s)`: the same node when the style is unchanged, else a node differing only in the style. */
  function WithStyle(n: StorageNbtComponent, style: Style): (r: StorageNbtComponent)
    ensures style == n.style ==> r == n
    ensures r.style == style
    ensures r.children == n.children && r.nbtPath == n.nbtPath && r.interpret == n.interpret && r.storage == n.storage
  {
    if n.style == style then n else StorageNbtComponent(n.children, style, n.nbtPath, n.interpret, n.storage)
  }

  /** The fields compared by the superclasses' `equals`: children, style, path and interpret flag. */
  predicate InheritedEquals(a: StorageNbtComponent, b: StorageNbtComponent) {
    a.children == b.children && a.style == b.style && a.nbtPath == b.nbtPath && a.interpret == b.interpret
  }

  /** `equals(other)`: a storage-NBT component whose inherited fields and storage key are equal. */
  function Equals(n: StorageNbtComponent, other: Component): (r: bool)
    ensures r <==> other == StorageNbt(n)
  {
    other.StorageNbt? && InheritedEquals(n, other.storageNbt) && n.storage == other.storageNbt.storage
  }

  /** Equality is symmetric between storage-NBT components. */
  lemma EqualsSymmetric(a: StorageNbtComponent, b: StorageNbtComponent)
    ensures Equals(a, StorageNbt(b)) <==> Equals(b, StorageNbt(a))
  {
  }

  /**
   * The identity short-circuit is an allocation shortcut only: every wither
   * gives a node equal to the unconditional one-field update.
   */
  lemma ShortCircuitUnobservable(n: StorageNbtComponent, nbtPath: string, interpret: bool, storage: Key, style: Style)
    ensures WithNbtPath(n, nbtPath) == n.(nbtPath := nbtPath)
    ensures WithInterpret(n, interpret) == n.(interpret := interpret)
    ensures WithStorage(n, storage) == n.(storage := storage)
    ensures WithStyle(n, style) == n.(style := style)
  {
  }

  /** A wither yields a node equal to the original exactly when the new value equals the old one. */
  lemma WitherEqualsOriginal(n: StorageNbtComponent, nbtPath: string, storage: Key, children: seq<Component>)
    ensures Equals(WithNbtPath(n, nbtPath), StorageNbt(n)) <==> nbtPath == n.nbtPath
    ensures Equals(WithStorage(n, storage), StorageNbt(n)) <==> storage == n.storage
    ensures Equals(WithChildren(n, children), StorageNbt(n)) <==> children == n.children
  {
  }

  /** The last update of a field wins, and updates of different fields commute. */
  lemma WithersCompose(n: StorageNbtComponent, p: string, q: string, k: Key)
    ensures WithNbtPath(WithNbtPath(n, p), q) == WithNbtPath(n, q)
    ensures WithStorage(WithNbtPath(n, p), k) == WithNbtPath(WithStorage(n, k), p)
  {
  }

  // ---------------------------------------------------------------- the builder

  datatype BuildError = IllegalState(message: string)

  const NbtPathMustBeSet: string := "nbt path must be set"
  const StorageMustBeSet: string := "storage must be set"

  /**
   * `StorageNbtComponentImpl.BuilderImpl`. The children, style, path and
   * interpret flag belong to the inherited NBT-component builder, whose
   * setters the model gives as plain field updates.
   */
  class StorageNbtComponentBuilder {
    var children: seq<Component>
    var style: Style
    var nbtPath: Option<string>
    var interpret: bool
    var storage: Option<Key>

    /** `BuilderImpl()`: nothing set. */
    constructor ()
      ensures children == [] && style == EmptyStyle && nbtPath == None && !interpret && storage == None
    {
      children := [];
      style := EmptyStyle;
      nbtPath := None;
      interpret := false;
      storage := None;
    }

    /** `BuilderImpl(component)`, i.e. `toBuilder()`: seeded with every field of the node. */
    constructor FromComponent(n: StorageNbtComponent)
      ensures children == n.children && style == n.style && nbtPath == Some(n.nbtPath)
      ensures interpret == n.interpret && storage == Some(n.storage)
    {
      children := n.children;
      style := n.style;
      nbtPath := Some(n.nbtPath);
      interpret := n.interpret;
      storage := Some(n.storage);
    }

    /** `storage(k)`: sets the key and returns the same builder. */
    method Storage(k: Key) returns (b: StorageNbtComponentBuilder)
      modifies this
      ensures b == this && storage == Some(k)
      ensures children == old(children) && style == old(style) && nbtPath == old(nbtPath) && interpret == old(interpret)
    {
      storage := Some(k);
      b := this;
    }

    /** The inherited `nbtPath(p)` setter. */
    method NbtPath(p: string) returns (b: StorageNbtComponentBuilder)
      modifies this
      ensures b == this && nbtPath == Some(p)
      ensures children == old(children) && style == old(style) && interpret == old(interpret) && storage == old(storage)
    {
      nbtPath := Some(p);
      b := this;
    }

    /** The inherited `interpret(b)` setter. */
    method Interpret(flag: bool) returns (b: StorageNbtComponentBuilder)
      modifies this
      ensures b == this && interpret == flag
      ensures children == old(children) && style == old(style) && nbtPath == old(nbtPath) && storage == old(storage)
    {
      interpret := flag;
      b := this;
    }

    /**
     * `build()`: fails when the path is unset (checked first) or the key is
     * unset; otherwise a node with exactly the builder's fields.
     */
    method Build() returns (r: Result<StorageNbtComponent, BuildError>)
      ensures nbtPath.None? ==> r == Err(IllegalState(NbtPathMustBeSet))
      ensures nbtPath.Some? && storage.None? ==> r == Err(IllegalState(StorageMustBeSet))
      ensures r.Ok? <==> nbtPath.Some? && storage.Some?
      ensures r.Ok? ==> r.value.children == children && r.value.style == style && r.value.interpret == interpret
      ensures r.Ok? ==> Some(r.value.nbtPath) == nbtPath && Some(r.value.storage) == storage
    {
      if nbtPath.None? {
        return Err(IllegalState(NbtPathMustBeSet));
      }
      if storage.None? {
        return Err(IllegalState(StorageMustBeSet));
      }
      return Ok(StorageNbtComponent(children, style, nbtPath.value, interpret, storage.value));
    }
  }

  /** Building an untouched `toBuilder()` reproduces the node. */
  method ToBuilderRoundTrip(n: StorageNbtComponent) returns (r: Result<StorageNbtComponent, BuildError>)
    ensures r == Ok(n)
  {
    var b := new StorageNbtComponentBuilder.FromComponent(n);
    r := b.Build();
  }

  /** A builder given a path and a key builds a node reporting exactly those, with default other fields. */
  method BuildWithPathAndStorage(p: string, k: Key) returns (r: Result<StorageNbtComponent, BuildError>)
    ensures r == Ok(StorageNbtComponent([], EmptyStyle, p, false, k))
  {
    var b := new StorageNbtComponentBuilder();
    b := b.NbtPath(p);
    b := b.Storage(k);
    r := b.Build();
  }

  /** Without a key, `build()` fails with the storage message. */
  method BuildWithoutStorage(p: string) returns (r: Result<StorageNbtComponent, BuildError>)
    ensures r == Err(IllegalState(StorageMustBeSet))
  {
    var b := new StorageNbtComponentBuilder();
    b := b.NbtPath(p);
    r := b.Build();
  }

  /** Without a path, `build()` fails with the path message even when a key is set. */
  method BuildWithoutNbtPath(k: Key) returns (r: Result<StorageNbtComponent, BuildError>)
    ensures r == Err(IllegalState(NbtPathMustBeSet))
  {
    var b := new StorageNbtComponentBuilder();
    b := b.Storage(k);
    r := b.Build();
  }
}
