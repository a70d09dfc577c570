/**
 * Namespaced keys (`net.kyori.minecraft.Key`): a namespace and a value.
 * Parsing a key from one string splits it at the FIRST separator and falls
 * back to the `minecraft` namespace.
 */
module Keys {
  import opened Strings

  datatype Key = Key(namespace: string, value: string)

  const MinecraftNamespace: string := "minecraft"

  /** `Key.of(namespace, value)`: both strings are used as given. */
  function OfParts(namespace: string, value: string): (k: Key)
    ensures k.namespace == namespace && k.value == value
  {
    Key(namespace, value)
  }

  /** `Key.of(string, character)`: split at the first `separator`. */
  function Of(s: string, separator: char): (k: Key)
    // no separator: the whole string is the value
    ensures separator !in s ==> k.namespace == MinecraftNamespace && k.value == s
    // a leading separator is dropped and the namespace defaults
    ensures |s| >= 1 && s[0] == separator ==> k.namespace == MinecraftNamespace && k.value == s[1..]
    // otherwise the namespace is everything before the first separator, the value everything after it
    ensures forall i :: 1 <= i < |s| && s[i] == separator && separator !in s[..i] ==>
              k.namespace == s[..i] && k.value == s[i + 1..]
  {
    var index := IndexOf(s, separator);
    var namespace := if index >= 1 then s[..index] else MinecraftNamespace;
    var value := if index >= 0 then s[index + 1..] else s;
    OfParts(namespace, value)
  }

  /** `Key.of(string)`: the separator is `:`. */
  function OfString(s: string): (k: Key)
    ensures k == Of(s, ':')
  {
    Of(s, ':')
  }

  /**
   * When the string does not start with the separator but holds one, the key
   * reassembles to the string, and its namespace holds no separator.
   */
  lemma OfReassembles(s: string, separator: char)
    requires separator in s && s[0] != separator
    ensures Of(s, separator).namespace + [separator] + Of(s, separator).value == s
    ensures separator !in Of(s, separator).namespace
  {
    var i := IndexOf(s, separator);
    assert s == s[..i] + [separator] + s[i + 1..];
  }

  /**
   * Only the first separator splits: a non-empty namespace without the
   * separator and ANY value (possibly holding more separators) come back
   * from their joined form.
   */
  lemma OfJoined(namespace: string, value: string, separator: char)
    requires |namespace| >= 1 && separator !in namespace
    ensures Of(namespace + [separator] + value, separator) == Key(namespace, value)
  {
    var s := namespace + [separator] + value;
    assert s[..|namespace|] == namespace;
    IndexOfIsFirst(s, separator, |namespace|);
    assert s[|namespace| + 1..] == value;
  }

  /** The default namespace is filled in, so `v`, `:v` and `minecraft:v` are the same key. */
  lemma DefaultNamespaceSpellings(v: string)
    requires ':' !in v
    ensures OfString(v) == OfString([':'] + v) == OfString("minecraft:" + v) == Key(MinecraftNamespace, v)
  {
    assert ([':'] + v)[1..] == v;
    OfJoined(MinecraftNamespace, v, ':');
    assert "minecraft:" + v == MinecraftNamespace + [':'] + v;
  }
}
