/** The browser's `window.localStorage` as the editor and the theme toggle use it:
    string items under string keys, and the order in which `key(i)` lists the keys. */
module WebStorage {
  import opened Wrappers

  /** The keys of `keys` that are not in `drop`, in their order. */
  function KeepKeys(keys: seq<string>, drop: set<string>): (r: seq<string>)
    ensures |r| <= |keys|
    ensures forall k :: k in r <==> k in keys && k !in drop
  {
    if keys == [] then []
    else if keys[0] in drop then KeepKeys(keys[1..], drop)
    else [keys[0]] + KeepKeys(keys[1..], drop)
  }

  predicate Distinct(keys: seq<string>) {
    forall i, j :: 0 <= i < j < |keys| ==> keys[i] != keys[j]
  }

  lemma {:induction false} KeepKeysDistinct(keys: seq<string>, drop: set<string>)
    requires Distinct(keys)
    ensures Distinct(KeepKeys(keys, drop))
    decreases |keys|
  {
    if keys != [] {
      KeepKeysDistinct(keys[1..], drop);
    }
  }

  lemma {:induction false} KeepKeysNothing(keys: seq<string>)
    ensures KeepKeys(keys, {}) == keys
    decreases |keys|
  {
    if keys != [] {
      KeepKeysNothing(keys[1..]);
    }
  }

  /** Dropping keys one set after another drops their union. */
  lemma {:induction false} KeepKeysTwice(keys: seq<string>, a: set<string>, b: set<string>)
    ensures KeepKeys(KeepKeys(keys, a), b) == KeepKeys(keys, a + b)
    decreases |keys|
  {
    if keys != [] {
      KeepKeysTwice(keys[1..], a, b);
    }
  }

  class LocalStorage {
    var keys: seq<string>
    var items: map<string, string>

    ghost predicate Valid()
      reads this
    {
      Distinct(keys) && (forall k :: k in items <==> k in keys)
    }

    constructor ()
      ensures Valid() && keys == [] && items == map[]
    {
      keys := [];
      items := map[];
    }

    /** `getItem(key)`: the stored string, or null. */
    function GetItem(key: string): (r: Option<string>)
      reads this
      ensures r.Some? <==> key in items
      ensures r.Some? ==> r.value == items[key]
    {
      if key in items then Some(items[key]) else None
    }

    /** `setItem(key, value)`: a new key goes last in the key order. */
    method SetItem(key: string, value: string)
      requires Valid()
      modifies this
      ensures Valid()
      ensures items == old(items)[key := value]
      ensures keys == if key in old(items) then old(keys) else old(keys) + [key]
    {
      if key !in items {
        keys := keys + [key];
      }
      items := items[key := value];
    }

    /** `removeItem(key)`: the other keys keep their order. */
    method RemoveItem(key: string)
      requires Valid()
      modifies this
      ensures Valid()
      ensures items == old(items) - {key}
      ensures keys == KeepKeys(old(keys), {key})
    {
      KeepKeysDistinct(keys, {key});
      keys := KeepKeys(keys, {key});
      items := items - {key};
    }
  }
}
