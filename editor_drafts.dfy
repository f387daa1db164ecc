/** Draft persistence of the rich-text editor: where a textarea's draft is
    stored, how a stored draft is read back, which text the editor starts
    with, the whitespace-insensitive draft hash, and the sweep that clears
    stale drafts from local storage.

    JSON.parse, JSON.stringify, md5 and the Date constructor are not part of
    this model: they are parameters (`parse`, `stringify`, `md5`, `toTime`),
    and so are the clock (`now`) and the ISO timestamp (`updatedAt`). */
module EditorDrafts {
  import opened Wrappers
  import opened Text
  import opened WebStorage

  const StoragePrefix: string := "ubereditor:"
  const LegacyPrefix: string := "__epiceditor"
  /** 24 hours, in milliseconds. */
  const StorageTtlMs: int := 24 * 60 * 60 * 1000

  /** One property of a parsed payload: undefined, a string, or any other
      value, of which only its truthiness matters here. */
  datatype Prop = Absent | Text(s: string) | NonText(truthy: bool)

  /** What `JSON.parse` returned: `null`, reading a property of which throws,
      or a value whose three properties the rules read (a number, string or
      boolean reads every property as undefined). */
  datatype Parsed = JsonNull | Value(value: Prop, hash: Prop, updatedAt: Prop)

  /** The object `persistDraft` stores, before `JSON.stringify`. */
  datatype DraftPayload = DraftPayload(value: string, hash: string, updatedAt: string)

  predicate Truthy(p: Prop) {
    match p
    case Absent => false
    case Text(s) => s != ""
    case NonText(t) => t
  }

  /** A storage key as a JavaScript condition sees it: null and '' are falsy. */
  predicate KeyTruthy(key: Option<string>) {
    key.Some? && key.value != ""
  }

  /** A textarea the editor replaces. `localKey` is the per-textarea key that
      `getLocalStorageKey` (in a utilities module that is not part of this
      model) derives for it. */
  class Textarea {
    var name: string
    var value: string
    const localKey: string

    constructor (name: string, value: string, localKey: string)
      ensures this.name == name && this.value == value && this.localKey == localKey
    {
      this.name := name;
      this.value := value;
      this.localKey := localKey;
    }
  }

  /** `getPersistKey`: no key without a textarea or without a name. */
  function PersistKey(textarea: Textarea?): (key: Option<string>)
    reads textarea
    ensures key.None? <==> textarea == null || textarea.name == ""
    ensures key.Some? ==>
      (StartsWith(key.value, StoragePrefix) && key.value[|StoragePrefix|..] == textarea.localKey)
  {
    if textarea == null || textarea.name == "" then None
    else Some(StoragePrefix + textarea.localKey)
  }

  /** `loadPersistedDraft`: the parsed payload when its `value` is a string. */
  function LoadPersistedDraft(key: Option<string>, storage: LocalStorage?,
                              parse: string -> Option<Parsed>): (draft: Option<Parsed>)
    reads storage
    ensures !KeyTruthy(key) || storage == null ==> draft.None?
    ensures storage != null && KeyTruthy(key) && (key.value !in storage.items || storage.items[key.value] == "")
      ==> draft.None?
    ensures storage != null && KeyTruthy(key) && key.value in storage.items && storage.items[key.value] != ""
      ==> draft == match parse(storage.items[key.value])
        case Some(Value(Text(v), h, u)) => Some(Value(Text(v), h, u))
        case _ => None
    ensures draft.Some? ==> draft.value.Value? && draft.value.value.Text?
  {
    if !KeyTruthy(key) || storage == null then None
    else match storage.GetItem(key.value)
      case None => None
      case Some(raw) =>
        if raw == "" then None
        else match parse(raw)
          case None => None
          case Some(payload) =>
            if payload.Value? && payload.value.Text? then Some(payload) else None
  }

  // ---------------------------------------------------------------------
  // The draft hash ignores whitespace.

  /** `value.replace(/\s+/g, '')` */
  function RemoveWhitespace(s: string): (r: string)
    ensures |r| <= |s|
    ensures forall i :: 0 <= i < |r| ==> !IsJsWhitespace(r[i])
  {
    if s == [] then []
    else if IsJsWhitespace(s[0]) then RemoveWhitespace(s[1..])
    else [s[0]] + RemoveWhitespace(s[1..])
  }

  /** The hash `persistDraft` stores with a draft. */
  function DraftHash(md5: string -> string, value: string): string {
    md5(RemoveWhitespace(value))
  }

  lemma {:induction false} RemoveWhitespaceAppend(a: string, b: string)
    ensures RemoveWhitespace(a + b) == RemoveWhitespace(a) + RemoveWhitespace(b)
    decreases |a|
  {
    if a == [] {
      assert a + b == b;
    } else {
      assert (a + b)[1..] == a[1..] + b;
      RemoveWhitespaceAppend(a[1..], b);
    }
  }

  /** Inserting a whitespace character anywhere leaves the hash unchanged. */
  lemma DraftHashIgnoresWhitespace(md5: string -> string, a: string, w: char, b: string)
    requires IsJsWhitespace(w)
    ensures DraftHash(md5, a + [w] + b) == DraftHash(md5, a + b)
  {
    RemoveWhitespaceAppend(a + [w], b);
    RemoveWhitespaceAppend(a, [w]);
    RemoveWhitespaceAppend(a, b);
    assert [w][1..] == [];
    assert RemoveWhitespace([w]) == [];
    assert RemoveWhitespace(a + [w]) == RemoveWhitespace(a);
  }

  /** Text without whitespace is hashed as it is, and removal is idempotent. */
  lemma {:induction false} RemoveWhitespaceFixpoint(s: string)
    ensures (forall i :: 0 <= i < |s| ==> !IsJsWhitespace(s[i])) <==> RemoveWhitespace(s) == s
    decreases |s|
  {
    if s != [] {
      RemoveWhitespaceFixpoint(s[1..]);
      if IsJsWhitespace(s[0]) {
        assert |RemoveWhitespace(s)| < |s|;
      } else {
        if RemoveWhitespace(s) == s {
          assert RemoveWhitespace(s)[1..] == RemoveWhitespace(s[1..]);
        }
      }
    }
  }

  // ---------------------------------------------------------------------
  // Writing drafts.

  /** `persistDraft`: stores the value, its hash and the timestamp under the key. */
  method PersistDraft(storage: LocalStorage?, key: Option<string>, value: string, updatedAt: string,
                      md5: string -> string, stringify: DraftPayload -> string)
    requires storage != null ==> storage.Valid()
    modifies storage
    ensures storage != null ==> storage.Valid()
    ensures storage != null ==> (storage.items ==
      if KeyTruthy(key)
      then old(storage.items)[key.value := stringify(DraftPayload(value, DraftHash(md5, value), updatedAt))]
      else old(storage.items))
    ensures storage != null ==> (storage.keys ==
      if KeyTruthy(key) && key.value !in old(storage.items) then old(storage.keys) + [key.value] else old(storage.keys))
  {
    if !KeyTruthy(key) || storage == null {
      return;
    }
    var hash := md5(RemoveWhitespace(value));
    storage.SetItem(key.value, stringify(DraftPayload(value, hash, updatedAt)));
  }

  /** `removeDraft` */
  method RemoveDraft(storage: LocalStorage?, key: Option<string>)
    requires storage != null ==> storage.Valid()
    modifies storage
    ensures storage != null ==> storage.Valid()
    ensures storage != null ==> (storage.items ==
      if KeyTruthy(key) then old(storage.items) - {key.value} else old(storage.items))
    ensures storage != null ==> (storage.keys ==
      if KeyTruthy(key) then KeepKeys(old(storage.keys), {key.value}) else old(storage.keys))
  {
    if !KeyTruthy(key) || storage == null {
      return;
    }
    storage.RemoveItem(key.value);
  }

  /** The editor object that keeps its textarea (and, with auto-save, the draft) in step. */
  class EditorInstance {
    const textarea: Textarea
    const storageKey: Option<string>
    const autoSave: bool
    const storage: LocalStorage?

    constructor (textarea: Textarea, storageKey: Option<string>, autoSave: bool, storage: LocalStorage?)
      ensures this.textarea == textarea && this.storageKey == storageKey
      ensures this.autoSave == autoSave && this.storage == storage
    {
      this.textarea := textarea;
      this.storageKey := storageKey;
      this.autoSave := autoSave;
      this.storage := storage;
    }

    /** `syncValue`: the textarea takes the markdown; with auto-save and a key, so does the draft. */
    method SyncValue(markdown: string, updatedAt: string, md5: string -> string, stringify: DraftPayload -> string)
      requires storage != null ==> storage.Valid()
      modifies textarea, storage
      ensures textarea.value == markdown && textarea.name == old(textarea.name)
      ensures storage != null ==> storage.Valid()
      ensures storage != null ==> (storage.items ==
        if autoSave && KeyTruthy(storageKey)
        then old(storage.items)[storageKey.value := stringify(DraftPayload(markdown, DraftHash(md5, markdown), updatedAt))]
        else old(storage.items))
      ensures storage != null ==> (storage.keys ==
        if autoSave && KeyTruthy(storageKey) && storageKey.value !in old(storage.items)
        then old(storage.keys) + [storageKey.value] else old(storage.keys))
    {
      textarea.value := markdown;
      if autoSave && KeyTruthy(storageKey) {
        PersistDraft(storage, storageKey, markdown, updatedAt, md5, stringify);
      }
    }
  }

  // ---------------------------------------------------------------------
  // Which text the editor starts with.

  /** The editor's first content and whether the "Draft restored" badge shows. */
  datatype InitialContent = InitialContent(markdown: string, restored: bool)

  /** The string value of a loaded draft, or ''. */
  function DraftValue(persisted: Option<Parsed>): string {
    match persisted
    case Some(Value(Text(v), _, _)) => v
    case _ => ""
  }

  /** `UberEditor.init`: a non-empty draft that differs from the server's value wins. */
  function SelectInitial(persisted: Option<Parsed>, serverValue: string): (c: InitialContent)
    ensures c.restored <==> c.markdown != serverValue
    ensures c.restored <==> DraftValue(persisted) != "" && DraftValue(persisted) != serverValue
    ensures c.markdown == serverValue || c.markdown == DraftValue(persisted)
  {
    var restoredValue := DraftValue(persisted);
    var hasRestoredValue := restoredValue != "" && restoredValue != serverValue;
    InitialContent(if hasRestoredValue then restoredValue else serverValue, hasRestoredValue)
  }

  /** The HTML the editor is created with: an empty paragraph for no text. */
  function InitialHtml(markdown: string, render: string -> string): (html: string)
    ensures markdown == "" ==> html == "<p></p>"
    ensures markdown != "" ==> html == render(markdown)
  {
    if markdown != "" then render(markdown) else "<p></p>"
  }

  /** The editor opens on the rendered draft exactly when it is restored, on
      the rendered server value when that is kept and not empty, and on an
      empty paragraph when neither the draft nor the server has any text. */
  lemma OpeningHtml(persisted: Option<Parsed>, serverValue: string, render: string -> string)
    ensures var c := SelectInitial(persisted, serverValue);
      c.restored ==> InitialHtml(c.markdown, render) == render(DraftValue(persisted))
    ensures var c := SelectInitial(persisted, serverValue);
      !c.restored && serverValue != "" ==> InitialHtml(c.markdown, render) == render(serverValue)
    ensures DraftValue(persisted) == "" && serverValue == "" ==>
      InitialHtml(SelectInitial(persisted, serverValue).markdown, render) == "<p></p>"
    ensures DraftValue(persisted) != "" || serverValue != "" ==>
      InitialHtml(SelectInitial(persisted, serverValue).markdown, render) == render(SelectInitial(persisted, serverValue).markdown)
  {
  }

  /** The texts of the editor's footer: the hint, then the badge for a restored draft. */
  function FooterTexts(restoredDraft: bool): (texts: seq<string>)
    ensures |texts| == if restoredDraft then 2 else 1
    ensures |texts| >= 1 && texts[0] == "Markdown + LaTeX supported."
    ensures "Draft restored" in texts <==> restoredDraft
  {
    ["Markdown + LaTeX supported."] + if restoredDraft then ["Draft restored"] else []
  }

  // ---------------------------------------------------------------------
  // The sweep of local storage.

  /** An `updatedAt` that is missing, unparsable (NaN) or zero counts as
      expired, and so does one strictly more than 24 hours before `now`. */
  predicate IsExpired(updatedAt: Prop, now: int, toTime: Prop -> Option<int>) {
    var time := if Truthy(updatedAt) then toTime(updatedAt) else Some(0);
    time.None? || time.value == 0 || now - time.value > StorageTtlMs
  }

  /** A truthy hash found (with ===) in the page's list of known hashes. */
  predicate IsKnown(hash: Prop, hashes: seq<string>) {
    Truthy(hash) && hash.Text? && hash.s in hashes
  }

  /** Whether the sweep deletes the entry `key` holding `raw`. `hashes` is
      `Some` of the page's `config.localStorage.hashes || []`, or `None` when
      the page has no `config.localStorage`: reading the list then throws
      inside the `try`, and the `catch` deletes every entry that got that far. */
  predicate ShouldRemove(key: string, raw: string, now: int, hashes: Option<seq<string>>,
                         parse: string -> Option<Parsed>, toTime: Prop -> Option<int>) {
    if key == "" then false
    else if StartsWith(key, LegacyPrefix) then true
    else if !StartsWith(key, StoragePrefix) then false
    else if raw == "" then true
    else PayloadDoomed(raw, now, hashes, parse, toTime)
  }

  /** The verdict of the sweep's `try` block on a non-empty draft entry; a
      throw (unparsable text, a `null` payload, no hash list) means removal. */
  predicate PayloadDoomed(raw: string, now: int, hashes: Option<seq<string>>,
                          parse: string -> Option<Parsed>, toTime: Prop -> Option<int>) {
    match parse(raw)
    case None => true
    case Some(JsonNull) => true
    case Some(Value(_, hash, updatedAt)) => IsExpired(updatedAt, now, toTime) || hashes.None? || IsKnown(hash, hashes.value)
  }

  /** The entries that survive the sweep. */
  function Swept(items: map<string, string>, now: int, hashes: Option<seq<string>>,
                 parse: string -> Option<Parsed>, toTime: Prop -> Option<int>): (r: map<string, string>)
    ensures forall k :: k in r <==> k in items && !ShouldRemove(k, items[k], now, hashes, parse, toTime)
    ensures forall k :: k in r ==> r[k] == items[k]
    ensures forall k :: k in items && StartsWith(k, LegacyPrefix) ==> k !in r
    ensures forall k :: (k in items && !StartsWith(k, LegacyPrefix) && !StartsWith(k, StoragePrefix)
      ==> k in r && r[k] == items[k])
  {
    map k | k in items && !ShouldRemove(k, items[k], now, hashes, parse, toTime) :: items[k]
  }

  /** The keys the scan collects, in key order. */
  function ToRemove(keys: seq<string>, items: map<string, string>, now: int, hashes: Option<seq<string>>,
                    parse: string -> Option<Parsed>, toTime: Prop -> Option<int>): (r: seq<string>)
    requires forall k :: k in keys ==> k in items
    ensures forall k :: k in r <==> k in keys && ShouldRemove(k, items[k], now, hashes, parse, toTime)
  {
    if keys == [] then []
    else
      var last := keys[|keys| - 1];
      ToRemove(keys[..|keys| - 1], items, now, hashes, parse, toTime)
      + (if ShouldRemove(last, items[last], now, hashes, parse, toTime) then [last] else [])
  }

  /** An entry starting with the draft prefix is deleted exactly when it is
      empty, unparsable, null, expired, read without a hash list, or carries a known hash. */
  lemma DraftEntrySwept(items: map<string, string>, key: string, now: int, hashes: Option<seq<string>>,
                        parse: string -> Option<Parsed>, toTime: Prop -> Option<int>)
    requires key in items && StartsWith(key, StoragePrefix)
    ensures key !in Swept(items, now, hashes, parse, toTime) <==>
      items[key] == "" || parse(items[key]).None? || parse(items[key]) == Some(JsonNull)
      || IsExpired(parse(items[key]).value.updatedAt, now, toTime)
      || hashes.None? || IsKnown(parse(items[key]).value.hash, hashes.value)
  {
    assert !StartsWith(key, LegacyPrefix) by {
      assert key[1] == ':' || key[1] == 'b';
    }
  }

  /** Without `config.localStorage` on the page, no draft entry survives the sweep. */
  lemma NoHashListClearsDrafts(items: map<string, string>, now: int,
                               parse: string -> Option<Parsed>, toTime: Prop -> Option<int>)
    ensures forall k :: k in Swept(items, now, None, parse, toTime) ==> !StartsWith(k, StoragePrefix)
  {
    forall k | k in items && StartsWith(k, StoragePrefix)
      ensures k !in Swept(items, now, None, parse, toTime)
    {
      DraftEntrySwept(items, k, now, None, parse, toTime);
    }
  }

  /** Sweeping twice deletes nothing more than sweeping once. */
  lemma SweptIdempotent(items: map<string, string>, now: int, hashes: Option<seq<string>>,
                        parse: string -> Option<Parsed>, toTime: Prop -> Option<int>)
    ensures Swept(Swept(items, now, hashes, parse, toTime), now, hashes, parse, toTime)
         == Swept(items, now, hashes, parse, toTime)
  {
    var once := Swept(items, now, hashes, parse, toTime);
    var twice := Swept(once, now, hashes, parse, toTime);
    assert twice.Keys == once.Keys;
  }

  /** The set of the keys in `keys`. */
  function KeySet(keys: seq<string>): (r: set<string>)
    ensures forall k :: k in r <==> k in keys
  {
    set k | k in keys
  }

  /** The scan of `cleanLocalStorage`: visits every key once, in key order,
      and collects the keys to delete without changing the storage. */
  /** One more key of the scan adds at most that key to the collected ones. */
  lemma ToRemoveStep(keys: seq<string>, items: map<string, string>, i: nat, now: int, hashes: Option<seq<string>>,
                     parse: string -> Option<Parsed>, toTime: Prop -> Option<int>)
    requires i < |keys| && forall k :: k in keys ==> k in items
    ensures ToRemove(keys[..i + 1], items, now, hashes, parse, toTime) ==
      ToRemove(keys[..i], items, now, hashes, parse, toTime)
      + (if ShouldRemove(keys[i], items[keys[i]], now, hashes, parse, toTime) then [keys[i]] else [])
  {
    assert keys[..i + 1][..i] == keys[..i];
  }

  /** The `try`/`catch` of the scan for one non-empty draft entry. */
  method TryPayload(raw: string, now: int, hashes: Option<seq<string>>,
                    parse: string -> Option<Parsed>, toTime: Prop -> Option<int>)
    returns (shouldRemove: bool)
    ensures shouldRemove == PayloadDoomed(raw, now, hashes, parse, toTime)
  {
    shouldRemove := false;
    match parse(raw) {
      case None =>
        shouldRemove := true;
      case Some(payload) =>
        if payload.JsonNull? {
          shouldRemove := true;
        } else {
          var isExpired := IsExpired(payload.updatedAt, now, toTime);
          if hashes.None? {
            shouldRemove := true;
          } else {
            var isKnown := IsKnown(payload.hash, hashes.value);
            shouldRemove := isExpired || isKnown;
          }
        }
    }
  }

  method CollectKeysToRemove(storage: LocalStorage, now: int, hashes: Option<seq<string>>,
                             parse: string -> Option<Parsed>, toTime: Prop -> Option<int>)
    returns (keysToRemove: seq<string>)
    requires storage.Valid()
    ensures keysToRemove == ToRemove(storage.keys, storage.items, now, hashes, parse, toTime)
  {
    keysToRemove := [];
    var i := 0;
    while i < |storage.keys|
      invariant 0 <= i <= |storage.keys|
      invariant keysToRemove == ToRemove(storage.keys[..i], storage.items, now, hashes, parse, toTime)
    {
      var key := storage.keys[i];
      ToRemoveStep(storage.keys, storage.items, i, now, hashes, parse, toTime);
      if key == "" {
        i := i + 1;
        continue;
      }
      if StartsWith(key, LegacyPrefix) {
        keysToRemove := keysToRemove + [key];
        i := i + 1;
        continue;
      }
      if !StartsWith(key, StoragePrefix) {
        i := i + 1;
        continue;
      }
      var raw := storage.GetItem(key).value;
      if raw == "" {
        keysToRemove := keysToRemove + [key];
        i := i + 1;
        continue;
      }
      var shouldRemove := TryPayload(raw, now, hashes, parse, toTime);
      if shouldRemove {
        keysToRemove := keysToRemove + [key];
      }
      i := i + 1;
    }
    assert storage.keys[..i] == storage.keys;
  }

  /** The deletions of `cleanLocalStorage`, applied after the scan. */
  method RemoveKeys(storage: LocalStorage, keysToRemove: seq<string>)
    requires storage.Valid()
    modifies storage
    ensures storage.Valid()
    ensures storage.items == old(storage.items) - KeySet(keysToRemove)
    ensures storage.keys == KeepKeys(old(storage.keys), KeySet(keysToRemove))
  {
    var j := 0;
    KeepKeysNothing(storage.keys);
    assert KeySet(keysToRemove[..0]) == {};
    while j < |keysToRemove|
      invariant 0 <= j <= |keysToRemove|
      invariant storage.Valid()
      invariant storage.items == old(storage.items) - KeySet(keysToRemove[..j])
      invariant storage.keys == KeepKeys(old(storage.keys), KeySet(keysToRemove[..j]))
    {
      assert keysToRemove[..j + 1] == keysToRemove[..j] + [keysToRemove[j]];
      assert KeySet(keysToRemove[..j + 1]) == KeySet(keysToRemove[..j]) + {keysToRemove[j]};
      KeepKeysTwice(old(storage.keys), KeySet(keysToRemove[..j]), {keysToRemove[j]});
      storage.RemoveItem(keysToRemove[j]);
      j := j + 1;
    }
    assert keysToRemove[..j] == keysToRemove;
  }

  /** The entries the sweep deletes. */
  function Doomed(items: map<string, string>, now: int, hashes: Option<seq<string>>,
                  parse: string -> Option<Parsed>, toTime: Prop -> Option<int>): set<string>
  {
    set k | k in items && ShouldRemove(k, items[k], now, hashes, parse, toTime)
  }

  /** Removing the collected keys from the entries leaves the swept map. */
  lemma RemovingCollectedSweeps(keys: seq<string>, items: map<string, string>, now: int, hashes: Option<seq<string>>,
                                parse: string -> Option<Parsed>, toTime: Prop -> Option<int>)
    requires forall k :: k in items <==> k in keys
    ensures KeySet(ToRemove(keys, items, now, hashes, parse, toTime)) == Doomed(items, now, hashes, parse, toTime)
    ensures items - Doomed(items, now, hashes, parse, toTime) == Swept(items, now, hashes, parse, toTime)
  {
  }

  /** `UberEditor.cleanLocalStorage`: scans every key once, collecting the
      ones to delete, and deletes them after the scan. */
  method CleanLocalStorage(storage: LocalStorage?, now: int, hashes: Option<seq<string>>,
                           parse: string -> Option<Parsed>, toTime: Prop -> Option<int>)
    requires storage != null ==> storage.Valid()
    modifies storage
    ensures storage != null ==> storage.Valid()
    ensures storage != null ==> storage.items == Swept(old(storage.items), now, hashes, parse, toTime)
    ensures storage != null ==>
      storage.keys == KeepKeys(old(storage.keys), Doomed(old(storage.items), now, hashes, parse, toTime))
  {
    if storage == null {
      return;
    }
    var keysToRemove := CollectKeysToRemove(storage, now, hashes, parse, toTime);
    RemovingCollectedSweeps(storage.keys, storage.items, now, hashes, parse, toTime);
    RemoveKeys(storage, keysToRemove);
  }

  // ---------------------------------------------------------------------
  // A draft written now is read back, and survives the next sweep.

  /** What a JSON round trip of a stored payload must give for the lemmas below. */
  ghost predicate RoundTrips(parse: string -> Option<Parsed>, stringify: DraftPayload -> string, p: DraftPayload) {
    parse(stringify(p)) == Some(Value(Text(p.value), Text(p.hash), Text(p.updatedAt)))
  }

  /** Loading right after persisting gives back the persisted value. */
  lemma PersistThenLoad(items: map<string, string>, key: string, value: string, updatedAt: string,
                        md5: string -> string, stringify: DraftPayload -> string,
                        parse: string -> Option<Parsed>, storage: LocalStorage)
    requires key != ""
    requires var p := DraftPayload(value, DraftHash(md5, value), updatedAt);
      RoundTrips(parse, stringify, p) && stringify(p) != ""
      && storage.items == items[key := stringify(p)]
    ensures DraftValue(LoadPersistedDraft(Some(key), storage, parse)) == value
  {
  }

  /** A draft persisted at most 24 hours ago with a hash the page does not know survives the sweep. */
  lemma FreshDraftSurvivesSweep(items: map<string, string>, key: string, value: string, updatedAt: string,
                                time: int, now: int, hashes: Option<seq<string>>,
                                md5: string -> string, stringify: DraftPayload -> string,
                                parse: string -> Option<Parsed>, toTime: Prop -> Option<int>)
    requires StartsWith(key, StoragePrefix) && updatedAt != ""
    requires var p := DraftPayload(value, DraftHash(md5, value), updatedAt);
      RoundTrips(parse, stringify, p) && stringify(p) != ""
    requires toTime(Text(updatedAt)) == Some(time) && time != 0 && now - time <= StorageTtlMs
    requires hashes.Some? && DraftHash(md5, value) !in hashes.value
    ensures var p := DraftPayload(value, DraftHash(md5, value), updatedAt);
      key in Swept(items[key := stringify(p)], now, hashes, parse, toTime)
  {
    assert key != "" && key[1] == 'b';
    assert !StartsWith(key, LegacyPrefix) by {
      assert LegacyPrefix[1] == '_';
    }
  }
}
