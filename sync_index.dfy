/**
 * The indexes a YAML Modules run builds before deciding item by item (yaml_modules.py
 * `_sync_list_domain` and its copies): items by id with the first one kept, and the mapping
 * index that says, for every known id, which module file the item belongs to.
 */
module SyncIndex {
  import opened Wrappers
  import opened Text
  import opened Yaml
  import opened ModuleItems

  // ------------------------------------------------------------------ items by key

  /** An ordered dict from keys to items. */
  type ItemIndex = seq<(string, ModuleItem)>

  function IndexKeys(ix: ItemIndex): (r: seq<string>)
    ensures |r| == |ix| && forall i :: 0 <= i < |ix| ==> r[i] == ix[i].0
  {
    seq(|ix|, i requires 0 <= i < |ix| => ix[i].0)
  }

  predicate IndexHas(ix: ItemIndex, k: string)
  {
    exists i :: 0 <= i < |ix| && ix[i].0 == k
  }

  /** `d.get(k)`. */
  function IndexGet(ix: ItemIndex, k: string): (r: Option<ModuleItem>)
    ensures r.Some? <==> IndexHas(ix, k)
    ensures r.Some? ==> exists i :: 0 <= i < |ix| && ix[i] == (k, r.value)
  {
    if ix == [] then None
    else
      var n := |ix| - 1;
      var front := IndexGet(ix[..n], k);
      if front.Some? then
        var i :| 0 <= i < n && ix[..n][i] == (k, front.value);
        assert ix[i] == ix[..n][i];
        front
      else if ix[n].0 == k then Some(ix[n].1)
      else
        assert forall i :: 0 <= i < n ==> ix[i] == ix[..n][i];
        None
  }

  /** The text of a helper type in a composite key (`f"{helper_type}"`). */
  function HelperTypeText(t: Option<string>): string
  {
    if t.Some? then t.value else "None"
  }

  /** The key an item is indexed under: `helper_type:id` for helpers, the id otherwise. */
  function KeyOf(composite: bool, it: ModuleItem): (r: string)
    ensures !composite ==> r == it.haId
    ensures composite ==> r == HelperTypeText(it.helperType) + ":" + it.haId
  {
    if composite then HelperTypeText(it.helperType) + ":" + it.haId else it.haId
  }

  /** The position of the first item under key `k`. */
  function FirstWith(items: seq<ModuleItem>, composite: bool, k: string): (r: Option<nat>)
    ensures r.Some? ==> r.value < |items| && KeyOf(composite, items[r.value]) == k
    ensures r.Some? ==> forall j :: 0 <= j < r.value ==> KeyOf(composite, items[j]) != k
    ensures r.None? ==> forall i :: 0 <= i < |items| ==> KeyOf(composite, items[i]) != k
  {
    if items == [] then None
    else
      var n := |items| - 1;
      var front := FirstWith(items[..n], composite, k);
      assert forall i :: 0 <= i < n ==> items[i] == items[..n][i];
      if front.Some? then front
      else if KeyOf(composite, items[n]) == k then Some(n)
      else None
  }

  /**
   * The loop that fills `module_items_by_id`: the first item under each key is kept, every
   * later one is set aside as a duplicate.
   */
  function FirstWins(items: seq<ModuleItem>, composite: bool): (r: (ItemIndex, seq<ModuleItem>))
    ensures |r.0| + |r.1| == |items|
  {
    if items == [] then ([], [])
    else
      var n := |items| - 1;
      var front := FirstWins(items[..n], composite);
      var k := KeyOf(composite, items[n]);
      if IndexHas(front.0, k) then (front.0, front.1 + [items[n]]) else (front.0 + [(k, items[n])], front.1)
  }

  lemma FirstWinsStep(items: seq<ModuleItem>, composite: bool, i: nat)
    requires i < |items|
    ensures FirstWins(items[..i + 1], composite) ==
      var front := FirstWins(items[..i], composite);
      var k := KeyOf(composite, items[i]);
      if IndexHas(front.0, k) then (front.0, front.1 + [items[i]]) else (front.0 + [(k, items[i])], front.1)
  {
    assert items[..i + 1][..i] == items[..i];
  }

  /**
   * The first-wins index holds each key once, exactly the keys some item has, and under each
   * key the first item that has it.
   */
  lemma {:induction false} FirstWinsIndex(items: seq<ModuleItem>, composite: bool, k: string)
    ensures NoDuplicates(IndexKeys(FirstWins(items, composite).0))
    ensures IndexGet(FirstWins(items, composite).0, k) ==
      if FirstWith(items, composite, k).Some? then Some(items[FirstWith(items, composite, k).value]) else None
  {
    if items != [] {
      var n := |items| - 1;
      var pre := items[..n];
      var front := FirstWins(pre, composite);
      FirstWinsIndex(pre, composite, k);
      var kn := KeyOf(composite, items[n]);
      FirstWinsIndex(pre, composite, kn);
      FirstWithStep(items, composite, k);
      if !IndexHas(front.0, kn) {
        IndexAppendNew(front.0, kn, items[n], k);
      }
    }
  }

  /** Adding an entry under a new key keeps the keys distinct and answers only that key anew. */
  lemma IndexAppendNew(ix: ItemIndex, kn: string, it: ModuleItem, k: string)
    requires NoDuplicates(IndexKeys(ix)) && !IndexHas(ix, kn)
    ensures NoDuplicates(IndexKeys(ix + [(kn, it)]))
    ensures IndexGet(ix + [(kn, it)], k) ==
      if IndexGet(ix, k).Some? then IndexGet(ix, k) else if kn == k then Some(it) else None
  {
    var ix2 := ix + [(kn, it)];
    forall i, j | 0 <= i < j < |ix2| ensures IndexKeys(ix2)[i] != IndexKeys(ix2)[j] {
      if j < |ix| { assert IndexKeys(ix)[i] != IndexKeys(ix)[j]; }
      else { assert ix2[i] == ix[i]; }
    }
    assert ix2[..|ix|] == ix;
  }

  lemma FirstWithStep(items: seq<ModuleItem>, composite: bool, k: string)
    requires items != []
    ensures var n := |items| - 1;
      FirstWith(items, composite, k) ==
        if FirstWith(items[..n], composite, k).Some? then FirstWith(items[..n], composite, k)
        else if KeyOf(composite, items[n]) == k then Some(n) else None
    ensures var n := |items| - 1;
      FirstWith(items[..n], composite, k).Some? ==>
        (items[FirstWith(items[..n], composite, k).value] == items[..n][FirstWith(items[..n], composite, k).value])
  {
  }

  /** A duplicate is an item whose key an earlier item already had. */
  lemma {:induction false} FirstWinsDuplicates(items: seq<ModuleItem>, composite: bool)
    ensures forall d :: d in FirstWins(items, composite).1 ==>
      (d in items && IndexHas(FirstWins(items, composite).0, KeyOf(composite, d)))
  {
    if items != [] {
      var n := |items| - 1;
      var pre := items[..n];
      FirstWinsDuplicates(pre, composite);
      var front := FirstWins(pre, composite);
      var r := FirstWins(items, composite);
      forall d | d in r.1 ensures d in items && IndexHas(r.0, KeyOf(composite, d)) {
        if d in front.1 {
          assert d in pre;
          var i :| 0 <= i < |front.0| && front.0[i].0 == KeyOf(composite, d);
          assert r.0[i] == front.0[i];
        } else {
          assert d == items[n];
        }
      }
    }
  }

  /** The loop filling an index by key, first one kept. */
  method IndexItems(items: seq<ModuleItem>, composite: bool) returns (ix: ItemIndex, dups: seq<ModuleItem>)
    ensures (ix, dups) == FirstWins(items, composite)
  {
    ix := [];
    dups := [];
    for i := 0 to |items|
      invariant (ix, dups) == FirstWins(items[..i], composite)
    {
      FirstWinsStep(items, composite, i);
      var k := KeyOf(composite, items[i]);
      var found := IndexGet(ix, k);
      if found.Some? {
        dups := dups + [items[i]];
      } else {
        ix := ix + [(k, items[i])];
      }
    }
    assert items[..|items|] == items;
  }

  // ------------------------------------------------------------------ the module files

  /** One module file after parsing: its path, its items, whether it was readable, whether ids were written into it. */
  datatype ParsedFile = ParsedFile(rel: string, items: seq<ModuleItem>, valid: bool, injected: bool)

  /** `module_items_by_file`: the readable files with their items, in order. */
  function ItemsByFile(files: seq<ParsedFile>): (r: seq<(string, seq<ModuleItem>)>)
    ensures forall p :: p in r <==> exists i :: 0 <= i < |files| && files[i].valid && p == (files[i].rel, files[i].items)
  {
    var f := (x: ParsedFile) => if x.valid then Some((x.rel, x.items)) else None;
    FilterMapAll(files, f);
    FilterMap(files, f)
  }

  lemma FilterMapAll(files: seq<ParsedFile>, f: ParsedFile -> Option<(string, seq<ModuleItem>)>)
    ensures forall p :: p in FilterMap(files, f) <==> exists i :: 0 <= i < |files| && f(files[i]) == Some(p)
  {
    forall p ensures p in FilterMap(files, f) <==> exists i :: 0 <= i < |files| && f(files[i]) == Some(p) {
      FilterMapMembers(files, f, p);
    }
  }

  /** `invalid_module_files`. */
  function InvalidFiles(files: seq<ParsedFile>): (r: set<string>)
    ensures forall p :: p in r <==> exists i :: 0 <= i < |files| && !files[i].valid && files[i].rel == p
  {
    set i | 0 <= i < |files| && !files[i].valid :: files[i].rel
  }

  /** The items of the readable files, file after file. */
  function ModuleItemsInOrder(files: seq<ParsedFile>): seq<ModuleItem>
  {
    if files == [] then []
    else
      var n := |files| - 1;
      ModuleItemsInOrder(files[..n]) + (if files[n].valid then files[n].items else [])
  }

  /** `modules_injected`: some readable file had an id written into it. */
  predicate ModulesInjected(files: seq<ParsedFile>)
  {
    exists i :: 0 <= i < |files| && files[i].valid && files[i].injected
  }

  /** An item of a readable file is among the module items. */
  lemma {:induction false} ModuleItemsInOrderHas(files: seq<ParsedFile>, i: nat, j: nat)
    requires i < |files| && files[i].valid && j < |files[i].items|
    ensures files[i].items[j] in ModuleItemsInOrder(files)
  {
    var n := |files| - 1;
    if i < n {
      assert files[..n][i] == files[i];
      ModuleItemsInOrderHas(files[..n], i, j);
    } else {
      assert ModuleItemsInOrder(files) == ModuleItemsInOrder(files[..n]) + files[n].items;
      assert ModuleItemsInOrder(files)[|ModuleItemsInOrder(files[..n])| + j] == files[n].items[j];
    }
  }

  /** The duplicate warnings of an index: module files keep the first copy, the domain file only reports. */
  function DuplicateMessage(what: string, composite: bool, it: ModuleItem, keepingFirst: bool): string
  {
    "Duplicate " + what + " " + KeyOf(composite, it) + " in " + it.source + (if keepingFirst then "; keeping first." else ".")
  }

  function DuplicateMessages(what: string, composite: bool, dups: seq<ModuleItem>, keepingFirst: bool): (r: seq<string>)
    ensures |r| == |dups| && forall i :: 0 <= i < |dups| ==> r[i] == DuplicateMessage(what, composite, dups[i], keepingFirst)
  {
    seq(|dups|, i requires 0 <= i < |dups| => DuplicateMessage(what, composite, dups[i], keepingFirst))
  }

  // ------------------------------------------------------------------ the mapping index

  /** `str(entry.get(k))`: "None" when absent. */
  function StrOfGet(entry: Value, k: string): string
  {
    match Lookup(entry, k)
    case None => "None"
    case Some(v) => PyStr(v)
  }

  /** `_mapping_entry_key`: `helper_type:id` when the entry names a helper type, else the id as text. */
  function MappingEntryKey(entry: Value): (r: string)
    ensures Lookup(entry, "helper_type").Some? && Truthy(Lookup(entry, "helper_type").value) ==>
      r == PyStr(Lookup(entry, "helper_type").value) + ":" + StrOfGet(entry, "id")
    ensures !(Lookup(entry, "helper_type").Some? && Truthy(Lookup(entry, "helper_type").value)) ==>
      r == StrOfGet(entry, "id")
  {
    var ht := Lookup(entry, "helper_type");
    if ht.Some? && Truthy(ht.value) then PyStr(ht.value) + ":" + StrOfGet(entry, "id")
    else StrOfGet(entry, "id")
  }

  /** An entry without an id (or with an empty key) is not indexed. */
  predicate Indexable(key: Value -> string, entry: Value)
  {
    key(entry) != "" && key(entry) != "None"
  }

  /** Entries indexed by `key`; a later entry under the same key replaces an earlier one in its place. */
  function IndexBy(entries: seq<Value>, key: Value -> string): (r: seq<(string, Value)>)
    ensures UniqueKeys(r)
  {
    if entries == [] then []
    else
      var n := |entries| - 1;
      var front := IndexBy(entries[..n], key);
      if Indexable(key, entries[n]) then
        PutUnique(front, key(entries[n]), entries[n]);
        Put(front, key(entries[n]), entries[n])
      else front
  }

  /** The stored entries indexed by `_mapping_entry_key`. */
  function StoredIndex(entries: seq<Value>): (r: seq<(string, Value)>)
    ensures UniqueKeys(r)
  {
    IndexBy(entries, MappingEntryKey)
  }

  /** The position of the last indexable entry under key `k`. */
  function LastWith(entries: seq<Value>, key: Value -> string, k: string): (r: Option<nat>)
    ensures r.Some? ==> r.value < |entries| && Indexable(key, entries[r.value]) && key(entries[r.value]) == k
    ensures r.Some? ==> forall j :: r.value < j < |entries| ==> !(Indexable(key, entries[j]) && key(entries[j]) == k)
    ensures r.None? ==> forall i :: 0 <= i < |entries| ==> !(Indexable(key, entries[i]) && key(entries[i]) == k)
  {
    if entries == [] then None
    else
      var n := |entries| - 1;
      if Indexable(key, entries[n]) && key(entries[n]) == k then Some(n)
      else
        var front := LastWith(entries[..n], key, k);
        assert forall i :: 0 <= i < n ==> entries[i] == entries[..n][i];
        front
  }

  /** Under each key the index holds the last indexable entry with that key, and nothing under other keys. */
  lemma {:induction false} IndexByGet(entries: seq<Value>, key: Value -> string, k: string)
    ensures Get(IndexBy(entries, key), k) ==
      if LastWith(entries, key, k).Some? then Some(entries[LastWith(entries, key, k).value]) else None
  {
    if entries != [] {
      var n := |entries| - 1;
      var pre := entries[..n];
      IndexByGet(pre, key, k);
      var front := IndexBy(pre, key);
      if Indexable(key, entries[n]) {
        PutGet(front, key(entries[n]), entries[n], k);
      }
      var l := LastWith(pre, key, k);
      if l.Some? { assert entries[l.value] == pre[l.value]; }
    }
  }

  /** `d.get` past a first entry. */
  lemma GetCons(k1: string, v1: Value, rest: seq<(string, Value)>, k: string)
    ensures Get([(k1, v1)] + rest, k) == if k == k1 then Some(v1) else Get(rest, k)
  {
    assert ([(k1, v1)] + rest)[1..] == rest;
  }

  /** What the mapping records for a module item: id, (helper type,) file, name and fingerprint. */
  function ModuleRecord(composite: bool, it: ModuleItem): (r: Value)
    ensures r.Map? && Get(r.entries, "id") == Some(Str(it.haId)) && Get(r.entries, "source") == Some(Str(it.source))
    ensures composite ==> Get(r.entries, "helper_type") == Some(HelperValue(it))
  {
    var name := if it.name.Some? then Str(it.name.value) else Null;
    var tail := [("source", Str(it.source))] + [("name", name), ("fingerprint", Str(it.fingerprint))];
    GetCons("source", Str(it.source), [("name", name), ("fingerprint", Str(it.fingerprint))], "source");
    if composite then
      var es := [("id", Str(it.haId))] + ([("helper_type", HelperValue(it))] + tail);
      GetCons("id", Str(it.haId), [("helper_type", HelperValue(it))] + tail, "id");
      GetCons("id", Str(it.haId), [("helper_type", HelperValue(it))] + tail, "source");
      GetCons("id", Str(it.haId), [("helper_type", HelperValue(it))] + tail, "helper_type");
      GetCons("helper_type", HelperValue(it), tail, "source");
      GetCons("helper_type", HelperValue(it), tail, "helper_type");
      Map(es)
    else
      var es := [("id", Str(it.haId))] + tail;
      GetCons("id", Str(it.haId), tail, "id");
      GetCons("id", Str(it.haId), tail, "source");
      Map(es)
  }

  function HelperValue(it: ModuleItem): Value
  {
    if it.helperType.Some? then Str(it.helperType.value) else Null
  }

  /** What the mapping records for an item only the domain file has: it belongs to the unassigned file. */
  function DomainRecord(composite: bool, it: ModuleItem, unassigned: string): (r: Value)
    ensures r.Map? && Get(r.entries, "id") == Some(Str(it.haId)) && Get(r.entries, "source") == Some(Str(unassigned))
    ensures composite ==> Get(r.entries, "helper_type") == Some(HelperValue(it))
  {
    if composite then
      GetTriple("id", Str(it.haId), "helper_type", HelperValue(it), "source", Str(unassigned), "source");
      GetTriple("id", Str(it.haId), "helper_type", HelperValue(it), "source", Str(unassigned), "id");
      GetTriple("id", Str(it.haId), "helper_type", HelperValue(it), "source", Str(unassigned), "helper_type");
      Map([("id", Str(it.haId)), ("helper_type", HelperValue(it)), ("source", Str(unassigned))])
    else
      GetPair("id", Str(it.haId), "source", Str(unassigned), "source");
      GetPair("id", Str(it.haId), "source", Str(unassigned), "id");
      Map([("id", Str(it.haId)), ("source", Str(unassigned))])
  }

  /** Every module item overrides what was stored under its key (`rec` builds its record). */
  function WithModules(ix: seq<(string, Value)>, modules: ItemIndex, rec: ModuleItem -> Value): (r: seq<(string, Value)>)
    requires UniqueKeys(ix)
    ensures UniqueKeys(r)
  {
    if modules == [] then ix
    else
      var n := |modules| - 1;
      var front := WithModules(ix, modules[..n], rec);
      PutUnique(front, modules[n].0, rec(modules[n].1));
      Put(front, modules[n].0, rec(modules[n].1))
  }

  /** Every domain item not yet known is added (`rec` builds its record). */
  function WithDomain(ix: seq<(string, Value)>, domain: ItemIndex, rec: ModuleItem -> Value): (r: seq<(string, Value)>)
    requires UniqueKeys(ix)
    ensures UniqueKeys(r)
  {
    if domain == [] then ix
    else
      var n := |domain| - 1;
      var front := WithDomain(ix, domain[..n], rec);
      if HasKey(front, domain[n].0) then front
      else
        PutUnique(front, domain[n].0, rec(domain[n].1));
        Put(front, domain[n].0, rec(domain[n].1))
  }

  /** `mapping_index` of `_sync_list_domain`: stored entries, then the module items, then the domain-only items. */
  function MappingIndex(stored: seq<Value>, modules: ItemIndex, domain: ItemIndex, composite: bool, unassigned: string)
    : (r: seq<(string, Value)>)
    ensures UniqueKeys(r)
  {
    WithDomain(WithModules(StoredIndex(stored), modules, it => ModuleRecord(composite, it)), domain,
               it => DomainRecord(composite, it, unassigned))
  }

  /** A module item's key reads as its module record, whatever was stored under it. */
  lemma {:induction false} WithModulesGet(ix: seq<(string, Value)>, modules: ItemIndex, rec: ModuleItem -> Value, k: string)
    requires UniqueKeys(ix) && NoDuplicates(IndexKeys(modules))
    ensures Get(WithModules(ix, modules, rec), k) ==
      if IndexHas(modules, k) then Some(rec(IndexGet(modules, k).value)) else Get(ix, k)
  {
    if modules != [] {
      var n := |modules| - 1;
      var pre := modules[..n];
      assert IndexKeys(pre) == IndexKeys(modules)[..n];
      WithModulesGet(ix, pre, rec, k);
      var front := WithModules(ix, pre, rec);
      PutGet(front, modules[n].0, rec(modules[n].1), k);
      if k == modules[n].0 {
        assert IndexGet(modules, k) == Some(modules[n].1) by {
          forall i | 0 <= i < n ensures pre[i].0 != k {
            assert IndexKeys(modules)[i] != IndexKeys(modules)[n];
          }
        }
      }
    }
  }

  /** A domain key reads as before when known, and as its domain record otherwise. */
  lemma {:induction false} WithDomainGet(ix: seq<(string, Value)>, domain: ItemIndex, rec: ModuleItem -> Value, k: string)
    requires UniqueKeys(ix) && NoDuplicates(IndexKeys(domain))
    ensures Get(WithDomain(ix, domain, rec), k) ==
      if HasKey(ix, k) then Get(ix, k)
      else if IndexHas(domain, k) then Some(rec(IndexGet(domain, k).value))
      else None
  {
    if domain != [] {
      var n := |domain| - 1;
      var pre := domain[..n];
      assert IndexKeys(pre) == IndexKeys(domain)[..n];
      WithDomainGet(ix, pre, rec, k);
      var front := WithDomain(ix, pre, rec);
      if !HasKey(front, domain[n].0) {
        PutGet(front, domain[n].0, rec(domain[n].1), k);
      }
      if k == domain[n].0 {
        assert !IndexHas(pre, k) && IndexGet(domain, k) == Some(domain[n].1) by {
          forall i | 0 <= i < n ensures pre[i].0 != k {
            assert IndexKeys(domain)[i] != IndexKeys(domain)[n];
          }
        }
      }
    }
  }

  /**
   * What the mapping index says: a module item's key names its own file; a key only the
   * domain file has names the unassigned file unless a stored entry already placed it; a key
   * stored but absent from modules keeps its (last) stored entry.
   */
  lemma MappingIndexGet(stored: seq<Value>, modules: ItemIndex, domain: ItemIndex, composite: bool,
                        unassigned: string, k: string)
    requires NoDuplicates(IndexKeys(modules)) && NoDuplicates(IndexKeys(domain))
    ensures var r := MappingIndex(stored, modules, domain, composite, unassigned);
      Get(r, k) ==
        if IndexHas(modules, k) then Some(ModuleRecord(composite, IndexGet(modules, k).value))
        else if HasKey(StoredIndex(stored), k) then Get(StoredIndex(stored), k)
        else if IndexHas(domain, k) then Some(DomainRecord(composite, IndexGet(domain, k).value, unassigned))
        else None
  {
    var s := StoredIndex(stored);
    var mrec := it => ModuleRecord(composite, it);
    var m := WithModules(s, modules, mrec);
    WithModulesGet(s, modules, mrec, k);
    WithDomainGet(m, domain, it => DomainRecord(composite, it, unassigned), k);
  }
}
