/**
 * Reading whole module files and domain files (yaml_modules.py `_parse_list_module_file`,
 * `_parse_mapping_module_file`, `_parse_lovelace_module`, their domain-file twins, and the
 * two reading loops of `_sync_helpers`): what a file that fails to load, a blank file and a
 * file of the wrong shape give, and which items a well-shaped file gives.
 */
module ModuleFiles {
  import opened Wrappers
  import opened Text
  import opened Yaml
  import opened YamlTags
  import opened Fingerprints
  import opened ItemIds
  import opened ModuleDomains
  import opened ModuleItems
  import opened SyncIndex
  import opened SyncOutput

  /** A warning recorded while reading a file. */
  datatype FileNote =
    | LoadError(rel: string, message: string)
    | FileNotAMap(rel: string)
    | ViewsNotAList(rel: string)
    | NotListOrMap(rel: string)
    | GroupNotAMap(rel: string, helperType: string)
    | ItemNote(n: ParseNote)

  function FileNoteMessage(n: FileNote): string
  {
    match n
    case LoadError(rel, message) => LoadErrorText(rel, message)
    case FileNotAMap(rel) => rel + " is not a map."
    case ViewsNotAList(rel) => rel + " views is not a list."
    case NotListOrMap(rel) => rel + " is not a list or map."
    case GroupNotAMap(rel, ht) => rel + " " + ht + " is not a map."
    case ItemNote(p) => ParseNoteMessage(p)
  }

  function ItemNotes(ns: seq<ParseNote>): (r: seq<FileNote>)
    ensures |r| == |ns| && forall i :: 0 <= i < |ns| ==> r[i] == ItemNote(ns[i])
  {
    seq(|ns|, i requires 0 <= i < |ns| => ItemNote(ns[i]))
  }

  /** The notes of an expansion's warnings. */
  function WarningNotes(ws: seq<Warning>): (r: seq<FileNote>)
    ensures |r| == |ws| && forall i :: 0 <= i < |ws| ==> r[i] == ItemNote(ExpandNote(ws[i]))
  {
    ItemNotes(ExpandNotes(ws))
  }

  /** The document of a file that loaded: its data, or `None` for a blank file. */
  function Document(c: FileContent): Value
  {
    if c.Parsed? then c.value else Null
  }

  /** The line numbers `yaml_load` gives: one per entry of a top-level list, none otherwise. */
  function LinesOf(f: ModuleFile): seq<int>
  {
    if f.content.Parsed? && f.content.value.Seq? then f.lines else []
  }

  // ------------------------------------------------------------------ list files

  /** What `_parse_list_module_file` returns, with the warnings and the ids taken afterwards. */
  datatype ListFile = ListFile(items: seq<ModuleItem>, data: Value, changed: bool, valid: bool,
                               notes: seq<FileNote>, used: set<string>)

  /**
   * `_parse_list_module_file` and `_parse_list_domain`: a file that fails to load is invalid
   * and gives nothing; otherwise its document is read as a list of items and handed back as
   * `data or []`.
   */
  function ParseListFile(h: Value -> string, fs: Fs, spec: DomainSpec, f: ModuleFile, used: set<string>): (r: ListFile)
    ensures r.valid <==> !f.content.Invalid?
    ensures f.content.Invalid? ==>
      r == ListFile([], Seq([]), false, false, [LoadError(f.rel, f.content.message)], used)
    ensures !f.content.Invalid? ==> r.data == PyOr(Document(f.content), Seq([]))
    ensures !f.content.Invalid? && Document(f.content).Null? ==> r.items == [] && !r.changed && r.notes == [] && r.used == used
    ensures !f.content.Invalid? && !Document(f.content).Null? && !Document(f.content).Seq? ==>
      r.items == [] && !r.changed && r.notes == [ItemNote(NotAList(f.rel))] && r.used == used
  {
    if f.content.Invalid? then ListFile([], Seq([]), false, false, [LoadError(f.rel, f.content.message)], used)
    else
      var data := Document(f.content);
      var p := ParseListItems(h, fs, spec, f.rel, data, LinesOf(f), used);
      ListFile(p.items, PyOr(data, Seq([])), p.changed, true, ItemNotes(p.notes), p.used)
  }

  /**
   * The items of a list file that loaded as a list come from its map entries, in order, with
   * their own or written-in ids, and every id they carry is taken afterwards.
   */
  lemma ListFileItems(h: Value -> string, fs: Fs, spec: DomainSpec, f: ModuleFile, used: set<string>)
    requires f.content.Parsed? && f.content.value.Seq?
    ensures var r := ParseListFile(h, fs, spec, f, used);
      r.valid && r.used == used + IdsOf(r.items) && ItemsMatch(spec, f.rel, r.items, f.content.value.items)
  {
    ParseListItemsShape(h, fs, spec, f.rel, f.content.value.items, LinesOf(f), used);
  }

  // ------------------------------------------------------------------ dict entries as items

  /** `if expanded is SKIP: expanded = None`. */
  function Settled(e: Option<Value>): (r: Value)
    ensures e.Some? ==> r == e.value
    ensures e.None? ==> r == Null
  {
    if e.Some? then e.value else Null
  }

  /**
   * `expand_includes(value, base_path=<the file>, resolve_templates=True, resolve_ha_includes=rh)`
   * for the values of one file.
   */
  function Expander(fs: Fs, rel: string, rh: bool): Value -> Expanded
  {
    v => Expand(fs, Some(v), rel, true, rh, 0)
  }

  /** The item one dict entry gives, with the warnings of expanding it with `xp`. */
  function EntryItem(h: Value -> string, xp: Value -> Expanded, rel: string, ht: Option<string>,
                     idx: nat, key: string, value: Value): (ModuleItem, seq<Warning>)
  {
    var x := Settled(xp(value).0);
    (ModuleItem(key, value, rel, idx, ItemName(x), Fingerprint(h, x, {}), ht, Some(x), None), xp(value).1)
  }

  /** The items of a dict's entries, key after key, and the warnings in the order they arise. */
  function EntryItems(h: Value -> string, xp: Value -> Expanded, rel: string, ht: Option<string>,
                      es: seq<(string, Value)>): (r: (seq<ModuleItem>, seq<Warning>))
    ensures |r.0| == |es|
    ensures forall i :: 0 <= i < |es| ==> r.0[i] == EntryItem(h, xp, rel, ht, i, es[i].0, es[i].1).0
  {
    (seq(|es|, i requires 0 <= i < |es| => EntryItem(h, xp, rel, ht, i, es[i].0, es[i].1).0), EntryWarnings(xp, es))
  }

  /** The warnings of expanding a dict's values, value after value. */
  function EntryWarnings(xp: Value -> Expanded, es: seq<(string, Value)>): seq<Warning>
  {
    if es == [] then [] else EntryWarnings(xp, es[..|es| - 1]) + xp(es[|es| - 1].1).1
  }

  /**
   * Every entry of a dict gives one item, in order: its key is the id, its value the data,
   * its position the order; the item is expanded with SKIP read as `None`, named and
   * fingerprinted from that expansion.
   */
  lemma EntryItemsFields(h: Value -> string, xp: Value -> Expanded, rel: string, ht: Option<string>,
                         es: seq<(string, Value)>)
    ensures var r := EntryItems(h, xp, rel, ht, es).0;
      forall i :: 0 <= i < |r| ==>
        r[i].haId == es[i].0 && r[i].data == es[i].1 && r[i].order == i && r[i].source == rel &&
        r[i].helperType == ht && r[i].line.None? && r[i].expanded == Some(Settled(xp(es[i].1).0)) &&
        r[i].name == ItemName(r[i].expanded.value) && r[i].fingerprint == Fingerprint(h, r[i].expanded.value, {})
  {
  }

  lemma EntryItemsStep(h: Value -> string, xp: Value -> Expanded, rel: string, ht: Option<string>,
                       es: seq<(string, Value)>, i: nat)
    requires i < |es|
    ensures EntryItems(h, xp, rel, ht, es[..i + 1]) ==
      var front := EntryItems(h, xp, rel, ht, es[..i]);
      var e := EntryItem(h, xp, rel, ht, i, es[i].0, es[i].1);
      (front.0 + [e.0], front.1 + e.1)
  {
    assert es[..i + 1][..i] == es[..i];
    EntryItemsSnoc(h, xp, rel, ht, es, i);
  }

  lemma EntryItemsSnoc(h: Value -> string, xp: Value -> Expanded, rel: string, ht: Option<string>,
                       es: seq<(string, Value)>, i: nat)
    requires i < |es|
    ensures EntryItems(h, xp, rel, ht, es[..i + 1]).0 ==
      EntryItems(h, xp, rel, ht, es[..i]).0 + [EntryItem(h, xp, rel, ht, i, es[i].0, es[i].1).0]
  {
    var front := EntryItems(h, xp, rel, ht, es[..i]).0;
    var next := EntryItems(h, xp, rel, ht, es[..i + 1]).0;
    var e := EntryItem(h, xp, rel, ht, i, es[i].0, es[i].1).0;
    forall k | 0 <= k < i ensures next[k] == front[k] {
      assert es[..i + 1][k] == es[..i][k];
    }
    assert es[..i + 1][i] == es[i];
    SnocOf(next, front, e);
  }

  /** A sequence that extends `front` by one element `e` is `front + [e]`. */
  lemma SnocOf<T>(next: seq<T>, front: seq<T>, e: T)
    requires |next| == |front| + 1 && next[|front|] == e
    requires forall k :: 0 <= k < |front| ==> next[k] == front[k]
    ensures next == front + [e]
  {
  }

  /** The loop over `data.items()` that builds the items of a mapping or helper dict. */
  method ReadEntries(h: Value -> string, xp: Value -> Expanded, rel: string, ht: Option<string>,
                     es: seq<(string, Value)>) returns (items: seq<ModuleItem>, warnings: seq<Warning>)
    ensures (items, warnings) == EntryItems(h, xp, rel, ht, es)
  {
    items, warnings := [], [];
    for i := 0 to |es|
      invariant (items, warnings) == EntryItems(h, xp, rel, ht, es[..i])
    {
      EntryItemsStep(h, xp, rel, ht, es, i);
      var e := EntryItem(h, xp, rel, ht, i, es[i].0, es[i].1);
      items := items + [e.0];
      warnings := warnings + e.1;
    }
    assert es[..|es|] == es;
  }

  lemma PrefixCancel(p: string, a: string, b: string)
    requires p + a == p + b
    ensures a == b
  {
    assert a == (p + a)[|p|..];
    assert b == (p + b)[|p|..];
  }

  /** Items under pairwise different keys are all indexed, in order, and none is a duplicate. */
  lemma {:induction false} FirstWinsDistinct(items: seq<ModuleItem>, composite: bool)
    requires forall i, j :: 0 <= i < j < |items| ==> KeyOf(composite, items[i]) != KeyOf(composite, items[j])
    ensures FirstWins(items, composite).1 == []
    ensures |FirstWins(items, composite).0| == |items|
    ensures forall i :: 0 <= i < |items| ==> FirstWins(items, composite).0[i] == (KeyOf(composite, items[i]), items[i])
  {
    if items != [] {
      var n := |items| - 1;
      var pre := items[..n];
      FirstWinsDistinct(pre, composite);
      var front := FirstWins(pre, composite);
      var k := KeyOf(composite, items[n]);
      forall i | 0 <= i < |front.0| ensures front.0[i].0 != k {
        assert front.0[i].0 == KeyOf(composite, items[i]);
      }
      assert !IndexHas(front.0, k);
    }
  }

  /** Items carrying the keys of a dict, under one helper type, have pairwise different index keys. */
  lemma DistinctKeys(items: seq<ModuleItem>, es: seq<(string, Value)>, ht: Option<string>, composite: bool)
    requires UniqueKeys(es) && |items| == |es|
    requires forall i :: 0 <= i < |items| ==> items[i].haId == es[i].0 && items[i].helperType == ht
    ensures forall i, j :: 0 <= i < j < |items| ==> KeyOf(composite, items[i]) != KeyOf(composite, items[j])
  {
    forall i, j | 0 <= i < j < |items| ensures KeyOf(composite, items[i]) != KeyOf(composite, items[j]) {
      assert Keys(es)[i] != Keys(es)[j];
      if composite {
        var p := HelperTypeText(ht) + ":";
        assert KeyOf(composite, items[i]) == p + es[i].0;
        assert KeyOf(composite, items[j]) == p + es[j].0;
        if p + es[i].0 == p + es[j].0 {
          PrefixCancel(p, es[i].0, es[j].0);
        }
      }
    }
  }

  /**
   * The items of one dict never clash: indexing them, by id or by `helper_type:id` under one
   * helper type, keeps every item, in order, and reports no duplicate.
   */
  lemma EntryItemsIndexed(h: Value -> string, xp: Value -> Expanded, rel: string, ht: Option<string>,
                          es: seq<(string, Value)>, composite: bool)
    requires UniqueKeys(es)
    ensures var items := EntryItems(h, xp, rel, ht, es).0;
      FirstWins(items, composite).1 == [] && |FirstWins(items, composite).0| == |items| &&
      forall i :: 0 <= i < |items| ==> FirstWins(items, composite).0[i] == (KeyOf(composite, items[i]), items[i])
  {
    var items := EntryItems(h, xp, rel, ht, es).0;
    EntryItemsFields(h, xp, rel, ht, es);
    DistinctKeys(items, es, ht, composite);
    FirstWinsDistinct(items, composite);
  }

  // ------------------------------------------------------------------ mapping files

  /** What `_parse_mapping_module_file` returns (it never changes a file), with its warnings. */
  datatype MappingFile = MappingFile(items: seq<ModuleItem>, data: seq<(string, Value)>, valid: bool, notes: seq<FileNote>)

  /**
   * `_parse_mapping_module_file` and `_parse_mapping_domain`: a file that fails to load is
   * invalid; a blank one is an empty dict; a document that is not a dict is refused with a
   * warning but the file still counts as valid; a dict gives one item per key, in order.
   * `rh` is `resolve_ha_includes`.
   */
  function ParseMappingFile(h: Value -> string, fs: Fs, f: ModuleFile, rh: bool): (r: MappingFile)
    ensures r.valid <==> !f.content.Invalid?
    ensures f.content.Invalid? ==> r == MappingFile([], [], false, [LoadError(f.rel, f.content.message)])
    ensures f.content.Blank? ==> r == MappingFile([], [], true, [])
    ensures Document(f.content).Map? ==> r.data == Document(f.content).entries
    ensures !f.content.Invalid? && !Document(f.content).Map? && !Document(f.content).Null? ==>
      r == MappingFile([], [], true, [FileNotAMap(f.rel)])
    ensures |r.items| == |r.data|
    ensures forall i :: 0 <= i < |r.items| ==>
      r.items[i].haId == r.data[i].0 && r.items[i].data == r.data[i].1 && r.items[i].order == i &&
      r.items[i].source == f.rel && r.items[i].helperType.None?
  {
    if f.content.Invalid? then MappingFile([], [], false, [LoadError(f.rel, f.content.message)])
    else
      var data := Document(f.content);
      if data.Null? then MappingFile([], [], true, [])
      else if !data.Map? then MappingFile([], [], true, [FileNotAMap(f.rel)])
      else
        var r := EntryItems(h, Expander(fs, f.rel, rh), f.rel, None, data.entries);
        EntryItemsFields(h, Expander(fs, f.rel, rh), f.rel, None, data.entries);
        MappingFile(r.0, data.entries, true, WarningNotes(r.1))
  }

  /** A mapping domain file that is a dict never reports a duplicate id: its keys are its ids. */
  lemma MappingDomainNoDuplicates(h: Value -> string, fs: Fs, f: ModuleFile, rh: bool)
    requires Document(f.content).Map? && UniqueKeys(Document(f.content).entries)
    ensures var r := ParseMappingFile(h, fs, f, rh);
      FirstWins(r.items, false).1 == [] && IndexKeys(FirstWins(r.items, false).0) == Keys(r.data)
  {
    var es := Document(f.content).entries;
    var items := ParseMappingFile(h, fs, f, rh).items;
    EntryItemsIndexed(h, Expander(fs, f.rel, rh), f.rel, None, es, false);
    EntryItemsFields(h, Expander(fs, f.rel, rh), f.rel, None, es);
    assert IndexKeys(FirstWins(items, false).0) == Keys(es);
  }

  // ------------------------------------------------------------------ lovelace files

  /** `LovelaceModule`, with the warnings of reading it. */
  datatype LovelaceModule = LovelaceModule(rel: string, dictShaped: bool, views: seq<ModuleItem>,
                                           meta: seq<(string, Value)>, changed: bool, valid: bool,
                                           notes: seq<FileNote>)

  /** `data.get("views") or []`, refused with a warning unless it is a list. */
  function ViewsEntry(rel: string, es: seq<(string, Value)>): (r: (Value, seq<FileNote>))
    ensures r.0.Seq?
    ensures Get(es, "views").Some? && Get(es, "views").value.Seq? ==> r == (Get(es, "views").value, [])
    ensures Get(es, "views").Some? && Truthy(Get(es, "views").value) && !Get(es, "views").value.Seq? ==>
      r == (Seq([]), [ViewsNotAList(rel)])
    ensures (Get(es, "views").None? || !Truthy(Get(es, "views").value)) ==> r.0 == Seq([]) && r.1 == []
  {
    var v := Get(es, "views");
    if v.None? || !Truthy(v.value) then (Seq([]), [])
    else if v.value.Seq? then (v.value, [])
    else (Seq([]), [ViewsNotAList(rel)])
  }

  /** The shape of a lovelace module's document: dict-shaped or not, its views, its meta, a warning. */
  function LovelaceShape(rel: string, data: Value): (r: (bool, Value, seq<(string, Value)>, seq<FileNote>))
    ensures r.1.Seq? && !HasKey(r.2, "views")
    ensures r.0 <==> data.Map?
    ensures data.Map? ==> (r.1, r.3) == ViewsEntry(rel, data.entries) && r.2 == Remove(data.entries, "views")
    ensures data.Null? ==> r == (false, Seq([]), [], [])
    ensures data.Seq? ==> r == (false, data, [], [])
    ensures !data.Null? && !data.Seq? && !data.Map? ==> r == (false, Seq([]), [], [NotListOrMap(rel)])
  {
    if data.Null? then (false, Seq([]), [], [])
    else if data.Seq? then (false, data, [], [])
    else if data.Map? then
      var v := ViewsEntry(rel, data.entries);
      (true, v.0, Remove(data.entries, "views"), v.1)
    else (false, Seq([]), [], [NotListOrMap(rel)])
  }

  /**
   * `_parse_lovelace_module`: a list of views, or a dict whose `views` are the views and whose
   * other keys are the dashboard's meta; blank is an empty list; a file that fails to load is
   * invalid and reads as an empty list.
   */
  function ParseLovelaceModule(h: Value -> string, fs: Fs, f: ModuleFile): (r: LovelaceModule)
    ensures r.rel == f.rel && (r.valid <==> !f.content.Invalid?)
    ensures f.content.Invalid? ==> r == LovelaceModule(f.rel, false, [], [], false, false, [LoadError(f.rel, f.content.message)])
    ensures r.dictShaped <==> Document(f.content).Map?
    ensures !HasKey(r.meta, "views")
    ensures !Document(f.content).Map? ==> r.meta == []
    ensures Document(f.content).Map? ==> r.meta == Remove(Document(f.content).entries, "views")
  {
    if f.content.Invalid? then LovelaceModule(f.rel, false, [], [], false, false, [LoadError(f.rel, f.content.message)])
    else
      var shape := LovelaceShape(f.rel, Document(f.content));
      var p := ParseListItems(h, fs, LovelaceSpec, f.rel, shape.1, LinesOf(f), {});
      LovelaceModule(f.rel, shape.0, p.items, shape.2, p.changed, true, shape.3 + ItemNotes(p.notes))
  }

  /** The views of a readable lovelace module come from the map entries of its list of views. */
  lemma LovelaceModuleViews(h: Value -> string, fs: Fs, f: ModuleFile)
    requires !f.content.Invalid?
    ensures var r := ParseLovelaceModule(h, fs, f);
      ItemsMatch(LovelaceSpec, f.rel, r.views, LovelaceShape(f.rel, Document(f.content)).1.items)
  {
    var shape := LovelaceShape(f.rel, Document(f.content));
    ParseListItemsShape(h, fs, LovelaceSpec, f.rel, shape.1.items, LinesOf(f), {});
  }

  lemma {:induction false} RemoveUnique(es: seq<(string, Value)>, k: string)
    requires UniqueKeys(es)
    ensures UniqueKeys(Remove(es, k))
  {
    if es != [] {
      var tail := es[1..];
      assert Keys(tail) == Keys(es)[1..];
      RemoveUnique(tail, k);
      if es[0].0 != k {
        var rest := Remove(tail, k);
        forall i | 0 <= i < |rest| ensures rest[i].0 != es[0].0 {
          assert HasKey(rest, rest[i].0);
          var j :| 0 <= j < |tail| && tail[j] == (rest[i].0, Get(tail, rest[i].0).value);
          assert Keys(es)[j + 1] == rest[i].0;
          assert Keys(es)[0] != Keys(es)[j + 1];
        }
        assert Keys([es[0]] + rest) == [es[0].0] + Keys(rest);
      }
    }
  }

  /**
   * Reading a dict-shaped lovelace module and writing it back as `{"views": ..., **meta}`
   * keeps every key besides `views` as it was, and the views under `views`.
   */
  lemma LovelaceMetaRoundTrip(h: Value -> string, fs: Fs, f: ModuleFile, views: seq<Value>, k: string)
    requires Document(f.content).Map? && UniqueKeys(Document(f.content).entries)
    ensures var meta := ParseLovelaceModule(h, fs, f).meta;
      Get(ViewsWithMeta(views, meta).entries, k) ==
        if k == "views" then Some(Seq(views)) else Get(Document(f.content).entries, k)
  {
    var es := Document(f.content).entries;
    RemoveUnique(es, "views");
    ViewsWithMetaGet(views, Remove(es, "views"), k);
  }

  /** What `_parse_lovelace_domain` returns, with its warnings. */
  datatype LovelaceDomain = LovelaceDomain(items: seq<ModuleItem>, meta: seq<(string, Value)>, changed: bool,
                                           valid: bool, notes: seq<FileNote>)

  /**
   * `_parse_lovelace_domain`: only a dict is read (anything else is refused with a warning and
   * read as an empty dict); its `views` are the views and its other keys the meta.
   */
  function ParseLovelaceDomain(h: Value -> string, fs: Fs, f: ModuleFile): (r: LovelaceDomain)
    ensures r.valid <==> !f.content.Invalid?
    ensures f.content.Invalid? ==> r == LovelaceDomain([], [], false, false, [LoadError(f.rel, f.content.message)])
    ensures !HasKey(r.meta, "views")
    ensures Document(f.content).Map? ==> r.meta == Remove(Document(f.content).entries, "views")
    ensures !Document(f.content).Map? ==> r.meta == [] && r.items == [] && !r.changed
    ensures !f.content.Invalid? && !Document(f.content).Map? && !Document(f.content).Null? ==>
      r.notes == [FileNotAMap(f.rel)]
  {
    if f.content.Invalid? then LovelaceDomain([], [], false, false, [LoadError(f.rel, f.content.message)])
    else
      var data := Document(f.content);
      var es := if data.Map? then data.entries else [];
      var refused := if data.Null? || data.Map? then [] else [FileNotAMap(f.rel)];
      var v := ViewsEntry(f.rel, es);
      var p := ParseListItems(h, fs, LovelaceSpec, f.rel, v.0, LinesOf(f), {});
      LovelaceDomain(p.items, Remove(es, "views"), p.changed, true, refused + v.1 + ItemNotes(p.notes))
  }

  // ------------------------------------------------------------------ helper files

  /** A helpers module file as read: its items, whether it is readable, its warnings. */
  datatype HelpersFile = HelpersFile(items: seq<ModuleItem>, valid: bool, notes: seq<FileNote>)

  /** The groups of a helpers module file: unknown helper types are skipped, non-dict groups refused. */
  function HelperGroups(h: Value -> string, xp: Value -> Expanded, rel: string, es: seq<(string, Value)>): (r: (seq<ModuleItem>, seq<FileNote>))
  {
    if es == [] then ([], [])
    else
      var n := |es| - 1;
      var front := HelperGroups(h, xp, rel, es[..n]);
      var ht := es[n].0;
      if ht !in HelperTypes then front
      else if !es[n].1.Map? then (front.0, front.1 + [GroupNotAMap(rel, ht)])
      else
        var g := EntryItems(h, xp, rel, Some(ht), es[n].1.entries);
        (front.0 + g.0, front.1 + WarningNotes(g.1))
  }

  lemma HelperGroupsStep(h: Value -> string, xp: Value -> Expanded, rel: string, es: seq<(string, Value)>, i: nat)
    requires i < |es|
    ensures HelperGroups(h, xp, rel, es[..i + 1]) ==
      var front := HelperGroups(h, xp, rel, es[..i]);
      var ht := es[i].0;
      if ht !in HelperTypes then front
      else if !es[i].1.Map? then (front.0, front.1 + [GroupNotAMap(rel, ht)])
      else
        var g := EntryItems(h, xp, rel, Some(ht), es[i].1.entries);
        (front.0 + g.0, front.1 + WarningNotes(g.1))
  {
    assert es[..i + 1][..i] == es[..i];
  }

  /** Whether group `j` of a helpers dict is read, and its entry `i` exists. */
  predicate GroupEntry(es: seq<(string, Value)>, j: int, i: int)
  {
    0 <= j < |es| && es[j].0 in HelperTypes && es[j].1.Map? && 0 <= i < |es[j].1.entries|
  }

  /** Every item of a helpers module file is of a known helper type and comes from that type's group. */
  lemma {:induction false} HelperGroupsSources(h: Value -> string, xp: Value -> Expanded, rel: string, es: seq<(string, Value)>)
    ensures var r := HelperGroups(h, xp, rel, es).0;
      forall x :: 0 <= x < |r| ==>
        r[x].source == rel && r[x].helperType.Some? &&
        exists j :: GroupEntry(es, j, r[x].order) && es[j].0 == r[x].helperType.value &&
          es[j].1.entries[r[x].order] == (r[x].haId, r[x].data)
  {
    if es != [] {
      var n := |es| - 1;
      var pre := es[..n];
      HelperGroupsSources(h, xp, rel, pre);
      HelperGroupsStep(h, xp, rel, es, n);
      assert es[..n + 1] == es;
      var front := HelperGroups(h, xp, rel, pre).0;
      var r := HelperGroups(h, xp, rel, es).0;
      assert r[..|front|] == front;
      forall x | 0 <= x < |r|
        ensures r[x].source == rel && r[x].helperType.Some? &&
          exists j :: GroupEntry(es, j, r[x].order) && es[j].0 == r[x].helperType.value &&
            es[j].1.entries[r[x].order] == (r[x].haId, r[x].data)
      {
        if x < |front| {
          assert r[x] == r[..|front|][x] == front[x];
          assert front[x].helperType.Some?;
          var j :| GroupEntry(pre, j, front[x].order) && pre[j].0 == front[x].helperType.value &&
            pre[j].1.entries[front[x].order] == (front[x].haId, front[x].data);
          assert pre[j] == es[j];
          assert GroupEntry(es, j, r[x].order);
        } else {
          var g := EntryItems(h, xp, rel, Some(es[n].0), es[n].1.entries).0;
          EntryItemsFields(h, xp, rel, Some(es[n].0), es[n].1.entries);
          assert r == front + g;
          assert r[x] == g[x - |front|];
          assert GroupEntry(es, n, r[x].order);
        }
      }
    }
  }

  /** Every entry of every known, dict-shaped group gives an item, with its key, value, position and type. */
  lemma {:induction false} HelperGroupsComplete(h: Value -> string, xp: Value -> Expanded, rel: string, es: seq<(string, Value)>,
                                                j: nat, i: nat)
    requires GroupEntry(es, j, i)
    ensures exists x :: (0 <= x < |HelperGroups(h, xp, rel, es).0| &&
      HelperGroups(h, xp, rel, es).0[x] == EntryItem(h, xp, rel, Some(es[j].0), i, es[j].1.entries[i].0, es[j].1.entries[i].1).0)
  {
    var n := |es| - 1;
    var pre := es[..n];
    HelperGroupsStep(h, xp, rel, es, n);
    assert es[..n + 1] == es;
    var front := HelperGroups(h, xp, rel, pre).0;
    var r := HelperGroups(h, xp, rel, es).0;
    var want := EntryItem(h, xp, rel, Some(es[j].0), i, es[j].1.entries[i].0, es[j].1.entries[i].1).0;
    if j < n {
      assert pre[j] == es[j];
      HelperGroupsComplete(h, xp, rel, pre, j, i);
      var x :| 0 <= x < |front| && front[x] == want;
      assert r[..|front|] == front;
      assert r[x] == want;
    } else {
      var g := EntryItems(h, xp, rel, Some(es[n].0), es[n].1.entries).0;
      assert r == front + g;
      assert r[|front| + i] == want;
    }
  }

  /** The loop over a helpers module file's groups and, inside it, over each group's entries. */
  method ReadHelperGroups(h: Value -> string, xp: Value -> Expanded, rel: string, es: seq<(string, Value)>)
    returns (items: seq<ModuleItem>, notes: seq<FileNote>)
    ensures (items, notes) == HelperGroups(h, xp, rel, es)
  {
    items, notes := [], [];
    for i := 0 to |es|
      invariant (items, notes) == HelperGroups(h, xp, rel, es[..i])
    {
      HelperGroupsStep(h, xp, rel, es, i);
      var ht := es[i].0;
      if ht !in HelperTypes {
        continue;
      }
      if !es[i].1.Map? {
        notes := notes + [GroupNotAMap(rel, ht)];
        continue;
      }
      var groupItems, warnings := ReadEntries(h, xp, rel, Some(ht), es[i].1.entries);
      items := items + groupItems;
      notes := notes + WarningNotes(warnings);
    }
    assert es[..|es|] == es;
  }

  /**
   * A helpers module file, as `_sync_helpers` reads it: a file that fails to load or holds something other than
   * a dict is invalid, and a blank one holds no helpers.
   */
  function ParseHelpersFile(h: Value -> string, fs: Fs, f: ModuleFile): (r: HelpersFile)
    ensures r.valid <==> !f.content.Invalid? && (Document(f.content).Null? || Document(f.content).Map?)
    ensures f.content.Invalid? ==> r == HelpersFile([], false, [LoadError(f.rel, f.content.message)])
    ensures !f.content.Invalid? && !Document(f.content).Null? && !Document(f.content).Map? ==>
      r == HelpersFile([], false, [FileNotAMap(f.rel)])
    ensures Document(f.content).Null? ==> r.items == []
    ensures Document(f.content).Map? ==> (r.items, r.notes) == HelperGroups(h, Expander(fs, f.rel, false), f.rel, Document(f.content).entries)
  {
    if f.content.Invalid? then HelpersFile([], false, [LoadError(f.rel, f.content.message)])
    else
      var data := Document(f.content);
      if data.Null? then HelpersFile([], true, [])
      else if !data.Map? then HelpersFile([], false, [FileNotAMap(f.rel)])
      else
        var g := HelperGroups(h, Expander(fs, f.rel, false), f.rel, data.entries);
        HelpersFile(g.0, true, g.1)
  }

  /** The domain file of one helper type: `<helper_type>.yaml` in the config directory. */
  function HelperDomainRel(ht: string): string
  {
    ht + ".yaml"
  }

  /**
   * One helper type's domain file, as `_sync_helpers` reads it: a load error is reported but the file is then
   * read as empty, as is a blank or missing one; a document that is not a dict is refused.
   */
  function HelperDomainFile(h: Value -> string, fs: Fs, ht: string, c: FileContent): (r: (seq<ModuleItem>, seq<FileNote>))
    ensures c.Invalid? ==> r == ([], [LoadError(HelperDomainRel(ht), c.message)])
    ensures c.Parsed? && !c.value.Null? && !c.value.Map? ==> r == ([], [FileNotAMap(HelperDomainRel(ht))])
    ensures forall x :: 0 <= x < |r.0| ==> r.0[x].helperType == Some(ht) && r.0[x].source == HelperDomainRel(ht)
    ensures c.Parsed? && c.value.Map? ==>
      |r.0| == |c.value.entries| &&
      forall i :: 0 <= i < |r.0| ==> r.0[i].haId == c.value.entries[i].0 && r.0[i].data == c.value.entries[i].1
  {
    var rel := HelperDomainRel(ht);
    match c
    case Invalid(message) => ([], [LoadError(rel, message)])
    case Blank => ([], [])
    case Parsed(data) =>
      if data.Null? then ([], [])
      else if !data.Map? then ([], [FileNotAMap(rel)])
      else
        var g := EntryItems(h, Expander(fs, rel, false), rel, Some(ht), data.entries);
        EntryItemsFields(h, Expander(fs, rel, false), rel, Some(ht), data.entries);
        (g.0, WarningNotes(g.1))
  }

  /** What the file of a helper type holds; a missing file reads as blank. */
  function HelperContent(files: map<string, FileContent>, ht: string): FileContent
  {
    if HelperDomainRel(ht) in files then files[HelperDomainRel(ht)] else Blank
  }

  /** The domain items of the given helper types, file after file. */
  function HelperDomain(h: Value -> string, fs: Fs, files: map<string, FileContent>, hts: seq<string>): (r: (seq<ModuleItem>, seq<FileNote>))
    ensures forall x :: 0 <= x < |r.0| ==>
      r.0[x].helperType.Some? && r.0[x].helperType.value in hts && r.0[x].source == HelperDomainRel(r.0[x].helperType.value)
  {
    if hts == [] then ([], [])
    else
      var n := |hts| - 1;
      var front := HelperDomain(h, fs, files, hts[..n]);
      var g := HelperDomainFile(h, fs, hts[n], HelperContent(files, hts[n]));
      assert forall x :: 0 <= x < |front.0| ==> front.0[x].helperType.value in hts;
      (front.0 + g.0, front.1 + g.1)
  }

  lemma HelperDomainStep(h: Value -> string, fs: Fs, files: map<string, FileContent>, hts: seq<string>, i: nat)
    requires i < |hts|
    ensures HelperDomain(h, fs, files, hts[..i + 1]) ==
      var front := HelperDomain(h, fs, files, hts[..i]);
      var g := HelperDomainFile(h, fs, hts[i], HelperContent(files, hts[i]));
      (front.0 + g.0, front.1 + g.1)
  {
    assert hts[..i + 1][..i] == hts[..i];
  }

  /** The loop over `HELPER_TYPES` that reads every helper domain file. */
  method ReadHelperDomain(h: Value -> string, fs: Fs, files: map<string, FileContent>)
    returns (items: seq<ModuleItem>, notes: seq<FileNote>)
    ensures (items, notes) == HelperDomain(h, fs, files, HelperTypes)
  {
    items, notes := [], [];
    for i := 0 to |HelperTypes|
      invariant (items, notes) == HelperDomain(h, fs, files, HelperTypes[..i])
    {
      HelperDomainStep(h, fs, files, HelperTypes, i);
      var ht := HelperTypes[i];
      var rel := HelperDomainRel(ht);
      var c := HelperContent(files, ht);
      var fileItems: seq<ModuleItem>, fileNotes: seq<FileNote> := [], [];
      if c.Invalid? {
        fileNotes := [LoadError(rel, c.message)];
      } else if c.Parsed? && !c.value.Null? {
        if !c.value.Map? {
          fileNotes := [FileNotAMap(rel)];
        } else {
          var warnings;
          fileItems, warnings := ReadEntries(h, Expander(fs, rel, false), rel, Some(ht), c.value.entries);
          fileNotes := WarningNotes(warnings);
        }
      }
      assert (fileItems, fileNotes) == HelperDomainFile(h, fs, ht, c);
      items := items + fileItems;
      notes := notes + fileNotes;
    }
    assert HelperTypes[..|HelperTypes|] == HelperTypes;
  }
}
