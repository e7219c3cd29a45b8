/**
 * What a YAML Modules run writes once every entry is decided (the tail of yaml_modules.py `_sync_list_domain` and
 * the matching parts of the mapping, lovelace and helpers syncs): each module file's payload,
 * the combined domain payload, whether the domain file is deleted, and the rebuilt mapping.
 */
module SyncOutput {
  import opened Wrappers
  import opened Text
  import opened Yaml
  import opened Preference
  import opened ModuleItems
  import opened SyncIndex
  import opened SyncChoose

  // ------------------------------------------------------------------ order

  /** `key=lambda item: item.order`. */
  function OrderLe(a: ModuleItem, b: ModuleItem): bool { a.order <= b.order }

  lemma OrderLeTotalPreorder()
    ensures TotalPreorder(OrderLe)
  {
  }

  /** `sorted(items, key=lambda item: item.order)`: a stable sort by position. */
  function ByOrder(items: seq<ModuleItem>): (r: seq<ModuleItem>)
    ensures multiset(r) == multiset(items) && |r| == |items|
    ensures SortedBy(r, OrderLe)
  {
    OrderLeTotalPreorder();
    SortBySorted(items, OrderLe);
    SortBy(items, OrderLe)
  }

  lemma ByOrderHas(items: seq<ModuleItem>, x: ModuleItem)
    ensures x in ByOrder(items) <==> x in items
  {
    assert x in ByOrder(items) <==> x in multiset(ByOrder(items));
    assert x in items <==> x in multiset(items);
  }

  /** `[item.data for item in items]`. */
  function Datas(items: seq<ModuleItem>): (r: seq<Value>)
    ensures |r| == |items| && forall i :: 0 <= i < |items| ==> r[i] == items[i].data
  {
    seq(|items|, i requires 0 <= i < |items| => items[i].data)
  }

  /** `[item for item in items if item.helper_type == helper_type]`, or all of them. */
  function OfType(items: seq<ModuleItem>, helperType: Option<string>): (r: seq<ModuleItem>)
    ensures forall x :: x in r <==> x in items && (helperType.Some? ==> x.helperType == helperType)
  {
    if helperType.None? then items
    else if items == [] then []
    else
      var n := |items| - 1;
      var front := OfType(items[..n], helperType);
      assert forall x :: x in items <==> x in items[..n] || x == items[n] by {
        assert items == items[..n] + [items[n]];
      }
      if items[n].helperType == helperType then front + [items[n]] else front
  }

  // ------------------------------------------------------------------ dicts built by assignment

  /** `{k: v for (k, v) in pairs}`: a later pair replaces the value in the position of the first. */
  function PutAll(ps: seq<(string, Value)>): (r: seq<(string, Value)>)
    ensures UniqueKeys(r)
  {
    if ps == [] then []
    else
      var n := |ps| - 1;
      var front := PutAll(ps[..n]);
      PutUnique(front, ps[n].0, ps[n].1);
      Put(front, ps[n].0, ps[n].1)
  }

  /** The value of the last pair under `k`. */
  function LastValue(ps: seq<(string, Value)>, k: string): (r: Option<Value>)
    ensures r.Some? <==> exists i :: 0 <= i < |ps| && ps[i].0 == k
  {
    if ps == [] then None
    else
      var n := |ps| - 1;
      assert forall i :: 0 <= i < n ==> ps[..n][i] == ps[i];
      if ps[n].0 == k then Some(ps[n].1) else LastValue(ps[..n], k)
  }

  /** Assignment in a dict comprehension: the last value under a key wins. */
  lemma {:induction false} PutAllGet(ps: seq<(string, Value)>, k: string)
    ensures Get(PutAll(ps), k) == LastValue(ps, k)
  {
    if ps != [] {
      var n := |ps| - 1;
      PutAllGet(ps[..n], k);
      PutGet(PutAll(ps[..n]), ps[n].0, ps[n].1, k);
    }
  }

  /** `(item.ha_id, item.data)` for each item. */
  function Pairs(items: seq<ModuleItem>): (r: seq<(string, Value)>)
    ensures |r| == |items| && forall i :: 0 <= i < |items| ==> r[i] == (items[i].haId, items[i].data)
  {
    seq(|items|, i requires 0 <= i < |items| => (items[i].haId, items[i].data))
  }

  // ------------------------------------------------------------------ module file payloads

  /** A list domain's module file: the items' data by position. */
  function ListFilePayload(items: seq<ModuleItem>): (r: Value)
    ensures r.Seq? && |r.items| == |items|
    ensures forall x :: x in items ==> x.data in r.items
    ensures forall v :: v in r.items ==> exists x :: x in items && x.data == v
  {
    var sorted := ByOrder(items);
    forall x | x in items ensures x.data in Datas(sorted) {
      ByOrderHas(items, x);
      var i :| 0 <= i < |sorted| && sorted[i] == x;
      assert Datas(sorted)[i] == x.data;
    }
    forall v | v in Datas(sorted) ensures exists x :: x in items && x.data == v {
      var i :| 0 <= i < |sorted| && Datas(sorted)[i] == v;
      ByOrderHas(items, sorted[i]);
    }
    Seq(Datas(sorted))
  }

  /** A mapping domain's module file: `{item.ha_id: item.data}` by position (`_sync_mapping_domain`). */
  function MappingFilePayload(items: seq<ModuleItem>): (r: Value)
    ensures r.Map? && UniqueKeys(r.entries)
  {
    Map(PutAll(Pairs(ByOrder(items))))
  }

  /** Every item's id is a key of its mapping file, holding the data of the last item under that id. */
  lemma MappingFilePayloadGet(items: seq<ModuleItem>, k: string)
    ensures Get(MappingFilePayload(items).entries, k) == LastValue(Pairs(ByOrder(items)), k)
    ensures HasKey(MappingFilePayload(items).entries, k) <==> exists x :: x in items && x.haId == k
  {
    var sorted := ByOrder(items);
    PutAllGet(Pairs(sorted), k);
    if exists x :: x in items && x.haId == k {
      var x :| x in items && x.haId == k;
      ByOrderHas(items, x);
      var i :| 0 <= i < |sorted| && sorted[i] == x;
      assert Pairs(sorted)[i].0 == k;
    }
    if HasKey(MappingFilePayload(items).entries, k) {
      var i :| 0 <= i < |sorted| && Pairs(sorted)[i].0 == k;
      ByOrderHas(items, sorted[i]);
    }
  }

  /** The helpers' module file: per helper type with items, `{ha_id: data}` of that type (`_sync_helpers`). */
  function HelpersFilePayload(items: seq<ModuleItem>, types: seq<string>): (r: Value)
    ensures r.Map?
    ensures forall t :: HasKey(r.entries, t) <==> t in types && exists x :: x in items && x.helperType == Some(t)
  {
    if types == [] then Map([])
    else
      var n := |types| - 1;
      var front := HelpersFilePayload(items, types[..n]);
      var of := OfType(items, Some(types[n]));
      assert forall t :: t in types <==> t in types[..n] || t == types[n] by {
        assert types == types[..n] + [types[n]];
      }
      if of == [] then
        assert forall x :: x in items && x.helperType == Some(types[n]) ==> x in of;
        front
      else
        PutHasKey(front.entries, types[n], MappingFilePayload(of));
        assert of[0] in items && of[0].helperType == Some(types[n]);
        Map(Put(front.entries, types[n], MappingFilePayload(of)))
  }

  lemma PutHasKey(es: seq<(string, Value)>, k: string, v: Value)
    ensures forall t :: HasKey(Put(es, k, v), t) <==> HasKey(es, t) || t == k
  {
    forall t ensures HasKey(Put(es, k, v), t) <==> HasKey(es, t) || t == k {
      PutGet(es, k, v, t);
    }
  }

  /** A lovelace module file as parsed: its path, top-level keys besides `views`, and its form. */
  datatype LovelaceFile = LovelaceFile(rel: string, meta: seq<(string, Value)>, dictShaped: bool)

  /** `{"views": views, **meta}`. */
  function ViewsWithMeta(views: seq<Value>, meta: seq<(string, Value)>): (r: Value)
    ensures r.Map? && UniqueKeys(r.entries)
  {
    Map(PutAll([("views", Seq(views))] + meta))
  }

  /**
   * A lovelace module file: the file holding the dashboard's other keys gets them next to its
   * views; any other file keeps its form, list or `{"views": ...}`; a file no module had is a
   * dict (`_sync_lovelace_domain`).
   */
  function LovelaceFilePayload(items: seq<ModuleItem>, isMetaTarget: bool, file: Option<LovelaceFile>,
                               meta: seq<(string, Value)>): (r: Value)
    ensures isMetaTarget ==> r == ViewsWithMeta(Datas(ByOrder(items)), meta)
    ensures !isMetaTarget && (file.None? || file.value.dictShaped) ==> r == Map([("views", Seq(Datas(ByOrder(items))))])
    ensures !isMetaTarget && file.Some? && !file.value.dictShaped ==> r == Seq(Datas(ByOrder(items)))
  {
    var views := Datas(ByOrder(items));
    if isMetaTarget then ViewsWithMeta(views, meta)
    else if file.None? || file.value.dictShaped then Map([("views", Seq(views))])
    else Seq(views)
  }

  /** `meta_source`: the first readable lovelace module with keys besides `views`. */
  function MetaSource(files: seq<LovelaceFile>): (r: Option<LovelaceFile>)
    ensures r.Some? ==> r.value in files && r.value.meta != []
    ensures r.None? <==> forall i :: 0 <= i < |files| ==> files[i].meta == []
  {
    if files == [] then None
    else if files[0].meta != [] then Some(files[0])
    else
      var rest := MetaSource(files[1..]);
      assert forall i :: 1 <= i < |files| ==> files[i] == files[1..][i - 1];
      rest
  }

  /**
   * `meta_payload` of `_sync_lovelace_domain`: the domain's keys when the domain is preferred, otherwise
   * those of the module that has some, falling back to the domain's.
   */
  function MetaPayload(pref: Preference, source: Option<LovelaceFile>, domainMeta: seq<(string, Value)>)
    : (r: seq<(string, Value)>)
    ensures pref == PreferDomain || source.None? ==> r == domainMeta
    ensures pref != PreferDomain && source.Some? ==> r == source.value.meta
  {
    if pref == PreferDomain then domainMeta
    else if source.Some? then source.value.meta
    else domainMeta
  }

  // ------------------------------------------------------------------ the combined domain payload

  /** The file keys in order. */
  function FileKeys(d: FileItems): (r: seq<string>)
    ensures |r| == |d| && forall i :: 0 <= i < |d| ==> r[i] == d[i].0
  {
    seq(|d|, i requires 0 <= i < |d| => d[i].0)
  }

  /** The runs of the given files, one after the other. */
  function ConcatRuns(rels: seq<string>, run: string -> seq<ModuleItem>): seq<ModuleItem>
  {
    if rels == [] then []
    else
      var n := |rels| - 1;
      ConcatRuns(rels[..n], run) + run(rels[n])
  }

  lemma {:induction false} ConcatRunsHas(rels: seq<string>, run: string -> seq<ModuleItem>, x: ModuleItem)
    ensures x in ConcatRuns(rels, run) <==> exists i :: 0 <= i < |rels| && x in run(rels[i])
  {
    if rels != [] {
      var n := |rels| - 1;
      ConcatRunsHas(rels[..n], run, x);
      if exists i :: 0 <= i < n && x in run(rels[..n][i]) {
        var i :| 0 <= i < n && x in run(rels[..n][i]);
        assert rels[..n][i] == rels[i];
      }
      if exists i :: 0 <= i < |rels| && x in run(rels[i]) {
        var i :| 0 <= i < |rels| && x in run(rels[i]);
        if i < n { assert rels[..n][i] == rels[i]; }
      }
    }
  }

  /** One file's items of the right type, by position. */
  function FileRun(d: FileItems, helperType: Option<string>): string -> seq<ModuleItem>
  {
    f => ByOrder(OfType(ItemsIn(d, f), helperType))
  }

  /** The items in the order the domain file lists them: files by path, each file's by position. */
  function InDomainOrder(d: FileItems, helperType: Option<string>): seq<ModuleItem>
  {
    ConcatRuns(SortStrings(FileKeys(d)), FileRun(d, helperType))
  }

  /** The file an item is listed under is among the file keys. */
  lemma ItemsInKey(d: FileItems, f: string)
    ensures ItemsIn(d, f) != [] ==> f in FileKeys(d)
  {
    if ItemsIn(d, f) != [] {
      var i :| 0 <= i < |d| && d[i].0 == f;
      assert FileKeys(d)[i] == f;
    }
  }

  /** Every desired item of the right type is among the items the domain payload is built from. */
  lemma InDomainOrderHas(d: FileItems, helperType: Option<string>, f: string, x: ModuleItem)
    requires x in ItemsIn(d, f) && (helperType.Some? ==> x.helperType == helperType)
    ensures x in InDomainOrder(d, helperType)
  {
    var rels := SortStrings(FileKeys(d));
    ItemsInKey(d, f);
    assert f in multiset(FileKeys(d));
    var i :| 0 <= i < |rels| && rels[i] == f;
    ByOrderHas(OfType(ItemsIn(d, f), helperType), x);
    assert x in FileRun(d, helperType)(rels[i]);
    ConcatRunsHas(rels, FileRun(d, helperType), x);
  }

  function SkipMessage(what: string, composite: bool, x: ModuleItem): string
  {
    "Skipping " + what + " " + KeyOf(composite, x) + " due to template expansion failure."
  }

  /** The combined list of a list or lovelace domain: every expansion in order; a failed one is reported. */
  function CombinedList(xs: seq<ModuleItem>, what: string): (r: (seq<Value>, seq<string>))
    ensures |r.0| + |r.1| == |xs|
  {
    if xs == [] then ([], [])
    else
      var n := |xs| - 1;
      var front := CombinedList(xs[..n], what);
      if xs[n].expanded.Some? then (front.0 + [xs[n].expanded.value], front.1)
      else (front.0, front.1 + [SkipMessage(what, false, xs[n])])
  }

  function Expansion(x: ModuleItem): Option<Value> { x.expanded }

  function SkipNote(what: string): ModuleItem -> Option<string>
  {
    (x: ModuleItem) => if x.expanded.None? then Some(SkipMessage(what, false, x)) else None
  }

  /** The combined list is the successful expansions in order, and the warnings the failed ones in order. */
  lemma {:induction false} CombinedListFilters(xs: seq<ModuleItem>, what: string)
    ensures CombinedList(xs, what) == (FilterMap(xs, Expansion), FilterMap(xs, SkipNote(what)))
  {
    if xs != [] {
      CombinedListFilters(xs[..|xs| - 1], what);
    }
  }

  /** The combined list holds exactly the expansions that succeeded. */
  lemma CombinedListHas(xs: seq<ModuleItem>, what: string, v: Value)
    ensures v in CombinedList(xs, what).0 <==> exists i :: 0 <= i < |xs| && xs[i].expanded == Some(v)
  {
    CombinedListFilters(xs, what);
    FilterMapMembers(xs, Expansion, v);
  }

  function DuplicateAcross(what: string, composite: bool, x: ModuleItem): string
  {
    "Duplicate " + what + " " + KeyOf(composite, x) + " across modules; keeping first."
  }

  /**
   * The combined dict of a mapping or helper domain (`_sync_mapping_domain`, `_sync_helpers`): the first item
   * under an id wins — checked before the expansion, so an item skipped for a failed expansion
   * does not hold its id.
   */
  function CombinedDict(xs: seq<ModuleItem>, dupWhat: string, skipWhat: string, composite: bool)
    : (r: (seq<(string, Value)>, seq<string>))
    ensures UniqueKeys(r.0)
  {
    if xs == [] then ([], [])
    else
      var n := |xs| - 1;
      var front := CombinedDict(xs[..n], dupWhat, skipWhat, composite);
      var x := xs[n];
      if HasKey(front.0, x.haId) then (front.0, front.1 + [DuplicateAcross(dupWhat, composite, x)])
      else if x.expanded.None? then (front.0, front.1 + [SkipMessage(skipWhat, composite, x)])
      else
        PutUnique(front.0, x.haId, x.expanded.value);
        assert Put(front.0, x.haId, x.expanded.value) == front.0 + [(x.haId, x.expanded.value)] by {
          PutAbsent(front.0, x.haId, x.expanded.value);
        }
        (front.0 + [(x.haId, x.expanded.value)], front.1)
  }

  /** The expansion of the first item under `k` whose expansion succeeded. */
  function FirstExpanded(xs: seq<ModuleItem>, k: string): Option<Value>
  {
    if xs == [] then None
    else
      var n := |xs| - 1;
      var front := FirstExpanded(xs[..n], k);
      if front.Some? then front
      else if xs[n].haId == k && xs[n].expanded.Some? then xs[n].expanded
      else None
  }

  /** Under every id the combined dict holds the first successful expansion, in either order of failure. */
  lemma {:induction false} CombinedDictGet(xs: seq<ModuleItem>, dupWhat: string, skipWhat: string, composite: bool, k: string)
    ensures Get(CombinedDict(xs, dupWhat, skipWhat, composite).0, k) == FirstExpanded(xs, k)
  {
    if xs != [] {
      var n := |xs| - 1;
      CombinedDictGet(xs[..n], dupWhat, skipWhat, composite, k);
      var front := CombinedDict(xs[..n], dupWhat, skipWhat, composite);
      var x := xs[n];
      CombinedDictGet(xs[..n], dupWhat, skipWhat, composite, x.haId);
      if !HasKey(front.0, x.haId) && x.expanded.Some? {
        GetAppend(front.0, x.haId, x.expanded.value, k);
      }
    }
  }

  /** The combining loop of `_sync_mapping_domain`, against CombinedDict. */
  method CombineDict(xs: seq<ModuleItem>, dupWhat: string, skipWhat: string, composite: bool)
    returns (combined: seq<(string, Value)>, warnings: seq<string>)
    ensures (combined, warnings) == CombinedDict(xs, dupWhat, skipWhat, composite)
  {
    combined := [];
    warnings := [];
    for i := 0 to |xs|
      invariant (combined, warnings) == CombinedDict(xs[..i], dupWhat, skipWhat, composite)
    {
      assert xs[..i + 1][..i] == xs[..i];
      var x := xs[i];
      if Get(combined, x.haId).Some? {
        warnings := warnings + [DuplicateAcross(dupWhat, composite, x)];
      } else if x.expanded.None? {
        warnings := warnings + [SkipMessage(skipWhat, composite, x)];
      } else {
        combined := combined + [(x.haId, x.expanded.value)];
      }
    }
    assert xs[..|xs|] == xs;
  }

  // ------------------------------------------------------------------ the domain file

  /** `_is_empty_yaml_payload`. */
  predicate IsEmptyPayload(v: Value)
  {
    v.Null? || v == Seq([]) || v == Map([]) ||
    (v.Map? && v.entries != [] && (forall i :: 0 <= i < |v.entries| ==> v.entries[i].0 == "views") &&
     Get(v.entries, "views") == Some(Seq([])))
  }

  /** What `_write_domain_yaml` does with a payload. */
  datatype DomainWrite = DeleteFile | WriteFile(payload: Value)

  function DomainAction(v: Value): (r: DomainWrite)
    ensures r == DeleteFile <==> IsEmptyPayload(v)
    ensures r.WriteFile? ==> r.payload == v
  {
    if IsEmptyPayload(v) then DeleteFile else WriteFile(v)
  }

  /** A list domain's file is deleted exactly when no item is left. */
  lemma ListDomainDeleted(views: seq<Value>)
    ensures DomainAction(Seq(views)) == DeleteFile <==> views == []
  {
  }

  /** A mapping or helper domain's file is deleted exactly when no item is left. */
  lemma DictDomainDeleted(es: seq<(string, Value)>)
    requires !HasKey(es, "views")
    ensures DomainAction(Map(es)) == DeleteFile <==> es == []
  {
    if es != [] { assert es[0].0 != "views" by { assert HasKey(es, es[0].0); } }
  }

  /** A dict with a key other than `views` is not empty. */
  lemma OtherKeyNotEmpty(es: seq<(string, Value)>, k: string)
    requires HasKey(es, k) && k != "views"
    ensures !IsEmptyPayload(Map(es))
  {
  }

  /**
   * The dashboard file is deleted exactly when it would hold no view and no other key
   * (the other keys never include `views`).
   */
  lemma LovelaceDomainDeleted(views: seq<Value>, meta: seq<(string, Value)>)
    requires !HasKey(meta, "views")
    ensures DomainAction(ViewsWithMeta(views, meta)) == DeleteFile <==> views == [] && meta == []
  {
    var ps := [("views", Seq(views))] + meta;
    var es := PutAll(ps);
    if meta != [] {
      var k := meta[|meta| - 1].0;
      assert k != "views" by { assert HasKey(meta, k); }
      PutAllGet(ps, k);
      assert ps[|ps| - 1].0 == k;
      OtherKeyNotEmpty(es, k);
    } else {
      assert ps == [("views", Seq(views))];
      assert ps[..0] == [];
      assert PutAll(ps[..0]) == [];
      assert es == [("views", Seq(views))];
    }
  }

  lemma {:induction false} LastViews(views: seq<Value>, meta: seq<(string, Value)>)
    requires !HasKey(meta, "views")
    ensures LastValue([("views", Seq(views))] + meta, "views") == Some(Seq(views))
  {
    var ps := [("views", Seq(views))] + meta;
    if meta != [] {
      var n := |ps| - 1;
      assert ps[n] == meta[|meta| - 1];
      assert meta[|meta| - 1].0 != "views" by { assert HasKey(meta, meta[|meta| - 1].0); }
      var m := meta[..|meta| - 1];
      forall i | 0 <= i < |m| ensures m[i].0 != "views" {
        assert meta[i] == m[i];
      }
      LastViews(views, m);
      assert ps[..n] == [("views", Seq(views))] + m;
    }
  }

  /** The dashboard payload holds the views under `views` and every other key as the domain or module had it. */
  lemma ViewsWithMetaGet(views: seq<Value>, meta: seq<(string, Value)>, k: string)
    requires !HasKey(meta, "views") && UniqueKeys(meta)
    ensures Get(ViewsWithMeta(views, meta).entries, k) == if k == "views" then Some(Seq(views)) else Get(meta, k)
  {
    var ps := [("views", Seq(views))] + meta;
    PutAllGet(ps, k);
    if k == "views" {
      LastViews(views, meta);
    } else {
      LastValueTail(("views", Seq(views)), meta, k);
      LastValueUnique(meta, k);
    }
  }

  lemma {:induction false} LastValueTail(p: (string, Value), ps: seq<(string, Value)>, k: string)
    requires p.0 != k
    ensures LastValue([p] + ps, k) == LastValue(ps, k)
  {
    if ps != [] {
      var n := |ps| - 1;
      assert ([p] + ps)[..n + 1] == [p] + ps[..n];
      LastValueTail(p, ps[..n], k);
    } else {
      assert ([p] + ps)[..0] == [];
    }
  }

  /** In a dict's entries the last value under a key is the only one. */
  lemma {:induction false} LastValueUnique(ps: seq<(string, Value)>, k: string)
    requires UniqueKeys(ps)
    ensures LastValue(ps, k) == Get(ps, k)
  {
    if ps != [] {
      var n := |ps| - 1;
      var front := ps[..n];
      UniqueKeysPrefix(ps);
      LastValueUnique(front, k);
      GetAppend(front, ps[n].0, ps[n].1, k);
      assert ps == front + [ps[n]];
    }
  }

  // ------------------------------------------------------------------ the mapping written back

  /** A mapping entry for a desired item (`_sync_list_domain`, `_sync_helpers`): id, file, helper type, and name and fingerprint when set. */
  function EntryRecord(rel: string, x: ModuleItem, withHelperType: bool): (r: Value)
    ensures r.Map? && Get(r.entries, "id") == Some(Str(x.haId)) && Get(r.entries, "source") == Some(Str(rel))
  {
    var head := [("id", Str(x.haId)), ("source", Str(rel))]
      + (if withHelperType then [("helper_type", HelperValue(x))] else []);
    var named := if x.name.Some? && x.name.value != "" then [("name", Str(x.name.value))] else [];
    var printed := if x.fingerprint != "" then [("fingerprint", Str(x.fingerprint))] else [];
    var es := head + named + printed;
    assert es[0] == ("id", Str(x.haId)) && es[1] == ("source", Str(rel));
    assert es[1..][0] == ("source", Str(rel));
    Map(es)
  }

  function FileRecords(rel: string, items: seq<ModuleItem>, withHelperType: bool): (r: seq<Value>)
    ensures |r| == |items| && forall i :: 0 <= i < |items| ==> r[i] == EntryRecord(rel, items[i], withHelperType)
  {
    seq(|items|, i requires 0 <= i < |items| => EntryRecord(rel, items[i], withHelperType))
  }

  /** The entries before sorting: file by file in dict order, each file's items by position. */
  function RawEntries(d: FileItems, withHelperType: bool): seq<Value>
  {
    if d == [] then []
    else
      var n := |d| - 1;
      RawEntries(d[..n], withHelperType) + FileRecords(d[n].0, ByOrder(d[n].1), withHelperType)
  }

  /** `entry.get("id") or ""`, and the same for the helper type. */
  function TextAt(e: Value, k: string): string
  {
    match Lookup(e, k)
    case Some(Str(s)) => s
    case _ => ""
  }

  function IdLe(a: Value, b: Value): bool { StrLe(TextAt(a, "id"), TextAt(b, "id")) }

  /** `(helper_type or "", id or "")`, compared as a pair. */
  function TypeIdLe(a: Value, b: Value): bool
  {
    if TextAt(a, "helper_type") == TextAt(b, "helper_type") then StrLe(TextAt(a, "id"), TextAt(b, "id"))
    else StrLe(TextAt(a, "helper_type"), TextAt(b, "helper_type"))
  }

  lemma EntryOrdersTotal()
    ensures TotalPreorder(IdLe) && TotalPreorder(TypeIdLe)
  {
    StrLeTotalPreorder();
    forall a, b, c | TypeIdLe(a, b) && TypeIdLe(b, c) ensures TypeIdLe(a, c) {
      var ta, tb, tc := TextAt(a, "helper_type"), TextAt(b, "helper_type"), TextAt(c, "helper_type");
      if ta != tb && tb != tc && ta == tc { LeAntisym(ta, tb); }
    }
  }

  /** `mapping["entries"]` after a run: one entry per desired item, sorted by id (helpers by type, then id). */
  function MappingEntries(d: FileItems, withHelperType: bool): (r: seq<Value>)
    ensures multiset(r) == multiset(RawEntries(d, withHelperType))
    ensures !withHelperType ==> SortedBy(r, IdLe)
    ensures withHelperType ==> SortedBy(r, TypeIdLe)
  {
    EntryOrdersTotal();
    if withHelperType then
      SortBySorted(RawEntries(d, true), TypeIdLe);
      SortBy(RawEntries(d, true), TypeIdLe)
    else
      SortBySorted(RawEntries(d, false), IdLe);
      SortBy(RawEntries(d, false), IdLe)
  }

  /** Every desired item gets its entry, naming the file it is in. */
  lemma {:induction false} RawEntriesHas(d: FileItems, withHelperType: bool, i: nat, x: ModuleItem)
    requires i < |d| && x in d[i].1
    ensures EntryRecord(d[i].0, x, withHelperType) in RawEntries(d, withHelperType)
  {
    var n := |d| - 1;
    if i < n {
      assert d[..n][i] == d[i];
      RawEntriesHas(d[..n], withHelperType, i, x);
    } else {
      ByOrderHas(d[n].1, x);
      var j :| 0 <= j < |ByOrder(d[n].1)| && ByOrder(d[n].1)[j] == x;
      assert FileRecords(d[n].0, ByOrder(d[n].1), withHelperType)[j] == EntryRecord(d[n].0, x, withHelperType);
    }
  }

  /** Every entry names a desired item and the file holding it. */
  lemma {:induction false} RawEntriesFrom(d: FileItems, withHelperType: bool, e: Value)
    requires e in RawEntries(d, withHelperType)
    ensures exists i, x :: 0 <= i < |d| && x in d[i].1 && e == EntryRecord(d[i].0, x, withHelperType)
  {
    var n := |d| - 1;
    var pre := RawEntries(d[..n], withHelperType);
    if e in pre {
      RawEntriesFrom(d[..n], withHelperType, e);
      var i, x :| 0 <= i < n && x in d[..n][i].1 && e == EntryRecord(d[..n][i].0, x, withHelperType);
      assert d[..n][i] == d[i];
    } else {
      var j :| 0 <= j < |ByOrder(d[n].1)| && FileRecords(d[n].0, ByOrder(d[n].1), withHelperType)[j] == e;
      ByOrderHas(d[n].1, ByOrder(d[n].1)[j]);
    }
  }

  /** The written mapping has an entry for exactly the desired items, each naming its file. */
  lemma MappingEntriesHas(d: FileItems, withHelperType: bool, e: Value)
    ensures e in MappingEntries(d, withHelperType) <==>
      exists i, x :: 0 <= i < |d| && x in d[i].1 && e == EntryRecord(d[i].0, x, withHelperType)
  {
    assert e in MappingEntries(d, withHelperType) <==> e in multiset(RawEntries(d, withHelperType));
    if e in RawEntries(d, withHelperType) { RawEntriesFrom(d, withHelperType, e); }
    if exists i, x :: 0 <= i < |d| && x in d[i].1 && e == EntryRecord(d[i].0, x, withHelperType) {
      var i, x :| 0 <= i < |d| && x in d[i].1 && e == EntryRecord(d[i].0, x, withHelperType);
      RawEntriesHas(d, withHelperType, i, x);
    }
  }

  // ------------------------------------------------------------------ module files written

  /** The module files written, with their payloads: every desired file that was readable. */
  function ModuleWrites(d: FileItems, invalid: set<string>, payload: (string, seq<ModuleItem>) -> Value)
    : (r: seq<(string, Value)>)
    ensures forall p :: p in r <==> exists i :: 0 <= i < |d| && d[i].0 !in invalid && p == (d[i].0, payload(d[i].0, d[i].1))
  {
    var f := (e: (string, seq<ModuleItem>)) => if e.0 in invalid then None else Some((e.0, payload(e.0, e.1)));
    forall p ensures p in FilterMap(d, f) <==> exists i :: 0 <= i < |d| && f(d[i]) == Some(p) {
      FilterMapMembers(d, f, p);
    }
    FilterMap(d, f)
  }
}
