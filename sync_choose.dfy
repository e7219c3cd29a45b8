/**
 * The per-entry decision of a YAML Modules run (yaml_modules.py `_sync_list_domain`, its loop over the mapping index
 * and its copies for mapping domains, lovelace and helpers): for every entry of the mapping
 * index, which copy of the item — the module's, the domain's, or the module's template-backed
 * copy merged with the domain's edits — goes into which module file.
 */
module SyncChoose {
  import opened Wrappers
  import opened Text
  import opened Yaml
  import opened YamlTags
  import opened Fingerprints
  import opened ItemIds
  import opened Preference
  import opened ModuleItems
  import opened SyncIndex
  import opened TemplateMerge

  // ------------------------------------------------------------------ one decision

  /** What happens to one mapping entry. */
  datatype Choice =
    | Drop                 // nothing is kept
    | TakeModule           // the module copy
    | TakeDomain           // the domain copy
    | TakeDomainMissing    // the domain copy, with a warning that the modules lack it
    | TakeMerged           // the module's template-backed copy with the domain's edits merged in

  /**
   * The decision tree of that loop. `inUnassigned` says the entry belongs to the unassigned
   * file, `templated` that the module copy holds an include-style template tag.
   */
  function Decide(pref: Preference, inUnassigned: bool, hasModule: bool, hasDomain: bool, templated: bool)
    : (r: Choice)
    ensures r == TakeModule ==> hasModule
    ensures r == TakeDomain || r == TakeDomainMissing ==> hasDomain
    ensures r == TakeMerged ==> hasModule && hasDomain && templated
    ensures r == TakeDomainMissing <==>
      hasDomain && !hasModule && (pref == PreferModules || (pref == PreferMixed && !inUnassigned))
    ensures r == Drop <==>
      (!hasDomain && (!hasModule || pref == PreferDomain || (pref == PreferMixed && inUnassigned)))
  {
    if !hasDomain then
      if pref == PreferDomain then Drop
      else if pref == PreferMixed && inUnassigned then Drop
      else if hasModule then TakeModule
      else Drop
    else if pref == PreferDomain then
      if hasModule && templated then TakeMerged else TakeDomain
    else if pref == PreferModules then
      if hasModule then TakeModule else TakeDomainMissing
    else if inUnassigned then
      if hasModule && templated then TakeMerged else TakeDomain
    else if hasModule then TakeModule
    else
      assert pref == PreferMixed;
      assert !inUnassigned;
      TakeDomainMissing
  }

  /** "mixed" follows the domain for the unassigned file and the modules for every other file. */
  lemma MixedSplits(inUnassigned: bool, hasModule: bool, hasDomain: bool, templated: bool)
    ensures Decide(PreferMixed, inUnassigned, hasModule, hasDomain, templated) ==
      Decide(if inUnassigned then PreferDomain else PreferModules, inUnassigned, hasModule, hasDomain, templated)
  {
  }

  /** Preferring the modules keeps every module copy, and never loses an item either side has. */
  lemma ModulesPreferenceKeeps(inUnassigned: bool, hasModule: bool, hasDomain: bool, templated: bool)
    ensures hasModule ==> Decide(PreferModules, inUnassigned, hasModule, hasDomain, templated) == TakeModule
    ensures hasModule || hasDomain ==> Decide(PreferModules, inUnassigned, hasModule, hasDomain, templated) != Drop
  {
  }

  /**
   * Preferring the domain keeps what the domain has — as it is, or merged into the module's
   * template-backed copy — and drops what only the modules have.
   */
  lemma DomainPreferenceFollowsDomain(inUnassigned: bool, hasModule: bool, hasDomain: bool, templated: bool)
    ensures var r := Decide(PreferDomain, inUnassigned, hasModule, hasDomain, templated);
      (hasDomain ==> (r == TakeDomain || r == TakeMerged)) && (!hasDomain ==> r == Drop)
    ensures Decide(PreferDomain, inUnassigned, hasModule, hasDomain, templated) == TakeMerged <==>
      hasDomain && hasModule && templated
  {
  }

  // ------------------------------------------------------------------ the desired files

  /** `desired_items_by_file`: an ordered dict from module file paths to the items they will hold. */
  type FileItems = seq<(string, seq<ModuleItem>)>

  predicate HasFile(d: FileItems, f: string)
  {
    exists i :: 0 <= i < |d| && d[i].0 == f
  }

  /** The items the dict holds for `f`, [] when absent. */
  function ItemsIn(d: FileItems, f: string): (r: seq<ModuleItem>)
    ensures !HasFile(d, f) ==> r == []
  {
    if d == [] then []
    else if d[0].0 == f then d[0].1
    else
      assert HasFile(d, f) ==> HasFile(d[1..], f) by {
        if HasFile(d, f) { var i :| 0 <= i < |d| && d[i].0 == f; assert d[1..][i - 1] == d[i]; }
      }
      ItemsIn(d[1..], f)
  }

  /** `setdefault(f, [])`. */
  function SetDefault(d: FileItems, f: string): (r: FileItems)
    ensures HasFile(r, f)
    ensures HasFile(d, f) ==> r == d
    ensures !HasFile(d, f) ==> r == d + [(f, [])]
    ensures forall g :: HasFile(r, g) <==> HasFile(d, g) || g == f
  {
    if HasFile(d, f) then d
    else
      assert (d + [(f, [])])[|d|].0 == f;
      assert forall i :: 0 <= i < |d| ==> (d + [(f, [])])[i] == d[i];
      d + [(f, [])]
  }

  /** `d[f].extend(xs)`. */
  function AppendTo(d: FileItems, f: string, xs: seq<ModuleItem>): (r: FileItems)
    ensures |r| == |d|
    ensures forall i :: 0 <= i < |d| ==> r[i].0 == d[i].0
  {
    if d == [] then []
    else [(d[0].0, if d[0].0 == f then d[0].1 + xs else d[0].1)] + AppendTo(d[1..], f, xs)
  }

  /** Extending one file adds to that file only. */
  lemma {:induction false} ItemsInAppendTo(d: FileItems, f: string, xs: seq<ModuleItem>, g: string)
    ensures ItemsIn(AppendTo(d, f, xs), g) == ItemsIn(d, g) + (if g == f && HasFile(d, g) then xs else [])
  {
    if d != [] {
      var r := AppendTo(d, f, xs);
      assert r[1..] == AppendTo(d[1..], f, xs);
      ItemsInAppendTo(d[1..], f, xs, g);
      if d[0].0 != g {
        HasFileTail(d, g);
      }
    }
  }

  lemma HasFileTail(d: FileItems, g: string)
    requires d != [] && d[0].0 != g
    ensures HasFile(d, g) <==> HasFile(d[1..], g)
  {
    if HasFile(d, g) { var i :| 0 <= i < |d| && d[i].0 == g; assert d[1..][i - 1] == d[i]; }
    if HasFile(d[1..], g) { var i :| 0 <= i < |d| - 1 && d[1..][i].0 == g; assert d[i + 1].0 == g; }
  }

  lemma HasFileAppendTo(d: FileItems, f: string, xs: seq<ModuleItem>, g: string)
    ensures HasFile(AppendTo(d, f, xs), g) <==> HasFile(d, g)
  {
    var r := AppendTo(d, f, xs);
    if HasFile(r, g) { var i :| 0 <= i < |r| && r[i].0 == g; assert d[i].0 == g; }
    if HasFile(d, g) { var i :| 0 <= i < |d| && d[i].0 == g; assert r[i].0 == g; }
  }

  lemma {:induction false} ItemsInSetDefault(d: FileItems, f: string, g: string)
    ensures ItemsIn(SetDefault(d, f), g) == ItemsIn(d, g)
  {
    if !HasFile(d, f) {
      ItemsInAppendEmpty(d, f, g);
    }
  }

  lemma {:induction false} ItemsInAppendEmpty(d: FileItems, f: string, g: string)
    ensures ItemsIn(d + [(f, [])], g) == ItemsIn(d, g)
  {
    if d != [] {
      assert (d + [(f, [])])[1..] == d[1..] + [(f, [])];
      ItemsInAppendEmpty(d[1..], f, g);
    }
  }

  // ------------------------------------------------------------------ one entry

  /** A warning recorded while choosing. */
  datatype SyncNote =
    | MissingFromModules(what: string, id: string)
    | MergeWarning(n: MergeNote)

  function SyncNoteMessage(n: SyncNote): string
  {
    match n
    case MissingFromModules(what, id) => what + " " + id + " missing from modules; keeping domain version."
    case MergeWarning(m) => NoteMessage(m)
  }

  /** The merged item with the warnings and the template edits the merge recorded. */
  type MergeOutcome = (ModuleItem, seq<SyncNote>, seq<EditCandidate>)

  /**
   * What one run reconciles against: the preference, the unassigned file, whether items are
   * keyed `helper_type:id`, the word the warnings use, and both sides' items by key.
   */
  datatype Context = Context(pref: Preference, unassigned: string, composite: bool, what: string,
                             modules: ItemIndex, domain: ItemIndex)

  /** `entry.get("source") or unassigned_rel`. */
  function EntrySource(entry: Value, unassigned: string): (r: string)
    ensures Lookup(entry, "source") == Some(Str(r)) || r == unassigned
  {
    match Lookup(entry, "source")
    case Some(Str(s)) => if s != "" then s else unassigned
    case _ => unassigned
  }

  predicate TruthyAt(entry: Value, k: string)
  {
    Lookup(entry, k).Some? && Truthy(Lookup(entry, k).value)
  }

  /**
   * The key both sides are looked up under: the entry's id, or for helpers the index key,
   * once the entry names a helper type and an id. None when the entry is skipped.
   */
  function TargetKey(composite: bool, key: string, entry: Value): (r: Option<string>)
    ensures composite ==> (r.Some? <==> TruthyAt(entry, "helper_type") && TruthyAt(entry, "id"))
    ensures composite && r.Some? ==> r.value == key
    ensures !composite ==> (r.Some? <==> exists s :: Lookup(entry, "id") == Some(Str(s)) && s != "")
    ensures !composite && r.Some? ==> Lookup(entry, "id") == Some(Str(r.value))
  {
    if composite then
      if TruthyAt(entry, "helper_type") && TruthyAt(entry, "id") then Some(key) else None
    else
      match Lookup(entry, "id")
      case Some(Str(s)) => if s != "" then Some(s) else None
      case _ => None
  }

  /** The decision for one entry. */
  function EntryChoice(ctx: Context, key: string, entry: Value): (r: Choice)
  {
    match TargetKey(ctx.composite, key, entry)
    case None => Drop
    case Some(t) =>
      var m := IndexGet(ctx.modules, t);
      Decide(ctx.pref, EntrySource(entry, ctx.unassigned) == ctx.unassigned, m.Some?, IndexGet(ctx.domain, t).Some?,
             m.Some? && ContainsTemplateIncludes(m.value.data))
  }

  /** What one entry contributes: the items for its file, warnings, template edits. */
  function Pick(ctx: Context, merge: (ModuleItem, ModuleItem) -> MergeOutcome, key: string, entry: Value)
    : (r: (seq<ModuleItem>, seq<SyncNote>, seq<EditCandidate>))
    ensures |r.0| <= 1
  {
    match EntryChoice(ctx, key, entry)
    case Drop => ([], [], [])
    case TakeModule => ([IndexGet(ctx.modules, TargetKey(ctx.composite, key, entry).value).value], [], [])
    case TakeDomain => ([IndexGet(ctx.domain, TargetKey(ctx.composite, key, entry).value).value], [], [])
    case TakeDomainMissing =>
      var t := TargetKey(ctx.composite, key, entry).value;
      ([IndexGet(ctx.domain, t).value], [MissingFromModules(ctx.what, t)], [])
    case TakeMerged =>
      var t := TargetKey(ctx.composite, key, entry).value;
      var g := merge(IndexGet(ctx.modules, t).value, IndexGet(ctx.domain, t).value);
      ([g.0], g.1, g.2)
  }

  /**
   * An entry keeps nothing exactly when the decision drops it; otherwise it keeps the copy the
   * decision names, found under the entry's key, and only a missing module copy is reported.
   */
  lemma PickCases(ctx: Context, merge: (ModuleItem, ModuleItem) -> MergeOutcome, key: string, entry: Value)
    ensures var r := Pick(ctx, merge, key, entry);
      r.0 == [] <==> EntryChoice(ctx, key, entry) == Drop
    ensures var r := Pick(ctx, merge, key, entry);
      var t := TargetKey(ctx.composite, key, entry);
      EntryChoice(ctx, key, entry) == TakeModule ==>
        t.Some? && IndexHas(ctx.modules, t.value) && r == ([IndexGet(ctx.modules, t.value).value], [], [])
    ensures var r := Pick(ctx, merge, key, entry);
      var t := TargetKey(ctx.composite, key, entry);
      EntryChoice(ctx, key, entry) == TakeDomain ==>
        t.Some? && IndexHas(ctx.domain, t.value) && r == ([IndexGet(ctx.domain, t.value).value], [], [])
    ensures var r := Pick(ctx, merge, key, entry);
      var t := TargetKey(ctx.composite, key, entry);
      EntryChoice(ctx, key, entry) == TakeDomainMissing ==>
        t.Some? && IndexHas(ctx.domain, t.value) && !IndexHas(ctx.modules, t.value) &&
        r == ([IndexGet(ctx.domain, t.value).value], [MissingFromModules(ctx.what, t.value)], [])
    ensures var r := Pick(ctx, merge, key, entry);
      var t := TargetKey(ctx.composite, key, entry);
      EntryChoice(ctx, key, entry) == TakeMerged ==>
        t.Some? && IndexHas(ctx.modules, t.value) && IndexHas(ctx.domain, t.value) &&
        ContainsTemplateIncludes(IndexGet(ctx.modules, t.value).value.data) &&
        var g := merge(IndexGet(ctx.modules, t.value).value, IndexGet(ctx.domain, t.value).value);
        r == ([g.0], g.1, g.2)
  {
  }

  /** The state of the loop: desired files, warnings and template edits so far. */
  datatype Desired = Desired(files: FileItems, notes: seq<SyncNote>, edits: seq<EditCandidate>)

  function ChooseEntry(ctx: Context, merge: (ModuleItem, ModuleItem) -> MergeOutcome, d: Desired,
                       key: string, entry: Value): (r: Desired)
  {
    var src := EntrySource(entry, ctx.unassigned);
    var p := Pick(ctx, merge, key, entry);
    Desired(AppendTo(SetDefault(d.files, src), src, p.0), d.notes + p.1, d.edits + p.2)
  }

  /** The loop over the mapping index in `_sync_list_domain`. */
  function ChooseAll(ctx: Context, merge: (ModuleItem, ModuleItem) -> MergeOutcome, d0: Desired,
                     index: seq<(string, Value)>): Desired
  {
    if index == [] then d0
    else
      var n := |index| - 1;
      ChooseEntry(ctx, merge, ChooseAll(ctx, merge, d0, index[..n]), index[n].0, index[n].1)
  }

  lemma ChooseAllStep(ctx: Context, merge: (ModuleItem, ModuleItem) -> MergeOutcome, d0: Desired,
                      index: seq<(string, Value)>, i: nat)
    requires i < |index|
    ensures ChooseAll(ctx, merge, d0, index[..i + 1]) ==
      ChooseEntry(ctx, merge, ChooseAll(ctx, merge, d0, index[..i]), index[i].0, index[i].1)
  {
    assert index[..i + 1][..i] == index[..i];
  }

  /** The items the entries under source `f` contribute, in index order. */
  function PicksFor(ctx: Context, merge: (ModuleItem, ModuleItem) -> MergeOutcome, index: seq<(string, Value)>,
                    f: string): seq<ModuleItem>
  {
    if index == [] then []
    else
      var n := |index| - 1;
      PicksFor(ctx, merge, index[..n], f)
        + (if EntrySource(index[n].1, ctx.unassigned) == f then Pick(ctx, merge, index[n].0, index[n].1).0 else [])
  }

  /**
   * After the loop a file holds what it held before followed by the picks of the entries
   * that name it.
   */
  lemma {:induction false} ChooseAllFiles(ctx: Context, merge: (ModuleItem, ModuleItem) -> MergeOutcome, d0: Desired,
                                          index: seq<(string, Value)>, f: string)
    ensures ItemsIn(ChooseAll(ctx, merge, d0, index).files, f) == ItemsIn(d0.files, f) + PicksFor(ctx, merge, index, f)
  {
    if index != [] {
      var n := |index| - 1;
      ChooseAllFiles(ctx, merge, d0, index[..n], f);
      var d := ChooseAll(ctx, merge, d0, index[..n]);
      var src := EntrySource(index[n].1, ctx.unassigned);
      var p := Pick(ctx, merge, index[n].0, index[n].1);
      ItemsInSetDefault(d.files, src, f);
      ItemsInAppendTo(SetDefault(d.files, src), src, p.0, f);
    }
  }

  /** The files the entries of the index name. */
  function Sources(index: seq<(string, Value)>, unassigned: string): (r: set<string>)
  {
    if index == [] then {}
    else
      var n := |index| - 1;
      Sources(index[..n], unassigned) + {EntrySource(index[n].1, unassigned)}
  }

  lemma {:induction false} SourcesHas(index: seq<(string, Value)>, unassigned: string, f: string)
    ensures f in Sources(index, unassigned) <==> exists i :: 0 <= i < |index| && EntrySource(index[i].1, unassigned) == f
  {
    if index != [] {
      var n := |index| - 1;
      SourcesHas(index[..n], unassigned, f);
      if f in Sources(index[..n], unassigned) {
        var i :| 0 <= i < n && EntrySource(index[..n][i].1, unassigned) == f;
        assert index[..n][i] == index[i];
      }
      if exists i :: 0 <= i < |index| && EntrySource(index[i].1, unassigned) == f {
        var i :| 0 <= i < |index| && EntrySource(index[i].1, unassigned) == f;
        if i < n { assert index[..n][i] == index[i]; }
      }
    }
  }

  /** A file is present after the loop exactly when it was before or some entry names it. */
  lemma {:induction false} ChooseAllHasFile(ctx: Context, merge: (ModuleItem, ModuleItem) -> MergeOutcome, d0: Desired,
                                            index: seq<(string, Value)>, f: string)
    ensures HasFile(ChooseAll(ctx, merge, d0, index).files, f) <==>
      HasFile(d0.files, f) || f in Sources(index, ctx.unassigned)
  {
    if index != [] {
      var n := |index| - 1;
      ChooseAllHasFile(ctx, merge, d0, index[..n], f);
      var d := ChooseAll(ctx, merge, d0, index[..n]);
      var src := EntrySource(index[n].1, ctx.unassigned);
      var p := Pick(ctx, merge, index[n].0, index[n].1);
      HasFileAppendTo(SetDefault(d.files, src), src, p.0, f);
    }
  }

  /** An entry's pick lands among the picks of its file. */
  lemma {:induction false} PicksForHas(ctx: Context, merge: (ModuleItem, ModuleItem) -> MergeOutcome,
                                       index: seq<(string, Value)>, i: nat, x: ModuleItem)
    requires i < |index| && x in Pick(ctx, merge, index[i].0, index[i].1).0
    ensures x in PicksFor(ctx, merge, index, EntrySource(index[i].1, ctx.unassigned))
  {
    var n := |index| - 1;
    if i < n {
      assert index[..n][i] == index[i];
      PicksForHas(ctx, merge, index[..n], i, x);
    }
  }

  /** The loop over the mapping index, against ChooseAll. */
  method ChooseItems(ctx: Context, merge: (ModuleItem, ModuleItem) -> MergeOutcome, d0: Desired,
                     index: seq<(string, Value)>) returns (d: Desired)
    ensures d == ChooseAll(ctx, merge, d0, index)
  {
    d := d0;
    for i := 0 to |index|
      invariant d == ChooseAll(ctx, merge, d0, index[..i])
    {
      ChooseAllStep(ctx, merge, d0, index, i);
      var entry := index[i].1;
      var src := EntrySource(entry, ctx.unassigned);
      var files := SetDefault(d.files, src);
      var p := Pick(ctx, merge, index[i].0, entry);
      d := Desired(AppendTo(files, src, p.0), d.notes + p.1, d.edits + p.2);
    }
    assert index[..|index|] == index;
  }

  /** `{rel: [] for rel in module_items_by_file}`. */
  function InitialFiles(byFile: seq<(string, seq<ModuleItem>)>): (r: FileItems)
    ensures |r| == |byFile| && forall i :: 0 <= i < |r| ==> r[i] == (byFile[i].0, [])
  {
    seq(|byFile|, i requires 0 <= i < |byFile| => (byFile[i].0, []))
  }

  // ------------------------------------------------------------------ the merge

  /**
   * The merged item of an entry present on both sides: the module's data with the domain's edits merged in around
   * its template tags, expanded again from the module's file. It keeps the domain item's id,
   * order and helper type and the module's file; list and lovelace domains keep the domain line.
   */
  function MergedItem(h: Value -> string, fs: Fs, ex: set<string>, keepLine: bool, m: ModuleItem, d: ModuleItem)
    : (r: MergeOutcome)
    ensures r.0.haId == d.haId && r.0.order == d.order && r.0.helperType == d.helperType && r.0.source == m.source
    ensures r.0.line == (if keepLine then d.line else None)
    ensures r.0.data == Merge(MergeSite(fs, m.source, d.source, if keepLine then d.line else None), m.data, d.data, 0).0
    ensures r.0.expanded == Expand(fs, Some(r.0.data), m.source, true, false, 0).0
  {
    var line := if keepLine then d.line else None;
    var mg := Merge(MergeSite(fs, m.source, d.source, line), m.data, d.data, 0);
    var ex2 := Expand(fs, Some(mg.0), m.source, true, false, 0);
    var shown := if ex2.0.Some? then ex2.0.value else Null;
    var notes := seq(|mg.1|, i requires 0 <= i < |mg.1| => MergeWarning(mg.1[i]))
      + seq(|ex2.1|, i requires 0 <= i < |ex2.1| => MergeWarning(ExpansionNote(ex2.1[i])));
    (ModuleItem(d.haId, mg.0, m.source, d.order, ItemName(shown), Fingerprint(h, shown, ex), d.helperType, ex2.0, line),
     notes, mg.2)
  }

  // ------------------------------------------------------------------ what a run keeps

  /** An index built by key: every entry is filed under its item's key. */
  predicate Keyed(composite: bool, ix: ItemIndex)
  {
    forall i :: 0 <= i < |ix| ==> ix[i].0 == KeyOf(composite, ix[i].1)
  }

  /** The first-wins index files each item under its key. */
  lemma {:induction false} FirstWinsKeyed(items: seq<ModuleItem>, composite: bool)
    ensures Keyed(composite, FirstWins(items, composite).0)
  {
    if items != [] {
      FirstWinsKeyed(items[..|items| - 1], composite);
    }
  }

  /** A module item the mapping can name: non-empty id and file, and a helper type for helpers. */
  predicate Nameable(composite: bool, it: ModuleItem)
  {
    it.haId != "" && it.source != "" && (composite ==> it.helperType.Some? && it.helperType.value != "")
  }

  /** The entry a module item's record makes points back at that item. */
  lemma ModuleRecordTarget(ctx: Context, it: ModuleItem)
    requires Nameable(ctx.composite, it)
    ensures TargetKey(ctx.composite, KeyOf(ctx.composite, it), ModuleRecord(ctx.composite, it)) ==
      Some(KeyOf(ctx.composite, it))
    ensures EntrySource(ModuleRecord(ctx.composite, it), ctx.unassigned) == it.source
  {
  }

  /** Preferring the modules, a module item's own record keeps that item. */
  lemma ModuleRecordKeepsItem(ctx: Context, merge: (ModuleItem, ModuleItem) -> MergeOutcome, k: string)
    requires ctx.pref == PreferModules && Keyed(ctx.composite, ctx.modules)
    requires IndexHas(ctx.modules, k) && Nameable(ctx.composite, IndexGet(ctx.modules, k).value)
    ensures var it := IndexGet(ctx.modules, k).value;
      Pick(ctx, merge, k, ModuleRecord(ctx.composite, it)).0 == [it]
  {
    var it := IndexGet(ctx.modules, k).value;
    var i :| 0 <= i < |ctx.modules| && ctx.modules[i] == (k, it);
    assert k == KeyOf(ctx.composite, it);
    ModuleRecordTarget(ctx, it);
    PickCases(ctx, merge, k, ModuleRecord(ctx.composite, it));
  }

  /**
   * Preferring the modules, every module item ends up in its own file: its key names it in the
   * mapping index, its entry points back at it and the decision keeps the module copy.
   */
  lemma ModulesPreferenceKeepsEveryModuleItem(ctx: Context, merge: (ModuleItem, ModuleItem) -> MergeOutcome,
                                              d0: Desired, stored: seq<Value>, k: string)
    requires ctx.pref == PreferModules
    requires NoDuplicates(IndexKeys(ctx.modules)) && NoDuplicates(IndexKeys(ctx.domain)) && Keyed(ctx.composite, ctx.modules)
    requires IndexHas(ctx.modules, k) && Nameable(ctx.composite, IndexGet(ctx.modules, k).value)
    ensures var it := IndexGet(ctx.modules, k).value;
      var index := MappingIndex(stored, ctx.modules, ctx.domain, ctx.composite, ctx.unassigned);
      it in ItemsIn(ChooseAll(ctx, merge, d0, index).files, it.source)
  {
    var it := IndexGet(ctx.modules, k).value;
    var index := MappingIndex(stored, ctx.modules, ctx.domain, ctx.composite, ctx.unassigned);
    MappingIndexGet(stored, ctx.modules, ctx.domain, ctx.composite, ctx.unassigned, k);
    var rec := ModuleRecord(ctx.composite, it);
    var j :| 0 <= j < |index| && index[j] == (k, rec);
    ModuleRecordKeepsItem(ctx, merge, k);
    ModuleRecordTarget(ctx, it);
    PicksForHas(ctx, merge, index, j, it);
    ChooseAllFiles(ctx, merge, d0, index, it.source);
  }

  /** A domain item, or the merge of a module item into the domain item under the same key. */
  ghost predicate FromDomain(ctx: Context, merge: (ModuleItem, ModuleItem) -> MergeOutcome, x: ModuleItem)
  {
    (exists k :: IndexGet(ctx.domain, k) == Some(x)) ||
    exists k :: IndexHas(ctx.modules, k) && IndexGet(ctx.domain, k).Some? &&
      x == merge(IndexGet(ctx.modules, k).value, IndexGet(ctx.domain, k).value).0
  }

  /** Preferring the domain, an entry never keeps a module copy as it is. */
  lemma DomainPreferencePick(ctx: Context, merge: (ModuleItem, ModuleItem) -> MergeOutcome, key: string, entry: Value)
    requires ctx.pref == PreferDomain
    ensures forall x :: x in Pick(ctx, merge, key, entry).0 ==> FromDomain(ctx, merge, x)
  {
    PickCases(ctx, merge, key, entry);
    var t := TargetKey(ctx.composite, key, entry);
    var c := EntryChoice(ctx, key, entry);
    if c == TakeDomain {
      assert IndexGet(ctx.domain, t.value) == Some(Pick(ctx, merge, key, entry).0[0]);
    } else if c == TakeMerged {
      assert IndexGet(ctx.domain, t.value).Some?;
    }
  }

  /** Preferring the domain, whatever the loop adds to a file is a domain item or such a merge. */
  lemma {:induction false} DomainPreferenceKeepsDomainCopies(ctx: Context, merge: (ModuleItem, ModuleItem) -> MergeOutcome,
                                                            index: seq<(string, Value)>, f: string)
    requires ctx.pref == PreferDomain
    ensures forall x :: x in PicksFor(ctx, merge, index, f) ==> FromDomain(ctx, merge, x)
  {
    if index != [] {
      var n := |index| - 1;
      DomainPreferenceKeepsDomainCopies(ctx, merge, index[..n], f);
      DomainPreferencePick(ctx, merge, index[n].0, index[n].1);
    }
  }
}
