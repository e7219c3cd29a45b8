/**
 * Fingerprint-based automation id reconciliation (yaml_modules.py `reconcile_automation_ids`):
 * when Home Assistant rewrote an automation's id in `automations.yaml`, the module copy with the
 * same content fingerprint is given that id, provided the match is one-to-one.
 */
module ReconcileIds {
  import opened Wrappers
  import opened Text
  import opened Yaml
  import opened ModuleDomains
  import opened ModuleItems
  import opened SyncChoose
  import opened SyncOutput
  import opened ModuleFiles
  import opened YamlTags

  // ------------------------------------------------------------------ items by fingerprint

  /** The items with fingerprint `fp`, in order. */
  function WithFingerprint(items: seq<ModuleItem>, fp: string): (r: seq<ModuleItem>)
    ensures forall x :: x in r ==> x in items && x.fingerprint == fp
    ensures forall x :: x in items && x.fingerprint == fp ==> x in r
  {
    if items == [] then []
    else
      var n := |items| - 1;
      WithFingerprint(items[..n], fp) + (if items[n].fingerprint == fp then [items[n]] else [])
  }

  /** `by_fp.setdefault(item.fingerprint, []).append(item)` for every item with a fingerprint. */
  function Groups(items: seq<ModuleItem>): FileItems
  {
    if items == [] then []
    else
      var n := |items| - 1;
      var d := Groups(items[..n]);
      var fp := items[n].fingerprint;
      if fp == [] then d else AppendTo(SetDefault(d, fp), fp, [items[n]])
  }

  lemma GroupsStep(items: seq<ModuleItem>, i: nat)
    requires i < |items|
    ensures Groups(items[..i + 1]) ==
      var d := Groups(items[..i]);
      var fp := items[i].fingerprint;
      if fp == [] then d else AppendTo(SetDefault(d, fp), fp, [items[i]])
  {
    assert items[..i + 1][..i] == items[..i];
  }

  /** The loop that fills `module_by_fp` (and `domain_by_fp`). */
  method GroupByFingerprint(items: seq<ModuleItem>) returns (d: FileItems)
    ensures d == Groups(items)
  {
    d := [];
    for i := 0 to |items|
      invariant d == Groups(items[..i])
    {
      GroupsStep(items, i);
      var fp := items[i].fingerprint;
      if fp == [] {
        continue;
      }
      d := SetDefault(d, fp);
      d := AppendTo(d, fp, [items[i]]);
    }
    assert items[..|items|] == items;
  }

  /**
   * Grouping by fingerprint: the group of a non-empty fingerprint holds exactly the items with
   * it, in order, and exists exactly when some item has it; items without one are in no group.
   */
  lemma {:induction false} GroupsHold(items: seq<ModuleItem>, fp: string)
    ensures ItemsIn(Groups(items), fp) == if fp == [] then [] else WithFingerprint(items, fp)
    ensures HasFile(Groups(items), fp) <==> fp != [] && WithFingerprint(items, fp) != []
  {
    if items != [] {
      var n := |items| - 1;
      var d := Groups(items[..n]);
      GroupsHold(items[..n], fp);
      var f := items[n].fingerprint;
      if f != [] {
        var s := SetDefault(d, f);
        ItemsInSetDefault(d, f, fp);
        ItemsInAppendTo(s, f, [items[n]], fp);
        HasFileAppendTo(s, f, [items[n]], fp);
      }
    }
  }

  /** No fingerprint has two groups. */
  lemma {:induction false} GroupsDistinct(items: seq<ModuleItem>)
    ensures forall i, j :: 0 <= i < j < |Groups(items)| ==> Groups(items)[i].0 != Groups(items)[j].0
  {
    if items != [] {
      var n := |items| - 1;
      var d := Groups(items[..n]);
      GroupsDistinct(items[..n]);
      var f := items[n].fingerprint;
      if f != [] {
        var s := SetDefault(d, f);
        assert forall i, j :: 0 <= i < j < |s| ==> s[i].0 != s[j].0 by {
          if !HasFile(d, f) {
            forall i | 0 <= i < |d| ensures d[i].0 != f {
            }
          }
        }
        var r := AppendTo(s, f, [items[n]]);
        assert forall i :: 0 <= i < |s| ==> r[i].0 == s[i].0;
      }
    }
  }

  /** In a dict without repeated keys, looking up an entry's key finds that entry. */
  lemma {:induction false} ItemsInAt(d: FileItems, k: nat)
    requires k < |d| && forall i, j :: 0 <= i < j < |d| ==> d[i].0 != d[j].0
    ensures ItemsIn(d, d[k].0) == d[k].1
  {
    if k > 0 {
      assert d[0].0 != d[k].0;
      assert d[1..][k - 1] == d[k];
      ItemsInAt(d[1..], k - 1);
    }
  }

  // ------------------------------------------------------------------ matching groups

  /** A module item given the id its domain match carries. */
  datatype Rewrite = Rewrite(item: ModuleItem, newId: string)

  /** The group's rewrite: one module item, one domain item, and different ids. */
  function GroupRewrite(domain: FileItems, g: (string, seq<ModuleItem>)): (r: Option<Rewrite>)
    ensures r.Some? <==> |g.1| == 1 && |ItemsIn(domain, g.0)| == 1 && g.1[0].haId != ItemsIn(domain, g.0)[0].haId
    ensures r.Some? ==> r.value == Rewrite(g.1[0], ItemsIn(domain, g.0)[0].haId)
  {
    var dm := ItemsIn(domain, g.0);
    if |g.1| == 1 && |dm| == 1 && g.1[0].haId != dm[0].haId then Some(Rewrite(g.1[0], dm[0].haId)) else None
  }

  /** The group's fingerprint when both sides have candidates but the match is not one-to-one. */
  function GroupAmbiguity(domain: FileItems, g: (string, seq<ModuleItem>)): (r: Option<string>)
    ensures r.Some? <==> g.1 != [] && ItemsIn(domain, g.0) != [] && !(|g.1| == 1 && |ItemsIn(domain, g.0)| == 1)
    ensures r.Some? ==> r.value == g.0
  {
    var dm := ItemsIn(domain, g.0);
    if |g.1| == 1 && |dm| == 1 then None
    else if dm != [] && g.1 != [] then Some(g.0)
    else None
  }

  function RewriteOf(domain: FileItems): ((string, seq<ModuleItem>)) -> Option<Rewrite>
  {
    g => GroupRewrite(domain, g)
  }

  function AmbiguityOf(domain: FileItems): ((string, seq<ModuleItem>)) -> Option<string>
  {
    g => GroupAmbiguity(domain, g)
  }

  /** The loop over `module_by_fp`: the rewrites, and the fingerprints reported as ambiguous. */
  method MatchGroups(groups: FileItems, domain: FileItems) returns (rewrites: seq<Rewrite>, ambiguous: seq<string>)
    ensures rewrites == FilterMap(groups, RewriteOf(domain))
    ensures ambiguous == FilterMap(groups, AmbiguityOf(domain))
  {
    rewrites, ambiguous := [], [];
    for i := 0 to |groups|
      invariant rewrites == FilterMap(groups[..i], RewriteOf(domain))
      invariant ambiguous == FilterMap(groups[..i], AmbiguityOf(domain))
    {
      FilterMapStep(groups, RewriteOf(domain), i);
      FilterMapStep(groups, AmbiguityOf(domain), i);
      var dm := ItemsIn(domain, groups[i].0);
      var mm := groups[i].1;
      if |mm| == 1 && |dm| == 1 {
        if mm[0].haId != dm[0].haId {
          rewrites := rewrites + [Rewrite(mm[0], dm[0].haId)];
        }
        continue;
      }
      if dm != [] && mm != [] {
        ambiguous := ambiguous + [groups[i].0];
      }
    }
    assert groups[..|groups|] == groups;
  }

  /** The rewrites of one run over the module items and the domain items. */
  function Rewrites(moduleItems: seq<ModuleItem>, domainItems: seq<ModuleItem>): seq<Rewrite>
  {
    FilterMap(Groups(moduleItems), RewriteOf(Groups(domainItems)))
  }

  /** The fingerprints one run reports as ambiguous. */
  function Ambiguous(moduleItems: seq<ModuleItem>, domainItems: seq<ModuleItem>): seq<string>
  {
    FilterMap(Groups(moduleItems), AmbiguityOf(Groups(domainItems)))
  }

  /**
   * A one-to-one match: the item is the only module item with its (non-empty) fingerprint,
   * exactly one domain item has that fingerprint, and its id is the new one, different from the
   * module item's.
   */
  predicate UniqueMatch(moduleItems: seq<ModuleItem>, domainItems: seq<ModuleItem>, w: Rewrite)
  {
    var fp := w.item.fingerprint;
    fp != [] && WithFingerprint(moduleItems, fp) == [w.item] && |WithFingerprint(domainItems, fp)| == 1 &&
    WithFingerprint(domainItems, fp)[0].haId == w.newId && w.newId != w.item.haId
  }

  /** An id is rewritten exactly for the one-to-one matches whose ids differ. */
  lemma RewritesExactly(moduleItems: seq<ModuleItem>, domainItems: seq<ModuleItem>, w: Rewrite)
    ensures w in Rewrites(moduleItems, domainItems) <==> UniqueMatch(moduleItems, domainItems, w)
  {
    var groups := Groups(moduleItems);
    var domain := Groups(domainItems);
    FilterMapMembers(groups, RewriteOf(domain), w);
    if w in Rewrites(moduleItems, domainItems) {
      var k :| 0 <= k < |groups| && GroupRewrite(domain, groups[k]) == Some(w);
      RewriteSound(moduleItems, domainItems, k, w);
    }
    if UniqueMatch(moduleItems, domainItems, w) {
      GroupsHold(moduleItems, w.item.fingerprint);
      var k :| 0 <= k < |groups| && groups[k].0 == w.item.fingerprint;
      RewriteComplete(moduleItems, domainItems, k, w);
    }
  }

  lemma RewriteSound(moduleItems: seq<ModuleItem>, domainItems: seq<ModuleItem>, k: nat, w: Rewrite)
    requires k < |Groups(moduleItems)| && GroupRewrite(Groups(domainItems), Groups(moduleItems)[k]) == Some(w)
    ensures UniqueMatch(moduleItems, domainItems, w)
  {
    var groups := Groups(moduleItems);
    var g := groups[k];
    GroupsDistinct(moduleItems);
    ItemsInAt(groups, k);
    assert HasFile(groups, g.0);
    GroupsHold(moduleItems, g.0);
    assert g.1 == [w.item];
    assert w.item in WithFingerprint(moduleItems, g.0);
    GroupsHold(domainItems, g.0);
  }

  lemma RewriteComplete(moduleItems: seq<ModuleItem>, domainItems: seq<ModuleItem>, k: nat, w: Rewrite)
    requires UniqueMatch(moduleItems, domainItems, w)
    requires k < |Groups(moduleItems)| && Groups(moduleItems)[k].0 == w.item.fingerprint
    ensures GroupRewrite(Groups(domainItems), Groups(moduleItems)[k]) == Some(w)
  {
    var fp := w.item.fingerprint;
    GroupsDistinct(moduleItems);
    ItemsInAt(Groups(moduleItems), k);
    GroupsHold(moduleItems, fp);
    GroupsHold(domainItems, fp);
  }

  /**
   * A fingerprint is reported as ambiguous exactly when both sides have items with it and the
   * match is not one-to-one; such groups give no rewrite.
   */
  lemma AmbiguousExactly(moduleItems: seq<ModuleItem>, domainItems: seq<ModuleItem>, fp: string)
    ensures fp in Ambiguous(moduleItems, domainItems) <==>
      fp != [] && WithFingerprint(moduleItems, fp) != [] && WithFingerprint(domainItems, fp) != [] &&
      !(|WithFingerprint(moduleItems, fp)| == 1 && |WithFingerprint(domainItems, fp)| == 1)
  {
    var groups := Groups(moduleItems);
    var domain := Groups(domainItems);
    FilterMapMembers(groups, AmbiguityOf(domain), fp);
    GroupsDistinct(moduleItems);
    GroupsHold(moduleItems, fp);
    GroupsHold(domainItems, fp);
    if fp in Ambiguous(moduleItems, domainItems) {
      var k :| 0 <= k < |groups| && GroupAmbiguity(domain, groups[k]) == Some(fp);
      ItemsInAt(groups, k);
    }
    if fp != [] && WithFingerprint(moduleItems, fp) != [] && WithFingerprint(domainItems, fp) != [] &&
       !(|WithFingerprint(moduleItems, fp)| == 1 && |WithFingerprint(domainItems, fp)| == 1) {
      var k :| 0 <= k < |groups| && groups[k].0 == fp;
      ItemsInAt(groups, k);
      assert GroupAmbiguity(domain, groups[k]) == Some(fp);
    }
  }

  // ------------------------------------------------------------------ applying the rewrites

  /** `module_item.data[id_field] = new_id; module_item.ha_id = new_id`. */
  function Renamed(it: ModuleItem, newId: string): (r: ModuleItem)
    ensures r.haId == newId && r.source == it.source && r.order == it.order && r.fingerprint == it.fingerprint
    ensures it.data.Map? ==> r.data == WithId(AutomationSpec, it.data, newId)
    ensures !it.data.Map? ==> r.data == it.data
  {
    it.(haId := newId, data := if it.data.Map? then WithId(AutomationSpec, it.data, newId) else it.data)
  }

  /** The rewrite of an item, if any. */
  function RewriteFor(rewrites: seq<Rewrite>, it: ModuleItem): (r: Option<Rewrite>)
    ensures r.Some? ==> r.value in rewrites && r.value.item == it
    ensures r.None? ==> forall w :: w in rewrites ==> w.item != it
  {
    if rewrites == [] then None
    else if rewrites[0].item == it then Some(rewrites[0])
    else RewriteFor(rewrites[1..], it)
  }

  /** The items after the rewrites: a rewritten item renamed, every other one unchanged. */
  function Applied(items: seq<ModuleItem>, rewrites: seq<Rewrite>): (r: seq<ModuleItem>)
    ensures |r| == |items|
    ensures forall i :: 0 <= i < |items| ==>
      r[i] == if RewriteFor(rewrites, items[i]).Some? then Renamed(items[i], RewriteFor(rewrites, items[i]).value.newId) else items[i]
  {
    seq(|items|, i requires 0 <= i < |items| =>
      if RewriteFor(rewrites, items[i]).Some? then Renamed(items[i], RewriteFor(rewrites, items[i]).value.newId) else items[i])
  }

  /**
   * A rewritten module entry, read again, has the domain's id as its own id, and every other
   * key as before: the module file and `automations.yaml` now agree on the id.
   */
  lemma RenamedReadsNewId(it: ModuleItem, newId: string, k: string)
    requires it.data.Map? && newId != []
    ensures OwnId(AutomationSpec, Renamed(it, newId).data) == Some(newId)
    ensures k != "id" ==> Get(Renamed(it, newId).data.entries, k) == Get(it.data.entries, k)
  {
    WrittenIdIsOwn(AutomationSpec, it.data, newId);
    WrittenIdReadable(AutomationSpec, it.data, newId, k);
  }

  // ------------------------------------------------------------------ the whole run

  /** What `reconcile_automation_ids` returns; `payloads` are the files offered to `write_yaml_if_changed`. */
  datatype Outcome =
    | Stopped(reason: string, warnings: seq<string>)
    | Finished(rewrites: seq<Rewrite>, payloads: seq<(string, Value)>, warnings: seq<string>)

  /** `"reconciled"` when some id was rewritten, `"no_changes"` otherwise, `"skipped"` when the run stopped early. */
  function Status(o: Outcome): string
  {
    if o.Stopped? then "skipped" else if o.rewrites != [] then "reconciled" else "no_changes"
  }

  function AmbiguityMessage(fp: string): string
  {
    "Ambiguous automation ID reconciliation for fingerprint " + fp + "; skipping."
  }

  function Messages(ns: seq<FileNote>): (r: seq<string>)
    ensures |r| == |ns|
  {
    seq(|ns|, i requires 0 <= i < |ns| => FileNoteMessage(ns[i]))
  }

  /** Each module file read on its own (no ids shared between files): items, validity and warnings. */
  function ReadModules(h: Value -> string, fs: Fs, files: seq<ModuleFile>): (r: seq<ListFile>)
    ensures |r| == |files| && forall i :: 0 <= i < |files| ==> r[i] == ParseListFile(h, fs, AutomationSpec, files[i], {})
  {
    seq(|files|, i requires 0 <= i < |files| => ParseListFile(h, fs, AutomationSpec, files[i], {}))
  }

  /** The warnings of reading the module files, file after file. */
  function ReadWarnings(parsed: seq<ListFile>): seq<string>
  {
    if parsed == [] then [] else ReadWarnings(parsed[..|parsed| - 1]) + Messages(parsed[|parsed| - 1].notes)
  }

  /** The items of the readable module files, file after file (`module_items.extend(items)`). */
  function AllItems(parsed: seq<ListFile>): seq<ModuleItem>
  {
    if parsed == [] then []
    else
      var n := |parsed| - 1;
      AllItems(parsed[..n]) + (if parsed[n].valid then parsed[n].items else [])
  }

  /** The payload of each readable module file: its items' data, in order, after the rewrites. */
  function Payloads(files: seq<ModuleFile>, parsed: seq<ListFile>, rewrites: seq<Rewrite>): (r: seq<(string, Value)>)
    requires |parsed| == |files|
    ensures forall p :: p in r ==> exists i :: 0 <= i < |files| && parsed[i].valid && p.0 == files[i].rel
  {
    if files == [] then []
    else
      var n := |files| - 1;
      var front := Payloads(files[..n], parsed[..n], rewrites);
      if parsed[n].valid then front + [(files[n].rel, ListFilePayload(Applied(parsed[n].items, rewrites)))] else front
  }

  /**
   * `reconcile_automation_ids`: without module files, or with an unreadable `automations.yaml`,
   * the run stops; otherwise the one-to-one fingerprint matches are rewritten and every readable
   * module file is offered for writing back.
   */
  function ReconcileAutomationIds(h: Value -> string, fs: Fs, files: seq<ModuleFile>, domainFile: ModuleFile): (r: Outcome)
    ensures files == [] ==> r == Stopped("No automation module files found.", [])
    ensures files != [] && domainFile.content.Invalid? ==> r.Stopped? && r.reason == "automations.yaml is invalid."
    ensures r.Finished? ==> files != [] && !domainFile.content.Invalid?
    ensures r.Finished? ==> forall p :: p in r.payloads ==> exists i :: 0 <= i < |files| && p.0 == files[i].rel
  {
    if files == [] then Stopped("No automation module files found.", [])
    else
      var parsed := ReadModules(h, fs, files);
      var domain := ParseListFile(h, fs, AutomationSpec, domainFile, {});
      var warnings := ReadWarnings(parsed) + Messages(domain.notes);
      if !domain.valid then Stopped("automations.yaml is invalid.", warnings)
      else
        var moduleItems := AllItems(parsed);
        var rewrites := Rewrites(moduleItems, domain.items);
        var ambiguous := Ambiguous(moduleItems, domain.items);
        Finished(rewrites, Payloads(files, parsed, rewrites),
                 warnings + seq(|ambiguous|, i requires 0 <= i < |ambiguous| => AmbiguityMessage(ambiguous[i])))
  }

  lemma RewritesAreMatches(r: Outcome, moduleItems: seq<ModuleItem>, domainItems: seq<ModuleItem>)
    requires r.Finished? && r.rewrites == Rewrites(moduleItems, domainItems)
    ensures forall w :: w in r.rewrites <==> UniqueMatch(moduleItems, domainItems, w)
    ensures Status(r) == "reconciled" <==> exists w :: UniqueMatch(moduleItems, domainItems, w)
  {
    forall w
      ensures w in r.rewrites <==> UniqueMatch(moduleItems, domainItems, w)
    {
      RewritesExactly(moduleItems, domainItems, w);
    }
    if r.rewrites != [] {
      assert UniqueMatch(moduleItems, domainItems, r.rewrites[0]);
    }
  }

  /**
   * A finished run rewrites exactly the one-to-one fingerprint matches between the readable
   * module files and `automations.yaml`, and so reports `"reconciled"` exactly when there is one.
   */
  lemma ReconcileRewritesMatches(h: Value -> string, fs: Fs, files: seq<ModuleFile>, domainFile: ModuleFile)
    ensures ReconcileAutomationIds(h, fs, files, domainFile).Finished? ==>
      (forall w :: w in ReconcileAutomationIds(h, fs, files, domainFile).rewrites <==>
        UniqueMatch(AllItems(ReadModules(h, fs, files)), ParseListFile(h, fs, AutomationSpec, domainFile, {}).items, w)) &&
      (Status(ReconcileAutomationIds(h, fs, files, domainFile)) == "reconciled" <==>
        exists w :: UniqueMatch(AllItems(ReadModules(h, fs, files)), ParseListFile(h, fs, AutomationSpec, domainFile, {}).items, w))
  {
    var r := ReconcileAutomationIds(h, fs, files, domainFile);
    if r.Finished? {
      var moduleItems := AllItems(ReadModules(h, fs, files));
      var domainItems := ParseListFile(h, fs, AutomationSpec, domainFile, {}).items;
      RewritesAreMatches(r, moduleItems, domainItems);
    }
  }
}
