/**
 * Reading the items of a list-kind module file or domain file (yaml_modules.py `ModuleItem`,
 * `_parse_list_items`): every map entry becomes an item with an id, taken from the entry or
 * generated, its expansion with templates resolved, its name and its fingerprint. Generated
 * ids are written back into the entry when the domain keeps its ids in a field. For
 * automations the ids already taken are shared by all module files of the run (the seeding loop of `_sync_list_domain`).
 */
module ModuleItems {
  import opened Wrappers
  import opened Text
  import opened Yaml
  import opened YamlTags
  import opened Fingerprints
  import opened ItemIds
  import opened ModuleDomains

  /** `ModuleItem`: one item of one file, where it came from, and what it expands to. */
  datatype ModuleItem = ModuleItem(
    haId: string,
    data: Value,
    source: string,
    order: nat,
    name: Option<string>,
    fingerprint: string,
    helperType: Option<string>,
    expanded: Option<Value>,
    line: Option<int>)

  /** A warning recorded while reading items. */
  datatype ParseNote =
    | NotAList(rel: string)
    | NotAMap(rel: string, position: nat)
    | ExpandNote(w: Warning)

  function ParseNoteMessage(n: ParseNote): string
  {
    match n
    case NotAList(rel) => rel + " is not a list of items."
    case NotAMap(rel, position) => rel + " item " + NatToString(position) + " is not a map."
    case ExpandNote(w) => Message(w)
  }

  function ExpandNotes(ws: seq<Warning>): (r: seq<ParseNote>)
    ensures |r| == |ws| && forall i :: 0 <= i < |ws| ==> r[i] == ExpandNote(ws[i])
  {
    seq(|ws|, i requires 0 <= i < |ws| => ExpandNote(ws[i]))
  }

  /** The domain's id field, when it has a non-empty one. */
  function IdField(spec: DomainSpec): Option<string>
  {
    if spec.idField.Some? && spec.idField.value != [] then spec.idField else None
  }

  /** `{spec.id_field} if spec.id_field else set()`: the keys a fingerprint leaves out. */
  function ExcludeKeys(spec: DomainSpec): (r: set<string>)
    ensures IdField(spec).Some? ==> r == {IdField(spec).value}
    ensures IdField(spec).None? ==> r == {}
  {
    if IdField(spec).Some? then {IdField(spec).value} else {}
  }

  /** `lines[idx]` when the loader gave a line for this position; an absent list is empty. */
  function LineAt(lines: seq<int>, idx: nat): (r: Option<int>)
    ensures r.Some? <==> idx < |lines|
    ensures r.Some? ==> r.value == lines[idx]
  {
    if idx < |lines| then Some(lines[idx]) else None
  }

  /** The entry's own id, when it has a truthy one (`if item_id:`). */
  function OwnId(spec: DomainSpec, entry: Value): (r: Option<string>)
    ensures r.Some? ==> r.value != [] && r == ExtractItemId(entry, spec.idField)
    ensures r.None? <==> ExtractItemId(entry, spec.idField) in {None, Some("")}
  {
    var x := ExtractItemId(entry, spec.idField);
    if x.Some? && x.value != [] then x else None
  }

  /** The candidate an automation without an id starts from: its alias, else its position. */
  function AutomationCandidate(entry: Value, rel: string, line: Option<int>, idx: nat): (r: string)
    ensures AutomationAliasId(entry).Some? ==> r == AutomationAliasId(entry).value
    ensures AutomationAliasId(entry).None? ==> r == SyntheticId(rel, line, idx)
  {
    match AutomationAliasId(entry)
    case Some(c) => c
    case None => SyntheticId(rel, line, idx)
  }

  /**
   * The id generated for an entry without one: for automations the alias-based or positional
   * candidate made unique against the ids taken so far; for lovelace the sanitised position;
   * otherwise the position itself.
   */
  function GeneratedId(spec: DomainSpec, rel: string, line: Option<int>, idx: nat, entry: Value, used: set<string>)
    : (r: string)
    ensures spec.key == "automation" ==> r !in used
    ensures spec.key == "lovelace" ==> r == SanitizeLovelacePath(SyntheticId(rel, line, idx))
    ensures r != []
  {
    if spec.key == "automation" then UniqueId(AutomationCandidate(entry, rel, line, idx), used)
    else if spec.key == "lovelace" then SanitizeLovelacePath(SyntheticId(rel, line, idx))
    else SyntheticId(rel, line, idx)
  }

  /** The entry after its id is settled: the generated id written into the id field when the domain writes ids. */
  function WithId(spec: DomainSpec, entry: Value, id: string): (r: Value)
    requires entry.Map?
    ensures r.Map?
    ensures IdField(spec).Some? && spec.autoId ==> r == Map(Put(entry.entries, IdField(spec).value, Str(id)))
    ensures !(IdField(spec).Some? && spec.autoId) ==> r == entry
  {
    if IdField(spec).Some? && spec.autoId then Map(Put(entry.entries, IdField(spec).value, Str(id))) else entry
  }

  /** An entry the loop keeps: its position, its id and its map after the id was written back. */
  datatype Assigned = Assigned(order: nat, id: string, entries: seq<(string, Value)>)

  /** What the loop does with the entry at each position: skip it (not a map) or keep it. */
  datatype Step = Skipped(position: nat) | Kept(a: Assigned)

  /** The id part of the loop's state: what was done with each entry, whether an id was written, the ids taken. */
  datatype IdState = IdState(steps: seq<Step>, changed: bool, used: set<string>)

  /** How the loop settles the id of the entry at position `idx`. */
  function IdStep(spec: DomainSpec, rel: string, lines: seq<int>, st: IdState, idx: nat, entry: Value): (r: IdState)
    ensures |r.steps| == |st.steps| + 1 && r.steps[..|st.steps|] == st.steps
    ensures !entry.Map? ==> r == st.(steps := st.steps + [Skipped(idx)])
    ensures entry.Map? ==> r.steps[|st.steps|].Kept?
    ensures entry.Map? ==>
      var kept := r.steps[|st.steps|].a;
      kept.order == idx && kept.id != [] && r.used == st.used + {kept.id}
    ensures entry.Map? && OwnId(spec, entry).Some? ==>
      var kept := r.steps[|st.steps|].a;
      kept.id == OwnId(spec, entry).value && Map(kept.entries) == entry && r.changed == st.changed
    ensures entry.Map? && OwnId(spec, entry).None? ==>
      var kept := r.steps[|st.steps|].a;
      kept.id == GeneratedId(spec, rel, LineAt(lines, idx), idx, entry, st.used) &&
      Map(kept.entries) == WithId(spec, entry, kept.id) &&
      (r.changed <==> st.changed || (IdField(spec).Some? && spec.autoId))
  {
    if !entry.Map? then st.(steps := st.steps + [Skipped(idx)])
    else
      var own := OwnId(spec, entry);
      var id := if own.Some? then own.value else GeneratedId(spec, rel, LineAt(lines, idx), idx, entry, st.used);
      var written := if own.Some? then entry else WithId(spec, entry, id);
      var injected := own.None? && IdField(spec).Some? && spec.autoId;
      IdState(st.steps + [Kept(Assigned(idx, id, written.entries))], st.changed || injected, st.used + {id})
  }

  /** The id part of the loop over the entries. */
  function AssignIds(spec: DomainSpec, rel: string, lines: seq<int>, st0: IdState, entries: seq<Value>): IdState
  {
    if entries == [] then st0
    else
      var n := |entries| - 1;
      IdStep(spec, rel, lines, AssignIds(spec, rel, lines, st0, entries[..n]), n, entries[n])
  }

  lemma AssignIdsStep(spec: DomainSpec, rel: string, lines: seq<int>, st0: IdState, entries: seq<Value>, i: nat)
    requires i < |entries|
    ensures AssignIds(spec, rel, lines, st0, entries[..i + 1]) ==
      IdStep(spec, rel, lines, AssignIds(spec, rel, lines, st0, entries[..i]), i, entries[i])
  {
    assert entries[..i + 1][..i] == entries[..i];
  }

  /** The kept entries, in order. */
  function Kepts(steps: seq<Step>): seq<Assigned>
  {
    if steps == [] then []
    else
      var n := |steps| - 1;
      Kepts(steps[..n]) + (if steps[n].Kept? then [steps[n].a] else [])
  }

  /** The item made from a kept entry. */
  function MakeItem(h: Value -> string, fs: Fs, spec: DomainSpec, rel: string, lines: seq<int>, a: Assigned)
    : (r: (ModuleItem, seq<Warning>))
    ensures r.0.haId == a.id && r.0.data == Map(a.entries) && r.0.source == rel && r.0.order == a.order
    ensures r.0.expanded == Expand(fs, Some(Map(a.entries)), rel, true, false, 0).0 && r.0.expanded.Some?
    ensures r.0.fingerprint == Fingerprint(h, r.0.expanded.value, ExcludeKeys(spec))
    ensures r.0.name == ItemName(r.0.expanded.value) && r.0.line == LineAt(lines, a.order)
    ensures r.0.helperType.None?
    ensures r.1 == Expand(fs, Some(Map(a.entries)), rel, true, false, 0).1
  {
    var ex := Expand(fs, Some(Map(a.entries)), rel, true, false, 0);
    var expanded := ex.0.value;
    (ModuleItem(a.id, Map(a.entries), rel, a.order, ItemName(expanded), Fingerprint(h, expanded, ExcludeKeys(spec)),
                None, ex.0, LineAt(lines, a.order)), ex.1)
  }

  /** The items of the kept entries, in order. */
  function ItemsOf(h: Value -> string, fs: Fs, spec: DomainSpec, rel: string, lines: seq<int>, steps: seq<Step>)
    : (r: seq<ModuleItem>)
    ensures |r| == |Kepts(steps)|
    ensures forall j :: 0 <= j < |r| ==> r[j] == MakeItem(h, fs, spec, rel, lines, Kepts(steps)[j]).0
  {
    var ks := Kepts(steps);
    seq(|ks|, j requires 0 <= j < |ks| => MakeItem(h, fs, spec, rel, lines, ks[j]).0)
  }

  /** The warnings one step records: a skipped entry's, or those of expanding a kept one. */
  function StepNotes(fs: Fs, rel: string, s: Step): seq<ParseNote>
  {
    match s
    case Skipped(p) => [NotAMap(rel, p + 1)]
    case Kept(kept) => ExpandNotes(Expand(fs, Some(Map(kept.entries)), rel, true, false, 0).1)
  }

  /** The warnings, in the order the loop records them. */
  function NotesOf(fs: Fs, rel: string, steps: seq<Step>): seq<ParseNote>
  {
    if steps == [] then []
    else
      var n := |steps| - 1;
      NotesOf(fs, rel, steps[..n]) + StepNotes(fs, rel, steps[n])
  }

  /** What `_parse_list_items` returns, with the ids taken afterwards. */
  datatype ParseState = ParseState(items: seq<ModuleItem>, changed: bool, notes: seq<ParseNote>, used: set<string>)

  /** `_parse_list_items`: no data is an empty list, anything but a list is refused with a warning. */
  function ParseListItems(h: Value -> string, fs: Fs, spec: DomainSpec, rel: string, data: Value,
                          lines: seq<int>, used: set<string>): (r: ParseState)
    ensures data.Null? ==> r == ParseState([], false, [], used)
    ensures !data.Null? && !data.Seq? ==> r == ParseState([], false, [NotAList(rel)], used)
  {
    if data.Null? then ParseState([], false, [], used)
    else if !data.Seq? then ParseState([], false, [NotAList(rel)], used)
    else
      var ids := AssignIds(spec, rel, lines, IdState([], false, used), data.items);
      ParseState(ItemsOf(h, fs, spec, rel, lines, ids.steps), ids.changed, NotesOf(fs, rel, ids.steps), ids.used)
  }

  lemma ItemsOfKeep(h: Value -> string, fs: Fs, spec: DomainSpec, rel: string, lines: seq<int>, steps: seq<Step>, s: Step)
    ensures ItemsOf(h, fs, spec, rel, lines, steps + [s]) ==
      ItemsOf(h, fs, spec, rel, lines, steps) + (if s.Kept? then [MakeItem(h, fs, spec, rel, lines, s.a).0] else [])
  {
    KeptsAppend(steps, s);
    var a := ItemsOf(h, fs, spec, rel, lines, steps + [s]);
    var b := ItemsOf(h, fs, spec, rel, lines, steps) + (if s.Kept? then [MakeItem(h, fs, spec, rel, lines, s.a).0] else []);
    assert |a| == |b|;
    forall j | 0 <= j < |a| ensures a[j] == b[j] {
      if j < |Kepts(steps)| {
        assert Kepts(steps + [s])[j] == Kepts(steps)[j];
      }
    }
  }

  lemma KeptsAppend(steps: seq<Step>, s: Step)
    ensures Kepts(steps + [s]) == Kepts(steps) + (if s.Kept? then [s.a] else [])
  {
    assert (steps + [s])[..|steps|] == steps;
  }

  lemma NotesOfStep(fs: Fs, rel: string, steps: seq<Step>, s: Step)
    ensures NotesOf(fs, rel, steps + [s]) == NotesOf(fs, rel, steps) + StepNotes(fs, rel, s)
  {
    assert (steps + [s])[..|steps|] == steps;
  }

  /**
   * The body of the loop for a map entry: the entry's own id, or one generated (for automations
   * by the counting loop of `_ensure_unique_id`) and written back when the domain writes ids.
   */
  method SettleId(spec: DomainSpec, rel: string, lines: seq<int>, ghost st: IdState, used: set<string>,
                  idx: nat, entry: Value)
    returns (id: string, written: seq<(string, Value)>, injected: bool)
    requires entry.Map? && st.used == used
    ensures IdStep(spec, rel, lines, st, idx, entry) ==
      IdState(st.steps + [Kept(Assigned(idx, id, written))], st.changed || injected, st.used + {id})
  {
    var own := OwnId(spec, entry);
    written := entry.entries;
    injected := false;
    if own.Some? {
      id := own.value;
    } else {
      if spec.key == "automation" {
        id := EnsureUniqueId(AutomationCandidate(entry, rel, LineAt(lines, idx), idx), used);
      } else {
        id := GeneratedId(spec, rel, LineAt(lines, idx), idx, entry, used);
      }
      if IdField(spec).Some? && spec.autoId {
        written := Put(entry.entries, IdField(spec).value, Str(id));
        injected := true;
      }
    }
  }

  /**
   * The loop of `_parse_list_items`, with the generated ids made unique by the counting loop of
   * `_ensure_unique_id`. `used` is the shared id set on entry; the result's `used` is that set
   * after the loop.
   */
  method ParseItems(h: Value -> string, fs: Fs, spec: DomainSpec, rel: string, data: Value,
                    lines: seq<int>, used: set<string>) returns (r: ParseState)
    ensures r == ParseListItems(h, fs, spec, rel, data, lines, used)
  {
    if data.Null? {
      return ParseState([], false, [], used);
    }
    if !data.Seq? {
      return ParseState([], false, [NotAList(rel)], used);
    }
    var entries := data.items;
    var items: seq<ModuleItem> := [];
    var changed := false;
    var notes: seq<ParseNote> := [];
    var ids := used;
    ghost var st0 := IdState([], false, used);
    ghost var ist := st0;
    for idx := 0 to |entries|
      invariant ist == AssignIds(spec, rel, lines, st0, entries[..idx])
      invariant items == ItemsOf(h, fs, spec, rel, lines, ist.steps) && notes == NotesOf(fs, rel, ist.steps)
      invariant changed == ist.changed && ids == ist.used
    {
      AssignIdsStep(spec, rel, lines, st0, entries, idx);
      var entry := entries[idx];
      ghost var old_steps := ist.steps;
      ghost var step: Step;
      if !entry.Map? {
        notes := notes + [NotAMap(rel, idx + 1)];
        step := Skipped(idx);
      } else {
        var id, written, injected := SettleId(spec, rel, lines, ist, ids, idx, entry);
        var made := MakeItem(h, fs, spec, rel, lines, Assigned(idx, id, written));
        step := Kept(Assigned(idx, id, written));
        assert StepNotes(fs, rel, step) == ExpandNotes(made.1);
        items := items + [made.0];
        notes := notes + ExpandNotes(made.1);
        ids := ids + {id};
        changed := changed || injected;
      }
      ItemsOfKeep(h, fs, spec, rel, lines, ist.steps, step);
      NotesOfStep(fs, rel, ist.steps, step);
      ist := IdStep(spec, rel, lines, ist, idx, entry);
      assert ist.steps == old_steps + [step];
    }
    assert entries[..|entries|] == entries;
    r := ParseState(items, changed, notes, ids);
  }

  // ------------------------------------------------------------------ what the items satisfy

  /** The ids of a sequence of items. */
  function IdsOf(items: seq<ModuleItem>): (r: set<string>)
    ensures forall x :: x in r <==> exists i :: 0 <= i < |items| && items[i].haId == x
  {
    set i | 0 <= i < |items| :: items[i].haId
  }

  /** The ids of the kept entries. */
  function StepIds(steps: seq<Step>): (r: set<string>)
    ensures forall x :: x in r <==> exists k :: 0 <= k < |steps| && steps[k].Kept? && steps[k].a.id == x
  {
    set k | 0 <= k < |steps| && steps[k].Kept? :: steps[k].a.id
  }

  /**
   * What the loop did with each entry: one step per entry, a map entry kept at its own position
   * with a non-empty id, its own id when it has one and the entry as it was, otherwise an id
   * written into the id field when the domain writes ids.
   */
  predicate StepsMatch(spec: DomainSpec, steps: seq<Step>, entries: seq<Value>)
  {
    |steps| == |entries| &&
    forall k :: 0 <= k < |steps| ==> StepMatches(spec, steps[k], k, entries[k])
  }

  predicate StepMatches(spec: DomainSpec, s: Step, k: nat, entry: Value)
  {
    (s.Skipped? <==> !entry.Map?) &&
    (s.Skipped? ==> s.position == k) &&
    (s.Kept? ==>
       (s.a.order == k && s.a.id != [] &&
        (OwnId(spec, entry).Some? ==> s.a.id == OwnId(spec, entry).value && Map(s.a.entries) == entry) &&
        (OwnId(spec, entry).None? ==> Map(s.a.entries) == WithId(spec, entry, s.a.id))))
  }

  lemma StepIdsAppend(steps: seq<Step>, s: Step)
    ensures StepIds(steps + [s]) == StepIds(steps) + (if s.Kept? then {s.a.id} else {})
  {
    var t := steps + [s];
    forall x ensures x in StepIds(t) <==> x in StepIds(steps) || (s.Kept? && x == s.a.id) {
      if x in StepIds(t) {
        var k :| 0 <= k < |t| && t[k].Kept? && t[k].a.id == x;
        if k < |steps| { assert steps[k] == t[k]; }
      }
      if x in StepIds(steps) {
        var k :| 0 <= k < |steps| && steps[k].Kept? && steps[k].a.id == x;
        assert t[k] == steps[k];
      }
      if s.Kept? && x == s.a.id { assert t[|steps|] == s; }
    }
  }

  lemma StepsMatchExtend(spec: DomainSpec, steps: seq<Step>, s: Step, pre: seq<Value>, entries: seq<Value>)
    requires |pre| + 1 == |entries| && pre == entries[..|pre|]
    requires StepsMatch(spec, steps, pre) && StepMatches(spec, s, |pre|, entries[|pre|])
    ensures StepsMatch(spec, steps + [s], entries)
  {
    var t := steps + [s];
    forall k | 0 <= k < |t| ensures StepMatches(spec, t[k], k, entries[k]) {
      if k < |steps| { assert t[k] == steps[k] && entries[k] == pre[k]; }
    }
  }

  /**
   * The ids the loop settles: one step per entry as `StepsMatch` says, and the ids taken
   * afterwards are those taken before plus the kept entries' ids.
   */
  lemma {:induction false} AssignIdsShape(spec: DomainSpec, rel: string, lines: seq<int>, used: set<string>,
                                          entries: seq<Value>)
    ensures var r := AssignIds(spec, rel, lines, IdState([], false, used), entries);
      StepsMatch(spec, r.steps, entries) && r.used == used + StepIds(r.steps)
  {
    if entries != [] {
      var n := |entries| - 1;
      var st := AssignIds(spec, rel, lines, IdState([], false, used), entries[..n]);
      AssignIdsShape(spec, rel, lines, used, entries[..n]);
      var r := IdStep(spec, rel, lines, st, n, entries[n]);
      var s := r.steps[|st.steps|];
      assert r.steps == st.steps + [s];
      StepIdsAppend(st.steps, s);
      StepsMatchExtend(spec, st.steps, s, entries[..n], entries);
    }
  }

  /** Whether an id was written: exactly when the domain writes ids and some map entry had none. */
  lemma {:induction false} AssignIdsChanged(spec: DomainSpec, rel: string, lines: seq<int>, used: set<string>,
                                            entries: seq<Value>)
    ensures AssignIds(spec, rel, lines, IdState([], false, used), entries).changed <==>
      IdField(spec).Some? && spec.autoId &&
      exists k :: 0 <= k < |entries| && entries[k].Map? && OwnId(spec, entries[k]).None?
  {
    if entries != [] {
      var n := |entries| - 1;
      AssignIdsChanged(spec, rel, lines, used, entries[..n]);
      if exists k :: 0 <= k < n && entries[..n][k].Map? && OwnId(spec, entries[..n][k]).None? {
        var k :| 0 <= k < n && entries[..n][k].Map? && OwnId(spec, entries[..n][k]).None?;
        assert entries[k] == entries[..n][k];
      }
      if exists k :: 0 <= k < |entries| && entries[k].Map? && OwnId(spec, entries[k]).None? {
        var k :| 0 <= k < |entries| && entries[k].Map? && OwnId(spec, entries[k]).None?;
        if k < n { assert entries[..n][k] == entries[k]; }
      }
    }
  }

  /**
   * The kept entries in order: each comes from the step at its own position, orders increase,
   * and every kept step is among them.
   */
  predicate Positions(steps: seq<Step>)
  {
    forall k :: 0 <= k < |steps| && steps[k].Kept? ==> steps[k].a.order == k
  }

  lemma {:induction false} KeptsShape(steps: seq<Step>)
    requires Positions(steps)
    ensures forall j :: 0 <= j < |Kepts(steps)| ==>
      Kepts(steps)[j].order < |steps| && steps[Kepts(steps)[j].order] == Kept(Kepts(steps)[j])
    ensures forall j, l :: 0 <= j < l < |Kepts(steps)| ==> Kepts(steps)[j].order < Kepts(steps)[l].order
    ensures forall k :: 0 <= k < |steps| && steps[k].Kept? ==> steps[k].a in Kepts(steps)
  {
    if steps != [] {
      var n := |steps| - 1;
      var pre := steps[..n];
      assert Positions(pre) by {
        forall k | 0 <= k < n && pre[k].Kept? ensures pre[k].a.order == k { assert pre[k] == steps[k]; }
      }
      KeptsShape(pre);
      var ks := Kepts(steps);
      var kp := Kepts(pre);
      assert ks == kp + (if steps[n].Kept? then [steps[n].a] else []);
      forall j | 0 <= j < |ks| ensures ks[j].order < |steps| && steps[ks[j].order] == Kept(ks[j]) {
        if j < |kp| { assert ks[j] == kp[j] && steps[kp[j].order] == pre[kp[j].order]; }
      }
      forall k | 0 <= k < |steps| && steps[k].Kept? ensures steps[k].a in ks {
        if k < n { assert pre[k] == steps[k]; } else { assert ks[|ks| - 1] == steps[n].a; }
      }
    }
  }

  /** The ids of the kept entries are the ids of the kept steps. */
  lemma KeptIds(steps: seq<Step>, x: string)
    requires Positions(steps)
    ensures x in StepIds(steps) ==> exists j :: 0 <= j < |Kepts(steps)| && Kepts(steps)[j].id == x
    ensures (exists j :: 0 <= j < |Kepts(steps)| && Kepts(steps)[j].id == x) ==> x in StepIds(steps)
  {
    KeptsShape(steps);
    if x in StepIds(steps) {
      var k :| 0 <= k < |steps| && steps[k].Kept? && steps[k].a.id == x;
      var j :| 0 <= j < |Kepts(steps)| && Kepts(steps)[j] == steps[k].a;
    }
    if exists j :: 0 <= j < |Kepts(steps)| && Kepts(steps)[j].id == x {
      var j :| 0 <= j < |Kepts(steps)| && Kepts(steps)[j].id == x;
      var k := Kepts(steps)[j].order;
      assert 0 <= k < |steps| && steps[k].Kept? && steps[k].a.id == x;
      assert x in StepIds(steps);
    }
  }

  /** Items with their source: every item comes from the kept step at its position, in order. */
  predicate ItemsMatch(spec: DomainSpec, rel: string, items: seq<ModuleItem>, entries: seq<Value>)
  {
    (forall j :: 0 <= j < |items| ==>
       items[j].order < |entries| && items[j].source == rel && items[j].data.Map? &&
       StepMatches(spec, Kept(Assigned(items[j].order, items[j].haId, items[j].data.entries)),
                   items[j].order, entries[items[j].order])) &&
    (forall j, l :: 0 <= j < l < |items| ==> items[j].order < items[l].order)
  }

  /** Items built one per kept entry, carrying its id, position and map, match the entries. */
  lemma ItemsFromKepts(spec: DomainSpec, rel: string, items: seq<ModuleItem>, steps: seq<Step>, entries: seq<Value>)
    requires StepsMatch(spec, steps, entries) && |items| == |Kepts(steps)|
    requires forall j :: 0 <= j < |items| ==>
      items[j].haId == Kepts(steps)[j].id && items[j].order == Kepts(steps)[j].order &&
      items[j].data == Map(Kepts(steps)[j].entries) && items[j].source == rel
    ensures ItemsMatch(spec, rel, items, entries)
    ensures IdsOf(items) == StepIds(steps)
  {
    assert Positions(steps);
    KeptsShape(steps);
    var ks := Kepts(steps);
    forall j | 0 <= j < |items|
      ensures items[j].order < |entries| && items[j].source == rel && items[j].data.Map? &&
        StepMatches(spec, Kept(Assigned(items[j].order, items[j].haId, items[j].data.entries)),
                    items[j].order, entries[items[j].order])
    {
      assert Kept(Assigned(items[j].order, items[j].haId, items[j].data.entries)) == steps[ks[j].order];
    }
    forall x ensures x in IdsOf(items) <==> x in StepIds(steps) {
      KeptIds(steps, x);
      if x in StepIds(steps) {
        var j :| 0 <= j < |ks| && ks[j].id == x;
        assert items[j].haId == x;
      }
    }
  }

  lemma ItemsOfShape(h: Value -> string, fs: Fs, spec: DomainSpec, rel: string, lines: seq<int>,
                     steps: seq<Step>, entries: seq<Value>)
    requires StepsMatch(spec, steps, entries)
    ensures ItemsMatch(spec, rel, ItemsOf(h, fs, spec, rel, lines, steps), entries)
    ensures IdsOf(ItemsOf(h, fs, spec, rel, lines, steps)) == StepIds(steps)
  {
    ItemsFromKepts(spec, rel, ItemsOf(h, fs, spec, rel, lines, steps), steps, entries);
  }

  /**
   * The items of a list file: every item comes from a map entry of the file at its position,
   * keeping that entry's own id and content, or else carrying the id written into it; items
   * follow the entries' order; the ids taken afterwards are those taken before plus every
   * item's id.
   */
  lemma ParseListItemsShape(h: Value -> string, fs: Fs, spec: DomainSpec, rel: string, entries: seq<Value>,
                            lines: seq<int>, used: set<string>)
    ensures var r := ParseListItems(h, fs, spec, rel, Seq(entries), lines, used);
      r.used == used + IdsOf(r.items) && ItemsMatch(spec, rel, r.items, entries)
  {
    var ids := AssignIds(spec, rel, lines, IdState([], false, used), entries);
    AssignIdsShape(spec, rel, lines, used, entries);
    ItemsOfShape(h, fs, spec, rel, lines, ids.steps, entries);
  }

  /**
   * An automation without an id of its own gets one that no earlier item of the run and none
   * of the ids taken before has: generated ids never collide.
   */
  lemma GeneratedAutomationIdFresh(spec: DomainSpec, rel: string, lines: seq<int>, st: IdState, idx: nat, entry: Value)
    requires spec.key == "automation" && entry.Map? && OwnId(spec, entry).None?
    ensures IdStep(spec, rel, lines, st, idx, entry).steps[|st.steps|].a.id !in st.used
  {
  }

  /** An id written back is readable from the entry under the id field, and everything else is unchanged. */
  lemma WrittenIdReadable(spec: DomainSpec, entry: Value, id: string, k: string)
    requires entry.Map? && IdField(spec).Some? && spec.autoId
    ensures Get(WithId(spec, entry, id).entries, IdField(spec).value) == Some(Str(id))
    ensures k != IdField(spec).value ==> Get(WithId(spec, entry, id).entries, k) == Get(entry.entries, k)
  {
    PutGet(entry.entries, IdField(spec).value, Str(id), IdField(spec).value);
    PutGet(entry.entries, IdField(spec).value, Str(id), k);
  }

  /** Reading a file twice gives the same ids: once written back, an id is the entry's own. */
  lemma WrittenIdIsOwn(spec: DomainSpec, entry: Value, id: string)
    requires entry.Map? && IdField(spec).Some? && spec.autoId && id != []
    ensures OwnId(spec, WithId(spec, entry, id)) == Some(id)
  {
    WrittenIdReadable(spec, entry, id, IdField(spec).value);
  }

  // ------------------------------------------------------------------ ids taken by the module files

  /** A module file as the loader gives it: its config-relative path, its content and the line of each entry. */
  datatype ModuleFile = ModuleFile(rel: string, content: FileContent, lines: seq<int>)

  /** The id an entry gives, `str(entry[id_field])`, when it is a map whose field is set and not null. */
  function EntryId(entry: Value, idField: string): Option<string>
  {
    if entry.Map? && Get(entry.entries, idField).Some? && !Get(entry.entries, idField).value.Null?
    then Some(PyStr(Get(entry.entries, idField).value)) else None
  }

  function IdOfEntry(entry: Value, idField: string): (r: set<string>)
    ensures forall x :: x in r <==> EntryId(entry, idField) == Some(x)
  {
    if EntryId(entry, idField).Some? then {EntryId(entry, idField).value} else {}
  }

  /** The ids the entries of one list give. */
  function EntryIds(entries: seq<Value>, idField: string): set<string>
  {
    if entries == [] then {}
    else EntryIds(entries[..|entries| - 1], idField) + IdOfEntry(entries[|entries| - 1], idField)
  }

  lemma {:induction false} EntryIdsHas(entries: seq<Value>, idField: string, x: string)
    ensures x in EntryIds(entries, idField) ==>
      exists j :: 0 <= j < |entries| && EntryId(entries[j], idField) == Some(x)
    ensures (exists j :: 0 <= j < |entries| && EntryId(entries[j], idField) == Some(x)) ==>
      x in EntryIds(entries, idField)
  {
    if entries != [] {
      var n := |entries| - 1;
      var pre := entries[..n];
      EntryIdsHas(pre, idField, x);
      if x in EntryIds(pre, idField) {
        var j :| 0 <= j < n && EntryId(pre[j], idField) == Some(x);
        assert pre[j] == entries[j];
      }
      if exists j :: 0 <= j < |entries| && EntryId(entries[j], idField) == Some(x) {
        var j :| 0 <= j < |entries| && EntryId(entries[j], idField) == Some(x);
        if j < n {
          assert pre[j] == entries[j];
          assert x in EntryIds(pre, idField);
        } else {
          assert j == n;
        }
      }
    }
  }

  /** The entries a file contributes: a parsed list's; a blank, invalid or non-list file gives none. */
  function FileEntries(f: ModuleFile): seq<Value>
  {
    if f.content.Parsed? && f.content.value.Seq? then f.content.value.items else []
  }

  /** `module_used_ids` before any file is read: the ids every module file already has. */
  function SeedIds(files: seq<ModuleFile>, idField: string): set<string>
  {
    if files == [] then {}
    else SeedIds(files[..|files| - 1], idField) + EntryIds(FileEntries(files[|files| - 1]), idField)
  }

  /** Whether a module file has an entry giving the id `x`. */
  predicate FileGives(f: ModuleFile, idField: string, x: string)
  {
    x in EntryIds(FileEntries(f), idField)
  }

  /** An id is seeded exactly when some module file's list has an entry giving it. */
  lemma {:induction false} SeedIdsHas(files: seq<ModuleFile>, idField: string, x: string)
    ensures x in SeedIds(files, idField) ==> exists i :: 0 <= i < |files| && FileGives(files[i], idField, x)
    ensures (exists i :: 0 <= i < |files| && FileGives(files[i], idField, x)) ==> x in SeedIds(files, idField)
  {
    if files != [] {
      var n := |files| - 1;
      var pre := files[..n];
      SeedIdsHas(pre, idField, x);
      assert SeedIds(files, idField) == SeedIds(pre, idField) + EntryIds(FileEntries(files[n]), idField);
      if x in SeedIds(pre, idField) {
        var i :| 0 <= i < n && FileGives(pre[i], idField, x);
        assert pre[i] == files[i];
      }
      if FileGives(files[n], idField, x) {
        assert 0 <= n < |files| && FileGives(files[n], idField, x);
      }
      if exists i :: 0 <= i < |files| && FileGives(files[i], idField, x) {
        var i :| 0 <= i < |files| && FileGives(files[i], idField, x);
        if i < n {
          assert pre[i] == files[i] && FileGives(pre[i], idField, x);
          assert x in SeedIds(pre, idField);
        } else {
          assert i == n;
        }
      }
    }
  }

  /** The id an existing entry gives is the one seeded for it. */
  lemma SeededOwnId(spec: DomainSpec, entry: Value)
    requires IdField(spec).Some? && OwnId(spec, entry).Some?
    ensures EntryId(entry, IdField(spec).value) == OwnId(spec, entry)
  {
  }

  /** The seeding loop of `_sync_list_domain`: every module file's entries, in turn. */
  method SeedUsedIds(files: seq<ModuleFile>, idField: string) returns (used: set<string>)
    ensures used == SeedIds(files, idField)
  {
    used := {};
    for i := 0 to |files|
      invariant used == SeedIds(files[..i], idField)
    {
      assert files[..i + 1][..i] == files[..i];
      var entries := FileEntries(files[i]);
      ghost var before := used;
      for j := 0 to |entries|
        invariant used == before + EntryIds(entries[..j], idField)
      {
        assert entries[..j + 1][..j] == entries[..j];
        var e := entries[j];
        if e.Map? && Get(e.entries, idField).Some? && !Get(e.entries, idField).value.Null? {
          used := used + {PyStr(Get(e.entries, idField).value)};
        }
      }
      assert entries[..|entries|] == entries;
    }
    assert files[..|files|] == files;
  }
}
