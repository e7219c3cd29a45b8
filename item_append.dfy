/**
 * Putting moved items into a destination module file (yaml_modules.py, the item operations):
 * the id of a list item is settled against the ids the destination already has, and the items
 * are appended to a list, mapping, helpers or lovelace module file.
 */
module ItemAppend {
  import opened Wrappers
  import opened Text
  import opened Yaml
  import opened YamlTags
  import opened ItemIds
  import opened ModuleDomains
  import opened ModuleItems
  import opened ModuleFiles
  import opened SyncOutput
  import opened ItemRemoval

  /** An item on its way to a destination: its data and the `key`, `id` and `helper_type` it carries. */
  datatype Moved = Moved(data: Value, key: Option<string>, id: Option<string>, helperType: Value)

  /** The item a removal record carries to its destination. */
  function MovedOf(r: Removed): Moved
  {
    match r
    case FromList(data, id, _, _, _) => Moved(data, None, Some(id), Null)
    case FromMapping(data, id, key, _) => Moved(data, Some(key), Some(id), Null)
    case FromHelpers(data, id, key, ht, _) => Moved(data, Some(key), Some(id), ht)
  }

  /** The refusal of `dict(item["data"])` on anything but a map. */
  const DataNotAMap: string := "Item data is not a map."

  // ------------------------------------------------------------------ ids in a destination list

  /** The refusal of an item whose own id the destination already has. */
  function DuplicateId(domain: string, id: string): string
  {
    domain + " id " + id + " already exists in destination."
  }

  /** `used_ids`: the id of every map entry of the destination whose id field is set and not null. */
  function TakenIds(spec: DomainSpec, entries: seq<Value>): set<string>
  {
    if IdField(spec).Some? then EntryIds(entries, IdField(spec).value) else {}
  }

  /** The id an entry holds in a domain with an id field: its own non-empty id. */
  function SettledId(spec: DomainSpec, entry: Value): Option<string>
  {
    if IdField(spec).Some? then OwnId(spec, entry) else None
  }

  /**
   * The id a destination offers an item without one: an automation's alias-based id, else
   * the item's position in the destination, sanitised for lovelace.
   */
  function TargetCandidate(spec: DomainSpec, rel: string, index: nat, entry: Value): (r: string)
    ensures r != []
    ensures spec.key != "automation" && spec.key != "lovelace" ==> r == SyntheticId(rel, None, index)
    ensures spec.key == "automation" && AutomationAliasId(entry).Some? ==> r == AutomationAliasId(entry).value
  {
    var alias := if spec.key == "automation" then AutomationAliasId(entry) else None;
    if alias.Some? then alias.value
    else if spec.key == "lovelace" then SanitizeLovelacePath(SyntheticId(rel, None, index))
    else SyntheticId(rel, None, index)
  }

  /** Made unique, a candidate is still a non-empty id. */
  lemma UniqueIdNonEmpty(c: string, used: set<string>)
    requires c != []
    ensures UniqueId(c, used) != []
  {
  }

  /** `_ensure_unique_id` on the candidate: a non-empty id not taken yet. */
  function FreshTargetId(spec: DomainSpec, rel: string, index: nat, entry: Value, used: set<string>): (r: string)
    ensures r != [] && r !in used
  {
    UniqueIdNonEmpty(TargetCandidate(spec, rel, index, entry), used);
    UniqueId(TargetCandidate(spec, rel, index, entry), used)
  }

  /**
   * `_prepare_list_item_for_target`: the item and the ids taken once it is settled. An item
   * whose own id the destination already has is refused; an item without one, in a domain
   * that writes its ids, gets a fresh id written into its id field.
   */
  function Prepare(spec: DomainSpec, used: set<string>, rel: string, index: nat, entry: Value)
    : (r: Result<(Value, set<string>)>)
    requires entry.Map?
  {
    if IdField(spec).None? then Ok((entry, used))
    else
      var own := OwnId(spec, entry);
      if own.Some? && own.value in used then Err(DuplicateId(spec.key, own.value))
      else if own.Some? then Ok((entry, used + {own.value}))
      else if !spec.autoId then Ok((entry, used))
      else
        var id := FreshTargetId(spec, rel, index, entry, used);
        Ok((WithId(spec, entry, id), used + {id}))
  }

  /** What a destination entry keeps of the item it came from. */
  ghost predicate Carries(spec: DomainSpec, src: Value, dst: Value)
  {
    src.Map? && dst.Map? &&
    (forall k :: k !in ExcludeKeys(spec) ==> Get(dst.entries, k) == Get(src.entries, k)) &&
    (SettledId(spec, src).Some? ==> dst == src) &&
    (IdField(spec).Some? && spec.autoId ==> SettledId(spec, dst).Some?)
  }

  /**
   * Settling one item: it is refused exactly when its own id is taken; otherwise every key
   * but the id field is copied, an own id is kept, a domain that writes ids gives every item
   * one, and the settled id is new and is added to the ids taken.
   */
  lemma PrepareShape(spec: DomainSpec, used: set<string>, rel: string, index: nat, entry: Value)
    requires entry.Map?
    ensures Prepare(spec, used, rel, index, entry).Err? <==>
      SettledId(spec, entry).Some? && SettledId(spec, entry).value in used
    ensures var r := Prepare(spec, used, rel, index, entry);
      r.Ok? ==> Carries(spec, entry, r.value.0)
    ensures var r := Prepare(spec, used, rel, index, entry);
      r.Ok? ==> (
        var id := SettledId(spec, r.value.0);
        (id.Some? ==> id.value !in used && r.value.1 == used + {id.value}) &&
        (id.None? ==> r.value.1 == used))
  {
    if IdField(spec).Some? && OwnId(spec, entry).None? && spec.autoId {
      var id := FreshTargetId(spec, rel, index, entry, used);
      WrittenIdIsOwn(spec, entry, id);
      forall k | k !in ExcludeKeys(spec) ensures Get(WithId(spec, entry, id).entries, k) == Get(entry.entries, k) {
        WrittenIdReadable(spec, entry, id, k);
      }
    }
  }

  /** An entry's id as `used_ids` reads it agrees with the id it settles on, up to an empty one. */
  lemma EntryIdSettled(spec: DomainSpec, p: Value)
    requires IdField(spec).Some? && p.Map?
    ensures SettledId(spec, p).Some? ==> EntryId(p, IdField(spec).value) == SettledId(spec, p)
    ensures SettledId(spec, p).None? ==> EntryId(p, IdField(spec).value) in {None, Some("")}
  {
  }

  lemma TakenIdsAppend(spec: DomainSpec, data: seq<Value>, p: Value)
    ensures TakenIds(spec, data + [p]) ==
      TakenIds(spec, data) + (if IdField(spec).Some? then IdOfEntry(p, IdField(spec).value) else {})
  {
    assert (data + [p])[..|data|] == data;
  }

  // ------------------------------------------------------------------ list and lovelace files

  /** One turn of the append loop: `dict(item["data"])`, then the item settled and appended. */
  function AppendOne(spec: DomainSpec, rel: string, st: (seq<Value>, set<string>), index: nat, it: Moved)
    : (r: Result<(seq<Value>, set<string>)>)
  {
    if !it.data.Map? then Err(DataNotAMap)
    else
      match Prepare(spec, st.1, rel, index, it.data)
      case Err(e) => Err(e)
      case Ok((p, u)) => Ok((st.0 + [p], u))
  }

  /** The ids taken grow by the entry's settled id, when it has one, which is new. */
  predicate Settles(spec: DomainSpec, u: set<string>, p: Value, u': set<string>)
  {
    (SettledId(spec, p).Some? ==> SettledId(spec, p).value !in u && u' == u + {SettledId(spec, p).value}) &&
    (SettledId(spec, p).None? ==> u' == u)
  }

  /** `out` is `data` with one more entry, which carries `src`. */
  ghost predicate Extends(spec: DomainSpec, data: seq<Value>, src: Value, out: seq<Value>)
  {
    |out| == |data| + 1 && out[..|data|] == data && Carries(spec, src, out[|data|])
  }

  /**
   * One turn appends one entry carrying the item's data, and its settled id, when it has one,
   * is new and is added to the ids taken.
   */
  lemma AppendOneShape(spec: DomainSpec, rel: string, st: (seq<Value>, set<string>), index: nat, it: Moved)
    ensures AppendOne(spec, rel, st, index, it).Ok? ==>
      Extends(spec, st.0, it.data, AppendOne(spec, rel, st, index, it).value.0)
    ensures AppendOne(spec, rel, st, index, it).Ok? ==>
      Settles(spec, st.1, AppendOne(spec, rel, st, index, it).value.0[|st.0|], AppendOne(spec, rel, st, index, it).value.1)
  {
    if it.data.Map? {
      PrepareShape(spec, st.1, rel, index, it.data);
      var pr := Prepare(spec, st.1, rel, index, it.data);
      if pr.Ok? {
        assert (st.0 + [pr.value.0])[..|st.0|] == st.0;
      }
    }
  }

  /** One turn of an append loop: the entries so far and the ids taken, the position offered, the item. */
  type Step = ((seq<Value>, set<string>), nat, Moved) -> Result<(seq<Value>, set<string>)>

  /** The turn of the list and lovelace append loops. */
  function ListStep(spec: DomainSpec, rel: string): Step
  {
    (st: (seq<Value>, set<string>), index: nat, it: Moved) => AppendOne(spec, rel, st, index, it)
  }

  lemma ListStepIs(spec: DomainSpec, rel: string, st: (seq<Value>, set<string>), index: nat, it: Moved)
    ensures ListStep(spec, rel)(st, index, it) == AppendOne(spec, rel, st, index, it)
  {
  }

  /**
   * The append loop of `_append_items_to_list_file` and `_append_items_to_lovelace_file`,
   * with the ids taken so far. As written, the position offered to the `k`-th item is
   * `len(data) + k` with `data` already holding the `k` items before it.
   */
  function AppendAll(step: Step, entries: seq<Value>, used: set<string>, items: seq<Moved>)
    : (r: Result<(seq<Value>, set<string>)>)
  {
    if items == [] then Ok((entries, used))
    else
      var n := |items| - 1;
      var front := AppendAll(step, entries, used, items[..n]);
      if front.Err? then front
      else step(front.value, |front.value.0| + n, items[n])
  }

  lemma AppendAllStep(step: Step, entries: seq<Value>, used: set<string>, items: seq<Moved>, i: nat,
                      st: (seq<Value>, set<string>))
    requires i < |items| && AppendAll(step, entries, used, items[..i]) == Ok(st)
    ensures AppendAll(step, entries, used, items[..i + 1]) == step(st, |st.0| + i, items[i])
  {
    assert items[..i + 1][..i] == items[..i];
  }

  /** Once an item is refused, the append fails with that refusal. */
  lemma {:induction false} AppendAllFails(step: Step, entries: seq<Value>, used: set<string>, items: seq<Moved>, i: nat)
    requires i <= |items| && AppendAll(step, entries, used, items[..i]).Err?
    ensures AppendAll(step, entries, used, items) == AppendAll(step, entries, used, items[..i])
  {
    if i < |items| {
      var n := |items| - 1;
      assert items[..n][..i] == items[..i];
      AppendAllFails(step, entries, used, items[..n], i);
    } else {
      assert items[..i] == items;
    }
  }

  /** Every turn that succeeds appends one entry carrying its item's data and settles its id. */
  ghost predicate StepSound(spec: DomainSpec, step: Step)
  {
    forall st, index, it {:trigger step(st, index, it)} :: step(st, index, it).Ok? ==>
      Extends(spec, st.0, it.data, step(st, index, it).value.0) &&
      Settles(spec, st.1, step(st, index, it).value.0[|st.0|], step(st, index, it).value.1)
  }

  /** The list turn is sound. */
  lemma ListStepSound(spec: DomainSpec, rel: string)
    ensures StepSound(spec, ListStep(spec, rel))
  {
    forall st, index, it ensures
      var step := ListStep(spec, rel);
      step(st, index, it).Ok? ==>
        Extends(spec, st.0, it.data, step(st, index, it).value.0) &&
        Settles(spec, st.1, step(st, index, it).value.0[|st.0|], step(st, index, it).value.1)
    {
      AppendOneShape(spec, rel, st, index, it);
    }
  }

  /** The destination's entries in front, then one entry per item carrying its data. */
  ghost predicate CarriesAll(spec: DomainSpec, entries: seq<Value>, items: seq<Moved>, out: seq<Value>)
  {
    |out| == |entries| + |items| && out[..|entries|] == entries &&
    forall k :: 0 <= k < |items| ==> Carries(spec, items[k].data, out[|entries| + k])
  }

  lemma CarriesAllStep(spec: DomainSpec, entries: seq<Value>, items: seq<Moved>, data: seq<Value>, out: seq<Value>)
    requires items != [] && CarriesAll(spec, entries, items[..|items| - 1], data)
    requires Extends(spec, data, items[|items| - 1].data, out)
    ensures CarriesAll(spec, entries, items, out)
  {
    var n := |items| - 1;
    assert out[..|entries|] == data[..|entries|];
    forall k | 0 <= k < |items| ensures Carries(spec, items[k].data, out[|entries| + k]) {
      if k < n {
        assert items[..n][k] == items[k];
        assert out[|entries| + k] == data[|entries| + k];
      }
    }
  }

  /**
   * A successful append keeps the destination's entries in front and then has one entry per
   * item, in order, each carrying its item's data.
   */
  lemma {:induction false} AppendAllShape(spec: DomainSpec, step: Step, entries: seq<Value>, used: set<string>,
                                          items: seq<Moved>)
    requires StepSound(spec, step)
    ensures AppendAll(step, entries, used, items).Ok? ==>
      CarriesAll(spec, entries, items, AppendAll(step, entries, used, items).value.0)
  {
    if items == [] {
      assert entries[..|entries|] == entries;
    } else {
      var n := |items| - 1;
      AppendAllShape(spec, step, entries, used, items[..n]);
      if AppendAll(step, entries, used, items[..n]).Ok? {
        AppendAllShapeStep(spec, step, entries, used, items, AppendAll(step, entries, used, items[..n]).value);
      }
    }
  }

  lemma AppendAllShapeStep(spec: DomainSpec, step: Step, entries: seq<Value>, used: set<string>,
                           items: seq<Moved>, st: (seq<Value>, set<string>))
    requires StepSound(spec, step) && items != []
    requires AppendAll(step, entries, used, items[..|items| - 1]) == Ok(st)
    requires CarriesAll(spec, entries, items[..|items| - 1], st.0)
    ensures AppendAll(step, entries, used, items).Ok? ==>
      CarriesAll(spec, entries, items, AppendAll(step, entries, used, items).value.0)
  {
    var n := |items| - 1;
    AppendAllStep(step, entries, used, items, n, st);
    assert items[..n + 1] == items;
    var r := step(st, |st.0| + n, items[n]);
    if r.Ok? {
      CarriesAllStep(spec, entries, items, st.0, r.value.0);
    }
  }

  /**
   * The ids taken cover those of the entries so far, and every id settled after the
   * destination's own entries is new: not among the ids taken at the start and not the id of
   * any entry in front of it.
   */
  ghost predicate FreshAll(spec: DomainSpec, n0: nat, used: set<string>, out: seq<Value>, u: set<string>)
  {
    n0 <= |out| && used <= u && TakenIds(spec, out) - {""} <= u &&
    forall l :: n0 <= l < |out| ==>
      (SettledId(spec, out[l]).Some? ==>
         SettledId(spec, out[l]).value !in used && SettledId(spec, out[l]).value !in TakenIds(spec, out[..l]))
  }

  lemma FreshAllStep(spec: DomainSpec, n0: nat, used: set<string>, data: seq<Value>, u: set<string>,
                     src: Value, out: seq<Value>, u': set<string>)
    requires FreshAll(spec, n0, used, data, u)
    requires Extends(spec, data, src, out)
    requires Settles(spec, u, out[|data|], u')
    ensures FreshAll(spec, n0, used, out, u')
  {
    var p := out[|data|];
    assert out == data + [p];
    TakenIdsAppend(spec, data, p);
    if IdField(spec).Some? {
      EntryIdSettled(spec, p);
    }
    forall l | n0 <= l < |data| ensures out[..l] == data[..l] && out[l] == data[l] {
    }
  }

  /** Every id a successful append settles is new, and the ids taken cover every entry's. */
  lemma {:induction false} AppendAllFresh(spec: DomainSpec, step: Step, entries: seq<Value>, used: set<string>,
                                          items: seq<Moved>)
    requires StepSound(spec, step) && TakenIds(spec, entries) - {""} <= used
    ensures AppendAll(step, entries, used, items).Ok? ==>
      FreshAll(spec, |entries|, used, AppendAll(step, entries, used, items).value.0,
               AppendAll(step, entries, used, items).value.1)
  {
    if items == [] {
      assert FreshAll(spec, |entries|, used, entries, used);
    } else {
      var n := |items| - 1;
      var front := AppendAll(step, entries, used, items[..n]);
      AppendAllFresh(spec, step, entries, used, items[..n]);
      if front.Ok? {
        var r := step(front.value, |front.value.0| + n, items[n]);
        assert AppendAll(step, entries, used, items) == r;
        if r.Ok? {
          FreshAllStep(spec, |entries|, used, front.value.0, front.value.1, items[n].data, r.value.0, r.value.1);
        }
      }
    }
  }

  /** The destination's entries with the items appended, or the first refusal. */
  function Appended(spec: DomainSpec, rel: string, entries: seq<Value>, items: seq<Moved>): Result<seq<Value>>
  {
    match AppendAll(ListStep(spec, rel), entries, TakenIds(spec, entries), items)
    case Err(e) => Err(e)
    case Ok((data, _)) => Ok(data)
  }

  /**
   * Appending to a list: on success the destination's entries stay in front, followed by one
   * entry per item carrying its data (a domain that writes ids gives each one); no item's own
   * id was already in the destination; and every settled id differs from the id of every
   * entry before it.
   */
  lemma AppendedShape(spec: DomainSpec, rel: string, entries: seq<Value>, items: seq<Moved>)
    ensures var r := Appended(spec, rel, entries, items);
      r.Ok? ==> CarriesAll(spec, entries, items, r.value)
    ensures var r := Appended(spec, rel, entries, items);
      r.Ok? ==> forall k :: 0 <= k < |items| && SettledId(spec, items[k].data).Some? ==>
        SettledId(spec, items[k].data).value !in TakenIds(spec, entries)
    ensures var r := Appended(spec, rel, entries, items);
      r.Ok? ==> forall l :: |entries| <= l < |r.value| && SettledId(spec, r.value[l]).Some? ==>
        SettledId(spec, r.value[l]).value !in TakenIds(spec, r.value[..l])
  {
    var used := TakenIds(spec, entries);
    var step := ListStep(spec, rel);
    ListStepSound(spec, rel);
    AppendAllShape(spec, step, entries, used, items);
    AppendAllFresh(spec, step, entries, used, items);
    var r := AppendAll(step, entries, used, items);
    if r.Ok? {
      var out := r.value.0;
      forall k | 0 <= k < |items| && SettledId(spec, items[k].data).Some?
        ensures SettledId(spec, items[k].data).value !in TakenIds(spec, entries)
      {
        assert Carries(spec, items[k].data, out[|entries| + k]);
        assert out[|entries| + k] == items[k].data;
      }
    }
  }

  /** `_append_items_to_list_file` on the loaded file: a missing or blank file is an empty list. */
  function ListAppend(spec: DomainSpec, rel: string, content: FileContent, items: seq<Moved>): (r: Result<seq<Value>>)
    ensures content.Invalid? ==> r == Err(LoadErrorText(rel, content.message))
    ensures !content.Invalid? && !Document(content).Null? && !Document(content).Seq? ==>
      r == Err("Destination file is not a list.")
    ensures !content.Invalid? && Document(content).Null? ==> r == Appended(spec, rel, [], items)
    ensures !content.Invalid? && Document(content).Seq? ==> r == Appended(spec, rel, Document(content).items, items)
  {
    if content.Invalid? then Err(LoadErrorText(rel, content.message))
    else
      var data := if Document(content).Null? then Seq([]) else Document(content);
      if !data.Seq? then Err("Destination file is not a list.")
      else Appended(spec, rel, data.items, items)
  }

  /** The loop collecting `used_ids` from the destination's entries. */
  method CollectIds(spec: DomainSpec, entries: seq<Value>) returns (used: set<string>)
    ensures used == TakenIds(spec, entries)
  {
    used := {};
    if IdField(spec).Some? {
      var field := IdField(spec).value;
      for i := 0 to |entries|
        invariant used == EntryIds(entries[..i], field)
      {
        assert entries[..i + 1][..i] == entries[..i];
        var entry := entries[i];
        if entry.Map? && Get(entry.entries, field).Some? && !Get(entry.entries, field).value.Null? {
          used := used + {PyStr(Get(entry.entries, field).value)};
        }
      }
      assert entries[..|entries|] == entries;
    }
  }

  /** The append loop, each turn taken by `step`, stopping at the first refusal. */
  method RunSteps(step: Step, entries: seq<Value>, used: set<string>, items: seq<Moved>)
    returns (r: Result<(seq<Value>, set<string>)>)
    ensures r == AppendAll(step, entries, used, items)
  {
    var st := (entries, used);
    for idx := 0 to |items|
      invariant AppendAll(step, entries, used, items[..idx]) == Ok(st)
    {
      AppendAllStep(step, entries, used, items, idx, st);
      var next := step(st, |st.0| + idx, items[idx]);
      if next.Err? {
        AppendAllFails(step, entries, used, items, idx + 1);
        return next;
      }
      st := next.value;
    }
    assert items[..|items|] == items;
    return Ok(st);
  }

  /** The append loop shared by list and lovelace destinations, on the ids the destination has. */
  method AppendEntries(spec: DomainSpec, rel: string, entries: seq<Value>, items: seq<Moved>)
    returns (r: Result<seq<Value>>)
    ensures r == Appended(spec, rel, entries, items)
  {
    var used := CollectIds(spec, entries);
    var out := RunSteps(ListStep(spec, rel), entries, used, items);
    if out.Err? {
      return Err(out.error);
    }
    return Ok(out.value.0);
  }

  /** `_append_items_to_list_file`. */
  method AppendItemsToListFile(spec: DomainSpec, rel: string, content: FileContent, items: seq<Moved>)
    returns (r: Result<seq<Value>>)
    ensures r == ListAppend(spec, rel, content, items)
  {
    if content.Invalid? {
      return Err(LoadErrorText(rel, content.message));
    }
    var data := Document(content);
    if data.Null? {
      data := Seq([]);
    }
    if !data.Seq? {
      return Err("Destination file is not a list.");
    }
    r := AppendEntries(spec, rel, data.items, items);
  }

  /**
   * `_append_items_to_lovelace_file` on the loaded file: the views of a list-shaped module are
   * the list, those of a dict-shaped one its `views`; the payload keeps the module's shape.
   */
  function LovelaceAppend(spec: DomainSpec, rel: string, content: FileContent, items: seq<Moved>): (r: Result<Value>)
    ensures content.Invalid? ==> r == Err(LoadErrorText(rel, content.message))
    ensures !content.Invalid? && Document(content).Map? && !ViewsOr(Document(content).entries).Seq? ==>
      r == Err("Lovelace views are not a list.")
    ensures !content.Invalid? && !Document(content).Null? && !Document(content).Seq? && !Document(content).Map? ==>
      r == Err("Destination file is not a valid lovelace module.")
    ensures !content.Invalid? && Document(content).Seq? ==>
      var appended := Appended(spec, rel, Document(content).items, items);
      (r.Ok? <==> appended.Ok?) && (r.Ok? ==> r.value == Seq(appended.value))
  {
    if content.Invalid? then Err(LoadErrorText(rel, content.message))
    else
      var data := if Document(content).Null? then Seq([]) else Document(content);
      if data.Seq? then
        var appended := Appended(spec, rel, data.items, items);
        if appended.Err? then Err(appended.error) else Ok(Seq(appended.value))
      else if data.Map? then
        var views := ViewsOr(data.entries);
        if !views.Seq? then Err("Lovelace views are not a list.")
        else
          var appended := Appended(spec, rel, views.items, items);
          if appended.Err? then Err(appended.error)
          else Ok(ViewsWithMeta(appended.value, Remove(data.entries, "views")))
      else Err("Destination file is not a valid lovelace module.")
  }

  /**
   * Appending views to a dict-shaped lovelace module writes back every key besides `views` as
   * it was, and under `views` the old views followed by the new ones.
   */
  lemma LovelaceAppendKeepsMeta(spec: DomainSpec, rel: string, content: FileContent, items: seq<Moved>, k: string)
    requires !content.Invalid? && Document(content).Map? && UniqueKeys(Document(content).entries)
    ensures var r := LovelaceAppend(spec, rel, content, items);
      var es := Document(content).entries;
      r.Ok? ==> (ViewsOr(es).Seq? && Appended(spec, rel, ViewsOr(es).items, items).Ok? && r.value.Map? &&
        Get(r.value.entries, k) ==
          if k == "views" then Some(Seq(Appended(spec, rel, ViewsOr(es).items, items).value)) else Get(es, k))
  {
    var es := Document(content).entries;
    RemoveUnique(es, "views");
    var views := ViewsOr(es);
    if views.Seq? {
      var appended := Appended(spec, rel, views.items, items);
      if appended.Ok? {
        ViewsWithMetaGet(appended.value, Remove(es, "views"), k);
      }
    }
  }

  /** `_append_items_to_lovelace_file`. */
  method AppendItemsToLovelaceFile(spec: DomainSpec, rel: string, content: FileContent, items: seq<Moved>)
    returns (r: Result<Value>)
    ensures r == LovelaceAppend(spec, rel, content, items)
  {
    if content.Invalid? {
      return Err(LoadErrorText(rel, content.message));
    }
    var data := Document(content);
    if data.Null? {
      data := Seq([]);
    }
    var views: seq<Value>;
    var meta: seq<(string, Value)> := [];
    if data.Seq? {
      views := data.items;
    } else if data.Map? {
      var v := ViewsOr(data.entries);
      if !v.Seq? {
        return Err("Lovelace views are not a list.");
      }
      views := v.items;
      meta := Remove(data.entries, "views");
    } else {
      return Err("Destination file is not a valid lovelace module.");
    }
    var appended := AppendEntries(spec, rel, views, items);
    if appended.Err? {
      return Err(appended.error);
    }
    var payload := if data.Seq? then Seq(appended.value) else ViewsWithMeta(appended.value, meta);
    return Ok(payload);
  }

  // ------------------------------------------------------------------ mapping files

  /** The refusal of an item whose key the destination already has. */
  function KeyExists(key: string): string
  {
    "Item key " + key + " already exists in destination."
  }

  /** `item.get("key") or item.get("id")`. */
  function ItemKey(it: Moved): (r: Option<string>)
    ensures r.Some? ==> r.value != []
  {
    if it.key.Some? && it.key.value != [] then it.key
    else if it.id.Some? && it.id.value != [] then it.id
    else None
  }

  /** One turn of the mapping or helpers append loop: the entries so far and the item. */
  type PairStep = (seq<(string, Value)>, Moved) -> Result<seq<(string, Value)>>

  /** The mapping and helpers append loops: one turn per item, stopping at the first refusal. */
  function FoldItems(step: PairStep, es: seq<(string, Value)>, items: seq<Moved>): (r: Result<seq<(string, Value)>>)
  {
    if items == [] then Ok(es)
    else
      var n := |items| - 1;
      var front := FoldItems(step, es, items[..n]);
      if front.Err? then front else step(front.value, items[n])
  }

  /** Once an item is refused, the loop fails with that refusal. */
  lemma {:induction false} FoldItemsFails(step: PairStep, es: seq<(string, Value)>, items: seq<Moved>, i: nat)
    requires i <= |items| && FoldItems(step, es, items[..i]).Err?
    ensures FoldItems(step, es, items) == FoldItems(step, es, items[..i])
  {
    if i < |items| {
      var n := |items| - 1;
      assert items[..n][..i] == items[..i];
      FoldItemsFails(step, es, items[..n], i);
    } else {
      assert items[..i] == items;
    }
  }

  /** One turn of the mapping loop: the item goes under its key, which must be new. */
  function MapAppendOne(data: seq<(string, Value)>, it: Moved): (r: Result<seq<(string, Value)>>)
  {
    var key := ItemKey(it);
    if key.None? then Err("Item key is required for mapping destinations.")
    else if HasKey(data, key.value) then Err(KeyExists(key.value))
    else Ok(Put(data, key.value, it.data))
  }

  /** The turn of the mapping loop. */
  function KeyStep(): PairStep
  {
    (data: seq<(string, Value)>, it: Moved) => MapAppendOne(data, it)
  }

  lemma KeyStepIs(data: seq<(string, Value)>, it: Moved)
    ensures KeyStep()(data, it) == MapAppendOne(data, it)
  {
  }

  /** The loop of `_append_items_to_mapping_file`. */
  function MapAppendAll(es: seq<(string, Value)>, items: seq<Moved>): (r: Result<seq<(string, Value)>>)
  {
    FoldItems(KeyStep(), es, items)
  }

  /** Every item has a key, none of them in the destination, and no two the same. */
  predicate FreshKeys(es: seq<(string, Value)>, items: seq<Moved>)
  {
    forall k :: 0 <= k < |items| ==>
      ItemKey(items[k]).Some? && !HasKey(es, ItemKey(items[k]).value) &&
      forall j :: 0 <= j < k ==> ItemKey(items[j]) != ItemKey(items[k])
  }

  /** The entries the items add, each under its key. */
  function KeyedPairs(items: seq<Moved>): (r: seq<(string, Value)>)
    requires forall k :: 0 <= k < |items| ==> ItemKey(items[k]).Some?
    ensures |r| == |items|
  {
    seq(|items|, k requires 0 <= k < |items| => (ItemKey(items[k]).value, items[k].data))
  }

  lemma HasKeyConcat(a: seq<(string, Value)>, b: seq<(string, Value)>, x: string)
    ensures HasKey(a + b, x) <==> HasKey(a, x) || HasKey(b, x)
  {
    if HasKey(a + b, x) {
      var i :| 0 <= i < |a + b| && (a + b)[i].0 == x;
      if i >= |a| { assert b[i - |a|].0 == x; }
    }
    if HasKey(a, x) {
      var i :| 0 <= i < |a| && a[i].0 == x;
      assert (a + b)[i].0 == x;
    }
    if HasKey(b, x) {
      var i :| 0 <= i < |b| && b[i].0 == x;
      assert (a + b)[|a| + i].0 == x;
    }
  }

  lemma KeyedPairsHas(items: seq<Moved>, x: string)
    requires forall k :: 0 <= k < |items| ==> ItemKey(items[k]).Some?
    ensures HasKey(KeyedPairs(items), x) <==> exists j :: 0 <= j < |items| && ItemKey(items[j]) == Some(x)
  {
    var ps := KeyedPairs(items);
    if HasKey(ps, x) {
      var j :| 0 <= j < |ps| && ps[j].0 == x;
      assert ItemKey(items[j]) == Some(x);
    }
    if exists j :: 0 <= j < |items| && ItemKey(items[j]) == Some(x) {
      var j :| 0 <= j < |items| && ItemKey(items[j]) == Some(x);
      assert ps[j].0 == x;
    }
  }

  lemma KeyedPairsSnoc(items: seq<Moved>)
    requires items != [] && forall k :: 0 <= k < |items| ==> ItemKey(items[k]).Some?
    ensures var n := |items| - 1;
      KeyedPairs(items) == KeyedPairs(items[..n]) + [(ItemKey(items[n]).value, items[n].data)]
  {
  }

  /** The keys are fresh for all items exactly when they are for all but the last and its key is new. */
  lemma FreshKeysStep(es: seq<(string, Value)>, items: seq<Moved>)
    requires items != []
    ensures var n := |items| - 1;
      FreshKeys(es, items) <==>
        FreshKeys(es, items[..n]) && ItemKey(items[n]).Some? &&
        !HasKey(es + KeyedPairs(items[..n]), ItemKey(items[n]).value)
  {
    var n := |items| - 1;
    var pre := items[..n];
    assert forall k :: 0 <= k < n ==> pre[k] == items[k];
    if FreshKeys(es, pre) && ItemKey(items[n]).Some? {
      var x := ItemKey(items[n]).value;
      HasKeyConcat(es, KeyedPairs(pre), x);
      KeyedPairsHas(pre, x);
    }
  }

  /**
   * Appending to a mapping file succeeds exactly when every item has a key that neither the
   * destination nor another item has; the result is then the destination's entries followed
   * by each item's data under its key.
   */
  lemma {:induction false} MapAppendAllShape(es: seq<(string, Value)>, items: seq<Moved>)
    ensures MapAppendAll(es, items).Ok? <==> FreshKeys(es, items)
    ensures MapAppendAll(es, items).Ok? ==> MapAppendAll(es, items).value == es + KeyedPairs(items)
  {
    if items != [] {
      var n := |items| - 1;
      var pre := items[..n];
      MapAppendAllShape(es, pre);
      FreshKeysStep(es, items);
      var front := MapAppendAll(es, pre);
      if front.Ok? {
        KeyStepIs(front.value, items[n]);
        var key := ItemKey(items[n]);
        if key.Some? && !HasKey(front.value, key.value) {
          PutAbsent(front.value, key.value, items[n].data);
          KeyedPairsSnoc(items);
        }
      }
    }
  }

  /** `_append_items_to_mapping_file` on the loaded file. */
  function MappingAppend(rel: string, content: FileContent, items: seq<Moved>): (r: Result<seq<(string, Value)>>)
  {
    match LoadedMap(rel, content, "Destination file is not a map.")
    case Err(e) => Err(e)
    case Ok(es) => MapAppendAll(es, items)
  }

  /** `_append_items_to_mapping_file`. */
  method AppendItemsToMappingFile(rel: string, content: FileContent, items: seq<Moved>) returns (r: Result<seq<(string, Value)>>)
    ensures r == MappingAppend(rel, content, items)
  {
    var loaded := LoadedMap(rel, content, "Destination file is not a map.");
    if loaded.Err? {
      return Err(loaded.error);
    }
    var data := loaded.value;
    for i := 0 to |items|
      invariant FoldItems(KeyStep(), loaded.value, items[..i]) == Ok(data)
    {
      assert items[..i + 1][..i] == items[..i];
      KeyStepIs(data, items[i]);
      var key := ItemKey(items[i]);
      if key.None? {
        FoldItemsFails(KeyStep(), loaded.value, items, i + 1);
        return Err("Item key is required for mapping destinations.");
      }
      if HasKey(data, key.value) {
        FoldItemsFails(KeyStep(), loaded.value, items, i + 1);
        return Err(KeyExists(key.value));
      }
      data := Put(data, key.value, items[i].data);
    }
    assert items[..|items|] == items;
    return Ok(data);
  }

  // ------------------------------------------------------------------ helpers files

  /** The refusal of a helper whose key its group already has. */
  function HelperKeyExists(key: string): string
  {
    "Helper key " + key + " already exists in destination."
  }

  /** The group a helper type names, `setdefault` giving a new empty one. */
  function GroupOf(data: seq<(string, Value)>, ht: string): Value
  {
    if HasKey(data, ht) then Get(data, ht).value else Map([])
  }

  /** One turn of the helpers loop: the helper goes into the group of its type under its key. */
  function HelperAppendOne(data: seq<(string, Value)>, it: Moved): (r: Result<seq<(string, Value)>>)
  {
    var ht := it.helperType;
    var key := ItemKey(it);
    if !Truthy(ht) || key.None? then Err("Helper item must include helper_type and key.")
    else if !(ht.Str? && ht.s in HelperTypes) then Err("Unsupported helper type.")
    else
      var group := GroupOf(data, ht.s);
      if !group.Map? then Err("Helper type is not a map.")
      else if HasKey(group.entries, key.value) then Err(HelperKeyExists(key.value))
      else Ok(Put(data, ht.s, Map(Put(group.entries, key.value, it.data))))
  }

  /** The turn of the helpers loop. */
  function HelperStep(): PairStep
  {
    (data: seq<(string, Value)>, it: Moved) => HelperAppendOne(data, it)
  }

  lemma HelperStepIs(data: seq<(string, Value)>, it: Moved)
    ensures HelperStep()(data, it) == HelperAppendOne(data, it)
  {
  }

  /** The loop of `_append_items_to_helpers_file`: each helper goes under its type, created when missing. */
  function HelperAppendAll(es: seq<(string, Value)>, items: seq<Moved>): (r: Result<seq<(string, Value)>>)
  {
    FoldItems(HelperStep(), es, items)
  }

  /** Item `i` is helper `k` of type `g`. */
  predicate IsHelper(it: Moved, g: string, k: string)
  {
    it.helperType == Str(g) && ItemKey(it) == Some(k)
  }

  /** Some item is helper `k` of type `g`. */
  predicate AddsHelper(items: seq<Moved>, g: string, k: string)
  {
    exists i :: 0 <= i < |items| && IsHelper(items[i], g, k)
  }

  /** Some item is a helper of type `g`. */
  predicate AddsType(items: seq<Moved>, g: string)
  {
    exists i :: 0 <= i < |items| && items[i].helperType == Str(g)
  }

  /**
   * One helper added: its type is supported, it was not in its group, the file now reads its
   * data under its type and key, and every other helper and every other group reads as before.
   */
  lemma HelperAppendOneGet(data: seq<(string, Value)>, it: Moved, g: string, k: string)
    ensures HelperAppendOne(data, it).Ok? ==> it.helperType.Str? && it.helperType.s in HelperTypes
    ensures HelperAppendOne(data, it).Ok? ==>
      HelperAt(HelperAppendOne(data, it).value, g, k) ==
        if IsHelper(it, g, k) then Some(it.data) else HelperAt(data, g, k)
    ensures HelperAppendOne(data, it).Ok? && IsHelper(it, g, k) ==> HelperAt(data, g, k).None?
    ensures HelperAppendOne(data, it).Ok? && it.helperType != Str(g) ==>
      Get(HelperAppendOne(data, it).value, g) == Get(data, g)
  {
    if HelperAppendOne(data, it).Ok? {
      var ht := it.helperType.s;
      var key := ItemKey(it).value;
      var group := GroupOf(data, ht);
      PutGet(data, ht, Map(Put(group.entries, key, it.data)), g);
      PutGet(group.entries, key, it.data, k);
    }
  }

  /** Every turn that succeeds had a supported helper type. */
  ghost predicate TypedStep(step: PairStep)
  {
    forall data, it {:trigger step(data, it)} :: step(data, it).Ok? ==>
      it.helperType.Str? && it.helperType.s in HelperTypes
  }

  /** Every turn that succeeds adds its helper and leaves every other helper and group as it was. */
  ghost predicate PlacingStep(step: PairStep, g: string, k: string)
  {
    forall data, it {:trigger step(data, it)} :: step(data, it).Ok? ==>
      HelperAt(step(data, it).value, g, k) == (if IsHelper(it, g, k) then Some(it.data) else HelperAt(data, g, k)) &&
      (IsHelper(it, g, k) ==> HelperAt(data, g, k).None?) &&
      (it.helperType != Str(g) ==> Get(step(data, it).value, g) == Get(data, g))
  }

  lemma HelperStepSound(g: string, k: string)
    ensures TypedStep(HelperStep()) && PlacingStep(HelperStep(), g, k)
  {
    forall data, it ensures HelperStep()(data, it) == HelperAppendOne(data, it) {
      HelperStepIs(data, it);
    }
    forall data, it {
      HelperAppendOneGet(data, it, g, k);
    }
  }

  /** On success every item had a supported helper type. */
  lemma {:induction false} FoldTypes(step: PairStep, es: seq<(string, Value)>, items: seq<Moved>)
    requires TypedStep(step)
    ensures FoldItems(step, es, items).Ok? ==>
      forall i :: 0 <= i < |items| ==> items[i].helperType.Str? && items[i].helperType.s in HelperTypes
  {
    if items != [] && FoldItems(step, es, items).Ok? {
      var n := |items| - 1;
      var front := FoldItems(step, es, items[..n]);
      FoldTypes(step, es, items[..n]);
      assert step(front.value, items[n]).Ok?;
      forall i | 0 <= i < |items| ensures items[i].helperType.Str? && items[i].helperType.s in HelperTypes {
        if i < n {
          assert items[..n][i] == items[i];
        }
      }
    }
  }

  /** What a prefix of the items adds, the items add. */
  lemma AddsPrefix(items: seq<Moved>, n: nat, g: string, k: string)
    requires n <= |items|
    ensures AddsHelper(items[..n], g, k) ==> AddsHelper(items, g, k)
    ensures AddsType(items[..n], g) ==> AddsType(items, g)
  {
    if AddsHelper(items[..n], g, k) {
      var i :| 0 <= i < n && IsHelper(items[..n][i], g, k);
      assert IsHelper(items[i], g, k);
    }
    if AddsType(items[..n], g) {
      var i :| 0 <= i < n && items[..n][i].helperType == Str(g);
      assert items[i].helperType == Str(g);
    }
  }

  /** On success a helper no item adds reads as before. */
  lemma {:induction false} FoldKeeps(step: PairStep, es: seq<(string, Value)>, items: seq<Moved>, g: string, k: string)
    requires PlacingStep(step, g, k)
    ensures FoldItems(step, es, items).Ok? && !AddsHelper(items, g, k) ==>
      HelperAt(FoldItems(step, es, items).value, g, k) == HelperAt(es, g, k)
  {
    if items != [] {
      var n := |items| - 1;
      FoldKeeps(step, es, items[..n], g, k);
      AddsPrefix(items, n, g, k);
    }
  }

  /**
   * On success every helper an item adds was not in the destination, and the file reads that
   * item's data under its type and key.
   */
  lemma {:induction false} FoldAdds(step: PairStep, es: seq<(string, Value)>, items: seq<Moved>, g: string, k: string)
    requires PlacingStep(step, g, k)
    ensures FoldItems(step, es, items).Ok? ==>
      forall i :: 0 <= i < |items| && IsHelper(items[i], g, k) ==>
        HelperAt(FoldItems(step, es, items).value, g, k) == Some(items[i].data) && HelperAt(es, g, k).None?
  {
    if items != [] {
      var n := |items| - 1;
      var pre := items[..n];
      FoldAdds(step, es, pre, g, k);
      var front := FoldItems(step, es, pre);
      var r := FoldItems(step, es, items);
      if front.Ok? && r.Ok? {
        assert r == step(front.value, items[n]);
        forall i | 0 <= i < |items| && IsHelper(items[i], g, k)
          ensures HelperAt(r.value, g, k) == Some(items[i].data) && HelperAt(es, g, k).None?
        {
          if i < n {
            assert pre[i] == items[i];
            assert HelperAt(front.value, g, k) == Some(items[i].data);
          } else {
            assert !AddsHelper(pre, g, k) by {
              forall j | 0 <= j < n ensures !IsHelper(pre[j], g, k) {
                assert pre[j] == items[j];
              }
            }
            FoldKeeps(step, es, pre, g, k);
          }
        }
      }
    }
  }

  /** On success every group no item adds to reads as before. */
  lemma {:induction false} FoldOthers(step: PairStep, es: seq<(string, Value)>, items: seq<Moved>, g: string)
    requires PlacingStep(step, g, "")
    ensures FoldItems(step, es, items).Ok? && !AddsType(items, g) ==>
      Get(FoldItems(step, es, items).value, g) == Get(es, g)
  {
    if items != [] {
      var n := |items| - 1;
      FoldOthers(step, es, items[..n], g);
      AddsPrefix(items, n, g, "");
    }
  }

  /**
   * Appending helpers: on success every item had a supported type and a key its group did not
   * have; the file then reads each item's data under its type and key, every helper no item
   * adds as before, and every group no item adds to as before.
   */
  lemma HelperAppendAllGet(es: seq<(string, Value)>, items: seq<Moved>, g: string, k: string)
    ensures HelperAppendAll(es, items).Ok? ==>
      forall i :: 0 <= i < |items| ==> items[i].helperType.Str? && items[i].helperType.s in HelperTypes
    ensures HelperAppendAll(es, items).Ok? ==>
      forall i :: 0 <= i < |items| && IsHelper(items[i], g, k) ==>
        HelperAt(HelperAppendAll(es, items).value, g, k) == Some(items[i].data) && HelperAt(es, g, k).None?
    ensures HelperAppendAll(es, items).Ok? && !AddsHelper(items, g, k) ==>
      HelperAt(HelperAppendAll(es, items).value, g, k) == HelperAt(es, g, k)
    ensures HelperAppendAll(es, items).Ok? && !AddsType(items, g) ==>
      Get(HelperAppendAll(es, items).value, g) == Get(es, g)
  {
    HelperStepSound(g, k);
    HelperStepSound(g, "");
    FoldTypes(HelperStep(), es, items);
    FoldAdds(HelperStep(), es, items, g, k);
    FoldKeeps(HelperStep(), es, items, g, k);
    FoldOthers(HelperStep(), es, items, g);
  }

  /** `_append_items_to_helpers_file` on the loaded file. */
  function HelpersAppend(rel: string, content: FileContent, items: seq<Moved>): (r: Result<seq<(string, Value)>>)
  {
    match LoadedMap(rel, content, "Destination file is not a helpers map.")
    case Err(e) => Err(e)
    case Ok(es) => HelperAppendAll(es, items)
  }

  /** `_append_items_to_helpers_file`. */
  method AppendItemsToHelpersFile(rel: string, content: FileContent, items: seq<Moved>) returns (r: Result<seq<(string, Value)>>)
    ensures r == HelpersAppend(rel, content, items)
  {
    var loaded := LoadedMap(rel, content, "Destination file is not a helpers map.");
    if loaded.Err? {
      return Err(loaded.error);
    }
    var data := loaded.value;
    for i := 0 to |items|
      invariant FoldItems(HelperStep(), loaded.value, items[..i]) == Ok(data)
    {
      assert items[..i + 1][..i] == items[..i];
      HelperStepIs(data, items[i]);
      var ht := items[i].helperType;
      var key := ItemKey(items[i]);
      if !Truthy(ht) || key.None? {
        FoldItemsFails(HelperStep(), loaded.value, items, i + 1);
        return Err("Helper item must include helper_type and key.");
      }
      if !(ht.Str? && ht.s in HelperTypes) {
        FoldItemsFails(HelperStep(), loaded.value, items, i + 1);
        return Err("Unsupported helper type.");
      }
      var group := if HasKey(data, ht.s) then Get(data, ht.s).value else Map([]);
      if !group.Map? {
        FoldItemsFails(HelperStep(), loaded.value, items, i + 1);
        return Err("Helper type is not a map.");
      }
      if HasKey(group.entries, key.value) {
        FoldItemsFails(HelperStep(), loaded.value, items, i + 1);
        return Err(HelperKeyExists(key.value));
      }
      data := Put(data, ht.s, Map(Put(group.entries, key.value, items[i].data)));
    }
    assert items[..|items|] == items;
    return Ok(data);
  }
}
