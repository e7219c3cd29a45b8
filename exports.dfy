/**
 * The registry exports (exports.py): normalising `exports.config.yaml` and its integration
 * blacklist, formatting CSV cells, and building the sorted rows of the entity and group
 * exports from the registries and states Home Assistant returns. The registries and states
 * are inputs (lists of dicts); the HTTP calls and the CSV writer are not part of this model.
 */
module Exports {
  import opened Wrappers
  import opened Text
  import opened Yaml
  import opened YamlTags
  import opened Groups

  /** A registry entry or a state: a JSON object. */
  type Dict = seq<(string, Value)>

  const EntitiesKey: string := "entities"
  const BlacklistKey: string := "integration_blacklist"
  const BlacklistError: string := "integration_blacklist must be a list of strings."

  /** `entry.get(k)`: None when the key is absent. */
  function Field(entry: Dict, k: string): Value
  {
    LookupOr(Map(entry), k, Null)
  }

  /** `v if isinstance(v, str) else ""`. */
  function StrOrEmpty(v: Value): string
  {
    if v.Str? then v.s else ""
  }

  // ------------------------------------------------------------------ exports.config.yaml

  /**
   * `_normalize_blacklist`: the same cleaning as the group ignore list (strip, lower-case,
   * drop blanks and repeats, sort), with its own error message.
   */
  function NormalizedBlacklist(raw: Value): (r: Result<seq<string>>)
    ensures r.Ok? <==> raw.Null? || (raw.Seq? && AllStrings(raw.items))
    ensures r.Err? ==> r.error == BlacklistError
    ensures r.Ok? ==> Normal(r.value)
    ensures raw.Null? ==> r == Ok([])
  {
    match NormalizedEntityIds(raw)
    case Ok(ids) => Ok(ids)
    case Err(_) => Err(BlacklistError)
  }

  /** The loop of `_normalize_blacklist`: first occurrences kept in `cleaned`, then sorted. */
  method NormalizeBlacklist(raw: Value) returns (r: Result<seq<string>>)
    ensures r == NormalizedBlacklist(raw)
  {
    if raw.Null? {
      return Ok([]);
    }
    if !raw.Seq? {
      return Err(BlacklistError);
    }
    var items := raw.items;
    var cleaned: seq<string> := [];
    for i := 0 to |items|
      invariant AllStrings(items[..i])
      invariant cleaned == Dedup(CleanedIds(items[..i]))
    {
      if !items[i].Str? {
        assert !AllStrings(items);
        return Err(BlacklistError);
      }
      var value := StripLower(items[i].s);
      ghost var before := CleanedIds(items[..i]);
      CleanedByStep(items, i, StripLower);
      AllStringsStep(items, i);
      if value != [] {
        assert CleanedIds(items[..i + 1]) == before + [value];
        DedupAppend(before, value);
        if value !in cleaned {
          cleaned := cleaned + [value];
        }
      } else {
        assert CleanedIds(items[..i + 1]) == before;
      }
    }
    assert items[..|items|] == items;
    return Ok(SortStrings(cleaned));
  }

  /** The blacklisted integrations are exactly the non-empty normalisations of the entries. */
  lemma BlacklistMembers(items: seq<Value>, x: string)
    requires AllStrings(items)
    ensures x in NormalizedBlacklist(Seq(items)).value <==> x != [] && NormalisesTo(items, StripLower, x)
  {
    EntityIdsMembers(items, x);
  }

  /** `exports.config.yaml` after normalisation (its schema version is always 1). */
  datatype ExportsConfig = ExportsConfig(integrationBlacklist: seq<string>)

  /** `payload.get("entities", {})`, with None read as `{}`. */
  function EntitiesSection(payload: Value): Value
  {
    var v := LookupOr(payload, EntitiesKey, Map([]));
    if v.Null? then Map([]) else v
  }

  /**
   * `_normalize_exports_config`: None gives the default; a non-map, a schema version other
   * than 1 or an `entities` section that is not a map (None aside) is rejected.
   */
  function NormalizedExportsConfig(payload: Value): (r: Result<ExportsConfig>)
    ensures r.Ok? ==> Normal(r.value.integrationBlacklist)
    ensures payload.Null? ==> r == Ok(ExportsConfig([]))
    ensures !payload.Null? && !payload.Map? ==> r == Err("Export config must be a map.")
    ensures payload.Map? && !SchemaOne(payload) ==> r == Err("Unsupported exports.config.yaml schema_version.")
    ensures payload.Map? && SchemaOne(payload) && !EntitiesSection(payload).Map? ==>
      r == Err("entities config must be a map.")
    ensures payload.Map? && SchemaOne(payload) && EntitiesSection(payload).Map? ==>
      (r.Ok? <==> NormalizedBlacklist(LookupOr(EntitiesSection(payload), BlacklistKey, Null)).Ok?)
  {
    if payload.Null? then Ok(ExportsConfig([]))
    else if !payload.Map? then Err("Export config must be a map.")
    else if !SchemaOne(payload) then Err("Unsupported exports.config.yaml schema_version.")
    else
      var entities := EntitiesSection(payload);
      if !entities.Map? then Err("entities config must be a map.")
      else
        match NormalizedBlacklist(LookupOr(entities, BlacklistKey, Null))
        case Err(e) => Err(e)
        case Ok(b) => Ok(ExportsConfig(b))
  }

  /** What `save_exports_config` writes for a normalised config. */
  function ExportsConfigValue(c: ExportsConfig): Value
  {
    Map([(SchemaVersionKey, Int(1)), (EntitiesKey, Map([(BlacklistKey, StrList(c.integrationBlacklist))]))])
  }

  lemma ExportsKeysDistinct()
    ensures SchemaVersionKey != EntitiesKey
  {
    assert SchemaVersionKey[0] != EntitiesKey[0];
  }

  /** A normalised config written out and normalised again is unchanged. */
  lemma ExportsConfigRoundTrip(c: ExportsConfig)
    requires Normal(c.integrationBlacklist)
    ensures NormalizedExportsConfig(ExportsConfigValue(c)) == Ok(c)
  {
    ExportsKeysDistinct();
    var v := ExportsConfigValue(c);
    var list := StrList(c.integrationBlacklist);
    var entities := Map([(BlacklistKey, list)]);
    GetPair(SchemaVersionKey, Int(1), EntitiesKey, entities, SchemaVersionKey);
    assert LookupOr(v, SchemaVersionKey, Int(1)) == Int(1);
    assert SchemaOne(v);
    GetPair(SchemaVersionKey, Int(1), EntitiesKey, entities, EntitiesKey);
    assert EntitiesSection(v) == entities;
    GetSingle(BlacklistKey, list, BlacklistKey);
    assert LookupOr(entities, BlacklistKey, Null) == list;
    EntityIdsIdempotent(c.integrationBlacklist);
  }

  /** `load_exports_config`: a missing file gives the default; an unparsable one is rejected. */
  function LoadExportsConfig(file: Option<FileContent>): (r: Result<ExportsConfig>)
    ensures r.Ok? ==> Normal(r.value.integrationBlacklist)
    ensures file.None? || file == Some(Blank) ==> r == Ok(ExportsConfig([]))
    ensures (file.Some? && file.value.Invalid?) ==> r == Err("Invalid exports.config.yaml: " + file.value.message)
  {
    match file
    case None => Ok(ExportsConfig([]))
    case Some(Blank) => NormalizedExportsConfig(Null)
    case Some(Invalid(m)) => Err("Invalid exports.config.yaml: " + m)
    case Some(Parsed(v)) => NormalizedExportsConfig(v)
  }

  /**
   * `save_exports_config`: the normalised config and the YAML value written for it. Loading
   * the written file gives back the config returned.
   */
  function SaveExportsConfig(payload: Value): (r: Result<(ExportsConfig, Value)>)
    ensures r.Ok? <==> NormalizedExportsConfig(payload).Ok?
    ensures r.Ok? ==> r.value.0 == NormalizedExportsConfig(payload).value
    ensures r.Ok? ==> LoadExportsConfig(Some(Parsed(r.value.1))) == Ok(r.value.0)
  {
    match NormalizedExportsConfig(payload)
    case Err(e) => Err(e)
    case Ok(c) =>
      ExportsConfigRoundTrip(c);
      Ok((c, ExportsConfigValue(c)))
  }

  /**
   * `_load_blacklist`: `str(entry).strip().lower()` of each non-blank entry, as a set. On a
   * normalised list that is just the set of its entries.
   */
  function LoadBlacklist(c: ExportsConfig): set<string>
  {
    set x | x in c.integrationBlacklist && !IsBlank(x) :: StripLower(x)
  }

  lemma LoadBlacklistNormal(c: ExportsConfig)
    requires Normal(c.integrationBlacklist)
    ensures forall x :: x in LoadBlacklist(c) <==> x in c.integrationBlacklist
  {
    forall x ensures x in LoadBlacklist(c) <==> x in c.integrationBlacklist {
      if x in c.integrationBlacklist {
        BlacklistEntryKept(c, x);
      }
      if x in LoadBlacklist(c) {
        BlacklistEntryFrom(c, x);
      }
    }
  }

  lemma BlacklistEntryKept(c: ExportsConfig, x: string)
    requires Normal(c.integrationBlacklist) && x in c.integrationBlacklist
    ensures x in LoadBlacklist(c)
  {
    NormalMember(c.integrationBlacklist, x);
    StripLowerEmpty(x);
  }

  lemma BlacklistEntryFrom(c: ExportsConfig, x: string)
    requires Normal(c.integrationBlacklist) && x in LoadBlacklist(c)
    ensures x in c.integrationBlacklist
  {
    var y :| y in c.integrationBlacklist && !IsBlank(y) && StripLower(y) == x;
    NormalMember(c.integrationBlacklist, y);
  }

  /** A string whose strip is empty lower-cases and strips to nothing. */
  lemma StripLowerEmpty(s: string)
    ensures IsBlank(s) <==> StripLower(s) == []
  {
  }

  // ------------------------------------------------------------------ cells and fields

  /** `_format_cell`: None is empty, booleans are `true`/`false`, anything else is `str(value)`. */
  function FormatCell(v: Value): (r: string)
    ensures v.Bool? ==> r == (if v.b then "true" else "false")
    ensures v.Str? ==> r == v.s
    ensures v.Int? ==> r == IntToString(v.i)
  {
    if v.Null? then ""
    else if v.Bool? then (if v.b then "true" else "false")
    else PyStr(v)
  }

  /** A cell is empty exactly for None and the empty string. */
  lemma FormatCellEmpty(v: Value)
    ensures FormatCell(v) == "" <==> v == Null || v == Str("")
  {
    if !v.Str? && !v.Null? && !v.Bool? {
      ReprStart(v);
    }
  }

  /** `_entity_domain`: the text before the first `.`, or "" when there is none. */
  function EntityDomain(entityId: string): (r: string)
    ensures '.' !in r
    ensures '.' !in entityId ==> r == ""
    ensures '.' in entityId ==> |r| < |entityId| && entityId[..|r|] == r && entityId[|r|] == '.'
  {
    match SplitFirst(entityId, '.')
    case None => ""
    case Some((domain, _)) =>
      assert entityId[..|domain|] == domain by {
        assert entityId == domain + ['.'] + SplitFirst(entityId, '.').value.1;
      }
      domain
  }

  /** The domain of `domain.object` is `domain`, whatever follows the first `.`. */
  lemma EntityDomainOf(domain: string, rest: string)
    requires '.' !in domain
    ensures EntityDomain(domain + "." + rest) == domain
  {
    var id := domain + "." + rest;
    assert id[|domain|] == '.';
    var d := EntityDomain(id);
    assert id[..|domain|] == domain;
  }

  /**
   * `_integration_name`: the non-empty `platform` string, else the non-empty `integration`
   * string, else the domain of a string `entity_id`, else "".
   */
  function IntegrationName(entry: Dict): (r: string)
    ensures IsNonEmptyStr(Field(entry, "platform")) ==> r == Field(entry, "platform").s
    ensures !IsNonEmptyStr(Field(entry, "platform")) && IsNonEmptyStr(Field(entry, "integration")) ==>
      r == Field(entry, "integration").s
    ensures !IsNonEmptyStr(Field(entry, "platform")) && !IsNonEmptyStr(Field(entry, "integration")) ==>
      r == (if Field(entry, "entity_id").Str? then EntityDomain(Field(entry, "entity_id").s) else "")
  {
    var platform := Field(entry, "platform");
    var integration := Field(entry, "integration");
    var entityId := Field(entry, "entity_id");
    if IsNonEmptyStr(platform) then platform.s
    else if IsNonEmptyStr(integration) then integration.s
    else if entityId.Str? then EntityDomain(entityId.s)
    else ""
  }

  /** `str(name) if name else ""` for a display name already picked with `or`. */
  function DisplayText(name: Value): (r: string)
    ensures !Truthy(name) ==> r == ""
    ensures name.Str? ==> r == name.s
  {
    if Truthy(name) then PyStr(name) else ""
  }

  /** `_device_display_name`: the user's name for the device, else its own name, else "". */
  function DeviceDisplayName(device: Option<Dict>): (r: string)
    ensures device.None? ==> r == ""
    ensures device.Some? && Truthy(Field(device.value, "name_by_user")) ==>
      r == PyStr(Field(device.value, "name_by_user"))
    ensures device.Some? && !Truthy(Field(device.value, "name_by_user")) ==>
      r == DisplayText(Field(device.value, "name"))
  {
    if device.None? || device.value == [] then ""
    else DisplayText(PyOr(Field(device.value, "name_by_user"), Field(device.value, "name")))
  }

  /** `_area_name`: the area's name, or "". */
  function AreaName(area: Option<Dict>): (r: string)
    ensures area.None? ==> r == ""
    ensures area.Some? ==> r == DisplayText(Field(area.value, "name"))
  {
    if area.None? || area.value == [] then "" else DisplayText(Field(area.value, "name"))
  }

  /**
   * `_normalize_unit_of_measurement`: a non-empty top-level string, else a non-empty string
   * under `capabilities`, else "".
   */
  function UnitOfMeasurement(entry: Dict): (r: string)
    ensures IsNonEmptyStr(Field(entry, "unit_of_measurement")) ==> r == Field(entry, "unit_of_measurement").s
    ensures !IsNonEmptyStr(Field(entry, "unit_of_measurement")) ==>
      var caps := Field(entry, "capabilities");
      r == (if caps.Map? && IsNonEmptyStr(Field(caps.entries, "unit_of_measurement"))
            then Field(caps.entries, "unit_of_measurement").s else "")
  {
    var value := Field(entry, "unit_of_measurement");
    if IsNonEmptyStr(value) then value.s
    else
      var caps := Field(entry, "capabilities");
      if caps.Map? && IsNonEmptyStr(Field(caps.entries, "unit_of_measurement")) then
        Field(caps.entries, "unit_of_measurement").s
      else ""
  }

  // ------------------------------------------------------------------ registry indexes

  /** `{str(e.get(key)): e for e in entries if isinstance(e.get(key), str)}`: later entries win. */
  function IndexBy(entries: seq<Dict>, key: string): map<string, Dict>
  {
    if entries == [] then map[]
    else
      var m := IndexBy(entries[..|entries| - 1], key);
      var last := entries[|entries| - 1];
      var k := Field(last, key);
      if k.Str? then m[k.s := last] else m
  }

  /** The entry indexed under `k` is the last entry whose `key` is the string `k`. */
  lemma {:induction false} IndexByLast(entries: seq<Dict>, key: string, k: string, i: nat)
    requires i < |entries| && Field(entries[i], key) == Str(k)
    requires forall j :: i < j < |entries| ==> Field(entries[j], key) != Str(k)
    ensures k in IndexBy(entries, key) && IndexBy(entries, key)[k] == entries[i]
  {
    var n := |entries| - 1;
    if i < n {
      IndexByLast(entries[..n], key, k, i);
    }
  }

  /** A key that no entry carries is not indexed. */
  lemma {:induction false} IndexByAbsent(entries: seq<Dict>, key: string, k: string)
    requires forall j :: 0 <= j < |entries| ==> Field(entries[j], key) != Str(k)
    ensures k !in IndexBy(entries, key)
  {
    if entries != [] {
      IndexByAbsent(entries[..|entries| - 1], key, k);
    }
  }

  /** `index.get(k) if k else None`. */
  function Find(index: map<string, Dict>, k: string): (r: Option<Dict>)
    ensures r.Some? <==> k != "" && k in index
    ensures r.Some? ==> r.value == index[k]
  {
    if k != "" && k in index then Some(index[k]) else None
  }

  // ------------------------------------------------------------------ entity export

  /** One row of `entities.csv`, before the cells are formatted. */
  datatype EntityRow = EntityRow(
    entityId: string,
    name: Value,
    platform: string,
    integration: string,
    domain: string,
    entityCategory: Value,
    deviceId: string,
    deviceName: string,
    areaId: string,
    areaName: string,
    disabled: bool,
    hidden: bool,
    originalName: Value,
    icon: Value,
    unitOfMeasurement: string)

  /** The area id of a row: the entity's own, else (when it has none) its device's. */
  function RowAreaId(entry: Dict, device: Option<Dict>): string
  {
    var own := StrOrEmpty(Field(entry, "area_id"));
    if own == "" && device.Some? && device.value != [] then StrOrEmpty(Field(device.value, "area_id"))
    else own
  }

  /**
   * The row `export_entities` builds for one registry entry, or None when the entry has no
   * non-empty string `entity_id` or its integration is blacklisted.
   */
  function EntityRowFor(blacklist: set<string>, areasById: map<string, Dict>, devicesById: map<string, Dict>,
                        entry: Dict): (r: Option<EntityRow>)
    ensures r.Some? <==> IsNonEmptyStr(Field(entry, "entity_id")) && StripLower(IntegrationName(entry)) !in blacklist
    ensures r.Some? ==> r.value.entityId == Field(entry, "entity_id").s
    ensures r.Some? ==> r.value.integration == IntegrationName(entry) && r.value.domain == EntityDomain(r.value.entityId)
    ensures r.Some? ==> r.value.areaId == RowAreaId(entry, Find(devicesById, r.value.deviceId))
    ensures r.Some? ==> r.value.areaName == AreaName(Find(areasById, r.value.areaId))
  {
    var entityId := Field(entry, "entity_id");
    if !IsNonEmptyStr(entityId) then None
    else
      var integration := IntegrationName(entry);
      if StripLower(integration) in blacklist then None
      else
        var deviceId := StrOrEmpty(Field(entry, "device_id"));
        var device := Find(devicesById, deviceId);
        var areaId := RowAreaId(entry, device);
        Some(EntityRow(
          entityId.s,
          PyOr(PyOr(Field(entry, "name"), Field(entry, "original_name")), Str("")),
          StrOrEmpty(Field(entry, "platform")),
          integration,
          EntityDomain(entityId.s),
          PyOr(Field(entry, "entity_category"), Str("")),
          deviceId,
          DeviceDisplayName(device),
          areaId,
          AreaName(Find(areasById, areaId)),
          Truthy(Field(entry, "disabled_by")),
          Truthy(Field(entry, "hidden_by")),
          PyOr(Field(entry, "original_name"), Str("")),
          PyOr(Field(entry, "icon"), Str("")),
          UnitOfMeasurement(entry)))
  }

  /** The rows of the entries, in registry order. */
  function EntityRowsOf(blacklist: set<string>, areasById: map<string, Dict>, devicesById: map<string, Dict>,
                        entries: seq<Dict>): seq<EntityRow>
  {
    FilterMap(entries, (e: Dict) => EntityRowFor(blacklist, areasById, devicesById, e))
  }

  /** `rows.sort(key=lambda row: row["entity_id"])`. */
  function EntityRowLe(a: EntityRow, b: EntityRow): bool { Le(a.entityId, b.entityId) }

  lemma EntityRowLeTotalPreorder()
    ensures TotalPreorder(EntityRowLe)
  {
    forall a: EntityRow, b: EntityRow ensures EntityRowLe(a, b) || EntityRowLe(b, a) {
      LeTotal(a.entityId, b.entityId);
    }
    forall a: EntityRow, b: EntityRow, c: EntityRow | EntityRowLe(a, b) && EntityRowLe(b, c)
      ensures EntityRowLe(a, c)
    {
      LeTrans(a.entityId, b.entityId, c.entityId);
    }
  }

  /** The rows of `entities.csv`: every entry's row, sorted by entity id. */
  function ExportedEntityRows(blacklist: set<string>, areas: seq<Dict>, devices: seq<Dict>,
                              entities: seq<Dict>): (r: seq<EntityRow>)
    ensures SortedBy(r, EntityRowLe)
    ensures multiset(r) == multiset(EntityRowsOf(blacklist, IndexBy(areas, "area_id"), IndexBy(devices, "id"), entities))
  {
    EntityRowLeTotalPreorder();
    var rows := EntityRowsOf(blacklist, IndexBy(areas, "area_id"), IndexBy(devices, "id"), entities);
    SortBySorted(rows, EntityRowLe);
    SortBy(rows, EntityRowLe)
  }

  /** The loop of `export_entities`: a row appended per kept entry, then the rows sorted. */
  method ExportEntities(blacklist: set<string>, areas: seq<Dict>, devices: seq<Dict>, entities: seq<Dict>)
    returns (rows: seq<EntityRow>)
    ensures rows == ExportedEntityRows(blacklist, areas, devices, entities)
  {
    var areasById := IndexBy(areas, "area_id");
    var devicesById := IndexBy(devices, "id");
    rows := [];
    for i := 0 to |entities|
      invariant rows == EntityRowsOf(blacklist, areasById, devicesById, entities[..i])
    {
      FilterMapStep(entities, (e: Dict) => EntityRowFor(blacklist, areasById, devicesById, e), i);
      var row := EntityRowFor(blacklist, areasById, devicesById, entities[i]);
      if row.Some? {
        rows := rows + [row.value];
      }
    }
    assert entities[..|entities|] == entities;
    rows := SortBy(rows, EntityRowLe);
  }

  /**
   * Every exported row comes from one registry entry and no row's integration is
   * blacklisted; every entry with an id and a permitted integration has its row.
   */
  lemma ExportedEntityMembers(blacklist: set<string>, areas: seq<Dict>, devices: seq<Dict>,
                              entities: seq<Dict>, row: EntityRow)
    ensures var byArea, byDevice := IndexBy(areas, "area_id"), IndexBy(devices, "id");
      row in ExportedEntityRows(blacklist, areas, devices, entities) <==>
      exists i :: 0 <= i < |entities| && EntityRowFor(blacklist, byArea, byDevice, entities[i]) == Some(row)
    ensures row in ExportedEntityRows(blacklist, areas, devices, entities) ==>
      StripLower(row.integration) !in blacklist && row.entityId != ""
  {
    var byArea, byDevice := IndexBy(areas, "area_id"), IndexBy(devices, "id");
    var rows := EntityRowsOf(blacklist, byArea, byDevice, entities);
    var r := ExportedEntityRows(blacklist, areas, devices, entities);
    assert row in r <==> row in multiset(rows);
    FilterMapMembers(entities, (e: Dict) => EntityRowFor(blacklist, byArea, byDevice, e), row);
  }

  /** An entry without an area of its own takes the area of its device when that has one. */
  lemma AreaFallback(entry: Dict, devices: seq<Dict>, i: nat)
    requires !Field(entry, "area_id").Str? || Field(entry, "area_id").s == ""
    requires IsNonEmptyStr(Field(entry, "device_id")) && i < |devices| && devices[i] != []
    requires Field(devices[i], "id") == Field(entry, "device_id")
    requires forall j :: i < j < |devices| ==> Field(devices[j], "id") != Field(entry, "device_id")
    ensures RowAreaId(entry, Find(IndexBy(devices, "id"), Field(entry, "device_id").s)) ==
      StrOrEmpty(Field(devices[i], "area_id"))
  {
    IndexByLast(devices, "id", Field(entry, "device_id").s, i);
  }

  // ------------------------------------------------------------------ group export

  const GroupLikeDomains: set<string> := {"group", "sensor", "light"}

  /** One row of `groups.csv`. */
  datatype GroupRow = GroupRow(entityId: string, name: Value, members: string, memberCount: nat)

  /** `sorted({m.strip() for m in members if isinstance(m, str) and m.strip()})`. */
  function GroupMembers(items: seq<Value>): (r: seq<string>)
    ensures SortedBy(r, StrLe) && NoDuplicates(r)
    ensures forall x :: x in r <==> x in CleanedBy(items, Strip)
  {
    SortedUnique(CleanedBy(items, Strip))
  }

  /** A member is listed exactly when it is the non-empty strip of some string entry. */
  lemma GroupMembersMembers(items: seq<Value>, x: string)
    ensures x in GroupMembers(items) <==> x != [] && NormalisesTo(items, Strip, x)
  {
    CleanedByMembers(items, Strip, x);
  }

  /** A duplicate-free sequence has as many elements as its set. */
  lemma {:induction false} DistinctCount(s: seq<string>)
    requires NoDuplicates(s)
    ensures |set x | x in s| == |s|
  {
    if s != [] {
      var n := |s| - 1;
      DistinctCount(s[..n]);
      assert s == s[..n] + [s[n]];
      assert s[n] !in s[..n];
      assert (set x | x in s) == (set x | x in s[..n]) + {s[n]};
    }
  }

  /**
   * The row `export_groups` builds for one state, or None unless its `entity_id` is a
   * string with a `.` in a group-like domain and `attributes.entity_id` is a list.
   */
  function GroupRowFor(entry: Dict): (r: Option<GroupRow>)
    ensures r.Some? <==>
      var id := Field(entry, "entity_id");
      var attrs := Field(entry, "attributes");
      id.Str? && '.' in id.s && EntityDomain(id.s) in GroupLikeDomains
      && attrs.Map? && Field(attrs.entries, "entity_id").Seq?
    ensures r.Some? ==>
      var members := GroupMembers(Field(Field(entry, "attributes").entries, "entity_id").items);
      r.value.entityId == Field(entry, "entity_id").s
      && r.value.members == Join(members, ";")
      && r.value.memberCount == |set x | x in members|
  {
    var entityId := Field(entry, "entity_id");
    if !entityId.Str? || '.' !in entityId.s then None
    else if EntityDomain(entityId.s) !in GroupLikeDomains then None
    else
      var attrs := Field(entry, "attributes");
      if !attrs.Map? then None
      else
        var members := Field(attrs.entries, "entity_id");
        if !members.Seq? then None
        else
          var cleaned := GroupMembers(members.items);
          DistinctCount(cleaned);
          Some(GroupRow(
            entityId.s,
            PyOr(PyOr(Field(attrs.entries, "friendly_name"), Field(attrs.entries, "name")), Str("")),
            Join(cleaned, ";"),
            |cleaned|))
  }

  /** When no member holds `;`, the `members` cell splits back into the members. */
  lemma GroupMembersSplit(entry: Dict)
    requires GroupRowFor(entry).Some?
    requires var members := GroupMembers(Field(Field(entry, "attributes").entries, "entity_id").items);
      members != [] && forall i :: 0 <= i < |members| ==> ';' !in members[i]
    ensures Split(GroupRowFor(entry).value.members, ';') ==
      GroupMembers(Field(Field(entry, "attributes").entries, "entity_id").items)
  {
    var members := GroupMembers(Field(Field(entry, "attributes").entries, "entity_id").items);
    assert ";" == [';'];
    SplitJoin(members, ';');
  }

  /** The rows of the states, in state order. */
  function GroupRowsOf(states: seq<Dict>): seq<GroupRow>
  {
    FilterMap(states, GroupRowFor)
  }

  function GroupRowLe(a: GroupRow, b: GroupRow): bool { Le(a.entityId, b.entityId) }

  lemma GroupRowLeTotalPreorder()
    ensures TotalPreorder(GroupRowLe)
  {
    forall a: GroupRow, b: GroupRow ensures GroupRowLe(a, b) || GroupRowLe(b, a) {
      LeTotal(a.entityId, b.entityId);
    }
    forall a: GroupRow, b: GroupRow, c: GroupRow | GroupRowLe(a, b) && GroupRowLe(b, c)
      ensures GroupRowLe(a, c)
    {
      LeTrans(a.entityId, b.entityId, c.entityId);
    }
  }

  /** The rows of `groups.csv`: every state's row, sorted by entity id. */
  function ExportedGroupRows(states: seq<Dict>): (r: seq<GroupRow>)
    ensures SortedBy(r, GroupRowLe)
    ensures multiset(r) == multiset(GroupRowsOf(states))
  {
    GroupRowLeTotalPreorder();
    SortBySorted(GroupRowsOf(states), GroupRowLe);
    SortBy(GroupRowsOf(states), GroupRowLe)
  }

  /** The loop of `export_groups`: a row appended per group-like state, then the rows sorted. */
  method ExportGroups(states: seq<Dict>) returns (rows: seq<GroupRow>)
    ensures rows == ExportedGroupRows(states)
  {
    rows := [];
    for i := 0 to |states|
      invariant rows == GroupRowsOf(states[..i])
    {
      FilterMapStep(states, GroupRowFor, i);
      var row := GroupRowFor(states[i]);
      if row.Some? {
        rows := rows + [row.value];
      }
    }
    assert states[..|states|] == states;
    rows := SortBy(rows, GroupRowLe);
  }

  /** Every exported group row comes from one state, and only group-like entities appear. */
  lemma ExportedGroupMembers(states: seq<Dict>, row: GroupRow)
    ensures row in ExportedGroupRows(states) <==> exists i :: 0 <= i < |states| && GroupRowFor(states[i]) == Some(row)
    ensures row in ExportedGroupRows(states) ==> EntityDomain(row.entityId) in GroupLikeDomains
  {
    assert row in ExportedGroupRows(states) <==> row in multiset(GroupRowsOf(states));
    FilterMapMembers(states, GroupRowFor, row);
  }
}
