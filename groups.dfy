/**
 * The YAML-file side of group management (groups.py): normalising the ignore list and the
 * restart-acknowledgement state, checking object ids, members and file names, toggling an
 * entity's ignored flag, and detecting whether configuration.yaml loads groups.yaml.
 * File contents are inputs (`FileContent`, absent as `None`); the Home Assistant API calls
 * are not part of this model.
 */
module Groups {
  import opened Wrappers
  import opened Text
  import opened Yaml
  import opened YamlTags

  const SchemaVersionKey: string := "schema_version"
  const IgnoredKey: string := "ignored"
  const EntityIdsKey: string := "entity_ids"
  const EntityIdKey: string := "entity_id"
  const ChangeHashKey: string := "last_groups_change_hash"
  const AckHashKey: string := "last_restart_ack_hash"
  const GroupKey: string := "group"

  const EntityIdsError: string := "ignored.entity_ids must be a list of strings."
  const MembersError: string := "members must be a list of entity IDs."

  /** A YAML list of strings. */
  function StrList(xs: seq<string>): (v: Value)
    ensures v.Seq? && |v.items| == |xs|
    ensures forall i :: 0 <= i < |xs| ==> v.items[i] == Str(xs[i])
  {
    Seq(seq(|xs|, i requires 0 <= i < |xs| => Str(xs[i])))
  }

  predicate AllStrings(items: seq<Value>)
  {
    forall i :: 0 <= i < |items| ==> items[i].Str?
  }

  /**
   * A normalised id list as the bridge stores it: sorted, without repeats, and made of
   * non-empty ids that are already stripped and lower-cased.
   */
  predicate Normal(xs: seq<string>)
  {
    SortedBy(xs, StrLe) && NoDuplicates(xs)
    && forall i :: 0 <= i < |xs| ==> xs[i] != [] && StripLower(xs[i]) == xs[i]
  }

  // ------------------------------------------------------------------ id lists

  /** The non-empty `norm(entry)` of every string entry, in list order. */
  function CleanedBy(items: seq<Value>, norm: string -> string): seq<string>
  {
    if items == [] then []
    else
      var rest := CleanedBy(items[..|items| - 1], norm);
      var v := items[|items| - 1];
      if v.Str? && norm(v.s) != [] then rest + [norm(v.s)] else rest
  }

  /** Some string entry normalises to `x`. */
  predicate NormalisesTo(items: seq<Value>, norm: string -> string, x: string)
  {
    exists i :: 0 <= i < |items| && items[i].Str? && norm(items[i].s) == x
  }

  /** An id is among the cleaned ones exactly when it is non-empty and some string entry normalises to it. */
  lemma {:induction false} CleanedByMembers(items: seq<Value>, norm: string -> string, x: string)
    ensures x in CleanedBy(items, norm) <==> x != [] && NormalisesTo(items, norm, x)
  {
    if items != [] {
      var n := |items| - 1;
      var front := items[..n];
      CleanedByMembers(front, norm, x);
      if NormalisesTo(front, norm, x) {
        var i :| 0 <= i < |front| && front[i].Str? && norm(front[i].s) == x;
        assert items[i] == front[i];
      }
      if NormalisesTo(items, norm, x) && !(items[n].Str? && norm(items[n].s) == x) {
        var i :| 0 <= i < |items| && items[i].Str? && norm(items[i].s) == x;
        assert i < n && front[i] == items[i];
      }
    }
  }

  /** `entry.strip().lower()` for every string entry that is not blank. */
  function CleanedIds(items: seq<Value>): seq<string>
  {
    CleanedBy(items, StripLower)
  }

  lemma CleanedIdsMembers(items: seq<Value>, x: string)
    ensures x in CleanedIds(items) <==> x != [] && NormalisesTo(items, StripLower, x)
  {
    CleanedByMembers(items, StripLower, x);
  }

  /** Sorting the distinct cleaned ids gives a normalised list. */
  lemma NormalCleaned(items: seq<Value>)
    ensures Normal(SortedUnique(CleanedIds(items)))
  {
    var r := SortedUnique(CleanedIds(items));
    forall i | 0 <= i < |r| ensures r[i] != [] && StripLower(r[i]) == r[i] {
      CleanedIdsMembers(items, r[i]);
      var j :| 0 <= j < |items| && items[j].Str? && StripLower(items[j].s) == r[i];
      StripLowerIdempotent(items[j].s);
    }
  }

  /**
   * `_normalize_entity_ids`: None is the empty list, anything but a list of strings is
   * rejected, and the ids come back stripped, lower-cased, without blanks or repeats, sorted.
   */
  function NormalizedEntityIds(v: Value): (r: Result<seq<string>>)
    ensures r.Ok? <==> v.Null? || (v.Seq? && AllStrings(v.items))
    ensures r.Err? ==> r.error == EntityIdsError
    ensures r.Ok? ==> Normal(r.value)
    ensures v.Null? ==> r == Ok([])
  {
    if v.Null? then Ok([])
    else if !v.Seq? || !AllStrings(v.items) then Err(EntityIdsError)
    else
      NormalCleaned(v.items);
      Ok(SortedUnique(CleanedIds(v.items)))
  }

  /** The loop of `_normalize_entity_ids`: first occurrences kept in `cleaned`, then sorted. */
  method NormalizeEntityIds(v: Value) returns (r: Result<seq<string>>)
    ensures r == NormalizedEntityIds(v)
  {
    if v.Null? {
      return Ok([]);
    }
    if !v.Seq? {
      return Err(EntityIdsError);
    }
    var items := v.items;
    var cleaned: seq<string> := [];
    for i := 0 to |items|
      invariant AllStrings(items[..i])
      invariant cleaned == Dedup(CleanedIds(items[..i]))
    {
      if !items[i].Str? {
        assert !AllStrings(items);
        return Err(EntityIdsError);
      }
      var entityId := StripLower(items[i].s);
      ghost var before := CleanedIds(items[..i]);
      CleanedByStep(items, i, StripLower);
      AllStringsStep(items, i);
      if entityId != [] {
        assert CleanedIds(items[..i + 1]) == before + [entityId];
        DedupAppend(before, entityId);
        if entityId !in cleaned {
          cleaned := cleaned + [entityId];
        }
      } else {
        assert CleanedIds(items[..i + 1]) == before;
      }
    }
    assert items[..|items|] == items;
    return Ok(SortStrings(cleaned));
  }

  lemma CleanedByStep(items: seq<Value>, i: nat, norm: string -> string)
    requires i < |items|
    ensures CleanedBy(items[..i + 1], norm) ==
      if items[i].Str? && norm(items[i].s) != [] then CleanedBy(items[..i], norm) + [norm(items[i].s)]
      else CleanedBy(items[..i], norm)
  {
    assert items[..i + 1][..i] == items[..i];
  }

  lemma AllStringsStep(items: seq<Value>, i: nat)
    requires i < |items| && AllStrings(items[..i]) && items[i].Str?
    ensures AllStrings(items[..i + 1])
  {
    assert forall j :: 0 <= j < i ==> items[..i + 1][j] == items[..i][j];
  }

  lemma DedupAppend(xs: seq<string>, x: string)
    ensures Dedup(xs + [x]) == if x in Dedup(xs) then Dedup(xs) else Dedup(xs) + [x]
  {
    assert (xs + [x])[..|xs|] == xs;
  }

  /** The ids kept are exactly the non-empty normalisations of the entries. */
  lemma EntityIdsMembers(items: seq<Value>, x: string)
    requires AllStrings(items)
    ensures x in NormalizedEntityIds(Seq(items)).value <==> x != [] && NormalisesTo(items, StripLower, x)
  {
    CleanedIdsMembers(items, x);
  }

  /** A normalised list written back as YAML normalises to itself. */
  lemma EntityIdsIdempotent(xs: seq<string>)
    requires Normal(xs)
    ensures NormalizedEntityIds(StrList(xs)) == Ok(xs)
  {
    var r := SortedUnique(CleanedIds(StrList(xs).items));
    CleanedByFixed(xs, StripLower);
    SortedSetsEqual(r, xs);
  }

  /** Cleaning a list of ids that are their own normal form keeps exactly those ids. */
  lemma CleanedByFixed(xs: seq<string>, norm: string -> string)
    requires forall i :: 0 <= i < |xs| ==> xs[i] != [] && norm(xs[i]) == xs[i]
    ensures forall x :: x in CleanedBy(StrList(xs).items, norm) <==> x in xs
  {
    var items := StrList(xs).items;
    forall x ensures x in CleanedBy(items, norm) <==> x in xs {
      CleanedByMembers(items, norm, x);
      if NormalisesTo(items, norm, x) {
        var j :| 0 <= j < |items| && items[j].Str? && norm(items[j].s) == x;
        assert items[j].s == xs[j];
      }
      if x in xs {
        var j :| 0 <= j < |xs| && xs[j] == x;
        assert items[j].s == x;
      }
    }
  }

  /**
   * `_normalize_members`: like the entity-id list, but entries that are not strings are
   * skipped instead of rejected (a sorted set of the normalised non-blank strings).
   */
  function NormalizedMembers(v: Value): (r: Result<seq<string>>)
    ensures r.Ok? <==> v.Null? || v.Seq?
    ensures r.Err? ==> r.error == MembersError
    ensures r.Ok? ==> Normal(r.value)
  {
    if v.Null? then Ok([])
    else if !v.Seq? then Err(MembersError)
    else
      NormalCleaned(v.items);
      Ok(SortedUnique(CleanedIds(v.items)))
  }

  /** The members kept are exactly the non-empty normalisations of the string entries. */
  lemma MembersMembers(items: seq<Value>, x: string)
    ensures x in NormalizedMembers(Seq(items)).value <==> x != [] && NormalisesTo(items, StripLower, x)
  {
    CleanedIdsMembers(items, x);
  }

  /** On a list of strings the two normalisers agree, whatever order they dedupe and sort in. */
  lemma MembersAgreeWithEntityIds(items: seq<Value>)
    requires AllStrings(items)
    ensures NormalizedMembers(Seq(items)) == NormalizedEntityIds(Seq(items))
  {
    var a := NormalizedMembers(Seq(items)).value;
    var b := NormalizedEntityIds(Seq(items)).value;
    forall x ensures x in a <==> x in b {
      MembersMembers(items, x);
      EntityIdsMembers(items, x);
    }
    SortedSetsEqual(a, b);
  }

  // ------------------------------------------------------------------ groups.config.yaml

  /** `groups.config.yaml` after normalisation (its schema version is always 1). */
  datatype GroupsConfig = GroupsConfig(ignoredEntityIds: seq<string>)

  /** `payload.get("schema_version", 1) != 1` is false (Python's `True == 1` included). */
  predicate SchemaOne(payload: Value)
  {
    PyEq(LookupOr(payload, SchemaVersionKey, Int(1)), Int(1))
  }

  /** `payload.get("ignored") or {}`. */
  function IgnoredSection(payload: Value): Value
  {
    var v := LookupOr(payload, IgnoredKey, Null);
    if Truthy(v) then v else Map([])
  }

  /**
   * `_normalize_groups_config`: None gives the default; a non-map, a schema version other
   * than 1 or a non-map `ignored` section is rejected; the ignore list is normalised.
   */
  function NormalizedGroupsConfig(payload: Value): (r: Result<GroupsConfig>)
    ensures r.Ok? ==> Normal(r.value.ignoredEntityIds)
    ensures payload.Null? ==> r == Ok(GroupsConfig([]))
    ensures !payload.Null? && !payload.Map? ==> r == Err("Groups config must be a map.")
    ensures payload.Map? && !SchemaOne(payload) ==> r == Err("Unsupported groups.config.yaml schema_version.")
    ensures payload.Map? && SchemaOne(payload) && !IgnoredSection(payload).Map? ==> r == Err("ignored config must be a map.")
  {
    if payload.Null? then Ok(GroupsConfig([]))
    else if !payload.Map? then Err("Groups config must be a map.")
    else if !SchemaOne(payload) then Err("Unsupported groups.config.yaml schema_version.")
    else
      var ignored := IgnoredSection(payload);
      if !ignored.Map? then Err("ignored config must be a map.")
      else
        match NormalizedEntityIds(LookupOr(ignored, EntityIdsKey, Null))
        case Err(e) => Err(e)
        case Ok(ids) => Ok(GroupsConfig(ids))
  }

  /** What `save_groups_config` writes for a normalised config. */
  function GroupsConfigValue(c: GroupsConfig): Value
  {
    Map([(SchemaVersionKey, Int(1)), (IgnoredKey, Map([(EntityIdsKey, StrList(c.ignoredEntityIds))]))])
  }

  lemma GroupsKeysDistinct()
    ensures SchemaVersionKey != IgnoredKey
  {
    assert SchemaVersionKey[0] != IgnoredKey[0];
  }

  /** Saving a normalised config and loading it again gives the same config. */
  lemma GroupsConfigRoundTrip(c: GroupsConfig)
    requires Normal(c.ignoredEntityIds)
    ensures NormalizedGroupsConfig(GroupsConfigValue(c)) == Ok(c)
  {
    GroupsKeysDistinct();
    var v := GroupsConfigValue(c);
    var list := StrList(c.ignoredEntityIds);
    var ids := Map([(EntityIdsKey, list)]);
    GetPair(SchemaVersionKey, Int(1), IgnoredKey, ids, SchemaVersionKey);
    assert LookupOr(v, SchemaVersionKey, Int(1)) == Int(1);
    assert SchemaOne(v);
    GetPair(SchemaVersionKey, Int(1), IgnoredKey, ids, IgnoredKey);
    assert IgnoredSection(v) == ids;
    GetSingle(EntityIdsKey, list, EntityIdsKey);
    assert LookupOr(ids, EntityIdsKey, Null) == list;
    EntityIdsIdempotent(c.ignoredEntityIds);
  }

  /** `load_groups_config`: a missing file gives the default; an unparsable one is rejected. */
  function LoadGroupsConfig(file: Option<FileContent>): (r: Result<GroupsConfig>)
    ensures r.Ok? ==> Normal(r.value.ignoredEntityIds)
    ensures file.None? || file == Some(Blank) ==> r == Ok(GroupsConfig([]))
  {
    match file
    case None => Ok(GroupsConfig([]))
    case Some(Blank) => NormalizedGroupsConfig(Null)
    case Some(Invalid(m)) => Err("Invalid groups.config.yaml: " + m)
    case Some(Parsed(v)) => NormalizedGroupsConfig(v)
  }

  /** `ignored.discard(x)` on the list form. */
  function Without(xs: seq<string>, x: string): (r: seq<string>)
    ensures forall y :: y in r <==> y in xs && y != x
  {
    if xs == [] then []
    else
      assert xs == [xs[0]] + xs[1..];
      (if xs[0] == x then [] else [xs[0]]) + Without(xs[1..], x)
  }

  /** A string holding a non-whitespace character does not strip to nothing. */
  lemma StripLowerNonEmpty(s: string, c: char)
    requires c in s && c !in Whitespace
    ensures StripLower(s) != []
  {
  }

  /**
   * `set_group_ignored`: the payload must be a map with an `entity_id` string holding a `.`;
   * the stored ignore list gains or loses exactly that id, normalised, and stays sorted.
   * The config returned is the one saved.
   */
  function SetGroupIgnored(file: Option<FileContent>, payload: Value): (r: Result<GroupsConfig>)
    ensures r.Ok? ==> Normal(r.value.ignoredEntityIds)
    ensures r.Ok? ==> NormalizedGroupsConfig(GroupsConfigValue(r.value)) == Ok(r.value)
    ensures r.Ok? ==>
      var e := LookupOr(payload, EntityIdKey, Null);
      var ignore := Truthy(LookupOr(payload, IgnoredKey, Null));
      payload.Map? && e.Str? && '.' in e.s && LoadGroupsConfig(file).Ok? &&
      forall x :: x in r.value.ignoredEntityIds <==>
        (x in LoadGroupsConfig(file).value.ignoredEntityIds && x != StripLower(e.s))
        || (ignore && x == StripLower(e.s))
    ensures !payload.Map? ==> r == Err("Payload must be a map.")
  {
    if !payload.Map? then Err("Payload must be a map.")
    else
      var e := LookupOr(payload, EntityIdKey, Null);
      if !e.Str? || '.' !in e.s then Err("entity_id must be a valid entity id.")
      else
        var ignore := Truthy(LookupOr(payload, IgnoredKey, Null));
        match LoadGroupsConfig(file)
        case Err(m) => Err(m)
        case Ok(c) =>
          StripLowerNonEmpty(e.s, '.');
          StripLowerIdempotent(e.s);
          Ok(UpdatedIgnored(c, StripLower(e.s), ignore))
  }

  /** `ignored.add(n)` or `ignored.discard(n)` on a normalised config, then `sorted(ignored)`. */
  function UpdatedIgnored(c: GroupsConfig, n: string, ignore: bool): (r: GroupsConfig)
    requires Normal(c.ignoredEntityIds) && n != [] && StripLower(n) == n
    ensures Normal(r.ignoredEntityIds)
    ensures NormalizedGroupsConfig(GroupsConfigValue(r)) == Ok(r)
    ensures forall x :: x in r.ignoredEntityIds <==> (x in c.ignoredEntityIds && x != n) || (ignore && x == n)
  {
    var ids := c.ignoredEntityIds;
    var r := GroupsConfig(SortedUnique(if ignore then ids + [n] else Without(ids, n)));
    NormalUpdated(ids, n, ignore, r.ignoredEntityIds);
    GroupsConfigRoundTrip(r);
    r
  }

  lemma NormalUpdated(before: seq<string>, n: string, ignore: bool, r: seq<string>)
    requires Normal(before) && n != [] && StripLower(n) == n
    requires r == SortedUnique(if ignore then before + [n] else Without(before, n))
    ensures Normal(r)
    ensures forall x :: x in r <==> (x in before && x != n) || (ignore && x == n)
  {
    var l := if ignore then before + [n] else Without(before, n);
    assert forall x :: x in r <==> x in l;
    forall i | 0 <= i < |r| ensures r[i] != [] && StripLower(r[i]) == r[i] {
      assert r[i] in l;
      if r[i] != n {
        NormalMember(before, r[i]);
      }
    }
  }

  lemma NormalMember(xs: seq<string>, x: string)
    requires Normal(xs) && x in xs
    ensures x != [] && StripLower(x) == x
  {
    var j :| 0 <= j < |xs| && xs[j] == x;
  }

  // ------------------------------------------------------------------ restart acknowledgement

  /** `groups.restart-state.yaml` after normalisation. */
  datatype RestartState = RestartState(lastGroupsChangeHash: string, lastRestartAckHash: string)

  /** `str(value) if value else ""` for `payload.get(key, "")`. */
  function HashSetting(payload: Value, key: string): string
  {
    var v := LookupOr(payload, key, Str(""));
    if Truthy(v) then PyStr(v) else ""
  }

  /** `_normalize_restart_state`: both hashes default to the empty string. */
  function NormalizedRestartState(payload: Value): (r: Result<RestartState>)
    ensures payload.Null? ==> r == Ok(RestartState("", ""))
    ensures !payload.Null? && !payload.Map? ==> r == Err("groups.restart-state.yaml must be a map.")
    ensures payload.Map? && !SchemaOne(payload) ==> r == Err("Unsupported groups.restart-state.yaml schema_version.")
    ensures payload.Map? && SchemaOne(payload) ==>
      r == Ok(RestartState(HashSetting(payload, ChangeHashKey), HashSetting(payload, AckHashKey)))
  {
    if payload.Null? then Ok(RestartState("", ""))
    else if !payload.Map? then Err("groups.restart-state.yaml must be a map.")
    else if !SchemaOne(payload) then Err("Unsupported groups.restart-state.yaml schema_version.")
    else Ok(RestartState(HashSetting(payload, ChangeHashKey), HashSetting(payload, AckHashKey)))
  }

  /** What `_save_restart_state` writes. */
  function RestartStateValue(s: RestartState): Value
  {
    Map([(SchemaVersionKey, Int(1)), (ChangeHashKey, Str(s.lastGroupsChangeHash)),
         (AckHashKey, Str(s.lastRestartAckHash))])
  }

  lemma RestartKeysDistinct()
    ensures SchemaVersionKey != ChangeHashKey && SchemaVersionKey != AckHashKey && ChangeHashKey != AckHashKey
  {
    assert SchemaVersionKey[0] != ChangeHashKey[0] && SchemaVersionKey[0] != AckHashKey[0];
    assert ChangeHashKey[5] != AckHashKey[5];
  }

  /** A saved restart state loads back unchanged. */
  lemma RestartStateRoundTrip(s: RestartState)
    ensures NormalizedRestartState(RestartStateValue(s)) == Ok(s)
  {
    RestartKeysDistinct();
    var a, b := Str(s.lastGroupsChangeHash), Str(s.lastRestartAckHash);
    GetTriple(SchemaVersionKey, Int(1), ChangeHashKey, a, AckHashKey, b, SchemaVersionKey);
    GetTriple(SchemaVersionKey, Int(1), ChangeHashKey, a, AckHashKey, b, ChangeHashKey);
    GetTriple(SchemaVersionKey, Int(1), ChangeHashKey, a, AckHashKey, b, AckHashKey);
    var v := RestartStateValue(s);
    assert SchemaOne(v);
    assert HashSetting(v, ChangeHashKey) == s.lastGroupsChangeHash;
    assert HashSetting(v, AckHashKey) == s.lastRestartAckHash;
  }

  /** `load_restart_state`. */
  function LoadRestartState(file: Option<FileContent>): Result<RestartState>
  {
    match file
    case None => Ok(RestartState("", ""))
    case Some(Blank) => NormalizedRestartState(Null)
    case Some(Invalid(m)) => Err("Invalid groups.restart-state.yaml: " + m)
    case Some(Parsed(v)) => NormalizedRestartState(v)
  }

  /** The answer of `restart_status` (its fixed `path` field aside). */
  datatype RestartStatus = RestartStatus(restartNeeded: bool, currentHash: string, ackHash: string)

  /** A restart is needed when the group files hash to something not yet acknowledged. */
  predicate RestartNeeded(s: RestartState, currentHash: string)
  {
    currentHash != "" && currentHash != s.lastRestartAckHash
  }

  /**
   * The restart-state file. `currentHash` stands for `_groups_config_hash()`, which is ""
   * exactly when there are no group files.
   */
  class RestartStore {
    var file: Option<FileContent>

    constructor(file: Option<FileContent>)
      ensures this.file == file
    {
      this.file := file;
    }

    function Loaded(): Result<RestartState>
      reads this
    {
      LoadRestartState(file)
    }

    /** `restart_status`: records the current hash as the last change, then compares it with the ack. */
    method Status(currentHash: string) returns (r: Result<RestartStatus>)
      modifies this
      ensures old(Loaded()).Err? ==> r == Err(old(Loaded()).error) && file == old(file)
      ensures old(Loaded()).Ok? ==>
        var s := old(Loaded()).value;
        r == Ok(RestartStatus(RestartNeeded(s, currentHash), currentHash, s.lastRestartAckHash))
        && Loaded() == Ok(s.(lastGroupsChangeHash := currentHash))
        && (s.lastGroupsChangeHash == currentHash ==> file == old(file))
    {
      var loaded := LoadRestartState(file);
      if loaded.Err? {
        return Err(loaded.error);
      }
      var state := loaded.value;
      if state.lastGroupsChangeHash != currentHash {
        state := state.(lastGroupsChangeHash := currentHash);
        file := Some(Parsed(RestartStateValue(state)));
        RestartStateRoundTrip(state);
      }
      var ackHash := state.lastRestartAckHash;
      return Ok(RestartStatus(currentHash != "" && currentHash != ackHash, currentHash, ackHash));
    }

    /** `ack_restart`: both stored hashes become the current one. */
    method Ack(currentHash: string) returns (r: Result<RestartStatus>)
      modifies this
      ensures old(Loaded()).Err? ==> r == Err(old(Loaded()).error) && file == old(file)
      ensures old(Loaded()).Ok? ==>
        r == Ok(RestartStatus(false, currentHash, currentHash))
        && file == Some(Parsed(RestartStateValue(RestartState(currentHash, currentHash))))
        && Loaded() == Ok(RestartState(currentHash, currentHash))
    {
      var status := Status(currentHash);
      if status.Err? {
        return status;
      }
      var hash := status.value.currentHash;
      var loaded := LoadRestartState(file);
      var state := loaded.value.(lastGroupsChangeHash := hash, lastRestartAckHash := hash);
      file := Some(Parsed(RestartStateValue(state)));
      RestartStateRoundTrip(state);
      return Ok(status.value.(restartNeeded := false, ackHash := hash));
    }
  }

  /** After an acknowledgement no restart is reported until the group files hash differently. */
  method AckThenStatus(store: RestartStore, ackedHash: string, laterHash: string) returns (r: Result<RestartStatus>)
    modifies store
    ensures old(store.Loaded()).Ok? ==> r.Ok? && (r.value.restartNeeded <==> laterHash != "" && laterHash != ackedHash)
  {
    var _ := store.Ack(ackedHash);
    r := store.Status(laterHash);
  }

  // ------------------------------------------------------------------ object ids and file names

  predicate IsObjectIdChar(c: char) { IsAlnumChar(c) || c == '_' }

  /**
   * `_normalize_object_id`: a string that is non-empty once stripped and lower-cased, and made
   * of letters, digits and `_`.
   */
  function NormalizedObjectId(v: Value): (r: Result<string>)
    ensures r.Ok? ==> v.Str? && r.value == StripLower(v.s) && r.value != []
    ensures r.Ok? ==> forall i :: 0 <= i < |r.value| ==>
      IsDigitChar(r.value[i]) || IsLowerChar(r.value[i]) || r.value[i] == '_'
    ensures !v.Str? ==> r == Err("object_id must be a string.")
    ensures v.Str? && IsBlank(v.s) ==> r == Err("object_id is required.")
  {
    if !v.Str? then Err("object_id must be a string.")
    else
      var id := StripLower(v.s);
      if id == [] then Err("object_id is required.")
      else if !(forall i :: 0 <= i < |id| ==> IsObjectIdChar(id[i])) then
        Err("object_id must contain only letters, numbers, and underscores.")
      else Ok(id)
  }

  /** An accepted object id is accepted again unchanged. */
  lemma ObjectIdIdempotent(v: Value)
    requires NormalizedObjectId(v).Ok?
    ensures NormalizedObjectId(Str(NormalizedObjectId(v).value)) == NormalizedObjectId(v)
  {
    StripLowerIdempotent(v.s);
  }

  /** `path.lower().endswith((".yaml", ".yml"))`. */
  predicate HasYamlSuffix(s: string)
  {
    EndsWith(Lower(s), ".yaml") || EndsWith(Lower(s), ".yml")
  }

  lemma YamlExtensionFacts()
    ensures '/' !in ".yaml" && '\\' !in ".yaml" && '.' in ".yaml"
    ensures ".yaml"[4] !in Whitespace
  {
  }

  /** A name with `.yaml` appended has the YAML suffix. */
  lemma AppendedYaml(c: string)
    ensures HasYamlSuffix(c + ".yaml")
  {
    var t := c + ".yaml";
    var l := Lower(t);
    assert l[|l| - 5..] == Lower(".yaml") by {
      forall i | 0 <= i < 5 ensures l[|l| - 5 + i] == Lower(".yaml")[i] {
        assert t[|t| - 5 + i] == ".yaml"[i];
      }
    }
    assert Lower(".yaml") == ".yaml";
  }

  /**
   * `_ensure_yaml_filename`: a plain file name (no `/` or `\`), `.yaml` appended when it
   * has no `.` at all, and a `.yaml`/`.yml` suffix in any letter case required.
   */
  function EnsureYamlFilename(v: Value): (r: Result<string>)
    ensures r.Ok? ==> v.Str? && r.value != [] && '/' !in r.value && '\\' !in r.value && HasYamlSuffix(r.value)
    ensures r.Ok? ==> r.value == Strip(v.s) || r.value == Strip(v.s) + ".yaml"
    ensures v.Str? && Strip(v.s) != [] && '/' !in Strip(v.s) && '\\' !in Strip(v.s) && '.' !in Strip(v.s) ==>
      r == Ok(Strip(v.s) + ".yaml")
    ensures !v.Str? ==> r == Err("Filename must be a string.")
  {
    if !v.Str? then Err("Filename must be a string.")
    else
      var c0 := Strip(v.s);
      if c0 == [] then Err("Filename is required.")
      else if '/' in c0 || '\\' in c0 then Err("Filename must be a simple filename.")
      else
        YamlExtensionFacts();
        AppendedYaml(c0);
        var c := if '.' !in c0 then c0 + ".yaml" else c0;
        if !HasYamlSuffix(c) then Err("Filename must end with .yaml or .yml.")
        else Ok(c)
  }

  /** An accepted file name is accepted again unchanged. */
  lemma YamlFilenameIdempotent(v: Value)
    requires EnsureYamlFilename(v).Ok?
    ensures EnsureYamlFilename(Str(EnsureYamlFilename(v).value)) == EnsureYamlFilename(v)
  {
    var c0 := Strip(v.s);
    assert c0 != [] && '/' !in c0 && '\\' !in c0;
    if '.' in c0 {
      StripIdempotent(v.s);
      AcceptedFilename(c0);
    } else {
      AppendedAccepted(c0);
    }
  }

  /** A stripped name given `.yaml` is accepted again as it is. */
  lemma AppendedAccepted(c0: string)
    requires c0 != [] && c0[0] !in Whitespace && '/' !in c0 && '\\' !in c0
    ensures EnsureYamlFilename(Str(c0 + ".yaml")) == Ok(c0 + ".yaml")
  {
    var r := c0 + ".yaml";
    YamlExtensionFacts();
    assert r[0] == c0[0] && r[|r| - 1] == ".yaml"[4];
    StripUnchanged(r);
    assert r[|r| - 5] == '.';
    AppendedYaml(c0);
    AcceptedFilename(r);
  }

  /** A stripped plain file name with a `.` and a YAML suffix is accepted as it is. */
  lemma AcceptedFilename(t: string)
    requires t != [] && Strip(t) == t && '/' !in t && '\\' !in t && '.' in t && HasYamlSuffix(t)
    ensures EnsureYamlFilename(Str(t)) == Ok(t)
  {
  }

  // ------------------------------------------------------------------ configuration.yaml

  /** The `configuration` block of `list_groups` (its fixed `path` field aside). */
  datatype ConfigurationStatus = ConfigurationStatus(includesGroupsYaml: bool, warning: string)

  /** `group: !include groups.yaml` (or `groups.yml`), surrounding whitespace allowed. */
  predicate IncludesGroupsYaml(group: Option<Value>)
  {
    group.Some? && group.value.Tagged? && group.value.tag == "!include"
    && (Strip(PyStr(group.value.payload)) == "groups.yaml" || Strip(PyStr(group.value.payload)) == "groups.yml")
  }

  /**
   * `_groups_yaml_configuration_status`, given configuration.yaml (`None` when it does not
   * exist): the warning is cleared exactly when the group key includes groups.yaml.
   */
  function GroupsYamlConfigurationStatus(config: Option<FileContent>): (r: ConfigurationStatus)
    ensures r.includesGroupsYaml <==>
      config.Some? && config.value.Parsed? && config.value.value.Map?
      && IncludesGroupsYaml(Get(config.value.value.entries, GroupKey))
    ensures r.includesGroupsYaml <==> r.warning == ""
    ensures config.None? ==>
      r.warning == "configuration.yaml not found. Add `group: !include groups.yaml` to load groups."
    ensures config.Some? && config.value.Invalid? ==>
      r.warning == "Unable to parse configuration.yaml (" + LoadErrorText("configuration.yaml", config.value.message)
        + "). Ensure `group: !include groups.yaml` is configured."
  {
    match config
    case None =>
      ConfigurationStatus(false, "configuration.yaml not found. Add `group: !include groups.yaml` to load groups.")
    case Some(Invalid(error)) =>
      ConfigurationStatus(false, "Unable to parse configuration.yaml (" + LoadErrorText("configuration.yaml", error)
        + "). Ensure `group: !include groups.yaml` is configured.")
    case Some(Blank) =>
      ConfigurationStatus(false, "configuration.yaml is not a YAML map. Ensure `group: !include groups.yaml` is configured.")
    case Some(Parsed(data)) =>
      if !data.Map? then
        ConfigurationStatus(false, "configuration.yaml is not a YAML map. Ensure `group: !include groups.yaml` is configured.")
      else if IncludesGroupsYaml(Get(data.entries, GroupKey)) then ConfigurationStatus(true, "")
      else
        ConfigurationStatus(false, "configuration.yaml does not include `group: !include groups.yaml`. "
          + "Home Assistant will ignore GitOps-managed groups until it is added.")
  }
}
