/**
 * The YAML Modules domain registry (yaml_modules.py): the six domains whose Home Assistant
 * domain file is assembled from module files, the helper types kept under `helpers/`, and the
 * two classifiers that tell from a list of changed config-relative paths which domains were
 * touched and whether a sync is due. Paths are config-relative strings.
 */
module ModuleDomains {
  import opened Wrappers
  import opened Text

  /** How a domain file holds its items: a list, a mapping keyed by id, or a dashboard. */
  datatype Kind = ListKind | MappingKind | LovelaceKind

  /** `DomainSpec`, with the domain file and the module directory relative to the config directory. */
  datatype DomainSpec = DomainSpec(
    key: string,
    domainFile: string,
    moduleDir: string,
    packageFilename: string,
    kind: Kind,
    idField: Option<string>,
    autoId: bool,
    reloadDomain: Option<string>)

  const AutomationSpec: DomainSpec :=
    DomainSpec("automation", "automations.yaml", "automations", "automation.yaml", ListKind, Some("id"), true, Some("automation"))
  const ScriptSpec: DomainSpec :=
    DomainSpec("script", "scripts.yaml", "scripts", "script.yaml", MappingKind, None, false, Some("script"))
  const GroupSpec: DomainSpec :=
    DomainSpec("group", "groups.yaml", "groups", "groups.yaml", MappingKind, None, false, None)
  const SceneSpec: DomainSpec :=
    DomainSpec("scene", "scenes.yaml", "scenes", "scene.yaml", ListKind, Some("id"), true, Some("scene"))
  const TemplateSpec: DomainSpec :=
    DomainSpec("template", "templates.yaml", "templates", "template.yaml", ListKind, None, false, Some("template"))
  const LovelaceSpec: DomainSpec :=
    DomainSpec("lovelace", "ui-lovelace.yaml", "lovelace", "lovelace.yaml", LovelaceKind, Some("path"), true, None)

  /** `YAML_MODULE_DOMAINS`, in registry order. */
  const Domains: seq<DomainSpec> := [AutomationSpec, ScriptSpec, GroupSpec, SceneSpec, TemplateSpec, LovelaceSpec]

  /** `HELPER_TYPES`, in the order helper files are written. */
  const HelperTypes: seq<string> :=
    ["input_boolean", "input_button", "input_datetime", "input_number", "input_select", "input_text",
     "counter", "timer", "schedule"]

  const HelpersDomainKey: string := "helpers"

  /**
   * The registry is keyed without clashes: no two domains share a key, a package file name
   * or a domain file, and an id is generated exactly for the domains that have an id field.
   */
  lemma RegistryShape()
    ensures forall i, j :: 0 <= i < j < |Domains| ==>
      Domains[i].key != Domains[j].key && Domains[i].packageFilename != Domains[j].packageFilename &&
      Domains[i].domainFile != Domains[j].domainFile
    ensures forall s :: s in Domains ==> (s.autoId <==> s.idField.Some?)
    ensures forall s :: s in Domains ==> s.key != HelpersDomainKey && s.packageFilename != "helpers.yaml"
  {
  }

  /** The first spec in `specs` whose field `f` equals `x` (the `for spec in ...: return spec` loops). */
  function FindSpec(specs: seq<DomainSpec>, f: DomainSpec -> string, x: string): (r: Option<DomainSpec>)
    ensures r.Some? ==> r.value in specs && f(r.value) == x
    ensures r.None? <==> forall s :: s in specs ==> f(s) != x
  {
    if specs == [] then None
    else if f(specs[0]) == x then Some(specs[0])
    else FindSpec(specs[1..], f, x)
  }

  /** `_spec_by_key`. */
  function SpecByKey(key: string): (r: Option<DomainSpec>)
    ensures r.Some? ==> r.value in Domains && r.value.key == key
    ensures r.None? <==> forall s :: s in Domains ==> s.key != key
  {
    FindSpec(Domains, (s: DomainSpec) => s.key, key)
  }

  /** `_spec_by_package_filename`. */
  function SpecByPackageFilename(name: string): (r: Option<DomainSpec>)
    ensures r.Some? ==> r.value in Domains && r.value.packageFilename == name
    ensures r.None? <==> forall s :: s in Domains ==> s.packageFilename != name
  {
    FindSpec(Domains, (s: DomainSpec) => s.packageFilename, name)
  }

  // ------------------------------------------------------------------ changed domains

  /**
   * The six list/mapping/dashboard tests of `list_changed_domains`: a domain is touched when the
   * lower-cased path ends with its domain file name or starts with its module folder.
   */
  const Detectors: seq<(string, string, string)> := [
    ("automation", "automations.yaml", "automations/"),
    ("script", "scripts.yaml", "scripts/"),
    ("group", "groups.yaml", "groups/"),
    ("scene", "scenes.yaml", "scenes/"),
    ("template", "templates.yaml", "templates/"),
    ("lovelace", "ui-lovelace.yaml", "lovelace/")]

  /** The detections among `ds` that fire on the lower-cased path `l`. */
  function DetectedOf(l: string, ds: seq<(string, string, string)>): (r: set<string>)
    ensures forall k :: k in r <==> exists d :: d in ds && d.0 == k && (EndsWith(l, d.1) || StartsWith(l, d.2))
  {
    if ds == [] then {}
    else
      var last := ds[|ds| - 1];
      var r := DetectedOf(l, ds[..|ds| - 1]) + (if EndsWith(l, last.1) || StartsWith(l, last.2) then {last.0} else {});
      assert forall k :: k in r <==> exists d :: d in ds && d.0 == k && (EndsWith(l, d.1) || StartsWith(l, d.2)) by {
        forall k | exists d :: d in ds && d.0 == k && (EndsWith(l, d.1) || StartsWith(l, d.2)) ensures k in r {
          var d :| d in ds && d.0 == k && (EndsWith(l, d.1) || StartsWith(l, d.2));
          if d != last {
            assert d in ds[..|ds| - 1] by { LastSplit(ds); }
          }
        }
      }
      r
  }

  /** The domains one changed path touches, tested on its lower-cased form. */
  function DomainsOfPath(path: string): set<string>
  {
    var l := Lower(path);
    DetectedOf(l, Detectors) + HelpersOfPath(l, HelperTypes)
  }

  /** The helper types among `hs` whose `<type>.yaml` ends the (lower-cased) path. */
  function HelpersOfPath(l: string, hs: seq<string>): (r: set<string>)
    ensures forall h :: h in r <==> h in hs && EndsWith(l, h + ".yaml")
  {
    if hs == [] then {}
    else HelpersOfPath(l, hs[..|hs| - 1]) + (if EndsWith(l, hs[|hs| - 1] + ".yaml") then {hs[|hs| - 1]} else {})
  }

  /** Every domain `list_changed_domains` reports is a registry key or a helper type. */
  lemma DomainsOfPathKnown(path: string)
    ensures forall d :: d in DomainsOfPath(path) ==> d in HelperTypes || exists s :: s in Domains && s.key == d
  {
    var l := Lower(path);
    forall d | d in DomainsOfPath(path)
      ensures d in HelperTypes || exists s :: s in Domains && s.key == d
    {
      if d in DetectedOf(l, Detectors) {
        var det :| det in Detectors && det.0 == d && (EndsWith(l, det.1) || StartsWith(l, det.2));
        var i :| 0 <= i < |Detectors| && Detectors[i] == det;
        DetectorsKeys();
        assert Domains[i] in Domains;
      }
    }
  }

  /** The union of `f` over the elements of `xs`. */
  function UnionOver<T>(xs: seq<T>, f: T -> set<string>): (r: set<string>)
    ensures forall d :: d in r <==> exists i :: 0 <= i < |xs| && d in f(xs[i])
  {
    if xs == [] then {}
    else
      var r := UnionOver(xs[..|xs| - 1], f) + f(xs[|xs| - 1]);
      assert forall d :: d in r <==> exists i :: 0 <= i < |xs| && d in f(xs[i]) by {
        forall d | d in r ensures exists i :: 0 <= i < |xs| && d in f(xs[i]) {
          if d !in f(xs[|xs| - 1]) {
            var i :| 0 <= i < |xs| - 1 && d in f(xs[..|xs| - 1][i]);
            assert xs[..|xs| - 1][i] == xs[i];
          }
        }
        forall d | exists i :: 0 <= i < |xs| && d in f(xs[i]) ensures d in r {
          var i :| 0 <= i < |xs| && d in f(xs[i]);
          if i < |xs| - 1 {
            assert xs[..|xs| - 1][i] == xs[i];
          }
        }
      }
      r
  }

  /** What `list_changed_domains` reports: the union of the domains of every path. */
  function ChangedDomains(paths: seq<string>): (r: set<string>)
    ensures forall d :: d in r <==> exists i :: 0 <= i < |paths| && d in DomainsOfPath(paths[i])
  {
    UnionOver(paths, DomainsOfPath)
  }

  /**
   * `list_changed_domains`: the loop over the paths; for each, the six domain tests (written
   * out one after the other in the source, one table row each here) and the helper types.
   */
  method ListChangedDomains(paths: seq<string>) returns (domains: set<string>)
    ensures domains == ChangedDomains(paths)
  {
    domains := {};
    for i := 0 to |paths|
      invariant domains == UnionOver(paths[..i], DomainsOfPath)
    {
      assert paths[..i + 1][..i] == paths[..i];
      var lowered := Lower(paths[i]);
      domains := AddDetected(domains, lowered, Detectors);
      domains := AddHelpers(domains, lowered, HelperTypes);
    }
    assert paths[..|paths|] == paths;
  }

  /** The six domain tests on one lower-cased path. */
  method AddDetected(domains: set<string>, lowered: string, ds: seq<(string, string, string)>)
    returns (r: set<string>)
    ensures r == domains + DetectedOf(lowered, ds)
  {
    r := domains;
    for k := 0 to |ds|
      invariant r == domains + DetectedOf(lowered, ds[..k])
    {
      assert ds[..k + 1][..k] == ds[..k];
      var (key, domainFile, moduleDir) := ds[k];
      if EndsWith(lowered, domainFile) || StartsWith(lowered, moduleDir) {
        r := r + {key};
      }
    }
    assert ds[..|ds|] == ds;
  }

  /** The inner loop over the helper types for one lower-cased path. */
  method AddHelpers(domains: set<string>, lowered: string, hs: seq<string>) returns (r: set<string>)
    ensures r == domains + HelpersOfPath(lowered, hs)
  {
    r := domains;
    for j := 0 to |hs|
      invariant r == domains + HelpersOfPath(lowered, hs[..j])
    {
      assert hs[..j + 1][..j] == hs[..j];
      if EndsWith(lowered, hs[j] + ".yaml") {
        r := r + {hs[j]};
      }
    }
    assert hs[..|hs|] == hs;
  }

  // ------------------------------------------------------------------ sync trigger

  const ModulePrefixes: seq<string> :=
    ["automations/", "scripts/", "groups/", "scenes/", "templates/", "helpers/", "lovelace/", "packages/"]
  const DomainFileNames: seq<string> :=
    ["automations.yaml", "scripts.yaml", "groups.yaml", "scenes.yaml", "templates.yaml", "ui-lovelace.yaml"]

  /** One path calls for a sync: it lies in a module folder, names a domain file or a helper file. */
  predicate TriggersSync(path: string)
  {
    var l := Lower(path);
    (exists p :: p in ModulePrefixes && StartsWith(l, p)) ||
    (exists f :: f in DomainFileNames && EndsWith(l, f)) ||
    (exists h :: h in HelperTypes && EndsWith(l, h + ".yaml"))
  }

  /** `should_sync_yaml_modules`: stops at the first path that calls for a sync. */
  method ShouldSyncYamlModules(paths: seq<string>) returns (b: bool)
    ensures b <==> exists i :: 0 <= i < |paths| && TriggersSync(paths[i])
  {
    for i := 0 to |paths|
      invariant forall k :: 0 <= k < i ==> !TriggersSync(paths[k])
    {
      var lowered := Lower(paths[i]);
      for j := 0 to |ModulePrefixes|
        invariant forall k :: 0 <= k < j ==> !StartsWith(lowered, ModulePrefixes[k])
      {
        if StartsWith(lowered, ModulePrefixes[j]) {
          return true;
        }
      }
      for j := 0 to |DomainFileNames|
        invariant forall k :: 0 <= k < j ==> !EndsWith(lowered, DomainFileNames[k])
      {
        if EndsWith(lowered, DomainFileNames[j]) {
          return true;
        }
      }
      for j := 0 to |HelperTypes|
        invariant forall k :: 0 <= k < j ==> !EndsWith(lowered, HelperTypes[k] + ".yaml")
      {
        if EndsWith(lowered, HelperTypes[j] + ".yaml") {
          return true;
        }
      }
    }
    return false;
  }

  /** Each domain test's file name is a sync-triggering domain file, its folder a module folder. */
  lemma DetectorsTrigger()
    ensures forall i :: 0 <= i < |Detectors| ==> Detectors[i].1 == DomainFileNames[i] && Detectors[i].2 in ModulePrefixes
  {
    assert Detectors[5].2 == ModulePrefixes[6];
  }

  /** Each domain test reports a registry key. */
  lemma DetectorsKeys()
    ensures forall i :: 0 <= i < |Detectors| ==> Detectors[i].0 == Domains[i].key
  {
  }

  /** Whenever a path touches a domain, it also calls for a sync. */
  lemma ChangedDomainTriggersSync(path: string)
    requires DomainsOfPath(path) != {}
    ensures TriggersSync(path)
  {
    var l := Lower(path);
    var k :| k in DomainsOfPath(path);
    if k in DetectedOf(l, Detectors) {
      var d :| d in Detectors && d.0 == k && (EndsWith(l, d.1) || StartsWith(l, d.2));
      var i :| 0 <= i < |Detectors| && Detectors[i] == d;
      DetectorsTrigger();
      assert DomainFileNames[i] in DomainFileNames;
    }
  }

  lemma NotEndsWith(p: string, s: string, k: nat)
    requires k < |s| && k < |p| && p[|p| - 1 - k] != s[|s| - 1 - k]
    ensures !EndsWith(p, s)
  {
    if |s| <= |p| {
      assert p[|p| - |s|..][|s| - 1 - k] == p[|p| - 1 - k];
    }
  }

  lemma NotStartsWith(p: string, s: string)
    requires s != [] && p != [] && p[0] != s[0]
    ensures !StartsWith(p, s)
  {
    if |s| <= |p| {
      assert p[..|s|][0] == p[0];
    }
  }

  /** The converse fails: a package file of no registered name calls for a sync yet touches no domain. */
  lemma PackageFileSyncsWithoutDomain()
    ensures TriggersSync("packages/a.yaml") && DomainsOfPath("packages/a.yaml") == {}
  {
    var p := "packages/a.yaml";
    assert Lower(p) == p;
    assert ModulePrefixes[7] == "packages/" && StartsWith(p, "packages/");
    PackageNoDetector(p);
    PackageNoHelper(p);
  }

  lemma PackageNoDetector(p: string)
    requires p == "packages/a.yaml"
    ensures DetectedOf(p, Detectors) == {}
  {
    assert p[0] == 'p' && p[|p| - 6] == 'a';
    forall d | d in Detectors ensures !EndsWith(p, d.1) && !StartsWith(p, d.2) {
      NotEndsWith(p, d.1, 5);
      NotStartsWith(p, d.2);
    }
  }

  lemma PackageNoHelper(p: string)
    requires p == "packages/a.yaml"
    ensures HelpersOfPath(p, HelperTypes) == {}
  {
    assert p[|p| - 6] == 'a';
    forall h | h in HelperTypes ensures !EndsWith(p, h + ".yaml") {
      NotEndsWith(p, h + ".yaml", 5);
    }
  }
}
