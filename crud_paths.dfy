/**
 * The path checks of the item browser (yaml_modules.py): which module files an item operation
 * may touch, what kind of file each is, and where moved or unassigned items go. Paths are
 * pathlib-style segments; `/config` is the config directory.
 */
module CrudPaths {
  import opened Wrappers
  import opened Text
  import opened Paths
  import opened Yaml
  import opened ModuleDomains

  const ConfigDir: seq<string> := ["config"]
  const PackagesDir: seq<string> := ConfigDir + ["packages"]

  /** `MODULE_BROWSER_DOMAINS`. */
  const BrowserDomains: seq<string> := ["automations", "scripts", "groups", "scenes", "templates", "helpers", "lovelace"]

  /** `MODULE_DOMAIN_MAP.get(folder)`: module folder to domain key. */
  function DomainOfFolder(folder: string): (r: Option<string>)
  {
    if folder == "automations" then Some("automation")
    else if folder == "scripts" then Some("script")
    else if folder == "groups" then Some("group")
    else if folder == "scenes" then Some("scene")
    else if folder == "templates" then Some("template")
    else if folder == "lovelace" then Some("lovelace")
    else None
  }

  /** `_is_yaml_path`: the lower-cased suffix of the last part is `.yaml` or `.yml`. */
  predicate IsYamlPath(s: string)
  {
    Lower(Suffix(Name(s))) in {".yaml", ".yml"}
  }

  /** `_resolve_module_path`, giving the path's parts below the config directory. */
  function ResolveModulePath(rel: string): (r: Result<seq<string>>)
    ensures r.Ok? <==>
      !IsBlank(rel) && !IsAbsolute(rel) && !HasParentRef(rel) && IsYamlPath(rel) &&
      Parts(rel) != [] && Parts(rel)[0] in ["packages"] + BrowserDomains
    ensures r.Ok? ==> r.value == Parts(rel)
    ensures IsBlank(rel) ==> r == Err("Module path must be a non-empty string.")
    ensures !IsBlank(rel) && IsAbsolute(rel) ==> r == Err("Module path must be relative to the config directory.")
    ensures !IsBlank(rel) && !IsAbsolute(rel) && HasParentRef(rel) ==>
      r == Err("Module path cannot include parent directory segments.")
    ensures !IsBlank(rel) && !IsAbsolute(rel) && !HasParentRef(rel) && !IsYamlPath(rel) ==>
      r == Err("Module path must point to a .yaml or .yml file.")
  {
    if IsBlank(rel) then Err("Module path must be a non-empty string.")
    else if IsAbsolute(rel) then Err("Module path must be relative to the config directory.")
    else if HasParentRef(rel) then Err("Module path cannot include parent directory segments.")
    else if !IsYamlPath(rel) then Err("Module path must point to a .yaml or .yml file.")
    else if Parts(rel) == [] || Parts(rel)[0] !in ["packages"] + BrowserDomains then
      Err("Module path must live in packages or a YAML Modules domain folder.")
    else
      // a relative path without `..` cannot leave the config directory, so the last
      // check of the source ("must stay within the config directory") always passes
      StaysInside(ConfigDir, [], rel);
      assert [] + Parts(rel) == Parts(rel);
      Ok(RelativeTo(Resolve(ConfigDir, [], rel), ConfigDir).value)
  }

  // ------------------------------------------------------------------ file kinds

  /** The `kind` strings of `_module_file_context`: "list", "mapping", "lovelace", "helpers". */
  datatype FileKind = KindList | KindMapping | KindLovelace | KindHelpers

  function KindOf(k: Kind): FileKind
  {
    match k
    case ListKind => KindList
    case MappingKind => KindMapping
    case LovelaceKind => KindLovelace
  }

  /**
   * `_module_file_context` on the parts below the config directory: `helpers.yaml` in a
   * package and every file under `helpers/` hold helpers; other package files are recognised
   * by name, module folders by folder; template modules are refused.
   */
  function ModuleFileContext(parts: seq<string>): (r: Result<(FileKind, Option<DomainSpec>)>)
    ensures r.Ok? ==> (r.value.0 == KindHelpers <==> r.value.1.None?)
    ensures r.Ok? && r.value.1.Some? ==>
      r.value.1.value in Domains && r.value.1.value.key != "template" && r.value.0 == KindOf(r.value.1.value.kind)
    ensures parts == [] ==> r == Err("Module path is not within the config directory.")
  {
    if parts == [] then Err("Module path is not within the config directory.")
    else
      var root := parts[0];
      var filename := parts[|parts| - 1];
      if root == "packages" then
        if filename == "helpers.yaml" then Ok((KindHelpers, None))
        else
          match SpecByPackageFilename(filename)
          case None => Err("Unsupported package module filename.")
          case Some(spec) =>
            if spec.key == "template" then Err("Template modules are not supported yet.")
            else Ok((KindOf(spec.kind), Some(spec)))
      else if root == "helpers" then Ok((KindHelpers, None))
      else if root == "lovelace" then
        LovelaceKeyed();
        Ok((KindLovelace, SpecByKey("lovelace")))
      else if DomainOfFolder(root).Some? then
        FoldersKeyed(root);
        var spec := SpecByKey(DomainOfFolder(root).value).value;
        if spec.key == "template" then Err("Template modules are not supported yet.")
        else Ok((KindOf(spec.kind), Some(spec)))
      else Err("Unsupported module path.")
  }

  lemma LovelaceKeyed()
    ensures SpecByKey("lovelace") == Some(LovelaceSpec) && LovelaceSpec.kind == LovelaceKind
  {
    assert Domains[5] == LovelaceSpec;
  }

  /** Every module folder names a registered domain, the one whose module folder it is. */
  lemma FoldersKeyed(folder: string)
    requires DomainOfFolder(folder).Some?
    ensures SpecByKey(DomainOfFolder(folder).value).Some?
    ensures SpecByKey(DomainOfFolder(folder).value).value.moduleDir == folder
  {
    if folder == "automations" {
      KeyedSpec(AutomationSpec, 0);
    } else if folder == "scripts" {
      KeyedSpec(ScriptSpec, 1);
    } else if folder == "groups" {
      KeyedSpec(GroupSpec, 2);
    } else if folder == "scenes" {
      KeyedSpec(SceneSpec, 3);
    } else if folder == "templates" {
      KeyedSpec(TemplateSpec, 4);
    } else {
      KeyedSpec(LovelaceSpec, 5);
    }
  }

  /** Looking a registered domain up by its key finds it. */
  lemma KeyedSpec(s: DomainSpec, i: nat)
    requires i < |Domains| && Domains[i] == s
    ensures SpecByKey(s.key) == Some(s)
  {
    RegistryShape();
    var t := SpecByKey(s.key).value;
    var j :| 0 <= j < |Domains| && Domains[j] == t;
    assert i == j;
  }

  // ------------------------------------------------------------------ destinations

  /** `_unassigned_module_path(module_dir)`: the unassigned package file for the folder. */
  function UnassignedModulePath(moduleDir: seq<string>): (r: seq<string>)
    requires moduleDir != []
  {
    var folder := moduleDir[|moduleDir| - 1];
    if folder == "helpers" then PackagesDir + ["unassigned", "helpers.yaml"]
    else if DomainOfFolder(folder).Some? && SpecByKey(DomainOfFolder(folder).value).Some? then
      PackagesDir + ["unassigned", SpecByKey(DomainOfFolder(folder).value).value.packageFilename]
    else moduleDir + [folder + ".unassigned.yaml"]
  }

  /** The config-relative module folder of a domain, and of helpers. */
  function ModuleDir(kind: FileKind, spec: Option<DomainSpec>): (r: Option<seq<string>>)
  {
    if kind == KindHelpers then Some(ConfigDir + ["helpers"])
    else if spec.Some? then Some(ConfigDir + [spec.value.moduleDir])
    else None
  }

  /** `_ensure_yaml_filename` of yaml_modules.py: slashes are checked before the name is stripped. */
  function EnsureOneOffFilename(name: string): (r: Result<string>)
    ensures r.Ok? ==> r.value != [] && '/' !in r.value && '\\' !in r.value && IsYamlPath(r.value)
    ensures r.Ok? ==> r.value == Strip(name) || r.value == Strip(name) + ".yaml"
    ensures '/' in name || '\\' in name ==> r == Err("One-off filename must be a simple filename.")
  {
    if '/' in name || '\\' in name then Err("One-off filename must be a simple filename.")
    else
      var c0 := Strip(name);
      StripSubset(name);
      if c0 == [] then Err("Filename is required.")
      else
        var r := WithYamlSuffix(c0);
        assert r.Ok? ==> '/' !in r.value && '\\' !in r.value by {
          if r.Ok? && r.value != c0 {
            SuffixFree(c0);
          }
        }
        r
  }

  /** `.yaml` appended to a name without a suffix, and a YAML suffix required. */
  function WithYamlSuffix(c: string): (r: Result<string>)
    ensures r.Ok? ==> IsYamlPath(r.value) && (r.value == c || r.value == c + ".yaml")
  {
    var c1 := if Suffix(Name(c)) == [] then c + ".yaml" else c;
    if !IsYamlPath(c1) then Err("Filename must end with .yaml or .yml.") else Ok(c1)
  }

  lemma SuffixFree(c: string)
    ensures (forall x :: x in c ==> x != '/' && x != '\\') ==> '/' !in c + ".yaml" && '\\' !in c + ".yaml"
  {
  }

  lemma StripSubset(s: string)
    ensures forall c :: c in Strip(s) ==> c in s
  {
    var k := StripSetSlice(s, Whitespace);
    SliceSubset(s, k, k + |Strip(s)|);
  }

  lemma SliceSubset<T>(s: seq<T>, k: nat, j: nat)
    requires k <= j <= |s|
    ensures forall c :: c in s[k..j] ==> c in s
  {
    forall c | c in s[k..j] ensures c in s {
      var i :| 0 <= i < j - k && s[k..j][i] == c;
      assert s[k + i] == c;
    }
  }

  /** `move_target.get(k)`; anything but a map has no keys. */
  function TargetField(t: Value, k: string): Option<Value>
  {
    if t.Map? then Get(t.entries, k) else None
  }

  /** A move target of type "existing_package" or "new_package". */
  predicate IsPackageMove(moveTarget: Option<Value>)
  {
    moveTarget.Some? &&
    (TargetField(moveTarget.value, "type") == Some(Str("existing_package")) ||
     TargetField(moveTarget.value, "type") == Some(Str("new_package")))
  }

  /** The stripped package name of a package move, when the target has a string one. */
  function PackageNameOf(moveTarget: Option<Value>): Option<string>
  {
    if IsPackageMove(moveTarget) then
      var name := TargetField(moveTarget.value, "package_name");
      if name.Some? && name.value.Str? then Some(Strip(name.value.s)) else None
    else None
  }

  /** The checked file name of a one-off move, when it passes `_ensure_yaml_filename`. */
  function OneOffNameOf(moveTarget: Option<Value>): Option<string>
  {
    if moveTarget.Some? && TargetField(moveTarget.value, "type") == Some(Str("one_off")) then
      var raw := TargetField(moveTarget.value, "one_off_filename");
      var name := if raw.None? then Str("") else raw.value;
      if name.Str? && EnsureOneOffFilename(name.s).Ok? then Some(EnsureOneOffFilename(name.s).value) else None
    else None
  }

  /** The file a package holds items of this kind in. */
  function PackageFile(kind: FileKind, spec: Option<DomainSpec>): Option<string>
  {
    if kind == KindHelpers then Some("helpers.yaml")
    else if spec.Some? then Some(spec.value.packageFilename)
    else None
  }

  /**
   * `_resolve_destination_path`: no destination for a delete; the unassigned package file for
   * an unassign; for a move, the package file (the package must exist for "existing_package"
   * and may not be called "unassigned") or a one-off file in the module folder.
   * `packageExists` stands for the directory test; the directory is created on the way.
   */
  function ResolveDestinationPath(operation: string, kind: FileKind, spec: Option<DomainSpec>,
                                  moveTarget: Option<Value>, packageExists: seq<string> -> bool)
    : (r: Result<Option<seq<string>>>)
    ensures operation == "delete" ==> r == Ok(None)
    ensures operation == "unassign" && r.Ok? ==>
      ModuleDir(kind, spec).Some? && r.value == Some(UnassignedModulePath(ModuleDir(kind, spec).value))
    ensures operation != "delete" && operation != "unassign" && r.Ok? && IsPackageMove(moveTarget) ==>
      PackageNameOf(moveTarget).Some? && PackageNameOf(moveTarget).value !in {"", "unassigned"} &&
      PackageFile(kind, spec).Some? &&
      r.value == Some(PackageDir(PackageNameOf(moveTarget).value) + [PackageFile(kind, spec).value])
    ensures operation != "delete" && operation != "unassign" && r.Ok? && !IsPackageMove(moveTarget) ==>
      OneOffNameOf(moveTarget).Some? && ModuleDir(kind, spec).Some? &&
      r.value == Some(ModuleDir(kind, spec).value + [OneOffNameOf(moveTarget).value])
    ensures (operation != "delete" && operation != "unassign" &&
             (moveTarget.None? || !moveTarget.value.Map? || moveTarget.value.entries == [])) ==>
      r == Err("move_target is required for move operations.")
    ensures (operation != "delete" && operation != "unassign" && moveTarget.Some? && moveTarget.value.Map? &&
             moveTarget.value.entries != [] && !IsPackageMove(moveTarget) &&
             TargetField(moveTarget.value, "type") != Some(Str("one_off"))) ==>
      r == Err("Unsupported move target type.")
  {
    if operation == "delete" then Ok(None)
    else if operation == "unassign" then
      match ModuleDir(kind, spec)
      case None => Err("Unsupported module type for unassign.")
      case Some(dir) => Ok(Some(UnassignedModulePath(dir)))
    // `not move_target`: an empty dict is as good as none
    else if moveTarget.None? || !moveTarget.value.Map? || moveTarget.value.entries == [] then
      Err("move_target is required for move operations.")
    else if IsPackageMove(moveTarget) then PackageDestination(kind, spec, moveTarget.value, packageExists)
    else if TargetField(moveTarget.value, "type") == Some(Str("one_off")) then OneOffDestination(kind, spec, moveTarget.value)
    else Err("Unsupported move target type.")
  }

  /** The package branch of `_resolve_destination_path`. */
  function PackageDestination(kind: FileKind, spec: Option<DomainSpec>, t: Value, packageExists: seq<string> -> bool)
    : (r: Result<Option<seq<string>>>)
    requires IsPackageMove(Some(t))
    ensures r.Ok? ==>
      PackageNameOf(Some(t)).Some? && PackageNameOf(Some(t)).value !in {"", "unassigned"} &&
      PackageFile(kind, spec).Some? &&
      r.value == Some(PackageDir(PackageNameOf(Some(t)).value) + [PackageFile(kind, spec).value])
  {
    var name := TargetField(t, "package_name");
    if name.None? || !name.value.Str? || IsBlank(name.value.s) then Err("package_name is required.")
    else if Strip(name.value.s) == "unassigned" then Err("Package name 'unassigned' is reserved.")
    else
      var packageDir := PackageDir(Strip(name.value.s));
      if TargetField(t, "type") == Some(Str("existing_package")) && !packageExists(packageDir) then Err("Package does not exist.")
      else if PackageFile(kind, spec).None? then Err("Unsupported module type for package destination.")
      else Ok(Some(packageDir + [PackageFile(kind, spec).value]))
  }

  /** The one-off branch of `_resolve_destination_path`. */
  function OneOffDestination(kind: FileKind, spec: Option<DomainSpec>, t: Value): (r: Result<Option<seq<string>>>)
    requires TargetField(t, "type") == Some(Str("one_off"))
    ensures r.Ok? ==>
      OneOffNameOf(Some(t)).Some? && ModuleDir(kind, spec).Some? &&
      r.value == Some(ModuleDir(kind, spec).value + [OneOffNameOf(Some(t)).value])
  {
    var raw := TargetField(t, "one_off_filename");
    var name := if raw.None? then Str("") else raw.value;
    if !name.Str? then Err("One-off filename must be a string.")
    else
      match EnsureOneOffFilename(name.s)
      case Err(e) => Err(e)
      case Ok(filename) =>
        match ModuleDir(kind, spec)
        case None => Err("Unsupported module type for one-off destination.")
        case Some(dir) => Ok(Some(dir + [filename]))
  }

  /** `PACKAGES_DIR / name`: an absolute name replaces the base, as pathlib does. */
  function PackageDir(name: string): seq<string>
  {
    if IsAbsolute(name) then Parts(name) else PackagesDir + Parts(name)
  }

  // ------------------------------------------------------------------ round trips

  /** A domain whose module files the browser handles. */
  predicate Browsable(s: DomainSpec)
  {
    s in Domains && s.key != "template"
  }

  /** A package file of a browsable domain is read back as that domain's kind of file. */
  lemma PackageFileContext(s: DomainSpec, middle: seq<string>)
    requires Browsable(s)
    ensures ModuleFileContext(["packages"] + middle + [s.packageFilename]) == Ok((KindOf(s.kind), Some(s)))
  {
    RegistryShape();
    var parts := ["packages"] + middle + [s.packageFilename];
    assert parts[0] == "packages" && parts[|parts| - 1] == s.packageFilename;
    var i :| 0 <= i < |Domains| && Domains[i] == s;
    assert SpecByPackageFilename(s.packageFilename) == Some(s) by {
      var t := SpecByPackageFilename(s.packageFilename).value;
      var j :| 0 <= j < |Domains| && Domains[j] == t;
      assert i == j;
    }
  }

  /** A file in a browsable domain's module folder is read back as that domain's kind of file. */
  lemma {:induction false} FolderFileContext(s: DomainSpec, rest: seq<string>)
    requires Browsable(s)
    ensures ModuleFileContext([s.moduleDir] + rest) ==
      Ok((KindOf(s.kind), Some(s)))
  {
    var i :| 0 <= i < |Domains| && Domains[i] == s;
    KeyedSpec(s, i);
    FolderOfSpec(i);
    FolderContext(s, rest);
  }

  /** Each registered domain's module folder maps back to its key, and is not a special folder. */
  lemma FolderOfSpec(i: nat)
    requires i < |Domains|
    ensures DomainOfFolder(Domains[i].moduleDir) == Some(Domains[i].key)
    ensures Domains[i].moduleDir != "packages" && Domains[i].moduleDir != "helpers"
    ensures Domains[i].moduleDir == "lovelace" <==> Domains[i] == LovelaceSpec
  {
  }

  lemma FolderContext(s: DomainSpec, rest: seq<string>)
    requires s.key != "template" && SpecByKey(s.key) == Some(s)
    requires DomainOfFolder(s.moduleDir) == Some(s.key)
    requires s.moduleDir != "packages" && s.moduleDir != "helpers"
    requires s.moduleDir == "lovelace" <==> s == LovelaceSpec
    ensures ModuleFileContext([s.moduleDir] + rest) == Ok((KindOf(s.kind), Some(s)))
  {
    if s.moduleDir == "lovelace" {
      LovelaceKeyed();
    }
  }

  // ------------------------------------------------------------------ package names that leave the config directory

  /** A package name that stays a folder below `packages/`: relative and without `..`. */
  predicate PlainPackageName(n: string)
  {
    !IsAbsolute(n) && !HasParentRef(n)
  }

  /**
   * `_resolve_destination_path` as evidently intended: a package name is a folder below
   * `packages/`, so an absolute name or one with `..` is refused like the reserved one.
   */
  function ResolveDestinationPathSafe(operation: string, kind: FileKind, spec: Option<DomainSpec>,
                                      moveTarget: Option<Value>, packageExists: seq<string> -> bool)
    : (r: Result<Option<seq<string>>>)
    ensures r.Ok? ==> r == ResolveDestinationPath(operation, kind, spec, moveTarget, packageExists)
  {
    var n := PackageNameOf(moveTarget);
    if operation != "delete" && operation != "unassign" && n.Some? && n.value != [] && n.value != "unassigned" &&
       !PlainPackageName(n.value) then
      Err("Package name must be a folder name inside packages.")
    else ResolveDestinationPath(operation, kind, spec, moveTarget, packageExists)
  }

  /** A one-off file name is a single plain segment. */
  lemma OneOffSegment(f: string)
    requires IsYamlPath(f)
    ensures f != ".." && f != "."
  {
    if f == ".." {
      DotDotName();
    }
    if f == "." {
      DotName();
    }
  }

  lemma DotDotName()
    ensures Name("..") == ".." && Suffix("..") == ""
  {
    assert IndexOf("..", '/') == None;
    assert Split("..", '/') == [".."];
    assert DropTrivial([".."]) == [".."] + DropTrivial([]);
  }

  lemma DotName()
    ensures Name(".") == "" && Suffix("") == ""
  {
    assert IndexOf(".", '/') == None;
    assert Split(".", '/') == ["."];
    assert DropTrivial(["."]) == DropTrivial([]);
  }

  /** The registry's folders and package files are plain names. */
  lemma RegistryNames()
    ensures forall s :: s in Domains ==> DomainOfFolder(s.moduleDir).Some? && s.moduleDir != ".." && s.packageFilename != ".."
  {
    assert Domains == [AutomationSpec, ScriptSpec, GroupSpec, SceneSpec, TemplateSpec, LovelaceSpec];
  }

  /**
   * With the corrected check every destination is a file inside the config directory, even
   * after `..` is resolved.
   */
  lemma SafeDestinationInside(operation: string, kind: FileKind, spec: Option<DomainSpec>,
                              moveTarget: Option<Value>, packageExists: seq<string> -> bool)
    requires spec.Some? ==> spec.value in Domains
    requires ResolveDestinationPathSafe(operation, kind, spec, moveTarget, packageExists).Ok?
    requires ResolveDestinationPathSafe(operation, kind, spec, moveTarget, packageExists).value.Some?
    ensures var dest := ResolveDestinationPathSafe(operation, kind, spec, moveTarget, packageExists).value.value;
      Inside(dest) && Collapse(dest) == dest
  {
    var dest := ResolveDestinationPathSafe(operation, kind, spec, moveTarget, packageExists).value.value;
    if operation == "unassign" {
      UnassignInside(kind, spec);
    } else if IsPackageMove(moveTarget) {
      PackageInside(PackageNameOf(moveTarget).value, kind, spec);
    } else {
      OneOffSegment(OneOffNameOf(moveTarget).value);
      OneOffInside(ModuleDir(kind, spec).value, OneOffNameOf(moveTarget).value, kind, spec);
    }
  }

  /** A folder-free result: `..` absent and `/config` in front. */
  predicate Inside(dest: seq<string>)
  {
    ".." !in dest && |dest| > |ConfigDir| && dest[..|ConfigDir|] == ConfigDir
  }

  lemma InsideCollapse(dest: seq<string>)
    requires Inside(dest)
    ensures Collapse(dest) == dest
  {
    CollapseNoParent(dest);
  }

  lemma UnassignInside(kind: FileKind, spec: Option<DomainSpec>)
    requires spec.Some? ==> spec.value in Domains
    requires ModuleDir(kind, spec).Some?
    ensures Inside(UnassignedModulePath(ModuleDir(kind, spec).value))
    ensures Collapse(UnassignedModulePath(ModuleDir(kind, spec).value)) == UnassignedModulePath(ModuleDir(kind, spec).value)
  {
    var dir := ModuleDir(kind, spec).value;
    if kind != KindHelpers {
      FolderHoldsSpec(spec.value);
    }
    InsideCollapse(UnassignedModulePath(dir));
  }

  lemma PackageInside(n: string, kind: FileKind, spec: Option<DomainSpec>)
    requires PlainPackageName(n)
    requires spec.Some? ==> spec.value in Domains
    requires PackageFile(kind, spec).Some?
    ensures Inside(PackageDir(n) + [PackageFile(kind, spec).value])
    ensures Collapse(PackageDir(n) + [PackageFile(kind, spec).value]) == PackageDir(n) + [PackageFile(kind, spec).value]
  {
    RegistryNames();
    var dest := PackagesDir + Parts(n) + [PackageFile(kind, spec).value];
    assert ".." !in Parts(n);
    InsideCollapse(dest);
  }

  lemma OneOffInside(dir: seq<string>, f: string, kind: FileKind, spec: Option<DomainSpec>)
    requires spec.Some? ==> spec.value in Domains
    requires ModuleDir(kind, spec) == Some(dir) && f != ".."
    ensures Inside(dir + [f]) && Collapse(dir + [f]) == dir + [f]
  {
    RegistryNames();
    InsideCollapse(dir + [f]);
  }

  /** The move target `{"type": "new_package", "package_name": "../.."}`. */
  const UpTwoTarget: Value := Map([("type", Str("new_package")), ("package_name", Str("../.."))])

  lemma UpTwoParts()
    ensures Parts("../..") == ["..", ".."]
  {
    UpTwoSplit();
    assert DropTrivial([".."]) == [".."] + DropTrivial([]);
    assert DropTrivial(["..", ".."]) == [".."] + DropTrivial([".."]);
  }

  lemma UpTwoSplit()
    ensures Split("../..", '/') == ["..", ".."]
  {
    var n := "../..";
    assert n[2] == '/' && '/' !in n[..2];
    SplitAt(n, '/', 2);
    assert n[3..] == ".." && n[..2] == "..";
    assert IndexOf("..", '/') == None;
    assert Split("..", '/') == [".."];
  }

  lemma UpTwoStrip()
    ensures Strip("../..") == "../.."
  {
    StripUnchanged("../..");
  }

  lemma UpTwoFields()
    ensures IsPackageMove(Some(UpTwoTarget)) && PackageNameOf(Some(UpTwoTarget)) == Some("../..")
    ensures TargetField(UpTwoTarget, "type") == Some(Str("new_package"))
    ensures TargetField(UpTwoTarget, "package_name") == Some(Str("../.."))
  {
    UpTwoType();
    UpTwoName();
    UpTwoStrip();
  }

  lemma UpTwoType()
    ensures TargetField(UpTwoTarget, "type") == Some(Str("new_package"))
  {
  }

  lemma UpTwoName()
    ensures TargetField(UpTwoTarget, "package_name") == Some(Str("../.."))
  {
    var es := UpTwoTarget.entries;
    assert es[0].0 != "package_name";
    assert Get(es, "package_name") == Get(es[1..], "package_name");
  }

  /**
   * As written, `package_name` "../.." is accepted: the automation file it gives sits below
   * `packages/` on paper but resolves to `/automation.yaml`, outside the config directory.
   * The corrected function refuses it.
   */
  lemma PackageNameEscapes(packageExists: seq<string> -> bool)
    ensures
      var r := ResolveDestinationPath("move", KindList, Some(AutomationSpec), Some(UpTwoTarget), packageExists);
      r == Ok(Some(PackagesDir + ["..", "..", "automation.yaml"])) &&
      Collapse(r.value.value) == ["automation.yaml"] &&
      ResolveDestinationPathSafe("move", KindList, Some(AutomationSpec), Some(UpTwoTarget), packageExists).Err?
  {
    UpTwoAccepted(packageExists);
    UpTwoCollapse();
    UpTwoRefused(packageExists);
  }

  lemma UpTwoAccepted(packageExists: seq<string> -> bool)
    ensures ResolveDestinationPath("move", KindList, Some(AutomationSpec), Some(UpTwoTarget), packageExists) ==
      Ok(Some(PackagesDir + ["..", "..", "automation.yaml"]))
  {
    UpTwoMove();
    PackageMoveAccepted("move", KindList, Some(AutomationSpec), UpTwoTarget, packageExists, "../..");
    UpTwoDir();
  }

  /** The up-two target passes every check of a new-package move. */
  lemma UpTwoMove()
    ensures "move" != "delete" && "move" != "unassign"
    ensures UpTwoTarget.Map? && IsPackageMove(Some(UpTwoTarget))
    ensures TargetField(UpTwoTarget, "package_name") == Some(Str("../.."))
    ensures TargetField(UpTwoTarget, "type") != Some(Str("existing_package"))
    ensures !IsBlank("../..") && Strip("../..") != "unassigned"
    ensures PackageFile(KindList, Some(AutomationSpec)).Some?
  {
    UpTwoFields();
    UpTwoStrip();
  }

  lemma UpTwoDir()
    ensures PackageDir(Strip("../..")) + [PackageFile(KindList, Some(AutomationSpec)).value] ==
      PackagesDir + ["..", "..", "automation.yaml"]
  {
    UpTwoStrip();
    UpTwoParts();
    assert !IsAbsolute("../..");
    assert PackageFile(KindList, Some(AutomationSpec)) == Some("automation.yaml");
  }

  /** A package move to a new package, with a usable name and a package file, is accepted. */
  lemma PackageMoveAccepted(operation: string, kind: FileKind, spec: Option<DomainSpec>, t: Value,
                            packageExists: seq<string> -> bool, name: string)
    requires operation != "delete" && operation != "unassign" && t.Map?
    requires IsPackageMove(Some(t)) && TargetField(t, "package_name") == Some(Str(name))
    requires TargetField(t, "type") != Some(Str("existing_package"))
    requires !IsBlank(name) && Strip(name) != "unassigned" && PackageFile(kind, spec).Some?
    ensures ResolveDestinationPath(operation, kind, spec, Some(t), packageExists) ==
      Ok(Some(PackageDir(Strip(name)) + [PackageFile(kind, spec).value]))
  {
  }

  lemma UpTwoCollapse()
    ensures Collapse(PackagesDir + ["..", "..", "automation.yaml"]) == ["automation.yaml"]
  {
    var d := PackagesDir + ["..", "..", "automation.yaml"];
    assert Collapse(d[..4]) == [] by {
      assert Collapse(d[..3]) == ["config"] by {
        assert Collapse(d[..2]) == ["config", "packages"] by {
          assert Collapse(d[..1]) == ["config"] by {
            assert d[..1][..0] == [];
          }
          assert d[..2][..1] == d[..1];
        }
        assert d[..3][..2] == d[..2];
      }
      assert d[..4][..3] == d[..3];
    }
    assert d[..5][..4] == d[..4] && d[..5] == d;
  }

  lemma UpTwoRefused(packageExists: seq<string> -> bool)
    ensures ResolveDestinationPathSafe("move", KindList, Some(AutomationSpec), Some(UpTwoTarget), packageExists).Err?
  {
    UpTwoFields();
    UpTwoParts();
    UpTwoStrip();
    assert HasParentRef("../..") && "../.." != "unassigned";
    SafeRefusesName("move", KindList, Some(AutomationSpec), Some(UpTwoTarget), packageExists);
  }

  /** The corrected check refuses a move whose package name is not a plain folder name. */
  lemma SafeRefusesName(operation: string, kind: FileKind, spec: Option<DomainSpec>,
                        moveTarget: Option<Value>, packageExists: seq<string> -> bool)
    requires operation != "delete" && operation != "unassign" && PackageNameOf(moveTarget).Some?
    requires PackageNameOf(moveTarget).value !in {"", "unassigned"} && !PlainPackageName(PackageNameOf(moveTarget).value)
    ensures ResolveDestinationPathSafe(operation, kind, spec, moveTarget, packageExists) ==
      Err("Package name must be a folder name inside packages.")
  {
  }

  /**
   * The destinations an unassign or a move computes for items of a browsable domain are files
   * the browser classifies as that same domain: moved items land in a file of their own kind.
   */
  lemma DestinationKeepsKind(operation: string, s: DomainSpec, moveTarget: Option<Value>,
                             packageExists: seq<string> -> bool)
    requires Browsable(s)
    requires ResolveDestinationPathSafe(operation, KindOf(s.kind), Some(s), moveTarget, packageExists).Ok?
    requires ResolveDestinationPathSafe(operation, KindOf(s.kind), Some(s), moveTarget, packageExists).value.Some?
    ensures
      var dest := ResolveDestinationPathSafe(operation, KindOf(s.kind), Some(s), moveTarget, packageExists).value.value;
      RelativeTo(dest, ConfigDir).Some? &&
      ModuleFileContext(RelativeTo(dest, ConfigDir).value) == Ok((KindOf(s.kind), Some(s)))
  {
    var kind := KindOf(s.kind);
    if operation == "unassign" {
      UnassignKind(s);
    } else if IsPackageMove(moveTarget) {
      PackageKind(PackageNameOf(moveTarget).value, s);
    } else {
      OneOffKind(s, OneOffNameOf(moveTarget).value);
    }
  }

  lemma UnassignKind(s: DomainSpec)
    requires Browsable(s)
    ensures var dest := UnassignedModulePath(ModuleDir(KindOf(s.kind), Some(s)).value);
      RelativeTo(dest, ConfigDir).Some? && ModuleFileContext(RelativeTo(dest, ConfigDir).value) == Ok((KindOf(s.kind), Some(s)))
  {
    assert KindOf(s.kind) != KindHelpers;
    FolderHoldsSpec(s);
    UnderConfig(["packages"] + ["unassigned"] + [s.packageFilename]);
    assert PackagesDir + ["unassigned", s.packageFilename] == ConfigDir + (["packages"] + ["unassigned"] + [s.packageFilename]);
    PackageFileContext(s, ["unassigned"]);
  }

  lemma PackageKind(n: string, s: DomainSpec)
    requires Browsable(s) && PlainPackageName(n)
    ensures var dest := PackageDir(n) + [PackageFile(KindOf(s.kind), Some(s)).value];
      RelativeTo(dest, ConfigDir).Some? && ModuleFileContext(RelativeTo(dest, ConfigDir).value) == Ok((KindOf(s.kind), Some(s)))
  {
    assert KindOf(s.kind) != KindHelpers;
    assert PackageDir(n) + [s.packageFilename] == ConfigDir + (["packages"] + Parts(n) + [s.packageFilename]);
    UnderConfig(["packages"] + Parts(n) + [s.packageFilename]);
    PackageFileContext(s, Parts(n));
  }

  lemma OneOffKind(s: DomainSpec, f: string)
    requires Browsable(s)
    ensures var dest := ModuleDir(KindOf(s.kind), Some(s)).value + [f];
      RelativeTo(dest, ConfigDir).Some? && ModuleFileContext(RelativeTo(dest, ConfigDir).value) == Ok((KindOf(s.kind), Some(s)))
  {
    assert KindOf(s.kind) != KindHelpers;
    assert ConfigDir + [s.moduleDir] + [f] == ConfigDir + ([s.moduleDir] + [f]);
    UnderConfig([s.moduleDir] + [f]);
    FolderFileContext(s, [f]);
  }

  lemma UnderConfig(rel: seq<string>)
    ensures RelativeTo(ConfigDir + rel, ConfigDir) == Some(rel)
  {
    assert (ConfigDir + rel)[..|ConfigDir|] == ConfigDir;
    assert (ConfigDir + rel)[|ConfigDir|..] == rel;
  }

  lemma FolderHoldsSpec(s: DomainSpec)
    requires s in Domains
    ensures UnassignedModulePath(ConfigDir + [s.moduleDir]) == PackagesDir + ["unassigned", s.packageFilename]
    ensures s.packageFilename != ".."
  {
    var i :| 0 <= i < |Domains| && Domains[i] == s;
    FolderOfKey(i);
    KeyedSpec(s, i);
  }

  lemma FolderOfKey(i: nat)
    requires i < |Domains|
    ensures DomainOfFolder(Domains[i].moduleDir) == Some(Domains[i].key) && Domains[i].packageFilename != ".."
  {
  }
}
