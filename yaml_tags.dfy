/**
 * The include/template expander of yaml_tags.py. Template tags (`!/packages/x.template.yaml`,
 * or a glob of such files) are replaced by the referenced files' data; Home Assistant
 * `!include*` tags are optionally resolved the way Home Assistant would; every other tag is
 * kept, with its nested data expanded. The filesystem is an input value.
 */
module YamlTags {
  import opened Wrappers
  import opened Text
  import opened Yaml
  import opened Paths

  // ------------------------------------------------------------------ tag classification

  const IncludeTag := "!include"
  const IncludeDirList := "!include_dir_list"
  const IncludeDirMergeList := "!include_dir_merge_list"
  const IncludeDirNamed := "!include_dir_named"
  const IncludeDirMergeNamed := "!include_dir_merge_named"

  /** HA_INCLUDE_TAGS. */
  const HaIncludeTags: set<string> :=
    {IncludeTag, IncludeDirList, IncludeDirMergeList, IncludeDirNamed, IncludeDirMergeNamed}

  /** `_has_glob`: the pattern contains one of `*?[]`. */
  predicate HasGlob(pattern: string)
  {
    '*' in pattern || '?' in pattern || '[' in pattern || ']' in pattern
  }

  /** `_is_template_pattern`: the name ends in `.template.yaml` or `.template.yml`, in any case. */
  predicate IsTemplatePattern(pattern: string)
  {
    EndsWith(Lower(pattern), ".template.yaml") || EndsWith(Lower(pattern), ".template.yml")
  }

  /** `is_template_tag`: `!` followed by a non-empty template file pattern (leading `/` ignored). */
  predicate IsTemplateTag(tag: string)
  {
    StartsWith(tag, "!") &&
    var suffix := StripLeft(tag[1..], {'/'});
    suffix != [] && IsTemplatePattern(suffix)
  }

  /** An ending that starts with a character the first `n` characters never fold to lies past them. */
  lemma EndsWithPast(t: string, n: nat, e: string)
    requires n <= |t| && e != []
    requires forall j :: 0 <= j < n ==> LowerChar(t[j]) != e[0]
    ensures EndsWith(Lower(t), e) <==> EndsWith(Lower(t[n..]), e)
  {
    assert Lower(t[n..]) == Lower(t)[n..];
    if EndsWith(Lower(t), e) {
      assert Lower(t)[|t| - |e|] == e[0];
      assert Lower(t)[n..][|t[n..]| - |e|..] == Lower(t)[|t| - |e|..];
    }
    if EndsWith(Lower(t[n..]), e) {
      assert Lower(t)[n..][|t[n..]| - |e|..] == Lower(t)[|t| - |e|..];
    }
  }

  /**
   * A tag is a template tag exactly when it starts with `!` and the whole tag, read
   * case-insensitively, ends in `.template.yaml` or `.template.yml`: the leading slashes that
   * `is_template_tag` strips can never reach into that ending.
   */
  lemma IsTemplateTagIff(tag: string)
    ensures IsTemplateTag(tag) <==> StartsWith(tag, "!") && IsTemplatePattern(tag)
  {
    if StartsWith(tag, "!") {
      var rest := tag[1..];
      var suffix := StripLeft(rest, {'/'});
      var n := 1 + (|rest| - |suffix|);
      assert suffix == tag[n..];
      SlashesFoldApart(tag, n);
      EndsWithPast(tag, n, ".template.yaml");
      EndsWithPast(tag, n, ".template.yml");
      if suffix == [] {
        assert Lower(suffix) == [];
      }
    }
  }

  /** `!` and the slashes after it fold to themselves, never to `.`. */
  lemma SlashesFoldApart(tag: string, n: nat)
    requires StartsWith(tag, "!") && 1 <= n <= |tag|
    requires forall i :: 0 <= i < n - 1 ==> tag[1..][i] in {'/'}
    ensures forall j :: 0 <= j < n ==> LowerChar(tag[j]) != '.'
  {
    forall j | 0 <= j < n ensures LowerChar(tag[j]) != '.' {
      if j > 0 { assert tag[j] == tag[1..][j - 1]; }
      else { assert tag[..1] == "!"; }
    }
  }

  /**
   * `_normalize_config_relative`: strip whitespace and leading `/`; an empty result or a `..`
   * segment is an error.
   */
  function NormalizeConfigRelative(path: string): (r: Result<string>)
    ensures r.Ok? <==> StripLeft(Strip(path), {'/'}) != [] && !HasParentRef(StripLeft(Strip(path), {'/'}))
    ensures r.Ok? ==> r.value == StripLeft(Strip(path), {'/'})
    ensures r.Ok? ==> !IsAbsolute(r.value) && !HasParentRef(r.value) && r.value != []
  {
    var candidate := StripLeft(Strip(path), {'/'});
    if candidate == [] then Err("Include path is empty.")
    else if HasParentRef(candidate) then Err("Include path cannot include parent directory segments.")
    else Ok(candidate)
  }

  // ------------------------------------------------------------------ deep merge

  /** One step of `_deep_merge`: fold the right-hand pair `(k, v)` into `m`. */
  function MergeKey(m: seq<(string, Value)>, k: string, v: Value): seq<(string, Value)>
    decreases Size(v), 0
  {
    var cur := Get(m, k);
    if cur.Some? && cur.value.Map? && v.Map? then Put(m, k, Map(DeepMerge(cur.value.entries, v.entries)))
    else if cur.Some? && cur.value.Seq? && v.Seq? then Put(m, k, Seq(cur.value.items + v.items))
    else Put(m, k, v)
  }

  /**
   * `_deep_merge(left, right)`: a copy of `left` with each right-hand key folded in, in
   * order: two dicts merge recursively, two lists concatenate, otherwise the right wins.
   */
  function DeepMerge(left: seq<(string, Value)>, right: seq<(string, Value)>): seq<(string, Value)>
    decreases EntriesSize(right), 1
  {
    if right == [] then left
    else
      EntriesSizeCons(right);
      DeepMerge(MergeKey(left, right[0].0, right[0].1), right[1..])
  }

  /** The value `_deep_merge` leaves at key `k`, stated key by key. */
  function MergedAt(left: seq<(string, Value)>, right: seq<(string, Value)>, k: string): Option<Value>
  {
    var l := Get(left, k);
    var r := Get(right, k);
    if r.None? then l
    else if l.Some? && l.value.Map? && r.value.Map? then Some(Map(DeepMerge(l.value.entries, r.value.entries)))
    else if l.Some? && l.value.Seq? && r.value.Seq? then Some(Seq(l.value.items + r.value.items))
    else r
  }

  /** One merge step changes only the key it folds in. */
  lemma MergeKeyAt(m: seq<(string, Value)>, k0: string, v: Value, k: string)
    ensures Get(MergeKey(m, k0, v), k) == if k == k0 then MergedAt(m, [(k0, v)], k) else Get(m, k)
  {
    var cur := Get(m, k0);
    if cur.Some? && cur.value.Map? && v.Map? {
      PutGet(m, k0, Map(DeepMerge(cur.value.entries, v.entries)), k);
    } else if cur.Some? && cur.value.Seq? && v.Seq? {
      PutGet(m, k0, Seq(cur.value.items + v.items), k);
    } else {
      PutGet(m, k0, v, k);
    }
  }

  /** `MergedAt` depends only on what the two sides hold at `k`. */
  lemma MergedAtSame(l1: seq<(string, Value)>, r1: seq<(string, Value)>, l2: seq<(string, Value)>, r2: seq<(string, Value)>, k: string)
    requires Get(l1, k) == Get(l2, k) && Get(r1, k) == Get(r2, k)
    ensures MergedAt(l1, r1, k) == MergedAt(l2, r2, k)
  {
  }

  /** A dict without repeated keys: its tail has none either, and lacks the head's key. */
  lemma UniqueKeysTail(es: seq<(string, Value)>)
    requires UniqueKeys(es) && es != []
    ensures UniqueKeys(es[1..]) && Get(es[1..], es[0].0).None?
  {
    assert Keys(es[1..]) == Keys(es)[1..];
    HasKeyKeys(es[1..], es[0].0);
  }

  /**
   * `_deep_merge` on a right-hand dict without repeated keys: a left-only key keeps its
   * value, and a right-hand key gets the merged, concatenated or right value.
   */
  lemma {:induction false} DeepMergeAt(left: seq<(string, Value)>, right: seq<(string, Value)>, k: string)
    requires UniqueKeys(right)
    ensures Get(DeepMerge(left, right), k) == MergedAt(left, right, k)
    decreases |right|
  {
    if right != [] {
      var k0, v0, rest := right[0].0, right[0].1, right[1..];
      var m := MergeKey(left, k0, v0);
      EntriesSizeCons(right);
      assert DeepMerge(left, right) == DeepMerge(m, rest);
      UniqueKeysTail(right);
      DeepMergeAt(m, rest, k);
      MergeKeyAt(left, k0, v0, k);
      if k == k0 {
        MergedAtSame(m, rest, m, [], k);
        MergedAtSame(left, right, left, [(k0, v0)], k);
      } else {
        MergedAtSame(m, rest, left, right, k);
      }
    }
  }

  /** One merge step adds the folded key at the end when it is new, and keeps the other keys. */
  lemma MergeKeyKeys(m: seq<(string, Value)>, k0: string, v: Value)
    ensures Keys(MergeKey(m, k0, v)) == Keys(m) + (if HasKey(m, k0) then [] else [k0])
  {
  }

  /** The merged dict holds exactly the keys of both sides. */
  lemma {:induction false} DeepMergeKeys(left: seq<(string, Value)>, right: seq<(string, Value)>, k: string)
    ensures HasKey(DeepMerge(left, right), k) <==> HasKey(left, k) || HasKey(right, k)
    decreases |right|
  {
    if right != [] {
      var k0, v0, rest := right[0].0, right[0].1, right[1..];
      var m := MergeKey(left, k0, v0);
      EntriesSizeCons(right);
      assert DeepMerge(left, right) == DeepMerge(m, rest);
      DeepMergeKeys(m, rest, k);
      MergeKeyKeys(left, k0, v0);
      HasKeyKeys(left, k);
      HasKeyKeys(m, k);
      assert HasKey(m, k) <==> HasKey(left, k) || k == k0;
      if k != k0 {
        HasKeyTail(right, k);
      } else {
        assert right[0].0 == k;
      }
    }
  }

  /** The left-hand keys come first in the merged dict, in their order. */
  lemma {:induction false} DeepMergeKeepsOrder(left: seq<(string, Value)>, right: seq<(string, Value)>)
    ensures |left| <= |DeepMerge(left, right)| && Keys(DeepMerge(left, right))[..|left|] == Keys(left)
    decreases |right|
  {
    if right != [] {
      var k0, v0, rest := right[0].0, right[0].1, right[1..];
      var m := MergeKey(left, k0, v0);
      EntriesSizeCons(right);
      assert DeepMerge(left, right) == DeepMerge(m, rest);
      DeepMergeKeepsOrder(m, rest);
      MergeKeyKeys(left, k0, v0);
      assert Keys(m)[..|left|] == Keys(left);
      var d := Keys(DeepMerge(m, rest));
      assert d[..|left|] == d[..|m|][..|left|];
    }
  }

  /** Merged dicts keep unique keys. */
  lemma {:induction false} DeepMergeUnique(left: seq<(string, Value)>, right: seq<(string, Value)>)
    requires UniqueKeys(left)
    ensures UniqueKeys(DeepMerge(left, right))
    decreases |right|
  {
    if right != [] {
      EntriesSizeCons(right);
      var k := right[0].0;
      var cur := Get(left, k);
      if cur.Some? && cur.value.Map? && right[0].1.Map? {
        PutUnique(left, k, Map(DeepMerge(cur.value.entries, right[0].1.entries)));
      } else if cur.Some? && cur.value.Seq? && right[0].1.Seq? {
        PutUnique(left, k, Seq(cur.value.items + right[0].1.items));
      } else {
        PutUnique(left, k, right[0].1);
      }
      DeepMergeUnique(MergeKey(left, k, right[0].1), right[1..]);
    }
  }

  /** `_deep_merge` as the source runs it: copy `left`, then assign each right-hand key in a loop. */
  method DeepMergeDicts(left: seq<(string, Value)>, right: seq<(string, Value)>) returns (merged: seq<(string, Value)>)
    ensures merged == DeepMerge(left, right)
    decreases EntriesSize(right)
  {
    merged := left;
    var i := 0;
    while i < |right|
      invariant 0 <= i <= |right|
      invariant DeepMerge(left, right) == DeepMerge(merged, right[i..])
      decreases |right| - i
    {
      var (key, value) := right[i];
      EntriesSizeCons(right[i..]);
      assert right[i..][1..] == right[i + 1..];
      var cur := Get(merged, key);
      if cur.Some? && cur.value.Map? && value.Map? {
        EntriesPartSize(right, i);
        var inner := DeepMergeDicts(cur.value.entries, value.entries);
        merged := Put(merged, key, Map(inner));
      } else if cur.Some? && cur.value.Seq? && value.Seq? {
        merged := Put(merged, key, Seq(cur.value.items + value.items));
      } else {
        merged := Put(merged, key, value);
      }
      i := i + 1;
    }
  }

  /** Each right-hand value is smaller than the whole right-hand dict. */
  lemma {:induction false} EntriesPartSize(es: seq<(string, Value)>, i: nat)
    requires i < |es|
    ensures Size(es[i].1) < EntriesSize(es)
    decreases i
  {
    EntriesSizeCons(es);
    if i > 0 {
      EntriesPartSize(es[1..], i - 1);
    }
  }

  // ------------------------------------------------------------------ the filesystem as input

  /** What reading and parsing a file gives: data, a blank file (None), or a YAML error. */
  datatype FileContent = Parsed(value: Value) | Blank | Invalid(message: string)

  /**
   * The error `yaml_load` gives for a file that does not parse: the file's config-relative
   * path, then the parser's own message.
   */
  function LoadErrorText(rel: string, message: string): (r: string)
    ensures |r| == |rel| + 2 + |message| && r[..|rel|] == rel && r[|rel| + 2..] == message
  {
    rel + ": " + message
  }

  /**
   * The files the expander may read, by config-relative posix path: regular files with their
   * contents, directories with their sorted `*.y*ml` children, and the sorted matches of each
   * glob pattern. `root` is the config directory's absolute path, as segments.
   */
  datatype Fs = Fs(
    root: seq<string>,
    files: map<string, FileContent>,
    dirs: map<string, seq<string>>,
    globs: map<string, seq<string>>)

  /** A warning `expand_includes` records; `Message` gives its text. Paths are config-relative. */
  datatype Warning =
    | MissingFile(path: string)
    | InvalidYaml(path: string, message: string)
    | InvalidTemplatePath(tag: string, base: string, error: string)
    | NotTemplateFile(tag: string, base: string)
    | TemplateOutsideConfig(tag: string, base: string)
    | DepthExceeded(base: string)
    | NoTemplateMatch(tag: string, base: string)
    | MixedTemplateShapes(tag: string, base: string)
    | BadIncludeArgument(tag: string, base: string)
    | IncludeOutsideConfig(tag: string, base: string)
    | DirectoryNotFound(tag: string, arg: string)

  /** The text of each warning, as the source formats it. */
  function Message(w: Warning): string
  {
    match w
    case MissingFile(path) => "Missing include file: " + path
    case InvalidYaml(path, message) => "Invalid YAML in " + path + ": " + message
    case InvalidTemplatePath(tag, base, error) => "Invalid template include path " + tag + " in " + base + ": " + error
    case NotTemplateFile(tag, base) => "Template include must reference *.template.yaml: " + tag + " in " + base
    case TemplateOutsideConfig(tag, base) => "Template include must stay within config dir: " + tag + " in " + base
    case DepthExceeded(base) => "Include expansion exceeded max depth at " + base + "."
    case NoTemplateMatch(tag, base) => "Template include did not match any files: " + tag + " in " + base
    case MixedTemplateShapes(tag, base) => "Template glob include produced mixed shapes; skipping: " + tag + " in " + base
    case BadIncludeArgument(tag, base) => tag + " must be a non-empty string in " + base
    case IncludeOutsideConfig(tag, base) => tag + " must stay within config dir in " + base
    case DirectoryNotFound(tag, arg) => tag + " directory not found: " + arg
  }

  /** A value or SKIP (`None`), with the warnings recorded while computing it. */
  type Expanded = (Option<Value>, seq<Warning>)

  /** `_load_yaml_file`: a missing file or a YAML error is SKIP with a warning; a blank file is None. */
  function LoadYamlFile(fs: Fs, path: string): (r: Expanded)
    ensures r.0.None? <==> path !in fs.files || fs.files[path].Invalid?
    ensures path in fs.files && fs.files[path].Blank? ==> r == (Some(Null), [])
  {
    if path !in fs.files then (None, [MissingFile(path)])
    else match fs.files[path]
      case Blank => (Some(Null), [])
      case Invalid(message) => (None, [InvalidYaml(path, message)])
      case Parsed(v) => (Some(v), [])
  }

  /** Keep the glob matches that are files with a template name, in their sorted order. */
  function TemplateFiles(fs: Fs, matches: seq<string>): (r: seq<string>)
    ensures forall p :: p in r <==> p in matches && p in fs.files && IsTemplatePattern(Name(p))
  {
    if matches == [] then []
    else
      var rest := TemplateFiles(fs, matches[1..]);
      assert forall p :: p in matches <==> p == matches[0] || p in matches[1..];
      if matches[0] in fs.files && IsTemplatePattern(Name(matches[0])) then [matches[0]] + rest else rest
  }

  /** `resolve_template_candidates`: the template files a template tag refers to. */
  function ResolveTemplateCandidates(fs: Fs, tag: string, base: string): (r: (seq<string>, seq<Warning>))
    ensures forall p :: p in r.0 ==> p in fs.files
  {
    if !IsTemplateTag(tag) then ([], [])
    else
      TemplateTagNonEmpty(tag);
      match NormalizeConfigRelative(tag[1..])
      case Err(e) => ([], [InvalidTemplatePath(tag, base, e)])
      case Ok(pattern) => ResolvePattern(fs, pattern, tag, base)
  }

  lemma TemplateTagNonEmpty(tag: string)
    requires IsTemplateTag(tag)
    ensures |tag| >= 1
  {
  }

  /** The candidates of a normalized template pattern: the glob's template files, or the one file. */
  function ResolvePattern(fs: Fs, pattern: string, tag: string, base: string): (r: (seq<string>, seq<Warning>))
    ensures forall p :: p in r.0 ==> p in fs.files
  {
    if !IsTemplatePattern(pattern) then
      ([], [NotTemplateFile(tag, base)])
    else if HasGlob(pattern) then
      (TemplateFiles(fs, if pattern in fs.globs then fs.globs[pattern] else []), [])
    else match RelativeTo(Resolve(fs.root, [], pattern), fs.root)
      case None => ([], [TemplateOutsideConfig(tag, base)])
      case Some(rel) => if Posix(rel) in fs.files then ([Posix(rel)], []) else ([], [])
  }

  // ------------------------------------------------------------------ expand_includes

  const MaxDepth := 20

  /** The depth budget left; every recursive expansion goes one level deeper. */
  function Budget(depth: nat): nat { if depth > MaxDepth then 0 else MaxDepth + 1 - depth }

  /** The children that did not expand to SKIP, in order. */
  function Somes(xs: seq<Option<Value>>): (r: seq<Value>)
    ensures |r| <= |xs|
  {
    if xs == [] then [] else Somes(xs[..|xs| - 1]) + (if xs[|xs| - 1].Some? then [xs[|xs| - 1].value] else [])
  }

  /**
   * `expand_includes(value, ...)`: expand template tags when `rt` (resolve_templates) and
   * HA include tags when `rh` (resolve_ha_includes); `base` is the file being expanded.
   */
  function Expand(fs: Fs, v: Option<Value>, base: string, rt: bool, rh: bool, depth: nat): Expanded
    decreases Budget(depth), 1, 0
  {
    if depth > MaxDepth then (v, [DepthExceeded(base)])
    else if v.None? then (None, [])
    else match v.value
      case Tagged(tag, payload, line) =>
        if rt && IsTemplateTag(tag) then ExpandTemplate(fs, tag, base, rh, depth)
        else if rh && tag in HaIncludeTags then ExpandHaInclude(fs, tag, payload, base, rt, rh, depth)
        else ExpandUnknownTag(fs, tag, payload, line, base, rt, rh, depth)
      case Map(entries) =>
        var r := ExpandEntries(fs, entries, base, rt, rh, depth + 1);
        (Some(Map(r.0)), r.1)
      case Seq(items) =>
        var r := ExpandItems(fs, items, base, rt, rh, depth + 1);
        (Some(Seq(r.0)), r.1)
      case _ => (v, [])
  }

  /** A tag kept as it is: a dict or list payload has its children expanded under the same tag and line. */
  function ExpandUnknownTag(fs: Fs, tag: string, payload: Value, line: Option<int>, base: string, rt: bool, rh: bool, depth: nat): Expanded
    requires depth <= MaxDepth
    decreases Budget(depth), 0, 0
  {
    if payload.Map? then
      var r := ExpandEntries(fs, payload.entries, base, rt, rh, depth + 1);
      (Some(Tagged(tag, Map(r.0), line)), r.1)
    else if payload.Seq? then
      var r := ExpandItems(fs, payload.items, base, rt, rh, depth + 1);
      (Some(Tagged(tag, Seq(r.0), line)), r.1)
    else (Some(Tagged(tag, payload, line)), [])
  }

  /** The template branch of `expand_includes` (the tag is a template tag). */
  function ExpandTemplate(fs: Fs, tag: string, base: string, rh: bool, depth: nat): Expanded
    requires depth <= MaxDepth
    decreases Budget(depth), 0, 1
  {
    ExpandFound(fs, ResolveTemplateCandidates(fs, tag, base), tag, base, rh, depth)
  }

  /** The template branch once the candidate files and their warnings are known. */
  function ExpandFound(fs: Fs, found: (seq<string>, seq<Warning>), tag: string, base: string, rh: bool, depth: nat): Expanded
    requires depth <= MaxDepth
    decreases Budget(depth), 0, 0
  {
    if found.0 == [] then (None, found.1 + [NoTemplateMatch(tag, base)])
    else
      assert Budget(depth + 1) < Budget(depth);
      FinishTemplate(found.1, ExpandCandidates(fs, found.0, rh, depth + 1), tag, base)
  }

  /** The end of the template branch: SKIP if a candidate gave SKIP, else the candidates combined. */
  function FinishTemplate(w: seq<Warning>, xs: (Option<seq<Value>>, seq<Warning>), tag: string, base: string): Expanded
    requires xs.0.Some? ==> xs.0.value != []
  {
    if xs.0.None? then (None, w + xs.1)
    else
      var c := CombineTemplate(xs.0.value, tag, base);
      (c.0, w + xs.1 + c.1)
  }

  /** The HA include branch of `expand_includes` (the tag is one of HA_INCLUDE_TAGS). */
  function ExpandHaInclude(fs: Fs, tag: string, arg: Value, base: string, rt: bool, rh: bool, depth: nat): Expanded
    requires depth <= MaxDepth
    decreases Budget(depth), 0, 0
  {
    if !IsNonBlankStr(arg) then (None, [BadIncludeArgument(tag, base)])
    else match RelativeTo(Resolve(fs.root, DirOf(base), arg.s), fs.root)
      case None => (None, [IncludeOutsideConfig(tag, base)])
      case Some(rel) =>
        assert Budget(depth + 1) < Budget(depth);
        var path := Posix(rel);
        if tag == IncludeTag then LoadExpand(fs, path, rt, rh, depth + 1)
        else if path !in fs.dirs then
          (Some(if tag == IncludeDirList || tag == IncludeDirMergeList then Seq([]) else Map([])),
           [DirectoryNotFound(tag, arg.s)])
        else if tag == IncludeDirList then
          var r := ExpandDirList(fs, fs.dirs[path], rt, rh, depth + 1);
          (Some(Seq(r.0)), r.1)
        else if tag == IncludeDirMergeList then
          var r := ExpandDirMergeList(fs, fs.dirs[path], rt, rh, depth + 1);
          (Some(Seq(r.0)), r.1)
        else
          var r := ExpandDirNamed(fs, fs.dirs[path], tag == IncludeDirMergeNamed, rt, rh, depth + 1);
          (Some(Map(r.0)), r.1)
  }

  /** The directory part of a config-relative file path (`Path.parent`). */
  function DirOf(path: string): seq<string>
  {
    var parts := Parts(path);
    if parts == [] then [] else parts[..|parts| - 1]
  }

  /** Load one file and expand it, with the file itself as the base path. */
  function LoadExpand(fs: Fs, path: string, rt: bool, rh: bool, depth: nat): Expanded
    decreases Budget(depth), 2, 0
  {
    var (loaded, w1) := LoadYamlFile(fs, path);
    var (e, w2) := Expand(fs, loaded, path, rt, rh, depth);
    (e, w1 + w2)
  }

  /** The candidates loop of the template branch: every candidate expanded, or SKIP at the first SKIP. */
  function ExpandCandidates(fs: Fs, cands: seq<string>, rh: bool, depth: nat): (r: (Option<seq<Value>>, seq<Warning>))
    ensures r.0.Some? ==> |r.0.value| == |cands|
    decreases Budget(depth), 3, |cands|
  {
    if cands == [] then (Some([]), [])
    else
      var (acc, w1) := ExpandCandidates(fs, cands[..|cands| - 1], rh, depth);
      if acc.None? then (None, w1)
      else
        var (c, w2) := LoadExpand(fs, cands[|cands| - 1], true, rh, depth);
        if c.None? then (None, w1 + w2) else (Some(acc.value + [c.value]), w1 + w2)
  }

  predicate AllSeqs(xs: seq<Value>) { forall i :: 0 <= i < |xs| ==> xs[i].Seq? }
  predicate AllMaps(xs: seq<Value>) { forall i :: 0 <= i < |xs| ==> xs[i].Map? }

  /** The lists' elements, one list after the other. */
  function ConcatLists(xs: seq<Value>): seq<Value>
    requires AllSeqs(xs)
  {
    if xs == [] then [] else ConcatLists(xs[..|xs| - 1]) + xs[|xs| - 1].items
  }

  /** The dicts deep-merged from `{}`, left to right. */
  function MergeMaps(xs: seq<Value>): seq<(string, Value)>
    requires AllMaps(xs)
  {
    if xs == [] then [] else DeepMerge(MergeMaps(xs[..|xs| - 1]), xs[|xs| - 1].entries)
  }

  /** How a template tag with several matching files combines their data. */
  function CombineTemplate(xs: seq<Value>, tag: string, base: string): Expanded
    requires xs != []
  {
    if |xs| == 1 then (Some(xs[0]), [])
    else if AllSeqs(xs) then (Some(Seq(ConcatLists(xs))), [])
    else if AllMaps(xs) then (Some(Map(MergeMaps(xs))), [])
    else (None, [MixedTemplateShapes(tag, base)])
  }

  /** The list loop: expand each entry, dropping the ones that give SKIP. */
  function ExpandItems(fs: Fs, items: seq<Value>, base: string, rt: bool, rh: bool, depth: nat): (seq<Value>, seq<Warning>)
    decreases Budget(depth), 3, |items|
  {
    if items == [] then ([], [])
    else
      var (acc, w1) := ExpandItems(fs, items[..|items| - 1], base, rt, rh, depth);
      var (c, w2) := Expand(fs, Some(items[|items| - 1]), base, rt, rh, depth);
      (acc + (if c.Some? then [c.value] else []), w1 + w2)
  }

  /** The dict loop: expand each value, dropping the keys whose value gives SKIP. */
  function ExpandEntries(fs: Fs, es: seq<(string, Value)>, base: string, rt: bool, rh: bool, depth: nat): (seq<(string, Value)>, seq<Warning>)
    decreases Budget(depth), 3, |es|
  {
    if es == [] then ([], [])
    else
      var (acc, w1) := ExpandEntries(fs, es[..|es| - 1], base, rt, rh, depth);
      var (c, w2) := Expand(fs, Some(es[|es| - 1].1), base, rt, rh, depth);
      (if c.Some? then Put(acc, es[|es| - 1].0, c.value) else acc, w1 + w2)
  }

  /** `!include_dir_list`: each child file's data, children giving SKIP left out. */
  function ExpandDirList(fs: Fs, children: seq<string>, rt: bool, rh: bool, depth: nat): (seq<Value>, seq<Warning>)
    decreases Budget(depth), 3, |children|
  {
    if children == [] then ([], [])
    else
      var (acc, w1) := ExpandDirList(fs, children[..|children| - 1], rt, rh, depth);
      var (c, w2) := LoadExpand(fs, children[|children| - 1], rt, rh, depth);
      (acc + (if c.Some? then [c.value] else []), w1 + w2)
  }

  /** What `!include_dir_merge_list` adds for one child: its elements, itself, or nothing for None. */
  function MergeListPart(c: Value): seq<Value>
  {
    if c.Seq? then c.items else if c.Null? then [] else [c]
  }

  /** `!include_dir_merge_list`: the children's lists flattened into one list. */
  function ExpandDirMergeList(fs: Fs, children: seq<string>, rt: bool, rh: bool, depth: nat): (seq<Value>, seq<Warning>)
    decreases Budget(depth), 3, |children|
  {
    if children == [] then ([], [])
    else
      var (acc, w1) := ExpandDirMergeList(fs, children[..|children| - 1], rt, rh, depth);
      var (c, w2) := LoadExpand(fs, children[|children| - 1], rt, rh, depth);
      (acc + (if c.Some? then MergeListPart(c.value) else []), w1 + w2)
  }

  /** How `!include_dir_named` (`merge` false) or `!include_dir_merge_named` stores one child. */
  function NamedPut(acc: seq<(string, Value)>, key: string, c: Value, merge: bool): seq<(string, Value)>
  {
    var cur := Get(acc, key);
    if merge && c.Map? && cur.Some? && cur.value.Map? then Put(acc, key, Map(DeepMerge(cur.value.entries, c.entries)))
    else Put(acc, key, c)
  }

  /** `!include_dir_named` / `!include_dir_merge_named`: child data keyed by the file's stem. */
  function ExpandDirNamed(fs: Fs, children: seq<string>, merge: bool, rt: bool, rh: bool, depth: nat): (seq<(string, Value)>, seq<Warning>)
    decreases Budget(depth), 3, |children|
  {
    if children == [] then ([], [])
    else
      var (acc, w1) := ExpandDirNamed(fs, children[..|children| - 1], merge, rt, rh, depth);
      var child := children[|children| - 1];
      var (c, w2) := LoadExpand(fs, child, rt, rh, depth);
      (if c.Some? then NamedPut(acc, Stem(Name(child)), c.value, merge) else acc, w1 + w2)
  }

  // ------------------------------------------------------------------ properties of the expansion

  /** What each list entry expands to, SKIP included. */
  function ItemResults(fs: Fs, items: seq<Value>, base: string, rt: bool, rh: bool, depth: nat): (r: seq<Option<Value>>)
    ensures |r| == |items|
  {
    seq(|items|, i requires 0 <= i < |items| => Expand(fs, Some(items[i]), base, rt, rh, depth).0)
  }

  /** What each child file loads and expands to, SKIP included. */
  function ChildResults(fs: Fs, children: seq<string>, rt: bool, rh: bool, depth: nat): (r: seq<Option<Value>>)
    ensures |r| == |children|
  {
    seq(|children|, i requires 0 <= i < |children| => LoadExpand(fs, children[i], rt, rh, depth).0)
  }

  /** In a list, entries that expand to SKIP are dropped and the others keep their order. */
  lemma {:induction false} ExpandItemsKeepsOrder(fs: Fs, items: seq<Value>, base: string, rt: bool, rh: bool, depth: nat)
    ensures ExpandItems(fs, items, base, rt, rh, depth).0 == Somes(ItemResults(fs, items, base, rt, rh, depth))
    decreases |items|
  {
    if items != [] {
      var n := |items| - 1;
      ExpandItemsKeepsOrder(fs, items[..n], base, rt, rh, depth);
      assert ItemResults(fs, items, base, rt, rh, depth)[..n] == ItemResults(fs, items[..n], base, rt, rh, depth);
    }
  }

  /** In a dict, each key reads as its value's expansion, and a key whose value gives SKIP is gone. */
  lemma {:induction false} ExpandEntriesGet(fs: Fs, es: seq<(string, Value)>, base: string, rt: bool, rh: bool, depth: nat, k: string)
    requires UniqueKeys(es)
    ensures Get(ExpandEntries(fs, es, base, rt, rh, depth).0, k) == Expand(fs, Get(es, k), base, rt, rh, depth).0
    decreases |es|
  {
    if es != [] {
      var n := |es| - 1;
      var p := es[..n];
      UniqueKeysPrefix(es);
      ExpandEntriesGet(fs, p, base, rt, rh, depth, k);
      assert es == p + [(es[n].0, es[n].1)];
      GetAppend(p, es[n].0, es[n].1, k);
      var acc := ExpandEntries(fs, p, base, rt, rh, depth).0;
      var c := Expand(fs, Some(es[n].1), base, rt, rh, depth).0;
      if c.Some? {
        PutGet(acc, es[n].0, c.value, k);
      }
    }
  }

  /** The candidates loop succeeds iff every candidate expands, and then yields them in order. */
  lemma {:induction false} ExpandCandidatesAll(fs: Fs, cands: seq<string>, rh: bool, depth: nat)
    ensures var kids := ChildResults(fs, cands, true, rh, depth);
      ExpandCandidates(fs, cands, rh, depth).0 ==
        if forall i :: 0 <= i < |kids| ==> kids[i].Some? then Some(Somes(kids)) else None
    decreases |cands|
  {
    if cands != [] {
      var n := |cands| - 1;
      var kids := ChildResults(fs, cands, true, rh, depth);
      var pre := ChildResults(fs, cands[..n], true, rh, depth);
      ExpandCandidatesAll(fs, cands[..n], rh, depth);
      assert kids[..n] == pre;
      assert kids[n] == LoadExpand(fs, cands[n], true, rh, depth).0;
      if !forall i :: 0 <= i < n ==> pre[i].Some? {
        var j :| 0 <= j < n && pre[j].None?;
        assert kids[j].None?;
      }
    }
  }

  /**
   * A template tag: no candidate or any candidate giving SKIP gives SKIP; otherwise a single
   * candidate gives its expansion, lists are concatenated and dicts deep-merged in candidate
   * order, and mixed shapes give SKIP.
   */
  lemma {:induction false} TemplateCases(fs: Fs, tag: string, base: string, rh: bool, depth: nat)
    requires depth <= MaxDepth
    ensures var cands := ResolveTemplateCandidates(fs, tag, base).0;
      var kids := ChildResults(fs, cands, true, rh, depth + 1);
      ExpandTemplate(fs, tag, base, rh, depth).0 ==
        if cands == [] || exists i :: 0 <= i < |kids| && kids[i].None? then None
        else CombineTemplate(Somes(kids), tag, base).0
  {
    var cands := ResolveTemplateCandidates(fs, tag, base).0;
    ExpandCandidatesAll(fs, cands, rh, depth + 1);
  }

  /** How several template files combine: one file as it is, lists concatenated, dicts deep-merged. */
  lemma CombineCases(xs: seq<Value>, tag: string, base: string)
    requires xs != []
    ensures var r := CombineTemplate(xs, tag, base).0;
      (|xs| == 1 ==> r == Some(xs[0])) &&
      (|xs| > 1 && AllSeqs(xs) ==> r == Some(Seq(ConcatLists(xs)))) &&
      (|xs| > 1 && AllMaps(xs) && !AllSeqs(xs) ==> r == Some(Map(MergeMaps(xs)))) &&
      (|xs| > 1 && !AllSeqs(xs) && !AllMaps(xs) ==> r.None?)
  {
  }

  /** With no SKIP among them, the children that did not give SKIP are all of them. */
  lemma {:induction false} SomesAll(xs: seq<Option<Value>>)
    requires forall i :: 0 <= i < |xs| ==> xs[i].Some?
    ensures |Somes(xs)| == |xs| && forall i :: 0 <= i < |xs| ==> Somes(xs)[i] == xs[i].value
  {
    if xs != [] {
      SomesAll(xs[..|xs| - 1]);
    }
  }

  /** An unknown tag keeps its tag and line, with a list payload's SKIP entries dropped in order. */
  lemma UnknownTagKept(fs: Fs, tag: string, payload: Value, line: Option<int>, base: string, rt: bool, rh: bool, depth: nat)
    requires depth <= MaxDepth
    requires !(rt && IsTemplateTag(tag)) && !(rh && tag in HaIncludeTags)
    ensures var r := Expand(fs, Some(Tagged(tag, payload, line)), base, rt, rh, depth).0;
      r.Some? && r.value.Tagged? && r.value.tag == tag && r.value.line == line &&
      (payload.Seq? ==> r.value.payload == Seq(Somes(ItemResults(fs, payload.items, base, rt, rh, depth + 1)))) &&
      (payload.Map? && UniqueKeys(payload.entries) ==>
        r.value.payload.Map? &&
        forall k :: Get(r.value.payload.entries, k) == Expand(fs, Get(payload.entries, k), base, rt, rh, depth + 1).0) &&
      (!payload.Seq? && !payload.Map? ==> r.value.payload == payload)
  {
    if payload.Seq? {
      ExpandItemsKeepsOrder(fs, payload.items, base, rt, rh, depth + 1);
    }
    if payload.Map? && UniqueKeys(payload.entries) {
      forall k {
        ExpandEntriesGet(fs, payload.entries, base, rt, rh, depth + 1, k);
      }
    }
  }

  /** Past the depth cap the value comes back unchanged, with one warning. */
  lemma DepthCap(fs: Fs, v: Option<Value>, base: string, rt: bool, rh: bool, depth: nat)
    requires depth > MaxDepth
    ensures Expand(fs, v, base, rt, rh, depth).0 == v && |Expand(fs, v, base, rt, rh, depth).1| == 1
  {
  }

  /**
   * The HA include errors: a blank or non-string argument, or a path leaving the config
   * directory, gives SKIP; a missing directory gives `[]` for the list forms and `{}` for the
   * named forms.
   */
  lemma HaIncludeErrors(fs: Fs, tag: string, arg: Value, line: Option<int>, base: string, rt: bool, rh: bool, depth: nat)
    requires depth <= MaxDepth && rh && tag in HaIncludeTags && !(rt && IsTemplateTag(tag))
    ensures var r := Expand(fs, Some(Tagged(tag, arg, line)), base, rt, rh, depth).0;
      var target := if IsNonBlankStr(arg) then RelativeTo(Resolve(fs.root, DirOf(base), arg.s), fs.root) else None;
      (target.None? ==> r.None?) &&
      (target.Some? && tag != IncludeTag && Posix(target.value) !in fs.dirs ==>
        r == Some(if tag == IncludeDirList || tag == IncludeDirMergeList then Seq([]) else Map([])))
  {
    assert Expand(fs, Some(Tagged(tag, arg, line)), base, rt, rh, depth) == ExpandHaInclude(fs, tag, arg, base, rt, rh, depth);
  }

  /** The parts `!include_dir_merge_list` keeps of each child result, one after the other. */
  function Flatten(kids: seq<Option<Value>>): seq<Value>
  {
    if kids == [] then []
    else Flatten(kids[..|kids| - 1]) + (if kids[|kids| - 1].Some? then MergeListPart(kids[|kids| - 1].value) else [])
  }

  /** `!include_dir_merge_list` flattens the children's results in order. */
  lemma {:induction false} MergeListIsFlatten(fs: Fs, children: seq<string>, rt: bool, rh: bool, depth: nat)
    ensures ExpandDirMergeList(fs, children, rt, rh, depth).0 == Flatten(ChildResults(fs, children, rt, rh, depth))
    decreases |children|
  {
    if children != [] {
      var n := |children| - 1;
      var kids := ChildResults(fs, children, rt, rh, depth);
      MergeListIsFlatten(fs, children[..n], rt, rh, depth);
      assert kids[..n] == ChildResults(fs, children[..n], rt, rh, depth);
    }
  }

  /** An element of the flattened list comes from some child's part, and every part's element is in it. */
  lemma {:induction false} FlattenHas(kids: seq<Option<Value>>, x: Value)
    ensures x in Flatten(kids) <==> exists i :: 0 <= i < |kids| && kids[i].Some? && x in MergeListPart(kids[i].value)
    decreases |kids|
  {
    if kids != [] {
      var n := |kids| - 1;
      var pre := kids[..n];
      FlattenHas(pre, x);
      if x in Flatten(pre) {
        var j :| 0 <= j < |pre| && pre[j].Some? && x in MergeListPart(pre[j].value);
        assert kids[j] == pre[j];
      }
      if exists i :: 0 <= i < |kids| && kids[i].Some? && x in MergeListPart(kids[i].value) {
        var j :| 0 <= j < |kids| && kids[j].Some? && x in MergeListPart(kids[j].value);
        if j < n {
          assert pre[j] == kids[j];
        }
      }
    }
  }

  /** `!include_dir_merge_list` holds exactly the elements of the children's parts. */
  lemma MergeListFlattens(fs: Fs, children: seq<string>, rt: bool, rh: bool, depth: nat, x: Value)
    ensures var kids := ChildResults(fs, children, rt, rh, depth);
      x in ExpandDirMergeList(fs, children, rt, rh, depth).0 <==>
      exists i :: 0 <= i < |kids| && kids[i].Some? && x in MergeListPart(kids[i].value)
  {
    MergeListIsFlatten(fs, children, rt, rh, depth);
    FlattenHas(ChildResults(fs, children, rt, rh, depth), x);
  }

  // ------------------------------------------------------------------ expand_includes, as the source runs it

  /** Once a candidate gives SKIP, the candidates loop stays SKIP and records nothing more. */
  lemma {:induction false} CandidatesStuck(fs: Fs, cands: seq<string>, rh: bool, depth: nat, i: nat)
    requires i <= |cands| && ExpandCandidates(fs, cands[..i], rh, depth).0.None?
    ensures ExpandCandidates(fs, cands, rh, depth) == ExpandCandidates(fs, cands[..i], rh, depth)
    decreases |cands| - i
  {
    if i < |cands| {
      assert cands[..i + 1][..i] == cands[..i];
      CandidatesStuck(fs, cands, rh, depth, i + 1);
    } else {
      assert cands[..i] == cands;
    }
  }

  /**
   * `expand_includes` with its loops: the recursion, the per-child loops that build fresh
   * output lists and dicts, and the warnings it appends to the shared list (returned here).
   */
  method ExpandIncludes(fs: Fs, v: Option<Value>, base: string, rt: bool, rh: bool, depth: nat)
    returns (r: Option<Value>, warnings: seq<Warning>)
    ensures (r, warnings) == Expand(fs, v, base, rt, rh, depth)
    decreases Budget(depth), 1
  {
    if depth > MaxDepth {
      return v, [DepthExceeded(base)];
    }
    if v.None? {
      return None, [];
    }
    assert Budget(depth + 1) < Budget(depth);
    match v.value {
      case Tagged(tag, payload, line) =>
        if rt && IsTemplateTag(tag) {
          r, warnings := ExpandTemplateTag(fs, tag, base, rh, depth);
        } else if rh && tag in HaIncludeTags {
          r, warnings := ExpandHaIncludeTag(fs, tag, payload, base, rt, rh, depth);
        } else if payload.Map? {
          var out, w := ExpandDict(fs, payload.entries, base, rt, rh, depth + 1);
          r, warnings := Some(Tagged(tag, Map(out), line)), w;
        } else if payload.Seq? {
          var out, w := ExpandList(fs, payload.items, base, rt, rh, depth + 1);
          r, warnings := Some(Tagged(tag, Seq(out), line)), w;
        } else {
          r, warnings := v, [];
        }
      case Map(entries) =>
        var out, w := ExpandDict(fs, entries, base, rt, rh, depth + 1);
        r, warnings := Some(Map(out)), w;
      case Seq(items) =>
        var out, w := ExpandList(fs, items, base, rt, rh, depth + 1);
        r, warnings := Some(Seq(out)), w;
      case _ =>
        r, warnings := v, [];
    }
  }

  /** The template-tag branch of `expand_includes`: expand every candidate file (SKIP at the first SKIP), then combine them. */
  method ExpandTemplateTag(fs: Fs, tag: string, base: string, rh: bool, depth: nat)
    returns (r: Option<Value>, warnings: seq<Warning>)
    requires depth <= MaxDepth
    ensures (r, warnings) == ExpandTemplate(fs, tag, base, rh, depth)
    decreases Budget(depth), 0
  {
    assert Budget(depth + 1) < Budget(depth);
    var found := ResolveTemplateCandidates(fs, tag, base);
    if found.0 == [] {
      return None, found.1 + [NoTemplateMatch(tag, base)];
    }
    var expanded, w := ExpandCandidateFiles(fs, found.0, rh, depth + 1);
    if expanded.None? {
      return None, found.1 + w;
    }
    var c, cw := CombineExpanded(expanded.value, tag, base);
    r, warnings := c, found.1 + w + cw;
  }

  /** The loop over the template candidates. */
  method ExpandCandidateFiles(fs: Fs, cands: seq<string>, rh: bool, depth: nat)
    returns (r: Option<seq<Value>>, warnings: seq<Warning>)
    ensures (r, warnings) == ExpandCandidates(fs, cands, rh, depth)
    decreases Budget(depth), 2
  {
    var expanded: seq<Value> := [];
    warnings := [];
    var i := 0;
    while i < |cands|
      invariant 0 <= i <= |cands|
      invariant ExpandCandidates(fs, cands[..i], rh, depth) == (Some(expanded), warnings)
    {
      assert cands[..i + 1][..i] == cands[..i];
      var loaded := LoadYamlFile(fs, cands[i]);
      var child, cw := ExpandIncludes(fs, loaded.0, cands[i], true, rh, depth);
      assert LoadExpand(fs, cands[i], true, rh, depth) == (child, loaded.1 + cw);
      warnings := warnings + (loaded.1 + cw);
      if child.None? {
        CandidatesStuck(fs, cands, rh, depth, i + 1);
        return None, warnings;
      }
      expanded := expanded + [child.value];
      i := i + 1;
    }
    assert cands[..i] == cands;
    r := Some(expanded);
  }

  /** One file's data as it is, lists concatenated, dicts deep-merged, else SKIP. */
  method CombineExpanded(xs: seq<Value>, tag: string, base: string) returns (r: Option<Value>, warnings: seq<Warning>)
    requires xs != []
    ensures (r, warnings) == CombineTemplate(xs, tag, base)
  {
    if |xs| == 1 {
      return Some(xs[0]), [];
    }
    if AllSeqs(xs) {
      var merged: seq<Value> := [];
      for i := 0 to |xs|
        invariant merged == ConcatLists(xs[..i])
      {
        assert xs[..i + 1][..i] == xs[..i];
        merged := merged + xs[i].items;
      }
      assert xs[..|xs|] == xs;
      return Some(Seq(merged)), [];
    }
    if AllMaps(xs) {
      var merged: seq<(string, Value)> := [];
      for i := 0 to |xs|
        invariant merged == MergeMaps(xs[..i])
      {
        assert xs[..i + 1][..i] == xs[..i];
        merged := DeepMergeDicts(merged, xs[i].entries);
      }
      assert xs[..|xs|] == xs;
      return Some(Map(merged)), [];
    }
    return None, [MixedTemplateShapes(tag, base)];
  }

  /** The HA `!include*` tags. */
  method ExpandHaIncludeTag(fs: Fs, tag: string, arg: Value, base: string, rt: bool, rh: bool, depth: nat)
    returns (r: Option<Value>, warnings: seq<Warning>)
    requires depth <= MaxDepth
    ensures (r, warnings) == ExpandHaInclude(fs, tag, arg, base, rt, rh, depth)
    decreases Budget(depth), 0
  {
    if !IsNonBlankStr(arg) {
      return None, [BadIncludeArgument(tag, base)];
    }
    var resolved := RelativeTo(Resolve(fs.root, DirOf(base), arg.s), fs.root);
    if resolved.None? {
      return None, [IncludeOutsideConfig(tag, base)];
    }
    assert Budget(depth + 1) < Budget(depth);
    var path := Posix(resolved.value);
    if tag == IncludeTag {
      var loaded := LoadYamlFile(fs, path);
      var e, w := ExpandIncludes(fs, loaded.0, path, rt, rh, depth + 1);
      return e, loaded.1 + w;
    }
    if path !in fs.dirs {
      var empty := if tag == IncludeDirList || tag == IncludeDirMergeList then Seq([]) else Map([]);
      return Some(empty), [DirectoryNotFound(tag, arg.s)];
    }
    if tag == IncludeDirList || tag == IncludeDirMergeList {
      var items, w := ExpandDirChildren(fs, fs.dirs[path], tag == IncludeDirMergeList, rt, rh, depth + 1);
      r, warnings := Some(Seq(items)), w;
    } else {
      var result, w := ExpandDirNamedChildren(fs, fs.dirs[path], tag == IncludeDirMergeNamed, rt, rh, depth + 1);
      r, warnings := Some(Map(result)), w;
    }
  }

  /** The child loops of `!include_dir_list` (`flatten` false) and `!include_dir_merge_list`. */
  method ExpandDirChildren(fs: Fs, children: seq<string>, flatten: bool, rt: bool, rh: bool, depth: nat)
    returns (items: seq<Value>, warnings: seq<Warning>)
    ensures !flatten ==> (items, warnings) == ExpandDirList(fs, children, rt, rh, depth)
    ensures flatten ==> (items, warnings) == ExpandDirMergeList(fs, children, rt, rh, depth)
    decreases Budget(depth), 2
  {
    items, warnings := [], [];
    var i := 0;
    while i < |children|
      invariant 0 <= i <= |children|
      invariant !flatten ==> ExpandDirList(fs, children[..i], rt, rh, depth) == (items, warnings)
      invariant flatten ==> ExpandDirMergeList(fs, children[..i], rt, rh, depth) == (items, warnings)
    {
      assert children[..i + 1][..i] == children[..i];
      var loaded := LoadYamlFile(fs, children[i]);
      var child, cw := ExpandIncludes(fs, loaded.0, children[i], rt, rh, depth);
      assert LoadExpand(fs, children[i], rt, rh, depth) == (child, loaded.1 + cw);
      warnings := warnings + (loaded.1 + cw);
      if child.Some? {
        items := items + if flatten then MergeListPart(child.value) else [child.value];
      } else {
        assert items + [] == items;
      }
      i := i + 1;
    }
    assert children[..i] == children;
  }

  /** The child loop of `!include_dir_named` and `!include_dir_merge_named` (`merge`). */
  method ExpandDirNamedChildren(fs: Fs, children: seq<string>, merge: bool, rt: bool, rh: bool, depth: nat)
    returns (result: seq<(string, Value)>, warnings: seq<Warning>)
    ensures (result, warnings) == ExpandDirNamed(fs, children, merge, rt, rh, depth)
    decreases Budget(depth), 2
  {
    result, warnings := [], [];
    var i := 0;
    while i < |children|
      invariant 0 <= i <= |children|
      invariant ExpandDirNamed(fs, children[..i], merge, rt, rh, depth) == (result, warnings)
    {
      assert children[..i + 1][..i] == children[..i];
      var key := Stem(Name(children[i]));
      var loaded := LoadYamlFile(fs, children[i]);
      var child, cw := ExpandIncludes(fs, loaded.0, children[i], rt, rh, depth);
      assert LoadExpand(fs, children[i], rt, rh, depth) == (child, loaded.1 + cw);
      warnings := warnings + (loaded.1 + cw);
      if child.Some? {
        ghost var prev := result;
        var cur := Get(result, key);
        if merge && child.value.Map? && cur.Some? && cur.value.Map? {
          var merged := DeepMergeDicts(cur.value.entries, child.value.entries);
          result := Put(result, key, Map(merged));
        } else {
          result := Put(result, key, child.value);
        }
        assert result == NamedPut(prev, key, child.value, merge);
      }
      i := i + 1;
    }
    assert children[..i] == children;
  }

  /** The dict loops of `expand_includes`: a fresh dict, SKIP values dropped. */
  method ExpandDict(fs: Fs, es: seq<(string, Value)>, base: string, rt: bool, rh: bool, depth: nat)
    returns (out: seq<(string, Value)>, warnings: seq<Warning>)
    ensures (out, warnings) == ExpandEntries(fs, es, base, rt, rh, depth)
    decreases Budget(depth), 2
  {
    out, warnings := [], [];
    var i := 0;
    while i < |es|
      invariant 0 <= i <= |es|
      invariant ExpandEntries(fs, es[..i], base, rt, rh, depth) == (out, warnings)
    {
      assert es[..i + 1][..i] == es[..i];
      var child, cw := ExpandIncludes(fs, Some(es[i].1), base, rt, rh, depth);
      warnings := warnings + cw;
      if child.Some? {
        out := Put(out, es[i].0, child.value);
      }
      i := i + 1;
    }
    assert es[..i] == es;
  }

  /** The list loops of `expand_includes`: a fresh list, SKIP entries dropped. */
  method ExpandList(fs: Fs, items: seq<Value>, base: string, rt: bool, rh: bool, depth: nat)
    returns (out: seq<Value>, warnings: seq<Warning>)
    ensures (out, warnings) == ExpandItems(fs, items, base, rt, rh, depth)
    decreases Budget(depth), 2
  {
    out, warnings := [], [];
    var i := 0;
    while i < |items|
      invariant 0 <= i <= |items|
      invariant ExpandItems(fs, items[..i], base, rt, rh, depth) == (out, warnings)
    {
      assert items[..i + 1][..i] == items[..i];
      var child, cw := ExpandIncludes(fs, Some(items[i]), base, rt, rh, depth);
      warnings := warnings + cw;
      if child.Some? {
        out := out + [child.value];
      } else {
        assert out + [] == out;
      }
      i := i + 1;
    }
    assert items[..i] == items;
  }

  // ------------------------------------------------------------------ state_group_candidates

  /**
   * A state from `/api/states` that looks like a group: a dict whose `entity_id` is a string
   * with a `.`, whose domain (the text before the first `.`) is allowed, and whose
   * `attributes` dict has a list under `entity_id`.
   */
  predicate IsGroupCandidate(state: Value, allowed: set<string>)
  {
    state.Map? &&
    var eid := Get(state.entries, "entity_id");
    eid.Some? && eid.value.Str? && '.' in eid.value.s &&
    SplitFirst(eid.value.s, '.').value.0 in allowed &&
    var attrs := Get(state.entries, "attributes");
    attrs.Some? && attrs.value.Map? &&
    var members := Get(attrs.value.entries, "entity_id");
    members.Some? && members.value.Seq?
  }

  /** The group-like states, in their original order. */
  function GroupCandidates(states: seq<Value>, allowed: set<string>): (r: seq<Value>)
    ensures |r| <= |states|
  {
    if states == [] then []
    else
      var n := |states| - 1;
      var rest := GroupCandidates(states[..n], allowed);
      if IsGroupCandidate(states[n], allowed) then rest + [states[n]] else rest
  }

  /** A state is kept exactly when it is one of the states and passes every check. */
  lemma {:induction false} GroupCandidatesHas(states: seq<Value>, allowed: set<string>, x: Value)
    ensures x in GroupCandidates(states, allowed) <==> x in states && IsGroupCandidate(x, allowed)
    decreases |states|
  {
    if states != [] {
      var n := |states| - 1;
      GroupCandidatesHas(states[..n], allowed, x);
      assert states == states[..n] + [states[n]];
      assert x in states <==> x in states[..n] || x == states[n];
    }
  }

  /** When every state passes, the list comes back whole and in order. */
  lemma {:induction false} GroupCandidatesAll(states: seq<Value>, allowed: set<string>)
    requires forall i :: 0 <= i < |states| ==> IsGroupCandidate(states[i], allowed)
    ensures GroupCandidates(states, allowed) == states
    decreases |states|
  {
    if states != [] {
      var n := |states| - 1;
      var pre := states[..n];
      forall i | 0 <= i < n ensures IsGroupCandidate(pre[i], allowed) {
        assert pre[i] == states[i];
      }
      GroupCandidatesAll(pre, allowed);
      assert IsGroupCandidate(states[n], allowed);
      LastSplit(states);
    }
  }

  /** `state_group_candidates`, with its loop. */
  method StateGroupCandidates(states: seq<Value>, allowed: set<string>) returns (rows: seq<Value>)
    ensures rows == GroupCandidates(states, allowed)
  {
    rows := [];
    for i := 0 to |states|
      invariant rows == GroupCandidates(states[..i], allowed)
    {
      assert states[..i + 1][..i] == states[..i];
      var state := states[i];
      if !state.Map? {
        continue;
      }
      var entityId := Get(state.entries, "entity_id");
      if entityId.None? || !entityId.value.Str? || '.' !in entityId.value.s {
        continue;
      }
      var domain := SplitFirst(entityId.value.s, '.').value.0;
      if domain !in allowed {
        continue;
      }
      var attrs := Get(state.entries, "attributes");
      if attrs.None? || !attrs.value.Map? {
        continue;
      }
      var members := Get(attrs.value.entries, "entity_id");
      if members.None? || !members.value.Seq? {
        continue;
      }
      rows := rows + [state];
    }
    assert states[..|states|] == states;
  }
}
