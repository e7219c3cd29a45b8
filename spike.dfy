/**
 * The automation-id snapshot spike (spikes/automation_id_spike.py): turning a free-form label
 * into a file-name-safe one, and checking the requested paths against the Home Assistant
 * config directory. The config directory is given as its absolute path segments; reading the
 * files, the clock and writing the snapshot are not part of this model.
 */
module AutomationIdSpike {
  import opened Wrappers
  import opened Text
  import opened Paths

  // ------------------------------------------------------------------ labels

  /** The characters `[a-zA-Z0-9._-]` that a label keeps. */
  predicate IsLabelChar(c: char) { IsAlnumChar(c) || c == '.' || c == '_' || c == '-' }

  predicate AllLabelChars(s: string) { forall i :: 0 <= i < |s| ==> IsLabelChar(s[i]) }

  /** Drop the leading characters that are not label characters. */
  function DropRun(s: string): (r: string)
    ensures |r| <= |s| && r == s[|s| - |r|..]
    ensures r != [] ==> IsLabelChar(r[0])
  {
    if s != [] && !IsLabelChar(s[0]) then DropRun(s[1..]) else s
  }

  /** `re.sub(r"[^a-zA-Z0-9._-]+", "-", s)`: every maximal run of other characters becomes one `-`. */
  function SubRuns(s: string): (r: string)
    ensures AllLabelChars(r)
    decreases |s|
  {
    if s == [] then []
    else if IsLabelChar(s[0]) then [s[0]] + SubRuns(s[1..])
    else ['-'] + SubRuns(DropRun(s[1..]))
  }

  /** With nothing to replace, the substitution changes nothing. */
  lemma {:induction false} SubRunsClean(s: string)
    requires AllLabelChars(s)
    ensures SubRuns(s) == s
    decreases |s|
  {
    if s != [] {
      SubRunsClean(s[1..]);
    }
  }

  /** A run of other characters, however long, is replaced by a single `-`. */
  lemma SubRunsRun(run: string, b: string)
    requires run != [] && forall i :: 0 <= i < |run| ==> !IsLabelChar(run[i])
    requires b == [] || IsLabelChar(b[0])
    ensures SubRuns(run + b) == "-" + SubRuns(b)
  {
    var s := run + b;
    assert s[0] == run[0];
    assert s[1..] == run[1..] + b;
    DropRunAll(run[1..], b);
  }

  lemma {:induction false} DropRunAll(run: string, b: string)
    requires forall i :: 0 <= i < |run| ==> !IsLabelChar(run[i])
    requires b == [] || IsLabelChar(b[0])
    ensures DropRun(run + b) == b
    decreases |run|
  {
    if run == [] {
      assert run + b == b;
    } else {
      var s := run + b;
      assert s[0] == run[0];
      assert s[1..] == run[1..] + b;
      DropRunAll(run[1..], b);
    }
  }

  const DefaultLabel: string := "snapshot"

  /**
   * `_sanitize_label`: strip the label, replace each run of other characters with `-`, trim
   * `-` from both ends, and fall back to `snapshot` when nothing is left.
   */
  function SanitizedLabel(text: string): (r: string)
    ensures r != [] && AllLabelChars(r)
    ensures r[0] != '-' && r[|r| - 1] != '-'
  {
    var sub := SubRuns(Strip(text));
    var cleaned := StripSet(sub, {'-'});
    StripDashesLabel(sub);
    DefaultLabelSafe();
    if cleaned == [] then DefaultLabel else cleaned
  }

  lemma DefaultLabelSafe()
    ensures DefaultLabel != [] && AllLabelChars(DefaultLabel)
    ensures DefaultLabel[0] != '-' && DefaultLabel[|DefaultLabel| - 1] != '-'
  {
    forall i | 0 <= i < |DefaultLabel| ensures IsLabelChar(DefaultLabel[i]) {
      assert IsLowerChar(DefaultLabel[i]);
    }
  }

  /** Trimming `-` from a safe label leaves a safe label. */
  lemma StripDashesLabel(s: string)
    requires AllLabelChars(s)
    ensures AllLabelChars(StripSet(s, {'-'}))
  {
    var cleaned := StripSet(s, {'-'});
    forall i | 0 <= i < |cleaned| ensures IsLabelChar(cleaned[i]) {
      StripSetChars(s, {'-'}, cleaned[i]);
    }
  }

  /** A safe label holds no `/`. */
  lemma LabelNoSlash(s: string)
    requires AllLabelChars(s)
    ensures '/' !in s
  {
    forall i | 0 <= i < |s| ensures s[i] != '/' { assert IsLabelChar(s[i]); }
  }

  /** A label that is already safe and not edged with `-` is kept as it is. */
  lemma SanitizeKeeps(t: string)
    requires t != [] && AllLabelChars(t) && t[0] != '-' && t[|t| - 1] != '-'
    ensures SanitizedLabel(t) == t
  {
    assert t[0] !in Whitespace && t[|t| - 1] !in Whitespace by {
      assert IsLabelChar(t[0]) && IsLabelChar(t[|t| - 1]);
    }
    StripUnchanged(t);
    SubRunsClean(t);
    StripSetUnchanged(t, {'-'});
  }

  /** Sanitising twice gives what sanitising once gives. */
  lemma SanitizeIdempotent(text: string)
    ensures SanitizedLabel(SanitizedLabel(text)) == SanitizedLabel(text)
  {
    SanitizeKeeps(SanitizedLabel(text));
  }

  /** `f"{timestamp}-{safe_label}.json"`: the snapshot's file name. */
  function SnapshotFileName(timestamp: string, text: string): (r: string)
    ensures '/' !in timestamp ==> '/' !in r
    ensures EndsWith(r, ".json")
  {
    var safe := SanitizedLabel(text);
    LabelNoSlash(safe);
    var r := timestamp + "-" + safe + ".json";
    EndsWithAppended(timestamp + "-" + safe, ".json");
    r
  }

  // ------------------------------------------------------------------ paths

  const AbsoluteError: string := "Paths must be relative to the Home Assistant config directory."
  const ParentError: string := "Paths cannot include parent directory segments."
  const OutsideError: string := "Paths must stay within the Home Assistant config directory."
  const NoPathsError: string := "At least one path is required."

  /**
   * One entry of `_resolve_paths`: None for a blank entry (skipped), the resolved absolute
   * path segments for an accepted one, or the reason it is refused.
   */
  function ResolveOne(root: seq<string>, raw: string): (r: Result<Option<seq<string>>>)
    ensures r == Ok(None) <==> IsBlank(raw)
    ensures !IsBlank(raw) && IsAbsolute(Strip(raw)) ==> r == Err(AbsoluteError)
    ensures !IsBlank(raw) && !IsAbsolute(Strip(raw)) && HasParentRef(Strip(raw)) ==> r == Err(ParentError)
    ensures r.Ok? && r.value.Some? ==> RelativeTo(r.value.value, root).Some?
  {
    if IsBlank(raw) then Ok(None)
    else
      var candidate := Strip(raw);
      if IsAbsolute(candidate) then Err(AbsoluteError)
      else if HasParentRef(candidate) then Err(ParentError)
      else
        var resolved := Resolve(root, [], candidate);
        if RelativeTo(resolved, root).None? then Err(OutsideError) else Ok(Some(resolved))
  }

  /**
   * Below a config directory without `..`, the "must stay within" refusal cannot happen
   * (the earlier checks already rule out every lexical escape), and an accepted path is the
   * config directory followed by the entry's own parts.
   */
  lemma NoEscape(root: seq<string>, raw: string)
    requires ".." !in root
    ensures ResolveOne(root, raw) != Err(OutsideError)
    ensures !IsBlank(raw) && !IsAbsolute(Strip(raw)) && !HasParentRef(Strip(raw)) ==>
      ResolveOne(root, raw) == Ok(Some(root + Parts(Strip(raw))))
  {
    if !IsBlank(raw) && !IsAbsolute(Strip(raw)) && !HasParentRef(Strip(raw)) {
      var c := Strip(raw);
      StaysInside(root, [], c);
      assert [] + Parts(c) == Parts(c);
      assert Resolve(root, [], c) == root + Parts(c);
    }
  }

  /** Number of entries that are not blank. */
  function NonBlankCount(raws: seq<string>): nat
  {
    if raws == [] then 0
    else NonBlankCount(raws[..|raws| - 1]) + (if IsBlank(raws[|raws| - 1]) then 0 else 1)
  }

  /**
   * The entries resolved in order, stopping at the first refused one. Every accepted path lies
   * under the config directory, and there is one per non-blank entry.
   */
  function ResolveEach(root: seq<string>, raws: seq<string>): (r: Result<seq<seq<string>>>)
    ensures r.Ok? ==> forall j :: 0 <= j < |r.value| ==> RelativeTo(r.value[j], root).Some?
    ensures r.Ok? ==> |r.value| == NonBlankCount(raws)
  {
    if raws == [] then Ok([])
    else
      match ResolveEach(root, raws[..|raws| - 1])
      case Err(e) => Err(e)
      case Ok(paths) =>
        match ResolveOne(root, raws[|raws| - 1])
        case Err(e) => Err(e)
        case Ok(None) => Ok(paths)
        case Ok(Some(p)) => Ok(paths + [p])
  }

  /** A refusal among the first entries is the refusal of the whole list. */
  lemma {:induction false} ResolveEachErr(root: seq<string>, raws: seq<string>, i: nat)
    requires i <= |raws| && ResolveEach(root, raws[..i]).Err?
    ensures ResolveEach(root, raws) == ResolveEach(root, raws[..i])
  {
    if i < |raws| {
      var n := |raws| - 1;
      assert raws[..n][..i] == raws[..i];
      ResolveEachErr(root, raws[..n], i);
    } else {
      assert raws[..i] == raws;
    }
  }

  /** `_resolve_paths`: the resolved paths, refused when an entry is refused or none is left. */
  function ResolvedPaths(root: seq<string>, raws: seq<string>): (r: Result<seq<seq<string>>>)
    ensures r.Ok? ==> r.value != [] && r == ResolveEach(root, raws)
    ensures ResolveEach(root, raws).Ok? ==> (r == Err(NoPathsError) <==> NonBlankCount(raws) == 0)
    ensures ResolveEach(root, raws).Err? ==> r == ResolveEach(root, raws)
  {
    match ResolveEach(root, raws)
    case Err(e) => Err(e)
    case Ok(paths) => if paths == [] then Err(NoPathsError) else Ok(paths)
  }

  /** Only blank entries: nothing to snapshot. */
  lemma AllBlankRefused(root: seq<string>, raws: seq<string>)
    requires forall i :: 0 <= i < |raws| ==> IsBlank(raws[i])
    ensures ResolvedPaths(root, raws) == Err(NoPathsError)
  {
    BlankEach(root, raws);
  }

  lemma {:induction false} BlankEach(root: seq<string>, raws: seq<string>)
    requires forall i :: 0 <= i < |raws| ==> IsBlank(raws[i])
    ensures ResolveEach(root, raws) == Ok([])
  {
    if raws != [] {
      BlankEach(root, raws[..|raws| - 1]);
    }
  }

  /** The loop of `_resolve_paths`: blank entries skipped, the first refusal raised. */
  method ResolvePaths(root: seq<string>, raws: seq<string>) returns (r: Result<seq<seq<string>>>)
    ensures r == ResolvedPaths(root, raws)
  {
    var paths: seq<seq<string>> := [];
    for i := 0 to |raws|
      invariant ResolveEach(root, raws[..i]) == Ok(paths)
    {
      assert raws[..i + 1][..i] == raws[..i];
      var raw := raws[i];
      if IsBlank(raw) {
        continue;
      }
      var candidate := Strip(raw);
      if IsAbsolute(candidate) {
        ResolveEachErr(root, raws, i + 1);
        return Err(AbsoluteError);
      }
      if HasParentRef(candidate) {
        ResolveEachErr(root, raws, i + 1);
        return Err(ParentError);
      }
      var resolved := Resolve(root, [], candidate);
      if RelativeTo(resolved, root).None? {
        ResolveEachErr(root, raws, i + 1);
        return Err(OutsideError);
      }
      paths := paths + [resolved];
    }
    assert raws[..|raws|] == raws;
    if paths == [] {
      return Err(NoPathsError);
    }
    return Ok(paths);
  }
}
