/**
 * How YAML Modules names the items it tracks (yaml_modules.py): the id read from an item's id
 * field, the id derived from an automation's alias, the synthetic `path:line` id, the
 * sanitised dashboard view path, the display name, and the `_2`, `_3`, ... suffixes that make
 * a generated id unique.
 */
module ItemIds {
  import opened Wrappers
  import opened Text
  import opened Yaml

  // ------------------------------------------------------------------ names and stored ids

  /** `_item_name`: the first of `alias`, `name`, `title` that is a non-blank string, stripped. */
  function ItemName(v: Value): (r: Option<string>)
    ensures r.Some? ==> r.value != [] && Strip(r.value) == r.value
    ensures r.Some? <==> NameAt(v, "alias").Some? || NameAt(v, "name").Some? || NameAt(v, "title").Some?
    ensures NameAt(v, "alias").Some? ==> r == NameAt(v, "alias")
  {
    if NameAt(v, "alias").Some? then NameAt(v, "alias")
    else if NameAt(v, "name").Some? then NameAt(v, "name")
    else NameAt(v, "title")
  }

  /** The stripped text under key `k`, when it is a non-blank string. */
  function NameAt(v: Value, k: string): (r: Option<string>)
    ensures r.Some? ==> r.value != [] && Strip(r.value) == r.value
  {
    match Lookup(v, k)
    case Some(Str(s)) =>
      if IsBlank(s) then None
      else
        StripIdempotent(s);
        Some(Strip(s))
    case _ => None
  }

  /** `_extract_item_id`: `str(d[id_field])` when the field is set and not null. */
  function ExtractItemId(v: Value, idField: Option<string>): (r: Option<string>)
    ensures r.Some? <==> idField.Some? && idField.value != [] && v.Map? &&
                         Get(v.entries, idField.value).Some? && !Get(v.entries, idField.value).value.Null?
    ensures r.Some? && Get(v.entries, idField.value).value.Str? ==> r.value == Get(v.entries, idField.value).value.s
  {
    if idField.Some? && idField.value != [] && v.Map? then
      match Get(v.entries, idField.value)
      case None => None
      case Some(Null) => None
      case Some(raw) => Some(PyStr(raw))
    else None
  }

  /** `_synthetic_id`: `path:line` for a known positive line, else `path:position` (1-based). */
  function SyntheticId(rel: string, line: Option<int>, index: nat): (r: string)
    ensures StartsWith(r, rel + ":")
    ensures var n := if line.Some? && line.value > 0 then line.value else index + 1;
      r == rel + ":" + NatToString(n)
  {
    var r := if line.Some? && line.value > 0 then rel + ":" + IntToString(line.value) else rel + ":" + NatToString(index + 1);
    assert r[..|rel + ":"|] == rel + ":";
    r
  }

  /** Items of one file without line numbers get distinct synthetic ids. */
  lemma SyntheticIdInjective(rel: string, i: nat, j: nat)
    requires SyntheticId(rel, None, i) == SyntheticId(rel, None, j)
    ensures i == j
  {
    var p := rel + ":";
    var a, b := NatToString(i + 1), NatToString(j + 1);
    assert (p + a)[|p|..] == a && (p + b)[|p|..] == b;
    ParseNatToString(i + 1);
    ParseNatToString(j + 1);
  }

  // ------------------------------------------------------------------ automation ids

  /** The characters `[a-z0-9]` an automation id is built from. */
  predicate IsIdChar(c: char) { IsLowerChar(c) || IsDigitChar(c) }

  /** What `_normalize_automation_id` promises: `[a-z0-9_]` only, `_` never leading, trailing or doubled. */
  predicate IsSafeId(x: string)
  {
    x != [] && x[0] != '_' && x[|x| - 1] != '_' && NoDoubled(x, '_') &&
    forall i :: 0 <= i < |x| ==> IsIdChar(x[i]) || x[i] == '_'
  }

  /** Position `i` starts a new camel-case word: `(?<=[a-z0-9])(?=[A-Z])`. */
  predicate CamelBoundary(s: string, i: nat)
    requires 0 < i < |s|
  {
    IsIdChar(s[i - 1]) && IsUpperChar(s[i])
  }

  /** `_AUTOMATION_ID_CAMEL_BOUNDARY.sub("_", s)`: a `_` inserted at every camel-case boundary. */
  function CamelSplit(s: string): (r: string)
    ensures forall c :: c != '_' ==> (c in r <==> c in s)
    ensures (forall i :: 0 <= i < |s| ==> !IsUpperChar(s[i])) ==> r == s
  {
    if |s| <= 1 then s
    else
      var n := |s| - 1;
      var front := CamelSplit(s[..n]);
      var r := front + (if CamelBoundary(s, n) then "_" else "") + [s[n]];
      assert forall c :: c != '_' ==> (c in r <==> c in s) by {
        assert s == s[..n] + [s[n]];
      }
      r
  }

  /** A character maps into `[a-z0-9]` under ASCII lower-casing exactly when it is an ASCII letter or digit. */
  lemma LowerIdChar(c: char)
    ensures IsIdChar(LowerChar(c)) <==> IsAlnumChar(c)
  {
  }

  /** The first two steps after stripping: split camel case, lower, and turn every other run into `_`. */
  function Underscored(cleaned: string): (u: string)
    ensures forall i :: 0 <= i < |u| ==> IsIdChar(u[i]) || u[i] == '_'
    ensures NoDoubled(u, '_')
  {
    var lowered := Lower(CamelSplit(cleaned));
    ReplaceRunsNoDoubled(lowered, IsIdChar, '_');
    ReplaceRuns(lowered, IsIdChar, '_')
  }

  /** `_normalize_automation_id`. */
  function NormalizeAutomationId(alias: string): (r: Option<string>)
    ensures r.Some? ==> IsSafeId(r.value)
  {
    var cleaned := Strip(alias);
    if cleaned == [] then None else NormalizeStripped(cleaned)
  }

  /** The steps after stripping: the underscored text with runs of `_` collapsed and `_` trimmed. */
  function NormalizeStripped(cleaned: string): (r: Option<string>)
    ensures r.Some? ==> IsSafeId(r.value)
  {
    var underscored := Underscored(cleaned);
    var normalized := StripSet(CollapseRuns(underscored, '_'), {'_'});
    UnderscoredSafe(underscored);
    if normalized == [] then None else Some(normalized)
  }

  /** The substitutions leave only `[a-z0-9]` and lone `_`, so stripping `_` gives a safe id. */
  lemma UnderscoredSafe(u: string)
    requires forall i :: 0 <= i < |u| ==> IsIdChar(u[i]) || u[i] == '_'
    requires NoDoubled(u, '_')
    ensures CollapseRuns(u, '_') == u
    ensures StripSet(u, {'_'}) != [] ==> IsSafeId(StripSet(u, {'_'}))
  {
    CollapseRunsFixed(u, '_');
    StripUnderscoresSafe(u);
  }

  lemma StripUnderscoresSafe(u: string)
    requires forall i :: 0 <= i < |u| ==> IsIdChar(u[i]) || u[i] == '_'
    requires NoDoubled(u, '_')
    ensures StripSet(u, {'_'}) != [] ==> IsSafeId(StripSet(u, {'_'}))
  {
    var x := StripSet(u, {'_'});
    forall i | 0 <= i < |x| ensures IsIdChar(x[i]) || x[i] == '_' {
      StripSetChars(u, {'_'}, x[i]);
    }
    NoDoubledSlice(u);
  }

  lemma NoDoubledSlice(u: string)
    requires NoDoubled(u, '_')
    ensures NoDoubled(StripSet(u, {'_'}), '_')
  {
    var x := StripSet(u, {'_'});
    var k := StripSetSlice(u, {'_'});
    forall i | 0 <= i < |x| - 1 ensures x[i] != '_' || x[i + 1] != '_' {
      assert x[i] == u[k + i] && x[i + 1] == u[k + i + 1];
    }
  }

  predicate HasAlnum(s: string) { exists i :: 0 <= i < |s| && IsAlnumChar(s[i]) }

  /** A letter or digit of the stripped alias comes out lower-cased; nothing else yields `[a-z0-9]`. */
  lemma UnderscoredIdChars(cleaned: string)
    ensures (exists k :: 0 <= k < |Underscored(cleaned)| && IsIdChar(Underscored(cleaned)[k])) <==> HasAlnum(cleaned)
  {
    var y := CamelSplit(cleaned);
    var lowered := Lower(y);
    var u := Underscored(cleaned);
    if exists k :: 0 <= k < |u| && IsIdChar(u[k]) {
      var k :| 0 <= k < |u| && IsIdChar(u[k]);
      ReplaceRunsKeeps(lowered, IsIdChar, '_', u[k]);
      var j :| 0 <= j < |lowered| && lowered[j] == u[k];
      LowerIdChar(y[j]);
      assert y[j] in cleaned;
      var i :| 0 <= i < |cleaned| && cleaned[i] == y[j];
    }
    if HasAlnum(cleaned) {
      var i :| 0 <= i < |cleaned| && IsAlnumChar(cleaned[i]);
      assert cleaned[i] in y;
      var j :| 0 <= j < |y| && y[j] == cleaned[i];
      LowerIdChar(y[j]);
      ReplaceRunsKeeps(lowered, IsIdChar, '_', lowered[j]);
      var k :| 0 <= k < |u| && u[k] == lowered[j];
    }
  }

  /** No id can be derived exactly when the alias holds no ASCII letter or digit. */
  lemma NormalizeNoneIff(alias: string)
    ensures NormalizeAutomationId(alias).None? <==> !HasAlnum(alias)
  {
    var cleaned := Strip(alias);
    StripAlnum(alias);
    if cleaned != [] {
      StrippedNoneIff(cleaned);
    }
  }

  /** Stripping whitespace keeps the letters and digits. */
  lemma StripAlnum(alias: string)
    ensures HasAlnum(alias) <==> HasAlnum(Strip(alias))
  {
    var cleaned := Strip(alias);
    if HasAlnum(alias) {
      var i :| 0 <= i < |alias| && IsAlnumChar(alias[i]);
      AlnumNotWhitespace(alias[i]);
      StripSetKeeps(alias, Whitespace, i);
      var j :| 0 <= j < |cleaned| && cleaned[j] == alias[i];
      assert IsAlnumChar(cleaned[j]);
    }
    if HasAlnum(cleaned) {
      var i :| 0 <= i < |cleaned| && IsAlnumChar(cleaned[i]);
      StripSetChars(alias, Whitespace, cleaned[i]);
      var j :| 0 <= j < |alias| && alias[j] == cleaned[i];
      assert IsAlnumChar(alias[j]);
    }
  }

  lemma AlnumNotWhitespace(c: char)
    requires IsAlnumChar(c)
    ensures c !in Whitespace
  {
  }

  lemma StrippedNoneIff(cleaned: string)
    ensures NormalizeStripped(cleaned).None? <==> !HasAlnum(cleaned)
  {
    var u := Underscored(cleaned);
    UnderscoredSafe(u);
    UnderscoredIdChars(cleaned);
    assert StripSet(u, {'_'}) == [] <==> forall k :: 0 <= k < |u| ==> u[k] in {'_'};
  }

  /** A safe id is its own normalisation. */
  lemma NormalizeSafeFixed(x: string)
    requires IsSafeId(x)
    ensures NormalizeAutomationId(x) == Some(x)
  {
    assert IsIdChar(x[0]) && IsIdChar(x[|x| - 1]);
    StripUnchanged(x);
    UnderscoredFixed(x);
    UnderscoredSafe(x);
    StripSetUnchanged(x, {'_'});
  }

  lemma UnderscoredFixed(x: string)
    requires IsSafeId(x)
    ensures Underscored(x) == x
  {
    assert forall i :: 0 <= i < |x| ==> !IsUpperChar(x[i]);
    assert CamelSplit(x) == x;
    LowerUnchanged(x);
    ReplaceRunsFixed(x, IsIdChar, '_');
  }

  /** Normalising a normalised alias gives it back. */
  lemma NormalizeIdempotent(alias: string)
    ensures NormalizeAutomationId(alias).Some? ==>
      NormalizeAutomationId(NormalizeAutomationId(alias).value) == NormalizeAutomationId(alias)
  {
    if NormalizeAutomationId(alias).Some? {
      NormalizeSafeFixed(NormalizeAutomationId(alias).value);
    }
  }

  lemma AlnumNotBlank(s: string)
    ensures HasAlnum(s) ==> !IsBlank(s)
  {
    if HasAlnum(s) {
      var i :| 0 <= i < |s| && IsAlnumChar(s[i]);
      StripSetKeeps(s, Whitespace, i);
    }
  }

  /** `_automation_alias_id`: the id derived from a non-blank `alias`. */
  function AutomationAliasId(v: Value): (r: Option<string>)
    ensures r.Some? ==> IsSafeId(r.value)
    ensures r.Some? <==> v.Map? && Lookup(v, "alias").Some? && Lookup(v, "alias").value.Str? &&
                         HasAlnum(Lookup(v, "alias").value.s)
  {
    match Lookup(v, "alias")
    case Some(Str(alias)) =>
      NormalizeNoneIff(alias);
      AlnumNotBlank(alias);
      if IsBlank(alias) then None
      else NormalizeAutomationId(alias)
    case _ => None
  }

  // ------------------------------------------------------------------ unique ids

  /** `f"{candidate}_{suffix}"`. */
  function Augmented(c: string, n: nat): string { c + "_" + NatToString(n) }

  /** Different suffixes give different ids. */
  lemma AugmentedInjective(c: string, m: nat, n: nat)
    requires Augmented(c, m) == Augmented(c, n)
    ensures m == n
  {
    var p := c + "_";
    assert (p + NatToString(m))[|p|..] == NatToString(m);
    assert (p + NatToString(n))[|p|..] == NatToString(n);
    ParseNatToString(m);
    ParseNatToString(n);
  }

  /** The ids `candidate_2` .. `candidate_{n-1}`. */
  ghost function AugmentedBelow(c: string, n: nat): set<string>
  {
    set m | 2 <= m < n :: Augmented(c, m)
  }

  lemma {:induction false} AugmentedBelowSize(c: string, n: nat)
    requires n >= 2
    ensures |AugmentedBelow(c, n)| == n - 2
  {
    if n > 2 {
      AugmentedBelowSize(c, n - 1);
      assert AugmentedBelow(c, n) == AugmentedBelow(c, n - 1) + {Augmented(c, n - 1)};
      if Augmented(c, n - 1) in AugmentedBelow(c, n - 1) {
        var m :| 2 <= m < n - 1 && Augmented(c, m) == Augmented(c, n - 1);
        AugmentedInjective(c, m, n - 1);
      }
    } else {
      assert AugmentedBelow(c, n) == {};
    }
  }

  /** While every suffix below `n` is taken, `n` cannot exceed the number of used ids by more than one. */
  lemma TakenBound(c: string, used: set<string>, n: nat)
    requires n >= 2 && forall m :: 2 <= m < n ==> Augmented(c, m) in used
    ensures n - 2 <= |used|
  {
    var below := AugmentedBelow(c, n);
    AugmentedBelowSize(c, n);
    assert used == below + (used - below);
    assert below * (used - below) == {};
  }

  /** The least suffix from `n` on whose id is free. */
  function FirstFree(c: string, used: set<string>, n: nat): (r: nat)
    requires n >= 2 && forall m :: 2 <= m < n ==> Augmented(c, m) in used
    ensures n <= r && Augmented(c, r) !in used
    ensures forall m :: 2 <= m < r ==> Augmented(c, m) in used
    decreases |used| + 2 - n
  {
    if Augmented(c, n) !in used then n
    else
      TakenBound(c, used, n + 1);
      FirstFree(c, used, n + 1)
  }

  /**
   * What `_ensure_unique_id` returns: the candidate when it is free, else `candidate_N` for
   * the least `N >= 2` whose id is free.
   */
  function UniqueId(c: string, used: set<string>): (r: string)
    ensures r !in used
    ensures c !in used ==> r == c
    ensures c in used ==> r == Augmented(c, FirstFree(c, used, 2))
  {
    if c !in used then c else Augmented(c, FirstFree(c, used, 2))
  }

  /** The suffix chosen is the least free one. */
  lemma UniqueIdLeast(c: string, used: set<string>, m: nat)
    requires c in used && 2 <= m && Augmented(c, m) !in used
    ensures UniqueId(c, used) == Augmented(c, FirstFree(c, used, 2)) && FirstFree(c, used, 2) <= m
  {
  }

  /** `_ensure_unique_id`: the counting loop (its fingerprint argument is not used). */
  method EnsureUniqueId(candidate: string, used: set<string>) returns (id: string)
    ensures id == UniqueId(candidate, used)
  {
    if candidate !in used {
      return candidate;
    }
    var suffix := 2;
    while true
      invariant 2 <= suffix && forall m :: 2 <= m < suffix ==> Augmented(candidate, m) in used
      invariant FirstFree(candidate, used, 2) == FirstFree(candidate, used, suffix)
      decreases |used| + 2 - suffix
    {
      var augmented := candidate + "_" + NatToString(suffix);
      if augmented !in used {
        return augmented;
      }
      TakenBound(candidate, used, suffix + 1);
      suffix := suffix + 1;
    }
  }

  /** The second automation whose alias normalises to a taken id gets suffix `_2`. */
  lemma SecondKitchenLights()
    ensures UniqueId("kitchen_lights", {"kitchen_lights"}) == "kitchen_lights_2"
  {
    assert NatToString(2) == "2";
    assert Augmented("kitchen_lights", 2) == "kitchen_lights_2";
  }

  // ------------------------------------------------------------------ dashboard view paths

  /** The characters a sanitised view path is made of: `[a-z0-9_-]`. */
  predicate IsPathChar(c: char) { IsIdChar(c) || c == '-' || c == '_' }

  /** One character of `_sanitize_lovelace_path`'s join: kept (lower-cased) or turned into `-`. */
  function PathChar(c: char): (r: char)
    ensures IsPathChar(r)
  {
    if IsAlnumChar(c) || c == '-' || c == '_' then LowerChar(c) else '-'
  }

  /** The join over the characters. */
  function PathChars(s: string): (r: string)
    ensures |r| == |s| && forall i :: 0 <= i < |s| ==> r[i] == PathChar(s[i])
  {
    seq(|s|, i requires 0 <= i < |s| => PathChar(s[i]))
  }

  const DefaultView: string := "view"

  lemma DefaultViewSafe()
    ensures DefaultView != [] && DefaultView[0] != '-' && DefaultView[|DefaultView| - 1] != '-'
    ensures forall i :: 0 <= i < |DefaultView| ==> IsPathChar(DefaultView[i])
  {
    forall i | 0 <= i < |DefaultView| ensures IsPathChar(DefaultView[i]) {
      assert IsLowerChar(DefaultView[i]);
    }
  }

  /** A path of `[a-z0-9_-]` is its own join. */
  lemma PathCharsFixed(s: string)
    requires forall i :: 0 <= i < |s| ==> IsPathChar(s[i])
    ensures PathChars(s) == s
  {
    forall i | 0 <= i < |s| ensures PathChar(s[i]) == s[i] {
      assert IsPathChar(s[i]);
    }
  }

  /** `_sanitize_lovelace_path`. */
  function SanitizeLovelacePath(value: string): (r: string)
    ensures r != [] && r[0] != '-' && r[|r| - 1] != '-'
    ensures forall i :: 0 <= i < |r| ==> IsPathChar(r[i])
  {
    TrimDashes(PathChars(ReplaceChar(ReplaceChar(value, '/', "-"), ':', "-")))
  }

  /** `.strip("-") or "view"`. */
  function TrimDashes(mapped: string): (r: string)
    requires forall i :: 0 <= i < |mapped| ==> IsPathChar(mapped[i])
    ensures r != [] && r[0] != '-' && r[|r| - 1] != '-'
    ensures forall i :: 0 <= i < |r| ==> IsPathChar(r[i])
  {
    var cleaned := StripSet(mapped, {'-'});
    StripPathChars(mapped);
    DefaultViewSafe();
    if cleaned == [] then DefaultView else cleaned
  }

  lemma StripPathChars(s: string)
    requires forall i :: 0 <= i < |s| ==> IsPathChar(s[i])
    ensures forall i :: 0 <= i < |StripSet(s, {'-'})| ==> IsPathChar(StripSet(s, {'-'})[i])
  {
    var k := StripSetSlice(s, {'-'});
    var x := StripSet(s, {'-'});
    forall i | 0 <= i < |x| ensures IsPathChar(x[i]) { assert x[i] == s[k + i]; }
  }

  /** A path that is already sanitised is kept as it is. */
  lemma SanitizeFixed(x: string)
    requires x != [] && x[0] != '-' && x[|x| - 1] != '-'
    requires forall i :: 0 <= i < |x| ==> IsPathChar(x[i])
    ensures SanitizeLovelacePath(x) == x
  {
    NoSeparators(x);
    PathCharsFixed(x);
    StripSetUnchanged(x, {'-'});
  }

  lemma NoSeparators(x: string)
    requires forall i :: 0 <= i < |x| ==> IsPathChar(x[i])
    ensures ReplaceChar(ReplaceChar(x, '/', "-"), ':', "-") == x
  {
    assert '/' !in x && ':' !in x by {
      forall i | 0 <= i < |x| ensures x[i] != '/' && x[i] != ':' { assert IsPathChar(x[i]); }
    }
  }

  /** Sanitising a sanitised path changes nothing. */
  lemma SanitizeLovelaceIdempotent(value: string)
    ensures SanitizeLovelacePath(SanitizeLovelacePath(value)) == SanitizeLovelacePath(value)
  {
    SanitizeFixed(SanitizeLovelacePath(value));
  }
}
