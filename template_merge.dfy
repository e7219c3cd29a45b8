/**
 * Taking a domain-side edit back into a module item without losing its template includes
 * (yaml_modules.py `_merge_domain_value_preserving_templates`), recording the edits that
 * belong in a template file instead.
 */
module TemplateMerge {
  import opened Wrappers
  import opened Text
  import opened Yaml
  import opened YamlTags
  import opened Fingerprints

  /** Where a merge happens: the files, the module file holding the include, the domain file and line. */
  datatype MergeSite = MergeSite(fs: Fs, site: string, domainSite: string, domainLine: Option<int>)

  /** `TemplateEditCandidate`: a domain edit to content that came from one template file. */
  datatype EditCandidate = EditCandidate(
    templatePath: string,
    includeTag: string,
    includeSite: string,
    includeSiteLine: Option<int>,
    domainSite: string,
    domainLine: Option<int>,
    proposed: Value)

  /** A warning recorded while merging. */
  datatype MergeNote =
    | MergeTooDeep(site: string)
    | UndiffableEdit(tag: string, site: string, line: Option<int>)
    | ExpansionNote(w: Warning)

  function NoteMessage(n: MergeNote): string
  {
    match n
    case MergeTooDeep(site) => "Template merge exceeded max depth in " + site + "."
    case UndiffableEdit(tag, site, line) =>
      "Template-backed edit detected for " + tag + " in " + site + ":"
        + (if line.Some? && line.value != 0 then IntToString(line.value) else "?")
        + "; cannot generate a diff for glob/ambiguous includes."
    case ExpansionNote(w) => Message(w)
  }

  function Notes(ws: seq<Warning>): (r: seq<MergeNote>)
    ensures |r| == |ws| && forall i :: 0 <= i < |ws| ==> r[i] == ExpansionNote(ws[i])
  {
    seq(|ws|, i requires 0 <= i < |ws| => ExpansionNote(ws[i]))
  }

  /** The merged value with the warnings and the edit candidates recorded, in order. */
  type Merged = (Value, seq<MergeNote>, seq<EditCandidate>)

  const MaxMergeDepth := 50

  function MergeBudget(depth: nat): nat { if depth > MaxMergeDepth then 0 else MaxMergeDepth + 1 - depth }

  /**
   * A template-tagged module node: kept as it is. When its expansion differs from the domain
   * value, the domain value is proposed for the template file when the tag names exactly one
   * file, and a warning is recorded otherwise.
   */
  function TemplateNode(site: MergeSite, m: Value, d: Value): (r: Merged)
    requires m.Tagged? && IsTemplateTag(m.tag)
    ensures r.0 == m
    ensures var ex := Expand(site.fs, Some(m), site.site, true, false, 0);
      var cands := ResolveTemplateCandidates(site.fs, m.tag, site.site).0;
      (r.2 != [] <==> ex.0.Some? && !PyEq(ex.0.value, d) && |cands| == 1)
    ensures r.2 != [] ==>
      (|r.2| == 1 && r.2[0].proposed == d && r.2[0].includeTag == m.tag &&
       r.2[0].templatePath == ResolveTemplateCandidates(site.fs, m.tag, site.site).0[0])
    ensures var ex := Expand(site.fs, Some(m), site.site, true, false, 0);
      var cands := ResolveTemplateCandidates(site.fs, m.tag, site.site).0;
      (UndiffableEdit(m.tag, site.site, m.line) in r.1 <==> ex.0.Some? && !PyEq(ex.0.value, d) && |cands| != 1)
  {
    var ex := Expand(site.fs, Some(m), site.site, true, false, 0);
    var undiffable := UndiffableEdit(m.tag, site.site, m.line);
    if ex.0.None? then (m, EditNotes(ex.1, [], undiffable, false), [])
    else if PyEq(ex.0.value, d) then (m, EditNotes(ex.1, [], undiffable, false), [])
    else
      var found := ResolveTemplateCandidates(site.fs, m.tag, site.site);
      if |found.0| == 1 then
        (m, EditNotes(ex.1, found.1, undiffable, false),
         [EditCandidate(found.0[0], m.tag, site.site, m.line, site.domainSite, site.domainLine, d)])
      else
        (m, EditNotes(ex.1, found.1, undiffable, true), [])
  }

  /** The expansion and resolution warnings, followed by the undiffable-edit warning when `warn` holds. */
  function EditNotes(ws1: seq<Warning>, ws2: seq<Warning>, undiffable: MergeNote, warn: bool): (r: seq<MergeNote>)
    requires undiffable.UndiffableEdit?
    ensures undiffable in r <==> warn
    ensures r == Notes(ws1) + Notes(ws2) + (if warn then [undiffable] else [])
  {
    var base := Notes(ws1) + Notes(ws2);
    assert forall n :: n in base ==> n.ExpansionNote?;
    if warn then base + [undiffable] else base
  }

  /**
   * `_merge_domain_value_preserving_templates`: the domain value, except that template-tagged
   * module nodes are kept; dicts keep the module's key order for shared keys and follow with
   * the domain's new keys, lists merge position by position and take the domain's extra items.
   */
  function Merge(site: MergeSite, m: Value, d: Value, depth: nat): (r: Merged)
    ensures depth <= MaxMergeDepth && m.Tagged? && IsTemplateTag(m.tag) ==> r.0 == m
    ensures depth <= MaxMergeDepth && m.Map? && d.Map? ==>
      r.0.Map? && forall k :: HasKey(r.0.entries, k) <==> HasKey(d.entries, k)
    ensures depth <= MaxMergeDepth && m.Seq? && d.Seq? ==> r.0.Seq? && |r.0.items| == |d.items|
    ensures !(m.Tagged? && IsTemplateTag(m.tag)) && !(m.Map? && d.Map?) && !(m.Seq? && d.Seq?) ==> r.0 == d
    ensures depth > MaxMergeDepth ==> r == (d, [MergeTooDeep(site.site)], [])
    decreases MergeBudget(depth), 0, 0
  {
    if depth > MaxMergeDepth then (d, [MergeTooDeep(site.site)], [])
    else if m.Tagged? && IsTemplateTag(m.tag) then TemplateNode(site, m, d)
    else if m.Map? && d.Map? then
      var shared := MergeEntries(site, m.entries, d.entries, depth + 1);
      var added := Missing(m.entries, d.entries);
      HasKeyAppend(shared.0, added);
      (Map(shared.0 + added), shared.1, shared.2)
    else if m.Seq? && d.Seq? then
      var zipped := MergeItems(site, m.items, d.items, depth + 1);
      var extra := if |d.items| > |m.items| then d.items[|m.items|..] else [];
      (Seq(zipped.0 + extra), zipped.1, zipped.2)
    else (d, [], [])
  }

  /** The module's entries whose key the domain dict also has, each merged with the domain's value. */
  function MergeEntries(site: MergeSite, ms: seq<(string, Value)>, ds: seq<(string, Value)>, depth: nat)
    : (r: (seq<(string, Value)>, seq<MergeNote>, seq<EditCandidate>))
    requires depth <= MaxMergeDepth + 1
    ensures forall k :: HasKey(r.0, k) <==> HasKey(ms, k) && HasKey(ds, k)
    decreases MergeBudget(depth), 1, |ms|
  {
    if ms == [] then ([], [], [])
    else
      var rest := MergeEntries(site, ms[1..], ds, depth);
      var k := ms[0].0;
      HasKeyCons(ms);
      match Get(ds, k)
      case None => rest
      case Some(dv) =>
        var one := Merge(site, ms[0].1, dv, depth);
        HasKeyCons([(k, one.0)] + rest.0);
        ([(k, one.0)] + rest.0, one.1 + rest.1, one.2 + rest.2)
  }

  /** The domain's entries whose key the module dict lacks, in the domain's order. */
  function Missing(ms: seq<(string, Value)>, ds: seq<(string, Value)>): (r: seq<(string, Value)>)
    ensures forall k :: HasKey(r, k) <==> HasKey(ds, k) && !HasKey(ms, k)
    ensures forall e :: e in r <==> e in ds && !HasKey(ms, e.0)
  {
    if ds == [] then []
    else
      var rest := Missing(ms, ds[1..]);
      HasKeyCons(ds);
      assert forall e :: e in ds <==> e == ds[0] || e in ds[1..];
      if HasKey(ms, ds[0].0) then rest
      else
        HasKeyCons([ds[0]] + rest);
        [ds[0]] + rest
  }

  /** The list items at the positions both lists have, merged pairwise. */
  function MergeItems(site: MergeSite, ms: seq<Value>, ds: seq<Value>, depth: nat)
    : (r: (seq<Value>, seq<MergeNote>, seq<EditCandidate>))
    requires depth <= MaxMergeDepth + 1
    ensures |r.0| == if |ms| < |ds| then |ms| else |ds|
    decreases MergeBudget(depth), 1, |ms|
  {
    if ms == [] || ds == [] then ([], [], [])
    else
      var one := Merge(site, ms[0], ds[0], depth);
      var rest := MergeItems(site, ms[1..], ds[1..], depth);
      ([one.0] + rest.0, one.1 + rest.1, one.2 + rest.2)
  }

  lemma HasKeyAppend(a: seq<(string, Value)>, b: seq<(string, Value)>)
    ensures forall k :: HasKey(a + b, k) <==> HasKey(a, k) || HasKey(b, k)
  {
    forall k | HasKey(a + b, k) ensures HasKey(a, k) || HasKey(b, k) {
      var i :| 0 <= i < |a + b| && (a + b)[i].0 == k;
      if i >= |a| { assert b[i - |a|].0 == k; }
    }
    forall k | HasKey(a, k) ensures HasKey(a + b, k) {
      var i :| 0 <= i < |a| && a[i].0 == k;
      assert (a + b)[i].0 == k;
    }
    forall k | HasKey(b, k) ensures HasKey(a + b, k) {
      var i :| 0 <= i < |b| && b[i].0 == k;
      assert (a + b)[|a| + i].0 == k;
    }
  }

  lemma HasKeyCons(es: seq<(string, Value)>)
    requires es != []
    ensures forall k :: HasKey(es, k) <==> k == es[0].0 || HasKey(es[1..], k)
  {
    forall k | HasKey(es, k) ensures k == es[0].0 || HasKey(es[1..], k) {
      var i :| 0 <= i < |es| && es[i].0 == k;
      if i > 0 { assert es[1..][i - 1] == es[i]; }
    }
    forall k | HasKey(es[1..], k) ensures HasKey(es, k) {
      var i :| 0 <= i < |es[1..]| && es[1..][i].0 == k;
      assert es[i + 1].0 == k;
    }
  }

  // ------------------------------------------------------------------ merging without templates

  /**
   * A module value without template tags merges to the domain value: equal to it under
   * Python's `==` (dict order aside), with no edit proposed.
   */
  lemma {:induction false} MergeWithoutTemplates(site: MergeSite, m: Value, d: Value, depth: nat)
    requires !ContainsTemplateIncludes(m) && WellFormed(d)
    ensures PyEq(Merge(site, m, d, depth).0, d)
    ensures Merge(site, m, d, depth).2 == []
    decreases MergeBudget(depth), 0, 1
  {
    if depth > MaxMergeDepth || !((m.Map? && d.Map?) || (m.Seq? && d.Seq?)) {
      PyEqRefl(d);
    } else if m.Map? {
      MapsWithoutTemplates(site, m, d, depth);
    } else {
      ListsWithoutTemplates(site, m, d, depth);
    }
  }

  /** The dict case of `MergeWithoutTemplates`. */
  lemma {:induction false} MapsWithoutTemplates(site: MergeSite, m: Value, d: Value, depth: nat)
    requires depth <= MaxMergeDepth && m.Map? && d.Map?
    requires !ContainsTemplateIncludes(m) && WellFormed(d)
    ensures PyEq(Merge(site, m, d, depth).0, d)
    ensures Merge(site, m, d, depth).2 == []
    decreases MergeBudget(depth), 0, 0
  {
    EntriesWithoutTemplates(site, m.entries, d.entries, depth + 1);
    MissingAgrees(m.entries, d.entries);
    MapPyEq(Merge(site, m, d, depth).0.entries, d.entries,
            MergeEntries(site, m.entries, d.entries, depth + 1).0, Missing(m.entries, d.entries), m.entries);
  }

  /** The list case of `MergeWithoutTemplates`. */
  lemma {:induction false} ListsWithoutTemplates(site: MergeSite, m: Value, d: Value, depth: nat)
    requires depth <= MaxMergeDepth && m.Seq? && d.Seq?
    requires !ContainsTemplateIncludes(m) && WellFormed(d)
    ensures PyEq(Merge(site, m, d, depth).0, d)
    ensures Merge(site, m, d, depth).2 == []
    decreases MergeBudget(depth), 0, 0
  {
    ItemsWithoutTemplates(site, m.items, d.items, depth + 1);
    var zipped := MergeItems(site, m.items, d.items, depth + 1).0;
    var merged := Merge(site, m, d, depth).0.items;
    forall i | 0 <= i < |merged| ensures PyEq(merged[i], d.items[i]) {
      if i >= |zipped| {
        assert merged[i] == d.items[i];
        PyEqRefl(d.items[i]);
      }
    }
  }

  /** Every entry of `es` equals, under Python's `==`, the domain's value under the same key. */
  predicate EntriesAgree(es: seq<(string, Value)>, ds: seq<(string, Value)>)
  {
    forall i :: 0 <= i < |es| ==> Get(ds, es[i].0).Some? && PyEq(es[i].1, Get(ds, es[i].0).value)
  }

  /** Shared keys merge to values equal to the domain's; edits stay empty. */
  lemma {:induction false} EntriesWithoutTemplates(site: MergeSite, ms: seq<(string, Value)>, ds: seq<(string, Value)>, depth: nat)
    requires depth <= MaxMergeDepth + 1
    requires forall i :: 0 <= i < |ms| ==> !ContainsTemplateIncludes(ms[i].1)
    requires WellFormed(Map(ds))
    ensures MergeEntries(site, ms, ds, depth).2 == []
    ensures EntriesAgree(MergeEntries(site, ms, ds, depth).0, ds)
    decreases MergeBudget(depth), 1, |ms|
  {
    if ms != [] {
      EntriesWithoutTemplates(site, ms[1..], ds, depth);
      var k := ms[0].0;
      var rest := MergeEntries(site, ms[1..], ds, depth);
      var r := MergeEntries(site, ms, ds, depth);
      match Get(ds, k)
      case None =>
        assert r == rest;
      case Some(dv) =>
        var j :| 0 <= j < |ds| && ds[j] == (k, dv);
        assert WellFormed(dv);
        MergeWithoutTemplates(site, ms[0].1, dv, depth);
        var one := Merge(site, ms[0].1, dv, depth);
        assert r.0 == [(k, one.0)] + rest.0;
        assert r.2 == one.2 + rest.2;
        EntriesAgreeCons(k, one.0, rest.0, ds);
    }
  }

  /** An entry equal to the domain's value under its key extends entries that agree. */
  lemma EntriesAgreeCons(k: string, v: Value, rest: seq<(string, Value)>, ds: seq<(string, Value)>)
    requires Get(ds, k).Some? && PyEq(v, Get(ds, k).value) && EntriesAgree(rest, ds)
    ensures EntriesAgree([(k, v)] + rest, ds)
  {
    var es := [(k, v)] + rest;
    forall i | 0 <= i < |es| ensures Get(ds, es[i].0).Some? && PyEq(es[i].1, Get(ds, es[i].0).value) {
      if i > 0 { assert es[i] == rest[i - 1]; }
    }
  }

  /** Pairwise merges are equal to the domain's items; edits stay empty. */
  lemma {:induction false} ItemsWithoutTemplates(site: MergeSite, ms: seq<Value>, ds: seq<Value>, depth: nat)
    requires depth <= MaxMergeDepth + 1
    requires forall i :: 0 <= i < |ms| ==> !ContainsTemplateIncludes(ms[i])
    requires forall i :: 0 <= i < |ds| ==> WellFormed(ds[i])
    ensures var r := MergeItems(site, ms, ds, depth);
      r.2 == [] && forall i :: 0 <= i < |r.0| ==> PyEq(r.0[i], ds[i])
    decreases MergeBudget(depth), 1, |ms|
  {
    if ms != [] && ds != [] {
      MergeWithoutTemplates(site, ms[0], ds[0], depth);
      ItemsWithoutTemplates(site, ms[1..], ds[1..], depth);
    }
  }

  /** The entries the domain adds are its own, so each equals the domain's value under its key. */
  lemma MissingAgrees(ms: seq<(string, Value)>, ds: seq<(string, Value)>)
    requires WellFormed(Map(ds))
    ensures EntriesAgree(Missing(ms, ds), ds)
  {
    var a := Missing(ms, ds);
    forall i | 0 <= i < |a| ensures Get(ds, a[i].0).Some? && PyEq(a[i].1, Get(ds, a[i].0).value) {
      assert a[i] in ds;
      var j :| 0 <= j < |ds| && ds[j] == a[i];
      GetUnique(ds, j);
      PyEqRefl(ds[j].1);
    }
  }

  /** Shared entries followed by the added ones form a dict equal to the domain's. */
  lemma MapPyEq(merged: seq<(string, Value)>, ds: seq<(string, Value)>, shared: seq<(string, Value)>,
                added: seq<(string, Value)>, ms: seq<(string, Value)>)
    requires merged == shared + added
    requires forall k :: HasKey(shared, k) <==> HasKey(ms, k) && HasKey(ds, k)
    requires forall k :: HasKey(added, k) <==> HasKey(ds, k) && !HasKey(ms, k)
    requires EntriesAgree(shared, ds) && EntriesAgree(added, ds)
    ensures PyEq(Map(merged), Map(ds))
  {
    forall j | 0 <= j < |ds| ensures HasKey(merged, ds[j].0) {
      var k := ds[j].0;
      assert HasKey(ds, k);
      if HasKey(shared, k) {
        var i :| 0 <= i < |shared| && shared[i].0 == k;
        assert merged[i] == shared[i];
      } else {
        var i :| 0 <= i < |added| && added[i].0 == k;
        assert merged[|shared| + i] == added[i];
      }
    }
    forall i | 0 <= i < |merged| ensures Get(ds, merged[i].0).Some? && PyEq(merged[i].1, Get(ds, merged[i].0).value) {
      if i < |shared| { assert merged[i] == shared[i]; } else { assert merged[i] == added[i - |shared|]; }
    }
  }
}
