/**
 * The edits that touch template files, turned into `*.diff` proposals (yaml_modules.py
 * `_write_template_diffs`): grouped by template, refused when two edits disagree.
 */
module TemplateDiffs {
  import opened Wrappers
  import opened Text
  import opened Yaml
  import opened Fingerprints
  import opened TemplateMerge

  // ------------------------------------------------------------------ template diffs

  /** The edits proposed for template `p`, in the order they were recorded. */
  function EditsFor(edits: seq<EditCandidate>, p: string): (r: seq<EditCandidate>)
    ensures forall e :: e in r <==> e in edits && e.templatePath == p
  {
    if edits == [] then []
    else
      var n := |edits| - 1;
      assert forall e :: e in edits <==> e in edits[..n] || e == edits[n];
      EditsFor(edits[..n], p) + (if edits[n].templatePath == p then [edits[n]] else [])
  }

  predicate HasGroup(groups: seq<(string, seq<EditCandidate>)>, p: string)
  {
    exists i :: 0 <= i < |groups| && groups[i].0 == p
  }

  predicate DistinctGroups(groups: seq<(string, seq<EditCandidate>)>)
  {
    forall i, j :: 0 <= i < j < |groups| ==> groups[i].0 != groups[j].0
  }

  /** The position of the group for path `p`, if there is one. */
  function GroupIndex(groups: seq<(string, seq<EditCandidate>)>, p: string): (r: Option<nat>)
    ensures r.Some? ==> r.value < |groups| && groups[r.value].0 == p
    ensures r.None? <==> !HasGroup(groups, p)
  {
    if groups == [] then None
    else if groups[0].0 == p then Some(0)
    else
      var rest := GroupIndex(groups[1..], p);
      assert HasGroup(groups, p) ==> HasGroup(groups[1..], p) by {
        if HasGroup(groups, p) { var i :| 0 <= i < |groups| && groups[i].0 == p; assert groups[1..][i - 1].0 == p; }
      }
      if rest.Some? then Some(rest.value + 1) else None
  }

  /** What `by_template.setdefault(path, []).append(edit)` does with one more edit. */
  function AddEdit(groups: seq<(string, seq<EditCandidate>)>, e: EditCandidate): (r: seq<(string, seq<EditCandidate>)>)
  {
    match GroupIndex(groups, e.templatePath)
    case Some(i) => groups[i := (e.templatePath, groups[i].1 + [e])]
    case None => groups + [(e.templatePath, [e])]
  }

  /**
   * `by_template`: one group per template path, in the order the paths first occur, each
   * holding every edit for its path in order.
   */
  function GroupByTemplate(edits: seq<EditCandidate>): (r: seq<(string, seq<EditCandidate>)>)
    ensures DistinctGroups(r)
    ensures forall p :: HasGroup(r, p) <==> exists e :: e in edits && e.templatePath == p
    ensures forall i :: 0 <= i < |r| ==> r[i].1 == EditsFor(edits, r[i].0)
    ensures forall i :: 0 <= i < |r| ==> r[i].1 != []
  {
    if edits == [] then []
    else
      var n := |edits| - 1;
      var before := GroupByTemplate(edits[..n]);
      assert edits[..n] + [edits[n]] == edits;
      AddEditGroups(before, edits[..n], edits[n]);
      AddEditNonEmpty(before, edits[n]);
      AddEdit(before, edits[n])
  }

  lemma AddEditNonEmpty(groups: seq<(string, seq<EditCandidate>)>, e: EditCandidate)
    requires forall i :: 0 <= i < |groups| ==> groups[i].1 != []
    ensures var r := AddEdit(groups, e); forall i :: 0 <= i < |r| ==> r[i].1 != []
  {
  }

  lemma AddEditGroups(groups: seq<(string, seq<EditCandidate>)>, prefix: seq<EditCandidate>, e: EditCandidate)
    requires DistinctGroups(groups)
    requires forall p :: HasGroup(groups, p) <==> exists x :: x in prefix && x.templatePath == p
    requires forall i :: 0 <= i < |groups| ==> groups[i].1 == EditsFor(prefix, groups[i].0)
    ensures var r := AddEdit(groups, e);
      DistinctGroups(r) &&
      (forall p :: HasGroup(r, p) <==> HasGroup(groups, p) || p == e.templatePath) &&
      (forall i :: 0 <= i < |r| ==> r[i].1 == EditsFor(prefix + [e], r[i].0))
  {
    AddEditPaths(groups, e);
    if GroupIndex(groups, e.templatePath).Some? {
      AddEditExisting(groups, prefix, e);
    } else {
      AddEditNew(groups, prefix, e);
    }
  }

  /** Adding an edit keeps one group per path and adds its path. */
  lemma AddEditPaths(groups: seq<(string, seq<EditCandidate>)>, e: EditCandidate)
    requires DistinctGroups(groups)
    ensures var r := AddEdit(groups, e);
      DistinctGroups(r) && forall p :: HasGroup(r, p) <==> HasGroup(groups, p) || p == e.templatePath
  {
    var r := AddEdit(groups, e);
    forall p ensures HasGroup(r, p) <==> HasGroup(groups, p) || p == e.templatePath {
      if HasGroup(groups, p) { var i :| 0 <= i < |groups| && groups[i].0 == p; assert r[i].0 == p; }
      if HasGroup(r, p) && p != e.templatePath { var i :| 0 <= i < |r| && r[i].0 == p; assert groups[i].0 == p; }
      if GroupIndex(groups, e.templatePath).None? { assert r[|groups|].0 == e.templatePath; }
    }
  }

  /** An edit for a path that already has a group is appended to that group only. */
  lemma AddEditExisting(groups: seq<(string, seq<EditCandidate>)>, prefix: seq<EditCandidate>, e: EditCandidate)
    requires DistinctGroups(groups)
    requires GroupIndex(groups, e.templatePath).Some?
    requires forall i :: 0 <= i < |groups| ==> groups[i].1 == EditsFor(prefix, groups[i].0)
    ensures var r := AddEdit(groups, e);
      forall i :: 0 <= i < |r| ==> r[i].1 == EditsFor(prefix + [e], r[i].0)
  {
    var whole := prefix + [e];
    assert whole[..|prefix|] == prefix;
    var r := AddEdit(groups, e);
    var k := GroupIndex(groups, e.templatePath).value;
    forall i | 0 <= i < |r| ensures r[i].1 == EditsFor(whole, r[i].0) {
      if i != k { EditsForOther(prefix, e, r[i].0); }
    }
  }

  /** An edit for a new path opens a group of its own at the end. */
  lemma AddEditNew(groups: seq<(string, seq<EditCandidate>)>, prefix: seq<EditCandidate>, e: EditCandidate)
    requires GroupIndex(groups, e.templatePath).None?
    requires forall p :: HasGroup(groups, p) <==> exists x :: x in prefix && x.templatePath == p
    requires forall i :: 0 <= i < |groups| ==> groups[i].1 == EditsFor(prefix, groups[i].0)
    ensures var r := AddEdit(groups, e);
      forall i :: 0 <= i < |r| ==> r[i].1 == EditsFor(prefix + [e], r[i].0)
  {
    var whole := prefix + [e];
    assert whole[..|prefix|] == prefix;
    var r := AddEdit(groups, e);
    EditsForNone(prefix, e.templatePath);
    forall i | 0 <= i < |groups| ensures r[i].1 == EditsFor(whole, r[i].0) {
      EditsForOther(prefix, e, r[i].0);
    }
  }

  lemma {:induction false} EditsForNone(prefix: seq<EditCandidate>, p: string)
    requires forall x :: x in prefix ==> x.templatePath != p
    ensures EditsFor(prefix, p) == []
  {
    if prefix != [] {
      var n := |prefix| - 1;
      assert forall x :: x in prefix[..n] ==> x in prefix;
      EditsForNone(prefix[..n], p);
    }
  }

  lemma EditsForOther(prefix: seq<EditCandidate>, e: EditCandidate, p: string)
    requires e.templatePath != p
    ensures EditsFor(prefix + [e], p) == EditsFor(prefix, p)
  {
    assert (prefix + [e])[..|prefix|] == prefix;
  }

  /** The grouping loop of `_write_template_diffs`. */
  method GroupEdits(edits: seq<EditCandidate>) returns (groups: seq<(string, seq<EditCandidate>)>)
    ensures groups == GroupByTemplate(edits)
  {
    groups := [];
    for i := 0 to |edits|
      invariant groups == GroupByTemplate(edits[..i])
    {
      assert edits[..i + 1][..i] == edits[..i];
      groups := AddEdit(groups, edits[i]);
    }
    assert edits[..|edits|] == edits;
  }

  /** `_fingerprint(candidate.proposed_value, set())`: a proposal's fingerprint, nothing excluded. */
  function ProposedFp(h: Value -> string, c: EditCandidate): string
  {
    Fingerprint(h, c.proposed, {})
  }

  /**
   * `proposed_by_fp`: one entry per distinct fingerprint of the proposals, in first-seen order,
   * the first entry holding the first proposal.
   */
  function ProposedByFp(h: Value -> string, cands: seq<EditCandidate>): (r: seq<(string, Value)>)
    ensures forall i, j :: 0 <= i < j < |r| ==> r[i].0 != r[j].0
    ensures forall k :: HasKey(r, k) <==> exists j :: 0 <= j < |cands| && ProposedFp(h, cands[j]) == k
    ensures cands != [] ==> r != [] && r[0] == (ProposedFp(h, cands[0]), cands[0].proposed)
  {
    if cands == [] then []
    else
      var n := |cands| - 1;
      var before := ProposedByFp(h, cands[..n]);
      var fp := ProposedFp(h, cands[n]);
      assert forall j :: 0 <= j < n ==> cands[..n][j] == cands[j];
      if HasKey(before, fp) then before
      else
        HasKeyAppend(before, [(fp, cands[n].proposed)]);
        HasKeySingle(fp, cands[n].proposed);
        before + [(fp, cands[n].proposed)]
  }

  lemma HasKeySingle(k: string, v: Value)
    ensures forall x :: HasKey([(k, v)], x) <==> x == k
  {
    assert [(k, v)][0].0 == k;
  }

  /** Every edit for a template proposes content with the same fingerprint. */
  predicate Agreeing(h: Value -> string, cands: seq<EditCandidate>)
  {
    forall i, j :: 0 <= i < |cands| && 0 <= j < |cands| ==> ProposedFp(h, cands[i]) == ProposedFp(h, cands[j])
  }

  /** The conflict rule: more than one fingerprint exactly when two edits disagree. */
  lemma ConflictIff(h: Value -> string, cands: seq<EditCandidate>)
    ensures |ProposedByFp(h, cands)| > 1 <==> !Agreeing(h, cands)
  {
    var r := ProposedByFp(h, cands);
    if |r| > 1 {
      assert HasKey(r, r[0].0) && HasKey(r, r[1].0);
      var a :| 0 <= a < |cands| && ProposedFp(h, cands[a]) == r[0].0;
      var b :| 0 <= b < |cands| && ProposedFp(h, cands[b]) == r[1].0;
      assert ProposedFp(h, cands[a]) != ProposedFp(h, cands[b]);
    }
    if !Agreeing(h, cands) {
      var i, j :| 0 <= i < |cands| && 0 <= j < |cands| && ProposedFp(h, cands[i]) != ProposedFp(h, cands[j]);
      assert HasKey(r, ProposedFp(h, cands[i])) && HasKey(r, ProposedFp(h, cands[j]));
      var a :| 0 <= a < |r| && r[a].0 == ProposedFp(h, cands[i]);
      var b :| 0 <= b < |r| && r[b].0 == ProposedFp(h, cands[j]);
      assert a != b;
    }
  }

  /** `f"{site}:{line}" if line else site`. */
  function Loc(site: string, line: Option<int>): string
  {
    if line.Some? && line.value != 0 then site + ":" + IntToString(line.value) else site
  }

  function EditedLine(c: EditCandidate): string
  {
    "# Edited in " + Loc(c.domainSite, c.domainLine)
  }

  function IncludedLine(c: EditCandidate): string
  {
    "# Included from " + Loc(c.includeSite, c.includeSiteLine) + " (" + c.includeTag + ")"
  }

  function TitleLine(rel: string): string
  {
    "# TEMPLATE EDIT DETECTED for " + rel
  }

  /** The two header lines of each edit, in order. */
  function CandidateLines(cands: seq<EditCandidate>): (r: seq<string>)
    ensures forall c :: c in cands ==> EditedLine(c) in r && IncludedLine(c) in r
    ensures forall x :: x in r ==> exists c :: c in cands && (x == EditedLine(c) || x == IncludedLine(c))
  {
    if cands == [] then []
    else
      assert forall c :: c in cands <==> c == cands[0] || c in cands[1..];
      [EditedLine(cands[0]), IncludedLine(cands[0])] + CandidateLines(cands[1..])
  }

  /**
   * The header lines of a diff file, each once (`dict.fromkeys`): the title first, then where
   * each edit was made and which include it came through.
   */
  function HeaderLines(rel: string, cands: seq<EditCandidate>): (r: seq<string>)
    ensures NoDuplicates(r) && r != [] && r[0] == TitleLine(rel)
    ensures forall c :: c in cands ==> EditedLine(c) in r && IncludedLine(c) in r
    ensures forall x :: x in r ==> x == TitleLine(rel) || exists c :: c in cands && (x == EditedLine(c) || x == IncludedLine(c))
  {
    var lines := [TitleLine(rel)] + CandidateLines(cands);
    DedupFirst(lines);
    Dedup(lines)
  }

  /** What one template's group of edits leads to. */
  datatype DiffOutcome =
    | ConflictingEdits(rel: string)
    | NoDiff
    | DiffFile(path: string, content: string)

  function ConflictMessage(rel: string): string
  {
    "Conflicting template edits detected for " + rel + "; wrote no diff file."
  }

  /**
   * One iteration of the per-template loop of `_write_template_diffs`. `diffOf(rel, v)` stands
   * for reading the template, dumping `v` and diffing the two texts.
   */
  function TemplateDiff(h: Value -> string, diffOf: (string, Value) -> string, rel: string,
                        cands: seq<EditCandidate>): (r: DiffOutcome)
    requires cands != []
    ensures r.ConflictingEdits? <==> !Agreeing(h, cands)
    ensures r.ConflictingEdits? ==> r.rel == rel
    ensures r.NoDiff? <==> Agreeing(h, cands) && IsBlank(diffOf(rel, cands[0].proposed))
    ensures r.DiffFile? ==>
      r.path == rel + ".diff" && !IsBlank(diffOf(rel, cands[0].proposed)) &&
      StartsWith(r.content, TitleLine(rel)) && EndsWith(r.content, diffOf(rel, cands[0].proposed))
  {
    var byFp := ProposedByFp(h, cands);
    ConflictIff(h, cands);
    if |byFp| > 1 then ConflictingEdits(rel)
    else
      var diff := diffOf(rel, byFp[0].1);
      if IsBlank(diff) then NoDiff
      else DiffFile(rel + ".diff", DiffText(rel, cands, diff))
  }

  /** The header lines joined, a blank line, then the diff itself. */
  function DiffText(rel: string, cands: seq<EditCandidate>, diff: string): (r: string)
    ensures StartsWith(r, TitleLine(rel)) && EndsWith(r, diff)
  {
    var lines := HeaderLines(rel, cands);
    JoinFirst(lines, "\n");
    var content := Join(lines, "\n") + "\n\n" + diff;
    assert content[|content| - |diff|..] == diff;
    assert content[..|lines[0]|] == Join(lines, "\n")[..|lines[0]|];
    content
  }

  /** The outcome of each template's group, in order. */
  function Outcomes(h: Value -> string, diffOf: (string, Value) -> string, groups: seq<(string, seq<EditCandidate>)>)
    : (r: seq<DiffOutcome>)
    requires forall i :: 0 <= i < |groups| ==> groups[i].1 != []
    ensures |r| == |groups|
    ensures forall i :: 0 <= i < |groups| ==> r[i] == TemplateDiff(h, diffOf, groups[i].0, groups[i].1)
  {
    seq(|groups|, i requires 0 <= i < |groups| => TemplateDiff(h, diffOf, groups[i].0, groups[i].1))
  }

  /** The outcome for one more group extends the run by at most one file or one warning. */
  function Extend(run: (seq<(string, string)>, seq<string>), outcome: DiffOutcome): (seq<(string, string)>, seq<string>)
  {
    match outcome
    case ConflictingEdits(rel) => (run.0, run.1 + [ConflictMessage(rel)])
    case NoDiff => run
    case DiffFile(path, content) => (run.0 + [(path, content)], run.1)
  }

  /**
   * The files written and the warnings given for a sequence of outcomes: a file for each
   * `DiffFile`, a warning for each conflict, in order.
   */
  function Collect(os: seq<DiffOutcome>): (r: (seq<(string, string)>, seq<string>))
    ensures forall f :: f in r.0 <==> DiffFile(f.0, f.1) in os
    ensures forall w :: w in r.1 <==> exists i :: 0 <= i < |os| && os[i].ConflictingEdits? && w == ConflictMessage(os[i].rel)
  {
    if os == [] then ([], [])
    else
      var n := |os| - 1;
      var before := Collect(os[..n]);
      assert os == os[..n] + [os[n]];
      assert forall i :: 0 <= i < n ==> os[..n][i] == os[i];
      Extend(before, os[n])
  }

  lemma CollectStep(os: seq<DiffOutcome>, i: nat)
    requires i < |os|
    ensures Collect(os[..i + 1]) == Extend(Collect(os[..i]), os[i])
  {
    assert os[..i + 1][..i] == os[..i];
  }

  /** A template whose edits disagree gets a conflict warning. */
  lemma ConflictWarned(h: Value -> string, diffOf: (string, Value) -> string,
                       groups: seq<(string, seq<EditCandidate>)>, i: nat)
    requires forall j :: 0 <= j < |groups| ==> groups[j].1 != []
    requires i < |groups| && !Agreeing(h, groups[i].1)
    ensures ConflictMessage(groups[i].0) in Collect(Outcomes(h, diffOf, groups)).1
  {
    var os := Outcomes(h, diffOf, groups);
    assert os[i].ConflictingEdits? && os[i].rel == groups[i].0;
  }

  /** A template whose edits agree and whose diff is not blank gets its diff file. */
  lemma AgreedWritten(h: Value -> string, diffOf: (string, Value) -> string,
                      groups: seq<(string, seq<EditCandidate>)>, i: nat)
    requires forall j :: 0 <= j < |groups| ==> groups[j].1 != []
    requires i < |groups| && Agreeing(h, groups[i].1)
    requires !IsBlank(diffOf(groups[i].0, groups[i].1[0].proposed))
    ensures exists c :: ((groups[i].0 + ".diff", c) in Collect(Outcomes(h, diffOf, groups)).0 &&
                         EndsWith(c, diffOf(groups[i].0, groups[i].1[0].proposed)))
  {
    var os := Outcomes(h, diffOf, groups);
    CollectHas(os, i);
  }

  lemma CollectHas(os: seq<DiffOutcome>, i: nat)
    requires i < |os| && os[i].DiffFile?
    ensures (os[i].path, os[i].content) in Collect(os).0
  {
    assert os[i] in os;
  }

  /** Every diff file written belongs to a template whose edits agree. */
  lemma WrittenAgreed(h: Value -> string, diffOf: (string, Value) -> string,
                      groups: seq<(string, seq<EditCandidate>)>, f: (string, string))
    requires forall j :: 0 <= j < |groups| ==> groups[j].1 != []
    requires f in Collect(Outcomes(h, diffOf, groups)).0
    ensures exists i :: 0 <= i < |groups| && f.0 == groups[i].0 + ".diff" && Agreeing(h, groups[i].1)
  {
    var os := Outcomes(h, diffOf, groups);
    assert DiffFile(f.0, f.1) in os;
    var i :| 0 <= i < |os| && os[i] == DiffFile(f.0, f.1);
  }

  /**
   * `_write_template_diffs` without the file system: the diff files to write and the conflict
   * warnings, template by template in the order the templates were first edited.
   */
  method WriteTemplateDiffs(h: Value -> string, diffOf: (string, Value) -> string, edits: seq<EditCandidate>)
    returns (files: seq<(string, string)>, warnings: seq<string>)
    ensures (files, warnings) == Collect(Outcomes(h, diffOf, GroupByTemplate(edits)))
  {
    var groups := GroupEdits(edits);
    ghost var os := Outcomes(h, diffOf, groups);
    files, warnings := [], [];
    for i := 0 to |groups|
      invariant (files, warnings) == Collect(os[..i])
    {
      CollectStep(os, i);
      var outcome := TemplateDiff(h, diffOf, groups[i].0, groups[i].1);
      match outcome
      case ConflictingEdits(rel) => warnings := warnings + [ConflictMessage(rel)];
      case NoDiff =>
      case DiffFile(path, content) => files := files + [(path, content)];
    }
    assert os[..|groups|] == os;
  }
}
