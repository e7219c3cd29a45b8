/**
 * git_ops.py: the parsers the bridge applies to captured `git` output (none of the git
 * commands themselves), the diff truncation, the repository-relative path check and the
 * merge step of `git_list_files`. Output text and exit codes are parameters.
 */
module GitOps {
  import opened Wrappers
  import opened Text
  import opened Paths
  import Yaml

  // ------------------------------------------------------------------ normalize_repo_path

  /**
   * `normalize_repo_path`: `root` is the resolved configuration directory as absolute
   * segments. A blank or non-string path is "Path required"; an absolute path, one with a
   * `..` part or one resolving outside the root is "Invalid path".
   */
  function NormalizeRepoPath(root: seq<string>, path: Yaml.Value): (r: Result<string>)
    ensures r.Ok? ==> path.Str? && !IsBlank(path.s) && !IsAbsolute(path.s) && !HasParentRef(path.s)
    ensures !Yaml.IsNonBlankStr(path) ==> r == Err("Path required")
  {
    if !Yaml.IsNonBlankStr(path) then Err("Path required")
    else if IsAbsolute(path.s) || HasParentRef(path.s) then Err("Invalid path")
    else match RelativeTo(Resolve(root, [], path.s), root)
      case None => Err("Invalid path")
      case Some(rel) => Ok(Posix(rel))
  }

  /**
   * Below a resolved root (no `..` in it) the escape check never fires: a path is accepted
   * exactly when it is a non-blank relative string without `..`, and comes back as its own
   * parts joined with `/`.
   */
  lemma NormalizeRepoPathAccepts(root: seq<string>, path: Yaml.Value)
    requires ".." !in root
    ensures NormalizeRepoPath(root, path).Ok? <==>
      Yaml.IsNonBlankStr(path) && !IsAbsolute(path.s) && !HasParentRef(path.s)
    ensures NormalizeRepoPath(root, path).Ok? ==> NormalizeRepoPath(root, path).value == Posix(Parts(path.s))
  {
    if Yaml.IsNonBlankStr(path) && !IsAbsolute(path.s) && !HasParentRef(path.s) {
      StaysInside(root, [], path.s);
      assert [] + Parts(path.s) == Parts(path.s);
    }
  }

  // ------------------------------------------------------------------ _parse_status_entries

  /** One entry of `git status`: the two status letters and the flags read from them. */
  datatype Change = Change(
    status: string, path: string,
    staged: bool, unstaged: bool, untracked: bool, ignored: bool,
    isDir: bool, renameFrom: Option<string>)

  /** `entry[:2]`. */
  function StatusField(entry: string): (r: string)
    ensures |r| == if |entry| < 2 then |entry| else 2
  {
    if |entry| < 2 then entry else entry[..2]
  }

  /** `entry[3:] if len(entry) > 3 else ""`. */
  function PathField(entry: string): string
  {
    if |entry| > 3 then entry[3..] else ""
  }

  /**
   * The change for one record. `!!` is ignored and `??` untracked, neither staged nor
   * unstaged; otherwise X and Y are staged and unstaged unless blank or `?`. A status of one
   * letter has no Y: reading it is Python's IndexError. A trailing `/` marks a directory and
   * is removed.
   */
  function MakeChange(status: string, path: string, renameFrom: Option<string>): (r: Result<Change>)
    requires status != []
    ensures r.Err? <==> |status| < 2
    ensures r.Ok? ==> r.value.status == status && r.value.renameFrom == renameFrom
    ensures r.Ok? ==> (r.value.ignored <==> status == "!!") && (r.value.untracked <==> status == "??")
    ensures r.Ok? && (r.value.ignored || r.value.untracked) ==> !r.value.staged && !r.value.unstaged
    ensures r.Ok? && !r.value.ignored && !r.value.untracked ==>
      (r.value.staged <==> status[0] !in {' ', '?'}) && (r.value.unstaged <==> status[1] !in {' ', '?'})
    ensures r.Ok? ==> (r.value.isDir <==> EndsWith(path, "/"))
    ensures r.Ok? ==> !EndsWith(r.value.path, "/") && r.value.path == StripRight(path, {'/'})
  {
    var isDir := EndsWith(path, "/");
    var p := if isDir then StripRight(path, {'/'}) else path;
    assert !isDir ==> StripRight(path, {'/'}) == path;
    var ignored := status == "!!";
    var untracked := status == "??";
    if !ignored && !untracked && |status| < 2 then Err("string index out of range")
    else
      var staged := !ignored && !untracked && status[0] !in {' ', '?'};
      var unstaged := !ignored && !untracked && status[1] !in {' ', '?'};
      Ok(Change(status, p, staged, unstaged, untracked, ignored, isDir, renameFrom))
  }

  /** A change followed by the rest of the changes; the first error wins. */
  function Cons(c: Result<Change>, rest: Result<seq<Change>>): (r: Result<seq<Change>>)
    ensures r.Ok? <==> c.Ok? && rest.Ok?
    ensures r.Ok? ==> r.value == [c.value] + rest.value
  {
    if c.Err? then Err(c.error)
    else if rest.Err? then rest
    else Ok([c.value] + rest.value)
  }

  /** Changes already collected, in front of what the remaining records give. */
  function Prepend(done: seq<Change>, rest: Result<seq<Change>>): (r: Result<seq<Change>>)
    ensures r.Ok? <==> rest.Ok?
    ensures r.Ok? ==> r.value == done + rest.value
  {
    if rest.Ok? then Ok(done + rest.value) else rest
  }

  /**
   * The changes of the NUL-separated records of `git status --porcelain=v1 -z`. Empty records
   * are skipped; a rename or copy record (`R`/`C`) takes the next record as its new path,
   * and parsing stops when no record follows.
   */
  function StatusOf(entries: seq<string>): (r: Result<seq<Change>>)
    ensures r.Ok? ==> |r.value| <= |entries|
    decreases |entries|
  {
    if entries == [] then Ok([])
    else
      var entry := entries[0];
      if entry == [] then StatusOf(entries[1..])
      else
        var status := StatusField(entry);
        if status[0] in {'R', 'C'} then
          if |entries| == 1 then Ok([])
          else Cons(MakeChange(status, entries[1], Some(PathField(entry))), StatusOf(entries[2..]))
        else Cons(MakeChange(status, PathField(entry), None), StatusOf(entries[1..]))
  }

  /** `_parse_status_entries`: the index-advancing loop over the records. */
  method ParseStatusEntries(output: string) returns (r: Result<seq<Change>>)
    ensures r == StatusOf(Split(output, '\0'))
  {
    var entries := Split(output, '\0');
    var changes: seq<Change> := [];
    var idx := 0;
    assert entries[0..] == entries;
    PrependNothing(StatusOf(entries));
    while idx < |entries|
      invariant 0 <= idx <= |entries|
      invariant StatusOf(entries) == Prepend(changes, StatusOf(entries[idx..]))
      decreases |entries| - idx
    {
      var entry := entries[idx];
      if entry == [] {
        StatusSkip(entries, idx);
        idx := idx + 1;
        continue;
      }
      var status := StatusField(entry);
      var path := PathField(entry);
      var renameFrom: Option<string> := None;
      var start := idx;
      if status[0] in {'R', 'C'} {
        renameFrom := Some(path);
        idx := idx + 1;
        if idx >= |entries| {
          StatusRenameLast(entries, start);
          PrependEnd(changes);
          return Ok(changes);
        }
        path := entries[idx];
        StatusRenameStep(entries, start);
      } else {
        StatusPlainStep(entries, start);
      }
      var c := MakeChange(status, path, renameFrom);
      if c.Err? {
        return Err(c.error);
      }
      PrependCons(changes, c.value, StatusOf(entries[idx + 1..]));
      changes := changes + [c.value];
      idx := idx + 1;
    }
    assert entries[idx..] == [];
    PrependEnd(changes);
    r := Ok(changes);
  }

  lemma StatusSkip(entries: seq<string>, idx: nat)
    requires idx < |entries| && entries[idx] == []
    ensures StatusOf(entries[idx..]) == StatusOf(entries[idx + 1..])
  {
    assert entries[idx..][1..] == entries[idx + 1..];
  }

  lemma StatusPlainStep(entries: seq<string>, idx: nat)
    requires idx < |entries| && entries[idx] != [] && StatusField(entries[idx])[0] !in {'R', 'C'}
    ensures StatusOf(entries[idx..]) ==
      Cons(MakeChange(StatusField(entries[idx]), PathField(entries[idx]), None), StatusOf(entries[idx + 1..]))
  {
    assert entries[idx..][1..] == entries[idx + 1..];
  }

  lemma StatusRenameStep(entries: seq<string>, idx: nat)
    requires idx + 1 < |entries| && entries[idx] != [] && StatusField(entries[idx])[0] in {'R', 'C'}
    ensures StatusOf(entries[idx..]) ==
      Cons(MakeChange(StatusField(entries[idx]), entries[idx + 1], Some(PathField(entries[idx]))),
           StatusOf(entries[idx + 2..]))
  {
    assert entries[idx..][1] == entries[idx + 1];
    assert entries[idx..][2..] == entries[idx + 2..];
  }

  lemma StatusRenameLast(entries: seq<string>, idx: nat)
    requires idx + 1 == |entries| && entries[idx] != [] && StatusField(entries[idx])[0] in {'R', 'C'}
    ensures StatusOf(entries[idx..]) == Ok([])
  {
    assert entries[idx..] == [entries[idx]];
  }

  lemma PrependNothing(rest: Result<seq<Change>>)
    ensures Prepend([], rest) == rest
  {
    if rest.Ok? {
      assert [] + rest.value == rest.value;
    }
  }

  lemma PrependEnd(done: seq<Change>)
    ensures Prepend(done, Ok([])) == Ok(done)
  {
    assert done + [] == done;
  }

  lemma PrependCons(done: seq<Change>, c: Change, rest: Result<seq<Change>>)
    ensures Prepend(done, Cons(Ok(c), rest)) == Prepend(done + [c], rest)
  {
    if rest.Ok? {
      assert done + ([c] + rest.value) == (done + [c]) + rest.value;
    }
  }

  /** The non-empty records, in order. */
  function NonEmpty(entries: seq<string>): (r: seq<string>)
    ensures forall i :: 0 <= i < |r| ==> r[i] != []
    ensures |r| <= |entries|
  {
    if entries == [] then []
    else if entries[0] == [] then NonEmpty(entries[1..])
    else [entries[0]] + NonEmpty(entries[1..])
  }

  /** A record with a full status that is not a rename or copy. */
  predicate PlainRecord(entry: string)
  {
    entry == [] || (|entry| >= 2 && entry[0] !in {'R', 'C'})
  }

  /**
   * Without renames, every non-empty record gives exactly one change, in order, with the
   * record's first two characters as status and the text from index 3 as the path.
   */
  lemma {:induction false} StatusPlainRecords(entries: seq<string>)
    requires forall i :: 0 <= i < |entries| ==> PlainRecord(entries[i])
    ensures StatusOf(entries).Ok?
    ensures |StatusOf(entries).value| == |NonEmpty(entries)|
    ensures forall i :: 0 <= i < |NonEmpty(entries)| ==>
      Ok(StatusOf(entries).value[i]) ==
        MakeChange(StatusField(NonEmpty(entries)[i]), PathField(NonEmpty(entries)[i]), None)
    decreases |entries|
  {
    if entries != [] {
      var rest := entries[1..];
      assert forall i :: 0 <= i < |rest| ==> PlainRecord(rest[i]) by {
        assert forall i :: 0 <= i < |rest| ==> rest[i] == entries[i + 1];
      }
      StatusPlainRecords(rest);
      if entries[0] != [] {
        PlainHead(entries);
      }
    }
  }

  /** The induction step of `StatusPlainRecords` for a non-empty first record. */
  lemma PlainHead(entries: seq<string>)
    requires entries != [] && entries[0] != [] && PlainRecord(entries[0])
    requires StatusOf(entries[1..]).Ok?
    requires |StatusOf(entries[1..]).value| == |NonEmpty(entries[1..])|
    requires forall i :: 0 <= i < |NonEmpty(entries[1..])| ==>
      Ok(StatusOf(entries[1..]).value[i]) ==
        MakeChange(StatusField(NonEmpty(entries[1..])[i]), PathField(NonEmpty(entries[1..])[i]), None)
    ensures StatusOf(entries).Ok?
    ensures |StatusOf(entries).value| == |NonEmpty(entries)|
    ensures forall i :: 0 <= i < |NonEmpty(entries)| ==>
      Ok(StatusOf(entries).value[i]) ==
        MakeChange(StatusField(NonEmpty(entries)[i]), PathField(NonEmpty(entries)[i]), None)
  {
    var e := entries[0];
    var c := MakeChange(StatusField(e), PathField(e), None);
    assert StatusOf(entries) == Cons(c, StatusOf(entries[1..]));
    var ne := NonEmpty(entries);
    assert ne == [e] + NonEmpty(entries[1..]);
  }

  /**
   * A rename or copy record followed by a record: one change whose path is the following
   * record (trailing `/` removed) and whose `rename_from` is the record's own path text; the
   * records after the pair are parsed as usual.
   */
  lemma StatusRename(e: string, p: string, rest: seq<string>)
    requires |e| >= 2 && e[0] in {'R', 'C'}
    ensures StatusOf([e, p] + rest).Ok? <==> StatusOf(rest).Ok?
    ensures StatusOf([e, p] + rest).Ok? ==>
      var cs := StatusOf([e, p] + rest).value;
      cs != [] && cs[0].status == e[..2] && cs[0].path == StripRight(p, {'/'}) &&
      cs[0].renameFrom == Some(PathField(e)) && cs[1..] == StatusOf(rest).value
  {
    var entries := [e, p] + rest;
    assert entries[0] == e && entries[1] == p && entries[2..] == rest;
  }

  /** A rename or copy record as the last record ends parsing with nothing more. */
  lemma StatusRenameAtEnd(done: seq<string>, e: string)
    requires e != [] && e[0] in {'R', 'C'}
    requires forall i :: 0 <= i < |done| ==> done[i] == []
    ensures StatusOf(done + [e]) == Ok([])
    decreases |done|
  {
    if done != [] {
      assert (done + [e])[1..] == done[1..] + [e];
      StatusRenameAtEnd(done[1..], e);
    } else {
      assert done + [e] == [e];
    }
  }

  /** A one-letter status other than a rename has no second letter to read: the parse fails. */
  lemma StatusShortRecordFails(e: string, rest: seq<string>)
    requires |e| == 1 && e[0] !in {'R', 'C'}
    ensures StatusOf([e] + rest).Err?
  {
    assert ([e] + rest)[1..] == rest;
  }

  // ------------------------------------------------------------------ _truncate_diff

  /**
   * `_truncate_diff`: `(diff, truncated, total_lines)`. Without a positive limit the diff is
   * returned whole with its newline count; otherwise, when it has more lines than the limit,
   * the first `max_lines` lines joined by newlines plus a final newline.
   */
  function TruncateDiff(diff: string, maxLines: Option<int>): (r: (string, bool, int))
    ensures !r.1 ==> r.0 == diff
    ensures r.1 <==> maxLines.Some? && 0 < maxLines.value < |SplitLines(diff)|
    ensures maxLines.None? || maxLines.value <= 0 ==> r.2 == Count(diff, '\n')
    ensures maxLines.Some? && maxLines.value > 0 ==> r.2 == |SplitLines(diff)|
  {
    if maxLines.None? || maxLines.value <= 0 then (diff, false, Count(diff, '\n'))
    else
      var lines := SplitLines(diff);
      if |lines| <= maxLines.value then (diff, false, |lines|)
      else (Join(lines[..maxLines.value], "\n") + "\n", true, |lines|)
  }

  /** A truncated diff is exactly the first `max_lines` lines of the diff. */
  lemma TruncateKeepsFirstLines(diff: string, m: int)
    requires TruncateDiff(diff, Some(m)).1
    ensures SplitLines(TruncateDiff(diff, Some(m)).0) == SplitLines(diff)[..m]
  {
    var lines := SplitLines(diff);
    var kept := lines[..m];
    assert forall i :: 0 <= i < |kept| ==> '\n' !in kept[i] by {
      assert forall i :: 0 <= i < |kept| ==> kept[i] == lines[i];
    }
    JoinedLines(kept);
  }

  /** Truncating a truncated diff again with the same limit changes nothing. */
  lemma TruncateIdempotent(diff: string, m: int)
    ensures var once := TruncateDiff(diff, Some(m)).0;
      TruncateDiff(once, Some(m)) == (once, false, if m <= 0 then Count(once, '\n') else |SplitLines(once)|)
  {
    if TruncateDiff(diff, Some(m)).1 {
      TruncateKeepsFirstLines(diff, m);
      assert |SplitLines(diff)[..m]| == m;
    }
  }

  // ------------------------------------------------------------------ git_check_ignore

  /** What `git_check_ignore` reports for a path. */
  datatype IgnoreInfo =
    | NotIgnored(path: string)
    | Ignored(path: string, source: string, line: Option<nat>, pattern: string, matchPath: string)

  /**
   * One line of `git check-ignore -v`: the source block, then a tab and the matched path.
   * Without a tab the whole line is the source block and the match is the queried path.
   */
  function ParseIgnoreLine(relPath: string, line: string): (r: IgnoreInfo)
    ensures r.Ignored? && r.path == relPath
    ensures '\t' !in line ==> r.matchPath == relPath
  {
    match SplitFirst(line, '\t')
    case Some(parts) => ParseSourceBlock(relPath, parts.0, parts.1)
    case None => ParseSourceBlock(relPath, line, relPath)
  }

  /**
   * `source:line:pattern`, split at the first two colons; the line number is kept only when
   * it is all digits. A block with fewer than two colons leaves source and pattern empty.
   */
  function ParseSourceBlock(relPath: string, block: string, matchPath: string): (r: IgnoreInfo)
    ensures r.Ignored? && r.path == relPath && r.matchPath == matchPath
    ensures Count(block, ':') < 2 ==> r.source == "" && r.pattern == "" && r.line.None?
    ensures Count(block, ':') >= 2 ==> ':' !in r.source
  {
    if Count(block, ':') >= 2 then
      TwoColons(block);
      var (source, rest) := SplitFirst(block, ':').value;
      var (linePart, pattern) := SplitFirst(rest, ':').value;
      Ignored(relPath, source, if IsDigits(linePart) then Some(ParseDigits(linePart)) else None, pattern, matchPath)
    else Ignored(relPath, "", None, "", matchPath)
  }

  /** A block with two colons splits at the first, and what follows still has one. */
  lemma TwoColons(block: string)
    requires Count(block, ':') >= 2
    ensures SplitFirst(block, ':').Some? && SplitFirst(SplitFirst(block, ':').value.1, ':').Some?
  {
    var (source, rest) := SplitFirst(block, ':').value;
    CountAround(source, rest, ':');
  }

  /**
   * `git_check_ignore` on the command's exit code and output: a failure or blank output is
   * "not ignored"; otherwise the first line of the stripped output is parsed.
   */
  function CheckIgnore(relPath: string, returnCode: int, stdout: string): (r: IgnoreInfo)
    ensures r.path == relPath
    ensures r.NotIgnored? <==> returnCode != 0 || IsBlank(stdout)
  {
    if returnCode != 0 || IsBlank(stdout) then NotIgnored(relPath)
    else
      SplitLinesNonEmpty(Strip(stdout));
      ParseIgnoreLine(relPath, SplitLines(Strip(stdout))[0])
  }

  /** A well-formed report line is read back into its source, line number, pattern and match. */
  lemma CheckIgnoreRoundTrip(relPath: string, source: string, n: nat, pattern: string, matchPath: string)
    requires ':' !in source && '\t' !in source && '\t' !in pattern
    requires '\n' !in source && '\n' !in pattern && '\n' !in matchPath
    requires source != [] && source[0] !in Whitespace
    requires matchPath != [] && matchPath[|matchPath| - 1] !in Whitespace
    ensures CheckIgnore(relPath, 0, source + ":" + NatToString(n) + ":" + pattern + "\t" + matchPath)
      == Ignored(relPath, source, Some(n), pattern, matchPath)
  {
    var digits := NatToString(n);
    var block := source + ":" + digits + ":" + pattern;
    DigitsFree(n);
    FreeOfBoth(source, digits, pattern, '\t');
    FreeOfBoth(source, digits, pattern, '\n');
    FreeAfterTab(block, matchPath);
    var line := source + ":" + NatToString(n) + ":" + pattern + "\t" + matchPath;
    assert line == block + "\t" + matchPath;
    assert line[0] == source[0] && line[|line| - 1] == matchPath[|matchPath| - 1];
    SplitFirstUnique(line, '\t', block, matchPath);
    ReportParse(relPath, block, matchPath, line);
    ReportBlock(relPath, source, n, pattern, matchPath);
  }

  /** A one-line report without blanks at its ends is parsed at its first tab. */
  lemma ReportParse(relPath: string, block: string, matchPath: string, line: string)
    requires SplitFirst(line, '\t') == Some((block, matchPath))
    requires line != [] && '\n' !in line && line[0] !in Whitespace && line[|line| - 1] !in Whitespace
    ensures CheckIgnore(relPath, 0, line) == ParseSourceBlock(relPath, block, matchPath)
  {
    StripUnchanged(line);
    ReportLine(relPath, line);
  }

  /** The digits of a number hold no separator. */
  lemma DigitsFree(n: nat)
    ensures ':' !in NatToString(n) && '\t' !in NatToString(n) && '\n' !in NatToString(n)
  {
    var d := NatToString(n);
    assert forall i :: 0 <= i < |d| ==> IsDigitChar(d[i]);
  }

  /** A character in none of the three fields is not in their colon-joined block. */
  lemma FreeOfBoth(a: string, b: string, c: string, x: char)
    requires x != ':' && x !in a && x !in b && x !in c
    ensures x !in a + ":" + b + ":" + c
  {
    var s := a + ":" + b + ":" + c;
    assert forall k :: 0 <= k < |s| ==> s[k] in a || s[k] in b || s[k] in c || s[k] == ':';
  }

  /** A newline-free block and match give a newline-free line. */
  lemma FreeAfterTab(block: string, matchPath: string)
    requires '\n' !in block && '\n' !in matchPath
    ensures '\n' !in block + "\t" + matchPath
  {
    var s := block + "\t" + matchPath;
    assert forall k :: 0 <= k < |s| ==> s[k] in block || s[k] in matchPath || s[k] == '\t';
  }

  /** A stripped one-line output is parsed as that line. */
  lemma ReportLine(relPath: string, line: string)
    requires line != [] && Strip(line) == line && '\n' !in line
    ensures CheckIgnore(relPath, 0, line) == ParseIgnoreLine(relPath, line)
  {
    SplitLinesSingle(line);
  }

  /** The source block of a report is split back into its fields. */
  lemma ReportBlock(relPath: string, source: string, n: nat, pattern: string, matchPath: string)
    requires ':' !in source
    ensures ParseSourceBlock(relPath, source + ":" + NatToString(n) + ":" + pattern, matchPath)
      == Ignored(relPath, source, Some(n), pattern, matchPath)
  {
    var digits := NatToString(n);
    DigitsFree(n);
    BlockSplits(source, digits, pattern);
    ParseNatToString(n);
    assert IsDigits(digits);
  }

  /** The two colons after a colon-free source and colon-free digits are the first two. */
  lemma BlockSplits(source: string, digits: string, pattern: string)
    requires ':' !in source && ':' !in digits
    ensures var block := source + ":" + digits + ":" + pattern;
      Count(block, ':') >= 2 &&
      SplitFirst(block, ':') == Some((source, digits + ":" + pattern)) &&
      SplitFirst(digits + ":" + pattern, ':') == Some((digits, pattern))
  {
    var rest := digits + ":" + pattern;
    var block := source + ":" + rest;
    assert source + ":" + digits + ":" + pattern == block;
    SplitFirstUnique(block, ':', source, rest);
    SplitFirstUnique(rest, ':', digits, pattern);
    CountAround(source, rest, ':');
    CountAround(digits, pattern, ':');
  }

  // ------------------------------------------------------------------ git_commit_changes

  /** One file of `git diff-tree --name-status`. */
  datatype CommitChange = CommitChange(status: string, path: string, renameFrom: Option<string>)

  /**
   * One tab-separated line: `status path`, or `status old new` for a rename or copy; lines
   * with too few fields give nothing.
   */
  function CommitLine(line: string): (r: Option<CommitChange>)
    ensures r.Some? ==> '\t' !in r.value.status && '\t' !in r.value.path
    ensures r.Some? ==> (r.value.renameFrom.Some? <==> StartsWith(r.value.status, "R") || StartsWith(r.value.status, "C"))
  {
    if line == [] then None
    else
      var parts := Split(line, '\t');
      SplitPieces(line, '\t');
      var status := parts[0];
      if StartsWith(status, "R") || StartsWith(status, "C") then
        if |parts| >= 3 then Some(CommitChange(status, parts[2], Some(parts[1]))) else None
      else if |parts| >= 2 then Some(CommitChange(status, parts[1], None))
      else None
  }

  /** The changes of the lines that give one, in order. */
  function CommitChangesOf(lines: seq<string>): (r: seq<CommitChange>)
    ensures |r| <= |lines|
  {
    if lines == [] then []
    else
      var rest := CommitChangesOf(lines[..|lines| - 1]);
      match CommitLine(lines[|lines| - 1])
      case None => rest
      case Some(c) => rest + [c]
  }

  /** `git_commit_changes` on the command's exit code and output. */
  method GitCommitChanges(returnCode: int, stdout: string) returns (changes: seq<CommitChange>)
    ensures changes == if returnCode != 0 then [] else CommitChangesOf(SplitLines(stdout))
  {
    if returnCode != 0 {
      return [];
    }
    var lines := SplitLines(stdout);
    changes := [];
    for i := 0 to |lines|
      invariant changes == CommitChangesOf(lines[..i])
    {
      assert lines[..i + 1][..i] == lines[..i];
      var c := CommitLine(lines[i]);
      if c.Some? {
        changes := changes + [c.value];
      }
    }
    assert lines[..|lines|] == lines;
  }

  /** The line git prints for a change. */
  function CommitLineText(c: CommitChange): string
  {
    match c.renameFrom
    case Some(from) => c.status + "\t" + from + "\t" + c.path
    case None => c.status + "\t" + c.path
  }

  /** A change git can print: tab-free fields, and a previous path exactly for R and C. */
  predicate Printable(c: CommitChange)
  {
    '\t' !in c.status && '\t' !in c.path &&
    (c.renameFrom.Some? ==> '\t' !in c.renameFrom.value) &&
    (c.renameFrom.Some? <==> StartsWith(c.status, "R") || StartsWith(c.status, "C"))
  }

  /** Every printable change is read back from its line. */
  lemma CommitLineRoundTrip(c: CommitChange)
    requires Printable(c)
    ensures CommitLine(CommitLineText(c)) == Some(c)
  {
    match c.renameFrom
    case Some(from) =>
      TabFields3(c.status, from, c.path);
      LineFields(CommitLineText(c), [c.status, from, c.path]);
    case None =>
      TabFields2(c.status, c.path);
      LineFields(CommitLineText(c), [c.status, c.path]);
  }

  lemma TabFields2(a: string, b: string)
    requires '\t' !in a && '\t' !in b
    ensures Split(a + "\t" + b, '\t') == [a, b]
  {
    SplitAfterFree(a, b, '\t');
    assert IndexOf(b, '\t').None?;
  }

  lemma TabFields3(a: string, b: string, d: string)
    requires '\t' !in a && '\t' !in b && '\t' !in d
    ensures Split(a + "\t" + b + "\t" + d, '\t') == [a, b, d]
  {
    assert a + "\t" + b + "\t" + d == a + "\t" + (b + "\t" + d);
    SplitAfterFree(a, b + "\t" + d, '\t');
    TabFields2(b, d);
  }

  /** A line whose fields are known is read from those fields. */
  lemma LineFields(line: string, xs: seq<string>)
    requires line != [] && Split(line, '\t') == xs && |xs| >= 2
    ensures CommitLine(line) ==
      if StartsWith(xs[0], "R") || StartsWith(xs[0], "C") then
        (if |xs| >= 3 then Some(CommitChange(xs[0], xs[2], Some(xs[1]))) else None)
      else Some(CommitChange(xs[0], xs[1], None))
  {
  }

  /** The lines git prints for a list of changes, in order. */
  function CommitLinesText(cs: seq<CommitChange>): (r: seq<string>)
    ensures |r| == |cs|
  {
    if cs == [] then [] else CommitLinesText(cs[..|cs| - 1]) + [CommitLineText(cs[|cs| - 1])]
  }

  /** The changes of a list of printed lines are the printed changes. */
  lemma {:induction false} CommitChangesRoundTrip(cs: seq<CommitChange>)
    requires forall i :: 0 <= i < |cs| ==> Printable(cs[i])
    ensures CommitChangesOf(CommitLinesText(cs)) == cs
  {
    if cs != [] {
      var n := |cs| - 1;
      var lines := CommitLinesText(cs);
      var pre := cs[..n];
      assert lines[..n] == CommitLinesText(pre);
      assert forall i :: 0 <= i < |pre| ==> pre[i] == cs[i];
      CommitChangesRoundTrip(pre);
      CommitLineRoundTrip(cs[n]);
      assert cs == pre + [cs[n]];
    }
  }

  /** A change whose fields hold no newline prints on one line. */
  lemma CommitLineOneLine(c: CommitChange)
    requires '\n' !in c.status && '\n' !in c.path && (c.renameFrom.Some? ==> '\n' !in c.renameFrom.value)
    ensures '\n' !in CommitLineText(c)
  {
    var t := CommitLineText(c);
    match c.renameFrom
    case Some(from) =>
      assert forall k :: 0 <= k < |t| ==> t[k] in c.status || t[k] in from || t[k] in c.path || t[k] == '\t';
    case None =>
      assert forall k :: 0 <= k < |t| ==> t[k] in c.status || t[k] in c.path || t[k] == '\t';
  }

  /**
   * The whole output of `git diff-tree --name-status` for a list of printable, one-line
   * changes is read back by `git_commit_changes` as exactly that list.
   */
  lemma CommitOutputRoundTrip(cs: seq<CommitChange>)
    requires cs != []
    requires forall i :: 0 <= i < |cs| ==> Printable(cs[i])
    requires forall i :: 0 <= i < |cs| ==>
      '\n' !in cs[i].status && '\n' !in cs[i].path && (cs[i].renameFrom.Some? ==> '\n' !in cs[i].renameFrom.value)
    ensures CommitChangesOf(SplitLines(Join(CommitLinesText(cs), "\n") + "\n")) == cs
  {
    var lines := CommitLinesText(cs);
    forall i | 0 <= i < |lines| ensures '\n' !in lines[i] {
      CommitLinesAt(cs, i);
      CommitLineOneLine(cs[i]);
    }
    JoinedLines(lines);
    CommitChangesRoundTrip(cs);
  }

  /** The `i`-th printed line is the `i`-th change's line. */
  lemma {:induction false} CommitLinesAt(cs: seq<CommitChange>, i: nat)
    requires i < |cs|
    ensures CommitLinesText(cs)[i] == CommitLineText(cs[i])
  {
    var n := |cs| - 1;
    if i < n {
      CommitLinesAt(cs[..n], i);
    }
  }

  // ------------------------------------------------------------------ git_list_files

  /** One row of `git_list_files`. */
  datatype FileEntry = FileEntry(
    status: string, path: string,
    staged: bool, unstaged: bool, untracked: bool, ignored: bool,
    isDir: bool, renameFrom: Option<string>, clean: bool)

  datatype ListMode = ChangedOnly | AllFiles

  /** `(mode or "changed").lower()`, which must be `changed` or `all`. */
  function ParseListMode(mode: Option<string>): (r: Result<ListMode>)
    ensures mode.None? || mode.value == [] ==> r == Ok(ChangedOnly)
    ensures mode.Some? && mode.value != [] ==>
      (r == Ok(ChangedOnly) <==> Lower(mode.value) == "changed") &&
      (r == Ok(AllFiles) <==> Lower(mode.value) == "all")
  {
    var m := if mode.None? || mode.value == [] then "changed" else Lower(mode.value);
    if m == "changed" then Ok(ChangedOnly)
    else if m == "all" then Ok(AllFiles)
    else Err("Invalid file list mode")
  }

  /** Ignored changes are listed only on request. */
  predicate Listed(c: Change, includeIgnored: bool) { !c.ignored || includeIgnored }

  /** A change as a row: every field of the change, and `clean` when it has no flag set. */
  function FromChange(c: Change): (r: FileEntry)
    ensures r.path == c.path && r.status == c.status && r.renameFrom == c.renameFrom && r.isDir == c.isDir
    ensures r.clean <==> !r.staged && !r.unstaged && !r.untracked && !r.ignored
    ensures (r.staged, r.unstaged, r.untracked, r.ignored) == (c.staged, c.unstaged, c.untracked, c.ignored)
  {
    FileEntry(c.status, c.path, c.staged, c.unstaged, c.untracked, c.ignored, c.isDir, c.renameFrom,
              !(c.staged || c.unstaged || c.untracked || c.ignored))
  }

  /** A tracked file with no change: blank status, clean. */
  function TrackedEntry(path: string): (r: FileEntry)
    ensures r.path == path && r.clean && !r.staged && !r.unstaged && !r.untracked && !r.ignored
  {
    FileEntry("  ", path, false, false, false, false, false, None, true)
  }

  /** Mode `changed`: the listed changes as rows, in status order. */
  function ChangedFilesOf(changes: seq<Change>, includeIgnored: bool): (r: seq<FileEntry>)
    ensures |r| <= |changes|
    ensures forall i :: 0 <= i < |r| ==> (r[i].clean <==> !r[i].staged && !r[i].unstaged && !r[i].untracked && !r[i].ignored)
    ensures !includeIgnored ==> forall i :: 0 <= i < |r| ==> !r[i].ignored
  {
    if changes == [] then []
    else
      var rest := ChangedFilesOf(changes[..|changes| - 1], includeIgnored);
      var c := changes[|changes| - 1];
      if Listed(c, includeIgnored) then rest + [FromChange(c)] else rest
  }

  /** The `changed` loop of `git_list_files`. */
  method ListChangedFiles(changes: seq<Change>, includeIgnored: bool) returns (files: seq<FileEntry>)
    ensures files == ChangedFilesOf(changes, includeIgnored)
  {
    files := [];
    for i := 0 to |changes|
      invariant files == ChangedFilesOf(changes[..i], includeIgnored)
    {
      assert changes[..i + 1][..i] == changes[..i];
      var change := changes[i];
      if change.ignored && !includeIgnored {
        continue;
      }
      files := files + [FromChange(change)];
    }
    assert changes[..|changes|] == changes;
  }

  /** The paths of `git ls-files -z`: the non-empty records. */
  function TrackedPaths(output: string): seq<string>
  {
    NonEmpty(Split(output, '\0'))
  }

  /** The `files` dict after the tracked paths: one clean row per path. */
  function TrackedMap(tracked: seq<string>): (m: map<string, FileEntry>)
    ensures forall p :: p in m <==> p in tracked
    ensures forall p :: p in m ==> m[p] == TrackedEntry(p)
  {
    if tracked == [] then map[]
    else
      var n := |tracked| - 1;
      var m := TrackedMap(tracked[..n]);
      assert tracked == tracked[..n] + [tracked[n]];
      m[tracked[n] := TrackedEntry(tracked[n])]
  }

  /**
   * The `files` dict after the status changes: each listed change overwrites every field of
   * its path's row (or adds the row), so its row is the change itself.
   */
  function ApplyChanges(m: map<string, FileEntry>, changes: seq<Change>, includeIgnored: bool): (r: map<string, FileEntry>)
    ensures forall p :: p in r <==> p in m || p in ListedPaths(changes, includeIgnored)
  {
    if changes == [] then m
    else
      var n := |changes| - 1;
      var r := ApplyChanges(m, changes[..n], includeIgnored);
      var c := changes[n];
      if Listed(c, includeIgnored) then r[c.path := FromChange(c)] else r
  }

  /** The paths of the listed changes, in status order. */
  function ListedPaths(changes: seq<Change>, includeIgnored: bool): (r: seq<string>)
    ensures |r| <= |changes|
  {
    if changes == [] then []
    else
      var n := |changes| - 1;
      var rest := ListedPaths(changes[..n], includeIgnored);
      var c := changes[n];
      if Listed(c, includeIgnored) then rest + [c.path] else rest
  }

  /** A path is among the listed paths exactly when some listed change has it. */
  lemma {:induction false} ListedPathsHas(changes: seq<Change>, includeIgnored: bool, p: string)
    ensures p in ListedPaths(changes, includeIgnored) <==>
      exists i :: 0 <= i < |changes| && Listed(changes[i], includeIgnored) && changes[i].path == p
  {
    if changes != [] {
      var n := |changes| - 1;
      ListedPathsHas(changes[..n], includeIgnored, p);
      assert forall i :: 0 <= i < n ==> changes[..n][i] == changes[i];
      if Listed(changes[n], includeIgnored) && changes[n].path == p {
        assert p in ListedPaths(changes, includeIgnored);
      }
    }
  }

  /** The `files` dict of mode `all`. */
  function FilesMap(tracked: seq<string>, changes: seq<Change>, includeIgnored: bool): map<string, FileEntry>
  {
    ApplyChanges(TrackedMap(tracked), changes, includeIgnored)
  }

  /** `sorted(files)`: the dict's paths in order. */
  function AllPaths(tracked: seq<string>, changes: seq<Change>, includeIgnored: bool): seq<string>
  {
    SortedUnique(tracked + ListedPaths(changes, includeIgnored))
  }

  /** Mode `all`: the rows of the `files` dict, by path. */
  function AllFilesOf(tracked: seq<string>, changes: seq<Change>, includeIgnored: bool): (r: seq<FileEntry>)
  {
    var m := FilesMap(tracked, changes, includeIgnored);
    var keys := AllPaths(tracked, changes, includeIgnored);
    AllKeys(tracked, changes, includeIgnored);
    seq(|keys|, i requires 0 <= i < |keys| => m[keys[i]])
  }

  /** The sorted path list holds exactly the keys of the `files` dict. */
  lemma AllKeys(tracked: seq<string>, changes: seq<Change>, includeIgnored: bool)
    ensures var keys := AllPaths(tracked, changes, includeIgnored);
      forall i :: 0 <= i < |keys| ==> keys[i] in FilesMap(tracked, changes, includeIgnored)
    ensures forall p :: p in AllPaths(tracked, changes, includeIgnored) <==>
      p in tracked || p in ListedPaths(changes, includeIgnored)
  {
    var lp := ListedPaths(changes, includeIgnored);
    forall p ensures p in tracked + lp <==> p in tracked || p in lp { }
  }

  /** One more tracked path: the dict before it, with a clean row for the path. */
  lemma TrackedMapLast(tracked: seq<string>)
    requires tracked != []
    ensures var n := |tracked| - 1;
      TrackedMap(tracked) == TrackedMap(tracked[..n])[tracked[n] := TrackedEntry(tracked[n])]
  {
  }

  /** One more change: the dict before it, updated at the change's path when it is listed. */
  lemma ApplyChangesLast(m: map<string, FileEntry>, changes: seq<Change>, includeIgnored: bool)
    requires changes != []
    ensures var n := |changes| - 1; var c := changes[n]; var r := ApplyChanges(m, changes[..n], includeIgnored);
      ApplyChanges(m, changes, includeIgnored) == if Listed(c, includeIgnored) then r[c.path := FromChange(c)] else r
  {
  }

  /** Every row of the `files` dict is filed under its own path. */
  lemma {:induction false} ApplyChangesPaths(m: map<string, FileEntry>, changes: seq<Change>, includeIgnored: bool)
    requires forall p :: p in m ==> m[p].path == p
    ensures var r := ApplyChanges(m, changes, includeIgnored); forall p :: p in r ==> r[p].path == p
  {
    if changes != [] {
      var n := |changes| - 1;
      ApplyChangesPaths(m, changes[..n], includeIgnored);
      ApplyChangesLast(m, changes, includeIgnored);
    }
  }

  /** Every row of the `files` dict is clean exactly when no flag is set. */
  lemma {:induction false} ApplyChangesClean(m: map<string, FileEntry>, changes: seq<Change>, includeIgnored: bool)
    requires forall p :: p in m ==> (m[p].clean <==> !m[p].staged && !m[p].unstaged && !m[p].untracked && !m[p].ignored)
    ensures var r := ApplyChanges(m, changes, includeIgnored);
      forall p :: p in r ==> (r[p].clean <==> !r[p].staged && !r[p].unstaged && !r[p].untracked && !r[p].ignored)
  {
    if changes != [] {
      var n := |changes| - 1;
      ApplyChangesClean(m, changes[..n], includeIgnored);
      ApplyChangesLast(m, changes, includeIgnored);
    }
  }

  /** A path no listed change touches keeps its row. */
  lemma {:induction false} ApplyChangesUntouched(m: map<string, FileEntry>, changes: seq<Change>, includeIgnored: bool, p: string)
    requires p in m && p !in ListedPaths(changes, includeIgnored)
    ensures p in ApplyChanges(m, changes, includeIgnored) && ApplyChanges(m, changes, includeIgnored)[p] == m[p]
  {
    if changes != [] {
      var n := |changes| - 1;
      assert p !in ListedPaths(changes[..n], includeIgnored);
      ApplyChangesUntouched(m, changes[..n], includeIgnored, p);
      ApplyChangesLast(m, changes, includeIgnored);
    }
  }

  /** The last listed change of a path decides its row. */
  lemma {:induction false} ApplyChangesLastWins(m: map<string, FileEntry>, changes: seq<Change>, includeIgnored: bool, j: nat)
    requires j < |changes| && Listed(changes[j], includeIgnored)
    requires forall k :: j < k < |changes| ==> !(Listed(changes[k], includeIgnored) && changes[k].path == changes[j].path)
    ensures var r := ApplyChanges(m, changes, includeIgnored);
      changes[j].path in r && r[changes[j].path] == FromChange(changes[j])
  {
    var n := |changes| - 1;
    ApplyChangesLast(m, changes, includeIgnored);
    if j < n {
      assert forall k :: j < k < n ==> changes[..n][k] == changes[k];
      ApplyChangesLastWins(m, changes[..n], includeIgnored, j);
    }
  }

  /** The rows of mode `all` are indexed like the sorted paths. */
  lemma AllFilesRows(tracked: seq<string>, changes: seq<Change>, includeIgnored: bool)
    ensures var r := AllFilesOf(tracked, changes, includeIgnored); var keys := AllPaths(tracked, changes, includeIgnored);
      |r| == |keys| &&
      forall i :: 0 <= i < |r| ==> (keys[i] in FilesMap(tracked, changes, includeIgnored) &&
        r[i] == FilesMap(tracked, changes, includeIgnored)[keys[i]])
  {
    AllKeys(tracked, changes, includeIgnored);
  }

  /** The row paths of mode `all` are the sorted paths. */
  lemma AllFilesPaths(tracked: seq<string>, changes: seq<Change>, includeIgnored: bool)
    ensures var r := AllFilesOf(tracked, changes, includeIgnored);
      seq(|r|, i requires 0 <= i < |r| => r[i].path) == AllPaths(tracked, changes, includeIgnored)
  {
    var m := FilesMap(tracked, changes, includeIgnored);
    assert m == ApplyChanges(TrackedMap(tracked), changes, includeIgnored);
    ApplyChangesPaths(TrackedMap(tracked), changes, includeIgnored);
    assert forall p :: p in m ==> m[p].path == p;
    AllFilesRows(tracked, changes, includeIgnored);
    var r := AllFilesOf(tracked, changes, includeIgnored);
    var keys := AllPaths(tracked, changes, includeIgnored);
    assert forall i :: 0 <= i < |r| ==> r[i].path == keys[i];
  }

  /** Mode `all` lists every tracked path and every listed change's path, each once and sorted. */
  lemma AllFilesSorted(tracked: seq<string>, changes: seq<Change>, includeIgnored: bool)
    ensures var r := AllFilesOf(tracked, changes, includeIgnored);
      var paths := seq(|r|, i requires 0 <= i < |r| => r[i].path);
      SortedBy(paths, StrLe) && NoDuplicates(paths) &&
      forall p :: p in paths <==> p in tracked || p in ListedPaths(changes, includeIgnored)
  {
    AllFilesPaths(tracked, changes, includeIgnored);
    AllKeys(tracked, changes, includeIgnored);
  }

  /** Every row of mode `all` is clean exactly when none of its flags is set. */
  lemma AllFilesClean(tracked: seq<string>, changes: seq<Change>, includeIgnored: bool)
    ensures var r := AllFilesOf(tracked, changes, includeIgnored);
      forall i :: 0 <= i < |r| ==> (r[i].clean <==> !r[i].staged && !r[i].unstaged && !r[i].untracked && !r[i].ignored)
  {
    var m := FilesMap(tracked, changes, includeIgnored);
    assert m == ApplyChanges(TrackedMap(tracked), changes, includeIgnored);
    ApplyChangesClean(TrackedMap(tracked), changes, includeIgnored);
    assert forall p :: p in m ==> (m[p].clean <==> !m[p].staged && !m[p].unstaged && !m[p].untracked && !m[p].ignored);
    AllFilesRows(tracked, changes, includeIgnored);
  }

  /** In mode `all`, a tracked file without a listed change is a clean row with a blank status. */
  lemma AllFilesTrackedClean(tracked: seq<string>, changes: seq<Change>, includeIgnored: bool, p: string)
    requires p in tracked && p !in ListedPaths(changes, includeIgnored)
    ensures TrackedEntry(p) in AllFilesOf(tracked, changes, includeIgnored)
  {
    ApplyChangesUntouched(TrackedMap(tracked), changes, includeIgnored, p);
    AllKeys(tracked, changes, includeIgnored);
    AllFilesRows(tracked, changes, includeIgnored);
    var keys := AllPaths(tracked, changes, includeIgnored);
    var k :| 0 <= k < |keys| && keys[k] == p;
    assert AllFilesOf(tracked, changes, includeIgnored)[k] == TrackedEntry(p);
  }

  /**
   * In mode `all`, the row of a path with a listed change is that change's row, taken from
   * the last listed change of the path.
   */
  lemma AllFilesChanged(tracked: seq<string>, changes: seq<Change>, includeIgnored: bool, j: nat)
    requires j < |changes| && Listed(changes[j], includeIgnored)
    requires forall k :: j < k < |changes| ==> !(Listed(changes[k], includeIgnored) && changes[k].path == changes[j].path)
    ensures FromChange(changes[j]) in AllFilesOf(tracked, changes, includeIgnored)
  {
    var p := changes[j].path;
    ApplyChangesLastWins(TrackedMap(tracked), changes, includeIgnored, j);
    AllKeys(tracked, changes, includeIgnored);
    AllFilesRows(tracked, changes, includeIgnored);
    ListedPathsHas(changes, includeIgnored, p);
    var keys := AllPaths(tracked, changes, includeIgnored);
    var k :| 0 <= k < |keys| && keys[k] == p;
    assert AllFilesOf(tracked, changes, includeIgnored)[k] == FromChange(changes[j]);
  }

  /**
   * The `all` branch of `git_list_files`: a clean row per tracked path, then each listed
   * change overwrites its path's row, then the rows sorted by path.
   */
  method ListAllFiles(trackedOutput: string, changes: seq<Change>, includeIgnored: bool) returns (files: seq<FileEntry>)
    ensures files == AllFilesOf(TrackedPaths(trackedOutput), changes, includeIgnored)
  {
    var tracked := TrackedPaths(trackedOutput);
    var m := TrackFiles(tracked);
    m := OverlayChanges(m, changes, includeIgnored);
    var keys := AllPaths(tracked, changes, includeIgnored);
    AllKeys(tracked, changes, includeIgnored);
    files := RowsByPath(m, keys);
  }

  /** The loop filling `files` with a clean row per tracked path. */
  method TrackFiles(tracked: seq<string>) returns (m: map<string, FileEntry>)
    ensures m == TrackedMap(tracked)
  {
    m := map[];
    for i := 0 to |tracked|
      invariant m == TrackedMap(tracked[..i])
    {
      TrackedMapLast(tracked[..i + 1]);
      assert tracked[..i + 1][..i] == tracked[..i];
      m := m[tracked[i] := TrackedEntry(tracked[i])];
    }
    assert tracked[..|tracked|] == tracked;
  }

  /** The loop writing each listed change over its path's row. */
  method OverlayChanges(m0: map<string, FileEntry>, changes: seq<Change>, includeIgnored: bool) returns (m: map<string, FileEntry>)
    ensures m == ApplyChanges(m0, changes, includeIgnored)
  {
    m := m0;
    for i := 0 to |changes|
      invariant m == ApplyChanges(m0, changes[..i], includeIgnored)
    {
      ApplyChangesLast(m0, changes[..i + 1], includeIgnored);
      assert changes[..i + 1][..i] == changes[..i];
      var change := changes[i];
      if change.ignored && !includeIgnored {
        continue;
      }
      m := m[change.path := FromChange(change)];
    }
    assert changes[..|changes|] == changes;
  }

  /** `[files[path] for path in keys]`. */
  method RowsByPath(m: map<string, FileEntry>, keys: seq<string>) returns (files: seq<FileEntry>)
    requires forall i :: 0 <= i < |keys| ==> keys[i] in m
    ensures files == seq(|keys|, i requires 0 <= i < |keys| => m[keys[i]])
  {
    files := [];
    for i := 0 to |keys|
      invariant files == seq(i, j requires 0 <= j < i => m[keys[j]])
    {
      files := files + [m[keys[i]]];
    }
  }

  /** `git_list_files` on the mode, the tracked-file listing and the parsed status. */
  method GitListFiles(mode: Option<string>, includeIgnored: bool, trackedOutput: string, changes: seq<Change>)
    returns (r: Result<seq<FileEntry>>)
    ensures ParseListMode(mode).Err? ==> r == Err("Invalid file list mode")
    ensures ParseListMode(mode) == Ok(ChangedOnly) ==> r == Ok(ChangedFilesOf(changes, includeIgnored))
    ensures ParseListMode(mode) == Ok(AllFiles) ==>
      r == Ok(AllFilesOf(TrackedPaths(trackedOutput), changes, includeIgnored))
  {
    var m := ParseListMode(mode);
    if m.Err? {
      return Err("Invalid file list mode");
    }
    if m.value == ChangedOnly {
      var files := ListChangedFiles(changes, includeIgnored);
      return Ok(files);
    }
    var files := ListAllFiles(trackedOutput, changes, includeIgnored);
    return Ok(files);
  }
}
