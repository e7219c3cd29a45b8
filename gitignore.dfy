/**
 * gitignore_ops.py: the bridge's own reading of `.gitignore` (which files the watcher and
 * the UI treat as ignored), the template merge of `ensure_gitignore`, and the mtime-keyed
 * pattern cache. `fnmatch` is a parameter; file contents come in as text.
 */
module GitignoreOps {
  import opened Wrappers
  import opened Text
  import opened Paths
  import YamlTags

  /** One parsed line: `(negated, pattern, is_dir, is_path, is_glob)`. */
  datatype Pattern = Pattern(negated: bool, pattern: string, isDir: bool, isPath: bool, isGlob: bool)

  // ------------------------------------------------------------------ load_gitignore_patterns

  /** A line with surrounding whitespace removed, and then a leading `!` and the whitespace after it. */
  function Entry(line: string): string
  {
    var e := Strip(line);
    if e != [] && e[0] == '!' then Strip(e[1..]) else e
  }

  /** Lines that give no pattern: blank, a `#` comment, or a bare `!`. */
  predicate IsSkipped(line: string)
  {
    var e := Strip(line);
    e == [] || e[0] == '#' || e == "!"
  }

  /**
   * One line of `.gitignore`: blank lines, `#` comments and a bare `!` give nothing; a
   * leading `!` negates; a trailing `/` marks a directory pattern and is removed.
   */
  function ParseLine(line: string): (r: Option<Pattern>)
    ensures r.None? <==> IsSkipped(line)
    ensures r.Some? ==> (r.value.negated <==> Strip(line)[0] == '!') && r.value == MakePattern(r.value.negated, Entry(line))
  {
    var entry := Strip(line);
    if entry == [] || entry[0] == '#' then None
    else
      EntryBlank(line);
      if Entry(line) == [] then None
      else Some(MakePattern(entry[0] == '!', Entry(line)))
  }

  /**
   * The pattern for a non-empty entry: a trailing `/` marks a directory pattern and is removed;
   * the path and glob flags are read from what remains.
   */
  function MakePattern(negated: bool, e: string): (r: Pattern)
    ensures r.negated == negated
    ensures r.isDir <==> EndsWith(e, "/")
    ensures r.pattern == if r.isDir then StripRight(e, {'/'}) else e
    ensures (r.isGlob <==> YamlTags.HasGlob(r.pattern)) && (r.isPath <==> '/' in r.pattern)
  {
    var isDir := e != [] && e[|e| - 1] == '/';
    assert isDir <==> EndsWith(e, "/");
    var pattern := if isDir then StripRight(e, {'/'}) else e;
    Pattern(negated, pattern, isDir, '/' in pattern, YamlTags.HasGlob(pattern))
  }

  /** After a leading `!`, nothing is left exactly when the `!` was the whole stripped line. */
  lemma EntryBlank(line: string)
    requires Strip(line) != [] && Strip(line)[0] != '#'
    ensures Entry(line) == [] <==> Strip(line) == "!"
  {
    var entry := Strip(line);
    if entry[0] == '!' && |entry| > 1 {
      var rest := entry[1..];
      assert rest[|rest| - 1] == entry[|entry| - 1];
      assert rest[|rest| - 1] !in Whitespace;
    }
  }

  /** The patterns of the lines that give one, in file order. */
  function ParsePatterns(lines: seq<string>): (r: seq<Pattern>)
    ensures |r| <= |lines|
  {
    if lines == [] then []
    else
      var rest := ParsePatterns(lines[..|lines| - 1]);
      match ParseLine(lines[|lines| - 1])
      case None => rest
      case Some(p) => rest + [p]
  }

  /** `load_gitignore_patterns` on the file's text (None when there is no `.gitignore`). */
  method LoadGitignorePatterns(text: Option<string>) returns (patterns: seq<Pattern>)
    ensures text.None? ==> patterns == []
    ensures text.Some? ==> patterns == ParsePatterns(SplitLines(text.value))
  {
    if text.None? {
      return [];
    }
    var lines := SplitLines(text.value);
    patterns := [];
    for i := 0 to |lines|
      invariant patterns == ParsePatterns(lines[..i])
    {
      assert lines[..i + 1][..i] == lines[..i];
      var p := ParseLine(lines[i]);
      if p.Some? {
        patterns := patterns + [p.value];
      }
    }
    assert lines[..|lines|] == lines;
  }

  // ------------------------------------------------------------------ should_ignore

  /**
   * Whether one pattern matches a relative path, given as its parts: a directory pattern
   * matches any part, a glob the whole path or the file name, a path pattern the whole path,
   * and a bare name the file name.
   */
  predicate PatternMatches(p: Pattern, parts: seq<string>, fnmatch: (string, string) -> bool)
  {
    var rel := Posix(parts);
    var name := if parts == [] then "" else parts[|parts| - 1];
    if p.isDir then p.pattern in parts
    else if p.isGlob then fnmatch(rel, p.pattern) || fnmatch(name, p.pattern)
    else if p.isPath then rel == p.pattern
    else name == p.pattern
  }

  /** The `ignored` flag after the patterns have been applied in order. */
  function Verdict(patterns: seq<Pattern>, parts: seq<string>, fnmatch: (string, string) -> bool): bool
  {
    if patterns == [] then false
    else
      var last := patterns[|patterns| - 1];
      if PatternMatches(last, parts, fnmatch) then !last.negated
      else Verdict(patterns[..|patterns| - 1], parts, fnmatch)
  }

  /** WATCH_EXTENSIONS, compared with the lower-cased suffix. */
  predicate IsWatched(parts: seq<string>)
  {
    var name := if parts == [] then "" else parts[|parts| - 1];
    Lower(Suffix(name)) in {".yaml", ".yml"}
  }

  /**
   * The last matching pattern decides: with `j` the last index whose pattern matches (or -1
   * when none does), the flag is set exactly when pattern `j` exists and is not negated.
   */
  lemma {:induction false} LastMatchWins(patterns: seq<Pattern>, parts: seq<string>, fnmatch: (string, string) -> bool, j: int)
    requires -1 <= j < |patterns|
    requires j >= 0 ==> PatternMatches(patterns[j], parts, fnmatch)
    requires forall k :: j < k < |patterns| ==> !PatternMatches(patterns[k], parts, fnmatch)
    ensures Verdict(patterns, parts, fnmatch) == (j >= 0 && !patterns[j].negated)
    decreases |patterns|
  {
    if patterns != [] && j < |patterns| - 1 {
      var n := |patterns| - 1;
      var pre := patterns[..n];
      assert forall k :: 0 <= k < n ==> pre[k] == patterns[k];
      assert !PatternMatches(patterns[n], parts, fnmatch);
      LastMatchWins(pre, parts, fnmatch, j);
    }
  }

  /** `should_ignore(path)` as the source runs it: the pattern loop, then the extension check. */
  method ShouldIgnore(patterns: seq<Pattern>, parts: seq<string>, fnmatch: (string, string) -> bool) returns (r: bool)
    ensures r <==> Verdict(patterns, parts, fnmatch) || !IsWatched(parts)
  {
    var ignored := false;
    for i := 0 to |patterns|
      invariant ignored == Verdict(patterns[..i], parts, fnmatch)
    {
      assert patterns[..i + 1][..i] == patterns[..i];
      var matched := PatternMatches(patterns[i], parts, fnmatch);
      if matched {
        ignored := !patterns[i].negated;
      }
    }
    assert patterns[..|patterns|] == patterns;
    if ignored {
      return true;
    }
    if !IsWatched(parts) {
      return true;
    }
    return false;
  }

  // ------------------------------------------------------------------ ensure_gitignore

  /** `load_gitignore_template`: the stripped lines that are neither blank nor comments. */
  function TemplateLines(lines: seq<string>): (r: seq<string>)
    ensures forall i :: 0 <= i < |r| ==> r[i] != [] && r[i][0] != '#'
  {
    if lines == [] then []
    else
      var rest := TemplateLines(lines[..|lines| - 1]);
      var e := Strip(lines[|lines| - 1]);
      if e != [] && e[0] != '#' then rest + [e] else rest
  }

  /** Every template line is already stripped and, for lines from a text, holds no newline. */
  lemma {:induction false} TemplateLinesStripped(lines: seq<string>)
    requires forall i :: 0 <= i < |lines| ==> '\n' !in lines[i]
    ensures forall t :: t in TemplateLines(lines) ==> Strip(t) == t && '\n' !in t
  {
    if lines != [] {
      var n := |lines| - 1;
      TemplateLinesStripped(lines[..n]);
      StrippedLine(lines[n]);
    }
  }

  /** A stripped line is its own strip and holds only characters of the line. */
  lemma StrippedLine(l: string)
    requires '\n' !in l
    ensures Strip(Strip(l)) == Strip(l) && '\n' !in Strip(l)
  {
    StripIdempotent(l);
    var e := Strip(l);
    assert forall c :: c in e ==> c in l;
  }

  /** Every line that is neither blank nor a comment shows up, stripped, among the template lines. */
  lemma {:induction false} TemplateLinesComplete(lines: seq<string>, i: nat)
    requires i < |lines| && Strip(lines[i]) != [] && Strip(lines[i])[0] != '#'
    ensures Strip(lines[i]) in TemplateLines(lines)
  {
    var n := |lines| - 1;
    if i < n {
      assert lines[..n][i] == lines[i];
      TemplateLinesComplete(lines[..n], i);
    }
  }

  /** The template file's lines (none when it does not exist). */
  function TemplateText(template: Option<string>): (r: seq<string>)
    ensures forall i :: 0 <= i < |r| ==> '\n' !in r[i]
  {
    if template.None? then [] else SplitLines(template.value)
  }

  /** The stripped lines of an existing file (empty when there is no file). */
  function ExistingLines(text: Option<string>): set<string>
  {
    if text.None? then {} else set l | l in SplitLines(text.value) :: Strip(l)
  }

  /** What `ensure_gitignore` does to `.gitignore`. */
  datatype GitignoreUpdate = Unchanged | Overwrite(content: string) | AppendText(text: string)

  /** The template lines the file does not have yet, in template order. */
  function Missing(lines: seq<string>, existing: set<string>): (r: seq<string>)
    ensures forall t :: t in r <==> t in lines && t !in existing
    ensures forall i :: 0 <= i < |r| ==> r[i] in lines
  {
    if lines == [] then []
    else
      var rest := Missing(lines[..|lines| - 1], existing);
      var t := lines[|lines| - 1];
      assert lines == lines[..|lines| - 1] + [t];
      if t !in existing then rest + [t] else rest
  }

  /**
   * `ensure_gitignore`, given the current file (None when absent) and the template's lines:
   * an empty file gets the whole template, otherwise only the missing lines are appended.
   */
  function EnsureGitignore(current: Option<string>, template: Option<string>): GitignoreUpdate
  {
    EnsureLines(current, TemplateLines(TemplateText(template)))
  }

  /** The update for a given list of template lines. */
  function EnsureLines(current: Option<string>, lines: seq<string>): GitignoreUpdate
  {
    var existing := ExistingLines(current);
    var newLines := Missing(lines, existing);
    if existing == {} then
      if lines == [] then Unchanged else Overwrite(Join(lines, "\n") + "\n")
    else if newLines != [] then AppendText("\n" + Join(newLines, "\n") + "\n")
    else Unchanged
  }

  /** The file after the update. */
  function Apply(current: Option<string>, u: GitignoreUpdate): Option<string>
  {
    match u
    case Unchanged => current
    case Overwrite(content) => Some(content)
    case AppendText(text) => Some((if current.Some? then current.value else "") + text)
  }

  /** Appending `"\n" + lines + "\n"` to a file adds exactly those lines after its own pieces. */
  lemma AppendedLines(prev: string, xs: seq<string>)
    requires xs != [] && forall i :: 0 <= i < |xs| ==> '\n' !in xs[i]
    ensures SplitLines(prev + ("\n" + Join(xs, "\n") + "\n")) == Split(prev, '\n') + xs
  {
    var j := Join(xs, "\n");
    var body := prev + ['\n'] + j;
    assert prev + ("\n" + j + "\n") == body + "\n";
    SplitLinesTrailing(body);
    SplitAppend(prev, j, '\n');
    SplitJoin(xs, '\n');
  }

  /** A line of a file contributes its stripped form to the file's line set. */
  lemma InExisting(text: string, l: string)
    requires l in SplitLines(text)
    ensures Strip(l) in ExistingLines(Some(text))
  {
  }

  /** A line the file already had is still one of its lines after the append. */
  lemma KeptExisting(prev: string, xs: seq<string>, t: string)
    requires xs != [] && forall i :: 0 <= i < |xs| ==> '\n' !in xs[i]
    requires t in ExistingLines(Some(prev))
    ensures t in ExistingLines(Some(prev + ("\n" + Join(xs, "\n") + "\n")))
  {
    var after := prev + ("\n" + Join(xs, "\n") + "\n");
    var l :| l in SplitLines(prev) && Strip(l) == t;
    AppendedLines(prev, xs);
    SplitLinesIn(prev, l);
    InExisting(after, l);
  }

  /** Every line is one of the pieces of the split. */
  lemma SplitLinesIn(s: string, l: string)
    requires l in SplitLines(s)
    ensures l in Split(s, '\n')
  {
  }

  /** Every line of a list written out by the append is one of the resulting file's lines. */
  lemma AddedLine(prev: string, xs: seq<string>, t: string)
    requires xs != [] && forall i :: 0 <= i < |xs| ==> '\n' !in xs[i]
    requires t in xs && Strip(t) == t
    ensures t in ExistingLines(Some(prev + ("\n" + Join(xs, "\n") + "\n")))
  {
    AppendedLines(prev, xs);
    InExisting(prev + ("\n" + Join(xs, "\n") + "\n"), t);
  }

  /** A file written from scratch holds all of its lines. */
  lemma WrittenLine(xs: seq<string>, t: string)
    requires xs != [] && forall i :: 0 <= i < |xs| ==> '\n' !in xs[i]
    requires t in xs && Strip(t) == t
    ensures t in ExistingLines(Some(Join(xs, "\n") + "\n"))
  {
    JoinedLines(xs);
    InExisting(Join(xs, "\n") + "\n", t);
  }

  /** After `ensure_gitignore`, every template line is one of the file's stripped lines. */
  lemma EnsureGitignoreComplete(current: Option<string>, template: Option<string>, t: string)
    requires t in TemplateLines(TemplateText(template))
    ensures t in ExistingLines(Apply(current, EnsureGitignore(current, template)))
  {
    var lines := TemplateLines(TemplateText(template));
    TemplateLinesStripped(TemplateText(template));
    assert forall i :: 0 <= i < |lines| ==> '\n' !in lines[i];
    EnsureLinesComplete(current, lines, t);
  }

  /** The same, for any list of stripped, newline-free template lines. */
  lemma EnsureLinesComplete(current: Option<string>, lines: seq<string>, t: string)
    requires forall i :: 0 <= i < |lines| ==> '\n' !in lines[i]
    requires t in lines && Strip(t) == t
    ensures t in ExistingLines(Apply(current, EnsureLines(current, lines)))
  {
    var existing := ExistingLines(current);
    var newLines := Missing(lines, existing);
    if existing == {} {
      WrittenLine(lines, t);
    } else if t !in existing {
      AddedLine(current.value, newLines, t);
    } else if newLines != [] {
      assert forall i :: 0 <= i < |newLines| ==> newLines[i] in lines;
      KeptExisting(current.value, newLines, t);
    }
  }

  /** A template none of whose lines is missing leaves nothing to add. */
  lemma NothingMissing(lines: seq<string>, existing: set<string>)
    requires forall t :: t in lines ==> t in existing
    ensures Missing(lines, existing) == []
  {
    var r := Missing(lines, existing);
    assert forall i :: 0 <= i < |r| ==> r[i] in r;
  }

  /** Running `ensure_gitignore` a second time leaves the file alone. */
  lemma EnsureGitignoreIdempotent(current: Option<string>, template: Option<string>)
    ensures EnsureGitignore(Apply(current, EnsureGitignore(current, template)), template) == Unchanged
  {
    var after := Apply(current, EnsureGitignore(current, template));
    var lines := TemplateLines(TemplateText(template));
    forall t | t in lines ensures t in ExistingLines(after) {
      EnsureGitignoreComplete(current, template, t);
    }
    NothingMissing(lines, ExistingLines(after));
    if lines != [] {
      assert lines[0] in ExistingLines(after);
    }
  }

  // ------------------------------------------------------------------ get_gitignore_patterns

  /** GITIGNORE_CACHE: the patterns last parsed and the file mtime they were parsed at. */
  class PatternCache {
    var cache: Option<(int, seq<Pattern>)>

    constructor()
      ensures cache.None?
    {
      cache := None;
    }

    /**
     * `get_gitignore_patterns`: `mtime` is None when the file does not exist; `parsed` is
     * what parsing the file now would give. The cached patterns are returned exactly when
     * they were parsed at the current mtime.
     */
    method Get(mtime: Option<int>, parsed: seq<Pattern>) returns (patterns: seq<Pattern>)
      modifies this
      ensures mtime.None? ==> patterns == [] && cache == old(cache)
      ensures mtime.Some? && old(cache).Some? && old(cache).value.0 == mtime.value ==>
        patterns == old(cache).value.1 && cache == old(cache)
      ensures mtime.Some? && !(old(cache).Some? && old(cache).value.0 == mtime.value) ==>
        patterns == parsed && cache == Some((mtime.value, parsed))
    {
      if mtime.None? {
        return [];
      }
      if cache.Some? && cache.value.0 == mtime.value {
        return cache.value.1;
      }
      patterns := parsed;
      cache := Some((mtime.value, patterns));
    }
  }
}
