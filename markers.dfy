/**
 * The legacy marker format of `automations.yaml` (yaml_modules.py `merge_automations` and
 * `update_source_from_markers`): every file of `automations/` is copied into the merged file
 * between a `# BEGIN <path>` and a `# END <path>` line, and edits made between the markers are
 * copied back into the files.
 */
module Markers {
  import opened Wrappers
  import opened Text

  const BeginPrefix: string := "# BEGIN "
  const EndPrefix: string := "# END "

  /** One automation module file: its config-relative path and its text, in glob order. */
  datatype ModuleFile = ModuleFile(rel: string, contents: string)

  /** The lines `_build_automation_blocks` makes for one file; the stripped text is a single entry. */
  function Block(f: ModuleFile): seq<string>
  {
    [BeginPrefix + f.rel, StripRight(f.contents, Whitespace), EndPrefix + f.rel, ""]
  }

  /** Every block's lines, file after file. */
  function BlockLines(files: seq<ModuleFile>): (r: seq<string>)
    ensures files != [] ==> r != []
  {
    if files == [] then [] else Block(files[0]) + BlockLines(files[1..])
  }

  /** `blocks.get(marker)`: the block of the file at that path (glob paths are distinct). */
  function BlockOf(files: seq<ModuleFile>, marker: string): Option<seq<string>>
  {
    if files == [] then None
    else if files[0].rel == marker then Some(Block(files[0]))
    else BlockOf(files[1..], marker)
  }

  /** The block looked up for a marker is the block of a file with that path, if there is one. */
  lemma {:induction false} BlockOfFinds(files: seq<ModuleFile>, marker: string)
    ensures BlockOf(files, marker).Some? <==> exists f :: f in files && f.rel == marker
    ensures BlockOf(files, marker).Some? ==>
      exists f :: f in files && f.rel == marker && BlockOf(files, marker).value == Block(f)
  {
    if files != [] && files[0].rel != marker {
      BlockOfFinds(files[1..], marker);
      assert forall f :: f in files && f.rel == marker ==> f in files[1..];
    }
  }

  /** The files whose marker was not found, in order. */
  function Unused(files: seq<ModuleFile>, used: set<string>): seq<ModuleFile>
  {
    if files == [] then []
    else (if files[0].rel in used then [] else [files[0]]) + Unused(files[1..], used)
  }

  /** The remaining files are exactly the files whose path no marker named. */
  lemma {:induction false} UnusedMembers(files: seq<ModuleFile>, used: set<string>)
    ensures forall f :: f in Unused(files, used) <==> f in files && f.rel !in used
  {
    if files != [] {
      UnusedMembers(files[1..], used);
    }
  }

  /** The path named by a `# BEGIN ` line: the rest of the line, stripped. */
  function MarkerOf(line: string): string
    requires StartsWith(line, BeginPrefix)
  {
    Strip(line[|BeginPrefix|..])
  }

  // ------------------------------------------------------------------ splicing

  /** The index of the first `# END ` line at or after `k`, or the number of lines. */
  function EndAt(lines: seq<string>, k: nat): (r: nat)
    requires k <= |lines|
    ensures k <= r <= |lines|
    ensures r < |lines| ==> StartsWith(lines[r], EndPrefix)
    ensures forall j :: k <= j < r ==> !StartsWith(lines[j], EndPrefix)
    decreases |lines| - k
  {
    if k == |lines| || StartsWith(lines[k], EndPrefix) then k else EndAt(lines, k + 1)
  }

  /** The spliced lines and the markers whose block was put in. */
  datatype Spliced = Spliced(output: seq<string>, used: set<string>)

  /**
   * The splice from line `i` on: a marked region (from `# BEGIN` through its `# END`, or to the
   * end when the `# END` is missing) becomes the current block of its file, or disappears when
   * no such file exists any more; every other line is copied.
   */
  function SpliceFrom(lines: seq<string>, i: nat, files: seq<ModuleFile>): (r: Spliced)
    requires i <= |lines|
    decreases |lines| - i, 1
  {
    if i == |lines| then Spliced([], {})
    else if StartsWith(lines[i], BeginPrefix) then Region(lines, i, files)
    else
      var rest := SpliceFrom(lines, i + 1, files);
      Spliced([lines[i]] + rest.output, rest.used)
  }

  /** The line after a marked region that starts at line `i`: after its `# END`, or the end. */
  function After(lines: seq<string>, i: nat): (r: nat)
    requires i < |lines|
    ensures i < r <= |lines|
  {
    var e := EndAt(lines, i + 1);
    if e < |lines| then e + 1 else e
  }

  /** The splice of a marked region starting at line `i`, and of what follows it. */
  function Region(lines: seq<string>, i: nat, files: seq<ModuleFile>): (r: Spliced)
    requires i < |lines| && StartsWith(lines[i], BeginPrefix)
    decreases |lines| - i, 0
  {
    var rest := SpliceFrom(lines, After(lines, i), files);
    match BlockOf(files, MarkerOf(lines[i]))
    case Some(b) => Spliced(b + rest.output, rest.used + {MarkerOf(lines[i])})
    case None => rest
  }

  /** The `while index < len(existing_lines)` loop of `merge_automations`. */
  method SpliceMarkers(lines: seq<string>, files: seq<ModuleFile>) returns (output: seq<string>, used: set<string>)
    ensures Spliced(output, used) == SpliceFrom(lines, 0, files)
  {
    output, used := [], {};
    var index := 0;
    while index < |lines|
      invariant index <= |lines|
      invariant SpliceFrom(lines, 0, files) ==
        Spliced(output + SpliceFrom(lines, index, files).output, used + SpliceFrom(lines, index, files).used)
      decreases |lines| - index
    {
      var line := lines[index];
      if StartsWith(line, BeginPrefix) {
        ghost var start := index;
        var marker := MarkerOf(line);
        index := index + 1;
        while index < |lines| && !StartsWith(lines[index], EndPrefix)
          invariant start < index <= |lines|
          invariant EndAt(lines, index) == EndAt(lines, start + 1)
          decreases |lines| - index
        {
          index := index + 1;
        }
        if index < |lines| {
          index := index + 1;
        }
        assert index == After(lines, start);
        var rest := SpliceFrom(lines, index, files);
        var block := BlockOf(files, marker);
        RegionStep(lines, start, files);
        if block.Some? {
          Regroup(output, block.value, rest.output);
          assert used + (rest.used + {marker}) == (used + {marker}) + rest.used;
          output := output + block.value;
          used := used + {marker};
        }
        continue;
      }
      assert output + ([line] + SpliceFrom(lines, index + 1, files).output) ==
        (output + [line]) + SpliceFrom(lines, index + 1, files).output;
      output := output + [line];
      index := index + 1;
    }
    assert output + [] == output;
  }

  /** The splice of a marked region: the file's current block, if it still exists, then the rest. */
  lemma RegionStep(lines: seq<string>, i: nat, files: seq<ModuleFile>)
    requires i < |lines| && StartsWith(lines[i], BeginPrefix)
    ensures SpliceFrom(lines, i, files) == Region(lines, i, files)
    ensures var rest := SpliceFrom(lines, After(lines, i), files);
      Region(lines, i, files) ==
        match BlockOf(files, MarkerOf(lines[i]))
        case Some(b) => Spliced(b + rest.output, rest.used + {MarkerOf(lines[i])})
        case None => rest
  {
  }

  /** Lines before the first `# BEGIN ` line are copied unchanged and use no block. */
  lemma {:induction false} SpliceKeepsOutside(lines: seq<string>, i: nat, k: nat, files: seq<ModuleFile>)
    requires i <= k <= |lines|
    requires forall j :: i <= j < k ==> !StartsWith(lines[j], BeginPrefix)
    ensures SpliceFrom(lines, i, files).output == lines[i..k] + SpliceFrom(lines, k, files).output
    ensures SpliceFrom(lines, i, files).used == SpliceFrom(lines, k, files).used
    decreases k - i
  {
    if i == k {
      assert lines[i..k] == [];
    } else {
      SpliceKeepsOutside(lines, i + 1, k, files);
      SplicePlain(lines, i, files);
      assert lines[i..k] == [lines[i]] + lines[i + 1..k];
      Regroup([lines[i]], lines[i + 1..k], SpliceFrom(lines, k, files).output);
    }
  }

  /** A line that does not open a block is copied. */
  lemma SplicePlain(lines: seq<string>, i: nat, files: seq<ModuleFile>)
    requires i < |lines| && !StartsWith(lines[i], BeginPrefix)
    ensures SpliceFrom(lines, i, files) ==
      Spliced([lines[i]] + SpliceFrom(lines, i + 1, files).output, SpliceFrom(lines, i + 1, files).used)
  {
  }

  /** A marked region of a current file is replaced by that file's current block. */
  lemma SpliceReplacesBlock(lines: seq<string>, i: nat, f: ModuleFile, files: seq<ModuleFile>)
    requires i < |lines| && lines[i] == BeginPrefix + f.rel && Strip(f.rel) == f.rel
    requires f in files && forall g :: g in files && g.rel == f.rel ==> g == f
    ensures StartsWith(lines[i], BeginPrefix)
    ensures SpliceFrom(lines, i, files).output == Block(f) + SpliceFrom(lines, After(lines, i), files).output
    ensures f.rel in SpliceFrom(lines, i, files).used
  {
    assert StartsWith(lines[i], BeginPrefix) by { assert lines[i][..|BeginPrefix|] == BeginPrefix; }
    assert lines[i][|BeginPrefix|..] == f.rel;
    BlockOfFinds(files, f.rel);
    RegionStep(lines, i, files);
  }

  // ------------------------------------------------------------------ merging

  /** `existing_lines`: the lines of the merged file, or none when it does not exist. */
  function ExistingLines(existing: Option<string>): seq<string>
  {
    if existing.Some? then SplitLines(existing.value) else []
  }

  /** The text written to an empty or missing merged file: every block, stripped, newline-terminated. */
  function FreshText(files: seq<ModuleFile>): string
  {
    Strip(Join(BlockLines(files), "\n")) + "\n"
  }

  /**
   * The merged lines for a non-empty file: the splice, then the blocks of the files no marker
   * named, after a blank separator line when the splice does not already end in a blank line.
   */
  function MergedLines(lines: seq<string>, files: seq<ModuleFile>): seq<string>
  {
    var s := SpliceFrom(lines, 0, files);
    Appended(s.output, Unused(files, s.used))
  }

  /** The spliced lines with the remaining files' blocks after them. */
  function Appended(spliced: seq<string>, remaining: seq<ModuleFile>): seq<string>
  {
    if remaining == [] then spliced
    else
      var sep := if spliced != [] && !IsBlank(spliced[|spliced| - 1]) then [""] else [];
      spliced + sep + BlockLines(remaining)
  }

  /** The text written when it differs from the old text, stripped and newline-terminated. */
  function WriteIfChanged(output: seq<string>, lines: seq<string>): (r: Option<string>)
    ensures r.Some? <==> Strip(Join(output, "\n")) != Strip(Join(lines, "\n"))
    ensures r.Some? ==> r.value == Strip(Join(output, "\n")) + "\n"
  {
    var newContent := Strip(Join(output, "\n")) + "\n";
    var oldContent := Strip(Join(lines, "\n")) + "\n";
    assert newContent[..|newContent| - 1] == Strip(Join(output, "\n"));
    assert oldContent[..|oldContent| - 1] == Strip(Join(lines, "\n"));
    if newContent != oldContent then Some(newContent) else None
  }

  /**
   * What `merge_automations` writes to `automations.yaml`, or None when it writes nothing: there
   * are no module files, or the merged text equals the stripped old text.
   */
  function MergedText(existing: Option<string>, files: seq<ModuleFile>): (r: Option<string>)
    ensures files == [] ==> r.None?
    ensures files != [] && ExistingLines(existing) == [] ==> r == Some(FreshText(files))
    ensures files != [] && ExistingLines(existing) != [] ==>
      r == WriteIfChanged(MergedLines(ExistingLines(existing), files), ExistingLines(existing))
  {
    if files == [] then None
    else
      var lines := ExistingLines(existing);
      if lines == [] then Some(FreshText(files))
      else WriteIfChanged(MergedLines(lines, files), lines)
  }

  /** `merge_automations`, given the merged file's text (if any) and the module files. */
  method MergeAutomations(existing: Option<string>, files: seq<ModuleFile>) returns (written: Option<string>)
    ensures written == MergedText(existing, files)
  {
    if files == [] {
      written := None;
      return;
    }
    var lines := ExistingLines(existing);
    if lines == [] {
      written := Some(FreshText(files));
      return;
    }
    var output, used := SpliceMarkers(lines, files);
    ghost var spliced := output;
    var remaining := Unused(files, used);
    if remaining != [] {
      if output != [] && !IsBlank(output[|output| - 1]) {
        output := output + [""];
      }
      output := output + BlockLines(remaining);
    }
    assert output == Appended(spliced, remaining);
    written := WriteIfChanged(output, lines);
  }

  /**
   * A merged file without markers keeps all of its lines, in order, and gets every module
   * file's block appended after them.
   */
  lemma MergeKeepsUnmarkedLines(lines: seq<string>, files: seq<ModuleFile>)
    requires lines != [] && files != []
    requires forall j :: 0 <= j < |lines| ==> !StartsWith(lines[j], BeginPrefix)
    ensures exists sep :: sep in {[], [""]} && MergedLines(lines, files) == lines + sep + BlockLines(files)
  {
    SpliceKeepsOutside(lines, 0, |lines|, files);
    assert lines[0..|lines|] == lines;
    assert SpliceFrom(lines, 0, files) == Spliced(lines, {});
    UnusedNone(files);
  }

  lemma {:induction false} UnusedNone(files: seq<ModuleFile>)
    ensures Unused(files, {}) == files
  {
    if files != [] {
      UnusedNone(files[1..]);
    }
  }

  // ------------------------------------------------------------------ copying back

  /** What `flush` writes: nothing outside a block, else the buffered lines, stripped. */
  function Flush(current: Option<string>, buffer: seq<string>): seq<(string, string)>
  {
    if current.None? then [] else [(current.value, Strip(Join(buffer, "\n")) + "\n")]
  }

  /**
   * The files `update_source_from_markers` writes, with their new text, for the lines left,
   * the file being collected and the lines collected for it: a `# BEGIN` or `# END` line ends
   * the current block, and lines outside any block are ignored.
   */
  function Sections(lines: seq<string>, current: Option<string>, buffer: seq<string>): seq<(string, string)>
  {
    if lines == [] then Flush(current, buffer)
    else if StartsWith(lines[0], BeginPrefix) then
      Flush(current, buffer) + Sections(lines[1..], Some(MarkerOf(lines[0])), [])
    else if StartsWith(lines[0], EndPrefix) then
      Flush(current, buffer) + Sections(lines[1..], None, [])
    else if current.Some? then Sections(lines[1..], current, buffer + [lines[0]])
    else Sections(lines[1..], current, buffer)
  }

  /** `update_source_from_markers`: the module files rewritten from the merged file, in order. */
  method UpdateSourceFromMarkers(merged: Option<string>) returns (writes: seq<(string, string)>)
    ensures writes == if merged.None? then [] else Sections(SplitLines(merged.value), None, [])
  {
    if merged.None? {
      return [];
    }
    var lines := SplitLines(merged.value);
    var current: Option<string> := None;
    var buffer: seq<string> := [];
    writes := [];
    for i := 0 to |lines|
      invariant writes + Sections(lines[i..], current, buffer) == Sections(lines, None, [])
    {
      var line := lines[i];
      ghost var rest := lines[i + 1..];
      SectionsAt(lines, i, current, buffer);
      if StartsWith(line, BeginPrefix) {
        Regroup(writes, Flush(current, buffer), Sections(rest, Some(MarkerOf(line)), []));
        writes := writes + Flush(current, buffer);
        current := Some(MarkerOf(line));
        buffer := [];
      } else if StartsWith(line, EndPrefix) {
        Regroup(writes, Flush(current, buffer), Sections(rest, None, []));
        writes := writes + Flush(current, buffer);
        current := None;
        buffer := [];
      } else if current.Some? {
        buffer := buffer + [line];
      }
    }
    assert lines[|lines|..] == [];
    writes := writes + Flush(current, buffer);
  }

  /** The copy-back from line `i`: one step of `Sections`. */
  lemma SectionsAt(lines: seq<string>, i: nat, current: Option<string>, buffer: seq<string>)
    requires i < |lines|
    ensures Sections(lines[i..], current, buffer) ==
      if StartsWith(lines[i], BeginPrefix) then
        Flush(current, buffer) + Sections(lines[i + 1..], Some(MarkerOf(lines[i])), [])
      else if StartsWith(lines[i], EndPrefix) then Flush(current, buffer) + Sections(lines[i + 1..], None, [])
      else if current.Some? then Sections(lines[i + 1..], current, buffer + [lines[i]])
      else Sections(lines[i + 1..], current, buffer)
  {
    assert lines[i..][1..] == lines[i + 1..];
  }

  lemma Regroup<T>(a: seq<T>, b: seq<T>, c: seq<T>)
    ensures a + (b + c) == (a + b) + c
  {
  }

  // ------------------------------------------------------------------ the round trip

  /** A line the copy-back reads as a marker. */
  predicate IsMarkerLine(line: string)
  {
    StartsWith(line, BeginPrefix) || StartsWith(line, EndPrefix)
  }

  /** The lines of a file's stripped text, as the merged file is read back. */
  function Body(f: ModuleFile): seq<string>
  {
    Split(StripRight(f.contents, Whitespace), '\n')
  }

  /**
   * A file whose block reads back as itself: a path that is non-empty, its own strip and
   * without a newline, and a text none of whose lines looks like a marker.
   */
  predicate ReadsBack(f: ModuleFile)
  {
    f.rel != [] && Strip(f.rel) == f.rel && '\n' !in f.rel &&
    forall l :: l in Body(f) ==> !IsMarkerLine(l)
  }

  /** A file's path with its text, stripped and newline-terminated. */
  function RestoredFile(f: ModuleFile): (string, string)
  {
    (f.rel, Strip(f.contents) + "\n")
  }

  /** The file texts the copy-back is expected to restore, in order. */
  function Restored(files: seq<ModuleFile>): (r: seq<(string, string)>)
    ensures |r| == |files|
    ensures forall i :: 0 <= i < |files| ==> r[i] == RestoredFile(files[i])
  {
    if files == [] then [] else [RestoredFile(files[0])] + Restored(files[1..])
  }

  /**
   * The marker round trip: after `merge_automations` writes a fresh merged file,
   * `update_source_from_markers` rewrites every module file, in order, with its own text
   * (stripped and newline-terminated), provided no line of it looks like a marker.
   */
  lemma FreshRoundTrip(files: seq<ModuleFile>)
    requires files != [] && forall f :: f in files ==> ReadsBack(f)
    ensures Sections(SplitLines(FreshText(files)), None, []) == Restored(files)
  {
    var read := ReadAll(files);
    BlockLinesJoin(files);
    FreshStripped(files);
    ReadAllLines(files);
    forall i | 0 <= i < |read|
      ensures '\n' !in read[i]
    {
      assert read[i] in read;
    }
    JoinedLines(read);
    AllReadBackOf(files);
    SectionsReadAll(files);
  }

  /** The joined lines of a fresh merged file start with `#` and end with the last path's end. */
  lemma FreshStripped(files: seq<ModuleFile>)
    requires files != [] && forall f :: f in files ==> ReadsBack(f)
    ensures Strip(Join(ReadAll(files), "\n") + "\n") == Join(ReadAll(files), "\n")
  {
    var read := ReadAll(files);
    var j := Join(read, "\n");
    var first, last := files[0], files[|files| - 1];
    assert last in files;
    ReadAllShape(files);
    JoinFirst(read, "\n");
    JoinLast(read, "\n");
    var b, e := read[0], read[|read| - 1];
    assert b == BeginPrefix + first.rel && |b| >= 1 && b[0] == '#';
    assert j[0] == '#' by { assert j[..|b|] == b; }
    assert e == EndPrefix + last.rel && e[|e| - 1] == last.rel[|last.rel| - 1];
    assert j[|j| - 1] == e[|e| - 1] by { assert j[|j| - |e|..] == e; }
    StripNewline(j);
  }

  /** The lines one block reads back as: its markers around its text's lines. */
  function Read(f: ModuleFile): seq<string>
  {
    [BeginPrefix + f.rel] + Body(f) + [EndPrefix + f.rel]
  }

  /** The lines of a fresh merged file: each block read back, with a blank line between blocks. */
  function ReadAll(files: seq<ModuleFile>): (r: seq<string>)
    requires files != []
    ensures r != []
  {
    if |files| == 1 then Read(files[0]) else Read(files[0]) + [""] + ReadAll(files[1..])
  }

  lemma {:induction false} ReadAllShape(files: seq<ModuleFile>)
    requires files != []
    ensures ReadAll(files)[0] == BeginPrefix + files[0].rel
    ensures ReadAll(files)[|ReadAll(files)| - 1] == EndPrefix + files[|files| - 1].rel
  {
    if |files| > 1 {
      ReadAllShape(files[1..]);
    }
  }

  /** No line of a block read back holds a newline. */
  lemma ReadLines(f: ModuleFile)
    requires ReadsBack(f)
    ensures forall l :: l in Read(f) ==> '\n' !in l
  {
    var c := StripRight(f.contents, Whitespace);
    SplitPieces(c, '\n');
    assert forall l :: l in Body(f) ==> '\n' !in l;
    assert '\n' !in BeginPrefix + f.rel && '\n' !in EndPrefix + f.rel;
  }

  /** No line of a fresh merged file holds a newline. */
  lemma {:induction false} ReadAllLines(files: seq<ModuleFile>)
    requires files != [] && forall f :: f in files ==> ReadsBack(f)
    ensures forall l :: l in ReadAll(files) ==> '\n' !in l
  {
    assert files[0] in files;
    ReadLines(files[0]);
    if |files| > 1 {
      assert forall g :: g in files[1..] ==> g in files;
      ReadAllLines(files[1..]);
    }
  }

  /** Joining the blocks gives the joined lines read back, plus the final blank line's newline. */
  lemma {:induction false} BlockLinesJoin(files: seq<ModuleFile>)
    requires files != []
    ensures Join(BlockLines(files), "\n") == Join(ReadAll(files), "\n") + "\n"
  {
    var f := files[0];
    BlockJoin(f);
    if |files| == 1 {
      assert BlockLines(files) == Block(f) + BlockLines([]);
      assert BlockLines(files) == Block(f);
    } else {
      var rest := files[1..];
      BlockLinesJoin(rest);
      var jf, jr := Join(Read(f), "\n"), Join(ReadAll(rest), "\n");
      JoinAppend(Block(f), BlockLines(rest), "\n");
      assert Join(BlockLines(files), "\n") == (jf + "\n") + "\n" + (jr + "\n");
      JoinAppend(Read(f), [""], "\n");
      assert Join(Read(f) + [""], "\n") == jf + "\n";
      JoinAppend(Read(f) + [""], ReadAll(rest), "\n");
      assert Join(ReadAll(files), "\n") == (jf + "\n") + "\n" + jr;
    }
  }

  /** One block joined: its first marker, its text, its last marker and a final newline. */
  lemma BlockJoin(f: ModuleFile)
    ensures Join(Block(f), "\n") == Join(Read(f), "\n") + "\n"
  {
    var c := StripRight(f.contents, Whitespace);
    var b, e := BeginPrefix + f.rel, EndPrefix + f.rel;
    JoinFour(b, c, e);
    ReadJoin(f);
  }

  lemma JoinFour(b: string, c: string, e: string)
    ensures Join([b, c, e, ""], "\n") == b + "\n" + c + "\n" + e + "\n"
  {
    JoinCons(e, [""], "\n");
    JoinCons(c, [e, ""], "\n");
    JoinCons(b, [c, e, ""], "\n");
    assert [b, c, e, ""] == [b] + [c, e, ""];
  }

  /** A block read back, joined: its first marker, its text and its last marker. */
  lemma ReadJoin(f: ModuleFile)
    ensures Join(Read(f), "\n") ==
      BeginPrefix + f.rel + "\n" + StripRight(f.contents, Whitespace) + "\n" + (EndPrefix + f.rel)
  {
    var c := StripRight(f.contents, Whitespace);
    var b, e := BeginPrefix + f.rel, EndPrefix + f.rel;
    JoinSplit(c, '\n');
    assert Join(Split(c, '\n'), "\n") == c;
    JoinAppend([b], Split(c, '\n'), "\n");
    JoinAppend([b] + Split(c, '\n'), [e], "\n");
  }

  /** Joining two non-empty lists puts one separator between their joins. */
  lemma {:induction false} JoinAppend(a: seq<string>, b: seq<string>, sep: string)
    requires a != [] && b != []
    ensures Join(a + b, sep) == Join(a, sep) + sep + Join(b, sep)
  {
    if |a| == 1 {
      assert (a + b)[1..] == b;
    } else {
      JoinAppend(a[1..], b, sep);
      assert (a + b)[1..] == a[1..] + b;
    }
  }

  /** A joined text ends with its last part. */
  lemma {:induction false} JoinLast(parts: seq<string>, sep: string)
    requires parts != []
    ensures EndsWith(Join(parts, sep), parts[|parts| - 1])
  {
    if |parts| > 1 {
      JoinLast(parts[1..], sep);
      var j := Join(parts[1..], sep);
      var x := parts[|parts| - 1];
      assert (parts[0] + sep + j)[|parts[0] + sep + j| - |x|..] == j[|j| - |x|..];
    }
  }

  /** A text that starts and ends outside the whitespace, with a newline after it, strips to itself. */
  lemma StripNewline(j: string)
    requires j != [] && j[0] !in Whitespace && j[|j| - 1] !in Whitespace
    ensures Strip(j + "\n") == j
  {
    var s := j + "\n";
    assert StripLeft(s, Whitespace) == s;
    assert s[..|s| - 1] == j;
    assert StripRight(j, Whitespace) == j;
  }

  /** The copy-back of a fresh merged file, file by file. */
  lemma {:induction false} SectionsReadAll(files: seq<ModuleFile>)
    requires files != [] && AllReadBack(files)
    ensures Sections(ReadAll(files), None, []) == Restored(files)
  {
    if |files| == 1 {
      SectionsReadOne(files);
    } else {
      SectionsReadAll(files[1..]);
      SectionsReadNext(files);
    }
  }

  /** Every file reads back, stated file by file. */
  predicate AllReadBack(files: seq<ModuleFile>)
  {
    files == [] || (ReadsBack(files[0]) && AllReadBack(files[1..]))
  }

  lemma {:induction false} AllReadBackOf(files: seq<ModuleFile>)
    requires forall f :: f in files ==> ReadsBack(f)
    ensures AllReadBack(files)
  {
    if files != [] {
      assert files[0] in files;
      assert forall g :: g in files[1..] ==> g in files;
      AllReadBackOf(files[1..]);
    }
  }

  lemma SectionsReadOne(files: seq<ModuleFile>)
    requires |files| == 1 && ReadsBack(files[0])
    ensures Sections(ReadAll(files), None, []) == Restored(files)
  {
    var f := files[0];
    SectionsRead(f, []);
    assert Read(f) + [] == Read(f);
    SectionsNone();
    assert Restored(files) == [RestoredFile(f)] + Restored([]);
  }

  lemma SectionsReadNext(files: seq<ModuleFile>)
    requires |files| > 1 && ReadsBack(files[0])
    requires Sections(ReadAll(files[1..]), None, []) == Restored(files[1..])
    ensures Sections(ReadAll(files), None, []) == Restored(files)
  {
    var f, rest := files[0], files[1..];
    SectionsRead(f, [""] + ReadAll(rest));
    Regroup(Read(f), [""], ReadAll(rest));
    SectionsBlank(ReadAll(rest));
  }

  lemma SectionsNone()
    ensures Sections([], None, []) == []
  {
  }

  /** A blank line outside any block is ignored. */
  lemma SectionsBlank(xs: seq<string>)
    ensures Sections([""] + xs, None, []) == Sections(xs, None, [])
  {
    assert ([""] + xs)[1..] == xs;
    assert !StartsWith("", BeginPrefix) && !StartsWith("", EndPrefix);
  }

  /** One block read back gives its file's text, and the copy-back goes on outside any block. */
  lemma SectionsRead(f: ModuleFile, rest: seq<string>)
    requires ReadsBack(f)
    ensures Sections(Read(f) + rest, None, []) == [RestoredFile(f)] + Sections(rest, None, [])
  {
    var e := EndPrefix + f.rel;
    var body := Body(f);
    assert Read(f) + rest == [BeginPrefix + f.rel] + (body + ([e] + rest));
    SectionsBegin(f.rel, body + ([e] + rest));
    SectionsBody(body, [e] + rest, f.rel, []);
    assert [] + body == body;
    SectionsEnd(f.rel, rest, body);
    FlushBody(f);
  }

  /** A `# BEGIN` line outside any block starts collecting its file. */
  lemma SectionsBegin(rel: string, xs: seq<string>)
    requires Strip(rel) == rel
    ensures Sections([BeginPrefix + rel] + xs, None, []) == Sections(xs, Some(rel), [])
  {
    var b := BeginPrefix + rel;
    assert StartsWith(b, BeginPrefix) by { assert b[..|BeginPrefix|] == BeginPrefix; }
    assert b[|BeginPrefix|..] == rel;
    assert ([b] + xs)[1..] == xs;
  }

  /** A `# END` line flushes the file being collected and leaves the block. */
  lemma SectionsEnd(rel: string, xs: seq<string>, buffer: seq<string>)
    ensures Sections([EndPrefix + rel] + xs, Some(rel), buffer) == Flush(Some(rel), buffer) + Sections(xs, None, [])
  {
    var e := EndPrefix + rel;
    assert !StartsWith(e, BeginPrefix) by { assert e[2] == 'E'; }
    assert StartsWith(e, EndPrefix) by { assert e[..|EndPrefix|] == EndPrefix; }
    assert ([e] + xs)[1..] == xs;
  }

  /** A file's flushed lines are its own text, stripped. */
  lemma FlushBody(f: ModuleFile)
    ensures Flush(Some(f.rel), Body(f)) == [RestoredFile(f)]
  {
    var c := StripRight(f.contents, Whitespace);
    JoinSplit(c, '\n');
    assert Join(Body(f), "\n") == c;
    StripAfterRight(f.contents, Whitespace);
  }

  /** Lines that are not markers are collected into the current file's buffer. */
  lemma {:induction false} SectionsBody(body: seq<string>, tail: seq<string>, rel: string, buffer: seq<string>)
    requires forall l :: l in body ==> !IsMarkerLine(l)
    ensures Sections(body + tail, Some(rel), buffer) == Sections(tail, Some(rel), buffer + body)
  {
    if body == [] {
      assert body + tail == tail && buffer + body == buffer;
    } else {
      assert body[0] in body;
      assert (body + tail)[1..] == body[1..] + tail;
      assert forall l :: l in body[1..] ==> l in body;
      SectionsBody(body[1..], tail, rel, buffer + [body[0]]);
      assert buffer + [body[0]] + body[1..] == buffer + body;
    }
  }

  /** Stripping the right end first changes nothing about `strip`. */
  lemma StripAfterRight(s: string, cs: set<char>)
    ensures StripSet(StripRight(s, cs), cs) == StripSet(s, cs)
  {
    var t := StripRight(s, cs);
    var w := s[|t|..];
    assert s == t + w;
    assert forall i :: 0 <= i < |w| ==> w[i] in cs by {
      forall i | 0 <= i < |w| ensures w[i] in cs {
        assert w[i] == s[|t| + i];
      }
    }
    StripPadded(t, w, cs);
  }

  /** `strip` ignores characters it strips anyway after the text. */
  lemma StripPadded(t: string, w: string, cs: set<char>)
    requires forall i :: 0 <= i < |w| ==> w[i] in cs
    ensures StripSet(t + w, cs) == StripSet(t, cs)
  {
    StripLeftPad(t, w, cs);
    if StripLeft(t, cs) == [] {
      StripLeftAll(w, cs);
    } else {
      StripRightPad(StripLeft(t, cs), w, cs);
    }
  }

  /** `lstrip` of a text with characters after it. */
  lemma {:induction false} StripLeftPad(t: string, w: string, cs: set<char>)
    ensures StripLeft(t + w, cs) == if StripLeft(t, cs) == [] then StripLeft(w, cs) else StripLeft(t, cs) + w
  {
    if t == [] {
      assert t + w == w;
    } else if t[0] !in cs {
      assert (t + w)[0] == t[0];
    } else {
      assert (t + w)[1..] == t[1..] + w;
      StripLeftPad(t[1..], w, cs);
    }
  }

  /** `rstrip` ignores further characters it strips anyway. */
  lemma {:induction false} StripRightPad(x: string, w: string, cs: set<char>)
    requires forall i :: 0 <= i < |w| ==> w[i] in cs
    ensures StripRight(x + w, cs) == StripRight(x, cs)
    decreases |w|
  {
    if w == [] {
      assert x + w == x;
    } else {
      var v := w[..|w| - 1];
      assert (x + w)[..|x + w| - 1] == x + v;
      StripRightPad(x, v, cs);
    }
  }
}
