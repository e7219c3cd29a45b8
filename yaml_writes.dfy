/**
 * Writing the files a YAML Modules run produces (yaml_modules.py, `_write_yaml`,
 * `_write_domain_yaml`, `_write_text` and the module-file loop of the syncs): a file is
 * written only when its rendered text differs from what is on disk, an empty domain payload
 * deletes the domain file when it exists, and in preview mode nothing on disk changes while
 * the texts that would be written are recorded by path.
 */
module YamlWrites {
  import opened Wrappers
  import opened Text
  import opened Yaml
  import opened ModuleItems
  import opened SyncChoose
  import opened SyncOutput

  /**
   * The files under the configuration directory, by config-relative path, and the preview
   * being collected: `None` when the run writes to disk.
   */
  datatype Files = Files(texts: map<string, string>, preview: Option<map<string, string>>)

  /** `read_text`: a missing file reads as the empty text. */
  function ReadText(texts: map<string, string>, path: string): string
  {
    if path in texts then texts[path] else ""
  }

  /** A preview's entry for a path. */
  function Lookup(m: map<string, string>, path: string): Option<string>
  {
    if path in m then Some(m[path]) else None
  }

  // ------------------------------------------------------------------ one file

  /**
   * `_write_yaml` with `rendered = yaml_dump(data)`: nothing happens when the file already
   * reads as `rendered`; otherwise the preview records it, or the file is written.
   */
  function WriteYaml(render: Value -> string, st: Files, path: string, data: Value): (r: (bool, Files))
  {
    var rendered := render(data);
    if rendered == ReadText(st.texts, path) then (false, st)
    else if st.preview.Some? then (true, st.(preview := Some(st.preview.value[path := rendered])))
    else (true, st.(texts := st.texts[path := rendered]))
  }

  /**
   * A write reports a change exactly when the rendered text differs from the file's text.
   * Written to disk, the path then reads as the rendered text and every other path as
   * before; in preview mode the disk is untouched and the preview gains the text when it
   * differs.
   */
  lemma WriteYamlShape(render: Value -> string, st: Files, path: string, data: Value, q: string)
    ensures WriteYaml(render, st, path, data).0 <==> render(data) != ReadText(st.texts, path)
    ensures ReadText(WriteYaml(render, st, path, data).1.texts, q) ==
      if q == path && st.preview.None? then render(data) else ReadText(st.texts, q)
    ensures WriteYaml(render, st, path, data).1.preview.Some? <==> st.preview.Some?
    ensures st.preview.Some? ==>
      Lookup(WriteYaml(render, st, path, data).1.preview.value, q) ==
        if q == path && WriteYaml(render, st, path, data).0 then Some(render(data))
        else Lookup(st.preview.value, q)
  {
  }

  /** Writing the same data twice to disk: the second write changes nothing. */
  lemma WriteYamlIdempotent(render: Value -> string, st: Files, path: string, data: Value)
    requires st.preview.None?
    ensures var w := WriteYaml(render, st, path, data).1;
      !WriteYaml(render, w, path, data).0 && WriteYaml(render, w, path, data).1 == w
  {
    WriteYamlShape(render, st, path, data, path);
  }

  /** `_is_empty_yaml_payload`, and `path.exists()` on the files. */
  function WriteDomainYaml(render: Value -> string, st: Files, path: string, data: Value): (r: (bool, Files))
  {
    if IsEmptyPayload(data) then
      if path !in st.texts then (false, st)
      else if st.preview.Some? then (true, st.(preview := Some(st.preview.value[path := ""])))
      else (true, st.(texts := st.texts - {path}))
    else WriteYaml(render, st, path, data)
  }

  /**
   * The domain file: an empty payload deletes the file, reporting a change exactly when the
   * file existed (in preview mode recording the empty text instead); any other payload is
   * written as `_write_yaml` writes it. The same split as the domain action the sync decides.
   */
  lemma WriteDomainYamlShape(render: Value -> string, st: Files, path: string, data: Value)
    ensures DomainAction(data) == DeleteFile ==>
      (WriteDomainYaml(render, st, path, data).0 <==> path in st.texts)
    ensures DomainAction(data) == DeleteFile && st.preview.None? ==>
      WriteDomainYaml(render, st, path, data).1.texts == st.texts - {path}
    ensures DomainAction(data) == DeleteFile && st.preview.Some? ==>
      WriteDomainYaml(render, st, path, data).1.texts == st.texts &&
      (path in st.texts ==> WriteDomainYaml(render, st, path, data).1.preview == Some(st.preview.value[path := ""]))
    ensures DomainAction(data).WriteFile? ==>
      WriteDomainYaml(render, st, path, data) == WriteYaml(render, st, path, DomainAction(data).payload)
  {
    if DomainAction(data) == DeleteFile && st.preview.None? && path !in st.texts {
      assert st.texts - {path} == st.texts;
    }
  }

  /**
   * `_write_text`: in preview mode the text is always recorded and reported as a change;
   * otherwise the file is written only when its text differs.
   */
  function WriteText(st: Files, path: string, content: string): (r: (bool, Files))
  {
    if st.preview.Some? then (true, st.(preview := Some(st.preview.value[path := content])))
    else if content == ReadText(st.texts, path) then (false, st)
    else (true, st.(texts := st.texts[path := content]))
  }

  /** Afterwards the path reads as the content (on disk or in the preview); a change is reported unless the disk already had it. */
  lemma WriteTextShape(st: Files, path: string, content: string)
    ensures WriteText(st, path, content).0 <==> st.preview.Some? || content != ReadText(st.texts, path)
    ensures st.preview.None? ==> ReadText(WriteText(st, path, content).1.texts, path) == content
    ensures st.preview.Some? ==>
      WriteText(st, path, content).1.texts == st.texts &&
      Lookup(WriteText(st, path, content).1.preview.value, path) == Some(content)
  {
  }

  // ------------------------------------------------------------------ the module files of one sync

  /** The payload the loop writes to `q`: that of the last file entry for `q`, unless it is unreadable. */
  function Desired(d: FileItems, invalid: set<string>, payload: (string, seq<ModuleItem>) -> Value, q: string)
    : Option<Value>
  {
    if d == [] || q in invalid then None
    else
      var n := |d| - 1;
      if d[n].0 == q then Some(payload(q, d[n].1))
      else Desired(d[..n], invalid, payload, q)
  }

  /**
   * `for rel_path, items in desired_items_by_file.items(): ... _write_yaml(...)`: every
   * readable module file is written, and the paths that changed are collected in order.
   */
  function WriteModules(render: Value -> string, st: Files, d: FileItems, invalid: set<string>,
                        payload: (string, seq<ModuleItem>) -> Value): (r: (seq<string>, Files))
  {
    if d == [] then ([], st)
    else
      var n := |d| - 1;
      var front := WriteModules(render, st, d[..n], invalid, payload);
      if d[n].0 in invalid then front
      else
        var w := WriteYaml(render, front.1, d[n].0, payload(d[n].0, d[n].1));
        (if w.0 then front.0 + [d[n].0] else front.0, w.1)
  }

  /**
   * After the loop in write mode every module file reads as its rendered payload; in preview
   * mode, and for every other path, the disk is as it was.
   */
  lemma {:induction false} WriteModulesTexts(render: Value -> string, st: Files, d: FileItems, invalid: set<string>,
                                             payload: (string, seq<ModuleItem>) -> Value, q: string)
    ensures WriteModules(render, st, d, invalid, payload).1.preview.Some? <==> st.preview.Some?
    ensures ReadText(WriteModules(render, st, d, invalid, payload).1.texts, q) ==
      if st.preview.None? && Desired(d, invalid, payload, q).Some? then render(Desired(d, invalid, payload, q).value)
      else ReadText(st.texts, q)
  {
    if d != [] {
      var n := |d| - 1;
      WriteModulesTexts(render, st, d[..n], invalid, payload, q);
      var front := WriteModules(render, st, d[..n], invalid, payload);
      if d[n].0 !in invalid {
        WriteYamlShape(render, front.1, d[n].0, payload(d[n].0, d[n].1), q);
      }
    }
  }

  lemma FileKeysPrefix(d: FileItems, n: nat)
    requires n <= |d| && NoDuplicates(FileKeys(d))
    ensures NoDuplicates(FileKeys(d[..n]))
    ensures forall i :: 0 <= i < n ==> d[i].0 != d[n - 1].0 || i == n - 1
  {
    assert forall i :: 0 <= i < n ==> FileKeys(d[..n])[i] == FileKeys(d)[i];
  }

  /** With no key given twice, a path not among the first files has no payload from them. */
  lemma {:induction false} DesiredAbsent(d: FileItems, invalid: set<string>, payload: (string, seq<ModuleItem>) -> Value,
                                         q: string)
    requires forall i :: 0 <= i < |d| ==> d[i].0 != q
    ensures Desired(d, invalid, payload, q).None?
  {
    if d != [] {
      var n := |d| - 1;
      assert forall i :: 0 <= i < n ==> d[..n][i] == d[i];
      DesiredAbsent(d[..n], invalid, payload, q);
    }
  }

  /**
   * No module file given twice: a path is reported as changed exactly when it is a readable
   * module file whose rendered payload differs from its text on disk before the run.
   */
  lemma {:induction false} WriteModulesChanged(render: Value -> string, st: Files, d: FileItems, invalid: set<string>,
                                               payload: (string, seq<ModuleItem>) -> Value, q: string)
    requires NoDuplicates(FileKeys(d))
    ensures q in WriteModules(render, st, d, invalid, payload).0 <==>
      Desired(d, invalid, payload, q).Some? && render(Desired(d, invalid, payload, q).value) != ReadText(st.texts, q)
  {
    if d != [] {
      var n := |d| - 1;
      FileKeysPrefix(d, |d|);
      FileKeysPrefix(d, n);
      WriteModulesChanged(render, st, d[..n], invalid, payload, q);
      var front := WriteModules(render, st, d[..n], invalid, payload);
      var k := d[n].0;
      if q == k {
        assert forall i :: 0 <= i < n ==> d[..n][i].0 != k by {
          forall i | 0 <= i < n ensures d[..n][i].0 != k {
            assert FileKeys(d)[i] != FileKeys(d)[n];
          }
        }
        DesiredAbsent(d[..n], invalid, payload, k);
        WriteModulesTexts(render, st, d[..n], invalid, payload, k);
        if k !in invalid {
          WriteYamlShape(render, front.1, k, payload(k, d[n].1), k);
        }
      }
    }
  }

  /** No module file given twice: the preview ends up holding the rendered payload of every changed file. */
  lemma {:induction false} WriteModulesPreview(render: Value -> string, st: Files, d: FileItems, invalid: set<string>,
                                               payload: (string, seq<ModuleItem>) -> Value, q: string)
    requires st.preview.Some? && NoDuplicates(FileKeys(d))
    ensures WriteModules(render, st, d, invalid, payload).1.preview.Some?
    ensures q in WriteModules(render, st, d, invalid, payload).0 ==> Desired(d, invalid, payload, q).Some?
    ensures Lookup(WriteModules(render, st, d, invalid, payload).1.preview.value, q) ==
      if q in WriteModules(render, st, d, invalid, payload).0 then Some(render(Desired(d, invalid, payload, q).value))
      else Lookup(st.preview.value, q)
  {
    WriteModulesTexts(render, st, d, invalid, payload, q);
    WriteModulesChanged(render, st, d, invalid, payload, q);
    if d != [] {
      var n := |d| - 1;
      FileKeysPrefix(d, |d|);
      FileKeysPrefix(d, n);
      WriteModulesPreview(render, st, d[..n], invalid, payload, q);
      WriteModulesChanged(render, st, d[..n], invalid, payload, q);
      var front := WriteModules(render, st, d[..n], invalid, payload);
      var k := d[n].0;
      WriteModulesTexts(render, st, d[..n], invalid, payload, q);
      if k !in invalid {
        WriteYamlShape(render, front.1, k, payload(k, d[n].1), q);
      }
      if q == k {
        assert forall i :: 0 <= i < n ==> d[..n][i].0 != k by {
          forall i | 0 <= i < n ensures d[..n][i].0 != k {
            assert FileKeys(d)[i] != FileKeys(d)[n];
          }
        }
        DesiredAbsent(d[..n], invalid, payload, k);
      }
    }
  }

  /** No module file given twice: the payload the loop writes to a file is the one the sync decided for it. */
  lemma {:induction false} DesiredAt(d: FileItems, invalid: set<string>, payload: (string, seq<ModuleItem>) -> Value, i: nat)
    requires i < |d| && NoDuplicates(FileKeys(d))
    ensures Desired(d, invalid, payload, d[i].0) == if d[i].0 in invalid then None else Some(payload(d[i].0, d[i].1))
  {
    var n := |d| - 1;
    FileKeysPrefix(d, |d|);
    if i < n {
      assert FileKeys(d)[i] != FileKeys(d)[n];
      FileKeysPrefix(d, n);
      assert d[..n][i] == d[i];
      DesiredAt(d[..n], invalid, payload, i);
    }
  }

  /**
   * Writing to disk, every module file the sync decided to write reads afterwards as its
   * rendered payload.
   */
  lemma SyncModuleFilesWritten(render: Value -> string, st: Files, d: FileItems, invalid: set<string>,
                               payload: (string, seq<ModuleItem>) -> Value, p: string, v: Value)
    requires st.preview.None? && NoDuplicates(FileKeys(d)) && (p, v) in ModuleWrites(d, invalid, payload)
    ensures ReadText(WriteModules(render, st, d, invalid, payload).1.texts, p) == render(v)
  {
    var i :| 0 <= i < |d| && d[i].0 !in invalid && (p, v) == (d[i].0, payload(d[i].0, d[i].1));
    DesiredAt(d, invalid, payload, i);
    WriteModulesTexts(render, st, d, invalid, payload, p);
  }

  /** The module-file loop of a sync. */
  method WriteModuleFiles(render: Value -> string, st: Files, d: FileItems, invalid: set<string>,
                          payload: (string, seq<ModuleItem>) -> Value)
    returns (changed: seq<string>, out: Files)
    ensures (changed, out) == WriteModules(render, st, d, invalid, payload)
  {
    changed, out := [], st;
    for i := 0 to |d|
      invariant (changed, out) == WriteModules(render, st, d[..i], invalid, payload)
    {
      assert d[..i + 1][..i] == d[..i];
      var rel := d[i].0;
      if rel in invalid {
        continue;
      }
      var rendered := render(payload(rel, d[i].1));
      if rendered != ReadText(out.texts, rel) {
        if out.preview.Some? {
          out := out.(preview := Some(out.preview.value[rel := rendered]));
        } else {
          out := out.(texts := out.texts[rel := rendered]);
        }
        changed := changed + [rel];
      }
    }
    assert d[..|d|] == d;
  }
}
