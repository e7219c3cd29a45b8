/**
 * Taking items out of module files (yaml_modules.py, the item operations): finding the one
 * item a selector names, and removing the selected items from a list, mapping, helpers or
 * lovelace module file, with a record of every item taken.
 */
module ItemRemoval {
  import opened Wrappers
  import opened Yaml
  import opened YamlTags
  import opened ModuleDomains
  import opened ModuleItems
  import opened ModuleFiles
  import opened SyncOutput

  /** The fields of a request's selector the bridge reads, `Null` where the selector has none. */
  datatype Selector = Selector(id: Value, fingerprint: Value, key: Value, helperType: Value)

  const NotFound: string := "Item not found. Refresh the item list and try again."
  const Ambiguous: string := "Item match is ambiguous. Refresh the item list and try again."

  // ------------------------------------------------------------------ selecting an item

  /** An item passes the selector's id and fingerprint tests; a falsy field tests nothing. */
  predicate Accepts(sel: Selector, it: ModuleItem)
  {
    (!Truthy(sel.id) || Str(it.haId) == sel.id) &&
    (!Truthy(sel.fingerprint) || Str(it.fingerprint) == sel.fingerprint)
  }

  /** The positions of the items the selector accepts, in increasing order. */
  function MatchesOf(items: seq<ModuleItem>, sel: Selector): (r: seq<nat>)
  {
    if items == [] then []
    else
      var n := |items| - 1;
      MatchesOf(items[..n], sel) + (if Accepts(sel, items[n]) then [n] else [])
  }

  /** The matches are exactly the positions of the accepted items, in increasing order. */
  lemma {:induction false} MatchesOfShape(items: seq<ModuleItem>, sel: Selector)
    ensures forall k :: 0 <= k < |MatchesOf(items, sel)| ==>
      MatchesOf(items, sel)[k] < |items| && Accepts(sel, items[MatchesOf(items, sel)[k]])
    ensures forall j :: 0 <= j < |items| && Accepts(sel, items[j]) ==> j in MatchesOf(items, sel)
    ensures forall k, l :: 0 <= k < l < |MatchesOf(items, sel)| ==> MatchesOf(items, sel)[k] < MatchesOf(items, sel)[l]
  {
    if items != [] {
      var n := |items| - 1;
      var front := MatchesOf(items[..n], sel);
      MatchesOfShape(items[..n], sel);
      var last: seq<nat> := if Accepts(sel, items[n]) then [n] else [];
      var r := front + last;
      assert MatchesOf(items, sel) == r;
      forall k | 0 <= k < |r| ensures r[k] < |items| && Accepts(sel, items[r[k]]) {
        if k < |front| {
          assert r[k] == front[k] && items[..n][front[k]] == items[front[k]];
        } else {
          assert r[k] == n;
        }
      }
      forall j | 0 <= j < |items| && Accepts(sel, items[j]) ensures j in r {
        if j < n {
          assert items[..n][j] == items[j];
          assert j in front;
        } else {
          assert r[|front|] == j;
        }
      }
      forall k, l | 0 <= k < l < |r| ensures r[k] < r[l] {
        if l < |front| {
          assert r[k] == front[k] && r[l] == front[l];
        } else {
          assert r[l] == n;
          if k < |front| { assert r[k] == front[k]; }
        }
      }
    }
  }

  /** `_select_list_item`: the selected item with its position among the items. */
  function Select(items: seq<ModuleItem>, sel: Selector): (r: Result<(nat, ModuleItem)>)
    ensures r.Ok? ==> r.value.0 < |items| && r.value.1 == items[r.value.0]
    ensures r.Err? ==> r.error == NotFound || r.error == Ambiguous
  {
    var m := MatchesOf(items, sel);
    MatchesOfShape(items, sel);
    if |m| == 1 then Ok((m[0], items[m[0]]))
    else if m == [] then Err(NotFound)
    else Err(Ambiguous)
  }

  /** A successful selection chooses an item the selector accepts, and the only one. */
  lemma SelectFound(items: seq<ModuleItem>, sel: Selector)
    requires Select(items, sel).Ok?
    ensures Accepts(sel, Select(items, sel).value.1)
    ensures forall k :: 0 <= k < |items| && Accepts(sel, items[k]) ==> k == Select(items, sel).value.0
  {
    var m := MatchesOf(items, sel);
    MatchesOfShape(items, sel);
    forall k | 0 <= k < |items| && Accepts(sel, items[k]) ensures k == m[0] {
      assert k in m;
    }
  }

  /** A selection is not found exactly when the selector accepts no item. */
  lemma SelectNotFound(items: seq<ModuleItem>, sel: Selector)
    ensures Select(items, sel) == Err(NotFound) <==> forall j :: 0 <= j < |items| ==> !Accepts(sel, items[j])
  {
    var m := MatchesOf(items, sel);
    MatchesOfShape(items, sel);
    if m != [] {
      assert Accepts(sel, items[m[0]]);
    }
  }

  /** A selection is ambiguous exactly when the selector accepts two items. */
  lemma SelectAmbiguous(items: seq<ModuleItem>, sel: Selector)
    ensures Select(items, sel) == Err(Ambiguous) <==>
      exists j, k :: 0 <= j < k < |items| && Accepts(sel, items[j]) && Accepts(sel, items[k])
  {
    var m := MatchesOf(items, sel);
    MatchesOfShape(items, sel);
    if |m| >= 2 {
      assert Accepts(sel, items[m[0]]) && Accepts(sel, items[m[1]]) && m[0] < m[1];
    } else {
      forall j, k | 0 <= j < |items| && 0 <= k < |items| && Accepts(sel, items[j]) && Accepts(sel, items[k])
        ensures j == k
      {
        assert j in m && k in m;
      }
    }
  }

  /** A selection succeeds exactly when the selector accepts one item and no other. */
  lemma SelectExactlyOne(items: seq<ModuleItem>, sel: Selector)
    ensures Select(items, sel).Ok? <==>
      exists j :: 0 <= j < |items| && Accepts(sel, items[j]) &&
        forall k :: 0 <= k < |items| && Accepts(sel, items[k]) ==> k == j
  {
    SelectNotFound(items, sel);
    SelectAmbiguous(items, sel);
    if Select(items, sel).Ok? {
      SelectFound(items, sel);
      var j := Select(items, sel).value.0;
      assert Accepts(sel, items[j]);
    } else if Select(items, sel) == Err(Ambiguous) {
      var j, k :| 0 <= j < k < |items| && Accepts(sel, items[j]) && Accepts(sel, items[k]);
      forall x | 0 <= x < |items| && Accepts(sel, items[x])
        ensures exists y :: 0 <= y < |items| && Accepts(sel, items[y]) && y != x
      {
        if x == j { assert k != x; } else { assert j != x; }
      }
    }
  }

  /** `_select_list_item`, the loop collecting the matches. */
  method SelectListItem(items: seq<ModuleItem>, sel: Selector) returns (r: Result<(nat, ModuleItem)>)
    ensures r == Select(items, sel)
  {
    var matches: seq<nat> := [];
    MatchesOfShape(items, sel);
    for idx := 0 to |items|
      invariant matches == MatchesOf(items[..idx], sel)
    {
      assert items[..idx + 1][..idx] == items[..idx];
      if Accepts(sel, items[idx]) {
        matches := matches + [idx];
      }
    }
    assert items[..|items|] == items;
    if |matches| == 1 {
      return Ok((matches[0], items[matches[0]]));
    }
    if matches == [] {
      return Err(NotFound);
    }
    return Err(Ambiguous);
  }

  /** The selector that keeps only the fingerprint. */
  function FingerprintOnly(sel: Selector): Selector
  {
    Selector(Null, sel.fingerprint, Null, Null)
  }

  /**
   * `_select_list_item_flexible`: the strict selection, or, when it fails and the request
   * allows it, the one item whose fingerprint is the selector's.
   */
  function SelectFlexible(items: seq<ModuleItem>, sel: Selector, allowFingerprintOnly: bool)
    : (r: Result<(nat, ModuleItem)>)
    ensures r.Ok? ==> r.value.0 < |items| && r.value.1 == items[r.value.0]
  {
    var first := Select(items, sel);
    if first.Ok? || !allowFingerprintOnly then first
    else if !Truthy(sel.fingerprint) then Err(NotFound)
    else Select(items, FingerprintOnly(sel))
  }

  /**
   * The fallback only ever applies after a failed strict selection on a request that allows
   * it, and then chooses the one item carrying the selector's fingerprint.
   */
  lemma FlexibleFallback(items: seq<ModuleItem>, sel: Selector, allowFingerprintOnly: bool)
    ensures Select(items, sel).Ok? || !allowFingerprintOnly ==>
      SelectFlexible(items, sel, allowFingerprintOnly) == Select(items, sel)
    ensures SelectFlexible(items, sel, allowFingerprintOnly).Ok? && Truthy(sel.fingerprint) ==>
      Str(SelectFlexible(items, sel, allowFingerprintOnly).value.1.fingerprint) == sel.fingerprint
    ensures SelectFlexible(items, sel, allowFingerprintOnly).Ok? && !Select(items, sel).Ok? ==>
      forall k :: 0 <= k < |items| && Str(items[k].fingerprint) == sel.fingerprint ==>
        k == SelectFlexible(items, sel, allowFingerprintOnly).value.0
    ensures !Select(items, sel).Ok? && allowFingerprintOnly && !Truthy(sel.fingerprint) ==>
      SelectFlexible(items, sel, allowFingerprintOnly) == Err(NotFound)
  {
    var r := SelectFlexible(items, sel, allowFingerprintOnly);
    if r.Ok? && Select(items, sel).Ok? {
      SelectFound(items, sel);
    }
    if r.Ok? && !Select(items, sel).Ok? {
      SelectFound(items, FingerprintOnly(sel));
      forall k | 0 <= k < |items| && Str(items[k].fingerprint) == sel.fingerprint ensures k == r.value.0 {
        assert Accepts(FingerprintOnly(sel), items[k]);
      }
    }
  }

  /** `_select_list_item_flexible`. */
  method SelectListItemFlexible(items: seq<ModuleItem>, sel: Selector, allowFingerprintOnly: bool)
    returns (r: Result<(nat, ModuleItem)>)
    ensures r == SelectFlexible(items, sel, allowFingerprintOnly)
  {
    r := SelectListItem(items, sel);
    if r.Ok? || !allowFingerprintOnly {
      return;
    }
    if !Truthy(sel.fingerprint) {
      return Err(NotFound);
    }
    r := SelectListItem(items, FingerprintOnly(sel));
  }

  /** The outcome of every selector's selection, in the selectors' order. */
  function Selections(items: seq<ModuleItem>, sels: seq<Selector>, allowFingerprintOnly: bool)
    : (r: seq<Result<(nat, ModuleItem)>>)
    ensures |r| == |sels|
  {
    seq(|sels|, i requires 0 <= i < |sels| => SelectFlexible(items, sels[i], allowFingerprintOnly))
  }

  /** The values of the results in order, or the first error among them. */
  function Gather<T>(rs: seq<Result<T>>): Result<seq<T>>
  {
    if rs == [] then Ok([])
    else
      var n := |rs| - 1;
      var front := Gather(rs[..n]);
      if front.Err? then front
      else if rs[n].Err? then Err(rs[n].error)
      else Ok(front.value + [rs[n].value])
  }

  /** Gathering succeeds exactly when every result does, and then holds each value in place. */
  lemma {:induction false} GatherEach<T>(rs: seq<Result<T>>)
    ensures Gather(rs).Ok? <==> forall i :: 0 <= i < |rs| ==> rs[i].Ok?
    ensures Gather(rs).Ok? ==> |Gather(rs).value| == |rs|
    ensures Gather(rs).Ok? ==> forall i :: 0 <= i < |rs| ==> rs[i] == Ok(Gather(rs).value[i])
  {
    if rs != [] {
      var n := |rs| - 1;
      GatherEach(rs[..n]);
      assert forall i :: 0 <= i < n ==> rs[..n][i] == rs[i];
    }
  }

  /** Once a result fails, the later ones change nothing. */
  lemma {:induction false} GatherFailed<T>(rs: seq<Result<T>>, i: nat)
    requires i <= |rs| && Gather(rs[..i]).Err?
    ensures Gather(rs) == Gather(rs[..i])
    decreases |rs| - i
  {
    if i < |rs| {
      assert rs[..i + 1][..i] == rs[..i];
      GatherFailed(rs, i + 1);
    } else {
      assert rs[..i] == rs;
    }
  }

  lemma GatherStep<T>(rs: seq<Result<T>>, i: nat)
    requires i < |rs|
    ensures var front := Gather(rs[..i]);
      Gather(rs[..i + 1]) ==
        if front.Err? then front else if rs[i].Err? then Err(rs[i].error) else Ok(front.value + [rs[i].value])
  {
    assert rs[..i + 1][..i] == rs[..i];
  }

  /** Results that all fail with one error gather to that error. */
  lemma {:induction false} GatherAllFail<T>(rs: seq<Result<T>>, e: string)
    requires rs != [] && forall i :: 0 <= i < |rs| ==> rs[i] == Err(e)
    ensures Gather(rs) == Err(e)
  {
    var n := |rs| - 1;
    if n > 0 {
      assert forall i :: 0 <= i < n ==> rs[..n][i] == rs[i];
      GatherAllFail(rs[..n], e);
    }
  }

  /** The selections of all selectors, in order; the first selector that fails decides the error. */
  function Picks(items: seq<ModuleItem>, sels: seq<Selector>, allowFingerprintOnly: bool)
    : (r: Result<seq<(nat, ModuleItem)>>)
  {
    Gather(Selections(items, sels, allowFingerprintOnly))
  }

  /**
   * The selections succeed exactly when every selector selects an item, and then there is
   * one per selector, that selector's own.
   */
  lemma PicksEach(items: seq<ModuleItem>, sels: seq<Selector>, allowFingerprintOnly: bool)
    ensures Picks(items, sels, allowFingerprintOnly).Ok? <==>
      forall i :: 0 <= i < |sels| ==> SelectFlexible(items, sels[i], allowFingerprintOnly).Ok?
    ensures var r := Picks(items, sels, allowFingerprintOnly);
      r.Ok? ==> |r.value| == |sels| &&
                forall i :: 0 <= i < |sels| ==> SelectFlexible(items, sels[i], allowFingerprintOnly) == Ok(r.value[i])
  {
    var rs := Selections(items, sels, allowFingerprintOnly);
    GatherEach(rs);
    assert forall i :: 0 <= i < |sels| ==> rs[i] == SelectFlexible(items, sels[i], allowFingerprintOnly);
  }

  // ------------------------------------------------------------------ removing by position

  /** The entries from position `from` on whose positions are not dropped, in order. */
  function Without<T>(xs: seq<T>, drop: set<nat>, from: nat): seq<T>
    decreases |xs| - from
  {
    if from >= |xs| then [] else (if from in drop then [] else [xs[from]]) + Without(xs, drop, from + 1)
  }

  /** The positions `Without` keeps. */
  function KeptPositions(n: nat, drop: set<nat>, from: nat): seq<nat>
    decreases n - from
  {
    if from >= n then [] else (if from in drop then [] else [from]) + KeptPositions(n, drop, from + 1)
  }

  /** The kept positions lie in `[from, |xs|)`, are the positions there not dropped, and increase. */
  lemma {:induction false} KeptPositionsShape(n: nat, drop: set<nat>, from: nat)
    ensures forall j: nat :: j in KeptPositions(n, drop, from) <==> from <= j < n && j !in drop
    ensures forall k, l :: 0 <= k < l < |KeptPositions(n, drop, from)| ==>
      KeptPositions(n, drop, from)[k] < KeptPositions(n, drop, from)[l]
    decreases n - from
  {
    if from < n {
      KeptPositionsShape(n, drop, from + 1);
      var ps := KeptPositions(n, drop, from + 1);
      var here: seq<nat> := if from in drop then [] else [from];
      assert KeptPositions(n, drop, from) == here + ps;
      forall j: nat ensures j in here + ps <==> from <= j < n && j !in drop {
        assert j in here + ps <==> j in here || j in ps;
      }
      forall k, l | 0 <= k < l < |here + ps| ensures (here + ps)[k] < (here + ps)[l] {
        if here == [] {
          assert (here + ps)[k] == ps[k] && (here + ps)[l] == ps[l];
        } else if k == 0 {
          assert (here + ps)[l] == ps[l - 1] && ps[l - 1] in ps;
        } else {
          assert (here + ps)[k] == ps[k - 1] && (here + ps)[l] == ps[l - 1];
        }
      }
    }
  }

  /** The kept entries are the entries at the kept positions, one for one. */
  lemma {:induction false} WithoutAtKept<T>(xs: seq<T>, drop: set<nat>, from: nat)
    ensures |Without(xs, drop, from)| == |KeptPositions(|xs|, drop, from)|
    ensures forall k :: 0 <= k < |Without(xs, drop, from)| ==>
      KeptPositions(|xs|, drop, from)[k] < |xs| &&
      Without(xs, drop, from)[k] == xs[KeptPositions(|xs|, drop, from)[k]]
    decreases |xs| - from
  {
    if from < |xs| {
      WithoutAtKept(xs, drop, from + 1);
      var w := Without(xs, drop, from + 1);
      var ps := KeptPositions(|xs|, drop, from + 1);
      if from !in drop {
        forall k | 0 < k < |w| + 1 ensures ([from] + ps)[k] < |xs| && ([xs[from]] + w)[k] == xs[([from] + ps)[k]] {
          assert ([from] + ps)[k] == ps[k - 1] && ([xs[from]] + w)[k] == w[k - 1];
        }
      }
    }
  }

  /**
   * Removing positions keeps the other entries as an ordered subsequence: the kept entries are
   * the entries at the positions not dropped, each once, in increasing order of position.
   */
  lemma WithoutKeeps<T>(xs: seq<T>, drop: set<nat>)
    ensures |Without(xs, drop, 0)| == |KeptPositions(|xs|, drop, 0)|
    ensures forall k :: 0 <= k < |Without(xs, drop, 0)| ==>
      KeptPositions(|xs|, drop, 0)[k] < |xs| && Without(xs, drop, 0)[k] == xs[KeptPositions(|xs|, drop, 0)[k]]
    ensures forall j: nat :: j in KeptPositions(|xs|, drop, 0) <==> j < |xs| && j !in drop
    ensures forall k, l :: 0 <= k < l < |KeptPositions(|xs|, drop, 0)| ==>
      KeptPositions(|xs|, drop, 0)[k] < KeptPositions(|xs|, drop, 0)[l]
  {
    KeptPositionsShape(|xs|, drop, 0);
    WithoutAtKept(xs, drop, 0);
  }

  lemma WithoutStep<T>(xs: seq<T>, drop: set<nat>, t: nat)
    requires t < |xs|
    ensures Without(xs, drop, t) == (if t in drop then [] else [xs[t]]) + Without(xs, drop, t + 1)
  {
  }

  /**
   * `for idx in sorted(set(indices), reverse=True): data.pop(idx)`: the positions are visited
   * from the last down, popping those in the set, so no pop shifts a position still to come.
   */
  method PopPositions<T>(xs: seq<T>, drop: set<nat>) returns (data: seq<T>)
    ensures data == Without(xs, drop, 0)
  {
    data := xs;
    var t: nat := |xs|;
    while t > 0
      invariant t <= |xs| && data == xs[..t] + Without(xs, drop, t)
    {
      t := t - 1;
      WithoutStep(xs, drop, t);
      var rest := Without(xs, drop, t + 1);
      assert data == xs[..t] + ([xs[t]] + rest) by {
        assert xs[..t + 1] == xs[..t] + [xs[t]];
      }
      if t in drop {
        assert data[..t] == xs[..t] && data[t + 1..] == rest;
        data := data[..t] + data[t + 1..];
      }
    }
  }

  // ------------------------------------------------------------------ list and lovelace files

  /** The record of an item taken out of a module file. */
  datatype Removed =
    | FromList(data: Value, id: string, fingerprint: string, name: Option<string>, selector: Selector)
    | FromMapping(data: Value, id: string, key: string, selector: Selector)
    | FromHelpers(data: Value, id: string, key: string, helperType: Value, selector: Selector)

  /**
   * The position in the file's list that a selection removes: the item's own position in the
   * list (`item.order`), or, as `_remove_list_items` and `_remove_lovelace_items` are written,
   * its position among the parsed items, which skip the entries that are not maps.
   */
  function Position(p: (nat, ModuleItem), asWritten: bool): nat
  {
    if asWritten then p.0 else p.1.order
  }

  function Positions(ps: seq<(nat, ModuleItem)>, asWritten: bool): set<nat>
  {
    set i | 0 <= i < |ps| :: Position(ps[i], asWritten)
  }

  /** Items parsed from a list: no more of them than entries, each at a position inside the list. */
  predicate Inside(items: seq<ModuleItem>, entries: seq<Value>)
  {
    |items| <= |entries| && forall j :: 0 <= j < |items| ==> items[j].order < |entries|
  }

  /** Strictly increasing positions below `n` are at most `n` many. */
  lemma {:induction false} IncreasingFew(xs: seq<nat>, n: nat)
    requires forall k :: 0 <= k < |xs| ==> xs[k] < n
    requires forall k, l :: 0 <= k < l < |xs| ==> xs[k] < xs[l]
    ensures |xs| <= n
  {
    if xs != [] {
      var m := |xs| - 1;
      IncreasingFew(xs[..m], xs[m]);
    }
  }

  /** `_parse_list_items` on a copy of the list, with no line numbers and no ids taken before. */
  function ParsedItems(h: Value -> string, fs: Fs, spec: DomainSpec, rel: string, entries: seq<Value>)
    : (items: seq<ModuleItem>)
    ensures Inside(items, entries)
  {
    ParseListItemsShape(h, fs, spec, rel, entries, [], {});
    var items := ParseListItems(h, fs, spec, rel, Seq(entries), [], {}).items;
    IncreasingFew(seq(|items|, j requires 0 <= j < |items| => items[j].order), |entries|);
    items
  }

  /** One record per selector, in the selectors' order. */
  function ListRecords(entries: seq<Value>, ps: seq<(nat, ModuleItem)>, sels: seq<Selector>, asWritten: bool)
    : (r: seq<Removed>)
    requires |ps| == |sels| && forall i :: 0 <= i < |ps| ==> Position(ps[i], asWritten) < |entries|
    ensures |r| == |sels|
  {
    seq(|sels|, i requires 0 <= i < |sels| =>
      FromList(entries[Position(ps[i], asWritten)], ps[i].1.haId, ps[i].1.fingerprint, ps[i].1.name, sels[i]))
  }

  /** Every position a selection removes lies inside the list, whichever way it is taken. */
  lemma PicksInside(entries: seq<Value>, items: seq<ModuleItem>, sels: seq<Selector>, allowFingerprintOnly: bool,
                    asWritten: bool)
    requires Inside(items, entries) && Picks(items, sels, allowFingerprintOnly).Ok?
    ensures var ps := Picks(items, sels, allowFingerprintOnly).value;
      |ps| == |sels| &&
      forall i :: 0 <= i < |ps| ==> Position(ps[i], asWritten) < |entries| && ps[i].1.order < |entries|
  {
    PicksEach(items, sels, allowFingerprintOnly);
    var ps := Picks(items, sels, allowFingerprintOnly).value;
    forall i | 0 <= i < |ps| ensures Position(ps[i], asWritten) < |entries| && ps[i].1.order < |entries| {
      assert SelectFlexible(items, sels[i], allowFingerprintOnly) == Ok(ps[i]);
    }
  }

  /** The records of the items the selectors choose from a list, and the entries that stay. */
  function Removal(entries: seq<Value>, items: seq<ModuleItem>, sels: seq<Selector>, allowFingerprintOnly: bool,
                   asWritten: bool): (r: Result<(seq<Removed>, seq<Value>)>)
    requires Inside(items, entries)
  {
    match Picks(items, sels, allowFingerprintOnly)
    case Err(e) => Err(e)
    case Ok(ps) =>
      PicksInside(entries, items, sels, allowFingerprintOnly, asWritten);
      Ok((ListRecords(entries, ps, sels, asWritten), Without(entries, Positions(ps, asWritten), 0)))
  }

  /** The positions of the items the selectors choose. */
  ghost function Chosen(items: seq<ModuleItem>, sels: seq<Selector>, allowFingerprintOnly: bool): set<nat>
  {
    set i | 0 <= i < |sels| && SelectFlexible(items, sels[i], allowFingerprintOnly).Ok? ::
      SelectFlexible(items, sels[i], allowFingerprintOnly).value.1.order
  }

  /**
   * Removing items from a list: it fails exactly when some selector selects no single item;
   * otherwise there is one record per selector, carrying the entry at the chosen item's
   * position with the item's id, fingerprint and name, and the list keeps every other entry,
   * in order.
   */
  lemma RemovalRemovesSelected(entries: seq<Value>, items: seq<ModuleItem>, sels: seq<Selector>,
                               allowFingerprintOnly: bool)
    requires Inside(items, entries)
    ensures Removal(entries, items, sels, allowFingerprintOnly, false).Ok? <==>
      forall i :: 0 <= i < |sels| ==> SelectFlexible(items, sels[i], allowFingerprintOnly).Ok?
    ensures var r := Removal(entries, items, sels, allowFingerprintOnly, false);
      r.Ok? ==> |r.value.0| == |sels| && r.value.1 == Without(entries, Chosen(items, sels, allowFingerprintOnly), 0)
    ensures var r := Removal(entries, items, sels, allowFingerprintOnly, false);
      r.Ok? ==> forall i :: 0 <= i < |sels| ==>
        var it := SelectFlexible(items, sels[i], allowFingerprintOnly).value.1;
        it.order < |entries| && r.value.0[i] == FromList(entries[it.order], it.haId, it.fingerprint, it.name, sels[i])
  {
    PicksEach(items, sels, allowFingerprintOnly);
    var picks := Picks(items, sels, allowFingerprintOnly);
    if picks.Ok? {
      var ps := picks.value;
      PicksInside(entries, items, sels, allowFingerprintOnly, false);
      assert Positions(ps, false) == Chosen(items, sels, allowFingerprintOnly) by {
        forall x ensures x in Positions(ps, false) <==> x in Chosen(items, sels, allowFingerprintOnly) {
          if x in Chosen(items, sels, allowFingerprintOnly) {
            var i :| 0 <= i < |sels| && SelectFlexible(items, sels[i], allowFingerprintOnly).Ok? &&
              SelectFlexible(items, sels[i], allowFingerprintOnly).value.1.order == x;
            assert Position(ps[i], false) == x;
          }
          if x in Positions(ps, false) {
            var i :| 0 <= i < |ps| && Position(ps[i], false) == x;
            assert SelectFlexible(items, sels[i], allowFingerprintOnly) == Ok(ps[i]);
          }
        }
      }
    }
  }

  /** From an empty list nothing can be removed. */
  lemma EmptyRemoval(entries: seq<Value>, items: seq<ModuleItem>, sels: seq<Selector>, allowFingerprintOnly: bool)
    requires Inside(items, entries) && entries == []
    ensures Removal(entries, items, sels, allowFingerprintOnly, false) ==
      (if sels == [] then Ok(([], [])) else Err(NotFound))
  {
    if sels != [] {
      var rs := Selections(items, sels, allowFingerprintOnly);
      forall i | 0 <= i < |sels| ensures rs[i] == Err(NotFound) {
        SelectNotFound(items, sels[i]);
        SelectNotFound(items, FingerprintOnly(sels[i]));
      }
      GatherAllFail(rs, NotFound);
    }
  }

  lemma ListRecordsStep(entries: seq<Value>, ps: seq<(nat, ModuleItem)>, sels: seq<Selector>, i: nat,
                        p: (nat, ModuleItem))
    requires i < |sels| && |ps| == i && p.1.order < |entries|
    requires forall k :: 0 <= k < i ==> ps[k].1.order < |entries|
    ensures ListRecords(entries, ps + [p], sels[..i + 1], false) ==
      ListRecords(entries, ps, sels[..i], false) + [FromList(entries[p.1.order], p.1.haId, p.1.fingerprint, p.1.name, sels[i])]
  {
  }

  lemma PositionsStep(ps: seq<(nat, ModuleItem)>, p: (nat, ModuleItem))
    ensures Positions(ps + [p], false) == Positions(ps, false) + {p.1.order}
  {
    var qs := ps + [p];
    forall x | x in Positions(ps, false) ensures x in Positions(qs, false) {
      var i :| 0 <= i < |ps| && Position(ps[i], false) == x;
      assert Position(qs[i], false) == x;
    }
    assert Position(qs[|ps|], false) == p.1.order;
  }

  /** `_remove_list_items` and `_remove_lovelace_items` on a list: the selection loop, then the pops. */
  method RemoveEntries(entries: seq<Value>, items: seq<ModuleItem>, sels: seq<Selector>, allowFingerprintOnly: bool)
    returns (r: Result<(seq<Removed>, seq<Value>)>)
    requires Inside(items, entries)
    ensures r == Removal(entries, items, sels, allowFingerprintOnly, false)
  {
    // the records are kept in the selectors' order; Python keys them by the selector's JSON,
    // and equal selectors select the same item, so the ordered records come out the same
    var records: seq<Removed> := [];
    var indices: set<nat> := {};
    ghost var ps: seq<(nat, ModuleItem)> := [];
    ghost var choices := Selections(items, sels, allowFingerprintOnly);
    for i := 0 to |sels|
      invariant Gather(choices[..i]) == Ok(ps)
      invariant |ps| == i && forall k :: 0 <= k < i ==> ps[k].1.order < |entries|
      invariant records == ListRecords(entries, ps, sels[..i], false)
      invariant indices == Positions(ps, false)
    {
      GatherStep(choices, i);
      var picked := SelectListItemFlexible(items, sels[i], allowFingerprintOnly);
      assert choices[i] == picked;
      if picked.Err? {
        GatherFailed(choices, i + 1);
        return Err(picked.error);
      }
      var (idx, item) := picked.value;
      ListRecordsStep(entries, ps, sels, i, (idx, item));
      PositionsStep(ps, (idx, item));
      records := records + [FromList(entries[item.order], item.haId, item.fingerprint, item.name, sels[i])];
      indices := indices + {item.order};
      ps := ps + [(idx, item)];
    }
    assert choices[..|sels|] == choices && sels[..|sels|] == sels;
    var kept := PopPositions(entries, indices);
    return Ok((records, kept));
  }

  /**
   * `_remove_list_items` and `_remove_lovelace_items` as written take the index the selection
   * returns, a position among the parsed items, and apply it to the raw list. When an entry
   * that is not a map precedes the selected item, a different entry is removed: here a list
   * holding `1` and then the automation with id `a`, asked to remove `a`, loses the `1` and
   * keeps the automation, while taking the item's own position removes the automation.
   */
  lemma AsWrittenRemovesWrongEntry(h: Value -> string, fs: Fs, rel: string)
    ensures var entries := [Int(1), Map([("id", Str("a"))])];
      var items := ParsedItems(h, fs, AutomationSpec, rel, entries);
      var sels := [Selector(Str("a"), Null, Null, Null)];
      |items| == 1 && items[0].haId == "a" && items[0].order == 1 &&
      Removal(entries, items, sels, false, true) ==
        Ok(([FromList(Int(1), "a", items[0].fingerprint, items[0].name, sels[0])], [Map([("id", Str("a"))])])) &&
      Removal(entries, items, sels, false, false) ==
        Ok(([FromList(Map([("id", Str("a"))]), "a", items[0].fingerprint, items[0].name, sels[0])], [Int(1)]))
  {
    var entries := [Int(1), Map([("id", Str("a"))])];
    ParseSkipsNonMap(h, fs, rel);
    RemoveSecondOfTwo(entries, ParsedItems(h, fs, AutomationSpec, rel, entries));
  }

  /** The list `[1, {id: a}]` parses to one automation, `a`, at position 1. */
  lemma {:induction false} ParseSkipsNonMap(h: Value -> string, fs: Fs, rel: string)
    ensures var items := ParsedItems(h, fs, AutomationSpec, rel, [Int(1), Map([("id", Str("a"))])]);
      |items| == 1 && items[0].haId == "a" && items[0].order == 1
  {
    var spec := AutomationSpec;
    var m := Map([("id", Str("a"))]);
    var entries := [Int(1), m];
    var st0 := IdState([], false, {});
    assert OwnId(spec, m) == Some("a");
    AssignIdsStep(spec, rel, [], st0, entries, 0);
    AssignIdsStep(spec, rel, [], st0, entries, 1);
    assert entries[..0] == [] && entries[..2] == entries;
    var st1 := IdStep(spec, rel, [], st0, 0, Int(1));
    var ids := IdStep(spec, rel, [], st1, 1, m);
    var a := Assigned(1, "a", m.entries);
    assert ids.steps == [Skipped(0), Kept(a)];
    assert Kepts(ids.steps) == [a] by {
      assert ids.steps[..1] == [Skipped(0)] && [Skipped(0)][..0] == [];
    }
  }

  /**
   * `_remove_lovelace_items` as written has the same flaw: it pops `views[idx]` with the index
   * among the parsed views. A list-shaped dashboard module holding `1` and then the view with
   * path `a`, asked to remove `a`, loses the `1` and keeps the view; the corrected
   * `LovelaceRemoval` removes the view.
   */
  lemma AsWrittenLovelaceRemovesWrongView(h: Value -> string, fs: Fs, rel: string)
    ensures var views := [Int(1), Map([("path", Str("a"))])];
      var items := ParsedItems(h, fs, LovelaceSpec, rel, views);
      var sels := [Selector(Str("a"), Null, Null, Null)];
      |items| == 1 && items[0].haId == "a" && items[0].order == 1 &&
      Removal(views, items, sels, false, true) ==
        Ok(([FromList(Int(1), "a", items[0].fingerprint, items[0].name, sels[0])], [Map([("path", Str("a"))])])) &&
      LovelaceRemoval(h, fs, LovelaceSpec, rel, Parsed(Seq(views)), sels, false) ==
        Ok(([FromList(Map([("path", Str("a"))]), "a", items[0].fingerprint, items[0].name, sels[0])], Seq([Int(1)])))
  {
    var views := [Int(1), Map([("path", Str("a"))])];
    ParseSkipsNonMapView(h, fs, rel);
    RemoveSecondOfTwo(views, ParsedItems(h, fs, LovelaceSpec, rel, views));
  }

  /** The views `[1, {path: a}]` parse to one view, `a`, at position 1. */
  lemma {:induction false} ParseSkipsNonMapView(h: Value -> string, fs: Fs, rel: string)
    ensures var items := ParsedItems(h, fs, LovelaceSpec, rel, [Int(1), Map([("path", Str("a"))])]);
      |items| == 1 && items[0].haId == "a" && items[0].order == 1
  {
    var spec := LovelaceSpec;
    var m := Map([("path", Str("a"))]);
    var entries := [Int(1), m];
    var st0 := IdState([], false, {});
    assert OwnId(spec, m) == Some("a");
    AssignIdsStep(spec, rel, [], st0, entries, 0);
    AssignIdsStep(spec, rel, [], st0, entries, 1);
    assert entries[..0] == [] && entries[..2] == entries;
    var st1 := IdStep(spec, rel, [], st0, 0, Int(1));
    var ids := IdStep(spec, rel, [], st1, 1, m);
    var a := Assigned(1, "a", m.entries);
    assert ids.steps == [Skipped(0), Kept(a)];
    assert Kepts(ids.steps) == [a] by {
      assert ids.steps[..1] == [Skipped(0)] && [Skipped(0)][..0] == [];
    }
  }

  /** Removing the only item, which sits at position 1 of a two-entry list, by its id. */
  lemma RemoveSecondOfTwo(entries: seq<Value>, items: seq<ModuleItem>)
    requires |entries| == 2 && |items| == 1 && items[0].haId == "a" && items[0].order == 1
    ensures Inside(items, entries)
    ensures var sels := [Selector(Str("a"), Null, Null, Null)];
      Removal(entries, items, sels, false, true) ==
        Ok(([FromList(entries[0], "a", items[0].fingerprint, items[0].name, sels[0])], [entries[1]])) &&
      Removal(entries, items, sels, false, false) ==
        Ok(([FromList(entries[1], "a", items[0].fingerprint, items[0].name, sels[0])], [entries[0]]))
  {
    var sel := Selector(Str("a"), Null, Null, Null);
    var it := items[0];
    assert Accepts(sel, it);
    assert MatchesOf(items, sel) == [0] by {
      assert items[..0] == [] && items[..1] == items;
    }
    assert Select(items, sel) == Ok((0, it));
    var sels := [sel];
    var ps: seq<(nat, ModuleItem)> := [(0, it)];
    var rs: seq<Result<(nat, ModuleItem)>> := [Ok((0, it))];
    assert SelectFlexible(items, sel, false) == Ok((0, it));
    assert Selections(items, sels, false) == rs by {
      assert Selections(items, sels, false)[0] == rs[0];
    }
    assert Gather(rs) == Ok(ps) by {
      assert rs[..0] == [];
      assert Gather(rs[..0]) == Ok([]);
      assert Gather(rs[..0]).value + [rs[0].value] == ps;
      assert Gather(rs).value == ps;
    }
    assert Positions(ps, true) == {0} by {
      assert Position(ps[0], true) == 0;
    }
    assert Positions(ps, false) == {1} by {
      assert Position(ps[0], false) == 1;
    }
    assert Without(entries, {0}, 0) == [entries[1]] by {
      assert Without(entries, {0}, 2) == [];
    }
    assert Without(entries, {1}, 0) == [entries[0]] by {
      assert Without(entries, {1}, 2) == [];
    }
    assert Picks(items, sels, false) == Ok(ps);
    assert ListRecords(entries, ps, sels, true) == [FromList(entries[0], "a", it.fingerprint, it.name, sel)] by {
      assert ListRecords(entries, ps, sels, true)[0] == FromList(entries[0], "a", it.fingerprint, it.name, sel);
    }
    assert ListRecords(entries, ps, sels, false) == [FromList(entries[1], "a", it.fingerprint, it.name, sel)] by {
      assert ListRecords(entries, ps, sels, false)[0] == FromList(entries[1], "a", it.fingerprint, it.name, sel);
    }
  }

  /** `_remove_list_items` on the loaded file: a missing or blank file is an empty list. */
  function ListRemoval(h: Value -> string, fs: Fs, spec: DomainSpec, rel: string, content: FileContent,
                       sels: seq<Selector>, allowFingerprintOnly: bool): (r: Result<(seq<Removed>, seq<Value>)>)
    ensures content.Invalid? ==> r == Err(LoadErrorText(rel, content.message))
    ensures !content.Invalid? && !Document(content).Null? && !Document(content).Seq? ==>
      r == Err("Module file is not a list.")
    ensures !content.Invalid? && Document(content).Null? ==>
      r == (if sels == [] then Ok(([], [])) else Err(NotFound))
    ensures !content.Invalid? && Document(content).Seq? ==>
      var entries := Document(content).items;
      r == Removal(entries, ParsedItems(h, fs, spec, rel, entries), sels, allowFingerprintOnly, false)
  {
    if content.Invalid? then Err(LoadErrorText(rel, content.message))
    else
      var data := if Document(content).Null? then Seq([]) else Document(content);
      if !data.Seq? then Err("Module file is not a list.")
      else
        var items := ParsedItems(h, fs, spec, rel, data.items);
        if data.items == [] then
          EmptyRemoval(data.items, items, sels, allowFingerprintOnly);
          Removal(data.items, items, sels, allowFingerprintOnly, false)
        else Removal(data.items, items, sels, allowFingerprintOnly, false)
  }

  /** `_remove_list_items`. */
  method RemoveListItems(h: Value -> string, fs: Fs, spec: DomainSpec, rel: string, content: FileContent,
                         sels: seq<Selector>, allowFingerprintOnly: bool)
    returns (r: Result<(seq<Removed>, seq<Value>)>)
    ensures r == ListRemoval(h, fs, spec, rel, content, sels, allowFingerprintOnly)
  {
    if content.Invalid? {
      return Err(LoadErrorText(rel, content.message));
    }
    var data := Document(content);
    if data.Null? {
      data := Seq([]);
    }
    if !data.Seq? {
      return Err("Module file is not a list.");
    }
    var items := ParsedItems(h, fs, spec, rel, data.items);
    r := RemoveEntries(data.items, items, sels, allowFingerprintOnly);
  }

  /** `data.get("views") or []` of a dict-shaped lovelace module. */
  function ViewsOr(es: seq<(string, Value)>): Value
  {
    var v := Get(es, "views");
    if v.Some? && Truthy(v.value) then v.value else Seq([])
  }

  /**
   * `_remove_lovelace_items` on the loaded file: the views of a list-shaped module are the list,
   * those of a dict-shaped one its `views`; the payload keeps the module's shape and, for a
   * dict, its other keys.
   */
  function LovelaceRemoval(h: Value -> string, fs: Fs, spec: DomainSpec, rel: string, content: FileContent,
                           sels: seq<Selector>, allowFingerprintOnly: bool): (r: Result<(seq<Removed>, Value)>)
    ensures content.Invalid? ==> r == Err(LoadErrorText(rel, content.message))
    ensures !content.Invalid? && Document(content).Map? && !ViewsOr(Document(content).entries).Seq? ==>
      r == Err("Lovelace views are not a list.")
    ensures !content.Invalid? && !Document(content).Null? && !Document(content).Seq? && !Document(content).Map? ==>
      r == Err("Module file is not a valid lovelace module.")
    ensures r.Ok? && !Document(content).Map? ==> r.value.1.Seq?
    ensures r.Ok? && Document(content).Map? ==> r.value.1.Map?
  {
    if content.Invalid? then Err(LoadErrorText(rel, content.message))
    else
      var data := if Document(content).Null? then Seq([]) else Document(content);
      if data.Seq? then
        var removal := Removal(data.items, ParsedItems(h, fs, spec, rel, data.items), sels, allowFingerprintOnly, false);
        if removal.Err? then Err(removal.error) else Ok((removal.value.0, Seq(removal.value.1)))
      else if data.Map? then
        var views := ViewsOr(data.entries);
        if !views.Seq? then Err("Lovelace views are not a list.")
        else
          var removal := Removal(views.items, ParsedItems(h, fs, spec, rel, views.items), sels, allowFingerprintOnly, false);
          if removal.Err? then Err(removal.error)
          else Ok((removal.value.0, ViewsWithMeta(removal.value.1, Remove(data.entries, "views"))))
      else Err("Module file is not a valid lovelace module.")
  }

  /**
   * Removing views from a dict-shaped lovelace module writes back every key besides `views`
   * as it was, and under `views` the views that stay.
   */
  lemma {:induction false} LovelaceRemovalKeepsMeta(h: Value -> string, fs: Fs, spec: DomainSpec, rel: string, content: FileContent,
                                 sels: seq<Selector>, allowFingerprintOnly: bool, k: string)
    requires !content.Invalid? && Document(content).Map? && UniqueKeys(Document(content).entries)
    ensures var r := LovelaceRemoval(h, fs, spec, rel, content, sels, allowFingerprintOnly);
      var es := Document(content).entries;
      r.Ok? ==> (ViewsOr(es).Seq? &&
        var views := ViewsOr(es).items;
        Get(r.value.1.entries, k) ==
          if k == "views" then Some(Seq(Removal(views, ParsedItems(h, fs, spec, rel, views), sels, allowFingerprintOnly, false).value.1))
          else Get(es, k))
  {
    var es := Document(content).entries;
    RemoveUnique(es, "views");
    var views := ViewsOr(es);
    if views.Seq? {
      var removal := Removal(views.items, ParsedItems(h, fs, spec, rel, views.items), sels, allowFingerprintOnly, false);
      if removal.Ok? {
        ViewsWithMetaGet(removal.value.1, Remove(es, "views"), k);
      }
    }
  }

  /** `_remove_lovelace_items`. */
  method RemoveLovelaceItems(h: Value -> string, fs: Fs, spec: DomainSpec, rel: string, content: FileContent,
                             sels: seq<Selector>, allowFingerprintOnly: bool)
    returns (r: Result<(seq<Removed>, Value)>)
    ensures r == LovelaceRemoval(h, fs, spec, rel, content, sels, allowFingerprintOnly)
  {
    if content.Invalid? {
      return Err(LoadErrorText(rel, content.message));
    }
    var data := Document(content);
    if data.Null? {
      data := Seq([]);
    }
    var views: seq<Value>;
    var meta: seq<(string, Value)> := [];
    if data.Seq? {
      views := data.items;
    } else if data.Map? {
      var v := ViewsOr(data.entries);
      if !v.Seq? {
        return Err("Lovelace views are not a list.");
      }
      views := v.items;
      meta := Remove(data.entries, "views");
    } else {
      return Err("Module file is not a valid lovelace module.");
    }
    var items := ParsedItems(h, fs, spec, rel, views);
    var removal := RemoveEntries(views, items, sels, allowFingerprintOnly);
    if removal.Err? {
      return Err(removal.error);
    }
    var payload := if data.Seq? then Seq(removal.value.1) else ViewsWithMeta(removal.value.1, meta);
    return Ok((removal.value.0, payload));
  }

  // ------------------------------------------------------------------ mapping files

  /** The record of the entry a selector's `key` names in a mapping file. */
  function KeyRecord(es: seq<(string, Value)>, sel: Selector): (r: Result<Removed>)
  {
    if !Truthy(sel.key) then Err("Selector key is required.")
    else if !(sel.key.Str? && HasKey(es, sel.key.s)) then Err(NotFound)
    else Ok(FromMapping(Get(es, sel.key.s).value, sel.key.s, sel.key.s, sel))
  }

  function KeyRecords(es: seq<(string, Value)>, sels: seq<Selector>): (r: seq<Result<Removed>>)
    ensures |r| == |sels|
  {
    seq(|sels|, i requires 0 <= i < |sels| => KeyRecord(es, sels[i]))
  }

  /** `data.pop(key)` for every selector whose key is still there. */
  function DropKeys(es: seq<(string, Value)>, sels: seq<Selector>): seq<(string, Value)>
  {
    if sels == [] then es
    else
      var n := |sels| - 1;
      var front := DropKeys(es, sels[..n]);
      var key := sels[n].key;
      if key.Str? && HasKey(front, key.s) then Remove(front, key.s) else front
  }

  /** Some selector names key `k`. */
  predicate Names(sels: seq<Selector>, k: string)
  {
    exists i :: 0 <= i < |sels| && sels[i].key == Str(k)
  }

  /** After the pops, a key some selector names is gone and every other key reads as before. */
  lemma {:induction false} DropKeysGet(es: seq<(string, Value)>, sels: seq<Selector>, k: string)
    ensures Get(DropKeys(es, sels), k) == if Names(sels, k) then None else Get(es, k)
  {
    if sels != [] {
      var n := |sels| - 1;
      DropKeysGet(es, sels[..n], k);
      assert forall i :: 0 <= i < n ==> sels[..n][i] == sels[i];
      if Names(sels, k) && !Names(sels[..n], k) {
        var i :| 0 <= i < |sels| && sels[i].key == Str(k);
        assert i == n;
      }
      if Names(sels[..n], k) {
        var i :| 0 <= i < n && sels[..n][i].key == Str(k);
        assert sels[i].key == Str(k);
      }
    }
  }

  /** The entries of a mapping module file: a missing or blank file is an empty map. */
  function LoadedMap(rel: string, content: FileContent, notAMap: string): (r: Result<seq<(string, Value)>>)
    ensures content.Invalid? ==> r == Err(LoadErrorText(rel, content.message))
    ensures !content.Invalid? && Document(content).Null? ==> r == Ok([])
    ensures !content.Invalid? && Document(content).Map? ==> r == Ok(Document(content).entries)
    ensures !content.Invalid? && !Document(content).Null? && !Document(content).Map? ==> r == Err(notAMap)
  {
    if content.Invalid? then Err(LoadErrorText(rel, content.message))
    else
      var data := Document(content);
      if data.Null? then Ok([])
      else if !data.Map? then Err(notAMap)
      else Ok(data.entries)
  }

  /** `_remove_mapping_items` on the loaded file. */
  function MappingRemoval(rel: string, content: FileContent, sels: seq<Selector>): (r: Result<(seq<Removed>, seq<(string, Value)>)>)
  {
    match LoadedMap(rel, content, "Module file is not a map.")
    case Err(e) => Err(e)
    case Ok(es) =>
      var records := Gather(KeyRecords(es, sels));
      if records.Err? then Err(records.error) else Ok((records.value, DropKeys(es, sels)))
  }

  /**
   * Removing entries from a mapping file fails unless every selector names a key the file has;
   * then there is one record per selector, with the entry's value under its key.
   */
  lemma MappingRemovalSucceeds(rel: string, content: FileContent, sels: seq<Selector>)
    requires LoadedMap(rel, content, "Module file is not a map.").Ok?
    ensures var es := LoadedMap(rel, content, "Module file is not a map.").value;
      MappingRemoval(rel, content, sels).Ok? <==>
        forall i :: 0 <= i < |sels| ==> sels[i].key.Str? && sels[i].key.s != [] && HasKey(es, sels[i].key.s)
    ensures var es := LoadedMap(rel, content, "Module file is not a map.").value;
      var r := MappingRemoval(rel, content, sels);
      r.Ok? ==> (|r.value.0| == |sels| &&
        forall i :: 0 <= i < |sels| ==> (sels[i].key.Str? && HasKey(es, sels[i].key.s) &&
          r.value.0[i] == FromMapping(Get(es, sels[i].key.s).value, sels[i].key.s, sels[i].key.s, sels[i])))
  {
    var es := LoadedMap(rel, content, "Module file is not a map.").value;
    var rs := KeyRecords(es, sels);
    GatherEach(rs);
    assert forall i :: 0 <= i < |sels| ==> rs[i] == KeyRecord(es, sels[i]);
  }

  /** A successful removal from a mapping file loses exactly the keys named; every other key reads as before. */
  lemma MappingRemovalDrops(rel: string, content: FileContent, sels: seq<Selector>, k: string)
    requires MappingRemoval(rel, content, sels).Ok?
    ensures var es := LoadedMap(rel, content, "Module file is not a map.").value;
      Get(MappingRemoval(rel, content, sels).value.1, k) == if Names(sels, k) then None else Get(es, k)
  {
    var es := LoadedMap(rel, content, "Module file is not a map.").value;
    DropKeysGet(es, sels, k);
  }

  /** `_remove_mapping_items`: the loop making the records, then the loop popping the keys. */
  method RemoveMappingItems(rel: string, content: FileContent, sels: seq<Selector>)
    returns (r: Result<(seq<Removed>, seq<(string, Value)>)>)
    ensures r == MappingRemoval(rel, content, sels)
  {
    var loaded := LoadedMap(rel, content, "Module file is not a map.");
    if loaded.Err? {
      return Err(loaded.error);
    }
    var es := loaded.value;
    ghost var rs := KeyRecords(es, sels);
    var removed: seq<Removed> := [];
    for i := 0 to |sels|
      invariant Gather(rs[..i]) == Ok(removed)
    {
      GatherStep(rs, i);
      var key := sels[i].key;
      if !Truthy(key) {
        GatherFailed(rs, i + 1);
        return Err("Selector key is required.");
      }
      if !(key.Str? && HasKey(es, key.s)) {
        GatherFailed(rs, i + 1);
        return Err(NotFound);
      }
      removed := removed + [FromMapping(Get(es, key.s).value, key.s, key.s, sels[i])];
    }
    assert rs[..|sels|] == rs;
    var data := es;
    for i := 0 to |sels|
      invariant data == DropKeys(es, sels[..i])
    {
      assert sels[..i + 1][..i] == sels[..i];
      var key := sels[i].key;
      if key.Str? && HasKey(data, key.s) {
        data := Remove(data, key.s);
      }
    }
    assert sels[..|sels|] == sels;
    return Ok((removed, data));
  }

  // ------------------------------------------------------------------ helpers files

  /** The value of helper `k` of type `g`, when that type's group is a map holding it. */
  function HelperAt(es: seq<(string, Value)>, g: string, k: string): Option<Value>
  {
    match Get(es, g)
    case Some(Map(group)) => Get(group, k)
    case _ => None
  }

  /** The record of the helper a selector's `helper_type` and `key` name. */
  function HelperRecord(es: seq<(string, Value)>, sel: Selector): (r: Result<Removed>)
  {
    var ht := sel.helperType;
    var key := sel.key;
    if !Truthy(ht) || !Truthy(key) then Err("Selector helper_type and key are required.")
    else if !(ht.Str? && key.Str? && HelperAt(es, ht.s, key.s).Some?) then Err(NotFound)
    else Ok(FromHelpers(HelperAt(es, ht.s, key.s).value, key.s, key.s, ht, sel))
  }

  function HelperRecords(es: seq<(string, Value)>, sels: seq<Selector>): (r: seq<Result<Removed>>)
    ensures |r| == |sels|
  {
    seq(|sels|, i requires 0 <= i < |sels| => HelperRecord(es, sels[i]))
  }

  /** `helper_values.pop(key)`, and the group itself once it is empty. */
  function DropHelper(es: seq<(string, Value)>, sel: Selector): seq<(string, Value)>
  {
    var ht := sel.helperType;
    var key := sel.key;
    if ht.Str? && key.Str? && HelperAt(es, ht.s, key.s).Some? then
      var rest := Remove(Get(es, ht.s).value.entries, key.s);
      if rest == [] then Remove(es, ht.s) else Put(es, ht.s, Map(rest))
    else es
  }

  function DropHelpers(es: seq<(string, Value)>, sels: seq<Selector>): seq<(string, Value)>
  {
    if sels == [] then es
    else
      var n := |sels| - 1;
      DropHelper(DropHelpers(es, sels[..n]), sels[n])
  }

  /** Some selector names helper `k` of type `g`. */
  predicate NamesHelper(sels: seq<Selector>, g: string, k: string)
  {
    exists i :: 0 <= i < |sels| && sels[i].helperType == Str(g) && sels[i].key == Str(k)
  }

  /** Some selector names a helper of type `g`. */
  predicate NamesType(sels: seq<Selector>, g: string)
  {
    exists i :: 0 <= i < |sels| && sels[i].helperType == Str(g)
  }

  /**
   * One pop: the named helper is gone, every other helper reads as before, other keys of the
   * file are untouched, and a group is dropped rather than left empty.
   */
  lemma DropHelperGet(es: seq<(string, Value)>, sel: Selector, g: string, k: string)
    ensures HelperAt(DropHelper(es, sel), g, k) ==
      if sel.helperType == Str(g) && sel.key == Str(k) then None else HelperAt(es, g, k)
    ensures sel.helperType != Str(g) ==> Get(DropHelper(es, sel), g) == Get(es, g)
    ensures Get(DropHelper(es, sel), g) == Some(Map([])) ==> Get(es, g) == Some(Map([]))
  {
    var ht := sel.helperType;
    var key := sel.key;
    if ht.Str? && key.Str? && HelperAt(es, ht.s, key.s).Some? {
      var rest := Remove(Get(es, ht.s).value.entries, key.s);
      if rest != [] {
        PutGet(es, ht.s, Map(rest), g);
      }
    }
  }

  lemma {:induction false} DropHelpersGet(es: seq<(string, Value)>, sels: seq<Selector>, g: string, k: string)
    ensures HelperAt(DropHelpers(es, sels), g, k) == if NamesHelper(sels, g, k) then None else HelperAt(es, g, k)
    ensures !NamesType(sels, g) ==> Get(DropHelpers(es, sels), g) == Get(es, g)
    ensures Get(DropHelpers(es, sels), g) == Some(Map([])) ==> Get(es, g) == Some(Map([]))
  {
    if sels != [] {
      var n := |sels| - 1;
      var front := sels[..n];
      DropHelpersGet(es, front, g, k);
      DropHelperGet(DropHelpers(es, front), sels[n], g, k);
      assert forall i :: 0 <= i < n ==> front[i] == sels[i];
      if NamesHelper(sels, g, k) && !NamesHelper(front, g, k) {
        var i :| 0 <= i < |sels| && sels[i].helperType == Str(g) && sels[i].key == Str(k);
        assert i == n;
      }
      if NamesHelper(front, g, k) {
        var i :| 0 <= i < n && front[i].helperType == Str(g) && front[i].key == Str(k);
        assert sels[i] == front[i];
      }
      if NamesType(front, g) {
        var i :| 0 <= i < n && front[i].helperType == Str(g);
        assert sels[i] == front[i];
      }
    }
  }

  /** `_remove_helpers_items` on the loaded file. */
  function HelpersRemoval(rel: string, content: FileContent, sels: seq<Selector>): (r: Result<(seq<Removed>, seq<(string, Value)>)>)
  {
    match LoadedMap(rel, content, "Module file is not a helpers map.")
    case Err(e) => Err(e)
    case Ok(es) =>
      var records := Gather(HelperRecords(es, sels));
      if records.Err? then Err(records.error) else Ok((records.value, DropHelpers(es, sels)))
  }

  /**
   * Removing helpers fails unless every selector names a helper the file has; then there is
   * one record per selector, with the helper's value, its key and its type.
   */
  lemma HelpersRemovalSucceeds(rel: string, content: FileContent, sels: seq<Selector>)
    requires LoadedMap(rel, content, "Module file is not a helpers map.").Ok?
    ensures var es := LoadedMap(rel, content, "Module file is not a helpers map.").value;
      HelpersRemoval(rel, content, sels).Ok? <==>
        forall i :: 0 <= i < |sels| ==>
          Truthy(sels[i].helperType) && Truthy(sels[i].key) && sels[i].helperType.Str? && sels[i].key.Str? &&
          HelperAt(es, sels[i].helperType.s, sels[i].key.s).Some?
    ensures var es := LoadedMap(rel, content, "Module file is not a helpers map.").value;
      var r := HelpersRemoval(rel, content, sels);
      r.Ok? ==> (|r.value.0| == |sels| &&
        forall i :: 0 <= i < |sels| ==> (sels[i].helperType.Str? && sels[i].key.Str? &&
          var g, k := sels[i].helperType.s, sels[i].key.s;
          HelperAt(es, g, k).Some? && r.value.0[i] == FromHelpers(HelperAt(es, g, k).value, k, k, Str(g), sels[i])))
  {
    var es := LoadedMap(rel, content, "Module file is not a helpers map.").value;
    var rs := HelperRecords(es, sels);
    GatherEach(rs);
    assert forall i :: 0 <= i < |sels| ==> rs[i] == HelperRecord(es, sels[i]);
  }

  /**
   * A successful removal of helpers loses exactly the helpers named, leaves the groups no
   * selector names untouched and never keeps a group it emptied.
   */
  lemma HelpersRemovalDrops(rel: string, content: FileContent, sels: seq<Selector>, g: string, k: string)
    requires HelpersRemoval(rel, content, sels).Ok?
    ensures var es := LoadedMap(rel, content, "Module file is not a helpers map.").value;
      var rest := HelpersRemoval(rel, content, sels).value.1;
      HelperAt(rest, g, k) == (if NamesHelper(sels, g, k) then None else HelperAt(es, g, k)) &&
      (!NamesType(sels, g) ==> Get(rest, g) == Get(es, g)) &&
      (Get(rest, g) == Some(Map([])) ==> Get(es, g) == Some(Map([])))
  {
    var es := LoadedMap(rel, content, "Module file is not a helpers map.").value;
    DropHelpersGet(es, sels, g, k);
  }

  /** `_remove_helpers_items`: the loop making the records, then the loop popping the helpers. */
  method RemoveHelpersItems(rel: string, content: FileContent, sels: seq<Selector>)
    returns (r: Result<(seq<Removed>, seq<(string, Value)>)>)
    ensures r == HelpersRemoval(rel, content, sels)
  {
    var loaded := LoadedMap(rel, content, "Module file is not a helpers map.");
    if loaded.Err? {
      return Err(loaded.error);
    }
    var es := loaded.value;
    ghost var rs := HelperRecords(es, sels);
    var removed: seq<Removed> := [];
    for i := 0 to |sels|
      invariant Gather(rs[..i]) == Ok(removed)
    {
      GatherStep(rs, i);
      var ht := sels[i].helperType;
      var key := sels[i].key;
      if !Truthy(ht) || !Truthy(key) {
        GatherFailed(rs, i + 1);
        return Err("Selector helper_type and key are required.");
      }
      if !(ht.Str? && key.Str? && HelperAt(es, ht.s, key.s).Some?) {
        GatherFailed(rs, i + 1);
        return Err(NotFound);
      }
      removed := removed + [FromHelpers(HelperAt(es, ht.s, key.s).value, key.s, key.s, ht, sels[i])];
    }
    assert rs[..|sels|] == rs;
    var data := es;
    for i := 0 to |sels|
      invariant data == DropHelpers(es, sels[..i])
    {
      assert sels[..i + 1][..i] == sels[..i];
      var ht := sels[i].helperType;
      var key := sels[i].key;
      if ht.Str? && key.Str? && HelperAt(data, ht.s, key.s).Some? {
        var rest := Remove(Get(data, ht.s).value.entries, key.s);
        if rest == [] {
          data := Remove(data, ht.s);
        } else {
          data := Put(data, ht.s, Map(rest));
        }
      }
    }
    assert sels[..|sels|] == sels;
    return Ok((removed, data));
  }
}
