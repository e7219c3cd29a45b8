/**
 * The YAML data the bridge loads and writes: Python's None, bool, int, str, list and
 * insertion-ordered dict, plus `TaggedValue` (yaml_tags.py) for a node carrying an
 * explicit `!` tag. Includes the handful of Python operations the bridge applies to them.
 */
module Yaml {
  import opened Wrappers
  import opened Text

  datatype Value =
    | Null
    | Bool(b: bool)
    | Int(i: int)
    | Str(s: string)
    | Seq(items: seq<Value>)
    | Map(entries: seq<(string, Value)>)
    /** `TaggedValue(tag, value, line)`: the tag text includes the leading `!`. */
    | Tagged(tag: string, payload: Value, line: Option<int>)

  // ------------------------------------------------------------------ dict operations

  function Keys(es: seq<(string, Value)>): (r: seq<string>)
    ensures |r| == |es| && forall i :: 0 <= i < |es| ==> r[i] == es[i].0
  {
    if es == [] then [] else [es[0].0] + Keys(es[1..])
  }

  predicate HasKey(es: seq<(string, Value)>, k: string)
  {
    exists i :: 0 <= i < |es| && es[i].0 == k
  }

  /** A Python dict never holds a key twice. */
  predicate UniqueKeys(es: seq<(string, Value)>)
  {
    NoDuplicates(Keys(es))
  }

  lemma HasKeyKeys(es: seq<(string, Value)>, k: string)
    ensures HasKey(es, k) <==> k in Keys(es)
  {
    if k in Keys(es) { var i :| 0 <= i < |es| && Keys(es)[i] == k; assert es[i].0 == k; }
  }

  /** `d.get(k)` (None when absent). */
  function Get(es: seq<(string, Value)>, k: string): (r: Option<Value>)
    ensures r.Some? <==> HasKey(es, k)
    ensures r.Some? ==> exists i :: 0 <= i < |es| && es[i] == (k, r.value)
  {
    if es == [] then None
    else if es[0].0 == k then Some(es[0].1)
    else
      var r := Get(es[1..], k);
      assert HasKey(es, k) ==> HasKey(es[1..], k) by {
        if HasKey(es, k) { var i :| 0 <= i < |es| && es[i].0 == k; assert es[1..][i - 1] == es[i]; }
      }
      assert r.Some? ==> HasKey(es, k) by {
        if r.Some? { var i :| 0 <= i < |es[1..]| && es[1..][i].0 == k; assert es[i + 1].0 == k; }
      }
      r
  }

  /** `d.get` on a one-entry dict display. */
  lemma GetSingle(k1: string, v1: Value, k: string)
    ensures Get([(k1, v1)], k) == if k == k1 then Some(v1) else None
  {
    assert [(k1, v1)][1..] == [];
  }

  /** `d.get` on a two-entry dict display. */
  lemma GetPair(k1: string, v1: Value, k2: string, v2: Value, k: string)
    ensures Get([(k1, v1), (k2, v2)], k) ==
      if k == k1 then Some(v1) else if k == k2 then Some(v2) else None
  {
    assert [(k1, v1), (k2, v2)][1..] == [(k2, v2)];
    GetSingle(k2, v2, k);
  }

  /** `d.get` on a three-entry dict display. */
  lemma GetTriple(k1: string, v1: Value, k2: string, v2: Value, k3: string, v3: Value, k: string)
    ensures Get([(k1, v1), (k2, v2), (k3, v3)], k) ==
      if k == k1 then Some(v1) else if k == k2 then Some(v2) else if k == k3 then Some(v3) else None
  {
    assert [(k1, v1), (k2, v2), (k3, v3)][1..] == [(k2, v2), (k3, v3)];
    GetPair(k2, v2, k3, v3, k);
  }

  /** `d[k] = v`: replaces the value in place when `k` is present, else appends `(k, v)`. */
  function Put(es: seq<(string, Value)>, k: string, v: Value): (r: seq<(string, Value)>)
    ensures HasKey(es, k) ==> Keys(r) == Keys(es)
    ensures !HasKey(es, k) ==> Keys(r) == Keys(es) + [k]
  {
    if es == [] then [(k, v)]
    else if es[0].0 == k then [(k, v)] + es[1..]
    else
      var t := Put(es[1..], k, v);
      HasKeyTail(es, k);
      assert Keys([es[0]] + t) == [es[0].0] + Keys(t);
      assert Keys(es) == [es[0].0] + Keys(es[1..]);
      [es[0]] + t
  }

  lemma HasKeyTail(es: seq<(string, Value)>, k: string)
    requires es != [] && es[0].0 != k
    ensures HasKey(es, k) <==> HasKey(es[1..], k)
  {
    if HasKey(es, k) { var i :| 0 <= i < |es| && es[i].0 == k; assert es[1..][i - 1] == es[i]; }
    if HasKey(es[1..], k) { var i :| 0 <= i < |es[1..]| && es[1..][i].0 == k; assert es[i + 1].0 == k; }
  }

  /** Setting a new key appends it at the end. */
  lemma {:induction false} PutAbsent(es: seq<(string, Value)>, k: string, v: Value)
    requires !HasKey(es, k)
    ensures Put(es, k, v) == es + [(k, v)]
  {
    if es != [] {
      HasKeyTail(es, k);
      PutAbsent(es[1..], k, v);
      assert es == [es[0]] + es[1..];
    }
  }

  /** After `d[k] = v`, `d[k]` is `v` and every other key reads as before. */
  lemma {:induction false} PutGet(es: seq<(string, Value)>, k: string, v: Value, k': string)
    ensures Get(Put(es, k, v), k') == if k' == k then Some(v) else Get(es, k')
  {
    if es != [] && es[0].0 != k {
      PutGet(es[1..], k, v, k');
    }
  }

  /** Appending an entry: earlier keys win, the new key reads as its value. */
  lemma {:induction false} GetAppend(es: seq<(string, Value)>, k: string, v: Value, k': string)
    ensures Get(es + [(k, v)], k') == if Get(es, k').Some? then Get(es, k') else if k' == k then Some(v) else None
  {
    if es != [] && es[0].0 != k' {
      assert (es + [(k, v)])[1..] == es[1..] + [(k, v)];
      GetAppend(es[1..], k, v, k');
    }
  }

  /** A dict minus its last entry still has unique keys, none of them the last entry's key. */
  lemma UniqueKeysPrefix(es: seq<(string, Value)>)
    requires UniqueKeys(es) && es != []
    ensures UniqueKeys(es[..|es| - 1]) && !HasKey(es[..|es| - 1], es[|es| - 1].0)
  {
    var p := es[..|es| - 1];
    assert Keys(p) == Keys(es)[..|es| - 1];
    forall i | 0 <= i < |p| ensures p[i].0 != es[|es| - 1].0 {
      assert Keys(es)[i] != Keys(es)[|es| - 1];
    }
  }

  /** Assignment keeps a dict free of repeated keys. */
  lemma PutUnique(es: seq<(string, Value)>, k: string, v: Value)
    requires UniqueKeys(es)
    ensures UniqueKeys(Put(es, k, v))
  {
    HasKeyKeys(es, k);
  }

  /** `d.get(k)` on a value that may not be a dict: only a dict has entries. */
  function Lookup(v: Value, k: string): (r: Option<Value>)
    ensures r.Some? ==> v.Map?
  {
    if v.Map? then Get(v.entries, k) else None
  }

  /** `d.get(k, default)`. */
  function LookupOr(v: Value, k: string, default: Value): Value
  {
    match Lookup(v, k)
    case Some(x) => x
    case None => default
  }

  /** `d.pop(k)`: the dict without key `k`. */
  function Remove(es: seq<(string, Value)>, k: string): (r: seq<(string, Value)>)
    ensures !HasKey(r, k)
    ensures forall k' :: k' != k ==> Get(r, k') == Get(es, k')
    ensures |r| <= |es|
  {
    if es == [] then []
    else if es[0].0 == k then Remove(es[1..], k)
    else [es[0]] + Remove(es[1..], k)
  }

  /** In a dict without repeated keys, looking up an entry's key finds that entry. */
  lemma {:induction false} GetUnique(es: seq<(string, Value)>, i: nat)
    requires UniqueKeys(es) && i < |es|
    ensures Get(es, es[i].0) == Some(es[i].1)
  {
    if i > 0 {
      assert Keys(es)[0] != Keys(es)[i];
      assert Keys(es[1..]) == Keys(es)[1..];
      GetUnique(es[1..], i - 1);
    }
  }

  /** Every dict in the tree has unique keys, as every value Python builds does. */
  predicate WellFormed(v: Value)
  {
    match v
    case Seq(items) => forall i :: 0 <= i < |items| ==> WellFormed(items[i])
    case Map(es) => UniqueKeys(es) && forall i :: 0 <= i < |es| ==> WellFormed(es[i].1)
    case Tagged(_, p, _) => WellFormed(p)
    case _ => true
  }

  function Sum(xs: seq<nat>): nat
  {
    if xs == [] then 0 else xs[0] + Sum(xs[1..])
  }

  /** Node count of a value, the measure recursive walks over dict entries decrease. */
  function Size(v: Value): (n: nat)
    ensures n >= 1
  {
    match v
    case Seq(items) => 1 + Sum(seq(|items|, i requires 0 <= i < |items| => Size(items[i])))
    case Map(es) => 1 + Sum(seq(|es|, i requires 0 <= i < |es| => 1 + Size(es[i].1)))
    case Tagged(_, p, _) => 1 + Size(p)
    case _ => 1
  }

  /** The size of a dict's entries: one per entry plus the size of each value. */
  function EntriesSize(es: seq<(string, Value)>): (n: nat)
    ensures Size(Map(es)) == 1 + n
  {
    Sum(seq(|es|, i requires 0 <= i < |es| => 1 + Size(es[i].1)))
  }

  lemma EntriesSizeCons(es: seq<(string, Value)>)
    requires es != []
    ensures EntriesSize(es) == 1 + Size(es[0].1) + EntriesSize(es[1..])
  {
    var f := seq(|es|, i requires 0 <= i < |es| => 1 + Size(es[i].1));
    assert f[1..] == seq(|es[1..]|, i requires 0 <= i < |es[1..]| => 1 + Size(es[1..][i].1));
  }

  // ------------------------------------------------------------------ Python builtins

  /** `bool(v)`: Python truthiness. A `TaggedValue` object is always truthy. */
  predicate Truthy(v: Value)
  {
    match v
    case Null => false
    case Bool(b) => b
    case Int(i) => i != 0
    case Str(s) => s != []
    case Seq(items) => items != []
    case Map(entries) => entries != []
    case Tagged(_, _, _) => true
  }

  /** `isinstance(v, str) and v.strip()`: a string with a non-blank text. */
  predicate IsNonBlankStr(v: Value) { v.Str? && !IsBlank(v.s) }

  /** `isinstance(v, str) and v`: a non-empty string. */
  predicate IsNonEmptyStr(v: Value) { v.Str? && v.s != [] }

  /** Python's `repr`, with string contents not escaped. */
  function Repr(v: Value): string
  {
    match v
    case Null => "None"
    case Bool(b) => if b then "True" else "False"
    case Int(i) => IntToString(i)
    case Str(s) => "'" + s + "'"
    case Seq(items) =>
      "[" + Join(seq(|items|, i requires 0 <= i < |items| => Repr(items[i])), ", ") + "]"
    case Map(entries) =>
      "{" + Join(seq(|entries|, i requires 0 <= i < |entries| =>
        "'" + entries[i].0 + "': " + Repr(entries[i].1)), ", ") + "}"
    case Tagged(tag, payload, line) =>
      "TaggedValue(tag='" + tag + "', value=" + Repr(payload) + ", line="
        + (if line.Some? then IntToString(line.value) else "None") + ")"
  }

  /** The first character of `repr(v)` for a value that is not a string. */
  lemma ReprStart(v: Value)
    requires !v.Str?
    ensures Repr(v) != [] && Repr(v)[0] in "NTF-[{0123456789"
  {
    if v.Int? {
      var n := if v.i < 0 then -v.i else v.i;
      assert IsDigitChar(NatToString(n)[0]);
    }
  }

  /** Python's `a or b`: `a` when it is truthy, else `b`. */
  function PyOr(a: Value, b: Value): Value { if Truthy(a) then a else b }

  /** `str(v)`: the text itself for a string, `repr` for everything else. */
  function PyStr(v: Value): (r: string)
    ensures v.Str? ==> r == v.s
  {
    if v.Str? then v.s else Repr(v)
  }

  /**
   * Python `a == b` on loaded YAML: dicts compare as key/value maps regardless of order,
   * lists element by element, `True == 1` and `False == 0`, and tagged values field by field.
   */
  predicate PyEq(a: Value, b: Value)
    decreases a
  {
    match a
    case Null => b.Null?
    case Bool(x) => (b.Bool? && b.b == x) || (b.Int? && b.i == (if x then 1 else 0))
    case Int(x) => (b.Int? && b.i == x) || (b.Bool? && x == (if b.b then 1 else 0))
    case Str(x) => b.Str? && b.s == x
    case Seq(xs) =>
      b.Seq? && |xs| == |b.items| &&
      forall i :: 0 <= i < |xs| ==> PyEq(xs[i], b.items[i])
    case Map(es) =>
      b.Map? &&
      (forall j :: 0 <= j < |b.entries| ==> HasKey(es, b.entries[j].0)) &&
      (forall i :: 0 <= i < |es| ==>
         Get(b.entries, es[i].0).Some? && PyEq(es[i].1, Get(b.entries, es[i].0).value))
    case Tagged(t, p, l) => b.Tagged? && b.tag == t && b.line == l && PyEq(p, b.payload)
  }

  /** Python equality is reflexive on dicts without repeated keys. */
  lemma {:induction false} PyEqRefl(a: Value)
    requires WellFormed(a)
    ensures PyEq(a, a)
  {
    match a
    case Seq(xs) =>
      forall i | 0 <= i < |xs| ensures PyEq(xs[i], xs[i]) { PyEqRefl(xs[i]); }
    case Map(es) =>
      forall i | 0 <= i < |es| ensures Get(es, es[i].0) == Some(es[i].1) && PyEq(es[i].1, es[i].1) {
        GetUnique(es, i);
        PyEqRefl(es[i].1);
      }
    case Tagged(_, p, _) => PyEqRefl(p);
    case _ =>
  }
}
