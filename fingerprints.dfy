/**
 * Content fingerprints of module and domain items (yaml_modules.py `_normalize_value`,
 * `_fingerprint`, `_contains_template_includes`). An item's fingerprint is a hash of its
 * normalised value: excluded keys dropped at every depth, dict keys sorted, lists kept in
 * order, and a tagged node written as a `{__tag__, __value__}` dict. The JSON encoding and the
 * truncated SHA-256 are one hash function `H`, given as a parameter.
 */
module Fingerprints {
  import opened Wrappers
  import opened Text
  import opened Yaml
  import opened YamlTags

  const TagKey: string := "__tag__"
  const ValueKey: string := "__value__"

  /** The elements of `xs` not in `ex`, in order. */
  function Without(xs: seq<string>, ex: set<string>): (r: seq<string>)
    ensures forall x :: x in r <==> x in xs && x !in ex
  {
    if xs == [] then []
    else
      var rest := Without(xs[1..], ex);
      assert forall x :: x in xs <==> x == xs[0] || x in xs[1..] by { assert xs == [xs[0]] + xs[1..]; }
      if xs[0] in ex then rest else [xs[0]] + rest
  }

  /** `[key for key in sorted(d.keys()) if key not in exclude_keys]`. */
  function KeptKeys(es: seq<(string, Value)>, ex: set<string>): (r: seq<string>)
    ensures SortedBy(r, StrLe) && NoDuplicates(r)
    ensures forall k :: k in r <==> HasKey(es, k) && k !in ex
  {
    var r := SortedUnique(Without(Keys(es), ex));
    assert forall k :: k in r <==> HasKey(es, k) && k !in ex by {
      forall k ensures k in r <==> HasKey(es, k) && k !in ex { HasKeyKeys(es, k); }
    }
    r
  }

  /** The position of the entry `d[k]` reads: the first one with key `k`. */
  function KeyIndex(es: seq<(string, Value)>, k: string): (i: nat)
    requires HasKey(es, k)
    ensures i < |es| && es[i].0 == k && Get(es, k) == Some(es[i].1)
  {
    if es[0].0 == k then 0
    else
      HasKeyTail(es, k);
      1 + KeyIndex(es[1..], k)
  }

  /** `_normalize_value(value, exclude_keys)`. */
  function Normalize(v: Value, ex: set<string>): Value
    decreases v
  {
    match v
    case Tagged(tag, payload, _) => Map([(TagKey, Str(tag)), (ValueKey, Normalize(payload, ex))])
    case Map(es) =>
      var ks := KeptKeys(es, ex);
      Map(seq(|ks|, i requires 0 <= i < |ks| => (ks[i], Normalize(es[KeyIndex(es, ks[i])].1, ex))))
    case Seq(xs) => Seq(seq(|xs|, i requires 0 <= i < |xs| => Normalize(xs[i], ex)))
    case _ => v
  }

  /** The entries of `Normalize(Map(es), ex)`, one per kept key, each with its normalised value. */
  function NormalizeMap(es: seq<(string, Value)>, ex: set<string>): (r: seq<(string, Value)>)
    ensures Normalize(Map(es), ex) == Map(r)
    ensures |r| == |KeptKeys(es, ex)|
    ensures forall i :: 0 <= i < |r| ==>
      r[i] == (KeptKeys(es, ex)[i], Normalize(es[KeyIndex(es, KeptKeys(es, ex)[i])].1, ex))
  {
    Normalize(Map(es), ex).entries
  }

  /** `_fingerprint(value, exclude_keys)`: the hash of the normalised value. */
  function Fingerprint(h: Value -> string, v: Value, ex: set<string>): string
  {
    h(Normalize(v, ex))
  }

  // ------------------------------------------------------------------ normal form

  /** A normalised value: every dict has strictly sorted keys, and no tagged node is left. */
  predicate Canonical(v: Value)
  {
    match v
    case Seq(xs) => forall i :: 0 <= i < |xs| ==> Canonical(xs[i])
    case Map(es) => SortedBy(Keys(es), StrLe) && NoDuplicates(Keys(es)) && forall i :: 0 <= i < |es| ==> Canonical(es[i].1)
    case Tagged(_, _, _) => false
    case _ => true
  }

  lemma TagKeysSorted()
    ensures SortedBy([TagKey, ValueKey], StrLe) && NoDuplicates([TagKey, ValueKey])
  {
    assert TagKey[2] == 't' && ValueKey[2] == 'v';
    assert TagKey[2..] != ValueKey[2..];
    assert Le(TagKey[2..], ValueKey[2..]);
    assert TagKey[1..][1..] == TagKey[2..] && ValueKey[1..][1..] == ValueKey[2..];
    assert Le(TagKey[1..], ValueKey[1..]);
    assert Le(TagKey, ValueKey);
  }

  /** Normalising yields a value in normal form. */
  lemma {:induction false} NormalizeCanonical(v: Value, ex: set<string>)
    ensures Canonical(Normalize(v, ex))
    decreases v
  {
    match v
    case Tagged(tag, payload, _) =>
      NormalizeCanonical(payload, ex);
      TagKeysSorted();
      assert Keys([(TagKey, Str(tag)), (ValueKey, Normalize(payload, ex))]) == [TagKey, ValueKey];
    case Map(es) =>
      var ks := KeptKeys(es, ex);
      var r := NormalizeMap(es, ex);
      assert Keys(r) == ks;
      forall i | 0 <= i < |r| ensures Canonical(r[i].1) {
        NormalizeCanonical(es[KeyIndex(es, ks[i])].1, ex);
      }
    case Seq(xs) =>
      forall i | 0 <= i < |xs| ensures Canonical(Normalize(xs[i], ex)) {
        NormalizeCanonical(xs[i], ex);
      }
    case _ =>
  }

  /** A value in normal form is its own normalisation (with nothing excluded). */
  lemma {:induction false} CanonicalFixed(c: Value)
    requires Canonical(c)
    ensures Normalize(c, {}) == c
    decreases c
  {
    match c
    case Map(es) =>
      forall i | 0 <= i < |es| ensures Normalize(es[i].1, {}) == es[i].1 {
        CanonicalFixed(es[i].1);
      }
      KeptKeysSorted(es);
      CanonicalFixedMap(es);
    case Seq(xs) =>
      forall i | 0 <= i < |xs| ensures Normalize(xs[i], {}) == xs[i] {
        CanonicalFixed(xs[i]);
      }
    case _ =>
  }

  /** The dict step: sorted distinct keys, each value already its own normalisation. */
  lemma {:induction false} CanonicalFixedMap(es: seq<(string, Value)>)
    requires UniqueKeys(es) && KeptKeys(es, {}) == Keys(es)
    requires forall i :: 0 <= i < |es| ==> Normalize(es[i].1, {}) == es[i].1
    ensures Normalize(Map(es), {}) == Map(es)
  {
    var r := NormalizeMap(es, {});
    forall i | 0 <= i < |es| ensures r[i] == es[i] {
      NormalizeMapAt(es, i);
    }
    assert r == es;
  }

  lemma NormalizeMapAt(es: seq<(string, Value)>, i: nat)
    requires UniqueKeys(es) && KeptKeys(es, {}) == Keys(es) && i < |es|
    requires Normalize(es[i].1, {}) == es[i].1
    ensures |NormalizeMap(es, {})| == |es| && NormalizeMap(es, {})[i] == es[i]
  {
    assert KeptKeys(es, {})[i] == es[i].0;
    KeyIndexUnique(es, i);
  }

  /** In a dict without repeated keys, an entry's key leads back to that entry. */
  lemma KeyIndexUnique(es: seq<(string, Value)>, i: nat)
    requires UniqueKeys(es) && i < |es|
    ensures HasKey(es, es[i].0) && KeyIndex(es, es[i].0) == i
  {
    var j := KeyIndex(es, es[i].0);
    assert Keys(es)[j] == Keys(es)[i];
  }

  /** With nothing excluded, the kept keys of a sorted dict are its keys. */
  lemma KeptKeysSorted(es: seq<(string, Value)>)
    requires SortedBy(Keys(es), StrLe) && NoDuplicates(Keys(es))
    ensures KeptKeys(es, {}) == Keys(es)
  {
    var ks := KeptKeys(es, {});
    forall k ensures k in ks <==> k in Keys(es) { HasKeyKeys(es, k); }
    SortedSetsEqual(ks, Keys(es));
  }

  /** Normalising an already normalised value changes nothing. */
  lemma NormalizeIdempotent(v: Value, ex: set<string>)
    ensures Normalize(Normalize(v, ex), {}) == Normalize(v, ex)
  {
    NormalizeCanonical(v, ex);
    CanonicalFixed(Normalize(v, ex));
  }

  /** No dict anywhere in `v` has a key from `ex`. */
  predicate NoKeyIn(v: Value, ex: set<string>)
  {
    match v
    case Seq(xs) => forall i :: 0 <= i < |xs| ==> NoKeyIn(xs[i], ex)
    case Map(es) => forall i :: 0 <= i < |es| ==> es[i].0 !in ex && NoKeyIn(es[i].1, ex)
    case Tagged(_, p, _) => NoKeyIn(p, ex)
    case _ => true
  }

  /**
   * The excluded keys are gone at every depth (unless an excluded key is one of the two keys
   * a tagged node is written with, which normalisation itself introduces).
   */
  lemma {:induction false} NormalizeDropsExcluded(v: Value, ex: set<string>)
    requires TagKey !in ex && ValueKey !in ex
    ensures NoKeyIn(Normalize(v, ex), ex)
    decreases v
  {
    match v
    case Tagged(tag, payload, _) =>
      NormalizeDropsExcluded(payload, ex);
    case Map(es) =>
      var ks := KeptKeys(es, ex);
      var r := NormalizeMap(es, ex);
      forall i | 0 <= i < |r| ensures r[i].0 !in ex && NoKeyIn(r[i].1, ex) {
        assert ks[i] in ks;
        NormalizeDropsExcluded(es[KeyIndex(es, ks[i])].1, ex);
      }
    case Seq(xs) =>
      forall i | 0 <= i < |xs| ensures NoKeyIn(Normalize(xs[i], ex), ex) {
        NormalizeDropsExcluded(xs[i], ex);
      }
    case _ =>
  }

  // ------------------------------------------------------------------ what the fingerprint ignores

  /**
   * `a` and `b` are the same tree once the keys in `ex` are disregarded: dicts hold the same
   * other keys with matching values (in any order), lists match element by element, and tagged
   * nodes carry the same tag (their source line aside).
   */
  ghost predicate SameOutside(a: Value, b: Value, ex: set<string>)
    decreases a
  {
    match a
    case Seq(xs) => b.Seq? && |xs| == |b.items| && forall i :: 0 <= i < |xs| ==> SameOutside(xs[i], b.items[i], ex)
    case Map(es) =>
      b.Map? &&
      (forall k :: k !in ex ==> (HasKey(es, k) <==> HasKey(b.entries, k))) &&
      (forall i :: 0 <= i < |es| && es[i].0 !in ex ==>
         Get(b.entries, es[i].0).Some? && SameOutside(es[i].1, Get(b.entries, es[i].0).value, ex))
    case Tagged(t, p, _) => b.Tagged? && b.tag == t && SameOutside(p, b.payload, ex)
    case _ => a == b
  }

  /** Trees that agree outside the excluded keys normalise alike, so they share a fingerprint. */
  lemma {:induction false} SameOutsideNormalize(a: Value, b: Value, ex: set<string>)
    requires SameOutside(a, b, ex)
    ensures Normalize(a, ex) == Normalize(b, ex)
    decreases a
  {
    match a
    case Seq(xs) =>
      forall i | 0 <= i < |xs| ensures Normalize(xs[i], ex) == Normalize(b.items[i], ex) {
        SameOutsideNormalize(xs[i], b.items[i], ex);
      }
    case Map(es) =>
      var fs := b.entries;
      forall i | 0 <= i < |es| && es[i].0 !in ex
        ensures Normalize(es[i].1, ex) == Normalize(Get(fs, es[i].0).value, ex)
      {
        SameOutsideNormalize(es[i].1, Get(fs, es[i].0).value, ex);
      }
      SameOutsideNormalizeMap(es, fs, ex);
    case Tagged(t, p, _) =>
      SameOutsideNormalize(p, b.payload, ex);
    case _ =>
  }

  /** The dict step: same kept keys, and each kept key's values normalise alike. */
  lemma SameOutsideNormalizeMap(es: seq<(string, Value)>, fs: seq<(string, Value)>, ex: set<string>)
    requires forall k :: k !in ex ==> (HasKey(es, k) <==> HasKey(fs, k))
    requires forall i :: 0 <= i < |es| && es[i].0 !in ex ==>
      Get(fs, es[i].0).Some? && Normalize(es[i].1, ex) == Normalize(Get(fs, es[i].0).value, ex)
    ensures Normalize(Map(es), ex) == Normalize(Map(fs), ex)
  {
    var ka := KeptKeys(es, ex);
    SortedSetsEqual(ka, KeptKeys(fs, ex));
    var a := NormalizeMap(es, ex);
    var b := NormalizeMap(fs, ex);
    forall i | 0 <= i < |ka| ensures a[i] == b[i] {
      var j := KeyIndex(es, ka[i]);
      assert es[j].0 !in ex;
    }
    assert a == b;
  }

  /** Every tree without repeated keys agrees with itself. */
  lemma {:induction false} SameOutsideRefl(a: Value, ex: set<string>)
    requires WellFormed(a)
    ensures SameOutside(a, a, ex)
    decreases a
  {
    match a
    case Seq(xs) =>
      forall i | 0 <= i < |xs| ensures SameOutside(xs[i], xs[i], ex) { SameOutsideRefl(xs[i], ex); }
    case Map(es) =>
      forall i | 0 <= i < |es| ensures Get(es, es[i].0) == Some(es[i].1) && SameOutside(es[i].1, es[i].1, ex) {
        GetUnique(es, i);
        SameOutsideRefl(es[i].1, ex);
      }
    case Tagged(_, p, _) => SameOutsideRefl(p, ex);
    case _ =>
  }

  /** Reordering a dict's entries never changes its fingerprint. */
  lemma KeyOrderIrrelevant(h: Value -> string, es: seq<(string, Value)>, fs: seq<(string, Value)>, ex: set<string>)
    requires WellFormed(Map(es)) && WellFormed(Map(fs))
    requires forall e :: e in es <==> e in fs
    ensures Fingerprint(h, Map(es), ex) == Fingerprint(h, Map(fs), ex)
  {
    forall k | k !in ex ensures HasKey(es, k) <==> HasKey(fs, k) {
      if HasKey(es, k) { var i :| 0 <= i < |es| && es[i].0 == k; assert es[i] in fs; }
      if HasKey(fs, k) { var i :| 0 <= i < |fs| && fs[i].0 == k; assert fs[i] in es; }
    }
    forall i | 0 <= i < |es| && es[i].0 !in ex
      ensures Get(fs, es[i].0).Some? && SameOutside(es[i].1, Get(fs, es[i].0).value, ex)
    {
      assert es[i] in es;
      var j :| 0 <= j < |fs| && fs[j] == es[i];
      GetUnique(fs, j);
      SameOutsideRefl(es[i].1, ex);
    }
    SameOutsideNormalize(Map(es), Map(fs), ex);
  }

  /** Setting an excluded key (a list domain's id field, say) never changes the fingerprint. */
  lemma PutExcludedIrrelevant(h: Value -> string, es: seq<(string, Value)>, f: string, x: Value, ex: set<string>)
    requires WellFormed(Map(es)) && f in ex
    ensures Fingerprint(h, Map(Put(es, f, x)), ex) == Fingerprint(h, Map(es), ex)
  {
    var ps := Put(es, f, x);
    PutUnique(es, f, x);
    forall k | k !in ex ensures HasKey(ps, k) <==> HasKey(es, k) {
      PutGet(es, f, x, k);
    }
    forall i | 0 <= i < |ps| && ps[i].0 !in ex
      ensures Get(es, ps[i].0).Some? && SameOutside(ps[i].1, Get(es, ps[i].0).value, ex)
    {
      var k := ps[i].0;
      GetUnique(ps, i);
      PutGet(es, f, x, k);
      assert k != f && Get(es, k) == Some(ps[i].1);
      var j :| 0 <= j < |es| && es[j] == (k, ps[i].1);
      SameOutsideRefl(es[j].1, ex);
    }
    SameOutsideNormalize(Map(ps), Map(es), ex);
  }

  /** Removing an excluded key never changes the fingerprint either. */
  lemma RemoveExcludedIrrelevant(h: Value -> string, es: seq<(string, Value)>, f: string, ex: set<string>)
    requires WellFormed(Map(es)) && f in ex
    ensures Fingerprint(h, Map(Remove(es, f)), ex) == Fingerprint(h, Map(es), ex)
  {
    var rs := Remove(es, f);
    forall k | k !in ex ensures HasKey(rs, k) <==> HasKey(es, k) {
      assert Get(rs, k) == Get(es, k);
    }
    forall i | 0 <= i < |es| && es[i].0 !in ex
      ensures Get(rs, es[i].0).Some? && SameOutside(es[i].1, Get(rs, es[i].0).value, ex)
    {
      GetUnique(es, i);
      assert Get(rs, es[i].0) == Get(es, es[i].0);
      SameOutsideRefl(es[i].1, ex);
    }
    SameOutsideNormalize(Map(es), Map(rs), ex);
  }

  /**
   * The converse at one dict: dicts that normalise alike hold the same kept keys, and each kept
   * key's values normalise alike. So a change to a key outside `ex` shows in the normal form.
   */
  lemma NormalizeSeesKeptKey(es: seq<(string, Value)>, fs: seq<(string, Value)>, ex: set<string>, k: string)
    requires k !in ex && Normalize(Map(es), ex) == Normalize(Map(fs), ex)
    ensures HasKey(es, k) <==> HasKey(fs, k)
    ensures HasKey(es, k) ==> Normalize(Get(es, k).value, ex) == Normalize(Get(fs, k).value, ex)
  {
    var ka := KeptKeys(es, ex);
    var kb := KeptKeys(fs, ex);
    var a := NormalizeMap(es, ex);
    var b := NormalizeMap(fs, ex);
    assert a == b;
    assert ka == kb by {
      forall i | 0 <= i < |ka| ensures ka[i] == kb[i] {
        assert a[i].0 == ka[i] && b[i].0 == kb[i];
      }
    }
    if HasKey(es, k) {
      var i :| 0 <= i < |ka| && ka[i] == k;
      assert a[i].1 == Normalize(es[KeyIndex(es, k)].1, ex);
      assert b[i].1 == Normalize(fs[KeyIndex(fs, k)].1, ex);
    }
  }

  /**
   * Setting a key outside `ex` leaves the normal form (and so the fingerprint's input) unchanged
   * exactly when the key was already there with a value that normalises alike.
   */
  lemma PutKeptSeen(es: seq<(string, Value)>, f: string, x: Value, ex: set<string>)
    requires WellFormed(Map(es)) && f !in ex
    ensures Normalize(Map(Put(es, f, x)), ex) == Normalize(Map(es), ex) <==>
      HasKey(es, f) && Normalize(x, ex) == Normalize(Get(es, f).value, ex)
  {
    var ps := Put(es, f, x);
    PutGet(es, f, x, f);
    if Normalize(Map(ps), ex) == Normalize(Map(es), ex) {
      NormalizeSeesKeptKey(ps, es, ex, f);
    }
    if HasKey(es, f) && Normalize(x, ex) == Normalize(Get(es, f).value, ex) {
      PutUnique(es, f, x);
      forall k | k !in ex ensures HasKey(ps, k) <==> HasKey(es, k) {
        PutGet(es, f, x, k);
      }
      forall i | 0 <= i < |ps| && ps[i].0 !in ex
        ensures Get(es, ps[i].0).Some? && Normalize(ps[i].1, ex) == Normalize(Get(es, ps[i].0).value, ex)
      {
        GetUnique(ps, i);
        PutGet(es, f, x, ps[i].0);
      }
      SameOutsideNormalizeMap(ps, es, ex);
    }
  }

  // ------------------------------------------------------------------ template tags

  /** `_contains_template_includes`: some node of the tree carries an include-style template tag. */
  predicate ContainsTemplateIncludes(v: Value)
  {
    match v
    case Tagged(tag, p, _) => IsTemplateTag(tag) || ContainsTemplateIncludes(p)
    case Map(es) => exists i :: 0 <= i < |es| && ContainsTemplateIncludes(es[i].1)
    case Seq(xs) => exists i :: 0 <= i < |xs| && ContainsTemplateIncludes(xs[i])
    case _ => false
  }
}
