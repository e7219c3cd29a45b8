/**
 * Python string and list primitives the bridge relies on: `str.strip` and friends,
 * `split`, `join`, `splitlines`, `isdigit`, ASCII case folding, code-point ordering of
 * strings and a stable `sorted`.
 */
module Text {
  import opened Wrappers

  /** The characters Python's `str.strip()` removes (ASCII range). */
  const Whitespace: set<char> := {' ', '\t', '\n', '\r', '\U{0B}', '\U{0C}', '\U{1C}', '\U{1D}', '\U{1E}', '\U{1F}'}

  // ------------------------------------------------------------------ stripping

  /** `s.lstrip(chars)`: drop leading characters that belong to `cs`. */
  function StripLeft(s: string, cs: set<char>): (r: string)
    ensures |r| <= |s| && r == s[|s| - |r|..]
    ensures forall i :: 0 <= i < |s| - |r| ==> s[i] in cs
    ensures r != [] ==> r[0] !in cs
  {
    if s != [] && s[0] in cs then StripLeft(s[1..], cs) else s
  }

  /** `s.rstrip(chars)`: drop trailing characters that belong to `cs`. */
  function StripRight(s: string, cs: set<char>): (r: string)
    ensures |r| <= |s| && r == s[..|r|]
    ensures forall i :: |r| <= i < |s| ==> s[i] in cs
    ensures r != [] ==> r[|r| - 1] !in cs
  {
    if s != [] && s[|s| - 1] in cs then StripRight(s[..|s| - 1], cs) else s
  }

  /** `s.strip(chars)`: the infix of `s` left after removing `cs` at both ends. */
  function StripSet(s: string, cs: set<char>): (r: string)
    ensures |r| <= |s|
    ensures r != [] ==> r[0] !in cs && r[|r| - 1] !in cs
    ensures r == [] <==> forall i :: 0 <= i < |s| ==> s[i] in cs
  {
    var r := StripRight(StripLeft(s, cs), cs);
    StripBoth(s, cs, r);
    r
  }

  /** What stripping both ends leaves: nothing stripped at either end, and empty only when all was. */
  lemma StripBoth(s: string, cs: set<char>, r: string)
    requires r == StripRight(StripLeft(s, cs), cs)
    ensures |r| <= |s|
    ensures r != [] ==> r[0] !in cs && r[|r| - 1] !in cs
    ensures r == [] <==> forall i :: 0 <= i < |s| ==> s[i] in cs
  {
    var l := StripLeft(s, cs);
    StripLeftAll(s, cs);
    StripRightAll(l, cs);
    assert r != [] ==> r[0] == l[0];
  }

  /** `lstrip` leaves nothing exactly when every character is stripped. */
  lemma StripLeftAll(s: string, cs: set<char>)
    ensures StripLeft(s, cs) == [] <==> forall i :: 0 <= i < |s| ==> s[i] in cs
  {
    var l := StripLeft(s, cs);
    if l != [] {
      assert s[|s| - |l|] == l[0];
    }
  }

  /** `rstrip` leaves nothing exactly when every character is stripped. */
  lemma StripRightAll(s: string, cs: set<char>)
    ensures StripRight(s, cs) == [] <==> forall i :: 0 <= i < |s| ==> s[i] in cs
  {
    var r := StripRight(s, cs);
    if r != [] {
      assert s[|r| - 1] == r[|r| - 1];
    }
  }

  /** Stripping keeps every character that is not stripped. */
  lemma StripSetKeeps(s: string, cs: set<char>, i: nat)
    requires i < |s| && s[i] !in cs
    ensures s[i] in StripSet(s, cs)
  {
    var l := StripLeft(s, cs);
    var r := StripRight(l, cs);
    var j := i - (|s| - |l|);
    assert 0 <= j < |l| && l[j] == s[i];
    assert j < |r| && r[j] == s[i];
  }

  /** The stripped string is a piece of the original, so it holds no character the original lacks. */
  lemma StripSetChars(s: string, cs: set<char>, c: char)
    requires c in StripSet(s, cs)
    ensures c in s
  {
    var r := StripSet(s, cs);
    var k := StripSetSlice(s, cs);
    var i :| 0 <= i < |r| && r[i] == c;
    assert s[k + i] == c;
  }

  /** `s.strip()`. */
  function Strip(s: string): string { StripSet(s, Whitespace) }

  /** Stripping twice strips nothing more. */
  lemma StripIdempotent(s: string)
    ensures Strip(Strip(s)) == Strip(s)
  {
    var r := Strip(s);
    assert StripLeft(r, Whitespace) == r;
  }

  /** A string without whitespace at either end is its own strip. */
  lemma StripUnchanged(s: string)
    requires s != [] && s[0] !in Whitespace && s[|s| - 1] !in Whitespace
    ensures Strip(s) == s
  {
    assert StripLeft(s, Whitespace) == s;
  }

  /** A string that starts and ends outside `cs` is its own `strip(cs)`. */
  lemma StripSetUnchanged(s: string, cs: set<char>)
    requires s == [] || (s[0] !in cs && s[|s| - 1] !in cs)
    ensures StripSet(s, cs) == s
  {
    assert StripLeft(s, cs) == s;
  }

  /** `(c + s + c).strip(c)` is `s` when `s` holds no `c`. */
  lemma StripSetEnclosed(s: string, c: char)
    requires c !in s
    ensures StripSet([c] + s + [c], {c}) == s
  {
    var t := [c] + s + [c];
    if s == [] {
      assert forall i :: 0 <= i < |t| ==> t[i] in {c};
    } else {
      assert t[1..] == s + [c];
      assert StripLeft(s + [c], {c}) == s + [c];
      assert (s + [c])[..|s|] == s;
      assert StripRight(s, {c}) == s;
    }
  }

  /** One leading space before a string without whitespace at its ends is stripped away. */
  lemma StripSpaced(t: string)
    requires t != [] && t[0] !in Whitespace && t[|t| - 1] !in Whitespace
    ensures Strip(" " + t) == t
  {
    assert (" " + t)[1..] == t;
    assert StripLeft(t, Whitespace) == t;
  }

  /** `not s.strip()`: the string is empty or whitespace only. */
  predicate IsBlank(s: string) { Strip(s) == [] }

  // ------------------------------------------------------------------ case and classes

  function LowerChar(c: char): char
  {
    if 'A' <= c <= 'Z' then (c as int + 32) as char else c
  }

  /** `s.lower()` on ASCII letters. */
  function Lower(s: string): (r: string)
    ensures |r| == |s|
    ensures forall i :: 0 <= i < |s| ==> r[i] == LowerChar(s[i])
    ensures forall i :: 0 <= i < |r| ==> !('A' <= r[i] <= 'Z')
  {
    seq(|s|, i requires 0 <= i < |s| => LowerChar(s[i]))
  }

  /** `s.strip().lower()`: how entity and object ids are normalised. */
  function StripLower(s: string): (r: string)
    ensures |r| == |Strip(s)|
  {
    Lower(Strip(s))
  }

  lemma LowerCharWhitespace(c: char)
    ensures LowerChar(c) in Whitespace <==> c in Whitespace
  {
  }

  /** Normalising a normalised id changes nothing. */
  lemma StripLowerIdempotent(s: string)
    ensures StripLower(StripLower(s)) == StripLower(s)
  {
    var t := Strip(s);
    LowerStripped(t);
    LowerIdempotent(t);
  }

  lemma LowerStripped(t: string)
    requires t != [] ==> t[0] !in Whitespace && t[|t| - 1] !in Whitespace
    ensures Strip(Lower(t)) == Lower(t)
  {
    var l := Lower(t);
    if l != [] {
      LowerCharWhitespace(t[0]);
      LowerCharWhitespace(t[|t| - 1]);
      StripUnchanged(l);
    }
  }

  lemma LowerIdempotent(s: string)
    ensures Lower(Lower(s)) == Lower(s)
  {
  }

  /** Lower-casing a string without capitals changes nothing. */
  lemma LowerUnchanged(s: string)
    requires forall i :: 0 <= i < |s| ==> !('A' <= s[i] <= 'Z')
    ensures Lower(s) == s
  {
  }

  predicate IsDigitChar(c: char) { '0' <= c <= '9' }
  predicate IsLowerChar(c: char) { 'a' <= c <= 'z' }
  predicate IsUpperChar(c: char) { 'A' <= c <= 'Z' }
  predicate IsAlnumChar(c: char) { IsDigitChar(c) || IsLowerChar(c) || IsUpperChar(c) }

  /** `s.isdigit()`: non-empty and made of decimal digits only. */
  predicate IsDigits(s: string)
  {
    s != [] && forall i :: 0 <= i < |s| ==> IsDigitChar(s[i])
  }

  // ------------------------------------------------------------------ prefixes, search

  predicate StartsWith(s: string, p: string) { |p| <= |s| && s[..|p|] == p }
  predicate EndsWith(s: string, p: string) { |p| <= |s| && s[|s| - |p|..] == p }

  lemma EndsWithAppended(a: string, p: string)
    ensures EndsWith(a + p, p)
  {
    assert (a + p)[|a|..] == p;
  }

  /** The index of the first occurrence of `c` in `s`, if any (`s.find(c)`). */
  function IndexOf(s: string, c: char): (r: Option<nat>)
    ensures r.None? <==> c !in s
    ensures r.Some? ==> r.value < |s| && s[r.value] == c && c !in s[..r.value]
  {
    if s == [] then None
    else if s[0] == c then Some(0)
    else match IndexOf(s[1..], c)
      case None => None
      case Some(k) => assert s[1..][..k] == s[1..k + 1]; Some(k + 1)
  }

  /** A non-empty sequence is its prefix followed by its last element. */
  lemma LastSplit<T>(s: seq<T>)
    requires s != []
    ensures s[..|s| - 1] + [s[|s| - 1]] == s
  {
  }

  /** Number of occurrences of `c` in `s` (`s.count(c)`). */
  function Count(s: string, c: char): (n: nat)
    ensures n <= |s|
    ensures n == 0 <==> c !in s
  {
    if s == [] then 0 else (if s[0] == c then 1 else 0) + Count(s[1..], c)
  }

  // ------------------------------------------------------------------ split and join

  /** `sep.join(parts)`. */
  function Join(parts: seq<string>, sep: string): string
  {
    if parts == [] then []
    else if |parts| == 1 then parts[0]
    else parts[0] + sep + Join(parts[1..], sep)
  }

  /** A joined text starts with its first part. */
  lemma JoinFirst(parts: seq<string>, sep: string)
    requires parts != []
    ensures StartsWith(Join(parts, sep), parts[0])
  {
    if |parts| > 1 {
      assert Join(parts, sep)[..|parts[0]|] == parts[0];
    }
  }

  /** `s.split(c)`: every piece between occurrences of `c`, never an empty list. */
  function Split(s: string, c: char): (r: seq<string>)
    ensures |r| >= 1
  {
    match IndexOf(s, c)
    case None => [s]
    case Some(k) => [s[..k]] + Split(s[k + 1..], c)
  }

  /** No piece of a split holds the separator. */
  lemma {:induction false} SplitPieces(s: string, c: char)
    ensures forall i :: 0 <= i < |Split(s, c)| ==> c !in Split(s, c)[i]
    decreases |s|
  {
    match IndexOf(s, c)
    case None =>
    case Some(k) =>
      SplitPieces(s[k + 1..], c);
      assert Split(s, c) == [s[..k]] + Split(s[k + 1..], c);
  }

  /** Splitting and re-joining with the same separator gives back the string. */
  lemma {:induction false} JoinSplit(s: string, c: char)
    ensures Join(Split(s, c), [c]) == s
    decreases |s|
  {
    match IndexOf(s, c)
    case None =>
    case Some(k) =>
      var x, tail := s[..k], Split(s[k + 1..], c);
      assert Split(s, c) == [x] + tail;
      JoinSplit(s[k + 1..], c);
      JoinCons(x, tail, [c]);
      SliceAround(s, k);
  }

  /** Joining a list with a first element: that element, the separator, then the rest joined. */
  lemma JoinCons(x: string, xs: seq<string>, sep: string)
    requires xs != []
    ensures Join([x] + xs, sep) == x + sep + Join(xs, sep)
  {
    assert ([x] + xs)[1..] == xs;
  }

  /** A string is the part before index `k`, the character at `k`, and the part after it. */
  lemma SliceAround(s: string, k: nat)
    requires k < |s|
    ensures s[..k] + [s[k]] + s[k + 1..] == s
  {
  }

  /** Splitting at a separator that joins two texts splits each text on its own. */
  lemma SplitAppend(a: string, b: string, c: char)
    ensures Split(a + [c] + b, c) == Split(a, c) + Split(b, c)
  {
    var s := a + [c] + b;
    assert s[..|a|] == a;
    assert s[|a| + 1..] == b;
    SplitAround(s, c, |a|);
  }

  /** Splitting at any one separator splits the two sides on their own. */
  lemma {:induction false} SplitAround(s: string, c: char, k: nat)
    requires k < |s| && s[k] == c
    ensures Split(s, c) == Split(s[..k], c) + Split(s[k + 1..], c)
    decreases k
  {
    assert c in s;
    var j := IndexOf(s, c).value;
    if j < k {
      var t := s[j + 1..];
      SplitAround(t, c, k - j - 1);
      assert t[..k - j - 1] == s[j + 1..k] && t[k - j..] == s[k + 1..];
      SplitAroundStep(s, c, j, k);
    } else {
      SplitAroundFirst(s, c, k);
    }
  }

  /** `SplitAround` at the first separator. */
  lemma SplitAroundFirst(s: string, c: char, k: nat)
    requires IndexOf(s, c) == Some(k)
    ensures Split(s, c) == Split(s[..k], c) + Split(s[k + 1..], c)
  {
    SplitAt(s, c, k);
    assert IndexOf(s[..k], c).None?;
  }

  /** `SplitAround` at a later separator `k`, given it for the text after the first one, `j`. */
  lemma SplitAroundStep(s: string, c: char, j: nat, k: nat)
    requires IndexOf(s, c) == Some(j) && j < k < |s|
    requires Split(s[j + 1..], c) == Split(s[j + 1..k], c) + Split(s[k + 1..], c)
    ensures Split(s, c) == Split(s[..k], c) + Split(s[k + 1..], c)
  {
    SplitAt(s, c, j);
    SplitPrefixAt(s, c, j, k);
    ConsAssoc(s[..j], Split(s[j + 1..k], c), Split(s[k + 1..], c));
  }

  /** A prefix that reaches past the first separator splits there too. */
  lemma SplitPrefixAt(s: string, c: char, j: nat, k: nat)
    requires IndexOf(s, c) == Some(j) && j < k <= |s|
    ensures Split(s[..k], c) == [s[..j]] + Split(s[j + 1..k], c)
  {
    var p := s[..k];
    assert p[..j] == s[..j];
    assert p[j + 1..] == s[j + 1..k];
    SplitAt(p, c, j);
  }

  lemma ConsAssoc(x: string, y: seq<string>, z: seq<string>)
    ensures [x] + (y + z) == [x] + y + z
  {
  }

  /** Splitting at the first separator. */
  lemma SplitAt(s: string, c: char, k: nat)
    requires k < |s| && s[k] == c && c !in s[..k]
    ensures Split(s, c) == [s[..k]] + Split(s[k + 1..], c)
  {
    IndexOfFirst(s, c, k);
  }

  /** The first occurrence of `c` is at `k` when `s[k] == c` and none comes before. */
  lemma IndexOfFirst(s: string, c: char, k: nat)
    requires k < |s| && s[k] == c && c !in s[..k]
    ensures IndexOf(s, c) == Some(k)
  {
    assert c in s by { assert s[k] == c; }
  }

  /** Joining pieces free of the separator and splitting again gives back the pieces. */
  lemma {:induction false} SplitJoin(xs: seq<string>, c: char)
    requires xs != [] && forall i :: 0 <= i < |xs| ==> c !in xs[i]
    ensures Split(Join(xs, [c]), c) == xs
    decreases |xs|
  {
    if |xs| == 1 {
      assert IndexOf(xs[0], c).None?;
    } else {
      var x, rest := xs[0], xs[1..];
      assert c !in x;
      SplitJoin(rest, c);
      assert [x] + rest == xs;
      JoinCons(x, rest, [c]);
      SplitAfterFree(x, Join(rest, [c]), c);
    }
  }

  /** A first piece free of the separator is split off whole. */
  lemma SplitAfterFree(a: string, b: string, c: char)
    requires c !in a
    ensures Split(a + [c] + b, c) == [a] + Split(b, c)
  {
    var s := a + [c] + b;
    assert s[..|a|] == a;
    assert s[|a| + 1..] == b;
    SplitAt(s, c, |a|);
  }

  /** A newline at the end adds one empty piece to the split. */
  lemma SplitTrailing(j: string)
    ensures Split(j + "\n", '\n') == Split(j, '\n') + [""]
  {
    var s := j + "\n";
    assert s[..|j|] == j && s[|j| + 1..] == "";
    SplitAround(s, '\n', |j|);
  }

  /** `splitlines` drops the empty piece after a final newline. */
  lemma SplitLinesTrailing(j: string)
    ensures SplitLines(j + "\n") == Split(j, '\n')
  {
    SplitTrailing(j);
    var parts := Split(j, '\n') + [""];
    assert parts[..|parts| - 1] == Split(j, '\n');
  }

  /** Lines free of newlines, joined with newlines and terminated by one, read back as the lines. */
  lemma JoinedLines(xs: seq<string>)
    requires xs != [] && forall i :: 0 <= i < |xs| ==> '\n' !in xs[i]
    ensures SplitLines(Join(xs, "\n") + "\n") == xs
  {
    SplitLinesTrailing(Join(xs, "\n"));
    SplitJoin(xs, '\n');
  }

  /** `s.split(c, 1)` when `c` occurs: the text before and after the first occurrence. */
  function SplitFirst(s: string, c: char): (r: Option<(string, string)>)
    ensures r.None? <==> c !in s
    ensures r.Some? ==> r.value.0 + [c] + r.value.1 == s && c !in r.value.0
  {
    match IndexOf(s, c)
    case None => None
    case Some(k) => assert s == s[..k] + [c] + s[k + 1..]; Some((s[..k], s[k + 1..]))
  }

  /**
   * `s.splitlines()` for text whose line boundary is `\n`: the pieces between newlines,
   * with no final empty piece for a trailing newline, and no lines at all for "".
   */
  function SplitLines(s: string): (r: seq<string>)
    ensures forall i :: 0 <= i < |r| ==> '\n' !in r[i]
    ensures s == [] ==> r == []
  {
    if s == [] then []
    else
      var parts := Split(s, '\n');
      SplitPieces(s, '\n');
      if parts[|parts| - 1] == [] then parts[..|parts| - 1] else parts
  }

  /** Non-empty text has at least one line. */
  lemma SplitLinesNonEmpty(s: string)
    requires s != []
    ensures SplitLines(s) != []
  {
    JoinSplit(s, '\n');
  }

  /** Non-empty text without a newline is a single line. */
  lemma SplitLinesSingle(s: string)
    requires s != [] && '\n' !in s
    ensures SplitLines(s) == [s]
  {
    assert IndexOf(s, '\n').None?;
  }

  /** The first occurrence of `c` is the one with no `c` before it. */
  lemma SplitFirstUnique(s: string, c: char, a: string, b: string)
    requires s == a + [c] + b && c !in a
    ensures SplitFirst(s, c) == Some((a, b))
  {
    assert s[|a|] == c;
    assert s[..|a|] == a && s[|a| + 1..] == b;
    IndexOfFirst(s, c, |a|);
  }

  /** Counting across one occurrence of `c`. */
  lemma {:induction false} CountAround(a: string, b: string, c: char)
    ensures Count(a + [c] + b, c) == Count(a, c) + 1 + Count(b, c)
    decreases |a|
  {
    var s := a + [c] + b;
    if a == [] {
      assert s[1..] == b;
    } else {
      assert s[1..] == a[1..] + [c] + b;
      CountAround(a[1..], b, c);
    }
  }

  /** `s.replace(c, with)` for a single character. */
  function ReplaceChar(s: string, c: char, with: string): (r: string)
    ensures c !in with ==> c !in r
    ensures c !in s ==> r == s
  {
    if s == [] then [] else (if s[0] == c then with else [s[0]]) + ReplaceChar(s[1..], c, with)
  }

  // ------------------------------------------------------------------ character runs

  /** No two adjacent characters of `s` are both `c`. */
  predicate NoDoubled(s: string, c: char)
  {
    forall i :: 0 <= i < |s| - 1 ==> s[i] != c || s[i + 1] != c
  }

  /** The first position at or after `j` holding a character `keep` accepts (or the end). */
  function SkipRejected(s: string, j: nat, keep: char -> bool): (r: nat)
    requires j <= |s|
    ensures j <= r <= |s|
    ensures forall i :: j <= i < r ==> !keep(s[i])
    ensures r < |s| ==> keep(s[r])
    decreases |s| - j
  {
    if j < |s| && !keep(s[j]) then SkipRejected(s, j + 1, keep) else j
  }

  /**
   * `re.sub("[^...]+", rep, s)`: every maximal run of characters `keep` rejects becomes one
   * `rep`.
   */
  function ReplaceRuns(s: string, keep: char -> bool, rep: char): (r: string)
    ensures forall i :: 0 <= i < |r| ==> keep(r[i]) || r[i] == rep
    ensures s == [] <==> r == []
    ensures r != [] && keep(s[0]) ==> r[0] == s[0]
    ensures r != [] && !keep(s[0]) ==> r[0] == rep
    decreases |s|
  {
    if s == [] then []
    else if keep(s[0]) then [s[0]] + ReplaceRuns(s[1..], keep, rep)
    else [rep] + ReplaceRuns(s[SkipRejected(s, 1, keep)..], keep, rep)
  }

  /** The kept characters survive the replacement. */
  lemma {:induction false} ReplaceRunsKeeps(s: string, keep: char -> bool, rep: char, c: char)
    requires keep(c) && c != rep
    ensures c in ReplaceRuns(s, keep, rep) <==> c in s
    decreases |s|
  {
    if s != [] {
      if keep(s[0]) {
        ReplaceRunsKeeps(s[1..], keep, rep, c);
        assert s == [s[0]] + s[1..];
      } else {
        var k := SkipRejected(s, 1, keep);
        ReplaceRunsKeeps(s[k..], keep, rep, c);
        SkipKeeps(s, keep, k, c);
      }
    }
  }

  /** Skipping a rejected run from the start loses no kept character. */
  lemma SkipKeeps(s: string, keep: char -> bool, k: nat, c: char)
    requires keep(c) && k <= |s| && forall i :: 0 <= i < k ==> !keep(s[i])
    ensures c in s[k..] <==> c in s
  {
    if c in s {
      var i :| 0 <= i < |s| && s[i] == c;
      assert s[k..][i - k] == c;
    }
  }

  /** When `rep` is not itself kept, no two `rep` are adjacent in the result. */
  lemma {:induction false} ReplaceRunsNoDoubled(s: string, keep: char -> bool, rep: char)
    requires !keep(rep)
    ensures NoDoubled(ReplaceRuns(s, keep, rep), rep)
    decreases |s|
  {
    if s != [] {
      var rest := if keep(s[0]) then s[1..] else s[SkipRejected(s, 1, keep)..];
      ReplaceRunsNoDoubled(rest, keep, rep);
      var t := ReplaceRuns(rest, keep, rep);
      var r := ReplaceRuns(s, keep, rep);
      assert r == [r[0]] + t;
      forall i | 0 <= i < |r| - 1 ensures r[i] != rep || r[i + 1] != rep {
        if i > 0 { assert r[i] == t[i - 1] && r[i + 1] == t[i]; }
        else { assert r[1] == t[0]; }
      }
    }
  }

  /** A string already made of kept characters and single, non-adjacent `rep`s is left as it is. */
  lemma {:induction false} ReplaceRunsFixed(s: string, keep: char -> bool, rep: char)
    requires !keep(rep) && NoDoubled(s, rep)
    requires forall i :: 0 <= i < |s| ==> keep(s[i]) || s[i] == rep
    ensures ReplaceRuns(s, keep, rep) == s
    decreases |s|
  {
    if s != [] {
      NoDoubledTail(s, rep);
      ReplaceRunsFixed(s[1..], keep, rep);
      if !keep(s[0]) {
        assert |s| > 1 ==> keep(s[1]);
        assert SkipRejected(s, 1, keep) == 1;
      }
      assert s == [s[0]] + s[1..];
    }
  }

  lemma NoDoubledTail(s: string, c: char)
    requires s != [] && NoDoubled(s, c)
    ensures NoDoubled(s[1..], c)
  {
    forall i | 0 <= i < |s[1..]| - 1 ensures s[1..][i] != c || s[1..][i + 1] != c {
      assert s[1..][i] == s[i + 1] && s[1..][i + 1] == s[i + 2];
    }
  }

  /** `re.sub("c+", "c", s)`: every run of `c` becomes a single `c`. */
  function CollapseRuns(s: string, c: char): (r: string)
    ensures |r| <= |s|
    decreases |s|
  {
    if s == [] then []
    else if s[0] == c then [c] + CollapseRuns(s[SkipRejected(s, 1, x => x != c)..], c)
    else [s[0]] + CollapseRuns(s[1..], c)
  }

  /** Collapsing changes nothing when no two `c` are adjacent. */
  lemma {:induction false} CollapseRunsFixed(s: string, c: char)
    requires NoDoubled(s, c)
    ensures CollapseRuns(s, c) == s
    decreases |s|
  {
    if s != [] {
      NoDoubledTail(s, c);
      CollapseRunsFixed(s[1..], c);
      if s[0] == c {
        assert |s| > 1 ==> s[1] != c;
        assert SkipRejected(s, 1, x => x != c) == 1;
      }
      assert s == [s[0]] + s[1..];
    }
  }

  /** `s.strip(cs)` is a contiguous piece of `s`. */
  lemma {:induction false} StripSetSlice(s: string, cs: set<char>) returns (k: nat)
    ensures k + |StripSet(s, cs)| <= |s| && StripSet(s, cs) == s[k..k + |StripSet(s, cs)|]
  {
    var l := StripLeft(s, cs);
    var r := StripRight(l, cs);
    k := |s| - |l|;
    assert l == s[k..];
    assert r == l[..|r|];
    assert s[k..][..|r|] == s[k..k + |r|];
  }

  // ------------------------------------------------------------------ numbers

  function DigitValue(c: char): int requires IsDigitChar(c) { c as int - '0' as int }

  /** `int(s)` for an all-digit string. */
  function ParseDigits(s: string): (n: nat)
    requires forall i :: 0 <= i < |s| ==> IsDigitChar(s[i])
  {
    if s == [] then 0 else ParseDigits(s[..|s| - 1]) * 10 + DigitValue(s[|s| - 1])
  }

  function NatToString(n: nat): (r: string)
    ensures r != [] && forall i :: 0 <= i < |r| ==> IsDigitChar(r[i])
  {
    if n < 10 then [('0' as int + n) as char]
    else NatToString(n / 10) + [('0' as int + n % 10) as char]
  }

  /** `str(n)` for an int. */
  function IntToString(n: int): string
  {
    if n < 0 then "-" + NatToString(-n) else NatToString(n)
  }

  /** Rendering a natural number and reading it back gives the number. */
  lemma {:induction false} ParseNatToString(n: nat)
    ensures ParseDigits(NatToString(n)) == n
  {
    if n >= 10 {
      var s := NatToString(n);
      assert s[..|s| - 1] == NatToString(n / 10);
      ParseNatToString(n / 10);
    }
  }

  // ------------------------------------------------------------------ ordering

  /** Python's `<=` on strings: code-point lexicographic order. */
  predicate Le(a: string, b: string)
  {
    if a == [] then true
    else if b == [] then false
    else if a[0] != b[0] then a[0] < b[0]
    else Le(a[1..], b[1..])
  }

  lemma {:induction false} LeTotal(a: string, b: string)
    ensures Le(a, b) || Le(b, a)
  {
    if a != [] && b != [] && a[0] == b[0] { LeTotal(a[1..], b[1..]); }
  }

  lemma {:induction false} LeTrans(a: string, b: string, c: string)
    requires Le(a, b) && Le(b, c)
    ensures Le(a, c)
  {
    if a != [] && b != [] && c != [] && a[0] == b[0] && b[0] == c[0] {
      LeTrans(a[1..], b[1..], c[1..]);
    }
  }

  lemma {:induction false} LeAntisym(a: string, b: string)
    requires Le(a, b) && Le(b, a)
    ensures a == b
  {
    if a != [] && b != [] {
      LeAntisym(a[1..], b[1..]);
      assert a == [a[0]] + a[1..] && b == [b[0]] + b[1..];
    }
  }

  lemma {:induction false} LeRefl(a: string)
    ensures Le(a, a)
  {
    if a != [] { LeRefl(a[1..]); }
  }

  /** `le` is a total preorder, which is what `sorted` needs of its comparison. */
  ghost predicate TotalPreorder<T(!new)>(le: (T, T) -> bool)
  {
    (forall a, b :: le(a, b) || le(b, a)) &&
    (forall a, b, c :: le(a, b) && le(b, c) ==> le(a, c))
  }

  predicate SortedBy<T>(s: seq<T>, le: (T, T) -> bool)
  {
    forall i, j :: 0 <= i < j < |s| ==> le(s[i], s[j])
  }

  /** Insert `x` before the first element it is `le` to (keeps earlier equals first). */
  function Insert<T>(x: T, s: seq<T>, le: (T, T) -> bool): (r: seq<T>)
    ensures multiset(r) == multiset(s) + multiset{x}
    ensures |r| == |s| + 1
  {
    if s == [] then [x]
    else if le(x, s[0]) then [x] + s
    else
      assert s == [s[0]] + s[1..];
      [s[0]] + Insert(x, s[1..], le)
  }

  /** Python's stable `sorted(xs, key=...)`, as an insertion sort over the comparison `le`. */
  function SortBy<T>(xs: seq<T>, le: (T, T) -> bool): (r: seq<T>)
    ensures multiset(r) == multiset(xs)
    ensures |r| == |xs|
  {
    if xs == [] then []
    else
      assert xs == [xs[0]] + xs[1..];
      Insert(xs[0], SortBy(xs[1..], le), le)
  }

  lemma {:induction false} InsertSorted<T(!new)>(x: T, s: seq<T>, le: (T, T) -> bool)
    requires TotalPreorder(le) && SortedBy(s, le)
    ensures SortedBy(Insert(x, s, le), le)
  {
    if s != [] && !le(x, s[0]) {
      InsertSorted(x, s[1..], le);
      var r := Insert(x, s, le);
      var t := Insert(x, s[1..], le);
      assert r == [s[0]] + t;
      assert le(s[0], x);
      forall k | 0 <= k < |t| ensures le(s[0], t[k]) {
        assert t[k] in multiset(t);
        assert t[k] in multiset(s[1..]) + multiset{x};
        if t[k] != x {
          assert t[k] in multiset(s[1..]);
          var m :| 0 <= m < |s[1..]| && s[1..][m] == t[k];
          assert s[m + 1] == t[k];
        }
      }
    }
  }

  /** `SortBy` returns its input in non-decreasing order. */
  lemma {:induction false} SortBySorted<T(!new)>(xs: seq<T>, le: (T, T) -> bool)
    requires TotalPreorder(le)
    ensures SortedBy(SortBy(xs, le), le)
  {
    if xs != [] {
      SortBySorted(xs[1..], le);
      InsertSorted(xs[0], SortBy(xs[1..], le), le);
    }
  }

  /** The elements of `s` that `le` ranks level with `y`, in order. */
  function LevelWith<T>(s: seq<T>, le: (T, T) -> bool, y: T): (r: seq<T>)
  {
    if s == [] then []
    else (if le(s[0], y) && le(y, s[0]) then [s[0]] else []) + LevelWith(s[1..], le, y)
  }

  /** Transitivity of `le` through the one middle element `y`. */
  ghost predicate TransitiveThrough<T(!new)>(le: (T, T) -> bool, y: T)
  {
    forall a, c :: le(a, y) && le(y, c) ==> le(a, c)
  }

  lemma ThroughStep<T(!new)>(le: (T, T) -> bool, y: T, a: T, c: T)
    requires TransitiveThrough(le, y)
    ensures le(a, y) && le(y, c) ==> le(a, c)
  {
  }

  lemma SwapApart<T>(a: seq<T>, b: seq<T>, rest: seq<T>)
    requires a == [] || b == []
    ensures b + (a + rest) == a + (b + rest)
  {
  }

  lemma LevelWithCons<T>(a: T, t: seq<T>, le: (T, T) -> bool, y: T)
    ensures LevelWith([a] + t, le, y) == (if le(a, y) && le(y, a) then [a] else []) + LevelWith(t, le, y)
  {
    assert ([a] + t)[1..] == t;
  }

  /** Inserting `x` puts it in front of every element level with it, the others keeping their order. */
  lemma {:induction false} InsertLevelWith<T(!new)>(x: T, s: seq<T>, le: (T, T) -> bool, y: T)
    requires TransitiveThrough(le, y)
    ensures LevelWith(Insert(x, s, le), le, y) ==
      (if le(x, y) && le(y, x) then [x] else []) + LevelWith(s, le, y)
  {
    if s != [] {
      if le(x, s[0]) {
        LevelWithCons(x, s, le, y);
      } else {
        var a: seq<T> := if le(x, y) && le(y, x) then [x] else [];
        var b: seq<T> := if le(s[0], y) && le(y, s[0]) then [s[0]] else [];
        var rest := LevelWith(s[1..], le, y);
        InsertLevelWith(x, s[1..], le, y);
        LevelWithCons(s[0], Insert(x, s[1..], le), le, y);
        LevelWithCons(s[0], s[1..], le, y);
        assert s == [s[0]] + s[1..];
        ThroughStep(le, y, x, s[0]);
        SwapApart(a, b, rest);
      }
    }
  }

  /**
   * `SortBy` is stable, as Python's `sorted` is: the elements ranked level with any `y` come
   * out in the order they went in.
   */
  lemma {:induction false} SortByStable<T(!new)>(xs: seq<T>, le: (T, T) -> bool, y: T)
    requires TotalPreorder(le)
    ensures LevelWith(SortBy(xs, le), le, y) == LevelWith(xs, le, y)
  {
    if xs != [] {
      SortByStable(xs[1..], le, y);
      InsertLevelWith(xs[0], SortBy(xs[1..], le), le, y);
    }
  }

  /** String order as a comparison function. */
  function StrLe(a: string, b: string): bool { Le(a, b) }

  lemma StrLeTotalPreorder()
    ensures TotalPreorder(StrLe)
  {
    forall a, b ensures StrLe(a, b) || StrLe(b, a) { LeTotal(a, b); }
    forall a, b, c | StrLe(a, b) && StrLe(b, c) ensures StrLe(a, c) { LeTrans(a, b, c); }
  }

  /** `sorted(strings)`. */
  function SortStrings(xs: seq<string>): (r: seq<string>)
    ensures multiset(r) == multiset(xs)
    ensures SortedBy(r, StrLe)
  {
    StrLeTotalPreorder();
    SortBySorted(xs, StrLe);
    SortBy(xs, StrLe)
  }

  // ------------------------------------------------------------------ filtering

  /** `[f(x) for x in xs if f(x) is not None]`, in order. */
  function FilterMap<A, B>(xs: seq<A>, f: A -> Option<B>): seq<B>
  {
    if xs == [] then []
    else
      var rest := FilterMap(xs[..|xs| - 1], f);
      match f(xs[|xs| - 1])
      case None => rest
      case Some(y) => rest + [y]
  }

  /** An element is produced exactly when some input maps to it. */
  lemma {:induction false} FilterMapMembers<A, B>(xs: seq<A>, f: A -> Option<B>, y: B)
    ensures y in FilterMap(xs, f) <==> exists i :: 0 <= i < |xs| && f(xs[i]) == Some(y)
  {
    if xs != [] {
      var n := |xs| - 1;
      var front := xs[..n];
      FilterMapMembers(front, f, y);
      if exists i :: 0 <= i < |front| && f(front[i]) == Some(y) {
        var i :| 0 <= i < |front| && f(front[i]) == Some(y);
        assert xs[i] == front[i];
      }
      if exists i :: 0 <= i < |xs| && f(xs[i]) == Some(y) {
        var i :| 0 <= i < |xs| && f(xs[i]) == Some(y);
        if i < n {
          assert front[i] == xs[i];
        }
      }
    }
  }

  /** Extending the input by one element extends the output by that element's image, if any. */
  lemma FilterMapStep<A, B>(xs: seq<A>, f: A -> Option<B>, i: nat)
    requires i < |xs|
    ensures FilterMap(xs[..i + 1], f) == FilterMap(xs[..i], f) + (if f(xs[i]).Some? then [f(xs[i]).value] else [])
  {
    assert xs[..i + 1][..i] == xs[..i];
  }

  // ------------------------------------------------------------------ duplicates

  predicate NoDuplicates<T(==)>(s: seq<T>)
  {
    forall i, j :: 0 <= i < j < |s| ==> s[i] != s[j]
  }

  /** The elements of `xs` in first-occurrence order, each once. */
  function Dedup<T(==,!new)>(xs: seq<T>): (r: seq<T>)
    ensures NoDuplicates(r)
    ensures forall x :: x in r <==> x in xs
  {
    if xs == [] then []
    else
      var rest := Dedup(xs[..|xs| - 1]);
      var x := xs[|xs| - 1];
      assert xs == xs[..|xs| - 1] + [x];
      if x in rest then rest else rest + [x]
  }

  /** `dict.fromkeys` keeps the first element first. */
  lemma {:induction false} DedupFirst<T(!new)>(xs: seq<T>)
    requires xs != []
    ensures Dedup(xs) != [] && Dedup(xs)[0] == xs[0]
  {
    if |xs| > 1 {
      var n := |xs| - 1;
      DedupFirst(xs[..n]);
    }
  }

  /** A duplicate-free sequence holds each element exactly once. */
  lemma {:induction false} NoDuplicatesMultiset<T>(s: seq<T>, x: T)
    requires NoDuplicates(s) && x in s
    ensures multiset(s)[x] == 1
  {
    if s[|s| - 1] == x {
      assert s == s[..|s| - 1] + [x];
      assert x !in s[..|s| - 1];
    } else {
      assert s == s[..|s| - 1] + [s[|s| - 1]];
      NoDuplicatesMultiset(s[..|s| - 1], x);
    }
  }

  /** A permutation of a duplicate-free sequence is duplicate-free. */
  lemma PermutationNoDuplicates<T>(s: seq<T>, t: seq<T>)
    requires NoDuplicates(s) && multiset(s) == multiset(t)
    ensures NoDuplicates(t)
  {
    forall i, j | 0 <= i < j < |t| ensures t[i] != t[j] {
      if t[i] == t[j] {
        var x := t[i];
        assert t == t[..i] + [x] + t[i + 1..];
        assert t[j] in t[i + 1..] by { assert t[i + 1..][j - i - 1] == t[j]; }
        assert multiset(t)[x] >= 2 by {
          assert multiset(t) == multiset(t[..i]) + multiset{x} + multiset(t[i + 1..]);
        }
        assert x in multiset(s);
        NoDuplicatesMultiset(s, x);
      }
    }
  }

  /** `sorted(set(xs))`: the distinct elements in string order. */
  function SortedUnique(xs: seq<string>): (r: seq<string>)
    ensures SortedBy(r, StrLe) && NoDuplicates(r)
    ensures forall x :: x in r <==> x in xs
  {
    var d := Dedup(xs);
    var r := SortStrings(d);
    PermutationNoDuplicates(d, r);
    assert forall x :: x in r <==> x in multiset(d);
    r
  }

  lemma FirstIn<T>(s: seq<T>)
    ensures s != [] ==> s[0] in s
  {
  }

  /** A sorted duplicate-free list of strings is determined by its elements. */
  lemma {:induction false} SortedSetsEqual(a: seq<string>, b: seq<string>)
    requires SortedBy(a, StrLe) && NoDuplicates(a)
    requires SortedBy(b, StrLe) && NoDuplicates(b)
    requires forall x :: x in a <==> x in b
    ensures a == b
  {
    FirstIn(b);
    if a == [] {
    } else {
      assert a[0] in b;
      var x, y := a[0], b[0];
      assert Le(x, y) by {
        assert y in a;
        var j :| 0 <= j < |a| && a[j] == y;
        if j == 0 { LeRefl(x); } else { assert StrLe(a[0], a[j]); }
      }
      assert Le(y, x) by {
        var j :| 0 <= j < |b| && b[j] == x;
        if j == 0 { LeRefl(y); } else { assert StrLe(b[0], b[j]); }
      }
      LeAntisym(x, y);
      forall z ensures z in a[1..] <==> z in b[1..] {
        if z in a[1..] {
          var j :| 0 <= j < |a[1..]| && a[1..][j] == z;
          assert a[j + 1] == z && z != x;
        }
        if z in b[1..] {
          var j :| 0 <= j < |b[1..]| && b[1..][j] == z;
          assert b[j + 1] == z && z != y;
        }
        assert z in a <==> z == x || z in a[1..] by { assert a == [x] + a[1..]; }
        assert z in b <==> z == y || z in b[1..] by { assert b == [y] + b[1..]; }
      }
      SortedSetsEqual(a[1..], b[1..]);
      assert a == [x] + a[1..] && b == [y] + b[1..];
    }
  }
}
