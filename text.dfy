/**
 * The handful of Python string operations `setup/bin/maf_filter.py` relies on, written out over
 * `seq<char>`.
 */
module Text {

  /** `s.startswith(p)`, and also `re.match(p, s)` for a pattern `p` without metacharacters. */
  predicate StartsWith(s: string, p: string) {
    p <= s
  }

  /** `re.search(t, s) is not None` for a literal pattern `t`: does `t` occur anywhere in `s`? */
  function Contains(s: string, t: string): (r: bool)
    ensures r <==> exists i :: 0 <= i <= |s| && t <= s[i..]
    decreases |s|
  {
    if t <= s then
      assert s[0..] == s;
      true
    else if s == [] then false
    else
      var r' := Contains(s[1..], t);
      assert forall i :: 1 <= i <= |s| ==> s[i..] == s[1..][i - 1..];
      assert r' ==> exists i :: 0 <= i <= |s| && t <= s[i..] by {
        if r' {
          var j :| 0 <= j <= |s[1..]| && t <= s[1..][j..];
          assert s[1..][j..] == s[j + 1..];
        }
      }
      r'
  }

  /** `re.match(alt_1|...|alt_n, s) is not None` for literal alternatives: some alternative is a prefix of `s`. */
  function StartsWithAny(ps: seq<string>, s: string): (r: bool)
    ensures r <==> exists i :: 0 <= i < |ps| && ps[i] <= s
  {
    if ps == [] then false
    else if ps[0] <= s then true
    else
      var r' := StartsWithAny(ps[1..], s);
      assert forall i :: 1 <= i < |ps| ==> ps[i] == ps[1..][i - 1];
      r'
  }

  /** Python slicing `xs[0:n]`: the first `n` elements, or all of them when there are fewer. */
  function Take<T>(xs: seq<T>, n: nat): (r: seq<T>)
    ensures r <= xs
    ensures |r| == if |xs| <= n then |xs| else n
  {
    if |xs| <= n then xs else xs[..n]
  }

  /** `s.replace(a, b)` for single characters `a` and `b`. */
  function ReplaceChar(s: string, a: char, b: char): (r: string)
    ensures |r| == |s|
    ensures forall i :: 0 <= i < |s| ==> r[i] == (if s[i] == a then b else s[i])
    ensures a != b ==> a !in r
  {
    if s == [] then [] else [if s[0] == a then b else s[0]] + ReplaceChar(s[1..], a, b)
  }

  /** The first position at or after `i` whose character is not in `cs`, or `|s|` when there is none. */
  function SkipForward(s: string, cs: set<char>, i: nat): (k: nat)
    requires i <= |s|
    ensures i <= k <= |s|
    ensures forall m :: i <= m < k ==> s[m] in cs
    ensures k < |s| ==> s[k] !in cs
    decreases |s| - i
  {
    if i < |s| && s[i] in cs then SkipForward(s, cs, i + 1) else i
  }

  /** Just past the last position before `j` and from `lo` on whose character is not in `cs`, or `lo`. */
  function SkipBackward(s: string, cs: set<char>, lo: nat, j: nat): (k: nat)
    requires lo <= j <= |s|
    ensures lo <= k <= j
    ensures forall m :: k <= m < j ==> s[m] in cs
    ensures k > lo ==> s[k - 1] !in cs
    decreases j
  {
    if lo < j && s[j - 1] in cs then SkipBackward(s, cs, lo, j - 1) else j
  }

  /** `s[i..j]` is what remains of `s` once a run of `cs` characters is dropped from each end. */
  predicate TrimmedTo(s: string, cs: set<char>, i: nat, j: nat) {
    i <= j <= |s| && (forall k :: 0 <= k < i ==> s[k] in cs) && (forall k :: j <= k < |s| ==> s[k] in cs)
  }

  /**
   * Python `s.strip(chars)`: drops the characters of `cs` from both ends. The result is a slice of `s`
   * with only `cs` characters around it, and it neither starts nor ends with one of them.
   */
  function Strip(s: string, cs: set<char>): (r: string)
    ensures exists i: nat, j: nat :: TrimmedTo(s, cs, i, j) && r == s[i..j]
    ensures r == [] || (r[0] !in cs && r[|r| - 1] !in cs)
    ensures (s == [] || (s[0] !in cs && s[|s| - 1] !in cs)) ==> r == s
  {
    var i := SkipForward(s, cs, 0);
    var j := SkipBackward(s, cs, i, |s|);
    assert TrimmedTo(s, cs, i, j);
    assert s != [] && s[0] !in cs && s[|s| - 1] !in cs ==> i == 0 && j == |s|;
    assert s[0..|s|] == s;
    s[i..j]
  }

  /**
   * `Strip` removes exactly the maximal runs: any slice with only `cs` characters around it that is
   * empty or neither starts nor ends with one of them is the result of `Strip`.
   */
  lemma StripSlice(s: string, cs: set<char>, i: nat, j: nat)
    requires TrimmedTo(s, cs, i, j)
    requires i == j || (s[i] !in cs && s[j - 1] !in cs)
    ensures Strip(s, cs) == s[i..j]
  {
    var r := Strip(s, cs);
    var i': nat, j': nat :| TrimmedTo(s, cs, i', j') && r == s[i'..j'];
    if r != [] {
      assert r[0] == s[i'] && r[|r| - 1] == s[j' - 1];
    }
  }

  /** Python `s.split(sep)` for a one-character separator: always at least one field. */
  function Split(s: string, sep: char): (r: seq<string>)
    ensures |r| >= 1
    ensures forall k :: 0 <= k < |r| ==> sep !in r[k]
  {
    if s == [] then [[]]
    else
      var rest := Split(s[1..], sep);
      if s[0] == sep then [[]] + rest
      else [[s[0]] + rest[0]] + rest[1..]
  }

  /** `s.endswith(p)`. */
  predicate EndsWith(s: string, p: string) {
    |p| <= |s| && s[|s| - |p|..] == p
  }

  /** Python `sep.join(fs)`. */
  function Join(fs: seq<string>, sep: char): string {
    if fs == [] then []
    else if |fs| == 1 then fs[0]
    else fs[0] + [sep] + Join(fs[1..], sep)
  }

  /** A join starts with the first field and ends with the last, and joining nothing gives the empty string. */
  lemma {:induction false} JoinEnds(fs: seq<string>, sep: char)
    ensures fs == [] ==> Join(fs, sep) == []
    ensures fs != [] ==> StartsWith(Join(fs, sep), fs[0]) && EndsWith(Join(fs, sep), fs[|fs| - 1])
  {
    if |fs| == 1 {
      assert fs[0][0..] == fs[0];
    } else if |fs| >= 2 {
      var rest := Join(fs[1..], sep);
      var r := Join(fs, sep);
      JoinEnds(fs[1..], sep);
      assert r[|r| - |fs[|fs| - 1]|..] == rest[|rest| - |fs[|fs| - 1]|..];
    }
  }

  /** Joining the fields of a split gives back the string that was split. */
  lemma {:induction false} JoinSplit(s: string, sep: char)
    ensures Join(Split(s, sep), sep) == s
  {
    if s != [] {
      var rest := Split(s[1..], sep);
      JoinSplit(s[1..], sep);
      if s[0] != sep {
        JoinFirst(rest, [s[0]], sep);
      }
    }
  }

  /** Prepending to the first field prepends to the joined string. */
  lemma {:induction false} JoinFirst(fs: seq<string>, p: string, sep: char)
    requires |fs| >= 1
    ensures Join([p + fs[0]] + fs[1..], sep) == p + Join(fs, sep)
  {
    var gs := [p + fs[0]] + fs[1..];
    assert gs[1..] == fs[1..];
  }

  /** Splitting a join of separator-free fields gives back the fields. */
  lemma {:induction false} SplitJoin(fs: seq<string>, sep: char)
    requires |fs| >= 1
    requires forall k :: 0 <= k < |fs| ==> sep !in fs[k]
    ensures Split(Join(fs, sep), sep) == fs
    decreases |fs|, |fs[0]|
  {
    if |fs| == 1 {
      SplitPlain(fs[0], sep);
    } else if fs[0] == [] {
      var rest := Join(fs[1..], sep);
      assert Join(fs, sep) == [sep] + rest;
      assert ([sep] + rest)[1..] == rest;
      SplitJoin(fs[1..], sep);
      assert [fs[0]] + fs[1..] == fs;
    } else {
      var c := fs[0][0];
      var gs := [fs[0][1..]] + fs[1..];
      assert gs[1..] == fs[1..];
      SplitJoin(gs, sep);
      assert Join(fs, sep) == [c] + Join(gs, sep) by {
        assert fs[0] == [c] + fs[0][1..];
      }
      assert ([c] + Join(gs, sep))[1..] == Join(gs, sep);
      assert [c] + gs[0] == fs[0];
      assert [fs[0]] + fs[1..] == fs;
    }
  }

  /** A string without the separator splits into itself alone. */
  lemma {:induction false} SplitPlain(s: string, sep: char)
    requires sep !in s
    ensures Split(s, sep) == [s]
  {
    if s != [] {
      assert sep !in s[1..] by {
        assert forall x :: x in s[1..] ==> x in s;
      }
      SplitPlain(s[1..], sep);
      assert [s[0]] + s[1..] == s;
    }
  }
}
