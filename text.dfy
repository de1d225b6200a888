/**
 * The Python string operations the synchroniser relies on: `startswith`,
 * `strip`, `split` with a maximum, `replace`, `lower` and `title`, and the
 * joining of path components. Case mapping covers the ASCII letters only.
 */
module Text {
  import opened Wrappers

  /** The characters Python's `str.isspace()` accepts; `str.strip()` without argument removes exactly these. */
  const PyWhitespace: set<char> := {
    '\t', '\n', '\U{B}', '\U{C}', '\r', '\U{1C}', '\U{1D}', '\U{1E}', '\U{1F}', ' ',
    '\U{85}', '\U{A0}', '\U{1680}', '\U{2000}', '\U{2001}', '\U{2002}', '\U{2003}',
    '\U{2004}', '\U{2005}', '\U{2006}', '\U{2007}', '\U{2008}', '\U{2009}', '\U{200A}',
    '\U{2028}', '\U{2029}', '\U{202F}', '\U{205F}', '\U{3000}'
  }

  predicate StartsWith(s: string, prefix: string) {
    |prefix| <= |s| && s[..|prefix|] == prefix
  }

  predicate EndsWith(s: string, suffix: string) {
    |suffix| <= |s| && s[|s| - |suffix|..] == suffix
  }

  /** `pat` occurs in `s` starting at index `k`. */
  predicate OccursAt(s: string, pat: string, k: nat) {
    k + |pat| <= |s| && s[k..k + |pat|] == pat
  }

  /** Drop the leading characters of `s` that are in `cs`. */
  function TrimLeft(s: string, cs: set<char>): string {
    if s != [] && s[0] in cs then TrimLeft(s[1..], cs) else s
  }

  /** `TrimLeft` leaves a suffix of its input. */
  lemma {:induction false} TrimLeftSuffix(s: string, cs: set<char>)
    ensures |TrimLeft(s, cs)| <= |s| && TrimLeft(s, cs) == s[|s| - |TrimLeft(s, cs)|..]
  {
    if s != [] && s[0] in cs {
      var t := s[1..];
      TrimLeftSuffix(t, cs);
      assert t[|t| - |TrimLeft(t, cs)|..] == s[|s| - |TrimLeft(t, cs)|..];
    }
  }

  /** What `TrimLeft` drops is made of characters of `cs`. */
  lemma {:induction false} TrimLeftDrops(s: string, cs: set<char>)
    ensures |TrimLeft(s, cs)| <= |s|
    ensures forall k :: 0 <= k < |s| - |TrimLeft(s, cs)| ==> s[k] in cs
  {
    if s != [] && s[0] in cs {
      var t := s[1..];
      TrimLeftDrops(t, cs);
      assert forall k :: 1 <= k < |s| - |TrimLeft(t, cs)| ==> s[k] == t[k - 1];
    }
  }

  /** What `TrimLeft` leaves does not start with a character of `cs`. */
  lemma {:induction false} TrimLeftFirst(s: string, cs: set<char>)
    ensures TrimLeft(s, cs) != [] ==> TrimLeft(s, cs)[0] !in cs
  {
    if s != [] && s[0] in cs {
      TrimLeftFirst(s[1..], cs);
    }
  }

  /** `TrimLeft` drops the longest prefix made of characters of `cs`, and only it. */
  lemma TrimLeftSpec(s: string, cs: set<char>)
    ensures var r := TrimLeft(s, cs);
      && |r| <= |s| && r == s[|s| - |r|..]
      && (forall k :: 0 <= k < |s| - |r| ==> s[k] in cs)
      && (r != [] ==> r[0] !in cs)
  {
    TrimLeftSuffix(s, cs);
    TrimLeftDrops(s, cs);
    TrimLeftFirst(s, cs);
  }

  /** Drop the trailing characters of `s` that are in `cs`. */
  function TrimRight(s: string, cs: set<char>): string {
    if s != [] && s[|s| - 1] in cs then TrimRight(s[..|s| - 1], cs) else s
  }

  /** `TrimRight` leaves a prefix of its input. */
  lemma {:induction false} TrimRightPrefix(s: string, cs: set<char>)
    ensures |TrimRight(s, cs)| <= |s| && TrimRight(s, cs) == s[..|TrimRight(s, cs)|]
  {
    if s != [] && s[|s| - 1] in cs {
      var t := s[..|s| - 1];
      TrimRightPrefix(t, cs);
      assert t[..|TrimRight(t, cs)|] == s[..|TrimRight(t, cs)|];
    }
  }

  /** What `TrimRight` drops is made of characters of `cs`. */
  lemma {:induction false} TrimRightDrops(s: string, cs: set<char>)
    ensures |TrimRight(s, cs)| <= |s|
    ensures forall k :: |TrimRight(s, cs)| <= k < |s| ==> s[k] in cs
  {
    if s != [] && s[|s| - 1] in cs {
      var t := s[..|s| - 1];
      TrimRightDrops(t, cs);
      assert forall k :: |TrimRight(t, cs)| <= k < |t| ==> s[k] == t[k];
    }
  }

  /** What `TrimRight` leaves does not end with a character of `cs`. */
  lemma {:induction false} TrimRightLast(s: string, cs: set<char>)
    ensures TrimRight(s, cs) != [] ==> TrimRight(s, cs)[|TrimRight(s, cs)| - 1] !in cs
  {
    if s != [] && s[|s| - 1] in cs {
      TrimRightLast(s[..|s| - 1], cs);
    }
  }

  /** `TrimRight` drops the longest suffix made of characters of `cs`, and only it. */
  lemma TrimRightSpec(s: string, cs: set<char>)
    ensures var r := TrimRight(s, cs);
      && |r| <= |s| && r == s[..|r|]
      && (forall k :: |r| <= k < |s| ==> s[k] in cs)
      && (r != [] ==> r[|r| - 1] !in cs)
  {
    TrimRightPrefix(s, cs);
    TrimRightDrops(s, cs);
    TrimRightLast(s, cs);
  }

  /** Python's `s.strip(chars)` with the characters of `cs`. */
  function StripChars(s: string, cs: set<char>): string {
    TrimRight(TrimLeft(s, cs), cs)
  }

  /** Python's `s.strip()`. */
  function Strip(s: string): string {
    StripChars(s, PyWhitespace)
  }

  /** Stripping twice is stripping once. */
  lemma StripCharsIdempotent(s: string, cs: set<char>)
    ensures StripChars(StripChars(s, cs), cs) == StripChars(s, cs)
  {
    var a := TrimLeft(s, cs);
    var b := TrimRight(a, cs);
    TrimLeftSpec(s, cs);
    TrimRightSpec(a, cs);
    if b != [] {
      assert b[0] == a[0];
      assert TrimLeft(b, cs) == b;
    }
  }

  lemma {:induction false} TrimLeftSkipsPrefix(w: string, x: string, cs: set<char>)
    requires forall k :: 0 <= k < |w| ==> w[k] in cs
    ensures TrimLeft(w + x, cs) == TrimLeft(x, cs)
  {
    if w != [] {
      assert (w + x)[0] == w[0] && w[0] in cs;
      assert (w + x)[1..] == w[1..] + x;
      assert forall k :: 0 <= k < |w[1..]| ==> w[1..][k] == w[k + 1];
      TrimLeftSkipsPrefix(w[1..], x, cs);
    } else {
      assert w + x == x;
    }
  }

  lemma {:induction false} TrimRightSkipsSuffix(x: string, w: string, cs: set<char>)
    requires forall k :: 0 <= k < |w| ==> w[k] in cs
    ensures TrimRight(x + w, cs) == TrimRight(x, cs)
  {
    if w != [] {
      var n := |x + w|;
      assert (x + w)[..n - 1] == x + w[..|w| - 1];
      TrimRightSkipsSuffix(x, w[..|w| - 1], cs);
    } else {
      assert x + w == x;
    }
  }

  lemma {:induction false} TrimLeftOfAppend(x: string, w: string, cs: set<char>)
    requires forall k :: 0 <= k < |w| ==> w[k] in cs
    ensures TrimLeft(x, cs) == [] ==> TrimLeft(x + w, cs) == []
    ensures TrimLeft(x, cs) != [] ==> TrimLeft(x + w, cs) == TrimLeft(x, cs) + w
  {
    if x == [] {
      assert x + w == w;
      TrimLeftSkipsPrefix(w, [], cs);
      assert w + [] == w;
    } else if x[0] in cs {
      assert (x + w)[1..] == x[1..] + w;
      TrimLeftOfAppend(x[1..], w, cs);
    }
  }

  /** A text is what `strip` leaves of it, between a stripped prefix and a stripped suffix. */
  lemma StripSplit(s: string, cs: set<char>) returns (w1: string, w2: string)
    ensures s == w1 + StripChars(s, cs) + w2
    ensures forall k :: 0 <= k < |w1| ==> w1[k] in cs
    ensures forall k :: 0 <= k < |w2| ==> w2[k] in cs
    ensures StripChars(s, cs) == [] ==> w2 == []
    ensures StripChars(s, cs) != [] ==>
      StripChars(s, cs)[0] !in cs && StripChars(s, cs)[|StripChars(s, cs)| - 1] !in cs
  {
    var l := TrimLeft(s, cs);
    TrimLeftSpec(s, cs);
    w1 := s[..|s| - |l|];
    assert s == w1 + l;
    w2 := TrimRightSplit(l, cs);
  }

  lemma TrimRightSplit(l: string, cs: set<char>) returns (w2: string)
    requires l != [] ==> l[0] !in cs
    ensures l == TrimRight(l, cs) + w2
    ensures forall k :: 0 <= k < |w2| ==> w2[k] in cs
    ensures TrimRight(l, cs) == [] ==> w2 == []
    ensures TrimRight(l, cs) != [] ==>
      TrimRight(l, cs)[0] !in cs && TrimRight(l, cs)[|TrimRight(l, cs)| - 1] !in cs
  {
    var core := TrimRight(l, cs);
    TrimRightSpec(l, cs);
    w2 := l[|core|..];
    assert l == core + w2;
    if core != [] {
      assert core[0] == l[0];
    }
  }

  /** Whitespace around a text does not change what `strip` leaves of it. */
  lemma StripIgnoresSurrounding(w1: string, s: string, w2: string, cs: set<char>)
    requires forall k :: 0 <= k < |w1| ==> w1[k] in cs
    requires forall k :: 0 <= k < |w2| ==> w2[k] in cs
    ensures StripChars(w1 + s + w2, cs) == StripChars(s, cs)
  {
    assert w1 + s + w2 == w1 + (s + w2);
    TrimLeftSkipsPrefix(w1, s + w2, cs);
    TrimLeftOfAppend(s, w2, cs);
    if TrimLeft(s, cs) != [] {
      TrimRightSkipsSuffix(TrimLeft(s, cs), w2, cs);
    }
  }

  /**
   * The least index at or after `from` where `pat` occurs in `s`: the search
   * `str.split` performs for its separator.
   */
  function Find(s: string, pat: string, from: nat): (r: Option<nat>)
    decreases |s| - from
    ensures r.Some? ==> from <= r.value && OccursAt(s, pat, r.value)
    ensures r.Some? ==> forall k :: from <= k < r.value ==> !OccursAt(s, pat, k)
    ensures r.None? ==> forall k :: from <= k ==> !OccursAt(s, pat, k)
  {
    if from + |pat| > |s| then None
    else if s[from..from + |pat|] == pat then Some(from)
    else Find(s, pat, from + 1)
  }

  /**
   * Python's `s.replace(pat, rep)`: every occurrence of `pat`, scanned left to
   * right without overlap, is replaced by `rep`.
   */
  function ReplaceAll(s: string, pat: string, rep: string): string
    requires pat != []
    decreases |s|
  {
    if OccursAt(s, pat, 0) then rep + ReplaceAll(s[|pat|..], pat, rep)
    else if s == [] then []
    else [s[0]] + ReplaceAll(s[1..], pat, rep)
  }

  /** Replacing one character by another keeps the length and maps every position. */
  lemma {:induction false} ReplaceAllChar(s: string, a: char, b: char)
    ensures |ReplaceAll(s, [a], [b])| == |s|
    ensures forall i :: 0 <= i < |s| ==> ReplaceAll(s, [a], [b])[i] == (if s[i] == a then b else s[i])
  {
    if s != [] {
      ReplaceAllChar(s[1..], a, b);
      if OccursAt(s, [a], 0) {
        assert s[0] == a;
      }
    }
  }

  /** An occurrence in the tail of `s` is an occurrence in `s` one place further on. */
  lemma OccursAtTail(s: string, pat: string, k: nat)
    requires s != []
    ensures OccursAt(s[1..], pat, k) <==> OccursAt(s, pat, k + 1)
  {
    if k + 1 + |pat| <= |s| {
      assert s[1..][k..k + |pat|] == s[k + 1..k + 1 + |pat|];
    }
  }

  /** A text in which `pat` occurs only as its final suffix loses exactly that suffix. */
  lemma {:induction false} ReplaceAllOnlySuffix(stem: string, pat: string, rep: string)
    requires pat != []
    requires forall k :: 0 <= k < |stem| ==> !OccursAt(stem + pat, pat, k)
    ensures ReplaceAll(stem + pat, pat, rep) == stem + rep
  {
    var s := stem + pat;
    if stem == [] {
      assert s == pat;
      assert OccursAt(s, pat, 0);
      assert s[|pat|..] == [];
      assert !OccursAt([], pat, 0);
    } else {
      assert !OccursAt(s, pat, 0);
      var t := s[1..];
      assert t == stem[1..] + pat;
      forall k | 0 <= k < |stem[1..]|
        ensures !OccursAt(stem[1..] + pat, pat, k)
      {
        OccursAtTail(s, pat, k);
        assert !OccursAt(s, pat, k + 1);
      }
      ReplaceAllOnlySuffix(stem[1..], pat, rep);
      assert ReplaceAll(s, pat, rep) == [s[0]] + ReplaceAll(t, pat, rep);
      assert [s[0]] + (stem[1..] + rep) == stem + rep;
    }
  }

  predicate IsCased(c: char) {
    'A' <= c <= 'Z' || 'a' <= c <= 'z'
  }

  function LowerChar(c: char): char {
    if 'A' <= c <= 'Z' then (c as int + 32) as char else c
  }

  function UpperChar(c: char): char {
    if 'a' <= c <= 'z' then (c as int - 32) as char else c
  }

  /** Python's `s.lower()`. */
  function Lower(s: string): string {
    seq(|s|, i requires 0 <= i < |s| => LowerChar(s[i]))
  }

  function TitleFrom(s: string, prevCased: bool): (r: string)
    ensures |r| == |s|
    ensures forall i {:trigger r[i]} :: 0 <= i < |s| ==>
      r[i] == (if (if i == 0 then prevCased else IsCased(s[i - 1])) then LowerChar(s[i]) else UpperChar(s[i]))
  {
    if s == [] then []
    else [if prevCased then LowerChar(s[0]) else UpperChar(s[0])] + TitleFrom(s[1..], IsCased(s[0]))
  }

  /**
   * Python's `s.title()`: a letter that follows a letter is lowered, every
   * other letter is raised, and the other characters are kept.
   */
  function Title(s: string): (r: string)
    ensures |r| == |s|
    ensures forall i {:trigger r[i]} :: 0 <= i < |s| ==>
      r[i] == (if i > 0 && IsCased(s[i - 1]) then LowerChar(s[i]) else UpperChar(s[i]))
  {
    TitleFrom(s, false)
  }

  /** `pathlib`'s `dir / name` for a relative `name`. */
  function Join(dir: string, name: string): string {
    dir + "/" + name
  }
}
