/** String operations the program borrows from Rust's `str` and Python's `str`:
    `trim_end_matches` / `rstrip`, `contains` / `in`, `replace`, `strip`,
    `startswith`, ASCII `lower` and decimal formatting of integers. */
module Text {

  /** `s.trim_end_matches(c)` in Rust, `s.rstrip(c)` in Python: every trailing `c` removed. */
  function TrimEnd(s: string, c: char): (r: string)
    ensures |r| <= |s| && r == s[..|r|]
    ensures |r| == 0 || r[|r| - 1] != c
    ensures forall i :: |r| <= i < |s| ==> s[i] == c
    decreases |s|
  {
    if |s| > 0 && s[|s| - 1] == c then TrimEnd(s[..|s| - 1], c) else s
  }

  /** The three clauses of TrimEnd's contract pin the result down: no other string meets them. */
  lemma TrimEndUnique(s: string, c: char, r: string)
    requires |r| <= |s| && r == s[..|r|]
    requires |r| == 0 || r[|r| - 1] != c
    requires forall i :: |r| <= i < |s| ==> s[i] == c
    ensures r == TrimEnd(s, c)
  {
  }

  /** Trimming twice is trimming once. */
  lemma TrimEndIdempotent(s: string, c: char)
    ensures TrimEnd(TrimEnd(s, c), c) == TrimEnd(s, c)
  {
    var t := TrimEnd(s, c);
    TrimEndUnique(t, c, t);
  }

  /** One more trailing `c` makes no difference. */
  lemma TrimEndAppend(s: string, c: char)
    ensures TrimEnd(s + [c], c) == TrimEnd(s, c)
  {
    var t := TrimEnd(s, c);
    var u := s + [c];
    assert u[..|s|] == s;
    assert t == u[..|t|];
    TrimEndUnique(u, c, t);
  }

  /** `s.trim_start_matches(c)`: every leading `c` removed. */
  function TrimStart(s: string, c: char): (r: string)
    ensures |r| <= |s| && r == s[|s| - |r|..]
    ensures |r| == 0 || r[0] != c
    ensures forall i :: 0 <= i < |s| - |r| ==> s[i] == c
    decreases |s|
  {
    if |s| > 0 && s[0] == c then TrimStart(s[1..], c) else s
  }

  /** `s.trim_matches(c)`: every leading and trailing `c` removed; the result
      neither starts nor ends with `c` (TrimMatchesSlice says what was removed). */
  function TrimMatches(s: string, c: char): (r: string)
    ensures |r| <= |s|
    ensures |r| == 0 || (r[0] != c && r[|r| - 1] != c)
  {
    TrimStart(TrimEnd(s, c), c)
  }

  /** `trim_matches` returns the slice of `s` after its leading run of `c`
      and before its trailing run: only `c` was removed on either side. */
  lemma TrimMatchesSlice(s: string, c: char)
    ensures var r := TrimMatches(s, c);
      var k := |TrimEnd(s, c)| - |r|;
      && 0 <= k && k + |r| <= |s| && r == s[k..k + |r|]
      && AllOf(s[..k], c) && AllOf(s[k + |r|..], c)
  {
    var e := TrimEnd(s, c);
    var r := TrimStart(e, c);
    var k := |e| - |r|;
    assert r == s[k..|e|];
    assert AllOf(s[..k], c) by {
      forall i | 0 <= i < k ensures s[..k][i] == c { assert s[..k][i] == e[i]; }
    }
    assert AllOf(s[k + |r|..], c) by {
      forall i | 0 <= i < |s| - |e| ensures s[|e|..][i] == c { assert s[|e|..][i] == s[|e| + i]; }
    }
  }

  /** Every character of `t` is `c`. */
  predicate AllOf(t: string, c: char) {
    forall i :: 0 <= i < |t| ==> t[i] == c
  }

  predicate StartsWith(s: string, prefix: string) {
    |prefix| <= |s| && s[..|prefix|] == prefix
  }

  /** `s.contains(p)` in Rust, `p in s` in Python. */
  predicate Contains(s: string, p: string)
    decreases |s|
  {
    StartsWith(s, p) || (|s| > 0 && Contains(s[1..], p))
  }

  /** Contains means: `p` starts at some position of `s`. */
  lemma {:induction false} ContainsIff(s: string, p: string)
    ensures Contains(s, p) <==> exists i :: 0 <= i <= |s| && StartsWith(s[i..], p)
    decreases |s|
  {
    if |s| > 0 {
      ContainsIff(s[1..], p);
      forall i | 1 <= i <= |s| ensures s[i..] == s[1..][i - 1..] { }
      if exists i :: 0 <= i <= |s| && StartsWith(s[i..], p) {
        var i :| 0 <= i <= |s| && StartsWith(s[i..], p);
        if i > 0 {
          assert StartsWith(s[1..][i - 1..], p);
        } else {
          assert s[0..] == s;
        }
      }
      if Contains(s, p) {
        if StartsWith(s, p) {
          assert s[0..] == s;
        } else {
          var j :| 0 <= j <= |s[1..]| && StartsWith(s[1..][j..], p);
          assert s[j + 1..] == s[1..][j..];
        }
      }
    } else {
      assert s[0..] == s;
    }
  }

  lemma {:induction false} ContainsLength(s: string, p: string)
    requires Contains(s, p)
    ensures |p| <= |s|
    decreases |s|
  {
    if !StartsWith(s, p) {
      ContainsLength(s[1..], p);
    }
  }

  /** A string found inside a slice is found inside the whole string. */
  lemma ContainsSlice(s: string, i: nat, j: nat, p: string)
    requires i <= j <= |s|
    requires Contains(s[i..j], p)
    ensures Contains(s, p)
  {
    ContainsIff(s[i..j], p);
    var k :| 0 <= k <= j - i && StartsWith(s[i..j][k..], p);
    assert s[i..j][k..] == s[i + k..][..j - i - k];
    assert StartsWith(s[i + k..], p);
    ContainsIff(s, p);
  }

  /** An occurrence at position `i` fixes the characters from `i` on. */
  lemma StartsWithAt(s: string, i: nat, p: string)
    requires i <= |s| && StartsWith(s[i..], p)
    ensures i + |p| <= |s|
    ensures forall k :: 0 <= k < |p| ==> s[i + k] == p[k]
  {
    forall k | 0 <= k < |p| ensures s[i + k] == p[k] {
      assert s[i..][..|p|][k] == s[i + k];
    }
  }

  /** An occurrence of a separator-free pattern lies wholly before or wholly after the separator. */
  lemma OccurrenceSide(a: string, sep: char, b: string, p: string, i: nat)
    requires forall k :: 0 <= k < |p| ==> p[k] != sep
    requires i <= |a + [sep] + b| && StartsWith((a + [sep] + b)[i..], p)
    ensures i + |p| <= |a| || i > |a|
  {
    var s := a + [sep] + b;
    StartsWithAt(s, i, p);
    assert s[|a|] == sep;
  }

  /** A pattern without the separator character is found in `a + [sep] + b`
      exactly when it is found in `a` or in `b`: no occurrence straddles the separator. */
  lemma ContainsAroundSeparator(a: string, sep: char, b: string, p: string)
    requires forall k :: 0 <= k < |p| ==> p[k] != sep
    ensures Contains(a + [sep] + b, p) <==> Contains(a, p) || Contains(b, p)
  {
    var s := a + [sep] + b;
    if Contains(a, p) {
      assert s[0..|a|] == a;
      ContainsSlice(s, 0, |a|, p);
    }
    if Contains(b, p) {
      assert s[|a| + 1..|s|] == b;
      ContainsSlice(s, |a| + 1, |s|, p);
    }
    if Contains(s, p) {
      OccurrenceInPart(a, sep, b, p);
    }
  }

  /** An occurrence in `a + [sep] + b` of a separator-free pattern is an occurrence in `a` or in `b`. */
  lemma OccurrenceInPart(a: string, sep: char, b: string, p: string)
    requires forall k :: 0 <= k < |p| ==> p[k] != sep
    requires Contains(a + [sep] + b, p)
    ensures Contains(a, p) || Contains(b, p)
  {
    var s := a + [sep] + b;
    ContainsIff(s, p);
    var i :| 0 <= i <= |s| && StartsWith(s[i..], p);
    OccurrenceSide(a, sep, b, p, i);
    if i + |p| <= |a| {
      assert a[i..][..|p|] == s[i..][..|p|];
      ContainsIff(a, p);
    } else {
      assert b[i - |a| - 1..] == s[i..];
      ContainsIff(b, p);
    }
  }

  /** Whatever contains `p + q` contains `p`. */
  lemma ContainsLonger(s: string, p: string, q: string)
    requires Contains(s, p + q)
    ensures Contains(s, p)
  {
    ContainsIff(s, p + q);
    var i :| 0 <= i <= |s| && StartsWith(s[i..], p + q);
    assert s[i..][..|p|] == (p + q)[..|p|] == p;
    ContainsIff(s, p);
  }

  /** `s.replace(pat, rep)` in both Rust and Python: the occurrences of `pat`
      found by a left-to-right scan that does not overlap them are replaced. */
  function ReplaceAll(s: string, pat: string, rep: string): (r: string)
    requires |pat| > 0
    ensures |s| < |pat| ==> r == s
    decreases |s|
  {
    if |s| < |pat| then s
    else if s[..|pat|] == pat then rep + ReplaceAll(s[|pat|..], pat, rep)
    else [s[0]] + ReplaceAll(s[1..], pat, rep)
  }

  /** A replacement no longer than the pattern never lengthens the text. */
  lemma {:induction false} ReplaceAllNoLonger(s: string, pat: string, rep: string)
    requires |pat| > 0 && |rep| <= |pat|
    ensures |ReplaceAll(s, pat, rep)| <= |s|
    decreases |s|
  {
    if |s| >= |pat| {
      if s[..|pat|] == pat {
        ReplaceAllNoLonger(s[|pat|..], pat, rep);
      } else {
        ReplaceAllNoLonger(s[1..], pat, rep);
      }
    }
  }

  /** A string in which the pattern's first character never occurs does not contain it. */
  lemma {:induction false} AbsentFirstChar(s: string, p: string)
    requires |p| > 0
    requires forall i :: 0 <= i < |s| ==> s[i] != p[0]
    ensures !Contains(s, p)
    decreases |s|
  {
    if |s| > 0 {
      AbsentFirstChar(s[1..], p);
      if |p| <= |s| { assert s[..|p|][0] == s[0]; }
    }
  }

  /** A string with the pattern spliced into it contains the pattern. */
  lemma ContainsAfterFreeStretch(a: string, p: string, b: string)
    ensures Contains(a + p + b, p)
  {
    var s := a + p + b;
    assert s[|a|..][..|p|] == p;
    ContainsIff(s, p);
  }

  /** The first replacement happens at the first occurrence, when nothing before
      it begins like the pattern. */
  lemma {:induction false} ReplaceAllAfterFreeStretch(a: string, p: string, b: string, rep: string)
    requires |p| > 0
    requires forall i :: 0 <= i < |a| ==> a[i] != p[0]
    ensures ReplaceAll(a + p + b, p, rep) == a + rep + ReplaceAll(b, p, rep)
    decreases |a|
  {
    var s := a + p + b;
    var tail := ReplaceAll(b, p, rep);
    if |a| == 0 {
      assert s[..|p|] == p && s[|p|..] == b by { assert s == p + b; }
    } else {
      var t := ReplaceAll(s[1..], p, rep);
      assert ReplaceAll(s, p, rep) == [a[0]] + t by {
        assert s[..|p|][0] == a[0];
      }
      assert t == a[1..] + rep + tail by {
        assert s[1..] == a[1..] + p + b;
        ReplaceAllAfterFreeStretch(a[1..], p, b, rep);
      }
      assert [a[0]] + (a[1..] + rep + tail) == a + rep + tail by {
        assert a == [a[0]] + a[1..];
      }
    }
  }

  /** A string without an occurrence of the pattern is left as it is. */
  lemma {:induction false} ReplaceAllAbsent(s: string, pat: string, rep: string)
    requires |pat| > 0
    requires !Contains(s, pat)
    ensures ReplaceAll(s, pat, rep) == s
    decreases |s|
  {
    if |s| >= |pat| {
      assert s[..|pat|] != pat;
      ReplaceAllAbsent(s[1..], pat, rep);
      assert [s[0]] + s[1..] == s;
    }
  }

  /** The character `c` does not occur in `s`. */
  predicate Lacks(s: string, c: char) {
    forall i :: 0 <= i < |s| ==> s[i] != c
  }

  /** When every `pat[0]` of `s` begins an occurrence and the replacement
      lacks `pat[0]`, the result holds no `pat[0]` at all: each such
      character was consumed by a replaced occurrence. */
  lemma {:induction false} ReplaceAllFreeOfFirst(s: string, pat: string, rep: string)
    requires |pat| > 0
    requires Lacks(rep, pat[0])
    requires forall i :: 0 <= i < |s| && s[i] == pat[0] ==> StartsWith(s[i..], pat)
    ensures Lacks(ReplaceAll(s, pat, rep), pat[0])
    decreases |s|
  {
    if |s| < |pat| {
      forall i | 0 <= i < |s| ensures s[i] != pat[0] {
        assert |s[i..]| < |pat|;
      }
    } else if s[..|pat|] == pat {
      var t := s[|pat|..];
      forall i | 0 <= i < |t| && t[i] == pat[0] ensures StartsWith(t[i..], pat) {
        assert s[|pat| + i] == pat[0];
        assert t[i..] == s[|pat| + i..];
      }
      ReplaceAllFreeOfFirst(t, pat, rep);
      assert ReplaceAll(s, pat, rep) == rep + ReplaceAll(t, pat, rep);
    } else {
      var t := s[1..];
      assert s[0..] == s;
      assert s[0] != pat[0];
      forall i | 0 <= i < |t| && t[i] == pat[0] ensures StartsWith(t[i..], pat) {
        assert s[1 + i] == pat[0];
        assert t[i..] == s[1 + i..];
      }
      ReplaceAllFreeOfFirst(t, pat, rep);
      assert ReplaceAll(s, pat, rep) == [s[0]] + ReplaceAll(t, pat, rep);
    }
  }

  /** `replace` copies a stretch that holds no `pat[0]` unchanged. */
  lemma {:induction false} ReplaceAllFreePrefix(a: string, b: string, pat: string, rep: string)
    requires |pat| > 0
    requires Lacks(a, pat[0])
    ensures ReplaceAll(a + b, pat, rep) == a + ReplaceAll(b, pat, rep)
    decreases |a|
  {
    var s := a + b;
    if |a| > 0 && |s| >= |pat| {
      assert s[..|pat|][0] == a[0];
      assert s[1..] == a[1..] + b;
      ReplaceAllFreePrefix(a[1..], b, pat, rep);
      assert [a[0]] + a[1..] == a;
    } else if |a| > 0 {
      assert |b| < |pat|;
    } else {
      assert s == b;
    }
  }

  /** An occurrence of `p` in `a + b`, where `a` holds no `p[0]`, lies in `b`. */
  lemma {:induction false} ContainsPastFree(a: string, b: string, p: string)
    requires |p| > 0
    requires Lacks(a, p[0])
    ensures Contains(a + b, p) ==> Contains(b, p)
    decreases |a|
  {
    if |a| > 0 {
      var s := a + b;
      assert !StartsWith(s, p) by {
        if |p| <= |s| { assert s[..|p|][0] == a[0]; }
      }
      assert s[1..] == a[1..] + b;
      ContainsPastFree(a[1..], b, p);
    } else {
      assert a + b == b;
    }
  }

  /** `replace` leaves no occurrence behind when every `pat[0]` of the input
      begins an occurrence and the replacement does not contain `pat[0]`. */
  lemma ReplaceAllRemovesEvery(s: string, pat: string, rep: string)
    requires |pat| > 0
    requires Lacks(rep, pat[0])
    requires forall i :: 0 <= i < |s| && s[i] == pat[0] ==> StartsWith(s[i..], pat)
    ensures !Contains(ReplaceAll(s, pat, rep), pat)
  {
    var r := ReplaceAll(s, pat, rep);
    ReplaceAllFreeOfFirst(s, pat, rep);
    AbsentFirstChar(r, pat);
  }

  /** Replacing a pattern by itself changes nothing. */
  lemma {:induction false} ReplaceAllSelf(s: string, pat: string)
    requires |pat| > 0
    ensures ReplaceAll(s, pat, pat) == s
    decreases |s|
  {
    if |s| >= |pat| {
      if s[..|pat|] == pat {
        ReplaceAllSelf(s[|pat|..], pat);
        assert s[..|pat|] + s[|pat|..] == s;
      } else {
        ReplaceAllSelf(s[1..], pat);
        assert [s[0]] + s[1..] == s;
      }
    }
  }

  /** `n` copies of `c`, such as the Markdown fence "```". */
  function Repeat(c: char, n: nat): (r: string)
    ensures |r| == n && forall i :: 0 <= i < n ==> r[i] == c
  {
    if n == 0 then [] else [c] + Repeat(c, n - 1)
  }

  /** Length of the leading run of `c` in `s`. */
  function Run(s: string, c: char): (k: nat)
    ensures k <= |s|
    decreases |s|
  {
    if |s| > 0 && s[0] == c then 1 + Run(s[1..], c) else 0
  }

  /** `s` starts with `n` copies of `c` exactly when its leading run of `c` is at least `n` long. */
  lemma {:induction false} StartsWithRepeat(s: string, c: char, n: nat)
    ensures StartsWith(s, Repeat(c, n)) <==> Run(s, c) >= n
    decreases n
  {
    if n > 0 && |s| > 0 {
      StartsWithRepeat(s[1..], c, n - 1);
      if s[0] == c && StartsWith(s[1..], Repeat(c, n - 1)) {
        assert s[..n] == [s[0]] + s[1..][..n - 1];
      }
      if StartsWith(s, Repeat(c, n)) {
        assert s[1..][..n - 1] == s[..n][1..];
      }
    }
  }

  /** Removing runs of `n` copies of `c` keeps a shorter leading run intact. */
  lemma {:induction false} RemoveRunKeepsShortRun(t: string, c: char, n: nat)
    requires n >= 1 && Run(t, c) < n
    ensures Run(ReplaceAll(t, Repeat(c, n), ""), c) == Run(t, c)
    decreases |t|
  {
    var pat := Repeat(c, n);
    if |t| >= n {
      StartsWithRepeat(t, c, n);
      assert t[..n] != pat;
      var rest := ReplaceAll(t[1..], pat, "");
      assert ReplaceAll(t, pat, "") == [t[0]] + rest;
      if t[0] == c {
        RemoveRunKeepsShortRun(t[1..], c, n);
        assert ([t[0]] + rest)[1..] == rest;
      }
    }
  }

  /** After `s.replace(c * n, "")` no run of `n` copies of `c` is left, even
      where the pieces around a removed run are glued together. */
  lemma {:induction false} RemoveRunLeavesNone(s: string, c: char, n: nat)
    requires n >= 1
    ensures !Contains(ReplaceAll(s, Repeat(c, n), ""), Repeat(c, n))
    decreases |s|
  {
    var pat := Repeat(c, n);
    var r := ReplaceAll(s, pat, "");
    if |s| < n {
      if Contains(r, pat) { ContainsLength(r, pat); }
    } else if s[..n] == pat {
      RemoveRunLeavesNone(s[n..], c, n);
      assert r == ReplaceAll(s[n..], pat, "");
    } else {
      var t := s[1..];
      var rest := ReplaceAll(t, pat, "");
      assert r == [s[0]] + rest;
      assert r[1..] == rest;
      RemoveRunLeavesNone(t, c, n);
      StartsWithRepeat(s, c, n);
      StartsWithRepeat(r, c, n);
      if s[0] == c {
        RemoveRunKeepsShortRun(t, c, n);
      }
    }
  }

  /** `sep.join(lines)` in Python. */
  function Join(lines: seq<string>, sep: string): (r: string)
    ensures |lines| > 0 ==> StartsWith(r, lines[0])
    ensures |lines| == 0 ==> r == ""
    decreases |lines|
  {
    if |lines| == 0 then ""
    else if |lines| == 1 then lines[0]
    else lines[0] + sep + Join(lines[1..], sep)
  }

  /** Position of the first `c` in a string that holds one. */
  function IndexOf(s: string, c: char): (k: nat)
    requires !Lacks(s, c)
    ensures k < |s| && s[k] == c && Lacks(s[..k], c)
    decreases |s|
  {
    if s[0] == c then 0 else 1 + IndexOf(s[1..], c)
  }

  /** `s.split(c)` in Python: the pieces between the occurrences of `c`. */
  function SplitOn(s: string, c: char): (r: seq<string>)
    ensures |r| > 0
    decreases |s|
  {
    if Lacks(s, c) then [s] else [s[..IndexOf(s, c)]] + SplitOn(s[IndexOf(s, c) + 1..], c)
  }

  /** The first `c` of `a + [c] + b` is the one after `a`, when `a` has none. */
  lemma {:induction false} IndexOfAfterFree(a: string, c: char, b: string)
    requires Lacks(a, c)
    ensures !Lacks(a + [c] + b, c) && IndexOf(a + [c] + b, c) == |a|
    decreases |a|
  {
    var s := a + [c] + b;
    assert s[|a|] == c;
    if |a| > 0 {
      assert s[1..] == a[1..] + [c] + b;
      IndexOfAfterFree(a[1..], c, b);
    }
  }

  /** The first `c` is the one at `k` when none comes before it. */
  lemma {:induction false} IndexOfIs(s: string, c: char, k: nat)
    requires k < |s| && s[k] == c && Lacks(s[..k], c)
    ensures !Lacks(s, c) && IndexOf(s, c) == k
    decreases k
  {
    if k > 0 {
      assert s[..k][0] == s[0];
      assert s[1..][..k - 1] == s[..k][1..];
      IndexOfIs(s[1..], c, k - 1);
    }
  }

  /** Splitting `a + [c] + b` at `c`, when `a` has no `c`, gives `a` first. */
  lemma SplitOnAfterFree(a: string, c: char, b: string)
    requires Lacks(a, c)
    ensures SplitOn(a + [c] + b, c) == [a] + SplitOn(b, c)
  {
    var s := a + [c] + b;
    IndexOfAfterFree(a, c, b);
    assert s[..|a|] == a;
    assert s[|a| + 1..] == b;
  }

  /** Splitting a join of lines that hold no separator gives the lines back:
      piece `i` of the joined text is line `i`. */
  lemma {:induction false} SplitOnJoin(lines: seq<string>, c: char)
    requires |lines| > 0
    requires forall i :: 0 <= i < |lines| ==> Lacks(lines[i], c)
    ensures SplitOn(Join(lines, [c]), c) == lines
    decreases |lines|
  {
    if |lines| > 1 {
      var rest := Join(lines[1..], [c]);
      assert Join(lines, [c]) == lines[0] + [c] + rest;
      assert Lacks(lines[0], c);
      SplitOnAfterFree(lines[0], c, rest);
      SplitOnJoin(lines[1..], c);
      assert lines == [lines[0]] + lines[1..];
    } else {
      assert Lacks(lines[0], c);
    }
  }

  /** Number of occurrences of the character `c` in `s`. */
  function Count(s: string, c: char): (n: nat)
    ensures n <= |s|
    ensures n == 0 <==> forall i :: 0 <= i < |s| ==> s[i] != c
    decreases |s|
  {
    if |s| == 0 then 0 else (if s[0] == c then 1 else 0) + Count(s[1..], c)
  }

  lemma {:induction false} CountAppend(a: string, b: string, c: char)
    ensures Count(a + b, c) == Count(a, c) + Count(b, c)
    decreases |a|
  {
    if |a| > 0 {
      assert (a + b)[1..] == a[1..] + b;
      CountAppend(a[1..], b, c);
    } else {
      assert a + b == b;
    }
  }

  /** Joining lines that hold no `c` with `c` as separator puts exactly one
      `c` between consecutive lines. */
  lemma {:induction false} JoinCount(lines: seq<string>, c: char)
    requires |lines| > 0
    requires forall i :: 0 <= i < |lines| ==> Count(lines[i], c) == 0
    ensures Count(Join(lines, [c]), c) == |lines| - 1
    decreases |lines|
  {
    if |lines| > 1 {
      JoinCount(lines[1..], c);
      CountAppend(lines[0], [c], c);
      CountAppend(lines[0] + [c], Join(lines[1..], [c]), c);
      assert Count([c], c) == 1;
    }
  }

  /** The characters Python's `str.strip()` removes (those `str.isspace()` accepts). */
  predicate IsSpace(c: char) {
    ('\t' <= c <= '\r') || ('\U{1c}' <= c <= ' ') || c == '\U{85}' || c == '\U{a0}' ||
    c == '\U{1680}' || ('\U{2000}' <= c <= '\U{200a}') || c == '\U{2028}' || c == '\U{2029}' ||
    c == '\U{202f}' || c == '\U{205f}' || c == '\U{3000}'
  }

  function StripStart(s: string): (r: string)
    ensures |r| <= |s| && r == s[|s| - |r|..]
    ensures |r| == 0 || !IsSpace(r[0])
    ensures forall i :: 0 <= i < |s| - |r| ==> IsSpace(s[i])
    decreases |s|
  {
    if |s| > 0 && IsSpace(s[0]) then
      var r := StripStart(s[1..]);
      assert forall i :: 1 <= i < |s| ==> s[i] == s[1..][i - 1];
      r
    else s
  }

  function StripEnd(s: string): (r: string)
    ensures |r| <= |s| && r == s[..|r|]
    ensures |r| == 0 || !IsSpace(r[|r| - 1])
    ensures forall i :: |r| <= i < |s| ==> IsSpace(s[i])
    decreases |s|
  {
    if |s| > 0 && IsSpace(s[|s| - 1]) then
      var r := StripEnd(s[..|s| - 1]);
      assert forall i :: 0 <= i < |s| - 1 ==> s[i] == s[..|s| - 1][i];
      r
    else s
  }

  /** Number of leading whitespace characters `s.strip()` drops. */
  function StripOffset(s: string): (k: nat)
    ensures k <= |s|
  {
    |s| - |StripStart(s)|
  }

  /** Every character of `t` is whitespace. */
  predicate AllSpace(t: string) {
    forall i :: 0 <= i < |t| ==> IsSpace(t[i])
  }

  /** Python's `s.strip()`: the slice of `s` left after removing leading and
      trailing whitespace; what it drops at either end is whitespace. */
  function Strip(s: string): (r: string)
    ensures StripOffset(s) + |r| <= |s| && r == s[StripOffset(s)..StripOffset(s) + |r|]
    ensures |r| == 0 || (!IsSpace(r[0]) && !IsSpace(r[|r| - 1]))
    ensures AllSpace(s[..StripOffset(s)])
    ensures AllSpace(s[StripOffset(s) + |r|..])
  {
    var a := StripStart(s);
    var r := StripEnd(a);
    assert |r| > 0 ==> r[0] == a[0];
    LeadingSpaces(s);
    TrailingSpaces(s);
    r
  }

  lemma AllSpacePrefix(s: string, k: nat)
    requires k <= |s|
    requires forall i :: 0 <= i < k ==> IsSpace(s[i])
    ensures AllSpace(s[..k])
  {
    forall i | 0 <= i < k ensures IsSpace(s[..k][i]) {
      assert s[..k][i] == s[i];
    }
  }

  lemma AllSpaceSuffix(s: string, k: nat)
    requires k <= |s|
    requires forall i :: k <= i < |s| ==> IsSpace(s[i])
    ensures AllSpace(s[k..])
  {
    forall i | 0 <= i < |s| - k ensures IsSpace(s[k..][i]) {
      assert s[k..][i] == s[k + i];
    }
  }

  lemma LeadingSpaces(s: string)
    ensures AllSpace(s[..StripOffset(s)])
  {
    AllSpacePrefix(s, |s| - |StripStart(s)|);
  }

  lemma TrailingSpaces(s: string)
    ensures AllSpace(s[StripOffset(s) + |StripEnd(StripStart(s))|..])
  {
    var a := StripStart(s);
    var k := |s| - |a|;
    var n := |StripEnd(a)|;
    assert k == StripOffset(s);
    AllSpaceSuffix(a, n);
    assert a == s[k..];
    assert s[k + n..] == a[n..];
  }

  /** Stripping cannot bring back a run that `replace` removed. */
  lemma StripAfterRemoveRun(t: string, c: char, n: nat)
    requires n >= 1
    ensures !Contains(Strip(ReplaceAll(t, Repeat(c, n), "")), Repeat(c, n))
  {
    RemoveRunLeavesNone(t, c, n);
    StripKeepsAbsent(ReplaceAll(t, Repeat(c, n), ""), Repeat(c, n));
  }

  /** `strip()` returns a slice, so it finds nothing its input lacks. */
  lemma StripKeepsAbsent(u: string, p: string)
    requires !Contains(u, p)
    ensures !Contains(Strip(u), p)
  {
    var r := Strip(u);
    if Contains(r, p) {
      ContainsSlice(u, StripOffset(u), StripOffset(u) + |r|, p);
    }
  }

  /** A string without whitespace at either end is its own `strip()`. */
  lemma StripStripped(s: string)
    requires |s| == 0 || (!IsSpace(s[0]) && !IsSpace(s[|s| - 1]))
    ensures Strip(s) == s
  {
  }

  function LowerChar(c: char): char {
    if 'A' <= c <= 'Z' then (c as int + 32) as char else c
  }

  /** Python's `str.lower()` on the ASCII letters. */
  function Lower(s: string): (r: string)
    ensures |r| == |s|
    ensures forall i :: 0 <= i < |r| ==> !('A' <= r[i] <= 'Z')
    ensures forall i :: 0 <= i < |s| && !('A' <= s[i] <= 'Z') ==> r[i] == s[i]
    ensures forall i :: 0 <= i < |s| && 'A' <= s[i] <= 'Z' ==> r[i] == (s[i] as int + 32) as char
  {
    seq(|s|, i requires 0 <= i < |s| => LowerChar(s[i]))
  }

  function DigitChar(d: nat): char
    requires d < 10
  {
    "0123456789"[d]
  }

  predicate IsDigit(c: char) {
    '0' <= c <= '9'
  }

  /** Decimal text of a natural number, as `format!("{}", n)` and `str(n)` write it:
      digits only, with no leading zero except for zero itself. */
  function NatToString(n: nat): (r: string)
    ensures |r| > 0
    ensures forall i :: 0 <= i < |r| ==> IsDigit(r[i])
    ensures r[0] == '0' <==> n == 0
    ensures |r| == 1 <==> n < 10
    decreases n
  {
    if n < 10 then [DigitChar(n)] else NatToString(n / 10) + [DigitChar(n % 10)]
  }

  /** The number a string of decimal digits denotes. */
  function DigitsValue(s: string): nat
    requires forall i :: 0 <= i < |s| ==> IsDigit(s[i])
    decreases |s|
  {
    if |s| == 0 then 0
    else
      assert IsDigit(s[|s| - 1]);
      DigitsValue(s[..|s| - 1]) * 10 + (s[|s| - 1] as int - '0' as int)
  }

  /** Reading the decimal text back gives the number. */
  lemma {:induction false} NatToStringValue(n: nat)
    ensures DigitsValue(NatToString(n)) == n
    decreases n
  {
    if n >= 10 {
      var t := NatToString(n / 10);
      NatToStringValue(n / 10);
      assert (t + [DigitChar(n % 10)])[..|t|] == t;
    }
  }
}
