/** Run-length substitutions of one repeated character: the regular
    expressions `\n{3,}` → `\n\n` and ` +` → ` ` used to tidy extracted
    text are both "every maximal run of `c` longer than `k` shrinks to
    exactly `k` copies" (with `k` = 2 and `k` = 1). */
module Runs {
  import opened Strings

  /** Number of leading copies of `c` in `s`. */
  function Lead(s: string, c: char): (n: nat)
    ensures n <= |s|
    ensures forall i :: 0 <= i < n ==> s[i] == c
    ensures n < |s| ==> s[n] != c
    decreases |s|
  {
    if |s| > 0 && s[0] == c then 1 + Lead(s[1..], c) else 0
  }

  /** `re.sub(c{k+1,}, c * k, s)`: the regex matches each maximal run of
      more than `k` copies (the scan is left to right and greedy), so a
      run of `n` copies becomes `min(n, k)` copies and every other
      character is copied. */
  function CapRuns(s: string, c: char, k: nat): (r: string)
    ensures |s| == 0 ==> r == ""
    ensures |s| > 0 && s[0] != c ==> |r| > 0 && r[0] == s[0]
    ensures |r| <= |s|
    decreases |s|
  {
    if |s| == 0 then ""
    else if s[0] != c then [s[0]] + CapRuns(s[1..], c, k)
    else
      var n := Lead(s, c);
      Repeat(c, if n < k then n else k) + CapRuns(s[n..], c, k)
  }

  /** No position of `s` starts a run of more than `k` copies of `c`. */
  ghost predicate RunFree(s: string, c: char, k: nat) {
    forall i :: 0 <= i <= |s| ==> Lead(s[i..], c) <= k
  }

  /** A run of `c` in front of `b` adds its length to `b`'s leading run. */
  lemma {:induction false} LeadAppend(a: string, b: string, c: char)
    requires forall i :: 0 <= i < |a| ==> a[i] == c
    ensures Lead(a + b, c) == |a| + Lead(b, c)
    decreases |a|
  {
    if |a| > 0 {
      LeadAppend(a[1..], b, c);
      assert (a + b)[1..] == a[1..] + b;
    } else {
      assert a + b == b;
    }
  }

  /** A prefix of copies of `c` bounds the leading run from below. */
  lemma {:induction false} LeadAtLeast(t: string, c: char, j: nat)
    requires j <= |t|
    requires forall i :: 0 <= i < j ==> t[i] == c
    ensures Lead(t, c) >= j
    decreases j
  {
    if j > 0 {
      LeadAtLeast(t[1..], c, j - 1);
    }
  }

  lemma RunFreeSuffix(s: string, c: char, k: nat, j: nat)
    requires j <= |s| && RunFree(s, c, k)
    ensures RunFree(s[j..], c, k)
  {
    forall i | 0 <= i <= |s[j..]|
      ensures Lead(s[j..][i..], c) <= k
    {
      assert s[j..][i..] == s[j + i..];
    }
  }

  /** Putting one character in front keeps a run-free text run-free as long
      as the new leading run is short enough. */
  lemma RunFreeCons(x: char, t: string, c: char, k: nat)
    requires RunFree(t, c, k) && Lead([x] + t, c) <= k
    ensures RunFree([x] + t, c, k)
  {
    forall i | 0 <= i <= |[x] + t|
      ensures Lead(([x] + t)[i..], c) <= k
    {
      if i > 0 {
        assert ([x] + t)[i..] == t[i - 1..];
      } else {
        assert ([x] + t)[i..] == [x] + t;
      }
    }
  }

  /** A block of at most `k` copies of `c` before a text that does not
      start with `c` keeps it run-free. */
  lemma {:induction false} RunFreeBlock(m: nat, t: string, c: char, k: nat)
    requires m <= k && RunFree(t, c, k) && Lead(t, c) == 0
    ensures RunFree(Repeat(c, m) + t, c, k)
    decreases m
  {
    if m > 0 {
      RunFreeBlock(m - 1, t, c, k);
      assert Repeat(c, m) + t == [c] + (Repeat(c, m - 1) + t);
      LeadAppend(Repeat(c, m), t, c);
      RunFreeCons(c, Repeat(c, m - 1) + t, c, k);
    } else {
      assert Repeat(c, m) + t == t;
    }
  }

  /** A block of characters other than `d` never lengthens a run of `d`. */
  lemma {:induction false} RunFreeOtherBlock(m: nat, c: char, t: string, d: char, k: nat)
    requires c != d && RunFree(t, d, k)
    ensures RunFree(Repeat(c, m) + t, d, k)
    decreases m
  {
    if m > 0 {
      RunFreeOtherBlock(m - 1, c, t, d, k);
      assert Repeat(c, m) + t == [c] + (Repeat(c, m - 1) + t);
      RunFreeCons(c, Repeat(c, m - 1) + t, d, k);
    } else {
      assert Repeat(c, m) + t == t;
    }
  }

  /** After the substitution no run of `c` is longer than `k`. */
  lemma {:induction false} CapRunsRunFree(s: string, c: char, k: nat)
    ensures RunFree(CapRuns(s, c, k), c, k)
    decreases |s|
  {
    if |s| == 0 {
      assert CapRuns(s, c, k)[0..] == "";
    } else if s[0] != c {
      CapRunsRunFree(s[1..], c, k);
      RunFreeCons(s[0], CapRuns(s[1..], c, k), c, k);
    } else {
      var n := Lead(s, c);
      CapRunsRunFree(s[n..], c, k);
      RunFreeBlock(if n < k then n else k, CapRuns(s[n..], c, k), c, k);
    }
  }

  /** Only copies of `c` are dropped: deleting `c` from the input and from
      the output gives the same text. */
  lemma {:induction false} CapRunsKeepsOthers(s: string, c: char, k: nat)
    ensures RemoveChar(CapRuns(s, c, k), c) == RemoveChar(s, c)
    decreases |s|
  {
    if |s| > 0 && s[0] != c {
      CapRunsKeepsOthers(s[1..], c, k);
      RemoveCharAppend([s[0]], CapRuns(s[1..], c, k), c);
    } else if |s| > 0 {
      var n := Lead(s, c);
      var m := if n < k then n else k;
      CapRunsKeepsOthers(s[n..], c, k);
      RemoveCharAppend(Repeat(c, m), CapRuns(s[n..], c, k), c);
      RemoveOnly(Repeat(c, m), c);
      assert s == s[..n] + s[n..];
      RemoveCharAppend(s[..n], s[n..], c);
      RemoveOnly(s[..n], c);
    }
  }

  lemma {:induction false} RemoveOnly(a: string, c: char)
    requires forall i :: 0 <= i < |a| ==> a[i] == c
    ensures RemoveChar(a, c) == ""
    decreases |a|
  {
    if |a| > 0 {
      RemoveOnly(a[1..], c);
    }
  }

  /** A text with no over-long run is left as it is. */
  lemma {:induction false} CapRunsIdentity(s: string, c: char, k: nat)
    requires RunFree(s, c, k)
    ensures CapRuns(s, c, k) == s
    decreases |s|
  {
    if |s| > 0 && s[0] != c {
      RunFreeSuffix(s, c, k, 1);
      CapRunsIdentity(s[1..], c, k);
      CapRunsOther(s, c, k);
      assert s == [s[0]] + s[1..];
    } else if |s| > 0 {
      var n := Lead(s, c);
      RunFreeLead(s, c, k);
      RunFreeSuffix(s, c, k, n);
      CapRunsIdentity(s[n..], c, k);
      CapRunsShortRun(s, c, k);
      assert s == s[..n] + s[n..];
    }
  }

  /** A character other than `c` is copied. */
  lemma CapRunsOther(s: string, c: char, k: nat)
    requires |s| > 0 && s[0] != c
    ensures CapRuns(s, c, k) == [s[0]] + CapRuns(s[1..], c, k)
  {
  }

  /** A leading run no longer than `k` is copied whole. */
  lemma CapRunsShortRun(s: string, c: char, k: nat)
    requires |s| > 0 && s[0] == c && Lead(s, c) <= k
    ensures CapRuns(s, c, k) == s[..Lead(s, c)] + CapRuns(s[Lead(s, c)..], c, k)
  {
    LeadIsRun(s, c);
  }

  /** A leading run longer than `k` shrinks to exactly `k` copies and the
      rest of the text is substituted on its own. */
  lemma CapRunsLongRun(s: string, c: char, k: nat)
    requires |s| > 0 && s[0] == c && Lead(s, c) > k
    ensures CapRuns(s, c, k) == Repeat(c, k) + CapRuns(s[Lead(s, c)..], c, k)
  {
  }

  /** A block of `m > 0` copies of `c` in front of a text that does not
      start with `c` is one run, capped like any other. */
  lemma CapRunsBlock(m: nat, t: string, c: char, k: nat)
    requires m > 0 && Lead(t, c) == 0
    ensures CapRuns(Repeat(c, m) + t, c, k) == Repeat(c, if m < k then m else k) + CapRuns(t, c, k)
  {
    LeadAppend(Repeat(c, m), t, c);
    assert (Repeat(c, m) + t)[m..] == t;
  }

  /** The substitution on `d` copies a block of another character. */
  lemma {:induction false} CapRunsOtherBlock(m: nat, c: char, t: string, d: char, k: nat)
    requires c != d
    ensures CapRuns(Repeat(c, m) + t, d, k) == Repeat(c, m) + CapRuns(t, d, k)
    decreases m
  {
    if m > 0 {
      var shorter := Repeat(c, m - 1);
      CapRunsOtherBlock(m - 1, c, t, d, k);
      assert Repeat(c, m) == [c] + shorter;
      var u := [c] + (shorter + t);
      assert Repeat(c, m) + t == u;
      assert u[1..] == shorter + t;
      CapRunsOther(u, d, k);
      assert CapRuns(u, d, k) == [c] + (shorter + CapRuns(t, d, k));
    } else {
      assert Repeat(c, m) + t == t;
    }
  }

  /** Capping runs at `k` and then at `j <= k` is capping them at `j`. */
  lemma {:induction false} CapRunsAbsorb(s: string, c: char, k: nat, j: nat)
    requires 1 <= j <= k
    ensures CapRuns(CapRuns(s, c, k), c, j) == CapRuns(s, c, j)
    decreases |s|
  {
    if |s| > 0 && s[0] != c {
      CapRunsAbsorb(s[1..], c, k, j);
      var u := [s[0]] + CapRuns(s[1..], c, k);
      assert u[1..] == CapRuns(s[1..], c, k);
      CapRunsOther(u, c, j);
    } else if |s| > 0 {
      var n := Lead(s, c);
      var rest := CapRuns(s[n..], c, k);
      assert Lead(rest, c) == 0;
      CapRunsBlock(if n < k then n else k, rest, c, j);
      CapRunsAbsorb(s[n..], c, k, j);
    }
  }

  /** Capping runs of two different characters can be done in either
      order. */
  lemma {:induction false} CapRunsCommute(s: string, c: char, k: nat, d: char, j: nat)
    requires c != d && k >= 1 && j >= 1
    ensures CapRuns(CapRuns(s, c, k), d, j) == CapRuns(CapRuns(s, d, j), c, k)
    decreases |s|, 1
  {
    if |s| > 0 && s[0] != c && s[0] != d {
      CapRunsCommute(s[1..], c, k, d, j);
      var u, v := [s[0]] + CapRuns(s[1..], c, k), [s[0]] + CapRuns(s[1..], d, j);
      assert u[1..] == CapRuns(s[1..], c, k) && v[1..] == CapRuns(s[1..], d, j);
      CapRunsOther(u, d, j);
      CapRunsOther(v, c, k);
    } else if |s| > 0 && s[0] == c {
      CommuteLeading(s, c, k, d, j);
    } else if |s| > 0 {
      CommuteLeading(s, d, j, c, k);
    }
  }

  /** The case of `CapRunsCommute` where the text starts with a run of
      `c`: both orders shrink that run the same way and copy it past the
      substitution on `d`. */
  lemma CommuteLeading(s: string, c: char, k: nat, d: char, j: nat)
    requires c != d && k >= 1 && j >= 1 && |s| > 0 && s[0] == c
    ensures CapRuns(CapRuns(s, c, k), d, j) == CapRuns(CapRuns(s, d, j), c, k)
    decreases |s|, 0
  {
    var n := Lead(s, c);
    var m := if n < k then n else k;
    var t := s[n..];
    LeadIsRun(s, c);
    assert s == Repeat(c, n) + t;
    CapRunsOtherBlock(m, c, CapRuns(t, c, k), d, j);
    CapRunsOtherBlock(n, c, t, d, j);
    CapRunsLeadOther(t, d, j, c);
    CapRunsBlock(n, CapRuns(t, d, j), c, k);
    CapRunsCommute(t, c, k, d, j);
  }

  /** In a run-free text the leading run is itself short enough. */
  lemma RunFreeLead(s: string, c: char, k: nat)
    requires RunFree(s, c, k)
    ensures Lead(s, c) <= k
  {
    assert s[0..] == s;
  }

  /** The leading run is that many copies of `c`. */
  lemma LeadIsRun(s: string, c: char)
    ensures Repeat(c, Lead(s, c)) == s[..Lead(s, c)]
  {
  }

  /** The substitution does not change how many copies of another
      character `d` a text starts with, as long as runs of `c` keep at
      least one copy. */
  lemma {:induction false} CapRunsLeadOther(s: string, c: char, k: nat, d: char)
    requires c != d && k >= 1
    ensures Lead(CapRuns(s, c, k), d) == Lead(s, d)
    decreases |s|
  {
    if |s| > 0 && s[0] != c {
      CapRunsLeadOther(s[1..], c, k, d);
      assert ([s[0]] + CapRuns(s[1..], c, k))[1..] == CapRuns(s[1..], c, k);
    }
  }

  /** Shrinking runs of `c` (never to nothing) cannot create a long run of
      another character. */
  lemma {:induction false} CapRunsPreserves(s: string, c: char, k: nat, d: char, m: nat)
    requires c != d && k >= 1 && RunFree(s, d, m)
    ensures RunFree(CapRuns(s, c, k), d, m)
    decreases |s|
  {
    if |s| == 0 {
      assert CapRuns(s, c, k)[0..] == "";
    } else if s[0] != c {
      RunFreeSuffix(s, d, m, 1);
      CapRunsPreserves(s[1..], c, k, d, m);
      CapRunsLeadOther(s, c, k, d);
      assert s[0..] == s;
      RunFreeCons(s[0], CapRuns(s[1..], c, k), d, m);
    } else {
      var n := Lead(s, c);
      RunFreeSuffix(s, d, m, n);
      CapRunsPreserves(s[n..], c, k, d, m);
      RunFreeOtherBlock(if n < k then n else k, c, CapRuns(s[n..], c, k), d, m);
    }
  }

  /** Where `k + 1` copies of `c` occur, a run longer than `k` starts. */
  lemma OccursLong(s: string, c: char, k: nat, i: int)
    requires OccursAt(s, Repeat(c, k + 1), i)
    ensures Lead(s[i..], c) > k
  {
    forall j | 0 <= j < k + 1
      ensures s[i..][j] == c
    {
      assert s[i..][j] == s[i..i + k + 1][j];
    }
    LeadAtLeast(s[i..], c, k + 1);
  }

  /** Run-freedom as a pattern: `k + 1` copies of `c` never occur. */
  lemma RunFreeExcludes(s: string, c: char, k: nat)
    requires RunFree(s, c, k)
    ensures !Contains(s, Repeat(c, k + 1))
  {
    var p := Repeat(c, k + 1);
    forall i | OccursAt(s, p, i)
      ensures false
    {
      OccursLong(s, c, k, i);
    }
  }

  /** The converse: a text without `k + 1` adjacent copies of `c` is
      run-free. */
  lemma RunFreeFromAbsent(s: string, c: char, k: nat)
    requires !Contains(s, Repeat(c, k + 1))
    ensures RunFree(s, c, k)
  {
    forall i | 0 <= i <= |s|
      ensures Lead(s[i..], c) <= k
    {
      if Lead(s[i..], c) > k {
        LongOccurs(s, c, k, i);
      }
    }
  }

  lemma LongOccurs(s: string, c: char, k: nat, i: nat)
    requires i <= |s| && Lead(s[i..], c) > k
    ensures OccursAt(s, Repeat(c, k + 1), i)
  {
    var w, p := s[i..i + k + 1], Repeat(c, k + 1);
    forall j | 0 <= j < k + 1
      ensures w[j] == p[j]
    {
      assert w[j] == s[i..][j];
    }
    assert w == p;
  }
}
