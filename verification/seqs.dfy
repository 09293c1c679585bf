/** Generic sequence combinators the per-line and per-segment loops of the
    sources are built from. */
module Seqs {

  /** Applies `f` to every element and concatenates the results in order,
      as a loop that extends a list with each element's contribution does. */
  function FlatMap<A, B>(f: A -> seq<B>, xs: seq<A>): seq<B>
    decreases |xs|
  {
    if |xs| == 0 then [] else f(xs[0]) + FlatMap(f, xs[1..])
  }

  /** Mapping a concatenation concatenates the mapped halves. */
  lemma {:induction false} FlatMapAppend<A, B>(f: A -> seq<B>, a: seq<A>, b: seq<A>)
    ensures FlatMap(f, a + b) == FlatMap(f, a) + FlatMap(f, b)
    decreases |a|
  {
    if |a| == 0 {
      assert a + b == b;
    } else {
      FlatMapAppend(f, a[1..], b);
      assert (a + b)[0] == a[0];
      assert (a + b)[1..] == a[1..] + b;
    }
  }

  /** When every contribution satisfies `p` and is at most one long, so
      does every element of the result, and there are at most as many
      results as inputs. */
  lemma {:induction false} FlatMapAll<A, B>(f: A -> seq<B>, xs: seq<A>, p: B -> bool)
    requires forall x :: |f(x)| <= 1
    requires forall x, j :: 0 <= j < |f(x)| ==> p(f(x)[j])
    ensures |FlatMap(f, xs)| <= |xs|
    ensures forall j :: 0 <= j < |FlatMap(f, xs)| ==> p(FlatMap(f, xs)[j])
    decreases |xs|
  {
    if |xs| > 0 {
      FlatMapAll(f, xs[1..], p);
      var head, rest := f(xs[0]), FlatMap(f, xs[1..]);
      forall j | 0 <= j < |head + rest|
        ensures p((head + rest)[j])
      {
        if j >= |head| {
          assert (head + rest)[j] == rest[j - |head|];
        } else {
          assert (head + rest)[j] == head[j];
        }
      }
    }
  }

  /** A one-element list maps to that element's contribution. */
  lemma FlatMapSingle<A, B>(f: A -> seq<B>, x: A)
    ensures FlatMap(f, [x]) == f(x)
  {
    assert [x][1..] == [];
  }

  /** Concatenates, in order, the block `f(i, xs[i])` contributed by each
      element together with its position, as a numbered loop does. */
  function Blocks<A, B>(f: (nat, A) -> seq<B>, xs: seq<A>): seq<B>
    decreases |xs|
  {
    if |xs| == 0 then [] else Blocks(f, xs[..|xs| - 1]) + f(|xs| - 1, xs[|xs| - 1])
  }

  /** With blocks of a fixed width `w`, the output has `w` items per input. */
  lemma {:induction false} BlocksLength<A, B>(f: (nat, A) -> seq<B>, xs: seq<A>, w: nat)
    requires forall i: nat, x: A :: |f(i, x)| == w
    ensures |Blocks(f, xs)| == w * |xs|
    decreases |xs|
  {
    if |xs| > 0 {
      BlocksLength(f, xs[..|xs| - 1], w);
      assert w * |xs| == w * (|xs| - 1) + w;
    }
  }

  /** With blocks of a fixed width `w`, block `k` occupies positions
      `w*k .. w*k + w - 1`. */
  lemma {:induction false} BlocksLayout<A, B>(f: (nat, A) -> seq<B>, xs: seq<A>, w: nat, k: nat)
    requires forall i: nat, x: A :: |f(i, x)| == w
    requires k < |xs|
    ensures w * k + w <= |Blocks(f, xs)|
    ensures Blocks(f, xs)[w * k..w * k + w] == f(k, xs[k])
    decreases |xs|
  {
    var n := |xs| - 1;
    var prior, last := Blocks(f, xs[..n]), f(n, xs[n]);
    BlocksLength(f, xs[..n], w);
    assert Blocks(f, xs) == prior + last;
    if k < n {
      BlocksLayout(f, xs[..n], w, k);
      assert xs[..n][k] == xs[k];
      MulBelow(w, k, n);
      SliceOfFront(prior, last, w * k, w * k + w);
    } else {
      SliceOfBack(prior, last);
    }
  }

  /** The prefix as long as the whole sequence is the sequence. */
  lemma WholePrefix<T>(s: seq<T>, i: nat)
    requires i == |s|
    ensures s[..i] == s
  {
  }

  lemma IndexFront<T>(a: seq<T>, b: seq<T>, i: nat)
    requires i < |a|
    ensures (a + b)[i] == a[i]
  {
  }

  lemma IndexBack<T>(a: seq<T>, b: seq<T>, i: nat)
    requires |a| <= i < |a| + |b|
    ensures (a + b)[i] == b[i - |a|]
  {
  }

  lemma SliceOfFront<T>(a: seq<T>, b: seq<T>, i: nat, j: nat)
    requires i <= j <= |a|
    ensures (a + b)[i..j] == a[i..j]
  {
  }

  lemma SliceOfBack<T>(a: seq<T>, b: seq<T>)
    ensures (a + b)[|a|..|a| + |b|] == b
  {
  }

  /** Block `k` ends no later than block `n - 1` does. */
  lemma {:induction false} MulBelow(w: nat, k: nat, n: nat)
    requires k < n
    ensures w * k + w <= w * n
    decreases n
  {
    if k + 1 < n {
      MulBelow(w, k, n - 1);
      assert w * n == w * (n - 1) + w;
    } else {
      assert w * n == w * k + w;
    }
  }

  /** Item `j` of block `k`, located in the concatenation. */
  lemma BlocksIndex<A, B>(f: (nat, A) -> seq<B>, xs: seq<A>, w: nat, k: nat, j: nat)
    requires forall i: nat, x: A :: |f(i, x)| == w
    requires k < |xs| && j < w
    ensures w * k + j < |Blocks(f, xs)|
    ensures Blocks(f, xs)[w * k + j] == f(k, xs[k])[j]
  {
    BlocksLayout(f, xs, w, k);
    var block := Blocks(f, xs)[w * k..w * k + w];
    assert block[j] == Blocks(f, xs)[w * k + j];
  }

  /** The concatenation is empty exactly when every block is. */
  lemma {:induction false} BlocksEmpty<A, B>(f: (nat, A) -> seq<B>, xs: seq<A>)
    ensures Blocks(f, xs) == [] <==> forall i :: 0 <= i < |xs| ==> f(i, xs[i]) == []
    decreases |xs|
  {
    if |xs| > 0 {
      var n := |xs| - 1;
      BlocksEmpty(f, xs[..n]);
      assert forall i :: 0 <= i < n ==> xs[..n][i] == xs[i];
    }
  }
}
