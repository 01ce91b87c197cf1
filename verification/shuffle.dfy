/** The Fisher-Yates shuffle the loader runs on a copy of its reward list
    before laying the rewards out on the wheel.

    The loop walks `n` down from the list's length; each step decrements `n`,
    draws `k` with `0 <= k <= n` and swaps positions `k` and `n`. The draws are
    a parameter: `ks[j]` is the draw of the `j`-th step, taken while `n` is
    `|list| - 1 - j`. */
module FisherYates {

  /** Number of draws the loop makes on a prefix of length `n`. */
  function DrawCount(n: nat): nat {
    if n <= 1 then 0 else n - 1
  }

  /** Draws the engine's `Random.Range(0, n + 1)` can produce for a loop
      that starts at length `n`. */
  predicate ValidDraws(n: nat, ks: seq<int>) {
    && |ks| == DrawCount(n)
    && forall j :: 0 <= j < |ks| ==> 0 <= ks[j] < n - j
  }

  function Swap<T>(s: seq<T>, i: nat, j: nat): (r: seq<T>)
    requires i < |s| && j < |s|
    ensures |r| == |s|
    ensures r[i] == s[j] && r[j] == s[i]
    ensures forall m :: 0 <= m < |s| && m != i && m != j ==> r[m] == s[m]
  {
    s[i := s[j]][j := s[i]]
  }

  lemma SwapPermutes<T>(s: seq<T>, i: nat, j: nat)
    requires i < |s| && j < |s|
    ensures multiset(Swap(s, i, j)) == multiset(s)
  {
  }

  /** The loop from the point where the counter is `n`: the reference
      definition the imperative `ShuffleList` is proved against. */
  function Steps<T>(s: seq<T>, n: nat, ks: seq<int>): (r: seq<T>)
    requires n <= |s|
    requires ValidDraws(n, ks)
    ensures |r| == |s|
    ensures multiset(r) == multiset(s)
    // positions at or beyond the counter are never touched again
    ensures forall m :: n <= m < |s| ==> r[m] == s[m]
    // the first step moves the drawn element to the last open position
    ensures n > 1 ==> r[n - 1] == s[ks[0]]
    decreases n
  {
    if n <= 1 then s
    else
      SwapPermutes(s, ks[0], n - 1);
      Steps(Swap(s, ks[0], n - 1), n - 1, ks[1..])
  }

  function Shuffle<T>(list: seq<T>, ks: seq<int>): (r: seq<T>)
    requires ValidDraws(|list|, ks)
    ensures |r| == |list|
    ensures multiset(r) == multiset(list)
    ensures |list| <= 1 ==> r == list
  {
    Steps(list, |list|, ks)
  }

  /** The loader's `ShuffleList`: copies the list into a fresh array and
      shuffles the copy in place. The argument is a value, so the caller's
      list is the same afterwards. */
  method ShuffleList<T>(list: seq<T>, ks: seq<int>) returns (r: seq<T>)
    requires ValidDraws(|list|, ks)
    ensures r == Shuffle(list, ks)
    ensures |r| == |list|
    ensures multiset(r) == multiset(list)
  {
    var a := new T[|list|](i requires 0 <= i < |list| => list[i]);
    assert a[..] == list;
    ghost var final := Shuffle(list, ks);
    var n := a.Length;
    var step := 0;
    while n > 1
      invariant 0 <= n <= a.Length == |list|
      invariant 0 <= step <= |ks|
      invariant ValidDraws(n, ks[step..])
      invariant Steps(a[..], n, ks[step..]) == final
      // the suffix already holds its final elements
      invariant a[n..] == final[n..]
    {
      ghost var before := a[..];
      ghost var draws := ks[step..];
      n := n - 1;
      var k := ks[step];
      var value := a[k];
      a[k] := a[n];
      a[n] := value;
      assert a[..] == Swap(before, k, n);
      assert k == draws[0];
      assert draws[1..] == ks[step + 1..];
      LoopStep(before, n + 1, draws, final);
      step := step + 1;
    }
    r := a[..];
  }

  /** One iteration of `ShuffleList` keeps its loop invariant. */
  lemma LoopStep<T>(before: seq<T>, n: nat, draws: seq<int>, final: seq<T>)
    requires 1 < n <= |before| == |final|
    requires ValidDraws(n, draws)
    requires Steps(before, n, draws) == final
    ensures ValidDraws(n - 1, draws[1..])
    ensures Steps(Swap(before, draws[0], n - 1), n - 1, draws[1..]) == final
    ensures multiset(Swap(before, draws[0], n - 1)) == multiset(before)
    ensures Swap(before, draws[0], n - 1)[n - 1..] == final[n - 1..]
  {
    SwapPermutes(before, draws[0], n - 1);
  }

  /** Index of some occurrence of `x` within the first `n` elements. */
  function IndexOf<T(==)>(s: seq<T>, x: T, n: nat): (k: nat)
    requires n <= |s|
    requires x in multiset(s[..n])
    ensures k < n && s[k] == x
    decreases n
  {
    assert s[..n] == s[..n - 1] + [s[n - 1]];
    if s[n - 1] == x then n - 1 else IndexOf(s, x, n - 1)
  }

  lemma SwapKeepsSuffix<T>(s: seq<T>, t: seq<T>, n: nat, k: nat)
    requires 1 < n <= |s| == |t|
    requires s[n..] == t[n..]
    requires k < n && s[k] == t[n - 1]
    ensures Swap(s, k, n - 1)[n - 1..] == t[n - 1..]
  {
    var s' := Swap(s, k, n - 1);
    forall m | n <= m < |s|
      ensures s'[m] == t[m]
    {
      assert s[n..][m - n] == t[n..][m - n];
    }
  }

  lemma DropLast<T>(u: seq<T>, v: seq<T>, n: nat)
    requires 0 < n <= |u| && n <= |v|
    requires multiset(u[..n]) == multiset(v[..n])
    requires u[n - 1] == v[n - 1]
    ensures multiset(u[..n - 1]) == multiset(v[..n - 1])
  {
    assert u[..n] == u[..n - 1] + [u[n - 1]];
    assert v[..n] == v[..n - 1] + [v[n - 1]];
    assert multiset(u[..n - 1]) == multiset(u[..n]) - multiset{u[n - 1]};
    assert multiset(v[..n - 1]) == multiset(v[..n]) - multiset{v[n - 1]};
  }

  lemma SwapKeepsPrefixMultiset<T>(s: seq<T>, t: seq<T>, n: nat, k: nat)
    requires 1 < n <= |s| == |t|
    requires multiset(s[..n]) == multiset(t[..n])
    requires k < n && s[k] == t[n - 1]
    ensures multiset(Swap(s, k, n - 1)[..n - 1]) == multiset(t[..n - 1])
  {
    var s' := Swap(s, k, n - 1);
    assert s'[..n] == Swap(s[..n], k, n - 1);
    SwapPermutes(s[..n], k, n - 1);
    DropLast(s', t, n);
  }

  lemma ShortPrefixFixed<T>(s: seq<T>, t: seq<T>, n: nat)
    requires n <= 1 && n <= |s| == |t|
    requires s[n..] == t[n..]
    requires multiset(s[..n]) == multiset(t[..n])
    ensures s == t
  {
    assert n == 1 ==> s[..1] == [s[0]] && t[..1] == [t[0]];
    assert s == s[..n] + s[n..] && t == t[..n] + t[n..];
  }

  lemma LastInPrefix<T>(t: seq<T>, n: nat)
    requires 0 < n <= |t|
    ensures t[n - 1] in multiset(t[..n])
  {
    assert t[..n][n - 1] == t[n - 1];
  }

  /** A first draw `k` followed by draws for the swapped list. */
  lemma PrependDraw<T>(s: seq<T>, n: nat, k: nat, rest: seq<int>, t: seq<T>)
    requires 1 < n <= |s|
    requires k < n
    requires ValidDraws(n - 1, rest)
    requires Steps(Swap(s, k, n - 1), n - 1, rest) == t
    ensures ValidDraws(n, [k] + rest)
    ensures Steps(s, n, [k] + rest) == t
  {
    var ks := [k] + rest;
    assert ks[1..] == rest;
    forall j | 0 <= j < |ks|
      ensures 0 <= ks[j] < n - j
    {
      if j > 0 {
        assert ks[j] == rest[j - 1];
      }
    }
  }

  /** The draws that make the loop, run from counter `n`, turn `s` into `t`. */
  function DrawsFor<T(==)>(s: seq<T>, n: nat, t: seq<T>): (ks: seq<int>)
    requires n <= |s| == |t|
    requires s[n..] == t[n..]
    requires multiset(s[..n]) == multiset(t[..n])
    ensures ValidDraws(n, ks)
    ensures Steps(s, n, ks) == t
    decreases n
  {
    if n <= 1 then
      ShortPrefixFixed(s, t, n);
      []
    else
      LastInPrefix(t, n);
      var k := IndexOf(s, t[n - 1], n);
      SwapKeepsSuffix(s, t, n, k);
      SwapKeepsPrefixMultiset(s, t, n, k);
      var rest := DrawsFor(Swap(s, k, n - 1), n - 1, t);
      PrependDraw(s, n, k, rest, t);
      [k] + rest
  }

  /** Every rearrangement of the list is produced by some admissible draw
      sequence. */
  function Unshuffle<T(==)>(list: seq<T>, target: seq<T>): (ks: seq<int>)
    requires multiset(target) == multiset(list)
    ensures ValidDraws(|list|, ks)
    ensures Shuffle(list, ks) == target
  {
    assert |target| == |multiset(target)| == |list|;
    assert list[..|list|] == list && target[..|target|] == target;
    DrawsFor(list, |list|, target)
  }

  ghost predicate Distinct<T>(s: seq<T>) {
    forall i, j :: 0 <= i < j < |s| ==> s[i] != s[j]
  }

  lemma SwapKeepsDistinct<T>(s: seq<T>, i: nat, j: nat)
    requires i < |s| && j < |s|
    requires Distinct(s)
    ensures Distinct(Swap(s, i, j))
  {
    var r := Swap(s, i, j);
    forall a, b | 0 <= a < b < |r|
      ensures r[a] != r[b]
    {
      var pa := if a == i then j else if a == j then i else a;
      var pb := if b == i then j else if b == j then i else b;
      assert r[a] == s[pa] && r[b] == s[pb] && pa != pb;
      if pa < pb { assert s[pa] != s[pb]; } else { assert s[pb] != s[pa]; }
    }
  }

  lemma DistinctIndex<T>(s: seq<T>, i: nat, j: nat)
    requires i < |s| && j < |s|
    requires Distinct(s)
    requires s[i] == s[j]
    ensures i == j
  {
  }

  /** Different draws give different arrangements of a list without
      repeated elements. */
  lemma {:induction false} StepsInjective<T>(s: seq<T>, n: nat, ks1: seq<int>, ks2: seq<int>)
    requires n <= |s|
    requires Distinct(s)
    requires ValidDraws(n, ks1) && ValidDraws(n, ks2)
    requires Steps(s, n, ks1) == Steps(s, n, ks2)
    ensures ks1 == ks2
    decreases n
  {
    if n > 1 {
      var k1, k2 := ks1[0], ks2[0];
      DistinctIndex(s, k1, k2);
      SwapKeepsDistinct(s, k1, n - 1);
      StepsInjective(Swap(s, k1, n - 1), n - 1, ks1[1..], ks2[1..]);
      assert ks1 == [k1] + ks1[1..] && ks2 == [k2] + ks2[1..];
    }
  }

  /** Together with `Unshuffle`, the map from draw sequences to
      arrangements is a bijection, which is why independent uniform draws
      give a uniform shuffle. */
  lemma ShuffleInjective<T>(list: seq<T>, ks1: seq<int>, ks2: seq<int>)
    requires Distinct(list)
    requires ValidDraws(|list|, ks1) && ValidDraws(|list|, ks2)
    requires Shuffle(list, ks1) == Shuffle(list, ks2)
    ensures ks1 == ks2
  {
    StepsInjective(list, |list|, ks1, ks2);
  }

  function Map<T, U>(f: T -> U, s: seq<T>): (r: seq<U>)
    ensures |r| == |s|
    ensures forall i :: 0 <= i < |s| ==> r[i] == f(s[i])
  {
    seq(|s|, i requires 0 <= i < |s| => f(s[i]))
  }

  /** Shuffling commutes with projecting each element. */
  lemma {:induction false} StepsCommuteWithMap<T, U>(f: T -> U, s: seq<T>, n: nat, ks: seq<int>)
    requires n <= |s|
    requires ValidDraws(n, ks)
    ensures Map(f, Steps(s, n, ks)) == Steps(Map(f, s), n, ks)
    decreases n
  {
    if n > 1 {
      assert Map(f, Swap(s, ks[0], n - 1)) == Swap(Map(f, s), ks[0], n - 1);
      StepsCommuteWithMap(f, Swap(s, ks[0], n - 1), n - 1, ks[1..]);
    }
  }

  /** Any projection of the shuffled list has the same multiset of values as
      the projection of the original list. */
  lemma ShuffleKeepsProjection<T, U>(f: T -> U, list: seq<T>, ks: seq<int>)
    requires ValidDraws(|list|, ks)
    ensures multiset(Map(f, Shuffle(list, ks))) == multiset(Map(f, list))
  {
    StepsCommuteWithMap(f, list, |list|, ks);
  }
}
