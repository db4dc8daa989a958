/** Permutations of 0 .. n - 1, for what may come in any order. */
module Permutations {

  /** `p` and `q` are permutations of 0 .. n - 1, inverse to each other. */
  predicate Inverse(p: seq<nat>, q: seq<nat>, n: nat) {
    && |p| == n && |q| == n
    && (forall i | 0 <= i < n :: p[i] < n && q[p[i]] == i)
    && (forall j | 0 <= j < n :: q[j] < n && p[q[j]] == j)
  }

  function Identity(n: nat): (p: seq<nat>)
    ensures Inverse(p, p, n) && forall i | 0 <= i < n :: p[i] == i
  {
    seq(n, i => i)
  }

  /** Where the elements go when element k is moved to the front. */
  function ToFront(n: nat, k: nat): seq<nat> {
    seq(n, i requires i >= 0 => if i == k then 0 else if i < k then i + 1 else i)
  }

  /** And where they come from. */
  function FromFront(n: nat, k: nat): seq<nat> {
    seq(n, j requires j >= 0 => if j == 0 then k else if j <= k then j - 1 else j)
  }

  lemma FrontInverse(n: nat, k: nat)
    requires k < n
    ensures Inverse(ToFront(n, k), FromFront(n, k), n)
  {
  }

  function Compose(p: seq<nat>, p': seq<nat>): seq<nat>
    requires forall i | 0 <= i < |p| :: p[i] < |p'|
  {
    seq(|p|, i requires 0 <= i < |p| => p'[p[i]])
  }

  lemma ComposeInverse(p: seq<nat>, q: seq<nat>, p': seq<nat>, q': seq<nat>, n: nat)
    requires Inverse(p, q, n) && Inverse(p', q', n)
    ensures Inverse(Compose(p, p'), Compose(q', q), n)
  {
  }

  function MovedToFront<T>(s: seq<T>, k: nat): seq<T>
    requires k < |s|
  {
    [s[k]] + s[..k] + s[k + 1..]
  }

  /** Elements ks[0], ks[1], ... moved to the front, in this order. */
  lemma {:induction false} Bring(n: nat, ks: seq<nat>) returns (p: seq<nat>, q: seq<nat>)
    requires (forall m | 0 <= m < |ks| :: ks[m] < n) && forall l, m | 0 <= l < m < |ks| :: ks[l] != ks[m]
    ensures Inverse(p, q, n) && forall m | 0 <= m < |ks| :: p[ks[m]] == m
  {
    if ks == [] {
      p, q := Identity(n), Identity(n);
    } else {
      var p', q' := Bring(n, ks[1..]);
      var at := p'[ks[0]];
      forall i | 0 <= i < |ks| - 1 ensures p'[ks[i + 1]] == i && q'[i] != ks[0] {
        assert ks[1..][i] == ks[i + 1];
      }
      assert q'[at] == ks[0];
      assert at >= |ks| - 1;
      FrontInverse(n, at);
      ComposeInverse(p', q', ToFront(n, at), FromFront(n, at), n);
      p, q := Compose(p', ToFront(n, at)), Compose(FromFront(n, at), q');
      forall m | 0 <= m < |ks| ensures p[ks[m]] == m {
        assert p[ks[m]] == ToFront(n, at)[p'[ks[m]]];
        assert m > 0 ==> p'[ks[(m - 1) + 1]] == m - 1;
      }
    }
  }
}
