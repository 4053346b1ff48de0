/** Projectile pools: fixed-size runs of slots whose only modelled state is the
    slot's visibility flag (`isVisible`), which is the slot's "active" flag.
    Positions, directions and target references are rendering state and are
    not modelled. */
module Pool {

  datatype Option<T> = None | Some(value: T)

  /** Slots per torpedo pool and per point-defense pool, one pool of each per side. */
  const TorpedoSlots: nat := 20
  const RoundSlots: nat := 100

  function Min(a: int, b: int): int {
    if a <= b then a else b
  }

  /** Every slot active in `before` is still active in `after`, and the pool
      kept its size. */
  predicate KeepsActive(before: seq<bool>, after: seq<bool>) {
    |before| == |after| && forall j :: 0 <= j < |before| && before[j] ==> after[j]
  }

  /** Every slot inactive in `before` is still inactive in `after`, and the pool
      kept its size. */
  predicate KeepsInactive(before: seq<bool>, after: seq<bool>) {
    |before| == |after| && forall j :: 0 <= j < |before| && !before[j] ==> !after[j]
  }

  /** Number of active slots. */
  function CountActive(s: seq<bool>): (n: nat)
    ensures n <= |s|
  {
    if s == [] then 0
    else CountActive(s[..|s| - 1]) + (if s[|s| - 1] then 1 else 0)
  }

  /** Number of inactive slots, i.e. how many shots the pool can still take. */
  function CountInactive(s: seq<bool>): (n: nat)
    ensures n == |s| - CountActive(s)
  {
    CountActiveOfNegation(s);
    CountActive(Negation(s))
  }

  function Negation(s: seq<bool>): (r: seq<bool>)
    ensures |r| == |s| && forall k :: 0 <= k < |s| ==> r[k] == !s[k]
  {
    seq(|s|, k requires 0 <= k < |s| => !s[k])
  }

  lemma CountActiveOfNegation(s: seq<bool>)
    ensures CountActive(Negation(s)) + CountActive(s) == |s|
  {
    if s != [] {
      var t := s[..|s| - 1];
      assert Negation(s)[..|s| - 1] == Negation(t);
      CountActiveOfNegation(t);
    }
  }

  /** Counting a one-slot-longer prefix adds that slot's flag. */
  lemma CountActivePrefix(s: seq<bool>, i: nat)
    requires i < |s|
    ensures CountActive(s[..i + 1]) == CountActive(s[..i]) + (if s[i] then 1 else 0)
    ensures CountInactive(s[..i + 1]) == CountInactive(s[..i]) + (if s[i] then 0 else 1)
  {
    assert s[..i + 1][..i] == s[..i];
  }

  /** A pool has an inactive slot exactly when its inactive count is positive. */
  lemma {:induction false} CountInactivePositive(s: seq<bool>)
    ensures CountInactive(s) > 0 <==> exists j :: 0 <= j < |s| && !s[j]
  {
    if s != [] {
      var n := |s| - 1;
      CountInactivePositive(s[..n]);
      CountActivePrefix(s, n);
      assert s[..n + 1] == s;
      if exists j :: 0 <= j < |s| && !s[j] {
        var j :| 0 <= j < |s| && !s[j];
        if j < n {
          assert !s[..n][j];
        }
      }
    }
  }

  /** Every slot of an all-inactive pool counts as inactive. */
  lemma {:induction false} CountInactiveOfEmptyPool(n: nat)
    ensures CountInactive(seq(n, _ => false)) == n
  {
    if n > 0 {
      var s := seq(n, _ => false);
      CountInactiveOfEmptyPool(n - 1);
      assert s[..n - 1] == seq(n - 1, _ => false);
      CountActivePrefix(s, n - 1);
      assert s[..n] == s;
    }
  }

  /** If every slot of `a` is active in exactly one of `b` and `c`, the counts add up. */
  lemma {:induction false} CountActiveSplit(a: seq<bool>, b: seq<bool>, c: seq<bool>)
    requires |a| == |b| == |c|
    requires forall k :: 0 <= k < |a| ==> a[k] == (b[k] || c[k]) && !(b[k] && c[k])
    ensures CountActive(a) == CountActive(b) + CountActive(c)
  {
    if a != [] {
      var n := |a| - 1;
      CountActiveSplit(a[..n], b[..n], c[..n]);
    }
  }

  /** The slot `pool.find(p => !p.isVisible)` returns: the first inactive one. */
  function FirstInactive(s: seq<bool>): (r: Option<nat>)
    ensures r.Some? ==> r.value < |s| && !s[r.value]
    ensures r.Some? ==> forall k :: 0 <= k < r.value ==> s[k]
    ensures r.None? <==> forall k :: 0 <= k < |s| ==> s[k]
  {
    if s == [] then None
    else if !s[0] then Some(0)
    else match FirstInactive(s[1..])
      case None => None
      case Some(j) => Some(j + 1)
  }

  /** The pool after the first `k` inactive slots, in pool order, are made active:
      slot `i` is active afterwards iff it was active or fewer than `k` inactive
      slots come before it. */
  function ActivateFirstInactive(s: seq<bool>, k: nat): (r: seq<bool>)
    ensures |r| == |s|
  {
    seq(|s|, i requires 0 <= i < |s| => s[i] || CountInactive(s[..i]) < k)
  }

  /** Activating the first `k` inactive slots of a pool and then cutting it to its
      first `n` slots is the same as cutting first. */
  lemma ActivateFirstInactivePrefix(s: seq<bool>, k: nat, n: nat)
    requires n <= |s|
    ensures ActivateFirstInactive(s, k)[..n] == ActivateFirstInactive(s[..n], k)
  {
    forall i | 0 <= i < n
      ensures ActivateFirstInactive(s, k)[i] == ActivateFirstInactive(s[..n], k)[i]
    {
      assert s[..n][..i] == s[..i];
    }
  }

  /** Activating never deactivates, and it launches exactly `min(k, #inactive)` slots. */
  lemma {:induction false} ActivateFirstInactiveCount(s: seq<bool>, k: nat)
    ensures forall i :: 0 <= i < |s| && s[i] ==> ActivateFirstInactive(s, k)[i]
    ensures CountActive(ActivateFirstInactive(s, k)) == CountActive(s) + Min(k, CountInactive(s))
    ensures CountInactive(ActivateFirstInactive(s, k)) == CountInactive(s) - Min(k, CountInactive(s))
  {
    if s != [] {
      var r := ActivateFirstInactive(s, k);
      var n := |s| - 1;
      ActivateFirstInactiveCount(s[..n], k);
      ActivateFirstInactivePrefix(s, k, n);
      CountActivePrefix(s, n);
      CountActivePrefix(r, n);
      assert s[..n + 1] == s && r[..n + 1] == r;
    }
  }

  /** Activating one slot is the same as activating the slot `FirstInactive` finds. */
  lemma ActivateOneIsFirstInactive(s: seq<bool>)
    ensures ActivateFirstInactive(s, 1) ==
      match FirstInactive(s)
      case None => s
      case Some(j) => s[j := true]
  {
    var r := ActivateFirstInactive(s, 1);
    match FirstInactive(s)
    case None =>
      assert r == s;
    case Some(j) =>
      forall i | 0 <= i < |s|
        ensures r[i] == s[j := true][i]
      {
        CountInactivePositive(s[..i]);
        if i > j {
          assert !s[..i][j];
        }
      }
  }

  /** Linear search the source performs with `find`. */
  method FindInactive(a: array<bool>) returns (r: Option<nat>)
    ensures r == FirstInactive(a[..])
  {
    var i := 0;
    while i < a.Length
      invariant 0 <= i <= a.Length
      invariant forall k :: 0 <= k < i ==> a[k]
    {
      if !a[i] {
        return Some(i);
      }
      i := i + 1;
    }
    return None;
  }
}
