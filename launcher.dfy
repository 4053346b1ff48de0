/** The torpedo launcher (`fireTorpedo`): one volley from a side's torpedo pool. */
module Launcher {
  import opened Pool

  /** Most torpedoes one volley launches. */
  const VolleySize: nat := 4

  /** What `fireTorpedo` leaves behind: the pool's flags and the count it returns. */
  datatype Launch = Launch(pool: seq<bool>, count: int)

  /** Reference definition of a volley. With a positive count, the first (up to)
      four inactive slots become active and the count drops by the number
      launched, whatever the count was; otherwise nothing happens. */
  function FireVolley(pool: seq<bool>, count: int): (r: Launch)
    ensures |r.pool| == |pool| && r.count <= count
  {
    if count > 0 then
      Launch(ActivateFirstInactive(pool, VolleySize), count - Min(VolleySize, CountInactive(pool)))
    else
      Launch(pool, count)
  }

  /** `fireTorpedo`: scans the pool in order and shows the first four hidden slots. */
  method FireTorpedo(projectiles: array<bool>, torpedoCount: int) returns (r: int)
    modifies projectiles
    ensures Launch(projectiles[..], r) == FireVolley(old(projectiles[..]), torpedoCount)
  {
    if torpedoCount > 0 {
      ghost var s := projectiles[..];
      ghost var volley := ActivateFirstInactive(s, VolleySize);
      var launched := 0;
      var i := 0;
      while i < projectiles.Length
        invariant 0 <= i <= projectiles.Length
        invariant launched == Min(VolleySize, CountInactive(s[..i]))
        invariant forall k :: 0 <= k < i ==> projectiles[k] == volley[k]
        invariant forall k :: i <= k < projectiles.Length ==> projectiles[k] == s[k]
      {
        CountActivePrefix(s, i);
        if !projectiles[i] && launched < VolleySize {
          projectiles[i] := true;
          launched := launched + 1;
        }
        i := i + 1;
      }
      assert s[..i] == s;
      assert projectiles[..] == volley;
      return torpedoCount - launched;
    }
    return torpedoCount;
  }

  /** What a volley does to the pool and the count: nothing at all for a count of
      zero or less; otherwise exactly `min(4, #inactive)` slots, the first inactive
      ones in pool order, become active, no other slot changes, and the returned
      count is the old count minus the number launched. */
  lemma FireVolleyEffect(pool: seq<bool>, count: int)
    ensures count <= 0 ==> FireVolley(pool, count) == Launch(pool, count)
    ensures count > 0 ==>
      var r := FireVolley(pool, count);
      && |r.pool| == |pool|
      && count - r.count == Min(VolleySize, CountInactive(pool))
      && CountActive(r.pool) == CountActive(pool) + (count - r.count)
      && (forall i :: 0 <= i < |pool| ==>
            r.pool[i] == (pool[i] || CountInactive(pool[..i]) < VolleySize))
  {
    ActivateFirstInactiveCount(pool, VolleySize);
  }

  /** A volley from a count of 1 or more never stops at zero: with more free
      slots than torpedoes left, the count goes negative. */
  lemma FireVolleyCanOverdraw(pool: seq<bool>, count: int)
    requires 0 < count < VolleySize
    requires CountInactive(pool) >= VolleySize
    ensures FireVolley(pool, count).count == count - VolleySize < 0
  {
  }

  /** A volley into a pool with no active slot shows its first `min(4, n)` slots;
      from a fresh 20-slot pool and 20 torpedoes that leaves 16. */
  lemma VolleyIntoEmptyPool(n: nat, count: int)
    requires count > 0
    ensures FireVolley(seq(n, _ => false), count) ==
      Launch(seq(n, i => i < VolleySize), count - Min(VolleySize, n))
  {
    var s := seq(n, _ => false);
    CountInactiveOfEmptyPool(n);
    forall i | 0 <= i < n
      ensures ActivateFirstInactive(s, VolleySize)[i] == (i < VolleySize)
    {
      assert s[..i] == seq(i, _ => false);
      CountInactiveOfEmptyPool(i);
    }
  }
}
