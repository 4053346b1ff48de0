/** Point-defense controllers (the `PDC` class): each holds at most one tracked
    enemy torpedo, named by its slot in the opposing torpedo pool, and the time
    it last fired. Every tick each PDC of a side, in order, first acquires a
    target if it is idle and then runs `update`, which may fire one round from
    the side's point-defense pool. */
module PointDefense {
  import opened Pool

  /** Milliseconds that must have passed, strictly, between two shots (`pdFireRate`). */
  const FireInterval: int := 100

  /** PDCs per side. */
  const PdcsPerSide: nat := 4

  /** The two fields of a PDC as a value. */
  datatype PdcState = PdcState(tracked: Option<nat>, lastFireTime: int)

  /** A PDC's tracked slot, if any, names a slot of the opposing pool. */
  predicate InRange(p: PdcState, slots: nat) {
    p.tracked.Some? ==> p.tracked.value < slots
  }

  predicate AllInRange(pdcs: seq<PdcState>, slots: nat) {
    forall q :: 0 <= q < |pdcs| ==> InRange(pdcs[q], slots)
  }

  /** No two PDCs of one side track the same slot. */
  predicate DistinctTargets(pdcs: seq<PdcState>) {
    forall q, q' :: 0 <= q < q' < |pdcs| && pdcs[q].tracked.Some? ==> pdcs[q].tracked != pdcs[q'].tracked
  }

  /** Some PDC of the side tracks `slot` (the source's `some(... === p)`). */
  predicate Tracks(pdcs: seq<PdcState>, slot: nat) {
    exists q :: 0 <= q < |pdcs| && pdcs[q].tracked == Some(slot)
  }

  /** `track`: a target is adopted only when none is held. */
  function Adopt(p: PdcState, slot: nat): (r: PdcState)
    ensures r.tracked.Some? && r.lastFireTime == p.lastFireTime
    ensures p.tracked.Some? ==> r == p
    ensures p.tracked.None? ==> r.tracked == Some(slot)
  {
    if p.tracked.None? then p.(tracked := Some(slot)) else p
  }

  /** What `update` leaves behind: the PDC and its side's point-defense pool. */
  datatype Shot = Shot(pdc: PdcState, rounds: seq<bool>)

  /** Reference definition of `update`. While the tracked torpedo is visible, a
      PDC whose interval has passed fires into the first inactive round slot, if
      there is one, and restarts its interval either way; a PDC with no visible
      target drops it and changes nothing else. */
  function PdcUpdate(p: PdcState, targets: seq<bool>, rounds: seq<bool>, now: int): (r: Shot)
    requires InRange(p, |targets|)
    ensures |r.rounds| == |rounds| && InRange(r.pdc, |targets|)
    ensures r.pdc.tracked == p.tracked || r.pdc.tracked.None?
  {
    if p.tracked.Some? && targets[p.tracked.value] then
      if now - p.lastFireTime > FireInterval then
        Shot(p.(lastFireTime := now),
             match FirstInactive(rounds)
             case None => rounds
             case Some(j) => rounds[j := true])
      else
        Shot(p, rounds)
    else
      Shot(p.(tracked := None), rounds)
  }

  /** A slot is unavailable to an idle PDC when it is hidden or already tracked. */
  function Unavailable(targets: seq<bool>, pdcs: seq<PdcState>): (r: seq<bool>)
    ensures |r| == |targets|
  {
    seq(|targets|, k requires 0 <= k < |targets| => !targets[k] || Tracks(pdcs, k))
  }

  /** The target an idle PDC looks for: the first visible enemy torpedo that no
      PDC of its side tracks. */
  function FirstUntracked(targets: seq<bool>, pdcs: seq<PdcState>): (r: Option<nat>)
    ensures r.Some? ==> r.value < |targets| && targets[r.value] && !Tracks(pdcs, r.value)
    ensures r.Some? ==> forall k :: 0 <= k < r.value ==> !targets[k] || Tracks(pdcs, k)
    ensures r.None? <==> forall k :: 0 <= k < |targets| ==> !targets[k] || Tracks(pdcs, k)
  {
    var u := Unavailable(targets, pdcs);
    assert forall k :: 0 <= k < |targets| ==> u[k] == (!targets[k] || Tracks(pdcs, k));
    FirstInactive(u)
  }

  /** The PDCs of one side together with that side's point-defense pool. */
  datatype Battery = Battery(pdcs: seq<PdcState>, rounds: seq<bool>)

  /** The acquisition step of the loop: an idle PDC adopts the first visible
      enemy torpedo that no PDC of its side tracks, if there is one. */
  function Acquire(p: PdcState, targets: seq<bool>, pdcs: seq<PdcState>): (r: PdcState)
    ensures r.lastFireTime == p.lastFireTime
    ensures p.tracked.Some? ==> r == p
    ensures r != p ==> r.tracked == FirstUntracked(targets, pdcs) && r.tracked.Some?
    ensures p.tracked.None? ==> r.tracked == FirstUntracked(targets, pdcs)
    ensures InRange(p, |targets|) ==> InRange(r, |targets|)
  {
    if p.tracked.None? then
      match FirstUntracked(targets, pdcs)
      case None => p
      case Some(k) => Adopt(p, k)
    else p
  }

  /** PDC number `i`'s turn in its side's loop: acquire if idle, then update. */
  function PdcTurn(b: Battery, targets: seq<bool>, now: int, i: nat): (r: Battery)
    requires i < |b.pdcs| && AllInRange(b.pdcs, |targets|)
    ensures |r.pdcs| == |b.pdcs| && |r.rounds| == |b.rounds| && AllInRange(r.pdcs, |targets|)
    ensures forall q :: 0 <= q < |b.pdcs| && q != i ==> r.pdcs[q] == b.pdcs[q]
  {
    var shot := PdcUpdate(Acquire(b.pdcs[i], targets, b.pdcs), targets, b.rounds, now);
    Battery(b.pdcs[i := shot.pdc], shot.rounds)
  }

  /** The battery after the first `n` PDCs of the side have taken their turn. */
  function PdcsAfter(b: Battery, targets: seq<bool>, now: int, n: nat): (r: Battery)
    requires n <= |b.pdcs| && AllInRange(b.pdcs, |targets|)
    ensures |r.pdcs| == |b.pdcs| && |r.rounds| == |b.rounds|
    ensures AllInRange(r.pdcs, |targets|)
  {
    if n == 0 then b
    else PdcTurn(PdcsAfter(b, targets, now, n - 1), targets, now, n - 1)
  }

  /** `update` with no visible target clears the target and changes nothing else:
      no pool slot and no timestamp. */
  lemma UpdateWithoutTarget(p: PdcState, targets: seq<bool>, rounds: seq<bool>, now: int)
    requires InRange(p, |targets|)
    requires p.tracked.None? || !targets[p.tracked.value]
    ensures PdcUpdate(p, targets, rounds, now) ==
      Shot(PdcState(None, p.lastFireTime), rounds)
  {
  }

  /** `update` with a visible target keeps it, fires at most one round and only
      into the first inactive slot, and only after the interval has passed
      strictly; the timestamp restarts exactly when that gate passes, even if the
      pool had no slot free. */
  lemma UpdateWithTarget(p: PdcState, targets: seq<bool>, rounds: seq<bool>, now: int)
    requires InRange(p, |targets|)
    requires p.tracked.Some? && targets[p.tracked.value]
    ensures var r := PdcUpdate(p, targets, rounds, now);
      var gate := now - p.lastFireTime > FireInterval;
      && r.pdc.tracked == p.tracked
      && r.pdc.lastFireTime == (if gate then now else p.lastFireTime)
      && r.rounds == (if gate then ActivateFirstInactive(rounds, 1) else rounds)
      && CountActive(r.rounds) == CountActive(rounds) + (if gate then Min(1, CountInactive(rounds)) else 0)
  {
    ActivateOneIsFirstInactive(rounds);
    ActivateFirstInactiveCount(rounds, 1);
  }

  /** A PDC never fires before its interval has passed. */
  lemma UpdateNeverFiresEarly(p: PdcState, targets: seq<bool>, rounds: seq<bool>, now: int)
    requires InRange(p, |targets|)
    requires now - p.lastFireTime <= FireInterval
    ensures PdcUpdate(p, targets, rounds, now).rounds == rounds
  {
  }

  /** With the gate open and every round slot busy, nothing fires, yet the
      timestamp restarts. */
  lemma UpdateOnFullPoolRestartsTimer(p: PdcState, targets: seq<bool>, rounds: seq<bool>, now: int)
    requires InRange(p, |targets|)
    requires p.tracked.Some? && targets[p.tracked.value]
    requires now - p.lastFireTime > FireInterval
    requires forall j :: 0 <= j < |rounds| ==> rounds[j]
    ensures PdcUpdate(p, targets, rounds, now) == Shot(p.(lastFireTime := now), rounds)
  {
  }

  /** One turn keeps the side's targets distinct: an idle PDC adopts only a slot
      no PDC of the side tracks, and `update` can only drop a target. */
  lemma PdcTurnKeepsTargetsDistinct(b: Battery, targets: seq<bool>, now: int, i: nat)
    requires i < |b.pdcs| && AllInRange(b.pdcs, |targets|)
    requires DistinctTargets(b.pdcs)
    ensures DistinctTargets(PdcTurn(b, targets, now, i).pdcs)
  {
    var p := b.pdcs[i];
    var r := PdcTurn(b, targets, now, i).pdcs;
    forall q, q' | 0 <= q < q' < |r| && r[q].tracked.Some?
      ensures r[q].tracked != r[q'].tracked
    {
      if q == i || q' == i {
        var other := if q == i then q' else q;
        if r[i].tracked.Some? && r[i].tracked != p.tracked {
          assert r[i].tracked == FirstUntracked(targets, b.pdcs);
          assert b.pdcs[other].tracked == r[other].tracked;
        }
      }
    }
  }

  /** A whole PDC loop keeps the side's targets distinct. */
  lemma {:induction false} PdcsAfterKeepsTargetsDistinct(b: Battery, targets: seq<bool>, now: int, n: nat)
    requires n <= |b.pdcs| && AllInRange(b.pdcs, |targets|)
    requires DistinctTargets(b.pdcs)
    ensures DistinctTargets(PdcsAfter(b, targets, now, n).pdcs)
  {
    if n > 0 {
      PdcsAfterKeepsTargetsDistinct(b, targets, now, n - 1);
      PdcTurnKeepsTargetsDistinct(PdcsAfter(b, targets, now, n - 1), targets, now, n - 1);
    }
  }

  /** An idle PDC whose side leaves a visible torpedo untracked ends its turn
      tracking the first such torpedo; one that holds a target and sees it
      still visible ends its turn holding the same target. */
  lemma PdcTurnTracks(b: Battery, targets: seq<bool>, now: int, i: nat)
    requires i < |b.pdcs| && AllInRange(b.pdcs, |targets|)
    ensures b.pdcs[i].tracked.None? && FirstUntracked(targets, b.pdcs).Some? ==>
      PdcTurn(b, targets, now, i).pdcs[i].tracked == FirstUntracked(targets, b.pdcs)
    ensures b.pdcs[i].tracked.Some? && targets[b.pdcs[i].tracked.value] ==>
      PdcTurn(b, targets, now, i).pdcs[i].tracked == b.pdcs[i].tracked
  {
    var acquired := Acquire(b.pdcs[i], targets, b.pdcs);
    if acquired.tracked.Some? && targets[acquired.tracked.value] {
      UpdateWithTarget(acquired, targets, b.rounds, now);
    }
  }

  /** One turn only ever shows round slots, and at most one. */
  lemma PdcTurnFiresAtMostOnce(b: Battery, targets: seq<bool>, now: int, i: nat)
    requires i < |b.pdcs| && AllInRange(b.pdcs, |targets|)
    ensures var r := PdcTurn(b, targets, now, i);
      && KeepsActive(b.rounds, r.rounds)
      && CountActive(b.rounds) <= CountActive(r.rounds) <= CountActive(b.rounds) + 1
  {
    var acquired := Acquire(b.pdcs[i], targets, b.pdcs);
    if acquired.tracked.Some? && targets[acquired.tracked.value] {
      UpdateWithTarget(acquired, targets, b.rounds, now);
      ActivateFirstInactiveCount(b.rounds, 1);
    }
  }

  /** A PDC loop never hides a round slot. */
  lemma {:induction false} PdcsAfterKeepsRoundsActive(b: Battery, targets: seq<bool>, now: int, n: nat)
    requires n <= |b.pdcs| && AllInRange(b.pdcs, |targets|)
    ensures KeepsActive(b.rounds, PdcsAfter(b, targets, now, n).rounds)
  {
    if n > 0 {
      PdcsAfterKeepsRoundsActive(b, targets, now, n - 1);
      PdcTurnFiresAtMostOnce(PdcsAfter(b, targets, now, n - 1), targets, now, n - 1);
    }
  }

  /** A PDC loop fires at most one round per PDC. */
  lemma {:induction false} PdcsAfterFiresAtMostOnceEach(b: Battery, targets: seq<bool>, now: int, n: nat)
    requires n <= |b.pdcs| && AllInRange(b.pdcs, |targets|)
    ensures var r := PdcsAfter(b, targets, now, n);
      CountActive(b.rounds) <= CountActive(r.rounds) <= CountActive(b.rounds) + n
  {
    if n > 0 {
      var m := PdcsAfter(b, targets, now, n - 1);
      assert CountActive(b.rounds) <= CountActive(m.rounds) <= CountActive(b.rounds) + n - 1 by {
        PdcsAfterFiresAtMostOnceEach(b, targets, now, n - 1);
      }
      PdcTurnFiresAtMostOnce(m, targets, now, n - 1);
    }
  }

  /** A point-defense controller; `tracked` is the slot of the opposing torpedo
      pool it follows. */
  class PDC {
    var tracked: Option<nat>
    var lastFireTime: int

    constructor ()
      ensures tracked == None && lastFireTime == 0
    {
      tracked := None;
      lastFireTime := 0;
    }

    function State(): PdcState
      reads this
    {
      PdcState(tracked, lastFireTime)
    }

    /** `track`. */
    method Track(slot: nat)
      modifies this
      ensures State() == Adopt(old(State()), slot)
    {
      if tracked.None? {
        tracked := Some(slot);
      }
    }

    /** `update`, with the opposing torpedo pool passed in so that the tracked
        slot's visibility can be read. */
    method Update(targets: array<bool>, pdProjectiles: array<bool>, currentTime: int)
      requires targets != pdProjectiles
      requires InRange(State(), targets.Length)
      modifies this, pdProjectiles
      ensures Shot(State(), pdProjectiles[..]) ==
        PdcUpdate(old(State()), targets[..], old(pdProjectiles[..]), currentTime)
    {
      if tracked.Some? && targets[tracked.value] {
        if currentTime - lastFireTime > FireInterval {
          var inactive := FindInactive(pdProjectiles);
          if inactive.Some? {
            pdProjectiles[inactive.value] := true;
          }
          lastFireTime := currentTime;
        }
      } else {
        tracked := None;
      }
    }
  }

  /** The states of a side's PDCs, in order. */
  function States(pdcs: seq<PDC>): (r: seq<PdcState>)
    reads pdcs
    ensures |r| == |pdcs| && forall q :: 0 <= q < |pdcs| ==> r[q] == pdcs[q].State()
  {
    seq(|pdcs|, q requires 0 <= q < |pdcs| reads pdcs => pdcs[q].State())
  }

  /** The side's PDCs are distinct objects. */
  predicate Unaliased(pdcs: seq<PDC>) {
    forall q, q' :: 0 <= q < q' < |pdcs| ==> pdcs[q] != pdcs[q']
  }

  /** `pdcs.some(other => other.trackedProjectile === slot)`. */
  method IsTracked(pdcs: seq<PDC>, slot: nat) returns (b: bool)
    ensures b == Tracks(States(pdcs), slot)
  {
    var q := 0;
    while q < |pdcs|
      invariant 0 <= q <= |pdcs|
      invariant forall m :: 0 <= m < q ==> pdcs[m].tracked != Some(slot)
    {
      if pdcs[q].tracked == Some(slot) {
        assert States(pdcs)[q].tracked == Some(slot);
        return true;
      }
      q := q + 1;
    }
    return false;
  }

  /** `targets.find(p => p.isVisible && !pdcs.some(...))`. */
  method FindUntracked(targets: array<bool>, pdcs: seq<PDC>) returns (r: Option<nat>)
    ensures r == FirstUntracked(targets[..], States(pdcs))
  {
    var i := 0;
    while i < targets.Length
      invariant 0 <= i <= targets.Length
      invariant forall k :: 0 <= k < i ==> !targets[k] || Tracks(States(pdcs), k)
    {
      if targets[i] {
        var taken := IsTracked(pdcs, i);
        if !taken {
          return Some(i);
        }
      }
      i := i + 1;
    }
    return None;
  }

  /** One pass of the body of a side's PDC loop, for PDC number `i`. */
  method TakeTurn(pdcs: seq<PDC>, i: nat, targets: array<bool>, pdProjectiles: array<bool>, currentTime: int)
    requires i < |pdcs|
    requires targets != pdProjectiles
    requires Unaliased(pdcs)
    requires AllInRange(States(pdcs), targets.Length)
    modifies pdcs[i], pdProjectiles
    ensures Battery(States(pdcs), pdProjectiles[..]) ==
      PdcTurn(Battery(old(States(pdcs)), old(pdProjectiles[..])), targets[..], currentTime, i)
  {
    ghost var before := States(pdcs);
    var pdc := pdcs[i];
    if pdc.tracked.None? {
      var untracked := FindUntracked(targets, pdcs);
      if untracked.Some? {
        pdc.Track(untracked.value);
      }
    }
    assert pdc.State() == Acquire(before[i], targets[..], before);
    pdc.Update(targets, pdProjectiles, currentTime);
    assert States(pdcs) == before[i := pdc.State()];
  }

  /** One side's PDC loop (`playerPDCs.forEach` / `targetPDCs.forEach`). */
  method UpdatePdcs(pdcs: seq<PDC>, targets: array<bool>, pdProjectiles: array<bool>, currentTime: int)
    requires targets != pdProjectiles
    requires Unaliased(pdcs)
    requires AllInRange(States(pdcs), targets.Length)
    modifies pdcs, pdProjectiles
    ensures Battery(States(pdcs), pdProjectiles[..]) ==
      PdcsAfter(Battery(old(States(pdcs)), old(pdProjectiles[..])), targets[..], currentTime, |pdcs|)
  {
    ghost var b0 := Battery(States(pdcs), pdProjectiles[..]);
    var i := 0;
    while i < |pdcs|
      invariant 0 <= i <= |pdcs|
      invariant Battery(States(pdcs), pdProjectiles[..]) == PdcsAfter(b0, targets[..], currentTime, i)
    {
      TakeTurn(pdcs, i, targets, pdProjectiles, currentTime);
      i := i + 1;
    }
  }
}
