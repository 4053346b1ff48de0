/** The collision and damage passes: `updateProjectiles` for one side's
    torpedoes and `updatePDProjectiles` for one side's point-defense rounds.
    Movement and the engine's mesh tests are not modelled: for each tick the
    engine's answers, taken after the projectile has moved, are given as a
    `Sweep`. */
module Resolver {
  import opened Pool

  /** Health a torpedo hit takes from the struck ship. */
  const TorpedoDamage: int := 10

  /** Health a point-defense hit takes from the struck ship. */
  const RoundDamage: int := 1

  /** What the engine reports, in one tick, for one side's projectiles. */
  datatype Sweep = Sweep(
    torpedoHits: nat -> bool,            // torpedo i intersects the opposing ship
    interceptions: (nat, nat) -> bool,   // torpedo i intersects opposing round j
    torpedoOut: nat -> bool,             // torpedo i is more than 300 from the origin
    roundHits: nat -> bool,              // round i intersects the opposing ship
    roundOut: nat -> bool)               // round i is more than 300 from the origin

  /** The state a torpedo pass works on: the side's torpedo pool, the opposing
      point-defense pool, the opposing ship's health and the side's torpedo count. */
  datatype Sortie = Sortie(torpedoes: seq<bool>, rounds: seq<bool>, health: int, ammo: int)

  /** The opposing rounds that intercept torpedo `i`: active ones it overlaps. */
  function Interceptors(rounds: seq<bool>, i: nat, meets: (nat, nat) -> bool): (r: seq<bool>)
    ensures |r| == |rounds|
  {
    seq(|rounds|, j requires 0 <= j < |rounds| => rounds[j] && meets(i, j))
  }

  /** The opposing rounds left active after torpedo `i`'s interception loop. */
  function Survivors(rounds: seq<bool>, i: nat, meets: (nat, nat) -> bool): (r: seq<bool>)
    ensures |r| == |rounds|
  {
    seq(|rounds|, j requires 0 <= j < |rounds| => rounds[j] && !meets(i, j))
  }

  /** Reference definition of the body of `updateProjectiles` for torpedo `i`. An
      inactive torpedo is skipped. An active one that hits the ship is hidden and
      costs the ship 10 health; every active opposing round it overlaps is hidden,
      hides the torpedo and gives the side one torpedo back, whether or not the
      torpedo had already hit; one beyond the despawn radius is hidden. */
  function TorpedoStep(s: Sortie, w: Sweep, i: nat): (r: Sortie)
    requires i < |s.torpedoes|
    ensures |r.torpedoes| == |s.torpedoes| && |r.rounds| == |s.rounds|
    ensures r.health <= s.health && r.ammo >= s.ammo
  {
    if !s.torpedoes[i] then s
    else
      var hit := w.torpedoHits(i);
      var intercepted := CountActive(Interceptors(s.rounds, i, w.interceptions));
      Sortie(s.torpedoes[i := !(hit || intercepted > 0 || w.torpedoOut(i))],
             Survivors(s.rounds, i, w.interceptions),
             if hit then s.health - TorpedoDamage else s.health,
             s.ammo + intercepted)
  }

  /** The torpedo pass after its first `n` torpedoes. */
  function TorpedoesAfter(s: Sortie, w: Sweep, n: nat): (r: Sortie)
    requires n <= |s.torpedoes|
    ensures |r.torpedoes| == |s.torpedoes| && |r.rounds| == |s.rounds|
  {
    if n == 0 then s else TorpedoStep(TorpedoesAfter(s, w, n - 1), w, n - 1)
  }

  /** The state a point-defense pass works on: the side's round pool and the
      opposing ship's health. */
  datatype Barrage = Barrage(rounds: seq<bool>, health: int)

  /** Reference definition of the body of `updatePDProjectiles` for round `i`:
      an active round that hits is hidden and costs the ship 1 health; one beyond
      the despawn radius is hidden; an inactive round is left alone. */
  function RoundStep(b: Barrage, w: Sweep, i: nat): (r: Barrage)
    requires i < |b.rounds|
    ensures |r.rounds| == |b.rounds| && r.health <= b.health
  {
    if !b.rounds[i] then b
    else
      Barrage(b.rounds[i := !(w.roundHits(i) || w.roundOut(i))],
              if w.roundHits(i) then b.health - RoundDamage else b.health)
  }

  /** The point-defense pass after its first `n` rounds. */
  function RoundsAfter(b: Barrage, w: Sweep, n: nat): (r: Barrage)
    requires n <= |b.rounds|
    ensures |r.rounds| == |b.rounds|
  {
    if n == 0 then b else RoundStep(RoundsAfter(b, w, n - 1), w, n - 1)
  }

  /** The slots of `pool` that are active and for which `p` holds. */
  function ActiveWhere(pool: seq<bool>, p: nat -> bool): (r: seq<bool>)
    ensures |r| == |pool|
  {
    seq(|pool|, j requires 0 <= j < |pool| => pool[j] && p(j))
  }

  /** What one torpedo's turn does. An inactive torpedo changes nothing. For an
      active one: the ship loses exactly 10 health if it was hit and nothing
      otherwise, so interception never changes health; each interceptor hidden
      gives back exactly one torpedo; only rounds the torpedo overlaps are hidden
      and none is shown; and the torpedo ends hidden exactly when it hit, was
      intercepted or left the radius, no other torpedo slot changing. */
  lemma TorpedoStepEffect(s: Sortie, w: Sweep, i: nat)
    requires i < |s.torpedoes|
    ensures !s.torpedoes[i] ==> TorpedoStep(s, w, i) == s
    ensures s.torpedoes[i] ==>
      var r := TorpedoStep(s, w, i);
      && r.health == (if w.torpedoHits(i) then s.health - TorpedoDamage else s.health)
      && r.ammo - s.ammo == CountActive(s.rounds) - CountActive(r.rounds)
      && KeepsInactive(s.rounds, r.rounds)
      && (forall j :: 0 <= j < |s.rounds| && r.rounds[j] != s.rounds[j] ==> w.interceptions(i, j))
      && (forall j :: 0 <= j < |s.rounds| ==> r.rounds[j] == (s.rounds[j] && !w.interceptions(i, j)))
      && r.torpedoes == s.torpedoes[i := r.torpedoes[i]]
      && r.torpedoes[i] == !(w.torpedoHits(i) || r.ammo > s.ammo || w.torpedoOut(i))
  {
    if s.torpedoes[i] {
      CountActiveSplit(s.rounds, Survivors(s.rounds, i, w.interceptions), Interceptors(s.rounds, i, w.interceptions));
    }
  }

  /** Over a torpedo pass, every interception moves one round out of the
      opposing pool and one torpedo into the side's count: their sum is kept. */
  lemma {:induction false} TorpedoesAfterConservesAmmo(s: Sortie, w: Sweep, n: nat)
    requires n <= |s.torpedoes|
    ensures var r := TorpedoesAfter(s, w, n);
      r.ammo + CountActive(r.rounds) == s.ammo + CountActive(s.rounds)
  {
    if n > 0 {
      var m := TorpedoesAfter(s, w, n - 1);
      assert m.ammo + CountActive(m.rounds) == s.ammo + CountActive(s.rounds) by {
        TorpedoesAfterConservesAmmo(s, w, n - 1);
      }
      TorpedoStepEffect(m, w, n - 1);
    }
  }

  /** A torpedo pass never shows a slot, in either pool, and leaves the torpedoes
      it has not reached yet as they were. */
  lemma {:induction false} TorpedoesAfterOnlyHides(s: Sortie, w: Sweep, n: nat)
    requires n <= |s.torpedoes|
    ensures var r := TorpedoesAfter(s, w, n);
      && KeepsInactive(s.torpedoes, r.torpedoes)
      && KeepsInactive(s.rounds, r.rounds)
      && r.torpedoes[n..] == s.torpedoes[n..]
  {
    if n > 0 {
      TorpedoesAfterOnlyHides(s, w, n - 1);
      TorpedoStepEffect(TorpedoesAfter(s, w, n - 1), w, n - 1);
    }
  }

  /** Over a torpedo pass the opposing ship loses exactly 10 health per torpedo
      that was active and hit it; interceptions play no part. */
  lemma {:induction false} TorpedoesAfterDamage(s: Sortie, w: Sweep, n: nat)
    requires n <= |s.torpedoes|
    ensures TorpedoesAfter(s, w, n).health ==
      s.health - TorpedoDamage * CountActive(ActiveWhere(s.torpedoes, w.torpedoHits)[..n])
  {
    if n > 0 {
      var m := TorpedoesAfter(s, w, n - 1);
      TorpedoesAfterDamage(s, w, n - 1);
      TorpedoesAfterOnlyHides(s, w, n - 1);
      assert m.torpedoes[n - 1] == m.torpedoes[n - 1..][0] == s.torpedoes[n - 1];
      TorpedoStepEffect(m, w, n - 1);
      CountActivePrefix(ActiveWhere(s.torpedoes, w.torpedoHits), n - 1);
    }
  }

  /** A torpedo's fate over the pass: torpedo `j` is still active afterwards
      exactly when it was active, missed the ship, stayed inside the radius and
      met no active opposing round when its turn came. */
  lemma {:induction false} TorpedoesAfterFate(s: Sortie, w: Sweep, n: nat)
    requires n <= |s.torpedoes|
    ensures var r := TorpedoesAfter(s, w, n);
      forall j :: 0 <= j < n ==>
        (r.torpedoes[j] <==>
           && s.torpedoes[j] && !w.torpedoHits(j) && !w.torpedoOut(j)
           && CountActive(Interceptors(TorpedoesAfter(s, w, j).rounds, j, w.interceptions)) == 0)
  {
    if n > 0 {
      var m := TorpedoesAfter(s, w, n - 1);
      TorpedoesAfterFate(s, w, n - 1);
      TorpedoesAfterOnlyHides(s, w, n - 1);
      assert m.torpedoes[n - 1] == m.torpedoes[n - 1..][0] == s.torpedoes[n - 1];
      TorpedoStepEffect(m, w, n - 1);
    }
  }

  /** One torpedo that hits the ship while two opposing rounds overlap it costs
      the ship 10 health and also gives its side two torpedoes back. */
  lemma HitAndInterceptedTwice(w: Sweep)
    requires w.torpedoHits(0) && w.interceptions(0, 0) && w.interceptions(0, 1)
    ensures TorpedoStep(Sortie([true], [true, true], 100, 5), w, 0) ==
      Sortie([false], [false, false], 100 - TorpedoDamage, 7)
  {
    var caught := Interceptors([true, true], 0, w.interceptions);
    assert caught == [true, true];
    assert caught[..1] == [true];
    assert caught[..0] == [];
    assert Survivors([true, true], 0, w.interceptions) == [false, false];
  }

  /** The point-defense pass in closed form: round `j` among the first `n` stays
      active exactly when it was active, missed the ship and stayed inside the
      radius; later rounds are untouched; the ship loses exactly 1 health per
      active round that hit it. */
  lemma {:induction false} RoundsAfterEffect(b: Barrage, w: Sweep, n: nat)
    requires n <= |b.rounds|
    ensures var r := RoundsAfter(b, w, n);
      && (forall j :: 0 <= j < |b.rounds| ==>
            r.rounds[j] == if j < n then b.rounds[j] && !w.roundHits(j) && !w.roundOut(j) else b.rounds[j])
      && r.health == b.health - RoundDamage * CountActive(ActiveWhere(b.rounds, w.roundHits)[..n])
  {
    if n > 0 {
      RoundsAfterEffect(b, w, n - 1);
      CountActivePrefix(ActiveWhere(b.rounds, w.roundHits), n - 1);
    }
  }

  /** One step of the interceptor loop: round `j`, if active and overlapping
      torpedo `i`, is hidden and hides the torpedo. */
  method TryIntercept(projectiles: array<bool>, pdProjectiles: array<bool>, w: Sweep, i: nat, j: nat)
    returns (caught: bool)
    requires i < projectiles.Length && j < pdProjectiles.Length
    requires projectiles != pdProjectiles
    modifies projectiles, pdProjectiles
    ensures caught == (old(pdProjectiles[j]) && w.interceptions(i, j))
    ensures pdProjectiles[..] == old(pdProjectiles[..])[j := old(pdProjectiles[j]) && !caught]
    ensures projectiles[..] == old(projectiles[..])[i := old(projectiles[i]) && !caught]
  {
    caught := pdProjectiles[j] && w.interceptions(i, j);
    if caught {
      projectiles[i] := false;
      pdProjectiles[j] := false;
    }
  }

  /** The interceptor loop of `updateProjectiles` for torpedo `i`: every active
      opposing round the torpedo overlaps is hidden, hides the torpedo and counts
      one interception. */
  method InterceptionLoop(projectiles: array<bool>, pdProjectiles: array<bool>, w: Sweep, i: nat)
    returns (intercepted: nat)
    requires i < projectiles.Length
    requires projectiles != pdProjectiles
    modifies projectiles, pdProjectiles
    ensures intercepted == CountActive(Interceptors(old(pdProjectiles[..]), i, w.interceptions))
    ensures pdProjectiles[..] == Survivors(old(pdProjectiles[..]), i, w.interceptions)
    ensures projectiles[..] == old(projectiles[..])[i := old(projectiles[i]) && intercepted == 0]
  {
    ghost var r0 := pdProjectiles[..];
    ghost var caught := Interceptors(r0, i, w.interceptions);
    intercepted := 0;
    var j := 0;
    while j < pdProjectiles.Length
      invariant 0 <= j <= pdProjectiles.Length
      invariant forall k :: 0 <= k < j ==> pdProjectiles[k] == (r0[k] && !w.interceptions(i, k))
      invariant forall k :: j <= k < pdProjectiles.Length ==> pdProjectiles[k] == r0[k]
      invariant intercepted == CountActive(caught[..j])
      invariant projectiles[i] == (old(projectiles[i]) && intercepted == 0)
      invariant forall k :: 0 <= k < projectiles.Length && k != i ==> projectiles[k] == old(projectiles[k])
    {
      CountActivePrefix(caught, j);
      var hit := TryIntercept(projectiles, pdProjectiles, w, i, j);
      if hit {
        intercepted := intercepted + 1;
      }
      j := j + 1;
    }
    assert caught[..j] == caught;
    assert pdProjectiles[..] == Survivors(r0, i, w.interceptions);
  }

  /** `updateProjectiles`, for one torpedo: the body of its `forEach`. */
  method ResolveTorpedo(projectiles: array<bool>, pdProjectiles: array<bool>, w: Sweep, i: nat,
                        health: int, ammo: int) returns (health': int, ammo': int)
    requires i < projectiles.Length
    requires projectiles != pdProjectiles
    modifies projectiles, pdProjectiles
    ensures Sortie(projectiles[..], pdProjectiles[..], health', ammo') ==
      TorpedoStep(Sortie(old(projectiles[..]), old(pdProjectiles[..]), health, ammo), w, i)
  {
    health', ammo' := health, ammo;
    if projectiles[i] {
      if w.torpedoHits(i) {
        projectiles[i] := false;
        health' := health' - TorpedoDamage;
      }
      var intercepted := InterceptionLoop(projectiles, pdProjectiles, w, i);
      ammo' := ammo' + intercepted;
      if w.torpedoOut(i) {
        projectiles[i] := false;
      }
    }
  }

  /** `updateProjectiles`: one side's torpedo pass against the opposing ship and
      the opposing point-defense pool. The opposing ship's health and the side's
      torpedo count go in and come out. */
  method UpdateProjectiles(projectiles: array<bool>, pdProjectiles: array<bool>, w: Sweep,
                           health: int, ammo: int) returns (health': int, ammo': int)
    requires projectiles != pdProjectiles
    modifies projectiles, pdProjectiles
    ensures Sortie(projectiles[..], pdProjectiles[..], health', ammo') ==
      TorpedoesAfter(Sortie(old(projectiles[..]), old(pdProjectiles[..]), health, ammo), w, projectiles.Length)
  {
    ghost var s0 := Sortie(projectiles[..], pdProjectiles[..], health, ammo);
    health', ammo' := health, ammo;
    var i := 0;
    while i < projectiles.Length
      invariant 0 <= i <= projectiles.Length
      invariant Sortie(projectiles[..], pdProjectiles[..], health', ammo') == TorpedoesAfter(s0, w, i)
    {
      health', ammo' := ResolveTorpedo(projectiles, pdProjectiles, w, i, health', ammo');
      i := i + 1;
    }
  }

  /** `updatePDProjectiles`: one side's point-defense pass against the opposing
      ship, whose health goes in and comes out. */
  method UpdatePDProjectiles(pdProjectiles: array<bool>, w: Sweep, health: int) returns (health': int)
    modifies pdProjectiles
    ensures Barrage(pdProjectiles[..], health') ==
      RoundsAfter(Barrage(old(pdProjectiles[..]), health), w, pdProjectiles.Length)
  {
    ghost var b0 := Barrage(pdProjectiles[..], health);
    health' := health;
    var i := 0;
    while i < pdProjectiles.Length
      invariant 0 <= i <= pdProjectiles.Length
      invariant Barrage(pdProjectiles[..], health') == RoundsAfter(b0, w, i)
    {
      if pdProjectiles[i] {
        if w.roundHits(i) {
          pdProjectiles[i] := false;
          health' := health' - RoundDamage;
        }
        if w.roundOut(i) {
          pdProjectiles[i] := false;
        }
      }
      i := i + 1;
    }
  }
}
