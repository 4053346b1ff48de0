/** The combat state of the game scene and its per-frame tick: both ships'
    health and torpedo counts, the volley timestamps, the four projectile pools,
    the two sides' PDCs, and whether the game is over (the tick callback has
    been removed). The tick runs, in this order: player volley, enemy volley,
    player PDCs, enemy PDCs, player torpedoes, enemy torpedoes, player rounds,
    enemy rounds, game-over check. */
module Scene {
  import opened Pool
  import opened Launcher
  import opened PointDefense
  import opened Resolver

  const StartingHealth: int := 100
  const StartingTorpedoes: int := 20

  /** Milliseconds that must have passed, strictly, between two volleys of a side. */
  const FireCooldown: int := 1000

  /** The combat state as a value. "target" names the enemy's pools, as the
      source does. */
  datatype State = State(
    playerHealth: int, enemyHealth: int,
    playerTorpedoes: int, enemyTorpedoes: int,
    lastPlayerFireTime: int, lastEnemyFireTime: int,
    playerProjectiles: seq<bool>, targetProjectiles: seq<bool>,
    playerPDProjectiles: seq<bool>, targetPDProjectiles: seq<bool>,
    playerPDCs: seq<PdcState>, targetPDCs: seq<PdcState>,
    over: bool)

  /** The engine's answers for one frame, per side. */
  datatype Contacts = Contacts(player: Sweep, enemy: Sweep)

  /** One frame of the render loop: the clock reading and the engine's answers. */
  datatype FrameInput = FrameInput(now: int, contacts: Contacts)

  /** What the game-over message says. */
  datatype Status = Ongoing | PlayerLost | PlayerWon

  /** Pools have their fixed sizes, each side has its four PDCs, and every
      tracked slot names a slot of the opposing torpedo pool. */
  predicate Shaped(s: State) {
    && |s.playerProjectiles| == TorpedoSlots && |s.targetProjectiles| == TorpedoSlots
    && |s.playerPDProjectiles| == RoundSlots && |s.targetPDProjectiles| == RoundSlots
    && |s.playerPDCs| == PdcsPerSide && |s.targetPDCs| == PdcsPerSide
    && AllInRange(s.playerPDCs, TorpedoSlots) && AllInRange(s.targetPDCs, TorpedoSlots)
  }

  /** `Shaped`, and no two PDCs of one side track the same slot. */
  predicate WellFormed(s: State) {
    Shaped(s) && DistinctTargets(s.playerPDCs) && DistinctTargets(s.targetPDCs)
  }

  /** The state the scene sets up before the first frame. */
  function Initial(): (r: State)
    ensures WellFormed(r) && !r.over
  {
    State(StartingHealth, StartingHealth, StartingTorpedoes, StartingTorpedoes, 0, 0,
          seq(TorpedoSlots, _ => false), seq(TorpedoSlots, _ => false),
          seq(RoundSlots, _ => false), seq(RoundSlots, _ => false),
          seq(PdcsPerSide, _ => PdcState(None, 0)), seq(PdcsPerSide, _ => PdcState(None, 0)),
          false)
  }

  /** The game-over message: a player at 0 health or below has lost, even if
      the enemy is also at 0 or below. */
  function Outcome(s: State): (r: Status)
    ensures r == Ongoing <==> !s.over
    ensures s.over && s.playerHealth <= 0 ==> r == PlayerLost
    ensures s.over && s.playerHealth > 0 ==> r == PlayerWon
  {
    if !s.over then Ongoing
    else if s.playerHealth <= 0 then PlayerLost
    else PlayerWon
  }

  /** One side's launcher state: its torpedo pool, torpedo count and last volley time. */
  datatype Magazine = Magazine(pool: seq<bool>, ammo: int, lastFire: int)

  /** The auto-fire block of one side: a volley when more than the cooldown has
      passed and the count is positive; the volley time restarts then, however
      many torpedoes left. */
  function AutoFire(m: Magazine, now: int): (r: Magazine)
    ensures |r.pool| == |m.pool|
    ensures r == m || (r.lastFire == now && r.ammo < m.ammo + 1)
  {
    if now - m.lastFire > FireCooldown && m.ammo > 0 then
      var l := FireVolley(m.pool, m.ammo);
      Magazine(l.pool, l.count, now)
    else m
  }

  function PlayerAutoFire(s: State, now: int): (r: State)
    requires Shaped(s)
    ensures Shaped(r)
  {
    var m := AutoFire(Magazine(s.playerProjectiles, s.playerTorpedoes, s.lastPlayerFireTime), now);
    s.(playerProjectiles := m.pool, playerTorpedoes := m.ammo, lastPlayerFireTime := m.lastFire)
  }

  function EnemyAutoFire(s: State, now: int): (r: State)
    requires Shaped(s)
    ensures Shaped(r)
  {
    var m := AutoFire(Magazine(s.targetProjectiles, s.enemyTorpedoes, s.lastEnemyFireTime), now);
    s.(targetProjectiles := m.pool, enemyTorpedoes := m.ammo, lastEnemyFireTime := m.lastFire)
  }

  function PlayerPdcs(s: State, now: int): (r: State)
    requires Shaped(s)
    ensures Shaped(r)
  {
    var b := PdcsAfter(Battery(s.playerPDCs, s.playerPDProjectiles), s.targetProjectiles, now, PdcsPerSide);
    s.(playerPDCs := b.pdcs, playerPDProjectiles := b.rounds)
  }

  function EnemyPdcs(s: State, now: int): (r: State)
    requires Shaped(s)
    ensures Shaped(r)
  {
    var b := PdcsAfter(Battery(s.targetPDCs, s.targetPDProjectiles), s.playerProjectiles, now, PdcsPerSide);
    s.(targetPDCs := b.pdcs, targetPDProjectiles := b.rounds)
  }

  function PlayerTorpedoes(s: State, w: Sweep): (r: State)
    requires Shaped(s)
    ensures Shaped(r)
  {
    var t := TorpedoesAfter(Sortie(s.playerProjectiles, s.targetPDProjectiles, s.enemyHealth, s.playerTorpedoes),
                            w, TorpedoSlots);
    s.(playerProjectiles := t.torpedoes, targetPDProjectiles := t.rounds,
       enemyHealth := t.health, playerTorpedoes := t.ammo)
  }

  function EnemyTorpedoes(s: State, w: Sweep): (r: State)
    requires Shaped(s)
    ensures Shaped(r)
  {
    var t := TorpedoesAfter(Sortie(s.targetProjectiles, s.playerPDProjectiles, s.playerHealth, s.enemyTorpedoes),
                            w, TorpedoSlots);
    s.(targetProjectiles := t.torpedoes, playerPDProjectiles := t.rounds,
       playerHealth := t.health, enemyTorpedoes := t.ammo)
  }

  function PlayerRounds(s: State, w: Sweep): (r: State)
    requires Shaped(s)
    ensures Shaped(r)
  {
    var b := RoundsAfter(Barrage(s.playerPDProjectiles, s.enemyHealth), w, RoundSlots);
    s.(playerPDProjectiles := b.rounds, enemyHealth := b.health)
  }

  function EnemyRounds(s: State, w: Sweep): (r: State)
    requires Shaped(s)
    ensures Shaped(r)
  {
    var b := RoundsAfter(Barrage(s.targetPDProjectiles, s.playerHealth), w, RoundSlots);
    s.(targetPDProjectiles := b.rounds, playerHealth := b.health)
  }

  /** The game-over check: the tick callback is removed once either ship is at
      0 health or below. */
  function GameOverCheck(s: State): (r: State)
    ensures r.over <==> s.over || s.playerHealth <= 0 || s.enemyHealth <= 0
    ensures r.(over := s.over) == s
  {
    if s.playerHealth <= 0 || s.enemyHealth <= 0 then s.(over := true) else s
  }

  /** Reference definition of one frame: nothing at all once the game is over,
      otherwise the nine steps of the tick in their fixed order. */
  function Tick(s: State, now: int, c: Contacts): (r: State)
    requires Shaped(s)
    ensures Shaped(r)
  {
    if s.over then s
    else
      var s1 := PlayerAutoFire(s, now);
      var s2 := EnemyAutoFire(s1, now);
      var s3 := PlayerPdcs(s2, now);
      var s4 := EnemyPdcs(s3, now);
      var s5 := PlayerTorpedoes(s4, c.player);
      var s6 := EnemyTorpedoes(s5, c.enemy);
      var s7 := PlayerRounds(s6, c.player);
      var s8 := EnemyRounds(s7, c.enemy);
      GameOverCheck(s8)
  }

  /** A run of frames, one tick each. */
  function Run(s: State, frames: seq<FrameInput>): (r: State)
    requires Shaped(s)
    ensures Shaped(r)
    decreases |frames|
  {
    if frames == [] then s else Run(Tick(s, frames[0].now, frames[0].contacts), frames[1..])
  }

  /** A side's auto-fire: with the gate shut nothing changes; with it open (more
      than 1000 ms, strictly, since the last volley, and a positive count) the
      volley time becomes `now` even when no slot was free and no torpedo left,
      and the first `min(4, #free)` hidden slots are shown. */
  lemma AutoFireEffect(m: Magazine, now: int)
    ensures !(now - m.lastFire > FireCooldown && m.ammo > 0) ==> AutoFire(m, now) == m
    ensures now - m.lastFire > FireCooldown && m.ammo > 0 ==>
      var r := AutoFire(m, now);
      && r.lastFire == now
      && m.ammo - r.ammo == Min(VolleySize, CountInactive(m.pool))
      && (CountInactive(m.pool) == 0 ==> r.pool == m.pool && r.ammo == m.ammo)
      && (forall i :: 0 <= i < |m.pool| ==>
            r.pool[i] == (m.pool[i] || CountInactive(m.pool[..i]) < VolleySize))
  {
    FireVolleyEffect(m.pool, m.ammo);
    if now - m.lastFire > FireCooldown && m.ammo > 0 && CountInactive(m.pool) == 0 {
      ActivateFirstInactiveCount(m.pool, VolleySize);
      var a := ActivateFirstInactive(m.pool, VolleySize);
      forall i | 0 <= i < |m.pool|
        ensures a[i] == m.pool[i]
      {
        CountInactivePositive(m.pool);
        if !m.pool[i] {
          assert false;
        }
      }
    }
  }

  /** Every tick keeps the state well formed; in particular no two PDCs of a
      side ever track the same enemy torpedo slot. */
  lemma TickKeepsWellFormed(s: State, now: int, c: Contacts)
    requires WellFormed(s)
    ensures WellFormed(Tick(s, now, c))
  {
    if !s.over {
      var s2 := EnemyAutoFire(PlayerAutoFire(s, now), now);
      PdcsAfterKeepsTargetsDistinct(Battery(s2.playerPDCs, s2.playerPDProjectiles), s2.targetProjectiles, now, PdcsPerSide);
      var s3 := PlayerPdcs(s2, now);
      PdcsAfterKeepsTargetsDistinct(Battery(s3.targetPDCs, s3.targetPDProjectiles), s3.playerProjectiles, now, PdcsPerSide);
    }
  }

  /** Health never rises within a tick: torpedo passes and round passes only
      take health away. */
  lemma TickNeverHeals(s: State, now: int, c: Contacts)
    requires Shaped(s)
    ensures Tick(s, now, c).playerHealth <= s.playerHealth
    ensures Tick(s, now, c).enemyHealth <= s.enemyHealth
  {
    if !s.over {
      var s4 := EnemyPdcs(PlayerPdcs(EnemyAutoFire(PlayerAutoFire(s, now), now), now), now);
      var s5 := PlayerTorpedoes(s4, c.player);
      var s6 := EnemyTorpedoes(s5, c.enemy);
      var s7 := PlayerRounds(s6, c.player);
      TorpedoesAfterDamage(Sortie(s4.playerProjectiles, s4.targetPDProjectiles, s4.enemyHealth, s4.playerTorpedoes),
                           c.player, TorpedoSlots);
      TorpedoesAfterDamage(Sortie(s5.targetProjectiles, s5.playerPDProjectiles, s5.playerHealth, s5.enemyTorpedoes),
                           c.enemy, TorpedoSlots);
      RoundsAfterEffect(Barrage(s6.playerPDProjectiles, s6.enemyHealth), c.player, RoundSlots);
      RoundsAfterEffect(Barrage(s7.targetPDProjectiles, s7.playerHealth), c.enemy, RoundSlots);
    }
  }

  /** After a tick of a running game, the game is over exactly when a ship is at
      0 health or below, and then the player has lost exactly when the player's
      ship is; a mutual kill is a player loss. */
  lemma TickOutcome(s: State, now: int, c: Contacts)
    requires Shaped(s) && !s.over
    ensures var r := Tick(s, now, c);
      && (r.over <==> r.playerHealth <= 0 || r.enemyHealth <= 0)
      && (Outcome(r) == PlayerLost <==> r.playerHealth <= 0)
      && (Outcome(r) == PlayerWon <==> r.playerHealth > 0 && r.enemyHealth <= 0)
  {
  }

  /** The volley times change only through the gates: after a tick of a running
      game a side's last volley time is `now` exactly when its gate was open at
      the start of the tick. */
  lemma TickVolleyTimes(s: State, now: int, c: Contacts)
    requires Shaped(s) && !s.over
    ensures var r := Tick(s, now, c);
      && r.lastPlayerFireTime ==
           (if now - s.lastPlayerFireTime > FireCooldown && s.playerTorpedoes > 0 then now else s.lastPlayerFireTime)
      && r.lastEnemyFireTime ==
           (if now - s.lastEnemyFireTime > FireCooldown && s.enemyTorpedoes > 0 then now else s.lastEnemyFireTime)
  {
  }

  /** Once the game is over no frame changes anything: not health, not a
      torpedo count, not a slot. */
  lemma {:induction false} RunAfterGameOver(s: State, frames: seq<FrameInput>)
    requires Shaped(s) && s.over
    ensures Run(s, frames) == s
  {
    if frames != [] {
      RunAfterGameOver(s, frames[1..]);
    }
  }

  /** The scene's combat state, with one tick callback (`Frame`). */
  class Battle {
    var playerHealth: int
    var enemyHealth: int
    var playerTorpedoes: int
    var enemyTorpedoes: int
    var lastPlayerFireTime: int
    var lastEnemyFireTime: int
    var over: bool
    const playerProjectiles: array<bool>
    const targetProjectiles: array<bool>
    const playerPDProjectiles: array<bool>
    const targetPDProjectiles: array<bool>
    const playerPDCs: seq<PDC>
    const targetPDCs: seq<PDC>

    /** The four pools are distinct arrays and the eight PDCs distinct objects. */
    predicate Separate() {
      && playerProjectiles != targetProjectiles
      && playerProjectiles != playerPDProjectiles && playerProjectiles != targetPDProjectiles
      && targetProjectiles != playerPDProjectiles && targetProjectiles != targetPDProjectiles
      && playerPDProjectiles != targetPDProjectiles
      && Unaliased(playerPDCs) && Unaliased(targetPDCs)
      && (forall q, q' :: 0 <= q < |playerPDCs| && 0 <= q' < |targetPDCs| ==> playerPDCs[q] != targetPDCs[q'])
    }

    function Model(): State
      reads this, playerProjectiles, targetProjectiles, playerPDProjectiles, targetPDProjectiles
      reads playerPDCs, targetPDCs
    {
      State(playerHealth, enemyHealth, playerTorpedoes, enemyTorpedoes,
            lastPlayerFireTime, lastEnemyFireTime,
            playerProjectiles[..], targetProjectiles[..],
            playerPDProjectiles[..], targetPDProjectiles[..],
            States(playerPDCs), States(targetPDCs), over)
    }

    ghost predicate Valid()
      reads this, playerProjectiles, targetProjectiles, playerPDProjectiles, targetPDProjectiles
      reads playerPDCs, targetPDCs
    {
      Separate() && WellFormed(Model())
    }

    /** The scene's set-up: full health, 20 torpedoes a side, timestamps 0,
        every slot hidden, every PDC idle. */
    constructor ()
      ensures Valid() && Model() == Initial()
    {
      playerHealth, enemyHealth := StartingHealth, StartingHealth;
      playerTorpedoes, enemyTorpedoes := StartingTorpedoes, StartingTorpedoes;
      lastPlayerFireTime, lastEnemyFireTime := 0, 0;
      over := false;
      var pool := NewPool(TorpedoSlots);
      playerProjectiles := pool;
      pool := NewPool(TorpedoSlots);
      targetProjectiles := pool;
      pool := NewPool(RoundSlots);
      playerPDProjectiles := pool;
      pool := NewPool(RoundSlots);
      targetPDProjectiles := pool;
      var pdcs := NewSide();
      playerPDCs := pdcs;
      pdcs := NewSide();
      targetPDCs := pdcs;
      new;
      IdleSide(playerPDCs);
      IdleSide(targetPDCs);
      assert Model() == Initial();
    }

    /** The tick callback: does nothing once the game is over (the callback has
        been removed), and otherwise runs the tick in its fixed order. */
    method Frame(currentTime: int, c: Contacts)
      requires Valid()
      modifies this, playerProjectiles, targetProjectiles, playerPDProjectiles, targetPDProjectiles
      modifies playerPDCs, targetPDCs
      ensures Valid()
      ensures Model() == Tick(old(Model()), currentTime, c)
    {
      if over {
        return;
      }
      ghost var s0 := Model();
      Volleys(currentTime);
      ghost var s2 := Model();
      PlayerPointDefense(currentTime);
      ghost var s3 := Model();
      EnemyPointDefense(currentTime);
      ghost var s4 := Model();
      TorpedoPasses(c);
      ghost var s6 := Model();
      RoundPasses(c);
      // Game over check
      if playerHealth <= 0 || enemyHealth <= 0 {
        over := true;
      }
      assert s2 == EnemyAutoFire(PlayerAutoFire(s0, currentTime), currentTime);
      assert s3 == PlayerPdcs(s2, currentTime);
      assert s4 == EnemyPdcs(s3, currentTime);
      assert s6 == EnemyTorpedoes(PlayerTorpedoes(s4, c.player), c.enemy);
      TickKeepsWellFormed(s0, currentTime, c);
    }

    /** Both sides' auto-fire blocks. */
    method Volleys(currentTime: int)
      requires Separate() && Shaped(Model())
      modifies this, playerProjectiles, targetProjectiles
      ensures Model() == EnemyAutoFire(PlayerAutoFire(old(Model()), currentTime), currentTime)
    {
      ghost var s := Model();
      playerTorpedoes, lastPlayerFireTime :=
        AutoFireSide(playerProjectiles, playerTorpedoes, lastPlayerFireTime, currentTime);
      assert Model() == PlayerAutoFire(s, currentTime);
      enemyTorpedoes, lastEnemyFireTime :=
        AutoFireSide(targetProjectiles, enemyTorpedoes, lastEnemyFireTime, currentTime);
    }

    /** The player's PDC loop, against the enemy's torpedoes. */
    method PlayerPointDefense(currentTime: int)
      requires Separate() && Shaped(Model())
      modifies playerPDProjectiles, playerPDCs
      ensures Model() == PlayerPdcs(old(Model()), currentTime)
    {
      ghost var s := Model();
      UpdatePdcs(playerPDCs, targetProjectiles, playerPDProjectiles, currentTime);
      forall q | 0 <= q < |targetPDCs|
        ensures targetPDCs[q].State() == s.targetPDCs[q]
      {
        assert targetPDCs[q] !in playerPDCs;
      }
      assert States(targetPDCs) == s.targetPDCs;
    }

    /** The enemy's PDC loop, against the player's torpedoes. */
    method EnemyPointDefense(currentTime: int)
      requires Separate() && Shaped(Model())
      modifies targetPDProjectiles, targetPDCs
      ensures Model() == EnemyPdcs(old(Model()), currentTime)
    {
      ghost var s := Model();
      UpdatePdcs(targetPDCs, playerProjectiles, targetPDProjectiles, currentTime);
      forall q | 0 <= q < |playerPDCs|
        ensures playerPDCs[q].State() == s.playerPDCs[q]
      {
        assert playerPDCs[q] !in targetPDCs;
      }
      assert States(playerPDCs) == s.playerPDCs;
    }

    /** Both sides' torpedo passes, the player's first. */
    method TorpedoPasses(c: Contacts)
      requires Separate() && Shaped(Model())
      modifies this, playerProjectiles, targetProjectiles, playerPDProjectiles, targetPDProjectiles
      ensures Model() == EnemyTorpedoes(PlayerTorpedoes(old(Model()), c.player), c.enemy)
    {
      ghost var s := Model();
      enemyHealth, playerTorpedoes :=
        UpdateProjectiles(playerProjectiles, targetPDProjectiles, c.player, enemyHealth, playerTorpedoes);
      assert Model() == PlayerTorpedoes(s, c.player);
      playerHealth, enemyTorpedoes :=
        UpdateProjectiles(targetProjectiles, playerPDProjectiles, c.enemy, playerHealth, enemyTorpedoes);
    }

    /** Both sides' point-defense round passes, the player's first. */
    method RoundPasses(c: Contacts)
      requires Separate() && Shaped(Model())
      modifies this, playerPDProjectiles, targetPDProjectiles
      ensures Model() == EnemyRounds(PlayerRounds(old(Model()), c.player), c.enemy)
    {
      ghost var s := Model();
      enemyHealth := UpdatePDProjectiles(playerPDProjectiles, c.player, enemyHealth);
      assert Model() == PlayerRounds(s, c.player);
      playerHealth := UpdatePDProjectiles(targetPDProjectiles, c.enemy, playerHealth);
    }
  }

  /** One side's auto-fire block: a volley, and the volley time set to
      `currentTime`, when the gate is open. */
  method AutoFireSide(projectiles: array<bool>, torpedoCount: int, lastFireTime: int, currentTime: int)
    returns (torpedoCount': int, lastFireTime': int)
    modifies projectiles
    ensures Magazine(projectiles[..], torpedoCount', lastFireTime') ==
      AutoFire(Magazine(old(projectiles[..]), torpedoCount, lastFireTime), currentTime)
  {
    torpedoCount', lastFireTime' := torpedoCount, lastFireTime;
    if currentTime - lastFireTime > FireCooldown && torpedoCount > 0 {
      torpedoCount' := FireTorpedo(projectiles, torpedoCount);
      lastFireTime' := currentTime;
    }
  }

  /** Builds a pool of `n` hidden slots (`createProjectilePool`). */
  method NewPool(n: nat) returns (a: array<bool>)
    ensures fresh(a) && a[..] == seq(n, _ => false)
  {
    a := new bool[n](_ => false);
  }

  /** Builds one side's four PDCs. */
  method NewSide() returns (pdcs: seq<PDC>)
    ensures |pdcs| == PdcsPerSide && Unaliased(pdcs)
    ensures forall q :: 0 <= q < |pdcs| ==> fresh(pdcs[q])
    ensures forall q :: 0 <= q < |pdcs| ==> pdcs[q].tracked == None && pdcs[q].lastFireTime == 0
  {
    var p0 := new PDC();
    var p1 := new PDC();
    var p2 := new PDC();
    var p3 := new PDC();
    pdcs := [p0, p1, p2, p3];
  }

  /** Freshly built PDCs track nothing and last fired at time 0. */
  lemma IdleSide(pdcs: seq<PDC>)
    requires |pdcs| == PdcsPerSide
    requires forall q :: 0 <= q < |pdcs| ==> pdcs[q].tracked == None && pdcs[q].lastFireTime == 0
    ensures States(pdcs) == seq(PdcsPerSide, _ => PdcState(None, 0))
  {
  }
}
