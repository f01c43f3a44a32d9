/** The per-frame simulation (`entitiesRef` and the functions acting on it):
    modifier countdowns, spawn cadence, motion and fall-out of fruits, the
    slice sweep and its consequences, and the start and end of a round.

    `World` is the value of the whole record; each method of `Game` is
    proved to move the record exactly as the matching function on `World`
    says, and the lemmas state what those functions guarantee. */
module Engine {
  import opened Fruits
  import opened Round
  import opened Leaderboard
  import opened Geometry
  import opened Spawner
  import Trail

  const MaxLives := 3
  /** Frames of slow motion (5 s at 60 fps) after slicing an ice fruit. */
  const SlowMoDuration := 300
  /** Frames of frenzy after slicing a giant fruit. */
  const FrenzyDuration := 300
  /** Frames between spawns in normal play. */
  const BaseSpawnRate := 55
  const FrenzySpawnRate := 6
  /** `BASE_SPAWN_RATE * 0.6`; the double-precision product is exactly 33. */
  const SlowMoSpawnRate := BaseSpawnRate * 6 / 10
  const Gravity: real := 0.4
  const SlowMoTimeScale: real := 0.4
  /** A fruit is gone once its centre is this far below the canvas. */
  const FalloutMargin := 50
  /** Minimum length of the last trail segment for it to cut. */
  const SpeedThreshold := 3
  const BombPenalty := 50
  const GiantBonus := 50

  /** A fruit on screen: its table category (`...type`), kinematic state,
      the random `id` and the `remove` flag set when it falls out. */
  datatype Fruit = Fruit(kind: Kind, pos: Point, vx: real, vy: real, rot: real, rotSpeed: real,
                         id: real, remove: bool)

  /** The six `Math.random()` values spawnFruit draws, each in [0, 1). */
  datatype SpawnDraws = SpawnDraws(kind: real, x: real, vx: real, vy: real, spin: real, id: real)

  /** What the hand tracker reported this frame: nothing, or the fingertip
      in canvas coordinates with `Math.atan2` of its move from the previous
      sample. */
  datatype Detection = NoHand | Hand(tip: Point, heading: real)

  /** The simulation record together with the round state kept beside it:
      `shownScore`, the score state the HUD and the result screen display;
      `gameState`; the time-mode clock; the leaderboard; and `roundBoard`,
      the leaderboard as it stood when the round started (the value the
      round's `endGame` closures see). */
  datatype World = World(fruits: seq<Fruit>, score: int, shownScore: int, lives: int, mode: Mode,
                         slowMoTimer: int, frenzyTimer: int, spawnTimer: int,
                         phase: Phase, timeLeft: int,
                         highScores: seq<Entry>, roundBoard: seq<Entry>)

  // ---------------------------------------------------------------------
  // Specification of each operation, as a function on World
  // ---------------------------------------------------------------------

  /** A modifier countdown: one frame off while it runs. */
  function CountDown(t: int): int {
    if t > 0 then t - 1 else t
  }

  /** Frames between spawns: frenzy wins over slow motion. */
  function SpawnRate(frenzyTimer: int, slowMoTimer: int): int {
    if frenzyTimer > 0 then FrenzySpawnRate
    else if slowMoTimer > 0 then SlowMoSpawnRate
    else BaseSpawnRate
  }

  function TimeScale(slowMoTimer: int): real {
    if slowMoTimer > 0 then SlowMoTimeScale else 1.0
  }

  /** endGame: the result screen, and the board rebuilt from the board the
      round started with plus this round's entry. */
  function Ended(w: World): World {
    w.(phase := Finished, highScores := UpdateHighScores(w.roundBoard, Entry(w.score, w.mode)))
  }

  /** syncLives: the round ends when no life is left. */
  function LivesSynced(w: World): World {
    if w.lives <= 0 then Ended(w) else w
  }

  function LifeLost(w: World): World {
    LivesSynced(w.(lives := w.lives - 1))
  }

  /** The fruit spawnFruit pushes: thrown up from below the bottom edge. */
  function NewFruit(kind: Kind, d: SpawnDraws, width: nat, height: nat): Fruit {
    Fruit(kind, Point(d.x * (width as real - 100.0) + 50.0, (height + 50) as real),
          (d.vx - 0.5) * 8.0, -(d.vy * 10.0 + 14.0), 0.0, (d.spin - 0.5) * 0.2, d.id, false)
  }

  function Spawn(w: World, width: nat, height: nat, d: SpawnDraws): World {
    var kind := SpawnKind(d.kind * TotalWeight as real, w.frenzyTimer > 0);
    w.(fruits := w.fruits + [NewFruit(kind, d, width, height)])
  }

  /** One step of motion, scaled by the time scale. */
  function Move(f: Fruit, ts: real): Fruit {
    f.(pos := Point(f.pos.x + f.vx * ts, f.pos.y + f.vy * ts),
       vy := f.vy + Gravity * ts,
       rot := f.rot + f.rotSpeed * ts)
  }

  predicate FellOut(f: Fruit, height: nat) {
    f.pos.y > (height + FalloutMargin) as real
  }

  /** Only a plain fruit lost in survival mode costs a life. */
  predicate Penalized(mode: Mode, f: Fruit) {
    mode == Survival && f.kind.IsPlain()
  }

  function StepFruit(f: Fruit, ts: real, height: nat): Fruit {
    var m := Move(f, ts);
    if FellOut(m, height) then m.(remove := true) else m
  }

  function Advance(fs: seq<Fruit>, ts: real, height: nat): (r: seq<Fruit>)
    ensures |r| == |fs|
  {
    seq(|fs|, i requires 0 <= i < |fs| => StepFruit(fs[i], ts, height))
  }

  /** The penalty, if any, for one moved fruit. */
  function Fallout(w: World, f: Fruit, height: nat): World {
    if FellOut(f, height) && Penalized(w.mode, f) then LifeLost(w) else w
  }

  /** The penalties for a list of moved fruits, in list order. */
  function FalloutAll(w: World, fs: seq<Fruit>, height: nat): World
    decreases |fs|
  {
    if fs == [] then w else Fallout(FalloutAll(w, fs[..|fs| - 1], height), fs[|fs| - 1], height)
  }

  /** `fruits.filter(f => !f.remove)`. */
  function Compact(fs: seq<Fruit>): seq<Fruit>
  {
    if fs == [] then [] else (if fs[0].remove then [] else [fs[0]]) + Compact(fs[1..])
  }

  /** The first half of updatePhysics: modifier countdowns and the spawn
      cadence. */
  function CountersSpec(w: World, width: nat, height: nat, d: SpawnDraws): World {
    var slow := CountDown(w.slowMoTimer);
    var frenzy := CountDown(w.frenzyTimer);
    var w1 := w.(slowMoTimer := slow, frenzyTimer := frenzy, spawnTimer := w.spawnTimer + 1);
    if w1.spawnTimer > SpawnRate(frenzy, slow) then Spawn(w1, width, height, d).(spawnTimer := 0) else w1
  }

  /** The second half: every fruit moves, a fruit below the canvas is
      flagged (and penalised), and flagged fruits are dropped. */
  function MoveSpec(w: World, ts: real, height: nat): World {
    var moved := Advance(w.fruits, ts, height);
    FalloutAll(w, moved, height).(fruits := Compact(moved))
  }

  /** updatePhysics for one frame. */
  function TickSpec(w: World, width: nat, height: nat, d: SpawnDraws): World {
    MoveSpec(CountersSpec(w, width, height, d), TimeScale(CountDown(w.slowMoTimer)), height)
  }

  /** handleSlice without the splice: the consequence of slicing a fruit of
      the given category, with the displayed score following every score
      change (see SliceEffectAsWritten for the bomb branch as written). */
  function SliceEffect(w: World, kind: Kind): World {
    if kind.IsBomb() then
      (if w.mode == Survival then LifeLost(w)
       else w.(score := w.score - BombPenalty, shownScore := w.score - BombPenalty))
    else if kind.IsIce() then w.(slowMoTimer := SlowMoDuration)
    else if kind.IsGiant() then
      w.(frenzyTimer := FrenzyDuration, score := w.score + GiantBonus, shownScore := w.score + GiantBonus)
    else w.(score := w.score + kind.Score(), shownScore := w.score + kind.Score())
  }

  /** handleSlice as written: the time-mode bomb penalty changes the score
      but does not pass it on to the displayed score. */
  function SliceEffectAsWritten(w: World, kind: Kind): (r: World)
    ensures r.(shownScore := SliceEffect(w, kind).shownScore) == SliceEffect(w, kind)
    ensures kind.IsBomb() && w.mode == Time ==> r.shownScore == w.shownScore
  {
    if kind.IsBomb() && w.mode == Time then w.(score := w.score - BombPenalty)
    else SliceEffect(w, kind)
  }

  /** handleSlice(fruit, k): splice the fruit out, then apply its effect. */
  function SliceAt(w: World, k: nat): World
    requires k < |w.fruits|
  {
    SliceEffect(w.(fruits := w.fruits[..k] + w.fruits[k + 1..]), w.fruits[k].kind)
  }

  predicate HitFruit(f: Fruit, v: Point, p: Point) {
    Hit(f.pos, f.kind.Radius(), v, p)
  }

  /** The `forEach` of detectCollisions from index k on: it visits the
      indices below the length n the list had when the sweep began, skips an
      index the shrinking list no longer has, and slices a hit fruit at once,
      so the fruit shifted into a sliced fruit's slot is not visited. */
  function Sweep(w: World, k: nat, n: nat, v: Point, p: Point): World
    decreases n - k
  {
    if k >= n then w
    else
      var w' := if k < |w.fruits| && HitFruit(w.fruits[k], v, p) then SliceAt(w, k) else w;
      Sweep(w', k + 1, n, v, p)
  }

  /** Whether the last trail segment is fast enough to cut. */
  predicate FastEnough(v: Point, p: Point) {
    !(DistSq(v, p) < (SpeedThreshold * SpeedThreshold) as real)
  }

  /** detectCollisions: nothing without two trail samples or with a slow
      last segment; otherwise one sweep over the fruits. */
  function Detect(w: World, history: seq<Point>): World {
    if |history| < 2 then w
    else
      var v, p := history[|history| - 2], history[|history| - 1];
      if !FastEnough(v, p) then w else Sweep(w, 0, |w.fruits|, v, p)
  }

  /** startGame(mode). */
  function StartSpec(w: World, mode: Mode): World {
    w.(fruits := [], score := 0, shownScore := 0, lives := MaxLives, mode := mode,
       slowMoTimer := 0, frenzyTimer := 0, spawnTimer := 0,
       phase := Next(Start(mode)), timeLeft := RoundTime, roundBoard := w.highScores)
  }

  /** One second of the time-mode clock. */
  function SecondSpec(w: World): World {
    var r := CountdownStep(w.timeLeft);
    var w' := w.(timeLeft := r.0);
    if r.1 then Ended(w') else w'
  }

  /** One animation frame of a round in progress: physics, then detection
      against the trail as it stands after this frame's sample. */
  function FrameSpec(w: World, history: seq<Point>, width: nat, height: nat, d: SpawnDraws): World {
    if w.phase == Playing then Detect(TickSpec(w, width, height, d), history) else w
  }

  // ---------------------------------------------------------------------
  // Fall-out penalties
  // ---------------------------------------------------------------------

  /** The number of moved fruits that fell out and cost a life. */
  function MissCount(fs: seq<Fruit>, mode: Mode, height: nat): (c: nat)
    ensures c <= |fs|
    ensures mode == Time ==> c == 0
  {
    if fs == [] then 0
    else MissCount(fs[..|fs| - 1], mode, height)
         + (if FellOut(fs[|fs| - 1], height) && Penalized(mode, fs[|fs| - 1]) then 1 else 0)
  }

  /** Each fruit that fell out costs exactly one life, and only a plain one
      in survival mode; the round ends as soon as a penalty leaves no life
      (the board then gets this round's entry); nothing else changes. */
  lemma {:induction false} FalloutAllPenalties(w: World, fs: seq<Fruit>, height: nat)
    ensures var r := FalloutAll(w, fs, height);
      && r.lives == w.lives - MissCount(fs, w.mode, height)
      && r.(lives := w.lives, phase := w.phase, highScores := w.highScores) == w
      && (MissCount(fs, w.mode, height) > 0 && r.lives <= 0 ==>
            r.phase == Finished && r.highScores == UpdateHighScores(w.roundBoard, Entry(w.score, w.mode)))
      && (r.lives > 0 || MissCount(fs, w.mode, height) == 0 ==>
            r.phase == w.phase && r.highScores == w.highScores)
    decreases |fs|
  {
    if fs != [] {
      FalloutAllPenalties(w, fs[..|fs| - 1], height);
    }
  }

  /** One turn of the loop of updatePhysics: the penalty of the i-th moved
      fruit extends the penalties of the fruits before it. */
  lemma FalloutStep(w: World, before: World, after: World, moved: seq<Fruit>, i: nat, height: nat)
    requires i < |moved|
    requires before.(fruits := w.fruits) == FalloutAll(w, moved[..i], height)
    requires after.(fruits := before.fruits) == Fallout(before, moved[i], height)
    ensures after.(fruits := w.fruits) == FalloutAll(w, moved[..i + 1], height)
  {
    assert moved[..i + 1][..i] == moved[..i];
    assert FalloutAll(w, moved[..i + 1], height) == Fallout(before.(fruits := w.fruits), moved[i], height);
  }

  /** The state after the loop of updatePhysics, with the list compacted,
      is MoveSpec's. */
  lemma MoveSpecAfterLoop(w: World, s0: World, ts: real, height: nat)
    requires s0.fruits == Advance(w.fruits, ts, height)
    requires s0.(fruits := w.fruits) == FalloutAll(w, s0.fruits, height)
    ensures s0.(fruits := Compact(s0.fruits)) == MoveSpec(w, ts, height)
  {
    FalloutAllPenalties(w, s0.fruits, height);
  }

  // ---------------------------------------------------------------------
  // Sequences of fruits
  // ---------------------------------------------------------------------

  /** a is b with some elements left out, the rest in their original order. */
  predicate Sub<T(==)>(a: seq<T>, b: seq<T>)
    decreases |b|
  {
    if a == [] then true
    else if b == [] then false
    else (a[0] == b[0] && Sub(a[1..], b[1..])) || Sub(a, b[1..])
  }

  lemma {:induction false} SubRefl<T>(a: seq<T>)
    ensures Sub(a, a)
  {
    if a != [] {
      SubRefl(a[1..]);
    }
  }

  lemma {:induction false} SubTrans<T>(a: seq<T>, b: seq<T>, c: seq<T>)
    requires Sub(a, b) && Sub(b, c)
    ensures Sub(a, c)
    decreases |c|
  {
    if a != [] {
      if b[0] == c[0] && Sub(b[1..], c[1..]) {
        if a[0] == b[0] && Sub(a[1..], b[1..]) {
          SubTrans(a[1..], b[1..], c[1..]);
        } else {
          SubTrans(a, b[1..], c[1..]);
        }
      } else {
        SubTrans(a, b, c[1..]);
      }
    }
  }

  /** Splicing one element out leaves a subsequence. */
  lemma {:induction false} SubSplice<T>(s: seq<T>, k: nat)
    requires k < |s|
    ensures Sub(s[..k] + s[k + 1..], s)
  {
    if k == 0 {
      assert s[..0] + s[1..] == s[1..];
      SubRefl(s[1..]);
    } else {
      SubSplice(s[1..], k - 1);
      assert s[..k] + s[k + 1..] == [s[0]] + (s[1..][..k - 1] + s[1..][k..]);
    }
  }

  /** `fruits.filter(f => !f.remove)` keeps exactly the unflagged fruits, in
      their order, and filtering twice is filtering once. */
  lemma {:induction false} CompactFilters(fs: seq<Fruit>)
    ensures forall f :: f in Compact(fs) <==> f in fs && !f.remove
    ensures Sub(Compact(fs), fs)
    ensures |Compact(fs)| <= |fs|
    ensures Compact(Compact(fs)) == Compact(fs)
    ensures (forall i :: 0 <= i < |fs| ==> !fs[i].remove) ==> Compact(fs) == fs
  {
    if fs != [] {
      CompactFilters(fs[1..]);
      if fs[0].remove {
        assert Compact(fs) == Compact(fs[1..]);
      } else {
        assert Compact(fs) == [fs[0]] + Compact(fs[1..]);
        assert Compact(fs)[1..] == Compact(fs[1..]);
        assert Compact(Compact(fs)) == [fs[0]] + Compact(Compact(fs[1..]));
      }
    }
  }

  /** The number of bombs in a list. */
  function Bombs(fs: seq<Fruit>): (n: nat)
    ensures n <= |fs|
  {
    if fs == [] then 0 else (if fs[0].kind.IsBomb() then 1 else 0) + Bombs(fs[1..])
  }

  lemma {:induction false} BombsAppend(a: seq<Fruit>, b: seq<Fruit>)
    ensures Bombs(a + b) == Bombs(a) + Bombs(b)
  {
    if a != [] {
      BombsAppend(a[1..], b);
      assert (a + b)[1..] == a[1..] + b;
    } else {
      assert a + b == b;
    }
  }

  /** Moving fruits never changes their categories, so the bombs stay. */
  lemma {:induction false} BombsSameKinds(a: seq<Fruit>, b: seq<Fruit>)
    requires |a| == |b|
    requires forall i :: 0 <= i < |a| ==> a[i].kind == b[i].kind
    ensures Bombs(a) == Bombs(b)
  {
    if a != [] {
      BombsSameKinds(a[1..], b[1..]);
    }
  }

  lemma {:induction false} BombsCompact(fs: seq<Fruit>)
    ensures Bombs(Compact(fs)) <= Bombs(fs)
  {
    if fs != [] {
      BombsCompact(fs[1..]);
      if fs[0].remove {
        assert Compact(fs) == Compact(fs[1..]);
      } else {
        assert Compact(fs) == [fs[0]] + Compact(fs[1..]);
        assert Compact(fs)[1..] == Compact(fs[1..]);
      }
    }
  }

  // ---------------------------------------------------------------------
  // What one frame of physics guarantees
  // ---------------------------------------------------------------------

  /** The record's invariant: modifier timers within their durations, the
      spawn counter within the base cadence, never more than the starting
      lives, the displayed score equal to the score, and no flagged fruit
      left in the list between frames. */
  predicate Consistent(w: World) {
    && 0 <= w.slowMoTimer <= SlowMoDuration
    && 0 <= w.frenzyTimer <= FrenzyDuration
    && 0 <= w.spawnTimer <= BaseSpawnRate
    && w.lives <= MaxLives
    && w.shownScore == w.score
    && forall i :: 0 <= i < |w.fruits| ==> !w.fruits[i].remove
  }

  /** The fruits of a frame after they have moved, before compaction. */
  function Moved(w: World, width: nat, height: nat, d: SpawnDraws): (r: seq<Fruit>)
    ensures |r| == |CountersSpec(w, width, height, d).fruits|
  {
    Advance(CountersSpec(w, width, height, d).fruits, TimeScale(CountDown(w.slowMoTimer)), height)
  }

  /** A fresh round is consistent, is being played with full lives and an
      empty screen, and will report to the leaderboard as it stood. */
  lemma StartIsConsistent(w: World, m: Mode)
    ensures var r := StartSpec(w, m);
      Consistent(r) && r.phase == Playing && r.lives == MaxLives && r.fruits == []
      && r.roundBoard == w.highScores && r.highScores == w.highScores
  {
  }

  /** The first half of a frame: the countdowns run down by one frame to
      zero, the spawn counter stays within this frame's rate and resets
      exactly when the walk's fruit is appended, and nothing else changes. */
  lemma CountersFacts(w: World, width: nat, height: nat, d: SpawnDraws)
    requires Consistent(w)
    ensures var c := CountersSpec(w, width, height, d);
      && c.slowMoTimer == (if w.slowMoTimer == 0 then 0 else w.slowMoTimer - 1)
      && c.frenzyTimer == (if w.frenzyTimer == 0 then 0 else w.frenzyTimer - 1)
      && 0 <= c.spawnTimer <= SpawnRate(c.frenzyTimer, c.slowMoTimer)
      && c.spawnTimer == (if w.spawnTimer + 1 > SpawnRate(c.frenzyTimer, c.slowMoTimer) then 0
                          else w.spawnTimer + 1)
      && c.fruits == (if c.spawnTimer == 0
                      then w.fruits + [NewFruit(SpawnKind(d.kind * TotalWeight as real, c.frenzyTimer > 0), d, width, height)]
                      else w.fruits)
      && (forall i :: 0 <= i < |c.fruits| ==> !c.fruits[i].remove)
      && c.score == w.score && c.shownScore == w.shownScore && c.lives == w.lives
      && c.mode == w.mode && c.phase == w.phase && c.timeLeft == w.timeLeft
      && c.highScores == w.highScores && c.roundBoard == w.roundBoard
  {
  }

  /** The second half: the survivors are exactly the moved fruits still on
      the canvas, in order and unflagged; each penalised fall costs one life
      and time mode costs none; only lives, the screen state and the board
      can change besides the list. */
  lemma MoveFacts(w: World, ts: real, height: nat)
    requires forall i :: 0 <= i < |w.fruits| ==> !w.fruits[i].remove
    ensures var r, moved := MoveSpec(w, ts, height), Advance(w.fruits, ts, height);
      && (forall f :: f in r.fruits <==> f in moved && !FellOut(f, height))
      && Sub(r.fruits, moved)
      && |r.fruits| <= |w.fruits|
      && (forall i :: 0 <= i < |r.fruits| ==> !r.fruits[i].remove)
      && r.lives == w.lives - MissCount(moved, w.mode, height)
      && r.(fruits := w.fruits, lives := w.lives, phase := w.phase, highScores := w.highScores) == w
      && (w.mode == Time ==> r.lives == w.lives && r.phase == w.phase && r.highScores == w.highScores)
  {
    var moved := Advance(w.fruits, ts, height);
    assert forall i :: 0 <= i < |moved| ==> (moved[i].remove <==> FellOut(moved[i], height));
    FalloutAllPenalties(w, moved, height);
    CompactFilters(moved);
  }

  /** One frame of physics: the two halves together keep the record
      consistent, spawn at most one fruit, keep the score, mode and clock,
      and cost exactly one life per penalised fall. */
  lemma TickFacts(w: World, width: nat, height: nat, d: SpawnDraws)
    requires Consistent(w)
    ensures var r := TickSpec(w, width, height, d);
      var c := CountersSpec(w, width, height, d);
      var moved := Moved(w, width, height, d);
      && Consistent(r)
      && r.slowMoTimer == CountDown(w.slowMoTimer) && r.frenzyTimer == CountDown(w.frenzyTimer)
      && r.spawnTimer == (if w.spawnTimer + 1 > SpawnRate(r.frenzyTimer, r.slowMoTimer) then 0
                          else w.spawnTimer + 1)
      && |c.fruits| == |w.fruits| + (if r.spawnTimer == 0 then 1 else 0)
      && |r.fruits| <= |w.fruits| + 1
      && r.score == w.score && r.mode == w.mode && r.timeLeft == w.timeLeft
      && r.roundBoard == w.roundBoard
      && (forall f :: f in r.fruits <==> f in moved && !FellOut(f, height))
      && Sub(r.fruits, moved)
      && r.lives == w.lives - MissCount(moved, w.mode, height)
      && (w.mode == Time ==> r.lives == w.lives && r.phase == w.phase && r.highScores == w.highScores)
  {
    var c := CountersSpec(w, width, height, d);
    CountersFacts(w, width, height, d);
    MoveFacts(c, TimeScale(CountDown(w.slowMoTimer)), height);
  }

  /** The counters after one frame per draw in ds, in order. */
  function CountersAfter(w: World, width: nat, height: nat, ds: seq<SpawnDraws>): World
    decreases |ds|
  {
    if ds == [] then w
    else CountersSpec(CountersAfter(w, width, height, ds[..|ds| - 1]), width, height, ds[|ds| - 1])
  }

  lemma NextRemainder(a: nat)
    ensures (a + 1) % (BaseSpawnRate + 1) == (if a % (BaseSpawnRate + 1) == BaseSpawnRate then 0
                                              else a % (BaseSpawnRate + 1) + 1)
    ensures (a + 1) / (BaseSpawnRate + 1) == a / (BaseSpawnRate + 1)
                                             + (if a % (BaseSpawnRate + 1) == BaseSpawnRate then 1 else 0)
  {
  }

  /** Without slow motion or frenzy, `spawnTimer > 55` fires once every 56
      frames: after n frames from counter s, the counter is (s + n) mod 56
      and (s + n) div 56 fruits have been spawned. */
  lemma {:induction false} SpawnsEvery56Frames(w: World, width: nat, height: nat, ds: seq<SpawnDraws>)
    requires w.slowMoTimer == 0 && w.frenzyTimer == 0 && 0 <= w.spawnTimer <= BaseSpawnRate
    ensures var r := CountersAfter(w, width, height, ds);
      && r.slowMoTimer == 0 && r.frenzyTimer == 0
      && r.spawnTimer == (w.spawnTimer + |ds|) % (BaseSpawnRate + 1)
      && |r.fruits| == |w.fruits| + (w.spawnTimer + |ds|) / (BaseSpawnRate + 1)
    decreases |ds|
  {
    if ds != [] {
      var prev := ds[..|ds| - 1];
      SpawnsEvery56Frames(w, width, height, prev);
      NextRemainder(w.spawnTimer + |prev|);
    }
  }

  /** While frenzy lasts through a frame, that frame adds no bomb. */
  lemma FrenzyFrameAddsNoBomb(w: World, width: nat, height: nat, d: SpawnDraws)
    requires CountDown(w.frenzyTimer) > 0
    ensures Bombs(TickSpec(w, width, height, d).fruits) <= Bombs(w.fruits)
  {
    var c := CountersSpec(w, width, height, d);
    var moved := Moved(w, width, height, d);
    if |c.fruits| > |w.fruits| {
      var f := c.fruits[|w.fruits|];
      FrenzyNeverSpawnsBomb(d.kind * TotalWeight as real);
      assert c.fruits == w.fruits + [f];
      BombsAppend(w.fruits, [f]);
    } else {
      assert c.fruits == w.fruits;
    }
    BombsSameKinds(c.fruits, moved);
    BombsCompact(moved);
    FalloutAllPenalties(c, moved, height);
  }

  // ---------------------------------------------------------------------
  // What a slice and a sweep guarantee
  // ---------------------------------------------------------------------

  /** Slicing the fruit at k splices exactly that fruit out, keeping the
      others in order. In time mode the score moves by exactly the table's
      score of the category (a bomb's -50, a giant's 50, an ice fruit's 0);
      in survival a bomb takes a life instead of points and ends the round
      when it takes the last one, putting the round's score on the board;
      no other slice touches the board. Ice restarts slow motion, a giant
      restarts frenzy, and the record stays consistent. */
  lemma SliceOutcome(w: World, k: nat)
    requires k < |w.fruits|
    ensures var r, kind := SliceAt(w, k), w.fruits[k].kind;
      && r.fruits == w.fruits[..k] + w.fruits[k + 1..]
      && Sub(r.fruits, w.fruits)
      && (w.mode == Time ==> r.score == w.score + kind.Score() && r.lives == w.lives && r.phase == w.phase)
      && (w.mode == Survival ==>
            r.score == w.score + (if kind.IsBomb() then 0 else kind.Score())
            && r.lives == w.lives - (if kind.IsBomb() then 1 else 0))
      && r.phase == (if w.mode == Survival && kind.IsBomb() && w.lives <= 1 then Finished else w.phase)
      && (w.mode == Survival && kind.IsBomb() && w.lives <= 1 ==>
            r.highScores == UpdateHighScores(w.roundBoard, Entry(w.score, Survival)))
      && (!(w.mode == Survival && kind.IsBomb() && w.lives <= 1) ==> r.highScores == w.highScores)
      && r.slowMoTimer == (if kind.IsIce() then SlowMoDuration else w.slowMoTimer)
      && r.frenzyTimer == (if kind.IsGiant() then FrenzyDuration else w.frenzyTimer)
      && r.mode == w.mode && r.spawnTimer == w.spawnTimer && r.timeLeft == w.timeLeft
      && r.roundBoard == w.roundBoard
      && (Consistent(w) ==> Consistent(r))
  {
    SubSplice(w.fruits, k);
    var c := w.fruits[..k] + w.fruits[k + 1..];
    assert forall i :: 0 <= i < |c| ==> c[i] == w.fruits[if i < k then i else i + 1];
  }

  /** The splice of handleSlice: the fruit at k goes, every other fruit
      keeps its place relative to the others. */
  lemma SliceSplices(w: World, k: nat)
    requires k < |w.fruits|
    ensures SliceAt(w, k).fruits == w.fruits[..k] + w.fruits[k + 1..]
    ensures |SliceAt(w, k).fruits| == |w.fruits| - 1
    ensures forall i :: 0 <= i < |w.fruits| - 1 ==>
              SliceAt(w, k).fruits[i] == w.fruits[if i < k then i else i + 1]
  {
  }

  /** A sweep that starts at or past the end of the list changes nothing. */
  lemma {:induction false} SweepPastEnd(w: World, k: nat, n: nat, v: Point, p: Point)
    requires k >= |w.fruits|
    ensures Sweep(w, k, n, v, p) == w
    decreases n - k
  {
    if k < n {
      SweepPastEnd(w, k + 1, n, v, p);
    }
  }

  /** A sweep only removes fruits (keeping the rest in order), never gives a
      life back, keeps the record consistent, and in time mode costs no life
      and does not end the round. */
  lemma {:induction false} SweepFacts(w: World, k: nat, n: nat, v: Point, p: Point)
    requires Consistent(w)
    ensures var r := Sweep(w, k, n, v, p);
      && Sub(r.fruits, w.fruits)
      && Consistent(r)
      && r.lives <= w.lives
      && (r.phase == w.phase || (r.phase == Finished && r.lives <= 0))
      && r.mode == w.mode && r.spawnTimer == w.spawnTimer && r.timeLeft == w.timeLeft
      && r.roundBoard == w.roundBoard
      && (w.mode == Time ==> r.lives == w.lives && r.phase == w.phase && r.highScores == w.highScores)
    decreases n - k
  {
    if k >= n {
      SubRefl(w.fruits);
    } else if k < |w.fruits| && HitFruit(w.fruits[k], v, p) {
      var w' := SliceAt(w, k);
      SliceOutcome(w, k);
      SweepFacts(w', k + 1, n, v, p);
      SubTrans(Sweep(w', k + 1, n, v, p).fruits, w'.fruits, w.fruits);
    } else {
      SweepFacts(w, k + 1, n, v, p);
    }
  }

  /** A blade that touches no fruit from index k on changes nothing. */
  lemma {:induction false} SweepMissingAll(w: World, k: nat, n: nat, v: Point, p: Point)
    requires forall i :: k <= i < |w.fruits| ==> !HitFruit(w.fruits[i], v, p)
    ensures Sweep(w, k, n, v, p) == w
    decreases n - k
  {
    if k < n {
      SweepMissingAll(w, k + 1, n, v, p);
    }
  }

  /** Only a fruit under the blade can be sliced: every fruit the blade
      misses is still there after the sweep, so every fruit that is gone
      was hit. */
  lemma {:induction false} SweepKeepsUnhit(w: World, k: nat, n: nat, v: Point, p: Point)
    ensures var r := Sweep(w, k, n, v, p);
      && (forall f :: f in w.fruits && !HitFruit(f, v, p) ==> f in r.fruits)
      && (forall f :: f in w.fruits && f !in r.fruits ==> HitFruit(f, v, p))
    decreases n - k
  {
    if k < n {
      if k < |w.fruits| && HitFruit(w.fruits[k], v, p) {
        var w' := SliceAt(w, k);
        SweepKeepsUnhit(w', k + 1, n, v, p);
        SliceSplices(w, k);
        forall f | f in w.fruits && !HitFruit(f, v, p)
          ensures f in w'.fruits
        {
          var i :| 0 <= i < |w.fruits| && w.fruits[i] == f;
          if i < k {
            assert w'.fruits[i] == f;
          } else {
            assert w'.fruits[i - 1] == f;
          }
        }
      } else {
        SweepKeepsUnhit(w, k + 1, n, v, p);
      }
    }
  }

  /** What a list of fruits keeps after a sweep over all of it, stated on
      the list alone: a missed fruit stays; a hit fruit goes and the fruit
      after it, shifted into its slot, stays untested. */
  function Survivors(s: seq<Fruit>, v: Point, p: Point): (r: seq<Fruit>)
    ensures |r| <= |s|
    decreases |s|
  {
    if s == [] then []
    else if !HitFruit(s[0], v, p) then [s[0]] + Survivors(s[1..], v, p)
    else if |s| == 1 then []
    else [s[1]] + Survivors(s[2..], v, p)
  }

  /** The sweep from index k leaves the fruits before k alone and keeps
      exactly the survivors of the rest: every visited fruit under the blade
      is sliced, every visited fruit it misses stays. */
  lemma {:induction false} SweepIsSurvivors(w: World, k: nat, n: nat, v: Point, p: Point)
    requires k <= |w.fruits| <= n
    ensures Sweep(w, k, n, v, p).fruits == w.fruits[..k] + Survivors(w.fruits[k..], v, p)
    decreases n - k
  {
    var c := w.fruits;
    if k == |c| {
      SweepPastEnd(w, k, n, v, p);
      assert c[..k] == c && c[k..] == [];
    } else if !HitFruit(c[k], v, p) {
      SweepIsSurvivors(w, k + 1, n, v, p);
      SurvivorsKeep(c, k, v, p);
    } else {
      var w' := SliceAt(w, k);
      assert Sweep(w, k, n, v, p) == Sweep(w', k + 1, n, v, p);
      SliceSplices(w, k);
      if k + 1 == |c| {
        SweepPastEnd(w', k + 1, n, v, p);
        SurvivorsLast(c, k, v, p);
      } else {
        SweepIsSurvivors(w', k + 1, n, v, p);
        SurvivorsSkip(c, k, v, p);
      }
    }
  }

  lemma SurvivorsKeep(c: seq<Fruit>, k: nat, v: Point, p: Point)
    requires k < |c| && !HitFruit(c[k], v, p)
    ensures c[..k + 1] + Survivors(c[k + 1..], v, p) == c[..k] + Survivors(c[k..], v, p)
  {
    assert c[k..][1..] == c[k + 1..];
    assert c[..k + 1] == c[..k] + [c[k]];
  }

  lemma SurvivorsLast(c: seq<Fruit>, k: nat, v: Point, p: Point)
    requires k + 1 == |c| && HitFruit(c[k], v, p)
    ensures c[..k] + c[k + 1..] == c[..k] + Survivors(c[k..], v, p)
  {
    assert c[k..] == [c[k]];
    assert c[k + 1..] == [];
  }

  lemma SurvivorsSkip(c: seq<Fruit>, k: nat, v: Point, p: Point)
    requires k + 1 < |c| && HitFruit(c[k], v, p)
    ensures var c' := c[..k] + c[k + 1..];
      c'[..k + 1] + Survivors(c'[k + 1..], v, p) == c[..k] + Survivors(c[k..], v, p)
  {
    var c' := c[..k] + c[k + 1..];
    assert c'[..k + 1] == c[..k] + [c[k + 1]];
    assert c'[k + 1..] == c[k + 2..];
    assert c[k..][2..] == c[k + 2..];
  }

  /** detectCollisions past its two gates leaves exactly the survivors of
      the whole list under the last trail segment. */
  lemma DetectIsSurvivors(w: World, history: seq<Point>)
    requires |history| >= 2 && FastEnough(history[|history| - 2], history[|history| - 1])
    ensures Detect(w, history).fruits == Survivors(w.fruits, history[|history| - 2], history[|history| - 1])
  {
    SweepIsSurvivors(w, 0, |w.fruits|, history[|history| - 2], history[|history| - 1]);
    assert w.fruits[..0] == [] && w.fruits[0..] == w.fruits;
  }

  /** Of a fruit under the blade followed by one it misses, the sweep
      slices the first and keeps the second. */
  lemma HitThenMissKeepsMiss(w: World, a: Fruit, b: Fruit, v: Point, p: Point)
    requires w.fruits == [a, b] && HitFruit(a, v, p) && !HitFruit(b, v, p)
    ensures Sweep(w, 0, 2, v, p).fruits == [b]
  {
    SweepIsSurvivors(w, 0, 2, v, p);
    assert w.fruits[..0] + Survivors(w.fruits[0..], v, p) == [b] + Survivors([], v, p);
  }

  /** The elements at odd positions: the second, the fourth, ... */
  function Odds<T>(s: seq<T>): (r: seq<T>)
    ensures |r| == |s| / 2
  {
    if |s| < 2 then [] else [s[1]] + Odds(s[2..])
  }

  /** When the blade covers every fruit, the sweep from index k on slices
      the fruit at k, the fruit shifted into its slot escapes, and so on:
      the fruits at odd offsets from k survive, the rest before k untouched. */
  lemma {:induction false} SweepSkipsShifted(w: World, k: nat, n: nat, v: Point, p: Point)
    requires k <= |w.fruits| <= n
    requires forall i :: 0 <= i < |w.fruits| ==> HitFruit(w.fruits[i], v, p)
    ensures Sweep(w, k, n, v, p).fruits == w.fruits[..k] + Odds(w.fruits[k..])
    decreases n - k
  {
    var c := w.fruits;
    if k == |c| {
      SweepPastEnd(w, k, n, v, p);
      assert c[..k] == c && c[k..] == [];
    } else {
      var w' := SliceAt(w, k);
      assert Sweep(w, k, n, v, p) == Sweep(w', k + 1, n, v, p);
      SliceSplices(w, k);
      if k + 1 == |c| {
        SweepPastEnd(w', k + 1, n, v, p);
        assert c[k..] == [c[k]];
      } else {
        SweepSkipsShifted(w', k + 1, n, v, p);
        OddsAfterSplice(c, k);
      }
    }
  }

  lemma OddsAfterSplice<T>(c: seq<T>, k: nat)
    requires k + 1 < |c|
    ensures var c' := c[..k] + c[k + 1..];
      c'[..k + 1] + Odds(c'[k + 1..]) == c[..k] + Odds(c[k..])
  {
    var c' := c[..k] + c[k + 1..];
    assert c'[..k + 1] == c[..k] + [c[k + 1]];
    assert c'[k + 1..] == c[k + 2..];
    assert c[k..][2..] == c[k + 2..];
  }

  /** detectCollisions when the blade covers every fruit on screen: exactly
      the fruits at odd indices survive, so of two fruits stacked under the
      blade only the first is sliced. */
  lemma EveryOtherSurvives(w: World, history: seq<Point>)
    requires |history| >= 2 && FastEnough(history[|history| - 2], history[|history| - 1])
    requires forall i :: 0 <= i < |w.fruits| ==>
               HitFruit(w.fruits[i], history[|history| - 2], history[|history| - 1])
    ensures Detect(w, history).fruits == Odds(w.fruits)
  {
    SweepSkipsShifted(w, 0, |w.fruits|, history[|history| - 2], history[|history| - 1]);
    assert w.fruits[..0] + Odds(w.fruits[0..]) == Odds(w.fruits);
  }

  /** detectCollisions keeps the record consistent, only removes fruits, and
      does nothing at all without two trail samples or with a slow last
      segment. */
  lemma DetectFacts(w: World, history: seq<Point>)
    requires Consistent(w)
    ensures var r := Detect(w, history);
      && Consistent(r)
      && Sub(r.fruits, w.fruits)
      && r.lives <= w.lives
      && (|history| < 2 ==> r == w)
      && (|history| >= 2 && !FastEnough(history[|history| - 2], history[|history| - 1]) ==> r == w)
      && (|history| >= 2 ==> forall f :: f in w.fruits && f !in r.fruits ==>
            HitFruit(f, history[|history| - 2], history[|history| - 1]))
  {
    if |history| >= 2 {
      SweepFacts(w, 0, |w.fruits|, history[|history| - 2], history[|history| - 1]);
      SweepKeepsUnhit(w, 0, |w.fruits|, history[|history| - 2], history[|history| - 1]);
    } else {
      SubRefl(w.fruits);
    }
    if |history| >= 2 && !FastEnough(history[|history| - 2], history[|history| - 1]) {
      SubRefl(w.fruits);
    }
  }

  /** A whole frame of play keeps the record consistent. */
  lemma FrameKeepsConsistent(w: World, history: seq<Point>, width: nat, height: nat, d: SpawnDraws)
    requires Consistent(w)
    ensures Consistent(FrameSpec(w, history, width, height, d))
  {
    if w.phase == Playing {
      TickFacts(w, width, height, d);
      DetectFacts(TickSpec(w, width, height, d), history);
    }
  }

  // ---------------------------------------------------------------------
  // The end of a round
  // ---------------------------------------------------------------------

  /** A second endGame in the same round (two lives lost in one frame, say)
      rebuilds the board from the same starting board, so the round is on
      the board at most once, with its latest score. */
  lemma EndingTwiceKeepsOneEntry(w: World, s: int)
    ensures var r := Ended(Ended(w).(score := s));
      && r == Ended(w.(score := s))
      && multiset(r.highScores) <= multiset(w.roundBoard + [Entry(s, w.mode)])
      && |r.highScores| <= |w.roundBoard| + 1
      && SortedDesc(r.highScores)
  {
    UpdateHighScoresShape(w.roundBoard, Entry(s, w.mode));
  }

  /** The clock after k seconds, while the round is still being played. */
  function Seconds(w: World, k: nat): World
    decreases k
  {
    if k == 0 || w.phase != Playing then w else Seconds(SecondSpec(w), k - 1)
  }

  /** With t seconds left, the next t - 1 seconds only count down and the
      t-th ends the round at 0, recording its score. */
  lemma {:induction false} ClockRunsDown(w: World, k: nat)
    requires w.phase == Playing && 1 <= w.timeLeft && k <= w.timeLeft
    ensures k < w.timeLeft ==> Seconds(w, k) == w.(timeLeft := w.timeLeft - k)
    ensures k == w.timeLeft ==> Seconds(w, k) == Ended(w.(timeLeft := 0))
    decreases k
  {
    if k > 0 && w.timeLeft > 1 {
      ClockRunsDown(w.(timeLeft := w.timeLeft - 1), k - 1);
    }
  }

  /** A time-bound round is still on after 59 seconds and over after 60,
      with its entry on the board. */
  lemma TimeRoundLastsSixtySeconds(w: World)
    ensures Seconds(StartSpec(w, Time), RoundTime - 1).phase == Playing
    ensures var r := Seconds(StartSpec(w, Time), RoundTime);
      r.phase == Finished && r.timeLeft == 0 &&
      r.highScores == UpdateHighScores(w.highScores, Entry(0, Time))
  {
    ClockRunsDown(StartSpec(w, Time), RoundTime - 1);
    ClockRunsDown(StartSpec(w, Time), RoundTime);
  }

  // ---------------------------------------------------------------------
  // The displayed score
  // ---------------------------------------------------------------------

  /** As written, a time-mode round of an apple then a bomb shows 10 on the
      HUD and the result screen while the leaderboard records -40. */
  lemma BombPenaltyNotShownAsWritten(w: World)
    requires w.mode == Time && w.score == 0 && w.shownScore == 0
    ensures var r := SliceEffectAsWritten(SliceEffectAsWritten(w, Apple), Bomb);
      && r.shownScore == 10 && r.score == -40
      && Ended(r).highScores == UpdateHighScores(w.roundBoard, Entry(-40, Time))
  {
  }

  /** With every score change passed on to the display, a slice keeps the
      displayed score equal to the score, so a round that ends right after it
      records the score on display. */
  lemma ShownScoreIsRecordedScore(w: World, kind: Kind)
    requires w.shownScore == w.score
    ensures var r := SliceEffect(w, kind);
      && r.shownScore == r.score
      && Ended(r).highScores == UpdateHighScores(w.roundBoard, Entry(r.shownScore, w.mode))
  {
  }

  /** handleSlice runs for every hit of the `forEach`, even after one of
      them has ended the round: a survival sweep over a bomb, any fruit and
      an apple ends the round on the bomb, recording 0, and the apple, now
      at index 1, is still visited and sliced, so the result screen shows 10
      while the board keeps 0. */
  lemma SweepScoresAfterRoundEnds(w: World, bomb: Fruit, x: Fruit, apple: Fruit, v: Point, p: Point)
    requires w.mode == Survival && w.lives == 1 && w.score == 0 && w.shownScore == 0
    requires w.phase == Playing && w.fruits == [bomb, x, apple]
    requires bomb.kind == Bomb && apple.kind == Apple
    requires HitFruit(bomb, v, p) && HitFruit(apple, v, p)
    ensures var r := Sweep(w, 0, 3, v, p);
      && r.phase == Finished && r.lives == 0
      && r.highScores == UpdateHighScores(w.roundBoard, Entry(0, Survival))
      && r.score == 10 && r.shownScore == 10
  {
    var w1 := SliceAt(w, 0);
    assert w1.fruits == [x, apple];
    var w2 := SliceAt(w1, 1);
    assert w2.fruits == [x];
    assert Sweep(w, 0, 3, v, p) == Sweep(w1, 1, 3, v, p) == Sweep(w2, 2, 3, v, p);
  }

  /** The spawn cadence: frenzy takes priority over slow motion, and frenzy
      spawns fastest, slow motion faster than normal play. */
  lemma SpawnCadence(frenzyTimer: int, slowMoTimer: int)
    ensures frenzyTimer > 0 ==> SpawnRate(frenzyTimer, slowMoTimer) == 6
    ensures frenzyTimer <= 0 && slowMoTimer > 0 ==> SpawnRate(frenzyTimer, slowMoTimer) == 33
    ensures frenzyTimer <= 0 && slowMoTimer <= 0 ==> SpawnRate(frenzyTimer, slowMoTimer) == 55
    ensures FrenzySpawnRate < SlowMoSpawnRate < BaseSpawnRate
  {
  }

  // ---------------------------------------------------------------------
  // Worked examples
  // ---------------------------------------------------------------------

  /** In time mode, slicing an apple and then a bomb nets -40. */
  lemma AppleThenBombInTimeMode(w: World, apple: Fruit, bomb: Fruit)
    requires w.mode == Time && w.fruits == [apple, bomb]
    requires apple.kind == Apple && bomb.kind == Bomb
    ensures var r := SliceAt(SliceAt(w, 0), 0);
      r.score == w.score - 40 && r.fruits == [] && r.lives == w.lives
  {
  }

  /** In survival, three bombs end a fresh round with no life left and the
      round's entry on the board. */
  lemma ThreeBombsEndSurvival(w: World, b: Fruit)
    requires b.kind == Bomb
    ensures var w1 := StartSpec(w, Survival).(fruits := [b, b, b]);
      var w2 := SliceAt(w1, 0);
      var w3 := SliceAt(w2, 0);
      var w4 := SliceAt(w3, 0);
      && w2.lives == 2 && w2.phase == Playing
      && w3.lives == 1 && w3.phase == Playing
      && w4.lives == 0 && w4.phase == Finished
      && w4.highScores == UpdateHighScores(w.highScores, Entry(0, Survival))
  {
  }

  /** Slicing ice with 100 frames of slow motion left restarts it at 300. */
  lemma IceRestartsSlowMotion(w: World, ice: Fruit)
    requires w.slowMoTimer == 100 && w.fruits == [ice] && ice.kind == Ice
    ensures SliceAt(w, 0).slowMoTimer == 300
  {
  }

  // ---------------------------------------------------------------------
  // The mutable record
  // ---------------------------------------------------------------------

  class Game {
    var fruits: seq<Fruit>
    var score: int
    var shownScore: int
    var lives: int
    var mode: Mode
    var slowMoTimer: int
    var frenzyTimer: int
    var spawnTimer: int
    var phase: Phase
    var timeLeft: int
    var highScores: seq<Entry>
    var roundBoard: seq<Entry>

    function Snapshot(): World
      reads this
    {
      World(fruits, score, shownScore, lives, mode, slowMoTimer, frenzyTimer, spawnTimer,
            phase, timeLeft, highScores, roundBoard)
    }

    /** The state before the camera is ready, with the saved leaderboard. */
    constructor (saved: seq<Entry>)
      ensures Snapshot() == World([], 0, 0, MaxLives, Time, 0, 0, 0, Loading, RoundTime, saved, saved)
    {
      fruits := [];
      score, shownScore, lives, mode := 0, 0, MaxLives, Time;
      slowMoTimer, frenzyTimer, spawnTimer := 0, 0, 0;
      phase, timeLeft := Loading, RoundTime;
      highScores, roundBoard := saved, saved;
    }

    /** The video stream delivered its first frame. */
    method VideoReady()
      modifies this
      ensures Snapshot() == old(Snapshot()).(phase := Next(Event.VideoReady))
    {
      phase := Next(Event.VideoReady);
    }

    /** Loading the model or opening the camera failed. */
    method InitFailed()
      modifies this
      ensures Snapshot() == old(Snapshot()).(phase := Next(Event.InitFailed))
    {
      phase := Next(Event.InitFailed);
    }

    /** The result screen's "menu" button. */
    method BackToMenu()
      modifies this
      ensures Snapshot() == old(Snapshot()).(phase := Next(Menu))
    {
      phase := Next(Menu);
    }

    method StartGame(m: Mode, cursor: Trail.Cursor)
      modifies this, cursor
      ensures Snapshot() == StartSpec(old(Snapshot()), m)
      ensures cursor.Valid() && cursor.history == []
      ensures cursor.x == old(cursor.x) && cursor.y == old(cursor.y) && cursor.angle == old(cursor.angle)
    {
      cursor.ClearTrail();
      fruits, score, shownScore, lives, mode := [], 0, 0, MaxLives, m;
      slowMoTimer, frenzyTimer, spawnTimer := 0, 0, 0;
      timeLeft, roundBoard, phase := RoundTime, highScores, Next(Start(m));
    }

    method EndGame()
      modifies this
      ensures Snapshot() == Ended(old(Snapshot()))
    {
      phase := Next(End);
      highScores := UpdateHighScores(roundBoard, Entry(score, mode));
    }

    method SyncLives()
      modifies this
      ensures Snapshot() == LivesSynced(old(Snapshot()))
    {
      if lives <= 0 {
        EndGame();
      }
    }

    /** `lives--` followed by syncLives. */
    method LoseLife()
      modifies this
      ensures Snapshot() == LifeLost(old(Snapshot()))
    {
      lives := lives - 1;
      SyncLives();
    }

    /** The `setTimeLeft` updater, run once per second in time mode. */
    method SecondElapsed()
      requires phase == Playing && mode == Time
      modifies this
      ensures Snapshot() == SecondSpec(old(Snapshot()))
    {
      var r := CountdownStep(timeLeft);
      if r.1 {
        EndGame();
      }
      timeLeft := r.0;
    }

    method SpawnFruit(width: nat, height: nat, d: SpawnDraws)
      modifies this
      ensures Snapshot() == Spawn(old(Snapshot()), width, height, d)
    {
      var r := d.kind * TotalWeight as real;
      var kind := PickType(r);
      if frenzyTimer > 0 && kind.IsBomb() {
        kind := FruitTypes[0];
      }
      assert kind == SpawnKind(r, frenzyTimer > 0);
      fruits := fruits + [NewFruit(kind, d, width, height)];
    }

    /** updatePhysics for one frame on a canvas of the given size. */
    method Tick(width: nat, height: nat, d: SpawnDraws)
      modifies this
      ensures Snapshot() == TickSpec(old(Snapshot()), width, height, d)
    {
      var timeScale := UpdateCounters(width, height, d);
      MoveFruits(timeScale, height);
    }

    /** Count the modifiers down, pick the spawn rate, and spawn when due;
        returns this frame's time scale. */
    method UpdateCounters(width: nat, height: nat, d: SpawnDraws) returns (timeScale: real)
      modifies this
      ensures Snapshot() == CountersSpec(old(Snapshot()), width, height, d)
      ensures timeScale == TimeScale(CountDown(old(slowMoTimer)))
    {
      if slowMoTimer > 0 { slowMoTimer := slowMoTimer - 1; }
      if frenzyTimer > 0 { frenzyTimer := frenzyTimer - 1; }
      timeScale := if slowMoTimer > 0 then SlowMoTimeScale else 1.0;
      var spawnRate := BaseSpawnRate;
      if frenzyTimer > 0 {
        spawnRate := FrenzySpawnRate;
      } else if slowMoTimer > 0 {
        spawnRate := SlowMoSpawnRate;
      }
      spawnTimer := spawnTimer + 1;
      if spawnTimer > spawnRate {
        SpawnFruit(width, height, d);
        spawnTimer := 0;
      }
    }

    /** Move every fruit, flag and penalise the ones below the canvas, then
        drop the flagged ones. */
    method MoveFruits(timeScale: real, height: nat)
      modifies this
      ensures Snapshot() == MoveSpec(old(Snapshot()), timeScale, height)
    {
      ghost var w := Snapshot();
      ghost var moved := Advance(fruits, timeScale, height);
      var i := 0;
      while i < |fruits|
        invariant 0 <= i <= |fruits| == |moved| == |w.fruits|
        invariant forall j :: 0 <= j < i ==> fruits[j] == moved[j]
        invariant forall j :: i <= j < |fruits| ==> fruits[j] == w.fruits[j]
        invariant Snapshot().(fruits := w.fruits) == FalloutAll(w, moved[..i], height)
      {
        ghost var before := Snapshot();
        assert StepFruit(fruits[i], timeScale, height) == moved[i];
        StepOne(i, timeScale, height);
        FalloutStep(w, before, Snapshot(), moved, i, height);
        i := i + 1;
      }
      assert moved[..i] == moved;
      assert fruits == moved;
      ghost var s0 := Snapshot();
      fruits := Compact(fruits);
      MoveSpecAfterLoop(w, s0, timeScale, height);
    }

    /** The per-fruit callback of updatePhysics for the fruit at index i. */
    method StepOne(i: nat, timeScale: real, height: nat)
      requires i < |fruits|
      modifies this
      ensures fruits == old(fruits)[i := StepFruit(old(fruits)[i], timeScale, height)]
      ensures Snapshot().(fruits := old(fruits)) ==
              Fallout(old(Snapshot()), StepFruit(old(fruits)[i], timeScale, height), height)
    {
      var fruit := Move(fruits[i], timeScale);
      if FellOut(fruit, height) {
        if mode == Survival && fruit.kind.IsPlain() {
          LoseLife();
        }
        fruit := fruit.(remove := true);
      }
      fruits := fruits[i := fruit];
    }

    method HandleSlice(index: nat)
      requires index < |fruits|
      modifies this
      ensures Snapshot() == SliceAt(old(Snapshot()), index)
    {
      var fruit := fruits[index];
      fruits := fruits[..index] + fruits[index + 1..];
      if fruit.kind.IsBomb() {
        if mode == Survival {
          LoseLife();
        } else {
          score := score - BombPenalty;
          shownScore := score;
        }
      } else if fruit.kind.IsIce() {
        slowMoTimer := SlowMoDuration;
      } else if fruit.kind.IsGiant() {
        frenzyTimer := FrenzyDuration;
        score := score + GiantBonus;
        shownScore := score;
      } else {
        score := score + fruit.kind.Score();
        shownScore := score;
      }
    }

    method DetectCollisions(history: seq<Point>)
      modifies this
      ensures Snapshot() == Detect(old(Snapshot()), history)
    {
      if |history| < 2 {
        return;
      }
      var p1 := history[|history| - 2];
      var p2 := history[|history| - 1];
      if DistSq(p1, p2) < (SpeedThreshold * SpeedThreshold) as real {
        return;
      }
      var n := |fruits|;
      var k := 0;
      while k < n
        invariant 0 <= k <= n
        invariant Sweep(Snapshot(), k, n, p1, p2) == Sweep(old(Snapshot()), 0, n, p1, p2)
      {
        if k < |fruits| && HitFruit(fruits[k], p1, p2) {
          HandleSlice(k);
        }
        k := k + 1;
      }
    }
  }

  /** animate: while playing or on the ready screen, take this frame's hand
      sample into the trail; while playing, also run physics and detection. */
  method Animate(g: Game, cursor: Trail.Cursor, seen: Detection, width: nat, height: nat, d: SpawnDraws)
    requires cursor.Valid()
    modifies g, cursor
    ensures cursor.Valid()
    ensures old(g.phase) != Playing && old(g.phase) != Ready ==> cursor.history == old(cursor.history)
    ensures (old(g.phase) == Playing || old(g.phase) == Ready) && seen.Hand? ==>
              cursor.history == Trail.Pushed(old(cursor.history), seen.tip)
    ensures seen.NoHand? ==> cursor.history == old(cursor.history)
    ensures (old(g.phase) == Playing || old(g.phase) == Ready) && seen.Hand? ==>
              && cursor.x == seen.tip.x && cursor.y == seen.tip.y
              && cursor.angle == (if old(cursor.history) != [] &&
                                     Trail.TurnsBlade(old(cursor.history)[|old(cursor.history)| - 1], seen.tip)
                                  then seen.heading else old(cursor.angle))
    ensures !((old(g.phase) == Playing || old(g.phase) == Ready) && seen.Hand?) ==>
              cursor.x == old(cursor.x) && cursor.y == old(cursor.y) && cursor.angle == old(cursor.angle)
    ensures g.Snapshot() == FrameSpec(old(g.Snapshot()), cursor.history, width, height, d)
  {
    if g.phase != Playing && g.phase != Ready {
      return;
    }
    if seen.Hand? {
      cursor.Sample(seen.tip, seen.heading);
    }
    if g.phase == Playing {
      g.Tick(width, height, d);
      g.DetectCollisions(cursor.history);
    }
  }
}
