/**
 * The SwipeGame component of src/App.js as an object: the round state, the pointer state,
 * the rare-block watermark and the values mirrored from the user's store record, with one
 * method per event the component reacts to. React's timers become explicit events: the
 * 1000 ms follow-up of an Avoid hit (SettleAvoidHit), the 150 ms swipe animation
 * (SettleSwipe) and the 100 ms end of a transition (EndTransition). `Date.now()` is the
 * `now` parameter, `Math.random()` the `rolls` parameter, and `fault` stands for a store
 * whose every call throws.
 */
module App {
  import opened Wrappers
  import opened JsValues
  import opened UserStore
  import ShopApi
  import GameOverApi
  import opened Blocks
  import opened Gestures
  import opened GameStates

  // ---------------------------------------------------------------------------
  // The store calls the component makes

  /** The store after checkAndConsumeExtraLife: one life taken when one was there. */
  function AfterLifeCheck(docs: map<string, UserDoc>, userId: string, fault: bool): map<string, UserDoc> {
    if ShopApi.CanConsumeLife(docs, userId, fault) then docs[userId := ShopApi.TakeLife(docs[userId])]
    else docs
  }

  /**
   * The life check touches only the user's own record, never creates one, and changes
   * nothing when no life could be consumed.
   */
  lemma LifeCheckTouchesOnlyUser(docs: map<string, UserDoc>, userId: string, fault: bool)
    ensures var r := AfterLifeCheck(docs, userId, fault);
            r.Keys == docs.Keys
            && (forall u :: u in docs && u != userId ==> r[u] == docs[u])
            && (!ShopApi.CanConsumeLife(docs, userId, fault) ==> r == docs)
  {
  }

  /**
   * checkAndConsumeExtraLife: reads the shop items and, when an extra life is stored,
   * consumes it; true iff a life was consumed.
   */
  method CheckAndConsumeExtraLife(store: Store, userId: string, fault: bool) returns (ok: bool)
    modifies store
    ensures ok == ShopApi.CanConsumeLife(old(store.docs), userId, fault)
    ensures store.docs == AfterLifeCheck(old(store.docs), userId, fault)
  {
    var data := ShopApi.GetShopItems(store, userId, fault);
    if data.Some? && IsPositive(ShopItem(data.value, ExtraLives)) {
      ok := ShopApi.ConsumeExtraLife(store, userId, fault);
    } else {
      ok := false;
    }
  }

  const CoinsBlockAward: real := 15.0

  /** The record the coins block writes for a user who has none (setUserData). */
  const CoinsBlockRecord := NoFields.(
    coins := Num(CoinsBlockAward),
    totalCoinsEarned := Num(CoinsBlockAward),
    highScore := Num(0.0),
    balloonsPoppedCount := Num(0.0),
    achievements := Some(DefaultAchievements))

  /** The store after a coins block is collected. */
  function AfterCoinsBlock(docs: map<string, UserDoc>, userId: string, fault: bool): (r: map<string, UserDoc>)
    ensures fault || userId == "" ==> r == docs
    ensures r.Keys == if fault || userId == "" then docs.Keys else docs.Keys + {userId}
    ensures forall u :: u in docs && u != userId ==> r[u] == docs[u]
  {
    if fault || userId == "" then docs
    else if userId !in docs then docs[userId := CoinsBlockRecord]
    else GameOverApi.AfterCoinsUpdate(docs, userId, Num(CoinsBlockAward))
  }

  /**
   * A coins block is worth exactly 15 coins: a new user starts with 15, and a user whose
   * balances are whole and non-negative gains 15 on both.
   */
  lemma CoinsBlockAwardsFifteen(docs: map<string, UserDoc>, userId: string, c: int, t: int)
    requires userId != ""
    requires userId in docs ==> docs[userId].achievements.Some?
                                && docs[userId].coins == Num(c as real) && docs[userId].totalCoinsEarned == Num(t as real)
                                && c >= 0 && t >= 0
    ensures var r := AfterCoinsBlock(docs, userId, false);
            userId in r
            && (userId !in docs ==> r[userId].coins == Num(15.0) && r[userId].totalCoinsEarned == Num(15.0))
            && (userId in docs ==> r[userId].coins == Num((c + 15) as real)
                                   && r[userId].totalCoinsEarned == Num((t + 15) as real))
            && forall other :: other != userId && other in docs ==> other in r && r[other] == docs[other]
  {
    if userId in docs {
      GameOverApi.WholeAwardIsExact(docs[userId], c, t, 15);
    }
  }

  /** The coins branch of handleBlockSuccess: look the user up, then create or credit. */
  method CollectCoinsBlock(store: Store, userId: string, fault: bool)
    modifies store
    ensures store.docs == AfterCoinsBlock(old(store.docs), userId, fault)
  {
    var userData := GameOverApi.GetUserData(store, userId, fault);
    if userData.None? {
      if !fault && userId != "" {
        // setUserData with merge on a document that does not exist creates it
        store.docs := store.docs[userId := CoinsBlockRecord];
      }
    } else {
      GameOverApi.UpdateCoinsAndAchievements(store, userId, Num(CoinsBlockAward), fault);
    }
  }

  /** The store after a block of kind `kind` is resolved in state `s`. */
  function AfterSuccessStore(docs: map<string, UserDoc>, s: GameState, kind: Kind, userId: string, fault: bool)
    : (r: map<string, UserDoc>)
    ensures forall u :: u in docs && u != userId ==> u in r && r[u] == docs[u]
    ensures fault ==> r == docs
  {
    if s.isInTutorial then docs
    else if kind == ExtraLive then
      (if fault || userId == "" then docs
       else docs[userId := ShopApi.AddItem(ShopApi.SeededDoc(docs, userId), ExtraLives, 1.0)])
    else if kind == Coins then AfterCoinsBlock(docs, userId, fault)
    else docs
  }

  /** Collecting an extra-life block in live play stores one more extra life. */
  lemma ExtraLifeBlockAddsOne(docs: map<string, UserDoc>, s: GameState, userId: string, n: real)
    requires !s.isInTutorial && userId != ""
    requires userId in docs ==> ShopItem(docs[userId], ExtraLives) == Num(n)
    requires userId !in docs ==> n == 0.0
    ensures var r := AfterSuccessStore(docs, s, ExtraLive, userId, false);
            userId in r && ShopItem(r[userId], ExtraLives) == Num(n + 1.0)
  {
  }

  /** Only extra-life and coins blocks in live play touch the store. */
  lemma StandardSuccessLeavesStore(docs: map<string, UserDoc>, s: GameState, kind: Kind, userId: string, fault: bool)
    requires s.isInTutorial || !IsRare(kind)
    ensures AfterSuccessStore(docs, s, kind, userId, fault) == docs
  {
  }

  /** The text of coins the component shows for a payload value: `c === 0 ? 0 : Number(c || 0)`. */
  function ShownCoins(v: Value): (r: Value)
    ensures v != Undefined && v != NaN ==> r == v
    ensures v == Undefined || v == NaN ==> r == Num(0.0)
  {
    if v == Num(0.0) then Num(0.0) else ToNumber(OrZero(v))
  }

  /** The listener's rule for the double-score flag: set on a positive count, cleared on zero. */
  function DoubleScoreFlag(count: Value, active: bool): (r: bool)
    ensures IsPositive(count) ==> r
    ensures count == Num(0.0) ==> !r
    ensures !IsPositive(count) && count != Num(0.0) ==> r == active
  {
    if IsPositive(count) && !active then true
    else if count == Num(0.0) && active then false
    else active
  }

  /**
   * The live branch of spawnBlocks: `BatchSize(score)` calls of getRandomBlock, all seeing
   * the same score and watermark; each rare block raises the watermark by 200.
   */
  method BuildBatch(score: int, watermark: int, rolls: seq<Roll>, firstId: nat, now: int)
      returns (batch: seq<Block>, raised: int)
    requires score >= 0 && ValidRolls(rolls) && |rolls| >= MaxBatch
    ensures batch == Batch(score, watermark, rolls, firstId, now)
    ensures raised == watermark + RareScoreStep * RareCount(score, watermark, rolls[..|batch|])
  {
    var n := BatchSize(score);
    raised := watermark;
    batch := [];
    var i := 0;
    while i < n
      invariant 0 <= i <= n
      invariant |batch| == i
      invariant forall j :: 0 <= j < i ==> batch[j] == Block(firstId + j, RandomKind(score, watermark, rolls[j]), now)
      invariant raised == watermark + RareScoreStep * RareCount(score, watermark, rolls[..i])
    {
      var kind := RandomKind(score, watermark, rolls[i]);
      assert rolls[..i + 1][..i] == rolls[..i];
      if IsRare(kind) {
        raised := raised + RareScoreStep;
      }
      batch := batch + [Block(firstId + i, kind, now)];
      i := i + 1;
    }
    BatchBlocks(score, watermark, rolls, firstId, now);
  }

  /** Raising the watermark by whole steps keeps it on the 200-point grid and never lowers it. */
  lemma {:induction false} WatermarkOnGrid(watermark: int, k: nat)
    requires watermark >= RareScoreStart && (watermark - RareScoreStart) % RareScoreStep == 0
    ensures var w := watermark + RareScoreStep * k;
            w >= watermark && (w - RareScoreStart) % RareScoreStep == 0
  {
    if k > 0 {
      WatermarkOnGrid(watermark, k - 1);
      var prev := watermark + RareScoreStep * (k - 1);
      assert watermark + RareScoreStep * k == prev + 200;
      assert (prev + 200 - 200) % 200 == (prev - 200) % 200;
    }
  }

  /**
   * Filling an empty board with a live batch keeps the round well formed under the new id
   * bound, and the raised watermark stays on the 200-point grid.
   */
  lemma BatchKeepsValid(s: GameState, nextId: nat, watermark: int, rolls: seq<Roll>, now: int)
    requires WellFormed(s, nextId) && NeedsBlocks(s) && ValidRolls(rolls) && |rolls| >= MaxBatch
    requires watermark >= RareScoreStart && (watermark - RareScoreStart) % RareScoreStep == 0
    ensures var n := BatchSize(s.score);
            var w := watermark + RareScoreStep * RareCount(s.score, watermark, rolls[..n]);
            WellFormed(s.(blocks := Batch(s.score, watermark, rolls, nextId, now)), nextId + n)
            && w >= RareScoreStart && (w - RareScoreStart) % RareScoreStep == 0
  {
    var n := BatchSize(s.score);
    WatermarkOnGrid(watermark, RareCount(s.score, watermark, rolls[..n]));
    BatchIds(s.score, watermark, rolls, nextId, now);
    SpawnWellFormed(s, nextId, Batch(s.score, watermark, rolls, nextId, now), nextId + n);
  }

  /** A pending Avoid follow-up: the block and whether an extra life was consumed for it. */
  datatype AvoidHit = AvoidHit(blockId: nat, lifeUsed: bool)

  /**
   * A swipe waiting for its animation to end: the block and the double-score flag of the
   * handler that scheduled it, which is the one its delayed success scores with.
   */
  datatype PendingSwipe = PendingSwipe(block: Block, doubleScore: bool)

  class SwipeGame {
    const store: Store
    /** The user's id; "" while none is known. */
    const userId: string

    var game: GameState
    var interaction: InteractionState
    /** The score from which the next rare block may appear. */
    var nextRareScore: int
    var coins: Value
    var extraLives: Value
    var doubleScoreActive: bool
    /** The next fresh block id (the source draws a random token instead). */
    var nextId: nat
    var pendingAvoidHits: seq<AvoidHit>
    var pendingSwipes: seq<PendingSwipe>
    var pendingTransitionEnds: nat
    /** The `isGameOver` the end-of-round effect last ran with (its dependency array). */
    var effectGameOver: bool

    ghost predicate Valid()
      reads this
    {
      WellFormed(game, nextId)
      && nextRareScore >= RareScoreStart && (nextRareScore - RareScoreStart) % RareScoreStep == 0
    }

    constructor (store: Store, userId: string)
      ensures this.store == store && this.userId == userId
      ensures game == InitialState && interaction == NoInteraction && nextRareScore == RareScoreStart
      ensures coins == Num(0.0) && extraLives == Num(0.0) && !doubleScoreActive
      ensures pendingAvoidHits == [] && pendingSwipes == [] && pendingTransitionEnds == 0
      ensures !effectGameOver
      ensures Valid()
    {
      this.store := store;
      this.userId := userId;
      game := InitialState;
      interaction := NoInteraction;
      nextRareScore := RareScoreStart;
      coins := Num(0.0);
      extraLives := Num(0.0);
      doubleScoreActive := false;
      nextId := 0;
      pendingAvoidHits := [];
      pendingSwipes := [];
      pendingTransitionEnds := 0;
      effectGameOver := false;
    }

    /**
     * resetGame: a fresh live round with the watermark back at 200; the double-score flag
     * is re-read from the store when the user is known.
     */
    method ResetGame(fault: bool)
      modifies this
      ensures game == ResetState && interaction == NoInteraction && nextRareScore == RareScoreStart
      ensures userId == "" ==> doubleScoreActive == old(doubleScoreActive)
      ensures userId != "" ==>
                var r := ShopApi.ReadDoc(store.docs, userId, fault);
                doubleScoreActive == (r.Some? && IsPositive(ShopItem(r.value, DoubleScore)))
      ensures unchanged(this`coins, this`extraLives, this`nextId)
      ensures unchanged(this`pendingAvoidHits, this`pendingSwipes, this`pendingTransitionEnds, this`effectGameOver)
      ensures Valid()
    {
      game := ResetState;
      interaction := NoInteraction;
      if userId != "" {
        var data := ShopApi.GetShopItems(store, userId, fault);
        doubleScoreActive := data.Some? && IsPositive(ShopItem(data.value, DoubleScore));
      }
      nextRareScore := RareScoreStart;
    }

    /**
     * spawnBlocks: on an empty board of a running, settled round, the tutorial's current
     * block or a live batch; the batch is built from the score and watermark as they were
     * when it started, and every rare block in it raises the watermark by 200.
     */
    method SpawnBlocks(now: int, rolls: seq<Roll>)
      requires Valid() && ValidRolls(rolls) && |rolls| >= MaxBatch
      modifies this
      ensures Valid()
      ensures !NeedsBlocks(old(game)) ==>
                game == old(game) && nextId == old(nextId) && nextRareScore == old(nextRareScore)
      ensures NeedsBlocks(old(game)) && old(game).isInTutorial ==>
                game == old(game).(blocks := [TutorialBlock(old(game), old(nextId), now)])
                && nextId == old(nextId) + 1 && nextRareScore == old(nextRareScore)
      ensures NeedsBlocks(old(game)) && !old(game).isInTutorial ==>
                var n := BatchSize(old(game).score);
                game == old(game).(blocks := Batch(old(game).score, old(nextRareScore), rolls, old(nextId), now))
                && nextId == old(nextId) + n
                && nextRareScore == old(nextRareScore) + RareScoreStep * RareCount(old(game).score, old(nextRareScore), rolls[..n])
      ensures unchanged(this`interaction, this`coins, this`extraLives, this`doubleScoreActive)
      ensures unchanged(this`pendingAvoidHits, this`pendingSwipes, this`pendingTransitionEnds, this`effectGameOver)
    {
      if !NeedsBlocks(game) {
        return;
      }
      if game.isInTutorial {
        var b := TutorialBlock(game, nextId, now);
        SpawnWellFormed(game, nextId, [b], nextId + 1);
        game := game.(blocks := [b]);
        nextId := nextId + 1;
        return;
      }
      SpawnBatch(now, rolls);
    }

    /** The live branch of spawnBlocks on an empty board: one batch, ids handed out in order. */
    method SpawnBatch(now: int, rolls: seq<Roll>)
      requires Valid() && NeedsBlocks(game) && !game.isInTutorial
      requires ValidRolls(rolls) && |rolls| >= MaxBatch
      modifies this
      ensures Valid()
      ensures var n := BatchSize(old(game).score);
              game == old(game).(blocks := Batch(old(game).score, old(nextRareScore), rolls, old(nextId), now))
              && nextId == old(nextId) + n
              && nextRareScore == old(nextRareScore) + RareScoreStep * RareCount(old(game).score, old(nextRareScore), rolls[..n])
      ensures unchanged(this`interaction, this`coins, this`extraLives, this`doubleScoreActive)
      ensures unchanged(this`pendingAvoidHits, this`pendingSwipes, this`pendingTransitionEnds, this`effectGameOver)
    {
      var n := BatchSize(game.score);
      var batch, raised := BuildBatch(game.score, nextRareScore, rolls, nextId, now);
      BatchKeepsValid(game, nextId, nextRareScore, rolls, now);
      game, nextId, nextRareScore := game.(blocks := batch), nextId + n, raised;
    }

    /**
     * One run of the interval body: nothing while the round is over, in the tutorial or
     * frozen; otherwise a timed-out standard block costs an extra life or ends the round,
     * and without one the board ages by a tenth of a second.
     */
    method Tick(now: int, fault: bool)
      requires Valid()
      modifies this, store
      ensures Valid()
      ensures !TickRuns(old(game)) ==> game == old(game) && store.docs == old(store.docs)
      ensures TickRuns(old(game)) ==>
                var timedOut := FirstTimedOut(old(game).blocks, now, old(game).score).Some?;
                game == TickOutcome(old(game), now, timedOut && ShopApi.CanConsumeLife(old(store.docs), userId, fault))
                && store.docs == if timedOut then AfterLifeCheck(old(store.docs), userId, fault) else old(store.docs)
      ensures unchanged(this`interaction, this`nextRareScore, this`coins, this`extraLives, this`doubleScoreActive, this`nextId)
      ensures unchanged(this`pendingAvoidHits, this`pendingSwipes, this`pendingTransitionEnds, this`effectGameOver)
    {
      if !TickRuns(game) {
        return;
      }
      var g := game;
      match FirstTimedOut(g.blocks, now, g.score)
      case Some(i) =>
        var timedOutId := g.blocks[i].id;
        var hasExtraLife := CheckAndConsumeExtraLife(store, userId, fault);
        TickWellFormed(g, nextId, now, hasExtraLife);
        if hasExtraLife {
          game := g.(blocks := Without(g.blocks, timedOutId));
          return;
        }
        game := Aged(EndRound(g), now);
      case None =>
        TickWellFormed(g, nextId, now, false);
        game := Aged(g, now);
    }

    /**
     * handleBlockSuccess: applies the resolve updater, makes the block's store call and
     * schedules the end of the transition. `doubleScore` is the double-score flag the
     * calling handler captured when it was created.
     */
    method HandleBlockSuccess(blockId: nat, kind: Kind, doubleScore: bool, fault: bool)
      requires Valid()
      modifies this, store
      ensures Valid()
      ensures game == Resolve(old(game), blockId, kind, doubleScore)
      ensures store.docs == AfterSuccessStore(old(store.docs), old(game), kind, userId, fault)
      ensures pendingTransitionEnds == old(pendingTransitionEnds) + 1
      ensures unchanged(this`interaction, this`nextRareScore, this`coins, this`extraLives, this`doubleScoreActive, this`nextId)
      ensures unchanged(this`pendingAvoidHits, this`pendingSwipes, this`effectGameOver)
    {
      if !game.isInTutorial {
        if kind == ExtraLive {
          var added := ShopApi.AddShopItems(store, userId, ExtraLives, 1.0, fault);
        } else if kind == Coins {
          CollectCoinsBlock(store, userId, fault);
        }
      }
      ResolveWellFormed(game, nextId, blockId, kind, doubleScore);
      game := Resolve(game, blockId, kind, doubleScore);
      pendingTransitionEnds := pendingTransitionEnds + 1;
    }

    /** The 100 ms timeout scheduled by a success: the transition flag is cleared. */
    method EndTransition()
      requires Valid()
      modifies this
      ensures Valid()
      ensures old(pendingTransitionEnds) == 0 ==> game == old(game) && pendingTransitionEnds == 0
      ensures old(pendingTransitionEnds) > 0 ==>
                game == TransitionEnded(old(game)) && pendingTransitionEnds == old(pendingTransitionEnds) - 1
      ensures unchanged(this`interaction, this`nextRareScore, this`coins, this`extraLives, this`doubleScoreActive, this`nextId)
      ensures unchanged(this`pendingAvoidHits, this`pendingSwipes, this`effectGameOver)
    {
      if pendingTransitionEnds > 0 {
        pendingTransitionEnds := pendingTransitionEnds - 1;
        game := TransitionEnded(game);
      }
    }

    /** The "start" half of handleInteraction: remembers where and when the pointer went down. */
    method InteractionStart(x: real, y: real, now: int)
      modifies this
      ensures old(game).isGameOver ==> interaction == old(interaction)
      ensures !old(game).isGameOver ==> interaction == old(interaction).(start := Some(Anchor(x, y, now)))
      ensures unchanged(this`game, this`nextRareScore, this`coins, this`extraLives, this`doubleScoreActive, this`nextId)
      ensures unchanged(this`pendingAvoidHits, this`pendingSwipes, this`pendingTransitionEnds, this`effectGameOver)
    {
      if !game.isGameOver {
        interaction := interaction.(start := Some(Anchor(x, y, now)));
      }
    }

    /**
     * The "end" half of handleInteraction on block `b`, the pointer released at (x, y).
     * Ignored once the round is over or without a start. An Avoid block resolves in the
     * tutorial; in live play it freezes the round and schedules its follow-up, with the
     * extra life (if any) consumed now. Any other block is resolved by the matching tap or
     * swipe and by nothing else, and the start point is cleared.
     */
    method InteractionEnd(b: Block, x: real, y: real, now: int, fault: bool)
      requires Valid()
      modifies this, store
      ensures Valid()
      ensures old(game).isGameOver || old(interaction).start.None? ==>
                game == old(game) && interaction == old(interaction) && store.docs == old(store.docs)
                && pendingAvoidHits == old(pendingAvoidHits) && pendingSwipes == old(pendingSwipes)
                && pendingTransitionEnds == old(pendingTransitionEnds)
      ensures !old(game).isGameOver && old(interaction).start.Some? && b.kind == Avoid ==>
                interaction == old(interaction) && pendingSwipes == old(pendingSwipes)
                && if old(game).isInTutorial then
                     game == Resolve(old(game), b.id, Avoid, doubleScoreActive) && store.docs == old(store.docs)
                     && pendingAvoidHits == old(pendingAvoidHits)
                     && pendingTransitionEnds == old(pendingTransitionEnds) + 1
                   else
                     game == old(game).(isFrozen := true)
                     && store.docs == AfterLifeCheck(old(store.docs), userId, fault)
                     && pendingAvoidHits == old(pendingAvoidHits)
                                            + [AvoidHit(b.id, ShopApi.CanConsumeLife(old(store.docs), userId, fault))]
                     && pendingTransitionEnds == old(pendingTransitionEnds)
      ensures !old(game).isGameOver && old(interaction).start.Some? && b.kind != Avoid ==>
                var st := old(interaction).start.value;
                var a := DecideEnd(b.kind, Classify(x - st.x, y - st.y, now - st.time), old(interaction).lastTapTime, now);
                interaction == AfterEnd(old(interaction), b.kind, a, now)
                && pendingAvoidHits == old(pendingAvoidHits)
                && pendingSwipes == old(pendingSwipes)
                                    + (if a == ResolveLater then [PendingSwipe(b, doubleScoreActive)] else [])
                && if a == ResolveNow then
                     game == Resolve(old(game), b.id, b.kind, doubleScoreActive)
                     && store.docs == AfterSuccessStore(old(store.docs), old(game), b.kind, userId, fault)
                     && pendingTransitionEnds == old(pendingTransitionEnds) + 1
                   else
                     game == old(game) && store.docs == old(store.docs)
                     && pendingTransitionEnds == old(pendingTransitionEnds)
      ensures unchanged(this`nextRareScore, this`coins, this`extraLives, this`doubleScoreActive, this`nextId, this`effectGameOver)
    {
      if game.isGameOver || interaction.start.None? {
        return;
      }
      var st := interaction.start.value;
      if b.kind == Avoid {
        if game.isInTutorial {
          HandleBlockSuccess(b.id, b.kind, doubleScoreActive, fault);
          return;
        }
        var hasExtraLife := CheckAndConsumeExtraLife(store, userId, fault);
        game := game.(isFrozen := true);
        pendingAvoidHits := pendingAvoidHits + [AvoidHit(b.id, hasExtraLife)];
        return;
      }
      var g := Classify(x - st.x, y - st.y, now - st.time);
      var a := DecideEnd(b.kind, g, interaction.lastTapTime, now);
      if a == ResolveNow {
        HandleBlockSuccess(b.id, b.kind, doubleScoreActive, fault);
      } else if a == ResolveLater {
        pendingSwipes := pendingSwipes + [PendingSwipe(b, doubleScoreActive)];
      }
      interaction := AfterEnd(interaction, b.kind, a, now);
    }

    /** The 1000 ms follow-up of the oldest Avoid hit: unfreeze without the block, or end the round. */
    method SettleAvoidHit()
      requires Valid()
      modifies this
      ensures Valid()
      ensures old(pendingAvoidHits) == [] ==> game == old(game) && pendingAvoidHits == []
      ensures old(pendingAvoidHits) != [] ==>
                var h := old(pendingAvoidHits)[0];
                game == AfterAvoidHit(old(game), h.blockId, h.lifeUsed)
                && pendingAvoidHits == old(pendingAvoidHits)[1..]
      ensures unchanged(this`interaction, this`nextRareScore, this`coins, this`extraLives, this`doubleScoreActive, this`nextId)
      ensures unchanged(this`pendingSwipes, this`pendingTransitionEnds, this`effectGameOver)
    {
      if pendingAvoidHits != [] {
        var h := pendingAvoidHits[0];
        pendingAvoidHits := pendingAvoidHits[1..];
        AvoidHitWellFormed(game, nextId, h.blockId, h.lifeUsed);
        game := AfterAvoidHit(game, h.blockId, h.lifeUsed);
      }
    }

    /**
     * The end of the oldest swipe animation: that block's success is handled now, scored
     * with the double-score flag captured when the swipe ended.
     */
    method SettleSwipe(fault: bool)
      requires Valid()
      modifies this, store
      ensures Valid()
      ensures old(pendingSwipes) == [] ==>
                game == old(game) && store.docs == old(store.docs) && pendingSwipes == []
                && pendingTransitionEnds == old(pendingTransitionEnds)
      ensures old(pendingSwipes) != [] ==>
                var p := old(pendingSwipes)[0];
                game == Resolve(old(game), p.block.id, p.block.kind, p.doubleScore)
                && store.docs == AfterSuccessStore(old(store.docs), old(game), p.block.kind, userId, fault)
                && pendingSwipes == old(pendingSwipes)[1..]
                && pendingTransitionEnds == old(pendingTransitionEnds) + 1
      ensures unchanged(this`interaction, this`nextRareScore, this`coins, this`extraLives, this`doubleScoreActive, this`nextId)
      ensures unchanged(this`pendingAvoidHits, this`effectGameOver)
    {
      if pendingSwipes != [] {
        var p := pendingSwipes[0];
        pendingSwipes := pendingSwipes[1..];
        HandleBlockSuccess(p.block.id, p.block.kind, p.doubleScore, fault);
      }
    }

    /**
     * The shop listener's callback, fired with the user's record when it exists: coins and
     * extra lives are mirrored, and the double-score flag follows the stored count.
     */
    method OnShopSnapshot()
      modifies this
      ensures userId == "" || userId !in store.docs ==>
                coins == old(coins) && extraLives == old(extraLives) && doubleScoreActive == old(doubleScoreActive)
      ensures userId != "" && userId in store.docs ==>
                var d := store.docs[userId];
                coins == ShopApi.ListenerPayload(d).coins
                && extraLives == OrZero(ShopItem(d, ExtraLives))
                && doubleScoreActive == DoubleScoreFlag(OrZero(ShopItem(d, DoubleScore)), old(doubleScoreActive))
      ensures unchanged(this`game, this`interaction, this`nextRareScore, this`nextId)
      ensures unchanged(this`pendingAvoidHits, this`pendingSwipes, this`pendingTransitionEnds, this`effectGameOver)
    {
      if userId == "" || userId !in store.docs {
        return;
      }
      var payload := ShopApi.ListenerPayload(store.docs[userId]);
      coins := ShownCoins(payload.coins);
      var items := payload.shopItems;
      extraLives := OrZero(if ExtraLives in items then items[ExtraLives] else Undefined);
      var doubleScoreCount := OrZero(if DoubleScore in items then items[DoubleScore] else Undefined);
      doubleScoreActive := DoubleScoreFlag(doubleScoreCount, doubleScoreActive);
    }

    /**
     * The end-of-round effect, run after a render with the current `isGameOver`. Like any
     * effect with a dependency array it does nothing unless `isGameOver` differs from the
     * value it last ran with. When it does run and the round is now over with a double score
     * active, one double score is used up in the store; the flag clears only on success.
     * After a run nothing is due, so a second run with no change of `isGameOver` in between
     * changes nothing: the count drops at most once per transition into game over.
     */
    method HandleDoubleScoreEnd(fault: bool)
      modifies this, store
      ensures effectGameOver == game.isGameOver
      ensures old(effectGameOver) == old(game).isGameOver ==>
                doubleScoreActive == old(doubleScoreActive) && store.docs == old(store.docs)
      ensures !(old(game).isGameOver && !old(effectGameOver) && old(doubleScoreActive)) ==>
                doubleScoreActive == old(doubleScoreActive) && store.docs == old(store.docs)
      ensures old(game).isGameOver && !old(effectGameOver) && old(doubleScoreActive) ==>
                var ok := !fault && userId != "" && userId in old(store.docs);
                doubleScoreActive == !ok
                && store.docs == if ok then old(store.docs)[userId := ShopApi.TakeDoubleScore(old(store.docs)[userId])]
                                 else old(store.docs)
      ensures unchanged(this`game, this`interaction, this`nextRareScore, this`coins, this`extraLives, this`nextId)
      ensures unchanged(this`pendingAvoidHits, this`pendingSwipes, this`pendingTransitionEnds)
    {
      if game.isGameOver == effectGameOver {
        return;
      }
      effectGameOver := game.isGameOver;
      if game.isGameOver && doubleScoreActive {
        var success := ShopApi.ConsumeDoubleScore(store, userId, fault);
        if success {
          doubleScoreActive := false;
        }
      }
    }
  }
}
