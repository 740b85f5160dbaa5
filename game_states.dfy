/**
 * The round state of src/App.js (`gameState` and `interactionState`) and the updater
 * functions the component passes to its state setters. Each updater is a pure function of
 * the previous state; the component class in module App applies them.
 */
module GameStates {
  import opened Wrappers
  import opened Blocks
  import opened Gestures

  datatype GameState = GameState(
    blocks: seq<Block>,
    score: int,
    timer: nat,            // tenths of a second of live play
    isGameOver: bool,
    isInTutorial: bool,
    tutorialIndex: nat,
    transitioning: bool,
    isFrozen: bool)

  /** The state a new component starts in: the tutorial, nothing on the board. */
  const InitialState := GameState([], 0, 0, false, true, 0, false, false)

  /** The state resetGame installs: a fresh live round. */
  const ResetState := GameState([], 0, 0, false, false, 0, false, false)

  /**
   * What holds of every state the component reaches, given that every id handed out so far
   * is below `nextId`.
   */
  predicate WellFormed(s: GameState, nextId: nat) {
    s.score >= 0 && s.score % 10 == 0
    && s.tutorialIndex < |TutorialBlocks|
    && (!s.isInTutorial ==> s.tutorialIndex == 0)
    && (s.isGameOver ==> s.blocks == [])
    && UniqueIds(s.blocks) && IdsBelow(s.blocks, nextId)
  }

  /** A larger id bound keeps a state well formed. */
  lemma WellFormedGrows(s: GameState, n: nat, m: nat)
    requires WellFormed(s, n) && n <= m
    ensures WellFormed(s, m)
  {
  }

  // ---------------------------------------------------------------------------
  // Spawning

  /** spawnBlocks acts only on an empty board of a running, settled round. */
  predicate NeedsBlocks(s: GameState) {
    !s.isGameOver && !s.transitioning && s.blocks == []
  }

  /** The tutorial block for the current step. */
  function TutorialBlock(s: GameState, id: nat, now: int): (b: Block)
    requires s.tutorialIndex < |TutorialBlocks|
    ensures b.kind == TutorialBlocks[s.tutorialIndex] && !IsSpecial(b.kind)
  {
    Block(id, TutorialBlocks[s.tutorialIndex], now)
  }

  /** Filling an empty board with fresh blocks keeps the state well formed. */
  lemma SpawnWellFormed(s: GameState, nextId: nat, bs: seq<Block>, newNextId: nat)
    requires WellFormed(s, nextId) && NeedsBlocks(s) && nextId <= newNextId
    requires UniqueIds(bs) && IdsBelow(bs, newNextId)
    ensures WellFormed(s.(blocks := bs), newNextId)
  {
  }

  // ---------------------------------------------------------------------------
  // Resolving a block (handleBlockSuccess)

  /** Points for a standard block: doubled while a double score is active. */
  function ScoreIncrement(doubleScoreActive: bool): (n: int)
    ensures n > 0 && n % 10 == 0
    ensures n == if doubleScoreActive then 2 * ScoreIncrement(false) else 10
  {
    if doubleScoreActive then 20 else 10
  }

  /** The round ends: flagged over, board cleared, no transition pending. */
  function EndRound(s: GameState): (r: GameState)
    ensures r.isGameOver && r.blocks == [] && !r.transitioning
    ensures r.score == s.score && r.timer == s.timer && r.isFrozen == s.isFrozen
    ensures r.isInTutorial == s.isInTutorial && r.tutorialIndex == s.tutorialIndex
  {
    s.(isGameOver := true, blocks := [], transitioning := false)
  }

  /**
   * The updater of handleBlockSuccess. In the tutorial any success clears the board and
   * steps the script, leaving it after the last step; in live play the block goes and a
   * standard block scores.
   */
  function Resolve(s: GameState, blockId: nat, kind: Kind, doubleScoreActive: bool): (r: GameState)
    ensures r.score >= s.score && r.timer == s.timer && r.isGameOver == s.isGameOver
    ensures r.isFrozen == s.isFrozen
    ensures s.isInTutorial ==>
              r.blocks == [] && r.transitioning && r.score == s.score
              && (s.tutorialIndex + 1 < |TutorialBlocks| ==>
                    r.isInTutorial && r.tutorialIndex == s.tutorialIndex + 1)
              && (s.tutorialIndex + 1 >= |TutorialBlocks| ==> !r.isInTutorial && r.tutorialIndex == 0)
    ensures !s.isInTutorial ==>
              !r.isInTutorial && r.tutorialIndex == s.tutorialIndex && r.transitioning == s.transitioning
              && (forall b :: b in r.blocks <==> b in s.blocks && b.id != blockId)
              && r.score == s.score + (if IsRare(kind) then 0 else ScoreIncrement(doubleScoreActive))
  {
    if s.isInTutorial then
      if s.tutorialIndex < |TutorialBlocks| - 1 then
        s.(blocks := [], tutorialIndex := s.tutorialIndex + 1, transitioning := true)
      else
        s.(blocks := [], isInTutorial := false, transitioning := true, tutorialIndex := 0)
    else if kind == ExtraLive || kind == Coins then
      s.(blocks := Without(s.blocks, blockId))
    else
      s.(score := s.score + ScoreIncrement(doubleScoreActive), blocks := Without(s.blocks, blockId))
  }

  /** In live play, resolving a block on the board removes exactly that one block. */
  lemma ResolveRemovesOne(s: GameState, k: nat, kind: Kind, doubleScoreActive: bool)
    requires !s.isInTutorial && UniqueIds(s.blocks) && k < |s.blocks|
    ensures var r := Resolve(s, s.blocks[k].id, kind, doubleScoreActive);
            |r.blocks| == |s.blocks| - 1 && s.blocks[k] !in r.blocks
            && forall j :: 0 <= j < |s.blocks| && j != k ==> s.blocks[j] in r.blocks
  {
    WithoutRemovesOne(s.blocks, k);
  }

  lemma ResolveWellFormed(s: GameState, nextId: nat, blockId: nat, kind: Kind, doubleScoreActive: bool)
    requires WellFormed(s, nextId)
    ensures WellFormed(Resolve(s, blockId, kind, doubleScoreActive), nextId)
  {
    if !s.isInTutorial {
      WithoutUnique(s.blocks, blockId);
    }
  }

  /** Three successes take a fresh tutorial to live play, and not fewer. */
  lemma TutorialTakesThreeSteps(s: GameState, ids: seq<nat>, kinds: seq<Kind>, ds: bool)
    requires s.isInTutorial && s.tutorialIndex == 0 && |ids| == 3 && |kinds| == 3
    ensures var r1 := Resolve(s, ids[0], kinds[0], ds);
            var r2 := Resolve(r1, ids[1], kinds[1], ds);
            var r3 := Resolve(r2, ids[2], kinds[2], ds);
            r1.isInTutorial && r2.isInTutorial && !r3.isInTutorial
            && r3.score == s.score && r3.tutorialIndex == 0 && r3.blocks == []
  {
  }

  /** The tutorial scores nothing however often it is played. */
  lemma TutorialScoresNothing(s: GameState, blockId: nat, kind: Kind, ds: bool)
    requires s.isInTutorial
    ensures Resolve(s, blockId, kind, ds).score == s.score
  {
  }

  /** The 100 ms reset that follows every success. */
  function TransitionEnded(s: GameState): (r: GameState)
    ensures !r.transitioning && r.(transitioning := s.transitioning) == s
  {
    s.(transitioning := false)
  }

  // ---------------------------------------------------------------------------
  // The tick

  /** The interval is installed only while the round is live, past the tutorial, unfrozen. */
  predicate TickRuns(s: GameState) {
    !s.isGameOver && !s.isInTutorial && !s.isFrozen
  }

  /** The ageing updater: over rounds are left alone; otherwise expired blocks go and a tenth passes. */
  function Aged(s: GameState, now: int): (r: GameState)
    ensures s.isGameOver ==> r == s
    ensures !s.isGameOver ==>
              r.timer == s.timer + 1
              && (forall b :: b in r.blocks <==> b in s.blocks && Survives(b, now, s.score))
              && r.(timer := s.timer, blocks := s.blocks) == s
  {
    if s.isGameOver then s else s.(timer := s.timer + 1, blocks := AgeOut(s.blocks, now, s.score))
  }

  /**
   * One run of the interval body at time `now`. A standard block past the time limit is
   * dealt with first: with an extra life only it is removed (and nothing ages this time),
   * without one the round ends. Otherwise the board ages.
   */
  function TickOutcome(s: GameState, now: int, hasExtraLife: bool): (r: GameState)
    ensures forall b :: b in r.blocks ==> b in s.blocks
    ensures r.score == s.score && r.isInTutorial == s.isInTutorial && r.isFrozen == s.isFrozen
    ensures FirstTimedOut(s.blocks, now, s.score).Some? ==>
              var t := s.blocks[FirstTimedOut(s.blocks, now, s.score).value];
              if hasExtraLife then
                r.timer == s.timer && r.isGameOver == s.isGameOver
                && forall b :: b in r.blocks <==> b in s.blocks && b.id != t.id
              else r.isGameOver && r.blocks == [] && r.timer == s.timer
    ensures FirstTimedOut(s.blocks, now, s.score).None? ==> r == Aged(s, now)
  {
    match FirstTimedOut(s.blocks, now, s.score)
    case Some(i) =>
      if hasExtraLife then s.(blocks := Without(s.blocks, s.blocks[i].id))
      else Aged(EndRound(s), now)
    case None => Aged(s, now)
  }

  /**
   * When nothing has timed out the tick only takes special blocks off the board: every
   * standard block is still there.
   */
  lemma {:induction false} QuietTickKeepsStandardBlocks(s: GameState, now: int, hasExtraLife: bool)
    requires FirstTimedOut(s.blocks, now, s.score).None? && !s.isGameOver
    ensures var r := TickOutcome(s, now, hasExtraLife);
            r.timer == s.timer + 1
            && forall b :: b in s.blocks && !IsSpecial(b.kind) ==> b in r.blocks
  {
    forall b | b in s.blocks && !IsSpecial(b.kind)
      ensures Survives(b, now, s.score)
    {
      StandardSurvivesUnlessTimedOut(b, now, s.score);
    }
  }

  /** A special block leaves the board 2.5 s before a standard block created with it would time out. */
  lemma SpecialLeavesBeforeTimeLimit(b: Block, now: int, score: int)
    requires IsSpecial(b.kind) && now - b.createdAt >= TimeLimit(score) - 2500
    ensures !Survives(b, now, score)
  {
  }

  lemma TickWellFormed(s: GameState, nextId: nat, now: int, hasExtraLife: bool)
    requires WellFormed(s, nextId)
    ensures WellFormed(TickOutcome(s, now, hasExtraLife), nextId)
  {
    var r := TickOutcome(s, now, hasExtraLife);
    match FirstTimedOut(s.blocks, now, s.score)
    case Some(i) =>
      if hasExtraLife {
        WithoutUnique(s.blocks, s.blocks[i].id);
      }
    case None =>
      if !s.isGameOver {
        AgeOutUnique(s.blocks, now, s.score);
      }
  }

  // ---------------------------------------------------------------------------
  // The Avoid hit

  /** The 1000 ms follow-up of an Avoid hit: the block goes and play resumes, or the round ends. */
  function AfterAvoidHit(s: GameState, blockId: nat, lifeUsed: bool): (r: GameState)
    ensures !r.isFrozen && r.score == s.score && r.timer == s.timer
    ensures lifeUsed ==> r.isGameOver == s.isGameOver
                         && forall b :: b in r.blocks <==> b in s.blocks && b.id != blockId
    ensures !lifeUsed ==> r.isGameOver && r.blocks == [] && !r.transitioning
  {
    if lifeUsed then s.(blocks := Without(s.blocks, blockId), isFrozen := false)
    else EndRound(s).(isFrozen := false)
  }

  lemma AvoidHitWellFormed(s: GameState, nextId: nat, blockId: nat, lifeUsed: bool)
    requires WellFormed(s, nextId)
    ensures WellFormed(AfterAvoidHit(s, blockId, lifeUsed), nextId)
  {
    if lifeUsed {
      WithoutUnique(s.blocks, blockId);
    }
  }

  // ---------------------------------------------------------------------------
  // Interaction state

  /** Where and when a pointer went down. */
  datatype Anchor = Anchor(x: real, y: real, time: int)

  datatype InteractionState = InteractionState(start: Option<Anchor>, lastTapTime: int, tapCount: nat)

  const NoInteraction := InteractionState(None, 0, 0)

  /** What an end event on a non-Avoid block leads to. */
  datatype EndAction =
    | ResolveNow       // handleBlockSuccess at once
    | ResolveLater     // a swipe: handleBlockSuccess after its 150 ms animation
    | ArmDoubleTap     // first tap of a double tap
    | Ignore

  /** The tap and swipe branches of the end handler for a block of kind `kind`. */
  function DecideEnd(kind: Kind, g: Gesture, lastTapTime: int, now: int): (a: EndAction)
    ensures a == ResolveNow <==>
              g == TapLike && (kind == Tap || kind == ExtraLive || kind == Coins
                               || (kind == DoubleTap && now - lastTapTime < DoubleTapWindow))
    ensures a == ArmDoubleTap <==> g == TapLike && kind == DoubleTap && now - lastTapTime >= DoubleTapWindow
    ensures a == ResolveLater <==> g.Swipe? && kind == SwipeKind(g.dir)
  {
    match g
    case TapLike =>
      if kind == DoubleTap then
        if now - lastTapTime < DoubleTapWindow then ResolveNow else ArmDoubleTap
      else if kind == Tap || kind == ExtraLive || kind == Coins then ResolveNow
      else Ignore
    case Swipe(dir) => if kind == SwipeKind(dir) then ResolveLater else Ignore
    case NoGesture => Ignore
  }

  /** An Avoid block is never resolved by a tap or a swipe (the Avoid path handles it first). */
  lemma AvoidNeverMatches(g: Gesture, lastTapTime: int, now: int)
    ensures DecideEnd(Avoid, g, lastTapTime, now) == Ignore
  {
  }

  /**
   * The interaction state after a non-Avoid end: the start point is always cleared; a
   * completed double tap clears the tap record, a first tap arms it.
   */
  function AfterEnd(i: InteractionState, kind: Kind, a: EndAction, now: int): (r: InteractionState)
    ensures r.start.None?
    ensures a == ResolveNow && kind == DoubleTap ==> r.lastTapTime == 0 && r.tapCount == 0
    ensures a == ArmDoubleTap ==> r.lastTapTime == now && r.tapCount == i.tapCount + 1
    ensures a != ArmDoubleTap && !(a == ResolveNow && kind == DoubleTap) ==>
              r.lastTapTime == i.lastTapTime && r.tapCount == i.tapCount
  {
    if a == ResolveNow && kind == DoubleTap then InteractionState(None, 0, 0)
    else if a == ArmDoubleTap then InteractionState(None, now, i.tapCount + 1)
    else i.(start := None)
  }

  /** Two taps on a double-tap block less than 300 ms apart resolve it; the first one only arms. */
  lemma DoubleTapSequence(i: InteractionState, t1: int, t2: int)
    requires t1 - i.lastTapTime >= DoubleTapWindow && 0 <= t2 - t1 < DoubleTapWindow
    ensures DecideEnd(DoubleTap, TapLike, i.lastTapTime, t1) == ArmDoubleTap
    ensures var i1 := AfterEnd(i, DoubleTap, ArmDoubleTap, t1);
            DecideEnd(DoubleTap, TapLike, i1.lastTapTime, t2) == ResolveNow
  {
  }
}
