/**
 * The blocks of src/App.js: their kinds, the spawner's choice of kind and batch size, and
 * the lifetimes under which the timer ages them out. Times are integer milliseconds
 * (`Date.now()` values); the source's seconds are converted exactly.
 */
module Blocks {
  import opened Wrappers

  /** The nine action kinds in the order of the `actions` table. */
  datatype Kind = SwipeLeft | SwipeRight | SwipeUp | SwipeDown | Tap | DoubleTap | Avoid | ExtraLive | Coins

  const Actions: seq<Kind> := [SwipeLeft, SwipeRight, SwipeUp, SwipeDown, Tap, DoubleTap, Avoid, ExtraLive, Coins]

  /** The kinds a regular block is drawn from: the table without its last two entries. */
  const RegularKindCount: nat := |Actions| - 2

  /** The tutorial script. */
  const TutorialBlocks: seq<Kind> := [Tap, SwipeLeft, DoubleTap]

  /** A block on the board; `id` replaces the source's random token and is never reused. */
  datatype Block = Block(id: nat, kind: Kind, createdAt: int)

  predicate IsRare(k: Kind) {
    k == ExtraLive || k == Coins
  }

  /** Kinds that leave the board 2.5 s earlier and never end the game by timing out. */
  predicate IsSpecial(k: Kind) {
    k == Avoid || k == ExtraLive || k == Coins
  }

  // ---------------------------------------------------------------------------
  // Spawning

  const MaxBatch := 9
  const ScorePerExtraBlock := 75
  const RareScoreStart := 200
  const RareScoreStep := 200
  const ExtraLiveChance: real := 1.0 / 450.0
  const CoinsBlockChance: real := 1.0 / 100.0

  /** `Math.min(9, 1 + Math.floor(score / 75))` */
  function BatchSize(score: int): (n: int)
    ensures score >= 0 ==> 1 <= n <= MaxBatch
    ensures score >= (MaxBatch - 1) * ScorePerExtraBlock ==> n == MaxBatch
  {
    var n := 1 + score / ScorePerExtraBlock;
    if n < MaxBatch then n else MaxBatch
  }

  /** A higher score never yields a smaller batch. */
  lemma BatchSizeMonotone(s1: int, s2: int)
    requires s1 <= s2
    ensures BatchSize(s1) <= BatchSize(s2)
  {
    assert s1 / ScorePerExtraBlock <= s2 / ScorePerExtraBlock;
  }

  /** The three `Math.random()` draws getRandomBlock may make for one slot. */
  datatype Roll = Roll(extraLive: real, coins: real, pick: real)

  predicate ValidRoll(r: Roll) {
    0.0 <= r.extraLive < 1.0 && 0.0 <= r.coins < 1.0 && 0.0 <= r.pick < 1.0
  }

  predicate ValidRolls(rs: seq<Roll>) {
    forall i :: 0 <= i < |rs| ==> ValidRoll(rs[i])
  }

  /** Rare blocks may appear once the score is at least 200 and has reached the watermark. */
  predicate RareEligible(score: int, nextRareScore: int) {
    score >= RareScoreStart && score >= nextRareScore
  }

  /** `actions[Math.floor(Math.random() * (actions.length - 2))]` */
  function RegularKind(pick: real): (k: Kind)
    requires 0.0 <= pick < 1.0
    ensures !IsRare(k)
    ensures k in Actions[..RegularKindCount]
  {
    var i := (pick * RegularKindCount as real).Floor;
    assert 0 <= i < RegularKindCount;
    Actions[i]
  }

  /** The kind getRandomBlock returns for one slot, given the captured score and watermark. */
  function RandomKind(score: int, nextRareScore: int, roll: Roll): Kind
    requires ValidRoll(roll)
  {
    if RareEligible(score, nextRareScore) && roll.extraLive < ExtraLiveChance then ExtraLive
    else if RareEligible(score, nextRareScore) && roll.coins < CoinsBlockChance then Coins
    else RegularKind(roll.pick)
  }

  /**
   * getRandomBlock: a rare kind only when eligible, the extra life tried before coins;
   * otherwise one of the first seven kinds.
   */
  lemma RandomKindRules(score: int, nextRareScore: int, roll: Roll)
    requires ValidRoll(roll)
    ensures var k := RandomKind(score, nextRareScore, roll);
            (IsRare(k) ==> RareEligible(score, nextRareScore))
            && (k == ExtraLive <==> RareEligible(score, nextRareScore) && roll.extraLive < ExtraLiveChance)
            && (k == Coins <==> RareEligible(score, nextRareScore) && roll.extraLive >= ExtraLiveChance
                                && roll.coins < CoinsBlockChance)
            && (!IsRare(k) ==> k in Actions[..RegularKindCount])
  {
  }

  /** Every one of the seven regular kinds can be drawn. */
  lemma {:induction false} EveryRegularKindReachable(i: nat)
    requires i < RegularKindCount
    ensures 0.0 <= i as real / RegularKindCount as real < 1.0
    ensures RegularKind(i as real / RegularKindCount as real) == Actions[i]
  {
    var p := i as real / RegularKindCount as real;
    assert p * RegularKindCount as real == i as real;
  }

  /** The number of rare kinds the first `n` draws of a batch produce. */
  function RareCount(score: int, nextRareScore: int, rolls: seq<Roll>): (c: nat)
    requires ValidRolls(rolls)
    ensures c <= |rolls|
  {
    if rolls == [] then 0
    else
      RareCount(score, nextRareScore, rolls[..|rolls| - 1])
      + (if IsRare(RandomKind(score, nextRareScore, rolls[|rolls| - 1])) then 1 else 0)
  }

  /** Below the watermark a whole batch holds no rare block. */
  lemma {:induction false} NoRareWhenIneligible(score: int, nextRareScore: int, rolls: seq<Roll>)
    requires ValidRolls(rolls) && !RareEligible(score, nextRareScore)
    ensures RareCount(score, nextRareScore, rolls) == 0
  {
    if rolls != [] {
      NoRareWhenIneligible(score, nextRareScore, rolls[..|rolls| - 1]);
    }
  }

  /** The live batch spawnBlocks builds: one block per slot with fresh, consecutive ids. */
  function Batch(score: int, nextRareScore: int, rolls: seq<Roll>, firstId: nat, now: int): (bs: seq<Block>)
    requires score >= 0 && ValidRolls(rolls) && |rolls| >= BatchSize(score)
    ensures |bs| == BatchSize(score)
  {
    seq(BatchSize(score), i requires 0 <= i < BatchSize(score) =>
      Block(firstId + i, RandomKind(score, nextRareScore, rolls[i]), now))
  }

  /** Block i of a batch has id `firstId + i`, the kind drawn from roll i and the time `now`. */
  lemma BatchBlocks(score: int, nextRareScore: int, rolls: seq<Roll>, firstId: nat, now: int)
    requires score >= 0 && ValidRolls(rolls) && |rolls| >= BatchSize(score)
    ensures var bs := Batch(score, nextRareScore, rolls, firstId, now);
            forall i :: 0 <= i < |bs| ==>
              bs[i] == Block(firstId + i, RandomKind(score, nextRareScore, rolls[i]), now)
  {
  }

  /** A batch's ids are distinct and all below the first id not handed out. */
  lemma BatchIds(score: int, nextRareScore: int, rolls: seq<Roll>, firstId: nat, now: int)
    requires score >= 0 && ValidRolls(rolls) && |rolls| >= BatchSize(score)
    ensures var bs := Batch(score, nextRareScore, rolls, firstId, now);
            UniqueIds(bs) && IdsBelow(bs, firstId + |bs|)
            && forall b :: b in bs ==> firstId <= b.id
  {
    var bs := Batch(score, nextRareScore, rolls, firstId, now);
    BatchBlocks(score, nextRareScore, rolls, firstId, now);
    forall b | b in bs
      ensures firstId <= b.id < firstId + |bs|
    {
      var j :| 0 <= j < |bs| && bs[j] == b;
    }
  }

  // ---------------------------------------------------------------------------
  // Lifetimes

  /** The round's time limit: 5 s from a score of 500 on, 5.5 s below. */
  function TimeLimit(score: int): int {
    if score >= 500 then 5000 else 5500
  }

  /** How long a block of kind `k` stays: special kinds 2.5 s less than the time limit. */
  function Lifetime(k: Kind, score: int): (r: int)
    ensures 0 < r <= TimeLimit(score)
    ensures IsSpecial(k) <==> r < TimeLimit(score)
  {
    if IsSpecial(k) then TimeLimit(score) - 2500 else TimeLimit(score)
  }

  /** A higher score never lengthens the time limit. */
  lemma TimeLimitTightens(s1: int, s2: int)
    requires s1 <= s2
    ensures TimeLimit(s2) <= TimeLimit(s1)
    ensures TimeLimit(s2) < TimeLimit(s1) <==> s1 < 500 <= s2
  {
  }

  /** The filter of the ageing step: a block stays while its age is below its lifetime. */
  predicate Survives(b: Block, now: int, score: int) {
    now - b.createdAt < Lifetime(b.kind, score)
  }

  /** The `find` of the tick: a standard block whose age has reached the time limit. */
  predicate TimedOut(b: Block, now: int, score: int) {
    !IsSpecial(b.kind) && now - b.createdAt >= TimeLimit(score)
  }

  /** A standard block survives ageing exactly when it has not timed out. */
  lemma StandardSurvivesUnlessTimedOut(b: Block, now: int, score: int)
    requires !IsSpecial(b.kind)
    ensures Survives(b, now, score) <==> !TimedOut(b, now, score)
  {
  }

  // ---------------------------------------------------------------------------
  // The block list

  predicate UniqueIds(bs: seq<Block>) {
    forall i, j :: 0 <= i < j < |bs| ==> bs[i].id != bs[j].id
  }

  predicate IdsBelow(bs: seq<Block>, bound: nat) {
    forall b :: b in bs ==> b.id < bound
  }

  /** Prepending a block whose id the list does not hold keeps the ids unique. */
  lemma ConsUnique(b: Block, rest: seq<Block>)
    requires UniqueIds(rest) && forall x :: x in rest ==> x.id != b.id
    ensures UniqueIds([b] + rest)
  {
    var r := [b] + rest;
    forall i, j | 0 <= i < j < |r|
      ensures r[i].id != r[j].id
    {
      if i == 0 {
        assert r[j] == rest[j - 1] && r[j] in rest;
      } else {
        assert r[i] == rest[i - 1] && r[j] == rest[j - 1];
      }
    }
  }

  /** `blocks.filter(b => b.id !== id)`: every other block stays, in order. */
  function Without(bs: seq<Block>, id: nat): (r: seq<Block>)
    ensures forall b :: b in r <==> b in bs && b.id != id
    ensures |r| <= |bs|
    ensures (forall b :: b in bs ==> b.id != id) ==> r == bs
  {
    if bs == [] then []
    else
      var rest := Without(bs[1..], id);
      assert forall b :: b in bs[1..] ==> b in bs;
      if bs[0].id == id then rest else [bs[0]] + rest
  }

  /** With unique ids, removing a present block shortens the list by exactly one. */
  lemma {:induction false} WithoutRemovesOne(bs: seq<Block>, k: nat)
    requires UniqueIds(bs) && k < |bs|
    ensures |Without(bs, bs[k].id)| == |bs| - 1
  {
    if k == 0 {
      assert forall b :: b in bs[1..] ==> b.id != bs[0].id;
    } else {
      assert bs[1..][k - 1] == bs[k];
      WithoutRemovesOne(bs[1..], k - 1);
    }
  }

  /** The ageing filter: the blocks that survive at time `now`, in order. */
  function AgeOut(bs: seq<Block>, now: int, score: int): (r: seq<Block>)
    ensures forall b :: b in r <==> b in bs && Survives(b, now, score)
    ensures |r| <= |bs|
  {
    if bs == [] then []
    else
      var rest := AgeOut(bs[1..], now, score);
      assert forall b :: b in bs[1..] ==> b in bs;
      if Survives(bs[0], now, score) then [bs[0]] + rest else rest
  }

  /** Removing a block keeps the ids unique. */
  lemma {:induction false} WithoutUnique(bs: seq<Block>, id: nat)
    requires UniqueIds(bs)
    ensures UniqueIds(Without(bs, id))
  {
    if bs != [] {
      WithoutUnique(bs[1..], id);
      if bs[0].id != id {
        ConsUnique(bs[0], Without(bs[1..], id));
      }
    }
  }

  /** Ageing keeps the ids unique. */
  lemma {:induction false} AgeOutUnique(bs: seq<Block>, now: int, score: int)
    requires UniqueIds(bs)
    ensures UniqueIds(AgeOut(bs, now, score))
  {
    if bs != [] {
      AgeOutUnique(bs[1..], now, score);
      if Survives(bs[0], now, score) {
        ConsUnique(bs[0], AgeOut(bs[1..], now, score));
      }
    }
  }

  /** The index of the first timed-out standard block, None when there is none. */
  function FirstTimedOut(bs: seq<Block>, now: int, score: int): (r: Option<nat>)
    ensures r.Some? ==> r.value < |bs| && TimedOut(bs[r.value], now, score)
    ensures r.Some? ==> forall j :: 0 <= j < r.value ==> !TimedOut(bs[j], now, score)
    ensures r.None? <==> forall b :: b in bs ==> !TimedOut(b, now, score)
  {
    if bs == [] then None
    else if TimedOut(bs[0], now, score) then Some(0)
    else match FirstTimedOut(bs[1..], now, score)
      case Some(i) => Some(i + 1)
      case None => assert forall b :: b in bs ==> b == bs[0] || b in bs[1..]; None
  }
}
