# SwipeItGame in Dafny

A Dafny model of the core of SwipeItGame, a swipe-and-tap reflex game. It has five parts.

- **The round.** `App.SwipeGame` in `app.dfy` models the state machine of the `SwipeGame` component. Blocks appear in batches (`blocks.dfy`). The player resolves each block with the gesture it asks for (`gestures.dfy`). A 100 ms tick ages blocks out and ends the round when a standard block times out, unless an extra life is spent. An Avoid block must not be touched. A three-step tutorial precedes play. The round's pure state updates are in `game_states.dfy`.
- **The user record.** `shop_api.dfy` and `gameover_api.dfy` model the user-record operations behind the round: extra lives, double score, purchases, the coin award with its coinCollector achievement, and referral credits. The document store is the class `UserStore.Store`, one `UserDoc` per user id (`user_store.dfy`). JavaScript's view of a stored number (`undefined`, NaN, the infinities, `|| 0`, `Math.floor`, `increment`) is in `js_values.dfy`.
- **Themes.** The score-to-background-theme lookup (`themes.dfy`).
- **The version script.** The release script that bumps `major.minor.patch` in the version file (`update_version.dfy`).
- **Helpers.** `wrappers.dfy` holds `Option`.

## How time, randomness and failures appear

- **Clock.** `Date.now()` is a `now` parameter in integer milliseconds. The limits of 5 s and 5.5 s are 5000 and 5500 ms. `timer` counts tenths of a second.
- **Randomness.** `Math.random()` is a `Roll` of the three draws `getRandomBlock` may make. The random block id is replaced by a counter `nextId`, so ids are unique by construction.
- **Timers become events.** React's timers are separate methods, in the order their callbacks run:
  - the 1000 ms follow-up of an Avoid hit is `SettleAvoidHit`, fed by the queue `pendingAvoidHits`;
  - the 150 ms swipe animation is `SettleSwipe`, fed by the queue `pendingSwipes`;
  - the 100 ms end of a transition is `EndTransition`;
  - the effect on `isGameOver` (src/App.js:667-679) is `HandleDoubleScoreEnd`, to be called after every render. The field `effectGameOver` plays the part of its dependency array: the effect acts only when `isGameOver` differs from the value it last ran with.
- **Store failures.** A store that throws on every call is the `fault` parameter. A missing user id (`null`) is the empty string.
- **Ordering.** Every handler runs to completion before the next event. A functional updater passed to a state setter is a pure function of the previous state: `Resolve`, `TickOutcome`, `AfterAvoidHit`, `AfterEnd`.

## Behaviour of the code worth noting

- **The timer counts up.** `timer` grows by one tenth of a second per tick (src/App.js:407). No score depends on it, and an Avoid block that expires scores nothing.
- **Blocks resolve while frozen.** `handleInteraction` does not check `isFrozen`. While an Avoid hit is pending, other blocks can still be resolved.
- **Extra lives while frozen.** The interval does not run while frozen. An Avoid hit's extra life is consumed when the hit happens, not at the 1000 ms follow-up.
- **Delayed successes keep their flag.** A swipe's success runs 150 ms later through the handler that scheduled it, so it scores with the double-score flag of the moment the swipe ended (`PendingSwipe.doubleScore`).
- **Follow-ups survive a reset.** The pending Avoid follow-ups and swipe successes survive `resetGame`. A follow-up can therefore end or change a freshly reset round (`SwipeGame.ResetGame` leaves both queues as they were).
- **Infinite balances.** `updateUserData` clamps `coins` and `totalCoinsEarned` with `Math.max(0, Math.floor(...))`, which keeps `+Infinity`. `GameOverApi.ClampValue` states that `+Infinity` stays `+Infinity`.
- **Progress is unclamped.** The coinCollector progress is the unclamped, unfloored total, while the stored balances are clamped.
- **Missing achievements.** `updateCoinsAndAchievements` on a record without an `achievements` list throws inside the `map` and writes nothing (`GameOverApi.AfterCoinsUpdate`).

## Model

The proof helpers `Blocks.ConsUnique`, `Gestures.Abs` and `UserStore.Store.constructor` have no row. Constants and definitions without a contract that are used only inside a member with a row are covered by that member's row. Examples are the tables and thresholds, predicates such as `GameStates.WellFormed`, `Blocks.TimedOut` and `GameOverApi.ShouldRefer`, `GameStates.InitialState` and `ResetState`, the JavaScript value helpers of `js_values.dfy`, and `UpdateVersion.CurrentVersion`, `NewContent`, `ToNumber`, `Text` and `Show`.

| member | source | states |
|---|---|---|
| `App.SwipeGame.constructor` | src/App.js:87-106 | Starts in the tutorial with an empty board, score 0, the rare-block watermark at 200, coins and extra lives 0, double score off, and the end-of-round effect last run with `isGameOver` false. |
| `App.SwipeGame.ResetGame` | src/App.js:179-233 | A fresh live round: empty board, score 0, timer 0, not over, not in the tutorial, not frozen, pointer state cleared, watermark 200. With a known user, the double-score flag becomes "the stored count is > 0", and false when the read fails or finds no record. |
| `App.SwipeGame.SpawnBlocks` | src/App.js:287-320 | Changes nothing unless the board is empty, the round is not over and no transition is pending. The tutorial gets exactly one block, of kind `tutorialBlocks[tutorialIndex]`. Live play gets exactly `Batch(...)`, that is min(9, 1 + score/75) blocks with fresh ids. The watermark rises by 200 per rare block. Keeps `Valid`. |
| `App.SwipeGame.SpawnBatch` | src/App.js:306-312 | The live branch: the board becomes the batch built from the score and watermark captured before the batch. Ids are handed out consecutively. |
| `App.BuildBatch` | src/App.js:241-285 | The `map` over `getRandomBlock` (a loop proved against `Blocks.Batch`). It returns exactly `Batch(score, watermark, rolls, firstId, now)` and the watermark raised by 200 times the number of rare kinds drawn. |
| `App.WatermarkOnGrid` | src/App.js:253-276 | Raising the watermark by whole 200-point steps keeps it at or above its old value and on the 200-point grid from 200. |
| `App.BatchKeepsValid` | src/App.js:306-312 | Filling an empty board with a live batch keeps the round well formed under the raised id bound, and the raised watermark stays on the 200-point grid. |
| `App.SwipeGame.Tick` | src/App.js:323-423 | Nothing while the round is over, in the tutorial or frozen. Otherwise the new state is `TickOutcome` with "extra life available" meaning a timed-out standard block exists and the store held a life. In that case exactly one life is taken from the store; the store is untouched otherwise. Keeps `Valid`. |
| `App.AfterLifeCheck` | src/App.js:65-84 | The store after checkAndConsumeExtraLife: one life taken from the user's record when `CanConsumeLife` holds. No contract of its own; `LifeCheckTouchesOnlyUser` states its frame. |
| `App.LifeCheckTouchesOnlyUser` | src/App.js:65-84 | The life check creates no record, changes no other user's record, and changes nothing when no life could be consumed. |
| `App.CheckAndConsumeExtraLife` | src/App.js:65-84 | True iff the store answers, the user is known and the stored extra-life count is > 0. Exactly then the count drops by one; otherwise the store is unchanged. |
| `App.SwipeGame.HandleBlockSuccess` | src/App.js:425-515 | The state becomes `Resolve(...)` under the double-score flag the calling handler captured. The store changes as `AfterSuccessStore` says. One end of transition is scheduled. Keeps `Valid`. |
| `App.SwipeGame.EndTransition` | src/App.js:507-512 | A scheduled transition end clears `transitioning` and changes nothing else. |
| `App.SwipeGame.InteractionStart` | src/App.js:531-539 | Records the start point and time unless the round is over. |
| `App.SwipeGame.InteractionEnd` | src/App.js:524-664 | Ignored once the round is over or without a start. An Avoid block resolves in the tutorial. In live play it freezes the round, consumes a life when there is one, and queues the follow-up; the start point is kept. Any other block follows `DecideEnd` on the classified gesture: an immediate success, a queued swipe success (with the current double-score flag), an armed double tap or nothing. The start point is always cleared. |
| `App.SwipeGame.SettleAvoidHit` | src/App.js:586-603 | The oldest Avoid follow-up: without the block and unfrozen when a life was used, otherwise the round ends (board empty, unfrozen). |
| `App.SwipeGame.SettleSwipe` | src/App.js:549-568 | The oldest queued swipe is resolved exactly as `HandleBlockSuccess` would, with the double-score flag captured when the swipe ended, whether or not the block is still on the board. |
| `App.SwipeGame.OnShopSnapshot` | src/App.js:109-136 | With a known user and an existing record: coins are shown as the listener's payload, and extra lives as the stored count or 0. The double-score flag is set by a positive count, cleared by a zero count, and otherwise kept. |
| `App.SwipeGame.HandleDoubleScoreEnd` | src/App.js:666-679 | The effect runs only when `isGameOver` has changed since its last run, and afterwards nothing is due. A second call with no change in between changes nothing, so the stored count drops at most once per transition into game over. When it runs with the round over and double score active, the stored count is decremented, and the flag clears exactly when the store accepted the decrement. |
| `App.AfterCoinsBlock` | src/App.js:467-490 | The store after a coins block: unchanged on failure or without a user id, at most the user's own record added or changed, every other record kept. |
| `App.CollectCoinsBlock` | src/App.js:467-490 | The store becomes `AfterCoinsBlock`. A user without a record gets one with 15 coins, 15 earned, zero high score and balloons, and the default achievements. An existing record gets `updateCoinsAndAchievements(15)`. |
| `App.CoinsBlockAwardsFifteen` | src/App.js:467-490 | A coins block is worth exactly 15: a new user ends with 15 coins and 15 earned. A user with whole non-negative balances gains exactly 15 on both. No other user's record changes. |
| `App.ExtraLifeBlockAddsOne` | src/App.js:461-466 | Collecting an extra-life block in live play stores exactly one more extra life. A missing record is created with 1. |
| `App.AfterSuccessStore` | src/App.js:461-490 | The store call of handleBlockSuccess: only the user's own record can change, and nothing changes when the store fails. |
| `App.StandardSuccessLeavesStore` | src/App.js:434-502 | Tutorial successes and standard blocks never touch the store. |
| `App.ShownCoins` | src/App.js:116-120 | The coins shown equal the payload's number; a missing or NaN value shows as 0. |
| `App.DoubleScoreFlag` | src/App.js:126-132 | A positive count sets the flag, a zero count clears it, anything else (negative, NaN) leaves it. |
| `Blocks.BatchSize` | src/App.js:308 | For a score ≥ 0 the batch has 1 to 9 blocks, and exactly 9 from score 600 on. |
| `Blocks.BatchSizeMonotone` | src/App.js:308 | A higher score never gives a smaller batch. |
| `Blocks.RegularKind` | src/App.js:280-284 | A regular draw is one of the first seven kinds and never extraLive or coins. |
| `Blocks.RandomKind` | src/App.js:241-285 | getRandomBlock's choice of kind for one slot. No contract of its own; `RandomKindRules` states its rules. |
| `Blocks.RandomKindRules` | src/App.js:241-285 | A rare kind needs score ≥ 200 and score ≥ watermark. extraLive iff eligible and the first draw is below 1/450. coins iff eligible, extraLive not drawn, and the second draw below 1/100. Otherwise one of the first seven kinds. |
| `Blocks.EveryRegularKindReachable` | src/App.js:280-284 | Each of the seven regular kinds is drawn for some value of `Math.random()`. |
| `Blocks.RareCount` | src/App.js:249-278 | The number of rare blocks in a batch is at most its size. |
| `Blocks.NoRareWhenIneligible` | src/App.js:249 | Below score 200, or below the watermark, a batch holds no rare block. |
| `Blocks.Batch` | src/App.js:306-311 | The batch has exactly `BatchSize(score)` blocks. |
| `Blocks.BatchBlocks` | src/App.js:306-311 | Block i of a batch has id `firstId + i`, the kind drawn from the i-th roll, and the creation time `now`. |
| `Blocks.BatchIds` | src/App.js:306-311 | A batch's ids are distinct and all lie in `[firstId, firstId + size)`. |
| `Blocks.StandardSurvivesUnlessTimedOut` | src/App.js:337-405 | For a standard block the tick's timeout test and its ageing filter agree: it survives ageing exactly when it has not timed out. |
| `Blocks.Without` | src/App.js:499-502 | `filter(b => b.id !== id)`: a block stays iff it was there and has another id. The list never grows. When no block has the id, the list is unchanged. |
| `Blocks.WithoutRemovesOne` | src/App.js:501 | With unique ids, removing a present block's id shortens the board by exactly one. |
| `Blocks.WithoutUnique` | src/App.js:499-502 | Removing blocks keeps ids unique. |
| `Blocks.TimeLimit` | src/App.js:335 | 5000 ms from score 500 on, 5500 ms below. No contract of its own; `TimeLimitTightens` states how it moves. |
| `Blocks.TimeLimitTightens` | src/App.js:335 | A higher score never lengthens the time limit, and it shortens exactly when the score crosses 500. |
| `Blocks.Lifetime` | src/App.js:391-402 | A block's lifetime is positive and at most the time limit, and strictly below it exactly for avoid, extraLive and coins blocks. |
| `Blocks.AgeOut` | src/App.js:394-405 | A block stays iff it was there and its age is below its lifetime: limit − 2500 ms for avoid, extraLive and coins, the limit otherwise. The limit is 5000 ms from score 500 on, 5500 ms below. |
| `Blocks.AgeOutUnique` | src/App.js:394-405 | Ageing keeps ids unique. |
| `Blocks.FirstTimedOut` | src/App.js:337-341 | The `find`: the first standard block whose age has reached the limit, and None exactly when no block has. |
| `Gestures.Classify` | src/App.js:608-652 | A tap iff both offsets are below 10. A swipe in a direction iff it is not a tap, ends within 5000 ms, and its axis strictly dominates with travel > 30 and the matching sign. Nothing otherwise, in both directions of each iff. |
| `Gestures.SwipeKind` | src/App.js:636-651 | A swipe resolves only the swipe kind of its own direction, never a tap, double tap or special block. |
| `Gestures.ClassifyMirror` | src/App.js:633-652 | Reversing a movement reverses its swipe and keeps a tap a tap. |
| `Gestures.SwipeNeedsTravel` | src/App.js:633-652 | Travel of at most 30 on both axes is never a swipe. |
| `Gestures.DiagonalIsNoSwipe` | src/App.js:633-652 | An exact diagonal has no strictly dominant axis and is never a swipe. |
| `GameStates.TutorialBlock` | src/App.js:299-306 | The tutorial block has kind `tutorialBlocks[tutorialIndex]`, which is never a special kind. |
| `GameStates.SpawnWellFormed` | src/App.js:297-312 | Filling an empty board of a running round with fresh, distinct ids keeps the state well formed. |
| `GameStates.WellFormedGrows` | src/App.js:287-315 | Handing out more ids keeps a state well formed. |
| `GameStates.ScoreIncrement` | src/App.js:496 | A standard block scores 10, or 20 (twice as much) with double score. |
| `GameStates.EndRound` | src/App.js:356-381 | Game over: flagged over, board empty, no transition. Score, timer and tutorial state are kept. |
| `GameStates.Resolve` | src/App.js:429-504 | In the tutorial: board cleared, transition set, index + 1, or out of the tutorial with index 0 after the last step; no score. In live play: exactly the block with that id leaves the board. Score rises by `ScoreIncrement` for a standard kind and by 0 for extraLive and coins. Score never falls. |
| `GameStates.ResolveRemovesOne` | src/App.js:429-504 | In live play, resolving a block on the board removes exactly that block and keeps every other one. |
| `GameStates.ResolveWellFormed` | src/App.js:429-504 | Resolving keeps the state well formed: score ≥ 0 and a multiple of 10, valid tutorial index, an over round has an empty board, ids unique. |
| `GameStates.TutorialTakesThreeSteps` | src/App.js:434-458 | Three successes take a fresh tutorial to live play, with the first two still in the tutorial. The score is unchanged and the index is back to 0. |
| `GameStates.TutorialScoresNothing` | src/App.js:434-458 | No tutorial success changes the score. |
| `GameStates.TransitionEnded` | src/App.js:507-512 | Only `transitioning` changes, to false. |
| `GameStates.Aged` | src/App.js:387-410 | An over round is left alone. Otherwise the timer advances by one tenth, and the board keeps exactly the blocks that survive at `now`. |
| `GameStates.TickOutcome` | src/App.js:329-411 | Never adds blocks and never changes the score. A timed-out standard block with a life: only that block goes and the timer does not advance. Without a life: game over with an empty board. With no timeout, the board ages. |
| `GameStates.QuietTickKeepsStandardBlocks` | src/App.js:337-405 | When no block has timed out, a tick advances the timer and removes no standard block, only expired special ones. |
| `GameStates.SpecialLeavesBeforeTimeLimit` | src/App.js:397-402 | Avoid, extraLive and coins blocks are gone 2.5 s before the time limit. |
| `GameStates.TickWellFormed` | src/App.js:329-411 | A tick keeps the state well formed. |
| `GameStates.AfterAvoidHit` | src/App.js:586-603 | Always unfrozen. With a life, exactly that block goes. Without one, game over with an empty board and no transition. |
| `GameStates.AvoidHitWellFormed` | src/App.js:586-603 | The Avoid follow-up keeps the state well formed. |
| `GameStates.DecideEnd` | src/App.js:608-652 | Resolves at once iff a tap on tap, extraLive or coins, or a tap on doubleTap within 300 ms of the last. Arms the double tap iff a tap on doubleTap after 300 ms or more. Resolves after the animation iff a swipe matching the block's direction. |
| `GameStates.AvoidNeverMatches` | src/App.js:608-652 | No tap or swipe resolves an Avoid block through the gesture branches. |
| `GameStates.AfterEnd` | src/App.js:611-654 | The start point is cleared. A completed double tap resets the tap time and count to 0. A first tap records the time and counts one more tap. Otherwise both are kept. |
| `GameStates.DoubleTapSequence` | src/App.js:611-629 | Two taps on a doubleTap block less than 300 ms apart: the first arms, the second resolves. |
| `ShopApi.ReadDoc` | src/api/shopAPI.js:12-21 | A document is returned iff the store answers, the id is known and the document exists, and it is that document. |
| `ShopApi.GetShopItems` | src/api/shopAPI.js:12-21 | Returns `ReadDoc` of the current store (the document, or null). |
| `ShopApi.WithItem` | src/api/shopAPI.js:65 | Sets one shop item; every other item and field is unchanged. |
| `ShopApi.TakeLife` | src/api/shopAPI.js:63-66 | The extra-life count becomes count − 1; nothing else changes. |
| `ShopApi.CanConsumeLife` | src/api/shopAPI.js:50-65 | When consumeExtraLife succeeds: the store answers, the user is known and `shopItems["extra-lives"] || 0` is > 0. A definition used by the contracts of `ConsumeExtraLife` and `CheckAndConsumeExtraLife`. |
| `ShopApi.ConsumeExtraLife` | src/api/shopAPI.js:50-79 | True iff the stored count (or 0) is > 0. Exactly then the count becomes count − 1; otherwise the store is unchanged. |
| `ShopApi.TakeLifeKeepsCountNonNegative` | src/api/shopAPI.js:63-66 | A whole, positive count stays whole and non-negative after a life is taken. |
| `ShopApi.TakeDoubleScore` | src/api/shopAPI.js:89-91 | `increment(-1)`: a stored count n becomes n − 1, a missing one −1, and nothing else in the record changes. |
| `ShopApi.ConsumeDoubleScore` | src/api/shopAPI.js:82-98 | True iff the user id is known and the record exists (updating a missing record throws). Exactly then the stored count n becomes n − 1, positive or not; otherwise the store is unchanged. |
| `ShopApi.DoubleScoreCanGoNegative` | src/api/shopAPI.js:84-93 | A zero or missing count becomes −1: nothing checks positivity. |
| `ShopApi.AddItem` | src/api/shopAPI.js:116-118 | `increment(amount)` on one item: a stored count rises by `amount`, a missing one becomes `amount`, and the other items are unchanged. |
| `ShopApi.AddShopItems` | src/api/shopAPI.js:101-125 | True iff the store answers and the id is known. A missing record is first created as coins 0, extra-lives 0, double-score 0; then only the named item rises by `amount`. |
| `ShopApi.AddToMissingRecord` | src/api/shopAPI.js:106-118 | Adding extra lives to a user without a record leaves coins 0, the added amount of extra lives and 0 double score. |
| `ShopApi.PurchaseWithoutCoinsGoesNegative` | src/api/shopAPI.js:146-153 | As written, a record without a coins field passes the guard and ends with coins −price. |
| `ShopApi.PurchaseKeepsBalance` | src/api/shopAPI.js:147-154 | A purchase the balance covers lowers coins by exactly the price, keeps them ≥ 0, raises that item by 1 and leaves the other items. |
| `ShopApi.CorrectedAgreesOnFiniteBalance` | src/api/shopAPI.js:146-154 | On every finite balance the corrected guard and charge equal the code as written, in both directions. |
| `ShopApi.PurchaseShopItem` | src/api/shopAPI.js:128-161 | As written: false without a user id. A missing record is created zeroed and the purchase refused. Otherwise true iff `coins < price` does not hold, and then the record is charged by `ChargeAsWritten`. On a finite balance this is the corrected purchase (`CorrectedAgreesOnFiniteBalance`). |
| `ShopApi.RefusedAsWritten` | src/api/shopAPI.js:147 | The guard `coins < price`; no contract, it is false for a missing, NaN or +Infinity balance. |
| `ShopApi.ChargeAsWritten` | src/api/shopAPI.js:149-154 | A finite balance drops by the price and a missing one becomes −price. The bought item rises by one (a missing count becomes 1), and the other items are unchanged. |
| `ShopApi.CanAfford` | src/api/shopAPI.js:147 | The corrected guard: a finite balance of at least the price. Its properties are in `PurchaseKeepsBalance` and `CorrectedAgreesOnFiniteBalance`. |
| `ShopApi.Charge` | src/api/shopAPI.js:149-154 | The corrected charge; `PurchaseKeepsBalance` states what it does. |
| `ShopApi.ListenerPayload` | src/api/shopAPI.js:29-37 | Coins are a number, never undefined or NaN: the stored number, or 0 when missing or NaN. The shop items are passed through. |
| `GameOverApi.GetUserData` | src/api/gameoverAPI.js:12-21 | The user's document iff the store answers and it exists, otherwise null. |
| `GameOverApi.ClampValue` | src/api/gameoverAPI.js:41-52 | The result is +Infinity or a whole number ≥ 0. A non-negative number is floored, a negative one becomes 0, undefined, NaN and −Infinity become 0, and +Infinity stays +Infinity. |
| `GameOverApi.ValidatePatch` | src/api/gameoverAPI.js:40-52 | Keeps the same keys. Coins and totalCoinsEarned are clamped; the other keys pass as given. |
| `GameOverApi.UpdateUserData` | src/api/gameoverAPI.js:35-77 | Nothing without a user id or on failure. A missing record is created from the validated update alone. An existing one is rewritten only when some key's JSON text differs. |
| `GameOverApi.UpdatedRecord` | src/api/gameoverAPI.js:59-73 | The record updateUserData leaves. No contract of its own; `UpdatedRecordHoldsUpdate`, `UpdateIdempotent` and `UpdateTouchesOnlyItsKeys` state its properties. |
| `GameOverApi.UpdatedRecordHoldsUpdate` | src/api/gameoverAPI.js:59-73 | After an update, no key of the validated update differs from the record. |
| `GameOverApi.UpdateIdempotent` | src/api/gameoverAPI.js:59-73 | Applying the same update twice leaves the same record as applying it once. |
| `GameOverApi.UpdateTouchesOnlyItsKeys` | src/api/gameoverAPI.js:65-73 | Fields outside the update are never changed, and without differences nothing is written. |
| `GameOverApi.ValidateNumber` | src/api/gameoverAPI.js:103-106 | A finite number as itself, anything else as 0. |
| `GameOverApi.ClampToCount` | src/api/gameoverAPI.js:146-147 | The floor of x, but at least 0. |
| `GameOverApi.UpdateAchievements` | src/api/gameoverAPI.js:132-142 | Same length. Only coinCollector entries change, and only their progress, which becomes the new total. |
| `GameOverApi.CreditCoins` | src/api/gameoverAPI.js:103-149 | The credited record. No contract of its own; `CreditCoinsSpec` and `WholeAwardIsExact` state what it does. |
| `GameOverApi.AfterCoinsUpdate` | src/api/gameoverAPI.js:94-174 | Without a user id nothing changes. Otherwise only the user's own record is added or changed; every other record is kept. |
| `GameOverApi.UpdateCoinsAndAchievements` | src/api/gameoverAPI.js:94-174 | The store becomes `AfterCoinsUpdate`: nothing on failure or without a user id; a missing record is created with coins 0, earned 0 and a coinCollector entry at 0 (the award is dropped); a record without achievements is left as it was (the `map` throws); any other record is credited by `CreditCoins`. |
| `GameOverApi.CreditCoinsSpec` | src/api/gameoverAPI.js:103-149 | Both balances end whole and ≥ 0, each being the floor of old + award with non-finite inputs counted as 0 and negatives clamped to 0. Only the coinCollector achievement changes (`UpdateAchievements` with the new total). The shop items, referred users and high score are unchanged. |
| `GameOverApi.WholeAwardIsExact` | src/api/gameoverAPI.js:109-149 | With whole, non-negative balances an award of n adds exactly n to both. coinCollector's progress becomes the new total. |
| `GameOverApi.CreditReferral` | src/api/gameoverAPI.js:186-199 | The referred user is appended to `referredUsers`. Coins and totalCoinsEarned rise by 200 (missing counts as 0), referrals by 1 (a missing count becomes 1), and the shop items and achievements are unchanged. |
| `GameOverApi.AfterReferral` | src/api/gameoverAPI.js:177-205 | No record is added, only the referrer's record can change, and a user already in the referrer's list changes nothing. |
| `GameOverApi.HandleReferral` | src/api/gameoverAPI.js:177-205 | The store becomes `AfterReferral`: unchanged if either id is empty, the referrer is missing, or the user was already referred; credited once otherwise. |
| `GameOverApi.OccurrencesAbsent` | src/api/gameoverAPI.js:189 | A user not in the list occurs 0 times. |
| `GameOverApi.ReferralAtMostOnce` | src/api/gameoverAPI.js:186-199 | The referred user occurs at most once in the referrer's list afterwards (given at most once before), and repeating the referral changes nothing. |
| `GameOverApi.UntilAmpersand` | src/api/gameoverAPI.js:213 | The longest prefix without `&`; it stops exactly at the first `&`. |
| `GameOverApi.ReferrerFromHash` | src/api/gameoverAPI.js:213 | A referrer read from the hash never contains `&`. |
| `GameOverApi.ReferrerRoundTrip` | src/api/gameoverAPI.js:213 | After a prefix without `#`, writing `#ref=<id>` (id without `&`) reads back exactly `<id>`, whatever follows the next `&`. |
| `GameOverApi.UntilAmpersandStops` | src/api/gameoverAPI.js:213 | An id without `&` followed by `&...` or nothing is read back whole. |
| `GameOverApi.CheckAndProcessReferral` | src/api/gameoverAPI.js:207-226 | Credits the referrer named in the hash only when the id is non-empty, differs from the current user, and the current user has no record yet. Otherwise the store is unchanged. |
| `Themes.LastReached` | src/config/themes.js:79-84 | The last entry with threshold ≤ score; no later entry qualifies; None when no entry does. |
| `Themes.GetThemeForScore` | src/config/themes.js:79-84 | The returned theme is in the table with threshold ≤ score. None exactly for negative scores. |
| `Themes.ScoreThemesAscending` | src/config/themes.js:1-77 | The thresholds 0, 1000, 3000, 5000, 10000 are strictly ascending. |
| `Themes.LastReachedIsGreatest` | src/config/themes.js:79-84 | On an ascending table, the last qualifying entry has the greatest qualifying threshold. |
| `Themes.ThemeHasGreatestThreshold` | src/config/themes.js:79-84 | Every score ≥ 0 has a theme, and its threshold is the greatest one ≤ the score. |
| `Themes.ThemeMonotone` | src/config/themes.js:1-84 | A higher score never gets a theme with a lower threshold. |
| `UpdateVersion.LineEnd` | scripts/updateVersion.js:8 | The position of the first line terminator from i on, or the end of the text. |
| `UpdateVersion.LastQuote` | scripts/updateVersion.js:8 | The last quote in a range, or None when there is none. |
| `UpdateVersion.MatchFrom` | scripts/updateVersion.js:8 | The capture of the leftmost match at or after a position. No contract of its own; `MatchFromSkips` and `RereadNewContent` state its properties. |
| `UpdateVersion.ClosingQuote` | scripts/updateVersion.js:8 | The closing quote of the match lies on the same line as the opening one, with at least one character between them. |
| `UpdateVersion.Split` | scripts/updateVersion.js:9 | `split(".")` gives at least one part, and no part contains the separator. |
| `UpdateVersion.ParseVersion` | scripts/updateVersion.js:9 | `split(".").map(Number)` destructured into three components. The major component always exists, since a split has at least one part. |
| `UpdateVersion.PlusOne` | scripts/updateVersion.js:17-23 | `c + 1` is never undefined. It is a whole number exactly when `c` is, and then one more. |
| `UpdateVersion.Render` | scripts/updateVersion.js:14-26 | The switch. No contract of its own; `RenderIsBump`, `RenderReadsOnlyItsParts` and `ShortVersions` state what it prints. |
| `UpdateVersion.RenderIsBump` | scripts/updateVersion.js:14-26 | On three whole components, the printed text is exactly the intended bump, `Show(Bump(v, t))`. |
| `UpdateVersion.RenderReadsOnlyItsParts` | scripts/updateVersion.js:14-21 | A major bump ignores minor and patch, and a minor bump ignores patch. |
| `UpdateVersion.ParseShortVersions` | scripts/updateVersion.js:9 | "1" parses to (1, undefined, undefined), and "1.2.x" to (1, 2, NaN). |
| `UpdateVersion.ShortVersions` | scripts/updateVersion.js:9-26 | "1" bumps to "2.0.0" (major) and "1.undefined.NaN" (patch). "1.2.x" bumps to "1.3.0" (minor) and "1.2.NaN" (patch). |
| `UpdateVersion.RenderShortParts` | scripts/updateVersion.js:14-26 | The switch prints an undefined part as "undefined" and a NaN part, or the increment of one, as "NaN". It prints only the parts its case uses. |
| `UpdateVersion.JoinSplit` | scripts/updateVersion.js:9 | Joining the parts of a split with the separator restores the text. |
| `UpdateVersion.SplitPrefix` | scripts/updateVersion.js:9 | Splitting `a.rest` gives `a` followed by the parts of `rest`. |
| `UpdateVersion.SplitNoSeparator` | scripts/updateVersion.js:9 | A text without the separator splits into itself. |
| `UpdateVersion.NatToString` | scripts/updateVersion.js:17-24 | The decimal text of a number is non-empty and all digits. |
| `UpdateVersion.DigitsValueOfNatToString` | scripts/updateVersion.js:9-24 | `Number` of the printed number is the number. |
| `UpdateVersion.ParseShow` | scripts/updateVersion.js:9 | Parsing a printed `major.minor.patch` gives back its three components as whole numbers. |
| `UpdateVersion.ShowIsPlain` | scripts/updateVersion.js:17-29 | A printed version is non-empty and has no quote or line terminator. |
| `UpdateVersion.SelectUpdate` | scripts/updateVersion.js:12-26 | `argv[2] || "patch"` and the switch's choice of case. No contract of its own; `SelectUpdateDefaults` states the choice. |
| `UpdateVersion.Bump` | scripts/updateVersion.js:14-26 | The intended bump of a well-formed version, the reference the script's output is proved against. No contract of its own; `BumpIncreases` states it. |
| `UpdateVersion.BumpIncreases` | scripts/updateVersion.js:14-26 | major gives (M+1, 0, 0), minor gives (M, m+1, 0), patch gives (M, m, p+1). Each is strictly greater. |
| `UpdateVersion.SelectUpdateDefaults` | scripts/updateVersion.js:12-24 | major iff the argument is "major", minor iff "minor". No argument, an empty one, "patch" or any other text gives patch. |
| `UpdateVersion.RereadNewContent` | scripts/updateVersion.js:8-29 | Re-reading the written file with the same pattern yields the new version. |
| `UpdateVersion.MatchFromSkips` | scripts/updateVersion.js:8 | The match from i equals the match from j when every position in between has no match of its own. |
| `UpdateVersion.LineEndAt` | scripts/updateVersion.js:8 | The line ends at the first terminator. |
| `UpdateVersion.UpdateVersionFile` | scripts/updateVersion.js:7-30 | The whole script: None only when the pattern finds no quoted text (the `[1]` of `null` throws). No contract of its own; `UpdateVersionFileSpec` states its result. |
| `UpdateVersion.UpdateVersionFileSpec` | scripts/updateVersion.js:7-30 | From a file whose first quoted text is `M.m.p`, the script writes exactly `export const version = "<bumped>";\n`, and re-reading that file gives the bumped version. |

## Left out

- Rendering, animation and audio: the JSX, framer-motion, the `isBeingSwiped` flag, the theme-colour effect and every `soundManager` call. They change nothing the round's rules depend on.
- The user id bootstrap (src/App.js:138-169): reading `localStorage`, drawing a random id and creating the first record. The class takes the user id as a constructor argument.
- Concurrency: the tick, the gestures and the store calls are `async` and can interleave in the source. The model runs each handler to completion, so the tick's `isProcessingExtraLife` guard (src/App.js:327-372) and a tick racing an Avoid hit are not represented.
- Timers are events the caller invokes in order: the delays themselves (100, 150, 200, 1000 ms) and `requestAnimationFrame` are not modelled.
- Floating point: finite numbers are exact reals, so rounding in `(Date.now() - createdAt) / 1000` or in coin sums is not modelled. Ages are whole milliseconds.
- `listenToShopItems` subscription and unsubscription. Only the mapping of one snapshot is modelled, fired by calling `OnShopSnapshot` after a change.
- `handleCoinsChange`, `listenToUserData` and `setUserData` as general operations. `setUserData` appears only in the one place the core uses it, the coins block for a user without a record.
- Display text of achievements (title, description) and the `claimedRewards` field, which nothing in the core reads.
- The file read and write of the version script (scripts/updateVersion.js:7, 30) and its log line.
- UpdateVersion.ToNumber: a part is a number only when it is plain decimal digits (the empty part is 0). `Number` also reads a sign, surrounding whitespace, an exponent, a hex prefix and "Infinity" (" 1", "1e2", "0x1"); the model prints such a part as `NaN`. Missing parts and parts the chosen bump does not print are modelled as in the script.
- GameOverApi.UpdateUserData: the update is limited to the four numeric keys `coins`, `totalCoinsEarned`, `highScore` and `balloonsPoppedCount`. updateUserData accepts any key (achievements, shopItems, referrals, referredUsers, …) and compares object values by their `JSON.stringify` text; those keys and that comparison are not modelled. GameOverApi.ValidatePatch has the same limit.

## Findings

| source | as written | input that shows it | evidently intended | confidence | as-written member | corrected member |
|---|---|---|---|---|---|---|
| src/api/shopAPI.js:146-153 | The guard `userData.coins < price` is false when the record has no `coins` field (`undefined < price`), and `increment(-price)` then stores a negative balance | a record `{shopItems: {...}}` without `coins`, price 50: the purchase succeeds and coins become −50 | a purchase succeeds only on a finite balance of at least the price, leaving coins ≥ 0 | medium; not executed | `ShopApi.PurchaseWithoutCoinsGoesNegative` | `ShopApi.PurchaseKeepsBalance` |
