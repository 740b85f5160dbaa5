/**
 * The document store's "users" collection as the two API files use it: one document per
 * user id, each a record of optional fields. A field the document does not have reads as
 * `Undefined` (numbers), `None` (the achievements list) or empty (maps and lists, which
 * the source reads with `|| {}` and `|| []`).
 */
module UserStore {
  import opened Wrappers
  import opened JsValues

  /** An achievement entry; its display text (title, description) is left out. */
  datatype Achievement = Achievement(id: string, progress: Value, levels: seq<int>, coinReward: Value)

  datatype UserDoc = UserDoc(
    coins: Value,
    totalCoinsEarned: Value,
    highScore: Value,
    balloonsPoppedCount: Value,
    shopItems: map<string, Value>,
    achievements: Option<seq<Achievement>>,
    referrals: Value,
    referredUsers: seq<string>)

  /** A document with no fields at all. */
  const NoFields := UserDoc(Undefined, Undefined, Undefined, Undefined, map[], None, Undefined, [])

  const ExtraLives := "extra-lives"
  const DoubleScore := "double-score"
  const CoinCollector := "coinCollector"

  /** `doc.shopItems[item]`, `undefined` when absent. */
  function ShopItem(d: UserDoc, item: string): Value {
    if item in d.shopItems then d.shopItems[item] else Undefined
  }

  /** The achievements a new player starts with (src/config/achievements.js). */
  const DefaultAchievements: seq<Achievement> := [
    Achievement("highScorer", Num(0.0), [100, 1000, 5000], Num(100.0)),
    Achievement("coinCollector", Num(0.0), [100, 500, 1000], Num(50.0)),
    Achievement("balloonPopper", Num(0.0), [12, 40, 120], Num(100.0)),
    Achievement("gamePlayer", Num(0.0), [5, 20, 200], Num(50.0))
  ]

  /**
   * The collection itself. A user id of "" stands for a missing id (`null`), for which
   * every document call throws.
   */
  class Store {
    var docs: map<string, UserDoc>

    constructor ()
      ensures docs == map[]
    {
      docs := map[];
    }
  }
}
