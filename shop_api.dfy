/**
 * src/api/shopAPI.js: reading and changing a user's coins and shop items. Each operation
 * reads the user's document and then rewrites some counters. `fault` stands for a store
 * that throws on every call; the source catches the error and answers false or null.
 */
module ShopApi {
  import opened Wrappers
  import opened JsValues
  import opened UserStore

  /** The document a shop operation reads, None when it does not exist or the read fails. */
  function ReadDoc(docs: map<string, UserDoc>, userId: string, fault: bool): (r: Option<UserDoc>)
    ensures r.Some? <==> !fault && userId != "" && userId in docs
    ensures r.Some? ==> r.value == docs[userId]
  {
    if !fault && userId != "" && userId in docs then Some(docs[userId]) else None
  }

  /** getShopItems: the user's document, or null. */
  method GetShopItems(store: Store, userId: string, fault: bool) returns (r: Option<UserDoc>)
    ensures r == ReadDoc(store.docs, userId, fault)
  {
    if fault || userId == "" || userId !in store.docs {
      r := None;
    } else {
      r := Some(store.docs[userId]);
    }
  }

  /** The record the shop creates for a user without a document. */
  const ZeroShopDoc := NoFields.(coins := Num(0.0), shopItems := map[ExtraLives := Num(0.0), DoubleScore := Num(0.0)])

  /** The document with one shop item replaced. */
  function WithItem(d: UserDoc, item: string, v: Value): (r: UserDoc)
    ensures ShopItem(r, item) == v
    ensures forall other :: other != item ==> ShopItem(r, other) == ShopItem(d, other)
    ensures r.(shopItems := d.shopItems) == d
  {
    d.(shopItems := d.shopItems[item := v])
  }

  // ---------------------------------------------------------------------------
  // consumeExtraLife

  /** `userData?.shopItems?.["extra-lives"] || 0` */
  function StoredLives(docs: map<string, UserDoc>, userId: string): Value {
    if userId in docs then OrZero(ShopItem(docs[userId], ExtraLives)) else Num(0.0)
  }

  /** Whether consumeExtraLife succeeds: the store answers and the stored count is above 0. */
  predicate CanConsumeLife(docs: map<string, UserDoc>, userId: string, fault: bool) {
    !fault && userId != "" && IsPositive(StoredLives(docs, userId))
  }

  /** The document after one extra life is taken: the count becomes `count - 1`. */
  function TakeLife(d: UserDoc): (r: UserDoc)
    requires IsPositive(ShopItem(d, ExtraLives))
    ensures forall n :: ShopItem(d, ExtraLives) == Num(n) ==> ShopItem(r, ExtraLives) == Num(n - 1.0)
    ensures forall other :: other != ExtraLives ==> ShopItem(r, other) == ShopItem(d, other)
    ensures r.(shopItems := d.shopItems) == d
  {
    WithItem(d, ExtraLives, Plus(ShopItem(d, ExtraLives), -1.0))
  }

  /** consumeExtraLife: true iff a life was stored, and then exactly one is removed. */
  method ConsumeExtraLife(store: Store, userId: string, fault: bool) returns (ok: bool)
    modifies store
    ensures ok == CanConsumeLife(old(store.docs), userId, fault)
    ensures ok ==> userId in old(store.docs)
    ensures store.docs == if ok then old(store.docs)[userId := TakeLife(old(store.docs)[userId])]
                          else old(store.docs)
  {
    if fault || userId == "" {
      return false;
    }
    var currentLives := StoredLives(store.docs, userId);
    if IsPositive(currentLives) {
      var d := store.docs[userId];
      store.docs := store.docs[userId := WithItem(d, ExtraLives, Plus(currentLives, -1.0))];
      return true;
    }
    return false;
  }

  /** A document whose extra-life count is a whole number loses exactly one life and stays non-negative. */
  lemma TakeLifeKeepsCountNonNegative(d: UserDoc, n: real)
    requires ShopItem(d, ExtraLives) == Num(n) && IsWhole(n) && n > 0.0
    ensures ShopItem(TakeLife(d), ExtraLives) == Num(n - 1.0)
    ensures n - 1.0 >= 0.0 && IsWhole(n - 1.0)
  {
  }

  // ---------------------------------------------------------------------------
  // consumeDoubleScore

  /** The document after `increment(-1)` on its double-score count. */
  function TakeDoubleScore(d: UserDoc): (r: UserDoc)
    ensures forall n :: ShopItem(d, DoubleScore) == Num(n) ==> ShopItem(r, DoubleScore) == Num(n - 1.0)
    ensures ShopItem(d, DoubleScore) == Undefined ==> ShopItem(r, DoubleScore) == Num(-1.0)
    ensures forall other :: other != DoubleScore ==> ShopItem(r, other) == ShopItem(d, other)
    ensures r.(shopItems := d.shopItems) == d
  {
    WithItem(d, DoubleScore, Increment(ShopItem(d, DoubleScore), -1.0))
  }

  /**
   * consumeDoubleScore: fails without a user id or document (the update throws);
   * otherwise decrements the count without checking that it is positive.
   */
  method ConsumeDoubleScore(store: Store, userId: string, fault: bool) returns (ok: bool)
    modifies store
    ensures ok <==> !fault && userId != "" && userId in old(store.docs)
    ensures store.docs == if ok then old(store.docs)[userId := TakeDoubleScore(old(store.docs)[userId])]
                          else old(store.docs)
    ensures ok ==> forall n :: ShopItem(old(store.docs)[userId], DoubleScore) == Num(n) ==>
                                 ShopItem(store.docs[userId], DoubleScore) == Num(n - 1.0)
  {
    if fault || userId == "" || userId !in store.docs {
      return false;
    }
    store.docs := store.docs[userId := TakeDoubleScore(store.docs[userId])];
    return true;
  }

  /** Nothing stops the count from going below zero: a count of 0 becomes -1. */
  lemma DoubleScoreCanGoNegative(d: UserDoc)
    requires ShopItem(d, DoubleScore) == Num(0.0) || ShopItem(d, DoubleScore) == Undefined
    ensures ShopItem(TakeDoubleScore(d), DoubleScore) == Num(-1.0)
  {
  }

  // ---------------------------------------------------------------------------
  // addShopItems

  /** The document addShopItems starts from: the existing one, or a freshly zeroed one. */
  function SeededDoc(docs: map<string, UserDoc>, userId: string): UserDoc {
    if userId in docs then docs[userId] else ZeroShopDoc
  }

  /** `increment(amount)` on one shop item. */
  function AddItem(d: UserDoc, item: string, amount: real): (r: UserDoc)
    ensures forall n :: ShopItem(d, item) == Num(n) ==> ShopItem(r, item) == Num(n + amount)
    ensures ShopItem(d, item) == Undefined ==> ShopItem(r, item) == Num(amount)
    ensures forall other :: other != item ==> ShopItem(r, other) == ShopItem(d, other)
    ensures r.(shopItems := d.shopItems) == d
  {
    WithItem(d, item, Increment(ShopItem(d, item), amount))
  }

  /**
   * addShopItems: creates the zeroed record when the user has none, then increases only
   * the named item by `amount`.
   */
  method AddShopItems(store: Store, userId: string, itemId: string, amount: real, fault: bool) returns (ok: bool)
    modifies store
    ensures ok <==> !fault && userId != ""
    ensures store.docs == if ok then old(store.docs)[userId := AddItem(SeededDoc(old(store.docs), userId), itemId, amount)]
                          else old(store.docs)
  {
    if fault || userId == "" {
      return false;
    }
    if userId !in store.docs {
      store.docs := store.docs[userId := ZeroShopDoc];
    }
    var d := store.docs[userId];
    store.docs := store.docs[userId := AddItem(d, itemId, amount)];
    return true;
  }

  /** Adding one item to a user without a record leaves a record holding exactly that item. */
  lemma AddToMissingRecord(docs: map<string, UserDoc>, userId: string, amount: real)
    requires userId !in docs
    ensures var d := AddItem(SeededDoc(docs, userId), ExtraLives, amount);
            d.coins == Num(0.0) && ShopItem(d, ExtraLives) == Num(amount) && ShopItem(d, DoubleScore) == Num(0.0)
  {
  }

  // ---------------------------------------------------------------------------
  // purchaseShopItem

  /** The guard as written: `userData.coins < price` refuses the purchase. */
  predicate RefusedAsWritten(d: UserDoc, price: real) {
    LessThan(d.coins, price)
  }

  /**
   * The update as written: `newCoins === 0 ? 0 : increment(-price)`, plus one item. A
   * finite balance drops by the price; a missing one becomes `-price`.
   */
  function ChargeAsWritten(d: UserDoc, item: string, price: real): (r: UserDoc)
    ensures forall n :: d.coins == Num(n) ==> r.coins == Num(n - price)
    ensures d.coins == Undefined ==> r.coins == Num(-price)
    ensures forall n :: ShopItem(d, item) == Num(n) ==> ShopItem(r, item) == Num(n + 1.0)
    ensures ShopItem(d, item) == Undefined ==> ShopItem(r, item) == Num(1.0)
    ensures forall other :: other != item ==> ShopItem(r, other) == ShopItem(d, other)
  {
    var newCoins := Plus(d.coins, -price);
    var coins := if newCoins == Num(0.0) then Num(0.0) else Increment(d.coins, -price);
    AddItem(d.(coins := coins), item, 1.0)
  }

  /**
   * As written, a record without a coins field passes the guard (`undefined < price` is
   * false) and `increment(-price)` then stores a negative balance.
   */
  lemma PurchaseWithoutCoinsGoesNegative()
    ensures var d := ZeroShopDoc.(coins := Undefined);
            !RefusedAsWritten(d, 50.0) && ChargeAsWritten(d, ExtraLives, 50.0).coins == Num(-50.0)
  {
  }

  /** The guard the purchase evidently intends: a finite balance of at least the price. */
  predicate CanAfford(d: UserDoc, price: real) {
    d.coins.Num? && d.coins.x >= price
  }

  /** The charge: the balance drops by the price and the item count rises by one. */
  function Charge(d: UserDoc, item: string, price: real): UserDoc
    requires CanAfford(d, price)
  {
    AddItem(d.(coins := Num(d.coins.x - price)), item, 1.0)
  }

  /**
   * A successful purchase leaves a non-negative balance exactly `price` lower and raises
   * only the bought item's count by one.
   */
  lemma PurchaseKeepsBalance(d: UserDoc, item: string, price: real)
    requires CanAfford(d, price)
    ensures Charge(d, item, price).coins == Num(d.coins.x - price)
    ensures Charge(d, item, price).coins.x >= 0.0
    ensures forall n :: ShopItem(d, item) == Num(n) ==> ShopItem(Charge(d, item, price), item) == Num(n + 1.0)
    ensures forall other :: other != item ==> ShopItem(Charge(d, item, price), other) == ShopItem(d, other)
  {
  }

  /** On every finite balance the corrected guard and charge agree with the code as written. */
  lemma CorrectedAgreesOnFiniteBalance(d: UserDoc, item: string, price: real)
    requires d.coins.Num?
    ensures CanAfford(d, price) <==> !RefusedAsWritten(d, price)
    ensures CanAfford(d, price) ==> Charge(d, item, price) == ChargeAsWritten(d, item, price)
  {
  }

  /**
   * purchaseShopItem as written: false without a user id; a missing record is created
   * zeroed and the purchase refused; otherwise refused only when `coins < price`, and then
   * charged as written. On a finite balance this is the corrected purchase
   * (CorrectedAgreesOnFiniteBalance); a record without coins is charged into the negative.
   */
  method PurchaseShopItem(store: Store, userId: string, itemId: string, price: real, fault: bool) returns (ok: bool)
    modifies store
    ensures ok <==> !fault && userId != "" && userId in old(store.docs) && !RefusedAsWritten(old(store.docs)[userId], price)
    ensures store.docs ==
      if fault || userId == "" then old(store.docs)
      else if userId !in old(store.docs) then old(store.docs)[userId := ZeroShopDoc]
      else if ok then old(store.docs)[userId := ChargeAsWritten(old(store.docs)[userId], itemId, price)]
      else old(store.docs)
  {
    if fault || userId == "" {
      return false;
    }
    if userId !in store.docs {
      store.docs := store.docs[userId := ZeroShopDoc];
      return false;
    }
    var d := store.docs[userId];
    if RefusedAsWritten(d, price) {
      return false;
    }
    store.docs := store.docs[userId := ChargeAsWritten(d, itemId, price)];
    return true;
  }

  // ---------------------------------------------------------------------------
  // listenToShopItems

  /** What the shop listener hands to its callback. */
  datatype ShopPayload = ShopPayload(coins: Value, shopItems: map<string, Value>)

  /**
   * The listener's payload for an existing document: coins as a number defaulting to 0
   * (`data.coins === 0 ? 0 : Number(data.coins) || 0`) and the shop items (`|| {}`).
   */
  function ListenerPayload(d: UserDoc): (p: ShopPayload)
    ensures p.coins != Undefined && p.coins != NaN
    ensures d.coins.Num? ==> p.coins == d.coins
    ensures d.coins == Undefined || d.coins == NaN ==> p.coins == Num(0.0)
    ensures p.shopItems == d.shopItems
  {
    ShopPayload(if d.coins == Num(0.0) then Num(0.0) else OrZero(ToNumber(d.coins)), d.shopItems)
  }
}
