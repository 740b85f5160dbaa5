/**
 * src/api/gameoverAPI.js: reading and updating a user's record at game over, the coin
 * award with its achievement progress, and the referral credit. `fault` stands for a store
 * that throws on every call; the source catches and logs the error and writes nothing.
 */
module GameOverApi {
  import opened Wrappers
  import opened JsValues
  import opened UserStore

  /** getUserData: the user's document, or null when it is missing or the read fails. */
  method GetUserData(store: Store, userId: string, fault: bool) returns (r: Option<UserDoc>)
    ensures r.Some? <==> !fault && userId != "" && userId in store.docs
    ensures r.Some? ==> r.value == store.docs[userId]
  {
    if fault || userId == "" || userId !in store.docs {
      r := None;
    } else {
      r := Some(store.docs[userId]);
    }
  }

  // ---------------------------------------------------------------------------
  // updateUserData

  /** The top-level number fields an update may set; None means the key is not in the update. */
  datatype Patch = Patch(
    coins: Option<Value>,
    totalCoinsEarned: Option<Value>,
    highScore: Option<Value>,
    balloonsPoppedCount: Option<Value>)

  /** `Math.max(0, Math.floor(Number(v) || 0))` */
  function ClampValue(v: Value): (r: Value)
    ensures r == PosInf || (r.Num? && r.x >= 0.0 && IsWhole(r.x))
    ensures v.Num? && v.x >= 0.0 ==> r == Num(v.x.Floor as real)
    ensures v.Num? && v.x < 0.0 ==> r == Num(0.0)
    ensures v == Undefined || v == NaN || v == NegInf ==> r == Num(0.0)
    ensures v == PosInf ==> r == PosInf
  {
    MaxZero(Floor(OrZero(ToNumber(v))))
  }

  function ClampOpt(v: Option<Value>): Option<Value> {
    match v
    case Some(x) => Some(ClampValue(x))
    case None => None
  }

  /** The validated update: coins and totalCoinsEarned clamped, the other keys as given. */
  function ValidatePatch(p: Patch): (r: Patch)
    ensures r.coins.Some? <==> p.coins.Some?
    ensures r.totalCoinsEarned.Some? <==> p.totalCoinsEarned.Some?
    ensures r.coins.Some? ==> r.coins.value == PosInf || (r.coins.value.Num? && r.coins.value.x >= 0.0 && IsWhole(r.coins.value.x))
    ensures r.totalCoinsEarned.Some? ==>
              r.totalCoinsEarned.value == PosInf || (r.totalCoinsEarned.value.Num? && r.totalCoinsEarned.value.x >= 0.0 && IsWhole(r.totalCoinsEarned.value.x))
    ensures r.highScore == p.highScore && r.balloonsPoppedCount == p.balloonsPoppedCount
  {
    p.(coins := ClampOpt(p.coins), totalCoinsEarned := ClampOpt(p.totalCoinsEarned))
  }

  /** `JSON.stringify(update) !== JSON.stringify(current)` for one key of the update. */
  predicate Differs(update: Option<Value>, current: Value) {
    update.Some? && Stringify(update.value) != Stringify(current)
  }

  /** hasChanges: some key of the update differs from the stored field. */
  predicate HasChanges(d: UserDoc, p: Patch) {
    Differs(p.coins, d.coins) || Differs(p.totalCoinsEarned, d.totalCoinsEarned)
    || Differs(p.highScore, d.highScore) || Differs(p.balloonsPoppedCount, d.balloonsPoppedCount)
  }

  function Set(field: Value, update: Option<Value>): Value {
    if update.Some? then update.value else field
  }

  /** The document with every key of the update written. */
  function ApplyPatch(d: UserDoc, p: Patch): UserDoc {
    d.(coins := Set(d.coins, p.coins),
       totalCoinsEarned := Set(d.totalCoinsEarned, p.totalCoinsEarned),
       highScore := Set(d.highScore, p.highScore),
       balloonsPoppedCount := Set(d.balloonsPoppedCount, p.balloonsPoppedCount))
  }

  /**
   * The record updateUserData leaves: a missing record is created from the validated
   * update alone; an existing one is written only when some key differs.
   */
  function UpdatedRecord(current: Option<UserDoc>, p: Patch): UserDoc {
    var v := ValidatePatch(p);
    match current
    case None => ApplyPatch(NoFields, v)
    case Some(d) => if HasChanges(d, v) then ApplyPatch(d, v) else d
  }

  /** updateUserData: nothing without a user id; otherwise the record becomes UpdatedRecord. */
  method UpdateUserData(store: Store, userId: string, updates: Patch, fault: bool)
    modifies store
    ensures store.docs ==
      if fault || userId == "" then old(store.docs)
      else old(store.docs)[userId := UpdatedRecord(if userId in old(store.docs) then Some(old(store.docs)[userId]) else None, updates)]
  {
    if userId == "" {
      return;
    }
    var validated := ValidatePatch(updates);
    if fault {
      return;
    }
    if userId !in store.docs {
      store.docs := store.docs[userId := ApplyPatch(NoFields, validated)];
      return;
    }
    var current := store.docs[userId];
    if HasChanges(current, validated) {
      store.docs := store.docs[userId := ApplyPatch(current, validated)];
    }
  }

  /** After an update every key of the validated update reads back as written (as JSON). */
  lemma UpdatedRecordHoldsUpdate(current: Option<UserDoc>, p: Patch)
    ensures !HasChanges(UpdatedRecord(current, p), ValidatePatch(p))
  {
  }

  /** Applying the same update twice leaves the same record as applying it once. */
  lemma UpdateIdempotent(current: Option<UserDoc>, p: Patch)
    ensures UpdatedRecord(Some(UpdatedRecord(current, p)), p) == UpdatedRecord(current, p)
  {
    UpdatedRecordHoldsUpdate(current, p);
  }

  /** Without changes nothing is written; fields outside the update are never touched. */
  lemma UpdateTouchesOnlyItsKeys(d: UserDoc, p: Patch)
    ensures var r := UpdatedRecord(Some(d), p);
            r.shopItems == d.shopItems && r.achievements == d.achievements
            && r.referrals == d.referrals && r.referredUsers == d.referredUsers
            && (p.coins.None? ==> r.coins == d.coins)
            && (!HasChanges(d, ValidatePatch(p)) ==> r == d)
  {
  }

  // ---------------------------------------------------------------------------
  // updateCoinsAndAchievements

  /** validateNumber: a finite number as itself, anything else as 0. */
  function ValidateNumber(v: Value): (r: real)
    ensures v.Num? ==> r == v.x
    ensures !v.Num? ==> r == 0.0
  {
    if v.Num? then v.x else 0.0
  }

  /** `Math.max(0, Math.floor(x))` for a finite x: the largest whole number <= x, but not below 0. */
  function ClampToCount(x: real): (n: int)
    ensures n >= 0
    ensures x >= 0.0 ==> n as real <= x < n as real + 1.0
    ensures x < 0.0 ==> n == 0
  {
    if x.Floor < 0 then 0 else x.Floor
  }

  /** The achievements `map`: the coinCollector entry's progress becomes `total`, nothing else changes. */
  function UpdateAchievements(achievements: seq<Achievement>, total: real): (r: seq<Achievement>)
    ensures |r| == |achievements|
    ensures forall i :: 0 <= i < |r| && achievements[i].id == CoinCollector ==>
              r[i] == achievements[i].(progress := Num(total))
    ensures forall i :: 0 <= i < |r| && achievements[i].id != CoinCollector ==> r[i] == achievements[i]
  {
    seq(|achievements|, i requires 0 <= i < |achievements| =>
      if achievements[i].id == CoinCollector then achievements[i].(progress := Num(total)) else achievements[i])
  }

  /** The record after an award to an existing document whose achievements list is present. */
  function CreditCoins(d: UserDoc, award: Value): (r: UserDoc)
    requires d.achievements.Some?
  {
    var add := ValidateNumber(award);
    var total := ValidateNumber(d.totalCoinsEarned) + add;
    var coins := ValidateNumber(d.coins) + add;
    d.(coins := Num(ClampToCount(coins) as real),
       totalCoinsEarned := Num(ClampToCount(total) as real),
       achievements := Some(UpdateAchievements(d.achievements.value, total)))
  }

  /** The record updateCoinsAndAchievements creates for a user without one: the award is not applied. */
  const FreshCoinRecord := NoFields.(
    coins := Num(0.0),
    totalCoinsEarned := Num(0.0),
    achievements := Some([Achievement(CoinCollector, Num(0.0), [], Undefined)]))

  /** The collection after updateCoinsAndAchievements(userId, award). */
  function AfterCoinsUpdate(docs: map<string, UserDoc>, userId: string, award: Value): (r: map<string, UserDoc>)
    ensures userId == "" ==> r == docs
    ensures r.Keys == if userId == "" then docs.Keys else docs.Keys + {userId}
    ensures forall u :: u in docs && u != userId ==> r[u] == docs[u]
  {
    if userId == "" then docs
    else if userId !in docs then docs[userId := FreshCoinRecord]
    else if docs[userId].achievements.None? then docs  // `undefined.map` throws, nothing is written
    else docs[userId := CreditCoins(docs[userId], award)]
  }

  /** updateCoinsAndAchievements */
  method UpdateCoinsAndAchievements(store: Store, userId: string, newCoins: Value, fault: bool)
    modifies store
    ensures store.docs == if fault then old(store.docs) else AfterCoinsUpdate(old(store.docs), userId, newCoins)
  {
    if fault || userId == "" {
      return;
    }
    if userId in store.docs {
      var currentData := store.docs[userId];
      if currentData.achievements.None? {
        return;
      }
      var safeNewCoins := ValidateNumber(newCoins);
      var totalCoinsEarned := ValidateNumber(currentData.totalCoinsEarned) + safeNewCoins;
      var currentCoins := ValidateNumber(currentData.coins) + safeNewCoins;
      var updatedAchievements := UpdateAchievements(currentData.achievements.value, totalCoinsEarned);
      store.docs := store.docs[userId := currentData.(
        coins := Num(ClampToCount(currentCoins) as real),
        totalCoinsEarned := Num(ClampToCount(totalCoinsEarned) as real),
        achievements := Some(updatedAchievements))];
    } else {
      store.docs := store.docs[userId := FreshCoinRecord];
    }
  }

  /**
   * The stored balances are whole, non-negative, and the floor of old value plus award
   * (non-finite inputs counting as 0); only the coinCollector achievement changes.
   */
  lemma CreditCoinsSpec(d: UserDoc, award: Value)
    requires d.achievements.Some?
    ensures var r := CreditCoins(d, award);
            var coins := ValidateNumber(d.coins) + ValidateNumber(award);
            var total := ValidateNumber(d.totalCoinsEarned) + ValidateNumber(award);
            r.coins.Num? && r.coins.x >= 0.0 && IsWhole(r.coins.x)
            && (coins >= 0.0 ==> r.coins.x <= coins < r.coins.x + 1.0)
            && (coins < 0.0 ==> r.coins.x == 0.0)
            && r.totalCoinsEarned.Num? && r.totalCoinsEarned.x >= 0.0 && IsWhole(r.totalCoinsEarned.x)
            && (total >= 0.0 ==> r.totalCoinsEarned.x <= total < r.totalCoinsEarned.x + 1.0)
            && (total < 0.0 ==> r.totalCoinsEarned.x == 0.0)
            && r.achievements == Some(UpdateAchievements(d.achievements.value, total))
            && r.shopItems == d.shopItems && r.referredUsers == d.referredUsers && r.highScore == d.highScore
  {
  }

  /**
   * The coins-block award on a record with whole, non-negative balances: both balances rise
   * by exactly the award, and the coinCollector progress becomes the new total.
   */
  lemma WholeAwardIsExact(d: UserDoc, c: int, t: int, award: int)
    requires d.achievements.Some?
    requires d.coins == Num(c as real) && d.totalCoinsEarned == Num(t as real)
    requires c >= 0 && t >= 0 && award >= 0
    ensures CreditCoins(d, Num(award as real)).coins == Num((c + award) as real)
    ensures CreditCoins(d, Num(award as real)).totalCoinsEarned == Num((t + award) as real)
    ensures forall i :: 0 <= i < |d.achievements.value| && d.achievements.value[i].id == CoinCollector ==>
              CreditCoins(d, Num(award as real)).achievements.value[i].progress == Num((t + award) as real)
  {
    assert ((c + award) as real).Floor == c + award;
    assert ((t + award) as real).Floor == t + award;
  }

  // ---------------------------------------------------------------------------
  // handleReferral and checkAndProcessReferral

  const ReferralBonus: real := 200.0

  /** The referrer's record after crediting `newUserId`. */
  function CreditReferral(d: UserDoc, newUserId: string): (r: UserDoc)
    ensures r.referredUsers == d.referredUsers + [newUserId]
    ensures forall c :: d.coins == Num(c) ==> r.coins == Num(c + ReferralBonus)
    ensures d.coins == Undefined || d.coins == NaN ==> r.coins == Num(ReferralBonus)
    ensures forall t :: d.totalCoinsEarned == Num(t) ==> r.totalCoinsEarned == Num(t + ReferralBonus)
    ensures d.totalCoinsEarned == Undefined || d.totalCoinsEarned == NaN ==> r.totalCoinsEarned == Num(ReferralBonus)
    ensures forall n :: d.referrals == Num(n) ==> r.referrals == Num(n + 1.0)
    ensures d.referrals == Undefined ==> r.referrals == Num(1.0)
    ensures r.shopItems == d.shopItems && r.achievements == d.achievements
  {
    d.(coins := Plus(OrZero(d.coins), ReferralBonus),
       totalCoinsEarned := Plus(OrZero(d.totalCoinsEarned), ReferralBonus),
       referrals := Increment(d.referrals, 1.0),
       referredUsers := d.referredUsers + [newUserId])
  }

  /** The collection after handleReferral(referrerId, newUserId). */
  function AfterReferral(docs: map<string, UserDoc>, referrerId: string, newUserId: string): (r: map<string, UserDoc>)
    ensures r.Keys == docs.Keys
    ensures forall u :: u in docs && u != referrerId ==> r[u] == docs[u]
    ensures referrerId in docs && newUserId in docs[referrerId].referredUsers ==> r == docs
  {
    if referrerId == "" || newUserId == "" || referrerId !in docs then docs
    else if newUserId in docs[referrerId].referredUsers then docs
    else docs[referrerId := CreditReferral(docs[referrerId], newUserId)]
  }

  /** handleReferral: credits the referrer once per referred user. */
  method HandleReferral(store: Store, referrerId: string, newUserId: string, fault: bool)
    modifies store
    ensures store.docs == if fault then old(store.docs) else AfterReferral(old(store.docs), referrerId, newUserId)
  {
    if referrerId == "" || newUserId == "" {
      return;
    }
    if fault || referrerId !in store.docs {
      return;
    }
    var referrer := store.docs[referrerId];
    if newUserId !in referrer.referredUsers {
      store.docs := store.docs[referrerId := CreditReferral(referrer, newUserId)];
    }
  }

  /** How many times `u` occurs in `s`. */
  function Occurrences(s: seq<string>, u: string): nat {
    if s == [] then 0 else Occurrences(s[..|s| - 1], u) + (if s[|s| - 1] == u then 1 else 0)
  }

  lemma {:induction false} OccurrencesAbsent(s: seq<string>, u: string)
    requires u !in s
    ensures Occurrences(s, u) == 0
  {
    if s != [] {
      OccurrencesAbsent(s[..|s| - 1], u);
    }
  }

  /**
   * A referred user is credited at most once: after any referral, each user occurs at most
   * once in the referrer's list, and repeating the referral changes nothing.
   */
  lemma ReferralAtMostOnce(docs: map<string, UserDoc>, referrerId: string, newUserId: string)
    requires referrerId in docs && Occurrences(docs[referrerId].referredUsers, newUserId) <= 1
    ensures var after := AfterReferral(docs, referrerId, newUserId);
            referrerId in after && Occurrences(after[referrerId].referredUsers, newUserId) <= 1
            && AfterReferral(after, referrerId, newUserId) == after
  {
    var after := AfterReferral(docs, referrerId, newUserId);
    if after != docs {
      var list := docs[referrerId].referredUsers;
      OccurrencesAbsent(list, newUserId);
      assert (list + [newUserId])[..|list|] == list;
    }
  }

  const RefMarker := "#ref="

  /** The text before the first `&` (all of it when there is none). */
  function UntilAmpersand(s: string): (r: string)
    ensures r <= s && '&' !in r
    ensures |r| < |s| ==> s[|r|] == '&'
  {
    if s == [] || s[0] == '&' then [] else [s[0]] + UntilAmpersand(s[1..])
  }

  /** `hash.match(/#ref=([^&]*)/)?.[1]`: the text after the first `#ref=` up to the next `&`. */
  function ReferrerFromHash(hash: string): (r: Option<string>)
    ensures r.Some? ==> '&' !in r.value
    decreases |hash|
  {
    if |hash| < |RefMarker| then None
    else if hash[..|RefMarker|] == RefMarker then Some(UntilAmpersand(hash[|RefMarker|..]))
    else ReferrerFromHash(hash[1..])
  }

  /** The id written after `#ref=` is read back, whatever follows the next `&`. */
  lemma {:induction false} ReferrerRoundTrip(prefix: string, id: string, rest: string)
    requires '#' !in prefix && '&' !in id
    requires rest == [] || rest[0] == '&'
    ensures ReferrerFromHash(prefix + RefMarker + id + rest) == Some(id)
    decreases |prefix|
  {
    var h := prefix + RefMarker + id + rest;
    if prefix == [] {
      assert h[..|RefMarker|] == RefMarker;
      assert h[|RefMarker|..] == id + rest;
      UntilAmpersandStops(id, rest);
    } else {
      assert h[0] == prefix[0] && h[0] != '#';
      assert h[..|RefMarker|] != RefMarker;
      assert h[1..] == prefix[1..] + RefMarker + id + rest;
      ReferrerRoundTrip(prefix[1..], id, rest);
    }
  }

  lemma {:induction false} UntilAmpersandStops(id: string, rest: string)
    requires '&' !in id
    requires rest == [] || rest[0] == '&'
    ensures UntilAmpersand(id + rest) == id
    decreases |id|
  {
    if id != [] {
      assert (id + rest)[1..] == id[1..] + rest;
      UntilAmpersandStops(id[1..], rest);
    }
  }

  /** Whether checkAndProcessReferral goes on to handleReferral. */
  predicate ShouldRefer(docs: map<string, UserDoc>, currentUserId: string, hash: string) {
    var r := ReferrerFromHash(hash);
    currentUserId != "" && r.Some? && r.value != "" && r.value != currentUserId && currentUserId !in docs
  }

  /**
   * checkAndProcessReferral: credits the referrer named in the hash only when that id is
   * non-empty, differs from the current user, and the current user has no record yet.
   */
  method CheckAndProcessReferral(store: Store, currentUserId: string, hash: string, fault: bool)
    modifies store
    ensures store.docs ==
      if !fault && ShouldRefer(old(store.docs), currentUserId, hash)
      then AfterReferral(old(store.docs), ReferrerFromHash(hash).value, currentUserId)
      else old(store.docs)
  {
    if currentUserId == "" {
      return;
    }
    var referrerId := ReferrerFromHash(hash);
    if referrerId.Some? && referrerId.value != "" && referrerId.value != currentUserId {
      if fault {
        return;
      }
      var isNewUser := currentUserId !in store.docs;
      if isNewUser {
        HandleReferral(store, referrerId.value, currentUserId, fault);
      }
    }
  }
}
