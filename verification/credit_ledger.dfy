/**
  The server's credit ledger: a process-wide map from user id to session
  record, driven by a fixed cost table. Every operation is a pure function
  from the current map to its answer and the next map; an operation that
  only reads returns no map.
 */
module CreditLedger {
  import opened Wrappers
  import opened Text
  import opened Types
  import opened CreditToken
  import Catalog

  type Store = map<string, UserSession>

  /** The server's `CREDIT_COSTS`. */
  function ServerCost(op: CreditOperation): nat {
    match op
    case ThumbnailStandard => 10
    case ThumbnailHigh => 15
    case ThumbnailUltra => 25
    case VideoGeneration => 50
    case Audit => 5
    case MetadataGeneration => 5
  }

  /** The server's table and the client's table charge the same for every operation. */
  lemma ServerCostsMatchClient(op: CreditOperation)
    ensures ServerCost(op) == Catalog.CreditCost(op)
  {
  }

  /** Starter balance when `createSession` is called without an argument. */
  const DefaultInitialCredits: int := 10

  /** Session lifetime: 24 hours in milliseconds. */
  const SessionLifetime: int := 24 * 60 * 60 * 1000

  /** Every record's generation counter is non-negative. */
  predicate GenerationsNonNegative(store: Store) {
    forall id :: id in store ==> store[id].totalGenerations >= 0
  }

  /** `store` and `store'` agree on every user other than `uid`. */
  predicate OthersUnchanged(store: Store, store': Store, uid: string) {
    && store'.Keys == store.Keys + {uid}
    && forall id :: id in store && id != uid ==> store'[id] == store[id]
  }

  // ------------------------------------------------------------ createSession

  datatype Created = Created(token: string, session: UserSession, store: Store)

  /** `createSession(initialCredits)`. The random UUID and the two clock
      readings (one for `createdAt`, one for `expiresAt`) are parameters. */
  function CreateSession(
    prims: Primitives, store: Store, initialCredits: Option<int>,
    freshId: string, createdClock: int, expiryClock: int): (r: Created)
    ensures r.session.userId == freshId
    ensures r.session.credits == (if initialCredits.Some? then initialCredits.value else 10)
    ensures r.session.plan == Free && r.session.totalGenerations == 0
    ensures r.session.createdAt == createdClock
    ensures r.session.expiresAt - expiryClock == 86_400_000
    ensures freshId in r.store && r.store[freshId] == r.session
    ensures OthersUnchanged(store, r.store, freshId)
    ensures r.token == GenerateToken(prims, r.session)
  {
    var session := UserSession(
      freshId, initialCredits.GetOr(DefaultInitialCredits), Free, 0,
      createdClock, expiryClock + SessionLifetime);
    Created(GenerateToken(prims, session), session, store[freshId := session])
  }

  // ------------------------------------------------------------ getSession

  /** `getSession(token)`: the stored record of the token's user if there is
      one, otherwise the token's own payload. */
  function GetSession(prims: Primitives, store: Store, token: string, now: int): (r: Option<UserSession>)
    ensures r.Some? <==> VerifyToken(prims, token, now).Some?
    ensures r.Some? ==> var decoded := VerifyToken(prims, token, now).value;
      if decoded.userId in store then r.value == store[decoded.userId] else r.value == decoded
  {
    match VerifyToken(prims, token, now)
    case None => None
    case Some(decoded) =>
      if decoded.userId in store then Some(store[decoded.userId]) else Some(decoded)
  }

  /** A freshly created session is found again through its token until it
      expires: the store's record, which is the token's payload. */
  lemma CreatedSessionFound(
    prims: Primitives, store: Store, initialCredits: Option<int>,
    freshId: string, createdClock: int, expiryClock: int, now: int)
    requires var r := CreateSession(prims, store, initialCredits, freshId, createdClock, expiryClock);
      JsonRoundTrips(prims, r.session)
    requires now <= expiryClock + SessionLifetime
    ensures var r := CreateSession(prims, store, initialCredits, freshId, createdClock, expiryClock);
      GetSession(prims, r.store, r.token, now) == Some(r.session)
  {
    var r := CreateSession(prims, store, initialCredits, freshId, createdClock, expiryClock);
    VerifyGenerated(prims, r.session, now);
  }

  // ------------------------------------------------------------ updateSessionCredits

  datatype Updated = Updated(ok: bool, store: Store)

  /** `updateSessionCredits(userId, newCredits)`. */
  function UpdateSessionCredits(store: Store, uid: string, newCredits: int): (r: Updated)
    ensures r.ok <==> uid in store
    ensures !r.ok ==> r.store == store
    ensures r.ok ==>
      && OthersUnchanged(store, r.store, uid)
      && r.store[uid] == store[uid].(credits := newCredits)
  {
    if uid !in store then Updated(false, store)
    else Updated(true, store[uid := store[uid].(credits := newCredits)])
  }

  // ------------------------------------------------------------ deductCredits

  datatype DeductResult = DeductResult(success: bool, remainingCredits: int, error: Option<string>)

  const SessionNotFound: string := "Session not found"

  function InsufficientMessage(cost: int, available: int): string {
    "Insufficient credits. Required: " + IntToString(cost) + ", Available: " + IntToString(available)
  }

  datatype Deducted = Deducted(result: DeductResult, store: Store)

  /** `deductCredits(userId, operation)`. */
  function DeductCredits(store: Store, uid: string, op: CreditOperation): (r: Deducted)
    ensures uid !in store ==> r == Deducted(DeductResult(false, 0, Some(SessionNotFound)), store)
    ensures uid in store && store[uid].credits < ServerCost(op) ==>
      r.store == store
      && r.result == DeductResult(false, store[uid].credits,
                                  Some(InsufficientMessage(ServerCost(op), store[uid].credits)))
    ensures r.result.success <==> uid in store && store[uid].credits >= ServerCost(op)
    ensures r.result.success ==>
      && OthersUnchanged(store, r.store, uid)
      && r.store[uid].credits == store[uid].credits - ServerCost(op) >= 0
      && r.store[uid].totalGenerations == store[uid].totalGenerations + 1
      && r.store[uid] == store[uid].(credits := r.store[uid].credits,
                                     totalGenerations := r.store[uid].totalGenerations)
      && r.result.remainingCredits == r.store[uid].credits
      && r.result.error.None?
  {
    if uid !in store then Deducted(DeductResult(false, 0, Some(SessionNotFound)), store)
    else
      var session := store[uid];
      var cost := ServerCost(op);
      if session.credits < cost then
        Deducted(DeductResult(false, session.credits, Some(InsufficientMessage(cost, session.credits))), store)
      else
        var session' := session.(credits := session.credits - cost,
                                 totalGenerations := session.totalGenerations + 1);
        Deducted(DeductResult(true, session'.credits, None), store[uid := session'])
  }

  // ------------------------------------------------------------ refundCredits

  /** `refundCredits(userId, operation)`. */
  function RefundCredits(store: Store, uid: string, op: CreditOperation): (r: Updated)
    ensures r.ok <==> uid in store
    ensures !r.ok ==> r.store == store
    ensures r.ok ==>
      && OthersUnchanged(store, r.store, uid)
      && r.store[uid].credits == store[uid].credits + ServerCost(op)
      && r.store[uid].totalGenerations ==
           (if store[uid].totalGenerations >= 1 then store[uid].totalGenerations - 1 else 0)
      && r.store[uid] == store[uid].(credits := r.store[uid].credits,
                                     totalGenerations := r.store[uid].totalGenerations)
  {
    if uid !in store then Updated(false, store)
    else
      var session := store[uid];
      var tg := session.totalGenerations - 1;
      var session' := session.(credits := session.credits + ServerCost(op),
                               totalGenerations := if 0 > tg then 0 else tg);
      Updated(true, store[uid := session'])
  }

  /** A successful deduction followed by the refund of the same operation
      gives back exactly the store the deduction started from. */
  lemma DeductThenRefundRestores(store: Store, uid: string, op: CreditOperation)
    requires uid in store && store[uid].credits >= ServerCost(op)
    requires store[uid].totalGenerations >= 0
    ensures RefundCredits(DeductCredits(store, uid, op).store, uid, op).store == store
  {
    var s1 := DeductCredits(store, uid, op).store;
    var s2 := RefundCredits(s1, uid, op).store;
    assert s2[uid] == store[uid];
    assert s2.Keys == store.Keys;
  }

  // ------------------------------------------------------------ addCredits

  /** `addCredits(userId, amount, newPlan?)`. */
  function AddCredits(store: Store, uid: string, amount: int, newPlan: Option<Plan>): (r: Updated)
    ensures r.ok <==> uid in store
    ensures !r.ok ==> r.store == store
    ensures r.ok ==>
      && OthersUnchanged(store, r.store, uid)
      && r.store[uid].credits == store[uid].credits + amount
      && r.store[uid].plan == (if newPlan.Some? then newPlan.value else store[uid].plan)
      && r.store[uid] == store[uid].(credits := r.store[uid].credits, plan := r.store[uid].plan)
  {
    if uid !in store then Updated(false, store)
    else
      var session := store[uid];
      var session' := session.(credits := session.credits + amount, plan := newPlan.GetOr(session.plan));
      Updated(true, store[uid := session'])
  }

  /** For a user with no record, every mutator reports failure and leaves the store as it was. */
  lemma UnknownUserUnchanged(store: Store, uid: string, op: CreditOperation, amount: int, plan: Option<Plan>, c: int)
    requires uid !in store
    ensures !DeductCredits(store, uid, op).result.success && DeductCredits(store, uid, op).store == store
    ensures !RefundCredits(store, uid, op).ok && RefundCredits(store, uid, op).store == store
    ensures !AddCredits(store, uid, amount, plan).ok && AddCredits(store, uid, amount, plan).store == store
    ensures !UpdateSessionCredits(store, uid, c).ok && UpdateSessionCredits(store, uid, c).store == store
  {
  }

  /** No ledger operation can drive a generation counter below zero. */
  lemma GenerationsStayNonNegative(
    store: Store, uid: string, op: CreditOperation, amount: int, plan: Option<Plan>, c: int)
    requires GenerationsNonNegative(store)
    ensures GenerationsNonNegative(DeductCredits(store, uid, op).store)
    ensures GenerationsNonNegative(RefundCredits(store, uid, op).store)
    ensures GenerationsNonNegative(AddCredits(store, uid, amount, plan).store)
    ensures GenerationsNonNegative(UpdateSessionCredits(store, uid, c).store)
  {
  }

  /** A new session starts at zero generations and keeps the invariant. */
  lemma CreateKeepsGenerationsNonNegative(
    prims: Primitives, store: Store, initialCredits: Option<int>, freshId: string, t1: int, t2: int)
    requires GenerationsNonNegative(store)
    ensures GenerationsNonNegative(CreateSession(prims, store, initialCredits, freshId, t1, t2).store)
  {
    var r := CreateSession(prims, store, initialCredits, freshId, t1, t2);
    forall id | id in r.store ensures r.store[id].totalGenerations >= 0 {
      if id != freshId {
        assert r.store[id] == store[id];
      }
    }
  }

  // ------------------------------------------------------------ validateCredits

  datatype Validation = Validation(valid: bool, session: Option<UserSession>, error: Option<string>)

  const InvalidSession: string := "Invalid or expired session"

  /** `validateCredits(token, operation)`: reads the store and never writes it. */
  function ValidateCredits(prims: Primitives, store: Store, token: string, op: CreditOperation, now: int): (r: Validation)
    ensures r.valid <==>
      GetSession(prims, store, token, now).Some? && GetSession(prims, store, token, now).value.credits >= ServerCost(op)
    ensures r.session == GetSession(prims, store, token, now)
    ensures r.session.None? ==> r.error == Some(InvalidSession)
    ensures r.session.Some? && !r.valid ==>
      r.error == Some(InsufficientMessage(ServerCost(op), r.session.value.credits))
    ensures r.valid ==> r.error.None?
  {
    match GetSession(prims, store, token, now)
    case None => Validation(false, None, Some(InvalidSession))
    case Some(session) =>
      var cost := ServerCost(op);
      if session.credits < cost then
        Validation(false, Some(session), Some(InsufficientMessage(cost, session.credits)))
      else Validation(true, Some(session), None)
  }

  /** For a token whose user has a record, validation answers exactly what the
      deduction that follows would: both read the same record and cost. */
  lemma ValidateAgreesWithDeduct(prims: Primitives, store: Store, token: string, op: CreditOperation, now: int)
    requires VerifyToken(prims, token, now).Some?
    requires VerifyToken(prims, token, now).value.userId in store
    ensures ValidateCredits(prims, store, token, op, now).valid
        == DeductCredits(store, VerifyToken(prims, token, now).value.userId, op).result.success
  {
  }
}
