/**
  The payment webhook as a pure function from the request, the configuration,
  the signature check's verdict and the profile table to the response and the
  next table. Signature checking is a parameter: the event it produced or the
  message it threw. The table is a sequence of rows; the database's
  `.single()` answers a row only when exactly one row matches.
 */
module Webhook {
  import opened Wrappers
  import Lists

  datatype Request = Request(httpMethod: string, signature: Option<string>)

  /** What the deployment provides: the signing secret (an unset or empty
      variable is missing) and whether a database client was created. */
  datatype Env = Env(secret: Option<string>, storeConfigured: bool)

  /** The verified event, reduced to what the handler reads. */
  datatype Event =
    | CheckoutCompleted(customer: Option<string>, customerEmail: Option<string>, planId: Option<string>)
    | SubscriptionDeleted(subscriptionCustomer: string)
    | OtherEvent(eventType: string)

  /** `constructEvent`: the event, or the message of what it threw. */
  datatype Verdict = Verified(event: Event) | Rejected(message: string)

  /** A row of `profiles`. */
  datatype ProfileRow = ProfileRow(
    id: string,
    email: string,
    plan: string,
    credits: int,
    stripeCustomerId: Option<string>)

  datatype Response = Response(status: int, body: string)

  datatype Handled = Handled(response: Response, table: seq<ProfileRow>)

  predicate Truthy(s: Option<string>) {
    s.Some? && s.value != ""
  }

  /** `STRIPE_PRODUCTS[planId]?.credits || 0`. */
  function ProductCredits(planId: Option<string>): (c: nat)
    ensures planId == Some("creator") ==> c == 1000
    ensures planId == Some("agency") ==> c == 5000
    ensures planId != Some("creator") && planId != Some("agency") ==> c == 0
  {
    if planId == Some("creator") then 1000
    else if planId == Some("agency") then 5000
    else 0
  }

  /** How many rows carry `email`. */
  function EmailCount(table: seq<ProfileRow>, email: string): nat {
    if table == [] then 0
    else (if table[0].email == email then 1 else 0) + EmailCount(table[1..], email)
  }

  /** The first row carrying `email`, if any. */
  function FirstWithEmail(table: seq<ProfileRow>, email: string): (r: Option<ProfileRow>)
    ensures r.None? <==> EmailCount(table, email) == 0
    ensures r.Some? ==> r.value in table && r.value.email == email
  {
    if table == [] then None
    else if table[0].email == email then Some(table[0])
    else FirstWithEmail(table[1..], email)
  }

  /** `.select('*').eq('email', email).single()`: the row when exactly one matches. */
  function Single(table: seq<ProfileRow>, email: string): (r: Option<ProfileRow>)
    ensures r.Some? <==> EmailCount(table, email) == 1
    ensures r.Some? ==> r.value in table && r.value.email == email
  {
    if EmailCount(table, email) == 1 then FirstWithEmail(table, email) else None
  }

  /** `.update({ plan: planId, credits, stripe_customer_id }).eq('id', user.id)`.
      An absent `planId` is dropped from the update, so the plan is kept. */
  function ApplyCheckout(table: seq<ProfileRow>, user: ProfileRow, customer: Option<string>, planId: Option<string>): (t: seq<ProfileRow>)
    ensures |t| == |table|
    ensures forall i :: 0 <= i < |table| && table[i].id != user.id ==> t[i] == table[i]
    ensures forall i :: 0 <= i < |table| && table[i].id == user.id ==>
      && t[i].id == table[i].id && t[i].email == table[i].email
      && t[i].plan == (if planId.Some? then planId.value else table[i].plan)
      && t[i].credits == user.credits + ProductCredits(planId)
      && t[i].stripeCustomerId == customer
  {
    Lists.MapWhere(table, (row: ProfileRow) => row.id == user.id,
      (row: ProfileRow) => row.(
        plan := if planId.Some? then planId.value else row.plan,
        credits := user.credits + ProductCredits(planId),
        stripeCustomerId := customer))
  }

  /** `.update({ plan: 'free' }).eq('stripe_customer_id', customer)`. */
  function ApplyCancellation(table: seq<ProfileRow>, customer: string): (t: seq<ProfileRow>)
    ensures |t| == |table|
    ensures forall i :: 0 <= i < |table| && table[i].stripeCustomerId != Some(customer) ==> t[i] == table[i]
    ensures forall i :: 0 <= i < |table| && table[i].stripeCustomerId == Some(customer) ==>
      t[i] == table[i].(plan := "free")
  {
    Lists.MapWhere(table, (row: ProfileRow) => row.stripeCustomerId == Some(customer),
      (row: ProfileRow) => row.(plan := "free"))
  }

  /** The table after a verified event. */
  function Apply(env: Env, event: Event, table: seq<ProfileRow>): (t: seq<ProfileRow>)
    ensures |t| == |table|
    ensures !env.storeConfigured || event.OtherEvent? ==> t == table
    ensures forall i :: 0 <= i < |table| ==> t[i].id == table[i].id && t[i].email == table[i].email
  {
    if !env.storeConfigured then table
    else
      match event
      case CheckoutCompleted(customer, email, planId) =>
        if !Truthy(email) then table
        else
          (match Single(table, email.value)
           case None => table
           case Some(user) => ApplyCheckout(table, user, customer, planId))
      case SubscriptionDeleted(customer) => ApplyCancellation(table, customer)
      case OtherEvent(_) => table
  }

  const NotAllowed := Response(405, "{\"error\":\"Method not allowed\"}")
  const SecretMissing := Response(500, "{\"error\":\"Webhook secret not configured\"}")
  const SignatureMissing := Response(400, "{\"error\":\"Missing stripe-signature header\"}")
  const Received := Response(200, "{\"received\":true}")

  /** `handler(req, res)`. */
  function Handle(env: Env, req: Request, verdict: Verdict, table: seq<ProfileRow>): (h: Handled)
    ensures req.httpMethod != "POST" ==> h == Handled(NotAllowed, table)
    ensures req.httpMethod == "POST" && !Truthy(env.secret) ==> h == Handled(SecretMissing, table)
    ensures req.httpMethod == "POST" && Truthy(env.secret) && !Truthy(req.signature) ==>
      h == Handled(SignatureMissing, table)
    ensures req.httpMethod == "POST" && Truthy(env.secret) && Truthy(req.signature) && verdict.Rejected? ==>
      h == Handled(Response(400, "Webhook Error: " + verdict.message), table)
    ensures h.response.status == 200 <==>
      req.httpMethod == "POST" && Truthy(env.secret) && Truthy(req.signature) && verdict.Verified?
    ensures h.response.status != 200 ==> h.table == table
    ensures h.response.status == 200 ==> h == Handled(Received, Apply(env, verdict.event, table))
  {
    if req.httpMethod != "POST" then Handled(NotAllowed, table)
    else if !Truthy(env.secret) then Handled(SecretMissing, table)
    else if !Truthy(req.signature) then Handled(SignatureMissing, table)
    else
      match verdict
      case Rejected(msg) => Handled(Response(400, "Webhook Error: " + msg), table)
      case Verified(event) => Handled(Received, Apply(env, event, table))
  }

  /** A completed checkout for the one profile with that email moves it to the
      paid plan, grants the plan's credits and records the customer. */
  lemma CheckoutUpgradesMatchedProfile(env: Env, customer: Option<string>, email: string, planId: Option<string>, table: seq<ProfileRow>, k: int)
    requires env.storeConfigured && email != ""
    requires 0 <= k < |table| && table[k].email == email && EmailCount(table, email) == 1
    ensures var t := Apply(env, CheckoutCompleted(customer, Some(email), planId), table);
      && t[k].credits == table[k].credits + ProductCredits(planId)
      && t[k].plan == (if planId.Some? then planId.value else table[k].plan)
      && t[k].stripeCustomerId == customer
  {
    SingleIsUnique(table, email, k);
  }

  /** When exactly one row has the email, `.single()` returns that row. */
  lemma {:induction false} SingleIsUnique(table: seq<ProfileRow>, email: string, k: int)
    requires 0 <= k < |table| && table[k].email == email && EmailCount(table, email) == 1
    ensures Single(table, email) == Some(table[k])
  {
    FirstIsUnique(table, email, k);
  }

  lemma {:induction false} FirstIsUnique(table: seq<ProfileRow>, email: string, k: int)
    requires 0 <= k < |table| && table[k].email == email && EmailCount(table, email) == 1
    ensures FirstWithEmail(table, email) == Some(table[k])
  {
    if table[0].email == email {
      if k != 0 {
        CountPositive(table[1..], email, k - 1);
      }
    } else {
      FirstIsUnique(table[1..], email, k - 1);
    }
  }

  lemma {:induction false} CountPositive(table: seq<ProfileRow>, email: string, k: int)
    requires 0 <= k < |table| && table[k].email == email
    ensures EmailCount(table, email) >= 1
  {
    if k > 0 {
      CountPositive(table[1..], email, k - 1);
    }
  }

  /** No email, no matching profile, or no database: a checkout changes nothing. */
  lemma CheckoutWithoutMatchIsNoOp(env: Env, customer: Option<string>, email: Option<string>, planId: Option<string>, table: seq<ProfileRow>)
    requires !env.storeConfigured || !Truthy(email) || EmailCount(table, email.value) != 1
    ensures Apply(env, CheckoutCompleted(customer, email, planId), table) == table
  {
  }

  /** A cancelled subscription moves every profile of that customer to the free
      plan and touches no balance. */
  lemma CancellationKeepsCredits(env: Env, customer: string, table: seq<ProfileRow>)
    requires env.storeConfigured
    ensures var t := Apply(env, SubscriptionDeleted(customer), table);
      && |t| == |table|
      && (forall i :: 0 <= i < |t| ==> t[i].credits == table[i].credits)
      && (forall i :: 0 <= i < |t| && table[i].stripeCustomerId == Some(customer) ==> t[i].plan == "free")
  {
  }

  /** The email column is never written, so the row `.single()` finds stays
      the same row. */
  lemma {:induction false} CheckoutKeepsEmails(table: seq<ProfileRow>, user: ProfileRow, customer: Option<string>, planId: Option<string>, email: string)
    ensures EmailCount(ApplyCheckout(table, user, customer, planId), email) == EmailCount(table, email)
    decreases |table|
  {
    if table != [] {
      var t := ApplyCheckout(table, user, customer, planId);
      CheckoutKeepsEmails(table[1..], user, customer, planId, email);
      assert t[1..] == ApplyCheckout(table[1..], user, customer, planId);
    }
  }

  /** Redelivery is not deduplicated: the same checkout event applied twice
      grants the plan's credits twice. */
  lemma RedeliveryGrantsTwice(env: Env, customer: Option<string>, email: string, planId: Option<string>, table: seq<ProfileRow>, k: int)
    requires env.storeConfigured && email != ""
    requires 0 <= k < |table| && table[k].email == email && EmailCount(table, email) == 1
    ensures var event := CheckoutCompleted(customer, Some(email), planId);
      var twice := Apply(env, event, Apply(env, event, table));
      twice[k].credits == table[k].credits + 2 * ProductCredits(planId)
  {
    var event := CheckoutCompleted(customer, Some(email), planId);
    var once := Apply(env, event, table);
    SingleIsUnique(table, email, k);
    CheckoutKeepsEmails(table, table[k], customer, planId, email);
    assert once[k].email == email;
    SingleIsUnique(once, email, k);
  }
}
