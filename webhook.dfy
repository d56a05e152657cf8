/** The payment webhook: a verified `checkout.session.completed` event turns the
    purchaser's row premium. `HandleWebhook` is the specification of one
    request; `UsersStore.UserStore.HandleWebhook` carries it out step by step. */
module StripeWebhook {
  import opened Common
  import opened Users

  /** The event type that activates premium. */
  const CheckoutCompleted: string := "checkout.session.completed"

  /** The error code on which the handler falls back to inserting the row. */
  const NotFoundCode: string := "PGRST116"

  /** A payment event: its type and the session's `customer_email`. */
  datatype Event = Event(eventType: string, customerEmail: Option<string>)

  /** A webhook request. Checking the signature against the raw body and the
      shared secret is done by the payment library; the model only sees whether
      it succeeded, and the event it yields. */
  datatype WebhookRequest = WebhookRequest(httpMethod: string, signatureValid: bool, event: Event)

  /** Result of the `update ... set is_premium = true` call. */
  datatype UpdateResult = UpdateOk | UpdateError(code: string)

  /** Outcomes of the store calls for one request: the update, and whether the
      fallback insert errors (an address already present always makes it fail,
      the key being unique). */
  datatype WebhookEnv = WebhookEnv(update: UpdateResult, insertFails: bool)

  datatype WebhookResponse =
    | Received                          // 200 {received: true}
    | BadSignature                      // 400 "Webhook Error: ..."
    | MethodNotAllowed(allow: string)   // 405, with the Allow header

  function StatusCode(r: WebhookResponse): int
  {
    match r
    case Received => 200
    case BadSignature => 400
    case MethodNotAllowed(_) => 405
  }

  datatype WebhookOutcome = WebhookOutcome(response: WebhookResponse, rows: Table)

  /** The row the fallback inserts: premium, with no quote counter yet. */
  const InsertedRow: UserRow := UserRow(true, None, None)

  /** The store effect of activating `email`: set the flag on an existing row;
      an update that errors with the not-found code falls back to an insert;
      any other error, and an insert that errors, leave the table as it was.
      An update without error on an address with no row matches nothing. */
  function Activate(rows: Table, email: Email, env: WebhookEnv): Table
  {
    match env.update
    case UpdateOk =>
      if email in rows then rows[email := rows[email].(isPremium := true)] else rows
    case UpdateError(code) =>
      if code == NotFoundCode && !env.insertFails && email !in rows then rows[email := InsertedRow]
      else rows
  }

  /** One request to the webhook endpoint. */
  function HandleWebhook(rows: Table, req: WebhookRequest, env: WebhookEnv): WebhookOutcome
  {
    if req.httpMethod != "POST" then WebhookOutcome(MethodNotAllowed("POST"), rows)
    else if !req.signatureValid then WebhookOutcome(BadSignature, rows)
    else if req.event.eventType == CheckoutCompleted
            && req.event.customerEmail.Some? && req.event.customerEmail.value != "" then
      WebhookOutcome(Received, Activate(rows, req.event.customerEmail.value, env))
    else WebhookOutcome(Received, rows)
  }

  // ---------------------------------------------------------------------------
  // Properties.

  /** Anything but POST gets 405 with `Allow: POST`, and nothing changes. */
  lemma NonPostRefused(rows: Table, req: WebhookRequest, env: WebhookEnv)
    requires req.httpMethod != "POST"
    ensures HandleWebhook(rows, req, env) == WebhookOutcome(MethodNotAllowed("POST"), rows)
    ensures StatusCode(HandleWebhook(rows, req, env).response) == 405
  {
  }

  /** An event whose signature does not verify gets 400 and changes nothing. */
  lemma UnverifiedRejected(rows: Table, req: WebhookRequest, env: WebhookEnv)
    requires req.httpMethod == "POST" && !req.signatureValid
    ensures HandleWebhook(rows, req, env) == WebhookOutcome(BadSignature, rows)
    ensures StatusCode(HandleWebhook(rows, req, env).response) == 400
  {
  }

  /** Every verified event is acknowledged with 200, whatever the store does. */
  lemma VerifiedAcknowledged(rows: Table, req: WebhookRequest, env: WebhookEnv)
    requires req.httpMethod == "POST" && req.signatureValid
    ensures HandleWebhook(rows, req, env).response == Received
    ensures StatusCode(HandleWebhook(rows, req, env).response) == 200
  {
  }

  /** The table changes only for a verified checkout-completed event that names
      a customer e-mail. */
  lemma OnlyCompletedCheckoutMutates(rows: Table, req: WebhookRequest, env: WebhookEnv)
    requires HandleWebhook(rows, req, env).rows != rows
    ensures req.httpMethod == "POST" && req.signatureValid
    ensures req.event.eventType == CheckoutCompleted
    ensures req.event.customerEmail.Some? && req.event.customerEmail.value != ""
  {
  }

  /** On an existing row a successful update sets the premium flag and changes
      no other field and no other row; the insert fallback is never taken. */
  lemma ExistingRowActivated(rows: Table, email: Email, env: WebhookEnv)
    requires email in rows && env.update == UpdateOk
    ensures Activate(rows, email, env).Keys == rows.Keys
    ensures Activate(rows, email, env)[email] == rows[email].(isPremium := true)
    ensures forall e :: e in rows && e != email ==> Activate(rows, email, env)[e] == rows[e]
  {
  }

  /** The fallback insert happens exactly on the not-found error code, for an
      address with no row, when the insert succeeds; no other error inserts. */
  lemma InsertFallbackExactly(rows: Table, email: Email, env: WebhookEnv)
    requires email !in rows
    ensures email in Activate(rows, email, env) <==>
              env.update == UpdateError(NotFoundCode) && !env.insertFails
    ensures email in Activate(rows, email, env) ==>
              Activate(rows, email, env) == rows[email := InsertedRow]
    ensures email !in Activate(rows, email, env) ==> Activate(rows, email, env) == rows
  {
  }

  /** What `Activate` does to the table, row by row: only `email` can change,
      and when it does it becomes premium. */
  lemma ActivateOnlyUpgrades(rows: Table, email: Email, env: WebhookEnv)
    ensures var after := Activate(rows, email, env);
            && after.Keys == rows.Keys + (after.Keys * {email})
            && (forall e :: e in rows && e != email ==> after[e] == rows[e])
            && (email in after && (email !in rows || after[email] != rows[email]) ==>
                  after[email] == if email in rows then rows[email].(isPremium := true) else InsertedRow)
            && (email in rows ==> after[email].isPremium == (rows[email].isPremium || (env.update == UpdateOk)))
  {
  }

  /** The only tier transition is free to premium: no row is removed, no row
      loses premium, only the event's row can change or appear, and whatever it
      becomes is premium. */
  lemma TierOnlyUpgrades(rows: Table, req: WebhookRequest, env: WebhookEnv)
    ensures var after := HandleWebhook(rows, req, env).rows;
            && rows.Keys <= after.Keys
            && (forall e :: e in rows && rows[e].isPremium ==> after[e].isPremium)
            && (forall e :: e in after && (e !in rows || after[e] != rows[e]) ==>
                  && req.event.customerEmail == Some(e)
                  && after[e] == (if e in rows then rows[e].(isPremium := true) else InsertedRow)
                  && after[e].isPremium)
  {
    var after := HandleWebhook(rows, req, env).rows;
    if after != rows {
      var email := req.event.customerEmail.value;
      assert after == Activate(rows, email, env);
      ActivateOnlyUpgrades(rows, email, env);
    }
  }

  /** Idempotence: once an event has left its customer's row premium, processing
      the same event again, with any store outcome, changes nothing and is
      acknowledged the same way. */
  lemma Idempotent(rows: Table, req: WebhookRequest, env1: WebhookEnv, env2: WebhookEnv)
    requires req.event.customerEmail.Some?
    requires var once := HandleWebhook(rows, req, env1).rows;
             req.event.customerEmail.value in once && once[req.event.customerEmail.value].isPremium
    ensures var once := HandleWebhook(rows, req, env1);
            HandleWebhook(once.rows, req, env2) == once
  {
    var once := HandleWebhook(rows, req, env1);
    var email := req.event.customerEmail.value;
    assert once.rows[email := once.rows[email].(isPremium := true)] == once.rows;
  }
}
