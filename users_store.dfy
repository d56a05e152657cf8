/** The `users` table as one mutable store, with the two request handlers that
    read and write it in place. Each handler is proved to leave the store and
    answer exactly as its specification function says. */
module UsersStore {
  import opened Common
  import opened Users
  import QuoteApi
  import StripeWebhook

  class UserStore {
    var rows: Table

    constructor (initial: Table)
      ensures rows == initial
    {
      rows := initial;
    }

    /** The quote endpoint: method and identity checks, load-or-create of the
        user's row, the lazily reset counter, the free-tier limit, then the
        generation, and the counter update only after it succeeded. */
    method GenerateQuote(req: QuoteApi.QuoteRequest, today: Day, env: QuoteApi.QuoteEnv)
      returns (resp: QuoteApi.Response)
      modifies this
      ensures QuoteApi.HandleQuote(old(rows), req, today, env) == QuoteApi.Outcome(resp, rows)
    {
      ghost var before := rows;
      if req.httpMethod != "POST" {
        return QuoteApi.Refused(QuoteApi.MethodNotAllowed);
      }
      var identity := QuoteApi.Identify(req.auth);
      if identity.Unidentified? {
        return QuoteApi.Refused(identity.reason);
      }
      var userEmail := identity.email;

      // Look the row up; when the lookup does not return it, insert a default row.
      var userData: UserRow;
      if !env.selectFails && userEmail in rows {
        userData := rows[userEmail];
      } else {
        if env.insertFails || userEmail in rows {
          return QuoteApi.Refused(QuoteApi.CreateUserFailed);
        }
        userData := QuoteApi.NewUserRow;
        rows := rows[userEmail := userData];
      }
      assert rows == before[userEmail := userData];
      assert QuoteApi.LoadOrCreate(before, userEmail, env) == Some(userData);
      QuoteApi.HandleQuoteLoaded(before, req, today, env);
      resp := GateAndGenerate(userEmail, userData, today, env);
    }

    /** The part of the quote endpoint after the row is loaded (and present in
        the table): lazy reset, limit, generation, and the counter update. */
    method GateAndGenerate(userEmail: Email, userData: UserRow, today: Day, env: QuoteApi.QuoteEnv)
      returns (resp: QuoteApi.Response)
      modifies this
      ensures var served := QuoteApi.Serve(userData, today, env);
              && resp == served.response
              && rows == if served.commit.Some? then old(rows)[userEmail := served.commit.value] else old(rows)
    {

      // Reset the count if it was written on another day.
      var quoteCount := if userData.quoteCount.Some? then userData.quoteCount.value else 0;
      var quoteCountDate := userData.quoteCountDate;
      if quoteCountDate != Some(today) {
        quoteCount := 0;
        quoteCountDate := Some(today);
      }
      assert quoteCount == QuoteApi.EffectiveCount(userData, today);
      assert QuoteApi.Consumed(userData, today)
          == userData.(quoteCount := Some(quoteCount + 1), quoteCountDate := Some(today));

      if !userData.isPremium && quoteCount >= QuoteApi.DailyLimit {
        return QuoteApi.Refused(QuoteApi.QuotaExceeded);
      }
      if !env.apiKeySet {
        return QuoteApi.Refused(QuoteApi.ApiKeyMissing);
      }

      // The generation call: an error status, an exception, or a reply without
      // content is a 500 and the counter is left alone.
      var generated := QuoteApi.GeneratedText(env.completion);
      if generated.Err? {
        return QuoteApi.Refused(generated.failure);
      }
      var q := QuoteApi.SplitQuote(generated.text);
      // The update's own error is not checked: the quote is returned either way.
      if !env.updateFails {
        rows := rows[userEmail := userData.(quoteCount := Some(quoteCount + 1), quoteCountDate := Some(today))];
      }
      return QuoteApi.QuoteOk(q.quote, q.author);
    }

    /** The payment webhook: reject other methods and unverified events; for a
        completed checkout with a customer e-mail, set the premium flag, falling
        back to an insert on the not-found code. Store errors are logged only. */
    method HandleWebhook(req: StripeWebhook.WebhookRequest, env: StripeWebhook.WebhookEnv)
      returns (resp: StripeWebhook.WebhookResponse)
      modifies this
      ensures StripeWebhook.HandleWebhook(old(rows), req, env) == StripeWebhook.WebhookOutcome(resp, rows)
    {
      if req.httpMethod != "POST" {
        return StripeWebhook.MethodNotAllowed("POST");
      }
      if !req.signatureValid {
        return StripeWebhook.BadSignature;
      }
      if req.event.eventType == StripeWebhook.CheckoutCompleted {
        var userEmail := req.event.customerEmail;
        if userEmail.Some? && userEmail.value != "" {
          var email := userEmail.value;
          match env.update {
            case UpdateOk =>
              if email in rows {
                rows := rows[email := rows[email].(isPremium := true)];
              }
            case UpdateError(code) =>
              if code == StripeWebhook.NotFoundCode {
                if !env.insertFails && email !in rows {
                  rows := rows[email := StripeWebhook.InsertedRow];
                }
              }
          }
        }
      }
      return StripeWebhook.Received;
    }
  }
}
