/** The quote-generation endpoint: who may ask, the lazily reset daily counter,
    the free-tier limit, and the counter update that only follows a successful
    generation. `HandleQuote` is the specification of one request; the store
    method `UsersStore.UserStore.GenerateQuote` carries it out step by step. */
module QuoteApi {
  import opened Common
  import opened Users

  /** Quotes a free user may generate per calendar day. */
  const DailyLimit: int := 3

  /** The row created for an e-mail address seen for the first time. */
  const NewUserRow: UserRow := UserRow(false, Some(0), None)

  /** The em dash that separates a generated quote from its author. */
  const EmDash: char := '\U{2014}'

  // ---------------------------------------------------------------------------
  // Inputs: the identity provider's answer, the request, and the outcomes of
  // the calls into services the model cannot see.

  /** An e-mail address of the signed-in user with its verification status
      (`verification?.status`, absent when there is no verification object). */
  datatype EmailAddress = EmailAddress(emailAddress: string, status: Option<string>)

  datatype ClerkUser = ClerkUser(id: string, emailAddresses: seq<EmailAddress>)

  /** What the identity provider resolves from the request. */
  datatype Auth = Auth(userId: Option<string>, user: Option<ClerkUser>)

  datatype QuoteRequest = QuoteRequest(httpMethod: string, auth: Auth)

  /** The text-generation call: a reply whose first choice may or may not have
      content, a reply with an error status, or an exception (network failure,
      unreadable body). */
  datatype Completion = Reply(content: Option<string>) | HttpError(status: int) | Thrown

  /** Outcomes of everything outside the model for one request: whether the row
      lookup errors, whether inserting the new row errors, whether the API key is
      configured, the generation call, and whether the final counter update errors
      (the handler ignores that error). */
  datatype QuoteEnv = QuoteEnv(
    selectFails: bool,
    insertFails: bool,
    apiKeySet: bool,
    completion: Completion,
    updateFails: bool)

  // ---------------------------------------------------------------------------
  // Responses.

  datatype Failure =
    | MethodNotAllowed
    | NotAuthenticated
    | NoEmailAddresses
    | EmailNotVerified
    | CreateUserFailed
    | QuotaExceeded
    | ApiKeyMissing
    | UpstreamStatus(status: int)
    | NoQuoteContent
    | ServerError

  datatype Response = QuoteOk(quote: string, author: string) | Refused(reason: Failure)

  /** The HTTP status each response is sent with. */
  function StatusCode(r: Response): int
  {
    match r
    case QuoteOk(_, _) => 200
    case Refused(MethodNotAllowed) => 405
    case Refused(NotAuthenticated) => 401
    case Refused(NoEmailAddresses) => 401
    case Refused(EmailNotVerified) => 401
    case Refused(QuotaExceeded) => 403
    case Refused(_) => 500
  }

  /** A response together with the table after the request. */
  datatype Outcome = Outcome(response: Response, rows: Table)

  // ---------------------------------------------------------------------------
  // Identity.

  predicate IsVerified(a: EmailAddress)
  {
    a.status == Some("verified")
  }

  /** Index of the first verified address (`Array.prototype.find`). */
  function FirstVerifiedIndex(addrs: seq<EmailAddress>): (r: Option<nat>)
    ensures r.Some? ==> r.value < |addrs| && IsVerified(addrs[r.value])
    ensures r.Some? ==> forall j :: 0 <= j < r.value ==> !IsVerified(addrs[j])
    ensures r.None? ==> forall j :: 0 <= j < |addrs| ==> !IsVerified(addrs[j])
  {
    if addrs == [] then None
    else if IsVerified(addrs[0]) then Some(0)
    else
      match FirstVerifiedIndex(addrs[1..])
      case None => None
      case Some(i) => Some(i + 1)
  }

  datatype Identity = Identified(email: Email) | Unidentified(reason: Failure)

  /** The checks before any store access: a user id and a user object, at least
      one e-mail address, and a verified one, whose address is then the key. */
  function Identify(auth: Auth): Identity
  {
    if auth.userId.None? || auth.userId.value == "" || auth.user.None? then
      Unidentified(NotAuthenticated)
    else if |auth.user.value.emailAddresses| == 0 then
      Unidentified(NoEmailAddresses)
    else
      var addrs := auth.user.value.emailAddresses;
      match FirstVerifiedIndex(addrs)
      case None => Unidentified(EmailNotVerified)
      case Some(i) => Identified(addrs[i].emailAddress)
  }

  /** Identification succeeds exactly when there is a non-empty user id, a user,
      and a verified address, and it then yields the first verified address. */
  lemma IdentifySpec(auth: Auth)
    ensures Identify(auth).Identified? <==>
              && auth.userId.Some? && auth.userId.value != ""
              && auth.user.Some?
              && exists i :: 0 <= i < |auth.user.value.emailAddresses|
                               && IsVerified(auth.user.value.emailAddresses[i])
    ensures Identify(auth).Identified? ==>
              exists i :: 0 <= i < |auth.user.value.emailAddresses|
                && IsVerified(auth.user.value.emailAddresses[i])
                && (forall j :: 0 <= j < i ==> !IsVerified(auth.user.value.emailAddresses[j]))
                && Identify(auth).email == auth.user.value.emailAddresses[i].emailAddress
  {
    if auth.userId.Some? && auth.userId.value != "" && auth.user.Some? {
      var addrs := auth.user.value.emailAddresses;
      match FirstVerifiedIndex(addrs)
      case None =>
      case Some(i) =>
        assert IsVerified(addrs[i]);
    }
  }

  // ---------------------------------------------------------------------------
  // The counter.

  /** `quote_count || 0`: a null count reads as zero. */
  function StoredCount(row: UserRow): int
  {
    match row.quoteCount
    case None => 0
    case Some(n) => n
  }

  /** Lazy daily reset: the stored count applies only on the day it was written;
      on any other day (or with no date) the count in effect is zero. */
  function EffectiveCount(row: UserRow, today: Day): int
  {
    if row.quoteCountDate == Some(today) then StoredCount(row) else 0
  }

  /** The limit check: only a free user at or above the limit is refused. */
  predicate OverLimit(row: UserRow, today: Day)
  {
    !row.isPremium && EffectiveCount(row, today) >= DailyLimit
  }

  /** The row after a successful generation: the effective count plus one, dated
      today; the premium flag is kept. */
  function Consumed(row: UserRow, today: Day): UserRow
  {
    row.(quoteCount := Some(EffectiveCount(row, today) + 1), quoteCountDate := Some(today))
  }

  // ---------------------------------------------------------------------------
  // Quote and author.

  datatype Quote = Quote(quote: string, author: string)

  /** `text.split("—").map(trim)`, keeping the first two pieces as quote and
      author when the text contains an em dash; otherwise the whole text with
      author "Unknown". */
  function SplitQuote(text: string): Quote
  {
    if EmDash in text then
      var pieces := Split(text, EmDash);
      Quote(Trim(pieces[0]), Trim(pieces[1]))
    else
      Quote(text, "Unknown")
  }

  /** Text without a dash is the quote itself, by an unknown author. */
  lemma SplitQuoteNoDash(text: string)
    requires EmDash !in text
    ensures SplitQuote(text) == Quote(text, "Unknown")
  {
  }

  /** With a dash, the quote is the trimmed text before the first dash and the
      author the trimmed text between the first dash and the next one (or the end). */
  lemma SplitQuoteAtFirstDash(q: string, rest: string)
    requires EmDash !in q
    ensures SplitQuote(q + [EmDash] + rest) == Quote(Trim(q), Trim(Split(rest, EmDash)[0]))
  {
    SplitAtFirst(q, EmDash, rest);
    assert (q + [EmDash] + rest)[|q|] == EmDash;
  }

  /** Round trip: a quote and an author without dashes, written as
      "quote — author", come back as the trimmed quote and author. */
  lemma SplitQuoteRoundTrip(q: string, a: string)
    requires EmDash !in q && EmDash !in a
    ensures SplitQuote(q + [EmDash] + a) == Quote(Trim(q), Trim(a))
  {
    SplitQuoteAtFirstDash(q, a);
    SplitNoSeparator(a, EmDash);
  }

  // ---------------------------------------------------------------------------
  // One request.

  datatype Result = Ok(text: string) | Err(failure: Failure)

  /** The generated text: the trimmed content of a successful reply, or the
      failure the handler responds with. */
  function GeneratedText(c: Completion): Result
  {
    match c
    case HttpError(status) => Err(UpstreamStatus(status))
    case Thrown => Err(ServerError)
    case Reply(content) =>
      var text := if content.Some? then Trim(content.value) else "";
      if text == "" then Err(NoQuoteContent) else Ok(text)
  }

  /** The row the request works with: the stored one when the lookup finds it,
      otherwise a freshly inserted default row, or None when that insert fails
      (the key is unique, so inserting an address that is already present
      fails too). */
  function LoadOrCreate(rows: Table, email: Email, env: QuoteEnv): Option<UserRow>
  {
    if !env.selectFails && email in rows then Some(rows[email])
    else if env.insertFails || email in rows then None
    else Some(NewUserRow)
  }

  /** What happens once the row is loaded: the response, and the row written
      back by the counter update (None when no update is made). */
  datatype Served = Served(response: Response, commit: Option<UserRow>)

  /** The gate and the generation for a loaded row. */
  function Serve(row: UserRow, today: Day, env: QuoteEnv): Served
  {
    if OverLimit(row, today) then Served(Refused(QuotaExceeded), None)
    else if !env.apiKeySet then Served(Refused(ApiKeyMissing), None)
    else match GeneratedText(env.completion)
      case Err(f) => Served(Refused(f), None)
      case Ok(text) =>
        var q := SplitQuote(text);
        Served(QuoteOk(q.quote, q.author), if env.updateFails then None else Some(Consumed(row, today)))
  }

  /** One request to the quote endpoint against table `rows` on day `today`. */
  function HandleQuote(rows: Table, req: QuoteRequest, today: Day, env: QuoteEnv): Outcome
  {
    if req.httpMethod != "POST" then Outcome(Refused(MethodNotAllowed), rows)
    else match Identify(req.auth)
      case Unidentified(reason) => Outcome(Refused(reason), rows)
      case Identified(email) =>
        match LoadOrCreate(rows, email, env)
        case None => Outcome(Refused(CreateUserFailed), rows)
        case Some(row) =>
          var s := Serve(row, today, env);
          Outcome(s.response, rows[email := if s.commit.Some? then s.commit.value else row])
  }

  /** Once the row is loaded, the request's outcome is what the gate and the
      generation make of that row. */
  lemma HandleQuoteLoaded(rows: Table, req: QuoteRequest, today: Day, env: QuoteEnv)
    requires req.httpMethod == "POST" && Identify(req.auth).Identified?
    requires LoadOrCreate(rows, Identify(req.auth).email, env).Some?
    ensures var email := Identify(req.auth).email;
            var row := LoadOrCreate(rows, email, env).value;
            var s := Serve(row, today, env);
            HandleQuote(rows, req, today, env)
              == Outcome(s.response, rows[email := if s.commit.Some? then s.commit.value else row])
  {
  }

  // ---------------------------------------------------------------------------
  // Properties of one request.

  /** Anything but POST gets 405 and the table is not touched. */
  lemma NonPostRefused(rows: Table, req: QuoteRequest, today: Day, env: QuoteEnv)
    requires req.httpMethod != "POST"
    ensures StatusCode(HandleQuote(rows, req, today, env).response) == 405
    ensures HandleQuote(rows, req, today, env).rows == rows
  {
  }

  /** A request without a usable identity gets 401, leaves the table alone, and
      gets the same answer whatever the table holds: the store is not consulted. */
  lemma UnauthenticatedRefused(rows: Table, other: Table, req: QuoteRequest, today: Day, env: QuoteEnv)
    requires req.httpMethod == "POST"
    requires req.auth.userId.None? || req.auth.userId.value == "" || req.auth.user.None?
             || (forall i :: 0 <= i < |req.auth.user.value.emailAddresses| ==>
                               !IsVerified(req.auth.user.value.emailAddresses[i]))
    ensures StatusCode(HandleQuote(rows, req, today, env).response) == 401
    ensures HandleQuote(rows, req, today, env).rows == rows
    ensures HandleQuote(rows, req, today, env).response == HandleQuote(other, req, today, env).response
  {
    IdentifySpec(req.auth);
  }

  /** A first-time address gets the default row (free, count 0, no date),
      which stays even when the generation then fails, and holds one quote
      dated today after a delivered quote whose counter write succeeds. When
      inserting it fails the answer is 500 and the table is unchanged. */
  lemma FirstRequestCreatesRow(rows: Table, req: QuoteRequest, today: Day, env: QuoteEnv)
    requires req.httpMethod == "POST" && Identify(req.auth).Identified?
    requires Identify(req.auth).email !in rows
    ensures NewUserRow == UserRow(false, Some(0), None)
    ensures var out := HandleQuote(rows, req, today, env);
            if env.insertFails then
              out == Outcome(Refused(CreateUserFailed), rows) && StatusCode(out.response) == 500
            else
              && out.rows == rows[Identify(req.auth).email :=
                                    if out.response.QuoteOk? && !env.updateFails then UserRow(false, Some(1), Some(today))
                                    else NewUserRow]
              && out.response != Refused(QuotaExceeded)
  {
  }

  /** A count stored on another day has no effect at all: two rows that differ
      only in that stale count are answered alike and end up alike. */
  lemma StaleCountIgnored(rows: Table, req: QuoteRequest, today: Day, env: QuoteEnv, email: Email,
                          c1: Option<int>, c2: Option<int>, premium: bool, date: Option<Day>)
    requires req.httpMethod == "POST" && Identify(req.auth) == Identified(email)
    requires date != Some(today)
    ensures var out1 := HandleQuote(rows[email := UserRow(premium, c1, date)], req, today, env);
            var out2 := HandleQuote(rows[email := UserRow(premium, c2, date)], req, today, env);
            && out1.response == out2.response
            && out1.rows - {email} == out2.rows - {email}
            && EffectiveCount(out1.rows[email], today) == EffectiveCount(out2.rows[email], today)
  {
    var r1 := rows[email := UserRow(premium, c1, date)];
    var r2 := rows[email := UserRow(premium, c2, date)];
    assert r1 - {email} == r2 - {email};
    var o1 := HandleQuote(r1, req, today, env);
    var o2 := HandleQuote(r2, req, today, env);
    assert o1.rows - {email} == r1 - {email};
    assert o2.rows - {email} == r2 - {email};
  }

  /** A free user who has used the daily limit today gets 403 and nothing is written. */
  lemma LimitReachedRefused(rows: Table, req: QuoteRequest, today: Day, env: QuoteEnv)
    requires req.httpMethod == "POST" && Identify(req.auth).Identified?
    requires var email := Identify(req.auth).email;
             email in rows && !env.selectFails && OverLimit(rows[email], today)
    ensures HandleQuote(rows, req, today, env) == Outcome(Refused(QuotaExceeded), rows)
    ensures StatusCode(HandleQuote(rows, req, today, env).response) == 403
  {
    var email := Identify(req.auth).email;
    assert rows[email := rows[email]] == rows;
  }

  /** The 403 is given exactly to free users at or over the limit: premium users
      never see it, whatever their count. */
  lemma QuotaRefusalExactly(rows: Table, req: QuoteRequest, today: Day, env: QuoteEnv)
    requires req.httpMethod == "POST" && Identify(req.auth).Identified?
    requires LoadOrCreate(rows, Identify(req.auth).email, env).Some?
    ensures var row := LoadOrCreate(rows, Identify(req.auth).email, env).value;
            (HandleQuote(rows, req, today, env).response == Refused(QuotaExceeded)) <==> OverLimit(row, today)
  {
  }

  /** A premium user is never refused with 403. */
  lemma PremiumNeverOverLimit(rows: Table, req: QuoteRequest, today: Day, env: QuoteEnv)
    requires req.httpMethod == "POST" && Identify(req.auth).Identified?
    requires var email := Identify(req.auth).email; email in rows && rows[email].isPremium
    ensures StatusCode(HandleQuote(rows, req, today, env).response) != 403
  {
  }

  /** After the gate, a successful answer always comes with the counter update
      (unless that update errors), and a refusal never writes. */
  lemma ServeCommits(row: UserRow, today: Day, env: QuoteEnv)
    ensures Serve(row, today, env).response.QuoteOk? ==>
              Serve(row, today, env).commit == if env.updateFails then None else Some(Consumed(row, today))
    ensures Serve(row, today, env).response.Refused? ==> Serve(row, today, env).commit == None
  {
  }

  /** A successful generation writes the effective count plus one and today's
      date into the user's row (premium or not), unless that write errors. */
  lemma SuccessConsumesOne(rows: Table, req: QuoteRequest, today: Day, env: QuoteEnv)
    requires HandleQuote(rows, req, today, env).response.QuoteOk?
    ensures req.httpMethod == "POST" && Identify(req.auth).Identified?
    ensures var email := Identify(req.auth).email;
            var out := HandleQuote(rows, req, today, env);
            var row := if !env.selectFails && email in rows then rows[email] else NewUserRow;
            && (env.updateFails ==> out.rows == rows[email := row])
            && (!env.updateFails ==>
                  && out.rows == rows[email := row.(quoteCount := Some(EffectiveCount(row, today) + 1),
                                                    quoteCountDate := Some(today))]
                  && EffectiveCount(out.rows[email], today) == EffectiveCount(row, today) + 1)
  {
    SuccessWrites(rows, req, today, env);
    var email := Identify(req.auth).email;
    var row := LoadOrCreate(rows, email, env).value;
    assert row == if !env.selectFails && email in rows then rows[email] else NewUserRow;
  }

  /** A delivered quote went through identification, a loaded row and the
      gate, and its counter write is `Consumed` of that row. */
  lemma SuccessWrites(rows: Table, req: QuoteRequest, today: Day, env: QuoteEnv)
    requires HandleQuote(rows, req, today, env).response.QuoteOk?
    ensures req.httpMethod == "POST" && Identify(req.auth).Identified?
    ensures LoadOrCreate(rows, Identify(req.auth).email, env).Some?
    ensures var email := Identify(req.auth).email;
            var row := LoadOrCreate(rows, email, env).value;
            HandleQuote(rows, req, today, env).rows
              == rows[email := if env.updateFails then row else Consumed(row, today)]
  {
    var email := Identify(req.auth).email;
    var row := LoadOrCreate(rows, email, env).value;
    ServeCommits(row, today, env);
  }

  /** A failed generation (error status, no content, exception) or a missing API
      key is refused (500, or 403 at the limit) and costs no quota: the caller's
      count in effect is what it was, whether the row existed or was created. */
  lemma FailedGenerationFree(rows: Table, req: QuoteRequest, today: Day, env: QuoteEnv)
    requires req.httpMethod == "POST" && Identify(req.auth).Identified?
    requires !env.apiKeySet || GeneratedText(env.completion).Err?
    ensures var email := Identify(req.auth).email;
            var out := HandleQuote(rows, req, today, env);
            && out.response.Refused?
            && (StatusCode(out.response) == 500 || StatusCode(out.response) == 403)
            && out.rows - {email} == rows - {email}
            && UsedToday(out.rows, email, today) == UsedToday(rows, email, today)
            && (email in rows && !env.selectFails ==>
                  out.rows == rows && EffectiveCount(out.rows[email], today) == EffectiveCount(rows[email], today))
  {
    var email := Identify(req.auth).email;
    if email in rows && !env.selectFails {
      assert rows[email := rows[email]] == rows;
    }
  }

  /** Retrying after a failed generation on the same day finds the same row and
      meets the same limit decision as the failed attempt did. */
  lemma RetryAfterFailureSameDecision(rows: Table, req: QuoteRequest, today: Day, env: QuoteEnv, retry: QuoteEnv)
    requires req.httpMethod == "POST" && Identify(req.auth).Identified?
    requires !env.apiKeySet || GeneratedText(env.completion).Err?
    requires !retry.selectFails
    requires LoadOrCreate(rows, Identify(req.auth).email, env).Some?
    ensures var email := Identify(req.auth).email;
            var after := HandleQuote(rows, req, today, env).rows;
            && LoadOrCreate(after, email, retry) == LoadOrCreate(rows, email, env)
            && ((HandleQuote(after, req, today, retry).response == Refused(QuotaExceeded)) <==>
                (HandleQuote(rows, req, today, env).response == Refused(QuotaExceeded)))
  {
  }

  /** The endpoint only ever touches the requesting user's row, and never its
      premium flag; a row it creates is a free one. */
  lemma OnlyOwnCounterChanges(rows: Table, req: QuoteRequest, today: Day, env: QuoteEnv)
    ensures var out := HandleQuote(rows, req, today, env);
            && rows.Keys <= out.rows.Keys
            && (forall e :: e in rows ==> out.rows[e].isPremium == rows[e].isPremium)
            && (forall e :: e in out.rows && e !in rows ==> !out.rows[e].isPremium)
            && (out.rows != rows ==>
                  && req.httpMethod == "POST" && Identify(req.auth).Identified?
                  && out.rows - {Identify(req.auth).email} == rows - {Identify(req.auth).email})
  {
  }

  /** The daily limit as a state invariant: a free user whose count in effect
      today is within the limit is still within it after any request. */
  lemma DailyLimitKept(rows: Table, req: QuoteRequest, today: Day, env: QuoteEnv, email: Email)
    requires email in rows && !rows[email].isPremium && EffectiveCount(rows[email], today) <= DailyLimit
    ensures var out := HandleQuote(rows, req, today, env);
            email in out.rows && EffectiveCount(out.rows[email], today) <= DailyLimit
  {
  }

  // ---------------------------------------------------------------------------
  // A day of requests.

  /** Quotes handed out when the same user sends one request per outcome in
      `envs`, one after another, on day `today`. */
  function Successes(rows: Table, req: QuoteRequest, today: Day, envs: seq<QuoteEnv>): nat
    decreases |envs|
  {
    if envs == [] then 0
    else
      var out := HandleQuote(rows, req, today, envs[0]);
      (if out.response.QuoteOk? then 1 else 0) + Successes(out.rows, req, today, envs[1..])
  }

  /** Quotes already used today by the owner of `email` (zero without a row). */
  function UsedToday(rows: Table, email: Email, today: Day): int
  {
    if email in rows then EffectiveCount(rows[email], today) else 0
  }

  /** At most `DailyLimit` quotes per free user per day: however many requests
      arrive one after another, the quotes handed out on a day never exceed what
      is left of the limit, as long as each counter update is written. */
  lemma {:induction false} AtMostLimitPerDay(rows: Table, req: QuoteRequest, today: Day, envs: seq<QuoteEnv>)
    requires req.httpMethod == "POST" && Identify(req.auth).Identified?
    requires var email := Identify(req.auth).email;
             email in rows ==> !rows[email].isPremium
    requires 0 <= UsedToday(rows, Identify(req.auth).email, today) <= DailyLimit
    requires forall i :: 0 <= i < |envs| ==> !envs[i].updateFails
    ensures Successes(rows, req, today, envs) <= DailyLimit - UsedToday(rows, Identify(req.auth).email, today)
    decreases |envs|
  {
    if envs != [] {
      var email := Identify(req.auth).email;
      var out := HandleQuote(rows, req, today, envs[0]);
      OnlyOwnCounterChanges(rows, req, today, envs[0]);
      if out.response.QuoteOk? {
        SuccessConsumesOne(rows, req, today, envs[0]);
        var row := if !envs[0].selectFails && email in rows then rows[email] else NewUserRow;
        assert !OverLimit(row, today);
        assert UsedToday(out.rows, email, today) == UsedToday(rows, email, today) + 1;
      } else {
        assert UsedToday(out.rows, email, today) == UsedToday(rows, email, today);
      }
      assert forall i :: 0 <= i < |envs[1..]| ==> !envs[1..][i].updateFails by {
        forall i | 0 <= i < |envs[1..]| ensures !envs[1..][i].updateFails {
          assert envs[1..][i] == envs[i + 1];
        }
      }
      AtMostLimitPerDay(out.rows, req, today, envs[1..]);
    }
  }
}
