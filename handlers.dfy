/**
 * What each of the four HTTP handlers of server.js does to the tables and
 * answers, as functions of the tables before the request, the request, and
 * the values the handler obtains from outside: a drawn uuid, the
 * timestamps, and the upstream chat service's answer.
 */
module Handlers {
  import opened Wrappers
  import opened Text
  import opened JsValues
  import opened Tables

  /** The JSON bodies the handlers send. */
  datatype Body =
    | RowBody(user: User)                        // a `users` row as selected: {id, email, created_at}
    | CreatedBody(id: string, email: string)     // what createUser returns: {id, email}
    | ErrorBody(error: string)                   // {error}
    | NonJsonBody(error: string, rawResponse: string)  // {error, raw_response}
    | ReplyBody(reply: JsValue, sessionId: JsValue)    // {reply, session_id}
    | StatusBody(status: string)                 // {status}
    | DefaultErrorPage                           // Express's own page for an exception no handler caught

  datatype Response = Response(code: int, body: Body)

  /** The tables after a request, and the answer. */
  datatype Outcome = Outcome(store: Store, response: Response)

  /**
   * What the POST to the upstream chat service yields: the request itself
   * fails, the raw body does not parse as JSON, it parses as `null` (so
   * reading `data.reply` throws), or it parses and `data.reply` has a value
   * (Undefined when the field is missing).
   */
  datatype Upstream = NetworkError | NonJson(raw: string) | JsonNull | Json(reply: JsValue)

  /** The body of POST /api/chat. */
  datatype ChatRequest = ChatRequest(message: JsValue, userId: JsValue, sessionId: JsValue)

  const NoReply: string := "(no reply from Gemini)"

  const ServerError: Response := Response(500, ErrorBody("server error"))

  /** `String(req.body.email || "").trim().toLowerCase()`. */
  function EmailOf(email: JsValue): string
  {
    NormalizeEmail(ToJsString(Or(email, Str(""))))
  }

  /** POST /api/register (server.js:63-77), with `newId` the uuid createUser would draw. */
  function RegisterOutcome(st: Store, email: JsValue, newId: string, now: Timestamp): Outcome
  {
    RegisterNormalized(st, EmailOf(email), newId, now)
  }

  /** The register handler once the address is normalised to `e` (server.js:66-72). */
  function RegisterNormalized(st: Store, e: string, newId: string, now: Timestamp): Outcome
  {
    if e == "" then Outcome(st, Response(400, ErrorBody("email required")))
    else match UserWithEmail(st.users, e)
      case Some(u) => Outcome(st, Response(200, RowBody(u)))
      case None =>
        match InsertUser(st, User(newId, e, now))
        case None => Outcome(st, ServerError)
        case Some(st') => Outcome(st', Response(200, CreatedBody(newId, e)))
  }

  /** GET /api/user/:id (server.js:80-84); it never writes. */
  function GetUserResponse(st: Store, id: string): Response
  {
    match UserWithId(st.users, id)
    case None => Response(404, ErrorBody("not found"))
    case Some(u) => Response(200, RowBody(u))
  }

  /** `clientSession || uuidv4()` (server.js:93). */
  function ChooseSession(clientSession: JsValue, drawn: string): (r: JsValue)
    ensures !r.Undefined? && !r.Null?
    ensures Truthy(clientSession) ==> r == clientSession
    ensures !Truthy(clientSession) ==> r == Str(drawn)
  {
    Or(clientSession, Str(drawn))
  }

  /** `data.reply || "(no reply from Gemini)"` (server.js:117). */
  function AssistantReply(reply: JsValue): (r: JsValue)
    ensures Truthy(r)
    ensures Truthy(reply) ==> r == reply
    ensures !Truthy(reply) ==> r == Str(NoReply)
  {
    Or(reply, Str(NoReply))
  }

  /**
   * POST /api/chat (server.js:87-126), with `drawn` the uuid drawn when the
   * client sent no session, `sentAt` and `repliedAt` the timestamps of the two
   * inserts.
   */
  function ChatOutcome(st: Store, req: ChatRequest, drawn: string, upstream: Upstream,
                       sentAt: Timestamp, repliedAt: Timestamp): Outcome
  {
    if !Truthy(req.userId) then Outcome(st, Response(400, ErrorBody("user_id required")))
    else if !Truthy(req.message) then Outcome(st, Response(400, ErrorBody("message required")))
    else
      var session := ChooseSession(req.sessionId, drawn);
      match SaveMessage(st, req.userId, session, "user", req.message, sentAt)
      case None => Outcome(st, ServerError)
      case Some(st1) =>
        match upstream
        case NetworkError => Outcome(st1, ServerError)
        case JsonNull => Outcome(st1, ServerError)
        case NonJson(raw) =>
          Outcome(st1, Response(500, NonJsonBody("Flask returned non-JSON response", raw)))
        case Json(reply) =>
          var assistantReply := AssistantReply(reply);
          match SaveMessage(st1, req.userId, session, "assistant", assistantReply, repliedAt)
          case None => Outcome(st1, ServerError)
          case Some(st2) => Outcome(st2, Response(200, ReplyBody(assistantReply, session)))
  }

  /**
   * POST /api/clear (server.js:129-134). The handler has no try/catch, so a
   * bind failure reaches Express's default error handler.
   */
  function ClearOutcome(st: Store, userId: JsValue): Outcome
  {
    if !Truthy(userId) then Outcome(st, Response(400, ErrorBody("user_id required")))
    else match BindText(userId)
      case None => Outcome(st, Response(500, DefaultErrorPage))
      case Some(u) => Outcome(st.(messages := DeleteByUser(st.messages, u)),
                              Response(200, StatusBody("cleared")))
  }

  // ---------------------------------------------------------------- register

  /** A blank address is refused with 400, and only then, and the tables are untouched. */
  lemma RegisterBlank(st: Store, email: JsValue, newId: string, now: Timestamp)
    ensures var o := RegisterOutcome(st, email, newId, now);
      (o.response.code == 400 <==> EmailOf(email) == "")
      && (o.response.code == 400 ==> o == Outcome(st, Response(400, ErrorBody("email required"))))
  {
  }

  /** An address already registered answers that stored row and inserts nothing. */
  lemma RegisterExisting(st: Store, email: JsValue, newId: string, now: Timestamp, u: User)
    requires WellFormed(st) && u in st.users && u.email == EmailOf(email) != ""
    ensures RegisterOutcome(st, email, newId, now) == Outcome(st, Response(200, RowBody(u)))
  {
    UserWithEmailIsThatRow(st.users, u);
  }

  /**
   * A new address with an unused uuid inserts exactly one row, with that
   * drawn id and the normalised address, and answers {id, email}.
   */
  lemma RegisterNew(st: Store, email: JsValue, newId: string, now: Timestamp)
    requires EmailOf(email) != ""
    requires forall v :: v in st.users ==> v.email != EmailOf(email) && v.id != newId
    ensures var o := RegisterOutcome(st, email, newId, now);
      && o.store == st.(users := st.users + [User(newId, EmailOf(email), now)])
      && o.response == Response(200, CreatedBody(newId, EmailOf(email)))
  {
  }

  /** A new address whose drawn uuid is already an id answers 500 and inserts nothing. */
  lemma RegisterIdClash(st: Store, email: JsValue, newId: string, now: Timestamp, v: User)
    requires EmailOf(email) != ""
    requires forall w :: w in st.users ==> w.email != EmailOf(email)
    requires v in st.users && v.id == newId
    ensures RegisterOutcome(st, email, newId, now) == Outcome(st, ServerError)
  {
  }

  /** Registration keeps ids and e-mails unique and never touches `messages`. */
  lemma RegisterKeepsWellFormed(st: Store, email: JsValue, newId: string, now: Timestamp)
    requires WellFormed(st)
    ensures var o := RegisterOutcome(st, email, newId, now);
      WellFormed(o.store) && o.store.messages == st.messages
      && o.store.nextMessageId == st.nextMessageId
  {
  }

  /** The id the register answer carries, when it carries one. */
  function AnsweredId(r: Response): Option<string>
  {
    match r.body
    case RowBody(u) => Some(u.id)
    case CreatedBody(id, _) => Some(id)
    case _ => None
  }

  /**
   * Registration is idempotent per normalised address: once one succeeded, a
   * second with any spelling that normalises the same inserts nothing and
   * answers the same id, whatever uuid it would have drawn.
   */
  lemma RegisterIdempotent(st: Store, e1: JsValue, e2: JsValue, id1: string, id2: string,
                                              t1: Timestamp, t2: Timestamp)
    requires WellFormed(st)
    requires RegisterOutcome(st, e1, id1, t1).response.code == 200
    requires EmailOf(e2) == EmailOf(e1)
    ensures var o1 := RegisterOutcome(st, e1, id1, t1);
      var o2 := RegisterOutcome(o1.store, e2, id2, t2);
      && o2.store == o1.store
      && o2.response.code == 200
      && AnsweredId(o2.response) == AnsweredId(o1.response) != None
  {
  }

  /**
   * Registration ignores ASCII case and surrounding white space: once an
   * address registered, the same address in other capitals and with other
   * surrounding white space reaches the same account and inserts nothing.
   */
  lemma RegisterIgnoresCaseAndSpace(st: Store, p1: string, a: string, q1: string,
                                    p2: string, b: string, q2: string,
                                    id1: string, id2: string, t1: Timestamp, t2: Timestamp)
    requires WellFormed(st)
    requires AllSpace(p1) && AllSpace(q1) && AllSpace(p2) && AllSpace(q2)
    requires a == [] || (!IsJsSpace(a[0]) && !IsJsSpace(a[|a| - 1]))
    requires SameUpToCase(a, b)
    ensures var o1 := RegisterOutcome(st, Str(p1 + a + q1), id1, t1);
      var o2 := RegisterOutcome(o1.store, Str(p2 + b + q2), id2, t2);
      o1.response.code == 200 ==>
        o2.store == o1.store && AnsweredId(o2.response) == AnsweredId(o1.response) != None
  {
    NormalizeIgnoresCaseAndSpace(p1, a, q1, p2, b, q2);
    if RegisterOutcome(st, Str(p1 + a + q1), id1, t1).response.code == 200 {
      RegisterIdempotent(st, Str(p1 + a + q1), Str(p2 + b + q2), id1, id2, t1, t2);
    }
  }

  // ---------------------------------------------------------------- get user

  /** GET answers 200 with the row whose id matches, or 404 exactly when there is none. */
  lemma GetUserFinds(st: Store, id: string)
    requires WellFormed(st)
    ensures GetUserResponse(st, id).code == 404 <==> forall u :: u in st.users ==> u.id != id
    ensures forall u :: u in st.users && u.id == id ==> GetUserResponse(st, id) == Response(200, RowBody(u))
  {
  }

  // ---------------------------------------------------------------- chat

  /** `user_id` is checked first, `message` second; a failed check answers 400 and writes nothing. */
  lemma ChatValidation(st: Store, req: ChatRequest, drawn: string, upstream: Upstream,
                       sentAt: Timestamp, repliedAt: Timestamp)
    ensures var o := ChatOutcome(st, req, drawn, upstream, sentAt, repliedAt);
      && (!Truthy(req.userId) ==> o == Outcome(st, Response(400, ErrorBody("user_id required"))))
      && (Truthy(req.userId) && !Truthy(req.message) ==>
            o == Outcome(st, Response(400, ErrorBody("message required"))))
      && (o.response.code == 400 <==> !Truthy(req.userId) || !Truthy(req.message))
  {
  }

  /**
   * A chat turn succeeds exactly when both fields are non-empty strings, the
   * session id bound is a string, the upstream answer parses to a JSON value
   * other than `null` and its reply is not `true` (a falsy reply falls back to
   * the placeholder); it then appends exactly two rows:
   * the user's row with the message and then the assistant's row with the
   * reply, under the next two ids, one user and one session id, and answers
   * that reply and that session id.
   */
  lemma ChatSuccess(st: Store, req: ChatRequest, drawn: string, upstream: Upstream,
                    sentAt: Timestamp, repliedAt: Timestamp)
    ensures var o := ChatOutcome(st, req, drawn, upstream, sentAt, repliedAt);
      var session := ChooseSession(req.sessionId, drawn);
      (o.response.code == 200 <==>
         && Truthy(req.userId) && Truthy(req.message)
         && req.userId.Str? && req.message.Str? && session.Str?
         && upstream.Json? && AssistantReply(upstream.reply).Str?)
      && (o.response.code == 200 ==>
         && o.store.users == st.users
         && o.store.nextMessageId == st.nextMessageId + 2
         && |o.store.messages| == |st.messages| + 2
         && o.store.messages[..|st.messages|] == st.messages
         && o.store.messages[|st.messages|] ==
              Message(st.nextMessageId, req.userId.s, session.s, "user", req.message.s, sentAt)
         && o.store.messages[|st.messages| + 1] ==
              Message(st.nextMessageId + 1, req.userId.s, session.s, "assistant",
                      AssistantReply(upstream.reply).s, repliedAt)
         && o.response.body == ReplyBody(AssistantReply(upstream.reply), session))
  {
  }

  /** A truthy client session id is kept verbatim; otherwise the drawn uuid is used. */
  lemma ChatSession(st: Store, req: ChatRequest, drawn: string, upstream: Upstream,
                    sentAt: Timestamp, repliedAt: Timestamp)
    requires ChatOutcome(st, req, drawn, upstream, sentAt, repliedAt).response.code == 200
    ensures var o := ChatOutcome(st, req, drawn, upstream, sentAt, repliedAt);
      var n := |st.messages|;
      && (Truthy(req.sessionId) ==> o.response.body.sessionId == req.sessionId)
      && (!Truthy(req.sessionId) ==> o.response.body.sessionId == Str(drawn))
      && o.store.messages[n].sessionId == o.store.messages[n + 1].sessionId
      && Str(o.store.messages[n].sessionId) == o.response.body.sessionId
  {
  }

  /**
   * When the client sent no session and the drawn uuid is not yet a session
   * id, the new session holds exactly the turn's two rows.
   */
  lemma ChatFreshSession(st: Store, req: ChatRequest, drawn: string, upstream: Upstream,
                                            sentAt: Timestamp, repliedAt: Timestamp)
    requires !Truthy(req.sessionId)
    requires forall m :: m in st.messages ==> m.sessionId != drawn
    requires ChatOutcome(st, req, drawn, upstream, sentAt, repliedAt).response.code == 200
    ensures var o := ChatOutcome(st, req, drawn, upstream, sentAt, repliedAt);
      forall m :: m in o.store.messages && m.sessionId == drawn <==> m in o.store.messages[|st.messages|..]
  {
  }

  /**
   * Every failure after validation leaves the tables either untouched or with
   * only the user's row appended: never an assistant row.
   */
  lemma ChatFailureWritesNoReply(st: Store, req: ChatRequest, drawn: string, upstream: Upstream,
                                 sentAt: Timestamp, repliedAt: Timestamp)
    requires ChatOutcome(st, req, drawn, upstream, sentAt, repliedAt).response.code != 200
    ensures var o := ChatOutcome(st, req, drawn, upstream, sentAt, repliedAt);
      var session := ChooseSession(req.sessionId, drawn);
      || o.store == st
      || (&& req.userId.Str? && req.message.Str? && session.Str?
          && o.store == InsertMessage(st, req.userId.s, session.s, "user", req.message.s, sentAt))
  {
  }

  /**
   * An upstream answer that is not JSON gives 500 with the raw text attached,
   * after the user's row was written; no assistant row is added.
   */
  lemma ChatNonJson(st: Store, req: ChatRequest, drawn: string, raw: string,
                    sentAt: Timestamp, repliedAt: Timestamp)
    requires req.userId.Str? && req.userId.s != "" && req.message.Str? && req.message.s != ""
    requires ChooseSession(req.sessionId, drawn).Str?
    ensures var o := ChatOutcome(st, req, drawn, NonJson(raw), sentAt, repliedAt);
      && o.response == Response(500, NonJsonBody("Flask returned non-JSON response", raw))
      && o.store.messages == st.messages +
           [NewMessage(st, req.userId.s, ChooseSession(req.sessionId, drawn).s, "user", req.message.s, sentAt)]
  {
  }

  /** A chat request keeps the tables well formed and never touches `users`. */
  lemma ChatKeepsWellFormed(st: Store, req: ChatRequest, drawn: string, upstream: Upstream,
                            sentAt: Timestamp, repliedAt: Timestamp)
    requires WellFormed(st)
    ensures var o := ChatOutcome(st, req, drawn, upstream, sentAt, repliedAt);
      WellFormed(o.store) && o.store.users == st.users
  {
  }

  // ---------------------------------------------------------------- clear

  /** Clear without a truthy `user_id` answers 400 and deletes nothing. */
  lemma ClearMissingUser(st: Store, userId: JsValue)
    requires !Truthy(userId)
    ensures ClearOutcome(st, userId) == Outcome(st, Response(400, ErrorBody("user_id required")))
  {
  }

  /**
   * Clear for a user removes every message of that user, leaves every other
   * user's history as it was, keeps the id counter (ids are not reused) and
   * `users`, and answers {status: "cleared"}.
   */
  lemma ClearRemovesOnlyThatUser(st: Store, u: string)
    requires u != ""
    ensures var o := ClearOutcome(st, Str(u));
      && o.response == Response(200, StatusBody("cleared"))
      && MessagesOf(o.store.messages, u) == []
      && (forall v :: v != u ==> MessagesOf(o.store.messages, v) == MessagesOf(st.messages, v))
      && o.store.users == st.users && o.store.nextMessageId == st.nextMessageId
  {
    DeleteRemovesAll(st.messages, u);
    forall v | v != u
      ensures MessagesOf(DeleteByUser(st.messages, u), v) == MessagesOf(st.messages, v)
    {
      DeleteKeepsOthers(st.messages, u, v);
    }
  }

  /** Clearing a user who has no messages changes nothing. */
  lemma ClearAbsentIsNoOp(st: Store, u: string)
    requires u != "" && MessagesOf(st.messages, u) == []
    ensures ClearOutcome(st, Str(u)).store == st
  {
    DeleteAbsentIsNoOp(st.messages, u);
  }

  /** Clear keeps the tables well formed. */
  lemma ClearKeepsWellFormed(st: Store, userId: JsValue)
    requires WellFormed(st)
    ensures WellFormed(ClearOutcome(st, userId).store)
  {
    if Truthy(userId) && userId.Str? {
      DeleteKeepsIdsIncreasing(st.messages, userId.s);
    }
  }
}
