/**
 * The four route handlers of server.js (server.js:63-134), run against one
 * database handle. Each is proved to have exactly the effect and the answer
 * the matching function of module Handlers describes.
 */
module Server {
  import opened Wrappers
  import opened JsValues
  import opened Tables
  import opened Handlers
  import opened Database

  /** POST /api/register (server.js:63-77); `newId` is the uuid createUser draws. */
  method Register(db: Db, email: JsValue, newId: string, now: Timestamp) returns (resp: Response)
    requires db.Valid()
    modifies db
    ensures db.Valid()
    ensures Outcome(db.State(), resp) == RegisterOutcome(old(db.State()), email, newId, now)
  {
    ghost var st := db.State();
    var e := EmailOf(email);
    if e == "" {
      return Response(400, ErrorBody("email required"));
    }
    var existing := db.GetUserByEmail(e);
    if existing.Some? {
      return Response(200, RowBody(existing.value));
    }
    var created := db.CreateUser(newId, e, now);
    assert UserWithEmail(st.users, e).None?;
    if !created {
      assert InsertUser(st, User(newId, e, now)).None?;
      return ServerError;
    }
    resp := Response(200, CreatedBody(newId, e));
  }

  /** GET /api/user/:id (server.js:80-84). */
  method GetUser(db: Db, id: string) returns (resp: Response)
    requires db.Valid()
    ensures resp == GetUserResponse(db.State(), id)
    ensures resp.code == 404 <==> forall u :: u in db.users ==> u.id != id
    ensures forall u :: u in db.users && u.id == id ==> resp == Response(200, RowBody(u))
  {
    var user := db.GetUserById(id);
    if user.None? {
      return Response(404, ErrorBody("not found"));
    }
    resp := Response(200, RowBody(user.value));
    GetUserFinds(db.State(), id);
  }

  /**
   * POST /api/chat (server.js:87-126). `drawn` is the uuid taken when the
   * client sent no session, `upstream` what the call to the chat service
   * yields, `sentAt` and `repliedAt` the timestamps of the two inserts.
   */
  method Chat(db: Db, req: ChatRequest, drawn: string, upstream: Upstream,
              sentAt: Timestamp, repliedAt: Timestamp) returns (resp: Response)
    requires db.Valid()
    modifies db
    ensures db.Valid()
    ensures Outcome(db.State(), resp) == ChatOutcome(old(db.State()), req, drawn, upstream, sentAt, repliedAt)
  {
    if !Truthy(req.userId) {
      return Response(400, ErrorBody("user_id required"));
    }
    if !Truthy(req.message) {
      return Response(400, ErrorBody("message required"));
    }
    var session := ChooseSession(req.sessionId, drawn);
    var saved := db.SaveMessage(req.userId, session, "user", req.message, sentAt);
    if !saved {
      return ServerError;
    }
    match upstream {
      case NetworkError =>
        return ServerError;
      case JsonNull =>
        return ServerError;
      case NonJson(raw) =>
        return Response(500, NonJsonBody("Flask returned non-JSON response", raw));
      case Json(reply) =>
        var assistantReply := AssistantReply(reply);
        saved := db.SaveMessage(req.userId, session, "assistant", assistantReply, repliedAt);
        if !saved {
          return ServerError;
        }
        return Response(200, ReplyBody(assistantReply, session));
    }
  }

  /** POST /api/clear (server.js:129-134). */
  method Clear(db: Db, userId: JsValue) returns (resp: Response)
    requires db.Valid()
    modifies db
    ensures db.Valid()
    ensures Outcome(db.State(), resp) == ClearOutcome(old(db.State()), userId)
  {
    if !Truthy(userId) {
      return Response(400, ErrorBody("user_id required"));
    }
    var bound := BindText(userId);
    if bound.None? {
      return Response(500, DefaultErrorPage);
    }
    db.DeleteMessagesOf(bound.value);
    resp := Response(200, StatusBody("cleared"));
  }
}
