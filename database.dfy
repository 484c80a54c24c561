/**
 * The SQLite database handle of server.js as an object whose two tables the
 * helper functions change in place (server.js:22-60, 132).
 */
module Database {
  import opened Wrappers
  import opened JsValues
  import opened Tables

  class Db {
    var users: seq<User>
    var messages: seq<Message>
    var nextMessageId: nat

    /** Both tables as one value. */
    function State(): Store
      reads this
    {
      Store(users, messages, nextMessageId)
    }

    ghost predicate Valid()
      reads this
    {
      WellFormed(State())
    }

    /** Opening a new database file and running both CREATE TABLE IF NOT EXISTS statements (server.js:22-42). */
    constructor ()
      ensures Valid() && State() == Empty
    {
      users := [];
      messages := [];
      nextMessageId := 1;
    }

    /** `getUserByEmail` (server.js:50-52). */
    method GetUserByEmail(email: string) returns (r: Option<User>)
      requires Valid()
      ensures r == UserWithEmail(users, email)
      ensures r.Some? ==> r.value in users && r.value.email == email
      ensures r.None? <==> forall u :: u in users ==> u.email != email
    {
      r := UserWithEmail(users, email);
    }

    /** `getUserById` (server.js:53-55). */
    method GetUserById(id: string) returns (r: Option<User>)
      requires Valid()
      ensures r == UserWithId(users, id)
      ensures r.Some? ==> r.value in users && r.value.id == id
      ensures r.None? <==> forall u :: u in users ==> u.id != id
    {
      r := UserWithId(users, id);
    }

    /**
     * `createUser` (server.js:45-49) with `id` the uuid it draws: the insert
     * either appends the row or, on a key or e-mail already present, throws
     * and writes nothing.
     */
    method CreateUser(id: string, email: string, now: Timestamp) returns (created: bool)
      requires Valid()
      modifies this
      ensures Valid()
      ensures created <==> forall v :: v in old(users) ==> v.id != id && v.email != email
      ensures created ==> State() == InsertUser(old(State()), User(id, email, now)).value
      ensures !created ==> State() == old(State())
    {
      var byId := UserWithId(users, id);
      var byEmail := UserWithEmail(users, email);
      if byId.Some? || byEmail.Some? {
        return false;
      }
      users := users + [User(id, email, now)];
      created := true;
    }

    /**
     * `saveMessage` (server.js:56-60): a row under the next AUTOINCREMENT id,
     * or nothing when a value cannot be bound.
     */
    method SaveMessage(userId: JsValue, sessionId: JsValue, role: string, content: JsValue, at: Timestamp)
      returns (saved: bool)
      requires Valid()
      requires !userId.Undefined? && !userId.Null?
      requires !sessionId.Undefined? && !sessionId.Null?
      requires !content.Undefined? && !content.Null?
      modifies this
      ensures Valid()
      ensures saved <==> userId.Str? && sessionId.Str? && content.Str?
      ensures saved ==> State() == Tables.SaveMessage(old(State()), userId, sessionId, role, content, at).value
      ensures !saved ==> State() == old(State())
    {
      var u := BindText(userId);
      var s := BindText(sessionId);
      var c := BindText(content);
      if u.None? || s.None? || c.None? {
        return false;
      }
      messages := messages + [Message(nextMessageId, u.value, s.value, role, c.value, at)];
      nextMessageId := nextMessageId + 1;
      saved := true;
    }

    /** `DELETE FROM messages WHERE user_id = ?` (server.js:132). */
    method DeleteMessagesOf(userId: string)
      requires Valid()
      modifies this
      ensures Valid()
      ensures messages == DeleteByUser(old(messages), userId)
      ensures users == old(users) && nextMessageId == old(nextMessageId)
    {
      DeleteKeepsIdsIncreasing(messages, userId);
      messages := DeleteByUser(messages, userId);
    }
  }
}
