/**
 * The two SQLite tables as values (server.js:25-42) and the statements the
 * repository helpers run against them (server.js:45-60, 132).
 */
module Tables {
  import opened Wrappers
  import opened JsValues

  /** `created_at`, filled in by the engine with CURRENT_TIMESTAMP; kept abstract. */
  type Timestamp = string

  /** A row of `users`: `id TEXT PRIMARY KEY`, `email TEXT UNIQUE`, `created_at`. */
  datatype User = User(id: string, email: string, createdAt: Timestamp)

  /** A row of `messages`: `id INTEGER PRIMARY KEY AUTOINCREMENT` and four TEXT columns. */
  datatype Message = Message(id: nat, userId: string, sessionId: string, role: string,
                             content: string, createdAt: Timestamp)

  /**
   * Both tables, each in rowid order, and the AUTOINCREMENT counter: the id
   * the next inserted message receives (one more than the largest id ever
   * used, so ids of deleted messages are never handed out again).
   */
  datatype Store = Store(users: seq<User>, messages: seq<Message>, nextMessageId: nat)

  /** The database right after both CREATE TABLE statements ran on a new file. */
  const Empty: Store := Store([], [], 1)

  /** The PRIMARY KEY and UNIQUE constraints of `users`. */
  ghost predicate UsersUnique(users: seq<User>)
  {
    forall i, j :: 0 <= i < j < |users| ==> users[i].id != users[j].id && users[i].email != users[j].email
  }

  /** Message ids grow along the table and all lie below the counter. */
  ghost predicate IdsIncreasing(ms: seq<Message>)
  {
    forall i, j :: 0 <= i < j < |ms| ==> ms[i].id < ms[j].id
  }

  ghost predicate IdsBelow(ms: seq<Message>, next: nat)
  {
    forall i :: 0 <= i < |ms| ==> 0 < ms[i].id < next
  }

  ghost predicate WellFormed(st: Store)
  {
    && UsersUnique(st.users)
    && IdsIncreasing(st.messages)
    && 0 < st.nextMessageId
    && IdsBelow(st.messages, st.nextMessageId)
  }

  lemma EmptyWellFormed()
    ensures WellFormed(Empty)
  {
  }

  /** `SELECT * FROM users WHERE email = ?`. */
  function UserWithEmail(users: seq<User>, email: string): (r: Option<User>)
    ensures r.Some? ==> r.value in users && r.value.email == email
    ensures r.None? <==> forall u :: u in users ==> u.email != email
  {
    if users == [] then None
    else if users[0].email == email then Some(users[0])
    else UserWithEmail(users[1..], email)
  }

  /** `SELECT * FROM users WHERE id = ?`. */
  function UserWithId(users: seq<User>, id: string): (r: Option<User>)
    ensures r.Some? ==> r.value in users && r.value.id == id
    ensures r.None? <==> forall u :: u in users ==> u.id != id
  {
    if users == [] then None
    else if users[0].id == id then Some(users[0])
    else UserWithId(users[1..], id)
  }

  /** Under the constraints, the row found by e-mail is THE row with that e-mail. */
  lemma UserWithEmailIsThatRow(users: seq<User>, u: User)
    requires UsersUnique(users) && u in users
    ensures UserWithEmail(users, u.email) == Some(u)
  {
  }

  /** Under the constraints, the row found by id is THE row with that id. */
  lemma UserWithIdIsThatRow(users: seq<User>, u: User)
    requires UsersUnique(users) && u in users
    ensures UserWithId(users, u.id) == Some(u)
  {
  }

  /**
   * `INSERT INTO users (id, email) VALUES (?, ?)`: refused (the statement
   * throws) when the id or the e-mail is already in the table, otherwise the
   * row is appended.
   */
  function InsertUser(st: Store, u: User): (r: Option<Store>)
    ensures r.None? <==> exists v :: v in st.users && (v.id == u.id || v.email == u.email)
    ensures r.Some? ==> r.value.users == st.users + [u]
    ensures r.Some? ==> r.value.messages == st.messages && r.value.nextMessageId == st.nextMessageId
    ensures r.Some? && WellFormed(st) ==> WellFormed(r.value)
  {
    if UserWithId(st.users, u.id).Some? || UserWithEmail(st.users, u.email).Some? then None
    else Some(st.(users := st.users + [u]))
  }

  /** The row an insert into `messages` creates: it takes the counter's id. */
  function NewMessage(st: Store, userId: string, sessionId: string, role: string,
                      content: string, at: Timestamp): Message
  {
    Message(st.nextMessageId, userId, sessionId, role, content, at)
  }

  /** `INSERT INTO messages (user_id, session_id, role, content) VALUES (?, ?, ?, ?)`. */
  function InsertMessage(st: Store, userId: string, sessionId: string, role: string,
                         content: string, at: Timestamp): (r: Store)
    ensures r.users == st.users
    ensures r.messages == st.messages + [NewMessage(st, userId, sessionId, role, content, at)]
    ensures r.nextMessageId == st.nextMessageId + 1
    ensures WellFormed(st) ==> WellFormed(r)
  {
    Store(st.users, st.messages + [NewMessage(st, userId, sessionId, role, content, at)],
          st.nextMessageId + 1)
  }

  /**
   * `saveMessage` (server.js:56-60): binds the three request values and
   * inserts; a value that cannot be bound makes the statement throw before
   * anything is written.
   */
  function SaveMessage(st: Store, userId: JsValue, sessionId: JsValue, role: string,
                       content: JsValue, at: Timestamp): (r: Option<Store>)
    requires !userId.Undefined? && !userId.Null?
    requires !sessionId.Undefined? && !sessionId.Null?
    requires !content.Undefined? && !content.Null?
    ensures r.Some? <==> userId.Str? && sessionId.Str? && content.Str?
    ensures r.Some? ==> r.value == InsertMessage(st, userId.s, sessionId.s, role, content.s, at)
  {
    match (BindText(userId), BindText(sessionId), BindText(content))
    case (Some(u), Some(s), Some(c)) => Some(InsertMessage(st, u, s, role, c, at))
    case _ => None
  }

  /** The messages of one user, in table order. */
  function MessagesOf(ms: seq<Message>, userId: string): (r: seq<Message>)
    ensures forall m :: m in r <==> m in ms && m.userId == userId
  {
    if ms == [] then []
    else if ms[0].userId == userId then [ms[0]] + MessagesOf(ms[1..], userId)
    else MessagesOf(ms[1..], userId)
  }

  /** `DELETE FROM messages WHERE user_id = ?` (server.js:132): the other users' rows, in table order. */
  function DeleteByUser(ms: seq<Message>, userId: string): (r: seq<Message>)
    ensures forall m :: m in r <==> m in ms && m.userId != userId
    ensures |r| <= |ms|
  {
    if ms == [] then []
    else if ms[0].userId == userId then DeleteByUser(ms[1..], userId)
    else [ms[0]] + DeleteByUser(ms[1..], userId)
  }

  /** Deleting keeps the surviving rows in increasing id order. */
  lemma {:induction false} DeleteKeepsIdsIncreasing(ms: seq<Message>, userId: string)
    requires IdsIncreasing(ms)
    ensures IdsIncreasing(DeleteByUser(ms, userId))
  {
    if ms != [] {
      var tail := ms[1..];
      assert IdsIncreasing(tail);
      DeleteKeepsIdsIncreasing(tail, userId);
      var rest := DeleteByUser(tail, userId);
      assert forall m :: m in rest ==> ms[0].id < m.id by {
        HeadIdBelowTail(ms);
      }
      if ms[0].userId != userId {
        ConsIdsIncreasing(ms[0], rest);
      }
    }
  }

  lemma HeadIdBelowTail(ms: seq<Message>)
    requires IdsIncreasing(ms) && ms != []
    ensures forall m :: m in ms[1..] ==> ms[0].id < m.id
  {
  }

  lemma ConsIdsIncreasing(m: Message, rest: seq<Message>)
    requires IdsIncreasing(rest)
    requires forall n :: n in rest ==> m.id < n.id
    ensures IdsIncreasing([m] + rest)
  {
  }

  /** Deleting a user's messages leaves none of them. */
  lemma {:induction false} DeleteRemovesAll(ms: seq<Message>, userId: string)
    ensures MessagesOf(DeleteByUser(ms, userId), userId) == []
  {
    if ms != [] {
      DeleteRemovesAll(ms[1..], userId);
    }
  }

  /** Deleting a user's messages leaves every other user's history exactly as it was, order included. */
  lemma {:induction false} DeleteKeepsOthers(ms: seq<Message>, userId: string, other: string)
    requires other != userId
    ensures MessagesOf(DeleteByUser(ms, userId), other) == MessagesOf(ms, other)
  {
    if ms != [] {
      DeleteKeepsOthers(ms[1..], userId, other);
      if ms[0].userId != userId {
        assert ([ms[0]] + DeleteByUser(ms[1..], userId))[1..] == DeleteByUser(ms[1..], userId);
      }
    }
  }

  /** Deleting for a user who has no messages changes nothing. */
  lemma {:induction false} DeleteAbsentIsNoOp(ms: seq<Message>, userId: string)
    requires MessagesOf(ms, userId) == []
    ensures DeleteByUser(ms, userId) == ms
  {
    if ms != [] {
      assert ms[0] !in MessagesOf(ms, userId);
      DeleteAbsentIsNoOp(ms[1..], userId);
      assert [ms[0]] + ms[1..] == ms;
    }
  }
}
