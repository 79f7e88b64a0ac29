/** The live chat channel (socket.js): a process-wide user cache with a five
    minute lifetime, the handshake that authenticates a connection, the rooms a
    connection joins, and the events `send_message`, `typing`, `stop_typing`,
    `mark_read`, `get_contacts` and `disconnect`. What the server emits is
    recorded in a log of (target, event) pairs instead of being delivered. */
module Socket {
  import opened Common
  import opened School
  import opened Messages
  import opened Text
  import opened JsArray
  import Chat

  /** `CACHE_TTL = 5 * 60 * 1000` milliseconds. */
  const CacheTtl: int := 300000

  type ConnId = nat

  datatype CacheEntry = CacheEntry(data: User, timestamp: int)

  /** `user_<id>`, `class_<id>` and `grade_<n>` rooms. */
  datatype Room = UserRoom(userId: Id) | ClassRoom(classId: Id) | GradeLevelRoom(grade: int)

  datatype Event =
    | NewMessage(message: Message, from: User)
    | UserTyping(typist: Id)
    | UserStopTyping(typist: Id)
    | UserOnline(onlineId: Id)
    | UserOffline(offlineId: Id)

  /** `io.to(room)` reaches the whole room, `socket.to(room)` the room without the
      emitting connection, `socket.broadcast` every connection but the emitter. */
  datatype Target = ToRoom(room: Room) | ToRoomExcept(exceptRoom: Room, except: ConnId) | BroadcastExcept(sender: ConnId)

  datatype Emission = Emission(target: Target, event: Event)

  datatype AckError = MissingFields | NotAllowed | SendFailed

  /** The acknowledgement `send_message` passes to its callback. */
  datatype Ack = Sent(message: Message) | Failed(error: AckError)

  /** An authenticated connection: the user attached at the handshake and the
      rooms joined. */
  datatype Session = Session(user: User, rooms: set<Room>)

  /** The cache entry is present and younger than the lifetime. */
  predicate Fresh(cache: map<Id, CacheEntry>, id: Id, now: int) {
    id in cache && now - cache[id].timestamp < CacheTtl
  }

  /** `getCachedUser(id)` at time `now`: the answer and the cache afterwards. */
  function CachedLookup(cache: map<Id, CacheEntry>, users: seq<User>, id: Id, now: int): (r: (Option<User>, map<Id, CacheEntry>))
    ensures Fresh(cache, id, now) ==> r == (Some(cache[id].data), cache)
    ensures !Fresh(cache, id, now) ==> r.0 == FindUser(users, id)
    ensures !Fresh(cache, id, now) && r.0.Some? ==> r.1 == cache[id := CacheEntry(r.0.value, now)]
    ensures !Fresh(cache, id, now) && r.0.None? ==> r.1 == cache
  {
    if Fresh(cache, id, now) then (Some(cache[id].data), cache)
    else
      var u := FindUser(users, id);
      if u.Some? then (u, cache[id := CacheEntry(u.value, now)]) else (u, cache)
  }

  /** After a miss that found the user, lookups within the lifetime answer from
      the cache whatever the directory then holds. */
  lemma CacheServesWithinTtl(cache: map<Id, CacheEntry>, users: seq<User>, later: seq<User>, id: Id, now: int, now2: int)
    requires !Fresh(cache, id, now) && CachedLookup(cache, users, id, now).0.Some?
    requires now <= now2 < now + CacheTtl
    ensures var (u, c) := CachedLookup(cache, users, id, now);
      CachedLookup(c, later, id, now2) == (u, c)
  {
  }

  /** A fresh entry is answered even when the directory no longer has the user. */
  lemma StaleUserServed()
    ensures var cache := map[7 := CacheEntry(User(7, Admin, true), 0)];
      CachedLookup(cache, [], 7, 1000).0 == Some(User(7, Admin, true)) && FindUser([], 7).None?
  {
  }

  /** The handshake's token: `auth.token` when truthy, else the second word of the
      authorization header. */
  function HandshakeToken(authToken: string, header: Option<string>): (r: Option<string>)
    ensures authToken != [] ==> r == Some(authToken)
    ensures authToken == [] && header.None? ==> r.None?
    ensures authToken == [] && header.Some? ==> r == SecondWord(header.value)
  {
    if authToken != [] then Some(authToken)
    else if header.Some? then SecondWord(header.value)
    else None
  }

  /** The rooms a connection joins: its own user room; a student's class room; a
      teacher's room for every class a ClassSubject lists them in. The Student
      schema has no `grade`, so no grade room is ever joined. */
  function RoomsFor(dir: Directory, user: User): (r: set<Room>)
    ensures UserRoom(user.id) in r
    ensures forall g :: GradeLevelRoom(g) !in r
    ensures forall c: Id :: ClassRoom(c) in r <==>
      (user.role == Student && StudentOfUser(dir.students, user.id).Some?
        && StudentOfUser(dir.students, user.id).value.classId == Some(c))
      || (user.role == Teacher && TeacherOfUser(dir.teachers, user.id).Some?
        && TeachesClass(dir.classSubjects, TeacherOfUser(dir.teachers, user.id).value.id, c))
    ensures forall x :: x in r && x != UserRoom(user.id) ==> x.ClassRoom?
  {
    var own := {UserRoom(user.id)};
    if user.role == Student then
      var sp := StudentOfUser(dir.students, user.id);
      if sp.Some? && sp.value.classId.Some? then own + {ClassRoom(sp.value.classId.value)} else own
    else if user.role == Teacher then
      var tp := TeacherOfUser(dir.teachers, user.id);
      if tp.Some? then
        own + set cs | cs in dir.classSubjects && Teaches(cs, tp.value.id) :: ClassRoom(cs.classId)
      else own
    else own
  }

  /** `read = true` on the message with that id, and on nothing else. */
  function MarkOne(ms: seq<Message>, id: Id): (r: seq<Message>)
    ensures |r| == |ms|
    ensures forall i :: 0 <= i < |ms| ==> r[i] == if ms[i].id == id then ms[i].(read := true) else ms[i]
  {
    seq(|ms|, i requires 0 <= i < |ms| => if ms[i].id == id then ms[i].(read := true) else ms[i])
  }

  predicate UnreadFromTo(m: Message, sender: Id, me: Id) {
    m.sender == sender && m.recipient == me && !m.read
  }

  /** `updateMany({ sender, recipient: me, read: false }, { read: true })`. */
  function MarkAllFrom(ms: seq<Message>, sender: Id, me: Id): (r: seq<Message>)
    ensures |r| == |ms|
    ensures forall i :: 0 <= i < |ms| ==> r[i] == if UnreadFromTo(ms[i], sender, me) then ms[i].(read := true) else ms[i]
  {
    seq(|ms|, i requires 0 <= i < |ms| => if UnreadFromTo(ms[i], sender, me) then ms[i].(read := true) else ms[i])
  }

  /** Marking is idempotent, touches only the `read` flag, and leaves no unread
      message from that sender to the caller, so that contact's unread count
      becomes 0. */
  lemma MarkAllFromProperties(ms: seq<Message>, sender: Id, me: Id)
    ensures MarkAllFrom(MarkAllFrom(ms, sender, me), sender, me) == MarkAllFrom(ms, sender, me)
    ensures forall i :: 0 <= i < |ms| ==> MarkAllFrom(ms, sender, me)[i].(read := ms[i].read) == ms[i]
    ensures forall m :: m in MarkAllFrom(ms, sender, me) ==> !UnreadFromTo(m, sender, me)
    ensures Filter(MarkAllFrom(ms, sender, me), Chat.UnreadFrom(sender, me)) == []
  {
    var r := MarkAllFrom(ms, sender, me);
    var f := Filter(r, Chat.UnreadFrom(sender, me));
    if f != [] {
      assert f[0] in r;
    }
  }

  lemma MarkOneProperties(ms: seq<Message>, id: Id)
    ensures MarkOne(MarkOne(ms, id), id) == MarkOne(ms, id)
    ensures forall i :: 0 <= i < |ms| ==> MarkOne(ms, id)[i].(read := ms[i].read) == ms[i]
    ensures forall m :: m in MarkOne(ms, id) && m.id == id ==> m.read
  {
  }

  /** Every stored message passes the schema and has an id below `next`. */
  ghost predicate StoreValid(ms: seq<Message>, next: Id) {
    forall i :: 0 <= i < |ms| ==> ValidMessage(ms[i]) && ms[i].id < next
  }

  /** Storing a message that passed the schema under the next id keeps the store
      valid. */
  lemma StoreAppend(ms: seq<Message>, next: Id, m: Message)
    requires StoreValid(ms, next) && ValidMessage(m) && m.id == next
    ensures StoreValid(ms + [m], next + 1)
  {
  }

  /** Marking messages read keeps the store valid. */
  lemma StoreMark(ms: seq<Message>, next: Id, sender: Id, me: Id, id: Id)
    requires StoreValid(ms, next)
    ensures StoreValid(MarkAllFrom(ms, sender, me), next)
    ensures StoreValid(MarkOne(ms, id), next)
  {
    forall i | 0 <= i < |ms| ensures ValidMessage(MarkAllFrom(ms, sender, me)[i]) && ValidMessage(MarkOne(ms, id)[i]) {
      assert ValidMessage(ms[i]);
    }
  }

  /** `attachments || []`. */
  function Attachments(a: Option<seq<Attachment>>): (r: seq<Attachment>)
    ensures a.Some? ==> r == a.value
    ensures a.None? ==> r == []
  {
    if a.Some? then a.value else []
  }

  datatype SendOutcome = SendOutcome(ack: Ack, stored: seq<Message>, emitted: seq<Emission>)

  /** `send_message` by `me` on connection `conn`, the new message taking the id
      `id`: a missing recipient, or no content and no attachments, fails before
      anything else; a refused permission fails; a message the schema rejects
      (blank content) fails as an error; otherwise the message is stored and
      `new_message` goes to the recipient's room and to the sender's other
      connections. Nothing is stored or emitted on any failure. */
  function Send(dir: Directory, me: User, conn: ConnId, recipientId: Option<Id>, content: string, atts: seq<Attachment>, id: Id, now: int): (r: SendOutcome)
    ensures r.ack.Failed? <==> r.stored == [] && r.emitted == []
    ensures r.ack == Failed(MissingFields) <==> (recipientId.None? || (content == [] && atts == []))
    ensures r.ack.Sent? <==> (recipientId.Some? && Chat.CheckChatPermission(dir, me, recipientId.value)
      && (atts != [] || exists i :: 0 <= i < |content| && !IsSpace(content[i])))
    ensures r.ack == Failed(NotAllowed) <==> (recipientId.Some? && !(content == [] && atts == [])
      && !Chat.CheckChatPermission(dir, me, recipientId.value))
    ensures r.ack == Failed(SendFailed) <==> (recipientId.Some? && content != []
      && Chat.CheckChatPermission(dir, me, recipientId.value)
      && atts == [] && forall i :: 0 <= i < |content| ==> IsSpace(content[i]))
    ensures r.ack.Sent? ==> (recipientId.Some? && Chat.CheckChatPermission(dir, me, recipientId.value)
      && r.stored == [r.ack.message] && ValidMessage(r.ack.message) && !r.ack.message.read
      && r.ack.message == Message(id, me.id, recipientId.value, Trim(content), atts, false, now)
      && r.emitted == [Emission(ToRoom(UserRoom(recipientId.value)), NewMessage(r.ack.message, me)),
                       Emission(ToRoomExcept(UserRoom(me.id), conn), NewMessage(r.ack.message, me))])
  {
    if recipientId.None? || (content == [] && atts == []) then SendOutcome(Failed(MissingFields), [], [])
    else if !Chat.CheckChatPermission(dir, me, recipientId.value) then SendOutcome(Failed(NotAllowed), [], [])
    else match Create(id, me.id, recipientId.value, content, atts, now)
      case None => SendOutcome(Failed(SendFailed), [], [])
      case Some(m) =>
        SendOutcome(Sent(m), [m],
          [Emission(ToRoom(UserRoom(recipientId.value)), NewMessage(m, me)),
           Emission(ToRoomExcept(UserRoom(me.id), conn), NewMessage(m, me))])
  }

  class LiveServer {
    var dir: Directory
    var messages: seq<Message>
    var nextId: Id
    var cache: map<Id, CacheEntry>
    var sessions: map<ConnId, Session>
    var log: seq<Emission>

    /** Stored messages pass the schema, their ids are below the next one, and
        every connection is in its own user room. */
    ghost predicate Valid()
      reads this
    {
      StoreValid(messages, nextId)
      && (forall c :: c in sessions ==> UserRoom(sessions[c].user.id) in sessions[c].rooms)
    }

    constructor(d: Directory)
      ensures Valid()
      ensures dir == d && messages == [] && cache == map[] && sessions == map[] && log == []
    {
      dir := d;
      messages := [];
      nextId := 0;
      cache := map[];
      sessions := map[];
      log := [];
    }

    /** `getCachedUser(id)`. */
    method GetCachedUser(id: Id, now: int) returns (u: Option<User>)
      modifies this`cache
      ensures u == CachedLookup(old(cache), dir.users, id, now).0
      ensures cache == CachedLookup(old(cache), dir.users, id, now).1
    {
      if id in cache && now - cache[id].timestamp < CacheTtl {
        return Some(cache[id].data);
      }
      u := FindUser(dir.users, id);
      if u.Some? {
        cache := cache[id := CacheEntry(u.value, now)];
      }
    }

    /** The handshake middleware: the connection is accepted with the user the
        cache returns for the token's subject, or rejected (`None`) when there is
        no token, the token does not verify (`verify` has no entry for it), or no
        such user exists. `is_active` is not checked. */
    method Handshake(authToken: string, header: Option<string>, verify: map<string, Id>, now: int)
      returns (u: Option<User>)
      modifies this`cache
      ensures var token := HandshakeToken(authToken, header);
        if token.None? || token.value == [] || token.value !in verify then
          u.None? && cache == old(cache)
        else
          u == CachedLookup(old(cache), dir.users, verify[token.value], now).0
          && cache == CachedLookup(old(cache), dir.users, verify[token.value], now).1
    {
      var token := HandshakeToken(authToken, header);
      if token.None? || token.value == [] {
        return None;
      }
      if token.value !in verify {
        return None;
      }
      u := GetCachedUser(verify[token.value], now);
    }

    /** `io.on('connection')`: the connection joins its rooms and every other
        connection is told the user is online. */
    method Connect(conn: ConnId, user: User)
      requires Valid()
      modifies this`sessions, this`log
      ensures Valid()
      ensures sessions == old(sessions)[conn := Session(user, RoomsFor(dir, user))]
      ensures log == old(log) + [Emission(BroadcastExcept(conn), UserOnline(user.id))]
    {
      sessions := sessions[conn := Session(user, RoomsFor(dir, user))];
      log := log + [Emission(BroadcastExcept(conn), UserOnline(user.id))];
    }

    /** `send_message` on connection `conn`, as the pure `Send` describes it:
        the acknowledgement, at most one stored message under the next id, and the
        two emissions of a successful send. */
    method SendMessage(conn: ConnId, recipientId: Option<Id>, content: string, attachments: Option<seq<Attachment>>, now: int)
      returns (ack: Ack)
      requires Valid() && conn in sessions
      modifies this`messages, this`nextId, this`log
      ensures Valid()
      ensures var out := Send(dir, sessions[conn].user, conn, recipientId, content, Attachments(attachments), old(nextId), now);
        ack == out.ack && messages == old(messages) + out.stored
        && nextId == old(nextId) + |out.stored| && log == old(log) + out.emitted
    {
      var out := Send(dir, sessions[conn].user, conn, recipientId, content, Attachments(attachments), nextId, now);
      if out.stored != [] {
        StoreAppend(messages, nextId, out.stored[0]);
      }
      messages := messages + out.stored;
      nextId := nextId + |out.stored|;
      log := log + out.emitted;
      ack := out.ack;
    }

    /** `typing` and `stop_typing`: signalled to the recipient's room only when a
        recipient is given. */
    method Typing(conn: ConnId, recipientId: Option<Id>, stop: bool)
      requires conn in sessions
      modifies this`log
      ensures recipientId.None? ==> log == old(log)
      ensures recipientId.Some? ==>
        var who := sessions[conn].user.id;
        log == old(log) + [Emission(ToRoomExcept(UserRoom(recipientId.value), conn),
                                    if stop then UserStopTyping(who) else UserTyping(who))]
    {
      if recipientId.Some? {
        var who := sessions[conn].user.id;
        var ev := if stop then UserStopTyping(who) else UserTyping(who);
        log := log + [Emission(ToRoomExcept(UserRoom(recipientId.value), conn), ev)];
      }
    }

    /** `mark_read`: a message id marks that message whoever its recipient is;
        otherwise a sender id marks that sender's unread messages to the caller;
        with neither nothing changes. */
    method MarkRead(conn: ConnId, messageId: Option<Id>, senderId: Option<Id>)
      requires Valid() && conn in sessions
      modifies this`messages
      ensures Valid()
      ensures messageId.Some? ==> messages == MarkOne(old(messages), messageId.value)
      ensures messageId.None? && senderId.Some? ==>
        messages == MarkAllFrom(old(messages), senderId.value, sessions[conn].user.id)
      ensures messageId.None? && senderId.None? ==> messages == old(messages)
    {
      if messageId.Some? {
        StoreMark(messages, nextId, 0, 0, messageId.value);
        messages := MarkOne(messages, messageId.value);
      } else if senderId.Some? {
        StoreMark(messages, nextId, senderId.value, sessions[conn].user.id, 0);
        messages := MarkAllFrom(messages, senderId.value, sessions[conn].user.id);
      }
    }

    /** `get_contacts`: the caller's contact list over the current store. */
    method GetContacts(conn: ConnId) returns (r: seq<Chat.Contact>)
      requires conn in sessions
      ensures r == Chat.Contacts(dir, messages, sessions[conn].user)
    {
      r := Chat.GetContactsForUser(dir, messages, sessions[conn].user);
    }

    /** `disconnect`: the connection leaves its rooms and the others are told the
        user went offline. */
    method Disconnect(conn: ConnId)
      requires Valid() && conn in sessions
      modifies this`sessions, this`log
      ensures Valid()
      ensures sessions == old(sessions) - {conn}
      ensures log == old(log) + [Emission(BroadcastExcept(conn), UserOffline(old(sessions)[conn].user.id))]
    {
      log := log + [Emission(BroadcastExcept(conn), UserOffline(sessions[conn].user.id))];
      sessions := sessions - {conn};
    }
  }
}
