/**
 * The server side of the notification pipeline: the two broadcast events
 * a user can receive, the listener that stores one notification record
 * per handled event, and the controller actions that fire the events.
 */
module NotificationEvents {
  import opened Wrappers
  import Json
  import Text
  import Channels

  datatype User = User(id: int, name: string)

  /** A channel an event is broadcast on; only private channels occur here. */
  datatype Channel = PrivateChannel(name: string)

  /** What the broadcaster sends: the channels, the event name the client listens for, and the payload. */
  datatype Broadcast = Broadcast(channels: seq<Channel>, name: string, payload: map<string, Json.Value>)

  // ---- UserNotification -----------------------------------------------------

  /** A personal notification for one user. */
  datatype UserNotification = UserNotification(user: User, message: string, title: string, kind: string)

  const DefaultEventTitle := "Уведомление"
  const DefaultKind := "info"

  /** The event's constructor, with its own defaults for an omitted title and type. */
  function NewUserNotification(user: User, message: string, title: Option<string>, kind: Option<string>): (e: UserNotification)
    ensures e.user == user && e.message == message
    ensures e.title == (if title.Some? then title.value else DefaultEventTitle)
    ensures e.kind == (if kind.Some? then kind.value else DefaultKind)
  {
    UserNotification(user, message, title.GetOr(DefaultEventTitle), kind.GetOr(DefaultKind))
  }

  /** The payload shape shared by both broadcast events. */
  function NoticePayload(title: string, message: string, kind: string, time: string): (p: map<string, Json.Value>)
    ensures p.Keys == {"title", "message", "type", "time"}
    ensures p["title"] == Json.Str(title) && p["message"] == Json.Str(message)
    ensures p["type"] == Json.Str(kind) && p["time"] == Json.Str(time)
  {
    map["title" := Json.Str(title), "message" := Json.Str(message), "type" := Json.Str(kind), "time" := Json.Str(time)]
  }

  /** The personal channel of a user. */
  function UserChannelName(id: int): string {
    "user." + Text.IntToString(id)
  }

  /**
   * `broadcastOn`, `broadcastWith` and `broadcastAs` of the personal
   * notification; `now` is the server clock rendered as a date-time string.
   */
  function UserNotificationBroadcast(e: UserNotification, now: string): (b: Broadcast)
    ensures b.channels == [PrivateChannel(UserChannelName(e.user.id))]
    ensures b.name == "UserNotification"
    ensures b.payload.Keys == {"title", "message", "type", "time"} && "user_id" !in b.payload
    ensures b.payload["title"] == Json.Str(e.title) && b.payload["message"] == Json.Str(e.message)
    ensures b.payload["type"] == Json.Str(e.kind) && b.payload["time"] == Json.Str(now)
  {
    Broadcast([PrivateChannel(UserChannelName(e.user.id))], "UserNotification", NoticePayload(e.title, e.message, e.kind, now))
  }

  /** A personal notification reaches its own user and nobody else. */
  lemma UserNotificationReachesOnlyItsUser(e: UserNotification, now: string, subscriberId: int)
    requires Text.IntMin <= e.user.id <= Text.IntMax
    ensures var b := UserNotificationBroadcast(e, now);
            |b.channels| == 1 && (Channels.Authorize(b.channels[0].name, subscriberId) <==> subscriberId == e.user.id)
  {
    Channels.UserChannelAdmitsOnlyItsUser(e.user.id, subscriberId);
  }

  // ---- RegisterUser ---------------------------------------------------------

  /** Announcement that a user has registered. */
  datatype RegisterUser = RegisterUser(user: User)

  const RegisteredTitle := "Новый пользователь зарегистрирован"
  const RegisteredPrefix := "Зарегистрирован новый пользователь: "

  /** The announcement text: prefix, the user's name, then the id in parentheses (with no space before them). */
  function RegisteredMessage(u: User): (m: string)
    ensures |m| > |RegisteredPrefix| + |u.name| && m[..|RegisteredPrefix|] == RegisteredPrefix
    ensures m[|RegisteredPrefix|..|RegisteredPrefix| + |u.name|] == u.name
    ensures m[|RegisteredPrefix| + |u.name|..] == "(ID: " + Text.IntToString(u.id) + ")"
  {
    RegisteredPrefix + u.name + "(ID: " + Text.IntToString(u.id) + ")"
  }

  /** The announcement names its user: two users with the same name get different texts when their ids differ. */
  lemma RegisteredMessageDistinguishesIds(u: User, v: User)
    requires u.name == v.name && u.id != v.id
    ensures RegisteredMessage(u) != RegisteredMessage(v)
  {
    var k := |RegisteredPrefix| + |u.name|;
    if RegisteredMessage(u) == RegisteredMessage(v) {
      var tu := "(ID: " + Text.IntToString(u.id) + ")";
      var tv := "(ID: " + Text.IntToString(v.id) + ")";
      assert tu == tv;
      assert Text.IntToString(u.id) == tu[5..|tu| - 1];
      assert Text.IntToString(v.id) == tv[5..|tv| - 1];
      Text.ScanIntToString(Text.Php, u.id);
      Text.ScanIntToString(Text.Php, v.id);
    }
  }

  /** `broadcastOn`, `broadcastWith` and `broadcastAs` of the registration announcement. */
  function RegisterUserBroadcast(e: RegisterUser, now: string): (b: Broadcast)
    ensures b.channels == [PrivateChannel(Channels.SystemChannel)]
    ensures b.name == "MessageSent"
    ensures b.payload == NoticePayload(RegisteredTitle, RegisteredMessage(e.user), "info", now)
  {
    Broadcast([PrivateChannel("system-notifications")], "MessageSent",
              NoticePayload(RegisteredTitle, RegisteredMessage(e.user), "info", now))
  }

  /** Every authenticated subscriber may hear a registration announcement. */
  lemma RegistrationReachesEveryone(e: RegisterUser, now: string, subscriberId: int)
    ensures Channels.Authorize(RegisterUserBroadcast(e, now).channels[0].name, subscriberId)
  {
    Channels.SystemChannelAdmitsEveryone(subscriberId);
  }

  // ---- MessageSent ----------------------------------------------------------

  /**
   * The system-wide event, as far as its constructor call shows it: no user,
   * and the three request values as they were passed.
   */
  datatype MessageSent = MessageSent(message: Json.Value, title: Json.Value, kind: Json.Value)

  // ---- The listener ---------------------------------------------------------

  /** Any event the application fires. */
  datatype Event = UserNoticeEvent(notice: UserNotification) | SystemEvent(sent: MessageSent) | RegisterEvent(reg: RegisterUser)

  /** A stored notification; `userId` is `None` for a system-wide one. */
  datatype Record = Record(userId: Option<int>, title: Json.Value, message: Json.Value, kind: Json.Value, read: bool)

  /** The events the notification-saving listener is registered for: the personal and the system-wide one. */
  predicate Listened(e: Event) {
    e.UserNoticeEvent? || e.SystemEvent?
  }

  /** The listener's `handle`: the event's user id when it has a user, else none; fields copied; unread. */
  function Handle(e: Event): (r: Record)
    requires Listened(e)
    ensures !r.read
    ensures e.UserNoticeEvent? ==> r == Record(Some(e.notice.user.id), Json.Str(e.notice.title), Json.Str(e.notice.message),
                                               Json.Str(e.notice.kind), false)
    ensures e.SystemEvent? ==> r == Record(None, e.sent.title, e.sent.message, e.sent.kind, false)
  {
    match e
    case UserNoticeEvent(n) => Record(Some(n.user.id), Json.Str(n.title), Json.Str(n.message), Json.Str(n.kind), false)
    case SystemEvent(m) => Record(None, m.title, m.message, m.kind, false)
  }

  /**
   * Firing an event with the listener registered once for each event it
   * handles: a listened event stores one record and any other none.
   */
  function Dispatch(db: seq<Record>, e: Event): (r: seq<Record>)
    ensures Listened(e) ==> r == db + [Handle(e)]
    ensures !Listened(e) ==> r == db
  {
    if Listened(e) then db + [Handle(e)] else db
  }

  /**
   * Firing an event with the listener registered `copies` times for it:
   * each registration runs `handle`, so a listened event stores that many
   * identical records after the existing ones.
   */
  function DispatchRegistered(db: seq<Record>, e: Event, copies: nat): (r: seq<Record>)
    ensures Listened(e) ==> |r| == |db| + copies && r[..|db|] == db &&
                            forall i :: |db| <= i < |r| ==> r[i] == Handle(e)
    ensures !Listened(e) ==> r == db
    decreases copies
  {
    if copies == 0 || !Listened(e) then db else DispatchRegistered(db, e, copies - 1) + [Handle(e)]
  }

  /**
   * The registrations the listener gets as written: listener discovery,
   * which the framework's default application configuration turns on for
   * the listeners directory and which reads both events from `handle`'s
   * union type, and the explicit `Event::listen` of the service provider
   * for each of the two events.
   */
  const RegistrationsAsWritten := 2

  function DispatchAsWritten(db: seq<Record>, e: Event): seq<Record> {
    DispatchRegistered(db, e, RegistrationsAsWritten)
  }

  /** As registered, every listened event is stored twice, where one record was meant. */
  lemma {:induction false} DispatchAsWrittenStoresTwice(db: seq<Record>, e: Event)
    requires Listened(e)
    ensures DispatchAsWritten(db, e) == db + [Handle(e), Handle(e)]
    ensures DispatchAsWritten(db, e) != Dispatch(db, e)
  {
    var r := DispatchAsWritten(db, e);
    assert r[..|db|] == db && r[|db|] == Handle(e) && r[|db| + 1] == Handle(e);
    assert r == r[..|db|] + [r[|db|], r[|db| + 1]];
  }

  /** The single-registration dispatch is the one-copy case. */
  lemma {:induction false} DispatchIsOneRegistration(db: seq<Record>, e: Event)
    ensures Dispatch(db, e) == DispatchRegistered(db, e, 1)
  {
    if Listened(e) {
      var r := DispatchRegistered(db, e, 1);
      assert r == r[..|db|] + [r[|db|]];
    }
  }

  /** Stored records start unread whichever events produced them. */
  lemma DispatchKeepsNewRecordsUnread(db: seq<Record>, events: seq<Event>)
    ensures forall i :: |db| <= i < |DispatchAll(db, events)| ==> !DispatchAll(db, events)[i].read
    ensures |DispatchAll(db, events)| == |db| + CountListened(events)
    ensures DispatchAll(db, events)[..|db|] == db
  {
    DispatchAllShape(db, events);
  }

  function DispatchAll(db: seq<Record>, events: seq<Event>): seq<Record>
    decreases |events|
  {
    if events == [] then db else DispatchAll(Dispatch(db, events[0]), events[1..])
  }

  function CountListened(events: seq<Event>): nat {
    if events == [] then 0 else (if Listened(events[0]) then 1 else 0) + CountListened(events[1..])
  }

  lemma {:induction false} DispatchAllShape(db: seq<Record>, events: seq<Event>)
    ensures |DispatchAll(db, events)| == |db| + CountListened(events)
    ensures DispatchAll(db, events)[..|db|] == db
    ensures forall i :: |db| <= i < |DispatchAll(db, events)| ==> !DispatchAll(db, events)[i].read
    decreases |events|
  {
    if events != [] {
      var next := Dispatch(db, events[0]);
      DispatchAllShape(next, events[1..]);
      assert next[..|db|] == db;
      var all := DispatchAll(db, events);
      assert all[..|next|][..|db|] == all[..|db|];
    }
  }

  // ---- The controller -------------------------------------------------------

  /** The request's decoded input fields; an absent key takes the action's default. */
  type Input = map<string, Json.Value>

  const DefaultMessage := "Test notification"
  const DefaultTitle := "Notification"

  /** A field as the action receives it: the framework's middleware has turned an empty string into null. */
  function Received(v: Json.Value): (r: Json.Value)
    ensures r.Null? <==> v.Null? || v == Json.Str("")
    ensures !r.Null? ==> r == v
  {
    if v == Json.Str("") then Json.Null else v
  }

  /** `$request->input(key, default)`: a present value, even null, wins over the default. */
  function InputOr(input: Input, key: string, default: string): (v: Json.Value)
    ensures key in input ==> v == Received(input[key])
    ensures key !in input ==> v == Json.Str(default)
  {
    if key in input then Received(input[key]) else Json.Str(default)
  }

  /**
   * Passing a value to a `string` parameter under PHP's coercive typing: a
   * string as it is, an integer as its decimal rendering, a boolean as "1"
   * or ""; null does not convert and is a type error.
   */
  function StringArgument(v: Json.Value): (r: Option<string>)
    ensures r.None? <==> v.Null?
    ensures v.Str? ==> r == Some(v.s)
    ensures v.Int? ==> r == Some(Text.IntToString(v.i))
    ensures v.Bool? ==> r == Some(if v.b then "1" else "")
  {
    match v
    case Str(s) => Some(s)
    case Int(i) => Some(Text.IntToString(i))
    case Bool(b) => Some(if b then "1" else "")
    case Null => None
  }

  /** The JSON body of a successful send. */
  datatype Response = Response(status: string, message: string, data: map<string, Json.Value>)

  datatype Sent<E> = Sent(response: Response, event: E)

  /** `findOrFail` on an unknown id (404), or an argument the event's typed constructor refuses (500). */
  datatype SendError = UserNotFound | TypeError

  /** `send`: fire one system-wide event with the input or default fields and echo them back. */
  function Send(input: Input): (r: Sent<MessageSent>)
    ensures r.event == MessageSent(InputOr(input, "message", DefaultMessage), InputOr(input, "title", DefaultTitle),
                                   InputOr(input, "type", DefaultKind))
    ensures r.response.status == "success" && r.response.message == "System notification sent successfully"
    ensures r.response.data == map["title" := r.event.title, "message" := r.event.message, "type" := r.event.kind]
  {
    var message := InputOr(input, "message", DefaultMessage);
    var title := InputOr(input, "title", DefaultTitle);
    var kind := InputOr(input, "type", DefaultKind);
    Sent(Response("success", "System notification sent successfully",
                  map["title" := title, "message" := message, "type" := kind]),
         MessageSent(message, title, kind))
  }

  /** The three values `sendToUser` hands to the personal event's constructor all convert to strings. */
  predicate Convertible(input: Input) {
    && StringArgument(InputOr(input, "message", DefaultMessage)).Some?
    && StringArgument(InputOr(input, "title", DefaultTitle)).Some?
    && StringArgument(InputOr(input, "type", DefaultKind)).Some?
  }

  /**
   * `sendToUser`: look the user up first (unknown id: not found, no event),
   * then construct one personal event for that user from the input or
   * default fields, which fails when one of them is null, and echo the
   * fields as received with the user's id and name.
   */
  function SendToUser(users: map<int, User>, input: Input, userId: int): (r: Result<Sent<UserNotification>, SendError>)
    ensures r == Err(UserNotFound) <==> userId !in users
    ensures r == Err(TypeError) <==> userId in users && !Convertible(input)
    ensures r.Ok? ==> r.value.event == NewUserNotification(users[userId],
                                                           StringArgument(InputOr(input, "message", DefaultMessage)).value,
                                                           StringArgument(InputOr(input, "title", DefaultTitle)),
                                                           StringArgument(InputOr(input, "type", DefaultKind)))
    ensures r.Ok? ==> r.value.response.status == "success" &&
                      r.value.response.message == "User notification sent successfully"
    ensures r.Ok? ==> r.value.response.data.Keys == {"user_id", "user_name", "title", "message", "type"}
    ensures r.Ok? ==> r.value.response.data["user_id"] == Json.Int(users[userId].id) &&
                      r.value.response.data["user_name"] == Json.Str(users[userId].name)
    ensures r.Ok? ==> r.value.response.data["title"] == InputOr(input, "title", DefaultTitle) &&
                      r.value.response.data["message"] == InputOr(input, "message", DefaultMessage) &&
                      r.value.response.data["type"] == InputOr(input, "type", DefaultKind)
  {
    if userId !in users then Err(UserNotFound)
    else
      var user := users[userId];
      var message := InputOr(input, "message", DefaultMessage);
      var title := InputOr(input, "title", DefaultTitle);
      var kind := InputOr(input, "type", DefaultKind);
      if StringArgument(message).None? || StringArgument(title).None? || StringArgument(kind).None? then Err(TypeError)
      else
        Ok(Sent(Response("success", "User notification sent successfully",
                         map["user_id" := Json.Int(user.id), "user_name" := Json.Str(user.name),
                             "title" := title, "message" := message, "type" := kind]),
                UserNotification(user, StringArgument(message).value, StringArgument(title).value, StringArgument(kind).value)))
  }

  /**
   * Sending from the controller with no title overrides the event's own
   * default: the stored and broadcast title is "Notification", never the
   * event's "Уведомление".
   */
  lemma ControllerTitleDefaultWins(users: map<int, User>, input: Input, userId: int)
    requires userId in users && "title" !in input
    ensures SendToUser(users, input, userId).Ok? <==>
            StringArgument(InputOr(input, "message", DefaultMessage)).Some? &&
            StringArgument(InputOr(input, "type", DefaultKind)).Some?
    ensures SendToUser(users, input, userId).Ok? ==>
            SendToUser(users, input, userId).value.event.title == DefaultTitle != DefaultEventTitle
  {
  }

  /**
   * A present but null or empty title, message or type reaches the typed
   * constructor as null: the personal send fails with a server error and
   * fires no event.
   */
  lemma NullFieldFailsSendToUser(users: map<int, User>, input: Input, userId: int, key: string)
    requires userId in users && key in {"title", "message", "type"} && key in input
    requires input[key] == Json.Null || input[key] == Json.Str("")
    ensures SendToUser(users, input, userId) == Err(TypeError)
  {
    if key == "title" {
      assert StringArgument(InputOr(input, "title", DefaultTitle)).None?;
    } else if key == "message" {
      assert StringArgument(InputOr(input, "message", DefaultMessage)).None?;
    } else {
      assert StringArgument(InputOr(input, "type", DefaultKind)).None?;
    }
  }

  /**
   * End to end: a system-wide send stores one unread record without a
   * user; a personal send that succeeds stores one unread record for that
   * user and broadcasts on a channel only that user may join.
   */
  lemma SendsStoreOneRecord(db: seq<Record>, users: map<int, User>, input: Input, userId: int, now: string, subscriberId: int)
    requires userId in users ==> Text.IntMin <= users[userId].id <= Text.IntMax
    ensures var e := Send(input).event;
            Dispatch(db, SystemEvent(e)) == db + [Record(None, e.title, e.message, e.kind, false)]
    ensures SendToUser(users, input, userId).Ok? ==>
            var e := SendToUser(users, input, userId).value.event;
            Dispatch(db, UserNoticeEvent(e)) ==
              db + [Record(Some(users[userId].id), Json.Str(e.title), Json.Str(e.message), Json.Str(e.kind), false)] &&
            (Channels.Authorize(UserNotificationBroadcast(e, now).channels[0].name, subscriberId) <==> subscriberId == users[userId].id)
  {
    if SendToUser(users, input, userId).Ok? {
      UserNotificationReachesOnlyItsUser(SendToUser(users, input, userId).value.event, now, subscriberId);
    }
  }
}
