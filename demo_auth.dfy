/**
 * The browser-local demo store: five partitions of `localStorage` (a users
 * table keyed by email, the current-user slot, the message list, the tag list
 * and the per-user settings), and the identity, message, tag and settings
 * operations built on them.
 */
module DemoAuth {
  import opened Wrappers
  import opened Ids
  import Seqs

  /** A JSON value inside a stored record; `Date(ms)` stands for a `new Date()`. */
  datatype Value = Null | Bool(b: bool) | Num(n: int) | Str(s: string) | Date(ms: Millis)

  /** A plain JavaScript object: field names mapped to values. */
  type Record = map<string, Value>

  /** The public user record handed to callers; it carries no password. */
  datatype User = User(uid: string, email: string, displayName: string, username: string)

  /** An entry of the users table: the plaintext password and the user record. */
  datatype Credential = Credential(password: string, user: User)

  /** The users table, keyed by email. */
  type UserTable = map<string, Credential>

  datatype Tag = Tag(id: string, name: string, createdAt: Millis)

  /** The `code` of each object the identity operations throw. */
  datatype AuthError = EmailAlreadyInUse | UserNotFound | WrongPassword
  {
    function Code(): string
    {
      match this
      case EmailAlreadyInUse => "auth/email-already-in-use"
      case UserNotFound => "auth/user-not-found"
      case WrongPassword => "auth/wrong-password"
    }
  }

  /** The user record `demoSignup` creates at clock reading `now`. */
  function NewUser(email: string, username: string, now: Millis): (u: User)
    ensures u.email == email && u.username == username && u.displayName == username
    ensures |u.uid| > |UserPrefix| && u.uid[..|UserPrefix|] == UserPrefix
    ensures IsDigits(u.uid[|UserPrefix|..]) && ValueOf(u.uid[|UserPrefix|..]) == now
  {
    User(GeneratedId(UserPrefix, now), email, username, username)
  }

  /**
   * `demoSignup` on a users table: the outcome and the table written back
   * (the table is not written when the email is taken).
   */
  function Signup(users: UserTable, email: string, password: string, username: string, now: Millis)
    : (r: (Result<User, AuthError>, UserTable))
    ensures r.0.Failure? <==> email in users
    ensures r.0.Failure? ==> r.0.error == EmailAlreadyInUse && r.1 == users
    ensures r.0.Success? ==>
      && r.0.value.email == email
      && r.0.value.displayName == username && r.0.value.username == username
      && r.0.value.uid == GeneratedId(UserPrefix, now)
    ensures r.0.Success? ==>
      && r.1.Keys == users.Keys + {email}
      && |r.1| == |users| + 1
      && r.1[email] == Credential(password, r.0.value)
      && forall e :: e in users ==> r.1[e] == users[e]
  {
    if email in users then (Failure(EmailAlreadyInUse), users)
    else
      var user := NewUser(email, username, now);
      (Success(user), users[email := Credential(password, user)])
  }

  /** `demoLogin` on a users table. */
  function Login(users: UserTable, email: string, password: string): (r: Result<User, AuthError>)
    ensures r == Failure(UserNotFound) <==> email !in users
    ensures r == Failure(WrongPassword) <==> email in users && users[email].password != password
    ensures r.Success? <==> email in users && users[email].password == password
    ensures r.Success? ==> r.value == users[email].user
  {
    if email !in users then Failure(UserNotFound)
    else if users[email].password != password then Failure(WrongPassword)
    else Success(users[email].user)
  }

  /** Signing up and then logging in with the same password returns the user signup created. */
  lemma LoginAfterSignup(users: UserTable, email: string, password: string, username: string, now: Millis)
    requires email !in users
    ensures var (r, users') := Signup(users, email, password, username, now);
      r.Success? && Login(users', email, password) == Success(r.value)
  {
  }

  /** After a signup, any other password for that email is refused. */
  lemma LoginWithOtherPasswordAfterSignup(users: UserTable, email: string, password: string,
                                          other: string, username: string, now: Millis)
    requires email !in users && other != password
    ensures Login(Signup(users, email, password, username, now).1, email, other) == Failure(WrongPassword)
  {
  }

  /** A signup changes nobody else's login. */
  lemma SignupKeepsOtherLogins(users: UserTable, email: string, password: string, username: string,
                               now: Millis, email': string, password': string)
    requires email' != email
    ensures Login(Signup(users, email, password, username, now).1, email', password')
         == Login(users, email', password')
  {
  }

  /** A second signup with the same email is refused and leaves the table as the first left it. */
  lemma SignupTwiceRefused(users: UserTable, email: string, p1: string, u1: string, t1: Millis,
                           p2: string, u2: string, t2: Millis)
    ensures var users1 := Signup(users, email, p1, u1, t1).1;
      Signup(users1, email, p2, u2, t2) == (Failure(EmailAlreadyInUse), users1)
  {
  }

  /**
   * `addMessage`'s record: `{ id: 'msg_' + idClock, ...message, timestamp: now }`.
   * The id and the timestamp come from two separate clock reads
   * (`Date.now()`, then `new Date()`), so they may differ.
   */
  function StampMessage(message: Record, idClock: Millis, now: Millis): (r: Record)
    ensures r.Keys == message.Keys + {"id", "timestamp"}
    ensures r["timestamp"] == Date(now)
    ensures r["id"] == if "id" in message then message["id"] else Str(GeneratedId(MessagePrefix, idClock))
    ensures forall k :: k in message && k != "id" && k != "timestamp" ==> r[k] == message[k]
  {
    map["id" := Str(GeneratedId(MessagePrefix, idClock))] + message + map["timestamp" := Date(now)]
  }

  /** `tags.filter(t => t.id !== tagId)`. */
  function WithoutTag(tags: seq<Tag>, tagId: string): (r: seq<Tag>)
    ensures forall t :: t in r <==> t in tags && t.id != tagId
    ensures Seqs.IsSubsequence(r, tags)
    ensures forall t :: multiset(r)[t] == if t.id != tagId then multiset(tags)[t] else 0
    ensures (forall t :: t in tags ==> t.id != tagId) ==> r == tags
  {
    Seqs.FilterIsSubsequence(tags, (t: Tag) => t.id != tagId);
    Seqs.FilterCounts(tags, (t: Tag) => t.id != tagId);
    Seqs.FilterKeepsAll(tags, (t: Tag) => t.id != tagId);
    Seqs.Filter(tags, (t: Tag) => t.id != tagId)
  }

  /** Deleting a tag id a second time changes nothing. */
  lemma WithoutTagIdempotent(tags: seq<Tag>, tagId: string)
    ensures WithoutTag(WithoutTag(tags, tagId), tagId) == WithoutTag(tags, tagId)
  {
  }

  /** `{ ...previous, ...settings, updatedAt: now }`. */
  function MergeSettings(previous: Record, settings: Record, now: Millis): (r: Record)
    ensures r.Keys == previous.Keys + settings.Keys + {"updatedAt"}
    ensures r["updatedAt"] == Date(now)
    ensures forall k :: k in settings && k != "updatedAt" ==> r[k] == settings[k]
    ensures forall k :: k in previous && k !in settings && k != "updatedAt" ==> r[k] == previous[k]
  {
    previous + settings + map["updatedAt" := Date(now)]
  }

  /** Saving the same settings again only moves `updatedAt`. */
  lemma MergeSettingsTwice(previous: Record, settings: Record, t1: Millis, t2: Millis)
    ensures MergeSettings(MergeSettings(previous, settings, t1), settings, t2)
         == MergeSettings(previous, settings, t2)
  {
  }

  /**
   * The store. Each field is one `localStorage` item; `None` means the key is
   * absent, and the getters then return the source's empty default.
   */
  class DemoStore {
    var usersItem: Option<UserTable>
    var currentUserItem: Option<User>
    var messagesItem: Option<seq<Record>>
    var tagsItem: Option<seq<Tag>>
    var settingsItem: Option<map<string, Record>>

    /** A browser profile in which none of the keys has been written yet. */
    constructor ()
      ensures usersItem == None && currentUserItem == None && messagesItem == None
      ensures tagsItem == None && settingsItem == None
    {
      usersItem, currentUserItem, messagesItem := None, None, None;
      tagsItem, settingsItem := None, None;
    }

    /** `getUsers()`: the stored table, or `{}` when the key is absent. */
    function GetUsers(): (users: UserTable)
      reads this
      ensures usersItem == None ==> users == map[]
    {
      if usersItem.Some? then usersItem.value else map[]
    }

    /** `saveUsers(users)`. */
    method SaveUsers(users: UserTable)
      modifies this
      ensures usersItem == Some(users)
      ensures currentUserItem == old(currentUserItem) && messagesItem == old(messagesItem)
      ensures tagsItem == old(tagsItem) && settingsItem == old(settingsItem)
    {
      usersItem := Some(users);
    }

    /** `getCurrentUser()`: the stored user, or `null` when the key is absent. */
    function GetCurrentUser(): (u: Option<User>)
      reads this
      ensures currentUserItem == None ==> u == None
    {
      currentUserItem
    }

    /** `saveCurrentUser(user)`: stores a user, or removes the key for `null`. */
    method SaveCurrentUser(user: Option<User>)
      modifies this
      ensures GetCurrentUser() == user
      ensures usersItem == old(usersItem) && messagesItem == old(messagesItem)
      ensures tagsItem == old(tagsItem) && settingsItem == old(settingsItem)
    {
      currentUserItem := user;
    }

    /** `demoSignup(email, password, username)` at clock reading `now`. */
    method DemoSignup(email: string, password: string, username: string, now: Millis)
      returns (r: Result<User, AuthError>)
      modifies this
      ensures (r, GetUsers()) == Signup(old(GetUsers()), email, password, username, now)
      ensures r.Failure? ==> usersItem == old(usersItem)
      ensures currentUserItem == old(currentUserItem) && messagesItem == old(messagesItem)
      ensures tagsItem == old(tagsItem) && settingsItem == old(settingsItem)
    {
      var users := GetUsers();
      if email in users {
        return Failure(EmailAlreadyInUse);
      }
      var user := NewUser(email, username, now);
      users := users[email := Credential(password, user)];
      SaveUsers(users);
      r := Success(user);
    }

    /** `demoLogin(email, password)`: reads the table and changes nothing. */
    method DemoLogin(email: string, password: string) returns (r: Result<User, AuthError>)
      ensures r == Login(GetUsers(), email, password)
    {
      var users := GetUsers();
      if email !in users {
        return Failure(UserNotFound);
      }
      if users[email].password != password {
        return Failure(WrongPassword);
      }
      r := Success(users[email].user);
    }

    /** `demoLogout()`: empties the current-user slot, whatever it held. */
    method DemoLogout()
      modifies this
      ensures GetCurrentUser() == None
      ensures usersItem == old(usersItem) && messagesItem == old(messagesItem)
      ensures tagsItem == old(tagsItem) && settingsItem == old(settingsItem)
    {
      SaveCurrentUser(None);
    }

    /** `getMessages()`: the stored list, or `[]` when the key is absent. */
    function GetMessages(): (messages: seq<Record>)
      reads this
      ensures messagesItem == None ==> messages == []
    {
      if messagesItem.Some? then messagesItem.value else []
    }

    /** `saveMessages(messages)`. */
    method SaveMessages(messages: seq<Record>)
      modifies this
      ensures GetMessages() == messages && messagesItem.Some?
      ensures usersItem == old(usersItem) && currentUserItem == old(currentUserItem)
      ensures tagsItem == old(tagsItem) && settingsItem == old(settingsItem)
    {
      messagesItem := Some(messages);
    }

    /** `addMessage(message)` with clock reads `idClock` and `now`: appends the stamped record and returns it. */
    method AddMessage(message: Record, idClock: Millis, now: Millis) returns (r: Record)
      modifies this
      ensures r == StampMessage(message, idClock, now)
      ensures GetMessages() == old(GetMessages()) + [r]
      ensures usersItem == old(usersItem) && currentUserItem == old(currentUserItem)
      ensures tagsItem == old(tagsItem) && settingsItem == old(settingsItem)
    {
      var messages := GetMessages();
      r := StampMessage(message, idClock, now);
      messages := messages + [r];
      SaveMessages(messages);
    }

    /** `getTags()`: the stored list, or `[]` when the key is absent. */
    function GetTags(): (tags: seq<Tag>)
      reads this
      ensures tagsItem == None ==> tags == []
    {
      if tagsItem.Some? then tagsItem.value else []
    }

    /**
     * `addTag(name)` with clock reads `idClock` (`Date.now()`, for the id) and
     * `now` (`new Date()`, for `createdAt`): appends a new tag, whatever names
     * exist already.
     */
    method AddTag(name: string, idClock: Millis, now: Millis) returns (t: Tag)
      modifies this
      ensures t == Tag(GeneratedId(TagPrefix, idClock), name, now)
      ensures GetTags() == old(GetTags()) + [t] && tagsItem.Some?
      ensures usersItem == old(usersItem) && currentUserItem == old(currentUserItem)
      ensures messagesItem == old(messagesItem) && settingsItem == old(settingsItem)
    {
      var tags := GetTags();
      t := Tag(GeneratedId(TagPrefix, idClock), name, now);
      tags := tags + [t];
      tagsItem := Some(tags);
    }

    /** `deleteTag(tagId)`: writes back the list without that id, even when nothing matched. */
    method DeleteTag(tagId: string)
      modifies this
      ensures tagsItem == Some(WithoutTag(old(GetTags()), tagId))
      ensures usersItem == old(usersItem) && currentUserItem == old(currentUserItem)
      ensures messagesItem == old(messagesItem) && settingsItem == old(settingsItem)
    {
      var tags := GetTags();
      var filtered := WithoutTag(tags, tagId);
      tagsItem := Some(filtered);
    }

    /** The whole settings object, or `{}` when the key is absent. */
    function AllSettings(): (all: map<string, Record>)
      reads this
      ensures settingsItem == None ==> all == map[]
    {
      if settingsItem.Some? then settingsItem.value else map[]
    }

    /** `getUserSettings(userId)`: that user's record, or `{}` for an unknown user. */
    function GetUserSettings(userId: string): (settings: Record)
      reads this
      ensures userId !in AllSettings() ==> settings == map[]
    {
      var all := AllSettings();
      if userId in all then all[userId] else map[]
    }

    /** `saveUserSettings(userId, settings)` at clock reading `now`: a shallow-merge upsert. */
    method SaveUserSettings(userId: string, settings: Record, now: Millis)
      modifies this
      ensures settingsItem == Some(old(AllSettings())[userId := MergeSettings(old(GetUserSettings(userId)), settings, now)])
      ensures forall u :: u != userId ==> GetUserSettings(u) == old(GetUserSettings(u))
      ensures usersItem == old(usersItem) && currentUserItem == old(currentUserItem)
      ensures messagesItem == old(messagesItem) && tagsItem == old(tagsItem)
    {
      var all := AllSettings();
      var previous := if userId in all then all[userId] else map[];
      all := all[userId := MergeSettings(previous, settings, now)];
      settingsItem := Some(all);
    }
  }

  /**
   * A fresh browser profile: a signup followed by a login with the same
   * password yields the same user, and a wrong password is refused.
   */
  method SignupLoginScenario(now: Millis) returns (signed: Result<User, AuthError>,
                                                   relogged: Result<User, AuthError>,
                                                   refused: Result<User, AuthError>)
    ensures signed.Success? && relogged == signed
    ensures refused == Failure(WrongPassword)
  {
    var store := new DemoStore();
    signed := store.DemoSignup("a@x.com", "secret1", "Alice", now);
    relogged := store.DemoLogin("a@x.com", "secret1");
    refused := store.DemoLogin("a@x.com", "wrong");
  }
}
