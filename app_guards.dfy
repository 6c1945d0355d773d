/**
 * The input rules of the application's handlers, and the demo-mode paths of
 * the signup, login and send handlers that apply them before calling the
 * demo store.
 */
module AppGuards {
  import opened Wrappers
  import opened Ids
  import opened Text
  import opened DemoAuth

  /** The shortest password the signup form accepts, counted in UTF-16 code units. */
  const MinPasswordLength: nat := 6

  /** Why a form was refused before the store was consulted. */
  datatype InputError = MissingField | PasswordTooShort

  /** The checks at the top of `handleSignup`, in their order. */
  function SignupGuard(email: string, password: string, username: string): (r: Option<InputError>)
    ensures r == Some(MissingField) <==> email == "" || password == "" || username == ""
    ensures r == Some(PasswordTooShort) <==>
      email != "" && password != "" && username != "" && Utf16Length(password) < MinPasswordLength
    ensures r == None <==>
      email != "" && password != "" && username != "" && Utf16Length(password) >= MinPasswordLength
  {
    if email == "" || password == "" || username == "" then Some(MissingField)
    else if Utf16Length(password) < MinPasswordLength then Some(PasswordTooShort)
    else None
  }

  /** Six characters always meet the length rule; two never do, whatever the characters. */
  lemma PasswordLengthByCharacters(password: string)
    ensures |password| >= 6 ==> Utf16Length(password) >= MinPasswordLength
    ensures |password| <= 2 ==> Utf16Length(password) < MinPasswordLength
  {
  }

  /** The check at the top of `handleLogin`. */
  function LoginGuard(email: string, password: string): (r: Option<InputError>)
    ensures r.Some? <==> email == "" || password == ""
    ensures r.Some? ==> r.value == MissingField
  {
    if email == "" || password == "" then Some(MissingField) else None
  }

  /** What the signup and login handlers end in. */
  datatype HandlerOutcome = Refused(input: InputError) | AuthFailed(error: AuthError) | SignedIn(user: User)

  /** The name shown for a user: `displayName || email`. */
  function ShownName(u: User): (name: string)
    ensures u.displayName != "" ==> name == u.displayName
    ensures u.displayName == "" ==> name == u.email
  {
    if u.displayName != "" then u.displayName else u.email
  }

  /**
   * The object `sendMessage` passes to `addMessage`: the trimmed text, the
   * image as a data URL or `null`, and the sender.
   */
  function OutgoingMessage(sender: User, text: string, imageUrl: Option<string>): (r: Record)
    ensures "id" !in r && "timestamp" !in r
    ensures r.Keys == {"text", "imageUrl", "userId", "userEmail", "displayName"}
    ensures r["text"] == Str(text) && r["userId"] == Str(sender.uid) && r["userEmail"] == Str(sender.email)
    ensures r["displayName"] == Str(ShownName(sender))
    ensures r["imageUrl"] == if imageUrl.Some? then Str(imageUrl.value) else Null
  {
    map[
      "text" := Str(text),
      "imageUrl" := (if imageUrl.Some? then Str(imageUrl.value) else Null),
      "userId" := Str(sender.uid),
      "userEmail" := Str(sender.email),
      "displayName" := Str(ShownName(sender))
    ]
  }

  /** A sent message carries the generated `msg_` id and the second clock reading as its timestamp. */
  lemma SentMessageIsStamped(sender: User, text: string, imageUrl: Option<string>, idClock: Millis, now: Millis)
    ensures var r := StampMessage(OutgoingMessage(sender, text, imageUrl), idClock, now);
      r["id"] == Str(GeneratedId(MessagePrefix, idClock)) && r["timestamp"] == Date(now)
      && r["userId"] == Str(sender.uid) && r["text"] == Str(text)
  {
  }

  /** Whether `sendMessage` goes ahead: someone is signed in, and there is text or an image. */
  function ShouldSend(signedIn: bool, input: string, hasImage: bool): (b: bool)
    ensures b <==> signedIn && (hasImage || exists k :: 0 <= k < |input| && !IsTrimmable(input[k]))
  {
    TrimEmptyIff(input);
    signedIn && (Trim(input) != "" || hasImage)
  }

  /** An input of blanks (spaces, tabs, line breaks, ...) with no image is never sent. */
  lemma BlankInputIsNotSent(signedIn: bool, input: string)
    requires forall k :: 0 <= k < |input| ==> IsTrimmable(input[k])
    ensures !ShouldSend(signedIn, input, false)
  {
    TrimEmptyIff(input);
  }

  /** The verdict of `addNewTag` on the typed name. */
  datatype TagNameCheck = EmptyName | DuplicateName | Accepted(name: string)

  /** `addNewTag`'s checks: the trimmed name must be non-empty and differ from every existing name. */
  function CheckNewTagName(input: string, allTags: seq<Tag>): (r: TagNameCheck)
    ensures r == EmptyName <==> Trim(input) == ""
    ensures r == DuplicateName <==> Trim(input) != "" && exists t :: t in allTags && t.name == Trim(input)
    ensures r.Accepted? ==> r.name == Trim(input) && r.name != "" && forall t :: t in allTags ==> t.name != r.name
  {
    var name := Trim(input);
    if name == "" then EmptyName
    else if exists t :: t in allTags && t.name == name then DuplicateName
    else Accepted(name)
  }

  /** The tag names of a list are pairwise distinct. */
  ghost predicate DistinctNames(tags: seq<Tag>)
  {
    forall i, j :: 0 <= i < j < |tags| ==> tags[i].name != tags[j].name
  }

  /** A name the check accepts keeps the names distinct once the tag is added. */
  lemma AcceptedNameKeepsNamesDistinct(input: string, allTags: seq<Tag>, id: string, now: Millis)
    requires DistinctNames(allTags)
    requires CheckNewTagName(input, allTags).Accepted?
    ensures DistinctNames(allTags + [Tag(id, CheckNewTagName(input, allTags).name, now)])
  {
    var name := CheckNewTagName(input, allTags).name;
    var tags := allTags + [Tag(id, name, now)];
    forall i, j | 0 <= i < j < |tags| ensures tags[i].name != tags[j].name {
      if j == |allTags| {
        assert tags[i] in allTags;
      }
    }
  }

  /** `handleSignup` in demo mode: the form checks, then `signup`, then `saveCurrentUser`. */
  method HandleSignup(store: DemoStore, email: string, password: string, username: string, now: Millis)
    returns (r: HandlerOutcome)
    modifies store
    ensures SignupGuard(email, password, username).Some? ==>
      r == Refused(SignupGuard(email, password, username).value)
    ensures SignupGuard(email, password, username).None? ==>
      var (result, users) := Signup(old(store.GetUsers()), email, password, username, now);
      && (result.Failure? ==> r == AuthFailed(result.error))
      && (result.Success? ==>
            && r == SignedIn(result.value)
            && store.GetUsers() == users
            && store.GetCurrentUser() == Some(result.value))
    ensures !r.SignedIn? ==> store.usersItem == old(store.usersItem) && store.currentUserItem == old(store.currentUserItem)
    ensures store.messagesItem == old(store.messagesItem) && store.tagsItem == old(store.tagsItem)
    ensures store.settingsItem == old(store.settingsItem)
  {
    var guard := SignupGuard(email, password, username);
    if guard.Some? {
      return Refused(guard.value);
    }
    var result := store.DemoSignup(email, password, username, now);
    if result.Failure? {
      return AuthFailed(result.error);
    }
    store.SaveCurrentUser(Some(result.value));
    r := SignedIn(result.value);
  }

  /** `handleLogin` in demo mode: the form check, then `login`, then `saveCurrentUser`. */
  method HandleLogin(store: DemoStore, email: string, password: string) returns (r: HandlerOutcome)
    modifies store
    ensures LoginGuard(email, password).Some? ==> r == Refused(MissingField)
    ensures LoginGuard(email, password).None? ==>
      var result := Login(old(store.GetUsers()), email, password);
      && (result.Failure? ==> r == AuthFailed(result.error))
      && (result.Success? ==> r == SignedIn(result.value) && store.GetCurrentUser() == Some(result.value))
    ensures !r.SignedIn? ==> store.currentUserItem == old(store.currentUserItem)
    ensures store.usersItem == old(store.usersItem) && store.messagesItem == old(store.messagesItem)
    ensures store.tagsItem == old(store.tagsItem) && store.settingsItem == old(store.settingsItem)
  {
    if LoginGuard(email, password).Some? {
      return Refused(MissingField);
    }
    var result := store.DemoLogin(email, password);
    if result.Failure? {
      return AuthFailed(result.error);
    }
    store.SaveCurrentUser(Some(result.value));
    r := SignedIn(result.value);
  }

  /**
   * `sendMessage` in demo mode. `imageUrl` is the data URL of the selected
   * image file, `None` when no file is selected; `idClock` and `now` are the
   * two clock reads `addMessage` makes.
   */
  method SendMessage(store: DemoStore, currentUser: Option<User>, input: string,
                     imageUrl: Option<string>, idClock: Millis, now: Millis) returns (sent: Option<Record>)
    modifies store
    ensures sent.Some? <==> ShouldSend(currentUser.Some?, input, imageUrl.Some?)
    ensures sent.None? ==> store.messagesItem == old(store.messagesItem)
    ensures sent.Some? ==>
      && sent.value == StampMessage(OutgoingMessage(currentUser.value, Trim(input), imageUrl), idClock, now)
      && store.GetMessages() == old(store.GetMessages()) + [sent.value]
    ensures store.usersItem == old(store.usersItem) && store.currentUserItem == old(store.currentUserItem)
    ensures store.tagsItem == old(store.tagsItem) && store.settingsItem == old(store.settingsItem)
  {
    if currentUser.None? {
      return None;
    }
    var text := Trim(input);
    if text == "" && imageUrl.None? {
      return None;
    }
    var message := store.AddMessage(OutgoingMessage(currentUser.value, text, imageUrl), idClock, now);
    sent := Some(message);
  }
}
