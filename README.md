# Consultation service: demo store and message rules

This project models the core of a small consultation chat application in Dafny.
Users sign up, sign in and post messages. An administrator tags messages,
filters them, deletes tags and merges duplicate messages.

- `demo-auth.js` is the browser-local "demo" back end the application falls back on when no cloud service is configured.
  - It keeps five `localStorage` items (partitions): a users table keyed by email, the current-user slot, the message list, the tag list and the per-user settings.
  - On top of these partitions it implements signup, login, logout, message append, tag append and delete, and a shallow-merge upsert for settings.
  - It is modelled as the class `DemoAuth.DemoStore`.
    - Each partition is one `Option` field; `None` means the key is absent: never written, or removed by `saveCurrentUser(null)`.
    - Each operation is a method with a `modifies` clause.
    - The identity, message, tag-delete and settings operations are specified by pure functions (`Signup`, `Login`, `StampMessage`, `WithoutTag`, `MergeSettings`). Their properties are stated as `ensures` clauses and lemmas.
    - The partition writes, logout and tag append state their new state directly.
- `app.js` is mixed code.
  - Its data rules are pure functions: the signup, login and send guards, the duplicate tag-name check, add-if-absent and remove on a tag list, the tag union of a merge, the filter predicate, and tag rendering with unknown ids.
  - The module-level `allMessages`, `allTags` and `filteredMessages` are the fields of the class `AdminPanel.AdminView`.
  - The per-message write loops of `deleteTag` and `mergeSelectedMessages` are methods with loop invariants.

Modules:

| file | module | models |
|---|---|---|
| wrappers.dfy | `Wrappers` | `Option` and `Result` |
| ids.dfy | `Ids` | ids of the form prefix + `Date.now()` in decimal |
| seqs.dfy | `Seqs` | `Array.prototype.filter` and facts about it |
| text.dfy | `Text` | `String.prototype.trim`, `toLowerCase`, `includes` and `length` |
| demo_auth.dfy | `DemoAuth` | `demo-auth.js` |
| tag_rules.dfy | `TagRules` | the tag-list rules of `app.js` |
| app_guards.dfy | `AppGuards` | the input guards and the demo-mode handlers of `app.js` |
| admin_panel.dfy | `AdminPanel` | the administrator page of `app.js` |

Modelling choices:

- **Clock.** Each clock read is a parameter (milliseconds). `addMessage` and `addTag` read the clock twice, once for the id (`Date.now()`) and once for the timestamp (`new Date()`), so they take two readings, `idClock` and `now`, which may differ. An id is the prefix followed by the decimal digits of its reading; `Ids.DecimalRoundTrip` proves the digits read back as that number. `Ids.GeneratedIdsCollideIffSameMillisecond` proves that two ids are equal exactly when the clock readings are equal. So two signups, messages or tags in the same millisecond get the same id; nothing makes ids unique.
- **Records.** A JavaScript object built with spread syntax (`{ id, ...message, timestamp }`, `{ ...previous, ...settings, updatedAt }`) is a `map<string, Value>`. The spreads are map unions, so later keys win as in JavaScript.
- **Absent tags.** An administrator message document without `tags` is held with the empty list. Every rule in `app.js` treats the two alike (`msg.tags && ...`, `tags || []`).
- **Cloud writes.** A cloud write followed by `loadAllMessages()` is modelled as the same write applied to `allMessages`, followed by `filteredMessages := allMessages`. Writes go to the message with that document id, which is unique in the collection: this is the invariant `AdminView.Valid`.

Two consequences of the code as written:

- User ids are not unique: `'user_' + Date.now()` gives two signups in the same millisecond one `uid` (see `Ids.GeneratedIdsCollideIffSameMillisecond`). The same holds for message and tag ids.
- The demo store's `deleteTag` (`demo-auth.js`) does not cascade: it only rewrites the tag list, and messages keep the id. The administrator page's `deleteTag` (`app.js`) cascades over the message documents. Both are modelled as written: `DemoAuth.DemoStore.DeleteTag` and `AdminPanel.AdminView.DeleteTag`. A message that still lists a deleted id renders an empty entry there (`AdminPanel.DeletedTagRendersBlank`).

## Model

| member | source | states |
|---|---|---|
| Ids.GeneratedId | demo-auth.js:45 | a generated id is its prefix followed by a non-empty string of decimal digits, without a leading zero, whose value is the clock reading |
| Ids.GeneratedIdsCollideIffSameMillisecond | demo-auth.js:45 | two ids with the same prefix are equal if and only if they were generated in the same millisecond |
| Ids.DigitChar | demo-auth.js:45 | a digit below ten is written as a character `0`..`9` whose value is that digit |
| Ids.Decimal | demo-auth.js:45 | a clock reading is written as a non-empty string of digits, one digit exactly below ten, starting with `0` only for zero |
| Ids.DecimalRoundTrip | demo-auth.js:97 | reading the digits of a rendered clock reading back gives the reading |
| Ids.DecimalInjective | demo-auth.js:121 | distinct clock readings are written as distinct digit strings |
| DemoAuth.DemoStore.GetUsers | demo-auth.js:12-15 | an absent users item reads as the empty table |
| DemoAuth.DemoStore.SaveUsers | demo-auth.js:18-20 | the users item holds the given table; no other item changes |
| DemoAuth.DemoStore.GetCurrentUser | demo-auth.js:23-26 | an absent current-user item reads as `null` |
| DemoAuth.DemoStore.SaveCurrentUser | demo-auth.js:29-35 | `getCurrentUser()` then returns the saved user, or `null` after saving `null`; no other item changes |
| DemoAuth.NewUser | demo-auth.js:45-51 | the new user has the email, `username` as both username and display name, and a uid that is `user_` followed by the digits of the clock reading |
| DemoAuth.Signup | demo-auth.js:38-60 | fails exactly when the email is in the table, with `auth/email-already-in-use` and the table unchanged; otherwise adds exactly one entry `{password, user}` for the email, where the user has that email, `displayName = username = username` and the clock-derived uid, and every other entry is unchanged |
| DemoAuth.DemoStore.DemoSignup | demo-auth.js:38-60 | the outcome and the new table are those of `Signup` on the old table; a refusal writes nothing; no other item changes |
| DemoAuth.Login | demo-auth.js:63-75 | `auth/user-not-found` exactly when the email is absent; `auth/wrong-password` exactly when the email is present and the stored password differs; otherwise the stored user |
| DemoAuth.DemoStore.DemoLogin | demo-auth.js:63-75 | the result is `Login` on the stored table; nothing changes |
| DemoAuth.LoginAfterSignup | demo-auth.js:38-75 | a login with the signup's password returns the user the signup created |
| DemoAuth.LoginWithOtherPasswordAfterSignup | demo-auth.js:53-56 | after a signup, any other password for that email is refused with `auth/wrong-password` |
| DemoAuth.SignupKeepsOtherLogins | demo-auth.js:53-56 | a signup changes no login outcome for any other email |
| DemoAuth.SignupTwiceRefused | demo-auth.js:41-43 | a second signup with the same email is refused and leaves the table as the first signup left it |
| DemoAuth.SignupLoginScenario | demo-auth.js:38-75 | in a fresh store, signup and then login with the same password return the same user, and a wrong password is refused |
| DemoAuth.DemoStore.DemoLogout | demo-auth.js:78-80 | the current-user slot reads `null` afterwards, whatever it held, so a second logout changes nothing; no other item changes |
| DemoAuth.DemoStore.GetMessages | demo-auth.js:83-86 | an absent message item reads as `[]` |
| DemoAuth.DemoStore.SaveMessages | demo-auth.js:89-91 | the message item holds the given list; no other item changes |
| DemoAuth.StampMessage | demo-auth.js:96-100 | the record has the caller's keys plus `id` and `timestamp`; `timestamp` is the second clock reading; `id` is the caller's when supplied and the `msg_` id of the first clock reading otherwise; every other field is the caller's |
| DemoAuth.DemoStore.AddMessage | demo-auth.js:94-104 | the list grows by exactly the record stamped with the two clock readings, at the end, and that record is returned; no other item changes |
| DemoAuth.DemoStore.GetTags | demo-auth.js:107-110 | an absent tag item reads as `[]` |
| DemoAuth.DemoStore.AddTag | demo-auth.js:118-128 | appends `{id, name, createdAt}` with the `tag_` id of the first clock reading and the second as `createdAt`, whatever names exist already, and returns it; no other item changes |
| DemoAuth.WithoutTag | demo-auth.js:133 | keeps exactly the tags whose id differs, each as many times as it occurs, in their order; drops every tag with the id; is the identity when no tag has the id |
| DemoAuth.WithoutTagIdempotent | demo-auth.js:131-135 | deleting the same tag id twice equals deleting it once |
| DemoAuth.DemoStore.DeleteTag | demo-auth.js:131-135 | the tag item is written back as `WithoutTag` of the old list; no other item changes |
| DemoAuth.DemoStore.AllSettings | demo-auth.js:139-140 | an absent settings item reads as `{}` |
| DemoAuth.DemoStore.GetUserSettings | demo-auth.js:138-142 | an unknown user's settings read as `{}` |
| DemoAuth.MergeSettings | demo-auth.js:148-152 | keys in the new settings overwrite; keys only in the old record are kept; `updatedAt` is the clock reading; no other key appears |
| DemoAuth.MergeSettingsTwice | demo-auth.js:145-154 | saving the same settings again only moves `updatedAt` |
| DemoAuth.DemoStore.SaveUserSettings | demo-auth.js:145-154 | the user's record becomes `MergeSettings` of the old record (or `{}`); every other user's settings are unchanged; no other item changes |
| Seqs.Filter | app.js:932-936 | the result keeps exactly the elements satisfying the predicate, each of them satisfies it, and it is no longer than the input |
| Seqs.FilterCounts | demo-auth.js:133 | every element that passes is kept as many times as it occurs, and no other element is kept |
| Seqs.FilterDropsOne | app.js:1081 | filtering out one value shortens the list by exactly its number of occurrences |
| Seqs.FilterIsSubsequence | app.js:1080-1081 | a filter keeps the surviving elements in their original order |
| Seqs.FilterKeepsAll | demo-auth.js:133 | a filter that every element passes returns the input unchanged |
| Seqs.FilterNoDup | app.js:1081 | filtering a duplicate-free list gives a duplicate-free list |
| Seqs.FilterConcat | app.js:1081 | filtering a concatenation is the concatenation of the filtered parts |
| Seqs.FilterFirst | app.js:1118-1121 | the first element a filter keeps is the first element of the input that passes, and nothing before it passes |
| Text.Trim | app.js:618 | the trimmed text is no longer than the input and neither starts nor ends with a trimmable character; `Text.TrimIsInnerSlice` pins it to the inner slice |
| Text.TrimStart | app.js:618 | removes exactly the leading JavaScript whitespace |
| Text.TrimEnd | app.js:618 | removes exactly the trailing JavaScript whitespace |
| Text.TrimIsInnerSlice | app.js:618 | the trimmed text is a contiguous slice of the input, and every character cut off is whitespace |
| Text.TrimEmptyIff | app.js:878-881 | the trimmed text is empty if and only if every character is whitespace |
| Text.Lower | app.js:964 | lower-casing keeps the length and maps each character by the ASCII case rule |
| Text.LowerIdempotent | app.js:964 | lower-casing twice equals lower-casing once |
| Text.Includes | app.js:977 | a prefix is always included, and an included needle is never longer than the text; `Text.IncludesIffOccurs` gives the full characterisation |
| Text.IncludesIffOccurs | app.js:975-976 | `includes` holds if and only if the needle occurs at some position of the text |
| Text.Utf16Length | app.js:222 | the length in UTF-16 code units is between the number of characters and twice that |
| AppGuards.ShouldSend | app.js:615-622 | a message goes ahead exactly when someone is signed in and there is an image or a character of the input that `trim` would not remove |
| AppGuards.SignupGuard | app.js:217-225 | refused with a missing field exactly when email, password or username is empty; refused as too short exactly when all are present and the password has fewer than 6 code units; accepted otherwise |
| AppGuards.PasswordLengthByCharacters | app.js:222 | six characters always satisfy the length rule and two never do |
| AppGuards.LoginGuard | app.js:308-311 | refused exactly when email or password is empty |
| AppGuards.HandleSignup | app.js:212-251 | the guard's refusal comes first and touches nothing; then signup's failure touches nothing; a success stores the new table and the signed-in user; messages, tags and settings never change |
| AppGuards.HandleLogin | app.js:304-336 | the guard's refusal comes first; then login's outcome; only a success changes the current-user slot; the users table and the other items never change |
| AppGuards.ShownName | app.js:643 | the display name when it is non-empty, the email otherwise |
| AppGuards.OutgoingMessage | app.js:638-644 | the record holds the trimmed text, the image URL or `null`, and the sender's uid, email and shown name, and neither `id` nor `timestamp` |
| AppGuards.SentMessageIsStamped | app.js:638-644 | a sent message carries the `msg_` id of the first clock reading, the second as its timestamp, the sender's uid and the text |
| AppGuards.BlankInputIsNotSent | app.js:622 | an input of whitespace only, with no image, is never sent |
| AppGuards.SendMessage | app.js:614-659 | a message is appended exactly when someone is signed in and there is trimmed text or an image; the appended record is the stamped outgoing message; nothing else changes |
| AppGuards.CheckNewTagName | app.js:878-890 | rejected as empty exactly when the trimmed name is empty; rejected as a duplicate exactly when some existing tag has exactly that name (case-sensitive); an accepted name is the trimmed, non-empty, new name |
| AppGuards.AcceptedNameKeepsNamesDistinct | app.js:884-894 | adding an accepted name to a list with distinct names keeps the names distinct |
| TagRules.AddTagIfAbsent | app.js:1057-1061 | the id is present afterwards; the old list is a prefix of the result; at most one id is added; nothing changes when the id is already present; no duplicates are introduced |
| TagRules.AddTagIfAbsentIdempotent | app.js:1057-1061 | adding the same id twice equals adding it once |
| TagRules.RemoveTag | app.js:1081 | every occurrence of the id is gone; every other id is kept as many times as it occurs, in order; the list shrinks by exactly the id's occurrences; nothing changes when the id is absent; no duplicates are introduced |
| TagRules.RemoveUndoesAdd | app.js:1057-1081 | removing an id just added to a list that did not hold it gives the list back |
| TagRules.RemoveTagIdempotent | app.js:1081 | removing the same id twice equals removing it once |
| TagRules.AddAll | app.js:1125-1128 | adding ids to a Set keeps the ids already there, in order, holds exactly the old and the new ids, and has no duplicates |
| TagRules.AddAllDistinct | app.js:1125 | a duplicate-free list added to an empty Set comes back unchanged |
| TagRules.UnionInto | app.js:1126-1130 | the Set holds exactly its old ids and the ids of every other message, old ones first, without duplicates |
| TagRules.FirstIndex | app.js:1125-1130 | the position of the first occurrence of an id in a list |
| TagRules.AddAllInsertionOrder | app.js:1125-1128 | the ids a Set receives after its old ones read back in the order of their first occurrence among the added ids |
| TagRules.Flatten | app.js:1126-1128 | the concatenated lists hold exactly the ids of the lists |
| TagRules.AddAllConcat | app.js:1126-1128 | adding two lists to a Set one after the other is adding their concatenation |
| TagRules.UnionIntoFlattens | app.js:1126-1130 | adding the other messages' lists in turn is adding their concatenation |
| TagRules.TagUnion | app.js:1125-1130 | the union holds exactly the target's ids and the other messages' ids, without duplicates; it starts with the target's ids in the Set's order (`new Set(targetTags)`), which are the target's tags themselves when distinct |
| TagRules.TagUnionInInsertionOrder | app.js:1125-1137 | the merged list is `Array.from` of one Set fed the target's tags and then every other message's tags: each id once, in the order of its first occurrence |
| AdminPanel.Matches | app.js:966-983 | with both filters empty every message passes; a passing message lists the selected tag and is at least as long as a non-empty search text; `AdminPanel.FilterView` states the test in both directions |
| AdminPanel.FilterView | app.js:962-986 | a message is shown if and only if it is in the collection, (no tag is selected or it lists the tag), and (the search is empty or its lower-cased text includes the lower-cased search); the order is kept, and each shown message as many times as the collection holds it |
| AdminPanel.EmptyFiltersShowAll | app.js:989-994 | with no tag selected and no search text, every message is shown in order |
| AdminPanel.SearchIgnoresInputCase | app.js:964 | lower-casing the search input first changes nothing |
| AdminPanel.FindTag | app.js:1041 | no tag is found exactly when no tag has the id; a found tag is the first with that id |
| AdminPanel.RenderTagId | app.js:1041-1044 | the entry for one id is empty exactly when no tag has that id; otherwise it shows the name of the first tag with that id, for this message and id |
| AdminPanel.RenderMessageTags | app.js:1036-1046 | "no tags" exactly when the message lists none; otherwise one entry per listed id, empty exactly when no tag has that id, else that tag's name with a remove button for this message and id |
| AdminPanel.DeletedTagRendersBlank | app.js:1041-1043 | once a tag is deleted, a message still listing its id renders an empty entry there instead of failing |
| AdminPanel.StripTag | app.js:932-936 | the message no longer lists the id, its other ids are kept, and a message without the id is unchanged |
| AdminPanel.CascadeDeleteTag | app.js:930-936 | afterwards no message lists the id; only messages that listed it change, and only in their tags; ids and positions are kept |
| AdminPanel.CascadeIdempotent | app.js:930-936 | a second cascade for the same id changes nothing |
| AdminPanel.SelectedMessages | app.js:1119 | keeps exactly the messages whose id was ticked, in collection order; ids stay unique |
| AdminPanel.SelectedMessagesCounts | app.js:1119 | each ticked message is kept as many times as the collection holds it, and no other message is kept |
| AdminPanel.PlanMerge | app.js:1119-1131 | there is no plan exactly when no message of the collection is ticked; otherwise target plus others are the selection; the target, others and union are stated by `AdminPanel.TargetNotAmongOthers`, `AdminPanel.MergeTargetIsFirstSelected`, `AdminPanel.MergedTagsAreUnion` and `AdminPanel.PlanMergeKeepsCollectionOrder` |
| AdminPanel.PlanMergeKeepsCollectionOrder | app.js:1119-1138 | the target and the others are in collection order, so `mergedFrom` lists the other ids in that order |
| AdminPanel.WriteTarget | app.js:1135-1140 | the write changes only `tags`, `mergedFrom` and `mergedAt`, only on the target, and stamps `mergedAt` with the clock reading and one `mergedFrom` id per other message |
| AdminPanel.MarkMerged | app.js:1144-1148 | the write sets `mergedInto` to the target id and `isMerged`, and changes no other field |
| AdminPanel.MarkById | app.js:1144-1148 | one write marks the messages with that id and keeps every other message |
| AdminPanel.ApplyMerge | app.js:1135-1148 | the target write followed by one write per merged-away id yields `MergeResult`, and ids stay unique |
| AdminPanel.FilterKeepsUniqueIds | app.js:1118 | filtering a collection with unique ids keeps them unique |
| AdminPanel.MergeResult | app.js:1133-1147 | the merge keeps every position and every id of the collection |
| AdminPanel.TargetNotAmongOthers | app.js:1121-1122 | the target's id is not among the merged-away ids |
| AdminPanel.OthersAreTheRestOfSelection | app.js:1121-1122 | a message is merged away exactly when it is selected and is not the target |
| AdminPanel.MergeTargetIsFirstSelected | app.js:1121 | the target is the first message of the collection whose id was ticked |
| AdminPanel.MergeWritesTarget | app.js:1133-1138 | the target gets the tag union, the merged-away ids as `mergedFrom` and the merge time, and keeps its other fields |
| AdminPanel.MergeMarksOthers | app.js:1141-1147 | every other selected message gets `mergedInto` = the target's id and `isMerged`, and keeps its tags and text |
| AdminPanel.MergeLeavesUnselected | app.js:1118-1147 | a message that was not ticked is unchanged |
| AdminPanel.MergedTagsAreUnion | app.js:1125-1130 | the target's new tags are the union of all selected messages' tags, without duplicates, starting with the target's own in the Set's order |
| AdminPanel.WithTags | app.js:1058-1061 | the `{ tags }` merge-write gives that message the new tags and keeps its other fields; every other message and every id is unchanged, and the list keeps its length |
| AdminPanel.IndexOfId | app.js:1053-1056 | finds a message with the id exactly when the collection holds one |
| AdminPanel.MarkEach | app.js:1141-1147 | after one write per merged-away id, each message is marked exactly when its id is among them |
| AdminPanel.AdminView.constructor | app.js:816-822 | the page holds the loaded messages and tags, with the filter cleared |
| AdminPanel.AdminView.FilterMessages | app.js:962-986 | the shown list becomes `FilterView` of the collection; the collection and the tags are unchanged |
| AdminPanel.AdminView.ClearFilters | app.js:989-994 | the shown list becomes the whole collection |
| AdminPanel.AdminView.AddNewTag | app.js:876-906 | the verdict is `CheckNewTagName`; only an accepted name adds a tag, at the end; distinct names stay distinct |
| AdminPanel.AdminView.AddTagToMessage | app.js:1049-1072 | an empty id, an unknown message or an id already listed changes nothing; otherwise the id is appended to that message's tags and the shown list is reloaded |
| AdminPanel.AdminView.RemoveTagFromMessage | app.js:1074-1094 | for a known message, its tags become `RemoveTag` of them and the shown list is reloaded; otherwise nothing changes |
| AdminPanel.AdminView.DeleteTag | app.js:924-947 | unconfirmed, nothing changes; confirmed, the tag is removed from the tag list, the messages become `CascadeDeleteTag` of them, and the shown list is reloaded; ids stay unique |
| AdminPanel.AdminView.MergeSelectedMessages | app.js:1110-1159 | fewer than two ticks and no ticked id in the collection change nothing; otherwise the messages become `MergeResult` of the merge plan, the reported count is the number of selected messages, and ids stay unique |

## Left out

- User interface: DOM access, screen switching, `alert`/`confirm` and HTML string building. The tag strip is modelled as a list of chips instead of HTML.
- Cloud calls: Firebase authentication, `getDoc`/`setDoc`/`addDoc`/`getDocs`, tag document deletion, `onSnapshot`, storage uploads and `checkAdminStatus`. The cloud branches of the handlers are not modelled; the administrator page's writes are modelled as succeeding.
- Asynchrony and timers: `waitForFirebase` polling, `FileReader` (the image arrives as an already-read data URL) and the `setTimeout` message clearing.
- `JSON.stringify`/`JSON.parse` and `localStorage`: each partition is held directly. A `Date` round-trips through JSON as an ISO string, which is not modelled; it stays a clock reading.
- The clock: `Date.now()`, `new Date()` and `serverTimestamp()` are parameters (`idClock`, `now`). `formatDate`/`toLocaleString` are not modelled.
- Sorting: the timestamp sort in `loadAllMessages` and the `localeCompare` sort of `loadTags` are not modelled; the page's methods keep the collections in their old order. Positions they state hold before the reload's sort.
- AdminPanel.AdminView.AddNewTag: states the new tag at the end of `allTags`; the source's `loadTags` re-sorts the tags by name, so there the new tag takes its place in name order.
- Text.Lower: lower-cases ASCII letters only. JavaScript's `toLowerCase` also maps non-ASCII letters, so for non-ASCII text the search is modelled less broadly.
- DemoAuth.Signup: an email that names an inherited property of a plain JavaScript object (such as `constructor`) is not modelled. In the source, `users[email]` is truthy for it.
- AdminPanel.AdminView.AddTagToMessage: locates the message by id in `allMessages`, while the source re-reads the document with `getDoc` and tests `exists()` (app.js:1053-1056). The two agree when `allMessages` is current.
- AdminPanel.AdminView.RemoveTagFromMessage: locates the message the same way, while the source re-reads it with `getDoc`/`exists()` (app.js:1076-1080). The two agree when `allMessages` is current.
- AdminPanel.AdminView.DeleteTag: assumes that the tag deletion at app.js:928-929 succeeds. There `tagRef` comes from `window.firebaseFunctions.doc`, the modular API, whose `DocumentReference` has no `delete` method. If so, the call throws, the `catch` at app.js:942 reports it, and no message is rewritten. The binding of `window.firebaseFunctions` is not part of this model.
- firebase-config.js is not part of this model: it holds placeholder constants only.
- A question repository, per-question threads and an administrator roster do not exist in this code and are not modelled.
