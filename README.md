# Audit trail of a compliance-audit web app, in Dafny

This project models the audit-trail core of a small Django app that tracks the
systems under audit and records who did what. The model covers:

- the app's four record shapes (`System`, `UserProfile`, `AccessLog`, `ChangeLog`),
  their fixed event and change codes, and their string forms;
- the three change observers that append a `ChangeLog` row after a System save, a
  System delete and a UserProfile save;
- the admin form's attribution step, which records the requesting user as the
  system's last modifier before saving;
- the login and logout views, which append `AccessLog` rows, and the resolution of
  the client address from the `X-Forwarded-For` header;
- the dashboard's "newest ten" queries and the row data of the compliance report's
  two tables;
- the database's on-delete rules when a user is deleted.

The database is one object, `Store.AuditStore`. It has the two tables, the two
append-only logs, the user table they refer to, an id counter per table and a
logical clock. Its invariant `Valid()` says four things:

- rows are keyed by their ids;
- every user reference names an existing user;
- a user has at most one profile;
- each log is in creation order: ids strictly increase and timestamps never
  decrease.

Saving or deleting a record calls the matching observer as its last step, as the
framework's signals do.

Modules, in dependency order:

- `Models` (models.dfy): the records, the event and change codes with their
  display labels, and the string forms.
- `Trail` (trail.dfy): generic facts about an append-only log:
  - creation order, and that it survives an append or the removal of one user's
    rows;
  - the "newest N by descending timestamp" query.
- `Signals` (signals.dfy): the row each change observer asks to create, and its
  changeset text.
- `Store` (store.dfy): the store class, the observers as methods, record saves and
  deletes, and user deletion.
- `Views` (views.dfy): client address, login, logout, dashboard and report rows.
- `Admin` (admin.dfy): the System admin's `save_model`.

Inputs from outside the program are parameters:

- the outcome of credential checking (the authenticated user, if any);
- whether the request is a POST;
- the header and remote address;
- the currently signed-in user.

Time is the store's logical `clock`. Each new log row is stamped with its current
value, and only `Tick` advances it, so two rows may share a timestamp.

Three behaviours of the code shape the model:

- **Access history on user deletion.** `AccessLog.user` is declared with
  `on_delete=CASCADE` (audit/models.py:31), so `DeleteUser` removes a deleted
  user's access events rather than keeping them with a null user. Access events
  that never had a user stay.
- **Null actor on a System change.** The System observers pass the nullable
  `last_modified_by` into the non-nullable `ChangeLog.user` (audit/signals.py:10,20
  with audit/models.py:47), so that insert fails when the system has no last
  modifier. The model returns `Err(NullActor)` and leaves the store as it was: the
  operation and its log row are one unit of work. `Store.OrphanedSystemDeletionFails`
  shows one consequence. A system last modified by a user who has since been
  deleted cannot be deleted while its last modifier stays null; a save that
  names a last modifier, such as the admin form's (audit/admin.py:10), makes it
  deletable again.
- **Equal timestamps.** The dashboard and the report order the logs by
  `-timestamp` alone (audit/views.py:16-17,119), with no second key.
  `Trail.IsNewestFirst` therefore allows any order among rows with equal
  timestamps.

## Model

| member | source | states |
|---|---|---|
| Models.ParseEventType | audit/models.py:24-30 | a code parses only to the event type whose stored code it is |
| Models.EventCodeRoundTrip | audit/models.py:24-30 | every event type is recovered from its stored code, so the five codes are distinct |
| Models.DisplayEventType | audit/models.py:24-30 | the display of a stored event code is the label paired with it among the choices |
| Models.EventLabelsDistinct | audit/models.py:24-30 | distinct event types have distinct display labels |
| Models.ParseChangeType | audit/models.py:42-46 | a code parses only to the change type whose stored code it is |
| Models.ChangeCodeRoundTrip | audit/models.py:42-46 | every change type is recovered from its stored code, so the three codes are distinct |
| Models.ChangeLabelsDistinct | audit/models.py:42-46 | distinct change types have distinct display labels |
| Models.PastTense | audit/signals.py:14 | the lower-cased change code followed by "d" is "created", "updated" or "deleted" |
| Models.ProfileStrTellsRoles | audit/models.py:19-20 | two profiles of the same username have the same string form exactly when their roles are equal |
| Models.AccessLogStr | audit/models.py:37-38 | an access event's string form starts with the rendered timestamp and ends with the event code |
| Models.ChangeLogStr | audit/models.py:54-55 | a change event's string form starts with the rendered timestamp and ends with the change code |
| Trail.AppendChronological | audit/models.py:33 | appending a row with the next id, stamped with the current clock, keeps the log in creation order |
| Trail.Without | audit/models.py:31 | removing one user's rows never lengthens the log |
| Trail.WithoutMembers | audit/models.py:31 | a row survives the removal exactly when it was in the log and does not refer to the deleted user (rows with a null user stay) |
| Trail.WithoutChronological | audit/models.py:47 | removing one user's rows keeps the remaining rows in creation order |
| Trail.ReverseMultiset | audit/views.py:16 | reversing the selected rows keeps the same rows |
| Trail.RecentRows | audit/views.py:16-17 | the newest-N answer has min(N, size) rows, the k-th being the k-th row from the end of the log |
| Trail.RecentIsNewestFirst | audit/views.py:16-17 | on a log with non-decreasing timestamps, the newest-N answer has min(N, size) distinct rows of the log, in non-increasing timestamp order, and no row left out is newer than a row kept |
| Signals.SaveAction | audit/signals.py:8 | the change type is CREATE exactly when the save created the row, and never DELETE |
| Signals.SystemChange | audit/signals.py:6-15 | a System save's row is attributed to the system's last modifier, has the save's CREATE/UPDATE type, model name "System" and the system's id; there is no valid row when the last modifier is null |
| Signals.SystemChangeText | audit/signals.py:14 | the changeset is "System '<name>' was created" or "... was updated", then ". Description: " and the description |
| Signals.SystemChangesetTellsAction | audit/signals.py:14 | the texts for creating and for updating the same system differ |
| Signals.SystemDeletion | audit/signals.py:17-25 | a System delete's row is attributed to the stored last modifier, is a DELETE of model "System" with the system's id; none when the last modifier is null |
| Signals.SystemDeletionText | audit/signals.py:24 | the changeset is "System '<name>' was deleted" |
| Signals.ProfileChange | audit/signals.py:27-36 | a profile save's row is attributed to the profile's own user, has the save's CREATE/UPDATE type, model name "UserProfile" and the profile's id |
| Signals.ProfileChangeText | audit/signals.py:35 | the changeset names the username, "created" or "updated", the role and the department |
| Store.SetNullOnDelete | audit/models.py:8 | after deleting a user, every system keeps its key, id, name and description, and its last modifier is nulled exactly when it was that user |
| Store.CascadeOnDelete | audit/models.py:15 | after deleting a user, a profile remains exactly when it belongs to someone else, unchanged |
| Store.OrphanedSystemDeletionFails | audit/signals.py:17-25 | a system whose last modifier was deleted has a null last modifier, so its delete observer has no valid row |
| Store.SetNullKeepsSystemsOk | audit/models.py:8 | the SET_NULL rule keeps the System table's integrity |
| Store.CascadeKeepsProfilesOk | audit/models.py:15 | the CASCADE rule keeps profiles keyed, owned by known users and one per user |
| Store.CascadeKeepsAccessOk | audit/models.py:31 | the CASCADE rule keeps the access log's references and creation order |
| Store.CascadeKeepsChangesOk | audit/models.py:47 | the CASCADE rule keeps the change log's references and creation order |
| Store.DeleteRulesUnreference | audit/models.py:8-47 | after the four delete rules no system, profile, access event or change event refers to the deleted user |
| Store.DropUnreferencedUser | audit/models.py:8-47 | a user no row refers to can be removed without breaking the store's integrity |
| Store.AuditStore.constructor | audit/models.py:5-55 | the store starts with empty tables and logs and satisfies its invariant |
| Store.AuditStore.CreateAccessLog | audit/models.py:23-38 | creating an access event appends exactly one row, with the next id and the current clock as timestamp, and leaves earlier rows unchanged |
| Store.AuditStore.CreateChangeLog | audit/models.py:41-55 | creating a change event appends exactly one row, with the next id and the current clock as timestamp, and leaves earlier rows unchanged |
| Store.AuditStore.LogSystemChange | audit/signals.py:6-15 | the save observer appends exactly the row `SystemChange` describes, or fails with NullActor and appends nothing |
| Store.AuditStore.LogSystemDeletion | audit/signals.py:17-25 | the delete observer appends exactly the row `SystemDeletion` describes, or fails with NullActor and appends nothing |
| Store.AuditStore.LogUserProfileChange | audit/signals.py:27-36 | the profile observer always appends exactly the row `ProfileChange` describes, with the owner's username |
| Store.AuditStore.PutSystem | audit/models.py:5-8 | writing a system inserts or replaces its row under its id |
| Store.AuditStore.SaveSystem | audit/signals.py:6-15 | a save with a last modifier writes the row and appends one CREATE (new key) or UPDATE row; a save without a key inserts under a fresh key, so it is always a CREATE; with a null last modifier it fails and changes nothing |
| Store.AuditStore.DeleteSystem | audit/signals.py:17-25 | a delete removes the row and appends one DELETE row attributed to the stored last modifier; with a null last modifier it fails and changes nothing |
| Store.AuditStore.PutProfile | audit/models.py:14-17 | writing a profile inserts or replaces its row under its id |
| Store.AuditStore.SaveProfile | audit/models.py:15 | a second profile for a user is refused with nothing changed; otherwise the profile is written (under a fresh key when it has none) and one CREATE/UPDATE row attributed to its owner is appended |
| Store.AuditStore.DeleteProfile | audit/signals.py:27-36 | deleting a profile removes it and appends no change row, since no observer listens for it |
| Store.AuditStore.CascadeLogs | audit/models.py:31-47 | the CASCADE rule removes the user's rows from both logs and keeps the invariant |
| Store.AuditStore.ReleaseTables | audit/models.py:8-15 | the SET_NULL rule on systems and the CASCADE rule on profiles, keeping the invariant |
| Store.AuditStore.RemoveAccount | audit/models.py:8-47 | an unreferenced user is removed from the user table, keeping the invariant |
| Store.AuditStore.DeleteUser | audit/models.py:8-47 | deleting a user removes the account, nulls their systems' last modifier, and removes their profile and their rows of both logs; nothing is appended and the invariant holds |
| Views.Split | audit/views.py:161 | the pieces of a split contain no separator, and the first piece is the prefix before the first separator |
| Views.SplitJoin | audit/views.py:161 | joining the pieces of a split gives back the text |
| Views.JoinSplit | audit/views.py:161 | splitting a join of separator-free pieces gives back the pieces |
| Views.ClientIp | audit/views.py:158-164 | with a non-empty forwarded header, the address is the comma-free prefix that ends at the first comma or at the end; otherwise it is the remote address, possibly absent |
| Views.ClientIpIsFirstField | audit/views.py:159-161 | that prefix is unique, so it is what the address resolution returns |
| Views.ClientIpOfProxyChain | audit/views.py:161 | "1.2.3.4, 5.6.7.8" resolves to "1.2.3.4" |
| Views.ClientIpOfNothing | audit/views.py:160-163 | with no usable header and no remote address there is no address |
| Views.LoginRecord | audit/views.py:36-55 | a login event is LOGIN_SUCCESS with the authenticated user, or LOGIN_FAIL with no user, and carries the resolved address |
| Views.LoginDetailsText | audit/views.py:42-54 | the details texts of a successful and a failed login, with an absent address written "None" |
| Views.FailedLoginNamesAttempt | audit/views.py:54 | a failed login's details contain the attempted username and the address |
| Views.LogoutRecord | audit/views.py:64-69 | a logout event is LOGOUT for the signed-in user, with the resolved address and the fixed details text |
| Views.UserLogin | audit/views.py:27-59 | a non-POST request appends nothing and signs nobody in; a POST appends exactly one login event and signs in the authenticated user, if any |
| Views.UserLogout | audit/views.py:61-73 | a signed-in user's logout appends exactly one LOGOUT event; an anonymous one appends nothing |
| Views.Dashboard | audit/views.py:14-25 | the dashboard shows every system, their count, and the newest ten rows of each log by descending timestamp |
| Views.OrNotAvailable | audit/views.py:126 | an absent or empty text shows as 'N/A', any other text as itself |
| Views.AccessRowShows | audit/views.py:122-127 | an access row shows the timestamp, the username or 'N/A', the event's display label, and the address or 'N/A' |
| Views.EventColumnDeterminesType | audit/views.py:125 | two access rows with the same event column are about the same event type |
| Views.SystemsTable | audit/views.py:98-101 | the systems table is the header row plus exactly one name/description row per system, each system once |
| Views.AccessTable | audit/views.py:119-127 | the access table is the header row plus one row for each of the newest twenty access events by descending timestamp |
| Views.AccessRows | audit/views.py:120-127 | the header row, then one row per given event, in order |
| Admin.SaveModel | audit/admin.py:9-11 | an admin save always succeeds: the saved system has the submitted name and description and the requester as last modifier, the add form (no key) inserts a new row and logs a CREATE, and the one appended CREATE/UPDATE row is attributed to the requester |

## Left out

- PDF construction and styling, the byte buffer and the HTTP response of the compliance report (audit/views.py:77-155). These are calls into a PDF library; only the data of the two tables is modelled.
- The report's "Generated on" line and the printed form of timestamps (`strftime`). The wall clock is replaced by the logical clock, and a timestamp cell is `Time(n)`.
- Request handling: rendering, redirects, flash messages, and the session changes of `login`/`logout`. `UserLogin` returns the user it signs in; `UserLogout` does not model the session.
- Credential checking (`authenticate`) is an input: the user the credentials authenticate, if any.
- Views.UserLogin: a POST missing the `username` or the `password` field raises inside the view when the field is read (audit/views.py:29-30), before anything is logged. The method's inputs cannot express a missing field, so that error path is not modelled.
- Signal registration: the observers are called explicitly as the last step of each save and delete.
- Transactions: a save or delete and its observer's row form one unit of work, and a failed observer leaves the store unchanged. Under autocommit the System row would persist without a change row; that path is not modelled.
- Validation of the address column (`GenericIPAddressField`) and the `max_length` limits. The model stores any text.
- The admin's list, search and filter settings. The stock admins of the other three models are not modelled. Two consequences:
  - Editing or deleting log rows through the admin is not modelled.
  - The UserProfile admin adds no attribution, so its saves are `SaveProfile`, attributed to the profile's owner.
- Saving a system or profile with a user reference that does not exist, and deleting a system that is not stored, are excluded by preconditions. The database's foreign-key check rejects the first; the second has no row to delete.
- Lower-casing is modelled for ASCII letters only. It is applied only to the fixed change codes.
- Models.AccessLogStr: the rendering of the timestamp and the user is a parameter, so only the text's start and its trailing code are stated.
- Models.ChangeLogStr: the rendering of the timestamp and the user is a parameter, so only the text's start and its trailing code are stated.
- Views.SystemsTable: the database returns systems in no fixed order. The table is stated for the order the loop picks, which lists every system once.
- Models.SystemStr: a system's string form is its name, which is its whole definition; no further property is stated.
