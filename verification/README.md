# Admin panel core, modelled in Dafny

The system is a Laravel API with a React admin client. Projects own contexts,
contexts own warehouses, and warehouses hold stock rows per banner category.
Access is governed by roles and permissions. Banners are uploaded in groups.
Notifications reach users over broadcast channels and are kept in a store.

This project models the small rules of that system as pure functions over
immutable data, and proves what each rule promises:

- **Notifications.** The client list with its unread counter, including how far the counter can drift from the true unread count. Also the time labels, icons and badge of the list, the listener that stores one record per event when registered once (as registered, it stores two; see Findings), the controller's defaults, the events' channels and payloads, and the channel authorisation closures.
- **Access.** The client `hasPermission` / `hasAnyPermission` / `hasRole` checks, login, logout and restore from storage. The server `checkPermission` result, and the permission catalogue with its display names.
- **Project and context selection.** The client state machine mirrored to storage, and the server middlewares that copy the `X-Project-Id` / `X-Context-Id` headers.
- **Banners.** The upload rule that builds one root with children, the type filter, banner update, the conjunctive category filters, the category store rule, the banner picker's filter and labels, and the category modal's checks and payload.
- **Warehouse stock.** The base strategy's response and the strategy dispatch, the DTO round trips, the legacy per-category lookup, and the unique (warehouse, category) pair kept by store, update and destroy.
- **Form validators.** The stock, user, context, project and register forms, their error clearing, and the permission search filter.

Stores are sequences or maps. A missing record is an error value. The clock
and `rand` are parameters: the current time, and a roll that picks a value
in the range. Strings are `seq<char>`. JavaScript lengths are counted in
UTF-16 units, and JavaScript whitespace is the set that `\s` and `trim` use.
Empty form inputs are `None`.

Shared modules:

- `Wrappers` holds `Option` and `Result`.
- `Text` holds trimming, case mapping of ASCII and the basic Cyrillic block (the letters the modelled data uses), substring search, decimal rendering, the lenient integer reader behind `parseInt`, and PHP's `(int)` cast of a string with its exponent, truncation and 64-bit saturation.
- `Seqs` holds order-preserving filters.
- `Json` holds decoded request values.
- `Validation` holds the Laravel `integer`, `required` and `string` rules.
- `FormErrors` holds the error map every modal keeps.

## Model

| member | source | states |
|---|---|---|
| NotificationState.NewEntry | frontend/src/context/NotificationContext.jsx:18-23 | a new entry is unread and stamped now whatever the payload says; its id is the payload's own when present, otherwise the generated one; the other fields are copied |
| NotificationState.Add | frontend/src/context/NotificationContext.jsx:17-27 | the list grows by exactly one entry, the new unread entry first and the old list behind it; the counter rises by one |
| NotificationState.MarkRead | frontend/src/context/NotificationContext.jsx:30-34 | same length; an entry carrying the id becomes read and every other entry is unchanged |
| NotificationState.MarkAsRead | frontend/src/context/NotificationContext.jsx:29-36 | the matching entries are read and the counter drops by one floored at 0, whether or not anything unread matched |
| NotificationState.MarkAllRead | frontend/src/context/NotificationContext.jsx:39-41 | every entry becomes read, nothing else changes |
| NotificationState.MarkAllAsRead | frontend/src/context/NotificationContext.jsx:38-43 | every entry read in place and the counter 0 |
| NotificationState.FindById | frontend/src/context/NotificationContext.jsx:47 | none exactly when no entry carries the id; otherwise the first entry that does |
| NotificationState.RemoveId | frontend/src/context/NotificationContext.jsx:51 | keeps exactly the entries not carrying the id, in their order |
| NotificationState.ClearNotification | frontend/src/context/NotificationContext.jsx:45-53 | the entries with the id are gone; the counter drops by one (floor 0) exactly when the first such entry was unread |
| NotificationState.ClearAll | frontend/src/context/NotificationContext.jsx:55-58 | empty list, counter 0 |
| NotificationState.MarkReadUnread | frontend/src/context/NotificationContext.jsx:30-34 | marking an id read lowers the true unread number by exactly the unread entries carrying that id |
| NotificationState.RemoveIdUnread | frontend/src/context/NotificationContext.jsx:51 | removing an id lowers the true unread number by exactly the unread entries carrying that id |
| NotificationState.MarkAllReadUnread | frontend/src/context/NotificationContext.jsx:39-41 | after marking all read no entry is unread |
| NotificationState.UniqueUnreadWithId | frontend/src/context/NotificationContext.jsx:47-48 | with distinct ids at most one unread entry carries an id, and one does exactly when it is present and unread |
| NotificationState.FindUnreadIff | frontend/src/context/NotificationContext.jsx:47-48 | with distinct ids the found entry is unread exactly when some unread entry carries the id |
| NotificationState.AddKeepsCounter | frontend/src/context/NotificationContext.jsx:17-27 | adding an entry with a fresh id keeps a counter that never overshoots, and keeps it exact exactly when it was exact |
| NotificationState.MarkAsReadKeepsSound | frontend/src/context/NotificationContext.jsx:35 | the floored decrement never makes the counter exceed the true unread number |
| NotificationState.MarkAsReadExactIff | frontend/src/context/NotificationContext.jsx:29-36 | from an exact state with distinct ids the counter stays exact iff it was 0 or an unread entry carries the id; otherwise it falls exactly one behind |
| NotificationState.ClearKeepsCounter | frontend/src/context/NotificationContext.jsx:45-53 | with distinct ids, clearing keeps a sound counter sound and an exact one exact |
| NotificationState.BulkOperationsResync | frontend/src/context/NotificationContext.jsx:38-43 | marking all read and clearing all make the counter exact from any state |
| NotificationState.MarkAllAsReadIdempotent | frontend/src/context/NotificationContext.jsx:38-43 | marking all read twice equals marking all read once |
| NotificationState.ReadEntryUndercounts | frontend/src/context/NotificationContext.jsx:35 | marking an already-read entry read still decrements: an exact counter of 1 drops to 0 while one entry stays unread |
| NotificationState.DuplicateIdsOvercount | frontend/src/context/NotificationContext.jsx:47-51 | two unread entries sharing an id are both removed but the counter drops once, leaving it one ahead |
| NotificationList.FormatTime | frontend/src/components/Notifications/NotificationList.jsx:60-79 | "just now" exactly under one minute; otherwise the whole minutes (1-59), hours (1-23) or days (1-6) whose range contains the age; a calendar date exactly from seven days on |
| NotificationList.FormatTimeMonotone | frontend/src/components/Notifications/NotificationList.jsx:65-72 | an older age never gets a finer bucket than a newer one, and within minutes never a smaller count |
| NotificationList.Render | frontend/src/components/Notifications/NotificationList.jsx:69-78 | "just now" reads "Только что"; the minute, hour and day labels are the number followed by the Russian suffix; only the calendar date has no fixed text |
| NotificationList.RenderedAgeReadsBack | frontend/src/components/Notifications/NotificationList.jsx:65-70 | the number in a minutes label, read back with parseInt, is the floored age in minutes |
| NotificationList.Icon | frontend/src/components/Notifications/NotificationList.jsx:81-93 | each of success, warning and error has its own mark, and exactly every other type gets the information sign |
| NotificationList.Badge | frontend/src/components/Notifications/NotificationList.jsx:99-103 | the badge is hidden exactly when the counter is not positive |
| NotificationList.BadgeReadsBack | frontend/src/components/Notifications/NotificationList.jsx:99-103 | a shown badge is "99+" exactly above 99 and otherwise reads back as the exact count |
| NotificationList.HeaderOf | frontend/src/components/Notifications/NotificationList.jsx:119-136 | "mark all" shows exactly when the counter is positive and "clear" exactly when the list is not empty |
| NotificationList.BodyOf | frontend/src/components/Notifications/NotificationList.jsx:161-198 | an empty list shows the empty notice; otherwise one row per entry in order, with its unread dot, icon, title, message and age label |
| NotificationList.DotsCountUnread | frontend/src/components/Notifications/NotificationList.jsx:180 | the number of unread dots shown equals the true number of unread entries |
| NotificationList.Click | frontend/src/components/Notifications/NotificationList.jsx:49-53 | a click on a read entry changes nothing; on an unread one it marks that id read |
| NotificationList.Delete | frontend/src/components/Notifications/NotificationList.jsx:55-58 | deleting keeps exactly the entries not carrying the id |
| NotificationList.ClickKeepsExact | frontend/src/components/Notifications/NotificationList.jsx:49-53 | with distinct ids a click on a shown row keeps an exact counter exact: the unread guard prevents the undercount |
| NotificationList.DeleteKeepsExact | frontend/src/components/Notifications/NotificationList.jsx:55-58 | with distinct ids deleting a row keeps an exact counter exact |
| NotificationEvents.NewUserNotification | app/Events/Users/UserNotification.php:15-20 | the event keeps its user and message; an omitted title becomes "Уведомление" and an omitted type "info" |
| NotificationEvents.NoticePayload | app/Events/Users/UserNotification.php:29-37 | the payload has exactly the keys title, message, type and time, carrying the given strings |
| NotificationEvents.UserNotificationBroadcast | app/Events/Users/UserNotification.php:22-42 | one private channel "user." plus the user's id, the name "UserNotification", and a payload of title, message, type and time without any user id |
| NotificationEvents.UserNotificationReachesOnlyItsUser | app/Events/Users/UserNotification.php:22-27 | the single channel of a personal notification admits a subscriber exactly when it is the event's user |
| NotificationEvents.RegisteredMessage | app/Events/Users/RegisterUser.php:41 | the text is the prefix, then the user's name, then "(ID: " with the id and ")" |
| NotificationEvents.RegisteredMessageDistinguishesIds | app/Events/Users/RegisterUser.php:41 | two users with the same name and different ids get different announcements |
| NotificationEvents.RegisterUserBroadcast | app/Events/Users/RegisterUser.php:30-50 | one private channel "system-notifications", the name "MessageSent", the fixed title, the composed message and type "info" |
| NotificationEvents.RegistrationReachesEveryone | app/Events/Users/RegisterUser.php:30-35 | every subscriber is admitted to the announcement's channel |
| NotificationEvents.Handle | app/Listeners/SaveUserNotificationToDatabase.php:24-33 | the record is unread; a personal event stores its user's id and a system-wide one none; title, message and type are copied verbatim |
| NotificationEvents.Dispatch | app/Listeners/SaveUserNotificationToDatabase.php:24-33 | with the listener registered once per event, a listened event appends exactly one record, any other event appends none |
| NotificationEvents.DispatchRegistered | app/Providers/AppServiceProvider.php:26-34 | with the listener registered a given number of times, a listened event appends that many copies of its record after the existing ones, and any other event appends none |
| NotificationEvents.DispatchAsWrittenStoresTwice | app/Providers/AppServiceProvider.php:26-34 | with the explicit registration on top of listener discovery, every listened event appends its record twice, which differs from the single-registration dispatch |
| NotificationEvents.DispatchIsOneRegistration | app/Listeners/SaveUserNotificationToDatabase.php:24-33 | the single-registration dispatch is the one-copy case of the registered dispatch |
| NotificationEvents.DispatchKeepsNewRecordsUnread | app/Listeners/SaveUserNotificationToDatabase.php:26-32 | with the listener registered once, firing a sequence of events keeps the stored records, appends one record per listened event, and every appended record is unread |
| NotificationEvents.InputOr | app/Http/Controllers/NotificationController.php:18-20 | a present input value, null included, is taken as received, with an empty string already turned into null; an absent one gives the default |
| NotificationEvents.StringArgument | app/Events/Users/UserNotification.php:15-20 | a value handed to one of the constructor's `string` parameters converts exactly when it is not null: a string as it is, an integer as its numeral, a boolean as "1" or "" |
| NotificationEvents.Send | app/Http/Controllers/NotificationController.php:16-33 | one system-wide event with the received or default message, title and type; the response is "success" and echoes those three values |
| NotificationEvents.SendToUser | app/Http/Controllers/NotificationController.php:38-59 | an unknown user fails before any event; a known user with a null message, title or type fails with a type error; otherwise one personal event for that user with the converted input or default fields, and the response echoes user id, user name and the three values as received |
| NotificationEvents.ControllerTitleDefaultWins | app/Http/Controllers/NotificationController.php:43-46 | with no title in the input the personal send succeeds exactly when message and type convert, and its event then carries "Notification", never the event's own default |
| NotificationEvents.NullFieldFailsSendToUser | app/Http/Controllers/NotificationController.php:42-46 | a present null or empty title, message or type makes the personal send fail with a type error for a known user |
| NotificationEvents.SendsStoreOneRecord | app/Http/Controllers/NotificationController.php:22-46 | with the listener registered once, a system-wide send stores one unread record without a user; a personal send that succeeds stores one unread record for that user and broadcasts on a channel only that user may join |
| Channels.Match | routes/channels.php:5-15 | a route matches exactly when its literal prefix matches (a dot matching any character but a newline) and then, for a parameter route, the rest is one non-empty segment without dots, which is captured, and for a parameterless route nothing or a single newline follows |
| Channels.Resolve | routes/channels.php:5-17 | a deciding route matches the name and captures the argument it passes on; no route decides exactly when none of the three matches |
| Channels.Authorize | routes/channels.php:5-17 | a granted name is always decided by some route |
| Channels.SystemRouteMatches | routes/channels.php:10 | the system route matches exactly "system-notifications" and that name followed by one newline |
| Channels.SystemChannelAdmitsEveryone | routes/channels.php:10-12 | the system channel admits every subscriber |
| Channels.UserChannelAdmitsOnlyItsUser | routes/channels.php:15-17 | for a 64-bit n, "user." plus the numeral of n admits a subscriber exactly when its id is n |
| Channels.ModelChannelAdmitsOnlyItsUser | routes/channels.php:5-7 | for a 64-bit n, "App.Models.User." plus the numeral of n admits a subscriber exactly when its id is n |
| Channels.AtMostOneSubscriber | routes/channels.php:5-17 | a channel that admits two different subscribers is the system channel, with or without one final newline |
| Channels.FinalNewlineStillMatches | routes/channels.php:10-17 | "system-notifications" followed by a newline admits everyone, and "user.5" followed by a newline admits user 5 |
| Channels.DecidedByUserRoute | routes/channels.php:15-17 | a name decided by the user route admits a subscriber exactly when its id equals PHP's integer cast of the captured segment |
| Channels.UserSegmentDecides | routes/channels.php:15-17 | "user." followed by any dot-free parameter admits a subscriber exactly when its id equals PHP's integer cast of that parameter |
| Channels.DotIsWildcard | routes/channels.php:15 | the route's dot matches any character but a newline: "userX5" admits user 5 |
| Channels.CastReadsLeadingNumber | routes/channels.php:16 | the integer cast reads the leading number and ignores the text after it: "user.5abc" admits user 5 |
| Channels.NonNumericParameterIsZero | routes/channels.php:16 | a segment without leading digits casts to 0: "user.abc" admits the id 0 |
| Channels.ExponentParameterIsScaled | routes/channels.php:16 | the cast reads an exponent: "user." followed by a digit, `e` and a digit admits exactly the user whose id is the first digit times ten to the second, so "user.1e1" admits user 10 and refuses user 1 |
| Auth.SomeNamedIff | frontend/src/context/AuthContext.jsx:59 | the scan of a permission list succeeds exactly when some entry has the requested name |
| Auth.SomeRoleGrantsIff | frontend/src/context/AuthContext.jsx:65-67 | the scan of the roles succeeds exactly when some role has a permission list holding the name |
| Auth.HasPermissionIff | frontend/src/context/AuthContext.jsx:55-71 | false without a user; otherwise true exactly when a direct permission or a permission of some role has the name |
| Auth.SomeHeldIff | frontend/src/context/AuthContext.jsx:76 | the scan of the requested names succeeds exactly when one of them passes hasPermission |
| Auth.HasAnyPermissionIff | frontend/src/context/AuthContext.jsx:74-77 | false for a non-array argument and for an empty list; otherwise true exactly when some requested name passes hasPermission |
| Auth.HasRoleIff | frontend/src/context/AuthContext.jsx:80-83 | true exactly when there is a user with a role list holding a role of that name |
| Auth.SomeRoleNamedIff | frontend/src/context/AuthContext.jsx:82 | the scan of the roles succeeds exactly when some role has the name |
| Auth.RoleWithoutListGrantsNothing | frontend/src/context/AuthContext.jsx:64-68 | a role whose permission list is missing grants its holder the role but no permission, while a direct permission is honoured |
| Auth.Login | frontend/src/context/AuthContext.jsx:36-41 | user and token are set, both storage keys are written, and the state is authenticated exactly when the token is not empty |
| Auth.Logout | frontend/src/context/AuthContext.jsx:43-48 | user and token are cleared, both storage keys are removed, every other stored key is kept and nothing is added |
| Auth.LogoutUndoesLogin | frontend/src/context/AuthContext.jsx:36-48 | logging out after a login leaves the same state as logging out before it |
| Auth.Restore | frontend/src/context/AuthContext.jsx:16-34 | with no truthy token or no stored user text, the restored state has no user and the storage is untouched |
| Auth.RestoreAfterLogin | frontend/src/context/AuthContext.jsx:19-41 | reloading after a login whose user text parses back restores that user and token, authenticated |
| Auth.RestoreUnparsableSignsOut | frontend/src/context/AuthContext.jsx:25-30 | a stored user text that does not parse signs the client out and removes both storage keys |
| Access.CheckPermission | app/Http/Controllers/Controller.php:16-29 | no denial exactly when a user exists and holds the permission; a denial has status 403, names the permission, and carries the given message or the default text |
| Access.Effective | app/Http/Controllers/Controller.php:20 | the names a user holds are exactly its direct permissions and the permissions of its roles |
| Access.ClientAgreesWithServer | app/Http/Controllers/Controller.php:20-28 | for a user whose server grants are its direct and role permissions, the server lets the request through exactly when the client's hasPermission holds |
| Access.NoUserRefused | app/Http/Controllers/Controller.php:18-25 | without a user the server refuses and the client's hasPermission is false |
| Permissions.Value | frontend/src/utils/PermissionEnum.js:5-45 | every enum value is a non-empty string |
| Permissions.ValueInjective | frontend/src/utils/PermissionEnum.js:5-45 | two permissions with the same value are the same permission |
| Permissions.EntityGroup | frontend/src/utils/PermissionEnum.js:50-95 | each entity group holds exactly the four actions create, read, update and delete of that entity, in that order |
| Permissions.ManagementGroup | frontend/src/utils/PermissionEnum.js:100-107 | the management group has six values: the four permission-entity actions, then both handle_* permissions |
| Permissions.AllPermissionsComplete | frontend/src/utils/PermissionEnum.js:112 | the catalogue holds every permission and has 26 entries |
| Permissions.AllPermissionsDistinct | frontend/src/utils/PermissionEnum.js:5-45 | the catalogue's values are pairwise distinct |
| Permissions.GroupsAreInCatalogue | frontend/src/utils/PermissionEnum.js:50-112 | every member of every group is in the catalogue |
| Permissions.Find | frontend/src/utils/PermissionEnum.js:118 | a found permission is in the list and has the value; none is found exactly when no listed permission has it |
| Permissions.FromValue | frontend/src/utils/PermissionEnum.js:118 | a recognised string is the value of the permission found for it |
| Permissions.FromValueRoundTrip | frontend/src/utils/PermissionEnum.js:5-118 | looking up a permission's value gives back that permission |
| Permissions.IsValidPermissionIff | frontend/src/utils/PermissionEnum.js:117-119 | a string is valid exactly when it is the value of some permission |
| Permissions.Label | frontend/src/utils/PermissionEnum.js:125-158 | every permission has a non-empty label |
| Permissions.DisplayName | frontend/src/utils/PermissionEnum.js:124-161 | a valid value maps to its permission's label; any other string is returned unchanged |
| Permissions.DisplayNameOfValue | frontend/src/utils/PermissionEnum.js:124-161 | every enum value gets its label, which differs from the value itself |
| ProjectSelection.RestoreSel | frontend/src/context/ProjectContext.jsx:25-37 | a selection is restored exactly when both its id and name are stored non-empty, with the id read by parseInt and the name verbatim |
| ProjectSelection.Restore | frontend/src/context/ProjectContext.jsx:19-40 | the initial state keeps the storage and restores project and context each from its own two keys |
| ProjectSelection.ClearContext | frontend/src/context/ProjectContext.jsx:81-85 | the context is cleared and its two keys removed; the project is kept |
| ProjectSelection.ClearProject | frontend/src/context/ProjectContext.jsx:73-78 | project and context are cleared and all four keys removed |
| ProjectSelection.SelectProject | frontend/src/context/ProjectContext.jsx:43-57 | a project is selected and its id numeral and name stored, and the context is always cleared; no project behaves as clearing the project |
| ProjectSelection.SelectContext | frontend/src/context/ProjectContext.jsx:60-70 | the project is unchanged; a context is selected with its id numeral and name stored, and no context behaves as clearing it |
| ProjectSelection.RestoreIsMirrored | frontend/src/context/ProjectContext.jsx:19-40 | right after loading, the state agrees with what the storage would restore |
| ProjectSelection.StoredItemReadsBack | frontend/src/context/ProjectContext.jsx:25-47 | an item's stored id numeral and name read back as that item, unless its name is empty |
| ProjectSelection.SelectProjectKeepsMirror | frontend/src/context/ProjectContext.jsx:43-57 | selecting or clearing a project keeps the state in agreement with what a reload would restore |
| ProjectSelection.SelectContextKeepsMirror | frontend/src/context/ProjectContext.jsx:60-70 | selecting or clearing a context keeps the state in agreement with what a reload would restore |
| ProjectSelection.ClearContextKeepsMirror | frontend/src/context/ProjectContext.jsx:81-85 | clearing the context keeps state and storage in agreement |
| ProjectSelection.ClearProjectKeepsMirror | frontend/src/context/ProjectContext.jsx:73-78 | clearing the project keeps state and storage in agreement |
| ProjectSelection.ReloadRestoresSelection | frontend/src/context/ProjectContext.jsx:19-70 | after choosing a project and then a context with non-empty names, a reload restores both |
| ProjectSelection.EmptyNameNotRestored | frontend/src/context/ProjectContext.jsx:25-47 | a project with an empty name is selected but not restored after a reload |
| RequestContext.CopyHeader | app/Http/Middleware/AddProjectIdToRequest.php:19-24 | a truthy header is merged into the input key and set as the attribute; otherwise the request is unchanged |
| RequestContext.ContextMiddleware | app/Http/Middleware/AddContextIdToRequest.php:16-30 | a truthy X-Context-Id is copied to current_context_id and the context_id attribute; otherwise the request passes unchanged |
| RequestContext.ProjectMiddleware | app/Http/Middleware/AddProjectIdToRequest.php:16-33 | a truthy X-Project-Id is copied to current_project_id and project_id, a truthy X-Context-Id to current_context_id and context_id; with neither the request is unchanged |
| RequestContext.ProjectMiddlewareFrame | app/Http/Middleware/AddProjectIdToRequest.php:22-29 | no input or attribute other than the four written ones is added, removed or changed |
| RequestContext.MiddlewaresIdempotent | app/Http/Middleware/AddProjectIdToRequest.php:16-33 | running either middleware twice equals running it once |
| RequestContext.ContextPartAgrees | app/Http/Middleware/AddProjectIdToRequest.php:26-30 | without a project header the project middleware does what the context middleware does, and the two always write the same input keys apart from current_project_id |
| RequestContext.ZeroHeaderIgnored | app/Http/Middleware/AddContextIdToRequest.php:21 | a context header "0" is falsy in PHP, so neither middleware copies it |
| Banners.Place | app/Http/Controllers/BannerController.php:67-83 | one banner per file, with consecutive ids, the file's path and the requested type; a file under key 0 becomes a root and every other file gets the most recent key-0 banner before it as parent, or none |
| Banners.Paths | app/Http/Controllers/BannerController.php:71 | the returned image list holds the stored path of each file, in order |
| Banners.UploadErrors | app/Http/Requests/Banner/CreateUploadBannersRequest.php:23-30 | "banners" is reported exactly when the file list is missing or empty, "type" exactly when the type is missing or not a known banner type |
| Banners.Upload | app/Http/Controllers/BannerController.php:58-86 | a request fails validation exactly when it has field errors, naming them; otherwise the placed banners are appended, the id counter advances by the file count and the stored paths are returned |
| Banners.UploadKeepsWellFormed | app/Http/Controllers/BannerController.php:67-83 | an upload keeps ids distinct and below the counter and every banner's type a known one |
| Banners.ListUploadHierarchy | app/Http/Controllers/BannerController.php:67-83 | uploading a plain list of files adds one banner per file, all of the requested type: the first is the root and every later one has it as parent |
| Banners.ListUploadOneRoot | tests/Feature/Banner/BannerTest.php:160-190 | a list upload adds exactly one root and one child for every further file |
| Banners.FilesBeforeKeyZeroAreRoots | app/Http/Controllers/BannerController.php:73-81 | files placed before the one under key 0 get no parent; files after it get that banner as parent |
| Banners.Index | app/Http/Controllers/BannerController.php:122-133 | without a type every banner is listed; with one exactly the banners of that type, in stored order |
| Banners.IndexUnknownTypeEmpty | tests/Feature/Banner/BannerTest.php:226-240 | filtering by a type no banner can have lists nothing |
| Banners.Update | app/Http/Controllers/BannerController.php:226-241 | validation fails exactly when a given type is not a known type string or a given parent is not an integer, naming exactly the failing fields; the update succeeds exactly when both rules pass, image, type and parent are all given and the banner exists; then only that banner changes, to the new image, the type and the integer the parent rule reads |
| Banners.UpdateReportsBothFields | app/Http/Controllers/BannerController.php:227-231 | an unknown type and a non-integer parent are reported together as "type" and "banner_id" |
| Banners.UpdateKeepsWellFormed | app/Http/Controllers/BannerController.php:232-239 | a successful update keeps ids distinct and below the counter and every banner's type a known one |
| Banners.TypeFilterScenario | tests/Feature/Banner/BannerTest.php:91-133 | after two mobile uploads and one desktop upload the mobile filter lists two banners and the desktop filter one |
| BannerCategories.BuiltIsOneFilter | app/Http/Controllers/BannerCategoryController.php:54-72 | the four where clauses applied in turn select the same rows, in the same order, as one filter requiring every supplied condition |
| BannerCategories.Index | app/Http/Controllers/BannerCategoryController.php:52-75 | a category is listed exactly when it satisfies every supplied filter (both context filters test the context column); stored order is kept; with no filters everything is listed |
| BannerCategories.ConflictingContextsSelectNothing | app/Http/Controllers/BannerCategoryController.php:56-62 | a header context and a query context that differ select no category |
| BannerCategories.MoreFiltersNarrow | app/Http/Controllers/BannerCategoryController.php:64-66 | adding a type filter only removes categories from the list |
| BannerCategories.Store | app/Http/Controllers/BannerCategoryController.php:138-150 | creation succeeds exactly when all six fields pass their rules; a failure names exactly the failing fields; a created category gets the next id and the validated values |
| BannerCategories.StoreReportsMissingField | app/Http/Controllers/BannerCategoryController.php:140-147 | a missing field makes creation fail and is named among the errors |
| BannerCategories.SelectBanner | frontend/src/components/BannerCategories/BannerCategoryModal.jsx:51-57 | picking a banner sets its id and changes no other field |
| BannerCategories.ClearBanner | frontend/src/components/BannerCategories/BannerCategoryModal.jsx:59-65 | clearing the banner empties its id and changes no other field |
| BannerCategories.Submit | frontend/src/components/BannerCategories/BannerCategoryModal.jsx:67-106 | the first failing check in order (blank trimmed name, no context, no banner, no category, missing or non-positive priority) is the one reported; otherwise the payload carries the trimmed name, the context's id and the parsed numbers |
| BannerCategories.SubmittedPayloadShape | frontend/src/components/BannerCategories/BannerCategoryModal.jsx:71-106 | a submitted payload has a non-empty name with no surrounding spaces, a priority of at least 1 and a non-zero banner |
| BannerCategories.ClearedBannerBlocksSubmit | frontend/src/components/BannerCategories/BannerCategoryModal.jsx:59-84 | after clearing the banner the form never submits: it stops at the name, the context or the banner check |
| BannerCategories.PayloadInput | frontend/src/components/BannerCategories/BannerCategoryModal.jsx:99-106 | the JSON body has exactly the six fields the creation endpoint requires |
| BannerCategories.StorablePayloadIsStored | app/Http/Controllers/BannerCategoryController.php:138-150 | a payload with a non-blank name and type, a known context and integers in PHP's range is created with exactly its own values |
| BannerCategories.PayloadInputValid | app/Http/Controllers/BannerCategoryController.php:140-147 | such a payload passes every field rule |
| BannerCategories.FormPayloadIsStored | frontend/src/components/BannerCategories/BannerCategoryModal.jsx:99-114 | what the modal submits, for a known context, a non-blank type and in-range numbers, is created by the server with exactly the submitted values |
| BannerSelector.Visible | frontend/src/components/common/BannerSelector.jsx:30-48 | a banner is offered exactly when it is loaded, not the excluded one (when an id to exclude is truthy) and, for a non-blank term, its type or id matches; loaded order is kept |
| BannerSelector.VisibleNeverExcluded | frontend/src/components/common/BannerSelector.jsx:34-36 | with a truthy id to exclude, that banner is never offered |
| BannerSelector.BlankTermKeepsAll | frontend/src/components/common/BannerSelector.jsx:38-39 | a blank term offers every banner but the excluded one, and every banner when nothing is excluded |
| BannerSelector.SearchIff | frontend/src/components/common/BannerSelector.jsx:40-46 | for a non-blank term a banner is offered exactly when it is not excluded and the lower-cased term occurs in its lower-cased type or the untouched term in its id's numeral |
| BannerSelector.TypeSearchIgnoresCase | frontend/src/components/common/BannerSelector.jsx:42 | typing a banner's type in any case offers that banner |
| BannerSelector.TypeLabel | frontend/src/components/common/BannerSelector.jsx:74-83 | a known type gets its Russian label, which differs from the type; anything else is shown as is |
| BannerSelector.LabelsCoverBannerTypes | frontend/src/components/common/BannerSelector.jsx:75-81 | the labelled types are exactly the banner types the server accepts |
| BannerSelector.TypeLabelDistinguishesKnownTypes | frontend/src/components/common/BannerSelector.jsx:75-81 | two different banner types never share a label |
| BannerSelector.ImageUrl | frontend/src/components/common/BannerSelector.jsx:85-88 | the placeholder exactly for a missing or empty path; otherwise "/storage/" followed by the path |
| BannerSelector.ImageUrlInjective | frontend/src/components/common/BannerSelector.jsx:87 | two non-empty paths with the same URL are the same path |
| Validation.FilterInt | app/Http/Requests/Warehouse/Stock/CreateWarehouseStockRequest.php:25-28 | the integer rule accepts only a canonical decimal numeral (optional sign, surrounding whitespace, no leading zeros) within PHP's 64-bit range |
| Validation.FilterIntOfNumeral | app/Http/Requests/Warehouse/Stock/CreateWarehouseStockRequest.php:25-28 | the numeral of any 64-bit integer passes the integer rule with its own value |
| Validation.FilterIntRejectsLeadingZero | app/Http/Requests/Warehouse/Stock/CreateWarehouseStockRequest.php:25-28 | a numeral of two or more digits that starts with 0 fails the integer rule |
| Validation.RequiredInteger | app/Http/Requests/Warehouse/Stock/CreateWarehouseStockRequest.php:25-28 | a required integer field passes exactly when it is present, not blank and an integer by that rule, and then yields that value |
| Validation.RequiredString | app/Http/Controllers/BannerCategoryController.php:141-144 | a required string field passes exactly when it is present, not blank and a string, and then yields it |
| WarehouseStocks.Validate | app/Http/Requests/Warehouse/Stock/CreateWarehouseStockRequest.php:22-30 | the request passes exactly when all four fields pass; a failure names exactly the failing fields; a passed request yields exactly the four integers the integer rule reads from its fields, which are an existing warehouse, a category of at least 1 and quantities of at least 0 |
| WarehouseStocks.Store | app/Http/Controllers/WarehouseStockController.php:48-55 | invalid input is a validation failure; a valid pair already present is refused exactly as "already exists"; otherwise one row with the next id and the validated values is appended |
| WarehouseStocks.Insert | database/migrations/2025_10_15_141111_create_warehouse_stocks_table.php:24 | the insert is refused by the unique index exactly when the pair is already stored; otherwise one row with the next id is appended |
| WarehouseStocks.InsertKeepsWellFormed | database/migrations/2025_10_15_141111_create_warehouse_stocks_table.php:24 | the unique index alone keeps pairs unique and ids distinct, whatever check ran before |
| WarehouseStocks.StoreInterleaved | app/Http/Controllers/WarehouseStockController.php:49-54 | with the `exists()` check reading an earlier table than the `create` writes: "already exists" exactly when the earlier table has the pair, a unique-index failure exactly when only the current one has it, otherwise the insert |
| WarehouseStocks.StoreIsUninterleaved | app/Http/Controllers/WarehouseStockController.php:49-54 | with nothing committed in between, the store is the sequential one and never reaches the unique index's error |
| WarehouseStocks.ConcurrentCreatesOfOnePair | app/Http/Controllers/WarehouseStockController.php:50-54 | two creates of one new pair that both checked before either committed: the first is stored and the second is refused with 500, not 400 |
| WarehouseStocks.StoreKeepsWellFormed | database/migrations/2025_10_15_141111_create_warehouse_stocks_table.php:24 | creating a row keeps every (warehouse, category) pair unique and ids distinct |
| WarehouseStocks.IndexOfId | app/Http/Controllers/WarehouseStockController.php:91 | the position found holds the first row with that id |
| WarehouseStocks.Update | app/Http/Controllers/WarehouseStockController.php:90-92 | invalid input fails validation, an unknown id is not found, a pair taken by another row violates the unique index (never "already exists"); otherwise only that row's fields are replaced |
| WarehouseStocks.UpdateKeepsWellFormed | database/migrations/2025_10_15_141111_create_warehouse_stocks_table.php:24 | a successful update keeps every pair unique and ids distinct |
| WarehouseStocks.DuplicatePairStatuses | app/Http/Controllers/WarehouseStockController.php:50-91 | the same duplicate pair is answered 400 by creation but 500 by update, which has no check of its own |
| WarehouseStocks.Destroy | app/Http/Controllers/WarehouseStockController.php:115-117 | an unknown id is not found; otherwise exactly the rows with other ids remain, in order |
| WarehouseStocks.DestroyRemovesOne | app/Http/Controllers/WarehouseStockController.php:115-117 | with distinct ids deleting removes exactly one row |
| WarehouseStocks.DestroyKeepsWellFormed | database/migrations/2025_10_15_141111_create_warehouse_stocks_table.php:24 | deleting keeps every pair unique and ids distinct |
| WarehouseQuery.ItemToArray | app/Dto/Warehouse/WarehouseStockItemDto.php:44-51 | the array has exactly the keys warehouse_name, warehouse_id and quantity |
| WarehouseQuery.StringParam | app/Dto/Warehouse/WarehouseStockItemDto.php:11 | a string is taken as is and only null is refused for the string property |
| WarehouseQuery.IntParam | app/Dto/Warehouse/WarehouseStockItemDto.php:12-13 | an int property accepts a 64-bit integer as is and never yields a value outside that range |
| WarehouseQuery.ItemFromArray | app/Dto/Warehouse/WarehouseStockItemDto.php:20-27 | building succeeds exactly when all three keys are present and each value fits its typed property; a missing name is reported as that missing key |
| WarehouseQuery.ItemArrayRoundTrip | app/Dto/Warehouse/WarehouseStockItemDto.php:20-51 | building an item from its own array gives back the same item |
| WarehouseQuery.ArrayItemRoundTrip | app/Dto/Warehouse/WarehouseStockItemDto.php:20-51 | a well-typed three-key array survives building an item and converting it back |
| WarehouseQuery.FromWarehouse | app/Dto/Warehouse/WarehouseStockItemDto.php:32-39 | the item's array carries the warehouse's name and id and the given quantity |
| WarehouseQuery.NewQuery | app/Dto/Warehouse/QueryWarehouseStrockDto.php:12 | the query keeps context and category, and the strategy defaults to "base" |
| WarehouseQuery.QueryToArray | app/Dto/Warehouse/QueryWarehouseStrockDto.php:16-23 | the array has exactly the keys strategy, contextId and categoryId |
| WarehouseQuery.QueryArrayReadsBack | app/Dto/Warehouse/QueryWarehouseStrockDto.php:16-23 | each key of the array carries the matching field of the query |
| WarehouseQuery.QueryFromRequest | app/Http/Requests/Warehouse/Stock/GetWarehouseStockRequest.php:22-29 | a request passes exactly when strategy, context and category pass their rules, and a failure names exactly the failing fields; a passed query has strategy "base" and exactly the context and category integers the integer rule reads from the request, an existing context of at least 1 and a category of at least 1 |
| WarehouseQuery.QueryRequestRoundTrip | app/Dto/Warehouse/QueryWarehouseStrockDto.php:31-38 | a valid query sent as a request is read back as the same query |
| WarehouseQuery.Rand | app/Services/Warehouse/Strategy/WarehouseBaseStrategy.php:29 | the draw lies between the two bounds, whichever order they come in |
| WarehouseQuery.RandReachesEveryValue | app/Services/Warehouse/Strategy/WarehouseBaseStrategy.php:29 | every value between the bounds can be drawn |
| WarehouseQuery.InContext | app/Services/Warehouse/Strategy/WarehouseBaseStrategy.php:22 | exactly the warehouses of the context, in stored order |
| WarehouseQuery.FirstStock | app/Services/Warehouse/Strategy/WarehouseBaseStrategy.php:28 | none exactly when no row belongs to the warehouse; otherwise a row of that warehouse |
| WarehouseQuery.Relevant | app/Services/Warehouse/Strategy/WarehouseBaseStrategy.php:23-24 | exactly the rows of the category whose warehouse is in the context |
| WarehouseQuery.Quantity | app/Services/Warehouse/Strategy/WarehouseBaseStrategy.php:29 | 0 without a row, otherwise a value between the row's bounds |
| WarehouseQuery.BuildResponse | app/Services/Warehouse/Strategy/WarehouseBaseStrategy.php:18-35 | one item per warehouse of the context, in order, carrying its name and id and a quantity drawn from its first stock row for the category, or 0 |
| WarehouseQuery.BuildResponseCoversContext | app/Services/Warehouse/Strategy/WarehouseBaseStrategy.php:22-32 | a warehouse appears in the response exactly when it belongs to the query's context |
| WarehouseQuery.BuildResponseQuantities | app/Services/Warehouse/Strategy/WarehouseBaseStrategy.php:28-29 | a warehouse without a row for the category gets 0; with exactly one row its quantity lies within that row's bounds |
| WarehouseQuery.ServiceAsWritten | app/Services/Warehouse/WarehouseService.php:9-17 | the service answers exactly when the class name it builds is the base strategy's class |
| WarehouseQuery.ServiceAsWrittenAlwaysFails | app/Services/Warehouse/WarehouseService.php:11-14 | the built name's "App\Service\" never names the declared "App\Services\" class, even ignoring case, so every call fails |
| WarehouseQuery.Service | app/Services/Warehouse/WarehouseService.php:9-17 | the corrected service, which builds the name under `App\Services\` and upper-cases the strategy's first letter to match the declared `WarehouseBaseStrategy`, answers with the base strategy's response |
| WarehouseQuery.ServiceDispatchIff | app/Services/Warehouse/WarehouseService.php:11-16 | the corrected service answers exactly for the strategy names "base" and "Base" |
| WarehouseQuery.ValidatedQueryIsAnswered | app/Http/Requests/Warehouse/Stock/GetWarehouseStockRequest.php:25 | every query that passed request validation is answered by the corrected service with the base response |
| WarehouseQuery.WarehouseOf | app/Http/Controllers/WarehouseController.php:195-203 | none exactly when no warehouse has the id; otherwise the warehouse with it |
| WarehouseQuery.PerCategory | app/Http/Controllers/WarehouseController.php:192-209 | one item per stock row of the category whose warehouse is in the context, in row order, with that warehouse's name and id and a quantity within the row's bounds |
| WarehouseQuery.PerCategoryOmitsWarehousesWithoutStock | app/Http/Controllers/WarehouseController.php:195-197 | a warehouse of the context with no row for the category is missing from the legacy list, while the strategy lists it with quantity 0 |
| StockForm.Validate | frontend/src/components/WarehouseStocks/StockModal.jsx:46-71 | a message for warehouse and for category exactly when the input is empty, for the minimum exactly when it is negative, for the maximum exactly when it is negative or below the minimum, the below-minimum message winning; every message is one of the four field names' and non-empty |
| StockForm.IsValid | frontend/src/components/WarehouseStocks/StockModal.jsx:70 | the form passes exactly when warehouse and category are filled, no bound is negative and the maximum is not below the minimum |
| StockForm.Offered | frontend/src/components/WarehouseStocks/StockModal.jsx:16-20 | when editing or with no context every warehouse is offered; otherwise exactly the warehouses whose context id equals the selected context's id, in order |
| StockForm.UnparsedContextOffersNothing | frontend/src/components/WarehouseStocks/StockModal.jsx:19 | a selected context whose stored id did not parse offers no warehouse |
| StockForm.Prefill | frontend/src/components/WarehouseStocks/StockModal.jsx:22-33 | an edited row opens with its bounds as numbers; a zero warehouse or category opens as the empty input and any other id as itself |
| StockForm.PrefilledRowRevalidates | frontend/src/components/WarehouseStocks/StockModal.jsx:26-67 | a row the server accepted reopens as a valid form exactly when its maximum is not below its minimum |
| StockForm.NumberOrNull | frontend/src/components/WarehouseStocks/StockModal.jsx:84-87 | a filled input is sent as its number and an empty one, parsed to NaN, as null |
| StockForm.PayloadInput | frontend/src/components/WarehouseStocks/StockModal.jsx:82-88 | the body has exactly the four stock fields, each the parsed input or null |
| StockForm.PayloadFieldReads | frontend/src/components/WarehouseStocks/StockModal.jsx:84-87 | the server's integer rule reads each sent field back as the form's value when it is in PHP's range, and refuses it otherwise |
| StockForm.ValidFormIsAccepted | app/Http/Requests/Warehouse/Stock/CreateWarehouseStockRequest.php:24-29 | a form the client accepts, with an existing warehouse, a positive category and in-range bounds, passes the server's rules with exactly its values |
| StockForm.ZeroCategoryPassesOnlyTheClient | app/Http/Requests/Warehouse/Stock/CreateWarehouseStockRequest.php:26 | a typed category 0 passes the modal's `validate` but the server rejects exactly the category |
| StockForm.EmptyMaxPassesOnlyTheClient | frontend/src/components/WarehouseStocks/StockModal.jsx:61-67 | an empty maximum passes the client's checks, is sent as null, and the server rejects exactly the maximum |
| StockForm.OnlyTheClientComparesBounds | app/Http/Requests/Warehouse/Stock/CreateWarehouseStockRequest.php:27-28 | a maximum below the minimum is refused by the client but accepted by the server's rules |
| StockForm.HandleChange | frontend/src/components/WarehouseStocks/StockModal.jsx:35-44 | the edited field takes the value, the others are unchanged, and that field's message is blanked only when one is showing |
| StockForm.ChangeHidesOnlyItsMessage | frontend/src/components/WarehouseStocks/StockModal.jsx:41-43 | after an edit exactly the messages showing before still show, minus the edited field's |
| UserForm.CheckEmail | frontend/src/components/Users/UserModal.jsx:46 | a one-pass scan answers true exactly when the e-mail matches the pattern: one `@` not first, a `.` with a non-empty run on both sides after it, and no whitespace or other `@` anywhere |
| UserForm.EmailExamples | frontend/src/components/Users/UserModal.jsx:46 | `a@b.c` matches the pattern and `a@.c`, with nothing between the `@` and the `.`, does not |
| UserForm.BlankEmailFailsPattern | frontend/src/components/Users/UserModal.jsx:44-48 | an e-mail that trims to nothing never matches the pattern, so the "required" branch is a case of the "invalid" one |
| UserForm.EmailMessage | frontend/src/components/Users/UserModal.jsx:44-48 | no message exactly when the e-mail matches the pattern; otherwise "required" when it is blank and "invalid" when it is not |
| UserForm.PasswordMessage | frontend/src/components/Users/UserModal.jsx:50-58 | a message exactly when a new user has no password, or a typed password has fewer than 6 UTF-16 units; every message is non-empty |
| UserForm.Validate | frontend/src/components/Users/UserModal.jsx:37-63 | a message for the name exactly when it trims to nothing, for the e-mail exactly when it does not match the pattern, for the password as PasswordMessage says, and for the confirmation exactly when the password checks run and the two differ; no other key, every message non-empty |
| UserForm.IsValid | frontend/src/components/Users/UserModal.jsx:66 | the form passes exactly when the name is not blank, the e-mail matches and, when the password checks run, the password has at least 6 units and equals the confirmation |
| UserForm.EmptyPasswordSkipsChecksWhenEditing | frontend/src/components/Users/UserModal.jsx:50-63 | editing with an empty password raises neither password message, whatever the confirmation holds |
| UserForm.Payload | frontend/src/components/Users/UserModal.jsx:80-89 | name and e-mail always, as typed; password and confirmation both present exactly when a password is typed, with the typed values; no other key |
| UserForm.ValidNewUserSendsPassword | frontend/src/components/Users/UserModal.jsx:51-62 | a new user that passes the checks is sent with a password of at least 6 units and an equal confirmation |
| UserForm.EditWithoutPasswordSendsNoPassword | frontend/src/components/Users/UserModal.jsx:85-89 | with an empty password the body holds exactly name and e-mail |
| UserForm.Prefill | frontend/src/components/Users/UserModal.jsx:14-23 | an opened user shows its name and e-mail, missing ones empty, and both password inputs empty |
| UserForm.PrefilledUserKeepsPassword | frontend/src/components/Users/UserModal.jsx:14-23 | saving an opened user without typing a password raises no password message and sends exactly name and e-mail |
| UserForm.AstralPasswordCountsDouble | frontend/src/components/Users/UserModal.jsx:56 | three characters outside the Basic Multilingual Plane pass the 6-character minimum, because the length counts UTF-16 units |
| UserForm.Initial | frontend/src/components/Users/UserModal.jsx:115-123 | the upper-cased first character of the name, else of the e-mail, else `U`; never a lower-case ASCII letter |
| UserForm.HandleChange | frontend/src/components/Users/UserModal.jsx:25-35 | the edited input takes the typed text and the others keep theirs; the edited input's message stops showing, every other showing message stays, no key is added or dropped |
| RegisterForm.Validate | frontend/src/pages/RegisterPage.jsx:35-44 | a confirmation message exactly when the confirmation differs from the password, a password message exactly when it has fewer than 6 UTF-16 units, each a one-message list, no other key |
| RegisterForm.IsValid | frontend/src/pages/RegisterPage.jsx:47 | the page registers exactly when the password equals the confirmation and has at least 6 units |
| RegisterForm.BothErrorsTogether | frontend/src/pages/RegisterPage.jsx:38-44 | a short, mismatched password is reported on both inputs at once |
| RegisterForm.AgreesWithNewUserOnPasswords | frontend/src/pages/RegisterPage.jsx:35-44 | on every form the page raises a password and a confirmation message exactly when the user modal does for a new user |
| RegisterForm.NameAndEmailUnchecked | frontend/src/pages/RegisterPage.jsx:35-48 | a blank name and a bare word as e-mail pass the page's checks while the user modal refuses the same form |
| RegisterForm.Payload | frontend/src/pages/RegisterPage.jsx:61-65 | the register body holds exactly the name, the e-mail and the password, as typed; the confirmation is not sent |
| RegisterForm.HandleChange | frontend/src/pages/RegisterPage.jsx:20-33 | the edited input takes the typed text and the others keep theirs; the edited input's messages are nulled and stop showing, every other present message stays |
| RegisterForm.EditingPasswordKeepsMismatchShown | frontend/src/pages/RegisterPage.jsx:20-44 | after a failed check with a mismatch, editing the password leaves the mismatch message showing |
| EntityForms.KeyMessage | frontend/src/components/Contexts/ContextModal.jsx:55-59 | no message exactly when the key matches `^[a-z0-9-]+$` as typed; otherwise "required" when it trims to nothing and "pattern" when it does not |
| EntityForms.SpacedKeyFailsPattern | frontend/src/components/Projects/ProjectModal.jsx:46-50 | a key that holds whitespace and also something else gets the pattern message, not the required one |
| EntityForms.SharedMessage | frontend/src/components/Projects/ProjectModal.jsx:42-54 | for the name a message exactly when it trims to nothing, for the key KeyMessage's, for the priority exactly when it is empty or below 1, for any other field none |
| EntityForms.ValidateProject | frontend/src/components/Projects/ProjectModal.jsx:39-57 | a message for the name, the key and the priority exactly under those conditions, the key's text telling blank from malformed; no other key |
| EntityForms.ValidateContext | frontend/src/components/Contexts/ContextModal.jsx:48-70 | a project message exactly when no project is chosen; every other key and message exactly as the project modal's checks give them on the shared fields |
| EntityForms.ContextValidIffProjectValid | frontend/src/components/Contexts/ContextModal.jsx:48-70 | a context passes exactly when its shared fields pass the project checks and a project is chosen |
| EntityForms.SubmitProject | frontend/src/components/Projects/ProjectModal.jsx:60-72 | the messages exactly when the checks fail; otherwise every field as held with the priority a number of at least 1, a matching key and a non-blank name |
| EntityForms.SubmitContext | frontend/src/components/Contexts/ContextModal.jsx:73-86 | the messages exactly when the checks fail; otherwise every field as held with the chosen project id and a priority of at least 1 |
| EntityForms.TextOrEmpty | frontend/src/components/Contexts/ContextModal.jsx:21-23 | a stored text is shown as is and a missing one as empty |
| EntityForms.PriorityOrDefault | frontend/src/components/Contexts/ContextModal.jsx:26 | a stored non-zero priority is shown as is; a missing priority or 0 shows as 2 |
| EntityForms.PrefillProject | frontend/src/components/Projects/ProjectModal.jsx:15-25 | an opened project shows its texts, missing ones empty, its stored status (true when missing) and its priority as PriorityOrDefault gives it |
| EntityForms.PrefillContext | frontend/src/components/Contexts/ContextModal.jsx:18-27 | an opened context shows the same shared fields as an opened project would, and its project id unless it is missing or 0 |
| EntityForms.WithSelectedProject | frontend/src/components/Contexts/ContextModal.jsx:28-33 | a new context takes the selected project's id when there is one other than 0; the shared fields do not change |
| EntityForms.PrefilledPriorityFailsOnlyWhenNegative | frontend/src/components/Contexts/ContextModal.jsx:26-67 | an opened record fails the priority check exactly when its stored priority is negative |
| EntityForms.ApplyContext | frontend/src/components/Contexts/ContextModal.jsx:37-42 | an edit writes exactly its own field: the text, the checkbox flag or the chosen option; every other field is unchanged |
| EntityForms.ApplyProject | frontend/src/components/Projects/ProjectModal.jsx:27-32 | a project edit writes the same field a context edit of the same input would |
| EntityForms.HandleContextChange | frontend/src/components/Contexts/ContextModal.jsx:37-46 | the edited field is written and its message stops showing; every other showing message stays and no key is added or dropped |
| EntityForms.HandleProjectChange | frontend/src/components/Projects/ProjectModal.jsx:27-37 | the edited field is written and its message stops showing; every other showing message stays and no key is added or dropped |
| EntityForms.ChoosingProjectFixesOnlyThatMessage | frontend/src/components/Contexts/ContextModal.jsx:37-63 | after a failed check with no project, choosing one clears the project message and the project check passes, while every other message stays showing |
| PermissionSearch.Filtered | frontend/src/components/common/PermissionSearchSelector.jsx:13-22 | a blank term shows every permission; otherwise exactly the permissions whose lower-cased name contains the lower-cased term; in both cases an order-preserving sub-list |
| PermissionSearch.FoundAtMostAll | frontend/src/components/common/PermissionSearchSelector.jsx:54 | the "found" count never exceeds the total |
| PermissionSearch.SearchIgnoresCase | frontend/src/components/common/PermissionSearchSelector.jsx:17-19 | a term gives the same list as its lower-cased form |
| PermissionSearch.ExactNameIsFound | frontend/src/components/common/PermissionSearchSelector.jsx:17-19 | a listed permission whose name equals the term up to case is shown |
| PermissionSearch.PaddedTermMissesBareName | frontend/src/components/common/PermissionSearchSelector.jsx:14-18 | a term with a leading space is not trimmed for the search, so `view` is not found by ` view` |
| PermissionSearch.IsSelected | frontend/src/components/common/PermissionSearchSelector.jsx:24-26 | true exactly when the id occurs at some position of the selected ids |
| FormErrors.ClearError | frontend/src/components/Users/UserModal.jsx:32-34 | the keys are kept; the named field's message is replaced by the cleared value only when it is showing; every other message is unchanged |
| FormErrors.ClearErrorIdempotent | frontend/src/components/Users/UserModal.jsx:32-34 | editing the same field twice leaves the same messages as editing it once |
| FormErrors.ClearErrorCommutes | frontend/src/components/Users/UserModal.jsx:32-34 | edits of two fields leave the same messages in either order |
| FormErrors.ClearErrorHidesOnlyThatField | frontend/src/components/Users/UserModal.jsx:32-34 | the showing messages after an edit are the ones before it minus the edited field |
| Text.Utf16Length | frontend/src/components/Users/UserModal.jsx:56 | the JavaScript length of a string lies between its character count and twice that |
| Text.Utf16LengthOfBmp | frontend/src/components/Users/UserModal.jsx:56 | a string of characters inside the Basic Multilingual Plane has as many UTF-16 units as characters |
| Text.PhpIntCast | routes/channels.php:16 | the cast of any string lies in the 64-bit range, and a string that does not start with a number casts to 0 |
| Text.PhpCastOfNumeral | routes/channels.php:16 | every 64-bit integer casts back from its decimal numeral |
| Text.PhpCastTruncatesFraction | routes/channels.php:16 | a numeral followed by a point and digits casts to the numeral's integer, cutting the fraction toward zero |
| Text.PhpCastReadsExponent | routes/channels.php:16 | a digit, `e` and a digit cast to the first digit times ten to the second |
| Text.PhpCastOfDigitString | routes/channels.php:16 | a digit string, signed or not, casts to its value clamped to the 64-bit range, or to 0 once the value is too large for a double |
| Text.PhpCastSaturates | routes/channels.php:16 | a digit string beyond the 64-bit range but within double range casts to the largest integer, and after a minus sign to the smallest |
| Text.PhpCastOfOverflowIsZero | routes/channels.php:16 | a digit string too large for a double casts to 0 |
| Text.PhpCastOfOneDigit | routes/channels.php:16 | a digit followed by text that cannot continue a number casts to that digit |
| Text.PhpCastOfNoNumber | routes/channels.php:16 | text that starts with neither space, sign, digit nor point casts to 0 |

## Left out

- Persistence and HTTP framing: Eloquent queries, JSON responses and status codes: stores are sequences or maps, and results are `Result` values.
- The role and permission library behind `hasPermissionTo`: the permissions a server user holds are given as a set on the user.
- File storage of uploaded banners: stored paths are parameters, and MIME and size checks are not modelled.
- Banners.Update: an `image` field that is not an uploaded file, which the `file|image` rule refuses, cannot be expressed, since the image is given as the path storage chose.
- Broadcasting transport and client subscription wiring: only channel names, payloads and authorisation are modelled.
- Channel authorisation of a request without a signed-in user is not modelled: the closures are modelled for a present user.
- `MessageSent` is not part of this model beyond its constructor call: its arguments are taken as the request values, since whether the class types them is not visible.
- NotificationEvents.Dispatch: models the intended single registration of the listener per event; the double registration of the code as written is stated by NotificationEvents.DispatchRegistered and listed under Findings, and the application bootstrap that turns on listener discovery is not part of this model.
- The server notification list, mark-read and delete endpoints, and the client's load latch, are not part of this model.
- The list's `created_at || timestamp`: entries carry the client timestamp only.
- Locale date formatting of labels older than a week.
- Banner `show` and `destroy`, and banner category `update`, `destroy` and `show`: plain persistence with no rule beyond lookup.
- Warehouse CRUD in `WarehouseController` other than `getWarehouseForCategory`: plain persistence.
- The request rules for contexts and projects on the server: only the client modals' checks are modelled.
- Browser-native constraint checks, which run before `onSubmit` because no form sets `noValidate`: `required`, `type=email` and `minLength` on the register page, `min` on the stock modal's category and quantities, `type=email` on the user modal, and `required` and `min` on the banner category modal. Only the handlers' own checks are modelled, so a value these attributes block (a category 0, a negative quantity, an address the browser's e-mail check refuses) is modelled as reaching the handler.
- Number inputs holding decimals, exponents or non-canonical numerals: a number input is empty or an integer.
- PHP arrays with integer keys and SQL string collation: keys and compared values are strings compared exactly.
- Laravel's input-trimming middleware: request strings are taken as received, apart from the empty string, which becomes null.
- Async ordering, React state batching, loading and error panels, and the picker's open/close state.
- Floating-point logic such as the stock status percentage in the stocks table.
- `getPermissionDisplayName` and `getBannerTypeLabel` applied to inherited object keys such as `constructor`: the label maps are treated as holding only their own keys.
- A banner with a null type in the picker's search, which throws in the source.
- WarehouseQuery.ItemFromArray: a numeric string passed to an `int` parameter is refused, whereas PHP's non-strict typing would coerce it.
- UserForm.Initial: upper-casing covers ASCII and the basic Cyrillic block only, so another first letter stays as it is where `toUpperCase` maps it (`é` to `É`, `ß` to `SS`); and the first character of a name starting outside the Basic Multilingual Plane is the whole character, whereas `charAt(0)` gives half a surrogate pair.
- PermissionSearch.Filtered: lower-casing covers ASCII and the basic Cyrillic block, which are the letters of every permission name; other letters are compared unmapped.
- BannerSelector.SearchIff: lower-casing covers ASCII and the basic Cyrillic block, which are the letters of every banner type; other letters in a term are compared unmapped.
- Text.PhpIntCast: a number with a point or an exponent is truncated from its exact decimal value, whereas PHP first rounds it to the nearest double; the two differ when that rounding crosses an integer (`(int)"0.99999999999999999"` is 1 in PHP and 0 here).
- NotificationEvents.SendToUser: request arrays and floats are not modelled, because request values are strings, integers, booleans or null; PHP refuses an array with the same type error.
- WarehouseStocks.Store: models one request at a time, so it never returns the unique index's 500; the race between its `exists()` check and `create` is stated separately by WarehouseStocks.StoreInterleaved and WarehouseStocks.ConcurrentCreatesOfOnePair, and transaction isolation levels are not modelled.
- WarehouseQuery.Rand: the draw is a parameter in range; the generator's distribution is not modelled.

## Findings

| source | as written | input that shows it | evidently intended | confidence | as-written member | corrected member |
|---|---|---|---|---|---|---|
| app/Providers/AppServiceProvider.php:26-34 | the listener is registered with `Event::listen` for both events, while the framework's default application configuration also discovers it in the listeners directory from `handle`'s union type, so it runs twice per event | any system-wide send: one `MessageSent` is fired and two identical records are stored | one registration per event, so each event stores one record | not executed; rests on the default discovery of the framework's application bootstrap, which is not part of this model | NotificationEvents.DispatchAsWrittenStoresTwice | NotificationEvents.Dispatch |
| app/Services/Warehouse/WarehouseService.php:11 | the strategy class name is built as `App\Service\Warehouse\Strategy\Warehouse{strategy}Strategy`, while the strategy classes are declared under `App\Services\` | strategy `base`, the only one the request rule accepts | the name under `App\Services\` with the strategy's first letter upper-cased, `App\Services\Warehouse\Strategy\WarehouseBaseStrategy`, so that `base` reaches the base strategy; the namespace fix alone would build `WarehousebaseStrategy`, which the autoloader looks up as a file name that does not exist on a case-sensitive file system | not executed | WarehouseQuery.ServiceAsWrittenAlwaysFails | WarehouseQuery.ServiceDispatchIff |
