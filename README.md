# EBD attendance tracker — a verified model of its core

The EBD attendance tracker records Sunday-school ("Escola Bíblica Dominical") attendance. A browser
client lets staff mark members present, late or absent, manage members and classes, see reports
and charts, and keep working offline. An Express server keeps members, classes, attendance and
settings in PostgreSQL.

This project models the logic of that system in Dafny, one module per source file:

- **Offline layer** (`Offline`). The `pending` store of queued writes is modelled as records in key
  order plus a key generator. Also modelled: the `window.db.request` wrapper that decides between
  answering, queueing and rethrowing, the replay of one record, and the drain loop that replays a
  snapshot of the store.
- **Service worker** (`ServiceWorker`): cache cleanup on activation, the routing of intercepted
  requests between network and cache, and the worker's own background-sync drain.
- **API client** (`Api`): the attendance body, the endpoint `getMembers` builds, the error message
  a failed request throws, and the settings cache that `getSettings` and `saveSettings` update.
- **Server models and controllers** (`AttendanceModel`, `MemberModel`, `ClassModel`,
  `SettingModel`, `MembersController`, `ClassesController`). These are modelled over table values
  with the table's constraints. `Sql` models the parts of PostgreSQL the queries rely on:
  `ORDER BY` on text in code-point order, `LIKE`/`ILIKE` with case folding of the Latin-1
  letters, and `WHERE`. `Http` models the replies.
- **Page helpers** (`Utils`, `App`, `Ui`, `Charts`, `Animations`, `Theme`):
  - date keys, week and month dates, CSV parsing, phone formatting and masking, e-mail
    validation, age;
  - the save-button guard and the member form;
  - report totals and percentages, the period of a report, the lateness tolerance;
  - the multi-member form, the detailed report, the settings form;
  - the chart data;
  - the loading counter, skeletons and toasts;
  - the light/dark theme.
- **Shared modules**: `Text` (trim, split/join, digits, numerals), `Js` (JavaScript values and
  truthiness), `Numbers` (`parseInt`, `x || d`, `Math.round` of a percentage as integer
  rounding) and `Calendar` (civil dates and day arithmetic standing in for `Date`).

The clock, the network's answers, IndexedDB and the Cache API are parameters or fields. Every loop
of the source that accumulates or pushes is a `method` with a `while` loop whose postcondition ties
it to a specification function. Objects whose fields the source updates are classes:
- `OfflineManager`, `CacheStorage`, `BackgroundSync`;
- `ApiService` (the settings cache);
- `SaveButton`, `AnimationManager`, `ThemeManager`.

Behaviour of the source that the proofs make explicit:

- A replayed write answers with the stored row, which has no `success` field, so the drain keeps
  every record it replayed successfully and bumps its `attempts` (`Offline.ServerReplyKeepsRecord`).
  No record is ever evicted, whatever its attempts.
- Nothing in the client writes the `members` IndexedDB store, so the offline answer to
  `/members/active` is always empty in practice (the mirror is a constructor argument here).
- The service worker drains an `EBD_Offline` database that the page never writes (the page uses
  `EBD_Attendance`), and `OFFLINE_URL` is not among the precached URLs.
- `LIKE` wildcards (`%`, `_`) typed into the member search are honoured by the database
  (`MemberModel.UnderscoreIsWildcard`).
- The server's duplicate message "Membro já cadastrado" contains neither "already exists" nor
  "duplicate", so the member form shows the generic failure notice
  (`App.ServerDuplicateGetsGenericNotice`).
- The phone mask lays out ten digits as `(DD) DDDDD-DDD`, unlike `formatPhone`'s `(DD) DDDD-DDDD`
  (`App.TenDigitsMaskDiffers`).
- The second warning of the multi-member form ("Nenhum nome válido encontrado") can never show
  (`Ui.NonBlankTextHasNames`).
- The charts query eight days, from seven days ago through today (`Charts.ChartRangeSpec`).
- `'DD/MM'` is not a format `formatDate` knows, so trend labels are the browser's default
  rendering (`Charts.DayMonthFormat`).

## Model

| member | source | states |
|---|---|---|
| Offline.AppendAddsOne | js/offline.js:103-112 | queueing adds exactly one record, under a key no record had (the generator's next key), with the given type and data and `attempts = 0`; every other key's record is unchanged and the count grows by one |
| Offline.PutSpec | js/offline.js:69-78 | `store.put(item)` makes `item` the record under its key and leaves every other key's record unchanged; the store stays in key order |
| Offline.DeleteSpec | js/offline.js:158-167 | `store.delete(id)` removes the record with that key and leaves every other key's record unchanged |
| Offline.UpsertSpec | js/offline.js:73 | writing a record keeps the store in key order, makes it the record found under its key and changes no other key |
| Offline.RemoveSpec | js/offline.js:162 | removing a key keeps the store ordered and below the generator, finds nothing under that key and changes no other key |
| Offline.LookupIndex | js/offline.js:39-42 | in a store kept in key order every record is found under its own key |
| Offline.ActiveMembersSpec | js/offline.js:190-193 | the offline answer to `/members/active` holds exactly the mirror's members whose `active` is truthy |
| Offline.ActiveMembersAppend | js/offline.js:190-193 | the filter keeps the mirror's order: the answer for two runs of members is the first run's answer followed by the second's |
| Offline.OptimisticFields | js/offline.js:204-208 | the optimistic record carries every body field and `_offline: true`; its `id` is the clock reading unless the body has its own `id` |
| Offline.OfflinePostQueues | js/offline.js:196-209 | offline, a POST to an endpoint other than `/members/active` queues exactly one record with the endpoint's type, the body and no attempts, and answers with the optimistic record |
| Offline.OfflineReads | js/offline.js:188-212 | offline, a request that is not a queued POST leaves the store alone and answers with the mirror's active members for `/members/active` and `[]` for any other endpoint |
| Offline.OnlinePassesThrough | js/offline.js:214-231 | online, a successful request's value is returned unchanged and a failure of anything but a POST is rethrown unchanged; the store is untouched |
| Offline.OnlineFailedPostQueues | js/offline.js:216-228 | online, a failed POST is queued like an offline one and answered with the optimistic record |
| Offline.QueueWithoutRequestType | js/offline.js:197 | as written (`getRequestType` undefined on the client), every path that would queue a write throws a TypeError and queues nothing |
| Offline.PerformFresh | js/offline.js:185-232 | carrying out any wrapper action only adds records, under keys at or above the old generator, and never moves the generator back |
| Offline.SettleSpec | js/offline.js:124-137 | settling a replayed record deletes it on a truthy `success`, rewrites it with `attempts + 1` on a falsy one, and leaves it on a throw; no other old record changes |
| Offline.SyncOneSpec | js/offline.js:119-138 | one iteration of the drain settles its own record as its replay's reply says and leaves every other old record as it was |
| Offline.DrainSettles | js/offline.js:114-139 | after draining the snapshot, each snapshot record is deleted, bumped or kept exactly as its own replay's reply says, visiting the snapshot in key order |
| Offline.DrainRemovesIffSucceeded | js/offline.js:124-126 | a drain deletes a snapshot record if and only if its replay answered with a truthy `success` |
| Offline.DrainKeepsFailures | js/offline.js:127-133 | a replay without a truthy `success` leaves its record with `attempts` one higher and every other field unchanged; nothing is evicted after 3 attempts |
| Offline.UnknownKindStaysQueued | js/offline.js:153-154 | a record of a type other than `attendance` or `member` replays as `{success: false}` and stays queued with one more attempt |
| Offline.ServerReplyKeepsRecord | js/offline.js:124 | a replay answered with the server's stored row (no `success` field) is treated as a failure: the record stays queued |
| Offline.FailedReplayWithoutRequestType | js/offline.js:218-220 | as written, a replay whose request fails throws a TypeError, so the drain leaves the store exactly as it was |
| Offline.FailedReplayRequeues | js/offline.js:216-228 | with a request-type function, a replayed member whose request fails is queued again as a new record, and the replayed record gets one more attempt |
| Offline.OfflineManager.constructor | js/offline.js:38-42 | a fresh database: an empty `pending` store whose key generator starts at 1 |
| Offline.OfflineManager.SaveOffline | js/offline.js:69-78 | `saveOffline('pending', item)` puts the record under its key |
| Offline.OfflineManager.AddPendingData | js/offline.js:103-112 | `addPendingData` appends a record under the generator's next key and returns that key |
| Offline.OfflineManager.RemovePendingData | js/offline.js:158-167 | `removePendingData(id)` deletes the record with key `id` |
| Offline.OfflineManager.GetAllPending | js/offline.js:91-101 | `getAllOffline('pending')` returns every record, in key order |
| Offline.OfflineManager.GetPendingCount | js/offline.js:176-179 | `getPendingCount()` is the number of records |
| Offline.OfflineManager.HasPendingData | js/offline.js:170-173 | `hasPendingData()` holds exactly when some key has a record |
| Offline.OfflineManager.Enqueue | js/offline.js:196-209 | queueing a POST changes the store and answers as the queue action specifies |
| Offline.OfflineManager.Request | js/offline.js:185-232 | the wrapper changes the store and answers as its decision table specifies |
| Offline.OfflineManager.SyncItem | js/offline.js:141-156 | `syncItem` replays through the wrapper, online, as the replay action specifies |
| Offline.OfflineManager.SettleReply | js/offline.js:124-137 | the loop body after a replay: a truthy `success` deletes the record, any other non-null reply saves it back with one more attempt, and a throw leaves the store |
| Offline.OfflineManager.SyncPendingData | js/offline.js:114-139 | offline, nothing changes; online, the store becomes the drain of its snapshot |
| ServiceWorker.PruneKeepsOnlyCurrent | service-worker.js:40-47 | activation keeps only the current cache's name, and keeps it exactly when it existed |
| ServiceWorker.PruneAtMostOne | service-worker.js:40-47 | since cache names are unique, at most one cache is left after activation |
| ServiceWorker.PruneStep | service-worker.js:43-45 | one step of the cleanup deletes a stale name and keeps the current one |
| ServiceWorker.CacheStorage.Activate | service-worker.js:36-51 | the `activate` handler deletes every cache whose name differs from `CACHE_NAME` |
| ServiceWorker.NonGetPassesThrough | service-worker.js:56 | requests other than GET are never intercepted |
| ServiceWorker.ApiIsNetworkFirst | service-worker.js:59-85 | API GETs answer with any network response and store it; on a network failure the cache answers, else the synthetic `Modo offline ativo` body |
| ServiceWorker.CacheHitIgnoresNetwork | service-worker.js:90-94 | other GETs are cache-first: a cached entry is answered whatever the network would do |
| ServiceWorker.CacheMissStoresOnlyOk | service-worker.js:96-110 | on a cache miss the network response is returned, and stored if and only if its status is 200 |
| ServiceWorker.BothFailFallback | service-worker.js:111-117 | when cache and network both fail, a navigation gets the cached offline page and anything else a 503 `Offline` |
| ServiceWorker.RouteOnlyStoresRequest | service-worker.js:54-121 | routing never removes a cache entry and only ever stores the requested URL |
| ServiceWorker.UnsentIff | service-worker.js:135-148 | with record removal working, after the drain a snapshot record remains if and only if its POST did not resolve |
| ServiceWorker.UnsentStep | service-worker.js:136-146 | one step of the drain deletes a resolved record and keeps an unresolved one |
| ServiceWorker.BackgroundSync.SyncPendingData | service-worker.js:131-149 | every snapshot record is POSTed in order whatever earlier POSTs did; as written (`removePendingData` undefined) the store is left unchanged |
| ServiceWorker.BackgroundSync.OnSync | service-worker.js:124-129 | only the `sync-attendance` tag runs the drain, posting every pending body in order; any other tag sends nothing and changes nothing |
| Api.AttendanceBodyFields | js/api.js:154-159 | the attendance body carries exactly `memberId`, `date`, `status` and `checkInTime`, with `checkInTime` null when not given |
| Api.FailureMessageChoice | js/api.js:29-41 | a non-OK response throws the body's `error`, else its `message`, else `HTTP <status>`, where a non-JSON body reads as `{error: text}` |
| Api.NonJsonBodyIsMessage | js/api.js:35-41 | a body that is not JSON is itself the message, or `HTTP <status>` when empty |
| Api.TimeoutMapped | js/api.js:15-52 | an aborted request always ends with the fixed timeout message |
| Api.CaughtSpec | js/api.js:46-61 | errors containing `Failed to fetch` or `NetworkError` get the fixed connection message; other errors that are not timeouts are rethrown unchanged |
| Api.ServerErrorReachesCaller | js/api.js:29-61 | a non-OK response with a non-empty JSON `error` reaches the caller with exactly that message |
| Api.MembersEndpoint | js/api.js:65-78 | `getMembers` builds `/members/active` with no parameters, else `/members/active?` and the encoded parameters |
| Api.MembersParamsSpec | js/api.js:69-75 | `search` is appended, trimmed, exactly when non-blank, and then `class` likewise; nothing else is appended |
| Api.BlankFiltersPlainEndpoint | js/api.js:69-78 | blank or missing filters give the plain endpoint |
| Api.QueryNonEmpty | js/api.js:77-78 | a query string of at least one parameter is non-empty, so the `?` form is used exactly when a filter is given |
| Api.LoadedSpec | js/api.js:179-182 | loading overwrites one of the four settings with `parseInt` of the answer exactly when the answer's field is truthy; every other entry is unchanged |
| Api.RefreshSpec | js/api.js:179 | one `if (r.k) settings.k = parseInt(r.k)` step changes only key `k`, and only when the answer has it |
| Api.LoadedIdempotent | js/api.js:176-183 | loading the same answer twice is the same as loading it once |
| Api.ApiService.constructor | js/api.js:4-11 | the client starts with hour 9, minute 0, duration 60 and tolerance 15 |
| Api.ApiService.GetSettings | js/api.js:176-187 | on an answer the cache becomes the loaded settings and the answer is returned; on a failure the cache is unchanged and returned |
| Api.ApiService.SaveSettings | js/api.js:190-199 | one POST per entry with the value stringified; the cache takes the entries only when every POST succeeds; without an argument it throws before posting |
| AttendanceModel.MarkSpec | models/attendance.js:4-15 | `mark(m, d, s, t)` fails exactly for a missing date or status (NOT NULL) or a new pair whose member does not exist (foreign key), using up an id; after a success exactly one row has the pair (m, d) with status s and time t, a NULL member's row is appended, and pairs stay unique |
| AttendanceModel.NullMemberAddsRows | migrate.js:58-66 | NULL members never conflict under `UNIQUE(member_id, date)`, so the same mark without a member made twice adds two rows |
| AttendanceModel.MarkKeepsOthers | models/attendance.js:7-11 | a successful mark changes no row of another pair, and a mark without a conflict appends its row |
| AttendanceModel.MarkIdempotent | models/attendance.js:7-11 | repeating a successful mark of a member leaves the rows as they were |
| AttendanceModel.FindNone | migrate.js:65 | the lookup of a pair finds nothing exactly when no row has that pair |
| AttendanceModel.ClearDateSpec | models/attendance.js:45-47 | `clearDate(d)` removes exactly the rows dated d |
| AttendanceModel.GetDailyAttendanceSpec | models/attendance.js:17-26 | the daily list holds exactly the rows dated d whose member is not NULL and exists, joined with that member's name and class |
| AttendanceModel.DatesSpec | models/attendance.js:37-39 | the summary's dates are strictly increasing and are exactly the dates with rows in the inclusive range |
| AttendanceModel.StatusCountsBounded | models/attendance.js:31-35 | present + late + absent never exceeds a day's row count |
| AttendanceModel.DayCountPositive | models/attendance.js:32 | a date has a positive count exactly when some row has it |
| AttendanceModel.GetSummarySpec | models/attendance.js:28-43 | one entry per date with rows in [start, end], in ascending order; `total` counts the date's rows and each status count its rows with that status |
| MemberModel.GetAllSpec | models/member.js:4-7 | `getAll` returns every member, ordered by name |
| MemberModel.GetActiveSpec | models/member.js:9-14 | `getActive` returns exactly the members whose `active` is true, each as often as the table holds it, ordered by name |
| MemberModel.IndexOfNone | models/member.js:17 | the lookup by id finds nothing exactly when no row has the id |
| MemberModel.GetByIdSpec | models/member.js:16-19 | `getById` is undefined exactly when no member has the id, and otherwise the member with it |
| MemberModel.CreateSpec | models/member.js:21-30 | `create` fails (NOT NULL) exactly when the name is missing, keeping the rows but using up the serial id it drew; otherwise it appends one row under the next serial id, with `active` as given (NULL when undefined), and returns it |
| MemberModel.FailedCreateSkipsId | models/member.js:21-30 | after a failed `create` the next successful one gets the id after the one the failure drew, so no row has that id |
| MemberModel.UpdateSpec | models/member.js:32-43 | `update` is undefined for a missing id, fails for a missing name, and otherwise rewrites that row only |
| MemberModel.Search | models/member.js:49-68 | `search` builds `SELECT … WHERE active = true`, one clause per given filter, then `ORDER BY name`, with as many parameters as placeholders |
| MemberModel.AddFilter | models/member.js:56-66 | each `if` appends the filter's clause numbered `$paramCount`, pushes its parameter and counts it |
| MemberModel.SearchShape | models/member.js:52-68 | the SQL always restricts to active members and always ends with `ORDER BY name` |
| MemberModel.ClausesSnoc | models/member.js:53-66 | each appended filter's placeholder number is one past the parameters before it, so placeholders run consecutively from `$1` |
| MemberModel.ClassPlaceholder | models/member.js:56-66 | a given class filter adds `class = $n` bound to the trimmed class, after the search term's parameter `%term%` |
| MemberModel.SearchRowsSpec | models/member.js:52-68 | a member is returned iff active, the term (if given) occurs case-insensitively in name, email or phone, and the class (if given) equals it; rows are ordered by name |
| MemberModel.UnfilteredSearchIsActive | models/member.js:52-68 | blank filters return exactly the active members |
| MemberModel.UnderscoreIsWildcard | models/member.js:57-58 | `_` in the search term matches any character |
| ClassModel.GetAllSpec | models/class.js:4-9 | `getAll` returns every class, ordered by name |
| ClassModel.GetActiveSpec | models/class.js:11-16 | `getActive` returns exactly the active classes, each as often as the table holds it, ordered by name |
| ClassModel.GetByIdSpec | models/class.js:18-21 | `getById` gives the class with that id and nothing else |
| ClassModel.GetByNameSpec | models/class.js:23-26 | `getByName` gives the class with exactly that name, and nothing when no class has it |
| ClassModel.CreateSpec | models/class.js:28-37 | `create` fails exactly for a missing or existing name (NOT NULL, UNIQUE), keeping the rows but using up the serial id it drew; otherwise it appends one row under the next serial id |
| ClassModel.FailedCreateSkipsId | models/class.js:28-37 | after a failed `create` the next successful one gets the id after the one the failure drew, so no row has that id |
| ClassModel.UpdateSpec | models/class.js:39-51 | `update` is undefined exactly for a missing id, and otherwise rewrites that row only |
| ClassModel.MemberCountPositive | models/class.js:55-58 | the membership count is positive exactly when some member's class is the class's name |
| ClassModel.DeleteGuarded | models/class.js:53-62 | `delete` throws the "has members" error and deletes nothing exactly when some member's class equals the class's name |
| ClassModel.DeleteRemovesOnly | models/class.js:64 | otherwise `delete` removes only the row with that id, and a missing id changes nothing |
| SettingModel.SetGet | models/setting.js:4-20 | after `set(k, v)`, `get(k)` is v and every other key reads as before |
| SettingModel.GetAbsent | models/setting.js:9 | `get` of a key no row has is undefined |
| SettingModel.SetKeys | models/setting.js:12-19 | `set` adds its key to the keys and keeps them unique |
| SettingModel.SetSameValue | models/setting.js:13-18 | writing a key's own value back leaves the table as it was |
| SettingModel.GetAll | models/setting.js:22-29 | `getAll` fills the dictionary row by row |
| SettingModel.DictionaryGet | models/setting.js:22-29 | the dictionary's keys are the table's keys, and each maps to what `get` returns |
| SettingModel.DictionaryRow | models/setting.js:25-27 | each row's key maps to that row's value |
| MembersController.CleanSpec | controllers/members.js:20-21 | a filter is passed trimmed when non-blank, and as `''` when blank or missing |
| MembersController.GetActiveMembersSpec | controllers/members.js:9-31 | `getActiveMembers` answers 200 with the search of the cleaned filters |
| MembersController.CreateMemberDuplicate | controllers/members.js:54-65 | a searched member with a case-insensitively equal name and a strictly equal class (`===`) gives 400 `Membro já cadastrado` and creates nothing |
| MembersController.CreateMemberCreates | controllers/members.js:67-68 | otherwise the member is created and returned with 201 |
| MembersController.CreateMemberUnnamed | controllers/members.js:54-82 | a body without a name answers 500 and creates nothing: the duplicate check throws when the search finds anyone, with the `TypeError` message naming `null` or `undefined` as the name was sent, and otherwise the insert fails after using up an id |
| MembersController.NullClassIsDuplicate | controllers/members.js:55-58 | a JSON `null` class equals a `NULL` class, so a same-named member without a class makes the request a 400, while the same request with the class absent creates the member |
| MembersController.CaughtReplySpec | controllers/members.js:72-82 | error code 23505 maps to 400; any other error maps to 500 |
| MembersController.MissingMemberIs404 | controllers/members.js:41-47 | `getMember`, and `updateMember` at lines 86-92, answer 404 exactly for a missing id, and a 404 changes nothing |
| MembersController.FindExact | controllers/members.js:55-58 | the exact match found is a searched member with that name and a class strictly equal to the one sent (absent, `null` or text), and none is found only when no such member exists |
| ClassesController.CreateClassSpec | controllers/classes.js:22-31 | an existing name gives 400 and creates nothing; a missing name answers 500 after the insert used up an id; otherwise the class is created and returned with 201 |
| ClassesController.MissingClassIs404 | controllers/classes.js:14-20 | `getClass`, and `updateClass` at lines 33-39, answer 404 exactly for a missing id, and a 404 changes nothing |
| ClassesController.DeleteClassSpec | controllers/classes.js:41-47 | a thrown error, such as a class with members, answers 400 with its message and deletes nothing; otherwise the class is removed |
| Utils.DateKeyRoundTrip | js/utils.js:16-20 | reading a `YYYY-MM-DD` key back gives the date it was made from |
| Utils.DateKeyInjective | js/utils.js:16-20 | distinct dates have distinct keys |
| Utils.PaddedValue | js/utils.js:18-19 | a zero-padded month or day still denotes its number |
| Utils.WeekStartsSunday | js/utils.js:58-60 | the week's first day, today moved back by `getDay()` days, is a Sunday |
| Utils.WeekDatesHaveToday | js/utils.js:56-69 | the week's seven keys are consecutive days from Sunday, and today's key sits at today's weekday |
| Utils.GetWeekDates | js/utils.js:56-69 | the loop returns the seven keys from the start of the week |
| Utils.GetMonthDates | js/utils.js:72-85 | the loop returns one key per day from the 1st to the month's last day, in order |
| Utils.RecordKeys | js/utils.js:96-101 | a parsed CSV object has exactly the trimmed header keys |
| Utils.RecordValue | js/utils.js:100 | each key holds its trimmed cell, and `''` when the line has no such cell |
| Utils.CsvRowsLines | js/utils.js:93-104 | one object per non-blank line after the header, in order |
| Utils.ParseLine | js/utils.js:96-101 | the inner loop builds the object of one data line |
| Utils.ParseCSV | js/utils.js:88-107 | the loop returns the parse of the text |
| Utils.DigitsOfMasked | js/utils.js:177-179 | the formatted phone carries exactly the digits it was built from |
| Utils.FormatPhoneDigits | js/utils.js:172-183 | `formatPhone` never changes the digits of its input |
| Utils.FormatPhoneIdempotent | js/utils.js:172-183 | formatting a formatted phone changes nothing |
| Utils.ValidateEmailIff | js/utils.js:167-170 | an e-mail is accepted iff it is a non-empty local part, `@`, and a domain with a `.` neither first nor last, no part holding whitespace or `@` |
| Utils.CalculateAge | js/utils.js:185-199 | null for an empty birth date; otherwise the age whose birthday this year is reached and next one not yet |
| Utils.NotificationIcon | js/utils.js:152-160 | unknown types get `info-circle`, and the icon is always one of the four |
| App.MaskPhone | js/app.js:202-218 | the mask's steps give the layout of the input's first eleven digits |
| App.LayoutDigits | js/app.js:207-215 | the layout keeps exactly the digits it was given |
| App.MaskIdempotent | js/app.js:203-215 | masking a masked value changes nothing |
| App.MaskAgreesWithFormatPhone | js/app.js:213 | with eleven digits the mask agrees with `formatPhone` |
| App.TenDigitsMaskDiffers | js/app.js:213 | with ten digits the mask differs from `formatPhone` |
| App.SaveButton.constructor | js/app.js:222 | the guard starts released |
| App.SaveButton.Click | js/app.js:223-231 | a click while saving does nothing; otherwise it starts one save and disables the button |
| App.SaveButton.Release | js/app.js:235-240 | the delayed `finally` releases the guard and the button |
| App.SaveButton.Clicks | js/app.js:222-229 | any number of clicks before the release start at most one save |
| App.SaveMemberRejects | js/app.js:275-294 | the form is rejected, saving nothing, for a blank name, then `Outra` with a blank custom class, then a non-empty invalid e-mail, in that order |
| App.SaveMemberRecord | js/app.js:281-305 | `Outra` becomes the trimmed custom class; blank class, phone and e-mail are saved as `''` and a blank birth date as null |
| App.MissingCharNotContained | js/app.js:333 | a message lacking one of a phrase's characters does not contain the phrase |
| App.ServerDuplicateGetsGenericNotice | js/app.js:333-337 | the server's "Membro já cadastrado" gets the generic notice, not the duplicate one |
| Ui.BuildStatusMap | js/ui.js:140-143 | the loop builds the status map of the day's records |
| Ui.StatusMapKeys | js/ui.js:140-143 | a member id is in the map exactly when some record has it |
| Ui.StatusMapLast | js/ui.js:141-142 | when several records share a member id, the last one's status wins |
| Ui.CardWithoutRecord | js/ui.js:161 | a member with no record is shown as `absent` |
| Ui.CardOfLastRecord | js/ui.js:140-161 | a member's card shows the status of its last record |
| Ui.SumAppend | js/ui.js:353-358 | the totals of two runs of days add up |
| Ui.SumWellFormed | js/ui.js:353-360 | over well-formed days the members counted never exceed the records |
| Ui.UpdateReportSummary | js/ui.js:343-391 | the totals are sums over days, each percentage is `round(100·part/records)` or 0 without records, with `dia` for `today` and `dias` otherwise |
| Ui.ReportBounds | js/ui.js:360-381 | every percentage lies in 0..100 and all are 0 without records |
| Ui.UpdateAttendanceHistory | js/ui.js:393-416 | one row per day, in order, with the displayed date and the day's rate |
| Ui.HistoryDateOfKey | js/ui.js:411-412 | a `YYYY-MM-DD` key is displayed as `DD/MM/YYYY` |
| Ui.DayRateBounds | js/ui.js:416 | the day's rate is `round(100·(present+late)/total)` in 0..100, 0 without records and 100 when all attended |
| Ui.DateRangeSpec | js/ui.js:685-714 | today and unknown periods give (today, today), week the first and last week dates, month the month's first and last dates, all the fixed 1900–2100 range |
| Ui.EarlierStaysWithin | js/ui.js:744-755 | a time no later than one within the tolerance is also within it |
| Ui.DefaultTolerance | js/ui.js:744-755 | with the default settings a check-in is on time iff it is at or before 9:15 |
| Ui.NaNToleranceIsLate | js/ui.js:746-754 | a setting that is not a number makes every check-in late |
| Ui.NamesSpec | js/ui.js:1617-1619 | the names are the trimmed non-blank lines |
| Ui.NonBlankTextHasNames | js/ui.js:1612-1624 | a non-blank text always has a name, so the second warning never shows |
| Ui.AddMultipleMembers | js/ui.js:1612-1642 | a blank text warns; otherwise one `addMember` per name, in order, and successes + errors = names |
| Ui.SuccessesBounded | js/ui.js:1627-1641 | the successes never exceed the attempts |
| Ui.MineSpec | js/ui.js:1996 | a member's records are exactly the records with its id |
| Ui.CountsSpec | js/ui.js:2001-2005 | attended = present + late, and present + late + absent never exceeds the records |
| Ui.MemberReportSpec | js/ui.js:1995-2007 | each member's rate is `round(100·(present+late)/records)` in 0..100, 0 without records |
| Ui.MemberReportsSpec | js/ui.js:1995-2007 | one line per member, in the members' order: line i names member i, its counts fit within that member's records, and its rate lies in 0..100 and is 0 without records |
| Ui.DetailedReportAlwaysFails | js/ui.js:1984 | the client has no `getAttendanceRecords`, so the detailed report always fails |
| Ui.FormFieldSpec | js/ui.js:2033-2036 | a field reads as its number, except that 0 and anything without digits give the default |
| Ui.FormSettingsAt | js/ui.js:2033-2036 | the form gives the four settings with defaults 9, 0, 60 and 15 |
| Ui.FormSettingsTolerance | js/ui.js:2033-2036 | after the form is saved the tolerance check of lines 744-755 compares the form's numbers |
| Ui.SaveSettingsAsWritten | js/ui.js:2032-2043 | as written the four fields go into the cache and nothing is posted |
| Ui.SaveSettings | js/ui.js:2032-2038 | with the cache passed, every cached setting is posted |
| Charts.ChartRangeSpec | js/charts.js:126-127 | the charts query from the key of seven days ago (`getDateXDaysAgo(7)`) through today's key |
| Charts.PrepareTrendData | js/charts.js:147-161 | four arrays as long as the summary, entry i from summary day i |
| Charts.DayMonthFormat | js/charts.js:154 | `'DD/MM'` labels are the browser's default rendering |
| Charts.TrendAddsUp | js/charts.js:155 | the trend's present values add up to the report's present total |
| Charts.PrepareDistributionData | js/charts.js:163-175 | labels in order of first appearance, each value the count of members with that label |
| Charts.LabelsSpec | js/charts.js:167-172 | a label appears iff some member has it, with `Sem Turma` for members without a class; labels are distinct |
| Charts.DistributionAddsUp | js/charts.js:164-174 | the values sum to the number of members |
| Charts.PrepareRateData | js/charts.js:177-198 | the labels are `Presentes`, `Atrasados`, `Faltas`; each value is `round(100·part/total)`, or 0 when the total is 0 |
| Charts.RatesSpec | js/charts.js:188-197 | each rate lies in 0..100 and all are 0 when the total is 0 |
| Charts.RoundedPartsNearHundred | js/charts.js:193-195 | the three rounded rates add up to between 99 and 101 |
| Animations.AnimationManager.constructor | js/animations.js:2-4 | the count starts at 0 with the overlay hidden |
| Animations.AnimationManager.ShowLoading | js/animations.js:6-20 | the count rises by one and the overlay shows the message |
| Animations.AnimationManager.HideLoading | js/animations.js:22-31 | the count falls by one but never below 0, and the overlay hides only at 0 |
| Animations.CreateSkeleton | js/animations.js:84-105 | `count` children (none for a non-positive count), the i-th the placeholder of its kind and index |
| Animations.SkeletonWidths | js/animations.js:89-98 | text placeholders alternate 80% and 60% wide, starting at 80% |
| Animations.ToastIcon | js/animations.js:74-82 | unknown types get `fa-info-circle` |
| Animations.ToastIconMatchesNotification | js/animations.js:74-82 | a toast shows the notification icon of the same type |
| Theme.InitialThemeSpec | js/theme.js:4-13 | the first theme is the saved one if non-empty, else dark exactly when the system prefers dark |
| Theme.ToggledSpec | js/theme.js:52 | light toggles to dark and anything else to light; toggling twice restores light or dark |
| Theme.ColorSpec | js/theme.js:206-235 | a colour is the current palette's entry, with light as the fallback; an unknown theme throws |
| Theme.SwitchMatchesTheme | js/theme.js:37-41 | after a theme applies, the switch is checked and the meta is `#121a2a` exactly for dark |
| Theme.ThemeManager.constructor | js/theme.js:2-16 | the first theme is chosen and applied |
| Theme.ThemeManager.ApplyTheme | js/theme.js:24-49 | applying saves the theme and sets the switch and the meta to match |
| Theme.ThemeManager.ToggleTheme | js/theme.js:51-57 | toggling applies the toggled theme |
| Theme.ThemeManager.SetTheme | js/theme.js:238-242 | only `light` and `dark` are applied; anything else changes nothing |
| Theme.ThemeManager.SystemPreferenceChanged | js/theme.js:81-87 | a preference change applies only while no theme is saved |
| Theme.ThemeManager.GetColor | js/theme.js:206-235 | `getColor` reads the colour of the current theme |
| Theme.SystemPreferenceIgnoredAfterApply | js/theme.js:83-86 | since applying always saves (line 31), no preference change applies after the first apply |
| Numbers.ParseIntToString | js/api.js:179 | `parseInt` of an integer's numeral gives the integer back |
| Numbers.ParseIntNoDigits | js/ui.js:2033 | `parseInt` of text without digits is NaN |
| Numbers.RoundPercent | js/ui.js:367 | `round(100·part/total)` is the integer nearest to the percentage, halves rounding up |
| Numbers.PercentBounds | js/ui.js:367 | a part of a total gives a percentage in 0..100, 0 for no part and 100 for all |
| Numbers.PercentMonotonic | js/ui.js:367 | a larger part never gives a smaller percentage |
| Calendar.AddDaysSucc | js/utils.js:81 | moving one more day is the next day |
| Calendar.NextPrev | js/utils.js:60 | the next day and the previous day undo each other |
| Calendar.WeekdayNext | js/utils.js:58 | `getDay()` of the next day is the next weekday, Saturday wrapping to Sunday, across month, year and leap-day ends |
| Calendar.WeekdayAddDays | js/utils.js:58-60 | moving `n` days moves `getDay()` by `n` modulo 7, so going back `getDay()` days lands on a Sunday |
| Text.TrimSpec | js/api.js:69 | trimming drops exactly the leading and trailing whitespace, and is empty exactly for blank text |
| Text.JoinSplit | js/ui.js:411-412 | joining a split text with its separator gives the text back |
| Text.SplitJoin | js/ui.js:411-412 | splitting joined parts without the separator gives the parts back |
| Sql.SortBySpec | models/member.js:5 | `ORDER BY` gives a sorted permutation of the rows |
| Sql.ILikeContains | models/member.js:57 | `ILIKE '%t%'` holds iff the lowered value contains the lowered term |
| Sql.WhereSpec | models/attendance.js:22 | `WHERE` keeps exactly the rows that satisfy the condition |
| Sql.WhereCount | models/member.js:11 | `WHERE` keeps each satisfying row as many times as the table holds it, and no other row |

## Left out

- Sql.StrLe: `ORDER BY name` is modelled in code-point order, which is PostgreSQL's `C` collation. Under a
  language collation such as `pt_BR` the database orders differently (`ana` before `Bruno`, `Álvaro`
  before `Bruno`), so the order that `GetAllSpec`, `GetActiveSpec` and `SearchRowsSpec` promise holds
  only for a `C`-collated database.
- Text.Lower: case folding covers `A`-`Z` and the accented Latin-1 capitals only. `toLowerCase` and
  `ILIKE` fold all of Unicode, so names with other capitals (Greek, Cyrillic, `Ā`…) are not compared as
  the source compares them.
- MembersController.MissingMemberIs404, ClassesController.MissingClassIs404: ids from the URL are
  modelled as integers. A non-numeric id such as `abc` makes PostgreSQL raise 22P02, which `getClass`,
  `getMember`, `updateClass` and `updateMember` answer with 500 and `deleteClass` with 400 and the
  database's message; the model speaks of numeric ids only.
- AttendanceModel.Mark: arguments reach the model already typed (a date as a day number, a member
  as an integer). PostgreSQL's rejection of malformed date or id text (22007, 22P02) and of a status
  longer than `VARCHAR(20)` (22001) is not modelled. The `ON DELETE CASCADE` of attendance rows is
  not modelled either, because deleting a member is not part of this model.
- The `Date` object is modelled only as the civil dates and clock readings that the modelled code
  uses. Time zones, `toISOString` and `toLocaleDateString` are parameters (`Utils.LocaleText`).
- IndexedDB, the Cache API, `fetch`, `AbortController`, timers, the DOM, notifications, modals and
  Chart.js rendering are not modelled. The drain is one sequential pass; interleavings between the
  page, the 30 s interval and the service worker are not modelled.
- Offline.OfflineManager: `getAllOffline` with an index or a range and `getOffline` are not
  modelled; only the whole `pending` store is read.
- The install handler's precaching and `clients.claim()` are not modelled.
- js/export.js, migrate.js (beyond the columns, NOT NULL, UNIQUE and foreign-key constraints that the models check), routes/api.js, server.js,
  controllers/attendance.js, controllers/settings.js and scripts/generate-icons.js are not part
  of this model. They are library calls, schema creation, routing or one-line pass-throughs.
- JavaScript numbers are modelled as integers, and `Math.round` of a percentage as integer
  rounding.
- Summary counts are modelled as integers. node-postgres delivers PostgreSQL `bigint` columns as
  strings, so in the running page the `+=` loops of js/ui.js:353-357 and js/charts.js:182-186
  would concatenate them.
- Charts.PrepareRateData: requires counts that are not negative, as `COUNT`/`SUM` of 0s and 1s
  always are. For negative totals `Math.round` of a negative ratio is not modelled.
- Lookups through object prototypes are not modelled: `icons[type]` with `type` such as
  `constructor`, `classCount[className]` for such names, and `colors[theme]` for such themes.
- Object key order is taken as insertion order. JavaScript lists integer-like keys first, and
  that is not modelled for `Object.keys(classCount)`.
- Theme.ThemeManager.ApplyTheme: the 10 ms delay before the theme applies is not modelled. Two
  toggles inside that delay would both read the old theme.
- The `themeChange` event, the charts' colour update and the toggle animation are not modelled;
  they only touch the DOM or the chart library.
- Ui.AddMultipleMembers: each `addMember` outcome is a parameter; the requests themselves are
  not sent.
- App.SaveMember: the edit-mode branch (`updateMember`, js/app.js:253-257) and the reload after
  saving are not modelled.

## Findings

| source | as written | input that shows it | evidently intended | confidence | as-written member | corrected member |
|---|---|---|---|---|---|---|
| js/offline.js:197, 219 | `this.getRequestType(endpoint)` is called on the API client, which defines no such method | any offline POST to `/attendance` | the endpoint's request type is computed and the write is queued | not executed | Offline.QueueWithoutRequestType | Offline.OfflinePostQueues |
| service-worker.js:143 | `removePendingData` is not defined in the worker | a pending record whose POST resolves | the record is deleted once its POST resolves | not executed | ServiceWorker.BackgroundSync.SyncPendingData | ServiceWorker.UnsentIff |
| js/ui.js:2038 | `db.saveSettings()` is called without an argument, so `Object.entries(undefined)` throws | any save of the settings form | the cached settings are posted | not executed | Ui.SaveSettingsAsWritten | Ui.SaveSettings |
| js/ui.js:1984 | `db.getAttendanceRecords` does not exist on the client | any click on the detailed-report button | the report is built from the period's attendance records | not executed | Ui.DetailedReportAlwaysFails | Ui.MemberReportSpec |
