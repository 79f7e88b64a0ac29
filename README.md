# School backend core, modelled in Dafny

This project models the decision rules, small state machines and folds of an
Express/Mongoose school-management backend, and proves what they promise.
Every database collection is a sequence of records (a `seq` field of a class
where a handler changes it in place), each handler runs sequentially and
atomically, and what a socket handler emits is appended to a log of
(target, event) pairs instead of being delivered.

The modules follow the source files:

- `Chat` (chat.dfy): who may chat with whom, the paged chat history, and the
  contact list: candidates chosen by role, de-duplicated by user id,
  decorated with the last message and unread count, sorted by recency.
- `Socket` (socket.dfy): the live channel as a class `LiveServer` with the
  five-minute user cache, the handshake, room joins, `send_message`,
  `typing`, `mark_read`, `get_contacts` and `disconnect`.
- `Messages` (message.dfy): the Message schema's validation and defaults.
- `Auth` (auth.dfy) and `Permissions` (permission.dfy): `protect`,
  `authorize`, `checkPermission`, `isOwnerOrAdmin`, the default
  role × resource × action table with its hierarchy, and the upserting
  initialisation as a class `PermissionStore`.
- `Fees` (fee.dfy): the Fee document as a class with `updateStatus`,
  `addPayment` and the pre-save hook. `FeeController`
  (fee_controller.dfy): the payment, edit and delete guards, the totals and
  the per-student status roll-up.
- `Exams` (exam.dfy): the grading loop, the pass rule, student access,
  ownership, id normalisation, the announcement room, completion flags and
  the independent-exams listing.
- `StudentController` (student_controller.dfy): the list filter and paging,
  the `days_present` weekday arithmetic, the subject merge, and the create
  and update rules. `Enrolments` (enrolment.dfy): the enrolment state
  transitions as a class `EnrolmentStore`.
- `Notifications`, `Dashboard`, `Absences`, `Courses`, `Materials` and
  `Validators`: the remaining handlers and the request validators.
- `Students`, `Teachers`, `Subjects` and `Codes`: the schemas' defaults and
  code generators.
- Shared pieces: `Common` (roles, outcomes), `School` (profile and
  ClassSubject lookups), `Text` (`trim`, `split`, `toUpperCase`,
  `toString`, `padStart`), `JsArray` (stable descending `sort`, `slice`),
  `JsMap` (the insertion-ordered `Map` used for de-duplication) and
  `Pagination`.

Amounts are integers in minor units. Instants are integers (milliseconds, or
day numbers where the source works per day). A day's weekday is its number
modulo 7. Token verification is a partial map from token to user id.

## Model

| member | source | states |
|---|---|---|
| Common.FindUser | src/controllers/chatController.js:256-257 | the lookup answers a user exactly when one with that id is stored, and that user carries the id |
| Common.FindUserUnique | src/controllers/chatController.js:256-257 | under the unique `_id` index the lookup returns the one stored user with that id |
| Text.Trim | src/models/Message.js:14-16 | the result is the input with its leading and trailing white space removed: a run of the input, with white space only outside it and none at its ends |
| Text.TrimEmpty | src/middleware/validators.js:17-21 | a string trims to the empty string exactly when every character of it is white space |
| Text.TrimIdempotent | src/models/Message.js:14-16 | trimming a trimmed string changes nothing |
| Text.SecondWordOfPair | src/middleware/auth.js:7-8 | `split(' ')[1]` of a header "<scheme> <token>" with a space-free token gives the token back |
| Text.ToUpperIdempotent | src/models/Subject.js:51 | upper-casing twice is upper-casing once |
| Text.SecondWord | src/middleware/auth.js:7-8 | `split(' ')[1]` of the header exists exactly when the header holds a space, and the word it gives holds no space |
| Text.ToUpper | src/models/Subject.js:51 | the upper-cased text has the length of the input, and each character is the ASCII upper case of the input's character at that place: a to z become A to Z and every other character is kept |
| Text.DecimalRoundTrip | src/models/Student.js:81 | reading the decimal of `n` back gives `n` |
| Text.PaddedDecimalRoundTrip | src/models/Student.js:81 | the zero-padded decimal of `n` reads back as `n`, has at least `width` characters and only digits |
| Text.YearDigits | src/models/Student.js:79 | the last two characters of a year of at least two digits are digits that read as the year modulo 100 |
| Codes.YearCodeParts | src/models/Student.js:78-82 | a generated code is the prefix, then the year's last two characters, then the padded counter |
| Codes.YearCodeValues | src/models/Student.js:78-82 | after the prefix a code holds only digits; its two year digits read as the year modulo 100 and the rest reads as `count + 1` |
| Codes.YearCodeLength | src/models/Teacher.js:54-58 | the counter part has at least `width` digits, and exactly `width` while `count + 1` fits in them |
| Codes.YearCodeInjective | src/models/Teacher.js:54-58 | two different counts give two different codes in the same year |
| Codes.YearCodeUppercase | src/models/Teacher.js:54-58 | a code whose prefix has no lower-case letter is unchanged by the `uppercase` setter |
| Students.StudentCodeShape | src/models/Student.js:78-82 | a student code is "STU", two digits reading as the year modulo 100, then digits reading as `count + 1`; it is ten characters long exactly when `count + 1` has at most five digits |
| Codes.YearCodeDigits | src/models/Student.js:78-82 | a generated code is the prefix followed by at least one year digit and `width` count digits, and every character after the prefix is a digit |
| Students.StudentCode | src/models/Student.js:78-82 | a student code starts with "STU" and every one of its other characters, at least six of them, is a digit |
| Students.StudentCodeStored | src/models/Student.js:30-36 | distinct counts give distinct codes in a year, and the `uppercase` setter stores a generated code unchanged |
| Students.NewStudent | src/models/Student.js:23-55 | creation fails (400) exactly when the code is blank once trimmed; otherwise the stored code is the trimmed code upper-cased, the parent information is the one given or, when none is given, no father, mother or guardian, the enrolment date defaults to now, `academic_status` to active and `fee_status` to overdue |
| Teachers.TeacherCodeShape | src/models/Teacher.js:54-58 | a teacher code is "TCH", two digits reading as the year modulo 100, then digits reading as `count + 1`; it is nine characters long exactly when `count + 1` has at most four digits |
| Teachers.TeacherCode | src/models/Teacher.js:54-58 | a teacher code starts with "TCH" and every one of its other characters, at least five of them, is a digit |
| Teachers.TeacherCodeStored | src/models/Teacher.js:10-16 | distinct counts give distinct codes in a year, and the `uppercase` setter stores a generated code unchanged |
| Teachers.NewTeacher | src/models/Teacher.js:3-38 | creation fails (400) exactly when the code is blank once trimmed; otherwise the stored code is the trimmed code upper-cased, the employment date defaults to now and the status to active |
| Subjects.SubjectCodeShape | src/models/Subject.js:50-54 | a subject code is the upper-cased first three characters of the name (fewer for a shorter name) followed by digits reading as `count + 1`, three of them while the count fits |
| Subjects.SubjectCode | src/models/Subject.js:50-54 | a subject code is at least three characters long and ends in three digits |
| Subjects.SubjectCodeUppercase | src/models/Subject.js:9-15 | the `uppercase` setter stores a generated subject code unchanged |
| Subjects.NewSubject | src/models/Subject.js:3-34 | creation fails (400) exactly when the name or code is blank once trimmed or the credits are negative; otherwise the name is stored trimmed, the code as the trimmed code upper-cased, credits default to 1 and the category to core |
| Messages.Create | src/models/Message.js:3-32 | validation fails exactly when there are no attachments and the content is all white space; otherwise the stored message is unread, holds the trimmed content and satisfies the schema's invariant |
| School.TeacherOfUser | src/controllers/chatController.js:278 | the lookup finds a stored profile of that user, and finds none exactly when no profile belongs to the user |
| School.StudentOfUser | src/controllers/chatController.js:279 | the lookup finds a stored student profile of that user, and finds none exactly when no profile belongs to the user |
| School.StudentById | src/controllers/studentSubjectController.js:43-60 | `Student.findById` finds a stored student with that id, and none exactly when no student has it |
| School.ClassSubjectById | src/controllers/studentSubjectController.js:43-60 | `ClassSubject.findById` finds a stored ClassSubject with that id, and none exactly when no ClassSubject has it |
| School.TeacherOfUserUnique | src/controllers/chatController.js:278 | under the unique `user_id` index the lookup returns the one stored teacher profile of the user |
| School.StudentOfUserUnique | src/controllers/chatController.js:279 | under the unique `user_id` index the lookup returns the one stored student profile of the user |
| JsArray.SortDesc | src/controllers/dashboardController.js:400 | `sort((a, b) => key(b) - key(a))` returns a permutation of its input sorted by descending key |
| JsArray.SortStable | src/controllers/chatController.js:251 | the sort is stable: the elements of each key keep their relative order |
| JsArray.Slice | src/controllers/dashboardController.js:403 | `slice(start, end)` is the run between the two clamped positions, negative positions counting from the end, or empty |
| JsArray.SliceConcat | src/controllers/dashboardController.js:403 | consecutive slices of a list join into the slice that spans both |
| JsArray.Top | src/controllers/dashboardController.js:119 | sorting descending and keeping the first `k` gives `min(k, n)` elements, sorted, all from the input |
| JsArray.TopNewest | src/controllers/dashboardController.js:119 | an element left out of the top `k` has no greater key than any kept one, and is left out only when there were more than `k` |
| JsArray.FilterSorted | src/controllers/studentController.js:48-60 | dropping elements from a list sorted by descending key (as `$unwind` drops students without a user) keeps it sorted |
| JsArray.FilterKeepsAll | src/controllers/studentController.js:57-60 | a filter that every element passes keeps the whole list |
| JsArray.HeadBounds | src/controllers/dashboardController.js:400 | the first element of a list sorted by descending key has a key no smaller than any other |
| JsArray.SortedCons | src/controllers/dashboardController.js:400 | an element whose key bounds a sorted list can be put in front and the list stays sorted |
| JsMap.Set | src/controllers/chatController.js:128 | `m.set(k, v)` keeps the map well formed, maps `k` to `v`, and appends `k` to the key order only when it is new |
| JsMap.DedupeBy | src/controllers/chatController.js:126-130 | the loop of `set` calls followed by `Array.from(m.values())` returns the values of the map built by setting every item under its key in order |
| JsMap.IndexContents | src/controllers/chatController.js:126-130 | the map's keys are exactly the items' keys, and each key holds the last item set under it |
| JsMap.IndexOrder | src/controllers/chatController.js:126-130 | keys are listed in the order of their first occurrence among the items |
| JsMap.DedupedKeys | src/controllers/chatController.js:126-130 | the de-duplicated list has one item per distinct key, and every key of the input is represented |
| JsMap.DedupedLast | src/controllers/studentController.js:276-305 | every listed item comes from the input and is the last input item with its key |
| Pagination.OrDefault | src/controllers/absenceController.js:7 | `parseInt(x) \|\| d` keeps a parsed non-zero integer and falls back to `d` for a missing, unparsable or zero value |
| Pagination.Limit | src/controllers/absenceController.js:8 | the page size is never 0 and never above 1000; a positive request up to 1000 is kept, a larger one capped, a negative one kept, and a missing or zero one is 10 |
| Pagination.Skip | src/controllers/absenceController.js:9 | with a page of at least 1 and a non-negative limit the skip is non-negative |
| Pagination.TotalPages | src/controllers/absenceController.js:136 | `Math.ceil(total / limit)` is the integer `r` with `(r - 1) * limit < total <= r * limit` for a positive limit, and the mirrored bounds for a negative one |
| Pagination.Window | src/controllers/feeController.js:36-38 | `.skip(s).limit(l)` fails on a negative skip; otherwise it returns a prefix of the items after the skip, at most `\|l\|` of them when `l` is not 0, and stops short only at the end of the items |
| Pagination.WindowSlice | src/controllers/feeController.js:36-38 | a successful window is the run of items starting at the skip |
| Pagination.WindowSize | src/controllers/feeController.js:36-38 | the number of documents `.skip(s).limit(l)` returns: none past the end, all the rest with limit 0, and `\|l\|` when that many remain |
| Pagination.PageOfIndex | src/controllers/absenceController.js:7-9 | with a positive limit the item at index `i` appears on page `i / limit + 1`, at position `i % limit`, and that page is counted by `total_pages` |
| Pagination.BeyondLastPage | src/controllers/absenceController.js:136 | a page beyond `total_pages` is empty |
| Chat.Related | src/controllers/chatController.js:275-291 | the relation fails without the teacher's or the student's profile, and when it holds a stored teacher and student of those users share a class through a ClassSubject listing the teacher |
| Chat.RelatedExact | src/controllers/chatController.js:275-291 | under the unique `user_id` indexes the handler's answer is exactly the stored relation, in both directions |
| Chat.CheckChatPermission | src/controllers/chatController.js:255-272 | an unknown recipient is refused; an admin on either side is allowed; a teacher and a student are allowed exactly when related; nothing else is allowed |
| Chat.PermissionSymmetric | src/controllers/chatController.js:255-272 | between two stored users the permission does not depend on who writes first |
| Chat.PermissionExact | src/controllers/chatController.js:255-291 | over the stored records, chatting is allowed exactly when either side is an admin or the two are a teacher and a student sharing a class; `is_active` plays no part |
| Chat.ChatHistory | src/controllers/chatController.js:12-44 | without permission the answer is 403; with it the answer fails only on a negative skip, and is exactly the window at the skip of the pair's messages in either direction, sorted by `createdAt` ascending, so oldest first |
| Chat.ChatHistoryQuery | src/controllers/chatController.js:12-15 | absent `page` and `limit` default to 1 and 50, so with permission and no parameters the answer is the 50 oldest messages of the pair, oldest first; otherwise it is the history for the values given |
| Chat.HistoryPage | src/controllers/chatController.js:27-35 | any window of the sorted conversation holds only messages of the pair, in ascending `createdAt` order |
| Chat.HistoryWhole | src/controllers/chatController.js:27-35 | the first page with `limit(0)` holds exactly the pair's messages |
| Chat.UsersWithId | src/controllers/chatController.js:105-113 | `$lookup` by id then `$unwind` yields exactly the stored users with that id |
| Chat.RelatedStudentUsers | src/controllers/chatController.js:84-122 | the teacher branch's aggregation yields exactly the stored users behind student profiles whose class has a ClassSubject listing the teacher |
| Chat.RelatedTeacherUsers | src/controllers/chatController.js:145-183 | the student branch's aggregation yields exactly the stored users behind teacher profiles listed by a ClassSubject of the class |
| Chat.FilterUnique | src/controllers/chatController.js:67-69 | filtering users with unique ids keeps the ids unique |
| Chat.DedupedUsers | src/controllers/chatController.js:125-130 | after the `Map` de-duplication a list of stored users holds exactly the users it held before, each once |
| Chat.CandidatesExact | src/controllers/chatController.js:58-201 | the contact candidates are exactly the stored users the role table admits (admins: every other active user; teachers: active admins and related students; students: active admins and related teachers; other roles: other active admins), with no user twice |
| Chat.CandidatesOfAdmin | src/controllers/chatController.js:66-70 | an admin's candidates are exactly the other active users, none listed twice |
| Chat.CandidatesOfTeacher | src/controllers/chatController.js:72-131 | a teacher's candidates are exactly the active admins and the students of the classes they teach, none listed twice |
| Chat.CandidatesOfStudent | src/controllers/chatController.js:133-192 | a student's candidates are exactly the active admins and the teachers of their class, none listed twice |
| Chat.CandidatesOfOther | src/controllers/chatController.js:194-200 | any other role's candidates are exactly the active admins other than the caller, none listed twice |
| Chat.TeacherRelation | src/controllers/chatController.js:264-283 | a teacher is related to a user exactly when the teacher's profile teaches the class of that user's student profile |
| Chat.StudentRelation | src/controllers/chatController.js:267-283 | a student is related to a user exactly when that user's teacher profile teaches the student's class |
| Chat.LastMessage | src/controllers/chatController.js:215-221 | `$first` after the descending sort is present exactly for a non-empty group and is a latest message of it |
| Chat.Entries | src/controllers/chatController.js:238-248 | the merge yields one entry per candidate, in candidate order |
| Chat.Contacts | src/controllers/chatController.js:203-251 | the contact list is sorted by descending last-message time and is a permutation of the candidates' entries |
| Chat.ContactsShape | src/controllers/chatController.js:238-251 | the list has one entry per candidate, each carrying that candidate's statistics, and entries with equal times keep candidate order |
| Chat.EntryStats | src/controllers/chatController.js:206-247 | for a candidate other than the caller the last message is a latest message exchanged by the two (none, with time 0, when they never wrote), and the unread count is the number of unread messages the candidate sent the caller |
| Chat.NoCandidatesNoStats | src/controllers/chatController.js:203 | without candidates the answer is `[]` whatever the message store holds |
| Chat.GetContactsForUser | src/controllers/chatController.js:58-252 | the handler's steps (role queries, `Map` de-duplication for teachers and students, early return, merge, sort) produce exactly the contact list defined above |
| Socket.CachedLookup | src/socket.js:18-28 | a fresh entry (younger than five minutes) answers without touching the cache; otherwise the answer is the directory's user, cached with the current time when found, and a miss leaves the cache alone |
| Socket.CacheServesWithinTtl | src/socket.js:18-28 | after a miss that found the user, every lookup within the lifetime returns that cached user whatever the directory holds by then |
| Socket.StaleUserServed | src/socket.js:19-21 | a fresh cache entry is returned for a user the directory no longer has |
| Socket.HandshakeToken | src/socket.js:43 | a non-empty `auth.token` wins; otherwise the second word of the authorization header, and nothing without a header |
| Socket.RoomsFor | src/socket.js:69-94 | a connection is in its own user room; a student is in exactly the room of their class, a teacher in exactly the rooms of classes a ClassSubject lists them in, admins in no class room; no grade room is ever joined |
| Socket.MarkOne | src/socket.js:194-195 | `findByIdAndUpdate` sets `read` on the messages with that id and changes no other message |
| Socket.MarkAllFrom | src/socket.js:196-200 | `updateMany` sets `read` on exactly the unread messages from that sender to the caller |
| Socket.MarkAllFromProperties | src/socket.js:196-200 | marking is idempotent, changes only the `read` flag, and leaves no unread message from that sender to the caller, so that contact's unread count is 0 |
| Socket.MarkOneProperties | src/socket.js:194-195 | marking one message is idempotent, changes only `read`, and leaves that message read |
| Socket.StoreAppend | src/models/Message.js:3-32 | storing a message that passed the schema under the next id keeps every stored message valid and below the next id |
| Socket.StoreMark | src/socket.js:191-205 | marking messages read keeps the store valid |
| Socket.Attachments | src/socket.js:144 | `attachments || []` |
| Socket.Send | src/socket.js:120-173 | a missing recipient, or no content and no attachments, is refused first (exactly then); a refused permission fails; blank content without attachments fails on the schema; a message is sent exactly when the recipient is given, permission holds and there is an attachment or a non-blank character; then the trimmed message is stored unread and `new_message` goes to the recipient's room and the sender's other connections; a failure stores and emits nothing |
| Socket.LiveServer.constructor | src/socket.js:30-38 | the server starts with no message, cache entry, connection or emission |
| Socket.LiveServer.GetCachedUser | src/socket.js:18-28 | the method answers and updates the cache as the lookup function describes |
| Socket.LiveServer.Handshake | src/socket.js:41-63 | a missing or unverifiable token rejects the connection without touching the cache; otherwise the user is the cache's answer for the token's subject, and `is_active` is not checked |
| Socket.LiveServer.Connect | src/socket.js:65-103 | the connection joins exactly its rooms and `user_online` is broadcast to the others, keeping every connection in its own room |
| Socket.LiveServer.SendMessage | src/socket.js:120-173 | the acknowledgement, the stored message (under the next id) and the emissions are those of the send function, and the store stays valid |
| Socket.LiveServer.Typing | src/socket.js:176-188 | `user_typing` or `user_stop_typing` goes to the recipient's room except the sender's connection, and only when a recipient is named |
| Socket.LiveServer.MarkRead | src/socket.js:191-205 | a message id marks that message, else a sender id marks that sender's unread messages to the caller, else nothing changes; the store stays valid |
| Socket.LiveServer.GetContacts | src/socket.js:106-117 | the answer is the caller's contact list over the current store |
| Socket.LiveServer.Disconnect | src/socket.js:207-210 | the connection is dropped and `user_offline` is broadcast to the others |
| Auth.BearerToken | src/middleware/auth.js:7-9 | a token exists exactly when the header starts with "Bearer" and has a non-empty second space-separated word, and it contains no space |
| Auth.Protect | src/middleware/auth.js:4-49 | every refusal is 401; the request passes exactly when the token verifies and names a stored, active user, and then it carries that user |
| Auth.ProtectBearer | src/middleware/auth.js:4-49 | a well-formed `Bearer <token>` header authenticates exactly the stored user the token names when that user is active, and is refused otherwise |
| Auth.Authorize | src/middleware/auth.js:51-63 | the caller passes, unchanged, exactly when their role is listed; otherwise 403 |
| Auth.CheckPermission | src/middleware/auth.js:65-93 | the request passes exactly when the role has a Permission document with an entry for the resource whose flag for the action is set; otherwise 403 |
| Auth.CheckPermissionAfterInit | src/middleware/auth.js:65-93 | once the defaults are installed, an enum role passes exactly the actions the default table grants it, whatever the collection held before |
| Auth.IsOwnerOrAdmin | src/middleware/auth.js:95-117 | admins always pass; anyone else passes exactly when the resource's owner is the caller; otherwise 403 |
| Permissions.SuperAdminFlags | src/models/Permission.js:39-54 | `super_admin` may do every action on every resource |
| Permissions.AdminFlags | src/models/Permission.js:55-70 | `admin` never deletes, reads everything, creates everything except permissions, updates everything except permissions and reports, and is below `super_admin` |
| Permissions.TeacherFlags | src/models/Permission.js:71-86 | `teacher` deletes nothing, creates or updates only absences, reads everything except permissions, and is below `admin` |
| Permissions.StudentFlags | src/models/Permission.js:87-102 | `student` never creates, updates or deletes, reads exactly students, teachers, classes, subjects and class subjects, and is below `teacher` |
| Permissions.DefaultMonotone | src/models/Permission.js:37-104 | the default table is a hierarchy: what a role may do, every role above it may do |
| Permissions.DefaultDoc | src/models/Permission.js:37-104 | a default document holds an entry for every resource, carrying that role's default flags |
| Permissions.RoleDoc | src/models/Permission.js:37-104 | the default document of a role carries that role |
| Permissions.EnumRole | src/models/Permission.js:13 | the default table lists the four enum roles, highest first, each once |
| Permissions.DefaultPermissions | src/models/Permission.js:37-104 | `getDefaultPermissions()` holds four documents, one per enum role, highest first |
| Permissions.RoleIndex | src/middleware/auth.js:68 | the position found is the first document with that role, and there is none exactly when no document has it |
| Permissions.FindByRole | src/middleware/auth.js:68 | `findOne({ role })` answers a stored document of that role, and nothing exactly when none has it |
| Permissions.Upsert | src/models/Permission.js:110-114 | after the upsert the lookup of that role finds the new document; the collection keeps its length or grows by that document at the end |
| Permissions.RoleIndexAppend | src/models/Permission.js:110-114 | a document of a new role appended at the end is found at the end |
| Permissions.RoleIndexUpdate | src/models/Permission.js:110-114 | a document replaced in place is found where it was |
| Permissions.UpsertOther | src/models/Permission.js:110-114 | upserting one role leaves the lookup of every other role unchanged |
| Permissions.RoleIndexPrefix | src/models/Permission.js:110-114 | the lookup depends only on the documents up to the first match |
| Permissions.UpsertPresent | src/models/Permission.js:110-114 | upserting the document the lookup already finds changes nothing |
| Permissions.InitializedDefaults | src/models/Permission.js:106-118 | after initialisation every enum role finds exactly its default document, whatever the collection held |
| Permissions.InitializedFinds | src/models/Permission.js:106-118 | each default document, found after its own upsert, stays found through the later upserts of other roles |
| Permissions.InitializeIdempotent | src/models/Permission.js:106-118 | initialising twice gives the same collection as initialising once |
| Permissions.UpsertUnique | src/models/Permission.js:15 | the upsert keeps the `role` index unique |
| Permissions.PermissionStore.constructor | src/models/Permission.js:10-35 | the collection starts empty, with unique roles |
| Permissions.PermissionStore.InitializePermissions | src/models/Permission.js:106-118 | the loop of upserts leaves the collection the initialised one and keeps roles unique |
| Fees.DerivedStatus | src/models/Fee.js:91-103 | a cancelled fee stays cancelled and nothing else becomes cancelled; otherwise the fee is paid exactly when fully paid, partial exactly when something but not all is paid, and, with nothing paid, overdue exactly after the due date and pending up to it |
| Fees.DerivedStatusIdempotent | src/models/Fee.js:86-103 | deriving the status again at the same instant changes nothing, so a second save keeps the status |
| Fees.SumAppend | src/models/Fee.js:107 | appending a payment adds exactly its amount to the ledger's sum |
| Fees.Fee.constructor | src/models/Fee.js:3-89 | a new fee has nothing paid, an empty ledger, no payment details, the description and notes trimmed, and the status the pre-save hook derives from `pending` |
| Fees.Fee.UpdateStatus | src/models/Fee.js:91-103 | the new status is the derived status of the old one at that instant, and no other field changes |
| Fees.Fee.AddPayment | src/models/Fee.js:105-114 | exactly one payment is appended and earlier ones are kept; the paid amount becomes the ledger's sum; exactly when the fee is then fully paid, the payment date, method and trimmed transaction id are copied from the payment; the status is derived again |
| Fees.Fee.Save | src/models/Fee.js:28-89 | a negative amount or paid amount is rejected with the document unchanged; otherwise the hook derives the status |
| FeeController.Rollup | src/controllers/feeController.js:399-410 | the student is overdue exactly when some fee is overdue, else partial exactly when some fee is partial, else pending exactly when some fee is pending, else paid (also with no fees) |
| FeeController.RollupOrderIndependent | src/controllers/feeController.js:399-410 | two lists holding the same statuses roll up alike, whatever the order the query returns them in |
| FeeController.StudentFeeStatus | src/controllers/feeController.js:399-410 | the loop with its early `break` computes the priority roll-up |
| FeeController.StudentStatuses | src/controllers/feeController.js:394-397 | the query yields exactly the statuses of the student's fees that are not cancelled |
| FeeController.StudentStatusOfStore | src/controllers/feeController.js:393-413 | the student is overdue exactly when one of their fees is overdue, and is paid when all their fees are paid or cancelled (also with no fees) |
| FeeController.TotalDueIsSumOfBalances | src/controllers/feeController.js:83-85 | `total_due` equals the sum of each fee's outstanding balance, and is never negative when no fee is overpaid |
| FeeController.IndexOf | src/controllers/feeController.js:362 | the position found holds a fee with that id, and none is found exactly when no fee has it |
| FeeController.DeleteFee | src/controllers/feeController.js:361-391 | an unknown fee gives 404; a fee with payments gives 400; otherwise exactly that fee is removed and the others keep their order |
| FeeController.DeleteFeeHandler | src/controllers/feeController.js:361-391 | the handler fails exactly as the guard does; on success the fee is removed and the student's `fee_status` is the roll-up of the student's remaining fees |
| FeeController.DeleteCancelledKeepsStatus | src/controllers/feeController.js:385-397 | with distinct fee ids, deleting a cancelled fee leaves the statuses the roll-up reads unchanged, so the student's `fee_status` stays as it was |
| FeeController.DropCancelledStatus | src/controllers/feeController.js:394-397 | a cancelled fee anywhere in the list contributes nothing to the statuses the roll-up reads |
| FeeController.StatusesAppend | src/controllers/feeController.js:394-397 | the statuses read from two lists of fees joined are those of the first followed by those of the second |
| FeeController.DeleteKeepsPaid | src/controllers/feeController.js:372-382 | an accepted deletion never loses a recorded payment: the total paid over the store is unchanged |
| FeeController.TotalPaidSplit | src/controllers/feeController.js:84 | the total paid splits into one fee's paid amount plus the total of the others |
| FeeController.RecordPayment | src/controllers/feeController.js:155-212 | 404 without a fee; 400, with the fee unchanged, for a cancelled fee or a payment above the remaining balance; success exactly otherwise (for a payment that leaves the paid amount non-negative), and then exactly one payment is recorded, the paid amount grows by it, the status is derived again, amount, due date, description and notes are kept, a fee that was not overpaid is still not overpaid, and the payment date becomes now, with the method and trimmed transaction id, exactly when the fee is then fully paid, the old payment details staying otherwise |
| FeeController.UpdateFee | src/controllers/feeController.js:314-359 | 404 without a fee; 400, with the fee unchanged, when something was paid and a non-zero new amount is below it, or when the new amount is negative (the schema's minimum); success exactly otherwise, and then the amount and status change when supplied, the due date when truthy, the description and notes to their trimmed values when supplied, the ledger and payment details are kept, and the status is derived from the requested or current one |
| FeeController.ApplyFeeUpdate | src/controllers/feeController.js:334-340 | the assignments and save of an accepted edit: the fee takes the given amount, due date, description and notes, its status is the one derived from the given status, and the paid amount, ledger and payment details are kept |
| FeeController.ZeroAmountSlipsPastGuard | src/controllers/feeController.js:326 | a new amount of 0 passes the guard on a paid fee, which then reads as fully paid |
| Exams.Weight | src/controllers/examController.js:231 | a missing or zero `points` weighs 1; any other value weighs itself |
| Exams.FindAnswer | src/controllers/examController.js:238 | the answer found is the first one naming the question, and none is found exactly when no answer names it |
| Exams.GradeOne | src/controllers/examController.js:238-252 | the graded entry names the question, is correct exactly when the first answer to it selects the correct option, and records -1 for an unanswered question |
| Exams.ScoreBounds | src/controllers/examController.js:225-246 | with non-negative weights the score lies between 0 and the total, and the total is at least the number of questions |
| Exams.ScoreExtremes | src/controllers/examController.js:238-246 | answering every question correctly scores the total; submitting no answers scores 0 |
| Exams.ResultStatus | src/controllers/examController.js:255-256 | with a positive total the result is passed exactly when `score * 100 >= passingScore * total`; with no points (0/0 is NaN) it is passed only for a positive score |
| Exams.PassRule | src/controllers/examController.js:255-256 | an exam without questions is always failed; with questions a better score never turns a pass into a failure |
| Exams.Grade | src/controllers/examController.js:225-253 | the grading loop computes the score and the total, and one graded entry per question in question order |
| Exams.ResultStore.constructor | src/controllers/examController.js:258 | the result collection starts empty |
| Exams.ResultStore.SubmitExam | src/controllers/examController.js:210-280 | 404 without the exam; 400 for a second submission by the same student, before any grading and with nothing stored; otherwise exactly one graded result is stored and returned, with the pass rule's status, keeping one result per student and exam |
| Exams.Stripped | src/controllers/examController.js:194-197 | what a student is sent differs from the exam only in its questions, each with `correctOption` removed |
| Exams.GetExam | src/controllers/examController.js:171-205 | 404 without the exam; staff get it as stored; a student gets 404 without a profile or class, 403 without class or grade access, 400 when already taken, and otherwise the exam without answers |
| Exams.CanModify | src/controllers/examController.js:290-293 | the caller may edit or delete exactly when an admin or the exam's creator |
| Exams.IsCompleted | src/controllers/examController.js:96-100 | an exam is completed exactly when the caller has a result for it |
| Exams.View | src/controllers/examController.js:141-143 | a listed exam keeps its id, course, class and grade; students get it without answers, staff as stored |
| Exams.IndependentExams | src/controllers/examController.js:115-166 | a student without a profile or class gets `[]`; otherwise the list holds, as the caller may see it, exactly the stored exams the query admits |
| Exams.StudentSeesCourseExam | src/controllers/examController.js:130-136 | as written, a student is listed an exam that belongs to a course |
| Exams.IntendedIndependentExams | src/controllers/examController.js:115-136 | with the course condition kept, no listed exam has a course, a student sees exactly the course-free exams of their class or grade, and staff see the same list as before |
| Exams.NormalizeId | src/controllers/examController.js:301-312 | an object gives its `_id`; `""`, `"none"` and null become null; a reference is kept |
| Exams.CreateId | src/controllers/examController.js:34-36 | only a real reference survives creation; falsy values and `"none"` become null |
| Exams.NormalizeAgrees | src/controllers/examController.js:301-312 | creation and update normalise a scalar id alike, and a kept reference normalises to itself |
| Exams.Sent | src/controllers/examController.js:298-319 | a field sent replaces the stored one; a field not sent keeps it |
| Exams.SentId | src/controllers/examController.js:301-312 | an id field sent is stored normalised; one not sent is kept |
| Exams.ApplyUpdate | src/controllers/examController.js:295-326 | the update never changes the exam's id or creator, and an empty body changes nothing |
| Exams.ApplyUpdateIdempotent | src/controllers/examController.js:295-326 | sending the same update twice leaves the exam as sending it once |
| Exams.AnnounceTo | src/controllers/examController.js:49-53 | `new_exam` goes to the class room when the exam has a class, else to the grade room for a non-zero grade, else nowhere |
| Exams.UpdateExam | src/controllers/examController.js:285-351 | 404 without the exam; 403 unless the caller may modify it; 400 exactly when `runValidators` rejects a path the update sets (empty title, null class or subject, malformed questions, grade outside 1..12); otherwise the updated exam, announced by the same rule |
| Exams.UpdateKeepsSchema | src/controllers/examController.js:322-326 | an exam that satisfied the schema still satisfies it after an accepted update, as `runValidators` checks each path the update sets |
| Exams.ExamIndex | src/controllers/examController.js:357 | the position found holds an exam with that id, and none is found exactly when no exam has it |
| Exams.DeleteExam | src/controllers/examController.js:356-372 | 404 exactly for an unknown id; 403 when the caller may not modify the exam; otherwise exactly that exam is removed and the others keep their order |
| Exams.CreateExam | src/controllers/examController.js:10-69 | 404 exactly for a course id naming no course or the word `none` (which `findById` cannot cast); success exactly when, besides, title, class, subject, duration, passing score and questions pass the schema and the final grade is within 1..12; the stored exam holds the request's fields, the inherited grade and its creator, satisfies the schema, and is announced to its class |
| Exams.FinalGrade | src/controllers/examController.js:24-30 | a non-zero grade sent is kept; a zero or missing one is inherited from the class when the class names one |
| StudentController.BuildFilter | src/controllers/studentController.js:11-25 | a student matches exactly when it meets the query's conditions and, for a student caller, belongs to the caller |
| StudentController.GetStudents | src/controllers/studentController.js:6-205 | a negative skip or limit fails with 500; otherwise the total counts the matching students, `total_pages` is the ceiling of total over limit, page and size are echoed, the rows are the window of the sorted candidates less those whose user the `$unwind` drops, only the caller's own for a student, and each row's `total_absences` is the number of distinct dates of the student's approved absences |
| StudentController.PageRows | src/controllers/studentController.js:46-60 | the page of candidates after `$unwind` has at most `limit` students, newest first, all matching the filter and, for a student caller, only their own |
| StudentController.GetStudentsWindow | src/controllers/studentController.js:46-60 | when every student's user exists, the `$unwind` drops nobody and the rows are exactly the window at the skip of the sorted candidates |
| StudentController.RowsDaysPresent | src/controllers/studentController.js:159-189 | the `map` over the rows gives one `days_present` per row, never negative, 0 for an enrolment after today, and with distinct weekend days the working days since enrolment less the row's `total_absences`, floored at 0 |
| StudentController.RowsMatch | src/controllers/studentController.js:46-50 | every row the pipeline keeps is a stored student meeting the query, and the caller's own for a student |
| StudentController.Weekdays | src/controllers/studentController.js:178-183 | a range of `n` days holds at most `n` working days |
| StudentController.DaysPresent | src/controllers/studentController.js:159-189 | `days_present` is 0 for an enrolment after today; otherwise it is the shortcut's working days less the absences, floored at 0; with distinct weekend days it is the true number of working days in the range less the absences, between 0 and the number of days |
| StudentController.ShortcutCounts | src/controllers/studentController.js:168-183 | with distinct weekend days the full-weeks shortcut plus the remainder loop counts exactly the working days of the range |
| StudentController.WeekdaysSplit | src/controllers/studentController.js:168-183 | the working days of two adjacent ranges add up |
| StudentController.ModShift | src/controllers/studentController.js:179 | days with the same weekday keep the same weekday when shifted alike |
| StudentController.WeekdaysShift | src/controllers/studentController.js:179 | ranges starting on the same weekday hold the same number of working days |
| StudentController.FirstWeek | src/controllers/studentController.js:178-183 | the first `k <= 7` days from a day 0 hold `k` less the weekend days among them |
| StudentController.HitsSnoc | src/controllers/studentController.js:179 | adding a new weekend day adds one hit exactly when it lies below the bound |
| StudentController.HitsAll | src/controllers/studentController.js:173 | every one of the distinct weekend days falls in a week |
| StudentController.HitsEmpty | src/controllers/studentController.js:179 | without weekend days there are no hits |
| StudentController.WeekdaysWeek | src/controllers/studentController.js:173 | any seven consecutive days hold `7 - weekendDays.length` working days |
| StudentController.WeekdaysWeeks | src/controllers/studentController.js:169-173 | `m` full weeks hold `m * (7 - weekendDays.length)` working days |
| StudentController.ClassEntriesStep | src/controllers/studentController.js:279-289 | one turn of the first loop adds the class subject's entry exactly when its subject populates |
| StudentController.IndividualEntriesStep | src/controllers/studentController.js:292-303 | one turn of the second loop adds the enrolment's entry exactly when its ClassSubject and subject populate |
| StudentController.IndexSnoc | src/controllers/studentController.js:276-303 | the map of a list with one more item is the earlier map with that item set |
| StudentController.ClassIndexStep | src/controllers/studentController.js:279-289 | a class subject with a populated subject sets its entry under its id; any other leaves the map unchanged |
| StudentController.IndividualIndexStep | src/controllers/studentController.js:292-303 | an enrolment whose ClassSubject and subject populate sets its individual entry over whatever was there |
| StudentController.MergeSubjects | src/controllers/studentController.js:276-305 | the two `forEach` loops over the `Map` produce exactly the merged subject list |
| StudentController.SetClassEntries | src/controllers/studentController.js:279-289 | the first `forEach` indexes every class subject whose subject populated by its ClassSubject id |
| StudentController.SetIndividualEntries | src/controllers/studentController.js:292-303 | the second `forEach` sets each enrolment's ClassSubject on top of what the map already holds, in enrolment order |
| StudentController.ClassEntriesMembers | src/controllers/studentController.js:279-289 | every class subject with a populated subject gets a class entry, and only such entries are set |
| StudentController.IndividualEntriesMembers | src/controllers/studentController.js:292-303 | every enrolment whose ClassSubject and subject populate gets an individual entry, and only such entries are set |
| StudentController.LaterWins | src/controllers/studentController.js:292-305 | a key set in the second loop ends up holding a value from the second loop |
| StudentController.ValueOfKey | src/controllers/studentController.js:305 | the listed value of a key is the map's value for it |
| StudentController.EarlierKept | src/controllers/studentController.js:279-305 | a class entry whose key no enrolment sets keeps its value |
| StudentController.MergedEntries | src/controllers/studentController.js:276-305 | each ClassSubject appears once, and every listed entry was set by one of the loops and has a subject |
| StudentController.MergedOverrides | src/controllers/studentController.js:276-305 | an enrolled individual subject always overrides the class entry for the same ClassSubject; every active class subject with a subject is listed, as a class entry unless an enrolment overrides it |
| StudentController.IndividualKeys | src/controllers/studentController.js:294 | an individual entry is keyed by the ClassSubject of some enrolment |
| StudentController.UserIndex | src/controllers/studentController.js:341 | the position found holds the first user with that id, and agrees with the user lookup |
| StudentController.DistinctPrefix | src/controllers/studentController.js:390 | an ordered `insertMany` writes the longest prefix without a repeated ClassSubject, and stops at the first repeat |
| StudentController.NewEnrolments | src/controllers/studentController.js:384-390 | one `enrolled` enrolment per given ClassSubject, in order, under fresh ids |
| StudentController.ForceStudent | src/controllers/studentController.js:350-353 | the user becomes a student and every other user is kept |
| StudentController.AddStudent | src/controllers/studentController.js:355-404 | the request succeeds exactly when the class exists, the user has no profile, the document validates with a unique code and the ClassSubject ids are distinct; a refusal changes nothing; a created student is appended active and overdue with its enrolments; the unique `user_id` index is kept |
| StudentController.CreateStudent | src/controllers/studentController.js:338-404 | an unknown user gives 404 with nothing changed; otherwise the user is switched to student first, and stays switched even when a later check fails |
| StudentController.AppendValid | src/controllers/studentController.js:375-390 | appending a new student without a profile and its enrolments keeps the store's unique index and fresh ids |
| StudentController.UserIndexUpdate | src/controllers/studentController.js:350-353 | a user saved in place is found where it was |
| StudentController.StudentIndex | src/controllers/studentController.js:409 | the position found holds the first student with that id, and none is found exactly when no student has it |
| StudentController.StudentIndexUpdate | src/controllers/studentController.js:442 | a student saved in place is found where it was |
| StudentController.MergeParents | src/controllers/studentController.js:432-434 | the merge the spread evidently intends (see "## Findings"): each `parent_info` key the patch carries replaces the stored one, and the others are kept |
| StudentController.MergeParentsAsWritten | src/controllers/studentController.js:432-434 | as written, spreading the stored Mongoose subdocument copies none of its fields, so the result is only the patch |
| StudentController.ParentMergeLosesFather | src/controllers/studentController.js:432-434 | a stored father and a patch with only a mother: the spread as written loses the father, the intended merge keeps him and adds the mother |
| StudentController.Patched | src/controllers/studentController.js:420-440 | only the fields the patch gives change, `parent_info` is merged key by key, and the ids, code and dates are kept |
| StudentController.UpdateStudent | src/controllers/studentController.js:406-462 | 404 for an unknown student or new class, with nothing changed; otherwise the patched student is saved; class counts are recomputed only when a different class is given; a student that had no class then fails with 500 after the save |
| StudentController.UpdateStudentTwice | src/controllers/studentController.js:406-462 | sending the same update again changes nothing and recomputes no class |
| Enrolments.EnrolmentIndex | src/controllers/studentSubjectController.js:93-96 | the position found holds the first enrolment of the student in the ClassSubject, and none is found exactly when there is none |
| Enrolments.FindClassSubject | src/controllers/studentSubjectController.js:55-58 | the ClassSubject found is stored and links that class and subject, and none is found exactly when no stored one does |
| Enrolments.ResolveClassSubject | src/controllers/studentSubjectController.js:52-74 | with only `subject_id`, the ClassSubject of the student's class and that subject is reused, or exactly one active ClassSubject without teachers is created under the next id (500 when the class document is missing); otherwise the request's ClassSubject id is kept |
| Enrolments.Place | src/controllers/studentSubjectController.js:93-110 | an existing enrolment that is not `enrolled` is flipped in place (200); an `enrolled` one is refused with nothing changed (400); otherwise exactly one enrolment is appended (201); unless refused the student's enrolment is then `enrolled`, and the unique index is kept |
| Enrolments.FlipKeepsIndex | src/controllers/studentSubjectController.js:99-101 | flipping a status in place keeps the enrolment where it was and the unique index intact |
| Enrolments.AppendKeepsIndex | src/controllers/studentSubjectController.js:107-110 | appending the first enrolment of a pair finds it at the end and keeps the unique index intact |
| Enrolments.EnrollRefusals | src/controllers/studentSubjectController.js:43-91 | 404 for an unknown student; 400 when neither id is given; 404 for an unknown ClassSubject; 400 for a ClassSubject of another class; 500 for a student without a class; each leaves the store unchanged |
| Enrolments.EnrollKeepsStore | src/controllers/studentSubjectController.js:43-117 | every request keeps the unique (student, ClassSubject) index and fresh ids |
| Enrolments.Enroll | src/controllers/studentSubjectController.js:43-117 | the answer is 200, 201, 400, 404 or 500; every refusal leaves the enrolments as they were; 200 flips one of the student's enrolments that was not `enrolled` to `enrolled` and changes nothing else; 201 keeps every enrolment and appends one `enrolled` enrolment of the student |
| Enrolments.ResolveKeepsStore | src/controllers/studentSubjectController.js:52-74 | creating a ClassSubject on the fly keeps the store invariant under the next id |
| Enrolments.EnrollSuccess | src/controllers/studentSubjectController.js:43-117 | a 200 or 201 leaves the student `enrolled` in a ClassSubject of their own class (the given one, or the one found or created for the subject); 200 is exactly the student's existing enrolment in that ClassSubject flipped to `enrolled`, every other enrolment unchanged; 201 appends exactly one enrolment |
| Enrolments.EnrollBySubject | src/controllers/studentSubjectController.js:52-74 | the subject-only form reuses an existing ClassSubject, or creates exactly one and enrols the student in it, or fails with 500 and no change when the class document is missing |
| Enrolments.ClassSubjectByIdLast | src/controllers/studentSubjectController.js:80 | a ClassSubject with a fresh id is found by that id |
| Enrolments.StudentSubjects | src/controllers/studentSubjectController.js:4-41 | the list has one row per `enrolled` enrolment of the student, in stored order; a row whose ClassSubject is gone makes the request fail with 500 |
| Enrolments.Rows | src/controllers/studentSubjectController.js:27-34 | the projection keeps one row per enrolment, in order, with the enrolment's id and status and its ClassSubject's id, subject and teachers, and fails exactly when some ClassSubject is missing |
| Enrolments.RemoveKeepsValid | src/controllers/studentSubjectController.js:123-126 | deleting the pair's enrolment leaves none for the pair and keeps the unique index |
| Enrolments.EnrolmentStore.constructor | src/controllers/studentSubjectController.js:1 | the store starts empty |
| Enrolments.EnrolmentStore.EnrollStudent | src/controllers/studentSubjectController.js:43-117 | the method leaves the store and answers the code exactly as the enrolment transition describes, flipping a re-enrolment in place, and keeps the store invariant |
| Enrolments.EnrolmentStore.UnenrollStudent | src/controllers/studentSubjectController.js:119-136 | 404 with nothing changed when the pair has no enrolment; otherwise exactly that enrolment is deleted; afterwards the pair has none |
| Notifications.Project | src/controllers/notificationController.js:20-39 | a row keeps the notification's id, time and type; it is global exactly when there is no recipient, and read exactly when the stored flag (personal) or `read_by` membership (global) says so |
| Notifications.ProjectAll | src/controllers/notificationController.js:20 | one projected row per notification, in order |
| Notifications.MyNotificationsContents | src/controllers/notificationController.js:7-45 | the list holds min(50, visible) rows, newest first, each the projection of a notification addressed to the user or global; a visible notification is left out only when more than 50 are visible, and then it is no newer than any shown |
| Notifications.MyNotifications | src/controllers/notificationController.js:7-45 | the list holds at most 50 rows, newest first |
| Notifications.NewNotification | src/controllers/notificationController.js:50-67 | a missing title or message, or a type outside the enum, fails with 400; `"all"` or no recipient stores a global notification, a user id a personal one; the caller is stored as sender, the titles trimmed, the messages as sent, a non-empty valid type as given and otherwise info; nobody has read the new notification |
| Notifications.MarkRead | src/controllers/notificationController.js:78-89 | a personal notification answers 403 to anyone but its recipient; otherwise the caller now reads it as read, no other field and no other user's read state changes, and `read_by` gains the caller only if absent |
| Notifications.MarkReadIdempotent | src/controllers/notificationController.js:86-88 | marking twice is marking once, and `read_by` never comes to list a user twice |
| Notifications.IndexOf | src/controllers/notificationController.js:73 | the position found holds the first notification with that id, and none is found exactly when there is none |
| Notifications.NotificationStore.constructor | src/controllers/notificationController.js:1 | the collection starts empty |
| Notifications.NotificationStore.Send | src/controllers/notificationController.js:50-67 | a valid notification is stored under the next id and returned; a refused one stores nothing |
| Notifications.NotificationStore.MarkAsRead | src/controllers/notificationController.js:72-97 | 404 for an unknown id and 403 for someone else's personal notification, each with nothing changed; otherwise exactly that notification is marked |
| Notifications.NotificationStore.Delete | src/controllers/notificationController.js:102-122 | 404 for an unknown id; 403, with nothing changed, for a personal notification of someone else when the caller is no admin; otherwise exactly that notification is removed, so any caller may delete a global one |
| Dashboard.StudentStatsOf | src/controllers/dashboardController.js:10-31 | the total is the number of students, the active ones are among them, and the four fee-status counts add up to the total |
| Dashboard.FeeStatusesPartition | src/controllers/dashboardController.js:15-18 | every student falls in exactly one of the four fee-status facets |
| Dashboard.StatsDefault | src/controllers/dashboardController.js:79 | the all-zero fallback is exactly what the pipeline reports for no students, and a present result is used unchanged |
| Dashboard.FinancialHealth | src/controllers/dashboardController.js:82-97 | the expected and collected totals add up every group, cancelled included; each tracked status's figure is its group's total (0 when absent) |
| Dashboard.FeeGroupsHealth | src/controllers/dashboardController.js:33-41 | over the grouped fees, each tracked figure is the sum of its fees' amounts, the expected total is the sum of all amounts (the four figures plus the cancelled amount) and the collected total the sum of all paid amounts |
| Dashboard.TrackedFigures | src/controllers/dashboardController.js:35-38 | each status's figure is the sum of the amounts of the fees with that status |
| Dashboard.AmountPartition | src/controllers/dashboardController.js:36-37 | every fee's amount is counted in exactly one status group |
| Dashboard.PaidPartition | src/controllers/dashboardController.js:36-38 | every fee's paid amount is counted in exactly one status group |
| Dashboard.ClassCapacity | src/controllers/dashboardController.js:43-47 | min(5, classes) classes, all taken from the collection, fullest first, and no class left out holds more students than one shown |
| Dashboard.StudentActivities | src/controllers/dashboardController.js:100-107 | one "new student" entry per student, with its id and creation time |
| Dashboard.AbsenceActivities | src/controllers/dashboardController.js:108-118 | one "absence reported" entry per absence, with its id and creation time |
| Dashboard.RecentActivityContents | src/controllers/dashboardController.js:49-119 | the strip holds min(5, min(3, students) + min(3, absences)) entries, newest first, each drawn from a document of its kind |
| Dashboard.RecentActivityNewest | src/controllers/dashboardController.js:119 | a student among the three newest that did not make the strip is no newer than any entry shown |
| Dashboard.RecentActivityNewestAbsence | src/controllers/dashboardController.js:119 | an absence among the three newest that did not make the strip is no newer than any entry shown |
| Dashboard.RecentActivity | src/controllers/dashboardController.js:49-119 | the strip holds at most five entries, newest first |
| Dashboard.ClassById | src/controllers/dashboardController.js:128 | the class found has the id asked for, and none is found exactly when no class has it |
| Dashboard.LatestUpdate | src/controllers/dashboardController.js:137-140 | nothing exactly when no listed class has an update; otherwise the latest update among them |
| Dashboard.HasScheduleUpdate | src/controllers/dashboardController.js:122-149 | the flag is never raised for a role other than student or teacher |
| Dashboard.LastScheduleUpdate | src/controllers/dashboardController.js:122-149 | no instant for a role other than student or teacher; an instant given is the schedule update of a stored class; for a teacher with a profile it is at least the update of every class they teach that has one |
| Dashboard.TeacherScheduleFlag | src/controllers/dashboardController.js:131-148 | a teacher sees the flag exactly when a class of some ClassSubject listing them has an update newer than their last view (or they never viewed) |
| Dashboard.StudentScheduleFlag | src/controllers/dashboardController.js:125-148 | a student sees the flag exactly when their own class exists and has an update they have not seen |
| Dashboard.CountKeyZero | src/controllers/dashboardController.js:204 | a key counts zero exactly when no approved absence falls on it |
| Dashboard.Aggregate | src/controllers/dashboardController.js:182-197 | a key is in the map exactly when some approved absence falls on it, with the number of such absences |
| Dashboard.Chart | src/controllers/dashboardController.js:198-207 | the chart has `n` consecutive buckets ending at the current key, each with the count of approved absences on its key |
| Dashboard.AttendanceStats | src/controllers/dashboardController.js:172-276 | the range defaults to monthly; daily, monthly and yearly give 7, 12 and 5 buckets ending at today, this month and this year; any other range gives none |
| Dashboard.ChartTotal | src/controllers/dashboardController.js:198-269 | a chart's bars add up to the approved absences whose key lies in its range, each counted once |
| Dashboard.CountInEmpty | src/controllers/dashboardController.js:198 | an empty key range counts no absence |
| Dashboard.EndOfDay | src/controllers/dashboardController.js:298 | the end of the day is the last millisecond of the day the instant lies in |
| Dashboard.DateFilter | src/controllers/dashboardController.js:286-305 | the filter is dropped exactly when neither date parses; an instant passes it exactly when it is at or after a parsed start and at or before the end of a parsed end day |
| Dashboard.FetchLimit | src/controllers/dashboardController.js:335 | the fetch limit is the larger of `skip + limit + 100` and 200 |
| Dashboard.Candidates | src/controllers/dashboardController.js:378-400 | the merged candidates are sorted newest first |
| Dashboard.CandidatesFrom | src/controllers/dashboardController.js:337-372 | each candidate is a student (only when the type admits students) or an absence (only when it admits absences) whose creation time passes the date filter |
| Dashboard.SystemActivities | src/controllers/dashboardController.js:278-415 | page and limit default to 1 and 20, and the answer is that page of the candidates merged, newest first, from sources each fetched up to `max((page - 1) * limit + limit + 100, 200)` |
| Dashboard.PageOf | src/controllers/dashboardController.js:403 | the page is the slice `[skip, skip + limit)` of the candidates and stays sorted newest first |
| Dashboard.SystemActivitiesWindow | src/controllers/dashboardController.js:279-403 | with a positive page and limit the answer is the run of at most `limit` candidates from `(page - 1) * limit`, and each source's fetch limit reaches past its end |
| Dashboard.PageWindow | src/controllers/dashboardController.js:281-403 | a page is the run of at most `limit` candidates starting at `(page - 1) * limit` |
| Dashboard.SlicePage | src/controllers/dashboardController.js:403 | a slice of a sorted list is a sorted run of it, of at most `limit` entries |
| Dashboard.SystemActivitiesSources | src/controllers/dashboardController.js:286-403 | every entry of the page is a document of a kind the type admits, created within the parsed date bounds |
| Dashboard.FeedStudents | src/controllers/dashboardController.js:337-349 | at most the fetch limit of students, none when the type excludes students, each a stored student created within the date bounds |
| Dashboard.FeedAbsences | src/controllers/dashboardController.js:351-372 | at most the fetch limit of absences, none when the type excludes absences, each a stored absence created within the date bounds |
| Dashboard.AllActivities | src/controllers/dashboardController.js:378-400 | the activities of every student and absence the type and date bounds admit, sorted newest first: the list the page should be cut from |
| Dashboard.CandidatesComplete | src/controllers/dashboardController.js:335-400 | for every instant, the merged candidates of a fetch limit hold as many activities at or after it as the full list does, up to the fetch limit, and as many activities in all, up to the fetch limit |
| Dashboard.FeedPageExact | src/controllers/dashboardController.js:335-403 | the run from `skip` of `limit` candidates fetched with `max(skip + limit + 100, 200)` has the same creation times, place by place, as the same run of the full list |
| Dashboard.PageExact | src/controllers/dashboardController.js:278-403 | for every page and limit of at least one, a page cut from candidates that agree with the full sorted list on their newest `max((page - 1) * limit + limit + 100, 200)` has the same creation times, place by place, as the same page of the full list; with `Dashboard.CandidatesComplete` and the contract of `Dashboard.SystemActivities` this says the fetch limit loses nothing from any page |
| Absences.NewAbsence | src/controllers/absenceController.js:178-245 | 404 for an unknown student and for a missing or unknown ClassSubject; success exactly when the ClassSubject belongs to the student's class, the slot (with defaults filled in) is not yet recorded and the period is one the schema accepts; the new absence is pending, reported by the caller, with session, period and reason defaulted, and details and notes trimmed as the schema's `trim` setters store them |
| Absences.CreateTwiceRefused | src/controllers/absenceController.js:219-233 | repeating a request that created an absence is refused with 400 |
| Absences.FifthPeriodRefused | src/models/Absence.js:23-26 | a `fifth_period` request, which the request validator lets through, is never stored |
| Absences.Updated | src/controllers/absenceController.js:283-290 | an approve or reject sets the status with the approver and the time, any other status leaves all three; reason changes only when supplied, details and notes only when supplied and then trimmed; nothing else changes |
| Absences.UpdatedIdempotent | src/controllers/absenceController.js:283-292 | applying the same update twice at the same instant is applying it once |
| Absences.MatchingAbsences | src/controllers/absenceController.js:11-30 | exactly the stored absences the filter matches, with the id filters cast as evidently intended (see "## Findings"), a date range replacing the single date only when both ends are given |
| Absences.IdFilterMatchesNothing | src/controllers/absenceController.js:13-18 | as written, a `student_id` or `class_subject_id` filter is a string that `$match` compares against ObjectIds without casting, so it matches no absence at all |
| Absences.IdFilterAsWritten | src/controllers/absenceController.js:13-15 | an absence of student 7 is listed when filtering by student 7 with a cast id, and missed by the uncast filter |
| Absences.GetAbsences | src/controllers/absenceController.js:6-140 | a negative skip or limit fails with 500; otherwise the total is the number of matches, the page count is its ceiling over the limit, the current page and page size are echoed, and the page is exactly the window at the skip of the matches sorted by date, newest first |
| Absences.Listing | src/controllers/absenceController.js:128-139 | the listing reports every match in its totals, echoes page and size, and its page is exactly the window at the skip of the matches sorted newest first |
| Absences.SortedPage | src/controllers/absenceController.js:34-39 | a page of the date-sorted matches is sorted, within the limit, and drawn from the matches |
| Absences.PageSorted | src/controllers/absenceController.js:34-39 | a run of a list sorted by date is sorted the same way |
| Absences.ByReason | src/controllers/absenceController.js:372-374 | one group per reason that occurs, with the number of absences giving that reason |
| Absences.StudentReport | src/controllers/absenceController.js:339-454 | 404 exactly for an unknown student; otherwise the total counts the student's approved absences in the date bounds, the reason groups are exactly `ByReason` of those absences, adding up to it with each group's count, `recent` holds the ten (or fewer) newest of them, none more often than it matches, and nothing left out is newer, and `by_subject` is the per-ClassSubject grouping whose counts add up to the total |
| Absences.RecentNewest | src/controllers/absenceController.js:375-378 | `$sort` by date descending then `$limit: 10` keeps each absence at most as often as it matches, and leaves out only absences no newer than every kept one |
| Absences.GroupKeys | src/controllers/absenceController.js:399-403 | the `$group` keys are distinct, one per ClassSubject id (or none) that some absence carries, and every absence's key is among them |
| Absences.BySubject | src/controllers/absenceController.js:397-431 | one group per distinct ClassSubject id, each with the number of absences carrying it and their dates in store order, named after the looked-up subject or `General`/`GEN` when the lookup finds none, and the counts add up to the number of absences |
| Absences.KeysCountAll | src/controllers/absenceController.js:399-403 | counting per group key and adding up counts every absence exactly once |
| Absences.ReasonsPartition | src/controllers/absenceController.js:371-374 | the reason groups together count every absence exactly once |
| Absences.ReasonGroups | src/controllers/absenceController.js:371-374 | a report has a reason group exactly when some of its absences give that reason, and no reason has two groups |
| Absences.ReasonCountsSum | src/models/Absence.js:28-31 | the four reasons of the schema cover every absence |
| Absences.ByReasonSum | src/controllers/absenceController.js:373 | the groups of a list of reasons add up to the absences with those reasons |
| Absences.AbsenceStore.constructor | src/controllers/absenceController.js:1 | the collection starts empty |
| Absences.AbsenceStore.Create | src/controllers/absenceController.js:178-245 | stores exactly the absence `NewAbsence` builds under the next id, or nothing when it refuses |
| Absences.AbsenceStore.IndexOf | src/controllers/absenceController.js:274 | the position found holds an absence with that id, and none is found exactly when there is none |
| Absences.AbsenceStore.Update | src/controllers/absenceController.js:271-292 | 404 with nothing changed for an unknown id; otherwise only that absence changes, as `Updated` says |
| Absences.AbsenceStore.Delete | src/controllers/absenceController.js:319-330 | 404 with nothing changed for an unknown id; otherwise exactly that absence is removed |
| Absences.Find | src/controllers/absenceController.js:320 | the position found holds an absence with that id, and none is found exactly when there is none |
| Courses.FirstPrimary | src/controllers/courseController.js:43 | the position found is the first primary teacher, and none is found exactly when no teacher is primary |
| Courses.AssignedTeacher | src/controllers/courseController.js:41-48 | nobody exactly when the ClassSubject has no teachers; otherwise the first primary teacher, or the first teacher when none is primary |
| Courses.ListedClassSubject | src/controllers/courseController.js:27-30 | the ClassSubject found has the id asked for and lists the teacher; none is found exactly when no such ClassSubject lists them |
| Courses.FindClassSubjectArg | src/controllers/courseController.js:38 | the ClassSubject found has the id asked for; none is found exactly when the id is missing or unknown |
| Courses.CreateCourse | src/controllers/courseController.js:13-58 | a teacher without a profile gets 404 and one not listed in the ClassSubject 403; an admin gets 404 for an unknown ClassSubject; other roles 403; a blank title 400; success exactly when the caller passes these checks and the trimmed title is not empty; a created course is active, has no materials, the trimmed title, and the teacher (the caller, or the assigned teacher for an admin) |
| Courses.CreatedCourseTeacherListed | src/controllers/courseController.js:19-51 | whoever creates a course, its teacher is one its ClassSubject lists |
| Courses.GetCourses | src/controllers/courseController.js:81-122 | a teacher without a profile gets 404 and a role other than teacher, student or admin 403; otherwise the list is sorted newest first |
| Courses.GetCoursesContents | src/controllers/courseController.js:85-108 | a listed course is exactly a stored course the caller may see (own for a teacher, active and of the own class for a student, all for an admin), as often as it is stored |
| Courses.NewCourseMaterial | src/controllers/courseController.js:132-161 | a material exists exactly when the title is not blank, the type is in the enum and the chosen URL is non-empty; it carries the trimmed title, the type, that URL, the upload path and the trimmed description when one is given |
| Courses.AddMaterialCode | src/controllers/courseController.js:143-163 | 200 exactly for a valid material from an admin or the teacher owning the course; 400 exactly for an invalid one from them; 500 exactly for a teacher with a profile on a course without a teacher; 403 exactly for a teacher without a profile or owning another course, and for other roles |
| Courses.AddMaterialUnassigned | src/controllers/courseController.js:146 | a teacher adding to a course that has no teacher gets a server error, as the ownership check reads a missing id |
| Courses.CourseIndex | src/controllers/courseController.js:140 | the position found is the first course with that id, and none is found exactly when there is none |
| Courses.CourseStore.constructor | src/controllers/courseController.js:1 | the collection starts empty |
| Courses.CourseStore.Create | src/controllers/courseController.js:13-76 | stores exactly the course `CreateCourse` builds under the next id, or nothing when it refuses |
| Courses.CourseStore.AddMaterial | src/controllers/courseController.js:127-181 | 404 with nothing changed for an unknown course; on success only that course changes, its materials gaining the new one at the end; on refusal nothing changes |
| Materials.FilePath | src/controllers/materialController.js:10 | a path exactly when a file came, under the materials upload directory |
| Materials.FinalUrl | src/controllers/materialController.js:11-15 | the upload path when a file came and the type is not `link`, otherwise the URL the request sent |
| Materials.RefOf | src/controllers/materialController.js:28-29 | an empty reference or the word "none" becomes null; an id is kept |
| Materials.AllowDownload | src/controllers/materialController.js:31 | downloads are allowed exactly for a JSON `true` or the text "true" |
| Materials.UploadMaterial | src/controllers/materialController.js:7-38 | the material is stored exactly when the handler's URL check and the schema accept it, otherwise 400; it has the chosen URL, the trimmed title, the description trimmed when sent, the numeric grade, normalised references and the uploader |
| Materials.LinkWithoutUrl | src/controllers/materialController.js:17-19 | a link without a URL passes the handler's check and is then refused by the schema |
| Materials.UploadUrl | src/controllers/materialController.js:10-15 | a file wins over a URL for every type but `link`; without a file the sent URL is kept |
| Materials.ClassGradeById | src/controllers/materialController.js:48 | the class found has the id asked for, and none is found exactly when there is none |
| Materials.StudentClass | src/controllers/materialController.js:48-53 | a class found is a stored class named by the user's student profile |
| Materials.GetMaterials | src/controllers/materialController.js:43-73 | the list is sorted newest first |
| Materials.GetMaterialsContents | src/controllers/materialController.js:46-63 | a student without a resolvable class sees nothing; a student sees exactly the stored materials of their class or grade; others see every stored material |
| Materials.MaterialIndex | src/controllers/materialController.js:79 | the position found is the first material with that id, and none is found exactly when there is none |
| Materials.DeleteMaterial | src/controllers/materialController.js:78-96 | 404 exactly for an unknown id, 403 exactly when the caller is neither an admin nor the uploader; otherwise the collection without that material |
| Materials.DeleteMaterialRemoves | src/controllers/materialController.js:90 | with unique ids, a deletion removes the material asked for and keeps every other |
| Validators.RunSteps | src/middleware/validators.js:17-21 | a chain reports at most one message per check |
| Validators.Errors | src/middleware/validators.js:3-13 | a route reports no message exactly when every chain passes |
| Validators.ErrorsAppend | src/middleware/validators.js:9 | the messages of two groups of chains come in the groups' order |
| Validators.OneRule | src/middleware/validators.js:122-124 | a one-check chain reports its message exactly when the check fails |
| Validators.OptionalCheck | src/middleware/validators.js:122-124 | an optional one-check chain passes an absent field, and a present one exactly when the check holds |
| Validators.RequiredCheck | src/middleware/validators.js:111-113 | a required `notEmpty` chain with one more check passes exactly a present, non-empty field that meets the check |
| Validators.TwoRules | src/middleware/validators.js:111-113 | a two-check chain reports the messages of the failing checks, in order |
| Validators.Validate | src/middleware/validators.js:3-13 | the request goes on exactly when every chain passes; otherwise 400 with every message, in chain order |
| Validators.TimeTextMeaning | src/middleware/validators.js:262-267 | the time pattern accepts exactly the times 00:00 to 23:59, with two-digit hours and minutes, with or without the colon |
| Validators.ClockDigits | src/middleware/validators.js:262-267 | every time of day, in either form, passes the time pattern |
| Validators.UsernameRule | src/middleware/validators.js:17-21 | a username passes exactly when it keeps three characters once trimmed |
| Validators.GradeChainRule | src/middleware/validators.js:111-113 | a grade passes exactly when it is an integer from 1 to 12; a missing one reports both messages |
| Validators.CapacityRule | src/middleware/validators.js:122-124 | a capacity passes when absent or an integer of at least 1 |
| Validators.TimeRule | src/middleware/validators.js:262-267 | a schedule time passes exactly when it is a time of day in HH:MM or HHMM form |
| Validators.PaginationRule | src/middleware/validators.js:298-306 | a listing goes on exactly when `page` is absent or at least 1 and `limit` absent or from 1 to 1000; such values give a positive limit and a non-negative skip |
| Validators.EnumListsMatchSchemas | src/middleware/validators.js:71-202 | the academic-status, fee-status and payment-method lists name exactly the values of their schema enums |
| Validators.ListRules | src/middleware/validators.js:71-225 | each value-list chain passes exactly an absent field (when optional) or a listed value |
| Validators.PeriodListsDiffer | src/middleware/validators.js:222-225 | the validator's period list is strictly larger than the schema's: `fifth_period` passes validation and is refused when stored |

## Left out

- Transport and storage: Express routing, the MongoDB connection, Socket.IO delivery, `populate` and the `$lookup`/`$facet` syntax. Each query is modelled by the result it computes over the stored records; where Mongo's order among equal sort keys is unspecified, the model uses store order.
- Concurrency: `Promise.all` fan-outs run as sequential reads, and handlers never interleave.
- Cryptography and foreign libraries: JWT signing and verification (a partial map from token to user id), bcrypt, e-mail and Stripe.
- Floating point: fee amounts are integers in minor units. The exam pass rule uses the integer cross-multiplication `score * 100 >= passingScore * totalPoints`; with no questions the exam fails, as it does with the NaN ratio of the source.
- Dates and locale: `Date`, `setHours`, time zones, daylight saving and `toLocaleDateString` labels. Instants are integers; the dashboard's month and year of a day come from a `Calendar` parameter; `EndOfDay` uses fixed 24-hour days.
- Request parsing: ObjectId casting (apart from the uncast aggregation filter under "## Findings"), and the `isEmail`, `isMongoId`, `isISO8601`, `isFloat` and `escape` validators. The validator model covers `notEmpty`, `trim`, `isInt`, `isIn`, `isLength` and the time pattern.
- Uploads: the multer storage and file filters. An uploaded file is modelled as an optional file name.
- The regular-expression search of the student list and of the system-activity feed; the feed is modelled without search text.
- Socket.IO room emits for `new_course` and `new_material`; they are notifications that change no stored state.
- The fee listing filters of `getFees` and `getStudentFees`, `getClassFeeReport`, the `Fee.getStudentFeesSummary` aggregation, and the `Fee.updateOverdueFees` bulk query.
- The `getExamsByCourse` listing query, and `getStudent`, `deleteStudent` and the `include_stats` option of the student list.
- `Class.updateStudentCount`: the model records only whether a student's class changed, which is when the source recomputes the counts.
- Plain CRUD controllers (classes, teachers, subjects, ClassSubjects, schedules, users, settings), seeding scripts and migrations.
- Text.ToUpper: maps only the ASCII letters a to z, where JavaScript's `toUpperCase` also maps other letters; the codes it builds are made of ASCII letters and digits.
- FeeController.RecordPayment: the call to `updateStudentFeeStatus` after a payment (src/controllers/feeController.js:194) is not stated on the single-fee method, which sees no store of fees; the roll-up it performs is stated by `FeeController.StudentFeeStatus` and `FeeController.StudentStatusOfStore`, and its composition with a store change by `FeeController.DeleteFeeHandler`.
- FeeController.UpdateFee: the same `updateStudentFeeStatus` call after an edit (src/controllers/feeController.js:342) is left to the same members, for the same reason.
- Exams.CreateExam: a course id text other than the word `none` that cannot be cast to an ObjectId (a `CastError`) is not modelled; the course id is either absent, the word `none`, or a reference.
- Chat.ChatHistoryQuery: `page` or `limit` text that is not a number (a `NaN` skip) is not modelled; the query values are integers or absent.
- Exams.UpdateExam: the `required` validators that `runValidators` applies to a duration or passing score sent as `null` are not modelled; the update carries these two fields as numbers or leaves them out.
- Students.NewStudent: the `trim` setters on every field of a father, mother or guardian and the `lowercase` setter on their e-mail (src/models/Student.js:3-21) are not modelled; the parent information is stored as given.
- Dashboard.PageExact: the page is stated to agree with the page of every admitted activity in its creation times, place by place, not entry by entry, because the order Mongo and `Array.prototype.sort` give to activities created at the same instant is not specified.
- Dashboard.FeedPageExact: agrees in creation times, for the same reason.
- Exams.ApplyUpdate: its contract states only that the id and the creator are kept and that an empty update changes nothing; the per-field effect is stated by `Exams.Sent` and `Exams.SentId`, and idempotence by `Exams.ApplyUpdateIdempotent`.

## Findings

| source | as written | input that shows it | evidently intended | confidence | as-written member | corrected member |
|---|---|---|---|---|---|---|
| src/controllers/examController.js:116-136 | for a student, `{ ...filter, $or: [class, grade] }` replaces the `$or` on `course_id` that marks an exam as independent of any course, so the student's list of independent exams includes exams of a course | a student in class 3, grade 7, and an exam of course 5 for class 3: the exam is listed | list only exams without a course that match the student's class or grade | not executed | Exams.StudentSeesCourseExam | Exams.IntendedIndependentExams |
| src/controllers/absenceController.js:13-18 | `getAbsences` puts `student_id` and `class_subject_id` query strings into an aggregation `$match`, which, unlike `find`, does not cast them to ObjectId, so they equal no stored id | `GET /absences?student_id=<id of student 7>` with one absence of student 7 stored: the page is empty | filter by the student or ClassSubject the id names | not executed | Absences.IdFilterAsWritten | Absences.MatchingAbsences |
| src/controllers/studentController.js:432-434 | `{ ...student.parent_info, ...parent_info }` spreads a Mongoose subdocument, whose own enumerable properties are its internals rather than its fields, so the stored parents not in the patch are lost | a student with a stored father, updated with `parent_info: { mother: … }`: the father is gone | keep each stored parent the patch does not carry | not executed; depends on how Mongoose casts the spread object | StudentController.ParentMergeLosesFather | StudentController.MergeParents |
