# CivicFlow core in Dafny

CivicFlow lets citizens report civic problems, lets administrators triage
them, and lets field employees work on the tasks assigned to them. This
project models the decision logic of that application and proves properties
about the model.

Server side (Express over MongoDB):
- the complaint routes `server/src/routes/complaints.js`: list, get, create, patch, upvote and delete;
- the employee routes `server/src/routes/employee.js`: the employee list, lookup by employee id, the task views, the task status, duty and location;
- registration and login in `server/src/routes/auth.js`;
- the bearer-token guard `server/src/middleware/auth.js`;
- the `Complaint` and `User` schemas, with their required fields, enums, defaults and setters.

Client side:
- the two local complaint lists `frontend/src/utils/complaints.js` and `complaints.jsx`;
- the request plumbing of `frontend/src/utils/api.js`, with its offline fallbacks;
- the task page `frontend/src/pages/employee/AssignedTask.jsx`;
- the route guard `frontend/src/Components/ProtectedRoute.jsx`.

Layout, one module per file:
- `common.dfy` (`Common`): JSON values, JavaScript truthiness and `String()`, ASCII lower-casing, `trim`, and first-match and filter over sequences.
- `complaint_model.dfy` and `user_model.dfy`: the two document kinds and what `save()` accepts.
- `db.dfy` (`Db`): the store, a class whose two collections are sequences in insertion order, and the `findById` and `findOne` lookups. A malformed ObjectId gives a cast error.
- `document_fields.dfy`: how `Object.assign` plus mongoose casting change a complaint document field by field.
- `auth_middleware.dfy`, `auth_routes.dfy`, `complaint_routes.dfy` and `employee_routes.dfy`: one module per server file.
- Each route is a function from the collection and the request to a `Step`, the response plus the new collection.
- Where the route changes the store, a handler method that updates a `Db.Store` is proved to do exactly what that function says.

Client modules:
- `browser_storage.dfy` is `localStorage`, a class with the JSON list keys and the plain string keys.
- `local_complaints.dfy`, `tagged_complaints.dfy`, `api_auth.dfy`, `api_complaints.dfy`, `task_view.dfy` and `route_guard.dfy` follow the client files.
- Operations that write storage are methods on `Browser.Storage`.
- `fetch` enters as the `Reply` it produced.
- Clocks, bcrypt, JWT signing and verification, and `parseFloat` enter as parameters.

Where the code and the design intent differ, the model follows the code:
- Every non-admin caller sees all complaints, not only their own.
- A registration asking for any role other than "admin" becomes "user".
- The employee router is modelled, although `server/src/index.js:20-21` mounts only the auth and complaint routers.

A result the proofs bring out (`TaskView.ServerTaskCannotMove`): the task page offers "On Hold", "Completed" and "Unresolved", but the server's status enum is only Pending, In Progress and Resolved. Against the server, every button the page shows for a stored task leads to a failed request.

## Model

| member | source | states |
|---|---|---|
| Common.Trim | server/src/models/Complaint.js:5 | the trimmed text is a segment of the input with no white space (Unicode space separators included) at either end, and everything cut off before and after it is white space |
| Common.TrimEmptyIffBlank | frontend/src/pages/employee/AssignedTask.jsx:57 | `s.trim()` is empty exactly when `s` is all white space |
| Common.Lower | server/src/models/User.js:6 | lower-casing keeps the length and maps every character through the ASCII case rule |
| Common.ReplaceLeadingPrefix | server/src/middleware/auth.js:9 | replacing the first "Bearer " in a header that starts with it leaves exactly the rest of the header |
| Common.Filter | frontend/src/utils/complaints.js:36 | `filter` keeps exactly the elements that pass, each as often as in the input, as a subsequence of the input |
| Common.FilterConcat | frontend/src/utils/complaints.js:36 | filtering a concatenation is the concatenation of the filtered parts |
| Common.FilterFilter | frontend/src/utils/api.js:195-205 | two filters in a row are one filter by both tests |
| ComplaintModel.NewComplaintValidIff | server/src/models/Complaint.js:5-47 | a new complaint passes validation iff the trimmed title is non-empty, description, location text and town are non-empty, and coords are absent or a pair; it starts Pending, Medium, unassigned, with 0 upvotes, empty remarks and proof, and the given category (`null` included) or "General" |
| ComplaintModel.SortNewest | server/src/routes/complaints.js:28 | sorting by createdAt descending gives a newest-first permutation of the input |
| UserModel.NewUserValidIff | server/src/models/User.js:5-26 | a new user passes validation iff the trimmed name is non-empty, the email and password hash are non-empty, and the role is in the enum; the email is stored lower-cased, off duty, with empty employee fields and no location |
| UserModel.LowerIdempotent | server/src/models/User.js:6 | the lowercase setter is idempotent |
| Db.FindById | server/src/routes/complaints.js:38 | a malformed id is a cast error; a found index holds that id; "missing" means no document has it |
| Db.FindUser | server/src/routes/employee.js:92 | the first user with the id, or none has it |
| Db.FindByEmail | server/src/routes/auth.js:33 | the user whose email equals the lower-cased query, or none has it |
| AuthMiddleware.Decide | server/src/middleware/auth.js:3-17 | no header or no "Bearer " prefix gives 401 "Missing token"; otherwise the rest of the header is verified, giving 401 "Invalid token" or the claims |
| AuthMiddleware.Exchange.Auth | server/src/middleware/auth.js:3-17 | a rejected request sends 401 with the message and never calls next; an accepted one sets `req.user` to the claims and calls next once |
| AuthRoutes.TokenClaims | server/src/routes/auth.js:8-14 | the token carries the user's id, role and email, and nothing else |
| AuthRoutes.Register | server/src/routes/auth.js:16-55 | 400 on a missing name, email or password; 403 iff an admin signup has a bad key; 400 for an admin signup without a town; 409 when the lower-cased email is taken; 201 iff name, email and password are non-empty strings, the trimmed name and the hash are non-empty, an admin signup has a good key and a town, and the email is free; a created user is valid, lower-cased, hashed, admin only when asked with the key and a town, otherwise "user" with no town; the answer is the session |
| AuthRoutes.Login | server/src/routes/auth.js:57-82 | 400 on missing fields; success iff a user has the lower-cased email and the password matches the hash, and then the session is that user's; an unknown email gets 401 "Invalid credentials", as does a wrong password |
| AuthRoutes.RegisterKeepsCollection | server/src/routes/auth.js:33-45 | a registration keeps the users valid with unique ids and emails |
| UserModel.AppendKeepsCollection | server/src/models/User.js:6 | appending a valid user with a new id and a new lower-cased email keeps emails unique and lower-cased |
| AuthRoutes.RegisterThenLogin | server/src/routes/auth.js:38-77 | a user who has just registered logs in with the same email and password and gets their own session |
| AuthRoutes.RegisterHandler | server/src/routes/auth.js:16-55 | the store method inserts exactly the registered user, or nothing, and keeps the store valid |
| DocumentFields.Cast | server/src/models/Complaint.js:5-47 | a value that casts fits its path's type: a string, or `null` on a path that is not required (category, status, remarks, proof name), or a number list for coords |
| DocumentFields.PutEffect | server/src/routes/complaints.js:103 | setting one path changes that path only and keeps every fixed path |
| DocumentFields.SetFieldEffect | server/src/routes/complaints.js:103 | assigning a raw value fails iff it does not cast; otherwise only that path changes, to the cast value |
| DocumentFields.FixedTransitive | server/src/routes/complaints.js:103 | keeping the fixed paths composes over successive assignments |
| DocumentFields.Assign | server/src/routes/complaints.js:103 | `Object.assign` with casting fails iff some update does not cast; otherwise exactly the updated paths take their cast values and all others stay |
| ComplaintRoutes.Pick | server/src/routes/complaints.js:8-15 | the picked object has exactly the listed keys that are defined in the source, with the source's values |
| ComplaintRoutes.PickSpread | server/src/routes/complaints.js:99-100 | spreading two picks is the pick over both field lists |
| ComplaintRoutes.FindSorted | server/src/routes/complaints.js:28 | the result is newest-first and holds exactly the matching complaints, with multiplicity |
| ComplaintRoutes.ListIgnoresTown | server/src/routes/complaints.js:18-29 | as written, every caller, admins included, gets all complaints, newest first |
| ComplaintRoutes.AdminSeesOtherTown | server/src/routes/complaints.js:22-23 | an admin's list includes a complaint from another town |
| ComplaintRoutes.ListScoped | server/src/routes/complaints.js:22-28 | with the admin's town known, an admin gets exactly the complaints of that town and other callers get all, newest first |
| ComplaintRoutes.GetOne | server/src/routes/complaints.js:36-46 | 404 iff a well-formed id is unused; a well-formed id in use answers 200 with the stored complaint that has it; other failures are 500 |
| ComplaintRoutes.Create | server/src/routes/complaints.js:49-73 | 400 "Missing fields" iff a required field is falsy, with the store unchanged; 201 iff the four required fields are non-empty strings, the title is not blank, `coords` is absent, `null` or two numbers, and `category` is absent, `null` or a string; a created complaint is appended, valid, consistent in upvotes, owned by the caller, Pending, unassigned, with 0 upvotes, the given category (a `null` one stored as `null`) or "General", and only the picked fields taken from the body |
| ComplaintRoutes.CreateThenGet | server/src/routes/complaints.js:64-69 | a created complaint is then found by GET under its new id |
| ComplaintRoutes.NullCategoryCreates | server/src/routes/complaints.js:49-73 | a `null` category is stored: the body creates the same complaint as without a category, except that the category is `null` |
| ComplaintRoutes.CreateHandler | server/src/routes/complaints.js:64-69 | the store method appends exactly what `Create` says under a fresh ObjectId and keeps the store valid |
| Db.AppendKeeps | server/src/routes/complaints.js:64 | inserting a valid document under a fresh ObjectId keeps ids unique and every document valid |
| Db.FindAppended | server/src/routes/complaints.js:38 | `findById` finds a document appended under a fresh ObjectId at the end of the collection |
| ComplaintRoutes.Updates | server/src/routes/complaints.js:90-101 | the updates are the pick of the owner fields, plus status, remarks and proof for an admin |
| ComplaintRoutes.SaveKeeps | server/src/routes/complaints.js:104 | a successful save is valid and keeps every path of the assigned document |
| ComplaintRoutes.SavedIsPatched | server/src/routes/complaints.js:103-104 | a saved patch is valid, changes only masked paths that the body sets, and keeps all fixed paths |
| ComplaintRoutes.Patch | server/src/routes/complaints.js:76-110 | 404 iff unknown id; 403 iff neither owner nor admin; 200 iff the id is found, the caller is owner or admin, every masked value in the body casts and every document so patched validates; failures leave the store unchanged; success replaces only that complaint by a valid, patched version in which each masked path set in the body holds its cast value (`null` on a path that is not required) |
| ComplaintRoutes.AdminNullTextSaved | server/src/routes/complaints.js:76-110 | an admin's `null` remarks or proof name on a valid complaint saves, storing `null` in that path and changing no other patchable path |
| ComplaintRoutes.SaveIffAccepts | server/src/routes/complaints.js:99-104 | for an owner or admin, `Object.assign` of the masked updates followed by `save` succeeds exactly when every masked value casts and the patched document validates |
| ComplaintRoutes.AdminResolveSaved | server/src/routes/complaints.js:84-106 | an admin's `{"status": "Resolved"}` on a valid stored complaint answers 200 and the complaint's status becomes "Resolved" |
| ComplaintRoutes.PatchKeepsProtectedFields | server/src/routes/complaints.js:90-103 | no patch changes id, creator, town, assignee, upvotes, voters or creation time; an owner's patch leaves status, remarks and proof unchanged |
| ComplaintRoutes.PatchHandler | server/src/routes/complaints.js:76-110 | the store method answers and writes exactly what `Patch` says, and keeps the store valid |
| ComplaintRoutes.AssignKeys | server/src/routes/complaints.js:103 | the assignment loop over the update keys gives the `Assign` result |
| ComplaintRoutes.Upvote | server/src/routes/complaints.js:113-133 | 404 iff unknown id; 400 "Already upvoted" iff the caller already voted; a caller who has not voted on a valid complaint succeeds; success adds one vote and the voter to that complaint only and answers the new count |
| ComplaintRoutes.UpvoteKeepsConsistent | server/src/routes/complaints.js:120-127 | upvoting keeps `upvotes == |upvotedBy|` with no duplicate voters in every complaint |
| ComplaintRoutes.UpvoteTwice | server/src/routes/complaints.js:120-125 | a second upvote by the same caller is refused and changes nothing |
| ComplaintRoutes.UpvoteHandler | server/src/routes/complaints.js:113-133 | the store method answers and writes exactly what `Upvote` says |
| ComplaintRoutes.Delete | server/src/routes/complaints.js:154-164 | a non-admin gets 403; an admin with a well-formed id succeeds iff the id is in use; success removes one complaint with that id |
| ComplaintRoutes.DeleteRemovesOnlyTarget | server/src/routes/complaints.js:156 | with unique ids, delete removes exactly the target and keeps every other complaint |
| ComplaintRoutes.DeleteHandler | server/src/routes/complaints.js:154-164 | the store method answers and removes exactly what `Delete` says and keeps the store valid |
| Db.RemoveKeeps | server/src/routes/complaints.js:156 | removing one document keeps ids unique and every document valid |
| ComplaintRoutes.RemoveAtOnlyTarget | server/src/routes/complaints.js:156 | removing one position from a collection with unique ids drops that id and keeps every other document |
| ComplaintRoutes.PatchKeepsStore | server/src/routes/complaints.js:76-110 | a patch keeps ids unique and well-formed and every complaint valid |
| Db.ReplaceKeeps | server/src/routes/complaints.js:104 | saving a valid document in place under its own id keeps ids unique and every document valid |
| ComplaintRoutes.UpvoteKeepsStore | server/src/routes/complaints.js:113-133 | an upvote keeps ids unique and well-formed and every complaint valid |
| EmployeeRoutes.Employees | server/src/routes/employee.js:12 | the list holds the summaries of the users with role employee and of no one else |
| EmployeeRoutes.EmployeesInOrder | server/src/routes/employee.js:12 | the list is one summary per stored employee, in collection order, none repeated or left out |
| EmployeeRoutes.ListEmployees | server/src/routes/employee.js:10-17 | admins get the employee list; others get 403 |
| EmployeeRoutes.ByEmpId | server/src/routes/employee.js:20-29 | non-admins get 403; for an admin, 404 iff no user has that employee id or email, and otherwise 200 with the first such user's reference |
| EmployeeRoutes.Tasks | server/src/routes/employee.js:32-42 | an employee gets exactly the complaints assigned to them, newest first; others get 403 |
| EmployeeRoutes.FindTask | server/src/routes/employee.js:47-50 | the first complaint with the id that is assigned to the caller, or there is none |
| EmployeeRoutes.Task | server/src/routes/employee.js:45-60 | 404 "Task not found" iff no complaint with the id is assigned to the caller; a returned task is one |
| EmployeeRoutes.UpdateStatus | server/src/routes/employee.js:63-85 | success changes only the status, remarks (`notes || ""`) and timestamp of the caller's task and keeps it valid; failures leave the store unchanged |
| EmployeeRoutes.StatusOutsideEnumRejected | server/src/routes/employee.js:76-79 | a status outside the schema enum fails validation and changes nothing |
| EmployeeRoutes.StatusInEnumSaved | server/src/routes/employee.js:76-81 | an enum status with string notes on the caller's task is saved |
| EmployeeRoutes.UpdateStatusHandler | server/src/routes/employee.js:63-85 | the store method answers and writes exactly what `UpdateStatus` says |
| EmployeeRoutes.SetDuty | server/src/routes/employee.js:88-100 | an employee with a valid user document gets the cast value back, or 500 when it does not cast; only the caller's duty flag changes; non-employees get 403, a missing user 500 |
| EmployeeRoutes.SetDutyIdempotent | server/src/routes/employee.js:90-96 | setting the same duty flag twice is the same as once; for an employee with a valid user document and a value that casts, the call answers that value with no error and stores it |
| EmployeeRoutes.DutyOnTwice | server/src/routes/employee.js:88-100 | an employee with a valid user document who turns duty on twice gets `true` both times, with no error, and stays on duty |
| EmployeeRoutes.SetLocation | server/src/routes/employee.js:103-120 | an employee with a valid user document gets "Location updated"; only the caller's location changes, to the body's lat and lng and the current time |
| EmployeeRoutes.DutyHandler | server/src/routes/employee.js:88-100 | the store method answers and writes exactly what `SetDuty` says |
| EmployeeRoutes.LocationHandler | server/src/routes/employee.js:103-120 | the store method answers and writes exactly what `SetLocation` says |
| Browser.Load | frontend/src/utils/complaints.js:3-12 | a missing or unparsable item loads as the empty list; otherwise the stored records |
| LocalComplaints.ById | frontend/src/utils/complaints.js:26-31 | the first record matching by `id` or `_id` as strings, or none matches |
| LocalComplaints.Mine | frontend/src/utils/complaints.js:33-37 | a falsy user id gives the whole list; otherwise exactly the records of that user, each as often as stored, in stored order |
| LocalComplaints.UpdateList | frontend/src/utils/complaints.js:39-65 | only the first matching record changes, to the merge with the updates, with status "Assigned" for an assignment without a status |
| LocalComplaints.Merged | frontend/src/utils/complaints.js:52-57 | the merge holds every old key and every update, the updates win, and an assignment without a status gets "Assigned" |
| LocalComplaints.UpdateThenById | frontend/src/utils/complaints.js:39-65 | after an update, looking the id up finds the updated record |
| LocalComplaints.UpdateComplaint | frontend/src/utils/complaints.js:39-65 | writes back exactly the updated list, or nothing for an unknown id |
| LocalComplaints.SetStatus | frontend/src/utils/complaints.js:67-75 | the first record matching by `id` gets the new status and timestamp and keeps every other key |
| LocalComplaints.StatusUpdateIgnoresMongoId | frontend/src/utils/complaints.js:67-70 | a record known only by `_id` is found by lookup but not by the status update |
| LocalComplaints.UpdateComplaintStatus | frontend/src/utils/complaints.js:67-75 | writes back exactly the `SetStatus` list, or nothing |
| LocalComplaints.SeedComplaints | frontend/src/utils/complaints.js:78-80 | the stored list becomes exactly the items and nothing else changes |
| TaggedComplaints.Mine | frontend/src/utils/complaints.jsx:5-10 | no user id gives `[]`; otherwise exactly the records whose `userId` is that id, each as often as stored, in stored order; unparsable text throws |
| TaggedComplaints.ById | frontend/src/utils/complaints.jsx:12-14 | the first record whose `id` matches as a string, or none does |
| TaggedComplaints.Tag | frontend/src/utils/complaints.jsx:18 | the record gains the stored user id and keeps every other key |
| TaggedComplaints.SaveComplaint | frontend/src/utils/complaints.jsx:16-22 | appends exactly the tagged record, after which `getComplaints` reads the old records followed by it; or throws with nothing written |
| TaggedComplaints.Merge | frontend/src/utils/complaints.jsx:26 | the merge takes the updates' values but never changes the record's `id` |
| TaggedComplaints.UpdateAll | frontend/src/utils/complaints.jsx:25-27 | every matching record is merged, the others kept, and no id changes |
| TaggedComplaints.UpdateComplaint | frontend/src/utils/complaints.jsx:24-30 | writes back and answers exactly the merged list, which `getComplaints` then reads; or throws with nothing written |
| TaggedComplaints.StatusUpdateOnlyStatus | frontend/src/utils/complaints.jsx:32-34 | a status update changes only the status of the matching records |
| TaggedComplaints.UpdateComplaintStatus | frontend/src/utils/complaints.jsx:32-34 | writes back the list with the new status on the matching records |
| ApiAuth.Headers | frontend/src/utils/api.js:42-53 | JSON content type always; an Authorization header iff a token is stored, carrying it after "Bearer " |
| ApiAuth.HeadersReachGuard | frontend/src/utils/api.js:48-50 | the server's guard hands exactly the stored token to verification |
| ApiAuth.ApiCall | frontend/src/utils/api.js:55-73 | no connection is a "Failed to fetch" TypeError; a non-ok answer throws the server's message or "API error"; an ok answer resolves to its body |
| ApiAuth.LocalUser | frontend/src/utils/api.js:96-105 | the offline user has the lower-cased email, the password in clear and the role or "user" |
| ApiAuth.Public | frontend/src/utils/api.js:108 | the offline session's user never contains the password |
| ApiAuth.OfflineRegister | frontend/src/utils/api.js:91-105 | refused iff the lower-cased email is already stored |
| ApiAuth.Register | frontend/src/utils/api.js:77-112 | the server's answer unless the network failed; offline, exactly one user is appended unless the email is taken |
| ApiAuth.OfflineLogin | frontend/src/utils/api.js:118-120 | the first stored user with the lower-cased email and the password, or none matches |
| ApiAuth.Login | frontend/src/utils/api.js:114-125 | the server's answer unless the network failed; offline, a session without the password iff a stored user matches |
| ApiAuth.OfflineRegisterThenLogin | frontend/src/utils/api.js:96-120 | offline, a user who has just registered logs in and gets the new account |
| ApiAuth.EmpIdLookup | frontend/src/utils/api.js:312-313 | an empty employee id is refused with "empId required" before any request |
| ApiComplaints.MaxId | frontend/src/utils/api.js:134 | `NaN` iff some id is not a number; otherwise the largest id number, at least 0 |
| ApiComplaints.Base | frontend/src/utils/api.js:135-154 | the fixed fields of a new offline record |
| ApiComplaints.NewItem | frontend/src/utils/api.js:135-154 | the new record has id max+1 (null after `NaN`), status Pending, priority Medium, the defaults for category and user, no assignee, and the given title and location text |
| ApiComplaints.WithText | frontend/src/utils/api.js:137-140 | `title` is kept when given, `location` copies `locationText` when given, and no other field changes |
| ApiComplaints.NewIdFresh | frontend/src/utils/api.js:134-136 | with numeric ids, the new id is above every stored id, so no stored record carries it |
| ApiComplaints.CreateComplaint | frontend/src/utils/api.js:129-161 | the server's answer, or on any error the list grows by exactly the new record |
| ApiComplaints.Tasks | frontend/src/utils/api.js:178-211 | nothing without stored ids; otherwise exactly the tasks passing the assignment test as written and the status filter, each as often as stored, in stored order |
| ApiComplaints.UnassignedTaskShown | frontend/src/utils/api.js:196 | as written, a task with a null assignee is shown to an employee who has no stored employee id |
| ApiComplaints.TasksForStoredIds | frontend/src/utils/api.js:195-205 | with the intended test, exactly the tasks assigned to a stored id that pass the status filter, each as often as stored, in stored order |
| ApiComplaints.StoredIdsHideUnassigned | frontend/src/utils/api.js:196 | with the intended test an unassigned task is shown only when a stored id is literally "null" or "undefined"; with both ids stored the two tests agree |
| ApiComplaints.Task | frontend/src/utils/api.js:219-231 | the first record with the id, returned only if it passes the assignment test as written |
| ApiComplaints.TaskForStoredIds | frontend/src/utils/api.js:226-231 | the same lookup with the intended assignment test |
| ApiComplaints.StatusBody | frontend/src/utils/api.js:272-277 | status and notes always (notes default ""), location only when truthy, hours only when not null |
| ApiComplaints.StatusBodyOnServer | frontend/src/utils/api.js:272-276 | the server reads the status as sent and the notes as remarks |
| TaskView.Offered | frontend/src/pages/employee/AssignedTask.jsx:323-369 | Assigned offers In Progress; In Progress offers On Hold, Completed and Unresolved; On Hold offers In Progress; any other status offers nothing |
| TaskView.OfferedMoves | frontend/src/pages/employee/AssignedTask.jsx:323-369 | In Progress is offered exactly from Assigned and On Hold; the other targets exactly from In Progress |
| TaskView.NotesMissingIsTrimTest | frontend/src/pages/employee/AssignedTask.jsx:57 | the page's refusal test (`trim()` empty, status Completed or Unresolved) holds exactly when the notes are all white space and the status needs notes |
| TaskView.Request | frontend/src/pages/employee/AssignedTask.jsx:64-70 | the request carries the status and notes, and hours only when parsed |
| TaskView.TaskPage.HandleStatusUpdate | frontend/src/pages/employee/AssignedTask.jsx:56-85 | blank notes for Completed or Unresolved send nothing and change nothing; otherwise one request is sent; success shows the server's task, clears the notes and leaves after a final status; failure keeps the task and notes |
| TaskView.OnlyInProgressAccepted | frontend/src/pages/employee/AssignedTask.jsx:323-369 | of the offered statuses only In Progress is in the server's enum |
| TaskView.ServerTaskCannotMove | frontend/src/pages/employee/AssignedTask.jsx:305-369 | for a task as the server stores it, every offered status change fails and changes nothing |
| RouteGuard.RoleOf | frontend/src/Components/ProtectedRoute.jsx:6 | a missing or empty stored role reads as "user" |
| RouteGuard.Guard | frontend/src/Components/ProtectedRoute.jsx:4-17 | to the login iff no token; home iff a required role differs from the stored one; otherwise render |
| RouteGuard.MissingRoleIsUser | frontend/src/Components/ProtectedRoute.jsx:6 | no stored role behaves exactly as "user" |
| RouteGuard.AnyTokenSuffices | frontend/src/Components/ProtectedRoute.jsx:12-16 | with no required role, any token renders |
| RouteGuard.OneRolePerPage | frontend/src/Components/ProtectedRoute.jsx:12-14 | a role-restricted page renders only for that role |
| RouteGuard.SetToken | frontend/src/utils/api.js:30-32 | only the token key changes, and a non-empty token opens every page without a role |
| RouteGuard.ClearToken | frontend/src/utils/api.js:38-40 | only the token key goes, and every page then redirects to the login |

## Left out

- I/O: HTTP, MongoDB, `localStorage` serialisation and React rendering are replaced by values.
  - The store's collections are sequences in insertion order.
  - `fetch` is its `Reply`.
  - The page state is a class.
- bcrypt and JWT enter as the functions `hash`, `compare`, `sign` and `verify`; token expiry is not modelled.
- Time enters as an integer `now` or an ISO string parameter.
- `populate`, the category-count aggregation (`server/src/routes/complaints.js:136-151`) and the analytics routes are not part of this model.
- `server/src/middleware/requireRole.js` is not part of this model. It is taken to answer 403 "Forbidden" to every other role.
- The employee router is modelled as if mounted; `server/src/index.js:20-21` does not mount it.
- Concurrency: interleaved requests, and `save()` racing another writer, are not modelled.
- DocumentFields.Cast: a number or boolean for a string path is a cast error (500). Real mongoose converts numbers and booleans to strings. (`null` is modelled: stored on a path that is not required, a validation failure on a required one.)
- DocumentFields.Cast: `coords` takes only JSON numbers. Mongoose's `[Number]` path also casts numeric strings (`["12", "77"]` is stored as `[12, 77]`) and booleans, so such a POST or PATCH answers 201 or 200 where the model answers 500.
- AuthRoutes.Register: an `email` that is a JSON object reaches `User.findOne({ email })` as a query operator (such as `{"$ne": ""}`), which matches any stored user and answers 409; the model answers 500. A number or boolean email, name or admin `town`, which mongoose would cast to a string, also answers 500 in the model. (A password that is not a string answers 500 in both, since bcryptjs rejects it.)
- AuthRoutes.Login: an `email` that is a JSON object is a query operator that finds the first matching user, giving 200 or 401 by that user's password; the model answers 500. A number or boolean email also answers 500 in the model, where mongoose would cast it.
- DocumentFields.Cast: numbers are integers, so fractional coordinates and hours are not modelled.
- EmployeeRoutes.SetDuty: only JSON booleans, `null` and absence are accepted for `isOnDuty`; mongoose's string forms ("true", "yes", "1") are not modelled.
- EmployeeRoutes.SetLocation: `lat` and `lng` are stored as given and are not cast to numbers.
- Db.IsObjectId: only the 24-hex-digit form is a valid id; the 12-byte string form is not modelled.
- Common.Lower: only ASCII letters are lower-cased; Unicode case mapping is not modelled.
- ApiComplaints.NumberOfText: only optional-sign decimal integers are numbers; hexadecimal, exponent, fractional and "Infinity" forms are treated as `NaN`.
- ApiComplaints.Tasks: only the localStorage fallback is modelled; the server request `getEmployeeTasks` tries first, and its switch to the fallback on any error (frontend/src/utils/api.js:173-176), are not, since the server side is `EmployeeRoutes.Tasks`. The same holds for `ApiComplaints.Task` and `getEmployeeTask` (frontend/src/utils/api.js:215-217), whose server side is `EmployeeRoutes.Task`.
- ApiComplaints.StatusBody: `notes` passed as `null` (rather than omitted) is not modelled.
- TaskView.TaskPage.HandleStatusUpdate: the `alert` messages and the `updating` flag while the request is pending are not modelled; `left` records the navigation.
- The request body `apiCall` serialises (`body ? JSON.stringify(body) : undefined`) is not modelled on its own; each request's body is stated by the function that builds it (`ApiComplaints.StatusBody`, `TaskView.Request`).
- `encodeURIComponent` in the employee id lookup, and URL building in general, are not modelled.
- These calls in `frontend/src/utils/api.js` only forward to `apiCall` and add nothing beyond `ApiAuth.ApiCall`, so they are left out:
  - `getEmployeeDashboardStats`;
  - `toggleDutyStatus`;
  - `getAllEmployees` and its hard-coded fallback list;
  - `updateComplaintOnServer`, whose fallback answers `null`.
- `updateEmployeeLocation`'s fallback is also left out.
- A stored JSON value that parses but is not an array is not modelled; each list key holds records or unparsable text.
- LocalComplaints.UpdateComplaint: the mutation of the caller's `updates` object (`updates.status = "Assigned"`) is not visible in the model; only the stored result is.

## Findings

| source | as written | input that shows it | evidently intended | confidence | as-written member | corrected member |
|---|---|---|---|---|---|---|
| server/src/routes/complaints.js:22-23 | the admin filter reads `req.user.town`, but the token (server/src/routes/auth.js:8-14) carries only id, role and email, so the filter is `{ town: undefined }` and matches every complaint | an admin's token and a complaint with town "South" from another town | an admin lists only the complaints of the admin's own town | not executed | ComplaintRoutes.AdminSeesOtherTown | ComplaintRoutes.ListScoped |
| frontend/src/utils/api.js:196 | `String(c.assignedTo) === String(empId)` with no stored employee id compares "null" with "null" | stored `userId` "u1", no stored `empId`, a record `{ id: 1, assignedTo: null }` (no code in this model writes such a record: the offline create writes `""`, so it needs one written by other code or by hand) | only tasks assigned to a stored id are shown | not executed | ApiComplaints.UnassignedTaskShown | ApiComplaints.TasksForStoredIds |
