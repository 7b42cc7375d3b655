# Visitor management backend: a verified Dafny model

This project models the backend of a small visitor-management application:
visitors register themselves for a host employee, and employees log in and
move their visitors through a status workflow (pending, approved, rejected,
checked-in, checked-out). The repository holds two divergent implementations
of that logic, and both are modelled side by side over one database:

- **The controller/model split.** This is `backend/controllers/visitorController.js`
  over `backend/models/Visitor.js`, wired by `backend/routes/visitorRoutes.js`. It
  accepts five statuses, "rejected" included. It stamps `checkInTime` and
  `checkOutTime` on every entry into their status and never clears them. It
  saves a registration first and mails the host only if one is found.
- **The monolith, `backend/server.js`.** It accepts only four statuses. Every
  update sets the timestamp matching the new status and nulls the other one.
  Registration checks its fields and refuses an unknown host before saving.
  Listing answers 404 instead of an empty list.

The employee identity table and the bearer-token gate are also modelled:
`backend/controllers/employeeController.js`, `backend/middleware/auth.js`, and
their copies in `server.js`.

Layout, one module per file:

| file | module | models |
|---|---|---|
| common.dfy | `Common` | Option, HTTP replies, token claims, the injected crypto capabilities, `findOne` as `FindFirst` |
| visitor_model.dfy | `VisitorModel` | the Visitor document, schema validation and defaults of models/Visitor.js, the photo path |
| store.dfy | `Store` | class `Database`: the Visitor table (map plus insertion order), the Employee table, the mail and broadcast outboxes; the host filter `HostedBy` |
| auth.dfy | `Auth` | `split(" ")[1]` and the gate of middleware/auth.js |
| employee_controller.dfy | `EmployeeController` | register, login, name list |
| visitor_controller.dfy | `VisitorController` | registerVisitor, updateStatus, getVisitors |
| server.dfy | `Server` | the monolith's gate, status update, employee routes, visitor registration and listing |

Conventions:

- Handlers are methods on values plus a `Database` object, and return a `Reply`.
  A `Reply` is either `Success(code, payload)` or `Failure(code, message)`.
- The current time, the new document id, the bcrypt salt and the uploaded file
  name are parameters. A new id is required to be fresh, standing for ObjectId
  generation.
- `bcrypt.hash`, `bcrypt.compare`, `jwt.sign` and `jwt.verify` are arrow-typed
  fields of a `Crypto` value and are not interpreted. Lemmas that need a
  round trip (for example `verify(sign(c)) == Some(c)`) require it explicitly.
- Mail and Socket.IO broadcasts are appended to `Database.mails` and
  `Database.events`. A delivery failure never reaches the caller, as in the code.
- A route mounted behind the token gate has a precondition that the gate
  accepted the request (`Auth.Gate` for the controller routes,
  `Server.AuthMiddleware` for the monolith). The header and the verifier are
  ghost parameters. Registration, employee registration, login and the
  monolith's `GET /api/employees` carry no such precondition, because their
  routes have no gate.
- Each variant keeps its own invariant over the visitor table.
  `VisitorController.ControllerState`: every record passes the Visitor.js
  schema, has one of the five statuses, and has a timestamp for a checked-in or
  checked-out status. `Server.MonolithState`: every record passes the
  monolith's schema, so it has one of the four statuses, and has a timestamp
  exactly for its own status.
- A request field that the client leaves out is modelled as "". In JavaScript
  both are falsy, and Mongoose's `required` refuses both. Query filters do not
  treat them alike (a filter key whose value is `undefined` is dropped), so
  the lookups that use a request field as a filter are listed under
  "Left out" for that case.
- A query without a sort returns documents in MongoDB's natural order, which
  is taken to be insertion order. MongoDB does not promise this order.

Where the two variants differ, each is modelled as written. Neither variant
keeps a first check-in time on re-entry. `VisitorController.ReentryOverwritesCheckIn`
and `Server.CheckOutErasesCheckIn` show what the code does instead.

## Model

| member | source | states |
|---|---|---|
| `Common.FindFirst` | backend/controllers/visitorController.js:22 | `findOne` returns the first document satisfying the filter, and none exactly when no document does |
| `VisitorModel.NewDocument` | backend/models/Visitor.js:3-22 | a new document carries the given fields and photo, has no company, takes status "pending" unless one is given, and has null check-in and check-out times |
| `VisitorModel.NewDocumentValid` | backend/models/Visitor.js:4-17 | a new document validates iff fullName, contact, purpose and hostEmployee are non-empty and timeSlot is one of the four windows |
| `VisitorModel.SchemaIgnoresWorkflow` | backend/models/Visitor.js:18-21 | validation does not depend on status (no enumeration), the timestamps, or the optional photo |
| `VisitorModel.UploadPath` | backend/controllers/visitorController.js:9 | a photo reference exists iff a file was uploaded; it is "/uploads/" followed by exactly the file name |
| `Store.HostedBy` | backend/controllers/visitorController.js:73 | the listing contains only visitors of that host, every stored visitor of that host, and nothing outside the table |
| `Store.HostedByAppend` | backend/server.js:289 | listings follow insertion order: one more id at the end adds at most its own record at the end |
| `Store.HostedByIgnoresUnlisted` | backend/server.js:261 | a table entry that the order does not list never shows up in a listing |
| `Store.HostedByExactly` | backend/server.js:289 | over a consistent table, a listing holds exactly the stored records whose hostEmployee is the name |
| `Store.InsertListing` | backend/controllers/visitorController.js:21 | saving a fresh visitor appends it to its host's listing and leaves every other listing unchanged |
| `Store.Database.Insert` | backend/controllers/visitorController.js:21 | `save()` of a fresh id adds exactly that record at the end of the order; nothing else changes |
| `Store.Database.Replace` | backend/controllers/visitorController.js:59-63 | `findByIdAndUpdate` replaces one stored record in place; the order and everything else are unchanged |
| `Store.Database.AddEmployee` | backend/controllers/employeeController.js:26 | saving an employee appends exactly that account; nothing else changes |
| `Store.Database.Send` | backend/utils/emailService.js:17-28 | sending mail appends one message to the outbox; nothing else changes, and no failure reaches the caller, for the controllers' `sendEmail` and for the monolith's own callback-style `sendEmail` at backend/server.js:85-93, which only logs a failure |
| `Store.Database.Emit` | backend/server.js:263 | a broadcast appends one event; nothing else changes |
| `Auth.Fields` | backend/middleware/auth.js:6 | `split(" ")` yields at least one field, no field contains a space, and there is more than one field iff the header contains a space |
| `Auth.JoinFields` | backend/middleware/auth.js:6 | splitting loses nothing: joining the fields with single spaces gives back the header |
| `Auth.BearerToken` | backend/middleware/auth.js:6 | a token exists iff a header is present and contains a space; it contains no space |
| `Auth.BearerTokenOf` | backend/middleware/auth.js:6 | for a header `scheme + " " + token + rest`, with rest empty or starting with a space, the extracted token is exactly `token` |
| `Auth.Check` | backend/middleware/auth.js:6-16 | no token iff the second field is missing or empty; bad token iff a non-empty token fails verification; otherwise the claims are the verified payload |
| `Auth.Gate` | backend/middleware/auth.js:4-17 | 401 "No token provided" iff there is no token, 401 "Invalid token" iff verification fails, otherwise accept with `req.user` = the decoded payload |
| `Auth.SignedTokenAccepted` | backend/middleware/auth.js:11-13 | a token from `sign`, sent as "Bearer <token>", passes the gate with exactly the signed claims |
| `Auth.NoHeaderRefused` | backend/middleware/auth.js:7-9 | without a header, or with a header that has no space, the gate refuses with "No token provided" |
| `EmployeeController.TokenClaims` | backend/controllers/employeeController.js:42-46 | the signed claims are the employee's id, name and email |
| `EmployeeController.Register` | backend/controllers/employeeController.js:6-31 | 400 with the table unchanged when an account has the same email or the same username; otherwise one account is added, storing the hash of the password, unless schema validation fails (500); unique emails and usernames are preserved |
| `EmployeeController.Login` | backend/controllers/employeeController.js:33-55 | 401 "Invalid credentials" when no account has the username or the hash does not match; success iff the first account with the username matches, with a token signed over its claims and its name and email |
| `EmployeeController.Names` | backend/controllers/employeeController.js:59 | one entry per account, in order, with only its id and name |
| `EmployeeController.GetAllEmployees` | backend/controllers/employeeController.js:57-64 | behind the gate: 200 with the name projection of every account; the table is only read |
| `EmployeeController.LoginFindsRegistered` | backend/controllers/employeeController.js:36 | with unique usernames, a login by the newest account's username finds that account |
| `VisitorController.HostMail` | backend/controllers/visitorController.js:22-30 | at most one notice; exactly one iff some employee has the host's name, addressed to the first such employee with subject "New Visitor Registered" |
| `VisitorController.ApplyUpdate` | backend/controllers/visitorController.js:53-57 | the status is replaced; checked-in and checked-out stamp their own time with now on every call; the other timestamp and all other fields are kept |
| `VisitorController.UpdateKeepsRecord` | backend/controllers/visitorController.js:43-63 | an accepted update keeps the record schema-valid, within the five statuses, and with a timestamp for checked-in or checked-out |
| `VisitorController.TimestampsNeverCleared` | backend/controllers/visitorController.js:53-57 | no update clears a timestamp that is set |
| `VisitorController.ReentryOverwritesCheckIn` | backend/controllers/visitorController.js:55 | a second check-in at a different time replaces the first check-in time |
| `VisitorController.RegisterVisitor` | backend/controllers/visitorController.js:6-36 | with no field checks of its own, the save refuses an invalid document (500, nothing written); otherwise one pending visitor is saved (201) whether or not the host exists, it is appended to the host's listing, and the host mail is sent exactly when an employee has that name |
| `VisitorController.UpdateStatus` | backend/controllers/visitorController.js:38-69 | a status outside the five gives 400 before any lookup; an unknown id gives 404; both leave the store unchanged; otherwise only that record changes, as `ApplyUpdate` states, and the variant's invariant is kept |
| `VisitorController.GetVisitors` | backend/controllers/visitorController.js:71-78 | 200 with exactly the stored visitors whose host is the caller's name, in insertion order; an empty list is a success |
| `Server.AuthMiddleware` | backend/server.js:98-113 | the same decision as the controller gate, with the messages "Unauthorized: No token provided" and "Unauthorized: Invalid token" |
| `Server.GatesAgree` | backend/server.js:98-113 | both copies of the gate accept the same requests with the same user |
| `Server.SessionOpensGate` | backend/server.js:198-204 | a login token sent as "Bearer <token>" passes this gate with the employee's claims, whose name is the employee's name |
| `Server.NoRejectedVisitors` | backend/server.js:60-64 | no visitor stored by this server has the status "rejected" |
| `Server.RejectedDivergence` | backend/server.js:124 | on a record both variants could hold, the controller accepts "rejected" and stores a record with that status, valid for the controller and never valid for this server; this server's whitelist refuses it |
| `Server.ApplyUpdate` | backend/server.js:129-135 | the status is replaced; each timestamp is now when the new status is its own and null otherwise; all other fields are kept |
| `Server.UpdateExactTimestamps` | backend/server.js:131-135 | after any update, checkInTime is set iff the status is checked-in, and checkOutTime is set iff it is checked-out |
| `Server.CheckOutErasesCheckIn` | backend/server.js:133-134 | checking out erases the check-in time |
| `Server.UpdateStatus` | backend/server.js:119-151 | a status outside the four ("rejected" included) gives 400; an unknown id gives 404; both write nothing; otherwise only that record changes, as `Server.ApplyUpdate` states |
| `Server.RegisterEmployee` | backend/server.js:158-186 | the controller's clash check and save, but a clash is answered 400 "Email or username already registered" and a save refused by schema validation 500 "Server error"; unique emails and usernames are preserved |
| `Server.Login` | backend/server.js:188-213 | the same login as the controller: 401 "Invalid credentials" unless the first account with the username matches; the token is signed over its claims |
| `Server.FetchEmployees` | backend/server.js:216-224 | without any token check: 200 with one id and name per account |
| `Server.NewVisitor` | backend/server.js:253-260 | a new visitor is pending, has no timestamps, and carries the form's fields, company and photo; it satisfies this server's record invariant iff the four required fields are filled |
| `Server.RegisterVisitor` | backend/server.js:238-277 | 400 "All required fields must be filled." when a required field is empty, and 400 "Invalid host employee" when no employee has the host's name, both writing nothing; otherwise one pending visitor with photo "/uploads/<file>" or none is saved, one "visitorAdded" event is emitted, and one mail goes to the first such employee |
| `Server.ListVisitors` | backend/server.js:281-302 | 401 when the token carries no name; otherwise 404 when no stored visitor has that host, and 200 with exactly those visitors in insertion order when some does |

## Left out

- HTTP routing, Express, multer disk storage, static file serving, the Socket.IO server and the React front end are not modelled. Routes contribute only their gating, as preconditions.
- Async execution, concurrent requests and the mail transport's delivery are not modelled. The model is sequential, and a message or event is recorded when it is handed over.
- The catch-all 500 replies are not modelled. These come from database failures, an id that is not a valid ObjectId, `jwt.sign` without a secret, and bcrypt given a missing password. The 500 from a refused schema validation is modelled.
- The controllers forward Mongoose's validation message; it is represented by the constants `VISITOR_INVALID` and `EMPLOYEE_INVALID`, not by its exact text. The monolith answers such a refusal with "Server error" instead.
- The constant success messages that the monolith wraps around a visitor ("Status updated successfully", "Visitor registered successfully!") are not carried. Those replies carry the status code and the visitor.
- Token expiry ("2h") and the signing secret are inside the uninterpreted `sign` and `verify`.
- `EmployeeController.Register`: it states that the stored password is the output of `hash`. That this output never equals the plaintext is bcrypt's property and is not proved.
- `VisitorController.GetVisitors`: it requires the token to carry a name. What `Visitor.find({ hostEmployee: undefined })` returns depends on Mongoose's handling of undefined filter values, which is not modelled.
- A missing request field and an empty string are the same input. A non-string JSON value for `status` is treated like any other string outside the whitelist.
- `EmployeeController.Register`, `Server.RegisterEmployee`: a request without `email` or `username` is modelled as "". Mongoose drops a filter key whose value is `undefined`, so `$or: [{ email }, { username }]` would then match any account and answer 400 whenever the table is not empty. That case is not modelled.
- `EmployeeController.Login`, `Server.Login`: a request without `username` is modelled as "". Mongoose would run `findOne({})` and check the password against the first account. That case is not modelled.
- `Store.HostedBy`, `Store.HostedByAppend`, `VisitorController.GetVisitors`, `Server.ListVisitors`: listings and `findOne` are in insertion order. That is MongoDB's natural order in practice, but MongoDB does not promise it, and the queries carry no sort.
- In backend/middleware/auth.js:12 and in the copy at backend/server.js:105-108, `next()` runs inside the `try`. An exception thrown synchronously by the next handler would be answered as "Invalid token" (or "Unauthorized: Invalid token"). The handlers are async, so this is not modelled.
- The database's unique indexes on email and username are not modelled separately. Registration's own check enforces the same constraint in a sequential model.
- backend/models/Employee.js is not part of this model. The controllers' Employee schema is taken to be the one at backend/server.js:44-51.
- Keeping a first check-in time on re-entry into "checked-in" is not implemented by either variant, so it is not claimed.
