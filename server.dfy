/**
 * The monolithic server (backend/server.js): its own Visitor schema with a
 * four-value status enumeration, its copy of the token gate, the employee
 * routes, visitor registration that refuses an unknown host before saving,
 * a status update that clears whichever timestamp does not match the new
 * status, and a listing that answers 404 rather than an empty list.
 */
module Server {
  import opened Common
  import opened VisitorModel
  import opened Store
  import Auth
  import EmployeeController
  import VisitorController

  /** The schema's `status` enumeration (server.js:62), repeated as `validStatuses` (server.js:124). */
  const STATUSES: seq<string> := [PENDING, APPROVED, CHECKED_IN, CHECKED_OUT]

  const NO_TOKEN := "Unauthorized: No token provided"
  const INVALID_TOKEN := "Unauthorized: Invalid token"
  const INVALID_STATUS := "Invalid status value"
  const NOT_FOUND := "Visitor not found"
  const ALREADY_REGISTERED := "Email or username already registered"
  /** The body of every exception this server's handlers catch. */
  const SERVER_ERROR := "Server error"
  const FIELDS_MISSING := "All required fields must be filled."
  const INVALID_HOST := "Invalid host employee"
  const NAME_MISSING := "Unauthorized: Employee name missing in token"
  const NO_VISITORS := "No visitors found for this employee"
  const NEW_VISITOR_ALERT := "New Visitor Alert"
  const VISITOR_ADDED := "visitorAdded"

  /** The server's own `authMiddleware`: the shared decision, with its own messages. */
  function AuthMiddleware(header: Option<string>, verify: string -> Option<Claims>): (r: Auth.AuthResult)
    ensures r == Auth.Reject(401, NO_TOKEN) <==> Auth.Check(header, verify).NoToken?
    ensures r == Auth.Reject(401, INVALID_TOKEN) <==> Auth.Check(header, verify).BadToken?
    ensures r.Accept? <==> Auth.Check(header, verify).Verified?
    ensures r.Accept? ==> Auth.Check(header, verify) == Auth.Verified(r.user)
  {
    match Auth.Check(header, verify)
    case NoToken => Auth.Reject(401, NO_TOKEN)
    case BadToken => Auth.Reject(401, INVALID_TOKEN)
    case Verified(c) => Auth.Accept(c)
  }

  /** Both copies of the gate admit exactly the same requests with exactly the same `req.user`. */
  lemma GatesAgree(header: Option<string>, verify: string -> Option<Claims>)
    ensures AuthMiddleware(header, verify).Accept? <==> Auth.Gate(header, verify).Accept?
    ensures AuthMiddleware(header, verify).Accept? ==>
      AuthMiddleware(header, verify).user == Auth.Gate(header, verify).user
  {
  }

  /**
   * The token a login issues, sent back as `Bearer <token>`, passes this
   * server's gate with the employee's claims, so the listing is scoped to
   * that employee's name.
   */
  lemma SessionOpensGate(crypto: Crypto, e: Employee)
    requires crypto.verify(crypto.sign(EmployeeController.TokenClaims(e))) == Some(EmployeeController.TokenClaims(e))
    requires crypto.sign(EmployeeController.TokenClaims(e)) != ""
    requires ' ' !in crypto.sign(EmployeeController.TokenClaims(e))
    ensures AuthMiddleware(Some("Bearer " + crypto.sign(EmployeeController.TokenClaims(e))), crypto.verify)
         == Auth.Accept(EmployeeController.TokenClaims(e))
    ensures EmployeeController.TokenClaims(e).name == Some(e.name)
  {
    Auth.SignedTokenAccepted(crypto.sign, crypto.verify, EmployeeController.TokenClaims(e));
  }

  /** What `save()` accepts under this server's schema: the four required strings and a listed status. */
  predicate MonolithSchemaValid(v: Visitor) {
    RequiredFilled(v) && v.status in STATUSES
  }

  /** A check-in time is present exactly while checked in, and a check-out time exactly while checked out. */
  predicate ExactTimestamps(v: Visitor) {
    && (v.checkInTime.Some? <==> v.status == CHECKED_IN)
    && (v.checkOutTime.Some? <==> v.status == CHECKED_OUT)
  }

  predicate MonolithRecord(v: Visitor) {
    MonolithSchemaValid(v) && ExactTimestamps(v)
  }

  ghost predicate MonolithState(db: Database)
    reads db
  {
    forall id :: id in db.visitors ==> MonolithRecord(db.visitors[id])
  }

  /** No visitor stored by this server can hold the status "rejected". */
  lemma NoRejectedVisitors(db: Database)
    requires MonolithState(db)
    ensures forall id :: id in db.visitors ==> db.visitors[id].status != REJECTED
  {
  }

  /**
   * The status the admin screen sends to refuse a visitor: on any record both
   * variants could hold, the controller's whitelist admits it and its update
   * stores a record with that status, which this server could never hold,
   * while this server's whitelist refuses it.
   */
  lemma RejectedDivergence(v: Visitor, now: Time)
    requires VisitorController.ControllerRecord(v) && MonolithRecord(v)
    ensures REJECTED in VisitorController.STATUSES && REJECTED !in STATUSES
    ensures VisitorController.ControllerRecord(VisitorController.ApplyUpdate(v, REJECTED, now))
    ensures VisitorController.ApplyUpdate(v, REJECTED, now).status == REJECTED
    ensures !MonolithRecord(VisitorController.ApplyUpdate(v, REJECTED, now))
  {
    VisitorController.UpdateKeepsRecord(v, REJECTED, now);
  }

  // ---------------------------------------------------------------- status update

  /**
   * The record after `findByIdAndUpdate(id, { status, checkInTime, checkOutTime })`:
   * each timestamp is `now` when the new status is its own and null otherwise;
   * nothing else changes.
   */
  function ApplyUpdate(v: Visitor, status: string, now: Time): (r: Visitor)
    ensures SameDetails(v, r) && r.status == status
    ensures r.checkInTime == (if status == CHECKED_IN then Some(now) else None)
    ensures r.checkOutTime == (if status == CHECKED_OUT then Some(now) else None)
  {
    v.(status := status,
       checkInTime := if status == CHECKED_IN then Some(now) else None,
       checkOutTime := if status == CHECKED_OUT then Some(now) else None)
  }

  /** Whatever the record held before, an update leaves timestamps that match the new status exactly. */
  lemma UpdateExactTimestamps(v: Visitor, status: string, now: Time)
    ensures ExactTimestamps(ApplyUpdate(v, status, now))
  {
  }

  /** Checking out erases the check-in time, even of a visitor who was checked in. */
  lemma CheckOutErasesCheckIn(v: Visitor, now: Time)
    ensures ApplyUpdate(v, CHECKED_OUT, now).checkInTime.None?
    ensures ApplyUpdate(v, CHECKED_OUT, now).checkOutTime == Some(now)
  {
  }

  /** `PUT /api/visitors/:id/status`, behind the gate: the status check, then the update by id. */
  method UpdateStatus(db: Database, ghost header: Option<string>, ghost verify: string -> Option<Claims>,
                      id: Id, status: string, now: Time)
    returns (reply: Reply<Visitor>)
    requires db.Valid() && MonolithState(db)
    requires AuthMiddleware(header, verify).Accept?
    modifies db
    ensures db.Valid() && MonolithState(db)
    ensures db.order == old(db.order) && db.employees == old(db.employees)
    ensures db.mails == old(db.mails) && db.events == old(db.events)
    ensures status !in STATUSES ==>
      reply == Failure(400, INVALID_STATUS) && db.visitors == old(db.visitors)
    ensures status in STATUSES && id !in old(db.visitors) ==>
      reply == Failure(404, NOT_FOUND) && db.visitors == old(db.visitors)
    ensures status in STATUSES && id in old(db.visitors) ==>
      var v := ApplyUpdate(old(db.visitors)[id], status, now);
      reply == Success(200, v) && db.visitors == old(db.visitors)[id := v]
  {
    if status !in STATUSES {
      return Failure(400, INVALID_STATUS);
    }
    if id !in db.visitors {
      return Failure(404, NOT_FOUND);
    }
    var v := ApplyUpdate(db.visitors[id], status, now);
    assert MonolithRecord(v);
    db.Replace(v);
    reply := Success(200, v);
  }

  // ---------------------------------------------------------------- employees

  /**
   * `POST /api/employees/register`: the controller's lookup and save, but a
   * clash is answered with this server's message and a refused save with the
   * generic "Server error" instead of the validation message.
   */
  method RegisterEmployee(db: Database, crypto: Crypto, form: EmployeeController.Registration, salt: nat, id: Id)
    returns (reply: Reply<string>)
    requires db.Valid()
    requires forall e :: e in db.employees ==> e.id != id
    modifies db
    ensures db.Valid()
    ensures db.visitors == old(db.visitors) && db.order == old(db.order)
    ensures db.mails == old(db.mails) && db.events == old(db.events)
    ensures (exists e :: e in old(db.employees) && (e.email == form.email || e.username == form.username)) ==>
      reply == Failure(400, ALREADY_REGISTERED) && db.employees == old(db.employees)
    ensures (forall e :: e in old(db.employees) ==> e.email != form.email && e.username != form.username) ==>
      var stored := Employee(id, form.name, form.email, form.username, crypto.hash(form.password, salt));
      if EmployeeValid(stored) then
        reply == Success(201, EmployeeController.REGISTERED) && db.employees == old(db.employees) + [stored]
      else
        reply == Failure(500, SERVER_ERROR) && db.employees == old(db.employees)
    ensures EmployeeController.UniqueAccounts(old(db.employees)) ==> EmployeeController.UniqueAccounts(db.employees)
  {
    reply := EmployeeController.Register(db, crypto, form, salt, id);
    if reply.Failure? {
      reply := Failure(reply.code, if reply.code == 400 then ALREADY_REGISTERED else SERVER_ERROR);
    }
  }

  /** `POST /api/employee/login`: the same lookup, hash check and claims as the controller's login. */
  method Login(db: Database, crypto: Crypto, username: string, password: string)
    returns (reply: Reply<EmployeeController.Session>)
    ensures (forall e :: e in db.employees ==> e.username != username) ==>
      reply == Failure(401, EmployeeController.INVALID_CREDENTIALS)
    ensures reply.Failure? ==> reply == Failure(401, EmployeeController.INVALID_CREDENTIALS)
    ensures forall k :: EmployeeController.FirstWithUsername(db.employees, username, k) ==>
      && (reply.Success? <==> crypto.compare(password, db.employees[k].password))
      && (reply.Success? ==> reply == Success(200, EmployeeController.Session(
            crypto.sign(EmployeeController.TokenClaims(db.employees[k])),
            db.employees[k].name, db.employees[k].email)))
  {
    reply := EmployeeController.Login(db, crypto, username, password);
    forall k | EmployeeController.FirstWithUsername(db.employees, username, k)
      ensures reply.Success? ==> reply == Success(200, EmployeeController.Session(
            crypto.sign(EmployeeController.TokenClaims(db.employees[k])),
            db.employees[k].name, db.employees[k].email))
    {
      if reply.Success? {
        var j :| EmployeeController.FirstWithUsername(db.employees, username, j)
          && crypto.compare(password, db.employees[j].password)
          && reply == Success(200, EmployeeController.Session(
               crypto.sign(EmployeeController.TokenClaims(db.employees[j])),
               db.employees[j].name, db.employees[j].email));
        assert j == k;
      }
    }
  }

  /** `GET /api/employees`: the name projection, served here without any token check. */
  method FetchEmployees(db: Database) returns (reply: Reply<seq<EmployeeController.EmployeeName>>)
    ensures reply.Success? && reply.code == 200
    ensures |reply.value| == |db.employees|
    ensures forall i :: 0 <= i < |db.employees| ==>
      reply.value[i] == EmployeeController.EmployeeName(db.employees[i].id, db.employees[i].name)
  {
    var names := EmployeeController.Names(db);
    reply := Success(200, names);
  }

  // ---------------------------------------------------------------- visitors

  /** The text fields of a registration request; a field the client leaves out is "" (company: None). */
  datatype VisitorForm = VisitorForm(fullName: string, contact: string, purpose: string,
                                     hostEmployee: string, company: Option<string>)

  /** `!fullName || !contact || !purpose || !hostEmployee` fails exactly when this is false. */
  predicate FormFilled(form: VisitorForm) {
    Filled(form.fullName) && Filled(form.contact) && Filled(form.purpose) && Filled(form.hostEmployee)
  }

  /** `new Visitor({ fullName, contact, purpose, hostEmployee, company, photo })` under this server's schema. */
  function NewVisitor(id: Id, form: VisitorForm, photo: Option<string>): (v: Visitor)
    ensures v.status == PENDING && v.checkInTime.None? && v.checkOutTime.None?
    ensures v.id == id && v.fullName == form.fullName && v.contact == form.contact
    ensures v.purpose == form.purpose && v.hostEmployee == form.hostEmployee
    ensures v.company == form.company && v.photo == photo && v.timeSlot.None?
    ensures MonolithRecord(v) <==> FormFilled(form)
  {
    Visitor(id, form.fullName, form.contact, form.purpose, form.hostEmployee, form.company,
            None, PENDING, None, None, photo)
  }

  /** The notice this server mails to the host: `Visitor ${fullName} is here to meet you!`. */
  function HostAlert(host: Employee, form: VisitorForm): (m: Email) {
    Email(host.email, NEW_VISITOR_ALERT, "Visitor " + form.fullName + " is here to meet you!")
  }

  /**
   * `POST /api/visitors`: check the required fields, refuse an unknown host,
   * then save a pending visitor, broadcast it and mail its host.
   */
  method RegisterVisitor(db: Database, form: VisitorForm, upload: Option<string>, id: Id)
    returns (reply: Reply<Visitor>)
    requires db.Valid() && MonolithState(db)
    requires id !in db.visitors
    modifies db
    ensures db.Valid() && MonolithState(db)
    ensures db.employees == old(db.employees)
    ensures !FormFilled(form) ==> reply == Failure(400, FIELDS_MISSING) && unchanged(db)
    ensures FormFilled(form) && (forall e :: e in db.employees ==> e.name != form.hostEmployee) ==>
      reply == Failure(400, INVALID_HOST) && unchanged(db)
    ensures FormFilled(form) && (exists e :: e in db.employees && e.name == form.hostEmployee) ==>
      var v := NewVisitor(id, form, UploadPath(upload));
      var k := FindFirst(db.employees, NamedAs(form.hostEmployee)).value;
      && k < |db.employees| && db.employees[k].name == form.hostEmployee
      && reply == Success(201, v)
      && db.visitors == old(db.visitors)[id := v] && db.order == old(db.order) + [id]
      && HostedBy(db.order, db.visitors, form.hostEmployee)
         == old(HostedBy(db.order, db.visitors, form.hostEmployee)) + [v]
      && db.events == old(db.events) + [Event(VISITOR_ADDED, v)]
      && db.mails == old(db.mails) + [HostAlert(db.employees[k], form)]
  {
    if !FormFilled(form) {
      return Failure(400, FIELDS_MISSING);
    }
    var host := FindFirst(db.employees, NamedAs(form.hostEmployee));
    if host.None? {
      assert forall j :: 0 <= j < |db.employees| ==> !NamedAs(form.hostEmployee)(db.employees[j]);
      return Failure(400, INVALID_HOST);
    }
    var employee := db.employees[host.value];
    var v := NewVisitor(id, form, UploadPath(upload));
    InsertListing(db.order, db.visitors, v, form.hostEmployee);
    db.Insert(v);
    db.Emit(Event(VISITOR_ADDED, v));
    db.Send(HostAlert(employee, form));
    reply := Success(201, v);
  }

  /**
   * `GET /api/visitors`, behind the gate: the caller must carry a name; the
   * visitors it hosts are returned in insertion order, and none is a 404.
   */
  method ListVisitors(db: Database, ghost header: Option<string>, ghost verify: string -> Option<Claims>,
                      user: Claims)
    returns (reply: Reply<seq<Visitor>>)
    requires db.Valid()
    requires AuthMiddleware(header, verify) == Auth.Accept(user)
    ensures user.name.None? || user.name == Some("") ==> reply == Failure(401, NAME_MISSING)
    ensures user.name.Some? && user.name.value != "" ==>
      if forall v :: v in db.visitors.Values ==> v.hostEmployee != user.name.value
      then reply == Failure(404, NO_VISITORS)
      else reply == Success(200, HostedBy(db.order, db.visitors, user.name.value))
    ensures reply.Success? ==>
      forall v :: v in reply.value <==> v in db.visitors.Values && v.hostEmployee == user.name.value
  {
    if user.name.None? || user.name.value == "" {
      return Failure(401, NAME_MISSING);
    }
    var name := user.name.value;
    var hosted := HostedBy(db.order, db.visitors, name);
    HostedByExactly(db.order, db.visitors, name);
    if hosted == [] {
      return Failure(404, NO_VISITORS);
    }
    assert hosted[0] in hosted;
    reply := Success(200, hosted);
  }
}
