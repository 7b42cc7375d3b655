/**
 * The visitor workflow of the controller/model split
 * (backend/controllers/visitorController.js over backend/models/Visitor.js,
 * wired by backend/routes/visitorRoutes.js). Registration saves first and
 * mails the host only if one is found; a status update accepts five statuses
 * and stamps the time on every entry into "checked-in" or "checked-out";
 * the listing is the caller's hosted visitors.
 */
module VisitorController {
  import opened Common
  import opened VisitorModel
  import opened Store
  import Auth

  /** `validStatuses` of `updateStatus`. */
  const STATUSES: seq<string> := [PENDING, APPROVED, REJECTED, CHECKED_IN, CHECKED_OUT]

  const INVALID_STATUS := "Invalid status"
  const NOT_FOUND := "Visitor not found"
  /** Stands for Mongoose's validation message when `save()` refuses the document. */
  const VISITOR_INVALID := "Visitor validation failed"
  const NEW_VISITOR_SUBJECT := "New Visitor Registered"

  /** The text fields of a registration request; a field the client leaves out is "". */
  datatype VisitorForm = VisitorForm(fullName: string, contact: string, purpose: string,
                                     hostEmployee: string, timeSlot: string)

  /** The body of the host's notification: `New visitor: ${fullName} for ${purpose} at ${timeSlot}`. */
  function HostNotice(form: VisitorForm): (text: string) {
    "New visitor: " + form.fullName + " for " + form.purpose + " at " + form.timeSlot
  }

  /** A visitor that is checked in has a check-in time, and one that is checked out has a check-out time. */
  predicate TimestampsFollowStatus(v: Visitor) {
    && (v.status == CHECKED_IN ==> v.checkInTime.Some?)
    && (v.status == CHECKED_OUT ==> v.checkOutTime.Some?)
  }

  /** What every record written by this variant satisfies. */
  predicate ControllerRecord(v: Visitor) {
    SchemaValid(v) && v.status in STATUSES && TimestampsFollowStatus(v)
  }

  ghost predicate ControllerState(db: Database)
    reads db
  {
    forall id :: id in db.visitors ==> ControllerRecord(db.visitors[id])
  }

  /**
   * The record after `findByIdAndUpdate(id, updateFields)`: the status is
   * replaced; "checked-in" and "checked-out" stamp their own time with `now`
   * whatever it held before; nothing else changes.
   */
  function ApplyUpdate(v: Visitor, status: string, now: Time): (r: Visitor)
    ensures SameDetails(v, r) && r.status == status
    ensures r.checkInTime == (if status == CHECKED_IN then Some(now) else v.checkInTime)
    ensures r.checkOutTime == (if status == CHECKED_OUT then Some(now) else v.checkOutTime)
  {
    v.(status := status,
       checkInTime := if status == CHECKED_IN then Some(now) else v.checkInTime,
       checkOutTime := if status == CHECKED_OUT then Some(now) else v.checkOutTime)
  }

  /** An accepted update keeps a record within what this variant writes. */
  lemma UpdateKeepsRecord(v: Visitor, status: string, now: Time)
    requires ControllerRecord(v) && status in STATUSES
    ensures ControllerRecord(ApplyUpdate(v, status, now))
  {
  }

  /** This variant never clears a timestamp: once set, each stays set through any update. */
  lemma TimestampsNeverCleared(v: Visitor, status: string, now: Time)
    ensures v.checkInTime.Some? ==> ApplyUpdate(v, status, now).checkInTime.Some?
    ensures v.checkOutTime.Some? ==> ApplyUpdate(v, status, now).checkOutTime.Some?
  {
  }

  /**
   * Re-entering "checked-in" is not idempotent: a second check-in at a
   * different time replaces the first check-in time.
   */
  lemma ReentryOverwritesCheckIn(v: Visitor, first: Time, second: Time)
    requires first != second
    ensures ApplyUpdate(ApplyUpdate(v, CHECKED_IN, first), CHECKED_IN, second).checkInTime == Some(second)
    ensures ApplyUpdate(v, CHECKED_IN, first).checkInTime != Some(second)
  {
  }

  /**
   * The mail `registerVisitor` sends: one notice to the first employee named
   * as the host, or nothing when no employee has that name.
   */
  function HostMail(employees: seq<Employee>, form: VisitorForm): (r: seq<Email>)
    ensures |r| <= 1
    ensures |r| == 1 <==> exists e :: e in employees && e.name == form.hostEmployee
    ensures |r| == 1 ==> exists k :: (
      && 0 <= k < |employees| && employees[k].name == form.hostEmployee
      && (forall j :: 0 <= j < k ==> employees[j].name != form.hostEmployee)
      && r[0] == Email(employees[k].email, NEW_VISITOR_SUBJECT, HostNotice(form)))
  {
    match FindFirst(employees, NamedAs(form.hostEmployee))
    case None =>
      assert forall j :: 0 <= j < |employees| ==> !NamedAs(form.hostEmployee)(employees[j]);
      []
    case Some(k) =>
      assert NamedAs(form.hostEmployee)(employees[k]);
      assert forall j :: 0 <= j < k ==> !NamedAs(form.hostEmployee)(employees[j]);
      [Email(employees[k].email, NEW_VISITOR_SUBJECT, HostNotice(form))]
  }

  /** `registerVisitor`: save a pending document, then mail its host if an employee has that name. */
  method RegisterVisitor(db: Database, form: VisitorForm, upload: Option<string>, id: Id)
    returns (reply: Reply<Visitor>)
    requires db.Valid() && ControllerState(db)
    requires id !in db.visitors
    modifies db
    ensures db.Valid() && ControllerState(db)
    ensures db.employees == old(db.employees) && db.events == old(db.events)
    ensures var v := NewDocument(id, form.fullName, form.contact, form.purpose, form.hostEmployee,
                                 form.timeSlot, UploadPath(upload), Some(PENDING));
      if !SchemaValid(v) then
        && reply == Failure(500, VISITOR_INVALID)
        && db.visitors == old(db.visitors) && db.order == old(db.order) && db.mails == old(db.mails)
      else
        && reply == Success(201, v)
        && db.visitors == old(db.visitors)[id := v] && db.order == old(db.order) + [id]
        && HostedBy(db.order, db.visitors, form.hostEmployee)
           == old(HostedBy(db.order, db.visitors, form.hostEmployee)) + [v]
        && db.mails == old(db.mails) + HostMail(db.employees, form)
  {
    var v := NewDocument(id, form.fullName, form.contact, form.purpose, form.hostEmployee,
                         form.timeSlot, UploadPath(upload), Some(PENDING));
    if !SchemaValid(v) {
      return Failure(500, VISITOR_INVALID);
    }
    assert ControllerRecord(v);
    InsertListing(db.order, db.visitors, v, form.hostEmployee);
    db.Insert(v);
    var mail := HostMail(db.employees, form);
    if mail != [] {
      db.Send(mail[0]);
    }
    assert db.mails == old(db.mails) + mail;
    reply := Success(201, v);
  }

  /** `updateStatus`, mounted behind the token gate: the status check, then the lookup, then the update. */
  method UpdateStatus(db: Database, ghost header: Option<string>, ghost verify: string -> Option<Claims>,
                      id: Id, status: string, now: Time)
    returns (reply: Reply<Visitor>)
    requires db.Valid() && ControllerState(db)
    requires Auth.Gate(header, verify).Accept?
    modifies db
    ensures db.Valid() && ControllerState(db)
    ensures db.order == old(db.order) && db.employees == old(db.employees)
    ensures db.mails == old(db.mails) && db.events == old(db.events)
    ensures status !in STATUSES ==>
      reply == Failure(400, INVALID_STATUS) && db.visitors == old(db.visitors)
    ensures status in STATUSES && id !in old(db.visitors) ==>
      reply == Failure(404, NOT_FOUND) && db.visitors == old(db.visitors)
    ensures status in STATUSES && id in old(db.visitors) ==>
      var v := ApplyUpdate(old(db.visitors)[id], status, now);
      reply == Success(200, v) && db.visitors == old(db.visitors)[id := v]
  {
    if status !in STATUSES {
      return Failure(400, INVALID_STATUS);
    }
    if id !in db.visitors {
      return Failure(404, NOT_FOUND);
    }
    var v := ApplyUpdate(db.visitors[id], status, now);
    UpdateKeepsRecord(db.visitors[id], status, now);
    db.Replace(v);
    reply := Success(200, v);
  }

  /** `getVisitors`, mounted behind the token gate: the visitors whose host is the caller, in insertion order. */
  method GetVisitors(db: Database, ghost header: Option<string>, ghost verify: string -> Option<Claims>,
                     user: Claims)
    returns (reply: Reply<seq<Visitor>>)
    requires db.Valid()
    requires Auth.Gate(header, verify) == Auth.Accept(user)
    requires user.name.Some?
    ensures reply.Success? && reply.code == 200
    ensures reply.value == HostedBy(db.order, db.visitors, user.name.value)
    ensures forall v :: v in reply.value <==> v in db.visitors.Values && v.hostEmployee == user.name.value
  {
    var hosted := HostedBy(db.order, db.visitors, user.name.value);
    HostedByExactly(db.order, db.visitors, user.name.value);
    reply := Success(200, hosted);
  }
}
