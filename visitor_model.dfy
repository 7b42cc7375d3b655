/**
 * The Visitor document (backend/models/Visitor.js): its fields, the
 * validation that `save()` runs against the schema, and the defaults a new
 * document receives. The status names used by both server variants and the
 * upload path of a visitor's photo are defined here as well.
 */
module VisitorModel {
  import opened Common

  const PENDING := "pending"
  const APPROVED := "approved"
  const REJECTED := "rejected"
  const CHECKED_IN := "checked-in"
  const CHECKED_OUT := "checked-out"

  /** The closed enumeration of `timeSlot`. */
  const TIME_SLOTS: seq<string> := [
    "9:00 AM - 11:00 AM",
    "11:00 AM - 1:00 PM",
    "1:00 PM - 3:00 PM",
    "3:00 PM - 5:00 PM"
  ]

  /** Directory under which uploaded photos are served. */
  const UPLOADS := "/uploads/"

  /**
   * A stored visitor document. `company` exists only in the monolith's schema
   * and `timeSlot` only in models/Visitor.js; a field a variant does not
   * store is None there.
   */
  datatype Visitor = Visitor(
    id: Id,
    fullName: string,
    contact: string,
    purpose: string,
    hostEmployee: string,
    company: Option<string>,
    timeSlot: Option<string>,
    status: string,
    checkInTime: Option<Time>,
    checkOutTime: Option<Time>,
    photo: Option<string>)

  /** A `required: true` String path: Mongoose refuses both a missing value and "". */
  predicate Filled(s: string) {
    s != ""
  }

  /** The four required strings of a visitor, common to both schemas. */
  predicate RequiredFilled(v: Visitor) {
    Filled(v.fullName) && Filled(v.contact) && Filled(v.purpose) && Filled(v.hostEmployee)
  }

  /**
   * What `save()` accepts under models/Visitor.js: the required strings and a
   * `timeSlot` from the closed enumeration. `status` carries no enumeration
   * here, and `photo` is optional.
   */
  predicate SchemaValid(v: Visitor) {
    RequiredFilled(v) && v.timeSlot.Some? && v.timeSlot.value in TIME_SLOTS
  }

  /**
   * `new Visitor({...})` under models/Visitor.js: `status` takes the given
   * value or defaults to "pending", and both timestamps default to null.
   * The schema has no `company` path, so none is stored.
   */
  function NewDocument(id: Id, fullName: string, contact: string, purpose: string,
                       hostEmployee: string, timeSlot: string, photo: Option<string>,
                       status: Option<string>): (v: Visitor)
    ensures v.id == id && v.fullName == fullName && v.contact == contact
    ensures v.purpose == purpose && v.hostEmployee == hostEmployee
    ensures v.timeSlot == Some(timeSlot) && v.photo == photo && v.company.None?
    ensures status.None? ==> v.status == PENDING
    ensures status.Some? ==> v.status == status.value
    ensures v.checkInTime.None? && v.checkOutTime.None?
  {
    Visitor(id, fullName, contact, purpose, hostEmployee, None, Some(timeSlot),
            if status.Some? then status.value else PENDING, None, None, photo)
  }

  /**
   * A new document passes validation exactly when the four required strings
   * are non-empty and the time slot is one of the four windows; the status it
   * is given plays no part.
   */
  lemma NewDocumentValid(id: Id, fullName: string, contact: string, purpose: string,
                         hostEmployee: string, timeSlot: string, photo: Option<string>,
                         status: Option<string>)
    ensures SchemaValid(NewDocument(id, fullName, contact, purpose, hostEmployee, timeSlot, photo, status))
        <==> fullName != "" && contact != "" && purpose != "" && hostEmployee != ""
             && timeSlot in TIME_SLOTS
  {
  }

  /**
   * Validation looks at neither the status (no enumeration at this layer),
   * the timestamps, nor the optional photo: changing them never makes a
   * document valid or invalid.
   */
  lemma SchemaIgnoresWorkflow(v: Visitor, status: string, checkIn: Option<Time>, checkOut: Option<Time>,
                              photo: Option<string>)
    ensures SchemaValid(v.(status := status, checkInTime := checkIn, checkOutTime := checkOut, photo := photo))
        == SchemaValid(v)
  {
  }

  /** Every field outside the workflow (status and the two timestamps) is the same in `a` and `b`. */
  predicate SameDetails(a: Visitor, b: Visitor) {
    && a.id == b.id && a.fullName == b.fullName && a.contact == b.contact
    && a.purpose == b.purpose && a.hostEmployee == b.hostEmployee
    && a.company == b.company && a.timeSlot == b.timeSlot && a.photo == b.photo
  }

  /** `req.file ? "/uploads/" + req.file.filename : null` */
  function UploadPath(filename: Option<string>): (r: Option<string>)
    ensures r.Some? <==> filename.Some?
    ensures r.Some? ==> |r.value| == |UPLOADS| + |filename.value|
    ensures r.Some? ==> r.value[..|UPLOADS|] == UPLOADS && r.value[|UPLOADS|..] == filename.value
  {
    match filename
    case None => None
    case Some(f) => Some(UPLOADS + f)
  }
}
