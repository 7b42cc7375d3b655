/**
 * Employee accounts (backend/controllers/employeeController.js): registration
 * guarded by e-mail and username uniqueness, login by username and password
 * hash, and the list of employee names. The same three handlers are repeated
 * in server.js:158-224; module Server reuses these with its own messages.
 */
module EmployeeController {
  import opened Common
  import opened Store
  import Auth

  /** The body of a registration request. */
  datatype Registration = Registration(name: string, email: string, username: string, password: string)

  /** The body of a successful login: the token and the employee's public details. */
  datatype Session = Session(token: string, name: string, email: string)

  /** A document of `Employee.find({}, "name")`: the id and the name only. */
  datatype EmployeeName = EmployeeName(id: Id, name: string)

  const ALREADY_EXISTS := "Email or username already exists"
  const REGISTERED := "Employee registered successfully"
  const INVALID_CREDENTIALS := "Invalid credentials"
  /** Stands for Mongoose's validation message when `save()` refuses the document. */
  const EMPLOYEE_INVALID := "Employee validation failed"

  /** The filter `{ $or: [{ email }, { username }] }`. */
  function Clashes(email: string, username: string): (p: Employee -> bool) {
    (e: Employee) => e.email == email || e.username == username
  }

  /** The filter `{ username }`. */
  function HasUsername(username: string): (p: Employee -> bool) {
    (e: Employee) => e.username == username
  }

  /** The claims a login signs: `{ id, name, email }` of the matched employee. */
  function TokenClaims(e: Employee): (c: Claims)
    ensures c.id == Some(e.id) && c.name == Some(e.name) && c.email == Some(e.email)
  {
    Claims(Some(e.id), Some(e.name), Some(e.email))
  }

  /** No two accounts share an e-mail address or a username. */
  ghost predicate UniqueAccounts(employees: seq<Employee>) {
    forall i, j :: 0 <= i < j < |employees| ==>
      employees[i].email != employees[j].email && employees[i].username != employees[j].username
  }

  /** Account `k` is the first one whose username is `username`. */
  predicate FirstWithUsername(employees: seq<Employee>, username: string, k: int) {
    && 0 <= k < |employees|
    && employees[k].username == username
    && (forall j :: 0 <= j < k ==> employees[j].username != username)
  }

  /** `register`: refuse a clash, otherwise store the account with its password hashed. */
  method Register(db: Database, crypto: Crypto, form: Registration, salt: nat, id: Id)
    returns (reply: Reply<string>)
    requires db.Valid()
    requires forall e :: e in db.employees ==> e.id != id
    modifies db
    ensures db.Valid()
    ensures db.visitors == old(db.visitors) && db.order == old(db.order)
    ensures db.mails == old(db.mails) && db.events == old(db.events)
    ensures (exists e :: e in old(db.employees) && (e.email == form.email || e.username == form.username)) ==>
      reply == Failure(400, ALREADY_EXISTS) && db.employees == old(db.employees)
    ensures (forall e :: e in old(db.employees) ==> e.email != form.email && e.username != form.username) ==>
      var stored := Employee(id, form.name, form.email, form.username, crypto.hash(form.password, salt));
      if EmployeeValid(stored) then
        reply == Success(201, REGISTERED) && db.employees == old(db.employees) + [stored]
      else
        reply == Failure(500, EMPLOYEE_INVALID) && db.employees == old(db.employees)
    ensures UniqueAccounts(old(db.employees)) ==> UniqueAccounts(db.employees)
  {
    var existing := FindFirst(db.employees, Clashes(form.email, form.username));
    if existing.Some? {
      assert Clashes(form.email, form.username)(db.employees[existing.value]);
      return Failure(400, ALREADY_EXISTS);
    }
    var stored := Employee(id, form.name, form.email, form.username, crypto.hash(form.password, salt));
    if !EmployeeValid(stored) {
      return Failure(500, EMPLOYEE_INVALID);
    }
    ghost var before := db.employees;
    assert forall j :: 0 <= j < |before| ==> !Clashes(form.email, form.username)(before[j]);
    db.AddEmployee(stored);
    reply := Success(201, REGISTERED);
  }

  /** `login`: the first account with the username, if its hash matches the password, gets a signed token. */
  method Login(db: Database, crypto: Crypto, username: string, password: string)
    returns (reply: Reply<Session>)
    ensures (forall e :: e in db.employees ==> e.username != username) ==>
      reply == Failure(401, INVALID_CREDENTIALS)
    ensures reply.Failure? ==> reply == Failure(401, INVALID_CREDENTIALS)
    ensures reply.Success? ==> exists k :: (
      && FirstWithUsername(db.employees, username, k)
      && crypto.compare(password, db.employees[k].password)
      && reply == Success(200, Session(crypto.sign(TokenClaims(db.employees[k])),
                                       db.employees[k].name, db.employees[k].email)))
    ensures forall k :: FirstWithUsername(db.employees, username, k) ==>
      (reply.Success? <==> crypto.compare(password, db.employees[k].password))
  {
    var found := FindFirst(db.employees, HasUsername(username));
    if found.None? {
      assert forall j :: 0 <= j < |db.employees| ==> !HasUsername(username)(db.employees[j]);
      return Failure(401, INVALID_CREDENTIALS);
    }
    var e := db.employees[found.value];
    assert forall j :: 0 <= j < found.value ==> !HasUsername(username)(db.employees[j]);
    if !crypto.compare(password, e.password) {
      return Failure(401, INVALID_CREDENTIALS);
    }
    reply := Success(200, Session(crypto.sign(TokenClaims(e)), e.name, e.email));
  }

  /** The projection `Employee.find({}, "name")`: one entry per account, in order, carrying only the name. */
  method Names(db: Database) returns (names: seq<EmployeeName>)
    ensures |names| == |db.employees|
    ensures forall i :: 0 <= i < |db.employees| ==>
      names[i] == EmployeeName(db.employees[i].id, db.employees[i].name)
  {
    var employees := db.employees;
    names := seq(|employees|, i requires 0 <= i < |employees| =>
      EmployeeName(employees[i].id, employees[i].name));
  }

  /** `getAllEmployees`, mounted behind the token gate (backend/routes/employeeRoutes.js:8). */
  method GetAllEmployees(db: Database, ghost header: Option<string>, ghost verify: string -> Option<Claims>)
    returns (reply: Reply<seq<EmployeeName>>)
    requires Auth.Gate(header, verify).Accept?
    ensures reply.Success? && reply.code == 200
    ensures |reply.value| == |db.employees|
    ensures forall i :: 0 <= i < |db.employees| ==>
      reply.value[i] == EmployeeName(db.employees[i].id, db.employees[i].name)
  {
    var names := Names(db);
    reply := Success(200, names);
  }

  /**
   * Once an account is registered under unique e-mail and username, a login
   * with its username finds that account and no other.
   */
  lemma {:induction false} LoginFindsRegistered(employees: seq<Employee>, e: Employee)
    requires UniqueAccounts(employees + [e])
    ensures FindFirst(employees + [e], HasUsername(e.username)) == Some(|employees|)
  {
    var all := employees + [e];
    assert HasUsername(e.username)(all[|employees|]);
  }
}
