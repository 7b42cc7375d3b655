/**
 * The document database and the two outbound channels the handlers write to.
 * `Database` holds the Visitor collection (a table keyed by id, together with
 * the order in which documents were inserted, which is the order queries
 * return them in) and the Employee collection (server.js:44-51), plus two
 * append-only outboxes: the e-mails handed to the mail transport and the
 * events pushed to connected Socket.IO clients.
 */
module Store {
  import opened Common
  import opened VisitorModel

  /** An Employee document; `password` holds the bcrypt hash, never the plaintext. */
  datatype Employee = Employee(id: Id, name: string, email: string, username: string, password: string)

  /** What `save()` accepts under the Employee schema: all four strings are required. */
  predicate EmployeeValid(e: Employee) {
    Filled(e.name) && Filled(e.email) && Filled(e.username) && Filled(e.password)
  }

  /** The filter `{ name: name }` of a host lookup. */
  function NamedAs(name: string): (p: Employee -> bool) {
    (e: Employee) => e.name == name
  }

  /** A message handed to the mail transport. */
  datatype Email = Email(recipient: string, subject: string, text: string)

  /** A Socket.IO broadcast to every connected client. */
  datatype Event = Event(name: string, visitor: Visitor)

  /**
   * The visitors listed under `order` whose `hostEmployee` is `name`, in
   * insertion order: `Visitor.find({ hostEmployee: name })`.
   */
  function HostedBy(order: seq<Id>, table: map<Id, Visitor>, name: string): (r: seq<Visitor>)
    requires forall i :: 0 <= i < |order| ==> order[i] in table
    ensures |r| <= |order|
    ensures forall v :: v in r ==> v.hostEmployee == name
    ensures forall v :: v in r ==> exists i :: 0 <= i < |order| && table[order[i]] == v
    ensures forall i :: 0 <= i < |order| && table[order[i]].hostEmployee == name ==> table[order[i]] in r
  {
    if order == [] then []
    else
      var head := table[order[0]];
      var rest := HostedBy(order[1..], table, name);
      assert forall v :: v in rest ==> exists i :: 0 <= i < |order| && table[order[i]] == v by {
        forall v | v in rest ensures exists i :: 0 <= i < |order| && table[order[i]] == v {
          var k :| 0 <= k < |order[1..]| && table[order[1..][k]] == v;
          assert table[order[k + 1]] == v;
        }
      }
      if head.hostEmployee == name then [head] + rest else rest
  }

  /** Inserting one more id at the end of the order adds at most its record at the end of a listing. */
  lemma {:induction false} HostedByAppend(order: seq<Id>, table: map<Id, Visitor>, id: Id, name: string)
    requires forall i :: 0 <= i < |order| ==> order[i] in table
    requires id in table
    ensures HostedBy(order + [id], table, name)
         == HostedBy(order, table, name) + (if table[id].hostEmployee == name then [table[id]] else [])
  {
    if order != [] {
      assert (order + [id])[1..] == order[1..] + [id];
      HostedByAppend(order[1..], table, id, name);
    } else {
      assert order + [id] == [id];
      assert HostedBy([id][1..], table, name) == [];
    }
  }

  /** Entries of the table that the order does not list have no effect on a listing. */
  lemma {:induction false} HostedByIgnoresUnlisted(order: seq<Id>, table: map<Id, Visitor>, id: Id, v: Visitor, name: string)
    requires forall i :: 0 <= i < |order| ==> order[i] in table
    requires forall i :: 0 <= i < |order| ==> order[i] != id
    ensures HostedBy(order, table[id := v], name) == HostedBy(order, table, name)
  {
    if order != [] {
      HostedByIgnoresUnlisted(order[1..], table, id, v, name);
    }
  }

  /** Over a table whose ids are exactly those of the order, a listing holds exactly the table's records with that host. */
  lemma HostedByExactly(order: seq<Id>, table: map<Id, Visitor>, name: string)
    requires forall i :: 0 <= i < |order| ==> order[i] in table
    requires forall id :: id in table ==> id in order
    ensures forall v :: v in HostedBy(order, table, name) <==> v in table.Values && v.hostEmployee == name
  {
  }

  class Database {
    var visitors: map<Id, Visitor>
    var order: seq<Id>
    var employees: seq<Employee>
    var mails: seq<Email>
    var events: seq<Event>

    /** `order` lists every stored visitor exactly once, and each record sits under its own id. */
    ghost predicate Valid()
      reads this
    {
      && (forall i :: 0 <= i < |order| ==> order[i] in visitors)
      && (forall id :: id in visitors ==> id in order)
      && (forall i, j :: 0 <= i < j < |order| ==> order[i] != order[j])
      && (forall id :: id in visitors ==> visitors[id].id == id)
    }

    constructor ()
      ensures Valid()
      ensures visitors == map[] && order == [] && employees == []
      ensures mails == [] && events == []
    {
      visitors, order, employees := map[], [], [];
      mails, events := [], [];
    }

    /** `new Visitor(...).save()` of a document whose id is fresh. */
    method Insert(v: Visitor)
      requires Valid()
      requires v.id !in visitors
      modifies this
      ensures Valid()
      ensures visitors == old(visitors)[v.id := v] && order == old(order) + [v.id]
      ensures employees == old(employees) && mails == old(mails) && events == old(events)
    {
      visitors := visitors[v.id := v];
      order := order + [v.id];
    }

    /** `findByIdAndUpdate` on a stored document: the record changes in place, the order does not. */
    method Replace(v: Visitor)
      requires Valid()
      requires v.id in visitors
      modifies this
      ensures Valid()
      ensures visitors == old(visitors)[v.id := v] && order == old(order)
      ensures employees == old(employees) && mails == old(mails) && events == old(events)
    {
      visitors := visitors[v.id := v];
    }

    /** `new Employee(...).save()` */
    method AddEmployee(e: Employee)
      requires Valid()
      modifies this
      ensures Valid()
      ensures employees == old(employees) + [e]
      ensures visitors == old(visitors) && order == old(order)
      ensures mails == old(mails) && events == old(events)
    {
      employees := employees + [e];
    }

    /** Hand a message to the mail transport; delivery failures never reach the caller. */
    method Send(m: Email)
      requires Valid()
      modifies this
      ensures Valid()
      ensures mails == old(mails) + [m]
      ensures visitors == old(visitors) && order == old(order)
      ensures employees == old(employees) && events == old(events)
    {
      mails := mails + [m];
    }

    /** `io.emit(name, visitor)` */
    method Emit(ev: Event)
      requires Valid()
      modifies this
      ensures Valid()
      ensures events == old(events) + [ev]
      ensures visitors == old(visitors) && order == old(order)
      ensures employees == old(employees) && mails == old(mails)
    {
      events := events + [ev];
    }
  }

  /** Inserting a fresh visitor extends its host's listing by exactly that visitor and leaves every other listing alone. */
  lemma InsertListing(order: seq<Id>, table: map<Id, Visitor>, v: Visitor, name: string)
    requires forall i :: 0 <= i < |order| ==> order[i] in table
    requires v.id !in table
    ensures HostedBy(order + [v.id], table[v.id := v], name)
         == HostedBy(order, table, name) + (if v.hostEmployee == name then [v] else [])
  {
    var t := table[v.id := v];
    HostedByIgnoresUnlisted(order, table, v.id, v, name);
    HostedByAppend(order, t, v.id, name);
  }
}
