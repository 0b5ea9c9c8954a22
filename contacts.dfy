/** Contact records, the identify request and reply, and the shape of the
    contact table (identityService.ts:4-12, 16, 19-26, 138-156). */
module Contacts {
  import opened Wrappers
  import opened Sequences

  datatype Precedence = Primary | Secondary

  /** One row of the contact table. `deleted` stands for a non-null `deletedAt`;
      `updatedAt` is not modelled. */
  datatype Contact = Contact(
    id: nat,
    email: Option<string>,
    phone: Option<string>,
    precedence: Precedence,
    linkedId: Option<nat>,
    createdAt: nat,
    deleted: bool)

  /** The request body: either identifier may be missing. */
  datatype Request = Request(email: Option<string>, phone: Option<string>)

  /** The two identifiers a contact carries. */
  datatype Field = Email | Phone

  function Get(c: Contact, f: Field): Option<string>
  {
    match f
    case Email => c.email
    case Phone => c.phone
  }

  function Asked(req: Request, f: Field): Option<string>
  {
    match f
    case Email => req.email
    case Phone => req.phone
  }

  /** JavaScript truthiness of an optional string: present and not empty. */
  predicate Truthy(o: Option<string>)
  {
    o.Some? && o.value != ""
  }

  /** `value || null`: a falsy identifier is stored as null. */
  function OrNull(o: Option<string>): (r: Option<string>)
    ensures Truthy(r) <==> Truthy(o)
    ensures r.Some? ==> r == o && r.value != ""
  {
    if Truthy(o) then o else None
  }

  /** The request carries at least one truthy identifier. */
  predicate Given(req: Request)
  {
    Truthy(req.email) || Truthy(req.phone)
  }

  datatype Status = Ok | InvalidInput | ServerError

  datatype Response = Response(
    primaryContactId: nat,
    emails: seq<string>,
    phoneNumbers: seq<string>,
    secondaryContactIds: seq<int>)

  /** The list of the reply that holds values of field `f`. */
  function Listing(r: Response, f: Field): seq<string>
  {
    match f
    case Email => r.emails
    case Phone => r.phoneNumbers
  }

  /** The body both error replies carry. */
  const Zeroed := Response(0, [], [], [])

  datatype Reply = Reply(status: Status, contact: Response)

  /** The contact table with its id sequence and the clock that stamps `createdAt`. */
  datatype StoreState = StoreState(contacts: seq<Contact>, nextId: nat, clock: nat)

  /** `a` was created before `b`: a smaller id and no later timestamp. */
  predicate Before(a: Contact, b: Contact)
  {
    a.id < b.id && a.createdAt <= b.createdAt
  }

  /** Rows are kept in creation order: ids increase along the table (they are
      never reused) and creation timestamps never decrease, so the table order
      is the order `createdAt` ascending with ties broken by id. Ids start at 1
      and the counters stay ahead of every row. */
  ghost predicate WellFormed(st: StoreState)
  {
    && 1 <= st.nextId
    && Pairwise(st.contacts, Before)
    && forall c :: c in st.contacts ==> 1 <= c.id < st.nextId && c.createdAt < st.clock
  }

  /** A Primary has no link; a Secondary links to a (truthy) id. */
  predicate LinkShape(c: Contact)
  {
    match c.precedence
    case Primary => c.linkedId == None
    case Secondary => c.linkedId.Some? && c.linkedId.value >= 1
  }

  /** Every row has the link shape the resolver itself produces, and every
      link names an id already handed out: the resolver only links to rows it
      has fetched. */
  ghost predicate Linked(st: StoreState)
  {
    forall c :: c in st.contacts ==> LinkShape(c) && (c.linkedId.Some? ==> c.linkedId.value < st.nextId)
  }

  /** Ids are unique in a well-formed table. */
  lemma UniqueIds(st: StoreState, a: Contact, b: Contact)
    requires WellFormed(st) && a in st.contacts && b in st.contacts && a.id == b.id
    ensures a == b
  {
    var i :| 0 <= i < |st.contacts| && st.contacts[i] == a;
    var j :| 0 <= j < |st.contacts| && st.contacts[j] == b;
  }
}
