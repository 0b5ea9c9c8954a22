/** The contact table as a mutable store and `identifyUser` as a method that
    changes it step by step (identityService.ts:14-158). */
module Store {
  import opened Wrappers
  import opened Sequences
  import opened Contacts
  import opened Resolver
  import opened Invariants

  /** The effective primary ids of the matches, collected by the loop of
      identityService.ts:58-65. */
  method CollectAnchors(ms: seq<Contact>) returns (ids: set<nat>)
    ensures ids == Anchors(ms)
  {
    ids := {};
    for i := 0 to |ms|
      invariant ids == Anchors(ms[..i])
    {
      var c := ms[i];
      assert ms[..i + 1] == ms[..i] + [c];
      AnchorsSnoc(ms[..i], c);
      if c.precedence == Primary {
        ids := ids + {c.id};
      } else if c.linkedId.Some? && c.linkedId.value != 0 {
        ids := ids + {c.linkedId.value};
      }
    }
    assert ms[..|ms|] == ms;
  }

  /** The emails and phone numbers of the members, each once in first-seen
      order, collected by the loop of identityService.ts:115-124. */
  method CollectIdentifiers(ms: seq<Contact>) returns (emails: seq<string>, phones: seq<string>)
    ensures emails == Identifiers(ms, Email)
    ensures phones == Identifiers(ms, Phone)
  {
    emails, phones := [], [];
    for i := 0 to |ms|
      invariant emails == Identifiers(ms[..i], Email)
      invariant phones == Identifiers(ms[..i], Phone)
    {
      var c := ms[i];
      assert ms[..i + 1] == ms[..i] + [c];
      IdentifiersSnoc(ms[..i], c, Email);
      IdentifiersSnoc(ms[..i], c, Phone);
      if c.email.Some? && c.email.value != "" && c.email.value !in emails {
        emails := emails + [c.email.value];
      }
      if c.phone.Some? && c.phone.value != "" && c.phone.value !in phones {
        phones := phones + [c.phone.value];
      }
    }
    assert ms[..|ms|] == ms;
  }

  class ContactStore {
    var contacts: seq<Contact>
    var nextId: nat
    var clock: nat

    function State(): StoreState
      reads this
    {
      StoreState(contacts, nextId, clock)
    }

    ghost predicate Valid()
      reads this
    {
      WellFormed(State())
    }

    /** An empty table whose first id is 1. */
    constructor ()
      ensures Valid()
      ensures contacts == [] && nextId == 1 && clock == 0
    {
      contacts, nextId, clock := [], 1, 0;
    }

    /** A table with existing rows, some possibly deleted. */
    constructor Load(st: StoreState)
      requires WellFormed(st)
      ensures Valid() && State() == st
    {
      contacts, nextId, clock := st.contacts, st.nextId, st.clock;
    }

    /** `prisma.contact.create`: a new row with a fresh id and the current time. */
    method Create(email: Option<string>, phone: Option<string>, precedence: Precedence, link: Option<nat>)
      returns (c: Contact)
      requires Valid()
      modifies this
      ensures c == Contact(old(nextId), email, phone, precedence, link, old(clock), false)
      ensures State() == Append(old(State()), c)
      ensures Valid()
    {
      c := Contact(nextId, email, phone, precedence, link, clock, false);
      AppendWellFormed(State(), c);
      contacts, nextId, clock := contacts + [c], nextId + 1, clock + 1;
    }

    /** `identifyUser`: answers the request and updates the table, exactly as
        `Resolve` describes. */
    method Identify(req: Request) returns (reply: Reply)
      requires Valid()
      modifies this
      ensures Valid()
      ensures reply == Resolve(old(State()), req).reply
      ensures State() == Resolve(old(State()), req).after
    {
      ghost var st := State();
      if !Truthy(req.email) && !Truthy(req.phone) {
        return Reply(InvalidInput, Zeroed);
      }
      var same := Matches(contacts, req);
      if |same| == 0 {
        var c := Create(OrNull(req.email), OrNull(req.phone), Primary, None);
        return Reply(Ok, Response(c.id, Listed(c.email), Listed(c.phone), []));
      }
      var anchors := CollectAnchors(same);
      var members := Cluster(contacts, anchors);
      var prims := Primaries(members);
      assert members == ClusterOf(st, req);
      if |prims| == 0 {
        return Reply(ServerError, Zeroed);
      }
      var chosen := prims[0];
      if |prims| > 1 {
        DemoteWellFormed(State(), IdsOf(prims[1..]), chosen.id);
        contacts := Demote(contacts, IdsOf(prims[1..]), chosen.id);
      }
      ghost var st1 := State();
      assert st1 == if |prims| > 1 then st.(contacts := Demote(st.contacts, IdsOf(prims[1..]), chosen.id)) else st;
      var created := NeedsSecondary(req, members);
      if created {
        var n := Create(OrNull(req.email), OrNull(req.phone), Secondary, Some(chosen.id));
        assert n == NewContact(st1, req, Secondary, Some(chosen.id));
        members := members + [n];
      }
      var emails, phones := CollectIdentifiers(members);
      reply := Reply(Ok, Response(
        chosen.id,
        Arrange(emails, chosen.email),
        Arrange(phones, chosen.phone),
        SortAscending(SecondaryIds(members))));
      assert reply.contact == Project(chosen, members);
    }
  }
}
