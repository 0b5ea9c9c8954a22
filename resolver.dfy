/** The decisions `identifyUser` takes, as functions of the contact table and
    the request (identityService.ts:14-158), and `Resolve`, the whole call:
    the reply it sends and the table it leaves behind. */
module Resolver {
  import opened Wrappers
  import opened Sequences
  import opened Contacts

  /** A live row that carries one of the request's truthy identifiers
      (identityService.ts:29-37). A missing or empty identifier matches nothing. */
  predicate IsMatch(c: Contact, req: Request)
  {
    && !c.deleted
    && ((Truthy(req.email) && c.email == req.email) || (Truthy(req.phone) && c.phone == req.phone))
  }

  function Matches(contacts: seq<Contact>, req: Request): (m: seq<Contact>)
    ensures forall c :: c in m <==> c in contacts && IsMatch(c, req)
  {
    Filter(contacts, c => IsMatch(c, req))
  }

  /** The primary a row belongs to: itself when Primary, else its link when
      that link is truthy (identityService.ts:60-64). */
  function EffectivePrimary(c: Contact): Option<nat>
  {
    if c.precedence == Primary then Some(c.id)
    else if c.linkedId.Some? && c.linkedId.value != 0 then c.linkedId
    else None
  }

  /** The effective primary ids of the matches (identityService.ts:58-65). */
  function Anchors(ms: seq<Contact>): (a: set<nat>)
    ensures forall k :: k in a <==> exists c :: c in ms && EffectivePrimary(c) == Some(k)
  {
    set c | c in ms && EffectivePrimary(c).Some? :: EffectivePrimary(c).value
  }

  /** An anchor is the id of a matching Primary or the truthy link of a
      matching Secondary, the two arms of identityService.ts:59-64. */
  lemma AnchorsByPrecedence(ms: seq<Contact>, k: nat)
    ensures k in Anchors(ms) <==>
      exists c :: c in ms &&
        ((c.precedence == Primary && c.id == k) || (c.precedence == Secondary && c.linkedId == Some(k) && k != 0))
  {
  }

  /** Adding a match adds its effective primary, if it has one. */
  lemma AnchorsSnoc(ms: seq<Contact>, c: Contact)
    ensures Anchors(ms + [c]) == Anchors(ms) + (if EffectivePrimary(c).Some? then {EffectivePrimary(c).value} else {})
  {
    var l := Anchors(ms + [c]);
    var r := Anchors(ms) + (if EffectivePrimary(c).Some? then {EffectivePrimary(c).value} else {});
    forall k ensures k in l <==> k in r {
      if k in l {
        var d :| d in ms + [c] && EffectivePrimary(d) == Some(k);
        assert d in ms || d == c;
      }
      if k in Anchors(ms) {
        var d :| d in ms && EffectivePrimary(d) == Some(k);
        assert d in ms + [c];
      }
    }
  }

  /** A live row whose id or link is one of the anchors (identityService.ts:68-74). */
  predicate InCluster(c: Contact, anchors: set<nat>)
  {
    !c.deleted && (c.id in anchors || (c.linkedId.Some? && c.linkedId.value in anchors))
  }

  /** The cluster rows in table order, which is `createdAt` order
      (identityService.ts:67-76). */
  function Cluster(contacts: seq<Contact>, anchors: set<nat>): (cl: seq<Contact>)
    ensures forall c :: c in cl <==> c in contacts && InCluster(c, anchors)
  {
    Filter(contacts, c => InCluster(c, anchors))
  }

  lemma MatchesCons(c: Contact, contacts: seq<Contact>, req: Request)
    ensures Matches([c] + contacts, req) == (if IsMatch(c, req) then [c] else []) + Matches(contacts, req)
  {
    FilterCons(c, contacts, c => IsMatch(c, req));
  }

  lemma ClusterCons(c: Contact, contacts: seq<Contact>, anchors: set<nat>)
    ensures Cluster([c] + contacts, anchors) == (if InCluster(c, anchors) then [c] else []) + Cluster(contacts, anchors)
  {
    FilterCons(c, contacts, c => InCluster(c, anchors));
  }

  /** A row added at the end of the table joins the end of the cluster when it
      belongs to it. */
  lemma ClusterAppend(contacts: seq<Contact>, c: Contact, anchors: set<nat>)
    ensures Cluster(contacts + [c], anchors) == Cluster(contacts, anchors) + (if InCluster(c, anchors) then [c] else [])
  {
    FilterAppend(contacts, c, c => InCluster(c, anchors));
  }

  function Primaries(ms: seq<Contact>): (ps: seq<Contact>)
    ensures forall c :: c in ps <==> c in ms && c.precedence == Primary
  {
    Filter(ms, (c: Contact) => c.precedence == Primary)
  }

  lemma PrimariesCons(c: Contact, ms: seq<Contact>)
    ensures Primaries([c] + ms) == (if c.precedence == Primary then [c] else []) + Primaries(ms)
  {
    FilterCons(c, ms, (c: Contact) => c.precedence == Primary);
  }

  function ClusterOf(st: StoreState, req: Request): seq<Contact>
  {
    Cluster(st.contacts, Anchors(Matches(st.contacts, req)))
  }

  function PrimariesOf(st: StoreState, req: Request): seq<Contact>
  {
    Primaries(ClusterOf(st, req))
  }

  function IdsOf(ms: seq<Contact>): (ids: set<nat>)
    ensures forall k :: k in ids <==> exists c :: c in ms && c.id == k
  {
    set c | c in ms :: c.id
  }

  function Demoted(c: Contact, to: nat): Contact
  {
    c.(precedence := Secondary, linkedId := Some(to))
  }

  /** The bulk update of identityService.ts:84-93: every row whose id is in
      `ids` becomes a Secondary linked to `to`; no other row changes. */
  function Demote(contacts: seq<Contact>, ids: set<nat>, to: nat): (r: seq<Contact>)
    ensures |r| == |contacts|
  {
    seq(|contacts|, i requires 0 <= i < |contacts| =>
      if contacts[i].id in ids then Demoted(contacts[i], to) else contacts[i])
  }

  /** The distinct truthy values of field `f` among `ms` (identityService.ts:96-101). */
  function Union(ms: seq<Contact>, f: Field): (u: set<string>)
    ensures forall v :: v in u <==> exists c :: c in ms && Get(c, f) == Some(v) && v != ""
  {
    set c | c in ms && Truthy(Get(c, f)) :: Get(c, f).value
  }

  /** The request brings an email or a phone number the cluster does not
      already hold (identityService.ts:103). */
  predicate NeedsSecondary(req: Request, members: seq<Contact>)
  {
    || (Truthy(req.email) && req.email.value !in Union(members, Email))
    || (Truthy(req.phone) && req.phone.value !in Union(members, Phone))
  }

  /** The truthy values of field `f` along `ms`, repeats included. */
  function Values(ms: seq<Contact>, f: Field): (vs: seq<string>)
    ensures forall v :: v in vs <==> v in Union(ms, f)
  {
    if ms == [] then []
    else
      var last := ms[|ms| - 1];
      assert ms == ms[..|ms| - 1] + [last];
      Values(ms[..|ms| - 1], f) + (if Truthy(Get(last, f)) then [Get(last, f).value] else [])
  }

  lemma ValuesSnoc(ms: seq<Contact>, c: Contact, f: Field)
    ensures Values(ms + [c], f) == Values(ms, f) + (if Truthy(Get(c, f)) then [Get(c, f).value] else [])
  {
    assert (ms + [c])[..|ms|] == ms;
  }

  /** The values of `f` as the loop of identityService.ts:115-124 collects them:
      each once, in first-seen order. */
  function Identifiers(ms: seq<Contact>, f: Field): seq<string>
  {
    FirstSeen(Values(ms, f))
  }

  /** One more member adds its value of `f` unless it is falsy or already listed. */
  lemma IdentifiersSnoc(ms: seq<Contact>, c: Contact, f: Field)
    ensures Identifiers(ms + [c], f) ==
      if Truthy(Get(c, f)) && Get(c, f).value !in Identifiers(ms, f)
      then Identifiers(ms, f) + [Get(c, f).value]
      else Identifiers(ms, f)
  {
    ValuesSnoc(ms, c, f);
    if Truthy(Get(c, f)) {
      FirstSeenSnoc(Values(ms, f), Get(c, f).value);
    } else {
      assert Values(ms + [c], f) == Values(ms, f);
    }
  }

  /** The primary's own value, when truthy, moved to the front
      (identityService.ts:126-131). */
  function Arrange(xs: seq<string>, own: Option<string>): seq<string>
  {
    if Truthy(own) then Front(xs, own.value) else xs
  }

  /** The ids of the Secondary rows of `ms`, in the order of `ms`
      (identityService.ts:133-135). */
  function SecondaryIds(ms: seq<Contact>): (ids: seq<int>)
    ensures forall k :: k in ids <==> exists c :: c in ms && c.precedence == Secondary && c.id == k
  {
    if ms == [] then []
    else
      assert forall c :: c in ms <==> c == ms[0] || c in ms[1..];
      (if ms[0].precedence == Secondary then [ms[0].id] else []) + SecondaryIds(ms[1..])
  }

  lemma SecondaryIdsCons(c: Contact, ms: seq<Contact>)
    ensures SecondaryIds([c] + ms) == (if c.precedence == Secondary then [c.id] else []) + SecondaryIds(ms)
  {
    assert ([c] + ms)[1..] == ms;
  }

  /** Rows with distinct ids give a duplicate-free id list. */
  lemma {:induction false} SecondaryIdsDistinct(ms: seq<Contact>)
    requires forall i, j :: 0 <= i < j < |ms| ==> ms[i].id != ms[j].id
    ensures Distinct(SecondaryIds(ms))
  {
    if ms != [] {
      var rest := ms[1..];
      assert forall i, j :: 0 <= i < j < |rest| ==> rest[i].id != rest[j].id by {
        forall i, j | 0 <= i < j < |rest| ensures rest[i].id != rest[j].id {
          assert rest[i] == ms[i + 1] && rest[j] == ms[j + 1];
        }
      }
      SecondaryIdsDistinct(rest);
      forall c | c in rest ensures c.id != ms[0].id {
        var k :| 0 <= k < |rest| && rest[k] == c;
        assert ms[k + 1] == c;
      }
      var r := SecondaryIds(ms);
      var r' := SecondaryIds(rest);
      if ms[0].precedence == Secondary {
        assert ms[0].id !in r';
        assert r == [ms[0].id] + r';
        forall i, j | 0 <= i < j < |r| ensures r[i] != r[j] {
          assert r[j] == r'[j - 1];
          if i > 0 { assert r[i] == r'[i - 1]; }
        }
      } else {
        assert r == r';
      }
    }
  }

  /** The reply body of identityService.ts:115-145 for the chosen primary and
      the rows of the fetched snapshot (plus a new Secondary, if any). */
  function Project(chosen: Contact, members: seq<Contact>): Response
  {
    Response(
      chosen.id,
      Arrange(Identifiers(members, Email), chosen.email),
      Arrange(Identifiers(members, Phone), chosen.phone),
      SortAscending(SecondaryIds(members)))
  }

  /** `value ? [value] : []`. */
  function Listed(o: Option<string>): seq<string>
  {
    if Truthy(o) then [o.value] else []
  }

  /** The row `prisma.contact.create` adds for the request. */
  function NewContact(st: StoreState, req: Request, precedence: Precedence, link: Option<nat>): Contact
  {
    Contact(st.nextId, OrNull(req.email), OrNull(req.phone), precedence, link, st.clock, false)
  }

  function Append(st: StoreState, c: Contact): StoreState
  {
    StoreState(st.contacts + [c], st.nextId + 1, st.clock + 1)
  }

  datatype Outcome = Outcome(reply: Reply, after: StoreState)

  /** One call of `identifyUser`: the reply and the table afterwards.
      A cluster without a Primary makes the source dereference an undefined
      `chosen` before it writes anything (identityService.ts:81, 108, 126),
      which the catch turns into the zeroed server error (identityService.ts:147-156). */
  function Resolve(st: StoreState, req: Request): (o: Outcome)
    ensures o.reply.status == InvalidInput <==> !Given(req)
    ensures o.reply.status != Ok ==> o.reply.contact == Zeroed && o.after == st
    ensures |st.contacts| <= |o.after.contacts| <= |st.contacts| + 1
    ensures o.after.nextId == st.nextId + (|o.after.contacts| - |st.contacts|)
  {
    if !Given(req) then Outcome(Reply(InvalidInput, Zeroed), st)
    else if Matches(st.contacts, req) == [] then
      var c := NewContact(st, req, Primary, None);
      Outcome(Reply(Ok, Response(c.id, Listed(c.email), Listed(c.phone), [])), Append(st, c))
    else
      var cluster := ClusterOf(st, req);
      var prims := Primaries(cluster);
      if prims == [] then Outcome(Reply(ServerError, Zeroed), st)
      else
        var chosen := prims[0];
        var st1 := if |prims| > 1 then st.(contacts := Demote(st.contacts, IdsOf(prims[1..]), chosen.id)) else st;
        if NeedsSecondary(req, cluster) then
          var n := NewContact(st1, req, Secondary, Some(chosen.id));
          Outcome(Reply(Ok, Project(chosen, cluster + [n])), Append(st1, n))
        else
          Outcome(Reply(Ok, Project(chosen, cluster)), st1)
  }
}
