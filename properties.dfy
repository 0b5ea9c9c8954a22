/** What one call of `identifyUser` guarantees: which primary it elects, what it
    demotes, when it creates a row, and what the reply lists
    (identityService.ts:39-145). */
module Properties {
  import opened Wrappers
  import opened Sequences
  import opened Contacts
  import opened Resolver

  /** The cluster and its primaries come out in creation order. */
  lemma ClusterOrdered(st: StoreState, req: Request)
    requires WellFormed(st)
    ensures Pairwise(ClusterOf(st, req), Before)
    ensures Pairwise(PrimariesOf(st, req), Before)
  {
    var anchors := Anchors(Matches(st.contacts, req));
    FilterPairwise(st.contacts, c => InCluster(c, anchors), Before);
    FilterPairwise(ClusterOf(st, req), (c: Contact) => c.precedence == Primary, Before);
  }

  /** The chosen primary is the Primary member of the cluster created first:
      the smallest `createdAt`, ties going to the smaller id
      (identityService.ts:75, 78-81). */
  lemma ChosenIsEarliest(st: StoreState, req: Request)
    requires WellFormed(st)
    requires PrimariesOf(st, req) != []
    ensures var x := PrimariesOf(st, req)[0];
      && x in ClusterOf(st, req) && x.precedence == Primary
      && forall p :: p in ClusterOf(st, req) && p.precedence == Primary && p != x ==>
           x.createdAt <= p.createdAt && x.id < p.id
  {
    var prims := PrimariesOf(st, req);
    ClusterOrdered(st, req);
    forall p | p in ClusterOf(st, req) && p.precedence == Primary && p != prims[0]
      ensures prims[0].createdAt <= p.createdAt && prims[0].id < p.id
    {
      var k :| 0 <= k < |prims| && prims[k] == p;
      assert Before(prims[0], prims[k]);
    }
  }

  /** The rows the bulk update touches are exactly the cluster's Primaries
      other than the chosen one. */
  lemma DemotedAreOtherPrimaries(st: StoreState, req: Request, c: Contact)
    requires WellFormed(st) && PrimariesOf(st, req) != []
    requires c in st.contacts
    ensures var prims := PrimariesOf(st, req);
      c.id in IdsOf(prims[1..]) <==> c in prims && c != prims[0]
  {
    var prims := PrimariesOf(st, req);
    ClusterOrdered(st, req);
    assert forall p :: p in prims ==> p in st.contacts;
    LaterIds(st, prims, c);
  }

  /** In rows ordered by creation, a table row carries the id of a row after
      the first exactly when it is one of those later rows. */
  lemma LaterIds(st: StoreState, prims: seq<Contact>, c: Contact)
    requires WellFormed(st) && c in st.contacts
    requires prims != [] && Pairwise(prims, Before)
    requires forall p :: p in prims ==> p in st.contacts
    ensures c.id in IdsOf(prims[1..]) <==> c in prims && c != prims[0]
  {
    if c.id in IdsOf(prims[1..]) {
      var p :| p in prims[1..] && p.id == c.id;
      var k :| 0 <= k < |prims[1..]| && prims[1..][k] == p;
      assert prims[k + 1] == p;
      UniqueIds(st, p, c);
      assert Before(prims[0], prims[k + 1]);
    }
    if c in prims && c != prims[0] {
      var k :| 0 <= k < |prims| && prims[k] == c;
      assert prims[1..][k - 1] == c;
      assert c in prims[1..];
    }
  }

  /** Every other Primary of the cluster becomes a Secondary linked to the
      chosen primary; no other existing row changes, and a Secondary never
      changes at all (identityService.ts:83-94). */
  lemma MergeDemotesOtherPrimaries(st: StoreState, req: Request)
    requires WellFormed(st) && Given(req)
    requires Matches(st.contacts, req) != [] && PrimariesOf(st, req) != []
    ensures var o := Resolve(st, req);
      var prims := PrimariesOf(st, req);
      && o.reply.status == Ok
      && |o.after.contacts| >= |st.contacts|
      && (forall i :: 0 <= i < |st.contacts| ==>
            o.after.contacts[i] ==
              if st.contacts[i] in prims && st.contacts[i] != prims[0]
              then Demoted(st.contacts[i], prims[0].id)
              else st.contacts[i])
      && (forall i :: 0 <= i < |st.contacts| && st.contacts[i].precedence == Secondary ==>
            o.after.contacts[i] == st.contacts[i])
  {
    var prims := PrimariesOf(st, req);
    var o := Resolve(st, req);
    forall i | 0 <= i < |st.contacts|
      ensures o.after.contacts[i] ==
        if st.contacts[i] in prims && st.contacts[i] != prims[0]
        then Demoted(st.contacts[i], prims[0].id)
        else st.contacts[i]
    {
      DemotedAreOtherPrimaries(st, req, st.contacts[i]);
    }
  }

  /** A new Secondary linked to the chosen primary is created exactly when the
      request brings an email or phone number the cluster does not hold;
      otherwise nothing is created (identityService.ts:96-113). */
  lemma NewSecondaryOnlyForUnseen(st: StoreState, req: Request)
    requires Given(req)
    requires Matches(st.contacts, req) != [] && PrimariesOf(st, req) != []
    ensures var o := Resolve(st, req);
      && (|o.after.contacts| == |st.contacts| + 1 <==> NeedsSecondary(req, ClusterOf(st, req)))
      && (NeedsSecondary(req, ClusterOf(st, req)) ==>
            var n := o.after.contacts[|st.contacts|];
            && n.precedence == Secondary && n.linkedId == Some(PrimariesOf(st, req)[0].id)
            && n.id == st.nextId && n.createdAt == st.clock && !n.deleted
            && n.email == OrNull(req.email) && n.phone == OrNull(req.phone))
  {
  }

  /** With no live row matching, one Primary row without a link is created and
      the reply lists only its own identifiers (identityService.ts:39-56). */
  lemma NoMatchCreatesPrimary(st: StoreState, req: Request)
    requires Given(req) && Matches(st.contacts, req) == []
    ensures var o := Resolve(st, req);
      && |o.after.contacts| == |st.contacts| + 1
      && o.after.contacts[..|st.contacts|] == st.contacts
      && var c := o.after.contacts[|st.contacts|];
      && c.id == st.nextId && c.precedence == Primary && c.linkedId == None && !c.deleted
      && c.email == OrNull(req.email) && c.phone == OrNull(req.phone)
      && o.reply.status == Ok
      && o.reply.contact.primaryContactId == c.id
      && o.reply.contact.emails == (if Truthy(req.email) then [req.email.value] else [])
      && o.reply.contact.phoneNumbers == (if Truthy(req.phone) then [req.phone.value] else [])
      && o.reply.contact.secondaryContactIds == []
  {
    assert (st.contacts + [NewContact(st, req, Primary, None)])[..|st.contacts|] == st.contacts;
  }

  /** A reply list: every value of the members once, the primary's own value
      first when it has one, and the rest in the order first seen
      (identityService.ts:115-131). */
  lemma ArrangedIdentifiers(chosen: Contact, members: seq<Contact>, f: Field)
    requires chosen in members
    ensures var vs := Values(members, f);
      var xs := Arrange(Identifiers(members, f), Get(chosen, f));
      && Distinct(xs)
      && (forall v :: v in xs <==> v in Union(members, f))
      && (Truthy(Get(chosen, f)) ==> xs[0] == Get(chosen, f).value)
      && (forall i, j :: (if Truthy(Get(chosen, f)) then 1 else 0) <= i < j < |xs| ==> Rank(vs, xs[i]) < Rank(vs, xs[j]))
  {
    var vs := Values(members, f);
    var ids := Identifiers(members, f);
    FirstSeenOrder(vs);
    var own := Get(chosen, f);
    if Truthy(own) {
      var v := own.value;
      assert v in Union(members, f);
      FrontProperties(ids, v);
      FrontOrder(vs, ids, v);
    }
  }

  lemma FrontOrder(vs: seq<string>, ids: seq<string>, v: string)
    requires forall i, j :: 0 <= i < j < |ids| ==> Rank(vs, ids[i]) < Rank(vs, ids[j])
    ensures var xs := Front(ids, v);
      forall i, j :: 1 <= i < j < |xs| ==> Rank(vs, xs[i]) < Rank(vs, xs[j])
  {
    var R := (a: string, b: string) => Rank(vs, a) < Rank(vs, b);
    assert Pairwise(ids, R) by {
      forall i, j | 0 <= i < j < |ids| ensures R(ids[i], ids[j]) { }
    }
    FrontPairwise(ids, v, R);
    var xs := Front(ids, v);
    forall i, j | 1 <= i < j < |xs| ensures Rank(vs, xs[i]) < Rank(vs, xs[j]) {
      assert R(xs[i], xs[j]);
    }
  }

  /** The secondary ids of the reply ascend strictly and are exactly the ids of
      the members that are Secondary (identityService.ts:133-136). */
  lemma SortedSecondaryIds(members: seq<Contact>)
    requires forall i, j :: 0 <= i < j < |members| ==> members[i].id != members[j].id
    ensures var ids := SortAscending(SecondaryIds(members));
      && StrictlyAscending(ids)
      && forall k :: k in ids <==> exists c :: c in members && c.precedence == Secondary && c.id == k
  {
    SecondaryIdsDistinct(members);
    SortAscendingOrders(SecondaryIds(members));
  }

  /** The members the reply is built from: the fetched cluster, plus the new
      Secondary when one is created (identityService.ts:112). */
  function Members(st: StoreState, req: Request): seq<Contact>
    requires PrimariesOf(st, req) != []
  {
    var cl := ClusterOf(st, req);
    if NeedsSecondary(req, cl)
    then cl + [NewContact(st, req, Secondary, Some(PrimariesOf(st, req)[0].id))]
    else cl
  }

  lemma MembersShape(st: StoreState, req: Request)
    requires WellFormed(st) && PrimariesOf(st, req) != []
    ensures PrimariesOf(st, req)[0] in Members(st, req)
    ensures forall i, j :: 0 <= i < j < |Members(st, req)| ==> Members(st, req)[i].id < Members(st, req)[j].id
    ensures forall f, v :: v in Union(Members(st, req), f) <==>
      v in Union(ClusterOf(st, req), f) || (NeedsSecondary(req, ClusterOf(st, req)) && Truthy(Asked(req, f)) && v == Asked(req, f).value)
  {
    var cl := ClusterOf(st, req);
    var ms := Members(st, req);
    ClusterOrdered(st, req);
    forall i, j | 0 <= i < j < |ms| ensures ms[i].id < ms[j].id {
      if j < |cl| {
        assert ms[i] == cl[i] && ms[j] == cl[j];
        assert Before(cl[i], cl[j]);
      } else {
        assert ms[i] == cl[i] && cl[i] in st.contacts;
      }
    }
    forall f, v ensures v in Union(ms, f) <==>
      v in Union(cl, f) || (NeedsSecondary(req, cl) && Truthy(Asked(req, f)) && v == Asked(req, f).value)
    {
      if NeedsSecondary(req, cl) {
        var n := NewContact(st, req, Secondary, Some(PrimariesOf(st, req)[0].id));
        assert Get(n, f) == OrNull(Asked(req, f)) by { match f { case Email => case Phone => } }
        if v in Union(ms, f) {
          var c :| c in ms && Get(c, f) == Some(v) && v != "";
          assert c in cl || c == n;
        }
        if v in Union(cl, f) {
          var c :| c in cl && Get(c, f) == Some(v) && v != "";
          assert c in ms;
        }
        if Truthy(Asked(req, f)) && v == Asked(req, f).value {
          assert n in ms;
        }
      }
    }
  }

  /** A matched call replies with the projection of its members around the
      chosen primary (identityService.ts:103-145). */
  lemma MatchedReply(st: StoreState, req: Request)
    requires Given(req)
    requires Matches(st.contacts, req) != [] && PrimariesOf(st, req) != []
    ensures Resolve(st, req).reply == Reply(Ok, Project(PrimariesOf(st, req)[0], Members(st, req)))
  {
  }

  /** Each list of a matched reply holds every value of the cluster and of the
      new row once, the chosen primary's own value first (identityService.ts:115-131). */
  lemma MatchedReplyLists(st: StoreState, req: Request, f: Field)
    requires WellFormed(st) && Given(req)
    requires Matches(st.contacts, req) != [] && PrimariesOf(st, req) != []
    ensures var r := Resolve(st, req).reply.contact;
      var cl := ClusterOf(st, req);
      var x := PrimariesOf(st, req)[0];
      var xs := Listing(r, f);
      && r.primaryContactId == x.id
      && Distinct(xs)
      && (forall v :: v in xs <==>
            v in Union(cl, f) || (NeedsSecondary(req, cl) && Truthy(Asked(req, f)) && v == Asked(req, f).value))
      && (Truthy(Get(x, f)) ==> xs[0] == Get(x, f).value)
  {
    var x := PrimariesOf(st, req)[0];
    var ms := Members(st, req);
    MembersShape(st, req);
    ArrangedIdentifiers(x, ms, f);
    MatchedReply(st, req);
    assert Listing(Project(x, ms), f) == Arrange(Identifiers(ms, f), Get(x, f)) by { match f { case Email => case Phone => } }
  }

  /** The secondary ids of a matched reply ascend strictly and are the members
      that were Secondary in the snapshot fetched before the demotion, plus the
      new row; a Primary demoted in the same call is not among them
      (identityService.ts:84-93, 112, 133-136). */
  lemma MatchedReplySecondaryIds(st: StoreState, req: Request)
    requires WellFormed(st) && Given(req)
    requires Matches(st.contacts, req) != [] && PrimariesOf(st, req) != []
    ensures var ids := Resolve(st, req).reply.contact.secondaryContactIds;
      var cl := ClusterOf(st, req);
      && StrictlyAscending(ids)
      && (forall k :: k in ids <==>
            (exists c :: c in cl && c.precedence == Secondary && c.id == k) || (NeedsSecondary(req, cl) && k == st.nextId))
      && (forall p :: p in PrimariesOf(st, req) ==> p.id !in ids)
  {
    var x := PrimariesOf(st, req)[0];
    var cl := ClusterOf(st, req);
    var ms := Members(st, req);
    MembersShape(st, req);
    MatchedReply(st, req);
    SortedSecondaryIds(ms);
    var ids := Resolve(st, req).reply.contact.secondaryContactIds;
    forall k ensures k in ids <==>
      (exists c :: c in cl && c.precedence == Secondary && c.id == k) || (NeedsSecondary(req, cl) && k == st.nextId)
    {
      if NeedsSecondary(req, cl) {
        var n := NewContact(st, req, Secondary, Some(x.id));
        if k in ids {
          var c :| c in ms && c.precedence == Secondary && c.id == k;
          assert c in cl || c == n;
        }
        if k == st.nextId {
          assert n in ms;
        }
      }
    }
    forall p | p in PrimariesOf(st, req) ensures p.id !in ids {
      assert p in st.contacts;
      forall c | c in cl && c.precedence == Secondary ensures c.id != p.id {
        if c.id == p.id { UniqueIds(st, c, p); }
      }
    }
  }
}
