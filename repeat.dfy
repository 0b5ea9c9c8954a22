/** Sending the same request again right after a successful call: the table
    already holds both identifiers in one cluster with one Primary, so the
    second call creates and demotes nothing (identityService.ts:29-37, 58-76, 103). */
module Repeat {
  import opened Wrappers
  import opened Sequences
  import opened Contacts
  import opened Resolver
  import opened Invariants
  import opened Properties

  /** Every truthy identifier of the request sits on some live row. */
  ghost predicate Known(st: StoreState, req: Request)
  {
    forall f :: Truthy(Asked(req, f)) ==>
      exists c :: c in st.contacts && !c.deleted && Get(c, f) == Asked(req, f)
  }

  /** With links in their usual shape, every match lies in the cluster its own
      effective primary spans. */
  lemma MatchInCluster(st: StoreState, req: Request, c: Contact)
    requires Linked(st) && c in st.contacts && IsMatch(c, req)
    ensures c in ClusterOf(st, req)
  {
    assert c in Matches(st.contacts, req);
    assert LinkShape(c);
    assert EffectivePrimary(c).value in Anchors(Matches(st.contacts, req));
  }

  /** Rows in creation order that are all the same row are that one row. */
  lemma SoleRow(s: seq<Contact>, x: Contact)
    requires Pairwise(s, Before) && x in s
    requires forall p :: p in s ==> p == x
    ensures s == [x]
  {
    assert s[0] in s;
    assert |s| > 1 ==> s[1] in s && Before(s[0], s[1]);
  }

  /** A table where the request's identifiers are known and its cluster has
      exactly one Primary is left as it is, and the reply projects the cluster
      as fetched. */
  lemma SettledIsFixed(st: StoreState, req: Request)
    requires WellFormed(st) && Linked(st) && Given(req) && Known(st, req)
    requires |PrimariesOf(st, req)| == 1
    ensures Resolve(st, req) == Outcome(Reply(Ok, Project(PrimariesOf(st, req)[0], ClusterOf(st, req))), st)
  {
    var cl := ClusterOf(st, req);
    forall f | Truthy(Asked(req, f)) ensures Asked(req, f).value in Union(cl, f) {
      var c :| c in st.contacts && !c.deleted && Get(c, f) == Asked(req, f);
      assert IsMatch(c, req) by { match f { case Email => case Phone => } }
      MatchInCluster(st, req, c);
    }
    assert Asked(req, Email) == req.email && Asked(req, Phone) == req.phone;
    var f := if Truthy(req.email) then Email else Phone;
    var c :| c in st.contacts && !c.deleted && Get(c, f) == Asked(req, f);
    assert IsMatch(c, req) by { match f { case Email => case Phone => } }
    assert c in Matches(st.contacts, req);
  }

  /** After a call that created a Primary, that row is the cluster's only
      Primary and carries the request's identifiers. */
  lemma NoMatchSettles(st: StoreState, req: Request)
    requires WellFormed(st) && Linked(st) && Given(req) && Matches(st.contacts, req) == []
    ensures var st1 := Resolve(st, req).after;
      && Known(st1, req)
      && PrimariesOf(st1, req) == [NewContact(st, req, Primary, None)]
  {
    var n := NewContact(st, req, Primary, None);
    var st1 := Append(st, n);
    assert Resolve(st, req).after == st1;
    ResolveKeepsWellFormed(st, req);
    ResolveKeepsLinked(st, req);
    assert forall c :: c in st.contacts ==> !IsMatch(c, req);
    var ms := Matches(st1.contacts, req);
    assert IsMatch(n, req);
    assert n in ms;
    assert forall c :: c in ms ==> c == n;
    assert Anchors(ms) == {n.id};
    var prims := PrimariesOf(st1, req);
    assert n in prims;
    forall p | p in prims ensures p == n {
      assert LinkShape(p);
      UniqueIds(st1, p, n);
    }
    ClusterOrdered(st1, req);
    SoleRow(prims, n);
    forall f | Truthy(Asked(req, f))
      ensures exists c :: c in st1.contacts && !c.deleted && Get(c, f) == Asked(req, f)
    {
      assert Get(n, f) == Asked(req, f) by { match f { case Email => case Phone => } }
    }
  }

  /** The rows a matched call leaves: every old row, the cluster's other
      Primaries demoted to the chosen one, then the new Secondary if one is made
      (identityService.ts:83-113). */
  ghost predicate Step(st: StoreState, req: Request, t: seq<Contact>)
  {
    var prims := PrimariesOf(st, req);
    var created := NeedsSecondary(req, ClusterOf(st, req));
    && prims != []
    && |t| == |st.contacts| + (if created then 1 else 0)
    && (forall i :: 0 <= i < |st.contacts| ==>
          t[i] == if st.contacts[i] in prims && st.contacts[i] != prims[0]
                  then Demoted(st.contacts[i], prims[0].id) else st.contacts[i])
    && (created ==> t[|st.contacts|] == NewContact(st, req, Secondary, Some(prims[0].id)))
  }

  lemma ResolveSteps(st: StoreState, req: Request)
    requires WellFormed(st) && Given(req)
    requires Matches(st.contacts, req) != [] && PrimariesOf(st, req) != []
    ensures Step(st, req, Resolve(st, req).after.contacts)
  {
    MergeDemotesOtherPrimaries(st, req);
    NewSecondaryOnlyForUnseen(st, req);
  }

  /** Demotion keeps a row's id, identifiers, deletion and matching. */
  lemma DemotedAlike(c: Contact, to: nat, req: Request)
    ensures var d := Demoted(c, to);
      && d.id == c.id && d.deleted == c.deleted
      && (forall f :: Get(d, f) == Get(c, f))
      && (IsMatch(d, req) <==> IsMatch(c, req))
  {
    forall f ensures Get(Demoted(c, to), f) == Get(c, f) { match f { case Email => case Phone => } }
  }

  /** Rows rewritten as a matched call rewrites them: those in `prims` other
      than `x` demoted to `x`, then possibly one more row linked to `x`. */
  ghost predicate Rewrites(s: seq<Contact>, t: seq<Contact>, prims: seq<Contact>, x: Contact)
  {
    && |s| <= |t| <= |s| + 1
    && (forall i :: 0 <= i < |s| ==>
          t[i] == if s[i] in prims && s[i] != x then Demoted(s[i], x.id) else s[i])
    && (|t| > |s| ==> t[|s|].precedence == Secondary && t[|s|].linkedId == Some(x.id))
  }

  lemma StepRewrites(st: StoreState, req: Request, t: seq<Contact>)
    requires Step(st, req, t)
    ensures Rewrites(st.contacts, t, PrimariesOf(st, req), PrimariesOf(st, req)[0])
  {
  }

  /** After such a rewrite the request anchors at `x` or at an id it anchored
      at before. */
  lemma AnchorsAfterRewrite(s: seq<Contact>, t: seq<Contact>, prims: seq<Contact>, x: Contact, req: Request, k: nat)
    requires Rewrites(s, t, prims, x)
    requires k in Anchors(Matches(t, req))
    ensures k == x.id || k in Anchors(Matches(s, req))
  {
    var m :| m in Matches(t, req) && EffectivePrimary(m) == Some(k);
    var j :| 0 <= j < |t| && t[j] == m;
    if j < |s| {
      var cj := s[j];
      if cj in prims && cj != x {
        assert m == Demoted(cj, x.id);
      } else {
        assert m == cj && IsMatch(m, req);
        assert cj in Matches(s, req);
      }
    }
  }

  /** After such a rewrite `x` is still there, and a match that anchored at it
      still does. */
  lemma ChosenAfterRewrite(s: seq<Contact>, t: seq<Contact>, prims: seq<Contact>, x: Contact, req: Request)
    requires Rewrites(s, t, prims, x)
    requires x in s && x.id >= 1
    requires x.id in Anchors(Matches(s, req))
    ensures x in t && x.id in Anchors(Matches(t, req))
  {
    var ix :| 0 <= ix < |s| && s[ix] == x;
    assert t[ix] == x;
    var m :| m in Matches(s, req) && EffectivePrimary(m) == Some(x.id);
    var im :| 0 <= im < |s| && s[im] == m;
    DemotedAlike(m, x.id, req);
    assert IsMatch(t[im], req) && EffectivePrimary(t[im]) == Some(x.id);
    assert t[im] in Matches(t, req);
  }

  /** After a matched call the chosen primary is still a Primary of the
      request's cluster: a match that anchored it still does. */
  lemma ChosenStaysInCluster(st: StoreState, req: Request, st1: StoreState)
    requires WellFormed(st) && Linked(st)
    requires Step(st, req, st1.contacts)
    ensures PrimariesOf(st, req)[0] in PrimariesOf(st1, req)
  {
    var prims := PrimariesOf(st, req);
    var x := prims[0];
    assert x in ClusterOf(st, req) && x in st.contacts && LinkShape(x);
    assert x.id in Anchors(Matches(st.contacts, req));
    StepRewrites(st, req, st1.contacts);
    ChosenAfterRewrite(st.contacts, st1.contacts, prims, x, req);
    assert x in ClusterOf(st1, req);
  }

  /** A Primary after such a rewrite is a row that was there before and
      was not demoted. */
  lemma KeptPrimary(s: seq<Contact>, t: seq<Contact>, prims: seq<Contact>, x: Contact, p: Contact)
    requires Rewrites(s, t, prims, x)
    requires p in t && p.precedence == Primary
    ensures p in s && !(p in prims && p != x)
  {
    var i :| 0 <= i < |t| && t[i] == p;
    assert i < |s|;
    assert p == s[i];
  }

  /** After such a rewrite, when `prims` holds every Primary of the request's
      cluster, the only Primary of the new cluster is `x`. */
  lemma PrimaryAfterRewrite(st: StoreState, t: seq<Contact>, prims: seq<Contact>, x: Contact, req: Request, p: Contact)
    requires WellFormed(st) && Linked(st) && x in st.contacts
    requires Rewrites(st.contacts, t, prims, x)
    requires forall c :: (c in st.contacts && c.precedence == Primary &&
      InCluster(c, Anchors(Matches(st.contacts, req)))) ==> c in prims
    requires p in t && p.precedence == Primary && InCluster(p, Anchors(Matches(t, req)))
    ensures p == x
  {
    KeptPrimary(st.contacts, t, prims, x, p);
    assert LinkShape(p);
    AnchorsAfterRewrite(st.contacts, t, prims, x, req, p.id);
    if p.id == x.id {
      UniqueIds(st, p, x);
    }
  }

  /** After a matched call every Primary of the request's cluster is the
      chosen one: the others were demoted, and no other Primary is reachable. */
  lemma OnlyChosenPrimary(st: StoreState, req: Request, st1: StoreState, p: Contact)
    requires WellFormed(st) && Linked(st)
    requires Step(st, req, st1.contacts)
    requires p in PrimariesOf(st1, req)
    ensures p == PrimariesOf(st, req)[0]
  {
    var prims := PrimariesOf(st, req);
    assert prims[0] in st.contacts;
    StepRewrites(st, req, st1.contacts);
    PrimaryAfterRewrite(st, st1.contacts, prims, prims[0], req, p);
  }

  /** After a matched call the request's identifiers are on live rows: on the
      new Secondary, or already on a cluster row. */
  lemma MatchedKnown(st: StoreState, req: Request, st1: StoreState)
    requires Step(st, req, st1.contacts)
    ensures Known(st1, req)
  {
    var cl := ClusterOf(st, req);
    var t := st1.contacts;
    var x := PrimariesOf(st, req)[0];
    forall f | Truthy(Asked(req, f))
      ensures exists c :: c in t && !c.deleted && Get(c, f) == Asked(req, f)
    {
      if NeedsSecondary(req, cl) {
        var n := t[|st.contacts|];
        assert Get(n, f) == Asked(req, f) by { match f { case Email => case Phone => } }
        assert n in t;
      } else {
        assert Asked(req, f).value in Union(cl, f) by {
          assert Asked(req, Email) == req.email && Asked(req, Phone) == req.phone;
        }
        var c :| c in cl && Get(c, f) == Some(Asked(req, f).value);
        var i :| 0 <= i < |st.contacts| && st.contacts[i] == c;
        DemotedAlike(c, x.id, req);
        assert t[i] in t;
      }
    }
  }

  /** After a matched call, the chosen primary is the cluster's only Primary and
      the request's identifiers are held by live rows. */
  lemma MatchedSettles(st: StoreState, req: Request)
    requires WellFormed(st) && Linked(st) && Given(req)
    requires Matches(st.contacts, req) != [] && PrimariesOf(st, req) != []
    ensures var st1 := Resolve(st, req).after;
      && Known(st1, req)
      && PrimariesOf(st1, req) == [PrimariesOf(st, req)[0]]
  {
    var st1 := Resolve(st, req).after;
    var x := PrimariesOf(st, req)[0];
    ResolveKeepsWellFormed(st, req);
    ResolveSteps(st, req);
    MatchedKnown(st, req, st1);
    ChosenStaysInCluster(st, req, st1);
    forall p | p in PrimariesOf(st1, req) ensures p == x {
      OnlyChosenPrimary(st, req, st1, p);
    }
    ClusterOrdered(st1, req);
    SoleRow(PrimariesOf(st1, req), x);
  }

  /** Repeating a request right after it succeeded creates no row and demotes
      none: the table is left exactly as the first call left it, and the reply
      names the same primary (identityService.ts:29-37, 58-76, 103). */
  lemma RepeatChangesNothing(st: StoreState, req: Request)
    requires WellFormed(st) && Linked(st)
    requires Resolve(st, req).reply.status == Ok
    ensures var o1 := Resolve(st, req);
      var o2 := Resolve(o1.after, req);
      && o2.after == o1.after
      && o2.reply.status == Ok
      && o2.reply.contact.primaryContactId == o1.reply.contact.primaryContactId
  {
    var st1 := Resolve(st, req).after;
    ResolveKeepsWellFormed(st, req);
    ResolveKeepsLinked(st, req);
    if Matches(st.contacts, req) == [] {
      NoMatchSettles(st, req);
    } else {
      MatchedSettles(st, req);
    }
    SettledIsFixed(st1, req);
  }

  /** A rewrite that demotes nothing leaves the request's cluster as it was,
      plus the added row. */
  lemma QuietRewrite(s: seq<Contact>, t: seq<Contact>, x: Contact, req: Request)
    requires Rewrites(s, t, [x], x)
    requires x.id in Anchors(Matches(s, req))
    requires |t| > |s| ==> !t[|s|].deleted
    ensures Cluster(t, Anchors(Matches(t, req))) == Cluster(s, Anchors(Matches(s, req))) + t[|s|..]
  {
    var a1 := Anchors(Matches(s, req));
    forall k ensures k in Anchors(Matches(t, req)) <==> k in a1 {
      if k in Anchors(Matches(t, req)) {
        AnchorsAfterRewrite(s, t, [x], x, req, k);
      }
      if k in a1 {
        var m :| m in Matches(s, req) && EffectivePrimary(m) == Some(k);
        var i :| 0 <= i < |s| && s[i] == m;
        assert t[i] == m;
        assert m in Matches(t, req);
      }
    }
    assert Anchors(Matches(t, req)) == a1;
    if |t| > |s| {
      var n := t[|s|];
      assert t == s + [n];
      ClusterAppend(s, n, a1);
    } else {
      assert t == s;
    }
  }

  /** A matched call replies with the projection of its snapshot plus the
      row it created, if any. */
  lemma MatchedReplyIs(st: StoreState, req: Request)
    requires WellFormed(st) && Given(req)
    requires Matches(st.contacts, req) != [] && PrimariesOf(st, req) != []
    ensures Resolve(st, req).reply ==
      Reply(Ok, Project(PrimariesOf(st, req)[0], ClusterOf(st, req) + Resolve(st, req).after.contacts[|st.contacts|..]))
  {
    MatchedReply(st, req);
    ResolveSteps(st, req);
    StepMembers(st, req, Resolve(st, req).after.contacts);
  }

  /** The members of a step are the cluster plus the rows the step added. */
  lemma StepMembers(st: StoreState, req: Request, t: seq<Contact>)
    requires Step(st, req, t)
    ensures Members(st, req) == ClusterOf(st, req) + t[|st.contacts|..]
  {
    var n := |st.contacts|;
    if NeedsSecondary(req, ClusterOf(st, req)) {
      assert t[n..] == [t[n]];
    } else {
      assert t[n..] == [];
      assert ClusterOf(st, req) + [] == ClusterOf(st, req);
    }
  }

  /** After a call that merged nothing, the repeat fetches the first call's
      snapshot plus the row that call created, if any. */
  lemma RepeatCluster(st: StoreState, req: Request)
    requires WellFormed(st) && Linked(st) && Given(req)
    requires Matches(st.contacts, req) != [] && |PrimariesOf(st, req)| == 1
    ensures var st1 := Resolve(st, req).after;
      ClusterOf(st1, req) == ClusterOf(st, req) + st1.contacts[|st.contacts|..]
  {
    ResolveSteps(st, req);
    StepCluster(st, req, Resolve(st, req).after.contacts);
  }

  /** A matched step that demotes nothing fetches, on a repeat, the cluster it
      fetched plus the row it created, if any. */
  lemma StepCluster(st: StoreState, req: Request, t: seq<Contact>)
    requires WellFormed(st) && Linked(st)
    requires Step(st, req, t) && |PrimariesOf(st, req)| == 1
    ensures Cluster(t, Anchors(Matches(t, req))) == ClusterOf(st, req) + t[|st.contacts|..]
  {
    var prims := PrimariesOf(st, req);
    var x := prims[0];
    assert prims == [x];
    StepRewrites(st, req, t);
    assert x in ClusterOf(st, req) && x in st.contacts && LinkShape(x);
    assert x.id in Anchors(Matches(st.contacts, req));
    QuietRewrite(st.contacts, t, x, req);
  }

  /** The repeat of a matched call changes nothing and projects the cluster it
      fetches around the same chosen primary. */
  lemma RepeatReply(st: StoreState, req: Request)
    requires WellFormed(st) && Linked(st) && Given(req)
    requires Matches(st.contacts, req) != [] && PrimariesOf(st, req) != []
    ensures var st1 := Resolve(st, req).after;
      Resolve(st1, req).reply == Reply(Ok, Project(PrimariesOf(st, req)[0], ClusterOf(st1, req)))
  {
    var st1 := Resolve(st, req).after;
    ResolveKeepsWellFormed(st, req);
    ResolveKeepsLinked(st, req);
    MatchedSettles(st, req);
    SettledIsFixed(st1, req);
  }

  /** When a matched call merged no clusters, the repeat sends back the very
      same reply: the cluster it fetches is the first call's snapshot plus the
      row that call created, if any (identityService.ts:67-76, 103, 112). */
  lemma MatchedRepliesAlike(st: StoreState, req: Request)
    requires WellFormed(st) && Linked(st) && Given(req)
    requires Matches(st.contacts, req) != [] && |PrimariesOf(st, req)| == 1
    ensures Resolve(Resolve(st, req).after, req).reply == Resolve(st, req).reply
  {
    MatchedReplyIs(st, req);
    RepeatCluster(st, req);
    RepeatReply(st, req);
  }

  /** After a call that created a Primary, the request's cluster is that row
      alone: no older row carries its id or links to it. */
  lemma NoMatchCluster(st: StoreState, req: Request)
    requires WellFormed(st) && Linked(st) && Given(req) && Matches(st.contacts, req) == []
    ensures ClusterOf(Resolve(st, req).after, req) == [NewContact(st, req, Primary, None)]
  {
    var n := NewContact(st, req, Primary, None);
    var st1 := Append(st, n);
    assert Resolve(st, req).after == st1;
    ResolveKeepsWellFormed(st, req);
    assert forall c :: c in st.contacts ==> !IsMatch(c, req);
    var ms := Matches(st1.contacts, req);
    assert IsMatch(n, req);
    assert n in ms;
    assert forall c :: c in ms ==> c == n;
    assert Anchors(ms) == {n.id};
    forall c | c in st.contacts ensures !InCluster(c, {n.id}) {
      assert c.id < n.id;
    }
    var cl := ClusterOf(st1, req);
    assert n in cl;
    ClusterOrdered(st1, req);
    SoleRow(cl, n);
  }

  /** A lone Primary projects to its own identifiers and no secondary ids, the
      reply of a call that created it (identityService.ts:48-55). */
  lemma SoleProjection(n: Contact)
    requires n.precedence == Primary
    ensures Project(n, [n]) == Response(n.id, Listed(n.email), Listed(n.phone), [])
  {
    assert [] + [n] == [n];
    forall f ensures Arrange(Identifiers([n], f), Get(n, f)) == Listed(Get(n, f)) {
      IdentifiersSnoc([], n, f);
      if Truthy(Get(n, f)) {
        FrontFirst(Get(n, f).value, []);
        assert [Get(n, f).value] + [] == [Get(n, f).value];
      }
    }
    assert Get(n, Email) == n.email && Get(n, Phone) == n.phone;
    assert Arrange(Identifiers([n], Email), n.email) == Listed(n.email);
    assert Arrange(Identifiers([n], Phone), n.phone) == Listed(n.phone);
    SecondaryIdsCons(n, []);
    assert SecondaryIds([n]) == [];
    assert SortAscending([]) == [];
  }

  /** Repeating a request that created a Primary sends back the same reply. */
  lemma NoMatchRepliesAlike(st: StoreState, req: Request)
    requires WellFormed(st) && Linked(st) && Given(req) && Matches(st.contacts, req) == []
    ensures Resolve(Resolve(st, req).after, req).reply == Resolve(st, req).reply
  {
    var n := NewContact(st, req, Primary, None);
    var st1 := Resolve(st, req).after;
    ResolveKeepsWellFormed(st, req);
    ResolveKeepsLinked(st, req);
    NoMatchSettles(st, req);
    NoMatchCluster(st, req);
    SettledIsFixed(st1, req);
    SoleProjection(n);
  }

  /** When the first call merged no clusters (its cluster held at most one
      Primary), the repeat sends back the very same reply
      (identityService.ts:18-158). */
  lemma RepeatRepliesAlike(st: StoreState, req: Request)
    requires WellFormed(st) && Linked(st) && |PrimariesOf(st, req)| <= 1
    ensures Resolve(Resolve(st, req).after, req).reply == Resolve(st, req).reply
  {
    if !Given(req) || (Matches(st.contacts, req) != [] && PrimariesOf(st, req) == []) {
      assert Resolve(st, req).after == st;
    } else if Matches(st.contacts, req) == [] {
      NoMatchRepliesAlike(st, req);
    } else {
      MatchedRepliesAlike(st, req);
    }
  }
}
