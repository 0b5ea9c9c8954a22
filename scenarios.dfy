/** Concrete calls of `identifyUser` on small tables, worked out through
    `Resolve`. */
module Scenarios {
  import opened Wrappers
  import opened Sequences
  import opened Contacts
  import opened Resolver

  const A := "a@x.com"
  const B := "b@x.com"
  const C := "c@x.com"

  /** A request without identifiers is refused and the table is untouched
      (identityService.ts:18-27). */
  lemma NoIdentifierScenario(st: StoreState, email: Option<string>, phone: Option<string>)
    requires !Truthy(email) && !Truthy(phone)
    ensures Resolve(st, Request(email, phone)) == Outcome(Reply(InvalidInput, Zeroed), st)
  {
  }

  /** An empty table and `{email: "a@x.com"}` gives a new Primary with id 1
      (identityService.ts:39-56). */
  lemma FirstContactScenario()
    ensures Resolve(StoreState([], 1, 0), Request(Some(A), None)) ==
      Outcome(
        Reply(Ok, Response(1, [A], [], [])),
        StoreState([Contact(1, Some(A), None, Primary, None, 0, false)], 2, 1))
  {
  }

  // The rows of the scenarios below.
  const P := Contact(1, Some(A), Some("111"), Primary, None, 0, false)
  const N := Contact(2, Some(B), Some("111"), Secondary, Some(1), 1, false)
  const P1 := Contact(1, Some(A), None, Primary, None, 0, false)
  const P2 := Contact(2, None, Some("222"), Primary, None, 1, false)
  const S3 := Contact(3, Some(C), Some("222"), Secondary, Some(2), 2, false)

  lemma NewSecondaryEmails()
    ensures Identifiers([P, N], Email) == [A, B]
  {
    assert [] + [P] == [P] && [P] + [N] == [P, N];
    IdentifiersSnoc([], P, Email);
    assert Identifiers([P], Email) == [A];
    assert B !in [A] by { assert A[0] != B[0]; }
    IdentifiersSnoc([P], N, Email);
  }

  lemma NewSecondaryPhones()
    ensures Identifiers([P, N], Phone) == ["111"]
  {
    assert [] + [P] == [P] && [P] + [N] == [P, N];
    IdentifiersSnoc([], P, Phone);
    assert Identifiers([P], Phone) == ["111"];
    IdentifiersSnoc([P], N, Phone);
  }

  lemma NewSecondaryIds()
    ensures SortAscending(SecondaryIds([P, N])) == [2]
  {
    SecondaryIdsCons(P, [N]);
    SecondaryIdsCons(N, []);
    assert SecondaryIds([P, N]) == [2];
    assert [2][1..] == [];
  }

  /** The reply lists of the table [P, N]. */
  lemma NewSecondaryProjection()
    ensures Project(P, [P, N]) == Response(1, [A, B], ["111"], [2])
  {
    NewSecondaryEmails();
    NewSecondaryPhones();
    NewSecondaryIds();
    assert Arrange([A, B], Some(A)) == [A, B] by {
      assert A !in [B] by { assert A[0] != B[0]; }
      FrontFirst(A, [B]);
    }
    assert Arrange(["111"], Some("111")) == ["111"] by {
      FrontFirst("111", []);
      assert ["111"] + [] == ["111"];
    }
  }

  /** The rows fetched for `{email: "b@x.com", phoneNumber: "111"}` from [P]. */
  lemma NewSecondarySnapshot()
    ensures var req := Request(Some(B), Some("111"));
      && Matches([P], req) == [P]
      && ClusterOf(StoreState([P], 2, 1), req) == [P]
      && Primaries([P]) == [P]
      && NeedsSecondary(req, [P])
  {
    var req := Request(Some(B), Some("111"));
    assert [P] + [] == [P];
    MatchesCons(P, [], req);
    assert Anchors([P]) == {1};
    ClusterCons(P, [], {1});
    PrimariesCons(P, []);
    assert B !in Union([P], Email) by { assert A[0] != B[0]; }
  }

  /** Primary 1 holds `a@x.com` and `111`; `{email: "b@x.com", phoneNumber: "111"}`
      adds Secondary 2 linked to 1, and the reply lists both emails with the
      primary's first (identityService.ts:96-145). */
  lemma NewSecondaryScenario()
    ensures Resolve(StoreState([P], 2, 1), Request(Some(B), Some("111"))) ==
      Outcome(Reply(Ok, Response(1, [A, B], ["111"], [2])), StoreState([P, N], 3, 2))
  {
    var req := Request(Some(B), Some("111"));
    NewSecondarySnapshot();
    NewSecondaryProjection();
    assert [P] + [N] == [P, N];
    assert NewContact(StoreState([P], 2, 1), req, Secondary, Some(1)) == N;
  }

  /** The rows fetched for `{email: "a@x.com", phoneNumber: "222"}` from the
      table [P1, P2]: both, both Primary. */
  lemma MergeSnapshot()
    ensures var req := Request(Some(A), Some("222"));
      && ClusterOf(StoreState([P1, P2], 3, 2), req) == [P1, P2]
      && Primaries([P1, P2]) == [P1, P2]
  {
    var req := Request(Some(A), Some("222"));
    assert [P1] + [P2] == [P1, P2] && [P2] + [] == [P2];
    MatchesCons(P1, [P2], req);
    MatchesCons(P2, [], req);
    assert Anchors([P1, P2]) == {1, 2};
    ClusterCons(P1, [P2], {1, 2});
    ClusterCons(P2, [], {1, 2});
    PrimariesCons(P1, [P2]);
    PrimariesCons(P2, []);
  }

  lemma MergeEmails()
    ensures Identifiers([P1, P2], Email) == [A]
  {
    assert [] + [P1] == [P1] && [P1] + [P2] == [P1, P2];
    IdentifiersSnoc([], P1, Email);
    IdentifiersSnoc([P1], P2, Email);
  }

  lemma MergePhones()
    ensures Identifiers([P1, P2], Phone) == ["222"]
  {
    assert [] + [P1] == [P1] && [P1] + [P2] == [P1, P2];
    IdentifiersSnoc([], P1, Phone);
    IdentifiersSnoc([P1], P2, Phone);
  }

  /** The reply lists of the snapshot [P1, P2]. */
  lemma MergeProjection()
    ensures Project(P1, [P1, P2]) == Response(1, [A], ["222"], [])
  {
    MergeEmails();
    MergePhones();
    MergeArranged();
    MergeIds();
  }

  lemma MergeArranged()
    ensures Arrange([A], Some(A)) == [A]
  {
    FrontFirst(A, []);
    assert [A] + [] == [A];
  }

  lemma MergeIds()
    ensures SortAscending(SecondaryIds([P1, P2])) == []
  {
    SecondaryIdsCons(P1, [P2]);
    SecondaryIdsCons(P2, []);
    assert SecondaryIds([P1, P2]) == [];
  }

  /** Primary 1 holds `a@x.com`, Primary 2 (created later) holds `222`;
      `{email: "a@x.com", phoneNumber: "222"}` demotes 2 to a Secondary of 1.
      The reply is built from the rows fetched before the demotion, in which
      row 2 is still Primary, so it lists no secondary ids
      (identityService.ts:83-94, 133-136). */
  lemma MergeScenario()
    ensures Resolve(StoreState([P1, P2], 3, 2), Request(Some(A), Some("222"))) ==
      Outcome(Reply(Ok, Response(1, [A], ["222"], [])), StoreState([P1, Demoted(P2, 1)], 3, 2))
  {
    MergeSnapshot();
    MergeProjection();
    MergeDemotes();
    MergeAddsNothing();
  }

  /** The merge demotes row 2 of [P1, P2] and nothing else. */
  lemma MergeDemotes()
    ensures Demote([P1, P2], IdsOf([P1, P2][1..]), 1) == [P1, Demoted(P2, 1)]
  {
    assert [P1, P2][1..] == [P2];
    assert IdsOf([P2]) == {2};
  }

  /** Both identifiers of the merging request are already in [P1, P2]. */
  lemma MergeAddsNothing()
    ensures !NeedsSecondary(Request(Some(A), Some("222")), [P1, P2])
  {
    assert P1 in [P1, P2] && P2 in [P1, P2];
    assert A in Union([P1, P2], Email) && "222" in Union([P1, P2], Phone);
  }

  lemma StrandMatches()
    ensures Matches([P1, P2, S3], Request(Some(A), Some("222"))) == [P1, P2, S3]
  {
    var req := Request(Some(A), Some("222"));
    assert [P1] + [P2, S3] == [P1, P2, S3] && [P2] + [S3] == [P2, S3] && [S3] + [] == [S3];
    MatchesCons(P1, [P2, S3], req);
    MatchesCons(P2, [S3], req);
    MatchesCons(S3, [], req);
  }

  lemma StrandCluster()
    ensures Cluster([P1, P2, S3], {1, 2}) == [P1, P2, S3]
  {
    assert [P1] + [P2, S3] == [P1, P2, S3] && [P2] + [S3] == [P2, S3] && [S3] + [] == [S3];
    ClusterCons(P1, [P2, S3], {1, 2});
    ClusterCons(P2, [S3], {1, 2});
    ClusterCons(S3, [], {1, 2});
  }

  lemma StrandPrimaries()
    ensures Primaries([P1, P2, S3]) == [P1, P2]
  {
    assert [P1] + [P2, S3] == [P1, P2, S3] && [P2] + [S3] == [P2, S3] && [S3] + [] == [S3];
    PrimariesCons(P1, [P2, S3]);
    PrimariesCons(P2, [S3]);
    PrimariesCons(S3, []);
  }

  lemma StrandAnchors()
    ensures Anchors([P1, P2, S3]) == {1, 2}
  {
    assert EffectivePrimary(P1) == Some(1) && EffectivePrimary(P2) == Some(2) && EffectivePrimary(S3) == Some(2);
    assert forall c :: c in [P1, P2, S3] <==> c == P1 || c == P2 || c == S3;
    assert P1 in [P1, P2, S3] && P2 in [P1, P2, S3];
  }

  /** The rows fetched for `{email: "a@x.com", phoneNumber: "222"}` from the
      table [P1, P2, S3]: all three, of which 1 and 2 are Primary. */
  lemma StrandSnapshot()
    ensures var req := Request(Some(A), Some("222"));
      && ClusterOf(StoreState([P1, P2, S3], 4, 3), req) == [P1, P2, S3]
      && Primaries([P1, P2, S3]) == [P1, P2]
  {
    StrandMatches();
    StrandAnchors();
    StrandCluster();
    StrandPrimaries();
  }

  /** The first call of the shallow-link strand demotes row 2 only; row 3
      keeps its link to 2. */
  lemma StrandMerge()
    ensures Resolve(StoreState([P1, P2, S3], 4, 3), Request(Some(A), Some("222"))).after ==
      StoreState([P1, Demoted(P2, 1), S3], 4, 3)
  {
    StrandSnapshot();
    StrandDemotes();
    StrandAddsNothing();
  }

  /** The strand's merge demotes row 2 of [P1, P2, S3] and nothing else. */
  lemma StrandDemotes()
    ensures Demote([P1, P2, S3], IdsOf([P1, P2][1..]), 1) == [P1, Demoted(P2, 1), S3]
  {
    assert [P1, P2][1..] == [P2];
    assert IdsOf([P2]) == {2};
  }

  /** Both identifiers of the merging request are already in [P1, P2, S3]. */
  lemma StrandAddsNothing()
    ensures !NeedsSecondary(Request(Some(A), Some("222")), [P1, P2, S3])
  {
    assert P1 in [P1, P2, S3] && P2 in [P1, P2, S3];
    assert A in Union([P1, P2, S3], Email) && "222" in Union([P1, P2, S3], Phone);
  }

  /** After the merge, `{email: "c@x.com"}` matches row 3 alone. */
  lemma OrphanMatches()
    ensures Matches([P1, Demoted(P2, 1), S3], Request(Some(C), None)) == [S3]
  {
    var d2 := Demoted(P2, 1);
    var req := Request(Some(C), None);
    assert !IsMatch(P1, req) by { assert A[0] != C[0]; }
    assert [P1] + [d2, S3] == [P1, d2, S3] && [d2] + [S3] == [d2, S3] && [S3] + [] == [S3];
    MatchesCons(P1, [d2, S3], req);
    MatchesCons(d2, [S3], req);
    MatchesCons(S3, [], req);
  }

  /** The rows fetched for `{email: "c@x.com"}` after the merge: row 2 and
      row 3, neither of them Primary. */
  lemma OrphanSnapshot()
    ensures var t := StoreState([P1, Demoted(P2, 1), S3], 4, 3);
      var req := Request(Some(C), None);
      && Matches(t.contacts, req) == [S3]
      && ClusterOf(t, req) == [Demoted(P2, 1), S3]
      && Primaries([Demoted(P2, 1), S3]) == []
  {
    var d2 := Demoted(P2, 1);
    OrphanMatches();
    assert EffectivePrimary(S3) == Some(2);
    assert forall c :: c in [S3] <==> c == S3;
    assert Anchors([S3]) == {2};
    assert [P1] + [d2, S3] == [P1, d2, S3] && [d2] + [S3] == [d2, S3] && [S3] + [] == [S3];
    ClusterCons(P1, [d2, S3], {2});
    ClusterCons(d2, [S3], {2});
    ClusterCons(S3, [], {2});
    PrimariesCons(d2, [S3]);
    PrimariesCons(S3, []);
  }

  /** The second call of the strand: `{email: "c@x.com"}` matches only row 3,
      whose link still names the demoted row 2. */
  lemma StrandOrphan()
    ensures var t := StoreState([P1, Demoted(P2, 1), S3], 4, 3);
      Resolve(t, Request(Some(C), None)) == Outcome(Reply(ServerError, Zeroed), t)
  {
    OrphanSnapshot();
  }

  /** After a merge, a Secondary that still links to the demoted row anchors
      its request there; the cluster of that row has no Primary, and the call
      ends in the server error with the table untouched
      (identityService.ts:62-63, 81, 84-93, 147-156). */
  lemma ShallowLinkScenario()
    ensures var after := StoreState([P1, Demoted(P2, 1), S3], 4, 3);
      && Resolve(StoreState([P1, P2, S3], 4, 3), Request(Some(A), Some("222"))).after == after
      && Resolve(after, Request(Some(C), None)) == Outcome(Reply(ServerError, Zeroed), after)
  {
    StrandMerge();
    StrandOrphan();
  }
}
