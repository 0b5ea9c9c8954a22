/** The table shape `identifyUser` keeps: creation order and the counters
    (WellFormed), and the link shape of its rows (Linked). */
module Invariants {
  import opened Wrappers
  import opened Sequences
  import opened Contacts
  import opened Resolver

  /** A row created with the next id and the current clock keeps the table in
      creation order (identityService.ts:40-46, 104-111). */
  lemma AppendWellFormed(st: StoreState, c: Contact)
    requires WellFormed(st)
    requires c.id == st.nextId && c.createdAt == st.clock
    ensures WellFormed(Append(st, c))
  {
    var s := st.contacts + [c];
    forall i, j | 0 <= i < j < |s| ensures Before(s[i], s[j]) {
      if j < |st.contacts| {
        assert s[i] == st.contacts[i] && s[j] == st.contacts[j];
      } else {
        assert st.contacts[i] in st.contacts;
      }
    }
  }

  /** Demotion changes neither ids nor creation times. */
  lemma DemoteWellFormed(st: StoreState, ids: set<nat>, to: nat)
    requires WellFormed(st)
    ensures WellFormed(st.(contacts := Demote(st.contacts, ids, to)))
  {
    var s := st.contacts;
    var r := Demote(s, ids, to);
    forall i, j | 0 <= i < j < |r| ensures Before(r[i], r[j]) {
      assert Before(s[i], s[j]);
    }
    forall c | c in r ensures 1 <= c.id < st.nextId && c.createdAt < st.clock {
      var i :| 0 <= i < |r| && r[i] == c;
      assert s[i] in s;
    }
  }

  /** Demotion to a truthy id already handed out keeps every row's link shape. */
  lemma DemoteLinked(st: StoreState, ids: set<nat>, to: nat)
    requires Linked(st) && 1 <= to < st.nextId
    ensures Linked(st.(contacts := Demote(st.contacts, ids, to)))
  {
    var s := st.contacts;
    var r := Demote(s, ids, to);
    forall c | c in r ensures LinkShape(c) {
      var i :| 0 <= i < |r| && r[i] == c;
      assert s[i] in s;
    }
  }

  /** `identifyUser` keeps the table in creation order with its counters ahead. */
  lemma ResolveKeepsWellFormed(st: StoreState, req: Request)
    requires WellFormed(st)
    ensures WellFormed(Resolve(st, req).after)
  {
    if Given(req) {
      if Matches(st.contacts, req) == [] {
        AppendWellFormed(st, NewContact(st, req, Primary, None));
      } else {
        var prims := PrimariesOf(st, req);
        if prims != [] {
          var chosen := prims[0];
          var st1 := if |prims| > 1 then st.(contacts := Demote(st.contacts, IdsOf(prims[1..]), chosen.id)) else st;
          DemoteWellFormed(st, IdsOf(prims[1..]), chosen.id);
          if NeedsSecondary(req, ClusterOf(st, req)) {
            AppendWellFormed(st1, NewContact(st1, req, Secondary, Some(chosen.id)));
          }
        }
      }
    }
  }

  /** A row with the link shape whose link names an id already handed out
      keeps the table's links in shape (identityService.ts:40-46, 104-111). */
  lemma AppendLinked(st: StoreState, c: Contact)
    requires Linked(st) && LinkShape(c)
    requires c.linkedId.Some? ==> c.linkedId.value < st.nextId
    ensures Linked(Append(st, c))
  {
  }

  /** Every row `identifyUser` creates or demotes has the link shape: a new
      Primary has no link, a new or demoted Secondary links to the chosen id,
      which is never 0 and was handed out before the call. */
  lemma {:induction false} ResolveKeepsLinked(st: StoreState, req: Request)
    requires WellFormed(st) && Linked(st)
    ensures Linked(Resolve(st, req).after)
  {
    if Given(req) {
      if Matches(st.contacts, req) == [] {
        AppendLinked(st, NewContact(st, req, Primary, None));
      } else {
        var prims := PrimariesOf(st, req);
        if prims != [] {
          var chosen := prims[0];
          assert chosen in st.contacts;
          var st1 := if |prims| > 1 then st.(contacts := Demote(st.contacts, IdsOf(prims[1..]), chosen.id)) else st;
          DemoteLinked(st, IdsOf(prims[1..]), chosen.id);
          if NeedsSecondary(req, ClusterOf(st, req)) {
            AppendLinked(st1, NewContact(st1, req, Secondary, Some(chosen.id)));
          }
        }
      }
    }
  }
}
