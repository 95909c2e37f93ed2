/**
 * `WhopSync.syncCompanyMembers`: one page of the company's memberships is merged into
 * the users and members tables.  The plan listing gives each priced plan its renewal
 * price; each membership's end-user is upserted by platform user id; each membership is
 * upserted by membership id, and on conflict only status, renewal price and currency
 * change.
 *
 * The remote calls are inputs: the plan listing and the membership listing as the
 * platform would answer them (all records; the sync reads the first page of each).
 */
module MemberSync {
  import opened Wrappers
  import opened Schema
  import opened Store

  /** `plans.list({first: 100})` and `memberships.list({first: 100})`: one page each, no cursor. */
  const PlansPageSize: nat := 100
  const MembershipsPageSize: nat := 100
  /** `whop_company_id` of an end-user row when NEXT_PUBLIC_WHOP_APP_ID is unset. */
  const UnknownAppId: string := "unknown"

  /** A plan record: its renewal price in cents (0 when absent) and currency ("" when absent). */
  datatype Plan = Plan(id: string, renewalPrice: Cents, currency: string)
  datatype PlanListing = PlansFailed | Plans(plans: seq<Plan>)

  datatype EndUser = EndUser(id: string, username: string)

  /**
   * A membership record.  `memberId`, `productId` and `planId` are "" when the nested
   * object or its id is absent; `createdAt` is the join time in seconds, None when absent.
   */
  datatype Membership = Membership(
    id: string,
    user: Option<EndUser>,
    memberId: string,
    status: string,
    createdAt: Option<int>,
    productId: string,
    planId: string)
  datatype MembershipListing = MembershipsFailed | Memberships(data: seq<Membership>)

  datatype PlanPrice = PlanPrice(price: Cents, currency: string)

  datatype SyncError = MissingCompanyId | RemoteUnavailable
  datatype Outcome = Done | Failed(error: SyncError)

  // ---------------------------------------------------------------------------
  // The plan map.
  // ---------------------------------------------------------------------------

  /** The map the loop over one page of plans builds: a later priced plan overwrites an earlier one. */
  function PlanMapOfPage(page: seq<Plan>): map<string, PlanPrice>
    decreases |page|
  {
    if page == [] then map[]
    else
      var m := PlanMapOfPage(page[..|page| - 1]);
      var p := page[|page| - 1];
      if p.renewalPrice > 0 then m[p.id := PlanPrice(p.renewalPrice, OrElse(p.currency, DefaultCurrency))] else m
  }

  /** A failed plan listing leaves the map empty; the sync goes on without prices. */
  function PlanMapOf(plans: PlanListing): map<string, PlanPrice> {
    match plans
    case PlansFailed => map[]
    case Plans(ps) => PlanMapOfPage(Take(ps, PlansPageSize))
  }

  /** Plan `page[i]` is the last priced plan of the page with its id. */
  ghost predicate LastPriced(page: seq<Plan>, i: int) {
    && 0 <= i < |page|
    && page[i].renewalPrice > 0
    && forall j :: i < j < |page| && page[j].id == page[i].id ==> page[j].renewalPrice <= 0
  }

  /**
   * The plan map holds exactly the ids of priced plans, and each such id maps to the
   * price of the last priced plan with that id and its currency, "usd" when absent.
   */
  lemma PlanMapOfPageSpec(page: seq<Plan>)
    ensures forall id :: id in PlanMapOfPage(page) <==>
      exists i :: 0 <= i < |page| && page[i].id == id && page[i].renewalPrice > 0
    ensures forall i :: LastPriced(page, i) ==>
      PlanMapOfPage(page)[page[i].id] == PlanPrice(page[i].renewalPrice, OrElse(page[i].currency, DefaultCurrency))
  {
    PlanMapOfPageKeys(page);
    PlanMapOfPageValues(page);
  }

  lemma {:induction false} PlanMapOfPageKeys(page: seq<Plan>)
    ensures forall id :: id in PlanMapOfPage(page) <==>
      exists i :: 0 <= i < |page| && page[i].id == id && page[i].renewalPrice > 0
    decreases |page|
  {
    if page != [] {
      var n := |page| - 1;
      var pre := page[..n];
      PlanMapOfPageKeys(pre);
      forall id ensures id in PlanMapOfPage(page) <==>
        exists i :: 0 <= i < |page| && page[i].id == id && page[i].renewalPrice > 0
      {
        if id in PlanMapOfPage(pre) {
          var i :| 0 <= i < |pre| && pre[i].id == id && pre[i].renewalPrice > 0;
          assert page[i] == pre[i];
        }
        if exists i :: 0 <= i < |page| && page[i].id == id && page[i].renewalPrice > 0 {
          var i :| 0 <= i < |page| && page[i].id == id && page[i].renewalPrice > 0;
          if i < n {
            assert pre[i] == page[i];
          }
        }
      }
    }
  }

  lemma {:induction false} PlanMapOfPageValues(page: seq<Plan>)
    ensures forall i :: LastPriced(page, i) ==>
      && page[i].id in PlanMapOfPage(page)
      && PlanMapOfPage(page)[page[i].id] == PlanPrice(page[i].renewalPrice, OrElse(page[i].currency, DefaultCurrency))
    decreases |page|
  {
    if page != [] {
      var n := |page| - 1;
      var pre := page[..n];
      PlanMapOfPageValues(pre);
      forall i | LastPriced(page, i) ensures
        && page[i].id in PlanMapOfPage(page)
        && PlanMapOfPage(page)[page[i].id] == PlanPrice(page[i].renewalPrice, OrElse(page[i].currency, DefaultCurrency))
      {
        if i < n {
          assert pre[i] == page[i];
          assert LastPriced(pre, i);
        }
      }
    }
  }

  /** The loop of `syncCompanyMembers` that fills `planMap`, with the catch that empties it. */
  method BuildPlanMap(plans: PlanListing) returns (planMap: map<string, PlanPrice>)
    ensures planMap == PlanMapOf(plans)
  {
    planMap := map[];
    match plans {
      case PlansFailed =>
      case Plans(ps) =>
        var page := Take(ps, PlansPageSize);
        for i := 0 to |page|
          invariant planMap == PlanMapOfPage(page[..i])
        {
          assert page[..i + 1][..i] == page[..i];
          var p := page[i];
          if p.renewalPrice > 0 {
            planMap := planMap[p.id := PlanPrice(p.renewalPrice, OrElse(p.currency, DefaultCurrency))];
          }
        }
        assert page[..|page|] == page;
    }
  }

  // ---------------------------------------------------------------------------
  // Pricing of one membership.
  // ---------------------------------------------------------------------------

  function LowerChar(c: char): char {
    if 'A' <= c <= 'Z' then (c as int + 32) as char else c
  }

  /** `toLowerCase()` on ASCII letters. */
  function ToLower(s: string): string {
    seq(|s|, i requires 0 <= i < |s| => LowerChar(s[i]))
  }

  /** The renewal price and currency a membership with plan `planId` is stored with. */
  function Pricing(planMap: map<string, PlanPrice>, planId: string): PlanPrice {
    if planId != "" && planId in planMap then PlanPrice(planMap[planId].price, ToLower(planMap[planId].currency))
    else PlanPrice(DefaultRenewalPrice, DefaultCurrency)
  }

  /**
   * A membership on a plan whose last priced record on the page is `page[i]` gets that
   * price and its currency lower-cased ("usd" when absent).
   */
  lemma PricingOfPricedPlan(page: seq<Plan>, planId: string, i: int)
    requires LastPriced(page, i) && page[i].id == planId && planId != ""
    ensures Pricing(PlanMapOfPage(page), planId) ==
      PlanPrice(page[i].renewalPrice, ToLower(OrElse(page[i].currency, DefaultCurrency)))
    ensures Pricing(PlanMapOfPage(page), planId).price > 0
  {
    PlanMapOfPageSpec(page);
  }

  /** A membership without a plan id, or on a plan with no priced record on the page, gets 0 and "usd". */
  lemma PricingOfUnpricedPlan(page: seq<Plan>, planId: string)
    requires planId == "" || forall i :: 0 <= i < |page| && page[i].id == planId ==> page[i].renewalPrice <= 0
    ensures Pricing(PlanMapOfPage(page), planId) == PlanPrice(0, "usd")
  {
    PlanMapOfPageSpec(page);
  }

  /** When the plan listing fails every membership gets 0 and "usd". */
  lemma PricingWithoutPlans(planId: string)
    ensures Pricing(PlanMapOf(PlansFailed), planId) == PlanPrice(0, "usd")
  {
  }

  /** The stored currency holds no upper-case ASCII letter. */
  lemma PricingCurrencyLowerCase(planMap: map<string, PlanPrice>, planId: string)
    ensures forall i :: 0 <= i < |Pricing(planMap, planId).currency| ==> !('A' <= Pricing(planMap, planId).currency[i] <= 'Z')
  {
  }

  // ---------------------------------------------------------------------------
  // One membership, and the page.
  // ---------------------------------------------------------------------------

  /** `member.user?.id || ''`: the users key the membership is looked up under. */
  function EndUserKey(m: Membership): string {
    match m.user
    case Some(u) => u.id
    case None => ""
  }

  /** `created_at` seconds as milliseconds, or the time of the sync when absent. */
  function JoinedAt(m: Membership, now: Ms): Ms {
    match m.createdAt
    case Some(s) => s * 1000
    case None => now
  }

  /** The values of the members INSERT (the store replaces `id` by a fresh one). */
  function MemberRow(m: Membership, userRowId: Id, planMap: map<string, PlanPrice>, now: Ms): Member {
    var pricing := Pricing(planMap, m.planId);
    Member(0, userRowId, OrElse(m.memberId, m.id), "", m.status, Some(JoinedAt(m, now)),
           m.productId, m.planId, pricing.price, pricing.currency)
  }

  /** The tables after the loop body for membership `m`. */
  function MemberStep(t: Tables, m: Membership, planMap: map<string, PlanPrice>, appId: string, now: Ms): Tables {
    var t1 := if m.user.Some? then UpsertUser(t, m.user.value.id, OrElse(appId, UnknownAppId), "", m.user.value.username) else t;
    var key := EndUserKey(m);
    if key in t1.users then UpsertMember(t1, m.id, MemberRow(m, t1.users[key].id, planMap, now)) else t1
  }

  /** The tables after the loop over `ms`. */
  function SyncMembersPage(t: Tables, ms: seq<Membership>, planMap: map<string, PlanPrice>, appId: string, now: Ms): Tables
    decreases |ms|
  {
    if ms == [] then t
    else MemberStep(SyncMembersPage(t, ms[..|ms| - 1], planMap, appId, now), ms[|ms| - 1], planMap, appId, now)
  }

  function SyncOutcome(companyId: string, memberships: MembershipListing): Outcome {
    if companyId == "" then Failed(MissingCompanyId)
    else if memberships.MembershipsFailed? then Failed(RemoteUnavailable)
    else Done
  }

  /** The page the sync reads: the first 100 memberships, whatever the platform holds beyond them. */
  function MembershipPage(memberships: MembershipListing): seq<Membership>
    requires memberships.Memberships?
  {
    Take(memberships.data, MembershipsPageSize)
  }

  /** The tables after `syncCompanyMembers`: unchanged when it throws. */
  function SyncedTables(t: Tables, companyId: string, appId: string, plans: PlanListing,
                        memberships: MembershipListing, now: Ms): Tables
  {
    if SyncOutcome(companyId, memberships).Failed? then t
    else SyncMembersPage(t, MembershipPage(memberships), PlanMapOf(plans), appId, now)
  }

  /**
   * `syncCompanyMembers`.  `companyId` is WHOP_COMPANY_ID and `appId` is
   * NEXT_PUBLIC_WHOP_APP_ID ("" when unset); `now` is the time of the sync.
   */
  method SyncCompanyMembers(db: Db, companyId: string, appId: string, plans: PlanListing,
                            memberships: MembershipListing, now: Ms) returns (r: Outcome)
    requires db.Valid()
    modifies db
    ensures db.Valid()
    ensures r == SyncOutcome(companyId, memberships)
    ensures db.State() == SyncedTables(old(db.State()), companyId, appId, plans, memberships, now)
  {
    if companyId == "" {
      return Failed(MissingCompanyId);
    }
    var planMap := BuildPlanMap(plans);
    if memberships.MembershipsFailed? {
      return Failed(RemoteUnavailable);
    }
    SyncPage(db, Take(memberships.data, MembershipsPageSize), planMap, appId, now);
    r := Done;
  }

  /** The loop of `syncCompanyMembers` over one page of memberships. */
  method SyncPage(db: Db, page: seq<Membership>, planMap: map<string, PlanPrice>, appId: string, now: Ms)
    requires db.Valid()
    modifies db
    ensures db.Valid()
    ensures db.State() == SyncMembersPage(old(db.State()), page, planMap, appId, now)
  {
    ghost var t0 := db.State();
    for i := 0 to |page|
      invariant db.Valid()
      invariant db.State() == SyncMembersPage(t0, page[..i], planMap, appId, now)
    {
      assert page[..i + 1][..i] == page[..i];
      ghost var b := db.State();
      SyncMembership(db, page[i], planMap, appId, now);
      assert db.State() == MemberStep(b, page[i], planMap, appId, now);
    }
    assert page[..|page|] == page;
  }

  /** The loop body of `syncCompanyMembers` for one membership. */
  method SyncMembership(db: Db, m: Membership, planMap: map<string, PlanPrice>, appId: string, now: Ms)
    requires db.Valid()
    modifies db
    ensures db.Valid()
    ensures db.State() == MemberStep(old(db.State()), m, planMap, appId, now)
  {
    if m.user.Some? {
      db.UpsertUser(m.user.value.id, OrElse(appId, UnknownAppId), "", m.user.value.username);
    }
    assert db.State() == StepUsers(old(db.State()), m, appId);
    var dbUser := db.FindUser(EndUserKey(m));
    if dbUser.None? {
      return;
    }
    db.UpsertMember(m.id, MemberRow(m, dbUser.value.id, planMap, now));
  }

  // ---------------------------------------------------------------------------
  // What one step and the whole page do.
  // ---------------------------------------------------------------------------

  /** The columns an ON CONFLICT update of a members row sets from membership `m`. */
  function Refresh(was: Member, m: Membership, planMap: map<string, PlanPrice>): Member {
    was.(status := m.status, renewalPrice := Pricing(planMap, m.planId).price, currency := Pricing(planMap, m.planId).currency)
  }

  /** The users row the step leaves under the end-user's key, before the members upsert. */
  function StepUsers(t: Tables, m: Membership, appId: string): Tables {
    if m.user.Some? then UpsertUser(t, m.user.value.id, OrElse(appId, UnknownAppId), "", m.user.value.username) else t
  }

  /**
   * One membership changes at most the users row of its end-user and its own members
   * row, and adds no other key; a membership without an end-user changes nothing while
   * no users row has the empty key.
   */
  lemma MemberStepFrame(t: Tables, m: Membership, planMap: map<string, PlanPrice>, appId: string, now: Ms)
    ensures var r := MemberStep(t, m, planMap, appId, now);
      && r.engagement == t.engagement && r.revenue == t.revenue
      && r.nextId >= t.nextId
      && (forall k :: k in t.users && k != EndUserKey(m) ==> k in r.users && r.users[k] == t.users[k])
      && (forall x :: x in t.members && x != m.id ==> x in r.members && r.members[x] == t.members[x])
      && (forall k :: k in r.users ==> k in t.users || k == EndUserKey(m))
      && (forall x :: x in r.members ==> x in t.members || x == m.id)
    ensures m.user.None? && "" !in t.users ==> MemberStep(t, m, planMap, appId, now) == t
  {
    var t1 := StepUsers(t, m, appId);
    StepUsersFrame(t, m, appId);
    var key := EndUserKey(m);
    if key in t1.users {
      UpsertMemberFrame(t1, m.id, MemberRow(m, t1.users[key].id, planMap, now));
    }
  }

  lemma StepUsersFrame(t: Tables, m: Membership, appId: string)
    ensures var t1 := StepUsers(t, m, appId);
      && t1.members == t.members && t1.engagement == t.engagement && t1.revenue == t.revenue
      && t1.nextId >= t.nextId
      && (forall k :: k in t.users && k != EndUserKey(m) ==> k in t1.users && t1.users[k] == t.users[k])
      && (forall k :: k in t1.users ==> k in t.users || k == EndUserKey(m))
    ensures m.user.None? ==> StepUsers(t, m, appId) == t
  {
  }

  /** A members upsert touches only its own key. */
  lemma UpsertMemberFrame(t: Tables, x: string, row: Member)
    ensures var r := UpsertMember(t, x, row);
      && r.users == t.users && r.engagement == t.engagement && r.revenue == t.revenue
      && r.nextId >= t.nextId
      && (forall y :: y in t.members && y != x ==> y in r.members && r.members[y] == t.members[y])
      && (forall y :: y in r.members ==> y in t.members || y == x)
  {
  }

  lemma MemberStepKeys(t: Tables, m: Membership, planMap: map<string, PlanPrice>, appId: string, now: Ms)
    ensures MemberStep(t, m, planMap, appId, now).users.Keys <= t.users.Keys + EndUserKeyOf(m)
    ensures MemberStep(t, m, planMap, appId, now).members.Keys <= t.members.Keys + {m.id}
  {
    var t1 := StepUsers(t, m, appId);
    assert t1.users.Keys <= t.users.Keys + EndUserKeyOf(m);
    assert t1.members == t.members;
  }

  /**
   * One membership with an end-user: the users row exists with the membership's username
   * (a new one with the app id, no email and the default tier), and the members row
   * exists with the membership's status and pricing; a new members row belongs to the
   * membership's own end-user and carries its ids and join time, an existing one keeps
   * every other column.
   */
  lemma MemberStepWrites(t: Tables, m: Membership, planMap: map<string, PlanPrice>, appId: string, now: Ms)
    requires m.user.Some?
    ensures var r := MemberStep(t, m, planMap, appId, now);
      var k := m.user.value.id;
      && k in r.users
      && r.users[k].username == m.user.value.username
      && (k in t.users ==> r.users[k] == t.users[k].(username := m.user.value.username))
      && (k !in t.users ==> r.users[k] == NewUser(t.nextId, OrElse(appId, UnknownAppId), "", m.user.value.username))
      && m.id in r.members
      && (m.id in t.members ==> r.members[m.id] == Refresh(t.members[m.id], m, planMap))
      && (m.id !in t.members ==> r.members[m.id] == MemberRow(m, r.users[k].id, planMap, now).(id := r.members[m.id].id))
  {
    var t1 := StepUsers(t, m, appId);
    var k := m.user.value.id;
    StepUsersWrites(t, m, appId);
    var row := MemberRow(m, t1.users[k].id, planMap, now);
    var r := UpsertMember(t1, m.id, row);
    assert r == MemberStep(t, m, planMap, appId, now);
    UpsertMemberWrites(t1, m.id, row);
  }

  lemma StepUsersWrites(t: Tables, m: Membership, appId: string)
    requires m.user.Some?
    ensures var t1 := StepUsers(t, m, appId);
      var k := m.user.value.id;
      && k in t1.users
      && t1.members == t.members
      && t1.users[k] == if k in t.users then t.users[k].(username := m.user.value.username)
                        else NewUser(t.nextId, OrElse(appId, UnknownAppId), "", m.user.value.username)
  {
  }

  lemma UpsertMemberWrites(t: Tables, x: string, row: Member)
    ensures var r := UpsertMember(t, x, row);
      && r.users == t.users
      && x in r.members
      && (x in t.members ==> r.members[x] == t.members[x].(status := row.status, renewalPrice := row.renewalPrice, currency := row.currency))
      && (x !in t.members ==> r.members[x] == row.(id := t.nextId))
  {
  }

  /**
   * `r` differs from `t` only by upserts of the member sync: no users or members row is
   * removed or re-keyed, a users row changes at most its username, a members row at most
   * its status, renewal price and currency, and the other tables are untouched.
   */
  ghost predicate UpsertsOnly(t: Tables, r: Tables) {
    && r.engagement == t.engagement && r.revenue == t.revenue
    && r.nextId >= t.nextId
    && (forall k :: k in t.users ==> k in r.users && r.users[k] == t.users[k].(username := r.users[k].username))
    && (forall x :: x in t.members ==>
          && x in r.members
          && r.members[x] == t.members[x].(status := r.members[x].status, renewalPrice := r.members[x].renewalPrice,
                                           currency := r.members[x].currency))
  }

  lemma UpsertsOnlyTransitive(a: Tables, b: Tables, c: Tables)
    requires UpsertsOnly(a, b) && UpsertsOnly(b, c)
    ensures UpsertsOnly(a, c)
  {
  }

  lemma MemberStepUpserts(t: Tables, m: Membership, planMap: map<string, PlanPrice>, appId: string, now: Ms)
    ensures UpsertsOnly(t, MemberStep(t, m, planMap, appId, now))
  {
    MemberStepFrame(t, m, planMap, appId, now);
    if m.user.Some? {
      MemberStepWrites(t, m, planMap, appId, now);
    }
  }

  /** The end-user id a membership names, if any. */
  function EndUserKeyOf(m: Membership): set<string> {
    if m.user.Some? then {m.user.value.id} else {}
  }

  /** The end-user ids and the membership ids a page names. */
  function EndUserKeysOf(ms: seq<Membership>): set<string> {
    set i | 0 <= i < |ms| && ms[i].user.Some? :: ms[i].user.value.id
  }

  function MembershipIdsOf(ms: seq<Membership>): set<string> {
    set i | 0 <= i < |ms| :: ms[i].id
  }

  /** The page only upserts: no row is removed, and a row changes only its upsert columns. */
  lemma {:induction false} SyncMembersPageUpserts(t: Tables, ms: seq<Membership>, planMap: map<string, PlanPrice>, appId: string, now: Ms)
    ensures UpsertsOnly(t, SyncMembersPage(t, ms, planMap, appId, now))
    decreases |ms|
  {
    if ms != [] {
      var pre := ms[..|ms| - 1];
      SyncMembersPageUpserts(t, pre, planMap, appId, now);
      var r0 := SyncMembersPage(t, pre, planMap, appId, now);
      MemberStepUpserts(r0, ms[|ms| - 1], planMap, appId, now);
      UpsertsOnlyTransitive(t, r0, SyncMembersPage(t, ms, planMap, appId, now));
    }
  }

  /** Every users key and membership id the page adds comes from the page. */
  lemma {:induction false} SyncMembersPageNewKeys(t: Tables, ms: seq<Membership>, planMap: map<string, PlanPrice>, appId: string, now: Ms)
    ensures SyncMembersPage(t, ms, planMap, appId, now).users.Keys <= t.users.Keys + EndUserKeysOf(ms)
    ensures SyncMembersPage(t, ms, planMap, appId, now).members.Keys <= t.members.Keys + MembershipIdsOf(ms)
    decreases |ms|
  {
    if ms != [] {
      var n := |ms| - 1;
      var pre := ms[..n];
      var m := ms[n];
      SyncMembersPageNewKeys(t, pre, planMap, appId, now);
      var r0 := SyncMembersPage(t, pre, planMap, appId, now);
      MemberStepKeys(r0, m, planMap, appId, now);
      assert SyncMembersPage(t, ms, planMap, appId, now) == MemberStep(r0, m, planMap, appId, now);
      PageKeysSnoc(ms);
    }
  }

  lemma PageKeysSnoc(ms: seq<Membership>)
    requires ms != []
    ensures EndUserKeysOf(ms) == EndUserKeysOf(ms[..|ms| - 1]) + EndUserKeyOf(ms[|ms| - 1])
    ensures MembershipIdsOf(ms) == MembershipIdsOf(ms[..|ms| - 1]) + {ms[|ms| - 1].id}
  {
    var n := |ms| - 1;
    var pre := ms[..n];
    assert forall i :: 0 <= i < n ==> ms[i] == pre[i];
    forall k | k in EndUserKeysOf(ms) ensures k in EndUserKeysOf(pre) + EndUserKeyOf(ms[n]) {
      var i :| 0 <= i < |ms| && ms[i].user.Some? && ms[i].user.value.id == k;
      if i < n {
        assert pre[i] == ms[i];
      }
    }
  }

  /** Every membership of the page with an end-user ends up with its users row and its members row. */
  lemma {:induction false} SyncMembersPageCovers(t: Tables, ms: seq<Membership>, planMap: map<string, PlanPrice>, appId: string, now: Ms)
    ensures forall i :: 0 <= i < |ms| && ms[i].user.Some? ==>
      ms[i].user.value.id in SyncMembersPage(t, ms, planMap, appId, now).users &&
      ms[i].id in SyncMembersPage(t, ms, planMap, appId, now).members
    decreases |ms|
  {
    if ms != [] {
      var n := |ms| - 1;
      var pre := ms[..n];
      var m := ms[n];
      SyncMembersPageCovers(t, pre, planMap, appId, now);
      var r0 := SyncMembersPage(t, pre, planMap, appId, now);
      var r := SyncMembersPage(t, ms, planMap, appId, now);
      MemberStepUpserts(r0, m, planMap, appId, now);
      if m.user.Some? {
        MemberStepWrites(r0, m, planMap, appId, now);
      }
      forall i | 0 <= i < |ms| && ms[i].user.Some? ensures ms[i].user.value.id in r.users && ms[i].id in r.members {
        if i < n {
          assert ms[i] == pre[i];
        }
      }
    }
  }

  // ---------------------------------------------------------------------------
  // Last write wins, and a second sync of the same page changes nothing.
  // ---------------------------------------------------------------------------

  /** The username of the last membership of `ms` whose end-user is `k`. */
  function LastUsername(ms: seq<Membership>, k: string): Option<string>
    decreases |ms|
  {
    if ms == [] then None
    else
      var m := ms[|ms| - 1];
      if m.user.Some? && m.user.value.id == k then Some(m.user.value.username)
      else LastUsername(ms[..|ms| - 1], k)
  }

  /** The last membership of `ms` with id `x` that has an end-user. */
  function LastWrite(ms: seq<Membership>, x: string): Option<Membership>
    decreases |ms|
  {
    if ms == [] then None
    else
      var m := ms[|ms| - 1];
      if m.user.Some? && m.id == x then Some(m)
      else LastWrite(ms[..|ms| - 1], x)
  }

  /** Every membership of `ms` with an end-user already has its users row and its members row. */
  ghost predicate Saturated(t: Tables, ms: seq<Membership>) {
    && "" !in t.users
    && forall i :: 0 <= i < |ms| && ms[i].user.Some? ==> ms[i].user.value.id in t.users && ms[i].id in t.members
  }

  /** The rows hold what the last write of `ms` to each of them sets. */
  ghost predicate Agrees(t: Tables, ms: seq<Membership>, planMap: map<string, PlanPrice>) {
    && (forall k :: k in t.users && LastUsername(ms, k).Some? ==> t.users[k].username == LastUsername(ms, k).value)
    && (forall x :: x in t.members && LastWrite(ms, x).Some? ==> t.members[x] == Refresh(t.members[x], LastWrite(ms, x).value, planMap))
  }

  /** The tables with each row overwritten by the last write of `ms` to it. */
  function Overwrite(t: Tables, ms: seq<Membership>, planMap: map<string, PlanPrice>): Tables {
    t.(users := map k | k in t.users :: if LastUsername(ms, k).Some? then t.users[k].(username := LastUsername(ms, k).value) else t.users[k],
       members := map x | x in t.members :: if LastWrite(ms, x).Some? then Refresh(t.members[x], LastWrite(ms, x).value, planMap) else t.members[x])
  }

  lemma OverwriteStepUsers(t: Tables, ms: seq<Membership>, planMap: map<string, PlanPrice>, appId: string, now: Ms)
    requires ms != [] && "" !in t.users
    requires ms[|ms| - 1].user.Some? ==> ms[|ms| - 1].user.value.id in t.users
    ensures MemberStep(Overwrite(t, ms[..|ms| - 1], planMap), ms[|ms| - 1], planMap, appId, now).users == Overwrite(t, ms, planMap).users
  {
    var pre := ms[..|ms| - 1];
    var m := ms[|ms| - 1];
    var o := Overwrite(t, pre, planMap);
    var t1 := StepUsers(o, m, appId);
    assert MemberStep(o, m, planMap, appId, now).users == t1.users;
    var want := Overwrite(t, ms, planMap).users;
    if m.user.None? {
      assert t1.users == o.users;
      assert forall k :: LastUsername(ms, k) == LastUsername(pre, k);
    } else {
      var k := m.user.value.id;
      assert t1.users == o.users[k := o.users[k].(username := m.user.value.username)];
      assert forall k' :: k' != k ==> LastUsername(ms, k') == LastUsername(pre, k');
    }
    assert t1.users == want;
  }

  lemma OverwriteStepMembers(t: Tables, ms: seq<Membership>, planMap: map<string, PlanPrice>, appId: string, now: Ms)
    requires ms != [] && "" !in t.users
    requires ms[|ms| - 1].user.Some? ==> ms[|ms| - 1].user.value.id in t.users && ms[|ms| - 1].id in t.members
    ensures MemberStep(Overwrite(t, ms[..|ms| - 1], planMap), ms[|ms| - 1], planMap, appId, now).members == Overwrite(t, ms, planMap).members
  {
    var pre := ms[..|ms| - 1];
    var m := ms[|ms| - 1];
    var o := Overwrite(t, pre, planMap);
    var r := MemberStep(o, m, planMap, appId, now);
    var want := Overwrite(t, ms, planMap).members;
    if m.user.None? {
      assert EndUserKey(m) !in o.users;
      assert r.members == o.members;
      assert forall x :: LastWrite(ms, x) == LastWrite(pre, x);
    } else {
      var t1 := StepUsers(o, m, appId);
      assert EndUserKey(m) in t1.users && t1.members == o.members && m.id in o.members;
      assert r.members == o.members[m.id := Refresh(o.members[m.id], m, planMap)];
      assert forall x :: x != m.id ==> LastWrite(ms, x) == LastWrite(pre, x);
    }
    assert r.members == want;
  }

  /** One more membership on top of an overwrite is the overwrite by the longer page. */
  lemma OverwriteStep(t: Tables, ms: seq<Membership>, planMap: map<string, PlanPrice>, appId: string, now: Ms)
    requires ms != [] && "" !in t.users
    requires ms[|ms| - 1].user.Some? ==> ms[|ms| - 1].user.value.id in t.users && ms[|ms| - 1].id in t.members
    ensures MemberStep(Overwrite(t, ms[..|ms| - 1], planMap), ms[|ms| - 1], planMap, appId, now) == Overwrite(t, ms, planMap)
  {
    var o := Overwrite(t, ms[..|ms| - 1], planMap);
    var m := ms[|ms| - 1];
    OverwriteStepUsers(t, ms, planMap, appId, now);
    OverwriteStepMembers(t, ms, planMap, appId, now);
    MemberStepUpserts(o, m, planMap, appId, now);
    MemberStepKeys(o, m, planMap, appId, now);
    assert m.user.Some? ==> EndUserKey(m) in o.users && m.id in o.members;
  }

  /** On tables that already hold every row the page names, the page only overwrites rows. */
  lemma {:induction false} SaturatedSyncOverwrites(t: Tables, ms: seq<Membership>, planMap: map<string, PlanPrice>, appId: string, now: Ms)
    requires Saturated(t, ms)
    ensures SyncMembersPage(t, ms, planMap, appId, now) == Overwrite(t, ms, planMap)
    decreases |ms|
  {
    if ms == [] {
      var o := Overwrite(t, ms, planMap);
      assert o.users == t.users;
      assert o.members == t.members;
    } else {
      var n := |ms| - 1;
      var pre := ms[..n];
      assert Saturated(t, pre) by {
        assert forall i :: 0 <= i < |pre| ==> pre[i] == ms[i];
      }
      SaturatedSyncOverwrites(t, pre, planMap, appId, now);
      OverwriteStep(t, ms, planMap, appId, now);
    }
  }

  /** A step on rows that agree with the page so far agrees with the page extended by its membership. */
  lemma AgreesStep(t: Tables, ms: seq<Membership>, planMap: map<string, PlanPrice>, appId: string, now: Ms)
    requires ms != [] && "" !in t.users
    requires Agrees(t, ms[..|ms| - 1], planMap)
    ensures Agrees(MemberStep(t, ms[|ms| - 1], planMap, appId, now), ms, planMap)
  {
    var pre := ms[..|ms| - 1];
    var m := ms[|ms| - 1];
    var r := MemberStep(t, m, planMap, appId, now);
    MemberStepFrame(t, m, planMap, appId, now);
    MemberStepKeys(t, m, planMap, appId, now);
    if m.user.Some? {
      MemberStepWrites(t, m, planMap, appId, now);
    }
    forall k | k in r.users && LastUsername(ms, k).Some? ensures r.users[k].username == LastUsername(ms, k).value {
      if !(m.user.Some? && m.user.value.id == k) {
        assert LastUsername(ms, k) == LastUsername(pre, k);
        assert k != EndUserKey(m);
      }
    }
    forall x | x in r.members && LastWrite(ms, x).Some? ensures r.members[x] == Refresh(r.members[x], LastWrite(ms, x).value, planMap) {
      if !(m.user.Some? && m.id == x) {
        assert LastWrite(ms, x) == LastWrite(pre, x);
        if x == m.id {
          assert r.members == t.members;
        }
      }
    }
  }

  /**
   * After the page every row the page names exists and holds what the last write of the
   * page to it sets, whatever the tables held before, provided no end-user id is empty.
   */
  lemma {:induction false} SyncMembersPageLastWriteWins(t: Tables, ms: seq<Membership>, planMap: map<string, PlanPrice>, appId: string, now: Ms)
    requires "" !in t.users
    requires forall i :: 0 <= i < |ms| && ms[i].user.Some? ==> ms[i].user.value.id != ""
    ensures Saturated(SyncMembersPage(t, ms, planMap, appId, now), ms)
    ensures Agrees(SyncMembersPage(t, ms, planMap, appId, now), ms, planMap)
    decreases |ms|
  {
    SyncMembersPageCovers(t, ms, planMap, appId, now);
    SyncMembersPageNewKeys(t, ms, planMap, appId, now);
    assert "" !in EndUserKeysOf(ms);
    if ms != [] {
      var pre := ms[..|ms| - 1];
      assert forall i :: 0 <= i < |pre| ==> pre[i] == ms[i];
      SyncMembersPageLastWriteWins(t, pre, planMap, appId, now);
      AgreesStep(SyncMembersPage(t, pre, planMap, appId, now), ms, planMap, appId, now);
    }
  }

  /** Tables that already agree with the page are left as they are by overwriting. */
  lemma OverwriteAgreeing(t: Tables, ms: seq<Membership>, planMap: map<string, PlanPrice>)
    requires Agrees(t, ms, planMap)
    ensures Overwrite(t, ms, planMap) == t
  {
    var o := Overwrite(t, ms, planMap);
    assert o.users == t.users;
    assert o.members == t.members;
  }

  /**
   * Re-running the member sync on the same listings changes nothing, whatever the app id
   * and the time of the second run: every row already exists, so nothing is inserted,
   * and every update writes the values already there.
   */
  lemma SyncIdempotent(t: Tables, companyId: string, appId: string, appId': string, plans: PlanListing,
                       memberships: MembershipListing, now: Ms, now': Ms)
    requires "" !in t.users
    requires memberships.Memberships? ==>
      forall i :: 0 <= i < |memberships.data| && memberships.data[i].user.Some? ==> memberships.data[i].user.value.id != ""
    ensures var once := SyncedTables(t, companyId, appId, plans, memberships, now);
      SyncedTables(once, companyId, appId', plans, memberships, now') == once
  {
    if SyncOutcome(companyId, memberships).Done? {
      var page := MembershipPage(memberships);
      var planMap := PlanMapOf(plans);
      assert forall i :: 0 <= i < |page| ==> page[i] == memberships.data[i];
      var once := SyncMembersPage(t, page, planMap, appId, now);
      SyncMembersPageLastWriteWins(t, page, planMap, appId, now);
      SaturatedSyncOverwrites(once, page, planMap, appId', now');
      OverwriteAgreeing(once, page, planMap);
    }
  }
}
