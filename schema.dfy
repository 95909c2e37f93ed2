/**
 * The relational store of the dashboard: the four tables `users`, `members`,
 * `engagement_metrics` and `revenue_metrics`, their unique keys, foreign keys with
 * ON DELETE CASCADE, and column defaults.
 *
 * Each table is a map.  Where the table has a unique business key the map is keyed
 * by it, so that the unique constraint holds by construction and ON CONFLICT upserts
 * are map updates:
 *   - users by `whop_user_id` (unique, not null),
 *   - members by `whop_membership_id` (unique, not null),
 *   - engagement_metrics by its composite primary key (member_id, date),
 *   - revenue_metrics by its row id, because (user_id, date) carries only a plain index.
 * A row's uuid (`defaultRandom()`) is modelled as a fresh number drawn from `nextId`.
 * In text columns that may be NULL, the empty string stands for NULL.
 */
module Schema {
  import opened Wrappers

  type Id = nat
  /** decimal(10,2) and decimal(12,2) amounts, as integer cents. */
  type Cents = int
  /** A calendar day (UTC), counted from the epoch. */
  type Day = int
  /** An instant, in milliseconds since the epoch. */
  type Ms = int

  const MsPerDay: int := 1000 * 3600 * 24

  /** The UTC date of an instant, as `toISOString().split('T')[0]` gives it. */
  function DayOf(t: Ms): Day {
    t / MsPerDay
  }

  // Column defaults of the schema.
  const DefaultRenewalPrice: Cents := 0
  const DefaultCurrency: string := "usd"
  const DefaultTier: string := "free"
  const DefaultSubscriptionStatus: string := "active"

  /** A `users` row without its key `whop_user_id`. */
  datatype User = User(
    id: Id,
    whopCompanyId: string,
    email: string,
    username: string,
    subscriptionTier: string,
    subscriptionStatus: string)

  /** A `users` row as an INSERT that names neither tier nor status creates it. */
  function NewUser(id: Id, whopCompanyId: string, email: string, username: string): User {
    User(id, whopCompanyId, email, username, DefaultTier, DefaultSubscriptionStatus)
  }

  /** A `members` row without its key `whop_membership_id`. */
  datatype Member = Member(
    id: Id,
    userId: Id,
    whopMemberId: string,
    email: string,
    status: string,
    joinedAt: Option<Ms>,
    productId: string,
    planId: string,
    renewalPrice: Cents,
    currency: string)

  /** The composite primary key of `engagement_metrics`. */
  datatype EngagementKey = EngagementKey(memberId: Id, date: Day)

  datatype Engagement = Engagement(
    userId: Id,
    messageCount: int,
    activityScore: int,
    engagementScore: int,
    lastActiveAt: Option<Ms>)

  datatype Revenue = Revenue(
    userId: Id,
    date: Day,
    mrr: Cents,
    totalRevenue: Cents,
    activeMembers: int)

  datatype Tables = Tables(
    users: map<string, User>,
    members: map<string, Member>,
    engagement: map<EngagementKey, Engagement>,
    revenue: map<Id, Revenue>,
    nextId: Id)

  function EmptyTables(): Tables {
    Tables(map[], map[], map[], map[], 0)
  }

  ghost predicate HasUserId(users: map<string, User>, id: Id) {
    exists k :: k in users && users[k].id == id
  }

  ghost predicate HasMemberId(members: map<string, Member>, id: Id) {
    exists k :: k in members && members[k].id == id
  }

  /** Every row id in use was drawn from the counter before `nextId`. */
  ghost predicate IdsBelow(t: Tables) {
    && (forall k :: k in t.users ==> t.users[k].id < t.nextId)
    && (forall k :: k in t.members ==> t.members[k].id < t.nextId)
    && (forall i :: i in t.revenue ==> i < t.nextId)
  }

  /** Primary keys `users.id` and `members.id` are unique. */
  ghost predicate PrimaryKeysUnique(t: Tables) {
    && (forall a, b :: a in t.users && b in t.users && t.users[a].id == t.users[b].id ==> a == b)
    && (forall a, b :: a in t.members && b in t.members && t.members[a].id == t.members[b].id ==> a == b)
  }

  /** Every foreign key names an existing row. */
  ghost predicate ForeignKeys(t: Tables) {
    && (forall k :: k in t.members ==> HasUserId(t.users, t.members[k].userId))
    && (forall e :: e in t.engagement ==> HasMemberId(t.members, e.memberId))
    && (forall e :: e in t.engagement ==> HasUserId(t.users, t.engagement[e].userId))
    && (forall i :: i in t.revenue ==> HasUserId(t.users, t.revenue[i].userId))
  }

  ghost predicate Valid(t: Tables) {
    IdsBelow(t) && PrimaryKeysUnique(t) && ForeignKeys(t)
  }

  /** At most one revenue row per (user, day): not a constraint of the store. */
  ghost predicate OneRevenueRowPerDay(revenue: map<Id, Revenue>) {
    forall i, j ::
      i in revenue && j in revenue && revenue[i].userId == revenue[j].userId && revenue[i].date == revenue[j].date
      ==> i == j
  }

  // ---------------------------------------------------------------------------
  // Statements of the store that the core issues.
  // ---------------------------------------------------------------------------

  /** `INSERT INTO users … ON CONFLICT (whop_user_id) DO UPDATE SET username`. */
  function UpsertUser(t: Tables, whopUserId: string, whopCompanyId: string, email: string, username: string): Tables {
    if whopUserId in t.users then
      t.(users := t.users[whopUserId := t.users[whopUserId].(username := username)])
    else
      t.(users := t.users[whopUserId := NewUser(t.nextId, whopCompanyId, email, username)], nextId := t.nextId + 1)
  }

  /** A plain `INSERT INTO users`; None when `whop_user_id` is already taken. */
  function InsertUser(t: Tables, whopUserId: string, row: User): Option<Tables> {
    if whopUserId in t.users then None
    else Some(t.(users := t.users[whopUserId := row.(id := t.nextId)], nextId := t.nextId + 1))
  }

  /**
   * `INSERT INTO members … ON CONFLICT (whop_membership_id) DO UPDATE SET status,
   * renewal_price, currency`; a new row gets a fresh id, an existing one keeps every
   * other column.
   */
  function UpsertMember(t: Tables, whopMembershipId: string, row: Member): Tables {
    if whopMembershipId in t.members then
      var was := t.members[whopMembershipId];
      t.(members := t.members[whopMembershipId :=
        was.(status := row.status, renewalPrice := row.renewalPrice, currency := row.currency)])
    else
      t.(members := t.members[whopMembershipId := row.(id := t.nextId)], nextId := t.nextId + 1)
  }

  /**
   * `INSERT INTO engagement_metrics … ON CONFLICT (member_id, date) DO UPDATE SET
   * message_count, activity_score, engagement_score, last_active_at`.
   */
  function UpsertEngagement(t: Tables, key: EngagementKey, userId: Id, messageCount: int,
                            activityScore: int, engagementScore: int, lastActiveAt: Ms): Tables {
    if key in t.engagement then
      t.(engagement := t.engagement[key := t.engagement[key].(messageCount := messageCount,
        activityScore := activityScore, engagementScore := engagementScore, lastActiveAt := Some(lastActiveAt))])
    else
      t.(engagement := t.engagement[key :=
        Engagement(userId, messageCount, activityScore, engagementScore, Some(lastActiveAt))])
  }

  /** `UPDATE revenue_metrics SET mrr, active_members, total_revenue WHERE id = …`. */
  function UpdateRevenue(t: Tables, id: Id, mrr: Cents, activeMembers: int, totalRevenue: Cents): Tables
    requires id in t.revenue
  {
    t.(revenue := t.revenue[id := t.revenue[id].(mrr := mrr, activeMembers := activeMembers, totalRevenue := totalRevenue)])
  }

  /** `INSERT INTO revenue_metrics`; a fresh row id. */
  function InsertRevenue(t: Tables, row: Revenue): Tables {
    t.(revenue := t.revenue[t.nextId := row], nextId := t.nextId + 1)
  }

  // ---------------------------------------------------------------------------
  // ON DELETE CASCADE.
  // ---------------------------------------------------------------------------

  /** The ids of the members rows that belong to users row `id`. */
  function MemberIdsOf(members: map<string, Member>, id: Id): set<Id> {
    set k | k in members && members[k].userId == id :: members[k].id
  }

  /**
   * `DELETE FROM users WHERE id = …`: its members, engagement and revenue rows go with it,
   * and so do the engagement rows of the deleted members.
   */
  function DeleteUser(t: Tables, id: Id): Tables {
    var gone := MemberIdsOf(t.members, id);
    Tables(
      map k | k in t.users && t.users[k].id != id :: t.users[k],
      map k | k in t.members && t.members[k].userId != id :: t.members[k],
      map e | e in t.engagement && t.engagement[e].userId != id && e.memberId !in gone :: t.engagement[e],
      map i | i in t.revenue && t.revenue[i].userId != id :: t.revenue[i],
      t.nextId)
  }

  /** `DELETE FROM members WHERE whop_membership_id = …`: its engagement rows go with it. */
  function DeleteMember(t: Tables, whopMembershipId: string): Tables
    requires whopMembershipId in t.members
  {
    var id := t.members[whopMembershipId].id;
    t.(members := t.members - {whopMembershipId},
       engagement := map e | e in t.engagement && e.memberId != id :: t.engagement[e])
  }

  // ---------------------------------------------------------------------------
  // Every statement keeps the store's constraints.
  // ---------------------------------------------------------------------------

  /** A write that only adds users rows or changes their non-key columns keeps the constraints. */
  lemma UsersGrowValid(t: Tables, r: Tables)
    requires Valid(t)
    requires r.members == t.members && r.engagement == t.engagement && r.revenue == t.revenue
    requires r.nextId >= t.nextId
    requires forall k :: k in t.users ==> k in r.users && r.users[k].id == t.users[k].id
    requires forall k :: k in r.users ==> r.users[k].id < r.nextId
    requires forall a, b :: a in r.users && b in r.users && r.users[a].id == r.users[b].id ==> a == b
    ensures Valid(r)
  {
    forall x | HasUserId(t.users, x) ensures HasUserId(r.users, x) {
      var k :| k in t.users && t.users[k].id == x;
      assert r.users[k].id == x;
    }
  }

  /** A write that only adds members rows or changes their non-key columns keeps the constraints. */
  lemma MembersGrowValid(t: Tables, r: Tables)
    requires Valid(t)
    requires r.users == t.users && r.engagement == t.engagement && r.revenue == t.revenue
    requires r.nextId >= t.nextId
    requires forall k :: k in t.members ==> k in r.members && r.members[k].id == t.members[k].id
    requires forall k :: k in r.members ==> r.members[k].id < r.nextId && HasUserId(r.users, r.members[k].userId)
    requires forall a, b :: a in r.members && b in r.members && r.members[a].id == r.members[b].id ==> a == b
    ensures Valid(r)
  {
    forall x | HasMemberId(t.members, x) ensures HasMemberId(r.members, x) {
      var k :| k in t.members && t.members[k].id == x;
      assert r.members[k].id == x;
    }
  }

  lemma UpsertUserValid(t: Tables, whopUserId: string, whopCompanyId: string, email: string, username: string)
    requires Valid(t)
    ensures Valid(UpsertUser(t, whopUserId, whopCompanyId, email, username))
  {
    var r := UpsertUser(t, whopUserId, whopCompanyId, email, username);
    if whopUserId in t.users {
      assert forall k :: k in r.users ==> k in t.users && r.users[k].id == t.users[k].id;
    } else {
      assert forall k :: k in r.users && k != whopUserId ==> k in t.users && r.users[k] == t.users[k];
    }
    UsersGrowValid(t, r);
  }

  lemma InsertUserValid(t: Tables, whopUserId: string, row: User)
    requires Valid(t)
    ensures InsertUser(t, whopUserId, row).Some? ==> Valid(InsertUser(t, whopUserId, row).value)
  {
    if whopUserId !in t.users {
      var r := InsertUser(t, whopUserId, row).value;
      assert forall k :: k in r.users && k != whopUserId ==> k in t.users && r.users[k] == t.users[k];
      UsersGrowValid(t, r);
    }
  }

  lemma UpsertMemberValid(t: Tables, whopMembershipId: string, row: Member)
    requires Valid(t)
    requires HasUserId(t.users, row.userId)
    ensures Valid(UpsertMember(t, whopMembershipId, row))
  {
    if whopMembershipId in t.members {
      MemberUpdateValid(t, whopMembershipId, row);
    } else {
      MemberInsertValid(t, whopMembershipId, row);
    }
  }

  lemma MemberUpdateValid(t: Tables, whopMembershipId: string, row: Member)
    requires Valid(t) && whopMembershipId in t.members
    ensures Valid(UpsertMember(t, whopMembershipId, row))
  {
    var r := UpsertMember(t, whopMembershipId, row);
    forall k | k in r.members
      ensures k in t.members && r.members[k].id == t.members[k].id && r.members[k].userId == t.members[k].userId
    {
    }
    MembersGrowValid(t, r);
  }

  lemma MemberInsertValid(t: Tables, whopMembershipId: string, row: Member)
    requires Valid(t) && whopMembershipId !in t.members
    requires HasUserId(t.users, row.userId)
    ensures Valid(UpsertMember(t, whopMembershipId, row))
  {
    var r := UpsertMember(t, whopMembershipId, row);
    assert r.members == t.members[whopMembershipId := row.(id := t.nextId)];
    forall k | k in r.members && k != whopMembershipId
      ensures k in t.members && r.members[k] == t.members[k]
    {
    }
    MembersGrowValid(t, r);
  }

  /** A write that only changes engagement rows keeps the constraints when every row's keys exist. */
  lemma EngagementChangesValid(t: Tables, r: Tables)
    requires Valid(t)
    requires r.users == t.users && r.members == t.members && r.revenue == t.revenue && r.nextId == t.nextId
    requires forall e :: e in r.engagement ==> HasMemberId(r.members, e.memberId)
    requires forall e :: e in r.engagement ==> HasUserId(r.users, r.engagement[e].userId)
    ensures Valid(r)
  {
    assert IdsBelow(r) && PrimaryKeysUnique(r);
  }

  lemma UpsertEngagementValid(t: Tables, key: EngagementKey, userId: Id, messageCount: int,
                              activityScore: int, engagementScore: int, lastActiveAt: Ms)
    requires Valid(t)
    requires HasMemberId(t.members, key.memberId) && HasUserId(t.users, userId)
    ensures Valid(UpsertEngagement(t, key, userId, messageCount, activityScore, engagementScore, lastActiveAt))
  {
    var r := UpsertEngagement(t, key, userId, messageCount, activityScore, engagementScore, lastActiveAt);
    var was := if key in t.engagement then t.engagement[key].userId else userId;
    assert HasUserId(t.users, was);
    EngagementRowValid(t, key, r.engagement[key]);
    assert r.engagement == t.engagement[key := r.engagement[key]];
  }

  /** Writing one engagement row whose member and user exist keeps the constraints. */
  lemma EngagementRowValid(t: Tables, key: EngagementKey, row: Engagement)
    requires Valid(t)
    requires HasMemberId(t.members, key.memberId) && HasUserId(t.users, row.userId)
    ensures Valid(t.(engagement := t.engagement[key := row]))
  {
    var r := t.(engagement := t.engagement[key := row]);
    forall e | e in r.engagement
      ensures HasMemberId(r.members, e.memberId) && HasUserId(r.users, r.engagement[e].userId)
    {
      if e != key {
        assert e in t.engagement && r.engagement[e] == t.engagement[e];
      }
    }
    EngagementChangesValid(t, r);
  }

  lemma RevenueWritesValid(t: Tables, id: Id, row: Revenue, mrr: Cents, activeMembers: int, totalRevenue: Cents)
    requires Valid(t)
    ensures id in t.revenue ==> Valid(UpdateRevenue(t, id, mrr, activeMembers, totalRevenue))
    ensures HasUserId(t.users, row.userId) ==> Valid(InsertRevenue(t, row))
  {
  }

  /**
   * Deleting a users row keeps the constraints, leaves no row that refers to it, and
   * keeps every row that neither refers to it nor to one of its members.
   */
  lemma DeleteUserCascades(t: Tables, id: Id)
    requires Valid(t)
    ensures var r := DeleteUser(t, id);
      && Valid(r)
      && !HasUserId(r.users, id)
      && (forall k :: k in r.members ==> r.members[k].userId != id)
      && (forall e :: e in r.engagement ==> r.engagement[e].userId != id && e.memberId !in MemberIdsOf(t.members, id))
      && (forall i :: i in r.revenue ==> r.revenue[i].userId != id)
      && (forall k :: k in t.members && t.members[k].userId != id ==> k in r.members && r.members[k] == t.members[k])
      && (forall i :: i in t.revenue && t.revenue[i].userId != id ==> i in r.revenue && r.revenue[i] == t.revenue[i])
      && (forall w :: w in t.users && t.users[w].id != id ==> w in r.users && r.users[w] == t.users[w])
      && (forall e :: e in t.engagement && t.engagement[e].userId != id && e.memberId !in MemberIdsOf(t.members, id) ==>
            e in r.engagement && r.engagement[e] == t.engagement[e])
  {
    DeleteUserKeys(t, id);
    DeleteUserForeignKeys(t, id);
  }

  lemma DeleteUserKeys(t: Tables, id: Id)
    requires Valid(t)
    ensures IdsBelow(DeleteUser(t, id)) && PrimaryKeysUnique(DeleteUser(t, id))
  {
  }

  lemma DeleteUserForeignKeys(t: Tables, id: Id)
    requires ForeignKeys(t)
    ensures ForeignKeys(DeleteUser(t, id))
  {
    var r := DeleteUser(t, id);
    forall k | k in r.members ensures HasUserId(r.users, r.members[k].userId) {
      var w :| w in t.users && t.users[w].id == t.members[k].userId;
      assert w in r.users;
    }
    DeleteUserEngagementKeys(t, id);
    forall i | i in r.revenue ensures HasUserId(r.users, r.revenue[i].userId) {
      var w :| w in t.users && t.users[w].id == t.revenue[i].userId;
      assert w in r.users;
    }
  }

  lemma DeleteUserEngagementKeys(t: Tables, id: Id)
    requires ForeignKeys(t)
    ensures forall e :: e in DeleteUser(t, id).engagement ==> HasMemberId(DeleteUser(t, id).members, e.memberId)
    ensures forall e :: e in DeleteUser(t, id).engagement ==>
              HasUserId(DeleteUser(t, id).users, DeleteUser(t, id).engagement[e].userId)
  {
    var r := DeleteUser(t, id);
    forall e | e in r.engagement ensures HasMemberId(r.members, e.memberId) {
      var k :| k in t.members && t.members[k].id == e.memberId;
      assert k in r.members;
    }
    forall e | e in r.engagement ensures HasUserId(r.users, r.engagement[e].userId) {
      var w :| w in t.users && t.users[w].id == t.engagement[e].userId;
      assert w in r.users;
    }
  }

  /** Deleting a members row keeps the constraints, removes only it and exactly its engagement rows, and keeps the rest. */
  lemma DeleteMemberCascades(t: Tables, whopMembershipId: string)
    requires Valid(t) && whopMembershipId in t.members
    ensures var r := DeleteMember(t, whopMembershipId);
      && Valid(r)
      && !HasMemberId(r.members, t.members[whopMembershipId].id)
      && (forall e :: e in t.engagement ==>
            (e in r.engagement <==> e.memberId != t.members[whopMembershipId].id))
      && (forall e :: e in r.engagement ==> e in t.engagement && r.engagement[e] == t.engagement[e])
      && r.members == t.members - {whopMembershipId}
      && r.users == t.users && r.revenue == t.revenue
  {
    DeleteMemberEngagementKeys(t, whopMembershipId);
  }

  lemma DeleteMemberEngagementKeys(t: Tables, whopMembershipId: string)
    requires ForeignKeys(t) && whopMembershipId in t.members
    ensures forall e :: e in DeleteMember(t, whopMembershipId).engagement ==>
              HasMemberId(DeleteMember(t, whopMembershipId).members, e.memberId)
  {
    var r := DeleteMember(t, whopMembershipId);
    forall e | e in r.engagement ensures HasMemberId(r.members, e.memberId) {
      var k :| k in t.members && t.members[k].id == e.memberId;
      assert k in r.members;
    }
  }
}
