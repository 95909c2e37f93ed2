/**
 * The database handle `db` as the core uses it: one object holding the four tables,
 * with one method per kind of statement the core issues.  Every write is stated as
 * the corresponding statement of module Schema applied to the old tables, and keeps
 * the store's constraints.  Queries without an ORDER BY may return any matching row;
 * those methods choose one and say only that it matches.
 */
module Store {
  import opened Wrappers
  import opened Schema

  class Db {
    var users: map<string, User>
    var members: map<string, Member>
    var engagement: map<EngagementKey, Engagement>
    var revenue: map<Id, Revenue>
    var nextId: Id

    function State(): Tables
      reads this
    {
      Tables(users, members, engagement, revenue, nextId)
    }

    ghost predicate Valid()
      reads this
    {
      Schema.Valid(State())
    }

    constructor ()
      ensures Valid() && State() == EmptyTables()
    {
      users, members, engagement, revenue, nextId := map[], map[], map[], map[], 0;
    }

    /** Replaces the five fields by those of `t`. */
    method Store(t: Tables)
      modifies this
      ensures State() == t
    {
      users, members, engagement, revenue, nextId := t.users, t.members, t.engagement, t.revenue, t.nextId;
    }

    /** `findFirst` on the unique key `whop_user_id`. */
    method FindUser(whopUserId: string) returns (u: Option<User>)
      ensures u.Some? <==> whopUserId in users
      ensures u.Some? ==> u.value == users[whopUserId]
    {
      u := if whopUserId in users then Some(users[whopUserId]) else None;
    }

    /** `findFirst` by `whop_company_id`, which is not unique: any matching row. */
    method FindUserByCompany(whopCompanyId: string) returns (k: Option<string>)
      ensures k.Some? ==> k.value in users && users[k.value].whopCompanyId == whopCompanyId
      ensures k.None? ==> forall w :: w in users ==> users[w].whopCompanyId != whopCompanyId
    {
      if w :| w in users && users[w].whopCompanyId == whopCompanyId {
        k := Some(w);
      } else {
        k := None;
      }
    }

    /** The users row with primary key `id` (the `user` relation of a members row). */
    method UserById(id: Id) returns (k: Option<string>)
      requires Valid()
      ensures k.Some? ==> k.value in users && users[k.value].id == id
      ensures k.None? ==> !HasUserId(users, id)
    {
      if w :| w in users && users[w].id == id {
        k := Some(w);
      } else {
        k := None;
      }
    }

    /** The first element of the `members` relation of users row `id`: any of them. */
    method FirstMemberOf(id: Id) returns (k: Option<string>)
      ensures k.Some? ==> k.value in members && members[k.value].userId == id
      ensures k.None? ==> forall x :: x in members ==> members[x].userId != id
    {
      if x :| x in members && members[x].userId == id {
        k := Some(x);
      } else {
        k := None;
      }
    }

    /** `findMany` over members with a filter: the keys of the matching rows, each once, in any order. */
    method SelectMembers(p: Member -> bool) returns (ks: seq<string>)
      ensures forall i, j :: 0 <= i < j < |ks| ==> ks[i] != ks[j]
      ensures forall k :: k in ks <==> k in members && p(members[k])
    {
      ks := [];
      var rest := members.Keys;
      while rest != {}
        invariant rest <= members.Keys
        invariant forall i, j :: 0 <= i < j < |ks| ==> ks[i] != ks[j]
        invariant forall k :: k in ks <==> k in members && k !in rest && p(members[k])
        decreases rest
      {
        var k :| k in rest;
        if p(members[k]) {
          ks := ks + [k];
        }
        rest := rest - {k};
      }
    }

    /** `findFirst` on engagement rows of a member `orderBy desc(date)`: the latest day, if any. */
    method LatestEngagement(memberId: Id) returns (key: Option<EngagementKey>)
      ensures key.Some? ==> key.value in engagement && key.value.memberId == memberId
      ensures key.Some? ==> forall e :: e in engagement && e.memberId == memberId ==> e.date <= key.value.date
      ensures key.None? ==> forall e :: e in engagement ==> e.memberId != memberId
    {
      key := None;
      var rest := engagement.Keys;
      while rest != {}
        invariant rest <= engagement.Keys
        invariant key.Some? ==> key.value in engagement && key.value.memberId == memberId
        invariant key.Some? ==> forall e :: e in engagement && e !in rest && e.memberId == memberId ==> e.date <= key.value.date
        invariant key.None? ==> forall e :: e in engagement && e !in rest ==> e.memberId != memberId
        decreases rest
      {
        var e :| e in rest;
        if e.memberId == memberId && (key.None? || key.value.date < e.date) {
          key := Some(e);
        }
        rest := rest - {e};
      }
    }

    /** `findFirst` on revenue rows by (user_id, date), which is not unique: any matching row. */
    method FindRevenue(userId: Id, date: Day) returns (id: Option<Id>)
      ensures id.Some? ==> id.value in revenue && revenue[id.value].userId == userId && revenue[id.value].date == date
      ensures id.None? ==> forall i :: i in revenue ==> !(revenue[i].userId == userId && revenue[i].date == date)
    {
      if i :| i in revenue && revenue[i].userId == userId && revenue[i].date == date {
        id := Some(i);
      } else {
        id := None;
      }
    }

    method UpsertUser(whopUserId: string, whopCompanyId: string, email: string, username: string)
      requires Valid()
      modifies this
      ensures Valid()
      ensures State() == Schema.UpsertUser(old(State()), whopUserId, whopCompanyId, email, username)
    {
      UpsertUserValid(State(), whopUserId, whopCompanyId, email, username);
      Store(Schema.UpsertUser(State(), whopUserId, whopCompanyId, email, username));
    }

    /** A plain insert; `ok` is false, and nothing changes, on a unique violation. */
    method InsertUser(whopUserId: string, row: User) returns (ok: bool)
      requires Valid()
      modifies this
      ensures Valid()
      ensures ok == (whopUserId !in old(users))
      ensures ok ==> State() == Schema.InsertUser(old(State()), whopUserId, row).value
      ensures !ok ==> State() == old(State())
    {
      InsertUserValid(State(), whopUserId, row);
      var r := Schema.InsertUser(State(), whopUserId, row);
      ok := r.Some?;
      if ok {
        Store(r.value);
      }
    }

    method UpsertMember(whopMembershipId: string, row: Member)
      requires Valid() && HasUserId(users, row.userId)
      modifies this
      ensures Valid()
      ensures State() == Schema.UpsertMember(old(State()), whopMembershipId, row)
    {
      UpsertMemberValid(State(), whopMembershipId, row);
      Store(Schema.UpsertMember(State(), whopMembershipId, row));
    }

    method UpsertEngagement(key: EngagementKey, userId: Id, messageCount: int,
                            activityScore: int, engagementScore: int, lastActiveAt: Ms)
      requires Valid() && HasMemberId(members, key.memberId) && HasUserId(users, userId)
      modifies this
      ensures Valid()
      ensures State() == Schema.UpsertEngagement(old(State()), key, userId, messageCount,
                                                 activityScore, engagementScore, lastActiveAt)
    {
      UpsertEngagementValid(State(), key, userId, messageCount, activityScore, engagementScore, lastActiveAt);
      Store(Schema.UpsertEngagement(State(), key, userId, messageCount, activityScore, engagementScore, lastActiveAt));
    }

    method UpdateRevenue(id: Id, mrr: Cents, activeMembers: int, totalRevenue: Cents)
      requires Valid() && id in revenue
      modifies this
      ensures Valid()
      ensures State() == Schema.UpdateRevenue(old(State()), id, mrr, activeMembers, totalRevenue)
    {
      RevenueWritesValid(State(), id, Revenue(0, 0, 0, 0, 0), mrr, activeMembers, totalRevenue);
      Store(Schema.UpdateRevenue(State(), id, mrr, activeMembers, totalRevenue));
    }

    /** A plain insert; `ok` is false, and nothing changes, when `row.userId` names no users row. */
    method InsertRevenue(row: Revenue) returns (ok: bool)
      requires Valid()
      modifies this
      ensures Valid()
      ensures ok == HasUserId(old(users), row.userId)
      ensures ok ==> State() == Schema.InsertRevenue(old(State()), row)
      ensures !ok ==> State() == old(State())
    {
      RevenueWritesValid(State(), 0, row, 0, 0, 0);
      ok := exists w :: w in users && users[w].id == row.userId;
      if ok {
        Store(Schema.InsertRevenue(State(), row));
      }
    }
  }
}
