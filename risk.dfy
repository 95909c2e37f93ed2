/**
 * The churn-risk report (`GET /api/analytics/risk`): the authenticated tenant's active
 * members whose last sign of activity is more than three days old, each classified as
 * medium or high risk, high risk first and, within a level, the larger renewal price
 * first.
 */
module Risk {
  import opened Wrappers
  import opened Schema
  import opened Store
  import Auth
  import Revenue

  const HighRiskDays: int := 14
  const MediumRiskDays: int := 3
  /** A member whose latest day has no messages is high risk after this many days. */
  const SilentHighRiskDays: int := 7
  const UnknownUsername: string := "Unknown"

  datatype RiskLevel = Low | Medium | High

  /** One element of `riskList`; `avatarUrl` is always "". */
  datatype RiskEntry = RiskEntry(
    memberId: string,
    username: string,
    email: string,
    avatarUrl: string,
    riskLevel: RiskLevel,
    daysInactive: int,
    renewalPrice: Cents,
    currency: string)

  datatype RiskResponse = Unauthorized | RiskList(entries: seq<RiskEntry>)

  // ---------------------------------------------------------------------------
  // Classifying one member.
  // ---------------------------------------------------------------------------

  /** The last time the member was seen: the latest day's `lastActiveAt`, else `joinedAt`, else the epoch. */
  function ReferenceTime(latest: Option<Engagement>, joinedAt: Option<Ms>): Ms {
    if latest.Some? && latest.value.lastActiveAt.Some? then latest.value.lastActiveAt.value
    else joinedAt.GetOr(0)
  }

  /** True when the latest engagement day exists and counted no message. */
  predicate SilentLatestDay(latest: Option<Engagement>) {
    latest.Some? && latest.value.messageCount == 0
  }

  /**
   * The risk level after `elapsed` milliseconds without activity; the thresholds compare
   * the exact (fractional) number of days, so "more than 14 days" is `elapsed > 14 * day`.
   */
  function LevelOf(elapsed: int, latest: Option<Engagement>): (l: RiskLevel)
    ensures l == High <==> elapsed > HighRiskDays * MsPerDay || (SilentLatestDay(latest) && elapsed > SilentHighRiskDays * MsPerDay)
    ensures l == Low <==> elapsed <= MediumRiskDays * MsPerDay
  {
    var base := if elapsed > HighRiskDays * MsPerDay then High
                else if elapsed > MediumRiskDays * MsPerDay then Medium
                else Low;
    if SilentLatestDay(latest) && elapsed > SilentHighRiskDays * MsPerDay then High else base
  }

  function Rank(l: RiskLevel): nat {
    match l
    case Low => 0
    case Medium => 1
    case High => 2
  }

  /** Longer inactivity never lowers the risk level. */
  lemma LevelMonotone(e1: int, e2: int, latest: Option<Engagement>)
    requires e1 <= e2
    ensures Rank(LevelOf(e1, latest)) <= Rank(LevelOf(e2, latest))
  {
  }

  /** `Math.floor` of the elapsed time in days. */
  function DaysInactive(elapsed: int): (d: int)
    ensures d * MsPerDay <= elapsed < (d + 1) * MsPerDay
  {
    elapsed / MsPerDay
  }

  /**
   * The entry of an active member, or None when it is low risk; `username` is that of
   * the member's users row ("" when it has none).
   */
  function Assess(member: Member, latest: Option<Engagement>, username: string, now: Ms): (r: Option<RiskEntry>)
    ensures r.Some? <==> now - ReferenceTime(latest, member.joinedAt) > MediumRiskDays * MsPerDay
    ensures r.Some? ==> r.value.riskLevel == LevelOf(now - ReferenceTime(latest, member.joinedAt), latest) != Low
    ensures r.Some? ==> r.value.daysInactive == DaysInactive(now - ReferenceTime(latest, member.joinedAt))
    ensures r.Some? ==> r.value.daysInactive >= MediumRiskDays
    ensures r.Some? ==> r.value.memberId == member.whopMemberId && r.value.renewalPrice == member.renewalPrice
    ensures r.Some? ==> r.value.currency == member.currency && r.value.email == member.email
    ensures r.Some? ==> r.value.username != "" && (username != "" ==> r.value.username == username)
    ensures r.Some? && username == "" ==> r.value.username == UnknownUsername
    ensures r.Some? ==> r.value.avatarUrl == ""
  {
    var elapsed := now - ReferenceTime(latest, member.joinedAt);
    var level := LevelOf(elapsed, latest);
    if level == Low then None
    else Some(RiskEntry(member.whopMemberId, OrElse(username, UnknownUsername), member.email, "",
                        level, DaysInactive(elapsed), member.renewalPrice, member.currency))
  }

  // ---------------------------------------------------------------------------
  // The report over the tables.
  // ---------------------------------------------------------------------------

  /** `e` is the engagement key of member `memberId` with the latest day. */
  ghost predicate IsLatest(engagement: map<EngagementKey, Engagement>, memberId: Id, e: EngagementKey) {
    && e in engagement && e.memberId == memberId
    && forall e' :: e' in engagement && e'.memberId == memberId ==> e'.date <= e.date
  }

  /** The latest engagement row of a member; the days of one member are distinct, so it is unique. */
  ghost function LatestRow(engagement: map<EngagementKey, Engagement>, memberId: Id): Option<Engagement> {
    if e :| IsLatest(engagement, memberId, e) then Some(engagement[e]) else None
  }

  lemma LatestUnique(engagement: map<EngagementKey, Engagement>, memberId: Id, e1: EngagementKey, e2: EngagementKey)
    requires IsLatest(engagement, memberId, e1) && IsLatest(engagement, memberId, e2)
    ensures e1 == e2
  {
  }

  /** The username of users row `id`, "" when there is none. */
  ghost function UsernameOf(users: map<string, User>, id: Id): string {
    if w :| w in users && users[w].id == id then users[w].username else ""
  }

  /** What member `k` contributes to the report. */
  ghost function EntryOf(t: Tables, k: string, now: Ms): Option<RiskEntry>
    requires k in t.members
  {
    var m := t.members[k];
    if m.status != Revenue.ActiveStatus then None
    else Assess(m, LatestRow(t.engagement, m.id), UsernameOf(t.users, m.userId), now)
  }

  /** The time member `k` has been inactive at `now`, measured from its reference time. */
  ghost function Elapsed(t: Tables, k: string, now: Ms): int
    requires k in t.members
  {
    now - ReferenceTime(LatestRow(t.engagement, t.members[k].id), t.members[k].joinedAt)
  }

  /**
   * Inactivity measured against the store: from the `lastActiveAt` of the member's
   * greatest-dated engagement row when that row records one, else from `joinedAt`.
   */
  lemma ElapsedFromStore(t: Tables, k: string, now: Ms)
    requires k in t.members
    ensures forall e :: IsLatest(t.engagement, t.members[k].id, e) && t.engagement[e].lastActiveAt.Some? ==>
              Elapsed(t, k, now) == now - t.engagement[e].lastActiveAt.value
    ensures (forall e :: IsLatest(t.engagement, t.members[k].id, e) ==> t.engagement[e].lastActiveAt.None?) ==>
              Elapsed(t, k, now) == now - t.members[k].joinedAt.GetOr(0)
  {
    var id := t.members[k].id;
    forall e | IsLatest(t.engagement, id, e)
      ensures LatestRow(t.engagement, id) == Some(t.engagement[e])
    {
      LatestRowFound(t.engagement, id, Some(e));
    }
  }

  /** The report before sorting: the entries of `ks`, in that order. */
  ghost function RiskRows(t: Tables, ks: seq<string>, now: Ms): seq<RiskEntry>
    requires forall i :: 0 <= i < |ks| ==> ks[i] in t.members
  {
    if ks == [] then []
    else
      var last := ks[|ks| - 1];
      RiskRows(t, ks[..|ks| - 1], now) + (match EntryOf(t, last, now) case Some(e) => [e] case None => [])
  }

  /** Every entry of the report comes from an active member of `ks`, and is not low risk. */
  lemma {:induction false} RiskRowsSound(t: Tables, ks: seq<string>, now: Ms, e: RiskEntry)
    requires forall i :: 0 <= i < |ks| ==> ks[i] in t.members
    requires e in RiskRows(t, ks, now)
    ensures exists i :: 0 <= i < |ks| && t.members[ks[i]].status == Revenue.ActiveStatus && EntryOf(t, ks[i], now) == Some(e)
    ensures exists i :: 0 <= i < |ks| && Inactive(t, ks[i], now, e)
    ensures e.riskLevel != Low
  {
    var init := ks[..|ks| - 1];
    var last := ks[|ks| - 1];
    if e in RiskRows(t, init, now) {
      RiskRowsSound(t, init, now, e);
      var i :| 0 <= i < |init| && t.members[init[i]].status == Revenue.ActiveStatus && EntryOf(t, init[i], now) == Some(e);
      assert ks[i] == init[i];
      EntryInactive(t, ks[i], now, e);
    } else {
      assert EntryOf(t, last, now) == Some(e);
      EntryInactive(t, last, now, e);
    }
  }

  /** A member's report entry tells how long it has been inactive. */
  lemma EntryInactive(t: Tables, k: string, now: Ms, e: RiskEntry)
    requires k in t.members && EntryOf(t, k, now) == Some(e)
    ensures Inactive(t, k, now, e)
  {
  }

  /**
   * Entry `e` is member `k`'s: `k` is active, `e` carries its whole days of inactivity
   * (at least 3), and its level is that of its inactivity.
   */
  ghost predicate Inactive(t: Tables, k: string, now: Ms, e: RiskEntry)
    requires k in t.members
  {
    && t.members[k].status == Revenue.ActiveStatus
    && e.memberId == t.members[k].whopMemberId
    && e.daysInactive == DaysInactive(Elapsed(t, k, now))
    && e.daysInactive >= MediumRiskDays
    && e.riskLevel == LevelOf(Elapsed(t, k, now), LatestRow(t.engagement, t.members[k].id))
  }

  /** Every active member of `ks` that is not low risk is in the report. */
  lemma {:induction false} RiskRowsComplete(t: Tables, ks: seq<string>, now: Ms, i: nat)
    requires forall j :: 0 <= j < |ks| ==> ks[j] in t.members
    requires i < |ks| && EntryOf(t, ks[i], now).Some?
    ensures EntryOf(t, ks[i], now).value in RiskRows(t, ks, now)
  {
    var init := ks[..|ks| - 1];
    if i < |ks| - 1 {
      assert init[i] == ks[i];
      RiskRowsComplete(t, init, now, i);
    }
  }

  // ---------------------------------------------------------------------------
  // Ordering.
  // ---------------------------------------------------------------------------

  /** The comparator passed to `riskList.sort`: negative when `a` goes first. */
  function Compare(a: RiskEntry, b: RiskEntry): int {
    if a.riskLevel == High && b.riskLevel != High then -1
    else if b.riskLevel == High && a.riskLevel != High then 1
    else b.renewalPrice - a.renewalPrice
  }

  /** `a` may precede `b` in the sorted list. */
  predicate Before(a: RiskEntry, b: RiskEntry) {
    Compare(a, b) <= 0
  }

  /** The comparator is consistent: antisymmetric, and `Before` is a total preorder. */
  lemma CompareConsistent(a: RiskEntry, b: RiskEntry, c: RiskEntry)
    ensures Compare(a, b) == -Compare(b, a)
    ensures Before(a, b) || Before(b, a)
    ensures Before(a, b) && Before(b, c) ==> Before(a, c)
  {
  }

  ghost predicate SortedByRisk(s: seq<RiskEntry>) {
    forall i, j :: 0 <= i < j < |s| ==> Before(s[i], s[j])
  }

  /** In a sorted report every high-risk entry precedes every other, and prices fall within a level. */
  lemma SortedMeaning(s: seq<RiskEntry>, i: nat, j: nat)
    requires SortedByRisk(s) && i < j < |s|
    ensures s[j].riskLevel == High ==> s[i].riskLevel == High
    ensures (s[i].riskLevel == High) == (s[j].riskLevel == High) ==> s[i].renewalPrice >= s[j].renewalPrice
  {
    assert Before(s[i], s[j]);
  }

  /** `riskList.sort(Compare)`, as an insertion sort that swaps an element left while it goes first. */
  method SortRiskList(a: array<RiskEntry>)
    modifies a
    ensures SortedByRisk(a[..])
    ensures multiset(a[..]) == multiset(old(a[..]))
  {
    if a.Length <= 1 {
      return;
    }
    var i := 1;
    while i < a.Length
      invariant 1 <= i <= a.Length
      invariant forall k, l :: 0 <= k < l < i ==> Before(a[k], a[l])
      invariant multiset(a[..]) == multiset(old(a[..]))
    {
      InsertAt(a, i);
      i := i + 1;
    }
  }

  /** One pass of the insertion sort: moves `a[i]` left into the sorted prefix `a[..i]`. */
  method InsertAt(a: array<RiskEntry>, i: nat)
    requires 1 <= i < a.Length
    requires forall k, l :: 0 <= k < l < i ==> Before(a[k], a[l])
    modifies a
    ensures forall k, l :: 0 <= k < l <= i ==> Before(a[k], a[l])
    ensures multiset(a[..]) == multiset(old(a[..]))
  {
    var j := i;
    assert SortedExcept(a[..], i, j);
    while j > 0 && Compare(a[j], a[j - 1]) < 0
      invariant 0 <= j <= i
      invariant SortedExcept(a[..], i, j)
      invariant multiset(a[..]) == multiset(old(a[..]))
    {
      ghost var s := a[..];
      a[j - 1], a[j] := a[j], a[j - 1];
      assert a[..] == s[j - 1 := s[j]][j := s[j - 1]];
      SwapStep(s, i, j);
      j := j - 1;
    }
    SortedExceptDone(a[..], i, j);
  }

  /** `s[..i + 1]` is ordered except for the pairs whose later element is `s[j]`. */
  ghost predicate SortedExcept(s: seq<RiskEntry>, i: nat, j: nat)
    requires i < |s|
  {
    forall k, l :: 0 <= k < l <= i && l != j ==> Before(s[k], s[l])
  }

  /** Swapping `s[j]` left past an element it goes before keeps the prefix ordered except at `j - 1`. */
  lemma SwapStep(s: seq<RiskEntry>, i: nat, j: nat)
    requires 0 < j <= i < |s| && SortedExcept(s, i, j) && Compare(s[j], s[j - 1]) < 0
    ensures SortedExcept(s[j - 1 := s[j]][j := s[j - 1]], i, j - 1)
    ensures multiset(s[j - 1 := s[j]][j := s[j - 1]]) == multiset(s)
  {
    var s' := s[j - 1 := s[j]][j := s[j - 1]];
    forall k, l | 0 <= k < l <= i && l != j - 1 ensures Before(s'[k], s'[l]) {
      if l == j {
        if k == j - 1 {
          CompareConsistent(s[j], s[j - 1], s[j - 1]);
        } else {
          assert s'[k] == s[k] && s'[l] == s[j - 1];
        }
      } else if k == j - 1 {
        assert s'[k] == s[j] && s'[l] == s[l];
      } else if k == j {
        assert s'[k] == s[j - 1] && s'[l] == s[l];
      }
    }
  }

  /** When `s[j]` does not go before `s[j - 1]`, the whole prefix `s[..i + 1]` is ordered. */
  lemma SortedExceptDone(s: seq<RiskEntry>, i: nat, j: nat)
    requires j <= i < |s| && SortedExcept(s, i, j)
    requires j > 0 ==> Compare(s[j], s[j - 1]) >= 0
    ensures forall k, l :: 0 <= k < l <= i ==> Before(s[k], s[l])
  {
    forall k, l | 0 <= k < l <= i ensures Before(s[k], s[l]) {
      if l == j {
        CompareConsistent(s[j - 1], s[j], s[j]);
        if k < j - 1 {
          CompareConsistent(s[k], s[j - 1], s[j]);
        }
      }
    }
  }

  // ---------------------------------------------------------------------------
  // The route.
  // ---------------------------------------------------------------------------

  /** The row `LatestEngagement` found is the one `LatestRow` names. */
  lemma LatestRowFound(engagement: map<EngagementKey, Engagement>, memberId: Id, key: Option<EngagementKey>)
    requires key.Some? ==> IsLatest(engagement, memberId, key.value)
    requires key.None? ==> forall e :: e in engagement ==> e.memberId != memberId
    ensures LatestRow(engagement, memberId) == (if key.Some? then Some(engagement[key.value]) else None)
  {
    if e :| IsLatest(engagement, memberId, e) {
      LatestUnique(engagement, memberId, e, key.value);
    }
  }

  /** The loop of the route over the selected members rows. */
  method BuildRiskRows(db: Db, ks: seq<string>, now: Ms) returns (list: seq<RiskEntry>)
    requires db.Valid()
    requires forall i :: 0 <= i < |ks| ==> ks[i] in db.members
    ensures list == RiskRows(db.State(), ks, now)
  {
    list := [];
    for i := 0 to |ks|
      invariant list == RiskRows(db.State(), ks[..i], now)
    {
      assert ks[..i + 1][..i] == ks[..i];
      var e := AssessMember(db, ks[i], now);
      if e.Some? {
        list := list + [e.value];
      }
    }
    assert ks[..|ks|] == ks;
  }

  /** The loop body of the route for members row `k`. */
  method AssessMember(db: Db, k: string, now: Ms) returns (e: Option<RiskEntry>)
    requires db.Valid() && k in db.members
    ensures e == EntryOf(db.State(), k, now)
  {
    var m := db.members[k];
    if m.status != Revenue.ActiveStatus {
      return None;
    }
    var key := db.LatestEngagement(m.id);
    LatestRowFound(db.engagement, m.id, key);
    var latest := if key.Some? then Some(db.engagement[key.value]) else None;
    var uk := db.UserById(m.userId);
    var username := if uk.Some? then db.users[uk.value].username else "";
    assert username == UsernameOf(db.users, m.userId);
    e := Assess(m, latest, username, now);
  }

  /**
   * GET: 401 without an identity; otherwise the report over the identity's members rows,
   * sorted.  `scanned` is the order in which the query returned those rows.
   */
  method GetRisk(db: Db, user: Option<Auth.Identity>, now: Ms) returns (resp: RiskResponse, ghost scanned: seq<string>)
    requires db.Valid()
    ensures user.None? <==> resp.Unauthorized?
    ensures user.Some? ==> forall k :: k in scanned <==> k in db.members && db.members[k].userId == user.value.id
    ensures user.Some? ==> forall i, j :: 0 <= i < j < |scanned| ==> scanned[i] != scanned[j]
    ensures resp.RiskList? ==>
              && SortedByRisk(resp.entries)
              && multiset(resp.entries) == multiset(RiskRows(db.State(), scanned, now))
    ensures resp.RiskList? ==>
              forall e :: e in resp.entries ==> e.riskLevel != Low && exists i :: 0 <= i < |scanned| && Inactive(db.State(), scanned[i], now, e)
  {
    scanned := [];
    if user.None? {
      return Unauthorized, scanned;
    }
    var id := user.value.id;
    var ks := db.SelectMembers((m: Member) => m.userId == id);
    scanned := ks;
    var list := BuildRiskRows(db, ks, now);
    var arr := new RiskEntry[|list|](j requires 0 <= j < |list| => list[j]);
    assert arr[..] == list;
    SortRiskList(arr);
    resp := RiskList(arr[..]);
    forall e | e in resp.entries
      ensures e.riskLevel != Low && exists i :: 0 <= i < |scanned| && Inactive(db.State(), scanned[i], now, e)
    {
      assert e in multiset(list);
      RiskRowsSound(db.State(), ks, now, e);
    }
  }
}
