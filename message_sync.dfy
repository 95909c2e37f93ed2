/**
 * `WhopSync.syncRecentMessages` and `calculateEngagementScore`: today's messages in the
 * first channels of the company are counted per platform user, and each counted user
 * with a users row and at least one members row gets that member's engagement row for
 * today upserted with the count and a score.
 *
 * The remote calls are inputs: the channel listing, and for each channel what its
 * message listing answers (the messages, or the HTTP status it failed with).
 */
module MessageSync {
  import opened Wrappers
  import opened Schema
  import opened Store
  import opened MemberSync

  /** `chatChannels.list({first: 20})`, of which the first 5 are scanned. */
  const ChannelsPageSize: nat := 20
  const MaxChannelsToScan: nat := 5
  /** `messages.list({first: 100})` per channel. */
  const MessagesPerChannel: nat := 100

  /** A message: its author's platform user id, if any, and its time; None when not a valid date. */
  datatype Message = Message(user: Option<string>, createdAt: Option<Ms>)
  /** What a channel's message listing answers: its messages, or a failure (429 for a rate limit). */
  datatype ChannelFetch = FetchFailed(status: int) | Fetched(messages: seq<Message>)
  datatype Channel = Channel(id: string, fetch: ChannelFetch)
  datatype ChannelListing = ChannelsFailed | Channels(data: seq<Channel>)

  // ---------------------------------------------------------------------------
  // The engagement score.
  // ---------------------------------------------------------------------------

  /** The tenure part of the score: 50 in the first week, 30 up to the 30th day, then 50 again. */
  function LoyaltyScore(joinedAt: Ms, now: Ms): int {
    var tenure := now - joinedAt;
    if tenure < 7 * MsPerDay then 50
    else if tenure < 30 * MsPerDay then 30
    else 50
  }

  /** `calculateEngagementScore(messagesSent, joinedAt)` at time `now`. */
  function EngagementScore(messagesSent: nat, joinedAt: Ms, now: Ms): int {
    var msgScore := if messagesSent * 5 > 50 then 50 else messagesSent * 5;
    var loyalty := LoyaltyScore(joinedAt, now);
    if messagesSent == 0 then 0
    else if msgScore + loyalty < 100 then msgScore + loyalty else 100
  }

  /**
   * No message gives 0 whatever the tenure; otherwise the score is
   * min(100, min(50, 5 n) + loyalty), so it lies between 35 and 100.
   */
  lemma EngagementScoreSpec(messagesSent: nat, joinedAt: Ms, now: Ms)
    ensures messagesSent == 0 ==> EngagementScore(messagesSent, joinedAt, now) == 0
    ensures messagesSent > 0 ==>
      var capped := if 5 * messagesSent < 50 then 5 * messagesSent else 50;
      EngagementScore(messagesSent, joinedAt, now) ==
        if capped + LoyaltyScore(joinedAt, now) < 100 then capped + LoyaltyScore(joinedAt, now) else 100
    ensures messagesSent > 0 ==> 35 <= EngagementScore(messagesSent, joinedAt, now) <= 100
    ensures LoyaltyScore(joinedAt, now) == 30 <==> 7 * MsPerDay <= now - joinedAt < 30 * MsPerDay
  {
  }

  /** More messages never lower the score. */
  lemma EngagementScoreMonotone(n: nat, n': nat, joinedAt: Ms, now: Ms)
    requires n <= n'
    ensures EngagementScore(n, joinedAt, now) <= EngagementScore(n', joinedAt, now)
  {
  }

  /**
   * The score is not monotone in tenure: for the same positive count, a member in
   * days 7 to 29 scores strictly less than one in the first week or from day 30 on.
   */
  lemma EngagementScoreTenureDip(n: nat, joinedAt: Ms, joinedAt': Ms, now: Ms)
    requires n > 0
    requires 7 * MsPerDay <= now - joinedAt < 30 * MsPerDay
    requires !(7 * MsPerDay <= now - joinedAt' < 30 * MsPerDay)
    ensures EngagementScore(n, joinedAt, now) == EngagementScore(n, joinedAt', now) - 20
  {
  }

  // ---------------------------------------------------------------------------
  // Counting today's messages.
  // ---------------------------------------------------------------------------

  /** The index of the first message whose date is not valid (where the scan of the channel throws), or the length. */
  function FirstInvalid(msgs: seq<Message>): nat
    ensures FirstInvalid(msgs) <= |msgs|
  {
    if msgs == [] then 0
    else if msgs[0].createdAt.None? then 0
    else 1 + FirstInvalid(msgs[1..])
  }

  lemma {:induction false} FirstInvalidSpec(msgs: seq<Message>)
    ensures forall j :: 0 <= j < FirstInvalid(msgs) ==> msgs[j].createdAt.Some?
    ensures FirstInvalid(msgs) < |msgs| ==> msgs[FirstInvalid(msgs)].createdAt.None?
  {
    if msgs != [] && msgs[0].createdAt.Some? {
      FirstInvalidSpec(msgs[1..]);
      forall j | 0 <= j < FirstInvalid(msgs) ensures msgs[j].createdAt.Some? {
        if j > 0 {
          assert msgs[j] == msgs[1..][j - 1];
        }
      }
    }
  }

  /** Whether a message counts: it has a user and its UTC date is `today`. */
  function Hit(m: Message, today: Day): seq<string> {
    if m.user.Some? && m.createdAt.Some? && DayOf(m.createdAt.value) == today then [m.user.value] else []
  }

  /** The users of the counted messages of `msgs`, in order, one entry per message. */
  function Hits(msgs: seq<Message>, today: Day): seq<string>
    decreases |msgs|
  {
    if msgs == [] then [] else Hits(msgs[..|msgs| - 1], today) + Hit(msgs[|msgs| - 1], today)
  }

  /**
   * What one channel contributes: nothing when the fetch fails; otherwise the counted
   * messages of its first page up to the first message whose date throws.
   */
  function ChannelHits(c: Channel, today: Day): seq<string> {
    match c.fetch
    case FetchFailed(_) => []
    case Fetched(ms) =>
      var msgs := Take(ms, MessagesPerChannel);
      Hits(msgs[..FirstInvalid(msgs)], today)
  }

  function ScanHits(channels: seq<Channel>, today: Day): seq<string>
    decreases |channels|
  {
    if channels == [] then []
    else ScanHits(channels[..|channels| - 1], today) + ChannelHits(channels[|channels| - 1], today)
  }

  /** The `dailyActivity` dictionary the increments `d[u] = (d[u] || 0) + 1` build from `s`. */
  function Counts(s: seq<string>): map<string, nat>
    decreases |s|
  {
    if s == [] then map[]
    else
      var d := Counts(s[..|s| - 1]);
      var u := s[|s| - 1];
      d[u := (if u in d then d[u] else 0) + 1]
  }

  /** The dictionary holds exactly the users that occur, each with its number of occurrences. */
  lemma {:induction false} CountsSpec(s: seq<string>)
    ensures forall u :: u in Counts(s) <==> u in s
    ensures forall u :: u in Counts(s) ==> Counts(s)[u] == multiset(s)[u] && Counts(s)[u] >= 1
    decreases |s|
  {
    if s != [] {
      var pre := s[..|s| - 1];
      CountsSpec(pre);
      assert s == pre + [s[|s| - 1]];
    }
  }

  /** Message `m` counts for user `u`. */
  predicate IsHitFor(m: Message, today: Day, u: string) {
    m.user == Some(u) && m.createdAt.Some? && DayOf(m.createdAt.value) == today
  }

  /** The positions of the messages of `msgs` that count for `u`. */
  function HitSet(msgs: seq<Message>, today: Day, u: string): set<nat> {
    set i | 0 <= i < |msgs| && IsHitFor(msgs[i], today, u)
  }

  lemma HitOne(m: Message, today: Day, u: string)
    ensures multiset(Hit(m, today))[u] == if IsHitFor(m, today, u) then 1 else 0
  {
  }

  lemma HitSetSnoc(msgs: seq<Message>, today: Day, u: string)
    requires msgs != []
    ensures HitSet(msgs, today, u) ==
      HitSet(msgs[..|msgs| - 1], today, u) + (if IsHitFor(msgs[|msgs| - 1], today, u) then {|msgs| - 1} else {})
  {
    var pre := msgs[..|msgs| - 1];
    assert forall i :: 0 <= i < |pre| ==> pre[i] == msgs[i];
  }

  /** The number of entries for `u` is the number of messages of `u` dated today. */
  lemma {:induction false} HitsSpec(msgs: seq<Message>, today: Day, u: string)
    ensures multiset(Hits(msgs, today))[u] == |HitSet(msgs, today, u)|
    decreases |msgs|
  {
    if msgs != [] {
      var n := |msgs| - 1;
      var pre := msgs[..n];
      HitsSpec(pre, today, u);
      HitSetSnoc(msgs, today, u);
      HitOne(msgs[n], today, u);
      assert multiset(Hits(msgs, today)) == multiset(Hits(pre, today)) + multiset(Hit(msgs[n], today));
      assert n !in HitSet(pre, today, u);
    } else {
      assert HitSet(msgs, today, u) == {};
    }
  }

  /** A channel whose fetch fails contributes nothing, and the others are still scanned. */
  lemma {:induction false} ScanHitsSkipsFailed(channels: seq<Channel>, today: Day)
    ensures ScanHits(channels, today) == ScanHits(Reachable(channels), today)
    decreases |channels|
  {
    if channels != [] {
      var pre := channels[..|channels| - 1];
      ScanHitsSkipsFailed(pre, today);
      var c := channels[|channels| - 1];
      if c.fetch.Fetched? {
        assert Reachable(channels) == Reachable(pre) + [c];
        assert Reachable(channels)[..|Reachable(channels)| - 1] == Reachable(pre);
      }
    }
  }

  /** The channels whose fetch succeeded, in order. */
  function Reachable(channels: seq<Channel>): seq<Channel>
    decreases |channels|
  {
    if channels == [] then []
    else
      var rest := Reachable(channels[..|channels| - 1]);
      if channels[|channels| - 1].fetch.Fetched? then rest + [channels[|channels| - 1]] else rest
  }

  /** The channels scanned: at most the first 5 of the first page of 20. */
  function ScannedChannels(data: seq<Channel>): seq<Channel> {
    Take(Take(data, ChannelsPageSize), MaxChannelsToScan)
  }

  /** Only the first five listed channels matter. */
  lemma ScannedChannelsAreFirstFive(data: seq<Channel>)
    ensures |ScannedChannels(data)| <= MaxChannelsToScan
    ensures ScannedChannels(data) == data[..if |data| < MaxChannelsToScan then |data| else MaxChannelsToScan]
  {
  }

  /** The `dailyActivity` dictionary after step 2: counts of today's messages per user. */
  function DailyActivity(data: seq<Channel>, today: Day): map<string, nat> {
    Counts(ScanHits(ScannedChannels(data), today))
  }

  /** `d[u] = (d[u] || 0) + 1` keeps `d` the counts of the users seen. */
  lemma CountsSnoc(s: seq<string>, u: string)
    ensures Counts(s + [u]) == Counts(s)[u := (if u in Counts(s) then Counts(s)[u] else 0) + 1]
  {
    assert (s + [u])[..|s|] == s;
  }

  /** The counting loops of step 2 over the scanned channels. */
  method CountMessages(channels: seq<Channel>, today: Day) returns (daily: map<string, nat>)
    ensures daily == Counts(ScanHits(channels, today))
  {
    daily := map[];
    ghost var hits: seq<string> := [];
    for c := 0 to |channels|
      invariant hits == ScanHits(channels[..c], today)
      invariant daily == Counts(hits)
    {
      ScanHitsSnoc(channels, c, today);
      match channels[c].fetch {
        case FetchFailed(_) =>
        case Fetched(ms) =>
          daily, hits := CountChannel(Take(ms, MessagesPerChannel), today, daily, hits);
      }
    }
    assert channels[..|channels|] == channels;
  }

  /** The inner loop over one channel's messages; it stops at the first message without a date. */
  method CountChannel(msgs: seq<Message>, today: Day, daily0: map<string, nat>, ghost hits0: seq<string>)
    returns (daily: map<string, nat>, ghost hits: seq<string>)
    requires daily0 == Counts(hits0)
    ensures hits == hits0 + Hits(msgs[..FirstInvalid(msgs)], today)
    ensures daily == Counts(hits0 + Hits(msgs[..FirstInvalid(msgs)], today))
  {
    daily, hits := daily0, hits0;
    FirstInvalidSpec(msgs);
    var i := 0;
    while i < |msgs|
      invariant 0 <= i <= FirstInvalid(msgs)
      invariant hits == hits0 + Hits(msgs[..i], today)
      invariant daily == Counts(hits)
    {
      var m := msgs[i];
      if m.createdAt.None? {
        break;
      }
      HitsSnoc(msgs, i, today);
      if DayOf(m.createdAt.value) == today && m.user.Some? {
        CountsSnoc(hits, m.user.value);
        daily := daily[m.user.value := (if m.user.value in daily then daily[m.user.value] else 0) + 1];
        hits := hits + [m.user.value];
      }
      i := i + 1;
    }
  }

  lemma ScanHitsSnoc(channels: seq<Channel>, c: nat, today: Day)
    requires c < |channels|
    ensures ScanHits(channels[..c + 1], today) == ScanHits(channels[..c], today) + ChannelHits(channels[c], today)
  {
    assert channels[..c + 1][..c] == channels[..c];
  }

  lemma HitsSnoc(msgs: seq<Message>, i: nat, today: Day)
    requires i < |msgs|
    ensures Hits(msgs[..i + 1], today) == Hits(msgs[..i], today) + Hit(msgs[i], today)
  {
    assert msgs[..i + 1][..i] == msgs[..i];
  }

  // ---------------------------------------------------------------------------
  // The engagement upserts.
  // ---------------------------------------------------------------------------

  /** Some members row belongs to users row `id` (`dbUser.members[0]` exists). */
  ghost predicate HasMembers(members: map<string, Member>, id: Id) {
    exists x :: x in members && members[x].userId == id
  }

  /**
   * `picked` records, for each user of `order` that has a users row with members, the
   * members row the query returned first: each user of `order` with a members row is
   * picked, and each pick is one of that user's members.
   */
  ghost predicate ValidPicks(t: Tables, daily: map<string, nat>, order: seq<string>, picked: map<string, string>) {
    && (forall u :: u in picked ==> u in order)
    && (forall i :: 0 <= i < |order| ==> order[i] in daily)
    && (forall i :: 0 <= i < |order| ==>
          (order[i] in picked <==> order[i] in t.users && HasMembers(t.members, t.users[order[i]].id)))
    && (forall u :: u in picked ==> u in t.users && picked[u] in t.members && t.members[picked[u]].userId == t.users[u].id)
  }

  /** The engagement key a picked user's row is written under. */
  function KeyOf(t: Tables, picked: map<string, string>, u: string, today: Day): EngagementKey
    requires u in picked && picked[u] in t.members
  {
    EngagementKey(t.members[picked[u]].id, today)
  }

  /** The score of a picked user: from the member's join time, or `now` when it is unset. */
  function ScoreOf(t: Tables, daily: map<string, nat>, picked: map<string, string>, u: string, now: Ms): int
    requires u in picked && picked[u] in t.members && u in daily
  {
    EngagementScore(daily[u], t.members[picked[u]].joinedAt.GetOr(now), now)
  }

  /** The tables after the body of step 3 for user `u`. */
  function EngagementStep(t: Tables, daily: map<string, nat>, picked: map<string, string>, u: string, now: Ms): Tables {
    if u in picked && u in t.users && picked[u] in t.members && u in daily then
      UpsertEngagement(t, KeyOf(t, picked, u, DayOf(now)), t.users[u].id, daily[u], daily[u],
                       ScoreOf(t, daily, picked, u, now), now)
    else t
  }

  /** The tables after step 3 has handled the users of `order`, in that order. */
  function EngagementFold(t: Tables, daily: map<string, nat>, order: seq<string>, picked: map<string, string>, now: Ms): Tables
    decreases |order|
  {
    if order == [] then t
    else EngagementStep(EngagementFold(t, daily, order[..|order| - 1], picked, now), daily, picked, order[|order| - 1], now)
  }

  /** The fold reads `picked` only at the users of `order`. */
  lemma {:induction false} EngagementFoldSamePicks(t: Tables, daily: map<string, nat>, order: seq<string>,
                                                   picked: map<string, string>, picked': map<string, string>, now: Ms)
    requires forall i :: 0 <= i < |order| ==> (order[i] in picked <==> order[i] in picked')
    requires forall i :: 0 <= i < |order| && order[i] in picked ==> picked[order[i]] == picked'[order[i]]
    ensures EngagementFold(t, daily, order, picked, now) == EngagementFold(t, daily, order, picked', now)
    decreases |order|
  {
    if order != [] {
      var pre := order[..|order| - 1];
      assert forall i :: 0 <= i < |pre| ==> pre[i] == order[i];
      EngagementFoldSamePicks(t, daily, pre, picked, picked', now);
    }
  }

  /** The engagement keys step 3 writes: today's key of the picked members row of each picked user. */
  function WrittenKeys(t: Tables, order: seq<string>, picked: map<string, string>, today: Day): set<EngagementKey> {
    set i | 0 <= i < |order| && order[i] in picked && picked[order[i]] in t.members :: KeyOf(t, picked, order[i], today)
  }

  /**
   * Step 3 writes only engagement rows: users, members and revenue are untouched, no
   * row is removed, the new keys are exactly today's keys of the picked members rows,
   * and every row under another key keeps its values.
   */
  lemma {:induction false} EngagementFoldFrame(t: Tables, daily: map<string, nat>, order: seq<string>,
                                               picked: map<string, string>, now: Ms)
    ensures var r := EngagementFold(t, daily, order, picked, now);
      && r.users == t.users && r.members == t.members && r.revenue == t.revenue && r.nextId == t.nextId
      && r.engagement.Keys <= t.engagement.Keys + WrittenKeys(t, order, picked, DayOf(now))
      && t.engagement.Keys <= r.engagement.Keys
      && (forall e :: e in t.engagement && e !in WrittenKeys(t, order, picked, DayOf(now)) ==> r.engagement[e] == t.engagement[e])
    decreases |order|
  {
    if order != [] {
      var n := |order| - 1;
      var pre := order[..n];
      var u := order[n];
      EngagementFoldFrame(t, daily, pre, picked, now);
      var r0 := EngagementFold(t, daily, pre, picked, now);
      assert EngagementFold(t, daily, order, picked, now) == EngagementStep(r0, daily, picked, u, now);
      EngagementStepFrame(r0, daily, picked, u, now);
      WrittenKeysSnoc(t, order, picked, DayOf(now));
    }
  }

  /** One step writes at most today's key of its user's pick. */
  lemma EngagementStepFrame(t: Tables, daily: map<string, nat>, picked: map<string, string>, u: string, now: Ms)
    ensures var r := EngagementStep(t, daily, picked, u, now);
      && r.users == t.users && r.members == t.members && r.revenue == t.revenue && r.nextId == t.nextId
      && r.engagement.Keys <= t.engagement.Keys +
           (if u in picked && picked[u] in t.members then {KeyOf(t, picked, u, DayOf(now))} else {})
      && t.engagement.Keys <= r.engagement.Keys
      && (forall e :: e in t.engagement && !(u in picked && picked[u] in t.members && e == KeyOf(t, picked, u, DayOf(now))) ==>
            r.engagement[e] == t.engagement[e])
  {
  }

  lemma WrittenKeysSnoc(t: Tables, order: seq<string>, picked: map<string, string>, today: Day)
    requires order != []
    ensures var u := order[|order| - 1];
      WrittenKeys(t, order, picked, today) ==
        WrittenKeys(t, order[..|order| - 1], picked, today) +
        (if u in picked && picked[u] in t.members then {KeyOf(t, picked, u, today)} else {})
  {
    var n := |order| - 1;
    var pre := order[..n];
    var u := order[n];
    assert forall i :: 0 <= i < n ==> pre[i] == order[i];
    forall e | e in WrittenKeys(t, order, picked, today)
      ensures e in WrittenKeys(t, pre, picked, today) ||
              (u in picked && picked[u] in t.members && e == KeyOf(t, picked, u, today))
    {
      var i :| 0 <= i < |order| && order[i] in picked && picked[order[i]] in t.members &&
               e == KeyOf(t, picked, order[i], today);
      if i < n {
        assert pre[i] == order[i];
      }
    }
  }

  /** The fold over `order + [u]` is one more step on the fold over `order`. */
  lemma EngagementFoldSnoc(t: Tables, daily: map<string, nat>, order: seq<string>, picked: map<string, string>,
                           u: string, now: Ms)
    ensures EngagementFold(t, daily, order + [u], picked, now) ==
              EngagementStep(EngagementFold(t, daily, order, picked, now), daily, picked, u, now)
  {
    assert (order + [u])[..|order|] == order;
  }

  /** Each pick is one of its user's members rows. */
  ghost predicate PicksOwnMembers(t: Tables, picked: map<string, string>) {
    forall u :: u in picked ==> u in t.users && picked[u] in t.members && t.members[picked[u]].userId == t.users[u].id
  }

  /** Under the store's constraints, distinct picked users write distinct engagement keys. */
  lemma PicksDistinct(t: Tables, picked: map<string, string>, u: string, v: string, today: Day)
    requires PrimaryKeysUnique(t) && PicksOwnMembers(t, picked)
    requires u in picked && v in picked && u != v
    ensures KeyOf(t, picked, u, today) != KeyOf(t, picked, v, today)
  {
    assert t.users[u].id != t.users[v].id;
  }

  /** The row a picked user's step leaves under its key. */
  function WrittenRow(t: Tables, daily: map<string, nat>, picked: map<string, string>, u: string, now: Ms): Engagement
    requires u in picked && picked[u] in t.members && u in daily && u in t.users
  {
    var key := KeyOf(t, picked, u, DayOf(now));
    Engagement(if key in t.engagement then t.engagement[key].userId else t.users[u].id,
               daily[u], daily[u], ScoreOf(t, daily, picked, u, now), Some(now))
  }

  lemma EngagementStepWrites(t: Tables, daily: map<string, nat>, picked: map<string, string>, u: string, now: Ms)
    requires u in picked && picked[u] in t.members && u in daily && u in t.users
    ensures var r := EngagementStep(t, daily, picked, u, now);
      && KeyOf(t, picked, u, DayOf(now)) in r.engagement
      && r.engagement[KeyOf(t, picked, u, DayOf(now))] == WrittenRow(t, daily, picked, u, now)
      && forall e :: e in t.engagement && e != KeyOf(t, picked, u, DayOf(now)) ==> e in r.engagement && r.engagement[e] == t.engagement[e]
  {
  }

  /** The user id of the members row with primary key `id` (0 when there is none). */
  ghost function MemberUser(t: Tables, id: Id): Id {
    if x :| x in t.members && t.members[x].id == id then t.members[x].userId else 0
  }

  lemma MemberUserOf(t: Tables, x: string)
    requires PrimaryKeysUnique(t) && x in t.members
    ensures MemberUser(t, t.members[x].id) == t.members[x].userId
  {
  }

  /** Every engagement row after step 3 keeps its user id, and a new one carries its member's user id. */
  lemma {:induction false} EngagementFoldUserIds(t: Tables, daily: map<string, nat>, order: seq<string>,
                                                 picked: map<string, string>, now: Ms)
    requires PrimaryKeysUnique(t) && PicksOwnMembers(t, picked)
    ensures var r := EngagementFold(t, daily, order, picked, now);
      forall e :: e in r.engagement ==>
        r.engagement[e].userId == if e in t.engagement then t.engagement[e].userId else MemberUser(t, e.memberId)
    decreases |order|
  {
    if order != [] {
      var pre := order[..|order| - 1];
      var w := order[|order| - 1];
      EngagementFoldUserIds(t, daily, pre, picked, now);
      EngagementFoldFrame(t, daily, pre, picked, now);
      var r0 := EngagementFold(t, daily, pre, picked, now);
      var r := EngagementFold(t, daily, order, picked, now);
      assert r == EngagementStep(r0, daily, picked, w, now);
      if w in picked && w in t.users && picked[w] in t.members && w in daily {
        var key := KeyOf(r0, picked, w, DayOf(now));
        MemberUserOf(t, picked[w]);
        EngagementStepWrites(r0, daily, picked, w, now);
        EngagementStepFrame(r0, daily, picked, w, now);
        forall e | e in r.engagement
          ensures r.engagement[e].userId == if e in t.engagement then t.engagement[e].userId else MemberUser(t, e.memberId)
        {
          if e != key {
            assert e in r0.engagement && r.engagement[e] == r0.engagement[e];
          }
        }
      } else {
        assert r == r0;
      }
    }
  }

  /**
   * After step 3 every picked user's member has a row for today with the user's count as
   * message count and activity score, its score, and `now` as last activity; a row that
   * is new belongs to the user's row, an existing one keeps its user id.
   */
  lemma {:induction false} EngagementFoldWrites(t: Tables, daily: map<string, nat>, order: seq<string>,
                                                picked: map<string, string>, now: Ms)
    requires PrimaryKeysUnique(t) && PicksOwnMembers(t, picked)
    requires forall i :: 0 <= i < |order| ==> order[i] in daily
    ensures forall i :: 0 <= i < |order| && order[i] in picked ==>
      && KeyOf(t, picked, order[i], DayOf(now)) in EngagementFold(t, daily, order, picked, now).engagement
      && EngagementFold(t, daily, order, picked, now).engagement[KeyOf(t, picked, order[i], DayOf(now))] ==
           WrittenRow(t, daily, picked, order[i], now)
    decreases |order|
  {
    if order != [] {
      var n := |order| - 1;
      var pre := order[..n];
      var w := order[n];
      assert forall i :: 0 <= i < n ==> pre[i] == order[i];
      EngagementFoldWrites(t, daily, pre, picked, now);
      var r0 := EngagementFold(t, daily, pre, picked, now);
      var r := EngagementFold(t, daily, order, picked, now);
      EngagementFoldFrame(t, daily, pre, picked, now);
      assert r == EngagementStep(r0, daily, picked, w, now);
      if w in picked {
        assert KeyOf(r0, picked, w, DayOf(now)) == KeyOf(t, picked, w, DayOf(now));
        EngagementStepWrites(r0, daily, picked, w, now);
        forall i | 0 <= i < |order| && order[i] in picked
          ensures KeyOf(t, picked, order[i], DayOf(now)) in r.engagement
          ensures r.engagement[KeyOf(t, picked, order[i], DayOf(now))] == WrittenRow(t, daily, picked, order[i], now)
        {
          if order[i] != w {
            assert i < n && pre[i] == order[i];
            PicksDistinct(t, picked, order[i], w, DayOf(now));
          } else {
            EngagementFoldUserIds(t, daily, pre, picked, now);
            WrittenRowKept(t, r0, daily, picked, w, now);
          }
        }
      } else {
        assert r == r0;
      }
    }
  }

  /**
   * A user's written row does not depend on the earlier steps: they change neither the
   * users nor the members rows, and leave the user id of every row as the store has it.
   */
  lemma WrittenRowKept(t: Tables, r0: Tables, daily: map<string, nat>, picked: map<string, string>, w: string, now: Ms)
    requires PrimaryKeysUnique(t) && PicksOwnMembers(t, picked)
    requires w in picked && w in daily
    requires r0.users == t.users && r0.members == t.members && t.engagement.Keys <= r0.engagement.Keys
    requires forall e :: e in r0.engagement ==>
               r0.engagement[e].userId == if e in t.engagement then t.engagement[e].userId else MemberUser(t, e.memberId)
    ensures WrittenRow(r0, daily, picked, w, now) == WrittenRow(t, daily, picked, w, now)
  {
    MemberUserOf(t, picked[w]);
  }

  function MessageSyncOutcome(companyId: string, channels: ChannelListing): Outcome {
    if companyId == "" then Failed(MissingCompanyId)
    else if channels.ChannelsFailed? then Failed(RemoteUnavailable)
    else Done
  }

  /**
   * The body of step 3 for user `u`: when `u` has a users row with members, the
   * engagement row for today of the one returned first (`pick`) is upserted.
   */
  method EngageUser(db: Db, counts: map<string, nat>, u: string, now: Ms) returns (ghost pick: Option<string>)
    requires db.Valid() && u in counts
    modifies db
    ensures db.Valid()
    ensures pick.Some? <==> u in old(db.users) && HasMembers(old(db.members), old(db.users)[u].id)
    ensures pick.Some? ==> pick.value in old(db.members) && old(db.members)[pick.value].userId == old(db.users)[u].id
    ensures pick.None? ==> db.State() == old(db.State())
    ensures pick.Some? ==> db.State() == EngagementStep(old(db.State()), counts, map[u := pick.value], u, now)
  {
    pick := None;
    var dbUser := db.FindUser(u);
    if dbUser.None? {
      return;
    }
    var mk := db.FirstMemberOf(dbUser.value.id);
    if mk.None? {
      return;
    }
    var member := db.members[mk.value];
    var score := EngagementScore(counts[u], member.joinedAt.GetOr(now), now);
    assert HasMemberId(db.members, member.id);
    assert HasUserId(db.users, dbUser.value.id);
    ghost var t := db.State();
    pick := Some(mk.value);
    assert score == ScoreOf(t, counts, map[u := pick.value], u, now);
    assert EngagementKey(member.id, DayOf(now)) == KeyOf(t, map[u := pick.value], u, DayOf(now));
    db.UpsertEngagement(EngagementKey(member.id, DayOf(now)), dbUser.value.id, counts[u], counts[u], score, now);
  }

  lemma ValidPicksSnoc(t: Tables, daily: map<string, nat>, order: seq<string>, picked: map<string, string>,
                       u: string, pick: Option<string>)
    requires ValidPicks(t, daily, order, picked)
    requires u in daily && u !in order
    requires pick.Some? <==> u in t.users && HasMembers(t.members, t.users[u].id)
    requires pick.Some? ==> pick.value in t.members && t.members[pick.value].userId == t.users[u].id
    ensures ValidPicks(t, daily, order + [u], if pick.Some? then picked[u := pick.value] else picked)
  {
    var order' := order + [u];
    assert forall i :: 0 <= i < |order| ==> order'[i] == order[i];
  }

  /** A step reads `picked` only at its own user. */
  lemma EngagementStepOwnPick(t: Tables, daily: map<string, nat>, picked: map<string, string>, u: string, x: string, now: Ms)
    ensures EngagementStep(t, daily, picked[u := x], u, now) == EngagementStep(t, daily, map[u := x], u, now)
  {
  }

  /**
   * Step 3 of `syncRecentMessages`: for each counted user, in the dictionary's order
   * (returned as `order`), the engagement row of its first members row for today is
   * upserted; `picked` records which members row the store returned first.
   */
  method UpsertEngagements(db: Db, counts: map<string, nat>, now: Ms)
    returns (ghost order: seq<string>, ghost picked: map<string, string>)
    requires db.Valid()
    modifies db
    ensures db.Valid()
    ensures forall i, j :: 0 <= i < j < |order| ==> order[i] != order[j]
    ensures forall u :: u in order <==> u in counts
    ensures ValidPicks(old(db.State()), counts, order, picked)
    ensures db.State() == EngagementFold(old(db.State()), counts, order, picked, now)
  {
    order, picked := [], map[];
    ghost var t0 := db.State();
    var rest := counts.Keys;
    while rest != {}
      invariant db.Valid()
      invariant rest <= counts.Keys
      invariant forall i, j :: 0 <= i < j < |order| ==> order[i] != order[j]
      invariant forall u :: u in order <==> u in counts && u !in rest
      invariant ValidPicks(t0, counts, order, picked)
      invariant db.State() == EngagementFold(t0, counts, order, picked, now)
      invariant db.users == t0.users && db.members == t0.members
      decreases rest
    {
      var u :| u in rest;
      OrderSnoc(order, counts.Keys, rest, u);
      rest := rest - {u};
      ghost var before := db.State();
      ghost var pickedBefore := picked;
      var pick := EngageUser(db, counts, u, now);
      ValidPicksSnoc(t0, counts, order, picked, u, pick);
      if pick.Some? {
        EngagementStepFrame(before, counts, map[u := pick.value], u, now);
        picked := picked[u := pick.value];
        EngagementStepOwnPick(before, counts, pickedBefore, u, pick.value, now);
      }
      EngagementFoldSamePicks(t0, counts, order, pickedBefore, picked, now);
      EngagementFoldSnoc(t0, counts, order, picked, u, now);
      order := order + [u];
    }
  }

  /** Appending a not-yet-visited key keeps `order` distinct and the visited keys exactly those out of `rest`. */
  lemma OrderSnoc(order: seq<string>, keys: set<string>, rest: set<string>, u: string)
    requires forall i, j :: 0 <= i < j < |order| ==> order[i] != order[j]
    requires forall x :: x in order <==> x in keys && x !in rest
    requires u in rest && rest <= keys
    ensures forall i, j :: 0 <= i < j < |order + [u]| ==> (order + [u])[i] != (order + [u])[j]
    ensures forall x :: x in order + [u] <==> x in keys && x !in rest - {u}
  {
  }

  /** `syncRecentMessages` at time `now`: the counts of step 2 are returned as `daily`. */
  method SyncRecentMessages(db: Db, companyId: string, channels: ChannelListing, now: Ms)
    returns (r: Outcome, ghost daily: map<string, nat>, ghost order: seq<string>, ghost picked: map<string, string>)
    requires db.Valid()
    modifies db
    ensures db.Valid()
    ensures r == MessageSyncOutcome(companyId, channels)
    ensures r.Failed? ==> db.State() == old(db.State())
    ensures r.Done? ==>
      && daily == DailyActivity(channels.data, DayOf(now))
      && (forall i, j :: 0 <= i < j < |order| ==> order[i] != order[j])
      && (forall u :: u in order <==> u in daily)
      && ValidPicks(old(db.State()), daily, order, picked)
      && db.State() == EngagementFold(old(db.State()), daily, order, picked, now)
  {
    daily, order, picked := map[], [], map[];
    if companyId == "" {
      return Failed(MissingCompanyId), daily, order, picked;
    }
    if channels.ChannelsFailed? {
      return Failed(RemoteUnavailable), daily, order, picked;
    }
    r := Done;
    var page := Take(channels.data, ChannelsPageSize);
    if |page| == 0 {
      assert ScannedChannels(channels.data) == [];
      assert EngagementFold(db.State(), daily, order, picked, now) == db.State();
      return;
    }
    var counts := CountMessages(Take(page, MaxChannelsToScan), DayOf(now));
    daily := counts;
    order, picked := UpsertEngagements(db, counts, now);
  }
}
