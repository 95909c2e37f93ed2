/**
 * `calculateMRR` and `snapshotRevenueMetrics`: monthly recurring revenue is the sum of
 * the renewal prices of the members whose status is exactly "active", grouped by
 * currency; the daily snapshot of a tenant is updated in place when one exists for the
 * day and inserted otherwise.
 */
module Revenue {
  import opened Wrappers
  import opened Schema
  import opened Store

  const ActiveStatus: string := "active"

  /** The currency a members row is counted under: "usd" when unset. */
  function CurrencyKey(m: Member): string {
    OrElse(m.currency, DefaultCurrency)
  }

  /** The filter of the MRR query: status exactly "active", and the tenant when one is given. */
  predicate Counted(m: Member, userId: Option<Id>) {
    m.status == ActiveStatus && (userId.None? || m.userId == userId.value)
  }

  /** The keys of the rows the MRR query selects. */
  ghost function Selected(members: map<string, Member>, userId: Option<Id>): set<string> {
    set k | k in members && Counted(members[k], userId)
  }

  /** A row's contribution to the sum for currency `cur`. */
  function PriceIn(m: Member, cur: string): Cents {
    if CurrencyKey(m) == cur then m.renewalPrice else 0
  }

  /** The sum of the renewal prices of rows `ks` counted under currency `cur`. */
  ghost function SumPrice(members: map<string, Member>, ks: set<string>, cur: string): Cents
    requires ks <= members.Keys
    decreases |ks|
  {
    if ks == {} then 0
    else
      var k :| k in ks;
      PriceIn(members[k], cur) + SumPrice(members, ks - {k}, cur)
  }

  /** The sum does not depend on the order the rows are added in. */
  lemma {:induction false} SumPriceRemove(members: map<string, Member>, ks: set<string>, k: string, cur: string)
    requires ks <= members.Keys && k in ks
    ensures SumPrice(members, ks, cur) == PriceIn(members[k], cur) + SumPrice(members, ks - {k}, cur)
    decreases |ks|
  {
    var j :| j in ks && SumPrice(members, ks, cur) == PriceIn(members[j], cur) + SumPrice(members, ks - {j}, cur);
    if j != k {
      SumPriceRemove(members, ks - {j}, k, cur);
      SumPriceRemove(members, ks - {k}, j, cur);
      assert ks - {j} - {k} == ks - {k} - {j};
    }
  }

  /** The sum reads only the rows it sums. */
  lemma {:induction false} SumPriceSameRows(members: map<string, Member>, members': map<string, Member>, ks: set<string>, cur: string)
    requires ks <= members.Keys && ks <= members'.Keys
    requires forall k :: k in ks ==> members[k] == members'[k]
    ensures SumPrice(members, ks, cur) == SumPrice(members', ks, cur)
    decreases |ks|
  {
    if ks != {} {
      var k :| k in ks;
      SumPriceRemove(members, ks, k, cur);
      SumPriceRemove(members', ks, k, cur);
      SumPriceSameRows(members, members', ks - {k}, cur);
    }
  }

  /** The currencies of the selected rows. */
  ghost function CurrenciesOf(members: map<string, Member>, ks: set<string>): set<string>
    requires ks <= members.Keys
  {
    set k | k in ks :: CurrencyKey(members[k])
  }

  /** The per-currency sums of rows `ks`. */
  ghost function MrrOf(members: map<string, Member>, ks: set<string>): map<string, Cents>
    requires ks <= members.Keys
  {
    map c | c in CurrenciesOf(members, ks) :: SumPrice(members, ks, c)
  }

  /** The result of `calculateMRR` when its query succeeds. */
  ghost function Mrr(members: map<string, Member>, userId: Option<Id>): map<string, Cents> {
    MrrOf(members, Selected(members, userId))
  }

  /** What `calculateMRR` returns when its query throws. */
  function MrrOnError(): map<string, Cents> {
    map[DefaultCurrency := 0]
  }

  /** `if (!acc[cur]) acc[cur] = 0; acc[cur] += price`. */
  function Bump(acc: map<string, Cents>, cur: string, price: Cents): map<string, Cents> {
    acc[cur := (if cur in acc then acc[cur] else 0) + price]
  }

  /**
   * `calculateMRR(userId)`; `queryFails` stands for the member query throwing, in which
   * case the error is swallowed and `{usd: 0}` returned.
   */
  method CalculateMRR(db: Db, userId: Option<Id>, queryFails: bool) returns (mrr: map<string, Cents>)
    ensures queryFails ==> mrr == MrrOnError()
    ensures !queryFails ==> mrr == Mrr(db.members, userId)
  {
    if queryFails {
      return MrrOnError();
    }
    var ks := db.SelectMembers(m => Counted(m, userId));
    var members := db.members;
    mrr := map[];
    ghost var done: set<string> := {};
    assert MrrOf(members, done) == map[];
    for i := 0 to |ks|
      invariant done == KeysOf(ks, i) && done <= members.Keys
      invariant mrr == MrrOf(members, done)
    {
      KeysOfSnoc(ks, i);
      mrr := AddPrice(mrr, members[ks[i]]);
      AddRow(members, done, ks[i]);
      done := done + {ks[i]};
    }
    KeysOfAll(ks, members, userId);
  }

  /** One step of the reduce: the row's price is added to the entry of its currency. */
  method AddPrice(acc: map<string, Cents>, m: Member) returns (r: map<string, Cents>)
    ensures r == Bump(acc, CurrencyKey(m), m.renewalPrice)
  {
    var cur := OrElse(m.currency, DefaultCurrency);
    r := acc;
    if cur !in r {
      r := r[cur := 0];
    }
    r := r[cur := r[cur] + m.renewalPrice];
  }

  /** Once every selected key is visited, the visited set is the selection. */
  lemma KeysOfAll(ks: seq<string>, members: map<string, Member>, userId: Option<Id>)
    requires forall k :: k in ks <==> k in members && Counted(members[k], userId)
    ensures KeysOf(ks, |ks|) == Selected(members, userId)
  {
    forall k ensures k in KeysOf(ks, |ks|) <==> k in ks {
      if k in ks {
        var j :| 0 <= j < |ks| && ks[j] == k;
      }
    }
  }

  /** The keys among the first `i` elements of `ks`. */
  ghost function KeysOf(ks: seq<string>, i: nat): set<string>
    requires i <= |ks|
  {
    set j | 0 <= j < i :: ks[j]
  }

  lemma KeysOfSnoc(ks: seq<string>, i: nat)
    requires i < |ks|
    requires forall a, b :: 0 <= a < b < |ks| ==> ks[a] != ks[b]
    ensures KeysOf(ks, i + 1) == KeysOf(ks, i) + {ks[i]}
    ensures ks[i] !in KeysOf(ks, i)
  {
  }

  /** Adding one row to the summed rows adds its price to its own currency and nothing to the others. */
  lemma AddRow(members: map<string, Member>, done: set<string>, k: string)
    requires done <= members.Keys && k in members && k !in done
    ensures MrrOf(members, done + {k}) == Bump(MrrOf(members, done), CurrencyKey(members[k]), members[k].renewalPrice)
  {
    var cur := CurrencyKey(members[k]);
    var a := MrrOf(members, done + {k});
    var b := Bump(MrrOf(members, done), cur, members[k].renewalPrice);
    assert CurrenciesOf(members, done + {k}) == CurrenciesOf(members, done) + {cur};
    assert a.Keys == b.Keys;
    forall c | c in a ensures a[c] == b[c] {
      SumPriceRemove(members, done + {k}, k, c);
      assert done + {k} - {k} == done;
      if c == cur && cur !in CurrenciesOf(members, done) {
        SumPriceNoCurrency(members, done, cur);
      }
    }
  }

  /** Rows of no other currency sum to 0 in it. */
  lemma {:induction false} SumPriceNoCurrency(members: map<string, Member>, ks: set<string>, cur: string)
    requires ks <= members.Keys && cur !in CurrenciesOf(members, ks)
    ensures SumPrice(members, ks, cur) == 0
    decreases |ks|
  {
    if ks != {} {
      var k :| k in ks;
      SumPriceRemove(members, ks, k, cur);
      assert CurrenciesOf(members, ks - {k}) <= CurrenciesOf(members, ks);
      SumPriceNoCurrency(members, ks - {k}, cur);
    }
  }

  // ---------------------------------------------------------------------------
  // What the sum promises.
  // ---------------------------------------------------------------------------

  /**
   * The result has an entry exactly for each currency some selected row is counted
   * under; so a selection with no row gives the empty map.
   */
  lemma MrrKeys(members: map<string, Member>, userId: Option<Id>)
    ensures forall c :: c in Mrr(members, userId) <==>
      exists k :: k in members && Counted(members[k], userId) && CurrencyKey(members[k]) == c
    ensures (forall k :: k in members ==> !Counted(members[k], userId)) ==> Mrr(members, userId) == map[]
  {
    var ks := Selected(members, userId);
    forall c ensures c in Mrr(members, userId) <==>
      exists k :: k in members && Counted(members[k], userId) && CurrencyKey(members[k]) == c
    {
      if exists k :: k in members && Counted(members[k], userId) && CurrencyKey(members[k]) == c {
        var k :| k in members && Counted(members[k], userId) && CurrencyKey(members[k]) == c;
        assert k in ks;
      }
    }
  }

  /**
   * A new row that is not counted (status other than "active", or another tenant's)
   * leaves the result as it is: trialing and cancelled members contribute nothing.
   */
  lemma MrrIgnoresUncounted(members: map<string, Member>, userId: Option<Id>, k: string, m: Member)
    requires k !in members && !Counted(m, userId)
    ensures Mrr(members[k := m], userId) == Mrr(members, userId)
  {
    var members' := members[k := m];
    assert Selected(members', userId) == Selected(members, userId);
    MrrSameRows(members, members', Selected(members, userId));
  }

  /** A new counted row adds its renewal price to the entry of its currency, creating it if needed. */
  lemma MrrAddsCounted(members: map<string, Member>, userId: Option<Id>, k: string, m: Member)
    requires k !in members && Counted(m, userId)
    ensures var before := Mrr(members, userId);
      Mrr(members[k := m], userId) ==
        before[CurrencyKey(m) := (if CurrencyKey(m) in before then before[CurrencyKey(m)] else 0) + m.renewalPrice]
  {
    var members' := members[k := m];
    var ks := Selected(members, userId);
    SelectedAdd(members, userId, k, m);
    MrrSameRows(members, members', ks);
    AddRow(members', ks, k);
    assert members'[k] == m;
  }

  lemma SelectedAdd(members: map<string, Member>, userId: Option<Id>, k: string, m: Member)
    requires k !in members && Counted(m, userId)
    ensures Selected(members[k := m], userId) == Selected(members, userId) + {k}
  {
  }

  /** The per-currency sums read only the rows they sum. */
  lemma MrrSameRows(members: map<string, Member>, members': map<string, Member>, ks: set<string>)
    requires ks <= members.Keys && ks <= members'.Keys
    requires forall k :: k in ks ==> members[k] == members'[k]
    ensures MrrOf(members', ks) == MrrOf(members, ks)
  {
    assert CurrenciesOf(members', ks) == CurrenciesOf(members, ks);
    forall c ensures SumPrice(members', ks, c) == SumPrice(members, ks, c) {
      SumPriceSameRows(members', members, ks, c);
    }
  }

  /** With a tenant given, the result is the unscoped result over that tenant's rows only. */
  lemma MrrScoped(members: map<string, Member>, userId: Id)
    ensures Mrr(members, Some(userId)) == Mrr(map k | k in members && members[k].userId == userId :: members[k], None)
  {
    var own := map k | k in members && members[k].userId == userId :: members[k];
    var ks := Selected(members, Some(userId));
    assert Selected(own, None) == ks;
    MrrSameRows(members, own, ks);
  }

  // ---------------------------------------------------------------------------
  // The daily snapshot.
  // ---------------------------------------------------------------------------

  /** `mrrByCurrency.usd || 0`. */
  function UsdOf(mrr: map<string, Cents>): Cents {
    if DefaultCurrency in mrr then mrr[DefaultCurrency] else 0
  }

  /** The `count(*)` of the tenant's active members. */
  ghost function ActiveCount(members: map<string, Member>, userId: Id): nat {
    |Selected(members, Some(userId))|
  }

  /** The values the snapshot of tenant `userId` is written with. */
  ghost function SnapshotRow(members: map<string, Member>, userId: Id, today: Day, mrrFails: bool): Revenue {
    var mrr := if mrrFails then UsdOf(MrrOnError()) else UsdOf(Mrr(members, Some(userId)));
    Revenue(userId, today, mrr, mrr, ActiveCount(members, userId))
  }

  /** Some revenue row is tenant `userId`'s for day `today`. */
  ghost predicate HasSnapshot(revenue: map<Id, Revenue>, userId: Id, today: Day) {
    exists i :: i in revenue && revenue[i].userId == userId && revenue[i].date == today
  }

  /**
   * Writing `row` over the tenant's existing row of that day, or as a new row when there
   * is none, keeps at most one row per tenant and day.
   */
  lemma OneRowPerDayKept(revenue: map<Id, Revenue>, i: Id, row: Revenue)
    requires OneRevenueRowPerDay(revenue)
    requires || (i in revenue && revenue[i].userId == row.userId && revenue[i].date == row.date)
             || (i !in revenue && !HasSnapshot(revenue, row.userId, row.date))
    ensures OneRevenueRowPerDay(revenue[i := row])
  {
  }

  /**
   * The find-then-update-or-insert of `snapshotRevenueMetrics`: the tenant's row of the
   * day is overwritten when one exists, else `row` is inserted under a fresh id; `id` is
   * the row written, None when the insert is refused because the tenant names no users
   * row.
   */
  method WriteSnapshot(db: Db, row: Revenue) returns (id: Option<Id>)
    requires db.Valid()
    modifies db
    ensures db.Valid()
    ensures db.users == old(db.users) && db.members == old(db.members) && db.engagement == old(db.engagement)
    ensures id.Some? <==> HasSnapshot(old(db.revenue), row.userId, row.date) || HasUserId(old(db.users), row.userId)
    ensures id.None? ==> db.State() == old(db.State())
    ensures id.Some? ==> db.revenue == old(db.revenue)[id.value := row]
    ensures id.Some? && HasSnapshot(old(db.revenue), row.userId, row.date) ==>
      id.value in old(db.revenue) && old(db.revenue)[id.value].userId == row.userId && old(db.revenue)[id.value].date == row.date
    ensures id.Some? && !HasSnapshot(old(db.revenue), row.userId, row.date) ==> id.value !in old(db.revenue)
    ensures HasSnapshot(old(db.revenue), row.userId, row.date) ==> db.revenue.Keys == old(db.revenue).Keys
    ensures OneRevenueRowPerDay(old(db.revenue)) ==> OneRevenueRowPerDay(db.revenue)
  {
    ghost var before := db.revenue;
    var existing := db.FindRevenue(row.userId, row.date);
    if existing.Some? {
      db.UpdateRevenue(existing.value, row.mrr, row.activeMembers, row.totalRevenue);
      id := existing;
    } else {
      var rowId := db.nextId;
      var ok := db.InsertRevenue(row);
      id := if ok then Some(rowId) else None;
    }
    if id.Some? && OneRevenueRowPerDay(before) {
      OneRowPerDayKept(before, id.value, row);
    }
  }

  /** The values `snapshotRevenueMetrics` computes before writing: MRR in usd and the active count. */
  method SnapshotValues(db: Db, userId: Id, now: Ms, mrrFails: bool) returns (row: Revenue)
    ensures row == SnapshotRow(db.members, userId, DayOf(now), mrrFails)
  {
    var mrrByCurrency := CalculateMRR(db, Some(userId), mrrFails);
    var mrrUsd := if DefaultCurrency in mrrByCurrency then mrrByCurrency[DefaultCurrency] else 0;
    var active := db.SelectMembers(m => Counted(m, Some(userId)));
    ActiveCountOfSelection(db.members, userId, active);
    row := Revenue(userId, DayOf(now), mrrUsd, mrrUsd, |active|);
  }

  /**
   * `snapshotRevenueMetrics(userId)` at time `now`; `mrrFails` stands for the MRR query
   * throwing (its error is swallowed).  `id` is the row written, None when the insert is
   * refused because `userId` names no users row (the function then throws).  A row
   * that already exists for the tenant and the day is updated in place, so no second row
   * appears, and every other row is left as it was.
   */
  method SnapshotRevenueMetrics(db: Db, userId: Id, now: Ms, mrrFails: bool) returns (id: Option<Id>)
    requires db.Valid()
    modifies db
    ensures db.Valid()
    ensures db.users == old(db.users) && db.members == old(db.members) && db.engagement == old(db.engagement)
    ensures id.Some? <==> HasSnapshot(old(db.revenue), userId, DayOf(now)) || HasUserId(old(db.users), userId)
    ensures id.None? ==> db.State() == old(db.State())
    ensures id.Some? ==> db.revenue == old(db.revenue)[id.value := SnapshotRow(old(db.members), userId, DayOf(now), mrrFails)]
    ensures id.Some? && HasSnapshot(old(db.revenue), userId, DayOf(now)) ==>
      id.value in old(db.revenue) && old(db.revenue)[id.value].userId == userId && old(db.revenue)[id.value].date == DayOf(now)
    ensures id.Some? && !HasSnapshot(old(db.revenue), userId, DayOf(now)) ==> id.value !in old(db.revenue)
    ensures HasSnapshot(old(db.revenue), userId, DayOf(now)) ==> db.revenue.Keys == old(db.revenue).Keys
    ensures OneRevenueRowPerDay(old(db.revenue)) ==> OneRevenueRowPerDay(db.revenue)
  {
    var row := SnapshotValues(db, userId, now, mrrFails);
    id := WriteSnapshot(db, row);
  }

  /** The rows the count query selects, each once, are as many as the tenant's active members. */
  lemma ActiveCountOfSelection(members: map<string, Member>, userId: Id, ks: seq<string>)
    requires forall i, j :: 0 <= i < j < |ks| ==> ks[i] != ks[j]
    requires forall k :: k in ks <==> k in members && Counted(members[k], Some(userId))
    ensures |ks| == ActiveCount(members, userId)
  {
    var s := set k | k in ks;
    assert s == Selected(members, Some(userId));
    DistinctCard(ks);
  }

  lemma {:induction false} DistinctCard(ks: seq<string>)
    requires forall i, j :: 0 <= i < j < |ks| ==> ks[i] != ks[j]
    ensures |set k | k in ks| == |ks|
    decreases |ks|
  {
    if ks != [] {
      var pre := ks[..|ks| - 1];
      var last := ks[|ks| - 1];
      DistinctCard(pre);
      assert (set k | k in ks) == (set k | k in pre) + {last};
      assert last !in pre;
    }
  }
}
