/**
 * The analytics engine: daily roll-ups per (platform, calendar day), a
 * per-platform trailing moving average over them, and top-post rankings.
 * Every operation reads its input and builds a new result; the input is
 * never changed.
 */
module AnalyticsEngine {
  import opened Common
  import opened Order
  import opened Frames

  /**
   * One row of a normalised table as the analytics read it: the counts are
   * integers (the int64 casts succeeded), the platform and the post date
   * may be null, and post id and content are carried through untouched.
   */
  datatype Post = Post(
    platform: Option<string>,
    postId: Value,
    content: Value,
    likes: int,
    comments: int,
    shares: int,
    engagementScore: int,
    postDate: Option<Timestamp>)

  // ---------------------------------------------------------------------
  // Group keys: (platform, calendar date of post_date)
  // ---------------------------------------------------------------------

  /** A group of `compute_daily_metrics`: a platform and a day counted from 1970-01-01. */
  datatype GroupKey = GroupKey(platform: string, date: int)

  /** The row's group; groupby drops a row whose platform or date is null. */
  function KeyOf(p: Post): (r: Option<GroupKey>)
    ensures r.Some? <==> p.platform.Some? && p.postDate.Some?
    ensures r.Some? ==> r.value.platform == p.platform.value && r.value.date == p.postDate.value.day
  {
    match (p.platform, p.postDate)
    case (Some(name), Some(stamp)) => Some(GroupKey(name, stamp.day))
    case _ => None
  }

  /** The order groupby sorts its keys in: by platform, then by date. */
  predicate KeyLess(a: GroupKey, b: GroupKey)
  {
    StrLess(a.platform, b.platform) || (a.platform == b.platform && a.date < b.date)
  }

  predicate KeyLeq(a: GroupKey, b: GroupKey)
  {
    a == b || KeyLess(a, b)
  }

  lemma KeyLessIrreflexive(a: GroupKey)
    ensures !KeyLess(a, a)
  {
    StrLessIrreflexive(a.platform);
  }

  lemma KeyLessTransitive(a: GroupKey, b: GroupKey, c: GroupKey)
    requires KeyLess(a, b) && KeyLess(b, c)
    ensures KeyLess(a, c)
  {
    if StrLess(a.platform, b.platform) && StrLess(b.platform, c.platform) {
      StrLessTransitive(a.platform, b.platform, c.platform);
    }
  }

  lemma KeyLessTotal(a: GroupKey, b: GroupKey)
    ensures KeyLess(a, b) || a == b || KeyLess(b, a)
  {
    if a.platform != b.platform {
      StrLessTotal(a.platform, b.platform);
    }
  }

  lemma KeyLessAsymmetric(a: GroupKey, b: GroupKey)
    requires KeyLess(a, b)
    ensures !KeyLess(b, a) && a != b
  {
    KeyLessIrreflexive(a);
    if KeyLess(b, a) {
      KeyLessTransitive(a, b, a);
    }
  }

  // ---------------------------------------------------------------------
  // compute_daily_metrics
  // ---------------------------------------------------------------------

  /** The aggregates of one group: sums of the four counts and the number of rows. */
  datatype Totals = Totals(scoreSum: int, count: nat, likesSum: int, commentsSum: int, sharesSum: int)

  const NoRows: Totals := Totals(0, 0, 0, 0, 0)

  /** The aggregates after one more row. */
  function Plus(t: Totals, p: Post): Totals
  {
    Totals(t.scoreSum + p.engagementScore, t.count + 1,
           t.likesSum + p.likes, t.commentsSum + p.comments, t.sharesSum + p.shares)
  }

  /** The aggregates of a run of rows: sum of each count, and how many rows there are. */
  function Tally(ps: seq<Post>): (r: Totals)
    ensures r.count == |ps|
  {
    if ps == [] then NoRows else Plus(Tally(ps[..|ps| - 1]), ps[|ps| - 1])
  }

  /** The rows of group `k`, in input order. */
  function Members(rows: seq<Post>, k: GroupKey): (r: seq<Post>)
    ensures |r| <= |rows|
    ensures forall p :: p in r ==> p in rows && KeyOf(p) == Some(k)
    ensures forall i :: 0 <= i < |rows| && KeyOf(rows[i]) == Some(k) ==> rows[i] in r
  {
    if rows == [] then []
    else
      var init := Members(rows[..|rows| - 1], k);
      if KeyOf(rows[|rows| - 1]) == Some(k) then init + [rows[|rows| - 1]] else init
  }

  /** How many rows have a group at all (non-null platform and date). */
  function KeyedCount(rows: seq<Post>): (r: nat)
    ensures r <= |rows|
  {
    if rows == [] then 0
    else KeyedCount(rows[..|rows| - 1]) + if KeyOf(rows[|rows| - 1]).Some? then 1 else 0
  }

  /** A group under construction. */
  datatype Group = Group(key: GroupKey, totals: Totals)

  predicate KeysIncreasing(gs: seq<Group>)
  {
    forall i, j :: 0 <= i < j < |gs| ==> KeyLess(gs[i].key, gs[j].key)
  }

  /** The totals stored under key `k`, if any. */
  function Find(gs: seq<Group>, k: GroupKey): Option<Totals>
  {
    if gs == [] then None
    else if gs[0].key == k then Some(gs[0].totals)
    else Find(gs[1..], k)
  }

  /** The totals under `k`, or those of no rows. */
  function TotalsOr(found: Option<Totals>): Totals
  {
    if found.Some? then found.value else NoRows
  }

  /** Adds row `p` to group `k`, opening the group at its sorted place when it is new. */
  function Absorb(gs: seq<Group>, k: GroupKey, p: Post): (r: seq<Group>)
    ensures forall g :: g in r ==> g in gs || (g.key == k && g.totals.count > 0)
    ensures |r| >= |gs|
  {
    if gs == [] then [Group(k, Plus(NoRows, p))]
    else if gs[0].key == k then [Group(k, Plus(gs[0].totals, p))] + gs[1..]
    else if KeyLess(k, gs[0].key) then [Group(k, Plus(NoRows, p))] + gs
    else [gs[0]] + Absorb(gs[1..], k, p)
  }

  lemma {:induction false} AbsorbSorted(gs: seq<Group>, k: GroupKey, p: Post)
    requires KeysIncreasing(gs)
    ensures KeysIncreasing(Absorb(gs, k, p))
    decreases |gs|
  {
    if gs != [] && gs[0].key != k && !KeyLess(k, gs[0].key) {
      var rest := Absorb(gs[1..], k, p);
      AbsorbSorted(gs[1..], k, p);
      KeyLessTotal(k, gs[0].key);
      AbsorbAbove(gs[1..], k, p, gs[0].key);
      var r := Absorb(gs, k, p);
      assert r == [gs[0]] + rest;
      assert forall j :: 0 < j < |r| ==> r[j] == rest[j - 1];
    } else if gs != [] && KeyLess(k, gs[0].key) {
      var r := Absorb(gs, k, p);
      forall i, j | 0 <= i < j < |r| ensures KeyLess(r[i].key, r[j].key) {
        if i == 0 && j > 1 {
          KeyLessTransitive(k, gs[0].key, gs[j - 1].key);
        }
      }
    }
  }

  /** Absorbing a key above `b` into keys above `b` leaves keys above `b`. */
  lemma {:induction false} AbsorbAbove(gs: seq<Group>, k: GroupKey, p: Post, b: GroupKey)
    requires forall i :: 0 <= i < |gs| ==> KeyLess(b, gs[i].key)
    requires KeyLess(b, k)
    ensures forall i :: 0 <= i < |Absorb(gs, k, p)| ==> KeyLess(b, Absorb(gs, k, p)[i].key)
    decreases |gs|
  {
    if gs != [] && gs[0].key != k && !KeyLess(k, gs[0].key) {
      AbsorbAbove(gs[1..], k, p, b);
      var r := Absorb(gs, k, p);
      assert r == [gs[0]] + Absorb(gs[1..], k, p);
      assert forall i :: 0 < i < |r| ==> r[i] == Absorb(gs[1..], k, p)[i - 1];
    }
  }

  /** After absorbing `p` into group `k`, only group `k` has changed, by exactly that row. */
  lemma {:induction false} AbsorbFind(gs: seq<Group>, k: GroupKey, p: Post, k': GroupKey)
    requires KeysIncreasing(gs)
    ensures Find(Absorb(gs, k, p), k') == if k' == k then Some(Plus(TotalsOr(Find(gs, k)), p)) else Find(gs, k')
    decreases |gs|
  {
    if gs == [] {
    } else if gs[0].key == k {
    } else if KeyLess(k, gs[0].key) {
      if k' == k {
        forall i | 0 <= i < |gs| ensures KeyLess(k, gs[i].key) {
          if i > 0 {
            KeyLessTransitive(k, gs[0].key, gs[i].key);
          }
        }
        FindAbsentBelow(gs, k);
      }
    } else {
      AbsorbFind(gs[1..], k, p, k');
    }
  }

  /** A key below every key of a list is not in it. */
  lemma {:induction false} FindAbsentBelow(gs: seq<Group>, k: GroupKey)
    requires forall i :: 0 <= i < |gs| ==> KeyLess(k, gs[i].key)
    ensures Find(gs, k) == None
    decreases |gs|
  {
    if gs != [] {
      KeyLessIrreflexive(k);
      FindAbsentBelow(gs[1..], k);
    }
  }

  /** A key of an increasing list finds its own entry. */
  lemma {:induction false} FindSorted(gs: seq<Group>, i: int)
    requires KeysIncreasing(gs) && 0 <= i < |gs|
    ensures Find(gs, gs[i].key) == Some(gs[i].totals)
    decreases i
  {
    if i > 0 {
      KeyLessAsymmetric(gs[0].key, gs[i].key);
      assert gs[1..][i - 1] == gs[i];
      FindSorted(gs[1..], i - 1);
    }
  }

  /** A key that finds something is the key of some entry. */
  lemma {:induction false} FindSome(gs: seq<Group>, k: GroupKey)
    requires Find(gs, k).Some?
    ensures exists i :: 0 <= i < |gs| && gs[i].key == k
    decreases |gs|
  {
    if gs[0].key != k {
      FindSome(gs[1..], k);
      var i :| 0 <= i < |gs[1..]| && gs[1..][i].key == k;
      assert gs[i + 1].key == k;
    }
  }

  /**
   * `groupby(['platform', 'date'])` over the rows, folding them in one at a
   * time: the groups in key order, each with its totals.
   */
  function GroupRows(rows: seq<Post>): (r: seq<Group>)
    ensures forall g :: g in r ==> g.totals.count > 0
  {
    if rows == [] then []
    else
      var gs := GroupRows(rows[..|rows| - 1]);
      var p := rows[|rows| - 1];
      match KeyOf(p)
      case None => gs
      case Some(k) => Absorb(gs, k, p)
  }

  lemma {:induction false} GroupRowsSorted(rows: seq<Post>)
    ensures KeysIncreasing(GroupRows(rows))
    decreases |rows|
  {
    if rows != [] {
      GroupRowsSorted(rows[..|rows| - 1]);
      var p := rows[|rows| - 1];
      if KeyOf(p).Some? {
        AbsorbSorted(GroupRows(rows[..|rows| - 1]), KeyOf(p).value, p);
      }
    }
  }

  /** The group under `k` holds exactly the totals of the rows whose key is `k`. */
  lemma {:induction false} GroupRowsFind(rows: seq<Post>, k: GroupKey)
    ensures Find(GroupRows(rows), k) == if Members(rows, k) == [] then None else Some(Tally(Members(rows, k)))
    decreases |rows|
  {
    if rows != [] {
      var init := rows[..|rows| - 1];
      var p := rows[|rows| - 1];
      GroupRowsFind(init, k);
      if KeyOf(p).Some? {
        var m := Members(init, k);
        GroupRowsSorted(init);
        AbsorbFind(GroupRows(init), KeyOf(p).value, p, k);
        if KeyOf(p).value == k {
          assert Members(rows, k) == m + [p];
          assert (m + [p])[..|m|] == m;
        }
      }
    }
  }

  /** The number of rows counted over all groups. */
  function CountSum(gs: seq<Group>): nat
  {
    if gs == [] then 0 else gs[0].totals.count + CountSum(gs[1..])
  }

  lemma {:induction false} AbsorbCountSum(gs: seq<Group>, k: GroupKey, p: Post)
    ensures CountSum(Absorb(gs, k, p)) == CountSum(gs) + 1
    decreases |gs|
  {
    if gs != [] && gs[0].key != k && !KeyLess(k, gs[0].key) {
      AbsorbCountSum(gs[1..], k, p);
      assert Absorb(gs, k, p)[1..] == Absorb(gs[1..], k, p);
    } else if gs != [] && gs[0].key == k {
      assert Absorb(gs, k, p)[1..] == gs[1..];
    } else if gs != [] {
      assert Absorb(gs, k, p)[1..] == gs;
    }
  }

  /** Every keyed row is counted in exactly one group, so the counts add up to the keyed rows. */
  lemma {:induction false} GroupRowsCountSum(rows: seq<Post>)
    ensures CountSum(GroupRows(rows)) == KeyedCount(rows)
    decreases |rows|
  {
    if rows != [] {
      var p := rows[|rows| - 1];
      GroupRowsCountSum(rows[..|rows| - 1]);
      if KeyOf(p).Some? {
        AbsorbCountSum(GroupRows(rows[..|rows| - 1]), KeyOf(p).value, p);
      }
    }
  }

  /** There are no more groups than rows counted in them. */
  lemma {:induction false} GroupsAtMostCounted(gs: seq<Group>)
    requires forall g :: g in gs ==> g.totals.count > 0
    ensures |gs| <= CountSum(gs)
    decreases |gs|
  {
    if gs != [] {
      assert forall g :: g in gs[1..] ==> g in gs;
      GroupsAtMostCounted(gs[1..]);
    }
  }

  /** One row of the daily metrics table. */
  datatype DailyMetric = DailyMetric(
    platform: string,
    date: int,
    engagementScoreSum: int,
    engagementScoreMean: real,
    engagementScoreCount: nat,
    likesSum: int,
    commentsSum: int,
    sharesSum: int)
  {
    function Key(): GroupKey
    {
      GroupKey(platform, date)
    }
  }

  /** The output row of one group: its key and aggregates, the mean as an exact quotient. */
  function ToMetric(g: Group): (m: DailyMetric)
    requires g.totals.count > 0
    ensures m.Key() == g.key && m.engagementScoreCount == g.totals.count
  {
    var t := g.totals;
    DailyMetric(g.key.platform, g.key.date, t.scoreSum, t.scoreSum as real / t.count as real, t.count,
                t.likesSum, t.commentsSum, t.sharesSum)
  }

  /** `compute_daily_metrics`: one row per (platform, date) group, in key order. */
  function ComputeDailyMetrics(rows: seq<Post>): (r: seq<DailyMetric>)
    ensures rows == [] ==> r == []
  {
    if rows == [] then []
    else
      var gs := GroupRows(rows);
      seq(|gs|, i requires 0 <= i < |gs| => ToMetric(gs[i]))
  }

  /** Total count of the daily metrics. */
  function MetricCountSum(ms: seq<DailyMetric>): nat
  {
    if ms == [] then 0 else ms[0].engagementScoreCount + MetricCountSum(ms[1..])
  }

  /** The rows come out strictly increasing by (platform, date): one row per group. */
  lemma DailyMetricsSorted(rows: seq<Post>)
    ensures var r := ComputeDailyMetrics(rows);
      forall i, j :: 0 <= i < j < |r| ==> KeyLess(r[i].Key(), r[j].Key())
  {
    GroupRowsSorted(rows);
  }

  /** There is a row for key `k` exactly when some input row has platform and date making up `k`. */
  lemma DailyMetricsGroups(rows: seq<Post>, k: GroupKey)
    ensures var r := ComputeDailyMetrics(rows);
      (exists i :: 0 <= i < |r| && r[i].Key() == k) <==> (exists j :: 0 <= j < |rows| && KeyOf(rows[j]) == Some(k))
  {
    var gs := GroupRows(rows);
    GroupRowsFind(rows, k);
    GroupRowsSorted(rows);
    MembersPresent(rows, k);
    GroupPresent(gs, k);
    var r := ComputeDailyMetrics(rows);
    if rows != [] {
      assert forall i :: 0 <= i < |r| ==> r[i].Key() == gs[i].key;
    }
  }

  /** A group has members exactly when some row carries its key. */
  lemma MembersPresent(rows: seq<Post>, k: GroupKey)
    ensures Members(rows, k) != [] <==> exists j :: 0 <= j < |rows| && KeyOf(rows[j]) == Some(k)
  {
    if Members(rows, k) != [] {
      assert Members(rows, k)[0] in Members(rows, k);
    }
  }

  /** In an increasing list, `k` finds something exactly when it is the key of some entry. */
  lemma GroupPresent(gs: seq<Group>, k: GroupKey)
    requires KeysIncreasing(gs)
    ensures Find(gs, k).Some? <==> exists i :: 0 <= i < |gs| && gs[i].key == k
  {
    if exists i :: 0 <= i < |gs| && gs[i].key == k {
      var i :| 0 <= i < |gs| && gs[i].key == k;
      FindSorted(gs, i);
    }
    if Find(gs, k).Some? {
      FindSome(gs, k);
    }
  }

  /**
   * Each row aggregates exactly its group's rows: the sums of engagement_score,
   * likes, comments and shares over them, their number, and the mean as sum / count.
   */
  lemma DailyMetricsTotals(rows: seq<Post>, i: int)
    requires 0 <= i < |ComputeDailyMetrics(rows)|
    ensures var m := ComputeDailyMetrics(rows)[i];
      var members := Members(rows, m.Key());
      && m.engagementScoreCount == |members| > 0
      && m.engagementScoreSum == Tally(members).scoreSum
      && m.likesSum == Tally(members).likesSum
      && m.commentsSum == Tally(members).commentsSum
      && m.sharesSum == Tally(members).sharesSum
      && m.engagementScoreMean == m.engagementScoreSum as real / m.engagementScoreCount as real
  {
    var gs := GroupRows(rows);
    GroupRowsSorted(rows);
    FindSorted(gs, i);
    GroupRowsFind(rows, gs[i].key);
  }

  /**
   * The counts add up to the number of rows with a platform and a date: rows
   * with a null date (or platform) fall in no group. Hence there are never more
   * metric rows than input rows.
   */
  lemma DailyMetricsCounts(rows: seq<Post>)
    ensures MetricCountSum(ComputeDailyMetrics(rows)) == KeyedCount(rows)
    ensures |ComputeDailyMetrics(rows)| <= KeyedCount(rows)
  {
    if rows != [] {
      var gs := GroupRows(rows);
      var r := ComputeDailyMetrics(rows);
      GroupRowsCountSum(rows);
      GroupsAtMostCounted(gs);
      MetricsCountGroups(gs, r);
    }
  }

  lemma {:induction false} MetricsCountGroups(gs: seq<Group>, ms: seq<DailyMetric>)
    requires |gs| == |ms|
    requires forall i :: 0 <= i < |gs| ==> ms[i].engagementScoreCount == gs[i].totals.count
    ensures MetricCountSum(ms) == CountSum(gs)
    decreases |gs|
  {
    if gs != [] {
      MetricsCountGroups(gs[1..], ms[1..]);
    }
  }

  // ---------------------------------------------------------------------
  // compute_moving_average
  // ---------------------------------------------------------------------

  lemma KeyLeqTransitive(a: GroupKey, b: GroupKey, c: GroupKey)
    requires KeyLeq(a, b) && KeyLeq(b, c)
    ensures KeyLeq(a, c)
  {
    if a != b && b != c {
      KeyLessTransitive(a, b, c);
    }
  }

  /** Ascending by (platform, date), the order `sort_values(['platform', 'date'])` produces. */
  predicate MetricsSorted(ms: seq<DailyMetric>)
  {
    forall i, j :: 0 <= i < j < |ms| ==> KeyLeq(ms[i].Key(), ms[j].Key())
  }

  /** Inserts `m` after every row whose key is not above its own. */
  function InsertByKey(ms: seq<DailyMetric>, m: DailyMetric): (r: seq<DailyMetric>)
    ensures |r| == |ms| + 1 && multiset(r) == multiset(ms) + multiset{m}
  {
    if ms == [] then [m]
    else if KeyLess(m.Key(), ms[0].Key()) then [m] + ms
    else
      assert ms == [ms[0]] + ms[1..];
      [ms[0]] + InsertByKey(ms[1..], m)
  }

  /** The rows in (platform, date) order: each row is inserted into the sorted earlier rows. */
  function SortByKey(ms: seq<DailyMetric>): (r: seq<DailyMetric>)
    ensures |r| == |ms| && multiset(r) == multiset(ms)
  {
    if ms == [] then []
    else
      assert ms == ms[..|ms| - 1] + [ms[|ms| - 1]];
      InsertByKey(SortByKey(ms[..|ms| - 1]), ms[|ms| - 1])
  }

  /** Inserting a row whose key is at least `b` among rows whose keys are at least `b`. */
  lemma {:induction false} InsertByKeyAbove(ms: seq<DailyMetric>, m: DailyMetric, b: GroupKey)
    requires forall i :: 0 <= i < |ms| ==> KeyLeq(b, ms[i].Key())
    requires KeyLeq(b, m.Key())
    ensures forall i :: 0 <= i < |InsertByKey(ms, m)| ==> KeyLeq(b, InsertByKey(ms, m)[i].Key())
    decreases |ms|
  {
    if ms != [] && !KeyLess(m.Key(), ms[0].Key()) {
      InsertByKeyAbove(ms[1..], m, b);
      var r := InsertByKey(ms, m);
      assert forall i :: 0 < i < |r| ==> r[i] == InsertByKey(ms[1..], m)[i - 1];
    }
  }

  lemma {:induction false} InsertByKeySorted(ms: seq<DailyMetric>, m: DailyMetric)
    requires MetricsSorted(ms)
    ensures MetricsSorted(InsertByKey(ms, m))
    decreases |ms|
  {
    if ms != [] {
      var r := InsertByKey(ms, m);
      if KeyLess(m.Key(), ms[0].Key()) {
        forall j | 0 < j < |r| ensures KeyLeq(m.Key(), r[j].Key()) {
          KeyLeqTransitive(m.Key(), ms[0].Key(), ms[j - 1].Key());
        }
      } else {
        var rest := InsertByKey(ms[1..], m);
        InsertByKeySorted(ms[1..], m);
        KeyLessTotal(m.Key(), ms[0].Key());
        InsertByKeyAbove(ms[1..], m, ms[0].Key());
        assert forall j :: 0 < j < |r| ==> r[j] == rest[j - 1];
      }
    }
  }

  lemma {:induction false} SortByKeySorted(ms: seq<DailyMetric>)
    ensures MetricsSorted(SortByKey(ms))
    decreases |ms|
  {
    if ms != [] {
      SortByKeySorted(ms[..|ms| - 1]);
      InsertByKeySorted(SortByKey(ms[..|ms| - 1]), ms[|ms| - 1]);
    }
  }

  /** The rows whose (platform, date) key is `k`, in order. */
  function WithKey(ms: seq<DailyMetric>, k: GroupKey): (r: seq<DailyMetric>)
    ensures |r| <= |ms|
  {
    if ms == [] then []
    else WithKey(ms[..|ms| - 1], k) + if ms[|ms| - 1].Key() == k then [ms[|ms| - 1]] else []
  }

  lemma WithKeyConcat(a: seq<DailyMetric>, b: seq<DailyMetric>, k: GroupKey)
    ensures WithKey(a + b, k) == WithKey(a, k) + WithKey(b, k)
    decreases |b|
  {
    if b != [] {
      assert (a + b)[..|a + b| - 1] == a + b[..|b| - 1];
      WithKeyConcat(a, b[..|b| - 1], k);
    } else {
      assert a + b == a;
    }
  }

  /** No row has key `k`, so none is kept. */
  lemma {:induction false} WithKeyNone(ms: seq<DailyMetric>, k: GroupKey)
    requires forall i :: 0 <= i < |ms| ==> ms[i].Key() != k
    ensures WithKey(ms, k) == []
    decreases |ms|
  {
    if ms != [] {
      WithKeyNone(ms[..|ms| - 1], k);
    }
  }

  lemma WithKeyOne(m: DailyMetric, k: GroupKey)
    ensures WithKey([m], k) == if m.Key() == k then [m] else []
  {
    assert [m][..0] == [];
  }

  /** Inserting `m` adds it behind the rows of equal key already there. */
  lemma {:induction false} InsertByKeyStable(ms: seq<DailyMetric>, m: DailyMetric, k: GroupKey)
    requires MetricsSorted(ms)
    ensures WithKey(InsertByKey(ms, m), k) == WithKey(ms, k) + WithKey([m], k)
    decreases |ms|
  {
    if ms == [] {
      assert InsertByKey(ms, m) == [m];
    } else if KeyLess(m.Key(), ms[0].Key()) {
      InsertFrontKeyStable(ms, m, k);
    } else {
      InsertByKeyStable(ms[1..], m, k);
      InsertBehindKeyStable(ms, m, k);
    }
  }

  lemma InsertFrontKeyStable(ms: seq<DailyMetric>, m: DailyMetric, k: GroupKey)
    requires MetricsSorted(ms) && ms != [] && KeyLess(m.Key(), ms[0].Key())
    ensures WithKey(InsertByKey(ms, m), k) == WithKey(ms, k) + WithKey([m], k)
  {
    WithKeyConcat([m], ms, k);
    WithKeyOne(m, k);
    if m.Key() == k {
      forall i | 0 <= i < |ms| ensures ms[i].Key() != k {
        KeyLessIrreflexive(m.Key());
        if KeyLess(ms[0].Key(), ms[i].Key()) {
          KeyLessTransitive(m.Key(), ms[0].Key(), ms[i].Key());
        }
      }
      WithKeyNone(ms, k);
    }
  }

  lemma InsertBehindKeyStable(ms: seq<DailyMetric>, m: DailyMetric, k: GroupKey)
    requires ms != [] && !KeyLess(m.Key(), ms[0].Key())
    requires WithKey(InsertByKey(ms[1..], m), k) == WithKey(ms[1..], k) + WithKey([m], k)
    ensures WithKey(InsertByKey(ms, m), k) == WithKey(ms, k) + WithKey([m], k)
  {
    var rest := InsertByKey(ms[1..], m);
    assert InsertByKey(ms, m) == [ms[0]] + rest;
    WithKeyConcat([ms[0]], rest, k);
    assert [ms[0]] + ms[1..] == ms;
    WithKeyConcat([ms[0]], ms[1..], k);
  }

  /** Sorting keeps the rows of each (platform, date) key in input order: the sort is stable. */
  lemma {:induction false} SortByKeyStable(ms: seq<DailyMetric>, k: GroupKey)
    ensures WithKey(SortByKey(ms), k) == WithKey(ms, k)
    decreases |ms|
  {
    if ms != [] {
      var init := ms[..|ms| - 1];
      SortByKeyStable(init, k);
      SortByKeySorted(init);
      InsertByKeyStable(SortByKey(init), ms[|ms| - 1], k);
      WithKeyOne(ms[|ms| - 1], k);
    }
  }

  /** The engagement_score_sum values of platform `pl` in row order: that platform's groupby series. */
  function Series(ms: seq<DailyMetric>, pl: string): (r: seq<int>)
    ensures |r| <= |ms|
  {
    if ms == [] then []
    else
      var last := ms[|ms| - 1];
      Series(ms[..|ms| - 1], pl) + if last.platform == pl then [last.engagementScoreSum] else []
  }

  /** The series of a prefix of the rows is a prefix of the series of all rows. */
  lemma {:induction false} SeriesPrefix(ms: seq<DailyMetric>, n: int, pl: string)
    requires 0 <= n <= |ms|
    ensures var xs := Series(ms[..n], pl);
      |xs| <= |Series(ms, pl)| && Series(ms, pl)[..|xs|] == xs
    decreases |ms|
  {
    if n < |ms| {
      var init := ms[..|ms| - 1];
      assert init[..n] == ms[..n];
      SeriesPrefix(init, n, pl);
    } else {
      assert ms[..n] == ms;
    }
  }

  /** Row `i` is the next value of its platform's series after the rows before it. */
  lemma SeriesAt(ms: seq<DailyMetric>, i: int)
    requires 0 <= i < |ms|
    ensures var pl := ms[i].platform;
      Series(ms[..i + 1], pl) == Series(ms[..i], pl) + [ms[i].engagementScoreSum]
      && |Series(ms[..i], pl)| < |Series(ms, pl)|
      && Series(ms, pl)[..|Series(ms[..i], pl)| + 1] == Series(ms[..i + 1], pl)
  {
    assert ms[..i + 1][..i] == ms[..i];
    SeriesPrefix(ms, i + 1, ms[i].platform);
  }

  function Sum(xs: seq<int>): int
  {
    if xs == [] then 0 else Sum(xs[..|xs| - 1]) + xs[|xs| - 1]
  }

  function Mean(xs: seq<int>): real
    requires xs != []
  {
    Sum(xs) as real / |xs| as real
  }

  /**
   * `rolling(window, min_periods=1).mean()` at position `j` of a series: the
   * mean of the values from position j - window + 1 (but at least 0) through j.
   */
  function RollingMean(xs: seq<int>, window: int, j: int): real
    requires window >= 1 && 0 <= j < |xs|
  {
    Mean(xs[Max(0, j + 1 - window)..j + 1])
  }

  /** A daily metrics row with its `engagement_ma`. */
  datatype AveragedMetric = AveragedMetric(metric: DailyMetric, engagementMa: real)

  /** pandas rejects a rolling window below min_periods = 1 with a ValueError. */
  datatype WindowError = WindowTooSmall(window: int)

  function MetricsOf(rs: seq<AveragedMetric>): (r: seq<DailyMetric>)
    ensures |r| == |rs| && forall i :: 0 <= i < |rs| ==> r[i] == rs[i].metric
  {
    seq(|rs|, i requires 0 <= i < |rs| => rs[i].metric)
  }

  /** engagement_ma of row `i` of the sorted rows: the rolling mean of its platform's series at its position. */
  function AverageAt(sorted: seq<DailyMetric>, window: int, i: int): real
    requires window >= 1 && 0 <= i < |sorted|
  {
    var pl := sorted[i].platform;
    SeriesAt(sorted, i);
    RollingMean(Series(sorted, pl), window, |Series(sorted[..i], pl)|)
  }

  /**
   * `compute_moving_average`: sorts by (platform, date), then gives every row
   * the rolling mean of its own platform's series at its position in it.
   */
  function ComputeMovingAverage(ms: seq<DailyMetric>, window: int): (r: Result<seq<AveragedMetric>, WindowError>)
    ensures ms == [] ==> r == Ok([])
    ensures r.Err? <==> ms != [] && window < 1
    ensures r.Ok? ==> |r.value| == |ms|
  {
    if ms == [] then Ok([])
    else if window < 1 then Err(WindowTooSmall(window))
    else
      var sorted := SortByKey(ms);
      Ok(seq(|sorted|, i requires 0 <= i < |sorted| => AveragedMetric(sorted[i], AverageAt(sorted, window, i))))
  }

  /** How the successful result is built: the sorted rows, each with its average. */
  lemma MovingAverageRows(ms: seq<DailyMetric>, window: int)
    requires ComputeMovingAverage(ms, window).Ok? && ms != []
    ensures var rs := ComputeMovingAverage(ms, window).value;
      && window >= 1
      && MetricsOf(rs) == SortByKey(ms)
      && forall i :: 0 <= i < |rs| ==> rs[i].engagementMa == AverageAt(SortByKey(ms), window, i)
  {
  }

  /**
   * The output rows are the input rows, each once, ascending by (platform,
   * date); rows with equal keys keep their input order.
   */
  lemma MovingAverageOrder(ms: seq<DailyMetric>, window: int)
    requires ComputeMovingAverage(ms, window).Ok?
    ensures var out := MetricsOf(ComputeMovingAverage(ms, window).value);
      && multiset(out) == multiset(ms) && MetricsSorted(out)
      && forall k :: WithKey(out, k) == WithKey(ms, k)
  {
    if ms != [] {
      MovingAverageRows(ms, window);
      SortByKeySorted(ms);
      forall k ensures WithKey(SortByKey(ms), k) == WithKey(ms, k) {
        SortByKeyStable(ms, k);
      }
    }
  }

  /** The trailing window of row `i`: the last min(window, n) values of the n rows up to `i` on its platform. */
  lemma AverageAtWindow(sorted: seq<DailyMetric>, window: int, i: int)
    requires window >= 1 && 0 <= i < |sorted|
    ensures var xs := Series(sorted[..i + 1], sorted[i].platform);
      xs != [] && AverageAt(sorted, window, i) == Mean(xs[|xs| - Min(window, |xs|)..])
  {
    var pl := sorted[i].platform;
    SeriesAt(sorted, i);
    var all := Series(sorted, pl);
    var j := |Series(sorted[..i], pl)|;
    var xs := Series(sorted[..i + 1], pl);
    assert xs == all[..j + 1];
    assert all[Max(0, j + 1 - window)..j + 1] == xs[|xs| - Min(window, |xs|)..];
  }

  /**
   * engagement_ma of output row `i` is the mean of the last min(window, n)
   * engagement_score_sum values of the n rows up to and including row `i`
   * that share its platform: values of other platforms never enter the window.
   */
  lemma MovingAverageWindow(ms: seq<DailyMetric>, window: int, i: int)
    requires ComputeMovingAverage(ms, window).Ok? && 0 <= i < |ms|
    ensures var rs := ComputeMovingAverage(ms, window).value;
      var out := MetricsOf(rs);
      var xs := Series(out[..i + 1], out[i].platform);
      && xs != []
      && rs[i].engagementMa == Mean(xs[|xs| - Min(window, |xs|)..])
  {
    MovingAverageRows(ms, window);
    AverageAtWindow(SortByKey(ms), window, i);
  }

  /** A row with no earlier row of its platform averages over itself alone. */
  lemma AverageAtFirst(sorted: seq<DailyMetric>, window: int, i: int)
    requires window >= 1 && 0 <= i < |sorted|
    requires forall j :: 0 <= j < i ==> sorted[j].platform != sorted[i].platform
    ensures AverageAt(sorted, window, i) == sorted[i].engagementScoreSum as real
  {
    var pl := sorted[i].platform;
    AverageAtWindow(sorted, window, i);
    SeriesAt(sorted, i);
    SeriesOfOthers(sorted[..i], pl);
    var xs := Series(sorted[..i + 1], pl);
    assert xs == [sorted[i].engagementScoreSum];
    assert xs[|xs| - Min(window, |xs|)..] == xs;
    assert Sum(xs) == Sum([]) + sorted[i].engagementScoreSum;
  }

  /** The first row of each platform has only itself in its window: its average is its own sum. */
  lemma MovingAverageFirstOfPlatform(ms: seq<DailyMetric>, window: int, i: int)
    requires ComputeMovingAverage(ms, window).Ok? && 0 <= i < |ms|
    requires var out := MetricsOf(ComputeMovingAverage(ms, window).value);
      forall j :: 0 <= j < i ==> out[j].platform != out[i].platform
    ensures var rs := ComputeMovingAverage(ms, window).value;
      rs[i].engagementMa == rs[i].metric.engagementScoreSum as real
  {
    MovingAverageRows(ms, window);
    AverageAtFirst(SortByKey(ms), window, i);
  }

  /** A platform absent from the rows has an empty series. */
  lemma {:induction false} SeriesOfOthers(ms: seq<DailyMetric>, pl: string)
    requires forall j :: 0 <= j < |ms| ==> ms[j].platform != pl
    ensures Series(ms, pl) == []
    decreases |ms|
  {
    if ms != [] {
      SeriesOfOthers(ms[..|ms| - 1], pl);
    }
  }

  // ---------------------------------------------------------------------
  // identify_top_posts
  // ---------------------------------------------------------------------

  /** Non-increasing in engagement_score. */
  predicate ScoresDescending(ps: seq<Post>)
  {
    forall i, j :: 0 <= i < j < |ps| ==> ps[i].engagementScore >= ps[j].engagementScore
  }

  /** Inserts `p` after every row scoring at least as much, so that ties keep their arrival order. */
  function InsertByScore(ps: seq<Post>, p: Post): (r: seq<Post>)
    ensures |r| == |ps| + 1
  {
    if ps == [] then [p]
    else if ps[0].engagementScore < p.engagementScore then [p] + ps
    else [ps[0]] + InsertByScore(ps[1..], p)
  }

  /** The rows by descending engagement_score; rows with equal scores stay in input order. */
  function SortByScore(ps: seq<Post>): (r: seq<Post>)
    ensures |r| == |ps|
  {
    if ps == [] then [] else InsertByScore(SortByScore(ps[..|ps| - 1]), ps[|ps| - 1])
  }

  lemma {:induction false} InsertByScorePermutes(ps: seq<Post>, p: Post)
    ensures multiset(InsertByScore(ps, p)) == multiset(ps) + multiset{p}
    decreases |ps|
  {
    if ps != [] && ps[0].engagementScore >= p.engagementScore {
      InsertByScorePermutes(ps[1..], p);
      assert ps == [ps[0]] + ps[1..];
    }
  }

  /** Sorting neither loses nor duplicates a row. */
  lemma {:induction false} SortByScorePermutes(ps: seq<Post>)
    ensures multiset(SortByScore(ps)) == multiset(ps)
    decreases |ps|
  {
    if ps != [] {
      SortByScorePermutes(ps[..|ps| - 1]);
      InsertByScorePermutes(SortByScore(ps[..|ps| - 1]), ps[|ps| - 1]);
      assert ps == ps[..|ps| - 1] + [ps[|ps| - 1]];
    }
  }

  lemma {:induction false} InsertByScoreBelow(ps: seq<Post>, p: Post, b: int)
    requires forall i :: 0 <= i < |ps| ==> ps[i].engagementScore <= b
    requires p.engagementScore <= b
    ensures forall i :: 0 <= i < |InsertByScore(ps, p)| ==> InsertByScore(ps, p)[i].engagementScore <= b
    decreases |ps|
  {
    if ps != [] && ps[0].engagementScore >= p.engagementScore {
      InsertByScoreBelow(ps[1..], p, b);
      var r := InsertByScore(ps, p);
      assert forall i :: 0 < i < |r| ==> r[i] == InsertByScore(ps[1..], p)[i - 1];
    }
  }

  lemma {:induction false} InsertByScoreDescending(ps: seq<Post>, p: Post)
    requires ScoresDescending(ps)
    ensures ScoresDescending(InsertByScore(ps, p))
    decreases |ps|
  {
    if ps != [] && ps[0].engagementScore >= p.engagementScore {
      var r := InsertByScore(ps, p);
      var rest := InsertByScore(ps[1..], p);
      InsertByScoreDescending(ps[1..], p);
      InsertByScoreBelow(ps[1..], p, ps[0].engagementScore);
      assert forall j :: 0 < j < |r| ==> r[j] == rest[j - 1];
    }
  }

  lemma {:induction false} SortByScoreDescending(ps: seq<Post>)
    ensures ScoresDescending(SortByScore(ps))
    decreases |ps|
  {
    if ps != [] {
      SortByScoreDescending(ps[..|ps| - 1]);
      InsertByScoreDescending(SortByScore(ps[..|ps| - 1]), ps[|ps| - 1]);
    }
  }

  /** The rows scoring exactly `v`, in order. */
  function WithScore(ps: seq<Post>, v: int): (r: seq<Post>)
    ensures |r| <= |ps|
  {
    if ps == [] then []
    else WithScore(ps[..|ps| - 1], v) + if ps[|ps| - 1].engagementScore == v then [ps[|ps| - 1]] else []
  }

  lemma WithScoreConcat(a: seq<Post>, b: seq<Post>, v: int)
    ensures WithScore(a + b, v) == WithScore(a, v) + WithScore(b, v)
    decreases |b|
  {
    if b != [] {
      assert (a + b)[..|a + b| - 1] == a + b[..|b| - 1];
      WithScoreConcat(a, b[..|b| - 1], v);
    } else {
      assert a + b == a;
    }
  }

  /** The rows of a prefix that score `v` are a prefix of the rows that score `v`. */
  lemma {:induction false} WithScorePrefix(ps: seq<Post>, n: int, v: int)
    requires 0 <= n <= |ps|
    ensures var xs := WithScore(ps[..n], v);
      |xs| <= |WithScore(ps, v)| && WithScore(ps, v)[..|xs|] == xs
    decreases |ps|
  {
    if n < |ps| {
      var init := ps[..|ps| - 1];
      assert init[..n] == ps[..n];
      WithScorePrefix(init, n, v);
    } else {
      assert ps[..n] == ps;
    }
  }

  /** No row scores `v`, so none is kept. */
  lemma {:induction false} WithScoreNone(ps: seq<Post>, v: int)
    requires forall i :: 0 <= i < |ps| ==> ps[i].engagementScore != v
    ensures WithScore(ps, v) == []
    decreases |ps|
  {
    if ps != [] {
      WithScoreNone(ps[..|ps| - 1], v);
    }
  }

  lemma WithScoreOne(p: Post, v: int)
    ensures WithScore([p], v) == if p.engagementScore == v then [p] else []
  {
    assert [p][..0] == [];
  }

  /** Inserting `p` adds it behind the rows of equal score already there. */
  lemma {:induction false} InsertByScoreStable(ps: seq<Post>, p: Post, v: int)
    requires ScoresDescending(ps)
    ensures WithScore(InsertByScore(ps, p), v) == WithScore(ps, v) + WithScore([p], v)
    decreases |ps|
  {
    if ps == [] {
      assert InsertByScore(ps, p) == [p];
    } else if ps[0].engagementScore < p.engagementScore {
      InsertFrontStable(ps, p, v);
    } else {
      InsertByScoreStable(ps[1..], p, v);
      InsertBehindStable(ps, p, v);
    }
  }

  lemma InsertFrontStable(ps: seq<Post>, p: Post, v: int)
    requires ScoresDescending(ps) && ps != [] && ps[0].engagementScore < p.engagementScore
    ensures WithScore(InsertByScore(ps, p), v) == WithScore(ps, v) + WithScore([p], v)
  {
    WithScoreConcat([p], ps, v);
    WithScoreOne(p, v);
    if p.engagementScore == v {
      WithScoreNone(ps, v);
    }
  }

  lemma InsertBehindStable(ps: seq<Post>, p: Post, v: int)
    requires ps != [] && ps[0].engagementScore >= p.engagementScore
    requires WithScore(InsertByScore(ps[1..], p), v) == WithScore(ps[1..], v) + WithScore([p], v)
    ensures WithScore(InsertByScore(ps, p), v) == WithScore(ps, v) + WithScore([p], v)
  {
    var rest := InsertByScore(ps[1..], p);
    assert InsertByScore(ps, p) == [ps[0]] + rest;
    WithScoreConcat([ps[0]], rest, v);
    assert [ps[0]] + ps[1..] == ps;
    WithScoreConcat([ps[0]], ps[1..], v);
    calc {
      WithScore(InsertByScore(ps, p), v);
      WithScore([ps[0]], v) + WithScore(rest, v);
      WithScore([ps[0]], v) + (WithScore(ps[1..], v) + WithScore([p], v));
      (WithScore([ps[0]], v) + WithScore(ps[1..], v)) + WithScore([p], v);
      WithScore(ps, v) + WithScore([p], v);
    }
  }

  /** Sorting keeps the rows of each score in input order: the sort is stable. */
  lemma {:induction false} SortByScoreStable(ps: seq<Post>, v: int)
    ensures WithScore(SortByScore(ps), v) == WithScore(ps, v)
    decreases |ps|
  {
    if ps != [] {
      var init := ps[..|ps| - 1];
      SortByScoreStable(init, v);
      SortByScoreDescending(init);
      InsertByScoreStable(SortByScore(init), ps[|ps| - 1], v);
      WithScoreOne(ps[|ps| - 1], v);
    }
  }

  /** How many rows `nlargest(n)` keeps: none for n <= 0, at most all of them. */
  function TopCount(n: int, rows: nat): (k: nat)
    ensures k <= rows && (n >= 0 ==> k <= n)
  {
    Min(Max(n, 0), rows)
  }

  /** `nlargest(n, 'engagement_score')` with keep='first'. */
  function NLargest(ps: seq<Post>, n: int): (r: seq<Post>)
    ensures |r| == TopCount(n, |ps|)
  {
    SortByScore(ps)[..TopCount(n, |ps|)]
  }

  /**
   * `nlargest`: the first min(n, |ps|) rows by descending score, taken from the
   * input, and no row left out scores more than the last row kept.
   */
  lemma NLargestSpec(ps: seq<Post>, n: int)
    ensures var r := NLargest(ps, n);
      && ScoresDescending(r)
      && multiset(r) <= multiset(ps)
      && (forall p :: p in r ==> p in ps)
      && forall p :: p in multiset(ps) - multiset(r) ==> forall i :: 0 <= i < |r| ==> p.engagementScore <= r[i].engagementScore
  {
    var sorted := SortByScore(ps);
    var k := TopCount(n, |ps|);
    SortByScoreDescending(ps);
    SortByScorePermutes(ps);
    PermutationPrefix(sorted, ps, k);
    DescendingSplit(sorted, k);
  }

  /** A prefix of a rearrangement of `ps` is drawn from `ps`, and what it leaves out is the rest of the rearrangement. */
  lemma PermutationPrefix(sorted: seq<Post>, ps: seq<Post>, k: int)
    requires multiset(sorted) == multiset(ps) && 0 <= k <= |sorted|
    ensures multiset(sorted[..k]) <= multiset(ps)
    ensures forall p :: p in sorted[..k] ==> p in ps
    ensures multiset(ps) - multiset(sorted[..k]) == multiset(sorted[k..])
  {
    assert sorted == sorted[..k] + sorted[k..];
    forall p | p in sorted[..k] ensures p in ps {
      assert p in multiset(sorted[..k]);
      assert p in multiset(ps);
    }
  }

  /** In a descending list, every row from position `k` on scores at most every row before `k`. */
  lemma DescendingSplit(sorted: seq<Post>, k: int)
    requires ScoresDescending(sorted) && 0 <= k <= |sorted|
    ensures ScoresDescending(sorted[..k])
    ensures forall p :: p in multiset(sorted[k..]) ==> forall i :: 0 <= i < k ==> p.engagementScore <= sorted[i].engagementScore
  {
    forall p | p in multiset(sorted[k..])
      ensures forall i :: 0 <= i < k ==> p.engagementScore <= sorted[i].engagementScore
    {
      var j :| 0 <= j < |sorted[k..]| && sorted[k..][j] == p;
      assert sorted[k + j] == p;
    }
  }

  /** Among rows of equal score, nlargest keeps the earliest ones, in input order. */
  lemma NLargestStable(ps: seq<Post>, n: int, v: int)
    ensures var xs := WithScore(NLargest(ps, n), v);
      |xs| <= |WithScore(ps, v)| && WithScore(ps, v)[..|xs|] == xs
  {
    SortByScoreStable(ps, v);
    WithScorePrefix(SortByScore(ps), TopCount(n, |ps|), v);
  }

  /** Strictly increasing platform names: each platform once, in groupby order. */
  predicate NamesIncreasing(names: seq<string>)
  {
    forall i, j :: 0 <= i < j < |names| ==> StrLess(names[i], names[j])
  }

  /** Adds a platform name at its sorted place unless it is already there. */
  function InsertName(names: seq<string>, x: string): (r: seq<string>)
    ensures forall y :: y in r <==> y in names || y == x
  {
    if names == [] then [x]
    else if names[0] == x then names
    else if StrLess(x, names[0]) then [x] + names
    else [names[0]] + InsertName(names[1..], x)
  }

  lemma {:induction false} InsertNameAbove(names: seq<string>, x: string, b: string)
    requires forall i :: 0 <= i < |names| ==> StrLess(b, names[i])
    requires StrLess(b, x)
    ensures forall i :: 0 <= i < |InsertName(names, x)| ==> StrLess(b, InsertName(names, x)[i])
    decreases |names|
  {
    if names != [] && names[0] != x && !StrLess(x, names[0]) {
      InsertNameAbove(names[1..], x, b);
      var r := InsertName(names, x);
      assert forall i :: 0 < i < |r| ==> r[i] == InsertName(names[1..], x)[i - 1];
    }
  }

  lemma {:induction false} InsertNameSorted(names: seq<string>, x: string)
    requires NamesIncreasing(names)
    ensures NamesIncreasing(InsertName(names, x))
    decreases |names|
  {
    if names != [] && names[0] != x {
      var r := InsertName(names, x);
      if StrLess(x, names[0]) {
        forall j | 0 < j < |r| ensures StrLess(x, r[j]) {
          if j > 1 {
            StrLessTransitive(x, names[0], names[j - 1]);
          }
        }
      } else {
        var rest := InsertName(names[1..], x);
        InsertNameSorted(names[1..], x);
        StrLessTotal(x, names[0]);
        InsertNameAbove(names[1..], x, names[0]);
        assert forall j :: 0 < j < |r| ==> r[j] == rest[j - 1];
      }
    }
  }

  /** The platforms `groupby('platform')` forms: the non-null ones, sorted, each once. */
  function Platforms(ps: seq<Post>): (r: seq<string>)
    ensures forall x :: x in r <==> exists j :: 0 <= j < |ps| && ps[j].platform == Some(x)
  {
    if ps == [] then []
    else
      var init := Platforms(ps[..|ps| - 1]);
      assert forall j :: 0 <= j < |ps| - 1 ==> ps[..|ps| - 1][j] == ps[j];
      match ps[|ps| - 1].platform
      case None => init
      case Some(x) => InsertName(init, x)
  }

  lemma {:induction false} PlatformsIncreasing(ps: seq<Post>)
    ensures NamesIncreasing(Platforms(ps))
    decreases |ps|
  {
    if ps != [] {
      PlatformsIncreasing(ps[..|ps| - 1]);
      if ps[|ps| - 1].platform.Some? {
        InsertNameSorted(Platforms(ps[..|ps| - 1]), ps[|ps| - 1].platform.value);
      }
    }
  }

  /** The rows of platform `x`, in input order. */
  function PlatformRows(ps: seq<Post>, x: string): (r: seq<Post>)
    ensures forall p :: p in r ==> p in ps && p.platform == Some(x)
    ensures forall j :: 0 <= j < |ps| && ps[j].platform == Some(x) ==> ps[j] in r
  {
    if ps == [] then []
    else
      var init := PlatformRows(ps[..|ps| - 1], x);
      if ps[|ps| - 1].platform == Some(x) then init + [ps[|ps| - 1]] else init
  }

  /** Each platform's `nlargest(platform_n)` rows, platform by platform. */
  function PlatformBlocks(ps: seq<Post>, n: int): (r: seq<seq<Post>>)
    ensures |r| == |Platforms(ps)|
  {
    var names := Platforms(ps);
    seq(|names|, i requires 0 <= i < |names| => NLargest(PlatformRows(ps, names[i]), n))
  }

  /** A `top_overall` row: seven of the post's columns. */
  datatype TopRow = TopRow(
    platform: Option<string>,
    postId: Value,
    content: Value,
    engagementScore: int,
    likes: int,
    comments: int,
    shares: int)

  /** A `top_per_platform` row: the same columns without the platform. */
  datatype PlatformTopRow = PlatformTopRow(
    postId: Value,
    content: Value,
    engagementScore: int,
    likes: int,
    comments: int,
    shares: int)

  function OverallRows(ps: seq<Post>): (r: seq<TopRow>)
    ensures |r| == |ps|
  {
    seq(|ps|, i requires 0 <= i < |ps| =>
      var p := ps[i];
      TopRow(p.platform, p.postId, p.content, p.engagementScore, p.likes, p.comments, p.shares))
  }

  function PlatformTopRows(ps: seq<Post>): (r: seq<PlatformTopRow>)
    ensures |r| == |ps|
  {
    seq(|ps|, i requires 0 <= i < |ps| =>
      var p := ps[i];
      PlatformTopRow(p.postId, p.content, p.engagementScore, p.likes, p.comments, p.shares))
  }

  /** The blocks one after another, in group order. */
  function Stack(blocks: seq<seq<Post>>): (r: seq<Post>)
  {
    if blocks == [] then [] else Stack(blocks[..|blocks| - 1]) + blocks[|blocks| - 1]
  }

  function StackedLength(blocks: seq<seq<Post>>): nat
  {
    if blocks == [] then 0 else StackedLength(blocks[..|blocks| - 1]) + |blocks[|blocks| - 1]|
  }

  lemma {:induction false} StackLength(blocks: seq<seq<Post>>)
    ensures |Stack(blocks)| == StackedLength(blocks)
    decreases |blocks|
  {
    if blocks != [] {
      StackLength(blocks[..|blocks| - 1]);
    }
  }

  /** The rows with a non-null platform, in input order. */
  function GroupedRows(ps: seq<Post>): (r: seq<Post>)
    ensures forall p :: p in r ==> p in ps && p.platform.Some?
  {
    if ps == [] then []
    else
      var last := ps[|ps| - 1];
      GroupedRows(ps[..|ps| - 1]) + if last.platform.Some? then [last] else []
  }

  /**
   * Every group's `nlargest` block is the group itself, row for row. `apply`
   * then finds each result indexed like its group and treats the call as a
   * transform.
   */
  predicate BlocksKeepGroups(ps: seq<Post>, n: int)
  {
    forall i :: 0 <= i < |Platforms(ps)| ==> PlatformBlocks(ps, n)[i] == PlatformRows(ps, Platforms(ps)[i])
  }

  /**
   * The rows `groupby('platform', group_keys=False).apply(...)` combines.
   * When some block differs from its group, the blocks are concatenated in
   * group order. When every block is its group, the result is put back on
   * the input's row axis without the null-platform rows, so the rows come
   * in input order.
   */
  function PerPlatformRows(ps: seq<Post>, n: int): seq<Post>
  {
    if BlocksKeepGroups(ps, n) then GroupedRows(ps) else Stack(PlatformBlocks(ps, n))
  }

  /** The result of `identify_top_posts`: an empty mapping, or both selections. */
  datatype TopPosts = NoTopPosts | TopPosts(topOverall: seq<TopRow>, topPerPlatform: seq<PlatformTopRow>)

  /** `identify_top_posts`. */
  function IdentifyTopPosts(ps: seq<Post>, overallN: int, platformN: int): (r: TopPosts)
    ensures r.NoTopPosts? <==> ps == []
    ensures r.TopPosts? ==> |r.topOverall| == TopCount(overallN, |ps|)
  {
    if ps == [] then NoTopPosts
    else TopPosts(OverallRows(NLargest(ps, overallN)), PlatformTopRows(PerPlatformRows(ps, platformN)))
  }

  /**
   * `top_overall`: at most overall_n rows, scores non-increasing, each the
   * seven columns of an input row; every row not chosen scores at most every
   * row chosen.
   */
  lemma TopOverallSpec(ps: seq<Post>, n: int, platformN: int)
    requires ps != []
    ensures var top := IdentifyTopPosts(ps, n, platformN).topOverall;
      var chosen := NLargest(ps, n);
      && top == OverallRows(chosen)
      && (forall i, j :: 0 <= i < j < |top| ==> top[i].engagementScore >= top[j].engagementScore)
      && multiset(chosen) <= multiset(ps)
      && forall p :: p in multiset(ps) - multiset(chosen) ==> forall i :: 0 <= i < |top| ==> p.engagementScore <= top[i].engagementScore
  {
    NLargestSpec(ps, n);
  }

  /**
   * There is one block per non-null platform, in sorted platform order;
   * block `i` is `nlargest(platform_n)` of that platform's rows:
   * min(platform_n, its row count) rows, all of that platform, none of its
   * other rows scoring above a chosen one.
   */
  lemma PlatformBlocksSpec(ps: seq<Post>, n: int, i: int)
    requires 0 <= i < |Platforms(ps)|
    ensures var name := Platforms(ps)[i];
      var rows := PlatformRows(ps, name);
      var block := PlatformBlocks(ps, n)[i];
      && rows != []
      && |block| == TopCount(n, |rows|)
      && (n >= 1 ==> |block| >= 1)
      && (forall p :: p in block ==> p in ps && p.platform == Some(name))
      && ScoresDescending(block)
      && forall p :: p in multiset(rows) - multiset(block) ==> forall j :: 0 <= j < |block| ==> p.engagementScore <= block[j].engagementScore
  {
    var name := Platforms(ps)[i];
    var rows := PlatformRows(ps, name);
    assert name in Platforms(ps);
    var j :| 0 <= j < |ps| && ps[j].platform == Some(name);
    assert ps[j] in rows;
    NLargestSpec(rows, n);
  }

  /** The blocks' platforms are exactly the non-null platforms, each once, sorted. */
  lemma PlatformBlocksCover(ps: seq<Post>)
    ensures NamesIncreasing(Platforms(ps))
    ensures forall x :: x in Platforms(ps) <==> exists j :: 0 <= j < |ps| && ps[j].platform == Some(x)
  {
    PlatformsIncreasing(ps);
  }

  lemma PlatformRowsConcat(a: seq<Post>, b: seq<Post>, x: string)
    ensures PlatformRows(a + b, x) == PlatformRows(a, x) + PlatformRows(b, x)
    decreases |b|
  {
    if b != [] {
      assert (a + b)[..|a + b| - 1] == a + b[..|b| - 1];
      PlatformRowsConcat(a, b[..|b| - 1], x);
    } else {
      assert a + b == a;
    }
  }

  /** Rows all of platform `x` are selected whole; rows none of which are of `x` give nothing. */
  lemma {:induction false} PlatformRowsPure(b: seq<Post>, x: string)
    ensures (forall p :: p in b ==> p.platform == Some(x)) ==> PlatformRows(b, x) == b
    ensures (forall p :: p in b ==> p.platform != Some(x)) ==> PlatformRows(b, x) == []
    decreases |b|
  {
    if b != [] {
      var init := b[..|b| - 1];
      assert forall p :: p in init ==> p in b;
      PlatformRowsPure(init, x);
      assert init + [b[|b| - 1]] == b;
    }
  }

  /** Selecting a platform from the grouped rows is selecting it from all rows. */
  lemma {:induction false} GroupedRowsByPlatform(ps: seq<Post>, x: string)
    ensures PlatformRows(GroupedRows(ps), x) == PlatformRows(ps, x)
    decreases |ps|
  {
    if ps != [] {
      var init := ps[..|ps| - 1];
      var last := ps[|ps| - 1];
      GroupedRowsByPlatform(init, x);
      var tail := if last.platform.Some? then [last] else [];
      PlatformRowsConcat(GroupedRows(init), tail, x);
      if last.platform.Some? {
        assert [last][..0] == [];
      }
    }
  }

  lemma {:induction false} StackMember(blocks: seq<seq<Post>>, p: Post)
    requires p in Stack(blocks)
    ensures exists j :: 0 <= j < |blocks| && p in blocks[j]
    decreases |blocks|
  {
    var init := blocks[..|blocks| - 1];
    if p !in blocks[|blocks| - 1] {
      StackMember(init, p);
      var j :| 0 <= j < |init| && p in init[j];
      assert blocks[j] == init[j];
    }
  }

  /**
   * Selecting platform `x` from stacked blocks, block `j` holding only rows of
   * platform `names[j]` and the names distinct: the block of `x`, or nothing.
   */
  lemma {:induction false} StackByPlatform(blocks: seq<seq<Post>>, names: seq<string>, x: string)
    requires |blocks| == |names| && Distinct(names)
    requires forall j :: 0 <= j < |blocks| ==> forall p :: p in blocks[j] ==> p.platform == Some(names[j])
    ensures forall i :: 0 <= i < |names| && names[i] == x ==> PlatformRows(Stack(blocks), x) == blocks[i]
    ensures x !in names ==> PlatformRows(Stack(blocks), x) == []
    decreases |blocks|
  {
    if blocks != [] {
      var k := |blocks| - 1;
      var init, initNames := blocks[..k], names[..k];
      assert Distinct(initNames);
      StackByPlatform(init, initNames, x);
      PlatformRowsConcat(Stack(init), blocks[k], x);
      PlatformRowsPure(blocks[k], x);
      if names[k] == x {
        assert x !in initNames;
      } else {
        forall i | 0 <= i < k && names[i] == x ensures PlatformRows(Stack(blocks), x) == blocks[i] {
          assert initNames[i] == x && init[i] == blocks[i];
        }
      }
    }
  }

  /** How often `p` occurs is how often it occurs among its own platform's rows. */
  lemma {:induction false} CountWithinPlatform(a: seq<Post>, p: Post)
    requires p.platform.Some?
    ensures multiset(a)[p] == multiset(PlatformRows(a, p.platform.value))[p]
    decreases |a|
  {
    if a != [] {
      var init := a[..|a| - 1];
      CountWithinPlatform(init, p);
      assert a == init + [a[|a| - 1]];
    }
  }

  /** The platform names in groupby order are distinct. */
  lemma PlatformsDistinct(ps: seq<Post>)
    ensures Distinct(Platforms(ps))
  {
    PlatformsIncreasing(ps);
    var names := Platforms(ps);
    forall i, j | 0 <= i < j < |names| ensures names[i] != names[j] {
      if names[i] == names[j] {
        StrLessIrreflexive(names[i]);
      }
    }
  }

  /** Each block holds only rows of its own platform. */
  lemma BlocksPure(ps: seq<Post>, n: int)
    ensures forall j :: 0 <= j < |PlatformBlocks(ps, n)| ==>
      forall p :: p in PlatformBlocks(ps, n)[j] ==> p.platform == Some(Platforms(ps)[j])
  {
    forall j | 0 <= j < |PlatformBlocks(ps, n)|
      ensures forall p: Post :: p in PlatformBlocks(ps, n)[j] ==> p.platform == Some(Platforms(ps)[j])
    {
      PlatformBlocksSpec(ps, n, j);
    }
  }

  /** The stacked blocks: every row has a grouped platform, and each platform's rows are its block. */
  lemma StackedBlocksByPlatform(ps: seq<Post>, n: int)
    ensures var stacked := Stack(PlatformBlocks(ps, n));
      && (forall p :: p in stacked ==> p.platform.Some? && p.platform.value in Platforms(ps))
      && forall i :: 0 <= i < |Platforms(ps)| ==> PlatformRows(stacked, Platforms(ps)[i]) == PlatformBlocks(ps, n)[i]
  {
    var names := Platforms(ps);
    var blocks := PlatformBlocks(ps, n);
    PlatformsDistinct(ps);
    BlocksPure(ps, n);
    forall p | p in Stack(blocks) ensures p.platform.Some? && p.platform.value in names {
      StackMember(blocks, p);
    }
    forall i | 0 <= i < |names| ensures PlatformRows(Stack(blocks), names[i]) == blocks[i] {
      StackByPlatform(blocks, names, names[i]);
    }
  }

  /** The grouped rows, when every block is its group: each platform's rows are its block. */
  lemma KeptGroupsByPlatform(ps: seq<Post>, n: int)
    requires BlocksKeepGroups(ps, n)
    ensures var rows := GroupedRows(ps);
      && (forall p :: p in rows ==> p.platform.Some? && p.platform.value in Platforms(ps))
      && forall i :: 0 <= i < |Platforms(ps)| ==> PlatformRows(rows, Platforms(ps)[i]) == PlatformBlocks(ps, n)[i]
  {
    var rows := GroupedRows(ps);
    forall p | p in rows ensures p.platform.Some? && p.platform.value in Platforms(ps) {
      var j :| 0 <= j < |ps| && ps[j] == p;
    }
    forall i | 0 <= i < |Platforms(ps)| ensures PlatformRows(rows, Platforms(ps)[i]) == PlatformBlocks(ps, n)[i] {
      GroupedRowsByPlatform(ps, Platforms(ps)[i]);
    }
  }

  /** Rows whose platforms all lie in `names` and agree platform by platform are the same multiset. */
  lemma SameByPlatform(a: seq<Post>, b: seq<Post>, names: seq<string>)
    requires forall p :: p in a ==> p.platform.Some? && p.platform.value in names
    requires forall p :: p in b ==> p.platform.Some? && p.platform.value in names
    requires forall i :: 0 <= i < |names| ==> PlatformRows(a, names[i]) == PlatformRows(b, names[i])
    ensures multiset(a) == multiset(b)
  {
    forall p ensures multiset(a)[p] == multiset(b)[p] {
      if p.platform.None? || p.platform.value !in names {
        assert p !in a && p !in b;
      } else {
        CountWithinPlatform(a, p);
        CountWithinPlatform(b, p);
        var i :| 0 <= i < |names| && names[i] == p.platform.value;
        assert PlatformRows(a, names[i]) == PlatformRows(b, names[i]);
      }
    }
  }

  /**
   * The rows `apply` combines, in either of its two cases: each row has a
   * non-null platform; the rows of each platform are that platform's
   * `nlargest` block, in the block's order; and as a multiset they are the
   * stacked blocks.
   */
  lemma PerPlatformRowsSpec(ps: seq<Post>, n: int)
    ensures var rows := PerPlatformRows(ps, n);
      var names := Platforms(ps);
      var blocks := PlatformBlocks(ps, n);
      && (forall p :: p in rows ==> p.platform.Some? && p.platform.value in names)
      && (forall i :: 0 <= i < |names| ==> PlatformRows(rows, names[i]) == blocks[i])
      && multiset(rows) == multiset(Stack(blocks))
      && |rows| == StackedLength(blocks)
  {
    var rows := PerPlatformRows(ps, n);
    var stacked := Stack(PlatformBlocks(ps, n));
    StackedBlocksByPlatform(ps, n);
    if BlocksKeepGroups(ps, n) {
      KeptGroupsByPlatform(ps, n);
      SameByPlatform(rows, stacked, Platforms(ps));
    }
    assert |multiset(rows)| == |rows| && |multiset(stacked)| == |stacked|;
    StackLength(PlatformBlocks(ps, n));
  }

  /**
   * `top_per_platform` drops the platform column from the rows `apply`
   * combines: the grouped rows in input order when every block is its whole
   * group, otherwise the blocks stacked in sorted platform order.
   */
  lemma TopPerPlatformSpec(ps: seq<Post>, overallN: int, n: int)
    requires ps != []
    ensures var top := IdentifyTopPosts(ps, overallN, n).topPerPlatform;
      && |top| == StackedLength(PlatformBlocks(ps, n))
      && (BlocksKeepGroups(ps, n) ==> top == PlatformTopRows(GroupedRows(ps)))
      && (!BlocksKeepGroups(ps, n) ==> top == PlatformTopRows(Stack(PlatformBlocks(ps, n))))
  {
    PerPlatformRowsSpec(ps, n);
  }

  /** A single row is its own `nlargest` block for any n >= 1. */
  lemma NLargestOne(p: Post, n: int)
    requires n >= 1
    ensures NLargest([p], n) == [p]
  {
    assert [p][..0] == [];
    assert SortByScore([p]) == InsertByScore([], p) == [p];
  }

  /** The groups of a twitter row followed by a facebook row. */
  lemma TwoPlatformGroups(a: Post, b: Post)
    requires a.platform == Some("twitter") && b.platform == Some("facebook")
    ensures Platforms([a, b]) == ["facebook", "twitter"]
    ensures PlatformRows([a, b], "facebook") == [b] && PlatformRows([a, b], "twitter") == [a]
    ensures GroupedRows([a, b]) == [a, b]
  {
    assert [a, b][..1] == [a] && [a][..0] == [];
    assert StrLess("facebook", "twitter");
    assert Platforms([a]) == ["twitter"];
    assert PlatformRows([a], "facebook") == [] && PlatformRows([a], "twitter") == [a];
    assert GroupedRows([a]) == [a];
  }

  /**
   * Two platforms of one row each: every block is its group, so
   * `top_per_platform` keeps the input order, not the sorted platform order.
   */
  lemma TopPerPlatformInputOrder(a: Post, b: Post)
    requires a.platform == Some("twitter") && b.platform == Some("facebook")
    ensures IdentifyTopPosts([a, b], 5, 3).topPerPlatform == PlatformTopRows([a, b])
  {
    TwoPlatformGroups(a, b);
    NLargestOne(a, 3);
    NLargestOne(b, 3);
    assert BlocksKeepGroups([a, b], 3);
  }
}
