/** The version-1 statistics resource. `fetch` picks a statistic by name; the
    lpas-per-user statistic turns the per-user LPA counts of a `group` query into two
    histograms, each ordered by key, descending: how many users have k LPAs, and, for
    each such number of users, the sum of the LPA counts they share. */
module StatsResource {
  import opened Common
  import opened StatsCommon

  // ---------------------------------------------------------------------------
  // Per-user counts

  /** A row of the `group` by user: the `user` field (`None` where the LPA has none, as a
      deleted LPA does) and the number of LPAs in the group. */
  datatype GroupRow = GroupRow(user: Option<string>, lpaCount: int)

  /** PHP's `empty()` on a user id: missing, "" or "0". */
  predicate EmptyUserId(u: Option<string>)
  {
    u.None? || u.value == "" || u.value == "0"
  }

  /** The users with a non-empty id among the rows. */
  function KeptUsers(rows: seq<GroupRow>): set<string>
  {
    set i | 0 <= i < |rows| && !EmptyUserId(rows[i].user) :: rows[i].user.value
  }

  /** `$userLpaCounts`: each kept user's LPA count, a later row for the same user
      overwriting an earlier one. */
  function UserCounts(rows: seq<GroupRow>): map<string, int>
  {
    if rows == [] then map[]
    else
      var prev := UserCounts(rows[..|rows| - 1]);
      var row := rows[|rows| - 1];
      if EmptyUserId(row.user) then prev else prev[row.user.value := row.lpaCount]
  }

  /** Exactly the users with a non-empty id are counted. */
  lemma {:induction false} UserCountsKeys(rows: seq<GroupRow>)
    ensures UserCounts(rows).Keys == KeptUsers(rows)
  {
    if rows != [] {
      var init := rows[..|rows| - 1];
      var row := rows[|rows| - 1];
      UserCountsKeys(init);
      assert forall i :: 0 <= i < |init| ==> init[i] == rows[i];
      assert KeptUsers(rows) == KeptUsers(init) + (if EmptyUserId(row.user) then {} else {row.user.value});
    }
  }

  /** Each counted user has the LPA count of the last row for that user. */
  lemma {:induction false} UserCountsLast(rows: seq<GroupRow>)
    ensures forall i :: 0 <= i < |rows| && !EmptyUserId(rows[i].user) && LastFor(rows, i) ==>
      rows[i].user.value in UserCounts(rows) && UserCounts(rows)[rows[i].user.value] == rows[i].lpaCount
  {
    if rows != [] {
      var init := rows[..|rows| - 1];
      var row := rows[|rows| - 1];
      UserCountsLast(init);
      forall i | 0 <= i < |rows| - 1 && !EmptyUserId(rows[i].user) && LastFor(rows, i)
        ensures rows[i].user.value in UserCounts(rows) && UserCounts(rows)[rows[i].user.value] == rows[i].lpaCount
      {
        assert init[i] == rows[i];
        assert LastFor(init, i);
        assert row.user != rows[i].user;
      }
    }
  }

  /** Row `i` is the last row for its user. */
  predicate LastFor(rows: seq<GroupRow>, i: int)
    requires 0 <= i < |rows|
  {
    forall j :: i < j < |rows| ==> rows[j].user != rows[i].user
  }

  /** The first loop of `getLpasPerUser`. */
  method CountPerUser(rows: seq<GroupRow>) returns (counts: map<string, int>)
    ensures counts == UserCounts(rows)
  {
    counts := map[];
    for i := 0 to |rows|
      invariant counts == UserCounts(rows[..i])
    {
      assert rows[..i + 1][..i] == rows[..i];
      var userId := rows[i].user;
      if !EmptyUserId(userId) {
        counts := counts[userId.value := rows[i].lpaCount];
      }
    }
    assert rows[..|rows|] == rows;
  }

  // ---------------------------------------------------------------------------
  // Users per LPA count

  /** The count held under `k`, zero when there is none yet. */
  function CountAt(m: map<int, int>, k: int): int
  {
    if k in m then m[k] else 0
  }

  /** The users with exactly `k` LPAs. */
  function UsersWith<K>(c: map<K, int>, k: int): set<K>
  {
    set u | u in c && c[u] == k
  }

  /** `$byLpaCount`: for each LPA count some user has, the number of users having it. */
  function ByLpaCount<K>(c: map<K, int>): (r: map<int, int>)
    ensures r.Keys == c.Values
  {
    map k | k in c.Values :: |UsersWith(c, k)|
  }

  /** One more user with `v` LPAs adds one under key `v` and changes nothing else. */
  lemma HistogramAdd<K>(c: map<K, int>, u: K, v: int)
    requires u !in c
    ensures ByLpaCount(c[u := v]) ==
      ByLpaCount(c)[v := (if v in ByLpaCount(c) then ByLpaCount(c)[v] else 0) + 1]
  {
    var c' := c[u := v];
    ValuesAfterInsert(c, u, v);
    forall k | k in c'.Values
      ensures ByLpaCount(c')[k] ==
        ByLpaCount(c)[v := (if v in ByLpaCount(c) then ByLpaCount(c)[v] else 0) + 1][k]
    {
      if k == v {
        assert UsersWith(c', k) == UsersWith(c, k) + {u};
        if v !in ByLpaCount(c) {
          assert UsersWith(c, k) == {};
        }
      } else {
        assert UsersWith(c', k) == UsersWith(c, k);
      }
    }
  }

  /** Where the second loop stands: the users in `done` have been counted into `h`. */
  ghost predicate HistogramProgress<K>(c: map<K, int>, todo: set<K>, done: set<K>, h: map<int, int>)
  {
    && todo !! done && todo + done == c.Keys
    && h == ByLpaCount(Restrict(c, done))
    && Total(h) == |done|
  }

  /** One step of the second loop: counting user `u` in. */
  lemma HistogramStep<K>(c: map<K, int>, todo: set<K>, done: set<K>, u: K, h: map<int, int>)
    requires HistogramProgress(c, todo, done, h) && u in todo
    ensures var v := c[u];
      HistogramProgress(c, todo - {u}, done + {u}, h[v := (if v in h then h[v] else 0) + 1])
  {
    PartitionStep(todo, done, c.Keys, u);
    HistogramStepCounts(c, done, u, h);
    HistogramStepTotal(done, u, h, c[u]);
  }

  lemma HistogramStepCounts<K>(c: map<K, int>, done: set<K>, u: K, h: map<int, int>)
    requires u in c && u !in done
    requires h == ByLpaCount(Restrict(c, done))
    ensures var v := c[u]; h[v := (if v in h then h[v] else 0) + 1] == ByLpaCount(Restrict(c, done + {u}))
  {
    RestrictInsert(c, done, u);
    HistogramAdd(Restrict(c, done), u, c[u]);
  }

  lemma HistogramStepTotal<K>(done: set<K>, u: K, h: map<int, int>, v: int)
    requires u !in done
    requires Total(h) == |done|
    ensures Total(h[v := (if v in h then h[v] else 0) + 1]) == |done + {u}|
  {
    TotalUpdate(h, v, (if v in h then h[v] else 0) + 1);
  }

  lemma HistogramStart<K>(c: map<K, int>)
    ensures HistogramProgress(c, c.Keys, {}, map[])
  {
    assert Restrict(c, {}) == map[];
  }

  lemma HistogramDone<K>(c: map<K, int>, done: set<K>, h: map<int, int>)
    requires HistogramProgress(c, {}, done, h)
    ensures h == ByLpaCount(c) && Total(h) == |c.Keys|
  {
    assert Restrict(c, done) == c;
  }

  /** The second loop of `getLpasPerUser`; the counts it builds add up to the number of
      users. */
  method CountUsersPerLpaCount<K(==)>(c: map<K, int>) returns (byLpaCount: map<int, int>)
    ensures byLpaCount == ByLpaCount(c)
    ensures Total(byLpaCount) == |c.Keys|
  {
    byLpaCount := map[];
    var todo := c.Keys;
    ghost var done: set<K> := {};
    HistogramStart(c);
    while todo != {}
      invariant HistogramProgress(c, todo, done, byLpaCount)
      decreases todo
    {
      var userId :| userId in todo;
      var lpaCount := c[userId];
      var next := CountAt(byLpaCount, lpaCount) + 1;
      HistogramStep(c, todo, done, userId, byLpaCount);
      byLpaCount := byLpaCount[lpaCount := next];
      todo := todo - {userId};
      done := done + {userId};
    }
    HistogramDone(c, done, byLpaCount);
  }

  // ---------------------------------------------------------------------------
  // LPA counts per number of users

  /** The LPA counts shared by exactly `n` users. */
  function CountsHeldBy(h: map<int, int>, n: int): set<int>
  {
    set k | k in h && h[k] == n
  }

  /** `$byUserCount`: for each number of users in `$byLpaCount`, the sum of the LPA counts
      that exactly that many users have. */
  ghost function ByUserCount(h: map<int, int>): (r: map<int, int>)
    ensures r.Keys == h.Values
  {
    map n | n in h.Values :: SumOf(CountsHeldBy(h, n))
  }

  /** One more LPA count `k` held by `n` users adds `k` under key `n`, nothing else. */
  lemma ByUserCountAdd(h: map<int, int>, k: int, n: int)
    requires k !in h
    ensures ByUserCount(h[k := n]) ==
      ByUserCount(h)[n := (if n in ByUserCount(h) then ByUserCount(h)[n] else 0) + k]
  {
    var h' := h[k := n];
    ValuesAfterInsert(h, k, n);
    forall x | x in h'.Values
      ensures ByUserCount(h')[x] ==
        ByUserCount(h)[n := (if n in ByUserCount(h) then ByUserCount(h)[n] else 0) + k][x]
    {
      if x == n {
        assert CountsHeldBy(h', x) == CountsHeldBy(h, x) + {k};
        SumOfInsert(CountsHeldBy(h, x), k);
        if n !in ByUserCount(h) {
          assert CountsHeldBy(h, x) == {};
        }
      } else {
        assert CountsHeldBy(h', x) == CountsHeldBy(h, x);
      }
    }
  }

  /** Where the third loop stands: the LPA counts in `done` have been added into `b`. */
  ghost predicate ByUserCountProgress(h: map<int, int>, todo: set<int>, done: set<int>, b: map<int, int>)
  {
    && todo !! done && todo + done == h.Keys
    && b == ByUserCount(Restrict(h, done))
    && Total(b) == SumOf(done)
  }

  /** One step of the third loop: adding LPA count `k` in. */
  lemma ByUserCountStep(h: map<int, int>, todo: set<int>, done: set<int>, k: int, b: map<int, int>)
    requires ByUserCountProgress(h, todo, done, b) && k in todo
    ensures var n := h[k];
      ByUserCountProgress(h, todo - {k}, done + {k}, b[n := (if n in b then b[n] else 0) + k])
  {
    PartitionStep(todo, done, h.Keys, k);
    ByUserCountStepSums(h, done, k, b);
    ByUserCountStepTotal(done, k, b, h[k]);
  }

  lemma ByUserCountStepSums(h: map<int, int>, done: set<int>, k: int, b: map<int, int>)
    requires k in h && k !in done
    requires b == ByUserCount(Restrict(h, done))
    ensures var n := h[k]; b[n := (if n in b then b[n] else 0) + k] == ByUserCount(Restrict(h, done + {k}))
  {
    RestrictInsert(h, done, k);
    ByUserCountAdd(Restrict(h, done), k, h[k]);
  }

  lemma ByUserCountStepTotal(done: set<int>, k: int, b: map<int, int>, n: int)
    requires k !in done
    requires Total(b) == SumOf(done)
    ensures Total(b[n := (if n in b then b[n] else 0) + k]) == SumOf(done + {k})
  {
    TotalUpdate(b, n, (if n in b then b[n] else 0) + k);
    SumOfInsert(done, k);
  }

  lemma ByUserCountStart(h: map<int, int>)
    ensures ByUserCountProgress(h, h.Keys, {}, map[])
  {
    assert Restrict(h, {}) == map[];
  }

  lemma ByUserCountDone(h: map<int, int>, done: set<int>, b: map<int, int>)
    requires ByUserCountProgress(h, {}, done, b)
    ensures b == ByUserCount(h) && Total(b) == SumOf(h.Keys)
  {
    assert done == h.Keys;
    assert Restrict(h, done) == h;
  }

  /** The third loop of `getLpasPerUser`; its values add up to the sum of the LPA counts
      that occur. */
  method SumCountsPerUserCount(h: map<int, int>) returns (byUserCount: map<int, int>)
    ensures byUserCount == ByUserCount(h)
    ensures Total(byUserCount) == SumOf(h.Keys)
  {
    byUserCount := map[];
    var todo := h.Keys;
    ghost var done: set<int> := {};
    ByUserCountStart(h);
    while todo != {}
      invariant ByUserCountProgress(h, todo, done, byUserCount)
      decreases todo
    {
      ghost var some := Elem(todo);
      var lpaCount :| lpaCount in todo;
      var userCount := h[lpaCount];
      var next := CountAt(byUserCount, userCount) + lpaCount;
      ByUserCountStep(h, todo, done, lpaCount, byUserCount);
      byUserCount := byUserCount[userCount := next];
      todo := todo - {lpaCount};
      done := done + {lpaCount};
    }
    ByUserCountDone(h, done, byUserCount);
  }

  // ---------------------------------------------------------------------------
  // The statistic

  /** What `getLpasPerUser` returns, each histogram as its key/value pairs in order. */
  datatype LpasPerUser = LpasPerUser(byLpaCount: seq<(int, int)>, byUserCount: seq<(int, int)>)

  /** `getLpasPerUser` over the rows of the `group` query. */
  method GetLpasPerUser(rows: seq<GroupRow>) returns (r: LpasPerUser)
    ensures Descending(r.byLpaCount) && Descending(r.byUserCount)
    ensures AsMap(r.byLpaCount) == ByLpaCount(UserCounts(rows))
    ensures AsMap(r.byUserCount) == ByUserCount(ByLpaCount(UserCounts(rows)))
    ensures Total(AsMap(r.byLpaCount)) == |KeptUsers(rows)|
  {
    var userLpaCounts := CountPerUser(rows);
    UserCountsKeys(rows);
    var byLpaCount := CountUsersPerLpaCount(userLpaCounts);
    var byUserCount := SumCountsPerUserCount(byLpaCount);
    var sortedByLpaCount := KrSort(byLpaCount);
    var sortedByUserCount := KrSort(byUserCount);
    r := LpasPerUser(sortedByLpaCount, sortedByUserCount);
  }

  /** The statistics `fetch` knows by name. */
  const STATS_TYPES: set<string> := {"lpas", "whoareyou", "lpasperuser"}

  /** What `fetch` answers: an entity holding one statistic, or an API problem. The LPA
      statistics and the who-are-you counts per window come from count queries; here they
      are what those queries returned. */
  datatype Response =
    | LpaStats(stats: Doc)
    | WhoAreYouStats(byMonth: seq<Window>, all: Window)
    | LpasPerUserStats(lpasPerUser: LpasPerUser)
    | Problem(status: int, detail: string)

  /** `fetch($type)`. */
  method Fetch(statsType: string, lpaStats: Doc, monthStart: nat -> int, now: int, later: int, rows: seq<GroupRow>)
    returns (r: Response)
    ensures r.Problem? <==> statsType !in STATS_TYPES
    ensures r.Problem? ==> r == Problem(404, "Stats type not found.")
    ensures statsType == "lpas" ==> r == LpaStats(lpaStats)
    ensures statsType == "whoareyou" ==>
      && r.WhoAreYouStats?
      && |r.byMonth| == MONTHS && Chained(r.byMonth, now)
      && (forall i :: 0 <= i < MONTHS ==> r.byMonth[i].start == monthStart(i))
      && r.all == Window(0, later)
    ensures statsType == "lpasperuser" ==>
      && r.LpasPerUserStats?
      && Descending(r.lpasPerUser.byLpaCount) && Descending(r.lpasPerUser.byUserCount)
      && AsMap(r.lpasPerUser.byLpaCount) == ByLpaCount(UserCounts(rows))
      && AsMap(r.lpasPerUser.byUserCount) == ByUserCount(ByLpaCount(UserCounts(rows)))
  {
    if statsType == "lpas" {
      r := LpaStats(lpaStats);
    } else if statsType == "whoareyou" {
      var byMonth, all := WhoAreYouWindows(monthStart, now, later);
      r := WhoAreYouStats(byMonth, all);
    } else if statsType == "lpasperuser" {
      var lpasPerUser := GetLpasPerUser(rows);
      r := LpasPerUserStats(lpasPerUser);
    } else {
      r := Problem(404, "Stats type not found.");
    }
  }
}
