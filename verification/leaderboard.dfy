/**
 The `!uptime rank` command: a single global cooldown gating the aggregate
 "sum of span per user, descending, first ten", whose rows are labelled
 with the keycap emojis one to ten.
 */
module Leaderboard {
  import opened Values
  import opened Events

  /** Minimum time between two rank computations, in milliseconds: twelve hours. */
  const COUNTDOWN_EXP_TIME: int := 12 * 60 * 60 * 1000

  /** The `$limit` stage of the aggregate. */
  const RANK_LIMIT: nat := 10

  /** `DISCORD_EMOJIS`: the names of the keycap emojis zero to ten. */
  const DISCORD_EMOJIS: seq<string> :=
    [":zero:", ":one:", ":two:", ":three:", ":four:", ":five:",
     ":six:", ":seven:", ":eight:", ":nine:", ":keycap_ten:"]

  /** One `$group` output document: a user and the sum of their spans. */
  datatype Row = Row(user: UserId, total: Number)

  // ---------------------------------------------------------------------
  // What the aggregate promises

  /** Non-increasing totals from first row to last. */
  ghost predicate SortedDesc(rows: seq<Row>)
  {
    forall i, j :: 0 <= i < j < |rows| ==> AtLeast(rows[i].total, rows[j].total)
  }

  /** No user appears in two rows. */
  ghost predicate DistinctUsers(rows: seq<Row>)
  {
    forall i, j :: 0 <= i < j < |rows| ==> rows[i].user != rows[j].user
  }

  /** Every row is a user of the store with that user's summed span. */
  ghost predicate RowsOf(store: Store, rows: seq<Row>)
  {
    forall i :: 0 <= i < |rows| ==> rows[i].user in UserSet(store) && rows[i].total == TotalMillis(store, rows[i].user)
  }

  ghost predicate Listed(rows: seq<Row>, u: UserId)
  {
    exists i :: 0 <= i < |rows| && rows[i].user == u
  }

  /** A top-`RANK_LIMIT` board of the store: at most ten rows, one per user,
      each with the user's total, in non-increasing order; every user left out
      ranks no higher than any listed one, and users are only left out when
      the board is full. Ties may come in any order. */
  ghost predicate IsTopBoard(store: Store, rows: seq<Row>)
  {
    && |rows| <= RANK_LIMIT
    && RowsOf(store, rows)
    && DistinctUsers(rows)
    && SortedDesc(rows)
    && (forall u :: u in UserSet(store) && !Listed(rows, u) ==>
          |rows| == RANK_LIMIT
          && forall i :: 0 <= i < |rows| ==> AtLeast(rows[i].total, TotalMillis(store, u)))
  }

  // ---------------------------------------------------------------------
  // How it is computed: `$group`, then `$sort`, then `$limit`

  /** The distinct users of the store, in order of first appearance. */
  function Users(store: Store): (us: seq<UserId>)
    ensures forall i, j :: 0 <= i < j < |us| ==> us[i] != us[j]
    ensures forall u :: u in us <==> u in UserSet(store)
  {
    if |store| == 0 then []
    else
      var prefix := store[..|store| - 1];
      var last := store[|store| - 1];
      assert store == prefix + [last];
      var us := Users(prefix);
      if last.userid in us then us else us + [last.userid]
  }

  /** `$group: {_id: {user: '$userid'}, total: {$sum: '$span'}}`. */
  function Group(store: Store, us: seq<UserId>): (rows: seq<Row>)
    ensures |rows| == |us|
    ensures forall i :: 0 <= i < |us| ==> rows[i] == Row(us[i], TotalMillis(store, us[i]))
  {
    if |us| == 0 then [] else [Row(us[0], TotalMillis(store, us[0]))] + Group(store, us[1..])
  }

  /** Places `r` in front of the first row it ranks at least as high as. */
  function Insert(r: Row, rows: seq<Row>): (out: seq<Row>)
    requires SortedDesc(rows)
    ensures SortedDesc(out)
    ensures |out| == |rows| + 1
    ensures forall x :: x in out <==> x == r || x in rows
    ensures DistinctUsers(rows) && (forall x :: x in rows ==> x.user != r.user) ==> DistinctUsers(out)
  {
    if |rows| == 0 || AtLeast(r.total, rows[0].total) then
      AtLeastAfter(r, rows);
      [r] + rows
    else
      var rest := Insert(r, rows[1..]);
      assert forall x :: x in rows[1..] ==> x in rows;
      InsertBehindHead(r, rows, rest);
      [rows[0]] + rest
  }

  /** When `r` ranks below the head, the head followed by `r` inserted into
      the tail is still sorted and still one row per user. */
  lemma InsertBehindHead(r: Row, rows: seq<Row>, rest: seq<Row>)
    requires SortedDesc(rows) && |rows| > 0 && !AtLeast(r.total, rows[0].total)
    requires SortedDesc(rest)
    requires forall x :: x in rest ==> x == r || x in rows[1..]
    requires DistinctUsers(rows) && (forall x :: x in rows ==> x.user != r.user) ==> DistinctUsers(rest)
    ensures SortedDesc([rows[0]] + rest)
    ensures DistinctUsers(rows) && (forall x :: x in rows ==> x.user != r.user) ==> DistinctUsers([rows[0]] + rest)
  {
    AtLeastTotalPreorder(r.total, rows[0].total, r.total);
    forall i | 0 <= i < |rest|
      ensures AtLeast(rows[0].total, rest[i].total)
      ensures DistinctUsers(rows) && (forall x :: x in rows ==> x.user != r.user) ==> rows[0].user != rest[i].user
    {
      assert rest[i] in rest;
      if rest[i] != r {
        var k :| 0 <= k < |rows[1..]| && rows[1..][k] == rest[i];
        assert rows[k + 1] == rest[i];
      }
    }
    var out := [rows[0]] + rest;
    assert forall i :: 0 < i < |out| ==> out[i] == rest[i - 1];
  }

  /** A row that ranks at least as high as the head of a sorted list ranks at
      least as high as all of it. */
  lemma AtLeastAfter(r: Row, rows: seq<Row>)
    requires SortedDesc(rows)
    requires |rows| == 0 || AtLeast(r.total, rows[0].total)
    ensures forall j :: 0 <= j < |rows| ==> AtLeast(r.total, rows[j].total)
  {
    forall j | 0 <= j < |rows|
      ensures AtLeast(r.total, rows[j].total)
    {
      AtLeastTotalPreorder(r.total, rows[0].total, rows[j].total);
    }
  }

  /** `$sort: {total: -1}`, by insertion. */
  function SortDesc(rows: seq<Row>): (out: seq<Row>)
    ensures SortedDesc(out)
    ensures |out| == |rows|
    ensures forall x :: x in out <==> x in rows
    ensures DistinctUsers(rows) ==> DistinctUsers(out)
  {
    if |rows| == 0 then []
    else
      var rest := SortDesc(rows[1..]);
      assert forall x :: x in rows[1..] ==> x in rows;
      assert DistinctUsers(rows) ==> forall x :: x in rest ==> x.user != rows[0].user;
      Insert(rows[0], rest)
  }

  /** Inserting adds exactly one copy of `r`: the result is a permutation of
      `rows` with `r` added. */
  lemma {:induction false} InsertPermutes(r: Row, rows: seq<Row>)
    requires SortedDesc(rows)
    ensures multiset(Insert(r, rows)) == multiset(rows) + multiset{r}
  {
    if |rows| != 0 && !AtLeast(r.total, rows[0].total) {
      InsertPermutes(r, rows[1..]);
      assert rows == [rows[0]] + rows[1..];
    }
  }

  /** Sorting permutes: every row keeps its multiplicity. */
  lemma {:induction false} SortDescPermutes(rows: seq<Row>)
    ensures multiset(SortDesc(rows)) == multiset(rows)
  {
    if |rows| != 0 {
      SortDescPermutes(rows[1..]);
      InsertPermutes(rows[0], SortDesc(rows[1..]));
      assert rows == [rows[0]] + rows[1..];
    }
  }

  /** The whole pipeline: group, sort descending, keep the first ten. */
  function Aggregate(store: Store): (rows: seq<Row>)
  {
    var sorted := SortDesc(Group(store, Users(store)));
    if |sorted| <= RANK_LIMIT then sorted else sorted[..RANK_LIMIT]
  }

  /** Grouping lists every user of the store exactly once, with their total. */
  lemma GroupIsRowsOf(store: Store)
    ensures var grouped := Group(store, Users(store));
            && RowsOf(store, grouped)
            && DistinctUsers(grouped)
            && forall u :: u in UserSet(store) ==> Row(u, TotalMillis(store, u)) in grouped
  {
    var us := Users(store);
    var grouped := Group(store, us);
    forall u | u in UserSet(store)
      ensures Row(u, TotalMillis(store, u)) in grouped
    {
      var k :| 0 <= k < |us| && us[k] == u;
      assert grouped[k] == Row(u, TotalMillis(store, u));
    }
  }

  /** Membership-preserving reorderings keep every row a row of the store. */
  lemma RowsOfSameElements(store: Store, rows: seq<Row>, out: seq<Row>)
    requires RowsOf(store, rows)
    requires forall x :: x in out ==> x in rows
    ensures RowsOf(store, out)
  {
    forall i | 0 <= i < |out|
      ensures out[i].user in UserSet(store) && out[i].total == TotalMillis(store, out[i].user)
    {
      assert out[i] in rows;
    }
  }

  /** Cutting a sorted list after its first `k` rows leaves out only rows that
      rank no higher than any kept one. */
  lemma PrefixRanksFirst(sorted: seq<Row>, k: nat, x: Row)
    requires SortedDesc(sorted) && k <= |sorted|
    requires x in sorted && !Listed(sorted[..k], x.user)
    ensures k < |sorted|
    ensures forall i :: 0 <= i < k ==> AtLeast(sorted[i].total, x.total)
  {
    var j :| 0 <= j < |sorted| && sorted[j] == x;
    assert forall i :: 0 <= i < k ==> sorted[..k][i].user != x.user;
    assert j >= k;
  }

  /** The first `k` rows of a sorted list of the store's rows are themselves
      sorted rows of the store, one per user. */
  lemma PrefixKeeps(store: Store, sorted: seq<Row>, k: nat)
    requires k <= |sorted|
    requires RowsOf(store, sorted) && DistinctUsers(sorted) && SortedDesc(sorted)
    ensures RowsOf(store, sorted[..k]) && DistinctUsers(sorted[..k]) && SortedDesc(sorted[..k])
  {
    assert forall i :: 0 <= i < k ==> sorted[..k][i] == sorted[i];
  }

  /** The pipeline yields a top-ten board of the store. */
  lemma AggregateIsTopBoard(store: Store)
    ensures IsTopBoard(store, Aggregate(store))
  {
    var grouped := Group(store, Users(store));
    var sorted := SortDesc(grouped);
    var rows := Aggregate(store);
    GroupIsRowsOf(store);
    RowsOfSameElements(store, grouped, sorted);
    var k := |rows|;
    assert rows == sorted[..k];
    PrefixKeeps(store, sorted, k);
    forall u | u in UserSet(store) && !Listed(rows, u)
      ensures |rows| == RANK_LIMIT
      ensures forall i :: 0 <= i < |rows| ==> AtLeast(rows[i].total, TotalMillis(store, u))
    {
      var x := Row(u, TotalMillis(store, u));
      PrefixRanksFirst(sorted, k, x);
    }
  }

  /** The emoji labels of a board's rows, `DISCORD_EMOJIS[i + 1]` for row `i`.
      A board of at most ten rows stays inside the eleven emojis, and no row
      gets `:zero:`. */
  function Labels(rows: seq<Row>): (labels: seq<string>)
    requires |rows| <= RANK_LIMIT
    ensures labels == DISCORD_EMOJIS[1..|rows| + 1]
    ensures |labels| == |rows|
    ensures forall i :: 0 <= i < |labels| ==> labels[i] != ":zero:"
    ensures forall i, j :: 0 <= i < j < |labels| ==> labels[i] != labels[j]
  {
    EmojisDistinct();
    seq(|rows|, i requires 0 <= i < |rows| => DISCORD_EMOJIS[i + 1])
  }

  /** The eleven emoji names are pairwise different. */
  lemma EmojisDistinct()
    ensures forall i, j :: 0 <= i < j < |DISCORD_EMOJIS| ==> DISCORD_EMOJIS[i] != DISCORD_EMOJIS[j]
  {
  }

  /** Every board the pipeline returns can be labelled: its row indices `i`
      all have `DISCORD_EMOJIS[i + 1]`. */
  lemma AggregateIsLabelled(store: Store)
    ensures |Aggregate(store)| <= RANK_LIMIT
    ensures Labels(Aggregate(store)) == DISCORD_EMOJIS[1..|Aggregate(store)| + 1]
  {
  }

  // ---------------------------------------------------------------------
  // The cooldown gate

  datatype Outcome =
    | Board(rows: seq<Row>)
    | BuildFailed
    | NotReady(next: int)

  /** The outcome of one rank request and the cooldown afterwards. */
  datatype Rank = Rank(outcome: Outcome, countdown: int)

  /** The cooldown before any request: zero, so the first request computes. */
  const INITIAL_COUNTDOWN: int := 0

  /** The retry time the blocked branch reports, as written. */
  function NextRequestTimeAsWritten(countdown: int, now: int): int
  {
    now + (now - countdown)
  }

  /** The retry time the message evidently means: the end of the cooldown. */
  function NextRequestTime(countdown: int, now: int): (next: int)
    requires now <= countdown
    ensures now <= next
    ensures Request(countdown, next, [], true).outcome.NotReady?
    ensures Request(countdown, next + 1, [], true).outcome.Board?
  {
    countdown
  }

  /** A rank request at `now`. It computes only when the cooldown lies strictly
      in the past; `buildOk` says whether the aggregate and the building of the
      reply succeed, and only success starts a new cooldown. A blocked request
      reports `NextRequestTimeAsWritten`. */
  function Request(countdown: int, now: int, store: Store, buildOk: bool): (r: Rank)
    ensures r.outcome.NotReady? <==> !(countdown < now)
    ensures r.outcome.Board? <==> countdown < now && buildOk
    ensures r.outcome.Board? ==> IsTopBoard(store, r.outcome.rows)
    ensures r.outcome.Board? ==> r.countdown == now + COUNTDOWN_EXP_TIME
    ensures !r.outcome.Board? ==> r.countdown == countdown
    ensures r.outcome.NotReady? ==> r.outcome.next == now + (now - countdown)
    ensures r.outcome.NotReady? ==> r.outcome.next <= now
  {
    if countdown < now then
      if buildOk then
        AggregateIsTopBoard(store);
        Rank(Board(Aggregate(store)), now + COUNTDOWN_EXP_TIME)
      else
        Rank(BuildFailed, countdown)
    else
      Rank(NotReady(NextRequestTimeAsWritten(countdown, now)), countdown)
  }

  /** While blocked, the reported retry time is never in the future. Two hours
      into a twelve-hour cooldown, it names a time ten hours before `now`, while
      the cooldown ends ten hours after it. */
  lemma RetryTimeAsWrittenIsPast()
    ensures var countdown, now := COUNTDOWN_EXP_TIME, 2 * 60 * 60 * 1000;
            && Request(countdown, now, [], true).outcome == NotReady(now - 10 * 60 * 60 * 1000)
            && NextRequestTime(countdown, now) == now + 10 * 60 * 60 * 1000
  {
  }

  /** The first request after start-up computes when its time is positive. */
  lemma FirstRequestComputes(now: int, store: Store)
    requires now > 0
    ensures Request(INITIAL_COUNTDOWN, now, store, true).outcome.Board?
  {
  }

  /** After a successful computation, every request up to and including
      `COUNTDOWN_EXP_TIME` later is blocked and leaves the cooldown alone, and
      any later one computes. */
  lemma CooldownWindow(countdown: int, t0: int, t1: int, store: Store, store1: Store, ok1: bool)
    requires countdown < t0 && t0 <= t1
    ensures var r0 := Request(countdown, t0, store, true);
            var r1 := Request(r0.countdown, t1, store1, ok1);
            && (r1.outcome.NotReady? <==> t1 <= t0 + COUNTDOWN_EXP_TIME)
            && (r1.outcome.NotReady? ==> r1.countdown == r0.countdown)
  {
  }
}
