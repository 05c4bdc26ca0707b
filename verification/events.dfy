/**
 The `report` collection: the append-only list of completed voice sessions,
 and the two questions the bot asks of it, "which spans belong to user U"
 and "what do they add up to".
 */
module Events {
  import opened Values

  /** The key a user is stored and looked up under. The uptime query keys by
      the mentioned user's id (index.js:67), while sessions and cache updates
      key by the user's discriminator (index.js:192, index.js:200); the model
      uses one key space for both. */
  type UserId = string

  /** One completed session. `begin` is `undefined` and `span` is NaN when the
      disconnect found an emptied session record. */
  datatype Event = Event(userid: UserId, begin: Option<int>, end: int, span: Number)

  /** The collection, in insertion order. */
  type Store = seq<Event>

  /** The spans of `u`'s events, in store order: the documents a
      `find({userid: u})` returns, projected to their `span`. */
  function UserSpans(store: Store, u: UserId): (spans: seq<Number>)
    ensures |spans| <= |store|
  {
    if |store| == 0 then []
    else
      var last := store[|store| - 1];
      UserSpans(store[..|store| - 1], u) + (if last.userid == u then [last.span] else [])
  }

  /** `spans.reduce((total, span) => total + span, 0)`. */
  function Sum(spans: seq<Number>): Number
  {
    if |spans| == 0 then Num(0.0)
    else Add(Sum(spans[..|spans| - 1]), spans[|spans| - 1])
  }

  /** Every span found for a user comes from one of that user's events. */
  lemma UserSpansAreTheUsers(store: Store, u: UserId)
    ensures forall x :: x in UserSpans(store, u) ==> exists e :: e in store && e.userid == u && e.span == x
  {
    UserSpansFindsEveryEvent(store, u);
  }

  /** `idx` lists, in increasing order, exactly the positions of `u`'s events. */
  ghost predicate PositionsOf(store: Store, u: UserId, idx: seq<int>)
  {
    && (forall k :: 0 <= k < |idx| ==> 0 <= idx[k] < |store| && store[idx[k]].userid == u)
    && (forall k, l :: 0 <= k < l < |idx| ==> idx[k] < idx[l])
    && (forall i :: 0 <= i < |store| && store[i].userid == u ==> i in idx)
  }

  /** The positions of `u`'s events, in store order. */
  ghost function Positions(store: Store, u: UserId): seq<int>
  {
    if |store| == 0 then []
    else Positions(store[..|store| - 1], u) + (if store[|store| - 1].userid == u then [|store| - 1] else [])
  }

  /** `Positions` lists each of `u`'s events once, in order, and nothing else. */
  lemma {:induction false} PositionsAreTheUsers(store: Store, u: UserId)
    ensures PositionsOf(store, u, Positions(store, u))
  {
    if |store| != 0 {
      var n := |store| - 1;
      var prefix := store[..n];
      var idx := Positions(prefix, u);
      PositionsAreTheUsers(prefix, u);
      var found := Positions(store, u);
      assert found == if store[n].userid == u then idx + [n] else idx;
      forall k | 0 <= k < |found|
        ensures 0 <= found[k] < |store| && store[found[k]].userid == u
      {
        if k < |idx| {
          assert store[idx[k]] == prefix[idx[k]];
        }
      }
      forall k, l | 0 <= k < l < |found|
        ensures found[k] < found[l]
      {
        if l < |idx| {
          assert found[k] == idx[k] && found[l] == idx[l];
        }
      }
      forall i | 0 <= i < |store| && store[i].userid == u
        ensures i in found
      {
        if i < n {
          assert store[i] == prefix[i];
        }
      }
    }
  }

  /** The `k`-th span found is the span of the event at the `k`-th position. */
  lemma {:induction false} UserSpansAtPositions(store: Store, u: UserId)
    ensures |UserSpans(store, u)| == |Positions(store, u)|
    ensures forall k :: 0 <= k < |Positions(store, u)| ==>
              0 <= Positions(store, u)[k] < |store| && UserSpans(store, u)[k] == store[Positions(store, u)[k]].span
  {
    if |store| != 0 {
      var n := |store| - 1;
      var prefix := store[..n];
      UserSpansAtPositions(prefix, u);
      var idx := Positions(prefix, u);
      forall k | 0 <= k < |idx|
        ensures Positions(store, u)[k] == idx[k] && UserSpans(store, u)[k] == UserSpans(prefix, u)[k]
        ensures store[idx[k]] == prefix[idx[k]]
      {
      }
    }
  }

  /** The search finds every one of `u`'s events, each once and in store order:
      its spans are those of the events at exactly `u`'s positions. */
  lemma UserSpansFindsEveryEvent(store: Store, u: UserId)
    ensures var idx := Positions(store, u);
            && PositionsOf(store, u, idx)
            && |UserSpans(store, u)| == |idx|
            && forall k :: 0 <= k < |idx| ==> UserSpans(store, u)[k] == store[idx[k]].span
  {
    PositionsAreTheUsers(store, u);
    UserSpansAtPositions(store, u);
  }

  /** A sum is NaN exactly when one of its terms is. */
  lemma {:induction false} SumIsNaN(spans: seq<Number>)
    ensures Sum(spans).NaN? <==> exists i :: 0 <= i < |spans| && spans[i].NaN?
  {
    if |spans| != 0 {
      var prefix := spans[..|spans| - 1];
      SumIsNaN(prefix);
      assert forall i :: 0 <= i < |prefix| ==> prefix[i] == spans[i];
    }
  }

  /** The total connected time of `u` in milliseconds, as stored. */
  function TotalMillis(store: Store, u: UserId): Number
  {
    Sum(UserSpans(store, u))
  }

  /** Appending an event adds its span to its own user's total and leaves
      every other user's total as it was. */
  lemma TotalMillisAppend(store: Store, e: Event, u: UserId)
    ensures TotalMillis(store + [e], u)
         == if e.userid == u then Add(TotalMillis(store, u), e.span) else TotalMillis(store, u)
  {
    assert (store + [e])[..|store|] == store;
    var spans := UserSpans(store, u);
    if e.userid == u {
      assert (spans + [e.span])[..|spans|] == spans;
    } else {
      assert UserSpans(store + [e], u) == spans;
    }
  }

  /** Splitting the last event off the second part of a concatenation. */
  lemma SplitLast(a: Store, b: Store)
    requires |b| > 0
    ensures b == b[..|b| - 1] + [b[|b| - 1]]
    ensures a + b == (a + b[..|b| - 1]) + [b[|b| - 1]]
  {
    assert b == b[..|b| - 1] + [b[|b| - 1]];
  }

  /** A user's total over two stores placed end to end is the sum of the
      user's totals over each. */
  lemma {:induction false} TotalMillisConcat(a: Store, b: Store, u: UserId)
    ensures TotalMillis(a + b, u) == Add(TotalMillis(a, u), TotalMillis(b, u))
  {
    if |b| == 0 {
      assert a + b == a;
      AddZero(TotalMillis(a, u));
    } else {
      var init := b[..|b| - 1];
      var e := b[|b| - 1];
      SplitLast(a, b);
      TotalMillisConcat(a, init, u);
      TotalMillisAppend(a + init, e, u);
      TotalMillisAppend(init, e, u);
      AddAssociates(TotalMillis(a, u), TotalMillis(init, u), e.span);
    }
  }

  /** The users that have at least one event. */
  function UserSet(store: Store): set<UserId>
  {
    set e | e in store :: e.userid
  }
}
