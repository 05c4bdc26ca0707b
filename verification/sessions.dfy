/**
 The session tracker: the `USERS_ACTIVE` map and the connect and disconnect
 branches of the `voiceStateUpdate` handler.
 */
module Sessions {
  import opened Values
  import opened Events

  /** `USERS_ACTIVE`: for every user seen connecting, `Some(begin)` while the
      record is `{begin: …}`, and `None` once a disconnect has reset it to `{}`.
      Entries are never deleted. */
  type Active = map<UserId, Option<int>>

  /** A connect records `begin = now`, overwriting whatever the user's entry
      held; a second connect restarts the session. */
  function Connect(active: Active, u: UserId, now: int): (a: Active)
    ensures a.Keys == active.Keys + {u}
    ensures a[u] == Some(now)
    ensures forall v :: v in active && v != u ==> a[v] == active[v]
  {
    active[u := Some(now)]
  }

  /** `timestamp - USERS_ACTIVE[u].begin`: NaN when `begin` is `undefined`. */
  function SpanOf(begin: Option<int>, now: int): (r: Number)
    ensures r.NaN? <==> begin.None?
    ensures begin.Some? ==> r.v + begin.value as real == now as real
  {
    match begin
    case Some(b) => Num((now - b) as real)
    case None => NaN
  }

  /** What a disconnect leaves behind: the new map, and the event it builds
      when the user had an entry. */
  datatype Closed = Closed(active: Active, event: Option<Event>)

  /** A disconnect is guarded only by the user having an entry. With one, it
      builds the event `{userid, begin, end: now, span}` and empties the entry
      to `{}` without removing the key. */
  function Disconnect(active: Active, u: UserId, now: int): (c: Closed)
    ensures u !in active ==> c.active == active && c.event.None?
    ensures u in active ==> c.event.Some?
    ensures u in active ==>
              var e := c.event.value;
              && e.userid == u && e.begin == active[u] && e.end == now
              && e.span == SpanOf(active[u], now)
    ensures u in active ==> c.active.Keys == active.Keys && c.active[u].None?
    ensures forall v :: v in active && v != u ==> c.active[v] == active[v]
  {
    if u in active then
      var begin := active[u];
      Closed(active[u := None], Some(Event(u, begin, now, SpanOf(begin, now))))
    else
      Closed(active, None)
  }

  /** A connect followed by a disconnect records exactly the elapsed time,
      whatever the user's entry held before. */
  lemma ConnectThenDisconnect(active: Active, u: UserId, t0: int, t1: int)
    ensures Disconnect(Connect(active, u, t0), u, t1).event
         == Some(Event(u, Some(t0), t1, Num((t1 - t0) as real)))
  {
  }

  /** A duplicate connect restarts the session: the span counts from the
      second connect, not the first. */
  lemma DuplicateConnectRestarts(active: Active, u: UserId, t0: int, t1: int, t2: int)
    ensures Disconnect(Connect(Connect(active, u, t0), u, t1), u, t2).event.value.span
         == Num((t2 - t1) as real)
  {
  }

  /** A second disconnect with no connect in between finds the emptied entry
      and builds an event with an `undefined` begin and a NaN span; it is not
      a no-op. */
  lemma SecondDisconnectIsNaN(active: Active, u: UserId, t0: int, t1: int)
    requires u in active
    ensures var e := Disconnect(Disconnect(active, u, t0).active, u, t1).event;
            e.Some? && e.value.begin.None? && e.value.span.NaN?
  {
  }
}
