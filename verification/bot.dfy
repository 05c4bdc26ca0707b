/**
 The bot's handlers over its whole state: the `voiceStateUpdate` handler,
 the `!uptime @user` query and the `!uptime rank` query, each a pure
 transition taking the current time in milliseconds. Store writes and
 reads are replaced by an append to the event list and a success flag.
 */
module Bot {
  import opened Values
  import opened Events
  import Sessions
  import UptimeCache
  import Leaderboard
  import Duration

  type ChannelId = string

  datatype State = State(
    active: Sessions.Active,
    cache: UptimeCache.Cache,
    store: Store,
    countdown: int)

  /** The state at start-up: no sessions, an empty cache, the cooldown at zero,
      and whatever events earlier runs stored. */
  function Init(store: Store): (s: State)
    ensures s.active == map[] && s.cache == map[]
    ensures UptimeCache.Consistent(s.cache, s.store)
    ensures s.store == store && s.countdown == Leaderboard.INITIAL_COUNTDOWN
  {
    State(map[], map[], store, Leaderboard.INITIAL_COUNTDOWN)
  }

  /** `voiceStateUpdate`. Joining a channel from none opens a session; any
      update that leaves the user in no channel closes one; a move between
      channels changes nothing. A close appends the event when the write
      succeeds (`insertOk`), and bumps the user's cache entry either way. */
  function VoiceStateUpdate(s: State, u: UserId, oldChannel: Option<ChannelId>, newChannel: Option<ChannelId>,
                            now: int, insertOk: bool): (s': State)
    ensures s'.countdown == s.countdown
    ensures oldChannel.None? && newChannel.Some? ==>
              s' == s.(active := Sessions.Connect(s.active, u, now))
    ensures newChannel.None? && u !in s.active ==> s' == s
    ensures newChannel.None? && u in s.active ==>
              var e := Event(u, s.active[u], now, Sessions.SpanOf(s.active[u], now));
              && s'.active == s.active[u := None]
              && s'.store == (if insertOk then s.store + [e] else s.store)
              && s'.cache == UptimeCache.AddSpan(s.cache, u, e.span, now)
    ensures oldChannel.Some? && newChannel.Some? ==> s' == s
  {
    if oldChannel.None? && newChannel.Some? then
      s.(active := Sessions.Connect(s.active, u, now))
    else if newChannel.None? then
      var closed := Sessions.Disconnect(s.active, u, now);
      match closed.event
      case None => s
      case Some(e) =>
        State(closed.active,
              UptimeCache.AddSpan(s.cache, u, e.span, now),
              if insertOk then s.store + [e] else s.store,
              s.countdown)
    else
      s
  }

  /** `!uptime @user`: the user's total in seconds, or a read failure. A fresh
      cache entry answers; otherwise the store does. */
  function UptimeCommand(s: State, u: UserId, now: int, readOk: bool): (r: (UptimeCache.Answer, State))
    ensures r.0 == UptimeCache.Query(s.cache, u, now, s.store, readOk)
    ensures UptimeCache.Fresh(s.cache, u, now) ==> r.0.Answer? && r.0.total == s.cache[u].totalUptime
    ensures !UptimeCache.Fresh(s.cache, u, now) && readOk ==>
              r.0.Answer? && r.0.total == UptimeCache.StoredSeconds(s.store, u)
    ensures r.0.ReadFailed? <==> !UptimeCache.Fresh(s.cache, u, now) && !readOk
    ensures r.1 == s.(cache := r.0.cache)
    ensures r.0.ReadFailed? ==> r.1 == s
  {
    var answer := UptimeCache.Query(s.cache, u, now, s.store, readOk);
    (answer, s.(cache := answer.cache))
  }

  /** `!uptime rank`: a board when the cooldown has passed and the build
      succeeds, which alone restarts the cooldown. */
  function RankCommand(s: State, now: int, buildOk: bool): (r: (Leaderboard.Outcome, State))
    ensures r.0 == Leaderboard.Request(s.countdown, now, s.store, buildOk).outcome
    ensures r.0.NotReady? <==> !(s.countdown < now)
    ensures r.0.Board? <==> s.countdown < now && buildOk
    ensures r.0.NotReady? ==> r.0.next == now + (now - s.countdown)
    ensures r.0.Board? ==> Leaderboard.IsTopBoard(s.store, r.0.rows)
    ensures r.0.Board? ==> r.1 == s.(countdown := now + Leaderboard.COUNTDOWN_EXP_TIME)
    ensures !r.0.Board? ==> r.1 == s
  {
    var rank := Leaderboard.Request(s.countdown, now, s.store, buildOk);
    (rank.outcome, s.(countdown := rank.countdown))
  }

  /** The `days, hours, minutes, seconds` an uptime reply shows for a
      non-negative total; NaN and negative totals are not broken down. */
  function Display(total: Number): (d: Option<Duration.Duration>)
    ensures d.Some? <==> total.Num? && total.v >= 0.0
    ensures d.Some? ==> Duration.Normal(d.value) && Duration.Recompose(d.value) == total.v.Floor
  {
    if total.Num? && total.v >= 0.0 then Some(Duration.BreakdownSeconds(total.v)) else None
  }

  // ---------------------------------------------------------------------
  // The cache stays in step with the store

  /** Every handler keeps the cache consistent with the store, provided the
      event writes succeed. */
  lemma HandlersKeepConsistent(s: State, u: UserId, oldChannel: Option<ChannelId>, newChannel: Option<ChannelId>,
                               now: int, ok: bool)
    requires UptimeCache.Consistent(s.cache, s.store)
    ensures UptimeCache.Consistent(VoiceStateUpdate(s, u, oldChannel, newChannel, now, true).cache,
                                   VoiceStateUpdate(s, u, oldChannel, newChannel, now, true).store)
    ensures UptimeCache.Consistent(UptimeCommand(s, u, now, ok).1.cache, s.store)
    ensures UptimeCommand(s, u, now, ok).0.Answer? ==>
              UptimeCommand(s, u, now, ok).0.total == UptimeCache.StoredSeconds(s.store, u)
    ensures UptimeCache.Consistent(RankCommand(s, now, ok).1.cache, s.store)
  {
    if !(oldChannel.None? && newChannel.Some?) && newChannel.None? && u in s.active {
      var e := Event(u, s.active[u], now, Sessions.SpanOf(s.active[u], now));
      UptimeCache.AddSpanKeepsConsistent(s.cache, s.store, e, now);
    }
    UptimeCache.QueryAgreesWithStore(s.cache, u, now, s.store, ok);
  }

  /** A failed event write leaves a cached user's total out of step with the
      store: after a non-empty session closes, the cache is no longer
      consistent. */
  lemma FailedInsertDesyncs(s: State, u: UserId, oldChannel: Option<ChannelId>, now: int)
    requires UptimeCache.Consistent(s.cache, s.store)
    requires u in s.cache && u in s.active && s.active[u].Some? && s.active[u].value != now
    requires UptimeCache.StoredSeconds(s.store, u).Num?
    ensures !UptimeCache.Consistent(VoiceStateUpdate(s, u, oldChannel, None, now, false).cache,
                                    VoiceStateUpdate(s, u, oldChannel, None, now, false).store)
  {
    var s' := VoiceStateUpdate(s, u, oldChannel, None, now, false);
    assert s'.cache[u].totalUptime != UptimeCache.StoredSeconds(s'.store, u);
  }

  /** When the clock moved forward over the session, the failed write leaves
      the cached total strictly ahead of the stored one. */
  lemma FailedInsertRunsAhead(s: State, u: UserId, oldChannel: Option<ChannelId>, now: int)
    requires UptimeCache.Consistent(s.cache, s.store)
    requires u in s.cache && u in s.active && s.active[u].Some? && s.active[u].value < now
    requires UptimeCache.StoredSeconds(s.store, u).Num?
    ensures var s' := VoiceStateUpdate(s, u, oldChannel, None, now, false);
            && u in s'.cache && s'.cache[u].totalUptime.Num?
            && UptimeCache.StoredSeconds(s'.store, u).Num?
            && s'.cache[u].totalUptime.v > UptimeCache.StoredSeconds(s'.store, u).v
  {
  }

  // ---------------------------------------------------------------------
  // Whole sessions

  /** A session of one user: connected at `begin`, disconnected at `end`. */
  datatype Session = Session(begin: int, end: int)

  /** The user connects and then disconnects for each session in turn, each
      event write succeeding. */
  function RunSessions(s: State, u: UserId, sessions: seq<Session>, channel: ChannelId): State
  {
    if |sessions| == 0 then s
    else
      Cycle(RunSessions(s, u, sessions[..|sessions| - 1], channel), u, sessions[|sessions| - 1], channel)
  }

  /** One session: join `channel` at `begin`, leave it at `end`. */
  function Cycle(s: State, u: UserId, session: Session, channel: ChannelId): State
  {
    var connected := VoiceStateUpdate(s, u, None, Some(channel), session.begin, true);
    VoiceStateUpdate(connected, u, Some(channel), None, session.end, true)
  }

  /** The summed length of a list of sessions, in milliseconds. */
  function Elapsed(sessions: seq<Session>): int
  {
    if |sessions| == 0 then 0
    else Elapsed(sessions[..|sessions| - 1]) + (sessions[|sessions| - 1].end - sessions[|sessions| - 1].begin)
  }

  /** The events a list of sessions writes, in order. */
  function SessionEvents(u: UserId, sessions: seq<Session>): (events: seq<Event>)
    ensures |events| == |sessions|
  {
    if |sessions| == 0 then []
    else
      var last := sessions[|sessions| - 1];
      SessionEvents(u, sessions[..|sessions| - 1])
        + [Event(u, Some(last.begin), last.end, Num((last.end - last.begin) as real))]
  }

  /** The `k`-th event records the `k`-th session: its begin, its end and
      their difference. */
  lemma {:induction false} SessionEventsAreTheSessions(u: UserId, sessions: seq<Session>)
    ensures forall k :: 0 <= k < |sessions| ==>
              SessionEvents(u, sessions)[k]
              == Event(u, Some(sessions[k].begin), sessions[k].end, Num((sessions[k].end - sessions[k].begin) as real))
  {
    if |sessions| != 0 {
      var prefix := sessions[..|sessions| - 1];
      SessionEventsAreTheSessions(u, prefix);
      assert forall k :: 0 <= k < |prefix| ==>
               SessionEvents(u, sessions)[k] == SessionEvents(u, prefix)[k] && prefix[k] == sessions[k];
    }
  }

  /** Running sessions appends exactly their events to the store. */
  lemma {:induction false} RunSessionsAppends(s: State, u: UserId, sessions: seq<Session>, channel: ChannelId)
    ensures RunSessions(s, u, sessions, channel).store == s.store + SessionEvents(u, sessions)
  {
    if |sessions| != 0 {
      var prefix := sessions[..|sessions| - 1];
      RunSessionsAppends(s, u, prefix, channel);
      var e := CycleAppends(RunSessions(s, u, prefix, channel), u, sessions[|sessions| - 1], channel);
      var earlier := SessionEvents(u, prefix);
      assert SessionEvents(u, sessions) == earlier + [e];
      assert s.store + (earlier + [e]) == (s.store + earlier) + [e];
    }
  }

  /** The events of a user's sessions add up to the sessions' summed lengths. */
  lemma {:induction false} SessionEventsTotal(u: UserId, sessions: seq<Session>)
    ensures TotalMillis(SessionEvents(u, sessions), u) == Num(Elapsed(sessions) as real)
  {
    if |sessions| != 0 {
      var prefix := sessions[..|sessions| - 1];
      var last := sessions[|sessions| - 1];
      var e := Event(u, Some(last.begin), last.end, Num((last.end - last.begin) as real));
      var earlier := SessionEvents(u, prefix);
      SessionEventsTotal(u, prefix);
      assert SessionEvents(u, sessions) == earlier + [e];
      TotalMillisAppend(earlier, e, u);
    }
  }

  /** A user's session events add their summed lengths to the user's total. */
  lemma SessionEventsAddElapsed(store: Store, u: UserId, sessions: seq<Session>)
    ensures TotalMillis(store + SessionEvents(u, sessions), u)
         == Add(TotalMillis(store, u), Num(Elapsed(sessions) as real))
  {
    TotalMillisConcat(store, SessionEvents(u, sessions), u);
    SessionEventsTotal(u, sessions);
  }

  /** Complete connect/disconnect pairs add exactly their summed lengths to the
      user's stored total. */
  lemma RunSessionsAddsElapsed(s: State, u: UserId, sessions: seq<Session>, channel: ChannelId)
    ensures TotalMillis(RunSessions(s, u, sessions, channel).store, u)
         == Add(TotalMillis(s.store, u), Num(Elapsed(sessions) as real))
  {
    RunSessionsAppends(s, u, sessions, channel);
    SessionEventsAddElapsed(s.store, u, sessions);
  }

  /** One user's sessions leave every other user's stored total alone. */
  lemma {:induction false} RunSessionsKeepsOthers(s: State, u: UserId, sessions: seq<Session>, channel: ChannelId, v: UserId)
    requires v != u
    ensures TotalMillis(RunSessions(s, u, sessions, channel).store, v) == TotalMillis(s.store, v)
  {
    if |sessions| != 0 {
      var prefix := sessions[..|sessions| - 1];
      var before := RunSessions(s, u, prefix, channel);
      RunSessionsKeepsOthers(s, u, prefix, channel, v);
      var e := CycleAppends(before, u, sessions[|sessions| - 1], channel);
      TotalMillisAppend(before.store, e, v);
    }
  }

  /** One connect/disconnect pair appends the session's event and nothing else. */
  lemma CycleAppends(s: State, u: UserId, session: Session, channel: ChannelId) returns (e: Event)
    ensures e == Event(u, Some(session.begin), session.end, Num((session.end - session.begin) as real))
    ensures Cycle(s, u, session, channel).store == s.store + [e]
  {
    e := Event(u, Some(session.begin), session.end, Num((session.end - session.begin) as real));
  }

  /** The example of a single session from 0 to 3 661 000 ms: the user's total,
      read from the store, shows as 0 days, 1 hour, 1 minute and 1 second. */
  lemma OneHourOneMinuteOneSecond(u: UserId, channel: ChannelId)
    ensures var s := RunSessions(Init([]), u, [Session(0, 3661000)], channel);
            var r := UptimeCommand(s, u, 3661000, true);
            && r.0.Answer?
            && Display(r.0.total) == Some(Duration.Duration(0, 1, 1, 1))
  {
    var s := RunSessions(Init([]), u, [Session(0, 3661000)], channel);
    SingleSessionState(u, channel);
    var r := UptimeCommand(s, u, 3661000, true);
    assert r.0.total == Num(3661.0);
    DisplayOneHourOneMinuteOneSecond();
  }

  /** After the single session the cache is still empty and the user's stored
      total is 3 661 000 ms. */
  lemma SingleSessionState(u: UserId, channel: ChannelId)
    ensures var s := RunSessions(Init([]), u, [Session(0, 3661000)], channel);
            s.cache == map[] && TotalMillis(s.store, u) == Num(3661000.0)
  {
    RunSessionsAddsElapsed(Init([]), u, [Session(0, 3661000)], channel);
    assert TotalMillis([], u) == Num(0.0);
    assert RunSessions(Init([]), u, [], channel) == Init([]);
  }

  /** 3 661 seconds show as 0 days, 1 hour, 1 minute and 1 second. */
  lemma DisplayOneHourOneMinuteOneSecond()
    ensures Display(Num(3661.0)) == Some(Duration.Duration(0, 1, 1, 1))
  {
    assert (3661.0).Floor == 3661;
    assert Duration.BreakdownSeconds(3661.0) == Duration.Breakdown(3661);
  }
}
