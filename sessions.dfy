/**
 * The session store: session id to context, with a lease refreshed on every read and
 * write and a periodic sweep of contexts idle for longer than the TTL. `now` stands
 * for `Date.now()` at the time of the call.
 */
module Sessions {
  import opened Prelude
  import opened Auth

  /** 30 minutes, in milliseconds. */
  const SessionTtlMs: int := 30 * 60 * 1000
  /** The sweep runs every 5 minutes. */
  const CleanupIntervalMs: int := 5 * 60 * 1000

  /** Handles of a session's transport and server, its tenant, and the time of its last use. */
  datatype SessionContext = SessionContext(transport: nat, mcpServer: nat, tenant: Tenant, lastActivity: int)

  /** Idle for strictly longer than the TTL. */
  predicate Stale(ctx: SessionContext, now: int)
  {
    now - ctx.lastActivity > SessionTtlMs
  }

  /** The store after a sweep at `now`. */
  function Swept(sessions: map<string, SessionContext>, now: int): map<string, SessionContext>
  {
    map id | id in sessions && !Stale(sessions[id], now) :: sessions[id]
  }

  /** A context used at time `t` survives every sweep up to `t` + TTL, unchanged; past it, it is removed. */
  lemma SweepKeepsLease(sessions: map<string, SessionContext>, id: string, now: int)
    requires id in sessions
    ensures now <= sessions[id].lastActivity + SessionTtlMs ==> id in Swept(sessions, now) && Swept(sessions, now)[id] == sessions[id]
    ensures now > sessions[id].lastActivity + SessionTtlMs ==> id !in Swept(sessions, now)
  {
  }

  /** Sweeping twice at the same time removes nothing more; a later sweep removes at least as much. */
  lemma SweepIdempotentAndMonotone(sessions: map<string, SessionContext>, now: int, later: int)
    requires now <= later
    ensures Swept(Swept(sessions, now), now) == Swept(sessions, now)
    ensures Swept(sessions, later).Keys <= Swept(sessions, now).Keys
    ensures Swept(Swept(sessions, now), later) == Swept(sessions, later)
  {
  }

  class SessionStore {
    var sessions: map<string, SessionContext>

    constructor ()
      ensures sessions == map[]
    {
      sessions := map[];
    }

    /** `getSession`: a hit refreshes the lease and returns the context; a miss changes nothing. */
    method GetSession(sessionId: string, now: int) returns (ctx: Option<SessionContext>)
      modifies this
      ensures sessionId in old(sessions) ==>
                ctx == Some(old(sessions)[sessionId].(lastActivity := now))
                && sessions == old(sessions)[sessionId := ctx.value]
      ensures sessionId !in old(sessions) ==> ctx.None? && sessions == old(sessions)
      ensures sessions.Keys == old(sessions).Keys
    {
      if sessionId in sessions {
        var found := sessions[sessionId].(lastActivity := now);
        sessions := sessions[sessionId := found];
        ctx := Some(found);
      } else {
        ctx := None;
      }
    }

    /** `setSession`: stamps the context and stores it, replacing any earlier one for that id. */
    method SetSession(sessionId: string, ctx: SessionContext, now: int)
      modifies this
      ensures sessions == old(sessions)[sessionId := ctx.(lastActivity := now)]
    {
      sessions := sessions[sessionId := ctx.(lastActivity := now)];
    }

    /** `deleteSession`: removes the id if present; other ids are untouched. */
    method DeleteSession(sessionId: string)
      modifies this
      ensures sessions == map id | id in old(sessions) && id != sessionId :: old(sessions)[id]
      ensures sessionId !in sessions
    {
      sessions := map id | id in sessions && id != sessionId :: sessions[id];
    }

    /**
     * `cleanupStaleSessions`: removes exactly the stale contexts. `closed` holds the ids whose
     * transport `close` was attempted; a failing close does not keep the entry.
     */
    method CleanupStaleSessions(now: int) returns (closed: set<string>)
      modifies this
      ensures sessions == Swept(old(sessions), now)
      ensures closed == old(sessions).Keys - sessions.Keys
      ensures forall id | id in closed :: Stale(old(sessions)[id], now)
    {
      ghost var start := sessions;
      var pending := sessions.Keys;
      closed := {};
      while pending != {}
        invariant pending <= start.Keys
        invariant sessions == map id | id in start && (id in pending || !Stale(start[id], now)) :: start[id]
        invariant closed == set id | id in start && id !in pending && Stale(start[id], now)
        decreases pending
      {
        var sessionId :| sessionId in pending;
        var ctx := sessions[sessionId];
        if now - ctx.lastActivity > SessionTtlMs {
          closed := closed + {sessionId};
          sessions := map id | id in sessions && id != sessionId :: sessions[id];
        }
        pending := pending - {sessionId};
      }
    }
  }

  /** A session set or read at `t` is still there after a sweep at any time up to `t` + 30 minutes. */
  method LeaseScenario(store: SessionStore, sessionId: string, ctx: SessionContext, t: int, sweepAt: int)
    returns (found: Option<SessionContext>)
    requires sweepAt <= t + 30 * 60 * 1000
    modifies store
    ensures found.Some? && found.value == ctx.(lastActivity := sweepAt)
  {
    store.SetSession(sessionId, ctx, t);
    var closed := store.CleanupStaleSessions(sweepAt);
    found := store.GetSession(sessionId, sweepAt);
  }
}
