/** The per-user session documents of the LINE client (collection `userSessions`), and the
    window check that decides whether a user is still inside "subsidy mode".
    Timestamps are milliseconds since the epoch; the current time is a parameter. Every store
    call takes a fault oracle: `Some(e)` (or `true` for reads) means the store call itself fails. */
module FirestoreService {
  import opened Wrappers

  /** A candidate the user was offered: `{id, name}`. */
  datatype SubsidyRef = SubsidyRef(id: string, name: string)

  /** The modelled fields of a session document: `subsidyMode` and `selectedSubsidy`. */
  datatype Session = Session(
    isActive: bool,
    startedAt: int,
    lastActivityAt: int,
    subsidyId: string,
    subsidyName: string,
    selectedFrom: seq<SubsidyRef>)

  const DummySubsidyId := "dummy_id"
  const DummySubsidyName := "ダミー補助金"

  /** The error Firestore raises when `update` targets a document that does not exist. */
  const NoDocumentError := "NOT_FOUND: No document to update"

  /** The document `saveUserSession` writes at time `now`. */
  function NewSession(now: int): Session {
    Session(true, now, now, DummySubsidyId, DummySubsidyName, [])
  }

  /** Seconds elapsed from `startedAt` to `now`, computed as the source does (milliseconds / 1000). */
  function ElapsedSeconds(now: int, startedAt: int): real {
    (now - startedAt) as real / 1000.0
  }

  /** The decision of `isActiveSessionWithinTimeLimit` once the session has been read: a session
      exists, its mode is active, and no more than `limitSeconds` have passed since it STARTED. */
  predicate WithinTimeLimit(session: Option<Session>, now: int, limitSeconds: real) {
    && session.Some?
    && session.value.isActive
    && ElapsedSeconds(now, session.value.startedAt) <= limitSeconds
  }

  /** No session, or an inactive one, is never within the limit. */
  lemma InactiveNeverWithin(session: Option<Session>, now: int, limitSeconds: real)
    requires session.None? || !session.value.isActive
    ensures !WithinTimeLimit(session, now, limitSeconds)
  {
  }

  /** The window is measured from `startedAt`: `lastActivityAt` plays no part, so refreshing it
      never extends the window. */
  lemma WindowIgnoresLastActivity(s: Session, t: int, now: int, limitSeconds: real)
    ensures WithinTimeLimit(Some(s.(lastActivityAt := t)), now, limitSeconds)
         == WithinTimeLimit(Some(s), now, limitSeconds)
  {
  }

  /** For a whole number of seconds the check is the integer comparison
      `now - startedAt <= 1000 * limit`; in particular reaching the limit exactly still counts. */
  lemma WithinTimeLimitInMilliseconds(s: Session, now: int, limitSeconds: int)
    ensures WithinTimeLimit(Some(s), now, limitSeconds as real)
        <==> s.isActive && now - s.startedAt <= 1000 * limitSeconds
  {
    var d := (now - s.startedAt) as real;
    assert d / 1000.0 <= limitSeconds as real <==> d <= 1000.0 * limitSeconds as real;
  }

  /** With the default limit, a session started 30 s ago is active and one started 30.001 s ago
      is not, however recent its last activity. */
  lemma DefaultWindowBoundary(s: Session, now: int)
    requires s.isActive && s.lastActivityAt == now
    ensures now - s.startedAt == 30000 ==> WithinTimeLimit(Some(s), now, 30.0)
    ensures now - s.startedAt == 30001 ==> !WithinTimeLimit(Some(s), now, 30.0)
  {
    WithinTimeLimitInMilliseconds(s, now, 30);
  }

  /** The `userSessions` collection, keyed by LINE user id. */
  class UserSessionStore {
    var sessions: map<string, Session>

    constructor ()
      ensures sessions == map[]
    {
      sessions := map[];
    }

    /** The session stored for `userId`, if any. */
    function Lookup(userId: string): Option<Session>
      reads this
    {
      if userId in sessions then Some(sessions[userId]) else None
    }

    /** `saveUserSession`: a merge-set of a brand-new active session, overwriting any existing
        one; a failure of the write is rethrown. */
    method SaveUserSession(userId: string, now: int, fault: Option<string>) returns (r: Outcome)
      modifies this
      ensures fault.Some? ==> r == Fail(fault.value) && sessions == old(sessions)
      ensures fault.None? ==> r == Pass && sessions == old(sessions)[userId := NewSession(now)]
    {
      if fault.Some? {
        return Fail(fault.value);
      }
      sessions := sessions[userId := NewSession(now)];
      r := Pass;
    }

    /** `getUserSession`: the stored session; `None` both when there is none and when the read
        fails (the read error is swallowed). */
    method GetUserSession(userId: string, fault: bool) returns (s: Option<Session>)
      ensures fault ==> s.None?
      ensures !fault ==> (s.Some? <==> userId in sessions)
      ensures s.Some? ==> userId in sessions && s.value == sessions[userId]
    {
      if fault {
        return None;
      }
      s := Lookup(userId);
    }

    /** `isActiveSessionWithinTimeLimit`: true iff the read succeeds, the session exists and is
        active, and at most `limitSeconds` (default 30) have passed since `startedAt`. */
    method IsActiveSessionWithinTimeLimit(userId: string, now: int, fault: bool, limitSeconds: real := 30.0)
      returns (active: bool)
      ensures active <==> !fault && userId in sessions && sessions[userId].isActive
                          && (now - sessions[userId].startedAt) as real / 1000.0 <= limitSeconds
    {
      var session := GetUserSession(userId, fault);
      active := WithinTimeLimit(session, now, limitSeconds);
    }

    /** The common shape of the field-level `update` calls: the write fails when the store fails
        or when the document does not exist; otherwise the listed fields are replaced. */
    method Update(userId: string, fault: Option<string>, updated: Session) returns (r: Outcome)
      modifies this
      ensures r == (if fault.Some? then Fail(fault.value)
                    else if userId !in old(sessions) then Fail(NoDocumentError)
                    else Pass)
      ensures r.Pass? ==> sessions == old(sessions)[userId := updated]
      ensures r.Fail? ==> sessions == old(sessions)
    {
      if fault.Some? {
        return Fail(fault.value);
      }
      if userId !in sessions {
        return Fail(NoDocumentError);
      }
      sessions := sessions[userId := updated];
      r := Pass;
    }

    /** `updateLastActivityAt`: only `lastActivityAt` changes; failures are rethrown. */
    method UpdateLastActivityAt(userId: string, now: int, fault: Option<string>) returns (r: Outcome)
      modifies this
      ensures r == (if fault.Some? then Fail(fault.value)
                    else if userId !in old(sessions) then Fail(NoDocumentError)
                    else Pass)
      ensures r.Pass? ==> sessions == old(sessions)[userId := old(sessions)[userId].(lastActivityAt := now)]
      ensures r.Fail? ==> sessions == old(sessions)
    {
      var s := if userId in sessions then sessions[userId] else NewSession(now);
      r := Update(userId, fault, s.(lastActivityAt := now));
    }

    /** `saveSubsidyList`: `selectedFrom` is replaced wholesale (never appended to) and
        `lastActivityAt` refreshed; nothing else changes. */
    method SaveSubsidyList(userId: string, subsidies: seq<SubsidyRef>, now: int, fault: Option<string>)
      returns (r: Outcome)
      modifies this
      ensures r == (if fault.Some? then Fail(fault.value)
                    else if userId !in old(sessions) then Fail(NoDocumentError)
                    else Pass)
      ensures r.Pass? ==> sessions == old(sessions)[userId := old(sessions)[userId].(selectedFrom := subsidies, lastActivityAt := now)]
      ensures r.Fail? ==> sessions == old(sessions)
    {
      var s := if userId in sessions then sessions[userId] else NewSession(now);
      r := Update(userId, fault, s.(selectedFrom := subsidies, lastActivityAt := now));
    }

    /** `updateSubsidyMode`: sets `isActive` and refreshes `lastActivityAt`; `startedAt` is never
        touched. */
    method UpdateSubsidyMode(userId: string, isActive: bool, now: int, fault: Option<string>)
      returns (r: Outcome)
      modifies this
      ensures r == (if fault.Some? then Fail(fault.value)
                    else if userId !in old(sessions) then Fail(NoDocumentError)
                    else Pass)
      ensures r.Pass? ==> sessions == old(sessions)[userId := old(sessions)[userId].(isActive := isActive, lastActivityAt := now)]
      ensures r.Fail? ==> sessions == old(sessions)
    {
      var s := if userId in sessions then sessions[userId] else NewSession(now);
      r := Update(userId, fault, s.(isActive := isActive, lastActivityAt := now));
    }

    /** `saveSelectedSubsidy`: overwrites `subsidyId` and `subsidyName` and refreshes
        `lastActivityAt`; `selectedFrom` stays as it was. */
    method SaveSelectedSubsidy(userId: string, selected: SubsidyRef, now: int, fault: Option<string>)
      returns (r: Outcome)
      modifies this
      ensures r == (if fault.Some? then Fail(fault.value)
                    else if userId !in old(sessions) then Fail(NoDocumentError)
                    else Pass)
      ensures r.Pass? ==> sessions == old(sessions)[userId := old(sessions)[userId].(subsidyId := selected.id, subsidyName := selected.name, lastActivityAt := now)]
      ensures r.Fail? ==> sessions == old(sessions)
    {
      var s := if userId in sessions then sessions[userId] else NewSession(now);
      r := Update(userId, fault, s.(subsidyId := selected.id, subsidyName := selected.name, lastActivityAt := now));
    }
  }
}
