/** Whose page a request gets: the replies of the session table, one by one and over runs. */
module SessionPages {
  import opened SessionManager

  ghost predicate Holds(t: Table, id: string) { exists s <- t.sessions :: s.id == id }

  /** The context of the session under an id. */
  function ContextOf(t: Table, id: string): nat
    requires IndexOf(t.sessions, id) < |t.sessions|
  {
    t.sessions[IndexOf(t.sessions, id)].context
  }

  /** Live sessions have distinct contexts, all of them opened before. */
  ghost predicate OwnContexts(t: Table) {
    && (forall i :: 0 <= i < |t.sessions| ==> t.sessions[i].context < t.created)
    && (forall i, j :: 0 <= i < j < |t.sessions| ==> t.sessions[i].context != t.sessions[j].context)
  }

  lemma HoldsIsIndex(t: Table, id: string)
    ensures Holds(t, id) <==> IndexOf(t.sessions, id) < |t.sessions|
  {
    if IndexOf(t.sessions, id) < |t.sessions| { assert t.sessions[IndexOf(t.sessions, id)] in t.sessions; }
  }

  lemma TheOnlyOne(t: Table, s: Session)
    requires Valid(t) && s in t.sessions
    ensures IndexOf(t.sessions, s.id) < |t.sessions| && t.sessions[IndexOf(t.sessions, s.id)] == s
  {
    var k :| 0 <= k < |t.sessions| && t.sessions[k] == s;
    assert IndexOf(t.sessions, s.id) == k;
  }

  // ---------------------------------------------------------------- one request

  /** A request for an id that a session holds gets the page of that very session. */
  lemma HitGetsOwnPage(t: Table, s: Session, now: real, closes: bool, outcome: OpenOutcome)
    requires Valid(t) && s in t.sessions
    ensures GetOrCreate(t, s.id, now, closes, outcome).1 == Page(s.context, false)
    ensures Get(t, s.id, now).1 == Page(s.context, false)
    ensures GetOrCreate(t, s.id, now, closes, outcome).0 == Get(t, s.id, now).0
    ensures forall x :: x in Get(t, s.id, now).0.sessions
              <==> x == s.(lastAccessed := now) || (x in t.sessions && x.id != s.id)
  {
    TheOnlyOne(t, s);
    var i := IndexOf(t.sessions, s.id);
    var after := t.sessions[i := s.(lastAccessed := now)];
    forall x ensures x in after <==> x == s.(lastAccessed := now) || (x in t.sessions && x.id != s.id) {
      if x == s.(lastAccessed := now) { assert after[i] == x; }
      if x in t.sessions && x.id != s.id {
        var k :| 0 <= k < |t.sessions| && t.sessions[k] == x;
        assert after[k] == x;
      }
    }
  }

  /** Without such a session a plain request misses, and the browser decides about the other. An opened
      page stands in the table under the id, in a context that no session of the table has. */
  lemma MissOpensOwnPage(t: Table, id: string, now: real, closes: bool, outcome: OpenOutcome)
    requires Valid(t) && OwnContexts(t) && !Holds(t, id)
    ensures Get(t, id, now) == (t, Missing)
    ensures var (after, r) := GetOrCreate(t, id, now, closes, outcome);
            if outcome == Opens then
              && r == Page(t.created, true) && after.created == t.created + 1
              && Session(id, t.created, now) in after.sessions
              && (forall s <- t.sessions :: s.context != t.created)
              && (forall s <- after.sessions :: s == Session(id, t.created, now) || s in t.sessions)
            else
              r == BrowserFailed && !Holds(after, id)
  {
    HoldsIsIndex(t, id);
    GetOrCreateKeeps(t, id, now, closes, outcome);
    forall s | s in t.sessions ensures s.context != t.created {
      var k :| 0 <= k < |t.sessions| && t.sessions[k] == s;
    }
    if |t.sessions| >= MAX_SESSIONS {
      EvictedMakesRoom(t, now, closes);
      ClosedKeeps(t, Victim(t.sessions, now).id, closes);
    }
  }

  // ---------------------------------------------------------------- contexts over runs

  lemma ClosedKeepsOwn(t: Table, id: string, closes: bool)
    requires OwnContexts(t)
    ensures OwnContexts(Closed(t, id, closes)) && Closed(t, id, closes).created == t.created
  {
  }

  lemma {:induction false} CloseAllKeepsOwn(t: Table, ids: seq<string>, closes: set<string>)
    requires OwnContexts(t)
    ensures OwnContexts(CloseAll(t, ids, closes)) && CloseAll(t, ids, closes).created == t.created
    decreases ids
  {
    if ids != [] {
      ClosedKeepsOwn(t, ids[0], ids[0] in closes);
      CloseAllKeepsOwn(Closed(t, ids[0], ids[0] in closes), ids[1..], closes);
    }
  }

  lemma OpenKeepsOwn(t: Table, id: string, now: real, closes: bool, outcome: OpenOutcome)
    requires OwnContexts(t) && IndexOf(t.sessions, id) == |t.sessions|
    ensures var after := GetOrCreate(t, id, now, closes, outcome).0; OwnContexts(after) && t.created <= after.created
  {
    if |t.sessions| >= MAX_SESSIONS { ClosedKeepsOwn(t, Victim(t.sessions, now).id, closes); }
  }

  lemma ServeKeepsOwn(t: Table, r: Request, now: real)
    requires OwnContexts(t)
    ensures OwnContexts(Serve(t, r, now)) && t.created <= Serve(t, r, now).created
  {
    match r
    case GetOrCreateIt(id, closes, outcome) =>
      if IndexOf(t.sessions, id) == |t.sessions| { OpenKeepsOwn(t, id, now, closes, outcome); }
    case GetIt(id) =>
    case CloseIt(id, closes) => ClosedKeepsOwn(t, id, closes);
    case Cleanup(closes) => CloseAllKeepsOwn(t, Ids(ExpiredOnly(t.sessions, now)), closes);
  }

  /** In every run no two live sessions share a context. */
  lemma {:induction false} ContextsAreOwn(t: Table, rs: seq<(Request, real)>)
    requires OwnContexts(t)
    ensures OwnContexts(ServeAll(t, rs)) && t.created <= ServeAll(t, rs).created
    decreases rs
  {
    if rs != [] {
      ServeKeepsOwn(t, rs[0].0, rs[0].1);
      ContextsAreOwn(Serve(t, rs[0].0, rs[0].1), rs[1..]);
    }
  }

  lemma EveryRunKeepsContextsApart(rs: seq<(Request, real)>)
    ensures OwnContexts(ServeAll(EMPTY_TABLE, rs)) && Valid(ServeAll(EMPTY_TABLE, rs))
  {
    ContextsAreOwn(EMPTY_TABLE, rs);
    ServeAllKeeps(EMPTY_TABLE, rs);
  }

  // ---------------------------------------------------------------- the same page again

  /** What takes a session out of the table: being closed, cleaned up after its time, or evicted for a
      request under an unknown id while the table is full. */
  predicate Loses(t: Table, r: Request, now: real, s: Session) {
    match r
    case CloseIt(id, _) => id == s.id
    case Cleanup(_) => now - s.lastAccessed > 300.0
    case GetOrCreateIt(id, _, _) =>
      IndexOf(t.sessions, id) == |t.sessions| && |t.sessions| >= 50 && Victim(t.sessions, now) == s
    case GetIt(_) => false
  }

  lemma LostExactlyWhen(t: Table, r: Request, now: real, s: Session)
    requires Valid(t) && s in t.sessions
    ensures Holds(Serve(t, r, now), s.id) <==> !Loses(t, r, now, s)
    ensures forall x <- Serve(t, r, now).sessions :: x.id == s.id ==> x.context == s.context
  {
    TheOnlyOne(t, s);
    match r
    case GetIt(id) => TouchKeeps(t, id, now, s);
    case CloseIt(id, closes) => ClosedHolds(t, id, closes, s);
    case Cleanup(closes) => CleanupHolds(t, now, closes, s);
    case GetOrCreateIt(id, closes, outcome) =>
      if IndexOf(t.sessions, id) < |t.sessions| {
        TouchKeeps(t, id, now, s);
      } else {
        OpenHolds(t, id, now, closes, outcome, s);
      }
  }

  lemma TouchKeeps(t: Table, id: string, now: real, s: Session)
    requires Valid(t) && s in t.sessions
    ensures var after := Get(t, id, now).0;
            Holds(after, s.id) && forall x <- after.sessions :: x.id == s.id ==> x.context == s.context
  {
    TheOnlyOne(t, s);
    HoldsIsIndex(t, id);
    if Holds(t, id) {
      var hit := t.sessions[IndexOf(t.sessions, id)];
      var after := Get(t, id, now).0;
      HitGetsOwnPage(t, hit, now, true, Opens);
      if hit.id == s.id { assert s.(lastAccessed := now) in after.sessions; } else { assert s in after.sessions; }
      OthersAreOthers(t, s);
    } else {
      OthersAreOthers(t, s);
    }
  }

  lemma OthersAreOthers(t: Table, s: Session)
    requires Valid(t) && s in t.sessions
    ensures forall x <- t.sessions :: x.id == s.id ==> x == s
  {
    forall x | x in t.sessions && x.id == s.id ensures x == s { TheOnlyOne(t, s); TheOnlyOne(t, x); }
  }

  lemma ClosedHolds(t: Table, id: string, closes: bool, s: Session)
    requires Valid(t) && s in t.sessions
    ensures Holds(Closed(t, id, closes), s.id) <==> id != s.id
    ensures forall x <- Closed(t, id, closes).sessions :: x.id == s.id ==> x == s
  {
    ClosedKeeps(t, id, closes);
    OthersAreOthers(t, s);
  }

  lemma CleanupHolds(t: Table, now: real, closes: set<string>, s: Session)
    requires Valid(t) && s in t.sessions
    ensures Holds(CleanedUp(t, now, closes), s.id) <==> !Expired(s, now)
    ensures forall x <- CleanedUp(t, now, closes).sessions :: x.id == s.id ==> x == s
  {
    var expired := ExpiredOnly(t.sessions, now);
    var ids := Ids(expired);
    CloseAllKeeps(t, ids, closes);
    ExpiredOnlyIs(t.sessions, now);
    OthersAreOthers(t, s);
    if Expired(s, now) {
      var k :| 0 <= k < |expired| && expired[k] == s;
      assert ids[k] == s.id;
    } else {
      forall k | 0 <= k < |ids| ensures ids[k] != s.id { assert expired[k] in expired && expired[k] in t.sessions; }
    }
  }

  lemma OpenHolds(t: Table, id: string, now: real, closes: bool, outcome: OpenOutcome, s: Session)
    requires Valid(t) && s in t.sessions && IndexOf(t.sessions, id) == |t.sessions|
    ensures var after := GetOrCreate(t, id, now, closes, outcome).0;
            && (Holds(after, s.id) <==> !(|t.sessions| >= MAX_SESSIONS && Victim(t.sessions, now) == s))
            && forall x <- after.sessions :: x.id == s.id ==> x == s
  {
    HoldsIsIndex(t, id);
    OthersAreOthers(t, s);
    var full := |t.sessions| >= MAX_SESSIONS;
    var room := if full then Evicted(t, now, closes) else t;
    if full {
      VictimIsLeastRecent(t.sessions, now);
      EvictedMakesRoom(t, now, closes);
      ClosedHolds(t, Victim(t.sessions, now).id, closes, s);
    }
    OpenedIs(t, room, id, now, closes, outcome);
    var after := GetOrCreate(t, id, now, closes, outcome).0;
    assert forall x <- room.sessions :: x in after.sessions;
  }

  /** The session under the id is not lost to any request of the run. */
  ghost predicate HeldThroughout(t: Table, rs: seq<(Request, real)>, id: string)
    decreases rs
  {
    Holds(t, id) && (rs == [] || HeldThroughout(Serve(t, rs[0].0, rs[0].1), rs[1..], id))
  }

  lemma CreatedLater(t: Table, r: Request, now: real, id: string)
    requires Valid(t) && OwnContexts(t) && !Holds(t, id)
    ensures forall x <- Serve(t, r, now).sessions :: x.id == id ==> x.context == t.created
  {
    match r
    case GetIt(other) => TouchedIds(t, other, now);
    case CloseIt(other, closes) => ClosedKeeps(t, other, closes);
    case Cleanup(closes) => CloseAllKeeps(t, Ids(ExpiredOnly(t.sessions, now)), closes);
    case GetOrCreateIt(other, closes, outcome) =>
      HoldsIsIndex(t, other);
      if Holds(t, other) {
        TouchedIds(t, other, now);
      } else {
        MissOpensOwnPage(t, other, now, closes, outcome);
        MissAddsNothingElse(t, other, now, closes, outcome);
      }
  }

  lemma TouchedIds(t: Table, id: string, now: real)
    ensures forall x <- Get(t, id, now).0.sessions :: Holds(t, x.id)
  {
    var i, after := IndexOf(t.sessions, id), Get(t, id, now).0;
    forall x | x in after.sessions ensures Holds(t, x.id) {
      var k :| 0 <= k < |after.sessions| && after.sessions[k] == x;
      assert t.sessions[k] in t.sessions && t.sessions[k].id == x.id;
    }
  }

  lemma MissAddsNothingElse(t: Table, id: string, now: real, closes: bool, outcome: OpenOutcome)
    requires Valid(t) && IndexOf(t.sessions, id) == |t.sessions|
    ensures forall x <- GetOrCreate(t, id, now, closes, outcome).0.sessions ::
              x in t.sessions || x == Session(id, t.created, now)
  {
    if |t.sessions| >= MAX_SESSIONS { ClosedKeeps(t, Victim(t.sessions, now).id, closes); }
  }

  /** A context that has left the table never comes back under its id. */
  lemma {:induction false} NeverComesBack(t: Table, rs: seq<(Request, real)>, id: string, c: nat)
    requires Valid(t) && OwnContexts(t) && c < t.created
    requires forall x <- t.sessions :: x.id == id ==> x.context != c
    ensures forall x <- ServeAll(t, rs).sessions :: x.id == id ==> x.context != c
    decreases rs
  {
    if rs != [] {
      var (r, now) := rs[0];
      ServeKeeps(t, r, now);
      ServeKeepsOwn(t, r, now);
      HoldsIsIndex(t, id);
      if Holds(t, id) {
        LostExactlyWhen(t, r, now, t.sessions[IndexOf(t.sessions, id)]);
      } else {
        CreatedLater(t, r, now, id);
      }
      NeverComesBack(Serve(t, r, now), rs[1..], id, c);
    }
  }

  /** Two requests for one id, any run of requests in between: the second one gets the context of the
      first again exactly when the session was not lost meanwhile. */
  lemma {:induction false} SamePageExactlyWhenHeld(t: Table, rs: seq<(Request, real)>, s: Session, now: real)
    requires Valid(t) && OwnContexts(t) && s in t.sessions
    ensures Get(ServeAll(t, rs), s.id, now).1 == Page(s.context, false) <==> HeldThroughout(t, rs, s.id)
    decreases rs
  {
    assert Holds(t, s.id);
    if rs == [] {
      HitGetsOwnPage(t, s, now, true, Opens);
    } else {
      var (r, at) := rs[0];
      var next := Serve(t, r, at);
      ServeKeeps(t, r, at);
      ServeKeepsOwn(t, r, at);
      LostExactlyWhen(t, r, at, s);
      if Holds(next, s.id) {
        var s' :| s' in next.sessions && s'.id == s.id;
        SamePageExactlyWhenHeld(next, rs[1..], s', now);
      } else {
        OwnContextIsOld(t, s);
        NeverComesBack(next, rs[1..], s.id, s.context);
        NotFoundUnder(ServeAll(next, rs[1..]), s, now);
      }
    }
  }

  lemma OwnContextIsOld(t: Table, s: Session)
    requires OwnContexts(t) && s in t.sessions
    ensures s.context < t.created
  {
    var k :| 0 <= k < |t.sessions| && t.sessions[k] == s;
  }

  lemma NotFoundUnder(t: Table, s: Session, now: real)
    requires forall x <- t.sessions :: x.id == s.id ==> x.context != s.context
    ensures Get(t, s.id, now).1 != Page(s.context, false)
  {
    var i := IndexOf(t.sessions, s.id);
    if i < |t.sessions| { assert t.sessions[i] in t.sessions; }
  }
}
