/** python/playwright-service/session_manager.py: the bounded table of browser sessions, and the
    plain least-recently-used cache it amounts to. */
module SessionManager {

  // ---------------------------------------------------------------- data

  const SESSION_TTL_SECONDS := 300.0
  const MAX_SESSIONS := 50

  datatype Session = Session(id: string, context: nat, lastAccessed: real)

  /** `sessions` lists the table in insertion order, as a Python dict does. `created` counts the
      contexts created so far, `closed` those closed, and `leaked` those that an error left open
      outside the table. */
  datatype Table = Table(sessions: seq<Session>, created: nat, closed: nat, leaked: nat)

  const EMPTY_TABLE := Table([], 0, 0, 0)

  /** What the browser does when asked for a context and then for its page. */
  datatype OpenOutcome = Opens | NoContext | NoPage

  datatype Reply = Page(context: nat, isNew: bool) | Missing | LimitReached | BrowserFailed

  // ---------------------------------------------------------------- specification

  predicate Expired(s: Session, now: real) { now - s.lastAccessed > SESSION_TTL_SECONDS }

  /** The position of a session, or |ss|. */
  function IndexOf(ss: seq<Session>, id: string): (i: nat)
    ensures i <= |ss|
    ensures i < |ss| ==> ss[i].id == id
    ensures forall k :: 0 <= k < i ==> ss[k].id != id
  {
    if ss == [] || ss[0].id == id then 0 else 1 + IndexOf(ss[1..], id)
  }

  /** `min(..., key=last_accessed)`: the first among the oldest. */
  function OldestIndex(ss: seq<Session>): (i: nat)
    requires ss != []
    ensures i < |ss|
    ensures forall k :: 0 <= k < |ss| ==> ss[i].lastAccessed <= ss[k].lastAccessed
    ensures forall k :: 0 <= k < i ==> ss[i].lastAccessed < ss[k].lastAccessed
  {
    if |ss| == 1 then 0
    else
      var j := OldestIndex(ss[1..]);
      if ss[0].lastAccessed <= ss[1..][j].lastAccessed then 0 else j + 1
  }

  function ExpiredOnly(ss: seq<Session>, now: real): seq<Session> {
    if ss == [] then []
    else (if Expired(ss[0], now) then [ss[0]] else []) + ExpiredOnly(ss[1..], now)
  }

  function Touched(t: Table, i: nat, now: real): Table
    requires i < |t.sessions|
  {
    t.(sessions := t.sessions[i := t.sessions[i].(lastAccessed := now)])
  }

  /** Removal from the table, then closing; a failed close leaves its context behind. */
  function Closed(t: Table, id: string, closes: bool): Table {
    var i := IndexOf(t.sessions, id);
    if i == |t.sessions| then t
    else
      var t := t.(sessions := t.sessions[..i] + t.sessions[i + 1..]);
      if closes then t.(closed := t.closed + 1) else t.(leaked := t.leaked + 1)
  }

  /** The session the manager evicts: the oldest expired one, else the oldest one. */
  function Victim(ss: seq<Session>, now: real): Session
    requires ss != []
  {
    var expired := ExpiredOnly(ss, now);
    if expired != [] then expired[OldestIndex(expired)] else ss[OldestIndex(ss)]
  }

  function Evicted(t: Table, now: real, closes: bool): Table {
    if t.sessions == [] then t else Closed(t, Victim(t.sessions, now).id, closes)
  }

  function GetOrCreate(t: Table, id: string, now: real, closes: bool, outcome: OpenOutcome): (Table, Reply) {
    var i := IndexOf(t.sessions, id);
    if i < |t.sessions| then (Touched(t, i, now), Page(t.sessions[i].context, false))
    else
      var t := if |t.sessions| >= MAX_SESSIONS then Evicted(t, now, closes) else t;
      if |t.sessions| >= MAX_SESSIONS then (t, LimitReached)
      else match outcome
        case NoContext => (t, BrowserFailed)
        case NoPage => (t.(created := t.created + 1, leaked := t.leaked + 1), BrowserFailed)
        case Opens =>
          (t.(sessions := t.sessions + [Session(id, t.created, now)], created := t.created + 1), Page(t.created, true))
  }

  function Get(t: Table, id: string, now: real): (Table, Reply) {
    var i := IndexOf(t.sessions, id);
    if i < |t.sessions| then (Touched(t, i, now), Page(t.sessions[i].context, false)) else (t, Missing)
  }

  /** Closing the expired sessions one after the other; `closes` says which closes succeed. */
  function CloseAll(t: Table, ids: seq<string>, closes: set<string>): Table
    decreases ids
  {
    if ids == [] then t else CloseAll(Closed(t, ids[0], ids[0] in closes), ids[1..], closes)
  }

  function Ids(ss: seq<Session>): (r: seq<string>)
    ensures |r| == |ss| && forall k :: 0 <= k < |ss| ==> r[k] == ss[k].id
  {
    seq(|ss|, k requires 0 <= k < |ss| => ss[k].id)
  }

  function CleanedUp(t: Table, now: real, closes: set<string>): Table {
    CloseAll(t, Ids(ExpiredOnly(t.sessions, now)), closes)
  }

  // ---------------------------------------------------------------- the manager

  class BrowserSessionManager {
    var sessions: seq<Session>
    var created: nat
    var closed: nat
    var leaked: nat

    function View(): Table
      reads this
    {
      Table(sessions, created, closed, leaked)
    }

    constructor ()
      ensures View() == EMPTY_TABLE
    {
      sessions, created, closed, leaked := [], 0, 0, 0;
    }

    method CloseSession(id: string, closes: bool) returns (existed: bool)
      modifies this
      ensures View() == Closed(old(View()), id, closes)
      ensures existed == (IndexOf(old(sessions), id) < |old(sessions)|)
    {
      var i := IndexOf(sessions, id);
      if i == |sessions| {
        return false;
      }
      sessions := sessions[..i] + sessions[i + 1..];
      if closes {
        closed := closed + 1;
      } else {
        leaked := leaked + 1;
      }
      return true;
    }

    method EvictOldest(now: real, closes: bool)
      modifies this
      ensures View() == Evicted(old(View()), now, closes)
    {
      if sessions == [] {
        return;
      }
      var expired := ExpiredOnly(sessions, now);
      if expired != [] {
        var oldest := expired[OldestIndex(expired)];
        var _ := CloseSession(oldest.id, closes);
        return;
      }
      var oldest := sessions[OldestIndex(sessions)];
      var _ := CloseSession(oldest.id, closes);
    }

    method GetOrCreateSession(id: string, now: real, closes: bool, outcome: OpenOutcome) returns (r: Reply)
      modifies this
      ensures (View(), r) == GetOrCreate(old(View()), id, now, closes, outcome)
    {
      var i := IndexOf(sessions, id);
      if i < |sessions| {
        sessions := sessions[i := sessions[i].(lastAccessed := now)];
        return Page(sessions[i].context, false);
      }
      if |sessions| >= MAX_SESSIONS {
        EvictOldest(now, closes);
        if |sessions| >= MAX_SESSIONS {
          return LimitReached;
        }
      }
      if outcome.NoContext? {
        return BrowserFailed;
      }
      var context := created;
      created := created + 1;
      if outcome.NoPage? {
        leaked := leaked + 1;
        return BrowserFailed;
      }
      sessions := sessions + [Session(id, context, now)];
      return Page(context, true);
    }

    method GetSession(id: string, now: real) returns (r: Reply)
      modifies this`sessions
      ensures (View(), r) == Get(old(View()), id, now)
    {
      var i := IndexOf(sessions, id);
      if i == |sessions| {
        return Missing;
      }
      sessions := sessions[i := sessions[i].(lastAccessed := now)];
      return Page(sessions[i].context, false);
    }

    method CleanupExpired(now: real, closes: set<string>)
      modifies this
      ensures View() == CleanedUp(old(View()), now, closes)
    {
      var ids := Ids(ExpiredOnly(sessions, now));
      for k := 0 to |ids|
        invariant CloseAll(View(), ids[k..], closes) == CleanedUp(old(View()), now, closes)
      {
        assert ids[k..][1..] == ids[k + 1..];
        var _ := CloseSession(ids[k], ids[k] in closes);
      }
    }
  }

  // ---------------------------------------------------------------- runs

  /** One request, with the clock read once and the outcomes the browser chooses. */
  datatype Request =
    | GetOrCreateIt(id: string, closes: bool, outcome: OpenOutcome)
    | GetIt(id: string)
    | CloseIt(id: string, closes: bool)
    | Cleanup(closed: set<string>)

  function Serve(t: Table, r: Request, now: real): Table {
    match r
    case GetOrCreateIt(id, closes, outcome) => GetOrCreate(t, id, now, closes, outcome).0
    case GetIt(id) => Get(t, id, now).0
    case CloseIt(id, closes) => Closed(t, id, closes)
    case Cleanup(closes) => CleanedUp(t, now, closes)
  }

  function ServeAll(t: Table, rs: seq<(Request, real)>): Table
    decreases rs
  {
    if rs == [] then t else ServeAll(Serve(t, rs[0].0, rs[0].1), rs[1..])
  }

  ghost predicate UniqueIds(ss: seq<Session>) { forall i, j :: 0 <= i < j < |ss| ==> ss[i].id != ss[j].id }

  /** Every context created is in the table, closed, or accounted for as leaked. */
  ghost predicate Valid(t: Table) {
    && UniqueIds(t.sessions)
    && |t.sessions| <= MAX_SESSIONS
    && t.created == |t.sessions| + t.closed + t.leaked
  }

  lemma ClosedKeeps(t: Table, id: string, closes: bool)
    requires Valid(t)
    ensures Valid(Closed(t, id, closes))
    ensures forall s <- Closed(t, id, closes).sessions :: s in t.sessions && s.id != id
    ensures forall s <- t.sessions :: s.id != id ==> s in Closed(t, id, closes).sessions
  {
  }

  lemma {:induction false} CloseAllKeeps(t: Table, ids: seq<string>, closes: set<string>)
    requires Valid(t)
    ensures Valid(CloseAll(t, ids, closes))
    ensures forall s :: s in CloseAll(t, ids, closes).sessions <==> s in t.sessions && s.id !in ids
    decreases ids
  {
    if ids != [] {
      ClosedKeeps(t, ids[0], ids[0] in closes);
      CloseAllKeeps(Closed(t, ids[0], ids[0] in closes), ids[1..], closes);
    }
  }

  lemma {:induction false} ExpiredOnlyIs(ss: seq<Session>, now: real)
    ensures forall s :: s in ExpiredOnly(ss, now) <==> s in ss && Expired(s, now)
  {
    if ss != [] { ExpiredOnlyIs(ss[1..], now); }
  }

  // ---------------------------------------------------------------- capacity and contexts

  lemma {:induction false} OldestSurvivesFilter(ss: seq<Session>, now: real)
    requires ss != [] && Expired(ss[OldestIndex(ss)], now)
    ensures var e := ExpiredOnly(ss, now); e != [] && e[OldestIndex(e)] == ss[OldestIndex(ss)]
  {
    var i, e := OldestIndex(ss), ExpiredOnly(ss, now);
    if |ss| == 1 {
      assert OldestIndex(ss) == 0 && ss[1..] == [] && ExpiredOnly(ss[1..], now) == [];
    } else if i == 0 {
      ExpiredOnlyIs(ss[1..], now);
      forall k | 0 <= k < |e| ensures ss[0].lastAccessed <= e[k].lastAccessed {
        if k > 0 { assert e[k] in ExpiredOnly(ss[1..], now) && e[k] in ss; }
      }
      assert OldestIndex(e) == 0;
    } else {
      OldestSurvivesFilter(ss[1..], now);
      assert ss[1..][OldestIndex(ss[1..])] == ss[i];
      var rest := ExpiredOnly(ss[1..], now);
      if Expired(ss[0], now) {
        assert e == [ss[0]] + rest && e[1..] == rest;
        assert rest[OldestIndex(rest)].lastAccessed < ss[0].lastAccessed;
      } else {
        assert e == rest;
      }
    }
  }

  /** The two eviction branches are one: the victim is the least recently accessed session of the
      whole table, the first of them in case of a tie, whatever the clock says, if it is read once. */
  lemma VictimIsLeastRecent(ss: seq<Session>, now: real)
    requires ss != []
    ensures Victim(ss, now) == ss[OldestIndex(ss)]
  {
    ExpiredOnlyIs(ss, now);
    var e := ExpiredOnly(ss, now);
    if e != [] {
      assert e[0] in ss && Expired(e[0], now);
      OldestSurvivesFilter(ss, now);
    }
  }

  /** The expired sessions when the clock is read anew for each of them. */
  function ExpiredBy(ss: seq<Session>, readings: seq<real>): seq<Session>
    requires |readings| == |ss|
  {
    if ss == [] then []
    else (if Expired(ss[0], readings[0]) then [ss[0]] else []) + ExpiredBy(ss[1..], readings[1..])
  }

  function VictimBy(ss: seq<Session>, readings: seq<real>): Session
    requires |readings| == |ss| && ss != []
  {
    var expired := ExpiredBy(ss, readings);
    if expired != [] then expired[OldestIndex(expired)] else ss[OldestIndex(ss)]
  }

  /** The readings lie between now and now + delay. */
  predicate ReadWithin(readings: seq<real>, now: real, delay: real) {
    forall k :: 0 <= k < |readings| ==> now <= readings[k] <= now + delay
  }

  lemma {:induction false} ExpiredByHolds(ss: seq<Session>, readings: seq<real>, now: real, delay: real)
    requires |readings| == |ss| && ReadWithin(readings, now, delay)
    ensures forall s :: s in ss && Expired(s, now) ==> s in ExpiredBy(ss, readings)
    ensures forall s <- ExpiredBy(ss, readings) :: Expired(s, now + delay)
  {
    if ss != [] { ExpiredByHolds(ss[1..], readings[1..], now, delay); }
  }

  /** With one reading for each session the victim is the least recently accessed up to the time the
      readings take. */
  lemma VictimIsLeastRecentWithin(ss: seq<Session>, readings: seq<real>, now: real, delay: real)
    requires |readings| == |ss| && ss != [] && ReadWithin(readings, now, delay)
    ensures forall s <- ss :: VictimBy(ss, readings).lastAccessed <= s.lastAccessed + delay
  {
    ExpiredByHolds(ss, readings, now, delay);
    assert now <= readings[0] <= now + delay;
    var e := ExpiredBy(ss, readings);
    if e != [] {
      var v := e[OldestIndex(e)];
      assert v in e;
      forall s | s in ss ensures v.lastAccessed <= s.lastAccessed + delay {
        if Expired(s, now) {
          var k :| 0 <= k < |e| && e[k] == s;
        }
      }
    }
  }

  /** The delay is no mere slack: two sessions at the edge of expiry, read one after the other. */
  lemma LaterReadingEvictsYounger(older: Session, younger: Session, now: real, later: real)
    requires now == older.lastAccessed + SESSION_TTL_SECONDS && older.lastAccessed < younger.lastAccessed
    requires later > younger.lastAccessed + SESSION_TTL_SECONDS
    ensures VictimBy([older, younger], [now, later]) == younger
  {
    assert [older, younger][1..] == [younger] && [now, later][1..] == [later];
    assert ExpiredBy([younger], [later]) == [younger] + ExpiredBy([], []);
    assert ExpiredBy([older, younger], [now, later]) == [younger];
  }

  lemma EvictedMakesRoom(t: Table, now: real, closes: bool)
    requires Valid(t) && t.sessions != []
    ensures Valid(Evicted(t, now, closes)) && |Evicted(t, now, closes).sessions| == |t.sessions| - 1
  {
    VictimIsLeastRecent(t.sessions, now);
    ClosedKeeps(t, Victim(t.sessions, now).id, closes);
  }

  lemma ServeKeeps(t: Table, r: Request, now: real)
    requires Valid(t)
    ensures Valid(Serve(t, r, now))
  {
    match r
    case GetOrCreateIt(id, closes, outcome) => GetOrCreateKeeps(t, id, now, closes, outcome);
    case GetIt(id) =>
    case CloseIt(id, closes) => ClosedKeeps(t, id, closes);
    case Cleanup(closes) => CloseAllKeeps(t, Ids(ExpiredOnly(t.sessions, now)), closes);
  }

  /** The "maximum sessions reached" error cannot happen. */
  lemma GetOrCreateKeeps(t: Table, id: string, now: real, closes: bool, outcome: OpenOutcome)
    requires Valid(t)
    ensures Valid(GetOrCreate(t, id, now, closes, outcome).0)
    ensures GetOrCreate(t, id, now, closes, outcome).1 != LimitReached
  {
    if IndexOf(t.sessions, id) == |t.sessions| && |t.sessions| >= MAX_SESSIONS {
      EvictedMakesRoom(t, now, closes);
      VictimIsLeastRecent(t.sessions, now);
      ClosedKeeps(t, Victim(t.sessions, now).id, closes);
    }
  }

  lemma {:induction false} ServeAllKeeps(t: Table, rs: seq<(Request, real)>)
    requires Valid(t)
    ensures Valid(ServeAll(t, rs))
    decreases rs
  {
    if rs != [] {
      ServeKeeps(t, rs[0].0, rs[0].1);
      ServeAllKeeps(Serve(t, rs[0].0, rs[0].1), rs[1..]);
    }
  }

  /** Over any run of requests, with any clock and any browser failures: the table stays within
      its capacity, the limit error is unreachable, and every context ever opened is in the
      table, closed, or was lost to a browser error. */
  lemma EveryRunIsBounded(rs: seq<(Request, real)>, id: string, now: real, closes: bool, outcome: OpenOutcome)
    ensures var t := ServeAll(EMPTY_TABLE, rs);
            && |t.sessions| <= MAX_SESSIONS
            && t.created == |t.sessions| + t.closed + t.leaked
            && GetOrCreate(t, id, now, closes, outcome).1 != LimitReached
  {
    ServeAllKeeps(EMPTY_TABLE, rs);
    GetOrCreateKeeps(ServeAll(EMPTY_TABLE, rs), id, now, closes, outcome);
  }

  predicate Faultless(r: Request) {
    match r
    case GetOrCreateIt(_, closes, outcome) => closes && outcome != NoPage
    case GetIt(_) => true
    case CloseIt(_, closes) => closes
    case Cleanup(_) => false
  }

  /** A cleanup all of whose closes succeed counts as faultless too. */
  ghost predicate FaultlessAt(t: Table, r: Request, now: real) {
    if r.Cleanup? then forall s <- t.sessions :: Expired(s, now) ==> s.id in r.closed else Faultless(r)
  }

  ghost predicate FaultlessRun(t: Table, rs: seq<(Request, real)>)
    decreases rs
  {
    rs == [] || (FaultlessAt(t, rs[0].0, rs[0].1) && FaultlessRun(Serve(t, rs[0].0, rs[0].1), rs[1..]))
  }

  lemma {:induction false} CloseAllLeaks(t: Table, ids: seq<string>, closes: set<string>)
    requires forall id <- ids :: id in closes
    ensures CloseAll(t, ids, closes).leaked == t.leaked
    decreases ids
  {
    if ids != [] {
      assert ids[0] in ids && forall id <- ids[1..] :: id in ids;
      CloseAllLeaks(Closed(t, ids[0], true), ids[1..], closes);
    }
  }

  /** When every close succeeds and every new context gets its page, nothing leaks: contexts
      opened are exactly those live plus those closed. */
  lemma {:induction false} FaultlessRunsLeakNothing(t: Table, rs: seq<(Request, real)>)
    requires Valid(t) && FaultlessRun(t, rs)
    ensures ServeAll(t, rs).leaked == t.leaked
    ensures t.leaked == 0 ==> ServeAll(t, rs).created == |ServeAll(t, rs).sessions| + ServeAll(t, rs).closed
    decreases rs
  {
    ServeAllKeeps(t, rs);
    if rs != [] {
      var r, now := rs[0].0, rs[0].1;
      ServeKeeps(t, r, now);
      if r.Cleanup? {
        ExpiredOnlyIs(t.sessions, now);
        var ids := Ids(ExpiredOnly(t.sessions, now));
        forall id | id in ids ensures id in r.closed {
          var k :| 0 <= k < |ids| && ids[k] == id;
          assert ExpiredOnly(t.sessions, now)[k] in t.sessions;
        }
        CloseAllLeaks(t, ids, r.closed);
      }
      FaultlessRunsLeakNothing(Serve(t, r, now), rs[1..]);
    }
  }

  // ---------------------------------------------------------------- the plain LRU cache

  /** A cache as a list of sessions, least recently used first. */
  function Removed(l: seq<Session>, id: string): seq<Session> {
    var i := IndexOf(l, id);
    if i < |l| then l[..i] + l[i + 1..] else l
  }

  /** Moves a session to the recent end. */
  function Used(l: seq<Session>, id: string, now: real): seq<Session> {
    var i := IndexOf(l, id);
    if i < |l| then Removed(l, id) + [l[i].(lastAccessed := now)] else l
  }

  /** Drops sessions from the old end while they are expired. */
  function Refreshed(l: seq<Session>, now: real): seq<Session> {
    if l != [] && Expired(l[0], now) then Refreshed(l[1..], now) else l
  }

  function LruServe(l: seq<Session>, r: Request, now: real, nextContext: nat): seq<Session> {
    match r
    case GetIt(id) => Used(l, id, now)
    case CloseIt(id, _) => Removed(l, id)
    case Cleanup(_) => Refreshed(l, now)
    case GetOrCreateIt(id, _, outcome) =>
      if IndexOf(l, id) < |l| then Used(l, id, now)
      else
        var l := if |l| >= MAX_SESSIONS then l[1..] else l;
        if outcome == Opens then l + [Session(id, nextContext, now)] else l
  }

  /** The list is in the order of last access, and every access was before `now`. */
  ghost predicate ByAge(l: seq<Session>, now: real) {
    && (forall i, j :: 0 <= i < j < |l| ==> l[i].lastAccessed < l[j].lastAccessed)
    && (forall i :: 0 <= i < |l| ==> l[i].lastAccessed < now)
  }

  /** The table and the cache hold the same sessions. */
  ghost predicate Represents(ss: seq<Session>, l: seq<Session>, now: real) {
    UniqueIds(ss) && UniqueIds(l) && ByAge(l, now) && multiset(ss) == multiset(l)
  }

  lemma SameSlot(ss: seq<Session>, l: seq<Session>, id: string)
    requires UniqueIds(ss) && UniqueIds(l) && multiset(ss) == multiset(l)
    ensures IndexOf(ss, id) < |ss| <==> IndexOf(l, id) < |l|
    ensures IndexOf(ss, id) < |ss| ==> ss[IndexOf(ss, id)] == l[IndexOf(l, id)]
    ensures |ss| == |l|
  {
    assert |multiset(ss)| == |ss| && |multiset(l)| == |l|;
    var i, j := IndexOf(ss, id), IndexOf(l, id);
    if i < |ss| {
      assert ss[i] in multiset(l);
      var k :| 0 <= k < |l| && l[k] == ss[i];
    }
    if j < |l| {
      assert l[j] in multiset(ss);
      var k :| 0 <= k < |ss| && ss[k] == l[j];
    }
  }

  lemma RemovedIs(l: seq<Session>, id: string)
    requires UniqueIds(l) && IndexOf(l, id) < |l|
    ensures UniqueIds(Removed(l, id))
    ensures multiset(Removed(l, id)) == multiset(l) - multiset{l[IndexOf(l, id)]}
    ensures forall k :: 0 <= k < |Removed(l, id)| ==> Removed(l, id)[k].id != id
  {
    var i := IndexOf(l, id);
    var r := Removed(l, id);
    assert r == l[..i] + l[i + 1..];
    forall k | 0 <= k < |r| ensures r[k] == l[if k < i then k else k + 1] {}
    OneOut(l, i);
  }

  lemma OneOut(l: seq<Session>, i: nat)
    requires i < |l|
    ensures multiset(l[..i] + l[i + 1..]) == multiset(l) - multiset{l[i]}
  {
    assert l == l[..i] + [l[i]] + l[i + 1..];
  }

  lemma RemovedByAge(l: seq<Session>, id: string, now: real)
    requires ByAge(l, now)
    ensures ByAge(Removed(l, id), now)
  {
  }

  lemma RemovedRepresents(ss: seq<Session>, l: seq<Session>, now: real, id: string)
    requires Represents(ss, l, now)
    ensures Represents(Removed(ss, id), Removed(l, id), now)
  {
    SameSlot(ss, l, id);
    if IndexOf(ss, id) < |ss| {
      RemovedIs(ss, id);
      RemovedIs(l, id);
      RemovedByAge(l, id, now);
    }
  }

  lemma AppendedByAge(l: seq<Session>, s: Session, later: real)
    requires ByAge(l, s.lastAccessed) && s.lastAccessed < later
    ensures ByAge(l + [s], later)
  {
  }

  lemma AppendedUnique(l: seq<Session>, s: Session)
    requires UniqueIds(l) && forall k :: 0 <= k < |l| ==> l[k].id != s.id
    ensures UniqueIds(l + [s])
  {
  }

  lemma UsedRepresents(ss: seq<Session>, l: seq<Session>, now: real, later: real, id: string)
    requires Represents(ss, l, now) && now < later && IndexOf(ss, id) < |ss|
    ensures Represents(ss[IndexOf(ss, id) := ss[IndexOf(ss, id)].(lastAccessed := now)], Used(l, id, now), later)
  {
    SameSlot(ss, l, id);
    var touched := ss[IndexOf(ss, id)].(lastAccessed := now);
    RemovedIs(l, id);
    RemovedByAge(l, id, now);
    AppendedByAge(Removed(l, id), touched, later);
    AppendedUnique(Removed(l, id), touched);
  }

  lemma OldestIsHead(ss: seq<Session>, l: seq<Session>, now: real)
    requires Represents(ss, l, now) && ss != []
    ensures l != [] && Victim(ss, now) == l[0] && Removed(l, l[0].id) == l[1..]
  {
    SameSlot(ss, l, "");
    VictimIsLeastRecent(ss, now);
    var v := ss[OldestIndex(ss)];
    assert v in multiset(l) && l[0] in multiset(ss);
    var k :| 0 <= k < |l| && l[k] == v;
    var n :| 0 <= n < |ss| && ss[n] == l[0];
    assert v.lastAccessed <= ss[n].lastAccessed;
    assert l[..0] + l[1..] == l[1..];
  }

  lemma {:induction false} CountIsMembership(l: seq<Session>, s: Session)
    requires UniqueIds(l)
    ensures multiset(l)[s] == if s in l then 1 else 0
  {
    if l != [] {
      CountIsMembership(l[1..], s);
      assert l == [l[0]] + l[1..];
      forall k | 0 <= k < |l[1..]| ensures l[1..][k] != l[0] {
        assert l[1..][k] == l[k + 1];
      }
    }
  }

  lemma {:induction false} RefreshedIs(l: seq<Session>, now: real)
    requires UniqueIds(l) && ByAge(l, now)
    ensures var r := Refreshed(l, now);
            UniqueIds(r) && ByAge(r, now) && forall s :: s in r <==> s in l && !Expired(s, now)
  {
    if l != [] && Expired(l[0], now) {
      RefreshedIs(l[1..], now);
      assert l == [l[0]] + l[1..];
    } else {
      forall s | s in l ensures !Expired(s, now) {
        var k :| 0 <= k < |l| && l[k] == s;
        if k > 0 { assert l[0].lastAccessed < l[k].lastAccessed; }
      }
    }
  }

  lemma CleanupRepresents(t: Table, l: seq<Session>, now: real, closes: set<string>)
    requires Valid(t) && Represents(t.sessions, l, now)
    ensures Represents(CleanedUp(t, now, closes).sessions, Refreshed(l, now), now)
  {
    var ids := Ids(ExpiredOnly(t.sessions, now));
    var after, r := CloseAll(t, ids, closes).sessions, Refreshed(l, now);
    CloseAllKeeps(t, ids, closes);
    RefreshedIs(l, now);
    forall s ensures multiset(after)[s] == multiset(r)[s] {
      CountIsMembership(after, s);
      CountIsMembership(r, s);
      assert s in t.sessions <==> s in l by { assert s in multiset(t.sessions) <==> s in multiset(l); }
      if s in t.sessions { ExpiredIsListed(t.sessions, s, now); }
    }
    assert multiset(after) == multiset(r);
  }

  lemma ExpiredIsListed(ss: seq<Session>, s: Session, now: real)
    requires UniqueIds(ss) && s in ss
    ensures s.id in Ids(ExpiredOnly(ss, now)) <==> Expired(s, now)
  {
    var e := ExpiredOnly(ss, now);
    ExpiredOnlyIs(ss, now);
    if Expired(s, now) {
      var k :| 0 <= k < |e| && e[k] == s;
      assert Ids(e)[k] == s.id;
    }
    if s.id in Ids(e) {
      var k :| 0 <= k < |e| && Ids(e)[k] == s.id;
      assert e[k] in e && e[k] in ss && e[k].id == s.id;
      var i :| 0 <= i < |ss| && ss[i] == e[k];
      var j :| 0 <= j < |ss| && ss[j] == s;
    }
  }

  lemma LaterRepresents(ss: seq<Session>, l: seq<Session>, now: real, later: real)
    requires Represents(ss, l, now) && now <= later
    ensures Represents(ss, l, later)
  {
  }

  lemma NewRepresents(ss: seq<Session>, l: seq<Session>, s: Session, later: real)
    requires Represents(ss, l, s.lastAccessed) && s.lastAccessed < later
    requires IndexOf(ss, s.id) == |ss|
    ensures Represents(ss + [s], l + [s], later)
  {
    SameSlot(ss, l, s.id);
    AppendedUnique(ss, s);
    AppendedUnique(l, s);
    AppendedByAge(l, s, later);
  }

  lemma EvictRepresents(t: Table, l: seq<Session>, now: real, closes: bool)
    requires Valid(t) && Represents(t.sessions, l, now) && t.sessions != []
    ensures l != [] && Represents(Evicted(t, now, closes).sessions, l[1..], now)
    ensures Evicted(t, now, closes).created == t.created
    ensures forall id :: IndexOf(t.sessions, id) == |t.sessions| ==>
              IndexOf(Evicted(t, now, closes).sessions, id) == |Evicted(t, now, closes).sessions|
  {
    OldestIsHead(t.sessions, l, now);
    RemovedRepresents(t.sessions, l, now, l[0].id);
    var after := Evicted(t, now, closes).sessions;
    forall id | IndexOf(t.sessions, id) == |t.sessions| ensures IndexOf(after, id) == |after| {
      ClosedKeeps(t, l[0].id, closes);
      forall k | 0 <= k < |after| ensures after[k].id != id {
        assert after[k] in after && after[k] in t.sessions;
      }
    }
  }

  lemma ServeRefines(t: Table, l: seq<Session>, r: Request, now: real, later: real)
    requires Valid(t) && Represents(t.sessions, l, now) && now < later
    ensures Represents(Serve(t, r, now).sessions, LruServe(l, r, now, t.created), later)
  {
    match r
    case GetIt(id) =>
      GetRefines(t, l, id, now, later);
    case CloseIt(id, closes) =>
      RemovedRepresents(t.sessions, l, now, id);
      LaterRepresents(Removed(t.sessions, id), Removed(l, id), now, later);
      CloseRemoves(t, id, closes);
    case Cleanup(closes) =>
      CleanupRepresents(t, l, now, closes);
      LaterRepresents(CleanedUp(t, now, closes).sessions, Refreshed(l, now), now, later);
    case GetOrCreateIt(id, closes, outcome) =>
      GetOrCreateRefines(t, l, id, now, later, closes, outcome);
  }

  lemma GetRefines(t: Table, l: seq<Session>, id: string, now: real, later: real)
    requires Valid(t) && Represents(t.sessions, l, now) && now < later
    ensures Represents(Serve(t, GetIt(id), now).sessions, LruServe(l, GetIt(id), now, t.created), later)
  {
    SameSlot(t.sessions, l, id);
    if IndexOf(t.sessions, id) < |t.sessions| {
      UsedRepresents(t.sessions, l, now, later, id);
    } else {
      LaterRepresents(t.sessions, l, now, later);
    }
  }

  lemma CloseRemoves(t: Table, id: string, closes: bool)
    ensures Serve(t, CloseIt(id, closes), 0.0).sessions == Removed(t.sessions, id)
  {
  }

  lemma GetOrCreateRefines(t: Table, l: seq<Session>, id: string, now: real, later: real,
                           closes: bool, outcome: OpenOutcome)
    requires Valid(t) && Represents(t.sessions, l, now) && now < later
    ensures Represents(GetOrCreate(t, id, now, closes, outcome).0.sessions,
                       LruServe(l, GetOrCreateIt(id, closes, outcome), now, t.created), later)
  {
    SameSlot(t.sessions, l, id);
    if IndexOf(t.sessions, id) < |t.sessions| {
      UsedRepresents(t.sessions, l, now, later, id);
    } else {
      var full := |t.sessions| >= MAX_SESSIONS;
      if full {
        EvictRepresents(t, l, now, closes);
        EvictedMakesRoom(t, now, closes);
      }
      var t', l' := if full then Evicted(t, now, closes) else t, if full then l[1..] else l;
      OpenRepresents(t'.sessions, l', Session(id, t.created, now), later, outcome);
      OpenedIs(t, t', id, now, closes, outcome);
    }
  }

  lemma OpenRepresents(ss: seq<Session>, l: seq<Session>, s: Session, later: real, outcome: OpenOutcome)
    requires Represents(ss, l, s.lastAccessed) && s.lastAccessed < later && IndexOf(ss, s.id) == |ss|
    ensures Represents(if outcome == Opens then ss + [s] else ss, if outcome == Opens then l + [s] else l, later)
  {
    LaterRepresents(ss, l, s.lastAccessed, later);
    NewRepresents(ss, l, s, later);
  }

  /** The sessions after a request for a new one, once room has been made. */
  lemma OpenedIs(t: Table, room: Table, id: string, now: real, closes: bool, outcome: OpenOutcome)
    requires IndexOf(t.sessions, id) == |t.sessions|
    requires room == (if |t.sessions| >= MAX_SESSIONS then Evicted(t, now, closes) else t)
    requires |room.sessions| < MAX_SESSIONS && room.created == t.created
    ensures GetOrCreate(t, id, now, closes, outcome).0.sessions
         == if outcome == Opens then room.sessions + [Session(id, t.created, now)] else room.sessions
  {
  }

  function LruServeAll(t: Table, l: seq<Session>, rs: seq<(Request, real)>): seq<Session>
    decreases rs
  {
    if rs == [] then l
    else LruServeAll(Serve(t, rs[0].0, rs[0].1), LruServe(l, rs[0].0, rs[0].1, t.created), rs[1..])
  }

  ghost predicate Ticking(rs: seq<(Request, real)>) {
    forall i, j :: 0 <= i < j < |rs| ==> rs[i].1 < rs[j].1
  }

  /** With a clock that moves between requests, the table is a plain LRU cache of MAX_SESSIONS
      sessions with idle expiry: over any run it holds exactly what the cache holds. */
  lemma {:induction false} TableRefinesLru(t: Table, l: seq<Session>, rs: seq<(Request, real)>, end: real)
    requires Valid(t) && Ticking(rs) && (forall i :: 0 <= i < |rs| ==> rs[i].1 < end)
    requires Represents(t.sessions, l, if rs == [] then end else rs[0].1)
    ensures Represents(ServeAll(t, rs).sessions, LruServeAll(t, l, rs), end)
    decreases rs
  {
    if rs != [] {
      var r, now := rs[0].0, rs[0].1;
      var later := if |rs| == 1 then end else rs[1].1;
      ServeKeeps(t, r, now);
      ServeRefines(t, l, r, now, later);
      TableRefinesLru(Serve(t, r, now), LruServe(l, r, now, t.created), rs[1..], end);
    }
  }
}
