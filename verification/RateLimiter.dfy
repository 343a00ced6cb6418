/** python/playwright-service/app.py, FixedWindowRateLimiter: a fixed window per key, and what it
    means for windows that slide. */
module RateLimiter {

  // ---------------------------------------------------------------- specification

  /** The counter of one key: admissions since `start`. */
  datatype Window = Window(count: int, start: real)

  type Counters = map<string, Window>

  /** The window a call at `now` falls into. */
  function Current(counters: Counters, key: string, now: real, width: real): Window {
    var w := if key in counters then counters[key] else Window(0, now);
    if now - w.start >= width then Window(0, now) else w
  }

  function Allow(limit: int, width: real, counters: Counters, key: string, now: real): (Counters, bool) {
    if limit <= 0 then (counters, true)
    else
      var w := Current(counters, key, now, width);
      if w.count >= limit then (counters[key := w], false)
      else (counters[key := Window(w.count + 1, w.start)], true)
  }

  // ---------------------------------------------------------------- the limiter

  class FixedWindowRateLimiter {
    const limit: int
    const width: real
    var counters: Counters

    constructor (limit: int, width: real)
      ensures this.limit == limit && this.width == width && counters == map[]
    {
      this.limit, this.width, counters := limit, width, map[];
    }

    method Admit(key: string, now: real) returns (ok: bool)
      modifies this
      ensures (counters, ok) == Allow(limit, width, old(counters), key, now)
    {
      if limit <= 0 {
        return true;
      }
      var count, start := 0, now;
      if key in counters {
        count, start := counters[key].count, counters[key].start;
      }
      if now - start >= width {
        count, start := 0, now;
      }
      if count >= limit {
        counters := counters[key := Window(count, start)];
        return false;
      }
      counters := counters[key := Window(count + 1, start)];
      return true;
    }
  }

  // ---------------------------------------------------------------- histories

  datatype Call = Call(key: string, now: real)

  datatype Record = Record(key: string, now: real, ok: bool)

  function After(limit: int, width: real, calls: seq<Call>): Counters {
    if calls == [] then map[]
    else
      var c := calls[|calls| - 1];
      Allow(limit, width, After(limit, width, calls[..|calls| - 1]), c.key, c.now).0
  }

  /** The calls of a run with their outcomes. */
  function History(limit: int, width: real, calls: seq<Call>): (h: seq<Record>)
    ensures |h| == |calls|
  {
    if calls == [] then []
    else
      var before, c := calls[..|calls| - 1], calls[|calls| - 1];
      History(limit, width, before)
        + [Record(c.key, c.now, Allow(limit, width, After(limit, width, before), c.key, c.now).1)]
  }

  /** The time intervals of the statements below. */
  datatype Span =
    | From(lo: real)
    | Later(lo: real)
    | HalfOpen(lo: real, hi: real)
    | Open(lo: real, hi: real)
  {
    predicate Has(t: real) {
      match this
      case From(lo) => lo <= t
      case Later(lo) => lo < t
      case HalfOpen(lo, hi) => lo <= t < hi
      case Open(lo, hi) => lo < t < hi
    }
  }

  predicate Counts(r: Record, key: string, s: Span) { r.ok && r.key == key && s.Has(r.now) }

  /** The admissions of a key inside a span. */
  function Admitted(h: seq<Record>, key: string, s: Span): nat {
    if h == [] then 0
    else Admitted(h[..|h| - 1], key, s) + if Counts(h[|h| - 1], key, s) then 1 else 0
  }

  ghost predicate Monotone(calls: seq<Call>) {
    forall i, j :: 0 <= i < j < |calls| ==> calls[i].now <= calls[j].now
  }

  /** No call is later than `now`. */
  ghost predicate Until(h: seq<Record>, now: real) { forall i :: 0 <= i < |h| ==> h[i].now <= now }

  // ---------------------------------------------------------------- counting

  lemma {:induction false} AdmittedWithin(h: seq<Record>, key: string, s: Span, t: Span)
    requires forall i :: 0 <= i < |h| && s.Has(h[i].now) ==> t.Has(h[i].now)
    ensures Admitted(h, key, s) <= Admitted(h, key, t)
  {
    if h != [] { AdmittedWithin(h[..|h| - 1], key, s, t); }
  }

  lemma {:induction false} AdmittedSplit(h: seq<Record>, key: string, s: Span, a: Span, b: Span)
    requires forall i :: 0 <= i < |h| ==>
      (s.Has(h[i].now) <==> a.Has(h[i].now) || b.Has(h[i].now)) && !(a.Has(h[i].now) && b.Has(h[i].now))
    ensures Admitted(h, key, s) == Admitted(h, key, a) + Admitted(h, key, b)
  {
    if h != [] { AdmittedSplit(h[..|h| - 1], key, s, a, b); }
  }

  lemma {:induction false} AdmittedNone(h: seq<Record>, key: string, s: Span)
    requires forall i :: 0 <= i < |h| ==> !Counts(h[i], key, s)
    ensures Admitted(h, key, s) == 0
  {
    if h != [] { AdmittedNone(h[..|h| - 1], key, s); }
  }

  lemma AdmittedStep(h: seq<Record>, r: Record, key: string, s: Span)
    ensures Admitted(h + [r], key, s) == Admitted(h, key, s) + if Counts(r, key, s) then 1 else 0
  {
    assert (h + [r])[..|h|] == h;
  }

  // ---------------------------------------------------------------- the invariant of one key

  /** The counter counts the admissions since its start, the first of which is at the start;
      the window before it left at most limit - 1 behind. */
  ghost predicate Tracks(limit: int, width: real, h: seq<Record>, counters: Counters, key: string) {
    if key !in counters then forall i :: 0 <= i < |h| ==> h[i].key != key || !h[i].ok
    else
      var w := counters[key];
      && 1 <= w.count <= limit
      && Admitted(h, key, From(w.start)) == w.count
      && Admitted(h, key, Later(w.start)) <= w.count - 1
      && Admitted(h, key, From(w.start + width)) == 0
      && Admitted(h, key, Open(w.start - width, w.start)) <= limit - 1
  }

  /** When a window expires, what it leaves behind is fewer than its first admission. */
  lemma ExpiredLeavesFew(limit: int, width: real, h: seq<Record>, counters: Counters, key: string, now: real)
    requires 0 < limit && 0.0 < width && Tracks(limit, width, h, counters, key) && Until(h, now)
    requires key in counters ==> now - counters[key].start >= width
    ensures Admitted(h, key, Open(now - width, now)) <= limit - 1
    ensures Admitted(h, key, From(now)) == 0
  {
    if key in counters {
      AdmittedWithin(h, key, Open(now - width, now), Later(counters[key].start));
      AdmittedWithin(h, key, From(now), From(counters[key].start + width));
    } else {
      AdmittedNone(h, key, Open(now - width, now));
      AdmittedNone(h, key, From(now));
    }
  }

  lemma StartedBefore(limit: int, width: real, h: seq<Record>, counters: Counters, key: string, now: real)
    requires Tracks(limit, width, h, counters, key) && Until(h, now) && key in counters
    ensures counters[key].start <= now
  {
    if counters[key].start > now { AdmittedNone(h, key, From(counters[key].start)); }
  }

  lemma TracksStep(limit: int, width: real, h: seq<Record>, counters: Counters, key: string, c: Call)
    requires 0 < limit && 0.0 < width && Tracks(limit, width, h, counters, key) && Until(h, c.now)
    ensures var a := Allow(limit, width, counters, c.key, c.now);
            Tracks(limit, width, h + [Record(c.key, c.now, a.1)], a.0, key)
  {
    var a := Allow(limit, width, counters, c.key, c.now);
    var r := Record(c.key, c.now, a.1);
    if key in counters { StartedBefore(limit, width, h, counters, key, c.now); }
    if c.key == key {
      var w := Current(counters, key, c.now, width);
      AdmittedStep(h, r, key, From(w.start));
      AdmittedStep(h, r, key, Later(w.start));
      AdmittedStep(h, r, key, Open(w.start - width, w.start));
      AdmittedStep(h, r, key, From(w.start + width));
      if w.count == 0 {
        ExpiredLeavesFew(limit, width, h, counters, key, c.now);
        AdmittedWithin(h, key, Later(c.now), From(c.now));
        AdmittedWithin(h, key, From(c.now + width), From(c.now));
      }
    } else if key in counters {
      var w := counters[key];
      AdmittedStep(h, r, key, From(w.start));
      AdmittedStep(h, r, key, Later(w.start));
      AdmittedStep(h, r, key, Open(w.start - width, w.start));
      AdmittedStep(h, r, key, From(w.start + width));
    }
  }

  lemma {:induction false} HistoryTimes(limit: int, width: real, calls: seq<Call>)
    ensures forall i :: 0 <= i < |calls| ==>
              History(limit, width, calls)[i].key == calls[i].key && History(limit, width, calls)[i].now == calls[i].now
  {
    if calls != [] { HistoryTimes(limit, width, calls[..|calls| - 1]); }
  }

  lemma {:induction false} RunTracks(limit: int, width: real, calls: seq<Call>, key: string)
    requires 0 < limit && 0.0 < width && Monotone(calls)
    ensures Tracks(limit, width, History(limit, width, calls), After(limit, width, calls), key)
  {
    if calls != [] {
      var before, c := calls[..|calls| - 1], calls[|calls| - 1];
      RunTracks(limit, width, before, key);
      HistoryTimes(limit, width, before);
      TracksStep(limit, width, History(limit, width, before), After(limit, width, before), key, c);
    }
  }

  // ---------------------------------------------------------------- sliding windows

  /** No half-open interval of the window's width holds more than 2 * limit - 1 admissions of a
      key: the window before the last one cannot contribute its first admission. */
  lemma {:induction false} SlidingBound(limit: int, width: real, calls: seq<Call>, key: string, t: real)
    requires 0 < limit && 0.0 < width && Monotone(calls)
    ensures Admitted(History(limit, width, calls), key, HalfOpen(t, t + width)) <= 2 * limit - 1
  {
    if calls != [] {
      var before, c := calls[..|calls| - 1], calls[|calls| - 1];
      var h, counters := History(limit, width, before), After(limit, width, before);
      SlidingBound(limit, width, before, key, t);
      RunTracks(limit, width, before, key);
      HistoryTimes(limit, width, before);
      SlidingStep(limit, width, h, counters, key, c, t);
    }
  }

  lemma SlidingStep(limit: int, width: real, h: seq<Record>, counters: Counters, key: string, c: Call, t: real)
    requires 0 < limit && 0.0 < width && Tracks(limit, width, h, counters, key) && Until(h, c.now)
    requires Admitted(h, key, HalfOpen(t, t + width)) <= 2 * limit - 1
    ensures var r := Record(c.key, c.now, Allow(limit, width, counters, c.key, c.now).1);
            Admitted(h + [r], key, HalfOpen(t, t + width)) <= 2 * limit - 1
  {
    var r := Record(c.key, c.now, Allow(limit, width, counters, c.key, c.now).1);
    AdmittedStep(h, r, key, HalfOpen(t, t + width));
    if Counts(r, key, HalfOpen(t, t + width)) { LastAdmissionFits(limit, width, h, counters, key, c, t); }
  }

  /** An admission at c.now finds at most 2 * limit - 2 others in an interval that contains it. */
  lemma LastAdmissionFits(limit: int, width: real, h: seq<Record>, counters: Counters, key: string, c: Call, t: real)
    requires 0 < limit && 0.0 < width && Tracks(limit, width, h, counters, key) && Until(h, c.now)
    requires c.key == key && Allow(limit, width, counters, key, c.now).1 && t <= c.now < t + width
    ensures Admitted(h, key, HalfOpen(t, t + width)) <= 2 * limit - 2
  {
    var w := Current(counters, key, c.now, width);
    if w.count == 0 {
      ExpiredLeavesFew(limit, width, h, counters, key, c.now);
      AdmittedSplit(h, key, Later(c.now - width), Open(c.now - width, c.now), From(c.now));
      AdmittedWithin(h, key, HalfOpen(t, t + width), Later(c.now - width));
    } else {
      StartedBefore(limit, width, h, counters, key, c.now);
      AdmittedSplit(h, key, Later(w.start - width), Open(w.start - width, w.start), From(w.start));
      AdmittedWithin(h, key, HalfOpen(t, t + width), Later(w.start - width));
    }
  }

  /** A refusal at `now` is justified: the key has at least `limit` admissions in the last
      `width` seconds, exactly `limit` of them since its window started and fewer than `limit`
      before. They are exactly `limit` just when the window before left none in reach. */
  lemma RefusalIsJustified(limit: int, width: real, calls: seq<Call>, c: Call)
    requires 0 < limit && 0.0 < width && Monotone(calls + [c])
    requires !Allow(limit, width, After(limit, width, calls), c.key, c.now).1
    ensures var h, counters := History(limit, width, calls), After(limit, width, calls);
            && c.key in counters
            && c.now - width < counters[c.key].start <= c.now
            && Admitted(h, c.key, From(counters[c.key].start)) == limit
            && limit <= Admitted(h, c.key, Later(c.now - width)) <= 2 * limit - 1
            && (Admitted(h, c.key, Later(c.now - width)) == limit
                <==> Admitted(h, c.key, Open(c.now - width, counters[c.key].start)) == 0)
  {
    var h, counters := History(limit, width, calls), After(limit, width, calls);
    assert Monotone(calls) by {
      forall i, j | 0 <= i < j < |calls| ensures calls[i].now <= calls[j].now {
        assert (calls + [c])[i].now <= (calls + [c])[j].now;
      }
    }
    RunTracks(limit, width, calls, c.key);
    HistoryTimes(limit, width, calls);
    forall i | 0 <= i < |h| ensures h[i].now <= c.now {
      assert (calls + [c])[i].now <= (calls + [c])[|calls|].now;
    }
    RefusalCounts(limit, width, h, counters, c);
  }

  lemma RefusalCounts(limit: int, width: real, h: seq<Record>, counters: Counters, c: Call)
    requires 0 < limit && 0.0 < width && Tracks(limit, width, h, counters, c.key) && Until(h, c.now)
    requires !Allow(limit, width, counters, c.key, c.now).1
    ensures && c.key in counters
            && c.now - width < counters[c.key].start <= c.now
            && Admitted(h, c.key, From(counters[c.key].start)) == limit
            && limit <= Admitted(h, c.key, Later(c.now - width)) <= 2 * limit - 1
            && (Admitted(h, c.key, Later(c.now - width)) == limit
                <==> Admitted(h, c.key, Open(c.now - width, counters[c.key].start)) == 0)
  {
    var w := counters[c.key];
    StartedBefore(limit, width, h, counters, c.key, c.now);
    AdmittedSplit(h, c.key, Later(c.now - width), Open(c.now - width, w.start), From(w.start));
    AdmittedWithin(h, c.key, Open(c.now - width, w.start), Open(w.start - width, w.start));
  }

  function Times(n: nat, c: Call): seq<Call> { if n == 0 then [] else Times(n - 1, c) + [c] }

  /** One call that the window still has room for. */
  lemma OneAdmission(limit: int, width: real, before: seq<Call>, c: Call, w: Window)
    requires w == Current(After(limit, width, before), c.key, c.now, width) && 0 <= w.count < limit
    ensures After(limit, width, before + [c]) == After(limit, width, before)[c.key := Window(w.count + 1, w.start)]
    ensures forall s :: Admitted(History(limit, width, before + [c]), c.key, s)
                     == Admitted(History(limit, width, before), c.key, s) + if s.Has(c.now) then 1 else 0
  {
    OneMoreCall(limit, width, before, c);
    forall s ensures Admitted(History(limit, width, before + [c]), c.key, s)
                  == Admitted(History(limit, width, before), c.key, s) + if s.Has(c.now) then 1 else 0
    {
      AdmittedStep(History(limit, width, before), Called(limit, width, before, c), c.key, s);
    }
  }

  /** n calls in a row that the window still has room for. */
  lemma {:induction false} Burst(limit: int, width: real, before: seq<Call>, c: Call, n: nat, w: Window)
    requires 0.0 < width && w == Current(After(limit, width, before), c.key, c.now, width)
    requires 0 < n && 0 <= w.count && w.count + n <= limit
    ensures var counters := After(limit, width, before + Times(n, c));
            c.key in counters && counters[c.key] == Window(w.count + n, w.start)
    ensures forall s :: Admitted(History(limit, width, before + Times(n, c)), c.key, s)
                     == Admitted(History(limit, width, before), c.key, s) + if s.Has(c.now) then n else 0
  {
    var shorter := before + Times(n - 1, c);
    assert before + Times(n, c) == shorter + [c];
    if n == 1 {
      assert shorter == before;
    } else {
      Burst(limit, width, before, c, n - 1, w);
    }
    OneAdmission(limit, width, shorter, c, Window(w.count + n - 1, w.start));
  }

  /** One admission, limit - 1 more half a window later, and limit at the start of the next window. */
  function Tight(limit: int, width: real, key: string): seq<Call>
    requires 0 < limit
  {
    Times(1, Call(key, 0.0)) + Times(limit - 1, Call(key, width / 2.0)) + Times(limit, Call(key, width))
  }

  function Share(has: bool, n: int): int { if has then n else 0 }

  /** The first window of that run. */
  lemma TightStart(limit: int, width: real, key: string)
    requires 0 < limit && 0.0 < width
    ensures var calls := Times(1, Call(key, 0.0)) + Times(limit - 1, Call(key, width / 2.0));
            && key in After(limit, width, calls) && After(limit, width, calls)[key] == Window(limit, 0.0)
            && forall s :: Admitted(History(limit, width, calls), key, s)
                        == Share(s.Has(0.0), 1) + Share(s.Has(width / 2.0), limit - 1)
  {
    var first := Times(1, Call(key, 0.0));
    assert [] + first == first;
    Burst(limit, width, [], Call(key, 0.0), 1, Window(0, 0.0));
    if limit == 1 {
      assert first + [] == first;
    } else {
      Burst(limit, width, first, Call(key, width / 2.0), limit - 1, Window(1, 0.0));
    }
  }

  lemma TightCounts(limit: int, width: real, key: string)
    requires 0 < limit && 0.0 < width
    ensures var calls := Tight(limit, width, key);
            && key in After(limit, width, calls) && After(limit, width, calls)[key] == Window(limit, width)
            && forall s :: Admitted(History(limit, width, calls), key, s)
                        == Share(s.Has(0.0), 1) + Share(s.Has(width / 2.0), limit - 1) + Share(s.Has(width), limit)
  {
    TightStart(limit, width, key);
    Burst(limit, width, Times(1, Call(key, 0.0)) + Times(limit - 1, Call(key, width / 2.0)),
          Call(key, width), limit, Window(0, width));
  }

  /** For every limit and width the bound is attained, by a run and by what a refusal sees. */
  lemma BoundIsAttained(limit: int, width: real, key: string)
    requires 0 < limit && 0.0 < width
    ensures var h, refused := History(limit, width, Tight(limit, width, key)), Call(key, 1.25 * width);
            && Admitted(h, key, HalfOpen(width / 2.0, width / 2.0 + width)) == 2 * limit - 1
            && !Allow(limit, width, After(limit, width, Tight(limit, width, key)), key, refused.now).1
            && Admitted(h, key, Later(refused.now - width)) == 2 * limit - 1
  {
    TightCounts(limit, width, key);
  }

  /** For every limit and width some refusal sees no more than limit admissions. */
  lemma LeastIsAttained(limit: int, width: real, key: string)
    requires 0 < limit && 0.0 < width
    ensures var calls := Times(limit, Call(key, 0.0));
            && !Allow(limit, width, After(limit, width, calls), key, 0.0).1
            && Admitted(History(limit, width, calls), key, Later(0.0 - width)) == limit
  {
    Burst(limit, width, [], Call(key, 0.0), limit, Window(0, 0.0));
    assert [] + Times(limit, Call(key, 0.0)) == Times(limit, Call(key, 0.0));
  }

  /** A limit that is not positive admits every call and counts none. */
  lemma {:induction false} NoLimitAdmitsAll(limit: int, width: real, calls: seq<Call>)
    requires limit <= 0
    ensures After(limit, width, calls) == map[]
    ensures forall i :: 0 <= i < |calls| ==> History(limit, width, calls)[i] == Record(calls[i].key, calls[i].now, true)
  {
    if calls != [] { NoLimitAdmitsAll(limit, width, calls[..|calls| - 1]); }
  }

  // ---------------------------------------------------------------- independence of keys

  function OnlyKey(calls: seq<Call>, key: string): seq<Call> {
    if calls == [] then []
    else OnlyKey(calls[..|calls| - 1], key) + if calls[|calls| - 1].key == key then [calls[|calls| - 1]] else []
  }

  function OnlyKeyRecords(h: seq<Record>, key: string): seq<Record> {
    if h == [] then []
    else OnlyKeyRecords(h[..|h| - 1], key) + if h[|h| - 1].key == key then [h[|h| - 1]] else []
  }

  ghost predicate SameEntry(a: Counters, b: Counters, key: string) {
    (key in a <==> key in b) && (key in a ==> a[key] == b[key])
  }

  /** What happens to a key is what would happen if it called alone. */
  ghost predicate AsIfAlone(limit: int, width: real, calls: seq<Call>, key: string) {
    && SameEntry(After(limit, width, calls), After(limit, width, OnlyKey(calls, key)), key)
    && OnlyKeyRecords(History(limit, width, calls), key) == History(limit, width, OnlyKey(calls, key))
  }

  lemma {:induction false} KeysDoNotInterfere(limit: int, width: real, calls: seq<Call>, key: string)
    ensures AsIfAlone(limit, width, calls, key)
  {
    if calls != [] {
      var before, c := calls[..|calls| - 1], calls[|calls| - 1];
      KeysDoNotInterfere(limit, width, before, key);
      assert calls == before + [c];
      AloneStep(limit, width, before, c, key);
    }
  }

  lemma AloneStep(limit: int, width: real, before: seq<Call>, c: Call, key: string)
    requires AsIfAlone(limit, width, before, key)
    ensures AsIfAlone(limit, width, before + [c], key)
  {
    OneMoreCall(limit, width, before, c);
    OnlyKeyRecordsStep(History(limit, width, before), Called(limit, width, before, c), key);
    OnlyKeyStep(before, c, key);
    var alone := OnlyKey(before, key);
    if c.key == key {
      OneMoreCall(limit, width, alone, c);
      SameDecision(limit, width, After(limit, width, before), After(limit, width, alone), key, c.now);
    } else {
      var records := OnlyKeyRecords(History(limit, width, before), key);
      assert alone + [] == alone && records + [] == records;
    }
  }

  /** A decision about a key looks at the entry of that key alone. */
  lemma SameDecision(limit: int, width: real, a: Counters, b: Counters, key: string, now: real)
    requires SameEntry(a, b, key)
    ensures Allow(limit, width, a, key, now).1 == Allow(limit, width, b, key, now).1
    ensures SameEntry(Allow(limit, width, a, key, now).0, Allow(limit, width, b, key, now).0, key)
  {
  }

  lemma OnlyKeyStep(before: seq<Call>, c: Call, key: string)
    ensures OnlyKey(before + [c], key) == OnlyKey(before, key) + if c.key == key then [c] else []
  {
    assert (before + [c])[..|before|] == before;
  }

  /** The record of a call made after the others. */
  function Called(limit: int, width: real, before: seq<Call>, c: Call): Record {
    Record(c.key, c.now, Allow(limit, width, After(limit, width, before), c.key, c.now).1)
  }

  lemma OneMoreCall(limit: int, width: real, before: seq<Call>, c: Call)
    ensures After(limit, width, before + [c]) == Allow(limit, width, After(limit, width, before), c.key, c.now).0
    ensures History(limit, width, before + [c]) == History(limit, width, before) + [Called(limit, width, before, c)]
  {
    assert (before + [c])[..|before|] == before;
  }

  lemma OnlyKeyRecordsStep(h: seq<Record>, r: Record, key: string)
    ensures OnlyKeyRecords(h + [r], key) == OnlyKeyRecords(h, key) + if r.key == key then [r] else []
  {
    assert (h + [r])[..|h|] == h;
  }
}
