/**
 The two in-memory fixed-window limiters: per tenant (src/middleware/tenantAuth.ts) and per
 websocket client (src/middleware/security.ts).  The first sweeps expired entries and counts
 rejected requests, the second does neither.  Both are proved equal, on every interleaved run,
 to one definition that looks only at the history of the key's own requests.
 */
module RateLimit {
  import opened Sequences

  datatype Entry = Entry(count: nat, resetTime: int)

  type Table = map<string, Entry>

  // ---------- one request, as each middleware handles it ----------

  datatype Kind = Tenant | Websocket

  function Sweep(table: Table, now: int): Table {
    map key | key in table && table[key].resetTime >= now :: table[key]
  }

  function TenantStep(table: Table, key: string, now: int, window: int, cap: nat): (Table, bool) {
    var swept := Sweep(table, now);
    var entry := if key in swept then swept[key] else Entry(0, now + window);
    var next := if now > entry.resetTime then Entry(1, now + window) else Entry(entry.count + 1, entry.resetTime);
    (swept[key := next], next.count <= cap)
  }

  function WebsocketStep(table: Table, key: string, now: int, window: int, cap: nat): (Table, bool) {
    if key !in table || now > table[key].resetTime then (table[key := Entry(1, now + window)], true)
    else if table[key].count >= cap then (table, false)
    else (table[key := Entry(table[key].count + 1, table[key].resetTime)], true)
  }

  function Step(kind: Kind, table: Table, key: string, now: int, window: int, cap: nat): (Table, bool) {
    if kind.Tenant? then TenantStep(table, key, now, window, cap) else WebsocketStep(table, key, now, window, cap)
  }

  class TenantLimiter {
    const windowMs: int
    const maxRequests: nat
    var requests: Table

    constructor (windowMs: int, maxRequests: nat)
      ensures this.windowMs == windowMs && this.maxRequests == maxRequests && requests == map[]
    {
      this.windowMs := windowMs;
      this.maxRequests := maxRequests;
      requests := map[];
    }

    /** A request without a tenant context passes through unseen. */
    method Handle(tenant: Option<string>, now: int) returns (admitted: bool)
      modifies this
      ensures tenant.None? ==> admitted && requests == old(requests)
      ensures tenant.Some? ==>
                (requests, admitted) == Step(Tenant, old(requests), tenant.value, now, windowMs, maxRequests)
    {
      if tenant.None? { return true; }
      var tenantId := tenant.value;
      var keys := requests.Keys;
      while keys != {}
        invariant keys <= requests.Keys <= old(requests).Keys
        invariant forall key :: key in requests ==> requests[key] == old(requests)[key]
        invariant forall key :: key in old(requests) && key !in keys ==>
                                  (key in requests <==> old(requests)[key].resetTime >= now)
        decreases keys
      {
        var key :| key in keys;
        keys := keys - {key};
        if requests[key].resetTime < now {
          requests := requests - {key};
        }
      }
      assert requests == Sweep(old(requests), now);
      var entry := if tenantId in requests then requests[tenantId] else Entry(0, now + windowMs);
      if now > entry.resetTime {
        entry := Entry(1, now + windowMs);
      } else {
        entry := Entry(entry.count + 1, entry.resetTime);
      }
      requests := requests[tenantId := entry];
      admitted := entry.count <= maxRequests;
    }
  }

  const WINDOW_MS: int := 60000
  const MAX_CONNECTIONS: nat := 10

  class WebsocketLimiter {
    var connections: Table

    constructor ()
      ensures connections == map[]
    {
      connections := map[];
    }

    method Handle(clientId: string, now: int) returns (admitted: bool)
      modifies this
      ensures (connections, admitted) == Step(Websocket, old(connections), clientId, now, 60000, 10)
    {
      if clientId !in connections || now > connections[clientId].resetTime {
        connections := connections[clientId := Entry(1, now + WINDOW_MS)];
        return true;
      }
      var data := connections[clientId];
      if data.count >= MAX_CONNECTIONS {
        return false;
      }
      connections := connections[clientId := Entry(data.count + 1, data.resetTime)];
      admitted := true;
    }
  }

  // ---------- runs ----------

  datatype Request = Request(key: string, now: int)

  /** A run of requests under a clock that never goes back. */
  ghost predicate Ordered(run: seq<Request>) {
    forall i, j :: 0 <= i < j < |run| ==> run[i].now <= run[j].now
  }

  function StateAfter(kind: Kind, run: seq<Request>, window: int, cap: nat): Table {
    if run == [] then map[]
    else Step(kind, StateAfter(kind, Init(run), window, cap), Last(run).key, Last(run).now, window, cap).0
  }

  /** Whether the last request of the run is admitted. */
  predicate Admits(kind: Kind, run: seq<Request>, window: int, cap: nat)
    requires run != []
  {
    Step(kind, StateAfter(kind, Init(run), window, cap), Last(run).key, Last(run).now, window, cap).1
  }

  // ---------- the reference: a key's own history ----------

  /** The run with all other keys' requests removed. */
  function OwnRun(run: seq<Request>, key: string): seq<Request> {
    if run == [] then []
    else if Last(run).key == key then OwnRun(Init(run), key) + [Last(run)]
    else OwnRun(Init(run), key)
  }

  datatype Window = Window(start: int, count: nat)

  /** A window is opened by the first request later than the end of the window before it. */
  function CurrentWindow(own: seq<Request>, window: int): Window
    requires own != []
  {
    var now := Last(own).now;
    if |own| == 1 then Window(now, 1)
    else
      var before := CurrentWindow(Init(own), window);
      if now > before.start + window then Window(now, 1) else Window(before.start, before.count + 1)
  }

  /** The reference decision: at most `cap` requests since the current window was opened. */
  predicate WithinCap(own: seq<Request>, window: int, cap: nat)
    requires own != []
  {
    CurrentWindow(own, window).count <= cap
  }

  /** What the current window is, said without recursion: the last `count` requests, opened by the first of them. */
  lemma {:induction false} WindowIsSuffix(own: seq<Request>, window: int)
    requires own != [] && Ordered(own) && window >= 0
    ensures var w := CurrentWindow(own, window);
            && 1 <= w.count <= |own|
            && w.start == own[|own| - w.count].now
            && (forall i :: |own| - w.count <= i < |own| ==> w.start <= own[i].now <= w.start + window)
            && (w.count < |own| ==> w.start > CurrentWindow(own[..|own| - w.count], window).start + window)
    decreases |own|
  {
    if |own| > 1 {
      var init, w := Init(own), CurrentWindow(own, window);
      WindowIsSuffix(init, window);
      hide CurrentWindow;
      if w.count == 1 {
        assert own[..|own| - w.count] == init;
      } else {
        assert own[..|own| - w.count] == init[..|own| - w.count];
      }
    }
  }

  /** One step of the reference, so that other proofs need not unfold it. */
  lemma {:induction false} HistoryUnfolds(run: seq<Request>, key: string, window: int)
    requires run != []
    ensures var own, before := OwnRun(run, key), OwnRun(Init(run), key);
            if Last(run).key != key then own == before
            else
              && own == before + [Last(run)] && Init(own) == before && Last(own) == Last(run)
              && CurrentWindow(own, window) ==
                 if before == [] || Last(run).now > CurrentWindow(before, window).start + window
                 then Window(Last(run).now, 1)
                 else Window(CurrentWindow(before, window).start, CurrentWindow(before, window).count + 1)
  {
    if Last(run).key == key {
      assert Init(OwnRun(run, key)) == OwnRun(Init(run), key);
    }
  }

  lemma {:induction false} OwnRunMembers(run: seq<Request>, key: string)
    requires Ordered(run)
    ensures forall i :: 0 <= i < |OwnRun(run, key)| ==>
                          OwnRun(run, key)[i].key == key && OwnRun(run, key)[i].now <= Last(run).now
    ensures Ordered(OwnRun(run, key))
    decreases |run|
  {
    if run != [] {
      OwnRunMembers(Init(run), key);
    }
  }

  // ---------- both limiters follow the reference ----------

  /** What either table holds for a key, in terms of that key's history. */
  ghost predicate Records(kind: Kind, table: Table, run: seq<Request>, key: string, window: int, cap: nat) {
    var own := OwnRun(run, key);
    if own == [] then key !in table
    else
      var w := CurrentWindow(own, window);
      match kind
      case Tenant =>
        && (Last(run).now <= w.start + window ==> key in table)
        && (key in table ==> table[key] == Entry(w.count, w.start + window))
      case Websocket =>
        key in table && table[key] == Entry(Min(w.count, cap), w.start + window)
  }

  lemma {:induction false} StateRecordsHistories(kind: Kind, run: seq<Request>, key: string, window: int, cap: nat)
    requires Ordered(run) && (kind.Websocket? ==> cap >= 1)
    ensures Records(kind, StateAfter(kind, run, window, cap), run, key, window, cap)
    decreases |run|
  {
    if run != [] {
      StateRecordsHistories(kind, Init(run), key, window, cap);
      assert Init(run) != [] ==> Last(Init(run)).now <= Last(run).now;
      StepKeepsRecord(kind, StateAfter(kind, Init(run), window, cap), run, key, window, cap);
    }
  }

  lemma {:induction false} StepKeepsRecord(kind: Kind, table: Table, run: seq<Request>, key: string, window: int, cap: nat)
    requires run != [] && (kind.Websocket? ==> cap >= 1)
    requires Init(run) != [] ==> Last(Init(run)).now <= Last(run).now
    requires Records(kind, table, Init(run), key, window, cap)
    ensures Records(kind, Step(kind, table, Last(run).key, Last(run).now, window, cap).0, run, key, window, cap)
  {
    hide *;
    if kind.Tenant? {
      TenantKeepsRecord(table, run, key, window, cap);
    } else {
      WebsocketKeepsRecord(table, run, key, window, cap);
    }
  }

  lemma {:induction false} TenantKeepsRecord(table: Table, run: seq<Request>, key: string, window: int, cap: nat)
    requires run != [] && (Init(run) != [] ==> Last(Init(run)).now <= Last(run).now)
    requires Records(Tenant, table, Init(run), key, window, cap)
    ensures Records(Tenant, Step(Tenant, table, Last(run).key, Last(run).now, window, cap).0, run, key, window, cap)
  {
    hide CurrentWindow;
    hide OwnRun;
    HistoryUnfolds(run, key, window);
    if Init(run) == [] {
      EmptyHistory(Init(run), key);
    }
    var now, swept := Last(run).now, Sweep(table, Last(run).now);
    assert key in swept <==> key in table && table[key].resetTime >= now;
  }

  lemma {:induction false} WebsocketKeepsRecord(table: Table, run: seq<Request>, key: string, window: int, cap: nat)
    requires run != [] && cap >= 1 && (Init(run) != [] ==> Last(Init(run)).now <= Last(run).now)
    requires Records(Websocket, table, Init(run), key, window, cap)
    ensures Records(Websocket, Step(Websocket, table, Last(run).key, Last(run).now, window, cap).0, run, key, window, cap)
  {
    hide CurrentWindow;
    hide OwnRun;
    HistoryUnfolds(run, key, window);
  }

  lemma {:induction false} DecisionFollowsRecord(kind: Kind, table: Table, run: seq<Request>, window: int, cap: nat)
    requires run != [] && (kind.Websocket? ==> cap >= 1)
    requires Init(run) != [] ==> Last(Init(run)).now <= Last(run).now
    requires Records(kind, table, Init(run), Last(run).key, window, cap)
    ensures var own := OwnRun(run, Last(run).key);
            own != [] && (Step(kind, table, Last(run).key, Last(run).now, window, cap).1 <==> WithinCap(own, window, cap))
  {
    hide CurrentWindow;
    var key, now := Last(run).key, Last(run).now;
    HistoryUnfolds(run, key, window);
    if kind.Tenant? {
      var swept := Sweep(table, now);
      assert key in swept <==> key in table && table[key].resetTime >= now;
    }
  }

  /**
   Main result: on every run each limiter decides as the key's own history says.  A cap of 0 is
   excluded only for the websocket limiter, which would still admit the request that opens a window.
   */
  lemma {:induction false} LimiterFollowsHistory(kind: Kind, run: seq<Request>, window: int, cap: nat)
    requires run != [] && Ordered(run) && (kind.Websocket? ==> cap >= 1)
    ensures var own := OwnRun(run, Last(run).key);
            own != [] && (Admits(kind, run, window, cap) <==> WithinCap(own, window, cap))
  {
    hide Records;
    hide WithinCap;
    hide OwnRun;
    hide Step;
    StateRecordsHistories(kind, Init(run), Last(run).key, window, cap);
    assert Init(run) != [] ==> Last(Init(run)).now <= Last(run).now;
    DecisionFollowsRecord(kind, StateAfter(kind, Init(run), window, cap), run, window, cap);
  }

  /** The two limiters agree on every request of every run, exactly when the cap is at least 1. */
  lemma {:induction false} LimitersAgreeIffCapIsPositive(window: int, cap: nat)
    ensures (forall run :: run != [] && Ordered(run) ==>
                             (Admits(Tenant, run, window, cap) <==> Admits(Websocket, run, window, cap)))
            <==> cap >= 1
  {
    if cap >= 1 {
      forall run | run != [] && Ordered(run)
        ensures Admits(Tenant, run, window, cap) <==> Admits(Websocket, run, window, cap)
      {
        LimiterFollowsHistory(Tenant, run, window, cap);
        LimiterFollowsHistory(Websocket, run, window, cap);
      }
    } else {
      var run := [Request("", 0)];
      assert Init(run) == [];
      assert !Admits(Tenant, run, window, cap) && Admits(Websocket, run, window, cap);
    }
  }

  /** On live entries the websocket count is the tenant count cut off at the cap. */
  lemma {:induction false} LiveCountsCorrespond(run: seq<Request>, key: string, window: int, cap: nat)
    requires Ordered(run) && cap >= 1
    ensures var tenant := StateAfter(Tenant, run, window, cap);
            var websocket := StateAfter(Websocket, run, window, cap);
            && tenant.Keys <= websocket.Keys
            && (key in tenant ==> websocket[key] == Entry(Min(tenant[key].count, cap), tenant[key].resetTime))
            && (key in websocket && key !in tenant ==> Last(run).now > websocket[key].resetTime)
  {
    forall k | k in StateAfter(Tenant, run, window, cap)
      ensures k in StateAfter(Websocket, run, window, cap)
    {
      StateRecordsHistories(Tenant, run, k, window, cap);
      StateRecordsHistories(Websocket, run, k, window, cap);
    }
    StateRecordsHistories(Tenant, run, key, window, cap);
    StateRecordsHistories(Websocket, run, key, window, cap);
    if run == [] {
      assert OwnRun(run, key) == [];
    }
  }

  lemma {:induction false} OwnRunOfOwnRun(run: seq<Request>, key: string)
    ensures OwnRun(OwnRun(run, key), key) == OwnRun(run, key)
    decreases |run|
  {
    if run != [] {
      OwnRunOfOwnRun(Init(run), key);
      if Last(run).key == key {
        assert Init(OwnRun(run, key)) == OwnRun(Init(run), key);
      }
    }
  }

  /** Isolation: other keys and the sweeps they trigger cannot be observed. */
  lemma {:induction false} OtherKeysAreUnobservable(kind: Kind, run: seq<Request>, window: int, cap: nat)
    requires run != [] && Ordered(run) && (kind.Websocket? ==> cap >= 1)
    ensures var own := OwnRun(run, Last(run).key);
            own != [] && (Admits(kind, run, window, cap) <==> Admits(kind, own, window, cap))
  {
    var key := Last(run).key;
    var own := OwnRun(run, key);
    OwnRunMembers(run, key);
    OwnRunOfOwnRun(run, key);
    LimiterFollowsHistory(kind, run, window, cap);
    LimiterFollowsHistory(kind, own, window, cap);
  }

  // ---------- how much any interval lets through ----------

  /** The number of requests of `key` admitted at times in [from, from + window]. */
  function Admissions(kind: Kind, run: seq<Request>, key: string, window: int, cap: nat, from: int): nat {
    if run == [] then 0
    else
      Admissions(kind, Init(run), key, window, cap, from) +
      if Last(run).key == key && from <= Last(run).now <= from + window && Admits(kind, run, window, cap)
      then 1 else 0
  }

  lemma {:induction false} AdmissionsUnfold(kind: Kind, run: seq<Request>, key: string, window: int, cap: nat, from: int)
    requires Ordered(run) && cap >= 1
    ensures run == [] ==> Admissions(kind, run, key, window, cap, from) == 0
    ensures run != [] ==>
              && Ordered(Init(run))
              && (Last(run).key == key ==> OwnRun(run, key) != [])
              && Admissions(kind, run, key, window, cap, from) ==
                 Admissions(kind, Init(run), key, window, cap, from) +
                 if Last(run).key == key && from <= Last(run).now <= from + window && WithinCap(OwnRun(run, key), window, cap)
                 then 1 else 0
  {
    hide CurrentWindow;
    if run != [] {
      LimiterFollowsHistory(kind, run, window, cap);
    }
  }

  /** The bound that the state of the current window puts on the admissions so far. */
  function Allowance(w: Window, window: int, cap: nat, from: int): nat
    requires w.count >= 1 && cap >= 1
  {
    if w.start < from then Min(w.count, cap) - 1
    else if w.start <= from + window then cap - 1 + Min(w.count, cap)
    else 2 * cap - 1
  }

  /** What is claimed of the admissions so far, given the current window and the latest request. */
  predicate Fits(admitted: nat, w: Window, latest: int, window: int, cap: nat, from: int) {
    && w.count >= 1 && cap >= 1
    && w.start <= latest <= w.start + window
    && (latest < from ==> admitted == 0)
    && admitted <= Allowance(w, window, cap, from)
  }

  lemma {:induction false} NextRequestFits(admitted: nat, w: Window, latest: int, now: int, window: int, cap: nat, from: int)
    requires Fits(admitted, w, latest, window, cap, from) && latest <= now && window >= 0
    ensures var next := if now > w.start + window then Window(now, 1) else Window(w.start, w.count + 1);
            Fits(admitted + if from <= now <= from + window && next.count <= cap then 1 else 0, next, now, window, cap, from)
  {
  }

  lemma {:induction false} AdmissionsFit(kind: Kind, run: seq<Request>, key: string, window: int, cap: nat, from: int)
    requires Ordered(run) && cap >= 1 && window >= 0
    ensures var own, admitted := OwnRun(run, key), Admissions(kind, run, key, window, cap, from);
            if own == [] then admitted == 0
            else Fits(admitted, CurrentWindow(own, window), Last(own).now, window, cap, from)
    decreases |run|
  {
    hide CurrentWindow;
    hide Admissions;
    hide OwnRun;
    AdmissionsUnfold(kind, run, key, window, cap, from);
    if run == [] {
      EmptyHistory(run, key);
    } else {
      AdmissionsFit(kind, Init(run), key, window, cap, from);
      HistoryUnfolds(run, key, window);
      if Last(run).key == key && OwnRun(Init(run), key) != [] {
        hide Fits;
        var before := OwnRun(Init(run), key);
        OwnRunMembers(run, key);
        assert OwnRun(run, key)[|before| - 1] == Last(before);
        NextRequestFits(Admissions(kind, Init(run), key, window, cap, from), CurrentWindow(before, window),
                        Last(before).now, Last(run).now, window, cap, from);
      }
    }
  }

  /** No closed interval of the window's length lets through more than 2*cap - 1 requests of one key. */
  lemma {:induction false} AdmissionsAreBounded(kind: Kind, run: seq<Request>, key: string, window: int, cap: nat, from: int)
    requires Ordered(run) && cap >= 1 && window >= 0
    ensures Admissions(kind, run, key, window, cap, from) <= 2 * cap - 1
  {
    AdmissionsFit(kind, run, key, window, cap, from);
  }

  /** The run that exhausts the bound: one request at 0, cap - 1 at the end of that window, cap right after it. */
  function BurstRun(key: string, window: int, cap: nat, n: nat): (run: seq<Request>)
    ensures |run| == n
  {
    if n == 0 then []
    else BurstRun(key, window, cap, n - 1) +
         [Request(key, if n == 1 then 0 else if n <= cap then window else window + 1)]
  }

  lemma {:induction false} BurstRunFacts(kind: Kind, key: string, window: int, cap: nat, n: nat)
    requires 1 <= n <= 2 * cap && window >= 1
    ensures var run := BurstRun(key, window, cap, n);
            && Ordered(run)
            && OwnRun(run, key) == run
            && CurrentWindow(run, window) == (if n <= cap then Window(0, n) else Window(window + 1, n - cap))
            && Admissions(kind, run, key, window, cap, window) == n - 1
  {
    hide CurrentWindow;
    hide Admissions;
    hide Ordered;
    hide BurstRun;
    hide OwnRun;
    var run, before := BurstRun(key, window, cap, n), BurstRun(key, window, cap, n - 1);
    BurstRunUnfolds(key, window, cap, n);
    HistoryUnfolds(run, key, window);
    if n == 1 {
      EmptyBurst(key, window, cap);
      EmptyHistory(before, key);
      OrderedSingleton(run);
      OrderedSingleton(before);
    } else {
      BurstRunFacts(kind, key, window, cap, n - 1);
      BurstRunUnfolds(key, window, cap, n - 1);
      OrderedExtends(run);
    }
    AdmissionsUnfold(kind, run, key, window, cap, window);
    if n == 1 {
      AdmissionsUnfold(kind, before, key, window, cap, window);
    }
  }

  lemma {:induction false} EmptyHistory(run: seq<Request>, key: string)
    requires run == []
    ensures OwnRun(run, key) == []
  {
  }

  lemma {:induction false} OrderedSingleton(run: seq<Request>)
    requires |run| <= 1
    ensures Ordered(run)
  {
  }

  lemma {:induction false} EmptyBurst(key: string, window: int, cap: nat)
    ensures BurstRun(key, window, cap, 0) == []
  {
  }

  lemma {:induction false} BurstRunUnfolds(key: string, window: int, cap: nat, n: nat)
    requires n >= 1
    ensures var run := BurstRun(key, window, cap, n);
            && run != [] && Init(run) == BurstRun(key, window, cap, n - 1)
            && Last(run) == Request(key, if n == 1 then 0 else if n <= cap then window else window + 1)
  {
  }

  lemma {:induction false} OrderedExtends(run: seq<Request>)
    requires |run| > 1 && Ordered(Init(run)) && Last(Init(run)).now <= Last(run).now
    ensures Ordered(run)
  {
    forall i, j | 0 <= i < j < |run| ensures run[i].now <= run[j].now {
      var before := Init(run);
      assert run[i] == before[i] && (j < |before| ==> run[j] == before[j]);
      assert i < |before| - 1 ==> before[i].now <= Last(before).now;
    }
  }

  /** The bound 2*cap - 1 is attained, for every cap and every window of at least one tick. */
  lemma {:induction false} BoundIsAttained(kind: Kind, key: string, window: int, cap: nat)
    requires cap >= 1 && window >= 1
    ensures exists run, from :: Ordered(run) && Admissions(kind, run, key, window, cap, from) == 2 * cap - 1
  {
    BurstRunFacts(kind, key, window, cap, 2 * cap);
  }
}
