/**
 The security monitor (src/middleware/securityMonitor.ts): a log of events, counters of
 authentication events per address and of high-severity events per user, and a periodic cleanup.
 Its answers are characterised in terms of the full history of operations.
 */
module SecurityMonitor {
  import opened Sequences

  const HOUR: int := 3600000
  const HALF_HOUR: int := 1800000
  const BLOCK_THRESHOLD: nat := 10
  const LOG_LIMIT: nat := 1000

  datatype EventType = Authentication | Authorization | Injection | RateLimit | SuspiciousActivity
  datatype Severity = Low | Medium | High | Critical
  datatype Event = Event(kind: EventType, severity: Severity, ip: Option<string>, userId: Option<string>)

  /** The address an event is booked under. */
  function Address(e: Event): string {
    if e.ip.Some? && e.ip.value != "" then e.ip.value else "unknown"
  }

  /** An authentication event that names the address, or that names none if the address is the placeholder. */
  predicate IsAuthOf(e: Event, ip: string) {
    && e.kind == Authentication
    && ((ip != "" && e.ip == Some(ip)) || (ip == "unknown" && (e.ip == None || e.ip == Some(""))))
  }

  lemma {:induction false} IsAuthOfAddress(e: Event, ip: string)
    ensures IsAuthOf(e, ip) <==> e.kind == Authentication && Address(e) == ip
  {
  }

  predicate IsHighOf(e: Event, user: string) {
    e.severity == High && e.userId == Some(user) && user != ""
  }

  datatype Logged = Logged(event: Event, ip: string, time: int)
  datatype Block = Block(count: nat, lastBlock: int)
  datatype Suspicion = Suspicion(count: nat, lastSuspicious: int)

  datatype State = State(events: seq<Logged>, blockedIPs: map<string, Block>, suspiciousUsers: map<string, Suspicion>)

  // ---------- the operations on values ----------

  datatype Op = Record(event: Event, time: int) | Cleanup(time: int)

  function CountAuth(blocked: map<string, Block>, ip: string, now: int): map<string, Block> {
    var count := (if ip in blocked then blocked[ip].count else 0) + 1;
    blocked[ip := Block(count, if count >= BLOCK_THRESHOLD then now
                               else if ip in blocked then blocked[ip].lastBlock else 0)]
  }

  function CountHigh(users: map<string, Suspicion>, user: string, now: int): map<string, Suspicion> {
    users[user := Suspicion((if user in users then users[user].count else 0) + 1, now)]
  }

  function Apply(s: State, op: Op): State {
    match op
    case Record(e, now) =>
      State(s.events + [Logged(e, Address(e), now)],
            if e.kind == Authentication then CountAuth(s.blockedIPs, Address(e), now) else s.blockedIPs,
            if e.userId.Some? && e.userId.value != "" && e.severity == High
            then CountHigh(s.suspiciousUsers, e.userId.value, now)
            else s.suspiciousUsers)
    case Cleanup(now) =>
      State(if |s.events| > LOG_LIMIT then s.events[|s.events| - LOG_LIMIT..] else s.events,
            map ip | ip in s.blockedIPs && now - s.blockedIPs[ip].lastBlock <= HOUR :: s.blockedIPs[ip],
            map u | u in s.suspiciousUsers && now - s.suspiciousUsers[u].lastSuspicious <= HALF_HOUR :: s.suspiciousUsers[u])
  }

  predicate IsIPBlocked(s: State, ip: string, now: int) {
    ip in s.blockedIPs && now - s.blockedIPs[ip].lastBlock < HOUR
  }

  predicate IsUserSuspicious(s: State, user: string, now: int) {
    user in s.suspiciousUsers && now - s.suspiciousUsers[user].lastSuspicious < HALF_HOUR
  }

  // ---------- the monitor ----------

  class SecurityMonitor {
    var events: seq<Logged>
    var blockedIPs: map<string, Block>
    var suspiciousUsers: map<string, Suspicion>

    function Value(): State
      reads this
    {
      State(events, blockedIPs, suspiciousUsers)
    }

    constructor ()
      ensures Value() == State([], map[], map[])
    {
      events, blockedIPs, suspiciousUsers := [], map[], map[];
    }

    method RecordEvent(event: Event, now: int)
      modifies this
      ensures Value() == Apply(old(Value()), Record(event, now))
    {
      events := events + [Logged(event, Address(event), now)];
      EvaluateRisk(event, Address(event), now);
    }

    method EvaluateRisk(event: Event, ip: string, now: int)
      requires ip == Address(event)
      modifies this
      ensures events == old(events)
      ensures Value() == Apply(old(Value()), Record(event, now)).(events := old(events))
    {
      if event.kind == Authentication && ip != "" {
        var ipData := if ip in blockedIPs then blockedIPs[ip] else Block(0, 0);
        ipData := Block(ipData.count + 1, ipData.lastBlock);
        blockedIPs := blockedIPs[ip := ipData];
        if ipData.count >= BLOCK_THRESHOLD {
          BlockIP(ip, now);
        }
      }
      if event.userId.Some? && event.userId.value != "" && event.severity == High {
        var user := event.userId.value;
        var userData := if user in suspiciousUsers then suspiciousUsers[user] else Suspicion(0, 0);
        suspiciousUsers := suspiciousUsers[user := Suspicion(userData.count + 1, now)];
      }
    }

    method BlockIP(ip: string, now: int)
      modifies this`blockedIPs
      ensures blockedIPs == old(blockedIPs)[ip := Block(if ip in old(blockedIPs) then old(blockedIPs)[ip].count else 0, now)]
    {
      blockedIPs := blockedIPs[ip := Block(if ip in blockedIPs then blockedIPs[ip].count else 0, now)];
    }

    method CleanupBlocks(now: int)
      modifies this`blockedIPs
      ensures blockedIPs == Apply(old(Value()), Cleanup(now)).blockedIPs
    {
      var ips := blockedIPs.Keys;
      while ips != {}
        invariant ips <= blockedIPs.Keys <= old(blockedIPs).Keys
        invariant forall ip :: ip in blockedIPs ==> blockedIPs[ip] == old(blockedIPs)[ip]
        invariant forall ip :: ip in old(blockedIPs) && ip !in ips ==>
                                 (ip in blockedIPs <==> now - old(blockedIPs)[ip].lastBlock <= HOUR)
        decreases ips
      {
        var ip :| ip in ips;
        ips := ips - {ip};
        if now - blockedIPs[ip].lastBlock > HOUR {
          blockedIPs := blockedIPs - {ip};
        }
      }
    }

    method CleanupUsers(now: int)
      modifies this`suspiciousUsers
      ensures suspiciousUsers == Apply(old(Value()), Cleanup(now)).suspiciousUsers
    {
      var users := suspiciousUsers.Keys;
      while users != {}
        invariant users <= suspiciousUsers.Keys <= old(suspiciousUsers).Keys
        invariant forall u :: u in suspiciousUsers ==> suspiciousUsers[u] == old(suspiciousUsers)[u]
        invariant forall u :: u in old(suspiciousUsers) && u !in users ==>
                                (u in suspiciousUsers <==> now - old(suspiciousUsers)[u].lastSuspicious <= HALF_HOUR)
        decreases users
      {
        var u :| u in users;
        users := users - {u};
        if now - suspiciousUsers[u].lastSuspicious > HALF_HOUR {
          suspiciousUsers := suspiciousUsers - {u};
        }
      }
    }

    method CleanupOldEntries(now: int)
      modifies this
      ensures Value() == Apply(old(Value()), Cleanup(now))
    {
      CleanupBlocks(now);
      CleanupUsers(now);
      if |events| > LOG_LIMIT {
        events := events[|events| - LOG_LIMIT..];
      }
    }

    method IpBlocked(ip: string, now: int) returns (blocked: bool)
      ensures blocked == IsIPBlocked(Value(), ip, now)
    {
      if ip !in blockedIPs { return false; }
      blocked := now - blockedIPs[ip].lastBlock < HOUR;
    }

    method UserSuspicious(userId: string, now: int) returns (suspicious: bool)
      ensures suspicious == IsUserSuspicious(Value(), userId, now)
    {
      if userId !in suspiciousUsers { return false; }
      suspicious := now - suspiciousUsers[userId].lastSuspicious < HALF_HOUR;
    }
  }

  // ---------- histories ----------

  /** A history of operations under a clock that never goes back and is past its first hour. */
  ghost predicate IsHistory(h: seq<Op>) {
    && (forall i :: 0 <= i < |h| ==> h[i].time > HOUR)
    && (forall i, j :: 0 <= i < j < |h| ==> h[i].time <= h[j].time)
  }

  /** `now` is a time at which a question can be asked after h. */
  ghost predicate IsAfter(now: int, h: seq<Op>) {
    now > HOUR && forall i :: 0 <= i < |h| ==> h[i].time <= now
  }

  function After(h: seq<Op>): State {
    if h == [] then State([], map[], map[]) else Apply(After(Init(h)), Last(h))
  }

  lemma {:induction false} HistoryPrefix(h: seq<Op>)
    requires IsHistory(h) && h != []
    ensures IsHistory(Init(h)) && Last(h).time > HOUR && IsAfter(Last(h).time, Init(h))
  {
  }

  /** What an event changes, entry by entry: the counter of its address, that of its user, and the log. */
  lemma {:induction false} RecordMeaning(s: State, e: Event, now: int, ip: string, user: string)
    ensures var t := Apply(s, Record(e, now));
            var blocks := if ip in s.blockedIPs then s.blockedIPs[ip].count else 0;
            var since := if ip in s.blockedIPs then s.blockedIPs[ip].lastBlock else 0;
            var flags := if user in s.suspiciousUsers then s.suspiciousUsers[user].count else 0;
            && t.events == s.events + [Logged(e, if e.ip.Some? && e.ip.value != "" then e.ip.value else "unknown", now)]
            && (if IsAuthOf(e, ip) then
                  ip in t.blockedIPs && t.blockedIPs[ip] == Block(blocks + 1, if blocks + 1 >= 10 then now else since)
                else (ip in t.blockedIPs <==> ip in s.blockedIPs) && (ip in t.blockedIPs ==> t.blockedIPs[ip] == s.blockedIPs[ip]))
            && (if IsHighOf(e, user) then
                  user in t.suspiciousUsers && t.suspiciousUsers[user] == Suspicion(flags + 1, now)
                else (user in t.suspiciousUsers <==> user in s.suspiciousUsers) &&
                     (user in t.suspiciousUsers ==> t.suspiciousUsers[user] == s.suspiciousUsers[user]))
  {
    IsAuthOfAddress(e, ip);
  }

  /** What a cleanup leaves: blocks of at most an hour, flags of at most half an hour, the last thousand events. */
  lemma {:induction false} CleanupMeaning(s: State, now: int, ip: string, user: string)
    ensures var t := Apply(s, Cleanup(now));
            && (ip in t.blockedIPs <==> ip in s.blockedIPs && now - s.blockedIPs[ip].lastBlock <= 3600000)
            && (ip in t.blockedIPs ==> t.blockedIPs[ip] == s.blockedIPs[ip])
            && (user in t.suspiciousUsers <==> user in s.suspiciousUsers && now - s.suspiciousUsers[user].lastSuspicious <= 1800000)
            && (user in t.suspiciousUsers ==> t.suspiciousUsers[user] == s.suspiciousUsers[user])
            && t.events == if |s.events| > 1000 then s.events[|s.events| - 1000..] else s.events
  {
  }

  // ---------- suspicious users ----------

  /** The history has a high-severity event of the user less than half an hour old. */
  ghost predicate HasRecentHigh(h: seq<Op>, user: string, now: int) {
    exists i :: 0 <= i < |h| && h[i].Record? && IsHighOf(h[i].event, user) && now - h[i].time < 1800000
  }

  /** The time of the user's last high-severity event; 0 if there is none. */
  function LastHigh(h: seq<Op>, user: string): int {
    if h == [] then 0
    else if Last(h).Record? && IsHighOf(Last(h).event, user) then Last(h).time
    else LastHigh(Init(h), user)
  }

  lemma {:induction false} LastHighMeaning(h: seq<Op>, user: string, now: int)
    requires IsHistory(h) && IsAfter(now, h)
    ensures HasRecentHigh(h, user, now) <==> now - LastHigh(h, user) < HALF_HOUR
    ensures LastHigh(h, user) <= now
    decreases |h|
  {
    if h != [] {
      var init, last := Init(h), Last(h);
      HistoryPrefix(h);
      LastHighMeaning(init, user, now);
      if last.Record? && IsHighOf(last.event, user) {
        if HasRecentHigh(h, user, now) {
          var i :| 0 <= i < |h| && h[i].Record? && IsHighOf(h[i].event, user) && now - h[i].time < HALF_HOUR;
          assert h[i].time <= last.time;
        }
        assert h[|h| - 1] == last;
      } else {
        if HasRecentHigh(init, user, now) {
          var i :| 0 <= i < |init| && init[i].Record? && IsHighOf(init[i].event, user) && now - init[i].time < HALF_HOUR;
          assert h[i] == init[i];
        }
        if HasRecentHigh(h, user, now) {
          var i :| 0 <= i < |h| && h[i].Record? && IsHighOf(h[i].event, user) && now - h[i].time < HALF_HOUR;
          assert init[i] == h[i];
        }
      }
    }
  }

  /** The table knows the last high-severity event of a user, unless a cleanup has seen it expire. */
  lemma {:induction false} UserTable(h: seq<Op>, user: string)
    requires IsHistory(h)
    ensures var users := After(h).suspiciousUsers;
            if user in users then users[user].lastSuspicious == LastHigh(h, user)
            else LastHigh(h, user) == 0 || (h != [] && Last(h).time - LastHigh(h, user) > HALF_HOUR)
    decreases |h|
  {
    if h != [] {
      HistoryPrefix(h);
      UserTable(Init(h), user);
    }
  }

  /** Main result: whatever was cleaned up in between, a user is suspicious exactly when the history says so. */
  lemma {:induction false} SuspicionIsRecentHigh(h: seq<Op>, user: string, now: int)
    requires IsHistory(h) && IsAfter(now, h)
    ensures IsUserSuspicious(After(h), user, now) <==> HasRecentHigh(h, user, now)
  {
    hide HasRecentHigh;
    LastHighMeaning(h, user, now);
    UserTable(h, user);
  }

  // ---------- blocked addresses ----------

  /** The time of the address's last authentication event; 0 if there is none. */
  function LastAuth(h: seq<Op>, ip: string): int {
    if h == [] then 0
    else if Last(h).Record? && IsAuthOf(Last(h).event, ip) then Last(h).time
    else LastAuth(Init(h), ip)
  }

  /**
   Every table entry is a block (lastBlock set) exactly when its count has reached the threshold, and
   then lastBlock is the time of the last authentication event.
   */
  lemma {:induction false} BlockIffThreshold(h: seq<Op>, ip: string)
    requires IsHistory(h) && ip in After(h).blockedIPs
    ensures var b := After(h).blockedIPs[ip];
            && b.count >= 1
            && (b.lastBlock != 0 <==> b.count >= BLOCK_THRESHOLD)
            && (b.lastBlock != 0 ==> b.lastBlock == LastAuth(h, ip) > HOUR)
    decreases |h|
  {
    if h != [] {
      HistoryPrefix(h);
      if ip in After(Init(h)).blockedIPs {
        BlockIffThreshold(Init(h), ip);
      }
    }
  }

  function Count(h: seq<Op>, ip: string): nat {
    if ip in After(h).blockedIPs then After(h).blockedIPs[ip].count else 0
  }

  /** The number of authentication events of the address in h. */
  function AuthEvents(h: seq<Op>, ip: string): nat {
    if h == [] then 0
    else AuthEvents(Init(h), ip) + if Last(h).Record? && IsAuthOf(Last(h).event, ip) then 1 else 0
  }

  ghost predicate NoCleanup(h: seq<Op>, from: nat) {
    forall k :: from <= k < |h| ==> h[k].Record?
  }

  /** h, or a prefix of it, ends with ten authentication events of the address uninterrupted by a cleanup, starting at `from`. */
  ghost predicate Burst(h: seq<Op>, ip: string, from: nat, to: nat) {
    from <= to <= |h| && NoCleanup(h[..to], from) && AuthEvents(h[from..to], ip) >= 10
  }

  /** From `to` on, every cleanup comes at most an hour after the address's last authentication event. */
  ghost predicate KeptAlive(h: seq<Op>, ip: string, to: nat) {
    forall k :: to <= k < |h| && h[k].Cleanup? ==> h[k].time - LastAuth(h[..k], ip) <= 3600000
  }

  /** How one operation changes the counter. */
  lemma {:induction false} CountUnfolds(h: seq<Op>, ip: string)
    requires IsHistory(h) && h != []
    ensures var before, last := Count(Init(h), ip), Last(h);
            Count(h, ip) ==
            if last.Record? then before + (if IsAuthOf(last.event, ip) then 1 else 0)
            else if before < BLOCK_THRESHOLD || last.time - LastAuth(Init(h), ip) > HOUR then 0
            else before
  {
    HistoryPrefix(h);
    if ip in After(Init(h)).blockedIPs {
      BlockIffThreshold(Init(h), ip);
    }
  }

  lemma {:induction false} AuthEventsAppend(h: seq<Op>, op: Op, ip: string)
    ensures AuthEvents(h + [op], ip) == AuthEvents(h, ip) + if op.Record? && IsAuthOf(op.event, ip) then 1 else 0
  {
    assert Init(h + [op]) == h;
  }

  /** Below the threshold the counter holds the authentication events since the last cleanup. */
  lemma {:induction false} CountSinceCleanup(h: seq<Op>, ip: string) returns (from: nat)
    requires IsHistory(h) && Count(h, ip) < BLOCK_THRESHOLD
    ensures from <= |h| && NoCleanup(h, from) && AuthEvents(h[from..], ip) == Count(h, ip)
    decreases |h|
  {
    from := |h|;
    if h == [] || Last(h).Cleanup? {
      assert h[from..] == [];
      if h != [] {
        CountUnfolds(h, ip);
      }
    } else {
      HistoryPrefix(h);
      CountUnfolds(h, ip);
      from := CountSinceCleanup(Init(h), ip);
      assert h[from..] == Init(h)[from..] + [Last(h)];
      AuthEventsAppend(Init(h)[from..], Last(h), ip);
    }
  }

  /** Without a cleanup the counter only grows. */
  lemma {:induction false} CountAtLeast(h: seq<Op>, ip: string, from: nat)
    requires IsHistory(h) && from <= |h| && NoCleanup(h, from)
    ensures Count(h, ip) >= AuthEvents(h[from..], ip)
    decreases |h|
  {
    if from == |h| {
      assert h[from..] == [];
    } else {
      HistoryPrefix(h);
      CountUnfolds(h, ip);
      CountAtLeast(Init(h), ip, from);
      assert h[from..] == Init(h)[from..] + [Last(h)];
      AuthEventsAppend(Init(h)[from..], Last(h), ip);
    }
  }

  lemma {:induction false} BurstReachesThreshold(h: seq<Op>, ip: string, from: nat, to: nat)
    requires IsHistory(h) && Burst(h, ip, from, to) && KeptAlive(h, ip, to)
    ensures Count(h, ip) >= BLOCK_THRESHOLD
    decreases |h|
  {
    if to == |h| {
      assert h[..to] == h && h[from..to] == h[from..];
      CountAtLeast(h, ip, from);
    } else {
      var init := Init(h);
      HistoryPrefix(h);
      CountUnfolds(h, ip);
      assert init[..to] == h[..to] && init[from..to] == h[from..to];
      assert h[..|init|] == init;
      forall k | to <= k < |init| && init[k].Cleanup? ensures init[k].time - LastAuth(init[..k], ip) <= HOUR {
        assert init[..k] == h[..k] && init[k] == h[k];
      }
      BurstReachesThreshold(init, ip, from, to);
    }
  }

  lemma {:induction false} ThresholdComesFromBurst(h: seq<Op>, ip: string) returns (from: nat, to: nat)
    requires IsHistory(h) && Count(h, ip) >= BLOCK_THRESHOLD
    ensures Burst(h, ip, from, to) && KeptAlive(h, ip, to)
    decreases |h|
  {
    var init, last := Init(h), Last(h);
    HistoryPrefix(h);
    CountUnfolds(h, ip);
    if Count(init, ip) < BLOCK_THRESHOLD {
      from := CountSinceCleanup(init, ip);
      to := |h|;
      TenthEvent(h, ip, from);
    } else {
      from, to := ThresholdComesFromBurst(init, ip);
      BurstExtends(h, ip, from, to);
    }
  }

  lemma {:induction false} TenthEvent(h: seq<Op>, ip: string, from: nat)
    requires h != [] && Last(h).Record? && from < |h| && NoCleanup(Init(h), from)
    requires AuthEvents(Init(h)[from..], ip) + (if IsAuthOf(Last(h).event, ip) then 1 else 0) >= BLOCK_THRESHOLD
    ensures Burst(h, ip, from, |h|) && KeptAlive(h, ip, |h|)
  {
    hide AuthEvents;
    assert h[..|h|] == h;
    assert h[from..|h|] == Init(h)[from..] + [Last(h)];
    AuthEventsAppend(Init(h)[from..], Last(h), ip);
  }

  lemma {:induction false} BurstExtends(h: seq<Op>, ip: string, from: nat, to: nat)
    requires h != [] && Burst(Init(h), ip, from, to) && KeptAlive(Init(h), ip, to)
    requires Last(h).Cleanup? ==> Last(h).time - LastAuth(Init(h), ip) <= HOUR
    ensures Burst(h, ip, from, to) && KeptAlive(h, ip, to)
  {
    hide LastAuth;
    hide AuthEvents;
    var init := Init(h);
    assert init[..to] == h[..to] && init[from..to] == h[from..to];
    forall k | to <= k < |h| && h[k].Cleanup? ensures h[k].time - LastAuth(h[..k], ip) <= HOUR {
      if k < |init| {
        assert init[..k] == h[..k] && init[k] == h[k];
      }
    }
  }

  /**
   Main result: an address is blocked exactly when some ten of its authentication events came
   without a cleanup in between, no later cleanup came more than an hour after its latest
   authentication event, and that event is itself less than an hour old.
   */
  lemma {:induction false} BlockedIff(h: seq<Op>, ip: string, now: int)
    requires IsHistory(h) && IsAfter(now, h)
    ensures IsIPBlocked(After(h), ip, now) <==>
            && now - LastAuth(h, ip) < 3600000
            && exists from, to :: Burst(h, ip, from, to) && KeptAlive(h, ip, to)
  {
    if ip in After(h).blockedIPs {
      BlockIffThreshold(h, ip);
    }
    if Count(h, ip) >= BLOCK_THRESHOLD {
      var from, to := ThresholdComesFromBurst(h, ip);
    }
    if from, to :| Burst(h, ip, from, to) && KeptAlive(h, ip, to) {
      BurstReachesThreshold(h, ip, from, to);
    }
  }

  /** However many there are, authentication events never block an address if no ten come between two cleanups. */
  lemma {:induction false} NeverTenNeverBlocked(h: seq<Op>, ip: string, now: int)
    requires IsHistory(h) && IsAfter(now, h)
    requires forall from, to :: 0 <= from <= to <= |h| && NoCleanup(h[..to], from) ==> AuthEvents(h[from..to], ip) < BLOCK_THRESHOLD
    ensures !IsIPBlocked(After(h), ip, now)
  {
    hide AuthEvents;
    hide NoCleanup;
    BlockedIff(h, ip, now);
  }

  /** The time between two cleanups. */
  const MINUTE: int := 60000

  /** n operations: in every minute the same event nine times and then a cleanup. */
  function Paced(e: Event, start: int, n: nat): (h: seq<Op>)
    ensures |h| == n
  {
    if n == 0 then []
    else
      var time := start + n / 10 * MINUTE;
      Paced(e, start, n - 1) + [if n % 10 == 0 then Cleanup(time) else Record(e, time)]
  }

  /** Nine authentication events a minute never block the address, for however long they go on. */
  lemma {:induction false} PacedEventsNeverBlock(e: Event, start: int, n: nat, now: int)
    requires e.kind == Authentication && HOUR < start && start + n / 10 * MINUTE <= now
    ensures var h := Paced(e, start, n);
            && IsHistory(h) && IsAfter(now, h)
            && (forall i, j :: 0 <= i < j < n && h[i].Cleanup? && h[j].Cleanup? ==> h[j].time - h[i].time >= MINUTE)
            && AuthEvents(h, Address(e)) == n - n / 10
            && !IsIPBlocked(After(h), Address(e), now)
  {
    PacedTimes(e, start, n);
    PacedCount(e, start, n);
    var h := Paced(e, start, n);
    if Address(e) in After(h).blockedIPs {
      BlockIffThreshold(h, Address(e));
    }
  }

  lemma {:induction false} PacedTimes(e: Event, start: int, n: nat)
    requires HOUR < start
    ensures var h := Paced(e, start, n);
            && IsHistory(h)
            && (forall i :: 0 <= i < n ==> h[i].time <= start + n / 10 * MINUTE)
            && (forall i, j :: 0 <= i < j < n && h[i].Cleanup? && h[j].Cleanup? ==> h[j].time - h[i].time >= MINUTE)
  {
    var h := Paced(e, start, n);
    hide Paced;
    forall i | 0 <= i < n ensures HOUR < h[i].time <= start + n / 10 * MINUTE {
      LaterMinute(start, i + 1, n);
      PacedOpAt(e, start, n, i);
    }
    forall i, j | 0 <= i < j < n
      ensures h[i].time <= h[j].time
      ensures h[i].Cleanup? && h[j].Cleanup? ==> h[j].time - h[i].time >= MINUTE
    {
      LaterMinute(start, i + 1, j + 1);
      PacedOpAt(e, start, n, i);
      PacedOpAt(e, start, n, j);
    }
  }

  lemma {:induction false} LaterMinute(start: int, i: nat, j: nat)
    requires i <= j
    ensures start <= start + i / 10 * MINUTE <= start + j / 10 * MINUTE
    ensures i < j && i % 10 == 0 && j % 10 == 0 ==> i / 10 * MINUTE + MINUTE <= j / 10 * MINUTE
  {
  }

  /** The operation at position i. */
  predicate IsPacedOp(op: Op, start: int, i: nat) {
    op.time == start + (i + 1) / 10 * MINUTE && (op.Cleanup? <==> (i + 1) % 10 == 0)
  }

  lemma {:induction false} PacedOpAt(e: Event, start: int, n: nat, i: nat)
    requires i < n
    ensures IsPacedOp(Paced(e, start, n)[i], start, i)
    decreases n
  {
    if i < n - 1 {
      PacedOpAt(e, start, n - 1, i);
    }
  }

  lemma {:induction false} PacedCount(e: Event, start: int, n: nat)
    requires e.kind == Authentication && HOUR < start
    ensures var h := Paced(e, start, n);
            AuthEvents(h, Address(e)) == n - n / 10 && Count(h, Address(e)) == n % 10
  {
    hide Count;
    hide AuthEvents;
    hide IsAuthOf;
    NoEvents(Address(e));
    if n > 0 {
      PacedTimes(e, start, n);
      hide IsHistory;
      PacedCount(e, start, n - 1);
      var h := Paced(e, start, n);
      var before, op := Init(h), Last(h);
      assert h == before + [op] && before == Paced(e, start, n - 1);
      AuthEventsAppend(before, op, Address(e));
      IsOwnAddress(e);
      CountUnfolds(h, Address(e));
    }
  }

  lemma {:induction false} IsOwnAddress(e: Event)
    requires e.kind == Authentication
    ensures IsAuthOf(e, Address(e))
  {
  }

  lemma {:induction false} NoEvents(ip: string)
    ensures Count([], ip) == 0 && AuthEvents([], ip) == 0
  {
  }

  // ---------- what a cleanup changes ----------

  /** The history without its cleanups. */
  function Records(h: seq<Op>): seq<Op> {
    if h == [] then []
    else if Last(h).Record? then Records(Init(h)) + [Last(h)]
    else Records(Init(h))
  }

  lemma {:induction false} LastHighOfRecords(h: seq<Op>, user: string)
    ensures LastHigh(Records(h), user) == LastHigh(h, user)
    decreases |h|
  {
    hide IsHighOf;
    if h != [] {
      LastHighOfRecords(Init(h), user);
      if Last(h).Record? {
        assert Last(Records(h)) == Last(h) && Init(Records(h)) == Records(Init(h));
      }
    }
  }

  lemma {:induction false} RecordsAreHistory(h: seq<Op>, now: int)
    requires IsHistory(h) && IsAfter(now, h)
    ensures IsHistory(Records(h)) && IsAfter(now, Records(h))
    decreases |h|
  {
    if h != [] {
      HistoryPrefix(h);
      RecordsAreHistory(Init(h), now);
      RecordsAreHistory(Init(h), Last(h).time);
    }
  }

  /** No cleanup, anywhere in the history, changes any answer about a user. */
  lemma {:induction false} CleanupsDoNotAffectSuspicion(h: seq<Op>, user: string, now: int)
    requires IsHistory(h) && IsAfter(now, h)
    ensures IsUserSuspicious(After(h), user, now) <==> IsUserSuspicious(After(Records(h)), user, now)
  {
    RecordsAreHistory(h, now);
    SuspicionIsRecentHigh(h, user, now);
    SuspicionIsRecentHigh(Records(h), user, now);
    LastHighMeaning(h, user, now);
    LastHighMeaning(Records(h), user, now);
    LastHighOfRecords(h, user);
  }

  /** No operation of `later` is an authentication event of the address. */
  ghost predicate NoAuthOf(later: seq<Op>, ip: string) {
    forall i :: 0 <= i < |later| ==> !(later[i].Record? && IsAuthOf(later[i].event, ip))
  }

  /** Until the address's next authentication event, its entry is the one it had, or has been cleaned up because the block expired. */
  lemma {:induction false} BlockUntilNextAuth(h: seq<Op>, later: seq<Op>, ip: string)
    requires NoAuthOf(later, ip)
    ensures var before, after := After(h).blockedIPs, After(h + later).blockedIPs;
            && (ip in after ==> ip in before && after[ip] == before[ip])
            && (ip in before && ip !in after ==>
                  exists i :: 0 <= i < |later| && later[i].time - before[ip].lastBlock > HOUR)
    decreases |later|
  {
    if later == [] {
      assert h + later == h;
    } else {
      var init := Init(later);
      BlockUntilNextAuth(h, init, ip);
      assert Init(h + later) == h + init && Last(h + later) == Last(later);
      var before := After(h).blockedIPs;
      if ip in before && ip !in After(h + init).blockedIPs {
        var i :| 0 <= i < |init| && init[i].time - before[ip].lastBlock > HOUR;
        assert later[i] == init[i];
      } else if ip in before && ip !in After(h + later).blockedIPs {
        assert later[|init|].time - before[ip].lastBlock > HOUR;
      }
    }
  }

  lemma {:induction false} SameAnswerUntilNextAuth(h: seq<Op>, later: seq<Op>, ip: string, now: int)
    requires NoAuthOf(later, ip) && forall i :: 0 <= i < |later| ==> later[i].time <= now
    ensures IsIPBlocked(After(h + later), ip, now) <==> IsIPBlocked(After(h), ip, now)
  {
    hide After;
    BlockUntilNextAuth(h, later, ip);
  }

  /** A cleanup does not change the answer about an address before its next authentication event. */
  lemma {:induction false} CleanupDoesNotUnblock(h: seq<Op>, cleanup: Op, later: seq<Op>, ip: string, now: int)
    requires cleanup.Cleanup? && cleanup.time <= now
    requires NoAuthOf(later, ip) && forall i :: 0 <= i < |later| ==> later[i].time <= now
    ensures IsIPBlocked(After(h + ([cleanup] + later)), ip, now) <==> IsIPBlocked(After(h + later), ip, now)
  {
    hide After;
    hide IsIPBlocked;
    SameAnswerUntilNextAuth(h, later, ip, now);
    SameAnswerUntilNextAuth(h, [cleanup] + later, ip, now);
  }

  // ---------- the log ----------

  function FullLog(h: seq<Op>): seq<Logged> {
    if h == [] then []
    else if Last(h).Record? then
      var e := Last(h).event;
      FullLog(Init(h)) + [Logged(e, if e.ip.Some? && e.ip.value != "" then e.ip.value else "unknown", Last(h).time)]
    else FullLog(Init(h))
  }

  lemma {:induction false} LogUnfolds(h: seq<Op>)
    ensures h == [] ==> After(h).events == [] && FullLog(h) == []
    ensures h != [] && Last(h).Cleanup? ==>
              var log := After(Init(h)).events;
              FullLog(h) == FullLog(Init(h)) &&
              After(h).events == if |log| > LOG_LIMIT then log[|log| - LOG_LIMIT..] else log
    ensures h != [] && Last(h).Record? ==>
              var x := Logged(Last(h).event, Address(Last(h).event), Last(h).time);
              FullLog(h) == FullLog(Init(h)) + [x] && After(h).events == After(Init(h)).events + [x]
  {
  }

  /** `log` is the end of `full`, and all of it unless it has 1000 elements or more. */
  ghost predicate IsRecentPart(log: seq<Logged>, full: seq<Logged>) {
    && |log| <= |full| && log == full[|full| - |log|..]
    && (|log| < 1000 ==> log == full)
  }

  lemma {:induction false} RecentPartGrows(log: seq<Logged>, full: seq<Logged>, x: Logged)
    requires IsRecentPart(log, full)
    ensures IsRecentPart(log + [x], full + [x])
  {
    assert log + [x] == (full + [x])[|full| - |log|..];
  }

  lemma {:induction false} RecentPartShrinks(log: seq<Logged>, full: seq<Logged>)
    requires IsRecentPart(log, full) && |log| > LOG_LIMIT
    ensures IsRecentPart(log[|log| - LOG_LIMIT..], full)
  {
    assert log[|log| - LOG_LIMIT..] == full[|full| - LOG_LIMIT..];
  }

  /** The log is the most recent part of all events ever recorded, and a cleanup bounds it. */
  lemma {:induction false} LogIsRecentPart(h: seq<Op>)
    ensures IsRecentPart(After(h).events, FullLog(h))
    ensures h != [] && Last(h).Cleanup? ==> |After(h).events| <= 1000
    decreases |h|
  {
    hide After;
    hide FullLog;
    LogUnfolds(h);
    if h == [] {
      assert IsRecentPart([], []);
    } else {
      hide IsRecentPart;
      LogIsRecentPart(Init(h));
      var log, full := After(Init(h)).events, FullLog(Init(h));
      if Last(h).Record? {
        RecentPartGrows(log, full, Logged(Last(h).event, Address(Last(h).event), Last(h).time));
      } else if |log| > LOG_LIMIT {
        RecentPartShrinks(log, full);
      }
    }
  }
}
