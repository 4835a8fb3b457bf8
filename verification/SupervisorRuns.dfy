/** Whole runs of the supervisor: pids follow states, and the crash-loop guard. */
module SupervisorRuns {
  import opened Options
  import opened Supervisor

  // ---- events -------------------------------------------------------------------------------

  /** on_child_exit; ok means a normal exit with status 0. */
  function OnChildExit(s: Svc, ok: bool, now: int): Svc {
    if s.stopReq then s.(pid := 0, stopReq := false, state := Stopped)
    else if s.oneshot then s.(pid := 0, state := if ok then Done else Failed)
    else
      var over := now - s.winStart >= FAIL_WINDOW_MS;
      var n := (if over then 0 else s.failCount) + 1;
      var t := s.(pid := 0, winStart := if over then now else s.winStart, failCount := n);
      if n > MAX_FAILS then t.(state := Failed) else t.(state := Waiting, backoffUntil := now + BACKOFF_MS)
  }

  datatype Verb = StartVerb | StopVerb | RestartVerb

  /** start, stop and restart in handle_command */
  function Command(s: Svc, v: Verb): Svc {
    match v
    case StartVerb => if s.pid > 0 then s else s.(state := Waiting, backoffUntil := 0, stopReq := false, failCount := 0)
    case StopVerb => if s.pid > 0 then s.(stopReq := true) else s.(state := Stopped)
    case RestartVerb => if s.pid > 0 then s else s.(state := Waiting, backoffUntil := 0, failCount := 0)
  }

  /** by_pid from slot i on */
  function ByPid(svcs: seq<Svc>, pid: int, i: nat): (r: Option<nat>)
    requires i <= |svcs|
    ensures r.Some? ==> i <= r.value < |svcs| && svcs[r.value].pid == pid
    decreases |svcs| - i
  {
    if i == |svcs| then None else if svcs[i].pid == pid then Some(i) else ByPid(svcs, pid, i + 1)
  }

  datatype Event =
    | PassAt(now: int, paths: set<string>, pids: seq<int>)
    | Exit(pid: int, ok: bool, now: int)
    | Ctl(verb: Verb, name: string)

  predicate Enabled(svcs: seq<Svc>, e: Event) {
    match e
    case PassAt(_, _, pids) => |pids| == |svcs|
    case Exit(pid, _, _) => pid > 0
    case Ctl(_, _) => true
  }

  function Apply(svcs: seq<Svc>, e: Event): (r: seq<Svc>)
    requires Enabled(svcs, e)
    ensures |r| == |svcs|
  {
    match e
    case PassAt(now, paths, pids) => Pass(svcs, now, paths, pids)
    case Exit(pid, ok, now) =>
      (match ByPid(svcs, pid, 0)
       case None => svcs
       case Some(i) => svcs[i := OnChildExit(svcs[i], ok, now)])
    case Ctl(v, name) =>
      match ByName(svcs, name, 0)
      case None => svcs
      case Some(i) => svcs[i := Command(svcs[i], v)]
  }

  predicate IsNew(s: Svc) {
    s.pid == 0 && s.state == Waiting && s.started == 0 && s.backoffUntil == 0 && s.failCount == 0 && s.winStart == 0 && !s.stopReq
  }

  predicate RunOk(svcs: seq<Svc>, es: seq<Event>)
    decreases |es|, 0
  {
    if es == [] then forall i :: 0 <= i < |svcs| ==> IsNew(svcs[i])
    else var n := |es| - 1; RunOk(svcs, es[..n]) && Enabled(After(svcs, es[..n]), es[n])
  }

  /** The table after the events es. */
  function After(svcs: seq<Svc>, es: seq<Event>): (r: seq<Svc>)
    requires RunOk(svcs, es)
    ensures |r| == |svcs|
    decreases |es|, 1
  {
    if es == [] then svcs else var n := |es| - 1; Apply(After(svcs, es[..n]), es[n])
  }

  // ---- pids follow states -------------------------------------------------------------------

  predicate PidOk(s: Svc) { s.pid > 0 <==> s.state == Running || s.state == Up }

  lemma ApplyKeepsPids(svcs: seq<Svc>, e: Event)
    requires Enabled(svcs, e) && forall i :: 0 <= i < |svcs| ==> PidOk(svcs[i])
    ensures forall i :: 0 <= i < |svcs| ==> PidOk(Apply(svcs, e)[i])
  {
    hide DepsReady;
  }

  /** In every run, commands included, a service has a pid exactly while it is running or up. */
  lemma {:induction false} PidsFollowStates(svcs: seq<Svc>, es: seq<Event>)
    requires RunOk(svcs, es)
    ensures forall i :: 0 <= i < |svcs| ==> PidOk(After(svcs, es)[i])
    decreases |es|
  {
    if es != [] {
      var n := |es| - 1;
      PidsFollowStates(svcs, es[..n]);
      ApplyKeepsPids(After(svcs, es[..n]), es[n]);
    }
  }

  // ---- deaths -------------------------------------------------------------------------------

  predicate Automatic(es: seq<Event>) { forall k :: 0 <= k < |es| ==> !es[k].Ctl? }

  function Clock(es: seq<Event>): int
    requires Automatic(es)
  {
    if es == [] then 0 else es[|es| - 1].now
  }

  predicate TimeFlows(es: seq<Event>)
    requires Automatic(es)
    decreases |es|
  {
    es == [] || (TimeFlows(es[..|es| - 1]) && es[|es| - 1].now >= Clock(es[..|es| - 1]))
  }

  /** When daemon i died and was not given up on. */
  function Deaths(svcs: seq<Svc>, es: seq<Event>, i: nat): (ds: seq<int>)
    requires RunOk(svcs, es) && Automatic(es) && i < |svcs|
    decreases |es|
  {
    if es == [] then []
    else
      var n := |es| - 1;
      var table := After(svcs, es[..n]);
      var ds := Deaths(svcs, es[..n], i);
      if es[n].Exit? && ByPid(table, es[n].pid, 0) == Some(i) && Apply(table, es[n])[i].state != Failed
      then ds + [es[n].now] else ds
  }

  /** Deaths are at least a backoff apart. */
  ghost predicate Spaced(ds: seq<int>) {
    forall k :: 0 < k < |ds| ==> ds[k] >= ds[k - 1] + BACKOFF_MS
  }

  lemma {:induction false} SpacedFar(ds: seq<int>, j: nat, k: nat)
    requires Spaced(ds) && j <= k < |ds|
    ensures ds[k] >= ds[j] + (k - j) * BACKOFF_MS
    decreases k
  {
    if j < k {
      SpacedFar(ds, j, k - 1);
    }
  }

  ghost predicate WideSpans(ds: seq<int>) {
    forall k, m :: 0 <= k && m == k + 10 && m < |ds| ==> ds[m] - ds[k] >= FAIL_WINDOW_MS + 5 * BACKOFF_MS
  }

  /** The current window begins with death b; the window before it began with death p. */
  predicate Windows(s: Svc, ds: seq<int>, p: nat) {
    && 0 <= s.failCount <= |ds| && s.failCount <= MAX_FAILS
    && var b := |ds| - s.failCount;
    && (b > 0 ==> s.failCount >= 1 && s.winStart == ds[b])
    && p <= b <= p + MAX_FAILS && (p == 0 || (p < |ds| && s.winStart >= ds[p] + FAIL_WINDOW_MS))
  }

  /** What the fields of a daemon say about its past. */
  ghost predicate Guard(s: Svc, ds: seq<int>, clock: int) {
    && !s.stopReq && !s.oneshot && PidOk(s) && Spaced(ds) && WideSpans(ds)
    && (ds != [] ==> ds[|ds| - 1] <= clock)
    && s.state != Done && s.state != Stopped
    && (s.state == Waiting && ds != [] ==> s.backoffUntil == ds[|ds| - 1] + BACKOFF_MS)
    && ((s.state == Running || s.state == Up) ==> s.started <= clock && (ds != [] ==> s.started >= ds[|ds| - 1] + BACKOFF_MS))
    && (s.state != Failed ==> exists p: nat :: Windows(s, ds, p))
  }

  lemma PassKeepsGuard(svcs: seq<Svc>, s: Svc, ds: seq<int>, clock: int, now: int, paths: set<string>, pid: int)
    requires Guard(s, ds, clock) && now >= clock
    ensures Guard(PassOne(svcs, s, now, paths, pid), ds, now)
  {
    hide DepsReady, Spaced, WideSpans;
    if s.state != Failed {
      var p: nat :| Windows(s, ds, p);
      assert Windows(PassOne(svcs, s, now, paths, pid), ds, p);
    }
  }

  /** A death that is not the last straw. */
  lemma DeathKeepsGuard(s: Svc, ds: seq<int>, clock: int, ok: bool, now: int)
    requires Guard(s, ds, clock) && now >= clock && (s.state == Running || s.state == Up)
    ensures var t := OnChildExit(s, ok, now); if t.state != Failed then Guard(t, ds + [now], now) else Guard(t, ds, now)
  {
    hide WideSpans, Spaced;
    var t := OnChildExit(s, ok, now);
    if t.state != Failed {
      var p: nat :| Windows(s, ds, p);
      var b := |ds| - s.failCount;
      var es := ds + [now];
      SpacedAppend(ds, now);
      if now - s.winStart >= FAIL_WINDOW_MS {
        assert Windows(t, es, b);
        SpansAppend(s, t, ds, now, b);
      } else {
        assert Windows(t, es, p);
        SpansAppend(s, t, ds, now, p);
      }
    }
  }

  lemma SpacedAppend(ds: seq<int>, now: int)
    requires Spaced(ds) && (ds != [] ==> now >= ds[|ds| - 1] + BACKOFF_MS)
    ensures Spaced(ds + [now])
  {
  }

  lemma SpansAppend(s: Svc, t: Svc, ds: seq<int>, now: int, p: nat)
    requires WideSpans(ds) && Spaced(ds + [now]) && Windows(t, ds + [now], p)
    ensures WideSpans(ds + [now])
  {
    var es, m := ds + [now], |ds|;
    if m >= 10 {
      var k, b := m - 10, m + 1 - t.failCount;
      SpacedFar(es, k, p);
      SpacedFar(es, b, m);
    }
  }

  /** Nothing happened to this service. */
  lemma QuietKeepsGuard(s: Svc, ds: seq<int>, clock: int, now: int)
    requires Guard(s, ds, clock) && now >= clock
    ensures Guard(s, ds, now)
  {
    hide Spaced, WideSpans, Windows;
  }

  lemma NewGuard(s: Svc)
    requires IsNew(s) && !s.oneshot
    ensures Guard(s, [], 0)
  {
    assert Windows(s, [], 0);
  }

  lemma {:induction false} GuardHolds(svcs: seq<Svc>, es: seq<Event>, i: nat)
    requires RunOk(svcs, es) && Automatic(es) && TimeFlows(es) && i < |svcs| && !svcs[i].oneshot
    ensures Guard(After(svcs, es)[i], Deaths(svcs, es, i), Clock(es))
    decreases |es|
  {
    hide Guard, Pass;
    if es == [] {
      NewGuard(svcs[i]);
    } else {
      var n := |es| - 1;
      var before, e := es[..n], es[n];
      var table, ds := After(svcs, before), Deaths(svcs, before, i);
      GuardHolds(svcs, before, i);
      match e {
        case PassAt(now, paths, pids) =>
          PassAtSlot(table, now, paths, pids, i);
          PassKeepsGuard(table, table[i], ds, Clock(before), now, paths, pids[i]);
        case Exit(pid, ok, now) =>
          if ByPid(table, pid, 0) == Some(i) {
            RunningByPid(table[i], ds, Clock(before));
            DeathKeepsGuard(table[i], ds, Clock(before), ok, now);
          } else {
            QuietKeepsGuard(table[i], ds, Clock(before), now);
          }
      }
    }
  }

  lemma PassAtSlot(svcs: seq<Svc>, now: int, paths: set<string>, pids: seq<int>, i: nat)
    requires |pids| == |svcs| && i < |svcs|
    ensures Pass(svcs, now, paths, pids)[i] == PassOne(svcs, svcs[i], now, paths, pids[i])
  {
  }

  lemma RunningByPid(s: Svc, ds: seq<int>, clock: int)
    requires Guard(s, ds, clock) && s.pid > 0
    ensures s.state == Running || s.state == Up
  {
  }

  /** Crash-loop bound: in every run without commands, the deaths of a daemon that is not given up on
      are at least BACKOFF_MS apart, and any 11 in a row span at least FAIL_WINDOW_MS and five backoffs. */
  lemma CrashLoopBound(svcs: seq<Svc>, es: seq<Event>, i: nat)
    requires RunOk(svcs, es) && Automatic(es) && TimeFlows(es) && i < |svcs| && !svcs[i].oneshot
    ensures var ds := Deaths(svcs, es, i); Spaced(ds) && WideSpans(ds)
  {
    hide Spaced, WideSpans, Deaths, After;
    GuardHolds(svcs, es, i);
  }

  /** Every respawn waits out the backoff: while a daemon runs, its current run began at least
      BACKOFF_MS after its last death. */
  lemma RespawnAfterBackoff(svcs: seq<Svc>, es: seq<Event>, i: nat)
    requires RunOk(svcs, es) && Automatic(es) && TimeFlows(es) && i < |svcs| && !svcs[i].oneshot
    ensures var s, ds := After(svcs, es)[i], Deaths(svcs, es, i);
      s.pid > 0 && ds != [] ==> s.started >= ds[|ds| - 1] + BACKOFF_MS
  {
    hide Spaced, WideSpans, Deaths, After;
    GuardHolds(svcs, es, i);
  }

  // ---- when the guard gives up --------------------------------------------------------------

  /** When the current window opened, given the times of the deaths so far: at 0 before any, and
      anew with each death that comes FAIL_WINDOW_MS or more after the last opening. */
  function Opening(ds: seq<int>): int
    decreases |ds|
  {
    if ds == [] then 0
    else
      var o, t := Opening(ds[..|ds| - 1]), ds[|ds| - 1];
      if t - o >= FAIL_WINDOW_MS then t else o
  }

  /** How many deaths the current window holds. */
  function InWindow(ds: seq<int>): (n: nat)
    ensures n <= |ds|
    decreases |ds|
  {
    if ds == [] then 0
    else if ds[|ds| - 1] - Opening(ds[..|ds| - 1]) >= FAIL_WINDOW_MS then 1
    else InWindow(ds[..|ds| - 1]) + 1
  }

  /** The deaths in the window are the last ones, none FAIL_WINDOW_MS after its opening, and a window
      that is not the first opened with the first of them. */
  lemma {:induction false} WindowHolds(ds: seq<int>)
    ensures var b := |ds| - InWindow(ds);
      && (forall k :: b <= k < |ds| ==> ds[k] - Opening(ds) < FAIL_WINDOW_MS)
      && (b > 0 ==> b < |ds| && Opening(ds) == ds[b] && ds[b] - Opening(ds[..b]) >= FAIL_WINDOW_MS)
      && (Opening(ds) == 0 || (b < |ds| && Opening(ds) == ds[b]))
    decreases |ds|
  {
    if ds != [] {
      var n := |ds| - 1;
      WindowHolds(ds[..n]);
      var b := |ds| - InWindow(ds);
      if b <= n {
        assert ds[..n][..b] == ds[..b];
      }
    }
  }

  predicate Counts(s: Svc, ds: seq<int>) {
    && !s.stopReq && !s.oneshot && PidOk(s)
    && (s.state != Failed ==> s.winStart == Opening(ds) && s.failCount == InWindow(ds))
  }

  lemma DeathCounts(s: Svc, ds: seq<int>, ok: bool, now: int)
    requires Counts(s, ds) && s.pid > 0
    ensures var t := OnChildExit(s, ok, now);
      && (t.state == Failed <==> InWindow(ds + [now]) > MAX_FAILS)
      && (if t.state == Failed then Counts(t, ds) else Counts(t, ds + [now]))
  {
    assert (ds + [now])[..|ds|] == ds;
  }

  lemma {:induction false} CountsHold(svcs: seq<Svc>, es: seq<Event>, i: nat)
    requires RunOk(svcs, es) && Automatic(es) && i < |svcs| && !svcs[i].oneshot
    ensures Counts(After(svcs, es)[i], Deaths(svcs, es, i))
    decreases |es|
  {
    hide DepsReady, Opening, InWindow, Pass;
    if es == [] {
      NoDeaths();
    } else {
      var n := |es| - 1;
      var before, e := es[..n], es[n];
      var table, ds := After(svcs, before), Deaths(svcs, before, i);
      CountsHold(svcs, before, i);
      match e {
        case PassAt(now, paths, pids) =>
          PassAtSlot(table, now, paths, pids, i);
        case Exit(pid, ok, now) =>
          if ByPid(table, pid, 0) == Some(i) {
            DeathCounts(table[i], ds, ok, now);
          }
      }
    }
  }

  lemma NoDeaths()
    ensures Opening([]) == 0 && InWindow([]) == 0
  {
  }

  /** In every run without commands, a daemon's next death makes the supervisor give up on it exactly
      when it is at least the (MAX_FAILS + 1)-th since the window opened. */
  lemma GivesUpExactly(svcs: seq<Svc>, es: seq<Event>, i: nat, pid: int, ok: bool, now: int)
    requires RunOk(svcs, es) && Automatic(es) && i < |svcs| && !svcs[i].oneshot
    requires pid > 0 && ByPid(After(svcs, es), pid, 0) == Some(i)
    ensures Apply(After(svcs, es), Exit(pid, ok, now))[i].state == Failed
       <==> InWindow(Deaths(svcs, es, i) + [now]) > MAX_FAILS
  {
    hide Opening, InWindow, Deaths, After;
    CountsHold(svcs, es, i);
    DeathCounts(After(svcs, es)[i], Deaths(svcs, es, i), ok, now);
  }

  // ---- ten deaths in nine seconds -----------------------------------------------------------

  /** A daemon that is started at once and dies at once, n times, a backoff apart, from 5000 ms on. */
  function CrashRun(n: nat): (es: seq<Event>)
    ensures |es| == 2 * n
  {
    if n == 0 then []
    else
      var t := 4000 + BACKOFF_MS * n;
      CrashRun(n - 1) + [PassAt(t, {}, [7]), Exit(7, false, t)]
  }

  function Crashed(s: Svc, n: nat): Svc {
    if n == 0 then s
    else s.(pid := 0, state := Waiting, started := 4000 + BACKOFF_MS * n, backoffUntil := 5000 + BACKOFF_MS * n,
            winStart := if n <= 5 then 0 else 10000, failCount := if n <= 5 then n else n - 5)
  }

  function CrashTimes(n: nat): (ds: seq<int>)
    ensures |ds| == n
  {
    seq(n, k => 5000 + BACKOFF_MS * k)
  }

  lemma OneCrash(s: Svc, n: nat)
    requires IsNew(s) && !s.oneshot && s.after == [] && s.ready == "" && 1 <= n <= 10
    ensures var t := 4000 + BACKOFF_MS * n; var up := Pass([Crashed(s, n - 1)], t, {}, [7]);
      ByPid(up, 7, 0) == Some(0) && up[0 := OnChildExit(up[0], false, t)] == [Crashed(s, n)]
  {
  }

  lemma {:induction false} CrashRunIs(s: Svc, n: nat)
    requires IsNew(s) && !s.oneshot && s.after == [] && s.ready == "" && n <= 10
    ensures RunOk([s], CrashRun(n)) && Automatic(CrashRun(n)) && TimeFlows(CrashRun(n))
    ensures Clock(CrashRun(n)) == if n == 0 then 0 else 4000 + BACKOFF_MS * n
    ensures After([s], CrashRun(n)) == [Crashed(s, n)] && Deaths([s], CrashRun(n), 0) == CrashTimes(n)
    decreases n
  {
    hide Pass, ByPid, OnChildExit, RunOk, Deaths, TimeFlows, Automatic, After, Clock;
    if n == 0 {
      EmptyRun(s);
    } else {
      CrashRunIs(s, n - 1);
      CrashStep(s, n, CrashRun(n - 1));
      assert CrashTimes(n) == CrashTimes(n - 1) + [4000 + BACKOFF_MS * n];
    }
  }

  /** One more start and death. */
  lemma CrashStep(s: Svc, n: nat, es: seq<Event>)
    requires IsNew(s) && !s.oneshot && s.after == [] && s.ready == "" && 1 <= n <= 10
    requires RunOk([s], es) && Automatic(es) && TimeFlows(es) && Clock(es) <= 4000 + BACKOFF_MS * n && After([s], es) == [Crashed(s, n - 1)]
    ensures var t := 4000 + BACKOFF_MS * n; var fs := es + [PassAt(t, {}, [7]), Exit(7, false, t)];
      && RunOk([s], fs) && Automatic(fs) && TimeFlows(fs) && Clock(fs) == t
      && After([s], fs) == [Crashed(s, n)] && Deaths([s], fs, 0) == Deaths([s], es, 0) + [t]
  {
    hide Pass, ByPid, OnChildExit, RunOk, Deaths, TimeFlows, Automatic, After, Clock;
    var t := 4000 + BACKOFF_MS * n;
    OneCrash(s, n);
    RunSnoc([s], es, PassAt(t, {}, [7]), 0);
    RunSnoc([s], es + [PassAt(t, {}, [7])], Exit(7, false, t), 0);
    assert es + [PassAt(t, {}, [7]), Exit(7, false, t)] == (es + [PassAt(t, {}, [7])]) + [Exit(7, false, t)];
  }

  lemma EmptyRun(s: Svc)
    requires IsNew(s)
    ensures RunOk([s], []) && Automatic([]) && TimeFlows([]) && Clock([]) == 0
    ensures After([s], []) == [s] && Deaths([s], [], 0) == []
  {
  }

  /** A run and one more event. */
  lemma RunSnoc(svcs: seq<Svc>, es: seq<Event>, e: Event, i: nat)
    requires RunOk(svcs, es) && Enabled(After(svcs, es), e) && i < |svcs|
    requires Automatic(es) && TimeFlows(es) && !e.Ctl? && e.now >= Clock(es)
    ensures RunOk(svcs, es + [e]) && Automatic(es + [e]) && TimeFlows(es + [e]) && Clock(es + [e]) == e.now
    ensures After(svcs, es + [e]) == Apply(After(svcs, es), e)
    ensures Deaths(svcs, es + [e], i) == Deaths(svcs, es, i) +
      if e.Exit? && ByPid(After(svcs, es), e.pid, 0) == Some(i) && Apply(After(svcs, es), e)[i].state != Failed then [e.now] else []
  {
    hide Apply, ByPid, Enabled;
    assert (es + [e])[..|es|] == es;
  }

  /** So more than MAX_FAILS deaths within FAIL_WINDOW_MS need not make it give up: here are ten within
      nine seconds, and no eleven can come as close. */
  lemma TenInNineSeconds(s: Svc)
    requires IsNew(s) && !s.oneshot && s.after == [] && s.ready == ""
    ensures RunOk([s], CrashRun(10)) && Automatic(CrashRun(10)) && TimeFlows(CrashRun(10))
    ensures var ds := Deaths([s], CrashRun(10), 0); |ds| == 10 && ds[9] - ds[0] == 9000 < FAIL_WINDOW_MS
    ensures After([s], CrashRun(10))[0].state == Waiting
  {
    hide Deaths, After, RunOk, CrashRun;
    CrashRunIs(s, 10);
  }
}
