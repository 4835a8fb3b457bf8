/** What init promises about services, said of what happened: exits, passes, commands and names. */
module SupervisorLaws {
  import opened Options
  import opened Supervisor
  import opened SupervisorRuns

  // ---- names ---------------------------------------------------------------------------------

  /** Loading skips a name that is already there. */
  ghost predicate Distinct(svcs: seq<Svc>) {
    forall i, j :: 0 <= i < j < |svcs| ==> svcs[i].name != svcs[j].name
  }

  predicate SameConf(s: Svc, t: Svc) {
    s.name == t.name && s.oneshot == t.oneshot && s.after == t.after && s.ready == t.ready
  }

  ghost predicate SameTable(a: seq<Svc>, b: seq<Svc>) {
    |a| == |b| && forall i :: 0 <= i < |a| ==> SameConf(a[i], b[i])
  }

  lemma {:induction false} RunKeepsConf(svcs: seq<Svc>, es: seq<Event>)
    requires RunOk(svcs, es)
    ensures SameTable(svcs, After(svcs, es))
    decreases |es|
  {
    hide DepsReady;
    if es != [] {
      var n := |es| - 1;
      RunKeepsConf(svcs, es[..n]);
      ApplyKeepsConf(After(svcs, es[..n]), es[n]);
    }
  }

  lemma ApplyKeepsConf(svcs: seq<Svc>, e: Event)
    requires Enabled(svcs, e)
    ensures SameTable(svcs, Apply(svcs, e))
  {
    hide DepsReady;
  }

  /** A name of the table is up exactly when its service is; a name that is not there counts as up. */
  lemma DepUpIs(svcs: seq<Svc>, name: string)
    requires Distinct(svcs)
    ensures DepUp(svcs, name) <==> forall j :: 0 <= j < |svcs| && svcs[j].name == name ==> IsUp(svcs[j])
  {
    match ByName(svcs, name, 0) {
      case None =>
      case Some(i) =>
        assert forall j :: 0 <= j < |svcs| && svcs[j].name == name ==> j == i;
    }
  }

  lemma DistinctStays(a: seq<Svc>, b: seq<Svc>)
    requires Distinct(a) && SameTable(a, b)
    ensures Distinct(b)
  {
  }

  // ---- oneshots ------------------------------------------------------------------------------

  /** Whether each exit of service i so far was a normal one with status 0. */
  function Exits(svcs: seq<Svc>, es: seq<Event>, i: nat): (oks: seq<bool>)
    requires RunOk(svcs, es)
    decreases |es|
  {
    if es == [] then []
    else
      var n := |es| - 1;
      var oks := Exits(svcs, es[..n], i);
      if es[n].Exit? && ByPid(After(svcs, es[..n]), es[n].pid, 0) == Some(i) then oks + [es[n].ok] else oks
  }

  predicate OnceOk(s: Svc, oks: seq<bool>) {
    && s.oneshot && !s.stopReq && PidOk(s)
    && (oks == [] ==> s.state == Waiting || s.state == Running)
    && (oks != [] ==> |oks| == 1 && s.pid == 0 && s.state == if oks[0] then Done else Failed)
  }

  lemma {:induction false} OnceHolds(svcs: seq<Svc>, es: seq<Event>, i: nat)
    requires RunOk(svcs, es) && Automatic(es) && i < |svcs| && svcs[i].oneshot
    ensures OnceOk(After(svcs, es)[i], Exits(svcs, es, i))
    decreases |es|
  {
    hide DepsReady, Pass;
    if es != [] {
      var n := |es| - 1;
      var table, e := After(svcs, es[..n]), es[n];
      OnceHolds(svcs, es[..n], i);
      match e {
        case PassAt(now, paths, pids) => PassAtSlot(table, now, paths, pids, i);
        case Exit(pid, ok, now) =>
      }
    }
  }

  /** In every run without commands a oneshot exits at most once, and it counts as up exactly when
      that exit was a normal one with status 0. Once it has exited it has no process again. */
  lemma OneshotOnce(svcs: seq<Svc>, es: seq<Event>, i: nat)
    requires RunOk(svcs, es) && Automatic(es) && i < |svcs| && svcs[i].oneshot && Distinct(svcs)
    ensures |Exits(svcs, es, i)| <= 1
    ensures DepUp(After(svcs, es), svcs[i].name) <==> Exits(svcs, es, i) == [true]
    ensures Exits(svcs, es, i) != [] ==> After(svcs, es)[i].pid == 0
  {
    OnceHolds(svcs, es, i);
    OwnName(svcs, es, i);
  }

  lemma OwnName(svcs: seq<Svc>, es: seq<Event>, i: nat)
    requires RunOk(svcs, es) && i < |svcs| && Distinct(svcs)
    ensures DepUp(After(svcs, es), svcs[i].name) <==> IsUp(After(svcs, es)[i])
  {
    hide IsUp, DepUp;
    var table := After(svcs, es);
    RunKeepsConf(svcs, es);
    DistinctStays(svcs, table);
    DepUpIs(table, svcs[i].name);
    assert table[i].name == svcs[i].name;
  }

  lemma {:induction false} ExitsGrow(svcs: seq<Svc>, es: seq<Event>, more: seq<Event>, i: nat)
    requires RunOk(svcs, es + more)
    ensures RunOk(svcs, es) && Exits(svcs, es, i) <= Exits(svcs, es + more, i)
    decreases |more|
  {
    if more == [] {
      assert es + more == es;
    } else {
      var n := |more| - 1;
      assert (es + more)[..|es| + n] == es + more[..n];
      ExitsGrow(svcs, es, more[..n], i);
    }
  }

  /** Whatever follows without commands: it stays up, or stays down, and is never started again. */
  lemma OneshotSettles(svcs: seq<Svc>, es: seq<Event>, more: seq<Event>, i: nat, ok: bool)
    requires RunOk(svcs, es) && RunOk(svcs, es + more) && Automatic(es + more) && i < |svcs| && svcs[i].oneshot && Distinct(svcs)
    requires ok in Exits(svcs, es, i)
    ensures After(svcs, es + more)[i].pid == 0 && (DepUp(After(svcs, es + more), svcs[i].name) <==> ok)
  {
    hide DepUp;
    ExitsGrow(svcs, es, more, i);
    OneshotOnce(svcs, es + more, i);
  }

  // ---- daemons ---------------------------------------------------------------------------------

  /** The passes since service i was last started, the starting one first. */
  function Watched(svcs: seq<Svc>, es: seq<Event>, i: nat): (ps: seq<(int, set<string>)>)
    requires RunOk(svcs, es) && i < |svcs|
    decreases |es|
  {
    if es == [] || After(svcs, es)[i].pid <= 0 then []
    else
      var n := |es| - 1;
      var ps := Watched(svcs, es[..n], i);
      match es[n]
      case PassAt(now, paths, _) => ps + [(now, paths)]
      case Exit(_, _, _) => ps
      case Ctl(_, _) => ps
  }

  /** Some pass found the readiness path there, or came READY_TIMEOUT_MS or more after the start. */
  ghost predicate SeenReady(ready: string, ps: seq<(int, set<string>)>) {
    exists k :: 0 <= k < |ps| && (ready == "" || ready in ps[k].1 || ps[k].0 >= ps[0].0 + 6000)
  }

  ghost predicate DaemonOk(s: Svc, ps: seq<(int, set<string>)>) {
    && PidOk(s) && (s.pid > 0 ==> ps != [] && s.started == ps[0].0)
    && (s.pid > 0 && !s.oneshot ==> (s.state == Up <==> SeenReady(s.ready, ps)))
  }

  lemma {:induction false} DaemonHolds(svcs: seq<Svc>, es: seq<Event>, i: nat)
    requires RunOk(svcs, es) && i < |svcs|
    ensures DaemonOk(After(svcs, es)[i], Watched(svcs, es, i))
    decreases |es|
  {
    hide DepsReady, Pass, DaemonOk;
    if es == [] {
      NewDaemon(svcs[i]);
    } else {
      var n := |es| - 1;
      var table, e, ps := After(svcs, es[..n]), es[n], Watched(svcs, es[..n], i);
      DaemonHolds(svcs, es[..n], i);
      match e {
        case PassAt(now, paths, pids) =>
          PassAtSlot(table, now, paths, pids, i);
          PassWatched(table, table[i], ps, now, paths, pids[i]);
        case Exit(pid, ok, now) => ExitWatched(table[i], ps, ok, now);
        case Ctl(v, _) => CommandWatched(table[i], ps, v);
      }
    }
  }

  lemma NewDaemon(s: Svc)
    requires IsNew(s)
    ensures DaemonOk(s, [])
  {
  }

  lemma PassWatched(svcs: seq<Svc>, s: Svc, ps: seq<(int, set<string>)>, now: int, paths: set<string>, pid: int)
    requires DaemonOk(s, ps) && (s.pid <= 0 ==> ps == [])
    ensures var t := PassOne(svcs, s, now, paths, pid); DaemonOk(t, if t.pid > 0 then ps + [(now, paths)] else [])
  {
    hide DepsReady, SeenReady;
    SeenOneMore(s.ready, ps, now, paths);
  }

  lemma SeenOneMore(ready: string, ps: seq<(int, set<string>)>, now: int, paths: set<string>)
    ensures SeenReady(ready, ps + [(now, paths)])
      <==> SeenReady(ready, ps) || ready == "" || ready in paths || (ps != [] && now >= ps[0].0 + 6000)
    ensures !SeenReady(ready, [])
  {
    var qs := ps + [(now, paths)];
    assert qs[|ps|] == (now, paths) && forall k :: 0 <= k < |ps| ==> qs[k] == ps[k];
  }

  lemma ExitWatched(s: Svc, ps: seq<(int, set<string>)>, ok: bool, now: int)
    requires DaemonOk(s, ps)
    ensures DaemonOk(OnChildExit(s, ok, now), [])
  {
  }

  lemma CommandWatched(s: Svc, ps: seq<(int, set<string>)>, v: Verb)
    requires DaemonOk(s, ps)
    ensures var t := Command(s, v); DaemonOk(t, ps) && t.pid == s.pid
  {
  }

  /** In every run, commands included, a daemon that has a process counts as up exactly when some pass
      since its start found its readiness path, or came READY_TIMEOUT_MS or more after the start; and a
      daemon without a process does not count as up. */
  lemma DaemonUpExactly(svcs: seq<Svc>, es: seq<Event>, i: nat)
    requires RunOk(svcs, es) && i < |svcs| && !svcs[i].oneshot && Distinct(svcs)
    ensures DepUp(After(svcs, es), svcs[i].name) <==> After(svcs, es)[i].pid > 0 && SeenReady(svcs[i].ready, Watched(svcs, es, i))
  {
    hide DepUp, SeenReady, Watched, After;
    DaemonHolds(svcs, es, i);
    OwnName(svcs, es, i);
    RunKeepsConf(svcs, es);
  }

  // ---- when a pass starts a service ------------------------------------------------------------------

  /** From when on service i may be started: at once, or a backoff after its last death. */
  function DueAt(svcs: seq<Svc>, es: seq<Event>, i: nat): int
    requires RunOk(svcs, es) && Automatic(es) && i < |svcs|
  {
    var ds := Deaths(svcs, es, i);
    if svcs[i].oneshot || ds == [] then 0 else ds[|ds| - 1] + 1000
  }

  /** Every service that is named has done its part: a oneshot has exited with status 0, a daemon is up. */
  ghost predicate NamedAreUp(svcs: seq<Svc>, es: seq<Event>, after: seq<string>)
    requires RunOk(svcs, es)
  {
    forall k, j :: 0 <= k < |after| && 0 <= j < |svcs| && svcs[j].name == after[k] ==>
      if svcs[j].oneshot then Exits(svcs, es, j) == [true]
      else After(svcs, es)[j].pid > 0 && SeenReady(svcs[j].ready, Watched(svcs, es, j))
  }

  lemma NamedAreReady(svcs: seq<Svc>, es: seq<Event>, i: nat)
    requires RunOk(svcs, es) && Automatic(es) && i < |svcs| && Distinct(svcs)
    ensures DepsReady(After(svcs, es), After(svcs, es)[i]) <==> NamedAreUp(svcs, es, svcs[i].after)
  {
    hide DepUp, SeenReady, Watched, Exits, After;
    var table, after := After(svcs, es), svcs[i].after;
    RunKeepsConf(svcs, es);
    forall j | 0 <= j < |svcs|
      ensures DepUp(table, svcs[j].name) <==> if svcs[j].oneshot then Exits(svcs, es, j) == [true]
        else table[j].pid > 0 && SeenReady(svcs[j].ready, Watched(svcs, es, j))
    {
      if svcs[j].oneshot { OneshotOnce(svcs, es, j); } else { DaemonUpExactly(svcs, es, j); }
    }
    forall k | 0 <= k < |after|
      ensures (forall j :: 0 <= j < |svcs| ==> svcs[j].name != after[k]) ==> DepUp(table, after[k])
    {
      DistinctStays(svcs, table);
      DepUpIs(table, after[k]);
    }
  }

  predicate IdleOk(s: Svc, due: int) {
    && PidOk(s) && !s.stopReq && s.state != Stopped && (s.state == Waiting ==> s.backoffUntil == due)
    && (!s.oneshot ==> s.state != Done)
  }

  lemma {:induction false} IdleHolds(svcs: seq<Svc>, es: seq<Event>, i: nat)
    requires RunOk(svcs, es) && Automatic(es) && i < |svcs|
    ensures IdleOk(After(svcs, es)[i], DueAt(svcs, es, i))
    decreases |es|
  {
    hide DepsReady, Pass;
    if es != [] {
      var n := |es| - 1;
      var table, e := After(svcs, es[..n]), es[n];
      IdleHolds(svcs, es[..n], i);
      RunKeepsConf(svcs, es[..n]);
      match e {
        case PassAt(now, paths, pids) => PassAtSlot(table, now, paths, pids, i);
        case Exit(pid, ok, now) =>
      }
    }
  }

  /** In every run without commands, the next pass starts a service without a process exactly when fork
      succeeds, the backoff is over, everything it comes after has done its part, and it is neither a
      finished oneshot nor given up on. */
  lemma StartsExactly(svcs: seq<Svc>, es: seq<Event>, i: nat, now: int, paths: set<string>, pids: seq<int>)
    requires RunOk(svcs, es) && Automatic(es) && i < |svcs| && Distinct(svcs) && |pids| == |svcs|
    requires After(svcs, es)[i].pid <= 0
    ensures var s, t := After(svcs, es)[i], Pass(After(svcs, es), now, paths, pids)[i];
      && (t.pid > 0 <==> pids[i] > 0 && now >= DueAt(svcs, es, i) && NamedAreUp(svcs, es, svcs[i].after)
                         && (if s.oneshot then Exits(svcs, es, i) == [] else s.state != Failed))
      && (t.pid > 0 ==> t.pid == pids[i] && t.started == now)
  {
    var table := After(svcs, es);
    NamedAreReady(svcs, es, i);
    IdleHolds(svcs, es, i);
    if table[i].oneshot {
      RunKeepsConf(svcs, es);
      OnceHolds(svcs, es, i);
    }
    hide DepsReady, NamedAreUp, DueAt, Exits, After, Pass;
    PassAtSlot(table, now, paths, pids, i);
  }

  // ---- boot ---------------------------------------------------------------------------------------------

  /** The names each service comes after are of lower rank. */
  ghost predicate Ranked(svcs: seq<Svc>, rank: seq<nat>) {
    && |rank| == |svcs|
    && forall i, j :: 0 <= i < |svcs| && 0 <= j < |svcs| && svcs[j].name in svcs[i].after ==> rank[j] < rank[i]
  }

  /** Nothing failed or was stopped, no oneshot is still running, and no backoff or readiness path is awaited. */
  ghost predicate Healthy(svcs: seq<Svc>, now: int, paths: set<string>) {
    forall i :: 0 <= i < |svcs| ==> HealthyOne(svcs[i], now, paths)
  }

  predicate HealthyOne(s: Svc, now: int, paths: set<string>) {
    && s.state != Failed && s.state != Stopped && (s.state == Up ==> !s.oneshot) && (s.state == Done ==> s.oneshot)
    && (s.state == Waiting ==> now >= s.backoffUntil)
    && (s.state == Running ==> !s.oneshot && (ReadyPresent(s, paths) || now - s.started >= READY_TIMEOUT_MS))
  }

  /** Boot does not stall: when a pass whose forks succeed changes nothing in a healthy table without
      circular dependencies, every service is up. */
  lemma {:induction false} BootCompletes(svcs: seq<Svc>, rank: seq<nat>, now: int, paths: set<string>, pids: seq<int>, i: nat)
    requires Ranked(svcs, rank) && Healthy(svcs, now, paths) && Distinct(svcs) && i < |svcs|
    requires |pids| == |svcs| && (forall j :: 0 <= j < |pids| ==> pids[j] > 0) && Pass(svcs, now, paths, pids) == svcs
    ensures IsUp(svcs[i])
    decreases rank[i]
  {
    var s := svcs[i];
    forall k | 0 <= k < |s.after|
      ensures DepUp(svcs, s.after[k])
    {
      match ByName(svcs, s.after[k], 0) {
        case None =>
        case Some(j) => BootCompletes(svcs, rank, now, paths, pids, j);
      }
    }
    assert DepsReady(svcs, s) && HealthyOne(s, now, paths);
    hide DepsReady, Pass;
    PassAtSlot(svcs, now, paths, pids, i);
  }

  ghost predicate AfterOneOf(svcs: seq<Svc>, ring: set<nat>, i: nat)
    requires i < |svcs|
  {
    exists j :: j in ring && j < |svcs| && svcs[j].name in svcs[i].after
  }

  lemma TheOneBefore(svcs: seq<Svc>, ring: set<nat>, i: nat) returns (j: nat)
    requires i < |svcs| && AfterOneOf(svcs, ring, i)
    ensures j in ring && j < |svcs| && svcs[j].name in svcs[i].after
  {
    j :| j in ring && j < |svcs| && svcs[j].name in svcs[i].after;
  }

  /** Every service of the set comes after one of the set. */
  ghost predicate Circular(svcs: seq<Svc>, ring: set<nat>) {
    forall i :: i in ring ==> i < |svcs| && AfterOneOf(svcs, ring, i)
  }

  ghost predicate AllWait(svcs: seq<Svc>, ring: set<nat>) {
    forall i :: i in ring ==> i < |svcs| && svcs[i].pid == 0 && svcs[i].state == Waiting
  }

  /** And circular dependencies are never started: in a run without commands they wait for ever. */
  lemma {:induction false} CircularNeverStarts(svcs: seq<Svc>, es: seq<Event>, ring: set<nat>)
    requires RunOk(svcs, es) && Automatic(es) && Distinct(svcs) && Circular(svcs, ring)
    ensures AllWait(After(svcs, es), ring)
    decreases |es|
  {
    hide Apply, Distinct, IsUp, DepsReady, AfterOneOf;
    if es != [] {
      var n := |es| - 1;
      var table := After(svcs, es[..n]);
      CircularNeverStarts(svcs, es[..n], ring);
      RunKeepsConf(svcs, es[..n]);
      DistinctStays(svcs, table);
      AllWaitOn(svcs, table, es[n], ring);
    }
  }

  lemma AllWaitOn(svcs: seq<Svc>, table: seq<Svc>, e: Event, ring: set<nat>)
    requires SameTable(svcs, table) && Distinct(table) && Circular(svcs, ring) && AllWait(table, ring) && Enabled(table, e) && !e.Ctl?
    ensures AllWait(Apply(table, e), ring)
  {
    hide Apply, Distinct, IsUp, DepsReady, AfterOneOf;
    forall i | i in ring
      ensures Apply(table, e)[i].pid == 0 && Apply(table, e)[i].state == Waiting
    {
      var j := TheOneBefore(svcs, ring, i);
      WaitsFor(table, e, i, j);
    }
  }

  /** A service that comes after one that waits goes on waiting. */
  lemma WaitsFor(svcs: seq<Svc>, e: Event, i: nat, j: nat)
    requires Distinct(svcs) && Enabled(svcs, e) && !e.Ctl? && i < |svcs| && j < |svcs| && svcs[j].name in svcs[i].after
    requires svcs[i].pid == 0 && svcs[i].state == svcs[j].state == Waiting
    ensures var t := Apply(svcs, e)[i]; t.pid == 0 && t.state == Waiting
  {
    DepUpIs(svcs, svcs[j].name);
    hide DepUp, Pass;
    assert !DepsReady(svcs, svcs[i]);
    hide DepsReady;
    if e.PassAt? {
      PassAtSlot(svcs, e.now, e.paths, e.pids, i);
    }
  }

  // ---- commands -------------------------------------------------------------------------------------------

  predicate Restarting(e: Event, name: string) { e.Ctl? && e.name == name && !e.verb.StopVerb? }

  /** A stopped service: its old process, or none and none to come. */
  predicate StopOk(s: Svc, pid: int) {
    PidOk(s) && (if s.pid > 0 then s.pid == pid && s.stopReq else s.state == Stopped)
  }

  /** Stop, over every run that goes on without a start or restart of that name: the service keeps the
      process it had, or has none; once it has none it is not up and never gets another. */
  lemma {:induction false} StopStays(svcs: seq<Svc>, es: seq<Event>, more: seq<Event>, i: nat)
    requires RunOk(svcs, es) && i < |svcs| && RunOk(svcs, es + [Ctl(StopVerb, svcs[i].name)] + more) && Distinct(svcs)
    requires forall e :: e in more ==> !Restarting(e, svcs[i].name)
    ensures StopOk(After(svcs, es + [Ctl(StopVerb, svcs[i].name)] + more)[i], After(svcs, es)[i].pid)
    decreases |more|
  {
    hide DepsReady, Pass;
    var stop, pid := Ctl(StopVerb, svcs[i].name), After(svcs, es)[i].pid;
    var run := es + [stop] + more;
    var n := |run| - 1;
    RunKeepsConf(svcs, run[..n]);
    var table := After(svcs, run[..n]);
    if more == [] {
      assert run[..n] == es && run[n] == stop;
      PidsFollowStates(svcs, es);
      NamedSlot(svcs, table, i);
    } else {
      var last := more[|more| - 1];
      assert run[..n] == es + [stop] + more[..|more| - 1] && run[n] == last && last in more;
      StopStays(svcs, es, more[..|more| - 1], i);
      NamedSlot(svcs, table, i);
      match last {
        case PassAt(now, paths, pids) => PassAtSlot(table, now, paths, pids, i);
        case Exit(_, _, _) =>
        case Ctl(_, name) =>
      }
    }
  }

  lemma NamedSlot(svcs: seq<Svc>, table: seq<Svc>, i: nat)
    requires Distinct(svcs) && SameTable(svcs, table) && i < |svcs|
    ensures forall name :: ByName(table, name, 0) == Some(i) <==> name == svcs[i].name
  {
  }

  /** When the process of a stopped service exits, the service is stopped, whatever the status. */
  lemma StoppedOnExit(svcs: seq<Svc>, es: seq<Event>, i: nat, ok: bool, now: int)
    requires RunOk(svcs, es) && i < |svcs| && Distinct(svcs) && After(svcs, es)[i].pid > 0
    requires ByPid(After(svcs, es), After(svcs, es)[i].pid, 0) == Some(i)
    ensures var table := Apply(After(svcs, es), Ctl(StopVerb, svcs[i].name));
      && Enabled(table, Exit(table[i].pid, ok, now))
      && var t := Apply(table, Exit(table[i].pid, ok, now))[i];
      && t.pid == 0 && t.state == Stopped && !IsUp(t)
  {
    hide After;
    var was := After(svcs, es);
    RunKeepsConf(svcs, es);
    NamedSlot(svcs, was, i);
    var table := Apply(was, Ctl(StopVerb, svcs[i].name));
    SamePid(was, table, was[i].pid, 0);
  }

  lemma {:induction false} SamePid(a: seq<Svc>, b: seq<Svc>, pid: int, i: nat)
    requires |a| == |b| && i <= |a| && forall k :: 0 <= k < |a| ==> a[k].pid == b[k].pid
    ensures ByPid(a, pid, i) == ByPid(b, pid, i)
    decreases |a| - i
  {
    if i < |a| {
      SamePid(a, b, pid, i + 1);
    }
  }

  /** Start and restart bring back a service without a process, whatever became of it: the next pass
      whose fork succeeds starts it if what it comes after is up. */
  lemma StartBringsBack(svcs: seq<Svc>, i: nat, v: Verb, now: int, paths: set<string>, pids: seq<int>)
    requires Distinct(svcs) && i < |svcs| && |pids| == |svcs| && pids[i] > 0 && now >= 0
    requires svcs[i].pid <= 0 && !v.StopVerb? && svcs[i].name !in svcs[i].after
    requires forall k :: 0 <= k < |svcs[i].after| ==> DepUp(svcs, svcs[i].after[k])
    ensures var t := Pass(Apply(svcs, Ctl(v, svcs[i].name)), now, paths, pids)[i]; t.pid == pids[i] && t.started == now
  {
    NamedSlot(svcs, svcs, i);
    var table := Apply(svcs, Ctl(v, svcs[i].name));
    forall k | 0 <= k < |svcs[i].after|
      ensures DepUp(table, svcs[i].after[k])
    {
      DepUpIs(svcs, svcs[i].after[k]);
      DepUpIs(table, svcs[i].after[k]);
    }
    assert DepsReady(table, table[i]);
    hide DepsReady, Pass;
    PassAtSlot(table, now, paths, pids, i);
  }

  /** The service after deaths at these times, each following the last. */
  function Dying(s: Svc, ds: seq<int>): Svc
    decreases |ds|
  {
    if ds == [] then s else OnChildExit(Dying(s, ds[..|ds| - 1]), false, ds[|ds| - 1])
  }

  /** Its past deaths are forgotten: five more, however close, do not make the supervisor give up. */
  lemma {:induction false} StartForgets(s: Svc, v: Verb, ds: seq<int>)
    requires s.pid <= 0 && !s.stopReq && !s.oneshot && !v.StopVerb? && 1 <= |ds| <= 5
    ensures var t := Dying(Command(s, v), ds); t.state == Waiting && t.backoffUntil == ds[|ds| - 1] + 1000 && t.failCount <= |ds|
    decreases |ds|
  {
    if |ds| > 1 {
      StartForgets(s, v, ds[..|ds| - 1]);
      DyingKeeps(Command(s, v), ds[..|ds| - 1]);
    } else {
      assert ds[..0] == [];
    }
  }

  lemma {:induction false} DyingKeeps(s: Svc, ds: seq<int>)
    requires !s.stopReq && !s.oneshot
    ensures var t := Dying(s, ds); !t.stopReq && !t.oneshot
    decreases |ds|
  {
    if ds != [] {
      DyingKeeps(s, ds[..|ds| - 1]);
    }
  }

  /** A service that has a process ignores start and restart; restart only sends it a signal. */
  lemma RunningIgnores(svcs: seq<Svc>, i: nat, v: Verb)
    requires Distinct(svcs) && i < |svcs| && svcs[i].pid > 0 && !v.StopVerb?
    ensures Apply(svcs, Ctl(v, svcs[i].name)) == svcs
  {
    NamedSlot(svcs, svcs, i);
  }

  /** Restarting a service that has a process relies on the exit to bring it back. In a run without
      earlier commands that happens, a backoff later, exactly for a daemon whose crash loop guard still
      has room: a oneshot is not run again. */
  lemma RestartExactly(svcs: seq<Svc>, es: seq<Event>, i: nat, ok: bool, died: int, now: int, paths: set<string>, pids: seq<int>)
    requires RunOk(svcs, es) && Automatic(es) && i < |svcs| && Distinct(svcs) && |pids| == |svcs| && pids[i] > 0 && now >= died + 1000
    requires After(svcs, es)[i].pid > 0 && ByPid(After(svcs, es), After(svcs, es)[i].pid, 0) == Some(i)
    requires svcs[i].name !in svcs[i].after && NamedAreUp(svcs, es, svcs[i].after)
    ensures var table := Apply(After(svcs, es), Ctl(RestartVerb, svcs[i].name));
      && Enabled(table, Exit(table[i].pid, ok, died))
      && var t := Pass(Apply(table, Exit(table[i].pid, ok, died)), now, paths, pids)[i];
      t.pid > 0 <==> !svcs[i].oneshot && InWindow(Deaths(svcs, es, i) + [died]) <= 5
  {
    var table := After(svcs, es);
    RunKeepsConf(svcs, es);
    DistinctStays(svcs, table);
    NamedAreReady(svcs, es, i);
    IdleHolds(svcs, es, i);
    hide DepUp, NamedAreUp, InWindow, Deaths, After, Pass;
    RunningIgnores(table, i, RestartVerb);
    var next := Apply(table, Exit(table[i].pid, ok, died));
    if !svcs[i].oneshot {
      CountsHold(svcs, es, i);
      DeathCounts(table[i], Deaths(svcs, es, i), ok, died);
    }
    SameOthers(table, next, i);
    PassAtSlot(next, now, paths, pids, i);
  }

  /** What happens to service i alone does not change whether the others are up. */
  lemma SameOthers(a: seq<Svc>, b: seq<Svc>, i: nat)
    requires Distinct(a) && SameTable(a, b) && i < |a| && (forall j :: 0 <= j < |a| && j != i ==> a[j] == b[j])
    requires a[i].name !in a[i].after
    ensures DepsReady(a, a[i]) <==> DepsReady(b, b[i])
  {
    DistinctStays(a, b);
    forall k | 0 <= k < |a[i].after|
      ensures DepUp(a, a[i].after[k]) <==> DepUp(b, a[i].after[k])
    {
      hide DepUp;
      DepUpIs(a, a[i].after[k]);
      DepUpIs(b, a[i].after[k]);
    }
  }

  /** The input: a oneshot restarted while it runs ends, and no later pass starts it. */
  lemma OneshotNotRestarted(s: Svc, now: int, paths: set<string>, pid: int)
    requires IsNew(s) && s.oneshot && s.after == []
    ensures var es := [PassAt(0, {}, [7]), Ctl(RestartVerb, s.name), Exit(7, false, 1)];
      RunOk([s], es) && var t := Pass(After([s], es), now, paths, [pid])[0]; t.pid == 0 && t.state == Failed
  {
    var e0, e1, e2 := PassAt(0, {}, [7]), Ctl(RestartVerb, s.name), Exit(7, false, 1);
    var run := s.(pid := 7, state := Running);
    assert [e0][..0] == [] && [e0, e1][..1] == [e0] && [e0, e1, e2][..2] == [e0, e1];
    assert RunOk([s], []) && After([s], []) == [s];
    assert RunOk([s], [e0]) && After([s], [e0]) == [run];
    assert RunOk([s], [e0, e1]) && After([s], [e0, e1]) == [run];
    assert RunOk([s], [e0, e1, e2]) && After([s], [e0, e1, e2]) == [run.(pid := 0, state := Failed)];
  }

  // ---- the next deadline ---------------------------------------------------------------------------------------

  /** The time from now to t, if t is still to come. */
  function Until(t: int, now: int): int { if t < now then 0 else t - now }

  /** How long service s can be left alone. */
  predicate SvcWants(svcs: seq<Svc>, s: Svc, now: int, d: int) {
    || (s.state == Waiting && DepsReady(svcs, s) && d == Until(s.backoffUntil, now))
    || (s.state == Running && !s.oneshot && s.ready != "" && d == if Until(s.started + 6000, now) < 100 then Until(s.started + 6000, now) else 100)
  }

  ghost predicate SomeWants(svcs: seq<Svc>, now: int, n: nat, d: int)
    requires n <= |svcs|
  {
    exists i :: 0 <= i < n && SvcWants(svcs, svcs[i], now, d)
  }

  ghost predicate ConnWants(conns: seq<int>, now: int, n: nat, d: int)
    requires n <= |conns|
  {
    exists i :: 0 <= i < n && d == Until(conns[i], now)
  }

  lemma {:induction false} SvcDelayLeast(svcs: seq<Svc>, now: int, n: nat)
    requires n <= |svcs|
    ensures var r := SvcDelay(svcs, now, n);
      && (r == -1 || SomeWants(svcs, now, n, r)) && (forall d :: SomeWants(svcs, now, n, d) ==> 0 <= r <= d)
  {
    if n > 0 {
      hide DepsReady;
      var s, r := svcs[n - 1], SvcDelay(svcs, now, n - 1);
      SvcDelayLeast(svcs, now, n - 1);
      forall d
        ensures SomeWants(svcs, now, n, d) <==> SomeWants(svcs, now, n - 1, d) || SvcWants(svcs, s, now, d)
      {
        if SvcWants(svcs, s, now, d) { assert svcs[n - 1] == s; }
      }
      DelayOfLeast(svcs, s, now, r);
    }
  }

  lemma DelayOfLeast(svcs: seq<Svc>, s: Svc, now: int, best: int)
    requires best >= -1
    ensures var r := DelayOf(svcs, s, now, best);
      && (r == best || SvcWants(svcs, s, now, r)) && (forall d :: SvcWants(svcs, s, now, d) ==> 0 <= r <= d) && (best >= 0 ==> r <= best)
  {
    hide DepsReady;
  }

  lemma {:induction false} ConnDelayLeast(conns: seq<int>, now: int, n: nat, best: int)
    requires n <= |conns| && best >= -1
    ensures var r := ConnDelay(conns, now, n, best);
      && (r == best || ConnWants(conns, now, n, r)) && (forall d :: ConnWants(conns, now, n, d) ==> 0 <= r <= d) && (best >= 0 ==> r <= best)
  {
    if n > 0 {
      ConnDelayLeast(conns, now, n - 1, best);
      forall d
        ensures ConnWants(conns, now, n, d) <==> ConnWants(conns, now, n - 1, d) || d == Until(conns[n - 1], now)
      {
        if d == Until(conns[n - 1], now) { assert 0 <= n - 1 < n; }
      }
    }
  }

  /** The loop sleeps until the earliest thing a service or a client waits for, a minute at the most, and
      without limit when there is nothing. */
  lemma NextDelayIsLeast(svcs: seq<Svc>, conns: seq<int>, now: int)
    ensures var r := NextDelay(svcs, conns, now);
      && (r == -1 <==> forall d :: !SomeWants(svcs, now, |svcs|, d) && !ConnWants(conns, now, |conns|, d))
      && (forall d :: SomeWants(svcs, now, |svcs|, d) || ConnWants(conns, now, |conns|, d) ==> 0 <= r <= d)
      && (r >= 0 ==> r == 60000 || SomeWants(svcs, now, |svcs|, r) || ConnWants(conns, now, |conns|, r))
  {
    hide SomeWants, ConnWants, SvcDelay, ConnDelay;
    SvcDelayLeast(svcs, now, |svcs|);
    ConnDelayLeast(conns, now, |conns|, SvcDelay(svcs, now, |svcs|));
  }
}
