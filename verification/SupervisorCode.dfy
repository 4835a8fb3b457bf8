/** init.c's loops over the service table. */
module SupervisorCode {
  import opened Options
  import opened Supervisor
  import opened SupervisorRuns

  class Init {
    var svcs: seq<Svc>
    var conns: seq<int>

    /** svc_by_name; -1 when there is none */
    method SvcByName(name: string) returns (r: int)
      ensures match ByName(svcs, name, 0) { case Some(i) => r == i case None => r == -1 }
    {
      var i := 0;
      while i < |svcs|
        invariant i <= |svcs| && ByName(svcs, name, 0) == ByName(svcs, name, i)
      {
        if svcs[i].name == name {
          return i;
        }
        i := i + 1;
      }
      r := -1;
    }

    /** dep_up */
    method IsDepUp(name: string) returns (up: bool)
      ensures up == DepUp(svcs, name)
    {
      var d := SvcByName(name);
      if d < 0 {
        return true;
      }
      up := if svcs[d].oneshot then svcs[d].state == Done else svcs[d].state == Up;
    }

    /** deps_ready */
    method AreDepsReady(s: Svc) returns (ready: bool)
      ensures ready == DepsReady(svcs, s)
    {
      var i := 0;
      while i < |s.after|
        invariant i <= |s.after| && forall k :: 0 <= k < i ==> DepUp(svcs, s.after[k])
      {
        var up := IsDepUp(s.after[i]);
        if !up {
          return false;
        }
        i := i + 1;
      }
      ready := true;
    }

    /** The first loop of reconcile; fork for service i returns pids[i]. */
    method StartPass(now: int, pids: seq<int>) returns (changed: nat)
      requires |pids| == |svcs|
      modifies this`svcs
      ensures svcs == StartAll(old(svcs), now, pids)
      ensures changed == Total(old(svcs)) - Total(svcs)
    {
      hide DepsReady, Total, StartAll;
      ghost var was := svcs;
      changed := 0;
      var i := 0;
      StartBegin(was, now, pids);
      while i < |svcs|
        invariant i <= |svcs| == |was| && StartedTo(was, svcs, now, pids, i)
        invariant changed == Total(was) - Total(svcs)
      {
        SameDeps(was, svcs, now, pids, i, svcs[i]);
        var s := svcs[i];
        if s.state == Waiting && now >= s.backoffUntil {
          var ready := AreDepsReady(s);
          if ready {
            s := StartService(s, now, pids[i]);
            if s.state == Running {
              changed := changed + 1;
            }
          }
        }
        StartStep(was, svcs, now, pids, i, s);
        svcs := svcs[i := s];
        i := i + 1;
      }
      StartEnd(was, svcs, now, pids);
    }

    /** The second loop of reconcile */
    method PromotePass(now: int, paths: set<string>) returns (changed: nat)
      modifies this`svcs
      ensures svcs == PromoteAll(old(svcs), now, paths)
      ensures changed == Total(old(svcs)) - Total(svcs)
    {
      hide Total, PromoteAll;
      ghost var was := svcs;
      changed := 0;
      var i := 0;
      while i < |svcs|
        invariant i <= |svcs| == |was| && PromotedTo(was, svcs, now, paths, i)
        invariant changed == Total(was) - Total(svcs)
      {
        var s := svcs[i];
        if !(s.state != Running || s.oneshot) {
          if ReadyPresent(s, paths) {
            s := s.(state := Up);
            changed := changed + 1;
          } else if now - s.started >= READY_TIMEOUT_MS {
            s := s.(state := Up);
            changed := changed + 1;
          }
        }
        TotalUpdate(svcs, i, s);
        svcs := svcs[i := s];
        i := i + 1;
      }
      PromoteEnd(was, svcs, now, paths);
    }

    /** reconcile: starting services one after the other is starting them all at once, since a
        service that has just been started is not yet up. */
    method Reconcile(now: int, paths: set<string>, pids: seq<int>) returns (changed: nat)
      requires |pids| == |svcs|
      modifies this`svcs
      ensures svcs == Pass(old(svcs), now, paths, pids)
      ensures changed == Total(old(svcs)) - Total(svcs)
      ensures changed == 0 <==> svcs == old(svcs)
    {
      var a := StartPass(now, pids);
      var b := PromotePass(now, paths);
      changed := a + b;
      PassWeighs(old(svcs), now, paths, pids);
      assert svcs == Pass(old(svcs), now, paths, pids);
    }

    /** The settle loop of supervise; pass k sees the clock, the paths and the forks of the world at k.
        It makes at most two changes per service, and at most that many passes and one more. */
    method Settle(world: nat -> (int, set<string>, seq<int>)) returns (k: nat)
      requires forall j :: |world(j).2| == |svcs|
      modifies this`svcs
      ensures |svcs| == |old(svcs)| && Pass(svcs, world(k).0, world(k).1, world(k).2) == svcs
      ensures k <= Total(old(svcs)) - Total(svcs) && Total(old(svcs)) <= 2 * |svcs|
    {
      hide Pass, Total;
      k := 0;
      var n := |svcs|;
      var changed := Reconcile(world(0).0, world(0).1, world(0).2);
      while changed != 0
        invariant |svcs| == n && k <= Total(old(svcs)) - Total(svcs)
        invariant changed == 0 ==> Pass(svcs, world(k).0, world(k).1, world(k).2) == svcs
        invariant changed != 0 ==> k + 1 <= Total(old(svcs)) - Total(svcs)
        decreases Total(svcs), changed
      {
        k := k + 1;
        changed := Reconcile(world(k).0, world(k).1, world(k).2);
      }
    }

    /** next_delay_ms */
    method NextDelayMs(now: int) returns (best: int)
      ensures best == NextDelay(svcs, conns, now)
    {
      best := -1;
      var i := 0;
      while i < |svcs|
        invariant i <= |svcs| && best == SvcDelay(svcs, now, i)
      {
        var s := svcs[i];
        if s.state == Waiting {
          var ready := AreDepsReady(s);
          if ready {
            var d := s.backoffUntil - now;
            if d < 0 { d := 0; }
            if best < 0 || d < best { best := d; }
          }
        }
        if s.state == Running && !s.oneshot && s.ready != "" {
          var to := s.started + READY_TIMEOUT_MS - now;
          if to < 0 { to := 0; }
          if best < 0 || to < best { best := to; }
          if READY_POLL_MS < best { best := READY_POLL_MS; }
        }
        i := i + 1;
      }
      i := 0;
      while i < |conns|
        invariant i <= |conns| && best == ConnDelay(conns, now, i, SvcDelay(svcs, now, |svcs|))
      {
        var d := conns[i] - now;
        if d < 0 { d := 0; }
        if best < 0 || d < best { best := d; }
        i := i + 1;
      }
      if best < 0 {
        return -1;
      }
      if best > 60000 { best := 60000; }
    }

    /** reap: by_pid and on_child_exit */
    method Reap(pid: int, ok: bool, now: int)
      requires pid > 0
      modifies this`svcs
      ensures svcs == Apply(old(svcs), Exit(pid, ok, now))
    {
      var i := 0;
      while i < |svcs| && svcs[i].pid != pid
        invariant i <= |svcs| && ByPid(svcs, pid, 0) == ByPid(svcs, pid, i)
      {
        i := i + 1;
      }
      if i < |svcs| {
        svcs := svcs[i := OnChildExit(svcs[i], ok, now)];
      }
    }

    /** start, stop and restart in handle_command */
    method HandleCommand(verb: Verb, name: string)
      modifies this`svcs
      ensures svcs == Apply(old(svcs), Ctl(verb, name))
    {
      var i := SvcByName(name);
      if i >= 0 {
        var s := svcs[i];
        match verb {
          case StartVerb =>
            if s.pid <= 0 { s := s.(state := Waiting, backoffUntil := 0, stopReq := false, failCount := 0); }
          case StopVerb =>
            if s.pid > 0 { s := s.(stopReq := true); } else { s := s.(state := Stopped); }
          case RestartVerb =>
            if s.pid <= 0 { s := s.(state := Waiting, backoffUntil := 0, failCount := 0); }
        }
        svcs := svcs[i := s];
      }
    }
  }

  // ---- the order inside a pass ------------------------------------------------------------------

  function StartAll(svcs: seq<Svc>, now: int, pids: seq<int>): (r: seq<Svc>)
    requires |pids| == |svcs|
    ensures |r| == |svcs|
  {
    seq(|svcs|, i requires 0 <= i < |svcs| =>
      if Startable(svcs, svcs[i], now) then StartService(svcs[i], now, pids[i]) else svcs[i])
  }

  function PromoteAll(svcs: seq<Svc>, now: int, paths: set<string>): (r: seq<Svc>)
    ensures |r| == |svcs|
  {
    seq(|svcs|, i requires 0 <= i < |svcs| => Promote(svcs[i], now, paths))
  }

  /** The first i services have had their turn. */
  ghost predicate StartedTo(was: seq<Svc>, cur: seq<Svc>, now: int, pids: seq<int>, i: nat)
    requires |pids| == |was|
  {
    |cur| == |was| && forall k :: 0 <= k < |was| ==> cur[k] == if k < i then StartAll(was, now, pids)[k] else was[k]
  }

  ghost predicate PromotedTo(was: seq<Svc>, cur: seq<Svc>, now: int, paths: set<string>, i: nat) {
    |cur| == |was| && forall k :: 0 <= k < |was| ==> cur[k] == if k < i then Promote(was[k], now, paths) else was[k]
  }

  lemma StartBegin(was: seq<Svc>, now: int, pids: seq<int>)
    requires |pids| == |was|
    ensures StartedTo(was, was, now, pids, 0)
  {
  }

  lemma StartStep(was: seq<Svc>, cur: seq<Svc>, now: int, pids: seq<int>, i: nat, s: Svc)
    requires |pids| == |was| && StartedTo(was, cur, now, pids, i) && i < |was|
    requires s == if Startable(was, was[i], now) then StartService(was[i], now, pids[i]) else was[i]
    ensures cur[i] == was[i] && StartedTo(was, cur[i := s], now, pids, i + 1)
    ensures Total(cur[i := s]) == Total(cur) - Weight(cur[i]) + Weight(s)
  {
    hide Total;
    TotalUpdate(cur, i, s);
  }

  lemma StartEnd(was: seq<Svc>, cur: seq<Svc>, now: int, pids: seq<int>)
    requires |pids| == |was| && StartedTo(was, cur, now, pids, |was|)
    ensures cur == StartAll(was, now, pids)
  {
  }

  lemma PromoteEnd(was: seq<Svc>, cur: seq<Svc>, now: int, paths: set<string>)
    requires PromotedTo(was, cur, now, paths, |was|)
    ensures cur == PromoteAll(was, now, paths)
  {
  }

  /** Services started earlier in the pass do not change what is up. */
  lemma SameDeps(was: seq<Svc>, cur: seq<Svc>, now: int, pids: seq<int>, i: nat, s: Svc)
    requires |pids| == |was| && i < |was| && StartedTo(was, cur, now, pids, i)
    ensures cur[i] == was[i] && DepsReady(cur, s) == DepsReady(was, s)
  {
    forall k | 0 <= k < |s.after|
      ensures DepUp(cur, s.after[k]) == DepUp(was, s.after[k])
    {
      SameName(was, cur, s.after[k], 0);
    }
  }

  lemma {:induction false} SameName(a: seq<Svc>, b: seq<Svc>, name: string, i: nat)
    requires |a| == |b| && i <= |a| && forall k :: 0 <= k < |a| ==> a[k].name == b[k].name && IsUp(a[k]) == IsUp(b[k])
    ensures ByName(a, name, i) == ByName(b, name, i)
    decreases |a| - i
  {
    if i < |a| {
      SameName(a, b, name, i + 1);
    }
  }

  lemma {:induction false} TotalUpdate(svcs: seq<Svc>, i: nat, s: Svc)
    requires i < |svcs|
    ensures Total(svcs[i := s]) == Total(svcs) - Weight(svcs[i]) + Weight(s)
    decreases |svcs|
  {
    var n := |svcs| - 1;
    if i < n {
      TotalUpdate(svcs[..n], i, s);
      assert svcs[i := s][..n] == svcs[..n][i := s];
    } else {
      assert svcs[i := s][..n] == svcs[..n];
    }
  }
}
