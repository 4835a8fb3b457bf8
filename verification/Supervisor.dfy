/** init's service table: what one reconcile pass, an exit or a command makes of it, and when the
    next pass is due. */
module Supervisor {
  import opened Options

  const BACKOFF_MS := 1000
  const READY_TIMEOUT_MS := 6000
  const READY_POLL_MS := 100
  const FAIL_WINDOW_MS := 10000
  const MAX_FAILS := 5

  datatype SvcState = Waiting | Running | Up | Done | Failed | Stopped

  /** ready is the readiness path, "" for up-on-spawn. */
  datatype Svc = Svc(name: string, oneshot: bool, after: seq<string>, ready: string, pid: int, state: SvcState,
    started: int, backoffUntil: int, failCount: int, winStart: int, stopReq: bool)

  // ---- dependencies -------------------------------------------------------------------------

  /** svc_by_name from slot i on */
  function ByName(svcs: seq<Svc>, name: string, i: nat): (r: Option<nat>)
    requires i <= |svcs|
    ensures r.Some? ==> i <= r.value < |svcs| && svcs[r.value].name == name
    ensures r.None? ==> forall k :: i <= k < |svcs| ==> svcs[k].name != name
    decreases |svcs| - i
  {
    if i == |svcs| then None else if svcs[i].name == name then Some(i) else ByName(svcs, name, i + 1)
  }

  predicate IsUp(s: Svc) { if s.oneshot then s.state == Done else s.state == Up }

  /** dep_up: an unknown name counts as up. */
  predicate DepUp(svcs: seq<Svc>, name: string) {
    match ByName(svcs, name, 0)
    case None => true
    case Some(i) => IsUp(svcs[i])
  }

  predicate DepsReady(svcs: seq<Svc>, s: Svc) {
    forall k :: 0 <= k < |s.after| ==> DepUp(svcs, s.after[k])
  }

  // ---- one pass -----------------------------------------------------------------------------

  predicate Startable(svcs: seq<Svc>, s: Svc, now: int) {
    s.state == Waiting && now >= s.backoffUntil && DepsReady(svcs, s)
  }

  /** start_service, when fork returns pid (not positive: it failed). */
  function StartService(s: Svc, now: int, pid: int): Svc {
    if pid > 0 then s.(pid := pid, started := now, state := Running) else s
  }

  predicate ReadyPresent(s: Svc, paths: set<string>) { s.ready == "" || s.ready in paths }

  /** The second half of a pass: a running daemon comes up when its path is there or overdue. */
  function Promote(s: Svc, now: int, paths: set<string>): Svc {
    if s.state == Running && !s.oneshot && (ReadyPresent(s, paths) || now - s.started >= READY_TIMEOUT_MS)
    then s.(state := Up) else s
  }

  /** What a pass makes of one service, all dependencies looked up in the table before the pass. */
  function PassOne(svcs: seq<Svc>, s: Svc, now: int, paths: set<string>, pid: int): Svc {
    Promote(if Startable(svcs, s, now) then StartService(s, now, pid) else s, now, paths)
  }

  function Pass(svcs: seq<Svc>, now: int, paths: set<string>, pids: seq<int>): (r: seq<Svc>)
    requires |pids| == |svcs|
    ensures |r| == |svcs|
  {
    seq(|svcs|, i requires 0 <= i < |svcs| => PassOne(svcs, svcs[i], now, paths, pids[i]))
  }

  // ---- settling -----------------------------------------------------------------------------

  /** How many changes a service still has in it before it must wait for an exit or a command. */
  function Weight(s: Svc): nat { if s.state == Waiting then 2 else if s.state == Running then 1 else 0 }

  function Total(svcs: seq<Svc>): (n: nat)
    ensures n <= 2 * |svcs|
  {
    if svcs == [] then 0 else Total(svcs[..|svcs| - 1]) + Weight(svcs[|svcs| - 1])
  }

  lemma PassOneWeighs(svcs: seq<Svc>, s: Svc, now: int, paths: set<string>, pid: int)
    ensures var r := PassOne(svcs, s, now, paths, pid); Weight(r) <= Weight(s) && (Weight(r) == Weight(s) <==> r == s)
  {
  }

  /** A table that changes in a pass loses weight. */
  lemma {:induction false} LighterPrefix(a: seq<Svc>, b: seq<Svc>)
    requires |a| == |b| && forall i :: 0 <= i < |a| ==> Weight(b[i]) <= Weight(a[i]) && (Weight(b[i]) == Weight(a[i]) ==> b[i] == a[i])
    ensures Total(b) <= Total(a) && (Total(b) == Total(a) ==> a == b)
    decreases |a|
  {
    if a != [] {
      var n := |a| - 1;
      LighterPrefix(a[..n], b[..n]);
      assert a == a[..n] + [a[n]] && b == b[..n] + [b[n]];
    }
  }

  lemma PassWeighs(svcs: seq<Svc>, now: int, paths: set<string>, pids: seq<int>)
    requires |pids| == |svcs|
    ensures var r := Pass(svcs, now, paths, pids); Total(r) <= Total(svcs) && (Total(r) == Total(svcs) <==> r == svcs)
  {
    var r := Pass(svcs, now, paths, pids);
    forall i | 0 <= i < |svcs|
      ensures Weight(r[i]) <= Weight(svcs[i]) && (Weight(r[i]) == Weight(svcs[i]) ==> r[i] == svcs[i])
    {
      PassOneWeighs(svcs, svcs[i], now, paths, pids[i]);
    }
    LighterPrefix(svcs, r);
  }

  // ---- the next deadline ----------------------------------------------------------------------

  function Least(best: int, d: int): int {
    var e := if d < 0 then 0 else d;
    if best < 0 || e < best then e else best
  }

  /** What service s adds to the search for the earliest deadline. */
  function DelayOf(svcs: seq<Svc>, s: Svc, now: int, best: int): (r: int)
    ensures best >= 0 ==> 0 <= r <= best
    ensures best < 0 ==> r == best || r >= 0
  {
    if s.state == Waiting && DepsReady(svcs, s) then Least(best, s.backoffUntil - now)
    else if s.state == Running && !s.oneshot && s.ready != "" then
      var b := Least(best, s.started + READY_TIMEOUT_MS - now);
      if READY_POLL_MS < b then READY_POLL_MS else b
    else best
  }

  function SvcDelay(svcs: seq<Svc>, now: int, n: nat): (r: int)
    requires n <= |svcs|
    ensures r >= -1
  {
    if n == 0 then -1 else DelayOf(svcs, svcs[n - 1], now, SvcDelay(svcs, now, n - 1))
  }

  /** deadlines of the initctl clients */
  function ConnDelay(conns: seq<int>, now: int, n: nat, best: int): (r: int)
    requires n <= |conns| && best >= -1
    ensures r >= -1 && (best >= 0 ==> 0 <= r <= best)
  {
    if n == 0 then best else Least(ConnDelay(conns, now, n - 1, best), conns[n - 1] - now)
  }

  /** next_delay_ms */
  function NextDelay(svcs: seq<Svc>, conns: seq<int>, now: int): (r: int)
    ensures -1 <= r <= 60000
  {
    var best := ConnDelay(conns, now, |conns|, SvcDelay(svcs, now, |svcs|));
    if best < 0 then -1 else if best > 60000 then 60000 else best
  }

  /** Service i's deadline bounds the delay. */
  lemma {:induction false} DelayBound(svcs: seq<Svc>, now: int, n: nat, i: nat)
    requires i < n <= |svcs|
    ensures var s := svcs[i]; var r := SvcDelay(svcs, now, n);
      && (s.state == Waiting && DepsReady(svcs, s) ==> 0 <= r && (r == 0 || r <= s.backoffUntil - now))
      && (s.state == Running && !s.oneshot && s.ready != "" ==> 0 <= r && (r == 0 || r <= s.started + READY_TIMEOUT_MS - now))
    decreases n
  {
    hide DepsReady;
    if i < n - 1 {
      DelayBound(svcs, now, n - 1, i);
    }
  }

  /** No path shows up that a running service waits for. */
  ghost predicate NoNewPath(svcs: seq<Svc>, paths: set<string>, later: set<string>) {
    forall i :: 0 <= i < |svcs| && svcs[i].ready != "" && svcs[i].ready in later ==> svcs[i].ready in paths
  }

  /** Once settled, nothing is due before the delay is over: a pass at any earlier time changes
      nothing, whatever fork would return and whatever other paths exist. */
  lemma NeverOversleeps(svcs: seq<Svc>, conns: seq<int>, now: int, paths: set<string>, pids: seq<int>,
                        t: int, later: set<string>, pids': seq<int>)
    requires |pids| == |pids'| == |svcs| && Pass(svcs, now, paths, pids) == svcs
    requires now <= t && (NextDelay(svcs, conns, now) == -1 || t < now + NextDelay(svcs, conns, now))
    requires NoNewPath(svcs, paths, later)
    ensures Pass(svcs, t, later, pids') == svcs
  {
    var r := Pass(svcs, t, later, pids');
    forall i | 0 <= i < |svcs|
      ensures r[i] == svcs[i]
    {
      assert PassOne(svcs, svcs[i], now, paths, pids[i]) == Pass(svcs, now, paths, pids)[i] == svcs[i];
      DelayBound(svcs, now, |svcs|, i);
      QuietOne(svcs, svcs[i], now, paths, pids[i], NextDelay(svcs, conns, now), t, later, pids'[i]);
    }
  }

  lemma QuietOne(svcs: seq<Svc>, s: Svc, now: int, paths: set<string>, pid: int, d: int, t: int, later: set<string>, pid': int)
    requires PassOne(svcs, s, now, paths, pid) == s && now <= t && d >= -1 && (d == -1 || t < now + d)
    requires s.state == Waiting && DepsReady(svcs, s) ==> 0 <= d && (d == 0 || d <= s.backoffUntil - now)
    requires s.state == Running && !s.oneshot && s.ready != "" ==> 0 <= d && (d == 0 || d <= s.started + READY_TIMEOUT_MS - now)
    requires s.ready != "" && s.ready in later ==> s.ready in paths
    ensures PassOne(svcs, s, t, later, pid') == s
  {
    hide DepsReady;
  }

  /** And the wake-up is not early: with no client and no readiness poll pending, the pass at the end
      of an uncapped delay starts a service, provided fork succeeds. */
  lemma WakesForWork(svcs: seq<Svc>, now: int, paths: set<string>, pids: seq<int>)
    requires |pids| == |svcs| && forall i :: 0 <= i < |svcs| ==> pids[i] > 0
    requires 0 <= NextDelay(svcs, [], now) < 60000
    requires forall i :: 0 <= i < |svcs| ==> !(svcs[i].state == Running && !svcs[i].oneshot && svcs[i].ready != "")
    ensures Pass(svcs, now + NextDelay(svcs, [], now), paths, pids) != svcs
  {
    var d := NextDelay(svcs, [], now);
    var i := DelayWitness(svcs, now, |svcs|);
    var r := Pass(svcs, now + d, paths, pids);
    assert r[i] == PassOne(svcs, svcs[i], now + d, paths, pids[i]);
  }

  lemma {:induction false} DelayWitness(svcs: seq<Svc>, now: int, n: nat) returns (i: nat)
    requires n <= |svcs| && SvcDelay(svcs, now, n) >= 0
    requires forall i :: 0 <= i < n ==> !(svcs[i].state == Running && !svcs[i].oneshot && svcs[i].ready != "")
    ensures i < n && Startable(svcs, svcs[i], now + SvcDelay(svcs, now, n))
    decreases n
  {
    hide DepsReady;
    if SvcDelay(svcs, now, n) == SvcDelay(svcs, now, n - 1) {
      i := DelayWitness(svcs, now, n - 1);
    } else {
      i := n - 1;
    }
  }
}
