/**
 * The process monitor: one run of a shell command, sampled until it exits,
 * vanishes, exceeds its timeout or a sampling query fails.
 *
 * Processes, the clock and psutil are replaced by an observation trace. Each
 * step of the sampling loop is an `Iteration`: either `poll()` reports the exit
 * code, or the process is still running and the step carries the result of the
 * memory / CPU / I-O queries (a `Probe`) and the clock reading taken for the
 * timeout test. A `Finish` carries the clock reading taken after the loop and the
 * result of the best-effort final sample. Time is an integer tick count.
 */
module Monitor {
  import opened Wrappers

  /** Why a psutil query raised: the process is gone (`NoSuchProcess` or
      `ZombieProcess`), or anything else, with the exception's text. */
  datatype Fault = Vanished | Unexpected(detail: string)

  /** One sample: memory, then CPU time (user + system), then the two I/O byte
      counters. A fault stops the remaining queries, so a probe can have
      delivered the first one or two readings before failing. */
  datatype Probe =
    | Complete(rss: nat, cpu: real, readBytes: nat, writeBytes: nat)
    | FailedAtMemory(fault: Fault)
    | FailedAtCpu(rss: nat, fault: Fault)
    | FailedAtIo(rss: nat, cpu: real, fault: Fault)

  datatype Iteration =
    | Exited(returncode: int)
    | Polled(probe: Probe, clock: int)

  datatype Finish = Finish(clock: int, probe: Probe)

  datatype Metrics = Metrics(peakRss: nat, cpuTime: real, ioRead: nat, ioWrite: nat)

  /** The result record of one run. A timeout carries no return code and an error
      carries only its text. `returncode` is absent when the loop ended because
      the process vanished before `poll()` saw it exit. */
  datatype Outcome =
    | Finished(elapsed: int, metrics: Metrics, returncode: Option<int>)
    | TimedOut(elapsed: int, metrics: Metrics)
    | Failed(error: string)

  /** The `status` field of the result record. */
  function Status(o: Outcome): string {
    match o
    case Finished(_, _, _) => "finished"
    case TimedOut(_, _) => "timeout"
    case Failed(_) => "error"
  }

  function FaultOf(p: Probe): Option<Fault> {
    match p
    case Complete(_, _, _, _) => None
    case FailedAtMemory(f) => Some(f)
    case FailedAtCpu(_, f) => Some(f)
    case FailedAtIo(_, _, f) => Some(f)
  }

  /** The memory readings a probe delivered (zero or one). */
  function RssOf(p: Probe): seq<nat> {
    match p
    case Complete(rss, _, _, _) => [rss]
    case FailedAtMemory(_) => []
    case FailedAtCpu(rss, _) => [rss]
    case FailedAtIo(rss, _, _) => [rss]
  }

  /** The CPU-time readings a probe delivered (zero or one). */
  function CpuOf(p: Probe): seq<real> {
    match p
    case Complete(_, cpu, _, _) => [cpu]
    case FailedAtIo(_, cpu, _) => [cpu]
    case _ => []
  }

  /** The I/O counter readings (read bytes, write bytes) a probe delivered. */
  function IoOf(p: Probe): seq<(nat, nat)> {
    match p
    case Complete(_, _, r, w) => [(r, w)]
    case _ => []
  }

  /** All readings of one kind, in the order the probes took them. */
  function Readings<T>(ps: seq<Probe>, f: Probe -> seq<T>): seq<T> {
    if ps == [] then [] else Readings(ps[..|ps| - 1], f) + f(ps[|ps| - 1])
  }

  /** The largest element of `s`, or 0 when `s` is empty. */
  function MaxOrZero(s: seq<nat>): (m: nat)
    ensures forall i :: 0 <= i < |s| ==> s[i] <= m
    ensures s == [] ==> m == 0
    ensures s != [] ==> m in s
  {
    if s == [] then 0
    else
      var m := MaxOrZero(s[..|s| - 1]);
      assert s == s[..|s| - 1] + [s[|s| - 1]];
      if s[|s| - 1] > m then s[|s| - 1] else m
  }

  function LastOr<T>(s: seq<T>, default: T): T {
    if s == [] then default else s[|s| - 1]
  }

  /** What a run reports after the probes `ps`: the peak of every memory reading
      (0 if none) and the latest CPU time and I/O counters (their initial values
      0 if none). */
  function Summary(ps: seq<Probe>): Metrics {
    var io := LastOr(Readings(ps, IoOf), (0, 0));
    Metrics(MaxOrZero(Readings(ps, RssOf)), LastOr(Readings(ps, CpuOf), 0.0), io.0, io.1)
  }

  /** The updates one sample makes, query by query, to the running values. */
  function Absorb(m: Metrics, p: Probe): Metrics {
    match p
    case Complete(rss, cpu, r, w) =>
      Metrics(if rss > m.peakRss then rss else m.peakRss, cpu, r, w)
    case FailedAtMemory(_) => m
    case FailedAtCpu(rss, _) =>
      m.(peakRss := if rss > m.peakRss then rss else m.peakRss)
    case FailedAtIo(rss, cpu, _) =>
      m.(peakRss := if rss > m.peakRss then rss else m.peakRss, cpuTime := cpu)
  }

  lemma ReadingsAppend<T>(ps: seq<Probe>, p: Probe, f: Probe -> seq<T>)
    ensures Readings(ps + [p], f) == Readings(ps, f) + f(p)
  {
    assert (ps + [p])[..|ps|] == ps;
  }

  lemma MaxOrZeroAppend(s: seq<nat>, extra: seq<nat>)
    requires |extra| <= 1
    ensures MaxOrZero(s + extra)
            == if extra != [] && extra[0] > MaxOrZero(s) then extra[0] else MaxOrZero(s)
  {
    if extra == [] {
      assert s + extra == s;
    } else {
      assert (s + extra)[..|s|] == s;
    }
  }

  lemma LastOrAppend<T>(s: seq<T>, extra: seq<T>, default: T)
    requires |extra| <= 1
    ensures LastOr(s + extra, default) == if extra != [] then extra[0] else LastOr(s, default)
  {
    if extra == [] {
      assert s + extra == s;
    }
  }

  /** The running maximum and last-write-wins updates compute `Summary`. */
  lemma SummaryExtend(ps: seq<Probe>, p: Probe)
    ensures Summary(ps + [p]) == Absorb(Summary(ps), p)
  {
    ReadingsAppend(ps, p, RssOf);
    ReadingsAppend(ps, p, CpuOf);
    ReadingsAppend(ps, p, IoOf);
    MaxOrZeroAppend(Readings(ps, RssOf), RssOf(p));
    LastOrAppend(Readings(ps, CpuOf), CpuOf(p), 0.0);
    LastOrAppend(Readings(ps, IoOf), IoOf(p), (0, 0));
  }

  /** Whether a step ends the sampling loop: the process exited, a query raised,
      or the clock has passed the timeout (strictly). */
  predicate EndsLoop(it: Iteration, start: int, timeout: int) {
    match it
    case Exited(_) => true
    case Polled(p, clock) => FaultOf(p).Some? || clock - start > timeout
  }

  /** The trace reaches a step that ends the loop. */
  predicate Terminates(steps: seq<Iteration>, start: int, timeout: int) {
    exists j :: 0 <= j < |steps| && EndsLoop(steps[j], start, timeout)
  }

  /** The first step that ends the sampling loop, or `|steps|` if none does. */
  function FirstEnd(steps: seq<Iteration>, start: int, timeout: int): (k: nat)
    ensures k <= |steps|
    ensures k < |steps| ==> EndsLoop(steps[k], start, timeout)
    ensures forall j :: 0 <= j < k ==> !EndsLoop(steps[j], start, timeout)
    ensures Terminates(steps, start, timeout) ==> k < |steps|
  {
    if steps == [] then 0
    else if EndsLoop(steps[0], start, timeout) then 0
    else
      var k := 1 + FirstEnd(steps[1..], start, timeout);
      assert forall j :: 1 <= j < k ==> steps[j] == steps[1..][j - 1];
      k
  }

  /** The probes taken by the sampling steps of `steps`. */
  function LoopProbes(steps: seq<Iteration>): seq<Probe> {
    if steps == [] then []
    else
      var last := steps[|steps| - 1];
      LoopProbes(steps[..|steps| - 1]) + (if last.Polled? then [last.probe] else [])
  }

  /** Whether the step that ends the loop leads to the final sample and `finished`:
      the process exited, or it vanished while being sampled. */
  predicate Finishes(it: Iteration) {
    it.Exited? || FaultOf(it.probe) == Some(Vanished)
  }

  /** Every probe whose readings the run's result reflects: those of the loop up to
      the step that ends it, plus the final sample when the run finishes. */
  function ObservedProbes(start: int, timeout: int, steps: seq<Iteration>, fin: Finish): seq<Probe>
    requires Terminates(steps, start, timeout)
  {
    var k := FirstEnd(steps, start, timeout);
    var seen := LoopProbes(steps[..k + 1]);
    if Finishes(steps[k]) then seen + [fin.probe] else seen
  }

  /** The result of a run, stated from the step that ends the loop: an exit or a
      vanished process finishes with the summary of every reading including the
      final sample, an unexpected fault is an error, and otherwise the clock was
      past the timeout and the run timed out. */
  function Expected(start: int, timeout: int, steps: seq<Iteration>, fin: Finish): Outcome
    requires Terminates(steps, start, timeout)
  {
    var k := FirstEnd(steps, start, timeout);
    var it := steps[k];
    var observed := Summary(ObservedProbes(start, timeout, steps, fin));
    if it.Exited? then Finished(fin.clock - start, observed, Some(it.returncode))
    else if FaultOf(it.probe) == Some(Vanished) then Finished(fin.clock - start, observed, None)
    else if FaultOf(it.probe).Some? then Failed(FaultOf(it.probe).value.detail)
    else TimedOut(it.clock - start, observed)
  }

  lemma LoopProbesExtend(steps: seq<Iteration>, i: nat)
    requires i < |steps|
    ensures LoopProbes(steps[..i + 1])
            == LoopProbes(steps[..i]) + (if steps[i].Polled? then [steps[i].probe] else [])
  {
    assert steps[..i + 1][..i] == steps[..i];
  }

  /** One sample, query by query: memory updates the running peak, CPU time and
      the I/O counters overwrite the previous readings; a fault stops the rest. */
  method TakeSample(m: Metrics, p: Probe) returns (m': Metrics)
    ensures m' == Absorb(m, p)
  {
    var peakRss, cpuTime, ioRead, ioWrite := m.peakRss, m.cpuTime, m.ioRead, m.ioWrite;
    match p {
      case Complete(rss, cpu, r, w) =>
        if rss > peakRss { peakRss := rss; }
        cpuTime := cpu;
        ioRead, ioWrite := r, w;
      case FailedAtMemory(_) =>
      case FailedAtCpu(rss, _) =>
        if rss > peakRss { peakRss := rss; }
      case FailedAtIo(rss, cpu, _) =>
        if rss > peakRss { peakRss := rss; }
        cpuTime := cpu;
    }
    m' := Metrics(peakRss, cpuTime, ioRead, ioWrite);
  }

  lemma ExpectedAt(start: int, timeout: int, steps: seq<Iteration>, fin: Finish, k: nat)
    requires Terminates(steps, start, timeout) && k == FirstEnd(steps, start, timeout)
    ensures var it, seen := steps[k], LoopProbes(steps[..k + 1]);
            Expected(start, timeout, steps, fin)
            == if it.Exited? then Finished(fin.clock - start, Summary(seen + [fin.probe]), Some(it.returncode))
               else if FaultOf(it.probe) == Some(Vanished) then Finished(fin.clock - start, Summary(seen + [fin.probe]), None)
               else if FaultOf(it.probe).Some? then Failed(FaultOf(it.probe).value.detail)
               else TimedOut(it.clock - start, Summary(seen))
  {
    var it, seen := steps[k], LoopProbes(steps[..k + 1]);
    if Finishes(it) {
      assert ObservedProbes(start, timeout, steps, fin) == seen + [fin.probe];
    } else {
      assert ObservedProbes(start, timeout, steps, fin) == seen;
    }
  }

  /** `run_and_monitor`: the sampling loop over the trace. */
  method RunAndMonitor(start: int, timeout: int, steps: seq<Iteration>, fin: Finish)
    returns (out: Outcome)
    requires Terminates(steps, start, timeout)
    ensures out == Expected(start, timeout, steps, fin)
  {
    var metrics := Metrics(0, 0.0, 0, 0);
    var returncode: Option<int> := None;
    ghost var k := FirstEnd(steps, start, timeout);
    var i := 0;
    while true
      invariant i <= k
      invariant metrics == Summary(LoopProbes(steps[..i]))
      decreases k - i
    {
      LoopProbesExtend(steps, i);
      if steps[i].Exited? {
        returncode := Some(steps[i].returncode);
        assert EndsLoop(steps[i], start, timeout);
        assert LoopProbes(steps[..i + 1]) == LoopProbes(steps[..i]);
        break;
      }
      var p := steps[i].probe;
      assert LoopProbes(steps[..i + 1]) == LoopProbes(steps[..i]) + [p];
      SummaryExtend(LoopProbes(steps[..i]), p);
      metrics := TakeSample(metrics, p);
      assert metrics == Summary(LoopProbes(steps[..i + 1]));
      var fault := FaultOf(p);
      if fault.Some? || steps[i].clock - start > timeout {
        assert EndsLoop(steps[i], start, timeout);
        assert i == k;
        if fault == Some(Vanished) {
          break;
        } else if fault.Some? {
          ExpectedAt(start, timeout, steps, fin, i);
          return Failed(fault.value.detail);
        } else {
          ExpectedAt(start, timeout, steps, fin, i);
          return TimedOut(steps[i].clock - start, metrics);
        }
      }
      i := i + 1;
    }
    // the loop ended at step k by an exit or a vanished process; take the final sample
    assert i == k;
    assert metrics == Summary(LoopProbes(steps[..k + 1]));
    SummaryExtend(LoopProbes(steps[..k + 1]), fin.probe);
    metrics := TakeSample(metrics, fin.probe);
    ExpectedAt(start, timeout, steps, fin, k);
    assert returncode == if steps[k].Exited? then Some(steps[k].returncode) else None;
    return Finished(fin.clock - start, metrics, returncode);
  }

  // Properties of a run

  lemma {:induction false} ReadingsMembership<T>(ps: seq<Probe>, f: Probe -> seq<T>, x: T)
    ensures x in Readings(ps, f) <==> exists q :: q in ps && x in f(q)
    decreases |ps|
  {
    if ps != [] {
      var init := ps[..|ps| - 1];
      ReadingsMembership(init, f, x);
      assert ps == init + [ps[|ps| - 1]];
      if x in Readings(ps, f) && x !in Readings(init, f) {
        assert x in f(ps[|ps| - 1]);
      }
    }
  }

  lemma {:induction false} LoopProbesMembership(steps: seq<Iteration>, q: Probe)
    ensures q in LoopProbes(steps)
            <==> exists j :: 0 <= j < |steps| && steps[j].Polled? && steps[j].probe == q
    decreases |steps|
  {
    if steps != [] {
      var init := steps[..|steps| - 1];
      LoopProbesMembership(init, q);
      if exists j :: 0 <= j < |steps| && steps[j].Polled? && steps[j].probe == q {
        var j :| 0 <= j < |steps| && steps[j].Polled? && steps[j].probe == q;
        if j < |steps| - 1 {
          assert init[j] == steps[j];
        }
      }
    }
  }

  /** The probes a run's metrics reflect are exactly the samples taken up to the step
      that ends the loop, and the final sample when the run finishes. */
  lemma ObservedProbesAre(start: int, timeout: int, steps: seq<Iteration>, fin: Finish, q: Probe)
    requires Terminates(steps, start, timeout)
    ensures var k := FirstEnd(steps, start, timeout);
            q in ObservedProbes(start, timeout, steps, fin)
            <==> (exists j :: 0 <= j <= k && steps[j].Polled? && steps[j].probe == q)
                 || (Finishes(steps[k]) && q == fin.probe)
  {
    var k := FirstEnd(steps, start, timeout);
    LoopProbesMembership(steps[..k + 1], q);
    if exists j :: 0 <= j <= k && steps[j].Polled? && steps[j].probe == q {
      var j :| 0 <= j <= k && steps[j].Polled? && steps[j].probe == q;
      assert steps[..k + 1][j] == steps[j];
    }
  }

  lemma ReadingBelowPeak(ps: seq<Probe>, q: Probe, x: nat)
    requires q in ps && x in RssOf(q)
    ensures x <= MaxOrZero(Readings(ps, RssOf))
  {
    ReadingsMembership(ps, RssOf, x);
  }

  lemma PeakIsAReading(ps: seq<Probe>)
    requires Readings(ps, RssOf) != []
    ensures exists q :: q in ps && MaxOrZero(Readings(ps, RssOf)) in RssOf(q)
  {
    ReadingsMembership(ps, RssOf, MaxOrZero(Readings(ps, RssOf)));
  }

  lemma NoReadingNoPeak(ps: seq<Probe>)
    requires forall q :: q in ps ==> RssOf(q) == []
    ensures Readings(ps, RssOf) == []
  {
    if Readings(ps, RssOf) != [] {
      ReadingsMembership(ps, RssOf, Readings(ps, RssOf)[0]);
    }
  }

  lemma MaxOfReadings(ps: seq<Probe>)
    ensures var m := MaxOrZero(Readings(ps, RssOf));
            && (forall q, x :: q in ps && x in RssOf(q) ==> x <= m)
            && ((exists q :: q in ps && RssOf(q) != []) ==> exists q :: q in ps && m in RssOf(q))
            && ((forall q :: q in ps ==> RssOf(q) == []) ==> m == 0)
  {
    forall q, x | q in ps && x in RssOf(q) ensures x <= MaxOrZero(Readings(ps, RssOf)) {
      ReadingBelowPeak(ps, q, x);
    }
    if forall q :: q in ps ==> RssOf(q) == [] {
      NoReadingNoPeak(ps);
    } else {
      var q :| q in ps && RssOf(q) != [];
      ReadingBelowPeak(ps, q, RssOf(q)[0]);
      if Readings(ps, RssOf) == [] {
        ReadingsMembership(ps, RssOf, RssOf(q)[0]);
      }
      PeakIsAReading(ps);
    }
  }

  /** The reported peak memory is at least every memory reading the run took, the
      final sample included; it is one of those readings, or 0 when there was none. */
  lemma PeakIsMaximumReading(start: int, timeout: int, steps: seq<Iteration>, fin: Finish)
    requires Terminates(steps, start, timeout)
    ensures var o, obs := Expected(start, timeout, steps, fin), ObservedProbes(start, timeout, steps, fin);
            !o.Failed? ==>
              && (forall q, x :: q in obs && x in RssOf(q) ==> x <= o.metrics.peakRss)
              && ((exists q :: q in obs && RssOf(q) != []) ==>
                    exists q :: q in obs && o.metrics.peakRss in RssOf(q))
              && ((forall q :: q in obs ==> RssOf(q) == []) ==> o.metrics.peakRss == 0)
  {
    var o, obs := Expected(start, timeout, steps, fin), ObservedProbes(start, timeout, steps, fin);
    assert o.Failed? || o.metrics == Summary(obs);
    MaxOfReadings(obs);
  }

  lemma {:induction false} LastReadingWins<T>(ps: seq<Probe>, f: Probe -> seq<T>, default: T, j: nat)
    requires j < |ps| && |f(ps[j])| == 1
    requires forall i :: j < i < |ps| ==> f(ps[i]) == []
    ensures LastOr(Readings(ps, f), default) == f(ps[j])[0]
    decreases |ps|
  {
    var init := ps[..|ps| - 1];
    ReadingsAppend(init, ps[|ps| - 1], f);
    assert init + [ps[|ps| - 1]] == ps;
    if j < |ps| - 1 {
      assert Readings(ps, f) == Readings(init, f);
      LastReadingWins(init, f, default, j);
    }
  }

  lemma {:induction false} NoReadingKeepsDefault<T>(ps: seq<Probe>, f: Probe -> seq<T>, default: T)
    requires forall i :: 0 <= i < |ps| ==> f(ps[i]) == []
    ensures LastOr(Readings(ps, f), default) == default
    decreases |ps|
  {
    if ps != [] {
      NoReadingKeepsDefault(ps[..|ps| - 1], f, default);
    }
  }

  /** CPU time and both I/O counters are those of the last probe that delivered them
      (overwritten, never summed), or their initial 0 when no probe did. */
  lemma CountersAreLastReadings(start: int, timeout: int, steps: seq<Iteration>, fin: Finish, j: nat)
    requires Terminates(steps, start, timeout)
    ensures var o, obs := Expected(start, timeout, steps, fin), ObservedProbes(start, timeout, steps, fin);
            !o.Failed? && j < |obs| ==>
              && ((CpuOf(obs[j]) != [] && forall i :: j < i < |obs| ==> CpuOf(obs[i]) == [])
                  ==> o.metrics.cpuTime == CpuOf(obs[j])[0])
              && ((IoOf(obs[j]) != [] && forall i :: j < i < |obs| ==> IoOf(obs[i]) == [])
                  ==> (o.metrics.ioRead, o.metrics.ioWrite) == IoOf(obs[j])[0])
    ensures var o, obs := Expected(start, timeout, steps, fin), ObservedProbes(start, timeout, steps, fin);
            !o.Failed? ==>
              && ((forall i :: 0 <= i < |obs| ==> CpuOf(obs[i]) == []) ==> o.metrics.cpuTime == 0.0)
              && ((forall i :: 0 <= i < |obs| ==> IoOf(obs[i]) == []) ==> o.metrics.ioRead == o.metrics.ioWrite == 0)
  {
    var obs := ObservedProbes(start, timeout, steps, fin);
    if j < |obs| {
      if CpuOf(obs[j]) != [] && (forall i :: j < i < |obs| ==> CpuOf(obs[i]) == []) {
        LastReadingWins(obs, CpuOf, 0.0, j);
      }
      if IoOf(obs[j]) != [] && (forall i :: j < i < |obs| ==> IoOf(obs[i]) == []) {
        LastReadingWins(obs, IoOf, (0, 0), j);
      }
    }
    if forall i :: 0 <= i < |obs| ==> CpuOf(obs[i]) == [] {
      NoReadingKeepsDefault(obs, CpuOf, 0.0);
    }
    if forall i :: 0 <= i < |obs| ==> IoOf(obs[i]) == [] {
      NoReadingKeepsDefault(obs, IoOf, (0, 0));
    }
  }

  /** A run times out exactly when a complete sample was taken while the process was
      running, with the clock strictly past the timeout, and every earlier step was a
      complete sample within the timeout; the reported elapsed time then exceeds it. */
  lemma TimeoutExactly(start: int, timeout: int, steps: seq<Iteration>, fin: Finish)
    requires Terminates(steps, start, timeout)
    ensures var o := Expected(start, timeout, steps, fin);
            o.TimedOut? <==>
              exists j :: 0 <= j < |steps| && steps[j].Polled? && steps[j].probe.Complete?
                          && steps[j].clock - start > timeout
                          && forall i :: 0 <= i < j ==> !EndsLoop(steps[i], start, timeout)
    ensures var o := Expected(start, timeout, steps, fin);
            o.TimedOut? ==> o.elapsed > timeout
  {
    var k := FirstEnd(steps, start, timeout);
    if exists j :: 0 <= j < |steps| && steps[j].Polled? && steps[j].probe.Complete?
                   && steps[j].clock - start > timeout
                   && forall i :: 0 <= i < j ==> !EndsLoop(steps[i], start, timeout) {
      var j :| 0 <= j < |steps| && steps[j].Polled? && steps[j].probe.Complete?
               && steps[j].clock - start > timeout
               && forall i :: 0 <= i < j ==> !EndsLoop(steps[i], start, timeout);
      assert EndsLoop(steps[j], start, timeout);
      assert j == k;
    }
  }

  /** A process that vanishes while being sampled ends the run as `finished`, never
      as an error, and without a return code. */
  lemma VanishedProcessFinishes(start: int, timeout: int, steps: seq<Iteration>, fin: Finish, j: nat)
    requires j < |steps| && steps[j].Polled? && FaultOf(steps[j].probe) == Some(Vanished)
    requires forall i :: 0 <= i < j ==> !EndsLoop(steps[i], start, timeout)
    ensures Terminates(steps, start, timeout)
    ensures Expected(start, timeout, steps, fin).Finished?
    ensures Expected(start, timeout, steps, fin).returncode == None
  {
    assert EndsLoop(steps[j], start, timeout);
    assert FirstEnd(steps, start, timeout) == j;
  }

  /** Only an unexpected query failure makes a run an error, and the error carries
      that failure's text and nothing else. */
  lemma ErrorExactly(start: int, timeout: int, steps: seq<Iteration>, fin: Finish)
    requires Terminates(steps, start, timeout)
    ensures var o, k := Expected(start, timeout, steps, fin), FirstEnd(steps, start, timeout);
            o.Failed? <==> steps[k].Polled? && FaultOf(steps[k].probe).Some?
                            && FaultOf(steps[k].probe).value.Unexpected?
    ensures var o, k := Expected(start, timeout, steps, fin), FirstEnd(steps, start, timeout);
            o.Failed? ==> o == Failed(FaultOf(steps[k].probe).value.detail)
  {
  }

  /** A process seen to exit ends the run as `finished` with its return code. */
  lemma ExitedProcessFinishes(start: int, timeout: int, steps: seq<Iteration>, fin: Finish, j: nat)
    requires j < |steps| && steps[j].Exited?
    requires forall i :: 0 <= i < j ==> !EndsLoop(steps[i], start, timeout)
    ensures Terminates(steps, start, timeout)
    ensures Expected(start, timeout, steps, fin).Finished?
    ensures Expected(start, timeout, steps, fin).returncode == Some(steps[j].returncode)
  {
    assert EndsLoop(steps[j], start, timeout);
    assert FirstEnd(steps, start, timeout) == j;
  }

  /** The final sample never changes a run's status, and when it fails before its
      first query the run keeps the metrics the loop observed. */
  lemma FinalSampleIsBestEffort(start: int, timeout: int, steps: seq<Iteration>, fin: Finish, other: Finish)
    requires Terminates(steps, start, timeout)
    ensures Status(Expected(start, timeout, steps, fin)) == Status(Expected(start, timeout, steps, other))
    ensures var o, k := Expected(start, timeout, steps, fin), FirstEnd(steps, start, timeout);
            o.Finished? && fin.probe.FailedAtMemory? ==> o.metrics == Summary(LoopProbes(steps[..k + 1]))
  {
    var k := FirstEnd(steps, start, timeout);
    var seen := LoopProbes(steps[..k + 1]);
    SummaryExtend(seen, fin.probe);
  }
}
