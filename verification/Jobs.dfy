/**
The registry of workers and the heartbeat of `app/core/jobs.py`, as the objects the program updates in place.
The thread that `PollingWorker.Start` launches runs the step relation of `WorkerProtocol`; here it is an object
that is alive or not. A join is taken to end before its timeout, which `WorkerProtocol.StopBoundsTheThread` and
`SignalledThreadIsNotBlocked` justify for drains that end in time.
*/
module Jobs {
  import opened Common

  class Thread {
    const name: string
    var alive: bool

    constructor (name: string)
      ensures this.name == name && alive
    {
      this.name := name;
      alive := true;
    }
  }

  datatype Spec = Spec(drain: string, interval: real)

  class PollingWorker {
    const name: string
    const spec: Spec
    var wake: bool
    var stop: bool
    var thread: Thread?

    constructor (name: string, spec: Spec)
      ensures this.name == name && this.spec == spec
      ensures !wake && !stop && thread == null
    {
      this.name := name;
      this.spec := spec;
      wake, stop, thread := false, false, null;
    }

    method Start()
      modifies this`thread
      ensures old(thread) != null ==> thread == old(thread)
      ensures old(thread) == null ==>
                thread != null && fresh(thread) && thread.alive == !stop && thread.name == name
    {
      if thread != null {
        return;
      }
      thread := new Thread(name);
      if stop {  // its first test of the stop event ends it
        thread.alive := false;
      }
    }

    method Wake()
      modifies this`wake
      ensures wake
    {
      wake := true;
    }

    method Stop()
      modifies this, thread
      ensures stop && wake && thread == null
      ensures old(thread) != null ==> !old(thread).alive
    {
      stop := true;
      wake := true;
      if thread != null {
        thread.alive := false;
        thread := null;
      }
    }
  }

  function NamesOf(workers: seq<PollingWorker>): (r: seq<string>)
    ensures |r| == |workers|
  {
    seq(|workers|, i requires 0 <= i < |workers| => workers[i].name)
  }

  // The names without a worker, in their order.
  function Missing(names: seq<string>, running: set<string>): seq<string> {
    if names == [] then []
    else
      var last := names[|names| - 1];
      Missing(names[..|names| - 1], running) + if last in running then [] else [last]
  }

  lemma OneMoreName(names: seq<string>, i: nat)
    requires NoDup(names) && i < |names|
    ensures names[..i + 1] == names[..i] + [names[i]] && names[i] !in names[..i]
  {
  }

  lemma DoneSnoc(done: seq<string>, name: string, running: set<string>)
    ensures Elems(done + [name]) == Elems(done) + {name}
    ensures Missing(done + [name], running) == Missing(done, running) + if name in running then [] else [name]
  {
    assert (done + [name])[..|done|] == done;
  }

  lemma StartedSnoc(started: seq<PollingWorker>, worker: PollingWorker)
    ensures Elems(started + [worker]) == Elems(started) + {worker}
    ensures NamesOf(started + [worker]) == NamesOf(started) + [worker.name]
  {
  }

  /** The two dictionaries, the first with the order of its keys, and a ghost record of every thread that was ever
      started. */
  class Registry {
    var specs: map<string, Spec>
    var names: seq<string>   // the keys of `specs`, in the order in which each was first registered
    var running: map<string, PollingWorker>
    ghost var workers: set<PollingWorker>
    ghost var threads: set<Thread>

    ghost predicate Valid()
      reads this, workers, threads
    {
      && NoDup(names) && (forall n :: n in names <==> n in specs)
      && (forall n :: n in running ==>
            && running[n] in workers && running[n].name == n && !running[n].stop
            && running[n].thread != null && running[n].thread in threads
            && running[n].thread.alive && running[n].thread.name == n)
      && (forall t :: t in threads && t.alive ==> t.name in running && running[t.name].thread == t)
    }

    // The worker of `n` as `start_workers` leaves it: its flag up, its spec the registered one.
    ghost predicate Launched(n: string)
      requires n in running
      reads this, running[n]
    {
      running[n].wake && n in specs && running[n].spec == specs[n]
    }

    constructor ()
      ensures Valid() && specs == map[] && names == [] && running == map[] && workers == {} && threads == {}
    {
      specs, names, running, workers, threads := map[], [], map[], {}, {};
    }

    // Registering a name again keeps its place.
    method RegisterWorker(name: string, spec: Spec)
      requires Valid()
      modifies this`specs, this`names
      ensures Valid() && specs == old(specs)[name := spec]
      ensures names == if name in old(specs) then old(names) else old(names) + [name]
    {
      if name !in specs {
        names := names + [name];
      }
      specs := specs[name := spec];
    }

    // The body of the loop of `start_workers` for a queue without a worker.
    method StartOne(name: string) returns (worker: PollingWorker)
      requires Valid() && name in specs && name !in running
      modifies this`running, this`workers, this`threads
      ensures Valid() && fresh(worker) && running == old(running)[name := worker] && Launched(name)
      ensures worker.name == name && workers == old(workers) + {worker}
      ensures old(threads) <= threads
    {
      worker := new PollingWorker(name, specs[name]);
      worker.Start();
      worker.Wake();
      running := running[name := worker];
      workers, threads := workers + {worker}, threads + {worker.thread};
    }

    /** Afterwards every registered queue runs. A queue that ran keeps its worker; each of the others got a new
        one, with its flag up. These are the workers returned, in the order in which their queues were registered. */
    method StartWorkers() returns (started: seq<PollingWorker>)
      requires Valid()
      modifies this`running, this`workers, this`threads
      ensures Valid() && running.Keys == old(running.Keys) + specs.Keys
      ensures forall n :: n in old(running) ==> running[n] == old(running)[n]
      ensures forall n :: n in running && n !in old(running) ==> Launched(n)
      ensures NamesOf(started) == Missing(names, old(running).Keys)
      ensures forall w :: w in Elems(started) ==> w.name in running && running[w.name] == w
      ensures workers == old(workers) + Elems(started) && Elems(started) !! old(workers)
      ensures old(threads) <= threads
    {
      started := [];
      ghost var before, workersBefore := running, workers;
      ghost var done: set<string>, launched: set<PollingWorker> := {}, {};
      for i := 0 to |names|
        invariant Progress(before, workersBefore, done, launched)
        invariant done == Elems(names[..i]) && launched == Elems(started)
        invariant NamesOf(started) == Missing(names[..i], before.Keys)
        invariant old(threads) <= threads
      {
        var name := names[i];
        OneMoreName(names, i);
        DoneSnoc(names[..i], name, before.Keys);
        if name !in running {
          var worker := StartNext(name, before, workersBefore, done, launched);
          StartedSnoc(started, worker);
          started, launched := started + [worker], launched + {worker};
        }
        done := done + {name};
      }
      assert names[..|names|] == names;
    }

    // What `start_workers` has done once it has been through the queues `done`.
    ghost predicate Progress(before: map<string, PollingWorker>, workersBefore: set<PollingWorker>,
                             done: set<string>, started: set<PollingWorker>)
      reads this, workers, threads, started
    {
      && Valid() && running.Keys == before.Keys + done && workers == workersBefore + started && started !! workersBefore
      && (forall n :: n in before ==> n in running && running[n] == before[n])
      && (forall n :: n in running && n !in before ==> running[n] in started)
      && (forall w :: w in started ==> w.name in running && running[w.name] == w)
      && (forall w :: w in started ==> w.wake && w.name in specs && w.spec == specs[w.name])
    }

    // The body of the loop for a queue without a worker.
    method StartNext(name: string, ghost before: map<string, PollingWorker>, ghost workersBefore: set<PollingWorker>,
                     ghost done: set<string>, ghost started: set<PollingWorker>)
      returns (worker: PollingWorker)
      requires Progress(before, workersBefore, done, started) && name in specs && name !in running
      modifies this`running, this`workers, this`threads
      ensures Progress(before, workersBefore, done + {name}, started + {worker})
      ensures worker.name == name && old(threads) <= threads
    {
      worker := StartOne(name);
    }

    // The body of the loop of `stop_workers`: the worker leaves the registry and is stopped.
    method StopOne(name: string)
      requires Valid() && name in running
      modifies this`running, running[name], running[name].thread
      ensures Valid() && running == old(running) - {name}
      ensures Stopped(old(running)[name])
    {
      var worker := running[name];
      ghost var gone := worker.thread;
      assert forall n :: n in running && n != name ==> running[n] != worker && running[n].thread != gone;
      running := running - {name};
      worker.Stop();
    }

    ghost predicate Stopped(worker: PollingWorker)
      reads worker
    {
      worker.stop && worker.thread == null
    }

    // Some workers are stopped; those of the queues `todo` still run.
    ghost predicate Stopping(before: map<string, PollingWorker>, todo: set<string>)
      reads this, workers, threads, before.Values
    {
      && Valid() && running.Keys == todo && todo <= before.Keys
      && (forall n :: n in before ==> before[n].name == n)
      && (forall n :: n in todo ==> running[n] == before[n])
      && (forall n :: n in before && n !in todo ==> Stopped(before[n]))
    }

    method StopNext(name: string, ghost before: map<string, PollingWorker>)
      requires name in running && Stopping(before, running.Keys)
      modifies this`running, running[name], running[name].thread
      ensures running.Keys == old(running.Keys) - {name} && Stopping(before, running.Keys)
    {
      assert forall n :: n in before && n != name ==> before[n] != running[name];
      StopOne(name);
    }

    method StopWorkers()
      requires Valid()
      modifies this`running, workers, threads
      ensures Valid() && running == map[]
      ensures forall t :: t in threads ==> !t.alive
      ensures forall n :: n in old(running) ==> Stopped(old(running)[n])
    {
      ghost var before := running;
      var todo := running.Keys;
      while todo != {}
        invariant running.Keys == todo && Stopping(before, todo)
        decreases todo
      {
        var name :| name in todo;
        StopNext(name, before);
        todo := todo - {name};
      }
      assert running == map[];
    }

    method Notify(name: string)
      requires Valid()
      modifies workers`wake
      ensures Valid()
      ensures name in running ==> running[name].wake
      ensures forall w :: w in workers && (name in running ==> w != running[name]) ==> w.wake == old(w.wake)
    {
      if name in running {
        var worker := running[name];
        assert forall n :: n in running && n != name ==> running[n] != worker;
        worker.Wake();
      }
    }

    /** Whatever calls led here, a queue never has two live threads, and it has one exactly when it runs. */
    lemma OneLiveThreadPerQueue(name: string)
      requires Valid()
      ensures forall t, u :: t in threads && u in threads && t.alive && u.alive && t.name == u.name == name ==> t == u
      ensures name in running <==> exists t :: t in threads && t.alive && t.name == name
    {
      if name in running {
        assert running[name].thread in threads && running[name].thread.alive;
      }
    }
  }

  // ---------------------------------------------------------------------- heartbeat

  function IsStale(heartbeatAt: Option<real>, now: real, timeout: real): bool {
    match heartbeatAt
    case None => true
    case Some(at) => now - at > timeout
  }

  // One call of `tick`: when, whether it is forced, and whether the beat would succeed.
  datatype TickCall = TickCall(at: real, force: bool, ok: bool)

  function Due(last: Option<real>, every: real, call: TickCall): bool {
    call.force || last.None? || call.at - last.value >= every
  }

  // The last beat after some calls. A beat that raises is not recorded, so the next call tries again.
  function LastBeat(every: real, calls: seq<TickCall>): Option<real> {
    if calls == [] then None
    else
      var last := LastBeat(every, calls[..|calls| - 1]);
      var call := calls[|calls| - 1];
      if Due(last, every, call) && call.ok then Some(call.at) else last
  }

  datatype Outcome = NoBeat | Beat | Raised

  class Heartbeat {
    const every: real
    var last: Option<real>
    ghost var calls: seq<TickCall>

    ghost predicate Valid()
      reads this
    {
      last == LastBeat(every, calls)
    }

    constructor (every: real)
      ensures Valid() && this.every == every && calls == []
    {
      this.every := every;
      last, calls := None, [];
    }

    /** An unforced beat is at least `every` after the one before it; a beat that raises leaves the object as
        it was. */
    method Tick(call: TickCall) returns (outcome: Outcome)
      requires Valid()
      modifies this
      ensures Valid() && calls == old(calls) + [call]
      ensures outcome == Beat ==> last == Some(call.at)
      ensures outcome != Beat ==> last == old(last)
      ensures outcome == Beat && !call.force && old(last).Some? ==> call.at >= old(last).value + every
      ensures outcome == NoBeat ==> !call.force && last.Some? && call.at < last.value + every
      ensures outcome == Raised ==> !call.ok
    {
      calls := calls + [call];
      assert calls[..|calls| - 1] == old(calls);
      if call.force || last.None? || call.at - last.value >= every {
        if !call.ok {
          return Raised;
        }
        last := Some(call.at);
        return Beat;
      }
      return NoBeat;
    }
  }

  // How many calls at the end could not beat.
  function Trailing(calls: seq<TickCall>): (n: nat)
    ensures n <= |calls|
  {
    if calls == [] || calls[|calls| - 1].ok then 0 else 1 + Trailing(calls[..|calls| - 1])
  }

  predicate Paced(calls: seq<TickCall>, gap: real) {
    forall i :: 0 < i < |calls| ==> calls[i - 1].at <= calls[i].at <= calls[i - 1].at + gap
  }

  lemma {:induction false} BeatAge(every: real, gap: real, calls: seq<TickCall>)
    requires every >= 0.0 && gap >= 0.0 && Paced(calls, gap)
    requires Trailing(calls) < |calls|
    ensures var last := LastBeat(every, calls);
            && last.Some?
            && calls[|calls| - 1].at - last.value <= every + Gaps(Trailing(calls), gap)
  {
    var front := calls[..|calls| - 1];
    if !calls[|calls| - 1].ok {
      BeatAge(every, gap, front);
    } else if Trailing(front) < |front| {
      BeatAge(every, gap, front);
    } else if front != [] {
      NoBeatYet(every, front);
    }
  }

  // `n` times the gap.
  function Gaps(n: nat, gap: real): (r: real)
    ensures gap >= 0.0 ==> r >= 0.0
  {
    if n == 0 then 0.0 else Gaps(n - 1, gap) + gap
  }

  lemma {:induction false} NoBeatYet(every: real, calls: seq<TickCall>)
    requires Trailing(calls) == |calls|
    ensures LastBeat(every, calls) == None
  {
    if calls != [] { NoBeatYet(every, calls[..|calls| - 1]); }
  }

  /** A live job is never judged interrupted. The calls of `tick` are at most `gap` apart, and the last `f` of
      them could not beat, with one before that could. Until `gap` after the last call the job is not stale if
      `every + (f + 1) * gap` fits in the timeout; with beats that succeed, if `every + gap` does. */
  lemma {:induction false} LiveJobIsNotStale(
      every: real, gap: real, timeout: real, calls: seq<TickCall>, now: real)
    requires every >= 0.0 && gap >= 0.0 && Paced(calls, gap) && Trailing(calls) < |calls|
    requires calls[|calls| - 1].at <= now <= calls[|calls| - 1].at + gap
    requires every + Gaps(Trailing(calls) + 1, gap) <= timeout
    ensures !IsStale(LastBeat(every, calls), now, timeout)
  {
    BeatAge(every, gap, calls);
  }

  // A job none of whose calls could beat looks interrupted at any time.
  lemma SilentJobIsStale(every: real, calls: seq<TickCall>, now: real, timeout: real)
    requires Trailing(calls) == |calls|
    ensures IsStale(LastBeat(every, calls), now, timeout)
  {
    NoBeatYet(every, calls);
  }

  // Calls from 0 to `end`, at most `gap` apart, the first of which beats.
  lemma {:induction false} Ramp(every: real, gap: real, end: real, n: nat) returns (calls: seq<TickCall>)
    requires gap > 0.0 && 0.0 <= end < every && end <= Gaps(n, gap)
    decreases n
    ensures calls != [] && Paced(calls, gap) && calls[|calls| - 1].at == end
    ensures LastBeat(every, calls) == Some(0.0)
    ensures forall call :: call in calls ==> call.ok && !call.force
  {
    if n == 0 {
      calls := [TickCall(0.0, false, true)];
    } else {
      var before := if end <= gap then 0.0 else end - gap;
      var front := Ramp(every, gap, before, n - 1);
      calls := front + [TickCall(end, false, true)];
      RampSnoc(every, gap, front, end);
    }
  }

  lemma RampSnoc(every: real, gap: real, front: seq<TickCall>, end: real)
    requires front != [] && Paced(front, gap) && LastBeat(every, front) == Some(0.0)
    requires end < every && front[|front| - 1].at <= end <= front[|front| - 1].at + gap
    ensures Paced(front + [TickCall(end, false, true)], gap)
    ensures LastBeat(every, front + [TickCall(end, false, true)]) == Some(0.0)
  {
    var calls := front + [TickCall(end, false, true)];
    assert calls[..|calls| - 1] == front;
  }

  /** The bound is exact: with beats that always succeed, no schedule of calls at most `gap` apart lets the job
      look interrupted within `gap` of a call if and only if `every + gap <= timeout`. */
  lemma {:induction false} StalenessBoundIsExact(every: real, gap: real, timeout: real)
    requires every > 0.0 && gap > 0.0 && timeout >= 0.0
    ensures every + gap <= timeout <==>
            forall calls: seq<TickCall>, now ::
              Healthy(calls, gap) && Within(calls, gap, now) ==> !IsStale(LastBeat(every, calls), now, timeout)
  {
    if every + gap <= timeout {
      forall calls: seq<TickCall>, now | Healthy(calls, gap) && Within(calls, gap, now)
        ensures !IsStale(LastBeat(every, calls), now, timeout)
      {
        LiveJobIsNotStale(every, gap, timeout, calls, now);
      }
    } else {
      var room := (every + gap - timeout) / 2.0;
      var end := if room <= every then every - room else 0.0;
      var n := GapsReach(end, gap);
      var calls := Ramp(every, gap, end, n);
      assert Healthy(calls, gap) && Within(calls, gap, end + gap);
      assert IsStale(LastBeat(every, calls), end + gap, timeout);
    }
  }

  lemma {:induction false} GapsIsProduct(n: nat, gap: real)
    ensures Gaps(n, gap) == n as real * gap
  {
    if n > 0 {
      GapsIsProduct(n - 1, gap);
      assert n as real * gap == ((n - 1) as real + 1.0) * gap == (n - 1) as real * gap + gap;
    }
  }

  lemma LeqTimes(a: real, b: real, gap: real)
    requires a <= b && gap > 0.0
    ensures a * gap <= b * gap
  {
    assert (b - a) * gap >= 0.0;
  }

  lemma GapsReach(x: real, gap: real) returns (n: nat)
    requires x >= 0.0 && gap > 0.0
    ensures x <= Gaps(n, gap)
  {
    var q := x / gap;
    n := q.Floor + 1;
    LeqTimes(q, n as real, gap);
    calc {
      x;
    == { assert gap != 0.0; }
      q * gap;
    <=
      n as real * gap;
    == { GapsIsProduct(n, gap); }
      Gaps(n, gap);
    }
  }

  predicate Healthy(calls: seq<TickCall>, gap: real) {
    calls != [] && Paced(calls, gap) && forall call :: call in calls ==> call.ok
  }

  predicate Within(calls: seq<TickCall>, gap: real, now: real)
    requires calls != []
  {
    calls[|calls| - 1].at <= now <= calls[|calls| - 1].at + gap
  }
}
