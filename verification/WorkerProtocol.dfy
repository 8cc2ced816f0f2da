/**
The background worker of one queue: a daemon thread that sleeps on a wake flag, producers that commit
an item and then look the worker up to raise the flag, a caller that starts the thread, wakes it and lists
it in the registry, and a caller that takes it off the list and stops it with two signals.

Every interleaving is a run of `Step`. Three orders of the program text are parameters (`Config`), so that
what depends on them can be stated: the thread lowers the flag before it drains, `stop` sets the stop event
before the wake flag, and the worker is woken before it is listed. `Source` asks for the first two.
*/
module WorkerProtocol {

  type Item = nat

  // Where the thread is. `Starting` is between the second stop test and the call of the drain.
  datatype Pc = NotStarted | Top | Waiting | Clearing | Checking | Starting | Draining | Exited

  // How far the caller of `stop` is.
  datatype Stopper = Idle | HalfSignalled | Signalled

  // Whether the registry has the worker.
  datatype Listing = Unlisted | Listed | Gone

  datatype Config = Config(interval: real, clearFirst: bool, stopFirst: bool, listFirst: bool)

  datatype State = State(
    pc: Pc,
    wake: bool,
    stop: bool,
    stopper: Stopper,
    listing: Listing,
    woken: bool,                // `start_workers` has woken the thread
    begun: bool,                // a drain has begun since then
    now: real,
    since: real,                // when the thread last started, ended a drain or began one
    committed: set<Item>,
    early: set<Item>,           // what was committed while no drain had begun since then
    found: set<Item>,           // items whose `notify` has found the worker listed
    notified: map<Item, real>,  // when `notify` ended for each item
    dropped: set<Item>,         // those for which it did not find the worker
    drained: set<Item>,
    snapshot: set<Item>,        // what was committed when the running drain began
    left: set<Item>,            // items a drain had in its hands and left, and not notified since
    drainsAfterStop: nat)

  datatype Action =
    | Start
    | TestStop
    | WaitSignalled
    | WaitTimesOut
    | Clear
    | TestStopAgain
    | BeginDrain
    | EndDrain(done: set<Item>)
    | Commit(item: Item)
    | LookUp(item: Item)
    | Raise(item: Item)
    | FirstWake
    | List
    | Unlist
    | FirstSignal
    | SecondSignal
    | Tick(d: real)

  // The program wakes the worker before it lists it; what holds in both orders is proved for both.
  predicate Source(c: Config) {
    c.interval >= 0.0 && c.clearFirst && c.stopFirst
  }

  predicate WorkerAction(a: Action) {
    a.TestStop? || a.WaitSignalled? || a.WaitTimesOut? || a.Clear? || a.TestStopAgain?
    || a.BeginDrain? || a.EndDrain?
  }

  predicate Init(s: State) {
    && s.pc == NotStarted && !s.wake && !s.stop && s.stopper == Idle
    && s.listing == Unlisted && !s.woken && !s.begun
    && s.now == s.since && s.committed == {} && s.early == {} && s.found == {} && s.notified == map[]
    && s.dropped == {} && s.drained == {} && s.snapshot == {} && s.left == {} && s.drainsAfterStop == 0
  }

  /** The drain is foreign code, asked only to take committed items. By returning or by raising, it may leave any of
      those it had in its hands: the program's drains take a batch of limited size, and keep their failures to
      themselves. `notify` looks the worker up and then raises its flag, two steps; without a worker it ends at the
      first. */
  ghost predicate Step(c: Config, s: State, a: Action, s': State) {
    match a
    case Start => s.pc == NotStarted && s' == s.(pc := Top, since := s.now)
    case TestStop => s.pc == Top && s' == s.(pc := if s.stop then Exited else Waiting)
    case WaitSignalled => s.pc == Waiting && s.wake && s' == s.(pc := AfterWait(c))
    case WaitTimesOut => s.pc == Waiting && s.now >= s.since + c.interval && s' == s.(pc := AfterWait(c))
    case Clear => s.pc == Clearing && s' == s.(pc := if c.clearFirst then Checking else Top, wake := false)
    case TestStopAgain => s.pc == Checking && s' == s.(pc := if s.stop then Exited else Starting)
    case BeginDrain =>
      s.pc == Starting && s' == s.(pc := Draining, snapshot := s.committed, since := s.now, begun := s.woken,
                                   drainsAfterStop := s.drainsAfterStop + if s.stop then 1 else 0)
    case EndDrain(done) =>
      && s.pc == Draining && done <= s.committed
      && s' == s.(pc := AfterDrain(c), drained := s.drained + done, since := s.now,
                  left := s.left + (s.snapshot - (s.drained + done)))
    case Commit(item) =>
      && item !in s.committed
      && s' == s.(committed := s.committed + {item}, early := if s.begun then s.early else s.early + {item})
    case LookUp(item) =>
      && item in s.committed && item !in s.notified && item !in s.found
      && s' == if s.listing == Listed then s.(found := s.found + {item})
               else s.(notified := s.notified[item := s.now], dropped := s.dropped + {item})
    case Raise(item) =>
      && item in s.found && item !in s.notified
      && s' == s.(wake := true, notified := s.notified[item := s.now], left := s.left - {item})
    case FirstWake =>
      && s.pc != NotStarted && !s.woken && (c.listFirst ==> s.listing != Unlisted)
      && s' == s.(wake := true, woken := true)
    case List =>
      && s.pc != NotStarted && s.listing == Unlisted && (c.listFirst || s.woken)
      && s' == s.(listing := Listed)
    case Unlist => s.listing == Listed && s.woken && s' == s.(listing := Gone)
    case FirstSignal =>
      && s.stopper == Idle
      && s' == if c.stopFirst then s.(stopper := HalfSignalled, stop := true)
               else s.(stopper := HalfSignalled, wake := true)
    case SecondSignal =>
      && s.stopper == HalfSignalled
      && s' == if c.stopFirst then s.(stopper := Signalled, wake := true)
               else s.(stopper := Signalled, stop := true)
    case Tick(d) => d > 0.0 && s' == s.(now := s.now + d)
  }

  function AfterWait(c: Config): Pc { if c.clearFirst then Clearing else Checking }

  function AfterDrain(c: Config): Pc { if c.clearFirst then Top else Clearing }

  // A run: the state before each action and the state after the last one.
  ghost predicate Run(c: Config, ss: seq<State>, acts: seq<Action>) {
    && |ss| == |acts| + 1
    && Init(ss[0])
    && forall i {:trigger StepAt(c, ss, acts, i)} :: 0 <= i < |acts| ==> StepAt(c, ss, acts, i)
  }

  ghost predicate StepAt(c: Config, ss: seq<State>, acts: seq<Action>, i: nat)
    requires i < |acts| && |ss| == |acts| + 1
  {
    Step(c, ss[i], acts[i], ss[i + 1])
  }

  // A run ends in the state.
  ghost predicate Reached(c: Config, s: State) {
    exists ss: seq<State>, acts: seq<Action> :: Run(c, ss, acts) && ss[|acts|] == s
  }

  lemma Starts(c: Config, s: State)
    requires Init(s)
    ensures Reached(c, s)
  {
    assert Run(c, [s], []);
  }

  lemma Reach(c: Config, s: State, a: Action, s': State)
    requires Reached(c, s) && Step(c, s, a, s')
    ensures Reached(c, s')
  {
    var ss: seq<State>, acts: seq<Action> :| Run(c, ss, acts) && ss[|acts|] == s;
    var ss', acts' := ss + [s'], acts + [a];
    forall i | 0 <= i < |acts'| ensures StepAt(c, ss', acts', i) {
      if i < |acts| { assert StepAt(c, ss, acts, i); }
    }
    assert Run(c, ss', acts');
  }

  // ---------------------------------------------------------------------- no lost wake-up

  // The flag is up or still to be raised by `start_workers`, or a drain is about to begin, or the running
  // drain began after the commit.
  predicate OnItsWay(s: State, item: Item) {
    !s.woken || s.wake || s.pc == Checking || s.pc == Starting || (s.pc == Draining && item in s.snapshot)
  }

  predicate Pending(s: State, item: Item) {
    item in s.notified && item !in s.drained && item !in s.left
  }

  // What a caller of `notify` can know: the worker was listed, or the commit came before the first drain.
  predicate Kept(s: State, item: Item) {
    item !in s.dropped || item in s.early
  }

  /** A notified item that no drain has taken, and that no drain had in its hands since it was notified, is on
      its way to the worker if the worker was listed or the commit came before the first drain. */
  ghost predicate NoLostWakeup(s: State) {
    forall item :: Pending(s, item) && Kept(s, item) && !s.stop ==> OnItsWay(s, item)
  }

  // Notified or not, what was committed before the first drain is on its way.
  ghost predicate EarlyInv(s: State) {
    && (!s.begun ==> s.committed <= s.early)
    && (s.pc == NotStarted ==> !s.woken)
    && (s.woken && !s.begun && !s.stop ==> s.wake || s.pc == Checking || s.pc == Starting)
    && forall item :: item in s.early && item !in s.drained && item !in s.left && !s.stop ==> OnItsWay(s, item)
  }

  // Where the worker is listed before it is woken, `notify` misses it only early or once it was taken off.
  ghost predicate ListingInv(c: Config, s: State) {
    c.listFirst ==>
      && (s.listing == Unlisted ==> !s.woken)
      && (s.listing != Gone ==> s.dropped <= s.early)
  }

  ghost predicate Inv(c: Config, s: State) {
    && s.notified.Keys <= s.committed
    && s.dropped <= s.notified.Keys
    && s.early <= s.committed
    && s.found <= s.committed
    && s.left <= s.committed
    && s.drained <= s.committed
    && s.snapshot <= s.committed
    && (s.begun ==> s.woken)
    && EarlyInv(s)
    && NoLostWakeup(s)
    && ListingInv(c, s)
    && StopInv(s)
  }

  lemma StepKeepsEarly(c: Config, s: State, a: Action, s': State)
    requires Source(c) && Inv(c, s) && Step(c, s, a, s')
    ensures EarlyInv(s')
  {
    forall item | item in s'.early && item !in s'.drained && item !in s'.left && !s'.stop
      ensures OnItsWay(s', item)
    {
      if item in s.early && item !in s.left { assert OnItsWay(s, item); }
    }
  }

  lemma StepKeepsWakeups(c: Config, s: State, a: Action, s': State)
    requires Source(c) && Inv(c, s) && Step(c, s, a, s') && EarlyInv(s')
    ensures NoLostWakeup(s')
  {
    forall item | Pending(s', item) && Kept(s', item) && !s'.stop ensures OnItsWay(s', item) {
      if item in s.notified && item !in s.left {
        assert Pending(s, item);
        assert Kept(s, item);
      }
    }
  }

  lemma StepKeepsNotified(c: Config, s: State, a: Action, s': State)
    requires Inv(c, s) && Step(c, s, a, s')
    ensures s'.notified.Keys <= s'.committed && s'.dropped <= s'.notified.Keys
    ensures s'.early <= s'.committed && s'.found <= s'.committed
  {
  }

  lemma StepKeepsTaken(c: Config, s: State, a: Action, s': State)
    requires Inv(c, s) && Step(c, s, a, s')
    ensures s'.left <= s'.committed && s'.drained <= s'.committed && s'.snapshot <= s'.committed
  {
  }

  lemma StepKeepsStop(c: Config, s: State, a: Action, s': State)
    requires Source(c) && StopInv(s) && Step(c, s, a, s')
    ensures StopInv(s')
  {
  }

  lemma StepKeepsInv(c: Config, s: State, a: Action, s': State)
    requires Source(c) && Inv(c, s) && Step(c, s, a, s')
    ensures Inv(c, s')
  {
    StepKeepsNotified(c, s, a, s');
    StepKeepsTaken(c, s, a, s');
    StepKeepsStop(c, s, a, s');
    StepKeepsEarly(c, s, a, s');
    StepKeepsWakeups(c, s, a, s');
  }

  lemma {:induction false} RunKeepsInv(c: Config, ss: seq<State>, acts: seq<Action>, i: nat)
    requires Source(c) && Run(c, ss, acts) && i < |ss|
    ensures Inv(c, ss[i])
  {
    if i > 0 {
      assert StepAt(c, ss, acts, i - 1);
      RunKeepsInv(c, ss, acts, i - 1);
      StepKeepsInv(c, ss[i - 1], acts[i - 1], ss[i]);
    }
  }

  /** In every state of every interleaving, whether the worker is woken or listed first. */
  lemma {:induction false} WakeupsAreNeverLost(c: Config, ss: seq<State>, acts: seq<Action>)
    requires Source(c) && Run(c, ss, acts)
    ensures forall i :: 0 <= i < |ss| ==> NoLostWakeup(ss[i])
  {
    forall i | 0 <= i < |ss| ensures NoLostWakeup(ss[i]) { RunKeepsInv(c, ss, acts, i); }
  }

  // Every notified item that is not taken or left is on its way, early or late.
  ghost predicate AllOnTheirWay(s: State) {
    forall item :: Pending(s, item) && !s.stop ==> OnItsWay(s, item)
  }

  /** Until the worker is taken off the list no wake-up at all is lost if and only if `start_workers` lists the
      worker before it wakes it. The program wakes it first. */
  lemma NoneIsLostExactlyWhenListedFirst(c: Config)
    requires Source(c)
    ensures (forall s :: Reached(c, s) && s.listing != Gone ==> AllOnTheirWay(s)) <==> c.listFirst
  {
    if c.listFirst {
      forall s | Reached(c, s) && s.listing != Gone ensures AllOnTheirWay(s) {
        var ss: seq<State>, acts: seq<Action> :| Run(c, ss, acts) && ss[|acts|] == s;
        RunKeepsInv(c, ss, acts, |acts|);
      }
    } else {
      NotifyBeforeListingIsLost(c);
    }
  }

  /** An item committed and notified in a state is lost if and only if the worker is woken and not listed there, its
      flag is down, and no drain is about to begin; and then its first drain has begun. */
  lemma NewItemIsLostExactlyWhen(c: Config, s: State, item: Item, s1: State, s2: State)
    requires Source(c) && Reached(c, s) && !s.stop
    requires Step(c, s, Commit(item), s1) && Step(c, s1, LookUp(item), s2)
    ensures Pending(s2, item) && !OnItsWay(s2, item) <==>
              s.listing != Listed && s.woken && !s.wake && s.pc !in {Checking, Starting}
    ensures Pending(s2, item) && !OnItsWay(s2, item) ==> s.begun
  {
    var ss: seq<State>, acts: seq<Action> :| Run(c, ss, acts) && ss[|acts|] == s;
    RunKeepsInv(c, ss, acts, |acts|);
    assert item !in s.drained && item !in s.snapshot && item !in s.notified && item !in s.left;
  }

  // ---------------------------------------------------------------------- what the state says of the run

  // The record that the lemmas speak of is the history of the actions, told from them alone.

  ghost predicate Committed(acts: seq<Action>, k: nat, item: Item)
    requires k <= |acts|
  {
    exists i :: 0 <= i < k && acts[i] == Commit(item)
  }

  ghost predicate Taken(acts: seq<Action>, k: nat, item: Item)
    requires k <= |acts|
  {
    exists i :: 0 <= i < k && acts[i].EndDrain? && item in acts[i].done
  }

  // `notify` looked the worker up while it was not listed.
  ghost predicate Missed(ss: seq<State>, acts: seq<Action>, k: nat, item: Item)
    requires k <= |acts| < |ss|
  {
    exists i :: 0 <= i < k && acts[i] == LookUp(item) && ss[i].listing != Listed
  }

  ghost predicate Raised(acts: seq<Action>, k: nat, item: Item)
    requires k <= |acts|
  {
    exists i :: 0 <= i < k && acts[i] == Raise(item)
  }

  ghost predicate Woke(acts: seq<Action>, k: nat)
    requires k <= |acts|
  {
    exists i :: 0 <= i < k && acts[i] == FirstWake
  }

  // A drain has begun since.
  ghost predicate DrainedSinceWoken(acts: seq<Action>, k: nat)
    requires k <= |acts|
  {
    exists i :: 0 <= i < k && acts[i] == BeginDrain && Woke(acts, i)
  }

  ghost predicate CommittedEarly(acts: seq<Action>, k: nat, item: Item)
    requires k <= |acts|
  {
    exists i :: 0 <= i < k && acts[i] == Commit(item) && !DrainedSinceWoken(acts, i)
  }

  // The drain that begins at b has not ended before k.
  ghost predicate Runs(acts: seq<Action>, b: int, k: nat)
    requires k <= |acts|
  {
    0 <= b < k && acts[b] == BeginDrain && forall j :: b < j < k ==> !acts[j].EndDrain? && acts[j] != BeginDrain
  }

  // A drain ends at e that began after the commit, and none has taken the item.
  ghost predicate LeavesAt(acts: seq<Action>, e: int, item: Item) {
    && 0 <= e < |acts| && acts[e].EndDrain? && !Taken(acts, e + 1, item)
    && exists b :: Runs(acts, b, e) && Committed(acts, b, item)
  }

  // No flag was raised for the item since a drain left it.
  ghost predicate LeftBehind(acts: seq<Action>, k: nat, item: Item)
    requires k <= |acts|
  {
    exists e :: 0 <= e < k && LeavesAt(acts, e, item) && forall j :: e < j < k ==> acts[j] != Raise(item)
  }

  // The sets that a single action adds to.
  ghost predicate SetsAreTold(ss: seq<State>, acts: seq<Action>, k: nat, item: Item)
    requires k <= |acts| < |ss|
  {
    && (item in ss[k].committed <==> Committed(acts, k, item))
    && (item in ss[k].drained <==> Taken(acts, k, item))
    && (item in ss[k].dropped <==> Missed(ss, acts, k, item))
    && (item in ss[k].notified <==> Missed(ss, acts, k, item) || Raised(acts, k, item))
  }

  lemma {:induction false} SetsTold(c: Config, ss: seq<State>, acts: seq<Action>, k: nat, item: Item)
    requires Run(c, ss, acts) && k <= |acts|
    ensures SetsAreTold(ss, acts, k, item)
  {
    if k > 0 {
      SetsTold(c, ss, acts, k - 1, item);
      assert StepAt(c, ss, acts, k - 1);
      OneMoreAction(ss, acts, k - 1, item);
      CommittedStep(c, ss[k - 1], acts[k - 1], ss[k], item);
      DrainedStep(c, ss[k - 1], acts[k - 1], ss[k], item);
      DroppedStep(c, ss[k - 1], acts[k - 1], ss[k], item);
      NotifiedStep(c, ss[k - 1], acts[k - 1], ss[k], item);
    }
  }

  lemma OneMoreAction(ss: seq<State>, acts: seq<Action>, k: nat, item: Item)
    requires k < |acts| < |ss|
    ensures Committed(acts, k + 1, item) <==> Committed(acts, k, item) || acts[k] == Commit(item)
    ensures Taken(acts, k + 1, item) <==> Taken(acts, k, item) || (acts[k].EndDrain? && item in acts[k].done)
    ensures Missed(ss, acts, k + 1, item)
            <==> Missed(ss, acts, k, item) || (acts[k] == LookUp(item) && ss[k].listing != Listed)
    ensures Raised(acts, k + 1, item) <==> Raised(acts, k, item) || acts[k] == Raise(item)
  {
  }

  lemma CommittedStep(c: Config, s: State, a: Action, s': State, item: Item)
    requires Step(c, s, a, s')
    ensures item in s'.committed <==> item in s.committed || a == Commit(item)
  {
  }

  lemma DrainedStep(c: Config, s: State, a: Action, s': State, item: Item)
    requires Step(c, s, a, s')
    ensures item in s'.drained <==> item in s.drained || (a.EndDrain? && item in a.done)
  {
  }

  lemma DroppedStep(c: Config, s: State, a: Action, s': State, item: Item)
    requires Step(c, s, a, s')
    ensures item in s'.dropped <==> item in s.dropped || (a == LookUp(item) && s.listing != Listed)
  {
  }

  lemma NotifiedStep(c: Config, s: State, a: Action, s': State, item: Item)
    requires Step(c, s, a, s')
    ensures item in s'.notified
            <==> item in s.notified || (a == LookUp(item) && s.listing != Listed) || a == Raise(item)
  {
    if a.LookUp? || a.Raise? {
      assert s'.notified == s.notified || s'.notified == s.notified[a.item := s.now];
    } else {
      assert s'.notified == s.notified;
    }
  }

  // What `early` says.
  ghost predicate EarlyIsTold(s: State, acts: seq<Action>, k: nat, item: Item)
    requires k <= |acts|
  {
    && (s.woken <==> Woke(acts, k))
    && (s.begun <==> DrainedSinceWoken(acts, k))
    && (item in s.early <==> CommittedEarly(acts, k, item))
  }

  lemma {:induction false} EarlyTold(c: Config, ss: seq<State>, acts: seq<Action>, k: nat, item: Item)
    requires Run(c, ss, acts) && k <= |acts|
    ensures EarlyIsTold(ss[k], acts, k, item)
  {
    if k > 0 {
      EarlyTold(c, ss, acts, k - 1, item);
      assert StepAt(c, ss, acts, k - 1);
      OneMoreForEarly(acts, k - 1, item);
      EarlyStep(c, ss[k - 1], acts[k - 1], ss[k], item);
    }
  }

  lemma OneMoreForEarly(acts: seq<Action>, k: nat, item: Item)
    requires k < |acts|
    ensures Woke(acts, k + 1) <==> Woke(acts, k) || acts[k] == FirstWake
    ensures DrainedSinceWoken(acts, k + 1) <==> DrainedSinceWoken(acts, k) || (acts[k] == BeginDrain && Woke(acts, k))
    ensures CommittedEarly(acts, k + 1, item)
            <==> CommittedEarly(acts, k, item) || (acts[k] == Commit(item) && !DrainedSinceWoken(acts, k))
    ensures DrainedSinceWoken(acts, k) ==> Woke(acts, k)
  {
    if DrainedSinceWoken(acts, k) {
      var i :| 0 <= i < k && acts[i] == BeginDrain && Woke(acts, i);
      var j :| 0 <= j < i && acts[j] == FirstWake;
      assert 0 <= j < k;
    }
  }

  lemma EarlyStep(c: Config, s: State, a: Action, s': State, item: Item)
    requires Step(c, s, a, s') && (s.begun ==> s.woken)
    ensures s'.woken <==> s.woken || a == FirstWake
    ensures s'.begun <==> s.begun || (a == BeginDrain && s.woken)
    ensures item in s'.early <==> item in s.early || (a == Commit(item) && !s.begun)
  {
  }

  // What a running drain has in its hands.
  ghost predicate HandsAreTold(s: State, acts: seq<Action>, k: nat, item: Item)
    requires k <= |acts|
  {
    s.pc == Draining ==> exists b :: Runs(acts, b, k) && (item in s.snapshot <==> Committed(acts, b, item))
  }

  lemma {:induction false} HandsTold(c: Config, ss: seq<State>, acts: seq<Action>, k: nat, item: Item)
    requires Run(c, ss, acts) && k <= |acts|
    ensures HandsAreTold(ss[k], acts, k, item)
  {
    if k > 0 {
      HandsTold(c, ss, acts, k - 1, item);
      assert StepAt(c, ss, acts, k - 1);
      SetsTold(c, ss, acts, k - 1, item);
      HandsStep(c, ss[k - 1], acts[k - 1], ss[k], item);
      DrainGoesOn(acts, k - 1, item, ss[k - 1], ss[k]);
    }
  }

  lemma {:induction false} LeftTold(c: Config, ss: seq<State>, acts: seq<Action>, k: nat, item: Item)
    requires Run(c, ss, acts) && k <= |acts|
    ensures item in ss[k].left <==> LeftBehind(acts, k, item)
  {
    if k > 0 {
      LeftTold(c, ss, acts, k - 1, item);
      LeftAt(c, ss, acts, k - 1, item);
      OneMoreForLeft(acts, k - 1, item);
    }
  }

  lemma LeftAt(c: Config, ss: seq<State>, acts: seq<Action>, k: nat, item: Item)
    requires Run(c, ss, acts) && k < |acts|
    ensures item in ss[k + 1].left <==> (item in ss[k].left && acts[k] != Raise(item)) || LeavesAt(acts, k, item)
  {
    assert StepAt(c, ss, acts, k);
    HandsTold(c, ss, acts, k, item);
    SetsTold(c, ss, acts, k + 1, item);
    LeftStep(c, ss[k], acts[k], ss[k + 1], item);
    if acts[k].EndDrain? { LeavesExactly(acts, k, item, ss[k]); }
  }

  lemma HandsStep(c: Config, s: State, a: Action, s': State, item: Item)
    requires Step(c, s, a, s')
    ensures a.EndDrain? ==> s'.pc != Draining
    ensures s'.pc == Draining ==>
              if a == BeginDrain then item in s'.snapshot <==> item in s.committed
              else s.pc == Draining && s'.snapshot == s.snapshot
  {
  }

  lemma LeftStep(c: Config, s: State, a: Action, s': State, item: Item)
    requires Step(c, s, a, s')
    ensures a.EndDrain? ==> s.pc == Draining
    ensures item in s'.left <==>
              (item in s.left && a != Raise(item)) || (a.EndDrain? && item in s.snapshot && item !in s'.drained)
  {
  }

  lemma OneMoreForLeft(acts: seq<Action>, k: nat, item: Item)
    requires k < |acts|
    ensures LeftBehind(acts, k + 1, item) <==>
              (LeftBehind(acts, k, item) && acts[k] != Raise(item)) || LeavesAt(acts, k, item)
  {
    if LeftBehind(acts, k, item) && acts[k] != Raise(item) {
      var e :| 0 <= e < k && LeavesAt(acts, e, item) && forall j :: e < j < k ==> acts[j] != Raise(item);
      assert forall j :: e < j < k + 1 ==> acts[j] != Raise(item);
    }
  }

  lemma DrainGoesOn(acts: seq<Action>, k: nat, item: Item, s: State, s': State)
    requires k < |acts| && HandsAreTold(s, acts, k, item)
    requires acts[k].EndDrain? ==> s'.pc != Draining
    requires s'.pc == Draining ==>
               if acts[k] == BeginDrain then item in s'.snapshot <==> Committed(acts, k, item)
               else s.pc == Draining && s'.snapshot == s.snapshot
    ensures HandsAreTold(s', acts, k + 1, item)
  {
    if s'.pc == Draining {
      if acts[k] == BeginDrain {
        assert Runs(acts, k, k + 1);
      } else {
        var b :| Runs(acts, b, k) && (item in s.snapshot <==> Committed(acts, b, item));
        assert Runs(acts, b, k + 1);
      }
    }
  }

  lemma LeavesExactly(acts: seq<Action>, e: nat, item: Item, s: State)
    requires e < |acts| && acts[e].EndDrain? && s.pc == Draining && HandsAreTold(s, acts, e, item)
    ensures LeavesAt(acts, e, item) <==> item in s.snapshot && !Taken(acts, e + 1, item)
  {
    var b :| Runs(acts, b, e) && (item in s.snapshot <==> Committed(acts, b, item));
    if b' :| Runs(acts, b', e) && Committed(acts, b', item) {
      assert b == b';
    }
  }

  // The `notify` of the item ended at t.
  ghost predicate NotifiedAt(ss: seq<State>, acts: seq<Action>, k: nat, item: Item, t: real)
    requires k <= |acts| < |ss|
  {
    exists i :: 0 <= i < k && EndsNotify(acts[i], ss[i], item) && ss[i].now == t
  }

  predicate EndsNotify(a: Action, s: State, item: Item) {
    a == Raise(item) || (a == LookUp(item) && s.listing != Listed)
  }

  lemma TimeStep(c: Config, s: State, a: Action, s': State, item: Item)
    requires Step(c, s, a, s') && item in s'.notified
    ensures if EndsNotify(a, s, item) then s'.notified[item] == s.now
            else item in s.notified && s'.notified[item] == s.notified[item]
  {
  }

  lemma {:induction false} TimeTold(c: Config, ss: seq<State>, acts: seq<Action>, k: nat, item: Item)
    requires Run(c, ss, acts) && k <= |acts| && item in ss[k].notified
    ensures NotifiedAt(ss, acts, k, item, ss[k].notified[item])
  {
    if k > 0 {
      assert StepAt(c, ss, acts, k - 1);
      TimeStep(c, ss[k - 1], acts[k - 1], ss[k], item);
      if !EndsNotify(acts[k - 1], ss[k - 1], item) { TimeTold(c, ss, acts, k - 1, item); }
    }
  }

  ghost predicate Happened(acts: seq<Action>, k: nat, a: Action)
    requires k <= |acts|
  {
    exists i :: 0 <= i < k && acts[i] == a
  }

  // How far the two callers are.
  ghost predicate ListingIsTold(s: State, acts: seq<Action>, k: nat)
    requires k <= |acts|
  {
    && (s.pc == NotStarted <==> !Happened(acts, k, Start))
    && (s.listing == Unlisted <==> !Happened(acts, k, List)) && (s.listing == Gone <==> Happened(acts, k, Unlist))
  }

  ghost predicate StopperIsTold(c: Config, s: State, acts: seq<Action>, k: nat)
    requires k <= |acts|
  {
    && (s.stopper == Idle <==> !Happened(acts, k, FirstSignal)) && (s.stopper == Signalled <==> Happened(acts, k, SecondSignal))
    && (s.stop <==> Happened(acts, k, if c.stopFirst then FirstSignal else SecondSignal))
  }

  lemma {:induction false} ListingTold(c: Config, ss: seq<State>, acts: seq<Action>, k: nat)
    requires Run(c, ss, acts) && k <= |acts|
    ensures ListingIsTold(ss[k], acts, k)
  {
    if k > 0 {
      ListingTold(c, ss, acts, k - 1);
      assert StepAt(c, ss, acts, k - 1);
      StartStep(c, ss[k - 1], acts[k - 1], ss[k]);
      ListingStep(c, ss[k - 1], acts[k - 1], ss[k]);
      OneMoreHappened(acts, k - 1, Start);
      OneMoreHappened(acts, k - 1, List);
      OneMoreHappened(acts, k - 1, Unlist);
    }
  }

  lemma {:induction false} StopperTold(c: Config, ss: seq<State>, acts: seq<Action>, k: nat)
    requires Run(c, ss, acts) && k <= |acts|
    ensures StopperIsTold(c, ss[k], acts, k)
  {
    if k > 0 {
      StopperTold(c, ss, acts, k - 1);
      assert StepAt(c, ss, acts, k - 1);
      StopperStep(c, ss[k - 1], acts[k - 1], ss[k]);
      StopStep(c, ss[k - 1], acts[k - 1], ss[k]);
      OneMoreHappened(acts, k - 1, FirstSignal);
      OneMoreHappened(acts, k - 1, SecondSignal);
    }
  }

  lemma OneMoreHappened(acts: seq<Action>, k: nat, a: Action)
    requires k < |acts|
    ensures Happened(acts, k + 1, a) <==> Happened(acts, k, a) || acts[k] == a
  {
  }

  lemma StartStep(c: Config, s: State, a: Action, s': State)
    requires Step(c, s, a, s')
    ensures s'.pc == NotStarted <==> s.pc == NotStarted && a != Start
  {
  }

  lemma ListingStep(c: Config, s: State, a: Action, s': State)
    requires Step(c, s, a, s')
    ensures (s'.listing == Unlisted <==> s.listing == Unlisted && a != List) && (a == Unlist ==> s.listing == Listed)
    ensures s'.listing == Gone <==> s.listing == Gone || a == Unlist
  {
  }

  lemma StopperStep(c: Config, s: State, a: Action, s': State)
    requires Step(c, s, a, s')
    ensures (s'.stopper == Idle <==> s.stopper == Idle && a != FirstSignal) && (a == SecondSignal ==> s.stopper == HalfSignalled)
    ensures s'.stopper == Signalled <==> s.stopper == Signalled || a == SecondSignal
  {
  }

  lemma StopStep(c: Config, s: State, a: Action, s': State)
    requires Step(c, s, a, s')
    ensures s'.stop <==> s.stop || a == if c.stopFirst then FirstSignal else SecondSignal
  {
  }

  // What raises the flag.
  predicate RaisesFlag(c: Config, a: Action) {
    a == FirstWake || a.Raise? || a == if c.stopFirst then SecondSignal else FirstSignal
  }

  ghost predicate FlagUpSince(c: Config, acts: seq<Action>, i: int, k: nat)
    requires k <= |acts|
  {
    0 <= i < k && RaisesFlag(c, acts[i]) && forall j :: i < j < k ==> acts[j] != Clear
  }

  ghost predicate FlagUp(c: Config, acts: seq<Action>, k: nat)
    requires k <= |acts|
  {
    exists i :: FlagUpSince(c, acts, i, k)
  }

  // The last start, beginning or end of a drain.
  ghost predicate LastMark(acts: seq<Action>, i: int, k: nat)
    requires k <= |acts|
  {
    0 <= i < k && Marks(acts[i]) && forall j :: i < j < k ==> !Marks(acts[j])
  }

  predicate Marks(a: Action) { a.Start? || a.BeginDrain? || a.EndDrain? }

  function DrainsStopped(ss: seq<State>, acts: seq<Action>, k: nat): nat
    requires k <= |acts| < |ss|
  {
    if k == 0 then 0
    else DrainsStopped(ss, acts, k - 1) + if acts[k - 1].BeginDrain? && ss[k - 1].stop then 1 else 0
  }

  // The flag, the instant that the waiting counts from, and the drains that begin after the stop event.
  ghost predicate ThreadIsTold(c: Config, ss: seq<State>, acts: seq<Action>, k: nat)
    requires k <= |acts| < |ss|
  {
    && (ss[k].wake <==> FlagUp(c, acts, k))
    && (ss[k].pc != NotStarted ==> exists i :: LastMark(acts, i, k) && ss[i].now == ss[k].since)
    && ss[k].drainsAfterStop == DrainsStopped(ss, acts, k)
  }

  lemma {:induction false} ThreadTold(c: Config, ss: seq<State>, acts: seq<Action>, k: nat)
    requires Run(c, ss, acts) && k <= |acts|
    ensures ThreadIsTold(c, ss, acts, k)
  {
    if k > 0 {
      ThreadTold(c, ss, acts, k - 1);
      assert StepAt(c, ss, acts, k - 1);
      FlagStep(c, ss[k - 1], acts[k - 1], ss[k]);
      MarkStep(c, ss[k - 1], acts[k - 1], ss[k]);
      DrainsStoppedStep(c, ss[k - 1], acts[k - 1], ss[k]);
      OneMoreFlag(c, acts, k - 1);
      if Marks(acts[k - 1]) {
        assert LastMark(acts, k - 1, k);
      } else if ss[k].pc != NotStarted {
        var i :| LastMark(acts, i, k - 1) && ss[i].now == ss[k - 1].since;
        assert LastMark(acts, i, k);
      }
    }
  }

  lemma FlagStep(c: Config, s: State, a: Action, s': State)
    requires Step(c, s, a, s')
    ensures s'.wake <==> (s.wake && a != Clear) || RaisesFlag(c, a)
  {
  }

  lemma MarkStep(c: Config, s: State, a: Action, s': State)
    requires Step(c, s, a, s')
    ensures s'.since == if Marks(a) then s.now else s.since
    ensures s'.pc != NotStarted ==> s.pc != NotStarted || Marks(a)
  {
  }

  lemma DrainsStoppedStep(c: Config, s: State, a: Action, s': State)
    requires Step(c, s, a, s')
    ensures s'.drainsAfterStop == s.drainsAfterStop + if a.BeginDrain? && s.stop then 1 else 0
  {
  }

  lemma OneMoreFlag(c: Config, acts: seq<Action>, k: nat)
    requires k < |acts|
    ensures FlagUp(c, acts, k + 1) <==> (FlagUp(c, acts, k) && acts[k] != Clear) || RaisesFlag(c, acts[k])
  {
    var next := k + 1;
    if RaisesFlag(c, acts[k]) { assert FlagUpSince(c, acts, k, next); }
    if FlagUp(c, acts, k) && acts[k] != Clear {
      var i :| FlagUpSince(c, acts, i, k);
      assert FlagUpSince(c, acts, i, next);
    }
    if FlagUp(c, acts, next) && !RaisesFlag(c, acts[k]) {
      var i :| FlagUpSince(c, acts, i, next);
      assert FlagUpSince(c, acts, i, k);
    }
  }

  /** Everything that the lemmas below and above say of a state is the history of the run: what was committed, taken,
      notified and when, which `notify` found no listed worker, what was committed before the first drain of the woken
      worker, what a running drain has in its hands, and what drains have left; how far the callers are, whether the flag
      is up, from when the thread waits, and how many drains began after the stop event. */
  lemma TheStateIsTheHistory(c: Config, ss: seq<State>, acts: seq<Action>, k: nat, item: Item)
    requires Run(c, ss, acts) && k <= |acts|
    ensures SetsAreTold(ss, acts, k, item) && EarlyIsTold(ss[k], acts, k, item) && HandsAreTold(ss[k], acts, k, item)
    ensures item in ss[k].left <==> LeftBehind(acts, k, item)
    ensures item in ss[k].notified ==> NotifiedAt(ss, acts, k, item, ss[k].notified[item])
    ensures ListingIsTold(ss[k], acts, k) && StopperIsTold(c, ss[k], acts, k) && ThreadIsTold(c, ss, acts, k)
  {
    ListingTold(c, ss, acts, k);
    StopperTold(c, ss, acts, k);
    ThreadTold(c, ss, acts, k);
    SetsTold(c, ss, acts, k, item);
    EarlyTold(c, ss, acts, k, item);
    HandsTold(c, ss, acts, k, item);
    LeftTold(c, ss, acts, k, item);
    if item in ss[k].notified { TimeTold(c, ss, acts, k, item); }
  }

  ghost predicate Enabled(c: Config, s: State, a: Action) {
    exists s' :: Step(c, s, a, s')
  }

  /** No caller is held up by the worker or by another caller: each step of `start_workers`, `stop_workers`, `stop`,
      `notify` and the clock is enabled as soon as the one before it is done, and a drain may end with any committed
      items. */
  lemma CallersAreNeverHeldUp(c: Config, s: State)
    ensures s.pc == NotStarted ==> Enabled(c, s, Start)
    ensures s.pc != NotStarted && !c.listFirst ==>
              && (!s.woken ==> Enabled(c, s, FirstWake)) && (s.woken && s.listing == Unlisted ==> Enabled(c, s, List))
    ensures s.pc != NotStarted && c.listFirst ==>
              && (s.listing == Unlisted ==> Enabled(c, s, List)) && (s.listing == Listed && !s.woken ==> Enabled(c, s, FirstWake))
    ensures s.listing == Listed && s.woken ==> Enabled(c, s, Unlist)
    ensures (s.stopper == Idle ==> Enabled(c, s, FirstSignal)) && (s.stopper == HalfSignalled ==> Enabled(c, s, SecondSignal))
    ensures forall item :: item !in s.committed ==> Enabled(c, s, Commit(item))
    ensures forall item :: item in s.committed && item !in s.notified && item !in s.found ==> Enabled(c, s, LookUp(item))
    ensures forall item :: item in s.found && item !in s.notified ==> Enabled(c, s, Raise(item))
    ensures forall d :: d > 0.0 ==> Enabled(c, s, Tick(d))
    ensures forall done :: s.pc == Draining && done <= s.committed ==> Enabled(c, s, EndDrain(done))
  {
    CallersOfTheWorker(c, s);
    ItemsAreNeverHeldUp(c, s);
  }

  lemma ItemsAreNeverHeldUp(c: Config, s: State)
    ensures forall item :: item !in s.committed ==> Enabled(c, s, Commit(item))
    ensures forall item :: item in s.committed && item !in s.notified && item !in s.found ==> Enabled(c, s, LookUp(item))
    ensures forall item :: item in s.found && item !in s.notified ==> Enabled(c, s, Raise(item))
    ensures forall d :: d > 0.0 ==> Enabled(c, s, Tick(d))
    ensures forall done :: s.pc == Draining && done <= s.committed ==> Enabled(c, s, EndDrain(done))
  {
    forall item | item !in s.committed ensures Enabled(c, s, Commit(item)) {
      assert Step(c, s, Commit(item), s.(committed := s.committed + {item},
                                        early := if s.begun then s.early else s.early + {item}));
    }
    forall item | item in s.committed && item !in s.notified && item !in s.found ensures Enabled(c, s, LookUp(item)) {
      assert Step(c, s, LookUp(item),
                  if s.listing == Listed then s.(found := s.found + {item})
                  else s.(notified := s.notified[item := s.now], dropped := s.dropped + {item}));
    }
    forall item | item in s.found && item !in s.notified ensures Enabled(c, s, Raise(item)) {
      assert Step(c, s, Raise(item), s.(wake := true, notified := s.notified[item := s.now], left := s.left - {item}));
    }
    forall d | d > 0.0 ensures Enabled(c, s, Tick(d)) { assert Step(c, s, Tick(d), s.(now := s.now + d)); }
    forall done | s.pc == Draining && done <= s.committed ensures Enabled(c, s, EndDrain(done)) {
      assert Step(c, s, EndDrain(done), s.(pc := AfterDrain(c), drained := s.drained + done, since := s.now,
                                          left := s.left + (s.snapshot - (s.drained + done))));
    }
  }

  lemma CallersOfTheWorker(c: Config, s: State)
    ensures s.pc == NotStarted ==> Enabled(c, s, Start)
    ensures s.pc != NotStarted && !s.woken && (c.listFirst ==> s.listing != Unlisted) ==> Enabled(c, s, FirstWake)
    ensures s.pc != NotStarted && s.listing == Unlisted && (c.listFirst || s.woken) ==> Enabled(c, s, List)
    ensures s.listing == Listed && s.woken ==> Enabled(c, s, Unlist)
    ensures (s.stopper == Idle ==> Enabled(c, s, FirstSignal)) && (s.stopper == HalfSignalled ==> Enabled(c, s, SecondSignal))
  {
    if s.pc == NotStarted { assert Step(c, s, Start, s.(pc := Top, since := s.now)); }
    if s.pc != NotStarted && !s.woken && (c.listFirst ==> s.listing != Unlisted) {
      assert Step(c, s, FirstWake, s.(wake := true, woken := true));
    }
    if s.pc != NotStarted && s.listing == Unlisted && (c.listFirst || s.woken) {
      assert Step(c, s, List, s.(listing := Listed));
    }
    if s.listing == Listed && s.woken { assert Step(c, s, Unlist, s.(listing := Gone)); }
    if s.stopper == Idle {
      assert Step(c, s, FirstSignal, if c.stopFirst then s.(stopper := HalfSignalled, stop := true)
                                     else s.(stopper := HalfSignalled, wake := true));
    }
    if s.stopper == HalfSignalled {
      assert Step(c, s, SecondSignal, if c.stopFirst then s.(stopper := Signalled, wake := true)
                                      else s.(stopper := Signalled, stop := true));
    }
  }

  // ---------------------------------------------------------------------- stopping

  /** Once `stop` has sent both signals, a thread that has still to leave `wait` finds the flag up; and
      a drain that begins after the stop event is the last one. */
  ghost predicate StopInv(s: State) {
    && (s.stop <==> s.stopper != Idle)
    && (s.stopper == Signalled && s.pc !in {Checking, Exited} ==> s.wake)
    && (s.pc == Exited ==> s.stop)
    && s.drainsAfterStop <= 1
    && (s.pc !in {Draining, Top, Exited} || !s.stop ==> s.drainsAfterStop == 0)
  }

  // Steps the thread can still take once the stop event is set.
  function Rank(pc: Pc): nat {
    match pc
    case NotStarted => 2
    case Top => 1
    case Waiting => 3
    case Clearing => 2
    case Checking => 1
    case Starting => 3
    case Draining => 2
    case Exited => 0
  }

  // What the thread does next by itself, without waiting for the interval to pass.
  function NextAction(s: State): Action
    requires s.pc !in {NotStarted, Exited}
  {
    match s.pc
    case Top => TestStop
    case Waiting => WaitSignalled
    case Clearing => Clear
    case Checking => TestStopAgain
    case Starting => BeginDrain
    case _ => EndDrain(s.snapshot)
  }

  /** However long the interval is, a signalled thread is never blocked: its own next step is enabled, and
      every step it takes brings it closer to its exit. */
  lemma SignalledThreadIsNotBlocked(c: Config, s: State)
    requires Source(c) && Inv(c, s) && s.stopper == Signalled && s.pc !in {NotStarted, Exited}
    ensures exists s' :: Step(c, s, NextAction(s), s') && Rank(s'.pc) < Rank(s.pc)
  {
    var s' := match s.pc
      case Top => s.(pc := Exited)
      case Waiting => s.(pc := Clearing)
      case Clearing => s.(pc := Checking, wake := false)
      case Checking => s.(pc := Exited)
      case Starting => s.(pc := Draining, snapshot := s.committed, since := s.now, begun := s.woken,
                          drainsAfterStop := s.drainsAfterStop + 1)
      case _ => s.(pc := Top, drained := s.drained + s.snapshot, since := s.now,
                   left := s.left + (s.snapshot - (s.drained + s.snapshot)));
    assert Step(c, s, NextAction(s), s') && Rank(s'.pc) < Rank(s.pc);
  }

  function WorkerSteps(acts: seq<Action>): nat {
    if acts == [] then 0
    else WorkerSteps(acts[..|acts| - 1]) + if WorkerAction(acts[|acts| - 1]) then 1 else 0
  }

  lemma RankStep(c: Config, s: State, a: Action, s': State)
    requires Source(c) && Step(c, s, a, s') && s.stop && s.pc != NotStarted
    ensures s'.stop && s'.pc != NotStarted
    ensures Rank(s'.pc) + (if WorkerAction(a) then 1 else 0) <= Rank(s.pc)
  {}

  /** From the moment the stop event is set, wherever the thread is, all its later steps together are at
      most its rank, whatever the producers, the clock and the caller do in between. */
  lemma {:induction false} StopBoundsTheThread(c: Config, ss: seq<State>, acts: seq<Action>, i: nat, j: nat)
    requires Source(c) && Run(c, ss, acts) && i <= j < |ss| && ss[i].stop && ss[i].pc != NotStarted
    ensures ss[j].stop && ss[j].pc != NotStarted
    ensures WorkerSteps(acts[i..j]) + Rank(ss[j].pc) <= Rank(ss[i].pc) <= 3
    ensures ss[j].drainsAfterStop <= 1
    decreases j
  {
    RunKeepsInv(c, ss, acts, j);
    if i < j {
      StopBoundsTheThread(c, ss, acts, i, j - 1);
      assert acts[i..j][..j - 1 - i] == acts[i..j - 1];
      assert acts[i..j][j - 1 - i] == acts[j - 1];
      assert StepAt(c, ss, acts, j - 1);
      RankStep(c, ss[j - 1], acts[j - 1], ss[j]);
    }
  }

  // ---------------------------------------------------------------------- the orders matter

  // A thread that is not woken and has no items.
  function At(pc: Pc, wake: bool, stop: bool, stopper: Stopper): State {
    State(pc, wake, stop, stopper, Unlisted, false, false, 0.0, 0.0, {}, {}, {}, map[], {}, {}, {}, {}, 0)
  }

  // A woken thread and its first drain.
  function Woken(pc: Pc, wake: bool, listing: Listing, begun: bool): State {
    State(pc, wake, false, Idle, listing, true, begun, 0.0, 0.0, {}, {}, {}, map[], {}, {}, {}, {}, 0)
  }

  // The same, with an item committed in the drain.
  function Late(pc: Pc, wake: bool, listing: Listing, found: set<Item>, notified: map<Item, real>, dropped: set<Item>)
    : State
  {
    State(pc, wake, false, Idle, listing, true, true, 0.0, 0.0, {1}, {}, found, notified, dropped, {}, {}, {}, 0)
  }

  // The flag still up, the first drain begins.
  lemma FirstDrainWithTheFlagUp(c: Config)
    requires !c.clearFirst && !c.listFirst
    ensures Reached(c, Woken(Draining, true, Listed, true))
  {
    var s0 := At(NotStarted, false, false, Idle);
    var s1 := At(Top, false, false, Idle);
    var s2 := Woken(Top, true, Unlisted, false);
    var s3 := Woken(Top, true, Listed, false);
    var s4 := Woken(Waiting, true, Listed, false);
    var s5 := Woken(Checking, true, Listed, false);
    var s6 := Woken(Starting, true, Listed, false);
    var s7 := Woken(Draining, true, Listed, true);
    Starts(c, s0);
    Reach(c, s0, Start, s1);
    Reach(c, s1, FirstWake, s2);
    Reach(c, s2, List, s3);
    Reach(c, s3, TestStop, s4);
    Reach(c, s4, WaitSignalled, s5);
    Reach(c, s5, TestStopAgain, s6);
    Reach(c, s6, BeginDrain, s7);
  }

  // A notify in it.
  lemma NotifyInTheFirstDrain(c: Config)
    requires !c.clearFirst && !c.listFirst
    ensures Reached(c, Late(Draining, true, Listed, {1}, map[1 := 0.0], {}))
  {
    var s7 := Woken(Draining, true, Listed, true);
    var s8 := Late(Draining, true, Listed, {}, map[], {});
    var s9 := Late(Draining, true, Listed, {1}, map[], {});
    var s10 := Late(Draining, true, Listed, {1}, map[1 := 0.0], {});
    FirstDrainWithTheFlagUp(c);
    Reach(c, s7, Commit(1), s8);
    Reach(c, s8, LookUp(1), s9);
    Reach(c, s9, Raise(1), s10);
  }

  /** With the flag lowered after the drain, a run loses a wake-up: the item is notified while the drain
      runs, and the late clear erases it. */
  lemma ClearAfterDrainLosesAWakeup(c: Config)
    requires !c.clearFirst && !c.listFirst
    ensures exists s :: Reached(c, s) && !NoLostWakeup(s)
  {
    var s10 := Late(Draining, true, Listed, {1}, map[1 := 0.0], {});
    var s11 := Late(Clearing, true, Listed, {1}, map[1 := 0.0], {});
    var s12 := Late(Top, false, Listed, {1}, map[1 := 0.0], {});
    NotifyInTheFirstDrain(c);
    Reach(c, s10, EndDrain({}), s11);
    Reach(c, s11, Clear, s12);
    assert Pending(s12, 1) && Kept(s12, 1);
  }

  // Before the worker is listed, its first drain begins.
  lemma FirstDrainBeforeListing(c: Config)
    requires c.clearFirst && !c.listFirst
    ensures Reached(c, Woken(Draining, false, Unlisted, true))
  {
    var s0 := At(NotStarted, false, false, Idle);
    var s1 := At(Top, false, false, Idle);
    var s2 := Woken(Top, true, Unlisted, false);
    var s3 := Woken(Waiting, true, Unlisted, false);
    var s4 := Woken(Clearing, true, Unlisted, false);
    var s5 := Woken(Checking, false, Unlisted, false);
    var s6 := Woken(Starting, false, Unlisted, false);
    var s7 := Woken(Draining, false, Unlisted, true);
    Starts(c, s0);
    Reach(c, s0, Start, s1);
    Reach(c, s1, FirstWake, s2);
    Reach(c, s2, TestStop, s3);
    Reach(c, s3, WaitSignalled, s4);
    Reach(c, s4, Clear, s5);
    Reach(c, s5, TestStopAgain, s6);
    Reach(c, s6, BeginDrain, s7);
  }

  /** The program's order loses one: the woken thread lowers its flag and begins its first drain, an item is committed
      and `notify` does not find the worker, then the worker is listed and the drain ends. Nothing but the interval
      brings the item to the next drain. */
  lemma NotifyBeforeListingIsLost(c: Config)
    requires c.clearFirst && !c.listFirst
    ensures exists s :: Reached(c, s) && s.listing == Listed && s.pc == Waiting && !s.wake && !AllOnTheirWay(s)
  {
    var s7 := Woken(Draining, false, Unlisted, true);
    var s8 := Late(Draining, false, Unlisted, {}, map[], {});
    var s9 := Late(Draining, false, Unlisted, {}, map[1 := 0.0], {1});
    var s10 := Late(Draining, false, Listed, {}, map[1 := 0.0], {1});
    var s11 := Late(Top, false, Listed, {}, map[1 := 0.0], {1});
    var s12 := Late(Waiting, false, Listed, {}, map[1 := 0.0], {1});
    FirstDrainBeforeListing(c);
    Reach(c, s7, Commit(1), s8);
    Reach(c, s8, LookUp(1), s9);
    Reach(c, s9, List, s10);
    Reach(c, s10, EndDrain({}), s11);
    Reach(c, s11, TestStop, s12);
    assert Pending(s12, 1) && !OnItsWay(s12, 1);
  }

  // The wake flag alone sent, and lowered, a drain begins.
  lemma LastDrainBegins(c: Config)
    requires c.clearFirst && !c.stopFirst
    ensures Reached(c, At(Starting, false, false, HalfSignalled))
  {
    var s0 := At(NotStarted, false, false, Idle);
    var s1 := At(Top, false, false, Idle);
    var s2 := At(Waiting, false, false, Idle);
    var s3 := At(Waiting, true, false, HalfSignalled);
    var s4 := At(Clearing, true, false, HalfSignalled);
    var s5 := At(Checking, false, false, HalfSignalled);
    var s6 := At(Starting, false, false, HalfSignalled);
    Starts(c, s0);
    Reach(c, s0, Start, s1);
    Reach(c, s1, TestStop, s2);
    Reach(c, s2, FirstSignal, s3);
    Reach(c, s3, WaitSignalled, s4);
    Reach(c, s4, Clear, s5);
    Reach(c, s5, TestStopAgain, s6);
  }

  /** With the two signals of `stop` exchanged, a run ends with both sent, the thread inside `wait` and the
      flag down: it sleeps until the interval passes. */
  lemma WakeBeforeStopCanSleep(c: Config)
    requires c.clearFirst && !c.stopFirst
    ensures exists s :: Reached(c, s) && s.stopper == Signalled && s.stop && s.pc == Waiting && !s.wake
  {
    var s6 := At(Starting, false, false, HalfSignalled);
    var s7 := At(Draining, false, false, HalfSignalled);
    var s8 := At(Top, false, false, HalfSignalled);
    var s9 := At(Waiting, false, false, HalfSignalled);
    var s10 := At(Waiting, false, true, Signalled);
    LastDrainBegins(c);
    Reach(c, s6, BeginDrain, s7);
    Reach(c, s7, EndDrain({}), s8);
    Reach(c, s8, TestStop, s9);
    Reach(c, s9, SecondSignal, s10);
  }

  // ---------------------------------------------------------------------- real time

  /** The clock may move only while the woken thread sleeps with the flag down and the interval not over, while
      a drain shorter than `longest` runs, or after the exit. Every other step takes no time; but the steps of
      `start_workers`, `notify` and `stop` may lag behind each other. */
  predicate Patient(c: Config, longest: real, s: State, d: real) {
    match s.pc
    case Waiting => s.woken && !s.wake && s.now + d <= s.since + c.interval
    case Draining => s.woken && s.now + d <= s.since + longest
    case Exited => true
    case _ => false
  }

  ghost predicate TimedRun(c: Config, longest: real, ss: seq<State>, acts: seq<Action>) {
    && Run(c, ss, acts)
    && longest >= 0.0
    && forall i {:trigger StepAt(c, ss, acts, i)} :: 0 <= i < |acts| ==> PatientAt(c, longest, ss[i], acts[i])
  }

  predicate PatientAt(c: Config, longest: real, s: State, a: Action) {
    a.Tick? ==> Patient(c, longest, s, a.d)
  }

  predicate BetweenDrains(s: State) { s.pc in {Top, Waiting, Clearing, Checking, Starting} }

  /** After a drain ends, by returning or by raising, the next one begins within the interval: as long as
      none has begun and nobody stopped the thread, no more than the interval has passed. */
  lemma {:induction false} NextDrainBeginsWithinInterval(
      c: Config, longest: real, ss: seq<State>, acts: seq<Action>, i: nat, k: nat)
    requires Source(c) && TimedRun(c, longest, ss, acts) && i < k < |ss|
    requires acts[i].EndDrain?
    requires forall j :: i < j < k ==> !acts[j].BeginDrain?
    requires !ss[k].stop
    ensures BetweenDrains(ss[k]) && ss[k].since == ss[i + 1].now
    ensures ss[k].now <= ss[i + 1].now + c.interval
    ensures ss[k].pc == Top ==> ss[k].now == ss[i + 1].now
    decreases k
  {
    assert StepAt(c, ss, acts, k - 1);
    if i + 1 < k {
      NextDrainBeginsWithinInterval(c, longest, ss, acts, i, k - 1);
    }
  }

  // Drains that end in a run of actions.
  function Drains(acts: seq<Action>): nat {
    if acts == [] then 0
    else Drains(acts[..|acts| - 1]) + if acts[|acts| - 1].EndDrain? then 1 else 0
  }

  lemma DrainsOfOneMore(acts: seq<Action>, i: nat, k: nat)
    requires i <= k < |acts|
    ensures Drains(acts[i..k + 1]) == Drains(acts[i..k]) + if acts[k].EndDrain? then 1 else 0
  {
    assert acts[i..k + 1][..k - i] == acts[i..k];
  }

  // n times an interval and a drain.
  function Rounds(c: Config, longest: real, n: nat): real {
    if n == 0 then 0.0 else Rounds(c, longest, n - 1) + (c.interval + longest)
  }

  // An item left at a drain's end, when all tries so far were over by t.
  predicate InHand(c: Config, longest: real, s: State, item: Item, t: real) {
    && item in s.committed
    && if s.pc == Draining then item in s.snapshot && s.since <= t + c.interval && s.now <= s.since + longest
       else BetweenDrains(s) && s.since <= t && s.now <= s.since + c.interval && (s.pc == Top ==> s.now == s.since)
  }

  lemma InHandStep(c: Config, longest: real, s: State, a: Action, s': State, item: Item, t: real)
    requires Source(c) && longest >= 0.0 && Step(c, s, a, s') && InHand(c, longest, s, item, t) && !s'.stop
    requires PatientAt(c, longest, s, a)
    ensures InHand(c, longest, s', item, if a.EndDrain? then t + (c.interval + longest) else t)
  {}

  // A drain that ends with an item in hand and not taken.
  predicate Tries(s: State, a: Action, item: Item) {
    a.EndDrain? ==> item in s.snapshot && item !in a.done
  }

  lemma TriesStep(c: Config, longest: real, s: State, a: Action, s': State, item: Item, t: real)
    requires Step(c, s, a, s') && InHand(c, longest, s, item, t) && item !in s'.drained
    ensures Tries(s, a, item)
  {}

  lemma StillWaiting(c: Config, s: State, a: Action, s': State, item: Item)
    requires Step(c, s, a, s') && item !in s'.drained && !s'.stop
    ensures item !in s.drained && !s.stop
  {}

  lemma {:induction false} InHandAt(
      c: Config, longest: real, ss: seq<State>, acts: seq<Action>, i: nat, k: nat, item: Item)
    requires Source(c) && TimedRun(c, longest, ss, acts) && i < k < |ss|
    requires acts[i].EndDrain? && item in ss[i].committed
    requires item !in ss[k].drained && !ss[k].stop
    ensures InHand(c, longest, ss[k], item, ss[i + 1].now + Rounds(c, longest, Drains(acts[i + 1..k])))
    decreases k
  {
    assert StepAt(c, ss, acts, k - 1);
    StillWaiting(c, ss[k - 1], acts[k - 1], ss[k], item);
    if i + 1 == k {
      LeftInHand(c, longest, ss[i], acts[i], ss[k], item);
    } else {
      InHandAt(c, longest, ss, acts, i, k - 1, item);
      DrainsOfOneMore(acts, i + 1, k - 1);
      var t := ss[i + 1].now + Rounds(c, longest, Drains(acts[i + 1..k - 1]));
      InHandStep(c, longest, ss[k - 1], acts[k - 1], ss[k], item, t);
    }
  }

  lemma LeftInHand(c: Config, longest: real, s: State, a: Action, s': State, item: Item)
    requires Source(c) && Step(c, s, a, s') && a.EndDrain? && item in s.committed
    ensures InHand(c, longest, s', item, s'.now)
  {}

  /** What a drain leaves is tried again and again: every drain that ended since had it in its hands, and n of them
      have ended before n + 1 intervals and drains are over. So no item is forgotten behind failures: after any time
      it is taken, or that many drains have tried it. */
  lemma {:induction false} LeftItemsAreTriedAgain(
      c: Config, longest: real, ss: seq<State>, acts: seq<Action>, i: nat, k: nat, item: Item)
    requires Source(c) && TimedRun(c, longest, ss, acts) && i < k < |ss|
    requires acts[i].EndDrain? && item in ss[i].committed
    requires item !in ss[k].drained && !ss[k].stop
    ensures ss[k].now <= ss[i + 1].now + Rounds(c, longest, Drains(acts[i + 1..k]) + 1)
    ensures forall j :: i < j < k ==> Tries(ss[j], acts[j], item)
    decreases k
  {
    InHandAt(c, longest, ss, acts, i, k, item);
    if i + 1 < k {
      TriesAt(c, longest, ss, acts, i, k - 1, item);
      LeftItemsAreTriedAgain(c, longest, ss, acts, i, k - 1, item);
    }
  }

  lemma TriesAt(c: Config, longest: real, ss: seq<State>, acts: seq<Action>, i: nat, k: nat, item: Item)
    requires Source(c) && TimedRun(c, longest, ss, acts) && i < k < |acts|
    requires acts[i].EndDrain? && item in ss[i].committed
    requires item !in ss[k + 1].drained && !ss[k + 1].stop
    ensures Tries(ss[k], acts[k], item) && item !in ss[k].drained && !ss[k].stop
  {
    assert StepAt(c, ss, acts, k);
    StillWaiting(c, ss[k], acts[k], ss[k + 1], item);
    InHandAt(c, longest, ss, acts, i, k, item);
    TriesStep(c, longest, ss[k], acts[k], ss[k + 1], item,
              ss[i + 1].now + Rounds(c, longest, Drains(acts[i + 1..k])));
  }

  /** A wake-up that arrives outside a drain starts one at once: no time passes before the next drain. So a
      worker that `start_workers` starts and wakes makes its first drain without an interval wait. */
  lemma {:induction false} WokenThreadDrainsAtOnce(
      c: Config, longest: real, ss: seq<State>, acts: seq<Action>, i: nat, k: nat)
    requires Source(c) && TimedRun(c, longest, ss, acts) && i < k < |ss|
    requires (acts[i].FirstWake? || acts[i].Raise?) && ss[i].pc != Draining
    requires forall j :: i < j < k ==> !acts[j].BeginDrain?
    requires !ss[k].stop
    ensures ss[k].now == ss[i].now && ss[k].pc !in {Draining, Exited}
    ensures ss[k].wake || ss[k].pc == Checking || ss[k].pc == Starting
    decreases k
  {
    RunKeepsInv(c, ss, acts, i);
    assert StepAt(c, ss, acts, k - 1);
    if i + 1 < k {
      WokenThreadDrainsAtOnce(c, longest, ss, acts, i, k - 1);
    }
  }

  // Every drain so far keeps to `longest`, and the thread to its interval.
  predicate ClockInv(c: Config, longest: real, s: State) {
    && s.since <= s.now
    && (s.pc == Draining ==> s.now <= s.since + longest)
    && (BetweenDrains(s) ==> s.now <= s.since + c.interval)
    && (s.pc == Top || s.pc == NotStarted ==> s.now == s.since)
  }

  // An item on its way since t, at the latest.
  predicate Waits(longest: real, s: State, item: Item, t: real) {
    && s.since <= t + longest
    && (s.pc != Draining ==> s.now <= t + longest)
    && (s.pc == Draining && item !in s.snapshot ==> s.since <= t)
  }

  // Any item notified at t.
  predicate WaitsOnceMore(c: Config, longest: real, s: State, item: Item, t: real) {
    && s.since <= t + longest + c.interval
    && (s.pc != Draining ==> s.since <= t + longest)
    && (s.pc == Draining && item !in s.snapshot ==> s.since <= t)
  }

  predicate Waited(c: Config, longest: real, s: State, item: Item, t: real) {
    && t <= s.now
    && (Kept(s, item) ==> Waits(longest, s, item, t))
    && WaitsOnceMore(c, longest, s, item, t)
  }

  ghost predicate LatencyInv(c: Config, longest: real, s: State) {
    && ClockInv(c, longest, s)
    && forall item :: Pending(s, item) ==> Waited(c, longest, s, item, s.notified[item])
  }

  lemma ClockStep(c: Config, longest: real, s: State, a: Action, s': State)
    requires Source(c) && longest >= 0.0 && Step(c, s, a, s') && !s'.stop
    requires PatientAt(c, longest, s, a) && ClockInv(c, longest, s)
    ensures ClockInv(c, longest, s') && s.now <= s'.now
  {}

  lemma WaitsStep(c: Config, longest: real, s: State, a: Action, s': State, item: Item, t: real)
    requires Source(c) && longest >= 0.0 && Step(c, s, a, s') && s.pc != Exited
    requires PatientAt(c, longest, s, a) && ClockInv(c, longest, s)
    requires item in s.committed && item !in s'.drained && item !in s'.left
    requires OnItsWay(s, item) && Waits(longest, s, item, t)
    ensures Waits(longest, s', item, t)
  {}

  lemma WaitsOnceMoreStep(c: Config, longest: real, s: State, a: Action, s': State, item: Item, t: real)
    requires Source(c) && longest >= 0.0 && Step(c, s, a, s') && s.pc != Exited
    requires PatientAt(c, longest, s, a) && ClockInv(c, longest, s)
    requires item in s.committed && item !in s'.drained && item !in s'.left
    requires t <= s.now && WaitsOnceMore(c, longest, s, item, t)
    ensures WaitsOnceMore(c, longest, s', item, t)
  {}

  lemma PendingBefore(c: Config, s: State, a: Action, s': State, item: Item)
    requires Step(c, s, a, s') && Pending(s', item) && item in s.notified
    ensures Pending(s, item) && s'.notified[item] == s.notified[item]
  {}

  lemma JustNotified(c: Config, s: State, a: Action, s': State, item: Item)
    requires Step(c, s, a, s') && item in s'.notified && item !in s.notified
    ensures s'.notified[item] == s'.now
  {}

  lemma KeptBefore(c: Config, s: State, a: Action, s': State, item: Item)
    requires Step(c, s, a, s') && item in s.committed && Kept(s', item)
    ensures Kept(s, item)
  {}

  lemma LatencyStep(c: Config, longest: real, s: State, a: Action, s': State)
    requires Source(c) && longest >= 0.0 && Inv(c, s) && Step(c, s, a, s') && !s'.stop
    requires PatientAt(c, longest, s, a) && LatencyInv(c, longest, s)
    ensures LatencyInv(c, longest, s')
  {
    ClockStep(c, longest, s, a, s');
    forall item | Pending(s', item) ensures Waited(c, longest, s', item, s'.notified[item]) {
      var t := s'.notified[item];
      if item !in s.notified {
        JustNotified(c, s, a, s', item);
      } else {
        PendingBefore(c, s, a, s', item);
        WaitsOnceMoreStep(c, longest, s, a, s', item, t);
        if Kept(s', item) {
          KeptBefore(c, s, a, s', item);
          WaitsStep(c, longest, s, a, s', item, t);
        }
      }
    }
  }

  lemma {:induction false} LatencyAt(c: Config, longest: real, ss: seq<State>, acts: seq<Action>, k: nat)
    requires Source(c) && TimedRun(c, longest, ss, acts) && k < |ss| && !ss[k].stop
    ensures LatencyInv(c, longest, ss[k])
  {
    if k > 0 {
      assert StepAt(c, ss, acts, k - 1);
      LatencyAt(c, longest, ss, acts, k - 1);
      RunKeepsInv(c, ss, acts, k - 1);
      LatencyStep(c, longest, ss[k - 1], acts[k - 1], ss[k]);
    }
  }

  /** While no drain takes longer than `longest` and nobody stops the worker, a notified item waits no longer than two
      drains, one that was running and the one that takes it, if the worker was listed or the commit came before its
      first drain; the interval does not enter. Any other item, whose `notify` did not find the worker, waits for the
      interval besides. Only the items that a drain had in its hands and left are excepted. */
  lemma {:induction false} NotifiedItemsAreDrainedWithinTwoDrains(
      c: Config, longest: real, ss: seq<State>, acts: seq<Action>, k: nat, item: Item)
    requires Source(c) && TimedRun(c, longest, ss, acts) && k < |ss| && !ss[k].stop
    requires Pending(ss[k], item)
    ensures Kept(ss[k], item) ==> ss[k].now <= ss[k].notified[item] + 2.0 * longest
    ensures ss[k].now <= ss[k].notified[item] + c.interval + 2.0 * longest
  {
    LatencyAt(c, longest, ss, acts, k);
    RunKeepsInv(c, ss, acts, k);
  }

  // ---------------------------------------------------------------------- polling goes on

  // Steps to the next drain, with the ticks on the way.
  function Ahead(c: Config, s: State, d: real): nat {
    match s.pc
    case Draining => if d > 0.0 then 9 else 8
    case Top => 7
    case Waiting => if !s.wake && s.now < s.since + c.interval then 6 else 5
    case Clearing => 4
    case Checking => 3
    case _ => 2
  }

  // When the next drain begins if nobody raises the flag before, and a running drain ends after d.
  function NextDrainAt(c: Config, s: State, d: real): real {
    if s.pc == Draining then s.now + d + (if s.wake then 0.0 else c.interval)
    else if s.wake || s.pc in {Clearing, Checking, Starting} then s.now
    else s.since + c.interval
  }

  predicate Polling(longest: real, s: State, d: real) {
    && s.woken && !s.stop && s.pc != NotStarted && s.pc != Exited
    && d >= 0.0 && (s.pc == Draining ==> s.now + d <= s.since + longest)
  }

  // One step of the thread or the clock towards it.
  lemma OneStepAhead(c: Config, longest: real, s: State, d: real) returns (a: Action, s': State, d': real)
    requires Source(c) && ClockInv(c, longest, s) && Polling(longest, s, d) && s.pc != Starting
    ensures Step(c, s, a, s') && PatientAt(c, longest, s, a) && (WorkerAction(a) || a.Tick?)
    ensures Polling(longest, s', d') && NextDrainAt(c, s', d') == NextDrainAt(c, s, d)
    ensures Ahead(c, s', d') < Ahead(c, s, d) && s'.committed == s.committed
  {
    d' := 0.0;
    match s.pc {
      case Draining =>
        if d > 0.0 {
          a, s' := Tick(d), s.(now := s.now + d);
        } else {
          a, s' := EndDrain({}), s.(pc := Top, drained := s.drained + {}, since := s.now,
                                    left := s.left + (s.snapshot - (s.drained + {})));
        }
      case Top => a, s' := TestStop, s.(pc := Waiting);
      case Waiting =>
        if s.wake {
          a, s' := WaitSignalled, s.(pc := Clearing);
        } else if s.now < s.since + c.interval {
          a, s' := Tick(s.since + c.interval - s.now), s.(now := s.now + (s.since + c.interval - s.now));
        } else {
          a, s' := WaitTimesOut, s.(pc := Clearing);
        }
      case Clearing => a, s' := Clear, s.(pc := Checking, wake := false);
      case _ => a, s' := TestStopAgain, s.(pc := Starting);
    }
  }

  lemma Longer(c: Config, longest: real, ss: seq<State>, acts: seq<Action>, a: Action, s': State)
    requires TimedRun(c, longest, ss, acts) && Step(c, ss[|acts|], a, s') && PatientAt(c, longest, ss[|acts|], a)
    ensures TimedRun(c, longest, ss + [s'], acts + [a])
  {
    var ss', acts' := ss + [s'], acts + [a];
    forall i | 0 <= i < |acts'| ensures StepAt(c, ss', acts', i) && PatientAt(c, longest, ss'[i], acts'[i]) {
      if i < |acts| { assert StepAt(c, ss, acts, i); }
    }
  }

  // Only the thread and the clock move between two lengths of a run.
  predicate OnlyThread(acts: seq<Action>, i: nat) {
    forall j :: i <= j < |acts| ==> WorkerAction(acts[j]) || acts[j].Tick?
  }

  /** No state is stuck in time. Wherever a woken thread that nobody stopped is, the run goes on, by steps of the thread
      and of the clock alone, to a drain that begins with everything committed in its hands: at once if the flag is up or
      the thread has left `wait`, and otherwise an interval after the last drain, whenever a running one ends. */
  lemma {:induction false} ADrainFollows(c: Config, longest: real, ss: seq<State>, acts: seq<Action>, d: real)
    returns (ss': seq<State>, acts': seq<Action>)
    requires Source(c) && TimedRun(c, longest, ss, acts) && Polling(longest, ss[|acts|], d)
    ensures TimedRun(c, longest, ss', acts') && ss <= ss' && acts < acts' && OnlyThread(acts', |acts|)
    ensures acts'[|acts'| - 1] == BeginDrain && ss'[|acts'|].snapshot == ss[|acts|].committed
    ensures ss'[|acts'|].now == NextDrainAt(c, ss[|acts|], d)
    decreases Ahead(c, ss[|acts|], d)
  {
    var s := ss[|acts|];
    if s.pc == Starting {
      var s' := s.(pc := Draining, snapshot := s.committed, since := s.now, begun := s.woken,
                   drainsAfterStop := s.drainsAfterStop + 0);
      Longer(c, longest, ss, acts, BeginDrain, s');
      ss', acts' := ss + [s'], acts + [BeginDrain];
    } else {
      LatencyAt(c, longest, ss, acts, |acts|);
      var a, s', d' := OneStepAhead(c, longest, s, d);
      Longer(c, longest, ss, acts, a, s');
      ss', acts' := ADrainFollows(c, longest, ss + [s'], acts + [a], d');
      assert acts'[|acts|] == (acts + [a])[|acts|];
    }
  }

  /** A thread before or in `wait` sleeps for the whole interval while its flag is down. */
  lemma {:induction false} SleepsForTheInterval(c: Config, ss: seq<State>, acts: seq<Action>, i: nat, k: nat)
    requires Run(c, ss, acts) && i <= k < |ss| && ss[i].pc in {Top, Waiting} && !ss[k].stop
    requires forall j :: i <= j < k ==> !ss[j].wake && !acts[j].BeginDrain?
    ensures ss[k].pc in {Top, Waiting} || ss[i].since + c.interval <= ss[k].now
    ensures ss[k].pc !in {NotStarted, Draining, Exited} && ss[k].since == ss[i].since
    decreases k
  {
    if i < k {
      assert StepAt(c, ss, acts, k - 1);
      SleepsForTheInterval(c, ss, acts, i, k - 1);
    }
  }

  /** So drains that nothing calls for begin exactly an interval after the end of the one before. */
  lemma PollsEveryInterval(c: Config, longest: real, ss: seq<State>, acts: seq<Action>, i: nat, k: nat)
    requires Source(c) && TimedRun(c, longest, ss, acts) && i < k < |acts| && acts[i].EndDrain? && acts[k].BeginDrain?
    requires forall j :: i < j < k ==> !acts[j].BeginDrain?
    requires forall j :: i < j <= k ==> !ss[j].wake && !ss[j].stop
    ensures ss[k].now == ss[i + 1].now + c.interval
  {
    assert StepAt(c, ss, acts, i) && StepAt(c, ss, acts, k);
    SleepsForTheInterval(c, ss, acts, i + 1, k);
    NextDrainBeginsWithinInterval(c, longest, ss, acts, i, k);
  }
}
