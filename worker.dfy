/**
 * The worker lifecycle: a worker is set up once, collects the notifications
 * the dispatcher hands it, and in its own loop drains them into `_work`
 * until it is stopped, running `_final_work` on every way out of the loop.
 *
 * Each lock section of the source is one method. The calls into the abstract
 * hooks (`_work`, `_final_work`) and the logging of an exception are recorded
 * in `trace`. Other threads reach a worker through `add_notifications` and
 * `stop`; a run follows a finite schedule of passes saying what they do
 * while the worker sleeps after each pass.
 */
module Workers {
  import opened Wrappers
  import opened Notifications
  import opened Json

  /** The exceptions that leave the lifecycle methods. */
  datatype WorkerException =
    | RuntimeError       // a second `setup`
    | ShutdownException  // `proceed` after `stop`
    | HandlerError       // any other exception out of `_work`

  /** A call into a hook, or the logging of an exception, as the trace records it. */
  datatype Event =
    | Worked(batch: NotificationSet)  // `_work`, with the notifications its list holds
    | LoggedException
    | FinalWork

  /** The values `setup` reads from its properties; a missing property is None (JNull for the settings). */
  datatype SetupProps = SetupProps(baseDataDir: Option<string>, workerSettings: Json, mqttProxy: Option<nat>)

  /**
   * What happens in one pass of the run loop that the worker does not decide
   * itself: what a `_work` call in this pass raises (None when it returns),
   * the notifications that arrive while the worker sleeps, and whether it is
   * stopped meanwhile.
   */
  datatype Round = Round(workRaises: Option<WorkerException>, arrivals: NotificationSet, stop: bool)

  /** How a run ends: `run_single` returned normally, the ShutdownException, another exception, or still looping. */
  datatype RunEnd = Finished | ShutDown | Failed | StillRunning

  /** The part of a worker the run loop changes, as a value. */
  datatype State = State(closing: bool, pending: NotificationSet, trace: seq<Event>)

  // ---- listing a set ----

  /** `ns` lists the elements of `p` whose identities are in `ks`, each once, in some order. */
  ghost predicate ListsOn(ns: seq<Notification>, p: NotificationSet, ks: set<Key>) {
    (forall i :: 0 <= i < |ns| ==> KeyOf(ns[i]) in ks && KeyOf(ns[i]) in p && p[KeyOf(ns[i])] == ns[i])
    && (forall i, j :: 0 <= i < j < |ns| ==> KeyOf(ns[i]) != KeyOf(ns[j]))
    && (forall k :: k in ks ==> exists i :: 0 <= i < |ns| && KeyOf(ns[i]) == k)
  }

  /** `ns == list(p)`: every element of `p` once, in set iteration order. */
  ghost predicate Lists(ns: seq<Notification>, p: NotificationSet) {
    ListsOn(ns, p, p.Keys)
  }

  lemma ListsStep(ns: seq<Notification>, p: NotificationSet, ks: set<Key>, k: Key)
    requires ListsOn(ns, p, ks) && WellKeyed(p) && k in p && k !in ks
    ensures ListsOn(ns + [p[k]], p, ks + {k})
  {
    var ns' := ns + [p[k]];
    assert KeyOf(ns'[|ns|]) == k;
    forall k' | k' in ks + {k} ensures exists i :: 0 <= i < |ns'| && KeyOf(ns'[i]) == k' {
      if k' in ks {
        var i :| 0 <= i < |ns| && KeyOf(ns[i]) == k';
        assert ns'[i] == ns[i];
      }
    }
  }

  /** The set a list of notifications makes: `set(ns)`. */
  function Collect(ns: seq<Notification>): NotificationSet {
    if ns == [] then map[] else Collect(ns[..|ns| - 1])[KeyOf(ns[|ns| - 1]) := ns[|ns| - 1]]
  }

  /** Turning a listing of a set back into a set gives that set: `set(list(p)) == p`. */
  lemma {:induction false} CollectLists(ns: seq<Notification>, p: NotificationSet)
    requires Lists(ns, p) && WellKeyed(p)
    ensures Collect(ns) == p
  {
    if ns == [] {
      assert p == map[];
    } else {
      var n := |ns| - 1;
      var x := ns[n];
      var k := KeyOf(x);
      var front, rest := ns[..n], p - {k};
      ListsDropLast(ns, p);
      assert k in p && p[k] == x;
      RemoveWellKeyed(p, k);
      CollectLists(front, rest);
      assert Collect(ns) == rest[k := x];
      PutBack(p, k);
    }
  }

  lemma RemoveWellKeyed(p: NotificationSet, k: Key)
    requires WellKeyed(p)
    ensures WellKeyed(p - {k})
  {
  }

  lemma PutBack(p: NotificationSet, k: Key)
    requires k in p
    ensures (p - {k})[k := p[k]] == p
  {
  }

  /** Without its last element, a listing lists the set without that element. */
  lemma ListsDropLast(ns: seq<Notification>, p: NotificationSet)
    requires Lists(ns, p) && ns != []
    ensures var k := KeyOf(ns[|ns| - 1]); Lists(ns[..|ns| - 1], p - {k})
  {
    var n := |ns| - 1;
    var k := KeyOf(ns[n]);
    var front, rest := ns[..n], p - {k};
    forall i | 0 <= i < |front| ensures KeyOf(front[i]) in rest && rest[KeyOf(front[i])] == front[i] {
      assert front[i] == ns[i];
    }
    forall k' | k' in rest.Keys ensures exists i :: 0 <= i < |front| && KeyOf(front[i]) == k' {
      var i :| 0 <= i < |ns| && KeyOf(ns[i]) == k';
      assert i != n;
      assert front[i] == ns[i];
    }
  }

  /** A listing of a non-empty set is not empty: `if notifications:` holds after a non-empty set. */
  lemma ListsNonEmpty(ns: seq<Notification>, p: NotificationSet)
    requires Lists(ns, p)
    ensures ns == [] <==> p == map[]
  {
    if p != map[] {
      var k :| k in p;
      var i :| 0 <= i < |ns| && KeyOf(ns[i]) == k;
    }
    if ns != [] {
      assert KeyOf(ns[0]) in p;
    }
  }

  // ---- the run loop on values ----

  /** The settings `setup` keeps: a copy of truthy settings, otherwise an empty dictionary. */
  function SettingsOf(ws: Json): (r: Json)
    ensures Truthy(ws) ==> r == ws
    ensures !Truthy(ws) ==> r == JObject([])
  {
    if Truthy(ws) then ws else JObject([])
  }

  /** `_process_notifications`: with anything pending, all of it goes to `_work`, which may raise. */
  function Process(s: State, workRaises: Option<WorkerException>): (State, Option<WorkerException>) {
    if s.pending == map[] then (s, None)
    else (State(s.closing, map[], s.trace + [Worked(s.pending)]), workRaises)
  }

  /**
   * The `except` clauses of `run` and `run_single`: a ShutdownException is
   * passed over and ends the run as a shutdown; any other exception is logged.
   */
  function Handle(s: State, e: WorkerException): (State, RunEnd) {
    if e == ShutdownException then (s, ShutDown)
    else (State(s.closing, s.pending, s.trace + [LoggedException]), Failed)
  }

  /** While the worker sleeps: the notifications of the pass arrive, then it may be stopped. */
  function Sleep(s: State, p: Round): State {
    State(s.closing || p.stop, Union(s.pending, p.arrivals), s.trace)
  }

  /** `while self.proceed(): process; sleep`, up to the point where the loop is left or the passes run out. */
  function Loop(s: State, schedule: seq<Round>): (State, RunEnd)
    decreases |schedule|
  {
    if s.closing then (s, ShutDown)
    else if schedule == [] then (s, StillRunning)
    else
      var (s1, raised) := Process(s, schedule[0].workRaises);
      if raised.Some? then Handle(s1, raised.value)
      else Loop(Sleep(s1, schedule[0]), schedule[1..])
  }

  /** `run`: the loop, then `_final_work` in the `finally` clause once the loop is left. */
  function RunSpec(s: State, schedule: seq<Round>): (State, RunEnd) {
    var (s1, end) := Loop(s, schedule);
    if end == StillRunning then (s1, end) else (State(s1.closing, s1.pending, s1.trace + [FinalWork]), end)
  }

  /** `run_single`: one `proceed` and one pass, then `_final_work`. */
  function RunSingleSpec(s: State, workRaises: Option<WorkerException>): (State, RunEnd) {
    if s.closing then (State(s.closing, s.pending, s.trace + [FinalWork]), ShutDown)
    else
      var (s1, raised) := Process(s, workRaises);
      var (s2, end) := if raised.Some? then Handle(s1, raised.value) else (s1, Finished);
      (State(s2.closing, s2.pending, s2.trace + [FinalWork]), end)
  }

  /** How often `e` occurs in `t`. */
  function Count(t: seq<Event>, e: Event): nat {
    if t == [] then 0 else (if t[0] == e then 1 else 0) + Count(t[1..], e)
  }

  lemma CountAppend(t: seq<Event>, u: seq<Event>, e: Event)
    ensures Count(t + u, e) == Count(t, e) + Count(u, e)
  {
    if t != [] {
      assert (t + u)[0] == t[0] && (t + u)[1..] == t[1..] + u;
      CountAppend(t[1..], u, e);
    } else {
      assert t + u == u;
    }
  }

  lemma {:induction false} NoFinalWork(t: seq<Event>)
    requires forall i :: 0 <= i < |t| ==> t[i] != FinalWork
    ensures Count(t, FinalWork) == 0
  {
    if t != [] {
      NoFinalWork(t[1..]);
    }
  }

  /**
   * The run loop only appends to the trace, never `_final_work`, and logs an
   * exception only on the way out of a failed run.
   */
  lemma {:induction false} LoopAppends(s: State, schedule: seq<Round>)
    ensures var (s1, end) := Loop(s, schedule);
      s.trace <= s1.trace && Count(s1.trace, FinalWork) == Count(s.trace, FinalWork)
      && Count(s1.trace, LoggedException) == Count(s.trace, LoggedException) + (if end == Failed then 1 else 0)
    decreases |schedule|
  {
    if !s.closing && schedule != [] {
      var (s1, raised) := Process(s, schedule[0].workRaises);
      if s.pending != map[] {
        CountAppend(s.trace, [Worked(s.pending)], FinalWork);
        CountAppend(s.trace, [Worked(s.pending)], LoggedException);
      }
      if raised.Some? {
        if raised.value != ShutdownException {
          CountAppend(s1.trace, [LoggedException], FinalWork);
          CountAppend(s1.trace, [LoggedException], LoggedException);
        }
      } else {
        LoopAppends(Sleep(s1, schedule[0]), schedule[1..]);
      }
    }
  }

  /**
   * `run` calls `_final_work` exactly once on every way out of its loop, as
   * the last thing it does, and not while it is still looping.
   */
  lemma RunFinalWorkOnce(s: State, schedule: seq<Round>)
    ensures var (s1, end) := RunSpec(s, schedule);
      s.trace <= s1.trace
      && Count(s1.trace, FinalWork) == Count(s.trace, FinalWork) + (if end == StillRunning then 0 else 1)
      && (end != StillRunning ==> s1.trace[|s1.trace| - 1] == FinalWork)
  {
    var (s1, end) := Loop(s, schedule);
    LoopAppends(s, schedule);
    if end != StillRunning {
      CountAppend(s1.trace, [FinalWork], FinalWork);
    }
  }

  /** `run` leaves its loop in one of the three ways its `try` handles. */
  lemma {:induction false} RunEnds(s: State, schedule: seq<Round>)
    ensures RunSpec(s, schedule).1 in {ShutDown, Failed, StillRunning}
    decreases |schedule|
  {
    if !s.closing && schedule != [] {
      var (s1, raised) := Process(s, schedule[0].workRaises);
      if raised.None? {
        RunEnds(Sleep(s1, schedule[0]), schedule[1..]);
      }
    }
  }

  /** `run` logs one exception when it fails and none on any other way out. */
  lemma RunLogsOnlyFailures(s: State, schedule: seq<Round>)
    ensures var (s1, end) := RunSpec(s, schedule);
      Count(s1.trace, LoggedException) == Count(s.trace, LoggedException) + (if end == Failed then 1 else 0)
  {
    var (s1, end) := Loop(s, schedule);
    LoopAppends(s, schedule);
    if end != StillRunning {
      CountAppend(s1.trace, [FinalWork], LoggedException);
    }
  }

  /**
   * A ShutdownException out of `_work` (a worker that finds itself closing
   * in the middle of its work) ends `run` as a shutdown: nothing is logged,
   * and `_final_work` follows the work.
   */
  lemma WorkShutdownEndsRun(s: State, schedule: seq<Round>)
    requires !s.closing && schedule != [] && s.pending != map[]
    requires schedule[0].workRaises == Some(ShutdownException)
    ensures RunSpec(s, schedule) == (State(s.closing, map[], s.trace + [Worked(s.pending), FinalWork]), ShutDown)
  {
    assert s.trace + [Worked(s.pending)] + [FinalWork] == s.trace + [Worked(s.pending), FinalWork];
  }

  /** A worker stopped by the end of some pass has left its loop by the next `proceed`. */
  lemma {:induction false} StoppedWorkerExits(s: State, schedule: seq<Round>, i: nat)
    requires i < |schedule| && schedule[i].stop
    ensures RunSpec(s, schedule).1 != StillRunning
    decreases |schedule|
  {
    if !s.closing {
      var (s1, raised) := Process(s, schedule[0].workRaises);
      if raised.None? {
        var s2 := Sleep(s1, schedule[0]);
        assert Loop(s, schedule) == Loop(s2, schedule[1..]);
        if i == 0 {
          assert Loop(s2, schedule[1..]).1 == ShutDown;
        } else {
          StoppedWorkerExits(s2, schedule[1..], i - 1);
        }
      }
    }
  }

  /** Each call of `_work` in a run gets a non-empty batch, and each batch is what was pending. */
  lemma {:induction false} LoopWorksNonEmpty(s: State, schedule: seq<Round>, j: nat)
    requires s.trace <= Loop(s, schedule).0.trace
    requires |s.trace| <= j < |Loop(s, schedule).0.trace|
    requires Loop(s, schedule).0.trace[j].Worked?
    ensures Loop(s, schedule).0.trace[j].batch != map[]
    decreases |schedule|
  {
    if !s.closing && schedule != [] {
      var (s1, raised) := Process(s, schedule[0].workRaises);
      var s2 := Sleep(s1, schedule[0]);
      if raised.None? {
        assert Loop(s, schedule) == Loop(s2, schedule[1..]);
        LoopAppends(s2, schedule[1..]);
        if s.pending == map[] || j > |s.trace| {
          LoopWorksNonEmpty(s2, schedule[1..], j);
        } else {
          assert s2.trace[j] == Worked(s.pending);
        }
      }
    }
  }

  /** A closing worker's `run_single` does no pass at all; otherwise it works at most once. */
  lemma RunSingleAtMostOnce(s: State, workRaises: Option<WorkerException>)
    ensures var (s1, end) := RunSingleSpec(s, workRaises);
      s.trace <= s1.trace
      && s1.trace[|s1.trace| - 1] == FinalWork
      && Count(s1.trace, FinalWork) == Count(s.trace, FinalWork) + 1
      && (s.closing ==> s1.trace == s.trace + [FinalWork] && end == ShutDown)
      && (!s.closing ==> s1.pending == map[] && end in {Finished, ShutDown, Failed})
      && |s1.trace| - |s.trace| <= 3
  {
    var (s1, end) := RunSingleSpec(s, workRaises);
    var mid := s1.trace[|s.trace|..|s1.trace| - 1];
    assert s1.trace == s.trace + mid + [FinalWork];
    NoFinalWork(mid);
    CountAppend(s.trace, mid, FinalWork);
    CountAppend(s.trace + mid, [FinalWork], FinalWork);
  }

  /**
   * How `run_single` ends: normally when `_work` is not called or returns, as
   * a shutdown when the worker is closing or `_work` raises the
   * ShutdownException, and as a failure, with one exception logged, when
   * `_work` raises anything else.
   */
  lemma RunSingleEnds(s: State, workRaises: Option<WorkerException>)
    ensures var (s1, end) := RunSingleSpec(s, workRaises);
      (end == Finished <==> !s.closing && (s.pending == map[] || workRaises.None?))
      && (end == ShutDown <==> s.closing || (s.pending != map[] && workRaises == Some(ShutdownException)))
      && (end == Failed <==> !s.closing && s.pending != map[] && workRaises.Some? && workRaises.value != ShutdownException)
      && Count(s1.trace, LoggedException) == Count(s.trace, LoggedException) + (if end == Failed then 1 else 0)
  {
    var (s1, end) := RunSingleSpec(s, workRaises);
    var mid := s1.trace[|s.trace|..|s1.trace| - 1];
    assert s1.trace == s.trace + mid + [FinalWork];
    CountAppend(s.trace, mid, LoggedException);
    CountAppend(s.trace + mid, [FinalWork], LoggedException);
    if !s.closing && s.pending != map[] {
      if end == Failed {
        assert mid == [Worked(s.pending), LoggedException];
        assert Count(mid, LoggedException) == Count([LoggedException], LoggedException);
      } else {
        assert mid == [Worked(s.pending)];
      }
    }
  }

  // ---- the worker ----

  class Worker {
    const name: string
    var setupDone: bool
    var closing: bool
    var baseDataDir: Option<string>
    var settings: Json
    var mqttProxy: Option<nat>
    var pending: NotificationSet
    var trace: seq<Event>

    /** Every element of the pending set is stored under its own identity. */
    ghost predicate Valid()
      reads this
    {
      WellKeyed(pending)
    }

    /** The run loop's part of the worker, as a value. */
    function Snap(): State
      reads this
    {
      State(closing, pending, trace)
    }

    constructor(name: string)
      ensures this.name == name && Valid()
      ensures !setupDone && !closing && baseDataDir == None && settings == JObject([])
      ensures mqttProxy == None && pending == map[] && trace == []
    {
      this.name := name;
      setupDone := false;
      closing := false;
      baseDataDir := None;
      settings := JObject([]);
      mqttProxy := None;
      pending := map[];
      trace := [];
    }

    /** `setup`: only once; keeps the data directory, a copy of the settings (or `{}`) and the proxy. */
    method Setup(props: SetupProps) returns (r: Outcome<WorkerException>)
      modifies this`setupDone, this`baseDataDir, this`settings, this`mqttProxy
      ensures old(setupDone) ==> r == Fail(RuntimeError) && unchanged(this)
      ensures !old(setupDone) ==>
        r == Pass && setupDone
        && baseDataDir == props.baseDataDir && settings == SettingsOf(props.workerSettings)
        && mqttProxy == props.mqttProxy
    {
      if setupDone {
        return Fail(RuntimeError);
      }
      setupDone := true;
      baseDataDir := props.baseDataDir;
      settings := SettingsOf(props.workerSettings);
      mqttProxy := props.mqttProxy;
      r := Pass;
    }

    /** `stop`: only marks the worker as closing. */
    method Stop()
      modifies this`closing
      ensures closing
    {
      closing := true;
    }

    /** `proceed`: True until the worker is stopped, the ShutdownException after. */
    method Proceed() returns (r: Outcome<WorkerException>)
      ensures r.Pass? <==> !closing
      ensures r.Fail? ==> r.error == ShutdownException
    {
      r := if closing then Fail(ShutdownException) else Pass;
    }

    /** `add_notifications`: `pending |= notifications`. */
    method AddNotifications(notifications: NotificationSet)
      requires Valid() && WellKeyed(notifications)
      modifies this`pending
      ensures Valid() && pending == Union(old(pending), notifications)
    {
      pending := Union(pending, notifications);
    }

    /** `_should_handle_pending_notifications`. */
    method ShouldHandlePendingNotifications() returns (b: bool)
      ensures b <==> pending != map[]
    {
      b := pending != map[];
    }

    /** `_get_and_reset_notifications`: the pending elements as a list, and nothing pending after. */
    method GetAndResetNotifications() returns (ns: seq<Notification>)
      requires Valid()
      modifies this`pending
      ensures Lists(ns, old(pending)) && pending == map[] && Valid()
    {
      var p := pending;
      var rest := p.Keys;
      ns := [];
      while rest != {}
        invariant rest <= p.Keys
        invariant ListsOn(ns, p, p.Keys - rest)
        decreases rest
      {
        var k :| k in rest;
        ListsStep(ns, p, p.Keys - rest, k);
        assert p.Keys - rest + {k} == p.Keys - (rest - {k});
        ns := ns + [p[k]];
        rest := rest - {k};
      }
      assert p.Keys - rest == p.Keys;
      pending := map[];
    }

    /** The abstract `_work` hook, called with a list; what it raises, if anything, is not the worker's to decide. */
    method Work(notifications: seq<Notification>, raises: Option<WorkerException>) returns (r: Outcome<WorkerException>)
      modifies this`trace
      ensures trace == old(trace) + [Worked(Collect(notifications))]
      ensures r == if raises.Some? then Fail(raises.value) else Pass
    {
      trace := trace + [Worked(Collect(notifications))];
      r := if raises.Some? then Fail(raises.value) else Pass;
    }

    /** The `_final_work` hook. */
    method CallFinalWork()
      modifies this`trace
      ensures trace == old(trace) + [FinalWork]
    {
      trace := trace + [FinalWork];
    }

    /** The `except Exception` clause logs what `_work` raised. */
    method LogException()
      modifies this`trace
      ensures trace == old(trace) + [LoggedException]
    {
      trace := trace + [LoggedException];
    }

    /** `_process_notifications`: `_work` runs only with something pending, and gets all of it. */
    method ProcessNotifications(workRaises: Option<WorkerException>) returns (r: Outcome<WorkerException>)
      requires Valid()
      modifies this`pending, this`trace
      ensures Valid()
      ensures (Snap(), if r.Fail? then Some(r.error) else None) == Process(old(Snap()), workRaises)
    {
      r := Pass;
      var handle := ShouldHandlePendingNotifications();
      if handle {
        ghost var p := pending;
        var notifications := GetAndResetNotifications();
        ListsNonEmpty(notifications, p);
        if notifications != [] {
          CollectLists(notifications, p);
          r := Work(notifications, workRaises);
        }
      }
    }

    /** One sleep of the run loop, during which other threads deliver notifications and may stop the worker. */
    method SleepThrough(p: Round)
      requires Valid() && WellKeyed(p.arrivals)
      modifies this`pending, this`closing
      ensures Valid() && Snap() == Sleep(old(Snap()), p)
    {
      AddNotifications(p.arrivals);
      if p.stop {
        Stop();
      }
    }

    /** `run`, over the passes of `schedule`; StillRunning when the passes run out with the worker still looping. */
    method Run(schedule: seq<Round>) returns (end: RunEnd)
      requires Valid()
      requires forall i :: 0 <= i < |schedule| ==> WellKeyed(schedule[i].arrivals)
      modifies this`pending, this`closing, this`trace
      ensures Valid()
      ensures (Snap(), end) == RunSpec(old(Snap()), schedule)
    {
      ghost var start := Snap();
      var i := 0;
      while true
        invariant 0 <= i <= |schedule| && Valid()
        invariant Loop(Snap(), schedule[i..]) == Loop(start, schedule)
        decreases |schedule| - i
      {
        var proceed := Proceed();
        if proceed.Fail? {
          end := ShutDown;
          break;
        }
        if i == |schedule| {
          end := StillRunning;
          break;
        }
        var worked := ProcessNotifications(schedule[i].workRaises);
        if worked.Fail? {
          if worked.error == ShutdownException {
            end := ShutDown;
          } else {
            LogException();
            end := Failed;
          }
          break;
        }
        assert schedule[i..][1..] == schedule[i + 1..];
        SleepThrough(schedule[i]);
        i := i + 1;
      }
      if end != StillRunning {
        CallFinalWork();
      }
    }

    /** `run_single`: at most one pass, then `_final_work`. */
    method RunSingle(workRaises: Option<WorkerException>) returns (end: RunEnd)
      requires Valid()
      modifies this`pending, this`trace
      ensures Valid()
      ensures (Snap(), end) == RunSingleSpec(old(Snap()), workRaises)
    {
      var proceed := Proceed();
      if proceed.Fail? {
        end := ShutDown;
      } else {
        var worked := ProcessNotifications(workRaises);
        ghost var s1 := Snap();
        if worked.Fail? && worked.error == ShutdownException {
          end := ShutDown;
        } else if worked.Fail? {
          LogException();
          end := Failed;
        } else {
          end := Finished;
        }
      }
      CallFinalWork();
    }
  }
}
