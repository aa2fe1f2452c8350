/**
 * The database worker: a list of SQL steps prepared once at setup and run
 * on every cron or single-start notification, each step optionally
 * publishing its result, and a last will per step that is registered with
 * the broker and queued when the worker ends.
 *
 * The database, the script files and the clock are outside the model: what
 * a query fetches and what reading a script file gives are parameters, and
 * the calls on the connection are recorded in `dbLog`.
 */
module DatabaseWorkers {
  import opened Wrappers
  import opened Dicts
  import opened Json
  import opened PyStrings
  import opened Notifications
  import opened MqttProxies

  /** The `MqttOutputType` values. */
  const OutputJson := "json"
  const OutputNone := "none"
  const OutputScalar := "scalar"

  /** The truthiness of an optional string: neither None nor empty. */
  predicate Given(o: Option<string>) {
    o.Some? && o.value != []
  }

  /** The fields of a `Step`; a configuration dict gives them their first values. */
  datatype StepFields = StepFields(
    scriptFile: Option<string>,
    statement: Option<string>,
    replacements: Dict<string, string>,
    lastWill: Option<string>,
    outputType: Option<string>,
    retain: Json,
    topic: Option<string>)

  /** The configuration issues `push_error` logs, with the index of the step. */
  datatype Issue =
    | MissingTopic(index: nat)
    | ScriptNotFound(index: nat)
    | ScriptUnreadable(index: nat)
    | EmptyStatement(index: nat)

  /** What looking for and reading a step's script file gives. */
  datatype FileLoad = NotFound | Unreadable | Loaded(text: string)

  /** The Python errors that escape preparing a step: `isfile(None)`, and a statement still None. */
  datatype PyError = TypeError | AttributeError

  datatype SetupError = ConfigException | Crash(error: PyError)

  // ---- preparing one step ----

  /** A "none" or empty output type means no output. */
  function NormalOutputType(t: Option<string>): Option<string> {
    if t == Some(OutputNone) || !Given(t) then None else t
  }

  /** The first part of `prepare_step`: the output type normalised and retain made a bool. */
  function Normalised(f: StepFields): StepFields {
    f.(outputType := NormalOutputType(f.outputType), retain := JBool(Truthy(f.retain)))
  }

  /** A step that publishes (a last will or an output) needs a topic. */
  function TopicIssues(index: nat, f: StepFields): seq<Issue> {
    if !Given(f.topic) && (Given(f.lastWill) || Given(f.outputType)) then [MissingTopic(index)] else []
  }

  /** `s.replace(pattern, replacement)` for every entry of `d`, in the dict's order. */
  function ReplaceAll(s: string, d: Dict<string, string>): string {
    if d == [] then s else Replace(ReplaceAll(s, d[..|d| - 1]), d[|d| - 1].0, d[|d| - 1].1)
  }

  datatype StatementStep = StatementStep(statement: Option<string>, issues: seq<Issue>, crash: Option<PyError>)

  /** The text a step starts from, and whether `prepare_step_statement` stops there (`done`). */
  datatype Loading = Loading(statement: Option<string>, issues: seq<Issue>, crash: Option<PyError>, done: bool)

  /** The first part of `prepare_step_statement`: a step without a statement of its own reads its script file. */
  function LoadSpec(index: nat, f: StepFields, load: FileLoad): Loading {
    if Given(f.statement) then Loading(f.statement, [], None, false)
    else if f.scriptFile.None? then Loading(f.statement, [], Some(TypeError), true)
    else match load
      case NotFound => Loading(f.statement, [ScriptNotFound(index)], None, true)
      case Unreadable => Loading(f.statement, [ScriptUnreadable(index)], None, false)
      case Loaded(text) => Loading(Some(text), [], None, false)
  }

  /**
   * `prepare_step_statement` on the values of a step: a statement of the step's
   * own comes first, otherwise the script file's text; the worker's and the
   * step's replacements are applied and the result stripped.
   */
  function PrepareStatementSpec(index: nat, f: StepFields, worker: Dict<string, string>, load: FileLoad): StatementStep {
    var l := LoadSpec(index, f, load);
    if l.done then StatementStep(l.statement, l.issues, l.crash)
    else if l.statement.None? then StatementStep(l.statement, l.issues, Some(AttributeError))
    else
      var s := Strip(ReplaceAll(l.statement.value, Merge(worker, f.replacements)));
      StatementStep(Some(s), l.issues + (if s == [] then [EmptyStatement(index)] else []), None)
  }

  datatype Prepared = Prepared(fields: StepFields, issues: seq<Issue>, crash: Option<PyError>)

  /** `prepare_step` on the values of a step. */
  function PrepareSpec(index: nat, f: StepFields, worker: Dict<string, string>, load: FileLoad): Prepared {
    var g := Normalised(f);
    var st := PrepareStatementSpec(index, g, worker, load);
    Prepared(g.(statement := st.statement), TopicIssues(index, g) + st.issues, st.crash)
  }

  // ---- setup ----

  datatype SetupState = SetupState(steps: seq<StepFields>, issues: seq<Issue>, crash: Option<PyError>)

  /** Each configured step as `prepare_step` leaves it, on its own. */
  function Prepares(worker: Dict<string, string>, configs: seq<StepFields>, loads: seq<FileLoad>): (ps: seq<Prepared>)
    requires |loads| == |configs|
    ensures |ps| == |configs|
    decreases |configs|
  {
    if configs == [] then []
    else
      var n := |configs| - 1;
      Prepares(worker, configs[..n], loads[..n]) + [PrepareSpec(n, configs[n], worker, loads[n])]
  }

  lemma {:induction false} PreparesAt(worker: Dict<string, string>, configs: seq<StepFields>, loads: seq<FileLoad>, i: nat)
    requires |loads| == |configs| && i < |configs|
    ensures Prepares(worker, configs, loads)[i] == PrepareSpec(i, configs[i], worker, loads[i])
    decreases |configs|
  {
    var n := |configs| - 1;
    if i < n {
      PreparesAt(worker, configs[..n], loads[..n], i);
      assert configs[..n][i] == configs[i] && loads[..n][i] == loads[i];
    }
  }

  /** Some step of `ps` is not what `prepare_step` makes of the configured step. */
  ghost predicate Mismatched(ps: seq<Prepared>, worker: Dict<string, string>, configs: seq<StepFields>, loads: seq<FileLoad>) {
    || |ps| != |configs| || |ps| != |loads|
    || exists j {:trigger PrepareSpec(j, configs[j], worker, loads[j])} :: 0 <= j < |ps| && ps[j] != PrepareSpec(j, configs[j], worker, loads[j])
  }

  lemma PreparesAll(worker: Dict<string, string>, configs: seq<StepFields>, loads: seq<FileLoad>)
    requires |loads| == |configs|
    ensures !Mismatched(Prepares(worker, configs, loads), worker, configs, loads)
  {
    forall j | 0 <= j < |configs| ensures Prepares(worker, configs, loads)[j] == PrepareSpec(j, configs[j], worker, loads[j]) {
      PreparesAt(worker, configs, loads, j);
    }
  }

  /** `setup`'s loop over the prepared steps: each is kept in turn, until a Python error escapes. */
  function SetupFold(ps: seq<Prepared>): SetupState {
    if ps == [] then SetupState([], [], None)
    else
      var s := SetupFold(ps[..|ps| - 1]);
      var p := ps[|ps| - 1];
      if s.crash.Some? then s
      else SetupState(s.steps + [p.fields], s.issues + p.issues, p.crash)
  }

  function SetupSpec(worker: Dict<string, string>, configs: seq<StepFields>, loads: seq<FileLoad>): SetupState
    requires |loads| == |configs|
  {
    SetupFold(Prepares(worker, configs, loads))
  }

  /** What `setup` raises: the escaping error, else ConfigException when an issue was pushed. */
  function SetupOutcome(s: SetupState): Outcome<SetupError> {
    if s.crash.Some? then Fail(Crash(s.crash.value))
    else if s.issues != [] then Fail(ConfigException)
    else Pass
  }

  // ---- last wills ----

  /** The message of a step that has both a topic and a last will; retain is passed as its truthiness. */
  function WillOf(f: StepFields): seq<ProxyMessage> {
    if Given(f.topic) && Given(f.lastWill) then [ProxyMessage(f.topic.value, TextPayload(f.lastWill.value), Some(Truthy(f.retain)))]
    else []
  }

  /** The last wills of the steps, in step order. */
  function Wills(fs: seq<StepFields>): seq<ProxyMessage> {
    if fs == [] then [] else Wills(fs[..|fs| - 1]) + WillOf(fs[|fs| - 1])
  }

  /** The client calls that register the last wills `ms`. */
  function WillCalls(ms: seq<ProxyMessage>): seq<ClientCall> {
    if ms == [] then [] else WillCalls(ms[..|ms| - 1]) + [SetLastWill(ms[|ms| - 1].topic, ms[|ms| - 1].payload, ms[|ms| - 1].retain)]
  }

  // ---- work ----

  /** A value of a database column. */
  datatype SqlValue = SqlNull | SqlBool(b: bool) | SqlInt(i: int) | SqlText(s: string)

  /** What running a step's statement gives: a DatabaseError, or the first row. */
  datatype Fetch = DatabaseError | Row(columns: Dict<string, SqlValue>)

  /** A call on the database connection. */
  datatype DbCall = Commit | Rollback

  datatype WorkError = ShutdownException | WorkConfigException

  /** `str(n)` for an integer. */
  function FormatInt(i: int): string {
    if i < 0 then "-" + FormatNat(-i) else FormatNat(i)
  }

  /** `str(v)` for a column value. */
  function SqlStr(v: SqlValue): string {
    match v
    case SqlNull => "None"
    case SqlBool(b) => if b then "True" else "False"
    case SqlInt(i) => FormatInt(i)
    case SqlText(s) => s
  }

  function SqlJson(v: SqlValue): Json {
    match v
    case SqlNull => JNull
    case SqlBool(b) => JBool(b)
    case SqlInt(i) => JInt(i)
    case SqlText(s) => JStr(s)
  }

  /** The row as the dict `dict_row` makes of it. */
  function RowJson(cols: Dict<string, SqlValue>): (r: Dict<string, Json>)
    ensures |r| == |cols|
    ensures forall i :: 0 <= i < |cols| ==> r[i] == (cols[i].0, SqlJson(cols[i].1))
  {
    if cols == [] then [] else [(cols[0].0, SqlJson(cols[0].1))] + RowJson(cols[1..])
  }

  datatype WorkState = WorkState(queued: seq<ProxyMessage>, log: seq<DbCall>, out: Outcome<WorkError>)

  /** The message a step with an output queues, if its fetch gives one. */
  function OutputOf(f: StepFields, cols: Dict<string, SqlValue>): Option<ProxyMessage>
    requires Given(f.topic)
  {
    if f.outputType == Some(OutputJson) then Some(ProxyMessage(f.topic.value, DictPayload(RowJson(cols)), Some(Truthy(f.retain))))
    else if f.outputType == Some(OutputScalar) then
      if |cols| != 1 then None else Some(ProxyMessage(f.topic.value, TextPayload(SqlStr(cols[0].1)), Some(Truthy(f.retain))))
    else None
  }

  /** A step that publishes has a topic. */
  predicate Ready(f: StepFields) {
    (f.outputType == Some(OutputJson) || f.outputType == Some(OutputScalar)) ==> Given(f.topic)
  }

  /** Every step is ready: what a setup that passes leaves. */
  predicate Runnable(fs: seq<StepFields>) {
    forall i :: 0 <= i < |fs| ==> Ready(fs[i])
  }

  /** One iteration of `_work`'s loop, for the step at `index`. */
  function StepRun(index: nat, f: StepFields, fetch: Fetch, stopAt: nat, hasClient: bool): WorkState
    requires Ready(f)
  {
    if index >= stopAt then WorkState([], [], Fail(ShutdownException))
    else match fetch
      case DatabaseError => WorkState([], [Rollback], Pass)
      case Row(cols) =>
        if f.outputType == Some(OutputJson) || f.outputType == Some(OutputScalar) then
          match OutputOf(f, cols)
          case None => WorkState([], [], Fail(WorkConfigException))
          case Some(m) => if hasClient then WorkState([m], [Commit], Pass) else WorkState([], [], Fail(WorkConfigException))
        else WorkState([], [Commit], Pass)
  }

  /** What each step's run gives on its own. */
  function Runs(fs: seq<StepFields>, fetches: seq<Fetch>, stopAt: nat, hasClient: bool): (rs: seq<WorkState>)
    requires |fetches| == |fs| && Runnable(fs)
    ensures |rs| == |fs|
  {
    seq(|fs|, i requires 0 <= i < |fs| => StepRun(i, fs[i], fetches[i], stopAt, hasClient))
  }

  /** `_work`'s loop over the step runs `rs`, up to the first exception. */
  function WorkFold(rs: seq<WorkState>): WorkState {
    if rs == [] then WorkState([], [], Pass)
    else
      var w := WorkFold(rs[..|rs| - 1]);
      var s := rs[|rs| - 1];
      if w.out.Fail? then w else WorkState(w.queued + s.queued, w.log + s.log, s.out)
  }

  function WorkSpec(fs: seq<StepFields>, fetches: seq<Fetch>, stopAt: nat, hasClient: bool): WorkState
    requires |fetches| == |fs| && Runnable(fs)
  {
    WorkFold(Runs(fs, fetches, stopAt, hasClient))
  }

  /** `_work` only runs on a cron or a single-start notification. */
  predicate Triggered(ns: seq<Notification>) {
    exists i :: 0 <= i < |ns| && (ns[i].kind == Cron || ns[i].kind == SingleStarted)
  }

  // ---- classes ----

  class Step {
    const scriptFile: Option<string>
    var statement: Option<string>
    const replacements: Dict<string, string>
    const lastWill: Option<string>
    var outputType: Option<string>
    var retain: Json
    const topic: Option<string>

    function Fields(): StepFields
      reads this
    {
      StepFields(scriptFile, statement, replacements, lastWill, outputType, retain, topic)
    }

    /** `create_step`: `Step(**config_step)`. */
    constructor(c: StepFields)
      ensures Fields() == c
    {
      scriptFile := c.scriptFile;
      statement := c.statement;
      replacements := c.replacements;
      lastWill := c.lastWill;
      outputType := c.outputType;
      retain := c.retain;
      topic := c.topic;
    }
  }

  /** The fields of each step, in order. */
  function FieldsOf(steps: seq<Step>): (fs: seq<StepFields>)
    reads steps
    ensures |fs| == |steps|
  {
    seq(|steps|, i reads steps requires 0 <= i < |steps| => steps[i].Fields())
  }

  class DatabaseWorker {
    const proxy: MqttProxy
    var replacements: Dict<string, string>
    var steps: seq<Step>
    /** What `push_error` has logged. */
    var issues: seq<Issue>
    /** The commits and rollbacks on the database connection. */
    var dbLog: seq<DbCall>

    constructor(proxy: MqttProxy)
      ensures this.proxy == proxy && replacements == [] && steps == [] && issues == [] && dbLog == []
    {
      this.proxy := proxy;
      replacements := [];
      steps := [];
      issues := [];
      dbLog := [];
    }

    /** The loading part of `prepare_step_statement`. */
    method LoadStatement(step: Step, index: nat, load: FileLoad) returns (done: bool, crash: Option<PyError>)
      modifies step`statement, this`issues
      ensures var l := LoadSpec(index, old(step.Fields()), load);
        step.Fields() == old(step.Fields()).(statement := l.statement) && issues == old(issues) + l.issues
        && crash == l.crash && done == l.done
    {
      done, crash := false, None;
      if !Given(step.statement) {
        if step.scriptFile.None? {
          return true, Some(TypeError);
        }
        match load {
          case NotFound =>
            issues := issues + [ScriptNotFound(index)];
            done := true;
          case Unreadable =>
            issues := issues + [ScriptUnreadable(index)];
          case Loaded(text) =>
            step.statement := Some(text);
        }
      }
    }

    /** The loop of `prepare_step_statement`: every pattern is replaced, in the dict's order. */
    method ApplyReplacements(step: Step, merged: Dict<string, string>)
      requires step.statement.Some?
      modifies step`statement
      ensures step.statement == Some(ReplaceAll(old(step.statement.value), merged))
    {
      var start := step.statement.value;
      var i := 0;
      while i < |merged|
        invariant 0 <= i <= |merged|
        invariant step.statement == Some(ReplaceAll(start, merged[..i]))
      {
        assert merged[..i + 1][..i] == merged[..i];
        step.statement := Some(Replace(step.statement.value, merged[i].0, merged[i].1));
        i := i + 1;
      }
      assert merged[..|merged|] == merged;
    }

    /** `prepare_step_statement`. */
    method PrepareStepStatement(step: Step, index: nat, load: FileLoad) returns (crash: Option<PyError>)
      modifies step`statement, this`issues
      ensures var st := PrepareStatementSpec(index, old(step.Fields()), replacements, load);
        step.Fields() == old(step.Fields()).(statement := st.statement) && issues == old(issues) + st.issues && crash == st.crash
    {
      var done;
      done, crash := LoadStatement(step, index, load);
      if done {
        return;
      }
      if step.statement.None? {
        return Some(AttributeError);
      }
      ApplyReplacements(step, Merge(replacements, step.replacements));
      var s := Strip(step.statement.value);
      step.statement := Some(s);
      if s == [] {
        issues := issues + [EmptyStatement(index)];
      }
    }

    /** `prepare_step`. */
    method PrepareStep(step: Step, index: nat, load: FileLoad) returns (crash: Option<PyError>)
      modifies step`statement, step`outputType, step`retain, this`issues
      ensures var p := PrepareSpec(index, old(step.Fields()), replacements, load);
        step.Fields() == p.fields && issues == old(issues) + p.issues && crash == p.crash
    {
      if step.outputType == Some(OutputNone) || !Given(step.outputType) {
        step.outputType := None;
      }
      step.retain := JBool(Truthy(step.retain));
      if !Given(step.topic) && (Given(step.lastWill) || Given(step.outputType)) {
        issues := issues + [MissingTopic(index)];
      }
      ghost var g := Normalised(old(step.Fields()));
      assert step.Fields() == g && issues == old(issues) + TopicIssues(index, g);
      crash := PrepareStepStatement(step, index, load);
      ghost var st := PrepareStatementSpec(index, g, replacements, load);
      assert step.Fields() == g.(statement := st.statement);
      AppendAssoc(old(issues), TopicIssues(index, g), st.issues);
    }

    /** One iteration of `setup`'s loop: a new step is appended and prepared. */
    method AddStep(worker: Dict<string, string>, configs: seq<StepFields>, loads: seq<FileLoad>, ghost ps: seq<Prepared>, index: nat)
      returns (step: Step, crash: Option<PyError>)
      requires !Mismatched(ps, worker, configs, loads) && worker == replacements && index < |configs|
      modifies this`steps, this`issues
      ensures fresh(step) && steps == old(steps) + [step]
      ensures step.Fields() == ps[index].fields && issues == old(issues) + ps[index].issues && crash == ps[index].crash
    {
      assert ps[index] == PrepareSpec(index, configs[index], worker, loads[index]);
      step := new Step(configs[index]);
      steps := steps + [step];
      crash := PrepareStep(step, index, loads[index]);
    }

    /** The database part of `setup`: every step is created and prepared; issues make it raise at the end. */
    method Setup(replacements: Dict<string, string>, configs: seq<StepFields>, loads: seq<FileLoad>) returns (r: Outcome<SetupError>)
      requires |loads| == |configs|
      modifies this
      ensures this.replacements == replacements && dbLog == old(dbLog)
      ensures var s := SetupSpec(replacements, configs, loads);
        FieldsOf(steps) == s.steps && issues == old(issues) + s.issues && r == SetupOutcome(s)
    {
      this.replacements := replacements;
      steps := [];
      ghost var ps := Prepares(replacements, configs, loads);
      PreparesAll(replacements, configs, loads);
      r := PrepareSteps(replacements, configs, loads, ps);
    }

    /** `setup`'s loop, with `ps` what `prepare_step` makes of each configured step. */
    method PrepareSteps(worker: Dict<string, string>, configs: seq<StepFields>, loads: seq<FileLoad>, ghost ps: seq<Prepared>)
      returns (r: Outcome<SetupError>)
      requires !Mismatched(ps, worker, configs, loads) && worker == replacements && steps == []
      modifies this`steps, this`issues
      ensures var s := SetupFold(ps);
        FieldsOf(steps) == s.steps && issues == old(issues) + s.issues && r == SetupOutcome(s)
    {
      var found := false;
      ghost var pushed: seq<Issue> := [];
      var i := 0;
      while i < |configs|
        invariant 0 <= i <= |configs| && worker == replacements
        invariant issues == old(issues) + pushed
        invariant SetupProgress(ps[..i], FieldsOf(steps), pushed, found)
      {
        var crash;
        found, pushed, crash := PrepareNext(worker, configs, loads, ps, i, found, pushed, old(issues));
        if crash.Some? {
          SetupCrashes(ps, i + 1);
          return Fail(Crash(crash.value));
        }
        i := i + 1;
      }
      assert ps[..|configs|] == ps;
      r := if found then Fail(ConfigException) else Pass;
    }

    /** One iteration of `setup`'s loop, on top of the steps before it. */
    method PrepareNext(worker: Dict<string, string>, configs: seq<StepFields>, loads: seq<FileLoad>, ghost ps: seq<Prepared>,
                       i: nat, found: bool, ghost pushed: seq<Issue>, ghost start: seq<Issue>)
      returns (found': bool, ghost pushed': seq<Issue>, crash: Option<PyError>)
      requires !Mismatched(ps, worker, configs, loads) && worker == replacements && i < |configs|
      requires issues == start + pushed && SetupProgress(ps[..i], FieldsOf(steps), pushed, found)
      modifies this`steps, this`issues
      ensures issues == start + pushed'
      ensures crash == ps[i].crash
      ensures crash.None? ==> SetupProgress(ps[..i + 1], FieldsOf(steps), pushed', found')
      ensures crash.Some? ==> SetupFold(ps[..i + 1]) == SetupState(FieldsOf(steps), pushed', crash)
    {
      ghost var fieldsBefore := FieldsOf(steps);
      var n := |issues|;
      var step;
      step, crash := AddStep(worker, configs, loads, ps, i);
      assert FieldsOf(steps) == fieldsBefore + [step.Fields()];
      found' := found || |issues| > n;
      pushed' := pushed + ps[i].issues;
      SetupFoldStep(ps, i);
    }

    /** One iteration of `set_last_will`'s loop. */
    method RegisterWill(step: Step, ghost f: StepFields) returns (r: Outcome<ConfigException>)
      requires f == step.Fields()
      modifies proxy`calls
      ensures var w := WillOf(f);
        && (r.Fail? <==> w != [] && !proxy.hasClient)
        && proxy.calls == old(proxy.calls) + if proxy.hasClient then WillCalls(w) else []
    {
      r := Pass;
      if Given(step.topic) && Given(step.lastWill) {
        r := proxy.SetLastWillOf(step.topic.value, TextPayload(step.lastWill.value), Some(Truthy(step.retain)));
        assert WillOf(f)[..0] == [];
      }
    }

    /** `set_last_will`: the last will of every step with a topic and a last will, in step order. */
    method SetLastWill() returns (r: Outcome<ConfigException>)
      modifies proxy`calls
      ensures var ws := Wills(FieldsOf(steps));
        && (r.Fail? <==> !proxy.hasClient && ws != [])
        && proxy.calls == old(proxy.calls) + if proxy.hasClient then WillCalls(ws) else []
    {
      ghost var fs := FieldsOf(steps);
      ghost var added: seq<ClientCall> := [];
      var i := 0;
      while i < |steps|
        invariant 0 <= i <= |steps| && fs == FieldsOf(steps)
        invariant proxy.calls == old(proxy.calls) + added
        invariant WillProgress(fs, i, proxy.hasClient, added)
      {
        r, added := RegisterNext(fs, i, added, old(proxy.calls));
        if r.Fail? {
          return;
        }
        i := i + 1;
      }
      WillProgressDone(fs, proxy.hasClient, added);
      r := Pass;
    }

    /** One iteration of `set_last_will`'s loop, on top of the steps before it. */
    method RegisterNext(ghost fs: seq<StepFields>, i: nat, ghost added: seq<ClientCall>, ghost calls0: seq<ClientCall>)
      returns (r: Outcome<ConfigException>, ghost added': seq<ClientCall>)
      requires fs == FieldsOf(steps) && i < |fs|
      requires proxy.calls == calls0 + added && WillProgress(fs, i, proxy.hasClient, added)
      modifies proxy`calls
      ensures FieldsOf(steps) == fs && proxy.calls == calls0 + added'
      ensures r.Pass? ==> WillProgress(fs, i + 1, proxy.hasClient, added')
      ensures r.Fail? ==> !proxy.hasClient && Wills(fs) != [] && added' == []
    {
      assert fs[i] == steps[i].Fields();
      r := RegisterWill(steps[i], fs[i]);
      if r.Fail? {
        WillsNonEmpty(fs, i);
        WillProgressFail(fs, i, proxy.hasClient, added);
        added' := added;
        return;
      }
      WillProgressStep(fs, i, proxy.hasClient, added);
      added' := added + if proxy.hasClient then WillCalls(WillOf(fs[i])) else [];
    }

    /** One iteration of `_final_work`'s loop. */
    method QueueWill(step: Step, ghost f: StepFields) returns (r: Outcome<ConfigException>)
      requires f == step.Fields()
      modifies proxy`messages
      ensures var w := WillOf(f);
        && (r.Fail? <==> w != [] && !proxy.hasClient)
        && proxy.messages == old(proxy.messages) + if proxy.hasClient then w else []
    {
      r := Pass;
      if Given(step.topic) && Given(step.lastWill) {
        r := proxy.Queue(step.topic.value, TextPayload(step.lastWill.value), Some(Truthy(step.retain)));
      }
    }

    /** `_final_work`: the last wills are queued, in step order. */
    method FinalWork() returns (r: Outcome<ConfigException>)
      modifies proxy`messages
      ensures var ws := Wills(FieldsOf(steps));
        && (r.Fail? <==> !proxy.hasClient && ws != [])
        && proxy.messages == old(proxy.messages) + if proxy.hasClient then ws else []
    {
      ghost var fs := FieldsOf(steps);
      ghost var added: seq<ProxyMessage> := [];
      var i := 0;
      while i < |steps|
        invariant 0 <= i <= |steps| && fs == FieldsOf(steps)
        invariant proxy.messages == old(proxy.messages) + added
        invariant QueueProgress(fs, i, proxy.hasClient, added)
      {
        r, added := QueueNext(fs, i, added, old(proxy.messages));
        if r.Fail? {
          return;
        }
        i := i + 1;
      }
      QueueProgressDone(fs, proxy.hasClient, added);
      r := Pass;
    }

    /** One iteration of `_final_work`'s loop, on top of the steps before it. */
    method QueueNext(ghost fs: seq<StepFields>, i: nat, ghost added: seq<ProxyMessage>, ghost messages0: seq<ProxyMessage>)
      returns (r: Outcome<ConfigException>, ghost added': seq<ProxyMessage>)
      requires fs == FieldsOf(steps) && i < |fs|
      requires proxy.messages == messages0 + added && QueueProgress(fs, i, proxy.hasClient, added)
      modifies proxy`messages
      ensures FieldsOf(steps) == fs && proxy.messages == messages0 + added'
      ensures r.Pass? ==> QueueProgress(fs, i + 1, proxy.hasClient, added')
      ensures r.Fail? ==> !proxy.hasClient && Wills(fs) != [] && added' == []
    {
      assert fs[i] == steps[i].Fields();
      r := QueueWill(steps[i], fs[i]);
      if r.Fail? {
        WillsNonEmpty(fs, i);
        QueueProgressFail(fs, i, proxy.hasClient, added);
        added' := added;
        return;
      }
      QueueProgressStep(fs, i, proxy.hasClient, added);
      added' := added + if proxy.hasClient then WillOf(fs[i]) else [];
    }

    /** One iteration of `_work`'s loop: the step runs, unless the worker is closing. */
    method RunStep(index: nat, step: Step, fetch: Fetch, stopAt: nat, ghost f: StepFields) returns (r: Outcome<WorkError>)
      requires f == step.Fields() && Ready(f)
      modifies proxy`messages, this`dbLog
      ensures var s := StepRun(index, f, fetch, stopAt, proxy.hasClient);
        proxy.messages == old(proxy.messages) + s.queued && dbLog == old(dbLog) + s.log && r == s.out
    {
      if index >= stopAt {
        return Fail(ShutdownException);
      }
      r := Pass;
      match fetch {
        case DatabaseError =>
          dbLog := dbLog + [Rollback];
        case Row(cols) =>
          if step.outputType == Some(OutputJson) || step.outputType == Some(OutputScalar) {
            var m := OutputOf(step.Fields(), cols);
            if m.None? {
              return Fail(WorkConfigException);
            }
            var q := proxy.Queue(m.value.topic, m.value.payload, m.value.retain);
            if q.Fail? {
              return Fail(WorkConfigException);
            }
          }
          dbLog := dbLog + [Commit];
      }
    }

    /**
     * `_work`: nothing without a cron or single-start notification; otherwise
     * every step runs in order, committing or rolling back, and publishing
     * steps queue their row. `stopAt` is the first step at which the worker
     * is found closing.
     */
    method Work(ns: seq<Notification>, fetches: seq<Fetch>, stopAt: nat) returns (r: Outcome<WorkError>)
      requires |fetches| == |steps| && Runnable(FieldsOf(steps))
      modifies proxy`messages, this`dbLog
      ensures !Triggered(ns) ==> r == Pass && proxy.messages == old(proxy.messages) && dbLog == old(dbLog)
      ensures Triggered(ns) ==> var w := WorkSpec(FieldsOf(steps), fetches, stopAt, proxy.hasClient);
        proxy.messages == old(proxy.messages) + w.queued && dbLog == old(dbLog) + w.log && r == w.out
    {
      r := Pass;
      if !Triggered(ns) {
        return;
      }
      ghost var fs := FieldsOf(steps);
      ghost var rs := Runs(fs, fetches, stopAt, proxy.hasClient);
      RunsMatch(fs, fetches, stopAt, proxy.hasClient);
      r := RunSteps(fs, fetches, stopAt, rs);
    }

    /** `_work`'s loop, with `rs` what each step's run gives on its own. */
    method RunSteps(ghost fs: seq<StepFields>, fetches: seq<Fetch>, stopAt: nat, ghost rs: seq<WorkState>) returns (r: Outcome<WorkError>)
      requires fs == FieldsOf(steps) && Runnable(fs) && !RunMismatched(rs, fs, fetches, stopAt, proxy.hasClient)
      modifies proxy`messages, this`dbLog
      ensures var w := WorkFold(rs);
        proxy.messages == old(proxy.messages) + w.queued && dbLog == old(dbLog) + w.log && r == w.out
    {
      ghost var queued: seq<ProxyMessage> := [];
      ghost var log: seq<DbCall> := [];
      r := Pass;
      var i := 0;
      while i < |steps|
        invariant 0 <= i <= |steps| && fs == FieldsOf(steps)
        invariant proxy.messages == old(proxy.messages) + queued && dbLog == old(dbLog) + log
        invariant WorkFold(rs[..i]) == WorkState(queued, log, r) && r == Pass
      {
        r, queued, log := RunNext(fs, fetches, stopAt, rs, i, queued, log, old(proxy.messages), old(dbLog));
        if r.Fail? {
          WorkFoldFails(rs, i + 1);
          return;
        }
        i := i + 1;
      }
      assert rs[..|steps|] == rs;
    }

    /** One iteration of `_work`'s loop, on top of the steps before it. */
    method RunNext(ghost fs: seq<StepFields>, fetches: seq<Fetch>, stopAt: nat, ghost rs: seq<WorkState>, i: nat,
                   ghost queued: seq<ProxyMessage>, ghost log: seq<DbCall>, ghost messages0: seq<ProxyMessage>, ghost log0: seq<DbCall>)
      returns (r: Outcome<WorkError>, ghost queued': seq<ProxyMessage>, ghost log': seq<DbCall>)
      requires fs == FieldsOf(steps) && Runnable(fs) && !RunMismatched(rs, fs, fetches, stopAt, proxy.hasClient) && i < |fs|
      requires proxy.messages == messages0 + queued && dbLog == log0 + log && WorkFold(rs[..i]) == WorkState(queued, log, Pass)
      modifies proxy`messages, this`dbLog
      ensures FieldsOf(steps) == fs && proxy.messages == messages0 + queued' && dbLog == log0 + log'
      ensures WorkFold(rs[..i + 1]) == WorkState(queued', log', r)
    {
      ghost var f := fs[i];
      assert f == steps[i].Fields() && Ready(f);
      assert rs[i] == StepRun(i, f, fetches[i], stopAt, proxy.hasClient);
      r := RunStep(i, steps[i], fetches[i], stopAt, f);
      WorkFoldStep(rs, i);
      queued', log' := queued + rs[i].queued, log + rs[i].log;
    }
  }

  // ---- progress of the loops ----

  /** `setup`'s loop after the steps `ps`: their fields and issues as the fold says, and no crash. */
  ghost predicate SetupProgress(ps: seq<Prepared>, fs: seq<StepFields>, pushed: seq<Issue>, found: bool) {
    var s := SetupFold(ps);
    s.crash.None? && fs == s.steps && pushed == s.issues && (found <==> pushed != [])
  }

  lemma SetupFoldStep(ps: seq<Prepared>, i: nat)
    requires i < |ps|
    ensures var s := SetupFold(ps[..i]);
      SetupFold(ps[..i + 1]) == if s.crash.Some? then s else SetupState(s.steps + [ps[i].fields], s.issues + ps[i].issues, ps[i].crash)
  {
    assert ps[..i + 1][..i] == ps[..i];
  }

  /** Once a step crashes, the rest of the steps are never prepared. */
  lemma {:induction false} SetupCrashes(ps: seq<Prepared>, k: nat)
    requires k <= |ps| && SetupFold(ps[..k]).crash.Some?
    ensures SetupFold(ps) == SetupFold(ps[..k])
    decreases |ps| - k
  {
    if k < |ps| {
      SetupFoldStep(ps, k);
      SetupCrashes(ps, k + 1);
    } else {
      assert ps[..k] == ps;
    }
  }

  lemma WillStep(fs: seq<StepFields>, i: nat)
    requires i < |fs|
    ensures Wills(fs[..i + 1]) == Wills(fs[..i]) + WillOf(fs[i])
  {
    assert fs[..i + 1][..i] == fs[..i];
  }

  /** `set_last_will`'s loop after `i` steps: the last wills so far are registered, and without a client there were none. */
  ghost predicate WillProgress(fs: seq<StepFields>, i: nat, hasClient: bool, added: seq<ClientCall>)
    requires i <= |fs|
  {
    (!hasClient ==> Wills(fs[..i]) == []) && added == (if hasClient then WillCalls(Wills(fs[..i])) else [])
  }

  lemma WillProgressStep(fs: seq<StepFields>, i: nat, hasClient: bool, added: seq<ClientCall>)
    requires i < |fs| && WillProgress(fs, i, hasClient, added) && (hasClient || WillOf(fs[i]) == [])
    ensures WillProgress(fs, i + 1, hasClient, added + if hasClient then WillCalls(WillOf(fs[i])) else [])
  {
    WillStep(fs, i);
    WillCallsAppend(Wills(fs[..i]), WillOf(fs[i]));
  }

  lemma WillProgressFail(fs: seq<StepFields>, i: nat, hasClient: bool, added: seq<ClientCall>)
    requires i < |fs| && WillProgress(fs, i, hasClient, added) && !hasClient && Wills(fs) != []
    ensures added == []
  {
  }

  lemma WillProgressDone(fs: seq<StepFields>, hasClient: bool, added: seq<ClientCall>)
    requires WillProgress(fs, |fs|, hasClient, added)
    ensures (!hasClient ==> Wills(fs) == []) && added == if hasClient then WillCalls(Wills(fs)) else []
  {
    assert fs[..|fs|] == fs;
  }

  /** `_final_work`'s loop after `i` steps: the last wills so far are queued, and without a client there were none. */
  ghost predicate QueueProgress(fs: seq<StepFields>, i: nat, hasClient: bool, added: seq<ProxyMessage>)
    requires i <= |fs|
  {
    (!hasClient ==> Wills(fs[..i]) == []) && added == (if hasClient then Wills(fs[..i]) else [])
  }

  lemma QueueProgressStep(fs: seq<StepFields>, i: nat, hasClient: bool, added: seq<ProxyMessage>)
    requires i < |fs| && QueueProgress(fs, i, hasClient, added) && (hasClient || WillOf(fs[i]) == [])
    ensures QueueProgress(fs, i + 1, hasClient, added + if hasClient then WillOf(fs[i]) else [])
  {
    WillStep(fs, i);
  }

  lemma QueueProgressFail(fs: seq<StepFields>, i: nat, hasClient: bool, added: seq<ProxyMessage>)
    requires i < |fs| && QueueProgress(fs, i, hasClient, added) && !hasClient && Wills(fs) != []
    ensures added == []
  {
  }

  lemma QueueProgressDone(fs: seq<StepFields>, hasClient: bool, added: seq<ProxyMessage>)
    requires QueueProgress(fs, |fs|, hasClient, added)
    ensures (!hasClient ==> Wills(fs) == []) && added == if hasClient then Wills(fs) else []
  {
    assert fs[..|fs|] == fs;
  }

  /** Registering two lists of last wills one after the other is registering the joined list. */
  lemma {:induction false} WillCallsAppend(a: seq<ProxyMessage>, b: seq<ProxyMessage>)
    ensures WillCalls(a + b) == WillCalls(a) + WillCalls(b)
    decreases |b|
  {
    if b == [] {
      assert a + b == a;
    } else {
      var b' := b[..|b| - 1];
      assert (a + b)[..|a + b| - 1] == a + b';
      assert (a + b)[|a + b| - 1] == b[|b| - 1];
      WillCallsAppend(a, b');
    }
  }

  /** A step with a last will makes the list of last wills non-empty. */
  lemma {:induction false} WillsNonEmpty(fs: seq<StepFields>, i: nat)
    requires i < |fs| && WillOf(fs[i]) != []
    ensures Wills(fs) != []
    decreases |fs|
  {
    var n := |fs| - 1;
    if i < n {
      assert fs[..n][i] == fs[i];
      WillsNonEmpty(fs[..n], i);
    }
  }

  /** `_work`'s loop after `i` steps, with what it queued and logged so far. */
  /** Some step's run in `rs` is not what running that step gives. */
  ghost predicate RunMismatched(rs: seq<WorkState>, fs: seq<StepFields>, fetches: seq<Fetch>, stopAt: nat, hasClient: bool) {
    || |rs| != |fs| || |fetches| != |fs|
    || exists j {:trigger StepRun(j, fs[j], fetches[j], stopAt, hasClient)} ::
         0 <= j < |fs| && Ready(fs[j]) && rs[j] != StepRun(j, fs[j], fetches[j], stopAt, hasClient)
  }

  lemma RunsMatch(fs: seq<StepFields>, fetches: seq<Fetch>, stopAt: nat, hasClient: bool)
    requires |fetches| == |fs| && Runnable(fs)
    ensures !RunMismatched(Runs(fs, fetches, stopAt, hasClient), fs, fetches, stopAt, hasClient)
  {
  }

  lemma WorkFoldStep(rs: seq<WorkState>, i: nat)
    requires i < |rs|
    ensures var w := WorkFold(rs[..i]);
      WorkFold(rs[..i + 1]) == if w.out.Fail? then w else WorkState(w.queued + rs[i].queued, w.log + rs[i].log, rs[i].out)
  {
    assert rs[..i + 1][..i] == rs[..i];
  }

  /** Once a step raises, the later steps do not run. */
  lemma {:induction false} WorkFoldFails(rs: seq<WorkState>, k: nat)
    requires k <= |rs| && WorkFold(rs[..k]).out.Fail?
    ensures WorkFold(rs) == WorkFold(rs[..k])
    decreases |rs| - k
  {
    if k < |rs| {
      WorkFoldStep(rs, k);
      WorkFoldFails(rs, k + 1);
    } else {
      assert rs[..k] == rs;
    }
  }

  // ---- properties ----

  /** The last wills of joined step lists are joined: they keep step order. */
  lemma {:induction false} WillsAppend(a: seq<StepFields>, b: seq<StepFields>)
    ensures Wills(a + b) == Wills(a) + Wills(b)
    decreases |b|
  {
    if b == [] {
      assert a + b == a;
    } else {
      var b' := b[..|b| - 1];
      assert (a + b)[..|a + b| - 1] == a + b';
      assert (a + b)[|a + b| - 1] == b[|b| - 1];
      WillsAppend(a, b');
    }
  }

  /** A message is a last will exactly when some step has a topic and a last will, and it is that step's. */
  lemma WillsMembers(fs: seq<StepFields>, m: ProxyMessage)
    ensures m in Wills(fs) <==> exists i :: 0 <= i < |fs| && Given(fs[i].topic) && Given(fs[i].lastWill) && m in WillOf(fs[i])
  {
    if m in Wills(fs) {
      var i := WillOwner(fs, m);
    }
    if exists i :: 0 <= i < |fs| && Given(fs[i].topic) && Given(fs[i].lastWill) && m in WillOf(fs[i]) {
      var i :| 0 <= i < |fs| && Given(fs[i].topic) && Given(fs[i].lastWill) && m in WillOf(fs[i]);
      WillKept(fs, i, m);
    }
  }

  /** The step a last will comes from. */
  lemma {:induction false} WillOwner(fs: seq<StepFields>, m: ProxyMessage) returns (i: nat)
    requires m in Wills(fs)
    ensures i < |fs| && Given(fs[i].topic) && Given(fs[i].lastWill) && m in WillOf(fs[i])
    decreases |fs|
  {
    var n := |fs| - 1;
    if m in Wills(fs[..n]) {
      i := WillOwner(fs[..n], m);
      assert fs[..n][i] == fs[i];
    } else {
      i := n;
    }
  }

  /** Every step's last will is among the last wills. */
  lemma {:induction false} WillKept(fs: seq<StepFields>, i: nat, m: ProxyMessage)
    requires i < |fs| && m in WillOf(fs[i])
    ensures m in Wills(fs)
    decreases |fs|
  {
    var n := |fs| - 1;
    if i < n {
      assert fs[..n][i] == fs[i];
      WillKept(fs[..n], i, m);
    }
  }

  /** Registering the last wills makes one call per last will, on the proxy's terms: topic and will are given. */
  lemma {:induction false} WillCallsInOrder(ms: seq<ProxyMessage>)
    ensures |WillCalls(ms)| == |ms|
    ensures forall i :: 0 <= i < |ms| ==> WillCalls(ms)[i] == SetLastWill(ms[i].topic, ms[i].payload, ms[i].retain)
    decreases |ms|
  {
    if ms != [] {
      var front := ms[..|ms| - 1];
      WillCallsInOrder(front);
      forall i | 0 <= i < |ms| - 1 ensures WillCalls(ms)[i] == SetLastWill(ms[i].topic, ms[i].payload, ms[i].retain) {
        assert WillCalls(ms)[i] == WillCalls(front)[i];
        assert front[i] == ms[i];
      }
    }
  }

  /** Replacing with two dicts one after the other is replacing with the joined dict. */
  lemma {:induction false} ReplaceAllAppend(s: string, a: Dict<string, string>, b: Dict<string, string>)
    ensures ReplaceAll(s, a + b) == ReplaceAll(ReplaceAll(s, a), b)
    decreases |b|
  {
    if b == [] {
      assert a + b == a;
    } else {
      var b' := b[..|b| - 1];
      assert (a + b)[..|a + b| - 1] == a + b';
      assert (a + b)[|a + b| - 1] == b[|b| - 1];
      ReplaceAllAppend(s, a, b');
    }
  }

  /** A single replacement is `str.replace`, which is `new.join(s.split(old))` for a non-empty pattern. */
  lemma ReplaceAllSingle(s: string, pattern: string, replacement: string)
    requires pattern != []
    ensures ReplaceAll(s, [(pattern, replacement)]) == Join(replacement, Split(s, pattern))
  {
    assert [(pattern, replacement)][..0] == [];
    ReplaceIsJoinOfSplit(s, pattern, replacement);
  }

  /** A step's replacement overrides the worker's for the same pattern; other worker patterns stay. */
  lemma MergedReplacement(worker: Dict<string, string>, step: Dict<string, string>, pattern: string)
    requires DistinctKeys(step)
    ensures Get(Merge(worker, step), pattern) == if pattern in Keys(step) then Get(step, pattern) else Get(worker, pattern)
    ensures Keys(Merge(worker, step)) == Keys(worker) + Fresh(Keys(step), Keys(worker))
  {
    MergeGet(worker, step, pattern);
    MergeKeys(worker, step);
  }

  /**
   * What `prepare_step` makes of the fields: the output type is None exactly
   * for "none" or an empty one and kept otherwise, retain becomes a bool, and
   * the other configured fields stay.
   */
  lemma PrepareNormalises(index: nat, f: StepFields, worker: Dict<string, string>, load: FileLoad)
    ensures var p := PrepareSpec(index, f, worker, load);
      && (p.fields.outputType.None? <==> f.outputType == Some(OutputNone) || !Given(f.outputType))
      && (p.fields.outputType.Some? ==> p.fields.outputType == f.outputType)
      && p.fields.retain == JBool(Truthy(f.retain))
      && p.fields.topic == f.topic && p.fields.lastWill == f.lastWill && p.fields.scriptFile == f.scriptFile
      && p.fields.replacements == f.replacements
  {
  }

  /** Preparing the statement pushes only script and statement issues. */
  lemma StatementIssues(index: nat, f: StepFields, worker: Dict<string, string>, load: FileLoad)
    ensures forall x :: x in PrepareStatementSpec(index, f, worker, load).issues ==>
      x == ScriptNotFound(index) || x == ScriptUnreadable(index) || x == EmptyStatement(index)
  {
  }

  /** `prepare_step` reports a missing topic exactly when the step publishes a last will or an output. */
  lemma PrepareTopicIssue(index: nat, f: StepFields, worker: Dict<string, string>, load: FileLoad)
    ensures MissingTopic(index) in PrepareSpec(index, f, worker, load).issues <==>
      !Given(f.topic) && (Given(f.lastWill) || Given(NormalOutputType(f.outputType)))
  {
    StatementIssues(index, Normalised(f), worker, load);
  }

  /** A statement that `prepare_step` prepares is stripped, with an issue exactly when it is empty. */
  lemma PrepareStatementStripped(index: nat, f: StepFields, worker: Dict<string, string>, load: FileLoad)
    ensures var p := PrepareSpec(index, f, worker, load);
      && (p.crash.None? && p.fields.statement.Some? ==> Strip(p.fields.statement.value) == p.fields.statement.value)
      && (p.crash.None? && ScriptNotFound(index) !in p.issues ==>
            (EmptyStatement(index) in p.issues <==> p.fields.statement == Some([])))
  {
    var g := Normalised(f);
    var st := PrepareStatementSpec(index, g, worker, load);
    if st.statement.Some? && st.crash.None? && !(!Given(g.statement) && load == NotFound) {
      StripIdempotent(ReplaceAll(if Given(g.statement) then g.statement.value else if load.Loaded? then load.text else g.statement.value, Merge(worker, g.replacements)));
    }
  }

  /** A step with a statement of its own ignores its script file. */
  lemma StatementFirst(index: nat, f: StepFields, worker: Dict<string, string>, load: FileLoad, load': FileLoad)
    requires Given(f.statement)
    ensures PrepareStatementSpec(index, f, worker, load) == PrepareStatementSpec(index, f, worker, load')
    ensures PrepareStatementSpec(index, f, worker, load).statement == Some(Strip(ReplaceAll(f.statement.value, Merge(worker, f.replacements))))
  {
  }

  /**
   * `setup` prepares every step even after an issue: without a crash there is
   * one prepared step per configuration, each as `prepare_step` leaves it, and
   * it raises ConfigException exactly when some step pushed an issue.
   */
  lemma {:induction false} SetupFoldAll(ps: seq<Prepared>)
    ensures var s := SetupFold(ps);
      s.crash.None? ==>
        && |s.steps| == |ps|
        && (forall i :: 0 <= i < |ps| ==> s.steps[i] == ps[i].fields && ps[i].crash.None?)
        && (s.issues != [] <==> exists i :: 0 <= i < |ps| && ps[i].issues != [])
    decreases |ps|
  {
    if ps != [] {
      var n := |ps| - 1;
      var front := ps[..n];
      SetupFoldAll(front);
      var s := SetupFold(front);
      if s.crash.None? && SetupFold(ps).crash.None? {
        forall i | 0 <= i < n ensures front[i] == ps[i] {
        }
        if s.issues != [] {
          var i :| 0 <= i < n && front[i].issues != [];
          assert ps[i].issues != [];
        }
      }
    }
  }

  lemma SetupPreparesAll(worker: Dict<string, string>, configs: seq<StepFields>, loads: seq<FileLoad>)
    requires |loads| == |configs|
    ensures var s := SetupSpec(worker, configs, loads);
      s.crash.None? ==>
        && |s.steps| == |configs|
        && (forall i :: 0 <= i < |configs| ==> s.steps[i] == PrepareSpec(i, configs[i], worker, loads[i]).fields)
        && (SetupOutcome(s) == Fail(ConfigException) <==>
              exists i :: 0 <= i < |configs| && PrepareSpec(i, configs[i], worker, loads[i]).issues != [])
  {
    var ps := Prepares(worker, configs, loads);
    SetupFoldAll(ps);
    forall i | 0 <= i < |configs| ensures ps[i] == PrepareSpec(i, configs[i], worker, loads[i]) {
      PreparesAt(worker, configs, loads, i);
    }
  }

  /** A setup that passes leaves steps that are ready to work: every publishing step has a topic. */
  lemma SetupPassRunnable(worker: Dict<string, string>, configs: seq<StepFields>, loads: seq<FileLoad>)
    requires |loads| == |configs|
    ensures var s := SetupSpec(worker, configs, loads); SetupOutcome(s) == Pass ==> Runnable(s.steps)
  {
    var ps := Prepares(worker, configs, loads);
    var s := SetupFold(ps);
    SetupFoldAll(ps);
    if SetupOutcome(s) == Pass {
      forall i | 0 <= i < |s.steps| ensures Ready(s.steps[i]) {
        PrepareNormalises(i, configs[i], worker, loads[i]);
        PrepareTopicIssue(i, configs[i], worker, loads[i]);
        PreparesAt(worker, configs, loads, i);
        assert ps[i].issues == [];
      }
    }
  }

  /** What a step's database call is: a rollback after a database error, a commit otherwise. */
  function DbCallOf(fetch: Fetch): DbCall {
    if fetch.DatabaseError? then Rollback else Commit
  }

  /** A step run that passes ran before the worker was closing and made its database call once. */
  lemma StepRunPass(index: nat, f: StepFields, fetch: Fetch, stopAt: nat, hasClient: bool)
    requires Ready(f)
    ensures var s := StepRun(index, f, fetch, stopAt, hasClient);
      s.out.Pass? ==> index < stopAt && s.log == [DbCallOf(fetch)]
  {
  }

  /** Every step run in `rs` that passes ran before `stopAt` and made its database call once. */
  ghost predicate CallsOnce(rs: seq<WorkState>, fetches: seq<Fetch>, stopAt: nat) {
    forall j :: 0 <= j < |rs| && j < |fetches| && rs[j].out.Pass? ==> j < stopAt && rs[j].log == [DbCallOf(fetches[j])]
  }

  lemma RunsCallOnce(fs: seq<StepFields>, fetches: seq<Fetch>, stopAt: nat, hasClient: bool)
    requires |fetches| == |fs| && Runnable(fs)
    ensures CallsOnce(Runs(fs, fetches, stopAt, hasClient), fetches, stopAt)
  {
    var rs := Runs(fs, fetches, stopAt, hasClient);
    forall j | 0 <= j < |rs| && rs[j].out.Pass? ensures j < stopAt && rs[j].log == [DbCallOf(fetches[j])] {
      StepRunPass(j, fs[j], fetches[j], stopAt, hasClient);
    }
  }

  /** After the first `k` step runs passed, each of them made its database call once, before the worker was closing. */
  lemma {:induction false} WorkPrefixPass(rs: seq<WorkState>, fetches: seq<Fetch>, stopAt: nat, k: nat)
    requires CallsOnce(rs, fetches, stopAt) && k <= |rs| == |fetches|
    ensures var w := WorkFold(rs[..k]);
      w.out.Pass? ==> |w.log| == k && k <= stopAt && forall i :: 0 <= i < k ==> w.log[i] == DbCallOf(fetches[i])
  {
    if k > 0 {
      WorkPrefixPass(rs, fetches, stopAt, k - 1);
      WorkFoldStep(rs, k - 1);
    }
  }

  /**
   * A run of `_work` that does not raise ran every step: one commit or rollback
   * per step, a rollback exactly for a database error.
   */
  lemma WorkPassRunsAll(fs: seq<StepFields>, fetches: seq<Fetch>, stopAt: nat, hasClient: bool)
    requires |fetches| == |fs| && Runnable(fs)
    ensures var w := WorkSpec(fs, fetches, stopAt, hasClient);
      w.out.Pass? ==>
        && |w.log| == |fs| && |fs| <= stopAt
        && forall i :: 0 <= i < |fs| ==> w.log[i] == if fetches[i].DatabaseError? then Rollback else Commit
  {
    var rs := Runs(fs, fetches, stopAt, hasClient);
    RunsCallOnce(fs, fetches, stopAt, hasClient);
    WorkPrefixPass(rs, fetches, stopAt, |fs|);
    assert rs[..|fs|] == rs;
  }

  /** A worker found closing before its last step raises ShutdownException or an earlier error. */
  lemma {:induction false} WorkStopped(fs: seq<StepFields>, fetches: seq<Fetch>, stopAt: nat, hasClient: bool)
    requires |fetches| == |fs| && Runnable(fs) && stopAt < |fs|
    ensures WorkSpec(fs, fetches, stopAt, hasClient).out.Fail?
  {
    WorkPassRunsAll(fs, fetches, stopAt, hasClient);
  }

  /** `str(i)` reads back with `int()`. */
  lemma FormatIntParses(i: int)
    ensures ParseInt(FormatInt(i)) == Some(i)
  {
    if i < 0 {
      var d := FormatNat(-i);
      var t := "-" + d;
      assert t[0] == '-' && t[|t| - 1] == d[|d| - 1];
      StripKeeps(t);
      assert t[1..] == d;
      FormatNatValue(-i);
    } else {
      ParseFormatNat(i);
    }
  }
}
