/**
 * `WorkerFactory`: the worker instances are configured as a dictionary from
 * worker name to class path, where a class path may also be the short name of
 * a predefined worker. Importing the module and constructing the worker lie
 * outside the model: which import targets name a worker class is a parameter.
 */
module WorkerFactory {
  import opened Wrappers
  import opened Dicts
  import opened Json
  import opened PyStrings

  const AstralModule: string := "worker_bunch.astral_times.astral_times_publisher"
  const DatabaseModule: string := "worker_bunch.database.database_worker"

  /** The short names of the workers that come with the service. */
  const PredefinedWorkers: Dict<string, string> := [
    ("AstralTimesPublisher", AstralModule + "." + "AstralTimesPublisher"),
    ("DatabaseWorker", DatabaseModule + "." + "DatabaseWorker")
  ]

  /** `path[0:end]`, with Python's reading of a negative end: counted back from the end of `path`. */
  function SliceTo(path: string, end: int): (r: string)
    ensures 0 <= end <= |path| ==> r == path[..end]
    ensures -|path| <= end < 0 ==> r == path[..|path| + end]
  {
    var e := if end < 0 then |path| + end else end;
    path[..if e < 0 then 0 else if e > |path| then |path| else e]
  }

  /** The module to import and the class to take from it. */
  datatype ImportTarget = ImportTarget(moduleName: string, className: string)

  /** `resolve_import`'s split of a class path at its last '.'. */
  function ResolveImport(path: string): ImportTarget {
    var d := RFind(path, '.');
    ImportTarget(SliceTo(path, d), path[d + 1..])
  }

  /** With a '.', the class is what follows the last '.' and the module what precedes it. */
  lemma ResolveImportSplits(path: string)
    requires '.' in path
    ensures var t := ResolveImport(path);
      t.moduleName + "." + t.className == path && '.' !in t.className
  {
    var d := RFind(path, '.');
    var t := ResolveImport(path);
    assert t.moduleName + "." + t.className == path[..d] + [path[d]] + path[d + 1..];
    assert path[..d] + [path[d]] + path[d + 1..] == path;
  }

  /** Splitting a module name and a class name joined by '.' gives them back. */
  lemma ResolveImportJoined(moduleName: string, className: string)
    requires '.' !in className
    ensures ResolveImport(moduleName + "." + className) == ImportTarget(moduleName, className)
  {
    var path := moduleName + "." + className;
    assert path[|moduleName|] == '.';
    var d := RFind(path, '.');
    assert path[..d] == moduleName;
    assert path[d + 1..] == className;
  }

  /** Without a '.', the class is the whole path and the module is the path without its last character. */
  lemma ResolveImportUndotted(path: string)
    requires '.' !in path
    ensures ResolveImport(path) == ImportTarget(if path == [] then [] else path[..|path| - 1], path)
  {
    var d := RFind(path, '.');
    assert d == -1;
    assert path[d + 1..] == path;
  }

  /** The class path an entry is created from: the full path of a predefined worker's short name, else as configured. */
  function Aliased(classPath: string): string {
    match Get(PredefinedWorkers, classPath)
    case Some(full) => if full != [] then full else classPath
    case None => classPath
  }

  /** A class path that is not a short name is taken as configured. */
  lemma AliasedOthers(classPath: string)
    requires classPath !in Keys(PredefinedWorkers)
    ensures Aliased(classPath) == classPath
  {
    GetFound(PredefinedWorkers, classPath);
  }

  /** The predefined short names resolve to the classes shipped with the service. */
  lemma PredefinedResolve()
    ensures ResolveImport(Aliased("DatabaseWorker")) == ImportTarget(DatabaseModule, "DatabaseWorker")
    ensures ResolveImport(Aliased("AstralTimesPublisher")) == ImportTarget(AstralModule, "AstralTimesPublisher")
  {
    var rest := PredefinedWorkers[1..];
    assert rest == [("DatabaseWorker", DatabaseModule + "." + "DatabaseWorker")];
    assert |PredefinedWorkers[0].0| != |"DatabaseWorker"|;
    assert Get(PredefinedWorkers, "DatabaseWorker") == Get(rest, "DatabaseWorker");
    assert Aliased("DatabaseWorker") == DatabaseModule + "." + "DatabaseWorker";
    assert Aliased("AstralTimesPublisher") == AstralModule + "." + "AstralTimesPublisher";
    ResolveImportJoined(DatabaseModule, "DatabaseWorker");
    ResolveImportJoined(AstralModule, "AstralTimesPublisher");
  }

  /** A worker as `create_worker` makes it: constructed with its name from the imported class. */
  datatype CreatedWorker = CreatedWorker(name: string, target: ImportTarget)

  /** What `create_worker` re-raises: the import, the construction or `_check_class` failed for the class path. */
  datatype CreateError = CreateFailed(classPath: string)

  /** `create_worker`: the worker, or the error when the class path does not name a worker class. */
  function CreateWorker(workerName: string, classPath: string, workerClasses: set<ImportTarget>): (r: Result<CreatedWorker, CreateError>)
    ensures r.Ok? <==> ResolveImport(classPath) in workerClasses
    ensures r.Ok? ==> r.value.name == workerName && r.value.target == ResolveImport(classPath)
    ensures r.Err? ==> r.error == CreateFailed(classPath)
  {
    var t := ResolveImport(classPath);
    if t in workerClasses then Ok(CreatedWorker(workerName, t)) else Err(CreateFailed(classPath))
  }

  /** An entry `create_workers` creates a worker for: a name and a class path, alias resolved, both non-empty. */
  predicate Kept(entry: (string, string)) {
    entry.0 != [] && Aliased(entry.1) != []
  }

  /** One iteration of `create_workers`' loop on the workers made so far. */
  function NextWorkers(ws: Dict<string, CreatedWorker>, entry: (string, string), workerClasses: set<ImportTarget>): Result<Dict<string, CreatedWorker>, CreateError> {
    var (name, classPath) := entry;
    var path := Aliased(classPath);
    if name != [] && path != [] then
      match CreateWorker(name, path, workerClasses)
      case Err(e) => Err(e)
      case Ok(w) => Ok(Put(ws, name, w))
    else Ok(ws)
  }

  /** `create_workers`' loop on the values of the configuration, up to the first worker that cannot be created. */
  function CreateWorkersSpec(config: Dict<string, string>, workerClasses: set<ImportTarget>): Result<Dict<string, CreatedWorker>, CreateError> {
    if config == [] then Ok([])
    else
      var before := CreateWorkersSpec(config[..|config| - 1], workerClasses);
      if before.Err? then before else NextWorkers(before.value, config[|config| - 1], workerClasses)
  }

  /** `create_workers`. */
  method CreateWorkers(config: Dict<string, string>, workerClasses: set<ImportTarget>) returns (r: Result<Dict<string, CreatedWorker>, CreateError>)
    ensures r == CreateWorkersSpec(config, workerClasses)
  {
    var workers: Dict<string, CreatedWorker> := [];
    var i := 0;
    while i < |config|
      invariant 0 <= i <= |config|
      invariant CreateWorkersSpec(config[..i], workerClasses) == Ok(workers)
    {
      CreateWorkersStep(config, i, workerClasses);
      var (workerName, classPath) := config[i];
      var next := AddWorker(workers, workerName, classPath, workerClasses);
      if next.Err? {
        CreateWorkersStaysFailed(config, i + 1, workerClasses);
        return next;
      }
      workers := next.value;
      i := i + 1;
    }
    assert config[..|config|] == config;
    r := Ok(workers);
  }

  /** One iteration of `create_workers`' loop: the alias is resolved, and a named entry with a class path gets its worker. */
  method AddWorker(workers: Dict<string, CreatedWorker>, workerName: string, classPath: string, workerClasses: set<ImportTarget>)
    returns (r: Result<Dict<string, CreatedWorker>, CreateError>)
    ensures r == NextWorkers(workers, (workerName, classPath), workerClasses)
  {
    var path := classPath;
    var predefined := Get(PredefinedWorkers, classPath);
    if predefined.Some? && predefined.value != [] {
      path := predefined.value;
    }
    assert path == Aliased(classPath);
    r := Ok(workers);
    if workerName != [] && path != [] {
      var created := CreateWorker(workerName, path, workerClasses);
      if created.Err? {
        return Err(created.error);
      }
      r := Ok(Put(workers, workerName, created.value));
    }
  }

  lemma CreateWorkersStep(config: Dict<string, string>, i: nat, workerClasses: set<ImportTarget>)
    requires i < |config|
    ensures var before := CreateWorkersSpec(config[..i], workerClasses);
      CreateWorkersSpec(config[..i + 1], workerClasses) == if before.Err? then before else NextWorkers(before.value, config[i], workerClasses)
  {
    assert config[..i + 1][..i] == config[..i];
  }

  /** Once a worker cannot be created, `create_workers` raises that error, whatever follows. */
  lemma {:induction false} CreateWorkersStaysFailed(config: Dict<string, string>, k: nat, workerClasses: set<ImportTarget>)
    requires k <= |config| && CreateWorkersSpec(config[..k], workerClasses).Err?
    ensures CreateWorkersSpec(config, workerClasses) == CreateWorkersSpec(config[..k], workerClasses)
    decreases |config| - k
  {
    if k < |config| {
      CreateWorkersStep(config, k, workerClasses);
      CreateWorkersStaysFailed(config, k + 1, workerClasses);
    } else {
      assert config[..k] == config;
    }
  }

  /** What `create_workers` makes of one kept entry. */
  function CreatedFrom(entry: (string, string)): CreatedWorker {
    CreatedWorker(entry.0, ResolveImport(Aliased(entry.1)))
  }

  /** One more entry: kept, it adds its worker under its name; skipped, it changes nothing. */
  lemma NextWorkersMeans(ws: Dict<string, CreatedWorker>, entry: (string, string), workerClasses: set<ImportTarget>)
    ensures NextWorkers(ws, entry, workerClasses).Ok? <==> !Kept(entry) || CreatedFrom(entry).target in workerClasses
    ensures NextWorkers(ws, entry, workerClasses).Ok? ==>
      NextWorkers(ws, entry, workerClasses).value == if Kept(entry) then Put(ws, entry.0, CreatedFrom(entry)) else ws
  {
  }

  /** `create_workers` fails exactly when some kept entry names no worker class. */
  lemma CreateWorkersFails(config: Dict<string, string>, workerClasses: set<ImportTarget>)
    ensures CreateWorkersSpec(config, workerClasses).Ok? <==>
      forall i :: 0 <= i < |config| && Kept(config[i]) ==> CreatedFrom(config[i]).target in workerClasses
  {
    if forall i :: 0 <= i < |config| && Kept(config[i]) ==> CreatedFrom(config[i]).target in workerClasses {
      CreateWorkersPasses(config, workerClasses);
    } else {
      var i :| 0 <= i < |config| && Kept(config[i]) && CreatedFrom(config[i]).target !in workerClasses;
      CreateWorkersFailsAt(config, workerClasses, i);
    }
  }

  lemma {:induction false} CreateWorkersPasses(config: Dict<string, string>, workerClasses: set<ImportTarget>)
    requires forall i :: 0 <= i < |config| && Kept(config[i]) ==> CreatedFrom(config[i]).target in workerClasses
    ensures CreateWorkersSpec(config, workerClasses).Ok?
    decreases |config|
  {
    if config != [] {
      var n := |config| - 1;
      var front := config[..n];
      forall i | 0 <= i < |front| && Kept(front[i]) ensures CreatedFrom(front[i]).target in workerClasses {
        assert front[i] == config[i];
      }
      CreateWorkersPasses(front, workerClasses);
      NextWorkersMeans(CreateWorkersSpec(front, workerClasses).value, config[n], workerClasses);
    }
  }

  lemma CreateWorkersFailsAt(config: Dict<string, string>, workerClasses: set<ImportTarget>, i: nat)
    requires i < |config| && Kept(config[i]) && CreatedFrom(config[i]).target !in workerClasses
    ensures CreateWorkersSpec(config, workerClasses).Err?
  {
    CreateWorkersStep(config, i, workerClasses);
    var before := CreateWorkersSpec(config[..i], workerClasses);
    if before.Ok? {
      NextWorkersMeans(before.value, config[i], workerClasses);
    }
    CreateWorkersStaysFailed(config, i + 1, workerClasses);
  }

  /** Only configured names have workers. */
  lemma {:induction false} CreateWorkersOnlyConfigured(config: Dict<string, string>, workerClasses: set<ImportTarget>, k: string)
    requires k !in Keys(config)
    ensures var r := CreateWorkersSpec(config, workerClasses); r.Ok? ==> Get(r.value, k) == None
    decreases |config|
  {
    if config != [] {
      var n := |config| - 1;
      var front := config[..n];
      assert Keys(config)[n] == config[n].0;
      assert k !in Keys(front) by {
        forall i | 0 <= i < n ensures Keys(front)[i] != k {
          assert Keys(config)[i] == config[i].0;
        }
      }
      CreateWorkersOnlyConfigured(front, workerClasses, k);
      var rf := CreateWorkersSpec(front, workerClasses);
      if rf.Ok? && NextWorkers(rf.value, config[n], workerClasses).Ok? {
        NextWorkersMeans(rf.value, config[n], workerClasses);
        if Kept(config[n]) {
          PutGet(rf.value, config[n].0, CreatedFrom(config[n]), k);
        }
      }
    }
  }

  /**
   * A `create_workers` that passes makes every kept entry a worker under its
   * name, created from its resolved class path, and skips the others.
   */
  lemma CreateWorkersKeyed(config: Dict<string, string>, workerClasses: set<ImportTarget>)
    requires DistinctKeys(config)
    ensures var r := CreateWorkersSpec(config, workerClasses);
      r.Ok? ==> forall i :: 0 <= i < |config| ==>
        Get(r.value, config[i].0) == if Kept(config[i]) then Some(CreatedFrom(config[i])) else None
  {
    if CreateWorkersSpec(config, workerClasses).Ok? {
      forall i | 0 <= i < |config|
        ensures Get(CreateWorkersSpec(config, workerClasses).value, config[i].0) ==
          if Kept(config[i]) then Some(CreatedFrom(config[i])) else None
      {
        CreateWorkersKeyedAt(config, workerClasses, i);
      }
    }
  }

  /** One entry of a passing `create_workers`, by induction over the entries before it. */
  lemma {:induction false} CreateWorkersKeyedAt(config: Dict<string, string>, workerClasses: set<ImportTarget>, i: nat)
    requires DistinctKeys(config) && i < |config| && CreateWorkersSpec(config, workerClasses).Ok?
    ensures Get(CreateWorkersSpec(config, workerClasses).value, config[i].0) ==
      if Kept(config[i]) then Some(CreatedFrom(config[i])) else None
    decreases |config|
  {
    var n := |config| - 1;
    var front := config[..n];
    var rf := CreateWorkersSpec(front, workerClasses);
    assert CreateWorkersSpec(config, workerClasses) == NextWorkers(rf.value, config[n], workerClasses);
    NextWorkersGet(rf.value, config[n], workerClasses, config[i].0);
    if i < n {
      assert front[i] == config[i];
      assert config[i].0 != config[n].0;
      assert DistinctKeys(front) by {
        forall a, b | 0 <= a < b < n ensures front[a].0 != front[b].0 {
          assert front[a] == config[a] && front[b] == config[b];
        }
      }
      CreateWorkersKeyedAt(front, workerClasses, i);
    } else if !Kept(config[n]) {
      assert config[n].0 !in Keys(front) by {
        forall j | 0 <= j < n ensures Keys(front)[j] != config[n].0 {
          assert Keys(front)[j] == config[j].0;
        }
      }
      CreateWorkersOnlyConfigured(front, workerClasses, config[n].0);
    }
  }

  /** The workers after one more entry, looked up by name. */
  lemma NextWorkersGet(ws: Dict<string, CreatedWorker>, entry: (string, string), workerClasses: set<ImportTarget>, k: string)
    requires NextWorkers(ws, entry, workerClasses).Ok?
    ensures Get(NextWorkers(ws, entry, workerClasses).value, k) ==
      if k == entry.0 && Kept(entry) then Some(CreatedFrom(entry)) else Get(ws, k)
  {
    NextWorkersMeans(ws, entry, workerClasses);
    if Kept(entry) {
      PutGet(ws, entry.0, CreatedFrom(entry), k);
    }
  }

  /** What a worker declares about its settings section. */
  datatype Declaration = Declaration(settingsSchema: Json, required: bool)

  /**
   * `extract_workers_settings_declarations`: the same names in the same order,
   * each with the schema and the required flag its worker answers.
   */
  method ExtractWorkersSettingsDeclarations(workers: Dict<string, CreatedWorker>,
                                            settingsSchema: CreatedWorker -> Json, settingsRequired: CreatedWorker -> bool)
    returns (ds: Dict<string, Declaration>)
    requires DistinctKeys(workers)
    ensures |ds| == |workers| && DistinctKeys(ds)
    ensures forall i :: 0 <= i < |workers| ==>
      ds[i] == (workers[i].0, Declaration(settingsSchema(workers[i].1), settingsRequired(workers[i].1)))
  {
    ds := [];
    var i := 0;
    while i < |workers|
      invariant 0 <= i <= |workers| && |ds| == i
      invariant forall j :: 0 <= j < i ==>
        ds[j] == (workers[j].0, Declaration(settingsSchema(workers[j].1), settingsRequired(workers[j].1)))
    {
      var (name, worker) := workers[i];
      assert name !in Keys(ds) by {
        forall j | 0 <= j < i ensures Keys(ds)[j] != name {
          assert Keys(ds)[j] == workers[j].0;
        }
      }
      PutNew(ds, name, Declaration(settingsSchema(worker), settingsRequired(worker)));
      ds := Put(ds, name, Declaration(settingsSchema(worker), settingsRequired(worker)));
      i := i + 1;
    }
    assert DistinctKeys(ds) by {
      forall a, b | 0 <= a < b < |ds| ensures ds[a].0 != ds[b].0 {
        assert ds[a].0 == workers[a].0 && ds[b].0 == workers[b].0;
      }
    }
  }
}
