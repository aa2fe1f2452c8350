/**
 * The pure helpers of `ServiceLogging`: reading a configured log level, and
 * building the logger names workers log under (lower-cased instance names,
 * because the logging configuration matches them lower-cased).
 */
module ServiceLogging {
  import opened Wrappers
  import opened PyStrings

  /** The levels of Python's `logging` module. */
  const Debug: int := 10
  const Info: int := 20
  const Warning: int := 30
  const Error: int := 40

  /** The level names `parse_log_level` knows, each with its level. */
  const LevelNames: seq<(string, int)> := [("debug", Debug), ("info", Info), ("warning", Warning), ("error", Error)]

  /** A configured log level: missing (`None`), an integer, or a text. */
  datatype LevelValue = LevelNone | LevelInt(level: int) | LevelText(text: string)

  /** Python truthiness of a configured level. */
  predicate LevelTruthy(v: LevelValue) {
    match v
    case LevelNone => false
    case LevelInt(level) => level != 0
    case LevelText(text) => text != []
  }

  /** The level a lower-cased, stripped name selects: one of the four names, INFO for any other text. */
  function NamedLevel(name: string): int {
    if name == "debug" then Debug
    else if name == "info" then Info
    else if name == "warning" then Warning
    else if name == "error" then Error
    else Info
  }

  /**
   * `parse_log_level`: a falsy value becomes "info"; an integer is a level
   * already; a text is lower-cased and stripped and read as a level name.
   */
  function ParseLogLevel(v: LevelValue): (level: int)
    ensures !LevelTruthy(v) ==> level == Info
    ensures v.LevelInt? && v.level != 0 ==> level == v.level
    ensures v.LevelText? ==> level in {Debug, Info, Warning, Error}
    ensures v.LevelText? && v.text != [] ==>
      (level == Info <==> Strip(Lower(v.text)) !in ["debug", "warning", "error"])
  {
    var w := if LevelTruthy(v) then v else LevelText("info");
    match w
    case LevelInt(level) => level
    case LevelText(text) => NamedLevel(Strip(Lower(text)))
    case LevelNone => Info
  }

  /** Every known level name reads back as its level. */
  lemma LevelNamesParse()
    ensures forall i :: 0 <= i < |LevelNames| ==> ParseLogLevel(LevelText(LevelNames[i].0)) == LevelNames[i].1
  {
    forall i | 0 <= i < |LevelNames| ensures ParseLogLevel(LevelText(LevelNames[i].0)) == LevelNames[i].1 {
      var (name, level) := LevelNames[i];
      assert Lower(name) == name;
      StripKeeps(name);
    }
  }

  lemma {:induction false} LowerConcat(a: string, b: string)
    ensures Lower(a + b) == Lower(a) + Lower(b)
  {
  }

  /** A known level name is read in any letter case and with white space around it. */
  lemma ParsePaddedLevelName(left: string, name: string, right: string, i: nat)
    requires i < |LevelNames| && Lower(name) == LevelNames[i].0
    requires forall k :: 0 <= k < |left| ==> IsSpace(left[k])
    requires forall k :: 0 <= k < |right| ==> IsSpace(right[k])
    ensures ParseLogLevel(LevelText(left + name + right)) == LevelNames[i].1
  {
    var lowered := Lower(name);
    assert lowered[0] == LevelNames[i].0[0] && lowered[|lowered| - 1] == LevelNames[i].0[|lowered| - 1];
    LowerConcat(left + name, right);
    LowerConcat(left, name);
    assert Lower(left) == left;
    assert Lower(right) == right;
    StripPadded(left, lowered, right);
  }

  /** The padded example: " WARNING " is the warning level. */
  lemma ParseWarningPadded()
    ensures ParseLogLevel(LevelText(" WARNING ")) == Warning
  {
    assert Lower("WARNING") == "warning";
    assert " WARNING " == " " + "WARNING" + " ";
    ParsePaddedLevelName(" ", "WARNING", " ", 2);
  }

  /** The name a worker logs under: the class name, with the lower-cased instance name in brackets when it adds something. */
  function GetLogName(className: string, instanceName: string): (r: string)
    ensures instanceName == [] || Lower(instanceName) == Lower(className) ==> r == className
  {
    var name := if instanceName != [] then Lower(instanceName) else instanceName;
    if name != [] && name != Lower(className) && name != Lower(className) then className + "(" + name + ")"
    else className
  }

  /** `get_full_log_name`: like `get_log_name` with the module path in front, the name also compared with the full class path. */
  function GetFullLogName(classPath: string, className: string, instanceName: string): (r: string)
    ensures instanceName == [] ==> r == classPath + "." + className
  {
    var classFull := classPath + "." + className;
    var name := if instanceName != [] then Lower(instanceName) else instanceName;
    if name != [] && name != Lower(className) && name != Lower(classFull) then classPath + "." + className + "(" + name + ")"
    else classFull
  }

  /** Reads the instance name back out of a log name: what is in the brackets after the class name. */
  function InstanceOf(className: string, logName: string): Option<string> {
    if |logName| > |className| + 1 && logName[..|className| + 1] == className + "(" && logName[|logName| - 1] == ')' then
      Some(logName[|className| + 1..|logName| - 1])
    else None
  }

  /** The log name keeps the instance name, lower-cased, exactly when it differs from the class name. */
  lemma LogNameRecoversInstance(className: string, instanceName: string)
    ensures InstanceOf(className, GetLogName(className, instanceName)) ==
      if instanceName != [] && Lower(instanceName) != Lower(className) then Some(Lower(instanceName)) else None
  {
    var r := GetLogName(className, instanceName);
    if instanceName != [] && Lower(instanceName) != Lower(className) {
      var name := Lower(instanceName);
      assert r == className + "(" + name + ")";
      assert r[..|className| + 1] == className + "(";
      assert r[|className| + 1..|r| - 1] == name;
    } else {
      assert r == className;
    }
  }

  /** Log names ignore the letter case of the instance name. */
  lemma LogNameIgnoresCase(classPath: string, className: string, instanceName: string)
    ensures GetLogName(className, Lower(instanceName)) == GetLogName(className, instanceName)
    ensures GetFullLogName(classPath, className, Lower(instanceName)) == GetFullLogName(classPath, className, instanceName)
  {
    LowerIdempotent(instanceName);
  }

  /**
   * The full log name is the module path in front of the short one, except
   * for an instance named like the full class path, which logs under the full
   * class path alone.
   */
  lemma FullLogNameExtends(classPath: string, className: string, instanceName: string)
    ensures GetFullLogName(classPath, className, instanceName) == classPath + "." + GetLogName(className, instanceName)
      <==> instanceName == [] || Lower(instanceName) != Lower(classPath + "." + className)
  {
    var full := classPath + "." + className;
    if instanceName != [] && Lower(instanceName) == Lower(full) {
      assert |Lower(instanceName)| == |full| > |className|;
      assert Lower(instanceName) != Lower(className);
      assert |classPath + "." + GetLogName(className, instanceName)| > |full|;
    }
  }
}
