/**
 * The front end's configuration (frontend/config.py): the `config.env`
 * importer that writes `KEY=value` lines into the process environment,
 * and the configuration classes read from that environment afterwards.
 *
 * The file's lines are a parameter (absent when the file does not exist);
 * the search for the project root is left out, so the directory the
 * database files live in is the parameter `root`, and `os.path.join` is
 * written as `root + "/" + name`.
 */
module FrontendConfig {
  import opened Wrappers
  import Text

  type Environ = map<string, string>

  /** The key and value a line sets: exactly one '=' after stripping, with every '"' removed from the value. */
  function Assignment(line: string): Option<(string, string)> {
    var parts := Text.Split(Text.Strip(line), '=');
    if |parts| == 2 then Some((parts[0], Text.RemoveAll(parts[1], '"'))) else None
  }

  /**
   * Whether `os.environ[key] = value` goes through: CPython's `putenv`
   * raises for an empty key (the C `setenv` refuses it) and for a key or
   * value holding NUL. A key from `Assignment` never holds '='.
   */
  predicate Settable(key: string, value: string) {
    key != "" && '\0' !in key && '\0' !in value
  }

  /** An assignment `os.environ` refuses, which ends the import with an exception. */
  predicate Refused(a: Option<(string, string)>) {
    a.Some? && !Settable(a.value.0, a.value.1)
  }

  /** A line whose assignment is refused. */
  predicate Raises(line: string) {
    Refused(Assignment(line))
  }

  /** The environment an import leaves behind, and whether it ended by raising. */
  datatype Imports = Imports(vars: Environ, raised: bool)

  /** One line's assignment carried out, or the exception it raises. */
  function Put(env: Environ, a: Option<(string, string)>): Imports {
    match a
    case None => Imports(env, false)
    case Some((key, value)) => if Settable(key, value) then Imports(env[key := value], false) else Imports(env, true)
  }

  function ApplyLine(env: Environ, line: string): Imports {
    Put(env, Assignment(line))
  }

  /** The lines' assignments, in file order. */
  function Assignments(lines: seq<string>): seq<Option<(string, string)>> {
    seq(|lines|, i requires 0 <= i < |lines| => Assignment(lines[i]))
  }

  /** The assignments carried out in order; a refused one stops the import there. */
  function PutAll(env: Environ, assignments: seq<Option<(string, string)>>): Imports
    decreases |assignments|
  {
    if |assignments| == 0 then Imports(env, false)
    else
      var front := PutAll(env, assignments[..|assignments| - 1]);
      if front.raised then front else Put(front.vars, assignments[|assignments| - 1])
  }

  /** The environment after importing `lines` in order. */
  function Imported(env: Environ, lines: seq<string>): Imports {
    PutAll(env, Assignments(lines))
  }

  /** The process environment, as far as the importer touches it. */
  class Environment {
    var vars: Environ

    constructor (initial: Environ)
      ensures vars == initial
    {
      vars := initial;
    }

    /**
     * The import at module load; `file` is absent when `config.env` does
     * not exist. `raised` is the exception that makes loading the module fail.
     */
    method ImportFile(file: Option<seq<string>>) returns (raised: bool)
      modifies this
      ensures Imports(vars, raised) == if file.Some? then Imported(old(vars), file.value) else Imports(old(vars), false)
    {
      raised := false;
      if file.Some? {
        raised := ImportLines(file.value);
      }
    }

    method ImportLines(lines: seq<string>) returns (raised: bool)
      modifies this
      ensures Imports(vars, raised) == Imported(old(vars), lines)
    {
      var i := 0;
      assert Assignments(lines[..0]) == [];
      while i < |lines|
        invariant 0 <= i <= |lines|
        invariant Imported(old(vars), lines[..i]) == Imports(vars, false)
      {
        ImportedStep(old(vars), lines, i);
        var parts := Text.Split(Text.Strip(lines[i]), '=');
        if |parts| == 2 {
          var value := Text.RemoveAll(parts[1], '"');
          if parts[0] == "" || '\0' in parts[0] || '\0' in value {
            RaisedStays(old(vars), lines, i + 1);
            return true;
          }
          vars := vars[parts[0] := value];
        }
        i := i + 1;
      }
      assert lines[..i] == lines;
      return false;
    }
  }

  /** Importing one more line: nothing more after an exception, otherwise that line applied. */
  lemma ImportedStep(env: Environ, lines: seq<string>, i: int)
    requires 0 <= i < |lines|
    ensures var front := Imported(env, lines[..i]);
            Imported(env, lines[..i + 1]) == if front.raised then front else ApplyLine(front.vars, lines[i])
  {
    assert Assignments(lines[..i + 1])[..i] == Assignments(lines[..i]);
  }

  /** Once a prefix of the lines has raised, the later lines are never read. */
  lemma RaisedStays(env: Environ, lines: seq<string>, i: int)
    requires 0 <= i <= |lines| && Imported(env, lines[..i]).raised
    ensures Imported(env, lines) == Imported(env, lines[..i])
  {
    assert Assignments(lines)[..i] == Assignments(lines[..i]);
    PutAllRaisedStays(env, Assignments(lines), i);
  }

  lemma {:induction false} PutAllRaisedStays(env: Environ, assignments: seq<Option<(string, string)>>, i: int)
    requires 0 <= i <= |assignments| && PutAll(env, assignments[..i]).raised
    ensures PutAll(env, assignments) == PutAll(env, assignments[..i])
    decreases |assignments|
  {
    if i == |assignments| {
      assert assignments[..i] == assignments;
    } else {
      var front := assignments[..|assignments| - 1];
      assert front[..i] == assignments[..i];
      PutAllRaisedStays(env, front, i);
    }
  }

  // ---------------------------------------------------------------------------
  // The configuration classes
  // ---------------------------------------------------------------------------

  const SecretKeyNotSet := "SECRET_KEY_ENV_VAR_NOT_SET"

  /** `os.environ.get(key, default)`. */
  function GetOr(env: Environ, key: string, default: string): string {
    if key in env then env[key] else default
  }

  function Lookup(env: Environ, key: string): Option<string> {
    if key in env then Some(env[key]) else None
  }

  /** `SECRET_KEY`: the variable when it is set and non-empty, the marker otherwise. */
  function SecretKey(env: Environ): string {
    if "SECRET_KEY" in env && env["SECRET_KEY"] != "" then env["SECRET_KEY"] else SecretKeyNotSet
  }

  /** The four configuration subclasses. */
  datatype Profile = Development | Testing | UnitTesting | Production

  /** The attributes of a configuration class; an attribute the class does not define is absent. */
  datatype Config = Config(appName: string, secretKey: string, flaskConfig: string, databaseUri: Option<string>,
                           loggingLevel: string, adminEmail: string, adminPassword: Option<string>,
                           fakeEmail: Option<string>, fakePassword: Option<string>, envName: Option<string>,
                           debug: Option<bool>, testing: Option<bool>, csrfEnabled: Option<bool>)

  /** `FrontEndConfig`. */
  function Base(env: Environ): Config {
    Config(GetOr(env, "APP_NAME", "Flask API Boilerplate"), SecretKey(env), GetOr(env, "FLASK_CONFIG", "default"),
           Lookup(env, "DATABASE_URL"), GetOr(env, "LOGGING_LEVEL", "INFO"), GetOr(env, "ADMIN_EMAIL", "noemail@domain.com"),
           Lookup(env, "ADMIN_PASSWORD"), Lookup(env, "FAKE_EMAIL"), Lookup(env, "FAKE_PASSWORD"), None, None, None, None)
  }

  function SqliteUri(root: string, file: string): string {
    "sqlite:///" + root + "/" + file
  }

  /** The subclass for `e`, read from `env`. */
  function ConfigFor(e: Profile, env: Environ, root: string): Config {
    var base := Base(env);
    match e
    case Development =>
      base.(envName := Some("development"), debug := Some(true), loggingLevel := GetOr(env, "LOGGING_LEVEL", "DEBUG"),
            databaseUri := Some(GetOr(env, "DEV_DATABASE_URL", SqliteUri(root, "data-dev.sqlite"))))
    case Testing =>
      base.(envName := Some("testing"), testing := Some(true),
            databaseUri := Some(GetOr(env, "TEST_DATABASE_URL", SqliteUri(root, "data-test.sqlite"))))
    case UnitTesting =>
      base.(envName := Some("unittesting"), testing := Some(true), csrfEnabled := Some(false),
            databaseUri := Some(GetOr(env, "UNITTEST_DATABASE_URL", SqliteUri(root, "data-unittest.sqlite"))))
    case Production =>
      base.(envName := Some("production"), debug := Some(false),
            databaseUri := Some(GetOr(env, "DATABASE_URL", SqliteUri(root, "data.sqlite"))))
  }

  /** The `config` map from a configuration name to its class. */
  function Named(name: string): Option<Profile> {
    if name == "development" || name == "default" then Some(Development)
    else if name == "testing" then Some(Testing)
    else if name == "production" then Some(Production)
    else if name == "unittesting" then Some(UnitTesting)
    else None
  }

  /** `ProductionConfig.init_app` asserts that `SECRET_KEY` is set and non-empty; the others accept any environment. */
  predicate InitAppSucceeds(e: Profile, env: Environ) {
    e == Production ==> "SECRET_KEY" in env && env["SECRET_KEY"] != ""
  }

  // ---------------------------------------------------------------------------
  // Properties
  // ---------------------------------------------------------------------------

  /**
   * A line sets a variable exactly when its stripped text holds one '=':
   * the key is the text before it and the value the text after it with its
   * quotes removed, so a value holding a further '=' is ignored.
   */
  lemma AssignmentShape(line: string)
    ensures Assignment(line).Some? <==> Text.Count(Text.Strip(line), '=') == 1
    ensures Assignment(line).Some? ==>
      var (key, value) := Assignment(line).value;
      '=' !in key && '"' !in value && Text.RemoveAll(Text.Strip(line), '"') == Text.RemoveAll(key, '"') + "=" + value
  {
    var stripped := Text.Strip(line);
    if |Text.Split(stripped, '=')| == 2 {
      TwoPieces(stripped);
    }
  }

  /** A text that splits at '=' into two pieces is the first, '=', and the second, quotes removed piecewise. */
  lemma TwoPieces(s: string)
    requires |Text.Split(s, '=')| == 2
    ensures var parts := Text.Split(s, '=');
            Text.RemoveAll(s, '"') == Text.RemoveAll(parts[0], '"') + "=" + Text.RemoveAll(parts[1], '"')
  {
    var parts := Text.Split(s, '=');
    Text.JoinSplit(s, '=');
    assert Text.Join(parts[1..], '=') == parts[1];
    assert s == parts[0] + ("=" + parts[1]);
    RemoveAllConcat(parts[0], "=" + parts[1], '"');
    RemoveAllConcat("=", parts[1], '"');
    assert Text.RemoveAll("=", '"') == "=" by {
      assert "="[1..] == "";
    }
  }

  /** Removing a character from a concatenation removes it from each part. */
  lemma {:induction false} RemoveAllConcat(a: string, b: string, c: char)
    ensures Text.RemoveAll(a + b, c) == Text.RemoveAll(a, c) + Text.RemoveAll(b, c)
    decreases |a|
  {
    if |a| > 0 {
      assert (a + b)[1..] == a[1..] + b;
      RemoveAllConcat(a[1..], b, c);
    } else {
      assert a + b == b;
    }
  }

  /** Lines other than assignments leave the environment as it was. */
  lemma NonAssignmentsIgnored(env: Environ, line: string)
    ensures Text.Count(Text.Strip(line), '=') != 1 ==> ApplyLine(env, line) == Imports(env, false)
  {
    AssignmentShape(line);
  }

  /** Spaces around '=' are kept: "A = b" sets "A " to " b". */
  lemma SpacesAroundEqualsKept(env: Environ)
    ensures ApplyLine(env, "A = b") == Imports(env["A " := " b"], false)
  {
    SpacedLineStrips();
    SpacedLineSplits();
    assert Text.RemoveAll(" b", '"') == " b";
  }

  lemma SpacedLineStrips()
    ensures Text.Strip("A = b") == "A = b"
  {
    assert Text.TrimStart("A = b") == "A = b";
    assert Text.TrimEnd("A = b") == "A = b";
  }

  lemma SpacedLineSplits()
    ensures Text.Split("A = b", '=') == ["A ", " b"]
  {
    Text.NoSeparatorSplit(" b", '=');
    Text.SplitAfterPiece("A ", '=', " b");
    assert "A " + ['='] + " b" == "A = b";
  }

  /** A line "=v" names the empty variable, so `os.environ['']` raises and nothing is set. */
  lemma EmptyKeyRaises(env: Environ)
    ensures Raises("=v")
    ensures Imported(env, ["=v"]) == Imports(env, true)
  {
    assert Text.TrimStart("=v") == "=v";
    assert Text.TrimEnd("=v") == "=v";
    Text.NoSeparatorSplit("v", '=');
    Text.SplitAfterPiece("", '=', "v");
    assert "" + ['='] + "v" == "=v";
    assert Assignments(["=v"])[..0] == [];
  }

  /**
   * The import raises exactly when some line's assignment is refused, and
   * then it stops at such a line: the first one, with every line before it
   * applied.
   */
  lemma ImportRaisesExactly(env: Environ, lines: seq<string>)
    ensures !Imported(env, lines).raised <==> forall i :: 0 <= i < |lines| ==> !Raises(lines[i])
    ensures Imported(env, lines).raised ==>
      exists i :: 0 <= i < |lines| && Raises(lines[i]) && !Imported(env, lines[..i]).raised &&
                  Imported(env, lines) == Imports(Imported(env, lines[..i]).vars, true)
  {
    PutAllRaisesExactly(env, Assignments(lines));
    RaisesIsRefused(lines);
    if Imported(env, lines).raised {
      ImportStopsAtRaisingLine(env, lines);
    }
  }

  lemma RaisesIsRefused(lines: seq<string>)
    ensures forall i :: 0 <= i < |lines| ==> (Raises(lines[i]) <==> Refused(Assignments(lines)[i]))
  {
  }

  lemma ImportStopsAtRaisingLine(env: Environ, lines: seq<string>)
    requires Imported(env, lines).raised
    ensures exists i :: 0 <= i < |lines| && Raises(lines[i]) && !Imported(env, lines[..i]).raised &&
                        Imported(env, lines) == Imports(Imported(env, lines[..i]).vars, true)
  {
    var assignments := Assignments(lines);
    PutAllRaisesExactly(env, assignments);
    var i :| 0 <= i < |assignments| && Refused(assignments[i]) && !PutAll(env, assignments[..i]).raised &&
             PutAll(env, assignments) == Imports(PutAll(env, assignments[..i]).vars, true);
    assert assignments[..i] == Assignments(lines[..i]);
    RaisesIsRefused(lines);
  }

  lemma {:induction false} PutAllRaisesExactly(env: Environ, assignments: seq<Option<(string, string)>>)
    ensures !PutAll(env, assignments).raised <==> forall i :: 0 <= i < |assignments| ==> !Refused(assignments[i])
    ensures PutAll(env, assignments).raised ==>
      exists i :: 0 <= i < |assignments| && Refused(assignments[i]) && !PutAll(env, assignments[..i]).raised &&
                  PutAll(env, assignments) == Imports(PutAll(env, assignments[..i]).vars, true)
    decreases |assignments|
  {
    if |assignments| > 0 {
      var n := |assignments| - 1;
      var front := assignments[..n];
      assert forall i :: 0 <= i < n ==> front[i] == assignments[i];
      PutAllRaisesExactly(env, front);
      if PutAll(env, front).raised {
        var i :| 0 <= i < n && Refused(front[i]) && !PutAll(env, front[..i]).raised &&
                 PutAll(env, front) == Imports(PutAll(env, front[..i]).vars, true);
        assert front[..i] == assignments[..i];
      }
    }
  }

  /** A key no line assigns keeps its value, or its absence, from before the import. */
  lemma UnassignedKeyKept(env: Environ, lines: seq<string>, key: string)
    requires forall i :: 0 <= i < |lines| ==> Assignment(lines[i]).None? || Assignment(lines[i]).value.0 != key
    ensures key in Imported(env, lines).vars <==> key in env
    ensures key in env ==> Imported(env, lines).vars[key] == env[key]
  {
    PutAllUnassigned(env, Assignments(lines), key);
  }

  lemma {:induction false} PutAllUnassigned(env: Environ, assignments: seq<Option<(string, string)>>, key: string)
    requires forall i :: 0 <= i < |assignments| ==> assignments[i].None? || assignments[i].value.0 != key
    ensures key in PutAll(env, assignments).vars <==> key in env
    ensures key in env ==> PutAll(env, assignments).vars[key] == env[key]
    decreases |assignments|
  {
    if |assignments| > 0 {
      var front := assignments[..|assignments| - 1];
      assert forall i :: 0 <= i < |front| ==> front[i] == assignments[i];
      PutAllUnassigned(env, front, key);
    }
  }

  /** When the import does not raise, the value of a key is the one set by the last line that assigns it. */
  lemma LastAssignmentWins(env: Environ, lines: seq<string>, key: string, i: int)
    requires 0 <= i < |lines| && Assignment(lines[i]).Some? && Assignment(lines[i]).value.0 == key
    requires forall j :: i < j < |lines| ==> Assignment(lines[j]).None? || Assignment(lines[j]).value.0 != key
    ensures !Imported(env, lines).raised ==>
      key in Imported(env, lines).vars && Imported(env, lines).vars[key] == Assignment(lines[i]).value.1
  {
    PutAllLastWins(env, Assignments(lines), key, i);
  }

  lemma {:induction false} PutAllLastWins(env: Environ, assignments: seq<Option<(string, string)>>, key: string, i: int)
    requires 0 <= i < |assignments| && assignments[i].Some? && assignments[i].value.0 == key
    requires forall j :: i < j < |assignments| ==> assignments[j].None? || assignments[j].value.0 != key
    ensures !PutAll(env, assignments).raised ==>
      key in PutAll(env, assignments).vars && PutAll(env, assignments).vars[key] == assignments[i].value.1
    decreases |assignments|
  {
    var front := assignments[..|assignments| - 1];
    assert forall j :: 0 <= j < |front| ==> front[j] == assignments[j];
    if i < |assignments| - 1 {
      PutAllLastWins(env, front, key, i);
    }
  }

  /**
   * `SECRET_KEY` falls back to the marker exactly when the variable is unset
   * or empty (or holds the marker itself); a `config.env` assignment to it
   * that no later line overrides is what the configuration reads, once the
   * import has gone through.
   */
  lemma SecretKeyFallback(env: Environ, lines: seq<string>, i: int)
    ensures ("SECRET_KEY" !in env || env["SECRET_KEY"] == "") ==> SecretKey(env) == SecretKeyNotSet
    ensures "SECRET_KEY" in env && env["SECRET_KEY"] != "" ==> SecretKey(env) == env["SECRET_KEY"]
    ensures (0 <= i < |lines| && Assignment(lines[i]) == Some(("SECRET_KEY", "abc")) && !Imported(env, lines).raised &&
             (forall j :: i < j < |lines| ==> Assignment(lines[j]).None? || Assignment(lines[j]).value.0 != "SECRET_KEY")) ==>
        SecretKey(Imported(env, lines).vars) == "abc" && Base(Imported(env, lines).vars).secretKey == "abc"
  {
    if 0 <= i < |lines| && Assignment(lines[i]) == Some(("SECRET_KEY", "abc")) &&
       (forall j :: i < j < |lines| ==> Assignment(lines[j]).None? || Assignment(lines[j]).value.0 != "SECRET_KEY") {
      LastAssignmentWins(env, lines, "SECRET_KEY", i);
    }
  }

  /**
   * `config['default']` is the development class: debugging on, `DEBUG`
   * logging unless overridden, its own database file. Every other name but
   * the four classes' is absent.
   */
  lemma DefaultIsDevelopment(env: Environ, root: string, name: string)
    ensures Named("default") == Named("development") == Some(Development)
    ensures var c := ConfigFor(Development, env, root);
            c.envName == Some("development") && c.debug == Some(true) &&
            ("LOGGING_LEVEL" !in env ==> c.loggingLevel == "DEBUG") &&
            ("DEV_DATABASE_URL" !in env ==> c.databaseUri == Some("sqlite:///" + root + "/" + "data-dev.sqlite"))
    ensures Named(name).Some? <==> name in {"development", "testing", "production", "unittesting", "default"}
  {
  }

  /**
   * Defaults that hold in every class: the administrator's e-mail address
   * is 'noemail@domain.com' and the application's name 'Flask API Boilerplate'
   * when unset; only the production class refuses to start without a secret key.
   */
  lemma Defaults(e: Profile, env: Environ, root: string)
    ensures "ADMIN_EMAIL" !in env ==> ConfigFor(e, env, root).adminEmail == "noemail@domain.com"
    ensures "APP_NAME" !in env ==> ConfigFor(e, env, root).appName == "Flask API Boilerplate"
    ensures ConfigFor(e, env, root).secretKey == SecretKey(env)
    ensures !InitAppSucceeds(e, env) <==>
      (e == Production && SecretKey(env) == SecretKeyNotSet && ("SECRET_KEY" !in env || env["SECRET_KEY"] != SecretKeyNotSet))
  {
  }
}
