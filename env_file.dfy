/**
 * The environment loader (SourceFile in pkg/lib/lib.go): it reads a node's
 * file of shell-style `export KEY="VALUE"` lines and copies each assignment
 * into the process environment by fixed offsets, then makes sure the engine
 * API version variable is set.
 *
 * The process environment is a map from names to values; the file is the
 * sequence of lines the scanner yields.
 */
module EnvFile {
  import opened Results
  import opened GoStrings

  type Environ = map<string, string>

  const ApiVersionKey: string := "DOCKER_API_VERSION"
  const DefaultApiVersion: string := "1.37"

  /** The length of "export ", which the loader cuts from every key. */
  const KeyPrefixLength: nat := 7

  /** os.Getenv: an unset variable reads as the empty string. */
  function EnvGet(env: Environ, key: string): string
  {
    if key in env then env[key] else ""
  }

  /**
   * The pairs os.Setenv accepts on Unix: a non-empty key with no '=' and no
   * NUL, and a value with no NUL.
   */
  predicate SetenvAccepts(key: string, value: string)
  {
    key != "" && '=' !in key && '\0' !in key && '\0' !in value
  }

  /**
   * os.Setenv: a refused pair leaves the environment as it was (the loader
   * ignores the error); otherwise the key maps to the value and no other
   * variable changes.
   */
  function EnvSet(env: Environ, key: string, value: string): Environ
  {
    if SetenvAccepts(key, value) then env[key := value] else env
  }

  /**
   * The check at the end of every scanned line: an empty or unset API version
   * becomes the default; every other variable is left alone.
   */
  function WithDefaultApiVersion(env: Environ): (r: Environ)
    ensures EnvGet(r, ApiVersionKey) != ""
    ensures EnvGet(env, ApiVersionKey) != "" ==> r == env
    ensures EnvGet(env, ApiVersionKey) == "" ==> r == env[ApiVersionKey := DefaultApiVersion]
  {
    if EnvGet(env, ApiVersionKey) == "" then EnvSet(env, ApiVersionKey, DefaultApiVersion) else env
  }

  /** How the loader reads one line. */
  datatype LineParse =
    | NoAssignment                          // no '=' in the line
    | Assign(key: string, value: string)    // the sliced key and value
    | SliceOutOfRange                       // a slice bound past the text: a panic

  /**
   * One line, split at its first '=': the key is the left part without its
   * first seven characters, the value the right part without its first and
   * last characters. A left part shorter than seven or a right part shorter
   * than two is an out-of-range slice.
   */
  function ParseLine(line: string): (r: LineParse)
    ensures r.NoAssignment? <==> '=' !in line
  {
    var kv := SplitN2(line, '=');
    if |kv| != 2 then NoAssignment
    else if |kv[0]| < KeyPrefixLength || |kv[1]| < 2 then SliceOutOfRange
    else Assign(kv[0][KeyPrefixLength..], kv[1][1..|kv[1]| - 1])
  }

  /**
   * Where the parts of a parsed line sit: seven characters, the key, the
   * first '=', one character, the value, one character.
   */
  lemma ParseLineShape(line: string)
    ensures var r := ParseLine(line);
      r.Assign? ==>
      && |line| == KeyPrefixLength + |r.key| + |r.value| + 3
      && '=' !in line[..KeyPrefixLength + |r.key|]
      && line[KeyPrefixLength..KeyPrefixLength + |r.key|] == r.key
      && line[KeyPrefixLength + |r.key|] == '='
      && line[KeyPrefixLength + |r.key| + 2..|line| - 1] == r.value
  {
    var kv := SplitN2(line, '=');
    if |kv| == 2 && |kv[0]| >= KeyPrefixLength && |kv[1]| >= 2 {
      var key := kv[0][KeyPrefixLength..];
      var value := kv[1][1..|kv[1]| - 1];
      assert line[..KeyPrefixLength + |key|] == kv[0];
      assert line[KeyPrefixLength..KeyPrefixLength + |key|] == key;
      assert line[KeyPrefixLength + |key| + 2..|line| - 1] == value;
    }
  }

  /**
   * A line panics exactly when its first '=' comes before position seven or
   * fewer than two characters follow it.
   */
  lemma ParseLinePanics(line: string)
    ensures ParseLine(line).SliceOutOfRange? <==>
      '=' in line && (IndexByte(line, '=').value < KeyPrefixLength || |line| - IndexByte(line, '=').value < 3)
  {
    var kv := SplitN2(line, '=');
    if '=' in line {
      assert IndexByte(line, '=').value == |kv[0]| by {
        var i := IndexByte(line, '=').value;
        assert line[..|kv[0]|] == kv[0];
        assert line[|kv[0]|] == '=';
      }
    }
  }

  /**
   * A line of the intended shape gives back its key and value, whatever the
   * seven leading characters and the two quote characters are, and an '='
   * inside the value is kept.
   */
  lemma ParseExportLine(prefix: string, key: string, open: char, value: string, close: char)
    requires |prefix| == KeyPrefixLength && '=' !in prefix && '=' !in key
    ensures ParseLine(prefix + key + "=" + [open] + value + [close]) == Assign(key, value)
  {
    var line := prefix + key + "=" + [open] + value + [close];
    var eq := |prefix| + |key|;
    assert line[eq] == '=';
    assert line[..eq] == prefix + key;
    var kv := SplitN2(line, '=');
    assert |kv[0]| == eq;
    assert kv[0] == prefix + key;
    assert kv[1] == [open] + value + [close];
  }

  /**
   * What a line makes os.Setenv store, if anything: its parsed key and
   * value, when Setenv accepts the pair.
   */
  function Assignment(line: string): Option<(string, string)>
  {
    match ParseLine(line)
    case Assign(k, v) => if SetenvAccepts(k, v) then Some((k, v)) else None
    case _ => None
  }

  /** `export K="V"` assigns V to K when K is a valid name and V holds no NUL. */
  lemma ExportLineAssigns(key: string, value: string)
    requires SetenvAccepts(key, value)
    ensures Assignment("export " + key + "=\"" + value + "\"") == Some((key, value))
  {
    assert "export " + key + "=\"" + value + "\"" == "export " + key + "=" + ['"'] + value + ['"'];
    ParseExportLine("export ", key, '"', value, '"');
  }

  /** Reading the line panics. */
  predicate Panics(line: string)
  {
    ParseLine(line).SliceOutOfRange?
  }

  /** No line of the file panics. */
  predicate NonePanic(lines: seq<string>)
  {
    forall i :: 0 <= i < |lines| ==> !Panics(lines[i])
  }

  lemma NonePanicSnoc(lines: seq<string>)
    requires lines != []
    ensures NonePanic(lines) <==> NonePanic(lines[..|lines| - 1]) && !Panics(lines[|lines| - 1])
  {
    var init := lines[..|lines| - 1];
    assert forall j :: 0 <= j < |init| ==> init[j] == lines[j];
  }

  /** One pass of the scanning loop over one line: Err is the slice panic. */
  function ScanLine(env: Environ, line: string): (r: Result<Environ>)
    ensures r.Err? <==> Panics(line)
    ensures r.Ok? ==> EnvGet(r.value, ApiVersionKey) != ""
  {
    match ParseLine(line)
    case SliceOutOfRange => Err("slice bounds out of range")
    case NoAssignment => Ok(WithDefaultApiVersion(env))
    case Assign(k, v) => Ok(WithDefaultApiVersion(EnvSet(env, k, v)))
  }

  /**
   * A line that does not panic stores its assignment, if it has one, and
   * then defaults the API version; a line without '=' only does the latter.
   */
  lemma ScanLineEffect(env: Environ, line: string)
    ensures '=' !in line ==> ScanLine(env, line) == Ok(WithDefaultApiVersion(env))
    ensures Assignment(line).None? && !Panics(line) ==> ScanLine(env, line) == Ok(WithDefaultApiVersion(env))
    ensures Assignment(line).Some? ==>
      ScanLine(env, line) == Ok(WithDefaultApiVersion(env[Assignment(line).value.0 := Assignment(line).value.1]))
  {
  }

  /** How sourcing a file ended: every line read, or a panic at a line. */
  datatype SourceOutcome =
    | Completed(env: Environ)
    | Aborted(line: nat, env: Environ)   // env as it stood when line `line` panicked

  /** The loader's effect, line by line in file order. */
  function Source(env: Environ, lines: seq<string>): (r: SourceOutcome)
    ensures r.Aborted? ==> r.line < |lines|
    decreases |lines|
  {
    if lines == [] then Completed(env)
    else
      match Source(env, lines[..|lines| - 1])
      case Aborted(i, e) => Aborted(i, e)
      case Completed(e) =>
        match ScanLine(e, lines[|lines| - 1])
        case Err(_) => Aborted(|lines| - 1, e)
        case Ok(e') => Completed(e')
  }

  /** The assignments of a file, later lines overriding earlier ones. */
  function Assigned(lines: seq<string>): Environ
    decreases |lines|
  {
    if lines == [] then map[]
    else
      var before := Assigned(lines[..|lines| - 1]);
      match Assignment(lines[|lines| - 1])
      case Some(kv) => before[kv.0 := kv.1]
      case None => before
  }

  /** The line makes os.Setenv store something under `key`. */
  predicate AssignsKey(line: string, key: string)
  {
    Assignment(line).Some? && Assignment(line).value.0 == key
  }

  /** A key is assigned exactly when some line of the file assigns it. */
  lemma {:induction false} AssignedKeys(lines: seq<string>, key: string)
    ensures key in Assigned(lines) <==> exists i :: 0 <= i < |lines| && AssignsKey(lines[i], key)
    decreases |lines|
  {
    if lines != [] {
      var init := lines[..|lines| - 1];
      var last := lines[|lines| - 1];
      AssignedKeys(init, key);
      if key in Assigned(lines) {
        if !AssignsKey(last, key) {
          assert key in Assigned(init);
          var j :| 0 <= j < |init| && AssignsKey(init[j], key);
          assert lines[j] == init[j];
        }
      }
      if exists i :: 0 <= i < |lines| && AssignsKey(lines[i], key) {
        var i :| 0 <= i < |lines| && AssignsKey(lines[i], key);
        if i < |lines| - 1 {
          assert init[i] == lines[i];
          assert key in Assigned(init);
        }
      }
    }
  }

  /** The last line that assigns a key decides its value. */
  lemma {:induction false} AssignedLastWins(lines: seq<string>, i: nat, key: string, value: string)
    requires i < |lines| && Assignment(lines[i]) == Some((key, value))
    requires forall j :: i < j < |lines| ==> !AssignsKey(lines[j], key)
    ensures key in Assigned(lines) && Assigned(lines)[key] == value
    decreases |lines|
  {
    if i < |lines| - 1 {
      var init := lines[..|lines| - 1];
      assert forall j :: 0 <= j < |init| ==> init[j] == lines[j];
      AssignedLastWins(init, i, key, value);
    }
  }

  /**
   * Sourcing panics at line `i` exactly when line `i` is the first one whose
   * slices are out of range; the environment it leaves is what the lines
   * before it made.
   */
  lemma {:induction false} SourceAbortsAtFirstBadLine(env: Environ, lines: seq<string>, i: nat, e: Environ)
    requires i < |lines|
    ensures Source(env, lines) == Aborted(i, e) <==>
      Panics(lines[i]) && NonePanic(lines[..i]) && Source(env, lines[..i]) == Completed(e)
    decreases |lines|
  {
    var init := lines[..|lines| - 1];
    if i < |init| {
      assert init[..i] == lines[..i];
      assert init[i] == lines[i];
      SourceAbortsAtFirstBadLine(env, init, i, e);
      SourceEarlierAbort(env, lines, i, e);
    } else {
      SourceCompletesUnlessPanic(env, init);
      SourceLastAbort(env, lines, e);
    }
  }

  lemma SourceEarlierAbort(env: Environ, lines: seq<string>, i: nat, e: Environ)
    requires i < |lines| - 1
    ensures Source(env, lines) == Aborted(i, e) <==> Source(env, lines[..|lines| - 1]) == Aborted(i, e)
  {
  }

  lemma SourceLastAbort(env: Environ, lines: seq<string>, e: Environ)
    requires lines != []
    ensures Source(env, lines) == Aborted(|lines| - 1, e) <==>
      Source(env, lines[..|lines| - 1]) == Completed(e) && Panics(lines[|lines| - 1])
  {
  }

  /** Sourcing completes exactly when no line panics. */
  lemma {:induction false} SourceCompletesUnlessPanic(env: Environ, lines: seq<string>)
    ensures Source(env, lines).Completed? <==> NonePanic(lines)
    decreases |lines|
  {
    if lines != [] {
      SourceCompletesUnlessPanic(env, lines[..|lines| - 1]);
      NonePanicSnoc(lines);
    }
  }

  /** The environment a file without a panicking line leaves behind. */
  function Sourced(env: Environ, lines: seq<string>): Environ
  {
    if lines == [] then env else WithDefaultApiVersion(env + Assigned(lines))
  }

  /**
   * A file with no out-of-range line leaves the environment with every
   * assignment applied, the last one winning, and the API version defaulted
   * when it ends up empty; an empty file changes nothing.
   */
  lemma {:induction false} SourceCompletes(env: Environ, lines: seq<string>)
    requires NonePanic(lines)
    ensures Source(env, lines) == Completed(Sourced(env, lines))
    decreases |lines|
  {
    if lines != [] {
      var init := lines[..|lines| - 1];
      var line := lines[|lines| - 1];
      NonePanicSnoc(lines);
      SourceCompletes(env, init);
      SourcedNextLine(env, lines);
      SourceStepOk(env, lines, Sourced(env, init), Sourced(env, lines));
    }
  }

  lemma SourceStepOk(env: Environ, lines: seq<string>, e: Environ, e': Environ)
    requires lines != [] && Source(env, lines[..|lines| - 1]) == Completed(e)
    requires ScanLine(e, lines[|lines| - 1]) == Ok(e')
    ensures Source(env, lines) == Completed(e')
  {
  }

  /** One more line that does not panic takes Sourced one line further. */
  lemma SourcedNextLine(env: Environ, lines: seq<string>)
    requires lines != [] && !Panics(lines[|lines| - 1])
    ensures ScanLine(Sourced(env, lines[..|lines| - 1]), lines[|lines| - 1]) == Ok(Sourced(env, lines))
  {
    var init := lines[..|lines| - 1];
    var line := lines[|lines| - 1];
    var e := Sourced(env, init);
    var m := env + Assigned(init);
    assert init == [] ==> m == env;
    ScanLineEffect(e, line);
    match Assignment(line)
    case None =>
      assert Assigned(lines) == Assigned(init);
      DefaultIdempotent(m, init == []);
    case Some(kv) =>
      assert Assigned(lines) == Assigned(init)[kv.0 := kv.1];
      MergeThenUpdate(env, Assigned(init), kv.0, kv.1);
      DefaultCommutesWithSet(m, kv.0, kv.1, init == []);
  }

  lemma MergeThenUpdate(a: Environ, b: Environ, key: string, value: string)
    ensures (a + b)[key := value] == a + b[key := value]
  {
  }

  lemma DefaultIdempotent(m: Environ, raw: bool)
    ensures WithDefaultApiVersion(if raw then m else WithDefaultApiVersion(m)) == WithDefaultApiVersion(m)
  {
  }

  lemma DefaultCommutesWithSet(m: Environ, key: string, value: string, raw: bool)
    ensures WithDefaultApiVersion((if raw then m else WithDefaultApiVersion(m))[key := value])
         == WithDefaultApiVersion(m[key := value])
  {
    if !raw && key != ApiVersionKey && EnvGet(m, ApiVersionKey) == "" {
      assert m[key := value][ApiVersionKey := DefaultApiVersion]
          == m[ApiVersionKey := DefaultApiVersion][key := value];
    }
  }

  /**
   * After any scanned line the API version is set, so a file with at least
   * one line that does not panic on its first line leaves it non-empty; an
   * empty file leaves the environment untouched.
   */
  lemma {:induction false} ApiVersionAfterSource(env: Environ, lines: seq<string>)
    ensures lines == [] ==> Source(env, lines) == Completed(env)
    ensures (Source(env, lines).Completed? && lines != []) || (Source(env, lines).Aborted? && Source(env, lines).line > 0)
        ==> EnvGet(Source(env, lines).env, ApiVersionKey) != ""
    decreases |lines|
  {
    if lines != [] {
      var init := lines[..|lines| - 1];
      ApiVersionAfterSource(env, init);
    }
  }

  /**
   * The process environment, which os.Getenv and os.Setenv read and write in
   * place.
   */
  class ProcessEnv {
    var vars: Environ

    constructor (initial: Environ)
      ensures vars == initial
    {
      vars := initial;
    }

    /** os.Getenv on this environment: EnvGet read through the object. */
    function Getenv(key: string): (value: string)
      reads this
      ensures value == EnvGet(vars, key)
    {
      if key in vars then vars[key] else ""
    }

    method Setenv(key: string, value: string)
      modifies this
      ensures vars == EnvSet(old(vars), key, value)
    {
      if SetenvAccepts(key, value) {
        vars := vars[key := value];
      }
    }
  }

  /**
   * SourceFile's scanning loop over the lines of the file: the environment
   * ends as Source describes, and a panic is reported with the index of the
   * line that raised it.
   */
  method SourceFile(process: ProcessEnv, lines: seq<string>) returns (panicAt: Option<nat>)
    modifies process
    ensures panicAt.None? ==> Source(old(process.vars), lines) == Completed(process.vars)
    ensures panicAt.Some? ==> Source(old(process.vars), lines) == Aborted(panicAt.value, process.vars)
  {
    ghost var start := process.vars;
    var i := 0;
    while i < |lines|
      invariant 0 <= i <= |lines|
      invariant Source(start, lines[..i]) == Completed(process.vars)
    {
      ghost var e := process.vars;
      var panicked := ScanOneLine(process, lines[i]);
      SourceNextLine(start, lines, i, e);
      if panicked {
        AbortedStaysAborted(start, lines, i + 1);
        return Some(i);
      }
      i := i + 1;
    }
    assert lines[..i] == lines;
    return None;
  }

  /**
   * The body of SourceFile's loop for one line: split at the first '=',
   * slice the key and value and set them, then default the API version.
   * `panicked` stands for the out-of-range slice, which changes nothing.
   */
  method ScanOneLine(process: ProcessEnv, text: string) returns (panicked: bool)
    modifies process
    ensures panicked <==> ScanLine(old(process.vars), text).Err?
    ensures panicked ==> process.vars == old(process.vars)
    ensures !panicked ==> ScanLine(old(process.vars), text) == Ok(process.vars)
  {
    ghost var start := process.vars;
    if '=' in text {
      var kv := SplitN2(text, '=');
      if |kv| == 2 {
        if |kv[0]| < KeyPrefixLength || |kv[1]| < 2 {
          return true;
        }
        process.Setenv(kv[0][KeyPrefixLength..], kv[1][1..|kv[1]| - 1]);
      }
    }
    ghost var stored := process.vars;
    assert ScanLine(start, text) == Ok(WithDefaultApiVersion(stored));
    if process.Getenv(ApiVersionKey) == "" {
      process.Setenv(ApiVersionKey, DefaultApiVersion);
    }
    assert process.vars == WithDefaultApiVersion(stored);
    return false;
  }

  /** Reading one more line continues from where the earlier lines left off. */
  lemma SourceNextLine(env: Environ, lines: seq<string>, i: nat, e: Environ)
    requires i < |lines| && Source(env, lines[..i]) == Completed(e)
    ensures Source(env, lines[..i + 1]) ==
      match ScanLine(e, lines[i])
      case Err(_) => Aborted(i, e)
      case Ok(e') => Completed(e')
  {
    assert lines[..i + 1][..i] == lines[..i];
  }

  /** Once a prefix of the file panics, the rest of the file is never read. */
  lemma {:induction false} AbortedStaysAborted(env: Environ, lines: seq<string>, n: nat)
    requires n <= |lines| && Source(env, lines[..n]).Aborted?
    ensures Source(env, lines) == Source(env, lines[..n])
    decreases |lines| - n
  {
    if n < |lines| {
      assert lines[..n + 1][..n] == lines[..n];
      AbortedStep(env, lines[..n + 1]);
      AbortedStaysAborted(env, lines, n + 1);
    } else {
      assert lines[..n] == lines;
    }
  }

  lemma AbortedStep(env: Environ, lines: seq<string>)
    requires lines != [] && Source(env, lines[..|lines| - 1]).Aborted?
    ensures Source(env, lines) == Source(env, lines[..|lines| - 1])
  {
  }
}
