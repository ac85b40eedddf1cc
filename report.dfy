/**
 * How the harness names a test step and formats the line that reports it
 * (pkg/lib/lib.go: applyColor, GetFunctionName, RunTestFunc), and how the
 * entry point reads a failure back from those lines.
 */
module Report {
  import opened Results
  import opened GoStrings

  /** The success and failure glyphs, U+2714 and U+2717. */
  const Checkmark: string := "\U{2714}"
  const Xmark: string := "\U{2717}"

  /** The ANSI reset sequence that closes every coloured span. */
  const Reset: string := "\U{1B}[0m"

  /** The colour names the harness knows. */
  const KnownColors: set<string> := {"red", "green", "yellow", "cyan", "magenta"}

  /**
   * The ANSI "set foreground" sequence for a colour name; an unknown name
   * reads Go's map zero value, the empty string.
   */
  function ColorCode(color: string): (code: string)
    ensures color in KnownColors ==> |code| == 5 && code[..3] == "\U{1B}[3" && code[4] == 'm'
    ensures color !in KnownColors ==> code == ""
  {
    if color == "red" then "\U{1B}[31m"
    else if color == "green" then "\U{1B}[32m"
    else if color == "yellow" then "\U{1B}[33m"
    else if color == "cyan" then "\U{1B}[36m"
    else if color == "magenta" then "\U{1B}[35m"
    else ""
  }

  /**
   * applyColor: the text between the colour's code and the reset sequence;
   * an unknown colour leaves only the reset.
   */
  function ApplyColor(text: string, color: string): (r: string)
    ensures |r| == |ColorCode(color)| + |text| + |Reset|
    ensures r[..|ColorCode(color)|] == ColorCode(color)
    ensures r[|ColorCode(color)|..|r| - |Reset|] == text
    ensures r[|r| - |Reset|..] == Reset
    ensures color !in KnownColors ==> r == text + Reset
  {
    ColorCode(color) + text + Reset
  }

  /** The cutset GetFunctionName trims: Go's suffix "-fm" on method values, read as a set. */
  const MethodValueCutset: string := "-fm"

  /**
   * GetFunctionName, from the runtime's long name of the function onwards:
   * the text after the last '.', then every trailing '-', 'f' or 'm' removed.
   */
  function GetFunctionName(long: string): (name: string)
    ensures '.' !in name
    ensures |name| <= |LastPart(long, '.')| && name == LastPart(long, '.')[..|name|]
    ensures forall i :: |name| <= i < |LastPart(long, '.')| ==> LastPart(long, '.')[i] in MethodValueCutset
    ensures |name| > 0 ==> name[|name| - 1] !in MethodValueCutset
  {
    var last := LastPart(long, '.');
    var name := TrimRight(last, MethodValueCutset);
    LastPartIsSuffix(long, '.');
    assert forall c :: c in name ==> c in last;
    name
  }

  /**
   * The name of a bound method value `pkg.(*T).Method-fm`: the cutset trims
   * `Method` itself too, so the name is `Method` exactly when `Method` does not
   * end in '-', 'f' or 'm' (`Conf-fm` gives `Con`).
   */
  lemma {:induction false} MethodValueName(qualifier: string, meth: string)
    requires '.' !in meth
    ensures GetFunctionName(qualifier + "." + meth + "-fm") == TrimRight(meth, MethodValueCutset)
    ensures GetFunctionName(qualifier + "." + meth + "-fm") == meth
        <==> (meth == [] || meth[|meth| - 1] !in MethodValueCutset)
  {
    var long := qualifier + "." + meth + "-fm";
    var seg := meth + "-fm";
    assert long == (qualifier + ".") + seg;
    assert '.' !in seg;
    LastPartAfterSep(qualifier + ".", seg, '.');
    TrimRightDropsCutsetTail(meth, "-fm", MethodValueCutset);
  }

  /** Trimming ignores a tail made only of cutset characters. */
  lemma {:induction false} TrimRightDropsCutsetTail(s: string, tail: string, cutset: string)
    requires forall i :: 0 <= i < |tail| ==> tail[i] in cutset
    ensures TrimRight(s + tail, cutset) == TrimRight(s, cutset)
    decreases |tail|
  {
    if |tail| > 0 {
      var shorter := tail[..|tail| - 1];
      var whole := s + tail;
      assert whole[|whole| - 1] == tail[|tail| - 1];
      assert whole[..|whole| - 1] == s + shorter;
      assert TrimRight(whole, cutset) == TrimRight(s + shorter, cutset);
      TrimRightDropsCutsetTail(s, shorter, cutset);
    } else {
      assert s + tail == s;
    }
  }

  /** A line mentions the step as "Test: <name> ". */
  function TestHeader(name: string): string
  {
    "Test: " + name + " "
  }

  /** The tail of a failure line: the name again and the error text. */
  function FailureText(name: string, error: string): string
  {
    "Test " + name + " failed. error: " + error
  }

  /**
   * RunTestFunc, with the step's long function name and the value the step
   * returned (it is called once; its result is the only thing consulted).
   * The line opens with the coloured glyph, always names the step, and on
   * failure closes with the error text.
   */
  function RunTestFunc(long: string, outcome: Outcome): (line: string)
    ensures Contains(line, TestHeader(GetFunctionName(long)))
    ensures outcome.Pass? ==> line == ApplyColor(Checkmark, "green") + " " + TestHeader(GetFunctionName(long))
    ensures outcome.Fail? ==> ApplyColor(Xmark, "red") + " " <= line
    ensures outcome.Fail? ==> var tail := FailureText(GetFunctionName(long), outcome.error);
      |tail| <= |line| && line[|line| - |tail|..] == tail
  {
    var name := GetFunctionName(long);
    var result := TestHeader(name);
    match outcome
    case Fail(err) =>
      var line := ApplyColor(Xmark, "red") + " " + result + FailureText(name, err);
      assert OccursAt(result, result, 0);
      ContainsInConcat(ApplyColor(Xmark, "red") + " ", result, FailureText(name, err), result);
      line
    case Pass =>
      var head := ApplyColor(Checkmark, "green") + " ";
      var line := head + result;
      assert line[|head|..|head| + |result|] == result;
      assert OccursAt(line, result, |head|);
      line
  }

  /** Every character of a step's name comes from its long name. */
  lemma NameCharsFromLong(long: string, c: char)
    requires c in GetFunctionName(long)
    ensures c in long
  {
    var name := GetFunctionName(long);
    var last := LastPart(long, '.');
    LastPartIsSuffix(long, '.');
    var k :| 0 <= k < |name| && name[k] == c;
    assert last[k] == c;
    assert long[|long| - |last| + k] == c;
  }

  /**
   * The entry point decides a step failed by finding the cross glyph in its
   * line: that holds exactly when the step returned an error, provided the
   * glyph is not part of the function's name.
   */
  lemma {:induction false} CrossMarksFailure(long: string, outcome: Outcome)
    requires Xmark[0] !in long
    ensures Contains(RunTestFunc(long, outcome), Xmark) <==> outcome.Fail?
  {
    var line := RunTestFunc(long, outcome);
    var name := GetFunctionName(long);
    ContainsChar(line, Xmark[0]);
    assert Xmark == [Xmark[0]];
    if outcome.Fail? {
      assert line[5] == Xmark[0];
    } else {
      if Xmark[0] in name {
        NameCharsFromLong(long, Xmark[0]);
      }
      var glyph := ApplyColor(Checkmark, "green");
      assert glyph == ColorCode("green") + Checkmark + Reset;
      assert Xmark[0] !in glyph;
      assert Xmark[0] !in TestHeader(name);
    }
  }

  /** The run failed when any result line holds the cross glyph (cmd/vol-test/main.go). */
  predicate RunFailed(results: seq<string>)
  {
    exists i :: 0 <= i < |results| && Contains(results[i], Xmark)
  }

  /** The result lines of a list of steps, in order. */
  function ResultLines(longs: seq<string>, outcomes: seq<Outcome>): (lines: seq<string>)
    requires |longs| == |outcomes|
  {
    seq(|longs|, i requires 0 <= i < |longs| => RunTestFunc(longs[i], outcomes[i]))
  }

  /** The whole run is reported failed exactly when some step returned an error. */
  lemma RunFailedIffSomeStepFailed(longs: seq<string>, outcomes: seq<Outcome>)
    requires |longs| == |outcomes|
    requires forall i :: 0 <= i < |longs| ==> Xmark[0] !in longs[i]
    ensures RunFailed(ResultLines(longs, outcomes)) <==> exists i :: 0 <= i < |outcomes| && outcomes[i].Fail?
  {
    var lines := ResultLines(longs, outcomes);
    forall i | 0 <= i < |lines|
      ensures Contains(lines[i], Xmark) <==> outcomes[i].Fail?
    {
      CrossMarksFailure(longs[i], outcomes[i]);
    }
  }
}
