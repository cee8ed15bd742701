/** Codex policy checks (codex/checks.py).

    File reading, `splitlines`, JSON decoding and the `git` subprocess are
    inputs: the memory file arrives as a sequence of lines, each either
    undecodable or decoded to a JSON object, and the commit status as the
    command's output (None when the command fails).  An exception the code
    does not catch is a `Failure` carrying a `Raised` value.  A memory line
    that decodes to something other than an object has no representation
    here: `.get` on it would raise. */
module CodexChecks {
  import opened Wrappers
  import opened Text

  datatype Json =
    | JNull
    | JBool(b: bool)
    | JNum(n: real)
    | JStr(s: string)
    | JArr(items: seq<Json>)
    | JObj(fields: map<string, Json>)

  /** Python truthiness of a decoded JSON value. */
  predicate Truthy(j: Json) {
    match j
    case JNull => false
    case JBool(b) => b
    case JNum(n) => n != 0.0
    case JStr(s) => |s| > 0
    case JArr(items) => |items| > 0
    case JObj(fields) => |fields| > 0
  }

  /** `d.get(key)` followed by a truth test: a missing key is None, falsy. */
  predicate GetTruthy(d: map<string, Json>, key: string) {
    key in d && Truthy(d[key])
  }

  /** `d.get(key) == value` for a string value. */
  predicate GetEquals(d: map<string, Json>, key: string, value: string) {
    key in d && d[key] == JStr(value)
  }

  datatype Line = Undecodable | Decoded(entry: map<string, Json>)

  /** Exceptions that escape the checks. */
  datatype Raised =
    | UnicodeDecodeError            // a file that is not valid UTF-8
    | OpenError                     // PermissionError, IsADirectoryError, ... on the rules file
    | AttributeError                // `.get` on decoded rules that are not an object

  /** The memory file: missing, unreadable (an OSError), not valid UTF-8, or
      its lines. */
  datatype MemoryFile = Missing | Unreadable | NotUtf8 | Contents(lines: seq<Line>)

  /** The rules file: missing, not valid JSON, failing to open or decode for
      another reason, or the decoded JSON value. */
  datatype RulesFile = NotFound | Malformed | Unopenable(error: Raised) | Parsed(value: Json)

  /** `friction_alarm_passed`'s default window. */
  const DefaultLastN: int := 10

  /** A decoded line recording a passing friction alarm. */
  predicate IsPassingAlarm(line: Line) {
    line.Decoded? && GetEquals(line.entry, "event", "friction_alarm") && GetEquals(line.entry, "status", "pass")
  }

  /** Start index of Python's `xs[-n:]`: the last `n` elements for `n > 0`;
      everything for `n == 0`, since `-0` is `0`; for `n < 0` the slice starts
      at index `-n`. */
  function TailStart(len: nat, n: int): (start: nat)
    ensures start <= len
    ensures n > 0 && n <= len ==> start == len - n
    ensures n > 0 && n > len ==> start == 0
    ensures n == 0 ==> start == 0
  {
    if n > 0 then (if n <= len then len - n else 0)
    else if n == 0 then 0
    else if -n <= len then -n else len
  }

  /** The `for line in reversed(lines)` scan: true at the first passing alarm
      found from the end; undecodable lines are skipped. */
  function ScanFromEnd(lines: seq<Line>): (found: bool)
    decreases |lines|
  {
    if |lines| == 0 then false
    else if IsPassingAlarm(lines[|lines| - 1]) then true
    else ScanFromEnd(lines[..|lines| - 1])
  }

  lemma {:induction false} ScanFromEndFinds(lines: seq<Line>)
    ensures ScanFromEnd(lines) <==> exists i :: 0 <= i < |lines| && IsPassingAlarm(lines[i])
    decreases |lines|
  {
    if |lines| > 0 {
      var init := lines[..|lines| - 1];
      ScanFromEndFinds(init);
      if exists i :: 0 <= i < |lines| && IsPassingAlarm(lines[i]) {
        var i :| 0 <= i < |lines| && IsPassingAlarm(lines[i]);
        if i < |lines| - 1 {
          assert init[i] == lines[i];
        }
      }
      if exists i :: 0 <= i < |init| && IsPassingAlarm(init[i]) {
        var i :| 0 <= i < |init| && IsPassingAlarm(init[i]);
        assert lines[i] == init[i];
      }
    }
  }

  /** `friction_alarm_passed(memory_file, last_n=n)`: `except OSError` does
      not catch the UnicodeDecodeError of a file that is not UTF-8. */
  function FrictionAlarmPassed(file: MemoryFile, lastN: int): (passed: Result<bool, Raised>)
    ensures file.Missing? || file.Unreadable? ==> passed == Success(false)
    ensures file.NotUtf8? ==> passed == Failure(UnicodeDecodeError)
    ensures file.Contents? ==> passed.Success?
  {
    match file
    case Missing => Success(false)
    case Unreadable => Success(false)
    case NotUtf8 => Failure(UnicodeDecodeError)
    case Contents(lines) => Success(ScanFromEnd(lines[TailStart(|lines|, lastN)..]))
  }

  /** The check holds exactly when some line inside the window records a
      passing friction alarm; older lines are ignored. */
  lemma FrictionAlarmWindow(lines: seq<Line>, lastN: int)
    ensures var start := TailStart(|lines|, lastN);
      FrictionAlarmPassed(Contents(lines), lastN) ==
        Success(exists i :: start <= i < |lines| && IsPassingAlarm(lines[i]))
  {
    var start := TailStart(|lines|, lastN);
    var window := lines[start..];
    ScanFromEndFinds(window);
    if exists i :: start <= i < |lines| && IsPassingAlarm(lines[i]) {
      var i :| start <= i < |lines| && IsPassingAlarm(lines[i]);
      assert window[i - start] == lines[i];
    }
    if exists i :: 0 <= i < |window| && IsPassingAlarm(window[i]) {
      var i :| 0 <= i < |window| && IsPassingAlarm(window[i]);
      assert lines[start + i] == window[i];
    }
  }

  /** `last_n = 0` scans every line: a passing alarm anywhere is found. */
  lemma ZeroWindowScansAll(lines: seq<Line>, i: nat)
    requires i < |lines| && IsPassingAlarm(lines[i])
    ensures FrictionAlarmPassed(Contents(lines), 0) == Success(true)
  {
    FrictionAlarmWindow(lines, 0);
  }

  /** A passing alarm just before the last `n` lines is not seen. */
  lemma OlderAlarmIgnored(older: Line, recent: seq<Line>)
    requires |recent| > 0
    requires forall i :: 0 <= i < |recent| ==> !IsPassingAlarm(recent[i])
    ensures FrictionAlarmPassed(Contents([older] + recent), |recent|) == Success(false)
  {
    var lines := [older] + recent;
    FrictionAlarmWindow(lines, |recent|);
    assert forall i :: 1 <= i < |lines| ==> lines[i] == recent[i - 1];
  }

  const OtherEvent: Line := Decoded(map["event" := JStr("other")])
  const PassingAlarm: Line := Decoded(map["event" := JStr("friction_alarm"), "status" := JStr("pass")])

  /** The cases of `test_friction_alarm_passed`: nine other events then a
      passing alarm is accepted; ten other events are not. */
  lemma FrictionAlarmTestCases()
    ensures FrictionAlarmPassed(Contents(seq(9, _ => OtherEvent) + [PassingAlarm]), DefaultLastN) == Success(true)
    ensures FrictionAlarmPassed(Contents(seq(10, _ => OtherEvent)), DefaultLastN) == Success(false)
  {
    var yes := seq(9, _ => OtherEvent) + [PassingAlarm];
    FrictionAlarmWindow(yes, DefaultLastN);
    assert IsPassingAlarm(yes[9]);
    var no := seq(10, _ => OtherEvent);
    FrictionAlarmWindow(no, DefaultLastN);
    assert !IsPassingAlarm(OtherEvent);
  }

  /** `commit_signed`: the stripped output of `git log -1 --pretty=%G?` is
      "G" or "R"; a failed command gives false. */
  function CommitSigned(status: Option<string>): (signed: bool)
    ensures status.None? ==> !signed
  {
    match status
    case None => false
    case Some(out) => Strip(out) in {"G", "R"}
  }

  /** A status with no surrounding whitespace is signed exactly when it is
      "G" or "R". */
  lemma CommitSignedUnpadded(out: string)
    requires |out| > 0 && !IsSpace(out[0]) && !IsSpace(out[|out| - 1])
    ensures CommitSigned(Some(out)) <==> out in {"G", "R"}
  {
    StripUnpadded(out);
  }

  /** The cases of `test_commit_signed`: "G" and "R" are signed, "N" is not. */
  lemma CommitSignedTestCases()
    ensures CommitSigned(Some("G")) && CommitSigned(Some("R")) && !CommitSigned(Some("N"))
  {
    CommitSignedUnpadded("G");
    CommitSignedUnpadded("R");
    CommitSignedUnpadded("N");
  }

  /** The newline git prints after the status letter is stripped. */
  lemma CommitSignedTrailingNewline()
    ensures CommitSigned(Some("G\n"))
  {
    assert TrimStart("G\n") == "G\n";
    assert TrimEnd("G\n") == TrimEnd("G");
    StripUnpadded("G");
  }

  /** `load_rules`: the decoded JSON value, whatever its type, or {} when the
      file is missing or not valid JSON; any other failure to read the file
      escapes. */
  function LoadRules(file: RulesFile): (rules: Result<Json, Raised>)
    ensures file.NotFound? || file.Malformed? ==> rules == Success(JObj(map[]))
    ensures file.Unopenable? ==> rules == Failure(file.error)
    ensures file.Parsed? ==> rules == Success(file.value)
  {
    match file
    case NotFound => Success(JObj(map[]))
    case Malformed => Success(JObj(map[]))
    case Unopenable(e) => Failure(e)
    case Parsed(v) => Success(v)
  }

  const RequireFrictionAlarm: string := "require_friction_alarm"
  const EnforceSignedCommits: string := "enforce_signed_commits"

  datatype Check = FrictionAlarm | SignedCommit

  /** The rules `verify_compliance` can read with `.get`: an object, as
      loaded. */
  predicate ReadableRules(file: RulesFile) {
    LoadRules(file).Success? && LoadRules(file).value.JObj?
  }

  /** `verify_compliance()`, with the outcomes the two checks would give as
      inputs.  On success the second component lists the checks actually
      consulted, in order, to make the short-circuiting visible. */
  function VerifyCompliance(file: RulesFile, friction: Result<bool, Raised>, signedOk: bool): (res: Result<(bool, seq<Check>), Raised>)
    ensures LoadRules(file).Failure? ==> res == Failure(LoadRules(file).error)
    ensures LoadRules(file).Success? && !LoadRules(file).value.JObj? ==> res == Failure(AttributeError)
    ensures ReadableRules(file) && GetTruthy(LoadRules(file).value.fields, RequireFrictionAlarm) && friction.Failure? ==>
      res == Failure(friction.error)
    ensures ReadableRules(file) && !(GetTruthy(LoadRules(file).value.fields, RequireFrictionAlarm) && friction.Failure?) ==>
      var rules := LoadRules(file).value.fields;
      && res.Success?
      && (res.value.0 <==> ((GetTruthy(rules, RequireFrictionAlarm) ==> friction.value)
                            && (GetTruthy(rules, EnforceSignedCommits) ==> signedOk)))
      && (FrictionAlarm in res.value.1 <==> GetTruthy(rules, RequireFrictionAlarm))
      && (SignedCommit in res.value.1 ==> GetTruthy(rules, EnforceSignedCommits))
  {
    match LoadRules(file)
    case Failure(e) => Failure(e)
    case Success(loaded) =>
      if !loaded.JObj? then Failure(AttributeError)
      else
        var rules := loaded.fields;
        if GetTruthy(rules, RequireFrictionAlarm) && friction.Failure? then Failure(friction.error)
        else if GetTruthy(rules, RequireFrictionAlarm) && !friction.value then Success((false, [FrictionAlarm]))
        else
          var first := if GetTruthy(rules, RequireFrictionAlarm) then [FrictionAlarm] else [];
          if GetTruthy(rules, EnforceSignedCommits) then
            Success((signedOk, first + [SignedCommit]))
          else Success((true, first))
  }

  /** A missing or invalid rules file enables nothing: compliance holds and
      neither check is run. */
  lemma NoRulesNoChecks(file: RulesFile, friction: Result<bool, Raised>, signedOk: bool)
    requires file.NotFound? || file.Malformed?
    ensures VerifyCompliance(file, friction, signedOk) == Success((true, []))
  {
  }

  /** Rules that decode to an array, a string or any other non-object raise
      at the first `.get`, whatever the checks would say. */
  lemma NonObjectRulesRaise(v: Json, friction: Result<bool, Raised>, signedOk: bool)
    requires !v.JObj?
    ensures VerifyCompliance(Parsed(v), friction, signedOk) == Failure(AttributeError)
  {
  }

  /** The two rules switched on, as `test_verify_compliance` patches them in. */
  const BothRules: RulesFile := Parsed(JObj(map[RequireFrictionAlarm := JBool(true), EnforceSignedCommits := JBool(true)]))

  /** The case of `test_verify_compliance`: both rules on, a memory file with
      one passing alarm and a good signature. */
  lemma VerifyComplianceTestCase()
    ensures VerifyCompliance(BothRules, FrictionAlarmPassed(Contents([PassingAlarm]), DefaultLastN), true)
      == Success((true, [FrictionAlarm, SignedCommit]))
  {
    FrictionAlarmWindow([PassingAlarm], DefaultLastN);
    assert IsPassingAlarm([PassingAlarm][0]);
    var rules := BothRules.value.fields;
    assert GetTruthy(rules, RequireFrictionAlarm) && GetTruthy(rules, EnforceSignedCommits);
    assert [FrictionAlarm] + [SignedCommit] == [FrictionAlarm, SignedCommit];
  }

  /** The same test as written: it patches the module's MEMORY_PATH, but
      `friction_alarm_passed` bound its default path when it was defined, so
      `verify_compliance` still reads data/memory.jsonl.  Where that file is
      missing, compliance fails and the test's assertion does not hold. */
  lemma VerifyComplianceTestAsWritten()
    ensures VerifyCompliance(BothRules, FrictionAlarmPassed(Missing, DefaultLastN), true)
      == Success((false, [FrictionAlarm]))
  {
  }
}
