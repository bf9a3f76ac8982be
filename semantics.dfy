/** What the interpreter does to its state, as functions: each statement
    handler of `VPOLProcessor` (vpol.py) maps the processor state before the
    statement to the state after it and to how the statement ended. The
    class in `Interpreter` carries out the same steps by updating fields, and
    is proved to agree with these functions. */
module Semantics {
  import opened Outcomes
  import opened Text
  import opened Patterns
  import opened Evaluator
  import opened Packet

  /** The function table: each name to the trimmed lines of its body. */
  type Functions = map<string, seq<string>>

  /** The processor's state. `shouldExecute` starts as Python's None, which
      the gate reads as false. `effects` records what the script has done
      to the outside world, in order, and `stdin` holds the lines the
      console will still deliver to `terminal.input`. */
  datatype Machine = Machine(
    vars: Vars,
    functions: Functions,
    inIfBlock: bool,
    shouldExecute: bool,
    ifConditionMet: bool,
    effects: seq<Effect>,
    stdin: seq<string>)

  /** A freshly constructed processor. */
  function Initial(stdin: seq<string>): (m: Machine)
    ensures GateOpen(m) && m.vars == map[] && m.functions == map[] && m.effects == [] && m.stdin == stdin
  {
    Machine(map[], map[], false, false, false, [], stdin)
  }

  const ElseIfWithoutIf := "elseif without if"
  const InvalidElseIf := "Invalid elseif statement"
  const ElseWithoutIf := "else without if"
  const InvalidAssignment := "Invalid variable assignment"
  const InvalidPrint := "Invalid print statement"
  const InvalidTitle := "Invalid set_title statement"
  const InvalidPing := "Invalid ping statement"
  const InvalidHttp := "Invalid http_check statement"
  const InvalidCall := "Invalid function call"
  const InvalidInput := "Invalid input statement"

  function FunctionNotDefined(name: string): string {
    "Function '" + name + "' not defined"
  }

  /** The pattern of `parseJson` has one more `)` than `(`, so compiling it
      fails before any line is looked at. */
  const JsonPatternError := "re.error: unbalanced parenthesis at position 19"
  /** `input()` at the end of the console input. */
  const EndOfInput := "EOFError: EOF when reading a line"
  /** Calls nested deeper than the interpreter's stack allows. */
  const RecursionLimit := "RecursionError: maximum recursion depth exceeded"

  /** Python's `s[1:]`: empty stays empty. */
  function Drop1(s: string): string {
    if s == [] then [] else s[1..]
  }

  /** The gate of `processLine`: statements other than `if`, `elseif` and
      `else:` run only outside an if-block or while its current branch is on. */
  predicate GateOpen(m: Machine) {
    !m.inIfBlock || m.shouldExecute
  }

  /** `m2` differs from `m` at most in the variables, the effects and the
      console input: the gate and the function table are as they were. */
  predicate SameControl(m: Machine, m2: Machine) {
    m2.functions == m.functions && m2.inIfBlock == m.inIfBlock &&
    m2.shouldExecute == m.shouldExecute && m2.ifConditionMet == m.ifConditionMet
  }

  /** Records one effect; the statement succeeds. */
  function Emit(m: Machine, e: Effect): (r: (Machine, Outcome))
    ensures r.0.effects == m.effects + [e] && r.0.vars == m.vars && r.0.stdin == m.stdin
    ensures SameControl(m, r.0) && r.1 == Done
  {
    (m.(effects := m.effects + [e]), Done)
  }

  /** `evaluateIf`: the line enters the if-block before the condition is
      evaluated, so a failing condition leaves the block entered. */
  function IfStep(m: Machine, line: string): (r: (Machine, Outcome))
    ensures r.0 == m.(inIfBlock := r.0.inIfBlock, shouldExecute := r.0.shouldExecute, ifConditionMet := r.0.ifConditionMet)
    ensures r.1 == Done ==> r.0.inIfBlock && r.0.shouldExecute == r.0.ifConditionMet
    ensures r.0 != m ==> r.0.inIfBlock
  {
    match GreedyGroup(line, "if ", ':', 1)
    case None => (m, Fail(Raised(InvalidIf)))
    case Some(g) =>
      var entered := m.(inIfBlock := true);
      match EvaluateCondition(m.vars, Trim(g))
      case Err(f) => (entered, Fail(f))
      case Ok(b) => (entered.(shouldExecute := b, ifConditionMet := b), Done)
  }

  /** `evaluateElseIf`: only inside an if-block; its condition is evaluated
      only while no branch of the chain has been taken. */
  function ElseIfStep(m: Machine, line: string): (r: (Machine, Outcome))
    ensures r.0 == m.(shouldExecute := r.0.shouldExecute, ifConditionMet := r.0.ifConditionMet)
    ensures !m.inIfBlock ==> r == (m, Fail(Raised(ElseIfWithoutIf)))
    ensures m.ifConditionMet ==> r.0.ifConditionMet && (r.1 == Done ==> !r.0.shouldExecute)
    ensures r.1 == Done ==> r.0.shouldExecute ==> r.0.ifConditionMet
  {
    if !m.inIfBlock then (m, Fail(Raised(ElseIfWithoutIf)))
    else
      match GreedyGroup(line, "elseif ", ':', 1)
      case None => (m, Fail(Raised(InvalidElseIf)))
      case Some(g) =>
        if !m.ifConditionMet then
          match EvaluateCondition(m.vars, Trim(g))
          case Err(f) => (m, Fail(f))
          case Ok(b) => (m.(shouldExecute := b, ifConditionMet := b), Done)
        else (m.(shouldExecute := false), Done)
  }

  /** `evaluateElse`: only inside an if-block; on exactly when no branch has
      been taken. */
  function ElseStep(m: Machine): (r: (Machine, Outcome))
    ensures r.0 == m.(shouldExecute := r.0.shouldExecute)
    ensures r.1 == Done <==> m.inIfBlock
    ensures r.1 == Done ==> (r.0.shouldExecute <==> !m.ifConditionMet)
    ensures r.1.Fail? ==> r == (m, Fail(Raised(ElseWithoutIf)))
  {
    if !m.inIfBlock then (m, Fail(Raised(ElseWithoutIf)))
    else (m.(shouldExecute := !m.ifConditionMet), Done)
  }

  /** `assignVar`: a line ending in `{` clears the variable named before its
      first `=`; otherwise the name is what precedes the first `=` (trimmed,
      `@` dropped) and the value the evaluation of what follows it. */
  function Assign(m: Machine, line: string): (r: (Machine, Outcome))
    ensures r.0 == m.(vars := r.0.vars)
    ensures r.1.Fail? ==> r.0 == m
  {
    if EndsWith(Trim(line), "{") then
      var name := Drop1(Trim(Split(line, '=')[0]));
      (m.(vars := m.vars[name := ""]), Done)
    else
      match FirstIndex(line, '=', 0)
      case None => (m, Fail(Raised(InvalidAssignment)))
      case Some(i) =>
        var name := Drop1(Trim(line[..i]));
        match Evaluate(m.vars, Trim(line[i + 1..]))
        case Err(f) => (m, Fail(f))
        case Ok(v) => (m.(vars := m.vars[name := v]), Done)
  }

  /** `printContent`: the trimmed group between `terminal.print(` and the last
      `)` is evaluated and printed. */
  function PrintStep(m: Machine, line: string): (r: (Machine, Outcome))
    ensures r.0 == m.(effects := r.0.effects)
    ensures r.1.Fail? ==> r.0 == m
  {
    match GreedyGroup(line, "terminal.print(", ')', 0)
    case None => (m, Fail(Raised(InvalidPrint)))
    case Some(g) =>
      match Evaluate(m.vars, Trim(g))
      case Err(f) => (m, Fail(f))
      case Ok(v) => Emit(m, Print(v))
  }

  /** `setTitle`: the group is trimmed and unquoted but not evaluated. */
  function TitleStep(m: Machine, line: string): (r: (Machine, Outcome))
    ensures r.0 == m.(effects := r.0.effects)
    ensures r.1.Fail? ==> r.0 == m
  {
    match GreedyGroup(line, "terminal.set_title(", ')', 0)
    case None => (m, Fail(Raised(InvalidTitle)))
    case Some(g) => Emit(m, SetTitle(Strip(Trim(g), Quote)))
  }

  /** `ping`: the group, untrimmed, is evaluated and pinged. */
  function PingStep(m: Machine, line: string): (r: (Machine, Outcome))
    ensures r.0 == m.(effects := r.0.effects)
    ensures r.1.Fail? ==> r.0 == m
  {
    match GreedyGroup(line, "network.ping(", ')', 0)
    case None => (m, Fail(Raised(InvalidPing)))
    case Some(g) =>
      match Evaluate(m.vars, g)
      case Err(f) => (m, Fail(f))
      case Ok(host) => Emit(m, Ping(host))
  }

  /** `checkHttp`: the group, untrimmed, is evaluated and fetched; a failed
      request is reported, not raised. */
  function HttpStep(m: Machine, line: string): (r: (Machine, Outcome))
    ensures r.0 == m.(effects := r.0.effects)
    ensures r.1.Fail? ==> r.0 == m
  {
    match GreedyGroup(line, "network.http_check(", ')', 0)
    case None => (m, Fail(Raised(InvalidHttp)))
    case Some(g) =>
      match Evaluate(m.vars, g)
      case Err(f) => (m, Fail(f))
      case Ok(url) => Emit(m, HttpCheck(url))
  }

  /** `sendPacket`: the checked arguments are sent; a failed send is
      reported, not raised. */
  function PacketStep(m: Machine, line: string): (r: (Machine, Outcome))
    ensures r.0 == m.(effects := r.0.effects)
    ensures r.1.Fail? ==> r.0 == m
  {
    match PacketArgs(m.vars, line)
    case Err(f) => (m, Fail(f))
    case Ok(e) => Emit(m, e)
  }

  /** `inputVariable`: the prompt is written, one console line is read and
      stored verbatim under the name. */
  function InputStep(m: Machine, line: string): (r: (Machine, Outcome))
    ensures r.0 == m.(vars := r.0.vars, effects := r.0.effects, stdin := r.0.stdin)
  {
    match InputTarget(line)
    case None => (m, Fail(Raised(InvalidInput)))
    case Some((prompt, name)) =>
      var prompted := m.(effects := m.effects + [Prompt(prompt)]);
      if m.stdin == [] then (prompted, Fail(Crashed(EndOfInput)))
      else (prompted.(vars := m.vars[name := m.stdin[0]], stdin := m.stdin[1..]), Done)
  }

  /** `processLine`: an empty line does nothing; `if`, `elseif` and `else:`
      always run; anything else runs only through an open gate. */
  function Dispatch(m: Machine, line: string, depth: nat): (r: (Machine, Outcome))
    decreases depth, 3, 0
  {
    if line == [] then (m, Done)
    else if StartsWith(line, "if") then IfStep(m, line)
    else if StartsWith(line, "elseif") then ElseIfStep(m, line)
    else if StartsWith(line, "else:") then ElseStep(m)
    else if !GateOpen(m) then (m, Done)
    else Command(m, line, depth)
  }

  /** The commands behind the gate, chosen by the line's prefix in the order
      `processLine` tests them; a line with no known prefix does nothing. */
  function Command(m: Machine, line: string, depth: nat): (r: (Machine, Outcome))
    decreases depth, 2, 0
  {
    if StartsWith(line, "@") then Assign(m, line)
    else if StartsWith(line, "terminal.print") then PrintStep(m, line)
    else if StartsWith(line, "terminal.set_title") then TitleStep(m, line)
    else if StartsWith(line, "cls()") then Emit(m, ClearScreen)
    else if StartsWith(line, "json.parse") then (m, Fail(Crashed(JsonPatternError)))
    else if StartsWith(line, "network.ping") then PingStep(m, line)
    else if StartsWith(line, "network.http_check") then HttpStep(m, line)
    else if StartsWith(line, "network.send_packet") then PacketStep(m, line)
    else if StartsWith(line, "~$") then Call(m, line, depth)
    else if StartsWith(line, "terminal.input") then InputStep(m, line)
    else (m, Done)
  }

  /** `callFunction`: the name after the leftmost `~$` must be defined; its
      body then runs line by line. `depth` bounds the nesting of calls. */
  function Call(m: Machine, line: string, depth: nat): (r: (Machine, Outcome))
    decreases depth, 1, 0
  {
    match CallName(line)
    case None => (m, Fail(Raised(InvalidCall)))
    case Some(name) =>
      if name !in m.functions then (m, Fail(Raised(FunctionNotDefined(name))))
      else if depth == 0 then (m, Fail(Crashed(RecursionLimit)))
      else RunBody(m, m.functions[name], depth - 1)
  }

  /** The lines of `body` dispatched in order; the first failure ends the
      run, and what the earlier lines did stays done. */
  function RunBody(m: Machine, body: seq<string>, depth: nat): (r: (Machine, Outcome))
    decreases depth, 4, |body|
  {
    if body == [] then (m, Done)
    else
      var prior := RunBody(m, body[..|body| - 1], depth);
      if prior.1.Fail? then prior
      else Dispatch(prior.0, body[|body| - 1], depth)
  }

  /** The runner's own state: inside a comment span, collecting a function
      body, and the name and lines collected so far. */
  datatype Scan = Scan(inComment: bool, defining: bool, name: string, body: seq<string>)

  const Start := Scan(false, false, "", [])

  /** How a run ends: all lines done; stopped by a VPOLException, reported
      with its 1-based line number; or aborted by any other exception. */
  datatype Status = Completed | Stopped(line: nat, message: string) | Aborted(reason: string)

  /** One iteration of `run`'s loop on a raw line. */
  function Feed(m: Machine, sc: Scan, raw: string, depth: nat): (r: (Machine, Scan, Outcome))
  {
    var line := Trim(raw);
    if sc.inComment then (m, sc.(inComment := !EndsWith(line, "]]")), Done)
    else if StartsWith(line, "#[[") then (m, sc.(inComment := true), Done)
    else if StartsWith(line, "${") then (m, sc.(defining := true, name := Trim(line[2..]), body := []), Done)
    else if line == "}" && sc.defining then
      (m.(functions := m.functions[sc.name := sc.body]), sc.(defining := false), Done)
    else if sc.defining then (m, sc.(body := sc.body + [line]), Done)
    else
      var r := Dispatch(m, line, depth);
      (r.0, sc, r.1)
  }

  /** The state after `run`'s loop, starting in scan state `sc`, has
      handled the first `n` lines, or the state and status it stopped with;
      a stop names the 1-based index of the failing line. */
  function RunFrom(m: Machine, sc: Scan, lines: seq<string>, n: nat, depth: nat): (r: (Machine, Scan, Status))
    requires n <= |lines|
    ensures r.2.Stopped? ==> 1 <= r.2.line <= n
    decreases n
  {
    if n == 0 then (m, sc, Completed)
    else
      var prior := RunFrom(m, sc, lines, n - 1, depth);
      if !prior.2.Completed? then prior
      else
        var r := Feed(prior.0, prior.1, lines[n - 1], depth);
        match r.2
        case Done => (r.0, r.1, Completed)
        case Fail(Raised(message)) => (r.0, r.1, Stopped(n, message))
        case Fail(Crashed(reason)) => (r.0, r.1, Aborted(reason))
  }

  /** `run(code)`: the code is split into lines, which are handled in order. */
  function RunCode(m: Machine, code: string, depth: nat): (Machine, Status) {
    var lines := Split(code, '\n');
    var r := RunFrom(m, Start, lines, |lines|, depth);
    (r.0, r.2)
  }

  /** Once a body has failed, the lines after the failing one are never
      dispatched: running the whole body ends where the prefix ended. */
  lemma {:induction false} RunBodyStops(m: Machine, body: seq<string>, k: nat, depth: nat)
    requires k <= |body| && RunBody(m, body[..k], depth).1.Fail?
    ensures RunBody(m, body, depth) == RunBody(m, body[..k], depth)
    decreases |body|
  {
    if k < |body| {
      var shorter := body[..|body| - 1];
      assert shorter[..k] == body[..k];
      RunBodyStops(m, shorter, k, depth);
    } else {
      assert body[..k] == body;
    }
  }

  /** While a body has not failed, its next line is dispatched on the state
      the earlier lines left. */
  lemma RunBodyNext(m: Machine, body: seq<string>, i: nat, depth: nat)
    requires i < |body| && RunBody(m, body[..i], depth).1 == Done
    ensures RunBody(m, body[..i + 1], depth) == Dispatch(RunBody(m, body[..i], depth).0, body[i], depth)
  {
    assert body[..i + 1][..i] == body[..i];
  }

  /** Once `run` has stopped, later lines are never handled: the state and
      the status stay those of the failing line. */
  lemma {:induction false} RunStops(m: Machine, sc: Scan, lines: seq<string>, n: nat, k: nat, depth: nat)
    requires k <= n <= |lines| && !RunFrom(m, sc, lines, k, depth).2.Completed?
    ensures RunFrom(m, sc, lines, n, depth) == RunFrom(m, sc, lines, k, depth)
    decreases n
  {
    if k < n {
      RunStops(m, sc, lines, n - 1, k, depth);
    }
  }
}
