/** `VPOLProcessor` (vpol.py) as a class: its fields are updated in place
    by the statement handlers, as in the original, and every handler is
    proved to leave the processor in the state, and end with the outcome,
    that the matching function of `Semantics` gives. */
module Interpreter {
  import opened Outcomes
  import opened Text
  import opened Patterns
  import opened Evaluator
  import opened Packet
  import opened Semantics

  class Processor {
    var vars: Vars
    var functions: Functions
    var inIfBlock: bool
    var shouldExecute: bool
    var ifConditionMet: bool
    /** What the script has printed or sent, in order. */
    var effects: seq<Effect>
    /** The console lines not yet read by `terminal.input`. */
    var stdin: seq<string>
    /** The lines of the script being run. */
    var lines: seq<string>

    /** The processor's state as a value. */
    function State(): Machine
      reads this
    {
      Machine(vars, functions, inIfBlock, shouldExecute, ifConditionMet, effects, stdin)
    }

    constructor (input: seq<string>)
      ensures State() == Initial(input) && lines == []
    {
      vars, functions := map[], map[];
      inIfBlock, shouldExecute, ifConditionMet := false, false, false;
      effects, stdin, lines := [], input, [];
    }

    method EvaluateIf(line: string) returns (o: Outcome)
      modifies this
      ensures (State(), o) == IfStep(old(State()), line) && lines == old(lines)
    {
      var group := GreedyGroup(line, "if ", ':', 1);
      if group.None? {
        return Fail(Raised(InvalidIf));
      }
      var condition := Trim(group.value);
      inIfBlock := true;
      var holds := EvaluateCondition(vars, condition);
      if holds.Err? {
        return Fail(holds.failure);
      }
      shouldExecute := holds.value;
      ifConditionMet := shouldExecute;
      return Done;
    }

    method EvaluateElseIf(line: string) returns (o: Outcome)
      modifies this
      ensures (State(), o) == ElseIfStep(old(State()), line) && lines == old(lines)
    {
      if !inIfBlock {
        return Fail(Raised(ElseIfWithoutIf));
      }
      var group := GreedyGroup(line, "elseif ", ':', 1);
      if group.None? {
        return Fail(Raised(InvalidElseIf));
      }
      if !ifConditionMet {
        var holds := EvaluateCondition(vars, Trim(group.value));
        if holds.Err? {
          return Fail(holds.failure);
        }
        shouldExecute := holds.value;
        if shouldExecute {
          ifConditionMet := true;
        }
      } else {
        shouldExecute := false;
      }
      return Done;
    }

    method EvaluateElse() returns (o: Outcome)
      modifies this
      ensures (State(), o) == ElseStep(old(State())) && lines == old(lines)
    {
      if !inIfBlock {
        return Fail(Raised(ElseWithoutIf));
      }
      shouldExecute := !ifConditionMet;
      return Done;
    }

    method AssignVar(line: string) returns (o: Outcome)
      modifies this
      ensures (State(), o) == Assign(old(State()), line) && lines == old(lines)
    {
      if EndsWith(Trim(line), "{") {
        var name := Drop1(Trim(Split(line, '=')[0]));
        vars := vars[name := ""];
        return Done;
      }
      var eq := FirstIndex(line, '=', 0);
      if eq.None? {
        return Fail(Raised(InvalidAssignment));
      }
      var name := Drop1(Trim(line[..eq.value]));
      var value := Evaluate(vars, Trim(line[eq.value + 1..]));
      if value.Err? {
        return Fail(value.failure);
      }
      vars := vars[name := value.value];
      return Done;
    }

    method PrintContent(line: string) returns (o: Outcome)
      modifies this
      ensures (State(), o) == PrintStep(old(State()), line) && lines == old(lines)
    {
      var group := GreedyGroup(line, "terminal.print(", ')', 0);
      if group.None? {
        return Fail(Raised(InvalidPrint));
      }
      var result := Evaluate(vars, Trim(group.value));
      if result.Err? {
        return Fail(result.failure);
      }
      effects := effects + [Print(result.value)];
      return Done;
    }

    method SetTitle(line: string) returns (o: Outcome)
      modifies this
      ensures (State(), o) == TitleStep(old(State()), line) && lines == old(lines)
    {
      var group := GreedyGroup(line, "terminal.set_title(", ')', 0);
      if group.None? {
        return Fail(Raised(InvalidTitle));
      }
      effects := effects + [Effect.SetTitle(Strip(Trim(group.value), Quote))];
      return Done;
    }

    method ParseJson(line: string) returns (o: Outcome)
      ensures o == Fail(Crashed(JsonPatternError))
    {
      return Fail(Crashed(JsonPatternError));
    }

    method Ping(line: string) returns (o: Outcome)
      modifies this
      ensures (State(), o) == PingStep(old(State()), line) && lines == old(lines)
    {
      var group := GreedyGroup(line, "network.ping(", ')', 0);
      if group.None? {
        return Fail(Raised(InvalidPing));
      }
      var host := Evaluate(vars, group.value);
      if host.Err? {
        return Fail(host.failure);
      }
      effects := effects + [Effect.Ping(host.value)];
      return Done;
    }

    method CheckHttp(line: string) returns (o: Outcome)
      modifies this
      ensures (State(), o) == HttpStep(old(State()), line) && lines == old(lines)
    {
      var group := GreedyGroup(line, "network.http_check(", ')', 0);
      if group.None? {
        return Fail(Raised(InvalidHttp));
      }
      var url := Evaluate(vars, group.value);
      if url.Err? {
        return Fail(url.failure);
      }
      effects := effects + [HttpCheck(url.value)];
      return Done;
    }

    method SendPacket(line: string) returns (o: Outcome)
      modifies this
      ensures (State(), o) == PacketStep(old(State()), line) && lines == old(lines)
    {
      var packet := PacketArgs(vars, line);
      if packet.Err? {
        return Fail(packet.failure);
      }
      effects := effects + [packet.value];
      return Done;
    }

    method InputVariable(line: string) returns (o: Outcome)
      modifies this
      ensures (State(), o) == InputStep(old(State()), line) && lines == old(lines)
    {
      var target := InputTarget(line);
      if target.None? {
        return Fail(Raised(InvalidInput));
      }
      var (prompt, name) := target.value;
      effects := effects + [Prompt(prompt)];
      if stdin == [] {
        return Fail(Crashed(EndOfInput));
      }
      vars := vars[name := stdin[0]];
      stdin := stdin[1..];
      return Done;
    }

    method CallFunction(line: string, depth: nat) returns (o: Outcome)
      modifies this
      ensures (State(), o) == Call(old(State()), line, depth) && lines == old(lines)
      decreases depth, 1
    {
      var name := CallName(line);
      if name.None? {
        return Fail(Raised(InvalidCall));
      }
      if name.value !in functions {
        return Fail(Raised(FunctionNotDefined(name.value)));
      }
      if depth == 0 {
        return Fail(Crashed(RecursionLimit));
      }
      o := RunLines(functions[name.value], depth - 1);
    }

    /** The `for` loop of `callFunction`: each body line goes to
        `processLine` in turn, and the first failure ends the loop. */
    method RunLines(body: seq<string>, depth: nat) returns (o: Outcome)
      modifies this
      ensures (State(), o) == RunBody(old(State()), body, depth) && lines == old(lines)
      decreases depth, 4
    {
      ghost var start := State();
      var i := 0;
      while i < |body|
        invariant 0 <= i <= |body| && lines == old(lines)
        invariant (State(), Done) == RunBody(start, body[..i], depth)
      {
        o := ProcessLine(body[i], depth);
        RunBodyNext(start, body, i, depth);
        if o.Fail? {
          RunBodyStops(start, body, i + 1, depth);
          return;
        }
        i := i + 1;
      }
      assert body[..i] == body;
      return Done;
    }

    method ProcessLine(line: string, depth: nat) returns (o: Outcome)
      modifies this
      ensures (State(), o) == Dispatch(old(State()), line, depth) && lines == old(lines)
      decreases depth, 3
    {
      if line == [] {
        return Done;
      }
      if StartsWith(line, "if") {
        o := EvaluateIf(line);
      } else if StartsWith(line, "elseif") {
        o := EvaluateElseIf(line);
      } else if StartsWith(line, "else:") {
        o := EvaluateElse();
      } else if !inIfBlock || (inIfBlock && shouldExecute) {
        if StartsWith(line, "@") {
          o := AssignVar(line);
        } else if StartsWith(line, "terminal.print") {
          o := PrintContent(line);
        } else if StartsWith(line, "terminal.set_title") {
          o := SetTitle(line);
        } else if StartsWith(line, "cls()") {
          effects := effects + [ClearScreen];
          o := Done;
        } else if StartsWith(line, "json.parse") {
          o := ParseJson(line);
        } else if StartsWith(line, "network.ping") {
          o := Ping(line);
        } else if StartsWith(line, "network.http_check") {
          o := CheckHttp(line);
        } else if StartsWith(line, "network.send_packet") {
          o := SendPacket(line);
        } else if StartsWith(line, "~$") {
          o := CallFunction(line, depth);
        } else if StartsWith(line, "terminal.input") {
          o := InputVariable(line);
        } else {
          o := Done;
        }
      } else {
        o := Done;
      }
    }

    method Run(code: string, depth: nat) returns (status: Status)
      modifies this
      ensures lines == Split(code, '\n')
      ensures (State(), status) == RunCode(old(State()), code, depth)
    {
      lines := Split(code, '\n');
      var inComment, defining := false, false;
      var name: string, body: seq<string> := "", [];
      var lineNum := 0;
      while lineNum < |lines|
        invariant 0 <= lineNum <= |lines| && lines == Split(code, '\n')
        invariant RunFrom(old(State()), Start, lines, lineNum, depth) ==
          (State(), Scan(inComment, defining, name, body), Completed)
      {
        var line := Trim(lines[lineNum]);
        lineNum := lineNum + 1;
        if inComment {
          if EndsWith(line, "]]") {
            inComment := false;
          }
        } else if StartsWith(line, "#[[") {
          inComment := true;
        } else if StartsWith(line, "${") {
          name := Trim(line[2..]);
          defining := true;
          body := [];
        } else if line == "}" && defining {
          functions := functions[name := body];
          defining := false;
        } else if defining {
          body := body + [line];
        } else {
          var o := ProcessLine(line, depth);
          if o.Fail? {
            status := if o.failure.Raised? then Stopped(lineNum, o.failure.message) else Aborted(o.failure.reason);
            RunStops(old(State()), Start, lines, |lines|, lineNum, depth);
            return;
          }
        }
      }
      return Completed;
    }
  }
}
