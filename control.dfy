/** Properties of the if/elseif/else gate and of `processLine`'s routing
    (vpol.py, `processLine`, `evaluateIf`, `evaluateElseIf`, `evaluateElse`). */
module ControlFlow {
  import opened Outcomes
  import opened Text
  import opened Patterns
  import opened Evaluator
  import opened Semantics

  /** `if cond:` enters the if-block whatever happens to the condition; the
      branch is then on exactly when the condition holds, and it is marked
      as taken exactly then. A failing condition changes nothing else. */
  lemma IfFollowsCondition(m: Machine, cond: string)
    requires |cond| >= 1
    ensures var r := IfStep(m, "if " + cond + ":");
      var c := EvaluateCondition(m.vars, Trim(cond));
      r.0.inIfBlock &&
      (c.Ok? ==> r.1 == Done && r.0.shouldExecute == r.0.ifConditionMet == c.value) &&
      (c.Ok? ==> r.0 == m.(inIfBlock := true, shouldExecute := c.value, ifConditionMet := c.value)) &&
      (c.Err? ==> r == (m.(inIfBlock := true), Fail(c.failure)))
  {
    GreedyWhole("if ", cond, ':', 1);
  }

  /** Outside an if-block, `elseif` and `else:` lines fail and change
      nothing. */
  lemma OrphanBranchFails(m: Machine, line: string, depth: nat)
    requires !m.inIfBlock && (StartsWith(line, "elseif") || StartsWith(line, "else:"))
    ensures StartsWith(line, "elseif") ==> Dispatch(m, line, depth) == (m, Fail(Raised(ElseIfWithoutIf)))
    ensures StartsWith(line, "else:") ==> Dispatch(m, line, depth) == (m, Fail(Raised(ElseWithoutIf)))
  {
    assert !StartsWith(line, "if") by {
      assert line[0] == 'e';
    }
    if StartsWith(line, "else:") {
      assert line[4] == ':';
    }
  }

  /** Once a branch of the chain has been taken, every later `elseif` and
      `else:` switches the gate off and keeps the branch marked as taken;
      an `elseif` whose line does not match fails without changing anything. */
  lemma TakenBranchCloses(m: Machine, line: string)
    requires m.inIfBlock && m.ifConditionMet
    ensures var r := ElseIfStep(m, line);
      r == (m.(shouldExecute := false), Done) || r == (m, Fail(Raised(InvalidElseIf)))
    ensures ElseStep(m) == (m.(shouldExecute := false), Done)
  {
  }

  /** `else:` is on exactly when no branch has been taken, so a second
      `else:` in the same chain is on exactly when the first one was. */
  lemma ElseRepeats(m: Machine)
    requires m.inIfBlock
    ensures ElseStep(m).1 == Done
    ensures ElseStep(m).0.shouldExecute <==> !m.ifConditionMet
    ensures ElseStep(ElseStep(m).0) == ElseStep(m)
  {
  }

  /** The gate never lets a branch run that is not marked as taken. */
  predicate ChainState(m: Machine) {
    m.inIfBlock && (m.shouldExecute ==> m.ifConditionMet)
  }

  /** The `elseif` lines of a chain run in order, with the number of
      branches they open; the first failure ends the chain. */
  function ElseIfChain(m: Machine, chain: seq<string>): (Machine, nat, Outcome)
    decreases |chain|
  {
    if chain == [] then (m, 0, Done)
    else
      var step := ElseIfStep(m, chain[0]);
      if step.1.Fail? then (step.0, 0, step.1)
      else
        var rest := ElseIfChain(step.0, chain[1..]);
        (rest.0, rest.1 + (if step.0.shouldExecute then 1 else 0), rest.2)
  }

  /** Along a run of `elseif` lines at most one branch opens, none once a
      branch has been taken, and the chain ends marked as taken exactly
      when a branch was taken before or during it. */
  lemma {:induction false} ElseIfOpensAtMostOne(m: Machine, chain: seq<string>)
    requires ChainState(m)
    ensures var r := ElseIfChain(m, chain);
      ChainState(r.0) && r.1 <= 1 &&
      (m.ifConditionMet ==> r.1 == 0) &&
      (r.0.ifConditionMet <==> m.ifConditionMet || r.1 == 1)
    decreases |chain|
  {
    if chain != [] {
      var step := ElseIfStep(m, chain[0]);
      if step.1.Done? {
        ElseIfOpensAtMostOne(step.0, chain[1..]);
      }
    }
  }

  /** The chain rule: after a successful `if`, its `elseif` lines and a
      final `else:` open exactly one branch between them; without the
      `else:`, at most one. */
  lemma ChainOpensOneBranch(m: Machine, ifLine: string, chain: seq<string>)
    requires IfStep(m, ifLine).1 == Done
    ensures var m1 := IfStep(m, ifLine).0;
      var r := ElseIfChain(m1, chain);
      var taken := (if m1.shouldExecute then 1 else 0) + r.1;
      taken <= 1 &&
      (r.2 == Done ==> (ElseStep(r.0).1 == Done &&
        taken + (if ElseStep(r.0).0.shouldExecute then 1 else 0) == 1))
  {
    var m1 := IfStep(m, ifLine).0;
    assert ChainState(m1) && m1.shouldExecute == m1.ifConditionMet;
    ElseIfOpensAtMostOne(m1, chain);
  }

  /** A line that is not `if`, `elseif` or `else:` runs exactly when the
      gate is open; behind a closed gate it changes nothing. */
  lemma GateDecides(m: Machine, line: string, depth: nat)
    requires line != [] && !StartsWith(line, "if") && !StartsWith(line, "elseif") && !StartsWith(line, "else:")
    ensures GateOpen(m) ==> Dispatch(m, line, depth) == Command(m, line, depth)
    ensures !GateOpen(m) ==> Dispatch(m, line, depth) == (m, Done)
  {
  }

  /** Any line that starts with the two letters `if` is an if statement for
      `processLine`, whether or not the gate is open, and is handed to
      `evaluateIf`; without a `:` after an `if ` it fails with "Invalid if
      statement" and changes nothing. */
  lemma IfPrefixIsIf(m: Machine, line: string, depth: nat)
    requires StartsWith(line, "if")
    ensures Dispatch(m, line, depth) == IfStep(m, line)
    ensures ':' !in line ==> Dispatch(m, line, depth) == (m, Fail(Raised(InvalidIf)))
  {
    GreedyNeedsClose(line, "if ", ':', 1);
  }

  /** `ifconfig` is read as a malformed if statement, even behind a closed
      gate. */
  lemma IfconfigIsInvalidIf(m: Machine, depth: nat)
    ensures Dispatch(m, "ifconfig", depth) == (m, Fail(Raised(InvalidIf)))
  {
    assert StartsWith("ifconfig", "if");
    IfPrefixIsIf(m, "ifconfig", depth);
  }

  /** The prefixes `processLine` reacts to. */
  predicate KnownPrefix(line: string) {
    StartsWith(line, "if") || StartsWith(line, "elseif") || StartsWith(line, "else:") ||
    StartsWith(line, "@") || StartsWith(line, "terminal.print") || StartsWith(line, "terminal.set_title") ||
    StartsWith(line, "cls()") || StartsWith(line, "json.parse") || StartsWith(line, "network.ping") ||
    StartsWith(line, "network.http_check") || StartsWith(line, "network.send_packet") ||
    StartsWith(line, "~$") || StartsWith(line, "terminal.input")
  }

  /** Empty lines and lines with no known prefix are ignored. */
  lemma UnknownLineIgnored(m: Machine, line: string, depth: nat)
    requires !KnownPrefix(line)
    ensures Dispatch(m, line, depth) == (m, Done)
  {
  }

  /** Only `run` defines functions, and no statement leaves an if-block:
      dispatching a line keeps the function table, and once inside an
      if-block the processor stays inside. */
  lemma {:induction false} DispatchKeeps(m: Machine, line: string, depth: nat)
    ensures Dispatch(m, line, depth).0.functions == m.functions
    ensures m.inIfBlock ==> Dispatch(m, line, depth).0.inIfBlock
    decreases depth, 3, 0
  {
    if line != [] && !StartsWith(line, "if") && !StartsWith(line, "elseif") && !StartsWith(line, "else:") && GateOpen(m) {
      CommandKeeps(m, line, depth);
    }
  }

  lemma {:induction false} CommandKeeps(m: Machine, line: string, depth: nat)
    ensures Command(m, line, depth).0.functions == m.functions
    ensures m.inIfBlock ==> Command(m, line, depth).0.inIfBlock
    decreases depth, 2, 0
  {
    if !StartsWith(line, "@") && !StartsWith(line, "terminal.print") && !StartsWith(line, "terminal.set_title") &&
       !StartsWith(line, "cls()") && !StartsWith(line, "json.parse") && !StartsWith(line, "network.ping") &&
       !StartsWith(line, "network.http_check") && !StartsWith(line, "network.send_packet") && StartsWith(line, "~$")
    {
      CallKeeps(m, line, depth);
    }
  }

  lemma {:induction false} CallKeeps(m: Machine, line: string, depth: nat)
    ensures Call(m, line, depth).0.functions == m.functions
    ensures m.inIfBlock ==> Call(m, line, depth).0.inIfBlock
    decreases depth, 1, 0
  {
    match CallName(line)
    case None =>
    case Some(name) =>
      if name in m.functions && depth > 0 {
        RunBodyKeeps(m, m.functions[name], depth - 1);
      }
  }

  lemma {:induction false} RunBodyKeeps(m: Machine, body: seq<string>, depth: nat)
    ensures RunBody(m, body, depth).0.functions == m.functions
    ensures m.inIfBlock ==> RunBody(m, body, depth).0.inIfBlock
    decreases depth, 4, |body|
  {
    if body != [] {
      RunBodyKeeps(m, body[..|body| - 1], depth);
      var prior := RunBody(m, body[..|body| - 1], depth);
      if prior.1.Done? {
        DispatchKeeps(prior.0, body[|body| - 1], depth);
      }
    }
  }

  /** Statements other than the control lines and calls never touch the
      gate: the three flags are as before. */
  lemma CommandKeepsGate(m: Machine, line: string, depth: nat)
    requires !StartsWith(line, "~$")
    ensures SameControl(m, Command(m, line, depth).0)
  {
    var r := Command(m, line, depth);
    if StartsWith(line, "@") {
      assert r == Assign(m, line);
    } else if StartsWith(line, "terminal.print") || StartsWith(line, "terminal.set_title") ||
              StartsWith(line, "cls()") || StartsWith(line, "json.parse") || StartsWith(line, "network.ping") ||
              StartsWith(line, "network.http_check") || StartsWith(line, "network.send_packet") {
    } else if StartsWith(line, "terminal.input") {
      assert r == InputStep(m, line);
    }
  }
}
