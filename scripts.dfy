/** Properties of statements and whole scripts: assignment, printing,
    function definition and call, comments, and how `run` stops (vpol.py,
    `run`, `assignVar`, `printContent`, `callFunction`). */
module Scripts {
  import opened Outcomes
  import opened Text
  import opened Patterns
  import opened Evaluator
  import opened Semantics

  /** `"@" + name + pad` trims to `"@" + name` when `pad` is whitespace and
      `name` does not end in whitespace. */
  lemma TrimAtName(name: string, pad: string)
    requires name == [] || name[|name| - 1] !in Whitespace
    requires AllIn(pad, Whitespace)
    ensures Trim("@" + name + pad) == "@" + name
  {
    StripPadded("", "@" + name, pad, Whitespace);
    assert "" + ("@" + name) + pad == "@" + name + pad;
    StripNoOp("@" + name, Whitespace);
  }

  /** `@name = expr`: on success the variable holds the evaluation of the
      trimmed right-hand side and no other variable changes; when the
      evaluation fails, nothing changes. The first `=` separates name and
      value, so the value may itself contain `=`. */
  lemma AssignSets(m: Machine, name: string, pad: string, expr: string)
    requires '=' !in name && AllIn(pad, Whitespace)
    requires name == [] || name[|name| - 1] !in Whitespace
    requires !EndsWith(Trim("@" + name + pad + "=" + expr), "{")
    ensures var r := Assign(m, "@" + name + pad + "=" + expr);
      var v := Evaluate(m.vars, Trim(expr));
      (v.Ok? ==> r == (m.(vars := m.vars[name := v.value]), Done)) &&
      (v.Err? ==> r == (m, Fail(v.failure)))
  {
    var head := "@" + name + pad;
    var line := head + "=" + expr;
    assert forall k :: 0 <= k < |head| ==> line[k] != '=' by {
      forall k | 0 <= k < |head| ensures line[k] != '=' {
        assert line[k] == head[k];
        if 0 < k <= |name| { assert head[k] == name[k - 1]; }
        if k > |name| { assert head[k] == pad[k - 1 - |name|]; assert pad[k - 1 - |name|] in Whitespace; }
      }
    }
    assert line[|head|] == '=';
    assert FirstIndex(line, '=', 0) == Some(|head|);
    assert line[..|head|] == head && line[|head| + 1..] == expr;
    TrimAtName(name, pad);
  }

  /** A line ending in `{` clears the variable named before its first `=`. */
  lemma AssignBraceClears(m: Machine, name: string, pad: string, rest: string)
    requires '=' !in name && AllIn(pad, Whitespace)
    requires name == [] || name[|name| - 1] !in Whitespace
    requires EndsWith(Trim("@" + name + pad + "=" + rest), "{")
    ensures Assign(m, "@" + name + pad + "=" + rest) == (m.(vars := m.vars[name := ""]), Done)
  {
    var head := "@" + name + pad;
    assert '=' !in head by {
      forall k | 0 <= k < |head| ensures head[k] != '=' {
        if 0 < k <= |name| { assert head[k] == name[k - 1]; }
        if k > |name| { assert head[k] == pad[k - 1 - |name|]; assert pad[k - 1 - |name|] in Whitespace; }
      }
    }
    SplitPrefix(head, "=" + rest, '=');
    assert ("=" + rest)[0] == '=' && ("=" + rest)[1..] == rest;
    assert head + ("=" + rest) == head + "=" + rest;
    assert head + "" == head;
    TrimAtName(name, pad);
  }

  /** A line with no `=` and no final `{` is not an assignment. */
  lemma AssignNeedsEquals(m: Machine, line: string)
    requires '=' !in line && !EndsWith(Trim(line), "{")
    ensures Assign(m, line) == (m, Fail(Raised(InvalidAssignment)))
  {
    assert forall k :: 0 <= k < |line| ==> line[k] != '=';
  }

  /** `terminal.print(expr)` prints the evaluation of the trimmed `expr`,
      whatever parentheses `expr` holds, and changes nothing else; a failing
      evaluation prints nothing. */
  lemma PrintEvaluates(m: Machine, expr: string)
    ensures var r := PrintStep(m, "terminal.print(" + expr + ")");
      var v := Evaluate(m.vars, Trim(expr));
      (v.Ok? ==> r == (m.(effects := m.effects + [Print(v.value)]), Done)) &&
      (v.Err? ==> r == (m, Fail(v.failure)))
  {
    GreedyWhole("terminal.print(", expr, ')', 0);
  }

  /** `~$name` runs the body stored under `name`, one level deeper; an
      unknown name fails, naming the function, and changes nothing. */
  lemma CallRunsBody(m: Machine, name: string, depth: nat)
    requires name != [] && forall k :: 0 <= k < |name| ==> IsWordChar(name[k])
    ensures name in m.functions ==> Call(m, "~$" + name, depth + 1) == RunBody(m, m.functions[name], depth)
    ensures name !in m.functions ==> Call(m, "~$" + name, depth) == (m, Fail(Raised(FunctionNotDefined(name))))
  {
    CallNameWhole(name);
  }

  /** A body runs in order: the lines of `a` first, then, unless one of them
      failed, the lines of `b` from the state `a` left. */
  lemma {:induction false} RunBodyAppend(m: Machine, a: seq<string>, b: seq<string>, depth: nat)
    ensures RunBody(m, a + b, depth) ==
      (var r := RunBody(m, a, depth); if r.1.Fail? then r else RunBody(r.0, b, depth))
    decreases |b|
  {
    if b == [] {
      assert a + b == a;
    } else {
      var ab := a + b;
      assert ab[..|ab| - 1] == a + b[..|b| - 1];
      assert ab[|ab| - 1] == b[|b| - 1];
      RunBodyAppend(m, a, b[..|b| - 1], depth);
    }
  }

  /** The first line of a body is dispatched first; the rest runs from the
      state it leaves, unless it failed. */
  lemma RunBodyFirst(m: Machine, line: string, rest: seq<string>, depth: nat)
    ensures RunBody(m, [line] + rest, depth) ==
      (var r := Dispatch(m, line, depth); if r.1.Fail? then r else RunBody(r.0, rest, depth))
  {
    RunBodyAppend(m, [line], rest, depth);
    assert [line][..0] == [];
  }

  /** What `run` does with a line depends only on the lines before it. */
  lemma {:induction false} RunFromPrefix(m: Machine, sc: Scan, a: seq<string>, b: seq<string>, n: nat, depth: nat)
    requires n <= |a|
    ensures RunFrom(m, sc, a + b, n, depth) == RunFrom(m, sc, a, n, depth)
    decreases n
  {
    if n > 0 {
      RunFromPrefix(m, sc, a, b, n - 1, depth);
      assert (a + b)[n - 1] == a[n - 1];
    }
  }

  /** A run status reported by a run over a later part of the script,
      with a stop's line number counted from the start of the script. */
  function Shift(r: (Machine, Scan, Status), offset: nat): (s: (Machine, Scan, Status))
    ensures s.0 == r.0 && s.1 == r.1 && s.2.Completed? == r.2.Completed? && s.2.Aborted? == r.2.Aborted?
    ensures r.2.Stopped? ==> s.2 == Stopped(r.2.line + offset, r.2.message)
    ensures !r.2.Stopped? ==> s == r
  {
    if r.2.Stopped? then (r.0, r.1, Stopped(r.2.line + offset, r.2.message)) else r
  }

  /** `run` over `a + b` handles `a` first; if that completes, the first `n`
      lines of `b` are handled from the machine and scan state `a` left,
      exactly as if `b` were run alone, with a stop numbered from the start;
      if `a` did not complete, nothing in `b` is looked at. */
  lemma {:induction false} RunFromAppend(m: Machine, sc: Scan, a: seq<string>, b: seq<string>, n: nat, depth: nat)
    requires n <= |b|
    ensures RunFrom(m, sc, a + b, |a| + n, depth) ==
      (var r := RunFrom(m, sc, a, |a|, depth);
       if !r.2.Completed? then r else Shift(RunFrom(r.0, r.1, b, n, depth), |a|))
    decreases n
  {
    if n == 0 {
      RunFromPrefix(m, sc, a, b, |a|, depth);
    } else {
      RunFromAppend(m, sc, a, b, n - 1, depth);
      AppendStep(m, sc, a, b, n, depth);
    }
  }

  /** One more line of `b`: if the lines so far agree, so does the next. */
  lemma AppendStep(m: Machine, sc: Scan, a: seq<string>, b: seq<string>, n: nat, depth: nat)
    requires 0 < n <= |b|
    requires var r := RunFrom(m, sc, a, |a|, depth);
      RunFrom(m, sc, a + b, |a| + n - 1, depth) ==
        if !r.2.Completed? then r else Shift(RunFrom(r.0, r.1, b, n - 1, depth), |a|)
    ensures var r := RunFrom(m, sc, a, |a|, depth);
      RunFrom(m, sc, a + b, |a| + n, depth) ==
        if !r.2.Completed? then r else Shift(RunFrom(r.0, r.1, b, n, depth), |a|)
  {
    assert (a + b)[|a| + n - 1] == b[n - 1];
  }

  /** Once `a` has completed, `run` handles all of `b` from the state `a`
      left. */
  lemma RunAfter(m: Machine, sc: Scan, a: seq<string>, b: seq<string>, depth: nat)
    requires RunFrom(m, sc, a, |a|, depth).2 == Completed
    ensures var r := RunFrom(m, sc, a, |a|, depth);
      RunFrom(m, sc, a + b, |a + b|, depth) == Shift(RunFrom(r.0, r.1, b, |b|, depth), |a|)
  {
    RunFromAppend(m, sc, a, b, |b|, depth);
  }

  /** A script that stops on an error stops the same way whatever follows
      it: the lines after the failing one are never looked at. */
  lemma RunIgnoresRest(m: Machine, code: string, more: string, depth: nat)
    requires !RunCode(m, code, depth).1.Completed?
    ensures RunCode(m, code + "\n" + more, depth) == RunCode(m, code, depth)
  {
    var a, b := Split(code, '\n'), Split(more, '\n');
    SplitAppend(code, more, '\n');
    assert code + "\n" + more == code + ['\n'] + more;
    RunFromPrefix(m, Start, a, b, |a|, depth);
    RunStops(m, Start, a + b, |a + b|, |a|, depth);
  }

  /** When `run` reports an error on line `k`, the lines before it all
      completed, line `k` raised the reported message, and the processor
      keeps everything the earlier lines and the failing line did. */
  lemma {:induction false} StopsAtFailingLine(m: Machine, sc: Scan, lines: seq<string>, n: nat, depth: nat)
    requires n <= |lines|
    ensures var r := RunFrom(m, sc, lines, n, depth);
      r.2.Stopped? ==>
        1 <= r.2.line <= n &&
        var prior := RunFrom(m, sc, lines, r.2.line - 1, depth);
        var f := Feed(prior.0, prior.1, lines[r.2.line - 1], depth);
        prior.2 == Completed && f.2 == Fail(Raised(r.2.message)) && r.0 == f.0 && r.1 == f.1
    decreases n
  {
    if n > 0 {
      StopsAtFailingLine(m, sc, lines, n - 1, depth);
    }
  }

  /** The trimmed lines of a function body, as `run` stores them. */
  function Trimmed(lines: seq<string>): (r: seq<string>)
    ensures |r| == |lines| && forall k :: 0 <= k < |lines| ==> r[k] == Trim(lines[k])
    decreases |lines|
  {
    if lines == [] then [] else Trimmed(lines[..|lines| - 1]) + [Trim(lines[|lines| - 1])]
  }

  /** Lines that `run` collects into a function body rather than acting on. */
  predicate BodyLine(line: string) {
    var t := Trim(line);
    t != "}" && !StartsWith(t, "#[[") && !StartsWith(t, "${")
  }

  /** While a body is being collected, its lines are only collected. */
  lemma {:induction false} CollectBody(m: Machine, sc: Scan, lines: seq<string>, from: nat, m1: Machine, name: string, body: seq<string>, k: nat, depth: nat)
    requires from + |body| <= |lines| && k <= |body|
    requires lines[from..from + |body|] == body
    requires forall j :: 0 <= j < |body| ==> BodyLine(body[j])
    requires RunFrom(m, sc, lines, from, depth) == (m1, Scan(false, true, name, []), Completed)
    ensures RunFrom(m, sc, lines, from + k, depth) == (m1, Scan(false, true, name, Trimmed(body[..k])), Completed)
    decreases k
  {
    if k > 0 {
      CollectBody(m, sc, lines, from, m1, name, body, k - 1, depth);
      assert lines[from + k - 1] == body[k - 1];
      assert body[..k][..k - 1] == body[..k - 1];
      FeedCollects(m1, name, Trimmed(body[..k - 1]), body[k - 1], depth);
    }
  }

  /** While a body is being collected, a body line is only appended to it,
      trimmed. */
  lemma FeedCollects(m: Machine, name: string, body: seq<string>, line: string, depth: nat)
    requires BodyLine(line)
    ensures Feed(m, Scan(false, true, name, body), line, depth) == (m, Scan(false, true, name, body + [Trim(line)]), Done)
  {
  }

  /** Whatever follows `${`, the text stripped by `run` and then by
      `line[2:].strip()` is the trimmed remainder. */
  lemma HeaderName(pre: string, rest: string)
    requires AllIn(pre, Whitespace)
    ensures var t := Trim(pre + "${" + rest);
      StartsWith(t, "${") && Trim(t[2..]) == Trim(rest)
  {
    var a, b := StripParts(rest, Whitespace);
    var core := Trim(rest);
    var h := "${" + a + core;
    assert pre + "${" + rest == pre + h + b;
    StripPadded(pre, h, b, Whitespace);
    var i, j := StripBounds(rest, Whitespace);
    HeaderCore(a, core);
  }

  /** `${`, then padding, then a text without padding at its ends: the
      header trims to everything up to the text, and the name it gives is
      the text. */
  lemma HeaderCore(a: string, core: string)
    requires AllIn(a, Whitespace)
    requires core == [] || (core[0] !in Whitespace && core[|core| - 1] !in Whitespace)
    ensures var t := Trim("${" + a + core);
      StartsWith(t, "${") && Trim(t[2..]) == core
  {
    var h := "${" + a + core;
    if core == [] {
      assert h == [] + "${" + a;
      StripPadded([], "${", a, Whitespace);
      StripNoOp("${", Whitespace);
      assert "${"[2..] == [];
    } else {
      assert h[0] == '$' && h[|h| - 1] == core[|core| - 1];
      StripNoOp(h, Whitespace);
      assert h[2..] == a + core + [];
      StripPadded(a, core, [], Whitespace);
      StripNoOp(core, Whitespace);
    }
  }

  /** A `${ name ` line, with any whitespace around it and around the name,
      starts collecting an empty body named by the trimmed text after `${`. */
  lemma DefinitionOpens(m: Machine, sc: Scan, lines: seq<string>, n: nat, m1: Machine, sc1: Scan, pre: string, rest: string, depth: nat)
    requires n < |lines| && lines[n] == pre + "${" + rest && AllIn(pre, Whitespace)
    requires RunFrom(m, sc, lines, n, depth) == (m1, sc1, Completed) && !sc1.inComment
    ensures RunFrom(m, sc, lines, n + 1, depth) == (m1, Scan(false, true, Trim(rest), []), Completed)
  {
    HeaderName(pre, rest);
    var t := Trim(lines[n]);
    assert !StartsWith(t, "#[[") by { assert t[0] == '$'; }
  }

  /** A line that trims to `}` ends the body being collected and stores it. */
  lemma DefinitionCloses(m: Machine, sc: Scan, lines: seq<string>, n: nat, m1: Machine, name: string, body: seq<string>, depth: nat)
    requires 1 <= n <= |lines| && Trim(lines[n - 1]) == "}"
    requires RunFrom(m, sc, lines, n - 1, depth) == (m1, Scan(false, true, name, body), Completed)
    ensures RunFrom(m, sc, lines, n, depth) ==
      (m1.(functions := m1.functions[name := body]), Scan(false, false, name, body), Completed)
  {
  }

  /** A `${name` ... `}` block stores the trimmed lines between its braces,
      in order, under the name with surrounding whitespace removed,
      replacing any earlier definition, and runs none of them. */
  lemma DefinitionStored(m: Machine, sc: Scan, pre: string, rest: string, body: seq<string>, close: string, depth: nat)
    requires !sc.inComment && AllIn(pre, Whitespace) && Trim(close) == "}"
    requires forall j :: 0 <= j < |body| ==> BodyLine(body[j])
    ensures var lines := Definition(pre, rest, body, close);
      var name := Trim(rest);
      RunFrom(m, sc, lines, |lines|, depth) ==
        (m.(functions := m.functions[name := Trimmed(body)]), Scan(false, false, name, Trimmed(body)), Completed)
  {
    var lines := Definition(pre, rest, body, close);
    DefinitionOpens(m, sc, lines, 0, m, sc, pre, rest, depth);
    assert lines[1..1 + |body|] == body;
    CollectBody(m, sc, lines, 1, m, Trim(rest), body, |body|, depth);
    assert body[..|body|] == body;
    DefinitionCloses(m, sc, lines, |lines|, m, Trim(rest), Trimmed(body), depth);
  }

  /** The `${name` ... `}` block of `Definition`: its header, its body
      lines and its closing line. */
  function Definition(pre: string, rest: string, body: seq<string>, close: string): (lines: seq<string>)
    ensures |lines| == |body| + 2
  {
    [pre + "${" + rest] + body + [close]
  }

  /** Wherever it stands in a script, a definition block reached outside a
      comment stores its trimmed body under its trimmed name, on top of
      what the lines before it left, and changes nothing else. */
  lemma DefinitionStoredAfter(m: Machine, sc: Scan, a: seq<string>, pre: string, rest: string, body: seq<string>, close: string, depth: nat)
    requires AllIn(pre, Whitespace) && Trim(close) == "}"
    requires forall j :: 0 <= j < |body| ==> BodyLine(body[j])
    requires var r := RunFrom(m, sc, a, |a|, depth); r.2 == Completed && !r.1.inComment
    ensures var lines := a + Definition(pre, rest, body, close);
      var r := RunFrom(m, sc, a, |a|, depth);
      RunFrom(m, sc, lines, |lines|, depth) ==
        (r.0.(functions := r.0.functions[Trim(rest) := Trimmed(body)]), Scan(false, false, Trim(rest), Trimmed(body)), Completed)
  {
    var r := RunFrom(m, sc, a, |a|, depth);
    RunAfter(m, sc, a, Definition(pre, rest, body, close), depth);
    DefinitionStored(r.0, r.1, pre, rest, body, close, depth);
  }

  /** Of two definitions of the same name, the later one is the one kept,
      whatever lies between them. */
  lemma LastDefinitionWins(m: Machine, sc: Scan, a: seq<string>, first: seq<string>, between: seq<string>,
                           pre: string, rest: string, body: seq<string>, close: string, depth: nat)
    requires AllIn(pre, Whitespace) && Trim(close) == "}"
    requires forall j :: 0 <= j < |body| ==> BodyLine(body[j])
    requires var r := RunFrom(m, sc, a + first + between, |a + first + between|, depth);
      r.2 == Completed && !r.1.inComment
    ensures var lines := a + first + between + Definition(pre, rest, body, close);
      var r := RunFrom(m, sc, lines, |lines|, depth);
      r.2 == Completed && Trim(rest) in r.0.functions && r.0.functions[Trim(rest)] == Trimmed(body)
  {
    DefinitionStoredAfter(m, sc, a + first + between, pre, rest, body, close, depth);
  }

  /** A call line `~$name` after the definition of `name` runs the body that
      definition stored, from the machine the definition left: the run ends
      with the machine the body leaves, completes when the body does, and
      reports the body's error against the call line. */
  lemma CallAfterDefinition(m: Machine, sc: Scan, a: seq<string>, pre: string, name: string, body: seq<string>, close: string, depth: nat)
    requires AllIn(pre, Whitespace) && Trim(close) == "}" && Word(name)
    requires forall j :: 0 <= j < |body| ==> BodyLine(body[j])
    requires var r := RunFrom(m, sc, a, |a|, depth + 1); r.2 == Completed && !r.1.inComment && GateOpen(r.0)
    ensures var lines := a + Definition(pre, name, body, close) + ["~$" + name];
      var r := RunFrom(m, sc, a, |a|, depth + 1);
      var call := RunBody(r.0.(functions := r.0.functions[name := Trimmed(body)]), Trimmed(body), depth);
      var end := RunFrom(m, sc, lines, |lines|, depth + 1);
      end.0 == call.0 && (end.2 == Completed <==> call.1 == Done) &&
      (call.1.Fail? && call.1.failure.Raised? ==> end.2 == Stopped(|lines|, call.1.failure.message)) &&
      (call.1.Fail? && call.1.failure.Crashed? ==> end.2 == Aborted(call.1.failure.reason))
  {
    WordAvoids(name);
    assert name[0] !in Whitespace by { assert IsWordChar(name[0]); }
    StripNoOp(name, Whitespace);
    var d := a + Definition(pre, name, body, close);
    DefinitionStoredAfter(m, sc, a, pre, name, body, close, depth + 1);
    RunLastLine(m, sc, d, "~$" + name, depth + 1);
    var after := RunFrom(m, sc, d, |d|, depth + 1);
    CallLineRuns(after.0, after.1, name, depth);
  }

  /** The last line of a script is handled on the state the lines before it
      left, and what it reports is what the run reports. */
  lemma RunLastLine(m: Machine, sc: Scan, d: seq<string>, line: string, depth: nat)
    requires RunFrom(m, sc, d, |d|, depth).2 == Completed
    ensures var p := RunFrom(m, sc, d, |d|, depth);
      var f := Feed(p.0, p.1, line, depth);
      var end := RunFrom(m, sc, d + [line], |d + [line]|, depth);
      end.0 == f.0 && end.1 == f.1 && (end.2 == Completed <==> f.2 == Done) &&
      (f.2.Fail? && f.2.failure.Raised? ==> end.2 == Stopped(|d + [line]|, f.2.failure.message)) &&
      (f.2.Fail? && f.2.failure.Crashed? ==> end.2 == Aborted(f.2.failure.reason))
  {
    RunFromPrefix(m, sc, d, [line], |d|, depth);
    assert (d + [line])[|d|] == line;
  }

  /** Outside a comment and a definition, and behind an open gate, the line
      `~$name` runs the body stored under `name`. */
  lemma CallLineRuns(m: Machine, sc: Scan, name: string, depth: nat)
    requires Word(name) && !sc.inComment && !sc.defining && GateOpen(m) && name in m.functions
    ensures var call := RunBody(m, m.functions[name], depth);
      Feed(m, sc, "~$" + name, depth + 1) == (call.0, sc, call.1)
  {
    var line := "~$" + name;
    WordAvoids(name);
    assert line[0] == '~' && line[|line| - 1] == name[|name| - 1];
    StripNoOp(line, Whitespace);
    PlainLineDispatched(m, sc, line, depth + 1);
    CallLineCalls(m, line, depth + 1);
    CallRunsBody(m, name, depth);
  }

  /** Behind an open gate, a line starting with `~$` is a call. */
  lemma CallLineCalls(m: Machine, line: string, depth: nat)
    requires StartsWith(line, "~$") && GateOpen(m)
    ensures Dispatch(m, line, depth) == Call(m, line, depth)
  {
    assert line[0] == '~';
    assert !StartsWith(line, "if") && !StartsWith(line, "elseif") && !StartsWith(line, "else:") && !StartsWith(line, "@");
    assert !StartsWith(line, "terminal.print") && !StartsWith(line, "terminal.set_title");
    assert !StartsWith(line, "cls()") && !StartsWith(line, "json.parse");
    assert !StartsWith(line, "network.ping") && !StartsWith(line, "network.http_check") && !StartsWith(line, "network.send_packet");
  }

  /** Inside a comment span, lines that do not end in `]]` are skipped. */
  lemma {:induction false} SkipComment(m: Machine, sc0: Scan, lines: seq<string>, from: nat, mid: seq<string>, m1: Machine, sc: Scan, k: nat, depth: nat)
    requires from + |mid| <= |lines| && k <= |mid| && lines[from..from + |mid|] == mid
    requires forall j :: 0 <= j < |mid| ==> !EndsWith(Trim(mid[j]), "]]")
    requires sc.inComment && RunFrom(m, sc0, lines, from, depth) == (m1, sc, Completed)
    ensures RunFrom(m, sc0, lines, from + k, depth) == (m1, sc, Completed)
    decreases k
  {
    if k > 0 {
      SkipComment(m, sc0, lines, from, mid, m1, sc, k - 1, depth);
      assert lines[from + k - 1] == mid[k - 1];
    }
  }

  /** A comment span, from a line starting with `#[[` to the next line
      ending in `]]`, is skipped whole: nothing in it is run or collected.
      The opening line is not itself checked for `]]`, so a one-line
      `#[[ ... ]]` comment runs on to the next line that ends in `]]`. */
  lemma CommentSkipped(m: Machine, sc: Scan, first: string, mid: seq<string>, last: string, depth: nat)
    requires !sc.inComment && StartsWith(Trim(first), "#[[")
    requires forall j :: 0 <= j < |mid| ==> !EndsWith(Trim(mid[j]), "]]")
    requires EndsWith(Trim(last), "]]")
    ensures var lines := [first] + mid + [last];
      RunFrom(m, sc, lines, |lines|, depth) == (m, sc, Completed)
  {
    var lines := [first] + mid + [last];
    assert lines[0] == first;
    assert RunFrom(m, sc, lines, 1, depth) == (m, sc.(inComment := true), Completed);
    assert lines[1..1 + |mid|] == mid;
    SkipComment(m, sc, lines, 1, mid, m, sc.(inComment := true), |mid|, depth);
    assert lines[|lines| - 1] == last;
  }

  /** Wherever it stands in a script, a comment span reached outside a
      comment leaves the machine and the scan state as the lines before it
      left them. */
  lemma CommentSkippedAfter(m: Machine, sc: Scan, a: seq<string>, first: string, mid: seq<string>, last: string, depth: nat)
    requires StartsWith(Trim(first), "#[[") && EndsWith(Trim(last), "]]")
    requires forall j :: 0 <= j < |mid| ==> !EndsWith(Trim(mid[j]), "]]")
    requires var r := RunFrom(m, sc, a, |a|, depth); r.2 == Completed && !r.1.inComment
    ensures var lines := a + ([first] + mid + [last]);
      RunFrom(m, sc, lines, |lines|, depth) == RunFrom(m, sc, a, |a|, depth)
  {
    var r := RunFrom(m, sc, a, |a|, depth);
    RunAfter(m, sc, a, [first] + mid + [last], depth);
    CommentSkipped(r.0, r.1, first, mid, last, depth);
  }

  /** A statement line that is already trimmed and is neither a comment
      nor a definition line goes straight to `processLine`. */
  lemma PlainLineDispatched(m: Machine, sc: Scan, line: string, depth: nat)
    requires !sc.inComment && !sc.defining && Trim(line) == line
    requires !StartsWith(line, "#[[") && !StartsWith(line, "${")
    ensures Feed(m, sc, line, depth) == (Dispatch(m, line, depth).0, sc, Dispatch(m, line, depth).1)
  {
  }

  /** A non-empty run of word characters, as `\w+` matches it. */
  predicate Word(name: string) {
    name != [] && forall k :: 0 <= k < |name| ==> IsWordChar(name[k])
  }

  /** A padded, once-quoted text evaluates to the text. */
  lemma QuotedText(vars: Vars, pre: string, text: string, post: string)
    requires AllIn(pre, Whitespace) && AllIn(post, Whitespace) && '+' !in text && '"' !in text
    ensures Evaluate(vars, Trim(pre + "\"" + text + "\"" + post)) == Ok(text)
  {
    var q := "\"" + text + "\"";
    StripPadded(pre, q, post, Whitespace);
    assert pre + q + post == pre + "\"" + text + "\"" + post;
    StripNoOp(q, Whitespace);
    assert Repeat('"', 1) + text + Repeat('"', 1) == q;
    assert text == [] || (text[0] != '"' && text[|text| - 1] != '"');
    EvaluateQuoted(vars, 1, text, 1);
  }

  /** A line starting with `@` behind an open gate is an assignment. */
  lemma AtLineAssigns(m: Machine, line: string, depth: nat)
    requires line != [] && line[0] == '@' && GateOpen(m)
    ensures Dispatch(m, line, depth) == Assign(m, line)
  {
    assert !StartsWith(line, "if") && !StartsWith(line, "elseif") && !StartsWith(line, "else:");
    assert StartsWith(line, "@");
  }

  /** `inputVariable` on `terminal.input("prompt")` followed by blanks and
      `@name`: the prompt is shown first; the first console line is then
      stored verbatim under `name` and consumed, and with no console line
      left the run crashes after the prompt. */
  lemma InputStores(m: Machine, prompt: string, pad: string, name: string)
    requires AllIn(pad, Whitespace) && Word(name)
    ensures var line := InputOpen + prompt + "\")" + pad + "@" + name;
      var prompted := m.(effects := m.effects + [Prompt(prompt)]);
      InputStep(m, line) ==
        if m.stdin == [] then (prompted, Fail(Crashed(EndOfInput)))
        else (prompted.(vars := m.vars[name := m.stdin[0]], stdin := m.stdin[1..]), Done)
  {
    InputWhole(prompt, pad, name);
  }

  /** Behind an open gate, a line starting with `terminal.input` is handed
      to `inputVariable`. */
  lemma InputLineReads(m: Machine, line: string, depth: nat)
    requires StartsWith(line, "terminal.input") && GateOpen(m)
    ensures Dispatch(m, line, depth) == InputStep(m, line)
  {
    assert line[0] == 't' && line[9] == 'i';
    assert !StartsWith(line, "if") && !StartsWith(line, "elseif") && !StartsWith(line, "else:") && !StartsWith(line, "@");
    assert !StartsWith(line, "terminal.print") && !StartsWith(line, "terminal.set_title");
    assert !StartsWith(line, "cls()") && !StartsWith(line, "json.parse") && !StartsWith(line, "~$");
    assert !StartsWith(line, "network.ping") && !StartsWith(line, "network.http_check") && !StartsWith(line, "network.send_packet");
  }

  /** A line starting with `terminal.print` behind an open gate prints. */
  lemma PrintLinePrints(m: Machine, line: string, depth: nat)
    requires StartsWith(line, "terminal.print") && GateOpen(m)
    ensures Dispatch(m, line, depth) == PrintStep(m, line)
  {
    assert line[0] == 't';
    assert !StartsWith(line, "if") && !StartsWith(line, "elseif") && !StartsWith(line, "else:") && !StartsWith(line, "@");
  }

  /** The characters `\w` matches are none of the punctuation the
      interpreter looks for. */
  lemma WordAvoids(name: string)
    requires Word(name)
    ensures '=' !in name && '+' !in name && '\n' !in name && '"' !in name
    ensures name[|name| - 1] !in Whitespace
  {
    forall k | 0 <= k < |name|
      ensures name[k] != '=' && name[k] != '+' && name[k] != '\n' && name[k] != '"'
    {
      assert IsWordChar(name[k]);
    }
    assert IsWordChar(name[|name| - 1]);
  }

  /** Line 1 of the greeting script: `@name = "word"` sets the variable. */
  lemma GreetAssigns(m: Machine, name: string, word: string, depth: nat)
    requires Word(name) && '"' !in word && '+' !in word && GateOpen(m)
    ensures Dispatch(m, AssignLine(name, word), depth) == (m.(vars := m.vars[name := word]), Done)
  {
    GreetAssignStep(m, name, word);
    var line := AssignLine(name, word);
    assert line != [] && line[0] == '@';
    AtLineAssigns(m, line, depth);
  }

  /** `assignVar` on `@name = "word"` sets `name` to `word`. */
  lemma GreetAssignStep(m: Machine, name: string, word: string)
    requires Word(name) && '"' !in word && '+' !in word
    ensures Assign(m, AssignLine(name, word)) == (m.(vars := m.vars[name := word]), Done)
  {
    var expr := " \"" + word + "\"";
    assert "@" + name + " " + "=" + expr == AssignLine(name, word);
    assert Evaluate(m.vars, Trim(expr)) == Ok(word) by {
      assert AllIn(" ", Whitespace);
      QuotedText(m.vars, " ", word, "");
      assert " " + "\"" + word + "\"" + "" == expr;
    }
    AssignLineTrimmed(name, word);
    WordAvoids(name);
    assert AllIn(" ", Whitespace);
    AssignSets(m, name, " ", expr);
  }

  /** `@name = "word"` is already trimmed and does not end in `{`. */
  lemma AssignLineTrimmed(name: string, word: string)
    ensures Trim(AssignLine(name, word)) == AssignLine(name, word)
    ensures !EndsWith(AssignLine(name, word), "{")
  {
    var line := AssignLine(name, word);
    assert line[|line| - 1] == '"' && line[0] == '@';
    StripNoOp(line, Whitespace);
  }

  /** A padded variable read evaluates to the variable. */
  lemma PaddedVariable(vars: Vars, name: string)
    requires Word(name) && name in vars
    ensures Evaluate(vars, Trim(" @" + name)) == Ok(vars[name])
  {
    WordAvoids(name);
    assert AllIn(" ", Whitespace);
    StripPadded(" ", "@" + name, "", Whitespace);
    assert " " + ("@" + name) + "" == " @" + name;
    assert ("@" + name)[|"@" + name| - 1] == name[|name| - 1];
    StripNoOp("@" + name, Whitespace);
    EvaluateVariable(vars, name);
  }

  /** A quoted text followed by a space evaluates to the text. */
  lemma PaddedQuote(vars: Vars, text: string)
    requires '"' !in text && '+' !in text
    ensures Evaluate(vars, Trim("\"" + text + "\" ")) == Ok(text)
  {
    assert AllIn(" ", Whitespace);
    QuotedText(vars, "", text, " ");
    assert "" + "\"" + text + "\"" + " " == "\"" + text + "\" ";
  }

  /** `"greeting" + @name` evaluates to the greeting and the variable. */
  lemma GreetEvaluates(vars: Vars, name: string, greeting: string)
    requires Word(name) && '"' !in greeting && '+' !in greeting && name in vars
    ensures Evaluate(vars, "\"" + greeting + "\" + @" + name) == Ok(greeting + vars[name])
  {
    var x, y := "\"" + greeting + "\" ", " @" + name;
    PaddedQuote(vars, greeting);
    PaddedVariable(vars, name);
    assert "\"" + greeting + "\" + @" + name == x + "+" + y;
    EvaluateConcat(vars, x, y);
  }

  /** Line 2 of the greeting script: `terminal.print("greeting" + @name)`. */
  lemma GreetPrints(m: Machine, name: string, greeting: string, depth: nat)
    requires Word(name) && '"' !in greeting && '+' !in greeting && GateOpen(m) && name in m.vars
    ensures Dispatch(m, PrintLine(greeting, name), depth) == (m.(effects := m.effects + [Print(greeting + m.vars[name])]), Done)
  {
    var expr := "\"" + greeting + "\" + @" + name;
    var line := "terminal.print(" + expr + ")";
    assert line == PrintLine(greeting, name);
    assert Dispatch(m, line, depth) == PrintStep(m, line) by {
      assert line[..14] == "terminal.print";
      PrintLinePrints(m, line, depth);
    }
    GreetTrimmed(m.vars, name, greeting);
    PrintEvaluates(m, expr);
  }

  /** The argument of the print line is already trimmed. */
  lemma GreetTrimmed(vars: Vars, name: string, greeting: string)
    requires Word(name) && '"' !in greeting && '+' !in greeting && name in vars
    ensures Evaluate(vars, Trim("\"" + greeting + "\" + @" + name)) == Ok(greeting + vars[name])
  {
    var expr := "\"" + greeting + "\" + @" + name;
    WordAvoids(name);
    assert expr[0] == '"' && expr[|expr| - 1] == name[|name| - 1];
    StripNoOp(expr, Whitespace);
    GreetEvaluates(vars, name, greeting);
  }

  /** `@name = "text"`: an assignment of a quoted text. */
  function AssignLine(name: string, text: string): string {
    "@" + name + " = \"" + text + "\""
  }

  /** `terminal.print("text" + @name)`: a print of a quoted text followed by
      a variable. */
  function PrintLine(text: string, name: string): string {
    "terminal.print(\"" + text + "\" + @" + name + ")"
  }

  /** The greeting script: `@name = "word"`, then
      `terminal.print("greeting" + @name)`, prints the greeting followed by
      the word on a fresh processor, leaving exactly that variable set. */
  lemma GreetingScript(stdin: seq<string>, name: string, word: string, greeting: string, depth: nat)
    requires Word(name) && '"' !in word && '+' !in word && '"' !in greeting && '+' !in greeting
    requires '\n' !in word && '\n' !in greeting
    ensures RunCode(Initial(stdin), AssignLine(name, word) + "\n" + PrintLine(greeting, name), depth) ==
      (Initial(stdin).(vars := map[name := word], effects := [Print(greeting + word)]), Completed)
  {
    var l1, l2 := AssignLine(name, word), PrintLine(greeting, name);
    GreetSplit(l1, l2, name, word, greeting);
    GreetRun(stdin, name, word, greeting, depth);
  }

  /** The greeting script is two lines. */
  lemma GreetSplit(l1: string, l2: string, name: string, word: string, greeting: string)
    requires Word(name) && '\n' !in word && '\n' !in greeting
    requires l1 == AssignLine(name, word) && l2 == PrintLine(greeting, name)
    ensures Split(l1 + "\n" + l2, '\n') == [l1, l2]
  {
    WordAvoids(name);
    assert '\n' !in l1 && '\n' !in l2;
    SplitAppend(l1, l2, '\n');
    SplitNone(l1, '\n');
    SplitNone(l2, '\n');
  }

  /** Both lines of the greeting script complete, in order. */
  lemma GreetRun(stdin: seq<string>, name: string, word: string, greeting: string, depth: nat)
    requires Word(name) && '"' !in word && '+' !in word && '"' !in greeting && '+' !in greeting
    ensures var m0 := Initial(stdin);
      RunFrom(m0, Start, [AssignLine(name, word), PrintLine(greeting, name)], 2, depth) ==
      (m0.(vars := map[name := word], effects := [Print(greeting + word)]), Start, Completed)
  {
    var l1, l2 := AssignLine(name, word), PrintLine(greeting, name);
    var m0 := Initial(stdin);
    var m1 := m0.(vars := m0.vars[name := word]);
    var m2 := m1.(effects := m1.effects + [Print(greeting + word)]);
    GreetLine1(m0, name, word, depth);
    RunFromNext(m0, Start, [l1, l2], 0, depth, m1, Start);
    GreetLine2(m1, name, greeting, depth);
    RunFromNext(m0, Start, [l1, l2], 1, depth, m2, Start);
    assert m1.vars[name] == word;
    assert m2.effects == [Print(greeting + word)];
    assert m2 == m0.(vars := map[name := word], effects := [Print(greeting + word)]);
  }

  /** `run` handles one more line without failing. */
  lemma RunFromNext(m: Machine, sc: Scan, lines: seq<string>, n: nat, depth: nat, m': Machine, sc': Scan)
    requires n < |lines|
    requires RunFrom(m, sc, lines, n, depth).2 == Completed
    requires var prior := RunFrom(m, sc, lines, n, depth);
      Feed(prior.0, prior.1, lines[n], depth) == (m', sc', Done)
    ensures RunFrom(m, sc, lines, n + 1, depth) == (m', sc', Completed)
  {
  }

  /** `run` hands the assignment line to `processLine`, which assigns. */
  lemma GreetLine1(m: Machine, name: string, word: string, depth: nat)
    requires Word(name) && '"' !in word && '+' !in word && GateOpen(m)
    ensures Feed(m, Start, AssignLine(name, word), depth) == (m.(vars := m.vars[name := word]), Start, Done)
  {
    var line := AssignLine(name, word);
    assert line[0] == '@' && line[|line| - 1] == '"';
    StripNoOp(line, Whitespace);
    PlainLineDispatched(m, Start, line, depth);
    GreetAssigns(m, name, word, depth);
  }

  /** `run` hands the print line to `processLine`, which prints. */
  lemma GreetLine2(m: Machine, name: string, greeting: string, depth: nat)
    requires Word(name) && '"' !in greeting && '+' !in greeting && GateOpen(m) && name in m.vars
    ensures Feed(m, Start, PrintLine(greeting, name), depth) ==
      (m.(effects := m.effects + [Print(greeting + m.vars[name])]), Start, Done)
  {
    var line := PrintLine(greeting, name);
    assert line[0] == 't' && line[|line| - 1] == ')';
    StripNoOp(line, Whitespace);
    PlainLineDispatched(m, Start, line, depth);
    GreetPrints(m, name, greeting, depth);
  }

  /** `@name = "World"` followed by `terminal.print("Hello, " + @name)`
      prints `Hello, World`. */
  lemma HelloWorld(stdin: seq<string>, depth: nat)
    ensures RunCode(Initial(stdin), AssignLine("name", "World") + "\n" + PrintLine("Hello, ", "name"), depth) ==
      (Initial(stdin).(vars := map["name" := "World"], effects := [Print("Hello, World")]), Completed)
  {
    assert Word("name") by {
      forall k | 0 <= k < 4 ensures IsWordChar("name"[k]) { }
    }
    GreetingScript(stdin, "name", "World", "Hello, ", depth);
    assert "Hello, " + "World" == "Hello, World";
  }
}
