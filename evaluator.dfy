/** The expression evaluator and the condition rule of the interpreter
    (`evaluate` and `evaluateCondition` in vpol.py). Both only read the
    variable table, so they are functions of it. */
module Evaluator {
  import opened Outcomes
  import opened Text

  /** The variable table: every value is a string. */
  type Vars = map<string, string>

  const Quote: set<char> := {'"'}

  function UndefinedVariable(name: string): string {
    "Variable '" + name + "' not defined."
  }

  /** The message of a malformed `if` line, which the condition error
      extends. */
  const InvalidIf := "Invalid if statement"
  const OnlyEquality := InvalidIf + ": only '=' comparisons are supported."

  /** What Python says when `left, right = ...` meets more than two pieces. */
  const UnpackError := "ValueError: too many values to unpack (expected 2)"

  /** The failures evaluation can produce: a variable that is read before it
      is assigned, named in the message. */
  ghost predicate IsUndefinedRead(vars: Vars, f: Failure) {
    f.Raised? && exists name :: name !in vars && f.message == UndefinedVariable(name)
  }

  /** `evaluate(expr)`: with a `+`, the evaluations of the trimmed pieces
      between the `+` signs, concatenated left to right; otherwise a variable
      read for `@name`, or the literal with surrounding whitespace and then
      every surrounding double quote removed. */
  function Evaluate(vars: Vars, expr: string): (r: Result<string>)
    ensures r.Err? ==> IsUndefinedRead(vars, r.failure)
    decreases if '+' in expr then 1 else 0, 0, 0
  {
    if '+' in expr then
      SplitLacks(expr, '+');
      EvaluatePieces(vars, Split(expr, '+'))
    else if StartsWith(expr, "@") then
      var name := expr[1..];
      if name in vars then Ok(vars[name]) else Err(Raised(UndefinedVariable(name)))
    else
      Ok(Strip(Trim(expr), Quote))
  }

  /** The accumulating loop of `evaluate` over the pieces of a `+` split:
      each piece is trimmed and evaluated in turn, and the first failure
      ends the loop. */
  function EvaluatePieces(vars: Vars, pieces: seq<string>): (r: Result<string>)
    requires forall p | p in pieces :: '+' !in p
    ensures r.Err? ==> IsUndefinedRead(vars, r.failure)
    decreases 0, 1, |pieces|
  {
    if pieces == [] then Ok("")
    else
      var piece := Trim(pieces[0]);
      assert pieces[0] in pieces;
      TrimKeeps(pieces[0], '+');
      Concat(Evaluate(vars, piece), EvaluatePieces(vars, pieces[1..]))
  }

  /** Trimming never adds a character. */
  lemma TrimKeeps(s: string, c: char)
    requires c !in Whitespace && c !in s
    ensures c !in Trim(s)
  {
    StripKeepsOthers(s, Whitespace, c);
  }

  /** A `+`-free expression `@name` reads the variable, or fails naming it. */
  lemma EvaluateVariable(vars: Vars, name: string)
    requires '+' !in name
    ensures name in vars ==> Evaluate(vars, "@" + name) == Ok(vars[name])
    ensures name !in vars ==> Evaluate(vars, "@" + name) == Err(Raised(UndefinedVariable(name)))
  {
    var e := "@" + name;
    assert e[1..] == name && StartsWith(e, "@");
    assert '+' !in e;
  }

  /** Quoting is undone however many quotes surround the text: a literal
      with `n >= 1` quotes in front and `m >= 1` behind evaluates to the
      text between them, provided it neither starts nor ends with a quote. */
  lemma {:induction false} EvaluateQuoted(vars: Vars, n: nat, text: string, m: nat)
    requires n >= 1 && m >= 1
    requires '+' !in text
    requires text == [] || (text[0] != '"' && text[|text| - 1] != '"')
    ensures Evaluate(vars, Repeat('"', n) + text + Repeat('"', m)) == Ok(text)
  {
    var q1, q2 := Repeat('"', n), Repeat('"', m);
    var e := q1 + text + q2;
    assert e[0] == '"' && e[|e| - 1] == '"';
    assert !StartsWith(e, "@");
    assert '+' !in q1 && '+' !in q2;
    assert '+' !in e;
    StripNoOp(e, Whitespace);
    assert AllIn(q1, Quote) && AllIn(q2, Quote);
    StripPadded(q1, text, q2, Quote);
    StripNoOp(text, Quote);
  }

  function Repeat(c: char, n: nat): (s: string)
    ensures |s| == n && forall k :: 0 <= k < n ==> s[k] == c
  {
    if n == 0 then [] else [c] + Repeat(c, n - 1)
  }

  /** Concatenating piece lists concatenates their evaluations. */
  lemma {:induction false} EvaluatePiecesAppend(vars: Vars, a: seq<string>, b: seq<string>)
    requires forall p | p in a :: '+' !in p
    requires forall p | p in b :: '+' !in p
    ensures EvaluatePieces(vars, a + b) == Concat(EvaluatePieces(vars, a), EvaluatePieces(vars, b))
    decreases |a|
  {
    if a == [] {
      assert a + b == b;
      var rest := EvaluatePieces(vars, b);
      if rest.Ok? { assert "" + rest.value == rest.value; }
    } else {
      var ab := a + b;
      assert ab[0] == a[0] && ab[1..] == a[1..] + b;
      assert forall p | p in a[1..] :: p in a;
      assert a[0] in a;
      EvaluatePiecesAppend(vars, a[1..], b);
      TrimKeeps(a[0], '+');
      var head := Evaluate(vars, Trim(a[0]));
      assert EvaluatePieces(vars, ab) == Concat(head, EvaluatePieces(vars, a[1..] + b));
      assert EvaluatePieces(vars, a) == Concat(head, EvaluatePieces(vars, a[1..]));
      ConcatAssociative(head, EvaluatePieces(vars, a[1..]), EvaluatePieces(vars, b));
    }
  }

  /** Only the trimmed form of each piece matters. */
  lemma {:induction false} EvaluatePiecesTrimmed(vars: Vars, a: seq<string>, b: seq<string>)
    requires forall p | p in a :: '+' !in p
    requires forall p | p in b :: '+' !in p
    requires |a| == |b| && forall k :: 0 <= k < |a| ==> Trim(a[k]) == Trim(b[k])
    ensures EvaluatePieces(vars, a) == EvaluatePieces(vars, b)
    decreases |a|
  {
    if a != [] {
      assert a[0] in a && b[0] in b;
      forall k | 0 <= k < |a| - 1 ensures Trim(a[1..][k]) == Trim(b[1..][k]) {
        assert a[1..][k] == a[k + 1] && b[1..][k] == b[k + 1];
      }
      EvaluatePiecesTrimmed(vars, a[1..], b[1..]);
    }
  }

  /** Whitespace in front of a text only pads its first `+` piece. */
  lemma SplitPaddedFront(pre: string, s: string)
    requires AllIn(pre, Whitespace)
    ensures var p := Split(pre + s, '+'); var q := Split(s, '+');
      |p| == |q| && forall k :: 0 <= k < |p| ==> Trim(p[k]) == Trim(q[k])
  {
    assert '+' !in pre by { forall k | 0 <= k < |pre| ensures pre[k] != '+' { assert pre[k] in Whitespace; } }
    SplitPrefix(pre, s, '+');
    var q := Split(s, '+');
    var p := Split(pre + s, '+');
    assert Trim(p[0]) == Trim(q[0]) by {
      assert p[0] == pre + q[0] + "";
      StripPadded(pre, q[0], "", Whitespace);
      assert q[0] + "" == q[0];
    }
  }

  /** Whitespace behind a text only pads its last `+` piece. */
  lemma SplitPaddedBack(s: string, post: string)
    requires AllIn(post, Whitespace)
    ensures var p := Split(s + post, '+'); var q := Split(s, '+');
      |p| == |q| && forall k :: 0 <= k < |p| ==> Trim(p[k]) == Trim(q[k])
  {
    assert '+' !in post by { forall k | 0 <= k < |post| ensures post[k] != '+' { assert post[k] in Whitespace; } }
    SplitSuffix(s, post, '+');
    var q := Split(s, '+');
    var p := Split(s + post, '+');
    var n := |q| - 1;
    forall k | 0 <= k < |p| ensures Trim(p[k]) == Trim(q[k]) {
      if k == n {
        assert p[n] == "" + q[n] + post;
        StripPadded("", q[n], post, Whitespace);
        assert "" + q[n] == q[n];
      } else {
        assert p[k] == q[k];
      }
    }
  }

  /** Evaluating the pieces of a text is evaluating the trimmed text. */
  lemma PiecesAreTrimmedText(vars: Vars, x: string)
    ensures (SplitLacks(x, '+'); EvaluatePieces(vars, Split(x, '+')) == Evaluate(vars, Trim(x)))
  {
    SplitLacks(x, '+');
    var pre, post := StripParts(x, Whitespace);
    var mid := Trim(x);
    StripKeepsOthers(x, Whitespace, '+');
    if '+' in x {
      SplitPaddedFront(pre, mid + post);
      SplitPaddedBack(mid, post);
      assert pre + mid + post == pre + (mid + post);
      SplitLacks(mid, '+');
      EvaluatePiecesTrimmed(vars, Split(x, '+'), Split(mid, '+'));
    } else {
      SplitNone(x, '+');
      assert EvaluatePieces(vars, [x]) == Concat(Evaluate(vars, mid), EvaluatePieces(vars, []));
      var r := Evaluate(vars, mid);
      if r.Ok? { assert r.value + "" == r.value; }
    }
  }

  /** Concatenation evaluates its two sides independently and left to right:
      `x + y` is the evaluation of the trimmed `x` followed by that of the
      trimmed `y`, and the first failure wins. */
  lemma EvaluateConcat(vars: Vars, x: string, y: string)
    ensures Evaluate(vars, x + "+" + y) == Concat(Evaluate(vars, Trim(x)), Evaluate(vars, Trim(y)))
  {
    var e := x + "+" + y;
    assert '+' in e by { assert e[|x|] == '+'; }
    SplitAppend(x, y, '+');
    assert e == x + ['+'] + y;
    SplitLacks(x, '+');
    SplitLacks(y, '+');
    EvaluatePiecesAppend(vars, Split(x, '+'), Split(y, '+'));
    PiecesAreTrimmedText(vars, x);
    PiecesAreTrimmedText(vars, y);
  }

  /** An empty piece adds nothing: a `+` at either end of an expression
      leaves the evaluation of the rest, trimmed. */
  lemma EmptyPieceAddsNothing(vars: Vars, x: string)
    ensures Evaluate(vars, x + "+") == Evaluate(vars, Trim(x))
    ensures Evaluate(vars, "+" + x) == Evaluate(vars, Trim(x))
  {
    EvaluateConcat(vars, x, "");
    EvaluateConcat(vars, "", x);
    assert x + "+" + "" == x + "+" && "" + "+" + x == "+" + x;
    assert Evaluate(vars, Trim("")) == Ok("");
    var r := Evaluate(vars, Trim(x));
    if r.Ok? { assert r.value + "" == r.value && "" + r.value == r.value; }
  }

  /** A quoted text with no `"` or `+` inside, quoted at one end only,
      evaluates to the text. */
  lemma HalfQuoted(vars: Vars, pre: string, text: string, post: string)
    requires (pre == "\"" && post == []) || (pre == [] && post == "\"")
    requires '"' !in text && '+' !in text
    requires text == [] || (text[0] !in Whitespace && text[|text| - 1] !in Whitespace)
    requires pre == [] && text != [] ==> text[0] != '@'
    ensures Evaluate(vars, Trim(pre + text + post)) == Ok(text)
  {
    var e := pre + text + post;
    if pre == [] {
      assert e == text + "\"";
      assert e[|e| - 1] == '"' && (text == [] || e[0] == text[0]);
    } else {
      assert e == "\"" + text;
      assert e[0] == '"' && (text == [] || e[|e| - 1] == text[|text| - 1]);
    }
    assert e[0] != '@' && e[0] !in Whitespace && e[|e| - 1] !in Whitespace;
    StripNoOp(e, Whitespace);
    assert '+' !in e;
    StripPadded(pre, text, post, Quote);
    assert text == [] || (text[0] !in Quote && text[|text| - 1] !in Quote);
    StripNoOp(text, Quote);
  }

  /** Quotes do not protect a `+`: a quoted text `"a+b"` is cut at the
      `+`, each half loses its own quote, and the result is `a` then `b`
      (were `b` to start with `@`, the second half would be read as a
      variable named up to and including the closing quote). */
  lemma QuotesDoNotProtectPlus(vars: Vars, a: string, b: string)
    requires '"' !in a && '"' !in b && '+' !in a && '+' !in b
    requires a == [] || (a[0] !in Whitespace && a[|a| - 1] !in Whitespace)
    requires b == [] || (b[0] !in Whitespace && b[|b| - 1] !in Whitespace && b[0] != '@')
    ensures Evaluate(vars, "\"" + a + "+" + b + "\"") == Ok(a + b)
  {
    var x, y := "\"" + a, b + "\"";
    assert Evaluate(vars, Trim(x)) == Ok(a) by {
      HalfQuoted(vars, "\"", a, []);
      assert "\"" + a + [] == x;
    }
    assert Evaluate(vars, Trim(y)) == Ok(b) by {
      HalfQuoted(vars, [], b, "\"");
      assert [] + b + "\"" == y;
    }
    assert "\"" + a + "+" + b + "\"" == x + "+" + y;
    EvaluateConcat(vars, x, y);
  }

  /** `evaluateCondition`: the condition is split on every `=`; no `=` is the
      "only '=' comparisons" error, more than one makes the unpacking into
      `left, right` fail, and otherwise the two trimmed sides are evaluated,
      left first, and compared as strings. */
  function EvaluateCondition(vars: Vars, condition: string): (r: Result<bool>)
    ensures r.Err? && r.failure.Raised? ==>
      r.failure.message == OnlyEquality || IsUndefinedRead(vars, r.failure)
    ensures '=' !in condition <==> r == Err(Raised(OnlyEquality))
  {
    if '=' !in condition then Err(Raised(OnlyEquality))
    else
      var parts := Split(condition, '=');
      if |parts| != 2 then Err(Crashed(UnpackError))
      else
        match Evaluate(vars, Trim(parts[0]))
        case Err(f) =>
          UndefinedIsNotOnlyEquality(vars, f);
          Err(f)
        case Ok(left) =>
          match Evaluate(vars, Trim(parts[1]))
          case Err(f) =>
            UndefinedIsNotOnlyEquality(vars, f);
            Err(f)
          case Ok(right) => Ok(left == right)
  }

  /** The message of an undefined read never reads like the "only '='"
      error, so the two failures of a condition cannot be confused. */
  lemma UndefinedIsNotOnlyEquality(vars: Vars, f: Failure)
    requires IsUndefinedRead(vars, f)
    ensures f.message != OnlyEquality
  {
    var name :| name !in vars && f.message == UndefinedVariable(name);
    assert f.message[0] == 'V' && OnlyEquality[0] == 'I';
  }

  /** With exactly one `=`, a condition holds exactly when both sides
      evaluate and give the same string; it fails exactly when a side fails,
      the left side's failure first. */
  lemma ConditionCompares(vars: Vars, a: string, b: string)
    requires '=' !in a && '=' !in b
    ensures var r := EvaluateCondition(vars, a + "=" + b);
      var left, right := Evaluate(vars, Trim(a)), Evaluate(vars, Trim(b));
      (r == Ok(true) <==> left.Ok? && right.Ok? && left.value == right.value) &&
      (r == Ok(false) <==> left.Ok? && right.Ok? && left.value != right.value) &&
      (left.Err? ==> r == Err(left.failure)) &&
      (left.Ok? && right.Err? ==> r == Err(right.failure))
  {
    var c := a + "=" + b;
    assert c[|a|] == '=';
    SplitAppend(a, b, '=');
    assert c == a + ['='] + b;
    SplitNone(a, '=');
    SplitNone(b, '=');
  }

  /** A condition with two or more `=` signs never compares anything. */
  lemma ConditionTooManyEquals(vars: Vars, condition: string)
    requires Count(condition, '=') >= 2
    ensures EvaluateCondition(vars, condition) == Err(Crashed(UnpackError))
  {
    SplitCount(condition, '=');
  }
}
