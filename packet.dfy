/** The argument checks of `network.send_packet` (vpol.py, `sendPacket`):
    the arguments are the trimmed comma-separated pieces of the group, each
    evaluated; there must be exactly four; port and size go through Python's
    `int()`; the protocol must be `tcp` or `udp` in any letter case. The
    packet itself is not built or sent here: a valid call yields the
    `SendPacket` effect that records what would be sent. */
module Packet {
  import opened Outcomes
  import opened Text
  import opened Patterns
  import opened Evaluator

  const PacketOpen := "network.send_packet("
  const InvalidPacket := "Invalid send_packet statement"
  const PacketArity := "send_packet requires 4 arguments: IP, port, protocol, size"
  const BadProtocol := "Protocol must be either 'tcp' or 'udp'"
  /** What `int()` raises on text that is not an integer; nothing catches it. */
  const IntError := "ValueError: invalid literal for int() with base 10"

  predicate IsDigit(c: char) {
    '0' <= c <= '9'
  }

  function DigitValue(c: char): nat
    requires IsDigit(c)
  {
    c as int - '0' as int
  }

  /** The digit part `int()` accepts: decimal digits, with single underscores
      allowed between two digits. */
  predicate WellFormedDigits(s: string) {
    |s| >= 1 && IsDigit(s[0]) && IsDigit(s[|s| - 1]) &&
    (forall k :: 0 <= k < |s| ==> IsDigit(s[k]) || s[k] == '_') &&
    (forall k :: 0 <= k < |s| - 1 ==> s[k] != '_' || s[k + 1] != '_')
  }

  /** The value of a digit string, underscores ignored. */
  function DigitsValue(s: string): nat
    requires forall k :: 0 <= k < |s| ==> IsDigit(s[k]) || s[k] == '_'
    decreases |s|
  {
    if s == [] then 0
    else if s[|s| - 1] == '_' then DigitsValue(s[..|s| - 1])
    else 10 * DigitsValue(s[..|s| - 1]) + DigitValue(s[|s| - 1])
  }

  /** The number of digits in a digit string, underscores not counted and
      leading zeros counted. */
  function DigitCount(s: string): (n: nat)
    ensures n <= |s|
    decreases |s|
  {
    if s == [] then 0
    else DigitCount(s[..|s| - 1]) + (if s[|s| - 1] == '_' then 0 else 1)
  }

  /** CPython's default limit on the number of digits `int()` converts from
      text; longer numbers raise a ValueError. */
  const MaxStrDigits := 4300

  /** The whitespace `int()` skips around a number. CPython first turns every
      non-ASCII `isspace` character into a space and then skips only ASCII
      whitespace, so the four separators U+001C to U+001F, which are ASCII
      but not ASCII whitespace, are not skipped. */
  const IntSpace: set<char> := Whitespace - {'\U{001C}', '\U{001D}', '\U{001E}', '\U{001F}'}

  /** Python's `int(s)` for base 10: surrounding `IntSpace` is ignored, one
      optional sign, then well-formed digits, no more than `MaxStrDigits` of
      them; anything else is a ValueError, here None. */
  function ParseInt(s: string): (r: Option<int>)
    ensures r.Some? ==> exists k :: 0 <= k < |s| && IsDigit(s[k])
  {
    var t := Strip(s, IntSpace);
    var r := ParseNumber(t);
    if r.Some? then
      var k :| 0 <= k < |t| && IsDigit(t[k]);
      assert t[k] in t;
      StripKeepsOthers(s, IntSpace, t[k]);
      r
    else None
  }

  /** `int()` on text with the surrounding whitespace already skipped. */
  function ParseNumber(t: string): (r: Option<int>)
    ensures r.Some? ==> exists k :: 0 <= k < |t| && IsDigit(t[k])
  {
    if t == [] then None
    else
      var negative := t[0] == '-';
      var body := if t[0] == '-' || t[0] == '+' then t[1..] else t;
      if WellFormedDigits(body) && DigitCount(body) <= MaxStrDigits then
        var v: int := DigitsValue(body);
        assert t[|t| - 1] == body[|body| - 1];
        Some(if negative then -v else v)
      else None
  }

  /** The decimal digits of `n`, without leading zeros. */
  function NatDigits(n: nat): (s: string)
    ensures |s| >= 1 && forall k :: 0 <= k < |s| ==> IsDigit(s[k])
    decreases n
  {
    if n < 10 then [('0' as int + n) as char]
    else NatDigits(n / 10) + [('0' as int + n % 10) as char]
  }

  /** `str(n)`: how Python writes an integer. */
  function Decimal(n: int): (s: string)
    ensures |s| >= 1 && IsDigit(s[|s| - 1])
  {
    if n < 0 then "-" + NatDigits(-n) else NatDigits(n)
  }

  lemma {:induction false} NatDigitsValue(n: nat)
    ensures WellFormedDigits(NatDigits(n)) && DigitsValue(NatDigits(n)) == n
    decreases n
  {
    var s := NatDigits(n);
    if n >= 10 {
      NatDigitsValue(n / 10);
      assert s[..|s| - 1] == NatDigits(n / 10);
    }
  }

  /** `int(str(n)) == n` for every integer of at most `MaxStrDigits`
      digits; a longer one is refused. */
  lemma ParseDecimal(n: int)
    ensures |NatDigits(if n < 0 then -n else n)| <= MaxStrDigits ==> ParseInt(Decimal(n)) == Some(n)
    ensures |NatDigits(if n < 0 then -n else n)| > MaxStrDigits ==> ParseInt(Decimal(n)) == None
  {
    var a: nat := if n < 0 then -n else n;
    var d := NatDigits(a);
    NatDigitsValue(a);
    NatDigitsCount(a);
    var sign := if n < 0 then "-" else "";
    ParseSigned(sign, d);
    assert (if sign == "-" then -(DigitsValue(d) as int) else DigitsValue(d)) == n;
    var r := ParseInt(sign + d);
    assert r == if |d| <= MaxStrDigits then Some(n) else None;
    assert Decimal(n) == sign + d;
  }

  /** Every character `str(n)` writes for a natural number is a digit. */
  lemma NatDigitsCount(n: nat)
    ensures DigitCount(NatDigits(n)) == |NatDigits(n)|
  {
    var d := NatDigits(n);
    forall k | 0 <= k < |d| ensures d[k] != '_' { assert IsDigit(d[k]); }
    DigitCountAll(d);
  }

  /** Without underscores, every character is counted. */
  lemma {:induction false} DigitCountAll(s: string)
    requires forall k :: 0 <= k < |s| ==> s[k] != '_'
    ensures DigitCount(s) == |s|
    decreases |s|
  {
    if s != [] {
      DigitCountAll(s[..|s| - 1]);
    }
  }

  /** A well-formed digit string, with or without a minus sign, reads as
      its value when it has at most `MaxStrDigits` digits. */
  lemma ParseSigned(sign: string, d: string)
    requires sign == "" || sign == "-"
    requires WellFormedDigits(d)
    ensures DigitCount(d) <= MaxStrDigits ==>
      ParseInt(sign + d) == Some(if sign == "-" then -(DigitsValue(d) as int) else DigitsValue(d))
    ensures DigitCount(d) > MaxStrDigits ==> ParseInt(sign + d) == None
  {
    var s := sign + d;
    assert s[0] == '-' || IsDigit(s[0]);
    assert s[|s| - 1] == d[|d| - 1];
    ParseUnpadded(s);
    if sign == "-" { assert s[1..] == d; } else { assert s == d; }
  }

  /** Text that neither starts nor ends with whitespace `int()` skips is read
      as it stands. */
  lemma ParseUnpadded(s: string)
    requires s != [] && s[0] !in IntSpace && s[|s| - 1] !in IntSpace
    ensures ParseInt(s) == ParseNumber(s)
  {
    StripNoOp(s, IntSpace);
  }

  /** Leading zeros do not change the value `int()` reads, but they count
      towards its digit limit. */
  lemma LeadingZeros(z: nat, n: nat)
    ensures var s := Repeat('0', z) + NatDigits(n);
      ParseInt(s) == if z + |NatDigits(n)| <= MaxStrDigits then Some(n) else None
  {
    var d := NatDigits(n);
    var s := Repeat('0', z) + d;
    NatDigitsValue(n);
    ZerosWellFormed(z, d);
    ZerosValue(Repeat('0', z), d);
    ParseSigned("", s);
    assert "" + s == s;
    var r := ParseInt(s);
    assert |s| == z + |d|;
    assert r == if |s| <= MaxStrDigits then Some(n) else None;
  }

  /** Zeros in front of well-formed digits keep them well formed, and each
      zero is one more digit. */
  lemma ZerosWellFormed(z: nat, d: string)
    requires WellFormedDigits(d) && forall k :: 0 <= k < |d| ==> IsDigit(d[k])
    ensures var s := Repeat('0', z) + d;
      WellFormedDigits(s) && DigitCount(s) == |s|
  {
    var s := Repeat('0', z) + d;
    forall k | 0 <= k < |s| ensures IsDigit(s[k]) {
      if k < z { assert s[k] == '0'; } else { assert s[k] == d[k - z]; }
    }
    assert s[|s| - 1] == d[|d| - 1];
    forall k | 0 <= k < |s| ensures s[k] != '_' { assert IsDigit(s[k]); }
    DigitCountAll(s);
  }

  /** A prefix of zeros adds nothing to the value of a digit string. */
  lemma {:induction false} ZerosValue(zeros: string, d: string)
    requires forall k :: 0 <= k < |zeros| ==> zeros[k] == '0'
    requires forall k :: 0 <= k < |d| ==> IsDigit(d[k]) || d[k] == '_'
    ensures DigitsValue(zeros + d) == DigitsValue(d)
    decreases |zeros| + |d|
  {
    var s := zeros + d;
    if d == [] {
      assert s == zeros;
      if zeros != [] {
        assert s[..|s| - 1] == zeros[..|zeros| - 1];
        ZerosValue(zeros[..|zeros| - 1], []);
        assert zeros[..|zeros| - 1] + [] == zeros[..|zeros| - 1];
      }
    } else {
      assert s[..|s| - 1] == zeros + d[..|d| - 1];
      ZerosValue(zeros, d[..|d| - 1]);
    }
  }

  /** Whitespace `int()` skips, around a number, does not change what
      `int()` reads. */
  lemma ParsePadded(pre: string, s: string, post: string)
    requires AllIn(pre, IntSpace) && AllIn(post, IntSpace)
    ensures ParseInt(pre + s + post) == ParseInt(s)
  {
    StripPadded(pre, s, post, IntSpace);
  }

  /** Text with a character that is neither a digit, an underscore, a sign nor
      whitespace `int()` skips is never an integer; in particular the
      separators U+001C to U+001F make it fail, wherever they stand. */
  lemma ParseRejects(s: string, c: char)
    requires c in s && !IsDigit(c) && c != '_' && c != '-' && c != '+' && c !in IntSpace
    ensures ParseInt(s) == None
  {
    StripKeepsOthers(s, IntSpace, c);
    var t := Strip(s, IntSpace);
    if t != [] {
      var body := if t[0] == '-' || t[0] == '+' then t[1..] else t;
      var k :| 0 <= k < |t| && t[k] == c;
      assert k > 0 ==> body == t[1..] || body == t;
      if body == t {
        assert !(IsDigit(body[k]) || body[k] == '_');
      } else {
        assert k >= 1 && body[k - 1] == c;
      }
    }
  }

  /** The list comprehension of `sendPacket`: each piece trimmed and
      evaluated, left to right, the first failure ending it. */
  function EvaluateArgs(vars: Vars, pieces: seq<string>): (r: Result<seq<string>>)
    ensures r.Ok? ==> |r.value| == |pieces|
    ensures r.Ok? ==> forall k :: 0 <= k < |pieces| ==> Evaluate(vars, Trim(pieces[k])) == Ok(r.value[k])
    ensures r.Err? ==> exists k :: 0 <= k < |pieces| && FirstFailure(vars, pieces, k, r.failure)
    decreases |pieces|
  {
    if pieces == [] then Ok([])
    else
      match Evaluate(vars, Trim(pieces[0]))
      case Err(f) =>
        assert FirstFailure(vars, pieces, 0, f);
        Err(f)
      case Ok(v) =>
        match EvaluateArgs(vars, pieces[1..])
        case Err(f) =>
          var k :| 0 <= k < |pieces| - 1 && FirstFailure(vars, pieces[1..], k, f);
          assert FirstFailure(vars, pieces, k + 1, f) by {
            forall j | 0 <= j < k + 1 ensures Evaluate(vars, Trim(pieces[j])).Ok? {
              if j > 0 { assert pieces[j] == pieces[1..][j - 1]; }
            }
          }
          Err(f)
        case Ok(rest) => Ok([v] + rest)
  }

  /** Piece `k` is the first whose evaluation fails, and it fails with `f`. */
  predicate FirstFailure(vars: Vars, pieces: seq<string>, k: int, f: Failure) {
    0 <= k < |pieces| &&
    Evaluate(vars, Trim(pieces[k])) == Err(f) &&
    forall j :: 0 <= j < k ==> Evaluate(vars, Trim(pieces[j])).Ok?
  }

  /** What a valid call sends, read from the four argument pieces. */
  predicate SendsFrom(vars: Vars, pieces: seq<string>, e: Effect) {
    e.SendPacket? && |pieces| == 4 &&
    Evaluate(vars, Trim(pieces[0])) == Ok(e.ip) &&
    Evaluate(vars, Trim(pieces[1])).Ok? && ParseInt(Evaluate(vars, Trim(pieces[1])).value) == Some(e.port) &&
    Evaluate(vars, Trim(pieces[2])) == Ok(e.protocol) &&
    Evaluate(vars, Trim(pieces[3])).Ok? && ParseInt(Evaluate(vars, Trim(pieces[3])).value) == Some(e.size)
  }

  predicate KnownProtocol(p: string) {
    Lower(p) == "tcp" || Lower(p) == "udp"
  }

  /** `sendPacket` up to the point where the packet is built: a valid call
      gives the packet to send, an invalid one the failure it raises. */
  function PacketArgs(vars: Vars, line: string): (r: Result<Effect>)
    ensures r.Ok? ==> r.value.SendPacket? && KnownProtocol(r.value.protocol)
    ensures r.Ok? ==> exists i, g :: LazyMatch(line, PacketOpen, ')', i, g) && SendsFrom(vars, Split(g, ','), r.value)
    ensures LazyGroup(line, PacketOpen, ')').None? <==> r == Err(Raised(InvalidPacket))
  {
    match LazyGroup(line, PacketOpen, ')')
    case None => Err(Raised(InvalidPacket))
    case Some(g) =>
      var pieces := Split(g, ',');
      match EvaluateArgs(vars, pieces)
      case Err(f) =>
        assert IsUndefinedRead(vars, f);
        var name :| f.message == UndefinedVariable(name);
        assert f.message[0] == 'V';
        Err(f)
      case Ok(args) =>
        if |args| != 4 then Err(Raised(PacketArity))
        else
          match ParseInt(args[1])
          case None => Err(Crashed(IntError))
          case Some(port) =>
            match ParseInt(args[3])
            case None => Err(Crashed(IntError))
            case Some(size) =>
              if !KnownProtocol(args[2]) then Err(Raised(BadProtocol))
              else
                var e := SendPacket(args[0], port, args[2], size);
                assert SendsFrom(vars, pieces, e);
                Ok(e)
  }

  /** Once four arguments have evaluated, `int()` on the port and then on the
      size comes first, and its ValueError is not caught; only then is the
      protocol checked, and a call that passes all three checks sends the
      packet to the first argument with the parsed port and size. */
  lemma PacketChecks(vars: Vars, line: string, g: string, args: seq<string>)
    requires LazyGroup(line, PacketOpen, ')') == Some(g)
    requires EvaluateArgs(vars, Split(g, ',')) == Ok(args) && |args| == 4
    ensures ParseInt(args[1]).None? ==> PacketArgs(vars, line) == Err(Crashed(IntError))
    ensures ParseInt(args[1]).Some? && ParseInt(args[3]).None? ==>
      PacketArgs(vars, line) == Err(Crashed(IntError))
    ensures ParseInt(args[1]).Some? && ParseInt(args[3]).Some? ==>
      (!KnownProtocol(args[2]) <==> PacketArgs(vars, line) == Err(Raised(BadProtocol))) &&
      (KnownProtocol(args[2]) <==>
        PacketArgs(vars, line) == Ok(SendPacket(args[0], ParseInt(args[1]).value, args[2], ParseInt(args[3]).value)))
  {
  }

  /** When the group holds a number of comma-separated arguments other than
      four and they all evaluate, the call fails with the arity message. */
  lemma PacketArityChecked(vars: Vars, line: string, g: string)
    requires LazyGroup(line, PacketOpen, ')') == Some(g)
    requires EvaluateArgs(vars, Split(g, ',')).Ok?
    ensures |Split(g, ',')| != 4 <==> PacketArgs(vars, line) == Err(Raised(PacketArity))
  {
  }

  /** A failing argument evaluation is reported before the arity is looked
      at: the first argument that fails decides the failure. */
  lemma PacketFirstFailure(vars: Vars, line: string, g: string, k: nat, f: Failure)
    requires LazyGroup(line, PacketOpen, ')') == Some(g)
    requires FirstFailure(vars, Split(g, ','), k, f)
    ensures PacketArgs(vars, line) == Err(f)
  {
    FirstFailureUnique(vars, Split(g, ','), k, f);
  }

  /** The failing argument found by `EvaluateArgs` is the first one. */
  lemma {:induction false} FirstFailureUnique(vars: Vars, pieces: seq<string>, k: nat, f: Failure)
    requires FirstFailure(vars, pieces, k, f)
    ensures EvaluateArgs(vars, pieces) == Err(f)
    decreases k
  {
    if k > 0 {
      assert Evaluate(vars, Trim(pieces[0])).Ok?;
      assert FirstFailure(vars, pieces[1..], k - 1, f) by {
        forall j | 0 <= j < k - 1 ensures Evaluate(vars, Trim(pieces[1..][j])).Ok? {
          assert pieces[1..][j] == pieces[j + 1];
        }
      }
      FirstFailureUnique(vars, pieces[1..], k - 1, f);
    }
  }
}
