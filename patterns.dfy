/** The regular expressions of the interpreter, each replaced by an explicit
    search with the same match. `re.search` takes the leftmost position where
    the pattern can match; from there a greedy group takes as much as it can
    and a lazy one as little. Lines never contain a newline (the runner
    splits on it), so `.` is any character here. */
module Patterns {
  import opened Outcomes
  import opened Text

  /** `pat` occurs in `s` at index `k`. */
  predicate OccursAt(s: string, pat: string, k: int) {
    0 <= k && k + |pat| <= |s| && s[k..k + |pat|] == pat
  }

  /** `k` is the leftmost occurrence of `pat` in `s`. */
  predicate LeftmostAt(s: string, pat: string, k: int) {
    OccursAt(s, pat, k) && forall k' :: 0 <= k' < k ==> !OccursAt(s, pat, k')
  }

  /** The first occurrence of `pat` at or after `from`. */
  function Find(s: string, pat: string, from: nat): (r: Option<nat>)
    ensures r.Some? ==> from <= r.value && OccursAt(s, pat, r.value)
    ensures r.Some? ==> forall k :: from <= k < r.value ==> !OccursAt(s, pat, k)
    ensures r.None? ==> forall k :: from <= k ==> !OccursAt(s, pat, k)
    decreases |s| - from
  {
    if from + |pat| > |s| then None
    else if s[from..from + |pat|] == pat then Some(from)
    else Find(s, pat, from + 1)
  }

  /** The last index of `c` in `s`. */
  function LastIndex(s: string, c: char): (r: Option<nat>)
    ensures r.Some? ==> r.value < |s| && s[r.value] == c
    ensures r.Some? ==> forall k :: r.value < k < |s| ==> s[k] != c
    ensures r.None? ==> forall k :: 0 <= k < |s| ==> s[k] != c
    decreases |s|
  {
    if s == [] then None
    else if s[|s| - 1] == c then Some(|s| - 1)
    else LastIndex(s[..|s| - 1], c)
  }

  /** The first index of `c` in `s` at or after `from`. */
  function FirstIndex(s: string, c: char, from: nat): (r: Option<nat>)
    ensures r.Some? ==> from <= r.value < |s| && s[r.value] == c
    ensures r.Some? ==> forall k :: from <= k < r.value ==> s[k] != c
    ensures r.None? ==> forall k :: from <= k < |s| ==> s[k] != c
    decreases |s| - from
  {
    if from >= |s| then None
    else if s[from] == c then Some(from)
    else FirstIndex(s, c, from + 1)
  }

  /** The group `g` of `open(.{minLen,})close` is matched after the leftmost
      `open`, at index `i`, and is followed by the last `close` of the line. */
  predicate GreedyMatch(line: string, open: string, close: char, minLen: nat, i: int, g: string) {
    LeftmostAt(line, open, i) &&
    var b := i + |open|;
    b + |g| < |line| && line[b..b + |g|] == g && line[b + |g|] == close && |g| >= minLen &&
    (forall k :: b + |g| < k < |line| ==> line[k] != close)
  }

  /** `open(.{minLen,})close`, searched as `re.search` does, with a greedy
      group: the group starts right after the leftmost `open` and ends at
      the last `close` of the line, provided that leaves at least `minLen`
      characters. Used for `if (.+):`, `elseif (.+):` and the
      `name\((.*)\)` forms of the built-in commands. */
  function GreedyGroup(line: string, open: string, close: char, minLen: nat): (r: Option<string>)
    ensures r.Some? ==> exists i :: GreedyMatch(line, open, close, minLen, i, r.value)
    ensures r.None? ==> forall i, j :: OccursAt(line, open, i) && i + |open| + minLen <= j < |line| ==> line[j] != close
  {
    match Find(line, open, 0)
    case None => None
    case Some(i) =>
      var b := i + |open|;
      match LastIndex(line, close)
      case None => None
      case Some(j) =>
        if j >= b + minLen then
          assert GreedyMatch(line, open, close, minLen, i, line[b..j]);
          Some(line[b..j])
        else None
  }

  /** A greedy group needs its closing character somewhere in the line. */
  lemma GreedyNeedsClose(line: string, open: string, close: char, minLen: nat)
    ensures GreedyGroup(line, open, close, minLen).Some? ==> close in line
  {
    if GreedyGroup(line, open, close, minLen).Some? {
      var g := GreedyGroup(line, open, close, minLen).value;
      var i :| GreedyMatch(line, open, close, minLen, i, g);
      assert line[i + |open| + |g|] == close;
    }
  }

  /** The group `g` of `open(.*?)close` is matched after the leftmost `open`,
      at index `i`, and is followed by the first `close` after it. */
  predicate LazyMatch(line: string, open: string, close: char, i: int, g: string) {
    LeftmostAt(line, open, i) &&
    var b := i + |open|;
    b + |g| < |line| && line[b..b + |g|] == g && line[b + |g|] == close && close !in g
  }

  /** `open(.*?)close`, searched as `re.search` does, with a lazy group: the
      group runs from the leftmost `open` to the first `close` after it.
      Used for `network\.send_packet\((.*?)\)`. */
  function LazyGroup(line: string, open: string, close: char): (r: Option<string>)
    ensures r.Some? ==> exists i :: LazyMatch(line, open, close, i, r.value)
    ensures r.None? ==> forall i, j :: OccursAt(line, open, i) && i + |open| <= j < |line| ==> line[j] != close
  {
    match Find(line, open, 0)
    case None => None
    case Some(i) =>
      var b := i + |open|;
      match FirstIndex(line, close, b)
      case None =>
        assert forall i' :: OccursAt(line, open, i') ==> i <= i';
        None
      case Some(j) =>
        var g := line[b..j];
        assert close !in g by {
          forall k | 0 <= k < |g| ensures g[k] != close { assert g[k] == line[b + k]; }
        }
        assert LazyMatch(line, open, close, i, g);
        Some(g)
  }

  /** Python's regex class `\w`, restricted to ASCII; see README. */
  predicate IsWordChar(c: char) {
    'a' <= c <= 'z' || 'A' <= c <= 'Z' || '0' <= c <= '9' || c == '_'
  }

  /** The longest run of word characters starting at index `k`, as `\w+`
      (after at least one) takes it. */
  function WordRun(s: string, k: nat): (w: string)
    ensures k + |w| <= |s| || (k > |s| && w == [])
    ensures k <= |s| ==> w == s[k..k + |w|]
    ensures forall t :: 0 <= t < |w| ==> IsWordChar(w[t])
    ensures k + |w| < |s| ==> !IsWordChar(s[k + |w|])
    decreases |s| - k
  {
    if k < |s| && IsWordChar(s[k]) then [s[k]] + WordRun(s, k + 1) else []
  }

  /** `~\$(\w+)` can match at index `k`. */
  predicate CallAt(line: string, k: int) {
    OccursAt(line, "~$", k) && k + 2 < |line| && IsWordChar(line[k + 2])
  }

  /** The leftmost index at or after `from` where `~\$(\w+)` matches. */
  function FindCall(line: string, from: nat): (r: Option<nat>)
    ensures r.Some? ==> from <= r.value && CallAt(line, r.value)
    ensures r.Some? ==> forall k :: from <= k < r.value ==> !CallAt(line, k)
    ensures r.None? ==> forall k :: from <= k ==> !CallAt(line, k)
    decreases |line| - from
  {
    if from + 2 >= |line| then None
    else if CallAt(line, from) then Some(from)
    else FindCall(line, from + 1)
  }

  /** `i` is the leftmost index where `~\$(\w+)` matches. */
  predicate LeftmostCall(line: string, i: int) {
    CallAt(line, i) && forall k :: 0 <= k < i ==> !CallAt(line, k)
  }

  /** The name that `re.search(r'~\$(\w+)', line)` captures: the word run
      after the leftmost `~$` that is followed by a word character. */
  function CallName(line: string): (r: Option<string>)
    ensures r.Some? ==> r.value != []
    ensures r.Some? ==> exists i :: LeftmostCall(line, i) && r.value == WordRun(line, i + 2)
    ensures r.None? ==> forall k :: !CallAt(line, k)
  {
    match FindCall(line, 0)
    case None =>
      assert forall k :: k < 0 ==> !CallAt(line, k);
      None
    case Some(i) =>
      assert LeftmostCall(line, i);
      Some(WordRun(line, i + 2))
  }

  /** The first index at or after `k` whose character is not whitespace. */
  function SkipSpaces(s: string, k: nat): (t: nat)
    ensures k <= t && (t <= |s| || t == k)
    ensures forall p :: k <= p < t ==> s[p] in Whitespace
    ensures t < |s| ==> s[t] !in Whitespace
    decreases |s| - k
  {
    if k < |s| && s[k] in Whitespace then SkipSpaces(s, k + 1) else k
  }

  /** The rest of `terminal\.input\("(.*)"\)\s*([@]\w+)` matches when the
      group ends at index `k`: a quote and a parenthesis, optional
      whitespace, `@` and a word character. */
  predicate InputTailAt(line: string, k: int) {
    OccursAt(line, "\")", k) &&
    var t := SkipSpaces(line, k + 2);
    t + 1 < |line| && line[t] == '@' && IsWordChar(line[t + 1])
  }

  /** The last index `k` with `from <= k < hi` where the tail matches. */
  function LastInputTail(line: string, from: nat, hi: nat): (r: Option<nat>)
    ensures r.Some? ==> from <= r.value < hi && InputTailAt(line, r.value)
    ensures r.Some? ==> forall k :: r.value < k < hi ==> !InputTailAt(line, k)
    ensures r.None? ==> forall k :: from <= k < hi ==> !InputTailAt(line, k)
    decreases hi
  {
    if hi <= from then None
    else if InputTailAt(line, hi - 1) then Some(hi - 1)
    else LastInputTail(line, from, hi - 1)
  }

  const InputOpen := "terminal.input(\""

  /** The variable named after the tail that starts at index `k`. */
  function InputName(line: string, k: nat): string {
    WordRun(line, SkipSpaces(line, k + 2) + 1)
  }

  /** The prompt `p` is matched after the leftmost `terminal.input("`, at
      index `i`, up to the last place where the tail matches, and `n` is the
      variable name that tail captures. */
  predicate InputMatch(line: string, i: int, p: string, n: string) {
    LeftmostAt(line, InputOpen, i) &&
    var b := i + |InputOpen|;
    var k := b + |p|;
    k <= |line| && line[b..k] == p && InputTailAt(line, k) &&
    (forall k' :: k < k' < |line| ==> !InputTailAt(line, k')) &&
    n == InputName(line, k)
  }

  /** The prompt and the variable name that
      `re.search(r'terminal\.input\("(.*)"\)\s*([@]\w+)', line)` captures
      (the name without its `@`): the prompt runs from the leftmost
      `terminal.input("` to the last place where the tail can match. */
  function InputTarget(line: string): (r: Option<(string, string)>)
    ensures r.Some? ==> r.value.1 != []
    ensures r.Some? ==> exists i :: InputMatch(line, i, r.value.0, r.value.1)
    ensures r.None? ==> forall i, k :: OccursAt(line, InputOpen, i) && i + |InputOpen| <= k ==> !InputTailAt(line, k)
  {
    match Find(line, InputOpen, 0)
    case None => None
    case Some(i) =>
      var b := i + |InputOpen|;
      match LastInputTail(line, b, |line|)
      case None =>
        assert forall k :: |line| <= k ==> !InputTailAt(line, k);
        None
      case Some(k) =>
        InputMatchAt(line, i, k);
        Some((line[b..k], InputName(line, k)))
  }

  /** The leftmost opening at `i` and the last tail at `k` make a match. */
  lemma InputMatchAt(line: string, i: nat, k: nat)
    requires LeftmostAt(line, InputOpen, i) && i + |InputOpen| <= k < |line|
    requires InputTailAt(line, k) && forall k' :: k < k' < |line| ==> !InputTailAt(line, k')
    ensures InputMatch(line, i, line[i + |InputOpen|..k], InputName(line, k))
  {
  }

  /** A line made of `open`, the text `g` and `close` gives `g` as the greedy
      group: the match starts at the front and ends at the final `close`,
      whatever `g` itself contains. */
  lemma GreedyWhole(open: string, g: string, close: char, minLen: nat)
    requires |g| >= minLen
    ensures GreedyGroup(open + g + [close], open, close, minLen) == Some(g)
  {
    var line := open + g + [close];
    assert line[0..|open|] == open;
    assert OccursAt(line, open, 0);
    assert line[|line| - 1] == close;
    assert line[|open|..|line| - 1] == g;
  }

  /** A run of word characters that reaches the end of the text is all of
      the rest of it. */
  lemma {:induction false} WordRunToEnd(s: string, k: nat)
    requires k <= |s| && forall t :: k <= t < |s| ==> IsWordChar(s[t])
    ensures WordRun(s, k) == s[k..]
    decreases |s| - k
  {
    if k < |s| {
      WordRunToEnd(s, k + 1);
      assert s[k..] == [s[k]] + s[k + 1..];
    }
  }

  /** `terminal.input("prompt")`, whitespace, then `@name`: the prompt is
      captured whole, whatever quotes or parentheses it holds, because the
      last place the tail matches is the one before `@name`; the name is
      everything after the `@`. */
  lemma InputWhole(prompt: string, pad: string, name: string)
    requires forall t :: 0 <= t < |pad| ==> pad[t] in Whitespace
    requires name != [] && forall t :: 0 <= t < |name| ==> IsWordChar(name[t])
    ensures InputTarget(InputOpen + prompt + "\")" + pad + "@" + name) == Some((prompt, name))
  {
    var head := InputOpen + prompt;
    var line := head + ("\")" + pad + "@" + name);
    assert line == InputOpen + prompt + "\")" + pad + "@" + name;
    assert line[..|InputOpen|] == InputOpen;
    assert line[|InputOpen|..|head|] == prompt;
    InputTailHere(head, pad, name);
    InputTailOnly(head, pad, name);
    InputTargetAtStart(line, prompt, name);
  }

  /** A line that opens with `terminal.input("`, whose tail matches right
      after `prompt` and nowhere later, targets `prompt` and `name`. */
  lemma InputTargetAtStart(line: string, prompt: string, name: string)
    requires |InputOpen| + |prompt| <= |line| && line[..|InputOpen|] == InputOpen
    requires line[|InputOpen|..|InputOpen| + |prompt|] == prompt
    requires InputTailAt(line, |InputOpen| + |prompt|)
    requires InputName(line, |InputOpen| + |prompt|) == name
    requires forall k' :: |InputOpen| + |prompt| < k' < |line| ==> !InputTailAt(line, k')
    ensures InputTarget(line) == Some((prompt, name))
  {
    assert OccursAt(line, InputOpen, 0);
    assert LastInputTail(line, |InputOpen|, |line|) == Some(|InputOpen| + |prompt|);
  }

  /** In `head + "\")" + pad + "@" + name`, the tail matches at the end of
      `head`, and the name it captures is `name`. */
  lemma InputTailHere(head: string, pad: string, name: string)
    requires forall t :: 0 <= t < |pad| ==> pad[t] in Whitespace
    requires name != [] && forall t :: 0 <= t < |name| ==> IsWordChar(name[t])
    ensures var line := head + ("\")" + pad + "@" + name);
      InputTailAt(line, |head|) && InputName(line, |head|) == name
  {
    var line := head + ("\")" + pad + "@" + name);
    var k := |head|;
    var at := k + 2 + |pad|;
    assert line[k..k + 2] == "\")";
    assert line[k + 2..at] == pad;
    assert line[at] == '@' && line[at + 1..] == name;
    TailAtPad(line, k, |pad|, name);
  }

  /** The tail matches at `k` when `")` is followed by `n` blanks, `@` and a
      word `name` running to the end of the line. */
  lemma TailAtPad(line: string, k: nat, n: nat, name: string)
    requires k + 2 + n < |line| && line[k..k + 2] == "\")"
    requires forall p :: k + 2 <= p < k + 2 + n ==> line[p] in Whitespace
    requires line[k + 2 + n] == '@' && line[k + 3 + n..] == name
    requires name != [] && forall t :: 0 <= t < |name| ==> IsWordChar(name[t])
    ensures InputTailAt(line, k) && InputName(line, k) == name
  {
    SkipPad(line, k + 2, n);
    assert line[k + 3 + n] == name[0];
    WordRunToEnd(line, k + 3 + n);
  }

  /** After the end of `head`, the tail of the input pattern never matches
      again: the rest of the line holds no quote. */
  lemma InputTailOnly(head: string, pad: string, name: string)
    requires forall t :: 0 <= t < |pad| ==> pad[t] in Whitespace
    requires forall t :: 0 <= t < |name| ==> IsWordChar(name[t])
    ensures var line := head + ("\")" + pad + "@" + name);
      forall k' :: |head| < k' < |line| ==> !InputTailAt(line, k')
  {
    var rest := ")" + pad + "@" + name;
    var line := head + ("\"" + rest);
    assert line == head + ("\")" + pad + "@" + name);
    var k := |head|;
    assert '"' !in rest by {
      assert '"' !in pad by { forall t | 0 <= t < |pad| ensures pad[t] != '"' { assert pad[t] in Whitespace; } }
      assert '"' !in name by { forall t | 0 <= t < |name| ensures name[t] != '"' { assert IsWordChar(name[t]); } }
    }
    forall p | k < p < |line| ensures line[p] != '"' {
      assert line[p] == rest[p - k - 1];
    }
    NoTailWithoutQuote(line, k);
  }

  /** The tail starts with a quote, so it cannot match where none follows. */
  lemma NoTailWithoutQuote(line: string, k: nat)
    requires forall p :: k < p < |line| ==> line[p] != '"'
    ensures forall k' :: k < k' < |line| ==> !InputTailAt(line, k')
  {
    forall k' | k < k' < |line| ensures !InputTailAt(line, k') {
      assert line[k'] != '"';
    }
  }

  /** `\s*` from `from` stops exactly after `n` whitespace characters that
      are followed by a character that is not whitespace. */
  lemma {:induction false} SkipPad(line: string, from: nat, n: nat)
    requires from + n < |line| && line[from + n] !in Whitespace
    requires forall p :: from <= p < from + n ==> line[p] in Whitespace
    ensures SkipSpaces(line, from) == from + n
    decreases n
  {
    if n > 0 {
      SkipPad(line, from + 1, n - 1);
    }
  }

  /** `~$name` calls `name` when the name is made of word characters. */
  lemma CallNameWhole(name: string)
    requires name != [] && forall k :: 0 <= k < |name| ==> IsWordChar(name[k])
    ensures CallName("~$" + name) == Some(name)
  {
    var line := "~$" + name;
    assert line[0..2] == "~$" && line[2] == name[0];
    assert CallAt(line, 0);
    assert line[2..] == name;
    WordRunToEnd(line, 2);
  }
}
