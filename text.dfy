/** The string operations the interpreter relies on, with Python's meaning:
    `str.strip()`, `str.strip(chars)`, `str.startswith`, `str.endswith`,
    `str.split(sep)` and `str.lower()` restricted to what is compared. */
module Text {

  /** Exactly the code points for which Python's `str.isspace()` holds; both
      `str.strip()` without arguments and the regex class `\s` use this set. */
  const Whitespace: set<char> := {
    '\t', '\n', '\U{000B}', '\U{000C}', '\r',
    '\U{001C}', '\U{001D}', '\U{001E}', '\U{001F}', ' ',
    '\U{0085}', '\U{00A0}', '\U{1680}',
    '\U{2000}', '\U{2001}', '\U{2002}', '\U{2003}', '\U{2004}', '\U{2005}',
    '\U{2006}', '\U{2007}', '\U{2008}', '\U{2009}', '\U{200A}',
    '\U{2028}', '\U{2029}', '\U{202F}', '\U{205F}', '\U{3000}'
  }

  predicate StartsWith(s: string, prefix: string) {
    |prefix| <= |s| && s[..|prefix|] == prefix
  }

  predicate EndsWith(s: string, suffix: string) {
    |suffix| <= |s| && s[|s| - |suffix|..] == suffix
  }

  /** True when `s` holds only characters of `cs`. */
  predicate AllIn(s: string, cs: set<char>) {
    forall k :: 0 <= k < |s| ==> s[k] in cs
  }

  /** True when `s[i..j]` is what remains of `s` once every leading and
      trailing character from `cs` is removed. */
  predicate IsStripped(s: string, cs: set<char>, i: int, j: int) {
    0 <= i <= j <= |s| &&
    (forall k :: 0 <= k < i ==> s[k] in cs) &&
    (forall k :: j <= k < |s| ==> s[k] in cs) &&
    (i < j ==> s[i] !in cs && s[j - 1] !in cs)
  }

  /** `s` without its trailing characters from `cs`. */
  function DropTrailing(s: string, cs: set<char>): string
    decreases |s|
  {
    if s != [] && s[|s| - 1] in cs then DropTrailing(s[..|s| - 1], cs) else s
  }

  /** Python's `s.strip(cs)`: every leading and trailing character that is in
      `cs` is removed, however many there are. */
  function Strip(s: string, cs: set<char>): string
    decreases |s|
  {
    if s != [] && s[0] in cs then Strip(s[1..], cs) else DropTrailing(s, cs)
  }

  /** Python's `s.strip()`. */
  function Trim(s: string): string {
    Strip(s, Whitespace)
  }

  /** `DropTrailing` keeps a prefix and removes only characters of `cs`,
      ending on one that is not in `cs`. */
  lemma {:induction false} DropTrailingKeeps(s: string, cs: set<char>)
    ensures var r := DropTrailing(s, cs);
      |r| <= |s| && r == s[..|r|] &&
      (forall k :: |r| <= k < |s| ==> s[k] in cs) &&
      (r == [] || r[|r| - 1] !in cs)
    decreases |s|
  {
    if s != [] && s[|s| - 1] in cs {
      var t := s[..|s| - 1];
      DropTrailingKeeps(t, cs);
      var r := DropTrailing(t, cs);
      assert r == s[..|r|];
      forall k | |r| <= k < |s| ensures s[k] in cs {
        if k < |t| { assert s[k] == t[k]; }
      }
    }
  }

  /** `Strip` keeps exactly the text between the padding on either side. */
  lemma {:induction false} StripBounds(s: string, cs: set<char>) returns (i: int, j: int)
    ensures IsStripped(s, cs, i, j) && Strip(s, cs) == s[i..j]
    decreases |s|
  {
    if s != [] && s[0] in cs {
      var t := s[1..];
      var i', j' := StripBounds(t, cs);
      i, j := i' + 1, j' + 1;
      assert s[i..j] == t[i'..j'];
      forall k | 0 <= k < i ensures s[k] in cs {
        if k > 0 { assert s[k] == t[k - 1]; }
      }
      forall k | j <= k < |s| ensures s[k] in cs {
        assert s[k] == t[k - 1];
      }
      if i < j { assert s[i] == t[i'] && s[j - 1] == t[j' - 1]; }
    } else {
      DropTrailingKeeps(s, cs);
      var r := DropTrailing(s, cs);
      if r == [] {
        i, j := |s|, |s|;
        assert s[i..j] == r;
      } else {
        i, j := 0, |r|;
        assert s[0] == r[0] && s[j - 1] == r[|r| - 1];
        assert s[i..j] == r;
      }
    }
  }

  /** The remainder after stripping is determined by the boundaries alone,
      so `Strip` is the one string that the characterisation allows. */
  lemma StripUnique(s: string, cs: set<char>, i: int, j: int)
    requires IsStripped(s, cs, i, j)
    ensures Strip(s, cs) == s[i..j]
  {
    var i', j' := StripBounds(s, cs);
    if i < j {
      assert s[i] !in cs && s[j - 1] !in cs;
      assert i' <= i < j' && i' < j <= j';
      assert s[i'] !in cs && s[j' - 1] !in cs;
      assert i == i' && j == j';
    } else {
      assert forall k :: 0 <= k < |s| ==> s[k] in cs;
      assert i' == j';
      assert s[i'..j'] == [] == s[i..j];
    }
  }

  /** Characters of `cs` added at either end do not survive stripping. */
  lemma StripPadded(pre: string, s: string, post: string, cs: set<char>)
    requires AllIn(pre, cs) && AllIn(post, cs)
    ensures Strip(pre + s + post, cs) == Strip(s, cs)
  {
    var i, j := StripBounds(s, cs);
    var t := pre + s + post;
    var n := |pre|;
    assert t[n + i..n + j] == s[i..j];
    forall k | 0 <= k < n + i ensures t[k] in cs {
      if k < n { assert t[k] == pre[k]; } else { assert t[k] == s[k - n]; }
    }
    forall k | n + j <= k < |t| ensures t[k] in cs {
      if k < n + |s| { assert t[k] == s[k - n]; } else { assert t[k] == post[k - n - |s|]; }
    }
    if i < j {
      assert t[n + i] == s[i] && t[n + j - 1] == s[j - 1];
    }
    assert IsStripped(t, cs, n + i, n + j);
    StripUnique(t, cs, n + i, n + j);
    StripUnique(s, cs, i, j);
  }

  /** Stripping twice is stripping once. */
  lemma StripIdempotent(s: string, cs: set<char>)
    ensures Strip(Strip(s, cs), cs) == Strip(s, cs)
  {
    var i, j := StripBounds(s, cs);
    var r := s[i..j];
    if |r| > 0 {
      assert r[0] == s[i] && r[|r| - 1] == s[j - 1];
    }
    assert IsStripped(r, cs, 0, |r|);
    StripUnique(r, cs, 0, |r|);
  }

  /** Stripping cuts `s` into the padding in front, the kept text and the
      padding behind. */
  lemma StripParts(s: string, cs: set<char>) returns (pre: string, post: string)
    ensures s == pre + Strip(s, cs) + post
    ensures AllIn(pre, cs) && AllIn(post, cs)
  {
    var i, j := StripBounds(s, cs);
    pre, post := s[..i], s[j..];
    assert s == pre + s[i..j] + post;
    forall k | 0 <= k < |pre| ensures pre[k] in cs { assert pre[k] == s[k]; }
    forall k | 0 <= k < |post| ensures post[k] in cs { assert post[k] == s[j + k]; }
  }

  /** A text that neither starts nor ends with a character of `cs` is left
      as it is. */
  lemma StripNoOp(s: string, cs: set<char>)
    requires s == [] || (s[0] !in cs && s[|s| - 1] !in cs)
    ensures Strip(s, cs) == s
  {
    StripUnique(s, cs, 0, |s|);
    assert s[0..|s|] == s;
  }

  /** Stripping removes only characters of `cs`: any other character occurs
      in the stripped text exactly when it occurs in the original. */
  lemma StripKeepsOthers(s: string, cs: set<char>, c: char)
    requires c !in cs
    ensures c in Strip(s, cs) <==> c in s
  {
    var pre, post := StripParts(s, cs);
    var r := Strip(s, cs);
    assert c !in pre by { forall k | 0 <= k < |pre| ensures pre[k] != c { assert pre[k] in cs; } }
    assert c !in post by { forall k | 0 <= k < |post| ensures post[k] != c { assert post[k] in cs; } }
    assert c in s <==> c in pre || c in r || c in post;
  }

  /** Python's `s.split(sep)` for a one-character separator: the pieces
      between the occurrences of `sep`, always at least one. */
  function Split(s: string, sep: char): (parts: seq<string>)
    ensures |parts| >= 1
    decreases |s|
  {
    if s == [] then [""]
    else if s[0] == sep then [""] + Split(s[1..], sep)
    else
      var rest := Split(s[1..], sep);
      [[s[0]] + rest[0]] + rest[1..]
  }

  /** A text without the separator is a single piece. */
  lemma {:induction false} SplitNone(s: string, sep: char)
    requires sep !in s
    ensures Split(s, sep) == [s]
    decreases |s|
  {
    if s != [] {
      assert s[0] != sep && sep !in s[1..];
      SplitNone(s[1..], sep);
      assert [s[0]] + s[1..] == s;
    }
  }

  /** No piece of a split holds the separator. */
  lemma {:induction false} SplitLacks(s: string, sep: char)
    ensures forall p | p in Split(s, sep) :: sep !in p
    decreases |s|
  {
    if s != [] {
      SplitLacks(s[1..], sep);
      var rest := Split(s[1..], sep);
      if s[0] != sep {
        assert rest[0] in rest;
        assert forall p | p in rest[1..] :: p in rest;
      }
    }
  }

  /** Python's `sep.join(parts)`. */
  function Join(parts: seq<string>, sep: char): string
    requires |parts| >= 1
    decreases |parts|
  {
    if |parts| == 1 then parts[0] else parts[0] + [sep] + Join(parts[1..], sep)
  }

  /** Splitting loses nothing: joining the pieces back gives the original. */
  lemma {:induction false} SplitJoin(s: string, sep: char)
    ensures Join(Split(s, sep), sep) == s
    decreases |s|
  {
    if s == [] {
    } else if s[0] == sep {
      SplitJoin(s[1..], sep);
      assert [sep] + s[1..] == s;
    } else {
      var rest := Split(s[1..], sep);
      SplitJoin(s[1..], sep);
      if |rest| == 1 {
        assert [s[0]] + rest[0] == s;
      } else {
        assert Join(rest, sep) == rest[0] + [sep] + Join(rest[1..], sep);
        assert ([s[0]] + rest[0]) + [sep] + Join(rest[1..], sep) == [s[0]] + s[1..];
        assert [s[0]] + s[1..] == s;
      }
    }
  }

  /** A separator splits its two sides independently. */
  lemma {:induction false} SplitAppend(x: string, y: string, sep: char)
    ensures Split(x + [sep] + y, sep) == Split(x, sep) + Split(y, sep)
    decreases |x|
  {
    var t := x + [sep] + y;
    if x == [] {
      assert t[1..] == y;
    } else {
      assert t[0] == x[0];
      assert t[1..] == x[1..] + [sep] + y;
      SplitAppend(x[1..], y, sep);
    }
  }

  /** Adding characters other than the separator at the front of the text
      extends the first piece and nothing else. */
  lemma {:induction false} SplitPrefix(pre: string, s: string, sep: char)
    requires sep !in pre
    ensures var p := Split(s, sep);
      Split(pre + s, sep) == [pre + p[0]] + p[1..]
    decreases |pre|
  {
    if pre != [] {
      var t := pre + s;
      assert t[0] == pre[0] && t[1..] == pre[1..] + s;
      SplitPrefix(pre[1..], s, sep);
      assert [pre[0]] + (pre[1..] + Split(s, sep)[0]) == pre + Split(s, sep)[0];
    } else {
      var p := Split(s, sep);
      assert pre + s == s && pre + p[0] == p[0];
      assert p == [p[0]] + p[1..];
    }
  }

  /** One character in front of a text: a separator opens a new first
      piece, any other character joins the first piece. */
  lemma SplitCons(c: char, s: string, sep: char)
    ensures var q := Split(s, sep);
      Split([c] + s, sep) == if c == sep then [""] + q else [[c] + q[0]] + q[1..]
  {
    assert ([c] + s)[1..] == s;
  }

  /** Adding characters other than the separator at the end of the text
      extends the last piece and nothing else. */
  lemma {:induction false} SplitSuffix(s: string, post: string, sep: char)
    requires sep !in post
    ensures var p := Split(s, sep);
      Split(s + post, sep) == p[..|p| - 1] + [p[|p| - 1] + post]
    decreases |s|
  {
    var p := Split(s, sep);
    if s == [] {
      assert s + post == post;
      SplitNone(post, sep);
      assert p == [""] && "" + post == post;
    } else {
      var c, rest := s[0], s[1..];
      assert s == [c] + rest;
      assert s + post == [c] + (rest + post);
      SplitSuffix(rest, post, sep);
      var q := Split(rest, sep);
      var r := Split(rest + post, sep);
      var last := q[|q| - 1] + post;
      assert r == q[..|q| - 1] + [last];
      SplitCons(c, rest, sep);
      SplitCons(c, rest + post, sep);
      if c == sep {
        assert p == [""] + q;
        assert p[..|p| - 1] == [""] + q[..|q| - 1] && p[|p| - 1] == q[|q| - 1];
        assert [""] + r == ([""] + q[..|q| - 1]) + [last];
      } else if |q| == 1 {
        assert r == [last];
        assert [c] + last == ([c] + q[0]) + post;
      } else {
        assert p == [[c] + q[0]] + q[1..];
        assert p[..|p| - 1] == [[c] + q[0]] + q[1..|q| - 1] && p[|p| - 1] == q[|q| - 1];
        assert r[0] == q[0] && r[1..] == q[1..|q| - 1] + [last];
        assert [[c] + r[0]] + r[1..] == ([[c] + q[0]] + q[1..|q| - 1]) + [last];
      }
    }
  }

  /** The number of pieces is one more than the number of separators. */
  function Count(s: string, c: char): nat
    decreases |s|
  {
    if s == [] then 0 else (if s[0] == c then 1 else 0) + Count(s[1..], c)
  }

  lemma {:induction false} SplitCount(s: string, sep: char)
    ensures |Split(s, sep)| == Count(s, sep) + 1
    decreases |s|
  {
    if s != [] { SplitCount(s[1..], sep); }
  }

  /** ASCII lower-casing. For the only use in the model, comparing with
      "tcp" and "udp", it agrees with Python's `str.lower()`: no non-ASCII
      character lower-cases to one of those letters. */
  function Lower(s: string): (r: string)
    ensures |r| == |s|
    ensures forall k :: 0 <= k < |s| ==> r[k] == LowerChar(s[k])
    decreases |s|
  {
    if s == [] then [] else [LowerChar(s[0])] + Lower(s[1..])
  }

  function LowerChar(c: char): char {
    if 'A' <= c <= 'Z' then (c as int - 'A' as int + 'a' as int) as char else c
  }
}
