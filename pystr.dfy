/**
 * The Python `str` operations the two grid parsers rely on, written out over
 * `string` (a sequence of Unicode scalar values): `isspace`, `strip()`,
 * `splitlines()`, `split()`, `split("\n")`, `startswith`, `endswith` and
 * `list(s)`. `" ".join` and `"\n".join` are here only to write the texts the
 * lemmas about the parsers start from, and to state the round trips of the
 * splitting operations.
 */
module PyStr {

  /** Python's `str.isspace` on one character: the ASCII controls 9..13 and
      28..31, the space, and the Unicode separators Python counts as space. */
  predicate IsSpace(c: char) {
    || c == ' '
    || ('\t' <= c <= '\r')
    || ('\U{1C}' <= c <= '\U{1F}')
    || c == '\U{85}'
    || c == '\U{A0}'
    || c == '\U{1680}'
    || ('\U{2000}' <= c <= '\U{200A}')
    || c == '\U{2028}'
    || c == '\U{2029}'
    || c == '\U{202F}'
    || c == '\U{205F}'
    || c == '\U{3000}'
  }

  /** The line boundaries of Python's `str.splitlines`: \n, \r, \v, \f,
      the file/group/record separators, NEL and the Unicode line and
      paragraph separators (the pair \r\n counts as one boundary). */
  predicate IsLineBreak(c: char) {
    || c == '\n'
    || c == '\r'
    || c == '\U{B}'
    || c == '\U{C}'
    || ('\U{1C}' <= c <= '\U{1E}')
    || c == '\U{85}'
    || c == '\U{2028}'
    || c == '\U{2029}'
  }

  lemma LineBreakIsSpace(c: char)
    requires IsLineBreak(c)
    ensures IsSpace(c)
  {}

  predicate AllSpace(s: string) {
    forall k :: 0 <= k < |s| ==> IsSpace(s[k])
  }

  predicate NoSpace(s: string) {
    forall k :: 0 <= k < |s| ==> !IsSpace(s[k])
  }

  predicate NoBreak(s: string) {
    forall k :: 0 <= k < |s| ==> !IsLineBreak(s[k])
  }

  /** A string that `strip()` leaves alone: empty, or not starting or ending in space. */
  predicate Trimmed(s: string) {
    s == [] || (!IsSpace(s[0]) && !IsSpace(s[|s| - 1]))
  }

  // ---------------------------------------------------------------------
  // strip()
  // ---------------------------------------------------------------------

  /** `s.lstrip()`: the suffix of `s` left after its leading whitespace. */
  function StripLeft(s: string): (r: string)
    ensures |r| <= |s|
    ensures r == [] || !IsSpace(r[0])
  {
    if s != [] && IsSpace(s[0]) then StripLeft(s[1..]) else s
  }

  /** What `lstrip()` keeps is a suffix and what it removes is whitespace. */
  lemma {:induction false} StripLeftSpec(s: string)
    ensures StripLeft(s) == s[|s| - |StripLeft(s)|..]
    ensures AllSpace(s[..|s| - |StripLeft(s)|])
  {
    if s != [] && IsSpace(s[0]) {
      var t := s[1..];
      StripLeftSpec(t);
      var n := |s| - |StripLeft(s)|;
      assert StripLeft(s) == StripLeft(t);
      assert t[n - 1..] == s[n..];
      assert AllSpace(s[..n]) by {
        forall k | 0 <= k < n ensures IsSpace(s[..n][k]) {
          if k > 0 { assert s[..n][k] == t[..n - 1][k - 1]; }
        }
      }
    } else {
      assert s[..0] == [];
    }
  }

  /** `s.rstrip()`: the prefix of `s` left after its trailing whitespace. */
  function StripRight(s: string): (r: string)
    ensures |r| <= |s|
    ensures r == [] || !IsSpace(r[|r| - 1])
  {
    if s != [] && IsSpace(s[|s| - 1]) then StripRight(s[..|s| - 1]) else s
  }

  /** What `rstrip()` keeps is a prefix and what it removes is whitespace. */
  lemma {:induction false} StripRightSpec(s: string)
    ensures StripRight(s) == s[..|StripRight(s)|]
    ensures AllSpace(s[|StripRight(s)|..])
  {
    if s != [] && IsSpace(s[|s| - 1]) {
      var t := s[..|s| - 1];
      StripRightSpec(t);
      var n := |StripRight(s)|;
      assert StripRight(s) == StripRight(t);
      assert t[..n] == s[..n];
      assert AllSpace(s[n..]) by {
        forall k | 0 <= k < |s| - n ensures IsSpace(s[n..][k]) {
          if k < |s| - n - 1 { assert s[n..][k] == t[n..][k]; }
        }
      }
    } else {
      assert s[..|s|] == s;
    }
  }

  /** `s.strip()`: the middle of `s` once whitespace is removed from both
      ends; it neither starts nor ends in whitespace. */
  function Strip(s: string): (r: string)
    ensures |r| <= |s| && Trimmed(r)
  {
    var l := StripLeft(s);
    StripRightSpec(l);
    StripRight(l)
  }

  /** Removing whitespace from the front of a string that starts with `m`. */
  lemma {:induction false} StripLeftUnique(a: string, m: string)
    requires AllSpace(a)
    requires m == [] || !IsSpace(m[0])
    ensures StripLeft(a + m) == m
  {
    if a != [] {
      assert (a + m)[1..] == a[1..] + m;
      StripLeftUnique(a[1..], m);
    } else {
      assert a + m == m;
    }
  }

  lemma {:induction false} StripRightUnique(m: string, b: string)
    requires AllSpace(b)
    requires m == [] || !IsSpace(m[|m| - 1])
    ensures StripRight(m + b) == m
  {
    if b != [] {
      assert (m + b)[..|m + b| - 1] == m + b[..|b| - 1];
      StripRightUnique(m, b[..|b| - 1]);
    } else {
      assert m + b == m;
    }
  }

  /** `strip()` is determined by the characterisation in its contract: whatever
      whitespace surrounds a trimmed middle, the middle is what remains. */
  lemma StripUnique(a: string, m: string, b: string)
    requires AllSpace(a) && AllSpace(b) && Trimmed(m)
    ensures Strip(a + m + b) == m
  {
    if m == [] {
      assert a + m + b == (a + b) + [];
      StripLeftUnique(a + b, []);
    } else {
      assert a + m + b == a + (m + b);
      StripLeftUnique(a, m + b);
      StripRightUnique(m, b);
    }
  }

  lemma StripTrimmed(s: string)
    requires Trimmed(s)
    ensures Strip(s) == s
  {
    StripUnique([], s, []);
    assert [] + s + [] == s;
  }

  /** Two stripped, non-empty pieces joined by a newline are already stripped. */
  lemma TrimmedJoin(a: string, b: string)
    requires a != [] && b != [] && Trimmed(a) && Trimmed(b)
    ensures Strip(a + "\n" + b) == a + "\n" + b
  {
    JoinTrimmed(a, b);
    StripTrimmed(a + "\n" + b);
  }

  lemma JoinTrimmed(a: string, b: string)
    requires a != [] && b != [] && Trimmed(a) && Trimmed(b)
    ensures Trimmed(a + "\n" + b)
  {
    var t := a + "\n" + b;
    assert t[0] == a[0] && t[|t| - 1] == b[|b| - 1];
  }

  /** Stripping twice is stripping once. */
  lemma StripIdempotent(s: string)
    ensures Strip(Strip(s)) == Strip(s)
  {
    StripTrimmed(Strip(s));
  }

  /** The pieces `strip()` keeps or removes: `s` is `a + Strip(s) + b` with
      `a` and `b` all whitespace. */
  lemma StripSplit(s: string) returns (a: string, b: string)
    ensures AllSpace(a) && AllSpace(b) && s == a + Strip(s) + b
  {
    var l := StripLeft(s);
    var m := StripRight(l);
    StripLeftSpec(s);
    StripRightSpec(l);
    a, b := s[..|s| - |l|], l[|m|..];
    SplitAt(l, |m|);
    SplitAt(s, |s| - |l|);
    ConcatAssoc(a, m, b);
  }

  lemma SplitAt<T>(s: seq<T>, n: nat)
    requires n <= |s|
    ensures s == s[..n] + s[n..]
  {}

  lemma ConcatEmpty<T>(a: seq<T>)
    ensures a + [] == a && [] + a == a
  {}

  lemma ConcatAssoc<T>(a: seq<T>, b: seq<T>, c: seq<T>)
    ensures a + (b + c) == (a + b) + c
  {}

  /** Text that is not all whitespace is its leading whitespace followed by
      a non-empty left-stripped part. */
  lemma StripLeftParts(s: string) returns (lead: string)
    requires !AllSpace(s)
    ensures StripLeft(s) != [] && AllSpace(lead) && s == lead + StripLeft(s)
  {
    StripLeftSpec(s);
    lead := s[..|s| - |StripLeft(s)|];
    SplitAt(s, |s| - |StripLeft(s)|);
  }

  /** Text that is not all whitespace is a non-empty right-stripped part
      followed by its trailing whitespace. */
  lemma StripRightParts(s: string) returns (trail: string)
    requires !AllSpace(s)
    ensures StripRight(s) != [] && AllSpace(trail) && s == StripRight(s) + trail
  {
    StripRightSpec(s);
    trail := s[|StripRight(s)|..];
    SplitAt(s, |StripRight(s)|);
  }

  /** Leading whitespace does not change the stripped string. */
  lemma StripSpacePrefix(a: string, t: string)
    requires AllSpace(a)
    ensures Strip(a + t) == Strip(t)
  {
    var x, y := StripSplit(t);
    ConcatAssoc(a, x + Strip(t), y);
    ConcatAssoc(a, x, Strip(t));
    StripUnique(a + x, Strip(t), y);
  }

  /** Trailing whitespace does not change the stripped string. */
  lemma StripSpaceSuffix(t: string, b: string)
    requires AllSpace(b)
    ensures Strip(t + b) == Strip(t)
  {
    var x, y := StripSplit(t);
    ConcatAssoc(x + Strip(t), y, b);
    StripUnique(x, Strip(t), y + b);
  }

  /** `strip()` keeps only characters of its input. */
  lemma StripKeepsOut(s: string, c: char)
    requires c !in s
    ensures c !in Strip(s)
  {
    var a, b := StripSplit(s);
  }

  /** A whitespace character in front of a string makes no difference to `strip()`. */
  lemma StripConsSpace(c: char, s: string)
    requires IsSpace(c)
    ensures Strip([c] + s) == Strip(s)
  {
    var a, b := StripSplit(s);
    assert [c] + s == ([c] + a) + Strip(s) + b;
    assert AllSpace([c] + a) by {
      forall k | 0 <= k < |[c] + a| ensures IsSpace(([c] + a)[k]) {
        if k > 0 { assert ([c] + a)[k] == a[k - 1]; }
      }
    }
    StripUnique([c] + a, Strip(s), b);
  }

  /** Nor does a whitespace character at the end. */
  lemma StripSnocSpace(s: string, c: char)
    requires IsSpace(c)
    ensures Strip(s + [c]) == Strip(s)
  {
    var a, b := StripSplit(s);
    assert s + [c] == a + Strip(s) + (b + [c]);
    assert AllSpace(b + [c]) by {
      forall k | 0 <= k < |b + [c]| ensures IsSpace((b + [c])[k]) {
        if k < |b| { assert (b + [c])[k] == b[k]; }
      }
    }
    StripUnique(a, Strip(s), b + [c]);
  }

  /** `strip()` yields the empty string exactly on all-whitespace input. */
  lemma StripEmptyIff(s: string)
    ensures Strip(s) == [] <==> AllSpace(s)
  {
    var a, b := StripSplit(s);
    if AllSpace(s) {
      StripUnique(s, [], []);
      assert s + [] + [] == s;
    }
    if Strip(s) == [] {
      assert s == a + b;
      forall k | 0 <= k < |s| ensures IsSpace(s[k]) {
        if k < |a| { assert s[k] == a[k]; } else { assert s[k] == b[k - |a|]; }
      }
    }
  }

  // ---------------------------------------------------------------------
  // startswith, endswith, list(s), " ".join, "\n".join
  // ---------------------------------------------------------------------

  predicate StartsWith(s: string, p: string) {
    |p| <= |s| && s[..|p|] == p
  }

  predicate EndsWith(s: string, p: string) {
    |p| <= |s| && s[|s| - |p|..] == p
  }

  /** `list(s)`: the characters of `s`, each as a one-character string. */
  function Chars(s: string): seq<string> {
    seq(|s|, i requires 0 <= i < |s| => [s[i]])
  }

  /** `" ".join(ts)`. */
  function JoinSpace(ts: seq<string>): string {
    if |ts| == 0 then ""
    else if |ts| == 1 then ts[0]
    else ts[0] + " " + JoinSpace(ts[1..])
  }

  /** `"\n".join(ls)`. */
  function JoinNewline(ls: seq<string>): string {
    if |ls| == 0 then ""
    else if |ls| == 1 then ls[0]
    else ls[0] + "\n" + JoinNewline(ls[1..])
  }

  lemma JoinSpaceThree(ts: seq<string>)
    requires |ts| == 3
    ensures JoinSpace(ts) == ts[0] + " " + (ts[1] + " " + ts[2])
  {
    var t1, t2 := ts[1..], ts[1..][1..];
    calc {
      JoinSpace(ts);
      ts[0] + " " + JoinSpace(t1);
      ts[0] + " " + (t1[0] + " " + JoinSpace(t2));
      ts[0] + " " + (ts[1] + " " + ts[2]);
    }
  }

  lemma JoinNewlineThree(ls: seq<string>)
    requires |ls| == 3
    ensures JoinNewline(ls) == ls[0] + "\n" + (ls[1] + "\n" + ls[2])
  {
    var l1, l2 := ls[1..], ls[1..][1..];
    calc {
      JoinNewline(ls);
      ls[0] + "\n" + JoinNewline(l1);
      ls[0] + "\n" + (l1[0] + "\n" + JoinNewline(l2));
      ls[0] + "\n" + (ls[1] + "\n" + ls[2]);
    }
  }

  // ---------------------------------------------------------------------
  // split("\n")
  // ---------------------------------------------------------------------

  /** Index of the first `c` in `s`, or `|s|` when there is none. */
  function IndexOf(s: string, c: char): (i: nat)
    ensures i <= |s| && (i < |s| ==> s[i] == c)
    ensures c !in s[..i]
  {
    if s == [] || s[0] == c then 0 else 1 + IndexOf(s[1..], c)
  }

  lemma IndexOfAt(s: string, c: char, i: nat)
    requires i <= |s| && (i < |s| ==> s[i] == c) && c !in s[..i]
    ensures IndexOf(s, c) == i
  {}

  /** `s.split("\n")`: the pieces between newlines, empty ones included. */
  function SplitNewline(s: string): (r: seq<string>)
    ensures |r| >= 1
    decreases |s|
  {
    var i := IndexOf(s, '\n');
    if i == |s| then [s] else [s[..i]] + SplitNewline(s[i + 1..])
  }

  /** No piece of `split("\n")` holds a newline. */
  lemma {:induction false} SplitNewlinePieces(s: string)
    ensures forall j :: 0 <= j < |SplitNewline(s)| ==> '\n' !in SplitNewline(s)[j]
    decreases |s|
  {
    var i := IndexOf(s, '\n');
    if i == |s| {
      assert s[..i] == s;
      assert SplitNewline(s) == [s];
    } else {
      SplitNewlinePieces(s[i + 1..]);
      SplitNewlineAt(s, i);
      var r := SplitNewline(s[i + 1..]);
      var ls := [s[..i]] + r;
      forall j | 0 <= j < |ls| ensures '\n' !in ls[j] {
        if j > 0 {
          assert ls[j] == r[j - 1];
        }
      }
    }
  }

  /** The first piece ends at the first newline. */
  lemma SplitNewlineAt(s: string, i: nat)
    requires i < |s| && IndexOf(s, '\n') == i
    ensures SplitNewline(s) == [s[..i]] + SplitNewline(s[i + 1..])
  {}

  /** Joining the pieces back with newlines gives the original string. */
  lemma {:induction false} JoinSplitNewline(s: string)
    ensures JoinNewline(SplitNewline(s)) == s
    decreases |s|
  {
    var i := IndexOf(s, '\n');
    if i < |s| {
      var r := SplitNewline(s[i + 1..]);
      JoinSplitNewline(s[i + 1..]);
      JoinNewlineCons(s[..i], r);
      CutAtNewline(s, i);
    }
  }

  /** `"\n".join` puts one newline between a line and the lines after it. */
  lemma JoinNewlineCons(l: string, r: seq<string>)
    requires |r| >= 1
    ensures JoinNewline([l] + r) == l + "\n" + JoinNewline(r)
  {
    assert ([l] + r)[1..] == r;
  }

  lemma CutAtNewline(s: string, i: nat)
    requires i < |s| && s[i] == '\n'
    ensures s == s[..i] + "\n" + s[i + 1..]
  {}

  /** Splitting `a + "\n" + b` at newlines splits `a` and `b` separately. */
  lemma {:induction false} SplitNewlineConcat(a: string, b: string)
    ensures SplitNewline(a + "\n" + b) == SplitNewline(a) + SplitNewline(b)
    decreases |a|
  {
    var s := a + "\n" + b;
    var i := IndexOf(a, '\n');
    TakeBeforeNewline(a, b, i);
    if i == |a| {
      NewlineAfter(a, b);
      IndexOfAt(s, '\n', i);
      SplitNewlineAt(s, i);
      DropPastNewline(a, b, i + 1);
    } else {
      var a' := a[i + 1..];
      IndexOfAt(s, '\n', i);
      SplitNewlineAt(s, i);
      SplitNewlineAt(a, i);
      DropBeforeNewline(a, b, i + 1);
      SplitNewlineConcat(a', b);
      ConcatAssoc([a[..i]], SplitNewline(a'), SplitNewline(b));
    }
  }

  lemma NewlineAfter(x: string, y: string)
    ensures (x + "\n" + y)[|x|] == '\n'
  {}

  /** `split("\n")` undoes `"\n".join` on newline-free pieces. */
  lemma {:induction false} SplitJoinNewline(ls: seq<string>)
    requires |ls| >= 1
    requires forall l :: l in ls ==> '\n' !in l
    ensures SplitNewline(JoinNewline(ls)) == ls
    decreases |ls|
  {
    if |ls| == 1 {
      assert ls[0] in ls;
      assert ls[0][..|ls[0]|] == ls[0];
      IndexOfAt(ls[0], '\n', |ls[0]|);
    } else {
      assert ls[0] in ls;
      SplitJoinNewline(ls[1..]);
      SplitNewlineConcat(ls[0], JoinNewline(ls[1..]));
      SplitJoinNewline([ls[0]]);
      assert ls == [ls[0]] + ls[1..];
    }
  }

  // ---------------------------------------------------------------------
  // split()
  // ---------------------------------------------------------------------

  /** Index of the first whitespace character of `s`, or `|s|`. */
  function FirstSpace(s: string): (i: nat)
    ensures i <= |s| && (i < |s| ==> IsSpace(s[i]))
  {
    if s == [] || IsSpace(s[0]) then 0 else 1 + FirstSpace(s[1..])
  }

  /** No whitespace comes before the first whitespace character. */
  lemma {:induction false} FirstSpacePrefix(s: string)
    ensures NoSpace(s[..FirstSpace(s)])
  {
    if s != [] && !IsSpace(s[0]) {
      FirstSpacePrefix(s[1..]);
      var i := FirstSpace(s);
      forall k | 0 <= k < i ensures !IsSpace(s[..i][k]) {
        if k > 0 { assert s[..i][k] == s[1..][..i - 1][k - 1]; }
      }
    }
  }

  lemma FirstSpaceAt(s: string, i: nat)
    requires i <= |s| && (i < |s| ==> IsSpace(s[i])) && NoSpace(s[..i])
    ensures FirstSpace(s) == i
  {
    if i > 0 {
      assert s[..i][0] == s[0];
      assert s[1..][..i - 1] == s[..i][1..];
      FirstSpaceAt(s[1..], i - 1);
    }
  }

  /** `s.split()` with no separator: the maximal runs of non-whitespace. */
  function SplitWs(s: string): (r: seq<string>)
    decreases |s|
  {
    var t := StripLeft(s);
    if t == [] then []
    else
      var i := FirstSpace(t);
      [t[..i]] + SplitWs(t[i..])
  }

  /** Non-empty tokens free of whitespace, as `split()` produces them. */
  predicate Tokens(ts: seq<string>) {
    forall i :: 0 <= i < |ts| ==> ts[i] != [] && NoSpace(ts[i])
  }

  /** Every piece `split()` returns is a non-empty run of non-whitespace. */
  lemma {:induction false} SplitWsTokens(s: string)
    ensures Tokens(SplitWs(s))
    decreases |s|
  {
    var t := StripLeft(s);
    if t != [] {
      var i := FirstSpace(t);
      FirstSpacePrefix(t);
      SplitWsTokens(t[i..]);
      var r := SplitWs(t[i..]);
      var ws := SplitWs(s);
      assert ws == [t[..i]] + r;
      forall j | 0 <= j < |ws| ensures ws[j] != [] && NoSpace(ws[j]) {
        if j > 0 {
          assert ws[j] == r[j - 1];
        } else {
          assert t[..i][0] == t[0];
        }
      }
    }
  }

  /** `split()` finds no token exactly in all-whitespace text. */
  lemma SplitWsEmptyIff(s: string)
    ensures SplitWs(s) == [] <==> AllSpace(s)
  {
    var t := StripLeft(s);
    StripLeftSpec(s);
    if t == [] {
      assert s[..|s|] == s;
    } else {
      assert s[|s| - |t|] == t[0];
    }
  }

  lemma SplitWsConsSpace(c: char, s: string)
    requires IsSpace(c)
    ensures SplitWs([c] + s) == SplitWs(s)
  {
    assert ([c] + s)[1..] == s;
  }

  /** A non-empty run of non-whitespace is one token. */
  lemma SplitWsToken(w: string)
    requires w != [] && NoSpace(w)
    ensures SplitWs(w) == [w]
  {
    StripLeftUnique([], w);
    assert [] + w == w;
    assert w[..|w|] == w;
    FirstSpaceAt(w, |w|);
  }

  /** A text that starts with a token splits into that token and the rest. */
  lemma SplitWsAt(s: string, i: nat)
    requires s != [] && !IsSpace(s[0]) && FirstSpace(s) == i
    ensures SplitWs(s) == [s[..i]] + SplitWs(s[i..])
  {}

  /** A token followed by any whitespace character is split off as the first token. */
  lemma SplitWsTokenThen(w: string, c: char, rest: string)
    requires w != [] && NoSpace(w) && IsSpace(c)
    ensures SplitWs(w + [c] + rest) == [w] + SplitWs(rest)
  {
    var s := w + [c] + rest;
    TokenThenParts(w, c, rest);
    FirstSpaceAt(s, |w|);
    SplitWsAt(s, |w|);
    SplitWsConsSpace(c, rest);
  }

  lemma TokenThenParts(w: string, c: char, rest: string)
    requires w != []
    ensures var s := w + [c] + rest;
            s[0] == w[0] && s[..|w|] == w && s[|w|] == c && s[|w|..] == [c] + rest
  {}

  /** `split()` undoes `" ".join` on non-empty whitespace-free tokens. */
  lemma {:induction false} SplitJoinSpace(ts: seq<string>)
    requires Tokens(ts)
    ensures SplitWs(JoinSpace(ts)) == ts
  {
    if |ts| == 0 {
      assert SplitWs(JoinSpace(ts)) == ts;
    } else if |ts| == 1 {
      SplitWsToken(ts[0]);
      assert SplitWs(JoinSpace(ts)) == ts;
    } else {
      var w, rest := ts[0], ts[1..];
      assert Tokens(rest) by {
        forall i | 0 <= i < |rest| ensures rest[i] != [] && NoSpace(rest[i]) {
          assert rest[i] == ts[i + 1];
        }
      }
      calc {
        SplitWs(JoinSpace(ts));
        SplitWs(w + " " + JoinSpace(rest));
        { SplitWsTokenThen(w, ' ', JoinSpace(rest)); }
        [w] + SplitWs(JoinSpace(rest));
        { SplitJoinSpace(rest); }
        [w] + rest;
        ts;
      }
    }
  }

  /** Spacing out a run of non-whitespace characters and splitting it again
      gives its characters. */
  lemma SplitSpacedChars(s: string)
    requires NoSpace(s)
    ensures SplitWs(JoinSpace(Chars(s))) == Chars(s)
  {
    SplitJoinSpace(Chars(s));
  }

  // ---------------------------------------------------------------------
  // splitlines()
  // ---------------------------------------------------------------------

  /** Index of the first line boundary in `s`, or `|s|`. */
  function FirstBreak(s: string): (i: nat)
    ensures i <= |s| && (i < |s| ==> IsLineBreak(s[i]))
  {
    if s == [] || IsLineBreak(s[0]) then 0 else 1 + FirstBreak(s[1..])
  }

  /** No line boundary comes before the first one. */
  lemma {:induction false} FirstBreakPrefix(s: string)
    ensures NoBreak(s[..FirstBreak(s)])
  {
    if s != [] && !IsLineBreak(s[0]) {
      FirstBreakPrefix(s[1..]);
      var i := FirstBreak(s);
      forall k | 0 <= k < i ensures !IsLineBreak(s[..i][k]) {
        if k > 0 { assert s[..i][k] == s[1..][..i - 1][k - 1]; }
      }
    }
  }

  lemma FirstBreakAt(s: string, i: nat)
    requires i <= |s| && (i < |s| ==> IsLineBreak(s[i])) && NoBreak(s[..i])
    ensures FirstBreak(s) == i
  {
    if i > 0 {
      assert s[..i][0] == s[0];
      assert s[1..][..i - 1] == s[..i][1..];
      FirstBreakAt(s[1..], i - 1);
    }
  }

  /** Length of the boundary at `i`: two for the pair \r\n, otherwise one. */
  function BreakWidth(s: string, i: nat): nat
    requires i < |s|
  {
    if s[i] == '\r' && i + 1 < |s| && s[i + 1] == '\n' then 2 else 1
  }

  /** `s.splitlines()`: the lines of `s` without their boundaries; a final
      boundary does not open an empty last line, and "" has no lines. */
  function SplitLines(s: string): (r: seq<string>)
    ensures r == [] <==> s == []
    decreases |s|
  {
    if s == [] then []
    else
      var i := FirstBreak(s);
      if i == |s| then [s] else [s[..i]] + SplitLines(s[i + BreakWidth(s, i)..])
  }

  /** A text without boundaries is one line. */
  lemma SplitLinesSingle(s: string)
    requires s != [] && NoBreak(s)
    ensures SplitLines(s) == [s]
  {
    assert s[..|s|] == s;
    FirstBreakAt(s, |s|);
  }

  /** A line without boundaries followed by a newline is split off first. */
  lemma SplitLinesHead(x: string, y: string)
    requires NoBreak(x)
    ensures SplitLines(x + "\n" + y) == [x] + SplitLines(y)
  {
    var s := x + "\n" + y;
    assert s[..|x|] == x;
    FirstBreakAt(s, |x|);
    assert s[|x| + 1..] == y;
  }

  /** `splitlines()` undoes `"\n".join` when no line holds a boundary and
      the last line is not empty. */
  lemma {:induction false} SplitLinesJoin(ls: seq<string>)
    requires |ls| >= 1 && ls[|ls| - 1] != []
    requires forall i :: 0 <= i < |ls| ==> NoBreak(ls[i])
    ensures SplitLines(JoinNewline(ls)) == ls
    decreases |ls|
  {
    if |ls| == 1 {
      SplitLinesSingle(ls[0]);
      assert SplitLines(JoinNewline(ls)) == ls;
    } else {
      var rest := ls[1..];
      assert forall i :: 0 <= i < |rest| ==> NoBreak(rest[i]) by {
        forall i | 0 <= i < |rest| ensures NoBreak(rest[i]) { assert rest[i] == ls[i + 1]; }
      }
      SplitLinesJoin(rest);
      SplitLinesHead(ls[0], JoinNewline(rest));
      assert ls == [ls[0]] + rest;
      assert SplitLines(JoinNewline(ls)) == ls;
    }
  }

  /** The first line ends at the first boundary and the rest follows it. */
  lemma SplitLinesAt(s: string, i: nat)
    requires i < |s| && FirstBreak(s) == i
    ensures SplitLines(s) == [s[..i]] + SplitLines(s[i + BreakWidth(s, i)..])
  {}

  /** A newline after `x` does not move the first boundary of `x`, if any. */
  lemma {:induction false} FirstBreakBeforeNewline(x: string, y: string)
    ensures FirstBreak(x + "\n" + y) == FirstBreak(x)
  {
    var s := x + "\n" + y;
    if x == [] {
      assert s[0] == '\n';
    } else {
      assert s[0] == x[0];
      if !IsLineBreak(x[0]) {
        assert s[1..] == x[1..] + "\n" + y;
        FirstBreakBeforeNewline(x[1..], y);
      }
    }
  }

  /** Nor what follows it changes the width of that boundary. */
  lemma BreakWidthBeforeNewline(x: string, y: string, i: nat)
    requires i <= |x|
    ensures BreakWidth(x + "\n" + y, i) == BreakWidth(x + "\n", i)
  {
    var s, t := x + "\n" + y, x + "\n";
    assert s[i] == t[i];
    if i + 1 < |t| {
      assert s[i + 1] == t[i + 1];
    }
  }

  lemma AppendEmpty(s: string)
    ensures s + [] == s
  {}


  lemma TakeBeforeNewline(x: string, y: string, n: nat)
    requires n <= |x|
    ensures (x + "\n" + y)[..n] == (x + "\n")[..n] == x[..n]
  {}

  lemma DropBeforeNewline(x: string, y: string, n: nat)
    requires n <= |x|
    ensures (x + "\n" + y)[n..] == x[n..] + "\n" + y
  {}

  lemma DropPastNewline(x: string, y: string, n: nat)
    requires n == |x| + 1
    ensures (x + "\n" + y)[n..] == y
  {}

  /** Cutting `x + "\n" + y` into lines cuts `x + "\n"` and `y` separately:
      a newline ends every line before it. */
  lemma {:induction false} SplitLinesAfterNewline(x: string, y: string)
    ensures SplitLines(x + "\n" + y) == SplitLines(x + "\n") + SplitLines(y)
    decreases |x|
  {
    var s, t := x + "\n" + y, x + "\n";
    var i := FirstBreak(x);
    FirstBreakBeforeNewline(x, y);
    FirstBreakBeforeNewline(x, []);
    AppendEmpty(t);
    SplitLinesAt(s, i);
    SplitLinesAt(t, i);
    var w := BreakWidth(t, i);
    BreakWidthBeforeNewline(x, y, i);
    TakeBeforeNewline(x, y, i);
    var head := [t[..i]];
    if i + w > |x| {
      DropPastNewline(x, y, i + w);
      DropPastNewline(x, [], i + w);
      ConcatEmpty(head);
    } else {
      var x' := x[i + w..];
      DropBeforeNewline(x, y, i + w);
      DropBeforeNewline(x, [], i + w);
      AppendEmpty(x' + "\n");
      SplitLinesAfterNewline(x', y);
      ConcatAssoc(head, SplitLines(x' + "\n"), SplitLines(y));
    }
  }

  /** Every line of `s` is made of characters of `s`. */
  lemma {:induction false} SplitLinesChars(s: string, c: char)
    requires c !in s
    ensures forall l :: l in SplitLines(s) ==> c !in l
    decreases |s|
  {
    if s != [] {
      var i := FirstBreak(s);
      if i < |s| {
        var rest := s[i + BreakWidth(s, i)..];
        assert c !in rest && c !in s[..i];
        SplitLinesChars(rest, c);
      }
    }
  }

  // ---------------------------------------------------------------------
  // [l.strip() for l in lines if l.strip()]
  // ---------------------------------------------------------------------

  /** The comprehension both grid parsers use: every line stripped, and the
      ones that strip to nothing dropped. */
  function StrippedNonBlank(lines: seq<string>): (r: seq<string>)
    ensures |r| <= |lines|
  {
    if lines == [] then []
    else
      var l := Strip(lines[0]);
      (if l == [] then [] else [l]) + StrippedNonBlank(lines[1..])
  }

  /** Every line the comprehension keeps is non-empty and stripped. */
  lemma {:induction false} StrippedNonBlankLines(lines: seq<string>)
    ensures forall j :: 0 <= j < |StrippedNonBlank(lines)| ==>
              StrippedNonBlank(lines)[j] != [] && Trimmed(StrippedNonBlank(lines)[j])
  {
    if lines != [] {
      StrippedNonBlankLines(lines[1..]);
      var l := Strip(lines[0]);
      var r := StrippedNonBlank(lines[1..]);
      var h := if l == [] then [] else [l];
      assert StrippedNonBlank(lines) == h + r;
      forall j | 0 <= j < |h + r| ensures (h + r)[j] != [] && Trimmed((h + r)[j]) {
        if j >= |h| { assert (h + r)[j] == r[j - |h|]; }
      }
    }
  }

  /** The empty text splits to one empty line, which is then dropped. */
  lemma NoLinesOfEmpty()
    ensures StrippedNonBlank(SplitNewline([])) == []
  {
    assert SplitNewline([]) == [[]];
    assert Strip([]) == [];
  }

  /** Lines that are already stripped and non-blank pass through unchanged,
      so the comprehension is idempotent. */
  lemma {:induction false} StrippedNonBlankKeeps(lines: seq<string>)
    requires forall i :: 0 <= i < |lines| ==> lines[i] != [] && Trimmed(lines[i])
    ensures StrippedNonBlank(lines) == lines
  {
    if lines != [] {
      StripTrimmed(lines[0]);
      StrippedNonBlankKeeps(lines[1..]);
      assert lines == [lines[0]] + lines[1..];
    }
  }

  lemma StrippedNonBlankIdempotent(lines: seq<string>)
    ensures StrippedNonBlank(StrippedNonBlank(lines)) == StrippedNonBlank(lines)
  {
    StrippedNonBlankLines(lines);
    StrippedNonBlankKeeps(StrippedNonBlank(lines));
  }

  lemma {:induction false} StrippedNonBlankAppend(a: seq<string>, b: seq<string>)
    ensures StrippedNonBlank(a + b) == StrippedNonBlank(a) + StrippedNonBlank(b)
  {
    if a == [] {
      assert a + b == b;
    } else {
      assert (a + b)[0] == a[0] && (a + b)[1..] == a[1..] + b;
      StrippedNonBlankAppend(a[1..], b);
    }
  }

  /** A line boundary in front of a text only opens an empty first line. */
  lemma StrippedLinesConsBreak(c: char, s: string)
    requires IsLineBreak(c)
    ensures StrippedNonBlank(SplitLines([c] + s)) == StrippedNonBlank(SplitLines(s))
  {
    var cs := [c] + s;
    assert cs[1..] == s;
    assert cs[..0] == [];
    FirstBreakAt(cs, 0);
    var w := BreakWidth(cs, 0);
    assert SplitLines(cs) == [[]] + SplitLines(cs[w..]);
    if w == 2 {
      assert cs[2..] == s[1..];
      assert s[..0] == [];
      FirstBreakAt(s, 0);
      assert SplitLines(s) == [[]] + SplitLines(s[1..]);
      assert StrippedNonBlank(SplitLines(cs)) == StrippedNonBlank(SplitLines(s));
    } else {
      assert cs[1..] == s;
      assert StrippedNonBlank(SplitLines(cs)) == StrippedNonBlank(SplitLines(s));
    }
  }

  /** The lines after the first one of a non-empty text. */
  function LaterLines(s: string): seq<string>
    requires s != []
  {
    var i := FirstBreak(s);
    if i == |s| then [] else SplitLines(s[i + BreakWidth(s, i)..])
  }

  /** The first line of a non-empty text runs up to its first boundary. */
  lemma SplitLinesFirst(s: string)
    requires s != []
    ensures SplitLines(s) == [s[..FirstBreak(s)]] + LaterLines(s)
  {
    var i := FirstBreak(s);
    if i == |s| {
      assert s[..i] == s;
      ConcatEmpty([s]);
    }
  }

  /** A character that is not a boundary joins the first line. */
  lemma SplitLinesConsChar(c: char, s: string)
    requires !IsLineBreak(c) && s != []
    ensures SplitLines([c] + s) == [[c] + s[..FirstBreak(s)]] + LaterLines(s)
  {
    var cs := [c] + s;
    var i := FirstBreak(s);
    FirstBreakPrefix(s);
    var p := cs[..i + 1];
    assert p == [c] + s[..i];
    assert NoBreak(p) by {
      forall k | 0 < k < |p| ensures !IsLineBreak(p[k]) {
        assert p[k] == s[..i][k - 1];
      }
    }
    FirstBreakAt(cs, i + 1);
    SplitLinesFirst(cs);
    if i < |s| {
      var w := BreakWidth(s, i);
      assert cs[i + 1] == s[i];
      assert BreakWidth(cs, i + 1) == w;
      assert cs[i + 1 + w..] == s[i + w..];
    }
  }

  /** Lines that strip alike are kept or dropped alike. */
  lemma StrippedNonBlankOne(x: string, y: string)
    requires Strip(x) == Strip(y)
    ensures StrippedNonBlank([x]) == StrippedNonBlank([y])
  {
    assert [x][1..] == [] == [y][1..];
  }

  /** Whitespace that is not a boundary joins the first line and is stripped off it. */
  lemma StrippedLinesConsBlank(c: char, s: string)
    requires IsSpace(c) && !IsLineBreak(c)
    ensures StrippedNonBlank(SplitLines([c] + s)) == StrippedNonBlank(SplitLines(s))
  {
    if s == [] {
      SplitLinesSingle([c]);
      StripEmptyIff([c]);
      assert [c][1..] == [];
      assert StrippedNonBlank(SplitLines([c] + s)) == [];
    } else {
      var l := s[..FirstBreak(s)];
      var rest := LaterLines(s);
      calc {
        StrippedNonBlank(SplitLines([c] + s));
        { SplitLinesConsChar(c, s); }
        StrippedNonBlank([[c] + l] + rest);
        { StrippedNonBlankAppend([[c] + l], rest); }
        StrippedNonBlank([[c] + l]) + StrippedNonBlank(rest);
        { StripConsSpace(c, l); StrippedNonBlankOne([c] + l, l); }
        StrippedNonBlank([l]) + StrippedNonBlank(rest);
        { StrippedNonBlankAppend([l], rest); }
        StrippedNonBlank([l] + rest);
        { SplitLinesFirst(s); }
        StrippedNonBlank(SplitLines(s));
      }
    }
  }

  /** A whitespace character in front of a text changes none of its
      non-blank stripped lines. */
  lemma StrippedLinesConsSpace(c: char, s: string)
    requires IsSpace(c)
    ensures StrippedNonBlank(SplitLines([c] + s)) == StrippedNonBlank(SplitLines(s))
  {
    if IsLineBreak(c) {
      StrippedLinesConsBreak(c, s);
    } else {
      StrippedLinesConsBlank(c, s);
    }
  }

  /** Nor does a whitespace character at its end. */
  lemma {:induction false} StrippedLinesSnocSpace(s: string, c: char)
    requires IsSpace(c)
    ensures StrippedNonBlank(SplitLines(s + [c])) == StrippedNonBlank(SplitLines(s))
    decreases |s|
  {
    var i := FirstBreak(s);
    if s == [] {
      SnocSpaceOnEmpty(c);
      ConcatEmpty([c]);
    } else if i == |s| {
      SnocSpaceOnOneLine(s, c);
    } else {
      var sc := s + [c];
      var w := BreakWidth(s, i);
      FirstBreakPrefix(s);
      SnocInside(s, c, i);
      FirstBreakAt(sc, i);
      SplitLinesFirst(sc);
      SplitLinesFirst(s);
      if s[i] == '\r' && i + 1 == |s| && c == '\n' {
        SnocParts(s, c);
        assert LaterLines(sc) == [] == LaterLines(s);
      } else {
        assert BreakWidth(sc, i) == w;
        var s' := s[i + w..];
        SnocInside(s, c, i + w);
        assert LaterLines(sc) == SplitLines(s' + [c]);
        assert LaterLines(s) == SplitLines(s');
        var l := [s[..i]];
        calc {
          StrippedNonBlank(SplitLines(sc));
          StrippedNonBlank(l + SplitLines(s' + [c]));
          { StrippedNonBlankAppend(l, SplitLines(s' + [c])); }
          StrippedNonBlank(l) + StrippedNonBlank(SplitLines(s' + [c]));
          { StrippedLinesSnocSpace(s', c); }
          StrippedNonBlank(l) + StrippedNonBlank(SplitLines(s'));
          { StrippedNonBlankAppend(l, SplitLines(s')); }
          StrippedNonBlank(SplitLines(s));
        }
      }
    }
  }

  lemma SnocInside(s: string, c: char, n: nat)
    requires n <= |s|
    ensures (s + [c])[..n] == s[..n] && (s + [c])[n..] == s[n..] + [c]
  {}

  /** A lone whitespace character has no non-blank line. */
  lemma SnocSpaceOnEmpty(c: char)
    requires IsSpace(c)
    ensures StrippedNonBlank(SplitLines([c])) == []
  {
    if IsLineBreak(c) {
      FirstBreakAt([c], 0);
      SplitLinesAt([c], 0);
      assert [c][1..] == [];
      assert SplitLines([c]) == [[]];
    } else {
      SplitLinesSingle([c]);
      StripEmptyIff([c]);
      assert [c][1..] == [];
    }
  }

  /** Whitespace after a text without boundaries ends it or joins its only line. */
  lemma SnocSpaceOnOneLine(s: string, c: char)
    requires IsSpace(c) && s != [] && FirstBreak(s) == |s|
    ensures StrippedNonBlank(SplitLines(s + [c])) == StrippedNonBlank(SplitLines(s))
  {
    var sc := s + [c];
    FirstBreakPrefix(s);
    SnocParts(s, c);
    SplitLinesSingle(s);
    if IsLineBreak(c) {
      FirstBreakAt(sc, |s|);
      SplitLinesFirst(sc);
      assert LaterLines(sc) == [];
      ConcatEmpty([s]);
    } else {
      assert NoBreak(sc) by {
        forall k | 0 <= k < |sc| ensures !IsLineBreak(sc[k]) {
          if k < |s| { assert sc[k] == s[k]; }
        }
      }
      SplitLinesSingle(sc);
      StripSnocSpace(s, c);
      StrippedNonBlankOne(sc, s);
    }
  }

  lemma SnocParts(s: string, c: char)
    ensures s[..|s|] == s
    ensures (s + [c])[..|s|] == s && (s + [c])[|s|] == c && (s + [c])[|s| + 1..] == []
  {}

  /** Stripping the whole text first does not change its non-blank stripped lines. */
  lemma StrippedLinesOfStrip(s: string)
    ensures StrippedNonBlank(SplitLines(Strip(s))) == StrippedNonBlank(SplitLines(s))
  {
    var a, b := StripSplit(s);
    var m := Strip(s);
    assert s == a + (m + b);
    calc {
      StrippedNonBlank(SplitLines(s));
      { DropSpacePrefix(a, m + b); }
      StrippedNonBlank(SplitLines(m + b));
      { DropSpaceSuffix(m, b); }
      StrippedNonBlank(SplitLines(m));
    }
  }

  lemma {:induction false} DropSpacePrefix(a: string, t: string)
    requires AllSpace(a)
    ensures StrippedNonBlank(SplitLines(a + t)) == StrippedNonBlank(SplitLines(t))
    decreases |a|
  {
    if a != [] {
      assert a + t == [a[0]] + (a[1..] + t);
      StrippedLinesConsSpace(a[0], a[1..] + t);
      DropSpacePrefix(a[1..], t);
    } else {
      assert a + t == t;
    }
  }

  lemma {:induction false} DropSpaceSuffix(t: string, b: string)
    requires AllSpace(b)
    ensures StrippedNonBlank(SplitLines(t + b)) == StrippedNonBlank(SplitLines(t))
    decreases |b|
  {
    if b != [] {
      var b' := b[..|b| - 1];
      assert t + b == (t + b') + [b[|b| - 1]];
      StrippedLinesSnocSpace(t + b', b[|b| - 1]);
      DropSpaceSuffix(t, b');
    } else {
      assert t + b == t;
    }
  }
}
