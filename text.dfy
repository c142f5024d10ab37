/** The Python string primitives the two scripts rely on, stated on
    `seq<char>`: `str.isspace`, `str.rstrip`, `str.split()`,
    `str.split(' ')`, `str.replace`, `bytes.splitlines`, `str.join`
    and `str.startswith`. */
module Text {
  import opened Outcomes

  /** The characters Python's `str.isspace` accepts; `split()` and
      `rstrip()` without arguments strip exactly these. */
  predicate IsSpace(c: char) {
    c == ' ' || c == '\t' || c == '\n' || c == '\r' || c == '\U{0B}' || c == '\U{0C}'
    || ('\U{1C}' <= c <= '\U{1F}') || c == '\U{85}' || c == '\U{A0}' || c == '\U{1680}'
    || ('\U{2000}' <= c <= '\U{200A}') || c == '\U{2028}' || c == '\U{2029}'
    || c == '\U{202F}' || c == '\U{205F}' || c == '\U{3000}'
  }

  predicate StartsWith(s: string, p: string) {
    |p| <= |s| && s[..|p|] == p
  }

  /** `p` occurs in `s` starting at index `k`. */
  predicate OccursAt(s: string, p: string, k: nat) {
    k + |p| <= |s| && s[k..k + |p|] == p
  }

  predicate Contains(s: string, p: string) {
    exists k: nat | k <= |s| :: OccursAt(s, p, k)
  }

  /** Taking one more element of `s` appends it. */
  lemma TakeSnoc<T>(s: seq<T>, i: nat)
    requires i < |s|
    ensures s[..i + 1] == s[..i] + [s[i]]
  {
  }

  /** A non-empty sequence is its front and its last element. */
  lemma FrontLast<T>(s: seq<T>)
    requires s != []
    ensures s == s[..|s| - 1] + [s[|s| - 1]]
  {
  }

  /** Appending a non-empty `b` appends its front, then its last element. */
  lemma AppendFrontLast<T>(a: seq<T>, b: seq<T>)
    requires b != []
    ensures a + b == (a + b[..|b| - 1]) + [b[|b| - 1]] && b == b[..|b| - 1] + [b[|b| - 1]]
  {
  }

  /** `str.join`: the pieces of `ls` with `sep` between neighbours. */
  function Join(ls: seq<string>, sep: string): string {
    if ls == [] then [] else if |ls| == 1 then ls[0] else ls[0] + sep + Join(ls[1..], sep)
  }

  /** `str.rstrip()`: the longest prefix that does not end in whitespace. */
  function RStrip(s: string): (r: string)
    ensures |r| <= |s| && r == s[..|r|]
    ensures r == [] || !IsSpace(r[|r| - 1])
    ensures forall i :: |r| <= i < |s| ==> IsSpace(s[i])
  {
    if s != [] && IsSpace(s[|s| - 1]) then RStrip(s[..|s| - 1]) else s
  }

  /** `str.rstrip(c)` for a single character `c`. */
  function RStripChar(s: string, c: char): (r: string)
    ensures |r| <= |s| && r == s[..|r|]
    ensures r == [] || r[|r| - 1] != c
    ensures forall i :: |r| <= i < |s| ==> s[i] == c
  {
    if s != [] && s[|s| - 1] == c then RStripChar(s[..|s| - 1], c) else s
  }

  /** The longest suffix of `s` that does not start with whitespace. */
  function SkipSpace(s: string): (r: string)
    ensures |r| <= |s| && r == s[|s| - |r|..]
    ensures r == [] || !IsSpace(r[0])
    ensures forall i :: 0 <= i < |s| - |r| ==> IsSpace(s[i])
  {
    if s != [] && IsSpace(s[0]) then SkipSpace(s[1..]) else s
  }

  /** The length of the longest prefix of `s` without whitespace. */
  function TokenLen(s: string): (n: nat)
    ensures n <= |s|
    ensures forall i :: 0 <= i < n ==> !IsSpace(s[i])
    ensures n == |s| || IsSpace(s[n])
  {
    if s == [] || IsSpace(s[0]) then 0 else 1 + TokenLen(s[1..])
  }

  predicate IsToken(t: string) {
    t != [] && forall i :: 0 <= i < |t| ==> !IsSpace(t[i])
  }

  /** `str.split()` without arguments: the maximal runs of non-whitespace. */
  function Split(s: string): (r: seq<string>)
    ensures forall i :: 0 <= i < |r| ==> IsToken(r[i])
    decreases |s|
  {
    var t := SkipSpace(s);
    if t == [] then []
    else
      var n := TokenLen(t);
      TokenPrefix(t);
      ConsTokens(t[..n], Split(t[n..]));
      [t[..n]] + Split(t[n..])
  }

  /** A string starting with a non-space starts with a token. */
  lemma TokenPrefix(t: string)
    requires t != [] && !IsSpace(t[0])
    ensures IsToken(t[..TokenLen(t)])
  {
  }

  lemma ConsTokens(a: string, rest: seq<string>)
    requires IsToken(a) && forall i :: 0 <= i < |rest| ==> IsToken(rest[i])
    ensures forall i :: 0 <= i < |[a] + rest| ==> IsToken(([a] + rest)[i])
  {
  }

  /** The index of the first `c` in `s`, or `|s|` when there is none. */
  function IndexOf(s: string, c: char): (i: nat)
    ensures i <= |s|
    ensures forall k :: 0 <= k < i ==> s[k] != c
    ensures i < |s| ==> s[i] == c
  {
    if s == [] then 0 else if s[0] == c then 0 else 1 + IndexOf(s[1..], c)
  }

  /** `str.split(c)` with a one-character separator: the pieces between
      the separators, empty pieces included; joining them back with `c`
      gives `s` again. */
  function SplitOn(s: string, c: char): (r: seq<string>)
    ensures |r| >= 1
    ensures forall i :: 0 <= i < |r| ==> c !in r[i]
    ensures Join(r, [c]) == s
    decreases |s|
  {
    var i := IndexOf(s, c);
    if i == |s| then [s]
    else
      var rest := SplitOn(s[i + 1..], c);
      assert s == s[..i] + [c] + s[i + 1..];
      [s[..i]] + rest
  }

  /** `str.replace(pat, rep)`: every occurrence of `pat`, scanned left to
      right without overlaps, becomes `rep`; an empty `pat` puts `rep`
      before every character and at the end, as Python does. */
  function Replace(s: string, pat: string, rep: string): string
    decreases |s|
  {
    if pat == [] then (if s == [] then rep else rep + [s[0]] + Replace(s[1..], pat, rep))
    else if |s| < |pat| then s
    else if s[..|pat|] == pat then rep + Replace(s[|pat|..], pat, rep)
    else [s[0]] + Replace(s[1..], pat, rep)
  }

  predicate IsLineBreak(c: char) {
    c == '\n' || c == '\r'
  }

  /** The index of the first line break in `s`, or `|s|`. */
  function BreakAt(s: string): (i: nat)
    ensures i <= |s|
    ensures forall k :: 0 <= k < i ==> !IsLineBreak(s[k])
    ensures i < |s| ==> IsLineBreak(s[i])
  {
    if s == [] || IsLineBreak(s[0]) then 0 else 1 + BreakAt(s[1..])
  }

  predicate NoLineBreak(l: string) {
    forall k :: 0 <= k < |l| ==> !IsLineBreak(l[k])
  }

  /** `bytes.splitlines()`: lines end at `\n`, `\r` or `\r\n`; a final
      line terminator does not start another (empty) line. */
  function SplitLines(s: string): (r: seq<string>)
    ensures forall i :: 0 <= i < |r| ==> NoLineBreak(r[i])
    decreases |s|
  {
    if s == [] then []
    else
      var i := BreakAt(s);
      if i == |s| then [s]
      else
        var j := if s[i] == '\r' && i + 1 < |s| && s[i + 1] == '\n' then i + 2 else i + 1;
        [s[..i]] + SplitLines(s[j..])
  }

  /** The first index at or after `from` where `p` occurs in `s`. */
  function FindFrom(s: string, p: string, from: nat): (r: Option<nat>)
    ensures r.Some? ==> from <= r.value && OccursAt(s, p, r.value)
    ensures r.Some? ==> forall k: nat :: from <= k < r.value ==> !OccursAt(s, p, k)
    ensures r.None? ==> forall k: nat :: from <= k ==> !OccursAt(s, p, k)
    decreases |s| - from
  {
    if from + |p| > |s| then None
    else if OccursAt(s, p, from) then Some(from)
    else FindFrom(s, p, from + 1)
  }

  // ---------------------------------------------------------------------
  // Properties of the primitives

  /** Without an occurrence of a non-empty `pat`, `replace` changes nothing. */
  lemma {:induction false} ReplaceAbsent(s: string, pat: string, rep: string)
    requires pat != [] && !Contains(s, pat)
    ensures Replace(s, pat, rep) == s
    decreases |s|
  {
    if |s| >= |pat| {
      assert !OccursAt(s, pat, 0);
      assert !Contains(s[1..], pat) by {
        forall k: nat | OccursAt(s[1..], pat, k) ensures OccursAt(s, pat, k + 1) {
          assert s[k + 1..k + 1 + |pat|] == s[1..][k..k + |pat|];
        }
      }
      ReplaceAbsent(s[1..], pat, rep);
      assert s == [s[0]] + s[1..];
    }
  }

  /** Removing a suffix `pat` whose first character recurs nowhere in it,
      from a string `n` that does not contain `pat`, gives back `n`. */
  lemma {:induction false} ReplaceStripsSuffix(n: string, pat: string)
    requires pat != [] && forall i :: 1 <= i < |pat| ==> pat[i] != pat[0]
    requires !Contains(n, pat)
    ensures Replace(n + pat, pat, []) == n
    decreases |n|
  {
    if n == [] {
      ReplaceWhole(pat);
    } else {
      StripStep(n, pat);
      ContainsTail(n, pat);
      ReplaceStripsSuffix(n[1..], pat);
      assert n == [n[0]] + n[1..];
    }
  }

  lemma ReplaceWhole(pat: string)
    requires pat != []
    ensures Replace([] + pat, pat, []) == []
  {
    assert ([] + pat)[..|pat|] == pat;
    assert ([] + pat)[|pat|..] == [];
  }

  /** Before the final `pat`, `replace` copies `n` one character at a time. */
  lemma StripStep(n: string, pat: string)
    requires n != [] && pat != [] && forall i :: 1 <= i < |pat| ==> pat[i] != pat[0]
    requires !Contains(n, pat)
    ensures Replace(n + pat, pat, []) == [n[0]] + Replace(n[1..] + pat, pat, [])
  {
    NoEarlyMatch(n, pat);
    ReplaceSkip(n + pat, pat, []);
    assert (n + pat)[1..] == n[1..] + pat;
  }

  /** Where `pat` does not start, `replace` copies the first character. */
  lemma ReplaceSkip(s: string, pat: string, rep: string)
    requires pat != [] && |s| >= |pat| && s[..|pat|] != pat
    ensures Replace(s, pat, rep) == [s[0]] + Replace(s[1..], pat, rep)
  {
  }

  /** A non-empty `n` without `pat`, followed by `pat`, does not start
      with `pat` when `pat`'s first character does not recur in it. */
  lemma NoEarlyMatch(n: string, pat: string)
    requires n != [] && pat != [] && forall i :: 1 <= i < |pat| ==> pat[i] != pat[0]
    requires !Contains(n, pat)
    ensures (n + pat)[..|pat|] != pat
  {
    var s := n + pat;
    if |n| >= |pat| {
      assert s[..|pat|] == n[0..|pat|];
      assert !OccursAt(n, pat, 0);
    } else {
      assert s[..|pat|][|n|] == pat[0];
      assert pat[|n|] != pat[0];
    }
  }

  /** What the tail of a string contains, the string contains. */
  lemma ContainsTail(n: string, pat: string)
    requires n != [] && !Contains(n, pat)
    ensures !Contains(n[1..], pat)
  {
    forall k: nat | OccursAt(n[1..], pat, k) ensures OccursAt(n, pat, k + 1) {
      assert n[k + 1..k + 1 + |pat|] == n[1..][k..k + |pat|];
    }
  }

  /** A token followed by whitespace (or nothing) is exactly what
      `TokenLen` measures. */
  lemma {:induction false} TokenLenOf(t: string, rest: string)
    requires forall i :: 0 <= i < |t| ==> !IsSpace(t[i])
    requires rest == [] || IsSpace(rest[0])
    ensures TokenLen(t + rest) == |t|
    decreases |t|
  {
    if t != [] {
      assert (t + rest)[1..] == t[1..] + rest;
      TokenLenOf(t[1..], rest);
    }
  }

  /** A line without breaks followed by a break is what `BreakAt` measures. */
  lemma {:induction false} BreakAtOf(l: string, rest: string)
    requires NoLineBreak(l)
    requires rest != [] && IsLineBreak(rest[0])
    ensures BreakAt(l + rest) == |l|
    decreases |l|
  {
    if l != [] {
      assert (l + rest)[1..] == l[1..] + rest;
      BreakAtOf(l[1..], rest);
    }
  }

  /** Leading whitespace does not change what `split()` returns. */
  lemma SplitSkipsSpace(c: char, s: string)
    requires IsSpace(c)
    ensures Split([c] + s) == Split(s)
  {
    assert ([c] + s)[1..] == s;
  }

  /** A token followed by whitespace (or nothing) is the first piece
      `split()` returns. */
  lemma SplitToken(t: string, tail: string)
    requires IsToken(t)
    requires tail == [] || IsSpace(tail[0])
    ensures Split(t + tail) == [t] + Split(tail)
  {
    var s := t + tail;
    assert SkipSpace(s) == s by {
      assert s[0] == t[0];
    }
    TokenLenOf(t, tail);
    assert s[..|t|] == t;
    assert s[|t|..] == tail;
  }

  /** Splitting into lines undoes joining non-empty lists of lines with
      `\n` and appending a final `\n`. */
  lemma {:induction false} SplitLinesJoin(ls: seq<string>)
    requires ls != []
    requires forall i :: 0 <= i < |ls| ==> NoLineBreak(ls[i])
    ensures SplitLines(Join(ls, "\n") + "\n") == ls
    decreases |ls|
  {
    var l := ls[0];
    var rest := if |ls| == 1 then [] else Join(ls[1..], "\n") + "\n";
    assert Join(ls, "\n") + "\n" == l + ("\n" + rest);
    SplitLinesFirst(l, rest);
    if |ls| > 1 {
      SplitLinesJoin(ls[1..]);
    }
    assert ls == [l] + ls[1..];
  }

  /** A line without breaks, then `\n`, is the first line. */
  lemma SplitLinesFirst(l: string, rest: string)
    requires NoLineBreak(l)
    ensures SplitLines(l + ("\n" + rest)) == [l] + SplitLines(rest)
  {
    var s := l + ("\n" + rest);
    BreakAtOf(l, "\n" + rest);
    assert s[|l|] == '\n';
    assert s[..|l|] == l;
    assert s[|l| + 1..] == rest;
  }
}
