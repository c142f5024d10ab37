/** What `runsave` in runtests.py makes of a test script's captured
    output: whether the run counts as failed, and the text saved to the
    output file. The script's exit status and its combined stdout and
    stderr are inputs. */
module Capture {
  import opened Outcomes
  import opened Text

  /** The shape shared by both line patterns: `a` at or after `from`,
      later `b` starting no earlier than the end of `a`, and no `\n`
      before `b` (the regex `.` never matches `\n`). */
  ghost predicate Ordered2(l: string, a: string, from: nat, b: string) {
    exists i: nat, j: nat | from <= i && i + |a| <= j ::
      OccursAt(l, a, i) && OccursAt(l, b, j) && '\n' !in l[..j]
  }

  /** A line `re.match` finds `.*egmentation.*ault.*` in: a segfault
      report (the leading `S` is left out so that `default` does not
      match). */
  ghost predicate FaultLine(l: string) {
    Ordered2(l, "egmentation", 0, "ault")
  }

  /** A line `re.match` finds `^\[.*\.diderot.*\] Warning: ` in: a
      diderotc warning. */
  ghost predicate WarningLine(l: string) {
    |l| > 0 && l[0] == '[' && Ordered2(l, ".diderot", 1, "] Warning: ")
  }

  /** A scanner for `Ordered2`: the first `a`, then the first `b` after it. */
  function Find2(l: string, a: string, from: nat, b: string): bool {
    match FindFrom(l, a, from)
    case None => false
    case Some(i) =>
      match FindFrom(l, b, i + |a|)
      case None => false
      case Some(j) => '\n' !in l[..j]
  }

  /** Taking the first occurrences loses no match: the scanner agrees with
      the pattern. */
  lemma Find2Matches(l: string, a: string, from: nat, b: string)
    ensures Find2(l, a, from, b) <==> Ordered2(l, a, from, b)
  {
    if Find2(l, a, from, b) {
      Find2Sound(l, a, from, b);
    }
    if Ordered2(l, a, from, b) {
      Find2Complete(l, a, from, b);
    }
  }

  lemma Find2Sound(l: string, a: string, from: nat, b: string)
    requires Find2(l, a, from, b)
    ensures Ordered2(l, a, from, b)
  {
    var i := FindFrom(l, a, from).value;
    var j := FindFrom(l, b, i + |a|).value;
    assert from <= i && i + |a| <= j && OccursAt(l, a, i) && OccursAt(l, b, j) && '\n' !in l[..j];
  }

  lemma Find2Complete(l: string, a: string, from: nat, b: string)
    requires Ordered2(l, a, from, b)
    ensures Find2(l, a, from, b)
  {
    var i: nat, j: nat :| from <= i && i + |a| <= j && OccursAt(l, a, i) && OccursAt(l, b, j) && '\n' !in l[..j];
    var i0 := FindFrom(l, a, from).value;
    assert i0 <= i;
    var j0 := FindFrom(l, b, i0 + |a|).value;
    assert j0 <= j;
    assert l[..j0] == l[..j][..j0];
  }

  predicate IsFault(l: string) {
    Find2(l, "egmentation", 0, "ault")
  }

  predicate IsWarning(l: string) {
    |l| > 0 && l[0] == '[' && Find2(l, ".diderot", 1, "] Warning: ")
  }

  lemma IsFaultIff(l: string)
    ensures IsFault(l) <==> FaultLine(l)
  {
    Find2Matches(l, "egmentation", 0, "ault");
  }

  lemma IsWarningIff(l: string)
    ensures IsWarning(l) <==> WarningLine(l)
  {
    Find2Matches(l, ".diderot", 1, "] Warning: ");
  }

  /** Whether some captured line reports a segfault. */
  predicate AnyFault(ls: seq<string>)
    decreases |ls|
  {
    ls != [] && (AnyFault(ls[..|ls| - 1]) || IsFault(ls[|ls| - 1]))
  }

  /** The captured lines that are not diderotc warnings, in order. */
  function Kept(ls: seq<string>): (r: seq<string>)
    ensures |r| <= |ls|
    decreases |ls|
  {
    if ls == [] then []
    else
      var l := ls[|ls| - 1];
      Kept(ls[..|ls| - 1]) + (if IsWarning(l) then [] else [l])
  }

  /** What one run of the test script leaves: its verdict and the text
      written to the output file. */
  datatype Saved = Saved(failed: bool, text: string)

  /** `runsave`: the run fails when the script exits non-zero or any
      captured line reports a segfault; the file receives the lines that
      are not warnings, each followed by `\n`, or a lone `\n` when no
      line is kept. */
  function RunSave(scriptFailed: bool, stdout: string): (r: Saved)
    ensures |r.text| > 0 && r.text[|r.text| - 1] == '\n'
  {
    var slines := SplitLines(stdout);
    Saved(scriptFailed || AnyFault(slines), Join(Kept(slines), "\n") + "\n")
  }

  // ---------------------------------------------------------------------
  // Properties

  /** The run fails exactly when the script did or some line is a
      segfault report. */
  lemma {:induction false} AnyFaultIff(ls: seq<string>)
    ensures AnyFault(ls) <==> exists i :: 0 <= i < |ls| && FaultLine(ls[i])
    decreases |ls|
  {
    if ls != [] {
      var n := |ls| - 1;
      AnyFaultIff(ls[..n]);
      IsFaultIff(ls[n]);
      forall i | 0 <= i < n ensures FaultLine(ls[i]) == IsFault(ls[i]) {
        IsFaultIff(ls[i]);
      }
      assert forall i :: 0 <= i < n ==> ls[..n][i] == ls[i];
    }
  }

  lemma RunSaveFails(scriptFailed: bool, stdout: string)
    ensures RunSave(scriptFailed, stdout).failed <==>
      scriptFailed || exists i :: 0 <= i < |SplitLines(stdout)| && FaultLine(SplitLines(stdout)[i])
  {
    assert RunSave(scriptFailed, stdout).failed == (scriptFailed || AnyFault(SplitLines(stdout)));
    AnyFaultIff(SplitLines(stdout));
  }

  /** Filtering distributes over concatenation, so the kept lines keep
      their relative order. */
  lemma {:induction false} KeptAppend(a: seq<string>, b: seq<string>)
    ensures Kept(a + b) == Kept(a) + Kept(b)
    decreases |b|
  {
    if b != [] {
      var b' := b[..|b| - 1];
      assert (a + b)[..|a + b| - 1] == a + b';
      assert (a + b)[|a + b| - 1] == b[|b| - 1];
      KeptAppend(a, b');
    } else {
      assert a + b == a;
    }
  }

  /** A line is kept exactly when it was captured and is not a warning. */
  lemma {:induction false} KeptMembers(ls: seq<string>)
    ensures forall x :: x in Kept(ls) <==> x in ls && !WarningLine(x)
    decreases |ls|
  {
    if ls != [] {
      var n := |ls| - 1;
      KeptMembers(ls[..n]);
      IsWarningIff(ls[n]);
      forall x | x in ls[..n] ensures WarningLine(x) == IsWarning(x) {
        IsWarningIff(x);
      }
      FrontLast(ls);
    }
  }

  /** Output without warnings is saved line for line. */
  lemma {:induction false} KeptNoWarnings(ls: seq<string>)
    requires forall i :: 0 <= i < |ls| ==> !WarningLine(ls[i])
    ensures Kept(ls) == ls
    decreases |ls|
  {
    if ls != [] {
      KeptNoWarnings(ls[..|ls| - 1]);
      IsWarningIff(ls[|ls| - 1]);
    }
  }

  /** Reading the saved file back line by line gives exactly the kept
      lines; when every line was a warning the file is a single `\n`. */
  lemma SavedLines(scriptFailed: bool, stdout: string)
    ensures var kept := Kept(SplitLines(stdout));
      && (kept != [] ==> SplitLines(RunSave(scriptFailed, stdout).text) == kept)
      && (kept == [] ==> RunSave(scriptFailed, stdout).text == "\n")
  {
    var slines := SplitLines(stdout);
    var kept := Kept(slines);
    KeptMembers(slines);
    if kept != [] {
      forall i | 0 <= i < |kept| ensures NoLineBreak(kept[i]) {
        assert kept[i] in slines;
      }
      SplitLinesJoin(kept);
    }
  }
}
