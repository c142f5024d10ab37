/** The per-test control state of runtests.py: the compare-mode
    repetition loop (output file naming, early exit, junk accumulation),
    the create-reference branch, and the pass/fail bookkeeping that
    decides which files are deleted now and which executables are
    deleted at the very end.

    Everything the runner asks of the host is a field of `Host`: the
    test script's exit status and captured output per repetition, the
    exact `diff` against the reference `out.txt`, `glob.glob`, the
    tolerance comparison `unu diff`, `os.path.abspath`, the shell's
    `ls` and `mv`. Deleting a file is recorded by appending its name to
    `Suite.removed`. */
module Runner {
  import opened Outcomes
  import opened Text
  import opened Directives
  import opened Capture
  import opened Programs
  import Prereq

  datatype Host = Host(
    script: nat -> (bool, string),             // repetition -> (non-zero exit, captured output)
    matchesRef: (nat, string) -> bool,         // `diff OUT ref/out.txt` succeeds for the saved text
    glob: (nat, string) -> seq<string>,        // `glob.glob(pattern)` as seen at a repetition
    withinTol: (nat, string, string) -> bool,  // `unu diff -eps tol` on one output file
    abspath: string -> string,
    ls: string -> Option<string>,              // stdout of `ls pattern`, None when it fails
    mv: string -> bool)                        // `mv pattern refdir` succeeds

  /** Why the whole run stops. */
  datatype Stop =
    | BadScript(e: ParseError)                 // directive parsing failed
    | UnmatchedProgram(glob: string)           // `globprogs`: a glob matched no file
    | RefScriptFailed                          // create mode: the script failed
    | ListingFailed(out: string, why: ListingError)
    | MoveFailed(out: string)
    | RemoveFailed(file: string)               // `os.remove`: the file was already deleted

  /** One test's state: `thispass`, `junk`, `progs` and `texes`. */
  datatype Trial = Trial(thispass: bool, junk: seq<string>, progs: seq<ProgGlob>, texes: seq<string>)

  /** What the repetition loop needs from the command line and the script. */
  datatype Plan = Plan(parallel: int, runs: nat, dodiff: bool, outtols: seq<OutTol>, progglobs: seq<ProgGlob>)

  /** `glob.glob` as seen at repetition `rep`. */
  function GlobAt(h: Host, rep: nat): string -> seq<string> {
    g => h.glob(rep, g)
  }

  // ---------------------------------------------------------------------
  // Tolerance comparisons of the `#>` outputs

  /** Whether every file in `files` is within `tol` of its reference. */
  predicate FilesWithin(h: Host, rep: nat, files: seq<string>, tol: string)
    decreases |files|
  {
    files == [] || (FilesWithin(h, rep, files[..|files| - 1], tol) && h.withinTol(rep, files[|files| - 1], tol))
  }

  /** Whether every file matched by every `#>` glob is within tolerance. */
  predicate OutputsWithin(h: Host, rep: nat, outtols: seq<OutTol>)
    decreases |outtols|
  {
    var n := |outtols|;
    outtols == [] || (OutputsWithin(h, rep, outtols[..n - 1]) && FilesWithin(h, rep, h.glob(rep, outtols[n - 1].out), outtols[n - 1].tol))
  }

  /** The files the `#>` globs match, in order. */
  function OutputFiles(h: Host, rep: nat, outtols: seq<OutTol>): seq<string>
    decreases |outtols|
  {
    var n := |outtols|;
    if outtols == [] then [] else OutputFiles(h, rep, outtols[..n - 1]) + h.glob(rep, outtols[n - 1].out)
  }

  /** The comparisons of one repetition: every matched file is compared,
      a mismatch clears `thispass` without stopping the others, and on
      repetition 0 every matched file becomes junk. */
  method CompareOutputs(h: Host, rep: nat, outtols: seq<OutTol>, junk0: seq<string>, pass0: bool)
    returns (junk: seq<string>, thispass: bool)
    ensures junk == junk0 + (if rep == 0 then OutputFiles(h, rep, outtols) else [])
    ensures thispass == (pass0 && OutputsWithin(h, rep, outtols))
  {
    junk, thispass := junk0, pass0;
    var i := 0;
    while i < |outtols|
      invariant 0 <= i <= |outtols|
      invariant rep == 0 ==> junk == junk0 + OutputFiles(h, rep, outtols[..i])
      invariant rep != 0 ==> junk == junk0
      invariant thispass == (pass0 && OutputsWithin(h, rep, outtols[..i]))
    {
      var ot := outtols[i];
      OutputsStep(h, rep, outtols, i);
      junk, thispass := CompareFiles(h, rep, h.glob(rep, ot.out), ot.tol, junk, thispass);
      i := i + 1;
    }
    assert outtols[..i] == outtols;
  }

  /** One more `#>` glob adds its matches to the files and its
      comparisons to the verdict. */
  lemma OutputsStep(h: Host, rep: nat, outtols: seq<OutTol>, i: nat)
    requires i < |outtols|
    ensures OutputFiles(h, rep, outtols[..i + 1]) == OutputFiles(h, rep, outtols[..i]) + h.glob(rep, outtols[i].out)
    ensures OutputsWithin(h, rep, outtols[..i + 1]) ==
      (OutputsWithin(h, rep, outtols[..i]) && FilesWithin(h, rep, h.glob(rep, outtols[i].out), outtols[i].tol))
  {
    assert outtols[..i + 1][..i] == outtols[..i];
  }

  /** The inner loop over the files one `#>` glob matches. */
  method CompareFiles(h: Host, rep: nat, files: seq<string>, tol: string, junk0: seq<string>, pass0: bool)
    returns (junk: seq<string>, thispass: bool)
    ensures junk == junk0 + (if rep == 0 then files else [])
    ensures thispass == (pass0 && FilesWithin(h, rep, files, tol))
  {
    junk, thispass := junk0, pass0;
    var j := 0;
    while j < |files|
      invariant 0 <= j <= |files|
      invariant junk == junk0 + (if rep == 0 then files[..j] else [])
      invariant thispass == (pass0 && FilesWithin(h, rep, files[..j], tol))
    {
      assert files[..j + 1][..j] == files[..j];
      var o := files[j];
      if rep == 0 {
        junk := junk + [o];
      }
      if !h.withinTol(rep, o, tol) {
        thispass := false;
      }
      j := j + 1;
    }
    assert files[..j] == files;
  }

  // ---------------------------------------------------------------------
  // The repetition loop

  /** What `runsave` makes of each repetition's run of the script. */
  function Saves(h: Host): nat -> Saved {
    (rep: nat) => RunSave(h.script(rep).0, h.script(rep).1)
  }

  /** One repetition in state `t`: its output file becomes junk; a failing
      script or `diff` fails the test; on repetition 0 `globprogs` runs
      after the script and may stop the whole run; otherwise the test
      passes so far exactly when all outputs are within tolerance, and on
      repetition 0 the compared files become junk. */
  function Step(h: Host, saves: nat -> Saved, p: Plan, rep: nat, t: Trial): Result<Trial, Stop> {
    var saved := saves(rep);
    var junk := t.junk + [OutName(p.parallel, rep)];
    if saved.failed then Ok(Trial(false, junk, t.progs, t.texes))
    else
      var found := if rep == 0 then GlobResult(p.progglobs, GlobAt(h, 0), h.abspath) else Ok(([], []));
      if found.Err? then Err(UnmatchedProgram(found.error))
      else
        var progs := t.progs + found.value.0;
        var texes := t.texes + found.value.1;
        if p.dodiff && !h.matchesRef(rep, saved.text) then Ok(Trial(false, junk, progs, texes))
        else
          Ok(Trial(OutputsWithin(h, rep, p.outtols), junk + (if rep == 0 then OutputFiles(h, rep, p.outtols) else []), progs, texes))
  }

  /** The loop from repetition `rep` on, in state `t`: it ends when the
      repetitions are used up or the test has failed. */
  function Repeat(h: Host, saves: nat -> Saved, p: Plan, rep: nat, t: Trial): Result<Trial, Stop>
    decreases p.runs - rep
  {
    if rep >= p.runs || !t.thispass then Ok(t)
    else
      match Step(h, saves, p, rep, t)
      case Err(s) => Err(s)
      case Ok(t') => Repeat(h, saves, p, rep + 1, t')
  }

  const Fresh := Trial(true, [], [], [])

  /** The compare-mode loop over repetitions of one test. */
  method CompareRuns(h: Host, p: Plan) returns (r: Result<Trial, Stop>)
    ensures r == Repeat(h, Saves(h), p, 0, Fresh)
  {
    var t := Fresh;
    var rep := 0;
    while rep < p.runs
      invariant Repeat(h, Saves(h), p, 0, Fresh) == Repeat(h, Saves(h), p, rep, t)
      decreases p.runs - rep
    {
      if !t.thispass {
        break;
      }
      var next := RunOnce(h, p, rep, t);
      if next.Err? {
        return next;
      }
      t := next.value;
      rep := rep + 1;
    }
    return Ok(t);
  }

  /** One pass of the loop body: run and save, find the programs on
      repetition 0, diff, then compare the outputs. */
  method RunOnce(h: Host, p: Plan, rep: nat, t: Trial) returns (r: Result<Trial, Stop>)
    ensures r == Step(h, Saves(h), p, rep, t)
  {
    var junk := t.junk + [OutName(p.parallel, rep)];
    var (failed, text) := h.script(rep);
    var saved := RunSave(failed, text);
    assert saved == Saves(h)(rep);
    if saved.failed {
      return Ok(Trial(false, junk, t.progs, t.texes));
    }
    var progs, texes := t.progs, t.texes;
    if rep == 0 {
      var found := GlobProgs(p.progglobs, GlobAt(h, 0), h.abspath);
      if found.Err? {
        return Err(UnmatchedProgram(found.error));
      }
      progs := progs + found.value.0;
      texes := texes + found.value.1;
    } else {
      assert progs + [] == progs && texes + [] == texes;
    }
    if p.dodiff && !h.matchesRef(rep, saved.text) {
      return Ok(Trial(false, junk, progs, texes));
    }
    var thispass;
    junk, thispass := CompareOutputs(h, rep, p.outtols, junk, true);
    return Ok(Trial(thispass, junk, progs, texes));
  }

  /** Repetition `k` passes: the script succeeds, its saved output equals
      the reference when that is compared, and every output is within
      tolerance. */
  predicate RepOK(h: Host, saves: nat -> Saved, p: Plan, k: nat) {
    !saves(k).failed && (!p.dodiff || h.matchesRef(k, saves(k).text)) && OutputsWithin(h, k, p.outtols)
  }

  /** A repetition leaves the test passing exactly when it passes. */
  lemma StepPass(h: Host, saves: nat -> Saved, p: Plan, rep: nat, t: Trial)
    requires Step(h, saves, p, rep, t).Ok?
    ensures Step(h, saves, p, rep, t).value.thispass == RepOK(h, saves, p, rep)
  {
  }

  /** Only repetition 0 can stop the run, and only after its script succeeded. */
  lemma StepStops(h: Host, saves: nat -> Saved, p: Plan, rep: nat, t: Trial)
    ensures Step(h, saves, p, rep, t).Err? <==>
      rep == 0 && !saves(0).failed && GlobResult(p.progglobs, GlobAt(h, 0), h.abspath).Err?
  {
  }

  /** A repetition adds its output file to the junk, and on repetition 0 a
      passing one adds the compared files too. */
  lemma StepJunk(h: Host, saves: nat -> Saved, p: Plan, rep: nat, t: Trial)
    requires Step(h, saves, p, rep, t).Ok?
    ensures var junk := Step(h, saves, p, rep, t).value.junk;
      || junk == t.junk + [OutName(p.parallel, rep)]
      || (rep == 0 && junk == t.junk + [OutName(p.parallel, rep)] + OutputFiles(h, 0, p.outtols))
    ensures var junk := Step(h, saves, p, rep, t).value.junk;
      Step(h, saves, p, rep, t).value.thispass ==>
        junk == t.junk + [OutName(p.parallel, rep)] + (if rep == 0 then OutputFiles(h, 0, p.outtols) else [])
  {
  }

  /** A test that gets through the loop passes exactly when every
      repetition passes. */
  lemma {:induction false} RepeatPassIff(h: Host, saves: nat -> Saved, p: Plan, rep: nat, t: Trial)
    requires t.thispass && Repeat(h, saves, p, rep, t).Ok?
    ensures Repeat(h, saves, p, rep, t).value.thispass <==> forall k :: rep <= k < p.runs ==> RepOK(h, saves, p, k)
    decreases p.runs - rep
  {
    if rep < p.runs {
      var t' := Step(h, saves, p, rep, t).value;
      StepPass(h, saves, p, rep, t);
      if t'.thispass {
        RepeatPassIff(h, saves, p, rep + 1, t');
      }
    }
  }

  /** From repetition 1 on the loop never stops the run. */
  lemma {:induction false} RepeatLaterOk(h: Host, saves: nat -> Saved, p: Plan, rep: nat, t: Trial)
    requires rep >= 1
    ensures Repeat(h, saves, p, rep, t).Ok?
    decreases p.runs - rep
  {
    if rep < p.runs && t.thispass {
      StepStops(h, saves, p, rep, t);
      RepeatLaterOk(h, saves, p, rep + 1, Step(h, saves, p, rep, t).value);
    }
  }

  /** The run can only stop inside the loop at repetition 0, when the
      script succeeded and a program glob matched nothing. */
  lemma RepeatStopsIff(h: Host, saves: nat -> Saved, p: Plan)
    ensures Repeat(h, saves, p, 0, Fresh).Err? <==>
      p.runs >= 1 && !saves(0).failed && GlobResult(p.progglobs, GlobAt(h, 0), h.abspath).Err?
  {
    StepStops(h, saves, p, 0, Fresh);
    if p.runs >= 1 && Step(h, saves, p, 0, Fresh).Ok? {
      RepeatLaterOk(h, saves, p, 1, Step(h, saves, p, 0, Fresh).value);
    }
  }

  /** The output file names of repetitions `a` up to `b`. */
  function OutNames(parallel: int, a: nat, b: nat): (r: seq<string>)
    ensures |r| == if a <= b then b - a else 0
    decreases b - a
  {
    if a >= b then [] else [OutName(parallel, a)] + OutNames(parallel, a + 1, b)
  }

  /** After repetition 0, a passing loop adds exactly one output file per
      repetition to the junk. */
  lemma {:induction false} RepeatPassJunkLater(h: Host, saves: nat -> Saved, p: Plan, rep: nat, t: Trial)
    requires rep >= 1 && t.thispass && Repeat(h, saves, p, rep, t).Ok? && Repeat(h, saves, p, rep, t).value.thispass
    ensures Repeat(h, saves, p, rep, t).value.junk == t.junk + OutNames(p.parallel, rep, p.runs)
    decreases p.runs - rep
  {
    if rep < p.runs {
      var t' := Step(h, saves, p, rep, t).value;
      StepJunk(h, saves, p, rep, t);
      RepeatPassJunkLater(h, saves, p, rep + 1, t');
      assert t'.junk + OutNames(p.parallel, rep + 1, p.runs) == t.junk + OutNames(p.parallel, rep, p.runs);
    }
  }

  /** A passing test leaves as junk each repetition's output file and the
      files its `#>` globs matched on repetition 0, and nothing else. */
  lemma RepeatPassJunk(h: Host, saves: nat -> Saved, p: Plan)
    requires p.runs >= 1 && Repeat(h, saves, p, 0, Fresh).Ok? && Repeat(h, saves, p, 0, Fresh).value.thispass
    ensures Repeat(h, saves, p, 0, Fresh).value.junk ==
      [OutName(p.parallel, 0)] + OutputFiles(h, 0, p.outtols) + OutNames(p.parallel, 1, p.runs)
  {
    var t' := Step(h, saves, p, 0, Fresh).value;
    StepJunk(h, saves, p, 0, Fresh);
    RepeatPassJunkLater(h, saves, p, 1, t');
  }

  /** Junk only ever holds repetition output files and, from repetition 0,
      the files the `#>` globs matched. */
  lemma {:induction false} RepeatJunkSources(h: Host, saves: nat -> Saved, p: Plan, rep: nat, t: Trial)
    requires Repeat(h, saves, p, rep, t).Ok?
    ensures forall x :: x in Repeat(h, saves, p, rep, t).value.junk ==>
      x in t.junk || (exists k :: rep <= k < p.runs && x == OutName(p.parallel, k)) || (rep == 0 && x in OutputFiles(h, 0, p.outtols))
    decreases p.runs - rep
  {
    if rep < p.runs && t.thispass {
      var t' := Step(h, saves, p, rep, t).value;
      StepJunk(h, saves, p, rep, t);
      RepeatJunkSources(h, saves, p, rep + 1, t');
    }
  }

  /** A failing script ends the loop at once: its output file is junk and
      nothing else happens. */
  lemma ScriptFailureEndsLoop(h: Host, saves: nat -> Saved, p: Plan, rep: nat, t: Trial)
    requires rep < p.runs && t.thispass && saves(rep).failed
    ensures Repeat(h, saves, p, rep, t) == Ok(Trial(false, t.junk + [OutName(p.parallel, rep)], t.progs, t.texes))
  {
  }

  /** A tolerance mismatch on a later repetition does not cut the
      comparisons short, but no further repetition runs. */
  lemma ToleranceFailureEndsLoop(h: Host, saves: nat -> Saved, p: Plan, rep: nat, t: Trial)
    requires 1 <= rep < p.runs && t.thispass && !OutputsWithin(h, rep, p.outtols)
    requires !saves(rep).failed && (!p.dodiff || h.matchesRef(rep, saves(rep).text))
    ensures Repeat(h, saves, p, rep, t) == Ok(Trial(false, t.junk + [OutName(p.parallel, rep)], t.progs, t.texes))
  {
    assert t.junk + [OutName(p.parallel, rep)] + [] == t.junk + [OutName(p.parallel, rep)];
    assert t.progs + [] == t.progs && t.texes + [] == t.texes;
  }

  // ---------------------------------------------------------------------
  // Create-reference mode

  /** One `#>` glob in create mode: the listing check, then the move. */
  function MoveOne(h: Host, ot: OutTol): Result<(), Stop> {
    match ListingCheck(h.ls(ot.out), h.glob(0, ot.out))
    case Err(e) => Err(ListingFailed(ot.out, e))
    case Ok(_) => if h.mv(ot.out) then Ok(()) else Err(MoveFailed(ot.out))
  }

  /** The create-mode step for each `#>` glob of `h`. */
  function Mover(h: Host): OutTol -> Result<(), Stop> {
    ot => MoveOne(h, ot)
  }

  /** The `#>` globs handled in order by `move`; the first failure stops
      the run. */
  function MoveAll(outtols: seq<OutTol>, move: OutTol -> Result<(), Stop>): Result<(), Stop>
    decreases |outtols|
  {
    if outtols == [] then Ok(())
    else
      match MoveAll(outtols[..|outtols| - 1], move)
      case Err(s) => Err(s)
      case Ok(_) => move(outtols[|outtols| - 1])
  }

  /** Create mode: the script must succeed, every output glob must pass
      the listing check and be moved, then the programs are found. */
  function CreateRefResult(h: Host, d: DirectiveSet): Result<(seq<ProgGlob>, seq<string>), Stop> {
    if RunSave(h.script(0).0, h.script(0).1).failed then Err(RefScriptFailed)
    else
      match MoveAll(d.outtols, Mover(h))
      case Err(s) => Err(s)
      case Ok(_) =>
        match GlobResult(d.progs, GlobAt(h, 0), h.abspath)
        case Err(g) => Err(UnmatchedProgram(g))
        case Ok(r) => Ok(r)
  }

  method CreateRef(h: Host, d: DirectiveSet) returns (r: Result<(seq<ProgGlob>, seq<string>), Stop>)
    ensures r == CreateRefResult(h, d)
  {
    var (failed, text) := h.script(0);
    var saved := RunSave(failed, text);
    if saved.failed {
      return Err(RefScriptFailed);
    }
    var i := 0;
    while i < |d.outtols|
      invariant 0 <= i <= |d.outtols|
      invariant MoveAll(d.outtols[..i], Mover(h)) == Ok(())
    {
      var ot := d.outtols[i];
      assert d.outtols[..i + 1][..i] == d.outtols[..i];
      var check := ListingCheck(h.ls(ot.out), h.glob(0, ot.out));
      if check.Err? {
        MoveAllStops(d.outtols, Mover(h), i);
        return Err(ListingFailed(ot.out, check.error));
      }
      if !h.mv(ot.out) {
        MoveAllStops(d.outtols, Mover(h), i);
        return Err(MoveFailed(ot.out));
      }
      i := i + 1;
    }
    assert d.outtols[..i] == d.outtols;
    var found := GlobProgs(d.progs, GlobAt(h, 0), h.abspath);
    if found.Err? {
      return Err(UnmatchedProgram(found.error));
    }
    return Ok(found.value);
  }

  /** The first failing output glob decides the error. */
  lemma {:induction false} MoveAllStops(outtols: seq<OutTol>, move: OutTol -> Result<(), Stop>, i: nat)
    requires i < |outtols| && MoveAll(outtols[..i], move).Ok? && move(outtols[i]).Err?
    ensures MoveAll(outtols, move) == move(outtols[i])
    decreases |outtols|
  {
    var front := outtols[..|outtols| - 1];
    if i + 1 < |outtols| {
      assert front[..i] == outtols[..i] && front[i] == outtols[i];
      MoveAllStops(front, move, i);
    } else {
      assert front == outtols[..i];
    }
  }

  /** One output glob gets through exactly when `ls` and `glob.glob`
      list the same files and the move succeeds. */
  lemma MoveOneIff(h: Host, ot: OutTol)
    ensures MoveOne(h, ot).Ok? <==> ListingCheck(h.ls(ot.out), h.glob(0, ot.out)).Ok? && h.mv(ot.out)
  {
  }

  /** Create mode gets past the outputs exactly when every output glob
      gets through. */
  lemma {:induction false} MoveAllIff(outtols: seq<OutTol>, move: OutTol -> Result<(), Stop>)
    ensures MoveAll(outtols, move).Ok? <==> forall k :: 0 <= k < |outtols| ==> move(outtols[k]).Ok?
    decreases |outtols|
  {
    if outtols != [] {
      var n := |outtols| - 1;
      MoveAllIff(outtols[..n], move);
      assert forall k :: 0 <= k < n ==> outtols[..n][k] == outtols[k];
    }
  }

  /** Whether the `#>` glob `o` gets through create mode: `ls` succeeds,
      `glob.glob` matches something, the two list the same names, and
      the move succeeds. */
  predicate OutputMoves(h: Host, o: string) {
    h.ls(o).Some? && h.glob(0, o) != [] && multiset(SplitLines(h.ls(o).value)) == multiset(h.glob(0, o)) && h.mv(o)
  }

  /** Create mode succeeds exactly when the script succeeds, every `#>`
      glob gets through and every program glob matches some file. */
  lemma CreateRefOkIff(h: Host, d: DirectiveSet)
    ensures CreateRefResult(h, d).Ok? <==>
      && !RunSave(h.script(0).0, h.script(0).1).failed
      && (forall k :: 0 <= k < |d.outtols| ==> OutputMoves(h, d.outtols[k].out))
      && (forall k :: 0 <= k < |d.progs| ==> h.glob(0, d.progs[k].prog) != [])
  {
    MoveAllIff(d.outtols, Mover(h));
    forall k | 0 <= k < |d.outtols|
      ensures Mover(h)(d.outtols[k]).Ok? <==> OutputMoves(h, d.outtols[k].out)
    {
      MoveOneIff(h, d.outtols[k]);
      ListingCheckIff(h.ls(d.outtols[k].out), h.glob(0, d.outtols[k].out));
    }
    GlobFailsIff(d.progs, GlobAt(h, 0), h.abspath);
  }

  // ---------------------------------------------------------------------
  // One test, and the bookkeeping after it

  /** What one test amounts to, or why the run stops. */
  function TestTrial(h: Host, lines: seq<string>, createref: bool, parallel: int, runs: nat): Result<Trial, Stop> {
    match Parse(lines)
    case Err(e) => Err(BadScript(e))
    case Ok(d) =>
      if createref then
        match CreateRefResult(h, d)
        case Err(s) => Err(s)
        case Ok((progs, texes)) => Ok(Trial(true, [], progs, texes))
      else Repeat(h, Saves(h), Plan(parallel, runs, d.dodiff, d.outtols, d.progs), 0, Fresh)
  }

  /** The files compiling `p` leaves: `.o` and `.cxx`, and the
      `.diderot` source too when the script generated it. */
  function BuildArtifacts(p: ProgGlob): seq<string> {
    [p.prog + ".o", p.prog + ".cxx"] + (if p.tmp then [p.prog + ".diderot"] else [])
  }

  function Artifacts(ps: seq<ProgGlob>): seq<string>
    decreases |ps|
  {
    if ps == [] then [] else Artifacts(ps[..|ps| - 1]) + BuildArtifacts(ps[|ps| - 1])
  }

  /** What a finished test deletes at once. */
  function Cleanup(t: Trial, keepout: bool, keepcod: bool): seq<string> {
    if !t.thispass then []
    else (if keepout then [] else t.junk) + (if keepcod then [] else Artifacts(t.progs))
  }

  /** How far `os.remove` gets through `files`, all in one directory:
      the index of the first name already deleted earlier in the list,
      where `FileNotFoundError` ends the run, or `|files|`. */
  function FirstRepeat(files: seq<string>): (k: nat)
    ensures k <= |files|
    decreases |files|
  {
    if files == [] then 0
    else
      var n := |files| - 1;
      var k := FirstRepeat(files[..n]);
      if k < n then k else if files[n] in files[..n] then n else |files|
  }

  /** The deletions before the failure are of distinct names, the failing
      name is one of them, and the whole list is deleted exactly when it
      has no repeats. */
  lemma {:induction false} FirstRepeatSpec(files: seq<string>)
    ensures Prereq.NoDup(files[..FirstRepeat(files)])
    ensures FirstRepeat(files) < |files| ==> files[FirstRepeat(files)] in files[..FirstRepeat(files)]
    ensures FirstRepeat(files) == |files| <==> Prereq.NoDup(files)
    decreases |files|
  {
    if files != [] {
      var n := |files| - 1;
      var front := files[..n];
      FirstRepeatSpec(front);
      var k := FirstRepeat(front);
      assert files[..k] == front[..k];
      if k == n && files[n] !in front {
        FrontLast(files);
        assert files[..|files|] == files;
      }
      if k == n && files[n] in front {
        var m :| 0 <= m < n && front[m] == files[n];
        assert files[m] == files[n];
      }
      if k < n {
        assert files[k] == front[k];
        var m :| 0 <= m < k && front[m] == front[k];
        assert files[m] == files[k];
      }
    }
  }

  /** One more name, after names that were all deleted. */
  lemma FirstRepeatStep(files: seq<string>, i: nat)
    requires i < |files| && FirstRepeat(files[..i]) == i
    ensures FirstRepeat(files[..i + 1]) == if files[i] in files[..i] then i else i + 1
  {
    assert files[..i + 1][..i] == files[..i];
  }

  /** A failure in a prefix is the failure of the whole list. */
  lemma {:induction false} FirstRepeatStops(files: seq<string>, i: nat)
    requires i <= |files| && FirstRepeat(files[..i]) < i
    ensures FirstRepeat(files) == FirstRepeat(files[..i])
    decreases |files|
  {
    if i < |files| {
      var n := |files| - 1;
      assert files[..n][..i] == files[..i];
      FirstRepeatStops(files[..n], i);
    } else {
      assert files[..i] == files;
    }
  }

  /** A failed test deletes nothing. */
  lemma FailureDeletesNothing(t: Trial, keepout: bool, keepcod: bool)
    requires !t.thispass
    ensures Cleanup(t, keepout, keepcod) == []
  {
  }

  /** A `.diderot` name among the artifacts belongs to a `#tmp` program:
      a source declared only with `#prog` is never deleted. */
  lemma {:induction false} ArtifactSources(ps: seq<ProgGlob>, n: string)
    requires n + ".diderot" in Artifacts(ps)
    ensures exists p :: p in ps && p.tmp && p.prog == n
    decreases |ps|
  {
    var x := n + ".diderot";
    var front := ps[..|ps| - 1];
    var p := ps[|ps| - 1];
    if x in Artifacts(front) {
      ArtifactSources(front, n);
      var q :| q in front && q.tmp && q.prog == n;
      assert q in ps;
    } else {
      assert x in BuildArtifacts(p);
      assert x[|x| - 1] == 't';
      assert x != p.prog + ".o" by {
        var y := p.prog + ".o";
        assert y[|y| - 1] == 'o';
      }
      assert x != p.prog + ".cxx" by {
        var y := p.prog + ".cxx";
        assert y[|y| - 1] == 'x';
      }
      assert p.tmp && x == p.prog + ".diderot";
      assert n == x[..|x| - 8] == p.prog;
    }
  }

  /** Each artifact comes from a program of the test. */
  lemma {:induction false} ArtifactsCover(ps: seq<ProgGlob>)
    ensures forall p :: p in ps ==> p.prog + ".o" in Artifacts(ps) && p.prog + ".cxx" in Artifacts(ps)
    ensures forall p :: p in ps && p.tmp ==> p.prog + ".diderot" in Artifacts(ps)
    decreases |ps|
  {
    if ps != [] {
      var front := ps[..|ps| - 1];
      ArtifactsCover(front);
      assert ps == front + [ps[|ps| - 1]];
    }
  }

  lemma {:induction false} NoDupOnce(xs: seq<string>, x: string)
    requires Prereq.NoDup(xs)
    ensures multiset(xs)[x] <= 1
    decreases |xs|
  {
    if xs != [] {
      var n := |xs| - 1;
      NoDupOnce(xs[..n], x);
      FrontLast(xs);
      if x == xs[n] {
        assert x !in xs[..n];
      }
    }
  }

  /** When the tests run are distinct, each ends up in exactly one of the
      two lists, and nothing else is in them. */
  lemma ExactlyOne(passed: seq<string>, failed: seq<string>, done: seq<string>)
    requires multiset(passed) + multiset(failed) == multiset(done) && Prereq.NoDup(done)
    ensures forall t :: t in done ==> (t in passed) != (t in failed)
    ensures forall t :: t in passed || t in failed ==> t in done
  {
    forall t | t in done ensures (t in passed) != (t in failed) {
      NoDupOnce(done, t);
      assert multiset(done)[t] == 1;
    }
    forall t | t in passed || t in failed ensures t in done {
      assert multiset(done)[t] > 0;
    }
  }

  /** The build files of the programs, program by program. */
  method BuildFiles(ps: seq<ProgGlob>) returns (files: seq<string>)
    ensures files == Artifacts(ps)
  {
    files := [];
    var i := 0;
    while i < |ps|
      invariant 0 <= i <= |ps|
      invariant files == Artifacts(ps[..i])
    {
      assert ps[..i + 1][..i] == ps[..i];
      files := files + BuildArtifacts(ps[i]);
      i := i + 1;
    }
    assert ps[..i] == ps;
  }

  /** What a passing test deletes, junk first and then the build files. */
  method CleanupFiles(t: Trial, keepout: bool, keepcod: bool) returns (gone: seq<string>)
    requires t.thispass
    ensures gone == Cleanup(t, keepout, keepcod)
  {
    gone := if keepout then [] else t.junk;
    if !keepcod {
      var files := BuildFiles(t.progs);
      gone := gone + files;
    } else {
      assert gone + [] == gone;
    }
  }

  /** The runner's lists across tests. `done` is the tests finished so far. */
  class Suite {
    var passed: seq<string>
    var failed: seq<string>
    var execs: seq<string>    // executables deleted at the very end
    var removed: seq<string>  // files deleted so far, in order
    ghost var done: seq<string>

    ghost predicate Valid()
      reads this
    {
      multiset(passed) + multiset(failed) == multiset(done)
    }

    constructor ()
      ensures Valid()
      ensures passed == [] && failed == [] && execs == [] && removed == [] && done == []
    {
      passed, failed, execs, removed, done := [], [], [], [], [];
    }

    /** `os.remove` on each file in turn, in one directory: a name
        deleted earlier in the list is gone, and the run stops there. */
    method Remove(files: seq<string>) returns (stop: Option<Stop>)
      modifies this
      ensures removed == old(removed) + files[..FirstRepeat(files)]
      ensures stop == if FirstRepeat(files) < |files| then Some(RemoveFailed(files[FirstRepeat(files)])) else None
      ensures passed == old(passed) && failed == old(failed) && execs == old(execs) && done == old(done)
    {
      var gone := removed;
      var i := 0;
      while i < |files|
        invariant 0 <= i <= |files|
        invariant FirstRepeat(files[..i]) == i
        invariant gone == removed + files[..i]
        invariant removed == old(removed) && passed == old(passed) && failed == old(failed)
        invariant execs == old(execs) && done == old(done)
      {
        FirstRepeatStep(files, i);
        if files[i] in files[..i] {
          FirstRepeatStops(files, i + 1);
          removed := gone;
          return Some(RemoveFailed(files[i]));
        }
        TakeSnoc(files, i);
        gone := gone + [files[i]];
        i := i + 1;
      }
      assert files[..i] == files;
      removed := gone;
      return None;
    }

    /** Enters a finished test in `passed` or `failed`. */
    method Record(tt: string, pass: bool)
      requires Valid()
      modifies this
      ensures Valid()
      ensures done == old(done) + [tt]
      ensures passed == old(passed) + (if pass then [tt] else [])
      ensures failed == old(failed) + (if pass then [] else [tt])
      ensures removed == old(removed) && execs == old(execs)
    {
      if pass {
        passed := passed + [tt];
      } else {
        failed := failed + [tt];
      }
      done := done + [tt];
    }

    /** The end of one test: a passing test deletes its junk unless
        `-ko`, its build files unless `-kc`, and defers its executables;
        a failing test is only recorded. A repeated name among the
        deletions stops the run before the test is recorded. */
    method Conclude(tt: string, t: Trial, keepout: bool, keepcod: bool) returns (stop: Option<Stop>)
      requires Valid()
      modifies this
      ensures Valid()
      ensures var gone := Cleanup(t, keepout, keepcod);
        && removed == old(removed) + gone[..FirstRepeat(gone)]
        && (FirstRepeat(gone) < |gone| ==>
              && stop == Some(RemoveFailed(gone[FirstRepeat(gone)]))
              && passed == old(passed) && failed == old(failed) && execs == old(execs) && done == old(done))
        && (FirstRepeat(gone) == |gone| ==>
              && stop.None? && done == old(done) + [tt]
              && passed == old(passed) + (if t.thispass then [tt] else [])
              && failed == old(failed) + (if t.thispass then [] else [tt])
              && execs == old(execs) + (if t.thispass then t.texes else []))
    {
      if !t.thispass {
        Record(tt, false);
        return None;
      }
      var gone := CleanupFiles(t, keepout, keepcod);
      stop := Remove(gone);
      if stop.None? {
        execs := execs + t.texes;
        Record(tt, true);
      }
    }

    /** The final cleanup: deferred executables are deleted unless `-ke`;
        an executable listed twice stops the run at its second deletion. */
    method FinalSweep(keepexe: bool) returns (stop: Option<Stop>)
      modifies this
      ensures var gone := if keepexe then [] else execs;
        && removed == old(removed) + gone[..FirstRepeat(gone)]
        && stop == if FirstRepeat(gone) < |gone| then Some(RemoveFailed(gone[FirstRepeat(gone)])) else None
      ensures passed == old(passed) && failed == old(failed) && execs == old(execs) && done == old(done)
    {
      stop := None;
      if !keepexe {
        stop := Remove(execs);
      }
    }

    /** One test from its script to its verdict; `Some` when the run stops. */
    method RunTest(tt: string, lines: seq<string>, h: Host, createref: bool, parallel: int, runs: nat,
                   keepout: bool, keepcod: bool)
      returns (stop: Option<Stop>)
      requires Valid() && Runs(parallel, createref) == Ok(runs)
      modifies this
      ensures Valid()
      ensures TestTrial(h, lines, createref, parallel, runs).Err? ==> stop == Some(TestTrial(h, lines, createref, parallel, runs).error)
      ensures TestTrial(h, lines, createref, parallel, runs).Ok? ==>
        var t := TestTrial(h, lines, createref, parallel, runs).value;
        var gone := Cleanup(t, keepout, keepcod);
        && removed == old(removed) + gone[..FirstRepeat(gone)]
        && (FirstRepeat(gone) < |gone| ==>
              && stop == Some(RemoveFailed(gone[FirstRepeat(gone)]))
              && passed == old(passed) && failed == old(failed) && execs == old(execs) && done == old(done))
        && (FirstRepeat(gone) == |gone| ==>
              && stop.None? && done == old(done) + [tt]
              && passed == old(passed) + (if t.thispass then [tt] else [])
              && failed == old(failed) + (if t.thispass then [] else [tt])
              && execs == old(execs) + (if t.thispass then t.texes else []))
    {
      var parsed := ParseScript(lines);
      if parsed.Err? {
        return Some(BadScript(parsed.error));
      }
      var d := parsed.value;
      var t: Trial;
      if createref {
        var made := CreateRef(h, d);
        if made.Err? {
          return Some(made.error);
        }
        t := Trial(true, [], made.value.0, made.value.1);
      } else {
        var r := CompareRuns(h, Plan(parallel, runs, d.dodiff, d.outtols, d.progs));
        if r.Err? {
          return Some(r.error);
        }
        t := r.value;
      }
      stop := Conclude(tt, t, keepout, keepcod);
    }

    /** The main loop over the expanded test list, then the final sweep;
        `Some` when the run stops. */
    method RunAll(tests: seq<string>, scripts: string -> seq<string>, hosts: string -> Host,
                  createref: bool, parallel: int, runs: nat, keepout: bool, keepcod: bool, keepexe: bool)
      returns (stop: Option<Stop>)
      requires Valid() && Runs(parallel, createref) == Ok(runs)
      modifies this
      ensures stop.None? ==> Valid() && done == old(done) + tests
    {
      var i := 0;
      while i < |tests|
        invariant 0 <= i <= |tests|
        invariant Valid() && done == old(done) + tests[..i]
      {
        assert tests[..i + 1] == tests[..i] + [tests[i]];
        stop := RunTest(tests[i], scripts(tests[i]), hosts(tests[i]), createref, parallel, runs, keepout, keepcod);
        if stop.Some? {
          return;
        }
        i := i + 1;
      }
      assert tests[..i] == tests;
      stop := FinalSweep(keepexe);
    }
  }
}
