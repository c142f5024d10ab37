/** The `.test.sh` directive parser of runtests.py: the lines of a test
    script that start with `#I`, `#tmp`, `#prog` or `#>` declare how the
    runner treats the test; every other line is an ordinary shell line.

    Lines are taken as Python's `for line in f` yields them, that is with
    their line terminator still attached; the parser strips it itself. */
module Directives {
  import opened Outcomes
  import opened Text

  /** A `#tmp` or `#prog` declaration: the glob naming `PROG.diderot`
      sources, and whether the test script generated them (`tmp`). */
  datatype ProgGlob = ProgGlob(prog: string, tmp: bool)

  /** A `#>` declaration: output files to compare, and the tolerance
      handed to `unu diff`. */
  datatype OutTol = OutTol(out: string, tol: string)

  /** What one script declares; `dodiff` is false when a `#I` line asks
      to skip the exact comparison of `out.txt`. */
  datatype DirectiveSet = DirectiveSet(progs: seq<ProgGlob>, outtols: seq<OutTol>, dodiff: bool)

  /** How the parser reads one line: which marker it starts with, and
      the text after that marker. */
  datatype Line = IgnoreDiff | TmpProg(rest: string) | Prog(rest: string) | Output(rest: string) | Plain

  datatype ParseError =
    | BadOutputLine(index: nat)  // a `#>` line with fewer than two tokens: IndexError
    | NoPrograms                 // no `#tmp` or `#prog` line: the run stops

  /** The first marker that matches decides, in the order `#I`, `#tmp`,
      `#prog`, `#>`. */
  function Classify(line: string): Line {
    if StartsWith(line, "#I") then IgnoreDiff
    else if StartsWith(line, "#tmp") then TmpProg(line[4..])
    else if StartsWith(line, "#prog") then Prog(line[5..])
    else if StartsWith(line, "#>") then Output(line[2..])
    else Plain
  }

  /** The glob of a program line: the text after the marker without the
      spaces that follow the marker, right-stripped
      (`re.sub('^#tmp *', '', line).rstrip()`). */
  function GlobOf(rest: string): string
    decreases |rest|
  {
    if rest != [] && rest[0] == ' ' then GlobOf(rest[1..]) else RStrip(rest)
  }

  /** The whitespace-separated tokens of an output line
      (`re.sub('^#> *', '', line).split()`). */
  function TokensOf(rest: string): seq<string>
    decreases |rest|
  {
    if rest != [] && rest[0] == ' ' then TokensOf(rest[1..]) else Split(rest)
  }

  predicate IsProgram(l: Line) {
    l.TmpProg? || l.Prog?
  }

  /** The declaration a program line makes. */
  function DeclOf(l: Line): ProgGlob
    requires IsProgram(l)
  {
    ProgGlob(GlobOf(l.rest), l.TmpProg?)
  }

  /** A `#>` line without both an output glob and a tolerance. */
  predicate Malformed(line: string) {
    Classify(line).Output? && |TokensOf(Classify(line).rest)| < 2
  }

  /** The program declarations, in script order. */
  function Programs(lines: seq<string>): (r: seq<ProgGlob>)
    ensures |r| <= |lines|
    decreases |lines|
  {
    if lines == [] then []
    else
      var front := lines[..|lines| - 1];
      var l := Classify(lines[|lines| - 1]);
      if IsProgram(l) then Programs(front) + [DeclOf(l)] else Programs(front)
  }

  /** No `#>` line among `lines` is malformed. */
  predicate WellFormed(lines: seq<string>)
    decreases |lines|
  {
    lines == [] || (WellFormed(lines[..|lines| - 1]) && !Malformed(lines[|lines| - 1]))
  }

  /** The output declarations, each keeping the first two tokens of its line. */
  function Outputs(lines: seq<string>): (r: seq<OutTol>)
    requires WellFormed(lines)
    ensures |r| <= |lines|
    decreases |lines|
  {
    if lines == [] then []
    else
      var front := lines[..|lines| - 1];
      var l := Classify(lines[|lines| - 1]);
      if l.Output? then
        var foo := TokensOf(l.rest);
        Outputs(front) + [OutTol(foo[0], foo[1])]
      else Outputs(front)
  }

  /** Whether some line is a `#I` line. */
  predicate Ignoring(lines: seq<string>)
    decreases |lines|
  {
    lines != [] && (Ignoring(lines[..|lines| - 1]) || Classify(lines[|lines| - 1]).IgnoreDiff?)
  }

  /** The index of the first malformed `#>` line, if any. */
  function FirstMalformed(lines: seq<string>): (r: Option<nat>)
    ensures r.None? <==> WellFormed(lines)
    ensures r.Some? ==> r.value < |lines|
    decreases |lines|
  {
    if lines == [] then None
    else
      match FirstMalformed(lines[..|lines| - 1])
      case Some(k) => Some(k)
      case None => if Malformed(lines[|lines| - 1]) then Some(|lines| - 1) else None
  }

  /** What parsing a whole script yields: the first malformed `#>` line
      stops it, then a script without program declarations is refused. */
  function Parse(lines: seq<string>): Result<DirectiveSet, ParseError> {
    match FirstMalformed(lines)
    case Some(k) => Err(BadOutputLine(k))
    case None =>
      if Programs(lines) == [] then Err(NoPrograms)
      else Ok(DirectiveSet(Programs(lines), Outputs(lines), !Ignoring(lines)))
  }

  /** The parsing loop of runtests.py: one pass over the lines, appending
      to `progglobs` and `outtols` and clearing `dodiff`. */
  method ParseScript(lines: seq<string>) returns (r: Result<DirectiveSet, ParseError>)
    ensures r == Parse(lines)
  {
    var progglobs: seq<ProgGlob> := [];
    var outtols: seq<OutTol> := [];
    var dodiff := true;
    var i := 0;
    while i < |lines|
      invariant 0 <= i <= |lines|
      invariant WellFormed(lines[..i])
      invariant progglobs == Programs(lines[..i])
      invariant outtols == Outputs(lines[..i])
      invariant dodiff == !Ignoring(lines[..i])
    {
      var ok;
      ok, progglobs, outtols, dodiff := ParseLine(lines[..i], lines[i], progglobs, outtols, dodiff);
      TakeSnoc(lines, i);
      if !ok {
        FirstMalformedAt(lines, i);
        return Err(BadOutputLine(i));
      }
      i := i + 1;
    }
    assert lines[..i] == lines;
    if progglobs == [] {
      return Err(NoPrograms);
    }
    return Ok(DirectiveSet(progglobs, outtols, dodiff));
  }

  /** One iteration of the parsing loop, after the lines `ls`: `ok` is
      false for a malformed `#>` line, where the source raises. */
  method ParseLine(ls: seq<string>, line: string, progglobs0: seq<ProgGlob>, outtols0: seq<OutTol>, dodiff0: bool)
    returns (ok: bool, progglobs: seq<ProgGlob>, outtols: seq<OutTol>, dodiff: bool)
    requires WellFormed(ls) && progglobs0 == Programs(ls) && outtols0 == Outputs(ls) && dodiff0 == !Ignoring(ls)
    ensures ok <==> !Malformed(line)
    ensures ok ==>
      (&& WellFormed(ls + [line]) && progglobs == Programs(ls + [line])
       && outtols == Outputs(ls + [line]) && dodiff == !Ignoring(ls + [line]))
  {
    ok, progglobs, outtols, dodiff := true, progglobs0, outtols0, dodiff0;
    WellFormedSnoc(ls, line);
    ProgramsSnoc(ls, line);
    IgnoringSnoc(ls, line);
    match Classify(line) {
      case IgnoreDiff =>
        dodiff := false;
      case TmpProg(rest) =>
        progglobs := progglobs + [ProgGlob(GlobOf(rest), true)];
      case Prog(rest) =>
        progglobs := progglobs + [ProgGlob(GlobOf(rest), false)];
      case Output(rest) =>
        var foo := TokensOf(rest);
        if |foo| < 2 {
          return false, progglobs, outtols, dodiff;
        }
        outtols := outtols + [OutTol(foo[0], foo[1])];
      case Plain =>
    }
    OutputsSnoc(ls, line);
  }

  lemma WellFormedSnoc(ls: seq<string>, l: string)
    ensures WellFormed(ls + [l]) == (WellFormed(ls) && !Malformed(l))
  {
    LastLine(ls, l);
  }

  lemma ProgramsSnoc(ls: seq<string>, l: string)
    ensures Programs(ls + [l]) == Programs(ls) + (if IsProgram(Classify(l)) then [DeclOf(Classify(l))] else [])
  {
    LastLine(ls, l);
  }

  lemma IgnoringSnoc(ls: seq<string>, l: string)
    ensures Ignoring(ls + [l]) == (Ignoring(ls) || Classify(l).IgnoreDiff?)
  {
    LastLine(ls, l);
  }

  lemma OutputsSnoc(ls: seq<string>, l: string)
    requires WellFormed(ls) && !Malformed(l)
    ensures WellFormed(ls + [l])
    ensures Outputs(ls + [l]) == Outputs(ls) + (if Classify(l).Output? then
      [OutTol(TokensOf(Classify(l).rest)[0], TokensOf(Classify(l).rest)[1])] else [])
  {
    LastLine(ls, l);
  }

  /** The first malformed line after a well-formed prefix is reported. */
  lemma {:induction false} FirstMalformedAt(lines: seq<string>, i: nat)
    requires i < |lines| && WellFormed(lines[..i]) && Malformed(lines[i])
    ensures FirstMalformed(lines) == Some(i)
    decreases |lines|
  {
    var front := lines[..|lines| - 1];
    if i < |lines| - 1 {
      assert front[..i] == lines[..i] && front[i] == lines[i];
      FirstMalformedAt(front, i);
    } else {
      assert front == lines[..i];
    }
  }

  /** The reported line is malformed and every line before it is not. */
  lemma {:induction false} FirstMalformedSpec(lines: seq<string>)
    ensures FirstMalformed(lines).Some? ==>
      var k := FirstMalformed(lines).value;
      Malformed(lines[k]) && WellFormed(lines[..k])
    decreases |lines|
  {
    if lines != [] {
      var front := lines[..|lines| - 1];
      FirstMalformedSpec(front);
      if FirstMalformed(front).Some? {
        var k := FirstMalformed(front).value;
        assert front[k] == lines[k] && front[..k] == lines[..k];
      }
    }
  }

  /** No declaration comes out exactly when no line is a program line. */
  lemma {:induction false} ProgramsEmpty(lines: seq<string>)
    ensures Programs(lines) == [] <==> forall i :: 0 <= i < |lines| ==> !IsProgram(Classify(lines[i]))
    decreases |lines|
  {
    if lines != [] {
      var n := |lines| - 1;
      ProgramsEmpty(lines[..n]);
      FrontLast(lines);
      ProgramsSnoc(lines[..n], lines[n]);
      assert forall i :: 0 <= i < n ==> lines[..n][i] == lines[i];
    }
  }

  /** Every declaration is made by some program line of the script. */
  lemma {:induction false} ProgramsFrom(lines: seq<string>)
    ensures forall d :: d in Programs(lines) ==>
      exists i :: 0 <= i < |lines| && IsProgram(Classify(lines[i])) && DeclOf(Classify(lines[i])) == d
    decreases |lines|
  {
    if lines != [] {
      var n := |lines| - 1;
      ProgramsFrom(lines[..n]);
      FrontLast(lines);
      ProgramsSnoc(lines[..n], lines[n]);
      assert forall i :: 0 <= i < n ==> lines[..n][i] == lines[i];
    }
  }

  /** The comparison is skipped exactly when some line is a `#I` line. */
  lemma {:induction false} IgnoringIff(lines: seq<string>)
    ensures Ignoring(lines) <==> exists i :: 0 <= i < |lines| && Classify(lines[i]).IgnoreDiff?
    decreases |lines|
  {
    if lines != [] {
      var n := |lines| - 1;
      IgnoringIff(lines[..n]);
      FrontLast(lines);
      IgnoringSnoc(lines[..n], lines[n]);
      assert forall i :: 0 <= i < n ==> lines[..n][i] == lines[i];
    }
  }

  /** A script without a `#tmp` or `#prog` line is always refused: with
      the malformed `#>` line when there is one, otherwise for want of
      programs. */
  lemma NoProgramsRefused(lines: seq<string>)
    requires forall i :: 0 <= i < |lines| ==> !IsProgram(Classify(lines[i]))
    ensures FirstMalformed(lines).Some? ==> Parse(lines) == Err(BadOutputLine(FirstMalformed(lines).value))
    ensures FirstMalformed(lines).None? ==> Parse(lines) == Err(NoPrograms)
  {
    ProgramsEmpty(lines);
  }

  // ---------------------------------------------------------------------
  // Writing directives back as script lines

  function ProgLine(p: ProgGlob): string {
    (if p.tmp then "#tmp" else "#prog") + (" " + p.prog)
  }

  function OutLine(o: OutTol): string {
    "#>" + (" " + (o.out + (" " + o.tol)))
  }

  function ProgLines(ps: seq<ProgGlob>): (r: seq<string>)
    ensures |r| == |ps|
  {
    if ps == [] then [] else ProgLines(ps[..|ps| - 1]) + [ProgLine(ps[|ps| - 1])]
  }

  function OutLines(os: seq<OutTol>): (r: seq<string>)
    ensures |r| == |os|
  {
    if os == [] then [] else OutLines(os[..|os| - 1]) + [OutLine(os[|os| - 1])]
  }

  /** A script declaring exactly `d`. */
  function Render(d: DirectiveSet): seq<string> {
    (if d.dodiff then [] else ["#I"]) + ProgLines(d.progs) + OutLines(d.outtols)
  }

  /** A glob that survives the marker's space-skipping and right-strip. */
  predicate PlainGlob(g: string) {
    g == [] || (g[0] != ' ' && !IsSpace(g[|g| - 1]))
  }

  /** What a script can declare: at least one program, globs that are
      not altered by stripping, output globs and tolerances that are
      single tokens. */
  predicate Declarable(d: DirectiveSet) {
    && d.progs != []
    && (forall p :: p in d.progs ==> PlainGlob(p.prog))
    && (forall o :: o in d.outtols ==> IsToken(o.out) && IsToken(o.tol))
  }

  lemma GlobOfSpaced(g: string)
    requires PlainGlob(g)
    ensures GlobOf(" " + g) == g
  {
    assert (" " + g)[1..] == g;
  }

  lemma TokensOfSkip(rest: string)
    ensures TokensOf(" " + rest) == TokensOf(rest)
  {
    assert (" " + rest)[1..] == rest;
  }

  lemma TokensOfStart(a: string, b: string)
    requires IsToken(a)
    ensures TokensOf(a + (" " + b)) == Split(a + (" " + b))
  {
    assert (a + (" " + b))[0] == a[0];
  }

  lemma SplitTokenThenSpaced(a: string, b: string)
    requires IsToken(a)
    ensures Split(a + (" " + b)) == [a] + Split(" " + b)
  {
    SplitToken(a, " " + b);
  }

  lemma SplitSpacedToken(b: string)
    requires IsToken(b)
    ensures Split(" " + b) == [b]
  {
    SplitSkipsSpace(' ', b);
    SplitToken(b, []);
    assert b + [] == b;
  }

  lemma SplitPair(a: string, b: string)
    requires IsToken(a) && IsToken(b)
    ensures Split(a + (" " + b)) == [a, b]
  {
    SplitTokenThenSpaced(a, b);
    SplitSpacedToken(b);
  }

  lemma TokensOfSpaced(a: string, b: string)
    requires IsToken(a) && IsToken(b)
    ensures TokensOf(" " + (a + (" " + b))) == [a, b]
  {
    TokensOfSkip(a + (" " + b));
    TokensOfStart(a, b);
    SplitPair(a, b);
  }

  lemma ClassifyTmp(rest: string)
    ensures Classify("#tmp" + rest) == TmpProg(rest)
  {
    var line := "#tmp" + rest;
    assert line[1] == 't' && line[..4] == "#tmp" && line[4..] == rest;
  }

  lemma ClassifyProg(rest: string)
    ensures Classify("#prog" + rest) == Prog(rest)
  {
    var line := "#prog" + rest;
    assert line[1] == 'p' && line[..5] == "#prog" && line[5..] == rest;
  }

  lemma ClassifyOutput(rest: string)
    ensures Classify("#>" + rest) == Output(rest)
  {
    var line := "#>" + rest;
    assert line[1] == '>' && line[..2] == "#>" && line[2..] == rest;
  }

  lemma ClassifyProgLine(p: ProgGlob)
    requires PlainGlob(p.prog)
    ensures IsProgram(Classify(ProgLine(p))) && DeclOf(Classify(ProgLine(p))) == p
  {
    if p.tmp {
      ClassifyTmp(" " + p.prog);
    } else {
      ClassifyProg(" " + p.prog);
    }
    GlobOfSpaced(p.prog);
  }

  lemma ClassifyOutLine(o: OutTol)
    requires IsToken(o.out) && IsToken(o.tol)
    ensures Classify(OutLine(o)) == Output(" " + (o.out + (" " + o.tol)))
    ensures TokensOf(Classify(OutLine(o)).rest) == [o.out, o.tol]
  {
    ClassifyOutput(" " + (o.out + (" " + o.tol)));
    TokensOfSpaced(o.out, o.tol);
  }

  /** Dropping the last line of `ls + [l]` gives back `ls`. */
  lemma LastLine(ls: seq<string>, l: string)
    ensures (ls + [l])[..|ls + [l]| - 1] == ls && (ls + [l])[|ls + [l]| - 1] == l
  {
  }

  lemma {:induction false} ProgramsAppend(a: seq<string>, b: seq<string>)
    ensures Programs(a + b) == Programs(a) + Programs(b)
    decreases |b|
  {
    if b != [] {
      var b' := b[..|b| - 1];
      var l := b[|b| - 1];
      AppendFrontLast(a, b);
      ProgramsAppend(a, b');
      ProgramsSnoc(a + b', l);
      ProgramsSnoc(b', l);
    } else {
      assert a + b == a;
    }
  }

  lemma {:induction false} IgnoringAppend(a: seq<string>, b: seq<string>)
    ensures Ignoring(a + b) == (Ignoring(a) || Ignoring(b))
    decreases |b|
  {
    if b != [] {
      var b' := b[..|b| - 1];
      var l := b[|b| - 1];
      AppendFrontLast(a, b);
      IgnoringAppend(a, b');
      IgnoringSnoc(a + b', l);
      IgnoringSnoc(b', l);
    } else {
      assert a + b == a;
    }
  }

  lemma {:induction false} OutputsAppend(a: seq<string>, b: seq<string>)
    requires WellFormed(a) && WellFormed(b)
    ensures WellFormed(a + b)
    ensures Outputs(a + b) == Outputs(a) + Outputs(b)
    decreases |b|
  {
    if b != [] {
      var b' := b[..|b| - 1];
      var l := b[|b| - 1];
      AppendFrontLast(a, b);
      WellFormedSnoc(b', l);
      OutputsAppend(a, b');
      OutputsSnoc(a + b', l);
      OutputsSnoc(b', l);
    } else {
      assert a + b == a;
    }
  }

  /** Program lines declare no outputs and do not skip the comparison. */
  lemma {:induction false} ProgramLinesOnly(ls: seq<string>)
    requires forall i :: 0 <= i < |ls| ==> IsProgram(Classify(ls[i]))
    ensures WellFormed(ls) && Outputs(ls) == [] && !Ignoring(ls)
    decreases |ls|
  {
    if ls != [] {
      var n := |ls| - 1;
      ProgramLinesOnly(ls[..n]);
      FrontLast(ls);
      IgnoringSnoc(ls[..n], ls[n]);
      OutputsSnoc(ls[..n], ls[n]);
    }
  }

  /** A script made only of program lines declares exactly their programs. */
  lemma {:induction false} ProgramScript(ls: seq<string>, ps: seq<ProgGlob>)
    requires |ls| == |ps|
    requires forall i :: 0 <= i < |ls| ==> IsProgram(Classify(ls[i])) && DeclOf(Classify(ls[i])) == ps[i]
    ensures Programs(ls) == ps
    decreases |ls|
  {
    if ls != [] {
      var n := |ls| - 1;
      ProgramScript(ls[..n], ps[..n]);
      FrontLast(ls);
      ProgramsSnoc(ls[..n], ls[n]);
      FrontLast(ps);
    }
  }

  /** Output lines declare no programs and do not skip the comparison. */
  lemma {:induction false} OutputLinesOnly(ls: seq<string>)
    requires forall i :: 0 <= i < |ls| ==> Classify(ls[i]).Output?
    ensures !Ignoring(ls) && Programs(ls) == []
    decreases |ls|
  {
    if ls != [] {
      var n := |ls| - 1;
      OutputLinesOnly(ls[..n]);
      FrontLast(ls);
      ProgramsSnoc(ls[..n], ls[n]);
      IgnoringSnoc(ls[..n], ls[n]);
    }
  }

  /** A script made only of well-formed output lines declares exactly their outputs. */
  lemma {:induction false} OutputScript(ls: seq<string>, os: seq<OutTol>)
    requires |ls| == |os|
    requires forall i :: 0 <= i < |ls| ==>
      Classify(ls[i]).Output? && TokensOf(Classify(ls[i]).rest) == [os[i].out, os[i].tol]
    ensures WellFormed(ls) && Outputs(ls) == os
    decreases |ls|
  {
    if ls != [] {
      var n := |ls| - 1;
      assert forall i :: 0 <= i < n ==> ls[..n][i] == ls[i] && os[..n][i] == os[i];
      OutputScript(ls[..n], os[..n]);
      FrontLast(ls);
      OutputsSnoc(ls[..n], ls[n]);
      FrontLast(os);
    }
  }

  lemma {:induction false} ProgLinesAt(ps: seq<ProgGlob>, i: nat)
    requires i < |ps|
    ensures ProgLines(ps)[i] == ProgLine(ps[i])
    decreases |ps|
  {
    if i < |ps| - 1 {
      ProgLinesAt(ps[..|ps| - 1], i);
    }
  }

  lemma {:induction false} OutLinesAt(os: seq<OutTol>, i: nat)
    requires i < |os|
    ensures OutLines(os)[i] == OutLine(os[i])
    decreases |os|
  {
    if i < |os| - 1 {
      OutLinesAt(os[..|os| - 1], i);
    }
  }

  /** Rendered program lines parse as exactly the program declarations. */
  lemma ProgLinesParse(ps: seq<ProgGlob>)
    requires forall p :: p in ps ==> PlainGlob(p.prog)
    ensures WellFormed(ProgLines(ps)) && Outputs(ProgLines(ps)) == []
    ensures !Ignoring(ProgLines(ps)) && Programs(ProgLines(ps)) == ps
  {
    var ls := ProgLines(ps);
    forall i | 0 <= i < |ls| ensures IsProgram(Classify(ls[i])) && DeclOf(Classify(ls[i])) == ps[i] {
      ProgLinesAt(ps, i);
      ClassifyProgLine(ps[i]);
    }
    ProgramLinesOnly(ls);
    ProgramScript(ls, ps);
  }

  /** Rendered output lines parse as exactly the output declarations. */
  lemma OutLinesParse(os: seq<OutTol>)
    requires forall o :: o in os ==> IsToken(o.out) && IsToken(o.tol)
    ensures WellFormed(OutLines(os)) && Outputs(OutLines(os)) == os
    ensures !Ignoring(OutLines(os)) && Programs(OutLines(os)) == []
  {
    var ls := OutLines(os);
    forall i | 0 <= i < |ls|
      ensures Classify(ls[i]).Output? && TokensOf(Classify(ls[i]).rest) == [os[i].out, os[i].tol]
    {
      OutLinesAt(os, i);
      ClassifyOutLine(os[i]);
    }
    OutputLinesOnly(ls);
    OutputScript(ls, os);
  }

  /** The optional `#I` line declares nothing but the skipped comparison. */
  lemma HeadParse(dodiff: bool)
    ensures var head: seq<string> := if dodiff then [] else ["#I"];
      WellFormed(head) && Outputs(head) == [] && Programs(head) == [] && Ignoring(head) == !dodiff
  {
    if !dodiff {
      assert Classify("#I") == IgnoreDiff;
      ProgramsSnoc([], "#I");
      IgnoringSnoc([], "#I");
      OutputsSnoc([], "#I");
      assert [] + ["#I"] == ["#I"];
    }
  }

  /** What a rendered script declares, line group by line group. */
  lemma RenderDeclares(d: DirectiveSet)
    requires Declarable(d)
    ensures WellFormed(Render(d))
    ensures Programs(Render(d)) == d.progs && Outputs(Render(d)) == d.outtols
    ensures Ignoring(Render(d)) == !d.dodiff
  {
    var head: seq<string> := if d.dodiff then [] else ["#I"];
    var pl := ProgLines(d.progs);
    var ol := OutLines(d.outtols);
    assert Render(d) == (head + pl) + ol;
    HeadParse(d.dodiff);
    ProgLinesParse(d.progs);
    OutLinesParse(d.outtols);
    OutputsAppend(head, pl);
    OutputsAppend(head + pl, ol);
    ProgramsAppend(head, pl);
    ProgramsAppend(head + pl, ol);
    IgnoringAppend(head, pl);
    IgnoringAppend(head + pl, ol);
  }

  /** Parsing a rendered script gives back the directives it was written from. */
  lemma RenderParse(d: DirectiveSet)
    requires Declarable(d)
    ensures Parse(Render(d)) == Ok(d)
  {
    RenderDeclares(d);
  }
}
