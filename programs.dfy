/** The runner's bookkeeping around programs and output files:
    `globprogs`, which turns `#tmp`/`#prog` globs into program and
    executable names; the create-reference check that `glob.glob` and
    the shell's `ls` agree; the `-p` option's range and conflicts; and
    the naming of each repetition's output file. The host's `glob`,
    `ls` and `os.path.abspath` are parameters. */
module Programs {
  import opened Outcomes
  import opened Text
  import opened Directives

  // ---------------------------------------------------------------------
  // globprogs

  /** The programs one glob contributes: every match with `.diderot`
      removed, carrying the glob's `tmp` flag. */
  function ProgsOf(pg: ProgGlob, pds: seq<string>): (r: seq<ProgGlob>)
    ensures |r| == |pds|
    ensures forall k :: 0 <= k < |r| ==> r[k].tmp == pg.tmp
  {
    seq(|pds|, k requires 0 <= k < |pds| => ProgGlob(Replace(pds[k], ".diderot", ""), pg.tmp))
  }

  /** The full paths of the executables built from `ps`. */
  function ExecsOf(ps: seq<ProgGlob>, abspath: string -> string): (r: seq<string>)
    ensures |r| == |ps|
  {
    seq(|ps|, k requires 0 <= k < |ps| => abspath(ps[k].prog))
  }

  /** What `globprogs` appends to `progs` and `execs`, or the first glob
      that matches nothing (the run stops there). */
  function GlobResult(globs: seq<ProgGlob>, glob: string -> seq<string>, abspath: string -> string)
    : Result<(seq<ProgGlob>, seq<string>), string>
    decreases |globs|
  {
    if globs == [] then Ok(([], []))
    else
      var pg := globs[|globs| - 1];
      match GlobResult(globs[..|globs| - 1], glob, abspath)
      case Err(g) => Err(g)
      case Ok((ps, es)) =>
        var pds := glob(pg.prog);
        if pds == [] then Err(pg.prog)
        else
          var more := ProgsOf(pg, pds);
          Ok((ps + more, es + ExecsOf(more, abspath)))
  }

  /** `globprogs`: one pass over the declared globs, extending the program
      and executable lists, stopping at a glob without matches. */
  method GlobProgs(globs: seq<ProgGlob>, glob: string -> seq<string>, abspath: string -> string)
    returns (r: Result<(seq<ProgGlob>, seq<string>), string>)
    ensures r == GlobResult(globs, glob, abspath)
  {
    var progs: seq<ProgGlob> := [];
    var execs: seq<string> := [];
    var i := 0;
    while i < |globs|
      invariant 0 <= i <= |globs|
      invariant GlobResult(globs[..i], glob, abspath) == Ok((progs, execs))
    {
      var pg := globs[i];
      assert globs[..i + 1][..i] == globs[..i];
      var pds := glob(pg.prog);
      if pds == [] {
        GlobStops(globs, glob, abspath, i);
        return Err(pg.prog);
      }
      var ps := ProgsOf(pg, pds);
      progs := progs + ps;
      execs := execs + ExecsOf(ps, abspath);
      i := i + 1;
    }
    assert globs[..i] == globs;
    return Ok((progs, execs));
  }

  /** A glob without matches, after globs that all matched, stops the run. */
  lemma {:induction false} GlobStops(globs: seq<ProgGlob>, glob: string -> seq<string>, abspath: string -> string, i: nat)
    requires i < |globs| && GlobResult(globs[..i], glob, abspath).Ok? && glob(globs[i].prog) == []
    ensures GlobResult(globs, glob, abspath) == Err(globs[i].prog)
    decreases |globs|
  {
    var front := globs[..|globs| - 1];
    if i < |globs| - 1 {
      assert front[..i] == globs[..i] && front[i] == globs[i];
      GlobStops(front, glob, abspath, i);
    } else {
      assert front == globs[..i];
    }
  }

  /** `globprogs` fails exactly when some glob matches nothing, and then
      it names the first such glob. */
  lemma {:induction false} GlobFailsIff(globs: seq<ProgGlob>, glob: string -> seq<string>, abspath: string -> string)
    ensures GlobResult(globs, glob, abspath).Err? <==> exists k :: 0 <= k < |globs| && glob(globs[k].prog) == []
    ensures GlobResult(globs, glob, abspath).Err? ==>
      exists k :: 0 <= k < |globs| && glob(globs[k].prog) == [] && GlobResult(globs, glob, abspath).error == globs[k].prog
        && forall m :: 0 <= m < k ==> glob(globs[m].prog) != []
    decreases |globs|
  {
    if globs != [] {
      var n := |globs| - 1;
      GlobFailsIff(globs[..n], glob, abspath);
      assert forall m :: 0 <= m < n ==> globs[..n][m] == globs[m];
    }
  }

  /** On success every program has exactly one executable, the full path
      of its name, in the same order. */
  lemma {:induction false} GlobExecsMatch(globs: seq<ProgGlob>, glob: string -> seq<string>, abspath: string -> string)
    requires GlobResult(globs, glob, abspath).Ok?
    ensures var (ps, es) := GlobResult(globs, glob, abspath).value;
      |es| == |ps| && forall k :: 0 <= k < |ps| ==> es[k] == abspath(ps[k].prog)
    decreases |globs|
  {
    if globs != [] {
      GlobExecsMatch(globs[..|globs| - 1], glob, abspath);
    }
  }

  /** The number of programs found is the total number of matches. */
  function MatchCount(globs: seq<ProgGlob>, glob: string -> seq<string>): nat
    decreases |globs|
  {
    if globs == [] then 0 else MatchCount(globs[..|globs| - 1], glob) + |glob(globs[|globs| - 1].prog)|
  }

  lemma {:induction false} GlobCount(globs: seq<ProgGlob>, glob: string -> seq<string>, abspath: string -> string)
    requires GlobResult(globs, glob, abspath).Ok?
    ensures |GlobResult(globs, glob, abspath).value.0| == MatchCount(globs, glob)
    decreases |globs|
  {
    if globs != [] {
      GlobCount(globs[..|globs| - 1], glob, abspath);
    }
  }

  /** A match `N.diderot` whose stem `N` does not itself contain
      `.diderot` becomes the program `N`. */
  lemma ProgNameStripped(pg: ProgGlob, pds: seq<string>, k: nat, n: string)
    requires k < |pds| && pds[k] == n + ".diderot" && !Contains(n, ".diderot")
    ensures ProgsOf(pg, pds)[k] == ProgGlob(n, pg.tmp)
  {
    ReplaceStripsSuffix(n, ".diderot");
  }

  // ---------------------------------------------------------------------
  // The create-reference listing check

  datatype ListingError =
    | LsFailed        // the shell's `ls` of the glob failed
    | NoGlobMatch     // `glob.glob` found nothing
    | ListingsDiffer  // the two file lists are not the same list once sorted

  /** The check on one `#>` glob before its outputs are moved to the
      reference directory: `ls` is the shell listing (`None` when `ls`
      failed) and `gg` what `glob.glob` returns. Two lists agree once
      sorted exactly when they hold the same multiset of names. */
  function ListingCheck(ls: Option<string>, gg: seq<string>): Result<seq<string>, ListingError> {
    match ls
    case None => Err(LsFailed)
    case Some(text) =>
      if gg == [] then Err(NoGlobMatch)
      else if multiset(SplitLines(text)) != multiset(gg) then Err(ListingsDiffer)
      else Ok(gg)
  }

  /** The check passes exactly when `ls` succeeded, the glob matched
      something, and both list the same names. */
  lemma ListingCheckIff(ls: Option<string>, gg: seq<string>)
    ensures ListingCheck(ls, gg).Ok? <==> ls.Some? && gg != [] && multiset(SplitLines(ls.value)) == multiset(gg)
    ensures ListingCheck(ls, gg).Ok? ==> |SplitLines(ls.value)| == |gg|
  {
    if ListingCheck(ls, gg).Ok? {
      assert |multiset(SplitLines(ls.value))| == |SplitLines(ls.value)|;
      assert |multiset(gg)| == |gg|;
    }
  }

  /** Listing the files in another order, one per line, passes. */
  lemma ListingSameNames(names: seq<string>, gg: seq<string>)
    requires gg != [] && multiset(names) == multiset(gg)
    requires forall i :: 0 <= i < |names| ==> NoLineBreak(names[i])
    ensures ListingCheck(Some(Join(names, "\n") + "\n"), gg) == Ok(gg)
  {
    SplitLinesJoin(names);
  }

  // ---------------------------------------------------------------------
  // The -p option

  datatype ConfigError =
    | ParallelOutOfRange(p: int)  // -p given a value outside [1,99]
    | ParallelWithCreate          // -p together with -c

  /** How many times each test runs: `parallel` is the `-p` value or 0
      when absent; 0 is false in Python and means one sequential run. */
  function Runs(parallel: int, createref: bool): (r: Result<nat, ConfigError>)
  {
    if parallel != 0 && !(0 < parallel < 100) then Err(ParallelOutOfRange(parallel))
    else if parallel != 0 && createref then Err(ParallelWithCreate)
    else Ok(if parallel != 0 then parallel else 1)
  }

  lemma RunsSpec(parallel: int, createref: bool)
    ensures Runs(parallel, createref).Ok? <==> (parallel == 0 || (1 <= parallel <= 99 && !createref))
    ensures Runs(parallel, createref).Ok? ==> 1 <= Runs(parallel, createref).value <= 99
    ensures Runs(parallel, createref).Ok? && parallel != 0 ==> Runs(parallel, createref).value == parallel
    ensures parallel < 0 || parallel >= 100 ==> Runs(parallel, createref) == Err(ParallelOutOfRange(parallel))
  {
  }

  // ---------------------------------------------------------------------
  // Output file names and the compilation target

  function Digit(d: nat): char
    requires d < 10
  {
    (48 + d) as char
  }

  /** `%d`: the decimal digits of `n`. */
  function Decimal(n: nat): (r: string)
    ensures |r| >= 1
    decreases n
  {
    if n < 10 then [Digit(n)] else Decimal(n / 10) + [Digit(n % 10)]
  }

  /** `%02d`: at least two digits, padded with `0`. */
  function Pad2(n: nat): (r: string)
    ensures |r| >= 2
  {
    if n < 10 then ['0', Digit(n)] else Decimal(n)
  }

  /** The file repetition `rep` saves its output to. */
  function OutName(parallel: int, rep: nat): string {
    if parallel != 0 then "out-" + (Pad2(rep) + ".txt") else "out.txt"
  }

  /** The `DDRO_TARG` a repetition compiles with; `None` when the
      variable is removed. */
  function Target(parallel: int, rep: nat): Option<string> {
    if parallel == 0 then None else if rep == 0 then Some("pthread") else Some("noop")
  }

  lemma Pad2Digits(n: nat)
    requires n < 100
    ensures Pad2(n) == [Digit(n / 10), Digit(n % 10)]
  {
    if n >= 10 {
      assert Decimal(n / 10) == [Digit(n / 10)];
    }
  }

  /** The two characters after `out-` are the repetition's digits. */
  lemma OutNameDigits(parallel: int, rep: nat)
    requires parallel != 0 && rep < 100
    ensures |OutName(parallel, rep)| == 10
    ensures OutName(parallel, rep)[4] == Digit(rep / 10) && OutName(parallel, rep)[5] == Digit(rep % 10)
  {
    Pad2Digits(rep);
  }

  /** With at most 99 repetitions, each parallel repetition has its own
      output file, and none of them is the sequential `out.txt`. */
  lemma OutNamesDistinct(parallel: int, i: nat, j: nat)
    requires parallel != 0 && i < 100 && j < 100
    ensures OutName(parallel, i) != "out.txt"
    ensures OutName(parallel, i) == OutName(parallel, j) ==> i == j
  {
    OutNameDigits(parallel, i);
    OutNameDigits(parallel, j);
  }

  /** Only the first parallel repetition compiles; the rest reuse it. */
  lemma TargetOnce(parallel: int, rep: nat)
    ensures Target(parallel, rep) == Some("pthread") <==> parallel != 0 && rep == 0
    ensures Target(parallel, rep).None? <==> parallel == 0
  {
  }
}
