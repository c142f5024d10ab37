/** dprobe.py's program generator: it reads the `unu dnorm -h` header of
    the input image, builds the table of `_NAME_` placeholders and their
    replacements, and rewrites the Diderot template line by line.

    The output of `unu` and the template's lines are inputs; running
    `unu`, compiling and probing are not modelled. */
module Probe {
  import opened Outcomes
  import opened Text

  // ---------------------------------------------------------------------
  // The image header

  const SpaceDimTag := "space dimension: "
  const DimTag := "dimension: "
  const KindsTag := "kinds: "

  /** The header's lines, each right-stripped. */
  function Uhead(unuOut: string): (r: seq<string>)
    ensures |r| == |SplitLines(unuOut)|
  {
    var ls := SplitLines(unuOut);
    seq(|ls|, i requires 0 <= i < |ls| => RStrip(ls[i]))
  }

  /** What the last line starting with `tag` sets: that line with every
      occurrence of `tag` removed; `None` when no line starts with it. */
  function Latest(ls: seq<string>, tag: string): Option<string>
    decreases |ls|
  {
    if ls == [] then None
    else
      var l := ls[|ls| - 1];
      if StartsWith(l, tag) then Some(Replace(l, tag, "")) else Latest(ls[..|ls| - 1], tag)
  }

  /** The three header fields the generator uses; `kinds` is the raw
      value, split on single spaces where it is used. */
  datatype Header = Header(imgDim: Option<string>, dim: Option<string>, kinds: Option<string>)

  /** The header loop: each line is tested against all three tags and a
      later match overwrites an earlier one. */
  method ParseHeader(uhead: seq<string>) returns (hd: Header)
    ensures hd.imgDim == Latest(uhead, SpaceDimTag)
    ensures hd.dim == Latest(uhead, DimTag)
    ensures hd.kinds == Latest(uhead, KindsTag)
  {
    var imgDim: Option<string> := None;
    var dim: Option<string> := None;
    var kinds: Option<string> := None;
    var i := 0;
    while i < |uhead|
      invariant 0 <= i <= |uhead|
      invariant imgDim == Latest(uhead[..i], SpaceDimTag)
      invariant dim == Latest(uhead[..i], DimTag)
      invariant kinds == Latest(uhead[..i], KindsTag)
    {
      var line := uhead[i];
      assert uhead[..i + 1][..i] == uhead[..i];
      if StartsWith(line, SpaceDimTag) {
        imgDim := Some(Replace(line, SpaceDimTag, ""));
      }
      if StartsWith(line, DimTag) {
        dim := Some(Replace(line, DimTag, ""));
      }
      if StartsWith(line, KindsTag) {
        kinds := Some(Replace(line, KindsTag, ""));
      }
      i := i + 1;
    }
    assert uhead[..i] == uhead;
    hd := Header(imgDim, dim, kinds);
  }

  /** No line starting with `tag` leaves the field unset. */
  lemma {:induction false} LatestNone(ls: seq<string>, tag: string)
    ensures Latest(ls, tag).None? <==> forall i :: 0 <= i < |ls| ==> !StartsWith(ls[i], tag)
    decreases |ls|
  {
    if ls != [] {
      var n := |ls| - 1;
      LatestNone(ls[..n], tag);
      assert forall i :: 0 <= i < n ==> ls[..n][i] == ls[i];
    }
  }

  /** The last line starting with `tag` decides the field. */
  lemma {:induction false} LatestLast(ls: seq<string>, tag: string, i: nat)
    requires i < |ls| && StartsWith(ls[i], tag)
    requires forall j :: i < j < |ls| ==> !StartsWith(ls[j], tag)
    ensures Latest(ls, tag) == Some(Replace(ls[i], tag, ""))
    decreases |ls|
  {
    var n := |ls| - 1;
    if i < n {
      assert ls[..n][i] == ls[i];
      assert forall j :: i < j < n ==> ls[..n][j] == ls[j];
      LatestLast(ls[..n], tag, i);
    }
  }

  /** A header line `tag + v` sets the field to `v` when `v` does not
      itself contain the tag. */
  lemma TagValue(tag: string, v: string)
    requires tag != [] && !Contains(v, tag)
    ensures Replace(tag + v, tag, "") == v
  {
    assert (tag + v)[..|tag|] == tag;
    assert (tag + v)[|tag|..] == v;
    ReplaceAbsent(v, tag, "");
  }

  // ---------------------------------------------------------------------
  // The substitution table

  /** A replacement: a string, or the one-element list argparse makes of
      an option given with `nargs=1`. */
  datatype Value = Str(s: string) | List(items: seq<string>)

  /** An option's resolved value: its default, or the word given. */
  datatype Arg = Default | Given(v: string)

  /** The command line as the generator uses it: `-i`, the three words of
      `-q`, `-kern` and `-bc`. */
  datatype Args = Args(input: string, qtype: string, qexpr: string, qderiv: string, kern: Arg, bc: Arg)

  datatype ProbeError =
    | StdinInput                  // `-i -`
    | NoSpaceDimension            // the header has no `space dimension:` line
    | UnknownQueryType(q: string) // no NaN initializer for the query type
    | NoDimension                 // the header has no `dimension:` line
    | NoKinds                     // a non-scalar image without a `kinds:` line
    | UnknownKind(k: string)      // the first kind is not a known vector or matrix
    | IndexError                  // a template line that is empty or a lone `/`
    | TypeError                   // a list given to `str.replace`

  const ImgName := "_IMG_NAME_"
  const ImgDim := "_IMG_DIM_"
  const ImgVecn := "_IMG_VECN_"
  const QueryType := "_QUERY_TYPE_"
  const QueryExpr := "_QUERY_EXPR_"
  const QueryDeriv := "_QUERY_DERIV_"
  const QueryInitKey := "_QUERY_INIT_"
  const Kern := "_KERN_"
  const BcOpen := "_BC_OPEN_"
  const BcClose := "_BC_CLOSE_"
  const InsideOpen := "_INSIDE_OPEN_"
  const InsideIndent := "_INSIDE_INDENT_"
  const InsideClose := "_INSIDE_CLOSE_"
  const ImgShape := "_IMG_SHAPE_"

  /** How an output of the query type is initialised to NaN. */
  function QueryInit(q: string): Option<string> {
    if q == "real" then Some("nan")
    else if q == "vec2" then Some("nan[2]")
    else if q == "vec3" then Some("nan[3]")
    else if q == "tensor[2,2]" then Some("nan[2,2]")
    else if q == "tensor[3,3]" then Some("nan[3,3]")
    else None
  }

  /** The sample shape of a non-scalar image, from its first kind. */
  function ShapeOf(kind: string): Option<string> {
    if kind == "2-vector" then Some("[2]")
    else if kind == "3-vector" then Some("[3]")
    else if kind == "2D-matrix" then Some("[2,2]")
    else if kind == "3D-matrix" then Some("[3,3]")
    else None
  }

  /** `KIND[0]`: the first word of the `kinds:` value. */
  function FirstKind(kinds: string): string {
    SplitOn(kinds, ' ')[0]
  }

  /** The type of a position in the image domain. */
  function Vecn(d: string): string {
    if d == "1" then "real" else "vec" + d
  }

  /** `args.kern` as stored: the default string, or a list when given. */
  function KernValue(kern: Arg): Value {
    match kern
    case Default => Str("tent")
    case Given(k) => List([k])
  }

  /** `'none' == args.bc` holds only for the default, so a given `-bc`,
      even `none`, always wraps the field in `bc(...)`. */
  function BorderFields(bc: Arg): seq<(string, Value)> {
    match bc
    case Default =>
      [(BcOpen, Str("")), (BcClose, Str("")), (InsideOpen, Str("if (inside(pos, F)) {")),
       (InsideIndent, Str("   ")), (InsideClose, Str("}"))]
    case Given(b) =>
      [(BcOpen, Str(b + "(")), (BcClose, Str(")")), (InsideOpen, Str("")), (InsideClose, Str("")), (InsideIndent, Str(""))]
  }

  /** The image's sample shape: scalar when its dimension equals the
      space dimension, otherwise from its first kind. */
  function Shape(hd: Header): Option<string>
    requires hd.imgDim.Some? && hd.dim.Some?
  {
    if hd.dim.value == hd.imgDim.value then Some("[]")
    else if hd.kinds.None? then None
    else ShapeOf(FirstKind(hd.kinds.value))
  }

  /** The finished table, in the order its keys were first assigned. */
  function Subs(a: Args, hd: Header): Result<seq<(string, Value)>, ProbeError> {
    if hd.imgDim.None? then Err(NoSpaceDimension)
    else if QueryInit(a.qtype).None? then Err(UnknownQueryType(a.qtype))
    else if hd.dim.None? then Err(NoDimension)
    else if hd.dim.value != hd.imgDim.value && hd.kinds.None? then Err(NoKinds)
    else if Shape(hd).None? then Err(UnknownKind(FirstKind(hd.kinds.value)))
    else
      var d := hd.imgDim.value;
      Ok([(ImgName, Str(a.input)), (ImgDim, Str(d)), (ImgVecn, Str(Vecn(d))),
          (QueryType, Str(a.qtype)), (QueryExpr, Str(a.qexpr)), (QueryDeriv, Str(a.qderiv)),
          (QueryInitKey, Str(QueryInit(a.qtype).value)), (Kern, KernValue(a.kern))]
         + BorderFields(a.bc) + [(ImgShape, Str(Shape(hd).value))])
  }

  /** Filling the table key by key, stopping at the first missing field
      or unknown type. */
  method BuildSubs(a: Args, hd: Header) returns (r: Result<seq<(string, Value)>, ProbeError>)
    ensures r == Subs(a, hd)
  {
    var subs: seq<(string, Value)> := [(ImgName, Str(a.input))];
    if hd.imgDim.None? {
      return Err(NoSpaceDimension);
    }
    var d := hd.imgDim.value;
    subs := subs + [(ImgDim, Str(d))];
    subs := subs + [(ImgVecn, Str(if d == "1" then "real" else "vec" + d))];
    subs := subs + [(QueryType, Str(a.qtype)), (QueryExpr, Str(a.qexpr)), (QueryDeriv, Str(a.qderiv))];
    var init := QueryInit(a.qtype);
    if init.None? {
      return Err(UnknownQueryType(a.qtype));
    }
    subs := subs + [(QueryInitKey, Str(init.value))];
    subs := subs + [(Kern, KernValue(a.kern))];
    ghost var head := subs;
    assert head == [(ImgName, Str(a.input)), (ImgDim, Str(d)), (ImgVecn, Str(Vecn(d))),
      (QueryType, Str(a.qtype)), (QueryExpr, Str(a.qexpr)), (QueryDeriv, Str(a.qderiv)),
      (QueryInitKey, Str(QueryInit(a.qtype).value)), (Kern, KernValue(a.kern))];
    if a.bc == Default {
      subs := subs + [(BcOpen, Str("")), (BcClose, Str(""))];
      subs := subs + [(InsideOpen, Str("if (inside(pos, F)) {"))];
      subs := subs + [(InsideIndent, Str("   "))];
      subs := subs + [(InsideClose, Str("}"))];
    } else {
      subs := subs + [(BcOpen, Str(a.bc.v + "("))];
      subs := subs + [(BcClose, Str(")"))];
      subs := subs + [(InsideOpen, Str("")), (InsideClose, Str("")), (InsideIndent, Str(""))];
    }
    assert subs == head + BorderFields(a.bc);
    if hd.dim.None? {
      return Err(NoDimension);
    }
    if hd.dim.value == d {
      subs := subs + [(ImgShape, Str("[]"))];
    } else {
      if hd.kinds.None? {
        return Err(NoKinds);
      }
      var kind := FirstKind(hd.kinds.value);
      var shape := ShapeOf(kind);
      if shape.None? {
        return Err(UnknownKind(kind));
      }
      subs := subs + [(ImgShape, Str(shape.value))];
    }
    return Ok(subs);
  }

  /** The value stored under `key`. */
  function Lookup(subs: seq<(string, Value)>, key: string): Option<Value>
    decreases |subs|
  {
    if subs == [] then None
    else if subs[0].0 == key then Some(subs[0].1)
    else Lookup(subs[1..], key)
  }

  /** The entry at the first index holding `key`. */
  lemma {:induction false} LookupAt(subs: seq<(string, Value)>, i: nat, key: string)
    requires i < |subs| && subs[i].0 == key
    requires forall j :: 0 <= j < i ==> subs[j].0 != key
    ensures Lookup(subs, key) == Some(subs[i].1)
    decreases i
  {
    if i > 0 {
      assert forall j :: 0 <= j < i - 1 ==> subs[1..][j] == subs[j + 1];
      LookupAt(subs[1..], i - 1, key);
    }
  }

  /** The table is built exactly when the header has a space dimension
      and a dimension, the query type has a NaN initializer, and a
      non-scalar image has a `kinds:` line whose first kind is known. */
  lemma SubsOkIff(a: Args, hd: Header)
    ensures Subs(a, hd).Ok? <==>
      && hd.imgDim.Some? && QueryInit(a.qtype).Some? && hd.dim.Some?
      && (hd.dim.value == hd.imgDim.value || (hd.kinds.Some? && ShapeOf(FirstKind(hd.kinds.value)).Some?))
  {
  }

  /** Checks happen in source order: a missing space dimension is reported
      before an unknown query type, and that before a missing dimension. */
  lemma SubsErrorOrder(a: Args, hd: Header)
    ensures hd.imgDim.None? ==> Subs(a, hd) == Err(NoSpaceDimension)
    ensures hd.imgDim.Some? && QueryInit(a.qtype).None? ==> Subs(a, hd) == Err(UnknownQueryType(a.qtype))
    ensures hd.imgDim.Some? && QueryInit(a.qtype).Some? && hd.dim.None? ==> Subs(a, hd) == Err(NoDimension)
  {
  }

  /** The query types with a NaN initializer are exactly the five known
      ones, and the initializer carries the type's shape. */
  lemma QueryInitMirrorsType(q: string)
    ensures QueryInit(q).Some? <==> q in {"real", "vec2", "vec3", "tensor[2,2]", "tensor[3,3]"}
    ensures QueryInit(q).Some? && q != "real" && |q| == 4 ==> QueryInit(q).value == "nan[" + q[3..] + "]"
    ensures QueryInit(q).Some? && |q| == 11 ==> QueryInit(q).value == "nan" + q[6..]
  {
  }

  /** A known kind `N-vector` has shape `[N]`, `ND-matrix` has `[N,N]`. */
  lemma KindShape(k: string)
    ensures ShapeOf(k).Some? ==>
      (|k| >= 2 && (
        || (k[1..] == "-vector" && ShapeOf(k).value == ['[', k[0], ']'])
        || (k[1..] == "D-matrix" && ShapeOf(k).value == ['[', k[0], ',', k[0], ']'])))
    ensures ShapeOf(k).Some? <==> k in {"2-vector", "3-vector", "2D-matrix", "3D-matrix"}
  {
  }

  /** The position type is `real` exactly for a one-dimensional domain. */
  lemma VecnReal(d: string)
    ensures Vecn(d) == "real" <==> d == "1"
    ensures d != "1" ==> Vecn(d)[3..] == d
  {
    if d != "1" {
      assert Vecn(d)[0] == 'v';
    }
  }

  /** The sample shape is scalar exactly when the image's dimension equals
      its space dimension. */
  lemma ShapeScalar(hd: Header)
    requires hd.imgDim.Some? && hd.dim.Some? && Shape(hd).Some?
    ensures Shape(hd).value == "[]" <==> hd.dim.value == hd.imgDim.value
  {
  }

  /** Without `-bc` the field is unwrapped and probes are guarded by an
      inside test; with `-bc b` it is wrapped in `b(...)` and unguarded. */
  lemma BorderFieldsSpec(bc: Arg)
    ensures Lookup(BorderFields(bc), BcClose).Some? && Lookup(BorderFields(bc), InsideOpen).Some?
    ensures bc.Default? ==>
      (&& Lookup(BorderFields(bc), BcOpen) == Some(Str(""))
       && Lookup(BorderFields(bc), InsideOpen) == Some(Str("if (inside(pos, F)) {"))
       && Lookup(BorderFields(bc), InsideClose) == Some(Str("}")))
    ensures bc.Given? ==>
      (&& Lookup(BorderFields(bc), BcOpen) == Some(Str(bc.v + "("))
       && Lookup(BorderFields(bc), BcClose) == Some(Str(")"))
       && Lookup(BorderFields(bc), InsideOpen) == Some(Str(""))
       && Lookup(BorderFields(bc), InsideIndent) == Some(Str(""))
       && Lookup(BorderFields(bc), InsideClose) == Some(Str("")))
  {
    var f := BorderFields(bc);
    assert |BcOpen| == 9 && |BcClose| == 10 && |InsideOpen| == 13 && |InsideClose| == 14 && |InsideIndent| == 15;
    LookupAt(f, 0, BcOpen);
    LookupAt(f, 1, BcClose);
    LookupAt(f, 2, InsideOpen);
    if bc.Default? {
      LookupAt(f, 3, InsideIndent);
      LookupAt(f, 4, InsideClose);
    } else {
      LookupAt(f, 3, InsideClose);
      LookupAt(f, 4, InsideIndent);
    }
  }

  /** The table holds a list exactly when `-kern` was given. */
  lemma KernListIff(a: Args, hd: Header)
    requires Subs(a, hd).Ok?
    ensures HasList(Subs(a, hd).value) <==> a.kern.Given?
  {
    var subs := Subs(a, hd).value;
    if a.kern.Given? {
      assert subs[7].1.List?;
    } else {
      forall k | 0 <= k < |subs| ensures subs[k].1.Str? {
      }
    }
  }

  // ---------------------------------------------------------------------
  // The template rewrite

  predicate HasList(subs: seq<(string, Value)>) {
    exists k :: 0 <= k < |subs| && subs[k].1.List?
  }

  /** Every replacement in table order; a list value is a `TypeError`. */
  function ApplySubs(subs: seq<(string, Value)>, line: string): Result<string, ProbeError>
    decreases |subs|
  {
    if subs == [] then Ok(line)
    else match subs[0].1
      case List(_) => Err(TypeError)
      case Str(b) => ApplySubs(subs[1..], Replace(line, subs[0].0, b))
  }

  /** A template line that starts with `//`. */
  predicate IsComment(l: string) {
    |l| >= 2 && l[0] == '/' && l[1] == '/'
  }

  /** Testing for `//` indexes past the end of an empty line or a lone `/`. */
  predicate BadLine(l: string) {
    l == [] || (l[0] == '/' && |l| == 1)
  }

  /** Lines as `readlines()` gives them: none is empty and each but the
      last keeps its `\n`, so a blank line is `"\n"`. */
  predicate ReadLines(lines: seq<string>) {
    forall i :: 0 <= i < |lines| ==> lines[i] != [] && (i < |lines| - 1 ==> lines[i][|lines[i]| - 1] == '\n')
  }

  /** In a template read that way, the only line the `//` test can fail
      on is a final lone `/` without a newline. */
  lemma ReadLinesBad(lines: seq<string>, i: nat)
    requires ReadLines(lines) && i < |lines| && BadLine(lines[i])
    ensures i == |lines| - 1 && lines[i] == "/"
  {
    assert lines[i] != [];
    assert lines[i][|lines[i]| - 1] == '/';
  }

  /** The generated program's lines: comment lines dropped, every other
      line rewritten, stopping at the first error. Template lines keep
      their line terminator, as `readlines()` returns them, and the
      program's lines are written back with theirs. */
  function RewriteLines(subs: seq<(string, Value)>, lines: seq<string>): Result<seq<string>, ProbeError>
    decreases |lines|
  {
    if lines == [] then Ok([])
    else
      var l := lines[|lines| - 1];
      match RewriteLines(subs, lines[..|lines| - 1])
      case Err(e) => Err(e)
      case Ok(out) =>
        if BadLine(l) then Err(IndexError)
        else if IsComment(l) then Ok(out)
        else
          match ApplySubs(subs, l)
          case Err(e) => Err(e)
          case Ok(l') => Ok(out + [l'])
  }

  /** The template loop. */
  method Rewrite(subs: seq<(string, Value)>, lines: seq<string>) returns (r: Result<seq<string>, ProbeError>)
    ensures r == RewriteLines(subs, lines)
  {
    var out: seq<string> := [];
    var i := 0;
    while i < |lines|
      invariant 0 <= i <= |lines|
      invariant RewriteLines(subs, lines[..i]) == Ok(out)
    {
      var line := lines[i];
      assert lines[..i + 1][..i] == lines[..i];
      if line == [] || (line[0] == '/' && |line| == 1) {
        RewriteStops(subs, lines, i);
        return Err(IndexError);
      }
      if line[0] == '/' && line[1] == '/' {
        i := i + 1;
        continue;
      }
      ghost var line0 := line;
      var j := 0;
      while j < |subs|
        invariant 0 <= j <= |subs|
        invariant ApplySubs(subs, line0) == ApplySubs(subs[j..], line)
      {
        assert subs[j..][1..] == subs[j + 1..];
        match subs[j].1
        case List(_) =>
          RewriteStops(subs, lines, i);
          return Err(TypeError);
        case Str(b) =>
          line := Replace(line, subs[j].0, b);
        j := j + 1;
      }
      out := out + [line];
      i := i + 1;
    }
    assert lines[..i] == lines;
    return Ok(out);
  }

  /** An error on line `i`, after lines that all went through, is the
      result of the whole rewrite. */
  lemma {:induction false} RewriteStops(subs: seq<(string, Value)>, lines: seq<string>, i: nat)
    requires i < |lines| && RewriteLines(subs, lines[..i]).Ok? && RewriteLines(subs, lines[..i + 1]).Err?
    ensures RewriteLines(subs, lines) == RewriteLines(subs, lines[..i + 1])
    decreases |lines|
  {
    var n := |lines| - 1;
    if i < n {
      assert lines[..n][..i] == lines[..i] && lines[..n][..i + 1] == lines[..i + 1];
      RewriteStops(subs, lines[..n], i);
    } else {
      assert lines[..i + 1] == lines;
    }
  }

  /** The number of lines that are not comments. */
  function CodeLines(lines: seq<string>): nat
    decreases |lines|
  {
    if lines == [] then 0
    else CodeLines(lines[..|lines| - 1]) + (if IsComment(lines[|lines| - 1]) then 0 else 1)
  }

  /** The program has one line per non-comment template line, so never
      more lines than the template. */
  lemma {:induction false} RewriteCount(subs: seq<(string, Value)>, lines: seq<string>)
    requires RewriteLines(subs, lines).Ok?
    ensures |RewriteLines(subs, lines).value| == CodeLines(lines) <= |lines|
    decreases |lines|
  {
    if lines != [] {
      RewriteCount(subs, lines[..|lines| - 1]);
    }
  }

  /** A line holding no key of a table of strings is copied unchanged. */
  lemma {:induction false} PlainLineUnchanged(subs: seq<(string, Value)>, line: string)
    requires forall k :: 0 <= k < |subs| ==> subs[k].1.Str? && subs[k].0 != [] && !Contains(line, subs[k].0)
    ensures ApplySubs(subs, line) == Ok(line)
    decreases |subs|
  {
    if subs != [] {
      ReplaceAbsent(line, subs[0].0, subs[0].1.s);
      assert forall k :: 0 <= k < |subs| - 1 ==> subs[1..][k] == subs[k + 1];
      PlainLineUnchanged(subs[1..], line);
    }
  }

  /** A table of strings rewrites every line. */
  lemma {:induction false} TextTableApplies(subs: seq<(string, Value)>, line: string)
    requires !HasList(subs)
    ensures ApplySubs(subs, line).Ok?
    decreases |subs|
  {
    if subs != [] {
      assert subs[0].1.Str?;
      assert !HasList(subs[1..]) by {
        forall k | 0 <= k < |subs| - 1 ensures subs[1..][k].1.Str? {
          assert subs[1..][k] == subs[k + 1];
        }
      }
      TextTableApplies(subs[1..], Replace(line, subs[0].0, subs[0].1.s));
    }
  }

  /** A list anywhere in the table makes every line fail. */
  lemma {:induction false} ListFails(subs: seq<(string, Value)>, line: string)
    requires HasList(subs)
    ensures ApplySubs(subs, line) == Err(TypeError)
    decreases |subs|
  {
    if subs[0].1.Str? {
      var k :| 0 <= k < |subs| && subs[k].1.List?;
      assert subs[1..][k - 1] == subs[k];
      ListFails(subs[1..], Replace(line, subs[0].0, subs[0].1.s));
    }
  }

  /** With a list in the table the rewrite can only succeed on a template
      of comments, producing nothing. */
  lemma {:induction false} ListTableOnlyComments(subs: seq<(string, Value)>, lines: seq<string>)
    requires HasList(subs) && RewriteLines(subs, lines).Ok?
    ensures RewriteLines(subs, lines).value == []
    ensures forall i :: 0 <= i < |lines| ==> IsComment(lines[i])
    decreases |lines|
  {
    if lines != [] {
      var n := |lines| - 1;
      ListTableOnlyComments(subs, lines[..n]);
      if !IsComment(lines[n]) {
        ListFails(subs, lines[n]);
      }
      assert forall i :: 0 <= i < n ==> lines[..n][i] == lines[i];
    }
  }

  /** A table of strings rewrites any template without an empty or lone
      `/` line; read with its terminators, that is any template whose last
      line is not a `/` without a newline (`ReadLinesBad`). */
  lemma {:induction false} TextTableRewrites(subs: seq<(string, Value)>, lines: seq<string>)
    requires !HasList(subs) && forall i :: 0 <= i < |lines| ==> !BadLine(lines[i])
    ensures RewriteLines(subs, lines).Ok?
    decreases |lines|
  {
    if lines != [] {
      var n := |lines| - 1;
      assert forall i :: 0 <= i < n ==> lines[..n][i] == lines[i];
      TextTableRewrites(subs, lines[..n]);
      TextTableApplies(subs, lines[n]);
    }
  }

  // ---------------------------------------------------------------------
  // The whole generator

  function Generate(a: Args, unuOut: string, template: seq<string>): Result<seq<string>, ProbeError> {
    if a.input == "-" then Err(StdinInput)
    else
      var uhead := Uhead(unuOut);
      var hd := Header(Latest(uhead, SpaceDimTag), Latest(uhead, DimTag), Latest(uhead, KindsTag));
      match Subs(a, hd)
      case Err(e) => Err(e)
      case Ok(subs) => RewriteLines(subs, template)
  }

  /** Stdin is refused first; otherwise the header, the table and the
      rewrite in turn. `template` holds the template's lines with their
      line terminators. */
  method Probe(a: Args, unuOut: string, template: seq<string>) returns (r: Result<seq<string>, ProbeError>)
    ensures r == Generate(a, unuOut, template)
  {
    if a.input == "-" {
      return Err(StdinInput);
    }
    var hd := ParseHeader(Uhead(unuOut));
    var subs := BuildSubs(a, hd);
    if subs.Err? {
      return Err(subs.error);
    }
    r := Rewrite(subs.value, template);
  }

  /** `-i -` is refused whatever the header and template are. */
  lemma StdinRefused(a: Args, unuOut: string, template: seq<string>)
    requires a.input == "-"
    ensures Generate(a, unuOut, template) == Err(StdinInput)
  {
  }

  /** Given `-kern`, generation can only succeed on a template of
      comments. */
  lemma KernGivenFails(a: Args, unuOut: string, template: seq<string>)
    requires a.kern.Given? && Generate(a, unuOut, template).Ok?
    ensures Generate(a, unuOut, template).value == []
    ensures forall i :: 0 <= i < |template| ==> IsComment(template[i])
  {
    var uhead := Uhead(unuOut);
    var hd := Header(Latest(uhead, SpaceDimTag), Latest(uhead, DimTag), Latest(uhead, KindsTag));
    KernListIff(a, hd);
    ListTableOnlyComments(Subs(a, hd).value, template);
  }

  /** With the default kernel, a template read by `readlines()` whose
      last line is not a lone `/` is rewritten once the table is built. */
  lemma DefaultKernRewrites(a: Args, unuOut: string, template: seq<string>)
    requires a.input != "-" && a.kern.Default?
    requires ReadLines(template) && (template != [] ==> template[|template| - 1] != "/")
    ensures var uhead := Uhead(unuOut);
      var hd := Header(Latest(uhead, SpaceDimTag), Latest(uhead, DimTag), Latest(uhead, KindsTag));
      Subs(a, hd).Ok? ==> Generate(a, unuOut, template).Ok?
  {
    var uhead := Uhead(unuOut);
    var hd := Header(Latest(uhead, SpaceDimTag), Latest(uhead, DimTag), Latest(uhead, KindsTag));
    if Subs(a, hd).Ok? {
      KernListIff(a, hd);
      forall i | 0 <= i < |template| ensures !BadLine(template[i]) {
        if BadLine(template[i]) {
          ReadLinesBad(template, i);
        }
      }
      TextTableRewrites(Subs(a, hd).value, template);
    }
  }
}
