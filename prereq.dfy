/** Dependency expansion of the requested test list: `_addpreq` and
    `addpreq` of runtests.py, over the static `PREREQ` table.

    The list-building functions are defined on a growing prefix of their
    input, which is the shape of the source's `for ... append` loops:
    after `i` iterations the accumulated list is the function applied to
    the first `i` elements. */
module Prereq {
  import Text

  /** `TESTS`: every test the runner knows, in catalogue order. */
  const Catalog: seq<string> := ["hello", "heron", "sieve", "life", "steps", "unicode",
    "plot1d", "tensor", "vimg", "fs2d", "iso2d", "circle", "sphere", "halftone"]

  /** `PREREQ`: the tests that must run before a given test. */
  const Table: map<string, seq<string>> := map["iso2d" := ["fs2d"], "halftone" := ["fs2d"]]

  /** The prerequisites of `t`; a test absent from the table has none. */
  function PrereqsOf(pre: map<string, seq<string>>, t: string): seq<string> {
    if t in pre then pre[t] else []
  }

  predicate NoDup(s: seq<string>) {
    forall i, j :: 0 <= i < j < |s| ==> s[i] != s[j]
  }

  /** Every prerequisite of an entry occurs before that entry. */
  predicate Ordered(pre: map<string, seq<string>>, s: seq<string>) {
    forall i :: 0 <= i < |s| ==> forall p :: p in PrereqsOf(pre, s[i]) ==> p in s[..i]
  }

  /** A list that needs no further expansion: no repeats, prerequisites first. */
  predicate Closed(pre: map<string, seq<string>>, s: seq<string>) {
    NoDup(s) && Ordered(pre, s)
  }

  /** Like `Ordered`, but only for the first occurrence of each entry. */
  predicate FirstOrdered(pre: map<string, seq<string>>, s: seq<string>) {
    forall i :: 0 <= i < |s| && s[i] !in s[..i] ==>
      forall p :: p in PrereqsOf(pre, s[i]) ==> p in s[..i]
  }

  /** A prerequisite has no prerequisites of its own. `Table` is such a
      table; with deeper chains `addpreq` needs more rounds, and with a
      cycle it need not stop. */
  predicate Shallow(pre: map<string, seq<string>>) {
    forall t, p :: t in pre && p in pre[t] ==> PrereqsOf(pre, p) == []
  }

  /** `x` is a requested test or a prerequisite of one. */
  predicate Needed(pre: map<string, seq<string>>, tlist: seq<string>, x: string) {
    x in tlist || exists t :: t in tlist && x in PrereqsOf(pre, t)
  }

  /** The inner loop of `_addpreq`: append each prerequisite not yet present. */
  function AppendMissing(plist: seq<string>, ps: seq<string>): (r: seq<string>)
    ensures plist <= r
    ensures forall x :: x in r <==> x in plist || x in ps
    decreases |ps|
  {
    if ps == [] then plist
    else
      var a := AppendMissing(plist, ps[..|ps| - 1]);
      var p := ps[|ps| - 1];
      assert ps == ps[..|ps| - 1] + [p];
      if p in a then a else a + [p]
  }

  /** `plist` of `_addpreq`: for each test, its missing prerequisites and then the test. */
  function Gather(pre: map<string, seq<string>>, tlist: seq<string>): (r: seq<string>)
    ensures forall x :: x in r <==> Needed(pre, tlist, x)
    decreases |tlist|
  {
    if tlist == [] then []
    else
      var g := Gather(pre, tlist[..|tlist| - 1]);
      var t := tlist[|tlist| - 1];
      assert tlist == tlist[..|tlist| - 1] + [t];
      AppendMissing(g, PrereqsOf(pre, t)) + [t]
  }

  /** `ret` of `_addpreq`: the first occurrence of each entry, in order. */
  function Dedup(xs: seq<string>): (r: seq<string>)
    ensures NoDup(r)
    ensures forall x :: x in r <==> x in xs
    decreases |xs|
  {
    if xs == [] then []
    else
      var d := Dedup(xs[..|xs| - 1]);
      var x := xs[|xs| - 1];
      assert xs == xs[..|xs| - 1] + [x];
      if x in d then d else d + [x]
  }

  /** One round of `_addpreq`. */
  function Step(pre: map<string, seq<string>>, tlist: seq<string>): seq<string> {
    Dedup(Gather(pre, tlist))
  }

  // ---------------------------------------------------------------------
  // What one round produces

  /** One round keeps every requested test, and adds only their prerequisites. */
  lemma StepMembers(pre: map<string, seq<string>>, tlist: seq<string>)
    ensures forall x :: x in Step(pre, tlist) <==> Needed(pre, tlist, x)
    ensures forall t :: t in tlist ==> t in Step(pre, tlist)
  {
  }

  lemma AppendFirstOrdered(pre: map<string, seq<string>>, s: seq<string>, y: string)
    requires FirstOrdered(pre, s)
    requires y in s || forall p :: p in PrereqsOf(pre, y) ==> p in s
    ensures FirstOrdered(pre, s + [y])
  {
    var s' := s + [y];
    forall i | 0 <= i < |s'| && s'[i] !in s'[..i]
      ensures forall p :: p in PrereqsOf(pre, s'[i]) ==> p in s'[..i]
    {
      if i < |s| {
        assert s'[..i] == s[..i];
      } else {
        assert s'[..i] == s;
      }
    }
  }

  lemma {:induction false} AppendMissingFirstOrdered(pre: map<string, seq<string>>, a: seq<string>, ps: seq<string>)
    requires FirstOrdered(pre, a)
    requires forall p :: p in ps ==> PrereqsOf(pre, p) == []
    ensures FirstOrdered(pre, AppendMissing(a, ps))
    decreases |ps|
  {
    if ps != [] {
      var ps' := ps[..|ps| - 1];
      assert forall p :: p in ps' ==> p in ps;
      AppendMissingFirstOrdered(pre, a, ps');
      var b := AppendMissing(a, ps');
      var p := ps[|ps| - 1];
      if p !in b {
        AppendFirstOrdered(pre, b, p);
      }
    }
  }

  /** With a shallow table, `plist` lists each entry's prerequisites before its first occurrence. */
  lemma {:induction false} GatherFirstOrdered(pre: map<string, seq<string>>, tlist: seq<string>)
    requires Shallow(pre)
    ensures FirstOrdered(pre, Gather(pre, tlist))
    decreases |tlist|
  {
    if tlist != [] {
      var front := tlist[..|tlist| - 1];
      var t := tlist[|tlist| - 1];
      GatherFirstOrdered(pre, front);
      var g := Gather(pre, front);
      var ps := PrereqsOf(pre, t);
      AppendMissingFirstOrdered(pre, g, ps);
      AppendFirstOrdered(pre, AppendMissing(g, ps), t);
    }
  }

  lemma FirstOrderedFront(pre: map<string, seq<string>>, xs: seq<string>)
    requires xs != [] && FirstOrdered(pre, xs)
    ensures FirstOrdered(pre, xs[..|xs| - 1])
  {
    var front := xs[..|xs| - 1];
    forall i | 0 <= i < |front| ensures front[..i] == xs[..i] && front[i] == xs[i] { }
  }

  lemma AppendOrdered(pre: map<string, seq<string>>, d: seq<string>, x: string)
    requires Ordered(pre, d)
    requires forall p :: p in PrereqsOf(pre, x) ==> p in d
    ensures Ordered(pre, d + [x])
  {
    var d' := d + [x];
    forall i | 0 <= i < |d'| ensures forall p :: p in PrereqsOf(pre, d'[i]) ==> p in d'[..i] {
      if i < |d| {
        assert d'[..i] == d[..i];
      } else {
        assert d'[..i] == d;
      }
    }
  }

  /** Keeping first occurrences turns "first occurrences ordered" into "ordered". */
  lemma {:induction false} DedupOrdered(pre: map<string, seq<string>>, xs: seq<string>)
    requires FirstOrdered(pre, xs)
    ensures Ordered(pre, Dedup(xs))
    decreases |xs|
  {
    if xs != [] {
      var front := xs[..|xs| - 1];
      var x := xs[|xs| - 1];
      FirstOrderedFront(pre, xs);
      DedupOrdered(pre, front);
      var d := Dedup(front);
      if x !in d {
        assert x !in xs[..|xs| - 1];
        AppendOrdered(pre, d, x);
      }
    }
  }

  /** With a shallow table one round already yields a closed list. */
  lemma StepClosed(pre: map<string, seq<string>>, tlist: seq<string>)
    requires Shallow(pre)
    ensures Closed(pre, Step(pre, tlist))
  {
    GatherFirstOrdered(pre, tlist);
    DedupOrdered(pre, Gather(pre, tlist));
  }

  // ---------------------------------------------------------------------
  // Fixpoints

  lemma {:induction false} AppendMissingPresent(a: seq<string>, ps: seq<string>)
    requires forall p :: p in ps ==> p in a
    ensures AppendMissing(a, ps) == a
    decreases |ps|
  {
    if ps != [] {
      var ps' := ps[..|ps| - 1];
      assert forall p :: p in ps' ==> p in ps;
      AppendMissingPresent(a, ps');
      assert ps[|ps| - 1] in ps;
    }
  }

  lemma {:induction false} GatherOrdered(pre: map<string, seq<string>>, s: seq<string>)
    requires Ordered(pre, s)
    ensures Gather(pre, s) == s
    decreases |s|
  {
    if s != [] {
      var front := s[..|s| - 1];
      assert Ordered(pre, front) by {
        forall i | 0 <= i < |front| ensures front[..i] == s[..i] && front[i] == s[i] { }
      }
      GatherOrdered(pre, front);
      AppendMissingPresent(front, PrereqsOf(pre, s[|s| - 1]));
      Text.FrontLast(s);
    }
  }

  lemma {:induction false} DedupNoDup(xs: seq<string>)
    requires NoDup(xs)
    ensures Dedup(xs) == xs
    decreases |xs|
  {
    if xs != [] {
      var front := xs[..|xs| - 1];
      DedupNoDup(front);
      assert xs[|xs| - 1] !in front;
      assert xs == front + [xs[|xs| - 1]];
    }
  }

  /** A closed list is a fixpoint of one round, for every table. */
  lemma ClosedIsFixpoint(pre: map<string, seq<string>>, s: seq<string>)
    requires Closed(pre, s)
    ensures Step(pre, s) == s
  {
    GatherOrdered(pre, s);
    DedupNoDup(s);
  }

  /** With a shallow table the fixpoints of one round are exactly the closed lists. */
  lemma FixpointIffClosed(pre: map<string, seq<string>>, s: seq<string>)
    requires Shallow(pre)
    ensures Step(pre, s) == s <==> Closed(pre, s)
  {
    if Step(pre, s) == s {
      StepClosed(pre, s);
    } else if Closed(pre, s) {
      ClosedIsFixpoint(pre, s);
    }
  }

  /** Expanding an expanded list changes nothing. */
  lemma StepIdempotent(pre: map<string, seq<string>>, tlist: seq<string>)
    requires Shallow(pre)
    ensures Step(pre, Step(pre, tlist)) == Step(pre, tlist)
  {
    StepClosed(pre, tlist);
    ClosedIsFixpoint(pre, Step(pre, tlist));
  }

  /** The runner's own table is shallow. */
  lemma TableShallow()
    ensures Shallow(Table)
  {
  }

  /** `['iso2d']` expands to `['fs2d', 'iso2d']`. */
  lemma IsoExpansion()
    ensures Step(Table, ["iso2d"]) == ["fs2d", "iso2d"]
  {
    assert Gather(Table, ["iso2d"][..0]) == [];
    assert AppendMissing([], ["fs2d"][..0]) == [];
    assert Gather(Table, ["iso2d"]) == ["fs2d", "iso2d"];
    var g := ["fs2d", "iso2d"];
    assert g[..1] == ["fs2d"] && g[..1][..0] == [];
  }

  // ---------------------------------------------------------------------
  // The source's loops

  /** `_addpreq`: one round of expansion over `PREREQ`. */
  method AddPreqOnce(tlist: seq<string>) returns (ret: seq<string>)
    ensures ret == Step(Table, tlist)
  {
    var plist := GatherLoop(tlist);
    ret := DedupLoop(plist);
  }

  /** The first loop of `_addpreq`, building `plist`. */
  method GatherLoop(tlist: seq<string>) returns (plist: seq<string>)
    ensures plist == Gather(Table, tlist)
  {
    plist := [];
    for i := 0 to |tlist|
      invariant plist == Gather(Table, tlist[..i])
    {
      var t := tlist[i];
      assert tlist[..i + 1][..i] == tlist[..i];
      plist := AppendMissingLoop(plist, PrereqsOf(Table, t));
      plist := plist + [t];
    }
    assert tlist[..|tlist|] == tlist;
  }

  /** The inner loop: append each prerequisite not yet in `plist`. */
  method AppendMissingLoop(plist0: seq<string>, ps: seq<string>) returns (plist: seq<string>)
    ensures plist == AppendMissing(plist0, ps)
  {
    plist := plist0;
    for k := 0 to |ps|
      invariant plist == AppendMissing(plist0, ps[..k])
    {
      assert ps[..k + 1][..k] == ps[..k];
      if ps[k] !in plist {
        plist := plist + [ps[k]];
      }
    }
    assert ps[..|ps|] == ps;
  }

  /** The second loop of `_addpreq`, keeping first occurrences. */
  method DedupLoop(plist: seq<string>) returns (ret: seq<string>)
    ensures ret == Dedup(plist)
  {
    ret := [];
    for i := 0 to |plist|
      invariant ret == Dedup(plist[..i])
    {
      assert plist[..i + 1][..i] == plist[..i];
      if plist[i] !in ret {
        ret := ret + [plist[i]];
      }
    }
    assert plist[..|plist|] == plist;
  }

  /** `addpreq`: repeat `_addpreq` until the list stops changing. The
      result holds every requested test and nothing but them and their
      prerequisites, has no repeats, lists prerequisites first, and is a
      fixpoint; one round reaches it. */
  method AddPreq(olist: seq<string>) returns (nlist: seq<string>)
    ensures nlist == Step(Table, olist)
    ensures Step(Table, nlist) == nlist
    ensures Closed(Table, nlist)
    ensures forall x :: x in nlist <==> Needed(Table, olist, x)
  {
    TableShallow();
    var cur := olist;
    nlist := AddPreqOnce(cur);
    StepClosed(Table, olist);
    while nlist != cur
      invariant nlist == Step(Table, cur)
      invariant cur == olist || cur == Step(Table, olist)
      decreases if Closed(Table, cur) then 0 else 1
    {
      if Closed(Table, cur) {
        ClosedIsFixpoint(Table, cur);
      }
      cur := nlist;
      nlist := AddPreqOnce(cur);
      StepIdempotent(Table, olist);
    }
    if cur == olist {
      StepIdempotent(Table, olist);
    }
    StepMembers(Table, olist);
  }

  /** The test list before expansion: the names given, each with trailing
      `/` removed, or the whole catalogue when none is given. */
  function Requested(args: seq<string>): (r: seq<string>)
    ensures args == [] ==> r == Catalog
    ensures args != [] ==> |r| == |args| && forall i :: 0 <= i < |r| ==>
      r[i] <= args[i] && (r[i] == [] || r[i][|r[i]| - 1] != '/')
      && forall k :: |r[i]| <= k < |args[i]| ==> args[i][k] == '/'
  {
    if args == [] then Catalog
    else seq(|args|, i requires 0 <= i < |args| => Text.RStripChar(args[i], '/'))
  }
}
