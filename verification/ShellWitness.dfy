/** A run of the file system after which cd, one directory at a time, overruns the shell's path text. */
module ShellWitness {
  import opened Layout
  import opened ClusterMap
  import opened FileSystem
  import opened VolumeInvariant
  import opened VolumeOperations
  import opened FileSystemRuns
  import opened FileSystemWitnesses
  import opened ShellPath

  // Seven letters, all a, b or c by turns.
  function Letters(n: nat): (t: Text)
    ensures |t| == 7 && 0 !in t && Navigable(t)
  {
    seq(7, _ => 0x61 + n % 3)
  }

  // The name of the n-th directory of the nest. The root comes first.
  function NestName(n: nat): Name {
    if n == 0 then ROOT_NAME else Pad(Letters(n))
  }

  lemma NestNamesDiffer(n: nat)
    ensures NestName(n + 1) != NestName(n) && NestName(n + 1) != NestName(if n == 0 then 0 else n - 1)
    ensures NestName(n + 1) == Pad(Letters(n + 1)) && CString(NestName(n + 1)) == Letters(n + 1)
    ensures Padded(NestName(n + 1))
  {
    CStringOfPad(Letters(n + 1));
    assert NestName(n + 1)[0] == Letters(n + 1)[0];
    assert n > 0 ==> NestName(n)[0] == Letters(n)[0];
    assert n > 1 ==> NestName(n - 1)[0] == Letters(n - 1)[0];
  }

  // d is the innermost of n nested directories, 16 - n clusters are left for more, and its path text
  // has 8 characters for each.
  ghost predicate Nested(v: Volume, g: Shape, d: nat, n: nat) {
    && WellFormed(v, g) && NamesPadded(v, g) && d in g.dirs && d < CLUSTER_MAP_SIZE && NoChildren(v.Table(d))
    && |FreeClusters(v.fat)| + n >= 16
    && v.Table(d)[0].name == NestName(n) && v.Table(d)[1].name == NestName(if n == 0 then 0 else n - 1)
    && Reachable(v, g, d) && |PathOf(v, g, d)| == 5 + 8 * n
  }

  ghost predicate NestedState(s: (Volume, Shape), n: nat) {
    exists d :: Nested(s.0, s.1, d, n)
  }

  // Directories keep their names and parents when another one is added.
  ghost predicate Kept(v: Volume, g: Shape, v': Volume, g': Shape) {
    && WellFormed(v, g) && WellFormed(v', g')
    && forall x :: x in g.dirs && x < CLUSTER_MAP_SIZE ==>
         x in g'.dirs && g'.Parent(x) == g.Parent(x) && v'.Table(x)[0].name == v.Table(x)[0].name
  }

  lemma {:induction false} KeptPath(v: Volume, g: Shape, v': Volume, g': Shape, d: nat)
    requires Kept(v, g, v', g') && d in g.dirs && d < CLUSTER_MAP_SIZE && d in g'.dirs
    ensures PathOf(v', g', d) == PathOf(v, g, d) && (Reachable(v, g, d) ==> Reachable(v', g', d))
    decreases (assert DirOk(MetaOf(v), g, d); g.rank[d])
  {
    assert DirOk(MetaOf(v), g, d) && DirOk(MetaOf(v'), g', d);
    if d != ROOT_CLUSTER {
      KeptPath(v, g, v', g', g.Parent(d));
    }
  }

  lemma MkdirKeeps(v: Volume, g: Shape, d: nat, name: Name)
    requires WellFormed(v, g) && d in g.dirs && d < CLUSTER_MAP_SIZE && WriteCode(v, Mkdir(d, name)) == 0
    ensures Kept(v, g, Write(v, Mkdir(d, name), []), WriteShape(v, g, Mkdir(d, name)))
  {
    var r := Mkdir(d, name);
    var v', g', cs := Write(v, r, []), WriteShape(v, g, r), Allocated(v, r);
    WriteKeepsWellFormed(v, g, r, []);
    WriteAdds(v, g, r, []);
    AllocatedFree(v, r);
    forall x | x in g.dirs && x < CLUSTER_MAP_SIZE
      ensures x in g'.dirs && g'.Parent(x) == g.Parent(x) && v'.Table(x)[0].name == v.Table(x)[0].name
    {
      AddedSelfName(MetaOf(v), MetaOf(v'), g, d, WriteSlot(v, r), WriteEntry(v, r), cs, x);
      assert DirOk(MetaOf(v), g, x);
    }
  }

  // v' and g' have one directory more than v and g: c, the n + 1st, inside d.
  ghost predicate ChildMade(v: Volume, g: Shape, v': Volume, g': Shape, d: nat, c: nat, n: nat) {
    && WellFormed(v', g') && d in g'.dirs && c in g'.dirs && 3 <= c < CLUSTER_MAP_SIZE && g'.Parent(c) == d < CLUSTER_MAP_SIZE
    && v'.Table(c) == NewTable(NestName(n + 1), c, NestName(n), d)
    && |FreeClusters(v'.fat)| == |FreeClusters(v.fat)| - 1
  }

  lemma MakeChild(v: Volume, g: Shape, d: nat, n: nat)
    requires HasRoom(v, g, d) && v.Table(d)[0].name == NestName(n)
    requires v.Table(d)[1].name == NestName(if n == 0 then 0 else n - 1)
    ensures WriteCode(v, Mkdir(d, NestName(n + 1))) == 0
    ensures var r := Mkdir(d, NestName(n + 1));
            ChildMade(v, g, Write(v, r, []), WriteShape(v, g, r), d, Allocated(v, r)[0], n)
  {
    NestNamesDiffer(n);
    MkdirInEmpty(v, g, d, NestName(n + 1));
  }

  lemma NestOneMore(v: Volume, g: Shape, d: nat, n: nat)
    requires Nested(v, g, d, n) && n < 16
    ensures WriteCode(v, Mkdir(d, NestName(n + 1))) == 0
    ensures var r := Mkdir(d, NestName(n + 1));
            Nested(Write(v, r, []), WriteShape(v, g, r), Allocated(v, r)[0], n + 1)
  {
    var r := Mkdir(d, NestName(n + 1));
    MakeChild(v, g, d, n);
    NestNamesDiffer(n);
    WriteKeepsPadded(v, g, r, []);
    MkdirKeeps(v, g, d, NestName(n + 1));
    ChildNested(v, g, Write(v, r, []), WriteShape(v, g, r), d, Allocated(v, r)[0], n);
  }

  lemma ChildNested(v: Volume, g: Shape, v': Volume, g': Shape, d: nat, c: nat, n: nat)
    requires Nested(v, g, d, n) && ChildMade(v, g, v', g', d, c, n) && Kept(v, g, v', g') && NamesPadded(v', g')
    ensures Nested(v', g', c, n + 1)
  {
    KeptPath(v, g, v', g', d);
    NestNamesDiffer(n);
    assert DirOk(MetaOf(v'), g', c);
    BlankTail(NestName(n + 1), c, NestName(n), d);
    assert DirName(v', c) == Letters(n + 1);
  }

  lemma BlankTail(name: Name, c: nat, parentName: Name, d: nat)
    requires c < CLUSTER_MAP_SIZE && d < CLUSTER_MAP_SIZE
    ensures NoChildren(NewTable(name, c, parentName, d))
  {
  }

  // ---- Building a run step by step ----

  ghost predicate Linked<S(!new), O>(t: (S, O, S) -> bool, s: S, os: seq<O>, end: S)
    decreases |os|
  {
    if os == [] then s == end else exists m :: t(s, os[0], m) && Linked(t, m, os[1..], end)
  }

  ghost predicate CanStep<S(!new), O(!new)>(t: (S, O, S) -> bool, p: (S, nat) -> bool, s: S, n: nat) {
    exists o, m :: t(s, o, m) && p(m, n)
  }

  // If each stage but the last can step to the next, some run leads to the last.
  lemma {:induction false} RunThrough<S(!new), O(!new)>(t: (S, O, S) -> bool, p: (S, nat) -> bool, s: S, n: nat, total: nat)
    returns (os: seq<O>, end: S)
    requires p(s, n) && n <= total
    requires forall x: S, i: nat {:trigger p(x, i)} :: p(x, i) && i < total ==> CanStep(t, p, x, i + 1)
    ensures Linked(t, s, os, end) && p(end, total)
    decreases total - n
  {
    if n == total {
      return [], s;
    }
    var o, m :| t(s, o, m) && p(m, n + 1);
    var rest;
    rest, end := RunThrough(t, p, m, n + 1, total);
    os := [o] + rest;
    assert os[1..] == rest;
  }

  ghost predicate Moves(s: (Volume, Shape), op: Op, s': (Volume, Shape)) {
    Legal(s.0, s.1, op) && CodeOf(s.0, s.1, op) == 0 && s' == (Step(s.0, s.1, op), StepShape(s.0, s.1, op))
  }

  lemma {:induction false} LinkedIsRun(v: Volume, g: Shape, ops: seq<Op>, end: (Volume, Shape))
    requires Linked(Moves, (v, g), ops, end)
    ensures RunLegal(v, g, ops) && end == (Run(v, g, ops), RunShape(v, g, ops))
    decreases |ops|
  {
    if ops != [] {
      var m :| Moves((v, g), ops[0], m) && Linked(Moves, m, ops[1..], end);
      LinkedIsRun(m.0, m.1, ops[1..], end);
    }
  }

  lemma RootNested(v: Volume, g: Shape)
    requires HasRoom(v, g, ROOT_CLUSTER) && g.dirs == {ROOT_CLUSTER} && |FreeClusters(v.fat)| >= 16
    requires v.Table(ROOT_CLUSTER)[0].name == v.Table(ROOT_CLUSTER)[1].name == ROOT_NAME
    ensures Nested(v, g, ROOT_CLUSTER, 0)
  {
    assert ROOT_NAME == Pad(ROOT_TEXT);
    CStringOfPad(ROOT_TEXT);
  }

  lemma MkdirMoves(v: Volume, g: Shape, d: nat, name: Name)
    requires d in g.dirs && d < CLUSTER_MAP_SIZE && WriteCode(v, Mkdir(d, name)) == 0
    ensures Moves((v, g), WriteOp(Mkdir(d, name), []), (Write(v, Mkdir(d, name), []), WriteShape(v, g, Mkdir(d, name))))
  {
  }

  // The state of the nest one directory further in.
  lemma NestStep(v: Volume, g: Shape, d: nat, n: nat) returns (op: Op, s': (Volume, Shape))
    requires Nested(v, g, d, n) && n < 16
    ensures Moves((v, g), op, s') && NestedState(s', n + 1)
  {
    NestOneMore(v, g, d, n);
    MkdirMoves(v, g, d, NestName(n + 1));
    var r := Mkdir(d, NestName(n + 1));
    op, s' := WriteOp(r, []), (Write(v, r, []), WriteShape(v, g, r));
  }

  lemma NestSteps(s: (Volume, Shape), n: nat)
    requires NestedState(s, n) && n < 16
    ensures CanStep(Moves, NestedState, s, n + 1)
  {
    var d :| Nested(s.0, s.1, d, n);
    var op, s' := NestStep(s.0, s.1, d, n);
    assert s == (s.0, s.1);
  }

  lemma NestFromFormat(v: Volume) returns (ops: seq<Op>, end: (Volume, Shape))
    ensures Linked(Moves, (Format(v), RootShape()), ops, end) && NestedState(end, 16)
  {
    FormatHasRoom(v);
    RootNested(Format(v), RootShape());
    assert NestedState((Format(v), RootShape()), 0);
    forall s: (Volume, Shape), n: nat | NestedState(s, n) && n < 16 ensures CanStep(Moves, NestedState, s, n + 1) {
      NestSteps(s, n);
    }
    ops, end := RunThrough(Moves, NestedState, (Format(v), RootShape()), 0, 16);
  }

  // A child that cd would find, but whose name no longer fits behind the path text.
  lemma ChildOverruns(v: Volume, g: Shape, d: nat)
    requires WellFormed(v, g) && d in g.dirs && d != ROOT_CLUSTER && d < CLUSTER_MAP_SIZE && Navigable(DirName(v, d))
    requires d < |g.owner| && g.Parent(d) in g.dirs
    requires |PathOf(v, g, g.Parent(d))| + |DirName(v, d)| + 1 >= MAX_PATH && DirName(v, d) != ROOT_TEXT
    ensures Resolve(v, g.Parent(d), PathOf(v, g, g.Parent(d)), DirName(v, d)) == Undefined
  {
    var p, comp := g.Parent(d), DirName(v, d);
    assert DirOk(MetaOf(v), g, d) && DirOk(MetaOf(v), g, p);
    assert Called(v.Table(p)[g.owner[d].index], comp);
    HeadOfName(comp);
    ResolveIsFold(v, p, PathOf(v, g, p), comp);
    StepOverruns(v, p, PathOf(v, g, p), comp);
  }

  // The path text of d leads to it from anywhere, and cd from there to its child e overruns.
  ghost predicate OverrunsFrom(v: Volume, g: Shape, dir: nat, path: Text, d: nat, e: nat) {
    && WellFormed(v, g) && d in g.dirs && e < CLUSTER_MAP_SIZE
    && Resolve(v, dir, path, PathOf(v, g, d)) == At(d, PathOf(v, g, d))
    && Resolve(v, d, PathOf(v, g, d), DirName(v, e)) == Undefined
  }

  // After a format and 16 nested mkdirs, cd by the path of the fifteenth succeeds from anywhere, and cd by
  // name into the sixteenth then overruns the path text.
  lemma NestedPathOverruns(v: Volume, dir: nat, path: Text) returns (ops: seq<Op>, d: nat, e: nat)
    ensures RunLegal(Format(v), RootShape(), ops)
    ensures OverrunsFrom(Run(Format(v), RootShape(), ops), RunShape(Format(v), RootShape(), ops), dir, path, d, e)
  {
    var end;
    ops, end := NestFromFormat(v);
    LinkedIsRun(Format(v), RootShape(), ops, end);
    e :| Nested(end.0, end.1, e, 16);
    d := LastStep(end.0, end.1, e, dir, path);
  }

  lemma PathOfChild(v: Volume, g: Shape, d: nat)
    requires WellFormed(v, g) && d in g.dirs && d < CLUSTER_MAP_SIZE && v.Table(d)[0].name != ROOT_NAME
    ensures d != ROOT_CLUSTER && d < |g.owner| && g.Parent(d) in g.dirs
    ensures |PathOf(v, g, d)| == |PathOf(v, g, g.Parent(d))| + |DirName(v, d)| + 1
    ensures Reachable(v, g, d) ==> Reachable(v, g, g.Parent(d))
  {
    assert DirOk(MetaOf(v), g, d);
  }

  lemma SixteenthName()
    ensures NestName(16) != ROOT_NAME && CString(NestName(16)) == Letters(16)
  {
    NestNamesDiffer(15);
    assert NestName(16)[0] == Letters(16)[0] != ROOT_NAME[0];
  }

  // What matters about the sixteenth directory.
  ghost predicate Deepest(v: Volume, g: Shape, e: nat) {
    && WellFormed(v, g) && NamesPadded(v, g) && e in g.dirs && e < CLUSTER_MAP_SIZE
    && Reachable(v, g, e) && |PathOf(v, g, e)| == 5 + 8 * 16 && v.Table(e)[0].name == NestName(16)
  }

  lemma InsideFifteen(v: Volume, g: Shape, e: nat)
    requires Deepest(v, g, e)
    ensures e != ROOT_CLUSTER && e < |g.owner| && g.Parent(e) in g.dirs && Reachable(v, g, g.Parent(e))
    ensures |PathOf(v, g, g.Parent(e))| == 5 + 8 * 15 && DirName(v, e) == Letters(16)
  {
    SixteenthName();
    PathOfChild(v, g, e);
  }

  lemma LastStep(v: Volume, g: Shape, e: nat, dir: nat, path: Text) returns (d: nat)
    requires Deepest(v, g, e)
    ensures OverrunsFrom(v, g, dir, path, d, e)
  {
    InsideFifteen(v, g, e);
    d := g.Parent(e);
    PathRoundTrip(v, g, d, dir, path);
    ChildOverruns(v, g, e);
  }
}
