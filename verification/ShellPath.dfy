/**
 Path resolution of the shell's cd: what a path means, component by component, and why the path text
 and the working directory stay in step.
 */
module ShellPath {
  import opened Layout
  import opened DirectoryTable
  import opened FileSystem
  import opened VolumeInvariant
  import opened VolumeOperations

  // C strings without their terminating zero.
  type Text = seq<byte>

  const SLASH: byte := 0x2F
  const DOT: byte := 0x2E
  const ROOT_TEXT: Text := [0x72, 0x6F, 0x6F, 0x74]
  const ROOT_PATH: Text := [0x72, 0x6F, 0x6F, 0x74, 0x2F]
  const MAX_PATH: nat := 128

  function CString(s: seq<byte>): (t: Text)
    ensures |t| <= |s| && 0 !in t
  {
    if s == [] || s[0] == 0 then [] else [s[0]] + CString(s[1..])
  }

  function Pad(t: Text): (n: Name)
    requires |t| <= 8
    ensures forall i :: 0 <= i < 8 ==> n[i] == if i < |t| then t[i] else 0
  {
    t + seq(8 - |t|, _ => 0)
  }

  lemma {:induction false} CStringOfText(t: Text, s: seq<byte>)
    requires 0 !in t && (s == [] || s[0] == 0)
    ensures CString(t + s) == t
  {
    if t == [] {
      assert t + s == s;
    } else {
      assert t[0] in t && 0 !in t[1..];
      assert (t + s)[1..] == t[1..] + s;
      CStringOfText(t[1..], s);
    }
  }

  lemma CStringOfPad(t: Text)
    requires |t| <= 8 && 0 !in t
    ensures CString(Pad(t)) == t
  {
    CStringOfText(t, seq(8 - |t|, _ => 0));
  }

  // ---- One component ----

  // Undefined: the C code would read or write outside a buffer.
  datatype Outcome = At(dir: nat, path: Text) | Refused | Undefined

  // change_dir's loop that clears the path text from its end.
  function Truncate(path: Text): Text {
    if |path| <= 5 then path else path[..Keep(path, |path| - 1)]
  }

  // How much of the text is kept when the loop has come down to index i.
  function Keep(path: Text, i: nat): (n: nat)
    requires i < |path|
    ensures n <= |path|
  {
    if i <= 4 || (path[i] == SLASH && i + 2 < |path|) then i + 1 else Keep(path, i - 1)
  }

  predicate IsParent(comp: Text) {
    |comp| >= 2 && comp[0] == DOT && comp[1] == DOT
  }

  // A used directory entry whose name is this C string.
  predicate Called(e: DirEntry, comp: Text) {
    e.Used() && e.IsDir() && CString(e.name) == comp
  }

  function FirstCalled(t: Table, comp: Text, i: nat): (r: nat)
    requires i <= TABLE_SLOTS
    ensures i <= r <= TABLE_SLOTS
    ensures forall j :: i <= j < r ==> !Called(t[j], comp)
    ensures r < TABLE_SLOTS ==> Called(t[r], comp)
    decreases TABLE_SLOTS - i
  {
    if i == TABLE_SLOTS || Called(t[i], comp) then i else FirstCalled(t, comp, i + 1)
  }

  // change_dir on the table of the directory the shell is in. The component comes in a buffer of 8 bytes,
  // in which eight characters leave no room for a terminating zero.
  function ChangeDir(t: Table, dir: nat, path: Text, comp: Text): Outcome {
    if |comp| >= 8 then Undefined
    else if comp == [DOT] then At(dir, path)
    else if IsParent(comp) then (if dir != ROOT_CLUSTER then At(t[1].cluster, Truncate(path)) else Refused)
    else
      var i := FirstCalled(t, comp, 2);
      if i == TABLE_SLOTS then Refused
      else if |path| + |comp| + 1 >= MAX_PATH then Undefined
      else At(t[i].cluster, path + comp + [SLASH])
  }

  // The component buffer holds 8 bytes: a ninth is refused.
  function StepInto(v: Volume, dir: nat, path: Text, comp: Text): Outcome {
    if |comp| > 8 then Refused
    else if dir >= CLUSTER_MAP_SIZE then Undefined
    else ChangeDir(v.Table(dir), dir, path, comp)
  }

  // ---- Whole paths, character by character ----

  // From a place, with buf collected so far and rest still to read.
  function Walk(v: Volume, dir: nat, path: Text, buf: Text, rest: Text): Outcome
    decreases |rest|
  {
    if rest == [] then (if buf == [] then At(dir, path) else StepInto(v, dir, path, buf))
    else if rest[0] == SLASH then
      if buf == [] then Refused
      else
        var o := StepInto(v, dir, path, buf);
        if o.At? then Walk(v, o.dir, o.path, [], rest[1..]) else o
    else if |buf| >= 8 then Refused
    else Walk(v, dir, path, buf + [rest[0]], rest[1..])
  }

  // The first component of a path.
  function Head(text: Text): (h: Text)
    ensures |h| <= |text| && h == text[..|h|] && SLASH !in h
    ensures |h| < |text| ==> text[|h|] == SLASH
  {
    if text == [] || text[0] == SLASH then [] else [text[0]] + Head(text[1..])
  }

  predicate Absolute(text: Text) {
    Head(text) == ROOT_TEXT
  }

  // multiple_cd
  function Resolve(v: Volume, dir: nat, path: Text, text: Text): Outcome {
    if |Head(text)| > 8 then Refused
    else if Absolute(text) then Walk(v, ROOT_CLUSTER, ROOT_PATH, [], if |text| > 5 then text[5..] else [])
    else Walk(v, dir, path, [], text)
  }

  // ---- Whole paths, as a fold over components ----

  // The pieces between slashes; at least one.
  function Parts(text: Text): (ps: seq<Text>)
    ensures |ps| >= 1
    decreases |text|
  {
    var h := Head(text);
    if |h| == |text| then [h] else [h] + Parts(text[|h| + 1..])
  }

  // Every piece but the last must name something; the last may be empty.
  function Fold(v: Volume, dir: nat, path: Text, ps: seq<Text>): Outcome
    requires |ps| >= 1
    decreases |ps|
  {
    if ps[0] == [] then (if |ps| == 1 then At(dir, path) else Refused)
    else
      var o := StepInto(v, dir, path, ps[0]);
      if |ps| == 1 || !o.At? then o else Fold(v, o.dir, o.path, ps[1..])
  }

  // What is left to do once a component has been collected: at the end of the path (more is false), or
  // with the rest after a slash.
  function Continue(v: Volume, dir: nat, path: Text, comp: Text, more: bool, rest: Text): Outcome {
    if comp == [] then (if more then Refused else At(dir, path))
    else
      var o := StepInto(v, dir, path, comp);
      if more && o.At? then Walk(v, o.dir, o.path, [], rest) else o
  }

  function After(text: Text): Text {
    if |Head(text)| < |text| then text[|Head(text)| + 1..] else []
  }

  // Reading one component's characters is taking one step.
  lemma {:induction false} WalkHead(v: Volume, dir: nat, path: Text, buf: Text, rest: Text)
    requires |buf| <= 8 && SLASH !in buf
    ensures Walk(v, dir, path, buf, rest)
            == Continue(v, dir, path, buf + Head(rest), |Head(rest)| < |rest|, After(rest))
    decreases |rest|
  {
    if rest == [] || rest[0] == SLASH {
      assert buf + [] == buf;
    } else if |buf| < 8 {
      WalkHead(v, dir, path, buf + [rest[0]], rest[1..]);
      assert buf + [rest[0]] + Head(rest[1..]) == buf + Head(rest);
      assert After(rest[1..]) == After(rest);
    }
  }

  // The character loop computes the fold of the one-component step over the parsed path.
  lemma {:induction false} WalkIsFold(v: Volume, dir: nat, path: Text, text: Text)
    ensures Walk(v, dir, path, [], text) == Fold(v, dir, path, Parts(text))
    decreases |text|
  {
    WalkHead(v, dir, path, [], text);
    var h := Head(text);
    assert [] + h == h;
    if |h| < |text| {
      var o := StepInto(v, dir, path, h);
      assert Parts(text)[1..] == Parts(text[|h| + 1..]);
      if h != [] && o.At? {
        WalkIsFold(v, o.dir, o.path, text[|h| + 1..]);
      }
    }
  }

  // multiple_cd is that fold, from the root after a leading "root" and from where it stands otherwise.
  lemma ResolveIsFold(v: Volume, dir: nat, path: Text, text: Text)
    ensures Resolve(v, dir, path, text) ==
            if !Absolute(text) then Fold(v, dir, path, Parts(text))
            else if |Parts(text)| == 1 then At(ROOT_CLUSTER, ROOT_PATH)
            else Fold(v, ROOT_CLUSTER, ROOT_PATH, Parts(text)[1..])
  {
    var h := Head(text);
    if Absolute(text) {
      if |text| > 4 {
        assert Parts(text)[1..] == Parts(text[5..]);
        WalkIsFold(v, ROOT_CLUSTER, ROOT_PATH, text[5..]);
      }
    } else {
      WalkIsFold(v, dir, path, text);
    }
  }

  // ---- The path text and the directory agree ----

  // Names as the shell makes them: a C string padded with zeros.
  predicate Padded(n: Name) {
    n == Pad(CString(n))
  }

  ghost predicate NamesPadded(v: Volume, g: Shape) {
    forall d: nat :: d in g.dirs && d < CLUSTER_MAP_SIZE ==> Padded(v.Table(d)[0].name)
  }

  function DirName(v: Volume, d: nat): Text
    requires d < CLUSTER_MAP_SIZE
  {
    CString(v.Table(d)[0].name)
  }

  // A directory's name as one component of a path text.
  predicate Spellable(t: Text) {
    0 < |t| <= 7 && SLASH !in t
  }

  // The path text of directory d: the names from the root down to it, each followed by a slash.
  ghost function PathOf(v: Volume, g: Shape, d: nat): Text
    requires WellFormed(v, g) && d in g.dirs
    decreases (assert DirOk(MetaOf(v), g, d); g.rank[d])
  {
    assert DirOk(MetaOf(v), g, d);
    if d == ROOT_CLUSTER then ROOT_PATH else PathOf(v, g, g.Parent(d)) + DirName(v, d) + [SLASH]
  }

  // Every directory on the way to d has a name a path can spell.
  ghost predicate SpelledOut(v: Volume, g: Shape, d: nat)
    requires WellFormed(v, g) && d in g.dirs
    decreases (assert DirOk(MetaOf(v), g, d); g.rank[d])
  {
    assert DirOk(MetaOf(v), g, d);
    d == ROOT_CLUSTER || (Spellable(DirName(v, d)) && SpelledOut(v, g, g.Parent(d)))
  }

  // The shell's two variables agree: the text spells the names down to the working directory.
  ghost predicate Agrees(v: Volume, g: Shape, dir: nat, path: Text)
    requires WellFormed(v, g)
  {
    dir in g.dirs && SpelledOut(v, g, dir) && path == PathOf(v, g, dir)
  }

  lemma {:induction false} PathEndsWithSlash(v: Volume, g: Shape, d: nat)
    requires WellFormed(v, g) && d in g.dirs
    ensures |PathOf(v, g, d)| >= 5 && PathOf(v, g, d)[|PathOf(v, g, d)| - 1] == SLASH
    ensures ROOT_PATH <= PathOf(v, g, d)
    decreases (assert DirOk(MetaOf(v), g, d); g.rank[d])
  {
    assert DirOk(MetaOf(v), g, d);
    if d != ROOT_CLUSTER {
      PathEndsWithSlash(v, g, g.Parent(d));
    }
  }

  // Clearing from the end removes exactly the last component.
  lemma TruncateDropsLast(parent: Text, name: Text)
    requires |parent| >= 5 && parent[|parent| - 1] == SLASH && |name| > 0 && SLASH !in name
    ensures Truncate(parent + name + [SLASH]) == parent
  {
    var path := parent + name + [SLASH];
    KeepStopsAt(path, |path| - 1, |parent| - 1);
  }

  lemma {:induction false} KeepStopsAt(path: Text, i: nat, k: nat)
    requires 4 <= k <= i < |path| && path[k] == SLASH && k + 2 < |path|
    requires forall j :: k < j <= i && j + 2 < |path| ==> path[j] != SLASH
    ensures Keep(path, i) == k + 1
    decreases i
  {
    if i > k {
      KeepStopsAt(path, i - 1, k);
    }
  }

  lemma ParentStep(v: Volume, g: Shape, dir: nat, path: Text)
    requires WellFormed(v, g) && Agrees(v, g, dir, path) && dir != ROOT_CLUSTER && dir < CLUSTER_MAP_SIZE
    ensures Agrees(v, g, v.Table(dir)[1].cluster, Truncate(path))
  {
    assert DirOk(MetaOf(v), g, dir);
    PathEndsWithSlash(v, g, g.Parent(dir));
    TruncateDropsLast(PathOf(v, g, g.Parent(dir)), DirName(v, dir));
  }

  // A child entry that is called comp leads to a directory whose own name is comp.
  lemma ChildCalled(v: Volume, g: Shape, dir: nat, i: nat, comp: Text)
    requires WellFormed(v, g) && dir in g.dirs && dir < CLUSTER_MAP_SIZE && 2 <= i < TABLE_SLOTS
    requires Called(v.Table(dir)[i], comp)
    ensures var c := v.Table(dir)[i].cluster;
            && c in g.dirs && c < CLUSTER_MAP_SIZE && c != ROOT_CLUSTER && g.Parent(c) == dir && DirName(v, c) == comp
            && v.Table(c)[0].name == v.Table(dir)[i].name
  {
    assert Child(MetaOf(v), g, dir, i) && ChildOk(MetaOf(v), g, dir, i);
    assert DirOk(MetaOf(v), g, v.Table(dir)[i].cluster);
  }

  // One successful component keeps the agreement.
  lemma StepAgrees(v: Volume, g: Shape, dir: nat, path: Text, comp: Text)
    requires WellFormed(v, g) && Agrees(v, g, dir, path) && comp != [] && SLASH !in comp
    requires StepInto(v, dir, path, comp).At?
    ensures Agrees(v, g, StepInto(v, dir, path, comp).dir, StepInto(v, dir, path, comp).path)
  {
    assert DirOk(MetaOf(v), g, dir);
    if IsParent(comp) {
      ParentStep(v, g, dir, path);
    } else if comp != [DOT] {
      var i := FirstCalled(v.Table(dir), comp, 2);
      ChildCalled(v, g, dir, i, comp);
    }
  }

  lemma {:induction false} FoldAgrees(v: Volume, g: Shape, dir: nat, path: Text, ps: seq<Text>)
    requires WellFormed(v, g) && Agrees(v, g, dir, path) && |ps| >= 1
    requires forall i :: 0 <= i < |ps| ==> SLASH !in ps[i]
    requires Fold(v, dir, path, ps).At?
    ensures Agrees(v, g, Fold(v, dir, path, ps).dir, Fold(v, dir, path, ps).path)
    decreases |ps|
  {
    if ps[0] != [] {
      StepAgrees(v, g, dir, path, ps[0]);
      var o := StepInto(v, dir, path, ps[0]);
      if |ps| > 1 {
        FoldAgrees(v, g, o.dir, o.path, ps[1..]);
      }
    }
  }

  lemma {:induction false} PartsHaveNoSlash(text: Text)
    ensures forall i :: 0 <= i < |Parts(text)| ==> SLASH !in Parts(text)[i]
    decreases |text|
  {
    var h := Head(text);
    if |h| < |text| {
      PartsHaveNoSlash(text[|h| + 1..]);
    }
  }

  // After every successful cd the path text spells the names down to the working directory again.
  lemma ResolveAgrees(v: Volume, g: Shape, dir: nat, path: Text, text: Text)
    requires WellFormed(v, g) && Agrees(v, g, dir, path) && Resolve(v, dir, path, text).At?
    ensures Agrees(v, g, Resolve(v, dir, path, text).dir, Resolve(v, dir, path, text).path)
  {
    ResolveIsFold(v, dir, path, text);
    PartsHaveNoSlash(text);
    assert DirOk(MetaOf(v), g, ROOT_CLUSTER);
    if !Absolute(text) {
      FoldAgrees(v, g, dir, path, Parts(text));
    } else if |Parts(text)| > 1 {
      FoldAgrees(v, g, ROOT_CLUSTER, ROOT_PATH, Parts(text)[1..]);
    }
  }

  // ---- Paths that overrun the shell's buffers ----

  predicate NamesChild(t: Table, comp: Text) {
    exists i :: 2 <= i < TABLE_SLOTS && Called(t[i], comp)
  }

  // From this place the component overruns a buffer: its own, or as a child's name the path text.
  predicate Overruns(v: Volume, dir: nat, path: Text, comp: Text) {
    || |comp| == 8
    || (&& 0 < |comp| < 8 && comp != [DOT] && !IsParent(comp)
        && dir < CLUSTER_MAP_SIZE && NamesChild(v.Table(dir), comp) && |path| + |comp| + 1 >= 128)
  }

  lemma NamesChildIff(t: Table, comp: Text)
    ensures NamesChild(t, comp) <==> FirstCalled(t, comp, 2) < TABLE_SLOTS
  {
    var i := FirstCalled(t, comp, 2);
    assert i < TABLE_SLOTS ==> Called(t[i], comp);
  }

  lemma ChangeDirOverruns(t: Table, dir: nat, path: Text, comp: Text)
    requires comp != []
    ensures ChangeDir(t, dir, path, comp) == Undefined
            <==> |comp| >= 8 || (comp != [DOT] && !IsParent(comp) && NamesChild(t, comp) && |path| + |comp| + 1 >= MAX_PATH)
  {
    NamesChildIff(t, comp);
  }

  lemma StepOverruns(v: Volume, dir: nat, path: Text, comp: Text)
    requires dir < CLUSTER_MAP_SIZE && comp != []
    ensures StepInto(v, dir, path, comp) == Undefined <==> Overruns(v, dir, path, comp)
  {
    ChangeDirOverruns(v.Table(dir), dir, path, comp);
  }

  // Where components, none of them empty, lead one after the other.
  function Follow(v: Volume, dir: nat, path: Text, ps: seq<Text>): Outcome
    decreases |ps|
  {
    if ps == [] then At(dir, path)
    else if ps[0] == [] then Refused
    else
      var o := StepInto(v, dir, path, ps[0]);
      if o.At? then Follow(v, o.dir, o.path, ps[1..]) else o
  }

  // The first n components step successfully, and the next overruns a buffer.
  predicate OverrunsAt(v: Volume, dir: nat, path: Text, ps: seq<Text>, n: nat) {
    && n < |ps|
    && var o := Follow(v, dir, path, ps[..n]);
       o.At? && Overruns(v, o.dir, o.path, ps[n])
  }

  lemma OverrunsLater(v: Volume, dir: nat, path: Text, ps: seq<Text>, n: nat)
    requires 1 <= n < |ps|
    ensures OverrunsAt(v, dir, path, ps, n) <==>
              ps[0] != [] && StepInto(v, dir, path, ps[0]).At?
              && OverrunsAt(v, StepInto(v, dir, path, ps[0]).dir, StepInto(v, dir, path, ps[0]).path, ps[1..], n - 1)
  {
    assert ps[..n][1..] == ps[1..][..n - 1] && ps[..n][0] == ps[0];
  }

  lemma {:induction false} FoldOverrunsIff(v: Volume, g: Shape, dir: nat, path: Text, ps: seq<Text>)
    requires WellFormed(v, g) && Agrees(v, g, dir, path) && |ps| >= 1
    requires forall i :: 0 <= i < |ps| ==> SLASH !in ps[i]
    ensures Fold(v, dir, path, ps) == Undefined <==> exists n: nat :: OverrunsAt(v, dir, path, ps, n)
    decreases |ps|
  {
    assert DirOk(MetaOf(v), g, dir);
    assert OverrunsAt(v, dir, path, ps, 0) <==> Overruns(v, dir, path, ps[0]);
    forall n: nat | 1 <= n < |ps|
      ensures OverrunsAt(v, dir, path, ps, n) <==>
                ps[0] != [] && StepInto(v, dir, path, ps[0]).At?
                && OverrunsAt(v, StepInto(v, dir, path, ps[0]).dir, StepInto(v, dir, path, ps[0]).path, ps[1..], n - 1)
    {
      OverrunsLater(v, dir, path, ps, n);
    }
    if ps[0] != [] {
      StepOverruns(v, dir, path, ps[0]);
      var o := StepInto(v, dir, path, ps[0]);
      if o.At? && |ps| > 1 {
        StepAgrees(v, g, dir, path, ps[0]);
        FoldOverrunsIff(v, g, o.dir, o.path, ps[1..]);
        if n: nat :| OverrunsAt(v, o.dir, o.path, ps[1..], n) {
          assert OverrunsAt(v, dir, path, ps, n + 1);
        }
      }
    }
  }

  // Where multiple_cd starts from, and the components it takes from there.
  function StartDir(dir: nat, text: Text): nat {
    if Absolute(text) then ROOT_CLUSTER else dir
  }

  function StartPath(path: Text, text: Text): Text {
    if Absolute(text) then ROOT_PATH else path
  }

  function Components(text: Text): seq<Text> {
    if Absolute(text) then Parts(text)[1..] else Parts(text)
  }

  // multiple_cd overruns one of its buffers if and only if, after some components that step
  // successfully, the next one has exactly 8 characters, or names a child and makes the path text reach
  // its 128 bytes.
  lemma UndefinedIff(v: Volume, g: Shape, dir: nat, path: Text, text: Text)
    requires WellFormed(v, g) && Agrees(v, g, dir, path)
    ensures Resolve(v, dir, path, text) == Undefined
            <==> exists n: nat :: OverrunsAt(v, StartDir(dir, text), StartPath(path, text), Components(text), n)
  {
    ResolveIsFold(v, dir, path, text);
    PartsHaveNoSlash(text);
    assert DirOk(MetaOf(v), g, ROOT_CLUSTER);
    if Components(text) != [] {
      FoldOverrunsIff(v, g, StartDir(dir, text), StartPath(path, text), Components(text));
    }
  }

  // What the components can add to the path text.
  function Growth(ps: seq<Text>): nat {
    if ps == [] then 0 else (if ps[0] == [] then 0 else |ps[0]| + 1) + Growth(ps[1..])
  }

  // A test on the texts alone: no component has 8 characters, and together they fit.
  predicate Fits(path: Text, text: Text) {
    && (forall i :: 0 <= i < |Components(text)| ==> |Components(text)[i]| != 8)
    && |StartPath(path, text)| + Growth(Components(text)) < MAX_PATH
  }

  lemma {:induction false} FoldFits(v: Volume, g: Shape, dir: nat, path: Text, ps: seq<Text>)
    requires WellFormed(v, g) && Agrees(v, g, dir, path) && |ps| >= 1
    requires forall i :: 0 <= i < |ps| ==> SLASH !in ps[i] && |ps[i]| != 8
    requires |path| + Growth(ps) < MAX_PATH
    ensures Fold(v, dir, path, ps) != Undefined
    decreases |ps|
  {
    assert DirOk(MetaOf(v), g, dir);
    if ps[0] != [] {
      var o := StepInto(v, dir, path, ps[0]);
      if o.At? && |ps| > 1 {
        StepAgrees(v, g, dir, path, ps[0]);
        FoldFits(v, g, o.dir, o.path, ps[1..]);
      }
    }
  }

  // Passing it is enough: no buffer is overrun, whatever directories there are.
  lemma FitsIsDefined(v: Volume, g: Shape, dir: nat, path: Text, text: Text)
    requires WellFormed(v, g) && Agrees(v, g, dir, path) && Fits(path, text)
    ensures Resolve(v, dir, path, text) != Undefined
  {
    ResolveIsFold(v, dir, path, text);
    PartsHaveNoSlash(text);
    assert DirOk(MetaOf(v), g, ROOT_CLUSTER);
    if Components(text) != [] {
      FoldFits(v, g, StartDir(dir, text), StartPath(path, text), Components(text));
    }
  }

  lemma {:induction false} HeadOfName(t: Text)
    requires SLASH !in t
    ensures Head(t) == t
  {
    if t != [] {
      assert t[0] in t;
      HeadOfName(t[1..]);
    }
  }

  // Any 8 characters without a slash overrun, wherever the shell stands.
  lemma EightCharactersOverrun(v: Volume, dir: nat, path: Text, text: Text)
    requires |text| == 8 && SLASH !in text
    ensures Resolve(v, dir, path, text) == Undefined
  {
    HeadOfName(text);
    ResolveIsFold(v, dir, path, text);
  }

  // ---- The path text leads back to its directory ----

  // A name that cd takes as a child's, and not as the directory itself or its parent.
  predicate Navigable(t: Text) {
    Spellable(t) && t != [DOT] && !IsParent(t)
  }

  ghost predicate Reachable(v: Volume, g: Shape, d: nat)
    requires WellFormed(v, g) && d in g.dirs
    decreases (assert DirOk(MetaOf(v), g, d); g.rank[d])
  {
    assert DirOk(MetaOf(v), g, d);
    d == ROOT_CLUSTER || (Navigable(DirName(v, d)) && Reachable(v, g, g.Parent(d)))
  }

  // With padded names no two children of a directory are called the same.
  lemma CalledOnce(v: Volume, g: Shape, p: nat, i: nat, j: nat, comp: Text)
    requires WellFormed(v, g) && NamesPadded(v, g) && p in g.dirs && p < CLUSTER_MAP_SIZE
    requires 2 <= i < TABLE_SLOTS && 2 <= j < TABLE_SLOTS && Called(v.Table(p)[i], comp) && Called(v.Table(p)[j], comp)
    ensures i == j
  {
    ChildCalled(v, g, p, i, comp);
    ChildCalled(v, g, p, j, comp);
    var t := MetaOf(v).tables[p];
    assert t[i].name == t[j].name;
    assert KeysDistinct(t, p == ROOT_CLUSTER);
    assert SameKey(t[j], t[i]) && SameKey(t[i], t[j]);
  }

  lemma StepIntoChild(v: Volume, g: Shape, d: nat, path: Text)
    requires WellFormed(v, g) && NamesPadded(v, g) && d in g.dirs && d != ROOT_CLUSTER && d < CLUSTER_MAP_SIZE
    requires Navigable(DirName(v, d)) && |path| + |DirName(v, d)| + 1 < MAX_PATH && d < |g.owner|
    ensures StepInto(v, g.Parent(d), path, DirName(v, d)) == At(d, path + DirName(v, d) + [SLASH])
  {
    var p := g.Parent(d);
    assert DirOk(MetaOf(v), g, d);
    assert DirOk(MetaOf(v), g, p);
    var i, comp := g.owner[d].index, DirName(v, d);
    assert Called(v.Table(p)[i], comp);
    CalledOnce(v, g, p, i, FirstCalled(v.Table(p), comp, 2), comp);
  }

  // Walking a path that ends with a slash and then more is walking the rest from where it led.
  lemma {:induction false} WalkOn(v: Volume, dir: nat, path: Text, buf: Text, first: Text, more: Text)
    requires Walk(v, dir, path, buf, first).At?
    requires first == [] ==> buf == []
    requires first != [] ==> first[|first| - 1] == SLASH
    ensures var o := Walk(v, dir, path, buf, first);
            Walk(v, dir, path, buf, first + more) == Walk(v, o.dir, o.path, [], more)
    decreases |first|
  {
    if first == [] {
      assert first + more == more;
    } else {
      assert (first + more)[1..] == first[1..] + more;
      if first[0] == SLASH {
        var o := StepInto(v, dir, path, buf);
        WalkOn(v, o.dir, o.path, [], first[1..], more);
      } else {
        WalkOn(v, dir, path, buf + [first[0]], first[1..], more);
      }
    }
  }

  lemma {:induction false} HeadUpTo(t: Text, more: Text)
    requires SLASH !in t
    ensures Head(t + [SLASH] + more) == t
  {
    var text := t + [SLASH] + more;
    if t != [] {
      assert text[1..] == t[1..] + [SLASH] + more;
      assert t[0] in t;
      HeadUpTo(t[1..], more);
    }
  }

  lemma WalkIntoChild(v: Volume, g: Shape, d: nat, path: Text)
    requires WellFormed(v, g) && NamesPadded(v, g) && d in g.dirs && d != ROOT_CLUSTER && d < CLUSTER_MAP_SIZE
    requires Navigable(DirName(v, d)) && |path| + |DirName(v, d)| + 1 < MAX_PATH && d < |g.owner|
    ensures Walk(v, g.Parent(d), path, [], DirName(v, d) + [SLASH]) == At(d, path + DirName(v, d) + [SLASH])
  {
    var comp := DirName(v, d);
    HeadUpTo(comp, []);
    assert comp + [SLASH] + [] == comp + [SLASH];
    WalkHead(v, g.Parent(d), path, [], comp + [SLASH]);
    assert [] + comp == comp;
    StepIntoChild(v, g, d, path);
  }

  lemma {:induction false} WalkFromRoot(v: Volume, g: Shape, d: nat)
    requires WellFormed(v, g) && NamesPadded(v, g) && d in g.dirs && Reachable(v, g, d)
    requires |PathOf(v, g, d)| < MAX_PATH
    ensures |PathOf(v, g, d)| >= 5
    ensures Walk(v, ROOT_CLUSTER, ROOT_PATH, [], PathOf(v, g, d)[5..]) == At(d, PathOf(v, g, d))
    decreases (assert DirOk(MetaOf(v), g, d); g.rank[d])
  {
    assert DirOk(MetaOf(v), g, d);
    PathEndsWithSlash(v, g, d);
    if d != ROOT_CLUSTER {
      var p := g.Parent(d);
      var before, comp := PathOf(v, g, p), DirName(v, d);
      PathEndsWithSlash(v, g, p);
      WalkFromRoot(v, g, p);
      WalkIntoChild(v, g, d, before);
      DropRoot(before, comp);
      WalkOn(v, ROOT_CLUSTER, ROOT_PATH, [], before[5..], comp + [SLASH]);
    }
  }

  lemma DropRoot(before: Text, comp: Text)
    requires |before| >= 5
    ensures (before + comp + [SLASH])[5..] == before[5..] + (comp + [SLASH])
    ensures |before| > 5 ==> before[5..][|before| - 6] == before[|before| - 1]
  {
  }

  // From anywhere, the path text that the shell shows for a directory leads to that directory and to
  // the same text.
  lemma PathRoundTrip(v: Volume, g: Shape, d: nat, dir: nat, path: Text)
    requires WellFormed(v, g) && NamesPadded(v, g) && d in g.dirs && Reachable(v, g, d)
    requires |PathOf(v, g, d)| < MAX_PATH
    ensures Resolve(v, dir, path, PathOf(v, g, d)) == At(d, PathOf(v, g, d))
  {
    var text := PathOf(v, g, d);
    PathEndsWithSlash(v, g, d);
    WalkFromRoot(v, g, d);
    assert text == ROOT_TEXT + [SLASH] + text[5..];
    HeadUpTo(ROOT_TEXT, text[5..]);
  }

  // ---- What a path means ----

  lemma OnePart(v: Volume, dir: nat, path: Text, text: Text)
    requires text != [] && SLASH !in text && text != ROOT_TEXT
    ensures Resolve(v, dir, path, text) == StepInto(v, dir, path, text)
  {
    HeadOfName(text);
    ResolveIsFold(v, dir, path, text);
  }

  // Nothing, or ".", stays.
  lemma CdHere(v: Volume, g: Shape, dir: nat, path: Text)
    requires WellFormed(v, g) && Agrees(v, g, dir, path)
    ensures Resolve(v, dir, path, []) == At(dir, path)
    ensures Resolve(v, dir, path, [0x2E]) == At(dir, path)
  {
    assert DirOk(MetaOf(v), g, dir);
    OnePart(v, dir, path, [0x2E]);
  }

  // "..", and whatever else of at most seven characters starts with it, goes up, and is refused at the root.
  lemma CdUp(v: Volume, g: Shape, dir: nat, path: Text, text: Text)
    requires WellFormed(v, g) && Agrees(v, g, dir, path)
    requires 2 <= |text| < 8 && text[0] == 0x2E && text[1] == 0x2E && SLASH !in text
    ensures dir == ROOT_CLUSTER ==> Resolve(v, dir, path, text) == Refused
    ensures dir != ROOT_CLUSTER ==>
              && dir < |g.owner| && g.Parent(dir) in g.dirs
              && Resolve(v, dir, path, text) == At(g.Parent(dir), PathOf(v, g, g.Parent(dir)))
  {
    assert DirOk(MetaOf(v), g, dir);
    OnePart(v, dir, path, text);
    if dir != ROOT_CLUSTER {
      ParentStep(v, g, dir, path);
    }
  }

  predicate ChildOf(g: Shape, c: nat, dir: nat) {
    c != ROOT_CLUSTER && c < CLUSTER_MAP_SIZE && c < |g.owner| && g.Parent(c) == dir
  }

  // The name of a child directory leads there, if the path text has room for it.
  lemma CdDown(v: Volume, g: Shape, dir: nat, path: Text, c: nat)
    requires WellFormed(v, g) && NamesPadded(v, g) && c in g.dirs && ChildOf(g, c, dir) && Agrees(v, g, dir, path)
    requires Navigable(DirName(v, c)) && DirName(v, c) != ROOT_TEXT && |path| + |DirName(v, c)| + 1 < 128
    ensures Resolve(v, dir, path, DirName(v, c)) == At(c, PathOf(v, g, c))
  {
    OnePart(v, dir, path, DirName(v, c));
    StepIntoChild(v, g, c, path);
  }

  // A name that no child directory has is refused, and so is any of more than 8 characters.
  lemma CdNowhere(v: Volume, g: Shape, dir: nat, path: Text, text: Text)
    requires WellFormed(v, g) && Agrees(v, g, dir, path) && text != [] && SLASH !in text && |text| != 8
    requires text != ROOT_TEXT && text != [0x2E] && !(|text| >= 2 && text[0] == 0x2E && text[1] == 0x2E)
    requires |text| < 8 ==> forall c :: c in g.dirs && ChildOf(g, c, dir) ==> DirName(v, c) != text
    ensures Resolve(v, dir, path, text) == Refused
  {
    assert DirOk(MetaOf(v), g, dir);
    OnePart(v, dir, path, text);
    var i := FirstCalled(v.Table(dir), text, 2);
    if |text| < 8 && i < TABLE_SLOTS {
      ChildCalled(v, g, dir, i, text);
    }
  }

  // "root", alone or before a slash, goes to the root first.
  lemma CdFromRoot(v: Volume, dir: nat, path: Text, rest: Text)
    requires !Absolute(rest)
    ensures Resolve(v, dir, path, [0x72, 0x6F, 0x6F, 0x74]) == At(ROOT_CLUSTER, [0x72, 0x6F, 0x6F, 0x74, 0x2F])
    ensures Resolve(v, dir, path, [0x72, 0x6F, 0x6F, 0x74, 0x2F] + rest)
            == Resolve(v, ROOT_CLUSTER, [0x72, 0x6F, 0x6F, 0x74, 0x2F], rest)
  {
    HeadOfName(ROOT_TEXT);
    ResolveIsFold(v, dir, path, ROOT_TEXT);
    PartsOf(ROOT_TEXT, rest);
    assert ROOT_TEXT + [SLASH] + rest == ROOT_PATH + rest;
    HeadUpTo(ROOT_TEXT, rest);
    ResolveIsFold(v, dir, path, ROOT_PATH + rest);
    ResolveIsFold(v, ROOT_CLUSTER, ROOT_PATH, rest);
  }

  lemma PartsOf(a: Text, rest: Text)
    requires SLASH !in a
    ensures Parts(a + [SLASH] + rest) == [a] + Parts(rest)
  {
    HeadUpTo(a, rest);
    assert (a + [SLASH] + rest)[|a| + 1..] == rest;
  }

  // A component before a slash is taken first, and the rest from where it led. Nothing before the slash is
  // refused.
  lemma CdOneByOne(v: Volume, dir: nat, path: Text, a: Text, rest: Text)
    requires SLASH !in a && a != ROOT_TEXT && !Absolute(rest)
    ensures Resolve(v, dir, path, a + [0x2F] + rest) ==
            if a == [] then Refused
            else
              var o := Resolve(v, dir, path, a);
              if o.At? then Resolve(v, o.dir, o.path, rest) else o
  {
    PartsOf(a, rest);
    HeadUpTo(a, rest);
    ResolveIsFold(v, dir, path, a + [SLASH] + rest);
    if a != [] {
      OnePart(v, dir, path, a);
      var o := StepInto(v, dir, path, a);
      if o.At? {
        ResolveIsFold(v, o.dir, o.path, rest);
      }
    }
  }

  // Padded names stay padded as long as every new directory is given one.
  lemma WriteKeepsPadded(v: Volume, g: Shape, r: Request, data: seq<byte>)
    requires WellFormed(v, g) && r.parent < CLUSTER_MAP_SIZE && Readable(r, data) && NamesPadded(v, g)
    requires v.fat[r.parent] == END_OF_FILE ==> r.parent in g.dirs
    requires r.bufferSize == 0 ==> Padded(r.name)
    ensures NamesPadded(Write(v, r, data), WriteShape(v, g, r))
  {
    if WriteCode(v, r) == 0 {
      WriteAdds(v, g, r, data);
      AddedKeepsPadded(v, Write(v, r, data), g, r.parent, WriteSlot(v, r), WriteEntry(v, r), Allocated(v, r));
    }
  }

  lemma AddedKeepsPadded(v: Volume, v': Volume, g: Shape, p: nat, i: nat, e: DirEntry, cs: seq<nat>)
    requires WellFormed(v, g) && p in g.dirs && Added(MetaOf(v), MetaOf(v'), p, i, e, cs) && NamesPadded(v, g)
    requires e.IsDir() ==> Padded(e.name)
    ensures NamesPadded(v', AddShape(g, p, i, e, cs))
  {
    forall d: nat | d in AddShape(g, p, i, e, cs).dirs && d < CLUSTER_MAP_SIZE ensures Padded(v'.Table(d)[0].name) {
      AddedSelfName(MetaOf(v), MetaOf(v'), g, p, i, e, cs, d);
    }
  }

  // A directory calls itself what it did before, or is the new one and has the new entry's name.
  lemma AddedSelfName(m: Meta, m': Meta, g: Shape, p: nat, i: nat, e: DirEntry, cs: seq<nat>, d: nat)
    requires Inv(m, g) && p in g.dirs && Added(m, m', p, i, e, cs)
    requires d in AddShape(g, p, i, e, cs).dirs && d < CLUSTER_MAP_SIZE
    ensures m'.tables[d][0].name == if d in g.dirs then m.tables[d][0].name else e.name
    ensures d !in g.dirs ==> e.IsDir()
  {
    AddedFrame(m, m', g, p, i, e, cs);
    assert DirOk(m, g, p);
  }

  lemma DeleteKeepsPadded(v: Volume, g: Shape, r: Request)
    requires WellFormed(v, g) && DeleteDefined(v, r) && NamesPadded(v, g)
    requires v.fat[r.parent] == END_OF_FILE ==> r.parent in g.dirs
    requires DeleteCode(v, r) == 0 ==> Removable(v, r)
    ensures NamesPadded(Delete(v, r), DeleteShape(v, g, r))
  {
    if DeleteCode(v, r) == 0 {
      DeleteRemoves(v, g, r);
      var i := DeleteSlot(v, r);
      var cs := Freed(v, v.Table(r.parent)[i]);
      RemovedFrame(MetaOf(v), MetaOf(Delete(v, r)), g, r.parent, i, cs);
      forall d: nat | d in DeleteShape(v, g, r).dirs && d < CLUSTER_MAP_SIZE ensures Padded(Delete(v, r).Table(d)[0].name) {
        assert MetaOf(Delete(v, r)).tables[d][0] == MetaOf(v).tables[d][0];
      }
    }
  }
}
