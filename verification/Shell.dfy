/**
 The shell's cd as it runs: multiple_cd and change_dir, with the path text and the working directory
 changed step by step, saved first and restored on every failure.
 */
module Shell {
  import opened Layout
  import opened DirectoryTable
  import opened FileSystem
  import opened VolumeInvariant
  import opened VolumeOperations
  import opened FileSystemTheorems
  import opened Fat32Driver
  import opened ShellPath

  // What is left of the path from index i; "root" alone is stepped over by one more than its length.
  function From(path: Text, i: nat): Text {
    if i <= |path| then path[i..] else []
  }

  class Session {
    const driver: Driver
    var workingDirectory: nat
    var currentPath: Text

    constructor (d: Driver)
      ensures driver == d && workingDirectory == ROOT_CLUSTER && currentPath == ROOT_PATH
    {
      driver, workingDirectory, currentPath := d, ROOT_CLUSTER, ROOT_PATH;
    }

    // The shell stands in a directory of a well-formed volume and its path text says which.
    ghost predicate Stands(g: Shape)
      reads this, driver.clusterMap, driver.disk.storage
    {
      && driver.Valid() && WellFormed(driver.State(), g) && NamesPadded(driver.State(), g)
      && Agrees(driver.State(), g, workingDirectory, currentPath)
    }

    ghost function Here(): Outcome
      reads this
    {
      At(workingDirectory, currentPath)
    }

    method LastFolderName(ghost g: Shape) returns (name: Name)
      requires Stands(g)
      ensures workingDirectory < |driver.State().disk| && name == driver.State().Table(workingDirectory)[0].name
    {
      ghost var v := driver.State();
      LastNameOfPath(v, g, workingDirectory);
      assert Padded(v.Table(workingDirectory)[0].name);
      name := ScanName(DirName(v, workingDirectory));
    }

    // The scan back from the end of the path text for the name of the directory the shell is in.
    method ScanName(ghost last: Text) returns (name: Name)
      requires EndsWithName(currentPath, last)
      ensures name == Pad(last)
    {
      ghost var start := |currentPath| - 1 - |last|;
      var find, length := |currentPath| - 2, 0;
      NameHasNoSlash(currentPath, last, find);
      while find >= 0 && currentPath[find] != SLASH
        invariant start - 1 <= find <= |currentPath| - 2 && length == |currentPath| - 2 - find
        invariant find >= start ==> currentPath[find] != SLASH
      {
        find := find - 1;
        length := length + 1;
        NameHasNoSlash(currentPath, last, find);
      }
      find := find + 1;
      name := Pad(currentPath[find..find + length]);
    }

    // change_dir. The returned buffer is the name of the directory the shell is then in. overrun: the
    // next access is outside the component's buffer or the path text's, and the model stops there.
    method ChangeDir(comp: Text, t: Table) returns (ok: bool, overrun: bool, buffer: Text)
      requires 0 < |comp| <= 8
      modifies this
      ensures var o := ShellPath.ChangeDir(t, old(workingDirectory), old(currentPath), comp);
              && overrun == o.Undefined? && ok == o.At?
              && Here() == if ok then o else old(Here())
      ensures ok ==> buffer == if comp == [DOT] then CString(t[0].name)
                               else if IsParent(comp) then CString(t[1].name) else comp
    {
      if |comp| == 8 {
        return false, true, comp;
      }
      if comp == [DOT] {
        return true, false, CString(t[0].name);
      }
      if |comp| >= 2 && comp[0] == DOT && comp[1] == DOT {
        if workingDirectory != ROOT_CLUSTER {
          workingDirectory := t[1].cluster;
          TruncatePath();
          return true, false, CString(t[1].name);
        }
      } else {
        for i := 2 to TABLE_SLOTS
          invariant FirstCalled(t, comp, 2) == FirstCalled(t, comp, i)
          invariant Here() == old(Here())
        {
          if t[i].Used() && t[i].IsDir() && CString(t[i].name) == comp {
            if |currentPath| + |comp| + 1 >= MAX_PATH {
              return false, true, comp;
            }
            currentPath := currentPath + comp;
            currentPath := currentPath + [SLASH];
            workingDirectory := t[i].cluster;
            return true, false, comp;
          }
        }
      }
      return false, false, comp;
    }

    // One component: read_directory by the name of the directory the shell is in, then change_dir.
    method TakeStep(comp: Text, last: Name, ghost g: Shape) returns (ok: bool, overrun: bool, last': Name)
      requires Stands(g) && 0 < |comp| <= 8 && SLASH !in comp && 0 !in comp
      requires workingDirectory < CLUSTER_MAP_SIZE && last == driver.State().Table(workingDirectory)[0].name
      modifies this, driver
      ensures driver.Valid() && driver.State() == old(driver.State())
      ensures var o := StepInto(driver.State(), old(workingDirectory), old(currentPath), comp);
              overrun == o.Undefined? && ok == o.At? && (ok ==> Here() == o)
      ensures ok ==> Stands(g) && workingDirectory < CLUSTER_MAP_SIZE
                     && last' == driver.State().Table(workingDirectory)[0].name
    {
      ghost var v, dir, path := driver.State(), workingDirectory, currentPath;
      assert DirOk(MetaOf(v), g, dir);
      var r := Request(last, NO_EXT, workingDirectory, CLUSTER_SIZE);
      ReadOwnDirectory(v, g, r);
      var code, t := driver.ReadDirectory(r);
      assert code == 0 && t == v.Table(dir);
      var buffer;
      ok, overrun, buffer := ChangeDir(comp, t);
      last' := if |buffer| <= 8 then Pad(buffer) else last;
      if ok {
        StepAgrees(v, g, dir, path, comp);
        StepNames(v, g, dir, path, comp);
      }
    }

    // multiple_cd. When a buffer is overrun the C code's behaviour is undefined: the model stops there and
    // promises no more than that the volume has not changed so far.
    method MultipleCd(path: Text, ghost g: Shape) returns (ret: nat, overrun: bool)
      requires Stands(g) && 0 !in path
      modifies this, driver
      ensures driver.Valid() && driver.State() == old(driver.State())
      ensures overrun <==> Resolve(driver.State(), old(workingDirectory), old(currentPath), path) == Undefined
      ensures !overrun ==>
                var o := Resolve(driver.State(), old(workingDirectory), old(currentPath), path);
                && Stands(g) && ret == (if o.At? then 0 else 1)
                && Here() == if o.At? then o else old(Here())
    {
      ghost var v := driver.State();
      var last := LastFolderName(g);
      var savedDirectory, savedPath := workingDirectory, currentPath;
      var long := FirstTooLong(path);
      if long {
        return 1, false;
      }
      var i := 0;
      AbsoluteIs(path);
      if |path| >= 4 && path[..4] == ROOT_TEXT && (|path| == 4 || path[4] == SLASH) {
        workingDirectory := ROOT_CLUSTER;
        currentPath := ROOT_PATH;
        last := Pad(ROOT_TEXT);
        i := 5;
        RootStands(v, g);
      }
      var ok;
      ok, overrun := WalkPath(path, i, last, g);
      if overrun {
        return 1, true;
      }
      if !ok {
        workingDirectory, currentPath := savedDirectory, savedPath;
        return 1, false;
      }
      return 0, false;
    }

    // The first pass over the path: a first component of more than 8 characters is refused.
    method FirstTooLong(path: Text) returns (long: bool)
      ensures long == (|Head(path)| > 8)
    {
      var n := 0;
      for i := 0 to |path|
        invariant n == i <= 8 && |Head(path)| == n + |Head(path[n..])|
      {
        if path[i] == SLASH {
          return false;
        }
        if n >= 8 {
          return true;
        }
        n := n + 1;
      }
      return false;
    }

    // The main loop over the characters, and the component left at the end.
    method WalkPath(path: Text, start: nat, last0: Name, ghost g: Shape) returns (ok: bool, overrun: bool)
      requires Stands(g) && 0 !in path
      requires workingDirectory < CLUSTER_MAP_SIZE && last0 == driver.State().Table(workingDirectory)[0].name
      modifies this, driver
      ensures driver.Valid() && driver.State() == old(driver.State())
      ensures var o := Walk(driver.State(), old(workingDirectory), old(currentPath), [], From(path, start));
              overrun == o.Undefined? && ok == o.At? && (ok ==> Stands(g) && Here() == o)
    {
      ghost var v := driver.State();
      var last, buffer, i: nat := last0, [], start;
      ghost var goal := Walk(v, workingDirectory, currentPath, [], From(path, start));
      while i < |path|
        invariant Stands(g) && driver.State() == v && workingDirectory < CLUSTER_MAP_SIZE
        invariant last == v.Table(workingDirectory)[0].name
        invariant |buffer| <= 8 && SLASH !in buffer && 0 !in buffer
        invariant i <= |path| || buffer == []
        invariant goal == Walk(v, workingDirectory, currentPath, buffer, From(path, i))
        decreases |path| - i
      {
        WalkOne(v, workingDirectory, currentPath, buffer, path, i);
        if path[i] == SLASH {
          if buffer == [] {
            return false, false;
          }
          ok, overrun, last := TakeStep(buffer, last, g);
          if !ok {
            return false, overrun;
          }
          buffer := [];
        } else {
          if |buffer| >= 8 {
            return false, false;
          }
          buffer := buffer + [path[i]];
        }
        i := i + 1;
      }
      ok, overrun := true, false;
      if buffer != [] {
        ok, overrun, last := TakeStep(buffer, last, g);
      }
    }

    // The loop that clears the path text from its end.
    method TruncatePath()
      modifies this`currentPath
      ensures currentPath == Truncate(old(currentPath))
    {
      var n := |currentPath|;
      var i := n - 1;
      while i > 4 && !(currentPath[i] == SLASH && i < n - 2)
        invariant |old(currentPath)| == n && i < n && (n > 5 ==> 4 <= i)
        invariant currentPath == old(currentPath)[..if n <= 5 then n else i + 1]
        invariant n > 5 ==> Keep(old(currentPath), n - 1) == Keep(old(currentPath), i)
        decreases i
      {
        currentPath := currentPath[..i];
        i := i - 1;
      }
    }
  }

  // Before its final slash the text ends with this name, and the name starts the text or follows a slash.
  predicate EndsWithName(path: Text, name: Text) {
    && |name| + 1 <= |path| && path[|path| - 1 - |name|..|path| - 1] == name && SLASH !in name && |name| <= 7
    && (|path| > |name| + 1 ==> path[|path| - 2 - |name|] == SLASH)
  }

  lemma NameHasNoSlash(path: Text, name: Text, i: int)
    requires EndsWithName(path, name) && i <= |path| - 2
    ensures i >= |path| - 1 - |name| ==> path[i] != SLASH
  {
    var start := |path| - 1 - |name|;
    if i >= start {
      assert path[i] == path[start..|path| - 1][i - start] == name[i - start];
    }
  }

  lemma LastNameOfPath(v: Volume, g: Shape, d: nat)
    requires WellFormed(v, g) && d in g.dirs && SpelledOut(v, g, d)
    ensures d < |v.disk| && EndsWithName(PathOf(v, g, d), DirName(v, d))
  {
    assert DirOk(MetaOf(v), g, d);
    if d == ROOT_CLUSTER {
      RootEndsWithName();
    } else {
      PathEndsWithSlash(v, g, g.Parent(d));
      AppendedName(PathOf(v, g, g.Parent(d)), DirName(v, d));
    }
  }

  lemma RootEndsWithName()
    ensures ROOT_NAME == Pad(ROOT_TEXT) && CString(ROOT_NAME) == ROOT_TEXT
    ensures EndsWithName(ROOT_PATH, ROOT_TEXT)
  {
    assert ROOT_NAME == Pad(ROOT_TEXT);
    CStringOfPad(ROOT_TEXT);
    assert ROOT_PATH[0..4] == ROOT_TEXT;
  }

  lemma AppendedName(before: Text, name: Text)
    requires |before| > 0 && before[|before| - 1] == SLASH && Spellable(name)
    ensures EndsWithName(before + name + [SLASH], name)
  {
  }

  // After one successful component the shell's name buffer is the new directory's own name.
  lemma StepNames(v: Volume, g: Shape, dir: nat, path: Text, comp: Text)
    requires WellFormed(v, g) && NamesPadded(v, g) && Agrees(v, g, dir, path)
    requires comp != [] && 0 !in comp && dir < CLUSTER_MAP_SIZE && StepInto(v, dir, path, comp).At?
    ensures var t, c := v.Table(dir), StepInto(v, dir, path, comp).dir;
            var buffer := if comp == [DOT] then CString(t[0].name) else if IsParent(comp) then CString(t[1].name) else comp;
            c < CLUSTER_MAP_SIZE && |buffer| <= 8 && Pad(buffer) == v.Table(c)[0].name
  {
    var m, t := MetaOf(v), v.Table(dir);
    assert DirOk(m, g, dir);
    if comp == [DOT] {
      assert Padded(v.Table(dir)[0].name);
    } else if IsParent(comp) {
      assert DirOk(m, g, g.Parent(dir));
      assert Padded(v.Table(g.Parent(dir))[0].name);
    } else {
      ChildCalled(v, g, dir, FirstCalled(t, comp, 2), comp);
      var c := t[FirstCalled(t, comp, 2)].cluster;
      assert Padded(v.Table(c)[0].name);
    }
  }

  lemma AbsoluteIs(path: Text)
    ensures Absolute(path) <==> |path| >= 4 && path[..4] == ROOT_TEXT && (|path| == 4 || path[4] == SLASH)
  {
    if |path| >= 4 && path[..4] == ROOT_TEXT {
      if |path| == 4 {
        assert path == ROOT_TEXT;
      } else if path[4] == SLASH {
        assert path == ROOT_TEXT + [SLASH] + path[5..];
        HeadUpTo(ROOT_TEXT, path[5..]);
      }
    }
  }

  lemma RootStands(v: Volume, g: Shape)
    requires WellFormed(v, g) && NamesPadded(v, g)
    ensures Agrees(v, g, ROOT_CLUSTER, ROOT_PATH) && v.Table(ROOT_CLUSTER)[0].name == Pad(ROOT_TEXT)
  {
    assert DirOk(MetaOf(v), g, ROOT_CLUSTER);
    assert ROOT_NAME == Pad(ROOT_TEXT);
  }

  // One character of the main loop.
  lemma WalkOne(v: Volume, dir: nat, path: Text, buffer: Text, text: Text, i: nat)
    requires i < |text| && 0 !in text
    ensures text[i] != 0
    ensures text[i] == SLASH && buffer == [] ==> Walk(v, dir, path, buffer, From(text, i)) == Refused
    ensures text[i] == SLASH && buffer != [] ==>
              var o := StepInto(v, dir, path, buffer);
              Walk(v, dir, path, buffer, From(text, i)) == if o.At? then Walk(v, o.dir, o.path, [], From(text, i + 1)) else o
    ensures text[i] != SLASH && |buffer| >= 8 ==> Walk(v, dir, path, buffer, From(text, i)) == Refused
    ensures text[i] != SLASH && |buffer| < 8 ==>
              Walk(v, dir, path, buffer, From(text, i)) == Walk(v, dir, path, buffer + [text[i]], From(text, i + 1))
  {
    assert From(text, i)[1..] == From(text, i + 1) && text[i] in text;
  }
}
