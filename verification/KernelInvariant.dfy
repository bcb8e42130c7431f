/**
 Who owns each page frame and each page directory, and the accounting that goes with it: kept by
 creating and destroying processes, and untouched by scheduling.
 */
module KernelInvariant {
  import opened Counting
  import opened KernelState

  datatype FrameOwner = Unowned | KernelOwned | PageOf(process: nat, page: nat)

  // A Leaked directory is marked used but belongs to no process: a failed exec left it behind.
  datatype DirectoryOwner = Spare | Leaked | DirectoryOf(process: nat)

  datatype Owners = Owners(frames: seq<FrameOwner>, directories: seq<DirectoryOwner>, leaks: nat)

  // ---- The frames mapped by one directory ----

  ghost predicate FrameMarked(used: seq<bool>, frames: seq<FrameOwner>, f: nat)
    requires |used| == |frames| == FRAMES
  {
    f < FRAMES ==> (used[f] <==> frames[f] != Unowned)
  }

  ghost predicate PageMapped(t: PageDirectory, frames: seq<FrameOwner>, p: nat, i: nat)
    requires |frames| == FRAMES && i < PAGE_ENTRIES
  {
    t[i].frame < FRAMES && t[i] == UserPde(t[i].frame) && frames[t[i].frame] == PageOf(p, i)
  }

  ghost predicate FrameOnPage(t: PageDirectory, frames: seq<FrameOwner>, p: nat, n: nat, f: nat)
    requires |frames| == FRAMES && n <= MAX_PAGES
  {
    f < FRAMES && frames[f].PageOf? && frames[f].process == p ==>
      frames[f].page < n && t[frames[f].page] == UserPde(f)
  }

  // Table t maps pages 0 to n - 1 of process p, to frames of its own, and nothing else is p's.
  ghost predicate Mapped(used: seq<bool>, frames: seq<FrameOwner>, t: PageDirectory, p: nat, n: nat)
    requires |used| == |frames| == FRAMES && n <= MAX_PAGES
  {
    && (forall f: nat {:trigger FrameMarked(used, frames, f)} :: FrameMarked(used, frames, f))
    && (forall i: nat {:trigger PageMapped(t, frames, p, i)} :: i < n ==> PageMapped(t, frames, p, i))
    && (forall f: nat {:trigger FrameOnPage(t, frames, p, n, f)} :: FrameOnPage(t, frames, p, n, f))
  }

  ghost predicate Counted(k: Kernel)
    requires k.Shaped()
  {
    k.freeCount == FRAMES - Count(k.frameUsed)
  }

  // The owners after AllocatePages: each page's frame was the first free one when its turn came.
  function AllocateOwners(k: Kernel, d: nat, n: nat, p: nat, frames: seq<FrameOwner>): (r: seq<FrameOwner>)
    requires k.Shaped() && d <= KERNEL_DIRECTORY && |frames| == FRAMES
    ensures |r| == FRAMES
  {
    if n == 0 then frames
    else
      var f := FirstFalse(AllocatePages(k, d, n - 1).frameUsed, 0);
      var before := AllocateOwners(k, d, n - 1, p, frames);
      if f < FRAMES then before[f := PageOf(p, n - 1)] else before
  }

  lemma IndexOfPage(i: nat)
    requires i < PAGE_ENTRIES
    ensures PageIndex(i * PAGE_FRAME_SIZE) == i
  {
  }

  // One page allocated.
  lemma AllocateFrameMaps(k: Kernel, d: nat, n: nat, p: nat, frames: seq<FrameOwner>)
    requires k.Shaped() && Counted(k) && d <= KERNEL_DIRECTORY && |frames| == FRAMES && n < MAX_PAGES
    requires k.freeCount > 0 && Mapped(k.frameUsed, frames, k.directories[d], p, n)
    ensures var k', f := AllocateFrame(k, d, n * PAGE_FRAME_SIZE), FirstFalse(k.frameUsed, 0);
            && f < FRAMES && frames[f] == Unowned
            && Counted(k') && k'.freeCount == k.freeCount - 1
            && k'.directories == k.directories[d := k.directories[d][n := UserPde(f)]]
            && Mapped(k'.frameUsed, frames[f := PageOf(p, n)], k'.directories[d], p, n + 1)
  {
    var k', f := AllocateFrame(k, d, n * PAGE_FRAME_SIZE), FirstFalse(k.frameUsed, 0);
    FirstFalseFound(k.frameUsed);
    CountUpdate(k.frameUsed, f, true);
    IndexOfPage(n);
    assert FrameMarked(k.frameUsed, frames, f);
    var t, t', frames' := k.directories[d], k'.directories[d], frames[f := PageOf(p, n)];
    assert k'.frameUsed == k.frameUsed[f := true] && t' == t[n := UserPde(f)];
    forall g: nat ensures FrameMarked(k'.frameUsed, frames', g) {
      assert FrameMarked(k.frameUsed, frames, g);
    }
    forall i: nat | i < n + 1 ensures PageMapped(t', frames', p, i) {
      if i < n {
        assert PageMapped(t, frames, p, i);
      }
    }
    var n' := n + 1;
    forall g: nat ensures FrameOnPage(t', frames', p, n', g) {
      assert FrameOnPage(t, frames, p, n, g);
    }
  }

  // n pages allocated: n free frames are used up and directory d maps them.
  lemma {:induction false} AllocatePagesMaps(k: Kernel, d: nat, n: nat, p: nat, frames: seq<FrameOwner>)
    requires k.Shaped() && Counted(k) && d <= KERNEL_DIRECTORY && |frames| == FRAMES && n <= MAX_PAGES
    requires k.freeCount >= n && Mapped(k.frameUsed, frames, k.directories[d], p, 0)
    ensures Counted(AllocatePages(k, d, n)) && AllocatePages(k, d, n).freeCount == k.freeCount - n
    ensures Mapped(AllocatePages(k, d, n).frameUsed, AllocateOwners(k, d, n, p, frames),
                   AllocatePages(k, d, n).directories[d], p, n)
  {
    if n > 0 {
      AllocatePagesMaps(k, d, n - 1, p, frames);
      AllocateFrameMaps(AllocatePages(k, d, n - 1), d, n - 1, p, AllocateOwners(k, d, n - 1, p, frames));
    }
  }

  // Only entries 0 to n - 1 of directory d change.
  lemma {:induction false} AllocatePagesElsewhere(k: Kernel, d: nat, n: nat)
    requires k.Shaped() && d <= KERNEL_DIRECTORY && n <= MAX_PAGES
    ensures forall x: nat :: x <= KERNEL_DIRECTORY && x != d ==> AllocatePages(k, d, n).directories[x] == k.directories[x]
    ensures forall i: nat :: n <= i < PAGE_ENTRIES ==> AllocatePages(k, d, n).directories[d][i] == k.directories[d][i]
  {
    if n > 0 {
      AllocatePagesElsewhere(k, d, n - 1);
      IndexOfPage(n - 1);
    }
  }

  // Only frames that nobody owned change hands.
  lemma {:induction false} AllocatePagesFrame(k: Kernel, d: nat, n: nat, p: nat, frames: seq<FrameOwner>)
    requires k.Shaped() && Counted(k) && d <= KERNEL_DIRECTORY && |frames| == FRAMES && n <= MAX_PAGES
    requires k.freeCount >= n && Mapped(k.frameUsed, frames, k.directories[d], p, 0)
    ensures var r := AllocateOwners(k, d, n, p, frames);
            forall f: nat :: f < FRAMES ==> r[f] == frames[f] || (frames[f] == Unowned && r[f].PageOf? && r[f].process == p)
  {
    if n > 0 {
      AllocatePagesFrame(k, d, n - 1, p, frames);
      AllocatePagesMaps(k, d, n - 1, p, frames);
      AllocateFrameMaps(AllocatePages(k, d, n - 1), d, n - 1, p, AllocateOwners(k, d, n - 1, p, frames));
    }
  }

  // ---- Freeing ----

  // The owners after process p's pages below n are freed.
  function FreeOwners(frames: seq<FrameOwner>, p: nat, n: nat): (r: seq<FrameOwner>)
    requires |frames| == FRAMES
    ensures |r| == FRAMES
    ensures forall f: nat :: f < FRAMES ==>
              r[f] == if frames[f].PageOf? && frames[f].process == p && frames[f].page < n then Unowned else frames[f]
  {
    seq(FRAMES, f requires 0 <= f < FRAMES =>
      if frames[f].PageOf? && frames[f].process == p && frames[f].page < n then Unowned else frames[f])
  }

  // The table of a directory whose pages below n have been unmapped.
  function Unmapped(t: PageDirectory, n: nat): (t': PageDirectory)
    ensures forall i: nat :: i < PAGE_ENTRIES ==> t'[i] == if i < n then NO_PDE else t[i]
  {
    seq(PAGE_ENTRIES, i requires 0 <= i < PAGE_ENTRIES => if i < n then NO_PDE else t[i])
  }

  ghost predicate AllMarked(used: seq<bool>, frames: seq<FrameOwner>)
    requires |used| == |frames| == FRAMES
  {
    forall f: nat {:trigger FrameMarked(used, frames, f)} :: FrameMarked(used, frames, f)
  }

  // One page freed.
  lemma FreeFrameUnmaps(k: Kernel, d: nat, n: nat, m: nat, p: nat, frames: seq<FrameOwner>, t: PageDirectory)
    requires k.Shaped() && Counted(k) && d <= KERNEL_DIRECTORY && |frames| == FRAMES && n < m <= MAX_PAGES
    requires FramesInRange(k, d) && k.directories[d] == Unmapped(t, n)
    requires AllMarked(k.frameUsed, FreeOwners(frames, p, n))
    requires PageMapped(t, frames, p, n)
    requires forall f: nat {:trigger FrameOnPage(t, frames, p, m, f)} :: FrameOnPage(t, frames, p, m, f)
    ensures k.directories[d][PageIndex(n * PAGE_FRAME_SIZE)].frame < FRAMES
    ensures var k' := FreeFrame(k, d, n * PAGE_FRAME_SIZE);
            && Counted(k') && k'.freeCount == k.freeCount + 1
            && k'.directories == k.directories[d := Unmapped(t, n + 1)]
            && AllMarked(k'.frameUsed, FreeOwners(frames, p, n + 1))
  {
    IndexOfPage(n);
    var f := t[n].frame;
    var before, after := FreeOwners(frames, p, n), FreeOwners(frames, p, n + 1);
    assert before[f] == PageOf(p, n) && FrameMarked(k.frameUsed, before, f);
    var k' := FreeFrame(k, d, n * PAGE_FRAME_SIZE);
    CountUpdate(k.frameUsed, f, false);
    assert Unmapped(t, n)[n := NO_PDE] == Unmapped(t, n + 1);
    forall g: nat ensures FrameMarked(k'.frameUsed, after, g) {
      assert FrameMarked(k.frameUsed, before, g) && FrameOnPage(t, frames, p, m, g);
    }
  }

  lemma NothingFreed(t: PageDirectory, frames: seq<FrameOwner>, p: nat)
    requires |frames| == FRAMES
    ensures Unmapped(t, 0) == t && FreeOwners(frames, p, 0) == frames
  {
  }

  // n of p's m pages freed: their frames are free again and the directory no longer maps them.
  lemma {:induction false} FreePagesUnmaps(k: Kernel, d: nat, pages: seq<nat>, n: nat, m: nat, p: nat, frames: seq<FrameOwner>)
    requires k.Shaped() && Counted(k) && d <= KERNEL_DIRECTORY && |frames| == FRAMES && n <= m <= MAX_PAGES
    requires FramesInRange(k, d) && m <= |pages| && (forall i :: 0 <= i < m ==> pages[i] == i * PAGE_FRAME_SIZE)
    requires Mapped(k.frameUsed, frames, k.directories[d], p, m)
    ensures var k' := FreePages(k, d, pages, n);
            && Counted(k') && k'.freeCount == k.freeCount + n
            && k'.directories == k.directories[d := Unmapped(k.directories[d], n)]
            && AllMarked(k'.frameUsed, FreeOwners(frames, p, n))
  {
    var t := k.directories[d];
    if n == 0 {
      NothingFreed(t, frames, p);
    } else {
      FreePagesUnmaps(k, d, pages, n - 1, m, p, frames);
      assert PageMapped(t, frames, p, n - 1);
      FreeFrameUnmaps(FreePages(k, d, pages, n - 1), d, n - 1, m, p, frames, t);
    }
  }

  // ---- The invariant ----

  ghost predicate ProcessOk(k: Kernel, o: Owners, p: nat)
    requires k.Shaped() && |o.frames| == FRAMES && |o.directories| == DIRECTORIES
  {
    p < PROCESSES ==>
      if k.Live(p) then
        var b := k.processes[p];
        && b.pid == p && (b.state == Ready || b.state == Running)
        && b.directory < DIRECTORIES && o.directories[b.directory] == DirectoryOf(p)
        && b.pageCount <= MAX_PAGES
        && (forall i: nat :: i < b.pageCount ==> b.pages[i] == i * PAGE_FRAME_SIZE)
        && Mapped(k.frameUsed, o.frames, k.directories[b.directory], p, b.pageCount)
        && (forall i: nat :: b.pageCount <= i < PAGE_ENTRIES ==>
              k.directories[b.directory][i] == FreshDirectory()[i])
      else
        Mapped(k.frameUsed, o.frames, FreshDirectory(), p, 0)
  }

  ghost predicate DirectoryOk(k: Kernel, o: Owners, d: nat)
    requires k.Shaped() && |o.directories| == DIRECTORIES
  {
    && (d < DIRECTORIES ==>
          && (k.directoryUsed[d] <==> o.directories[d] != Spare)
          && (o.directories[d].DirectoryOf? ==>
                k.Live(o.directories[d].process) && k.processes[o.directories[d].process].directory == d)
          && (o.directories[d] == Leaked ==> k.directories[d] == FreshDirectory()))
    && (d <= KERNEL_DIRECTORY ==> FramesInRange(k, d))
  }

  function PagesHeld(s: seq<Pcb>): (h: seq<nat>)
    ensures |h| == |s|
    ensures forall p :: 0 <= p < |s| ==> h[p] == if s[p].state != Inactive then s[p].pageCount else 0
  {
    seq(|s|, p requires 0 <= p < |s| => if s[p].state != Inactive then s[p].pageCount else 0)
  }

  // The counters say what the tables say, and every frame is frame 0, free, or held by a live process.
  ghost predicate Accounted(k: Kernel, o: Owners)
    requires k.Shaped()
  {
    && Counted(k)
    && k.active == Count(Flags(k.processes))
    && Count(k.directoryUsed) == k.active + o.leaks
    && Sum(PagesHeld(k.processes)) + k.freeCount + 1 == FRAMES
  }

  ghost predicate Resources(k: Kernel, o: Owners) {
    && k.Shaped() && |o.frames| == FRAMES && |o.directories| == DIRECTORIES
    && o.frames[0] == KernelOwned && AllMarked(k.frameUsed, o.frames)
    && (forall f: nat :: 1 <= f < FRAMES ==> o.frames[f] != KernelOwned)
    && (forall f: nat :: f < FRAMES && o.frames[f].PageOf? ==> o.frames[f].process < PROCESSES)
    && Accounted(k, o)
    && (forall p: nat {:trigger ProcessOk(k, o, p)} :: ProcessOk(k, o, p))
    && (forall d: nat {:trigger DirectoryOk(k, o, d)} :: DirectoryOk(k, o, d))
  }

  // ---- Changing one process leaves the others' mappings alone ----

  lemma MappedByOther(used: seq<bool>, used': seq<bool>, frames: seq<FrameOwner>, frames': seq<FrameOwner>,
                      t: PageDirectory, p: nat, q: nat, n: nat)
    requires |used| == |used'| == |frames| == |frames'| == FRAMES && n <= MAX_PAGES && p != q
    requires Mapped(used, frames, t, q, n) && AllMarked(used', frames')
    requires forall f: nat :: f < FRAMES && frames'[f] != frames[f] ==>
               (frames[f] == Unowned || (frames[f].PageOf? && frames[f].process == p))
               && (frames'[f] == Unowned || (frames'[f].PageOf? && frames'[f].process == p))
    ensures Mapped(used', frames', t, q, n)
  {
    forall i: nat | i < n ensures PageMapped(t, frames', q, i) {
      assert PageMapped(t, frames, q, i);
    }
    forall f: nat ensures FrameOnPage(t, frames', q, n, f) {
      assert FrameOnPage(t, frames, q, n, f);
    }
  }

  // ---- exec ----

  // What the admitted request works with.
  lemma ExecPicks(k: Kernel, o: Owners, r: ExecRequest)
    requires Resources(k, o) && ExecDefined(k, r) && AdmitCode(k, r) == 0
    ensures var d, p, n := FreeDirectoryIndex(k), InactiveIndex(k), PagesNeeded(r.bufferSize);
            && d < DIRECTORIES && o.directories[d] == Spare
            && p < PROCESSES && !k.Live(p) && n <= MAX_PAGES && n <= k.freeCount
            && Counted(UseDirectory(k, d)) && Mapped(k.frameUsed, o.frames, FreshDirectory(), p, 0)
  {
    var d, p := FreeDirectoryIndex(k), InactiveIndex(k);
    assert DirectoryOk(k, o, d) && ProcessOk(k, o, p);
  }

  // A directory can be found exactly while live processes and leaked directories leave one.
  lemma ExecDefinedIff(k: Kernel, o: Owners, r: ExecRequest)
    requires Resources(k, o)
    ensures ExecDefined(k, r) <==> (AdmitCode(k, r) != 0 || k.active + o.leaks < DIRECTORIES)
  {
    FirstFalseFound(k.directoryUsed);
    FirstFalseFound(Flags(k.processes));
  }

  function ExecOwners(k: Kernel, o: Owners, r: ExecRequest, readCode: int): Owners
    requires ExecDefined(k, r) && |o.frames| == FRAMES && |o.directories| == DIRECTORIES
  {
    if AdmitCode(k, r) != 0 then o
    else
      var d, p, n := FreeDirectoryIndex(k), InactiveIndex(k), PagesNeeded(r.bufferSize);
      if readCode != 0 then Owners(o.frames, o.directories[d := Leaked], o.leaks + 1)
      else Owners(AllocateOwners(UseDirectory(k, d), d, n, p, o.frames), o.directories[d := DirectoryOf(p)], o.leaks)
  }

  // The state in which the file is read: the new directory maps n fresh pages, all else is as before.
  lemma PreparedMaps(k: Kernel, o: Owners, r: ExecRequest)
    requires Resources(k, o) && ExecDefined(k, r) && AdmitCode(k, r) == 0
    ensures var d, p, n, k1 := FreeDirectoryIndex(k), InactiveIndex(k), PagesNeeded(r.bufferSize), Prepared(k, r);
            var frames := AllocateOwners(UseDirectory(k, d), d, n, p, o.frames);
            && Counted(k1) && k1.freeCount == k.freeCount - n
            && Mapped(k1.frameUsed, frames, k1.directories[d], p, n)
            && (forall i: nat :: n <= i < PAGE_ENTRIES ==> k1.directories[d][i] == FreshDirectory()[i])
            && (forall x: nat :: x <= KERNEL_DIRECTORY && x != d ==> k1.directories[x] == k.directories[x])
            && (forall f: nat :: f < FRAMES ==>
                  frames[f] == o.frames[f] || (o.frames[f] == Unowned && frames[f].PageOf? && frames[f].process == p))
  {
    var d, p, n := FreeDirectoryIndex(k), InactiveIndex(k), PagesNeeded(r.bufferSize);
    ExecPicks(k, o, r);
    AllocatePagesMaps(UseDirectory(k, d), d, n, p, o.frames);
    AllocatePagesFrame(UseDirectory(k, d), d, n, p, o.frames);
    AllocatePagesElsewhere(UseDirectory(k, d), d, n);
  }

  lemma PreparedInRange(k: Kernel, o: Owners, r: ExecRequest)
    requires Resources(k, o) && ExecDefined(k, r) && AdmitCode(k, r) == 0
    ensures FramesInRange(Prepared(k, r), FreeDirectoryIndex(k))
  {
    var d, p, n, k1 := FreeDirectoryIndex(k), InactiveIndex(k), PagesNeeded(r.bufferSize), Prepared(k, r);
    ExecPicks(k, o, r);
    PreparedMaps(k, o, r);
    var frames := AllocateOwners(UseDirectory(k, d), d, n, p, o.frames);
    forall i: nat | i < PAGE_ENTRIES ensures k1.directories[d][i].frame < FRAMES {
      if i < n {
        assert PageMapped(k1.directories[d], frames, p, i);
      }
    }
  }

  // A failed read gives back every frame and leaves a directory marked used, with only the kernel's
  // entry: the page directory is leaked and nothing else.
  lemma FailedExecRestores(k: Kernel, o: Owners, r: ExecRequest, readCode: int)
    requires Resources(k, o) && ExecDefined(k, r) && AdmitCode(k, r) == 0 && readCode != 0
    ensures FramesInRange(Prepared(k, r), FreeDirectoryIndex(k))
    ensures var d, p, k' := FreeDirectoryIndex(k), InactiveIndex(k), Exec(k, r, readCode);
            && k'.frameUsed == k.frameUsed && k'.freeCount == k.freeCount && k'.active == k.active
            && k'.current == k.current && k'.cr3 == k.cr3
            && k'.directoryUsed == k.directoryUsed[d := true]
            && k'.directories == k.directories[d := FreshDirectory()]
            && k'.processes == k.processes[p := k'.processes[p]] && k'.processes[p].state == Inactive
  {
    PreparedInRange(k, o, r);
    PreparedMaps(k, o, r);
    ExecPicks(k, o, r);
    var d, p, n, k1 := FreeDirectoryIndex(k), InactiveIndex(k), PagesNeeded(r.bufferSize), Prepared(k, r);
    var frames := AllocateOwners(UseDirectory(k, d), d, n, p, o.frames);
    FreePagesUnmaps(k1, d, k1.processes[p].pages, n, n, p, frames);
    assert Unmapped(k1.directories[d], n) == FreshDirectory();
    assert FreeOwners(frames, p, n) == o.frames by {
      forall f: nat | f < FRAMES ensures FreeOwners(frames, p, n)[f] == o.frames[f] {
        assert FrameOnPage(k1.directories[d], frames, p, n, f);
        assert FrameOnPage(FreshDirectory(), o.frames, p, 0, f);
      }
    }
    SameMarks(k.frameUsed, Exec(k, r, readCode).frameUsed, o.frames);
  }

  lemma SameMarks(used: seq<bool>, used': seq<bool>, frames: seq<FrameOwner>)
    requires |used| == |used'| == |frames| == FRAMES && AllMarked(used, frames) && AllMarked(used', frames)
    ensures used' == used
  {
    forall f: nat | f < FRAMES ensures used'[f] == used[f] {
      assert FrameMarked(used, frames, f) && FrameMarked(used', frames, f);
    }
  }

  lemma FailedExecKeeps(k: Kernel, o: Owners, r: ExecRequest, readCode: int)
    requires Resources(k, o) && ExecDefined(k, r) && AdmitCode(k, r) == 0 && readCode != 0
    ensures FramesInRange(Prepared(k, r), FreeDirectoryIndex(k))
    ensures Resources(Exec(k, r, readCode), ExecOwners(k, o, r, readCode))
  {
    FailedExecRestores(k, o, r, readCode);
    ExecPicks(k, o, r);
    var d, p, k', o' := FreeDirectoryIndex(k), InactiveIndex(k), Exec(k, r, readCode), ExecOwners(k, o, r, readCode);
    assert Flags(k'.processes) == Flags(k.processes) && PagesHeld(k'.processes) == PagesHeld(k.processes);
    CountUpdate(k.directoryUsed, d, true);
    assert DirectoryOk(k, o, d);
    forall q: nat ensures ProcessOk(k', o', q) {
      assert ProcessOk(k, o, q);
    }
    forall x: nat ensures DirectoryOk(k', o', x) {
      assert DirectoryOk(k, o, x);
    }
  }

  lemma ExecKeepsProcess(k: Kernel, o: Owners, r: ExecRequest, q: nat)
    requires Resources(k, o) && ExecDefined(k, r) && AdmitCode(k, r) == 0
    requires FramesInRange(Prepared(k, r), FreeDirectoryIndex(k))
    ensures ProcessOk(Exec(k, r, 0), ExecOwners(k, o, r, 0), q)
  {
    var d, p, n, k1 := FreeDirectoryIndex(k), InactiveIndex(k), PagesNeeded(r.bufferSize), Prepared(k, r);
    ExecPicks(k, o, r);
    PreparedMaps(k, o, r);
    assert ProcessOk(k, o, q);
    if q < PROCESSES && q != p {
      var frames := AllocateOwners(UseDirectory(k, d), d, n, p, o.frames);
      if k.Live(q) {
        MappedByOther(k.frameUsed, k1.frameUsed, o.frames, frames, k.directories[k.processes[q].directory],
                      p, q, k.processes[q].pageCount);
      } else {
        MappedByOther(k.frameUsed, k1.frameUsed, o.frames, frames, FreshDirectory(), p, q, 0);
      }
    }
  }

  lemma SuccessfulExecKeeps(k: Kernel, o: Owners, r: ExecRequest)
    requires Resources(k, o) && ExecDefined(k, r) && AdmitCode(k, r) == 0
    ensures FramesInRange(Prepared(k, r), FreeDirectoryIndex(k))
    ensures Resources(Exec(k, r, 0), ExecOwners(k, o, r, 0))
  {
    PreparedInRange(k, o, r);
    PreparedMaps(k, o, r);
    ExecPicks(k, o, r);
    var d, p, n, k', o' := FreeDirectoryIndex(k), InactiveIndex(k), PagesNeeded(r.bufferSize), Exec(k, r, 0), ExecOwners(k, o, r, 0);
    assert Flags(k'.processes) == Flags(k.processes)[p := true];
    CountUpdate(Flags(k.processes), p, true);
    assert PagesHeld(k'.processes) == PagesHeld(k.processes)[p := n];
    SumUpdate(PagesHeld(k.processes), p, n);
    CountUpdate(k.directoryUsed, d, true);
    assert DirectoryOk(k, o, d);
    forall q: nat ensures ProcessOk(k', o', q) {
      ExecKeepsProcess(k, o, r, q);
    }
    forall x: nat ensures DirectoryOk(k', o', x) {
      assert DirectoryOk(k, o, x);
    }
  }

  // ---- destroy ----

  function DestroyOwners(k: Kernel, o: Owners, pid: nat): Owners
    requires k.Shaped() && pid < PROCESSES && |o.frames| == FRAMES && |o.directories| == DIRECTORIES
  {
    if !k.Live(pid) || k.processes[pid].directory >= DIRECTORIES then o
    else
      Owners(FreeOwners(o.frames, pid, k.processes[pid].pageCount),
             o.directories[k.processes[pid].directory := Spare], o.leaks)
  }

  // In a state with the invariant the accesses are in bounds and the rollback branch is never taken.
  lemma DestroyIsDefined(k: Kernel, o: Owners, pid: nat)
    requires Resources(k, o) && pid < PROCESSES
    ensures DestroyDefined(k, pid)
    ensures DestroyOk(k, pid) <==> k.Live(pid)
  {
    assert ProcessOk(k, o, pid);
    if k.Live(pid) {
      assert DirectoryOk(k, o, k.processes[pid].directory);
    }
  }

  // The frames and the directory of the process are released, and nothing else.
  lemma DestroyReleases(k: Kernel, o: Owners, pid: nat)
    requires Resources(k, o) && pid < PROCESSES && k.Live(pid) && DestroyDefined(k, pid)
    ensures var b, k' := k.processes[pid], Destroy(k, pid);
            && b.directory < DIRECTORIES
            && Counted(k') && k'.freeCount == k.freeCount + b.pageCount
            && AllMarked(k'.frameUsed, FreeOwners(o.frames, pid, b.pageCount))
            && k'.directoryUsed == k.directoryUsed[b.directory := false]
            && k'.directories == k.directories[b.directory := ClearDirectory()]
            && k'.processes == k.processes[pid := b.(state := Inactive)]
            && k'.active == k.active - 1 && k'.current == k.current && k'.cr3 == k.cr3
  {
    assert ProcessOk(k, o, pid);
    var b := k.processes[pid];
    FreePagesUnmaps(k, b.directory, b.pages, b.pageCount, b.pageCount, pid, o.frames);
  }

  lemma DestroyKeepsProcess(k: Kernel, o: Owners, pid: nat, q: nat)
    requires Resources(k, o) && pid < PROCESSES && k.Live(pid) && DestroyDefined(k, pid)
    ensures ProcessOk(Destroy(k, pid), DestroyOwners(k, o, pid), q)
  {
    DestroyReleases(k, o, pid);
    assert ProcessOk(k, o, pid) && ProcessOk(k, o, q);
    var b, k', o' := k.processes[pid], Destroy(k, pid), DestroyOwners(k, o, pid);
    if q < PROCESSES {
      if q == pid {
        forall f: nat ensures FrameOnPage(FreshDirectory(), o'.frames, q, 0, f) {
          assert FrameOnPage(k.directories[b.directory], o.frames, pid, b.pageCount, f);
        }
      } else if k.Live(q) {
        MappedByOther(k.frameUsed, k'.frameUsed, o.frames, o'.frames, k.directories[k.processes[q].directory],
                      pid, q, k.processes[q].pageCount);
      } else {
        MappedByOther(k.frameUsed, k'.frameUsed, o.frames, o'.frames, FreshDirectory(), pid, q, 0);
      }
    }
  }

  lemma DestroyKeeps(k: Kernel, o: Owners, pid: nat)
    requires Resources(k, o) && pid < PROCESSES && DestroyDefined(k, pid)
    ensures Resources(Destroy(k, pid), DestroyOwners(k, o, pid))
  {
    if k.Live(pid) {
      DestroyReleases(k, o, pid);
      assert ProcessOk(k, o, pid);
      var b, k', o' := k.processes[pid], Destroy(k, pid), DestroyOwners(k, o, pid);
      assert DirectoryOk(k, o, b.directory);
      assert Flags(k'.processes) == Flags(k.processes)[pid := false];
      CountUpdate(Flags(k.processes), pid, false);
      assert PagesHeld(k'.processes) == PagesHeld(k.processes)[pid := 0];
      SumUpdate(PagesHeld(k.processes), pid, 0);
      CountUpdate(k.directoryUsed, b.directory, false);
      forall q: nat ensures ProcessOk(k', o', q) {
        DestroyKeepsProcess(k, o, pid, q);
      }
      forall x: nat ensures DirectoryOk(k', o', x) {
        assert DirectoryOk(k, o, x);
      }
    }
  }

  // Creating a process and destroying it gives back the frame map, the counters and the directories
  // in use exactly.
  lemma ExecThenDestroyRestores(k: Kernel, o: Owners, r: ExecRequest)
    requires Resources(k, o) && ExecDefined(k, r) && AdmitCode(k, r) == 0
    ensures FramesInRange(Prepared(k, r), FreeDirectoryIndex(k))
    ensures var p, k1 := InactiveIndex(k), Exec(k, r, 0);
            && p < PROCESSES && k1.Live(p) && DestroyDefined(k1, p)
            && Destroy(k1, p).frameUsed == k.frameUsed && Destroy(k1, p).freeCount == k.freeCount
            && Destroy(k1, p).directoryUsed == k.directoryUsed && Destroy(k1, p).active == k.active
  {
    SuccessfulExecKeeps(k, o, r);
    ExecPicks(k, o, r);
    PreparedMaps(k, o, r);
    var d, p, n, k1, o1 := FreeDirectoryIndex(k), InactiveIndex(k), PagesNeeded(r.bufferSize), Exec(k, r, 0), ExecOwners(k, o, r, 0);
    DestroyIsDefined(k1, o1, p);
    DestroyReleases(k1, o1, p);
    assert FreeOwners(o1.frames, p, n) == o.frames by {
      forall f: nat | f < FRAMES ensures FreeOwners(o1.frames, p, n)[f] == o.frames[f] {
        assert FrameOnPage(k1.directories[d], o1.frames, p, n, f);
        assert FrameOnPage(FreshDirectory(), o.frames, p, 0, f);
      }
    }
    SameMarks(k.frameUsed, Destroy(k1, p).frameUsed, o.frames);
    assert DirectoryOk(k, o, d);
  }
}
