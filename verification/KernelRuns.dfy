/**
 Runs of the kernel: boot, then any sequence of timer ticks, execs, exits and kills, each atomic.
 Isolation and accounting hold throughout, and a Ready process is chosen within 16 switches, with the
 registers and memory it was preempted with.
 */
module KernelRuns {
  import opened Registers
  import opened KernelState
  import opened KernelInvariant

  // One process runs: the current one, in its own address space.
  predicate OneRunning(k: Kernel)
    requires k.Shaped()
  {
    && 0 <= k.current < PROCESSES
    && (forall p: nat :: p < PROCESSES ==> (k.processes[p].state == Running <==> p == k.current))
    && k.cr3 == k.processes[k.current].directory
  }

  ghost predicate Inv(k: Kernel, o: Owners) {
    Resources(k, o) && OneRunning(k)
  }

  // ---- Isolation ----

  // Live process p's page i is mapped, for user access, to frame f.
  predicate MapsUser(k: Kernel, p: nat, i: nat, f: nat)
    requires k.Shaped()
  {
    && k.Live(p) && k.processes[p].directory <= KERNEL_DIRECTORY && i < PAGE_ENTRIES
    && var e := k.directories[k.processes[p].directory][i];
    e.present && e.user && e.frame == f
  }

  lemma NoPages(used: seq<bool>, frames: seq<FrameOwner>, p: nat, f: nat)
    requires |used| == |frames| == FRAMES && Mapped(used, frames, FreshDirectory(), p, 0) && f < FRAMES
    ensures !(frames[f].PageOf? && frames[f].process == p)
  {
    assert FrameOnPage(FreshDirectory(), frames, p, 0, f);
  }

  lemma MappedIsOwned(k: Kernel, o: Owners, p: nat, i: nat, f: nat)
    requires Resources(k, o) && MapsUser(k, p, i, f)
    ensures 1 <= f < FRAMES && k.frameUsed[f] && o.frames[f] == PageOf(p, i) && i < k.processes[p].pageCount
  {
    assert ProcessOk(k, o, p);
    var t := k.directories[k.processes[p].directory];
    if i < k.processes[p].pageCount {
      assert PageMapped(t, o.frames, p, i);
      assert FrameMarked(k.frameUsed, o.frames, f);
    }
  }

  // Page i of live process p can be read and written from user mode, as one 4 MiB page on a frame of the map.
  predicate UserPage(k: Kernel, p: nat, i: nat)
    requires k.Shaped()
  {
    && k.Live(p) && k.processes[p].directory <= KERNEL_DIRECTORY && i < PAGE_ENTRIES
    && var e := k.directories[k.processes[p].directory][i];
    e.present && e.writable && e.user && e.large && 1 <= e.frame < 32
  }

  // Nothing is mapped at index i of live process p's directory.
  predicate NoPage(k: Kernel, p: nat, i: nat)
    requires k.Shaped()
  {
    && k.Live(p) && k.processes[p].directory <= KERNEL_DIRECTORY && i < PAGE_ENTRIES
    && !k.directories[k.processes[p].directory][i].present
  }

  // Directory d maps the kernel at 0xC0000000, on frame 0, for the supervisor only.
  predicate KernelPage(k: Kernel, d: nat)
    requires k.Shaped()
  {
    && d <= KERNEL_DIRECTORY
    && var e := k.directories[d][0x300];
    e.present && e.writable && !e.user && e.large && e.frame == 0
  }

  // Every used frame but frame 0 is mapped by exactly one page of exactly one live process; what is
  // mapped is used and never frame 0; the recorded pages of a live process are exactly its user pages, and
  // but for the kernel's nothing else is mapped; live processes have different directories; and every
  // directory in use maps the kernel.
  ghost predicate Isolated(k: Kernel)
    requires k.Shaped()
  {
    && (forall f: nat :: 1 <= f < FRAMES && k.frameUsed[f] ==> exists p: nat, i: nat :: MapsUser(k, p, i, f))
    && (forall p: nat, i: nat, q: nat, j: nat, f: nat :: MapsUser(k, p, i, f) && MapsUser(k, q, j, f) ==> p == q && i == j)
    && (forall p: nat, i: nat, f: nat :: MapsUser(k, p, i, f) ==> 1 <= f < FRAMES && k.frameUsed[f])
    && (forall p: nat, i: nat :: k.Live(p) && i < k.processes[p].pageCount ==> UserPage(k, p, i))
    && (forall p: nat, i: nat :: k.Live(p) && k.processes[p].pageCount <= i < PAGE_ENTRIES && i != 0x300 ==> NoPage(k, p, i))
    && (forall p: nat, q: nat :: k.Live(p) && k.Live(q) && p != q ==>
          k.processes[p].directory != k.processes[q].directory)
    && (forall d: nat :: d < DIRECTORIES && k.directoryUsed[d] ==> KernelPage(k, d))
  }

  lemma PagesAreUser(k: Kernel, o: Owners, p: nat, i: nat)
    requires Resources(k, o) && k.Live(p) && i < PAGE_ENTRIES
    ensures i < k.processes[p].pageCount ==> UserPage(k, p, i)
    ensures k.processes[p].pageCount <= i && i != 0x300 ==> NoPage(k, p, i)
  {
    assert ProcessOk(k, o, p);
    if i < k.processes[p].pageCount {
      assert PageMapped(k.directories[k.processes[p].directory], o.frames, p, i);
    }
  }

  lemma Isolation(k: Kernel, o: Owners)
    requires Resources(k, o)
    ensures Isolated(k)
  {
    forall f: nat | 1 <= f < FRAMES && k.frameUsed[f] ensures exists p: nat, i: nat :: MapsUser(k, p, i, f) {
      assert FrameMarked(k.frameUsed, o.frames, f);
      var p, i := o.frames[f].process, o.frames[f].page;
      assert ProcessOk(k, o, p);
      if k.Live(p) {
        assert FrameOnPage(k.directories[k.processes[p].directory], o.frames, p, k.processes[p].pageCount, f);
        assert MapsUser(k, p, i, f);
      } else {
        NoPages(k.frameUsed, o.frames, p, f);
        assert false;
      }
    }
    forall p: nat, i: nat, f: nat | MapsUser(k, p, i, f)
      ensures 1 <= f < FRAMES && k.frameUsed[f] && o.frames[f] == PageOf(p, i)
    {
      MappedIsOwned(k, o, p, i, f);
    }
    forall p: nat, q: nat | k.Live(p) && k.Live(q) && p != q
      ensures k.processes[p].directory != k.processes[q].directory
    {
      assert ProcessOk(k, o, p) && ProcessOk(k, o, q);
    }
    forall p: nat, i: nat | k.Live(p) && i < PAGE_ENTRIES
      ensures i < k.processes[p].pageCount ==> UserPage(k, p, i)
      ensures k.processes[p].pageCount <= i && i != 0x300 ==> NoPage(k, p, i)
    {
      PagesAreUser(k, o, p, i);
    }
    forall p: nat | k.Live(p) ensures k.processes[p].pageCount <= MAX_PAGES {
      assert ProcessOk(k, o, p);
    }
    forall d: nat | d < DIRECTORIES && k.directoryUsed[d] ensures KernelPage(k, d) {
      assert DirectoryOk(k, o, d);
      if o.directories[d].DirectoryOf? {
        assert ProcessOk(k, o, o.directories[d].process);
      }
    }
  }

  // ---- Scheduling keeps the resources ----

  // Only registers, and which of the live processes runs, have changed.
  ghost predicate Rescheduled(k: Kernel, k': Kernel)
    requires k.Shaped() && k'.Shaped()
  {
    && k' == k.(processes := k'.processes, current := k'.current, cr3 := k'.cr3)
    && forall p: nat :: p < PROCESSES ==>
         var b, b' := k.processes[p], k'.processes[p];
         && b'.pid == b.pid && b'.pages == b.pages && b'.pageCount == b.pageCount && b'.directory == b.directory
         && (b.state == Inactive <==> b'.state == Inactive)
         && (b'.state == b.state || b'.state == Ready || b'.state == Running)
  }

  lemma RescheduledKeeps(k: Kernel, k': Kernel, o: Owners)
    requires Resources(k, o) && k'.Shaped() && Rescheduled(k, k')
    ensures Resources(k', o)
  {
    assert Flags(k'.processes) == Flags(k.processes);
    assert PagesHeld(k'.processes) == PagesHeld(k.processes);
    forall p: nat ensures ProcessOk(k', o, p) {
      assert ProcessOk(k, o, p);
    }
    forall d: nat ensures DirectoryOk(k', o, d) {
      assert DirectoryOk(k, o, d);
    }
  }

  lemma DistanceOfSlot(current: int, d: nat)
    requires -1 <= current < PROCESSES && 1 <= d <= PROCESSES
    ensures Distance(current, SlotAt(current, d)) == d
  {
  }

  lemma SlotOfDistance(current: int, j: nat)
    requires -1 <= current < PROCESSES && j < PROCESSES
    ensures 1 <= Distance(current, j) <= PROCESSES && SlotAt(current, Distance(current, j)) == j
  {
  }

  // The search finds the Ready slot of least cyclic distance, the current slot coming last.
  lemma {:induction false} NextReadyIsLeast(k: Kernel, d: nat)
    requires k.Shaped() && -1 <= k.current < PROCESSES && 1 <= d <= PROCESSES + 1
    ensures forall j: nat :: j < PROCESSES && k.processes[j].state == Ready && Distance(k.current, j) >= d ==>
              NextReady(k, d) < PROCESSES && Distance(k.current, NextReady(k, d)) <= Distance(k.current, j)
    decreases PROCESSES + 1 - d
  {
    if d <= PROCESSES {
      NextReadyIsLeast(k, d + 1);
      DistanceOfSlot(k.current, d);
      forall j: nat | j < PROCESSES && k.processes[j].state == Ready && Distance(k.current, j) == d
        ensures j == SlotAt(k.current, d)
      {
        SlotOfDistance(k.current, j);
      }
    }
  }

  // A switch from a state in which none runs and something is Ready picks the nearest Ready process
  // and leaves exactly one Running, on its own directory.
  lemma SwitchPicksNearest(k: Kernel, o: Owners, j: nat)
    requires Resources(k, o) && -1 <= k.current < PROCESSES && j < PROCESSES && k.processes[j].state == Ready
    requires forall p: nat :: p < PROCESSES ==> k.processes[p].state != Running
    ensures SwitchDefined(k) && Inv(Switch(k), o)
    ensures k.processes[Switch(k).current].state == Ready
    ensures Distance(k.current, Switch(k).current) <= Distance(k.current, j)
  {
    SlotOfDistance(k.current, j);
    NextReadyIsLeast(k, 1);
    RescheduledKeeps(k, Switch(k), o);
  }

  // From slot c, going up and round, p comes before every other slot that is Ready.
  ghost predicate FirstReadyAfter(k: Kernel, c: int, p: nat)
    requires k.Shaped()
  {
    && p < PROCESSES && k.processes[p].state == Ready
    && forall q: nat :: q < PROCESSES && k.processes[q].state == Ready ==>
         if p > c then q <= c || p <= q else p <= q <= c
  }

  lemma SwitchRoundRobin(k: Kernel, o: Owners, j: nat)
    requires Resources(k, o) && -1 <= k.current < PROCESSES && j < PROCESSES && k.processes[j].state == Ready
    requires forall p: nat :: p < PROCESSES ==> k.processes[p].state != Running
    ensures SwitchDefined(k) && FirstReadyAfter(k, k.current, Switch(k).current)
  {
    forall q: nat | q < PROCESSES && k.processes[q].state == Ready
      ensures SwitchDefined(k) && k.processes[Switch(k).current].state == Ready
      ensures Distance(k.current, Switch(k).current) <= Distance(k.current, q)
    {
      SwitchPicksNearest(k, o, q);
    }
    SwitchPicksNearest(k, o, j);
  }

  // The timer saves the running process, which joins the Ready ones, and takes the first of them after it,
  // going up and round; every other process is left alone.
  lemma TickRoundRobin(k: Kernel, o: Owners, c: Context)
    requires Inv(k, o)
    ensures var k', p := Tick(k, c), k.current;
            && FirstReadyAfter(Save(k, c), p, k'.current)
            && k'.processes[p].context == c
            && (forall q: nat :: q < PROCESSES && q != p ==>
                  k'.processes[q] == k.processes[q].(state := if q == k'.current then Running else k.processes[q].state))
            && k'.processes[p].state == (if p == k'.current then Running else Ready)
  {
    RescheduledKeeps(k, Save(k, c), o) by {
      assert ProcessOk(k, o, k.current);
    }
    SwitchRoundRobin(Save(k, c), o, k.current);
  }

  // ---- Steps ----

  datatype Event = Timer(context: Context) | ExecCall(request: ExecRequest, readCode: int) | ExitCall | KillCall(pid: nat)

  ghost predicate Legal(k: Kernel, e: Event)
    requires k.Shaped()
  {
    match e
    case Timer(c) => true
    case ExecCall(r, _) => ExecDefined(k, r)
    case ExitCall => (exists j: nat :: j < PROCESSES && k.processes[j].state == Ready) && ExitSafe(k)
    case KillCall(pid) => pid < PROCESSES && pid != k.current
  }

  // Slot 0's directory, which exit loads, maps the kernel, and is not the caller's own. A process 0 that
  // has been destroyed leaves a cleared directory there until the directory is used again.
  predicate ExitSafe(k: Kernel)
    requires k.Shaped()
  {
    && 0 <= k.current < PROCESSES
    && MapsKernel(k, k.processes[0].directory)
    && k.processes[0].directory != k.processes[k.current].directory
  }

  // Every access is in bounds, every search ends, and the kernel is mapped by each directory it runs on.

  ghost predicate Defined(k: Kernel, e: Event)
    requires k.Shaped()
  {
    match e
    case Timer(c) => 0 <= k.current < PROCESSES
    case ExecCall(r, _) =>
      && ExecDefined(k, r)
      && (AdmitCode(k, r) == 0 ==>
            FramesInRange(Prepared(k, r), FreeDirectoryIndex(k)) && MapsKernel(Prepared(k, r), FreeDirectoryIndex(k)))
    case ExitCall => ExitDefined(k)
    case KillCall(pid) => DestroyDefined(k, pid) && MapsKernel(Destroy(k, pid), k.cr3)
  }

  ghost function Step(k: Kernel, e: Event): (k': Kernel)
    requires k.Shaped() && Defined(k, e)
    ensures k'.Shaped()
  {
    match e
    case Timer(c) => Tick(k, c)
    case ExecCall(r, readCode) => Exec(k, r, readCode)
    case ExitCall => Exit(k)
    case KillCall(pid) => Destroy(k, pid)
  }

  ghost function StepOwners(k: Kernel, o: Owners, e: Event): Owners
    requires Resources(k, o) && Defined(k, e)
  {
    match e
    case Timer(c) => o
    case ExecCall(r, readCode) => ExecOwners(k, o, r, readCode)
    case ExitCall => DestroyOwners(k, o, k.processes[k.current].pid)
    case KillCall(pid) => DestroyOwners(k, o, pid)
  }

  lemma TickKeeps(k: Kernel, o: Owners, c: Context)
    requires Inv(k, o)
    ensures Inv(Tick(k, c), o)
  {
    var saved := Save(k, c);
    RescheduledKeeps(k, saved, o);
    SwitchPicksNearest(saved, o, k.current);
  }

  lemma ExecKeeps(k: Kernel, o: Owners, r: ExecRequest, readCode: int)
    requires Inv(k, o) && ExecDefined(k, r)
    ensures Defined(k, ExecCall(r, readCode)) && Inv(Exec(k, r, readCode), ExecOwners(k, o, r, readCode))
  {
    if AdmitCode(k, r) == 0 {
      PreparedInRange(k, o, r);
      PreparedMaps(k, o, r);
      ExecPicks(k, o, r);
      if readCode != 0 {
        FailedExecKeeps(k, o, r, readCode);
      } else {
        SuccessfulExecKeeps(k, o, r);
      }
    }
  }

  // What the switch in exit starts from.
  ghost function ExitBefore(k: Kernel): (k': Kernel)
    requires k.Shaped() && 0 <= k.current < PROCESSES && DestroyDefined(k, k.current)
    ensures k'.Shaped()
  {
    Destroy(k, k.current).(cr3 := k.processes[0].directory)
  }

  lemma ExitUnfolds(k: Kernel, o: Owners)
    requires Inv(k, o)
    ensures k.processes[k.current].pid == k.current && DestroyDefined(k, k.current)
    ensures Destroy(ExitLoaded(k), k.current) == ExitBefore(k)
    ensures Resources(ExitBefore(k), DestroyOwners(k, o, k.current))
    ensures ExitBefore(k).current == k.current
    ensures ExitBefore(k).processes == k.processes[k.current := k.processes[k.current].(state := Inactive)]
    ensures k.processes[k.current].directory < DIRECTORIES
    ensures ExitBefore(k).directories == k.directories[k.processes[k.current].directory := ClearDirectory()]
  {
    var k0 := ExitLoaded(k);
    assert ProcessOk(k, o, k.current);
    RescheduledKeeps(k, k0, o);
    DestroyIsDefined(k, o, k.current);
    DestroyIsDefined(k0, o, k.current);
    DestroyReleases(k0, o, k.current);
    DestroyKeeps(k0, o, k.current);
    FreePagesIgnoresCr3(k, k.processes[0].directory, k.processes[k.current].directory,
                        k.processes[k.current].pages, k.processes[k.current].pageCount);
  }

  lemma {:induction false} FreePagesIgnoresCr3(k: Kernel, cr3: nat, d: nat, pages: seq<nat>, n: nat)
    requires k.Shaped() && d <= KERNEL_DIRECTORY && n <= |pages| && FramesInRange(k, d)
    ensures FramesInRange(k.(cr3 := cr3), d)
    ensures FreePages(k.(cr3 := cr3), d, pages, n) == FreePages(k, d, pages, n).(cr3 := cr3)
  {
    if n > 0 {
      FreePagesIgnoresCr3(k, cr3, d, pages, n - 1);
    }
  }

  // The kernel stays mapped throughout exit if and only if slot 0's directory maps it and is not the
  // caller's. With process 0 live that is to say that the caller is another process.
  lemma ExitMappedIff(k: Kernel, o: Owners)
    requires Inv(k, o)
    ensures DestroyDefined(k, k.processes[k.current].pid)
    ensures ExitMapped(k) <==> ExitSafe(k)
    ensures k.Live(0) ==> (ExitSafe(k) <==> k.current != 0)
  {
    ExitUnfolds(k, o);
    if k.Live(0) {
      LiveMapsKernel(k, o, 0);
      assert ProcessOk(k, o, 0) && ProcessOk(k, o, k.current);
    }
  }

  lemma LiveMapsKernel(k: Kernel, o: Owners, p: nat)
    requires Resources(k, o) && p < PROCESSES && k.Live(p)
    ensures MapsKernel(k, k.processes[p].directory)
  {
    assert ProcessOk(k, o, p);
  }

  lemma ExitKeeps(k: Kernel, o: Owners, j: nat)
    requires Inv(k, o) && j < PROCESSES && k.processes[j].state == Ready
    ensures ExitInBounds(k) && Inv(Exit(k), DestroyOwners(k, o, k.processes[k.current].pid))
  {
    ExitUnfolds(k, o);
    SwitchPicksNearest(ExitBefore(k), DestroyOwners(k, o, k.current), j);
  }

  lemma KillKeeps(k: Kernel, o: Owners, pid: nat)
    requires Inv(k, o) && pid < PROCESSES && pid != k.current
    ensures DestroyDefined(k, pid) && Inv(Destroy(k, pid), DestroyOwners(k, o, pid))
    ensures MapsKernel(Destroy(k, pid), k.cr3)
  {
    DestroyIsDefined(k, o, pid);
    DestroyKeeps(k, o, pid);
    if k.Live(pid) {
      DestroyReleases(k, o, pid);
    }
    LiveMapsKernel(Destroy(k, pid), DestroyOwners(k, o, pid), k.current);
  }

  // ---- What destroying a process gives back ----

  // Process p is gone: its frames are free and its directory is not in use, and of the frames, the
  // directories and the other processes nothing else has changed.
  ghost predicate Released(k: Kernel, k': Kernel, p: nat)
    requires k.Shaped() && k'.Shaped() && k.Live(p)
  {
    && !k'.Live(p)
    && (forall f: nat :: f < FRAMES ==> (k'.frameUsed[f] <==> k.frameUsed[f] && !exists i: nat :: MapsUser(k, p, i, f)))
    && k'.freeCount == k.freeCount + k.processes[p].pageCount && k'.active == k.active - 1
    && (forall d: nat :: d < DIRECTORIES ==> (k'.directoryUsed[d] <==> k.directoryUsed[d] && d != k.processes[p].directory))
    && (forall d: nat :: d <= KERNEL_DIRECTORY && d != k.processes[p].directory ==> k'.directories[d] == k.directories[d])
  }

  lemma PageHolds(k: Kernel, o: Owners, p: nat, f: nat)
    requires Resources(k, o) && k.Live(p) && f < FRAMES
    ensures o.frames[f].PageOf? && o.frames[f].process == p <==> exists i: nat :: MapsUser(k, p, i, f)
    ensures o.frames[f].PageOf? && o.frames[f].process == p ==> o.frames[f].page < k.processes[p].pageCount
  {
    assert ProcessOk(k, o, p);
    var t, n := k.directories[k.processes[p].directory], k.processes[p].pageCount;
    assert FrameOnPage(t, o.frames, p, n, f);
    if o.frames[f].PageOf? && o.frames[f].process == p {
      assert MapsUser(k, p, o.frames[f].page, f);
    }
    if i: nat :| MapsUser(k, p, i, f) {
      MappedIsOwned(k, o, p, i, f);
    }
  }

  lemma DestroyGivesBack(k: Kernel, o: Owners, p: nat)
    requires Resources(k, o) && k.Live(p)
    ensures DestroyDefined(k, p) && DestroyOk(k, p) && Released(k, Destroy(k, p), p)
    ensures forall q: nat :: q < PROCESSES && q != p ==> Destroy(k, p).processes[q] == k.processes[q]
  {
    DestroyIsDefined(k, o, p);
    DestroyReleases(k, o, p);
    var k' := Destroy(k, p);
    forall f: nat | f < FRAMES
      ensures k'.frameUsed[f] <==> k.frameUsed[f] && !exists i: nat :: MapsUser(k, p, i, f)
    {
      PageHolds(k, o, p, f);
      assert FrameMarked(k.frameUsed, o.frames, f);
      assert FrameMarked(k'.frameUsed, FreeOwners(o.frames, p, k.processes[p].pageCount), f);
    }
  }

  // kill of another slot: it answers 1 for a dead one and changes nothing, and 0 for a live one, which it
  // releases.
  lemma KillAnswers(k: Kernel, o: Owners, pid: nat)
    requires Inv(k, o) && pid < PROCESSES && pid != k.current
    ensures DestroyDefined(k, pid) && (DestroyOk(k, pid) <==> k.processes[pid].state != Inactive)
    ensures k.processes[pid].state == Inactive ==> Destroy(k, pid) == k
    ensures k.processes[pid].state != Inactive ==>
              && Released(k, Destroy(k, pid), pid) && Destroy(k, pid).current == k.current && Destroy(k, pid).cr3 == k.cr3
              && forall q: nat :: q < PROCESSES && q != pid ==> Destroy(k, pid).processes[q] == k.processes[q]
  {
    DestroyIsDefined(k, o, pid);
    if k.Live(pid) {
      DestroyGivesBack(k, o, pid);
      DestroyReleases(k, o, pid);
    }
  }

  // exit releases the caller and takes the first Ready process after it; no other process changes but
  // that one, which now runs.
  lemma ExitAnswers(k: Kernel, o: Owners, j: nat)
    requires Inv(k, o) && j < PROCESSES && k.processes[j].state == Ready
    ensures ExitInBounds(k)
    ensures Released(k, Exit(k), k.current) && FirstReadyAfter(k, k.current, Exit(k).current)
    ensures forall q: nat :: q < PROCESSES && q != k.current ==>
              Exit(k).processes[q] == k.processes[q].(state := if q == Exit(k).current then Running else k.processes[q].state)
  {
    ExitUnfolds(k, o);
    DestroyGivesBack(k, o, k.current);
    SwitchRoundRobin(ExitBefore(k), DestroyOwners(k, o, k.current), j);
    ReadyBeforeExit(k, o, Exit(k).current);
  }

  lemma ReadyBeforeExit(k: Kernel, o: Owners, p: nat)
    requires Inv(k, o) && DestroyDefined(k, k.current) && FirstReadyAfter(ExitBefore(k), k.current, p)
    ensures FirstReadyAfter(k, k.current, p)
  {
    ExitUnfolds(k, o);
    var before := ExitBefore(k);
    forall q: nat | q < PROCESSES && k.processes[q].state == Ready
      ensures if p > k.current then q <= k.current || p <= q else p <= q <= k.current
    {
      assert before.processes[q].state == Ready;
    }
  }

  lemma StepKeeps(k: Kernel, o: Owners, e: Event)
    requires Inv(k, o) && Legal(k, e)
    ensures Defined(k, e) && Inv(Step(k, e), StepOwners(k, o, e))
  {
    match e
    case Timer(c) => TickKeeps(k, o, c);
    case ExecCall(r, readCode) => ExecKeeps(k, o, r, readCode);
    case ExitCall =>
      var j: nat :| j < PROCESSES && k.processes[j].state == Ready;
      ExitKeeps(k, o, j);
      ExitMappedIff(k, o);
    case KillCall(pid) => KillKeeps(k, o, pid);
  }

  // ---- What a Ready process keeps ----

  // Process j's saved state and mappings, but for whether it is running.
  ghost predicate Kept(k: Kernel, k': Kernel, j: nat)
    requires k.Shaped() && k'.Shaped() && j < PROCESSES
  {
    && k'.processes[j] == k.processes[j].(state := k'.processes[j].state)
    && k.processes[j].directory < DIRECTORIES
    && k'.directories[k.processes[j].directory] == k.directories[k.processes[j].directory]
  }

  predicate IsSwitch(e: Event) {
    e.Timer? || e.ExitCall?
  }

  lemma ExecKeepsReady(k: Kernel, o: Owners, r: ExecRequest, readCode: int, j: nat)
    requires Inv(k, o) && ExecDefined(k, r) && j < PROCESSES && k.processes[j].state == Ready
    ensures Defined(k, ExecCall(r, readCode))
    ensures Kept(k, Exec(k, r, readCode), j) && Exec(k, r, readCode).processes[j].state == Ready
    ensures Exec(k, r, readCode).current == k.current
  {
    ExecKeeps(k, o, r, readCode);
    assert ProcessOk(k, o, j);
    if AdmitCode(k, r) == 0 {
      ExecPicks(k, o, r);
      PreparedMaps(k, o, r);
      if readCode != 0 {
        FailedExecRestores(k, o, r, readCode);
      }
    }
  }

  lemma DestroyKeepsOther(k: Kernel, o: Owners, pid: nat, j: nat)
    requires Resources(k, o) && pid < PROCESSES && DestroyDefined(k, pid) && j < PROCESSES && j != pid && k.Live(j)
    ensures Kept(k, Destroy(k, pid), j) && Destroy(k, pid).processes[j].state == k.processes[j].state
    ensures Destroy(k, pid).current == k.current
  {
    assert ProcessOk(k, o, j) && ProcessOk(k, o, pid);
    if k.Live(pid) {
      DestroyReleases(k, o, pid);
    }
  }

  // A switch serves j, or brings it strictly nearer.
  ghost predicate Served(k: Kernel, k': Kernel, j: nat)
    requires k'.Shaped() && j < PROCESSES
  {
    k'.current == j || (k'.processes[j].state == Ready && Distance(k'.current, j) < Distance(k.current, j))
  }

  lemma TickServes(k: Kernel, o: Owners, c: Context, j: nat)
    requires Inv(k, o) && j < PROCESSES && k.processes[j].state == Ready
    ensures Kept(k, Tick(k, c), j) && Served(k, Tick(k, c), j)
  {
    assert ProcessOk(k, o, j);
    var saved := Save(k, c);
    RescheduledKeeps(k, saved, o);
    SwitchPicksNearest(saved, o, j);
    var p := Chosen(saved);
    SlotOfDistance(k.current, j);
    SlotOfDistance(k.current, p);
  }

  lemma ExitServes(k: Kernel, o: Owners, j: nat)
    requires Inv(k, o) && j < PROCESSES && k.processes[j].state == Ready
    ensures ExitInBounds(k) && Kept(k, Exit(k), j) && Served(k, Exit(k), j)
  {
    assert ProcessOk(k, o, j);
    ExitUnfolds(k, o);
    DestroyKeepsOther(k, o, k.current, j);
    var before := ExitBefore(k);
    SwitchPicksNearest(before, DestroyOwners(k, o, k.current), j);
    var p := Chosen(before);
    SlotOfDistance(k.current, j);
    SlotOfDistance(k.current, p);
  }

  // A Ready process that an event does not kill keeps its registers, its directory and its mappings;
  // a switch either takes it or takes one strictly nearer, so that its distance shrinks.
  lemma StepServes(k: Kernel, o: Owners, e: Event, j: nat)
    requires Inv(k, o) && Legal(k, e) && j < PROCESSES && k.processes[j].state == Ready && e != KillCall(j)
    ensures Defined(k, e) && Kept(k, Step(k, e), j)
    ensures IsSwitch(e) ==> Served(k, Step(k, e), j)
    ensures !IsSwitch(e) ==> Step(k, e).current == k.current && Step(k, e).processes[j].state == Ready
  {
    match e
    case Timer(c) => TickServes(k, o, c, j);
    case ExecCall(r, readCode) => ExecKeepsReady(k, o, r, readCode, j);
    case ExitCall =>
      ExitMappedIff(k, o);
      ExitServes(k, o, j);
    case KillCall(pid) =>
      KillKeeps(k, o, pid);
      DestroyKeepsOther(k, o, pid, j);
  }

  // ---- Runs ----

  ghost predicate RunLegal(k: Kernel, o: Owners, es: seq<Event>)
    requires Inv(k, o)
    decreases |es|
  {
    es == [] ||
    (Legal(k, es[0]) && (StepKeeps(k, o, es[0]); RunLegal(Step(k, es[0]), StepOwners(k, o, es[0]), es[1..])))
  }

  // A run of legal events from an invariant state never leaves the invariant.
  ghost function Run(k: Kernel, o: Owners, es: seq<Event>): (r: (Kernel, Owners))
    requires Inv(k, o) && RunLegal(k, o, es)
    ensures Inv(r.0, r.1)
    decreases |es|
  {
    if es == [] then (k, o)
    else
      StepKeeps(k, o, es[0]);
      Run(Step(k, es[0]), StepOwners(k, o, es[0]), es[1..])
  }

  // A run built event by event.
  lemma RunFirst(k: Kernel, o: Owners, e: Event, rest: seq<Event>)
    requires Inv(k, o) && Legal(k, e) && Defined(k, e) && Inv(Step(k, e), StepOwners(k, o, e))
    requires RunLegal(Step(k, e), StepOwners(k, o, e), rest)
    ensures RunLegal(k, o, [e] + rest)
    ensures Run(k, o, [e] + rest) == Run(Step(k, e), StepOwners(k, o, e), rest)
  {
    assert ([e] + rest)[1..] == rest;
  }

  function Switches(es: seq<Event>): nat {
    if es == [] then 0 else (if IsSwitch(es[0]) then 1 else 0) + Switches(es[1..])
  }

  // The n-th state of the run is the one in which process j runs, as it was preempted.
  ghost predicate ServedAt(k: Kernel, o: Owners, es: seq<Event>, j: nat, n: nat)
    requires Inv(k, o) && j < PROCESSES && n <= |es|
  {
    && RunLegal(k, o, es[..n])
    && var k' := Run(k, o, es[..n]).0;
    && k'.Shaped() && k'.current == j && k'.processes[j].state == Running && Kept(k, k', j)
    && k'.cr3 == k.processes[j].directory
  }

  // What is served in the rest of a run is served one event later in the whole run.
  lemma ServedLater(k: Kernel, o: Owners, e: Event, k1: Kernel, o1: Owners, rest: seq<Event>, j: nat, m: nat)
    requires Inv(k, o) && Legal(k, e) && Defined(k, e) && k1 == Step(k, e) && o1 == StepOwners(k, o, e) && Inv(k1, o1)
    requires j < PROCESSES && m <= |rest| && Kept(k, k1, j) && ServedAt(k1, o1, rest, j, m)
    ensures ServedAt(k, o, [e] + rest, j, m + 1)
    ensures Switches(([e] + rest)[..m + 1]) == Switches(rest[..m]) + if IsSwitch(e) then 1 else 0
  {
    var es := ([e] + rest)[..m + 1];
    assert es == [e] + rest[..m] && es[1..] == rest[..m];
    RunFirst(k, o, e, rest[..m]);
  }

  lemma ServedAtOnce(k: Kernel, o: Owners, rest: seq<Event>, j: nat)
    requires Inv(k, o) && j < PROCESSES && k.current == j
    ensures ServedAt(k, o, rest, j, 0) && Switches(rest[..0]) == 0
  {
    assert rest[..0] == [];
    assert ProcessOk(k, o, j);
  }

  lemma {:induction false} ServedWithinDistance(k: Kernel, o: Owners, es: seq<Event>, j: nat) returns (n: nat)
    requires Inv(k, o) && RunLegal(k, o, es) && j < PROCESSES && k.processes[j].state == Ready
    requires KillCall(j) !in es && Switches(es) >= Distance(k.current, j)
    ensures n <= |es| && ServedAt(k, o, es, j, n) && Switches(es[..n]) <= Distance(k.current, j)
    decreases |es|
  {
    SlotOfDistance(k.current, j);
    var e, rest := es[0], es[1..];
    assert es == [e] + rest && e in es;
    StepServes(k, o, e, j);
    StepKeeps(k, o, e);
    var k1, o1 := Step(k, e), StepOwners(k, o, e);
    var m := 0;
    if k1.current == j {
      ServedAtOnce(k1, o1, rest, j);
    } else {
      m := ServedWithinDistance(k1, o1, rest, j);
    }
    ServedLater(k, o, e, k1, o1, rest, j, m);
    n := m + 1;
  }

  // Bounded waiting: a process that is Ready and is not killed runs within 16 context switches,
  // whatever execs, exits and kills of others come between, with the registers, page directory and
  // mappings it had.
  lemma BoundedWaiting(k: Kernel, o: Owners, es: seq<Event>, j: nat)
    requires Inv(k, o) && RunLegal(k, o, es) && j < PROCESSES && k.processes[j].state == Ready
    requires KillCall(j) !in es && Switches(es) >= PROCESSES
    ensures exists n: nat :: n <= |es| && ServedAt(k, o, es, j, n) && Switches(es[..n]) <= PROCESSES
  {
    SlotOfDistance(k.current, j);
    var n := ServedWithinDistance(k, o, es, j);
  }
}
