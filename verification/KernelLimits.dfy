/**
 Boot, accounting, and the exact conditions under which the system calls keep the invariant: where
 the code checks less than it needs, which states it breaks in.
 */
module KernelLimits {
  import opened Counting
  import opened Registers
  import opened KernelState
  import opened KernelInvariant
  import opened KernelRuns

  // ---- Boot ----

  function BootOwners(): Owners {
    Owners([KernelOwned] + seq(FRAMES - 1, _ => Unowned), seq(DIRECTORIES, _ => Spare), 0)
  }

  lemma BootResources(c: Context)
    ensures Resources(Boot(c), BootOwners())
  {
    var k, o := Boot(c), BootOwners();
    var none := k.frameUsed[0 := false];
    AllFalseCount(none);
    CountUpdate(k.frameUsed, 0, false);
    AllFalseCount(k.directoryUsed);
    AllFalseCount(Flags(k.processes));
    AllZeroSum(PagesHeld(k.processes));
    forall p: nat ensures ProcessOk(k, o, p) {
    }
    forall d: nat ensures DirectoryOk(k, o, d) {
    }
  }

  // The request kernel_setup creates the shell with.
  const SHELL_REQUEST := ExecRequest(0, 0x10_0000)

  // kernel_setup creates the shell and enters the scheduler, whatever became of reading the shell's
  // file. If it was read the invariant is established; if not, the search for a process never ends.
  lemma BootReachesInvariant(c: Context, readCode: int)
    ensures var k, r := Boot(c), SHELL_REQUEST;
            && ExecDefined(k, r) && Defined(k, ExecCall(r, readCode))
            && (SwitchDefined(Exec(k, r, readCode)) <==> readCode == 0)
            && (readCode == 0 ==> Inv(Switch(Exec(k, r, 0)), ExecOwners(k, BootOwners(), r, 0)))
  {
    var k, o, r := Boot(c), BootOwners(), SHELL_REQUEST;
    BootResources(c);
    ExecDefinedIff(k, o, r);
    assert AdmitCode(k, r) == 0;
    ExecPicks(k, o, r);
    PreparedInRange(k, o, r);
    PreparedMaps(k, o, r);
    if readCode == 0 {
      SuccessfulExecKeeps(k, o, r);
      SwitchPicksNearest(Exec(k, r, 0), ExecOwners(k, o, r, 0), InactiveIndex(k));
    } else {
      FailedExecRestores(k, o, r, readCode);
      NothingReady(Exec(k, r, readCode), 1);
    }
  }

  // ---- Every run after boot ----

  // The running state the kernel enters after boot.
  ghost function Booted(c: Context): (r: (Kernel, Owners))
    ensures Inv(r.0, r.1)
  {
    BootReachesInvariant(c, 0);
    (Switch(Exec(Boot(c), SHELL_REQUEST, 0)), ExecOwners(Boot(c), BootOwners(), SHELL_REQUEST, 0))
  }

  // The counters agree with the tables: free frames, live processes, directories in use, and every
  // frame counted once.
  ghost predicate CountersAgree(k: Kernel, leaks: nat)
    requires k.Shaped()
  {
    && k.freeCount == FRAMES - Count(k.frameUsed)
    && Sum(PagesHeld(k.processes)) + k.freeCount + 1 == FRAMES
    && k.active == Count(Flags(k.processes))
    && Count(k.directoryUsed) == k.active + leaks
    && forall p: nat :: k.Live(p) ==> k.processes[p].pid == p
  }

  // In every state of every legal run after boot the processes are isolated, one of them runs, on a
  // directory that maps the kernel, the counters agree with the tables, and whatever legal event comes
  // next stays in bounds and keeps the kernel mapped while it is handled.
  lemma IsolatedThroughout(c: Context, es: seq<Event>)
    requires RunLegal(Booted(c).0, Booted(c).1, es)
    ensures var (k, o) := Run(Booted(c).0, Booted(c).1, es);
            && k.Shaped() && Isolated(k) && OneRunning(k) && MapsKernel(k, k.cr3)
            && CountersAgree(k, o.leaks) && o.leaks <= FailedExecs(es)
            && forall e {:trigger Legal(k, e)} :: Legal(k, e) ==> Defined(k, e)
  {
    var (k, o) := Run(Booted(c).0, Booted(c).1, es);
    Isolation(k, o);
    LiveMapsKernel(k, o, k.current);
    LeaksOverRun(Booted(c).0, Booted(c).1, es);
    forall p: nat | k.Live(p) ensures k.processes[p].pid == p {
      assert ProcessOk(k, o, p);
    }
    forall e | Legal(k, e) ensures Defined(k, e) {
      StepKeeps(k, o, e);
    }
  }

  // ---- The first processes ----

  lemma BootPicks(c: Context)
    ensures var k := Boot(c);
            && ExecDefined(k, SHELL_REQUEST) && AdmitCode(k, SHELL_REQUEST) == 0 && InactiveIndex(k) == 0
  {
    BootReachesInvariant(c, 0);
    assert !Flags(Boot(c).processes)[0];
  }

  // A successful exec fills the first free slot with a Ready process.
  lemma ExecFills(k: Kernel, o: Owners, r: ExecRequest)
    requires Resources(k, o) && ExecDefined(k, r) && AdmitCode(k, r) == 0
    ensures FramesInRange(Prepared(k, r), FreeDirectoryIndex(k))
    ensures MapsKernel(Prepared(k, r), FreeDirectoryIndex(k))
    ensures var p, k' := InactiveIndex(k), Exec(k, r, 0);
            && p < PROCESSES && !k.Live(p)
            && k'.processes == k.processes[p := k'.processes[p]] && k'.processes[p].state == Ready
            && k'.current == k.current && k'.active == k.active + 1
            && k'.freeCount == k.freeCount - PagesNeeded(r.bufferSize)
  {
    PreparedInRange(k, o, r);
    ExecPicks(k, o, r);
    PreparedMaps(k, o, r);
  }

  // The shell has been created, in slot 0 and with two pages.
  lemma ShellCreated(c: Context)
    ensures Defined(Boot(c), ExecCall(SHELL_REQUEST, 0))
    ensures var k := Exec(Boot(c), SHELL_REQUEST, 0);
            && k.current == -1 && k.active == 1 && k.freeCount == FRAMES - 3 && k.processes[0].state == Ready
            && forall p: nat :: 1 <= p < PROCESSES ==> k.processes[p].state == Inactive
  {
    BootResources(c);
    BootPicks(c);
    ExecFills(Boot(c), BootOwners(), SHELL_REQUEST);
  }

  lemma FirstSwitch(k: Kernel)
    requires k.Shaped() && k.current == -1 && k.processes[0].state == Ready
    ensures SwitchDefined(k)
    ensures Switch(k) == k.(processes := k.processes[0 := k.processes[0].(state := Running)], current := 0,
                            cr3 := k.processes[0].directory)
  {
    assert SlotAt(-1, 1) == 0;
  }

  // Right after boot only the shell lives, and runs.
  lemma BootedShell(c: Context)
    ensures var (k, o) := Booted(c);
            && k.Shaped() && k.current == 0 && k.active == 1 && k.freeCount == FRAMES - 3 && o.leaks == 0
            && k.Live(0) && forall p: nat :: 1 <= p < PROCESSES ==> k.processes[p].state == Inactive
  {
    ShellCreated(c);
    FirstSwitch(Exec(Boot(c), SHELL_REQUEST, 0));
  }

  // In a running state, which stays one.
  lemma ExecStarts(k: Kernel, o: Owners, r: ExecRequest) returns (p: nat)
    requires Inv(k, o) && ExecDefined(k, r) && AdmitCode(k, r) == 0
    ensures Defined(k, ExecCall(r, 0)) && Inv(Exec(k, r, 0), ExecOwners(k, o, r, 0))
    ensures p < PROCESSES && !k.Live(p)
    ensures var k' := Exec(k, r, 0);
            && k'.processes == k.processes[p := k'.processes[p]] && k'.processes[p].state == Ready
            && k'.current == k.current && k'.active == k.active + 1
            && k'.freeCount == k.freeCount - PagesNeeded(r.bufferSize)
    ensures ExecOwners(k, o, r, 0).leaks == o.leaks
  {
    p := InactiveIndex(k);
    ExecKeeps(k, o, r, 0);
    ExecFills(k, o, r);
  }

  // ---- Leaked directories ----

  function FailedExecs(es: seq<Event>): nat {
    if es == [] then 0 else (if es[0].ExecCall? && es[0].readCode != 0 then 1 else 0) + FailedExecs(es[1..])
  }

  // Each failed exec leaks at most one page directory, and nothing else leaks or recovers any.
  lemma {:induction false} LeaksOverRun(k: Kernel, o: Owners, es: seq<Event>)
    requires Inv(k, o) && RunLegal(k, o, es)
    ensures o.leaks <= Run(k, o, es).1.leaks <= o.leaks + FailedExecs(es)
    decreases |es|
  {
    if es != [] {
      StepKeeps(k, o, es[0]);
      LeaksOverRun(Step(k, es[0]), StepOwners(k, o, es[0]), es[1..]);
    }
  }

  // While no more than 16 execs have failed, an exec always finds a page directory.
  lemma ExecDefinedWhileFewFailed(k: Kernel, o: Owners, es: seq<Event>, r: ExecRequest)
    requires Inv(k, o) && RunLegal(k, o, es) && o.leaks + FailedExecs(es) <= DIRECTORIES - PROCESSES
    ensures ExecDefined(Run(k, o, es).0, r)
  {
    LeaksOverRun(k, o, es);
    ExecDefinedIff(Run(k, o, es).0, Run(k, o, es).1, r);
  }

  function FailedExecRun(r: ExecRequest, n: nat): (es: seq<Event>) {
    if n == 0 then [] else [ExecCall(r, -1)] + FailedExecRun(r, n - 1)
  }

  // A failing exec that is admitted leaves the counters it is admitted by alone, and leaks a directory.
  lemma FailedExecLeaks(k: Kernel, o: Owners, r: ExecRequest)
    requires Inv(k, o) && AdmitCode(k, r) == 0 && k.active + o.leaks < DIRECTORIES
    ensures var e := ExecCall(r, -1);
            && Legal(k, e) && Defined(k, e) && Inv(Step(k, e), StepOwners(k, o, e))
            && AdmitCode(Step(k, e), r) == 0 && Step(k, e).active == k.active
            && StepOwners(k, o, e).leaks == o.leaks + 1
  {
    ExecDefinedIff(k, o, r);
    FailedExecRestores(k, o, r, -1);
    StepKeeps(k, o, ExecCall(r, -1));
  }

  // The run es is legal, leaks n directories and leaves r admitted.
  ghost predicate Leaks(k: Kernel, o: Owners, r: ExecRequest, es: seq<Event>, n: nat)
    requires Inv(k, o)
  {
    && RunLegal(k, o, es)
    && var (k', o') := Run(k, o, es);
       AdmitCode(k', r) == 0 && k'.active == k.active && o'.leaks == o.leaks + n
  }

  lemma LeaksOneMore(k: Kernel, o: Owners, r: ExecRequest, rest: seq<Event>, n: nat)
    requires Inv(k, o) && AdmitCode(k, r) == 0 && k.active + o.leaks < DIRECTORIES
    requires forall k', o' :: Inv(k', o') && AdmitCode(k', r) == 0 && k'.active == k.active && o'.leaks == o.leaks + 1 ==>
               Leaks(k', o', r, rest, n)
    ensures Leaks(k, o, r, [ExecCall(r, -1)] + rest, n + 1)
  {
    FailedExecLeaks(k, o, r);
    RunFirst(k, o, ExecCall(r, -1), rest);
  }

  // So n of them in a row leak n.
  lemma {:induction false} FailedExecsLeak(k: Kernel, o: Owners, r: ExecRequest, n: nat)
    requires Inv(k, o) && AdmitCode(k, r) == 0 && k.active + o.leaks + n <= DIRECTORIES
    ensures Leaks(k, o, r, FailedExecRun(r, n), n)
    decreases n
  {
    if n > 0 {
      var rest := FailedExecRun(r, n - 1);
      forall k', o' | Inv(k', o') && AdmitCode(k', r) == 0 && k'.active == k.active && o'.leaks == o.leaks + 1
        ensures Leaks(k', o', r, rest, n - 1)
      {
        FailedExecsLeak(k', o', r, n - 1);
      }
      LeaksOneMore(k, o, r, rest, n - 1);
      assert FailedExecRun(r, n) == [ExecCall(r, -1)] + rest;
    }
  }

  // After boot, 31 execs of a missing file, and the next exec writes through a null page directory.
  lemma DirectoriesRunOut(c: Context)
    ensures var es := FailedExecRun(SHELL_REQUEST, 31);
            && RunLegal(Booted(c).0, Booted(c).1, es)
            && var k := Run(Booted(c).0, Booted(c).1, es).0;
               AdmitCode(k, SHELL_REQUEST) == 0 && !ExecDefined(k, SHELL_REQUEST)
  {
    var (k, o) := Booted(c);
    BootedShell(c);
    FailedExecsLeak(k, o, SHELL_REQUEST, 31);
    var (k', o') := Run(k, o, FailedExecRun(SHELL_REQUEST, 31));
    ExecDefinedIff(k', o', SHELL_REQUEST);
  }

  // ---- Killing the current process ----

  // A kill stays in bounds and keeps the invariant if and only if its target is a slot other than the
  // running process's. process_destroy checks neither.
  lemma KillKeepsIff(k: Kernel, o: Owners, pid: nat)
    requires Inv(k, o)
    ensures DestroyDefined(k, pid) <==> pid < PROCESSES
    ensures DestroyDefined(k, pid) && (exists o' :: Inv(Destroy(k, pid), o')) <==> pid < PROCESSES && pid != k.current
  {
    if pid < PROCESSES {
      DestroyIsDefined(k, o, pid);
      if pid != k.current {
        KillKeeps(k, o, pid);
      } else {
        DestroyReleases(k, o, pid);
        forall o' ensures !Inv(Destroy(k, pid), o') {
          assert Destroy(k, pid).processes[pid].state == Inactive;
        }
      }
    }
  }

  // The two characters the shell passes on for a number below 100 as it is typed.
  function Typed(n: nat): (int, int)
    requires n < 100
  {
    if n < 10 then (ZERO_DIGIT + n, 0) else (ZERO_DIGIT + n / 10, ZERO_DIGIT + n % 10)
  }

  // A typed number reaches the process it names if and only if it has one digit or two equal ones; the
  // digits of any other are swapped, so that 10 reaches process 1 and 12 to 15 no slot at all.
  lemma KillDecodesIff(n: nat)
    requires n < 100
    ensures var pid := DecodePid(Typed(n).0, Typed(n).1);
            && pid == (if n < 10 then n else n / 10 + 10 * (n % 10))
            && (pid == n <==> n < 10 || n / 10 == n % 10)
            && (12 <= n < PROCESSES ==> pid >= PROCESSES)
  {
    assert n == 10 * (n / 10) + n % 10;
  }

  // After the running process is killed, the next tick brings its slot back to life on a page
  // directory that is not in use: no assignment of owners makes the result consistent.
  lemma KillCurrentThenTick(k: Kernel, o: Owners, c: Context)
    requires Inv(k, o)
    ensures DestroyDefined(k, k.current)
    ensures var k' := Tick(Destroy(k, k.current), c);
            && !MapsKernel(Destroy(k, k.current), k.cr3)
            && k'.Live(k.current)
            && k'.processes[k.current].directory < DIRECTORIES
            && !k'.directoryUsed[k'.processes[k.current].directory]
            && forall o' :: !Resources(k', o')
  {
    DestroyIsDefined(k, o, k.current);
    DestroyReleases(k, o, k.current);
    var k1 := Destroy(k, k.current);
    var p, k' := k.current, Tick(k1, c);
    forall o' ensures !Resources(k', o') {
      DeadDirectory(k', o', p);
    }
  }

  lemma DeadDirectory(k: Kernel, o: Owners, p: nat)
    requires k.Shaped() && k.Live(p)
    requires k.processes[p].directory >= DIRECTORIES || !k.directoryUsed[k.processes[p].directory]
    ensures !Resources(k, o)
  {
    if Resources(k, o) {
      LiveDirectoryUsed(k, o, p);
      assert false;
    }
  }

  lemma LiveDirectoryUsed(k: Kernel, o: Owners, p: nat)
    requires Resources(k, o) && k.Live(p)
    ensures k.processes[p].directory < DIRECTORIES && k.directoryUsed[k.processes[p].directory]
  {
    assert ProcessOk(k, o, p);
    assert DirectoryOk(k, o, k.processes[p].directory);
  }

  // ---- Exit with nobody left ----

  lemma {:induction false} NothingReady(k: Kernel, d: nat)
    requires k.Shaped() && -1 <= k.current < PROCESSES && 1 <= d <= PROCESSES + 1
    requires forall j: nat :: j < PROCESSES ==> k.processes[j].state != Ready
    ensures NextReady(k, d) == PROCESSES
    decreases PROCESSES + 1 - d
  {
    if d <= PROCESSES {
      NothingReady(k, d + 1);
    }
  }

  // Exit stays in bounds, ends, keeps the kernel mapped and keeps the invariant if and only if another
  // process is Ready and slot 0's directory maps the kernel and is not the caller's. With nothing Ready
  // the search never ends (current slot 0), or it takes the slot just destroyed (any other slot).
  lemma ExitKeepsIff(k: Kernel, o: Owners)
    requires Inv(k, o)
    ensures ExitDefined(k) && (exists o' :: Inv(Exit(k), o'))
            <==> (exists j: nat :: j < PROCESSES && k.processes[j].state == Ready) && ExitSafe(k)
    ensures k.Live(0) ==> (ExitSafe(k) <==> k.current != 0)
    ensures (forall j: nat :: j < PROCESSES ==> k.processes[j].state != Ready) ==>
              (ExitInBounds(k) <==> k.current != 0)
  {
    ExitMappedIff(k, o);
    if j: nat :| j < PROCESSES && k.processes[j].state == Ready {
      ExitKeeps(k, o, j);
    } else {
      ExitAlone(k, o);
    }
  }

  lemma ExitAlone(k: Kernel, o: Owners)
    requires Inv(k, o) && forall j: nat :: j < PROCESSES ==> k.processes[j].state != Ready
    ensures ExitInBounds(k) <==> k.current != 0
    ensures ExitInBounds(k) ==> forall o' :: !Inv(Exit(k), o')
  {
    ExitUnfolds(k, o);
    NothingReady(ExitBefore(k), 1);
    if ExitInBounds(k) {
      assert Exit(k) == Switch(ExitBefore(k)) && Chosen(ExitBefore(k)) == k.current;
      DestroyFreesDirectory(k, o);
      forall o' ensures !Inv(Exit(k), o') {
        DeadDirectory(Exit(k), o', k.current);
      }
    }
  }

  // Exit from the shell with nothing else there: right after boot, the search never ends.
  lemma ShellCannotExit(c: Context)
    ensures !ExitInBounds(Booted(c).0)
  {
    BootedShell(c);
    ExitAlone(Booted(c).0, Booted(c).1);
  }

  // Once the shell in slot 0 has been killed, which is legal, any other process that exits loads the
  // directory that was the shell's: cleared, not in use, and without the kernel.
  lemma ExitAfterShellKilled(k: Kernel, o: Owners, j: nat)
    requires Inv(k, o) && k.Live(0) && k.current != 0 && 1 <= j < PROCESSES && k.processes[j].state == Ready
    ensures Legal(k, KillCall(0)) && Defined(k, KillCall(0))
    ensures Inv(Step(k, KillCall(0)), StepOwners(k, o, KillCall(0)))
    ensures StrandsExit(Step(k, KillCall(0)))
  {
    KillKeeps(k, o, 0);
    DestroyReleases(k, o, 0);
    assert ProcessOk(k, o, 0);
    var k', o' := Step(k, KillCall(0)), StepOwners(k, o, KillCall(0));
    assert k'.processes[j].state == Ready;
    ExitKeeps(k', o', j);
    ExitMappedIff(k', o');
  }

  // Exit finds a next process, but first loads a directory that is not in use and lost the kernel.
  ghost predicate StrandsExit(k: Kernel) {
    && ExitInBounds(k) && !ExitMapped(k)
    && (exists j: nat :: j < PROCESSES && k.processes[j].state == Ready)
    && var d := k.processes[0].directory;
       d < DIRECTORIES && !k.directoryUsed[d] && k.directories[d][KERNEL_ENTRY] == NO_PDE
  }

  // A legal run from boot that leads there: two programs are started, the timer takes the first, and
  // the shell is killed.
  lemma ShellKilledRun(c: Context, saved: Context)
    ensures var es := [ExecCall(SHELL_REQUEST, 0), ExecCall(SHELL_REQUEST, 0), Timer(saved), KillCall(0)];
            RunLegal(Booted(c).0, Booted(c).1, es) && StrandsExit(Run(Booted(c).0, Booted(c).1, es).0)
  {
    var r := SHELL_REQUEST;
    var (k0, o0) := Booted(c);
    BootedShell(c);
    ExecDefinedIff(k0, o0, r);
    var p1 := ExecStarts(k0, o0, r);
    var k1, o1 := Exec(k0, r, 0), ExecOwners(k0, o0, r, 0);
    SecondStartThenKill(k1, o1, saved, p1);
    RunFirst(k0, o0, ExecCall(r, 0), [ExecCall(r, 0), Timer(saved), KillCall(0)]);
  }

  lemma SecondStartThenKill(k: Kernel, o: Owners, saved: Context, p1: nat)
    requires Inv(k, o) && k.current == 0 && AdmitCode(k, SHELL_REQUEST) == 0 && k.active + o.leaks < DIRECTORIES
    requires 1 <= p1 < PROCESSES && k.processes[p1].state == Ready
    ensures var es := [ExecCall(SHELL_REQUEST, 0), Timer(saved), KillCall(0)];
            RunLegal(k, o, es) && StrandsExit(Run(k, o, es).0)
  {
    var r := SHELL_REQUEST;
    ExecDefinedIff(k, o, r);
    var p2 := ExecStarts(k, o, r);
    TickThenKill(Exec(k, r, 0), ExecOwners(k, o, r, 0), saved, p1, p2);
    RunFirst(k, o, ExecCall(r, 0), [Timer(saved), KillCall(0)]);
  }

  lemma TickThenKill(k: Kernel, o: Owners, saved: Context, p1: nat, p2: nat)
    requires Inv(k, o) && k.current == 0 && 1 <= p1 < PROCESSES && 1 <= p2 < PROCESSES && p1 != p2
    requires k.processes[p1].state == Ready && k.processes[p2].state == Ready
    ensures RunLegal(k, o, [Timer(saved), KillCall(0)]) && StrandsExit(Run(k, o, [Timer(saved), KillCall(0)]).0)
  {
    var j := TickLeavesShell(k, o, saved, p1, p2);
    ExitAfterShellKilled(Tick(k, saved), o, j);
    RunFirst(Tick(k, saved), o, KillCall(0), []);
    RunFirst(k, o, Timer(saved), [KillCall(0)]);
  }

  lemma TickLeavesShell(k: Kernel, o: Owners, c: Context, p1: nat, p2: nat) returns (j: nat)
    requires Inv(k, o) && k.current == 0 && 1 <= p1 < PROCESSES && 1 <= p2 < PROCESSES && p1 != p2
    requires k.processes[p1].state == Ready && k.processes[p2].state == Ready
    ensures Inv(Tick(k, c), o) && Tick(k, c).current != 0 && Tick(k, c).Live(0)
    ensures 1 <= j < PROCESSES && Tick(k, c).processes[j].state == Ready
  {
    TickKeeps(k, o, c);
    TickServes(k, o, c, p1);
    var k' := Tick(k, c);
    j := if k'.current == p1 then p2 else p1;
  }

  lemma DestroyFreesDirectory(k: Kernel, o: Owners)
    requires Inv(k, o)
    ensures DestroyDefined(k, k.current)
    ensures var d := k.processes[k.current].directory;
            d < DIRECTORIES && !ExitBefore(k).directoryUsed[d] && ExitBefore(k).processes[k.current].directory == d
  {
    DestroyIsDefined(k, o, k.current);
    DestroyReleases(k, o, k.current);
  }

  // ---- What exec answers ----

  // How many frames nobody uses.
  function FreeFrames(k: Kernel): int {
    32 - Count(k.frameUsed)
  }

  // Without wrap-around the page count is the least that covers the buffer size and one frame more.
  lemma PagesAreLeast(bufferSize: nat)
    requires bufferSize + 0x80_0000 <= 0x1_0000_0000
    ensures var n := PagesNeeded(bufferSize);
            0x40_0000 * (n - 1) < bufferSize + 0x40_0000 <= 0x40_0000 * n
  {
    var x := bufferSize + PAGE_FRAME_SIZE;
    assert x % WORD == x;
    assert (x + PAGE_FRAME_SIZE - 1) % WORD == x + PAGE_FRAME_SIZE - 1;
  }

  // With it, it is one page or none.
  lemma WrappedPages(bufferSize: nat)
    requires 0x1_0000_0000 < bufferSize + 0x80_0000 && bufferSize < 0x1_0000_0000
    ensures PagesNeeded(bufferSize) == if bufferSize > 0xFFC0_0000 then 1 else 0
  {
    var x := bufferSize + PAGE_FRAME_SIZE;
    if x < WORD {
      assert x % WORD == x && (x + PAGE_FRAME_SIZE - 1) % WORD == x - (WORD - PAGE_FRAME_SIZE + 1);
    } else {
      assert x % WORD == x - WORD && x - WORD < PAGE_FRAME_SIZE;
    }
  }

  // The memory asked for is more than 8 pages, or more than there is.
  predicate TooMuch(k: Kernel, bufferSize: nat) {
    if bufferSize + 0x80_0000 <= 0x1_0000_0000 then
      bufferSize + 0x40_0000 > 0x200_0000 || bufferSize + 0x40_0000 > 0x40_0000 * FreeFrames(k)
    else
      bufferSize > 0xFFC0_0000 && FreeFrames(k) == 0
  }

  lemma TooMuchIff(k: Kernel, bufferSize: nat)
    requires k.Shaped() && bufferSize < 0x1_0000_0000
    ensures TooMuch(k, bufferSize) <==> PagesNeeded(bufferSize) > FreeFrames(k) || PagesNeeded(bufferSize) > 8
  {
    if bufferSize + 0x80_0000 <= 0x1_0000_0000 {
      PagesAreLeast(bufferSize);
    } else {
      WrappedPages(bufferSize);
    }
  }

  lemma AllLiveIff(k: Kernel, o: Owners)
    requires Resources(k, o)
    ensures k.active >= PROCESSES <==> forall p: nat :: p < 16 ==> k.Live(p)
  {
    var flags := Flags(k.processes);
    FirstFalseFound(flags);
    if p: nat :| p < 16 && !k.Live(p) {
      SomeFalseCount(flags, p);
    } else {
      forall p | 0 <= p < |flags| ensures flags[p] {
        var slot: nat := p;
        assert k.Live(slot);
      }
      AllTrueCount(flags);
    }
  }

  // exec answers 1 when every slot is taken, else 2 when the load address is the kernel's, else 3 when the
  // memory is not there, else 4 when the file cannot be read, else 0.
  lemma ExecAnswers(k: Kernel, o: Owners, r: ExecRequest, readCode: int)
    requires Resources(k, o) && r.bufferSize < 0x1_0000_0000
    ensures ExecCode(k, r, readCode) ==
            if forall p: nat :: p < 16 ==> k.Live(p) then 1
            else if r.buf >= 0xC000_0000 then 2
            else if TooMuch(k, r.bufferSize) then 3
            else if readCode != 0 then 4
            else 0
  {
    AllLiveIff(k, o);
    TooMuchIff(k, r.bufferSize);
  }

  // A refused exec changes nothing. Otherwise the new process takes the first dead slot, under that number,
  // and nothing is changed of any other process.
  lemma ExecStartsFirstDead(k: Kernel, o: Owners, r: ExecRequest)
    requires Resources(k, o) && ExecDefined(k, r) && r.bufferSize < 0x1_0000_0000
    ensures AdmitCode(k, r) == 0 ==> FramesInRange(Prepared(k, r), FreeDirectoryIndex(k))
    ensures ExecCode(k, r, 0) != 0 ==> Exec(k, r, 0) == k
    ensures ExecCode(k, r, 0) == 0 ==>
              exists p: nat :: p < 16 && k.processes[p].state == Inactive
                && (forall q: nat :: q < p ==> k.processes[q].state != Inactive)
                && Exec(k, r, 0).processes[p].state == Ready && Exec(k, r, 0).processes[p].pid == p
                && forall q: nat :: q < 16 && q != p ==> Exec(k, r, 0).processes[q] == k.processes[q]
  {
    if AdmitCode(k, r) == 0 {
      ExecFills(k, o, r);
      var p := InactiveIndex(k);
      forall q: nat | q < p ensures k.processes[q].state != Inactive {
        assert Flags(k.processes)[q];
      }
    }
  }

  // ---- Loading a program ----

  // A program of filesize bytes, no larger than the buffer size asked for, loaded at buf in the first
  // page frame, lies inside the pages mapped for it, unless the page count wrapped around: with the
  // request admitted, the pages cover the buffer size and one frame more exactly when it did not.
  lemma LoadFits(k: Kernel, r: ExecRequest, filesize: nat)
    requires AdmitCode(k, r) == 0 && r.bufferSize < WORD
    ensures PagesNeeded(r.bufferSize) * PAGE_FRAME_SIZE >= r.bufferSize + PAGE_FRAME_SIZE
            <==> r.bufferSize + 2 * PAGE_FRAME_SIZE - 1 < WORD
    ensures r.bufferSize + 2 * PAGE_FRAME_SIZE - 1 < WORD && r.buf <= PAGE_FRAME_SIZE && filesize <= r.bufferSize ==>
              r.buf + filesize <= PagesNeeded(r.bufferSize) * PAGE_FRAME_SIZE <= MAX_PAGES * PAGE_FRAME_SIZE
  {
    var x := r.bufferSize + PAGE_FRAME_SIZE;
    if x + PAGE_FRAME_SIZE - 1 < WORD {
      assert x % WORD == x && (x + PAGE_FRAME_SIZE - 1) % WORD == x + PAGE_FRAME_SIZE - 1;
    } else {
      assert PagesNeeded(r.bufferSize) * PAGE_FRAME_SIZE <= MAX_PAGES * PAGE_FRAME_SIZE;
    }
  }

  // The largest size that wraps to no pages at all is admitted right after boot.
  lemma LoadWraps(c: Context)
    ensures var r := ExecRequest(0, 0xFFC0_0000);
            AdmitCode(Booted(c).0, r) == 0 && PagesNeeded(r.bufferSize) == 0
  {
    BootedShell(c);
  }
}
