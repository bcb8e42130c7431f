/**
 The process manager, the page manager and the scheduler as they run: tables changed in place by
 search loops. Each operation is proved to compute its function of KernelState.dfy.
 */
module KernelMachine {
  import opened Counting
  import opened Registers
  import opened KernelState

  class Machine {
    const pageFrameMap: array<bool>
    var freePageFrameCount: int
    const pageDirectoryUsed: array<bool>
    const pageDirectories: array<PageDirectory>
    const processList: array<Pcb>
    var activeProcessCount: int
    var currentPid: int
    var cr3: nat

    ghost predicate Valid()
      reads processList
    {
      && pageFrameMap.Length == FRAMES && pageDirectoryUsed.Length == DIRECTORIES
      && pageDirectories.Length == DIRECTORIES + 1 && processList.Length == PROCESSES
      && pageFrameMap != pageDirectoryUsed
      && forall p :: 0 <= p < PROCESSES ==> |processList[p].pages| == MAX_PAGES
    }

    ghost function State(): (k: Kernel)
      requires Valid()
      reads this, pageFrameMap, pageDirectoryUsed, pageDirectories, processList
      ensures k.Shaped()
    {
      Kernel(pageFrameMap[..], freePageFrameCount, pageDirectoryUsed[..], pageDirectories[..], processList[..],
             activeProcessCount, currentPid, cr3)
    }

    constructor (c: Context)
      ensures Valid() && State() == Boot(c)
      ensures fresh(pageFrameMap) && fresh(pageDirectoryUsed) && fresh(pageDirectories) && fresh(processList)
    {
      pageFrameMap := new bool[FRAMES](i => i == 0);
      freePageFrameCount := FRAMES - 1;
      pageDirectoryUsed := new bool[DIRECTORIES](_ => false);
      var first, clear, kernel: PageDirectory := FreshDirectory()[0 := KERNEL_PDE], ClearDirectory(), FreshDirectory();
      pageDirectories := new PageDirectory[DIRECTORIES + 1](i =>
        if i == 0 then first else if i == KERNEL_DIRECTORY then kernel else clear);
      var idle := Pcb(0, Inactive, seq(MAX_PAGES, _ => 0), 0, NO_DIRECTORY, c);
      processList := new Pcb[PROCESSES](_ => idle);
      activeProcessCount, currentPid, cr3 := 0, -1, KERNEL_DIRECTORY;
      new;
      assert pageFrameMap[..] == Boot(c).frameUsed;
      assert pageDirectories[..] == Boot(c).directories;
      assert processList[..] == Boot(c).processes;
    }

    // ---- Page frames ----

    method UpdatePageDirectoryEntry(d: nat, virtual: nat, e: Pde)
      requires Valid() && d <= KERNEL_DIRECTORY
      modifies pageDirectories
      ensures State() == SetEntry(old(State()), d, virtual, e)
    {
      pageDirectories[d] := pageDirectories[d][PageIndex(virtual) := e];
    }

    method AllocateUserPageFrame(d: nat, virtual: nat) returns (ok: bool)
      requires Valid() && d <= KERNEL_DIRECTORY
      modifies this`freePageFrameCount, pageFrameMap, pageDirectories
      ensures State() == AllocateFrame(old(State()), d, virtual)
      ensures ok <==> old(freePageFrameCount) >= 1 && FirstFalse(old(pageFrameMap[..]), 0) < FRAMES
    {
      if 1 > freePageFrameCount {
        return false;
      }
      var i := 0;
      while i < FRAMES && pageFrameMap[i]
        invariant 0 <= i <= FRAMES && forall j :: 0 <= j < i ==> pageFrameMap[j]
      {
        i := i + 1;
      }
      FirstFalseIs(pageFrameMap[..], 0, i);
      if i == FRAMES {
        return false;
      }
      pageFrameMap[i] := true;
      freePageFrameCount := freePageFrameCount - 1;
      UpdatePageDirectoryEntry(d, virtual, UserPde(i));
      return true;
    }

    method FreeUserPageFrame(d: nat, virtual: nat) returns (ok: bool)
      requires Valid() && d <= KERNEL_DIRECTORY && pageDirectories[d][PageIndex(virtual)].frame < FRAMES
      modifies this`freePageFrameCount, pageFrameMap, pageDirectories
      ensures State() == FreeFrame(old(State()), d, virtual)
      ensures ok == old(pageDirectories[d][PageIndex(virtual)].present)
    {
      var e := pageDirectories[d][PageIndex(virtual)];
      if !e.present {
        return false;
      }
      pageFrameMap[e.frame] := false;
      freePageFrameCount := freePageFrameCount + 1;
      UpdatePageDirectoryEntry(d, virtual, NO_PDE);
      return true;
    }

    // ---- Page directories ----

    method CreateNewPageDirectory() returns (d: nat)
      requires Valid()
      modifies pageDirectoryUsed, pageDirectories
      ensures d == FreeDirectoryIndex(old(State()))
      ensures State() == if d == NO_DIRECTORY then old(State()) else UseDirectory(old(State()), d)
    {
      for i := 0 to DIRECTORIES
        invariant forall j :: 0 <= j < i ==> pageDirectoryUsed[j]
        invariant State() == old(State())
      {
        if !pageDirectoryUsed[i] {
          FirstFalseIs(pageDirectoryUsed[..], 0, i);
          pageDirectoryUsed[i] := true;
          pageDirectories[i] := FreshDirectory();
          return i;
        }
      }
      FirstFalseIs(pageDirectoryUsed[..], 0, DIRECTORIES);
      return NO_DIRECTORY;
    }

    method FreePageDirectory(d: nat) returns (ok: bool)
      requires Valid()
      modifies pageDirectoryUsed, pageDirectories
      ensures ok <==> d < DIRECTORIES
      ensures State() == if ok then ReleaseDirectory(old(State()), d) else old(State())
    {
      for i := 0 to DIRECTORIES
        invariant i <= d && State() == old(State())
      {
        if i == d {
          pageDirectories[i] := ClearDirectory();
          pageDirectoryUsed[i] := false;
          return true;
        }
      }
      return false;
    }

    // ---- Processes ----

    method GetInactiveIndex() returns (p: nat)
      requires Valid()
      ensures p == InactiveIndex(State())
    {
      for i := 0 to PROCESSES
        invariant forall j :: 0 <= j < i ==> processList[j].state != Inactive
      {
        if processList[i].state == Inactive {
          FirstFalseIs(Flags(processList[..]), 0, i);
          return i;
        }
      }
      FirstFalseIs(Flags(processList[..]), 0, PROCESSES);
      return PROCESSES;
    }

    method GenerateNewPid() returns (pid: nat)
      requires Valid()
      modifies this`activeProcessCount
      ensures pid == InactiveIndex(old(State())) && State() == old(State()).(active := old(State()).active + 1)
    {
      pid := GetInactiveIndex();
      activeProcessCount := activeProcessCount + 1;
    }

    // The loop of process_create_user_process that maps the pages and records their addresses.
    method MapPages(d: nat, p: nat, n: nat)
      requires Valid() && d <= KERNEL_DIRECTORY && p < PROCESSES && n <= MAX_PAGES
      modifies this`freePageFrameCount, pageFrameMap, pageDirectories, processList
      ensures Valid()
      ensures State() == AllocatePages(old(State()), d, n)
                           .(processes := old(State()).processes[p := old(State()).processes[p].(
                               pages := PageList(old(State()).processes[p].pages, n))])
    {
      ghost var was := State();
      assert PageList(was.processes[p].pages, 0) == was.processes[p].pages;
      for i := 0 to n
        invariant Valid()
        invariant State() == AllocatePages(was, d, i)
                               .(processes := was.processes[p := was.processes[p].(
                                   pages := PageList(was.processes[p].pages, i))])
      {
        var _ := AllocateUserPageFrame(d, i * PAGE_FRAME_SIZE);
        var pages := processList[p].pages;
        processList[p] := processList[p].(pages := pages[i := i * PAGE_FRAME_SIZE]);
        assert pages[i := i * PAGE_FRAME_SIZE] == PageList(was.processes[p].pages, i + 1);
      }
    }

    // The loop that frees the recorded pages of slot p from directory d.
    method UnmapPages(d: nat, p: nat, n: nat)
      requires Valid() && d <= KERNEL_DIRECTORY && p < PROCESSES && n <= MAX_PAGES && FramesInRange(State(), d)
      modifies this`freePageFrameCount, pageFrameMap, pageDirectories
      ensures State() == FreePages(old(State()), d, old(processList[p].pages), n)
    {
      ghost var was := State();
      for i := 0 to n
        invariant State() == FreePages(was, d, was.processes[p].pages, i)
      {
        assert FramesInRange(State(), d);
        assert pageDirectories[d][PageIndex(processList[p].pages[i])].frame < FRAMES;
        var _ := FreeUserPageFrame(d, processList[p].pages[i]);
      }
    }

    // readCode stands for what read(request) returns. outside: the code goes on to write through a null
    // page directory, or to a process slot past the last, and the model stops there.
    method CreateUserProcess(r: ExecRequest, readCode: int) returns (code: int, outside: bool)
      requires Valid()
      requires ExecDefined(State(), r) && AdmitCode(State(), r) == 0 ==>
                 FramesInRange(Prepared(State(), r), FreeDirectoryIndex(State()))
      modifies this, pageFrameMap, pageDirectoryUsed, pageDirectories, processList
      ensures Valid() && (outside <==> !ExecDefined(old(State()), r))
      ensures !outside ==> State() == Exec(old(State()), r, readCode) && code == ExecCode(old(State()), r, readCode)
      ensures outside ==> State() == DirectoryTaken(old(State()))
    {
      outside := false;
      if activeProcessCount >= PROCESSES {
        return 1, false;
      }
      if r.buf >= KERNEL_BASE {
        return 2, false;
      }
      var n := PagesNeeded(r.bufferSize);
      if n > freePageFrameCount || n > MAX_PAGES {
        return 3, false;
      }
      ghost var was := State();
      var p := GetInactiveIndex();
      var d := CreateNewPageDirectory();
      if d == NO_DIRECTORY || p == PROCESSES {
        return 0, true;
      }
      FillAddressSpace(was, r, p, d, n);
      if readCode != 0 {
        UnmapPages(d, p, n);
        return 4, false;
      }
      StartProcess(p, n);
      return 0, false;
    }

    // From recording the new directory to reading the file into it, which is done on that directory.
    method FillAddressSpace(ghost was: Kernel, r: ExecRequest, p: nat, d: nat, n: nat)
      requires Valid() && ExecDefined(was, r) && AdmitCode(was, r) == 0
      requires p == InactiveIndex(was) && d == FreeDirectoryIndex(was) && n == PagesNeeded(r.bufferSize)
      requires State() == UseDirectory(was, d)
      modifies this, pageFrameMap, pageDirectories, processList
      ensures Valid() && State() == Prepared(was, r) && InactiveIndex(State()) == p
    {
      processList[p] := processList[p].(directory := d);
      MapPages(d, p, n);
      AllocateIgnoresProcesses(UseDirectory(was, d), d, n, was.processes[p := was.processes[p].(directory := d)]);
      var curDir := cr3;
      cr3 := d;
      cr3 := curDir;
      assert Flags(processList[..]) == Flags(was.processes);
    }

    // The registers and metadata of the new process.
    method StartProcess(p: nat, n: nat)
      requires Valid() && p == InactiveIndex(State()) < PROCESSES
      modifies this`activeProcessCount, processList
      ensures Valid()
      ensures var was := old(State());
              State() == was.(processes := was.processes[p := was.processes[p].(
                                pid := p, state := Ready, pageCount := n,
                                context := InitialContext(was.processes[p].context))],
                              active := was.active + 1)
    {
      processList[p] := processList[p].(pageCount := n, context := InitialContext(processList[p].context));
      assert Flags(processList[..]) == Flags(old(processList[..]));
      var pid := GenerateNewPid();
      processList[p] := processList[p].(pid := pid, state := Ready);
    }

    // outside: the number names no slot, the code reads past the table, and the model stops there.
    method ProcessDestroy(pid: nat) returns (ok: bool, outside: bool)
      requires Valid() && (pid < PROCESSES ==> DestroyDefined(State(), pid))
      modifies this, pageFrameMap, pageDirectoryUsed, pageDirectories, processList
      ensures Valid() && (outside <==> pid >= PROCESSES)
      ensures !outside ==> ok == DestroyOk(old(State()), pid) && State() == Destroy(old(State()), pid)
      ensures outside ==> State() == old(State())
    {
      if pid >= PROCESSES {
        return false, true;
      }
      if processList[pid].state == Inactive {
        return false, false;
      }
      var b := processList[pid];
      UnmapPages(b.directory, pid, b.pageCount);
      var freed := FreePageDirectory(b.directory);
      if !freed {
        MapPages(b.directory, pid, b.pageCount);
        return false, false;
      }
      processList[pid] := processList[pid].(state := Inactive);
      activeProcessCount := activeProcessCount - 1;
      return true, false;
    }

    // ---- Scheduling ----

    method SaveContextToCurrentRunningPcb(c: Context)
      requires Valid() && 0 <= currentPid < PROCESSES
      modifies processList
      ensures Valid() && State() == Save(old(State()), c)
    {
      processList[currentPid] := processList[currentPid].(context := c, directory := cr3, state := Ready);
    }

    // The search, with the wrap-around inside the loop.
    method FindNext() returns (contextId: int)
      requires Valid() && SwitchDefined(State())
      ensures contextId == Chosen(State())
    {
      ghost var k, d := State(), 1;
      contextId := currentPid + 1;
      while contextId != currentPid
        invariant 1 <= d <= PROCESSES && NextReady(k, 1) == NextReady(k, d)
        invariant contextId == if currentPid + d <= PROCESSES then currentPid + d else currentPid + d - PROCESSES
        decreases PROCESSES - d
      {
        if contextId >= PROCESSES {
          contextId := 0;
        }
        SlotValue(currentPid, d);
        LastTurn(k, d);
        if processList[contextId].state == Ready {
          break;
        }
        contextId := contextId + 1;
        d := d + 1;
      }
      SlotValue(currentPid, d);
      LastTurn(k, d);
    }

    method SwitchToNextProcess()
      requires Valid() && SwitchDefined(State())
      modifies this`currentPid, this`cr3, processList
      ensures Valid() && State() == Switch(old(State()))
    {
      var contextId := FindNext();
      var next := processList[contextId];
      processList[contextId] := next.(state := Running);
      currentPid := contextId;
      cr3 := next.directory;
    }

    // ---- Interrupts and system calls ----

    method TimerInterrupt(c: Context)
      requires Valid() && 0 <= currentPid < PROCESSES
      modifies this`currentPid, this`cr3, processList
      ensures Valid() && State() == Tick(old(State()), c)
    {
      SaveContextToCurrentRunningPcb(c);
      SavedIsReady(State(), 1);
      SwitchToNextProcess();
    }

    method ExitProcess()
      requires Valid() && ExitInBounds(State())
      modifies this, pageFrameMap, pageDirectoryUsed, pageDirectories, processList
      ensures Valid() && State() == Exit(old(State()))
    {
      cr3 := processList[0].directory;
      var _, _ := ProcessDestroy(processList[currentPid].pid);
      SwitchToNextProcess();
    }

    method KillProcess(first: int, second: int) returns (ret: int, outside: bool)
      requires Valid() && (DecodePid(first, second) < PROCESSES ==> DestroyDefined(State(), DecodePid(first, second)))
      modifies this, pageFrameMap, pageDirectoryUsed, pageDirectories, processList
      ensures Valid() && (outside <==> DecodePid(first, second) >= PROCESSES)
      ensures !outside ==> State() == Destroy(old(State()), DecodePid(first, second))
                           && ret == (if DestroyOk(old(State()), DecodePid(first, second)) then 0 else 1)
      ensures outside ==> State() == old(State())
    {
      var pid;
      if first != 0 && second == 0 {
        pid := first - ZERO_DIGIT;
      } else {
        pid := first - ZERO_DIGIT;
        var tens := second - ZERO_DIGIT;
        pid := pid + tens * 10;
      }
      var ok;
      ok, outside := ProcessDestroy(pid % WORD);
      ret := if ok then 0 else 1;
    }
  }

  // Allocating pages neither reads nor writes the process list.
  lemma {:induction false} AllocateIgnoresProcesses(k: Kernel, d: nat, n: nat, ps: seq<Pcb>)
    requires k.Shaped() && k.(processes := ps).Shaped() && d <= KERNEL_DIRECTORY
    ensures AllocatePages(k.(processes := ps), d, n) == AllocatePages(k, d, n).(processes := ps)
  {
    if n > 0 {
      AllocateIgnoresProcesses(k, d, n - 1, ps);
    }
  }

  lemma SlotValue(current: int, d: nat)
    requires -1 <= current < PROCESSES && 1 <= d <= PROCESSES
    ensures SlotAt(current, d) == if current + d < PROCESSES then current + d else current + d - PROCESSES
  {
  }

  // Only the sixteenth turn looks at the current slot; when nothing before it was Ready, and the search
  // has not ended there, it is Ready.
  lemma LastTurn(k: Kernel, d: nat)
    requires SwitchDefined(k) && 1 <= d <= PROCESSES && NextReady(k, 1) == NextReady(k, d)
    ensures SlotAt(k.current, d) == k.current <==> d == PROCESSES && k.current != -1
    ensures d == PROCESSES && k.current <= 0 ==> k.processes[SlotAt(k.current, d)].state == Ready
    ensures k.processes[SlotAt(k.current, d)].state == Ready ==> Chosen(k) == SlotAt(k.current, d)
    ensures d == PROCESSES && k.current > 0 ==> Chosen(k) == k.current
  {
    SlotValue(k.current, d);
    var slot := SlotAt(k.current, d);
    if k.processes[slot].state == Ready {
      assert NextReady(k, d) == slot;
    } else if d == PROCESSES {
      assert NextReady(k, d + 1) == PROCESSES;
      assert NextReady(k, d) == PROCESSES;
    }
  }
}
