/**
 Processes, page frames and page directories, and what each system call and timer tick does to them,
 as functions from the state before to the state after. The class in KernelMachine.dfy computes them.
 */
module KernelState {
  import opened Counting
  import opened Registers

  const FRAMES: nat := 32
  const DIRECTORIES: nat := 32
  const PROCESSES: nat := 16
  const MAX_PAGES: nat := 8
  const PAGE_ENTRIES: nat := 1024
  const PAGE_FRAME_SIZE: nat := 0x40_0000
  const KERNEL_BASE: nat := 0xC000_0000
  const KERNEL_ENTRY: nat := 0x300
  const WORD: nat := 0x1_0000_0000

  // Page directories are named by their index in page_directory_list; one more is the kernel's own,
  // which is not in that list, and the index after it stands for NULL.
  const KERNEL_DIRECTORY: nat := 32
  const NO_DIRECTORY: nat := 33

  datatype Pde = Pde(present: bool, writable: bool, user: bool, large: bool, frame: nat)

  const NO_PDE := Pde(false, false, false, false, 0)
  const KERNEL_PDE := Pde(true, true, false, true, 0)

  function UserPde(frame: nat): Pde {
    Pde(true, true, true, true, frame)
  }

  type PageDirectory = d: seq<Pde> | |d| == PAGE_ENTRIES witness seq(PAGE_ENTRIES, _ => NO_PDE)

  function ClearDirectory(): PageDirectory {
    seq(PAGE_ENTRIES, _ => NO_PDE)
  }

  // A directory as paging_create_new_page_directory makes it: only the kernel's higher half.
  function FreshDirectory(): PageDirectory {
    ClearDirectory()[KERNEL_ENTRY := KERNEL_PDE]
  }

  datatype ProcessState = Inactive | Ready | Running | Waiting

  datatype Pcb = Pcb(pid: nat, state: ProcessState, pages: seq<nat>, pageCount: nat, directory: nat, context: Context)

  datatype Kernel = Kernel(
    frameUsed: seq<bool>,
    freeCount: int,
    directoryUsed: seq<bool>,
    directories: seq<PageDirectory>,
    processes: seq<Pcb>,
    active: int,
    current: int,
    cr3: nat)
  {
    predicate Shaped() {
      && |frameUsed| == FRAMES && |directoryUsed| == DIRECTORIES && |directories| == DIRECTORIES + 1
      && |processes| == PROCESSES && forall p :: 0 <= p < PROCESSES ==> |processes[p].pages| == MAX_PAGES
    }

    predicate Live(p: nat)
      requires Shaped()
    {
      p < PROCESSES && processes[p].state != Inactive
    }
  }

  // ---- Page frames ----

  function PageIndex(virtual: nat): (i: nat)
    ensures i < PAGE_ENTRIES
  {
    virtual / PAGE_FRAME_SIZE % PAGE_ENTRIES
  }

  // update_page_directory_entry
  function SetEntry(k: Kernel, d: nat, virtual: nat, e: Pde): (k': Kernel)
    requires k.Shaped() && d <= KERNEL_DIRECTORY
    ensures k'.Shaped()
  {
    k.(directories := k.directories[d := k.directories[d][PageIndex(virtual) := e]])
  }

  // paging_allocate_user_page_frame
  function AllocateFrame(k: Kernel, d: nat, virtual: nat): (k': Kernel)
    requires k.Shaped() && d <= KERNEL_DIRECTORY
    ensures k'.Shaped()
  {
    var f := FirstFalse(k.frameUsed, 0);
    if 1 > k.freeCount || f == FRAMES then k
    else SetEntry(k.(frameUsed := k.frameUsed[f := true], freeCount := k.freeCount - 1), d, virtual, UserPde(f))
  }

  // paging_free_user_page_frame. The freed frame must be one the map has.
  function FreeFrame(k: Kernel, d: nat, virtual: nat): (k': Kernel)
    requires k.Shaped() && d <= KERNEL_DIRECTORY
    requires k.directories[d][PageIndex(virtual)].frame < FRAMES
    ensures k'.Shaped()
  {
    var e := k.directories[d][PageIndex(virtual)];
    if !e.present then k
    else SetEntry(k.(frameUsed := k.frameUsed[e.frame := false], freeCount := k.freeCount + 1), d, virtual, NO_PDE)
  }

  // Pages 0 to n - 1 allocated in order.
  function AllocatePages(k: Kernel, d: nat, n: nat): (k': Kernel)
    requires k.Shaped() && d <= KERNEL_DIRECTORY
    ensures k'.Shaped()
    ensures k' == k.(frameUsed := k'.frameUsed, freeCount := k'.freeCount, directories := k'.directories)
  {
    if n == 0 then k else AllocateFrame(AllocatePages(k, d, n - 1), d, (n - 1) * PAGE_FRAME_SIZE)
  }

  // Every entry of directory d names a frame of the map.
  ghost predicate FramesInRange(k: Kernel, d: nat)
    requires k.Shaped() && d <= KERNEL_DIRECTORY
  {
    forall i: nat :: i < PAGE_ENTRIES ==> k.directories[d][i].frame < FRAMES
  }

  // The first n recorded pages freed in order.
  ghost function FreePages(k: Kernel, d: nat, pages: seq<nat>, n: nat): (k': Kernel)
    requires k.Shaped() && d <= KERNEL_DIRECTORY && n <= |pages| && FramesInRange(k, d)
    ensures k'.Shaped() && FramesInRange(k', d)
    ensures k' == k.(frameUsed := k'.frameUsed, freeCount := k'.freeCount, directories := k'.directories)
  {
    if n == 0 then k else FreeFrame(FreePages(k, d, pages, n - 1), d, pages[n - 1])
  }

  // ---- Page directories ----

  // paging_create_new_page_directory: the index found, or NO_DIRECTORY.
  function FreeDirectoryIndex(k: Kernel): nat
    requires k.Shaped()
  {
    var i := FirstFalse(k.directoryUsed, 0);
    if i < DIRECTORIES then i else NO_DIRECTORY
  }

  function UseDirectory(k: Kernel, d: nat): (k': Kernel)
    requires k.Shaped() && d < DIRECTORIES
    ensures k'.Shaped()
  {
    k.(directoryUsed := k.directoryUsed[d := true], directories := k.directories[d := FreshDirectory()])
  }

  // paging_free_page_directory, when it finds d in its list.
  function ReleaseDirectory(k: Kernel, d: nat): (k': Kernel)
    requires k.Shaped() && d < DIRECTORIES
    ensures k'.Shaped()
  {
    k.(directories := k.directories[d := ClearDirectory()], directoryUsed := k.directoryUsed[d := false])
  }

  // ---- Creating a process ----

  datatype ExecRequest = ExecRequest(buf: nat, bufferSize: nat)

  // Unsigned 32-bit arithmetic, wrap-around included.
  function CeilDiv(numerator: nat, denominator: nat): nat
    requires denominator > 0
  {
    ((numerator + denominator - 1) % WORD) / denominator
  }

  function PagesNeeded(bufferSize: nat): nat {
    CeilDiv((bufferSize + PAGE_FRAME_SIZE) % WORD, PAGE_FRAME_SIZE)
  }

  function Flags(s: seq<Pcb>): (f: seq<bool>)
    ensures |f| == |s| && forall p :: 0 <= p < |s| ==> f[p] == (s[p].state != Inactive)
  {
    seq(|s|, p requires 0 <= p < |s| => s[p].state != Inactive)
  }

  // process_list_get_inactive_index
  function InactiveIndex(k: Kernel): nat
    requires k.Shaped()
  {
    FirstFalse(Flags(k.processes), 0)
  }

  // The checks made before anything is allocated: 0 when they pass.
  function AdmitCode(k: Kernel, r: ExecRequest): int {
    if k.active >= PROCESSES then 1
    else if r.buf >= KERNEL_BASE then 2
    else if PagesNeeded(r.bufferSize) > k.freeCount || PagesNeeded(r.bufferSize) > MAX_PAGES then 3
    else 0
  }

  // Past the checks, the code dereferences the directory and process slot it was given.
  predicate ExecDefined(k: Kernel, r: ExecRequest) {
    k.Shaped() && (AdmitCode(k, r) == 0 ==> FreeDirectoryIndex(k) < DIRECTORIES && InactiveIndex(k) < PROCESSES)
  }

  function PageList(was: seq<nat>, n: nat): (pages: seq<nat>)
    ensures |pages| == |was|
    ensures forall i :: 0 <= i < |was| ==> pages[i] == if i < n then i * PAGE_FRAME_SIZE else was[i]
  {
    seq(|was|, i requires 0 <= i < |was| => if i < n then i * PAGE_FRAME_SIZE else was[i])
  }

  // The state when the file is about to be read into the new address space.
  function Prepared(k: Kernel, r: ExecRequest): (k': Kernel)
    requires ExecDefined(k, r) && AdmitCode(k, r) == 0
    ensures k'.Shaped()
  {
    var n, d, p := PagesNeeded(r.bufferSize), FreeDirectoryIndex(k), InactiveIndex(k);
    var k1 := AllocatePages(UseDirectory(k, d), d, n);
    k1.(processes := k.processes[p := k.processes[p].(directory := d, pages := PageList(k.processes[p].pages, n))])
  }

  // Registers of a process that has not run yet. Stale eflags bits of the slot are kept.
  function InitialContext(was: Context): Context {
    Context(0, 0, 0, 0x40_0000 - 4, 0, 0, 0, 0, USER_DATA_SELECTOR, USER_DATA_SELECTOR, USER_DATA_SELECTOR,
            USER_DATA_SELECTOR, 0, WithBit(WithBit(was.eflags, 0x2), 0x200))
  }

  function ExecCode(k: Kernel, r: ExecRequest, readCode: int): int {
    if AdmitCode(k, r) != 0 then AdmitCode(k, r) else if readCode != 0 then 4 else 0
  }

  // process_create_user_process; readCode is what the file system's read returned.
  ghost function Exec(k: Kernel, r: ExecRequest, readCode: int): (k': Kernel)
    requires ExecDefined(k, r)
    requires AdmitCode(k, r) == 0 ==> FramesInRange(Prepared(k, r), FreeDirectoryIndex(k))
    ensures k'.Shaped()
  {
    if AdmitCode(k, r) != 0 then k
    else
      var n, d, p, k1 := PagesNeeded(r.bufferSize), FreeDirectoryIndex(k), InactiveIndex(k), Prepared(k, r);
      if readCode != 0 then FreePages(k1, d, k1.processes[p].pages, n)
      else
        k1.(processes := k1.processes[p := k1.processes[p].(pid := p, state := Ready, pageCount := n,
                                                            context := InitialContext(k.processes[p].context))],
            active := k1.active + 1)
  }

  // What has happened when an admitted exec finds no page directory, or no process slot.
  function DirectoryTaken(k: Kernel): (k': Kernel)
    requires k.Shaped()
  {
    if FreeDirectoryIndex(k) < DIRECTORIES then UseDirectory(k, FreeDirectoryIndex(k)) else k
  }

  // ---- Destroying a process ----

  // The array and directory accesses process_destroy makes are in bounds.
  ghost predicate DestroyDefined(k: Kernel, pid: nat) {
    && k.Shaped() && pid < PROCESSES
    && (k.Live(pid) ==>
          var b := k.processes[pid];
          b.directory <= KERNEL_DIRECTORY && b.pageCount <= MAX_PAGES && FramesInRange(k, b.directory))
  }

  ghost function DestroyOk(k: Kernel, pid: nat): bool
    requires DestroyDefined(k, pid)
  {
    k.Live(pid) && k.processes[pid].directory < DIRECTORIES
  }

  // process_destroy. A directory outside the list makes it allocate the pages again and give up.
  ghost function Destroy(k: Kernel, pid: nat): (k': Kernel)
    requires DestroyDefined(k, pid)
    ensures k'.Shaped()
  {
    if !k.Live(pid) then k
    else
      var b := k.processes[pid];
      var k1 := FreePages(k, b.directory, b.pages, b.pageCount);
      if b.directory >= DIRECTORIES then
        AllocatePages(k1, b.directory, b.pageCount)
          .(processes := k.processes[pid := b.(pages := PageList(b.pages, b.pageCount))])
      else
        var k2 := ReleaseDirectory(k1, b.directory);
        k2.(processes := k2.processes[pid := k2.processes[pid].(state := Inactive)], active := k2.active - 1)
  }

  // ---- Scheduling ----

  // How many turns of the search it takes to look at slot j.
  function Distance(current: int, j: int): int {
    if j > current then j - current else j - current + PROCESSES
  }

  function SlotAt(current: int, d: nat): (p: nat)
    requires -1 <= current < PROCESSES && 1 <= d
    ensures p < PROCESSES
  {
    (current + d) % PROCESSES
  }

  // The first Ready slot at distance d or more, or PROCESSES.
  function NextReady(k: Kernel, d: nat): (p: nat)
    requires k.Shaped() && -1 <= k.current < PROCESSES && 1 <= d <= PROCESSES + 1
    ensures p < PROCESSES ==> k.processes[p].state == Ready
    decreases PROCESSES + 1 - d
  {
    if d == PROCESSES + 1 then PROCESSES
    else if k.processes[SlotAt(k.current, d)].state == Ready then SlotAt(k.current, d)
    else NextReady(k, d + 1)
  }

  // The search of scheduler_switch_to_next_process ends: something is Ready, or it comes back round
  // to a current slot other than 0, which it then takes without looking at its state.
  predicate SwitchDefined(k: Kernel) {
    && k.Shaped() && -1 <= k.current < PROCESSES
    && (NextReady(k, 1) < PROCESSES || k.current > 0)
  }

  function Chosen(k: Kernel): (p: nat)
    requires SwitchDefined(k)
    ensures p < PROCESSES
  {
    if NextReady(k, 1) < PROCESSES then NextReady(k, 1) else k.current
  }

  function Switch(k: Kernel): (k': Kernel)
    requires SwitchDefined(k)
    ensures k'.Shaped()
  {
    var p := Chosen(k);
    k.(processes := k.processes[p := k.processes[p].(state := Running)], current := p,
       cr3 := k.processes[p].directory)
  }

  // scheduler_save_context_to_current_running_pcb
  function Save(k: Kernel, c: Context): (k': Kernel)
    requires k.Shaped() && 0 <= k.current < PROCESSES
    ensures k'.Shaped()
  {
    k.(processes := k.processes[k.current :=
                      k.processes[k.current].(context := c, directory := k.cr3, state := Ready)])
  }

  // ---- The interrupts and system calls that change this state ----

  // Directory d maps the kernel, which cannot run on a directory that does not.
  predicate MapsKernel(k: Kernel, d: nat)
    requires k.Shaped()
  {
    d <= KERNEL_DIRECTORY && k.directories[d][KERNEL_ENTRY] == KERNEL_PDE
  }

  // 0x20, the timer. The saved slot is Ready, so the search ends.
  function Tick(k: Kernel, c: Context): (k': Kernel)
    requires k.Shaped() && 0 <= k.current < PROCESSES
    ensures k'.Shaped()
  {
    SavedIsReady(Save(k, c), 1);
    Switch(Save(k, c))
  }

  lemma {:induction false} SavedIsReady(k: Kernel, d: nat)
    requires k.Shaped() && 0 <= k.current < PROCESSES && k.processes[k.current].state == Ready && 1 <= d <= PROCESSES
    ensures NextReady(k, d) < PROCESSES
    decreases PROCESSES - d
  {
    if d < PROCESSES {
      SavedIsReady(k, d + 1);
    }
  }

  // System call 10, exit: run on process 0's directory, live or not, destroy the caller, take the next.
  function ExitLoaded(k: Kernel): (k': Kernel)
    requires k.Shaped()
    ensures k'.Shaped()
  {
    k.(cr3 := k.processes[0].directory)
  }

  // The accesses are in bounds and the search ends.
  ghost predicate ExitInBounds(k: Kernel) {
    && k.Shaped() && 0 <= k.current < PROCESSES
    && DestroyDefined(k, k.processes[k.current].pid)
    && SwitchDefined(Destroy(ExitLoaded(k), k.processes[k.current].pid))
  }

  // The kernel is mapped by the directory it loads, and still is when the caller has been destroyed.
  ghost predicate ExitMapped(k: Kernel)
    requires k.Shaped() && 0 <= k.current < PROCESSES && DestroyDefined(k, k.processes[k.current].pid)
  {
    && MapsKernel(ExitLoaded(k), k.processes[0].directory)
    && MapsKernel(Destroy(ExitLoaded(k), k.processes[k.current].pid), k.processes[0].directory)
  }

  ghost predicate ExitDefined(k: Kernel) {
    ExitInBounds(k) && ExitMapped(k)
  }

  ghost function Exit(k: Kernel): (k': Kernel)
    requires ExitInBounds(k)
    ensures k'.Shaped()
  {
    Switch(Destroy(ExitLoaded(k), k.processes[k.current].pid))
  }

  // System call 11, kill: the number of the process from two characters, the first as the units. A
  // single one is recognised by the zero after it. The result is converted to 32 unsigned bits.
  function DecodePid(first: int, second: int): (pid: nat)
    ensures pid < WORD
  {
    (if first != 0 && second == 0 then first - ZERO_DIGIT else first - ZERO_DIGIT + (second - ZERO_DIGIT) * 10) % WORD
  }

  const ZERO_DIGIT: int := 0x30

  // The state at boot: frame 0 is in use, and no process is. The first listed directory still holds
  // the kernel's identity mapping it was compiled with.
  function Boot(c: Context): (k: Kernel)
    ensures k.Shaped()
  {
    Kernel([true] + seq(FRAMES - 1, _ => false), FRAMES - 1, seq(DIRECTORIES, _ => false),
           [FreshDirectory()[0 := KERNEL_PDE]] + seq<PageDirectory>(DIRECTORIES - 1, _ => ClearDirectory())
           + [FreshDirectory()],
           seq(PROCESSES, _ => Pcb(0, Inactive, seq(MAX_PAGES, _ => 0), 0, NO_DIRECTORY, c)), 0, -1, KERNEL_DIRECTORY)
  }
}
