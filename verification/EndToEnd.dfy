/**
 Results that join the parts: a preempted process resumes with its registers after any legal run of the
 kernel, and a program read from the file system lands in the pages mapped for it.
 */
module EndToEnd {
  import Registers
  import CS = ContextSwitch
  import KS = KernelState
  import KI = KernelInvariant
  import KR = KernelRuns
  import KL = KernelLimits
  import FS = FileSystem
  import VI = VolumeInvariant
  import VO = VolumeOperations
  import FT = FileSystemTheorems

  // In state end process k.current runs, on the directory and with the mappings it had in k, and with
  // the registers of u but for eax, which is u's too once the two loads of process_context_switch are
  // swapped.
  ghost predicate Resumes(k: KS.Kernel, end: KS.Kernel, u: CS.Cpu, m: CS.Memory)
    requires k.Shaped() && end.Shaped() && KR.OneRunning(k)
  {
    && end.current == k.current
    && var d, c := k.processes[k.current].directory, end.processes[k.current].context;
    && end.cr3 == d && d < KS.DIRECTORIES && end.directories[d] == k.directories[d]
    && CS.Resumed(c, m) == u.(eax := m(CS.WrappedOffset(u.ecx, 28)))
    && CS.Resumed(c, m).(eax := c.eax) == u
  }

  // A process in user state u is preempted by the timer and is not killed. Within 16 switches, whatever
  // else runs, execs, exits or is killed, it resumes.
  lemma PreemptedProcessResumes(k: KS.Kernel, o: KI.Owners, u: CS.Cpu, esp0: Registers.word, es: seq<KR.Event>, m: CS.Memory)
    requires KR.Inv(k, o) && esp0 >= 100 && CS.UserMode(u) && u.ds % 4 != 0
    requires KR.RunLegal(k, o, [KR.Timer(CS.SavedContext(u, esp0))] + es)
    requires KR.KillCall(k.current) !in es && KR.Switches(es) >= KS.PROCESSES
    ensures exists n: nat :: n <= |es| && KR.Switches(es[..n]) <= KS.PROCESSES
                             && ResumesAfter(k, o, KR.Timer(CS.SavedContext(u, esp0)), es, u, m, n)
  {
    var c := CS.SavedContext(u, esp0);
    var e0 := KR.Timer(c);
    assert ([e0] + es)[0] == e0 && ([e0] + es)[1..] == es;
    KR.StepKeeps(k, o, e0);
    TickSaves(k, o, c);
    var n := SavedProcessResumes(k, KS.Tick(k, c), o, u, esp0, es, m);
    assert ResumesAfter(k, o, e0, es, u, m, n);
  }

  lemma SavedProcessResumes(k: KS.Kernel, k1: KS.Kernel, o: KI.Owners, u: CS.Cpu, esp0: Registers.word,
                            es: seq<KR.Event>, m: CS.Memory) returns (n: nat)
    requires KR.Inv(k, o) && KR.Inv(k1, o) && esp0 >= 100 && CS.UserMode(u) && u.ds % 4 != 0
    requires Saved(k, k1, CS.SavedContext(u, esp0))
    requires KR.RunLegal(k1, o, es) && KR.KillCall(k.current) !in es && KR.Switches(es) >= KS.PROCESSES
    ensures n <= |es| && KR.Switches(es[..n]) <= KS.PROCESSES
    ensures KR.RunLegal(k1, o, es[..n]) && Resumes(k, KR.Run(k1, o, es[..n]).0, u, m)
  {
    var j := k.current;
    if k1.current == j {
      n := 0;
      assert es[..0] == [];
      RegistersBack(k, k1, u, esp0, m);
    } else {
      KR.SlotOfDistance(k1.current, j);
      n := KR.ServedWithinDistance(k1, o, es, j);
      RegistersBack(k, KR.Run(k1, o, es[..n]).0, u, esp0, m);
    }
  }

  // The process resumes in the state that event e0 and the first n events of es lead to.
  ghost predicate ResumesAfter(k: KS.Kernel, o: KI.Owners, e0: KR.Event, es: seq<KR.Event>, u: CS.Cpu, m: CS.Memory, n: nat)
    requires KR.Inv(k, o) && KR.Legal(k, e0) && n <= |es|
  {
    KR.StepKeeps(k, o, e0);
    && KR.RunLegal(KR.Step(k, e0), KR.StepOwners(k, o, e0), es[..n])
    && Resumes(k, KR.Run(KR.Step(k, e0), KR.StepOwners(k, o, e0), es[..n]).0, u, m)
  }

  lemma RegistersBack(k: KS.Kernel, end: KS.Kernel, u: CS.Cpu, esp0: Registers.word, m: CS.Memory)
    requires k.Shaped() && end.Shaped() && KR.OneRunning(k) && end.current == k.current
    requires esp0 >= 100 && CS.UserMode(u) && u.ds % 4 != 0
    requires end.processes[k.current].context == CS.SavedContext(u, esp0)
    requires var d := k.processes[k.current].directory;
             end.cr3 == d && d < KS.DIRECTORIES && end.directories[d] == k.directories[d]
    ensures Resumes(k, end, u, m)
  {
    CS.PreemptResume(u, esp0, m);
    CS.PreemptResumeSwapped(u, esp0, m);
  }

  // The registers are recorded, and no directory nor which one the process uses has changed.
  ghost predicate Saved(k: KS.Kernel, k1: KS.Kernel, c: Registers.Context)
    requires k.Shaped() && k1.Shaped() && KR.OneRunning(k)
  {
    && k1.directories == k.directories
    && k1.processes[k.current].context == c
    && k1.processes[k.current].directory == k.processes[k.current].directory < KS.DIRECTORIES
    && (k1.current != k.current ==> k1.processes[k.current].state == KS.Ready)
    && (k1.current == k.current ==> k1.cr3 == k.processes[k.current].directory)
  }

  lemma TickSaves(k: KS.Kernel, o: KI.Owners, c: Registers.Context)
    requires KR.Inv(k, o)
    ensures Saved(k, KS.Tick(k, c), c)
  {
    assert KI.ProcessOk(k, o, k.current);
  }

  // A process switched to for the first time starts at address 0 in user mode, with its stack at the end
  // of page 0, its registers zero and interrupts enabled; no other flag is touched.
  lemma NewProcessStarts(was: Registers.Context, m: CS.Memory)
    ensures var v := CS.Resumed(KS.InitialContext(was), m);
            && CS.UserMode(v) && v.cs % 4 == 3 && v.ss % 4 == 3
            && v.eip == 0 && v.esp == 0x3F_FFFC && KS.PageIndex(v.esp) == 0
            && v.ds == v.es == v.fs == v.gs == Registers.USER_DATA_SELECTOR && v.ds % 4 == 3
            && v.edi == v.esi == v.ebp == v.ebx == v.edx == v.ecx == 0
            && v.eflags / 0x200 % 2 == 1 && v.eflags / 0x2 % 2 == 1
            && Registers.SameOtherFlags(was.eflags, v.eflags)
  {
    Registers.BaseFlags(was.eflags);
  }

  // After a successful exec the page of the new process's stack, which is also that of its first
  // instruction, can be read and written from user mode exactly when the page count is not zero; it is
  // not zero unless it wrapped around.
  lemma NewProcessHasStack(k: KS.Kernel, o: KI.Owners, r: KS.ExecRequest)
    requires KI.Resources(k, o) && KS.ExecDefined(k, r) && KS.AdmitCode(k, r) == 0
    ensures KS.FramesInRange(KS.Prepared(k, r), KS.FreeDirectoryIndex(k)) && KS.InactiveIndex(k) < KS.PROCESSES
    ensures var k', p := KS.Exec(k, r, 0), KS.InactiveIndex(k);
            var c := k'.processes[p].context;
            && c.eip == 0 && c.esp == 0x3F_FFFC
            && (KR.UserPage(k', p, KS.PageIndex(c.esp)) <==> KS.PagesNeeded(r.bufferSize) > 0)
            && (KR.UserPage(k', p, KS.PageIndex(c.eip)) <==> KS.PagesNeeded(r.bufferSize) > 0)
    ensures r.bufferSize + 0x80_0000 <= 0x1_0000_0000 ==> KS.PagesNeeded(r.bufferSize) > 0
  {
    KI.SuccessfulExecKeeps(k, o, r);
    KI.ExecPicks(k, o, r);
    var k', p := KS.Exec(k, r, 0), KS.InactiveIndex(k);
    KR.PagesAreUser(k', KI.ExecOwners(k, o, r, 0), p, 0);
    assert KS.PageIndex(0x3F_FFFC) == KS.PageIndex(0) == 0;
    if r.bufferSize + 0x80_0000 <= 0x1_0000_0000 {
      KL.PagesAreLeast(r.bufferSize);
    }
  }

  // Address a lies in a page that directory d maps, for user access, to a frame of process p.
  ghost predicate StoresInto(k: KS.Kernel, d: nat, frames: seq<KI.FrameOwner>, p: nat, a: nat)
    requires k.Shaped() && d <= KS.KERNEL_DIRECTORY && |frames| == KS.FRAMES
  {
    var i := KS.PageIndex(a);
    var f := k.directories[d][i].frame;
    k.directories[d][i] == KS.UserPde(f) && f < KS.FRAMES && frames[f] == KI.PageOf(p, i)
  }

  // exec reads the file into the new address space. Every byte the read stores lies in a page that the
  // new directory maps to a frame of the new process alone, which was free before, and there are at most
  // 8 such pages; provided the load address is in the first frame and the page count did not wrap around.
  lemma LoadedProgramFits(v: FS.Volume, g: VI.Shape, k: KS.Kernel, o: KI.Owners, q: FS.Request, buf: nat)
    requires VO.WellFormed(v, g) && q.parent in g.dirs && FT.AimsAtDirectory(v, g, q) && FS.ReadCode(v, q) == 0
    requires KI.Resources(k, o) && KS.ExecDefined(k, KS.ExecRequest(buf, q.bufferSize))
    requires KS.AdmitCode(k, KS.ExecRequest(buf, q.bufferSize)) == 0
    requires buf <= KS.PAGE_FRAME_SIZE && q.bufferSize + 2 * KS.PAGE_FRAME_SIZE - 1 < KS.WORD
    ensures FS.ReadDefined(v, q) && KS.PagesNeeded(q.bufferSize) <= KS.MAX_PAGES
    ensures var r := KS.ExecRequest(buf, q.bufferSize);
            var d, p, frames := KS.FreeDirectoryIndex(k), KS.InactiveIndex(k), KI.ExecOwners(k, o, r, 0).frames;
            && (forall a: nat {:trigger KS.PageIndex(a)} :: buf <= a < buf + |FS.ReadData(v, q)| ==>
                  StoresInto(KS.Prepared(k, r), d, frames, p, a))
            && (forall f: nat :: f < KS.FRAMES && frames[f].PageOf? && frames[f].process == p ==>
                  o.frames[f] == KI.Unowned)
  {
    var r := KS.ExecRequest(buf, q.bufferSize);
    var d, p, n := KS.FreeDirectoryIndex(k), KS.InactiveIndex(k), KS.PagesNeeded(q.bufferSize);
    FT.WellFormedIsReady(v, g, q);
    FT.ReadRefines(v, g, q);
    KL.LoadFits(k, r, |FS.ReadData(v, q)|);
    KI.ExecPicks(k, o, r);
    KI.PreparedMaps(k, o, r);
    var k1, frames := KS.Prepared(k, r), KI.ExecOwners(k, o, r, 0).frames;
    forall a: nat | buf <= a < buf + |FS.ReadData(v, q)| ensures StoresInto(k1, d, frames, p, a) {
      PageBelow(a, n);
      assert KI.PageMapped(k1.directories[d], frames, p, KS.PageIndex(a));
    }
    forall f: nat | f < KS.FRAMES && frames[f].PageOf? && frames[f].process == p ensures o.frames[f] == KI.Unowned {
      assert KI.FrameOnPage(KS.FreshDirectory(), o.frames, p, 0, f);
    }
  }

  lemma PageBelow(a: nat, n: nat)
    requires a < n * KS.PAGE_FRAME_SIZE && n <= KS.MAX_PAGES
    ensures KS.PageIndex(a) < n
  {
  }
}
