/**
 The assembly on both sides of a preemption: the interrupt entry that saves the registers in a frame,
 the normal return from an interrupt, and the jump into a process's saved context.
 */
module ContextSwitch {
  import opened Registers

  datatype Cpu = Cpu(
    edi: word, esi: word, ebp: word, esp: word,
    ebx: word, edx: word, ecx: word, eax: word,
    gs: word, fs: word, es: word, ds: word,
    cs: word, ss: word, eip: word, eflags: word)

  // Words of memory by address.
  type Memory = int -> word

  function Stored(m: Memory, a: int, w: word): (m': Memory)
    ensures forall x :: m'(x) == if x == a then w else m(x)
  {
    (x: int) => if x == a then w else m(x)
  }

  // Outside the bytes from lo up to hi, memory is unchanged.
  ghost predicate SameOutside(m: Memory, m': Memory, lo: int, hi: int) {
    forall a {:trigger m'(a)} :: a < lo || a >= hi ==> m'(a) == m(a)
  }

  // What the processor pushes on an interrupt from user mode, with the error code and vector.
  predicate RaisedAt(m: Memory, a: int, u: Cpu, vector: word, errorCode: word) {
    && m(a) == vector && m(a + 4) == errorCode && m(a + 8) == u.eip && m(a + 12) == u.cs && m(a + 16) == u.eflags
    && m(a + 20) == u.esp && m(a + 24) == u.ss
  }

  predicate SegmentsAt(m: Memory, a: int, u: Cpu) {
    m(a) == u.gs && m(a + 4) == u.fs && m(a + 8) == u.es && m(a + 12) == u.ds
  }

  predicate GeneralAt(m: Memory, a: int, u: Cpu, savedEsp: word) {
    && m(a) == u.edi && m(a + 4) == u.esi && m(a + 8) == u.ebp && m(a + 12) == savedEsp
    && m(a + 16) == u.ebx && m(a + 20) == u.edx && m(a + 24) == u.ecx && m(a + 28) == u.eax
  }

  // The stack as the handler finds it: struct InterruptFrame, then the stack pointer and segment.
  predicate FrameAt(m: Memory, a: int, u: Cpu, savedEsp: word, vector: word, errorCode: word) {
    GeneralAt(m, a, u, savedEsp) && SegmentsAt(m, a + 32, u) && RaisedAt(m, a + 48, u, vector, errorCode)
  }

  // What main_interrupt_handler copies out of the frame at a for the timer.
  function ContextOfFrame(m: Memory, a: int): Context {
    Context(m(a), m(a + 4), m(a + 8), m(a + 12), m(a + 16), m(a + 20), m(a + 24), m(a + 28),
            m(a + 32), m(a + 36), m(a + 40), m(a + 44), m(a + 56), m(a + 64))
  }

  // struct Context as it lies on the stack above the return address.
  predicate ContextAt(m: Memory, a: int, c: Context) {
    && m(a) == c.edi && m(a + 4) == c.esi && m(a + 8) == c.ebp && m(a + 12) == c.esp
    && m(a + 16) == c.ebx && m(a + 20) == c.edx && m(a + 24) == c.ecx && m(a + 28) == c.eax
    && m(a + 32) == c.gs && m(a + 36) == c.fs && m(a + 40) == c.es && m(a + 44) == c.ds
    && m(a + 48) == c.eip && m(a + 52) == c.eflags
  }

  predicate UpperHalfAt(m: Memory, a: int, c: Context) {
    && m(a) == c.ecx && m(a + 4) == c.eax && m(a + 8) == c.gs && m(a + 12) == c.fs && m(a + 16) == c.es
    && m(a + 20) == c.ds && m(a + 24) == c.eip && m(a + 28) == c.eflags
  }

  // The stack pointer the entry code records: the interrupted one if the interrupted ds asks for user
  // privilege, else the kernel's own at that point.
  function RecordedEsp(u: Cpu, esp0: word): word
    requires esp0 >= 100
  {
    if u.ds % 4 != 0 then u.esp else esp0 - 44
  }

  function SavedContext(u: Cpu, esp0: word): Context
    requires esp0 >= 100
  {
    Context(u.edi, u.esi, u.ebp, RecordedEsp(u, esp0), u.ebx, u.edx, u.ecx, u.eax, u.gs, u.fs, u.es, u.ds, u.eip, u.eflags)
  }

  function WrappedOffset(base: word, offset: nat): (a: word) {
    (base + offset) % 0x1_0000_0000
  }

  // The registers in user mode after process_context_switch: all from the context but the fixed
  // selectors, and eax, which is loaded through the ecx just restored.
  function Resumed(c: Context, m: Memory): Cpu {
    Cpu(c.edi, c.esi, c.ebp, c.esp, c.ebx, c.edx, c.ecx, m(WrappedOffset(c.ecx, 28)),
        c.gs, c.fs, c.es, c.ds, USER_CODE_SELECTOR, USER_DATA_SELECTOR, c.eip, c.eflags)
  }

  lemma FrameKept(m: Memory, m': Memory, a: int, u: Cpu, savedEsp: word, vector: word, errorCode: word)
    requires FrameAt(m, a, u, savedEsp, vector, errorCode) && forall x :: x >= a ==> m'(x) == m(x)
    ensures FrameAt(m', a, u, savedEsp, vector, errorCode)
  {
  }

  lemma ContextKept(m: Memory, m': Memory, a: int, c: Context)
    requires ContextAt(m, a, c) && forall x :: x >= a ==> m'(x) == m(x)
    ensures ContextAt(m', a, c)
  {
  }

  class Processor {
    var r: Cpu
    var m: Memory

    constructor (r0: Cpu, m0: Memory)
      ensures r == r0 && m == m0
    {
      r, m := r0, m0;
    }

    method Push(w: word)
      requires r.esp >= 4
      modifies this
      ensures r == old(r).(esp := old(r).esp - 4)
      ensures m(r.esp) == w && forall a :: a != r.esp ==> m(a) == old(m)(a)
    {
      r := r.(esp := r.esp - 4);
      m := Stored(m, r.esp, w);
    }

    method Pop() returns (w: word)
      requires r.esp + 4 < 0x1_0000_0000
      modifies this`r
      ensures r == old(r).(esp := old(r).esp + 4) && w == m(old(r).esp)
    {
      w := m(r.esp);
      r := r.(esp := r.esp + 4);
    }

    // An interrupt from user mode: the processor switches to the kernel stack at esp0 and pushes what
    // it interrupted; the vectors with an error code push that too, the stubs of the others push 0.
    method RaiseFromUser(esp0: word, vector: word, errorCode: word, hasErrorCode: bool)
      requires esp0 >= 100
      modifies this
      ensures r == old(r).(esp := esp0 - 28)
      ensures RaisedAt(m, r.esp, old(r), vector, if hasErrorCode then errorCode else 0)
      ensures SameOutside(old(m), m, esp0 - 28, esp0)
    {
      var u := r;
      r := r.(esp := esp0);
      PushFour(u.ss, u.esp, u.eflags, u.cs);
      Push(u.eip);
      if hasErrorCode {
        Push(errorCode);
      } else {
        Push(0);
      }
      Push(vector);
    }

    method PushSegments()
      requires r.esp >= 16
      modifies this
      ensures r == old(r).(esp := old(r).esp - 16)
      ensures SegmentsAt(m, r.esp, old(r)) && SameOutside(old(m), m, r.esp, old(r).esp)
    {
      Push(r.ds);
      Push(r.es);
      Push(r.fs);
      Push(r.gs);
    }

    // pushad: eax, ecx, edx, ebx, the stack pointer as it was, ebp, esi, edi.
    method PushAll()
      requires r.esp >= 32
      modifies this
      ensures r == old(r).(esp := old(r).esp - 32)
      ensures GeneralAt(m, r.esp, old(r), old(r).esp) && SameOutside(old(m), m, r.esp, old(r).esp)
    {
      var esp := r.esp;
      PushFour(r.eax, r.ecx, r.edx, r.ebx);
      PushFour(esp, r.ebp, r.esi, r.edi);
    }

    method PushFour(w0: word, w1: word, w2: word, w3: word)
      requires r.esp >= 16
      modifies this
      ensures r == old(r).(esp := old(r).esp - 16)
      ensures m(r.esp) == w3 && m(r.esp + 4) == w2 && m(r.esp + 8) == w1 && m(r.esp + 12) == w0
      ensures SameOutside(old(m), m, r.esp, old(r).esp)
    {
      Push(w0);
      Push(w1);
      Push(w2);
      Push(w3);
    }

    // Between pushad and the call, with eax borrowed and eflags kept on the stack: replace the recorded
    // esp if the interrupted ds is a user selector, and load the kernel's segments.
    method RecordUserEsp()
      requires 8 <= r.esp && r.esp + 76 <= 0xFFFF_FFFF
      modifies this
      ensures r == old(r).(ds := KERNEL_DATA_SELECTOR, es := KERNEL_DATA_SELECTOR,
                           fs := KERNEL_DATA_SELECTOR, gs := KERNEL_DATA_SELECTOR)
      ensures m(r.esp + 12) == if old(m)(r.esp + 44) % 4 != 0 then old(m)(r.esp + 68) else old(m)(r.esp + 12)
      ensures forall a {:trigger m(a)} :: (a >= r.esp && a != r.esp + 12) || a < r.esp - 8 ==> m(a) == old(m)(a)
    {
      Push(r.eflags);
      Push(r.eax);
      var selector := m(r.esp + 52);
      r := r.(eax := selector % 4);
      if r.eax != 0 {
        r := r.(eax := m(r.esp + 76));
        m := Stored(m, r.esp + 20, r.eax);
      }
      r := r.(ds := KERNEL_DATA_SELECTOR, es := KERNEL_DATA_SELECTOR, fs := KERNEL_DATA_SELECTOR, gs := KERNEL_DATA_SELECTOR);
      var eax := Pop();
      r := r.(eax := eax);
      var eflags := Pop();
      r := r.(eflags := eflags);
    }

    // The entry up to the call, for either stub macro: the same frame layout, on the kernel's segments.
    method BuildFrame(esp0: word, vector: word, errorCode: word, hasErrorCode: bool)
      requires 100 <= esp0
      modifies this
      ensures r == old(r).(esp := esp0 - 76, ds := KERNEL_DATA_SELECTOR, es := KERNEL_DATA_SELECTOR,
                           fs := KERNEL_DATA_SELECTOR, gs := KERNEL_DATA_SELECTOR)
      ensures FrameAt(m, r.esp, old(r), RecordedEsp(old(r), esp0), vector, if hasErrorCode then errorCode else 0)
      ensures SameOutside(old(m), m, esp0 - 84, esp0)
    {
      RaiseFromUser(esp0, vector, errorCode, hasErrorCode);
      PushSegments();
      PushAll();
      RecordUserEsp();
    }

    // The whole entry: the handler finds its return address and above it the frame, and ebp at the frame.
    method EnterHandler(esp0: word, vector: word, errorCode: word, hasErrorCode: bool, returnAddress: word)
      requires 100 <= esp0
      modifies this
      ensures r == old(r).(esp := esp0 - 80, ebp := esp0 - 76, ds := KERNEL_DATA_SELECTOR, es := KERNEL_DATA_SELECTOR,
                           fs := KERNEL_DATA_SELECTOR, gs := KERNEL_DATA_SELECTOR)
      ensures m(r.esp) == returnAddress
      ensures FrameAt(m, r.ebp, old(r), RecordedEsp(old(r), esp0), vector, if hasErrorCode then errorCode else 0)
      ensures SameOutside(old(m), m, esp0 - 84, esp0)
    {
      ghost var u := r;
      BuildFrame(esp0, vector, errorCode, hasErrorCode);
      r := r.(ebp := r.esp);
      ghost var before := m;
      Push(returnAddress);
      FrameKept(before, m, r.ebp, u, RecordedEsp(u, esp0), vector, if hasErrorCode then errorCode else 0);
    }

    // The timer's handler as far as the registers go: whatever stack the C functions use, down to low,
    // process_context_switch is entered with the context read from the frame copied onto the stack.
    method PassContext(frame: word, low: word, returnAddress: word)
      requires 160 <= low <= r.esp <= frame && frame + 76 < 0x1_0000_0000
      modifies this
      ensures r == old(r).(esp := low - 60)
      ensures ContextAt(m, r.esp + 4, ContextOfFrame(old(m), frame))
      ensures SameOutside(old(m), m, low - 60, low)
    {
      ghost var c := ContextOfFrame(m, frame);
      r := r.(esp := low);
      PushUpperHalf(frame);
      PushLowerHalf(frame, c);
      ghost var before := m;
      Push(returnAddress);
      ContextKept(before, m, r.esp + 4, c);
    }

    // The instruction pointer, flags and segments of the context, and eax and ecx below them.
    method PushUpperHalf(frame: word)
      requires 160 <= r.esp <= frame && frame + 76 < 0x1_0000_0000
      modifies this
      ensures r == old(r).(esp := old(r).esp - 32)
      ensures UpperHalfAt(m, r.esp, ContextOfFrame(old(m), frame)) && SameOutside(old(m), m, r.esp, old(r).esp)
    {
      PushFour(m(frame + 64), m(frame + 56), m(frame + 44), m(frame + 40));
      PushFour(m(frame + 36), m(frame + 32), m(frame + 28), m(frame + 24));
    }

    method PushLowerHalf(frame: word, ghost c: Context)
      requires 120 <= r.esp <= frame && frame + 76 < 0x1_0000_0000
      requires UpperHalfAt(m, r.esp, c) && c == ContextOfFrame(m, frame)
      modifies this
      ensures r == old(r).(esp := old(r).esp - 24)
      ensures ContextAt(m, r.esp, c) && SameOutside(old(m), m, r.esp, old(r).esp)
    {
      PushFour(m(frame + 20), m(frame + 16), m(frame + 12), m(frame + 8));
      Push(m(frame + 4));
      Push(m(frame));
    }

    // Preempted by the timer and chosen again at once: every general register, eip, eflags and the data
    // segments are back, but for eax, which is whatever word the process has at its ecx + 28.
    method PreemptAndResume(esp0: word, low: word, returnAddress: word, swapped: bool)
      requires UserMode(r) && 260 <= low <= esp0 - 80 && esp0 + 100 < 0x1_0000_0000
      modifies this
      ensures var eax := if swapped then old(r).eax else m(WrappedOffset(old(r).ecx, 28));
              r == old(r).(esp := RecordedEsp(old(r), esp0), eax := eax)
      ensures SameOutside(old(m), m, low - 80, esp0)
    {
      ghost var u := r;
      EnterHandler(esp0, 0x20, 0, false, returnAddress);
      FrameGivesContext(m, r.ebp, u, esp0, 0x20, 0);
      PassContext(r.ebp, low, returnAddress);
      SwitchTo(SavedContext(u, esp0), swapped);
    }

    method PopGeneral()
      requires r.esp + 32 < 0x1_0000_0000
      modifies this`r
      ensures var a := old(r).esp;
              r == old(r).(edi := m(a), esi := m(a + 4), ebp := m(a + 8), ebx := m(a + 16), edx := m(a + 20),
                           ecx := m(a + 24), eax := m(a + 28), esp := a + 32)
    {
      var edi := Pop();
      var esi := Pop();
      var ebp := Pop();
      var _ := Pop();
      var ebx := Pop();
      var edx := Pop();
      var ecx := Pop();
      var eax := Pop();
      r := r.(edi := edi, esi := esi, ebp := ebp, ebx := ebx, edx := edx, ecx := ecx, eax := eax);
    }

    method PopSegments()
      requires r.esp + 16 < 0x1_0000_0000
      modifies this`r
      ensures var a := old(r).esp;
              r == old(r).(gs := m(a), fs := m(a + 4), es := m(a + 8), ds := m(a + 12), esp := a + 16)
    {
      var gs := Pop();
      var fs := Pop();
      var es := Pop();
      var ds := Pop();
      r := r.(gs := gs, fs := fs, es := es, ds := ds);
    }

    // iret to user mode.
    method ReturnFromInterrupt()
      requires r.esp + 20 < 0x1_0000_0000
      modifies this`r
      ensures var a := old(r).esp;
              r == old(r).(eip := m(a), cs := m(a + 4), eflags := m(a + 8), esp := m(a + 12), ss := m(a + 16))
    {
      var eip := Pop();
      var cs := Pop();
      var eflags := Pop();
      var esp := Pop();
      var ss := Pop();
      r := r.(eip := eip, cs := cs, eflags := eflags, esp := esp, ss := ss);
    }

    // The return path of call_generic_handler: whatever ran in between, if the frame is intact every
    // register is back, the user stack pointer included, since popad skips the recorded one.
    method ReturnFromHandler(ghost u: Cpu, ghost savedEsp: word, ghost vector: word, ghost errorCode: word)
      requires r.esp + 100 < 0x1_0000_0000 && FrameAt(m, r.esp, u, savedEsp, vector, errorCode)
      modifies this`r
      ensures r == u
    {
      PopGeneral();
      PopSegments();
      r := r.(esp := r.esp + 8);
      ReturnFromInterrupt();
    }

    // Stack segment, stack pointer, flags, code segment and instruction pointer for iret, from the
    // context that ecx points to. Each goes through eax.
    method PushReturnFrame(ghost c: Context)
      requires 20 <= r.esp <= r.ecx && ContextAt(m, r.ecx, c)
      modifies this
      ensures r == old(r).(esp := old(r).esp - 20, eax := c.eip)
      ensures m(r.esp) == c.eip && m(r.esp + 4) == USER_CODE_SELECTOR && m(r.esp + 8) == c.eflags
      ensures m(r.esp + 12) == c.esp && m(r.esp + 16) == USER_DATA_SELECTOR
      ensures ContextAt(m, r.ecx, c) && SameOutside(old(m), m, r.esp, old(r).esp)
    {
      PushThroughEax(USER_DATA_SELECTOR, c);
      PushThroughEax(m(r.ecx + 12), c);
      PushThroughEax(m(r.ecx + 52), c);
      PushThroughEax(USER_CODE_SELECTOR, c);
      PushThroughEax(m(r.ecx + 48), c);
    }

    method PushThroughEax(w: word, ghost c: Context)
      requires 4 <= r.esp <= r.ecx && ContextAt(m, r.ecx, c)
      modifies this
      ensures r == old(r).(esp := old(r).esp - 4, eax := w)
      ensures m(r.esp) == w && ContextAt(m, r.ecx, c) && SameOutside(old(m), m, r.esp, old(r).esp)
    {
      r := r.(eax := w);
      Push(r.eax);
    }

    // process_context_switch, entered with the return address on top of the stack and the context above
    // it. `swapped` is the order with eax loaded before ecx; the code as written loads ecx first.
    method SwitchTo(ghost c: Context, swapped: bool)
      requires 20 <= r.esp && r.esp + 100 < 0x1_0000_0000 && ContextAt(m, r.esp + 4, c)
      modifies this
      ensures r == if swapped then Resumed(c, m).(eax := c.eax) else Resumed(c, m)
      ensures SameOutside(old(m), m, old(r).esp - 20, old(r).esp)
    {
      LoadSegments(c);
      r := r.(ecx := r.esp + 4);
      PushReturnFrame(c);
      LoadGeneral(c, swapped);
      ReturnFromInterrupt();
    }

    method LoadSegments(ghost c: Context)
      requires r.esp + 100 < 0x1_0000_0000 && ContextAt(m, r.esp + 4, c)
      modifies this`r
      ensures r == old(r).(gs := c.gs, fs := c.fs, es := c.es, ds := c.ds)
    {
      r := r.(gs := m(r.esp + 36));
      r := r.(fs := m(r.esp + 40));
      r := r.(es := m(r.esp + 44));
      r := r.(ds := m(r.esp + 48));
    }

    method LoadGeneral(ghost c: Context, swapped: bool)
      requires ContextAt(m, r.ecx, c)
      modifies this`r
      ensures r == old(r).(edi := c.edi, esi := c.esi, ebp := c.ebp, ebx := c.ebx, edx := c.edx, ecx := c.ecx,
                           eax := if swapped then c.eax else m(WrappedOffset(c.ecx, 28)))
    {
      r := r.(edi := m(r.ecx), esi := m(r.ecx + 4), ebp := m(r.ecx + 8), ebx := m(r.ecx + 16), edx := m(r.ecx + 20));
      if swapped {
        r := r.(eax := m(r.ecx + 28));
        r := r.(ecx := m(r.ecx + 24));
      } else {
        r := r.(ecx := m(r.ecx + 24));
        r := r.(eax := m(WrappedOffset(r.ecx, 28)));
      }
    }
  }

  // ---- Preempt and resume ----

  // The timer's context is read out of the frame that the entry code built.
  lemma FrameGivesContext(m: Memory, a: int, u: Cpu, esp0: word, vector: word, errorCode: word)
    requires esp0 >= 100 && FrameAt(m, a, u, RecordedEsp(u, esp0), vector, errorCode)
    ensures ContextOfFrame(m, a) == SavedContext(u, esp0)
  {
  }

  predicate UserMode(u: Cpu) {
    u.cs == USER_CODE_SELECTOR && u.ss == USER_DATA_SELECTOR
  }

  // Saved by the timer and resumed later, a process gets every register back if and only if the word
  // at its ecx + 28 happens to be its eax and its ds was a user selector (or its stack pointer was, by
  // chance, the kernel's). Nothing but eax and esp can differ.
  lemma PreemptResume(u: Cpu, esp0: word, m: Memory)
    requires UserMode(u) && esp0 >= 100
    ensures Resumed(SavedContext(u, esp0), m) == u.(eax := m(WrappedOffset(u.ecx, 28)), esp := RecordedEsp(u, esp0))
    ensures Resumed(SavedContext(u, esp0), m) == u
            <==> m(WrappedOffset(u.ecx, 28)) == u.eax && (u.ds % 4 != 0 || u.esp == esp0 - 44)
  {
  }

  // With the two loads swapped, every register comes back for any process with a user data segment.
  lemma PreemptResumeSwapped(u: Cpu, esp0: word, m: Memory)
    requires UserMode(u) && esp0 >= 100 && u.ds % 4 != 0
    ensures Resumed(SavedContext(u, esp0), m).(eax := SavedContext(u, esp0).eax) == u
  {
  }

  // The code as written loses eax: over zeroed memory, for any process with a non-zero eax.
  lemma EaxLost(u: Cpu, esp0: word)
    requires UserMode(u) && esp0 >= 100 && u.eax != 0
    ensures Resumed(SavedContext(u, esp0), (_: int) => 0) != u
  {
  }
}
