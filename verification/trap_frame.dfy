/** Saving and restoring a process's registers: the pushes of schedos-int.S and the pops of `run`,
    on a machine with a word-addressed stack. */
module TrapFrame {
  import opened KernelTypes

  type uint16 = x: int | 0 <= x < 0x1_0000

  const KERNEL_STACK_TOP: int := 0x180000
  const SEGSEL_KERN_CODE: uint16 := 0x8
  const SEGSEL_KERN_DATA: uint16 := 0x10
  const SEGSEL_APP_CODE: uint16 := 0x18
  const SEGSEL_APP_DATA: uint16 := 0x20
  const EFLAGS_IF: uint32 := 0x200

  datatype General = General(edi: uint32, esi: uint32, ebp: uint32, ebx: uint32, edx: uint32, ecx: uint32, eax: uint32)

  /** Every register an application can see. */
  datatype UserState = UserState(
    g: General, esp: uint32, eip: uint32, eflags: uint32,
    cs: uint16, ss: uint16, ds: uint16, es: uint16)

  /** `registers_t`, one field a 32-bit word; segment words keep their padding. */
  datatype Registers = Registers(
    edi: uint32, esi: uint32, ebp: uint32, originalEsp: uint32, ebx: uint32, edx: uint32, ecx: uint32, eax: uint32,
    esWord: uint32, dsWord: uint32,
    intno: uint32, err: uint32,
    eip: uint32, csWord: uint32, eflags: uint32, esp: uint32, ssWord: uint32)

  /** A segment register stored as a word: the selector below whatever the processor leaves in the
      padding. */
  function Padded(selector: uint16, padding: uint16): uint32 {
    padding * 0x1_0000 + selector
  }

  function Selector(word: uint32): uint16 {
    word % 0x1_0000
  }

  /** The paddings of es, ds, cs and ss. */
  datatype Paddings = Paddings(es: uint16, ds: uint16, cs: uint16, ss: uint16)

  /** The frame the trap entry builds for interrupt `n` out of the interrupted registers.  `pushal`
      also stores the kernel's own stack pointer. */
  function FrameOf(u: UserState, n: uint32, kernelEsp: uint32, p: Paddings): Registers {
    Registers(u.g.edi, u.g.esi, u.g.ebp, kernelEsp, u.g.ebx, u.g.edx, u.g.ecx, u.g.eax,
              Padded(u.es, p.es), Padded(u.ds, p.ds), n, 0,
              u.eip, Padded(u.cs, p.cs), u.eflags, u.esp, Padded(u.ss, p.ss))
  }

  /** The registers `run` loads from a frame. */
  function StateOf(r: Registers): UserState {
    UserState(General(r.edi, r.esi, r.ebp, r.ebx, r.edx, r.ecx, r.eax), r.esp, r.eip, r.eflags,
              Selector(r.csWord), Selector(r.ssWord), Selector(r.dsWord), Selector(r.esWord))
  }

  /** Trap and return: what is saved is restored, register by register, whatever the paddings, the
      interrupt number and the kernel's stack pointer. */
  lemma RoundTrip(u: UserState, n: uint32, kernelEsp: uint32, p: Paddings)
    ensures StateOf(FrameOf(u, n, kernelEsp, p)) == u
  {
  }

  /** `special_registers_init`, the stack pointer and the entry point. */
  function FirstFrame(stack: uint32, entry: uint32): Registers {
    Registers(0, 0, 0, 0, 0, 0, 0, 0, SEGSEL_APP_DATA + 3, SEGSEL_APP_DATA + 3, 0, 0,
              entry, SEGSEL_APP_CODE + 3, EFLAGS_IF, stack, SEGSEL_APP_DATA + 3)
  }

  // ----- Frames in memory -----

  predicate Word(mem: map<int, uint32>, a: int, v: uint32) {
    a in mem && mem[a] == v
  }

  /** The eight words `pushal` stores, lowest address first. */
  predicate GeneralAt(mem: map<int, uint32>, a: int, g: General, originalEsp: uint32) {
    && Word(mem, a, g.edi) && Word(mem, a + 4, g.esi) && Word(mem, a + 8, g.ebp) && Word(mem, a + 12, originalEsp)
    && Word(mem, a + 16, g.ebx) && Word(mem, a + 20, g.edx) && Word(mem, a + 24, g.ecx) && Word(mem, a + 28, g.eax)
  }

  /** The five words the processor stores on an interrupt from an application. */
  predicate TaskAt(mem: map<int, uint32>, a: int,
                   eip: uint32, csWord: uint32, eflags: uint32, esp: uint32, ssWord: uint32)
  {
    && Word(mem, a, eip) && Word(mem, a + 4, csWord) && Word(mem, a + 8, eflags)
    && Word(mem, a + 12, esp) && Word(mem, a + 16, ssWord)
  }

  /** Memory holds the frame `r` in the layout of `registers_t`. */
  predicate FrameAt(mem: map<int, uint32>, a: int, r: Registers) {
    && GeneralAt(mem, a, General(r.edi, r.esi, r.ebp, r.ebx, r.edx, r.ecx, r.eax), r.originalEsp)
    && Word(mem, a + 32, r.esWord) && Word(mem, a + 36, r.dsWord)
    && Word(mem, a + 40, r.intno) && Word(mem, a + 44, r.err)
    && TaskAt(mem, a + 48, r.eip, r.csWord, r.eflags, r.esp, r.ssWord)
  }

  /** The 17 words of `registers_t`, by address. */
  lemma FrameLayout(mem: map<int, uint32>, a: int, u: UserState, n: uint32, kernelEsp: uint32, p: Paddings)
    ensures FrameAt(mem, a, FrameOf(u, n, kernelEsp, p)) ==>
            && Word(mem, a, u.g.edi) && Word(mem, a + 4, u.g.esi) && Word(mem, a + 8, u.g.ebp)
            && Word(mem, a + 12, kernelEsp) && Word(mem, a + 16, u.g.ebx) && Word(mem, a + 20, u.g.edx)
            && Word(mem, a + 24, u.g.ecx) && Word(mem, a + 28, u.g.eax)
            && Word(mem, a + 32, p.es * 0x1_0000 + u.es) && Word(mem, a + 36, p.ds * 0x1_0000 + u.ds)
            && Word(mem, a + 40, n) && Word(mem, a + 44, 0) && Word(mem, a + 48, u.eip)
            && Word(mem, a + 52, p.cs * 0x1_0000 + u.cs) && Word(mem, a + 56, u.eflags)
            && Word(mem, a + 60, u.esp) && Word(mem, a + 64, p.ss * 0x1_0000 + u.ss)
  {
  }

  const FRAME_WORDS: nat := 17

  /** The flags with interrupts disabled. */
  function Masked(eflags: uint32): (r: uint32)
    ensures (r / EFLAGS_IF) % 2 == 0
  {
    if (eflags / EFLAGS_IF) % 2 == 1 then eflags - EFLAGS_IF else eflags
  }

  /** The processor, its registers and the words of memory. */
  class Cpu {
    var g: General
    var esp: int
    var eip: uint32
    var eflags: uint32
    var cs: uint16
    var ss: uint16
    var ds: uint16
    var es: uint16
    var mem: map<int, uint32>

    ghost predicate Shows(u: UserState)
      reads this
    {
      g == u.g && esp == u.esp && eip == u.eip && eflags == u.eflags
      && cs == u.cs && ss == u.ss && ds == u.ds && es == u.es
    }

    method Push(v: uint32)
      modifies this`esp, this`mem
      ensures esp == old(esp) - 4 && mem == old(mem)[esp := v]
    {
      esp := esp - 4;
      mem := mem[esp := v];
    }

    method Pop() returns (v: uint32)
      requires esp in mem
      modifies this`esp
      ensures esp == old(esp) + 4 && v == mem[old(esp)]
    {
      v := mem[esp];
      esp := esp + 4;
    }

    /** What the processor does when an application is interrupted: it switches to the kernel's
        stack and pushes the interrupted stack, flags and program counter, and masks interrupts. */
    method EnterKernel(ghost u: UserState, handler: uint32, p: Paddings)
      requires Shows(u)
      modifies this
      ensures g == u.g && ds == u.ds && es == u.es && eip == handler
      ensures esp == 0x180000 - 20 && cs == 0x8 && ss == 0x10
      ensures (eflags / 0x200) % 2 == 0
      ensures TaskAt(mem, esp, u.eip, Padded(u.cs, p.cs), u.eflags, u.esp, Padded(u.ss, p.ss))
    {
      hide Padded;
      hide Masked;
      var oldSs, oldEsp := Padded(ss, p.ss), esp;
      ss := SEGSEL_KERN_DATA;
      esp := KERNEL_STACK_TOP;
      PushPair(oldSs, oldEsp);
      PushPair(eflags, Padded(cs, p.cs));
      Push(eip);
      cs := SEGSEL_KERN_CODE;
      eip := handler;
      eflags := Masked(eflags);
    }

    /** `pushal`: the stack pointer it stores is the one before the instruction. */
    method PushAll()
      requires 0 <= esp < 0x1_0000_0000
      modifies this`esp, this`mem
      ensures esp == old(esp) - 32
      ensures GeneralAt(mem, esp, g, old(esp))
      ensures forall a, v | a >= old(esp) && Word(old(mem), a, v) :: Word(mem, a, v)
    {
      var before: uint32 := esp;
      PushPair(g.eax, g.ecx);
      PushPair(g.edx, g.ebx);
      PushPair(before, g.ebp);
      PushPair(g.esi, g.edi);
    }

    /** Two pushes; the words above stay. */
    method PushPair(first: uint32, second: uint32)
      modifies this`esp, this`mem
      ensures esp == old(esp) - 8 && Word(mem, esp + 4, first) && Word(mem, esp, second)
      ensures forall a, v | a >= old(esp) && Word(old(mem), a, v) :: Word(mem, a, v)
    {
      Push(first);
      Push(second);
    }

    /** A numbered handler, which supplies the missing error code and the interrupt number, and
        then `_generic_int_handler` up to the call of `interrupt`; the result is the pointer it
        passes. */
    method Handler(n: uint32, p: Paddings) returns (reg: int)
      requires 100 <= esp < 0x1_0000_0000
      modifies this
      ensures reg == old(esp) - 48 && esp == reg - 4
      ensures ds == es == 0x10
      ensures GeneralAt(mem, reg, old(g), old(esp) - 16)
      ensures Word(mem, reg + 32, Padded(old(es), p.es)) && Word(mem, reg + 36, Padded(old(ds), p.ds))
      ensures Word(mem, reg + 40, n) && Word(mem, reg + 44, 0)
      ensures forall a, v | a >= old(esp) && Word(old(mem), a, v) :: Word(mem, a, v)
    {
      hide Padded;
      PushPair(0, n);
      assert Word(mem, esp, n);
      PushPair(Padded(ds, p.ds), Padded(es, p.es));
      PushAll();
      label saved:
      assert GeneralAt(mem, esp, old(g), old(esp) - 16);
      g := g.(eax := SEGSEL_KERN_DATA);
      ds := SEGSEL_KERN_DATA;
      es := SEGSEL_KERN_DATA;
      reg := esp;
      Push(reg);
    }

    /** Interrupt `n` arrives while an application runs: `interrupt` is called with a pointer to
        exactly the frame `registers_t` describes. */
    method Trap(ghost u: UserState, n: uint32, handler: uint32, p: Paddings) returns (reg: int)
      requires Shows(u)
      modifies this
      ensures reg == 0x180000 - 68
      ensures FrameAt(mem, reg, FrameOf(u, n, KERNEL_STACK_TOP - 36, p))
    {
      EnterKernel(u, handler, p);
      reg := Handler(n, p);
    }

    method PopAll(ghost saved: General, ghost originalEsp: uint32)
      requires GeneralAt(mem, esp, saved, originalEsp)
      modifies this`esp, this`g
      ensures esp == old(esp) + 32 && g == saved
    {
      var edi := Pop();
      var esi := Pop();
      var ebp := Pop();
      var _ := Pop();
      var ebx := Pop();
      var edx := Pop();
      var ecx := Pop();
      var eax := Pop();
      g := General(edi, esi, ebp, ebx, edx, ecx, eax);
    }

    /** `iret` to an application: program counter, flags and stack all come from the frame. */
    method Iret(ghost r: Registers)
      requires TaskAt(mem, esp, r.eip, r.csWord, r.eflags, r.esp, r.ssWord)
      modifies this`esp, this`eip, this`cs, this`eflags, this`ss
      ensures eip == r.eip && cs == Selector(r.csWord) && eflags == r.eflags
      ensures esp == r.esp && ss == Selector(r.ssWord)
    {
      eip := Pop();
      var csWord := Pop();
      cs := Selector(csWord);
      eflags := Pop();
      var newEsp := Pop();
      var ssWord := Pop();
      ss := Selector(ssWord);
      esp := newEsp;
    }

    /** The machine half of `run`: restore the frame stored at `frame`, whatever it holds in the
        slot `pushal` filled with the stack pointer. */
    method Resume(frame: int, ghost r: Registers)
      requires FrameAt(mem, frame, r)
      modifies this
      ensures Shows(StateOf(r)) && mem == old(mem)
    {
      esp := frame;
      PopAll(General(r.edi, r.esi, r.ebp, r.ebx, r.edx, r.ecx, r.eax), r.originalEsp);
      var esWord := Pop();
      es := Selector(esWord);
      var dsWord := Pop();
      ds := Selector(dsWord);
      esp := esp + 8;
      Iret(r);
    }

    /** `current->p_registers = *reg`: a structure assignment between two places that do not
        overlap. */
    method CopyFrame(dst: int, src: int, ghost r: Registers)
      requires FrameAt(mem, src, r) && (dst + 68 <= src || src + 68 <= dst)
      modifies this`mem
      ensures FrameAt(mem, dst, r)
    {
      ghost var m0 := mem;
      var i := 0;
      while i < FRAME_WORDS
        invariant 0 <= i <= FRAME_WORDS
        invariant forall a | src <= a < src + 68 && a in m0 :: Word(mem, a, m0[a])
        invariant forall j | 0 <= j < i :: Slot(src, j) in m0 && Word(mem, Slot(dst, j), m0[Slot(src, j)])
      {
        FrameWord(m0, src, r, i);
        mem := mem[Slot(dst, i) := mem[Slot(src, i)]];
        i := i + 1;
      }
      FrameCopied(m0, src, mem, dst, r);
    }
  }

  function Slot(a: int, i: int): int {
    a + 4 * i
  }

  lemma FrameWord(m: map<int, uint32>, src: int, r: Registers, i: nat)
    requires FrameAt(m, src, r) && i < FRAME_WORDS
    ensures Slot(src, i) in m
  {
  }

  lemma FrameCopied(m: map<int, uint32>, src: int, m': map<int, uint32>, dst: int, r: Registers)
    requires FrameAt(m, src, r)
    requires forall j | 0 <= j < FRAME_WORDS :: Slot(src, j) in m && Word(m', Slot(dst, j), m[Slot(src, j)])
    ensures FrameAt(m', dst, r)
  {
    assert Slot(dst, 0) == dst && Slot(dst, 1) == dst + 4 && Slot(dst, 2) == dst + 8 && Slot(dst, 3) == dst + 12;
    assert Slot(dst, 4) == dst + 16 && Slot(dst, 5) == dst + 20 && Slot(dst, 6) == dst + 24 && Slot(dst, 7) == dst + 28;
    assert Slot(dst, 8) == dst + 32 && Slot(dst, 9) == dst + 36 && Slot(dst, 10) == dst + 40;
    assert Slot(dst, 11) == dst + 44 && Slot(dst, 12) == dst + 48 && Slot(dst, 13) == dst + 52;
    assert Slot(dst, 14) == dst + 56 && Slot(dst, 15) == dst + 60 && Slot(dst, 16) == dst + 64;
    hide Padded;
    hide Masked;
  }

  /** The whole journey on the machine: an interrupted application, whose frame is copied to its
      descriptor and later resumed from there, finds every register as it was. */
  method TrapAndResume(cpu: Cpu, u: UserState, n: uint32, handler: uint32, p: Paddings, descriptor: int)
    requires cpu.Shows(u)
    requires descriptor + 68 <= KERNEL_STACK_TOP - 68 || KERNEL_STACK_TOP <= descriptor
    modifies cpu
    ensures cpu.Shows(u)
  {
    ghost var r := FrameOf(u, n, KERNEL_STACK_TOP - 36, p);
    var reg := cpu.Trap(u, n, handler, p);
    cpu.CopyFrame(descriptor, reg, r);
    cpu.Resume(descriptor, r);
    RoundTrip(u, n, KERNEL_STACK_TOP - 36, p);
  }
}
