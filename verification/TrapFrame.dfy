/** Trap frames that are built by hand, and the pop sequence that resumes a thread from them. */
module TrapFrame {

  /** What the restore sequence loads: the general registers in pop order, then what iretq pops. */
  datatype Context = Context(r15: nat, r14: nat, r13: nat, r12: nat, r11: nat, r10: nat, r9: nat, r8: nat,
                             rsi: nat, rdi: nat, rbp: nat, rdx: nat, rcx: nat, rbx: nat, rax: nat,
                             rip: nat, cs: nat, rflags: nat, rsp: nat, ss: nat)

  /** The frame of an interrupted thread: its context, and the two words that the stubs push. */
  datatype Saved = Saved(regs: Context, intNo: nat, errCode: nat)

  /** The `n` words from `sp` up are on the stack. */
  predicate Holds(stack: map<nat, nat>, sp: nat, n: nat) {
    forall k: nat {:trigger Slot(sp, k)} :: k < n ==> Slot(sp, k) in stack
  }

  function Slot(sp: nat, k: nat): nat {
    sp + 8 * k
  }

  function Word(stack: map<nat, nat>, sp: nat, k: nat): nat
    requires Slot(sp, k) in stack
  {
    stack[Slot(sp, k)]
  }

  /** POPAQ, the skip of two words, and iretq. */
  function Restore(stack: map<nat, nat>, sp: nat): Context
    requires Holds(stack, sp, 22)
  {
    Context(Word(stack, sp, 0), Word(stack, sp, 1), Word(stack, sp, 2), Word(stack, sp, 3), Word(stack, sp, 4),
            Word(stack, sp, 5), Word(stack, sp, 6), Word(stack, sp, 7), Word(stack, sp, 8), Word(stack, sp, 9),
            Word(stack, sp, 10), Word(stack, sp, 11), Word(stack, sp, 12), Word(stack, sp, 13), Word(stack, sp, 14),
            Word(stack, sp, 17), Word(stack, sp, 18), Word(stack, sp, 19), Word(stack, sp, 20), Word(stack, sp, 21))
  }

  /** A return instruction: where it goes, and the stack pointer after it. */
  function Ret(stack: map<nat, nat>, sp: nat): (nat, nat)
    requires sp in stack
  {
    (stack[sp], sp + 8)
  }

  // ---------------------------------------------------------------- pushing

  /** `pushed` lies below `base`, the first value highest. */
  predicate Stacked(stack: map<nat, nat>, base: nat, sp: nat, pushed: seq<nat>) {
    && base == sp + 8 * |pushed|
    && forall k: nat {:trigger Slot(sp, k)} :: k < |pushed| ==> Slot(sp, k) in stack && stack[Slot(sp, k)] == pushed[|pushed| - 1 - k]
  }

  /** What fork_int pushes. */
  function ForkWords(pid: nat, r: Saved): seq<nat> {
    [0x23, r.regs.rsp, r.regs.rflags, r.regs.cs, r.regs.rip, r.intNo, r.errCode, pid, r.regs.rbx, r.regs.rcx, r.regs.rdx,
     r.regs.rbp, r.regs.rdi, r.regs.rsi, r.regs.r8, r.regs.r9, r.regs.r10, r.regs.r11, r.regs.r12, r.regs.r13, r.regs.r14,
     r.regs.r15]
  }

  /** What setup_kthread pushes on a stack that starts at `base`: its fifth word is the address of its third. */
  function LaunchWords(base: nat, arg: nat, exit: nat, start: nat, launch: nat): seq<nat>
    requires base >= 24
  {
    [arg, exit, start, 0x10, base - 24, 0, 0x8, launch, 0, 0] + Zeros()
  }

  function Zeros(): seq<nat> {
    [0, 0, 0, 0, 0, 0, 0, 0, 0, 0, 0, 0, 0, 0, 0]
  }

  /** What setup_kthread_user pushes. */
  function UserWords(rsp: nat, entry: nat): seq<nat> {
    [0x23, rsp, 0x200, 0x1B, entry, 0, 0] + Zeros()
  }

  /** What a trap leaves on the kernel stack: the words of the processor, of the stub and of PUSHAQ. */
  function TrapWords(r: Saved): seq<nat> {
    [r.regs.ss, r.regs.rsp, r.regs.rflags, r.regs.cs, r.regs.rip, r.errCode, r.intNo, r.regs.rax, r.regs.rbx, r.regs.rcx,
     r.regs.rdx, r.regs.rbp, r.regs.rdi, r.regs.rsi, r.regs.r8, r.regs.r9, r.regs.r10, r.regs.r11, r.regs.r12, r.regs.r13,
     r.regs.r14, r.regs.r15]
  }

  lemma StackedWord(stack: map<nat, nat>, base: nat, sp: nat, pushed: seq<nat>, k: nat)
    requires Stacked(stack, base, sp, pushed) && k < |pushed|
    ensures Slot(sp, k) in stack && Word(stack, sp, k) == pushed[|pushed| - 1 - k]
  {
  }

  /** The context that the restore sequence makes of the last 22 words pushed. */
  function Popped(w: seq<nat>): Context
    requires |w| >= 22
  {
    var n := |w| - 1;
    Context(w[n], w[n - 1], w[n - 2], w[n - 3], w[n - 4], w[n - 5], w[n - 6], w[n - 7], w[n - 8], w[n - 9], w[n - 10],
            w[n - 11], w[n - 12], w[n - 13], w[n - 14], w[n - 17], w[n - 18], w[n - 19], w[n - 20], w[n - 21])
  }

  /** The pops undo the pushes, last word first. */
  lemma RestorePops(stack: map<nat, nat>, base: nat, sp: nat, pushed: seq<nat>)
    requires Stacked(stack, base, sp, pushed) && |pushed| >= 22
    ensures Holds(stack, sp, 22) && Restore(stack, sp) == Popped(pushed)
  {
    forall k: nat | k < 22 ensures Slot(sp, k) in stack && Word(stack, sp, k) == pushed[|pushed| - 1 - k] {
      StackedWord(stack, base, sp, pushed, k);
    }
  }

  /** Restoring the frame that fork_int builds gives the child the registers of its parent, except that rax holds
      the child's pid and ss is the user data segment. */
  lemma ForkRestores(stack: map<nat, nat>, base: nat, sp: nat, pid: nat, r: Saved)
    requires Stacked(stack, base, sp, ForkWords(pid, r))
    ensures Holds(stack, sp, 22) && Restore(stack, sp) == r.regs.(rax := pid, ss := 0x23)
  {
    RestorePops(stack, base, sp, ForkWords(pid, r));
  }

  /** The result of the handler is stored over the saved rax, 0x70 bytes above the stack pointer. */
  function WithResult(stack: map<nat, nat>, sp: nat, result: nat): map<nat, nat> {
    stack[Slot(sp, 14) := result]
  }

  lemma ResultStacked(stack: map<nat, nat>, base: nat, sp: nat, pushed: seq<nat>, result: nat)
    requires Stacked(stack, base, sp, pushed) && |pushed| == 22
    ensures Stacked(WithResult(stack, sp, result), base, sp, pushed[7 := result])
  {
    forall k: nat | k < 22 ensures Slot(sp, k) in WithResult(stack, sp, result) &&
                                   WithResult(stack, sp, result)[Slot(sp, k)] == pushed[7 := result][21 - k] {
      StackedWord(stack, base, sp, pushed, k);
    }
  }

  /** After a trap the thread goes on with the registers it had, except that rax holds what the handler returned.  So it
      goes on as if nothing had happened exactly when rax held that already; a resolved page fault returns 1. */
  lemma TrapReturns(stack: map<nat, nat>, base: nat, sp: nat, r: Saved, result: nat)
    requires Stacked(stack, base, sp, TrapWords(r))
    ensures var s := WithResult(stack, sp, result);
            Holds(s, sp, 22) && Restore(s, sp) == r.regs.(rax := result) && (Restore(s, sp) == r.regs <==> r.regs.rax == result)
  {
    ResultStacked(stack, base, sp, TrapWords(r), result);
    RestorePops(WithResult(stack, sp, result), base, sp, TrapWords(r)[7 := result]);
  }

  /** A frame built by setup_kthread resumes in Launch_Thread with interrupts off and all registers zero, returns
      from there to the start function, and from that to thread_exit.  The start function's argument register is
      zero, whatever the argument was; the argument itself is left on top of the stack of thread_exit. */
  lemma LaunchReturns(stack: map<nat, nat>, base: nat, sp: nat, arg: nat, exit: nat, start: nat, launch: nat)
    requires base >= 24 && Stacked(stack, base, sp, LaunchWords(base, arg, exit, start, launch))
    ensures Holds(stack, sp, 22)
    ensures var c := Restore(stack, sp);
            && c == Context(0, 0, 0, 0, 0, 0, 0, 0, 0, 0, 0, 0, 0, 0, 0, launch, 0x8, 0, base - 24, 0x10)
            && c.rsp in stack && Ret(stack, c.rsp) == (start, base - 16)
            && base - 16 in stack && Ret(stack, base - 16) == (exit, base - 8)
            && base - 8 in stack && stack[base - 8] == arg
  {
    var w := LaunchWords(base, arg, exit, start, launch);
    RestorePops(stack, base, sp, w);
    StackedWord(stack, base, sp, w, 22);
    StackedWord(stack, base, sp, w, 23);
    StackedWord(stack, base, sp, w, 24);
    assert Slot(sp, 22) == base - 24 && Slot(sp, 23) == base - 16 && Slot(sp, 24) == base - 8;
  }

  /** The start function sees its argument in rdi exactly when the argument is zero. */
  lemma ArgumentLost(stack: map<nat, nat>, base: nat, sp: nat, arg: nat, exit: nat, start: nat, launch: nat)
    requires base >= 24 && Stacked(stack, base, sp, LaunchWords(base, arg, exit, start, launch))
    ensures Holds(stack, sp, 22) && (Restore(stack, sp).rdi == arg <==> arg == 0)
  {
    LaunchReturns(stack, base, sp, arg, exit, start, launch);
  }

  /** A frame built by setup_kthread_user resumes at the program's entry in user mode with interrupts on. */
  lemma UserRestores(stack: map<nat, nat>, base: nat, sp: nat, rsp: nat, entry: nat)
    requires Stacked(stack, base, sp, UserWords(rsp, entry))
    ensures Holds(stack, sp, 22)
    ensures Restore(stack, sp) == Context(0, 0, 0, 0, 0, 0, 0, 0, 0, 0, 0, 0, 0, 0, 0, entry, 0x1B, 0x200, rsp, 0x23)
  {
    RestorePops(stack, base, sp, UserWords(rsp, entry));
  }

  // ---------------------------------------------------------------- the code

  class KernelStack {
    var sp: nat
    var stack: map<nat, nat>
    ghost const base: nat
    ghost var pushed: seq<nat>

    ghost predicate Valid()
      reads this
    {
      Stacked(stack, base, sp, pushed)
    }

    constructor (top: nat)
      ensures Valid() && base == top && sp == top && pushed == []
    {
      sp, stack, base, pushed := top, map[], top, [];
    }

    /** Push and PushU. */
    method Push(value: nat)
      requires Valid() && sp >= 8
      modifies this
      ensures Valid() && sp == old(sp) - 8 && pushed == old(pushed) + [value]
    {
      sp := sp - 8;
      stack := stack[sp := value];
      pushed := pushed + [value];
      forall k: nat | k < |pushed| ensures Slot(sp, k) in stack && stack[Slot(sp, k)] == pushed[|pushed| - 1 - k] {
        if k > 0 {
          StackedWord(old(stack), base, old(sp), old(pushed), k - 1);
          assert Slot(sp, k) == Slot(old(sp), k - 1);
        }
      }
    }

    /** Push_General_Registers and PushU_General_Registers. */
    method PushGeneralRegisters()
      requires Valid() && sp >= 120
      modifies this
      ensures Valid() && sp == old(sp) - 120 && pushed == old(pushed) + Zeros()
    {
      ghost var before := pushed;
      for i := 0 to 15
        invariant Valid() && sp == old(sp) - 8 * i && pushed == before + Zeros()[..i]
      {
        Push(0);
      }
    }

    /** The words that iretq and the skip take. */
    method PushReturn(ss: nat, rsp: nat, rflags: nat, cs: nat, rip: nat, intNo: nat, errCode: nat)
      requires Valid() && sp >= 56
      modifies this
      ensures Valid() && sp == old(sp) - 56 && pushed == old(pushed) + [ss, rsp, rflags, cs, rip, intNo, errCode]
    {
      Push(ss);
      Push(rsp);
      Push(rflags);
      Push(cs);
      Push(rip);
      Push(intNo);
      Push(errCode);
    }

    method PushLow(rax: nat, r: Context)
      requires Valid() && sp >= 56
      modifies this
      ensures Valid() && sp == old(sp) - 56 && pushed == old(pushed) + [rax, r.rbx, r.rcx, r.rdx, r.rbp, r.rdi, r.rsi]
    {
      Push(rax);
      Push(r.rbx);
      Push(r.rcx);
      Push(r.rdx);
      Push(r.rbp);
      Push(r.rdi);
      Push(r.rsi);
    }

    method PushHigh(r: Context)
      requires Valid() && sp >= 64
      modifies this
      ensures Valid() && sp == old(sp) - 64 && pushed == old(pushed) + [r.r8, r.r9, r.r10, r.r11, r.r12, r.r13, r.r14, r.r15]
    {
      Push(r.r8);
      Push(r.r9);
      Push(r.r10);
      Push(r.r11);
      Push(r.r12);
      Push(r.r13);
      Push(r.r14);
      Push(r.r15);
    }

    /** fork_int. */
    method ForkInt(pid: nat, r: Saved)
      requires Valid() && pushed == [] && sp >= 176
      modifies this
      ensures Valid() && pushed == ForkWords(pid, r) && sp == old(sp) - 176
    {
      PushReturn(0x23, r.regs.rsp, r.regs.rflags, r.regs.cs, r.regs.rip, r.intNo, r.errCode);
      PushLow(pid, r.regs);
      PushHigh(r.regs);
    }

    /** What the processor and the stub push, and PUSHAQ. */
    method SaveContext(r: Saved)
      requires Valid() && pushed == [] && sp >= 176
      modifies this
      ensures Valid() && pushed == TrapWords(r) && sp == old(sp) - 176
    {
      PushReturn(r.regs.ss, r.regs.rsp, r.regs.rflags, r.regs.cs, r.regs.rip, r.errCode, r.intNo);
      PushLow(r.regs.rax, r.regs);
      PushHigh(r.regs);
    }

    /** The store of the handler's result, after which the restore sequence can run. */
    method StoreResult(ghost r: Saved, result: nat)
      requires Valid() && pushed == TrapWords(r)
      modifies this
      ensures Valid() && sp == old(sp) && Holds(stack, sp, 22) && Restore(stack, sp) == r.regs.(rax := result)
    {
      TrapReturns(stack, base, sp, r, result);
      ResultStacked(stack, base, sp, pushed, result);
      stack := stack[sp + 0x70 := result];
      pushed := pushed[7 := result];
    }

    /** setup_kthread. */
    method SetupKthread(arg: nat, exit: nat, start: nat, launch: nat)
      requires Valid() && pushed == [] && sp >= 200
      modifies this
      ensures Valid() && base >= 24 && pushed == LaunchWords(base, arg, exit, start, launch) && sp == old(sp) - 200
    {
      Push(arg);
      Push(exit);
      Push(start);
      Push(0x10);
      Push(sp + 8);
      Push(0);
      Push(0x8);
      Push(launch);
      Push(0);
      Push(0);
      PushGeneralRegisters();
    }

    /** setup_kthread_user, for a program with the given user stack pointer and entry. */
    method SetupUser(rsp: nat, entry: nat)
      requires Valid() && pushed == [] && sp >= 176
      modifies this
      ensures Valid() && pushed == UserWords(rsp, entry) && sp == old(sp) - 176
    {
      PushReturn(0x23, rsp, 0x200, 0x1B, entry, 0, 0);
      PushGeneralRegisters();
    }
  }
}
