/** The user-stack frames of signal.c: psig saves the interrupted context below the stack
    pointer, kernel_sigreturn reads it back. Deliveries nest to any depth. */
module SignalFrames {
  import opened Basics

  type Mem = seq<Byte>

  datatype Regs = Regs(ss: Uint, esp: Uint, eflags: Uint, cs: Uint, eip: Uint, ds: Uint, es: Uint, fs: Uint, gs: Uint,
                       eax: Uint, ecx: Uint, edx: Uint, ebx: Uint, oesp: Uint, ebp: Uint, esi: Uint, edi: Uint)

  /** What delivery takes of the stack: 17 registers, the signal number, the return address. */
  const FRAME: nat := 76

  /** `mem'` has the same bytes from `lo` up to `hi`. */
  ghost predicate Same(mem: Mem, mem': Mem, lo: nat, hi: nat) {
    |mem'| == |mem| && forall b: nat | lo <= b < hi && b < |mem| :: mem'[b] == mem[b]
  }

  /** Words stored one below the other, the first just under `sp`. */
  function Push(mem: Mem, sp: nat, ws: seq<Uint>): (m: Mem)
    requires 4 * |ws| <= sp <= |mem|
    ensures |m| == |mem|
    decreases |ws|
  {
    if ws == [] then mem else Push(Store(mem, sp - 4, ws[0]), sp - 4, ws[1..])
  }

  lemma {:induction false} Pushed(mem: Mem, sp: nat, ws: seq<Uint>)
    requires 4 * |ws| <= sp <= |mem|
    ensures Same(mem, Push(mem, sp, ws), sp, |mem|)
    ensures forall k: nat | k < |ws| :: Below(Push(mem, sp, ws), sp, k) == ws[k]
    decreases |ws|
  {
    if ws != [] {
      var m := Store(mem, sp - 4, ws[0]);
      LoadStore(mem, sp - 4, ws[0]);
      var m' := Push(m, sp - 4, ws[1..]);
      Pushed(m, sp - 4, ws[1..]);
      forall k: nat | k < |ws| ensures Below(m', sp, k) == ws[k] {
        if k == 0 {
          SameLoad(m, m', sp - 4);
        } else {
          assert ws[1..][k - 1] == ws[k] && Below(m', sp, k) == Below(m', sp - 4, k - 1);
        }
      }
    }
  }

  lemma {:induction false} SameLoad(mem: Mem, mem': Mem, a: nat)
    requires a + 4 <= |mem| && Same(mem, mem', a, a + 4)
    ensures Load(mem', a) == Load(mem, a)
  {
  }

  // ---- Frames ---------------------------------------------------------------------------

  /** In the order psig stores them. */
  function Saved(r: Regs): (ws: seq<Uint>)
    ensures |ws| == 17
  {
    [r.ss, r.esp, r.eflags, r.cs, r.eip, r.ds, r.es, r.fs, r.gs, r.eax, r.ecx, r.edx, r.ebx, r.oesp, r.ebp, r.esi,
     r.edi]
  }

  /** psig's stores for signal `i`, with the address of sigreturn. */
  function Deliver(mem: Mem, r: Regs, i: Uint, sigreturn: Uint): (m: Mem)
    requires FRAME <= r.esp <= |mem|
    ensures |m| == |mem|
  {
    Push(mem, r.esp, Saved(r) + [i, sigreturn])
  }

  /** kernel_sigreturn's loads, the user's stack pointer being `sp`. */
  function Sigreturn(mem: Mem, sp: nat): Regs
    requires sp + 72 <= |mem|
  {
    Regs(ss := Load(mem, sp + 68), esp := Load(mem, sp + 64), eflags := Load(mem, sp + 60), cs := Load(mem, sp + 56),
         eip := Load(mem, sp + 52), ds := Load(mem, sp + 48), es := Load(mem, sp + 44), fs := Load(mem, sp + 40),
         gs := Load(mem, sp + 36), eax := Load(mem, sp + 32), ecx := Load(mem, sp + 28), edx := Load(mem, sp + 24),
         ebx := Load(mem, sp + 20), oesp := Load(mem, sp + 16), ebp := Load(mem, sp + 12), esi := Load(mem, sp + 8),
         edi := Load(mem, sp + 4))
  }

  /** The `k`-th word below `sp`. */
  function Below(mem: Mem, sp: nat, k: nat): Uint
    requires 4 * k + 4 <= sp <= |mem|
  {
    Load(mem, sp - 4 * k - 4)
  }

  /** The frame for `r` is in memory. */
  ghost predicate Holds(mem: Mem, r: Regs) {
    FRAME <= r.esp <= |mem| && forall k: nat | k < 17 :: Below(mem, r.esp, k) == Saved(r)[k]
  }

  lemma {:induction false} Delivered(mem: Mem, r: Regs, i: Uint, sigreturn: Uint)
    requires FRAME <= r.esp <= |mem|
    ensures Holds(Deliver(mem, r, i, sigreturn), r) && Same(mem, Deliver(mem, r, i, sigreturn), r.esp, |mem|)
    ensures Load(Deliver(mem, r, i, sigreturn), r.esp - 76) == sigreturn
    ensures Load(Deliver(mem, r, i, sigreturn), r.esp - 72) == i
  {
    var ws := Saved(r) + [i, sigreturn];
    Pushed(mem, r.esp, ws);
    forall k: nat | k < 17 ensures Below(Deliver(mem, r, i, sigreturn), r.esp, k) == Saved(r)[k] {
      assert ws[k] == Saved(r)[k];
    }
    assert ws[17] == i && ws[18] == sigreturn;
    assert Below(Deliver(mem, r, i, sigreturn), r.esp, 17) == i;
    assert Below(Deliver(mem, r, i, sigreturn), r.esp, 18) == sigreturn;
  }

  /** From a frame, entered with the return address popped, come back all 17 registers. */
  lemma {:induction false} Returned(mem: Mem, r: Regs)
    requires Holds(mem, r)
    ensures Sigreturn(mem, r.esp - FRAME + 4) == r
  {
    hide Load;
    var sp, m := r.esp - FRAME + 4, mem;
    assert Load(m, sp + 68) == Below(m, r.esp, 0) == Saved(r)[0] &&
           Load(m, sp + 64) == Below(m, r.esp, 1) == Saved(r)[1];
    assert Load(m, sp + 60) == Below(m, r.esp, 2) == Saved(r)[2] &&
           Load(m, sp + 56) == Below(m, r.esp, 3) == Saved(r)[3];
    assert Load(m, sp + 52) == Below(m, r.esp, 4) == Saved(r)[4] &&
           Load(m, sp + 48) == Below(m, r.esp, 5) == Saved(r)[5];
    assert Load(m, sp + 44) == Below(m, r.esp, 6) == Saved(r)[6] &&
           Load(m, sp + 40) == Below(m, r.esp, 7) == Saved(r)[7];
    assert Load(m, sp + 36) == Below(m, r.esp, 8) == Saved(r)[8] &&
           Load(m, sp + 32) == Below(m, r.esp, 9) == Saved(r)[9];
    assert Load(m, sp + 28) == Below(m, r.esp, 10) == Saved(r)[10] &&
           Load(m, sp + 24) == Below(m, r.esp, 11) == Saved(r)[11];
    assert Load(m, sp + 20) == Below(m, r.esp, 12) == Saved(r)[12] &&
           Load(m, sp + 16) == Below(m, r.esp, 13) == Saved(r)[13];
    assert Load(m, sp + 12) == Below(m, r.esp, 14) == Saved(r)[14] &&
           Load(m, sp + 8) == Below(m, r.esp, 15) == Saved(r)[15];
    assert Load(m, sp + 4) == Below(m, r.esp, 16) == Saved(r)[16];
  }

  lemma {:induction false} HoldsSame(mem: Mem, mem': Mem, r: Regs, lo: nat)
    requires Holds(mem, r) && Same(mem, mem', lo, |mem|) && lo <= r.esp - 68
    ensures Holds(mem', r)
  {
    forall k: nat | k < 17 ensures Below(mem', r.esp, k) == Below(mem, r.esp, k) {
      SameLoad(mem, mem', r.esp - 4 * k - 4);
    }
  }

  lemma {:induction false} PushMore(mem: Mem, sp: nat, ws: seq<Uint>, w: Uint)
    requires 4 * |ws| + 4 <= sp <= |mem|
    ensures Push(mem, sp, ws + [w]) == Store(Push(mem, sp, ws), sp - 4 * |ws| - 4, w)
    decreases |ws|
  {
    hide Store;
    if ws == [] {
      assert ws + [w] == [w] && [w][1..] == [];
    } else {
      assert (ws + [w])[1..] == ws[1..] + [w];
      PushMore(Store(mem, sp - 4, ws[0]), sp - 4, ws[1..], w);
    }
  }

  class UserContext {
    var mem: Mem
    var tf: Regs

    /** The stores psig makes before it jumps to the handler of signal `i`: the handler finds its
        return address on top of the stack, the signal number under it, and then the context. */
    method SaveContext(i: Uint, sigreturn: Uint)
      requires FRAME <= tf.esp <= |mem|
      modifies this`mem, this`tf
      ensures mem == Deliver(old(mem), old(tf), i, sigreturn) && tf == old(tf).(esp := old(tf).esp - FRAME)
      ensures Load(mem, tf.esp) == sigreturn && Load(mem, tf.esp + 4) == i
      ensures Holds(mem, old(tf)) && Same(old(mem), mem, old(tf).esp, |mem|)
    {
      hide Push, Store, Saved, Load, Holds, Same;
      ghost var was, ws := mem, Saved(tf) + [i, sigreturn];
      assert ws[..17] == Saved(tf) && ws[..19] == ws;
      var m := SaveFirst(mem, tf, ws);
      m := SaveRest(m, tf, was, ws);
      Stored(was, tf.esp, ws, 17, m);
      m := Store(m, tf.esp - 72, i);
      Stored(was, tf.esp, ws, 18, m);
      mem := Store(m, tf.esp - 76, sigreturn);
      tf := tf.(esp := tf.esp - 76);
      Delivered(old(mem), old(tf), i, sigreturn);
    }
  }

  /** The segment registers, the stack pointer, the flags and the place interrupted. */
  method SaveFirst(was: Mem, r: Regs, ghost ws: seq<Uint>) returns (m: Mem)
    requires FRAME <= r.esp <= |was| && |ws| == 19 && ws[..17] == Saved(r)
    ensures m == Push(was, r.esp, ws[..9])
  {
    hide Push, Store, Saved;
    m := was;
    PushNothing(m, r.esp);
    assert ws[..0] == [];
    WordsAre(ws, r);
    Stored(was, r.esp, ws, 0, m);
    m := Store(m, r.esp - 4, r.ss);
    Stored(was, r.esp, ws, 1, m);
    m := Store(m, r.esp - 8, r.esp);
    Stored(was, r.esp, ws, 2, m);
    m := Store(m, r.esp - 12, r.eflags);
    Stored(was, r.esp, ws, 3, m);
    m := Store(m, r.esp - 16, r.cs);
    Stored(was, r.esp, ws, 4, m);
    m := Store(m, r.esp - 20, r.eip);
    Stored(was, r.esp, ws, 5, m);
    m := Store(m, r.esp - 24, r.ds);
    Stored(was, r.esp, ws, 6, m);
    m := Store(m, r.esp - 28, r.es);
    Stored(was, r.esp, ws, 7, m);
    m := Store(m, r.esp - 32, r.fs);
    Stored(was, r.esp, ws, 8, m);
    m := Store(m, r.esp - 36, r.gs);
  }

  /** The other registers. */
  method SaveRest(first: Mem, r: Regs, ghost was: Mem, ghost ws: seq<Uint>) returns (m: Mem)
    requires FRAME <= r.esp <= |was| && |ws| == 19 && ws[..17] == Saved(r) && first == Push(was, r.esp, ws[..9])
    ensures m == Push(was, r.esp, ws[..17])
  {
    hide Push, Store, Saved;
    m := first;
    WordsAre(ws, r);
    Stored(was, r.esp, ws, 9, m);
    m := Store(m, r.esp - 40, r.eax);
    Stored(was, r.esp, ws, 10, m);
    m := Store(m, r.esp - 44, r.ecx);
    Stored(was, r.esp, ws, 11, m);
    m := Store(m, r.esp - 48, r.edx);
    Stored(was, r.esp, ws, 12, m);
    m := Store(m, r.esp - 52, r.ebx);
    Stored(was, r.esp, ws, 13, m);
    m := Store(m, r.esp - 56, r.oesp);
    Stored(was, r.esp, ws, 14, m);
    m := Store(m, r.esp - 60, r.ebp);
    Stored(was, r.esp, ws, 15, m);
    m := Store(m, r.esp - 64, r.esi);
    Stored(was, r.esp, ws, 16, m);
    m := Store(m, r.esp - 68, r.edi);
  }

  lemma {:induction false} WordsAre(ws: seq<Uint>, r: Regs)
    requires |ws| == 19 && ws[..17] == Saved(r)
    ensures ws[0] == r.ss && ws[1] == r.esp && ws[2] == r.eflags && ws[3] == r.cs && ws[4] == r.eip && ws[5] == r.ds
    ensures ws[6] == r.es && ws[7] == r.fs && ws[8] == r.gs
    ensures ws[9] == r.eax && ws[10] == r.ecx && ws[11] == r.edx && ws[12] == r.ebx && ws[13] == r.oesp
    ensures ws[14] == r.ebp && ws[15] == r.esi && ws[16] == r.edi
  {
    assert forall k | 0 <= k < 17 :: ws[k] == ws[..17][k];
  }

  /** One more store. */
  lemma {:induction false} Stored(was: Mem, sp: nat, ws: seq<Uint>, k: nat, m: Mem)
    requires k < |ws| && 4 * |ws| <= sp <= |was| && m == Push(was, sp, ws[..k])
    ensures |m| == |was| && Store(m, sp - 4 * k - 4, ws[k]) == Push(was, sp, ws[..k + 1])
  {
    PushMore(was, sp, ws[..k], ws[k]);
    assert ws[..k + 1] == ws[..k] + [ws[k]];
  }

  lemma {:induction false} PushNothing(mem: Mem, sp: nat)
    requires sp <= |mem|
    ensures Push(mem, sp, []) == mem
  {
  }

  // ---- Nested deliveries -----------------------------------------------------------------

  /** `frames` is auxiliary: the contexts interrupted and not yet gone back to, oldest first. */
  datatype State = State(mem: Mem, regs: Regs, frames: seq<Regs>)

  /** `Ret` is the handler's last instruction, `Return` the system call of sigreturn's code. */
  datatype Event = Interrupt(i: Uint, sigreturn: Uint, entered: Regs) | Compute(mem: Mem, regs: Regs) | Ret | Return

  /** Below this address the handler running now may write as it likes. */
  function Floor(s: State): nat
    requires s.frames != []
  {
    var r := s.frames[|s.frames| - 1];
    if r.esp >= 68 then r.esp - 68 else 0
  }

  /** A delivery finds the stack pointer no higher than the saved frame; a handler computes
      anything but leaves memory from its saved frame upward; it returns with its stack
      balanced, its return address popped. */
  ghost predicate Enabled(s: State, e: Event) {
    match e
    case Interrupt(_, _, entered) =>
      && FRAME <= s.regs.esp <= |s.mem| && entered.esp == s.regs.esp - FRAME
      && (s.frames != [] ==> s.regs.esp <= Floor(s))
    case Compute(mem, _) => |mem| == |s.mem| && (s.frames != [] ==> Same(s.mem, mem, Floor(s), |mem|))
    case Ret => s.frames != [] && s.regs.esp + FRAME == s.frames[|s.frames| - 1].esp && s.regs.esp + 4 <= |s.mem|
    case Return => s.frames != [] && s.regs.esp + FRAME == s.frames[|s.frames| - 1].esp + 4 &&
                   s.regs.esp + 72 <= |s.mem|
  }

  function Do(s: State, e: Event): State
    requires Enabled(s, e)
  {
    match e
    case Interrupt(i, sigreturn, entered) => State(Deliver(s.mem, s.regs, i, sigreturn), entered, s.frames + [s.regs])
    case Compute(mem, regs) => State(mem, regs, s.frames)
    case Ret => s.(regs := s.regs.(eip := Load(s.mem, s.regs.esp), esp := s.regs.esp + 4))
    case Return => State(s.mem, Sigreturn(s.mem, s.regs.esp), s.frames[..|s.frames| - 1])
  }

  /** Every frame is in memory, each below the one before it. */
  ghost predicate Inv(s: State) {
    && (forall k: nat | k < |s.frames| :: Holds(s.mem, s.frames[k]))
    && (forall k: nat | k + 1 < |s.frames| :: s.frames[k + 1].esp <= s.frames[k].esp - 68)
  }

  lemma {:induction false} Above(s: State, k: nat)
    requires Inv(s) && k < |s.frames|
    ensures Floor(s) <= s.frames[k].esp - 68
    decreases |s.frames| - k
  {
    hide Holds;
    assert Holds(s.mem, s.frames[|s.frames| - 1]) && Holds(s.mem, s.frames[k]);
    assert s.frames[|s.frames| - 1].esp >= FRAME && s.frames[k].esp >= FRAME by {
      HoldsHigh(s.mem, s.frames[|s.frames| - 1]);
      HoldsHigh(s.mem, s.frames[k]);
    }
    if k + 1 < |s.frames| {
      Above(s, k + 1);
    }
  }

  lemma {:induction false} HoldsHigh(mem: Mem, r: Regs)
    requires Holds(mem, r)
    ensures FRAME <= r.esp
  {
  }

  lemma {:induction false} StepInv(s: State, e: Event)
    requires Inv(s) && Enabled(s, e)
    ensures Inv(Do(s, e))
    ensures e.Return? ==> Do(s, e).regs == s.frames[|s.frames| - 1]
    ensures |Do(s, e).frames| == |s.frames| + (if e.Interrupt? then 1 else if e.Return? then -1 else 0)
    ensures e.Interrupt? ==>
              var t := Do(s, e);
              t.regs.esp + 8 <= |t.mem| && Load(t.mem, t.regs.esp) == e.sigreturn && Load(t.mem, t.regs.esp + 4) == e.i
  {
    hide Holds, Same, Deliver, Sigreturn, Load;
    match e {
      case Interrupt(i, sigreturn, entered) =>
        Delivered(s.mem, s.regs, i, sigreturn);
        var t := Do(s, e);
        forall k: nat | k < |t.frames| ensures Holds(t.mem, t.frames[k]) {
          if k < |s.frames| {
            Above(s, k);
            HoldsSame(s.mem, t.mem, s.frames[k], s.regs.esp);
          }
        }
        if s.frames != [] {
          HoldsHigh(s.mem, s.frames[|s.frames| - 1]);
        }
      case Compute(mem, regs) =>
        forall k: nat | k < |s.frames| ensures Holds(mem, s.frames[k]) {
          Above(s, k);
          HoldsSame(s.mem, mem, s.frames[k], Floor(s));
        }
      case Ret =>
      case Return =>
        var r := s.frames[|s.frames| - 1];
        HoldsHigh(s.mem, r);
        Returned(s.mem, r);
    }
  }

  ghost predicate Run(ss: seq<State>, es: seq<Event>) {
    && |ss| == |es| + 1 && ss[0].frames == []
    && forall k: nat | k < |es| :: Enabled(ss[k], es[k]) && ss[k + 1] == Do(ss[k], es[k])
  }

  lemma {:induction false} RunInv(ss: seq<State>, es: seq<Event>, k: nat)
    requires Run(ss, es) && k < |ss|
    ensures Inv(ss[k])
    decreases k
  {
    hide Enabled, Do;
    if k > 0 {
      RunInv(ss, es, k - 1);
      StepInv(ss[k - 1], es[k - 1]);
    }
  }

  /** The frame pushed at step `a` stays where it is while the stack is higher. */
  lemma {:induction false} FrameStays(ss: seq<State>, es: seq<Event>, a: nat, b: nat)
    requires Run(ss, es) && a < b < |ss| && es[a].Interrupt?
    requires forall k: nat | a < k <= b :: |ss[k].frames| > |ss[a].frames|
    ensures ss[b].frames[|ss[a].frames|] == ss[a].regs
    decreases b
  {
    hide Enabled, Deliver, Sigreturn;
    assert ss[b] == Do(ss[b - 1], es[b - 1]);
    if b > a + 1 {
      FrameStays(ss, es, a, b - 1);
    }
  }

  /** Last in, first out: however many signals are handled in between, the sigreturn that ends
      the handler entered at step `a` gives back every register as it was at step `a`. */
  lemma {:induction false} LastInFirstOut(ss: seq<State>, es: seq<Event>, a: nat, b: nat)
    requires Run(ss, es) && a < b < |es| && es[a].Interrupt? && es[b].Return?
    requires |ss[b + 1].frames| == |ss[a].frames| && forall k: nat | a < k <= b :: |ss[k].frames| > |ss[a].frames|
    ensures ss[b + 1].regs == ss[a].regs
  {
    hide Inv, Deliver, Sigreturn;
    FrameStays(ss, es, a, b);
    RunInv(ss, es, b);
    StepInv(ss[b], es[b]);
    assert ss[b + 1] == Do(ss[b], es[b]);
  }

  // ---- The way back ------------------------------------------------------------------------

  /** The handler running now does not write the word at `lo`, and a signal that interrupts it
      finds the stack pointer no higher. */
  ghost predicate Keeps(s: State, e: Event, lo: nat) {
    match e
    case Interrupt(_, _, _) => s.regs.esp <= lo
    case Compute(mem, _) => Same(s.mem, mem, lo, lo + 4)
    case _ => true
  }

  /** The word at `lo` is `w`, and handlers nested deeper than `d` have their frames below it. */
  ghost predicate Kept(s: State, d: nat, lo: nat, w: Uint) {
    && lo + 4 <= |s.mem| && Load(s.mem, lo) == w
    && (|s.frames| > d ==> s.frames[d].esp <= lo)
  }

  lemma {:induction false} StepKeeps(s: State, e: Event, d: nat, lo: nat, w: Uint)
    requires Inv(s) && Enabled(s, e) && Kept(s, d, lo, w) && 0 < d <= |s.frames| && |Do(s, e).frames| >= d
    requires |s.frames| == d ==> Keeps(s, e, lo)
    ensures Kept(Do(s, e), d, lo, w)
  {
    hide Holds, Load, Deliver, Sigreturn;
    if |s.frames| > d {
      Above(s, d);
    }
    match e
    case Interrupt(i, sigreturn, _) =>
      Delivered(s.mem, s.regs, i, sigreturn);
      SameLoad(s.mem, Do(s, e).mem, lo);
    case Compute(mem, _) => SameLoad(s.mem, mem, lo);
    case _ =>
  }

  lemma {:induction false} AddressStays(ss: seq<State>, es: seq<Event>, a: nat, b: nat)
    requires Run(ss, es) && a < b < |ss| && es[a].Interrupt?
    requires forall k: nat | a < k <= b :: |ss[k].frames| > |ss[a].frames|
    requires forall k: nat | a < k < b && |ss[k].frames| == |ss[a].frames| + 1 ::
               Keeps(ss[k], es[k], ss[a].regs.esp - FRAME)
    ensures FRAME <= ss[a].regs.esp
    ensures Kept(ss[b], |ss[a].frames| + 1, ss[a].regs.esp - FRAME, es[a].sigreturn)
    decreases b
  {
    hide Enabled, Do, Inv, Keeps, Kept, Load;
    var s, e := ss[b - 1], es[b - 1];
    assert Enabled(s, e) && ss[b] == Do(s, e);
    if b == a + 1 {
      FirstKept(s, e);
    } else {
      AddressStays(ss, es, a, b - 1);
      RunInv(ss, es, b - 1);
      StepKeeps(s, e, |ss[a].frames| + 1, ss[a].regs.esp - FRAME, es[a].sigreturn);
    }
  }

  lemma {:induction false} FirstKept(s: State, e: Event)
    requires Enabled(s, e) && e.Interrupt?
    ensures FRAME <= s.regs.esp && Kept(Do(s, e), |s.frames| + 1, s.regs.esp - FRAME, e.sigreturn)
  {
    hide Load, Deliver;
    Delivered(s.mem, s.regs, e.i, e.sigreturn);
  }

  /** A handler that leaves its return address alone returns into sigreturn's code, however many
      signals are handled in between, with the stack as kernel_sigreturn wants it. The system call
      there then gives back every register as it was when the signal came. */
  lemma {:induction false} HandlerReturns(ss: seq<State>, es: seq<Event>, a: nat, b: nat)
    requires Run(ss, es) && a < b < |es| && es[a].Interrupt? && es[b].Ret?
    requires |ss[b].frames| == |ss[a].frames| + 1 && forall k: nat | a < k <= b :: |ss[k].frames| > |ss[a].frames|
    requires forall k: nat | a < k < b && |ss[k].frames| == |ss[a].frames| + 1 ::
               Keeps(ss[k], es[k], ss[a].regs.esp - FRAME)
    ensures ss[b + 1].regs.eip == es[a].sigreturn
    ensures Enabled(ss[b + 1], Return) && Do(ss[b + 1], Return).regs == ss[a].regs
  {
    hide Load, Deliver, Sigreturn;
    AddressStays(ss, es, a, b);
    FrameStays(ss, es, a, b);
    RunInv(ss, es, b);
    assert Enabled(ss[b], es[b]) && ss[b + 1] == Do(ss[b], es[b]);
    RunInv(ss, es, b + 1);
    assert Holds(ss[b].mem, ss[a].regs);
    StepInv(ss[b + 1], Return);
  }
}
