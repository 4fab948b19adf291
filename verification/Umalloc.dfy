/** umalloc.c: malloc, free and morecore. sbrk is outside the model: malloc is told what it
    would answer, and calls it at most once. */
module Umalloc {
  import opened Basics
  import opened FreeList

  const NALLOC: nat := 4096
  const UNIT: nat := 8

  /** The units a request takes, header included. */
  function UnitsFor(nbytes: nat): (n: nat)
    ensures n > 0 && nbytes <= (n - 1) * UNIT < nbytes + UNIT
  {
    (nbytes + UNIT - 1) / UNIT + 1
  }

  /** What morecore asks sbrk for. */
  function Request(nunits: nat): (n: nat)
    ensures n >= nunits && n >= NALLOC && (n == nunits || n == NALLOC)
  {
    if nunits < NALLOC then NALLOC else nunits
  }

  class Allocator {
    var mem: seq<Header>
    var freep: nat
    ghost var free: set<nat>
    ghost var live: map<nat, nat>
    ghost var arena: set<nat>

    constructor (size: nat)
      requires size > BASE
      ensures Valid() && |mem| == size && live == map[] && arena == {}
    {
      mem, freep, free, live, arena := seq(size, _ => Header(0, 0)), 0, {}, map[], {};
    }

    ghost predicate Valid()
      reads this
    {
      && |mem| > BASE
      && if freep == 0 then free == {} && live == map[] && arena == {} else freep in free && Inv(mem, free, live, arena)
    }

    method Free(ap: nat)
      requires Valid() && ap > 0 && ap - 1 in live
      modifies this
      ensures Valid() && freep != 0 && |mem| == |old(mem)|
      ensures live == old(live) - {ap - 1} && arena == old(arena) && Untouched(old(mem), mem, live)
      ensures freep in free && Before(old(free), freep, ap - 1)
      ensures exists a :: a in free && a < ap && ap - 1 + old(live)[ap - 1] <= a + mem[a].size
    {
      hide Parts, Coalesced, Links, Untouched, FreeAfter;
      var bp := ap - 1;
      var p := Search(bp);
      FreedInv(mem, free, live, arena, p, bp);
      ghost var mem0 := mem;
      free := FreeAfter(mem, free, p, bp);
      var nx := mem[p].ptr;
      if bp + mem[bp].size == nx {
        mem := mem[bp := Header(mem[nx].ptr, mem[bp].size + mem[nx].size)];
      } else {
        mem := mem[bp := Header(nx, mem[bp].size)];
      }
      assert mem == JoinUp(mem0, p, bp);
      if p + mem[p].size == bp {
        mem := mem[p := Header(mem[bp].ptr, mem[p].size + mem[bp].size)];
      } else {
        mem := mem[p := Header(bp, mem[p].size)];
      }
      assert mem == JoinDown(JoinUp(mem0, p, bp), p, bp);
      freep := p;
      live := live - {bp};
    }

    /** free's search: the last header below `bp`. */
    method Search(bp: nat) returns (p: nat)
      requires Valid() && bp in live
      ensures Before(free, p, bp) && Links(mem, free, p) && 0 < p < bp < |mem| && mem[p].ptr < |mem|
    {
      hide Spaced, Coalesced, Conserved, Above;
      assert forall a | a in free :: a != bp;
      p := freep;
      assert Links(mem, free, p);
      while !(bp > p && bp < mem[p].ptr)
        invariant p in free && Links(mem, free, p)
        decreases p > bp, Above(free, p)
      {
        if p >= mem[p].ptr && (bp > p || bp < mem[p].ptr) {
          break;
        }
        if mem[p].ptr > p {
          AboveStep(free, p, mem[p].ptr);
        }
        p := mem[p].ptr;
        assert Links(mem, free, p);
      }
    }

    method Morecore(nunits: nat, sbrk: Option<nat>) returns (r: Option<nat>)
      requires Valid() && freep != 0 && nunits > 0 && Request(nunits) * UNIT < 0x8000_0000
      requires sbrk.Some? ==> Grantable(mem, arena, sbrk.value, Request(nunits))
      modifies this
      ensures Valid() && freep != 0 && live == old(live) && |mem| == |old(mem)| && Untouched(old(mem), mem, live)
      ensures sbrk.None? ==>
                r.None? && arena == old(arena) && mem == old(mem) && free == old(free) && freep == old(freep)
      ensures sbrk.Some? ==>
                && r == Some(freep) && arena == old(arena) + Units(sbrk.value, Request(nunits))
                && exists a :: a in free && mem[a].size >= nunits
    {
      hide Parts, Coalesced;
      var nu := nunits;
      if nu < NALLOC {
        nu := NALLOC;
      }
      if sbrk.None? {
        return None;
      }
      var hp := sbrk.value;
      GrantedInv(mem, free, live, arena, hp, nu);
      ghost var live0 := live;
      mem := mem[hp := Header(mem[hp].ptr, nu)];
      live, arena := live[hp := nu], arena + Units(hp, nu);
      Free(hp + 1);
      assert live == live0;
      r := Some(freep);
    }

    /** A block of the units asked for, new to the program: the end of the first one long
        enough after `freep`. sbrk is asked (`grown`, ghost) only when no free block is, and
        null is the answer only when it then refuses. */
    method Malloc(nbytes: nat, sbrk: Option<nat>) returns (r: Option<nat>, ghost grown: bool)
      requires Valid() && Request(UnitsFor(nbytes)) * UNIT < 0x8000_0000
      requires sbrk.Some? ==> Grantable(mem, arena, sbrk.value, Request(UnitsFor(nbytes)))
      modifies this
      ensures Valid() && |mem| == |old(mem)| && Untouched(old(mem), mem, old(live))
      ensures r.Some? ==>
                && r.value > 0 && r.value - 1 !in old(live)
                && live == old(live)[r.value - 1 := UnitsFor(nbytes)]
      ensures r.None? ==> sbrk.None? && live == old(live) && forall a | a in free :: mem[a].size < UnitsFor(nbytes)
      ensures !grown ==> arena == old(arena)
      ensures !grown && r.Some? ==> exists q :: FirstFit(old(mem), old(free), old(freep), q, UnitsFor(nbytes), r.value)
      ensures grown ==>
                && sbrk.Some? && arena == old(arena) + Units(sbrk.value, Request(UnitsFor(nbytes)))
                && forall a | a in old(free) :: old(mem)[a].size < UnitsFor(nbytes)
    {
      hide Spaced, Coalesced, LiveDisjoint, Apart, Conserved, Links, Untouched, Ahead;
      var nunits := (nbytes + UNIT - 1) / UNIT + 1;
      UntouchedTwice(mem, mem, mem, live);
      var prevp := freep;
      if prevp == 0 {
        mem := mem[BASE := Header(BASE, 0)];
        freep, prevp := BASE, BASE;
        free := {BASE};
        FirstInv(mem);
        NothingLive(old(mem), mem);
      }
      ghost var mem0, free0 := mem, free;
      grown := false;
      AheadStep(mem, free, prevp, freep);
      var p := mem[prevp].ptr;
      while true
        invariant Valid() && freep != 0 && live == old(live) && |mem| == |old(mem)|
        invariant Untouched(old(mem), mem, old(live))
        invariant prevp in free && p == mem[prevp].ptr && p in free
        invariant !grown ==>
                    mem == mem0 && free == free0 && arena == old(arena) && (old(freep) != 0 ==> freep == old(freep))
        invariant !grown ==> forall a | a in free && a !in Ahead(free, p, freep) :: mem[a].size < nunits
        invariant grown ==> sbrk.Some? && arena == old(arena) + Units(sbrk.value, Request(nunits))
        invariant grown ==> forall a | a in free0 :: mem0[a].size < nunits
        invariant grown ==> exists a :: a in Ahead(free, p, freep) && mem[a].size >= nunits
        decreases !grown, Ahead(free, p, freep)
      {
        AheadStep(mem, free, p, freep);
        if mem[p].size >= nunits {
          ghost var before := mem;
          r := Take(prevp, p, nunits);
          assert !grown ==> FirstFit(mem0, free0, old(freep), p, nunits, r.value);
          UntouchedTwice(old(mem), before, mem, old(live));
          return;
        }
        if p == freep {
          ghost var before := mem;
          var more := Morecore(nunits, sbrk);
          if more.None? {
            return None, false;
          }
          UntouchedTwice(old(mem), before, mem, live);
          p := more.value;
          grown := true;
          AheadStep(mem, free, p, freep);
        }
        prevp := p;
        p := mem[p].ptr;
      }
    }

    /** Takes `nunits` from the free block `p`: all of it, or its last part. */
    method Take(prevp: nat, q: nat, nunits: nat) returns (r: Option<nat>)
      requires Valid() && freep != 0 && prevp in free && q in free && q == mem[prevp].ptr && mem[q].size >= nunits > 0
      modifies this
      ensures Valid() && |mem| == |old(mem)| && arena == old(arena) && Untouched(old(mem), mem, old(live))
      ensures r.Some? && r.value > 0 && r.value - 1 !in old(live) && live == old(live)[r.value - 1 := nunits]
      ensures r.value - 1 == q + old(mem)[q].size - nunits && freep == prevp
    {
      hide Coalesced, LiveDisjoint, Apart, Conserved, Untouched;
      var p := q;
      if mem[p].size == nunits {
        TakeWhole(mem, free, live, arena, prevp, p);
        mem := mem[prevp := Header(mem[p].ptr, mem[prevp].size)];
        free := free - {p};
      } else {
        TakeTail(mem, free, live, arena, p, nunits);
        mem := mem[p := Header(mem[p].ptr, mem[p].size - nunits)];
        p := p + mem[p].size;
        mem := mem[p := Header(mem[p].ptr, nunits)];
      }
      live := live[p := nunits];
      freep := prevp;
      r := Some(p + 1);
    }
  }

  /** `ap` is in the end of `q`, past its header, and no free block from the one after `freep` to `q` would do. */
  ghost predicate FirstFit(mem: seq<Header>, free: set<nat>, freep: nat, q: nat, n: nat, ap: nat) {
    && q in free && q < |mem| && mem[q].size >= n && ap == q + mem[q].size - n + 1
    && forall a | a in free && a < |mem| && a !in Ahead(free, q, freep) :: mem[a].size < n
  }

  lemma {:induction false} FirstInv(mem: seq<Header>)
    requires |mem| > BASE && mem[BASE] == Header(BASE, 0)
    ensures Inv(mem, {BASE}, map[], {})
  {
  }
}
