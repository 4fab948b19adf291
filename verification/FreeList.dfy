/** The free list of umalloc.c, the storage allocator of section 8.7 of The C Programming
    Language, and what each change to it keeps. Addresses count header-sized units. */
module FreeList {
  /** The static header `base`; the heap lies above it. */
  const BASE: nat := 1

  datatype Header = Header(ptr: nat, size: nat)

  // ---- The heap between calls ---------------------------------------------------------
  // `free` and `live` are ghost: the headers on the free list, and the blocks the program
  // holds with their sizes. `arena` is ghost, every unit sbrk has granted.

  /** `b` follows `a` around the list: the next one up, or `base` after the last. */
  ghost predicate Follows(free: set<nat>, a: nat, b: nat) {
    if b > a then forall c | c in free :: c <= a || b <= c else b == BASE && forall c | c in free :: c <= a
  }

  ghost predicate Links(mem: seq<Header>, free: set<nat>, a: nat)
    requires a < |mem|
  {
    mem[a].ptr in free && Follows(free, a, mem[a].ptr)
  }

  /** The list is circular and in address order, with one wrap. */
  ghost predicate Ring(mem: seq<Header>, free: set<nat>) {
    && BASE in free
    && (forall a | a in free :: BASE <= a < |mem|)
    && (forall a {:trigger Links(mem, free, a)} | a in free :: Links(mem, free, a))
  }

  ghost predicate Spaced(mem: seq<Header>, free: set<nat>)
    requires Ring(mem, free)
  {
    && mem[BASE].size == 0
    && (forall a | a in free :: a + mem[a].size <= |mem| && (a != BASE ==> mem[a].size > 0))
    && (forall a, b | a in free && b in free && a < b :: a + mem[a].size <= b)
  }

  /** No free block touches the one after it. */
  ghost predicate Coalesced(mem: seq<Header>, free: set<nat>)
    requires Ring(mem, free)
  {
    forall a | a in free && a < mem[a].ptr :: a + mem[a].size < mem[a].ptr
  }

  ghost predicate LiveDisjoint(mem: seq<Header>, live: map<nat, nat>) {
    && (forall a | a in live :: BASE < a && live[a] > 0 && a + live[a] <= |mem| && mem[a].size == live[a])
    && (forall a, b | a in live && b in live && a < b :: a + live[a] <= b)
  }

  ghost predicate Apart(mem: seq<Header>, free: set<nat>, live: map<nat, nat>)
    requires Ring(mem, free)
  {
    forall a, b | a in free && b in live :: a != b && (a < b ==> a + mem[a].size <= b) && (b < a ==> b + live[b] <= a)
  }

  ghost predicate InFree(mem: seq<Header>, free: set<nat>, u: nat)
    requires Ring(mem, free)
  {
    exists a :: a in free && a <= u < a + mem[a].size
  }

  ghost predicate InLive(live: map<nat, nat>, u: nat) {
    exists a :: a in live && a <= u < a + live[a]
  }

  /** Every unit granted is in a free block or a live one, and nothing else is. */
  ghost predicate Conserved(mem: seq<Header>, free: set<nat>, live: map<nat, nat>, arena: set<nat>)
    requires Ring(mem, free)
  {
    forall u: nat :: u in arena <==> InFree(mem, free, u) || InLive(live, u)
  }

  ghost predicate Parts(mem: seq<Header>, free: set<nat>, live: map<nat, nat>, arena: set<nat>) {
    && Ring(mem, free)
    && Spaced(mem, free)
    && LiveDisjoint(mem, live)
    && Apart(mem, free, live)
    && Conserved(mem, free, live, arena)
  }

  ghost predicate Inv(mem: seq<Header>, free: set<nat>, live: map<nat, nat>, arena: set<nat>) {
    Parts(mem, free, live, arena) && Coalesced(mem, free)
  }

  /** No unit of a block the program holds has been written. */
  ghost predicate Untouched(mem: seq<Header>, mem': seq<Header>, live: map<nat, nat>)
    requires |mem'| == |mem|
  {
    forall u: nat | u < |mem| && InLive(live, u) :: mem'[u] == mem[u]
  }

  // ---- free -----------------------------------------------------------------------------

  /** `p` is the last free header below `bp`. */
  ghost predicate Before(free: set<nat>, p: nat, bp: nat) {
    p in free && p < bp && forall c | c in free :: c <= p || bp < c
  }

  /** `bp` linked in after `p`, not merged with anything. */
  function Linked(mem: seq<Header>, p: nat, bp: nat): (m: seq<Header>)
    requires p < |mem| && bp < |mem|
    ensures |m| == |mem|
  {
    mem[bp := Header(mem[p].ptr, mem[bp].size)][p := Header(bp, mem[p].size)]
  }

  /** `a` and the block after it made one. */
  function Merged(mem: seq<Header>, a: nat): (m: seq<Header>)
    requires a < |mem| && mem[a].ptr < |mem|
    ensures |m| == |mem|
  {
    mem[a := Header(mem[mem[a].ptr].ptr, mem[a].size + mem[mem[a].ptr].size)]
  }

  lemma {:induction false} LinkedParts(mem: seq<Header>, free: set<nat>, live: map<nat, nat>, arena: set<nat>, p: nat,
                                       bp: nat)
    requires Parts(mem, free, live, arena) && bp in live && Before(free, p, bp)
    ensures Parts(Linked(mem, p, bp), free + {bp}, live - {bp}, arena)
  {
    hide Follows, InFree, InLive, Spaced;
    var mem', free', live' := Linked(mem, p, bp), free + {bp}, live - {bp};
    LinkedRing(mem, free, p, bp);
    LinkedSpaced(mem, free, live, p, bp);
    LinkedApart(mem, free, live, p, bp);
    forall u: nat ensures InFree(mem', free', u) || InLive(live', u) <==> InFree(mem, free, u) || InLive(live, u) {
      LinkedUnit(mem, free, live, p, bp, u);
    }
  }

  lemma {:induction false} LinkedSpaced(mem: seq<Header>, free: set<nat>, live: map<nat, nat>, p: nat, bp: nat)
    requires Ring(mem, free) && Spaced(mem, free) && LiveDisjoint(mem, live) && Apart(mem, free, live)
    requires bp in live && p in free && Ring(Linked(mem, p, bp), free + {bp})
    ensures Spaced(Linked(mem, p, bp), free + {bp})
  {
    hide Links;
  }

  lemma {:induction false} LinkedApart(mem: seq<Header>, free: set<nat>, live: map<nat, nat>, p: nat, bp: nat)
    requires Ring(mem, free) && LiveDisjoint(mem, live) && Apart(mem, free, live)
    requires bp in live && p in free && Ring(Linked(mem, p, bp), free + {bp})
    ensures Apart(Linked(mem, p, bp), free + {bp}, live - {bp}) && LiveDisjoint(Linked(mem, p, bp), live - {bp})
  {
    hide Links;
  }

  lemma {:induction false} LinkedRing(mem: seq<Header>, free: set<nat>, p: nat, bp: nat)
    requires Ring(mem, free) && BASE < bp < |mem| && bp !in free && Before(free, p, bp)
    ensures Ring(Linked(mem, p, bp), free + {bp})
  {
    var mem', free' := Linked(mem, p, bp), free + {bp};
    assert Links(mem, free, p);
    forall c | c in free' ensures Links(mem', free', c) {
      assert c != bp ==> Links(mem, free, c);
    }
  }

  lemma {:induction false} LinkedUnit(mem: seq<Header>, free: set<nat>, live: map<nat, nat>, p: nat, bp: nat, u: nat)
    requires Ring(mem, free) && bp in live && bp < |mem| && mem[bp].size == live[bp] && bp !in free && p in free
    requires Ring(Linked(mem, p, bp), free + {bp})
    ensures InFree(Linked(mem, p, bp), free + {bp}, u) || InLive(live - {bp}, u) <==>
            InFree(mem, free, u) || InLive(live, u)
  {
    var mem' := Linked(mem, p, bp);
    assert bp in free + {bp} && mem'[bp].size == mem[bp].size;
    assert forall a | a in free :: a in free + {bp} && mem'[a].size == mem[a].size;
    assert forall a | a in live && a != bp :: a in live - {bp};
  }

  lemma {:induction false} MergedParts(mem: seq<Header>, free: set<nat>, live: map<nat, nat>, arena: set<nat>, a: nat)
    requires Parts(mem, free, live, arena) && a in free && Links(mem, free, a) && a < mem[a].ptr == a + mem[a].size
    ensures Parts(Merged(mem, a), free - {mem[a].ptr}, live, arena)
  {
    hide Follows, InFree, InLive;
    var mem', free' := Merged(mem, a), free - {mem[a].ptr};
    assert Ring(mem', free') by {
      UnlinkedRing(mem, free, a, mem[a].size + mem[mem[a].ptr].size);
    }
    assert Spaced(mem', free');
    assert LiveDisjoint(mem', live);
    assert Apart(mem', free', live);
    forall u: nat ensures InFree(mem', free', u) == InFree(mem, free, u) {
      MergedUnit(mem, free, a, u);
    }
  }

  /** Taking the block after `a` out of the list. */
  lemma {:induction false} UnlinkedRing(mem: seq<Header>, free: set<nat>, a: nat, size: nat)
    requires Ring(mem, free) && a in free && Links(mem, free, a) && a < mem[a].ptr
    ensures Ring(mem[a := Header(mem[mem[a].ptr].ptr, size)], free - {mem[a].ptr})
  {
    var mem', b := mem[a := Header(mem[mem[a].ptr].ptr, size)], mem[a].ptr;
    var free' := free - {b};
    assert Links(mem, free, a) && Links(mem, free, b);
    forall c | c in free' ensures Links(mem', free', c) {
      assert Links(mem, free, c);
      assert c != a ==> mem[c].ptr != b;
    }
  }

  lemma {:induction false} MergedUnit(mem: seq<Header>, free: set<nat>, a: nat, u: nat)
    requires Ring(mem, free) && a in free && Links(mem, free, a) && a < mem[a].ptr == a + mem[a].size
    requires Ring(Merged(mem, a), free - {mem[a].ptr})
    ensures InFree(Merged(mem, a), free - {mem[a].ptr}, u) == InFree(mem, free, u)
  {
    var mem', free', b := Merged(mem, a), free - {mem[a].ptr}, mem[a].ptr;
    assert a in free' && b in free;
    assert forall c | c in free' && c != a :: c in free && mem'[c].size == mem[c].size;
    assert forall c | c in free && c != b :: c in free';
  }

  // Freeing `bp`, as the two if statements do it.

  function JoinUp(mem: seq<Header>, p: nat, bp: nat): (m: seq<Header>)
    requires p < |mem| && bp < |mem| && mem[p].ptr < |mem|
    ensures |m| == |mem|
  {
    var nx := mem[p].ptr;
    if bp + mem[bp].size == nx then mem[bp := Header(mem[nx].ptr, mem[bp].size + mem[nx].size)]
    else mem[bp := Header(nx, mem[bp].size)]
  }

  function JoinDown(mem: seq<Header>, p: nat, bp: nat): (m: seq<Header>)
    requires p < |mem| && bp < |mem|
    ensures |m| == |mem|
  {
    if p + mem[p].size == bp then mem[p := Header(mem[bp].ptr, mem[p].size + mem[bp].size)]
    else mem[p := Header(bp, mem[p].size)]
  }

  ghost function FreeAfter(mem: seq<Header>, free: set<nat>, p: nat, bp: nat): set<nat>
    requires p < |mem| && bp < |mem|
  {
    free + (if p + mem[p].size == bp then {} else {bp}) - (if bp + mem[bp].size == mem[p].ptr then {mem[p].ptr} else {})
  }

  /** The two if statements link `bp` in, then merge it up, then merge it down. */
  ghost function Steps(mem: seq<Header>, p: nat, bp: nat): (m: seq<Header>)
    requires p < bp < |mem| && mem[p].ptr < |mem|
    ensures |m| == |mem| && m[p].ptr == bp
  {
    var m := Linked(mem, p, bp);
    if bp + mem[bp].size == mem[p].ptr then Merged(m, bp) else m
  }

  lemma {:induction false} JoinSteps(mem: seq<Header>, p: nat, bp: nat)
    requires p < bp < |mem| && mem[p].ptr < |mem| && (mem[p].ptr > p ==> mem[p].ptr > bp)
    ensures JoinDown(JoinUp(mem, p, bp), p, bp)
         == if p + mem[p].size == bp then Merged(Steps(mem, p, bp), p) else Steps(mem, p, bp)
  {
  }

  lemma {:induction false} FreedParts(mem: seq<Header>, free: set<nat>, live: map<nat, nat>, arena: set<nat>, p: nat,
                                      bp: nat)
    requires Parts(mem, free, live, arena) && bp in live && Before(free, p, bp) && Links(mem, free, p)
    ensures Parts(JoinDown(JoinUp(mem, p, bp), p, bp), FreeAfter(mem, free, p, bp), live - {bp}, arena)
    ensures p in FreeAfter(mem, free, p, bp)
  {
    hide InFree, InLive, Spaced, Apart, Conserved;
    var nx := mem[p].ptr;
    var m0, f0 := Linked(mem, p, bp), free + {bp};
    LinkedParts(mem, free, live, arena, p, bp);
    JoinSteps(mem, p, bp);
    var m1, f1 := Steps(mem, p, bp), if bp + mem[bp].size == nx then f0 - {nx} else f0;
    if bp + mem[bp].size == nx {
      assert Links(m0, f0, bp);
      MergedParts(m0, f0, live - {bp}, arena, bp);
    }
    if p + mem[p].size == bp {
      assert Links(m1, f1, p);
      MergedParts(m1, f1, live - {bp}, arena, p);
      assert f1 - {bp} == FreeAfter(mem, free, p, bp);
    } else {
      assert f1 == FreeAfter(mem, free, p, bp);
    }
  }

  lemma {:induction false} FreedCoalesced(mem: seq<Header>, free: set<nat>, live: map<nat, nat>, p: nat, bp: nat)
    requires Ring(mem, free) && Spaced(mem, free) && Apart(mem, free, live) && Coalesced(mem, free)
    requires bp in live && bp < |mem| && mem[bp].size == live[bp] && Before(free, p, bp) && Links(mem, free, p)
    requires Ring(JoinDown(JoinUp(mem, p, bp), p, bp), FreeAfter(mem, free, p, bp))
    ensures Coalesced(JoinDown(JoinUp(mem, p, bp), p, bp), FreeAfter(mem, free, p, bp))
  {
    assert Links(mem, free, mem[p].ptr);
    hide Links, Ring;
  }

  lemma {:induction false} FreedInv(mem: seq<Header>, free: set<nat>, live: map<nat, nat>, arena: set<nat>, p: nat,
                                    bp: nat)
    requires Inv(mem, free, live, arena) && bp in live && Before(free, p, bp) && Links(mem, free, p)
    ensures var mem', free' := JoinDown(JoinUp(mem, p, bp), p, bp), FreeAfter(mem, free, p, bp);
            && Inv(mem', free', live - {bp}, arena) && p in free'
            && Untouched(mem, mem', live - {bp})
            && (exists a :: a in free' && a <= bp && bp + live[bp] <= a + mem'[a].size)
  {
    hide InFree, Conserved, Coalesced, Spaced, Follows;
    FreedParts(mem, free, live, arena, p, bp);
    FreedCoalesced(mem, free, live, p, bp);
    assert (if p + mem[p].size == bp then p else bp) in FreeAfter(mem, free, p, bp);
  }

  // ---- malloc ---------------------------------------------------------------------------

  function Units(lo: nat, n: nat): (s: set<nat>)
    ensures forall u: nat :: u in s <==> lo <= u < lo + n
    decreases n
  {
    if n == 0 then {} else {lo} + Units(lo + 1, n - 1)
  }

  /** Memory sbrk may hand out: above everything it handed out before. */
  ghost predicate Grantable(mem: seq<Header>, arena: set<nat>, q: nat, nu: nat) {
    BASE < q && q + nu <= |mem| && forall u | u in arena :: u < q
  }

  lemma {:induction false} LiveAdded(live: map<nat, nat>, b: nat, n: nat, u: nat)
    requires b !in live
    ensures InLive(live[b := n], u) <==> InLive(live, u) || b <= u < b + n
  {
    assert forall a | a in live :: live[b := n][a] == live[a];
    assert b in live[b := n];
  }

  /** A new live block, clear of all the others. */
  lemma {:induction false} LiveClear(mem: seq<Header>, mem': seq<Header>, free: set<nat>, live: map<nat, nat>, b: nat,
                                     n: nat)
    requires Ring(mem', free) && LiveDisjoint(mem, live) && Apart(mem', free, live)
    requires BASE < b && 0 < n && b + n <= |mem'| == |mem| && b !in live && mem'[b].size == n
    requires forall a | a in live :: mem'[a].size == mem[a].size && (a + live[a] <= b || b + n <= a)
    requires forall a | a in free :: a != b && (a + mem'[a].size <= b || b + n <= a)
    ensures LiveDisjoint(mem', live[b := n]) && Apart(mem', free, live[b := n])
  {
    hide Links;
  }

  /** What the list and the live blocks come to when headers of other blocks are rewritten. */
  ghost predicate Kept(mem: seq<Header>, mem': seq<Header>, free: set<nat>, live: map<nat, nat>) {
    && |mem'| == |mem|
    && Ring(mem', free) && Spaced(mem', free) && Coalesced(mem', free) && Apart(mem', free, live)
    && Untouched(mem, mem', live) && forall a | a in live && a < |mem| :: mem'[a] == mem[a]
  }

  /** Free blocks may get shorter where they lie. */
  lemma {:induction false} ShorterKept(mem: seq<Header>, mem': seq<Header>, free: set<nat>, live: map<nat, nat>)
    requires Ring(mem, free) && Spaced(mem, free) && Coalesced(mem, free) && Apart(mem, free, live) && |mem'| == |mem|
    requires forall a | a in free ::
               mem'[a].ptr == mem[a].ptr && mem'[a].size <= mem[a].size && (a != BASE ==> mem'[a].size > 0)
    ensures Ring(mem', free) && Spaced(mem', free) && Coalesced(mem', free) && Apart(mem', free, live)
  {
    hide Follows;
    forall a | a in free ensures Links(mem', free, a) { assert Links(mem, free, a); }
  }

  lemma {:induction false} GrantedInv(mem: seq<Header>, free: set<nat>, live: map<nat, nat>, arena: set<nat>, q: nat,
                                      nu: nat)
    requires Inv(mem, free, live, arena) && Grantable(mem, arena, q, nu) && nu > 0
    ensures Inv(mem[q := Header(mem[q].ptr, nu)], free, live[q := nu], arena + Units(q, nu)) && q !in live
    ensures Untouched(mem, mem[q := Header(mem[q].ptr, nu)], live)
  {
    hide Units, Follows, InFree, InLive, Links, Spaced, Coalesced, Apart, Untouched;
    var mem', live', arena' := mem[q := Header(mem[q].ptr, nu)], live[q := nu], arena + Units(q, nu);
    GrantedKept(mem, free, live, arena, q, nu);
    LiveClear(mem, mem', free, live, q, nu);
    hide LiveDisjoint;
    forall u: nat ensures u in arena' <==> InFree(mem', free, u) || InLive(live', u) {
      SameFree(mem, mem', free, u);
      LiveAdded(live, q, nu, u);
    }
  }

  lemma {:induction false} GrantedKept(mem: seq<Header>, free: set<nat>, live: map<nat, nat>, arena: set<nat>, q: nat,
                                       nu: nat)
    requires Inv(mem, free, live, arena) && Grantable(mem, arena, q, nu) && nu > 0
    ensures Kept(mem, mem[q := Header(mem[q].ptr, nu)], free, live)
    ensures q !in live && forall a | a in live :: a + live[a] <= q
    ensures forall a | a in free :: a < q && a + mem[a].size <= q
  {
    hide Follows, InFree;
    var mem' := mem[q := Header(mem[q].ptr, nu)];
    forall a | a in free ensures a < q && a + mem[a].size <= q {
      FreeBelow(mem, free, live, arena, q, nu, a);
    }
    forall a | a in live ensures a + live[a] <= q {
      LiveBelow(mem, free, live, arena, q, nu, a);
    }
    ShorterKept(mem, mem', free, live);
    hide Links, Spaced, Coalesced, Apart;
  }

  lemma {:induction false} FreeBelow(mem: seq<Header>, free: set<nat>, live: map<nat, nat>, arena: set<nat>, q: nat,
                                     nu: nat, a: nat)
    requires Parts(mem, free, live, arena) && Grantable(mem, arena, q, nu) && a in free
    ensures a < q && a + mem[a].size <= q
  {
    assert a != BASE ==> InFree(mem, free, a + mem[a].size - 1);
  }

  lemma {:induction false} LiveBelow(mem: seq<Header>, free: set<nat>, live: map<nat, nat>, arena: set<nat>, q: nat,
                                     nu: nat, a: nat)
    requires Parts(mem, free, live, arena) && Grantable(mem, arena, q, nu) && a in live
    ensures a + live[a] <= q
  {
    assert InLive(live, a + live[a] - 1);
  }

  lemma {:induction false} SameFree(mem: seq<Header>, mem': seq<Header>, free: set<nat>, u: nat)
    requires Ring(mem, free) && Ring(mem', free) && forall a | a in free :: mem'[a].size == mem[a].size
    ensures InFree(mem', free, u) == InFree(mem, free, u)
  {
  }

  lemma {:induction false} NotLive(mem: seq<Header>, free: set<nat>, live: map<nat, nat>, u: nat)
    requires Ring(mem, free) && Apart(mem, free, live) && (u in free || InFree(mem, free, u))
    ensures !InLive(live, u)
  {
    hide Links;
  }

  lemma {:induction false} TakeWhole(mem: seq<Header>, free: set<nat>, live: map<nat, nat>, arena: set<nat>, prevp: nat,
                                     p: nat)
    requires Inv(mem, free, live, arena) && prevp in free && p in free && p != BASE && mem[prevp].ptr == p
    ensures Inv(mem[prevp := Header(mem[p].ptr, mem[prevp].size)], free - {p}, live[p := mem[p].size], arena)
    ensures prevp != p && p !in live && Untouched(mem, mem[prevp := Header(mem[p].ptr, mem[prevp].size)], live)
  {
    hide InFree, InLive, Links, Follows, Coalesced, Untouched;
    var mem' := mem[prevp := Header(mem[p].ptr, mem[prevp].size)];
    WholeKept(mem, free, live, arena, prevp, p);
    LiveClear(mem, mem', free - {p}, live, p, mem[p].size);
    hide Apart, Spaced, LiveDisjoint;
    forall u: nat
      ensures InFree(mem', free - {p}, u) || InLive(live[p := mem[p].size], u) <==>
              InFree(mem, free, u) || InLive(live, u)
    {
      LiveAdded(live, p, mem[p].size, u);
      FreeRemoved(mem, mem', free, p, u);
    }
  }

  lemma {:induction false} WholeKept(mem: seq<Header>, free: set<nat>, live: map<nat, nat>, arena: set<nat>, prevp: nat,
                                     p: nat)
    requires Inv(mem, free, live, arena) && prevp in free && p in free && p != BASE && mem[prevp].ptr == p
    ensures prevp != p && p !in live && Kept(mem, mem[prevp := Header(mem[p].ptr, mem[prevp].size)], free - {p}, live)
  {
    hide InFree, InLive;
    assert Links(mem, free, prevp) && Links(mem, free, p);
    assert mem[p].ptr > p || mem[p].ptr == BASE;
    UnlinkedRing(mem, free, prevp, mem[prevp].size);
    NotLive(mem, free, live, prevp);
    hide Links, Follows;
  }

  lemma {:induction false} FreeRemoved(mem: seq<Header>, mem': seq<Header>, free: set<nat>, p: nat, u: nat)
    requires Ring(mem, free) && p in free && Ring(mem', free - {p}) && |mem'| == |mem|
    requires forall a | a in free && a != p :: mem'[a].size == mem[a].size
    ensures InFree(mem, free, u) <==> InFree(mem', free - {p}, u) || p <= u < p + mem[p].size
  {
    assert forall a | a in free && a != p :: a in free - {p};
  }

  function TailCut(mem: seq<Header>, p: nat, b: nat, n: nat): (m: seq<Header>)
    requires p < b < |mem| && mem[p].size >= n
    ensures |m| == |mem|
  {
    mem[p := Header(mem[p].ptr, mem[p].size - n)][b := Header(mem[b].ptr, n)]
  }

  lemma {:induction false} TakeTail(mem: seq<Header>, free: set<nat>, live: map<nat, nat>, arena: set<nat>, p: nat,
                                    n: nat)
    requires Inv(mem, free, live, arena) && p in free && 0 < n < mem[p].size
    ensures var b := p + mem[p].size - n;
            && b < |mem| && b !in live
            && Inv(TailCut(mem, p, b, n), free, live[b := n], arena) && Untouched(mem, TailCut(mem, p, b, n), live)
  {
    hide InFree, InLive, Links, Follows, Coalesced, Untouched, TailCut;
    var b := p + mem[p].size - n;
    var mem' := TailCut(mem, p, b, n);
    TailKept(mem, free, live, arena, p, b, n);
    LiveClear(mem, mem', free, live, b, n);
    hide Apart, Spaced, LiveDisjoint;
    forall u: nat
      ensures InFree(mem', free, u) || InLive(live[b := n], u) <==> InFree(mem, free, u) || InLive(live, u)
    {
      LiveAdded(live, b, n, u);
      FreeShortened(mem, mem', free, p, n, u);
    }
  }

  lemma {:induction false} TailKept(mem: seq<Header>, free: set<nat>, live: map<nat, nat>, arena: set<nat>, p: nat,
                                    b: nat, n: nat)
    requires Inv(mem, free, live, arena) && p in free && 0 < n < mem[p].size && b == p + mem[p].size - n
    ensures b < |mem| && b !in live && Kept(mem, TailCut(mem, p, b, n), free, live)
    ensures TailCut(mem, p, b, n)[b].size == n && TailCut(mem, p, b, n)[p].size == mem[p].size - n
    ensures forall a | a in free :: a != b && (a != p ==> TailCut(mem, p, b, n)[a].size == mem[a].size)
    ensures forall a | a in live :: a + live[a] <= b || b + n <= a
  {
    hide InFree, InLive, Follows, Links;
    ShorterKept(mem, TailCut(mem, p, b, n), free, live);
    hide Coalesced;
    NotLive(mem, free, live, p);
    NotLive(mem, free, live, b) by { assert InFree(mem, free, b) by { InFreeAt(mem, free, p, b); } }
  }

  lemma {:induction false} InFreeAt(mem: seq<Header>, free: set<nat>, a: nat, u: nat)
    requires Ring(mem, free) && a in free && a <= u < a + mem[a].size
    ensures InFree(mem, free, u)
  {
  }

  lemma {:induction false} FreeShortened(mem: seq<Header>, mem': seq<Header>, free: set<nat>, p: nat, n: nat, u: nat)
    requires Ring(mem, free) && Ring(mem', free) && p in free && n < mem[p].size == mem'[p].size + n
    requires forall a | a in free && a != p :: mem'[a].size == mem[a].size
    ensures InFree(mem, free, u) <==> InFree(mem', free, u) || p + mem'[p].size <= u < p + mem[p].size
  {
  }

  lemma {:induction false} UntouchedTwice(mem: seq<Header>, mem': seq<Header>, mem'': seq<Header>, live: map<nat, nat>)
    requires |mem''| == |mem'| == |mem|
    ensures Untouched(mem, mem, live)
    ensures Untouched(mem, mem', live) && Untouched(mem', mem'', live) ==> Untouched(mem, mem'', live)
  {
    hide InLive;
  }

  lemma {:induction false} NothingLive(mem: seq<Header>, mem': seq<Header>)
    requires |mem'| == |mem|
    ensures Untouched(mem, mem', map[])
  {
  }

  // ---- Going around the list ----------------------------------------------------------

  ghost function Above(free: set<nat>, p: nat): set<nat> { set c | c in free && c > p }

  lemma {:induction false} AboveStep(free: set<nat>, p: nat, q: nat)
    requires p < q && q in free
    ensures Above(free, q) < Above(free, p)
  {
    assert q in Above(free, p) && q !in Above(free, q);
  }

  /** The headers from `p` around to `last`. */
  ghost function Ahead(free: set<nat>, p: nat, last: nat): (r: set<nat>)
    ensures r <= free
  {
    if p <= last then set c | c in free && p <= c <= last else set c | c in free && (p <= c || c <= last)
  }

  lemma {:induction false} AheadStep(mem: seq<Header>, free: set<nat>, p: nat, last: nat)
    requires Ring(mem, free) && p in free && last in free
    ensures mem[p].ptr in free && p in Ahead(free, p, last)
    ensures p == last ==> Ahead(free, p, last) == {p}
    ensures p != last ==> Ahead(free, mem[p].ptr, last) == Ahead(free, p, last) - {p}
    ensures Ahead(free, mem[last].ptr, last) == free
  {
    assert Links(mem, free, p) && Links(mem, free, last);
  }

  /** The header reached from `a` in `k` steps. */
  ghost function Walk(mem: seq<Header>, free: set<nat>, a: nat, k: nat): (r: nat)
    requires Ring(mem, free) && a in free
    ensures r in free
  {
    if k == 0 then a else
    var b := Walk(mem, free, a, k - 1);
    assert Links(mem, free, b);
    mem[b].ptr
  }

  ghost predicate Visited(mem: seq<Header>, free: set<nat>, a: nat)
    requires Ring(mem, free)
  {
    exists i: nat :: i < |free| && Walk(mem, free, BASE, i) == a
  }

  /** From `base` the list climbs through every header once, and then comes back. */
  lemma {:induction false} OneWrap(mem: seq<Header>, free: set<nat>)
    requires Ring(mem, free)
    ensures Walk(mem, free, BASE, |free|) == BASE
    ensures forall i: nat, j: nat | i < j < |free| :: Walk(mem, free, BASE, i) < Walk(mem, free, BASE, j)
    ensures forall a | a in free :: Visited(mem, free, a)
  {
    hide Walk, UpTo, Links;
    forall i: nat, j: nat | i < j < |free| ensures Walk(mem, free, BASE, i) < Walk(mem, free, BASE, j) {
      Climb(mem, free, i, j);
    }
    forall a | a in free ensures Visited(mem, free, a) {
      Rank(mem, free, a);
      var i: nat := |UpTo(free, a)| - 1;
      assert Walk(mem, free, BASE, i) == a;
    }
    Last(mem, free);
  }

  ghost function UpTo(free: set<nat>, a: nat): set<nat> { set c | c in free && c <= a }

  /** `a` is reached in as many steps as there are headers below it. */
  lemma {:induction false} Rank(mem: seq<Header>, free: set<nat>, a: nat)
    requires Ring(mem, free) && a in free
    ensures 0 < |UpTo(free, a)| <= |free| && Walk(mem, free, BASE, |UpTo(free, a)| - 1) == a
    decreases a
  {
    Smaller(UpTo(free, a), free);
    if a == BASE {
      assert UpTo(free, a) == {BASE};
    } else {
      var b := Pred(free, a);
      Rank(mem, free, b);
      assert UpTo(free, a) == UpTo(free, b) + {a};
      assert Links(mem, free, b);
    }
  }

  ghost function Pred(free: set<nat>, a: nat): (b: nat)
    requires BASE in free && BASE < a
    ensures b in free && b < a && forall c | c in free :: c <= b || a <= c
  {
    PredExists(free, a);
    var b :| Before(free - {a}, b, a);
    assert forall c | c in free && c != a :: c in free - {a};
    b
  }

  lemma {:induction false} PredExists(free: set<nat>, a: nat)
    requires BASE in free && BASE < a
    ensures exists b :: Before(free - {a}, b, a)
  {
    var b := BASE;
    while !Before(free - {a}, b, a)
      invariant b in free && b < a
      decreases a - b
    {
      var c :| c in free && b < c < a;
      b := c;
    }
  }

  lemma {:induction false} Smaller(s: set<nat>, t: set<nat>)
    requires s <= t
    ensures |s| <= |t| && (|s| == |t| ==> s == t)
  {
    assert t == s + (t - s);
  }

  lemma {:induction false} Climb(mem: seq<Header>, free: set<nat>, i: nat, j: nat)
    requires Ring(mem, free) && i < j < |free|
    ensures Walk(mem, free, BASE, i) < Walk(mem, free, BASE, j)
  {
    Counted(mem, free, i);
    Counted(mem, free, j);
    var a, b := Walk(mem, free, BASE, i), Walk(mem, free, BASE, j);
    if b <= a {
      Smaller(UpTo(free, b), UpTo(free, a));
    }
  }

  /** After `i` steps there are `i + 1` headers up to here. */
  lemma {:induction false} Counted(mem: seq<Header>, free: set<nat>, i: nat)
    requires Ring(mem, free) && i < |free|
    ensures |UpTo(free, Walk(mem, free, BASE, i))| == i + 1
  {
    if i == 0 {
      assert UpTo(free, BASE) == {BASE};
    } else {
      Counted(mem, free, i - 1);
      var a := Walk(mem, free, BASE, i - 1);
      assert Links(mem, free, a);
      var b := mem[a].ptr;
      assert b <= a ==> UpTo(free, a) == free;
      assert UpTo(free, b) == UpTo(free, a) + {b};
    }
  }

  lemma {:induction false} Last(mem: seq<Header>, free: set<nat>)
    requires Ring(mem, free)
    ensures Walk(mem, free, BASE, |free|) == BASE
  {
    assert |free| > 0 by { Smaller({BASE}, free); }
    var a := Walk(mem, free, BASE, |free| - 1);
    Counted(mem, free, |free| - 1);
    Smaller(UpTo(free, a), free);
    assert Links(mem, free, a);
    assert mem[a].ptr in UpTo(free, a);
  }
}
