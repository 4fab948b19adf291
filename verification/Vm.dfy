/** kalloc.c and vm.c: the physical page allocator, and building, growing, shrinking, copying
    and freeing address spaces. */
module Vm {
  import opened Basics
  import opened PageTable

  const PGSIZE: nat := 4096
  const KERNBASE: nat := KERNPAGE * PGSIZE

  /** PTE_W and PTE_U; an entry that is To is one with PTE_P. */
  const WU: nat := 6

  /** The number of pages `sz` bytes take: PGROUNDUP, in pages. */
  function Up(sz: nat): (n: nat)
    ensures sz <= n * PGSIZE < sz + PGSIZE
  {
    (sz + PGSIZE - 1) / PGSIZE
  }

  /** A row of kmap: `n` pages from `v` on, mapped to pages from `pa` on. */
  datatype Range = Range(v: nat, n: nat, pa: nat, flags: nat)

  datatype Mapped = Done | NoMemory | Remap
  datatype Grown = Grew | Kept | Failed | Panics

  // ---- What holds between calls ------------------------------------------------------------

  function NextOf(fl: seq<nat>, k: nat): Option<nat> { if k + 1 < |fl| then Some(fl[k + 1]) else None }

  /** The free list runs through exactly the free pages. */
  ghost predicate Chain(mem: Mem, freelist: Option<nat>, fl: seq<nat>, role: Roles) {
    && |role| == |mem|
    && (forall k: nat | k < |fl| :: fl[k] < |mem| && mem[fl[k]] == Run(NextOf(fl, k)))
    && (forall j: nat, k: nat | j < k < |fl| :: fl[j] != fl[k])
    && freelist == (if fl == [] then None else Some(fl[0]))
    && (forall p: nat | p < |mem| :: role[p].Free? <==> p in fl)
  }

  /** Every address space maps what it did. */
  ghost predicate SamePtes(mem: Mem, role: Roles, mem': Mem) {
    forall x: nat, w: nat | IsDir(role, x) && w < PAGES :: Pte(mem', x, w) == Pte(mem, x, w)
  }

  /** Pages the user or the caller has keep their bytes as long as they keep their place. */
  ghost predicate SameBytes(mem: Mem, role: Roles, mem': Mem, role': Roles)
    requires |role| == |mem| == |mem'| == |role'|
  {
    forall p: nat | p < |mem| && (role[p].User? || role[p].Held?) && role'[p] == role[p] :: mem'[p] == mem[p]
  }

  /** No page has moved, except free ones that have become tables of `d`. */
  ghost predicate OnlyTabs(role: Roles, role': Roles, d: nat)
    requires |role'| == |role|
  {
    forall p: nat | p < |role| :: role'[p] == role[p] || (role[p].Free? && role'[p].Tab? && role'[p].d == d)
  }

  // ---- How many pages there are to give out ------------------------------------------------

  ghost function FreeSet(role: Roles): set<nat> { set p: nat | p < |role| && role[p].Free? }

  /** The directory entries of `d` that have a table. */
  ghost function TabSet(mem: Mem, d: nat): set<nat> { set i: nat | i < ENTRIES && Pde(mem, d, i).To? }

  /** What making a table leaves as it is. */
  ghost function Budget(mem: Mem, role: Roles, d: nat): nat { |FreeSet(role)| + |TabSet(mem, d)| }

  /** The tables that the pages from `lo` up to `hi` are in. */
  ghost function TabsIn(lo: nat, hi: nat): set<nat>
    decreases hi
  {
    if hi <= lo then {} else TabsIn(lo, hi - 1) + {(hi - 1) / ENTRIES}
  }

  ghost function KmapTabs(kmap: seq<Range>, n: nat): set<nat>
    requires n <= |kmap|
  {
    if n == 0 then {} else KmapTabs(kmap, n - 1) + TabsIn(kmap[n - 1].v, kmap[n - 1].v + kmap[n - 1].n)
  }

  /** The pages that `d` needs to have pages at all the places from `lo` up to `hi`: one each, and
      the tables it does not have. */
  ghost function Need(mem: Mem, d: nat, lo: nat, hi: nat): nat
    requires lo <= hi
  {
    hi - lo + |TabsIn(lo, hi) - TabSet(mem, d)|
  }

  /** The pages that the kernel's part of an address space needs: the directory and its tables. */
  ghost function KernelNeed(kmap: seq<Range>): nat { 1 + |KmapTabs(kmap, |kmap|)| }

  /** The tables are those from the first page's to the last page's. */
  lemma {:induction false} TabsInAre(lo: nat, hi: nat, i: nat)
    ensures i in TabsIn(lo, hi) <==> lo < hi && lo / ENTRIES <= i <= (hi - 1) / ENTRIES
    decreases hi
  {
    if lo < hi {
      TabsInAre(lo, hi - 1, i);
    }
  }

  lemma {:induction false} TabsInGrow(lo: nat, v: nat, hi: nat)
    requires v <= hi
    ensures TabsIn(lo, v) <= TabsIn(lo, hi) && (lo <= v < hi ==> v / ENTRIES in TabsIn(lo, hi))
    decreases hi
  {
    if v < hi {
      TabsInGrow(lo, v, hi - 1);
    }
  }

  lemma {:induction false} KmapTabsGrow(kmap: seq<Range>, n: nat, m: nat)
    requires n <= m <= |kmap|
    ensures KmapTabs(kmap, n) <= KmapTabs(kmap, m)
    decreases m
  {
    if n < m {
      KmapTabsGrow(kmap, n, m - 1);
    }
  }

  lemma {:induction false} SmallerSet(a: set<nat>, b: set<nat>)
    requires a <= b
    ensures |a| <= |b| && (a != b ==> |a| < |b|) && |b - a| == |b| - |a|
  {
    assert b == a + (b - a);
  }

  lemma {:induction false} FreeSetPut(role: Roles, p: nat, r: Role)
    requires p < |role|
    ensures FreeSet(role[p := r]) == if r.Free? then FreeSet(role) + {p} else FreeSet(role) - {p}
    ensures role[p].Free? ==> |FreeSet(role)| == |FreeSet(role) - {p}| + 1
    ensures !role[p].Free? ==> FreeSet(role) - {p} == FreeSet(role)
  {
    assert p in FreeSet(role) <==> role[p].Free?;
  }

  lemma {:induction false} NoneFree(role: Roles)
    requires forall p: nat | p < |role| :: !role[p].Free?
    ensures FreeSet(role) == {}
  {
  }

  /** Pages other than the directory do not bear on which tables it has. */
  lemma {:induction false} TabSetKept(mem: Mem, mem': Mem, d: nat)
    requires |mem'| == |mem| && (d < |mem| ==> mem'[d] == mem[d])
    ensures TabSet(mem', d) == TabSet(mem, d)
  {
    assert forall i: nat :: Pde(mem', d, i) == Pde(mem, d, i);
  }

  lemma {:induction false} TabSetMore(mem: Mem, d: nat, i: nat, t: nat, flags: nat)
    requires d < |mem| && mem[d].Table? && i < |mem[d].e| == ENTRIES
    ensures TabSet(SetEntry(mem, d, i, To(t, flags)), d) == TabSet(mem, d) + {i}
    ensures Pde(mem, d, i).Absent? ==> i !in TabSet(mem, d)
  {
    var mem' := SetEntry(mem, d, i, To(t, flags));
    assert forall k: nat | k < ENTRIES :: Pde(mem', d, k) == if k == i then To(t, flags) else Pde(mem, d, k);
  }

  lemma {:induction false} TabSetNone(mem: Mem, d: nat)
    requires d < |mem| && mem[d] == ZeroTable()
    ensures TabSet(mem, d) == {}
  {
  }

  lemma {:induction false} TabSetHas(mem: Mem, d: nat, i: nat)
    requires i < ENTRIES
    ensures i in TabSet(mem, d) <==> Pde(mem, d, i).To?
  {
  }

  /** `d` now has the table of entry `i`, made from a free page if it had none. */
  ghost predicate Tabled(mem: Mem, role: Roles, mem': Mem, role': Roles, d: nat, i: nat) {
    TabSet(mem', d) == TabSet(mem, d) + {i} && Budget(mem', role', d) == Budget(mem, role, d)
  }

  /** There is no page left, and `d` would need one for the table of entry `i`. */
  ghost predicate NoRoom(mem: Mem, role: Roles, d: nat, i: nat) { FreeSet(role) == {} && i !in TabSet(mem, d) }

  /** The tables for the places from `lo` up to `v`, and `n` pages, have been taken for `d`. */
  ghost predicate Spent(mem: Mem, role: Roles, mem': Mem, role': Roles, d: nat, lo: nat, v: nat, n: nat) {
    TabSet(mem', d) == TabSet(mem, d) + TabsIn(lo, v) && Budget(mem', role', d) + n == Budget(mem, role, d)
  }

  lemma {:induction false} SpentNone(mem: Mem, role: Roles, d: nat, lo: nat)
    ensures Spent(mem, role, mem, role, d, lo, lo, 0)
  {
  }

  /** One more table. */
  lemma {:induction false} SpentTab(mem: Mem, role: Roles, mem1: Mem, role1: Roles, mem2: Mem, mem': Mem, role': Roles,
                                    d: nat, lo: nat, v: nat, n: nat)
    requires Spent(mem, role, mem1, role1, d, lo, v, n) && lo <= v
    requires Tabled(mem1, role1, mem2, role', d, v / ENTRIES) && |mem'| == |mem2| && (d < |mem2| ==> mem'[d] == mem2[d])
    ensures Spent(mem, role, mem', role', d, lo, v + 1, n)
  {
    hide FreeSet, TabSet;
    TabSetKept(mem2, mem', d);
  }

  /** One more page, given out and put in place. */
  lemma {:induction false} SpentPage(mem: Mem, role: Roles, mem1: Mem, role1: Roles, mem2: Mem, role2: Roles, mem': Mem,
                                     role': Roles, d: nat, lo: nat, v: nat, n: nat)
    requires Spent(mem, role, mem1, role1, d, lo, v, n) && lo <= v
    requires |FreeSet(role2)| + 1 == |FreeSet(role1)| && |mem2| == |mem1| && (d < |mem1| ==> mem2[d] == mem1[d])
    requires Tabled(mem2, role2, mem', role', d, v / ENTRIES)
    ensures Spent(mem, role, mem', role', d, lo, v + 1, n + 1)
  {
    hide FreeSet, TabSet;
    TabSetKept(mem1, mem2, d);
  }

  lemma {:induction false} NextOfTail(fl: seq<nat>, k: nat)
    requires k + 1 < |fl|
    ensures fl[1..][k] == fl[k + 1] && NextOf(fl[1..], k) == NextOf(fl, k + 1)
    ensures NextOf(fl, 0) == Some(fl[1..][0])
  {
  }

  lemma {:induction false} ChainPop(mem: Mem, freelist: Option<nat>, fl: seq<nat>, role: Roles)
    requires Chain(mem, freelist, fl, role) && freelist.Some?
    ensures var p := freelist.value;
            && fl != [] && p < |mem| && mem[p].Run? && role[p].Free?
            && Chain(mem, mem[p].next, fl[1..], role[p := Held])
  {
    assert |fl| == 1 ==> NextOf(fl, 0) == None;
    hide NextOf;
    var p, tail := freelist.value, fl[1..];
    assert fl[0] == p && fl == [p] + tail;
    forall k: nat | k < |tail| ensures tail[k] < |mem| && mem[tail[k]] == Run(NextOf(tail, k)) && tail[k] != p {
      NextOfTail(fl, k);
    }
    if tail != [] {
      NextOfTail(fl, 0);
    }
  }

  lemma {:induction false} ChainPush(mem: Mem, freelist: Option<nat>, fl: seq<nat>, role: Roles, p: nat)
    requires Chain(mem, freelist, fl, role) && p < |mem| && !role[p].Free?
    ensures Chain(mem[p := Run(freelist)], Some(p), [p] + fl, role[p := Free])
  {
    var mem', fl' := mem[p := Run(freelist)], [p] + fl;
    forall k: nat | k < |fl'| ensures fl'[k] < |mem| && mem'[fl'[k]] == Run(NextOf(fl', k)) {
      if k > 0 {
        assert fl'[k] == fl[k - 1] && fl[k - 1] in fl;
      }
    }
  }

  /** Writing and relabelling pages that are not free. */
  lemma {:induction false} ChainKept(mem: Mem, freelist: Option<nat>, fl: seq<nat>, role: Roles, mem': Mem,
                                     role': Roles)
    requires Chain(mem, freelist, fl, role) && |mem'| == |mem| == |role'|
    requires forall p: nat | p < |mem| :: (role[p].Free? ==> mem'[p] == mem[p]) && (role'[p].Free? <==> role[p].Free?)
    ensures Chain(mem', freelist, fl, role')
  {
    assert forall k: nat | k < |fl| :: fl[k] in fl;
  }

  class Machine {
    var mem: Mem
    var freelist: Option<nat>
    ghost var role: Roles
    ghost var fl: seq<nat>
    const kmap: seq<Range>

    ghost predicate Valid()
      reads this
    {
      |role| == |mem| && Owned(mem, role) && Chain(mem, freelist, fl, role)
    }

    /** Before kinit: no page is on the free list. */
    constructor (n: nat, kmap: seq<Range>)
      ensures this.kmap == kmap && Valid() && |mem| == n && forall p: nat | p < n :: role[p].Held?
    {
      this.kmap, mem, freelist, fl := kmap, seq(n, _ => Bytes(0)), None, [];
      role := seq(n, _ => Held);
    }

    /** Puts the pages from `lo` up to `hi` on the free list. */
    method Freerange(lo: nat, hi: nat)
      requires Valid() && lo <= hi <= |mem| && forall p: nat | lo <= p < hi :: role[p].Held?
      modifies this
      ensures Valid() && |mem| == |old(mem)|
      ensures forall p: nat | p < |mem| :: role[p] == if lo <= p < hi then Free else old(role)[p]
    {
      hide Owned, Chain, Pte, Pde;
      var p := lo;
      while p < hi
        invariant lo <= p <= hi && Valid() && |mem| == |old(mem)|
        invariant forall q: nat | q < |mem| :: role[q] == if lo <= q < p then Free else old(role)[q]
      {
        FreeHeld(p);
        p := p + 1;
      }
    }

    method Kalloc() returns (r: Option<nat>)
      requires Valid()
      modifies this
      ensures Valid() && mem == old(mem)
      ensures r.None? ==> role == old(role) && forall p: nat | p < |mem| :: !role[p].Free?
      ensures r.Some? ==> r.value < |mem| && old(role)[r.value].Free? && role == old(role)[r.value := Held]
    {
      hide Owned, Chain;
      r := freelist;
      if r.None? {
        AllFree(mem, freelist, fl, role);
      } else {
        ChainPop(mem, freelist, fl, role);
        LoosePage(mem, role, r.value, mem[r.value], Held);
        assert mem[r.value := mem[r.value]] == mem;
        freelist := mem[r.value].next;
        role := role[r.value := Held];
        fl := fl[1..];
      }
    }

    /** Pushes a page that is not on the list. */
    method Kfree(p: nat)
      requires |role| == |mem| && Chain(mem, freelist, fl, role) && p < |mem| && !role[p].Free?
      modifies this
      ensures Chain(mem, freelist, fl, role)
      ensures |mem| == |old(mem)| && mem == old(mem)[p := mem[p]] && role == old(role)[p := Free]
    {
      hide Chain;
      ChainPush(mem, freelist, fl, role, p);
      mem := mem[p := Run(freelist)];
      freelist := Some(p);
      fl := [p] + fl;
      role := role[p := Free];
    }

    /** walkpgdir: the table that has page `v`'s entry. */
    method Walk(d: nat, v: nat, alloc: bool) returns (t: Option<nat>)
      requires Valid() && IsDir(role, d) && v < PAGES
      modifies this
      ensures Valid() && |mem| == |old(mem)| && SamePtes(old(mem), old(role), mem)
      ensures SameBytes(old(mem), old(role), mem, role)
      ensures OnlyTabs(old(role), role, d)
      ensures t.None? ==> mem == old(mem) && role == old(role) && Pde(mem, d, v / ENTRIES).Absent?
      ensures t.Some? ==> Pde(mem, d, v / ENTRIES).To? && Pde(mem, d, v / ENTRIES).page == t.value
      ensures t.Some? && Pde(old(mem), d, v / ENTRIES).Absent? ==> Pde(mem, d, v / ENTRIES).flags == WU
      ensures !alloc ==> mem == old(mem) && role == old(role)
      ensures alloc && t.None? ==> NoRoom(mem, role, d, v / ENTRIES)
      ensures t.Some? ==> Tabled(old(mem), old(role), mem, role, d, v / ENTRIES)
    {
      hide Owned, Pte, Chain, FreeSet, TabSet;
      IndexInTable(mem, role, d, v);
      var i := v / ENTRIES;
      TabSetHas(mem, d, i);
      var pde := mem[d].e[i];
      if pde.To? {
        assert TabSet(mem, d) == TabSet(mem, d) + {i};
        return Some(pde.page);
      }
      if !alloc {
        return None;
      }
      t := Kalloc();
      if t.None? {
        NoneFree(role);
        return;
      }
      var pg := t.value;
      FreeSetPut(old(role), pg, Held);
      ghost var mem0, role0 := mem, role;
      LoosePage(mem, role, pg, ZeroTable(), Held);
      assert role[pg := Held] == role;
      mem := mem[pg := ZeroTable()];
      TabSetKept(mem0, mem, d);
      TabSetMore(mem, d, i, pg, WU);
      InstallTab(mem, role, d, i, pg, WU);
      mem := SetEntry(mem, d, i, To(pg, WU));
      FreeSetPut(role, pg, Tab(d, i));
      role := role[pg := Tab(d, i)];
      ChainKept(mem0, freelist, fl, role0, mem, role);
      assert SamePtes(old(mem), old(role), mem);
    }

    /** deallocuvm's two stores for one page: the page is freed, then its entry cleared. */
    method Unmap(d: nat, v: nat, t: nat)
      requires Valid() && IsDir(role, d) && v < KERNPAGE && Pde(mem, d, v / ENTRIES).To?
      requires Pde(mem, d, v / ENTRIES).page == t
      requires Pte(mem, d, v).To?
      modifies this
      ensures Valid() && |mem| == |old(mem)| && Cleared(old(mem), old(role), mem, d, v, v + 1)
      ensures Returned(old(role), role, d, v, v + 1) && SameBytes(old(mem), old(role), mem, role)
    {
      hide Owned, Chain, Pte, Pde;
      ghost var mem0, role0 := mem, role;
      EntryIn(mem, role, d, v);
      var j := v % ENTRIES;
      var p := mem[t].e[j].page;
      UnmapUser(mem, role, d, v);
      EntrySet(mem, role, d, v, Absent);
      OneUser(mem, role, d, v);
      Kfree(p);
      ghost var mem1, role1 := mem, role;
      mem := SetEntry(mem, t, j, Absent);
      ChainKept(mem1, freelist, fl, role1, mem, role);
      LoosePage(SetEntry(mem0, t, j, Absent), role0[p := Held], p, mem[p], Free);
      assert mem == SetEntry(mem0, t, j, Absent)[p := mem[p]];
      assert role == role0[p := Held][p := Free];
      assert forall x: nat :: IsDir(role0[p := Held], x) == IsDir(role0, x);
    }

    method Deallocuvm(d: nat, oldsz: nat, newsz: nat) returns (r: nat)
      requires Valid() && IsDir(role, d) && oldsz <= KERNBASE
      modifies this
      ensures Valid() && IsDir(role, d) && |mem| == |old(mem)|
      ensures Cleared(old(mem), old(role), mem, d, Up(newsz), Up(oldsz))
      ensures Returned(old(role), role, d, Up(newsz), Up(oldsz)) && SameBytes(old(mem), old(role), mem, role)
      ensures r == if newsz >= oldsz then oldsz else newsz
    {
      hide Owned, Chain, Pte, Pde;
      ghost var mem0, role0, hi := mem, role, Up(oldsz);
      UpOrder(newsz, oldsz);
      if newsz >= oldsz {
        return oldsz;
      }
      var v := Up(newsz);
      while v * PGSIZE < oldsz
        invariant Up(newsz) <= v && Valid() && IsDir(role, d) && |mem| == |mem0|
        invariant Cleared(mem0, role0, mem, d, Up(newsz), Lesser(v, hi))
        invariant Returned(role0, role, d, Up(newsz), Lesser(v, hi))
        invariant SameBytes(mem0, role0, mem, role)
        decreases KERNPAGE - v
      {
        UpBelow(v, oldsz);
        ghost var mem1, role1 := mem, role;
        var t := Walk(d, v, false);
        if t.None? {
          NoTable(mem, d, v);
          var next := (v / ENTRIES + 1) * ENTRIES - 1;
          ClearedMore(mem0, role0, mem, role, d, Up(newsz), v, Lesser(next + 1, hi));
          v := next;
        } else {
          EntryIn(mem, role, d, v);
          if mem[t.value].e[v % ENTRIES].To? {
            Unmap(d, v, t.value);
            ClearedTwice(mem0, role0, mem1, role1, mem, role, d, Up(newsz), v);
          } else {
            ClearedMore(mem0, role0, mem, role, d, Up(newsz), v, v + 1);
          }
        }
        v := v + 1;
      }
      UpAbove(v, oldsz);
      r := newsz;
    }

    /** A page from kalloc, filled in. */
    method NewPage(content: Page) returns (r: Option<nat>)
      requires Valid()
      modifies this
      ensures Valid() && |mem| == |old(mem)| && SamePtes(old(mem), old(role), mem)
      ensures r.None? ==> mem == old(mem) && role == old(role) && FreeSet(role) == {}
      ensures r.Some? ==>
                && r.value < |mem| && old(role)[r.value].Free? && role == old(role)[r.value := Held]
                && mem == old(mem)[r.value := content] && |FreeSet(role)| + 1 == |FreeSet(old(role))|
    {
      hide Owned, Chain, Pte, Pde;
      r := Kalloc();
      if r.None? {
        NoneFree(role);
      } else {
        FreeSetPut(old(role), r.value, Held);
        LoosePage(mem, role, r.value, content, Held);
        assert role[r.value := Held] == role;
        ChainKept(mem, freelist, fl, role, mem[r.value := content], role);
        assert forall x: nat :: IsDir(old(role), x) ==> IsDir(role, x);
        mem := mem[r.value := content];
      }
    }

    /** kfree of a page that is in no page table. */
    method FreeHeld(p: nat)
      requires Valid() && p < |mem| && role[p].Held?
      modifies this
      ensures Valid() && |mem| == |old(mem)| && SamePtes(old(mem), old(role), mem)
      ensures mem == old(mem)[p := mem[p]] && role == old(role)[p := Free]
    {
      hide Owned, Chain, Pte, Pde;
      ghost var mem0, role0 := mem, role;
      Kfree(p);
      LoosePage(mem0, role0, p, mem[p], Free);
    }

    /** One pass of mappages' loop, for a user page. */
    method MapPage(d: nat, v: nat, p: nat, flags: nat) returns (r: Mapped)
      requires Valid() && IsDir(role, d) && v < KERNPAGE && p < |mem| && role[p].Held?
      modifies this
      ensures Valid() && |mem| == |old(mem)| && SameBytes(old(mem), old(role), mem, role)
      ensures r.NoMemory? ==>
                mem == old(mem) && role == old(role) && NoRoom(mem, role, d, v / ENTRIES)
      ensures r.Remap? <==> Pte(old(mem), d, v).To?
      ensures r.Done? ==>
                && Placed(old(mem), old(role), mem, d, v, To(p, flags)) && mem[p] == old(mem)[p]
                && OnlyTabs(old(role)[p := User(d, v)], role, d)
                && Tabled(old(mem), old(role), mem, role, d, v / ENTRIES)
    {
      hide Owned, Chain, Pte, Pde, FreeSet, TabSet;
      ghost var mem0, role0 := mem, role;
      var t := Walk(d, v, true);
      if t.None? {
        NoTable(mem, d, v);
        return NoMemory;
      }
      EntryIn(mem, role, d, v);
      if mem[t.value].e[v % ENTRIES].To? {
        return Remap;
      }
      MapUser(mem, role, d, v, p, flags);
      EntrySet(mem, role, d, v, To(p, flags));
      ghost var mem1, role1 := mem, role;
      mem := SetEntry(mem, t.value, v % ENTRIES, To(p, flags));
      FreeSetPut(role, p, User(d, v));
      TabSetKept(mem1, mem, d);
      role := role[p := User(d, v)];
      assert mem == Entered(mem1, d, v, To(p, flags));
      ChainKept(mem1, freelist, fl, role1, mem, role);
      r := Done;
    }

    /** mappages for `n` user pages from `v` on, at `n` physical pages from `p` on that are nobody's
        yet. It stops where memory runs out or a page is mapped already (`k`, ghost), and takes
        nothing back. */
    method MapPages(d: nat, v: nat, p: nat, n: nat, flags: nat) returns (r: Mapped, ghost k: nat)
      requires Valid() && IsDir(role, d) && 0 < n && v + n <= KERNPAGE && p + n <= |mem|
      requires forall q: nat | p <= q < p + n :: role[q].Held?
      modifies this
      ensures Valid() && k <= n && (r.Done? <==> k == n)
      ensures Spread(old(mem), old(role), mem, role, d, v, p, flags, k) || r.Remap?
      ensures r.Remap? ==> k < n && Pte(old(mem), d, v + k).To?
      ensures r.NoMemory? ==> NoRoom(mem, role, d, (v + k) / ENTRIES)
      ensures forall w: nat | v <= w < v + k :: !Pte(old(mem), d, w).To?
    {
      hide Owned, Chain, Pte, Pde, SameBytes, Placed, OnlyTabs, NoRoom, Tabled;
      ghost var mem0, role0 := mem, role;
      k := 0;
      SpreadNone(mem, role, d, v, p, flags);
      var i := 0;
      while true
        invariant i == k < n && Valid() && Spread(mem0, role0, mem, role, d, v, p, flags, k)
        invariant forall w: nat | v <= w < v + k :: !Pte(mem0, d, w).To?
        decreases n - i
      {
        ghost var mem1, role1 := mem, role;
        assert role[p + i].Held? && IsDir(role, d) && Pte(mem, d, v + i) == Pte(mem0, d, v + i);
        r := MapPage(d, v + i, p + i, flags);
        if !r.Done? {
          return;
        }
        SpreadMore(mem0, role0, mem1, role1, mem, role, d, v, p, flags, k);
        i, k := i + 1, k + 1;
        if i == n {
          return;
        }
      }
    }

    /** Grows the user part of `d` to `newsz` bytes of zeroes. If memory runs out the pages
        added are given back. */
    method Allocuvm(d: nat, oldsz: nat, newsz: nat) returns (r: Grown)
      requires Valid() && IsDir(role, d)
      modifies this
      ensures r.Kept? <==> newsz < KERNBASE && newsz < oldsz
      ensures newsz >= KERNBASE ==> r.Failed?
      ensures r.Kept? || newsz >= KERNBASE ==> mem == old(mem) && role == old(role)
      ensures !r.Panics? ==> Valid() && IsDir(role, d) && |mem| == |old(mem)| &&
                             SameBytes(old(mem), old(role), mem, role)
      ensures r.Grew? ==>
                && Added(old(mem), old(role), mem, role, d, Up(oldsz), Up(newsz)) && Up(oldsz) <= Up(newsz)
                && |FreeSet(role)| + Need(old(mem), d, Up(oldsz), Up(newsz)) == |FreeSet(old(role))|
      ensures r.Failed? && newsz < KERNBASE ==>
                && Up(oldsz) <= Up(newsz) && |FreeSet(old(role))| < Need(old(mem), d, Up(oldsz), Up(newsz))
                && Cleared(old(mem), old(role), mem, d, Up(oldsz), Up(newsz))
                && Rolled(old(role), role, d, Up(oldsz), Up(newsz))
      ensures r.Panics? ==> exists w: nat :: Up(oldsz) <= w < Up(newsz) && Pte(old(mem), d, w).To?
    {
      hide Owned, Chain, Pte, Pde, FreeSet, Tabled, NoRoom, Spent, Need;
      if newsz >= KERNBASE {
        return Failed;
      }
      if newsz < oldsz {
        return Kept;
      }
      UpOrder(oldsz, newsz);
      ghost var mem0, role0, lo := mem, role, Up(oldsz);
      var v := Up(oldsz);
      AddedNone(mem, role, d, v);
      SpentNone(mem, role, d, v);
      while v * PGSIZE < newsz
        invariant lo <= v <= Up(newsz) && Valid() && IsDir(role, d) && |mem| == |mem0|
        invariant SameBytes(mem0, role0, mem, role) && Added(mem0, role0, mem, role, d, lo, v)
        invariant Spent(mem0, role0, mem, role, d, lo, v, v - lo)
        decreases KERNPAGE - v
      {
        UpBelow(v, newsz);
        ghost var mem1, role1 := mem, role;
        var p := NewPage(Bytes(0));
        ghost var mem2, role2 := mem, role;
        if p.None? {
          TooFew(mem0, role0, mem, role, d, lo, v, Up(newsz));
          var _ := Deallocuvm(d, newsz, oldsz);
          RolledBack(mem0, role0, mem1, role1, mem, role, d, lo, v, Up(newsz));
          return Failed;
        }
        var m := MapPage(d, v, p.value, WU);
        if m.Remap? {
          assert Pte(mem0, d, v).To?;
          return Panics;
        }
        if m.NoMemory? {
          OneTooFew(mem0, role0, mem1, role1, mem2, role2, d, lo, v, Up(newsz));
          var _ := Deallocuvm(d, newsz, oldsz);
          ghost var mem3, role3 := mem, role;
          FreeHeld(p.value);
          HeldBack(mem1, role1, mem2, role2, mem3, role3, mem, role, p.value, d, lo, Up(newsz));
          RolledBack(mem0, role0, mem1, role1, mem, role, d, lo, v, Up(newsz));
          return Failed;
        }
        SpentPage(mem0, role0, mem1, role1, mem2, role2, mem, role, d, lo, v, v - lo);
        AddedOne(mem0, role0, mem1, role1, mem2, mem, role, d, lo, v, p.value);
        v := v + 1;
      }
      UpAbove(v, newsz);
      Enough(mem0, role0, mem, role, d, lo, v);
      r := Grew;
    }

    /** Frees the user pages of `d`, its tables and the directory itself, each once. */
    method Freevm(d: nat)
      requires Valid() && IsDir(role, d)
      modifies this
      ensures Valid() && |mem| == |old(mem)| && Gone(old(role), role, d) && SameBytes(old(mem), old(role), mem, role)
      ensures forall x: nat, w: nat | IsDir(old(role), x) && x != d && w < PAGES ::
                Pte(mem, x, w) == Pte(old(mem), x, w)
    {
      hide Owned, Chain, Pte, Pde;
      ghost var mem0, role0 := mem, role;
      var _ := Deallocuvm(d, KERNBASE, 0);
      ghost var mem1, role1 := mem, role;
      ClearedAll(mem0, role0, mem1, role1, d);
      RetireDir(mem, role, d);
      ghost var retired := Retired(role1, d);
      ChainKept(mem, freelist, fl, role, mem, retired);
      role := retired;
      NoneFreed(role1, d);
      var i := 0;
      while i < ENTRIES
        invariant i <= ENTRIES && Valid() && |mem| == |mem1| && mem[d] == mem1[d] && TabsFreed(role1, role, d, i)
        invariant SameBytes(mem1, role1, mem, role) && SamePtes(mem1, retired, mem)
      {
        IndexInDir(mem1, role1, d, i);
        if mem[d].e[i].To? {
          ghost var mem2, role2 := mem, role;
          FreeHeld(mem[d].e[i].page);
          SamePtesTwice(mem1, retired, mem2, role2, mem);
        }
        i := i + 1;
      }
      ghost var mem2, role2 := mem, role;
      FreeHeld(d);
      SamePtesTwice(mem1, retired, mem2, role2, mem);
      AllGone(role0, mem1, role1, role2, d);
    }

    /** mappages for a stretch of kernel pages, none of them mapped yet. */
    method MapRange(d: nat, k: Range) returns (ok: bool)
      requires Valid() && IsDir(role, d) && KERNPAGE <= k.v && 0 < k.n && k.v + k.n <= PAGES
      requires forall w: nat | k.v <= w < k.v + k.n :: Pte(mem, d, w).Absent?
      modifies this
      ensures Valid() && |mem| == |old(mem)| && SameBytes(old(mem), old(role), mem, role)
      ensures OnlyTabs(old(role), role, d)
      ensures OnlyRange(old(mem), old(role), mem, d, k)
      ensures ok ==> RowMapped(mem, d, k) && Spent(old(mem), old(role), mem, role, d, k.v, k.v + k.n, 0)
      ensures !ok ==> Short(old(mem), old(role), mem, role, d, k.v, k.v + k.n)
    {
      hide Owned, Chain, Pte, Pde, Tabled, NoRoom, Spent, Short;
      ghost var mem0, role0 := mem, role;
      var j := 0;
      SpentNone(mem, role, d, k.v);
      while j < k.n
        invariant j <= k.n && Valid() && IsDir(role, d) && |mem| == |mem0| && SameBytes(mem0, role0, mem, role)
        invariant OnlyTabs(role0, role, d)
        invariant OnlyRange(mem0, role0, mem, d, k)
        invariant Spent(mem0, role0, mem, role, d, k.v, k.v + j, 0)
        invariant forall w: nat | k.v <= w < k.v + k.n ::
                    Pte(mem, d, w) == if w < k.v + j then To(k.pa + (w - k.v), k.flags) else Absent
      {
        ghost var mem2, role2 := mem, role;
        var t := Walk(d, k.v + j, true);
        if t.None? {
          FallsShort(mem0, role0, mem, role, d, k.v, k.v + j, k.v + k.n);
          return false;
        }
        EntryIn(mem, role, d, k.v + j);
        MapKernel(mem, role, d, k.v + j, To(k.pa + j, k.flags));
        EntrySet(mem, role, d, k.v + j, To(k.pa + j, k.flags));
        ghost var mem1 := mem;
        mem := SetEntry(mem, t.value, (k.v + j) % ENTRIES, To(k.pa + j, k.flags));
        SpentTab(mem0, role0, mem2, role2, mem1, mem, role, d, k.v, k.v + j, 0);
        assert mem == Entered(mem1, d, k.v + j, To(k.pa + j, k.flags));
        ChainKept(mem1, freelist, fl, role, mem, role);
        j := j + 1;
      }
      ok := true;
    }

    /** A new address space with the kernel's part only. */
    method Setupkvm() returns (r: Option<nat>)
      requires Valid() && KmapOk(kmap)
      modifies this
      ensures Valid() && |mem| == |old(mem)| && SamePtes(old(mem), old(role), mem)
      ensures SameBytes(old(mem), old(role), mem, role)
      ensures r.None? ==> role == old(role) && |FreeSet(old(role))| < KernelNeed(kmap)
      ensures r.Some? ==>
                && KernelSpent(old(role), mem, role, kmap, r.value, |kmap|)
                && |FreeSet(role)| + KernelNeed(kmap) == |FreeSet(old(role))|
                && IsDir(role, r.value) && r.value < |old(role)| && old(role)[r.value].Free? &&
                   Taken(old(role), role, r.value)
                && (forall w: nat | w < KERNPAGE :: Pte(mem, r.value, w).Absent?)
                && (forall i: nat | i < |kmap| :: RowMapped(mem, r.value, kmap[i]))
                && (forall w: nat | w < PAGES && Pte(mem, r.value, w).To? :: InRows(kmap, |kmap|, w))
    {
      hide Owned, Chain, Pte, Pde, FreeSet, TabSet, Spent, Short, KernelSpent, KmapTabs, KernelNeed;
      ghost var mem0, role0 := mem, role;
      r := NewPage(ZeroTable());
      if r.None? {
        NeedSome(kmap);
        return;
      }
      var d := r.value;
      KernelNone(role0, mem, role, kmap, d);
      NewDir(mem, role, d);
      ChainKept(mem, freelist, fl, role, mem, role[d := Dir]);
      role := role[d := Dir];
      var i := 0;
      while i < |kmap|
        invariant i <= |kmap| && Valid() && IsDir(role, d) && |mem| == |mem0| && SamePtes(mem0, role0, mem)
        invariant SameBytes(mem0, role0, mem, role) && Taken(role0, role, d)
        invariant KmapDone(mem, kmap, d, i) && KernelSpent(role0, mem, role, kmap, d, i)
      {
        ghost var mem1, role1 := mem, role;
        NextClear(mem, kmap, d, i);
        var ok := MapRange(d, kmap[i]);
        TakenMore(mem0, role0, mem1, role1, mem, role, d, kmap[i]);
        if !ok {
          KernelShort(role0, mem1, role1, mem, role, kmap, d, i);
          ghost var mem2, role2 := mem, role;
          Freevm(d);
          TakenBack(mem0, role0, mem2, role2, mem, role, d);
          return None;
        }
        KernelMore(role0, mem1, role1, mem, role, kmap, d, i);
        KmapMore(mem1, role1, mem, kmap, d, i);
        i := i + 1;
      }
      KernelEnough(role0, mem, role, kmap, d);
      UserEmpty(mem, kmap, d);
    }

    /** A new address space with its own copy of each of the first `sz` bytes' pages of `d`. */
    method Copyuvm(d: nat, sz: nat) returns (r: Copy)
      requires Valid() && IsDir(role, d) && sz <= KERNBASE && KmapOk(kmap)
      modifies this
      ensures r.Missing? ==> exists w: nat :: w < Up(sz) && Pte(old(mem), d, w).Absent?
      ensures !r.Missing? ==>
                Valid() && |mem| == |old(mem)| && SamePtes(old(mem), old(role), mem) &&
                SameBytes(old(mem), old(role), mem, role)
      ensures r.OutOfMemory? ==> role == old(role) && |FreeSet(old(role))| < CopyNeed(kmap, Up(sz))
      ensures r.Copied? ==>
                && |FreeSet(role)| + CopyNeed(kmap, Up(sz)) == |FreeSet(old(role))|
                && IsDir(role, r.d) && r.d != d && Taken(old(role), role, r.d)
                && CopiedTo(old(mem), old(role), mem, d, r.d, Up(sz))
    {
      hide Owned, Chain, Pte, Pde, FreeSet, KernelSpent, CopySpent, Tabled, NoRoom, KernelNeed, CopyNeed;
      ghost var mem0, role0 := mem, role;
      var made := Setupkvm();
      CopyNone(role0, mem, role, kmap, made, Up(sz));
      if made.None? {
        return OutOfMemory;
      }
      var d' := made.value;
      CopiedNone(mem0, role0, mem, role, d, d');
      var v := 0;
      while v * PGSIZE < sz
        invariant v <= KERNPAGE && Valid() && IsDir(role, d) && IsDir(role, d') && |mem| == |mem0|
        invariant SamePtes(mem0, role0, mem) && SameBytes(mem0, role0, mem, role) && Taken(role0, role, d')
        invariant CopiedTo(mem0, role0, mem, d, d', v) && v <= Up(sz)
        invariant CopySpent(role0, mem, role, kmap, d', v)
      {
        UpBelow(v, sz);
        ghost var mem1, role1 := mem, role;
        var t := Walk(d, v, false);
        if t.None? {
          NoTable(mem, d, v);
          assert Pte(mem, d, v) == Pte(mem0, d, v);
          return Missing;
        }
        EntryIn(mem, role, d, v);
        var pte := mem[t.value].e[v % ENTRIES];
        if pte.Absent? {
          assert Pte(mem, d, v) == Pte(mem0, d, v);
          return Missing;
        }
        OneUser(mem, role, d, v);
        var p := NewPage(mem[pte.page]);
        ghost var mem2, role2 := mem, role;
        if p.None? {
          CopyShort(role0, mem1, role1, mem1, role1, kmap, d', v, Up(sz));
          Freevm(d');
          TakenBack(mem0, role0, mem1, role1, mem, role, d');
          return OutOfMemory;
        }
        assert Pte(mem, d', v).Absent?;
        var m := MapPage(d', v, p.value, pte.flags);
        if m.NoMemory? {
          CopyShort(role0, mem1, role1, mem2, role2, kmap, d', v, Up(sz));
          FreeHeld(p.value);
          HeldThenFreed(mem0, role0, mem1, role1, mem2, role2, mem, role, p.value, d');
          ghost var mem3, role3 := mem, role;
          Freevm(d');
          TakenBack(mem0, role0, mem3, role3, mem, role, d');
          return OutOfMemory;
        }
        CopyMore(role0, mem1, role1, mem2, role2, mem, role, kmap, d', v);
        CopiedOne(mem0, role0, mem1, role1, mem2, mem, role, d, d', v, p.value);
        v := v + 1;
      }
      UpAbove(v, sz);
      CopyEnough(role0, mem, role, kmap, d', v);
      r := Copied(d');
    }
  }

  datatype Copy = Copied(d: nat) | OutOfMemory | Missing

  /** The pages a copy of the first `n` pages needs. */
  ghost function CopyNeed(kmap: seq<Range>, n: nat): nat { 1 + n + |KmapTabs(kmap, |kmap|) + TabsIn(0, n)| }

  lemma {:induction false} NeedGrows(kmap: seq<Range>, v: nat, n: nat)
    requires v <= n
    ensures var some, all := KmapTabs(kmap, |kmap|) + TabsIn(0, v), KmapTabs(kmap, |kmap|) + TabsIn(0, n);
            && some <= all && |some| <= |all| && KernelNeed(kmap) + n <= CopyNeed(kmap, n)
            && (v < n && v / ENTRIES !in some ==> |some| < |all|)
  {
    hide KmapTabs, TabsIn;
    TabsInGrow(0, v, n);
    var k := KmapTabs(kmap, |kmap|);
    SmallerSet(k + TabsIn(0, v), k + TabsIn(0, n));
    SmallerSet(k, k + TabsIn(0, n));
  }

  /** A directory and the tables of the first `n` rows have been taken. */
  ghost predicate KernelSpent(role: Roles, mem': Mem, role': Roles, kmap: seq<Range>, d: nat, n: nat) {
    n <= |kmap| && TabSet(mem', d) == KmapTabs(kmap, n) && Budget(mem', role', d) + 1 == |FreeSet(role)|
  }

  lemma {:induction false} NeedSome(kmap: seq<Range>)
    ensures KernelNeed(kmap) > 0
  {
  }

  lemma {:induction false} KernelNone(role: Roles, mem': Mem, role': Roles, kmap: seq<Range>, d: nat)
    requires |FreeSet(role')| + 1 == |FreeSet(role)|
    requires d < |role'| == |mem'| && role'[d].Held? && mem'[d] == ZeroTable()
    ensures KernelSpent(role, mem', role'[d := Dir], kmap, d, 0)
  {
    hide FreeSet, TabSet;
    TabSetNone(mem', d);
    FreeSetPut(role', d, Dir);
  }

  lemma {:induction false} KernelMore(role: Roles, mem1: Mem, role1: Roles, mem': Mem, role': Roles, kmap: seq<Range>,
                                      d: nat, n: nat)
    requires KernelSpent(role, mem1, role1, kmap, d, n) && n < |kmap|
    requires Spent(mem1, role1, mem', role', d, kmap[n].v, kmap[n].v + kmap[n].n, 0)
    ensures KernelSpent(role, mem', role', kmap, d, n + 1)
  {
    hide FreeSet, TabSet, TabsIn;
  }

  lemma {:induction false} KernelShort(role: Roles, mem1: Mem, role1: Roles, mem': Mem, role': Roles, kmap: seq<Range>,
                                       d: nat, n: nat)
    requires KernelSpent(role, mem1, role1, kmap, d, n) && n < |kmap|
    requires Short(mem1, role1, mem', role', d, kmap[n].v, kmap[n].v + kmap[n].n)
    ensures |FreeSet(role)| < KernelNeed(kmap)
  {
    hide FreeSet, TabSet, TabsIn;
    KmapTabsGrow(kmap, n + 1, |kmap|);
    SmallerSet(TabSet(mem', d), KmapTabs(kmap, |kmap|));
  }

  lemma {:induction false} KernelEnough(role: Roles, mem': Mem, role': Roles, kmap: seq<Range>, d: nat)
    requires KernelSpent(role, mem', role', kmap, d, |kmap|)
    ensures |FreeSet(role')| + KernelNeed(kmap) == |FreeSet(role)|
  {
    hide FreeSet, TabSet, KmapTabs;
  }

  /** Besides, `v` pages and their tables have. */
  ghost predicate CopySpent(role: Roles, mem': Mem, role': Roles, kmap: seq<Range>, d: nat, v: nat) {
    TabSet(mem', d) == KmapTabs(kmap, |kmap|) + TabsIn(0, v) && Budget(mem', role', d) + v + 1 == |FreeSet(role)|
  }

  lemma {:induction false} CopyNone(role: Roles, mem': Mem, role': Roles, kmap: seq<Range>, made: Option<nat>, n: nat)
    requires made.None? ==> |FreeSet(role)| < KernelNeed(kmap)
    requires made.Some? ==> KernelSpent(role, mem', role', kmap, made.value, |kmap|)
    ensures made.None? ==> |FreeSet(role)| < CopyNeed(kmap, n)
    ensures made.Some? ==> CopySpent(role, mem', role', kmap, made.value, 0)
  {
    hide FreeSet, TabSet, KmapTabs;
    NeedGrows(kmap, 0, n);
  }

  lemma {:induction false} CopyMore(role: Roles, mem1: Mem, role1: Roles, mem2: Mem, role2: Roles, mem': Mem,
                                    role': Roles, kmap: seq<Range>, d: nat, v: nat)
    requires CopySpent(role, mem1, role1, kmap, d, v)
    requires |FreeSet(role2)| + 1 == |FreeSet(role1)| && |mem2| == |mem1| && (d < |mem1| ==> mem2[d] == mem1[d])
    requires Tabled(mem2, role2, mem', role', d, v / ENTRIES)
    ensures CopySpent(role, mem', role', kmap, d, v + 1)
  {
    hide FreeSet, TabSet, KmapTabs;
    TabSetKept(mem1, mem2, d);
  }

  lemma {:induction false} CopyShort(role: Roles, mem1: Mem, role1: Roles, mem2: Mem, role2: Roles, kmap: seq<Range>,
                                     d: nat, v: nat, n: nat)
    requires CopySpent(role, mem1, role1, kmap, d, v) && v < n
    requires |mem2| == |mem1| && (d < |mem1| ==> mem2[d] == mem1[d])
    requires FreeSet(role1) == {} || (|FreeSet(role2)| + 1 == |FreeSet(role1)| && NoRoom(mem2, role2, d, v / ENTRIES))
    ensures |FreeSet(role)| < CopyNeed(kmap, n)
  {
    hide FreeSet, TabSet, KmapTabs, TabsIn;
    TabSetKept(mem1, mem2, d);
    NeedGrows(kmap, v, n);
  }

  lemma {:induction false} CopyEnough(role: Roles, mem': Mem, role': Roles, kmap: seq<Range>, d: nat, n: nat)
    requires CopySpent(role, mem', role', kmap, d, n)
    ensures |FreeSet(role')| + CopyNeed(kmap, n) == |FreeSet(role)|
  {
    hide FreeSet, TabSet, KmapTabs, TabsIn;
  }

  /** `d'` maps a page of its own, free before, with the same bytes and flags, wherever `d` does
      below `n`, and nothing in the rest of the user's part. */
  ghost predicate CopiedTo(mem: Mem, role: Roles, mem': Mem, d: nat, d': nat, n: nat) {
    && |mem'| == |mem| == |role|
    && (forall w: nat | w < n ::
          && Pte(mem, d, w).To? && Pte(mem', d', w).To? && Pte(mem', d', w).flags == Pte(mem, d, w).flags
          && var p, q := Pte(mem, d, w).page, Pte(mem', d', w).page;
          p < |mem| && q < |mem| && role[q].Free? && !role[p].Free? && mem'[q] == mem[p])
    && (forall w: nat | n <= w < KERNPAGE :: Pte(mem', d', w).Absent?)
  }

  lemma {:induction false} CopiedNone(mem: Mem, role: Roles, mem': Mem, role': Roles, d: nat, d': nat)
    requires |mem'| == |mem| == |role| && forall w: nat | w < KERNPAGE :: Pte(mem', d', w).Absent?
    ensures CopiedTo(mem, role, mem', d, d', 0)
  {
    hide Pte;
  }

  lemma {:induction false} HeldThenFreed(mem: Mem, role: Roles, mem1: Mem, role1: Roles, mem2: Mem, role2: Roles,
                                         mem': Mem, role': Roles, p: nat, d: nat)
    requires |mem| == |mem1| == |mem2| == |mem'| == |role| == |role1| == |role2| == |role'| && p < |mem|
    requires Taken(role, role1, d) && SamePtes(mem, role, mem1) && SameBytes(mem, role, mem1, role1) && role1[p].Free?
    requires role2 == role1[p := Held] && mem2 == mem1[p := mem2[p]] && SamePtes(mem1, role1, mem2)
    requires role' == role2[p := Free] && mem' == mem2[p := mem'[p]] && SamePtes(mem2, role2, mem')
    ensures role' == role1 && Taken(role, role', d) && SamePtes(mem, role, mem') && SameBytes(mem, role, mem', role')
  {
    hide Pte;
    assert role' == role1;
    assert forall x: nat | IsDir(role, x) :: IsDir(role1, x) && IsDir(role2, x);
  }

  lemma {:induction false} CopiedOne(mem: Mem, role: Roles, mem1: Mem, role1: Roles, mem2: Mem, mem': Mem, role': Roles,
                                     d: nat, d': nat, v: nat, p: nat)
    requires |mem| == |mem1| == |mem2| == |mem'| == |role| == |role1| == |role'| && v < KERNPAGE && p < |mem|
    requires Owned(mem, role) && Owned(mem1, role1) && IsDir(role, d) && d' < |role| && role[d'].Free?
    requires IsDir(role1, d')
    requires Taken(role, role1, d') && SamePtes(mem, role, mem1) && SameBytes(mem, role, mem1, role1)
    requires CopiedTo(mem, role, mem1, d, d', v)
    requires Pte(mem1, d, v).To? && Pte(mem1, d, v).page < |mem| && role1[p].Free?
    requires mem2 == mem1[p := mem1[Pte(mem1, d, v).page]] && SamePtes(mem1, role1, mem2)
    requires Placed(mem2, role1[p := Held], mem', d', v, To(p, Pte(mem1, d, v).flags)) && mem'[p] == mem2[p]
    requires OnlyTabs(role1[p := Held][p := User(d', v)], role', d') && SameBytes(mem2, role1[p := Held], mem', role')
    ensures Taken(role, role', d') && SamePtes(mem, role, mem') && SameBytes(mem, role, mem', role')
    ensures CopiedTo(mem, role, mem', d, d', v + 1)
  {
    hide Pte, Pde;
    assert forall x: nat | IsDir(role, x) :: IsDir(role1, x) && IsDir(role1[p := Held], x) && x != d';
    assert Pte(mem, d, v) == Pte(mem1, d, v);
    var s := Pte(mem, d, v).page;
    assert role[s] == User(d, v) && role1[s] == User(d, v);
    forall w: nat | w < v
      ensures Pte(mem', d', w) == Pte(mem1, d', w) && mem'[Pte(mem1, d', w).page] == mem1[Pte(mem1, d', w).page]
    {
      var q := Pte(mem1, d', w).page;
      assert role1[q] == User(d', w);
    }
  }

  /** kmap's rows are in the kernel's part and do not overlap. */
  ghost predicate KmapOk(kmap: seq<Range>) {
    && (forall i: nat | i < |kmap| :: KERNPAGE <= kmap[i].v && 0 < kmap[i].n && kmap[i].v + kmap[i].n <= PAGES)
    && (forall i: nat, j: nat | i < j < |kmap| ::
          kmap[i].v + kmap[i].n <= kmap[j].v || kmap[j].v + kmap[j].n <= kmap[i].v)
  }

  /** Nothing but `d`'s entries in that stretch has changed. */
  ghost predicate OnlyRange(mem: Mem, role: Roles, mem': Mem, d: nat, k: Range) {
    forall x: nat, w: nat | IsDir(role, x) && w < PAGES && !(x == d && k.v <= w < k.v + k.n) ::
      Pte(mem', x, w) == Pte(mem, x, w)
  }

  /** Pages are where they were, but for free ones that belong to `d` now. */
  ghost predicate Taken(role: Roles, role': Roles, d: nat) {
    && |role'| == |role|
    && forall p: nat | p < |role| :: role'[p] == role[p] || (role[p].Free? && OfSpace(role'[p], p, d))
  }

  ghost predicate RowMapped(mem: Mem, d: nat, k: Range) {
    forall w: nat | k.v <= w < k.v + k.n :: Pte(mem, d, w) == To(k.pa + (w - k.v), k.flags)
  }

  ghost predicate KmapDone(mem: Mem, kmap: seq<Range>, d: nat, n: nat)
    requires n <= |kmap|
  {
    && (forall i: nat | i < n :: RowMapped(mem, d, kmap[i]))
    && (forall w: nat | w < PAGES && Pte(mem, d, w).To? :: InRows(kmap, n, w))
  }

  ghost predicate InRows(kmap: seq<Range>, n: nat, w: nat)
    requires n <= |kmap|
  {
    exists i: nat :: i < n && kmap[i].v <= w < kmap[i].v + kmap[i].n
  }

  lemma {:induction false} UserEmpty(mem: Mem, kmap: seq<Range>, d: nat)
    requires KmapOk(kmap) && KmapDone(mem, kmap, d, |kmap|)
    ensures forall w: nat | w < KERNPAGE :: Pte(mem, d, w).Absent?
  {
    hide Pte;
  }

  lemma {:induction false} NextClear(mem: Mem, kmap: seq<Range>, d: nat, n: nat)
    requires KmapOk(kmap) && n < |kmap| && KmapDone(mem, kmap, d, n)
    ensures forall w: nat | kmap[n].v <= w < kmap[n].v + kmap[n].n :: Pte(mem, d, w).Absent?
  {
    hide Pte;
  }

  lemma {:induction false} KmapMore(mem: Mem, role: Roles, mem': Mem, kmap: seq<Range>, d: nat, n: nat)
    requires KmapOk(kmap) && n < |kmap| && KmapDone(mem, kmap, d, n) && IsDir(role, d)
    requires OnlyRange(mem, role, mem', d, kmap[n])
    requires RowMapped(mem', d, kmap[n])
    ensures KmapDone(mem', kmap, d, n + 1)
  {
    hide Pte;
    forall i: nat | i < n ensures RowMapped(mem', d, kmap[i]) {
      assert RowMapped(mem, d, kmap[i]);
    }
    forall w: nat | w < PAGES && Pte(mem', d, w).To? ensures InRows(kmap, n + 1, w) {
      if !(kmap[n].v <= w < kmap[n].v + kmap[n].n) {
        assert InRows(kmap, n, w);
      }
    }
  }

  lemma {:induction false} TakenMore(mem: Mem, role: Roles, mem1: Mem, role1: Roles, mem': Mem, role': Roles, d: nat,
                                     k: Range)
    requires |mem| == |mem1| == |mem'| == |role| == |role1| == |role'| && d < |role| && role[d].Free?
    requires Taken(role, role1, d) && SamePtes(mem, role, mem1) && SameBytes(mem, role, mem1, role1)
    requires OnlyTabs(role1, role', d) && OnlyRange(mem1, role1, mem', d, k) && SameBytes(mem1, role1, mem', role')
    ensures Taken(role, role', d) && SamePtes(mem, role, mem') && SameBytes(mem, role, mem', role')
  {
    hide Pte;
    assert forall x: nat | IsDir(role, x) :: IsDir(role1, x) && x != d;
  }

  /** Freeing what was taken for `d` puts every page back where it was. */
  lemma {:induction false} TakenBack(mem: Mem, role: Roles, mem1: Mem, role1: Roles, mem': Mem, role': Roles, d: nat)
    requires |mem| == |mem1| == |mem'| == |role| == |role1| == |role'| && d < |role| && role[d].Free?
    requires Owned(mem, role)
    requires Taken(role, role1, d) && SamePtes(mem, role, mem1) && SameBytes(mem, role, mem1, role1)
    requires Gone(role1, role', d) && SameBytes(mem1, role1, mem', role')
    requires forall x: nat, w: nat | IsDir(role1, x) && x != d && w < PAGES :: Pte(mem', x, w) == Pte(mem1, x, w)
    ensures role' == role && SamePtes(mem, role, mem') && SameBytes(mem, role, mem', role')
  {
    hide Pte, Pde;
    assert forall x: nat | IsDir(role, x) :: IsDir(role1, x) && x != d;
    assert forall p: nat | p < |role| && (role[p].Tab? || role[p].User?) :: role[p].d != d;
  }

  /** Every page `d` had is free; every other page is where it was. */
  ghost predicate Gone(role: Roles, role': Roles, d: nat) {
    |role'| == |role| && forall p: nat | p < |role| :: role'[p] == if OfSpace(role[p], p, d) then Free else role[p]
  }

  predicate OfSpace(r: Role, p: nat, d: nat) { p == d || (r.Tab? && r.d == d) || (r.User? && r.d == d) }

  /** Of the directory being taken down, the first `n` tables are free. */
  ghost predicate TabsFreed(role: Roles, role': Roles, d: nat, n: nat) {
    && |role'| == |role|
    && forall p: nat | p < |role| ::
         role'[p] == if p == d then Held
         else if role[p].Tab? && role[p].d == d then (if role[p].i < n then Free else Held) else role[p]
  }

  lemma {:induction false} AllGone(role: Roles, mem1: Mem, role1: Roles, role2: Roles, d: nat)
    requires Owned(mem1, role1) && |role| == |role1| && d < |role| && TabsFreed(role1, role2, d, ENTRIES)
    requires forall p: nat | p < |role| :: role1[p] == if role[p].User? && role[p].d == d then Free else role[p]
    ensures Gone(role, role2[d := Free], d)
  {
    hide Pte, Pde;
  }

  lemma {:induction false} NoneFreed(role: Roles, d: nat)
    requires IsDir(role, d)
    ensures TabsFreed(role, Retired(role, d), d, 0)
  {
  }

  lemma {:induction false} ClearedAll(mem: Mem, role: Roles, mem': Mem, role': Roles, d: nat)
    requires IsDir(role, d) && Cleared(mem, role, mem', d, Up(0), Up(KERNBASE))
    requires Returned(role, role', d, Up(0), Up(KERNBASE))
    requires Owned(mem, role) && |mem'| == |mem|
    ensures (forall v: nat | v < KERNPAGE :: Pte(mem', d, v).Absent?) && IsDir(role', d)
    ensures forall p: nat | p < |role| :: role'[p] == if role[p].User? && role[p].d == d then Free else role[p]
    ensures forall x: nat, w: nat | IsDir(role, x) && x != d && w < PAGES :: Pte(mem', x, w) == Pte(mem, x, w)
  {
    assert Up(0) == 0 && Up(KERNBASE) == KERNPAGE;
    hide Pte, Pde, Up;
  }

  /** The `i`-th table of the directory: its page, if it has one, and nobody else's label. */
  lemma {:induction false} IndexInDir(mem: Mem, role: Roles, d: nat, i: nat)
    requires Owned(mem, role) && IsDir(role, d) && i < ENTRIES
    ensures d < |mem| && mem[d].Table? && |mem[d].e| == ENTRIES
    ensures mem[d].e[i].To? ==> mem[d].e[i].page < |mem| && role[mem[d].e[i].page] == Tab(d, i)
    ensures forall t: nat | t < |mem| && role[t] == Tab(d, i) :: mem[d].e[i].To? && t == mem[d].e[i].page
  {
    assert Pde(mem, d, i) == mem[d].e[i];
  }

  lemma {:induction false} SamePtesTwice(mem: Mem, role: Roles, mem1: Mem, role1: Roles, mem': Mem)
    requires SamePtes(mem, role, mem1) && SamePtes(mem1, role1, mem')
    requires forall x: nat | IsDir(role, x) :: IsDir(role1, x)
    ensures SamePtes(mem, role, mem')
  {
    hide Pte;
  }

  /** One entry of `d` is now `e`. */
  ghost predicate Placed(mem: Mem, role: Roles, mem': Mem, d: nat, v: nat, e: Entry) {
    forall x: nat, w: nat | IsDir(role, x) && w < PAGES ::
      Pte(mem', x, w) == if x == d && w == v then e else Pte(mem, x, w)
  }

  /** `d` maps the `k` pages from `p` on at `v` and after, with the bytes they had; nothing else has
      changed but that free pages have become tables of `d`. */
  ghost predicate Spread(mem: Mem, role: Roles, mem': Mem, role': Roles, d: nat, v: nat, p: nat, flags: nat, k: nat) {
    && |mem| == |role| == |mem'| == |role'|
    && (forall x: nat, w: nat | IsDir(role, x) && w < PAGES ::
          Pte(mem', x, w) == if x == d && v <= w < v + k then To(p + (w - v), flags) else Pte(mem, x, w))
    && (forall q: nat | q < |role| && p <= q < p + k :: role'[q] == User(d, v + (q - p)) && mem'[q] == mem[q])
    && (forall q: nat | q < |role| && !(p <= q < p + k) ::
          role'[q] == role[q] || (role[q].Free? && role'[q].Tab? && role'[q].d == d))
    && forall q: nat | q < |role| && (role[q].User? || role[q].Held?) :: mem'[q] == mem[q]
  }

  lemma {:induction false} SpreadNone(mem: Mem, role: Roles, d: nat, v: nat, p: nat, flags: nat)
    requires |mem| == |role|
    ensures Spread(mem, role, mem, role, d, v, p, flags, 0)
  {
  }

  lemma {:induction false} SpreadMore(mem: Mem, role: Roles, mem1: Mem, role1: Roles, mem': Mem, role': Roles, d: nat,
                                      v: nat, p: nat, flags: nat, k: nat)
    requires Spread(mem, role, mem1, role1, d, v, p, flags, k) && p + k < |mem| && IsDir(role, d)
    requires forall q: nat | p <= q <= p + k :: role[q].Held?
    requires |mem'| == |role'| == |mem| && SameBytes(mem1, role1, mem', role')
    requires Placed(mem1, role1, mem', d, v + k, To(p + k, flags)) && mem'[p + k] == mem1[p + k]
    requires OnlyTabs(role1[p + k := User(d, v + k)], role', d)
    ensures Spread(mem, role, mem', role', d, v, p, flags, k + 1)
  {
    hide Pte;
  }

  /** `d` maps a page that was free, zeroed, at each place from `lo` up to `hi`, where it mapped
      none; nothing else has changed but that free pages have become tables of `d`. */
  ghost predicate Added(mem: Mem, role: Roles, mem': Mem, role': Roles, d: nat, lo: nat, hi: nat)
    requires |mem'| == |role| == |role'|
  {
    && (forall w: nat | lo <= w < hi ::
          && Pte(mem, d, w).Absent? && Pte(mem', d, w).To? && Pte(mem', d, w).flags == WU
          && var p := Pte(mem', d, w).page; p < |role| && role[p].Free? && mem'[p] == Bytes(0))
    && (forall x: nat, w: nat | IsDir(role, x) && w < PAGES && !(x == d && lo <= w < hi) ::
          Pte(mem', x, w) == Pte(mem, x, w))
    && (forall p: nat | p < |role| ::
          role'[p] == role[p] || (role[p].Free? && ((role'[p].Tab? && role'[p].d == d) || UserIn(role'[p], d, lo, hi))))
  }

  lemma {:induction false} AddedNone(mem: Mem, role: Roles, d: nat, v: nat)
    requires |role| == |mem|
    ensures Added(mem, role, mem, role, d, v, v)
  {
  }

  lemma {:induction false} AddedOne(mem: Mem, role: Roles, mem1: Mem, role1: Roles, mem2: Mem, mem': Mem, role': Roles,
                                    d: nat, lo: nat, v: nat, p: nat)
    requires |mem| == |mem1| == |mem2| == |mem'| == |role| == |role1| == |role'| && lo <= v < KERNPAGE
    requires Owned(mem1, role1) && IsDir(role, d) && Added(mem, role, mem1, role1, d, lo, v)
    requires SameBytes(mem, role, mem1, role1)
    requires p < |mem| && role1[p].Free? && mem2 == mem1[p := Bytes(0)] && SamePtes(mem1, role1, mem2)
    requires Pte(mem1, d, v).Absent?
    requires Placed(mem2, role1[p := Held], mem', d, v, To(p, WU)) && mem'[p] == mem2[p]
    requires OnlyTabs(role1[p := Held][p := User(d, v)], role', d) && SameBytes(mem2, role1[p := Held], mem', role')
    ensures Added(mem, role, mem', role', d, lo, v + 1) && SameBytes(mem, role, mem', role')
  {
    hide Pte, Pde;
    assert forall x: nat | IsDir(role, x) :: IsDir(role1, x) && IsDir(role1[p := Held], x);
    forall w: nat | lo <= w < v ensures Pte(mem', d, w) == Pte(mem1, d, w) && mem'[Pte(mem1, d, w).page] == Bytes(0) {
      var q := Pte(mem1, d, w).page;
      assert role1[q] == User(d, w);
    }
  }

  /** No page is left, and some of the tables for the places from `lo` up to `hi` are missing. */
  ghost predicate Short(mem: Mem, role: Roles, mem': Mem, role': Roles, d: nat, lo: nat, hi: nat) {
    && FreeSet(role') == {} && Budget(mem', role', d) == Budget(mem, role, d)
    && TabSet(mem', d) < TabSet(mem, d) + TabsIn(lo, hi)
  }

  lemma {:induction false} FallsShort(mem: Mem, role: Roles, mem': Mem, role': Roles, d: nat, lo: nat, v: nat, hi: nat)
    requires lo <= v < hi && Spent(mem, role, mem', role', d, lo, v, 0) && NoRoom(mem', role', d, v / ENTRIES)
    ensures Short(mem, role, mem', role', d, lo, hi)
  {
    hide FreeSet, TabSet, TabsIn;
    TabsInGrow(lo, v, hi);
  }

  /** With `v - lo` of the places filled there is no page left: there never were enough. */
  lemma {:induction false} TooFew(mem: Mem, role: Roles, mem': Mem, role': Roles, d: nat, lo: nat, v: nat, hi: nat)
    requires lo <= v < hi && Spent(mem, role, mem', role', d, lo, v, v - lo) && FreeSet(role') == {}
    ensures |FreeSet(role)| < Need(mem, d, lo, hi)
  {
    hide FreeSet, TabSet, TabsIn;
    TabsInGrow(lo, v, hi);
    var had, all := TabSet(mem, d), TabSet(mem, d) + TabsIn(lo, hi);
    SmallerSet(had, all);
    SmallerSet(TabSet(mem', d), all);
    assert all - had == TabsIn(lo, hi) - had;
  }

  /** Likewise with the next one's page at hand but no page left for its table. */
  lemma {:induction false} OneTooFew(mem: Mem, role: Roles, mem1: Mem, role1: Roles, mem2: Mem, role2: Roles, d: nat,
                                     lo: nat, v: nat, hi: nat)
    requires lo <= v < hi && Spent(mem, role, mem1, role1, d, lo, v, v - lo)
    requires |FreeSet(role2)| + 1 == |FreeSet(role1)| && |mem2| == |mem1| && (d < |mem1| ==> mem2[d] == mem1[d])
    requires NoRoom(mem2, role2, d, v / ENTRIES)
    ensures |FreeSet(role)| < Need(mem, d, lo, hi)
  {
    hide FreeSet, TabSet, TabsIn;
    TabSetKept(mem1, mem2, d);
    TabsInGrow(lo, v, hi);
    var had, all := TabSet(mem, d), TabSet(mem, d) + TabsIn(lo, hi);
    SmallerSet(had, all);
    SmallerSet(TabSet(mem1, d), all);
    assert v / ENTRIES in all && v / ENTRIES !in TabSet(mem1, d);
    assert all - had == TabsIn(lo, hi) - had;
  }

  lemma {:induction false} Enough(mem: Mem, role: Roles, mem': Mem, role': Roles, d: nat, lo: nat, hi: nat)
    requires lo <= hi && Spent(mem, role, mem', role', d, lo, hi, hi - lo)
    ensures |FreeSet(role')| + Need(mem, d, lo, hi) == |FreeSet(role)|
  {
    hide FreeSet, TabSet, TabsIn;
    var had := TabSet(mem, d);
    SmallerSet(had, had + TabsIn(lo, hi));
    assert had + TabsIn(lo, hi) - had == TabsIn(lo, hi) - had;
  }

  /** The page kalloc gave out is freed after the others. */
  lemma {:induction false} HeldBack(mem1: Mem, role1: Roles, mem2: Mem, role2: Roles, mem3: Mem, role3: Roles,
                                    mem': Mem, role': Roles,
                                    p: nat, d: nat, lo: nat, hi: nat)
    requires |mem1| == |mem2| == |mem3| == |mem'| == |role1| == |role2| == |role3| == |role'| && p < |mem1|
    requires role1[p].Free? && role2 == role1[p := Held] && mem2 == mem1[p := mem2[p]] && SamePtes(mem1, role1, mem2)
    requires Cleared(mem2, role2, mem3, d, lo, hi) && Returned(role2, role3, d, lo, hi)
    requires SameBytes(mem2, role2, mem3, role3)
    requires SamePtes(mem3, role3, mem') && role' == role3[p := Free] && mem' == mem3[p := mem'[p]]
    ensures Cleared(mem1, role1, mem', d, lo, hi) && Returned(role1, role', d, lo, hi)
    ensures SameBytes(mem1, role1, mem', role')
  {
    hide Pte, Pde;
    assert forall x: nat :: IsDir(role2, x) == IsDir(role1, x) && IsDir(role3, x) == IsDir(role1, x);
  }

  lemma {:induction false} RolledBack(mem: Mem, role: Roles, mem1: Mem, role1: Roles, mem': Mem, role': Roles, d: nat,
                                      lo: nat, v: nat, hi: nat)
    requires |mem| == |mem1| == |mem'| == |role| == |role1| == |role'| && lo <= v <= hi
    requires Added(mem, role, mem1, role1, d, lo, v) && SameBytes(mem, role, mem1, role1)
    requires Cleared(mem1, role1, mem', d, lo, hi) && Returned(role1, role', d, lo, hi)
    requires SameBytes(mem1, role1, mem', role')
    ensures Cleared(mem, role, mem', d, lo, hi) && Rolled(role, role', d, lo, hi) && SameBytes(mem, role, mem', role')
  {
    hide Pte, Pde;
    assert forall x: nat | IsDir(role, x) :: IsDir(role1, x);
  }

  /** A failed allocuvm leaves the user's mapping as it was exactly when there was nothing in
      its way; then no page has moved either, but for free ones that are tables now. */
  lemma {:induction false} RollbackExact(mem: Mem, role: Roles, mem': Mem, role': Roles, d: nat, lo: nat, hi: nat)
    requires Owned(mem, role) && IsDir(role, d) && hi <= KERNPAGE
    requires Cleared(mem, role, mem', d, lo, hi) && Rolled(role, role', d, lo, hi)
    ensures SamePtes(mem, role, mem') <==> forall w: nat | lo <= w < hi :: Pte(mem, d, w).Absent?
    ensures SamePtes(mem, role, mem') ==> OnlyTabs(role, role', d)
  {
    hide Pte, Pde;
    if SamePtes(mem, role, mem') {
      forall w: nat | lo <= w < hi ensures Pte(mem, d, w).Absent? {
        assert Pte(mem', d, w) == Pte(mem, d, w);
      }
      assert forall p: nat | p < |role| && role[p].User? && role[p].d == d :: Pte(mem, d, role[p].v).To?;
    }
  }

  /** Pages are where they were, but for those of `d` in that stretch, now free, and free ones
      that have become tables of `d`. */
  ghost predicate Rolled(role: Roles, role': Roles, d: nat, lo: nat, hi: nat) {
    && |role'| == |role|
    && forall p: nat | p < |role| ::
         || role'[p] == (if UserIn(role[p], d, lo, hi) then Free else role[p])
         || (role[p].Free? && role'[p].Tab? && role'[p].d == d)
  }

  function Lesser(a: nat, b: nat): nat { if a < b then a else b }

  /** `d` maps nothing from `lo` up to `hi`; every other mapping is as it was. */
  ghost predicate Cleared(mem: Mem, role: Roles, mem': Mem, d: nat, lo: nat, hi: nat) {
    forall x: nat, w: nat | IsDir(role, x) && w < PAGES ::
      Pte(mem', x, w) == if x == d && lo <= w < hi then Absent else Pte(mem, x, w)
  }

  predicate UserIn(r: Role, d: nat, lo: nat, hi: nat) { r.User? && r.d == d && lo <= r.v < hi }

  /** The pages `d` had there are free; every other page is where it was. */
  ghost predicate Returned(role: Roles, role': Roles, d: nat, lo: nat, hi: nat) {
    |role'| == |role| && forall p: nat | p < |role| :: role'[p] == if UserIn(role[p], d, lo, hi) then Free else role[p]
  }

  lemma {:induction false} UpOrder(a: nat, b: nat)
    ensures a <= b ==> Up(a) <= Up(b)
    ensures b <= KERNBASE ==> Up(b) <= KERNPAGE
  {
  }

  lemma {:induction false} UpBelow(v: nat, sz: nat)
    requires v * PGSIZE < sz <= KERNBASE
    ensures v < Up(sz) <= KERNPAGE && v / ENTRIES < KERNPAGE / ENTRIES && (v / ENTRIES + 1) * ENTRIES <= KERNPAGE
  {
  }

  lemma {:induction false} UpAbove(v: nat, sz: nat)
    requires v * PGSIZE >= sz
    ensures v >= Up(sz)
  {
  }

  lemma {:induction false} EntryIn(mem: Mem, role: Roles, d: nat, v: nat)
    requires Owned(mem, role) && IsDir(role, d) && v < PAGES && Pde(mem, d, v / ENTRIES).To?
    ensures var t := Pde(mem, d, v / ENTRIES).page;
            t < |mem| && mem[t].Table? && |mem[t].e| == ENTRIES && Pte(mem, d, v) == mem[t].e[v % ENTRIES] &&
            role[t] == Tab(d, v / ENTRIES)
  {
    assert v / ENTRIES < ENTRIES;
  }

  /** No other page is labelled with the place of this one. */
  lemma {:induction false} OneUser(mem: Mem, role: Roles, d: nat, v: nat)
    requires Owned(mem, role) && IsDir(role, d) && v < KERNPAGE && Pte(mem, d, v).To?
    ensures Pte(mem, d, v).page < |mem| && role[Pte(mem, d, v).page] == User(d, v)
    ensures forall q: nat | q < |mem| && role[q] == User(d, v) :: q == Pte(mem, d, v).page
  {
    hide Pte, Pde;
  }

  /** Where there is no table nothing is mapped: skipping it is the same as looking at each page. */
  lemma {:induction false} NoTable(mem: Mem, d: nat, v: nat)
    requires Pde(mem, d, v / ENTRIES).Absent?
    ensures forall w: nat | v <= w < (v / ENTRIES + 1) * ENTRIES :: Pte(mem, d, w).Absent?
  {
    forall w: nat | v <= w < (v / ENTRIES + 1) * ENTRIES ensures Pte(mem, d, w).Absent? {
      assert w / ENTRIES == v / ENTRIES;
    }
  }

  /** Places that map nothing may be counted as cleared. */
  lemma {:induction false} ClearedMore(mem: Mem, role: Roles, mem': Mem, role': Roles, d: nat, lo: nat, v: nat, hi: nat)
    requires Owned(mem, role) && IsDir(role, d) && Cleared(mem, role, mem', d, lo, v) && Returned(role, role', d, lo, v)
    requires lo <= v <= hi <= KERNPAGE && forall w: nat | v <= w < hi :: Pte(mem', d, w).Absent?
    ensures Cleared(mem, role, mem', d, lo, hi) && Returned(role, role', d, lo, hi)
  {
    hide Pte, Pde;
    assert forall p: nat | p < |role| && role[p].User? && role[p].d == d :: Pte(mem, d, role[p].v).To?;
  }

  lemma {:induction false} ClearedTwice(mem: Mem, role: Roles, mem1: Mem, role1: Roles, mem': Mem, role': Roles, d: nat,
                                        lo: nat, v: nat)
    requires Cleared(mem, role, mem1, d, lo, v) && Returned(role, role1, d, lo, v) && lo <= v
    requires Cleared(mem1, role1, mem', d, v, v + 1) && Returned(role1, role', d, v, v + 1)
    requires forall x: nat :: IsDir(role1, x) == IsDir(role, x)
    ensures Cleared(mem, role, mem', d, lo, v + 1) && Returned(role, role', d, lo, v + 1)
  {
    hide Pte;
  }

  lemma {:induction false} AllFree(mem: Mem, freelist: Option<nat>, fl: seq<nat>, role: Roles)
    requires Chain(mem, freelist, fl, role) && freelist.None?
    ensures |role| == |mem| && forall p: nat | p < |mem| :: !role[p].Free?
  {
  }

  lemma {:induction false} IndexInTable(mem: Mem, role: Roles, d: nat, v: nat)
    requires Owned(mem, role) && IsDir(role, d) && v < PAGES
    ensures d < |mem| && mem[d].Table? && v / ENTRIES < |mem[d].e| == ENTRIES
    ensures Pde(mem, d, v / ENTRIES) == mem[d].e[v / ENTRIES]
  {
  }

  /** vm.c's own rows, the kernel's data starting at page `data`: I/O space, text, data and the
      rest of memory, devices. */
  function Kmap(data: nat): seq<Range>
    requires 0x80100 < data < 0x8E000
  {
    [Range(0x80000, 0x100, 0, 2), Range(0x80100, data - 0x80100, 0x100, 0),
     Range(data, 0x8E000 - data, data - 0x80000, 2), Range(0xFE000, 0x2000, 0xFE000, 2)]
  }

  lemma {:induction false} KmapTables(data: nat, i: nat)
    requires 0x80100 < data < 0x8E000
    ensures i in KmapTabs(Kmap(data), 4) <==> 512 <= i < 568 || 1016 <= i < 1024
  {
    hide TabsIn, KmapTabs;
    var k := Kmap(data);
    FourRows(k);
    TabsInAre(0x80000, 0x80100, i);
    TabsInAre(0x80100, data, i);
    TabsInAre(data, 0x8E000, i);
    TabsInAre(0xFE000, 0x100000, i);
  }

  lemma {:induction false} FourRows(k: seq<Range>)
    requires |k| == 4
    ensures KmapTabs(k, 4) == TabsIn(k[0].v, k[0].v + k[0].n) + TabsIn(k[1].v, k[1].v + k[1].n)
                              + TabsIn(k[2].v, k[2].v + k[2].n) + TabsIn(k[3].v, k[3].v + k[3].n)
  {
    hide TabsIn;
    assert KmapTabs(k, 1) == KmapTabs(k, 0) + TabsIn(k[0].v, k[0].v + k[0].n);
    assert KmapTabs(k, 2) == KmapTabs(k, 1) + TabsIn(k[1].v, k[1].v + k[1].n);
    assert KmapTabs(k, 3) == KmapTabs(k, 2) + TabsIn(k[2].v, k[2].v + k[2].n);
    assert KmapTabs(k, 4) == KmapTabs(k, 3) + TabsIn(k[3].v, k[3].v + k[3].n);
  }

  /** They do not overlap, and the kernel's part of an address space takes 65 pages. */
  lemma {:induction false} KmapReal(data: nat)
    requires 0x80100 < data < 0x8E000
    ensures KmapOk(Kmap(data)) && KernelNeed(Kmap(data)) == 65
  {
    hide KmapTabs;
    forall i: nat ensures i in KmapTabs(Kmap(data), 4) <==> 512 <= i < 568 || 1016 <= i < 1024 {
      KmapTables(data, i);
    }
    TwoStretches(KmapTabs(Kmap(data), 4), 512, 568, 1016, 1024);
  }

  lemma {:induction false} TwoStretches(s: set<nat>, a: nat, b: nat, c: nat, d: nat)
    requires a <= b <= c <= d && forall i: nat :: i in s <==> a <= i < b || c <= i < d
    ensures |s| == b - a + (d - c)
  {
    assert s == Upto(a, b) + Upto(c, d);
    assert Upto(a, b) !! Upto(c, d);
  }

  ghost function Upto(lo: nat, hi: nat): (r: set<nat>)
    requires lo <= hi
    ensures |r| == hi - lo && forall i: nat :: i in r <==> lo <= i < hi
    decreases hi
  {
    if lo == hi then {} else Upto(lo, hi - 1) + {hi - 1}
  }
}
