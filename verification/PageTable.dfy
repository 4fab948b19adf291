/** Two-level page tables over physical pages, as vm.c keeps them: who holds each page, and
    what each change to an entry keeps. Addresses count pages. */
module PageTable {
  import opened Basics

  const ENTRIES: nat := 1024
  /** Pages below this are the user's. */
  const KERNPAGE: nat := 512 * ENTRIES
  const PAGES: nat := 1024 * ENTRIES

  datatype Entry = Absent | To(page: nat, flags: nat)

  /** What a physical page holds: a link of the free list, 1024 entries, or someone's bytes. */
  datatype Page = Run(next: Option<nat>) | Table(e: seq<Entry>) | Bytes(data: int)

  /** The one place a page is in. Held: kalloc has given it out and it is in no page table. */
  datatype Role = Free | Held | Dir | Tab(d: nat, i: nat) | User(d: nat, v: nat)

  type Mem = seq<Page>
  type Roles = seq<Role>

  /** The directory entry that covers page `v`, and the page's own entry. */
  function Pde(mem: Mem, d: nat, i: nat): Entry {
    if d < |mem| && mem[d].Table? && i < |mem[d].e| then mem[d].e[i] else Absent
  }

  function Pte(mem: Mem, d: nat, v: nat): Entry {
    var pde := Pde(mem, d, v / ENTRIES);
    if pde.To? then Pde(mem, pde.page, v % ENTRIES) else Absent
  }

  ghost predicate IsDir(role: Roles, d: nat) { d < |role| && role[d].Dir? }

  ghost predicate Shaped(mem: Mem, role: Roles) {
    && |role| == |mem|
    && forall p: nat | p < |mem| && (role[p].Dir? || role[p].Tab?) :: mem[p].Table? && |mem[p].e| == ENTRIES
  }

  /** Directory entries point to the tables labelled with them, and the other way round. */
  ghost predicate TabsOwned(mem: Mem, role: Roles)
    requires |role| == |mem|
  {
    && (forall d: nat, i: nat | IsDir(role, d) && i < ENTRIES && Pde(mem, d, i).To? ::
          Pde(mem, d, i).page < |mem| && role[Pde(mem, d, i).page] == Tab(d, i))
    && (forall t: nat | t < |mem| && role[t].Tab? ::
          IsDir(role, role[t].d) && role[t].i < ENTRIES && Pde(mem, role[t].d, role[t].i).To? &&
          Pde(mem, role[t].d, role[t].i).page == t)
  }

  /** Likewise user entries and the pages they map. */
  ghost predicate PagesOwned(mem: Mem, role: Roles)
    requires |role| == |mem|
  {
    && (forall d: nat, v: nat | IsDir(role, d) && v < KERNPAGE && Pte(mem, d, v).To? ::
          Pte(mem, d, v).page < |mem| && role[Pte(mem, d, v).page] == User(d, v))
    && (forall p: nat | p < |mem| && role[p].User? ::
          IsDir(role, role[p].d) && role[p].v < KERNPAGE && Pte(mem, role[p].d, role[p].v).To? &&
          Pte(mem, role[p].d, role[p].v).page == p)
  }

  ghost predicate Owned(mem: Mem, role: Roles) {
    Shaped(mem, role) && TabsOwned(mem, role) && PagesOwned(mem, role)
  }

  function SetEntry(mem: Mem, t: nat, j: nat, e: Entry): (m: Mem)
    requires t < |mem| && mem[t].Table? && j < |mem[t].e|
    ensures |m| == |mem|
  {
    mem[t := Table(mem[t].e[j := e])]
  }

  function ZeroTable(): Page { Table(seq(ENTRIES, _ => Absent)) }

  /** Pages that are no table may be relabelled and written while they are in nobody's map. */
  lemma {:induction false} LoosePage(mem: Mem, role: Roles, p: nat, page: Page, r: Role)
    requires Owned(mem, role) && p < |mem| && (role[p].Free? || role[p].Held?) && (r.Free? || r.Held?)
    ensures Owned(mem[p := page], role[p := r])
    ensures forall d: nat, v: nat | IsDir(role, d) && v < PAGES :: Pte(mem[p := page], d, v) == Pte(mem, d, v)
  {
    var mem', role' := mem[p := page], role[p := r];
    forall d: nat, i: nat | IsDir(role, d) && i < ENTRIES ensures Pde(mem', d, i) == Pde(mem, d, i) {
    }
    forall d: nat, v: nat | IsDir(role, d) && v < PAGES ensures Pte(mem', d, v) == Pte(mem, d, v) {
      assert v / ENTRIES < ENTRIES;
    }
  }

  /** walkpgdir's new table: `t` zeroed, then pointed to. */
  lemma {:induction false} InstallTab(mem: Mem, role: Roles, d: nat, i: nat, t: nat, flags: nat)
    requires Owned(mem, role) && IsDir(role, d) && i < ENTRIES && Pde(mem, d, i).Absent?
    requires t < |mem| && role[t].Held? && mem[t] == ZeroTable()
    ensures Owned(SetEntry(mem, d, i, To(t, flags)), role[t := Tab(d, i)])
    ensures forall x: nat, v: nat | IsDir(role, x) && v < PAGES ::
              Pte(SetEntry(mem, d, i, To(t, flags)), x, v) == Pte(mem, x, v)
  {
    var mem', role' := SetEntry(mem, d, i, To(t, flags)), role[t := Tab(d, i)];
    forall x: nat, k: nat | IsDir(role, x) && k < ENTRIES
      ensures Pde(mem', x, k) == if x == d && k == i then To(t, flags) else Pde(mem, x, k)
    {
    }
    forall x: nat, v: nat | IsDir(role, x) && v < PAGES ensures Pte(mem', x, v) == Pte(mem, x, v) {
      assert v / ENTRIES < ENTRIES;
    }
  }

  /** Storing one entry of one table changes what is mapped in one place. */
  lemma {:induction false} EntrySet(mem: Mem, role: Roles, d: nat, v: nat, e: Entry)
    requires Owned(mem, role) && IsDir(role, d) && v < PAGES && Pde(mem, d, v / ENTRIES).To?
    ensures var t := Pde(mem, d, v / ENTRIES).page;
            && t < |mem| && mem[t].Table? && |mem[t].e| == ENTRIES && role[t] == Tab(d, v / ENTRIES)
            && var mem' := SetEntry(mem, t, v % ENTRIES, e);
            && Shaped(mem', role) && TabsOwned(mem', role)
            && (forall x: nat, w: nat | IsDir(role, x) && w < PAGES ::
                  Pte(mem', x, w) == if x == d && w == v then e else Pte(mem, x, w))
  {
    var i, j := v / ENTRIES, v % ENTRIES;
    assert i < ENTRIES;
    var t := Pde(mem, d, i).page;
    var mem' := SetEntry(mem, t, j, e);
    forall x: nat, k: nat | IsDir(role, x) && k < ENTRIES ensures Pde(mem', x, k) == Pde(mem, x, k) {
    }
    forall x: nat, w: nat | IsDir(role, x) && w < PAGES
      ensures Pte(mem', x, w) == if x == d && w == v then e else Pte(mem, x, w)
    {
      assert w / ENTRIES < ENTRIES;
      assert w / ENTRIES == i && w % ENTRIES == j ==> w == v;
    }
  }

  ghost function Entered(mem: Mem, d: nat, v: nat, e: Entry): (m: Mem)
    ensures |m| == |mem|
  {
    var pde := Pde(mem, d, v / ENTRIES);
    if pde.To? && pde.page < |mem| && mem[pde.page].Table? && v % ENTRIES < |mem[pde.page].e|
    then SetEntry(mem, pde.page, v % ENTRIES, e) else mem
  }

  /** mappages of a user page. */
  lemma {:induction false} MapUser(mem: Mem, role: Roles, d: nat, v: nat, p: nat, flags: nat)
    requires Owned(mem, role) && IsDir(role, d) && v < KERNPAGE && Pde(mem, d, v / ENTRIES).To?
    requires Pte(mem, d, v).Absent?
    requires p < |mem| && role[p].Held?
    ensures Owned(Entered(mem, d, v, To(p, flags)), role[p := User(d, v)])
  {
    hide Pte, Pde;
    EntrySet(mem, role, d, v, To(p, flags));
    var mem', role' := Entered(mem, d, v, To(p, flags)), role[p := User(d, v)];
    assert forall x: nat :: IsDir(role', x) == IsDir(role, x);
  }

  /** mappages of a kernel page. */
  lemma {:induction false} MapKernel(mem: Mem, role: Roles, d: nat, v: nat, e: Entry)
    requires Owned(mem, role) && IsDir(role, d) && KERNPAGE <= v < PAGES && Pde(mem, d, v / ENTRIES).To?
    ensures Owned(Entered(mem, d, v, e), role)
  {
    hide Pte, Pde;
    EntrySet(mem, role, d, v, e);
  }

  /** deallocuvm's store of 0. */
  lemma {:induction false} UnmapUser(mem: Mem, role: Roles, d: nat, v: nat)
    requires Owned(mem, role) && IsDir(role, d) && v < KERNPAGE && Pde(mem, d, v / ENTRIES).To? && Pte(mem, d, v).To?
    ensures var p := Pte(mem, d, v).page;
            p < |mem| && role[p] == User(d, v) && Owned(Entered(mem, d, v, Absent), role[p := Held])
  {
    hide Pte, Pde;
    EntrySet(mem, role, d, v, Absent);
    var p := Pte(mem, d, v).page;
    var mem', role' := Entered(mem, d, v, Absent), role[p := Held];
    assert forall x: nat :: IsDir(role', x) == IsDir(role, x);
  }

  /** The directory `d` given up, and its tables with it. */
  ghost function Retired(role: Roles, d: nat): (r: Roles)
    ensures |r| == |role|
    ensures forall p: nat | p < |r| :: r[p] == if p == d || (role[p].Tab? && role[p].d == d) then Held else role[p]
  {
    seq(|role|, p requires 0 <= p < |role| => if p == d || (role[p].Tab? && role[p].d == d) then Held else role[p])
  }

  lemma {:induction false} RetireDir(mem: Mem, role: Roles, d: nat)
    requires Owned(mem, role) && IsDir(role, d) && forall v: nat | v < KERNPAGE :: Pte(mem, d, v).Absent?
    ensures Owned(mem, Retired(role, d))
    ensures forall i: nat | i < ENTRIES && Pde(mem, d, i).To? ::
              Pde(mem, d, i).page < |mem| && role[Pde(mem, d, i).page] == Tab(d, i)
  {
    hide Pte, Pde;
    var role' := Retired(role, d);
    assert forall x: nat :: IsDir(role', x) <==> IsDir(role, x) && x != d;
    assert forall p: nat | p < |mem| && role[p].User? :: role[p].d != d;
  }

  /** A zeroed page may become a directory: it maps nothing. */
  lemma {:induction false} NewDir(mem: Mem, role: Roles, d: nat)
    requires Owned(mem, role) && d < |mem| && role[d].Held? && mem[d] == ZeroTable()
    ensures Owned(mem, role[d := Dir]) && forall v: nat | v < PAGES :: Pte(mem, d, v).Absent?
  {
    assert forall i: nat | i < ENTRIES :: Pde(mem, d, i).Absent?;
    forall v: nat | v < PAGES ensures Pte(mem, d, v).Absent? {
      assert v / ENTRIES < ENTRIES;
    }
    var role' := role[d := Dir];
    forall x: nat ensures IsDir(role', x) <==> IsDir(role, x) || x == d {
    }
  }
}
