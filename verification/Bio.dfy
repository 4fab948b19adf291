/** bio.c: the buffer cache. `next` and `prev` are the list through all buffers, with the head at
    index `n`; the sleep lock of a buffer is its holder. Every method is one section under
    bcache.lock or under the buffer's own lock, so processes may interleave them freely. */
module Bio {
  import opened Basics
  import opened Blocks

  datatype Key = Key(dev: nat, blockno: nat)

  datatype Buf = Buf(key: Key, valid: bool, dirty: bool, refcnt: nat, holder: Option<nat>, data: Block)

  // ---- The list --------------------------------------------------------------------------

  /** Once around the list from the head `h`. */
  function Cycle(order: seq<nat>, h: nat): seq<nat> { [h] + order + [h] }

  /** `next` and `prev` run through `order`, each number once. */
  ghost predicate Linked(next: seq<nat>, prev: seq<nat>, order: seq<nat>, h: nat) {
    && |next| == |prev| == h + 1
    && (forall k: nat | k < |order| :: order[k] < h)
    && (forall j: nat, k: nat | j < k < |order| :: order[j] != order[k])
    && (forall k: nat | k <= |order| ::
          next[Cycle(order, h)[k]] == Cycle(order, h)[k + 1] && prev[Cycle(order, h)[k + 1]] == Cycle(order, h)[k])
  }

  function Without(order: seq<nat>, k: nat): (r: seq<nat>)
    requires k < |order|
    ensures |r| == |order| - 1
  {
    order[..k] + order[k + 1..]
  }

  /** Taking a buffer out of the list: its neighbours are joined. */
  lemma {:induction false} Unlinked(next: seq<nat>, prev: seq<nat>, order: seq<nat>, h: nat, k: nat)
    requires Linked(next, prev, order, h) && k < |order|
    ensures var b := order[k];
            && next[b] <= h && prev[b] <= h
            && Linked(next[prev[b] := next[b]], prev[next[b] := prev[b]], Without(order, k), h)
  {
    var b, c := order[k], Cycle(order, h);
    var order' := Without(order, k);
    var c' := Cycle(order', h);
    assert c[k + 1] == b && next[b] == c[k + 2] && prev[b] == c[k];
    var next', prev' := next[prev[b] := next[b]], prev[next[b] := prev[b]];
    forall j: nat | j <= |order'| ensures next'[c'[j]] == c'[j + 1] && prev'[c'[j + 1]] == c'[j] {
      CycleWithout(order, h, k, j);
      CycleWithout(order, h, k, j + 1);
      var i := if j <= k then j else j + 1;
      assert next[c[i]] == c[i + 1] && prev[c[i + 1]] == c[i];
    }
  }

  lemma {:induction false} CycleWithout(order: seq<nat>, h: nat, k: nat, j: nat)
    requires k < |order| && j <= |order|
    ensures Cycle(Without(order, k), h)[j] == Cycle(order, h)[if j <= k then j else j + 1]
  {
  }

  /** Linking `b` in right after the head. */
  lemma {:induction false} Pushed(next: seq<nat>, prev: seq<nat>, order: seq<nat>, h: nat, b: nat)
    requires Linked(next, prev, order, h) && b < h && b !in order
    ensures next[h] <= h && next[h] != b
    ensures Linked(next[b := next[h]][h := b], prev[b := h][next[h] := b], [b] + order, h)
  {
    var c, c' := Cycle(order, h), Cycle([b] + order, h);
    assert next[c[0]] == c[1];
    var next', prev' := next[b := next[h]][h := b], prev[b := h][next[h] := b];
    forall j: nat | j <= |order| + 1 ensures next'[c'[j]] == c'[j + 1] && prev'[c'[j + 1]] == c'[j] {
      assert j > 0 ==> c'[j] == (if j == 1 then b else c[j - 1]) && c'[j + 1] == c[j];
      if j > 1 {
        assert next[c[j - 1]] == c[j] && prev[c[j]] == c[j - 1];
      }
    }
  }

  /** What bget may take for another block. */
  predicate Recyclable(b: Buf) { b.refcnt == 0 && !b.dirty }

  // ---- The invariant ------------------------------------------------------------------

  /** The list holds every buffer once, the most recently let go first. */
  ghost predicate Aged(order: seq<nat>, stamp: seq<nat>, clock: nat, n: nat) {
    && |order| == n == |stamp| && (forall k: nat | k < n :: order[k] < n) && (forall b: nat | b < n :: b in order)
    && (forall j: nat, k: nat | j < k < n :: stamp[order[j]] > stamp[order[k]])
    && (forall b: nat | b < n :: stamp[b] < clock)
  }

  /** No two buffers in use have the same key. */
  ghost predicate Unique(buf: seq<Buf>) {
    forall a: nat, b: nat | a < b < |buf| && buf[a].key.dev != 0 :: buf[a].key != buf[b].key
  }

  /** `refs` is who holds or waits for each buffer. */
  ghost predicate Counted(buf: seq<Buf>, refs: seq<set<nat>>) {
    && |refs| == |buf|
    && forall b: nat | b < |buf| ::
         && buf[b].refcnt == |refs[b]| && (buf[b].holder.Some? ==> buf[b].holder.value in refs[b])
         && (buf[b].key.dev == 0 ==> refs[b] == {} && !buf[b].valid)
         && (buf[b].dirty ==> buf[b].valid)
  }

  ghost predicate Pinned(buf: seq<Buf>, key: Key) {
    exists b: nat :: b < |buf| && buf[b].key == key && buf[b].dirty
  }

  /** `view` is what the cache shows: every valid buffer agrees with it, and so does the disk
      but for blocks that are in a dirty buffer. */
  ghost predicate Coherent(buf: seq<Buf>, disk: map<Key, Block>, view: map<Key, Block>) {
    && disk.Keys == view.Keys
    && (forall b: nat | b < |buf| && buf[b].valid :: buf[b].key in view && buf[b].data == view[buf[b].key])
    && (forall key | key in disk && !Pinned(buf, key) :: disk[key] == view[key])
  }

  ghost function PlaceOf(order: seq<nat>, b: nat): (k: nat)
    requires b in order
    ensures k < |order| && order[k] == b
  {
    var k: nat :| k < |order| && order[k] == b;
    k
  }

  class Cache {
    const n: nat
    var buf: seq<Buf>
    var next: seq<nat>
    var prev: seq<nat>
    var disk: map<Key, Block>
    ghost var order: seq<nat>
    ghost var stamp: seq<nat>
    ghost var clock: nat
    ghost var refs: seq<set<nat>>
    ghost var view: map<Key, Block>

    ghost predicate Valid()
      reads this
    {
      && |buf| == n && Linked(next, prev, order, n) && Aged(order, stamp, clock, n)
      && Unique(buf) && Counted(buf, refs) && Coherent(buf, disk, view)
    }

    /** binit, over a disk as found. */
    constructor (n: nat, disk: map<Key, Block>)
      ensures Valid() && this.n == n && view == disk && forall b: nat | b < n :: refs[b] == {}
    {
      this.n, this.disk, view := n, disk, disk;
      buf := seq(n, _ => Buf(Key(0, 0), false, false, 0, None, ZeroBlock()));
      refs := seq(n, _ => {});
      order, stamp, clock := [], seq(n, b => b), n;
      prev, next := [], [];
      new;
      LinkAll();
      forall c: nat | c < n ensures c in order {
        assert order[n - 1 - c] == c;
      }
    }

    /** binit's loop: each buffer goes in at the front. */
    method LinkAll()
      modifies this`next, this`prev, this`order
      ensures Linked(next, prev, order, n) && order == Reversed(n)
    {
      prev, next := seq(n + 1, _ => n), seq(n + 1, _ => n);
      order := [];
      var b := 0;
      while b < n
        invariant b <= n && Linked(next, prev, order, n) && order == Reversed(b)
      {
        Pushed(next, prev, order, n, b);
        next := next[b := next[n]];
        prev := prev[b := n];
        prev := prev[next[n] := b];
        next := next[n := b];
        order := [b] + order;
        b := b + 1;
      }
    }

    /** The first search of bget: the buffer with that key. */
    method Find(key: Key) returns (b: nat)
      requires Valid()
      ensures b <= n && if b < n then buf[b].key == key else forall c: nat | c < n :: buf[c].key != key
    {
      ghost var k: nat := 0;
      b := next[n];
      assert next[Cycle(order, n)[0]] == Cycle(order, n)[1];
      while b != n
        invariant k <= n && b == Cycle(order, n)[k + 1] && forall j: nat | j < k :: buf[order[j]].key != key
        decreases n - k
      {
        if buf[b].key == key {
          return;
        }
        assert next[Cycle(order, n)[k + 1]] == Cycle(order, n)[k + 2];
        b := next[b];
        k := k + 1;
      }
      forall c: nat | c < n ensures buf[c].key != key {
        var j := PlaceOf(order, c);
      }
    }

    /** The second search: of the buffers that may be recycled, the one let go longest ago. */
    method Victim() returns (b: nat)
      requires Valid()
      ensures b <= n
      ensures if b < n
              then buf[b].refcnt == 0 && !buf[b].dirty &&
                   forall c: nat | c < n && buf[c].refcnt == 0 && !buf[c].dirty :: stamp[b] <= stamp[c]
              else forall c: nat | c < n :: buf[c].refcnt > 0 || buf[c].dirty
    {
      ghost var k: nat := n;
      b := prev[n];
      assert prev[Cycle(order, n)[n + 1]] == Cycle(order, n)[n];
      while b != n
        invariant k <= n && b == Cycle(order, n)[k] && forall j: nat | k <= j < n :: !Recyclable(buf[order[j]])
        decreases k
      {
        assert b == order[k - 1];
        if buf[b].refcnt == 0 && !buf[b].dirty {
          forall c: nat | c < n && Recyclable(buf[c]) ensures stamp[b] <= stamp[c] {
            var j := PlaceOf(order, c);
          }
          return;
        }
        assert prev[Cycle(order, n)[k]] == Cycle(order, n)[k - 1];
        b := prev[b];
        k := k - 1;
      }
      forall c: nat | c < n ensures !Recyclable(buf[c]) {
        var j := PlaceOf(order, c);
      }
    }

    /** bget up to its release of bcache.lock, for process `pid`; None is its panic. */
    method Bget(key: Key, pid: nat) returns (r: Option<nat>)
      requires Valid() && key.dev != 0
      requires forall b: nat | b < n && buf[b].key == key :: pid !in refs[b]
      modifies this`buf, this`refs
      ensures Valid()
      ensures r.None? <==> forall b: nat | b < n ::
                             old(buf)[b].key != key && (old(buf)[b].refcnt > 0 || old(buf)[b].dirty)
      ensures r.None? ==> buf == old(buf) && refs == old(refs)
      ensures r.Some? ==>
                && r.value < n && buf[r.value].key == key && refs == old(refs)[r.value := old(refs)[r.value] + {pid}]
                && (old(buf)[r.value].key != key ==>
                      && (forall b: nat | b < n :: old(buf)[b].key != key)
                      && old(buf)[r.value].refcnt == 0 && !old(buf)[r.value].dirty
                      && forall b: nat | b < n && old(buf)[b].refcnt == 0 && !old(buf)[b].dirty ::
                           stamp[r.value] <= stamp[b])
                && var was := old(buf)[r.value];
                buf == old(buf)[r.value := if was.key == key then was.(refcnt := was.refcnt + 1)
                else was.(key := key, valid := false, dirty := false, refcnt := 1)]
    {
      hide Linked, Aged, Unique, Counted, Coherent;
      var b := Find(key);
      if b != n {
        Referenced(buf, refs, disk, view, b, pid);
        refs := refs[b := refs[b] + {pid}];
        buf := buf[b := buf[b].(refcnt := buf[b].refcnt + 1)];
        return Some(b);
      }
      b := Victim();
      if b == n {
        return None;
      }
      Recycled(buf, refs, disk, view, b, key, pid);
      assert {} + {pid} == {pid};
      refs := refs[b := {pid}];
      buf := buf[b := buf[b].(key := key, valid := false, dirty := false, refcnt := 1)];
      r := Some(b);
    }

    /** acquiresleep, once nobody has the buffer. */
    method Lock(b: nat, pid: nat)
      requires Valid() && b < n && pid in refs[b] && buf[b].holder.None?
      modifies this`buf
      ensures Valid() && buf == old(buf)[b := old(buf)[b].(holder := Some(pid))]
    {
      hide Linked, Aged, Pinned;
      buf := buf[b := buf[b].(holder := Some(pid))];
      SamePins(old(buf), buf);
    }

    /** The end of bread: what the caller gets is what the cache shows. */
    method ReadIn(b: nat, pid: nat)
      requires Valid() && b < n && buf[b].holder == Some(pid) && buf[b].key in disk
      modifies this`buf
      ensures Valid() && buf[b].valid && buf[b].data == view[buf[b].key]
      ensures buf == old(buf)[b := old(buf)[b].(valid := true, data := buf[b].data)]
    {
      hide Linked, Aged, Pinned;
      if !buf[b].valid {
        NotPinned(buf, refs, b);
        buf := buf[b := buf[b].(data := disk[buf[b].key], valid := true)];
        SamePins(old(buf), buf);
      }
    }

    /** Changing a buffer and handing it to log_write, which sets B_DIRTY. */
    method LogWrite(b: nat, pid: nat, data: Block)
      requires Valid() && b < n && buf[b].holder == Some(pid) && buf[b].valid
      modifies this`buf, this`view
      ensures Valid() && buf == old(buf)[b := old(buf)[b].(data := data, dirty := true)]
      ensures view == old(view)[buf[b].key := data]
    {
      hide Linked, Aged, Pinned;
      buf := buf[b := buf[b].(data := data, dirty := true)];
      view := view[buf[b].key := data];
      MorePins(old(buf), buf, b);
    }

    /** Changing a buffer and writing it through with bwrite. */
    method Bwrite(b: nat, pid: nat, data: Block)
      requires Valid() && b < n && buf[b].holder == Some(pid) && buf[b].key in disk
      modifies this`buf, this`disk, this`view
      ensures Valid() && buf == old(buf)[b := old(buf)[b].(data := data, dirty := false, valid := true)]
      ensures view == old(view)[buf[b].key := data] && disk == old(disk)[buf[b].key := data]
    {
      hide Linked, Aged, Pinned;
      buf := buf[b := buf[b].(data := data)];
      buf := buf[b := buf[b].(dirty := true)];
      disk := disk[buf[b].key := buf[b].data];
      buf := buf[b := buf[b].(dirty := false, valid := true)];
      view := view[buf[b].key := data];
      MorePins(old(buf), buf, b);
    }

    /** The first half of brelse. */
    method Unlock(b: nat, pid: nat)
      requires Valid() && b < n && buf[b].holder == Some(pid)
      modifies this`buf
      ensures Valid() && buf == old(buf)[b := old(buf)[b].(holder := None)]
    {
      hide Linked, Aged, Pinned;
      buf := buf[b := buf[b].(holder := None)];
      SamePins(old(buf), buf);
    }

    /** The second half: the last one to let go of a buffer moves it to the front. */
    method Drop(b: nat, pid: nat)
      requires Valid() && b < n && pid in refs[b] && buf[b].holder != Some(pid)
      modifies this`buf, this`next, this`prev, this`order, this`stamp, this`clock, this`refs
      ensures Valid() && refs == old(refs)[b := old(refs)[b] - {pid}]
      ensures buf == old(buf)[b := old(buf)[b].(refcnt := old(buf)[b].refcnt - 1)]
      ensures if refs[b] != {} then order == old(order) && stamp == old(stamp)
              else ToFront(old(order), b, order) && stamp == old(stamp)[b := old(clock)]
    {
      hide Linked, Aged, Unique, Coherent;
      assert buf[b].refcnt > 0;
      Dropped(buf, refs, disk, view, b, pid);
      refs := refs[b := refs[b] - {pid}];
      buf := buf[b := buf[b].(refcnt := buf[b].refcnt - 1)];
      if buf[b].refcnt == 0 {
        MoveToFront(b);
      }
    }

    method MoveToFront(b: nat)
      requires Linked(next, prev, order, n) && Aged(order, stamp, clock, n) && b < n
      modifies this`next, this`prev, this`order, this`stamp, this`clock
      ensures Linked(next, prev, order, n) && Aged(order, stamp, clock, n)
      ensures ToFront(old(order), b, order) && stamp == old(stamp)[b := old(clock)]
    {
      hide Linked, Aged;
      ghost var k := InList(order, stamp, clock, n, b);
      Relinked(next, prev, order, n, k);
      MovedUp(order, stamp, clock, n, k);
      prev := prev[next[b] := prev[b]];
      next := next[prev[b] := next[b]];
      next := next[b := next[n]];
      prev := prev[b := n];
      prev := prev[next[n] := b];
      next := next[n := b];
      order := [b] + Without(order, k);
      stamp := stamp[b := clock];
      clock := clock + 1;
    }
  }

  lemma {:induction false} InList(order: seq<nat>, stamp: seq<nat>, clock: nat, n: nat, b: nat) returns (k: nat)
    requires Aged(order, stamp, clock, n) && b < n
    ensures k < |order| == n && order[k] == b && |stamp| == n
  {
    k := PlaceOf(order, b);
  }

  /** Both together, as brelse does them. */
  lemma {:induction false} Relinked(next: seq<nat>, prev: seq<nat>, order: seq<nat>, h: nat, k: nat)
    requires Linked(next, prev, order, h) && k < |order|
    ensures |next| == |prev| == h + 1 && order[k] < h
    ensures var b := order[k];
            && next[b] <= h && prev[b] <= h
            && var next1, prev1 := next[prev[b] := next[b]], prev[next[b] := prev[b]];
            && next1[h] <= h && next1[h] != b
            && Linked(next1[b := next1[h]][h := b], prev1[b := h][next1[h] := b], [b] + Without(order, k), h)
  {
    var b := order[k];
    Unlinked(next, prev, order, h, k);
    Pushed(next[prev[b] := next[b]], prev[next[b] := prev[b]], Without(order, k), h, b);
  }

  /** `b` taken from where it was and put in front. */
  ghost predicate ToFront(order: seq<nat>, b: nat, order': seq<nat>) {
    exists k: nat :: k < |order| && order[k] == b && order' == [b] + Without(order, k)
  }

  lemma {:induction false} Referenced(buf: seq<Buf>, refs: seq<set<nat>>, disk: map<Key, Block>, view: map<Key, Block>,
                                      b: nat, pid: nat)
    requires Unique(buf) && Counted(buf, refs) && Coherent(buf, disk, view) && b < |buf| && pid !in refs[b]
    requires buf[b].key.dev != 0
    ensures var buf' := buf[b := buf[b].(refcnt := buf[b].refcnt + 1)];
            b < |refs| && Unique(buf') && Counted(buf', refs[b := refs[b] + {pid}]) && Coherent(buf', disk, view)
  {
    hide Pinned;
    SamePins(buf, buf[b := buf[b].(refcnt := buf[b].refcnt + 1)]);
  }

  lemma {:induction false} Recycled(buf: seq<Buf>, refs: seq<set<nat>>, disk: map<Key, Block>, view: map<Key, Block>,
                                    b: nat, key: Key, pid: nat)
    requires Unique(buf) && Counted(buf, refs) && Coherent(buf, disk, view) && b < |buf| && Recyclable(buf[b])
    requires key.dev != 0
    requires forall c: nat | c < |buf| :: buf[c].key != key
    ensures var buf' := buf[b := buf[b].(key := key, valid := false, dirty := false, refcnt := 1)];
            b < |refs| && Unique(buf') && Counted(buf', refs[b := {pid}]) && Coherent(buf', disk, view)
    ensures refs[b] == {}
  {
    hide Pinned;
    SamePins(buf, buf[b := buf[b].(key := key, valid := false, dirty := false, refcnt := 1)]);
  }

  lemma {:induction false} Dropped(buf: seq<Buf>, refs: seq<set<nat>>, disk: map<Key, Block>, view: map<Key, Block>,
                                   b: nat, pid: nat)
    requires Unique(buf) && Counted(buf, refs) && Coherent(buf, disk, view)
    requires b < |buf| && pid in refs[b] && buf[b].holder != Some(pid) && buf[b].refcnt > 0
    ensures var buf' := buf[b := buf[b].(refcnt := buf[b].refcnt - 1)];
            Unique(buf') && Counted(buf', refs[b := refs[b] - {pid}]) && Coherent(buf', disk, view)
  {
    hide Pinned;
    SamePins(buf, buf[b := buf[b].(refcnt := buf[b].refcnt - 1)]);
  }

  function Reversed(n: nat): (s: seq<nat>)
    ensures |s| == n && forall k: nat | k < n :: s[k] == n - 1 - k
  {
    if n == 0 then [] else [n - 1] + Reversed(n - 1)
  }

  lemma {:induction false} SamePins(buf: seq<Buf>, buf': seq<Buf>)
    requires |buf'| == |buf|
    requires forall b: nat | b < |buf| :: buf'[b].dirty == buf[b].dirty && (buf[b].dirty ==> buf'[b].key == buf[b].key)
    ensures forall key :: Pinned(buf', key) == Pinned(buf, key)
  {
  }

  lemma {:induction false} MorePins(buf: seq<Buf>, buf': seq<Buf>, b: nat)
    requires b < |buf| == |buf'| && buf'[b].key == buf[b].key
    requires forall c: nat | c < |buf| && c != b :: buf'[c] == buf[c]
    ensures forall key | key != buf[b].key :: Pinned(buf', key) == Pinned(buf, key)
    ensures buf'[b].dirty ==> Pinned(buf', buf[b].key)
  {
    forall key | key != buf[b].key ensures Pinned(buf', key) == Pinned(buf, key) {
      assert forall c: nat | c < |buf| && buf[c].key == key :: buf'[c] == buf[c];
      assert forall c: nat | c < |buf| && buf'[c].key == key :: buf'[c] == buf[c];
    }
  }

  lemma {:induction false} NotPinned(buf: seq<Buf>, refs: seq<set<nat>>, b: nat)
    requires Unique(buf) && Counted(buf, refs) && b < |buf| && !buf[b].valid && refs[b] != {}
    ensures !Pinned(buf, buf[b].key)
  {
  }

  lemma {:induction false} MovedUp(order: seq<nat>, stamp: seq<nat>, clock: nat, n: nat, k: nat)
    requires Aged(order, stamp, clock, n) && k < n
    ensures Aged([order[k]] + Without(order, k), stamp[order[k] := clock], clock + 1, n)
    ensures order[k] !in Without(order, k)
  {
    hide Without;
    var b, rest := order[k], Without(order, k);
    var order', stamp' := [b] + rest, stamp[b := clock];
    forall j: nat | j < |order| - 1 ensures j < |rest| && rest[j] == order[if j < k then j else j + 1] && rest[j] != b {
      WithoutAt(order, k, j);
    }
    forall c: nat | c < n ensures c in order' {
      var j := PlaceOf(order, c);
      assert j != k ==> rest[if j < k then j else j - 1] == c;
    }
    forall i: nat, j: nat | i < j < n ensures stamp'[order'[i]] > stamp'[order'[j]] {
      assert order'[j] == rest[j - 1];
      assert i > 0 ==> order'[i] == rest[i - 1];
    }
  }

  lemma {:induction false} WithoutAt(order: seq<nat>, k: nat, j: nat)
    requires k < |order| && j < |order| - 1
    ensures |Without(order, k)| == |order| - 1 && Without(order, k)[j] == order[if j < k then j else j + 1]
  {
  }
}
