/**
  user/umalloc.c: the free list of malloc and free.

  Addresses and sizes count units of sizeof(Header).  The list is circular and starts at
  `base`, a header of size 0 in static data, below every address that sbrk returns.
  Other memory may be written by the program at any time: only the headers of free and
  of live blocks are ever read.
 */
module Umalloc {

  datatype Header = Header(ptr: nat, size: nat)

  datatype Blk = Blk(addr: nat, size: nat)

  // ---------------------------------------------------------------- free lists

  function Next(i: nat, n: nat): nat { if i + 1 < n then i + 1 else 0 }

  /** In address order, with a gap between neighbours: disjoint and fully coalesced. */
  ghost predicate Ordered(fl: seq<Blk>) {
    forall i :: 0 <= i < |fl| - 1 ==> GapAt(fl, i)
  }

  ghost predicate GapAt(fl: seq<Blk>, i: nat)
    requires i + 1 < |fl|
  {
    fl[i].addr + fl[i].size < fl[i + 1].addr
  }

  /** Memory links the blocks of fl into a circle. */
  ghost predicate Linked(mem: map<nat, Header>, fl: seq<Blk>) {
    forall i :: 0 <= i < |fl| ==> LinkAt(mem, fl, i)
  }

  ghost predicate LinkAt(mem: map<nat, Header>, fl: seq<Blk>, i: nat)
    requires i < |fl|
  {
    fl[i].addr in mem && mem[fl[i].addr] == Header(fl[Next(i, |fl|)].addr, fl[i].size)
  }

  ghost predicate FreeList(mem: map<nat, Header>, fl: seq<Blk>, base: nat) {
    && fl != [] && fl[0] == Blk(base, 0)
    && (forall i :: 1 <= i < |fl| ==> fl[i].size > 0)
    && Ordered(fl) && Linked(mem, fl)
  }

  predicate Inside(b: Blk, u: nat) { b.addr <= u < b.addr + b.size }

  ghost predicate Covered(fl: seq<Blk>, u: nat) { exists i :: 0 <= i < |fl| && Inside(fl[i], u) }

  ghost predicate LiveUnit(live: map<nat, nat>, u: nat) { exists b :: b in live && Inside(Blk(b, live[b]), u) }

  ghost predicate Apart(a: Blk, b: Blk) { a.addr + a.size <= b.addr || b.addr + b.size <= a.addr }

  /** Live blocks: allocated, and apart from each other and from the free list. */
  ghost predicate LiveBlocks(mem: map<nat, Header>, fl: seq<Blk>, live: map<nat, nat>, base: nat) {
    && (forall b :: b in live ==> base < b && live[b] > 0 && b in mem && mem[b].size == live[b])
    && (forall b, c :: b in live && c in live && b != c ==> Apart(Blk(b, live[b]), Blk(c, live[c])))
    && (forall b, i :: b in live && 0 <= i < |fl| ==> Apart(fl[i], Blk(b, live[b])))
  }

  /** Every unit that sbrk granted is in a free block or in a live one. */
  ghost predicate Conserved(fl: seq<Blk>, live: map<nat, nat>, granted: set<nat>) {
    forall u: nat :: u in granted <==> Covered(fl, u) || LiveUnit(live, u)
  }

  lemma {:induction false} OrderedFar(fl: seq<Blk>, i: nat, j: nat)
    requires Ordered(fl) && i < j < |fl|
    ensures fl[i].addr + fl[i].size < fl[j].addr
    decreases j
  {
    assert GapAt(fl, j - 1);
    if i + 1 < j {
      OrderedFar(fl, i, j - 1);
    }
  }

  // ---------------------------------------------------------------- insertion

  // Block b follows block t of the list: it is above it, and below the next one if there is a next one.
  ghost predicate Follows(fl: seq<Blk>, t: nat, b: Blk) {
    && t < |fl| && fl[t].addr + fl[t].size <= b.addr
    && (t + 1 < |fl| ==> b.addr + b.size <= fl[t + 1].addr)
  }

  /** The list with b inserted after block t and merged with the neighbours it touches. */
  function Insert(fl: seq<Blk>, t: nat, b: Blk): seq<Blk>
    requires t < |fl|
  {
    var up := t + 1 < |fl| && b.addr + b.size == fl[t + 1].addr;
    var c := if up then Blk(b.addr, b.size + fl[t + 1].size) else b;
    var rest := if up then fl[t + 2..] else fl[t + 1..];
    if fl[t].addr + fl[t].size == b.addr then fl[..t] + [Blk(fl[t].addr, fl[t].size + c.size)] + rest
    else fl[..t + 1] + [c] + rest
  }

  lemma InsertOrdered(fl: seq<Blk>, t: nat, b: Blk)
    requires Ordered(fl) && Follows(fl, t, b) && b.size > 0
    ensures Ordered(Insert(fl, t, b))
  {
    var fl' := Insert(fl, t, b);
    var up := t + 1 < |fl| && b.addr + b.size == fl[t + 1].addr;
    var k := if fl[t].addr + fl[t].size == b.addr then t else t + 1;  // where b ends up
    forall i | 0 <= i < |fl'| - 1 ensures GapAt(fl', i) {
      if i < t {
        assert GapAt(fl, i);
      } else if i > k {
        assert GapAt(fl, i - (k + 1) + (t + if up then 2 else 1));
      } else if up && t + 2 < |fl| {
        assert GapAt(fl, t + 1);
      }
    }
  }

  lemma InsertCovers(fl: seq<Blk>, t: nat, b: Blk, u: nat)
    requires Follows(fl, t, b)
    ensures Covered(Insert(fl, t, b), u) <==> Covered(fl, u) || Inside(b, u)
  {
    var fl' := Insert(fl, t, b);
    var up := t + 1 < |fl| && b.addr + b.size == fl[t + 1].addr;
    var down := fl[t].addr + fl[t].size == b.addr;
    var k := if down then t else t + 1;  // where b ends up
    var gone := if up then 2 else 1;
    if Inside(b, u) {
      assert Inside(fl'[k], u);
    }
    if i :| 0 <= i < |fl| && Inside(fl[i], u) {
      var j := if i <= t then i else if up && i == t + 1 then k else i - (t + gone) + (k + 1);
      assert Inside(fl'[j], u);
    }
    if j :| 0 <= j < |fl'| && Inside(fl'[j], u) {
      if j < k {
        assert Inside(fl[j], u);
      } else if j > k {
        assert Inside(fl[j - (k + 1) + (t + gone)], u);
      } else if !Inside(b, u) {
        if down && Inside(fl[t], u) {
        } else {
          assert up && Inside(fl[t + 1], u);
        }
      }
    }
  }

  // Blocks apart from all of fl and from b are apart from all of the new list.
  lemma InsertApart(fl: seq<Blk>, t: nat, b: Blk, c: Blk)
    requires Follows(fl, t, b) && b.size > 0 && c.size > 0 && (forall i :: 0 <= i < |fl| ==> Apart(fl[i], c)) && Apart(b, c)
    requires Ordered(fl)
    ensures forall i :: 0 <= i < |Insert(fl, t, b)| ==> Apart(Insert(fl, t, b)[i], c)
  {
    var fl' := Insert(fl, t, b);
    var up := t + 1 < |fl| && b.addr + b.size == fl[t + 1].addr;
    var k := if fl[t].addr + fl[t].size == b.addr then t else t + 1;
    forall i | 0 <= i < |fl'| ensures Apart(fl'[i], c) {
      if i < k {
        assert fl'[i] == fl[i];
      } else if i > k {
        assert fl'[i] == fl[i - (k + 1) + (t + if up then 2 else 1)];
      } else {
        assert Apart(fl[t], c) && (up ==> Apart(fl[t + 1], c));
      }
    }
  }

  // What free writes: the header of b, then the header of block t.
  function Relinked(mem: map<nat, Header>, fl: seq<Blk>, t: nat, b: Blk): map<nat, Header>
    requires t < |fl|
  {
    var q := fl[Next(t, |fl|)];
    var p := fl[t];
    var up := b.addr + b.size == q.addr;
    var hb := if up then Header(fl[Next(Next(t, |fl|), |fl|)].addr, b.size + q.size) else Header(q.addr, b.size);
    var mem1 := mem[b.addr := hb];
    if p.addr + p.size == b.addr then mem1[p.addr := Header(hb.ptr, p.size + hb.size)]
    else mem1[p.addr := Header(b.addr, p.size)]
  }

  lemma InsertLinked(mem: map<nat, Header>, fl: seq<Blk>, t: nat, b: Blk, base: nat)
    requires FreeList(mem, fl, base) && Follows(fl, t, b) && b.size > 0 && base < b.addr
    ensures FreeList(Relinked(mem, fl, t, b), Insert(fl, t, b), base)
  {
    hide Relinked; hide LinkAt; hide Ordered;
    InsertOrdered(fl, t, b);
    var fl', mem' := Insert(fl, t, b), Relinked(mem, fl, t, b);
    forall i | 0 <= i < |fl'| ensures LinkAt(mem', fl', i) {
      var k := if fl[t].addr + fl[t].size == b.addr then t else t + 1;
      if i < t { LinkBefore(mem, fl, t, b, base, i); }
      else if i <= k { LinkHere(mem, fl, t, b, base, i); }
      else { LinkAfter(mem, fl, t, b, base, i); }
    }
  }

  lemma LinkBefore(mem: map<nat, Header>, fl: seq<Blk>, t: nat, b: Blk, base: nat, i: nat)
    requires FreeList(mem, fl, base) && Follows(fl, t, b) && b.size > 0 && base < b.addr && i < t
    ensures t < |Insert(fl, t, b)| && LinkAt(Relinked(mem, fl, t, b), Insert(fl, t, b), i)
  {
    hide Ordered;
    assert LinkAt(mem, fl, i);
    OrderedFar(fl, i, t);
  }

  // Block t, and b if it stays a block of its own.
  lemma LinkHere(mem: map<nat, Header>, fl: seq<Blk>, t: nat, b: Blk, base: nat, i: nat)
    requires FreeList(mem, fl, base) && Follows(fl, t, b) && b.size > 0 && base < b.addr
    requires t <= i <= if fl[t].addr + fl[t].size == b.addr then t else t + 1
    ensures i < |Insert(fl, t, b)| && LinkAt(Relinked(mem, fl, t, b), Insert(fl, t, b), i)
  {
    hide Ordered; hide Linked;
    var fl' := Insert(fl, t, b);
    var up := t + 1 < |fl| && b.addr + b.size == fl[t + 1].addr;
    assert fl'[0].addr == base;
    if i + 1 < |fl'| && (i > t || fl[t].addr + fl[t].size == b.addr) {
      assert fl'[i + 1] == fl[t + if up then 2 else 1];
    }
  }

  lemma LinkAfter(mem: map<nat, Header>, fl: seq<Blk>, t: nat, b: Blk, base: nat, i: nat)
    requires FreeList(mem, fl, base) && Follows(fl, t, b) && b.size > 0 && base < b.addr && i < |Insert(fl, t, b)|
    requires i > if fl[t].addr + fl[t].size == b.addr then t else t + 1
    ensures LinkAt(Relinked(mem, fl, t, b), Insert(fl, t, b), i)
  {
    hide Ordered; hide Insert; hide Relinked;
    var j := BehindInsert(fl, t, b, i);
    OrderedFar(fl, t, j);
    if t + 1 < j { OrderedFar(fl, t + 1, j); }
    assert LinkAt(mem, fl, j);
    RelinkedElsewhere(mem, fl, t, b, fl[j].addr);
  }

  // A block behind the inserted one, and its successor, in the old list.
  lemma BehindInsert(fl: seq<Blk>, t: nat, b: Blk, i: nat) returns (j: nat)
    requires t < |fl| && i < |Insert(fl, t, b)| && i > if fl[t].addr + fl[t].size == b.addr then t else t + 1
    ensures t < j < |fl| && (t + 1 == j ==> b.addr + b.size != fl[j].addr) && Insert(fl, t, b)[i] == fl[j]
    ensures Insert(fl, t, b)[Next(i, |Insert(fl, t, b)|)].addr == fl[Next(j, |fl|)].addr
  {
    var fl' := Insert(fl, t, b);
    var up := t + 1 < |fl| && b.addr + b.size == fl[t + 1].addr;
    var k := if fl[t].addr + fl[t].size == b.addr then t else t + 1;
    j := i - (k + 1) + (t + if up then 2 else 1);
    assert |fl'| - i == |fl| - j && fl'[0].addr == fl[0].addr;
    assert forall x :: k < x < |fl'| ==> fl'[x] == fl[x - (k + 1) + (t + if up then 2 else 1)];
  }

  lemma RelinkedElsewhere(mem: map<nat, Header>, fl: seq<Blk>, t: nat, b: Blk, a: nat)
    requires t < |fl| && a != b.addr && a != fl[t].addr && a in mem
    ensures a in Relinked(mem, fl, t, b) && Relinked(mem, fl, t, b)[a] == mem[a]
  {
  }

  // Steps along the circle from i to f.
  function Dist(i: nat, f: nat, n: nat): nat
    requires i < n && f < n
  {
    if i <= f then f - i else f + n - i
  }

  lemma DistNext(i: nat, f: nat, n: nat)
    requires i < n && f < n
    ensures i != f ==> Dist(Next(i, n), f, n) == Dist(i, f, n) - 1
    ensures i == f ==> Dist(Next(i, n), f, n) == n - 1
    ensures Dist(i, f, n) < n && (Dist(i, f, n) == 0 <==> i == f)
  {
  }

  lemma DistInjective(i: nat, j: nat, f: nat, n: nat)
    requires i < n && j < n && f < n && Dist(i, f, n) == Dist(j, f, n)
    ensures i == j
  {
  }

  /** Every block apart from the list has a place in it. */
  lemma {:induction false} Place(fl: seq<Blk>, base: nat, b: Blk, m: nat) returns (t: nat)
    requires Ordered(fl) && fl != [] && fl[0] == Blk(base, 0) && base < b.addr && b.size > 0 && m < |fl| && fl[m].addr < b.addr
    requires forall i :: 0 <= i < |fl| ==> Apart(fl[i], b)
    requires forall i :: 1 <= i < |fl| ==> fl[i].size > 0
    ensures Follows(fl, t, b)
    decreases |fl| - m
  {
    if m + 1 < |fl| && fl[m + 1].addr < b.addr {
      t := Place(fl, base, b, m + 1);
    } else {
      t := m;
      assert Apart(fl[m], b) && (m + 1 < |fl| ==> Apart(fl[m + 1], b));
    }
  }

  // The test that free's search makes holds at the place of b, and nowhere else.
  lemma SearchEnds(mem: map<nat, Header>, fl: seq<Blk>, base: nat, b: Blk, t: nat, k: nat)
    requires FreeList(mem, fl, base) && Follows(fl, t, b) && b.size > 0 && base < b.addr && k < |fl|
    ensures fl[k].addr in mem
    ensures var p, q := fl[k].addr, mem[fl[k].addr].ptr;
      k == t <==> (b.addr > p && b.addr < q) || (p >= q && (b.addr > p || b.addr < q))
  {
    hide Ordered;
    assert LinkAt(mem, fl, k);
    if k < t { OrderedFar(fl, k, t); if k + 1 < t { OrderedFar(fl, k + 1, t); } OrderedFar(fl, k, k + 1); }
    if t < k { OrderedFar(fl, t, k); if k + 1 < |fl| { OrderedFar(fl, k, k + 1); } if t + 1 < k { OrderedFar(fl, t + 1, k); } OrderedFar(fl, 0, k); }
    if k == t && k + 1 < |fl| { OrderedFar(fl, k, k + 1); }
    if k == t && 0 < t { OrderedFar(fl, 0, k); }
  }

  // ---------------------------------------------------------------- taking a block

  lemma TakeWhole(mem: map<nat, Header>, fl: seq<Blk>, base: nat, k: nat)
    requires FreeList(mem, fl, base) && 1 <= k < |fl|
    ensures fl[k].addr in mem && fl[k - 1].addr in mem
    ensures FreeList(mem[fl[k - 1].addr := Header(mem[fl[k].addr].ptr, mem[fl[k - 1].addr].size)], fl[..k] + fl[k + 1..], base)
  {
    hide Ordered;
    assert LinkAt(mem, fl, k) && LinkAt(mem, fl, k - 1);
    var fl', mem' := fl[..k] + fl[k + 1..], mem[fl[k - 1].addr := Header(mem[fl[k].addr].ptr, mem[fl[k - 1].addr].size)];
    WholeOrdered(fl, k);
    forall i | 0 <= i < |fl'| ensures LinkAt(mem', fl', i) {
      var j := if i < k then i else i + 1;
      assert LinkAt(mem, fl, j);
      if j < k - 1 { OrderedFar(fl, j, k - 1); }
      if k - 1 < j { OrderedFar(fl, k - 1, j); }
    }
    assert fl'[0] == fl[0];
    forall i | 1 <= i < |fl'| ensures fl'[i].size > 0 {
      assert fl'[i] == fl[if i < k then i else i + 1];
    }
  }

  lemma WholeOrdered(fl: seq<Blk>, k: nat)
    requires Ordered(fl) && 1 <= k < |fl|
    ensures Ordered(fl[..k] + fl[k + 1..])
  {
    var fl' := fl[..k] + fl[k + 1..];
    forall i | 0 <= i < |fl'| - 1 ensures GapAt(fl', i) {
      if i < k - 1 {
        assert GapAt(fl, i);
      } else if i >= k {
        assert GapAt(fl, i + 1);
      } else {
        OrderedFar(fl, k - 1, k + 1);
      }
    }
  }

  lemma TakeTail(mem: map<nat, Header>, fl: seq<Blk>, base: nat, k: nat, n: nat, h: Header)
    requires FreeList(mem, fl, base) && 1 <= k < |fl| && 0 < n < fl[k].size
    ensures fl[k].addr in mem
    ensures FreeList(mem[fl[k].addr := Header(mem[fl[k].addr].ptr, fl[k].size - n)][fl[k].addr + (fl[k].size - n) := h],
                     fl[k := Blk(fl[k].addr, fl[k].size - n)], base)
  {
    hide Ordered;
    assert LinkAt(mem, fl, k);
    var fl' := fl[k := Blk(fl[k].addr, fl[k].size - n)];
    var q := fl[k].addr + (fl[k].size - n);
    var mem' := mem[fl[k].addr := Header(mem[fl[k].addr].ptr, fl[k].size - n)][q := h];
    TailOrdered(fl, k, n);
    forall i | 0 <= i < |fl'| ensures LinkAt(mem', fl', i) {
      assert LinkAt(mem, fl, i);
      if i < k { OrderedFar(fl, i, k); }
      if k < i { OrderedFar(fl, k, i); }
    }
  }

  lemma TailOrdered(fl: seq<Blk>, k: nat, n: nat)
    requires Ordered(fl) && k < |fl| && n < fl[k].size
    ensures Ordered(fl[k := Blk(fl[k].addr, fl[k].size - n)])
  {
    var fl' := fl[k := Blk(fl[k].addr, fl[k].size - n)];
    forall i | 0 <= i < |fl'| - 1 ensures GapAt(fl', i) {
      assert GapAt(fl, i);
    }
  }

  // ---------------------------------------------------------------- the heap as a whole

  ghost predicate HeapInv(mem: map<nat, Header>, fl: seq<Blk>, live: map<nat, nat>, granted: set<nat>, base: nat, brk: nat) {
    && 0 < base < brk && (forall u :: u in granted ==> base < u < brk)
    && FreeList(mem, fl, base) && LiveBlocks(mem, fl, live, base) && Conserved(fl, live, granted)
  }

  // The units [at, at + n).
  ghost function Units(at: nat, n: nat): (r: set<nat>)
    ensures forall u :: u in r <==> at <= u < at + n
  {
    if n == 0 then {} else Units(at, n - 1) + {at + n - 1}
  }

  /** free, once the place t is found. */
  lemma FreeStep(mem: map<nat, Header>, fl: seq<Blk>, live: map<nat, nat>, granted: set<nat>, base: nat, brk: nat, t: nat, bp: nat)
    requires HeapInv(mem, fl, live, granted, base, brk) && bp in live && Follows(fl, t, Blk(bp, live[bp]))
    ensures HeapInv(Relinked(mem, fl, t, Blk(bp, live[bp])), Insert(fl, t, Blk(bp, live[bp])), live - {bp}, granted, base, brk)
  {
    hide FreeList; hide Covered; hide LiveUnit; hide Insert;
    var b := Blk(bp, live[bp]);
    InsertLinked(mem, fl, t, b, base);
    FreeListOrdered(mem, fl, base);
    forall u: nat ensures u in granted <==> Covered(Insert(fl, t, b), u) || LiveUnit(live - {bp}, u) {
      InsertCovers(fl, t, b, u);
      LiveWithout(live, bp, u);
    }
    forall c | c in live - {bp} ensures forall i :: 0 <= i < |Insert(fl, t, b)| ==> Apart(Insert(fl, t, b)[i], Blk(c, live[c])) {
      InsertApart(fl, t, b, Blk(c, live[c]));
    }
  }

  lemma FreeListOrdered(mem: map<nat, Header>, fl: seq<Blk>, base: nat)
    requires FreeList(mem, fl, base)
    ensures Ordered(fl) && fl != [] && fl[0] == Blk(base, 0) && forall i :: 1 <= i < |fl| ==> fl[i].size > 0
  {
  }

  lemma LiveWithout(live: map<nat, nat>, b: nat, u: nat)
    requires b in live
    ensures LiveUnit(live, u) <==> LiveUnit(live - {b}, u) || Inside(Blk(b, live[b]), u)
  {
    if c :| c in live && c != b && Inside(Blk(c, live[c]), u) {
      assert c in live - {b} && (live - {b})[c] == live[c];
    }
  }

  lemma LiveWith(live: map<nat, nat>, b: nat, n: nat, u: nat)
    requires b !in live
    ensures LiveUnit(live[b := n], u) <==> LiveUnit(live, u) || Inside(Blk(b, n), u)
  {
    var live' := live[b := n];
    assert live' - {b} == live;
    LiveWithout(live', b, u);
  }

  /** malloc with a block of exactly the size wanted. */
  lemma WholeStep(mem: map<nat, Header>, fl: seq<Blk>, live: map<nat, nat>, granted: set<nat>, base: nat, brk: nat, k: nat)
    requires HeapInv(mem, fl, live, granted, base, brk) && 1 <= k < |fl|
    ensures fl[k].addr in mem && fl[k - 1].addr in mem && fl[k].addr !in live
    ensures HeapInv(mem[fl[k - 1].addr := Header(mem[fl[k].addr].ptr, mem[fl[k - 1].addr].size)], fl[..k] + fl[k + 1..],
                    live[fl[k].addr := fl[k].size], granted, base, brk)
  {
    hide FreeList; hide Covered; hide LiveUnit;
    TakeWhole(mem, fl, base, k);
    FreeListOrdered(mem, fl, base);
    OrderedFar(fl, 0, k);
    OrderedFar(fl, k - 1, k);
    var fl', b := fl[..k] + fl[k + 1..], fl[k].addr;
    HeaderSize(mem, fl, base, k);
    forall c | c in live ensures c != b && c != fl[k - 1].addr {
      assert Apart(fl[k], Blk(c, live[c])) && Apart(fl[k - 1], Blk(c, live[c]));
    }
    forall u: nat ensures u in granted <==> Covered(fl', u) || LiveUnit(live[b := fl[k].size], u) {
      RemoveCovers(fl, k, u);
      LiveWith(live, b, fl[k].size, u);
    }
    forall i | 0 <= i < |fl'| ensures Apart(fl'[i], fl[k]) && exists j :: 0 <= j < |fl| && fl'[i] == fl[j] {
      var j := if i < k then i else i + 1;
      assert fl'[i] == fl[j];
      if j < k { OrderedFar(fl, j, k); } else { OrderedFar(fl, k, j); }
    }
  }

  lemma HeaderSize(mem: map<nat, Header>, fl: seq<Blk>, base: nat, k: nat)
    requires FreeList(mem, fl, base) && k < |fl|
    ensures fl[k].addr in mem && mem[fl[k].addr] == Header(fl[Next(k, |fl|)].addr, fl[k].size)
  {
    assert LinkAt(mem, fl, k);
  }

  lemma RemoveCovers(fl: seq<Blk>, k: nat, u: nat)
    requires k < |fl|
    ensures Covered(fl, u) <==> Covered(fl[..k] + fl[k + 1..], u) || Inside(fl[k], u)
  {
    var fl' := fl[..k] + fl[k + 1..];
    if i :| 0 <= i < |fl| && i != k && Inside(fl[i], u) {
      assert Inside(fl'[if i < k then i else i - 1], u);
    }
    if i :| 0 <= i < |fl'| && Inside(fl'[i], u) {
      assert Inside(fl[if i < k then i else i + 1], u);
    }
  }

  /** malloc with a larger block: its tail is taken. */
  lemma TailStep(mem: map<nat, Header>, fl: seq<Blk>, live: map<nat, nat>, granted: set<nat>, base: nat, brk: nat, k: nat, n: nat, x: nat)
    requires HeapInv(mem, fl, live, granted, base, brk) && 1 <= k < |fl| && 0 < n < fl[k].size
    ensures fl[k].addr in mem && fl[k].addr + (fl[k].size - n) !in live
    ensures HeapInv(mem[fl[k].addr := Header(mem[fl[k].addr].ptr, fl[k].size - n)][fl[k].addr + (fl[k].size - n) := Header(x, n)],
                    fl[k := Blk(fl[k].addr, fl[k].size - n)], live[fl[k].addr + (fl[k].size - n) := n], granted, base, brk)
  {
    hide FreeList; hide Covered; hide LiveUnit;
    TakeTail(mem, fl, base, k, n, Header(x, n));
    FreeListOrdered(mem, fl, base);
    OrderedFar(fl, 0, k);
    var q := fl[k].addr + (fl[k].size - n);
    var fl' := fl[k := Blk(fl[k].addr, fl[k].size - n)];
    forall c | c in live ensures Apart(Blk(q, n), Blk(c, live[c])) && c != q && c != fl[k].addr {
      assert Apart(fl[k], Blk(c, live[c]));
    }
    forall u: nat ensures u in granted <==> Covered(fl', u) || LiveUnit(live[q := n], u) {
      ShrinkCovers(fl, k, n, u);
      LiveWith(live, q, n, u);
    }
    forall i | 0 <= i < |fl'| ensures Apart(fl'[i], Blk(q, n)) {
      if i < k { OrderedFar(fl, i, k); }
      if k < i { OrderedFar(fl, k, i); }
    }
    forall c, i | c in live && 0 <= i < |fl'| ensures Apart(fl'[i], Blk(c, live[c])) {
      assert Apart(fl[i], Blk(c, live[c]));
    }
  }

  lemma ShrinkCovers(fl: seq<Blk>, k: nat, n: nat, u: nat)
    requires k < |fl| && n <= fl[k].size
    ensures var fl' := fl[k := Blk(fl[k].addr, fl[k].size - n)];
      Covered(fl, u) <==> Covered(fl', u) || Inside(Blk(fl[k].addr + (fl[k].size - n), n), u)
  {
    var fl' := fl[k := Blk(fl[k].addr, fl[k].size - n)];
    var tail := Blk(fl[k].addr + (fl[k].size - n), n);
    if i :| 0 <= i < |fl| && Inside(fl[i], u) && !Inside(tail, u) {
      assert Inside(fl'[i], u);
    }
    if i :| 0 <= i < |fl'| && Inside(fl'[i], u) {
      assert Inside(fl[i], u);
    }
    if Inside(tail, u) {
      assert Inside(fl[k], u);
    }
  }

  /** New memory from sbrk, above everything else. */
  lemma GrantStep(mem: map<nat, Header>, fl: seq<Blk>, live: map<nat, nat>, granted: set<nat>, base: nat, brk: nat, at: nat, n: nat, x: nat)
    requires HeapInv(mem, fl, live, granted, base, brk) && brk <= at && n > 0
    ensures at !in live && HeapInv(mem[at := Header(x, n)], fl, live[at := n], granted + Units(at, n), base, at + n)
  {
    hide FreeList; hide Covered; hide LiveUnit; hide LiveBlocks; hide Units;
    AllBelow(mem, fl, live, granted, base, brk);
    GrantLive(mem, fl, live, base, brk, at, n, x);
    forall u: nat ensures u in granted + Units(at, n) <==> Covered(fl, u) || LiveUnit(live[at := n], u) {
      LiveWith(live, at, n, u);
    }
    LinkedElsewhere(mem, fl, base, at, Header(x, n));
  }

  lemma AllBelow(mem: map<nat, Header>, fl: seq<Blk>, live: map<nat, nat>, granted: set<nat>, base: nat, brk: nat)
    requires HeapInv(mem, fl, live, granted, base, brk)
    ensures forall i :: 0 <= i < |fl| ==> fl[i].addr + fl[i].size <= brk && fl[i].addr < brk
    ensures forall c :: c in live ==> c + live[c] <= brk && live[c] > 0
  {
    hide FreeList; hide Covered; hide LiveUnit;
    FreeListOrdered(mem, fl, base);
    forall i | 0 <= i < |fl| ensures fl[i].addr + fl[i].size <= brk && fl[i].addr < brk {
      if i > 0 {
        InsideCovers(fl, i, fl[i].addr + fl[i].size - 1);
      }
    }
    forall c | c in live ensures c + live[c] <= brk {
      InsideLive(live, c, c + live[c] - 1);
    }
  }

  lemma GrantLive(mem: map<nat, Header>, fl: seq<Blk>, live: map<nat, nat>, base: nat, brk: nat, at: nat, n: nat, x: nat)
    requires LiveBlocks(mem, fl, live, base) && base < brk <= at && n > 0
    requires forall i :: 0 <= i < |fl| ==> fl[i].addr + fl[i].size <= brk && fl[i].addr < brk
    requires forall c :: c in live ==> c + live[c] <= brk && live[c] > 0
    ensures LiveBlocks(mem[at := Header(x, n)], fl, live[at := n], base)
  {
  }

  lemma InsideCovers(fl: seq<Blk>, i: nat, u: nat)
    requires i < |fl| && Inside(fl[i], u)
    ensures Covered(fl, u)
  {
  }

  lemma InsideLive(live: map<nat, nat>, b: nat, u: nat)
    requires b in live && Inside(Blk(b, live[b]), u)
    ensures LiveUnit(live, u)
  {
  }

  lemma LinkedElsewhere(mem: map<nat, Header>, fl: seq<Blk>, base: nat, at: nat, h: Header)
    requires FreeList(mem, fl, base) && forall i :: 0 <= i < |fl| ==> fl[i].addr != at
    ensures FreeList(mem[at := h], fl, base)
  {
    var mem' := mem[at := h];
    forall i | 0 <= i < |fl| ensures LinkAt(mem', fl, i) {
      assert LinkAt(mem, fl, i);
    }
  }

  // ---------------------------------------------------------------- malloc and free

  /** What sbrk answers: an address at or above the break, or SBRK_ERROR. */
  datatype Answer = Refused | Granted(at: nat)

  // What morecore passes to sbrk for n units: 16 * n, as a 32-bit int.
  function SbrkArgument(n: nat): int {
    var x := 16 * n % 0x1_0000_0000;
    if x < 0x8000_0000 then x else x - 0x1_0000_0000
  }

  function AskedUnits(nbytes: nat): nat {
    if UnitsFor(nbytes) < 4096 then 4096 else UnitsFor(nbytes)
  }

  /**
    malloc asks sbrk for the units it then takes over exactly if the request is at most
    2 GiB - 32 bytes.  Beyond that sbrk is asked for one unit, for nothing, or to shrink
    the process, and what it returns is taken for all the memory wanted.
   */
  lemma RequestsThatWrap(nbytes: nat)
    requires nbytes < 0x1_0000_0000
    ensures SbrkArgument(AskedUnits(nbytes)) == 16 * AskedUnits(nbytes) <==> nbytes <= 0x7fff_ffe0
    ensures SbrkArgument(AskedUnits(nbytes)) <= 16 <==> nbytes > 0x7fff_ffe0
    ensures SbrkArgument(AskedUnits(0xffff_fff0)) == 0
  {
    var n := (nbytes + 15) / 16;
    assert 16 * n - 15 <= nbytes <= 16 * n;
  }

  class Heap {
    const base: nat
    var freep: nat  // 0 before the first malloc
    var mem: map<nat, Header>
    ghost var brk: nat
    ghost var fl: seq<Blk>
    ghost var pos: nat  // the index of freep in fl
    ghost var live: map<nat, nat>
    ghost var granted: set<nat>  // the units morecore has taken over

    ghost predicate Valid()
      reads this
    {
      if freep == 0 then
        0 < base < brk && fl == [] && live == map[] && granted == {}
      else
        HeapInv(mem, fl, live, granted, base, brk) && pos < |fl| && fl[pos].addr == freep
    }

    constructor (base: nat, ghost brk: nat)
      requires 0 < base < brk
      ensures Valid() && this.base == base && this.brk == brk && live == map[] && granted == {}
    {
      this.base, freep, mem := base, 0, map[];
      this.brk, fl, pos, live, granted := brk, [], 0, map[], {};
    }

    /** free: the block leaves the live blocks, and nothing else does. */
    method Free(ap: nat)
      requires Valid() && ap > 0 && ap - 1 in live
      modifies this
      ensures Valid() && freep != 0 && live == old(live) - {ap - 1} && granted == old(granted) && brk == old(brk)
      ensures forall u :: Covered(fl, u) <==> Covered(old(fl), u) || Inside(Blk(ap - 1, old(live)[ap - 1]), u)
      ensures exists i :: 0 <= i < |fl| && fl[i].size >= old(live)[ap - 1]
    {
      hide HeapInv; hide Covered; hide Insert; hide Relinked; hide Follows;
      var bp := ap - 1;
      ghost var b, mem0, fl0 := Blk(bp, live[bp]), mem, fl;
      ghost var t := Where(bp);
      var p := freep;
      ghost var k: nat := pos;
      Search(bp, t, k);
      while !(bp > p && bp < mem[p].ptr)
        invariant k < |fl| && p == fl[k].addr && p in mem
        modifies {}
        decreases Dist(k, t, |fl|)
      {
        Search(bp, t, k);
        DistNext(k, t, |fl|);
        if p >= mem[p].ptr && (bp > p || bp < mem[p].ptr) {
          break;
        }
        p := mem[p].ptr;
        k := Next(k, |fl|);
        Search(bp, t, k);
      }
      Search(bp, t, k);
      assert k == t;
      Join(bp, p, t);
      freep := p;
      FreeStep(mem0, fl0, live, granted, base, brk, t, bp);
      fl, live, pos := Insert(fl0, t, b), live - {bp}, t;
      Inserted(fl0, t, b);
    }

    // Put the block between p and its successor, merging with what it touches.
    method Join(bp: nat, p: nat, ghost t: nat)
      requires Valid() && bp in live && Follows(fl, t, Blk(bp, live[bp])) && p == fl[t].addr
      modifies this`mem
      ensures mem == Relinked(old(mem), fl, t, Blk(bp, live[bp])) && p != 0
    {
      hide HeapInv;
      Around(bp, t);
      if bp + mem[bp].size == mem[p].ptr {
        var q := mem[p].ptr;
        mem := mem[bp := Header(mem[q].ptr, mem[bp].size + mem[q].size)];
      } else {
        mem := mem[bp := Header(mem[p].ptr, mem[bp].size)];
      }
      if p + mem[p].size == bp {
        mem := mem[p := Header(mem[bp].ptr, mem[p].size + mem[bp].size)];
      } else {
        mem := mem[p := Header(bp, mem[p].size)];
      }
    }

    ghost method Where(bp: nat) returns (t: nat)
      requires Valid() && bp in live
      ensures Follows(fl, t, Blk(bp, live[bp])) && base < bp && live[bp] > 0 && freep != 0
    {
      t := Place(fl, base, Blk(bp, live[bp]), 0);
    }

    lemma Search(bp: nat, t: nat, k: nat)
      requires Valid() && bp in live && Follows(fl, t, Blk(bp, live[bp])) && k < |fl|
      ensures fl[k].addr in mem && mem[fl[k].addr].ptr == fl[Next(k, |fl|)].addr
      ensures var p, q := fl[k].addr, mem[fl[k].addr].ptr;
        k == t <==> (bp > p && bp < q) || (p >= q && (bp > p || bp < q))
    {
      hide Covered; hide LiveUnit;
      SearchEnds(mem, fl, base, Blk(bp, live[bp]), t, k);
      HeaderSize(mem, fl, base, k);
    }

    /** morecore: ask for at least 4096 units, and put them into the free list. */
    method Morecore(nu: nat, g: Answer) returns (p: nat)
      requires Valid() && freep != 0 && (g.Granted? ==> brk <= g.at)
      modifies this
      ensures Valid() && freep != 0 && live == old(live)
      ensures p == if g.Refused? then 0 else freep
      ensures g.Refused? ==> granted == old(granted) && fl == old(fl) && mem == old(mem) && freep == old(freep) && pos == old(pos)
      ensures g.Granted? ==> granted == old(granted) + Units(g.at, if nu < 4096 then 4096 else nu)
      ensures g.Granted? ==> exists i :: 0 <= i < |fl| && fl[i].size >= nu
    {
      hide HeapInv; hide Covered; hide Units;
      var n := if nu < 4096 then 4096 else nu;
      if g.Refused? {
        return 0;
      }
      var hp := g.at;
      ghost var live0 := live;
      GrantStep(mem, fl, live, granted, base, brk, hp, n, if hp in mem then mem[hp].ptr else 0);
      mem := mem[hp := Header(if hp in mem then mem[hp].ptr else 0, n)];
      live, granted, brk := live[hp := n], granted + Units(hp, n), hp + n;
      Free(hp + 1);
      assert live == live0;
      p := freep;
    }

    /**
      malloc.  A block of the units asked for becomes live.  If a free block is large
      enough it comes from there; otherwise sbrk is asked, once, and malloc fails exactly
      if sbrk refuses.
     */
    method Malloc(nbytes: nat, g: Answer) returns (r: nat)
      requires Valid() && (g.Granted? ==> brk <= g.at) && nbytes < 0x1_0000_0000
      modifies this
      ensures Valid()
      ensures r == 0 <==> g.Refused? && !Fits(old(fl), UnitsFor(nbytes))
      ensures r == 0 ==> live == old(live) && granted == old(granted)
      ensures r != 0 ==> r - 1 !in old(live) && live == old(live)[r - 1 := UnitsFor(nbytes)]
      ensures r != 0 ==> granted == old(granted) + if Fits(old(fl), UnitsFor(nbytes)) then {} else Units(g.at, if UnitsFor(nbytes) < 4096 then 4096 else UnitsFor(nbytes))
    {
      hide HeapInv; hide Units; hide Passed; hide Ahead;
      var nunits := (nbytes + 16 - 1) / 16 + 1;
      ghost var fl0, granted0 := fl, granted;
      if freep == 0 {
        mem := mem[base := Header(base, 0)];
        freep := base;
        fl, pos := [Blk(base, 0)], 0;
        Started(mem, base, brk, nunits);
      }
      ghost var fits := Fits(fl0, nunits);
      var prevp := freep;
      ghost var k: nat := Next(pos, |fl|);
      Links(pos);
      var p := mem[prevp].ptr;
      Links(k);
      PassedNone(fl, pos, nunits);
      ghost var asked := false;
      while true
        invariant Valid() && freep != 0 && live == old(live)
        invariant k < |fl| && p == fl[k].addr && prevp == fl[Prev(k, |fl|)].addr && p in mem && mem[p].size == fl[k].size
        invariant !asked ==> fl == (if fl0 == [] then [Blk(base, 0)] else fl0) && granted == granted0 && brk == old(brk) && Passed(fl, pos, k, nunits)
        invariant asked ==> !fits && g.Granted? && granted == granted0 + Units(g.at, if nunits < 4096 then 4096 else nunits) && Ahead(fl, pos, k, nunits)
        decreases !asked, Dist(k, pos, |fl|)
      {
        if mem[p].size >= nunits {
          r := Take(k, p, prevp, nunits);
          return;
        }
        DistNext(k, pos, |fl|);
        SamePlace(k);
        if asked { NotHere(fl, pos, k, nunits); }
        if p == freep {
          PassedAll(fl, pos, nunits);
          p := Morecore(nunits, g);
          if p == 0 {
            return 0;
          }
          asked := true;
          k := pos;
          DistNext(pos, pos, |fl|);
          AheadAll(fl, pos, nunits);
        } else {
          if asked { AheadNext(fl, pos, k, nunits); } else { PassedNext(fl, pos, k, nunits); }
        }
        Links(k);
        prevp, p := p, mem[p].ptr;
        k := Next(k, |fl|);
        Links(k);
      }
    }

    // malloc has found a block: all of it or its tail is taken.
    method Take(ghost k: nat, p0: nat, prevp: nat, nunits: nat) returns (r: nat)
      requires Valid() && freep != 0 && k < |fl| && p0 == fl[k].addr && prevp == fl[Prev(k, |fl|)].addr && 0 < nunits <= fl[k].size
      modifies this
      ensures Valid() && granted == old(granted) && r > 0 && r - 1 !in old(live) && live == old(live)[r - 1 := nunits]
    {
      hide HeapInv;
      var p := p0;
      NotBase(k);
      Links(k);
      Links(k - 1);
      if mem[p].size == nunits {
        WholeStep(mem, fl, live, granted, base, brk, k);
        mem := mem[prevp := Header(mem[p].ptr, mem[prevp].size)];
        fl := fl[..k] + fl[k + 1..];
      } else {
        var size := mem[p].size - nunits;
        var q := p + size;
        ghost var x := if q in mem then mem[q].ptr else 0;
        TailStep(mem, fl, live, granted, base, brk, k, nunits, x);
        mem := mem[p := Header(mem[p].ptr, size)];
        p := q;
        mem := mem[p := Header(if p in mem then mem[p].ptr else 0, nunits)];
        fl := fl[k := Blk(fl[k].addr, fl[k].size - nunits)];
      }
      live := live[p := nunits];
      freep, pos := prevp, k - 1;
      r := p + 1;
    }

    lemma NotBase(k: nat)
      requires Valid() && freep != 0 && k < |fl| && fl[k].size > 0
      ensures k > 0 && freep != 0 && fl[k - 1].addr != 0
    {
      hide Covered; hide LiveUnit; hide Linked;
      if k > 1 { OrderedFar(fl, 0, k - 1); }
    }

    lemma Links(k: nat)
      requires Valid() && freep != 0 && k < |fl|
      ensures fl[k].addr in mem && mem[fl[k].addr] == Header(fl[Next(k, |fl|)].addr, fl[k].size)
      ensures Prev(Next(k, |fl|), |fl|) == k && Next(k, |fl|) < |fl|
    {
      hide Covered; hide LiveUnit; hide Ordered; hide LinkAt;
      HeaderSize(mem, fl, base, k);
    }

    lemma SamePlace(k: nat)
      requires Valid() && freep != 0 && k < |fl|
      ensures fl[k].addr == freep <==> k == pos
    {
      hide Covered; hide LiveUnit; hide Linked;
      if k < pos { OrderedFar(fl, k, pos); }
      if pos < k { OrderedFar(fl, pos, k); }
    }

    // The headers that free reads.
    lemma Around(bp: nat, t: nat)
      requires Valid() && bp in live && Follows(fl, t, Blk(bp, live[bp]))
      ensures bp in mem && mem[bp].size == live[bp] && bp != fl[t].addr && fl[t].addr != 0
      ensures fl[t].addr in mem && mem[fl[t].addr] == Header(fl[Next(t, |fl|)].addr, fl[t].size)
      ensures var q := Next(t, |fl|); fl[q].addr in mem && mem[fl[q].addr] == Header(fl[Next(q, |fl|)].addr, fl[q].size)
    {
      hide Covered; hide LiveUnit; hide Ordered; hide LinkAt;
      HeaderSize(mem, fl, base, t);
      HeaderSize(mem, fl, base, Next(t, |fl|));
      if t > 0 { OrderedFar(fl, 0, t); }
    }
  }

  lemma Inserted(fl: seq<Blk>, t: nat, b: Blk)
    requires Follows(fl, t, b)
    ensures forall u :: Covered(Insert(fl, t, b), u) <==> Covered(fl, u) || Inside(b, u)
    ensures t < |Insert(fl, t, b)| && Insert(fl, t, b)[t].addr == fl[t].addr
    ensures exists i :: 0 <= i < |Insert(fl, t, b)| && Insert(fl, t, b)[i].size >= b.size
  {
    hide Covered;
    forall u ensures Covered(Insert(fl, t, b), u) <==> Covered(fl, u) || Inside(b, u) {
      InsertCovers(fl, t, b, u);
    }
    var k := if fl[t].addr + fl[t].size == b.addr then t else t + 1;
    assert Insert(fl, t, b)[k].size >= b.size;
  }

  // ---------------------------------------------------------------- malloc's search

  /** The size that malloc looks for: the bytes, rounded up, and a header. */
  function UnitsFor(nbytes: nat): (r: nat)
    ensures r > 0 && 16 * (r - 1) >= nbytes
  {
    (nbytes + 16 - 1) / 16 + 1
  }

  ghost predicate Fits(fl: seq<Blk>, n: nat) { exists i :: 0 <= i < |fl| && fl[i].size >= n }

  function Prev(i: nat, n: nat): int { if i == 0 then n - 1 else i - 1 }

  lemma Started(mem: map<nat, Header>, base: nat, brk: nat, n: nat)
    requires 0 < base < brk && base in mem && mem[base] == Header(base, 0) && n > 0
    ensures HeapInv(mem, [Blk(base, 0)], map[], {}, base, brk) && Fits([Blk(base, 0)], n) == Fits([], n)
  {
    var fl := [Blk(base, 0)];
    assert LinkAt(mem, fl, 0);
    assert forall u: nat :: !Inside(Blk(base, 0), u);
  }

  // The blocks from which the search has moved on are too small.
  ghost predicate Passed(fl: seq<Blk>, f: nat, k: nat, n: nat)
    requires f < |fl| && k < |fl|
  {
    forall i :: 0 <= i < |fl| && Dist(i, f, |fl|) > Dist(k, f, |fl|) ==> fl[i].size < n
  }

  // Before the search is back at f it finds a block.
  ghost predicate Ahead(fl: seq<Blk>, f: nat, k: nat, n: nat)
    requires f < |fl| && k < |fl|
  {
    exists i :: 0 <= i < |fl| && Dist(i, f, |fl|) <= Dist(k, f, |fl|) && fl[i].size >= n
  }

  lemma PassedNone(fl: seq<Blk>, f: nat, n: nat)
    requires f < |fl|
    ensures Passed(fl, f, Next(f, |fl|), n)
  {
    forall i | 0 <= i < |fl| ensures Dist(i, f, |fl|) <= Dist(Next(f, |fl|), f, |fl|) {
      DistNext(i, f, |fl|);
      DistNext(f, f, |fl|);
    }
  }

  lemma PassedNext(fl: seq<Blk>, f: nat, k: nat, n: nat)
    requires f < |fl| && k < |fl| && k != f && Passed(fl, f, k, n) && fl[k].size < n
    ensures Passed(fl, f, Next(k, |fl|), n)
  {
    DistNext(k, f, |fl|);
    forall i | 0 <= i < |fl| && Dist(i, f, |fl|) == Dist(k, f, |fl|) ensures i == k {
      DistInjective(i, k, f, |fl|);
    }
  }

  lemma PassedAll(fl: seq<Blk>, f: nat, n: nat)
    requires f < |fl| && Passed(fl, f, f, n) && fl[f].size < n
    ensures !Fits(fl, n)
  {
    forall i | 0 <= i < |fl| ensures fl[i].size < n {
      DistNext(i, f, |fl|);
    }
  }

  lemma AheadAll(fl: seq<Blk>, f: nat, n: nat)
    requires f < |fl| && Fits(fl, n)
    ensures Ahead(fl, f, Next(f, |fl|), n)
  {
    var i :| 0 <= i < |fl| && fl[i].size >= n;
    DistNext(i, f, |fl|);
    DistNext(f, f, |fl|);
  }

  lemma AheadNext(fl: seq<Blk>, f: nat, k: nat, n: nat)
    requires f < |fl| && k < |fl| && k != f && Ahead(fl, f, k, n) && fl[k].size < n
    ensures Ahead(fl, f, Next(k, |fl|), n)
  {
    DistNext(k, f, |fl|);
    var i :| 0 <= i < |fl| && Dist(i, f, |fl|) <= Dist(k, f, |fl|) && fl[i].size >= n;
    if Dist(i, f, |fl|) == Dist(k, f, |fl|) {
      DistInjective(i, k, f, |fl|);
    }
  }

  lemma NotHere(fl: seq<Blk>, f: nat, k: nat, n: nat)
    requires f < |fl| && k < |fl| && Ahead(fl, f, k, n) && fl[k].size < n
    ensures k != f
  {
    var i :| 0 <= i < |fl| && Dist(i, f, |fl|) <= Dist(k, f, |fl|) && fl[i].size >= n;
    DistNext(i, f, |fl|);
  }
}
