/**
  Sv39 page tables as trees in physical memory, and the plain map from virtual page
  numbers to page table entries that they stand for.

  A table is located by its node: its level and the index bits that lead to it.
  `Tree` records where each node is; the code finds the nodes by following entries.
 */
module PageTable {

  const ENTRIES: nat := 512
  const PAGES: nat := 0x400_0000  // MAXVA / PGSIZE: 2^26 virtual pages

  // A table: 512 page table entries.
  type Page512 = s: seq<nat> | |s| == ENTRIES witness seq(ENTRIES, _ => 0)
  type Tables = map<nat, Page512>

  // ---------------------------------------------------------------- entries

  // A page table entry holds a page number above ten flag bits.
  predicate PteV(pte: nat) { pte % 2 == 1 }

  predicate PteU(pte: nat) { pte % 32 >= 16 }

  predicate PteW(pte: nat) { pte % 8 >= 4 }

  function PtePage(pte: nat): nat { pte / 1024 }   // PTE2PA, by page

  function PteFlags(pte: nat): nat { pte % 1024 }

  // An entry for a page, with its permissions and the valid bit.
  function MakePte(page: nat, perm: nat): (r: nat)
    requires perm < 1024
    ensures PteV(r) && PtePage(r) == page && PteFlags(r) == if perm % 2 == 1 then perm else perm + 1
  {
    var f := if perm % 2 == 1 then perm else perm + 1;
    EntryBits(page, f);
    page * 1024 + f
  }

  lemma EntryBits(page: nat, f: nat)
    requires f < 1024 && f % 2 == 1
    ensures (page * 1024 + f) % 2 == 1 && (page * 1024 + f) / 1024 == page && (page * 1024 + f) % 1024 == f
  {
    Parity(page * 1024 + f, 512 * page + f / 2, 1);
    Quotient(page * 1024 + f, page, f);
  }

  lemma Parity(x: nat, q: nat, r: nat)
    requires x == 2 * q + r && r < 2
    ensures x % 2 == r
  {
  }

  lemma Quotient(x: nat, q: nat, r: nat)
    requires x == 1024 * q + r && r < 1024
    ensures x / 1024 == q && x % 1024 == r
  {
  }

  // The low bits of an entry, given the rest.
  lemma LowBits(pte: nat, q: nat, f: nat)
    requires pte == 1024 * q + f && f < 32
    ensures pte % 32 == f && pte % 8 == f % 8
  {
    Low32(pte, 32 * q, f);
    Low8(pte, 128 * q + f / 8, f % 8);
  }

  lemma Low32(x: nat, q: nat, r: nat)
    requires x == 32 * q + r && r < 32
    ensures x % 32 == r
  {
  }

  lemma Low8(x: nat, q: nat, r: nat)
    requires x == 8 * q + r && r < 8
    ensures x % 8 == r
  {
  }

  // A valid entry with none of R, W and X points to a table.
  predicate IsBranch(pte: nat) { pte % 16 / 2 == 0 }

  // ---------------------------------------------------------------- indices

  // PX(level, va), by page number
  function Index(level: nat, vpn: nat): nat
    requires level <= 2 && vpn < PAGES
  {
    if level == 2 then vpn / 0x4_0000 else if level == 1 then vpn / 512 % 512 else vpn % 512
  }

  /** The three indices determine the page number. */
  lemma IndicesInjective(u: nat, v: nat)
    requires u < PAGES && v < PAGES
    requires Index(2, u) == Index(2, v) && Index(1, u) == Index(1, v) && Index(0, u) == Index(0, v)
    ensures u == v
  {
    assert u / 0x4_0000 == u / 512 / 512 && v / 0x4_0000 == v / 512 / 512;
  }

  // ---------------------------------------------------------------- trees

  // The table at a level, reached with the given leading index bits.
  datatype Node = Node(level: nat, prefix: nat)

  const Root: Node := Node(2, 0)

  function Child(n: Node, i: nat): Node
    requires n.level > 0
  {
    Node(n.level - 1, n.prefix * 512 + i)
  }

  function Parent(n: Node): Node { Node(n.level + 1, n.prefix / 512) }

  // The table of a level that the walk for vpn visits.
  function NodeFor(level: nat, vpn: nat): Node
    requires level <= 2 && vpn < PAGES
  {
    Node(level, if level == 2 then 0 else if level == 1 then vpn / 0x4_0000 else vpn / 512)
  }

  lemma NodeForSteps(vpn: nat)
    requires vpn < PAGES
    ensures NodeFor(2, vpn) == Root && NodeFor(1, vpn) == Child(Root, Index(2, vpn))
    ensures NodeFor(0, vpn) == Child(NodeFor(1, vpn), Index(1, vpn))
  {
    assert vpn / 0x4_0000 == vpn / 512 / 512;
  }

  type Tree = map<Node, nat>

  /** Entries and tree agree: an entry of an upper table is valid exactly if the tree has that child. */
  ghost predicate IsTree(pt: Tables, root: nat, at: Tree) {
    && Root in at && at[Root] == root
    && (forall n :: n in at ==> n.level <= 2 && at[n] in pt && (n.level == 2 ==> n == Root) && (n.level == 1 ==> n.prefix < 256))
    && (forall m, n :: m in at && n in at && at[m] == at[n] ==> m == n)
    && (forall n :: n in at && n.level < 2 ==> Parent(n) in at)
    && (forall n, i :: n in at && n.level > 0 && 0 <= i < ENTRIES ==>
          (PteV(pt[at[n]][i]) <==> Child(n, i) in at)
          && (Child(n, i) in at ==> pt[at[n]][i] == MakePte(at[Child(n, i)], 0)))
    && (forall n, i :: n in at && n.level == 0 && 0 <= i < ENTRIES ==> PteV(pt[at[n]][i]) || pt[at[n]][i] == 0)
  }

  /** The entry for vpn as the tree has it; 0 if the leaf table is not there. */
  function Lookup(pt: Tables, at: Tree, vpn: nat): nat
    requires vpn < PAGES
  {
    var n := NodeFor(0, vpn);
    if n in at && at[n] in pt then pt[at[n]][vpn % 512] else 0
  }

  ghost function PagesOf(at: Tree): (r: set<nat>)
    ensures forall p :: p in r <==> exists n :: n in at && at[n] == p
  {
    set n | n in at :: at[n]
  }

  const ZeroTable: Page512 := EmptyTable()

  function EmptyTable(): (r: Page512)
    ensures forall i :: 0 <= i < ENTRIES ==> r[i] == 0
  {
    seq(ENTRIES, _ => 0)
  }

  // Hanging a new, zeroed table below entry i of node n.
  function Hung(pt: Tables, page: nat, i: nat, child: nat): Tables
    requires page in pt && i < ENTRIES
  {
    pt[child := ZeroTable][page := pt[page][i := MakePte(child, 0)]]
  }

  /** A new table changes no translation. */
  lemma HangTable(pt: Tables, root: nat, at: Tree, n: Node, i: nat, child: nat)
    requires IsTree(pt, root, at) && n in at && n.level > 0 && i < ENTRIES && Child(n, i) !in at && child !in pt
    requires n == Root ==> i < 256
    ensures IsTree(Hung(pt, at[n], i, child), root, at[Child(n, i) := child])
    ensures forall v :: 0 <= v < PAGES ==> Lookup(Hung(pt, at[n], i, child), at[Child(n, i) := child], v) == Lookup(pt, at, v)
  {
    hide Lookup; hide Hung;
    HangTree(pt, root, at, n, i, child);
    forall v | 0 <= v < PAGES
      ensures Lookup(Hung(pt, at[n], i, child), at[Child(n, i) := child], v) == Lookup(pt, at, v)
    {
      HangLookup(pt, root, at, n, i, child, v);
    }
  }

  lemma HangLookup(pt: Tables, root: nat, at: Tree, n: Node, i: nat, child: nat, v: nat)
    requires IsTree(pt, root, at) && n in at && n.level > 0 && i < ENTRIES && Child(n, i) !in at && child !in pt && v < PAGES
    ensures Lookup(Hung(pt, at[n], i, child), at[Child(n, i) := child], v) == Lookup(pt, at, v)
  {
  }

  lemma HangTree(pt: Tables, root: nat, at: Tree, n: Node, i: nat, child: nat)
    requires IsTree(pt, root, at) && n in at && n.level > 0 && i < ENTRIES && Child(n, i) !in at && child !in pt
    requires n == Root ==> i < 256
    ensures IsTree(Hung(pt, at[n], i, child), root, at[Child(n, i) := child])
  {
    hide PteV; hide MakePte;
    var pt', at' := Hung(pt, at[n], i, child), at[Child(n, i) := child];
    assert Parent(Child(n, i)) == n;
    forall m, j | m in at' && m.level > 0 && 0 <= j < ENTRIES
      ensures (PteV(pt'[at'[m]][j]) <==> Child(m, j) in at')
      ensures Child(m, j) in at' ==> pt'[at'[m]][j] == MakePte(at'[Child(m, j)], 0)
    {
      HangEntry(pt, root, at, n, i, child, m, j);
    }
  }

  lemma HangEntry(pt: Tables, root: nat, at: Tree, n: Node, i: nat, child: nat, m: Node, j: nat)
    requires IsTree(pt, root, at) && n in at && n.level > 0 && i < ENTRIES && Child(n, i) !in at && child !in pt
    requires m in at[Child(n, i) := child] && m.level > 0 && j < ENTRIES
    ensures var pt', at' := Hung(pt, at[n], i, child), at[Child(n, i) := child];
      && at'[m] in pt'
      && (PteV(pt'[at'[m]][j]) <==> Child(m, j) in at')
      && (Child(m, j) in at' ==> pt'[at'[m]][j] == MakePte(at'[Child(m, j)], 0))
  {
    ChildInjective(m, j, n, i);
    if m == Child(n, i) {
      NoOrphans(pt, root, at, m, j);
    }
  }

  lemma ChildInjective(m: Node, j: nat, n: Node, i: nat)
    requires m.level > 0 && n.level > 0 && i < ENTRIES && j < ENTRIES
    ensures Child(m, j) == Child(n, i) ==> m == n && j == i
  {
  }

  // A node that is not there has no children.
  lemma NoOrphans(pt: Tables, root: nat, at: Tree, m: Node, j: nat)
    requires IsTree(pt, root, at) && m !in at && 0 < m.level <= 2 && j < ENTRIES
    ensures Child(m, j) !in at
  {
    assert Parent(Child(m, j)) == m;
  }

  // Storing an entry in the leaf table of vpn.
  function Stored(pt: Tables, at: Tree, vpn: nat, pte: nat): Tables
    requires vpn < PAGES && NodeFor(0, vpn) in at && at[NodeFor(0, vpn)] in pt
  {
    var p := at[NodeFor(0, vpn)];
    pt[p := pt[p][vpn % 512 := pte]]
  }

  /** Storing an entry changes the translation of its page and of no other. */
  lemma StoreEntry(pt: Tables, root: nat, at: Tree, vpn: nat, pte: nat)
    requires IsTree(pt, root, at) && vpn < PAGES && NodeFor(0, vpn) in at && (PteV(pte) || pte == 0)
    ensures IsTree(Stored(pt, at, vpn, pte), root, at)
    ensures forall v :: 0 <= v < PAGES ==> Lookup(Stored(pt, at, vpn, pte), at, v) == if v == vpn then pte else Lookup(pt, at, v)
  {
    forall v | 0 <= v < PAGES
      ensures Lookup(Stored(pt, at, vpn, pte), at, v) == if v == vpn then pte else Lookup(pt, at, v)
    {
      if NodeFor(0, v) == NodeFor(0, vpn) && v % 512 == vpn % 512 {
        assert v == v / 512 * 512 + v % 512 && vpn == vpn / 512 * 512 + vpn % 512;
      }
    }
  }

  /** Memory outside a tree does not matter to it. */
  lemma TreeFrame(pt: Tables, pt': Tables, root: nat, at: Tree)
    requires IsTree(pt, root, at)
    requires forall n :: n in at ==> at[n] in pt' && pt'[at[n]] == pt[at[n]]
    ensures IsTree(pt', root, at)
    ensures forall v :: 0 <= v < PAGES ==> Lookup(pt', at, v) == Lookup(pt, at, v)
  {
  }

  // ---------------------------------------------------------------- subtrees

  // The node of a level on the way from m up to the root; m itself if m is that high.
  function Above(m: Node, level: nat): Node
    decreases level - m.level
  {
    if m.level >= level then m else Above(Parent(m), level)
  }

  predicate Under(m: Node, n: Node) { m.level <= n.level && Above(m, n.level) == n }

  lemma {:induction false} AboveStep(m: Node, level: nat)
    requires m.level <= level
    ensures Above(m, level).level == level && Above(m, level + 1) == Parent(Above(m, level))
    decreases level - m.level
  {
    if m.level < level {
      AboveStep(Parent(m), level);
    }
  }

  ghost function PagesUnder(at: Tree, n: Node): (r: set<nat>)
    ensures forall p :: p in r <==> exists m :: m in at && Under(m, n) && at[m] == p
  {
    set m | m in at && Under(m, n) :: at[m]
  }

  // The pages under the first i entries of node n.
  ghost function PagesBelow(at: Tree, n: Node, i: nat): (r: set<nat>)
    ensures forall p :: p in r <==> exists m :: m in at && InFirst(m, n, i) && at[m] == p
  {
    set m | m in at && InFirst(m, n, i) :: at[m]
  }

  predicate InFirst(m: Node, n: Node, i: nat) {
    m.level < n.level && Under(m, n) && Above(m, n.level - 1).prefix % 512 < i
  }

  lemma InNext(m: Node, n: Node, i: nat)
    requires n.level > 0 && i < ENTRIES
    ensures InFirst(m, n, i + 1) <==> InFirst(m, n, i) || Under(m, Child(n, i))
    ensures Under(m, Child(n, i)) ==> !InFirst(m, n, i) && m != n
  {
    if m.level < n.level {
      AboveStep(m, n.level - 1);
      var a := Above(m, n.level - 1);
      assert a.prefix == a.prefix / 512 * 512 + a.prefix % 512;
    }
  }

  lemma InAll(m: Node, n: Node)
    ensures Under(m, n) <==> m == n || InFirst(m, n, ENTRIES)
    ensures !InFirst(m, n, 0)
  {
  }

  lemma PagesNext(at: Tree, n: Node, i: nat)
    requires n.level > 0 && i < ENTRIES
    ensures PagesBelow(at, n, i + 1) == PagesBelow(at, n, i) + PagesUnder(at, Child(n, i))
  {
    hide Above; hide Under; hide InFirst;
    forall m | m in at
      ensures InFirst(m, n, i + 1) <==> InFirst(m, n, i) || Under(m, Child(n, i))
    {
      InNext(m, n, i);
    }
  }

  lemma PagesAll(at: Tree, n: Node)
    requires n in at
    ensures PagesUnder(at, n) == PagesBelow(at, n, ENTRIES) + {at[n]} && PagesBelow(at, n, 0) == {}
  {
    hide Above; hide Under; hide InFirst;
    forall m | m in at ensures (Under(m, n) <==> m == n || InFirst(m, n, ENTRIES)) && !InFirst(m, n, 0) {
      InAll(m, n);
    }
  }

  ghost predicate Rooted(at: Tree) {
    && (forall m, n :: m in at && n in at && at[m] == at[n] ==> m == n)
    && (forall n :: n in at && n.level < 2 ==> Parent(n) in at)
    && (forall n :: n in at ==> n.level <= 2)
  }

  lemma {:induction false} AboveIsThere(at: Tree, m: Node, level: nat)
    requires Rooted(at) && m in at && m.level <= level <= 2
    ensures Above(m, level) in at
    decreases level - m.level
  {
    if m.level < level {
      AboveIsThere(at, Parent(m), level);
    }
  }

  /** The subtree at n is whole and holds no leaf mapping. */
  ghost predicate Emptied(pt: Tables, at: Tree, n: Node) {
    && n in at && Rooted(at)
    && (forall m :: m in at && Under(m, n) ==> at[m] in pt)
    && (forall m, i :: m in at && Under(m, n) && m.level > 0 && 0 <= i < ENTRIES ==>
          (PteV(pt[at[m]][i]) <==> Child(m, i) in at)
          && (Child(m, i) in at ==> pt[at[m]][i] == MakePte(at[Child(m, i)], 0)))
    && (forall m, i :: m in at && Under(m, n) && m.level == 0 && 0 <= i < ENTRIES ==> !PteV(pt[at[m]][i]))
  }

  lemma EmptiedRoot(pt: Tables, root: nat, at: Tree)
    requires IsTree(pt, root, at) && forall v :: 0 <= v < PAGES ==> !PteV(Lookup(pt, at, v))
    ensures Emptied(pt, at, Root) && PagesUnder(at, Root) == PagesOf(at)
  {
    assert Rooted(at);
    forall m | m in at ensures Under(m, Root) {
      AboveIsThere(at, m, 2);
      AboveStep(m, 2);
    }
    forall m, i | m in at && m.level == 0 && 0 <= i < ENTRIES ensures !PteV(pt[at[m]][i]) {
      LeafIndex(pt, root, at, m, i);
      var v := m.prefix * 512 + i;
      assert Lookup(pt, at, v) == pt[at[m]][i];
    }
  }

  lemma LeafIndex(pt: Tables, root: nat, at: Tree, m: Node, i: nat)
    requires IsTree(pt, root, at) && m in at && m.level == 0 && i < ENTRIES
    ensures m.prefix * 512 + i < PAGES && NodeFor(0, m.prefix * 512 + i) == m && (m.prefix * 512 + i) % 512 == i
  {
    var p := Parent(m);
    assert Parent(p) == Root;
  }

  // The child's subtree is emptied too, if the memory it sits in is as it was.
  lemma EmptiedChild(pt: Tables, pt1: Tables, at: Tree, n: Node, i: nat)
    requires Emptied(pt, at, n) && n.level > 0 && i < ENTRIES && Child(n, i) in at
    requires forall p :: p in PagesUnder(at, Child(n, i)) ==> p in pt1 && p in pt && pt1[p] == pt[p]
    ensures Emptied(pt1, at, Child(n, i))
  {
    hide Above;
    forall m | m in at && Under(m, Child(n, i)) ensures Under(m, n) && at[m] in pt1 && pt1[at[m]] == pt[at[m]] {
      AboveStep(m, n.level - 1);
      assert at[m] in PagesUnder(at, Child(n, i));
    }
  }
}
