/** The page allocator and the growth of its memory-mapped file
    (`src/stx/io/pagemanager.cc`). */
module Pages {
  import opened Text

  datatype Page = Page(offset: nat, size: nat) {
    function End(): nat { offset + size }
    predicate Holds(b: nat) { offset <= b < offset + size }
  }

  // ----------------------------------------------------------------- the allocator

  datatype Manager = Manager(blockSize: nat, endPos: nat, freelist: seq<Page>)

  function Times(k: nat, b: nat): nat { k * b }

  ghost predicate Multiple(n: nat, b: nat) { exists k: nat :: n == Times(k, b) }

  /** `n / b * b`. */
  function Floor(n: nat, b: nat): (r: nat)
    requires b > 0
    ensures r <= n < r + b && Multiple(r, b)
  {
    var k := n / b;
    assert n == b * k + n % b;
    Times(k, b)
  }

  /** The next multiple of the block size, in 64-bit arithmetic. */
  function Aligned(blockSize: nat, minSize: nat): nat
    requires blockSize > 0
  {
    Floor(Wrap(minSize + blockSize - 1), blockSize)
  }

  /** The aligned size covers the request exactly when the sum does not wrap. */
  lemma AlignedCovers(blockSize: nat, minSize: nat)
    requires 0 < blockSize < TWO64 && minSize < TWO64
    ensures Aligned(blockSize, minSize) >= minSize <==> minSize + blockSize - 1 < TWO64
    ensures Multiple(Aligned(blockSize, minSize), blockSize) && Aligned(blockSize, minSize) < minSize + blockSize
  {
    var n := minSize + blockSize - 1;
    if n >= TWO64 { assert Wrap(n) == n - TWO64; }
  }

  /** The first free page that is large enough. */
  function FirstFit(free: seq<Page>, minSize: nat): (i: nat)
    ensures i <= |free|
    ensures i < |free| ==> free[i].size >= minSize
    ensures forall j :: 0 <= j < i ==> free[j].size < minSize
  {
    if free == [] || free[0].size >= minSize then 0 else 1 + FirstFit(free[1..], minSize)
  }

  function Alloc(m: Manager, minSize: nat): (Manager, Page)
    requires m.blockSize > 0
  {
    var n := Aligned(m.blockSize, minSize);
    var i := FirstFit(m.freelist, n);
    if i < |m.freelist| then (m.(freelist := m.freelist[..i] + m.freelist[i + 1..]), m.freelist[i])
    else (m.(endPos := Wrap(m.endPos + n)), Page(m.endPos, n))
  }

  function Free(m: Manager, page: Page): Manager { m.(freelist := m.freelist + [page]) }

  class PageManager {
    const blockSize: nat
    var endPos: nat
    var freelist: seq<Page>

    function View(): Manager
      reads this
    {
      Manager(blockSize, endPos, freelist)
    }

    constructor (block: nat, end: nat)
      ensures View() == Manager(block, end, [])
    {
      blockSize := block;
      endPos := end;
      freelist := [];
    }

    method AllocPage(minSize: nat) returns (page: Page)
      requires blockSize > 0
      modifies this
      ensures (View(), page) == Alloc(old(View()), minSize)
    {
      var minSizeAligned := Floor(Wrap(minSize + blockSize - 1), blockSize);
      var found := FindFreePage(minSizeAligned);
      if found.Some? { return found.value; }
      page := Page(endPos, minSizeAligned);
      endPos := Wrap(endPos + page.size);
    }

    method FreePage(page: Page)
      modifies this
      ensures View() == Free(old(View()), page)
    {
      freelist := freelist + [page];
    }

    method FindFreePage(minSize: nat) returns (page: Option<Page>)
      modifies this
      ensures var i := FirstFit(old(freelist), minSize);
        if i < |old(freelist)| then
          page == Some(old(freelist)[i])
          && View() == old(View()).(freelist := old(freelist)[..i] + old(freelist)[i + 1..])
        else page == None && View() == old(View())
    {
      var iter := 0;
      while iter < |freelist|
        invariant 0 <= iter <= |freelist| && View() == old(View())
        invariant forall j :: 0 <= j < iter ==> freelist[j].size < minSize
      {
        if freelist[iter].size >= minSize {
          assert FirstFit(freelist, minSize) == iter;
          page := Some(freelist[iter]);
          freelist := freelist[..iter] + freelist[iter + 1..];
          return;
        }
        iter := iter + 1;
      }
      page := None;
    }
  }

  // ------------------------------------------------------------------- histories

  datatype Op = AllocOp(minSize: nat) | FreeOp(page: Page)

  /** The allocator and the pages its callers hold. */
  datatype System = System(m: Manager, live: multiset<Page>)

  /** What a caller must see to: pages are freed once, sizes stay below 2^64, and so does
      the end position where an allocation moves it. */
  predicate Proper(y: System, op: Op) {
    match op
    case AllocOp(n) =>
      0 < y.m.blockSize < TWO64 && n + y.m.blockSize - 1 < TWO64 &&
      (FirstFit(y.m.freelist, Aligned(y.m.blockSize, n)) < |y.m.freelist|
       || y.m.endPos + Aligned(y.m.blockSize, n) < TWO64)
    case FreeOp(page) => page in y.live
  }

  function Next(y: System, op: Op): System
    requires Proper(y, op)
  {
    match op
    case AllocOp(n) => var (m, page) := Alloc(y.m, n); System(m, y.live + multiset{page})
    case FreeOp(page) => System(Free(y.m, page), y.live - multiset{page})
  }

  function All(y: System): multiset<Page> { y.live + multiset(y.m.freelist) }

  /** No byte is in two pages; only empty pages can be equal. */
  ghost predicate Disjoint(ps: multiset<Page>) {
    (forall p, q :: p in ps && q in ps && p != q ==> p.End() <= q.offset || q.End() <= p.offset) &&
    (forall p :: ps[p] > 1 ==> p.size == 0)
  }

  ghost predicate HeldBy(ps: multiset<Page>, b: nat) { exists p :: p in ps && p.Holds(b) }

  /** Live and free pages together tile the bytes from `start` to the end position. */
  ghost predicate Tiled(y: System, start: nat) {
    start <= y.m.endPos && Disjoint(All(y)) &&
    (forall p :: p in All(y) ==> start <= p.offset && p.End() <= y.m.endPos) &&
    (forall b: nat :: start <= b < y.m.endPos ==> HeldBy(All(y), b))
  }

  ghost predicate Blocks(y: System) {
    y.m.blockSize > 0 && forall p :: p in All(y) ==> Multiple(p.size, y.m.blockSize)
  }

  lemma Taken(free: seq<Page>, i: nat)
    requires i < |free|
    ensures multiset(free) == multiset(free[..i] + free[i + 1..]) + multiset{free[i]}
  {
    assert free == free[..i] + [free[i]] + free[i + 1..];
  }

  /** What an allocation returns is large enough. */
  lemma AllocSize(y: System, n: nat)
    requires Blocks(y) && Proper(y, AllocOp(n))
    ensures var page := Alloc(y.m, n).1; page.size >= n && Multiple(page.size, y.m.blockSize)
  {
    AlignedCovers(y.m.blockSize, n);
    var i := FirstFit(y.m.freelist, Aligned(y.m.blockSize, n));
    if i < |y.m.freelist| { assert y.m.freelist[i] in All(y); }
  }

  lemma AllocKeeps(y: System, n: nat, start: nat)
    requires Tiled(y, start) && Blocks(y) && Proper(y, AllocOp(n))
    ensures var y' := Next(y, AllocOp(n)); Tiled(y', start) && Blocks(y')
  {
    AllocCases(y, n);
    AlignedCovers(y.m.blockSize, n);
    var size := Aligned(y.m.blockSize, n);
    var i := FirstFit(y.m.freelist, size);
    if i < |y.m.freelist| {
      Reused(y, i, Next(y, AllocOp(n)), start);
    } else {
      Fresh(y, size, Next(y, AllocOp(n)), start);
    }
  }

  /** A page from the free list, or a new one at the end. */
  lemma AllocCases(y: System, n: nat)
    requires Proper(y, AllocOp(n))
    ensures var y', free, size := Next(y, AllocOp(n)), y.m.freelist, Aligned(y.m.blockSize, n);
      var i := FirstFit(free, size);
      y' == if i < |free| then System(y.m.(freelist := free[..i] + free[i + 1..]), y.live + multiset{free[i]})
            else System(y.m.(endPos := y.m.endPos + size), y.live + multiset{Page(y.m.endPos, size)})
  {
  }

  lemma Fresh(y: System, size: nat, y': System, start: nat)
    requires Tiled(y, start) && Blocks(y) && Multiple(size, y.m.blockSize)
    requires y' == System(y.m.(endPos := y.m.endPos + size), y.live + multiset{Page(y.m.endPos, size)})
    ensures Tiled(y', start) && Blocks(y')
  {
    var page := Page(y.m.endPos, size);
    assert All(y') == All(y) + multiset{page};
    Extended(y, y', page, start);
  }

  lemma Reused(y: System, i: nat, y': System, start: nat)
    requires Tiled(y, start) && Blocks(y) && i < |y.m.freelist|
    requires var free := y.m.freelist;
      y' == System(y.m.(freelist := free[..i] + free[i + 1..]), y.live + multiset{free[i]})
    ensures Tiled(y', start) && Blocks(y') && Multiple(y.m.freelist[i].size, y.m.blockSize)
  {
    Taken(y.m.freelist, i);
    assert All(y') == All(y);
    assert y.m.freelist[i] in All(y);
  }

  lemma Extended(y: System, y': System, page: Page, start: nat)
    requires Tiled(y, start) && Blocks(y) && Multiple(page.size, y.m.blockSize)
    requires page.offset == y.m.endPos && y'.m.endPos == page.End() && y'.m.blockSize == y.m.blockSize
    requires All(y') == All(y) + multiset{page}
    ensures Tiled(y', start) && Blocks(y')
  {
    forall b: nat | start <= b < y'.m.endPos ensures HeldBy(All(y'), b) {
      if b < y.m.endPos {
        assert HeldBy(All(y), b);
        var p :| p in All(y) && p.Holds(b);
        assert p in All(y');
      } else {
        assert page in All(y') && page.Holds(b);
      }
    }
  }

  lemma FreeKeeps(y: System, page: Page, start: nat)
    requires Tiled(y, start) && Blocks(y) && page in y.live
    ensures var y' := Next(y, FreeOp(page)); Tiled(y', start) && Blocks(y')
  {
    assert All(Next(y, FreeOp(page))) == All(y);
  }

  /** The state after a history, if each of its operations was proper. */
  function Run(ops: seq<Op>, blockSize: nat, start: nat): Option<System> {
    if ops == [] then Some(System(Manager(blockSize, start, []), multiset{})) else
      match Run(ops[..|ops| - 1], blockSize, start)
      case None => None
      case Some(y) => var op := ops[|ops| - 1]; if Proper(y, op) then Some(Next(y, op)) else None
  }

  lemma {:induction false} RunTiles(ops: seq<Op>, blockSize: nat, start: nat)
    requires blockSize > 0 && Run(ops, blockSize, start).Some?
    ensures var y := Run(ops, blockSize, start).value; Tiled(y, start) && Blocks(y)
  {
    if ops != [] {
      var less, op := ops[..|ops| - 1], ops[|ops| - 1];
      RunTiles(less, blockSize, start);
      match op {
        case AllocOp(n) => AllocKeeps(Run(less, blockSize, start).value, n, start);
        case FreeOp(page) => FreeKeeps(Run(less, blockSize, start).value, page, start);
      }
    }
  }

  /** Two pages in use share no byte, and none shares one with the free list. */
  lemma LivePagesApart(ops: seq<Op>, blockSize: nat, start: nat, p: Page, q: Page, b: nat)
    requires blockSize > 0 && Run(ops, blockSize, start).Some?
    requires var y := Run(ops, blockSize, start).value; p in y.live && p.Holds(b) && q.Holds(b)
    ensures var y := Run(ops, blockSize, start).value;
      q !in y.m.freelist && (q in y.live ==> q == p && y.live[p] == 1)
  {
    RunTiles(ops, blockSize, start);
    var y := Run(ops, blockSize, start).value;
    assert p in All(y) && (q in y.live ==> q in All(y)) && (q in y.m.freelist ==> q in All(y));
    assert All(y)[p] <= 1;
  }

  // ------------------------------------------------------------- the mapped file

  /** `mapping`: the size of the current mapping, if there is one. */
  datatype Mapped = Mapped(fileSize: nat, usedBytes: nat, mapping: Option<nat>)

  const MULTIPLIER := 128

  /** `getPageImpl` and `getMmappedFile`: the new state and the size of the page's mapping. */
  function GotPage(f: Mapped, page: Page, padded: bool, sysPage: nat): (Mapped, nat)
    requires sysPage > 0
  {
    var last := page.End();
    var used := if last > f.usedBytes then last else f.usedBytes;
    var block := sysPage * MULTIPLIER;
    var size := if last <= f.fileSize then f.fileSize else if padded then (last / block + 1) * block else last;
    var mapping := if f.mapping.None? || last > f.mapping.value then size else f.mapping.value;
    (Mapped(size, used, Some(mapping)), mapping)
  }

  function Shrunk(f: Mapped): Mapped { f.(fileSize := f.usedBytes) }

  class MmapPageManager {
    const sysPageSize: nat
    /** The size of the file itself. */
    var disk: nat
    var fileSize: nat
    var usedBytes: nat
    var currentMapping: Option<nat>

    ghost predicate Valid() reads this { sysPageSize > 0 && disk == fileSize }

    function View(): Mapped
      reads this
    {
      Mapped(fileSize, usedBytes, currentMapping)
    }

    constructor (size: nat, page: nat)
      requires page > 0
      ensures Valid() && View() == Mapped(size, size, None) && sysPageSize == page
    {
      sysPageSize := page;
      disk, fileSize, usedBytes, currentMapping := size, size, size, None;
    }

    method ShrinkFile()
      requires Valid()
      modifies this
      ensures Valid() && View() == Shrunk(old(View()))
    {
      disk := usedBytes;
      fileSize := usedBytes;
    }

    method GetPage(page: Page, allowPadding: bool) returns (mapping: nat)
      requires Valid()
      modifies this
      ensures Valid() && (View(), mapping) == GotPage(old(View()), page, allowPadding, sysPageSize)
    {
      var lastByte := page.offset + page.size;
      if lastByte > usedBytes { usedBytes := lastByte; }
      if lastByte > fileSize {
        var newSize := lastByte;
        if allowPadding {
          var mmapBlockSize := sysPageSize * MULTIPLIER;
          newSize := (lastByte / mmapBlockSize + 1) * mmapBlockSize;
        }
        disk := newSize;
        fileSize := newSize;
      }
      if currentMapping.None? || lastByte > currentMapping.value { currentMapping := Some(disk); }
      mapping := currentMapping.value;
    }
  }

  datatype FileOp = GetOp(page: Page, padded: bool) | ShrinkOp

  /** The file, and every page handed out with the size of its mapping. */
  datatype FileRun = FileRun(f: Mapped, handed: seq<(Page, nat)>)

  function RunFile(ops: seq<FileOp>, size: nat, sysPage: nat): FileRun
    requires sysPage > 0
  {
    if ops == [] then FileRun(Mapped(size, size, None), []) else
      var y := RunFile(ops[..|ops| - 1], size, sysPage);
      match ops[|ops| - 1]
      case ShrinkOp => y.(f := Shrunk(y.f))
      case GetOp(page, padded) =>
        var (f, mapping) := GotPage(y.f, page, padded, sysPage);
        FileRun(f, y.handed + [(page, mapping)])
  }

  ghost predicate Covered(y: FileRun) {
    y.f.usedBytes <= y.f.fileSize &&
    forall i :: 0 <= i < |y.handed| ==>
      y.handed[i].0.End() <= y.f.usedBytes && y.handed[i].0.End() <= y.handed[i].1
  }

  lemma NextBlock(last: nat, block: nat)
    requires block > 0
    ensures (last / block + 1) * block > last
  {
    assert last == block * (last / block) + last % block;
    assert (last / block + 1) * block == block * (last / block) + block;
  }

  /** A page beyond the end of the file makes it longer: as far as the page, or, padded, to the
      least multiple of 128 system pages beyond it.  Otherwise the file stays as it is. */
  lemma FileGrows(f: Mapped, page: Page, padded: bool, sysPage: nat)
    requires sysPage > 0
    ensures var size := GotPage(f, page, padded, sysPage).0.fileSize;
      if page.End() <= f.fileSize then size == f.fileSize
      else if !padded then size == page.End()
      else Multiple(size, 128 * sysPage) && page.End() < size <= page.End() + 128 * sysPage
  {
    var block := sysPage * MULTIPLIER;
    var k := page.End() / block;
    assert k * block <= page.End() < Times(k + 1, block);
  }

  /** After any history, shrinking included, every page ever handed out ends within the file
      and within its own mapping. */
  lemma {:induction false} FileCovers(ops: seq<FileOp>, size: nat, sysPage: nat)
    requires sysPage > 0
    ensures Covered(RunFile(ops, size, sysPage))
  {
    if ops != [] {
      FileCovers(ops[..|ops| - 1], size, sysPage);
      match ops[|ops| - 1] {
        case ShrinkOp =>
        case GetOp(page, padded) => NextBlock(page.End(), sysPage * MULTIPLIER);
      }
    }
  }
}
