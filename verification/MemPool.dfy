/** The page allocator: size classes of equal pages, handed out in address order or off a list threaded
    through the pages themselves. */
module MemPool {
  import opened Options

  type Addr = nat

  datatype Mode = Incr | List

  // ---------------------------------------------------------------- layout

  function PageAddr(start: Addr, pageSize: nat, i: nat): Addr {
    start + pageSize * i
  }

  function Pages(start: Addr, pageSize: nat, n: nat): (r: seq<Addr>)
    ensures |r| == n && forall i :: 0 <= i < n ==> r[i] == PageAddr(start, pageSize, i)
  {
    seq(n, i requires 0 <= i => PageAddr(start, pageSize, i))
  }

  function SetOf(s: seq<Addr>): set<Addr> {
    set p | p in s
  }

  lemma {:induction false} LaterPage(start: Addr, pageSize: nat, i: nat, j: nat)
    requires i < j
    ensures PageAddr(start, pageSize, i) + pageSize <= PageAddr(start, pageSize, j)
  {
    assert pageSize * j == pageSize * (j - 1) + pageSize;
    if i < j - 1 {
      LaterPage(start, pageSize, i, j - 1);
    }
  }

  /** Pages stay inside the buffer and do not overlap. */
  lemma PagesApart(start: Addr, pageSize: nat, n: nat, i: nat, j: nat)
    requires i < n && j < n
    ensures start <= PageAddr(start, pageSize, i) && PageAddr(start, pageSize, i) + pageSize <= start + pageSize * n
    ensures i != j ==>
              || PageAddr(start, pageSize, i) + pageSize <= PageAddr(start, pageSize, j)
              || PageAddr(start, pageSize, j) + pageSize <= PageAddr(start, pageSize, i)
  {
    LaterPage(start, pageSize, i, n);
    if i < j {
      LaterPage(start, pageSize, i, j);
    } else if j < i {
      LaterPage(start, pageSize, j, i);
    }
  }

  lemma DistinctPages(start: Addr, pageSize: nat, n: nat)
    requires pageSize > 0
    ensures var p := Pages(start, pageSize, n); forall i, j :: 0 <= i < j < n ==> p[i] != p[j]
  {
    forall i, j | 0 <= i < j < n
      ensures PageAddr(start, pageSize, i) != PageAddr(start, pageSize, j)
    {
      LaterPage(start, pageSize, i, j);
    }
  }

  lemma NextPage(start: Addr, pageSize: nat, i: nat)
    ensures PageAddr(start, pageSize, 0) == start
    ensures PageAddr(start, pageSize, i + 1) == PageAddr(start, pageSize, i) + pageSize
  {
  }

  // ---------------------------------------------------------------- lists threaded through memory

  type Words = map<Addr, Option<Addr>>

  /** Following the first words of the pages from `head` goes through `pages` and ends. */
  ghost predicate Lists(words: Words, head: Option<Addr>, pages: seq<Addr>)
    decreases |pages|
  {
    if pages == [] then head == None
    else head == Some(pages[0]) && pages[0] in words && Lists(words, words[pages[0]], pages[1..])
  }

  lemma {:induction false} ListsElsewhere(words: Words, head: Option<Addr>, pages: seq<Addr>, p: Addr, w: Option<Addr>)
    requires Lists(words, head, pages) && p !in pages
    ensures Lists(words[p := w], head, pages)
    decreases |pages|
  {
    if pages != [] {
      ListsElsewhere(words, words[pages[0]], pages[1..], p, w);
    }
  }

  function First(pages: seq<Addr>): Option<Addr> {
    if pages == [] then None else Some(pages[0])
  }

  lemma {:induction false} ListsChain(words: Words, head: Option<Addr>, pages: seq<Addr>)
    requires head == First(pages)
    requires forall i :: 0 <= i < |pages| ==> pages[i] in words && words[pages[i]] == First(pages[i + 1..])
    ensures Lists(words, head, pages)
    decreases |pages|
  {
    if pages != [] {
      var rest := pages[1..];
      forall i | 0 <= i < |rest|
        ensures rest[i] in words && words[rest[i]] == First(rest[i + 1..])
      {
        assert rest[i] == pages[i + 1] && rest[i + 1..] == pages[i + 2..];
      }
      ListsChain(words, words[pages[0]], rest);
    }
  }

  // ---------------------------------------------------------------- one size class

  class SizeClass {
    const start: Addr
    const pageSize: nat
    const numPages: nat

    /** The first word of each page. */
    var words: Words
    var list: Option<Addr>
    var used: nat

    /** The free list and the pages clients hold, in list mode. */
    ghost var free: seq<Addr>
    ghost var held: set<Addr>

    ghost predicate Allocated()
      reads this
    {
      pageSize > 0 && forall p :: p in Pages(start, pageSize, numPages) ==> p in words
    }

    /** List mode: the pages split into an acyclic free list and the held ones, and the counter knows
        how many those are. */
    ghost predicate Split()
      reads this
    {
      && Allocated()
      && Lists(words, list, free)
      && (forall i, j :: 0 <= i < j < |free| ==> free[i] != free[j])
      && (forall p :: p in Pages(start, pageSize, numPages) <==> p in free || p in held)
      && (forall p :: p in free ==> p !in held)
      && |held| + |free| == numPages
      && used == |held|
    }

    constructor (start: Addr, pageSize: nat, numPages: nat)
      requires pageSize > 0
      ensures this.start == start && this.pageSize == pageSize && this.numPages == numPages
      ensures Allocated() && list == None && used == 0 && free == [] && held == {}
    {
      this.start, this.pageSize, this.numPages := start, pageSize, numPages;
      words := map p | p in Pages(start, pageSize, numPages) :: None;
      list, used := None, 0;
      free, held := [], {};
    }

    /** Stores into the list head, or into the first word of the page the cursor is at. */
    method Store(cursor: Option<Addr>, link: Option<Addr>)
      modifies this`words, this`list
      ensures cursor.None? ==> list == link && words == old(words)
      ensures cursor.Some? ==> list == old(list) && words == old(words)[cursor.value := link]
    {
      match cursor
      case None => list := link;
      case Some(p) => words := words[p := link];
    }

    /** Threads every page, once, in address order, whatever was there before. */
    method BuildLinkedList()
      requires Allocated()
      modifies this`words, this`list, this`free, this`held
      ensures Allocated() && used == old(used)
      ensures free == Pages(start, pageSize, numPages) && held == {}
      ensures Lists(words, list, free)
    {
      hide PageAddr, Lists;
      ghost var all := Pages(start, pageSize, numPages);
      DistinctPages(start, pageSize, numPages);
      NextPage(start, pageSize, 0);
      var cursor: Option<Addr> := None;
      var page := start;
      var i := 0;
      while i < numPages
        invariant 0 <= i <= numPages
        invariant Allocated()
        invariant page == PageAddr(start, pageSize, i)
        invariant cursor == if i == 0 then None else Some(all[i - 1])
        invariant i > 0 ==> list == Some(all[0])
        invariant forall j :: 0 <= j < i - 1 ==> words[all[j]] == Some(all[j + 1])
      {
        NextPage(start, pageSize, i);
        Store(cursor, Some(page));
        cursor := Some(page);
        page := page + pageSize;
        i := i + 1;
      }
      Store(cursor, None);
      free, held := all, {};
      ListsChain(words, list, all);
    }

    /** As after allocation in list mode, but for the counter. */
    ghost predicate Relinked()
      reads this
    {
      && Allocated() && Lists(words, list, free)
      && free == Pages(start, pageSize, numPages) && held == {}
    }

    /** memset and relink: the counter is left alone. */
    method ResetCapacity()
      requires Allocated()
      modifies this`words, this`list, this`free, this`held
      ensures Relinked() && used == old(used)
      ensures Split() <==> used == 0
    {
      words := map p | p in words :: None;
      BuildLinkedList();
      DistinctPages(start, pageSize, numPages);
    }

    /** Only the counter. */
    method ResetCounter()
      modifies this`used
      ensures used == 0
      ensures old(Split()) ==> (Split() <==> held == {})
      ensures old(Relinked()) ==> Relinked() && Split()
    {
      if Relinked() {
        DistinctPages(start, pageSize, numPages);
      }
      used := 0;
    }

    /** Off the list. */
    method GetPage() returns (r: Option<Addr>)
      requires Split()
      modifies this`list, this`used, this`free, this`held
      ensures Split()
      ensures r.None? <==> old(free) == []
      ensures r.None? ==> free == old(free) && held == old(held)
      ensures r.Some? ==> free == old(free)[1..] && held == old(held) + {r.value} && r.value == old(free)[0]
    {
      if list.None? {
        return None;
      }
      r := list;
      list := words[list.value];
      used := used + 1;
      held := held + {free[0]};
      free := free[1..];
    }

    /** Incremental mode, nothing freed since the last reset: the pages handed out are the first `used`
        ones. */
    ghost predicate Bumped()
      reads this
    {
      && Allocated() && used <= numPages
      && held == SetOf(Pages(start, pageSize, numPages)[..used])
    }

    /** By offset. */
    method BumpPage() returns (r: Option<Addr>)
      modifies this`used, this`held
      ensures r.None? <==> old(used) >= numPages
      ensures r.None? ==> used == old(used) && held == old(held)
      ensures r.Some? ==> r.value == PageAddr(start, pageSize, old(used)) && used == old(used) + 1
      ensures r.Some? ==> held == old(held) + {r.value}
      ensures old(Bumped()) ==> Bumped() && (r.Some? ==> r.value !in old(held))
    {
      if used + 1 > numPages {
        return None;
      }
      ghost var all := Pages(start, pageSize, numPages);
      if Bumped() {
        DistinctPages(start, pageSize, numPages);
        assert all[..used + 1] == all[..used] + [all[used]];
      }
      r := Some(start + pageSize * used);
      held := held + {r.value};
      used := used + 1;
    }

    /** Back onto the list, in front.  In incremental mode the counter falls all the same: the page
        handed out next is one still held, unless the last one handed out was freed. */
    method Free(p: Addr)
      requires p in held && p in words && used > 0
      modifies this`words, this`list, this`used, this`free, this`held
      ensures held == old(held) - {p} && used == old(used) - 1 && list == Some(p) && free == [p] + old(free)
      ensures old(Split()) ==> Split()
      ensures old(Bumped()) ==> (NextIsHeld() <==> p != PageAddr(start, pageSize, used))
    {
      if Lists(words, list, free) && p !in free {
        ListsElsewhere(words, list, free, p, list);
      }
      if Bumped() {
        assert Pages(start, pageSize, numPages)[..used][used - 1] == PageAddr(start, pageSize, used - 1);
      }
      words := words[p := list];
      list := Some(p);
      used := used - 1;
      held := held - {p};
      free := [p] + free;
    }

    /** r is a page that nobody held, or there is none left. */
    twostate predicate Gave(new r: Option<Addr>)
      reads this
    {
      && (r.None? <==> |old(held)| == numPages)
      && (r.None? ==> held == old(held))
      && (r.Some? ==> r.value in Pages(start, pageSize, numPages) && r.value !in old(held))
      && (r.Some? ==> held == old(held) + {r.value})
    }

    /** p is the first free page now. */
    twostate predicate Regained(p: Addr)
      reads this
    {
      held == old(held) - {p} && free == [p] + old(free) && list == Some(p) && used == old(used) - 1
    }

    /** The next page by offset is one that somebody holds. */
    ghost predicate NextIsHeld()
      reads this
    {
      PageAddr(start, pageSize, used) in held
    }

    /** A client writes into a page it holds. */
    method Overwrite(p: Addr, word: Option<Addr>)
      requires Split() && p in held
      modifies this`words
      ensures Split() && words == old(words)[p := word]
    {
      ListsElsewhere(words, list, free, p, word);
      words := words[p := word];
    }
  }

  /** Two pages handed out by offset, the first freed: the next request gets the second, still held. */
  method BumpHandsOutHeldPage(start: Addr, pageSize: nat, numPages: nat)
    returns (kept: Addr, next: Option<Addr>, ghost heldThen: set<Addr>)
    requires pageSize > 0 && numPages >= 2
    ensures kept in heldThen && next == Some(kept)
  {
    var c := new SizeClass(start, pageSize, numPages);
    var first := c.BumpPage();
    var second := c.BumpPage();
    c.Free(first.value);
    kept, heldThen := second.value, c.held;
    next := c.BumpPage();
  }

  // ---------------------------------------------------------------- the pool

  datatype PageType = Large | BaseX4 | BaseX2 | Base | SmallX4 | SmallX2 | Small | Tiny

  class Pool {
    const mode: Mode
    const base: SizeClass
    const smallX4: SizeClass
    const smallX2: SizeClass
    const small: SizeClass
    const tiny: SizeClass

    constructor (mode: Mode, base: SizeClass, smallX4: SizeClass, smallX2: SizeClass, small: SizeClass, tiny: SizeClass)
      ensures this.mode == mode && this.base == base && this.smallX4 == smallX4 && this.smallX2 == smallX2
      ensures this.small == small && this.tiny == tiny
    {
      this.mode, this.base, this.smallX4, this.smallX2, this.small, this.tiny :=
        mode, base, smallX4, smallX2, small, tiny;
    }

    predicate Apart() {
      && base !in {smallX4, smallX2, small, tiny} && smallX4 !in {smallX2, small, tiny}
      && smallX2 !in {small, tiny} && small != tiny
    }

    /** Types without a class of their own share the base pages. */
    function Of(t: PageType): SizeClass {
      match t
      case SmallX4 => smallX4
      case SmallX2 => smallX2
      case Small => small
      case Tiny => tiny
      case _ => base
    }

    ghost predicate Ok(c: SizeClass)
      reads c
    {
      match mode
      case List => c.Split()
      case Incr => c.Bumped()
    }

    twostate predicate OthersIdle(c: SizeClass)
      reads Classes()
    {
      forall d :: d in Classes() && d != c ==> unchanged(d)
    }

    /** A page nobody holds, as long as there is one, of the size asked for; the other size classes are
        left alone. */
    method Page(t: PageType) returns (r: Option<Addr>)
      requires Ok(Of(t))
      modifies Of(t)
      ensures Ok(Of(t))
      ensures t.SmallX4? ==> smallX4.Gave(r) && OthersIdle(smallX4)
      ensures t.SmallX2? ==> smallX2.Gave(r) && OthersIdle(smallX2)
      ensures t.Small? ==> small.Gave(r) && OthersIdle(small)
      ensures t.Tiny? ==> tiny.Gave(r) && OthersIdle(tiny)
      ensures t.Large? || t.BaseX4? || t.BaseX2? || t.Base? ==> base.Gave(r) && OthersIdle(base)
    {
      hide SizeClass.Gave, Ok;
      r := PageOf(Of(t));
    }

    method PageOf(c: SizeClass) returns (r: Option<Addr>)
      requires Ok(c)
      modifies c
      ensures Ok(c) && c.Gave(r)
    {
      HeldCounted(c, mode);
      if mode.List? {
        r := c.GetPage();
      } else {
        r := c.BumpPage();
        if r.Some? {
          assert Pages(c.start, c.pageSize, c.numPages)[c.used - 1] == r.value;
        }
      }
    }

    /** Back to the size class it is of, in either mode; the others are left alone. */
    method Free(t: PageType, p: Addr)
      requires Ok(Of(t)) && p in Of(t).held
      modifies Of(t)
      ensures t.SmallX4? ==> smallX4.Regained(p) && OthersIdle(smallX4)
      ensures t.SmallX2? ==> smallX2.Regained(p) && OthersIdle(smallX2)
      ensures t.Small? ==> small.Regained(p) && OthersIdle(small)
      ensures t.Tiny? ==> tiny.Regained(p) && OthersIdle(tiny)
      ensures t.Large? || t.BaseX4? || t.BaseX2? || t.Base? ==> base.Regained(p) && OthersIdle(base)
      ensures mode.List? ==> Ok(Of(t))
      ensures mode.Incr? ==> (Of(t).NextIsHeld() <==> p != PageAddr(Of(t).start, Of(t).pageSize, Of(t).used))
    {
      HeldCounted(Of(t), mode);
      assert Of(t).held != {};
      Of(t).Free(p);
    }

    ghost function Classes(): set<SizeClass> {
      {base, smallX4, smallX2, small, tiny}
    }

    /** Zeroes the counters, the one of the small pages twice. */
    method Reset()
      requires Apart()
      modifies base`used, smallX4`used, smallX2`used, small`used, tiny`used
      ensures forall c :: c in Classes() ==> c.used == 0
      ensures forall c :: c in Classes() && old(c.Relinked()) ==> c.Relinked() && c.Split()
    {
      hide SizeClass.Relinked, SizeClass.Split;
      base.ResetCounter();
      smallX4.ResetCounter();
      smallX2.ResetCounter();
      small.ResetCounter();
      small.ResetCounter();
      tiny.ResetCounter();
    }

    /** Clears and relinks all pages; followed by Reset it leaves every class as allocated. */
    method ResetCapacity()
      requires Apart() && forall c :: c in Classes() ==> c.Allocated()
      modifies Classes()
      ensures forall c :: c in Classes() ==> c.Relinked() && c.used == old(c.used) && (c.Split() <==> c.used == 0)
    {
      hide SizeClass.Relinked, SizeClass.Split;
      base.ResetCapacity();
      smallX4.ResetCapacity();
      smallX2.ResetCapacity();
      small.ResetCapacity();
      tiny.ResetCapacity();
    }
  }

  /** In both modes the counter is the number of pages held. */
  lemma HeldCounted(c: SizeClass, mode: Mode)
    requires match mode { case List => c.Split() case Incr => c.Bumped() }
    ensures c.used == |c.held|
  {
    if mode.Incr? {
      var all := Pages(c.start, c.pageSize, c.numPages);
      DistinctPages(c.start, c.pageSize, c.numPages);
      SetOfDistinct(all[..c.used]);
    }
  }

  lemma {:induction false} SetOfDistinct(s: seq<Addr>)
    requires forall i, j :: 0 <= i < j < |s| ==> s[i] != s[j]
    ensures |SetOf(s)| == |s|
  {
    if s != [] {
      var n := |s| - 1;
      SetOfDistinct(s[..n]);
      assert SetOf(s) == SetOf(s[..n]) + {s[n]};
    }
  }
}
