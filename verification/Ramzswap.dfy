/**
 ramzswap (ramzswap.c): a swap device that keeps compressed pages in memory, with an optional backing
 device behind it.  The table, the allocator and the backing device together stand for an array of pages.
 */
module Ramzswap {

  const PAGE_SIZE := 4096
  const WORDS := 512
  const SECTORS_PER_PAGE := 8
  const WORD_MOD := 0x1_0000_0000

  /** A page as the 64-bit words the zero test looks at. */
  type Page = seq<nat>

  function ZeroPage(): Page {
    seq(WORDS, _ => 0)
  }

  /** struct table: flags are RZS_UNCOMPRESSED and RZS_ZERO. */
  datatype Slot = Slot(pagenum: nat, offset: nat, uncompressed: bool, zero: bool)

  const EMPTY := Slot(0, 0, false, false)
  const ZEROED := Slot(0, 0, false, true)

  /** What can be allocated: a whole page, or an object inside a page of the pool. */
  datatype Place = Raw(pfn: nat) | Obj(pagenum: nat, offset: nat)

  /** What is kept in a place: a page as it is, or clen bytes that decompress to it. */
  datatype Stored = Plain(page: Page) | Packed(page: Page, clen: nat)

  function PlaceOf(s: Slot): Place {
    if s.uncompressed then Raw(s.pagenum) else Obj(s.pagenum, s.offset)
  }

  predicate SlotOk(s: Slot, mem: map<Place, Stored>, maxCpage: nat) {
    && (s.zero ==> s.pagenum == 0)
    && (s.pagenum == 0 ==> s.offset == 0 && !s.uncompressed)
    && (s.pagenum != 0 ==> PlaceOf(s) in mem)
    && (s.pagenum != 0 && s.uncompressed ==> mem[PlaceOf(s)].Plain?)
    && (s.pagenum != 0 && !s.uncompressed ==> mem[PlaceOf(s)].Packed? && mem[PlaceOf(s)].clen <= maxCpage)
  }

  predicate Owns(t: seq<Slot>, i: nat, p: Place) {
    i < |t| && t[i].pagenum != 0 && PlaceOf(t[i]) == p
  }

  /** Live allocations are exactly those the table names, each named once. */
  ghost predicate Owned(t: seq<Slot>, mem: map<Place, Stored>, maxCpage: nat) {
    && (forall i :: 0 <= i < |t| ==> SlotOk(t[i], mem, maxCpage))
    && (forall i: nat, j: nat, p :: Owns(t, i, p) && Owns(t, j, p) ==> i == j)
    && (forall p :: p in mem ==> exists i: nat :: Owns(t, i, p))
  }

  /** The page a read of slot i hands back. */
  function Contents(t: seq<Slot>, mem: map<Place, Stored>, backing: bool, disk: seq<Page>, i: nat): Page {
    if i >= |t| || t[i].zero then ZeroPage()
    else if t[i].pagenum == 0 then (if backing && i < |disk| then disk[i] else ZeroPage())
    else if PlaceOf(t[i]) in mem then mem[PlaceOf(t[i])].page
    else ZeroPage()
  }

  lemma EmptySlot(t: seq<Slot>, mem: map<Place, Stored>, m: nat, i: nat)
    requires Owned(t, mem, m) && i < |t| && t[i].pagenum != 0
    ensures Owned(t[i := EMPTY], mem - {PlaceOf(t[i])}, m)
  {
    var u, rest := t[i := EMPTY], mem - {PlaceOf(t[i])};
    assert Owns(t, i, PlaceOf(t[i]));
    forall j, p | Owns(u, j, p) ensures j != i && Owns(t, j, p) {}
    forall j | 0 <= j < |u| ensures SlotOk(u[j], rest, m) {
      if j != i && t[j].pagenum != 0 { assert Owns(t, j, PlaceOf(t[j])); }
    }
    forall p | p in rest ensures exists j: nat :: Owns(u, j, p) {
      var j: nat :| Owns(t, j, p);
      assert Owns(u, j, p);
    }
  }

  lemma FillSlot(t: seq<Slot>, mem: map<Place, Stored>, m: nat, i: nat, s: Slot, d: Stored)
    requires Owned(t, mem, m) && i < |t| && t[i].pagenum == 0
    requires s.pagenum != 0 && !s.zero && PlaceOf(s) !in mem
    requires if s.uncompressed then d.Plain? else d.Packed? && d.clen <= m
    ensures Owned(t[i := s], mem[PlaceOf(s) := d], m)
  {
    var u, more := t[i := s], mem[PlaceOf(s) := d];
    forall j: nat, p | Owns(u, j, p) ensures if j == i then p == PlaceOf(s) else Owns(t, j, p) && p in mem {}
    forall p | p in more ensures exists j: nat :: Owns(u, j, p) {
      if p == PlaceOf(s) {
        assert Owns(u, i, p);
      } else {
        var j: nat :| Owns(t, j, p);
        assert Owns(u, j, p);
      }
    }
  }

  /** The counters of struct ramzswap_stats that describe what is stored. */
  datatype Stats = Stats(comprSize: int, pagesStored: int, pagesExpand: int, pagesZero: int, goodCompress: int) {
    function Plus(o: Stats): Stats {
      Stats(comprSize + o.comprSize, pagesStored + o.pagesStored, pagesExpand + o.pagesExpand,
            pagesZero + o.pagesZero, goodCompress + o.goodCompress)
    }

    function Minus(o: Stats): Stats {
      Stats(comprSize - o.comprSize, pagesStored - o.pagesStored, pagesExpand - o.pagesExpand,
            pagesZero - o.pagesZero, goodCompress - o.goodCompress)
    }

    /** The counters as unsigned 32-bit words. */
    function Wrapped(): Stats {
      Stats(comprSize % WORD_MOD, pagesStored % WORD_MOD, pagesExpand % WORD_MOD,
            pagesZero % WORD_MOD, goodCompress % WORD_MOD)
    }
  }

  const NOTHING := Stats(0, 0, 0, 0, 0)
  const ONE_ZERO := Stats(0, 0, 0, 1, 0)
  const ONE_RAW := Stats(PAGE_SIZE, 1, 1, 0, 0)

  function OnePacked(clen: nat): Stats {
    Stats(clen, 1, 0, 0, if clen < PAGE_SIZE / 2 + 1 then 1 else 0)
  }

  /** What one slot contributes to a recount. */
  function Held(s: Slot, mem: map<Place, Stored>): Stats {
    if s.pagenum == 0 then (if s.zero then ONE_ZERO else NOTHING)
    else if s.uncompressed then ONE_RAW
    else if PlaceOf(s) in mem && mem[PlaceOf(s)].Packed? then OnePacked(mem[PlaceOf(s)].clen)
    else OnePacked(0)
  }

  function Recount(t: seq<Slot>, mem: map<Place, Stored>): Stats {
    if t == [] then NOTHING else Held(t[0], mem).Plus(Recount(t[1..], mem))
  }

  lemma {:induction false} RecountAt(t: seq<Slot>, mem: map<Place, Stored>, u: seq<Slot>, rest: map<Place, Stored>,
                                i: nat)
    requires i < |t| == |u|
    requires forall j :: 0 <= j < |t| && j != i ==> Held(u[j], rest) == Held(t[j], mem)
    ensures Recount(u, rest) == Recount(t, mem).Minus(Held(t[i], mem)).Plus(Held(u[i], rest))
  {
    hide Held;
    if i > 0 {
      RecountAt(t[1..], mem, u[1..], rest, i - 1);
    } else {
      RecountSame(t[1..], mem, u[1..], rest);
    }
  }

  lemma {:induction false} RecountSame(t: seq<Slot>, mem: map<Place, Stored>, u: seq<Slot>, rest: map<Place, Stored>)
    requires |t| == |u| && forall j :: 0 <= j < |t| ==> Held(u[j], rest) == Held(t[j], mem)
    ensures Recount(u, rest) == Recount(t, mem)
  {
    hide Held;
    if t != [] { RecountSame(t[1..], mem, u[1..], rest); }
  }

  lemma {:induction false} RecountLast(t: seq<Slot>, mem: map<Place, Stored>)
    requires t != []
    ensures Recount(t, mem) == Recount(t[..|t| - 1], mem).Plus(Held(t[|t| - 1], mem))
  {
    hide Held;
    if |t| == 1 {
      assert t[1..] == [] && t[..0] == [];
    } else {
      RecountLast(t[1..], mem);
      assert t[1..][..|t| - 2] == t[..|t| - 1][1..];
    }
  }

  predicate Good(s: Slot, mem: map<Place, Stored>) {
    s.pagenum != 0 && !s.uncompressed && PlaceOf(s) in mem && mem[PlaceOf(s)].Packed? && mem[PlaceOf(s)].clen <= 2048
  }

  datatype Kind = Zero | Stores | StoresRaw | StoresGood

  /** The slots flagged zero, holding a page, holding a raw one, and holding one compressed by half. */
  ghost predicate IsKind(s: Slot, mem: map<Place, Stored>, kind: Kind) {
    match kind
    case Zero => s.zero
    case Stores => s.pagenum != 0
    case StoresRaw => s.uncompressed
    case StoresGood => Good(s, mem)
  }

  function Counter(r: Stats, kind: Kind): int {
    match kind
    case Zero => r.pagesZero
    case Stores => r.pagesStored
    case StoresRaw => r.pagesExpand
    case StoresGood => r.goodCompress
  }

  ghost function OfKind(t: seq<Slot>, mem: map<Place, Stored>, kind: Kind): set<nat> {
    set i: nat | i < |t| && IsKind(t[i], mem, kind)
  }

  lemma HeldCounts(s: Slot, mem: map<Place, Stored>, m: nat, kind: Kind)
    requires SlotOk(s, mem, m)
    ensures Counter(Held(s, mem), kind) == if IsKind(s, mem, kind) then 1 else 0
  {
  }

  /** The counters of a recount are the numbers of those slots. */
  lemma {:induction false} RecountMeans(t: seq<Slot>, mem: map<Place, Stored>, m: nat, kind: Kind)
    requires forall i :: 0 <= i < |t| ==> SlotOk(t[i], mem, m)
    ensures Counter(Recount(t, mem), kind) == |OfKind(t, mem, kind)|
  {
    hide Recount, Held, IsKind, OfKind;
    if t == [] {
      NoneOfKind(mem, kind);
    } else {
      var n := |t| - 1;
      RecountLast(t, mem);
      HeldCounts(t[n], mem, m, kind);
      RecountMeans(t[..n], mem, m, kind);
      OfKindNext(t, mem, kind);
    }
  }

  lemma NoneOfKind(mem: map<Place, Stored>, kind: Kind)
    ensures |OfKind([], mem, kind)| == 0 && Counter(Recount([], mem), kind) == 0
  {
    assert OfKind([], mem, kind) == {};
  }

  lemma OfKindNext(t: seq<Slot>, mem: map<Place, Stored>, kind: Kind)
    requires t != []
    ensures var n := |t| - 1;
            |OfKind(t, mem, kind)| == |OfKind(t[..n], mem, kind)| + if IsKind(t[n], mem, kind) then 1 else 0
  {
    hide IsKind;
    var n := |t| - 1;
    var a, b := OfKind(t[..n], mem, kind), OfKind(t, mem, kind);
    forall i: nat ensures i in b <==> i in a || (i == n && IsKind(t[n], mem, kind)) {
      if i < n { assert t[..n][i] == t[i]; }
    }
    assert n !in a;
    hide OfKind;
    if IsKind(t[n], mem, kind) { assert b == a + {n}; } else { assert b == a; }
  }

  /** A raw page counts as a page, a packed one as what it was compressed to, an empty or zero slot as nothing. */
  lemma HeldBytes(s: Slot, mem: map<Place, Stored>, m: nat)
    requires SlotOk(s, mem, m)
    ensures Held(s, mem).comprSize ==
            if s.pagenum == 0 then 0 else match mem[PlaceOf(s)] case Plain(_) => 4096 case Packed(_, clen) => clen
  {
  }

  /** The counters were started at zero with the header page already in slot 0, so they are one raw page short. */
  ghost predicate Books(t: seq<Slot>, mem: map<Place, Stored>, stats: Stats) {
    stats == Recount(t, mem).Minus(ONE_RAW).Wrapped()
  }

  lemma WrappedPlus(a: Stats, out: Stats, put: Stats)
    ensures a.Wrapped().Minus(out).Plus(put).Wrapped() == a.Minus(out).Plus(put).Wrapped()
  {
    WordPlus(a.comprSize, put.comprSize - out.comprSize);
    WordPlus(a.pagesStored, put.pagesStored - out.pagesStored);
    WordPlus(a.pagesExpand, put.pagesExpand - out.pagesExpand);
    WordPlus(a.pagesZero, put.pagesZero - out.pagesZero);
    WordPlus(a.goodCompress, put.goodCompress - out.goodCompress);
  }

  lemma WordPlus(a: int, d: int)
    ensures (a % WORD_MOD + d) % WORD_MOD == (a + d) % WORD_MOD
  {
  }

  lemma BooksChange(t: seq<Slot>, mem: map<Place, Stored>, u: seq<Slot>, rest: map<Place, Stored>, i: nat, stats: Stats)
    requires i < |t| == |u| && Books(t, mem, stats)
    requires forall j :: 0 <= j < |t| && j != i ==> Held(u[j], rest) == Held(t[j], mem)
    ensures Books(u, rest, stats.Minus(Held(t[i], mem)).Plus(Held(u[i], rest)).Wrapped())
  {
    hide Held, Recount, Stats.Wrapped;
    RecountAt(t, mem, u, rest, i);
    WrappedPlus(Recount(t, mem).Minus(ONE_RAW), Held(t[i], mem), Held(u[i], rest));
  }

  /** Pages that compress worse than this are stored raw, or sent to the backing device if there is one. */
  function MaxCpage(backing: bool): nat {
    if backing then PAGE_SIZE / 2 else PAGE_SIZE / 4 * 3
  }

  /** memlimit is a size_t of whole pages, and the table describes a device whose size is a size_t. */
  predicate Sized(t: seq<Slot>, backing: bool, memlimit: nat) {
    && 0 < |t| && |t| * PAGE_SIZE < WORD_MOD
    && (backing ==> PAGE_SIZE <= memlimit < WORD_MOD)
  }

  /** All that is ever stored, the header page included, with a backing device. */
  ghost predicate WithinLimit(t: seq<Slot>, mem: map<Place, Stored>, backing: bool, memlimit: nat) {
    backing ==> Recount(t, mem).comprSize <= memlimit + PAGE_SIZE / 2
  }

  ghost predicate Inv(t: seq<Slot>, mem: map<Place, Stored>, stats: Stats, backing: bool, memlimit: nat) {
    && Sized(t, backing, memlimit)
    && Owned(t, mem, MaxCpage(backing))
    && Books(t, mem, stats)
    && WithinLimit(t, mem, backing, memlimit)
  }

  /** Slots other than i keep their entry and what it refers to. */
  ghost predicate SameElsewhere(t: seq<Slot>, mem: map<Place, Stored>, u: seq<Slot>, rest: map<Place, Stored>, i: nat) {
    && |t| == |u|
    && forall j :: 0 <= j < |t| && j != i ==> u[j] == t[j] && (t[j].pagenum != 0 ==>
         PlaceOf(t[j]) in mem && PlaceOf(t[j]) in rest && rest[PlaceOf(t[j])] == mem[PlaceOf(t[j])])
  }

  lemma ElsewhereReads(t: seq<Slot>, mem: map<Place, Stored>, u: seq<Slot>, rest: map<Place, Stored>, i: nat,
                       backing: bool, disk: seq<Page>, j: nat)
    requires SameElsewhere(t, mem, u, rest, i) && j < |t| && j != i
    ensures Contents(u, rest, backing, disk, j) == Contents(t, mem, backing, disk, j)
  {
  }

  function Without(mem: map<Place, Stored>, s: Slot): map<Place, Stored> {
    if s.pagenum == 0 then mem else mem - {PlaceOf(s)}
  }

  lemma Discarded(t: seq<Slot>, mem: map<Place, Stored>, stats: Stats, backing: bool, memlimit: nat, i: nat)
    requires Inv(t, mem, stats, backing, memlimit) && i < |t|
    ensures var u, rest := t[i := EMPTY], Without(mem, t[i]);
            && Inv(u, rest, stats.Minus(Held(t[i], mem)).Wrapped(), backing, memlimit)
            && SameElsewhere(t, mem, u, rest, i)
  {
    hide Books, Recount, Stats.Wrapped;
    var u, rest := t[i := EMPTY], Without(mem, t[i]);
    if t[i].pagenum == 0 {
      ZeroFlag(t, mem, MaxCpage(backing), i, EMPTY);
    } else {
      EmptySlot(t, mem, MaxCpage(backing), i);
      forall j: nat | j < |t| && j != i && t[j].pagenum != 0 ensures PlaceOf(t[j]) in rest {
        assert Owns(t, i, PlaceOf(t[i])) && Owns(t, j, PlaceOf(t[j]));
      }
    }
    BooksChange(t, mem, u, rest, i, stats);
    RecountAt(t, mem, u, rest, i);
    assert stats.Minus(Held(t[i], mem)).Plus(NOTHING) == stats.Minus(Held(t[i], mem));
  }

  lemma ZeroFlag(t: seq<Slot>, mem: map<Place, Stored>, m: nat, i: nat, s: Slot)
    requires Owned(t, mem, m) && i < |t| && t[i].pagenum == 0 && s in {EMPTY, ZEROED}
    ensures Owned(t[i := s], mem, m)
  {
    var u := t[i := s];
    forall j: nat, p ensures Owns(u, j, p) <==> Owns(t, j, p) {}
  }

  lemma ZeroMarked(t: seq<Slot>, mem: map<Place, Stored>, stats: Stats, backing: bool, memlimit: nat, i: nat)
    requires Inv(t, mem, stats, backing, memlimit) && i < |t| && t[i] == EMPTY
    ensures var u := t[i := ZEROED];
            && Inv(u, mem, stats.Plus(ONE_ZERO).Wrapped(), backing, memlimit)
            && SameElsewhere(t, mem, u, mem, i)
  {
    hide Books, Recount, Stats.Wrapped;
    ZeroFlag(t, mem, MaxCpage(backing), i, ZEROED);
    BooksChange(t, mem, t[i := ZEROED], mem, i, stats);
    RecountAt(t, mem, t[i := ZEROED], mem, i);
    assert stats.Minus(NOTHING).Plus(ONE_ZERO) == stats.Plus(ONE_ZERO);
  }

  /** Room is left when the test on compr_size passes, whether or not the counter has wrapped. */
  lemma RoomLeft(t: seq<Slot>, mem: map<Place, Stored>, stats: Stats, backing: bool, memlimit: nat)
    requires Inv(t, mem, stats, backing, memlimit) && backing
    requires stats.comprSize <= memlimit - PAGE_SIZE
    ensures Recount(t, mem).comprSize <= memlimit
  {
    RecountBound(t, mem, MaxCpage(backing));
  }

  lemma {:induction false} RecountBound(t: seq<Slot>, mem: map<Place, Stored>, m: nat)
    requires m <= PAGE_SIZE && forall i :: 0 <= i < |t| ==> SlotOk(t[i], mem, m)
    ensures var r := Recount(t, mem);
            && 0 <= r.comprSize <= |t| * PAGE_SIZE && 0 <= r.pagesStored <= |t| && 0 <= r.pagesExpand <= |t|
            && 0 <= r.pagesZero <= |t| && 0 <= r.goodCompress <= |t|
  {
    if t != [] { RecountBound(t[1..], mem, m); }
  }

  lemma StoredAt(t: seq<Slot>, mem: map<Place, Stored>, stats: Stats, backing: bool, memlimit: nat,
                 i: nat, s: Slot, d: Stored)
    requires Inv(t, mem, stats, backing, memlimit) && i < |t| && t[i] == EMPTY
    requires s.pagenum != 0 && !s.zero && PlaceOf(s) !in mem
    requires if s.uncompressed then d.Plain? else d.Packed? && d.clen <= MaxCpage(backing)
    requires backing ==> !s.uncompressed && stats.comprSize <= memlimit - PAGE_SIZE
    ensures var u, more := t[i := s], mem[PlaceOf(s) := d];
            && Inv(u, more, stats.Plus(Held(s, more)).Wrapped(), backing, memlimit)
            && SameElsewhere(t, mem, u, more, i)
  {
    hide Recount, Stats.Wrapped;
    var u, more := t[i := s], mem[PlaceOf(s) := d];
    FillSlot(t, mem, MaxCpage(backing), i, s, d);
    if backing { RoomLeft(t, mem, stats, backing, memlimit); }
    hide Books;
    BooksChange(t, mem, u, more, i, stats);
    RecountAt(t, mem, u, more, i);
    assert stats.Minus(NOTHING).Plus(Held(s, more)) == stats.Plus(Held(s, more));
  }

  lemma RecountHeader(t: seq<Slot>, mem: map<Place, Stored>)
    requires 0 < |t|
    ensures Recount(t, mem) == Held(t[0], mem).Plus(Recount(t[1..], mem))
  {
  }

  lemma OneRawShort(h: Stats, r: Stats)
    requires 0 <= r.comprSize < WORD_MOD && 0 <= r.pagesStored < WORD_MOD && 0 <= r.pagesExpand < WORD_MOD
    requires 0 <= r.pagesZero < WORD_MOD && 0 <= r.goodCompress < WORD_MOD
    requires h == ONE_RAW || h.pagesExpand == 0
    ensures h.Plus(r).Minus(ONE_RAW).Wrapped() == r <==> h == ONE_RAW
  {
    if h != ONE_RAW { WordPlus(r.pagesExpand, -1); }
  }

  /** While slot 0 holds a raw page the counters are exactly a recount of the other slots, and only then. */
  lemma CountersAreRecount(t: seq<Slot>, mem: map<Place, Stored>, stats: Stats, backing: bool, memlimit: nat)
    requires Inv(t, mem, stats, backing, memlimit)
    ensures stats == Recount(t[1..], mem) <==> t[0].uncompressed
    ensures t[0].uncompressed && backing ==> Recount(t[1..], mem).comprSize <= memlimit - PAGE_SIZE + PAGE_SIZE / 2
  {
    hide Recount, Stats.Wrapped;
    RecountBound(t[1..], mem, MaxCpage(backing));
    assert SlotOk(t[0], mem, MaxCpage(backing));
    RecountHeader(t, mem);
    OneRawShort(Held(t[0], mem), Recount(t[1..], mem));
  }

  lemma WrapsBelow(c: int)
    requires 0 <= c < WORD_MOD
    ensures (c - PAGE_SIZE) % WORD_MOD == if c < PAGE_SIZE then c - PAGE_SIZE + WORD_MOD else c - PAGE_SIZE
  {
  }

  /**
   The limit test fails exactly if the limit has been reached or less than a page is stored in all: the size
   counter has wrapped below zero then.
   */
  lemma WrappedCounterStopsStoring(t: seq<Slot>, mem: map<Place, Stored>, stats: Stats, backing: bool, memlimit: nat)
    requires Inv(t, mem, stats, backing, memlimit) && backing
    ensures stats.comprSize > memlimit - PAGE_SIZE <==>
            Recount(t, mem).comprSize < PAGE_SIZE || Recount(t, mem).comprSize > memlimit
  {
    hide Recount;
    RecountBound(t, mem, MaxCpage(backing));
    hide Owned, SlotOk;
    var c := Recount(t, mem).comprSize;
    WrapsBelow(c);
    assert stats.comprSize == (c - PAGE_SIZE) % WORD_MOD;
  }

  lemma {:induction false} RecountEmpty(t: seq<Slot>, mem: map<Place, Stored>)
    requires forall i :: 0 <= i < |t| ==> t[i] == EMPTY
    ensures Recount(t, mem) == NOTHING
  {
    if t != [] {
      RecountEmpty(t[1..], mem);
      assert Held(t[0], mem) == NOTHING;
    }
  }

  lemma Fresh(t: seq<Slot>, pfn: nat, header: Page, backing: bool, memlimit: nat)
    requires Sized(t, backing, memlimit) && pfn != 0
    requires t[0] == Slot(pfn, 0, true, false) && forall i :: 1 <= i < |t| ==> t[i] == EMPTY
    ensures Inv(t, map[Raw(pfn) := Plain(header)], NOTHING, backing, memlimit)
  {
    hide Recount, Stats.Wrapped, Owned;
    var mem := map[Raw(pfn) := Plain(header)];
    HeaderOwned(t, pfn, mem, MaxCpage(backing));
    RecountHeader(t, mem);
    RecountEmpty(t[1..], mem);
    OneRawShort(ONE_RAW, NOTHING);
  }

  lemma HeaderOwned(t: seq<Slot>, pfn: nat, mem: map<Place, Stored>, m: nat)
    requires 0 < |t| && pfn != 0 && mem.Keys == {Raw(pfn)} && mem[Raw(pfn)].Plain?
    requires t[0] == Slot(pfn, 0, true, false) && forall i :: 1 <= i < |t| ==> t[i] == EMPTY
    ensures Owned(t, mem, m)
  {
    assert Owns(t, 0, Raw(pfn));
  }

  /** A block request: one segment of a write or a read. */
  datatype Bio = Bio(write: bool, sector: nat, vcnt: nat, size: nat, offset: nat, page: Page)

  /** What the compressor and the allocators will answer; a place already in use counts as no memory. */
  datatype Env = Env(lzo: Lzo, pfn: nat, obj: Place)
  datatype Lzo = Bad | Clen(clen: nat)

  /** Whether the compressed page may be stored here and the memory for it is there. */
  predicate Placeable(env: Env, backing: bool, mem: map<Place, Stored>)
    requires env.lzo.Clen?
  {
    if env.lzo.clen > MaxCpage(backing) then !backing && env.pfn != 0 && Raw(env.pfn) !in mem
    else env.obj.Obj? && env.obj.pagenum != 0 && env.obj !in mem
  }

  datatype Reply = Done | Failed | Forward

  predicate ValidSwapRequest(b: Bio, n: nat) {
    && b.sector < n * SECTORS_PER_PAGE && b.sector % SECTORS_PER_PAGE == 0
    && b.vcnt == 1 && b.size == PAGE_SIZE && b.offset == 0
  }

  function Index(b: Bio): nat {
    b.sector / SECTORS_PER_PAGE
  }

  /** Which requests pass on a device of n pages: one page at the first sector of one of its pages. */
  lemma ValidIff(b: Bio, n: nat)
    ensures ValidSwapRequest(b, n) <==>
              (exists i :: 0 <= i < n && b.sector == i * 8) && b.vcnt == 1 && b.size == 4096 && b.offset == 0
  {
    if ValidSwapRequest(b, n) { assert b.sector == (b.sector / 8) * 8; }
  }

  /** The valid sectors and the slots of a device of n pages are one to one. */
  lemma OneSlotPerSector(b: Bio, c: Bio, n: nat)
    requires ValidSwapRequest(b, n) && ValidSwapRequest(c, n)
    ensures Index(b) < n && b.sector == Index(b) * 8
    ensures Index(b) == Index(c) <==> b.sector == c.sector
  {
  }

  lemma EverySlotHasSector(b: Bio, i: nat, n: nat)
    requires i < n && b.sector == i * 8 && b.vcnt == 1 && b.size == PAGE_SIZE && b.offset == 0
    ensures ValidSwapRequest(b, n) && Index(b) == i
  {
  }

  lemma OnlyFirstLeft(t: seq<Slot>, mem: map<Place, Stored>, m: nat)
    requires Owned(t, mem, m) && 0 < |t| && forall j :: 1 <= j < |t| ==> t[j] == EMPTY
    ensures mem.Keys == if t[0].pagenum == 0 then {} else {PlaceOf(t[0])}
  {
    assert SlotOk(t[0], mem, m);
    forall p | p in mem ensures t[0].pagenum != 0 && p == PlaceOf(t[0]) {
      var j: nat :| Owns(t, j, p);
    }
  }

  /** A request, or the notice that a slot is no longer used. */
  datatype Op = Request(bio: Bio, env: Env) | SlotFree(index: nat)
  datatype Out = Out(ret: Reply, page: Page)

  predicate OpOk(op: Op, n: nat) {
    match op
    case Request(b, _) => |b.page| == WORDS
    case SlotFree(index) => index < n
  }

  /** A write to sector i, or the notice that its page is no longer used. */
  predicate Touches(op: Op, i: nat, n: nat) {
    match op
    case Request(b, _) => b.write && ValidSwapRequest(b, n) && b.sector == i
    case SlotFree(index) => index * SECTORS_PER_PAGE == i
  }

  /** No operation of the run writes or frees the header, at sector 0. */
  ghost predicate LeavesHeader(ops: seq<Op>, n: nat) {
    forall k :: 0 <= k < |ops| ==> !Touches(ops[k], 0, n)
  }

  /** The pages by sector: a completed write sets an entry, a failed one or a free makes it unknown. */
  function Next(m: map<nat, Page>, op: Op, out: Out, n: nat): map<nat, Page> {
    match op
    case Request(b, _) =>
      if !b.write || !ValidSwapRequest(b, n) then m
      else if out.ret == Done then m[b.sector := b.page]
      else m - {b.sector}
    case SlotFree(index) => m - {index * SECTORS_PER_PAGE}
  }

  function Model(m: map<nat, Page>, ops: seq<Op>, outs: seq<Out>, n: nat): map<nat, Page>
    requires |ops| == |outs|
  {
    if ops == [] then m
    else
      var k := |ops| - 1;
      Next(Model(m, ops[..k], outs[..k], n), ops[k], outs[k], n)
  }

  predicate Answers(m: map<nat, Page>, op: Op, out: Out, n: nat) {
    op.Request? && !op.bio.write && ValidSwapRequest(op.bio, n) && op.bio.sector in m ==>
        out == Out(Done, m[op.bio.sector])
  }

  /** Every read in the run agrees with the array of pages at that point. */
  ghost predicate AllAnswered(m: map<nat, Page>, ops: seq<Op>, outs: seq<Out>, n: nat)
    requires |ops| == |outs|
  {
    forall k :: 0 <= k < |ops| ==> Answers(Model(m, ops[..k], outs[..k], n), ops[k], outs[k], n)
  }

  /** Operation k completes a write of page p at sector i, and none after it up to j touches that sector. */
  ghost predicate LastWrite(ops: seq<Op>, outs: seq<Out>, n: nat, k: nat, j: nat, i: nat, p: Page)
    requires |ops| == |outs|
  {
    && k < j <= |ops| && ops[k].Request? && ops[k].bio.write && ValidSwapRequest(ops[k].bio, n)
    && ops[k].bio.sector == i && ops[k].bio.page == p && outs[k].ret == Done
    && forall l :: k < l < j ==> !Touches(ops[l], i, n)
  }

  lemma {:induction false} LastWriteStays(m: map<nat, Page>, ops: seq<Op>, outs: seq<Out>, n: nat, k: nat, j: nat,
                                          i: nat, p: Page)
    requires |ops| == |outs| && LastWrite(ops, outs, n, k, j, i, p)
    ensures i in Model(m, ops[..j], outs[..j], n) && Model(m, ops[..j], outs[..j], n)[i] == p
    decreases j
  {
    assert ops[..j][..j - 1] == ops[..j - 1] && outs[..j][..j - 1] == outs[..j - 1];
    if k < j - 1 {
      LastWriteStays(m, ops, outs, n, k, j - 1, i, p);
      assert !Touches(ops[j - 1], i, n);
    }
  }

  /**
   In a run that answers every read as the array of pages does, a read hands back the page last written at its
   sector.
   */
  lemma ReadsLastWrite(m: map<nat, Page>, ops: seq<Op>, outs: seq<Out>, n: nat, k: nat, j: nat, p: Page)
    requires |ops| == |outs| && j < |ops| && AllAnswered(m, ops, outs, n)
    requires ops[j].Request? && !ops[j].bio.write && ValidSwapRequest(ops[j].bio, n)
    requires LastWrite(ops, outs, n, k, j, ops[j].bio.sector, p)
    ensures outs[j] == Out(Done, p)
  {
    LastWriteStays(m, ops, outs, n, k, j, ops[j].bio.sector, p);
    assert Answers(Model(m, ops[..j], outs[..j], n), ops[j], outs[j], n);
  }

  lemma RunGrows(m: map<nat, Page>, ops: seq<Op>, outs: seq<Out>, op: Op, out: Out, n: nat)
    requires |ops| == |outs| && AllAnswered(m, ops, outs, n) && Answers(Model(m, ops, outs, n), op, out, n)
    ensures Model(m, ops + [op], outs + [out], n) == Next(Model(m, ops, outs, n), op, out, n)
    ensures AllAnswered(m, ops + [op], outs + [out], n)
  {
    var a, b := ops + [op], outs + [out];
    assert a[..|ops|] == ops && b[..|ops|] == outs;
    forall k | 0 <= k < |a| ensures Answers(Model(m, a[..k], b[..k], n), a[k], b[k], n) {
      if k < |ops| { assert a[..k] == ops[..k] && b[..k] == outs[..k]; }
    }
  }

  method PageZeroFilled(page: Page) returns (zero: bool)
    requires |page| == WORDS
    ensures zero <==> page == ZeroPage()
  {
    var pos := 0;
    while pos != WORDS
      invariant 0 <= pos <= WORDS && forall k :: 0 <= k < pos ==> page[k] == 0
    {
      if page[pos] != 0 { return false; }
      pos := pos + 1;
    }
    zero := true;
  }

  class Rzs {
    const backing: bool
    const memlimit: nat
    const table: array<Slot>
    var mem: map<Place, Stored>
    var disk: seq<Page>
    var stats: Stats

    ghost predicate Valid()
      reads this, table
    {
      Inv(table[..], mem, stats, backing, memlimit) && (backing ==> |disk| == table.Length)
    }

    /** The array of pages the device stands for. */
    function At(i: nat): Page
      reads this, table
    {
      Contents(table[..], mem, backing, disk, i)
    }

    /** The state after init: an empty table whose slot 0 is the swap header. */
    constructor (t: array<Slot>, withBacking: bool, limit: nat, device: seq<Page>, header: Page, pfn: nat)
      requires Sized(t[..], withBacking, limit) && pfn != 0 && (withBacking ==> |device| == t.Length)
      requires t[0] == Slot(pfn, 0, true, false) && forall i :: 1 <= i < t.Length ==> t[i] == EMPTY
      ensures Valid() && table == t && backing == withBacking && disk == device && memlimit == limit
      ensures At(0) == header && table[0].uncompressed
    {
      table, backing, memlimit, disk, stats := t, withBacking, limit, device, NOTHING;
      mem := map[Raw(pfn) := Plain(header)];
      new;
      Fresh(table[..], pfn, header, backing, memlimit);
    }

    /** Whether a write to the slot, whose page is dropped first, meets the limit. */
    ghost predicate Full(index: nat)
      requires index < table.Length
      reads this, table
    {
      backing && stats.Minus(Held(table[index], mem)).Wrapped().comprSize > memlimit - PAGE_SIZE
    }

    /** That is so exactly if, the slot aside, more than the limit or less than a page is stored. */
    lemma FullIff(index: nat)
      requires Valid() && backing && index < table.Length
      ensures var rest := Recount(table[..][index := EMPTY], Without(mem, table[index])).comprSize;
              Full(index) <==> rest < PAGE_SIZE || rest > memlimit
    {
      var t := table[..];
      Discarded(t, mem, stats, backing, memlimit, index);
      WrappedCounterStopsStoring(t[index := EMPTY], Without(mem, t[index]), stats.Minus(Held(t[index], mem)).Wrapped(),
                                 backing, memlimit);
    }

    /** ramzswap_free_page. */
    method FreePage(index: nat)
      requires Valid() && index < table.Length
      modifies this`mem, this`stats, table
      ensures Valid() && table[..] == old(table[..])[index := EMPTY]
      ensures mem == Without(old(mem), old(table[index]))
      ensures stats == old(stats.Minus(Held(table[index], mem)).Wrapped())
      ensures SameElsewhere(old(table[..]), old(mem), table[..], mem, index)
    {
      var s := table[index];
      assert SlotOk(table[..][index], mem, MaxCpage(backing));
      Discarded(table[..], mem, stats, backing, memlimit, index);
      if s.pagenum == 0 {
        if s.zero {
          table[index] := s.(zero := false);
          stats := stats.Minus(ONE_ZERO).Wrapped();
        }
      } else if s.uncompressed {
        mem := mem - {Raw(s.pagenum)};
        table[index] := EMPTY;
        stats := stats.Minus(ONE_RAW).Wrapped();
      } else {
        var clen := mem[Obj(s.pagenum, s.offset)].clen;
        mem := mem - {Obj(s.pagenum, s.offset)};
        table[index] := EMPTY;
        stats := stats.Minus(OnePacked(clen)).Wrapped();
      }
    }

    /** The first steps of ramzswap_write: what the slot held is dropped. */
    method Discard(index: nat)
      requires Valid() && index < table.Length
      modifies this`mem, this`stats, table
      ensures Valid() && table[..] == old(table[..])[index := EMPTY]
      ensures mem == Without(old(mem), old(table[index]))
      ensures stats == old(stats.Minus(Held(table[index], mem)).Wrapped())
      ensures SameElsewhere(old(table[..]), old(mem), table[..], mem, index)
    {
      assert SlotOk(table[..][index], mem, MaxCpage(backing));
      if table[index].pagenum != 0 {
        FreePage(index);
      } else {
        Discarded(table[..], mem, stats, backing, memlimit, index);
        if table[index].zero {
          table[index] := table[index].(zero := false);
          stats := stats.Minus(ONE_ZERO).Wrapped();
        }
      }
    }

    /** The memstore part of ramzswap_write. */
    method Keep(index: nat, s: Slot, d: Stored)
      requires Valid() && index < table.Length && table[index] == EMPTY
      requires s.pagenum != 0 && !s.zero && PlaceOf(s) !in mem
      requires if s.uncompressed then d.Plain? else d.Packed? && d.clen <= MaxCpage(backing)
      requires backing ==> !s.uncompressed && stats.comprSize <= memlimit - PAGE_SIZE
      modifies this`mem, this`stats, table
      ensures Valid() && table[..] == old(table[..])[index := s] && mem == old(mem)[PlaceOf(s) := d]
      ensures SameElsewhere(old(table[..]), old(mem), table[..], mem, index)
    {
      StoredAt(table[..], mem, stats, backing, memlimit, index, s, d);
      mem := mem[PlaceOf(s) := d];
      table[index] := s;
      stats := stats.Plus(if s.uncompressed then ONE_RAW else OnePacked(d.clen)).Wrapped();
    }

    /**
     ramzswap_write: on Done the slot reads back as the page; otherwise it holds nothing, and Forward
     leaves the page to the backing device.  No other slot changes.
     */
    method Write(index: nat, page: Page, env: Env) returns (ret: Reply)
      requires Valid() && index < table.Length && |page| == WORDS
      modifies this`mem, this`stats, table
      ensures Valid() && SameElsewhere(old(table[..]), old(mem), table[..], mem, index)
      ensures ret == Done ==> At(index) == page
      ensures ret != Done ==> table[index] == EMPTY && page != ZeroPage()
      ensures page == ZeroPage() ==> table[index] == ZEROED
      ensures var ok := env.lzo.Clen? && Placeable(env, backing, Without(old(mem), old(table[index])));
              && (page != ZeroPage() ==> (ret == Done <==> !old(Full(index)) && ok))
              && (ret == Failed <==> page != ZeroPage() && !old(Full(index)) && (env.lzo.Bad? || (!backing && !ok)))
      ensures ret == Done && page != ZeroPage() ==>
                && (backing ==> env.lzo.clen <= 2048)
                && (table[index].uncompressed <==> env.lzo.clen > 3072)
    {
      Discard(index);
      var zero := PageZeroFilled(page);
      if zero {
        ZeroMarked(table[..], mem, stats, backing, memlimit, index);
        stats := stats.Plus(ONE_ZERO).Wrapped();
        table[index] := ZEROED;
        return Done;
      }
      if backing && stats.comprSize > memlimit - PAGE_SIZE { return Forward; }
      if env.lzo.Bad? { return Failed; }
      if env.lzo.clen > MaxCpage(backing) {
        if backing { return Forward; }
        if env.pfn == 0 || Raw(env.pfn) in mem { return Failed; }
        Keep(index, Slot(env.pfn, 0, true, false), Plain(page));
        return Done;
      }
      if env.obj.Raw? || env.obj.pagenum == 0 || env.obj in mem {
        return if backing then Forward else Failed;
      }
      Keep(index, Slot(env.obj.pagenum, env.obj.offset, false, false), Packed(page, env.lzo.clen));
      return Done;
    }

    /** ramzswap_read. */
    method Read(index: nat) returns (ret: Reply, page: Page)
      requires Valid() && index < table.Length
      ensures ret == Done ==> page == At(index)
      ensures ret == if backing && table[index] == EMPTY then Forward else Done
    {
      var s := table[index];
      assert SlotOk(table[..][index], mem, MaxCpage(backing));
      page := ZeroPage();
      if s.zero { return Done, page; }
      if s.pagenum == 0 { return if backing then Forward else Done, page; }
      if s.uncompressed { return Done, mem[Raw(s.pagenum)].page; }
      return Done, mem[Obj(s.pagenum, s.offset)].page;
    }

    /** ramzswap_make_request, and the block layer passing on what it says to forward. */
    method Submit(b: Bio, env: Env) returns (out: Out)
      requires Valid() && |b.page| == WORDS
      modifies this`mem, this`stats, this`disk, table
      ensures Valid()
      ensures forall j :: 0 <= j < table.Length && j != Index(b) ==> At(j) == old(At(j))
      ensures !ValidSwapRequest(b, table.Length) ==> out.ret == Failed
      ensures !ValidSwapRequest(b, table.Length) || !b.write ==> unchanged(this, table)
      ensures ValidSwapRequest(b, table.Length) && !b.write ==> out == Out(Done, At(Index(b)))
      ensures out.ret == Done && b.write ==> At(Index(b)) == b.page
      ensures out.ret != Forward && (out.ret == Failed && b.write && ValidSwapRequest(b, table.Length) ==>
                  table[Index(b)] == EMPTY)
      ensures b.write && ValidSwapRequest(b, table.Length) ==>
                var ok := env.lzo.Clen? && Placeable(env, backing, Without(old(mem), old(table[Index(b)])));
                out.ret == Failed <==>
                  b.page != ZeroPage() && !old(Full(Index(b))) && (env.lzo.Bad? || (!backing && !ok))
      ensures forall j :: 1 <= j < table.Length && Index(b) == 0 ==> table[j] == old(table[j])
      ensures Index(b) != 0 ==> table[0] == old(table[0])
    {
      if !ValidSwapRequest(b, table.Length) { return Out(Failed, b.page); }
      var index := Index(b);
      if b.write {
        var ret := Write(index, b.page, env);
        if ret == Forward {
          disk := disk[index := b.page];
          ret := Done;
        }
        return Out(ret, b.page);
      }
      var ret, page := Read(index);
      return Out(Done, if ret == Forward then disk[index] else page);
    }

    /** A request, next to the pages the device should behave like. */
    method StepRequest(b: Bio, env: Env, ghost m: map<nat, Page>) returns (out: Out)
      requires Valid() && |b.page| == WORDS && Refines(m)
      modifies this`mem, this`stats, this`disk, table
      ensures var op := Request(b, env);
              Valid() && Refines(Next(m, op, out, table.Length)) && Answers(m, op, out, table.Length)
      ensures !Touches(Request(b, env), 0, table.Length) ==> table[0] == old(table[0])
    {
      hide Valid, Contents;
      if ValidSwapRequest(b, table.Length) { SectorsApart(m, b); }
      out := Submit(b, env);
    }

    /** A free, next to them. */
    method StepFree(index: nat, ghost m: map<nat, Page>)
      requires Valid() && index < table.Length && Refines(m)
      modifies this`mem, this`stats, table
      ensures Valid() && Refines(m - {index * SECTORS_PER_PAGE}) && (index != 0 ==> table[0] == old(table[0]))
    {
      SlotApart(m, index);
      hide Valid, SameElsewhere, Contents;
      ghost var t, mem0 := table[..], mem;
      FreePage(index);
      forall j: nat | j < table.Length && j != index ensures At(j) == Contents(t, mem0, backing, disk, j) {
        ElsewhereReads(t, mem0, table[..], mem, index, backing, disk, j);
      }
    }

    /** One step of a run, next to the pages the device should behave like. */
    method Step(op: Op, ghost m: map<nat, Page>) returns (out: Out)
      requires Valid() && OpOk(op, table.Length) && Refines(m)
      modifies this`mem, this`stats, this`disk, table
      ensures Valid() && Refines(Next(m, op, out, table.Length)) && Answers(m, op, out, table.Length)
      ensures !Touches(op, 0, table.Length) ==> table[0] == old(table[0])
    {
      hide Valid, Refines;
      match op
      case Request(b, env) =>
        out := StepRequest(b, env, m);
      case SlotFree(index) =>
        StepFree(index, m);
        out := Out(Done, []);
    }

    /** The device agrees with the pages m has by sector. */
    ghost predicate Refines(m: map<nat, Page>)
      reads this, table
    {
      forall i :: i in m ==>
        i % SECTORS_PER_PAGE == 0 && i / SECTORS_PER_PAGE < table.Length && At(i / SECTORS_PER_PAGE) == m[i]
    }

    lemma SlotApart(m: map<nat, Page>, index: nat)
      requires Refines(m)
      ensures forall i :: i in m && i != index * SECTORS_PER_PAGE ==> i / SECTORS_PER_PAGE != index
    {
      forall i | i in m && i != index * SECTORS_PER_PAGE ensures i / SECTORS_PER_PAGE != index {
        assert i == i / SECTORS_PER_PAGE * SECTORS_PER_PAGE;
      }
    }

    lemma SectorsApart(m: map<nat, Page>, b: Bio)
      requires Refines(m) && ValidSwapRequest(b, table.Length)
      ensures Index(b) == b.sector / SECTORS_PER_PAGE
      ensures forall i :: i in m && i != b.sector ==> i / SECTORS_PER_PAGE != Index(b)
    {
      forall i | i in m && i != b.sector ensures i / SECTORS_PER_PAGE != b.sector / SECTORS_PER_PAGE {
        assert i == i / SECTORS_PER_PAGE * SECTORS_PER_PAGE;
        assert b.sector == b.sector / SECTORS_PER_PAGE * SECTORS_PER_PAGE;
      }
    }

    /**
     Any run of requests and slot frees, whatever the compressor and allocators do: every read of a slot
     last written with success returns what was written; the header stays while slot 0 is left alone.
     */
    method Run(ops: seq<Op>, ghost m: map<nat, Page>) returns (outs: seq<Out>)
      requires Valid() && Refines(m) && forall k :: 0 <= k < |ops| ==> OpOk(ops[k], table.Length)
      modifies this`mem, this`stats, this`disk, table
      ensures |outs| == |ops| && Behaved(m, ops, outs)
      ensures LeavesHeader(ops, table.Length) ==> table[..][..1] == old(table[..][..1])
    {
      outs := [];
      var k := 0;
      assert Behaved(m, ops[..0], []);
      hide Behaved, LeavesHeader;
      while k < |ops|
        invariant 0 <= k <= |ops| && |outs| == k && Behaved(m, ops[..k], outs)
        invariant LeavesHeader(ops, table.Length) ==> table[..][..1] == old(table[..][..1])
      {
        outs := RunStep(ops, k, m, outs);
        k := k + 1;
      }
      assert ops[..k] == ops;
    }

    /** The device is sound, agrees with the array of pages after the run, and so did every read. */
    ghost predicate Behaved(m: map<nat, Page>, ops: seq<Op>, outs: seq<Out>)
      reads this, table
    {
      && Valid() && |ops| == |outs|
      && Refines(Model(m, ops, outs, table.Length)) && AllAnswered(m, ops, outs, table.Length)
    }

    method RunStep(ops: seq<Op>, k: nat, ghost m: map<nat, Page>, before: seq<Out>) returns (outs: seq<Out>)
      requires k < |ops| && OpOk(ops[k], table.Length) && |before| == k && Behaved(m, ops[..k], before)
      modifies this`mem, this`stats, this`disk, table
      ensures |outs| == k + 1 && Behaved(m, ops[..k + 1], outs)
      ensures LeavesHeader(ops, table.Length) ==> table[..][..1] == old(table[..][..1])
    {
      hide Model, AllAnswered, Next, Answers, Valid, Refines;
      ValidSized();
      var out := Step(ops[k], Model(m, ops[..k], before, table.Length));
      RunGrows(m, ops[..k], before, ops[k], out, table.Length);
      assert ops[..k + 1] == ops[..k] + [ops[k]];
      outs := before + [out];
    }

    lemma ValidSized()
      requires Valid()
      ensures table.Length > 0
    {
    }

    /** The frees at the end of ramzswap_exit: index is handed back as the table says. */
    method Release(index: nat)
      requires Owned(table[..], mem, MaxCpage(backing)) && index < table.Length
      modifies this`mem, table
      ensures Owned(table[..], mem, MaxCpage(backing)) && table[..] == old(table[..])[index := EMPTY]
      ensures mem == Without(old(mem), old(table[index]))
    {
      var s := table[index];
      assert SlotOk(table[..][index], mem, MaxCpage(backing));
      if s.pagenum != 0 {
        EmptySlot(table[..], mem, MaxCpage(backing), index);
        mem := mem - {if s.uncompressed then Raw(s.pagenum) else Obj(s.pagenum, s.offset)};
      } else {
        ZeroFlag(table[..], mem, MaxCpage(backing), index, EMPTY);
      }
      table[index] := EMPTY;
    }

    /**
     The freeing part of ramzswap_exit.  Slot 0 is handed back as a raw page without a look at its flags:
     that page is live, and nothing is left behind, exactly when slot 0 holds a raw page.
     */
    method Exit() returns (wrongFree: bool)
      requires Valid()
      modifies this`mem, table
      ensures wrongFree <==> !old(table[0].uncompressed)
      ensures !wrongFree ==> mem == map[]
      ensures wrongFree ==> mem.Keys == if old(table[0].pagenum) == 0 then {} else {old(PlaceOf(table[0]))}
    {
      var first := table[0];
      assert SlotOk(table[..][0], mem, MaxCpage(backing));
      wrongFree := Raw(first.pagenum) !in mem || !first.uncompressed;
      if first.uncompressed { Release(0); }
      var index := 1;
      while index < table.Length
        invariant 1 <= index <= table.Length && Owned(table[..], mem, MaxCpage(backing))
        invariant table[0] == if first.uncompressed then EMPTY else first
        invariant forall j :: 1 <= j < index ==> table[j] == EMPTY
      {
        Release(index);
        index := index + 1;
      }
      OnlyFirstLeft(table[..], mem, MaxCpage(backing));
    }
  }

  /**
   With a backing device, a page of zeros is written over the header and then a page that compresses well to
   the other slot: it is forwarded although nothing at all is stored and there is memory for it.
   */
  method ForwardedThoughEmpty(header: Page, page: Page) returns (ret: Reply, r: Rzs)
    requires |page| == WORDS && page != ZeroPage()
    ensures ret == Forward && r.backing && r.mem == map[] && r.memlimit == 0x10_0000
  {
    var t := new Slot[2](i => if i == 0 then Slot(1, 0, true, false) else EMPTY);
    r := new Rzs(t, true, 0x10_0000, [header, header], header, 1);
    var env := Env(Clen(100), 2, Obj(3, 0));
    var first := r.Write(0, ZeroPage(), env);
    TwoEmpty(r);
    ret := r.Write(1, page, env);
    OnlyFirstLeft(r.table[..], r.mem, MaxCpage(r.backing));
  }

  lemma TwoEmpty(r: Rzs)
    requires r.Valid() && r.backing && r.table.Length == 2 && r.table[0] == ZEROED && r.table[1] == EMPTY
    ensures r.Full(1)
  {
    hide Recount, Owned, Books, WithinLimit, Sized, Inv, Rzs.Full, Stats.Wrapped;
    var t := r.table[..];
    r.FullIff(1);
    assert t[1 := EMPTY] == t && Without(r.mem, t[1]) == r.mem;
    RecountHeader(t, r.mem);
    RecountEmpty(t[1..], r.mem);
  }
}
