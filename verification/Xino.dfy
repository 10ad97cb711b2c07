/**
 The inode number allocator of aufs (xino.c): a bitmap file with one page of it cached in memory, and
 the per-filesystem tables that record which number each lower inode was given.
 */
module Xino {

  import opened Errno

  const FIRST_INO := 11
  const PAGE_BITS := 32768
  const PAGE_ENTRIES := 512

  type Page = seq<bool>

  /** The result of one file access; a failing transfer may have got part of the way. */
  datatype Io = Fine | Fails(noise: Page)

  function CalcIno(pindex: nat, bit: nat): nat {
    FIRST_INO + pindex * PAGE_BITS + bit
  }

  function PageOf(ino: nat): nat
    requires ino >= FIRST_INO
  {
    (ino - FIRST_INO) / PAGE_BITS
  }

  function BitOf(ino: nat): nat
    requires ino >= FIRST_INO
  {
    (ino - FIRST_INO) % PAGE_BITS
  }

  /** xib_calc_ino and xib_calc_bit are inverse to each other. */
  lemma CalcRoundTrip(pindex: nat, bit: nat)
    requires bit < PAGE_BITS
    ensures PageOf(CalcIno(pindex, bit)) == pindex && BitOf(CalcIno(pindex, bit)) == bit
  {
  }

  lemma CalcRoundTripBack(ino: nat)
    requires ino >= FIRST_INO
    ensures BitOf(ino) < PAGE_BITS && CalcIno(PageOf(ino), BitOf(ino)) == ino
  {
  }

  function ZeroPage(): (z: Page)
    ensures |z| == PAGE_BITS && forall b :: 0 <= b < |z| ==> !z[b]
  {
    seq(PAGE_BITS, _ => false)
  }

  /** Bit b of page p, where the cached page stands for page last of the file. */
  predicate BitAt(file: seq<Page>, page: Page, last: nat, p: nat, b: nat) {
    if p == last then b < |page| && page[b]
    else p < |file| && b < |file[p]| && file[p][b]
  }

  /** The set the bitmap stands for: the inode numbers in use. */
  ghost function Numbers(file: seq<Page>, page: Page, last: nat): iset<nat> {
    iset ino: nat | ino >= FIRST_INO && BitAt(file, page, last, PageOf(ino), BitOf(ino))
  }

  ghost predicate Pages(file: seq<Page>) {
    forall i :: 0 <= i < |file| ==> |file[i]| == PAGE_BITS
  }

  /** A write at page position p: the gap before it, if any, reads back as zeros. */
  function Stored(file: seq<Page>, p: nat, page: Page): (f: seq<Page>)
    ensures |f| == if p < |file| then |file| else p + 1
    ensures forall i :: 0 <= i < |f| ==> f[i] == if i == p then page else if i < |file| then file[i] else ZeroPage()
  {
    if p < |file| then file[p := page]
    else file + seq(p - |file|, _ => ZeroPage()) + [page]
  }

  /** Writing the cached page out and caching another one leaves the set alone. */
  lemma MovePage(file: seq<Page>, page: Page, last: nat, next: nat)
    requires Pages(file) && |page| == PAGE_BITS && last != next
    ensures var f := Stored(file, last, page);
            && (next < |f| ==> Numbers(f, f[next], next) == Numbers(file, page, last))
            && (next >= |f| ==> Numbers(Stored(f, next, ZeroPage()), ZeroPage(), next) == Numbers(file, page, last))
  {
    var f := Stored(file, last, page);
    var g := if next < |f| then f else Stored(f, next, ZeroPage());
    var cached := if next < |f| then f[next] else ZeroPage();
    forall p: nat, b: nat | b < PAGE_BITS ensures BitAt(g, cached, next, p, b) <==> BitAt(file, page, last, p, b) {
    }
  }

  /** What the file holds for the cached page does not matter. */
  lemma StoredUnder(file: seq<Page>, page: Page, last: nat, any: Page)
    requires Pages(file)
    ensures Numbers(Stored(file, last, any), page, last) == Numbers(file, page, last)
  {
    var g := Stored(file, last, any);
    forall p: nat, b: nat ensures BitAt(g, page, last, p, b) <==> BitAt(file, page, last, p, b) {}
  }

  /** A page cached under the wrong contents changes the set unless the contents are the same. */
  lemma SpoiledPage(file: seq<Page>, page: Page, spoiled: Page, last: nat)
    requires |page| == |spoiled| == PAGE_BITS
    ensures Numbers(file, spoiled, last) == Numbers(file, page, last) <==> spoiled == page
    ensures forall ino: nat :: ino >= FIRST_INO && PageOf(ino) != last ==>
              (ino in Numbers(file, spoiled, last) <==> ino in Numbers(file, page, last))
  {
    if Numbers(file, spoiled, last) == Numbers(file, page, last) {
      forall b | 0 <= b < PAGE_BITS ensures spoiled[b] == page[b] {
        CalcRoundTrip(last, b);
        assert CalcIno(last, b) in Numbers(file, spoiled, last) <==> CalcIno(last, b) in Numbers(file, page, last);
      }
    }
  }

  lemma FlipBit(file: seq<Page>, page: Page, last: nat, bit: nat, on: bool)
    requires bit < |page| == PAGE_BITS
    ensures Numbers(file, page[bit := on], last)
         == if on then Numbers(file, page, last) + iset{CalcIno(last, bit)}
            else Numbers(file, page, last) - iset{CalcIno(last, bit)}
    ensures CalcIno(last, bit) in Numbers(file, page, last) <==> page[bit]
  {
    CalcRoundTrip(last, bit);
    forall ino: nat | ino >= FIRST_INO && PageOf(ino) == last && BitOf(ino) == bit ensures ino == CalcIno(last, bit) {
      CalcRoundTripBack(ino);
    }
    forall ino: nat | ino >= FIRST_INO ensures BitOf(ino) < PAGE_BITS {}
  }

  /** A branch as the allocator sees it: its lower filesystem and the table it records into. */
  datatype XBranch = XBranch(hsb: nat, table: nat)

  /** Branches on one lower filesystem share one table. */
  ghost predicate Shared(br: seq<XBranch>, tables: seq<seq<nat>>) {
    && (forall i :: 0 <= i < |br| ==> br[i].table < |tables|)
    && (forall i, j :: 0 <= i < |br| && 0 <= j < |br| && br[i].hsb == br[j].hsb ==> br[i].table == br[j].table)
  }

  predicate RecordedIn(br: seq<XBranch>, tables: seq<seq<nat>>, n: nat, ino: nat)
    requires n <= |br| && forall i :: 0 <= i < |br| ==> br[i].table < |tables|
  {
    exists i :: 0 <= i < n && ino in tables[br[i].table]
  }

  /** The inode numbers recorded in the first n branches' tables; smaller values mean no entry or the root. */
  ghost function Recorded(br: seq<XBranch>, tables: seq<seq<nat>>, n: nat): iset<nat>
    requires n <= |br| && Shared(br, tables)
  {
    iset ino: nat | ino >= FIRST_INO && RecordedIn(br, tables, n, ino)
  }

  ghost function Wanted(s: seq<nat>): iset<nat> {
    iset ino: nat | ino >= FIRST_INO && ino in s
  }

  /** A branch on a filesystem that came up before adds nothing; any other adds its table's numbers. */
  lemma RecordedNext(br: seq<XBranch>, tables: seq<seq<nat>>, n: nat, earlier: int)
    requires n < |br| && Shared(br, tables)
    requires earlier < n && (earlier >= 0 ==> br[earlier].hsb == br[n].hsb)
    ensures Recorded(br, tables, n + 1) == Recorded(br, tables, n) + Wanted(tables[br[n].table])
    ensures earlier >= 0 ==> Recorded(br, tables, n + 1) == Recorded(br, tables, n)
  {
    forall ino: nat ensures RecordedIn(br, tables, n + 1, ino) <==>
      RecordedIn(br, tables, n, ino)
      || ino in tables[br[n].table] {
      if RecordedIn(br, tables, n, ino) {
        var i :| 0 <= i < n && ino in tables[br[i].table];
        assert 0 <= i < n + 1;
      }
    }
    if earlier >= 0 {
      forall ino: nat | ino in tables[br[n].table] ensures RecordedIn(br, tables, n, ino) {
        assert ino in tables[br[earlier].table];
      }
    }
  }

  /** is_sb_shared: the first other branch up to bend, n aside, on the filesystem of branch n, or -1. */
  method IsSbShared(br: seq<XBranch>, n: nat, bend: int) returns (index: int)
    requires n < |br| && -1 <= bend < |br|
    ensures -1 <= index < |br| && index != n && (index > n ==> index <= bend)
    ensures index >= 0 ==> br[index].hsb == br[n].hsb && forall i :: 0 <= i < index && i != n ==> br[i].hsb != br[n].hsb
    ensures index < 0 ==> forall i :: 0 <= i < |br| && (i < n || n < i <= bend) ==> br[i].hsb != br[n].hsb
  {
    index := 0;
    while index < n
      invariant 0 <= index <= n && forall i :: 0 <= i < index ==> br[i].hsb != br[n].hsb
    {
      if br[index].hsb == br[n].hsb { return; }
      index := index + 1;
    }
    index := index + 1;
    while index <= bend
      invariant n < index && (index <= bend + 1 || index == n + 1)
      invariant forall i :: 0 <= i < index && i != n ==> br[i].hsb != br[n].hsb
    {
      if br[index].hsb == br[n].hsb { return; }
      index := index + 1;
    }
    index := -1;
  }

  /** A table after v was written for lower inode h; unwritten entries before it read as 0. */
  function Recording(t: seq<nat>, h: nat, v: nat): (r: seq<nat>)
    ensures |r| == if h < |t| then |t| else h + 1
    ensures forall i :: 0 <= i < |r| ==> r[i] == if i == h then v else if i < |t| then t[i] else 0
  {
    if h < |t| then t[h := v] else t + seq(h - |t|, _ => 0) + [v]
  }

  /** The part of struct au_sbinfo the allocator uses; io is what the coming file accesses will meet. */
  class Xib {
    var file: seq<Page>
    var buf: array<bool>
    var last: nat
    var nextBit: nat
    var tables: seq<seq<nat>>
    var br: seq<XBranch>
    var io: seq<Io>

    ghost predicate Valid()
      reads this, buf
    {
      && buf.Length == PAGE_BITS && Pages(file) && Shared(br, tables)
      && forall i :: 0 <= i < |io| && io[i].Fails? ==> |io[i].noise| == PAGE_BITS
    }

    ghost function Taken(): iset<nat>
      reads this, buf
    {
      Numbers(file, buf[..], last)
    }

    /** There is a page to go on to when the cached one is full: the file is not empty or another page is cached. */
    ghost predicate Searchable()
      reads this
    {
      file != [] || last > 0
    }

    /** The numbers of the cached page aside, what the bitmap says. */
    ghost predicate SameElsewhere(was: iset<nat>)
      reads this, buf
    {
      forall ino: nat :: ino >= FIRST_INO && PageOf(ino) != last ==> (ino in Taken() <==> ino in was)
    }

    constructor (page: array<bool>, xbr: seq<XBranch>, xt: seq<seq<nat>>, future: seq<Io>)
      requires page.Length == PAGE_BITS && Shared(xbr, xt)
      requires forall i :: 0 <= i < |future| && future[i].Fails? ==> |future[i].noise| == PAGE_BITS
      ensures Valid() && buf == page && file == [ZeroPage()] && last == 0 && nextBit == 0
      ensures br == xbr && tables == xt && io == future
    {
      file, buf, last, nextBit, br, tables, io := [ZeroPage()], page, 0, 0, xbr, xt, future;
    }

    method NextIo() returns (r: Io)
      modifies this`io
      ensures if old(io) == [] then r == Fine && io == [] else r == old(io)[0] && io == old(io)[1..]
    {
      if io == [] { return Fine; }
      r := io[0];
      io := io[1..];
    }

    method Load(page: Page)
      requires |page| == buf.Length
      modifies buf
      ensures buf[..] == page
    {
      var i := 0;
      while i < buf.Length
        invariant 0 <= i <= buf.Length && buf[..i] == page[..i]
      {
        buf[i] := page[i];
        i := i + 1;
      }
    }

    /** The second access of xib_pindex: page pindex read, or made if the file does not reach that far. */
    method Bring(pindex: nat) returns (ok: bool)
      requires Valid()
      modifies this`file, this`io, buf
      ensures Valid()
      ensures ok && pindex < |old(file)| ==> file == old(file) && buf[..] == file[pindex]
      ensures ok && pindex >= |old(file)| ==> file == Stored(old(file), pindex, ZeroPage()) && buf[..] == ZeroPage()
      ensures !ok ==> file == old(file) && if pindex < |file| then Fails(buf[..]) in old(io) else buf[..] == ZeroPage()
      ensures ok <==> old(io) == [] || old(io)[0].Fine?
      ensures Clean(old(io)) ==> ok && Clean(io)
    {
      hide Stored, ZeroPage, Shared;
      var r := NextIo();
      if pindex < |file| {
        Load(if r.Fails? then r.noise else file[pindex]);
      } else {
        Load(ZeroPage());
        if r.Fine? { file := Stored(file, pindex, buf[..]); }
      }
      ok := r.Fine?;
    }

    /**
     xib_pindex: make page pindex the cached one.  On success the set is unchanged.  If the access that
     brings the new page in fails, last still names the old page but the buffer no longer holds it.
     */
    method XibPindex(pindex: nat) returns (err: int, ghost spoiled: bool)
      requires Valid()
      modifies this`file, this`last, this`io, buf
      ensures Valid()
      ensures err == 0 ==> last == pindex && Taken() == old(Taken()) && !spoiled
      ensures err == 0 ==> if pindex == old(last) then file == old(file) && buf[..] == old(buf[..])
                           else (last < |file| && old(last) < |file|
                                 && |file| == Max(|old(file)|, 1 + Max(pindex, old(last)))
                                 && (pindex >= Max(|old(file)|, old(last) + 1) ==> buf[..] == ZeroPage()))
      ensures err != 0 <==> pindex != old(last) && exists i :: 0 <= i < 2 && i < |old(io)| && old(io)[i].Fails?
      ensures err != 0 ==> (spoiled <==> old(io)[0].Fine?)
      ensures err != 0 ==> err == -EIO && pindex != old(last) && last == old(last) && |old(file)| <= |file|
      ensures err != 0 && !spoiled ==> Taken() == old(Taken())
      ensures err != 0 && spoiled ==> SameElsewhere(old(Taken()))
      ensures err != 0 && spoiled ==> (Taken() == old(Taken()) <==> buf[..] == old(buf[..]))
      ensures err != 0 && spoiled && pindex < Max(|old(file)|, old(last) + 1) ==> Fails(buf[..]) in old(io)
      ensures err != 0 && spoiled && pindex >= Max(|old(file)|, old(last) + 1) ==> buf[..] == ZeroPage()
      ensures Clean(old(io)) ==> err == 0 && Clean(io)
      ensures old(Searchable()) ==> Searchable()
    {
      hide Numbers, ZeroPage, Stored, Shared;
      spoiled := false;
      if pindex == last { return 0, false; }
      ghost var page := buf[..];
      MovePage(file, page, last, pindex);
      var r := NextIo();
      if r.Fails? {
        StoredUnder(file, page, last, r.noise);
        if last < |file| { file := Stored(file, last, r.noise); }
        return -EIO, false;
      }
      StoredUnder(file, page, last, page);
      file := Stored(file, last, buf[..]);
      var ok := Bring(pindex);
      if !ok {
        SpoiledPage(file, page, buf[..], last);
        return -EIO, true;
      }
      last := pindex;
      err := 0;
    }

    method FindFirstZero() returns (bit: nat)
      requires buf.Length == PAGE_BITS
      ensures bit <= PAGE_BITS && (bit < PAGE_BITS ==> !buf[bit])
      ensures forall b :: 0 <= b < bit ==> buf[b]
    {
      bit := 0;
      while bit < PAGE_BITS && buf[bit]
        invariant bit <= PAGE_BITS && forall b :: 0 <= b < bit ==> buf[b]
      {
        bit := bit + 1;
      }
    }

    /** One round of the page searches in au_xino_new_ino. */
    method TryPage(pindex: nat) returns (err: int, bit: nat)
      requires Valid() && pindex != last
      modifies this`file, this`last, this`io, buf
      ensures Valid() && (Clean(old(io)) ==> err == 0 && Clean(io)) && SameElsewhere(old(Taken()))
      ensures err == 0 ==>
                last == pindex && Taken() == old(Taken()) && bit <= PAGE_BITS
                && (bit < PAGE_BITS ==> !buf[bit])
      ensures err == 0 ==> |file| == Max(|old(file)|, 1 + Max(pindex, old(last)))
      ensures err == 0 && pindex >= Max(|old(file)|, old(last) + 1) ==> bit == 0
      ensures err == 0 ==> forall b :: 0 <= b < bit ==> buf[b]
      ensures err != 0 ==> last == old(last)
      ensures old(Searchable()) ==> Searchable()
    {
      ghost var spoiled;
      err, spoiled := XibPindex(pindex);
      bit := PAGE_BITS;
      if err == 0 {
        assert pindex >= Max(|old(file)|, old(last) + 1) ==> !buf[..][0];
        bit := FindFirstZero();
      }
    }

    /**
     The search of au_xino_new_ino for a page with a clear bit: the cached page, then the pages below it, then
     the pages above it up to one past the end of the file.  The BUG() after the last loop is reached exactly
     if page 0 is cached and full and the file is empty.
     */
    method FindFree() returns (err: int, bit: nat, bug: bool)
      requires Valid()
      modifies this`file, this`last, this`io, buf
      ensures Valid() && (Clean(old(io)) ==> err == 0 && Clean(io)) && (old(Searchable()) ==> Searchable())
      ensures bug <==> !old(Searchable()) && forall b :: 0 <= b < PAGE_BITS ==> old(buf[b])
      ensures !old(Searchable()) ==> err == 0 && !Searchable() && buf[..] == old(buf[..])
      ensures bug ==> err == 0 && Taken() == old(Taken())
      ensures err == 0 && !bug ==> Taken() == old(Taken()) && bit < PAGE_BITS && !buf[bit]
      ensures old(nextBit) < PAGE_BITS && !old(buf[nextBit]) ==> err == 0 && bit == old(nextBit) && last == old(last)
      ensures old(nextBit) >= PAGE_BITS || old(buf[nextBit]) ==> err != 0 || bug || forall b :: 0 <= b < bit ==> buf[b]
      ensures (exists b :: 0 <= b < PAGE_BITS && !old(buf[b])) ==> err == 0 && last == old(last)
      ensures err != 0 ==> SameElsewhere(old(Taken()))
    {
      bug := false;
      if nextBit < PAGE_BITS && !buf[nextBit] { return 0, nextBit, false; }
      bit := FindFirstZero();
      if bit < PAGE_BITS { return 0, bit, false; }
      var pindex := last;
      var ul: int := pindex - 1;
      while ul >= 0
        invariant -1 <= ul < pindex && Valid() && (Clean(old(io)) ==> Clean(io)) && !bug
        invariant Taken() == old(Taken()) && last == ul + 1
        invariant !old(Searchable()) ==> buf[..] == old(buf[..])
        invariant if ul == pindex - 1 then |file| == |old(file)| else |file| > pindex
      {
        err, bit := TryPage(ul);
        if err != 0 || bit < PAGE_BITS { return; }
        ul := ul - 1;
      }
      var pend := |file|;
      ul := pindex + 1;
      while ul <= pend
        invariant pindex < ul && (ul <= pend + 1 || ul == pindex + 1) && Valid() && (Clean(old(io)) ==> Clean(io))
                  && !bug
        invariant Taken() == old(Taken()) && last < ul && |file| == pend
                  && (old(Searchable()) ==> last < pend && ul <= pend)
        invariant !old(Searchable()) ==> pend == 0 && last == 0 && buf[..] == old(buf[..])
      {
        err, bit := TryPage(ul);
        if err != 0 || bit < PAGE_BITS { return; }
        ul := ul + 1;
      }
      err, bug := 0, true;
    }

    /**
     au_xino_new_ino: 0 on an I/O error, otherwise a number that was free, now in use; no other number
     changes.  Without I/O errors it succeeds, unless it comes to BUG().
     */
    method NewIno() returns (ino: nat, bug: bool)
      requires Valid()
      modifies this`file, this`last, this`io, this`nextBit, buf
      ensures Valid() && (old(Searchable()) ==> Searchable()) && (Clean(old(io)) ==> Clean(io))
      ensures bug <==> !old(Searchable()) && forall b :: 0 <= b < PAGE_BITS ==> old(buf[b])
      ensures ino != 0 ==> ino >= FIRST_INO && ino !in old(Taken()) && Taken() == old(Taken()) + iset{ino}
      ensures ino != 0 ==> nextBit == old(nextBit) + 1
      ensures ino == 0 ==> SameElsewhere(old(Taken())) && nextBit == old(nextBit)
      ensures bug ==> ino == 0
      ensures !old(Searchable()) ==> !Searchable() && (bug || SetOne(old(buf[..]), buf[..]))
      ensures Clean(old(io)) && !bug ==> ino != 0
    {
      var err, bit;
      err, bit, bug := FindFree();
      if err != 0 || bug { return 0, bug; }
      ghost var page := buf[..];
      FlipBit(file, page, last, bit, true);
      buf[bit] := true;
      assert buf[..] == page[bit := true];
      OneClearLess(page, bit);
      nextBit := nextBit + 1;
      ino := CalcIno(last, bit);
    }

    /** au_xino_write: record v for lower inode hIno of branch b. */
    method WriteEntry(b: nat, hIno: nat, v: nat) returns (err: int)
      requires Valid() && b < |br|
      modifies this`tables, this`io
      ensures Valid()
      ensures err == 0 ==> tables == old(tables)[br[b].table := Recording(old(tables)[br[b].table], hIno, v)]
      ensures err != 0 ==> err == -EIO && tables == old(tables)
      ensures Clean(old(io)) ==> err == 0 && Clean(io)
    {
      var r := NextIo();
      if r.Fails? { return -EIO; }
      tables := tables[br[b].table := Recording(tables[br[b].table], hIno, v)];
      err := 0;
    }

    /**
     au_xino_write0: forget that lower inode hIno of branch b has a number, and free ino unless it is 0.
     */
    method Write0(b: nat, hIno: nat, ino: nat) returns (err: int, ghost spoiled: bool)
      requires Valid() && b < |br| && (ino == 0 || ino >= FIRST_INO)
      modifies this`file, this`last, this`io, this`nextBit, this`tables, buf
      ensures Valid()
      ensures err == 0 && ino == 0 ==> Taken() == old(Taken())
      ensures err == 0 && ino != 0 ==> Taken() == old(Taken()) - iset{ino} && nextBit == BitOf(ino)
      ensures err == 0 ==> tables == old(tables)[br[b].table := Recording(old(tables)[br[b].table], hIno, 0)]
      ensures err != 0 ==>
                tables == old(tables)
                && (Taken() == old(Taken()) || Taken() == old(Taken()) - iset{ino} || spoiled)
      ensures err != 0 && spoiled ==> SameElsewhere(old(Taken()))
      ensures (old(Searchable()) ==> Searchable()) && (Clean(old(io)) ==> err == 0 && Clean(io))
    {
      spoiled := false;
      if ino != 0 {
        err, spoiled := XibPindex(PageOf(ino));
        if err != 0 { return; }
        ghost var page := buf[..];
        var bit := BitOf(ino);
        CalcRoundTripBack(ino);
        FlipBit(file, page, last, bit, false);
        buf[bit] := false;
        assert buf[..] == page[bit := false];
        nextBit := bit;
      }
      err := WriteEntry(b, hIno, 0);
    }

    /** One entry met by do_xib_restore. */
    method RestoreEntry(v: nat) returns (err: int)
      requires Valid()
      modifies this`file, this`last, this`io, buf
      ensures Valid() && (Clean(old(io)) ==> err == 0 && Clean(io))
      ensures err == 0 ==> Taken() == old(Taken()) + Wanted([v])
      ensures |old(file)| <= |file|
    {
      if v < FIRST_INO { return 0; }
      ghost var spoiled;
      err, spoiled := XibPindex(PageOf(v));
      if err != 0 { return; }
      ghost var page := buf[..];
      CalcRoundTripBack(v);
      FlipBit(file, page, last, BitOf(v), true);
      buf[BitOf(v)] := true;
      assert buf[..] == page[BitOf(v) := true];
    }

    /** do_xib_restore: mark every number recorded in table t, read a page of entries at a time. */
    method RestoreTable(t: seq<nat>) returns (err: int)
      requires Valid()
      modifies this`file, this`last, this`io, buf
      ensures Valid() && (Clean(old(io)) ==> err == 0 && Clean(io))
      ensures err == 0 ==> Taken() == old(Taken()) + Wanted(t)
      ensures |old(file)| <= |file|
    {
      err := 0;
      var pos := 0;
      while pos < |t|
        invariant 0 <= pos <= |t| && err == 0 && Valid() && (Clean(old(io)) ==> Clean(io))
        invariant Taken() == old(Taken()) + Wanted(t[..pos]) && |old(file)| <= |file|
      {
        var r := NextIo();
        if r.Fails? { return -EIO; }
        var end := if |t| - pos < PAGE_ENTRIES then |t| else pos + PAGE_ENTRIES;
        while pos < end
          invariant 0 <= pos <= end <= |t| && err == 0 && Valid() && (Clean(old(io)) ==> Clean(io))
          invariant Taken() == old(Taken()) + Wanted(t[..pos]) && |old(file)| <= |file|
        {
          assert t[..pos + 1] == t[..pos] + [t[pos]];
          err := RestoreEntry(t[pos]);
          if err != 0 { return; }
          pos := pos + 1;
        }
      }
      assert t[..pos] == t;
    }

    /** One branch of xib_restore: not read at all if an earlier one is on its filesystem. */
    method RestoreBranch(b: nat) returns (err: int)
      requires Valid() && b < |br|
      modifies this`file, this`last, this`io, buf
      ensures (exists i :: 0 <= i < b && br[i].hsb == br[b].hsb) ==> err == 0 && unchanged(this, buf)
      ensures Valid() && (Clean(old(io)) ==> err == 0 && Clean(io))
      ensures err == 0 && old(Taken()) >= Recorded(br, tables, b) ==>
                Taken() == old(Taken()) + Recorded(br, tables, b + 1)
      ensures |old(file)| <= |file|
    {
      var earlier := -1;
      if b > 0 { earlier := IsSbShared(br, b, b - 1); }
      RecordedNext(br, tables, b, earlier);
      err := 0;
      if earlier < 0 { err := RestoreTable(tables[br[b].table]); }
    }

    /** xib_restore: scan each table once, skipping a branch whose filesystem came up before. */
    method Restore() returns (err: int)
      requires Valid()
      modifies this`file, this`last, this`io, buf
      ensures Valid() && (Clean(old(io)) ==> err == 0 && Clean(io))
      ensures err == 0 ==> Taken() == old(Taken()) + Recorded(br, tables, |br|)
      ensures |old(file)| <= |file|
    {
      err := 0;
      var b := 0;
      while b < |br|
        invariant 0 <= b <= |br| && err == 0 && Valid() && (Clean(old(io)) ==> Clean(io))
        invariant Taken() == old(Taken()) + Recorded(br, tables, b) && |old(file)| <= |file|
      {
        err := RestoreBranch(b);
        if err != 0 { return; }
        b := b + 1;
      }
    }

    /**
     au_xib_trunc: rebuild the bitmap in a fresh file.  A bitmap of one page is left alone; otherwise,
     on success, exactly the recorded numbers are in use, although last still names whatever page was
     cached before.
     */
    method Trunc(created: bool) returns (err: int)
      requires Valid()
      modifies this`file, this`last, this`io, buf
      ensures Valid()
      ensures |old(file)| <= 1 ==> err == 0 && Taken() == old(Taken()) && file == old(file) && last == old(last)
      ensures |old(file)| > 1 && !created ==> err == -EIO && Taken() == old(Taken()) && file == old(file)
      ensures |old(file)| > 1 && err == 0 ==> Taken() == Recorded(br, tables, |br|) && |file| > 0
      ensures Clean(old(io)) ==> Clean(io) && (created ==> err == 0)
      ensures Searchable() <==> if |old(file)| <= 1 then old(Searchable())
                                else !created || old(last) > 0 || old(io) == [] || old(io)[0].Fine?
      ensures !Searchable() && |old(file)| > 1 ==>
                err != 0 && nextBit == old(nextBit) && buf[..] == ZeroPage()
                && io == old(io)[1..]
    {
      if |file| <= 1 { return 0; }
      if !created { return -EIO; }
      file := [];
      Load(ZeroPage());
      var r := NextIo();
      if r.Fails? { return -EIO; }
      file := Stored(file, 0, buf[..]);
      assert Taken() == iset{};
      err := Restore();
    }

    /** After a truncation whose first write failed, page 0 being cached: one page of numbers, then BUG(). */
    method TruncThenBug() returns (bug: bool)
      requires Valid() && |file| > 1 && last == 0 && io != [] && io[0].Fails?
      modifies this`file, this`last, this`io, this`nextBit, buf
      ensures bug
    {
      var err := Trunc(true);
      AllClear(PAGE_BITS);
      var n := 0;
      while n < PAGE_BITS
        invariant 0 <= n <= PAGE_BITS && Valid() && !Searchable() && Clears(buf[..]) == PAGE_BITS - n
      {
        NoneClear(buf[..]);
        var ino;
        ino, bug := NewIno();
        n := n + 1;
      }
      NoneClear(buf[..]);
      var _, b := NewIno();
      bug := b;
    }

    /** What the allocator stands for: the numbers in use and the tables. */
    ghost function Meaning(): Plain
      reads this, buf
    {
      Plain(Taken(), tables)
    }

    /** One call of the allocator, on behalf of a branch that is there. */
    method Do(op: Op) returns (out: Out)
      requires Valid() && OpOk(br, op)
      modifies this`file, this`last, this`io, this`nextBit, this`tables, buf
      ensures Valid() && (Clean(old(io)) ==> Clean(io))
      ensures out == Bug <==> op.New? && !old(Searchable()) && forall b :: 0 <= b < PAGE_BITS ==> old(buf[b])
      ensures out !in {Failed, Bug} ==>
                Fits(br, old(Meaning()), op, out)
                && Meaning() == Next(br, old(Meaning()), op, out)
      ensures Clean(old(io)) && out == Failed ==> op == Rebuild(false)
      ensures old(Searchable()) && !Searchable() ==> op == Rebuild(true) && out == Failed && last == 0
    {
      match op
      case New =>
        var ino, bug := NewIno();
        out := if bug then Bug else if ino == 0 then Failed else Number(ino);
      case Free(b, hIno, ino) =>
        var err, _ := Write0(b, hIno, ino);
        out := if err == 0 then Done else Failed;
      case Record(b, hIno, v) =>
        var err := WriteEntry(b, hIno, v);
        out := if err == 0 then Done else Failed;
      case Rebuild(created) =>
        var small := |file| <= 1;
        var err := Trunc(created);
        out := if err != 0 then Failed else if small then Done else Rebuilt;
    }

    /**
     Any run of allocations, removals, records and truncations.  While none fails the bitmap is the plain set
     it stands for; BUG() is not reached unless a truncation had failed.
     */
    method Run(ops: seq<Op>) returns (outs: seq<Out>)
      requires Valid() && Searchable() && forall i :: 0 <= i < |ops| ==> OpOk(br, ops[i])
      modifies this`file, this`last, this`io, this`nextBit, this`tables, buf
      ensures Valid() && |outs| == |ops|
      ensures Smooth(outs) ==> FitAll(br, old(Meaning()), ops, outs) && Meaning() == Last(br, old(Meaning()), ops, outs)
      ensures Bug in outs ==> exists i :: 0 <= i < |ops| && ops[i] == Rebuild(true) && outs[i] == Failed
      ensures Clean(old(io)) && Rebuild(false) !in ops ==> Smooth(outs)
    {
      outs := [];
      while |outs| < |ops|
        invariant |outs| <= |ops| && Valid() && (Clean(old(io)) ==> Clean(io))
        invariant Smooth(outs) ==>
                    FitAll(br, old(Meaning()), ops[..|outs|], outs)
                    && Meaning() == Last(br, old(Meaning()), ops[..|outs|], outs)
        invariant Searchable() || exists i :: 0 <= i < |outs| && ops[i] == Rebuild(true) && outs[i] == Failed
        invariant Bug in outs ==> exists i :: 0 <= i < |outs| && ops[i] == Rebuild(true) && outs[i] == Failed
        invariant Clean(old(io)) && Rebuild(false) !in ops ==> Smooth(outs)
        decreases |ops| - |outs|
      {
        ghost var n, before := |outs|, outs;
        var out := Do(ops[|outs|]);
        outs := outs + [out];
        SmoothNext(before, out);
        assert ops[..n + 1][..n] == ops[..n] && outs[..n] == before;
        assert outs[n] == out && forall i :: 0 <= i < n ==> outs[i] == before[i];
      }
      assert ops[..|outs|] == ops;
    }
  }

  /** A call of the allocator: a new number, the removal or the recording of one, a truncation. */
  datatype Op = New | Free(b: nat, hIno: nat, ino: nat) | Record(b: nat, hIno: nat, ino: nat) | Rebuild(created: bool)

  datatype Out = Number(ino: nat) | Done | Rebuilt | Failed | Bug

  /** What the caller has: the numbers in use, as a plain set, and the tables. */
  datatype Plain = Plain(taken: iset<nat>, tables: seq<seq<nat>>)

  predicate OpOk(br: seq<XBranch>, op: Op) {
    match op
    case Free(b, _, ino) => b < |br| && (ino == 0 || ino >= FIRST_INO)
    case Record(b, _, _) => b < |br|
    case _ => true
  }

  /** The answer is one the plain set allows: a new number is a free one. */
  ghost predicate Fits(br: seq<XBranch>, s: Plain, op: Op, out: Out) {
    match op
    case New => out.Number? && out.ino >= FIRST_INO && out.ino !in s.taken
    case Rebuild(_) => out == Done || (out == Rebuilt && Shared(br, s.tables))
    case _ => out == Done
  }

  ghost function Next(br: seq<XBranch>, s: Plain, op: Op, out: Out): Plain
    requires OpOk(br, op) && Fits(br, s, op, out)
  {
    match op
    case New => s.(taken := s.taken + iset{out.ino})
    case Free(b, hIno, ino) => Plain(s.taken - (if ino == 0 then iset{} else iset{ino}),
        Noted(br, s.tables, b, hIno, 0))
    case Record(b, hIno, v) => s.(tables := Noted(br, s.tables, b, hIno, v))
    case Rebuild(_) => if out == Rebuilt then s.(taken := Recorded(br, s.tables, |br|)) else s
  }

  function Noted(br: seq<XBranch>, tables: seq<seq<nat>>, b: nat, hIno: nat, v: nat): seq<seq<nat>>
    requires b < |br|
  {
    var t := br[b].table;
    if t < |tables| then tables[t := Recording(tables[t], hIno, v)] else tables
  }

  ghost predicate FitAll(br: seq<XBranch>, s: Plain, ops: seq<Op>, outs: seq<Out>)
    requires forall i :: 0 <= i < |ops| ==> OpOk(br, ops[i])
    decreases |ops|, 0
  {
    ops == [] || (|outs| == |ops| && FitAll(br, s, ops[..|ops| - 1], outs[..|ops| - 1])
      && Fits(br, Last(br, s, ops[..|ops| - 1], outs[..|ops| - 1]), ops[|ops| - 1], outs[|ops| - 1]))
  }

  /** The plain set after a run. */
  ghost function Last(br: seq<XBranch>, s: Plain, ops: seq<Op>, outs: seq<Out>): Plain
    requires (forall i :: 0 <= i < |ops| ==> OpOk(br, ops[i])) && FitAll(br, s, ops, outs)
    decreases |ops|, 1
  {
    if ops == [] then s
    else Next(br, Last(br, s, ops[..|ops| - 1], outs[..|ops| - 1]), ops[|ops| - 1], outs[|ops| - 1])
  }

  /** The number of clear bits of a page. */
  ghost function Clears(s: Page): nat {
    if s == [] then 0 else Clears(s[..|s| - 1]) + if s[|s| - 1] then 0 else 1
  }

  ghost predicate SetOne(s: Page, t: Page) {
    |s| == |t| && Clears(s) == Clears(t) + 1
  }

  lemma {:induction false} OneClearLess(s: Page, bit: nat)
    requires bit < |s| && !s[bit]
    ensures SetOne(s, s[bit := true])
  {
    var t, n := s[bit := true], |s| - 1;
    if bit < n {
      OneClearLess(s[..n], bit);
      assert t[..n] == s[..n][bit := true];
    } else {
      assert t[..n] == s[..n];
    }
  }

  lemma {:induction false} AllClear(n: nat)
    ensures Clears(seq(n, _ => false)) == n
  {
    if n > 0 {
      AllClear(n - 1);
      assert seq(n, _ => false)[..n - 1] == seq(n - 1, _ => false);
    }
  }

  lemma {:induction false} NoneClear(s: Page)
    ensures Clears(s) == 0 <==> forall b :: 0 <= b < |s| ==> s[b]
  {
    if s != [] {
      var n := |s| - 1;
      NoneClear(s[..n]);
      assert forall b :: 0 <= b < n ==> s[..n][b] == s[b];
    }
  }

  ghost predicate Smooth(outs: seq<Out>) {
    Failed !in outs && Bug !in outs
  }

  lemma SmoothNext(outs: seq<Out>, out: Out)
    ensures Smooth(outs + [out]) <==> Smooth(outs) && out !in {Failed, Bug}
  {
  }

  function Max(a: int, b: int): int { if a < b then b else a }

  ghost predicate Clean(io: seq<Io>) {
    forall i :: 0 <= i < |io| ==> io[i].Fine?
  }

  /** Number 11 is in use and the write that makes page 1 fails: 11 is free again. */
  method NumberLost() returns (x: Xib, err: int, ghost before: iset<nat>)
    ensures err != 0 && FIRST_INO in before && FIRST_INO !in x.Taken()
  {
    var page := new bool[PAGE_BITS](i => i == 0);
    x := new Xib(page, [], [], [Fine, Fails(ZeroPage())]);
    before := x.Taken();
    assert PageOf(FIRST_INO) == BitOf(FIRST_INO) == 0;
    ghost var spoiled;
    err, spoiled := x.XibPindex(1);
    assert [Fine, Fails(ZeroPage())][1].Fails?;
  }
}
