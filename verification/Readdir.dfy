/**
 Handing out a packed listing (vdir.c): the per-file copy of the blocks, the seek to a file position and
 the loop that fills the caller's buffer until it refuses an entry.
 */
module Readdir {

  import opened Vdir

  /**
   The cursor stands at offset p of block i; rest is what is left of that block and passed counts the
   entries before the cursor.
   */
  ghost predicate Cursor(deblk: seq<Block>, parts: seq<seq<De>>, i: nat, p: nat, rest: seq<De>, passed: nat) {
    && Blocks(deblk, parts) && i < |deblk| && Holds(deblk[i], p, rest)
    && passed <= |Listed(parts, 0)|
    && Listed(parts, 0)[passed..] == Dirents(DEBLK * i, p, rest) + Listed(parts[i + 1..], i + 1)
  }

  lemma AtStart(deblk: seq<Block>, parts: seq<seq<De>>)
    requires Blocks(deblk, parts)
    ensures Cursor(deblk, parts, 0, 0, parts[0], 0)
  {
  }

  lemma PassOne(deblk: seq<Block>, parts: seq<seq<De>>, i: nat, p: nat, rest: seq<De>, passed: nat)
    requires Cursor(deblk, parts, i, p, rest, passed) && rest != []
    ensures passed < |Listed(parts, 0)| && Listed(parts, 0)[passed] == (rest[0], DEBLK * i + p)
    ensures Cursor(deblk, parts, i, p + Size(rest[0]), rest[1..], passed + 1)
    ensures |deblk[i]| == DEBLK && p + HEADER + |rest[0].name| <= DEBLK
    ensures LenAt(deblk[i], p) == |rest[0].name| && DeAt(deblk[i], p) == rest[0]
  {
    HoldsFirst(deblk[i], p, rest);
    assert |parts| == |deblk| && |deblk[i]| == DEBLK;
    DirentsFirst(DEBLK * i, p, rest);
    hide Holds, DeAt, LenAt, Blocks, Listed, Dirents;
    PassList(Listed(parts, 0), passed, (rest[0], DEBLK * i + p),
             Dirents(DEBLK * i, p + Size(rest[0]), rest[1..]), Listed(parts[i + 1..], i + 1));
  }

  lemma DirentsFirst(base: nat, p: nat, es: seq<De>)
    requires es != []
    ensures Dirents(base, p, es) == [(es[0], base + p)] + Dirents(base, p + Size(es[0]), es[1..])
  {
  }

  lemma PassList(all: seq<Dirent>, passed: nat, x: Dirent, inner: seq<Dirent>, tail: seq<Dirent>)
    requires passed <= |all| && all[passed..] == [x] + inner + tail
    ensures passed < |all| && all[passed] == x && all[passed + 1..] == inner + tail
  {
    assert all[passed] == all[passed..][0];
    assert all[passed + 1..] == all[passed..][1..];
  }

  lemma NextBlock(deblk: seq<Block>, parts: seq<seq<De>>, i: nat, p: nat, passed: nat)
    requires Cursor(deblk, parts, i, p, [], passed)
    ensures if i + 1 < |deblk| then Cursor(deblk, parts, i + 1, 0, parts[i + 1], passed)
            else passed == |Listed(parts, 0)|
  {
    if i + 1 < |deblk| {
      assert parts[i + 1..][0] == parts[i + 1] && parts[i + 1..][1..] == parts[i + 2..];
    }
  }

  lemma PassedOffset(deblk: seq<Block>, parts: seq<seq<De>>, i: nat, p: nat, rest: seq<De>, passed: nat)
    requires Cursor(deblk, parts, i, p, rest, passed) && rest != []
    ensures p < DEBLK && |rest[1..]| == |rest| - 1 && End(p, rest) == End(p + Size(rest[0]), rest[1..])
  {
    HoldsFirst(deblk[i], p, rest);
  }

  /** The entries left in a block all lie inside it. */
  lemma {:induction false} Drain(deblk: seq<Block>, parts: seq<seq<De>>, i: nat, p: nat, rest: seq<De>, passed: nat)
    requires Cursor(deblk, parts, i, p, rest, passed)
    ensures Cursor(deblk, parts, i, End(p, rest), [], passed + |rest|)
    ensures forall k :: passed <= k < passed + |rest| ==> DEBLK * i + p <= Listed(parts, 0)[k].1 < DEBLK * (i + 1)
    ensures rest != [] ==> passed < |Listed(parts, 0)|
    decreases |rest|
  {
    if rest != [] {
      PassOne(deblk, parts, i, p, rest, passed);
      PassedOffset(deblk, parts, i, p, rest, passed);
      hide Cursor, Listed;
      Drain(deblk, parts, i, p + Size(rest[0]), rest[1..], passed + 1);
    }
  }

  /** The start of block i. */
  lemma {:induction false} SkipTo(deblk: seq<Block>, parts: seq<seq<De>>, i: nat) returns (passed: nat)
    requires Blocks(deblk, parts) && i < |deblk|
    ensures Cursor(deblk, parts, i, 0, parts[i], passed)
    ensures forall k :: 0 <= k < passed ==> Listed(parts, 0)[k].1 < DEBLK * i
    decreases i
  {
    hide Listed, Dirents, Holds, IsEnd;
    if i == 0 {
      AtStart(deblk, parts);
      passed := 0;
    } else {
      passed := SkipTo(deblk, parts, i - 1);
      Drain(deblk, parts, i - 1, 0, parts[i - 1], passed);
      passed := passed + |parts[i - 1]|;
      NextBlock(deblk, parts, i - 1, End(0, parts[i - 1]), passed);
    }
  }

  /** Positions lie in lo..hi and grow strictly. */
  ghost predicate Ascending(ds: seq<Dirent>, lo: nat, hi: nat) {
    && (forall k :: 0 <= k < |ds| ==> lo <= ds[k].1 < hi)
    && (forall k, l :: 0 <= k < l < |ds| ==> ds[k].1 < ds[l].1)
  }

  lemma AscendingCat(a: seq<Dirent>, b: seq<Dirent>, lo: nat, mid: nat, hi: nat)
    requires Ascending(a, lo, mid) && Ascending(b, mid, hi) && lo <= mid <= hi
    ensures Ascending(a + b, lo, hi)
  {
  }

  lemma {:induction false} DirentsAscend(b: Block, base: nat, p: nat, es: seq<De>)
    requires |b| == DEBLK && Holds(b, p, es)
    ensures Ascending(Dirents(base, p, es), base + p, base + DEBLK)
    decreases |es|
  {
    if es != [] {
      var q := p + Size(es[0]);
      DirentsAscend(b, base, q, es[1..]);
      HoldsEnd(b, q, es[1..]);
      AscendingCat([(es[0], base + p)], Dirents(base, q, es[1..]), base + p, base + q, base + DEBLK);
    }
  }

  /** Positions grow strictly along the listing. */
  lemma {:induction false} ListedAscend(deblk: seq<Block>, parts: seq<seq<De>>, i: nat)
    requires |deblk| == |parts| && forall j :: 0 <= j < |deblk| ==> |deblk[j]| == DEBLK && Holds(deblk[j], 0, parts[j])
    ensures Ascending(Listed(parts, i), DEBLK * i, DEBLK * (i + |parts|))
    decreases |parts|
  {
    if parts != [] {
      DirentsAscend(deblk[0], DEBLK * i, 0, parts[0]);
      ListedAscend(deblk[1..], parts[1..], i + 1);
      AscendingCat(Dirents(DEBLK * i, 0, parts[0]), Listed(parts[1..], i + 1),
                   DEBLK * i, DEBLK * (i + 1), DEBLK * (i + |parts|));
    }
  }

  /** What is still to come lies at or behind the cursor. */
  lemma AheadOf(deblk: seq<Block>, parts: seq<seq<De>>, i: nat, p: nat, rest: seq<De>, passed: nat)
    requires Cursor(deblk, parts, i, p, rest, passed)
    ensures forall k :: passed <= k < |Listed(parts, 0)| ==> DEBLK * i + p <= Listed(parts, 0)[k].1
  {
    DirentsAscend(deblk[i], DEBLK * i, p, rest);
    ListedAscend(deblk[i + 1..], parts[i + 1..], i + 1);
    HoldsEnd(deblk[i], p, rest);
    forall k | passed <= k < |Listed(parts, 0)| ensures DEBLK * i + p <= Listed(parts, 0)[k].1 {
      assert Listed(parts, 0)[k] == Listed(parts, 0)[passed..][k - passed];
    }
  }

  /** What is listed, positions left aside, is what the blocks hold. */
  lemma {:induction false} ListedFlat(parts: seq<seq<De>>, i: nat)
    ensures Plain(Listed(parts, i)) == Flat(parts)
    decreases |parts|
  {
    if parts != [] {
      DirentsPlain(DEBLK * i, 0, parts[0]);
      ListedFlat(parts[1..], i + 1);
      assert Plain(Listed(parts, i)) == Plain(Dirents(DEBLK * i, 0, parts[0])) + Plain(Listed(parts[1..], i + 1));
    }
  }

  lemma {:induction false} DirentsPlain(base: nat, p: nat, es: seq<De>)
    ensures Plain(Dirents(base, p, es)) == es
    decreases |es|
  {
    if es != [] { DirentsPlain(base, p + Size(es[0]), es[1..]); }
  }

  /** passed is where a seek to pos should go: the first entry at or after pos. */
  ghost predicate FirstFrom(all: seq<Dirent>, pos: nat, passed: nat) {
    && passed < |all| && pos <= all[passed].1
    && forall k :: 0 <= k < passed ==> all[k].1 < pos
  }

  /** out are the entries of ds, handed out with positions that are lag too low. */
  ghost predicate Behind(out: seq<Dirent>, ds: seq<Dirent>, lag: nat) {
    |out| == |ds| && forall k :: 0 <= k < |out| ==> out[k].0 == ds[k].0 && out[k].1 + lag == ds[k].1
  }

  ghost predicate SameEntries(out: seq<Dirent>, ds: seq<Dirent>) {
    |out| == |ds| && forall k :: 0 <= k < |out| ==> out[k].0 == ds[k].0
  }

  lemma SameEntriesCat(out: seq<Dirent>, part: seq<Dirent>, all: seq<Dirent>, from: nat, mid: nat, upto: nat, lag: nat)
    requires from <= mid <= upto <= |all|
    requires SameEntries(out, all[from..mid]) && Behind(part, all[mid..upto], lag)
    ensures SameEntries(out + part, all[from..upto])
    ensures lag == 0 && out == all[from..mid] ==> out + part == all[from..upto]
  {
    assert all[from..upto] == all[from..mid] + all[mid..upto];
    if lag == 0 { assert part == all[mid..upto]; }
  }

  function Min(a: int, b: int): int { if a < b then a else b }

  lemma BehindNext(out: seq<Dirent>, all: seq<Dirent>, from: nat, upto: nat, d: Dirent, lag: nat)
    requires from <= upto < |all| && Behind(out, all[from..upto], lag) && all[upto] == (d.0, d.1 + lag)
    ensures Behind(out + [d], all[from..upto + 1], lag)
  {
    assert all[from..upto + 1] == all[from..upto] + [all[upto]];
  }

  function Sum(rooms: seq<nat>): nat {
    if rooms == [] then 0 else Sum(rooms[..|rooms| - 1]) + rooms[|rooms| - 1]
  }

  lemma SumNone(rooms: seq<nat>)
    ensures Sum(rooms[..0]) == 0
  {
  }

  lemma SumNext(rooms: seq<nat>, n: nat)
    requires n < |rooms|
    ensures Sum(rooms[..n + 1]) == Sum(rooms[..n]) + rooms[n]
  {
    assert rooms[..n + 1][..n] == rooms[..n];
  }

  /** Seeking to a position late bytes short of the end of entry stop - 1. */
  lemma SeekBehind(all: seq<Dirent>, hi: nat, stop: nat, pos: nat, late: nat, from: nat)
    requires Ascending(all, 0, hi) && 0 < stop <= |all| && pos + late == all[stop - 1].1 + Size(all[stop - 1].0)
    requires stop < |all| ==> pos + late <= all[stop].1
    requires FirstFrom(all, pos, from) || (pos == 0 && from == 0)
    ensures from <= stop && (from == stop <==> late < Size(all[stop - 1].0))
  {
    assert from == stop && pos > 0 ==> all[stop - 1].1 < pos;
  }

  lemma BehindLast(all: seq<Dirent>, hi: nat, stop: nat, pos: nat, late: nat)
    requires Ascending(all, 0, hi) && 0 < stop <= |all| && pos + late == all[stop - 1].1 + Size(all[stop - 1].0)
    requires late > 0 && (stop < |all| ==> pos + late <= all[stop].1)
    ensures AllBefore(all, |all|, pos) <==> stop == |all| && late < Size(all[stop - 1].0)
  {
    if stop == |all| {
      assert forall k :: 0 <= k < stop - 1 ==> all[k].1 < all[stop - 1].1;
    }
  }

  lemma ThreeListed(a: De, b: De, c: De)
    requires |a.name| == 14 && |b.name| == 1 && |c.name| == 1
    ensures Listed([[a, b, c]], 0) == [(a, 0), (b, 24), (c, 40)] && Size(b) == 16
  {
    assert [[a, b, c]][1..] == [] && [a, b, c][1..] == [b, c] && [b, c][1..] == [c] && [c][1..] == [];
    assert Dirents(0, 40, [c]) == [(c, 40)] by { assert Dirents(0, 56, []) == []; }
    assert Dirents(0, 24, [b, c]) == [(b, 24), (c, 40)];
    assert Dirents(0, 0, [a, b, c]) == [(a, 0), (b, 24), (c, 40)];
    assert Listed([[a, b, c]], 0) == Dirents(0, 0, [a, b, c]);
  }

  /** The first m entries lie before pos. */
  ghost predicate AllBefore(all: seq<Dirent>, m: nat, pos: nat) {
    m <= |all| && forall k :: 0 <= k < m ==> all[k].1 < pos
  }

  lemma SlicesJoin(got: seq<Dirent>, part: seq<Dirent>, all: seq<Dirent>, k: nat, at: nat, upto: nat)
    requires k <= at <= upto <= |all| && got == all[k..at] && part == all[at..upto]
    ensures got + part == all[k..upto]
  {
  }

  /** The file side: the cache is the private copy of the listing, fPos the file position. */
  class OpenDir {
    const cache: Dir
    var fPos: nat
    ghost var rest: seq<De>
    ghost var passed: nat

    ghost predicate Valid()
      reads this, cache
    {
      Cursor(cache.deblk, cache.parts, cache.lastI, cache.lastP, rest, passed)
    }

    ghost function All(): seq<Dirent>
      reads cache`parts
    {
      Listed(cache.parts, 0)
    }

    /** calc_offset: the position of the cursor. */
    function CalcOffset(): nat
      reads this, cache
    {
      DEBLK * cache.lastI + cache.lastP
    }

    constructor (d: Dir, pos: nat)
      requires Blocks(d.deblk, d.parts)
      modifies d`lastI, d`lastP
      ensures Valid() && cache == d && passed == 0 && fPos == pos && cache.lastI == 0 == cache.lastP
    {
      cache, fPos, passed, rest := d, pos, 0, d.parts[0];
      new;
      d.lastI, d.lastP := 0, 0;
      AtStart(d.deblk, d.parts);
    }

    /** The inner loop of seek_vdir on block i: false when the block has no entry at or after fPos. */
    method SeekIn(i: nat, ghost n: nat) returns (found: bool, p: nat, ghost es: seq<De>, ghost m: nat)
      requires i < |cache.parts| && Cursor(cache.deblk, cache.parts, i, 0, cache.parts[i], n)
      requires AllBefore(All(), n, fPos)
      ensures AllBefore(All(), m, fPos)
      ensures found ==> Cursor(cache.deblk, cache.parts, i, p, es, m)
      ensures found ==> FirstFrom(All(), fPos, m) && DEBLK * i + p == All()[m].1 && es != []
      ensures !found ==> if i + 1 < |cache.deblk| then Cursor(cache.deblk, cache.parts, i + 1, 0, cache.parts[i + 1], m)
                         else m == |All()|
    {
      var b := cache.deblk[i];
      p, es, m := 0, cache.parts[i], n;
      while !IsEnd(b, p) && DEBLK * i + p < fPos
        modifies {}
        invariant Cursor(cache.deblk, cache.parts, i, p, es, m) && p <= DEBLK && AllBefore(All(), m, fPos)
        decreases |es|
      {
        PassOne(cache.deblk, cache.parts, i, p, es, m);
        p := p + CalcSize(LenAt(b, p));
        es, m := es[1..], m + 1;
      }
      found := !IsEnd(b, p);
      if found {
        PassOne(cache.deblk, cache.parts, i, p, es, m);
      } else {
        NextBlock(cache.deblk, cache.parts, i, p, m);
      }
    }

    /** The loop of seek_vdir over the blocks from the one fPos lies in. */
    method SeekFrom(start: nat) returns (valid: bool, i: nat, p: nat, ghost es: seq<De>, ghost m: nat)
      requires Blocks(cache.deblk, cache.parts) && start < |cache.deblk| && DEBLK * start <= fPos
      ensures if valid then Cursor(cache.deblk, cache.parts, i, p, es, m) && FirstFrom(All(), fPos, m)
              && DEBLK * i + p == All()[m].1 && es != []
              else AllBefore(All(), |All()|, fPos)
    {
      i, p, es := start, 0, [];
      m := SkipTo(cache.deblk, cache.parts, i);
      var n := |cache.deblk|;
      assert n == |cache.parts|;
      hide Cursor, Listed, Blocks;
      valid := false;
      while i < n
        invariant i <= n == |cache.deblk| == |cache.parts| && AllBefore(All(), m, fPos)
        invariant if i < n then Cursor(cache.deblk, cache.parts, i, 0, cache.parts[i], m) else m == |All()|
      {
        valid, p, es, m := SeekIn(i, m);
        if valid { return; }
        i := i + 1;
      }
    }

    /**
     seek_vdir.  A position equal to the cursor's is taken as it is; 0 goes to the start; any other goes
     to the first entry at or after it, and is refused if there is none.  fPos itself is not adjusted.
     */
    method Seek() returns (valid: bool)
      requires Valid()
      modifies cache`lastI, cache`lastP, this`rest, this`passed
      ensures Valid()
      ensures old(fPos == CalcOffset()) ==> valid && passed == old(passed) && CalcOffset() == fPos
      ensures old(fPos != CalcOffset() && fPos == 0) ==> valid && passed == 0 && CalcOffset() == 0
      ensures old(fPos != CalcOffset() && fPos != 0) ==>
                if valid then FirstFrom(All(), fPos, passed) && CalcOffset() == All()[passed].1 && rest != []
                else passed == 0 && AllBefore(All(), |All()|, fPos)
    {
      if fPos == CalcOffset() { return true; }
      cache.lastI, cache.lastP := 0, 0;
      rest, passed := cache.parts[0], 0;
      AtStart(cache.deblk, cache.parts);
      if fPos == 0 { return true; }
      if fPos / DEBLK >= |cache.deblk| {
        ListedAscend(cache.deblk, cache.parts, 0);
        return false;
      }
      hide Cursor, Listed;
      var i, p;
      ghost var es, m;
      valid, i, p, es, m := SeekFrom(fPos / DEBLK);
      if valid {
        cache.lastI, cache.lastP := i, p;
        rest, passed := es, m;
      }
    }

    /** The block the cursor stands in with k entries passed by a call. */
    ghost function Where(k: nat): int
      reads cache`parts
    {
      if k < |All()| then All()[k].1 / DEBLK else |cache.parts| - 1
    }

    lemma AtEntry()
      requires Valid() && rest != []
      ensures passed < |All()| && cache.lastI == Where(passed)
    {
      PassOne(cache.deblk, cache.parts, cache.lastI, cache.lastP, rest, passed);
    }

    /** The cursor stands right behind the entry last passed, in the same block. */
    ghost predicate Behindmost()
      reads this, cache
    {
      0 < passed <= |All()| && CalcOffset() == All()[passed - 1].1 + Size(All()[passed - 1].0)
    }

    /** One entry goes out. */
    method Deliver(ghost lag: nat) returns (d: Dirent)
      requires Valid() && fPos + lag == CalcOffset() && rest != []
      modifies cache`lastP, this
      ensures Valid() && fPos + lag == CalcOffset() && passed == old(passed) + 1 && rest == old(rest)[1..]
      ensures (d.0, d.1 + lag) == All()[old(passed)] && Behindmost()
    {
      hide Cursor, Listed, Blocks, Holds, DeAt, LenAt, IsEnd;
      RestEnds();
      PassOne(cache.deblk, cache.parts, cache.lastI, cache.lastP, rest, passed);
      var b := cache.deblk[cache.lastI];
      d := (DeAt(b, cache.lastP), fPos);
      var l := CalcSize(LenAt(b, cache.lastP));
      cache.lastP, fPos := cache.lastP + l, fPos + l;
      rest, passed := rest[1..], passed + 1;
    }

    lemma RestEnds()
      requires Valid()
      ensures cache.lastI < |cache.deblk| == |cache.parts| && |cache.deblk[cache.lastI]| == DEBLK && passed <= |All()|
      ensures cache.lastP <= DEBLK && (IsEnd(cache.deblk[cache.lastI], cache.lastP) <==> rest == [])
    {
    }

    /**
     The inner loop of au_vdir_fill_de: entries of the current block go to the caller until it refuses
     one; it takes room of them.  lag is how far fPos stays behind the cursor.
     */
    method FillBlock(room: nat, ghost lag: nat) returns (out: seq<Dirent>, refused: bool)
      requires Valid() && fPos + lag == CalcOffset()
      modifies cache`lastP, this
      ensures Valid() && fPos + lag == CalcOffset() && |out| <= room
      ensures passed == old(passed) + |out| && Behind(out, All()[old(passed)..passed], lag)
      ensures out != [] ==> Behindmost()
      ensures if refused then |out| == room && rest != [] else rest == []
    {
      hide Cursor, Listed, Blocks;
      RestEnds();
      out := [];
      var b := cache.deblk[cache.lastI];
      while !IsEnd(b, cache.lastP)
        invariant Valid() && fPos + lag == CalcOffset() && |out| <= room && b == cache.deblk[cache.lastI]
        invariant passed == old(passed) + |out| <= |All()| && Behind(out, All()[old(passed)..passed], lag)
        invariant out != [] ==> Behindmost()
        invariant |b| == DEBLK && cache.lastP <= DEBLK && (IsEnd(b, cache.lastP) <==> rest == [])
        decreases |rest|
      {
        if |out| == room { return out, true; }
        var d := Deliver(lag);
        RestEnds();
        BehindNext(out, All(), old(passed), passed - 1, d, lag);
        out := out + [d];
      }
      refused := false;
    }

    /** On to the next block, where there is one; the file position is right again there. */
    method Advance() returns (more: bool)
      requires Valid() && rest == []
      modifies cache`lastI, cache`lastP, this
      ensures Valid() && passed == old(passed)
      ensures more ==> cache.lastI == old(cache.lastI) + 1 && fPos == CalcOffset()
      ensures !more ==> passed == |All()| && unchanged(cache, this) && cache.lastI == |cache.parts| - 1
      ensures |cache.deblk| - cache.lastI == |cache.deblk| - old(cache.lastI) - if more then 1 else 0
    {
      RestEnds();
      NextBlock(cache.deblk, cache.parts, cache.lastI, cache.lastP, passed);
      hide Cursor, Listed, Blocks;
      more := cache.lastI < |cache.deblk| - 1;
      if more {
        cache.lastI, cache.lastP := cache.lastI + 1, 0;
        rest := cache.parts[cache.lastI];
        fPos := DEBLK * cache.lastI;
      }
    }

    /** The loops of au_vdir_fill_de, from a cursor lag ahead of the file position. */
    method Fill(room: nat, ghost lag: nat) returns (out: seq<Dirent>)
      requires Valid() && fPos + lag == CalcOffset()
      modifies cache`lastI, cache`lastP, this
      ensures Valid() && |out| == Min(room, |All()| - old(passed)) && passed == old(passed) + |out|
      ensures cache.lastI == Where(passed)
      ensures SameEntries(out, All()[old(passed)..passed])
      ensures lag == 0 ==> out == All()[old(passed)..passed]
      ensures fPos + (if cache.lastI == old(cache.lastI) then lag else 0) == CalcOffset()
      ensures out != [] && cache.lastI == old(cache.lastI) ==> Behindmost()
    {
      hide Cursor, Listed, Blocks;
      RestEnds();
      out := [];
      ghost var late := lag;
      ghost var from := passed;
      var more := true;
      while more
        invariant Valid() && passed == from + |out| <= |All()| && |out| <= room && cache.lastI < |cache.deblk|
        invariant SameEntries(out, All()[from..passed]) && (lag == 0 ==> out == All()[from..passed])
        invariant late == (if cache.lastI == old(cache.lastI) then lag else 0) && fPos + late == CalcOffset()
        invariant cache.lastI >= old(cache.lastI) && (!more ==> passed == |All()| && cache.lastI == |cache.parts| - 1)
        invariant cache.lastI == old(cache.lastI) ==> if more then out == [] else out == [] || Behindmost()
        decreases more, |cache.deblk| - cache.lastI
      {
        ghost var p0 := passed;
        var part, refused := FillBlock(room - |out|, late);
        RestEnds();
        SameEntriesCat(out, part, All(), from, p0, passed, late);
        out := out + part;
        if refused {
          AtEntry();
          return;
        }
        more := Advance();
        RestEnds();
        if more { late := 0; }
      }
    }

    /**
     au_vdir_fill_de.  from is the entry it starts at, lag the distance from fPos to it; a position
     that is an entry's own, the cursor's or 0 has no lag.
     */
    method FillDe(room: nat) returns (out: seq<Dirent>, ghost from: nat, ghost lag: nat)
      requires Valid()
      modifies cache`lastI, cache`lastP, this
      ensures Valid() && from <= |All()|
      ensures old(fPos == CalcOffset()) ==> from == old(passed) && lag == 0
      ensures old(fPos != CalcOffset() && fPos == 0) ==> from == 0 && lag == 0
      ensures old(fPos != CalcOffset() && fPos != 0) ==>
                if from < |All()| then FirstFrom(All(), old(fPos), from) && lag == All()[from].1 - old(fPos)
                else out == [] && fPos == old(fPos) && AllBefore(All(), |All()|, fPos)
      ensures from < |All()| || lag == 0 ==> passed == from + |out| && |out| == Min(room, |All()| - from)
      ensures from < |All()| || lag == 0 ==> SameEntries(out, All()[from..passed])
      ensures lag == 0 ==> out == All()[from..passed] && fPos == CalcOffset()
      ensures from < |All()| ==> fPos + (if Where(passed) == Where(from) then lag else 0) == CalcOffset()
      ensures out != [] && fPos != CalcOffset() ==> fPos + lag == CalcOffset() && Behindmost()
    {
      hide Cursor, Listed, Blocks;
      var valid := Seek();
      if !valid { return [], |All()|, 1; }
      RestEnds();
      from, lag := passed, CalcOffset() - fPos;
      if lag > 0 { AtEntry(); }
      out := Fill(room, lag);
    }

    /** Entry k is where the file position points: the cursor, the start, or an entry's own position. */
    ghost predicate PointsTo(k: nat)
      requires Valid()
      reads this, cache
    {
      if fPos == CalcOffset() then k == passed
      else if fPos == 0 then k == 0
      else k < |All()| && All()[k].1 == fPos
    }

    lemma PointsToFirst(k: nat, from: nat)
      requires Valid() && PointsTo(k) && fPos != CalcOffset() && fPos != 0
      ensures FirstFrom(All(), fPos, from) ==> from == k
      ensures exists j :: 0 <= j < |All()| && All()[j].1 >= fPos
    {
      ListedAscend(cache.deblk, cache.parts, 0);
    }

    /** One call from a position that was handed out. */
    method ReadNext(room: nat, ghost at: nat) returns (part: seq<Dirent>)
      requires Valid() && PointsTo(at) && at <= |All()|
      modifies cache`lastI, cache`lastP, this
      ensures Valid() && fPos == CalcOffset() && passed == at + |part| && |part| == Min(room, |All()| - at)
      ensures part == All()[at..passed]
    {
      if fPos != CalcOffset() && fPos != 0 {
        forall from | FirstFrom(All(), fPos, from) ensures from == at { PointsToFirst(at, from); }
        PointsToFirst(at, at);
      }
      ghost var from, lag;
      part, from, lag := FillDe(room);
    }

    /**
     Reading on in any number of calls, with buffers of any size, from a position that was handed out:
     the chunks together are the entries from there, none lost and none repeated.
     */
    method ReadOn(rooms: seq<nat>, ghost k: nat) returns (got: seq<Dirent>)
      requires Valid() && PointsTo(k) && k <= |All()|
      modifies cache`lastI, cache`lastP, this
      ensures Valid() && k + |got| <= |All()| && got == All()[k..k + |got|]
      ensures rooms != [] ==> |got| == Min(Sum(rooms), |All()| - k) && fPos == CalcOffset() && passed == k + |got|
    {
      hide Cursor, Listed, Blocks, Sum;
      got := [];
      var n := 0;
      ghost var at: nat, all := k, All();
      assert Sum(rooms[..0]) == 0 by { SumNone(rooms); }
      while n < |rooms|
        invariant 0 <= n <= |rooms| && Valid() && PointsTo(at) && all == All() && at == k + |got| <= |all|
        invariant got == all[k..at] && |got| == Min(Sum(rooms[..n]), |all| - k)
        invariant n > 0 ==> fPos == CalcOffset()
      {
        var part := ReadNext(rooms[n], at);
        SumNext(rooms, n);
        SlicesJoin(got, part, all, k, at, passed);
        got, at, n := got + part, passed, n + 1;
      }
      assert rooms[..n] == rooms;
    }

    /**
     A call starts at entry from after one that stopped at stop and left the file position late bytes behind:
     it resumes there exactly if late is less than the size of the last entry handed out.
     */
    ghost predicate Resumes(from: nat, stop: nat, late: int)
      reads cache`parts
    {
      && 0 < stop <= |All()| && from <= stop && (from == stop <==> late < Size(All()[stop - 1].0))
      && (late > 0 ==> late <= All()[stop - 1].1 + Size(All()[stop - 1].0)
                       && FirstFrom(All(), All()[stop - 1].1 + Size(All()[stop - 1].0) - late, from))
    }

    lemma Repeats(late: nat, from: nat)
      requires Valid() && Behindmost() && fPos + late == CalcOffset()
      requires FirstFrom(All(), fPos, from) || (fPos == 0 && from == 0)
      ensures Resumes(from, passed, late)
    {
      hide Listed, Holds, IsEnd;
      ListedAscend(cache.deblk, cache.parts, 0);
      AheadOf(cache.deblk, cache.parts, cache.lastI, cache.lastP, rest, passed);
      hide Cursor, Blocks, Listed;
      SeekBehind(All(), DEBLK * |cache.parts|, passed, fPos, late, from);
    }

    /** No entry is left at or after the file position exactly if it lies in or behind the very last one. */
    lemma NothingLeft(late: nat)
      requires Valid() && Behindmost() && fPos + late == CalcOffset() && late > 0
      ensures AllBefore(All(), |All()|, fPos) <==> passed == |All()| && late < Size(All()[passed - 1].0)
    {
      hide Listed, Holds, IsEnd;
      ListedAscend(cache.deblk, cache.parts, 0);
      AheadOf(cache.deblk, cache.parts, cache.lastI, cache.lastP, rest, passed);
      hide Cursor, Blocks, Listed;
      BehindLast(All(), DEBLK * |cache.parts|, passed, fPos, late);
    }

    /** The entry a call starts at, if it hands out any: the cursor's, the first, or the first at or after fPos. */
    ghost predicate StartsAt(k: nat)
      reads this, cache
    {
      if fPos == CalcOffset() then k == passed
      else if fPos == 0 then k == 0
      else FirstFrom(All(), fPos, k)
    }

    /**
     How far the file position is behind the cursor after a call from entry from up to stop: by as much as
     before, while the cursor stays in the block it started in, and not at all once it has left it.
     */
    ghost function Late(from: nat, stop: nat): int
      reads this, cache
    {
      if fPos == CalcOffset() || fPos == 0 || from >= |All()| || Where(stop) != Where(from) then 0
      else All()[from].1 - fPos
    }

    /** Some call hands out entries from here. */
    method ReadFirst(room: nat) returns (out: seq<Dirent>, ghost from: nat)
      requires Valid()
      modifies cache`lastI, cache`lastP, this
      ensures Valid() && from <= |All()|
      ensures out != [] ==>
                old(StartsAt(from)) && |out| == Min(room, |All()| - from)
                && SameEntries(out, All()[from..from + |out|])
      ensures out != [] ==>
                passed == from + |out| && 0 <= old(Late(from, from + |out|))
                && fPos + old(Late(from, from + |out|)) == CalcOffset()
      ensures out != [] && fPos != CalcOffset() ==> Behindmost()
      ensures forall k: nat :: old(StartsAt(k)) && k < |All()| && room > 0 ==> out != []
    {
      hide Cursor, Listed, Blocks, Behindmost;
      ghost var lag;
      out, from, lag := FillDe(room);
    }

    /** The call after one that has handed out entries and left the file position late bytes behind. */
    method ReadAfter(room: nat, ghost late: nat) returns (out: seq<Dirent>, ghost from: nat)
      requires Valid() && fPos + late == CalcOffset() && 0 < passed <= |All()| && (late > 0 ==> Behindmost())
      modifies cache`lastI, cache`lastP, this
      ensures Valid() && from <= |All()|
      ensures room > 0 ==> (out != [] <==> old(passed) < |All()| || Size(All()[old(passed) - 1].0) <= late)
      ensures out != [] ==> |out| == Min(room, |All()| - from) && SameEntries(out, All()[from..from + |out|])
      ensures out != [] ==> Resumes(from, old(passed), late)
    {
      hide Cursor, Listed, Blocks, Where;
      ghost var lag, stop, pos := 0, passed, fPos;
      forall k: nat | late > 0 && (FirstFrom(All(), fPos, k)
          || (fPos == 0 && k == 0)) ensures Resumes(k, passed, late) {
        Repeats(late, k);
      }
      if late > 0 { NothingLeft(late); }
      hide FirstFrom, Behindmost, Resumes;
      if late == 0 { ResumesAt(stop); }
      out, from, lag := FillDe(room);
    }

    lemma ResumesAt(stop: nat)
      requires 0 < stop <= |All()|
      ensures Resumes(stop, stop, 0)
    {
    }

    /**
     Two calls in a row from any position: the second starts where the first stopped exactly when the
     file position then lags by less than the size of the last entry handed out; otherwise it starts at the
     first entry at or after the file position, and entries repeat.
     */
    method ReadTwice(room1: nat, room2: nat)
      returns (out1: seq<Dirent>, out2: seq<Dirent>, ghost from1: nat, ghost from2: nat)
      requires Valid()
      modifies cache`lastI, cache`lastP, this
      ensures Valid() && from1 <= |All()| && from2 <= |All()|
      ensures out1 != [] ==>
                old(StartsAt(from1)) && |out1| == Min(room1, |All()| - from1)
                && SameEntries(out1, All()[from1..from1 + |out1|])
      ensures forall k: nat :: old(StartsAt(k)) && k < |All()| && room1 > 0 ==> out1 != []
      ensures out1 != [] && room2 > 0 ==>
                (out2 != [] <==>
                  from1 + |out1| < |All()|
                  || Size(All()[from1 + |out1| - 1].0) <= old(Late(from1, from1 + |out1|)))
      ensures out1 != [] && out2 != [] ==>
                && |out2| == Min(room2, |All()| - from2) && SameEntries(out2, All()[from2..from2 + |out2|])
                && Resumes(from2, from1 + |out1|, old(Late(from1, from1 + |out1|)))
    {
      hide *;
      out1, from1 := ReadFirst(room1);
      if out1 == [] {
        ghost var lag;
        out2, from2, lag := FillDe(room2);
        return;
      }
      NotAhead();
      ghost var late := CalcOffset() - fPos;
      out2, from2 := ReadAfter(room2, late);
    }

    lemma NotAhead()
      requires Valid()
      ensures passed <= |All()|
    {
    }
  }

  /** Seeking into an entry hands out the next one, and the call after that hands it out again. */
  method MiddleSeekRepeats(d: OpenDir, a: De, b: De, c: De) returns (out1: seq<Dirent>, out2: seq<Dirent>)
    requires d.Valid() && d.cache.parts == [[a, b, c]] && d.CalcOffset() == 0 && d.fPos == 1
    requires |a.name| == 14 && |b.name| == 1 && |c.name| == 1
    modifies d, d.cache`lastI, d.cache`lastP
    ensures |out1| == |out2| == 1 && out1[0].0 == out2[0].0 == b
  {
    ThreeListed(a, b, c);
    hide Cursor, Listed, Blocks;
    ghost var from1, from2;
    assert d.All() == [(a, 0), (b, 24), (c, 40)] && d.StartsAt(1);
    out1, out2, from1, from2 := d.ReadTwice(1, 1);
  }
}
