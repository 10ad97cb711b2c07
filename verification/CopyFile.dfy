/** Copying a file's contents (misc.c): block by block, blocks of zeros skipped, transfers that come up short. */
module CopyFile {

  import opened Errno

  /** How the next transfer goes: try again, fail, or move at most n bytes. */
  datatype Io = Again | Interrupted | Hard | Moves(n: nat)

  type Bytes = seq<nat>

  /** How a transfer of up to sz bytes ends: the count, or an error. */
  function Result(io: seq<Io>, sz: nat): int {
    if io == [] then sz
    else
      match io[0]
      case Again => -EAGAIN
      case Interrupted => -EINTR
      case Hard => -EIO
      case Moves(n) => if n < sz then n else sz
  }

  function After(io: seq<Io>): seq<Io> {
    if io == [] then [] else io[1..]
  }

  /** A loop of transfers: what it ends with and the transfers that are left. */
  datatype Loop = Loop(n: int, rest: seq<Io>)

  /** The read loop: bytes, or an error. */
  function ReadOf(io: seq<Io>, sz: nat): (r: Loop)
    requires 0 < sz
    ensures r.n == -EIO || 0 < r.n <= sz
  {
    var n := Result(io, sz);
    if n in {0, -EAGAIN, -EINTR} then ReadOf(io[1..], sz) else Loop(n, After(io))
  }

  /** The write loop: the bytes written before it is done or fails for good. */
  function WriteOf(io: seq<Io>, sz: nat): (r: Loop)
    ensures 0 <= r.n <= sz
    decreases |io|, sz
  {
    if sz == 0 then Loop(0, io)
    else if io == [] then Loop(sz, [])
    else
      var n := Result(io, sz);
      if n == -EIO then Loop(0, io[1..])
      else if n < 0 then WriteOf(io[1..], sz)
      else var w := WriteOf(io[1..], sz - n); Loop(n + w.n, w.rest)
  }

  /** The write of the last byte: 1, 0 if it stalled, or an error. */
  function LastOf(io: seq<Io>): (r: Loop)
    ensures r.n in {1, 0, -EIO}
  {
    var n := Result(io, 1);
    if n in {-EAGAIN, -EINTR} then LastOf(io[1..]) else Loop(n, After(io))
  }

  /** What becomes of a copy: its error, the blocks read, what was written of each, the transfers left. */
  datatype Outcome = Outcome(err: int, blocks: seq<Bytes>, kept: seq<Bytes>, rest: seq<Io>)

  function Behind(b: Bytes, k: Bytes, o: Outcome): Outcome {
    Outcome(o.err, [b] + o.blocks, [k] + o.kept, o.rest)
  }

  /** The copy of left bytes of s from pos on, the transfers going as io says. */
  function Plan(s: Bytes, pos: nat, left: nat, blk: nat, io: seq<Io>): (o: Outcome)
    requires pos + left <= |s| && 0 < blk
    ensures |o.blocks| == |o.kept|
    decreases left
  {
    if left == 0 then Outcome(0, [], [], io)
    else
      var r := ReadOf(io, if left < blk then left else blk);
      if r.n < 0 then Outcome(r.n, [], [], r.rest)
      else
        var b := s[pos..pos + r.n];
        var w := EmitOf(b, blk, r.rest);
        Behind(b, b[..w.n], Plan(s, pos + r.n, left - r.n, blk, w.rest))
  }

  /** rest is what io is after some transfers, ... */
  ghost predicate Rest(io: seq<Io>, rest: seq<Io>) {
    |rest| <= |io| && io[|io| - |rest|..] == rest
  }

  /** ... one of which failed for good, ... */
  ghost predicate Hit(io: seq<Io>, rest: seq<Io>) {
    |rest| <= |io| && Hard in io[..|io| - |rest|]
  }

  /** ... the last of them. */
  ghost predicate HitLast(io: seq<Io>, rest: seq<Io>) {
    |rest| < |io| && io[|io| - |rest| - 1] == Hard
  }

  lemma MetBoth(a: seq<Io>, b: seq<Io>, c: seq<Io>)
    requires Rest(a, b) && Rest(b, c)
    ensures Rest(a, c) && (Hit(a, c) <==> Hit(a, b) || Hit(b, c)) && (HitLast(b, c) ==> HitLast(a, c))
  {
    assert a[..|a| - |c|] == a[..|a| - |b|] + b[..|b| - |c|];
  }

  lemma MetOne(io: seq<Io>)
    ensures Rest(io, After(io)) && Rest(io, io) && !Hit(io, io)
    ensures Hit(io, After(io)) <==> io != [] && io[0] == Hard
    ensures HitLast(io, After(io)) <==> io != [] && io[0] == Hard
  {
    assert io[..0] == [];
  }

  lemma {:induction false} ReadMet(io: seq<Io>, sz: nat)
    requires 0 < sz
    ensures var r := ReadOf(io, sz);
              Rest(io, r.rest) && (Hit(io, r.rest) <==> r.n < 0)
              && (r.n < 0 ==> HitLast(io, r.rest))
    ensures ReadOf(io, sz).n < 0 || 0 < ReadOf(io, sz).n <= sz
  {
    hide Rest, Hit, HitLast;
    MetOne(io);
    if Result(io, sz) in {0, -EAGAIN, -EINTR} {
      ReadMet(io[1..], sz);
      MetBoth(io, io[1..], ReadOf(io, sz).rest);
    }
  }

  lemma {:induction false} WriteMet(io: seq<Io>, sz: nat)
    ensures var w := WriteOf(io, sz); Rest(io, w.rest) && (Hit(io, w.rest) <==> w.n < sz)
    decreases |io|
  {
    hide Rest, Hit, HitLast;
    MetOne(io);
    if sz != 0 && io != [] && Result(io, sz) != -EIO {
      var m := if Result(io, sz) < 0 then 0 else Result(io, sz);
      WriteMet(io[1..], sz - m);
      MetBoth(io, io[1..], WriteOf(io[1..], sz - m).rest);
    }
  }

  lemma {:induction false} LastMet(io: seq<Io>)
    ensures var r := LastOf(io); Rest(io, r.rest) && (Hit(io, r.rest) <==> r.n < 0)
  {
    MetOne(io);
    if Result(io, 1) in {-EAGAIN, -EINTR} {
      LastMet(io[1..]);
      MetBoth(io, io[1..], LastOf(io).rest);
    }
  }

  /** A block goes out, or is skipped if it is a whole one of zeros. */
  function EmitOf(b: Bytes, blk: nat, io: seq<Io>): (w: Loop)
    ensures 0 <= w.n <= |b|
  {
    if b == Zeros(blk) then Loop(|b|, io) else WriteOf(io, |b|)
  }

  /** A whole block of zeros is skipped: it takes no transfer; any other block is written. */
  lemma HoleIsFree(b: Bytes, blk: nat, io: seq<Io>)
    ensures b == Zeros(blk) ==> EmitOf(b, blk, io) == Loop(blk, io)
    ensures b != Zeros(blk) && b != [] && io != [] ==> |EmitOf(b, blk, io).rest| < |io|
  {
    if b != [] && io != [] { WriteTakes(io, |b|); }
  }

  lemma {:induction false} WriteTakes(io: seq<Io>, sz: nat)
    requires 0 < sz && io != []
    ensures |WriteOf(io, sz).rest| < |io|
    decreases |io|
  {
    var n := Result(io, sz);
    if n != -EIO {
      var m := if n < 0 then 0 else n;
      if m < sz && |io| > 1 { WriteTakes(io[1..], sz - m); }
    }
  }

  lemma EmitMet(b: Bytes, blk: nat, io: seq<Io>)
    ensures var w := EmitOf(b, blk, io); 0 <= w.n <= |b| && Rest(io, w.rest) && (Hit(io, w.rest) <==> w.n < |b|)
  {
    hide Rest, Hit, HitLast, WriteOf, Zeros;
    MetOne(io);
    WriteMet(io, |b|);
  }

  /**
   A copy whose loop ends without an error cut a block exactly if a transfer failed for good; one that ends
   with an error ends at such a transfer.
   */
  ghost predicate Reported(io: seq<Io>, o: Outcome) {
    && Rest(io, o.rest)
    && if o.err == 0 then Hit(io, o.rest) <==> o.kept != o.blocks else o.err == -EIO && HitLast(io, o.rest)
  }

  lemma {:induction false} PlanReports(s: Bytes, pos: nat, left: nat, blk: nat, io: seq<Io>)
    requires pos + left <= |s| && 0 < blk
    ensures Reported(io, Plan(s, pos, left, blk, io))
    decreases left
  {
    hide *;
    NoneReported(io);
    PlanStep(s, pos, left, blk, io);
    if left > 0 {
      var sz := if left < blk then left else blk;
      var r := ReadOf(io, sz);
      ReadMet(io, sz);
      if r.n < 0 {
        ErrorReported(io, r.rest);
      } else {
        PlanNext(s, pos, left, blk, io, r);
        var b := s[pos..pos + r.n];
        var w := EmitOf(b, blk, r.rest);
        EmitMet(b, blk, r.rest);
        PlanReports(s, pos + r.n, left - r.n, blk, w.rest);
        MetBoth(io, r.rest, w.rest);
        BehindReported(io, w.rest, b, w.n, Plan(s, pos + r.n, left - r.n, blk, w.rest));
      }
    }
  }

  lemma NoneReported(io: seq<Io>)
    ensures Reported(io, Outcome(0, [], [], io))
  {
    MetOne(io);
  }

  lemma ErrorReported(io: seq<Io>, rest: seq<Io>)
    requires Rest(io, rest) && HitLast(io, rest)
    ensures Reported(io, Outcome(-EIO, [], [], rest))
  {
  }

  lemma BehindReported(io: seq<Io>, mid: seq<Io>, b: Bytes, n: nat, o: Outcome)
    requires n <= |b| && Rest(io, mid) && (Hit(io, mid) <==> n < |b|) && Reported(mid, o)
    ensures Reported(io, Behind(b, b[..n], o))
  {
    hide Rest, Hit, HitLast;
    MetBoth(io, mid, o.rest);
    BehindSame(b, n, o);
  }

  lemma PlanStep(s: Bytes, pos: nat, left: nat, blk: nat, io: seq<Io>)
    requires pos + left <= |s| && 0 < blk
    ensures left == 0 ==> Plan(s, pos, left, blk, io) == Outcome(0, [], [], io)
    ensures left > 0 && ReadOf(io, if left < blk then left else blk).n < 0 ==>
              Plan(s, pos, left, blk, io) == Outcome(-EIO, [], [], ReadOf(io, if left < blk then left else blk).rest)
  {
  }

  lemma PlanNext(s: Bytes, pos: nat, left: nat, blk: nat, io: seq<Io>, r: Loop)
    requires pos + left <= |s| && 0 < blk && left > 0 && r == ReadOf(io, if left < blk then left else blk)
             && 0 < r.n <= left
    ensures var b := s[pos..pos + r.n];
            var w := EmitOf(b, blk, r.rest);
            Plan(s, pos, left, blk, io) == Behind(b, b[..w.n], Plan(s, pos + r.n, left - r.n, blk, w.rest))
  {
  }

  /** How au_copy_file ends: its loop as planned, and the last byte if the last block was skipped. */
  predicate Ends(s: Bytes, len: nat, blk: nat, notify: int, io: seq<Io>, err: int, blocks: seq<Bytes>, kept: seq<Bytes>,
                 tail: bool, stalled: bool, rest: seq<Io>)
    requires len <= |s| && 0 < blk
  {
    var o := Plan(s, 0, len, blk, io);
    var l := LastOf(o.rest);
    var last := o.err == 0 && o.blocks != [] && o.blocks[|o.blocks| - 1] == Zeros(blk);
    && blocks == o.blocks && kept == o.kept && rest == (if last then l.rest else o.rest)
    && tail == (last && l.n == 1) && stalled == (last && l.n != 1)
    && err == if !last then o.err else if l.n == 1 then notify else l.n
  }

  /** o after blocks and kept have come before it. */
  function Ahead(blocks: seq<Bytes>, kept: seq<Bytes>, o: Outcome): Outcome {
    Outcome(o.err, blocks + o.blocks, kept + o.kept, o.rest)
  }

  lemma AheadNone(blocks: seq<Bytes>, kept: seq<Bytes>, o: Outcome)
    requires o.blocks == o.kept == []
    ensures Ahead(blocks, kept, o) == Outcome(o.err, blocks, kept, o.rest)
  {
  }

  lemma AheadStart(o: Outcome)
    ensures Ahead([], [], o) == o
  {
  }

  /** One more block leads from blocks and kept, with o to come, to those with p to come. */
  ghost predicate Goes(blocks: seq<Bytes>, kept: seq<Bytes>, blocks': seq<Bytes>, kept': seq<Bytes>, o: Outcome,
                       p: Outcome) {
    && |blocks'| == |blocks| + 1 && |kept'| == |kept| + 1 && blocks' == blocks + [blocks'[|blocks|]]
        && kept' == kept + [kept'[|kept|]]
    && o == Behind(blocks'[|blocks|], kept'[|kept|], p)
  }

  lemma GoesBehind(blocks: seq<Bytes>, kept: seq<Bytes>, b: Bytes, n: nat, p: Outcome)
    requires n <= |b|
    ensures Goes(blocks, kept, blocks + [b], kept + [b[..n]], Behind(b, b[..n], p), p)
  {
  }

  lemma AheadGoes(blocks: seq<Bytes>, kept: seq<Bytes>, blocks': seq<Bytes>, kept': seq<Bytes>, o: Outcome, p: Outcome)
    requires Goes(blocks, kept, blocks', kept', o, p)
    ensures Ahead(blocks', kept', p) == Ahead(blocks, kept, o)
  {
    assert blocks' + p.blocks == blocks + o.blocks && kept' + p.kept == kept + o.kept;
  }

  lemma BehindSame(b: Bytes, n: nat, o: Outcome)
    requires n <= |b|
    ensures Behind(b, b[..n], o).kept == Behind(b, b[..n], o).blocks <==> n == |b| && o.kept == o.blocks
  {
    var p := Behind(b, b[..n], o);
    assert p.kept[1..] == o.kept && p.blocks[1..] == o.blocks && p.kept[0] == b[..n] && p.blocks[0] == b;
    if n == |b| { assert b[..n] == b; }
  }

  function Zeros(n: nat): (z: Bytes)
    ensures |z| == n && forall i :: 0 <= i < n ==> z[i] == 0
  {
    seq(n, _ => 0)
  }

  /** A file read as if it had n bytes, of which the missing ones are zeros. */
  function Padded(f: Bytes, n: nat): (p: Bytes)
    requires |f| <= n
    ensures |p| == n
  {
    f + Zeros(n - |f|)
  }

  /** A write at or behind the end of the file; the gap reads back as zeros. */
  function WriteAt(f: Bytes, pos: nat, p: Bytes): Bytes
    requires |f| <= pos
  {
    if p == [] then f else Padded(f, pos) + p
  }

  function Concat(parts: seq<Bytes>): Bytes {
    if parts == [] then [] else Concat(parts[..|parts| - 1]) + parts[|parts| - 1]
  }

  lemma WrittenPadded(f: Bytes, pos: nat, p: Bytes)
    requires |f| <= pos
    ensures |WriteAt(f, pos, p)| <= pos + |p| && Padded(WriteAt(f, pos, p), pos + |p|) == Padded(f, pos) + p
  {
  }

  lemma WriteNothing(f: Bytes, pos: nat, buf: Bytes)
    requires |f| <= pos
    ensures WriteAt(f, pos, buf[..0]) == f
  {
  }

  lemma WrittenTwice(f: Bytes, pos: nat, buf: Bytes, i: nat, j: nat)
    requires |f| <= pos && i <= j <= |buf|
    ensures |WriteAt(f, pos, buf[..i])| <= pos + i
    ensures WriteAt(WriteAt(f, pos, buf[..i]), pos + i, buf[i..j]) == WriteAt(f, pos, buf[..j])
    ensures |WriteAt(f, pos, buf[..j])| <= pos + j
  {
    var a, b := buf[..i], buf[i..j];
    assert a + b == buf[..j];
    if a != [] && b != [] {
      var w := Padded(f, pos) + a;
      assert Padded(w, pos + i) == w;
      assert w + b == Padded(f, pos) + (a + b);
    }
  }

  lemma SkippedPadded(f: Bytes, pos: nat, n: nat)
    requires |f| <= pos
    ensures Padded(f, pos + n) == Padded(f, pos) + Zeros(n)
  {
  }

  /** The first n bytes end in a whole block of zeros. */
  predicate EndsInHole(s: Bytes, n: nat, blk: nat)
    requires n <= |s| && 0 < blk
  {
    n > 0 && n % blk == 0 && s[n - blk..n] == Zeros(blk)
  }

  lemma NextHole(s: Bytes, pos: nat, blk: nat, left: nat)
    requires 0 < blk && 0 < left && pos + left <= |s|
    ensures var n := if left < blk then left else blk;
            pos % blk == 0 ==>
              (EndsInHole(s, pos + n, blk) <==> s[pos..pos + n] == Zeros(blk))
              && (n == blk ==> (pos + n) % blk == 0)
  {
    if pos % blk == 0 {
      var q := pos / blk;
      assert pos == q * blk;
      if left < blk {
        Remainder(pos + left, q, left, blk);
      } else {
        assert pos + blk == (q + 1) * blk;
        Remainder(pos + blk, q + 1, 0, blk);
      }
    }
  }

  /** The remainder is what q blocks leave. */
  lemma Remainder(x: nat, q: nat, r: nat, blk: nat)
    requires r < blk && x == q * blk + r
    ensures x % blk == r
  {
    var p := x / blk;
    assert x == p * blk + x % blk;
    if p < q {
      BlocksApart(p, q, blk);
    } else if q < p {
      BlocksApart(q, p, blk);
    }
  }

  lemma BlocksApart(p: nat, q: nat, blk: nat)
    requires p < q
    ensures p * blk + blk <= q * blk
  {
    assert (q - p) * blk == (q - p - 1) * blk + blk;
    assert q * blk == p * blk + (q - p) * blk;
  }

  /** kept are the blocks, each perhaps cut short. */
  ghost predicate Cut(kept: seq<Bytes>, blocks: seq<Bytes>) {
    |kept| == |blocks| && forall i :: 0 <= i < |kept| ==> kept[i] <= blocks[i]
  }

  lemma ConcatNext(parts: seq<Bytes>, p: Bytes)
    ensures Concat(parts + [p]) == Concat(parts) + p
  {
    assert (parts + [p])[..|parts|] == parts;
  }

  lemma {:induction false} ConcatCut(kept: seq<Bytes>, blocks: seq<Bytes>)
    requires Cut(kept, blocks)
    ensures |Concat(kept)| <= |Concat(blocks)|
    ensures |Concat(kept)| == |Concat(blocks)| <==> kept == blocks
  {
    if kept != [] {
      var n := |kept| - 1;
      ConcatCut(kept[..n], blocks[..n]);
      assert kept == kept[..n] + [kept[n]] && blocks == blocks[..n] + [blocks[n]];
      assert |kept[n]| == |blocks[n]| ==> kept[n] == blocks[n];
    }
  }

  lemma SameLast(blocks: seq<Bytes>, kept: seq<Bytes>, buf: Bytes, n: nat)
    requires Cut(kept, blocks) && n <= |buf|
    ensures Cut(kept + [buf[..n]], blocks + [buf])
    ensures kept + [buf[..n]] == blocks + [buf] ==> n == |buf|
    ensures n == |buf| ==> buf[..n] == buf
  {
    if kept + [buf[..n]] == blocks + [buf] {
      assert (kept + [buf[..n]])[|kept|] == (blocks + [buf])[|kept|];
    }
  }

  /** The two open files; io is how the coming transfers go, all well once it is used up. */
  class Copy {
    const src: Bytes
    var dst: Bytes
    var spos: nat
    var dpos: nat
    var io: seq<Io>

    constructor (s: Bytes, future: seq<Io>)
      ensures src == s && dst == [] && spos == dpos == 0 && io == future
    {
      src, dst, spos, dpos, io := s, [], 0, 0, future;
    }

    /** No transfer to come fails for good or moves nothing. */
    ghost predicate Gentle()
      reads this`io
    {
      forall i :: 0 <= i < |io| ==> io[i] != Hard && io[i] != Moves(0)
    }

    /** No transfer to come moves less than it could of up to blk bytes. */
    ghost predicate Whole(blk: nat)
      reads this`io
    {
      forall i :: 0 <= i < |io| ==> io[i] in {Again, Interrupted} || (io[i].Moves? && blk <= io[i].n)
    }

    /** One transfer of up to sz bytes: the count, or an error. */
    method Transfer(sz: nat) returns (r: int)
      modifies this`io
      ensures r <= sz && (r < 0 ==> r in {-EIO, -EAGAIN, -EINTR}) && |io| <= |old(io)|
      ensures r == Result(old(io), sz) && io == After(old(io))
      ensures old(Gentle()) ==> Gentle() && r != -EIO && (sz > 0 ==> r != 0)
      ensures forall blk :: sz <= blk && old(Whole(blk)) ==> Whole(blk) && r in {sz, -EAGAIN, -EINTR}
    {
      if io == [] { return sz; }
      var x := io[0];
      io := io[1..];
      match x
      case Again => r := -EAGAIN;
      case Interrupted => r := -EINTR;
      case Hard => r := -EIO;
      case Moves(n) => r := if n < sz then n else sz;
    }

    /** The read loop: the next bytes of the source, at least one and at most sz. */
    method ReadBlock(sz: nat) returns (err: int, buf: Bytes)
      requires 0 < sz && spos + sz <= |src|
      modifies this`io, this`spos
      ensures |io| <= |old(io)| && (old(Gentle()) ==> Gentle() && err == 0) && err <= 0
      ensures err == 0 ==> 0 < |buf| <= sz && spos == old(spos) + |buf| && buf == src[old(spos)..spos]
      ensures err != 0 ==> spos == old(spos) && err == -EIO
      ensures forall blk :: sz <= blk && old(Whole(blk)) ==> Whole(blk) && err == 0 && |buf| == sz
      ensures ReadOf(old(io), sz) == Loop(if err == 0 then |buf| else err, io)
    {
      var r := 0;
      while r == 0 || r == -EAGAIN || r == -EINTR
        invariant spos == old(spos) && |io| <= |old(io)| && (old(Gentle()) ==> Gentle() && r != -EIO)
        invariant r <= sz && (r < 0 ==> r in {-EIO, -EAGAIN, -EINTR})
        invariant forall blk :: sz <= blk && old(Whole(blk)) ==> Whole(blk) && r in {0, sz, -EAGAIN, -EINTR}
        invariant ReadOf(old(io), sz) == if r in {0, -EAGAIN, -EINTR} then ReadOf(io, sz) else Loop(r, io)
        decreases if r == 0 || r == -EAGAIN || r == -EINTR then 1 else 0, |io|
      {
        r := Transfer(sz);
      }
      if r < 0 { return r, []; }
      buf := src[spos..spos + r];
      spos := spos + r;
      err := 0;
    }

    /** The write loop: on a hard error what is left of the block is dropped. */
    method WriteBlock(buf: Bytes) returns (ghost n: nat)
      requires |dst| <= dpos
      modifies this`io, this`dst, this`dpos
      ensures n <= |buf| && dpos == old(dpos) + n && dst == WriteAt(old(dst), old(dpos), buf[..n]) && |dst| <= dpos
      ensures |io| <= |old(io)| && (old(Gentle()) ==> Gentle() && n == |buf|)
      ensures forall blk :: |buf| <= blk && old(Whole(blk)) ==> Whole(blk)
      ensures WriteOf(old(io), |buf|) == Loop(n, io)
    {
      hide WriteAt, Gentle, Whole;
      assert WriteAt(dst, dpos, buf[..0]) == dst by { WriteNothing(dst, dpos, buf); }
      var done: nat := 0;
      while done < |buf|
        invariant done <= |buf| && dpos == old(dpos) + done && |dst| <= dpos
        invariant dst == WriteAt(old(dst), old(dpos), buf[..done])
        invariant |io| <= |old(io)| && (old(Gentle()) ==> Gentle())
        invariant forall blk :: |buf| <= blk && old(Whole(blk)) ==> Whole(blk)
        invariant var w := WriteOf(io, |buf| - done); WriteOf(old(io), |buf|) == Loop(done + w.n, w.rest)
        decreases |buf| - done + |io|
      {
        var b := Transfer(|buf| - done);
        if b == -EAGAIN || b == -EINTR { continue; }
        if b < 0 { return done; }
        WrittenTwice(old(dst), old(dpos), buf, done, done + b);
        dst := WriteAt(dst, dpos, buf[done..done + b]);
        done, dpos := done + b, dpos + b;
      }
      n := done;
    }

    /** memcmp with the page of zeros. */
    method IsZero(buf: Bytes) returns (zero: bool)
      ensures zero <==> buf == Zeros(|buf|)
    {
      var i := 0;
      while i < |buf|
        invariant 0 <= i <= |buf| && forall j :: 0 <= j < i ==> buf[j] == 0
      {
        if buf[i] != 0 { return false; }
        i := i + 1;
      }
      zero := true;
    }

    /** What has been copied so far: the blocks read, cut short where a write failed, holes standing for zeros. */
    ghost predicate Copied(blocks: seq<Bytes>, kept: seq<Bytes>)
      reads this
    {
      && spos <= |src| && Concat(blocks) == src[..spos] && Cut(kept, blocks)
      && |dst| <= dpos && Padded(dst, dpos) == Concat(kept)
    }

    /** One round of the loop in au_copy_file. */
    method CopyBlock(blk: nat, len: nat, ghost blocks: seq<Bytes>, ghost kept: seq<Bytes>)
      returns (err: int, rbytes: nat, allZero: bool, ghost blocks': seq<Bytes>, ghost kept': seq<Bytes>)
      requires Copied(blocks, kept) && 0 < blk && 0 < len && spos + len <= |src|
      modifies this
      ensures Copied(blocks', kept') && (old(Gentle()) ==>
                Gentle() && err == 0
                && (kept == blocks ==> kept' == blocks'))
      ensures err == 0 ==> 0 < rbytes <= len && spos == old(spos) + rbytes
      ensures err != 0 ==> err < 0
      ensures err == 0 && kept' == blocks' && !allZero ==> |dst| == dpos
      ensures err == 0 ==> blocks' != [] && (allZero <==> blocks'[|blocks'| - 1] == Zeros(blk))
      ensures err == 0 && allZero ==> kept'[|kept'| - 1] == Zeros(blk)
      ensures old(Whole(blk)) ==> Whole(blk) && rbytes == (if len < blk then len else blk)
      ensures err == 0 ==> blocks'[|blocks'| - 1] == src[old(spos)..spos]
      ensures var o := Plan(src, old(spos), len, blk, old(io));
              if err == 0 then Goes(blocks, kept, blocks', kept', o, Plan(src, spos, len - rbytes, blk, io))
              else blocks' == blocks && kept' == kept && o == Outcome(err, [], [], io)
    {
      hide Padded, Concat, Gentle, Zeros, Cut, Plan, ReadOf, WriteOf, EmitOf, Behind, Goes;
      PlanStep(src, spos, len, blk, io);
      blocks', kept', allZero, rbytes := blocks, kept, false, 0;
      var buf;
      err, buf := ReadBlock(if len < blk then len else blk);
      if err != 0 { return; }
      rbytes := |buf|;
      if rbytes == blk { allZero := IsZero(buf); }
      ghost var w := io;
      ghost var n := Emit(buf, allZero, blk);
      blocks', kept' := blocks + [buf], kept + [buf[..n]];
      ConcatNext(blocks, buf);
      ConcatNext(kept, buf[..n]);
      assert src[..old(spos)] + buf == src[..spos];
      SameLast(blocks, kept, buf, n);
      PlanNext(src, old(spos), len, blk, old(io), Loop(|buf|, w));
      GoesBehind(blocks, kept, buf, n, Plan(src, spos, len - rbytes, blk, io));
    }

    /** A block goes out, or is skipped as a hole. */
    method Emit(buf: Bytes, allZero: bool, ghost blk: nat) returns (ghost n: nat)
      requires |dst| <= dpos && (allZero <==> buf == Zeros(blk))
      modifies this`io, this`dst, this`dpos
      ensures n <= |buf| && |dst| <= dpos && Padded(dst, dpos) == Padded(old(dst), old(dpos)) + buf[..n]
      ensures |io| <= |old(io)| && (old(Gentle()) ==> Gentle() && n == |buf|)
      ensures forall blk :: |buf| <= blk && old(Whole(blk)) ==> Whole(blk)
      ensures !allZero && 0 < n == |buf| ==> |dst| == dpos
      ensures allZero ==> n == |buf|
      ensures EmitOf(buf, blk, old(io)) == Loop(n, io)
    {
      n := |buf|;
      ghost var f, pos := dst, dpos;
      if !allZero {
        n := WriteBlock(buf);
        WrittenPadded(f, pos, buf[..n]);
      } else {
        SkippedPadded(f, pos, |buf|);
        dpos := dpos + |buf|;
        assert buf[..n] == buf;
      }
    }

    /** The byte written after a last block that was skipped, and the size set to where that leaves off. */
    method LastHole(notify: int) returns (err: int, ghost wrote: bool)
      requires |dst| <= dpos && notify <= 0
      modifies this`io, this`dst, this`dpos
      ensures wrote ==> dst == Padded(old(dst), old(dpos)) + [0] && err == notify
      ensures !wrote ==> dst == old(dst) && err in {0, -EIO}
      ensures old(Gentle()) ==> wrote
      ensures var l := LastOf(old(io)); io == l.rest && (wrote <==> l.n == 1) && (!wrote ==> err == l.n)
    {
      var r := Transfer(1);
      while r == -EAGAIN || r == -EINTR
        invariant r <= 1 && (r < 0 ==> r in {-EIO, -EAGAIN, -EINTR}) && dst == old(dst) && dpos == old(dpos)
        invariant old(Gentle()) ==> Gentle() && r != -EIO && r != 0
        invariant LastOf(old(io)) == if r in {-EAGAIN, -EINTR} then LastOf(io) else Loop(r, io)
        decreases if r < 0 then 1 else 0, |io|
      {
        r := Transfer(1);
      }
      err, wrote := r, false;
      if r == 1 {
        dst := WriteAt(dst, dpos, [0]);
        dpos := dpos + 1;
        err, wrote := notify, true;
      }
    }

    /** The loop of au_copy_file. */
    method CopyBlocks(len: nat, blk: nat)
      returns (err: int, allZero: bool, ghost blocks: seq<Bytes>, ghost kept: seq<Bytes>)
      requires dst == [] && spos == dpos == 0 && len <= |src| && 0 < blk
      modifies this
      ensures err <= 0 && Cut(kept, blocks) && (err == 0 ==> spos == len && Copied(blocks, kept))
      ensures err == 0 ==> (allZero <==> blocks != [] && blocks[|blocks| - 1] == Zeros(blk))
      ensures err == 0 && kept == blocks && !allZero ==> |dst| == dpos
      ensures old(Gentle()) ==> Gentle() && err == 0 && kept == blocks
      ensures old(Whole(blk)) && err == 0 ==> (allZero <==> EndsInHole(src, len, blk))
      ensures Plan(src, 0, len, blk, old(io)) == Outcome(err, blocks, kept, io)
    {
      hide Copied, Gentle, Whole, EndsInHole, Plan, Ahead, Goes;
      err, blocks, kept, allZero := 0, [], [], false;
      var left := len;
      NothingCopied(blk);
      AheadStart(Plan(src, 0, len, blk, io));
      while left > 0
        invariant Copied(blocks, kept) && spos + left == len && err == 0
        invariant Plan(src, 0, len, blk, old(io)) == Ahead(blocks, kept, Plan(src, spos, left, blk, io))
        invariant (old(Gentle()) ==> Gentle() && kept == blocks) && (kept == blocks && !allZero ==> |dst| == dpos)
        invariant allZero <==> blocks != [] && blocks[|blocks| - 1] == Zeros(blk)
        invariant old(Whole(blk)) ==>
                    Whole(blk) && (left > 0 ==> spos % blk == 0)
                    && (allZero <==> EndsInHole(src, spos, blk))
      {
        NextHole(src, spos, blk, left);
        ghost var bs, ks, o := blocks, kept, Plan(src, spos, left, blk, io);
        var rbytes;
        err, rbytes, allZero, blocks, kept := CopyBlock(blk, left, blocks, kept);
        CopiedCut(blocks, kept);
        if err != 0 {
          AheadNone(bs, ks, o);
          return;
        }
        left := left - rbytes;
        AheadGoes(bs, ks, blocks, kept, o, Plan(src, spos, left, blk, io));
      }
      PlanStep(src, spos, 0, blk, io);
      AheadNone(blocks, kept, Plan(src, spos, left, blk, io));
      CopiedCut(blocks, kept);
    }

    lemma NothingCopied(blk: nat)
      requires dst == [] && spos == dpos == 0 && 0 < blk
      ensures Copied([], []) && !EndsInHole(src, 0, blk)
    {
    }

    lemma NothingCut()
      ensures Cut([], [])
    {
    }

    lemma WholeIsGentle(blk: nat)
      requires Whole(blk) && 0 < blk
      ensures Gentle()
    {
    }

    lemma CopiedIs(len: nat, blocks: seq<Bytes>, kept: seq<Bytes>)
      requires Copied(blocks, kept) && spos == len
      ensures len <= |src| && Concat(blocks) == src[..len] && |dst| <= dpos == |Concat(kept)| <= len
              && Padded(dst, dpos) == Concat(kept)
      ensures |Concat(kept)| == len <==> kept == blocks
      ensures |dst| == dpos ==> dst == Concat(kept)
    {
      ConcatCut(kept, blocks);
    }

    /**
     au_copy_file of len bytes into an empty file in blocks of blk.  On success the result is made of the
     source's blocks, some cut short exactly if a transfer failed for good, which is not reported; a last
     block that was skipped makes it one byte longer, unless the write of that byte stalled.  The blocks, what
     is kept of them and the error follow from the source and the transfers to come.
     */
    method CopyFile(len: nat, blk: nat, nomem: bool, notify: int)
      returns (err: int, ghost blocks: seq<Bytes>, ghost kept: seq<Bytes>, ghost tail: bool, ghost stalled: bool)
      requires dst == [] && len <= |src| && 0 < blk && notify <= 0
      modifies this
      ensures err <= 0 && Cut(kept, blocks)
      ensures !nomem ==> Ends(src, len, blk, notify, old(io), err, blocks, kept, tail, stalled, io)
      ensures err == 0 ==> (kept == blocks <==> !Hit(old(io), io))
      ensures err == 0 ==> Concat(blocks) == src[..len]
      ensures err == 0 ==> |dst| <= |Concat(kept)| + (if tail then 1 else 0)
      ensures err == 0 && tail ==> dst == Concat(kept) + [0]
      ensures err == 0 && kept != blocks ==> |dst| < len + if tail then 1 else 0
      ensures err == 0 && kept == blocks && !stalled ==> dst == src[..len] + if tail then [0] else []
      ensures err == 0 && !tail ==> Padded(dst, |Concat(kept)|) == Concat(kept)
      ensures old(Gentle()) && !nomem ==>
                kept == blocks && !stalled && err in {0, notify}
                && dst == src[..len] + if tail then [0] else []
      ensures err == 0 ==> (tail || stalled <==> blocks != [] && blocks[|blocks| - 1] == Zeros(blk))
      ensures old(Gentle()) && !nomem ==> (tail <==> blocks != [] && blocks[|blocks| - 1] == Zeros(blk))
      ensures old(Whole(blk)) && !nomem ==>
                err in {0, notify}
                && dst == src[..len] + if EndsInHole(src, len, blk) then [0] else []
    {
      hide Concat, Padded, Zeros, Cut, Gentle, Whole, EndsInHole, Plan, LastOf, Hit, Rest, HitLast;
      blocks, kept, tail, stalled := [], [], false, false;
      NothingCut();
      if nomem { return -ENOMEM, blocks, kept, tail, stalled; }
      spos, dpos := 0, 0;
      if old(Whole(blk)) { WholeIsGentle(blk); }
      var allZero;
      err, allZero, blocks, kept := CopyBlocks(len, blk);
      PlanReports(src, 0, len, blk, old(io));
      if err != 0 { return; }
      CopiedIs(len, blocks, kept);
      if allZero {
        ghost var mid := io;
        err, tail := LastHole(notify);
        stalled := !tail;
        LastMet(mid);
        MetBoth(old(io), mid, io);
      }
    }

    lemma CopiedCut(blocks: seq<Bytes>, kept: seq<Bytes>)
      requires Copied(blocks, kept)
      ensures Cut(kept, blocks)
    {
    }
  }

  /** A file that is one block of zeros comes out a byte longer. */
  method OneByteTooLong() returns (c: Copy)
    ensures c.src == Zeros(4096) && c.dst == Zeros(4097)
  {
    c := new Copy(Zeros(4096), []);
    ghost var blocks, kept, tail, stalled;
    var err;
    err, blocks, kept, tail, stalled := c.CopyFile(4096, 4096, false, 0);
    assert c.src[0..4096] == c.src && c.src[..4096] == c.src;
  }

  /** Two blocks, and the write of the first fails for good: the second is all there is, and no error. */
  method WriteErrorLost() returns (err: int, c: Copy)
    ensures err == 0 && |c.src| == 8192 && |c.dst| < 8192
  {
    var s := seq(8192, _ => 1);
    c := new Copy(s, [Moves(4096), Hard]);
    LostPlan(s);
    hide Plan, LastOf;
    ghost var blocks, kept, tail, stalled;
    err, blocks, kept, tail, stalled := c.CopyFile(8192, 4096, false, 0);
  }

  lemma NotZeros(s: Bytes, n: nat)
    requires |s| == n > 0 && s[0] != 0
    ensures s != Zeros(n)
  {
    assert Zeros(n)[0] == 0;
  }

  lemma LostTransfers(a: Bytes, b: Bytes)
    requires |a| == |b| == 4096 && a != Zeros(4096) && b != Zeros(4096)
    ensures ReadOf([Moves(4096), Hard], 4096) == Loop(4096, [Hard]) && ReadOf([], 4096) == Loop(4096, [])
    ensures EmitOf(a, 4096, [Hard]) == Loop(0, []) && EmitOf(b, 4096, []) == Loop(4096, [])
  {
    assert [Moves(4096), Hard][1..] == [Hard] && [Hard][1..] == [];
  }

  lemma LostPlan(s: Bytes)
    requires |s| == 8192 && forall i :: 0 <= i < |s| ==> s[i] == 1
    ensures Plan(s, 0, 8192, 4096, [Moves(4096), Hard]) ==
            Outcome(0, [s[0..4096], s[4096..8192]], [[], s[4096..8192]], [])
    ensures s[4096..8192] != Zeros(4096) && s[0..4096] != []
  {
    hide Plan, EmitOf, ReadOf, WriteOf, Zeros;
    var a, b := s[0..4096], s[4096..8192];
    NotZeros(a, 4096);
    NotZeros(b, 4096);
    assert b[..4096] == b && a[..0] == [];
    LostTransfers(a, b);
    PlanNext(s, 0, 8192, 4096, [Moves(4096), Hard], Loop(4096, [Hard]));
    PlanNext(s, 4096, 4096, 4096, [], Loop(4096, []));
    PlanStep(s, 8192, 0, 4096, []);
  }
}
