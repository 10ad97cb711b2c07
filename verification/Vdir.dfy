/**
 The packed directory listing of aufs (vdir.c): blocks of 512 bytes, each holding entries back to back up
 to a terminator or a tail too short for one, and a cursor from which readdir resumes.
 */
module Vdir {

  import opened Errno

  const DEBLK := 512
  const HEADER := 10

  /** A block as its bytes. */
  type Block = string

  datatype De = De(ino: nat, dtype: nat, name: string)

  /** What fits the fields of struct au_vdir_de, where a name length of 0 is the terminator. */
  predicate DeOk(e: De) {
    e.ino < 0x1_0000_0000_0000_0000 && e.dtype < 256 && 0 < |e.name| < 256
  }

  /** calc_size: the header and the name, rounded up to a multiple of the size of ino_t. */
  function CalcSize(namelen: nat): (sz: nat)
    ensures sz % 8 == 0 && HEADER + namelen <= sz < HEADER + namelen + 8
  {
    var sz := HEADER + namelen;
    if sz % 8 != 0 then sz + 8 - sz % 8 else sz
  }

  function Size(e: De): (sz: nat)
    ensures DeOk(e) ==> CalcSize(0) <= sz <= DEBLK - CalcSize(0)
  {
    CalcSize(|e.name|)
  }

  /** n as k bytes, the least significant first. */
  function Bytes(n: nat, k: nat): (s: string)
    ensures |s| == k
  {
    if k == 0 then "" else [(n % 256) as char] + Bytes(n / 256, k - 1)
  }

  function Value(s: string): nat {
    if s == "" then 0 else s[0] as int + 256 * Value(s[1..])
  }

  function Power(k: nat): nat {
    if k == 0 then 1 else 256 * Power(k - 1)
  }

  lemma {:induction false} BytesRoundTrip(n: nat, k: nat)
    requires n < Power(k)
    ensures Value(Bytes(n, k)) == n
  {
    if k > 0 {
      BytesRoundTrip(n / 256, k - 1);
      assert Bytes(n, k)[1..] == Bytes(n / 256, k - 1);
    }
  }

  /** The fields of an entry as they lie in memory. */
  function Encode(e: De): (s: string)
    requires DeOk(e)
    ensures |s| == HEADER + |e.name|
  {
    Bytes(e.ino, 8) + [e.dtype as char, |e.name| as char] + e.name
  }

  /** The length field of the entry at p. */
  function LenAt(b: Block, p: nat): nat
    requires p + HEADER <= |b|
  {
    b[p + 9] as int
  }

  function DeAt(b: Block, p: nat): De
    requires p + HEADER <= |b| && p + HEADER + LenAt(b, p) <= |b|
  {
    De(Value(b[p..p + 8]), b[p + 8] as int, b[p + HEADER..p + HEADER + LenAt(b, p)])
  }

  function Put(b: Block, p: nat, s: string): (r: Block)
    requires p + |s| <= |b|
    ensures |r| == |b|
  {
    b[..p] + s + b[p + |s|..]
  }

  /** is_deblk_end. */
  predicate IsEnd(b: Block, p: nat)
    requires |b| == DEBLK && p <= DEBLK
  {
    CalcSize(0) <= DEBLK - p ==> LenAt(b, p) == 0
  }

  /** set_deblk_end, where there is room for the terminator. */
  function SetEnd(b: Block, p: nat): (r: Block)
    requires |b| == DEBLK && p + CalcSize(0) <= DEBLK
    ensures |r| == DEBLK && IsEnd(r, p) && forall k :: 0 <= k < DEBLK && k != p + 9 ==> r[k] == b[k]
  {
    b[p + 9 := 0 as char]
  }

  /** Storing the fields one after the other and reading them back gives the entry. */
  lemma PutRoundTrip(b: Block, p: nat, e: De)
    requires |b| == DEBLK && DeOk(e) && p + Size(e) <= DEBLK
    ensures var r := Put(b, p, Encode(e));
            && LenAt(r, p) == |e.name| && DeAt(r, p) == e
            && (forall k :: 0 <= k < p || p + HEADER + |e.name| <= k < DEBLK ==> r[k] == b[k])
  {
    var s, r := Encode(e), Put(b, p, Encode(e));
    assert forall k :: 0 <= k < |s| ==> r[p + k] == s[k];
    assert Power(8) == 0x1_0000_0000_0000_0000;
    BytesRoundTrip(e.ino, 8);
    assert r[p..p + 8] == Bytes(e.ino, 8);
    assert r[p + HEADER..p + HEADER + |e.name|] == e.name;
  }

  /** From p on, the block holds exactly the entries es. */
  predicate Holds(b: Block, p: nat, es: seq<De>)
    requires |b| == DEBLK
    decreases |es|
  {
    if es == [] then p <= DEBLK && IsEnd(b, p)
    else
      && DeOk(es[0]) && p + Size(es[0]) <= DEBLK
      && LenAt(b, p) == |es[0].name| && DeAt(b, p) == es[0]
      && Holds(b, p + Size(es[0]), es[1..])
  }

  lemma HoldsFirst(b: Block, p: nat, es: seq<De>)
    requires |b| == DEBLK && es != [] && Holds(b, p, es)
    ensures DeOk(es[0]) && p + Size(es[0]) <= DEBLK && Holds(b, p + Size(es[0]), es[1..])
    ensures LenAt(b, p) == |es[0].name| && DeAt(b, p) == es[0]
  {
  }

  lemma HoldsCons(b: Block, p: nat, e: De, es: seq<De>)
    requires |b| == DEBLK && DeOk(e) && p + Size(e) <= DEBLK && LenAt(b, p) == |e.name| && DeAt(b, p) == e
    requires Holds(b, p + Size(e), es)
    ensures Holds(b, p, [e] + es)
  {
    assert ([e] + es)[1..] == es;
  }

  /** Where the entries es, stored from p, end. */
  function End(p: nat, es: seq<De>): nat
    decreases |es|
  {
    if es == [] then p else End(p + Size(es[0]), es[1..])
  }

  lemma {:induction false} HoldsEnd(b: Block, p: nat, es: seq<De>)
    requires |b| == DEBLK && Holds(b, p, es)
    ensures p <= End(p, es) <= DEBLK && IsEnd(b, End(p, es))
    ensures forall e :: e in es ==> DeOk(e)
    decreases |es|
  {
    if es != [] { HoldsEnd(b, p + Size(es[0]), es[1..]); }
  }

  lemma {:induction false} EndAppend(p: nat, es: seq<De>, e: De)
    ensures End(p, es + [e]) == End(p, es) + Size(e)
    decreases |es|
  {
    if es != [] {
      EndAppend(p + Size(es[0]), es[1..], e);
      assert (es + [e])[1..] == es[1..] + [e];
    } else {
      assert [e][1..] == [];
    }
  }

  /** Blocks that agree on an entry's bytes read the same there. */
  lemma SameEntry(b: Block, r: Block, p: nat, e: De)
    requires |b| == |r| == DEBLK && p + HEADER + |e.name| <= DEBLK && LenAt(b, p) == |e.name|
    requires forall k :: p <= k < p + HEADER + |e.name| ==> r[k] == b[k]
    ensures LenAt(r, p) == |e.name| && DeAt(r, p) == DeAt(b, p)
  {
    assert r[p..p + 8] == b[p..p + 8];
    assert r[p + HEADER..p + HEADER + |e.name|] == b[p + HEADER..p + HEADER + |e.name|];
  }

  /** Writing an entry at the end keeps the earlier ones, whatever lies behind the new end. */
  lemma {:induction false} HoldsAppend(b: Block, r: Block, p: nat, es: seq<De>, e: De)
    requires |b| == |r| == DEBLK && Holds(b, p, es) && DeOk(e)
    requires End(p, es) + Size(e) <= DEBLK
    requires forall k :: 0 <= k < End(p, es) ==> r[k] == b[k]
    requires Holds(r, End(p, es), [e])
    ensures Holds(r, p, es + [e])
    decreases |es|
  {
    hide Holds, DeAt, LenAt;
    if es == [] {
      assert es + [e] == [e];
    } else {
      var q := p + Size(es[0]);
      HoldsFirst(b, p, es);
      HoldsEnd(b, q, es[1..]);
      SameEntry(b, r, p, es[0]);
      HoldsAppend(b, r, q, es[1..], e);
      HoldsCons(r, p, es[0], es[1..] + [e]);
      assert es + [e] == [es[0]] + (es[1..] + [e]);
    }
  }

  /** An entry and the file position it is handed out with. */
  type Dirent = (De, nat)

  /** The entries of one block stored from p, the block starting at file position base. */
  function Dirents(base: nat, p: nat, es: seq<De>): seq<Dirent>
    decreases |es|
  {
    if es == [] then [] else [(es[0], base + p)] + Dirents(base, p + Size(es[0]), es[1..])
  }

  /** The entries of blocks i, i + 1, ... */
  function Listed(parts: seq<seq<De>>, i: nat): seq<Dirent>
    decreases |parts|
  {
    if parts == [] then [] else Dirents(DEBLK * i, 0, parts[0]) + Listed(parts[1..], i + 1)
  }

  function Flat(parts: seq<seq<De>>): seq<De> {
    if parts == [] then [] else parts[0] + Flat(parts[1..])
  }

  /** An entry goes to the last block if there is room for it behind p, otherwise to a new one. */
  predicate Packed(parts: seq<seq<De>>, p: nat, e: De, more: seq<seq<De>>) {
    && 0 < |parts| <= |more|
    && var n := |parts|;
       if Size(e) <= DEBLK - p then more[..n - 1] == parts[..n - 1] && more[n - 1] == parts[n - 1] + [e]
       else |more| > n && more[..n] == parts && more[n] == [e]
  }

  /** The entries without their positions. */
  function Plain(ds: seq<Dirent>): (r: seq<De>)
    ensures |r| == |ds| && forall k :: 0 <= k < |r| ==> r[k] == ds[k].0
  {
    seq(|ds|, k requires 0 <= k < |ds| => ds[k].0)
  }

  /** Each block holds its part; only the last block may be empty. */
  ghost predicate Blocks(deblk: seq<Block>, parts: seq<seq<De>>) {
    && |deblk| == |parts| > 0
    && (forall i :: 0 <= i < |deblk| ==> |deblk[i]| == DEBLK && Holds(deblk[i], 0, parts[i]))
    && (forall i :: 0 <= i < |deblk| - 1 ==> parts[i] != [])
  }

  lemma {:induction false} FlatAppend(parts: seq<seq<De>>, es: seq<De>)
    ensures Flat(parts + [es]) == Flat(parts) + es
  {
    if parts == [] {
      assert Flat([es]) == es + Flat([]);
    } else {
      FlatAppend(parts[1..], es);
      assert (parts + [es])[1..] == parts[1..] + [es];
    }
  }

  lemma FlatLast(parts: seq<seq<De>>, e: De)
    requires parts != []
    ensures var n := |parts| - 1; Flat(parts[n := parts[n] + [e]]) == Flat(parts) + [e]
  {
    var n := |parts| - 1;
    FlatAppend(parts[..n], parts[n]);
    FlatAppend(parts[..n], parts[n] + [e]);
    assert parts == parts[..n] + [parts[n]];
    assert parts[n := parts[n] + [e]] == parts[..n] + [parts[n] + [e]];
  }

  /** An entry written at p reads back, whatever is written behind it. */
  lemma ReadsBack(b: Block, p: nat, e: De, r: Block)
    requires |b| == |r| == DEBLK && DeOk(e) && p + Size(e) <= DEBLK && IsEnd(r, p + Size(e))
    requires forall k :: 0 <= k < p + Size(e) ==> r[k] == Put(b, p, Encode(e))[k]
    ensures Holds(r, p, [e]) && forall k :: 0 <= k < p ==> r[k] == b[k]
  {
    var w := Put(b, p, Encode(e));
    PutRoundTrip(b, p, e);
    SameEntry(w, r, p, e);
    assert [e][1..] == [];
    assert Holds(r, p + Size(e), []);
  }

  /** An entry and the terminator after it, written at the end of a block. */
  lemma WriteAtEnd(b: Block, es: seq<De>, e: De, r: Block)
    requires |b| == |r| == DEBLK && Holds(b, 0, es) && DeOk(e)
    requires End(0, es) + Size(e) <= DEBLK && IsEnd(r, End(0, es) + Size(e))
    requires forall k :: 0 <= k < End(0, es) + Size(e) ==> r[k] == Put(b, End(0, es), Encode(e))[k]
    ensures Holds(r, 0, es + [e]) && End(0, es + [e]) == End(0, es) + Size(e)
  {
    hide *;
    ReadsBack(b, End(0, es), e, r);
    HoldsAppend(b, r, 0, es, e);
    EndAppend(0, es, e);
  }

  /** An entry put where a block's entries end, with an end marker behind it if there is room. */
  lemma StoredAtEnd(b: Block, es: seq<De>, e: De, r: Block)
    requires |b| == DEBLK && Holds(b, 0, es) && DeOk(e) && End(0, es) + Size(e) <= DEBLK
    requires var p, w := End(0, es) + Size(e), Put(b, End(0, es), Encode(e));
             r == if CalcSize(0) <= DEBLK - p then SetEnd(w, p) else w
    ensures |r| == DEBLK && Holds(r, 0, es + [e]) && End(0, es + [e]) == End(0, es) + Size(e)
  {
    hide Put, Encode, SetEnd, Holds, End;
    WriteAtEnd(b, es, e, r);
  }

  /** struct au_vdir; heap is what the coming allocations of a block will find in it, none left meaning failure. */
  class Dir {
    var deblk: seq<Block>
    var lastI: nat
    var lastP: nat
    var heap: seq<Block>
    ghost var parts: seq<seq<De>>

    ghost predicate Valid()
      reads this
    {
      Blocks(deblk, parts) && forall i :: 0 <= i < |heap| ==> |heap[i]| == DEBLK
    }

    /** Entries can be appended: the cursor is at the terminator of the last block. */
    ghost predicate Open()
      reads this
      requires Valid()
    {
      lastI == |deblk| - 1 && lastP == End(0, parts[lastI]) && lastP + CalcSize(0) <= DEBLK
    }

    /** alloc_vdir. */
    constructor (first: Block, future: seq<Block>)
      requires |first| == DEBLK && forall i :: 0 <= i < |future| ==> |future[i]| == DEBLK
      ensures Valid() && Open() && Flat(parts) == [] && heap == future
    {
      deblk, parts, lastI, lastP, heap := [SetEnd(first, 0)], [[]], 0, 0, future;
    }

    /** append_deblk. */
    method AppendDeblk() returns (err: int)
      requires Valid() && parts[|parts| - 1] != []
      modifies this
      ensures Valid() && err in {0, -ENOMEM} && (err != 0 <==> old(heap) == [])
      ensures err == 0 ==> Open() && lastP == 0 && deblk[..|deblk| - 1] == old(deblk) && parts == old(parts) + [[]]
      ensures err == 0 ==> heap == old(heap)[1..] && Flat(parts) == old(Flat(parts))
      ensures |deblk| + |heap| == |old(deblk)| + |old(heap)|
      ensures err != 0 ==> unchanged(this)
    {
      if heap == [] { return -ENOMEM; }
      FlatAppend(parts, []);
      deblk, parts := deblk + [SetEnd(heap[0], 0)], parts + [[]];
      lastI, lastP, heap := |deblk| - 1, 0, heap[1..];
      err := 0;
    }

    /** reinit_vdir: drop all blocks but the first and empty that. */
    method Reinit()
      requires Valid()
      modifies this
      ensures Valid() && Open() && Flat(parts) == [] && heap == old(heap)
    {
      while |deblk| > 1
        invariant 0 < |deblk| && heap == old(heap) && |deblk[0]| == DEBLK
      {
        deblk := deblk[..|deblk| - 1];
      }
      deblk, parts := [SetEnd(deblk[0], 0)], [[]];
      lastI, lastP := 0, 0;
    }

    /** append_de. */
    method AppendDe(e: De) returns (err: int)
      requires Valid() && Open() && DeOk(e)
      modifies this
      ensures Valid() && err in {0, -ENOMEM} && |old(heap)| <= |heap| + 2
      ensures |deblk| + |heap| == |old(deblk)| + |old(heap)|
      ensures err == 0 ==> Open() && Flat(parts) == old(Flat(parts)) + [e]
      ensures err == 0 ==> Packed(old(parts), old(lastP), e, parts)
      ensures err != 0 ==> heap == []
    {
      hide Holds, IsEnd, Flat;
      err := 0;
      var sz := Size(e);
      if sz > DEBLK - lastP {
        err := AppendDeblk();
        if err != 0 { return; }
      }
      Store(e);
      if CalcSize(0) > DEBLK - lastP { err := AppendDeblk(); }
    }

    /** The part of append_de that fills in the entry, moves on and, where there is room, sets the terminator. */
    method Store(e: De)
      requires Valid() && Open() && DeOk(e) && Size(e) <= DEBLK - lastP
      modifies this`deblk, this`lastP, this`parts
      ensures Valid() && Flat(parts) == old(Flat(parts)) + [e] && parts[|parts| - 1] != []
      ensures lastI == |deblk| - 1 && lastP == End(0, parts[lastI]) <= DEBLK && |deblk| == |old(deblk)|
      ensures parts == old(parts)[|old(parts)| - 1 := old(parts)[|old(parts)| - 1] + [e]]
    {
      hide Put, Encode, SetEnd, Holds, End, Flat, IsEnd;
      var p := lastP + Size(e);
      ghost var es := parts[lastI];
      var r := Put(deblk[lastI], lastP, Encode(e));
      if CalcSize(0) <= DEBLK - p { r := SetEnd(r, p); }
      StoredAtEnd(deblk[lastI], es, e, r);
      FlatLast(parts, e);
      deblk, parts := deblk[lastI := r], parts[lastI := es + [e]];
      lastP := p;
    }

    /** copy_vdir: the blocks of src, or an empty listing when there is no memory for them. */
    method CopyVdir(src: Dir) returns (err: int)
      requires Valid() && src.Valid() && src != this && |deblk| == 1
      modifies this
      ensures Valid() && (err == 0 <==> |old(heap)| >= |src.deblk| - 1)
      ensures err == 0 ==> deblk == src.deblk && parts == src.parts
      ensures err != 0 ==> err == -ENOMEM && Flat(parts) == []
    {
      deblk, parts := [src.deblk[0]], [src.parts[0]];
      var i := 1;
      while i < |src.deblk|
        invariant 1 <= i <= |src.deblk| && Valid() && i <= |old(heap)| + 1 && heap == old(heap)[i - 1..]
        invariant deblk == src.deblk[..i] && parts == src.parts[..i]
      {
        if heap == [] {
          Reinit();
          return -ENOMEM;
        }
        heap := heap[1..];
        deblk, parts := deblk + [src.deblk[i]], parts + [src.parts[i]];
        i := i + 1;
      }
      err := 0;
    }
  }
}
