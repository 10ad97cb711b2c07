/**
 Reading a directory of the union (vdir.c): the branches' own listings are merged into one, with
 whiteouts and repeated names taken out.
 */
module Listing {

  import opened Errno
  import opened Names
  import opened NHash
  import opened Vdir

  /** An entry as a branch's own readdir reports it; ino is the number au_ino finds for it, 0 if that fails. */
  datatype Lower = Lower(name: string, ino: nat, dtype: nat)

  /** What the branches report, the topmost first; a branch that lacks the directory reports nothing. */
  type Layers = seq<seq<Lower>>

  predicate LowerOk(e: Lower) {
    0 < |e.name| < 256 && e.dtype < 256 && e.ino < 0x1_0000_0000_0000_0000
  }

  ghost predicate LayersOk(layers: Layers) {
    forall b, k :: 0 <= b < |layers| && 0 <= k < |layers[b]| ==> LowerOk(layers[b][k])
  }

  /** The branch lists the name, which is not a whiteout. */
  ghost predicate Has(l: seq<Lower>, name: string) {
    !IsWh(name) && exists k :: 0 <= k < |l| && l[k].name == name
  }

  /** The branch lists a whiteout of the name. */
  ghost predicate Whites(l: seq<Lower>, name: string) {
    exists k :: 0 <= k < |l| && IsWh(l[k].name) && l[k].name[4..] == name
  }

  /** A branch above b lists the name or a whiteout of it. */
  ghost predicate Hidden(layers: Layers, b: nat, name: string) {
    exists c :: 0 <= c < b && c < |layers| && (Has(layers[c], name) || Whites(layers[c], name))
  }

  ghost predicate Shows(layers: Layers, b: nat, name: string) {
    !IsWh(name) && !Hidden(layers, b, name)
  }

  /** A name to be listed has no number. */
  ghost predicate NoNumber(layers: Layers) {
    exists b: nat :: b < |layers| && NoNumberIn(layers, b, |layers[b]|)
  }

  /** One of the first n entries of branch b does. */
  ghost predicate NoNumberIn(layers: Layers, b: nat, n: nat)
    requires b < |layers|
  {
    exists k: nat :: k < n && k < |layers[b]| && layers[b][k].ino == 0 && Shows(layers, b, layers[b][k].name)
  }

  /** The number of entries the first n branches report. */
  function Total(layers: Layers, n: nat): nat
    requires n <= |layers|
  {
    if n == 0 then 0 else Total(layers, n - 1) + |layers[n - 1]|
  }

  /** What entry k of branch b adds to the listing. */
  ghost function Piece(layers: Layers, b: nat, k: nat): seq<De>
    requires b < |layers| && k < |layers[b]|
  {
    var e := layers[b][k];
    if Shows(layers, b, e.name) then [De(e.ino, e.dtype, e.name)] else []
  }

  /** What the first k entries of branch b add to the listing. */
  ghost function Part(layers: Layers, b: nat, k: nat): seq<De>
    requires b < |layers| && k <= |layers[b]|
  {
    if k == 0 then []
    else Part(layers, b, k - 1) + Piece(layers, b, k - 1)
  }

  /** The listing of the topmost n branches. */
  ghost function Merged(layers: Layers, n: nat): seq<De>
    requires n <= |layers|
  {
    if n == 0 then [] else Merged(layers, n - 1) + Part(layers, n - 1, |layers[n - 1]|)
  }

  lemma HasNext(l: seq<Lower>, k: nat, name: string)
    requires 0 < k <= |l|
    ensures Has(l[..k], name) <==> Has(l[..k - 1], name) || (!IsWh(name) && l[k - 1].name == name)
    ensures Whites(l[..k], name) <==> Whites(l[..k - 1], name) || (IsWh(l[k - 1].name) && l[k - 1].name[4..] == name)
  {
    assert l[..k][k - 1] == l[k - 1];
    forall j | 0 <= j < k - 1 ensures l[..k][j] == l[..k - 1][j] {}
    if Has(l[..k - 1], name) {
      var j :| 0 <= j < k - 1 && l[..k - 1][j].name == name;
      assert l[..k][j].name == name;
    }
    if Whites(l[..k - 1], name) {
      var j :| 0 <= j < k - 1 && IsWh(l[..k - 1][j].name) && l[..k - 1][j].name[4..] == name;
      assert IsWh(l[..k][j].name) && l[..k][j].name[4..] == name;
    }
  }

  ghost predicate Lists(ds: seq<De>, name: string) {
    exists i :: 0 <= i < |ds| && ds[i].name == name
  }

  lemma ListsCat(a: seq<De>, b: seq<De>, name: string)
    ensures Lists(a + b, name) <==> Lists(a, name) || Lists(b, name)
  {
    if i :| 0 <= i < |a| && a[i].name == name { assert (a + b)[i].name == name; }
    if i :| 0 <= i < |b| && b[i].name == name { assert (a + b)[|a| + i].name == name; }
    if i :| 0 <= i < |a + b| && (a + b)[i].name == name {
      if i < |a| { assert a[i].name == name; } else { assert b[i - |a|].name == name; }
    }
  }

  lemma {:induction false} PartHas(layers: Layers, b: nat, k: nat, name: string)
    requires b < |layers| && k <= |layers[b]|
    ensures Lists(Part(layers, b, k), name) <==> Shows(layers, b, name) && Has(layers[b][..k], name)
  {
    if k > 0 {
      PartHas(layers, b, k - 1, name);
      HasNext(layers[b], k, name);
      var piece := Piece(layers, b, k - 1);
      ListsCat(Part(layers, b, k - 1), piece, name);
      if piece != [] { assert piece[0].name == layers[b][k - 1].name; }
    }
  }

  /** The hash lists after the branches above b and the first k entries of b. */
  ghost predicate Gathered(layers: Layers, b: nat, k: nat, delist: seq<Heads>, whlist: seq<Heads>) {
    && |delist| == |whlist| == |layers| && (b < |layers| ==> k <= |layers[b]|)
    && (forall c :: 0 <= c < |layers| ==> Hashed(delist[c]) && Hashed(whlist[c]))
    && (forall c :: 0 <= c < |layers| ==> Taken(layers, c, Read(layers, b, k, c), delist[c], whlist[c]))
  }

  /** How many entries of branch c have been read. */
  function Read(layers: Layers, b: nat, k: nat, c: nat): (r: nat)
    requires c < |layers| && (b < |layers| ==> k <= |layers[b]|)
    ensures r <= |layers[c]|
  {
    if c < b then |layers[c]| else if c == b then k else 0
  }

  ghost predicate Taken(layers: Layers, c: nat, r: nat, d: Heads, w: Heads)
    requires c < |layers| && r <= |layers[c]|
  {
    && (forall name :: name in Members(d) <==> Shows(layers, c, name) && Has(layers[c][..r], name))
    && (forall name :: name in Members(w) <==> Whites(layers[c][..r], name))
  }

  ghost predicate KnownAt(delist: seq<Heads>, whlist: seq<Heads>, c: nat, name: string) {
    c < |delist| == |whlist| && (name in Members(delist[c]) || name in Members(whlist[c]))
  }

  /** A name or whiteout above, even one that was itself left out, is found on some list above. */
  lemma {:induction false} KnownIffHidden(layers: Layers, b: nat, k: nat, delist: seq<Heads>, whlist: seq<Heads>,
                                b0: nat, name: string)
    requires Gathered(layers, b, k, delist, whlist) && b0 <= b < |layers| && !IsWh(name)
    ensures (exists c: nat :: c < b0 && KnownAt(delist, whlist, c, name)) <==> Hidden(layers, b0, name)
    decreases b0
  {
    forall c: nat | c < b0 ensures layers[c][..|layers[c]|] == layers[c] && Read(layers, b, k, c) == |layers[c]| {}
    if Hidden(layers, b0, name) {
      var c: nat :| c < b0 && (Has(layers[c], name) || Whites(layers[c], name));
      assert Taken(layers, c, Read(layers, b, k, c), delist[c], whlist[c]);
      if !KnownAt(delist, whlist, c, name) {
        KnownIffHidden(layers, b, k, delist, whlist, c, name);
      }
    }
    if c: nat :| c < b0 && KnownAt(delist, whlist, c, name) {
      assert Taken(layers, c, Read(layers, b, k, c), delist[c], whlist[c]);
    }
  }

  /** Entry k of branch b is taken: a shown name goes on delist, a whiteout's name on whlist. */
  lemma TakeEntry(layers: Layers, b: nat, k: nat, d: Heads, w: Heads, d1: Heads, w1: Heads)
    requires b < |layers| && k < |layers[b]| && Taken(layers, b, k, d, w)
    requires var e := layers[b][k];
             && Members(d1) == Members(d) + (if Shows(layers, b, e.name) then {e.name} else {})
             && Members(w1) == Members(w) + (if IsWh(e.name) then {e.name[4..]} else {})
    ensures Taken(layers, b, k + 1, d1, w1)
  {
    forall name ensures (name in Members(d1) <==> Shows(layers, b, name) && Has(layers[b][..k + 1], name))
      ensures name in Members(w1) <==> Whites(layers[b][..k + 1], name)
    {
      HasNext(layers[b], k + 1, name);
    }
  }

  lemma GatherEntry(layers: Layers, b: nat, k: nat, delist: seq<Heads>, whlist: seq<Heads>, d1: Heads, w1: Heads)
    requires Gathered(layers, b, k, delist, whlist) && b < |layers| && k < |layers[b]|
    requires Taken(layers, b, k + 1, d1, w1) && Hashed(d1) && Hashed(w1)
    ensures Gathered(layers, b, k + 1, delist[b := d1], whlist[b := w1])
  {
    var ds, ws := delist[b := d1], whlist[b := w1];
    forall c | 0 <= c < |layers| ensures Taken(layers, c, Read(layers, b, k + 1, c), ds[c], ws[c]) {
      assert Taken(layers, c, Read(layers, b, k, c), delist[c], whlist[c]);
    }
  }

  lemma GatherBranch(layers: Layers, b: nat, delist: seq<Heads>, whlist: seq<Heads>)
    requires b < |layers| && Gathered(layers, b, |layers[b]|, delist, whlist)
    ensures Gathered(layers, b + 1, 0, delist, whlist)
  {
    forall c | 0 <= c < |layers| ensures Read(layers, b + 1, 0, c) == Read(layers, b, |layers[b]|, c) {}
  }

  lemma GatherStart(layers: Layers)
    ensures Gathered(layers, 0, 0, seq(|layers|, _ => Init()), seq(|layers|, _ => Init()))
  {
    forall c | 0 <= c < |layers| ensures Taken(layers, c, 0, Init(), Init()) && Read(layers, 0, 0, c) == 0 {}
  }

  /** struct fillvdir_arg. */
  class Filler {
    const vdir: Dir
    var delist: seq<Heads>
    var whlist: seq<Heads>

    /** All lists are empty. */
    ghost predicate Blank(branches: nat)
      reads this
    {
      delist == whlist == seq(branches, _ => Init())
    }

    constructor (d: Dir, branches: nat)
      ensures vdir == d && Blank(branches)
    {
      vdir, delist, whlist := d, seq(branches, _ => Init()), seq(branches, _ => Init());
    }

    /** The search of the lists of all branches above b. */
    method KnownAbove(b: nat, name: string) returns (known: bool)
      requires b <= |delist| == |whlist| && forall c :: 0 <= c < |delist| ==> Hashed(delist[c]) && Hashed(whlist[c])
      ensures known <==> exists c: nat :: c < b && KnownAt(delist, whlist, c, name)
    {
      var c: nat := 0;
      while c < b
        invariant c <= b && forall i: nat :: i < c ==> !KnownAt(delist, whlist, i, name)
      {
        known := TestKnown(delist[c], name);
        if !known { known := TestKnown(whlist[c], name); }
        if known {
          assert KnownAt(delist, whlist, c, name);
          return;
        }
        c := c + 1;
      }
      known := false;
    }

    /** fillvdir for a name that is not a whiteout. */
    method FillName(ghost layers: Layers, b: nat, ghost k: nat, e: Lower) returns (err: int)
      requires LowerOk(e) && b < |layers| && k < |layers[b]| && e == layers[b][k] && !IsWh(e.name)
      requires Gathered(layers, b, k, delist, whlist) && vdir.Valid() && vdir.Open()
      modifies vdir, this`delist
      ensures vdir.Valid() && err in {0, -EIO, -ENOMEM}
      ensures err == 0 ==> vdir.Open() && Gathered(layers, b, k + 1, delist, whlist)
      ensures err == 0 ==> Flat(vdir.parts) == old(Flat(vdir.parts)) + Piece(layers, b, k)
      ensures (err == -EIO <==> e.ino == 0 && Shows(layers, b, e.name)) && (err == -ENOMEM ==> vdir.heap == [])
      ensures |old(vdir.heap)| <= |vdir.heap| + 2 && |vdir.deblk| + |vdir.heap| == |old(vdir.deblk)| + |old(vdir.heap)|
    {
      hide Flat, Packed, Hidden;
      err := 0;
      var known := KnownAbove(b, e.name);
      KnownIffHidden(layers, b, k, delist, whlist, b, e.name);
      var d := if known then delist[b] else AddHead(delist[b], e.name);
      if !known {
        if e.ino == 0 { return -EIO; }
        err := vdir.AppendDe(De(e.ino, e.dtype, e.name));
        if err != 0 { return; }
        AddMember(delist[b], e.name);
      }
      assert Taken(layers, b, Read(layers, b, k, b), delist[b], whlist[b]);
      TakeEntry(layers, b, k, delist[b], whlist[b], d, whlist[b]);
      GatherEntry(layers, b, k, delist, whlist, d, whlist[b]);
      delist := delist[b := d];
      assert whlist[b := whlist[b]] == whlist;
    }

    /** fillvdir for a whiteout. */
    method FillWh(ghost layers: Layers, b: nat, ghost k: nat, e: Lower)
      requires b < |layers| && k < |layers[b]| && e == layers[b][k] && IsWh(e.name)
      requires Gathered(layers, b, k, delist, whlist)
      modifies this`whlist
      ensures Gathered(layers, b, k + 1, delist, whlist)
    {
      var name := e.name[4..];
      var known := false;
      if b > 0 { known := TestKnown(whlist[b], name); }
      var w := if known then whlist[b] else AddHead(whlist[b], name);
      if !known { AddMember(whlist[b], name); }
      assert Taken(layers, b, Read(layers, b, k, b), delist[b], whlist[b]);
      TakeEntry(layers, b, k, delist[b], whlist[b], delist[b], w);
      GatherEntry(layers, b, k, delist, whlist, delist[b], w);
      whlist := whlist[b := w];
      assert delist[b := delist[b]] == delist;
    }

    /** The branches above b and the first k entries of b are in the listing and on the lists. */
    ghost predicate At(layers: Layers, b: nat, k: nat)
      requires b < |layers| ==> k <= |layers[b]|
      reads this, vdir
    {
      && b <= |layers| && vdir.Valid() && vdir.Open() && Gathered(layers, b, k, delist, whlist)
      && Flat(vdir.parts) == Merged(layers, b) + if b < |layers| then Part(layers, b, k) else []
    }

    /** fillvdir, the callback a branch's readdir gets. */
    method FillVdir(ghost layers: Layers, b: nat, ghost k: nat, e: Lower) returns (err: int)
      requires LowerOk(e) && b < |layers| && k < |layers[b]| && e == layers[b][k] && At(layers, b, k)
      modifies vdir, this`delist, this`whlist
      ensures vdir.Valid()
      ensures err == 0 ==> At(layers, b, k + 1)
      ensures err in {0, -EIO, -ENOMEM} && (err == -EIO <==> e.ino == 0 && Shows(layers, b, e.name))
      ensures (err == -ENOMEM ==> vdir.heap == []) && |old(vdir.heap)| <= |vdir.heap| + 2
      ensures |vdir.deblk| + |vdir.heap| == |old(vdir.deblk)| + |old(vdir.heap)|
    {
      hide Gathered, Flat;
      PartNext(layers, b, k);
      if IsWh(e.name) {
        FillWh(layers, b, k, e);
        err := 0;
      } else {
        err := FillName(layers, b, k, e);
      }
    }

    /** One branch of au_do_read_vdir. */
    method ReadBranch(layers: Layers, b: nat) returns (err: int)
      requires LayersOk(layers) && b < |layers| && At(layers, b, 0)
      modifies vdir, this`delist, this`whlist
      ensures vdir.Valid()
      ensures err == 0 ==> At(layers, b + 1, 0)
      ensures err in {0, -EIO, -ENOMEM} && (err == -EIO ==> NoNumberIn(layers, b, |layers[b]|))
      ensures err == 0 ==> !NoNumberIn(layers, b, |layers[b]|)
      ensures (err == -ENOMEM ==> vdir.heap == []) && |old(vdir.heap)| <= |vdir.heap| + 2 * |layers[b]|
      ensures |vdir.deblk| + |vdir.heap| == |old(vdir.deblk)| + |old(vdir.heap)|
    {
      var l := layers[b];
      err := 0;
      var k: nat := 0;
      hide At;
      while k < |l|
        invariant k <= |l| && err == 0 && At(layers, b, k)
        invariant !NoNumberIn(layers, b, k) && |old(vdir.heap)| <= |vdir.heap| + 2 * k
        invariant |vdir.deblk| + |vdir.heap| == |old(vdir.deblk)| + |old(vdir.heap)|
      {
        err := FillVdir(layers, b, k, l[k]);
        if err != 0 { return; }
        k := k + 1;
      }
      BranchDone(layers, b);
    }

    lemma BranchDone(layers: Layers, b: nat)
      requires b < |layers| && At(layers, b, |layers[b]|)
      ensures At(layers, b + 1, 0) && vdir.Valid()
    {
      GatherBranch(layers, b, delist, whlist);
      assert Merged(layers, b + 1) == Merged(layers, b) + Part(layers, b, |layers[b]|);
    }

    /**
     au_do_read_vdir: the listing is the merge of all branches, unless an entry to be listed has no number or
     memory runs out, which two blocks for each entry reported rule out.
     */
    method ReadVdir(layers: Layers) returns (err: int)
      requires LayersOk(layers) && Blank(|layers|) && vdir.Valid() && vdir.Open() && Flat(vdir.parts) == []
      modifies vdir, this`delist, this`whlist
      ensures vdir.Valid()
      ensures err == 0 ==> Flat(vdir.parts) == Merged(layers, |layers|) && !NoNumber(layers)
      ensures err in {0, -EIO, -ENOMEM} && (err == -EIO ==> NoNumber(layers))
      ensures err == -ENOMEM ==> vdir.heap == [] && |old(vdir.heap)| <= 2 * Total(layers, |layers|)
      ensures |old(vdir.heap)| <= |vdir.heap| + 2 * Total(layers, |layers|)
      ensures |vdir.deblk| + |vdir.heap| == |old(vdir.deblk)| + |old(vdir.heap)|
    {
      hide *;
      CodesDiffer(layers);
      NoneRead(layers);
      err := 0;
      var b: nat := 0;
      while b < |layers|
        invariant b <= |layers| && err == 0 && At(layers, b, 0)
        invariant forall c: nat :: c < b ==> !NoNumberIn(layers, c, |layers[c]|)
        invariant |old(vdir.heap)| <= |vdir.heap| + 2 * Total(layers, b)
        invariant |vdir.deblk| + |vdir.heap| == |old(vdir.deblk)| + |old(vdir.heap)|
      {
        TotalGrows(layers, b);
        err := ReadBranch(layers, b);
        if err != 0 {
          NoNumberThere(layers, b);
          return;
        }
        b := b + 1;
      }
      NumbersThere(layers);
      AllRead(layers);
    }

    lemma CodesDiffer(layers: Layers)
      ensures -EIO < 0 && -ENOMEM < 0 && EIO != ENOMEM && Total(layers, 0) == 0
    {
    }

    lemma TotalGrows(layers: Layers, b: nat)
      requires b < |layers|
      ensures Total(layers, b) + |layers[b]| == Total(layers, b + 1) <= Total(layers, |layers|)
    {
      TotalRises(layers, b + 1);
    }

    lemma {:induction false} TotalRises(layers: Layers, b: nat)
      requires b <= |layers|
      ensures Total(layers, b) <= Total(layers, |layers|)
      decreases |layers| - b
    {
      if b < |layers| { TotalRises(layers, b + 1); }
    }

    lemma NoNumberThere(layers: Layers, b: nat)
      requires b < |layers|
      ensures NoNumberIn(layers, b, |layers[b]|) ==> NoNumber(layers)
    {
    }

    lemma NumbersThere(layers: Layers)
      requires forall c: nat :: c < |layers| ==> !NoNumberIn(layers, c, |layers[c]|)
      ensures !NoNumber(layers)
    {
    }

    lemma NoneRead(layers: Layers)
      requires Blank(|layers|) && vdir.Valid() && vdir.Open() && Flat(vdir.parts) == []
      ensures At(layers, 0, 0)
    {
      GatherStart(layers);
    }

    lemma AllRead(layers: Layers)
      requires At(layers, |layers|, 0)
      ensures vdir.Valid() && Flat(vdir.parts) == Merged(layers, |layers|)
    {
    }
  }

  lemma PartNext(layers: Layers, b: nat, k: nat)
    requires b < |layers| && k < |layers[b]|
    ensures Part(layers, b, k + 1) == Part(layers, b, k) + Piece(layers, b, k)
    ensures IsWh(layers[b][k].name) ==> Piece(layers, b, k) == []
  {
  }

  /** Branch b is the topmost one that has the name, and no branch above it whites it out. */
  ghost predicate Source(layers: Layers, b: nat, name: string) {
    b < |layers| && Shows(layers, b, name) && Has(layers[b], name)
  }

  lemma {:induction false} MergedSource(layers: Layers, n: nat, name: string)
    requires n <= |layers|
    ensures Lists(Merged(layers, n), name) <==> exists b: nat :: b < n && Source(layers, b, name)
  {
    if n > 0 {
      var l := layers[n - 1];
      assert l[..|l|] == l;
      PartHas(layers, n - 1, |l|, name);
      MergedSource(layers, n - 1, name);
      ListsCat(Merged(layers, n - 1), Part(layers, n - 1, |l|), name);
      assert Source(layers, n - 1, name) <==> Shows(layers, n - 1, name) && Has(l, name);
    }
  }

  /** A name is listed exactly when some branch has it with no whiteout in a branch above. */
  lemma ListedIff(layers: Layers, name: string)
    ensures Lists(Merged(layers, |layers|), name) <==>
            exists b: nat :: b < |layers| && Has(layers[b], name) && forall c :: 0 <= c < b ==> !Whites(layers[c], name)
  {
    MergedSource(layers, |layers|, name);
    if b: nat :| b < |layers| && Has(layers[b], name) && forall c :: 0 <= c < b ==> !Whites(layers[c], name) {
      var t := Topmost(layers, b, name);
      assert Source(layers, t, name);
    }
  }

  lemma {:induction false} Topmost(layers: Layers, b: nat, name: string) returns (t: nat)
    requires b < |layers| && Has(layers[b], name)
    ensures t <= b && Has(layers[t], name) && forall c :: 0 <= c < t ==> !Has(layers[c], name)
    decreases b
  {
    t := b;
    if c: nat :| c < b && Has(layers[c], name) { t := Topmost(layers, c, name); }
  }

  /** Every entry listed is one of its source branch's own. */
  lemma {:induction false} ListedFrom(layers: Layers, n: nat, i: nat) returns (b: nat, k: nat)
    requires n <= |layers| && i < |Merged(layers, n)|
    ensures var e := Merged(layers, n)[i];
            b < n && k < |layers[b]| && Source(layers, b, e.name) && layers[b][k] == Lower(e.name, e.ino, e.dtype)
  {
    var less := Merged(layers, n - 1);
    if i < |less| {
      b, k := ListedFrom(layers, n - 1, i);
    } else {
      b := n - 1;
      k := PartFrom(layers, b, |layers[b]|, i - |less|);
    }
  }

  lemma {:induction false} PartFrom(layers: Layers, b: nat, k: nat, i: nat) returns (j: nat)
    requires b < |layers| && k <= |layers[b]| && i < |Part(layers, b, k)|
    ensures var e := Part(layers, b, k)[i];
            j < k && Shows(layers, b, e.name) && Has(layers[b], e.name) && layers[b][j] == Lower(e.name, e.ino, e.dtype)
  {
    if i < |Part(layers, b, k - 1)| {
      j := PartFrom(layers, b, k - 1, i);
    } else {
      j := k - 1;
      assert layers[b][j].name == Part(layers, b, k)[i].name;
    }
  }

  /** No branch lists a name twice. */
  ghost predicate Distinct(layers: Layers) {
    forall b, i, j :: 0 <= b < |layers| && 0 <= i < j < |layers[b]| ==> layers[b][i].name != layers[b][j].name
  }

  ghost predicate NoRepeat(ds: seq<De>) {
    forall i, j :: 0 <= i < j < |ds| ==> ds[i].name != ds[j].name
  }

  /** Then the merged listing has each name once. */
  lemma {:induction false} ListedOnce(layers: Layers, n: nat)
    requires n <= |layers| && Distinct(layers)
    ensures NoRepeat(Merged(layers, n))
  {
    if n > 0 {
      ListedOnce(layers, n - 1);
      PartOnce(layers, n - 1, |layers[n - 1]|);
      var less, part := Merged(layers, n - 1), Part(layers, n - 1, |layers[n - 1]|);
      forall i, j | 0 <= i < |less| && 0 <= j < |part| ensures less[i].name != part[j].name {
        var b, k := ListedFrom(layers, n - 1, i);
        var m := PartFrom(layers, n - 1, |layers[n - 1]|, j);
      }
    }
  }

  lemma {:induction false} PartOnce(layers: Layers, b: nat, k: nat)
    requires b < |layers| && k <= |layers[b]| && Distinct(layers)
    ensures NoRepeat(Part(layers, b, k))
  {
    if k > 0 {
      PartOnce(layers, b, k - 1);
      var less := Part(layers, b, k - 1);
      forall i | 0 <= i < |less| ensures less[i].name != layers[b][k - 1].name {
        var m := PartFrom(layers, b, k - 1, i);
      }
    }
  }
}
