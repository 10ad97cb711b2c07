/** Looking a name up in the branches (dentry.c). */
module Lookup {

  import opened Errno
  import opened Names
  import opened UnionFs

  /** A lower dentry of a name: not held, negative or positive. */
  datatype Low = Gone | Neg | Pos(e: Entry)

  datatype Got = GotErr | GotNull | GotNeg | GotPos(e: Entry)

  /** The phase of the search before branch i. */
  function PhaseAt(s: seq<Sight>, i: nat): Phase
    requires i <= |s|
  {
    if i == 0 then Looking else After(s[i - 1], PhaseAt(s, i - 1))
  }

  lemma {:induction false} PhaseTail(s: seq<Sight>, ph: Phase, i: nat)
    requires i < |s|
    ensures Merge(s, ph)[i] == Take(s[i], PhaseFrom(s, ph, i))
  {
    if i > 0 { PhaseTail(s[1..], After(s[0], ph), i - 1); }
  }

  function PhaseFrom(s: seq<Sight>, ph: Phase, i: nat): Phase
    requires i <= |s|
  {
    if i == 0 then ph else PhaseFrom(s[1..], After(s[0], ph), i - 1)
  }

  lemma {:induction false} PhaseSnoc(s: seq<Sight>, ph: Phase, i: nat)
    requires i < |s|
    ensures PhaseFrom(s, ph, i + 1) == After(s[i], PhaseFrom(s, ph, i))
  {
    if i > 0 { PhaseSnoc(s[1..], After(s[0], ph), i - 1); }
  }

  /** What a search finds in branch i depends on the branches above it only through the phase. */
  lemma {:induction false} MergeAt(s: seq<Sight>, i: nat)
    requires i < |s|
    ensures Merge(s, Looking)[i] == Take(s[i], PhaseAt(s, i))
  {
    PhaseTail(s, Looking, i);
    PhaseFold(s, i);
  }

  lemma {:induction false} PhaseFold(s: seq<Sight>, i: nat)
    requires i <= |s|
    ensures PhaseFrom(s, Looking, i) == PhaseAt(s, i)
  {
    if i > 0 {
      PhaseFold(s, i - 1);
      PhaseSnoc(s, Looking, i - 1);
    }
  }

  /** Markers stop the search only if the name is already known to be a directory. */
  function Heeded(s: Sight, isdir: bool): Sight {
    if s.Is? && !isdir then Is(s.e, false) else s
  }

  /** The sights the search meets: branches from start to btail. */
  function Met(fs: Fs, st: Stack, name: string, start: nat, btail: int, isdir: bool): (s: seq<Sight>)
    requires |st| == |fs.br| == |fs.wh|
    ensures |s| == |st|
  {
    seq(|st|, i requires 0 <= i < |st| =>
      if start <= i <= btail then Heeded(See(fs, i, st[i], name), isdir) else Nothing)
  }

  function Positives(f: seq<Option<Entry>>): nat {
    if f == [] then 0 else Positives(f[..|f| - 1]) + if f[|f| - 1].Some? then 1 else 0
  }

  lemma PositivesNext(f: seq<Option<Entry>>, i: nat)
    requires i < |f|
    ensures Positives(f[..i + 1]) == Positives(f[..i]) + if f[i].Some? then 1 else 0
  {
    assert f[..i + 1][..i] == f[..i];
  }

  lemma {:induction false} PositivesNone(f: seq<Option<Entry>>, n: nat)
    requires n <= |f| && forall i :: n <= i < |f| ==> f[i].None?
    ensures Positives(f) == Positives(f[..n])
    decreases |f| - n
  {
    if n < |f| {
      PositivesNext(f, n);
      PositivesNone(f, n + 1);
    } else {
      assert f[..n] == f;
    }
  }

  predicate Holds(l: Low, f: Option<Entry>) {
    if f.Some? then l == Pos(f.value) else !l.Pos?
  }

  predicate NoneBefore(h: seq<Low>, i: nat) {
    forall j :: 0 <= j < i && j < |h| ==> h[j].Gone?
  }

  predicate DirsOnly(h: seq<Low>, start: nat) {
    forall j :: start <= j < |h| && h[j].Pos? ==> h[j].e.SubDir?
  }

  lemma DirsNone(h: seq<Low>, start: nat)
    requires forall j :: start <= j < |h| ==> h[j].Gone?
    ensures DirsOnly(h, start)
  {
  }

  lemma DirsNext(was: seq<Low>, h: seq<Low>, start: nat, i: nat, bwh: int, stop: bool)
    requires DirsOnly(was, start) && i < |was| == |h| && forall j :: 0 <= j < |h| && j != i ==> h[j] == was[j]
    requires h[i].Pos? ==> bwh < 0 && (h[i].e.File? ==> stop)
    ensures if stop then bwh < 0 || DirsOnly(h, start) else DirsOnly(h, start)
  {
  }

  /** What the search has left in the dentry for the first i branches. */
  ghost predicate Held(h: seq<Low>, f: seq<Option<Entry>>, start: nat, i: nat) {
    |h| == |f| && forall j :: start <= j < i && j < |h| ==> Holds(h[j], f[j])
  }

  ghost predicate AnyPos(h: seq<Low>) {
    exists j :: 0 <= j < |h| && h[j].Pos?
  }

  /** The dentry after the search of the branches from start up to i. */
  ghost predicate Progress(h: seq<Low>, f: seq<Option<Entry>>, start: nat, i: nat, npositive: nat) {
    && start <= i <= |h| == |f|
    && (forall j :: i <= j < |h| ==> h[j].Gone?)
    && Held(h, f, start, i) && npositive == Positives(f[..i])
  }

  lemma ProgressGone(h: seq<Low>, f: seq<Option<Entry>>, start: nat, i: nat, npositive: nat)
    requires Progress(h, f, start, i, npositive) && i < |h|
    ensures h[i].Gone?
  {
  }

  lemma ProgressNext(h: seq<Low>, g: seq<Low>, f: seq<Option<Entry>>, start: nat, i: nat, npositive: nat)
    requires Progress(h, f, start, i, npositive) && i < |g| == |h| && forall j :: 0 <= j < |h| && j != i ==>
             g[j] == h[j]
    requires Holds(g[i], f[i])
    ensures Progress(g, f, start, i + 1, npositive + if f[i].Some? then 1 else 0)
  {
    PositivesNext(f, i);
  }

  lemma ProgressDone(h: seq<Low>, f: seq<Option<Entry>>, start: nat, i: nat, npositive: nat)
    requires Progress(h, f, start, i, npositive) && forall j :: i <= j < |f| ==> f[j].None?
    ensures Held(h, f, start, |h|) && npositive == Positives(f)
  {
    PositivesNone(f, i);
  }

  predicate WhNamed(name: string) {
    |name| >= 4 && name[..4] == WH_PFX
  }

  /** Those are the names that start with the four characters of the prefix. */
  lemma WhNamedIff(name: string)
    ensures WhNamed(name) <==> exists n: string :: name == ".wh." + n
  {
    if WhNamed(name) { assert name == ".wh." + name[4..]; }
  }

  /** bstart and bend bound what is held; bstart itself is held. */
  ghost predicate Ranged(h: seq<Low>, bstart: int, bend: int) {
    && -1 <= bstart < |h| && -1 <= bend < |h| && (bstart < 0 <==> bend < 0)
    && (bstart >= 0 ==> bstart <= bend && !h[bstart].Gone?)
    && forall j :: 0 <= j < |h| && !h[j].Gone? ==> bstart <= j <= bend && bstart >= 0
  }

  lemma RangedSet(h: seq<Low>, bstart: int, bend: int, i: nat, l: Low)
    requires Ranged(h, bstart, bend) && i < |h| && !l.Gone?
    ensures Ranged(h[i := l], if bstart < 0 || i < bstart then i else bstart, if bend <= i then i else bend)
  {
  }

  /** The lookup of a name in one branch needs no more than these. */
  ghost predicate InBranch(fs: Fs, st: Stack, i: nat) {
    |st| == |fs.br| == |fs.wh| && i < |st| && st[i].Some? && st[i].value in fs.br[i]
  }

  /** struct au_dinfo: the lower dentries and the indices kept with them. */
  class Dentry {
    var h: seq<Low>
    var bstart: int
    var bend: int
    var bwh: int
    var bdiropq: int

    constructor (n: nat)
      ensures h == seq(n, _ => Gone) && bstart == bend == bwh == bdiropq == -1
    {
      h, bstart, bend, bwh, bdiropq := seq(n, _ => Gone), -1, -1, -1, -1;
    }

    /** au_do_lookup in branch i, whose part of the parent is directory st[i]; bad says that the branch fails. */
    method DoLookup(fs: Fs, st: Stack, i: nat, name: string, allowNeg: bool, dirOnly: bool, inode: Option<bool>,
                    bad: bool)
      returns (r: Got)
      requires InBranch(fs, st, i) && |h| == |st| && Ranged(h, bstart, bend) && h[i] == Gone
      modifies this
      ensures |h| == |st| && Ranged(h, bstart, bend) && forall j :: 0 <= j < |h| && j != i ==> h[j] == old(h[j])
      ensures bstart == (if h[i].Gone? || 0 <= old(bstart) < i then old(bstart) else i)
      ensures var s := See(fs, i, st[i], name);
              && (r != GotErr && (s == Nothing || s == White) ==>
                  r == (if allowNeg && name !in fs.br[i][st[i].value].ents then GotNeg else GotNull))
              && (r != GotErr && s.Is? ==> r == if dirOnly && !s.e.SubDir? then GotNull else GotPos(s.e))
              && bwh == (if r != GotErr && s == White then i else old(bwh))
              && bdiropq == (if r.GotPos? && s.opq && (inode.None? || inode.value) then i else old(bdiropq))
      ensures h[i] == (match r case GotPos(e) => Pos(e) case GotNeg => Neg case _ => Gone)
      ensures r == GotErr <==>
                bad || (fs.wh[i] && Wh(name) in fs.br[i][st[i].value].ents
                && fs.br[i][st[i].value].ents[Wh(name)].SubDir?)
    {
      hide Ranged;
      RangedSet(h, bstart, bend, i, Neg);
      if name in fs.br[i][st[i].value].ents { RangedSet(h, bstart, bend, i, Pos(fs.br[i][st[i].value].ents[name])); }
      var ents := fs.br[i][st[i].value].ents;
      if bad { return GotErr; }
      var whFound := fs.wh[i] && Wh(name) in ents;
      if whFound {
        if ents[Wh(name)].SubDir? { return GotErr; }
        bwh := i;
        if !allowNeg { return GotNull; }
      }
      if name !in ents {
        if !allowNeg { return GotNull; }
      } else if whFound || (dirOnly && !ents[name].SubDir?) {
        return GotNull;
      }
      if bend <= i { bend := i; }
      if bstart < 0 || i < bstart { bstart := i; }
      h := h[i := if name in ents then Pos(ents[name]) else Neg];
      if name !in ents { return GotNeg; }
      if ents[name].SubDir? && fs.wh[i] && (inode.None? || inode.value)
          && Marked(fs.br[i], ents[name].ino) { bdiropq := i; }
      r := GotPos(ents[name]);
    }

    /** One round of the loop in au_lkup_dentry; stop says that the loop is left. */
    method Round(fs: Fs, st: Stack, name: string, i: nat, allowNeg: bool, npositive: nat, inode: Option<bool>,
                 bad: set<nat>)
      returns (err: int, looked: bool, n: nat, stop: bool)
      requires |st| == |fs.br| == |fs.wh| == |h| && i < |st| && h[i] == Gone && Ranged(h, bstart, bend)
      requires bwh < 0 && (inode == Some(true) ==> bdiropq < 0) && (allowNeg ==> npositive == 0)
      modifies this
      ensures |h| == |st| && Ranged(h, bstart, bend) && forall j :: 0 <= j < |h| && j != i ==> h[j] == old(h[j])
      ensures bstart == (if h[i].Gone? || 0 <= old(bstart) < i then old(bstart) else i)
      ensures err in {0, -EIO} && (err != 0 <==> Fails(fs, st, name, bad, i))
      ensures err == 0 ==> RoundDone(h[i], Heeded(See(fs, i, st[i], name), inode == Some(true)), npositive, n, stop)
      ensures err == 0 && !stop ==> bwh < 0 && (inode == Some(true) ==> bdiropq < 0)
      ensures AnyPos(old(h)) || n > npositive ==> AnyPos(h)
      ensures looked <==> InBranch(fs, st, i)
      ensures !looked ==> n == npositive && h == old(h) && !stop
      ensures looked && allowNeg && err == 0 ==> (h[i].Gone? <==> IllFormed(fs, st, name, i)) && (h[i].Gone? ==> stop)
      ensures err == 0 && h[i].Pos? ==> bwh < 0 && (h[i].e.File? ==> stop)
      ensures err == 0 ==> bwh == if See(fs, i, st[i], name) == White then i else old(bwh)
      ensures err == 0 ==> bdiropq == if h[i].Pos? && MarkHeeded(fs, st, name, inode, i) then i else old(bdiropq)
    {
      err, n, stop, looked := 0, npositive, false, false;
      if st[i].None? || st[i].value !in fs.br[i] { return; }
      looked := true;
      var got := DoLookup(fs, st, i, name, allowNeg, npositive > 0, inode, i in bad);
      if got == GotErr { return -EIO, true, n, stop; }
      if bwh >= 0 { return 0, true, n, true; }
      if got.GotPos? {
        n := n + 1;
        stop := got.e.File? || (inode == Some(true) && bdiropq >= 0 && bdiropq <= i);
      }
    }

    /** Where the loop of au_lkup_dentry stands before branch i. */
    ghost predicate Scanning(s: seq<Sight>, start: nat, inode: Option<bool>, i: nat, npositive: nat, stop: bool)
      reads this
    {
      && Ranged(h, bstart, bend) && Progress(h, Merge(s, Looking), start, i, npositive)
      && PhaseAt(s, i) == (if stop then Done else if npositive > 0 then Merging else Looking)
      && (npositive > 0 ==> AnyPos(h))
      && (!stop ==> bwh < 0 && (inode == Some(true) ==> bdiropq < 0))
    }

    method ScanStep(fs: Fs, st: Stack, name: string, start: nat, btail: int, inode: Option<bool>, bad: set<nat>,
                    i: nat, npositive: nat, allowNeg: bool)
      returns (err: int, looked: bool, n: nat, stop: bool)
      requires |st| == |fs.br| == |fs.wh| == |h| && start <= i <= btail < |h| && (allowNeg ==> npositive == 0)
      requires Scanning(Met(fs, st, name, start, btail, inode == Some(true)), start, inode, i, npositive, false)
      modifies this
      ensures |h| == |st| && Ranged(h, bstart, bend)
      ensures err in {0, -EIO} && (err != 0 <==> Fails(fs, st, name, bad, i))
      ensures err == 0 ==> Scanning(Met(fs, st, name, start, btail, inode == Some(true)), start, inode, i + 1, n, stop)
      ensures !looked ==> n == npositive && h == old(h) && !stop
      ensures looked <==> InBranch(fs, st, i)
      ensures looked && allowNeg && err == 0 ==> (h[i].Gone? <==> IllFormed(fs, st, name, i)) && (h[i].Gone? ==> stop)
      ensures (forall j :: 0 <= j < |h| && j != i ==> h[j] == old(h)[j]) && old(h)[i].Gone?
      ensures err == 0 && h[i].Pos? ==> bwh < 0 && (h[i].e.File? ==> stop)
      ensures err == 0 ==> bwh == if See(fs, i, st[i], name) == White then i else old(bwh)
      ensures err == 0 ==> bdiropq == if Search(fs, st, name, start, btail, inode)[i].Some?
                                         && MarkHeeded(fs, st, name, inode, i) then i else old(bdiropq)
    {
      ghost var s, before := Met(fs, st, name, start, btail, inode == Some(true)), h;
      MergeAt(s, i);
      ProgressGone(h, Merge(s, Looking), start, i, npositive);
      hide Progress, Ranged, AnyPos, Merge;
      err, looked, n, stop := Round(fs, st, name, i, allowNeg, npositive, inode, bad);
      if err == 0 { ProgressNext(before, h, Merge(s, Looking), start, i, npositive); }
    }

    /** The loop of au_lkup_dentry over branches start to btail. */
    method Scan(fs: Fs, st: Stack, name: string, start: nat, btail: int, inode: Option<bool>, bad: set<nat>)
      returns (err: int, npositive: nat)
      requires |st| == |fs.br| == |fs.wh| == |h| && start <= |h| && -1 <= btail < |h|
      requires Ranged(h, bstart, bend) && bwh < 0 && (inode == Some(true) ==> bdiropq < 0)
      requires forall j :: start <= j < |h| ==> h[j].Gone?
      modifies this
      ensures |h| == |st| && Ranged(h, bstart, bend)
      ensures err in {0, -EIO} && (err != 0 <==> Trouble(fs, st, name, start, btail, inode, bad))
      ensures err == 0 ==> (bstart < 0 <==> NoneBefore(old(h), start) && NothingHeld(fs, st, name, start, btail))
      ensures err == 0 ==> npositive == Positives(Search(fs, st, name, start, btail, inode))
      ensures err == 0 ==> Held(h, Search(fs, st, name, start, btail, inode), start, |h|)
      ensures err == 0 && npositive > 0 ==> AnyPos(h)
      ensures forall j :: 0 <= j < start ==> h[j] == old(h)[j]
      ensures err == 0 ==> bwh < 0 || DirsOnly(h, start)
      ensures err == 0 ==> WhIs(fs, st, name, start, btail, inode, old(bwh), bwh)
      ensures err == 0 ==> OpqIs(fs, st, name, start, btail, inode, old(bdiropq), bdiropq)
    {
      hide Ranged, AnyPos, PhaseAt, Merge, Positives, DirsOnly, InBranch, Sofar, Search, Held;
      var i, stop, allowNeg := start, false, true;
      err, npositive := 0, 0;
      SofarFirst(fs, st, name, start, btail, inode, bad);
      while i <= btail && !stop
        invariant start <= i && (i <= btail + 1 || i == start) && |h| == |st|
        invariant Sofar(old(h), old(bwh), old(bdiropq), fs, st, name, start, btail, inode, bad, i, npositive, allowNeg,
                        stop)
      {
        err, npositive, allowNeg, stop :=
          ScanRound(fs, st, name, start, btail, inode, bad, i, npositive, allowNeg, old(h), old(bwh), old(bdiropq));
        if err != 0 { return; }
        i := i + 1;
      }
      err := 0;
      SofarLast(old(h), old(bwh), old(bdiropq), fs, st, name, start, btail, inode, bad, i, npositive, allowNeg, stop);
    }

    /** Where Scan stands before branch i, given the dentry and its indices from before. */
    ghost predicate Sofar(h0: seq<Low>, w0: int, q0: int, fs: Fs, st: Stack, name: string, start: nat, btail: int,
                          inode: Option<bool>, bad: set<nat>, i: nat, npositive: nat, allowNeg: bool, stop: bool)
      reads this
    {
      && |st| == |fs.br| == |fs.wh| == |h| && (allowNeg ==> npositive == 0) && w0 < 0
      && Scanning(Met(fs, st, name, start, btail, inode == Some(true)), start, inode, i, npositive, stop)
      && Looked(h0, fs, st, name, start, i, allowNeg, stop)
      && (forall j: nat :: start <= j < i ==> !Fails(fs, st, name, bad, j))
      && (if stop then bwh < 0 || DirsOnly(h, start) else DirsOnly(h, start))
      && WhNoted(fs, st, name, start, i, w0, bwh)
      && Running(Met(fs, st, name, start, btail, inode == Some(true)), start, i)
      && OpqNoted(fs, st, name, start, btail, i, inode, q0, bdiropq)
    }

    lemma SofarFirst(fs: Fs, st: Stack, name: string, start: nat, btail: int, inode: Option<bool>, bad: set<nat>)
      requires |st| == |fs.br| == |fs.wh| == |h| && start <= |h|
      requires Ranged(h, bstart, bend) && bwh < 0 && (inode == Some(true) ==> bdiropq < 0)
      requires forall j :: start <= j < |h| ==> h[j].Gone?
      ensures Sofar(h, bwh, bdiropq, fs, st, name, start, btail, inode, bad, start, 0, true, false)
    {
      DirsNone(h, start);
      Unmet(Met(fs, st, name, start, btail, inode == Some(true)), start);
      hide See, Search, PhaseAt, Merge;
      NotedFirst(fs, st, name, start, btail, inode, bwh, bdiropq);
    }

    /** One branch of Scan. */
    method ScanRound(fs: Fs, st: Stack, name: string, start: nat, btail: int, inode: Option<bool>, bad: set<nat>,
                     i: nat, npositive: nat, allowNeg: bool, ghost h0: seq<Low>, ghost w0: int, ghost q0: int)
      returns (err: int, n: nat, neg: bool, stop: bool)
      requires |h| == |st| && start <= i <= btail < |h|
      requires Sofar(h0, w0, q0, fs, st, name, start, btail, inode, bad, i, npositive, allowNeg, false)
      modifies this
      ensures |h| == |st| && Ranged(h, bstart, bend) && |h0| == |h| && forall j :: 0 <= j < start ==> h[j] == h0[j]
      ensures err in {0, -EIO} && (err != 0 ==> Trouble(fs, st, name, start, btail, inode, bad))
      ensures err == 0 ==> Sofar(h0, w0, q0, fs, st, name, start, btail, inode, bad, i + 1, n, neg, stop)
    {
      hide Ranged, AnyPos, PhaseAt, Merge, Positives, DirsOnly, InBranch, Scanning, WhNoted, OpqNoted, MarkHeeded;
      hide Search, See;
      ghost var s, was, w, q := Met(fs, st, name, start, btail, inode == Some(true)), h, bwh, bdiropq;
      NotDone(s, start, inode, i, npositive);
      var looked;
      err, looked, n, stop := ScanStep(fs, st, name, start, btail, inode, bad, i, npositive, allowNeg);
      neg := allowNeg && !looked;
      if err == 0 {
        DirsNext(was, h, start, i, bwh, stop);
        NotedNext(fs, st, name, start, btail, i, inode, w0, w, bwh, q0, q, bdiropq);
        LookedNext(h0, was, fs, st, name, start, i, allowNeg, looked, stop);
      }
    }

    lemma SofarLast(h0: seq<Low>, w0: int, q0: int, fs: Fs, st: Stack, name: string, start: nat, btail: int,
                    inode: Option<bool>, bad: set<nat>, i: nat, npositive: nat, allowNeg: bool, stop: bool)
      requires |h| == |st| && -1 <= btail < |h| && start <= i && (i <= btail + 1 || i == start) && (stop || btail < i)
      requires Sofar(h0, w0, q0, fs, st, name, start, btail, inode, bad, i, npositive, allowNeg, stop)
      requires start <= |h| && forall j :: start <= j < |h0| ==> h0[j].Gone?
      ensures |h| == |h0| && Ranged(h, bstart, bend) && !Trouble(fs, st, name, start, btail, inode, bad)
      ensures bstart < 0 <==> NoneBefore(h0, start) && NothingHeld(fs, st, name, start, btail)
      ensures npositive == Positives(Search(fs, st, name, start, btail, inode))
      ensures Held(h, Search(fs, st, name, start, btail, inode), start, |h|) && (npositive > 0 ==> AnyPos(h))
      ensures (forall j :: 0 <= j < start ==> h[j] == h0[j]) && (bwh < 0 || DirsOnly(h, start))
      ensures WhIs(fs, st, name, start, btail, inode, w0, bwh) && OpqIs(fs, st, name, start, btail, inode, q0, bdiropq)
    {
      hide Ranged, AnyPos, PhaseAt, Merge, Positives, DirsOnly, InBranch, Scanning, WhNoted, OpqNoted, MarkHeeded, See;
      ghost var s := Met(fs, st, name, start, btail, inode == Some(true));
      LookedEnd(h0, s, fs, st, name, start, btail, inode, i, npositive, allowNeg, stop);
      NoTrouble(s, fs, st, name, start, btail, inode, bad, i, npositive, stop);
      ScanDone(s, start, inode, i, npositive, stop);
      if stop { StopIsDone(s, start, inode, i, npositive); }
      NotedEnd(fs, st, name, start, btail, i, inode, stop, w0, bwh, q0, bdiropq);
    }

    lemma StopIsDone(s: seq<Sight>, start: nat, inode: Option<bool>, i: nat, npositive: nat)
      requires i <= |s| && Scanning(s, start, inode, i, npositive, true)
      ensures PhaseAt(s, i) == Done
    {
    }

    /** What the dentry holds of the branches from start up to i, given what it held before. */
    ghost predicate Looked(was: seq<Low>, fs: Fs, st: Stack, name: string, start: nat, i: nat, allowNeg: bool,
                           stop: bool)
      reads this
    {
      && |h| == |was| && (forall j :: 0 <= j < start && j < |h| ==> h[j] == was[j])
      && if allowNeg then h == was && !stop && forall j: nat :: start <= j < i ==> !InBranch(fs, st, j)
         else exists f: nat :: f < |h| && FirstLooked(fs, st, start, i - 1, f)
                && if IllFormed(fs, st, name, f) then stop && h == was else !h[f].Gone?
    }

    lemma LookedNext(was: seq<Low>, before: seq<Low>, fs: Fs, st: Stack, name: string, start: nat, i: nat,
                     allowNeg: bool,
                     looked: bool, stop: bool)
      requires start <= i < |h| == |before| == |was| && forall j :: 0 <= j < |h| && j != i ==> h[j] == before[j]
      requires before[i].Gone? && forall j :: 0 <= j < start ==> before[j] == was[j]
      requires if allowNeg then before == was && forall j: nat :: start <= j < i ==> !InBranch(fs, st, j)
               else exists f: nat ::
                 f < |h| && FirstLooked(fs, st, start, i - 1, f) && !IllFormed(fs, st, name, f)
                 && !before[f].Gone?
      requires (looked <==> InBranch(fs, st, i)) && (!looked ==> h == before && !stop)
      requires looked && allowNeg ==> (h[i].Gone? <==> IllFormed(fs, st, name, i)) && (h[i].Gone? ==> stop)
      ensures Looked(was, fs, st, name, start, i + 1, allowNeg && !looked, stop)
    {
      if !allowNeg {
        var f: nat :| f < |h| && FirstLooked(fs, st, start, i - 1, f) && !IllFormed(fs, st, name, f)
            && !before[f].Gone?;
        assert FirstLooked(fs, st, start, i, f);
      } else if looked {
        assert FirstLooked(fs, st, start, i, i);
        if IllFormed(fs, st, name, i) { assert h == was; }
      }
    }

    lemma LookedEnd(was: seq<Low>, s: seq<Sight>, fs: Fs, st: Stack, name: string, start: nat, btail: int,
                    inode: Option<bool>,
                    i: nat, npositive: nat, allowNeg: bool, stop: bool)
      requires Looked(was, fs, st, name, start, i, allowNeg, stop) && Scanning(s, start, inode, i, npositive, stop)
      requires (stop || btail < i) && (i <= btail + 1 || i == start) && |s| == |st| == |h| && -1 <= btail < |h|
      requires forall j :: start <= j < |h| ==> was[j].Gone?
      ensures bstart < 0 <==> NoneBefore(was, start) && NothingHeld(fs, st, name, start, btail)
      ensures forall j :: 0 <= j < start && j < |h| ==> h[j] == was[j]
    {
      if allowNeg {
        forall f: nat ensures !FirstLooked(fs, st, start, btail, f) {}
      } else {
        var f: nat :| f < |h| && FirstLooked(fs, st, start, i - 1, f)
                      && if IllFormed(fs, st, name, f) then stop && h == was else !h[f].Gone?;
        assert FirstLooked(fs, st, start, btail, f);
        forall g: nat | FirstLooked(fs, st, start, btail, g) ensures g == f {}
      }
    }

    lemma NotDone(s: seq<Sight>, start: nat, inode: Option<bool>, i: nat, npositive: nat)
      requires Scanning(s, start, inode, i, npositive, false) && i <= |s|
      ensures PhaseAt(s, i) != Done && bwh < 0
    {
    }

    lemma NoTrouble(s: seq<Sight>, fs: Fs, st: Stack, name: string, start: nat, btail: int, inode: Option<bool>,
                    bad: set<nat>,
                    i: nat, npositive: nat, stop: bool)
      requires |st| == |fs.br| == |fs.wh| && s == Met(fs, st, name, start, btail, inode == Some(true))
      requires i <= |s| && Scanning(s, start, inode, i, npositive, stop) && (stop || btail < i)
      requires forall j: nat :: start <= j < i ==> !Fails(fs, st, name, bad, j)
      ensures !Trouble(fs, st, name, start, btail, inode, bad)
    {
      if stop {
        forall j: nat | i <= j <= |s| ensures PhaseAt(s, j) == Done { DoneStays(s, i, j); }
      }
    }

    lemma ScanDone(s: seq<Sight>, start: nat, inode: Option<bool>, i: nat, npositive: nat, stop: bool)
      requires i <= |s| && Scanning(s, start, inode, i, npositive, stop)
      requires stop || forall j :: i <= j < |s| ==> s[j] == Nothing
      ensures Ranged(h, bstart, bend) && Held(h, Merge(s, Looking), start, |h|)
              && npositive == Positives(Merge(s, Looking))
      ensures npositive > 0 ==> AnyPos(h)
    {
      NoneLater(s, i);
      ProgressDone(h, Merge(s, Looking), start, i, npositive);
    }

    /**
     au_lkup_dentry from branch start to the parent's last, btail.  Without trouble in the branches the
     result counts the entries the merge rule finds, and each is held; udba says that the mount checks
     for outside changes.
     */
    method Lkup(fs: Fs, st: Stack, name: string, start: nat, btail: int, inode: Option<bool>, udba: bool, bad: set<nat>)
      returns (err: int)
      requires |st| == |fs.br| == |fs.wh| == |h| && start <= |h| && -1 <= btail < |h|
      requires Ranged(h, bstart, bend) && bwh < 0 && (inode == Some(true) ==> bdiropq < 0)
      requires forall j :: start <= j < |h| ==> h[j].Gone?
      modifies this
      ensures |h| == |st| && Ranged(h, bstart, bend)
      ensures WhNamed(name) ==> err == -EPERM && unchanged(this)
      ensures !WhNamed(name) ==>
                err == if Trouble(fs, st, name, start, btail, inode, bad)
                          || (udba && NoneBefore(old(h), start) && NothingHeld(fs, st, name, start, btail)) then -EIO
                       else Positives(Search(fs, st, name, start, btail, inode))
      ensures err >= 0 ==> Held(h, Search(fs, st, name, start, btail, inode), start, |h|)
      ensures !WhNamed(name) ==> |h| == |old(h)| && forall j :: 0 <= j < start ==> h[j] == old(h)[j] || h[j].Gone?
      ensures err == 0 ==> forall j :: 0 <= j < start ==> h[j] == old(h)[j]
      ensures err > 0 ==> bstart >= 0 && h[bstart].Pos? && forall j :: 0 <= j < bstart ==> h[j].Gone?
      ensures err > 0 ==> bwh < 0 || DirsOnly(h, start)
      ensures err >= 0 ==> WhIs(fs, st, name, start, btail, inode, old(bwh), bwh)
      ensures err >= 0 ==> OpqIs(fs, st, name, start, btail, inode, old(bdiropq), bdiropq)
    {
      if |name| >= 4 && name[..4] == WH_PFX { return -EPERM; }
      var npositive;
      err, npositive := Scan(fs, st, name, start, btail, inode, bad);
      if err != 0 { return; }
      hide Search, Positives;
      if npositive > 0 { UpdateDbstart(); }
      err := if udba && bstart < 0 then -EIO else npositive;
    }

    /** au_update_dbstart: negative dentries before the first positive one are let go. */
    method UpdateDbstart()
      requires Ranged(h, bstart, bend) && AnyPos(h)
      modifies this`h, this`bstart
      ensures |h| == |old(h)| && forall j :: 0 <= j < |h| ==> h[j] == old(h[j]) || (old(h[j]) == Neg && h[j] == Gone)
      ensures Ranged(h, bstart, bend) && 0 <= bstart && h[bstart].Pos? && forall j :: 0 <= j < bstart ==> h[j].Gone?
    {
      var i := bstart;
      while i <= bend
        invariant old(bstart) <= i <= bend + 1 && |h| == |old(h)| && bstart == old(bstart) && bend < |h|
        invariant forall j :: 0 <= j < |h| ==> h[j] == old(h[j]) || (old(h[j]) == Neg && h[j] == Gone)
        invariant forall j :: 0 <= j < i ==> h[j].Gone?
      {
        if h[i].Pos? {
          bstart := i;
          return;
        }
        h := h[i := Gone];
        i := i + 1;
      }
    }
  }

  /** What a search of branches start to btail finds. */
  ghost function Search(fs: Fs, st: Stack, name: string, start: nat, btail: int,
                        inode: Option<bool>): (f: seq<Option<Entry>>)
    requires |st| == |fs.br| == |fs.wh|
    ensures |f| == |st|
  {
    Merge(Met(fs, st, name, start, btail, inode == Some(true)), Looking)
  }

  lemma {:induction false} Unmet(s: seq<Sight>, i: nat)
    requires i <= |s| && forall j :: 0 <= j < i ==> s[j] == Nothing
    ensures PhaseAt(s, i) == Looking && Positives(Merge(s, Looking)[..i]) == 0
  {
    if i > 0 {
      Unmet(s, i - 1);
      MergeAt(s, i - 1);
      PositivesNext(Merge(s, Looking), i - 1);
    }
  }

  lemma {:induction false} DoneStays(s: seq<Sight>, i: nat, j: nat)
    requires i <= j <= |s| && PhaseAt(s, i) == Done
    ensures PhaseAt(s, j) == Done
    decreases j
  {
    if i < j { DoneStays(s, i, j - 1); }
  }

  /** Nothing is found any more once the search is done or only empty sights are left. */
  lemma {:induction false} NoneLater(s: seq<Sight>, i: nat)
    requires i <= |s| && (PhaseAt(s, i) == Done || forall j :: i <= j < |s| ==> s[j] == Nothing)
    ensures forall j :: i <= j < |s| ==> Merge(s, Looking)[j].None?
    decreases |s| - i
  {
    if i < |s| {
      MergeAt(s, i);
      NoneLater(s, i + 1);
    }
  }

  /** The result of a search whose first sight, in branch i, is s. */
  ghost predicate Outcome(f: seq<Option<Entry>>, i: nat, s: Sight) {
    && i < |f| && (forall j :: 0 <= j < i ==> f[j].None?)
    && (s.Is? ==> f[i] == Some(s.e))
    && (s.White? ==> forall j :: 0 <= j < |f| ==> f[j].None?)
  }

  /** A search ends in the branch of its first sight: an entry is found there, a whiteout hides all. */
  lemma {:induction false} FirstSightSeq(s: seq<Sight>, i: nat)
    requires i < |s| && s[i] != Nothing && forall j :: 0 <= j < i ==> s[j] == Nothing
    ensures Outcome(Merge(s, Looking), i, s[i])
  {
    forall j | 0 <= j < i ensures Merge(s, Looking)[j].None? {
      Unmet(s, j);
      MergeAt(s, j);
    }
    Unmet(s, i);
    MergeAt(s, i);
    var next: nat := i + 1;
    if s[i].White? { NoneLater(s, next); }
  }

  lemma {:induction false} PositivesAny(f: seq<Option<Entry>>)
    ensures Positives(f) > 0 <==> AnyFound(f)
  {
    if f != [] {
      var k := |f| - 1;
      PositivesAny(f[..k]);
      if i :| 0 <= i < k && f[..k][i].Some? { assert f[i].Some?; }
      if i :| 0 <= i < |f| && f[i].Some? { assert i < k ==> f[..k][i].Some?; }
    }
  }

  /** Branch i is the topmost one to hold the name or, where that is honoured, its whiteout. */
  ghost predicate TopSight(fs: Fs, st: Stack, i: nat, name: string)
    requires |st| == |fs.br| == |fs.wh|
  {
    i < |st| && See(fs, i, st[i], name) != Nothing && forall j :: 0 <= j < i ==> See(fs, j, st[j], name) == Nothing
  }

  lemma FirstSight(fs: Fs, st: Stack, i: nat, name: string)
    requires |st| == |fs.br| == |fs.wh| && TopSight(fs, st, i, name)
    ensures var f := Found(fs, st, name);
            && (forall j :: 0 <= j < i ==> f[j].None?)
            && (See(fs, i, st[i], name).Is? ==> f[i] == Some(See(fs, i, st[i], name).e))
            && (See(fs, i, st[i], name).White? ==> forall j :: 0 <= j < |f| ==> f[j].None?)
  {
    var s := Sights(fs, st, name);
    FirstSightSeq(s, i);
    assert Found(fs, st, name) == Merge(s, Looking) && s[i] == See(fs, i, st[i], name);
  }

  lemma NoSight(fs: Fs, st: Stack, name: string)
    requires |st| == |fs.br| == |fs.wh| && forall i :: 0 <= i < |st| ==> See(fs, i, st[i], name) == Nothing
    ensures forall j :: 0 <= j < |st| ==> Found(fs, st, name)[j].None?
  {
    NoneLater(Sights(fs, st, name), 0);
  }

  lemma {:induction false} FindTop(fs: Fs, st: Stack, name: string, n: nat) returns (i: nat)
    requires |st| == |fs.br| == |fs.wh| && n <= |st|
    ensures i <= n && (i < n ==> TopSight(fs, st, i, name))
    ensures i == n ==> forall j :: 0 <= j < n ==> See(fs, j, st[j], name) == Nothing
  {
    if n == 0 { return 0; }
    i := FindTop(fs, st, name, n - 1);
    if i == n - 1 && See(fs, i, st[i], name) == Nothing { i := n; }
  }

  /** Nothing is seen before branch i. */
  predicate Topmost(s: seq<Sight>, i: nat)
    requires i <= |s|
  {
    forall m :: 0 <= m < i ==> s[m] == Nothing
  }

  /** No whiteout, no marked directory and no file at the top lies above branch j. */
  predicate Reaches(s: seq<Sight>, j: nat)
    requires j <= |s|
  {
    forall i :: 0 <= i < j ==>
      && s[i] != White && !(s[i].Is? && s[i].e.SubDir? && s[i].opq) && !(s[i].Is? && s[i].e.File? && Topmost(s, i))
  }

  /** The search is over at branch j exactly if something above ends it. */
  lemma {:induction false} PhaseIff(s: seq<Sight>, j: nat)
    requires j <= |s|
    ensures PhaseAt(s, j) != Done <==> Reaches(s, j)
    ensures PhaseAt(s, j) == Looking <==> Topmost(s, j)
  {
    if j > 0 { PhaseIff(s, j - 1); }
  }

  /**
   What a search finds: the first entry seen, and, where that is a directory, every directory below it down to
   the first whiteout or marker.  A file in between neither counts nor ends the search.
   */
  lemma MergeIff(s: seq<Sight>, j: nat)
    requires j < |s|
    ensures Merge(s, Looking)[j].Some? <==> s[j].Is? && Reaches(s, j) && (Topmost(s, j) || s[j].e.SubDir?)
    ensures Merge(s, Looking)[j].Some? ==> Merge(s, Looking)[j].value == s[j].e
  {
    MergeAt(s, j);
    PhaseIff(s, j);
  }

  /** What a path's last name is found to be in branch j, from what the branches hold. */
  lemma FoundIff(fs: Fs, st: Stack, name: string, j: nat)
    requires |st| == |fs.br| == |fs.wh| && j < |st|
    ensures var f, s := Found(fs, st, name), Sights(fs, st, name);
            && (f[j].Some? <==> s[j].Is? && Reaches(s, j) && (Topmost(s, j) || s[j].e.SubDir?))
            && (f[j].Some? ==> f[j].value == See(fs, j, st[j], name).e)
  {
    MergeIff(Sights(fs, st, name), j);
  }

  /** Branches start to i - 1 see nothing of the name. */
  predicate FirstFrom(fs: Fs, st: Stack, name: string, start: nat, i: nat)
    requires i <= |st| == |fs.br| == |fs.wh|
  {
    forall m :: start <= m < i ==> See(fs, m, st[m], name) == Nothing
  }

  /** Nothing in branches start to j - 1 ends a search; isdir says that markers do. */
  predicate Passable(fs: Fs, st: Stack, name: string, start: nat, isdir: bool, j: nat)
    requires j <= |st| == |fs.br| == |fs.wh|
  {
    forall i :: start <= i < j ==>
      var s := See(fs, i, st[i], name);
      && s != White && !(isdir && s.Is? && s.e.SubDir? && s.opq)
      && !(s.Is? && s.e.File? && FirstFrom(fs, st, name, start, i))
  }

  lemma MetReaches(fs: Fs, st: Stack, name: string, start: nat, btail: int, isdir: bool, j: nat)
    requires j < |st| == |fs.br| == |fs.wh| && start <= j <= btail
    ensures var s := Met(fs, st, name, start, btail, isdir);
            && (Topmost(s, j) <==> FirstFrom(fs, st, name, start, j))
            && (Reaches(s, j) <==> Passable(fs, st, name, start, isdir, j))
  {
    var s := Met(fs, st, name, start, btail, isdir);
    forall i: nat | start <= i < j ensures s[i] == Heeded(See(fs, i, st[i], name), isdir) {}
    forall i: nat | i <= j ensures Topmost(s, i) <==> FirstFrom(fs, st, name, start, i) {
      if Topmost(s, i) {
        forall m | start <= m < i ensures See(fs, m, st[m], name) == Nothing { assert s[m] == Nothing; }
      }
    }
    hide Topmost, FirstFrom, Met, See;
    if Reaches(s, j) {
      forall i: nat | start <= i < j
        ensures var z := See(fs, i, st[i], name);
                && z != White && !(isdir && z.Is? && z.e.SubDir? && z.opq)
                && !(z.Is? && z.e.File? && FirstFrom(fs, st, name, start, i)) {}
    }
  }

  /** What a search of branches start to btail finds in branch j, from what the branches hold. */
  lemma SearchIff(fs: Fs, st: Stack, name: string, start: nat, btail: int, inode: Option<bool>, j: nat)
    requires |st| == |fs.br| == |fs.wh| && j < |st|
    ensures var f, s := Search(fs, st, name, start, btail, inode), See(fs, j, st[j], name);
            && (f[j].Some? <==> start <= j <= btail && s.Is? && Passable(fs, st, name, start, inode == Some(true), j)
                                && (s.e.SubDir? || FirstFrom(fs, st, name, start, j)))
            && (f[j].Some? ==> f[j].value == s.e)
  {
    var s := Met(fs, st, name, start, btail, inode == Some(true));
    MergeIff(s, j);
    if start <= j <= btail { MetReaches(fs, st, name, start, btail, inode == Some(true), j); }
  }

  /** What one branch shows of a name: its whiteout if that is honoured, or its entry with the marker if it has one. */
  lemma SeeIff(fs: Fs, i: nat, dir: Option<nat>, name: string)
    requires i < |fs.br| == |fs.wh|
    ensures var s := See(fs, i, dir, name);
            var there := dir.Some? && dir.value in fs.br[i];
            && (s == White <==> there && fs.wh[i] && Wh(name) in fs.br[i][dir.value].ents)
            && (s.Is? <==> there && name in fs.br[i][dir.value].ents && s != White)
            && (s.Is? ==> s.e == fs.br[i][dir.value].ents[name])
            && (s.Is? ==> (s.opq <==> fs.wh[i] && s.e.SubDir? && s.e.ino in fs.br[i] && fs.br[i][s.e.ino].opq))
  {
  }

  /** The directory seen in branch k is marked and the search takes notice. */
  predicate MarkHeeded(fs: Fs, st: Stack, name: string, inode: Option<bool>, k: nat)
    requires k < |st| == |fs.br| == |fs.wh|
  {
    (inode.None? || inode.value) && See(fs, k, st[k], name).Is? && See(fs, k, st[k], name).opq
  }

  /** A search of branches start to btail meets a whiteout in branch k. */
  predicate Hidden(fs: Fs, st: Stack, name: string, start: nat, btail: int, inode: Option<bool>, k: nat)
    requires |st| == |fs.br| == |fs.wh|
  {
    && start <= k <= btail && k < |st| && See(fs, k, st[k], name) == White
    && Passable(fs, st, name, start, inode == Some(true), k)
  }

  /** Where dbwh ends up: at the whiteout the search met, or where it was if it met none. */
  ghost predicate WhIs(fs: Fs, st: Stack, name: string, start: nat, btail: int, inode: Option<bool>, w0: int, w: int)
    requires |st| == |fs.br| == |fs.wh|
  {
    || (w == w0 && forall k: nat :: !Hidden(fs, st, name, start, btail, inode, k))
    || (0 <= w && Hidden(fs, st, name, start, btail, inode, w))
  }

  ghost predicate Opaque(fs: Fs, st: Stack, name: string, start: nat, btail: int, inode: Option<bool>, k: nat)
    requires |st| == |fs.br| == |fs.wh|
  {
    k < |st| && Search(fs, st, name, start, btail, inode)[k].Some? && MarkHeeded(fs, st, name, inode, k)
  }

  /** Where dbdiropq ends up: at the last marked directory found, or where it was if there is none. */
  ghost predicate OpqIs(fs: Fs, st: Stack, name: string, start: nat, btail: int, inode: Option<bool>, q0: int, q: int)
    requires |st| == |fs.br| == |fs.wh|
  {
    || (q == q0 && forall k: nat :: !Opaque(fs, st, name, start, btail, inode, k))
    || (0 <= q && Opaque(fs, st, name, start, btail, inode, q)
        && forall k: nat :: q < k ==> !Opaque(fs, st, name, start, btail, inode, k))
  }

  /** The search is not over before branch i. */
  ghost predicate Running(s: seq<Sight>, start: nat, i: nat) {
    forall k: nat :: start <= k < i && k < |s| ==> PhaseAt(s, k) != Done
  }

  /** The indices when the branches up to i have been searched. */
  ghost predicate WhNoted(fs: Fs, st: Stack, name: string, start: nat, i: nat, w0: int, w: int)
    requires |st| == |fs.br| == |fs.wh|
  {
    || (w == w0 && forall k :: start <= k < i && k < |st| ==> See(fs, k, st[k], name) != White)
    || (start <= w < i && w < |st| && See(fs, w, st[w], name) == White
        && forall k :: start <= k < w ==> See(fs, k, st[k], name) != White)
  }

  ghost predicate OpqNoted(fs: Fs, st: Stack, name: string, start: nat, btail: int, i: nat, inode: Option<bool>,
                           q0: int, q: int)
    requires |st| == |fs.br| == |fs.wh|
  {
    || (q == q0 && forall k: nat :: start <= k < i ==> !Opaque(fs, st, name, start, btail, inode, k))
    || (start <= q < i && Opaque(fs, st, name, start, btail, inode, q)
        && forall k: nat :: q < k < i ==> !Opaque(fs, st, name, start, btail, inode, k))
  }

  lemma NotedFirst(fs: Fs, st: Stack, name: string, start: nat, btail: int, inode: Option<bool>, w: int, q: int)
    requires |st| == |fs.br| == |fs.wh|
    ensures WhNoted(fs, st, name, start, start, w, w) && OpqNoted(fs, st, name, start, btail, start, inode, q, q)
  {
  }

  lemma NotedNext(fs: Fs, st: Stack, name: string, start: nat, btail: int, i: nat, inode: Option<bool>,
                  w0: int, w: int, w2: int, q0: int, q: int, q2: int)
    requires |st| == |fs.br| == |fs.wh| && start <= i < |st| && w0 < 0 && w < 0
    requires WhNoted(fs, st, name, start, i, w0, w) && OpqNoted(fs, st, name, start, btail, i, inode, q0, q)
    requires w2 == if See(fs, i, st[i], name) == White then i else w
    requires q2 == if Search(fs, st, name, start, btail, inode)[i].Some? && MarkHeeded(fs, st, name, inode, i) then i
                   else q
    ensures WhNoted(fs, st, name, start, i + 1, w0, w2) && OpqNoted(fs, st, name, start, btail, i + 1, inode, q0, q2)
  {
  }

  lemma NotedEnd(fs: Fs, st: Stack, name: string, start: nat, btail: int, i: nat, inode: Option<bool>, stop: bool,
                 w0: int, w: int, q0: int, q: int)
    requires |st| == |fs.br| == |fs.wh| && start <= i && -1 <= btail < |st| && w0 < 0
    requires i <= btail + 1 || i == start
    requires WhNoted(fs, st, name, start, i, w0, w) && OpqNoted(fs, st, name, start, btail, i, inode, q0, q)
    requires var s := Met(fs, st, name, start, btail, inode == Some(true));
             && Running(s, start, i)
             && (if stop then i <= |s| && PhaseAt(s, i) == Done else btail < i)
    ensures WhIs(fs, st, name, start, btail, inode, w0, w) && OpqIs(fs, st, name, start, btail, inode, q0, q)
  {
    var s := Met(fs, st, name, start, btail, inode == Some(true));
    forall k: nat | start <= k <= btail
      ensures PhaseAt(s, k) != Done <==> Passable(fs, st, name, start, inode == Some(true), k)
      ensures k < i <==> PhaseAt(s, k) != Done
    {
      PhaseIff(s, k);
      MetReaches(fs, st, name, start, btail, inode == Some(true), k);
      if k >= i { DoneStays(s, i, k); }
    }
    forall k: nat | k < |st| && !(start <= k < i) ensures !Opaque(fs, st, name, start, btail, inode, k) {
      SearchIff(fs, st, name, start, btail, inode, k);
    }
    if w < 0 {
      forall k: nat ensures !Hidden(fs, st, name, start, btail, inode, k) {
        if start <= k <= btail { assert k < i <==> PhaseAt(s, k) != Done; }
      }
    } else {
      assert PhaseAt(s, w) != Done;
    }
  }

  /** The number of branches a search finds something in. */
  lemma {:induction false} PositivesCount(f: seq<Option<Entry>>)
    ensures Positives(f) == |set j | 0 <= j < |f| && f[j].Some?|
  {
    if f != [] {
      var n := |f| - 1;
      PositivesCount(f[..n]);
      var a, b := set j | 0 <= j < n && f[..n][j].Some?, set j | 0 <= j < |f| && f[j].Some?;
      assert b == if f[n].Some? then a + {n} else a;
    }
  }

  /** Only where entries and whiteouts are seen matters to whether and where a search first finds something. */
  lemma SameShape(s: seq<Sight>, z: seq<Sight>)
    requires |s| == |z|
    requires forall i :: 0 <= i < |s| ==> (s[i].Nothing? <==> z[i].Nothing?) && (s[i].Is? <==> z[i].Is?)
    requires forall i :: 0 <= i < |s| && s[i].Is? ==> s[i].e == z[i].e
    ensures var f, g := Merge(s, Looking), Merge(z, Looking);
            && (AnyFound(f) <==> AnyFound(g))
            && forall t :: 0 <= t < |s| && (forall j :: 0 <= j < t ==> g[j].None?) && g[t].Some? ==>
                 f[t] == g[t] && forall j :: 0 <= j < t ==> f[j].None?
  {
    hide Merge, PhaseAt;
    var f, g := Merge(s, Looking), Merge(z, Looking);
    if i :| 0 <= i < |s| && s[i] != Nothing {
      var t := FirstOf(s, i);
      FirstSightSeq(s, t);
      FirstSightSeq(z, t);
      hide Outcome;
      SameFirst(f, g, t, s[t], z[t]);
    } else {
      NoneLater(s, 0);
      NoneLater(z, 0);
    }
  }

  lemma SameFirst(f: seq<Option<Entry>>, g: seq<Option<Entry>>, t: nat, a: Sight, b: Sight)
    requires t < |f| == |g| && Outcome(f, t, a) && Outcome(g, t, b)
    requires a != Nothing && b != Nothing && (a.Is? <==> b.Is?) && (a.Is? ==> a.e == b.e)
    ensures AnyFound(f) <==> AnyFound(g)
    ensures forall u :: 0 <= u < |f| && (forall j :: 0 <= j < u ==> g[j].None?) && g[u].Some? ==>
              f[u] == g[u] && forall j :: 0 <= j < u ==> f[j].None?
  {
    if f[t].Some? {
      forall u | 0 <= u < |f| && (forall j :: 0 <= j < u ==> g[j].None?) && g[u].Some? ensures u == t {
        if u > t { assert false; }
      }
    }
  }

  lemma {:induction false} FirstOf(s: seq<Sight>, i: nat) returns (t: nat)
    requires i < |s| && s[i] != Nothing
    ensures t <= i && s[t] != Nothing && forall j :: 0 <= j < t ==> s[j] == Nothing
  {
    t := i;
    if j: nat :| j < i && s[j] != Nothing { t := FirstOf(s, j); }
  }

  /** The whiteout's entry in branch i is a directory. */
  predicate StrangeWh(fs: Fs, st: Stack, name: string, i: nat) {
    && i < |st| == |fs.br| == |fs.wh| && st[i].Some? && st[i].value in fs.br[i]
    && Wh(name) in fs.br[i][st[i].value].ents && fs.br[i][st[i].value].ents[Wh(name)].SubDir?
  }

  /** Branch i, which has the parent, fails or has a directory for a whiteout it honours. */
  ghost predicate Fails(fs: Fs, st: Stack, name: string, bad: set<nat>, i: nat) {
    InBranch(fs, st, i) && (i in bad || (fs.wh[i] && StrangeWh(fs, st, name, i)))
  }

  /** A branch fails that the search gets to. */
  ghost predicate Trouble(fs: Fs, st: Stack, name: string, start: nat, btail: int, inode: Option<bool>, bad: set<nat>)
    requires |st| == |fs.br| == |fs.wh|
  {
    exists i: nat :: start <= i <= btail && i < |st| && Fails(fs, st, name, bad, i)
                     && PhaseAt(Met(fs, st, name, start, btail, inode == Some(true)), i) != Done
  }

  /** The first branch looked at, if there is any, has both the name and its whiteout. */
  ghost predicate NothingHeld(fs: Fs, st: Stack, name: string, start: nat, btail: int) {
    forall i: nat :: FirstLooked(fs, st, start, btail, i) ==> IllFormed(fs, st, name, i)
  }

  ghost predicate FirstLooked(fs: Fs, st: Stack, start: nat, btail: int, i: nat) {
    start <= i <= btail && InBranch(fs, st, i) && forall j: nat :: start <= j < i ==> !InBranch(fs, st, j)
  }

  /** Branch i has both the name and, where it is honoured, its whiteout. */
  predicate IllFormed(fs: Fs, st: Stack, name: string, i: nat) {
    && i < |st| == |fs.br| == |fs.wh| && st[i].Some? && st[i].value in fs.br[i] && fs.wh[i]
    && Wh(name) in fs.br[i][st[i].value].ents && name in fs.br[i][st[i].value].ents
  }

  /** What one round makes of a sight, the name being a directory already when npositive > 0. */
  ghost predicate RoundDone(l: Low, s: Sight, npositive: nat, n: nat, stop: bool) {
    var ph := if npositive > 0 then Merging else Looking;
    && Holds(l, Take(s, ph)) && n == npositive + (if Take(s, ph).Some? then 1 else 0)
    && After(s, ph) == if stop then Done else if n > 0 then Merging else Looking
  }
}
