/** Removing a name that is not a directory (i_op_del.c, with au_wh_create and au_wh_unlink_dentry of whout.c). */
module Unlink {

  import opened Errno
  import opened Names
  import opened UnionFs
  import opened Lookup
  import opened LowerFs

  /** The parent is st, all its directories exist, and none lies below btail. */
  ghost predicate Parent(fs: Fs, st: Stack, btail: int) {
    && |st| == |fs.br| == |fs.wh| && -1 <= btail < |st|
    && (forall i :: 0 <= i < |st| && st[i].Some? ==> st[i].value in fs.br[i])
    && (forall i :: btail < i < |st| ==> st[i].None?)
  }

  /** The name is a file, found in branch b first. */
  ghost predicate FileAt(fs: Fs, st: Stack, name: string, b: nat) {
    && |st| == |fs.br| == |fs.wh| && b < |st| && TopSight(fs, st, b, name)
    && See(fs, b, st[b], name).Is? && See(fs, b, st[b], name).e.File?
  }

  function DirOf(st: Stack, k: nat): nat
    requires k < |st| && st[k].Some?
  {
    st[k].value
  }

  /** The name taken out of the directory of branch b. */
  function Without(fs: Fs, st: Stack, b: nat, name: string): Fs
    requires b < |st| && st[b].Some? && HasDir(fs, b, DirOf(st, b))
  {
    DelEnt(fs, b, DirOf(st, b), name)
  }

  /** A branch below b would show the name if b did not hold it. */
  ghost predicate Exposed(fs: Fs, st: Stack, name: string, b: nat)
    requires b < |st| == |fs.br| == |fs.wh| && st[b].Some? && HasDir(fs, b, DirOf(st, b))
  {
    AnyFound(Found(Without(fs, st, b, name), st, name))
  }

  /** What au_wr_dir_need_wh counts below b is positive exactly if the name would be exposed. */
  lemma CountedIffExposed(fs: Fs, st: Stack, name: string, b: nat, btail: int)
    requires Parent(fs, st, btail) && FileAt(fs, st, name, b)
    ensures Positives(Search(fs, st, name, b + 1, btail, Some(false))) > 0 <==> Exposed(fs, st, name, b)
  {
    var gs := Without(fs, st, b, name);
    var s, z := Met(fs, st, name, b + 1, btail, false), Sights(gs, st, name);
    forall i | 0 <= i < |st|
      ensures (s[i].Nothing? <==> z[i].Nothing?) && (s[i].Is? <==> z[i].Is?) && (s[i].Is? ==> s[i].e == z[i].e)
    {
      if i == b {
        assert z[i] == Nothing;
      } else {
        assert gs.br[i] == fs.br[i];
      }
    }
    SameShape(s, z);
    PositivesAny(Merge(s, Looking));
    assert Search(fs, st, name, b + 1, btail, Some(false)) == Merge(s, Looking);
  }

  /** The whiteout of the name put into the directory of branch k, unless it is there. */
  function Whited(fs: Fs, st: Stack, k: nat, name: string): Fs
    requires k < |st| && st[k].Some? && HasDir(fs, k, DirOf(st, k))
  {
    if Wh(name) in Ents(fs, k, DirOf(st, k)) then fs else SetEnt(fs, k, DirOf(st, k), Wh(name), File(0))
  }

  /** The branches after a removal that worked on branch k, the name being in branch b. */
  function Removed(fs: Fs, st: Stack, name: string, b: nat, k: nat, need: bool): Fs
    requires b < |st| && st[b].Some? && HasDir(fs, b, DirOf(st, b))
    requires k < |st| && st[k].Some? && HasDir(fs, k, DirOf(st, k))
  {
    var gs := if need then Whited(fs, st, k, name) else fs;
    if k == b then Without(gs, st, b, name) else gs
  }

  /** What a directory of branch i holds under a key. */
  function At(fs: Fs, i: nat, d: nat, key: string): Option<Entry> {
    if i < |fs.br| && d in fs.br[i] && key in fs.br[i][d].ents then Some(fs.br[i][d].ents[key]) else None
  }

  /**
   The branches after a removal, key by key: on the file's own branch the file is gone, the whiteout is there if
   it was or one was needed, and nothing else has changed, in this directory, this branch or any other.
   */
  ghost predicate TakenOut(fs: Fs, gs: Fs, st: Stack, name: string, b: nat, k: nat, need: bool)
    requires k < |st| && st[k].Some?
  {
    && |gs.br| == |fs.br| && gs.wh == fs.wh
    && (k == b ==> At(gs, k, st[k].value, name) == None)
    && (k != b ==> At(gs, k, st[k].value, name) == At(fs, k, st[k].value, name))
    && (At(gs, k, st[k].value, Wh(name)).Some? <==> need || At(fs, k, st[k].value, Wh(name)).Some?)
    && (forall i: nat, d: nat, key :: !(i == k && d == st[k].value && key in {name, Wh(name)}) ==>
          At(gs, i, d, key) == At(fs, i, d, key))
    && (forall i, d :: 0 <= i < |fs.br| ==> (d in gs.br[i] <==> d in fs.br[i]))
    && (forall i, d :: 0 <= i < |fs.br| && d in fs.br[i] ==>
          gs.br[i][d].attr == fs.br[i][d].attr && gs.br[i][d].opq == fs.br[i][d].opq)
  }

  lemma RemovedTakesOut(fs: Fs, st: Stack, name: string, b: nat, k: nat, need: bool)
    requires |st| == |fs.br| == |fs.wh| && b < |st| && st[b].Some? && HasDir(fs, b, DirOf(st, b))
    requires k < |st| && st[k].Some? && HasDir(fs, k, DirOf(st, k))
    ensures TakenOut(fs, Removed(fs, st, name, b, k, need), st, name, b, k, need)
  {
    assert |Wh(name)| == |name| + 4;
  }

  /** No branch's directory holds both a user's name and its whiteout. */
  ghost predicate WellFormed(fs: Fs) {
    forall i: nat, d: nat, n: string :: UserName(n) && At(fs, i, d, n).Some? ==> At(fs, i, d, Wh(n)).None?
  }

  /** Well-formed branches stay so: the whiteout comes where the name is not, or goes from. */
  lemma StaysWellFormed(fs: Fs, gs: Fs, st: Stack, name: string, b: nat, k: nat, need: bool)
    requires FileAt(fs, st, name, b) && k <= b && st[k].Some? && HasDir(fs, k, DirOf(st, k)) && UserName(name)
    requires TakenOut(fs, gs, st, name, b, k, need) && WellFormed(fs)
    ensures WellFormed(gs)
  {
    WhNotUser(name);
    if k < b { assert See(fs, k, st[k], name) == Nothing; }
    forall i: nat, d: nat, n: string | UserName(n) && At(gs, i, d, n).Some? ensures At(gs, i, d, Wh(n)).None? {
      assert n != Wh(name) && (Wh(n) == Wh(name) ==> Wh(n)[4..] == Wh(name)[4..]);
    }
  }

  /** When a whiteout has to be made for a removal on branch k. */
  ghost predicate Needed(fs: Fs, st: Stack, name: string, b: nat, k: nat)
    requires b < |st| == |fs.br| == |fs.wh| && st[b].Some? && HasDir(fs, b, DirOf(st, b))
  {
    k != b || Exposed(fs, st, name, b)
  }

  /**
   After a successful removal the name is gone exactly if no whiteout was needed or the branch it went to
   has its whiteouts honoured.
   */
  lemma RemovedIsGone(fs: Fs, st: Stack, name: string, b: nat, k: nat, btail: int)
    requires Parent(fs, st, btail) && FileAt(fs, st, name, b) && k <= b && st[k].Some?
    ensures var need := Needed(fs, st, name, b, k);
            AnyFound(Found(Removed(fs, st, name, b, k, need), st, name)) <==> need && !fs.wh[k]
  {
    var need := Needed(fs, st, name, b, k);
    var gs := Removed(fs, st, name, b, k, need);
    forall i | 0 <= i < |st| && i != k ensures gs.br[i] == fs.br[i] {}
    if need && fs.wh[k] {
      assert See(gs, k, st[k], name) == White;
      FirstSight(gs, st, k, name);
    } else if k < b {
      assert See(gs, k, st[k], name) == Nothing;
      FirstSight(gs, st, b, name);
      assert Found(gs, st, name)[b].Some?;
    } else {
      var hs := Without(fs, st, b, name);
      var s, z := Sights(gs, st, name), Sights(hs, st, name);
      forall i | 0 <= i < |st|
        ensures (s[i].Nothing? <==> z[i].Nothing?) && (s[i].Is? <==> z[i].Is?) && (s[i].Is? ==> s[i].e == z[i].e)
      {
        if i == b { assert s[i] == Nothing == z[i]; }
      }
      SameShape(s, z);
    }
  }

  /** Then no path through the name shows anything. */
  lemma RemovedAbsent(fs: Fs, st: Stack, name: string, b: nat, k: nat, btail: int, q: seq<string>)
    requires Parent(fs, st, btail) && FileAt(fs, st, name, b) && k <= b && st[k].Some?
    requires Needed(fs, st, name, b, k) ==> fs.wh[k]
    ensures View(Removed(fs, st, name, b, k, Needed(fs, st, name, b, k)), st, [name] + q) == Absent
  {
    RemovedIsGone(fs, st, name, b, k, btail);
    NotFoundAbsent(Removed(fs, st, name, b, k, Needed(fs, st, name, b, k)), st, [name] + q);
  }

  /** No other path changes: those that do not take the name from this directory. */
  lemma RemovedKeepsOthers(fs: Fs, st: Stack, name: string, b: nat, k: nat, need: bool, root: Stack, path: seq<string>)
    requires |st| == |fs.br| == |fs.wh| == |root| && UserName(name) && UserPath(path)
    requires b < |st| && st[b].Some? && HasDir(fs, b, DirOf(st, b))
    requires k < |st| && st[k].Some? && HasDir(fs, k, DirOf(st, k))
    requires Avoids(fs, root, path, k, {(DirOf(st, k), name)}, {})
    ensures View(Removed(fs, st, name, b, k, need), root, path) == View(fs, root, path)
  {
    var d := DirOf(st, k);
    var E := {(d, name)};
    var gs := Removed(fs, st, name, b, k, need);
    assert EdgesOk(E) by {
      forall x: nat, n: string | UserName(n) ensures (x, Wh(n)) !in E { WhNotUser(n); }
    }
    assert Wh(name)[..4] == WH_PFX;
    assert Touched(E, d, name) && Touched(E, d, Wh(name));
    WithEntsDiffers(fs, k, d, Ents(gs, k, d), E);
    SameFs(WithEnts(fs, k, d, Ents(gs, k, d)), gs);
    Frame(fs, gs, root, path, k, E, {});
  }

  lemma SameFs(a: Fs, b: Fs)
    requires a.wh == b.wh && |a.br| == |b.br| && forall i :: 0 <= i < |a.br| ==> a.br[i] == b.br[i]
    ensures a == b
  {
    assert a.br == b.br;
  }

  /**
   au_wr_dir_need_wh: which branch a removal works on, and whether it takes a whiteout.  ro says that the
   name's branch cannot be written; target is then the branch the copy-up policy picks, an error if
   negative, where the parent has been made already.
   */
  method NeedWh(low: Lower, d: Dentry, st: Stack, name: string, btail: int, ro: bool, target: int, udba: bool,
                bad: set<nat>)
    returns (need: int, bcpup: int)
    requires Parent(low.fs, st, btail) && 0 <= d.bstart && FileAt(low.fs, st, name, d.bstart)
    requires |d.h| == |st| && Ranged(d.h, d.bstart, d.bend) && d.bwh < 0 && d.h[d.bstart].Pos?
    requires forall j :: d.bstart < j < |d.h| ==> d.h[j].Gone?
    requires ro ==> target < d.bstart && (target >= 0 ==> st[target].Some?)
    modifies d
    ensures need < 0 <==>
              if ro then target < 0
              else WhNamed(name) || Trouble(low.fs, st, name, old(d.bstart) + 1, btail, Some(false), bad)
    ensures need >= 0 ==> bcpup == if ro then target else old(d.bstart)
    ensures need >= 0 ==> 0 <= bcpup <= old(d.bstart) && st[bcpup].Some?
    ensures need >= 0 ==> (need > 0 <==> Needed(low.fs, st, name, old(d.bstart), bcpup))
    ensures (ro ==> d.bwh == old(d.bwh)) && (need == 0 ==> d.bend == old(d.bend))
  {
    var bstart := d.bstart;
    bcpup := bstart;
    if ro { bcpup := target; }
    if bcpup < 0 { return bcpup, bcpup; }
    if bcpup != bstart { return 1, bcpup; }
    ghost var b: nat := bstart;
    var oldBend := d.bend;
    CountedIffExposed(low.fs, st, name, b, btail);
    hide Search, Positives, Exposed;
    need := d.Lkup(low.fs, st, name, bstart + 1, btail, Some(false), udba, bad);
    if need == 0 && d.bend >= 0 && oldBend != d.bend {
      d.h := d.h[d.bend := Gone];
      d.bend := oldBend;
    }
  }

  /** The name is a directory, found in branch b first. */
  ghost predicate DirAt(fs: Fs, st: Stack, name: string, b: nat) {
    && |st| == |fs.br| == |fs.wh| && b < |st| && TopSight(fs, st, b, name)
    && See(fs, b, st[b], name).Is? && See(fs, b, st[b], name).e.SubDir?
  }

  /** Branch j has a directory of the name and no whiteout lies between b and it. */
  ghost predicate Merged(fs: Fs, st: Stack, name: string, b: nat, btail: int, j: nat)
    requires |st| == |fs.br| == |fs.wh| && j < |st|
  {
    && b <= j <= btail && See(fs, j, st[j], name).Is? && See(fs, j, st[j], name).e.SubDir?
    && forall i :: b <= i < j ==> See(fs, i, st[i], name) != White
  }

  /** Those are the branches a fresh lookup of the directory finds. */
  lemma MergedIsFound(fs: Fs, st: Stack, name: string, b: nat, btail: int, j: nat)
    requires Parent(fs, st, btail) && DirAt(fs, st, name, b) && j < |st|
    ensures Merged(fs, st, name, b, btail, j) <==> Search(fs, st, name, 0, btail, None)[j].Some?
  {
    SearchIff(fs, st, name, 0, btail, None, j);
    hide Search;
    assert FirstFrom(fs, st, name, 0, b);
    forall i: nat | b < i < |st| ensures !FirstFrom(fs, st, name, 0, i) { assert See(fs, b, st[b], name) != Nothing; }
  }

  /**
   What the lookup of a directory leaves in its dentry: the directories it is merged from and the whiteout
   below them.
   */
  ghost predicate Cached(fs: Fs, st: Stack, name: string, btail: int, h: seq<Low>, b: nat, bwh: int)
    requires |st| == |fs.br| == |fs.wh| && |h| == |st|
  {
    && (forall j :: 0 <= j < |h| ==>
      h[j] ==
      if Merged(fs, st, name, b, btail, j) then Pos(See(fs, j, st[j], name).e) else Gone)
    && (if bwh < 0 then forall i :: b < i <= btail && i < |st| ==> See(fs, i, st[i], name) != White
        else b < bwh <= btail && bwh < |st| && See(fs, bwh, st[bwh], name) == White
             && forall i :: b < i < bwh ==> See(fs, i, st[i], name) != White)
  }

  /** The first branch below b to have the parent has a directory of the name. */
  ghost predicate DirNext(fs: Fs, st: Stack, name: string, b: nat, btail: int)
    requires |st| == |fs.br| == |fs.wh|
  {
    exists f: nat :: f < |st| && FirstLooked(fs, st, b + 1, btail, f)
                     && See(fs, f, st[f], name).Is? && See(fs, f, st[f], name).e.SubDir?
  }

  /**
   au_wr_dir_need_wh for a directory on its own branch.  The lookup is asked for no type, so it ends at the first
   lower dentry that is held; and it ends without a count at the first one that is not held if the dentry
   knows of a whiteout further down, even though a directory in between would show.
   */
  method NeedWhDir(fs: Fs, d: Dentry, st: Stack, name: string, btail: int, bad: set<nat>) returns (need: int)
    requires Parent(fs, st, btail) && 0 <= d.bstart && DirAt(fs, st, name, d.bstart) && !WhNamed(name)
    requires |d.h| == |st| && Ranged(d.h, d.bstart, d.bend) && Cached(fs, st, name, btail, d.h, d.bstart, d.bwh)
    modifies d
    ensures need < 0 ==> need == -EIO && exists j: nat :: Fails(fs, st, name, bad, j)
    ensures need >= 0 ==> (need > 0 <==> Exposed(fs, st, name, old(d.bstart))
                                         && (old(d.bwh) < 0 || DirNext(fs, st, name, old(d.bstart), btail)))
  {
    ghost var b: nat, h, w := d.bstart, d.h, d.bwh;
    ExposedIff(fs, st, name, b, btail);
    hide Exposed, Cached, DirNext, ShownBelow, NoneYet, See;
    var i, allowNeg, opq := d.bstart + 1, true, d.bdiropq;
    d.bdiropq := -1;
    need := 0;
    NoneAtFirst(fs, st, name, b, w);
    while i <= btail
      invariant b < i && (i <= btail + 1 || i == b + 1) && |d.h| == |st| && Ranged(d.h, d.bstart, d.bend) && need == 0
      invariant d.bwh == w && (forall j :: i <= j < |st| ==> d.h[j] == h[j]) && NoneYet(fs, st, name, b, w, i)
    {
      if !d.h[i].Gone? {
        HeldCounts(fs, st, name, btail, h, b, w, i);
        need := 1;
        break;
      }
      if st[i].Some? && st[i].value in fs.br[i] {
        LookedAt(fs, st, name, btail, h, b, w, i);
        var got := d.DoLookup(fs, st, i, name, allowNeg, false, Some(true), i in bad);
        if got == GotErr {
          assert Fails(fs, st, name, bad, i);
          return -EIO;
        }
        allowNeg := false;
        if d.bwh >= 0 { break; }
        if got.GotPos? {
          need := 1;
          break;
        }
      }
      NoneNext(fs, st, name, b, w, i);
      i := i + 1;
    }
    if i > btail { NoneAtAll(fs, st, name, btail, b, w, i); }
    d.bdiropq := opq;
  }

  /** The branches below b up to i show nothing; where a whiteout is known of further down they lack the parent. */
  ghost predicate NoneYet(fs: Fs, st: Stack, name: string, b: nat, w: int, i: nat)
    requires |st| == |fs.br| == |fs.wh|
  {
    b < i && forall j: nat :: b < j < i && j < |st| ==>
      See(fs, j, st[j], name) == Nothing
      && (w >= 0 ==> !InBranch(fs, st, j))
  }

  lemma NoneAtFirst(fs: Fs, st: Stack, name: string, b: nat, w: int)
    requires |st| == |fs.br| == |fs.wh|
    ensures NoneYet(fs, st, name, b, w, b + 1)
  {
  }

  lemma NoneNext(fs: Fs, st: Stack, name: string, b: nat, w: int, i: nat)
    requires |st| == |fs.br| == |fs.wh| && i < |st| && NoneYet(fs, st, name, b, w, i)
    ensures See(fs, i, st[i], name) == Nothing && (w >= 0 ==> !InBranch(fs, st, i)) ==>
            NoneYet(fs, st, name, b, w, i + 1)
    ensures !InBranch(fs, st, i) ==> NoneYet(fs, st, name, b, w, i + 1)
  {
  }

  lemma NoneAtAll(fs: Fs, st: Stack, name: string, btail: int, b: nat, w: int, i: nat)
    requires Parent(fs, st, btail) && btail < i && NoneYet(fs, st, name, b, w, i)
    ensures !ShownBelow(fs, st, name, b)
  {
  }

  /** A lower dentry that is held is a directory that shows. */
  lemma HeldCounts(fs: Fs, st: Stack, name: string, btail: int, h: seq<Low>, b: nat, w: int, i: nat)
    requires Parent(fs, st, btail) && |h| == |st| && Cached(fs, st, name, btail, h, b, w)
             && NoneYet(fs, st, name, b, w, i)
    requires i <= btail && !h[i].Gone?
    ensures ShownBelow(fs, st, name, b) && (w < 0 || DirNext(fs, st, name, b, btail))
  {
    if w >= 0 { assert FirstLooked(fs, st, b + 1, btail, i); }
  }

  /** A branch whose lower dentry is not held: what its lookup finds counts, if no whiteout is known of. */
  lemma LookedAt(fs: Fs, st: Stack, name: string, btail: int, h: seq<Low>, b: nat, w: int, i: nat)
    requires Parent(fs, st, btail) && |h| == |st| && Cached(fs, st, name, btail, h, b, w)
             && NoneYet(fs, st, name, b, w, i)
    requires DirAt(fs, st, name, b) && i <= btail && h[i].Gone? && InBranch(fs, st, i)
    ensures w < 0 ==> See(fs, i, st[i], name) != White && (See(fs, i, st[i], name).Is? ==> ShownBelow(fs, st, name, b))
    ensures w >= 0 ==> !DirNext(fs, st, name, b, btail)
  {
    if w >= 0 {
      assert FirstLooked(fs, st, b + 1, btail, i);
      var next: nat := b + 1;
      assert forall f: nat :: FirstLooked(fs, st, next, btail, f) ==> f == i;
    }
  }

  /**
   Directories of the name in branches 0 and 2, none in branch 1, a whiteout in branch 3: taking the first one
   away would show the second, and no whiteout is asked for.
   */
  method NeededButNotAsked() returns (need: int, ghost fs: Fs)
    ensures need == 0 && fs == FourBranches() && Exposed(fs, RootDirs(4), "d", 0)
  {
    fs := FourBranches();
    var d := new Dentry(4);
    d.h := [Pos(SubDir(5)), Gone, Pos(SubDir(6)), Gone];
    d.bstart, d.bend, d.bwh := 0, 2, 3;
    FourSights();
    FourExposed();
    FourCached(d.h);
    assert !WhNamed("d") && Ranged(d.h, 0, 2);
    hide *;
    need := NeedWhDir(FourBranches(), d, RootDirs(4), "d", 3, {});
  }

  function RootDirs(n: nat): Stack {
    seq(n, _ => Some(0))
  }

  function FourBranches(): Fs {
    Fs([map[0 := Node(0, false, map["d" := SubDir(5)]), 5 := Node(0, false, map[])], map[0 := Node(0, false, map[])],
        map[0 := Node(0, false, map["d" := SubDir(6)]), 6 := Node(0, false, map[])],
            map[0 := Node(0, false, map[".wh.d" := File(0)])]],
       [true, true, true, true])
  }

  lemma FourCached(h: seq<Low>)
    requires h == [Pos(SubDir(5)), Gone, Pos(SubDir(6)), Gone]
    ensures Cached(FourBranches(), RootDirs(4), "d", 3, h, 0, 3) && DirAt(FourBranches(), RootDirs(4), "d", 0)
    ensures Parent(FourBranches(), RootDirs(4), 3)
  {
    FourSights();
    hide See;
    var fs, st := FourBranches(), RootDirs(4);
    forall j | 0 <= j < 4 ensures h[j] ==
        if Merged(fs, st, "d", 0, 3, j) then Pos(See(fs, j, st[j], "d").e) else Gone {}
  }

  lemma FourSights()
    ensures var fs, st := FourBranches(), RootDirs(4);
            && See(fs, 0, st[0], "d") == Is(SubDir(5), false) && See(fs, 1, st[1], "d") == Nothing
            && See(fs, 2, st[2], "d") == Is(SubDir(6), false) && See(fs, 3, st[3], "d") == White
            && InBranch(fs, st, 1) && forall j: nat :: !Fails(fs, st, "d", {}, j)
  {
    assert Wh("d") == ".wh.d" && |Wh("d")| == 5 && |"d"| == 1;
  }

  lemma FourExposed()
    ensures Exposed(FourBranches(), RootDirs(4), "d", 0) && !DirNext(FourBranches(), RootDirs(4), "d", 0, 3)
  {
    FourSights();
    hide See;
    var fs, st := FourBranches(), RootDirs(4);
    ExposedIff(fs, st, "d", 0, 3);
    assert See(fs, 2, st[2], "d").Is?;
  }

  /** Below b the first branch that has the name or its whiteout has the name. */
  ghost predicate ShownBelow(fs: Fs, st: Stack, name: string, b: nat)
    requires |st| == |fs.br| == |fs.wh|
  {
    exists j: nat :: b < j < |st| && See(fs, j, st[j], name).Is? && forall i :: b < i < j ==>
        See(fs, i, st[i], name) == Nothing
  }

  lemma ExposedIff(fs: Fs, st: Stack, name: string, b: nat, btail: int)
    requires Parent(fs, st, btail) && b < |st| && TopSight(fs, st, b, name) && See(fs, b, st[b], name).Is?
    ensures st[b].Some? && HasDir(fs, b, DirOf(st, b)) && (Exposed(fs, st, name, b) <==> ShownBelow(fs, st, name, b))
  {
    var gs := Without(fs, st, b, name);
    forall i | 0 <= i < |st| && i != b ensures See(gs, i, st[i], name) ==
        See(fs, i, st[i], name) { assert gs.br[i] == fs.br[i]; }
    assert See(gs, b, st[b], name) == Nothing;
    var t := FindTop(gs, st, name, |st|);
    if t < |st| {
      FirstSight(gs, st, t, name);
    } else {
      NoSight(gs, st, name);
    }
  }

  /** au_wh_create: the whiteout is looked up and made, one that is there is taken as it is. */
  method WhCreate(low: Lower, d: Dentry, st: Stack, k: nat, name: string) returns (err: int)
    requires k < |st| && st[k].Some? && HasDir(low.fs, k, DirOf(st, k))
    modifies low, d`bwh
    ensures err == 0 ==> low.fs == Whited(old(low.fs), st, k, name)
    ensures err == 0 ==> d.bwh == if Wh(name) in Ents(old(low.fs), k, DirOf(st, k)) then old(d.bwh) else k
    ensures err != 0 ==> err < 0 && low.fs == old(low.fs) && d.bwh == old(d.bwh)
    ensures var n := if Wh(name) in Ents(old(low.fs), k, DirOf(st, k)) then 1 else 2;
            (err == 0 <==> Calm(old(low.faults), n)) && (err == 0 ==> low.faults == Drop(old(low.faults), n))
    ensures low.Used(old(low.faults), err != 0)
  {
    CalmSplit(low.faults, 1, 1);
    var f := low.Fault();
    if f { return -EIO; }
    if Wh(name) in low.fs.br[k][st[k].value].ents { return 0; }
    err := low.Create(k, st[k].value, Wh(name), 0);
    if err == 0 { d.bwh := k; }
  }

  /**
   do_revert, around au_wh_unlink_dentry, for a whiteout that is in branch k.  The one index it is given, bwh, is
   both the branch whose directory the whiteout is unlinked through and the one that is put back.  wild says
   that this is not the whiteout's directory, or none at all; what vfs_unlink makes of it is not modelled.
   */
  method DoRevert(low: Lower, d: Dentry, st: Stack, k: nat, name: string, bwh: int) returns (err: int, wild: bool)
    requires k < |st| && st[k].Some? && HasDir(low.fs, k, DirOf(st, k))
    modifies low, d`bwh
    ensures (wild <==> bwh != k) && err <= 0 && (wild ==> err == -EIO)
    ensures !wild && err == 0 ==> low.fs == DelEnt(old(low.fs), k, DirOf(st, k), Wh(name)) && d.bwh == bwh
    ensures !wild && err != 0 ==> err == -EIO && low.fs == old(low.fs)
    ensures low.Used(old(low.faults), !wild && err != 0 && Wh(name) in Ents(old(low.fs), k, DirOf(st, k))
                                      && Ents(old(low.fs), k, DirOf(st, k))[Wh(name)].File?)
  {
    wild := bwh != k;
    if wild { return -EIO, wild; }
    var rerr := low.Unlink(bwh, st[bwh].value, Wh(name));
    if rerr != 0 { return -EIO, wild; }
    d.bwh := -1;
    d.bwh := bwh;
    err := 0;
  }

  /** The lookup below the file's own branch, for a whiteout, fails. */
  ghost predicate CannotTell(fs: Fs, st: Stack, name: string, b: nat, btail: int, ro: bool, target: int, bad: set<nat>)
    requires |st| == |fs.br| == |fs.wh|
  {
    if ro then target < 0 else WhNamed(name) || Trouble(fs, st, name, b + 1, btail, Some(false), bad)
  }

  /**
   The whiteout is made on the file's own branch and the unlink after it is the first operation to fail: the
   revert is given the index from before, which is no branch.
   */
  ghost predicate Astray(fs: Fs, st: Stack, name: string, b: nat, btail: int, ro: bool, denied: bool, bad: set<nat>,
                         faults: seq<bool>)
    requires b < |st| == |fs.br| == |fs.wh| && st[b].Some? && HasDir(fs, b, DirOf(st, b))
  {
    && !ro && !denied && !CannotTell(fs, st, name, b, btail, ro, b, bad) && Exposed(fs, st, name, b)
    && Calm(faults, 2) && !Calm(faults, 3)
  }

  /**
   aufs_unlink.  It succeeds with the branches as Removed says; or it fails with them as before, as long as no
   whiteout has to be taken back.  The revert is wild whenever it is reached, and then nothing is claimed.
   */
  method AufsUnlink(low: Lower, d: Dentry, st: Stack, name: string, btail: int, ro: bool, target: int,
                    denied: bool, udba: bool, bad: set<nat>)
    returns (err: int, ghost k: int, ghost need: bool, wild: bool)
    requires Parent(low.fs, st, btail) && 0 <= d.bstart && FileAt(low.fs, st, name, d.bstart)
    requires |d.h| == |st| && Ranged(d.h, d.bstart, d.bend) && d.bwh < 0 && d.h[d.bstart].Pos?
    requires forall j :: d.bstart < j < |d.h| ==> d.h[j].Gone?
    requires ro ==> target < d.bstart && (target >= 0 ==> st[target].Some?)
    requires Wh(name) !in Ents(low.fs, d.bstart, DirOf(st, d.bstart))
    modifies low, d
    ensures err <= 0 && (wild ==> err < 0)
    ensures err == 0 ==> k == (if ro then target else old(d.bstart)) && 0 <= k <= old(d.bstart) && st[k].Some?
    ensures err == 0 ==> (need <==> Needed(old(low.fs), st, name, old(d.bstart), k))
    ensures err == 0 ==> low.fs == Removed(old(low.fs), st, name, old(d.bstart), k, need)
    ensures err == 0 ==> TakenOut(old(low.fs), low.fs, st, name, old(d.bstart), k, need)
    ensures wild <==> Astray(old(low.fs), st, name, old(d.bstart), btail, ro, denied, bad, old(low.faults))
    ensures err < 0 && !wild ==> low.fs == old(low.fs) && (ro ==> d.bwh == old(d.bwh))
    ensures err < 0 && !denied && !CannotTell(old(low.fs), st, name, old(d.bstart), btail, ro, target, bad) ==>
              Left(low.faults) < Left(old(low.faults))
  {
    hide TakenOut;
    var bstart, bwh := d.bstart, d.bwh;
    wild, need := false, false;
    var needWh, bcpup := NeedWh(low, d, st, name, btail, ro, target, udba, bad);
    k := bcpup;
    CalmSplit(low.faults, 2, 1);
    if needWh < 0 { return needWh, k, need, wild; }
    RemovedTakesOut(low.fs, st, name, bstart, bcpup, Needed(low.fs, st, name, bstart, bcpup));
    hide Parent, FileAt, Exposed, Trouble;
    if denied { return -EBUSY, k, need, wild; }
    if needWh > 0 {
      err := WhCreate(low, d, st, bcpup, name);
      if err != 0 { return; }
      need := true;
    }
    err := 0;
    if bcpup == bstart { err := low.Unlink(bcpup, st[bcpup].value, name); }
    if err != 0 && needWh > 0 {
      var rerr;
      rerr, wild := DoRevert(low, d, st, bcpup, name, bwh);
      if rerr != 0 { err := rerr; }
    }
  }

  /** A dentry fresh from the lookup of a file knows of no whiteout, so AufsUnlink may be called with it. */
  method LookedUp(fs: Fs, st: Stack, name: string, btail: int, udba: bool) returns (err: int, d: Dentry)
    requires Parent(fs, st, btail) && UserName(name)
    requires !Trouble(fs, st, name, 0, btail, None, {})
    ensures fresh(d) && |d.h| == |st|
    ensures err > 0 ==> 0 <= d.bstart < |d.h| && d.h[d.bstart].Pos? && (d.h[d.bstart].e.File? ==> d.bwh < 0)
  {
    d := new Dentry(|st|);
    hide Trouble;
    err := d.Lkup(fs, st, name, 0, btail, None, udba, {});
  }

  function TwoFiles(): Fs {
    Fs([map[0 := Node(0, false, map["f" := File(1)])], map[0 := Node(0, false, map["f" := File(2)])]], [true, true])
  }

  /**
   The name is a file in both of two branches and the unlink of the first one fails, the whiteout having been
   looked up and made before: the revert is handed the lower directory at index -1.
   */
  method RevertGoesAstray() returns (err: int, wild: bool)
    ensures err < 0 && wild
  {
    var low := new Lower(TwoFiles(), [false, false, true]);
    var d := new Dentry(2);
    TwoExposed();
    hide Astray, FileAt;
    d.h, d.bstart, d.bend := [Pos(File(1)), Gone], 0, 0;
    ghost var k, need;
    err, k, need, wild := AufsUnlink(low, d, RootDirs(2), "f", 1, false, -1, false, false, {});
  }

  lemma TwoExposed()
    ensures var fs, st := TwoFiles(), RootDirs(2);
            && Parent(fs, st, 1) && FileAt(fs, st, "f", 0) && Exposed(fs, st, "f", 0)
            && Astray(fs, st, "f", 0, 1, false, false, {}, [false, false, true]) && Wh("f") !in Ents(fs, 0, 0)
  {
    var fs, st := TwoFiles(), RootDirs(2);
    assert |Wh("f")| == 5 && |"f"| == 1;
    assert See(fs, 1, st[1], "f") == Is(File(2), false) && See(fs, 0, st[0], "f") == Is(File(1), false);
    ExposedIff(fs, st, "f", 0, 1);
    assert forall i: nat :: !Fails(fs, st, "f", {}, i);
    assert [false, false, true][2];
  }
}
