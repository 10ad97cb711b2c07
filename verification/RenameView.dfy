/** What a rename that has run to its end shows in the union (i_op_ren.c). */
module RenameView {

  import opened Names
  import opened UnionFs
  import opened Lookup
  import opened LowerFs
  import opened Rename
  import CopyUp
  import Unlink

  /** The entry under the target's name. */
  function Moved(a: Args): Entry {
    if a.isdir then SubDir(MovedDir(a)) else a.e
  }

  function At(fs: Fs, k: nat, d: nat, key: string): Option<Entry>
    requires HasDir(fs, k, d)
  {
    if key in Ents(fs, k, d) then Some(Ents(fs, k, d)[key]) else None
  }

  ghost predicate Fits(fs: Fs, a: Args) {
    Ready(fs, a) && (a.isdir && a.bsrc != a.k ==> a.ino !in fs.br[a.k])
  }

  lemma AtF3(fs: Fs, a: Args, d: nat, key: string)
    requires Fits(fs, a) && d in {a.sdir, a.ddir} && (d, key) != (a.ddir, Tmp(a)) && (d, key) != (a.sdir, a.src)
    ensures (d, key) != (a.ddir, a.dst) ==>
              At(F3(fs, a), a.k, d, key) == if a.whsrc && d == a.sdir
                  && key == Wh(a.src) then Some(File(0)) else At(fs, a.k, d, key)
  {
    Apart(a);
  }

  lemma AtF4(fs: Fs, a: Args, d: nat, key: string)
    requires Fits(fs, a) && d in {a.sdir, a.ddir}
    ensures At(F4(fs, a), a.k, d, key) ==
            if d == a.ddir && key == a.dst then Some(Moved(a))
            else if d == a.sdir && key == a.src && !ByCpup(fs, a) then None
            else At(F3(fs, a), a.k, d, key)
    ensures a.bsrc != a.k && !Copies(fs, a) ==> At(F3(fs, a), a.k, a.sdir, a.src) == None
  {
    BeforeMove(fs, a);
    SrcAbsent(fs, a);
    hide F3;
  }

  lemma SrcAbsent(fs: Fs, a: Args)
    requires Fits(fs, a)
    ensures a.bsrc != a.k && !Copies(fs, a) ==> At(F3(fs, a), a.k, a.sdir, a.src) == None
    ensures F3(fs, a).br[a.k].Keys == fs.br[a.k].Keys
  {
    Apart(a);
    WhNotUser(a.src);
    BeforeMove(fs, a);
  }

  lemma AtF6(fs: Fs, gs: Fs, a: Args, d: nat, key: string)
    requires Fits(fs, a) && d in {a.sdir, a.ddir} && (d, key) != (a.ddir, Tmp(a)) && Finished(fs, gs, a)
    ensures Sound(gs, a)
    ensures At(gs, a.k, d, key) == if Unwhites(fs, a) && d == a.ddir
            && key == Wh(a.dst) then None else At(F4(fs, a), a.k, d, key)
  {
    hide F4;
  }

  /** What the target branch holds at the end, name by name. */
  lemma AtTheEnd(fs: Fs, gs: Fs, a: Args, d: nat, key: string)
    requires Ready(fs, a) && Finished(fs, gs, a) && d in {a.sdir, a.ddir} && (d, key) != (a.ddir, Tmp(a))
    ensures Sound(gs, a)
    ensures At(gs, a.k, d, key) ==
            if d == a.ddir && key == a.dst then Some(Moved(a))
            else if d == a.sdir && key == a.src then None
            else if a.whsrc && d == a.sdir && key == Wh(a.src) then Some(File(0))
            else if a.whdst && d == a.ddir && key == Wh(a.dst) then None
            else At(fs, a.k, d, key)
  {
    Apart(a);
    AtF6(fs, gs, a, d, key);
    AtF4(fs, a, d, key);
    if (d, key) != (a.sdir, a.src) { AtF3(fs, a, d, key); }
    hide F3, F4;
  }

  /** The directory under the target's name is the source's, or a new one like it, marked where that was needed. */
  lemma DirAtTheEnd(fs: Fs, gs: Fs, a: Args)
    requires Ready(fs, a) && Finished(fs, gs, a) && a.isdir
    ensures |gs.br| == |fs.br| && MovedDir(a) in gs.br[a.k]
    ensures var n := gs.br[a.k][MovedDir(a)];
            && n.attr == a.attr && n.opq == (NeedsOpq(fs, a) || (a.bsrc == a.k && a.srcOpq))
            && n.ents == if a.bsrc == a.k then fs.br[a.k][a.e.ino].ents else map[]
    ensures gs.br[a.k][MovedDir(a)].opq <==>
              (a.bsrc == a.k && a.srcOpq) || (a.whdst && Wh(a.dst) in Ents(fs, a.k, a.ddir))
              || a.dstOpq || a.k < a.dbend || a.always
  {
    DirAtF4(fs, a);
    hide F4;
  }

  lemma DirAtF4(fs: Fs, a: Args)
    requires Fits(fs, a) && a.isdir
    ensures var n := F4(fs, a).br[a.k][MovedDir(a)];
            && n.attr == a.attr && n.opq == (a.bsrc == a.k && a.srcOpq)
            && n.ents == if a.bsrc == a.k then fs.br[a.k][a.e.ino].ents else map[]
  {
    BeforeMove(fs, a);
    if a.bsrc == a.k { DirAtF3(fs, a); }
    hide F3;
  }

  lemma DirAtF3(fs: Fs, a: Args)
    requires Fits(fs, a) && a.isdir && a.bsrc == a.k
    ensures F3(fs, a).br[a.k][a.e.ino] == fs.br[a.k][a.e.ino]
  {
  }

  /** The parents' stacks and the source visible from branch bsrc. */
  ghost predicate SourceAt(fs: Fs, a: Args, stS: Stack) {
    && Ready(fs, a) && |stS| == |fs.br| == |fs.wh| && a.k <= a.bsrc < |stS| && stS[a.k] == Some(a.sdir)
    && TopSight(fs, stS, a.bsrc, a.src)
    && See(fs, a.bsrc, stS[a.bsrc], a.src).Is? && See(fs, a.bsrc, stS[a.bsrc], a.src).e == a.e
    && (a.isdir ==> a.e.ino in fs.br[a.bsrc] && fs.br[a.bsrc][a.e.ino].attr == a.attr)
    && HasDir(fs, a.bsrc, stS[a.bsrc].value)
  }

  /** The source gets a whiteout exactly if it needs one; au_wr_dir_need_wh finds out, unless it misses a directory. */
  ghost predicate SourceSeen(fs: Fs, a: Args, stS: Stack) {
    SourceAt(fs, a, stS) && (a.whsrc <==> Unlink.Needed(fs, stS, a.src, a.bsrc, a.k))
  }

  /** No branch above the target branch has the target or a whiteout of it. */
  ghost predicate TargetOpen(fs: Fs, a: Args, stD: Stack) {
    && Ready(fs, a) && |stD| == |fs.br| == |fs.wh| && a.k < |stD| && stD[a.k] == Some(a.ddir)
    && forall j :: 0 <= j < a.k ==> See(fs, j, stD[j], a.dst) == Nothing
  }

  /** A rename that ran to its end. */
  ghost predicate Ended(fs: Fs, gs: Fs, a: Args) {
    Ready(fs, a) && Finished(fs, gs, a) && Within(fs, gs, a)
  }

  lemma SeeElsewhere(fs: Fs, gs: Fs, a: Args, j: nat, dir: Option<nat>, name: string)
    requires Within(fs, gs, a) && j < |fs.br| && j != a.k
    ensures See(gs, j, dir, name) == See(fs, j, dir, name)
  {
  }

  /** The source name is gone exactly if it needed no whiteout or was given one that is honoured. */
  lemma SourceGone(fs: Fs, gs: Fs, a: Args, stS: Stack)
    requires Ended(fs, gs, a) && SourceAt(fs, a, stS)
    ensures AnyFound(Found(gs, stS, a.src)) <==> Unlink.Needed(fs, stS, a.src, a.bsrc, a.k) && !(a.whsrc && fs.wh[a.k])
  {
    Apart(a);
    AtTheEnd(fs, gs, a, a.sdir, a.src);
    AtTheEnd(fs, gs, a, a.sdir, Wh(a.src));
    forall j | 0 <= j < |stS| && j != a.k ensures See(gs, j, stS[j], a.src) == See(fs, j, stS[j], a.src) {
      SeeElsewhere(fs, gs, a, j, stS[j], a.src);
    }
    assert See(gs, a.k, stS[a.k], a.src) == if a.whsrc && fs.wh[a.k] then White else Nothing;
    hide Finished, Within;
    if a.whsrc && fs.wh[a.k] {
      FirstSight(gs, stS, a.k, a.src);
    } else if a.k < a.bsrc {
      FirstSight(gs, stS, a.bsrc, a.src);
      assert Found(gs, stS, a.src)[a.bsrc].Some?;
    } else {
      SourceUncovered(fs, gs, a, stS);
    }
  }

  lemma SourceUncovered(fs: Fs, gs: Fs, a: Args, stS: Stack)
    requires Ready(fs, a) && SourceAt(fs, a, stS) && a.bsrc == a.k && |gs.br| == |gs.wh| == |stS|
    requires See(gs, a.k, stS[a.k], a.src) == Nothing
    requires forall j :: 0 <= j < |stS| && j != a.k ==> See(gs, j, stS[j], a.src) == See(fs, j, stS[j], a.src)
    ensures AnyFound(Found(gs, stS, a.src)) <==> Unlink.Exposed(fs, stS, a.src, a.k)
  {
    var hs := Unlink.Without(fs, stS, a.k, a.src);
    var s, z := Sights(gs, stS, a.src), Sights(hs, stS, a.src);
    forall i | 0 <= i < |stS|
      ensures (s[i].Nothing? <==> z[i].Nothing?) && (s[i].Is? <==> z[i].Is?) && (s[i].Is? ==> s[i].e == z[i].e)
    {
      if i != a.k { assert hs.br[i] == fs.br[i]; }
    }
    SameShape(s, z);
  }

  /** A whiteout of the target that the rename leaves where it hides the target. */
  predicate Covered(fs: Fs, a: Args)
    requires HasDir(fs, a.k, a.ddir)
  {
    fs.wh[a.k] && Wh(a.dst) in Ents(fs, a.k, a.ddir) && !a.whdst
  }

  /** The target name is found, in the target branch first, exactly if it is not covered. */
  lemma TargetFound(fs: Fs, gs: Fs, a: Args, stD: Stack)
    requires Ended(fs, gs, a) && TargetOpen(fs, a, stD)
    ensures Covered(fs, a) ==> !AnyFound(Found(gs, stD, a.dst))
    ensures !Covered(fs, a) ==> Found(gs, stD, a.dst)[a.k] == Some(Moved(a)) && forall j :: 0 <= j < a.k ==>
            Found(gs, stD, a.dst)[j].None?
  {
    Apart(a);
    AtTheEnd(fs, gs, a, a.ddir, a.dst);
    AtTheEnd(fs, gs, a, a.ddir, Wh(a.dst));
    forall j | 0 <= j < a.k ensures See(gs, j, stD[j], a.dst) == Nothing { SeeElsewhere(fs, gs, a, j, stD[j], a.dst); }
    hide Finished, Within;
    FirstSight(gs, stD, a.k, a.dst);
  }

  /** Then it shows what the source showed. */
  lemma TargetShows(fs: Fs, gs: Fs, a: Args, stS: Stack, stD: Stack)
    requires Ended(fs, gs, a) && SourceSeen(fs, a, stS) && TargetOpen(fs, a, stD)
    ensures if Covered(fs, a) then View(gs, stD, [a.dst]) == Absent
            else View(gs, stD, [a.dst]) == View(fs, stS, [a.src]) != Absent
  {
    TargetFound(fs, gs, a, stD);
    AtTheEnd(fs, gs, a, a.ddir, a.dst);
    if a.isdir { DirAtTheEnd(fs, gs, a); }
    hide Finished, Within, Ready;
    FirstSight(fs, stS, a.bsrc, a.src);
    CopyUp.ShowSkips(fs.br, Found(fs, stS, a.src), a.bsrc);
    if Covered(fs, a) {
      ShowNothing(gs.br, Found(gs, stD, a.dst));
    } else {
      CopyUp.ShowSkips(gs.br, Found(gs, stD, a.dst), a.k);
    }
  }

  /** What the target's dentry says about the branches: its last branch, and its marker on the target branch. */
  ghost predicate TargetKnown(fs: Fs, a: Args, stD: Stack)
    requires TargetOpen(fs, a, stD)
  {
    && (forall j :: a.k < j < |stD| && Found(fs, stD, a.dst)[j].Some? ==> j <= a.dbend)
    && (a.dstOpq <==> See(fs, a.k, stD[a.k], a.dst).Is? && See(fs, a.k, stD[a.k], a.dst).opq)
  }

  /** The target's directory is marked in the end and the marker counts. */
  predicate Sealed(fs: Fs, a: Args)
    requires HasDir(fs, a.k, a.ddir)
  {
    fs.wh[a.k] && (NeedsOpq(fs, a) || (a.bsrc == a.k && a.srcOpq))
  }

  /** Below the first branch with a directory, a search that would find nothing alone finds nothing as a merge. */
  lemma {:induction false} StillNothing(s: seq<Sight>, z: seq<Sight>, k: nat, j: nat)
    requires k < j <= |s| == |z| && (forall i :: k < i < |s| ==> z[i] == s[i])
    requires forall i :: k < i < |s| ==> Merge(s, Looking)[i].None?
    requires PhaseAt(z, k + 1) == Merging && PhaseAt(s, k + 1) != Done
    ensures PhaseAt(s, j) == Done ==> PhaseAt(z, j) == Done
    ensures PhaseAt(s, j) != Done ==> PhaseAt(z, j) == Merging
    ensures j < |s| ==> Merge(z, Looking)[j].None?
    decreases j
  {
    if j > k + 1 {
      StillNothing(s, z, k, j - 1);
      MergeAt(s, j - 1);
    }
    if j < |s| {
      MergeAt(s, j);
      MergeAt(z, j);
    }
  }

  /** The branches' sights of the target, before and after. */
  lemma TargetSights(fs: Fs, gs: Fs, a: Args, stD: Stack)
    requires Ended(fs, gs, a) && TargetOpen(fs, a, stD) && a.isdir && !Covered(fs, a)
    ensures |gs.br| == |gs.wh| == |stD|
    ensures var s, z := Sights(fs, stD, a.dst), Sights(gs, stD, a.dst);
            && (forall j :: 0 <= j < |stD| && j != a.k ==> z[j] == s[j])
                && (forall j :: 0 <= j < a.k ==> s[j] == Nothing)
            && z[a.k] == Is(SubDir(MovedDir(a)), Sealed(fs, a))
            && (s[a.k] == White ==> Unwhites(fs, a)) && (s[a.k].Is? ==> s[a.k].e.SubDir?)
  {
    Apart(a);
    AtTheEnd(fs, gs, a, a.ddir, a.dst);
    AtTheEnd(fs, gs, a, a.ddir, Wh(a.dst));
    DirAtTheEnd(fs, gs, a);
    forall j | 0 <= j < |stD| && j != a.k ensures See(gs, j, stD[j], a.dst) == See(fs, j, stD[j], a.dst) {
      SeeElsewhere(fs, gs, a, j, stD[j], a.dst);
    }
  }

  /** In the end the name is that one directory: it hides lower ones, or there are none. */
  lemma TargetAlone(fs: Fs, gs: Fs, a: Args, stD: Stack)
    requires Ended(fs, gs, a) && TargetOpen(fs, a, stD) && TargetKnown(fs, a, stD) && a.isdir && !Covered(fs, a)
    requires fs.wh[a.k] || (!NeedsOpq(fs, a) && !(a.bsrc == a.k && a.srcOpq))
    ensures |gs.br| == |gs.wh| == |stD|
    ensures forall j :: 0 <= j < |stD| ==>
            Dirs(Found(gs, stD, a.dst))[j] == if j == a.k then Some(MovedDir(a)) else None
  {
    TargetFound(fs, gs, a, stD);
    TargetSights(fs, gs, a, stD);
    var s, z := Sights(fs, stD, a.dst), Sights(gs, stD, a.dst);
    var f, g := Found(fs, stD, a.dst), Found(gs, stD, a.dst);
    assert f == Merge(s, Looking) && g == Merge(z, Looking);
    hide Finished, Within, Sights, Merge, Found;
    Unmet(z, a.k);
    Unmet(s, a.k);
    LowerNone(fs, a, s, z);
  }

  lemma LowerNone(fs: Fs, a: Args, s: seq<Sight>, z: seq<Sight>)
    requires Ready(fs, a) && a.isdir && a.k < |s| == |z| && PhaseAt(s, a.k) == PhaseAt(z, a.k) == Looking
    requires forall j :: a.k < j < |s| ==> z[j] == s[j]
    requires z[a.k] == Is(SubDir(MovedDir(a)), Sealed(fs, a)) && (s[a.k] == White ==> Unwhites(fs, a))
    requires s[a.k].Is? ==> s[a.k].e.SubDir? && s[a.k].opq == a.dstOpq
    requires forall j :: a.k < j < |s| && Merge(s, Looking)[j].Some? ==> j <= a.dbend
    requires fs.wh[a.k] || (!NeedsOpq(fs, a) && !(a.bsrc == a.k && a.srcOpq))
    ensures forall j :: a.k < j < |s| ==> Merge(z, Looking)[j].None?
  {
    var next: nat := a.k + 1;
    if Sealed(fs, a) {
      NoneLater(z, next);
    } else {
      assert !NeedsOpq(fs, a) && !(a.bsrc == a.k && a.srcOpq);
      forall j | a.k < j < |s| ensures Merge(z, Looking)[j].None? { StillNothing(s, z, a.k, j); }
    }
  }

  /** The source's own directories, as the tests before a directory rename leave them. */
  ghost predicate MayMove(fs: Fs, a: Args, stS: Stack)
    requires |stS| == |fs.br| == |fs.wh|
  {
    forall m, j: nat :: UserName(m) && j < |stS| && Found(fs, Dirs(Found(fs, stS, a.src)), m)[j].Some? ==>
        j == a.k == a.bsrc
  }

  lemma {:induction false} OneSight(s: seq<Sight>, k: nat, j: nat)
    requires k < |s| && j < |s| && forall i :: 0 <= i < |s| && i != k ==> s[i] == Nothing
    ensures Merge(s, Looking)[j] == if j == k then Take(s[k], Looking) else None
  {
    MergeAt(s, j);
    if j <= k {
      Unmet(s, j);
    } else if j > 0 {
      OneSight(s, k, j - 1);
    }
  }

  /** In the moved directory the target branch sees a name as it did in the source; no other branch sees anything. */
  lemma MovedSights(fs: Fs, gs: Fs, a: Args, stS: Stack, t: Stack, m: string)
    requires Ended(fs, gs, a) && SourceSeen(fs, a, stS) && a.isdir && a.bsrc == a.k
    requires |t| == |stS| && forall j :: 0 <= j < |t| ==> t[j] == if j == a.k then Some(MovedDir(a)) else None
    requires ChildOutside(fs, Dirs(Found(fs, stS, a.src)), m, a.k, Movers(a))
    ensures |gs.br| == |gs.wh| == |t|
    ensures var s, z := Sights(fs, Dirs(Found(fs, stS, a.src)), m), Sights(gs, t, m);
            z[a.k] == s[a.k] && (forall j :: 0 <= j < a.k ==> s[j] == Nothing)
                && (forall j :: 0 <= j < |z| && j != a.k ==> z[j] == Nothing)
  {
    DirAtTheEnd(fs, gs, a);
    FirstSight(fs, stS, a.k, a.src);
    hide Finished, Merge;
    var st := Dirs(Found(fs, stS, a.src));
    assert st[a.k] == Some(a.e.ino) && forall j :: 0 <= j < a.k ==> st[j].None?;
  }

  /** In the moved directory the first name is found as it was in the source. */
  lemma MovedFound(fs: Fs, gs: Fs, a: Args, stS: Stack, t: Stack, m: string)
    requires Ended(fs, gs, a) && SourceSeen(fs, a, stS) && MayMove(fs, a, stS) && a.isdir && a.bsrc == a.k
    requires |t| == |stS| && forall j :: 0 <= j < |t| ==> t[j] == if j == a.k then Some(MovedDir(a)) else None
    requires ChildOutside(fs, Dirs(Found(fs, stS, a.src)), m, a.k, Movers(a)) && UserName(m)
    ensures |gs.br| == |gs.wh| == |t|
    ensures Found(gs, t, m) == Found(fs, Dirs(Found(fs, stS, a.src)), m)
  {
    var st := Dirs(Found(fs, stS, a.src));
    var s, z := Sights(fs, st, m), Sights(gs, t, m);
    MovedSights(fs, gs, a, stS, t, m);
    hide Finished, Within, Ready, SourceSeen, Merge, Sights;
    Unmet(s, a.k);
    MergeAt(s, a.k);
    forall j: nat | j < |t| ensures Found(gs, t, m)[j] == Found(fs, st, m)[j] { OneSight(z, a.k, j); }
  }

  /** Below a directory that was moved a path shows what it showed, unless it comes back to the names involved. */
  lemma MovedBelow(fs: Fs, gs: Fs, a: Args, stS: Stack, t: Stack, q: seq<string>)
    requires Ended(fs, gs, a) && SourceSeen(fs, a, stS) && MayMove(fs, a, stS) && a.isdir && a.bsrc == a.k
             && UserPath(q)
    requires |t| == |stS| == |gs.br| == |gs.wh| && forall j :: 0 <= j < |t| ==>
             t[j] == if j == a.k then Some(MovedDir(a)) else None
    requires StaysBelow(fs, a, Dirs(Found(fs, stS, a.src)), q)
    ensures View(gs, t, q) == View(fs, Dirs(Found(fs, stS, a.src)), q)
  {
    var st := Dirs(Found(fs, stS, a.src));
    var f := Found(fs, st, q[0]);
    MovedFound(fs, gs, a, stS, t, q[0]);
    hide Finished, SourceSeen, MayMove, Ready;
    if |q| == 1 {
      forall i | 0 <= i < |f| && f[i].Some? ensures ShowEntry(gs.br[i], f[i].value) == ShowEntry(fs.br[i], f[i].value) {
        FoundSeen(fs, st, q[0], i);
        if i == a.k && f[i].value.SubDir? && f[i].value.ino in fs.br[i] {
          assert DirDiffers(fs.br[i][f[i].value.ino], gs.br[i][f[i].value.ino], Involved(a), f[i].value.ino);
        }
      }
      ShowSame(fs.br, gs.br, f);
    } else {
      UserPathTail(q);
      Frame(fs, gs, Dirs(f), q[1..], a.k, Involved(a), Movers(a));
    }
  }

  ghost predicate StaysBelow(fs: Fs, a: Args, st: Stack, q: seq<string>)
    requires |st| == |fs.br| == |fs.wh| && a.k < |st| && q != []
  {
    ChildOutside(fs, st, q[0], a.k, Movers(a))
        && Avoids(fs, Dirs(Found(fs, st, q[0])), q[1..], a.k, Involved(a), Movers(a))
  }

  /** The path into the source and the one into the target show the same after a directory was renamed. */
  lemma TargetBelow(fs: Fs, gs: Fs, a: Args, stS: Stack, stD: Stack, q: seq<string>)
    requires Ended(fs, gs, a) && SourceSeen(fs, a, stS) && TargetOpen(fs, a, stD) && TargetKnown(fs, a, stD)
    requires a.isdir && MayMove(fs, a, stS) && !Covered(fs, a) && UserPath(q)
    requires fs.wh[a.k] || (!NeedsOpq(fs, a) && !(a.bsrc == a.k && a.srcOpq))
    requires a.bsrc == a.k ==> StaysBelow(fs, a, Dirs(Found(fs, stS, a.src)), q)
    ensures View(gs, stD, [a.dst] + q) == View(fs, stS, [a.src] + q)
  {
    var st, t := Dirs(Found(fs, stS, a.src)), Dirs(Found(gs, stD, a.dst));
    assert ([a.dst] + q)[1..] == q && ([a.src] + q)[1..] == q;
    TargetAlone(fs, gs, a, stD);
    if a.bsrc == a.k {
      MovedBelow(fs, gs, a, stS, t, q);
    } else {
      DirAtTheEnd(fs, gs, a);
      hide Finished, Within, Ready;
      MergeNothing(Sights(gs, t, q[0]), Looking);
      NotFoundAbsent(gs, t, q);
      NotFoundAbsent(fs, st, q);
    }
  }

  /** Nor does a path through the source name show anything, where the source is gone. */
  lemma SourceAbsent(fs: Fs, gs: Fs, a: Args, stS: Stack, q: seq<string>)
    requires Ended(fs, gs, a) && SourceSeen(fs, a, stS) && !(a.whsrc && !fs.wh[a.k])
    ensures View(gs, stS, [a.src] + q) == Absent
  {
    SourceGone(fs, gs, a, stS);
    NotFoundAbsent(gs, stS, [a.src] + q);
  }

  /** Whatever became of the rename, a path that avoids the names and the directory involved shows what it showed. */
  lemma OthersSame(fs: Fs, gs: Fs, a: Args, root: Stack, path: seq<string>)
    requires Within(fs, gs, a) && |root| == |fs.br| && UserPath(path)
             && Avoids(fs, root, path, a.k, Involved(a), Movers(a))
    ensures View(gs, root, path) == View(fs, root, path)
  {
    Frame(fs, gs, root, path, a.k, Involved(a), Movers(a));
  }

  /** Only stS has the source's parent in the target branch. */
  ghost predicate OnePlace(fs: Fs, a: Args, root: Stack, stS: Stack)
    requires |root| == |fs.br| == |fs.wh| && a.k < |root|
  {
    forall p :: CopyUp.Walkable(p) && Walk(fs, root, p)[a.k] == Some(a.sdir) ==> Walk(fs, root, p) == stS
  }

  /** After a rolled back rename that leaves the source copied up, no path shows anything else. */
  lemma CopiedView(fs: Fs, a: Args, root: Stack, stS: Stack, path: seq<string>)
    requires SourceSeen(fs, a, stS) && Copies(fs, a) && |root| == |stS| && OnePlace(fs, a, root, stS) && UserPath(path)
    ensures |RolledBack(fs, a, true).br| == |fs.br| && RolledBack(fs, a, true).wh == fs.wh
    ensures View(RolledBack(fs, a, true), root, path) == View(fs, root, path)
  {
    var gs, n := RolledBack(fs, a, true), |path| - 1;
    var st := Walk(fs, root, path[..n]);
    ViewWalk(fs, root, path);
    ViewWalk(gs, root, path);
    CopiedWalk(fs, a, root, stS, path[..n]);
    CopiedFound(fs, a, root, stS, path[..n], path[n]);
    hide Walk, View, Merge, OnePlace;
    var f, g := Found(fs, st, path[n]), Found(gs, st, path[n]);
    if st == stS && path[n] == a.src {
      CopyUp.ShowSkips(fs.br, f, a.bsrc);
      CopyUp.ShowSkips(gs.br, g, a.k);
    } else {
      ShowSame(fs.br, gs.br, f);
    }
  }

  lemma CopiedFound(fs: Fs, a: Args, root: Stack, stS: Stack, q: seq<string>, m: string)
    requires SourceSeen(fs, a, stS) && Copies(fs, a) && |root| == |stS| && OnePlace(fs, a, root, stS)
    requires CopyUp.Walkable(q) && UserName(m)
    ensures |RolledBack(fs, a, true).br| == |fs.br| && RolledBack(fs, a, true).wh == fs.wh
    ensures var gs, st := RolledBack(fs, a, true), Walk(fs, root, q);
            var f, g := Found(fs, st, m), Found(gs, st, m);
            if st == stS && m == a.src then
              && f[a.bsrc] == Some(a.e) && g[a.k] == Some(a.e) && Dirs(g) == Dirs(f)
              && (forall j :: 0 <= j < a.bsrc ==> f[j].None?) && (forall j :: 0 <= j < a.k ==> g[j].None?)
            else g == f
  {
    var gs, st := RolledBack(fs, a, true), Walk(fs, root, q);
    WhNotUser(a.src);
    WhNotUser(m);
    if st == stS && m == a.src {
      FirstSight(fs, st, a.bsrc, m);
      FirstSight(gs, st, a.k, m);
      FileOnly(Sights(fs, st, m), a.bsrc);
      FileOnly(Sights(gs, st, m), a.k);
    } else {
      assert st[a.k] == Some(a.sdir) ==> st == stS;
      assert Sights(gs, st, m) == Sights(fs, st, m);
    }
  }

  /** A search whose first sight is a file finds nothing else. */
  lemma FileOnly(s: seq<Sight>, i: nat)
    requires i < |s| && s[i].Is? && s[i].e.File? && forall j :: 0 <= j < i ==> s[j] == Nothing
    ensures forall j :: 0 <= j < |s| && j != i ==> Merge(s, Looking)[j].None?
  {
    Unmet(s, i);
    FirstSightSeq(s, i);
    var next: nat := i + 1;
    NoneLater(s, next);
  }

  lemma {:induction false} CopiedWalk(fs: Fs, a: Args, root: Stack, stS: Stack, q: seq<string>)
    requires SourceSeen(fs, a, stS) && Copies(fs, a) && |root| == |stS| && OnePlace(fs, a, root, stS)
    requires CopyUp.Walkable(q)
    ensures |RolledBack(fs, a, true).br| == |fs.br| && RolledBack(fs, a, true).wh == fs.wh
    ensures Walk(RolledBack(fs, a, true), root, q) == Walk(fs, root, q)
    decreases |q|
  {
    if q != [] {
      var n := |q| - 1;
      CopiedWalk(fs, a, root, stS, q[..n]);
      CopiedFound(fs, a, root, stS, q[..n], q[n]);
    }
  }

  /** Below a file nothing shows. */
  lemma BelowFile(fs: Fs, st: Stack, name: string, i: nat, q: seq<string>)
    requires |st| == |fs.br| == |fs.wh| && TopSight(fs, st, i, name) && q != []
    requires See(fs, i, st[i], name).Is? && See(fs, i, st[i], name).e.File?
    ensures View(fs, st, [name] + q) == Absent
  {
    var s := Sights(fs, st, name);
    var f, t := Found(fs, st, name), Dirs(Found(fs, st, name));
    FileOnly(s, i);
    FirstSightSeq(s, i);
    assert f == Merge(s, Looking);
    assert ([name] + q)[1..] == q;
    MergeNothing(Sights(fs, t, q[0]), Looking);
    NotFoundAbsent(fs, t, q);
  }

  /**
   A rename that ran to its end, on a target branch whose whiteouts are honoured: every path through the
   target shows what the same path through the source showed, and the source shows nothing, unless a
   whiteout of the target that was not asked to be removed covers it.
   */
  lemma RenameShows(fs: Fs, gs: Fs, a: Args, stS: Stack, stD: Stack, q: seq<string>)
    requires Ended(fs, gs, a) && SourceSeen(fs, a, stS) && TargetOpen(fs, a, stD) && TargetKnown(fs, a, stD)
             && fs.wh[a.k]
    requires q == [] || UserPath(q)
    requires a.isdir ==>
               MayMove(fs, a, stS)
               && (q != [] && a.bsrc == a.k ==> StaysBelow(fs, a, Dirs(Found(fs, stS, a.src)), q))
    ensures View(gs, stS, [a.src] + q) == Absent
    ensures View(gs, stD, [a.dst] + q) == if Covered(fs, a) then Absent else View(fs, stS, [a.src] + q)
    ensures q == [] && !Covered(fs, a) ==> View(gs, stD, [a.dst] + q) != Absent
  {
    SourceAbsent(fs, gs, a, stS, q);
    TargetShows(fs, gs, a, stS, stD);
    assert [a.dst] + [] == [a.dst] && [a.src] + [] == [a.src];
    if Covered(fs, a) {
      TargetFound(fs, gs, a, stD);
      NotFoundAbsent(gs, stD, [a.dst] + q);
    } else if q != [] {
      if a.isdir {
        TargetBelow(fs, gs, a, stS, stD, q);
      } else {
        BelowFile(fs, stS, a.src, a.bsrc, q);
        TargetIsFile(fs, gs, a, stD);
        BelowFile(gs, stD, a.dst, a.k, q);
      }
    }
  }

  lemma TargetIsFile(fs: Fs, gs: Fs, a: Args, stD: Stack)
    requires Ended(fs, gs, a) && TargetOpen(fs, a, stD) && !Covered(fs, a) && !a.isdir
    ensures |gs.br| == |gs.wh| == |stD| && TopSight(gs, stD, a.k, a.dst)
    ensures See(gs, a.k, stD[a.k], a.dst).Is? && See(gs, a.k, stD[a.k], a.dst).e.File?
  {
    Apart(a);
    AtTheEnd(fs, gs, a, a.ddir, a.dst);
    AtTheEnd(fs, gs, a, a.ddir, Wh(a.dst));
    forall j | 0 <= j < a.k ensures See(gs, j, stD[j], a.dst) == Nothing { SeeElsewhere(fs, gs, a, j, stD[j], a.dst); }
  }
}
