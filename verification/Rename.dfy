/**
 Renaming on one branch (i_op_ren.c): the steps of do_rename, each of which may fail, and the way back.
 */
module Rename {

  import opened Errno
  import opened Names
  import opened UnionFs
  import opened LowerFs
  import CopyUp

  /**
   struct au_ren_args as do_rename gets it.  k is the target branch, sdir and ddir the parents' directories
   there; e is the source's entry in its first branch bsrc and attr its attributes if it is a directory;
   dbend, dstOpq and srcOpq come from the dentries; ino and rough are for a directory that may be made.
   */
  datatype Args = Args(
    k: nat, sdir: nat, ddir: nat, src: string, dst: string, cnt: string,
    isdir: bool, whsrc: bool, whdst: bool, bsrc: nat, e: Entry, attr: nat,
    dbend: int, dstOpq: bool, srcOpq: bool, always: bool, ino: nat, rough: nat)

  /** The temporary name au_whtmp_lkup makes up, whited out twice. */
  function Tmp(a: Args): string {
    Wh(Wh(a.dst + "." + a.cnt))
  }

  /** The source is a directory of the target branch, no parent of either name. */
  predicate SourceDir(fs: Fs, a: Args)
    requires a.e.SubDir?
  {
    && HasDir(fs, a.k, a.e.ino) && a.e.ino !in {a.sdir, a.ddir}
    && fs.br[a.k][a.e.ino].attr == a.attr && fs.br[a.k][a.e.ino].opq == a.srcOpq
  }

  /** What the checks before do_rename and well-formed branches provide. */
  ghost predicate Ready(fs: Fs, a: Args) {
    && HasDir(fs, a.k, a.sdir) && HasDir(fs, a.k, a.ddir) && a.k <= a.bsrc
    && UserName(a.src) && UserName(a.dst) && (a.sdir, a.src) != (a.ddir, a.dst)
    && Tmp(a) !in Ents(fs, a.k, a.ddir)
    && (a.isdir <==> a.e.SubDir?)
    && (if a.bsrc == a.k then a.src in Ents(fs, a.k, a.sdir) && Ents(fs, a.k, a.sdir)[a.src] == a.e
        else a.src !in Ents(fs, a.k, a.sdir))
    && Wh(a.src) !in Ents(fs, a.k, a.sdir)
    && (a.dst in Ents(fs, a.k, a.ddir) ==>
      Wh(a.dst) !in Ents(fs, a.k, a.ddir)
      && Ents(fs, a.k, a.ddir)[a.dst].SubDir? == a.isdir)
    && (a.isdir && a.bsrc == a.k ==> SourceDir(fs, a))
  }

  /** The target is a directory that has to be put aside. */
  predicate Aside(fs: Fs, a: Args)
    requires HasDir(fs, a.k, a.ddir)
  {
    a.isdir && a.dst in Ents(fs, a.k, a.ddir)
  }

  /** The source is copied up under its own name, to be renamed onto an existing target. */
  predicate Copies(fs: Fs, a: Args)
    requires HasDir(fs, a.k, a.ddir)
  {
    !a.isdir && a.dst in Ents(fs, a.k, a.ddir) && a.bsrc != a.k
  }

  /** The target has a whiteout that must go. */
  predicate Unwhites(fs: Fs, a: Args)
    requires HasDir(fs, a.k, a.ddir)
  {
    a.whdst && Wh(a.dst) in Ents(fs, a.k, a.ddir)
  }

  predicate NeedsOpq(fs: Fs, a: Args)
    requires HasDir(fs, a.k, a.ddir)
  {
    a.isdir && (Unwhites(fs, a) || a.dstOpq || a.k < a.dbend || a.always) && !(a.bsrc == a.k && a.srcOpq)
  }

  /** The branches after each step, when none fails: the source's whiteout, ... */
  function F1(fs: Fs, a: Args): (r: Fs)
    requires HasDir(fs, a.k, a.sdir) && HasDir(fs, a.k, a.ddir)
    ensures HasDir(r, a.k, a.sdir) && HasDir(r, a.k, a.ddir)
  {
    if a.whsrc then SetEnt(fs, a.k, a.sdir, Wh(a.src), File(0)) else fs
  }

  /** ... the target directory under its temporary name, ... */
  ghost function F2(fs: Fs, a: Args): (r: Fs)
    requires Ready(fs, a)
    ensures HasDir(r, a.k, a.sdir) && HasDir(r, a.k, a.ddir)
  {
    Apart(a);
    if Aside(fs, a) then MoveEnt(F1(fs, a), a.k, a.ddir, a.dst, a.ddir, Tmp(a)) else F1(fs, a)
  }

  /** ... the source copied up, ... */
  ghost function F3(fs: Fs, a: Args): (r: Fs)
    requires Ready(fs, a)
    ensures HasDir(r, a.k, a.sdir) && HasDir(r, a.k, a.ddir)
  {
    if Copies(fs, a) then SetEnt(F2(fs, a), a.k, a.sdir, a.src, a.e) else F2(fs, a)
  }

  predicate ByCpup(fs: Fs, a: Args)
    requires HasDir(fs, a.k, a.ddir)
  {
    a.bsrc != a.k && !Copies(fs, a)
  }

  /** The names in play are different from each other. */
  lemma Apart(a: Args)
    ensures UserName(a.src) ==> Wh(a.src) != a.dst || !UserName(a.dst)
    ensures UserName(a.src) ==> Tmp(a) != a.src && Tmp(a) != Wh(a.src)
    ensures UserName(a.dst) ==> Tmp(a) != a.dst && Tmp(a) != Wh(a.dst) && Wh(a.dst) != a.dst
    ensures UserName(a.dst) ==> Wh(a.dst) != a.src || !UserName(a.src)
    ensures a.src != a.dst ==> Wh(a.src) != Wh(a.dst)
  {
    WhNotUser(a.src);
    WhNotUser(a.dst);
    WhNotUser(a.dst + "." + a.cnt);
    WhNotUser(Wh(a.dst + "." + a.cnt));
    assert Tmp(a)[4..] == Wh(a.dst + "." + a.cnt);
    assert Wh(a.src)[4..] == a.src && Wh(a.dst)[4..] == a.dst;
  }

  /** What is at the two names before the move itself. */
  lemma BeforeMove(fs: Fs, a: Args)
    requires Ready(fs, a)
    ensures !ByCpup(fs, a) ==> a.src in Ents(F3(fs, a), a.k, a.sdir) && Ents(F3(fs, a), a.k, a.sdir)[a.src] == a.e
    ensures a.dst in Ents(F3(fs, a), a.k, a.ddir) <==> !a.isdir && a.dst in Ents(fs, a.k, a.ddir)
    ensures !Aside(fs, a) ==> F2(fs, a) == F1(fs, a)
    ensures !Copies(fs, a) ==> F3(fs, a) == F2(fs, a)
    ensures a.isdir && a.bsrc == a.k ==> SourceDir(F3(fs, a), a)
    ensures F3(fs, a).br[a.k].Keys == fs.br[a.k].Keys
  {
    Apart(a);
  }

  /** ... the source under the target's name, ... */
  ghost function F4(fs: Fs, a: Args): (r: Fs)
    requires Ready(fs, a)
    ensures HasDir(r, a.k, a.sdir) && HasDir(r, a.k, a.ddir) && (a.isdir ==> HasDir(r, a.k, MovedDir(a)))
  {
    BeforeMove(fs, a);
    if !ByCpup(fs, a) then MoveEnt(F3(fs, a), a.k, a.sdir, a.src, a.ddir, a.dst)
    else if a.isdir then NewDir(F3(fs, a), a.k, a.ddir, a.dst, a.ino, a.attr)
    else SetEnt(F3(fs, a), a.k, a.ddir, a.dst, a.e)
  }

  /** The directory that ends up under the target's name. */
  function MovedDir(a: Args): nat
    requires a.isdir
  {
    if a.bsrc == a.k && a.e.SubDir? then a.e.ino else a.ino
  }

  function SetOpq(fs: Fs, k: nat, ino: nat, opq: bool): Fs
    requires HasDir(fs, k, ino)
  {
    WithDir(fs, k, ino, fs.br[k][ino].(opq := opq))
  }

  /** ... marked opaque, ... */
  ghost function F5(fs: Fs, a: Args): (r: Fs)
    requires Ready(fs, a)
    ensures HasDir(r, a.k, a.sdir) && HasDir(r, a.k, a.ddir) && (a.isdir ==> HasDir(r, a.k, MovedDir(a)))
  {
    if NeedsOpq(fs, a) then SetOpq(F4(fs, a), a.k, MovedDir(a), true) else F4(fs, a)
  }

  /** ... and the target's whiteout removed. */
  ghost function F6(fs: Fs, a: Args): (r: Fs)
    requires Ready(fs, a)
    ensures HasDir(r, a.k, a.sdir) && HasDir(r, a.k, a.ddir)
  {
    if Unwhites(fs, a) then DelEnt(F5(fs, a), a.k, a.ddir, Wh(a.dst)) else F5(fs, a)
  }

  /** The names and directories a rename may change. */
  function Involved(a: Args): Edges {
    {(a.sdir, a.src), (a.ddir, a.dst), (a.ddir, Tmp(a))}
  }

  function Movers(a: Args): set<nat> {
    if a.isdir then {MovedDir(a)} else {}
  }

  ghost predicate Within(fs: Fs, gs: Fs, a: Args) {
    && Differ(fs, gs, a.k, Involved(a), Movers(a))
    && (forall d :: d in fs.br[a.k] ==> d in gs.br[a.k])
  }

  predicate Key(a: Args, d: nat, key: string) {
    (d == a.sdir && key in {a.src, Wh(a.src)}) || (d == a.ddir && key in {a.dst, Wh(a.dst), Tmp(a)})
  }

  lemma KeysTouched(a: Args, d: nat, key: string)
    requires Key(a, d, key)
    ensures Touched(Involved(a), d, key)
  {
    assert Wh(a.src)[..4] == WH_PFX && Wh(a.dst)[..4] == WH_PFX;
  }

  lemma EdgesFit(a: Args)
    requires UserName(a.src) && UserName(a.dst)
    ensures EdgesOk(Involved(a))
  {
    forall d: nat, n: string | UserName(n) ensures (d, Wh(n)) !in Involved(a) {
      WhNotUser(n);
      WhNotUser(a.dst + "." + a.cnt);
      WhNotUser(Wh(a.dst + "." + a.cnt));
      assert Wh(n)[4..] == n && Tmp(a)[4..] == Wh(a.dst + "." + a.cnt);
    }
  }

  lemma WithinSelf(fs: Fs, a: Args)
    requires UserName(a.src) && UserName(a.dst) && a.k < |fs.br| == |fs.wh|
    ensures Within(fs, fs, a)
  {
    EdgesFit(a);
  }

  lemma WithinTrans(fs: Fs, gs: Fs, hs: Fs, a: Args)
    requires Within(fs, gs, a) && Within(gs, hs, a)
    ensures Within(fs, hs, a)
  {
    DifferTrans(fs, gs, hs, a.k, Involved(a), Movers(a));
  }

  lemma WithinSet(fs: Fs, a: Args, d: nat, key: string, e: Entry)
    requires UserName(a.src) && UserName(a.dst) && HasDir(fs, a.k, d) && Key(a, d, key)
    ensures Within(fs, SetEnt(fs, a.k, d, key, e), a) && Within(fs, DelEnt(fs, a.k, d, key), a)
  {
    EdgesFit(a);
    KeysTouched(a, d, key);
    WithEntsDiffers(fs, a.k, d, Ents(fs, a.k, d)[key := e], Involved(a));
    WithEntsDiffers(fs, a.k, d, Ents(fs, a.k, d) - {key}, Involved(a));
  }

  lemma WithinMove(fs: Fs, a: Args, d1: nat, key1: string, d2: nat, key2: string)
    requires UserName(a.src) && UserName(a.dst) && HasDir(fs, a.k, d1) && HasDir(fs, a.k, d2)
             && key1 in Ents(fs, a.k, d1)
    requires Key(a, d1, key1) && Key(a, d2, key2)
    ensures Within(fs, MoveEnt(fs, a.k, d1, key1, d2, key2), a)
  {
    var gs := DelEnt(fs, a.k, d1, key1);
    WithinSet(fs, a, d1, key1, File(0));
    WithinSet(gs, a, d2, key2, Ents(fs, a.k, d1)[key1]);
    WithinTrans(fs, gs, MoveEnt(fs, a.k, d1, key1, d2, key2), a);
  }

  lemma WithinDir(fs: Fs, a: Args, n: Node)
    requires UserName(a.src) && UserName(a.dst) && a.isdir && a.k < |fs.br| == |fs.wh|
    ensures Within(fs, WithDir(fs, a.k, MovedDir(a), n), a)
  {
    EdgesFit(a);
  }

  lemma WithinNewDir(fs: Fs, a: Args, attr: nat)
    requires UserName(a.src) && UserName(a.dst) && a.isdir && MovedDir(a) == a.ino && HasDir(fs, a.k, a.ddir)
    ensures Within(fs, NewDir(fs, a.k, a.ddir, a.dst, a.ino, attr), a)
  {
    var gs := SetEnt(fs, a.k, a.ddir, a.dst, SubDir(a.ino));
    WithinSet(fs, a, a.ddir, a.dst, SubDir(a.ino));
    WithinDir(gs, a, Node(attr, false, map[]));
    WithinTrans(fs, gs, NewDir(fs, a.k, a.ddir, a.dst, a.ino, attr), a);
  }

  /** No step is bound to fail: a directory to be made has a new inode number, a whiteout is a file. */
  predicate Clean(fs: Fs, a: Args)
    requires HasDir(fs, a.k, a.ddir)
  {
    (a.isdir && a.bsrc != a.k ==> a.ino !in fs.br[a.k]) && (Unwhites(fs, a) ==> Ents(fs, a.k, a.ddir)[Wh(a.dst)].File?)
  }

  /** A step of n operations works if and only if none of them fails. */
  predicate Took(was: seq<bool>, now: seq<bool>, err: int, n: nat) {
    (err == 0 <==> Calm(was, n)) && (err == 0 ==> now == Drop(was, n))
  }

  lemma TookBoth(was: seq<bool>, mid: seq<bool>, now: seq<bool>, e1: int, e2: int, n: nat, m: nat)
    requires Took(was, mid, e1, n)
    ensures e1 == 0 && Took(mid, now, e2, m) ==> Took(was, now, e2, n + m)
    ensures e1 != 0 ==> Took(was, mid, e1, n + m)
  {
    CalmSplit(was, n, m);
  }

  function WhSteps(a: Args): nat {
    (if a.whsrc then 1 else 0) + if a.whdst then 1 else 0
  }

  /** How many operations it takes until a directory that is copied up is there. */
  function ToMkdir(fs: Fs, a: Args): nat
    requires HasDir(fs, a.k, a.ddir)
  {
    WhSteps(a) + (if Aside(fs, a) then 2 else 0) + 2
  }

  /**
   A directory is copied up to a name that needs the marker, and the first failure comes after the directory
   was made: au_ren_rev_cpup cannot take it back.
   */
  predicate Stranded(fs: Fs, a: Args, faults: seq<bool>)
    requires HasDir(fs, a.k, a.ddir)
  {
    a.isdir && a.bsrc != a.k && NeedsOpq(fs, a) && Calm(faults, ToMkdir(fs, a))
  }

  /** Where the lower filesystem stands is one with both parents in it. */
  predicate Sound(fs: Fs, a: Args) {
    HasDir(fs, a.k, a.sdir) && HasDir(fs, a.k, a.ddir) && UserName(a.src) && UserName(a.dst) && |fs.br| == |fs.wh|
  }

  /** The directory that was copied up is there under the target's name, a whiteout of it only if covered. */
  predicate Stays(fs: Fs, a: Args, covered: bool) {
    && a.isdir && a.bsrc != a.k && a.ino != a.ddir && UserName(a.dst)
    && HasDir(fs, a.k, a.ddir) && a.dst in Ents(fs, a.k, a.ddir) && Ents(fs, a.k, a.ddir)[a.dst] == SubDir(a.ino)
    && a.ino in fs.br[a.k] && (Wh(a.dst) in Ents(fs, a.k, a.ddir) ==> covered)
  }

  /** au_ren_rev_diropq. */
  method RevDiropq(low: Lower, a: Args, ghost fs0: Fs) returns (ok: bool)
    requires Ready(fs0, a) && Sound(low.fs, a) && a.isdir && HasDir(low.fs, a.k, MovedDir(a))
    modifies low
    ensures Sound(low.fs, a) && Within(old(low.fs), low.fs, a)
    ensures forall covered :: Stays(old(low.fs), a, covered) ==> Stays(low.fs, a, covered)
    ensures ok && old(low.fs) == F5(fs0, a) && NeedsOpq(fs0, a) ==> low.fs == F4(fs0, a)
    ensures low.Used(old(low.faults), !ok)
  {
    WithinSelf(low.fs, a);
    WithinDir(low.fs, a, low.fs.br[a.k][MovedDir(a)].(opq := false));
    if NeedsOpq(fs0, a) { OpqUndone(fs0, a); }
    hide F4, F5, Within, Ready;
    var err := low.Mark(a.k, MovedDir(a), false);
    ok := err == 0;
  }

  lemma OpqUndone(fs: Fs, a: Args)
    requires Ready(fs, a) && a.isdir && NeedsOpq(fs, a)
    ensures SetOpq(F5(fs, a), a.k, MovedDir(a), false) == F4(fs, a)
  {
    var gs, x := F4(fs, a), MovedDir(a);
    assert !gs.br[a.k][x].opq;
    var hs := SetOpq(F5(fs, a), a.k, x, false);
    assert hs.br[a.k] == gs.br[a.k];
    assert hs.br == gs.br;
  }

  /** The move undone, where it did not overwrite anything; a directory that was made cannot be unlinked. */
  lemma MoveBack(fs: Fs, a: Args)
    requires Ready(fs, a) && a.dst !in Ents(F3(fs, a), a.k, a.ddir)
    ensures var gs := F4(fs, a);
            && (!(ByCpup(fs, a) && a.isdir) ==> a.dst in Ents(gs, a.k, a.ddir))
            && (ByCpup(fs, a) && !a.isdir ==>
              Ents(gs, a.k, a.ddir)[a.dst].File?
              && DelEnt(gs, a.k, a.ddir, a.dst) == F3(fs, a))
            && (!ByCpup(fs, a) ==>
              Movable(gs, a.k, a.ddir, a.dst, a.sdir, a.src)
              && MoveEnt(gs, a.k, a.ddir, a.dst, a.sdir, a.src) == F3(fs, a))
  {
    BeforeMove(fs, a);
    if !ByCpup(fs, a) {
      MoveUndone(F3(fs, a), a.k, a.sdir, a.src, a.ddir, a.dst);
    } else if !a.isdir {
      SetUndone(F3(fs, a), a.k, a.ddir, a.dst, a.e);
    }
  }

  /** au_ren_rev_rename, or au_ren_rev_cpup, which unlinks even if a directory was made. */
  method RevMove(low: Lower, a: Args, bycpup: bool, ghost fs0: Fs) returns (ok: bool)
    requires Ready(fs0, a) && Sound(low.fs, a) && bycpup == ByCpup(fs0, a)
    modifies low
    ensures Sound(low.fs, a) && Within(old(low.fs), low.fs, a)
    ensures forall covered :: Stays(old(low.fs), a, covered) ==> Stays(low.fs, a, covered)
    ensures ok && old(low.fs) == F4(fs0, a) && a.dst !in Ents(F3(fs0, a), a.k, a.ddir) ==>
              low.fs == F3(fs0, a) && !(bycpup && a.isdir)
    ensures low.Used(old(low.faults), !ok && old(low.fs) == F4(fs0, a) && a.dst !in Ents(F3(fs0, a), a.k, a.ddir)
                && !(bycpup && a.isdir))
  {
    hide F3, F4, Within, Ready;
    WithinSelf(low.fs, a);
    ghost var was := low.fs;
    if a.dst !in Ents(F3(fs0, a), a.k, a.ddir) { MoveBack(fs0, a); }
    if bycpup && a.isdir { NewDirThere(fs0, a); }
    if !bycpup {
      var f := low.Fault();
      if f { return false; }
      var err := low.Rename(a.k, a.ddir, a.dst, a.sdir, a.src);
      if err == 0 { WithinMove(was, a, a.ddir, a.dst, a.sdir, a.src); }
      ok := err == 0;
    } else {
      var err := low.Unlink(a.k, a.ddir, a.dst);
      if err == 0 { WithinSet(was, a, a.ddir, a.dst, File(0)); }
      ok := err == 0;
    }
  }

  lemma NewDirThere(fs: Fs, a: Args)
    requires Ready(fs, a) && ByCpup(fs, a) && a.isdir
    ensures a.dst in Ents(F4(fs, a), a.k, a.ddir) ==> Ents(F4(fs, a), a.k, a.ddir)[a.dst].SubDir?
  {
  }

  /** au_ren_rev_whtmp: only if the target's name is free. */
  method RevAside(low: Lower, a: Args, ghost fs0: Fs) returns (ok: bool)
    requires Ready(fs0, a) && Sound(low.fs, a) && Aside(fs0, a)
    modifies low
    ensures Sound(low.fs, a) && Within(old(low.fs), low.fs, a)
    ensures forall covered :: Stays(old(low.fs), a, covered) ==> Stays(low.fs, a, covered)
    ensures ok && old(low.fs) == F2(fs0, a) ==> low.fs == F1(fs0, a)
    ensures low.Used(old(low.faults), !ok && old(low.fs) == F2(fs0, a))
  {
    WithinSelf(low.fs, a);
    ghost var was := low.fs;
    AsideBack(fs0, a);
    hide F1, F2, Within, Ready;
    var f := low.Fault();
    if f || a.dst in low.fs.br[a.k][a.ddir].ents { return false; }
    var err := low.Rename(a.k, a.ddir, Tmp(a), a.ddir, a.dst);
    if err == 0 { WithinMove(was, a, a.ddir, Tmp(a), a.ddir, a.dst); }
    ok := err == 0;
  }

  lemma AsideBack(fs: Fs, a: Args)
    requires Ready(fs, a) && Aside(fs, a)
    ensures a.dst !in Ents(F2(fs, a), a.k, a.ddir) && Tmp(a) in Ents(F2(fs, a), a.k, a.ddir)
    ensures MoveEnt(F2(fs, a), a.k, a.ddir, Tmp(a), a.ddir, a.dst) == F1(fs, a)
  {
    Apart(a);
    MoveUndone(F1(fs, a), a.k, a.ddir, a.dst, a.ddir, Tmp(a));
  }

  /** The branches after a failure that was rolled back: as before, or with the source copied up too. */
  ghost function RolledBack(fs: Fs, a: Args, copied: bool): Fs
    requires Ready(fs, a)
  {
    if copied then SetEnt(fs, a.k, a.sdir, a.src, a.e) else fs
  }

  lemma MadeStays(fs: Fs, a: Args)
    requires Ready(fs, a) && ByCpup(fs, a) && a.isdir && a.ino !in fs.br[a.k]
    ensures var c := Wh(a.dst) in Ents(fs, a.k, a.ddir); Stays(F4(fs, a), a, c) && Stays(F5(fs, a), a, c)
  {
    Apart(a);
  }

  lemma NotCopied(fs: Fs, a: Args)
    requires Ready(fs, a)
    ensures RolledBack(fs, a, false) == fs
  {
  }

  /** au_ren_rev_whsrc. */
  method RevWhsrc(low: Lower, a: Args, ghost copied: bool, ghost fs0: Fs) returns (ok: bool)
    requires Ready(fs0, a) && Sound(low.fs, a) && a.whsrc && (copied ==> Copies(fs0, a))
    modifies low
    ensures Sound(low.fs, a) && Within(old(low.fs), low.fs, a)
    ensures forall covered :: Stays(old(low.fs), a, covered) ==> Stays(low.fs, a, covered)
    ensures ok && old(low.fs) == (if copied then F3(fs0, a) else F1(fs0, a)) ==> low.fs == RolledBack(fs0, a, copied)
    ensures low.Used(old(low.faults), !ok && old(low.fs) == (if copied then F3(fs0, a) else F1(fs0, a)))
  {
    WithinSelf(low.fs, a);
    ghost var was := low.fs;
    WhsrcBack(fs0, a, copied);
    hide F1, F3, Within, Ready, RolledBack;
    var err := low.Unlink(a.k, a.sdir, Wh(a.src));
    if err == 0 { WithinSet(was, a, a.sdir, Wh(a.src), File(0)); }
    ok := err == 0;
  }

  lemma WhsrcBack(fs: Fs, a: Args, copied: bool)
    requires Ready(fs, a) && a.whsrc && (copied ==> Copies(fs, a))
    ensures DelEnt(if copied then F3(fs, a) else F1(fs, a), a.k, a.sdir, Wh(a.src)) == RolledBack(fs, a, copied)
  {
    WhNotUser(a.src);
    if copied {
      SetCommutes(fs, a.k, a.sdir, a.src, a.e, Wh(a.src), File(0));
      SetUndone(RolledBack(fs, a, true), a.k, a.sdir, Wh(a.src), File(0));
    } else {
      SetUndone(fs, a.k, a.sdir, Wh(a.src), File(0));
    }
  }

  /** out_whsrc: good says that the branches are as after the steps before. */
  method OutWhsrc(low: Lower, a: Args, ghost copied: bool, ghost fs0: Fs, ghost good: bool) returns (ghost ok: bool)
    requires Ready(fs0, a) && Sound(low.fs, a) && (copied ==> Copies(fs0, a))
    requires good ==> low.fs == if copied then F3(fs0, a) else F1(fs0, a)
    modifies low
    ensures Sound(low.fs, a) && Within(old(low.fs), low.fs, a)
    ensures forall covered :: Stays(old(low.fs), a, covered) ==> Stays(low.fs, a, covered)
    ensures ok ==> good && low.fs == RolledBack(fs0, a, copied)
    ensures low.Used(old(low.faults), good && !ok)
  {
    WithinSelf(low.fs, a);
    ok := good;
    if a.whsrc {
      var r := RevWhsrc(low, a, copied, fs0);
      ok := good && r;
    } else {
      BeforeMove(fs0, a);
    }
  }

  /** out_whtmp. */
  method OutWhtmp(low: Lower, a: Args, aside: bool, ghost copied: bool, ghost fs0: Fs, ghost good: bool)
    returns (ghost ok: bool)
    requires Ready(fs0, a) && Sound(low.fs, a) && (copied ==> Copies(fs0, a)) && aside == Aside(fs0, a)
    requires good ==> low.fs == if copied then F3(fs0, a) else F2(fs0, a)
    modifies low
    ensures Sound(low.fs, a) && Within(old(low.fs), low.fs, a)
    ensures forall covered :: Stays(old(low.fs), a, covered) ==> Stays(low.fs, a, covered)
    ensures ok ==> good && low.fs == RolledBack(fs0, a, copied)
    ensures low.Used(old(low.faults), good && !ok)
  {
    ghost var was, fine := low.fs, good;
    WithinSelf(was, a);
    BeforeMove(fs0, a);
    hide F1, F2, F3, Within, Ready, RolledBack;
    if aside {
      var r := RevAside(low, a, fs0);
      fine := good && r;
    }
    ghost var mid := low.fs;
    ok := OutWhsrc(low, a, copied, fs0, fine);
    WithinTrans(was, mid, low.fs, a);
  }

  /** out_rename. */
  method OutRename(low: Lower, a: Args, aside: bool, bycpup: bool, ghost fs0: Fs, ghost good: bool)
    returns (ghost ok: bool)
    requires Ready(fs0, a) && Sound(low.fs, a) && aside == Aside(fs0, a) && bycpup == ByCpup(fs0, a)
    requires a.dst !in Ents(F3(fs0, a), a.k, a.ddir) && (good ==> low.fs == F4(fs0, a))
    modifies low
    ensures Sound(low.fs, a) && Within(old(low.fs), low.fs, a)
    ensures forall covered :: Stays(old(low.fs), a, covered) ==> Stays(low.fs, a, covered)
    ensures ok ==> good && low.fs == RolledBack(fs0, a, Copies(fs0, a)) && !(bycpup && a.isdir)
    ensures low.Used(old(low.faults), good && !ok && !(bycpup && a.isdir))
  {
    ghost var was := low.fs;
    BeforeMove(fs0, a);
    hide F1, F2, F3, F4, Within, Ready, RolledBack;
    var r := RevMove(low, a, bycpup, fs0);
    ghost var mid := low.fs;
    ok := OutWhtmp(low, a, aside, Copies(fs0, a), fs0, good && r);
    WithinTrans(was, mid, low.fs, a);
  }

  /** out_diropq. */
  method OutDiropq(low: Lower, a: Args, aside: bool, bycpup: bool, needOpq: bool, ghost fs0: Fs)
    returns (ghost ok: bool)
    requires Ready(fs0, a) && Sound(low.fs, a) && aside == Aside(fs0, a) && bycpup == ByCpup(fs0, a)
             && needOpq == NeedsOpq(fs0, a)
    requires a.dst !in Ents(F3(fs0, a), a.k, a.ddir) && low.fs == F5(fs0, a)
    modifies low
    ensures Sound(low.fs, a) && Within(old(low.fs), low.fs, a)
    ensures forall covered :: Stays(old(low.fs), a, covered) ==> Stays(low.fs, a, covered)
    ensures ok ==> low.fs == RolledBack(fs0, a, Copies(fs0, a)) && !(bycpup && a.isdir)
    ensures low.Used(old(low.faults), !ok && !(bycpup && a.isdir))
  {
    ghost var was, fine := low.fs, true;
    WithinSelf(was, a);
    if needOpq {
      var r := RevDiropq(low, a, fs0);
      fine := r;
    }
    ghost var mid := low.fs;
    hide F3, F4, F5, Within, Ready, RolledBack;
    ok := OutRename(low, a, aside, bycpup, fs0, fine);
    WithinTrans(was, mid, low.fs, a);
  }

  /** au_cpup_single for a file: made, then filled and given its attributes; taken away if that fails. */
  method CpupFile(low: Lower, k: nat, d: nat, name: string, e: Entry) returns (err: int, ghost stuck: bool)
    requires HasDir(low.fs, k, d) && e.File?
    modifies low
    ensures err == 0 ==> low.fs == SetEnt(old(low.fs), k, d, name, e) && !stuck && name !in Ents(old(low.fs), k, d)
    ensures err != 0 ==> err < 0 && low.fs == if stuck then SetEnt(old(low.fs), k, d, name, e) else old(low.fs)
    ensures low.Used(old(low.faults), err != 0 && name !in Ents(old(low.fs), k, d))
    ensures err == 0 ==> low.Unhurt(old(low.faults))
    ensures stuck ==> err != 0 && Left(low.faults) + 2 <= Left(old(low.faults))
  {
    stuck := false;
    ghost var was := low.fs;
    err := low.Create(k, d, name, e.data);
    if err != 0 { return; }
    SetUndone(was, k, d, name, e);
    hide SetEnt, DelEnt;
    var f := low.Fault();
    if f {
      err := -EIO;
      var rerr := low.Unlink(k, d, name);
      stuck := rerr != 0;
    }
  }

  /** The whiteout for the source. */
  method MakeWhsrc(low: Lower, a: Args) returns (err: int)
    requires Ready(low.fs, a)
    modifies low
    ensures Sound(low.fs, a) && Within(old(low.fs), low.fs, a)
    ensures if err == 0 then low.fs == F1(old(low.fs), a) else err < 0 && low.fs == old(low.fs)
    ensures low.Used(old(low.faults), err != 0)
    ensures err == 0 ==> low.Unhurt(old(low.faults))
    ensures Took(old(low.faults), low.faults, err, if a.whsrc then 1 else 0)
  {
    WithinSelf(low.fs, a);
    if !a.whsrc { return 0; }
    WithinSet(low.fs, a, a.sdir, Wh(a.src), File(0));
    err := low.Create(a.k, a.sdir, Wh(a.src), 0);
  }

  /** au_whtmp_ren and the lookup after it. */
  method PutAside(low: Lower, a: Args, ghost fs0: Fs) returns (err: int, moved: bool)
    requires Ready(fs0, a) && low.fs == F1(fs0, a) && Aside(fs0, a)
    modifies low
    ensures Sound(low.fs, a) && Within(old(low.fs), low.fs, a) && err <= 0
    ensures low.fs == (if moved then F2(fs0, a) else F1(fs0, a)) && (err == 0 ==> moved)
    ensures low.Used(old(low.faults), err != 0)
    ensures err == 0 ==> low.Unhurt(old(low.faults))
    ensures Took(old(low.faults), low.faults, err, 2)
  {
    Apart(a);
    WithinSelf(low.fs, a);
    WithinMove(low.fs, a, a.ddir, a.dst, a.ddir, Tmp(a));
    hide Within;
    moved := false;
    err := low.Rename(a.k, a.ddir, a.dst, a.ddir, Tmp(a));
    if err != 0 { return; }
    moved := true;
    var f := low.Fault();
    if f { err := -EIO; }
  }

  /** The source copied up under its own name. */
  method CopySrc(low: Lower, a: Args, ghost fs0: Fs) returns (err: int, ghost stuck: bool)
    requires Ready(fs0, a) && low.fs == F2(fs0, a) && Copies(fs0, a)
    modifies low
    ensures Sound(low.fs, a) && Within(old(low.fs), low.fs, a)
    ensures if err == 0 then low.fs == F3(fs0, a) else err < 0 && (!stuck ==> low.fs == F2(fs0, a))
    ensures low.Used(old(low.faults), err != 0)
    ensures err == 0 ==> low.Unhurt(old(low.faults))
    ensures stuck ==> Left(low.faults) + 2 <= Left(old(low.faults))
  {
    WithinSelf(low.fs, a);
    WithinSet(low.fs, a, a.sdir, a.src, a.e);
    hide Within, F2;
    err, stuck := CpupFile(low, a.k, a.sdir, a.src, a.e);
  }

  /** au_ren_or_cpup. */
  method RenOrCpup(low: Lower, a: Args, bycpup: bool, ghost fs0: Fs) returns (err: int, ghost stuck: bool)
    requires Ready(fs0, a) && low.fs == F3(fs0, a) && bycpup == ByCpup(fs0, a)
    modifies low
    ensures Sound(low.fs, a) && Within(old(low.fs), low.fs, a)
    ensures if err == 0 then low.fs == F4(fs0, a) else err < 0 && (!stuck ==> low.fs == F3(fs0, a))
    ensures low.Used(old(low.faults), err != 0 && Clean(fs0, a))
    ensures err == 0 ==> low.Unhurt(old(low.faults))
    ensures bycpup && a.isdir && Clean(fs0, a) ==> Took(old(low.faults), low.faults, err, 2)
    ensures stuck ==> Left(low.faults) + 2 <= Left(old(low.faults))
    ensures err == 0 && a.isdir && bycpup ==> a.ino !in fs0.br[a.k]
  {
    stuck := false;
    ghost var was := low.fs;
    BeforeMove(fs0, a);
    WithinSelf(was, a);
    if !bycpup {
      WithinMove(was, a, a.sdir, a.src, a.ddir, a.dst);
      hide Within, F3;
      err := low.Rename(a.k, a.sdir, a.src, a.ddir, a.dst);
    } else if a.isdir {
      WithinNewDir(was, a, a.attr);
      WithinNewDir(was, a, a.rough);
      hide Within, F3, NewDir;
      err, stuck := CopyUp.CpupSingle(low, a.k, a.ddir, a.dst, a.attr, a.rough, a.ino);
    } else {
      WithinSet(was, a, a.ddir, a.dst, a.e);
      hide Within, F3;
      err, stuck := CpupFile(low, a.k, a.ddir, a.dst, a.e);
    }
  }

  /** au_ren_diropq. */
  method MakeOpq(low: Lower, a: Args, needOpq: bool, ghost fs0: Fs) returns (err: int)
    requires Ready(fs0, a) && low.fs == F4(fs0, a) && needOpq == NeedsOpq(fs0, a)
    modifies low
    ensures Sound(low.fs, a) && Within(old(low.fs), low.fs, a)
    ensures if err == 0 then low.fs == F5(fs0, a) else err < 0 && low.fs == F4(fs0, a) && needOpq
    ensures low.Used(old(low.faults), err != 0)
    ensures err == 0 ==> low.Unhurt(old(low.faults))
    ensures needOpq && err == 0 ==> Calm(old(low.faults), 1)
  {
    WithinSelf(low.fs, a);
    if !needOpq { return 0; }
    WithinDir(low.fs, a, low.fs.br[a.k][MovedDir(a)].(opq := true));
    hide Within, F4;
    err := low.Mark(a.k, MovedDir(a), true);
  }

  /** The target's whiteout removed. */
  method RmWhdst(low: Lower, a: Args, whDst: bool, ghost fs0: Fs) returns (err: int)
    requires Ready(fs0, a) && low.fs == F5(fs0, a) && whDst == Unwhites(fs0, a)
    modifies low
    ensures Sound(low.fs, a) && Within(old(low.fs), low.fs, a)
    ensures if err == 0 then low.fs == F6(fs0, a) else err < 0 && low.fs == F5(fs0, a) && whDst
    ensures low.Used(old(low.faults), err != 0 && Clean(fs0, a))
    ensures err == 0 ==> low.Unhurt(old(low.faults))
  {
    WithinSelf(low.fs, a);
    if !whDst { return 0; }
    WithinSet(low.fs, a, a.ddir, Wh(a.dst), File(0));
    hide Within, F5;
    err := low.Unlink(a.k, a.ddir, Wh(a.dst));
  }

  /** The end of a successful rename: the directory put aside may or may not have been removed. */
  ghost predicate Finished(fs: Fs, gs: Fs, a: Args)
    requires Ready(fs, a)
  {
    && (gs == F6(fs, a) || (Aside(fs, a) && gs == DelEnt(F6(fs, a), a.k, a.ddir, Tmp(a))))
    && (a.isdir && a.bsrc != a.k ==> a.ino !in fs.br[a.k])
  }

  /** Nothing is left under the temporary name but what was put aside. */
  lemma TmpAtF6(fs: Fs, a: Args)
    requires Ready(fs, a) && (a.isdir && a.bsrc != a.k ==> a.ino !in fs.br[a.k])
    ensures Tmp(a) in Ents(F6(fs, a), a.k, a.ddir) <==> Aside(fs, a)
  {
    Apart(a);
  }

  /** au_ren_del_whtmp, whose failure is ignored: what was put aside is left only if it fails. */
  method DelWhtmp(low: Lower, a: Args, ghost fs0: Fs)
    requires Ready(fs0, a) && low.fs == F6(fs0, a) && Aside(fs0, a)
             && (a.isdir && a.bsrc != a.k ==> a.ino !in fs0.br[a.k])
    modifies low
    ensures Sound(low.fs, a) && Within(old(low.fs), low.fs, a) && Finished(fs0, low.fs, a)
    ensures low.Used(old(low.faults), false)
    ensures Tmp(a) in Ents(low.fs, a.k, a.ddir) <==> !low.Unhurt(old(low.faults))
  {
    WithinSelf(low.fs, a);
    WithinSet(low.fs, a, a.ddir, Tmp(a), File(0));
    TmpAtF6(fs0, a);
    var f := low.Fault();
    if !f { low.fs := DelEnt(low.fs, a.k, a.ddir, Tmp(a)); }
  }

  /** The first steps of do_rename: the source's whiteout, and whether the target has one. */
  method Whiteouts(low: Lower, a: Args) returns (err: int, whDst: bool, ghost ok: bool)
    requires Ready(low.fs, a)
    modifies low
    ensures Sound(low.fs, a) && Within(old(low.fs), low.fs, a) && err <= 0
    ensures err == 0 ==> low.fs == F1(old(low.fs), a) && whDst == Unwhites(old(low.fs), a)
    ensures err != 0 && ok ==> low.fs == old(low.fs)
    ensures low.Used(old(low.faults), err != 0)
    ensures err == 0 ==> low.Unhurt(old(low.faults))
    ensures Took(old(low.faults), low.faults, err, WhSteps(a))
    ensures err != 0 && !ok ==> Left(low.faults) + 2 <= Left(old(low.faults))
  {
    ghost var fs0 := low.fs;
    WhdstKept(fs0, a);
    whDst, ok := false, true;
    err := MakeWhsrc(low, a);
    if err != 0 || !a.whdst { return; }
    hide F1, Within, Ready, RolledBack;
    ghost var fs1 := low.fs;
    var f := low.Fault();
    if f {
      ok := OutWhsrc(low, a, false, fs0, true);
      WithinTrans(fs0, fs1, low.fs, a);
      return -EIO, whDst, ok;
    }
    whDst := Wh(a.dst) in low.fs.br[a.k][a.ddir].ents;
  }

  /** The next ones: the target directory put aside, or the source copied up. */
  method Clear(low: Lower, a: Args, aside: bool, ghost fs0: Fs) returns (err: int, ghost ok: bool)
    requires Ready(fs0, a) && low.fs == F1(fs0, a) && aside == Aside(fs0, a)
    modifies low
    ensures Sound(low.fs, a) && Within(old(low.fs), low.fs, a) && err <= 0
    ensures err == 0 ==> low.fs == F3(fs0, a)
    ensures err != 0 && ok ==> low.fs == fs0
    ensures low.Used(old(low.faults), err != 0)
    ensures err == 0 ==> low.Unhurt(old(low.faults))
    ensures a.isdir ==> Took(old(low.faults), low.faults, err, if aside then 2 else 0)
    ensures err != 0 && !ok ==> Left(low.faults) + 2 <= Left(old(low.faults))
  {
    ghost var fs1 := low.fs;
    WithinSelf(fs1, a);
    WhdstKept(fs0, a);
    BeforeMove(fs0, a);
    err, ok := 0, true;
    hide F1, F2, F3, Within, Ready, RolledBack;
    if aside {
      var moved;
      err, moved := PutAside(low, a, fs0);
      ghost var fs2 := low.fs;
      if err != 0 {
        if moved { ok := OutWhtmp(low, a, true, false, fs0, true); } else { ok := OutWhsrc(low, a, false, fs0, true); }
        WithinTrans(fs1, fs2, low.fs, a);
      }
    } else if a.dst in low.fs.br[a.k][a.ddir].ents && a.bsrc != a.k {
      ghost var stuck;
      err, stuck := CopySrc(low, a, fs0);
      ghost var fs3 := low.fs;
      if err != 0 {
        ok := OutWhtmp(low, a, aside, false, fs0, !stuck);
        WithinTrans(fs1, fs3, low.fs, a);
      }
    }
  }

  /** The first half of do_rename. */
  method Prepare(low: Lower, a: Args, nomem: bool) returns (err: int, aside: bool, whDst: bool, ghost ok: bool)
    requires Ready(low.fs, a)
    modifies low
    ensures Sound(low.fs, a) && Within(old(low.fs), low.fs, a) && err <= 0
    ensures err == 0 ==>
              low.fs == F3(old(low.fs), a) && aside == Aside(old(low.fs), a)
              && whDst == Unwhites(old(low.fs), a)
    ensures err != 0 && ok ==> low.fs == old(low.fs)
    ensures low.Used(old(low.faults), err != 0 && !nomem)
    ensures err == 0 ==> low.Unhurt(old(low.faults))
    ensures a.isdir && !nomem ==> Took(old(low.faults), low.faults, err,
                WhSteps(a) + if Aside(old(low.fs), a) then 2 else 0)
    ensures err != 0 && !ok ==> Left(low.faults) + 2 <= Left(old(low.faults))
  {
    ghost var fs0 := low.fs;
    WithinSelf(fs0, a);
    aside, whDst, ok := a.isdir && a.dst in low.fs.br[a.k][a.ddir].ents, false, true;
    if aside && nomem { return -ENOMEM, aside, whDst, ok; }
    ghost var m := if aside then 2 else 0;
    hide F1, F3, Within, Ready, Took, WhSteps, RolledBack;
    ghost var was := low.faults;
    err, whDst, ok := Whiteouts(low, a);
    ghost var fs1, mid, e1 := low.fs, low.faults, err;
    TookBoth(was, mid, mid, e1, 0, WhSteps(a), m);
    if err != 0 { return; }
    err, ok := Clear(low, a, aside, fs0);
    if a.isdir { TookBoth(was, mid, low.faults, e1, err, WhSteps(a), m); }
    WithinTrans(fs0, fs1, low.fs, a);
  }

  lemma WhdstKept(fs: Fs, a: Args)
    requires Ready(fs, a)
    ensures Wh(a.dst) in Ents(F1(fs, a), a.k, a.ddir) <==> Wh(a.dst) in Ents(fs, a.k, a.ddir)
    ensures a.dst in Ents(F2(fs, a), a.k, a.ddir) <==> !a.isdir && a.dst in Ents(fs, a.k, a.ddir)
    ensures RolledBack(fs, a, false) == fs
  {
    Apart(a);
  }

  /** The last steps: the directory marked, the target's whiteout removed, what was put aside deleted. */
  method Seal(low: Lower, a: Args, aside: bool, bycpup: bool, needOpq: bool, whDst: bool, ghost fs0: Fs)
    returns (err: int, ghost ok: bool)
    requires Ready(fs0, a) && low.fs == F4(fs0, a) && aside == Aside(fs0, a) && whDst == Unwhites(fs0, a)
    requires bycpup == ByCpup(fs0, a) && needOpq == NeedsOpq(fs0, a)
    requires needOpq || whDst ==> a.dst !in Ents(F3(fs0, a), a.k, a.ddir)
    requires a.isdir && bycpup ==> a.ino !in fs0.br[a.k]
    modifies low
    ensures Sound(low.fs, a) && Within(old(low.fs), low.fs, a) && err <= 0
    ensures err == 0 ==> Finished(fs0, low.fs, a)
    ensures err != 0 && bycpup && a.isdir ==> Stays(low.fs, a, Wh(a.dst) in Ents(fs0, a.k, a.ddir))
    ensures err != 0 && ok ==> low.fs == RolledBack(fs0, a, Copies(fs0, a))
    ensures low.Used(old(low.faults), err != 0 && Clean(fs0, a))
    ensures err == 0 ==> (Tmp(a) in Ents(low.fs, a.k, a.ddir) <==> !low.Unhurt(old(low.faults)))
    ensures err != 0 && !ok && Clean(fs0, a) ==> Left(low.faults) + 2 <= Left(old(low.faults)) || (bycpup && a.isdir)
    ensures (err != 0 ==> needOpq || whDst) && (needOpq && err == 0 ==> Calm(old(low.faults), 1))
  {
    ghost var fs4 := low.fs;
    if bycpup && a.isdir { MadeStays(fs0, a); }
    hide F3, F4, F5, F6, Within, RolledBack, Stays;
    ok := true;
    err := MakeOpq(low, a, needOpq, fs0);
    ghost var fs5 := low.fs;
    if err != 0 {
      ok := OutRename(low, a, aside, bycpup, fs0, true);
      WithinTrans(fs4, fs5, low.fs, a);
      return;
    }
    err := RmWhdst(low, a, whDst, fs0);
    ghost var fs6 := low.fs;
    TmpAtF6(fs0, a);
    WithinTrans(fs4, fs5, fs6, a);
    if err != 0 {
      ok := OutDiropq(low, a, aside, bycpup, needOpq, fs0);
    } else if aside {
      DelWhtmp(low, a, fs0);
    }
    WithinSelf(fs6, a);
    WithinTrans(fs4, fs6, low.fs, a);
  }

  /** The second half of do_rename. */
  method Finish(low: Lower, a: Args, aside: bool, whDst: bool, ghost fs0: Fs)
    returns (err: int, ghost ok: bool, ghost copied: bool)
    requires Ready(fs0, a) && low.fs == F3(fs0, a) && aside == Aside(fs0, a) && whDst == Unwhites(fs0, a)
    modifies low
    ensures Sound(low.fs, a) && Within(old(low.fs), low.fs, a) && err <= 0
    ensures err == 0 ==> Finished(fs0, low.fs, a)
    ensures err != 0 && ok ==> copied == Copies(fs0, a) && low.fs == RolledBack(fs0, a, copied)
    ensures low.Used(old(low.faults), err != 0 && Clean(fs0, a))
    ensures err == 0 ==> (Tmp(a) in Ents(low.fs, a.k, a.ddir) <==> !low.Unhurt(old(low.faults)))
    ensures err != 0 && !ok && Clean(fs0, a) ==>
              Left(low.faults) + 2 <= Left(old(low.faults))
                  || (a.isdir && a.bsrc != a.k && NeedsOpq(fs0, a) && Calm(old(low.faults), 2))
    ensures err != 0 && Clean(fs0, a) && a.isdir && a.bsrc != a.k && Calm(old(low.faults), 2) ==>
            Stays(low.fs, a, Wh(a.dst) in Ents(fs0, a.k, a.ddir))
    ensures err == 0 && Clean(fs0, a) && a.isdir && a.bsrc != a.k && NeedsOpq(fs0, a) ==> Calm(old(low.faults), 3)
  {
    var needOpq := a.isdir && (whDst || a.dstOpq || a.k < a.dbend || a.always) && !(a.bsrc == a.k && a.srcOpq);
    ghost var fs3 := low.fs;
    var bycpup := a.bsrc != a.k && (a.isdir || a.dst !in low.fs.br[a.k][a.ddir].ents);
    copied := Copies(fs0, a);
    CalmSplit(low.faults, 2, 1);
    BeforeMove(fs0, a);
    assert needOpq == NeedsOpq(fs0, a) && (needOpq || whDst ==> a.dst !in Ents(F3(fs0, a), a.k, a.ddir));
    assert bycpup == ByCpup(fs0, a);
    hide F3, F4, Within, RolledBack, Finished;
    ghost var stuck;
    err, stuck := RenOrCpup(low, a, bycpup, fs0);
    ghost var fs4 := low.fs;
    if err != 0 {
      ok := OutWhtmp(low, a, aside, copied, fs0, !stuck);
    } else {
      err, ok := Seal(low, a, aside, bycpup, needOpq, whDst, fs0);
    }
    WithinTrans(fs3, fs4, low.fs, a);
  }

  /**
   do_rename.  It ends with every step done, what was put aside being left exactly if deleting it failed; or it
   fails, and then, if every step back worked, the branches are as before, the source possibly copied up.  In
   any case only the names involved have changed.  It fails only if the lower filesystem did, and a step back
   fails only if it did twice, unless the failure comes after a directory has been made, which then stays.
   */
  method DoRename(low: Lower, a: Args, nomem: bool) returns (err: int, ghost ok: bool, ghost copied: bool)
    requires Ready(low.fs, a)
    modifies low
    ensures Within(old(low.fs), low.fs, a) && err <= 0
    ensures err == 0 ==> Finished(old(low.fs), low.fs, a)
    ensures err != 0 && ok ==> (copied ==> Copies(old(low.fs), a)) && low.fs == RolledBack(old(low.fs), a, copied)
    ensures low.Used(old(low.faults), err != 0 && !nomem && Clean(old(low.fs), a))
    ensures err == 0 ==> (Tmp(a) in Ents(low.fs, a.k, a.ddir) <==> !low.Unhurt(old(low.faults)))
    ensures err != 0 && !ok && Clean(old(low.fs), a) && !nomem ==>
              Left(low.faults) + 2 <= Left(old(low.faults)) || Stranded(old(low.fs), a, old(low.faults))
    ensures err != 0 && Clean(old(low.fs), a) && !nomem && Stranded(old(low.fs), a, old(low.faults)) ==>
              Stays(low.fs, a, Wh(a.dst) in Ents(old(low.fs), a.k, a.ddir))
    ensures Clean(old(low.fs), a) && !nomem && Stranded(old(low.fs), a, old(low.faults)) && err == 0 ==>
              Calm(old(low.faults), ToMkdir(old(low.fs), a) + 1)
  {
    hide F3, Within, Finished, RolledBack, Copies, NeedsOpq, WhSteps;
    ghost var fs0, was := low.fs, low.faults;
    NotCopied(fs0, a);
    var aside, whDst;
    copied := false;
    err, aside, whDst, ok := Prepare(low, a, nomem);
    ghost var n := WhSteps(a) + if Aside(fs0, a) then 2 else 0;
    CalmSplit(was, n, 2);
    CalmSplit(was, n, 3);
    if err == 0 {
      ghost var fs3 := low.fs;
      err, ok, copied := Finish(low, a, aside, whDst, fs0);
      WithinTrans(fs0, fs3, low.fs, a);
    }
  }
}
