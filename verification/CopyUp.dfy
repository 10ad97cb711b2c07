/** Copying the missing ancestor directories of a file up to another branch (cpup.c). */
module CopyUp {

  import opened Errno
  import opened Names
  import opened UnionFs
  import opened LowerFs

  /** Entries of subdirectories and the roots name directories that exist. */
  ghost predicate NoDangling(fs: Fs, root: Stack) {
    && |root| == |fs.br| == |fs.wh|
    && (forall i :: 0 <= i < |root| && root[i].Some? ==> root[i].value in fs.br[i])
    && (forall i, d, key ::
          0 <= i < |fs.br| && d in fs.br[i] && key in fs.br[i][d].ents && fs.br[i][d].ents[key].SubDir? ==>
            fs.br[i][d].ents[key].ino in fs.br[i])
  }

  /** Names a user can reach something by; the empty path is the root. */
  predicate Walkable(path: seq<string>) {
    forall i :: 0 <= i < |path| ==> UserName(path[i])
  }

  /** A directory of branch k is reached by one path only. */
  ghost predicate Tree(fs: Fs, root: Stack, k: nat)
    requires |root| == |fs.br| == |fs.wh| && k < |root|
  {
    forall p, q ::
      Walkable(p) && Walkable(q) && Walk(fs, root, p)[k].Some? && Walk(fs, root, p)[k] == Walk(fs, root, q)[k] ==>
        p == q
  }

  lemma {:induction false} WalkExists(fs: Fs, root: Stack, path: seq<string>, i: nat)
    requires NoDangling(fs, root) && i < |root|
    ensures Walk(fs, root, path)[i].Some? ==> Walk(fs, root, path)[i].value in fs.br[i]
  {
    if path != [] && Walk(fs, root, path)[i].Some? {
      var n := |path| - 1;
      var st := Walk(fs, root, path[..n]);
      FoundSeen(fs, st, path[n], i);
    }
  }

  /** A search that finds a directory goes the same way whether or not it knows about one already. */
  lemma {:induction false} MergingOrLooking(s: seq<Sight>, j: nat)
    requires j < |s| && Merge(s, Looking)[j].Some? && Merge(s, Looking)[j].value.SubDir?
    ensures Merge(s, Merging) == Merge(s, Looking)
  {
    if j > 0 {
      if After(s[0], Looking) == Done { DoneFindsNothing(s[1..], j - 1); }
      if s[0] == Nothing { MergingOrLooking(s[1..], j - 1); }
    }
  }

  lemma {:induction false} DoneFindsNothing(s: seq<Sight>, j: nat)
    requires j < |s|
    ensures Merge(s, Done)[j].None?
  {
    if j > 0 { DoneFindsNothing(s[1..], j - 1); }
  }

  /** A directory put where nothing was seen, above one that is found, is found too and changes nothing else. */
  lemma {:induction false} MergeInsert(s: seq<Sight>, ph: Phase, k: nat, j: nat, ino: nat)
    requires k < j < |s| && s[k] == Nothing && Merge(s, ph)[j].Some? && Merge(s, ph)[j].value.SubDir?
    ensures Merge(s[k := Is(SubDir(ino), false)], ph) == Merge(s, ph)[k := Some(SubDir(ino))]
  {
    var t := s[k := Is(SubDir(ino), false)];
    if k == 0 {
      if ph == Done { DoneFindsNothing(s[1..], j - 1); }
      if ph == Looking { MergingOrLooking(s[1..], j - 1); }
      assert t[1..] == s[1..];
    } else {
      MergeInsert(s[1..], After(s[0], ph), k - 1, j - 1, ino);
      assert t[1..] == s[1..][k - 1 := Is(SubDir(ino), false)];
    }
  }

  /** Making a directory changes a name of its parent and the directory itself. */
  lemma NewDirDiffers(fs: Fs, k: nat, d: nat, name: string, ino: nat, attr: nat)
    requires HasDir(fs, k, d) && ino !in fs.br[k] && UserName(name)
    ensures Differ(fs, NewDir(fs, k, d, name, ino, attr), k, {(d, name)}, {ino})
  {
    var E := {(d, name)};
    assert EdgesOk(E) by {
      forall x: nat, n: string | UserName(n) ensures (x, Wh(n)) !in E { WhNotUser(n); }
    }
    var gs := NewDir(fs, k, d, name, ino, attr);
    forall x | x in fs.br[k] && x != ino ensures DirDiffers(fs.br[k][x], gs.br[k][x], E, x) {}
  }

  /** What the new directory needs: the name is free, and a directory of it is found in a lower branch. */
  ghost predicate Place(fs: Fs, st: Stack, k: nat, j: nat, d: nat, name: string, ino: nat) {
    && |st| == |fs.br| == |fs.wh| && k < j < |st| && st[k] == Some(d) && HasDir(fs, k, d) && ino !in fs.br[k]
    && UserName(name) && name !in Ents(fs, k, d)
    && Dirs(Found(fs, st, name))[j].Some?
  }

  /** In its own parent the new directory joins what is found. */
  lemma FoundInParent(fs: Fs, st: Stack, k: nat, j: nat, d: nat, name: string, ino: nat, attr: nat)
    requires Place(fs, st, k, j, d, name, ino)
    ensures Found(NewDir(fs, k, d, name, ino, attr), st, name) == Found(fs, st, name)[k := Some(SubDir(ino))]
    ensures Found(fs, st, name)[k].None?
  {
    var gs := NewDir(fs, k, d, name, ino, attr);
    var s := Sights(fs, st, name);
    if s[k] == White { WhiteEnds(s, Looking, k, j); }
    assert s[k] == Nothing;
    WhNotUser(name);
    assert Sights(gs, st, name) == s[k := Is(SubDir(ino), false)];
    MergeInsert(s, Looking, k, j, ino);
    if Found(fs, st, name)[k].Some? { MergeTakes(s, Looking, k); }
  }

  lemma {:induction false} WhiteEnds(s: seq<Sight>, ph: Phase, k: nat, j: nat)
    requires k < j < |s| && s[k] == White
    ensures Merge(s, ph)[j].None?
  {
    if k == 0 { DoneFindsNothing(s[1..], j - 1); } else { WhiteEnds(s[1..], After(s[0], ph), k - 1, j - 1); }
  }

  /** Below itself the new directory, being empty, changes nothing. */
  lemma FoundBelow(fs: Fs, st: Stack, k: nat, d: nat, name: string, ino: nat, attr: nat, m: string)
    requires |st| == |fs.br| == |fs.wh| && k < |st| && st[k].None? && HasDir(fs, k, d) && ino !in fs.br[k]
    ensures Found(NewDir(fs, k, d, name, ino, attr), st[k := Some(ino)], m) == Found(fs, st, m)
  {
    var gs := NewDir(fs, k, d, name, ino, attr);
    assert Sights(gs, st[k := Some(ino)], m) == Sights(fs, st, m);
  }

  /** Making directory ino for the name in the directory d that the path pp leads to in branch k. */
  ghost predicate Making(fs: Fs, root: Stack, k: nat, j: nat, pp: seq<string>, d: nat, name: string, ino: nat) {
    && NoDangling(fs, root) && k < |root| && Tree(fs, root, k) && Walkable(pp)
    && Place(fs, Walk(fs, root, pp), k, j, d, name, ino)
  }

  /** Then every search finds what it found, but for the new directory's own name, which gains it. */
  lemma {:induction false} FoundAfter(fs: Fs, root: Stack, k: nat, j: nat, pp: seq<string>, d: nat, name: string,
                                ino: nat, attr: nat,
                                      q: seq<string>, m: string)
    requires Making(fs, root, k, j, pp, d, name, ino) && Walkable(q) && UserName(m)
    ensures var gs, f := NewDir(fs, k, d, name, ino, attr), Found(fs, Walk(fs, root, q), m);
            Found(gs, Walk(gs, root, q), m) == if q == pp && m == name then f[k := Some(SubDir(ino))] else f
    decreases |q|, 1
  {
    var gs := NewDir(fs, k, d, name, ino, attr);
    var st := Walk(fs, root, q);
    WalkAfter(fs, root, k, j, pp, d, name, ino, attr, q);
    hide Walk, Tree, NewDir, Merge;
    if q == pp + [name] {
      FoundBelow(fs, st, k, d, name, ino, attr, m);
    } else if q == pp && m == name {
      FoundInParent(fs, st, k, j, d, name, ino, attr);
    } else {
      OtherName(fs, root, k, pp, d, name, ino, q, m);
      NewDirDiffers(fs, k, d, name, ino, attr);
      SeeSame(fs, gs, st, m, k, {(d, name)}, {ino});
    }
  }

  lemma OtherName(fs: Fs, root: Stack, k: nat, pp: seq<string>, d: nat, name: string, ino: nat, q: seq<string>,
                  m: string)
    requires NoDangling(fs, root) && k < |root| && Tree(fs, root, k) && Walkable(pp) && Walkable(q)
    requires Walk(fs, root, pp)[k] == Some(d) && ino !in fs.br[k] && !(q == pp && m == name)
    ensures var st := Walk(fs, root, q);
            (st[k].Some? ==> (st[k].value, m) !in {(d, name)} && st[k].value !in {ino})
                && ChildOutside(fs, st, m, k, {ino})
  {
    WalkExists(fs, root, q, k);
  }

  lemma WalkStep(fs: Fs, root: Stack, q: seq<string>)
    requires |root| == |fs.br| == |fs.wh| && q != []
    ensures Walk(fs, root, q) == Dirs(Found(fs, Walk(fs, root, q[..|q| - 1]), q[|q| - 1]))
  {
  }

  lemma {:induction false} WalkAfter(fs: Fs, root: Stack, k: nat, j: nat, pp: seq<string>, d: nat, name: string,
                                ino: nat, attr: nat,
                                     q: seq<string>)
    requires Making(fs, root, k, j, pp, d, name, ino) && Walkable(q)
    ensures var gs, st := NewDir(fs, k, d, name, ino, attr), Walk(fs, root, q);
            Walk(gs, root, q) == if q == pp + [name] then st[k := Some(ino)] else st
    ensures q == pp + [name] ==> Walk(fs, root, q)[k].None?
    decreases |q|, 0
  {
    if q != [] {
      var n := |q| - 1;
      var gs := NewDir(fs, k, d, name, ino, attr);
      assert q == q[..n] + [q[n]];
      WalkStep(fs, root, q);
      WalkStep(gs, root, q);
      hide Walk, NewDir, Tree, Place, Merge, NoDangling;
      FoundAfter(fs, root, k, j, pp, d, name, ino, attr, q[..n], q[n]);
      if q == pp + [name] {
        assert q[..n] == pp;
        FoundInParent(fs, Walk(fs, root, pp), k, j, d, name, ino, attr);
      }
    }
  }

  /** A directory found above another one shows the same if it has that one's attributes. */
  lemma {:induction false} ShowInsert(b: seq<Branch>, c: seq<Branch>, f: seq<Option<Entry>>, k: nat, j: nat, e: Entry)
    requires |b| == |c| == |f| && k < j < |f| && f[j].Some? && forall i :: k <= i < j ==> f[i].None?
    requires ShowEntry(c[k], e) == ShowEntry(b[j], f[j].value)
    requires forall i :: 0 <= i < k && f[i].Some? ==> ShowEntry(c[i], f[i].value) == ShowEntry(b[i], f[i].value)
    ensures Show(c, f[k := Some(e)]) == Show(b, f)
  {
    var g := f[k := Some(e)];
    if k > 0 {
      assert g[1..] == f[1..][k - 1 := Some(e)];
      if f[0].None? { ShowInsert(b[1..], c[1..], f[1..], k - 1, j - 1, e); }
    } else {
      ShowSkips(b, f, j);
    }
  }

  lemma {:induction false} ShowSkips(b: seq<Branch>, f: seq<Option<Entry>>, j: nat)
    requires |b| == |f| && j < |f| && f[j].Some? && forall i :: 0 <= i < j ==> f[i].None?
    ensures Show(b, f) == ShowEntry(b[j], f[j].value)
  {
    if j > 0 { ShowSkips(b[1..], f[1..], j - 1); }
  }

  /** j is the branch a copy is taken from: the first below k that has the directory. */
  ghost predicate Donor(fs: Fs, st: Stack, k: nat, j: nat, name: string, attr: nat) {
    && |st| == |fs.br| == |fs.wh| && k < j < |st|
    && var h := Dirs(Found(fs, st, name));
       && (forall i :: k < i < j ==> h[i].None?)
       && h[j].Some? && h[j].value in fs.br[j] && fs.br[j][h[j].value].attr == attr
  }

  /** No path shows anything else after a directory was copied up with its attributes. */
  lemma CopyInvisible(fs: Fs, root: Stack, k: nat, j: nat, pp: seq<string>, d: nat, name: string, ino: nat, attr: nat,
                      q: seq<string>)
    requires Making(fs, root, k, j, pp, d, name, ino) && UserPath(q)
    requires Donor(fs, Walk(fs, root, pp), k, j, name, attr)
    ensures View(NewDir(fs, k, d, name, ino, attr), root, q) == View(fs, root, q)
  {
    var gs, n := NewDir(fs, k, d, name, ino, attr), |q| - 1;
    var st := Walk(fs, root, q[..n]);
    var f := Found(fs, st, q[n]);
    ViewWalk(fs, root, q);
    ViewWalk(gs, root, q);
    FoundAfter(fs, root, k, j, pp, d, name, ino, attr, q[..n], q[n]);
    StillShown(fs, root, k, d, name, ino, attr, st, q[n]);
    hide View, Walk, Tree, Merge, NoDangling;
    if q[..n] == pp && q[n] == name {
      FoundInParent(fs, st, k, j, d, name, ino, attr);
      DonorFirst(fs, st, k, j, name, attr);
      ShowInsert(fs.br, gs.br, f, k, j, SubDir(ino));
    } else {
      ShowSame(fs.br, gs.br, f);
    }
  }

  lemma StillShown(fs: Fs, root: Stack, k: nat, d: nat, name: string, ino: nat, attr: nat, st: Stack, m: string)
    requires NoDangling(fs, root) && HasDir(fs, k, d) && ino !in fs.br[k] && |st| == |root|
    ensures var gs, f := NewDir(fs, k, d, name, ino, attr), Found(fs, st, m);
            forall i :: 0 <= i < |f| && f[i].Some? ==>
                ShowEntry(gs.br[i], f[i].value) == ShowEntry(fs.br[i], f[i].value)
  {
    var gs, f := NewDir(fs, k, d, name, ino, attr), Found(fs, st, m);
    forall i | 0 <= i < |f| && f[i].Some? ensures ShowEntry(gs.br[i], f[i].value) == ShowEntry(fs.br[i], f[i].value) {
      FoundSeen(fs, st, m, i);
    }
  }

  /** Between the new directory and its donor nothing is found, as a file would end the search. */
  lemma DonorFirst(fs: Fs, st: Stack, k: nat, j: nat, name: string, attr: nat)
    requires Donor(fs, st, k, j, name, attr) && Found(fs, st, name)[k].None?
    ensures var f := Found(fs, st, name);
            && f[j].Some? && ShowEntry(fs.br[j], f[j].value) == ShownDir(attr)
            && forall i :: k <= i < j ==> f[i].None?
  {
    var s := Sights(fs, st, name);
    forall i | k < i < j ensures Found(fs, st, name)[i].None? {
      assert Dirs(Found(fs, st, name))[i].None?;
      if Found(fs, st, name)[i].Some? { FileAlone(s, Looking, i, j); }
    }
  }

  lemma {:induction false} FileAlone(s: seq<Sight>, ph: Phase, i: nat, j: nat)
    requires i < j < |s| && Merge(s, ph)[i].Some? && Merge(s, ph)[j].Some?
    ensures Merge(s, ph)[i].value.SubDir?
  {
    if i > 0 {
      FileAlone(s[1..], After(s[0], ph), i - 1, j - 1);
    } else if s[0].e.File? {
      DoneFindsNothing(s[1..], j - 1);
    }
  }

  /** The directory tree stays one. */
  lemma StillTree(fs: Fs, root: Stack, k: nat, j: nat, pp: seq<string>, d: nat, name: string, ino: nat, attr: nat)
    requires Making(fs, root, k, j, pp, d, name, ino)
    ensures var gs := NewDir(fs, k, d, name, ino, attr); NoDangling(gs, root) && Tree(gs, root, k)
  {
    var gs := NewDir(fs, k, d, name, ino, attr);
    forall p, q | Walkable(p) && Walkable(q) && Walk(gs, root, p)[k].Some?
        && Walk(gs, root, p)[k] == Walk(gs, root, q)[k]
      ensures p == q
    {
      WalkAfter(fs, root, k, j, pp, d, name, ino, attr, p);
      WalkAfter(fs, root, k, j, pp, d, name, ino, attr, q);
      WalkExists(fs, root, p, k);
      WalkExists(fs, root, q, k);
    }
  }

  /** Every path a user can name shows the same. */
  ghost predicate SameView(fs: Fs, gs: Fs, root: Stack)
    requires |root| == |fs.br| == |fs.wh| && |root| == |gs.br| == |gs.wh|
  {
    forall q :: UserPath(q) ==> View(gs, root, q) == View(fs, root, q)
  }

  /** The ancestors' stacks are what the path leads to, and branch src, below k, has all of them. */
  ghost predicate Follows(fs: Fs, root: Stack, path: seq<string>, h: seq<Stack>, k: nat, src: nat) {
    && NoDangling(fs, root) && k < src < |root| && Tree(fs, root, k) && Walkable(path)
    && |h| == |path| + 1 && root[k].Some?
    && forall i :: 0 <= i < |h| ==> h[i] == Walk(fs, root, path[..i]) && h[i][src].Some?
  }

  /** What the copy of ancestor dth makes of them. */
  lemma Copied(fs: Fs, root: Stack, path: seq<string>, h: seq<Stack>, k: nat, src: nat, j: nat, dth: nat, ino: nat,
               attr: nat)
    requires Follows(fs, root, path, h, k, src) && 0 < dth < |h| && k < j <= src
    requires h[dth - 1][k].Some? && h[dth][k].None? && ino !in fs.br[k]
    requires HasDir(fs, k, h[dth - 1][k].value) && path[dth - 1] !in Ents(fs, k, h[dth - 1][k].value)
    requires Donor(fs, h[dth - 1], k, j, path[dth - 1], attr)
    ensures var gs := NewDir(fs, k, h[dth - 1][k].value, path[dth - 1], ino, attr);
            && Follows(gs, root, path, h[dth := h[dth][k := Some(ino)]], k, src)
            && SameView(fs, gs, root)
  {
    var pp, name, d := path[..dth - 1], path[dth - 1], h[dth - 1][k].value;
    var gs := NewDir(fs, k, d, name, ino, attr);
    assert path[..dth] == pp + [name] && path[..dth][..dth - 1] == pp;
    assert Making(fs, root, k, j, pp, d, name, ino);
    hide View, Walk, Tree, NewDir, Making, Donor;
    StillTree(fs, root, k, j, pp, d, name, ino, attr);
    forall i | 0 <= i < |h|
      ensures h[dth := h[dth][k := Some(ino)]][i] == Walk(gs, root, path[..i])
    {
      WalkAfter(fs, root, k, j, pp, d, name, ino, attr, path[..i]);
      assert |path[..i]| == i;
    }
    forall q | UserPath(q) ensures View(gs, root, q) == View(fs, root, q) {
      CopyInvisible(fs, root, k, j, pp, d, name, ino, attr, q);
    }
  }

  lemma DonorIs(fs: Fs, root: Stack, path: seq<string>, h: seq<Stack>, k: nat, src: nat, j: nat, dth: nat)
    requires Follows(fs, root, path, h, k, src) && 0 < dth < |h| && k < j <= src
    requires h[dth][j].Some? && forall i :: k < i < j ==> h[dth][i].None?
    ensures h[dth][j].value in fs.br[j]
    ensures Donor(fs, h[dth - 1], k, j, path[dth - 1], fs.br[j][h[dth][j].value].attr)
  {
    assert path[..dth][..dth - 1] == path[..dth - 1];
    WalkExists(fs, root, path[..dth], j);
  }

  lemma NewDirUndone(fs: Fs, k: nat, d: nat, name: string, ino: nat, attr: nat)
    requires HasDir(fs, k, d) && name !in Ents(fs, k, d) && ino !in fs.br[k]
    ensures NoDir(NewDir(fs, k, d, name, ino, attr), k, d, name) == fs
  {
    var gs := NewDir(fs, k, d, name, ino, attr);
    var hs := NoDir(gs, k, d, name);
    assert DelEnt(gs, k, d, name).br[k][d].ents == fs.br[k][d].ents;
    assert hs.br[k] == fs.br[k];
    assert hs.br == fs.br;
  }

  lemma NewDirAttr(fs: Fs, k: nat, d: nat, name: string, ino: nat, rough: nat, attr: nat)
    requires HasDir(fs, k, d)
    ensures var gs := NewDir(fs, k, d, name, ino, rough);
            WithDir(gs, k, ino, gs.br[k][ino].(attr := attr)) == NewDir(fs, k, d, name, ino, attr)
  {
    var gs := NewDir(fs, k, d, name, ino, rough);
    var hs := WithDir(gs, k, ino, gs.br[k][ino].(attr := attr));
    assert hs.br[k] == NewDir(fs, k, d, name, ino, attr).br[k];
    assert hs.br == NewDir(fs, k, d, name, ino, attr).br;
  }

  /**
   au_cpup_single for a directory: made with rough attributes, which are then set; if that fails the
   directory is taken away again, unless that fails too.
   */
  method CpupSingle(low: Lower, k: nat, d: nat, name: string, attr: nat, rough: nat, ino: nat)
    returns (err: int, ghost stuck: bool)
    requires HasDir(low.fs, k, d)
    modifies low
    ensures err == 0 ==> low.fs == NewDir(old(low.fs), k, d, name, ino, attr) && !stuck
    ensures err == 0 ==> ino !in old(low.fs.br[k]) && name !in Ents(old(low.fs), k, d)
    ensures err != 0 ==> err < 0 && (if stuck then low.fs ==
                NewDir(old(low.fs), k, d, name, ino, rough) else low.fs == old(low.fs))
    ensures low.Used(old(low.faults), err != 0 && name !in Ents(old(low.fs), k, d) && ino !in old(low.fs.br[k]))
    ensures stuck ==> Left(low.faults) + 2 <= Left(old(low.faults))
    ensures err == 0 ==> Calm(old(low.faults), 2) && low.faults == Drop(old(low.faults), 2)
    ensures err == 0 ==> low.Unhurt(old(low.faults))
    ensures name !in Ents(old(low.fs), k, d) && ino !in old(low.fs.br[k]) && Calm(old(low.faults), 2) ==> err == 0
  {
    stuck := false;
    CalmSplit(low.faults, 1, 1);
    ghost var was := low.fs;
    err := low.Mkdir(k, d, name, rough, ino);
    if err != 0 { return; }
    NewDirAttr(was, k, d, name, ino, rough, attr);
    NewDirUndone(was, k, d, name, ino, rough);
    assert Removable(low.fs, k, d, name);
    hide NewDir, NoDir, WithDir, Removable;
    err := low.SetAttr(k, ino, attr);
    if err != 0 {
      var rerr := low.Rmdir(k, d, name);
      if rerr != 0 { return -EIO, true; }
    }
  }

  /** The dentries from the root down to the parent of what is to be copied. */
  class Ancestors {
    const root: Stack
    const path: seq<string>
    var h: seq<Stack>

    constructor (r: Stack, p: seq<string>, stacks: seq<Stack>)
      ensures root == r && path == p && h == stacks
    {
      root, path, h := r, p, stacks;
    }

    /**
     au_cpup_simple and au_cpup_single for the directory dth: made in branch k under the inode number ino
     with rough attributes, which are then set to the donor's.
     */
    method Copy(low: Lower, k: nat, dth: nat, rough: nat, ino: nat, ghost src: nat)
      returns (err: int, ghost stuck: bool)
      requires Follows(low.fs, root, path, h, k, src) && 0 < dth < |h| && h[dth - 1][k].Some? && h[dth][k].None?
      modifies low, this
      ensures err == 0 ==> Follows(low.fs, root, path, h, k, src) && SameView(old(low.fs), low.fs, root)
      ensures err == 0 ==> ino !in old(low.fs.br[k]) && h == old(h)[dth := old(h)[dth][k := Some(ino)]]
      ensures err != 0 ==> err < 0 && h == old(h)
      ensures err != 0 && !stuck ==> low.fs == old(low.fs)
      ensures |low.fs.br| == |old(low.fs).br| && low.fs.wh == old(low.fs).wh && (stuck ==> err != 0)
      ensures low.Used(old(low.faults), err != 0 && !Blocked(old(low.fs), path, old(h), k, dth, ino))
      ensures stuck ==> Left(low.faults) + 2 <= Left(old(low.faults))
    {
      stuck := false;
      var bsrc := FindSrc(k, dth, src);
      DonorIs(low.fs, root, path, h, k, src, bsrc, dth);
      ghost var was := low.fs;
      var d, name := h[dth - 1][k].value, path[dth - 1];
      ParentIs(was, root, path, h, k, src, dth);
      var attr := low.fs.br[bsrc][h[dth][bsrc].value].attr;
      if name in low.fs.br[k][d].ents { return -EIO, stuck; }
      hide Follows, Donor, SameView, NewDir;
      err, stuck := CpupSingle(low, k, d, name, attr, rough, ino);
      if err == 0 {
        Copied(was, root, path, h, k, src, bsrc, dth, ino, attr);
        h := h[dth := h[dth][k := Some(ino)]];
      }
    }

    /** The first branch below k that has directory dth. */
    method FindSrc(k: nat, dth: nat, ghost src: nat) returns (bsrc: nat)
      requires dth < |h| && k < src < |h[dth]| && h[dth][src].Some?
      ensures k < bsrc <= src && h[dth][bsrc].Some? && forall i :: k < i < bsrc ==> h[dth][i].None?
    {
      bsrc := k + 1;
      while h[dth][bsrc].None?
        invariant k < bsrc <= src && forall i :: k < i < bsrc ==> h[dth][i].None?
        decreases src - bsrc
      {
        bsrc := bsrc + 1;
      }
    }

    /** The inner loop of au_cp_dirs: the missing directory whose parent is there. */
    method FindTop(fs: Fs, k: nat, ghost src: nat, ghost made: nat) returns (d: nat)
      requires Follows(fs, root, path, h, k, src) && h[|path|][k].None? && made < |h| && PresentTo(h, k, made)
      ensures made < d <= |path| && h[d - 1][k].Some? && h[d][k].None? && PresentTo(h, k, d - 1)
    {
      d := |path|;
      while h[d - 1][k].None?
        invariant made < d <= |path| && h[d][k].None?
        decreases d
      {
        d := d - 1;
      }
      PresentAbove(fs, root, path, h, k, src, d - 1);
    }

    /**
     au_cp_dirs: ancestors missing from branch k are copied up, the topmost first and only those, until the
     last one is there.  No path shows anything else at any time; order lists the copies made.
     */
    method CpDirs(low: Lower, k: nat, rough: seq<nat>, inos: seq<nat>, ghost src: nat)
      returns (err: int, ghost stuck: bool, ghost order: seq<nat>)
      requires Follows(low.fs, root, path, h, k, src) && |rough| == |inos| == |h|
      modifies low, this
      ensures |low.fs.br| == |low.fs.wh| == |root| && |h| == |old(h)|
      ensures Made(old(h), h, k, order)
      ensures err == 0 ==> Follows(low.fs, root, path, h, k, src) && PresentTo(h, k, |path|)
      ensures err == 0 || !stuck ==> SameView(old(low.fs), low.fs, root)
      ensures err <= 0 && (stuck ==> err < 0 && Left(low.faults) + 2 <= Left(old(low.faults)))
      ensures low.Used(old(low.faults), err != 0
                  && !(exists d :: 0 < d < |h| && Blocked(low.fs, path, h, k, d, inos[d])))
    {
      err, stuck, order := 0, false, [];
      ghost var made: nat := 0;
      FirstPresent(low.fs, root, path, h, k, src);
      hide Going;
      while h[|path|][k].None?
        invariant Going(old(low.fs), low.fs, root, path, old(h), h, k, src, made, order)
        invariant |h| == |path| + 1 && k < |h[|path|]| && made < |h| && err == 0 && !stuck
                  && low.Used(old(low.faults), false)
        decreases |h| - made
      {
        err, stuck, made, order := CpNext(low, k, rough, inos, src, old(low.fs), old(h), made, order);
        if err != 0 { return; }
      }
      LastPresent(old(low.fs), low.fs, root, path, old(h), h, k, src, made, order);
    }

    /** One round of au_cp_dirs. */
    method CpNext(low: Lower, k: nat, rough: seq<nat>, inos: seq<nat>, ghost src: nat, ghost fs0: Fs,
                  ghost h0: seq<Stack>,
                  ghost done: nat, ghost before: seq<nat>)
      returns (err: int, ghost stuck: bool, ghost made: nat, ghost order: seq<nat>)
      requires Going(fs0, low.fs, root, path, h0, h, k, src, done, before)
      requires |rough| == |inos| == |h| == |path| + 1 && k < |h[|path|]| && h[|path|][k].None?
      modifies low, this
      ensures |low.fs.br| == |low.fs.wh| == |root| == |fs0.br| == |fs0.wh| && |h| == |path| + 1 && k < |h[|path|]|
      ensures err == 0 ==> !stuck && done < made < |h| && Going(fs0, low.fs, root, path, h0, h, k, src, made, order)
      ensures err != 0 ==> err < 0 && Made(h0, h, k, order) && (!stuck ==> SameView(fs0, low.fs, root))
      ensures stuck ==> err != 0 && Left(low.faults) + 2 <= Left(old(low.faults))
      ensures low.Used(old(low.faults), err != 0
                  && !(exists d :: 0 < d < |h| && Blocked(low.fs, path, h, k, d, inos[d])))
    {
      made, order := done, before;
      var d := FindTop(low.fs, k, src, done);
      ghost var had, was := h, low.fs;
      Sizes(was, root, path, h, k, src);
      hide SameView, Made, Follows;
      err, stuck := Copy(low, k, d, rough[d], inos[d], src);
      if err != 0 { return; }
      MadeNext(h0, had, h, k, before, d);
      SameViewTrans(fs0, was, low.fs, root);
      NowPresent(low.fs, root, path, h, k, src, d);
      order := before + [d];
      made := d;
    }
  }

  /** Directory d cannot be made: a file is in its way, or its inode number is in use. */
  predicate Blocked(fs: Fs, path: seq<string>, h: seq<Stack>, k: nat, d: nat, ino: nat) {
    && 0 < d < |h| && d <= |path| && k < |h[d]| && h[d][k].None? && k < |h[d - 1]| && h[d - 1][k].Some?
    && HasDir(fs, k, h[d - 1][k].value)
    && (path[d - 1] in Ents(fs, k, h[d - 1][k].value) || ino in fs.br[k])
  }

  ghost predicate Going(fs0: Fs, fs: Fs, root: Stack, path: seq<string>, h0: seq<Stack>, h: seq<Stack>, k: nat,
                        src: nat,
                        made: nat, order: seq<nat>) {
    && Follows(fs, root, path, h, k, src) && |root| == |fs0.br| == |fs0.wh| && SameView(fs0, fs, root)
    && Made(h0, h, k, order) && PresentTo(h, k, made)
    && (if order == [] then made == 0 else order[|order| - 1] == made)
  }

  /** Directories 0 to m are in branch k. */
  ghost predicate PresentTo(h: seq<Stack>, k: nat, m: nat) {
    m < |h| && forall i :: 0 <= i <= m ==> k < |h[i]| && h[i][k].Some?
  }

  /** The copies were made in order, the topmost first, each of a directory that was missing. */
  ghost predicate Made(h0: seq<Stack>, h: seq<Stack>, k: nat, order: seq<nat>) {
    && |h0| == |h|
    && (forall a, b :: 0 <= a < b < |order| ==> order[a] < order[b])
    && (forall i: nat :: i in order <==> i < |h| && k < |h0[i]| && h0[i][k].None? && k < |h[i]| && h[i][k].Some?)
    && (forall i :: 0 <= i < |h| && i !in order ==> h[i] == h0[i])
    && (forall i :: i in order ==> h[i] == h0[i][k := h[i][k]])
  }

  lemma ParentIs(fs: Fs, root: Stack, path: seq<string>, h: seq<Stack>, k: nat, src: nat, dth: nat)
    requires Follows(fs, root, path, h, k, src) && 0 < dth < |h| && h[dth - 1][k].Some?
    ensures HasDir(fs, k, h[dth - 1][k].value)
  {
    WalkExists(fs, root, path[..dth - 1], k);
  }

  lemma PresentAbove(fs: Fs, root: Stack, path: seq<string>, h: seq<Stack>, k: nat, src: nat, m: nat)
    requires Follows(fs, root, path, h, k, src) && m < |h| && h[m][k].Some?
    ensures PresentTo(h, k, m)
  {
    hide Tree, Found;
    if m > 0 {
      assert path[..m][..m - 1] == path[..m - 1];
      FoundSeen(fs, h[m - 1], path[m - 1], k);
      PresentAbove(fs, root, path, h, k, src, m - 1);
    }
  }

  lemma FirstPresent(fs: Fs, root: Stack, path: seq<string>, h: seq<Stack>, k: nat, src: nat)
    requires Follows(fs, root, path, h, k, src)
    ensures Going(fs, fs, root, path, h, h, k, src, 0, []) && |h| == |path| + 1 && k < |h[|path|]|
  {
    assert path[..0] == [];
    assert h[0] == root;
  }

  lemma LastPresent(fs0: Fs, fs: Fs, root: Stack, path: seq<string>, h0: seq<Stack>, h: seq<Stack>, k: nat, src: nat,
                    made: nat, order: seq<nat>)
    requires Going(fs0, fs, root, path, h0, h, k, src, made, order) && |h| == |path| + 1 && h[|path|][k].Some?
    ensures |fs.br| == |fs.wh| == |root| == |fs0.br| == |fs0.wh| && Made(h0, h, k, order) && SameView(fs0, fs, root)
    ensures Follows(fs, root, path, h, k, src) && PresentTo(h, k, |path|)
  {
    PresentAbove(fs, root, path, h, k, src, |path|);
  }

  lemma NowPresent(fs: Fs, root: Stack, path: seq<string>, h: seq<Stack>, k: nat, src: nat, d: nat)
    requires Follows(fs, root, path, h, k, src) && d < |h| && k < |h[d]| && h[d][k].Some?
    ensures PresentTo(h, k, d) && |root| == |fs.br| == |fs.wh| && |h| == |path| + 1 && k < |h[|path|]|
  {
    PresentAbove(fs, root, path, h, k, src, d);
  }

  lemma Sizes(fs: Fs, root: Stack, path: seq<string>, h: seq<Stack>, k: nat, src: nat)
    requires Follows(fs, root, path, h, k, src)
    ensures |root| == |fs.br| == |fs.wh| && |h| == |path| + 1 && k < |root| && forall i :: 0 <= i < |h| ==>
            |h[i]| == |root|
  {
  }

  lemma SameViewTrans(fs: Fs, gs: Fs, hs: Fs, root: Stack)
    requires |root| == |fs.br| == |fs.wh| && |root| == |gs.br| == |gs.wh| && |root| == |hs.br| == |hs.wh|
    requires SameView(fs, gs, root) && SameView(gs, hs, root)
    ensures SameView(fs, hs, root)
  {
  }

  lemma MadeNext(h0: seq<Stack>, h: seq<Stack>, g: seq<Stack>, k: nat, order: seq<nat>, d: nat)
    requires Made(h0, h, k, order) && d < |h| && k < |h[d]| && h[d][k].None? && (order != [] ==> order[|order| - 1] < d)
    requires |g| == |h| && |g[d]| == |h[d]| && g[d][k].Some? && g[d] == h[d][k := g[d][k]] && g == h[d := g[d]]
    ensures Made(h0, g, k, order + [d])
  {
    assert d !in order;
    forall a, b | 0 <= a < b < |order + [d]| ensures (order + [d])[a] < (order + [d])[b] {
      if b == |order| && a < |order| - 1 { assert order[a] < order[|order| - 1]; }
    }
  }
}
