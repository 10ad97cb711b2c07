/** The operations of the lower filesystems that aufs builds on, each of which may fail. */
module LowerFs {

  import opened Errno
  import opened Names
  import opened UnionFs

  /** Directory d of branch k. */
  predicate HasDir(fs: Fs, k: nat, d: nat) {
    k < |fs.br| == |fs.wh| && d in fs.br[k]
  }

  function Ents(fs: Fs, k: nat, d: nat): map<string, Entry>
    requires HasDir(fs, k, d)
  {
    fs.br[k][d].ents
  }

  /** Branch k with the entries of directory d replaced. */
  function WithEnts(fs: Fs, k: nat, d: nat, ents: map<string, Entry>): (r: Fs)
    requires HasDir(fs, k, d)
    ensures HasDir(r, k, d) && Ents(r, k, d) == ents && |r.br| == |fs.br| && r.wh == fs.wh
  {
    var b: Branch := fs.br[k][d := fs.br[k][d].(ents := ents)];
    fs.(br := fs.br[k := b])
  }

  function SetEnt(fs: Fs, k: nat, d: nat, key: string, e: Entry): Fs
    requires HasDir(fs, k, d)
  {
    WithEnts(fs, k, d, Ents(fs, k, d)[key := e])
  }

  function DelEnt(fs: Fs, k: nat, d: nat, key: string): Fs
    requires HasDir(fs, k, d)
  {
    WithEnts(fs, k, d, Ents(fs, k, d) - {key})
  }

  function MoveEnt(fs: Fs, k: nat, d1: nat, key1: string, d2: nat, key2: string): (r: Fs)
    requires HasDir(fs, k, d1) && HasDir(fs, k, d2) && key1 in Ents(fs, k, d1)
  {
    SetEnt(DelEnt(fs, k, d1, key1), k, d2, key2, Ents(fs, k, d1)[key1])
  }

  /** Moving an entry back undoes the move onto a free name. */
  lemma MoveUndone(fs: Fs, k: nat, d1: nat, key1: string, d2: nat, key2: string)
    requires HasDir(fs, k, d1) && HasDir(fs, k, d2) && key1 in Ents(fs, k, d1) && key2 !in Ents(fs, k, d2)
    ensures var gs := MoveEnt(fs, k, d1, key1, d2, key2);
            && HasDir(gs, k, d1) && HasDir(gs, k, d2) && key2 in Ents(gs, k, d2)
            && MoveEnt(gs, k, d2, key2, d1, key1) == fs
  {
    var gs := MoveEnt(fs, k, d1, key1, d2, key2);
    var hs := MoveEnt(gs, k, d2, key2, d1, key1);
    assert hs.br[k][d1].ents == fs.br[k][d1].ents && hs.br[k][d2].ents == fs.br[k][d2].ents;
    assert hs.br[k] == fs.br[k];
    assert hs.br == fs.br;
  }

  /** Taking out an entry that was put in undoes that. */
  lemma SetUndone(fs: Fs, k: nat, d: nat, key: string, e: Entry)
    requires HasDir(fs, k, d) && key !in Ents(fs, k, d)
    ensures DelEnt(SetEnt(fs, k, d, key, e), k, d, key) == fs
  {
    var hs := DelEnt(SetEnt(fs, k, d, key, e), k, d, key);
    assert hs.br[k][d].ents == fs.br[k][d].ents;
    assert hs.br[k] == fs.br[k];
    assert hs.br == fs.br;
  }

  /** Entries put under different names may be put in either order. */
  lemma SetCommutes(fs: Fs, k: nat, d: nat, key: string, e: Entry, other: string, o: Entry)
    requires HasDir(fs, k, d) && key != other
    ensures SetEnt(SetEnt(fs, k, d, key, e), k, d, other, o) == SetEnt(SetEnt(fs, k, d, other, o), k, d, key, e)
  {
    var gs, hs := SetEnt(SetEnt(fs, k, d, key, e), k, d, other, o), SetEnt(SetEnt(fs, k, d, other, o), k, d, key, e);
    assert gs.br[k][d].ents == hs.br[k][d].ents;
    assert gs.br[k] == hs.br[k];
    assert gs.br == hs.br;
  }

  /** A change of one directory's entries shows as such. */
  lemma WithEntsDiffers(fs: Fs, k: nat, d: nat, ents: map<string, Entry>, E: Edges)
    requires HasDir(fs, k, d) && EdgesOk(E)
    requires forall key :: !Touched(E, d, key) ==>
               (key in ents <==> key in Ents(fs, k, d))
               && (key in ents ==> ents[key] == Ents(fs, k, d)[key])
    ensures Differ(fs, WithEnts(fs, k, d, ents), k, E, {})
  {
    var gs := WithEnts(fs, k, d, ents);
    forall x | x in fs.br[k] ensures DirDiffers(fs.br[k][x], gs.br[k][x], E, x) {}
  }

  lemma DifferTrans(fs: Fs, gs: Fs, hs: Fs, k: nat, E: Edges, O: set<nat>)
    requires Differ(fs, gs, k, E, O) && Differ(gs, hs, k, E, O)
    ensures Differ(fs, hs, k, E, O)
  {
    forall x | x in fs.br[k] && x !in O ensures DirDiffers(fs.br[k][x], hs.br[k][x], E, x) {
      assert DirDiffers(fs.br[k][x], gs.br[k][x], E, x) && DirDiffers(gs.br[k][x], hs.br[k][x], E, x);
      forall key | !Touched(E, x, key) ensures SameAt(fs.br[k][x], hs.br[k][x], key) {
        assert SameAt(fs.br[k][x], gs.br[k][x], key) && SameAt(gs.br[k][x], hs.br[k][x], key);
      }
    }
  }

  /** How many failures a schedule holds. */
  function Left(faults: seq<bool>): (n: nat)
    ensures n <= |faults|
  {
    if faults == [] then 0 else (if faults[0] then 1 else 0) + Left(faults[1..])
  }

  /** None of the next n operations fails. */
  predicate Calm(faults: seq<bool>, n: nat) {
    forall i :: 0 <= i < n && i < |faults| ==> !faults[i]
  }

  /** The schedule after n operations. */
  function Drop(faults: seq<bool>, n: nat): seq<bool> {
    if n <= |faults| then faults[n..] else []
  }

  lemma CalmSplit(faults: seq<bool>, n: nat, m: nat)
    ensures Calm(faults, n + m) <==> Calm(faults, n) && Calm(Drop(faults, n), m)
    ensures Drop(Drop(faults, n), m) == Drop(faults, n + m)
  {
    if Calm(faults, n) && Calm(Drop(faults, n), m) {
      forall i | 0 <= i < n + m && i < |faults| ensures !faults[i] {
        if i >= n { assert Drop(faults, n)[i - n] == faults[i]; }
      }
    }
  }

  /** Renaming works: onto nothing, or a file onto a file. */
  predicate Movable(fs: Fs, k: nat, d1: nat, key1: string, d2: nat, key2: string)
    requires HasDir(fs, k, d1) && HasDir(fs, k, d2)
  {
    && key1 in Ents(fs, k, d1) && (d1, key1) != (d2, key2)
    && (key2 in Ents(fs, k, d2) ==> Ents(fs, k, d2)[key2].File? && Ents(fs, k, d1)[key1].File?)
  }

  /** An empty directory other than d itself. */
  predicate Removable(fs: Fs, k: nat, d: nat, key: string)
    requires HasDir(fs, k, d)
  {
    && key in Ents(fs, k, d) && Ents(fs, k, d)[key].SubDir? && Ents(fs, k, d)[key].ino != d
    && Ents(fs, k, d)[key].ino in fs.br[k] && fs.br[k][Ents(fs, k, d)[key].ino].ents == map[]
  }

  class Lower {
    var fs: Fs
    /** Which of the coming operations fail. */
    var faults: seq<bool>

    constructor (f: Fs, s: seq<bool>)
      ensures fs == f && faults == s
    {
      fs, faults := f, s;
    }

    /** None of the schedule was put back, and at least one failure met if fault. */
    predicate Used(was: seq<bool>, fault: bool)
      reads this
    {
      Left(faults) + (if fault then 1 else 0) <= Left(was)
    }

    /** No operation of the schedule failed. */
    predicate Unhurt(was: seq<bool>)
      reads this
    {
      Left(faults) == Left(was)
    }

    method Fault() returns (f: bool)
      modifies this`faults
      ensures f == !Calm(old(faults), 1) && faults == Drop(old(faults), 1)
      ensures Left(faults) == Left(old(faults)) - if f then 1 else 0
    {
      f := faults != [] && faults[0];
      if faults != [] { faults := faults[1..]; }
    }

    /** vfsub_create or vfsub_link of a regular file. */
    method Create(k: nat, d: nat, key: string, data: nat) returns (err: int)
      requires HasDir(fs, k, d)
      modifies this
      ensures err == 0 ==> key !in Ents(old(fs), k, d) && fs == SetEnt(old(fs), k, d, key, File(data))
      ensures err != 0 ==> err < 0 && fs == old(fs)
      ensures Used(old(faults), err != 0 && key !in Ents(old(fs), k, d))
      ensures faults == Drop(old(faults), 1) && (err == 0 ==> Calm(old(faults), 1) && Unhurt(old(faults)))
    {
      var f := Fault();
      if f { return -EIO; }
      if key in fs.br[k][d].ents { return -EEXIST; }
      fs := SetEnt(fs, k, d, key, File(data));
      err := 0;
    }

    /** vfsub_unlink. */
    method Unlink(k: nat, d: nat, key: string) returns (err: int)
      requires HasDir(fs, k, d)
      modifies this
      ensures err == 0 ==>
                key in Ents(old(fs), k, d) && Ents(old(fs), k, d)[key].File?
                && fs == DelEnt(old(fs), k, d, key)
      ensures err != 0 ==> err < 0 && fs == old(fs)
      ensures Used(old(faults), err != 0 && key in Ents(old(fs), k, d) && Ents(old(fs), k, d)[key].File?)
      ensures faults == Drop(old(faults), 1) && (err == 0 ==> Calm(old(faults), 1) && Unhurt(old(faults)))
    {
      var f := Fault();
      if f { return -EIO; }
      if key !in fs.br[k][d].ents { return -ENOENT; }
      if fs.br[k][d].ents[key].SubDir? { return -EISDIR; }
      fs := DelEnt(fs, k, d, key);
      err := 0;
    }

    /** vfsub_rename. */
    method Rename(k: nat, d1: nat, key1: string, d2: nat, key2: string) returns (err: int)
      requires HasDir(fs, k, d1) && HasDir(fs, k, d2)
      modifies this
      ensures err == 0 ==> Movable(old(fs), k, d1, key1, d2, key2) && fs == MoveEnt(old(fs), k, d1, key1, d2, key2)
      ensures err != 0 ==> err < 0 && fs == old(fs)
      ensures Used(old(faults), err != 0 && Movable(old(fs), k, d1, key1, d2, key2))
      ensures faults == Drop(old(faults), 1) && (err == 0 ==> Calm(old(faults), 1) && Unhurt(old(faults)))
    {
      var f := Fault();
      if f { return -EIO; }
      if key1 !in fs.br[k][d1].ents { return -ENOENT; }
      if (d1, key1) == (d2, key2) { return -EPERM; }
      if key2 in fs.br[k][d2].ents && (fs.br[k][d2].ents[key2].SubDir?
          || fs.br[k][d1].ents[key1].SubDir?) { return -EEXIST; }
      fs := MoveEnt(fs, k, d1, key1, d2, key2);
      err := 0;
    }

    /** vfsub_mkdir: a new, empty directory under inode number ino, which the branch must have free. */
    method Mkdir(k: nat, d: nat, key: string, attr: nat, ino: nat) returns (err: int)
      requires HasDir(fs, k, d)
      modifies this
      ensures err == 0 ==> key !in Ents(old(fs), k, d) && ino !in old(fs).br[k]
      ensures err == 0 ==> fs == NewDir(old(fs), k, d, key, ino, attr)
      ensures err != 0 ==> err < 0 && fs == old(fs)
      ensures Used(old(faults), err != 0 && key !in Ents(old(fs), k, d) && ino !in old(fs).br[k])
      ensures faults == Drop(old(faults), 1) && (err == 0 ==> Calm(old(faults), 1) && Unhurt(old(faults)))
    {
      var f := Fault();
      if f { return -EIO; }
      if key in fs.br[k][d].ents { return -EEXIST; }
      if ino in fs.br[k] { return -ENOSPC; }
      fs := NewDir(fs, k, d, key, ino, attr);
      err := 0;
    }

    /** vfsub_rmdir. */
    method Rmdir(k: nat, d: nat, key: string) returns (err: int)
      requires HasDir(fs, k, d)
      modifies this
      ensures err == 0 ==>
                key in Ents(old(fs), k, d) && Ents(old(fs), k, d)[key].SubDir?
                && fs == NoDir(old(fs), k, d, key)
      ensures err != 0 ==> err < 0 && fs == old(fs)
      ensures Used(old(faults), err != 0 && Removable(old(fs), k, d, key))
      ensures faults == Drop(old(faults), 1) && (err == 0 ==> Calm(old(faults), 1) && Unhurt(old(faults)))
    {
      var f := Fault();
      if f { return -EIO; }
      if key !in fs.br[k][d].ents { return -ENOENT; }
      if fs.br[k][d].ents[key].File? || fs.br[k][d].ents[key].ino == d { return -EBUSY; }
      var ino := fs.br[k][d].ents[key].ino;
      if ino !in fs.br[k] || fs.br[k][ino].ents != map[] { return -ENOTEMPTY; }
      fs := NoDir(fs, k, d, key);
      err := 0;
    }

    /** vfsub_notify_change, as far as a directory's attributes go. */
    method SetAttr(k: nat, ino: nat, attr: nat) returns (err: int)
      requires HasDir(fs, k, ino)
      modifies this
      ensures err == 0 ==> fs == WithDir(old(fs), k, ino, old(fs).br[k][ino].(attr := attr))
      ensures err != 0 ==> err < 0 && fs == old(fs)
      ensures Used(old(faults), err != 0)
      ensures faults == Drop(old(faults), 1) && (err == 0 ==> Calm(old(faults), 1) && Unhurt(old(faults)))
    {
      var f := Fault();
      if f { return -EIO; }
      fs := WithDir(fs, k, ino, fs.br[k][ino].(attr := attr));
      err := 0;
    }

    /** Setting or removing the marker of a directory, which are a create and an unlink inside it. */
    method Mark(k: nat, ino: nat, opq: bool) returns (err: int)
      requires HasDir(fs, k, ino)
      modifies this
      ensures err == 0 ==> fs == WithDir(old(fs), k, ino, old(fs).br[k][ino].(opq := opq))
      ensures err != 0 ==> err < 0 && fs == old(fs)
      ensures Used(old(faults), err != 0)
      ensures faults == Drop(old(faults), 1) && (err == 0 ==> Calm(old(faults), 1) && Unhurt(old(faults)))
    {
      var f := Fault();
      if f { return -EIO; }
      fs := WithDir(fs, k, ino, fs.br[k][ino].(opq := opq));
      err := 0;
    }
  }

  function WithDir(fs: Fs, k: nat, ino: nat, n: Node): (r: Fs)
    requires k < |fs.br| == |fs.wh|
    ensures HasDir(r, k, ino) && |r.br| == |fs.br| && r.wh == fs.wh
  {
    var b: Branch := fs.br[k][ino := n];
    fs.(br := fs.br[k := b])
  }

  /** A new empty directory ino entered as key in directory d. */
  function NewDir(fs: Fs, k: nat, d: nat, key: string, ino: nat, attr: nat): (r: Fs)
    requires HasDir(fs, k, d)
    ensures |r.br| == |fs.br| && r.wh == fs.wh && HasDir(r, k, d) && HasDir(r, k, ino)
  {
    var gs := SetEnt(fs, k, d, key, SubDir(ino));
    WithDir(gs, k, ino, Node(attr, false, map[]))
  }

  function NoDir(fs: Fs, k: nat, d: nat, key: string): (r: Fs)
    requires HasDir(fs, k, d) && key in Ents(fs, k, d) && Ents(fs, k, d)[key].SubDir?
  {
    var b: Branch := DelEnt(fs, k, d, key).br[k] - {Ents(fs, k, d)[key].ino};
    fs.(br := fs.br[k := b])
  }
}
