/**
 What a mount shows: the branches as the lower filesystems keep them, directory by directory, and the
 union view that lookup builds from them.
 */
module UnionFs {

  import opened Names

  datatype Option<T> = None | Some(value: T)

  /** A directory entry of a branch; a directory is known by its inode number. */
  datatype Entry = File(data: nat) | SubDir(ino: nat)

  /** A directory of a branch; opq says that it holds the marker that hides the branches below it. */
  datatype Node = Node(attr: nat, opq: bool, ents: map<string, Entry>)

  type Branch = map<nat, Node>

  /** The branches, the topmost first, and which of them have their whiteouts and markers honoured. */
  datatype Fs = Fs(br: seq<Branch>, wh: seq<bool>)

  /** One directory of the union: its directory in each branch. */
  type Stack = seq<Option<nat>>

  /** What one branch has to say about a name. */
  datatype Sight = Nothing | White | Is(e: Entry, opq: bool)

  function See(fs: Fs, i: nat, dir: Option<nat>, name: string): Sight
    requires i < |fs.br| == |fs.wh|
  {
    if dir.None? || dir.value !in fs.br[i] then Nothing
    else
      var ents := fs.br[i][dir.value].ents;
      if fs.wh[i] && Wh(name) in ents then White
      else if name !in ents then Nothing
      else Is(ents[name], fs.wh[i] && ents[name].SubDir? && Marked(fs.br[i], ents[name].ino))
  }

  predicate Marked(b: Branch, ino: nat) {
    ino in b && b[ino].opq
  }

  function Sights(fs: Fs, st: Stack, name: string): (s: seq<Sight>)
    requires |st| == |fs.br| == |fs.wh|
    ensures |s| == |st|
  {
    seq(|st|, i requires 0 <= i < |st| => See(fs, i, st[i], name))
  }

  datatype Phase = Looking | Merging | Done

  /** How the search goes on after a branch: a file ends it, directories merge until a whiteout or a marker. */
  function After(s: Sight, ph: Phase): Phase {
    match s
    case Nothing => ph
    case White => Done
    case Is(File(_), _) => if ph == Looking then Done else ph
    case Is(SubDir(_), opq) => if ph == Done || opq then Done else Merging
  }

  function Take(s: Sight, ph: Phase): Option<Entry> {
    if s.Is? && (ph == Looking || (ph == Merging && s.e.SubDir?)) then Some(s.e) else None
  }

  function Merge(s: seq<Sight>, ph: Phase): (m: seq<Option<Entry>>)
    ensures |m| == |s|
  {
    if s == [] then [] else [Take(s[0], ph)] + Merge(s[1..], After(s[0], ph))
  }

  /** What a fresh lookup of the name finds in each branch. */
  function Found(fs: Fs, st: Stack, name: string): (f: seq<Option<Entry>>)
    requires |st| == |fs.br| == |fs.wh|
    ensures |f| == |st|
  {
    Merge(Sights(fs, st, name), Looking)
  }

  /** The subdirectory of that name, branch by branch. */
  function Dirs(f: seq<Option<Entry>>): (st: Stack)
    ensures |st| == |f|
  {
    seq(|f|, i requires 0 <= i < |f| => if f[i].Some? && f[i].value.SubDir? then Some(f[i].value.ino) else None)
  }

  datatype Shown = Absent | ShownFile(data: nat) | ShownDir(attr: nat)

  function ShowEntry(b: Branch, e: Entry): Shown {
    match e
    case File(data) => ShownFile(data)
    case SubDir(ino) => if ino in b then ShownDir(b[ino].attr) else Absent
  }

  /** The topmost entry found decides what the name is. */
  function Show(br: seq<Branch>, f: seq<Option<Entry>>): Shown
    requires |br| == |f|
  {
    if f == [] then Absent
    else if f[0].Some? then ShowEntry(br[0], f[0].value)
    else Show(br[1..], f[1..])
  }

  /** The union view: what a path below the directory st shows. */
  function View(fs: Fs, st: Stack, path: seq<string>): Shown
    requires |st| == |fs.br| == |fs.wh|
    decreases |path|
  {
    if path == [] then Absent
    else
      var f := Found(fs, st, path[0]);
      if |path| == 1 then Show(fs.br, f) else View(fs, Dirs(f), path[1..])
  }

  /** A name shows the topmost entry found: a file's contents or a directory's attributes, and nothing if none is. */
  lemma {:induction false} ShowIs(br: seq<Branch>, f: seq<Option<Entry>>, j: nat)
    requires |br| == |f| && j < |f| && f[j].Some? && forall i :: 0 <= i < j ==> f[i].None?
    ensures Show(br, f) ==
            match f[j].value
            case File(data) => ShownFile(data)
            case SubDir(ino) => if ino in br[j] then ShownDir(br[j][ino].attr) else Absent
  {
    if j > 0 { ShowIs(br[1..], f[1..], j - 1); }
  }

  lemma ViewIs(fs: Fs, st: Stack, name: string, j: nat)
    requires |st| == |fs.br| == |fs.wh| && j < |st|
    requires Found(fs, st, name)[j].Some? && forall i :: 0 <= i < j ==> Found(fs, st, name)[i].None?
    ensures View(fs, st, [name]) ==
            match Found(fs, st, name)[j].value
            case File(data) => ShownFile(data)
            case SubDir(ino) => if ino in fs.br[j] then ShownDir(fs.br[j][ino].attr) else Absent
  {
    ShowIs(fs.br, Found(fs, st, name), j);
  }

  /** A path goes on in every directory found of its first name, branch by branch. */
  lemma DirsIff(f: seq<Option<Entry>>, j: nat, ino: nat)
    requires j < |f|
    ensures Dirs(f)[j] == Some(ino) <==> f[j] == Some(SubDir(ino))
  {
  }

  /** A name users may use. */
  predicate UserName(name: string) {
    name !in {"", ".", ".."} && !(|name| >= 4 && name[..4] == WH_PFX)
  }

  predicate UserPath(path: seq<string>) {
    path != [] && forall i :: 0 <= i < |path| ==> UserName(path[i])
  }

  lemma UserPathTail(path: seq<string>)
    requires UserPath(path) && |path| > 1
    ensures UserPath(path[1..])
  {
  }

  lemma WhNotUser(name: string)
    ensures !UserName(Wh(name))
  {
    assert Wh(name)[..4] == WH_PFX;
  }

  /** A set of names in directories of one branch. */
  type Edges = set<(nat, string)>

  /** The entry key of directory d is a name of E or the whiteout of one. */
  predicate Touched(E: Edges, d: nat, key: string) {
    (d, key) in E || (|key| >= 4 && key[..4] == WH_PFX && (d, key[4..]) in E)
  }

  /** No name of E is itself the whiteout of a user's name; a doubly whited temporary name may be there. */
  ghost predicate EdgesOk(E: Edges) {
    forall d: nat, name: string :: UserName(name) ==> (d, Wh(name)) !in E
  }

  predicate SameAt(a: Node, b: Node, key: string) {
    (key in a.ents <==> key in b.ents) && (key in a.ents ==> a.ents[key] == b.ents[key])
  }

  /** Branch k changed at most at the names E, in their whiteouts and in the directories O; nothing else did. */
  ghost predicate Differ(fs: Fs, gs: Fs, k: nat, E: Edges, O: set<nat>) {
    && |fs.br| == |gs.br| == |fs.wh| && gs.wh == fs.wh && k < |fs.br| && EdgesOk(E)
    && (forall i :: 0 <= i < |fs.br| && i != k ==> gs.br[i] == fs.br[i])
    && (forall d :: d !in O ==> (d in gs.br[k] <==> d in fs.br[k]))
    && (forall d :: d in fs.br[k] && d !in O ==> DirDiffers(fs.br[k][d], gs.br[k][d], E, d))
  }

  ghost predicate DirDiffers(a: Node, b: Node, E: Edges, d: nat) {
    && a.attr == b.attr && a.opq == b.opq
    && forall key :: !Touched(E, d, key) ==> SameAt(a, b, key)
  }

  /** From directory st the path takes no name of E in branch k, nor is branch k in a directory of O on the way. */
  ghost predicate Avoids(fs: Fs, st: Stack, path: seq<string>, k: nat, E: Edges, O: set<nat>)
    requires |st| == |fs.br| == |fs.wh| && k < |st|
    decreases |path|
  {
    path != [] ==>
      && (st[k].Some? ==> (st[k].value, path[0]) !in E && st[k].value !in O)
      && ChildOutside(fs, st, path[0], k, O)
      && Avoids(fs, Dirs(Found(fs, st, path[0])), path[1..], k, E, O)
  }

  /** The name's own directory in branch k, if it has one, is none of O. */
  ghost predicate ChildOutside(fs: Fs, st: Stack, name: string, k: nat, O: set<nat>)
    requires |st| == |fs.br| == |fs.wh| && k < |st|
  {
    var s := See(fs, k, st[k], name);
    s.Is? && s.e.SubDir? ==> s.e.ino !in O
  }

  lemma SeeSame(fs: Fs, gs: Fs, st: Stack, name: string, k: nat, E: Edges, O: set<nat>)
    requires Differ(fs, gs, k, E, O) && |st| == |fs.br| && UserName(name)
    requires st[k].Some? ==> (st[k].value, name) !in E && st[k].value !in O
    requires ChildOutside(fs, st, name, k, O)
    ensures Sights(gs, st, name) == Sights(fs, st, name) && ChildOutside(gs, st, name, k, O)
  {
    if st[k].Some? && st[k].value in fs.br[k] {
      var d := st[k].value;
      WhNotUser(name);
      assert Wh(name)[..4] == WH_PFX;
      assert !Touched(E, d, name) && !Touched(E, d, Wh(name));
      assert DirDiffers(fs.br[k][d], gs.br[k][d], E, d);
      assert SameAt(fs.br[k][d], gs.br[k][d], name) && SameAt(fs.br[k][d], gs.br[k][d], Wh(name));
    }
    assert See(gs, k, st[k], name) == See(fs, k, st[k], name);
  }

  lemma {:induction false} ShowSame(b: seq<Branch>, c: seq<Branch>, f: seq<Option<Entry>>)
    requires |b| == |c| == |f|
    requires forall i :: 0 <= i < |f| && f[i].Some? ==> ShowEntry(c[i], f[i].value) == ShowEntry(b[i], f[i].value)
    ensures Show(c, f) == Show(b, f)
  {
    if f != [] && f[0].None? { ShowSame(b[1..], c[1..], f[1..]); }
  }

  /** What is found in a branch is what is seen there. */
  lemma {:induction false} MergeTakes(s: seq<Sight>, ph: Phase, i: nat)
    requires i < |s| && Merge(s, ph)[i].Some?
    ensures s[i].Is? && Merge(s, ph)[i].value == s[i].e
  {
    if i > 0 { MergeTakes(s[1..], After(s[0], ph), i - 1); }
  }

  lemma FoundSeen(fs: Fs, st: Stack, name: string, i: nat)
    requires |st| == |fs.br| == |fs.wh| && i < |st| && Found(fs, st, name)[i].Some?
    ensures See(fs, i, st[i], name).Is? && See(fs, i, st[i], name).e == Found(fs, st, name)[i].value
  {
    MergeTakes(Sights(fs, st, name), Looking, i);
  }

  /** A change in one branch does not show on any path that avoids the changed names and directories. */
  lemma {:induction false} Frame(fs: Fs, gs: Fs, st: Stack, path: seq<string>, k: nat, E: Edges, O: set<nat>)
    requires Differ(fs, gs, k, E, O) && |st| == |fs.br| && UserPath(path) && Avoids(fs, st, path, k, E, O)
    ensures View(gs, st, path) == View(fs, st, path) && Avoids(gs, st, path, k, E, O)
    decreases |path|
  {
    var f := Found(fs, st, path[0]);
    SeeSame(fs, gs, st, path[0], k, E, O);
    assert Found(gs, st, path[0]) == f;
    if |path| == 1 {
      forall i | 0 <= i < |f| && f[i].Some? ensures ShowEntry(gs.br[i], f[i].value) == ShowEntry(fs.br[i], f[i].value) {
        FoundSeen(fs, st, path[0], i);
        if i == k && f[i].value.SubDir? && f[i].value.ino in fs.br[k] {
          assert DirDiffers(fs.br[k][f[i].value.ino], gs.br[k][f[i].value.ino], E, f[i].value.ino);
        }
      }
      ShowSame(fs.br, gs.br, f);
    } else {
      UserPathTail(path);
      Frame(fs, gs, Dirs(f), path[1..], k, E, O);
    }
  }

  ghost predicate AnyFound(f: seq<Option<Entry>>) {
    exists i :: 0 <= i < |f| && f[i].Some?
  }

  lemma {:induction false} ShowNothing(br: seq<Branch>, f: seq<Option<Entry>>)
    requires |br| == |f| && !AnyFound(f)
    ensures Show(br, f) == Absent
  {
    if f != [] {
      assert f[0].None?;
      forall i | 0 <= i < |f[1..]| ensures f[1..][i].None? { assert f[i + 1].None?; }
      ShowNothing(br[1..], f[1..]);
    }
  }

  lemma {:induction false} MergeNothing(s: seq<Sight>, ph: Phase)
    requires forall i :: 0 <= i < |s| ==> s[i] == Nothing
    ensures !AnyFound(Merge(s, ph))
  {
    if s != [] {
      MergeNothing(s[1..], ph);
      forall i | 0 <= i < |s| ensures Merge(s, ph)[i].None? {
        if i > 0 { assert Merge(s[1..], ph)[i - 1].None?; }
      }
    }
  }

  /** A name that is not found shows nothing, nor does anything below it. */
  lemma {:induction false} NotFoundAbsent(fs: Fs, st: Stack, path: seq<string>)
    requires |st| == |fs.br| == |fs.wh| && path != [] && !AnyFound(Found(fs, st, path[0]))
    ensures View(fs, st, path) == Absent
    decreases |path|
  {
    var f := Found(fs, st, path[0]);
    if |path| == 1 {
      ShowNothing(fs.br, f);
    } else {
      forall i | 0 <= i < |f| ensures f[i].None? {}
      MergeNothing(Sights(fs, Dirs(f), path[1]), Looking);
      NotFoundAbsent(fs, Dirs(f), path[1..]);
    }
  }

  /** The directory a path leads to from root. */
  function Walk(fs: Fs, root: Stack, path: seq<string>): (st: Stack)
    requires |root| == |fs.br| == |fs.wh|
    ensures |st| == |root|
  {
    if path == [] then root
    else Dirs(Found(fs, Walk(fs, root, path[..|path| - 1]), path[|path| - 1]))
  }

  lemma {:induction false} WalkFrom(fs: Fs, root: Stack, path: seq<string>)
    requires |root| == |fs.br| == |fs.wh| && path != []
    ensures Walk(fs, root, path) == Walk(fs, Dirs(Found(fs, root, path[0])), path[1..])
    decreases |path|
  {
    if |path| == 1 {
      assert path[..0] == [] == path[1..];
    } else {
      var n := |path| - 1;
      WalkFrom(fs, root, path[..n]);
      assert path[..n][1..] == path[1..][..n - 1] && path[1..][n - 1] == path[n];
    }
  }

  /** A path shows what its last name is found to be in the directory the rest of it leads to. */
  lemma {:induction false} ViewWalk(fs: Fs, root: Stack, path: seq<string>)
    requires |root| == |fs.br| == |fs.wh| && path != []
    ensures var n := |path| - 1; View(fs, root, path) == Show(fs.br, Found(fs, Walk(fs, root, path[..n]), path[n]))
    decreases |path|
  {
    var n := |path| - 1;
    if n > 0 {
      ViewWalk(fs, Dirs(Found(fs, root, path[0])), path[1..]);
      assert path[..n][1..] == path[1..][..n - 1] && path[1..][n - 1] == path[n];
      WalkFrom(fs, root, path[..n]);
    }
  }
}
