/** The choices and tests aufs_rename makes before do_rename (i_op_ren.c). */
module RenameCheck {

  import opened Errno
  import opened Names
  import opened UnionFs
  import opened Listing
  import opened LowerFs
  import opened Rename
  import opened RenameView
  import opened Agreement
  import opened TestEmpty
  import Lookup
  import CopyUp

  /** au_wbr: the branch if it can be written and nothing above it hides it, otherwise -1. */
  function AuWbr(rdonly: bool, bdiropq: int, bwh: int, btgt: nat): (r: int)
    ensures r == btgt <==> !rdonly && !(0 <= bdiropq < btgt) && !(0 <= bwh < btgt)
    ensures r != btgt ==> r == -1
  {
    if rdonly || (0 <= bdiropq && bdiropq < btgt) || (0 <= bwh && bwh < btgt) then -1 else btgt
  }

  /** The branch aufs_rename would like: the higher one of the source's and an existing target's. */
  function Wanted(srcStart: nat, positive: bool, dstStart: nat): (r: nat)
    ensures r <= srcStart && (positive ==> r <= dstStart) && (r == srcStart || (positive && r == dstStart))
  {
    if positive && dstStart < srcStart then dstStart else srcStart
  }

  /** What the target's dentry says: where it is first found, or where its whiteout is. */
  ghost predicate TargetDentry(fs: Fs, st: Stack, name: string, positive: bool, dstStart: nat, bwh: int) {
    && |st| == |fs.br| == |fs.wh|
    && if positive then Lookup.TopSight(fs, st, dstStart, name)
       else if bwh >= 0 then bwh < |st| && Lookup.TopSight(fs, st, bwh, name)
       else forall j :: 0 <= j < |st| ==> See(fs, j, st[j], name) == Nothing
  }

  /** A target branch that passes au_wbr has neither the target nor a whiteout of it above. */
  lemma WantedIsOpen(fs: Fs, a: Args, stD: Stack, positive: bool, dstStart: nat, bwh: int, rdonly: bool, bdiropq: int)
    requires Ready(fs, a) && |stD| == |fs.br| == |fs.wh| && a.k < |stD| && stD[a.k] == Some(a.ddir)
    requires TargetDentry(fs, stD, a.dst, positive, dstStart, bwh)
    requires a.k == AuWbr(rdonly, bdiropq, bwh, Wanted(a.bsrc, positive, dstStart))
    ensures TargetOpen(fs, a, stD)
  {
  }

  /**
   WHDST is set only if the target's dentry started at the target branch: after the rename the target is not
   found exactly if the dentry started elsewhere and the target branch had an honoured whiteout of it.
   */
  lemma CoveredIff(fs: Fs, gs: Fs, a: Args, stD: Stack, dstStart: int)
    requires Ended(fs, gs, a) && TargetOpen(fs, a, stD) && a.whdst == (dstStart == a.k)
    ensures |gs.br| == |gs.wh| == |stD|
    ensures AnyFound(Found(gs, stD, a.dst)) <==>
            dstStart == a.k || !fs.wh[a.k] || Wh(a.dst) !in Ents(fs, a.k, a.ddir)
  {
    TargetFound(fs, gs, a, stD);
    hide Ended, Found;
    if !Covered(fs, a) { assert Found(gs, stD, a.dst)[a.k].Some?; }
  }

  /**
   Renaming a to b on the lower of two branches, where b has been whited out: nothing is above, so au_wbr
   lets it pass, but b's dentry started at the upper branch and the whiteout stays.
   */
  lemma WhiteoutStays()
    ensures var fs := Fs([map[0 := Node(0, false, map[])],
                map[0 := Node(0, false, map["a" := File(7), ".wh.b" := File(0)])]], [true, true]);
            var a := Args(1, 0, 0, "a", "b", "0000", false, false, false, 1, File(7), 0, -1, false, false, false, 9, 0);
            Ready(fs, a) && TargetOpen(fs, a, [Some(0), Some(0)]) && Covered(fs, a)
  {
    var fs := Fs([map[0 := Node(0, false, map[])], map[0 := Node(0, false, map["a" := File(7), ".wh.b" := File(0)])]],
        [true, true]);
    var a := Args(1, 0, 0, "a", "b", "0000", false, false, false, 1, File(7), 0, -1, false, false, false, 9, 0);
    assert Wh("b") == ".wh.b" && Wh("a") == ".wh.a";
    assert ".wh.b"[4] == 'b' && ".wh.a"[4] == 'a';
    Apart(a);
    assert |Tmp(a)| > 5;
  }

  function OneDir(): Fs {
    Fs([map[0 := Node(0, false, map[])], map[0 := Node(0, false, map["s" := SubDir(5)]), 5 := Node(7, false, map[])]],
        [true, true])
  }

  /**
   An empty directory s of the lower of two branches is renamed to t, and of all operations only the one
   that makes the marker, the fourth, fails: the rename fails and yet t is there beside s.
   */
  method DirectoryStays() returns (err: int, low: LowerFs.Lower)
    ensures err != 0 && |low.fs.br| == |low.fs.wh| == 2
    ensures View(OneDir(), [Some(0), Some(0)], ["t"]) == Absent
    ensures View(low.fs, [Some(0), Some(0)], ["t"]) != Absent
  {
    low := new LowerFs.Lower(OneDir(), [false, false, false, true]);
    var a := Args(0, 0, 0, "s", "t", "0000", true, true, false, 1, SubDir(5), 7, -1, false, false, true, 9, 1);
    OneDirReady(a);
    ghost var ok, copied;
    hide Within, View, Finished, RolledBack;
    err, ok, copied := DoRename(low, a, false);
    StaysShown(low.fs, a);
  }

  lemma OneDirReady(a: Args)
    requires a == Args(0, 0, 0, "s", "t", "0000", true, true, false, 1, SubDir(5), 7, -1, false, false, true, 9, 1)
    ensures Ready(OneDir(), a) && Clean(OneDir(), a) && Stranded(OneDir(), a, [false, false, false, true])
    ensures ToMkdir(OneDir(), a) == 3 && Wh(a.dst) !in Ents(OneDir(), 0, 0)
    ensures View(OneDir(), [Some(0), Some(0)], ["t"]) == Absent
  {
    Apart(a);
    assert |Tmp(a)| > 5 && Wh("s") != "s" && |Wh("t")| == 5;
    Lookup.NoSight(OneDir(), [Some(0), Some(0)], "t");
    ShowNothing(OneDir().br, Found(OneDir(), [Some(0), Some(0)], "t"));
  }

  /** What stayed shows, where no branch above hides it. */
  lemma StaysShown(gs: Fs, a: Args)
    requires Stays(gs, a, false) && a.k == 0 == a.ddir && |gs.br| == |gs.wh| == 2
    ensures View(gs, [Some(0), Some(0)], [a.dst]) != Absent
  {
    var st := [Some(0), Some(0)];
    Lookup.FirstSight(gs, st, 0, a.dst);
    CopyUp.ShowSkips(gs.br, Found(gs, st, a.dst), 0);
  }

  /** may_rename_srcdir, the branches' listings of the source being layers. */
  method MayRenameSrcdir(layers: Layers, bstart: nat, btgt: nat, btail: int) returns (err: int)
    requires NamesOk(layers) && StartsAt(layers, bstart) && bstart < |layers|
    requires forall b :: btail < b < |layers| && bstart < b ==> layers[b] == []
    ensures err in {0, -EXDEV}
    ensures err == 0 <==> HarmlessUpTo(layers, if bstart != btgt then bstart else bstart + 1, |layers|, 0)
  {
    var arg := new Arg();
    if bstart != btgt {
      err := arg.TestEmpty(layers, bstart);
    } else if bstart == btail {
      return 0;
    } else {
      err := arg.TestEmptyLower(layers, bstart);
    }
    if err == -ENOTEMPTY { err := -EXDEV; }
  }

  /** Where all whiteouts are honoured, a lookup finds nothing in branches whose names are all whited out above. */
  lemma HarmlessNotFound(fs: Fs, st: Stack, layers: Layers, from: nat, m: string, j: nat)
    requires ReportsOf(fs, st, layers) && TestEmpty.WellFormed(layers) && (forall i :: 0 <= i < |st| ==> fs.wh[i])
    requires HarmlessUpTo(layers, from, |layers|, 0) && from <= j < |st| && UserName(m)
    ensures Found(fs, st, m)[j].None?
  {
    if Found(fs, st, m)[j].Some? {
      FoundSeen(fs, st, m, j);
      Plain(m);
      DotIff(m);
      assert Agreement.Holds(fs, st, j, m) && Reported(layers[j], m);
      var x :| 0 <= x < |layers[j]| && layers[j][x].name == m;
      assert Harmless(layers, j, x);
      HarmlessAbove(layers, j, x);
      var c: nat :| c < j && Whites(layers[c], m);
      ReportedNames(layers[c], m);
      assert Agreement.Holds(fs, st, c, Wh(m));
      CopyUp.WhiteEnds(Sights(fs, st, m), Looking, c, j);
    }
  }

  /** So a source directory that passes may_rename_srcdir may move: lower branches add nothing to it. */
  lemma SrcdirMayMove(fs: Fs, a: Args, stS: Stack, layers: Layers)
    requires SourceSeen(fs, a, stS) && a.isdir && (forall i :: 0 <= i < |stS| ==> fs.wh[i])
    requires ReportsOf(fs, Dirs(Found(fs, stS, a.src)), layers) && TestEmpty.WellFormed(layers)
    requires HarmlessUpTo(layers, if a.bsrc != a.k then a.bsrc else a.bsrc + 1, |layers|, 0)
    ensures MayMove(fs, a, stS)
  {
    var st := Dirs(Found(fs, stS, a.src));
    Lookup.FirstSight(fs, stS, a.bsrc, a.src);
    forall m, j: nat | UserName(m) && j < |stS| && Found(fs, st, m)[j].Some? ensures j == a.k == a.bsrc {
      FoundSeen(fs, st, m, j);
      assert st[j].Some? ==> j >= a.bsrc;
      var from := if a.bsrc != a.k then a.bsrc else a.bsrc + 1;
      if from <= j { HarmlessNotFound(fs, st, layers, from, m, j); }
    }
  }
}
