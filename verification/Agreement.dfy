/** Lookup (dentry.c) and readdir (vdir.c) of one directory, compared. */
module Agreement {

  import opened Names
  import opened UnionFs
  import opened Lookup
  import opened Listing

  /** Branch i's directory holds the name. */
  predicate Holds(fs: Fs, st: Stack, i: nat, name: string) {
    i < |st| == |fs.br| && st[i].Some? && st[i].value in fs.br[i] && name in fs.br[i][st[i].value].ents
  }

  /** The layers are what readdir gets from the branches, "." and ".." and the opaque marker aside. */
  ghost predicate ReportsOf(fs: Fs, st: Stack, layers: Layers) {
    && |layers| == |st| == |fs.br| == |fs.wh|
    && forall i, n :: 0 <= i < |st| && n !in {".", "..", DIROPQ} ==> (Reported(layers[i], n) <==> Holds(fs, st, i, n))
  }

  ghost predicate Reported(l: seq<Lower>, name: string) {
    exists k :: 0 <= k < |l| && l[k].name == name
  }

  lemma ReportedNames(l: seq<Lower>, name: string)
    requires UserName(name)
    ensures Has(l, name) <==> Reported(l, name)
    ensures Whites(l, name) <==> Reported(l, Wh(name))
  {
    WhIsWh(name);
    if Whites(l, name) {
      var k :| 0 <= k < |l| && IsWh(l[k].name) && l[k].name[4..] == name;
      WhIsWh(l[k].name);
    }
  }

  /** No branch's directory holds both the name and its whiteout. */
  ghost predicate WellFormed(fs: Fs, st: Stack, name: string) {
    forall i: nat :: Holds(fs, st, i, name) ==> !Holds(fs, st, i, Wh(name))
  }

  /** Branch i is the topmost to hold the name. */
  ghost predicate TopHolder(fs: Fs, st: Stack, i: nat, name: string) {
    Holds(fs, st, i, name) && forall j: nat :: j < i ==> !Holds(fs, st, j, name)
  }

  /** A lookup succeeds exactly if no honoured whiteout lies above the topmost holder, and starts there. */
  lemma LookupIff(fs: Fs, st: Stack, t: nat, name: string)
    requires |st| == |fs.br| == |fs.wh| && UserName(name) && WellFormed(fs, st, name) && TopHolder(fs, st, t, name)
    ensures AnyFound(Found(fs, st, name)) <==> forall c: nat :: c < t && Holds(fs, st, c, Wh(name)) ==> !fs.wh[c]
    ensures AnyFound(Found(fs, st, name)) ==> Found(fs, st, name)[t].Some? && forall j :: 0 <= j < t ==>
            Found(fs, st, name)[j].None?
  {
    var i := FindTop(fs, st, name, |st|);
    assert See(fs, t, st[t], name).Is?;
    FirstSight(fs, st, i, name);
    if i < t {
      assert !Holds(fs, st, i, name);
      assert See(fs, i, st[i], name).White? && Holds(fs, st, i, Wh(name));
    } else {
      assert i == t && Found(fs, st, name)[t].Some?;
    }
  }

  /** A name is listed exactly if no whiteout, honoured or not, lies above the topmost holder, and from there. */
  lemma ReaddirIff(fs: Fs, st: Stack, layers: Layers, t: nat, name: string)
    requires ReportsOf(fs, st, layers) && UserName(name) && TopHolder(fs, st, t, name)
    ensures Lists(Merged(layers, |layers|), name) <==> forall c: nat :: c < t ==> !Holds(fs, st, c, Wh(name))
    ensures Lists(Merged(layers, |layers|), name) ==> Source(layers, t, name)
  {
    hide Merged, Lists;
    Plain(name);
    forall i: nat | i < |st| ensures (Has(layers[i], name) <==> Holds(fs, st, i, name))
        && (Whites(layers[i], name) <==> Holds(fs, st, i, Wh(name))) {
      ReportedNames(layers[i], name);
    }
    MergedSource(layers, |layers|, name);
    if forall c: nat :: c < t ==> !Holds(fs, st, c, Wh(name)) { assert Source(layers, t, name); }
  }

  lemma Plain(name: string)
    requires UserName(name)
    ensures !IsWh(name) && name != DIROPQ && Wh(name) !in {".", "..", DIROPQ}
  {
    assert Wh(name)[..4] == WH_PFX;
    assert DIROPQ[..4] == WH_PFX && DIROPQ[4..] == ".wh..opq" && ".wh..opq"[..4] == WH_PFX;
  }

  /** A name nobody holds is neither found nor listed. */
  lemma NobodyHolds(fs: Fs, st: Stack, layers: Layers, name: string)
    requires ReportsOf(fs, st, layers) && UserName(name)
    requires forall i: nat :: !Holds(fs, st, i, name)
    ensures !AnyFound(Found(fs, st, name)) && !Lists(Merged(layers, |layers|), name)
  {
    Plain(name);
    var i := FindTop(fs, st, name, |st|);
    if i < |st| {
      assert !Holds(fs, st, i, name);
      FirstSight(fs, st, i, name);
    } else {
      NoSight(fs, st, name);
    }
    MergedSource(layers, |layers|, name);
    forall b: nat | b < |layers| ensures !Source(layers, b, name) { ReportedNames(layers[b], name); }
  }

  /** Where a whiteout lies above the topmost holder, one that is honoured does. */
  ghost predicate WhiteoutsHeeded(fs: Fs, st: Stack, name: string)
    requires |st| == |fs.br| == |fs.wh|
  {
    forall t: nat, c: nat :: TopHolder(fs, st, t, name) && c < t && Holds(fs, st, c, Wh(name)) ==>
      exists d: nat :: d < t && Holds(fs, st, d, Wh(name)) && fs.wh[d]
  }

  /**
   Lookup and readdir agree on a name, in whether it is there and in the branch it comes from, exactly
   unless a whiteout that is not honoured, and none that is, lies above the topmost holder.
   */
  lemma LookupAgreesWithReaddir(fs: Fs, st: Stack, layers: Layers, name: string)
    requires ReportsOf(fs, st, layers) && UserName(name) && WellFormed(fs, st, name)
    ensures (AnyFound(Found(fs, st, name)) <==> Lists(Merged(layers, |layers|), name)) <==>
            WhiteoutsHeeded(fs, st, name)
    ensures (forall i :: 0 <= i < |st| ==> fs.wh[i]) ==>
            (AnyFound(Found(fs, st, name)) <==> Lists(Merged(layers, |layers|), name))
    ensures forall t: nat ::
              TopHolder(fs, st, t, name) && AnyFound(Found(fs, st, name)) && Lists(Merged(layers, |layers|), name) ==>
                && Source(layers, t, name) && Found(fs, st, name)[t].Some?
                && forall j :: 0 <= j < t ==> Found(fs, st, name)[j].None?
  {
    if i: nat :| Holds(fs, st, i, name) {
      var t := TopmostHolder(fs, st, i, name);
      LookupIff(fs, st, t, name);
      ReaddirIff(fs, st, layers, t, name);
      forall u: nat | TopHolder(fs, st, u, name) ensures u == t {}
    } else {
      NobodyHolds(fs, st, layers, name);
    }
  }

  lemma {:induction false} TopmostHolder(fs: Fs, st: Stack, i: nat, name: string) returns (t: nat)
    requires Holds(fs, st, i, name)
    ensures TopHolder(fs, st, t, name)
    decreases i
  {
    t := i;
    if j: nat :| j < i && Holds(fs, st, j, name) { t := TopmostHolder(fs, st, j, name); }
  }

  /**
   What au_lkup_dentry counts for a new dentry, where markers are not heeded yet, is positive exactly if
   the name is found, and the first entry is the same.
   */
  lemma FreshLookup(fs: Fs, st: Stack, name: string)
    requires |st| == |fs.br| == |fs.wh|
    ensures var f, g := Search(fs, st, name, 0, |st| - 1, None), Found(fs, st, name);
            && (Positives(f) > 0 <==> AnyFound(g))
            && forall t :: 0 <= t < |st| && (forall j :: 0 <= j < t ==> g[j].None?) && g[t].Some? ==>
                 f[t] == g[t] && forall j :: 0 <= j < t ==> f[j].None?
  {
    var s := Met(fs, st, name, 0, |st| - 1, false);
    var f, g := Search(fs, st, name, 0, |st| - 1, None), Found(fs, st, name);
    assert f == Merge(s, Looking) && g == Merge(Sights(fs, st, name), Looking);
    SameShape(s, Sights(fs, st, name));
    PositivesAny(f);
  }

  /** What the lookup of a name that has no dentry yet returns. */
  ghost predicate Answers(fs: Fs, st: Stack, name: string, start: nat, btail: int, udba: bool, err: int, bstart: int)
    requires |st| == |fs.br| == |fs.wh|
  {
    var f := Found(fs, st, name);
    && (err > 0 <==> AnyFound(f)) && (err < 0 <==> udba && NothingHeld(fs, st, name, start, btail))
    && (err > 0 ==> 0 <= bstart < |st| && f[bstart].Some? && forall j :: 0 <= j < bstart ==> f[j].None?)
  }

  /**
   The lookup of a name that has no dentry yet, as aufs_lookup asks for it: the parent's branches are start
   to btail, and none fails that the search gets to.  The count is positive exactly if readdir lists the
   name, unless whiteouts that are not honoured part the two, and the entry listed is the one held first.
   */
  method Fresh(fs: Fs, st: Stack, name: string, start: nat, btail: int, udba: bool, bad: set<nat>, ghost layers: Layers)
    returns (err: int, bstart: int)
    requires ReportsOf(fs, st, layers) && start <= |st| && -1 <= btail < |st| && UserName(name)
    requires forall i :: 0 <= i < |st| && st[i].Some? ==> start <= i <= btail
    requires !Trouble(fs, st, name, start, btail, None, bad)
    ensures Answers(fs, st, name, start, btail, udba, err, bstart)
    ensures WellFormed(fs, st, name) ==>
              && ((err > 0 <==> Lists(Merged(layers, |layers|), name)) <==> WhiteoutsHeeded(fs, st, name))
              && (err > 0 && Lists(Merged(layers, |layers|), name) ==> Source(layers, bstart, name))
              && ((forall i :: 0 <= i < |st| ==> fs.wh[i]) ==> (err > 0 <==> Lists(Merged(layers, |layers|), name)))
  {
    hide Found, Search, Trouble, NothingHeld, Merged, Lists, WhiteoutsHeeded, Met, Positives, WellFormed, AnyFound;
    assert !WhNamed(name);
    ghost var f := Search(fs, st, name, start, btail, None);
    FreshRange(fs, st, name, start, btail);
    FreshLookup(fs, st, name);
    NothingFound(fs, st, name, start, btail);
    if WellFormed(fs, st, name) { LookupAgreesWithReaddir(fs, st, layers, name); }
    var d := new Dentry(|st|);
    err := d.Lkup(fs, st, name, start, btail, None, udba, bad);
    bstart := d.bstart;
    if err > 0 {
      FirstHeld(f, Found(fs, st, name), d.h, start, bstart);
      if WellFormed(fs, st, name) && Lists(Merged(layers, |layers|), name) { TopFound(fs, st, layers, name, bstart); }
    }
  }

  lemma FreshRange(fs: Fs, st: Stack, name: string, start: nat, btail: int)
    requires |st| == |fs.br| == |fs.wh| && forall i :: 0 <= i < |st| && st[i].Some? ==> start <= i <= btail
    ensures Search(fs, st, name, start, btail, None) == Search(fs, st, name, 0, |st| - 1, None)
    ensures forall j :: 0 <= j < start && j < |st| ==> Search(fs, st, name, start, btail, None)[j].None?
  {
    var s := Met(fs, st, name, start, btail, false);
    assert s == Met(fs, st, name, 0, |st| - 1, false);
    forall j: nat | j < start && j < |st| ensures Merge(s, Looking)[j].None? { MergeAt(s, j); }
  }

  /** Where a lookup leaves nothing in the dentry there is nothing to be found. */
  lemma NothingFound(fs: Fs, st: Stack, name: string, start: nat, btail: int)
    requires |st| == |fs.br| == |fs.wh| && forall i :: 0 <= i < |st| && st[i].Some? ==> start <= i <= btail
    ensures NothingHeld(fs, st, name, start, btail) ==> !AnyFound(Found(fs, st, name))
  {
    if i: nat :| InBranch(fs, st, i) {
      var f := FirstInBranch(fs, st, start, btail, i);
      if NothingHeld(fs, st, name, start, btail) {
        forall j | 0 <= j < f ensures See(fs, j, st[j], name) == Nothing { assert !InBranch(fs, st, j); }
        FirstSight(fs, st, f, name);
      }
    } else {
      forall j | 0 <= j < |st| ensures See(fs, j, st[j], name) == Nothing { assert !InBranch(fs, st, j); }
      NoSight(fs, st, name);
    }
  }

  lemma {:induction false} FirstInBranch(fs: Fs, st: Stack, start: nat, btail: int, i: nat) returns (f: nat)
    requires InBranch(fs, st, i) && forall j :: 0 <= j < |st| && st[j].Some? ==> start <= j <= btail
    ensures FirstLooked(fs, st, start, btail, f)
    decreases i
  {
    f := i;
    if j: nat :| j < i && InBranch(fs, st, j) { f := FirstInBranch(fs, st, start, btail, j); }
  }

  lemma FirstHeld(f: seq<Option<Entry>>, g: seq<Option<Entry>>, h: seq<Low>, start: nat, b: nat)
    requires |f| == |g| == |h| && b < |h| && h[b].Pos? && forall j :: 0 <= j < b ==> h[j].Gone?
    requires Lookup.Held(h, f, start, |h|) && (forall j :: 0 <= j < start && j < |h| ==> f[j].None? && h[j].Gone?)
             && AnyFound(g)
    requires forall t :: 0 <= t < |f| && (forall j :: 0 <= j < t ==> g[j].None?) && g[t].Some? ==>
               f[t] == g[t] && forall j :: 0 <= j < t ==> f[j].None?
    ensures g[b].Some? && forall j :: 0 <= j < b ==> g[j].None?
  {
    var i :| 0 <= i < |g| && g[i].Some?;
    var t := FirstSome(g, i);
    assert b >= start;
    assert Lookup.Holds(h[b], f[b]);
    assert t < start || Lookup.Holds(h[t], f[t]);
    assert t == b;
  }

  lemma {:induction false} FirstSome(g: seq<Option<Entry>>, i: nat) returns (t: nat)
    requires i < |g| && g[i].Some?
    ensures t < |g| && g[t].Some? && forall j :: 0 <= j < t ==> g[j].None?
  {
    t := i;
    if j: nat :| j < i && g[j].Some? { t := FirstSome(g, j); }
  }

  lemma TopFound(fs: Fs, st: Stack, layers: Layers, name: string, b: nat)
    requires ReportsOf(fs, st, layers) && UserName(name) && WellFormed(fs, st, name) && b < |st|
    requires Found(fs, st, name)[b].Some? && (forall j :: 0 <= j < b ==> Found(fs, st, name)[j].None?)
    requires Lists(Merged(layers, |layers|), name)
    ensures Source(layers, b, name)
  {
    LookupAgreesWithReaddir(fs, st, layers, name);
    FoundSeen(fs, st, name, b);
    hide Merged, Lists, Found;
    var t := TopmostHolder(fs, st, b, name);
    assert AnyFound(Found(fs, st, name)) && t == b;
  }

  /** The upper of two branches has a whiteout that it does not honour: the name is found and not listed. */
  lemma FoundNotListed()
    ensures var fs := Fs([map[0 := Node(0, false, map[".wh.n" := File(0)])],
                map[0 := Node(0, false, map["n" := File(1)])]], [false, true]);
            var layers: Layers := [[Lower(".wh.n", 12, 0)], [Lower("n", 13, 0)]];
            && ReportsOf(fs, [Some(0), Some(0)], layers) && AnyFound(Found(fs, [Some(0), Some(0)], "n"))
            && !Lists(Merged(layers, 2), "n")
  {
    var fs := Fs([map[0 := Node(0, false, map[".wh.n" := File(0)])], map[0 := Node(0, false, map["n" := File(1)])]],
        [false, true]);
    var layers: Layers := [[Lower(".wh.n", 12, 0)], [Lower("n", 13, 0)]];
    var st := [Some(0), Some(0)];
    assert Wh("n") == ".wh.n" && |"n"| == 1 && |".wh.n"| == 5;
    assert layers[0][0].name == ".wh.n" && layers[1][0].name == "n";
    assert Reported(layers[0], ".wh.n") && Reported(layers[1], "n");
    assert Holds(fs, st, 0, Wh("n")) && TopHolder(fs, st, 1, "n");
    LookupIff(fs, st, 1, "n");
    ReaddirIff(fs, st, layers, 1, "n");
  }
}
