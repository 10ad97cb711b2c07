/** The test whether a directory of the union is empty (dir.c), which keeps one whiteout list for all branches. */
module TestEmpty {

  import opened Errno
  import opened Names
  import opened NHash
  import opened Listing

  predicate Dot(name: string) {
    |name| > 0 && name[0] == '.' && (|name| == 1 || (name[1] == '.' && |name| == 2))
  }

  /** That is the two names every directory has, and no other. */
  lemma DotIff(name: string)
    ensures Dot(name) <==> name == "." || name == ".."
  {
    if Dot(name) { assert name == if |name| == 1 then "." else ".."; }
  }

  /** The branches list nothing but the two names every directory has. */
  ghost predicate Bare(layers: Layers) {
    forall b, k :: 0 <= b < |layers| && 0 <= k < |layers[b]| ==> layers[b][k].name == "." || layers[b][k].name == ".."
  }

  /** Such branches pass for empty. */
  lemma BareIsHarmless(layers: Layers, from: nat)
    requires Bare(layers) && from <= |layers|
    ensures HarmlessUpTo(layers, from, |layers|, 0)
  {
    forall b, k | 0 <= b < |layers| && 0 <= k < |layers[b]| ensures Harmless(layers, b, k) {
      DotIff(layers[b][k].name);
    }
  }

  /** A whiteout of the name comes before entry k of branch b when the branches are read in order. */
  ghost predicate WhitedBefore(layers: Layers, b: nat, k: nat, name: string)
    requires b < |layers| && k <= |layers[b]|
  {
    (exists c :: 0 <= c < b && Whites(layers[c], name)) || Whites(layers[b][..k], name)
  }

  /** The entry is none that keeps a directory from being empty. */
  ghost predicate Harmless(layers: Layers, b: nat, k: nat)
    requires b < |layers| && k < |layers[b]|
  {
    var name := layers[b][k].name;
    Dot(name) || IsWh(name) || WhitedBefore(layers, b, k, name)
  }

  /** The entries of the branches from on, up to entry k of branch b, are harmless. */
  ghost predicate HarmlessUpTo(layers: Layers, from: nat, b: nat, k: nat) {
    && (forall c, j :: from <= c < b && c < |layers| && 0 <= j < |layers[c]| ==> Harmless(layers, c, j))
    && (from <= b < |layers| ==> forall j :: 0 <= j < k && j < |layers[b]| ==> Harmless(layers, b, j))
  }

  /** No branch lists both a name and its whiteout. */
  ghost predicate WellFormed(layers: Layers) {
    forall b, name :: 0 <= b < |layers| && Has(layers[b], name) ==> !Whites(layers[b], name)
  }

  /** struct test_empty_arg. */
  class Arg {
    var whlist: Heads

    constructor ()
      ensures Hashed(whlist) && Members(whlist) == {}
    {
      whlist := Init();
    }

    /** The list holds the whiteouts read so far. */
    ghost predicate Knows(layers: Layers, b: nat, k: nat)
      requires b < |layers| ==> k <= |layers[b]|
      reads this
    {
      && Hashed(whlist)
      && forall name :: name in Members(whlist) <==>
           if b < |layers| then WhitedBefore(layers, b, k, name)
           else exists c :: 0 <= c < |layers| && Whites(layers[c], name)
    }

    /** test_empty_cb. */
    method Callback(ghost layers: Layers, ghost b: nat, ghost k: nat, name: string, whOnly: bool) returns (err: int)
      requires b < |layers| && k < |layers[b]| && layers[b][k].name == name && name != "" && Knows(layers, b, k)
      modifies this
      ensures Knows(layers, b, k + 1) && err in {0, -ENOTEMPTY}
      ensures err == 0 <==> !whOnly || Harmless(layers, b, k)
    {
      NextWhited(layers, b, k);
      if name[0] == '.' && (|name| == 1 || (name[1] == '.' && |name| == 2)) { return 0; }
      if !IsWh(name) {
        var known := TestKnown(whlist, name);
        return if whOnly && !known then -ENOTEMPTY else 0;
      }
      var known := TestKnown(whlist, name[4..]);
      if !known {
        AddMember(whlist, name[4..]);
        whlist := AddHead(whlist, name[4..]);
      }
      return 0;
    }

    /** do_test_empty on branch b, which is not read past an entry that spoils it. */
    method DoTestEmpty(layers: Layers, b: nat, whOnly: bool) returns (err: int)
      requires b < |layers| && Knows(layers, b, 0) && forall k :: 0 <= k < |layers[b]| ==> layers[b][k].name != ""
      modifies this
      ensures err in {0, -ENOTEMPTY} && (err == 0 ==> Knows(layers, b + 1, 0))
      ensures err == 0 <==> !whOnly || forall k :: 0 <= k < |layers[b]| ==> Harmless(layers, b, k)
    {
      var l := layers[b];
      var k := 0;
      while k < |l|
        invariant 0 <= k <= |l| && Knows(layers, b, k)
        invariant whOnly ==> forall j :: 0 <= j < k ==> Harmless(layers, b, j)
      {
        hide Knows, Harmless;
        err := Callback(layers, b, k, l[k].name, whOnly);
        if err != 0 { return; }
        k := k + 1;
      }
      assert l[..k] == l;
      err := 0;
    }

    /** The loop that au_test_empty and au_test_empty_lower share: all branches from on must be harmless. */
    method TestFrom(layers: Layers, from: nat) returns (err: int)
      requires from <= |layers| && Knows(layers, from, 0) && NamesOk(layers)
      modifies this
      ensures err in {0, -ENOTEMPTY} && (err == 0 <==> HarmlessUpTo(layers, from, |layers|, 0))
    {
      var b := from;
      while b < |layers|
        invariant from <= b <= |layers| && Knows(layers, b, 0) && HarmlessUpTo(layers, from, b, 0)
      {
        hide Knows, Harmless;
        err := DoTestEmpty(layers, b, true);
        if err != 0 { return; }
        b := b + 1;
      }
      err := 0;
    }

    /** au_test_empty: bstart is the first branch that has the directory. */
    method TestEmpty(layers: Layers, bstart: nat) returns (err: int)
      requires NamesOk(layers) && Hashed(whlist) && Members(whlist) == {} && StartsAt(layers, bstart)
      modifies this
      ensures err in {0, -ENOTEMPTY} && (err == 0 <==> HarmlessUpTo(layers, bstart, |layers|, 0))
      ensures Bare(layers) ==> err == 0
    {
      if Bare(layers) { BareIsHarmless(layers, bstart); }
      err := TestFrom(layers, bstart);
    }

    /** au_test_empty_lower: the first branch only contributes its whiteouts. */
    method TestEmptyLower(layers: Layers, bstart: nat) returns (err: int)
      requires NamesOk(layers) && Hashed(whlist) && Members(whlist) == {} && StartsAt(layers, bstart)
               && bstart < |layers|
      modifies this
      ensures err in {0, -ENOTEMPTY} && (err == 0 <==> HarmlessUpTo(layers, bstart + 1, |layers|, 0))
      ensures Bare(layers[bstart + 1..]) ==> err == 0
    {
      if Bare(layers[bstart + 1..]) { LowerBare(layers, bstart + 1); }
      err := DoTestEmpty(layers, bstart, false);
      err := TestFrom(layers, bstart + 1);
    }
  }

  lemma LowerBare(layers: Layers, from: nat)
    requires from <= |layers| && Bare(layers[from..])
    ensures HarmlessUpTo(layers, from, |layers|, 0)
  {
    forall b, k | from <= b < |layers| && 0 <= k < |layers[b]| ensures Harmless(layers, b, k) {
      assert layers[b] == layers[from..][b - from];
      DotIff(layers[b][k].name);
    }
  }

  /** Branches above bstart report nothing. */
  ghost predicate StartsAt(layers: Layers, bstart: nat) {
    bstart <= |layers| && forall b :: 0 <= b < bstart ==> layers[b] == []
  }

  ghost predicate NamesOk(layers: Layers) {
    forall b, k :: 0 <= b < |layers| && 0 <= k < |layers[b]| ==> layers[b][k].name != ""
  }

  lemma NextWhited(layers: Layers, b: nat, k: nat)
    requires b < |layers| && k < |layers[b]|
    ensures forall name :: WhitedBefore(layers, b, k + 1, name) <==>
              WhitedBefore(layers, b, k, name) || (IsWh(layers[b][k].name) && layers[b][k].name[4..] == name)
  {
    forall name ensures WhitedBefore(layers, b, k + 1, name) <==>
                        WhitedBefore(layers, b, k, name) || (IsWh(layers[b][k].name) && layers[b][k].name[4..] == name)
    {
      hide Whites;
      HasNext(layers[b], k + 1, name);
    }
  }

  /** On well-formed branches only a whiteout of a branch above makes a name harmless. */
  lemma HarmlessAbove(layers: Layers, b: nat, k: nat)
    requires WellFormed(layers) && b < |layers| && k < |layers[b]| && !Dot(layers[b][k].name)
             && !IsWh(layers[b][k].name)
    ensures Harmless(layers, b, k) <==> exists c :: 0 <= c < b && Whites(layers[c], layers[b][k].name)
  {
    var name := layers[b][k].name;
    assert Has(layers[b], name);
    WhitesPrefix(layers[b], k, name);
  }

  lemma WhitesPrefix(l: seq<Lower>, k: nat, name: string)
    requires k <= |l|
    ensures Whites(l[..k], name) ==> Whites(l, name)
  {
    if Whites(l[..k], name) {
      var j :| 0 <= j < k && IsWh(l[..k][j].name) && l[..k][j].name[4..] == name;
      assert IsWh(l[j].name) && l[j].name[4..] == name;
    }
  }

  /** The merged listing holds nothing but "." and "..". */
  ghost predicate OnlyDots(layers: Layers) {
    forall name :: Lists(Merged(layers, |layers|), name) ==> name == "." || name == ".."
  }

  /** On well-formed branches au_test_empty succeeds exactly if readdir shows an empty directory. */
  lemma EmptyIffOnlyDots(layers: Layers, bstart: nat)
    requires WellFormed(layers) && StartsAt(layers, bstart)
    ensures HarmlessUpTo(layers, bstart, |layers|, 0) <==> OnlyDots(layers)
  {
    if OnlyDots(layers) {
      forall b, k | bstart <= b < |layers| && 0 <= k < |layers[b]| ensures Harmless(layers, b, k) {
        var name := layers[b][k].name;
        DotIff(name);
        if !Dot(name) && !IsWh(name) {
          ListedIff(layers, name);
          assert Has(layers[b], name);
          HarmlessAbove(layers, b, k);
        }
      }
    }
    if HarmlessUpTo(layers, bstart, |layers|, 0) {
      forall name | Lists(Merged(layers, |layers|), name) ensures name == "." || name == ".." {
        DotIff(name);
        ListedIff(layers, name);
        var b: nat :| b < |layers| && Has(layers[b], name) && forall c :: 0 <= c < b ==> !Whites(layers[c], name);
        var k :| 0 <= k < |layers[b]| && layers[b][k].name == name;
        assert Harmless(layers, b, k);
        if !Dot(name) { HarmlessAbove(layers, b, k); }
      }
    }
  }

  lemma LowerHidden(layers: Layers, bstart: nat, b: nat, name: string)
    requires WellFormed(layers) && StartsAt(layers, bstart) && HarmlessUpTo(layers, bstart + 1, |layers|, 0)
    requires !Dot(name) && Source(layers, b, name)
    ensures b == bstart
  {
    var k :| 0 <= k < |layers[b]| && layers[b][k].name == name;
    if b > bstart {
      assert Harmless(layers, b, k);
      HarmlessAbove(layers, b, k);
    }
  }

  lemma TopSource(layers: Layers, bstart: nat, name: string)
    requires StartsAt(layers, bstart) && bstart < |layers|
    ensures Has(layers[bstart], name) <==> Source(layers, bstart, name)
  {
  }

  /** Then what au_test_empty_lower accepts shows nothing of the lower branches. */
  lemma LowerEmptyShowsTop(layers: Layers, bstart: nat, name: string)
    requires WellFormed(layers) && StartsAt(layers, bstart) && bstart < |layers|
             && HarmlessUpTo(layers, bstart + 1, |layers|, 0)
    requires name != "." && name != ".."
    ensures Lists(Merged(layers, |layers|), name) <==> Has(layers[bstart], name)
    ensures forall b: nat :: Source(layers, b, name) ==> b == bstart
  {
    DotIff(name);
    hide HarmlessUpTo, WellFormed, Merged, Lists;
    MergedSource(layers, |layers|, name);
    TopSource(layers, bstart, name);
    hide Source, Has, StartsAt;
    forall b: nat | Source(layers, b, name) ensures b == bstart { LowerHidden(layers, bstart, b, name); }
  }

  /** A branch that lists a name behind its own whiteout passes for empty, although readdir shows the name. */
  lemma IllFormedPasses()
    ensures var layers := [[Lower(".wh.a", 1, 8), Lower("a", 2, 8)]];
            HarmlessUpTo(layers, 0, 1, 0) && !OnlyDots(layers)
  {
    var layers := [[Lower(".wh.a", 1, 8), Lower("a", 2, 8)]];
    var l := layers[0];
    assert IsWh(l[0].name) by { assert ".wh.a"[..4] == WH_PFX; }
    assert ".wh.a"[4..] == "a";
    assert l[..1][0].name[4..] == "a" && Whites(l[..1], "a");
    assert Harmless(layers, 0, 0) && Harmless(layers, 0, 1);
    ListedIff(layers, "a");
    assert l[1].name == "a" && Has(layers[0], "a");
  }
}
