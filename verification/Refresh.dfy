/**
 Re-indexing of the tables that hold one slot per branch, after branches were added or deleted
 (inode.c, iinfo.c, file.c).  A slot remembers the id of the branch it was filled from; refreshing
 moves each slot to that branch's current index and releases the slots whose branch is gone.
 */
module Refresh {

  import opened Errno
  import opened BranchIds

  /** A table slot: the lower object (hi_inode or hf_file, 0 is NULL) and its branch's id (hi_id or hf_br->br_id). */
  datatype Slot = Slot(lower: nat, branch: int) {
    predicate Used() { lower != 0 }
  }

  ghost predicate AtHome(ids: seq<int>, h: Slot, i: int) {
    0 <= i < |ids| && ids[i] == h.branch
  }

  ghost predicate OnePerBranch(s: seq<Slot>) {
    forall i, j :: 0 <= i < j < |s| && s[i].Used() && s[j].Used() ==> s[i].branch != s[j].branch
  }

  ghost predicate NoDup(s: seq<Slot>) {
    forall i, j :: 0 <= i < j < |s| ==> s[i] != s[j]
  }

  /** The slots that still have to move or go. */
  ghost function Misplaced(ids: seq<int>, s: seq<Slot>): set<int> {
    set i | 0 <= i < |s| && s[i].Used() && !AtHome(ids, s[i], i)
  }

  /** h is in the table before and its branch is gone. */
  ghost predicate Orphan(ids: seq<int>, before: seq<Slot>, h: Slot) {
    h in before && h.Used() && h.branch !in ids
  }

  /**
   What a refresh promises: everything in the table afterwards was there before and sits at its
   branch's index, everything whose branch exists is in the table, and exactly the orphans were released.
   */
  ghost predicate Refreshed(ids: seq<int>, before: seq<Slot>, after: seq<Slot>, dead: seq<Slot>) {
    && (forall j :: 0 <= j < |after| && after[j].Used() ==> after[j] in before && AtHome(ids, after[j], j))
    && (forall h :: h in before && h.Used() && h.branch in ids ==> h in after)
    && (forall h :: h in dead <==> Orphan(ids, before, h))
    && NoDup(dead)
  }

  ghost predicate AnyUsed(s: seq<Slot>) {
    exists i :: 0 <= i < |s| && s[i].Used()
  }

  /** Some entry's branch is still there. */
  ghost predicate AnySurvives(ids: seq<int>, s: seq<Slot>) {
    exists i :: 0 <= i < |s| && s[i].Used() && s[i].branch in ids
  }

  lemma SurvivesIffUsed(ids: seq<int>, before: seq<Slot>, after: seq<Slot>, dead: seq<Slot>)
    requires Refreshed(ids, before, after, dead)
    ensures AnyUsed(after) <==> AnySurvives(ids, before)
  {
    if i :| 0 <= i < |before| && before[i].Used() && before[i].branch in ids {
      assert before[i] in after;
    }
    if j :| 0 <= j < |after| && after[j].Used() {
      assert after[j] in before && AtHome(ids, after[j], j);
    }
  }

  /** A dentry that supplies an inode leaves one in a table that had none, and nothing else does. */
  lemma FilledUsed(ids: seq<int>, mid: seq<Slot>, hd: seq<nat>, lo: nat, k: int, dend: int)
    requires |hd| == |ids| <= |mid| && dend < k && dend < |ids| && !AnyUsed(mid) && (k <= dend + 1 || k == lo)
    ensures AnyUsed(Filled(ids, mid, hd, lo, k)) <==> exists i :: lo <= i <= dend && hd[i] != 0
  {
    var r := Filled(ids, mid, hd, lo, k);
    if i :| lo <= i <= dend && hd[i] != 0 { assert r[i].Used(); }
  }

  /** lo and hi are the first and the last used slot, or both -1 when there is none. */
  ghost predicate TightBounds(s: seq<Slot>, lo: int, hi: int) {
    if !AnyUsed(s)
    then lo == -1 && hi == -1
    else 0 <= lo <= hi < |s| && s[lo].Used() && s[hi].Used()
         && forall i :: 0 <= i < |s| && s[i].Used() ==> lo <= i <= hi
  }

  /** A refreshed table is determined: a surviving entry is found at its branch's index and nowhere else. */
  lemma SurvivorHasOnePlace(ids: seq<int>, before: seq<Slot>, after: seq<Slot>, dead: seq<Slot>, h: Slot, j: int)
    requires Distinct(ids) && Refreshed(ids, before, after, dead)
    requires h in before && h.Used() && h.branch in ids && 0 <= j < |after|
    ensures 0 <= IndexOf(ids, h.branch) < |after|
    ensures after[j] == h <==> j == IndexOf(ids, h.branch)
  {
    var k :| 0 <= k < |after| && after[k] == h;
    IndexOfIsPlace(ids, k);
    if after[j] == h { IndexOfIsPlace(ids, j); }
  }

  /** Nothing is lost and nothing is invented: each used entry before either survives or was released. */
  lemma SurvivesOrReleased(ids: seq<int>, before: seq<Slot>, after: seq<Slot>, dead: seq<Slot>, h: Slot)
    requires Refreshed(ids, before, after, dead) && h.Used()
    ensures h in before <==> (h in after) != (h in dead)
    ensures h in after ==> h !in dead
  {
    if h in after {
      var j :| 0 <= j < |after| && after[j] == h;
      assert AtHome(ids, h, j);
    }
  }

  ghost predicate WithinBounds(s: seq<Slot>, lo: int, hi: int) {
    0 <= lo && hi < |s| && forall i :: 0 <= i < |s| && s[i].Used() ==> lo <= i <= hi
  }

  /**
   The loop at position b: the used entries are the original ones less the released orphans, and
   everything before b is at home.
   */
  ghost predicate Settling(ids: seq<int>, before: seq<Slot>, s: seq<Slot>, dead: seq<Slot>, b: int) {
    && OnePerBranch(s)
    && NoDup(dead)
    && (forall h :: h in dead ==> Orphan(ids, before, h))
    && (forall h: Slot :: h.Used() ==> (h in before <==> h in s || h in dead))
    && (forall h :: h in s ==> h !in dead)
    && (forall i :: 0 <= i < |s| && i < b && s[i].Used() ==> AtHome(ids, s[i], i))
  }

  lemma PassStep(ids: seq<int>, before: seq<Slot>, s: seq<Slot>, dead: seq<Slot>, p: int)
    requires Settling(ids, before, s, dead, p) && 0 <= p < |s| && (s[p].Used() ==> AtHome(ids, s[p], p))
    ensures Settling(ids, before, s, dead, p + 1)
  {
  }

  /** Swapping a misplaced slot into its place keeps the contents and leaves fewer misplaced slots. */
  lemma SwapStep(ids: seq<int>, before: seq<Slot>, s: seq<Slot>, dead: seq<Slot>, p: int, q: int)
    requires Distinct(ids) && Settling(ids, before, s, dead, p)
    requires 0 <= p < |s| && 0 <= q < |s| && p != q
    requires s[p].Used() && AtHome(ids, s[p], q)
    ensures var t := s[q := s[p]][p := s[q]];
            && Misplaced(ids, t) < Misplaced(ids, s)
            && Settling(ids, before, t, dead, p)
            && (!t[p].Used() ==> Settling(ids, before, t, dead, p + 1))
  {
    var t := s[q := s[p]][p := s[q]];
    assert p in Misplaced(ids, s);
    if s[q].Used() {
      assert !AtHome(ids, s[q], q);
      assert q in Misplaced(ids, s) && q !in Misplaced(ids, t);
    } else {
      assert p !in Misplaced(ids, t);
    }
    forall h ensures h in t <==> h in s {
      if h in s { var i :| 0 <= i < |s| && s[i] == h; assert t[i] == h || t[p] == h || t[q] == h; }
      if h in t { var i :| 0 <= i < |t| && t[i] == h; assert s[i] == h || s[p] == h || s[q] == h; }
    }
  }

  lemma ReleaseStep(ids: seq<int>, before: seq<Slot>, s: seq<Slot>, dead: seq<Slot>, p: int)
    requires Settling(ids, before, s, dead, p)
    requires 0 <= p < |s| && s[p].Used() && s[p].branch !in ids
    ensures var t := s[p := s[p].(lower := 0)];
            && Misplaced(ids, t) < Misplaced(ids, s)
            && Settling(ids, before, t, dead + [s[p]], p + 1)
  {
    var t := s[p := s[p].(lower := 0)];
    assert p in Misplaced(ids, s) && p !in Misplaced(ids, t);
    forall h: Slot | h.Used() ensures h in t <==> h in s && h != s[p] {
      if h in s && h != s[p] { var i :| 0 <= i < |s| && s[i] == h; assert t[i] == h; }
    }
  }

  lemma Settled(ids: seq<int>, before: seq<Slot>, s: seq<Slot>, dead: seq<Slot>, b: int)
    requires Settling(ids, before, s, dead, b)
    requires forall i :: 0 <= i < |s| && b <= i && s[i].Used() ==> AtHome(ids, s[i], i)
    ensures Refreshed(ids, before, s, dead)
  {
    forall h | Orphan(ids, before, h) ensures h in dead {
    }
  }

  ghost predicate SameEntries(s: seq<Slot>, t: seq<Slot>) {
    forall h: Slot :: h.Used() ==> (h in s <==> h in t)
  }

  /** au_kzrealloc: at least n slots, the ones past the first used ones cleared when it grows. */
  method Krealloc(a: array<Slot>, used: nat, n: nat) returns (b: array<Slot>)
    requires used <= a.Length && forall i :: used <= i < a.Length ==> !a[i].Used()
    ensures (b == a || fresh(b)) && n <= b.Length && used <= b.Length
    ensures forall i :: 0 <= i < b.Length ==> if i < used then b[i] == a[i] else !b[i].Used()
    ensures SameEntries(a[..], b[..])
    ensures OnePerBranch(a[..]) ==> OnePerBranch(b[..])
  {
    if n <= used { return a; }
    b := new Slot[n](i requires i >= 0 reads a => if i < used && i < a.Length then a[i] else Slot(0, 0));
    forall h: Slot | h.Used() ensures h in b[..] <==> h in a[..] {
      if h in a[..] { var i :| 0 <= i < a.Length && a[i] == h; assert b[i] == h; }
      if h in b[..] { var i :| 0 <= i < b.Length && b[i] == h; assert a[i] == h; }
    }
  }

  lemma SameUsed(ids: seq<int>, before: seq<Slot>, grown: seq<Slot>, after: seq<Slot>, dead: seq<Slot>)
    requires Refreshed(ids, grown, after, dead)
    requires SameEntries(before, grown)
    ensures Refreshed(ids, before, after, dead)
  {
    forall h ensures Orphan(ids, before, h) <==> Orphan(ids, grown, h) {}
  }

  lemma RefreshedUnique(ids: seq<int>, before: seq<Slot>, after: seq<Slot>, dead: seq<Slot>)
    requires Distinct(ids) && Refreshed(ids, before, after, dead)
    ensures OnePerBranch(after)
  {
    forall i, j | 0 <= i < j < |after| && after[i].Used()
        && after[j].Used() ensures after[i].branch != after[j].branch {
      assert AtHome(ids, after[i], i) && AtHome(ids, after[j], j);
    }
  }

  /** The table mid after the dentry's lower inodes in [lo, k) were taken over. */
  function Filled(ids: seq<int>, mid: seq<Slot>, hd: seq<nat>, lo: nat, k: int): (r: seq<Slot>)
    requires |hd| == |ids|
    ensures |r| == |mid|
  {
    seq(|mid|, i requires 0 <= i < |mid| =>
      if lo <= i < k && i < |ids| && hd[i] != 0 && !mid[i].Used() then Slot(hd[i], ids[i]) else mid[i])
  }

  /** The dentry and the table disagree about branch i. */
  ghost predicate Conflict(mid: seq<Slot>, hd: seq<nat>, i: int) {
    0 <= i < |mid| && i < |hd| && hd[i] != 0 && mid[i].Used() && mid[i].lower != hd[i]
  }

  /** struct au_iinfo, with the lower inodes given back so far (iput) as a log. */
  class IInfo {
    var hinode: array<Slot>
    var bstart: int
    var bend: int
    var version: int
    const isDir: bool
    var released: seq<Slot>

    ghost predicate Valid()
      reads this, hinode
    {
      && -1 <= bstart <= bend < hinode.Length
      && (bstart < 0 ==> bend < 0)
      && OnePerBranch(hinode[..])
      && forall i :: 0 <= i < hinode.Length && hinode[i].Used() ==> bstart <= i <= bend
    }

    constructor (table: array<Slot>, dir: bool)
      ensures hinode == table && isDir == dir && bstart == bend == -1 && version == 0 && released == []
    {
      hinode, isDir, bstart, bend, version, released := table, dir, -1, -1, 0, [];
    }

    /** au_update_brange(inode, 0): narrow the bounds, unless the lower bound is already negative. */
    method UpdateBrange()
      requires bend < hinode.Length
      requires forall i :: 0 <= i < hinode.Length && hinode[i].Used() ==> i <= bend
      modifies this`bstart, this`bend
      ensures old(bstart) >= 0 ==> TightBounds(hinode[..], bstart, bend)
      ensures old(bstart) < 0 ==> bstart == old(bstart) && bend == old(bend)
    {
      if bstart < 0 { return; }
      bstart := 0;
      while bstart <= bend && !hinode[bstart].Used()
        invariant 0 <= bstart && bend == old(bend)
        invariant forall i :: 0 <= i < bstart && i < hinode.Length ==> !hinode[i].Used()
      {
        bstart := bstart + 1;
      }
      if bstart > bend {
        bstart, bend := -1, -1;
        return;
      }
      while 0 <= bend && !hinode[bend].Used()
        invariant 0 <= bstart <= bend < hinode.Length
        invariant hinode[bstart].Used() && forall i :: 0 <= i < bstart ==> !hinode[i].Used()
        invariant forall i :: bend < i < hinode.Length ==> !hinode[i].Used()
      {
        bend := bend - 1;
      }
    }

    method Grow(n: nat)
      requires Valid()
      modifies this`hinode
      ensures Valid() && (hinode == old(hinode) || fresh(hinode)) && n <= hinode.Length
      ensures SameEntries(old(hinode[..]), hinode[..])
    {
      hinode := Krealloc(hinode, bend + 1, n);
    }

    method Drop(p: int)
      requires 0 <= p < hinode.Length
      modifies hinode, this`released
      ensures hinode[..] == old(hinode[..])[p := old(hinode[p]).(lower := 0)]
      ensures released == old(released) + [old(hinode[p])]
    {
      released := released + [hinode[p]];
      hinode[p] := hinode[p].(lower := 0);
    }

    method Swap(p: int, q: int)
      requires 0 <= p < hinode.Length && 0 <= q < hinode.Length
      modifies hinode
      ensures hinode[..] == old(hinode[..])[q := old(hinode[p])][p := old(hinode[q])]
    {
      var tmp := hinode[q];
      hinode[q] := hinode[p];
      hinode[p] := tmp;
    }

    /** One round of the loop: b2 is where the next round looks, more are the slots released here. */
    method Round(ids: seq<int>, b: int, ghost before: seq<Slot>, ghost dead: seq<Slot>)
      returns (b2: int, ghost more: seq<Slot>)
      requires Distinct(ids) && |ids| <= hinode.Length && 0 <= b <= bend
      requires WithinBounds(hinode[..], bstart, bend) && Settling(ids, before, hinode[..], dead, b)
      modifies this`bstart, this`bend, this`released, hinode
      ensures WithinBounds(hinode[..], bstart, bend) && Settling(ids, before, hinode[..], dead + more, b2)
      ensures released == old(released) + more
      ensures 0 <= b2 <= bend + 1
      ensures Misplaced(ids, hinode[..]) < old(Misplaced(ids, hinode[..]))
              || (b2 == b + 1 && bend == old(bend) && Misplaced(ids, hinode[..]) == old(Misplaced(ids, hinode[..])))
    {
      hide Settling, Misplaced, OnePerBranch, Distinct;
      ghost var s := hinode[..];
      more := [];
      assert dead + [] == dead;
      var newIndex := BrIndex(ids, hinode[b].branch);
      if !hinode[b].Used() || newIndex == b {
        PassStep(ids, before, s, dead, b);
        b2 := b + 1;
      } else if newIndex < 0 {
        ReleaseStep(ids, before, s, dead, b);
        more := [s[b]];
        Drop(b);
        b2 := b + 1;
      } else {
        SwapStep(ids, before, s, dead, b, newIndex);
        bstart := if newIndex < bstart then newIndex else bstart;
        bend := if bend < newIndex then newIndex else bend;
        var tmp := hinode[newIndex];
        Swap(b, newIndex);
        b2 := if tmp.Used() then b else b + 1;
      }
    }

    /**
     The loop of au_refresh_hinode_self: swap each misplaced slot into its branch's index and look at
     the same position again, until every slot is at home or released.
     */
    method Settle(ids: seq<int>)
      requires Valid() && 0 <= bstart && Distinct(ids) && |ids| <= hinode.Length
      modifies this`bstart, this`bend, this`released, hinode
      ensures WithinBounds(hinode[..], bstart, bend)
      ensures old(released) <= released
      ensures Refreshed(ids, old(hinode[..]), hinode[..], released[|old(released)|..])
    {
      ghost var before := hinode[..];
      ghost var dead, more := [], [];
      var b := bstart;
      while b <= bend
        invariant 0 <= b <= bend + 1 && released == old(released) + dead
        invariant WithinBounds(hinode[..], bstart, bend) && Settling(ids, before, hinode[..], dead, b)
        decreases Misplaced(ids, hinode[..]), bend - b
      {
        b, more := Round(ids, b, before, dead);
        dead := dead + more;
      }
      Settled(ids, before, hinode[..], dead, b);
    }

    /**
     au_refresh_hinode_self, for a mount whose branches have these ids, top first.  wild says that
     au_cpup_attr_all then reads a lower inode at index -1: the case that none survived is not looked at.
     */
    method RefreshSelf(ids: seq<int>, oom: bool) returns (err: int, wild: bool)
      requires Valid() && 0 <= bstart && Distinct(ids)
      modifies this, hinode
      ensures Valid()
      ensures oom ==> err == -ENOMEM && hinode == old(hinode) && hinode[..] == old(hinode[..])
                      && bstart == old(bstart) && bend == old(bend)
                      && released == old(released) && version == old(version)
      ensures !oom ==> err == 0 && (hinode == old(hinode) || fresh(hinode)) && |ids| <= hinode.Length
      ensures !oom ==> old(released) <= released
                       && Refreshed(ids, old(hinode[..]), hinode[..], released[|old(released)|..])
      ensures !oom ==> TightBounds(hinode[..], bstart, bend)
      ensures wild <==> !oom && !AnySurvives(ids, old(hinode[..]))
      ensures !oom ==> version == old(version) + if isDir && released != old(released) then 1 else 0
    {
      hide Refreshed, Distinct, AnySurvives, OnePerBranch;
      if oom { return -ENOMEM, false; }
      ghost var before := hinode[..];
      var given := |released|;
      Grow(|ids|);
      ghost var grown := hinode[..];
      Settle(ids);
      SameUsed(ids, before, grown, hinode[..], released[|old(released)|..]);
      RefreshedUnique(ids, before, hinode[..], released[|old(released)|..]);
      UpdateBrange();
      SurvivesIffUsed(ids, before, hinode[..], released[|old(released)|..]);
      wild := bstart < 0;
      if |released| > given && isDir { version := version + 1; }
      err := 0;
    }

    /** One slot of the loop in au_refresh_hinode: take the dentry's lower inode unless the slot is in use. */
    method Take(ids: seq<int>, i: int, hd: nat) returns (stale: bool)
      requires 0 <= i < |ids| <= hinode.Length && hd != 0 && bend < hinode.Length
      requires forall k :: 0 <= k < hinode.Length && hinode[k].Used() ==> bstart <= k <= bend
      modifies this`bstart, this`bend, hinode
      ensures stale <==> old(hinode[i]).Used() && old(hinode[i]).lower != hd
      ensures hinode[..] == if old(hinode[i]).Used() then old(hinode[..]) else old(hinode[..])[i := Slot(hd, ids[i])]
      ensures bend < hinode.Length && (if old(bstart) < 0 then bstart == old(bstart) else bstart >= 0)
      ensures bend == old(bend) || (0 <= bend && hinode[bend].Used())
      ensures forall k :: 0 <= k < hinode.Length && hinode[k].Used() ==> bstart <= k <= bend
    {
      if bstart <= i <= bend && hinode[i].Used() {
        return hinode[i].lower != hd;
      }
      bstart := if i < bstart then i else bstart;
      bend := if bend < i then i else bend;
      hinode[i] := Slot(hd, ids[i]);
      stale := false;
    }

    /** The loop of au_refresh_hinode over the dentry's branches; k is where it stopped. */
    method TakeAll(ids: seq<int>, hd: seq<nat>, dstart: nat, dend: int) returns (err: int, k: int)
      requires |hd| == |ids| <= hinode.Length && dend < |ids| && bend < hinode.Length
      requires forall j :: 0 <= j < hinode.Length && hinode[j].Used() ==> bstart <= j <= bend
      requires bstart < 0 <==> !AnyUsed(hinode[..])
      modifies this`bstart, this`bend, hinode
      ensures hinode[..] == Filled(ids, old(hinode[..]), hd, dstart, k)
      ensures err == 0 ==> k > dend && (k <= dend + 1 || k == dstart)
      ensures err != 0 ==> err == -ESTALE && dstart <= k <= dend && Conflict(old(hinode[..]), hd, k)
      ensures forall i :: dstart <= i < k && i <= dend ==> !Conflict(old(hinode[..]), hd, i)
      ensures bend < hinode.Length && (if old(bstart) < 0 then bstart == old(bstart) else bstart >= 0)
      ensures bend == old(bend) || (0 <= bend && hinode[bend].Used())
      ensures forall j :: 0 <= j < hinode.Length && hinode[j].Used() ==> bstart <= j <= bend
    {
      ghost var mid := hinode[..];
      k := dstart;
      while k <= dend
        invariant dstart <= k && (k <= dend + 1 || k == dstart)
        invariant hinode[..] == Filled(ids, mid, hd, dstart, k)
        invariant forall j :: dstart <= j < k && j <= dend ==> !Conflict(mid, hd, j)
        invariant bend < hinode.Length && (if old(bstart) < 0 then bstart == old(bstart) else bstart >= 0)
        invariant bend == old(bend) || (0 <= bend && hinode[bend].Used())
        invariant forall j :: 0 <= j < hinode.Length && hinode[j].Used() ==> bstart <= j <= bend
      {
        if hd[k] != 0 {
          assert hinode[k] == mid[k];
          var stale := Take(ids, k, hd[k]);
          if stale {
            assert hinode[..] == Filled(ids, mid, hd, dstart, k);
            return -ESTALE, k;
          }
        }
        k := k + 1;
      }
      err := 0;
    }

    /**
     au_refresh_hinode: refresh the table itself, then take over the positive lower inodes hd of a
     dentry in [dstart, dend].  mid is the table between the two, k where the second loop stopped.

     The bounds come out tight unless the first half gave back every lower inode while the dentry
     supplied some: then ii_bstart is -1 when au_update_brange is called, and stays -1.  In that case the
     first half was wild already; what is said of the second is what it does if it gets there.
     */
    method RefreshWithDentry(ids: seq<int>, oom: bool, hd: seq<nat>, dstart: nat, dend: int)
      returns (err: int, wild: bool, ghost mid: seq<Slot>, ghost k: int)
      requires Valid() && 0 <= bstart && Distinct(ids) && |hd| == |ids| && dend < |ids|
      modifies this, hinode
      ensures oom ==> err == -ENOMEM && hinode == old(hinode) && hinode[..] == old(hinode[..])
                      && bstart == old(bstart) && bend == old(bend) && released == old(released)
      ensures !oom ==> old(released) <= released && (hinode == old(hinode) || fresh(hinode))
                       && Refreshed(ids, old(hinode[..]), mid, released[|old(released)|..])
      ensures !oom ==> |ids| <= hinode.Length && hinode[..] == Filled(ids, mid, hd, dstart, k)
      ensures !oom ==> err == 0 || err == -ESTALE
      ensures !oom && err == 0 ==> k > dend
      ensures !oom && err != 0 ==> dstart <= k <= dend && Conflict(mid, hd, k)
      ensures !oom ==> forall i :: dstart <= i < k && i <= dend ==> !Conflict(mid, hd, i)
      ensures wild <==> !oom && !AnySurvives(ids, old(hinode[..]))
      ensures !oom ==> (TightBounds(hinode[..], bstart, bend)
                        <==> AnySurvives(ids, old(hinode[..])) || forall i :: dstart <= i <= dend ==> hd[i] == 0)
    {
      mid, k := [], 0;
      err, wild := RefreshSelf(ids, oom);
      if err != 0 { return; }
      mid := hinode[..];
      SurvivesIffUsed(ids, old(hinode[..]), mid, released[|old(released)|..]);
      err, k := TakeAll(ids, hd, dstart, dend);
      if wild { FilledUsed(ids, mid, hd, dstart, k, dend); }
      UpdateBrange();
    }
  }

  /** The only lower inode's branch is gone, and the dentry has one on the branch that is left. */
  method BoundsLeftBehind() returns (info: IInfo, wild: bool)
    ensures wild && 0 < info.hinode.Length && info.hinode[0].Used()
            && !TightBounds(info.hinode[..], info.bstart, info.bend)
  {
    var table := new Slot[1](_ => Slot(5, 2));
    info := new IInfo(table, false);
    info.bstart, info.bend := 0, 0;
    assert table[..] == [Slot(5, 2)];
    ghost var mid, k;
    var err;
    err, wild, mid, k := info.RefreshWithDentry([1], false, [7], 0, 0);
  }

  /** test_inode_busy, for an inode whose generation is the mount's: whether its branch k may not be deleted. */
  predicate Busy(s: seq<Slot>, bstart: int, bend: int, isDir: bool, k: nat) {
    bstart <= k <= bend && k < |s| && s[k].Used() && (!isDir || bstart == bend)
  }

  /** The ids after the branch at index k was deleted. */
  function Without(ids: seq<int>, k: nat): seq<int>
    requires k < |ids|
  {
    ids[..k] + ids[k + 1..]
  }

  /** If every entry is at its branch's index, what the test lets pass leaves the inode an entry. */
  lemma TestProtects(ids: seq<int>, s: seq<Slot>, bstart: int, bend: int, isDir: bool, k: nat)
    requires Distinct(ids) && k < |ids| && AnyUsed(s) && TightBounds(s, bstart, bend)
    requires forall j :: 0 <= j < |s| && s[j].Used() ==> AtHome(ids, s[j], j)
    ensures !Busy(s, bstart, bend, isDir, k) ==> AnySurvives(Without(ids, k), s)
    ensures isDir ==> (Busy(s, bstart, bend, isDir, k) <==> !AnySurvives(Without(ids, k), s))
  {
    var rest := Without(ids, k);
    forall j: nat | j < |s| && s[j].Used() && j != k ensures s[j].branch in rest {
      assert s[j].branch == ids[j] == rest[if j < k then j else j - 1];
    }
    forall j: nat | j < |s| && s[j].Used() && s[j].branch in rest ensures j != k {
      var i: nat :| i < |rest| && rest[i] == s[j].branch;
      assert rest[i] == ids[if i < k then i else i + 1];
    }
    if !Busy(s, bstart, bend, isDir, k) {
      var j := if bstart == k then bend else bstart;
      assert s[j].Used();
    }
  }

  /**
   Two deletions in one remount, the generation being raised at its end: a file on the last of three branches
   only.  The first branch goes, and the test for the last one, now at index 1, looks at the wrong entry.
   */
  method TwoDeletions() returns (busy1: bool, busy2: bool, wild: bool)
    ensures !busy1 && !busy2 && wild
  {
    var table := new Slot[3](i => if i == 2 then Slot(5, 12) else Slot(0, 0));
    var info := new IInfo(table, false);
    info.bstart, info.bend := 2, 2;
    var ids := [10, 11, 12];
    busy1 := Busy(table[..], info.bstart, info.bend, false, 0);
    ids := Without(ids, 0);
    busy2 := Busy(table[..], info.bstart, info.bend, false, 1);
    ids := Without(ids, 1);
    assert ids == [11];
    var err;
    err, wild := info.RefreshSelf(ids, false);
  }
}
