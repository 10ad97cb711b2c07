/** The per-branch table of an open file, brought up to date after branches changed (file.c, refresh_file). */
module RefreshFile {

  import opened Errno
  import opened BranchIds
  import opened Refresh

  /** The used slots in order: what closing s from the front hands to fput. */
  function UsedIn(s: seq<Slot>): seq<Slot> {
    if s == [] then []
    else UsedIn(s[..|s| - 1]) + if s[|s| - 1].Used() then [s[|s| - 1]] else []
  }

  /** The same from the end. */
  function UsedDown(s: seq<Slot>): seq<Slot> {
    if s == [] then [] else UsedDown(s[1..]) + if s[0].Used() then [s[0]] else []
  }

  /** s with the slots in [lo, hi) closed. */
  function Cleared(s: seq<Slot>, lo: int, hi: int): (r: seq<Slot>)
    ensures |r| == |s|
  {
    seq(|s|, i requires 0 <= i < |s| => if lo <= i < hi then s[i].(lower := 0) else s[i])
  }

  /** Closing the next slot down, and what that adds to the log. */
  lemma ClearNext(s: seq<Slot>, k: nat)
    requires k < |s|
    ensures Cleared(s, 0, k)[k] == s[k]
    ensures Cleared(s, 0, k)[k := s[k].(lower := 0)] == Cleared(s, 0, k + 1)
    ensures UsedIn(s[..k + 1]) == UsedIn(s[..k]) + if s[k].Used() then [s[k]] else []
  {
    assert s[..k + 1][..k] == s[..k];
  }

  /** Closing the next slot up. */
  lemma ClearPrevious(s: seq<Slot>, k: nat, n: nat)
    requires k < n <= |s|
    ensures Cleared(s, k + 1, n)[k] == s[k]
    ensures Cleared(s, k + 1, n)[k := s[k].(lower := 0)] == Cleared(s, k, n)
    ensures UsedDown(s[k..n]) == UsedDown(s[k + 1..n]) + if s[k].Used() then [s[k]] else []
  {
    assert s[k..n][1..] == s[k + 1..n];
  }

  lemma ClearNothing(s: seq<Slot>, n: nat)
    requires n <= |s|
    ensures Cleared(s, 0, 0) == s == Cleared(s, n, n) && UsedIn(s[..0]) == [] == UsedDown(s[n..n])
  {
  }

  /** mid with everything outside [lo, hi] closed. */
  function Kept(mid: seq<Slot>, lo: int, hi: int): (r: seq<Slot>)
    ensures |r| == |mid|
  {
    seq(|mid|, i requires 0 <= i < |mid| => if lo <= i <= hi then mid[i] else mid[i].(lower := 0))
  }

  /** struct au_finfo; alive(f) says that the lower file f still has a dentry with an inode. */
  class FInfo {
    var hfile: array<Slot>
    var bstart: int
    var bend: int
    var closed: seq<Slot>
    const alive: nat -> bool

    ghost predicate Valid()
      reads this, hfile
    {
      && 0 <= bstart <= bend < hfile.Length
      && OnePerBranch(hfile[..])
      && forall i :: 0 <= i < hfile.Length && hfile[i].Used() ==> bstart <= i <= bend
    }

    constructor (table: array<Slot>, s: int, e: int, live: nat -> bool)
      ensures hfile == table && bstart == s && bend == e && closed == [] && alive == live
    {
      hfile, bstart, bend, closed, alive := table, s, e, [], live;
    }

    /** au_hfput when there is a file. */
    method CloseIfUsed(p: int)
      requires 0 <= p < hfile.Length
      modifies hfile, this`closed
      ensures hfile[..] == old(hfile[..])[p := old(hfile[p]).(lower := 0)]
      ensures closed == old(closed) + if old(hfile[p]).Used() then [old(hfile[p])] else []
    {
      if hfile[p].Used() { Close(p); }
    }

    method Close(p: int)
      requires 0 <= p < hfile.Length
      modifies hfile, this`closed
      ensures hfile[..] == old(hfile[..])[p := old(hfile[p]).(lower := 0)]
      ensures closed == old(closed) + [old(hfile[p])]
    {
      closed := closed + [hfile[p]];
      hfile[p] := hfile[p].(lower := 0);
    }

    /** One round of the swap loop, whose upper bound e is the old fi_bend throughout. */
    method Round(ids: seq<int>, e: int, b: int, ghost before: seq<Slot>, ghost dead: seq<Slot>)
      returns (b2: int, ghost more: seq<Slot>)
      requires Distinct(ids) && |ids| <= hfile.Length && 0 <= b <= e < hfile.Length
      requires Settling(ids, before, hfile[..], dead, b)
      requires forall i :: e < i < hfile.Length && hfile[i].Used() ==> AtHome(ids, hfile[i], i)
      modifies hfile, this`closed
      ensures Settling(ids, before, hfile[..], dead + more, b2)
      ensures forall i :: e < i < hfile.Length && hfile[i].Used() ==> AtHome(ids, hfile[i], i)
      ensures closed == old(closed) + more && 0 <= b2 <= e + 1
      ensures Misplaced(ids, hfile[..]) < old(Misplaced(ids, hfile[..]))
              || (b2 == b + 1 && Misplaced(ids, hfile[..]) == old(Misplaced(ids, hfile[..])))
    {
      ghost var s := hfile[..];
      more := [];
      var newIndex := BrIndex(ids, hfile[b].branch);
      if !hfile[b].Used() || newIndex == b {
        b2 := b + 1;
      } else if newIndex < 0 {
        ReleaseStep(ids, before, s, dead, b);
        more := [s[b]];
        Close(b);
        b2 := b + 1;
      } else {
        SwapStep(ids, before, s, dead, b, newIndex);
        var tmp := hfile[newIndex];
        hfile[newIndex] := hfile[b];
        hfile[b] := tmp;
        assert hfile[..] == s[newIndex := s[b]][b := s[newIndex]];
        b2 := if tmp.Used() then b else b + 1;
      }
    }

    method Settle(ids: seq<int>)
      requires Valid() && Distinct(ids) && |ids| <= hfile.Length
      modifies hfile, this`closed
      ensures old(closed) <= closed
      ensures Refreshed(ids, old(hfile[..]), hfile[..], closed[|old(closed)|..])
      ensures forall i :: |ids| <= i < hfile.Length ==> !hfile[i].Used()
    {
      ghost var before := hfile[..];
      ghost var dead, more := [], [];
      var b := bstart;
      while b <= bend
        invariant 0 <= b <= bend + 1 && closed == old(closed) + dead
        invariant Settling(ids, before, hfile[..], dead, b)
        invariant forall i :: bend < i < hfile.Length && hfile[i].Used() ==> AtHome(ids, hfile[i], i)
        decreases Misplaced(ids, hfile[..]), bend - b
      {
        b, more := Round(ids, bend, b, before, dead);
        dead := dead + more;
      }
      Settled(ids, before, hfile[..], dead, b);
    }

    ghost predicate FrontBound(mid: seq<Slot>, n: nat, pinned: bool, limit: int)
      reads this`bstart
    {
      if pinned then bstart == if limit < 0 then 0 else limit
      else (forall i :: 0 <= i < bstart ==> !Live(mid, i)) && (bstart < n ==> Live(mid, bstart))
    }

    ghost predicate BackBound(mid: seq<Slot>, n: nat)
      reads this`bstart, this`bend
    {
      (forall i :: bend < i < n ==> !Live(mid, i)) && (bstart <= bend ==> Live(mid, bend))
    }

    /**
     The lower bound: normally the first live file, closing the dead ones above it; for a mapped or
     unhashed file the place of the branch it was opened on (limit), closing everything above it.
     */
    method TrimFront(n: nat, pinned: bool, limit: int)
      requires n <= hfile.Length && (pinned ==> limit < n)
      modifies hfile, this`closed, this`bstart
      ensures 0 <= bstart <= n
      ensures hfile[..] == Cleared(old(hfile[..]), 0, bstart)
      ensures closed == old(closed) + UsedIn(old(hfile[..])[..bstart])
      ensures FrontBound(old(hfile[..]), n, pinned, limit)
    {
      hide UsedIn, UsedDown, Cleared;
      ghost var mid := hfile[..];
      bstart := 0;
      ClearNothing(mid, n);
      while if pinned then bstart < limit else bstart < n
        invariant 0 <= bstart <= n && (pinned ==> bstart <= limit || bstart == 0)
        invariant hfile[..] == Cleared(mid, 0, bstart)
        invariant closed == old(closed) + UsedIn(mid[..bstart])
        invariant !pinned ==> forall i :: 0 <= i < bstart ==> !Live(mid, i)
        decreases n - bstart
      {
        ClearNext(mid, bstart);
        if !pinned && hfile[bstart].Used() && alive(hfile[bstart].lower) { break; }
        CloseIfUsed(bstart);
        bstart := bstart + 1;
      }
    }

    /** The upper bound: the last live file at or after the lower bound, closing the dead ones after it. */
    method TrimBack(n: nat)
      requires 0 <= bstart <= n <= hfile.Length
      modifies hfile, this`closed, this`bend
      ensures bstart - 1 <= bend < n
      ensures hfile[..] == Cleared(old(hfile[..]), bend + 1, n)
      ensures closed == old(closed) + UsedDown(old(hfile[..])[bend + 1..n])
      ensures BackBound(old(hfile[..]), n)
    {
      hide UsedIn, UsedDown, Cleared;
      ghost var mid := hfile[..];
      bend := n - 1;
      ClearNothing(mid, n);
      while bend >= bstart
        invariant bstart - 1 <= bend < n
        invariant hfile[..] == Cleared(mid, bend + 1, n)
        invariant closed == old(closed) + UsedDown(mid[bend + 1..n])
        invariant forall i :: bend < i < n ==> !Live(mid, i)
      {
        ClearPrevious(mid, bend, n);
        if hfile[bend].Used() && alive(hfile[bend].lower) { break; }
        CloseIfUsed(bend);
        bend := bend - 1;
      }
    }

    method Trim(n: nat, pinned: bool, limit: int, ghost mid: seq<Slot>)
      requires n <= hfile.Length && (pinned ==> limit < n) && mid == hfile[..]
      requires forall i :: n <= i < hfile.Length ==> !hfile[i].Used()
      modifies hfile, this`closed, this`bstart, this`bend
      ensures 0 <= bstart <= n && bstart - 1 <= bend < n
      ensures hfile[..] == Kept(mid, bstart, bend)
      ensures closed == old(closed) + UsedIn(mid[..bstart]) + UsedDown(mid[bend + 1..n])
      ensures FrontBound(mid, n, pinned, limit) && BackBound(mid, n)
    {
      hide UsedIn, UsedDown, Kept, Cleared;
      TrimFront(n, pinned, limit);
      ghost var front := hfile[..];
      TrimBack(n);
      TrimmedBothEnds(mid, front, bstart, bend, n);
      assert BackBound(mid, n);
      hide FrontBound, BackBound;
    }

    lemma TrimmedBothEnds(mid: seq<Slot>, front: seq<Slot>, s: int, e: int, n: int)
      requires 0 <= s <= n <= |mid| && s - 1 <= e < n && front == Cleared(mid, 0, s)
      requires forall i :: n <= i < |mid| ==> !mid[i].Used()
      ensures Cleared(front, e + 1, n) == Kept(mid, s, e)
      ensures front[e + 1..n] == mid[e + 1..n]
      ensures forall i :: s <= i < n ==> (Live(front, i) <==> Live(mid, i))
    {
    }

    /**
     refresh_file up to the reopening: mid is the table once every slot has moved.  Each lower file
     whose branch exists is at that branch's index in mid; the bounds are then trimmed.
     */
    method RefreshFile(ids: seq<int>, oom: bool, pinned: bool)
      returns (err: int, ghost mid: seq<Slot>, ghost gone: seq<Slot>)
      requires Valid() && Distinct(ids)
      modifies this, hfile
      ensures oom ==> err == -ENOMEM && hfile == old(hfile) && hfile[..] == old(hfile[..])
                      && bstart == old(bstart) && bend == old(bend) && closed == old(closed)
      ensures !oom ==> err == 0 && Refreshed(ids, old(hfile[..]), mid, gone)
      ensures !oom ==> 0 <= bstart <= |ids| <= |mid| && bstart - 1 <= bend < |ids|
      ensures !oom ==> hfile[..] == Kept(mid, bstart, bend)
      ensures !oom ==> closed == old(closed) + gone + UsedIn(mid[..bstart]) + UsedDown(mid[bend + 1..|ids|])
      ensures !oom ==> FrontBound(mid, |ids|, pinned, IndexOf(ids, old(hfile[bstart]).branch)) && BackBound(mid, |ids|)
    {
      hide UsedIn, UsedDown, Kept, Refreshed, OnePerBranch, SameEntries;
      mid, gone := [], [];
      if oom { return -ENOMEM, mid, gone; }
      ghost var before := hfile[..];
      hfile := Krealloc(hfile, bend + 1, |ids|);
      ghost var grown := hfile[..];
      var brid := hfile[bstart].branch;
      Settle(ids);
      mid, gone := hfile[..], closed[|old(closed)|..];
      assert closed == old(closed) + gone;
      SameUsed(ids, before, grown, mid, gone);
      var limit := BrIndex(ids, brid);
      Trim(|ids|, pinned, limit, mid);
      err := 0;
    }

    ghost predicate Live(s: seq<Slot>, i: int)
    {
      0 <= i < |s| && s[i].Used() && alive(s[i].lower)
    }
  }
}
