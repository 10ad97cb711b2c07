/** Collecting the dentries of a subtree without recursion, and the walk towards the root (dcsub.c). */
module Dcsub {

  import opened Errno

  const PER_PAGE := 512

  /**
   A dentry: its parent and its place among the parent's children, its children, whether it has an inode,
   and whether it belongs to the filesystem, is in use and passes the caller's test.
   */
  datatype Dentry = Dentry(parent: nat, pos: nat, kids: seq<nat>, positive: bool, wanted: bool)

  /** The dentry cache; height and depth witness that it is a forest. */
  datatype Cache = Cache(d: seq<Dentry>, ghost height: seq<nat>, ghost depth: seq<nat>) {

    ghost predicate Ok() {
      && |d| == |height| == |depth|
      && (forall n :: 0 <= n < |d| ==> d[n].parent < |d|)
      && (forall n, i :: 0 <= n < |d| && 0 <= i < |d[n].kids| ==> ChildOk(n, i))
      && (forall n :: 0 <= n < |d| && !IsRoot(n) ==> InParent(n))
    }

    predicate IsRoot(n: nat)
      requires n < |d|
    {
      d[n].parent == n
    }

    ghost predicate ChildOk(n: nat, i: nat)
      requires n < |d| == |height| == |depth| && i < |d[n].kids|
    {
      var c := d[n].kids[i];
      c < |d| && d[c].parent == n && d[c].pos == i && height[c] < height[n] && depth[c] == depth[n] + 1
    }

    ghost predicate InParent(n: nat)
      requires n < |d| == |height| == |depth| && d[n].parent < |d|
    {
      var p := d[n].parent;
      d[n].pos < |d[p].kids| && d[p].kids[d[n].pos] == n && depth[p] < depth[n]
    }

    /** What is collected: dentries in use that have an inode and are not the root of the filesystem. */
    predicate Passes(n: nat)
      requires n < |d|
    {
      d[n].wanted && d[n].positive && !IsRoot(n)
    }
  }

  /** The dentries in the order the walk looks at them: a parent again after each child that has children. */
  ghost function Visit(c: Cache, p: nat): seq<nat>
    requires c.Ok() && p < |c.d|
    decreases c.height[p], |c.d[p].kids| + 1
  {
    [p] + Loop(c, p, 0)
  }

  ghost function Loop(c: Cache, p: nat, i: nat): seq<nat>
    requires c.Ok() && p < |c.d| && i <= |c.d[p].kids|
    decreases c.height[p], |c.d[p].kids| - i
  {
    if i == |c.d[p].kids| then []
    else
      assert c.ChildOk(p, i);
      var k := c.d[p].kids[i];
      if Descends(c, k) then Visit(c, k) + [p] + Loop(c, p, i + 1)
      else [k] + Loop(c, p, i + 1)
  }

  predicate Descends(c: Cache, k: nat)
    requires k < |c.d|
  {
    c.d[k].positive && c.d[k].kids != []
  }

  ghost predicate Below(c: Cache, root: nat, p: nat)
    requires c.Ok() && root < |c.d| && p < |c.d|
    decreases c.depth[p]
  {
    p == root || (!c.IsRoot(p) && (assert c.InParent(p); Below(c, root, c.d[p].parent)))
  }

  /** What is left above p once all of p's subtree has been walked. */
  ghost function Up(c: Cache, root: nat, p: nat): seq<nat>
    requires c.Ok() && root < |c.d| && p < |c.d| && Below(c, root, p)
    decreases c.depth[p]
  {
    if p == root then []
    else
      assert c.InParent(p);
      var q := c.d[p].parent;
      [q] + Loop(c, q, c.d[p].pos + 1) + Up(c, root, q)
  }

  function Collected(c: Cache, s: seq<nat>): seq<nat>
    requires forall i :: 0 <= i < |s| ==> s[i] < |c.d|
  {
    if s == [] then []
    else Collected(c, s[..|s| - 1]) + if c.Passes(s[|s| - 1]) then [s[|s| - 1]] else []
  }

  function Flat(pages: seq<seq<nat>>): seq<nat> {
    if pages == [] then [] else Flat(pages[..|pages| - 1]) + pages[|pages| - 1]
  }

  lemma FlatNext(pages: seq<seq<nat>>, page: seq<nat>)
    ensures Flat(pages + [page]) == Flat(pages) + page
  {
    assert (pages + [page])[..|pages|] == pages;
  }

  lemma {:induction false} FlatLength(pages: seq<seq<nat>>, n: nat)
    requires n <= |pages| && forall i :: 0 <= i < n ==> |pages[i]| == PER_PAGE
    ensures |Flat(pages[..n])| == n * PER_PAGE
  {
    if n > 0 {
      FlatLength(pages, n - 1);
      assert pages[..n][..n - 1] == pages[..n - 1];
    }
  }

  /** struct au_dcsub_pages: pages of dentries, all but the last one full; mem is how many more can be had. */
  class Dpages {
    var pages: seq<seq<nat>>
    var mem: nat

    ghost predicate Valid()
      reads this
    {
      && pages != [] && |pages[|pages| - 1]| <= PER_PAGE
      && forall i :: 0 <= i < |pages| - 1 ==> |pages[i]| == PER_PAGE
    }

    ghost function All(): seq<nat>
      reads this
    {
      Flat(pages)
    }

    /** How many dentries there is room for in all. */
    ghost function Cap(): nat
      reads this
    {
      (|pages| + mem) * PER_PAGE
    }

    lemma Fullness()
      requires Valid()
      ensures |All()| == (|pages| - 1) * PER_PAGE + |pages[|pages| - 1]| && |All()| <= Cap()
    {
      FlatLength(pages, |pages| - 1);
      assert pages[..|pages|] == pages;
      assert Flat(pages) == Flat(pages[..|pages| - 1]) + pages[|pages| - 1];
    }

    constructor (m: nat)
      ensures Valid() && All() == [] && mem == m && |pages| == 1
    {
      pages, mem := [[]], m;
    }

    /** au_dpages_append. */
    method Append(n: nat) returns (err: int)
      requires Valid()
      modifies this
      ensures Valid() && err in {0, -ENOMEM} && All() == old(All()) + if err == 0 then [n] else []
      ensures Cap() == old(Cap()) && (err == 0 <==> |old(All())| < old(Cap())) && |All()| <= Cap()
    {
      Fullness();
      hide Flat;
      var last := |pages| - 1;
      assert pages == pages[..last] + [pages[last]];
      FlatNext(pages[..last], pages[last]);
      if |pages[last]| >= PER_PAGE {
        if mem == 0 { return -ENOMEM; }
        mem := mem - 1;
        FlatNext(pages, [n]);
        pages := pages + [[n]];
      } else {
        FlatNext(pages[..last], pages[last] + [n]);
        pages := pages[..last] + [pages[last] + [n]];
      }
      err := 0;
    }
  }

  /** What the walk still has to look at, standing before child i of p; resume says that p itself comes first. */
  ghost function Remaining(c: Cache, root: nat, p: nat, i: nat, resume: bool): seq<nat>
    requires c.Ok() && root < |c.d| && p < |c.d| && Below(c, root, p) && i <= |c.d[p].kids|
  {
    (if resume then [p] else []) + Loop(c, p, i) + Up(c, root, p)
  }

  lemma LoopStep(c: Cache, p: nat, i: nat)
    requires c.Ok() && p < |c.d| && i < |c.d[p].kids|
    ensures var k := c.d[p].kids[i];
            && k < |c.d| && c.d[k].parent == p && c.d[k].pos == i && !c.IsRoot(k) && c.depth[k] == c.depth[p] + 1
            && Loop(c, p, i) == (if Descends(c, k) then Visit(c, k) + [p] else [k]) + Loop(c, p, i + 1)
  {
    assert c.ChildOk(p, i);
  }

  lemma StepInto(c: Cache, root: nat, p: nat, i: nat)
    requires c.Ok() && root < |c.d| && p < |c.d| && Below(c, root, p) && i < |c.d[p].kids|
    ensures c.d[p].kids[i] < |c.d|
    ensures var k := c.d[p].kids[i];
            if Descends(c, k) then Below(c, root, k)
                && Remaining(c, root, p, i, false) == Remaining(c, root, k, 0, true)
            else Remaining(c, root, p, i, false) == [k] + Remaining(c, root, p, i + 1, false)
  {
    LoopStep(c, p, i);
    RootAbove(c, root, p);
    var k := c.d[p].kids[i];
    var rest, up := Loop(c, p, i + 1), Up(c, root, p);
    if Descends(c, k) {
      assert k != root;
      assert Up(c, root, k) == [p] + rest + up;
      var inner := Loop(c, k, 0);
      assert [k] + inner + ([p] + rest + up) == ([k] + inner + [p] + rest) + up;
    } else {
      assert [k] + rest + up == [k] + (rest + up);
    }
  }

  /** A directory below root is no parent of it. */
  lemma {:induction false} RootAbove(c: Cache, root: nat, p: nat)
    requires c.Ok() && root < |c.d| && p < |c.d| && Below(c, root, p)
    ensures c.depth[root] <= c.depth[p]
    decreases c.depth[p]
  {
    if p != root {
      assert c.InParent(p);
      RootAbove(c, root, c.d[p].parent);
    }
  }

  lemma StepOut(c: Cache, root: nat, p: nat)
    requires c.Ok() && root < |c.d| && p < |c.d| && Below(c, root, p) && p != root
    ensures var q := c.d[p].parent;
            && Below(c, root, q) && c.d[p].pos + 1 <= |c.d[q].kids|
            && Remaining(c, root, p, |c.d[p].kids|, false) == Remaining(c, root, q, c.d[p].pos + 1, true)
  {
    assert c.InParent(p);
  }

  lemma CollectedNext(c: Cache, s: seq<nat>, n: nat)
    requires n < |c.d| && forall i :: 0 <= i < |s| ==> s[i] < |c.d|
    ensures Collected(c, s + [n]) == Collected(c, s) + if c.Passes(n) then [n] else []
  {
    assert (s + [n])[..|s|] == s;
  }

  /** Looking at one dentry. */
  method Consider(c: Cache, n: nat, dp: Dpages, ghost seen: seq<nat>, ghost base: seq<nat>) returns (err: int)
    requires c.Ok() && n < |c.d| && dp.Valid() && forall i :: 0 <= i < |seen| ==> seen[i] < |c.d|
    requires dp.All() == base + Collected(c, seen)
    modifies dp
    ensures dp.Valid() && err in {0, -ENOMEM} && dp.Cap() == old(dp.Cap())
    ensures err == 0 <==> |base| + |Collected(c, seen + [n])| <= dp.Cap()
    ensures err == 0 ==> dp.All() == base + Collected(c, seen + [n])
    ensures err != 0 ==> dp.All() == base + Collected(c, seen)
  {
    CollectedNext(c, seen, n);
    dp.Fullness();
    err := 0;
    if c.Passes(n) { err := dp.Append(n); }
  }

  /** The walk's place: the dentries looked at and those left are together all of Visit. */
  ghost predicate Walking(c: Cache, root: nat, p: nat, i: nat, resume: bool, seen: seq<nat>) {
    && c.Ok() && root < |c.d| && p < |c.d| && Below(c, root, p) && i <= |c.d[p].kids|
    && (forall j :: 0 <= j < |seen| ==> seen[j] < |c.d|)
    && seen + Remaining(c, root, p, i, resume) == Visit(c, root)
  }

  lemma Looked(c: Cache, root: nat, p: nat, i: nat, seen: seq<nat>)
    requires Walking(c, root, p, i, true, seen)
    ensures Walking(c, root, p, i, false, seen + [p])
    ensures |Remaining(c, root, p, i, true)| == |Remaining(c, root, p, i, false)| + 1
  {
    assert seen + ([p] + Loop(c, p, i) + Up(c, root, p)) == seen + [p] + (Loop(c, p, i) + Up(c, root, p));
  }

  lemma Passed(c: Cache, root: nat, p: nat, i: nat, seen: seq<nat>)
    requires Walking(c, root, p, i, false, seen) && i < |c.d[p].kids|
    ensures c.d[p].kids[i] < |c.d|
    ensures var k := c.d[p].kids[i];
            if Descends(c, k) then
              && Walking(c, root, k, 0, true, seen)
              && |Remaining(c, root, k, 0, true)| == |Remaining(c, root, p, i, false)|
            else
              && Walking(c, root, p, i + 1, false, seen + [k])
              && |Remaining(c, root, p, i, false)| == |Remaining(c, root, p, i + 1, false)| + 1
  {
    StepInto(c, root, p, i);
    var k := c.d[p].kids[i];
    if !Descends(c, k) {
      assert seen + ([k] + Remaining(c, root, p, i + 1, false)) == seen + [k] + Remaining(c, root, p, i + 1, false);
    }
  }

  lemma WentUp(c: Cache, root: nat, p: nat, seen: seq<nat>)
    requires p < |c.d| && Walking(c, root, p, |c.d[p].kids|, false, seen) && p != root
    ensures var q := c.d[p].parent;
            Walking(c, root, q, c.d[p].pos + 1, true, seen) &&
            |Remaining(c, root, q, c.d[p].pos + 1, true)| == |Remaining(c, root, p, |c.d[p].kids|, false)|
  {
    StepOut(c, root, p);
  }

  lemma Finished(c: Cache, root: nat, seen: seq<nat>)
    requires root < |c.d| && Walking(c, root, root, |c.d[root].kids|, false, seen)
    ensures seen == Visit(c, root) && InCache(c, seen)
  {
  }

  ghost function Left(c: Cache, root: nat, p: nat, i: nat, resume: bool, seen: seq<nat>): nat
    requires Walking(c, root, p, i, resume, seen)
  {
    |Remaining(c, root, p, i, resume)|
  }

  /** One step of the walk; more is false when it is over. */
  method Step(c: Cache, root: nat, dp: Dpages, p: nat, i: nat, resume: bool, ghost seen: seq<nat>, ghost base: seq<nat>)
    returns (err: int, more: bool, p': nat, i': nat, resume': bool, ghost seen': seq<nat>)
    requires Walking(c, root, p, i, resume, seen) && dp.Valid() && dp.All() == base + Collected(c, seen)
    modifies dp
    ensures dp.Valid() && err in {0, -ENOMEM} && dp.Cap() == old(dp.Cap()) && Walking(c, root, p', i', resume', seen')
    ensures err == 0 ==> dp.All() == base + Collected(c, seen')
    ensures err != 0 ==> |base| + |Collected(c, seen')| > dp.Cap()
    ensures err == 0 && more ==>
              var was, now := Left(c, root, p, i, resume, seen), Left(c, root, p', i', resume', seen');
              now < was || (now == was && resume' && !resume)
    ensures err == 0 && !more ==> p' == root && i' == |c.d[root].kids| && !resume'
  {
    err, more, p', i', resume', seen' := 0, true, p, i, resume, seen;
    hide Visit, Loop, Up, Remaining;
    if resume {
      Looked(c, root, p, i, seen);
      err := Consider(c, p, dp, seen, base);
      seen', resume' := seen + [p], false;
    } else if i < |c.d[p].kids| {
      var k := c.d[p].kids[i];
      Passed(c, root, p, i, seen);
      if Descends(c, k) {
        p', i', resume' := k, 0, true;
      } else {
        err := Consider(c, k, dp, seen, base);
        seen', i' := seen + [k], i + 1;
      }
    } else if p != root {
      WentUp(c, root, p, seen);
      p', i', resume' := c.d[p].parent, c.d[p].pos + 1, true;
    } else {
      more := false;
    }
  }

  /** au_dcsub_pages: what passes is collected in the order of Visit, unless memory runs out. */
  method DcsubPages(c: Cache, root: nat, dp: Dpages) returns (err: int)
    requires c.Ok() && root < |c.d| && dp.Valid()
    modifies dp
    ensures dp.Valid() && err in {0, -ENOMEM} && InCache(c, Visit(c, root))
    ensures err == 0 <==> |old(dp.All())| + |Collected(c, Visit(c, root))| <= old(dp.Cap())
    ensures err == 0 ==> dp.All() == old(dp.All()) + Collected(c, Visit(c, root))
  {
    var p: nat, i: nat, resume, more := root, 0, true, true;
    ghost var seen: seq<nat> := [];
    assert Walking(c, root, p, i, resume, seen);
    hide Walking, Visit, Left;
    err := 0;
    while more
      invariant Walking(c, root, p, i, resume, seen) && dp.Valid() && err == 0
      invariant InCache(c, seen) && dp.All() == old(dp.All()) + Collected(c, seen)
      invariant !more ==> p == root && i == |c.d[root].kids| && !resume
      invariant dp.Cap() == old(dp.Cap())
      decreases more, Left(c, root, p, i, resume, seen), !resume
    {
      err, more, p, i, resume, seen := Step(c, root, dp, p, i, resume, seen, old(dp.All()));
      if err != 0 {
        SeenOnTheWay(c, root, p, i, resume, seen);
        return;
      }
    }
    dp.Fullness();
    Finished(c, root, seen);
  }

  /** What has been collected on the way is not more than what is in the end. */
  lemma SeenOnTheWay(c: Cache, root: nat, p: nat, i: nat, resume: bool, seen: seq<nat>)
    requires Walking(c, root, p, i, resume, seen)
    ensures InCache(c, seen) && InCache(c, Visit(c, root)) && |Collected(c, seen)| <= |Collected(c, Visit(c, root))|
  {
    var all := Visit(c, root);
    forall j | 0 <= j < |all| ensures all[j] < |c.d| { VisitSound(c, root, root, all[j]); }
    CollectedPrefix(c, all, |seen|);
    assert all[..|seen|] == seen;
  }

  lemma {:induction false} CollectedPrefix(c: Cache, s: seq<nat>, n: nat)
    requires n <= |s| && InCache(c, s)
    ensures |Collected(c, s[..n])| <= |Collected(c, s)|
    decreases |s| - n
  {
    if n == |s| {
      assert s[..n] == s;
    } else {
      CollectedPrefix(c, s, n + 1);
      assert s[..n + 1][..n] == s[..n];
    }
  }

  ghost predicate InCache(c: Cache, s: seq<nat>) {
    forall i :: 0 <= i < |s| ==> s[i] < |c.d|
  }

  /** n is root, or a child of root or of a dentry that is reached and has an inode. */
  ghost predicate Reached(c: Cache, root: nat, n: nat)
    requires c.Ok() && root < |c.d| && n < |c.d|
    decreases c.depth[n]
  {
    n == root ||
    (!c.IsRoot(n) && (assert c.InParent(n); var p := c.d[n].parent;
      Reached(c, root, p)
      && (p == root || c.d[p].positive)))
  }

  ghost predicate Expanded(c: Cache, root: nat, p: nat)
    requires c.Ok() && root < |c.d| && p < |c.d|
  {
    Reached(c, root, p) && (p == root || Descends(c, p))
  }

  /** The walk looks only at dentries that are reached ... */
  lemma {:induction false} VisitSound(c: Cache, root: nat, p: nat, n: nat)
    requires c.Ok() && root < |c.d| && p < |c.d| && Expanded(c, root, p) && n in Visit(c, p)
    ensures n < |c.d| && Reached(c, root, n)
    decreases c.height[p], |c.d[p].kids| + 1
  {
    if n != p { LoopSound(c, root, p, 0, n); }
  }

  lemma {:induction false} LoopSound(c: Cache, root: nat, p: nat, i: nat, n: nat)
    requires c.Ok() && root < |c.d| && p < |c.d| && Expanded(c, root, p) && i <= |c.d[p].kids| && n in Loop(c, p, i)
    ensures n < |c.d| && Reached(c, root, n)
    decreases c.height[p], |c.d[p].kids| - i
  {
    LoopStep(c, p, i);
    assert c.ChildOk(p, i);
    var k := c.d[p].kids[i];
    assert Reached(c, root, k);
    if n in Loop(c, p, i + 1) {
      LoopSound(c, root, p, i + 1, n);
    } else if n != p && n != k {
      VisitSound(c, root, k, n);
    }
  }

  /** ... and at all of those. */
  lemma {:induction false} KidVisited(c: Cache, p: nat, i: nat, j: nat)
    requires c.Ok() && p < |c.d| && i <= j < |c.d[p].kids|
    ensures var k := c.d[p].kids[j];
            && k in Loop(c, p, i) && k < |c.d|
                && (Descends(c, k) ==> forall m :: m in Visit(c, k) ==> m in Loop(c, p, i))
    decreases j - i
  {
    LoopStep(c, p, i);
    if i < j { KidVisited(c, p, i + 1, j); }
  }

  lemma {:induction false} SubtreeVisited(c: Cache, root: nat, q: nat, m: nat)
    requires c.Ok() && root < |c.d| && q < |c.d| && Expanded(c, root, q) && m in Visit(c, q)
    ensures m in Visit(c, root)
    decreases c.depth[q]
  {
    if q != root {
      assert c.InParent(q);
      var p := c.d[q].parent;
      KidVisited(c, p, 0, c.d[q].pos);
      SubtreeVisited(c, root, p, m);
    }
  }

  lemma {:induction false} VisitComplete(c: Cache, root: nat, n: nat)
    requires c.Ok() && root < |c.d| && n < |c.d| && Reached(c, root, n)
    ensures n in Visit(c, root)
  {
    if n != root {
      assert c.InParent(n);
      var p := c.d[n].parent;
      KidVisited(c, p, 0, c.d[n].pos);
      SubtreeVisited(c, root, p, n);
    }
  }

  lemma {:induction false} CollectedIn(c: Cache, s: seq<nat>, n: nat)
    requires InCache(c, s) && n < |c.d|
    ensures n in Collected(c, s) <==> n in s && c.Passes(n)
  {
    if s != [] {
      var k := |s| - 1;
      CollectedIn(c, s[..k], n);
      assert s == s[..k] + [s[k]];
    }
  }

  /** What is collected is what passes among the dentries reached. */
  lemma CollectedSet(c: Cache, root: nat, n: nat)
    requires c.Ok() && root < |c.d| && InCache(c, Visit(c, root))
    ensures n in Collected(c, Visit(c, root)) <==> n < |c.d| && Reached(c, root, n) && c.Passes(n)
  {
    if n < |c.d| {
      CollectedIn(c, Visit(c, root), n);
      if n in Visit(c, root) { VisitSound(c, root, root, n); }
      if Reached(c, root, n) { VisitComplete(c, root, n); }
    } else {
      CollectedBound(c, Visit(c, root));
    }
  }

  lemma {:induction false} CollectedBound(c: Cache, s: seq<nat>)
    requires InCache(c, s)
    ensures InCache(c, Collected(c, s))
  {
    if s != [] { CollectedBound(c, s[..|s| - 1]); }
  }

  /** Every dentry but top comes after its parent, or is a child of top. */
  ghost predicate ParentFirst(c: Cache, s: seq<nat>, top: nat) {
    forall i :: 0 <= i < |s| && s[i] != top ==>
      s[i] < |c.d| && (c.d[s[i]].parent == top || c.d[s[i]].parent in s[..i])
  }

  lemma FirstCat(c: Cache, a: seq<nat>, b: seq<nat>, top: nat)
    requires ParentFirst(c, a, top) && ParentFirst(c, b, top)
    ensures ParentFirst(c, a + b, top)
  {
    var s := a + b;
    forall i | 0 <= i < |s| && s[i] != top ensures s[i] < |c.d|
        && (c.d[s[i]].parent == top || c.d[s[i]].parent in s[..i]) {
      if i < |a| {
        assert s[..i] == a[..i];
      } else {
        assert s[i] == b[i - |a|] && s[..i] == a + b[..i - |a|];
      }
    }
  }

  lemma {:induction false} LoopFirst(c: Cache, p: nat, i: nat)
    requires c.Ok() && p < |c.d| && i <= |c.d[p].kids|
    ensures ParentFirst(c, Loop(c, p, i), p)
    decreases c.height[p], |c.d[p].kids| - i
  {
    if i < |c.d[p].kids| {
      LoopStep(c, p, i);
      assert c.ChildOk(p, i);
      var k := c.d[p].kids[i];
      LoopFirst(c, p, i + 1);
      if Descends(c, k) {
        LoopFirst(c, k, 0);
        UnderParent(c, k, p, Loop(c, k, 0));
        FirstCat(c, Visit(c, k), [p], p);
        FirstCat(c, Visit(c, k) + [p], Loop(c, p, i + 1), p);
      } else {
        FirstCat(c, [k], Loop(c, p, i + 1), p);
      }
    }
  }

  lemma UnderParent(c: Cache, k: nat, p: nat, s: seq<nat>)
    requires k < |c.d| && c.d[k].parent == p && ParentFirst(c, s, k)
    ensures ParentFirst(c, [k] + s, p)
  {
    var t := [k] + s;
    forall i | 0 <= i < |t| && t[i] != p ensures t[i] < |c.d| && (c.d[t[i]].parent == p || c.d[t[i]].parent in t[..i]) {
      if i > 0 {
        assert t[i] == s[i - 1] && t[..i] == [k] + s[..i - 1];
      }
    }
  }

  /** A parent that passes is collected before its children are. */
  lemma ParentCollectedFirst(c: Cache, root: nat, i: nat)
    requires c.Ok() && root < |c.d| && InCache(c, Visit(c, root)) && i < |Collected(c, Visit(c, root))|
    ensures var out := Collected(c, Visit(c, root));
            out[i] != root ==> out[i] < |c.d| && (c.Passes(c.d[out[i]].parent) ==> c.d[out[i]].parent in out[..i])
  {
    LoopFirst(c, root, 0);
    var s := Visit(c, root);
    forall j | 0 <= j < |s| && s[j] != root ensures c.d[s[j]].parent in s[..j] {
      var l := Loop(c, root, 0);
      assert s[j] == l[j - 1] && s[..j] == [root] + l[..j - 1];
    }
    FirstKept(c, s, root, i);
  }

  lemma {:induction false} FirstKept(c: Cache, s: seq<nat>, root: nat, i: nat)
    requires c.Ok() && InCache(c, s) && i < |Collected(c, s)|
    requires forall j :: 0 <= j < |s| && s[j] != root ==> c.d[s[j]].parent in s[..j]
    ensures var out := Collected(c, s);
            out[i] != root ==> out[i] < |c.d| && (c.Passes(c.d[out[i]].parent) ==> c.d[out[i]].parent in out[..i])
  {
    var k := |s| - 1;
    var less, out := Collected(c, s[..k]), Collected(c, s);
    forall j | 0 <= j < k && s[..k][j] != root ensures c.d[s[..k][j]].parent in s[..k][..j] {
      assert s[..k][..j] == s[..j];
    }
    if i < |less| {
      FirstKept(c, s[..k], root, i);
      assert out[..i] == less[..i];
    } else {
      assert out[..i] == less && out[i] == s[k];
      CollectedIn(c, s[..k], c.d[s[k]].parent);
    }
  }

  /** From a dentry up to the root of its filesystem. */
  function Chain(c: Cache, n: nat): (s: seq<nat>)
    requires c.Ok() && n < |c.d|
    ensures s != [] && s[0] == n && forall i :: 0 <= i < |s| ==> s[i] < |c.d|
    decreases c.depth[n]
  {
    if c.IsRoot(n) then [n] else assert c.InParent(n); [n] + Chain(c, c.d[n].parent)
  }

  /** It ends at the root. */
  lemma {:induction false} ChainTop(c: Cache, n: nat)
    requires c.Ok() && n < |c.d|
    ensures c.IsRoot(Chain(c, n)[|Chain(c, n)| - 1])
    decreases c.depth[n]
  {
    if !c.IsRoot(n) {
      assert c.InParent(n);
      ChainTop(c, c.d[n].parent);
    }
  }

  /** Each dentry of a chain but the first is the parent of the one before it. */
  lemma {:induction false} ChainLink(c: Cache, n: nat, i: nat)
    requires c.Ok() && n < |c.d| && i + 1 < |Chain(c, n)|
    ensures Link(c, Chain(c, n), i)
    decreases i
  {
    assert c.InParent(n);
    if i > 0 { ChainLink(c, c.d[n].parent, i - 1); }
  }

  predicate Link(c: Cache, s: seq<nat>, i: nat) {
    i + 1 < |s| && s[i] < |c.d| && !c.IsRoot(s[i]) && c.d[s[i]].parent == s[i + 1]
  }

  /** The caller's test; none means that everything passes. */
  predicate Chosen(test: set<nat>, all: bool, n: nat) {
    all || n in test
  }

  function Kept(s: seq<nat>, test: set<nat>, all: bool): seq<nat> {
    if s == [] then [] else (if Chosen(test, all, s[0]) then [s[0]] else []) + Kept(s[1..], test, all)
  }

  /** What is kept is what the test names, or everything if there is none. */
  lemma {:induction false} KeptIff(s: seq<nat>, test: set<nat>, all: bool, n: nat)
    ensures n in Kept(s, test, all) <==> n in s && (all || n in test)
  {
    if s != [] { KeptIff(s[1..], test, all, n); }
  }

  lemma {:induction false} KeptAll(s: seq<nat>)
    ensures Kept(s, {}, true) == s
  {
    if s != [] { KeptAll(s[1..]); }
  }

  /** What passes among the ancestors of n. */
  ghost function KeptAbove(c: Cache, n: nat, test: set<nat>, all: bool): seq<nat>
    requires c.Ok() && n < |c.d|
  {
    Kept(Chain(c, n)[1..], test, all)
  }

  ghost function KeptFrom(c: Cache, n: nat, doInclude: bool, test: set<nat>, all: bool): seq<nat>
    requires c.Ok() && n < |c.d|
  {
    if doInclude then Kept(Chain(c, n), test, all) else KeptAbove(c, n, test, all)
  }

  /** That is the ancestors the test names, the dentry itself only if asked for. */
  lemma KeptFromIff(c: Cache, n: nat, doInclude: bool, test: set<nat>, all: bool, m: nat)
    requires c.Ok() && n < |c.d|
    ensures m in KeptFrom(c, n, doInclude, test, all) <==>
              m in (if doInclude then Chain(c, n) else Chain(c, n)[1..]) && (all || m in test)
  {
    KeptIff(if doInclude then Chain(c, n) else Chain(c, n)[1..], test, all, m);
  }

  lemma KeptStep(c: Cache, n: nat, test: set<nat>, all: bool)
    requires c.Ok() && n < |c.d|
    ensures Kept(Chain(c, n), test, all) == (if Chosen(test, all, n) then [n] else []) + KeptAbove(c, n, test, all)
    ensures c.d[n].parent < |c.d| && (!c.IsRoot(n) ==> Depth(c, c.d[n].parent) < Depth(c, n))
    ensures if c.IsRoot(n) then KeptAbove(c, n, test, all) == []
            else
              && c.depth[c.d[n].parent] < c.depth[n]
              && KeptAbove(c, n, test, all) == Kept(Chain(c, c.d[n].parent), test, all)
  {
    if !c.IsRoot(n) {
      assert c.InParent(n);
      assert Chain(c, n)[1..] == Chain(c, c.d[n].parent);
    }
  }

  /** au_dcsub_pages_rev: the ancestors that pass, and the dentry itself if asked for. */
  method DcsubPagesRev(c: Cache, dentry: nat, doInclude: bool, test: set<nat>, all: bool, dp: Dpages) returns (err: int)
    requires c.Ok() && dentry < |c.d| && dp.Valid()
    modifies dp
    ensures dp.Valid() && err in {0, -ENOMEM}
    ensures err == 0 <==> |old(dp.All())| + |KeptFrom(c, dentry, doInclude, test, all)| <= old(dp.Cap())
    ensures err == 0 ==> dp.All() == old(dp.All()) + KeptFrom(c, dentry, doInclude, test, all)
  {
    err := 0;
    var n: nat := dentry;
    KeptStep(c, n, test, all);
    hide Kept, Chain, KeptAbove, Depth;
    ghost var want := KeptFrom(c, dentry, doInclude, test, all);
    if doInclude && Chosen(test, all, n) {
      err := dp.Append(n);
      if err != 0 { return; }
    }
    while !c.IsRoot(n)
      invariant n < |c.d| && c.Ok() && dp.Valid() && err == 0
      invariant dp.All() + KeptAbove(c, n, test, all) == old(dp.All()) + want
      invariant c.IsRoot(n) ==> KeptAbove(c, n, test, all) == []
      invariant dp.Cap() == old(dp.Cap())
      decreases Depth(c, n)
    {
      n, err := GoUp(c, n, test, all, dp);
      if err != 0 { return; }
    }
    dp.Fullness();
  }

  /** One round of au_dcsub_pages_rev. */
  method GoUp(c: Cache, n: nat, test: set<nat>, all: bool, dp: Dpages) returns (p: nat, err: int)
    requires c.Ok() && n < |c.d| && !c.IsRoot(n) && dp.Valid()
    modifies dp
    ensures dp.Valid() && err in {0, -ENOMEM} && dp.Cap() == old(dp.Cap())
    ensures err != 0 ==> |old(dp.All())| + |KeptAbove(c, n, test, all)| > dp.Cap()
    ensures p < |c.d| && Depth(c, p) < Depth(c, n) && (c.IsRoot(p) ==> KeptAbove(c, p, test, all) == [])
    ensures err == 0 ==> dp.All() + KeptAbove(c, p, test, all) == old(dp.All()) + KeptAbove(c, n, test, all)
  {
    hide Kept, Chain, KeptAbove, Cache.Ok;
    KeptStep(c, n, test, all);
    p := c.d[n].parent;
    KeptStep(c, p, test, all);
    err := 0;
    if Chosen(test, all, p) { err := dp.Append(p); }
  }

  ghost function Depth(c: Cache, n: nat): nat {
    if n < |c.depth| then c.depth[n] else 0
  }

  datatype Trap = NoTrap | Trap(n: nat)

  /** d2's child on the way down to d1, d1 itself if they are one, nothing if d2 is no ancestor. */
  ghost predicate TrapOf(c: Cache, d1: nat, d2: nat, t: Trap)
    requires c.Ok() && d1 < |c.d|
  {
    var s := Chain(c, d1);
    match t
    case NoTrap => d2 !in s
    case Trap(n) =>
      && n < |c.d| && n in s
      && (if d1 == d2 then n == d1 else d2 in s && !c.IsRoot(n) && c.d[n].parent == d2)
  }

  /** au_test_subdir. */
  method TestSubdir(c: Cache, d1: nat, d2: nat, mem: nat) returns (err: int, trap: Trap)
    requires c.Ok() && d1 < |c.d|
    ensures err == if |Chain(c, d1)| <= (1 + mem) * PER_PAGE then 0 else -ENOMEM
    ensures err == 0 ==> TrapOf(c, d1, d2, trap)
  {
    var dp := new Dpages(mem);
    err := DcsubPagesRev(c, d1, true, {}, true, dp);
    trap := NoTrap;
    ghost var s := Chain(c, d1);
    KeptAll(s);
    if err != 0 { return; }
    hide Chain, Kept, Flat;
    var found, last;
    ghost var k;
    found, last, k := ScanPages(dp.pages, s, d1, d2);
    trap := if found then Trap(last) else NoTrap;
    TrapIs(c, d1, d2, s, k, last, found);
  }

  /** The loops of au_test_subdir. */
  method ScanPages(pages: seq<seq<nat>>, ghost s: seq<nat>, d1: nat, d2: nat)
    returns (found: bool, last: nat, ghost k: nat)
    requires s == Flat(pages)
    ensures if found then Found(s, k, d2, last, d1) else k == |s| && Before(s, k, d2, last, d1)
  {
    assert pages[..|pages|] == pages && Flat(pages[..0]) == [];
    var i := 0;
    found, last, k := false, d1, 0;
    hide Found, Before, Flat;
    assert Before(s, 0, d2, d1, d1) by { NoneBefore(s, d1, d2); }
    while !found && i < |pages|
      invariant 0 <= i <= |pages|
      invariant if found then Found(s, k, d2, last, d1) else k == |Flat(pages[..i])| && Before(s, k, d2, last, d1)
    {
      PageOf(pages, i);
      found, last, k := ScanPage(pages[i], s, k, d1, d2, last);
      i := i + 1;
    }
  }

  lemma NoneBefore(s: seq<nat>, d1: nat, d2: nat)
    ensures Before(s, 0, d2, d1, d1)
  {
  }

  /** The inner loop of au_test_subdir over one page. */
  method ScanPage(page: seq<nat>, ghost s: seq<nat>, ghost from: nat, d1: nat, d2: nat, prev: nat)
    returns (found: bool, last: nat, ghost k: nat)
    requires from + |page| <= |s| && s[from..from + |page|] == page && Before(s, from, d2, prev, d1)
    ensures if found then Found(s, k, d2, last, d1) else k == from + |page| && Before(s, k, d2, last, d1)
  {
    found, last, k := false, prev, from;
    var j := 0;
    while !found && j < |page|
      invariant 0 <= j <= |page|
      invariant if found then Found(s, k, d2, last, d1) else k == from + j && Before(s, k, d2, last, d1)
    {
      assert s[k] == page[j] && s[..k + 1] == s[..k] + [s[k]];
      found := page[j] == d2;
      if !found { last, k := page[j], k + 1; }
      j := j + 1;
    }
  }

  lemma TrapIs(c: Cache, d1: nat, d2: nat, s: seq<nat>, k: nat, last: nat, found: bool)
    requires c.Ok() && d1 < |c.d| && s == Chain(c, d1)
    requires if found then Found(s, k, d2, last, d1) else k == |s| && Before(s, k, d2, last, d1)
    ensures TrapOf(c, d1, d2, if found then Trap(last) else NoTrap)
  {
    if found {
      if k > 0 {
        ChainLink(c, d1, k - 1);
        assert s[k - 1] in s && s[0] in s[..k];
      }
    } else {
      assert s[..k] == s;
    }
  }

  lemma PageOf(pages: seq<seq<nat>>, i: nat)
    requires i < |pages|
    ensures var from := |Flat(pages[..i])|;
            && from + |pages[i]| <= |Flat(pages)| && Flat(pages)[from..from + |pages[i]|] == pages[i]
            && |Flat(pages[..i + 1])| == from + |pages[i]|
  {
    FlatNext(pages[..i], pages[i]);
    assert pages[..i + 1] == pages[..i] + [pages[i]];
    FlatPrefix(pages, i + 1);
    var a := Flat(pages[..i + 1]);
    assert Flat(pages)[..|a|] == a;
    assert a[|Flat(pages[..i])|..] == pages[i];
  }

  /** d2 is not among the first k; last is the one before place k. */
  ghost predicate Before(s: seq<nat>, k: nat, d2: nat, last: nat, d1: nat) {
    k <= |s| && d2 !in s[..k] && last == if k == 0 then d1 else s[k - 1]
  }

  ghost predicate Found(s: seq<nat>, k: nat, d2: nat, last: nat, d1: nat) {
    k < |s| && s[k] == d2 && Before(s, k, d2, last, d1)
  }

  lemma {:induction false} FlatPrefix(pages: seq<seq<nat>>, i: nat)
    requires i <= |pages|
    ensures Flat(pages[..i]) <= Flat(pages)
    decreases |pages| - i
  {
    if i < |pages| {
      FlatNext(pages[..i], pages[i]);
      assert pages[..i + 1] == pages[..i] + [pages[i]];
      FlatPrefix(pages, i + 1);
    } else {
      assert pages[..i] == pages;
    }
  }
}
