/**
 The branch list of a mount (branch.c, sbinfo.c): three parallel arrays, the branches themselves and
 the root directory's lower dentries and inodes, shifted together when a branch is added or deleted.
 */
module BranchTable {

  import opened Errno
  import opened BranchIds
  import opened Refresh

  /** struct au_branch: br_id, the lower root it was mounted from (naming its dentry and its inode), and br_count. */
  datatype Branch = Branch(id: int, root: nat, users: nat)

  /** An empty array element. */
  const NULL := Branch(0, 0, 0)

  function Ids(s: seq<Branch>): (r: seq<int>)
    ensures |r| == |s| && forall i :: 0 <= i < |s| ==> r[i] == s[i].id
  {
    seq(|s|, i requires 0 <= i < |s| => s[i].id)
  }

  // ----- branch ids of a signed C type that ranges over [-half, half)

  /** ++ on that type. */
  function Succ(half: int, id: int): int {
    if id == half - 1 then -half else id + 1
  }

  /** The n-th id after id, for as many ids as there are: counting up, from the lowest again after the highest. */
  lemma {:induction false} StepsCount(half: int, id: int, n: nat)
    requires 0 < half && -half <= id < half && n <= 2 * half
    ensures Steps(half, id, n) == if id + n < half then id + n else id + n - 2 * half
    decreases n
  {
    if n > 0 { StepsCount(half, Succ(half, id), n - 1); }
  }

  function Steps(half: int, id: int, n: nat): int
    decreases n
  {
    if n == 0 then id else Steps(half, Succ(half, id), n - 1)
  }

  predicate Free(ids: seq<int>, id: int) { id != 0 && id !in ids }

  function Interval(lo: int, hi: int): (r: set<int>)
    requires lo <= hi
    ensures |r| == hi - lo && forall x :: x in r <==> lo <= x < hi
    decreases hi - lo
  {
    if lo == hi then {} else {lo} + Interval(lo + 1, hi)
  }

  lemma {:induction false} Members(s: seq<int>) returns (m: set<int>)
    ensures |m| <= |s| && forall x :: x in m <==> x in s
  {
    if s == [] {
      m := {};
    } else {
      var t := Members(s[1..]);
      m := {s[0]} + t;
    }
  }

  /** Fewer branches than nonzero ids leave an id free. */
  lemma FreeIdExists(half: int, ids: seq<int>) returns (id: int)
    requires |ids| < 2 * half - 1 && half > 0
    ensures -half <= id < half && Free(ids, id)
  {
    var m := Members(ids);
    var all := Interval(-half, half) - {0};
    assert |all - m| == |all| - |all * m| && |m - all| == |m| - |m * all| && all * m == m * all;
    id :| id in all - m;
  }

  /** How many increments lead from a to b. */
  function Distance(half: int, a: int, b: int): int {
    if a < b then b - a else b - a + 2 * half
  }

  // ----- the list of branches as a value

  ghost predicate GoodIds(half: int, s: seq<Branch>) {
    Distinct(Ids(s)) && forall i :: 0 <= i < |s| ==> s[i].id != 0 && -half <= s[i].id < half
  }

  /** One branch operation: nothing, an addition at k, or a deletion at k. */
  datatype Op = Nop | Add(k: nat, b: Branch) | Del(k: nat)

  /** Which operations the source performs on s: an added branch has a free id of the id type. */
  predicate Fits(half: int, s: seq<Branch>, op: Op) {
    match op
    case Nop => true
    case Add(k, b) => k <= |s| && Free(Ids(s), b.id) && -half <= b.id < half
    case Del(k) => k < |s|
  }

  function Apply(s: seq<Branch>, op: Op): seq<Branch>
    requires match op case Nop => true case Add(k, _) => k <= |s| case Del(k) => k < |s|
  {
    match op
    case Nop => s
    case Add(k, b) => s[..k] + [b] + s[k..]
    case Del(k) => s[..k] + s[k + 1..]
  }

  /** Where the branch at i is after op. */
  function Moved(op: Op, i: nat): int {
    match op
    case Nop => i
    case Add(k, _) => if i < k then i else i + 1
    case Del(k) => if i < k then i else i - 1
  }

  lemma ApplyMoves(half: int, s: seq<Branch>, op: Op, i: nat)
    requires Fits(half, s, op) && i < |s| && op != Del(i)
    ensures 0 <= Moved(op, i) < |Apply(s, op)| && Apply(s, op)[Moved(op, i)] == s[i]
  {
  }

  ghost predicate Before(s: seq<Branch>, x: Branch, y: Branch) {
    exists i, j :: 0 <= i < j < |s| && s[i] == x && s[j] == y
  }

  lemma StepKeepsIds(half: int, s: seq<Branch>, op: Op)
    requires GoodIds(half, s) && Fits(half, s, op)
    ensures GoodIds(half, Apply(s, op))
  {
    var t := Apply(s, op);
    if op.Add? {
      forall i | 0 <= i < |s| ensures s[i].id != op.b.id { assert Ids(s)[i] == s[i].id; }
    }
    forall i, j | 0 <= i < j < |t| ensures Ids(t)[i] != Ids(t)[j] {
      assert forall a, b :: 0 <= a < b < |s| ==> Ids(s)[a] != Ids(s)[b];
      assert forall a, b :: 0 <= a < b < |s| ==> s[a].id != s[b].id;
    }
  }

  lemma StepKeepsOrder(half: int, s: seq<Branch>, op: Op, x: Branch, y: Branch)
    requires GoodIds(half, s) && Fits(half, s, op)
    requires Before(s, x, y) && x in Apply(s, op) && y in Apply(s, op)
    ensures Before(Apply(s, op), x, y)
  {
    if op.Del? { DeletedIsGone(half, s, op.k); }
    hide GoodIds, Apply, Fits;
    var i: nat, j: nat :| i < j < |s| && s[i] == x && s[j] == y;
    assert op != Del(i) && op != Del(j);
    ApplyMoves(half, s, op, i);
    ApplyMoves(half, s, op, j);
    assert Moved(op, i) < Moved(op, j);
  }

  lemma DeletedIsGone(half: int, s: seq<Branch>, k: nat)
    requires GoodIds(half, s) && k < |s|
    ensures s[k] !in Apply(s, Del(k))
  {
    forall a | 0 <= a < |s| && a != k ensures s[a] != s[k] {
      assert Ids(s)[a] != Ids(s)[k];
    }
  }

  predicate Legal(half: int, s: seq<Branch>, ops: seq<Op>)
    decreases |ops|
  {
    ops == [] || (Fits(half, s, ops[0]) && Legal(half, Apply(s, ops[0]), ops[1..]))
  }

  function Run(half: int, s: seq<Branch>, ops: seq<Op>): seq<Branch>
    requires Legal(half, s, ops)
    decreases |ops|
  {
    if ops == [] then s else Run(half, Apply(s, ops[0]), ops[1..])
  }

  /** x is in the list all through the run. */
  predicate Survives(half: int, s: seq<Branch>, ops: seq<Op>, x: Branch)
    requires Legal(half, s, ops)
    decreases |ops|
  {
    x in s && (ops == [] || Survives(half, Apply(s, ops[0]), ops[1..], x))
  }

  /** Over any sequence of operations ids stay nonzero, in range and pairwise distinct. */
  lemma {:induction false} RunKeepsIds(half: int, s: seq<Branch>, ops: seq<Op>)
    requires Legal(half, s, ops) && GoodIds(half, s)
    ensures GoodIds(half, Run(half, s, ops))
    decreases |ops|
  {
    if ops != [] {
      StepKeepsIds(half, s, ops[0]);
      RunKeepsIds(half, Apply(s, ops[0]), ops[1..]);
    }
  }

  /** Over any sequence of operations, two branches that are never deleted keep their relative order. */
  /** An addition puts the branch at its index, those from there on moving down; a deletion moves them up again. */
  lemma ApplyAt(s: seq<Branch>, k: nat, b: Branch, i: nat)
    requires k <= |s|
    ensures var r := Apply(s, Add(k, b));
            && |r| == |s| + 1 && r[k] == b && (i < k ==> r[i] == s[i]) && (k <= i < |s| ==> r[i + 1] == s[i])
    ensures k < |s| ==> var r := Apply(s, Del(k));
                        |r| == |s| - 1 && (i < k ==> r[i] == s[i]) && (k < i < |s| ==> r[i - 1] == s[i])
  {
  }

  lemma {:induction false} RunKeepsOrder(half: int, s: seq<Branch>, ops: seq<Op>, x: Branch, y: Branch)
    requires Legal(half, s, ops) && GoodIds(half, s) && Before(s, x, y)
    requires Survives(half, s, ops, x) && Survives(half, s, ops, y)
    ensures Before(Run(half, s, ops), x, y)
    decreases |ops|
  {
    if ops != [] {
      StepKeepsIds(half, s, ops[0]);
      StepKeepsOrder(half, s, ops[0], x, y);
      RunKeepsOrder(half, Apply(s, ops[0]), ops[1..], x, y);
    }
  }

  predicate IsRoot(s: seq<Branch>, root: nat) {
    exists i :: 0 <= i < |s| && s[i].root == root
  }

  /** What test_add answers: 0 to go on, 1 when the branch is there already, or an error. */
  function AddVerdict(s: seq<Branch>, max: nat, root: nat, k: int, remount: bool, tested: Verdict): int {
    if IsRoot(s, root) then (if remount then 1 else -EINVAL)
    else if max <= k || max <= |s| then -ENOSPC
    else if k < 0 || |s| < k then -EDOM
    else if tested.Refused? then tested.err
    else 0
  }

  /** How a deletion of the branch at k ends. */
  predicate DeleteEnds(s: seq<Branch>, k: nat, busy: Verdict, err: int, op: Op)
    requires k < |s|
  {
    if s[k].users != 0 then op == Nop && err == -EBUSY
    else if busy.Refused? then op == Nop && err == busy.err
    else op == Del(k) && err == 0
  }

  // ----- the arrays

  /** The first n positions of the three arrays each describe one branch, with distinct roots; the rest is cleared. */
  ghost predicate Aligned(branch: seq<Branch>, hdentry: seq<nat>, hinode: seq<Slot>, n: nat) {
    && n <= |branch| == |hdentry| == |hinode|
    && (forall i :: 0 <= i < n ==> hdentry[i] == branch[i].root != 0)
    && (forall i :: 0 <= i < n ==> hinode[i] == Slot(branch[i].root, branch[i].id))
    && (forall i :: n <= i < |branch| ==> branch[i] == NULL && hdentry[i] == 0 && !hinode[i].Used())
    && (forall i, j :: 0 <= i < j < n ==> hdentry[i] != hdentry[j])
  }

  /** memmove up by one from k, and x written at k. */
  function MoveUp<T>(s: seq<T>, k: nat, n: nat, x: T): (r: seq<T>)
    requires k <= n < |s|
    ensures |r| == |s|
    ensures forall i {:trigger r[i]} :: 0 <= i < |s| ==> r[i] == if i < k
            || n < i then s[i] else if i == k then x else s[i - 1]
  {
    s[..k] + [x] + s[k..n] + s[n + 1..]
  }

  /** memmove down by one onto k, and x written at the last position. */
  function MoveDown<T>(s: seq<T>, k: nat, n: nat, x: T): (r: seq<T>)
    requires k < n <= |s|
    ensures |r| == |s|
    ensures forall i {:trigger r[i]} :: 0 <= i < |s| ==> r[i] == if i < k
            || n <= i then s[i] else if i < n - 1 then s[i + 1] else x
  {
    s[..k] + s[k + 1..n] + [x] + s[n..]
  }

  lemma GrowAligned(branch: seq<Branch>, hdentry: seq<nat>, hinode: seq<Slot>, n: nat)
    requires Aligned(branch, hdentry, hinode, n)
    ensures Aligned(branch + [NULL], hdentry + [0], hinode + [Slot(0, 0)], n)
  {
    assert !Slot(0, 0).Used();
  }

  lemma InsertAligned(branch: seq<Branch>, hdentry: seq<nat>, hinode: seq<Slot>, n: nat, k: nat, b: Branch)
    requires Aligned(branch, hdentry, hinode, n) && k <= n < |branch|
    requires b.root != 0 && !IsRoot(branch[..n], b.root)
    ensures Aligned(MoveUp(branch, k, n, b), MoveUp(hdentry, k, n, b.root),
                    MoveUp(hinode, k, n, Slot(b.root, b.id)), n + 1)
    ensures MoveUp(branch, k, n, b)[..n + 1] == Apply(branch[..n], Add(k, b))
  {
    assert forall i :: 0 <= i < n ==> branch[..n][i] == branch[i];
  }

  lemma RemoveAligned(branch: seq<Branch>, hdentry: seq<nat>, hinode: seq<Slot>, n: nat, k: nat)
    requires Aligned(branch, hdentry, hinode, n) && k < n
    ensures Aligned(MoveDown(branch, k, n, NULL), MoveDown(hdentry, k, n, 0),
                    MoveDown(hinode, k, n, hinode[n - 1].(lower := 0)), n - 1)
    ensures MoveDown(branch, k, n, NULL)[..n - 1] == Apply(branch[..n], Del(k))
  {
  }

  /** How an addition or a deletion ends before it changes anything, as decided outside the arrays. */
  datatype Verdict = Admitted | Refused(err: int)

  class SbInfo {
    const half: int
    const max: nat
    var branch: seq<Branch>
    var hdentry: seq<nat>
    var hinode: seq<Slot>
    var sbend: int
    var dbend: int
    var ibend: int
    var dbstart: int
    var ibstart: int
    var lastId: int

    ghost predicate Valid()
      reads this
    {
      && half > 0 && max < 2 * half - 1
      && -half <= lastId < half
      && -1 <= sbend < max
      && sbend == dbend == ibend
      && (sbend >= 0 ==> dbstart == ibstart == 0)
      && sbend < |branch|
      && Aligned(branch, hdentry, hinode, sbend + 1)
      && GoodIds(half, Live())
    }

    function Live(): seq<Branch>
      reads this
      requires -1 <= sbend < |branch|
    {
      branch[..sbend + 1]
    }

    /** An empty mount: one cleared slot per array. */
    constructor (halfRange: int, maxBranches: nat)
      requires halfRange > 0 && maxBranches < 2 * halfRange - 1
      ensures Valid() && Live() == [] && half == halfRange && max == maxBranches
    {
      half, max := halfRange, maxBranches;
      branch, hdentry, hinode := [NULL], [0], [Slot(0, -1)];
      sbend, dbend, ibend, dbstart, ibstart, lastId := -1, -1, -1, -1, -1, 0;
    }

    /** alloc_addbr: room for one more branch in each array, cleared. */
    method Reserve()
      requires Valid()
      modifies this`branch, this`hdentry, this`hinode
      ensures Valid() && |branch| > sbend + 1 && Live() == old(Live())
    {
      if |branch| == sbend + 1 {
        GrowAligned(branch, hdentry, hinode, sbend + 1);
        assert (branch + [NULL])[..sbend + 1] == branch[..sbend + 1];
        hide Aligned, GoodIds;
        branch, hdentry, hinode := branch + [NULL], hdentry + [0], hinode + [Slot(0, 0)];
      }
    }

    /** au_find_dbindex over the root: the index of a branch by its lower root, or -1. */
    method FindDbIndex(root: nat) returns (index: int)
      requires Valid() && root != 0
      ensures -1 <= index <= sbend
      ensures index >= 0 ==> hdentry[index] == root
      ensures index < 0 ==> forall i :: 0 <= i <= sbend ==> hdentry[i] != root
    {
      index := dbstart;
      if sbend < 0 { return -1; }
      while index <= dbend
        invariant 0 <= index <= sbend + 1
        invariant forall i :: 0 <= i < index ==> hdentry[i] != root
      {
        if hdentry[index] == root { return; }
        index := index + 1;
      }
      index := -1;
    }

    /**
     au_new_br_id: increment until the id is neither 0 nor in use.  It returns the first such id after
     the last one given out, also when the counter wraps around.
     */
    method NewBrId() returns (id: int, ghost n: nat)
      requires Valid()
      modifies this`lastId
      ensures id == lastId && -half <= id < half && Free(Ids(Live()), id)
      ensures n > 0 && id == Steps(half, old(lastId), n)
      ensures forall m :: 0 < m < n ==> !Free(Ids(Live()), Steps(half, old(lastId), m))
    {
      ghost var goal := FreeIdExists(half, Ids(Live()));
      var ids := Ids(Live());
      n := 0;
      while true
        invariant -half <= lastId < half && lastId == Steps(half, old(lastId), n)
        invariant forall m :: 0 < m <= n ==> !Free(ids, Steps(half, old(lastId), m))
        decreases Distance(half, lastId, goal)
      {
        StepsSucc(half, old(lastId), n);
        lastId := Succ(half, lastId);
        n := n + 1;
        id := lastId;
        var index := BrIndex(ids, id);
        if id != 0 && index < 0 { return; }
      }
    }

    /** test_add: 0 to go on, 1 when the branch is there already, or an error. */
    method TestAdd(root: nat, k: int, remount: bool, tested: Verdict) returns (err: int)
      requires Valid() && root != 0 && (tested.Refused? ==> tested.err < 0)
      ensures err == AddVerdict(Live(), max, root, k, remount, tested)
    {
      var dup := FindDbIndex(root);
      if sbend >= 0 && dup >= 0 { return if remount then 1 else -EINVAL; }
      if max <= k || max - 1 <= sbend { return -ENOSPC; }
      if k < 0 || sbend + 1 < k { return -EDOM; }
      return if tested.Refused? then tested.err else 0;
    }

    /** The three memmoves of au_br_add and what is written into the gap. */
    method Insert(k: nat, root: nat, id: int)
      requires Valid() && k <= sbend + 1 < max && root != 0 && !IsRoot(Live(), root)
      requires -half <= id < half && Free(Ids(Live()), id)
      modifies this`branch, this`hdentry, this`hinode, this`sbend, this`dbend, this`ibend, this`dbstart, this`ibstart
      ensures Valid() && Live() == Apply(old(Live()), Add(k, Branch(id, root, 0)))
    {
      hide Aligned, GoodIds, IsRoot, Ids;
      Reserve();
      StepKeepsIds(half, Live(), Add(k, Branch(id, root, 0)));
      InsertAligned(branch, hdentry, hinode, sbend + 1, k, Branch(id, root, 0));
      branch := MoveUp(branch, k, sbend + 1, Branch(id, root, 0));
      hdentry := MoveUp(hdentry, k, sbend + 1, root);
      hinode := MoveUp(hinode, k, sbend + 1, Slot(root, id));
      sbend, dbend, ibend := sbend + 1, dbend + 1, ibend + 1;
      if sbend == 0 { dbstart, ibstart := 0, 0; }
    }

    /**
     au_br_add.  tested is what the checks on the new root itself decide (existence, type, overlap),
     oom whether an allocation or the branch's own initialisation fails.
     */
    method AddBranch(root: nat, k: int, remount: bool, tested: Verdict, oom: bool) returns (err: int, ghost op: Op)
      requires Valid() && root != 0 && (tested.Refused? ==> tested.err < 0)
      modifies this
      ensures Valid() && Fits(half, old(Live()), op) && Live() == Apply(old(Live()), op)
      ensures IsRoot(old(Live()), root) ==> op == Nop && err == if remount then 0 else -EINVAL
      ensures !IsRoot(old(Live()), root) && (max <= |old(Live())| || max <= k) ==> op == Nop && err == -ENOSPC
      ensures !IsRoot(old(Live()), root) && |old(Live())| < max && (k < 0 || |old(Live())| < k < max) ==>
                op == Nop && err == -EDOM
      ensures !IsRoot(old(Live()), root) && |old(Live())| < max && 0 <= k <= |old(Live())| ==>
                (op == Nop <==> tested.Refused? || oom)
      ensures var v := AddVerdict(old(Live()), max, root, k, remount, tested);
              if v == 0 && !oom then err == 0 && op == Add(k, Branch(lastId, root, 0))
              else op == Nop && lastId == old(lastId) && err == if v == 1 then 0 else if v < 0 then v else -ENOMEM
    {
      hide IsRoot, Ids, GoodIds, Aligned;
      op := Nop;
      err := TestAdd(root, k, remount, tested);
      if err != 0 { return if err < 0 then err else 0, op; }
      if oom { return -ENOMEM, op; }
      ghost var n;
      var id;
      id, n := NewBrId();
      op := Add(k, Branch(id, root, 0));
      Insert(k, root, id);
    }

    /**
     au_br_del.  busy is what the scan for dentries and inodes still using the branch returns.
     */
    method DeleteBranch(root: nat, remount: bool, busy: Verdict) returns (err: int, ghost op: Op)
      requires Valid() && root != 0 && (busy.Refused? ==> busy.err < 0)
      modifies this
      ensures Valid() && lastId == old(lastId)
      ensures Fits(half, old(Live()), op) && Live() == Apply(old(Live()), op)
      ensures op != Nop ==>
                && err == 0 && busy.Admitted? && op.Del? && op.k < |old(Live())| && |old(Live())| > 1
                && old(Live())[op.k].root == root && old(Live())[op.k].users == 0
      ensures op == Nop && err == 0 ==> remount && !IsRoot(old(Live()), root)
      ensures var s := old(Live());
              if !IsRoot(s, root) then op == Nop && err == if remount then 0 else -ENOENT
              else if |s| == 1 then op == Nop && err == -EBUSY
              else exists k: nat :: k < |s| && s[k].root == root && DeleteEnds(s, k, busy, err, op)
    {
      op := Nop;
      var k := FindDbIndex(root);
      if k < 0 { return if remount then 0 else -ENOENT, op; }
      assert Live()[k].root == root;
      if sbend == 0 || branch[k].users != 0 { return -EBUSY, op; }
      if busy.Refused? { return busy.err, op; }
      op := Del(k);
      Remove(k);
      err := 0;
    }

    method Remove(k: nat)
      requires Valid() && k <= sbend && sbend > 0
      modifies this`branch, this`hdentry, this`hinode, this`sbend, this`dbend, this`ibend
      ensures Valid() && Live() == Apply(old(Live()), Del(k))
    {
      hide GoodIds, IsRoot, Ids, Apply;
      StepKeepsIds(half, Live(), Del(k));
      RemoveAligned(branch, hdentry, hinode, sbend + 1, k);
      branch := MoveDown(branch, k, sbend + 1, NULL);
      hdentry := MoveDown(hdentry, k, sbend + 1, 0);
      hinode := MoveDown(hinode, k, sbend + 1, hinode[sbend].(lower := 0));
      sbend, dbend, ibend := sbend - 1, dbend - 1, ibend - 1;
    }

    /** au_hfile opening and closing: only the user count of branch k changes. */
    method SetUsers(k: nat, n: nat)
      requires Valid() && k <= sbend
      modifies this`branch
      ensures Valid() && Live() == old(Live())[k := old(Live())[k].(users := n)]
    {
      assert Ids(Live()[k := Live()[k].(users := n)]) == Ids(Live());
      branch := branch[k := branch[k].(users := n)];
      assert Live() == old(Live())[k := old(Live())[k].(users := n)];
    }
  }

  lemma {:induction false} StepsSucc(half: int, id: int, n: nat)
    ensures Steps(half, id, n + 1) == Succ(half, Steps(half, id, n))
    decreases n
  {
    if n > 0 { StepsSucc(half, Succ(half, id), n - 1); }
  }
}