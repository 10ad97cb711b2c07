/** The hash lists of names used while merging a directory (vdir.c): 32 chains that stand for a set. */
module NHash {

  const BUCKETS := 32

  type Heads = seq<seq<string>>

  /** full_name_hash of the kernel's dcache; nothing below depends on how it mixes the characters. */
  function FullNameHash(name: string): nat {
    if name == "" then 0
    else
      var c := name[|name| - 1] as int;
      (FullNameHash(name[..|name| - 1]) + c * 16 + c / 16) * 11 % 0x1_0000_0000
  }

  function NameHash(name: string): (h: nat)
    ensures h < BUCKETS
  {
    FullNameHash(name) % BUCKETS
  }

  /** Every name is on the chain of its hash. */
  ghost predicate Hashed(h: Heads) {
    && |h| == BUCKETS
    && forall i, n :: 0 <= i < BUCKETS && n in h[i] ==> NameHash(n) == i
  }

  /** The set the chains stand for. */
  ghost function Members(h: Heads): set<string> {
    set i, n | 0 <= i < |h| && n in h[i] :: n
  }

  /** au_nhash_init. */
  function Init(): (h: Heads)
    ensures Hashed(h) && Members(h) == {}
  {
    seq(BUCKETS, _ => [])
  }

  /** hlist_add_head on the chain of the name. */
  function AddHead(h: Heads, name: string): (r: Heads)
    requires |h| == BUCKETS
    ensures |r| == BUCKETS
  {
    h[NameHash(name) := [name] + h[NameHash(name)]]
  }

  /** Adding to a chain adds to the set, whatever else the chains hold. */
  lemma AddMember(h: Heads, name: string)
    requires Hashed(h)
    ensures Hashed(AddHead(h, name)) && Members(AddHead(h, name)) == Members(h) + {name}
  {
    var r, k := AddHead(h, name), NameHash(name);
    forall i, n | 0 <= i < BUCKETS ensures n in r[i] <==> n in h[i] || (i == k && n == name) {
      if i == k && n in h[i] {
        var j :| 0 <= j < |h[i]| && h[i][j] == n;
        assert r[i][j + 1] == n;
      }
    }
    assert name in r[k];
    forall n | n in Members(h) ensures n in Members(r) {
      var i :| 0 <= i < |h| && n in h[i];
      assert n in r[i];
    }
    forall n | n in Members(r) ensures n in Members(h) || n == name {
      var i :| 0 <= i < |r| && n in r[i];
    }
  }

  /** test_known and au_nhash_test_known_wh: a search of one chain decides membership. */
  method TestKnown(h: Heads, name: string) returns (found: bool)
    requires Hashed(h)
    ensures found <==> name in Members(h)
  {
    var chain := h[NameHash(name)];
    var i := 0;
    while i < |chain|
      invariant 0 <= i <= |chain| && name !in chain[..i]
    {
      if |chain[i]| == |name| && chain[i] == name {
        assert name in h[NameHash(name)];
        return true;
      }
      i := i + 1;
    }
    assert chain[..i] == chain;
    found := false;
  }
}
