/** The names aufs reserves on its branches (aufs_type.h). */
module Names {

  const WH_PFX: string := ".wh."
  const DIROPQ: string := ".wh..wh..opq"

  /** The whiteout of a name. */
  function Wh(name: string): (w: string)
    ensures |w| == |name| + 4 && w[4..] == name
  {
    WH_PFX + name
  }

  /** How readdir tells a whiteout: the prefix alone is an ordinary name. */
  predicate IsWh(name: string) {
    |name| > |WH_PFX| && name[..4] == WH_PFX
  }

  lemma WhIsWh(name: string)
    ensures name != "" ==> IsWh(Wh(name))
    ensures IsWh(name) ==> name == Wh(name[4..])
  {
    assert Wh(name)[..4] == WH_PFX;
    if IsWh(name) { assert name == name[..4] + name[4..]; }
  }
}
