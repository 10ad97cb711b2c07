/** Reading a directory, from the branches' entries to the caller's buffers (vdir.c). */
module Getdents {

  import opened Errno
  import opened Vdir
  import opened Readdir
  import opened Listing

  /** out is the start of all, as far as the buffers have room for it, at growing positions. */
  ghost predicate Delivered(out: seq<Dirent>, all: seq<De>, rooms: seq<nat>) {
    && Plain(out) == all[..Min(Sum(rooms), |all|)]
    && forall k, l :: 0 <= k < l < |out| ==> out[k].1 < out[l].1
  }

  lemma DeliveredStart(out: seq<Dirent>, ds: seq<Dirent>, hi: nat, all: seq<De>, rooms: seq<nat>)
    requires |out| == Min(Sum(rooms), |ds|) && out == ds[..|out|] && Ascending(ds, 0, hi) && Plain(ds) == all
    ensures Delivered(out, all, rooms)
  {
    assert Plain(out) == Plain(ds)[..|out|];
  }

  /** A new file's reads of its private copy, in as many calls as there are buffers. */
  method ReadCopy(copy: Dir, rooms: seq<nat>) returns (got: seq<Dirent>)
    requires Blocks(copy.deblk, copy.parts) && rooms != []
    modifies copy`lastI, copy`lastP
    ensures Delivered(got, Flat(copy.parts), rooms)
  {
    ListedFlat(copy.parts, 0);
    ListedAscend(copy.deblk, copy.parts, 0);
    hide Cursor, Listed, Blocks, Flat, Sum, Ascending, Delivered;
    var file := new OpenDir(copy, 0);
    got := file.ReadOn(rooms, 0);
    DeliveredStart(got, file.All(), DEBLK * |copy.parts|, Flat(copy.parts), rooms);
  }

  /**
   The merge into the inode's listing, its copy for the open file, and any number of calls with buffers of
   any size: what they deliver is the merged listing from its start, all of it if there is room.
   */
  method ReadDirectory(filler: Filler, copy: Dir, layers: Layers, rooms: seq<nat>) returns (err: int, got: seq<Dirent>)
    requires LayersOk(layers) && filler.Blank(|layers|)
    requires filler.vdir.Valid() && filler.vdir.Open() && Flat(filler.vdir.parts) == []
    requires copy.Valid() && copy != filler.vdir && |copy.deblk| == 1 && rooms != []
    modifies filler.vdir, filler`delist, filler`whlist, copy
    ensures err == 0 ==> Delivered(got, Merged(layers, |layers|), rooms)
    ensures err == 0 && |Merged(layers, |layers|)| <= Sum(rooms) ==> Plain(got) == Merged(layers, |layers|)
    ensures err in {0, -EIO, -ENOMEM} && (err == -EIO ==> NoNumber(layers)) && (err == 0 ==> !NoNumber(layers))
    ensures err == -ENOMEM ==> var n := 2 * Total(layers, |layers|);
                               |old(filler.vdir.heap)| <= n || |old(copy.heap)| < |old(filler.vdir.deblk)| + n - 1
  {
    hide Blocks, Flat, Sum, Merged, Filler.Blank, LayersOk, NoNumber;
    got := [];
    err := filler.ReadVdir(layers);
    if err != 0 { return; }
    err := copy.CopyVdir(filler.vdir);
    if err != 0 { return; }
    got := ReadCopy(copy, rooms);
  }
}
