/** The builder and the guest together: what `make_bfs` leaves in a buffer, mounted and walked. */
module Formatter {
  import opened Bytes
  import opened Geometry
  import opened Layout
  import opened VolumePlan
  import opened Mount
  import opened VolumeReader
  import opened RoundTrip
  import opened BuiltVolume
  import opened VolumeReads
  import opened MakeVolume

  /** `image` is what `make_bfs` leaves in `buf`, and `vol` its partition. */
  ghost predicate Formatted(buf: seq<byte>, offset: nat, size: nat, title: seq<byte>, v: Volume, image: seq<byte>, vol: seq<byte>)
  {
    && VolumeFine(v) && image == WrittenImage(buf, offset, size, title, v)
    && offset + size <= |image| && vol == image[offset..offset + size]
  }

  lemma FormattedIsVolume(buf: seq<byte>, offset: nat, size: nat, title: seq<byte>, v: Volume, image: seq<byte>, vol: seq<byte>)
    requires Placed(v, size) && offset + size <= |buf| && Formatted(buf, offset, size, title, v, image, vol)
    ensures IsVolume(vol, buf, offset, size, title, v)
    ensures |image| == |buf| && image[..offset] == buf[..offset] && image[offset + size..] == buf[offset + size..]
  {
    hide Placed, VolumeFine, WrittenImage, BuiltImage;
    WrittenInside(buf, offset, size, title, v);
    OutsideUntouched(buf, offset, size, title, v);
  }

  /** A tree that fits is built, nothing outside its partition changes, and the guest that mounts
      the partition finds the tree: every path, every byte, for every user. */
  lemma FormattedReads(buf: seq<byte>, offset: nat, size: nat, title: seq<byte>, items: seq<Item>, image: seq<byte>,
                       vol: seq<byte>, isOwner: bool, path: seq<byte>)
    requires Fitting(items, size) && offset + size <= |buf|
    requires Formatted(buf, offset, size, title, PlanVolume(items, DataStart(size)), image, vol)
    ensures Returns(PlanVolume(items, DataStart(size)), size)
    ensures |image| == |buf| && image[..offset] == buf[..offset] && image[offset + size..] == buf[offset + size..]
    ensures Open(vol).Some?
    ensures WalkFrom(vol, Open(vol).value, Open(vol).value.root, isOwner, Components(path)) ==
            Seek([Dir([], items)], Components(path))
  {
    hide Placed, VolumeFine, Formatted, IsVolume, Open, WalkFrom, Seek, Returns, PlanVolume, Used;
    var v := PlanVolume(items, DataStart(size));
    FittingIsPlaced(items, size);
    PlacedReturns(v, size);
    FormattedIsVolume(buf, offset, size, title, v, image, vol);
    BuiltVolumeReads(buf, offset, size, title, items, vol, isOwner, Components(path));
  }
}
