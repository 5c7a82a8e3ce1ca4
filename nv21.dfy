/** Packing of the three YUV_420_888 planes of a camera frame into one
    NV21-ordered byte array, as `imageProxyToBitmap` does before handing the
    bytes to the JPEG encoder: the Y plane, then the V plane, then the U plane,
    each copied whole by one bulk `get` at a computed offset.

    A plane is modelled by the bytes its buffer has remaining. */
module Nv21 {

  /** The three planes of a frame, in the source's plane-index order:
      plane 0 is Y, plane 1 is U, plane 2 is V. */
  datatype Plane = Y | U | V

  function PlaneBytes(p: Plane, y: seq<bv8>, u: seq<bv8>, v: seq<bv8>): (bytes: seq<bv8>)
  {
    match p
    case Y => y
    case U => u
    case V => v
  }

  /** The number of bytes plane `p` contributes. */
  function PlaneSize(p: Plane, ySize: nat, uSize: nat, vSize: nat): (size: nat)
  {
    match p
    case Y => ySize
    case U => uSize
    case V => vSize
  }

  /** The buffer the packing is meant to produce: Y, then V, then U. */
  function Layout(y: seq<bv8>, u: seq<bv8>, v: seq<bv8>): (buf: seq<bv8>)
  {
    y + v + u
  }

  /** Where the bulk copy of plane `p` starts in the packed buffer; the copy
      ends inside the buffer. */
  function Offset(p: Plane, ySize: nat, uSize: nat, vSize: nat): (o: nat)
    ensures o + PlaneSize(p, ySize, uSize, vSize) <= ySize + uSize + vSize
  {
    match p
    case Y => 0
    case V => ySize
    case U => ySize + vSize
  }

  /** Per-byte reference for the packed buffer: the plane and the position in
      that plane that byte `k` is copied from. */
  function Origin(ySize: nat, uSize: nat, vSize: nat, k: nat): (o: (Plane, nat))
    requires k < ySize + uSize + vSize
    ensures o.1 < PlaneSize(o.0, ySize, uSize, vSize)
  {
    if k < ySize then (Y, k)
    else if k < ySize + vSize then (V, k - ySize)
    else (U, k - ySize - vSize)
  }

  /** Every byte of the packed buffer holds the byte of the plane position
      that `Origin` names. */
  lemma LayoutByteOrigin(y: seq<bv8>, u: seq<bv8>, v: seq<bv8>, k: nat)
    requires k < |y| + |u| + |v|
    ensures |Layout(y, u, v)| == |y| + |u| + |v|
    ensures Layout(y, u, v)[k] == PlaneBytes(Origin(|y|, |u|, |v|, k).0, y, u, v)[Origin(|y|, |u|, |v|, k).1]
  {
  }

  /** The three copies tile the buffer: each position of each plane lands at
      exactly one position of the buffer (its offset plus its index), and each
      position of the buffer receives exactly one plane byte, so no byte is
      left unwritten and none is written twice. */
  lemma CopiesTileBuffer(p: Plane, j: nat, ySize: nat, uSize: nat, vSize: nat, k: nat)
    requires j < PlaneSize(p, ySize, uSize, vSize)
    requires k < ySize + uSize + vSize
    ensures Offset(p, ySize, uSize, vSize) + j < ySize + uSize + vSize
    ensures Origin(ySize, uSize, vSize, Offset(p, ySize, uSize, vSize) + j) == (p, j)
    ensures Offset(Origin(ySize, uSize, vSize, k).0, ySize, uSize, vSize) + Origin(ySize, uSize, vSize, k).1 == k
  {
  }

  /** The packed buffer splits back into the three planes at the offsets of
      the three copies: bytes `[0, ySize)` are Y, `[ySize, ySize + vSize)` are V
      (V comes before U although U is plane 1) and the rest is U. */
  lemma LayoutSegments(y: seq<bv8>, u: seq<bv8>, v: seq<bv8>)
    ensures |Layout(y, u, v)| == |y| + |u| + |v|
    ensures Layout(y, u, v)[..|y|] == y
    ensures Layout(y, u, v)[|y|..|y| + |v|] == v
    ensures Layout(y, u, v)[|y| + |v|..] == u
  {
  }

  /** A buffer of the right length is the packed form of its own three
      segments, so `Layout` loses nothing. */
  lemma LayoutOfSegments(buf: seq<bv8>, ySize: nat, uSize: nat, vSize: nat)
    requires |buf| == ySize + uSize + vSize
    ensures Layout(buf[..ySize], buf[ySize + vSize..], buf[ySize..ySize + vSize]) == buf
  {
  }

  /** `ByteBuffer.get(dst, offset, length)` with `length` equal to what the
      buffer has remaining: copies `src` into `dst[offset..offset + |src|]` and
      leaves every other element alone. The source always passes an offset
      and length that fit, which the Java library otherwise rejects. */
  method BulkGet(src: seq<bv8>, dst: array<bv8>, offset: nat)
    requires offset + |src| <= dst.Length
    modifies dst
    ensures forall k :: 0 <= k < |src| ==> dst[offset + k] == src[k]
    ensures forall k :: 0 <= k < dst.Length && !(offset <= k < offset + |src|) ==> dst[k] == old(dst[k])
  {
    for i := 0 to |src|
      invariant forall k :: 0 <= k < i ==> dst[offset + k] == src[k]
      invariant forall k :: 0 <= k < dst.Length && !(offset <= k < offset + i) ==> dst[k] == old(dst[k])
    {
      dst[offset + i] := src[i];
    }
  }

  /** Lines 104-116: size one array to the three remaining counts together,
      then copy Y at 0, V at `ySize` and U at `ySize + vSize`. The new array's
      initial contents are left unspecified, so the last postcondition also
      says every byte is written. */
  method PackNv21(y: seq<bv8>, u: seq<bv8>, v: seq<bv8>) returns (nv21: array<bv8>)
    ensures fresh(nv21)
    ensures nv21.Length == |y| + |u| + |v|
    ensures nv21[..] == Layout(y, u, v)
  {
    var ySize, uSize, vSize := |y|, |u|, |v|;
    nv21 := new bv8[ySize + uSize + vSize];
    BulkGet(y, nv21, Offset(Y, ySize, uSize, vSize));
    BulkGet(v, nv21, Offset(V, ySize, uSize, vSize));
    BulkGet(u, nv21, Offset(U, ySize, uSize, vSize));
    forall k | 0 <= k < nv21.Length
      ensures nv21[k] == Layout(y, u, v)[k]
    {
      LayoutByteOrigin(y, u, v, k);
    }
  }
}
