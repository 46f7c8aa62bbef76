// memcpy and memmove on a fixed-size buffer.
module Memory {
  function Splice<T>(data: seq<T>, offset: nat, t: seq<T>): (r: seq<T>)
    requires offset + |t| <= |data|
    ensures |r| == |data|
  {
    data[..offset] + t + data[offset + |t|..]
  }

  method CopyInto<T>(dst: array<T>, offset: nat, src: seq<T>)
    requires offset + |src| <= dst.Length
    modifies dst
    ensures dst[..] == Splice(old(dst[..]), offset, src)
  {
    forall i | 0 <= i < |src| {
      dst[offset + i] := src[i];
    }
  }
}
