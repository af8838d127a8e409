/** Chunks of a file on the wire, and writes at an offset (pkg/transfer). */
module Transfer {
  import opened Bytes
  import opened Ranges

  const CHUNK_SIZE: nat := 512 * 1024

  function EncodeChunk(offset: int, data: Bytes): Bytes
    requires 0 <= offset < INT64
  {
    PutBE(offset, 8) + data
  }

  /** The offset is read back as a signed 64-bit integer. */
  function DecodeChunk(b: Bytes): Option<(int, Bytes)>
  {
    if |b| < 8 then None
    else
      var v := GetBE(b[..8]);
      Some((if v < INT64 then v else v - UINT64, b[8..]))
  }

  lemma DecodeEncoded(offset: int, data: Bytes)
    requires 0 <= offset < INT64
    ensures DecodeChunk(EncodeChunk(offset, data)) == Some((offset, data))
  {
    Pow256Values();
    GetPut(offset, 8);
    assert EncodeChunk(offset, data)[..8] == PutBE(offset, 8);
    assert EncodeChunk(offset, data)[8..] == data;
  }

  /** The image of a chunk: eight bytes of offset, most significant first, then the data. */
  lemma ChunkLayout(offset: int, data: Bytes)
    requires 0 <= offset < INT64
    ensures var b := EncodeChunk(offset, data); |b| == 8 + |data| && At8(b, 0) == offset && b[8..] == data
  {
    DecodeEncoded(offset, data);
    BigEndian(EncodeChunk(offset, data), 0);
    assert EncodeChunk(offset, data)[0..8] == EncodeChunk(offset, data)[..8];
  }

  /** Which messages are chunks: at least eight bytes; a first byte of 128 or more makes the offset negative. */
  lemma DecodeIff(b: Bytes)
    ensures DecodeChunk(b).Some? <==> |b| >= 8
    ensures |b| >= 8 ==>
              var off := DecodeChunk(b).value.0;
              (off < 0 <==> b[0] >= 128) && off == At8(b, 0) - (if b[0] >= 128 then UINT64 else 0) && DecodeChunk(b).value.1 == b[8..]
  {
    if |b| >= 8 {
      BigEndian(b, 0);
      assert b[0..8] == b[..8];
    }
  }

  method BuildChunk(offset: int, data: Bytes) returns (buf: array<byte>)
    requires 0 <= offset < INT64
    ensures fresh(buf) && buf[..] == EncodeChunk(offset, data)
  {
    buf := new byte[8 + |data|](i => if 8 <= i < 8 + |data| then data[i - 8] else 0);
    assert buf[8..] == data;
    PutUint(buf, 0, 8, offset);
    assert buf[..] == PutBE(offset, 8) + buf[8..];
  }

  function Zeros(n: nat): (z: Bytes)
    ensures |z| == n && forall i :: 0 <= i < n ==> z[i] == 0
  {
    seq(n, _ => 0)
  }

  /** os.File.WriteAt: a gap past the end is filled with zeros; a negative offset is an error. */
  function WriteAt(file: Bytes, off: int, data: Bytes): Option<Bytes>
  {
    if off < 0 then None
    else if data == [] then Some(file)
    else
      var base := if |file| < off then file + Zeros(off - |file|) else file;
      Some(base[..off] + data + if off + |data| < |base| then base[off + |data|..] else [])
  }

  lemma WriteAtIs(file: Bytes, off: int, data: Bytes)
    requires off >= 0 && data != []
    ensures var f := WriteAt(file, off, data);
            && f.Some?
            && |f.value| == (if off + |data| > |file| then off + |data| else |file|)
            && (forall j :: off <= j < off + |data| ==> f.value[j] == data[j - off])
            && (forall j :: |file| <= j < off ==> f.value[j] == 0)
            && (forall j :: 0 <= j < |file| && !(off <= j < off + |data|) ==> f.value[j] == file[j])
  {
  }

  /** Writing a piece of the source where it belongs never spoils what was right, and makes the piece right. */
  lemma WritePiece(src: Bytes, file: Bytes, off: int, m: int)
    requires |file| == |src| && 0 <= off && 0 < m && off + m <= |src|
    ensures var f := WriteAt(file, off, src[off..off + m]);
            && f.Some? && |f.value| == |src|
            && (forall j :: off <= j < off + m ==> f.value[j] == src[j])
            && (forall j :: 0 <= j < |src| && file[j] == src[j] ==> f.value[j] == src[j])
  {
    WriteAtIs(file, off, src[off..off + m]);
  }
}
