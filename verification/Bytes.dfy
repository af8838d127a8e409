/** Bytes and the big-endian integers every wire and disk format of the system is made of. */
module Bytes {

  type byte = n: int | 0 <= n < 0x100
  type u16 = n: int | 0 <= n < 0x1_0000
  type u32 = n: int | 0 <= n < 0x1_0000_0000
  type u64 = n: int | 0 <= n < 0x1_0000_0000_0000_0000
  type Bytes = seq<byte>

  /** One past the largest signed and unsigned 64-bit integers. */
  const INT64: int := 0x8000_0000_0000_0000
  const UINT64: int := 0x1_0000_0000_0000_0000

  datatype Option<+T> = None | Some(value: T)

  lemma MulMono(a: int, b: int, t: int)
    requires 0 <= a <= b && t >= 0
    ensures 0 <= a * t <= b * t
  {
  }

  function Reversed<T>(s: seq<T>): (r: seq<T>)
    ensures |r| == |s| && forall i :: 0 <= i < |s| ==> r[i] == s[|s| - 1 - i]
  {
    if s == [] then [] else [s[|s| - 1]] + Reversed(s[..|s| - 1])
  }

  lemma Assoc(x: Bytes, y: Bytes, z: Bytes)
    ensures x + (y + z) == x + y + z
  {
  }

  lemma PartsOf<T>(a: seq<T>, b: seq<T>)
    ensures (a + b)[..|a|] == a && (a + b)[|a|..] == b
  {
  }

  lemma SplitAt<T>(s: seq<T>, j: nat)
    requires j <= |s|
    ensures s[..j] + s[j..] == s
  {
  }

  lemma SplitTwice<T>(s: seq<T>, j: nat, k: nat)
    requires j <= k <= |s|
    ensures s[..j] + s[j..][..k - j] == s[..k] && s[j..][k - j..] == s[k..]
  {
  }

  function Concat(fs: seq<Bytes>): Bytes
  {
    if fs == [] then [] else fs[0] + Concat(fs[1..])
  }

  lemma TailOfAppend<T>(a: seq<T>, b: seq<T>)
    requires a != []
    ensures (a + b)[0] == a[0] && (a + b)[1..] == a[1..] + b
  {
  }

  lemma ConcatSnoc(a: seq<Bytes>, x: Bytes)
    ensures Concat(a + [x]) == Concat(a) + x
  {
    ConcatAppend(a, [x]);
    assert Concat([x]) == x + Concat([]);
  }

  lemma {:induction false} ConcatAppend(a: seq<Bytes>, b: seq<Bytes>)
    ensures Concat(a + b) == Concat(a) + Concat(b)
  {
    if a == [] {
      assert a + b == b;
    } else {
      ConcatAppend(a[1..], b);
      TailOfAppend(a, b);
      Assoc(a[0], Concat(a[1..]), Concat(b));
    }
  }

  function Pow256(k: nat): (p: nat)
    ensures p > 0
  {
    if k == 0 then 1 else 256 * Pow256(k - 1)
  }

  lemma Pow256Values()
    ensures Pow256(1) == 0x100
    ensures Pow256(2) == 0x1_0000
    ensures Pow256(4) == 0x1_0000_0000
    ensures Pow256(8) == 0x1_0000_0000_0000_0000
  {
    assert Pow256(3) == 0x100_0000;
    assert Pow256(5) == 0x100_0000_0000;
    assert Pow256(6) == 0x1_0000_0000_0000;
    assert Pow256(7) == 0x100_0000_0000_0000;
  }

  /** The low `k` bytes of `v`, most significant first. */
  function PutBE(v: nat, k: nat): (b: Bytes)
    ensures |b| == k
  {
    if k == 0 then [] else PutBE(v / 256, k - 1) + [v % 256]
  }

  function GetBE(b: Bytes): (v: nat)
    ensures v < Pow256(|b|)
  {
    if b == [] then 0 else GetBE(b[..|b| - 1]) * 256 + b[|b| - 1]
  }

  lemma {:induction false} GetPut(v: nat, k: nat)
    requires v < Pow256(k)
    ensures GetBE(PutBE(v, k)) == v
  {
    if k > 0 {
      GetPut(v / 256, k - 1);
      assert PutBE(v, k)[..k - 1] == PutBE(v / 256, k - 1);
    }
  }

  lemma Digits(high: nat, low: byte)
    ensures (high * 256 + low) / 256 == high && (high * 256 + low) % 256 == low
  {
  }

  lemma {:induction false} PutGet(b: Bytes)
    ensures PutBE(GetBE(b), |b|) == b
  {
    if b != [] {
      var front, last := b[..|b| - 1], b[|b| - 1];
      PutGet(front);
      Digits(GetBE(front), last);
      SplitAt(b, |b| - 1);
      assert b[|b| - 1..] == [last];
    }
  }

  /** The values at two, four and eight bytes of a buffer, most significant first. */
  function At2(b: Bytes, i: nat): int
    requires i + 2 <= |b|
  {
    b[i] as int * 0x100 + b[i + 1] as int
  }

  function At4(b: Bytes, i: nat): int
    requires i + 4 <= |b|
  {
    At2(b, i) * 0x1_0000 + At2(b, i + 2)
  }

  function At8(b: Bytes, i: nat): int
    requires i + 8 <= |b|
  {
    At4(b, i) * 0x1_0000_0000 + At4(b, i + 4)
  }

  lemma GetTwo(b: Bytes)
    requires |b| >= 2
    ensures GetBE(b) == GetBE(b[..|b| - 2]) * 0x1_0000 + At2(b, |b| - 2)
  {
    assert b[..|b| - 1][..|b| - 2] == b[..|b| - 2];
  }

  lemma GetFour(b: Bytes)
    requires |b| >= 4
    ensures GetBE(b) == GetBE(b[..|b| - 4]) * 0x1_0000_0000 + At4(b, |b| - 4)
  {
    GetTwo(b);
    GetTwo(b[..|b| - 2]);
    assert b[..|b| - 2][..|b| - 4] == b[..|b| - 4];
  }

  lemma BigEndian(b: Bytes, i: nat)
    ensures i + 2 <= |b| ==> GetBE(b[i..i + 2]) == At2(b, i)
    ensures i + 4 <= |b| ==> GetBE(b[i..i + 4]) == At4(b, i)
    ensures i + 8 <= |b| ==> GetBE(b[i..i + 8]) == At8(b, i)
  {
    if i + 2 <= |b| {
      GetTwo(b[i..i + 2]);
    }
    if i + 4 <= |b| {
      GetFour(b[i..i + 4]);
    }
    if i + 8 <= |b| {
      GetFour(b[i..i + 8]);
      assert b[i..i + 8][..4] == b[i..i + 4];
    }
  }

  /** `binary.BigEndian.PutUint`: overwrite `k` bytes of a buffer. */
  method PutUint(buf: array<byte>, at: nat, k: nat, v: nat)
    requires at + k <= buf.Length
    modifies buf
    ensures buf[..] == old(buf[..at]) + PutBE(v, k) + old(buf[at + k..])
  {
    var i, rest := k, v;
    while i > 0
      invariant 0 <= i <= k
      invariant PutBE(v, k) == PutBE(rest, i) + buf[at + i..at + k]
      invariant forall j :: 0 <= j < buf.Length && !(at + i <= j < at + k) ==> buf[j] == old(buf[j])
    {
      ghost var before := buf[at + i..at + k];
      i := i - 1;
      buf[at + i] := rest % 256;
      assert buf[at + i..at + k] == [rest % 256] + before;
      rest := rest / 256;
    }
  }
}
