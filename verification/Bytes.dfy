/** Bytes on the wire: big- and little-endian integers, in-place writes, and
    the sequence update ("splice") that specifies such a write. */
module Bytes {
  type byte = b: int | 0 <= b < 0x100
  type uint16 = n: int | 0 <= n < 0x1_0000
  type uint32 = n: int | 0 <= n < 0x1_0000_0000

  /** What an int64 holds of n. */
  function Int64(n: int): int {
    (n + 0x8000_0000_0000_0000) % 0x1_0000_0000_0000_0000 - 0x8000_0000_0000_0000
  }

  /** Big-endian reads of the bytes at i. */
  function U16At(s: seq<byte>, i: nat): (n: uint16)
    requires i + 2 <= |s|
  {
    (s[i] as int) * 0x100 + s[i + 1]
  }

  function U32At(s: seq<byte>, i: nat): (n: uint32)
    requires i + 4 <= |s|
  {
    (U16At(s, i) as int) * 0x1_0000 + U16At(s, i + 2)
  }

  /** Big-endian encodings. */
  function U16(n: uint16): (s: seq<byte>)
    ensures |s| == 2 && U16At(s, 0) == n
  {
    [n / 0x100, n % 0x100]
  }

  lemma U16Encodes(s: seq<byte>, i: nat)
    requires i + 2 <= |s|
    ensures U16(U16At(s, i)) == s[i..i + 2]
  {
  }

  function U32(n: uint32): (s: seq<byte>)
    ensures |s| == 4 && U32At(s, 0) == n
  {
    U16(n / 0x1_0000) + U16(n % 0x1_0000)
  }

  lemma U32Halves(high: uint16, low: uint16)
    ensures U32((high as int) * 0x1_0000 + low) == U16(high) + U16(low)
  {
    hide U16;
    Halves(low, high);
  }

  lemma Halves(low: nat, high: nat)
    requires low < 0x1_0000
    ensures (high * 0x1_0000 + low) % 0x1_0000 == low && (high * 0x1_0000 + low) / 0x1_0000 == high
  {
  }

  lemma U32Encodes(s: seq<byte>, i: nat)
    requires i + 4 <= |s|
    ensures U32(U32At(s, i)) == s[i..i + 4]
  {
    hide U16, U16At;
    U16Encodes(s, i);
    U16Encodes(s, i + 2);
    U32Halves(U16At(s, i), U16At(s, i + 2));
    assert s[i..i + 4] == s[i..i + 2] + s[i + 2..i + 4];
  }

  function Zeros(n: nat): (s: seq<byte>)
    ensures |s| == n && forall i :: 0 <= i < n ==> s[i] == 0
  {
    seq(n, _ => 0)
  }

  /** s with the bytes of v written over it from index i. */
  function Splice(s: seq<byte>, i: nat, v: seq<byte>): (r: seq<byte>)
    requires i + |v| <= |s|
    ensures |r| == |s|
  {
    s[..i] + v + s[i + |v|..]
  }

  /** A write replaces exactly the window it covers. */
  lemma SpliceWindow(s: seq<byte>, i: nat, v: seq<byte>)
    requires i + |v| <= |s|
    ensures Splice(s, i, v)[i..i + |v|] == v
    ensures Splice(s, i, v)[..i] == s[..i]
    ensures Splice(s, i, v)[i + |v|..] == s[i + |v|..]
  {
  }

  lemma SpliceSame(s: seq<byte>, i: nat, v: seq<byte>)
    requires i + |v| <= |s| && s[i..i + |v|] == v
    ensures Splice(s, i, v) == s
  {
  }

  /** Strings that agree outside a window become equal once it is overwritten. */
  lemma SpliceForgets(s: seq<byte>, t: seq<byte>, i: nat, v: seq<byte>)
    requires |s| == |t| && i + |v| <= |s|
    requires forall k :: 0 <= k < |s| && !(i <= k < i + |v|) ==> s[k] == t[k]
    ensures Splice(s, i, v) == Splice(t, i, v)
  {
    assert s[..i] == t[..i] && s[i + |v|..] == t[i + |v|..];
  }

  lemma SpliceAgree(s: seq<byte>, t: seq<byte>, i: nat, v: seq<byte>)
    requires |s| == |t| && i + |v| <= |s|
    ensures forall k :: 0 <= k < |s| && (s[k] == t[k] || i <= k < i + |v|) ==> Splice(s, i, v)[k] == Splice(t, i, v)[k]
  {
  }

  lemma SpliceAdjacent(s: seq<byte>, i: nat, v: seq<byte>, w: seq<byte>)
    requires i + |v| + |w| <= |s|
    ensures Splice(Splice(s, i, v), i + |v|, w) == Splice(s, i, v + w)
  {
  }

  lemma SpliceOfConcat(a: seq<byte>, b: seq<byte>, i: nat, v: seq<byte>)
    requires i + |v| <= |b|
    ensures a + Splice(b, i, v) == Splice(a + b, |a| + i, v)
  {
  }

  lemma SpliceTwice(s: seq<byte>, i: nat, v: seq<byte>, w: seq<byte>)
    requires |v| == |w| && i + |v| <= |s|
    ensures Splice(Splice(s, i, v), i, w) == Splice(s, i, w)
  {
  }

  lemma SpliceSuffix(s: seq<byte>, off: nat, i: nat, v: seq<byte>)
    requires off + i + |v| <= |s|
    ensures Splice(s, off + i, v)[off..] == Splice(s[off..], i, v)
  {
  }

  /** A write inside a prefix is a write to that prefix. */
  lemma SplicePrefix(s: seq<byte>, n: nat, i: nat, v: seq<byte>)
    requires i + |v| <= n <= |s|
    ensures Splice(s, i, v)[..n] == Splice(s[..n], i, v)
  {
  }

  /** A write behind a prefix leaves it alone. */
  lemma SpliceBehind(s: seq<byte>, n: nat, i: nat, v: seq<byte>)
    requires n <= i && i + |v| <= |s|
    ensures Splice(s, i, v)[..n] == s[..n]
  {
  }

  method Write(a: array<byte>, i: nat, v: seq<byte>)
    requires i + |v| <= a.Length
    modifies a
    ensures a[..] == Splice(old(a[..]), i, v)
  {
    for k := 0 to |v|
      invariant forall j :: 0 <= j < a.Length ==> a[j] == if i <= j < i + k then v[j - i] else old(a[j])
    {
      a[i + k] := v[k];
    }
  }
}
