/** The Internet checksum: `packetChecksum` against RFC 1071 section 1. */
module Checksum {
  import opened Bytes


  /** Addition with end-around carry, the one's complement sum of RFC 1071. */
  function OnesAdd(a: uint16, b: uint16): (r: uint16) {
    if a + b > 0xffff then a + b - 0xffff else a + b
  }

  /** One's complement sum of the 16-bit words of s; an odd last byte is padded
      on the right with zero. */
  function OnesSum(s: seq<byte>): uint16 {
    if s == [] then 0
    else if |s| == 1 then s[0] * 0x100
    else OnesAdd(U16At(s, 0), OnesSum(s[2..]))
  }

  function Rfc1071(s: seq<byte>): uint16 {
    0xffff - OnesSum(s)
  }

  /** The same words added without any carry handling. */
  function WordSum(s: seq<byte>): nat {
    if s == [] then 0
    else if |s| == 1 then s[0] * 0x100
    else U16At(s, 0) + WordSum(s[2..])
  }

  /** The carry folding of packet.go:417-419. */
  function Fold(sum: nat): uint16
    decreases sum
  {
    if sum / 0x1_0000 == 0 then sum else Fold(sum % 0x1_0000 + sum / 0x1_0000)
  }

  /** Folding keeps the residue modulo 0xffff, in the range 1..0xffff. */
  lemma {:induction false} FoldOf(n: nat, q: nat, m: int)
    requires n == q * 0xffff + m && 1 <= m <= 0xffff
    ensures Fold(n) == m
    decreases n
  {
    var h := n / 0x1_0000;
    if h != 0 {
      FoldOf(n - h * 0xffff, q - h, m);
    }
  }

  lemma Residue(n: nat) returns (q: nat, m: int)
    requires n != 0
    ensures n == q * 0xffff + m && 1 <= m <= 0xffff && Fold(n) == m
  {
    q, m := (n - 1) / 0xffff, (n - 1) % 0xffff + 1;
    FoldOf(n, q, m);
  }

  lemma FoldOfSum(w: uint16, sum: nat)
    ensures Fold(w + sum) == OnesAdd(w, Fold(sum))
  {
    if sum != 0 {
      var q, m := Residue(sum);
      if w + m <= 0xffff {
        FoldOf(w + sum, q, w + m);
      } else {
        FoldOf(w + sum, q + 1, w + m - 0xffff);
      }
    }
  }

  /** Deferring all carries to the end gives the end-around-carry sum. */
  lemma {:induction false} FoldOfWordSum(s: seq<byte>)
    ensures Fold(WordSum(s)) == OnesSum(s)
  {
    if |s| >= 2 {
      FoldOfWordSum(s[2..]);
      FoldOfSum(U16At(s, 0), WordSum(s[2..]));
    }
  }

  lemma {:induction false} WordSumBound(s: seq<byte>)
    ensures WordSum(s) <= (|s| + 1) / 2 * 0xffff
  {
    if |s| >= 2 {
      WordSumBound(s[2..]);
    }
  }

  lemma {:induction false} WordSumOfConcat(a: seq<byte>, b: seq<byte>)
    requires |a| % 2 == 0
    ensures WordSum(a + b) == WordSum(a) + WordSum(b)
  {
    if a == [] {
      assert a + b == b;
    } else {
      assert (a + b)[2..] == a[2..] + b;
      WordSumOfConcat(a[2..], b);
    }
  }

  lemma WordSumAround(a: seq<byte>, w: seq<byte>, b: seq<byte>)
    requires |a| % 2 == 0 && |w| % 2 == 0
    ensures WordSum(a + w + b) == WordSum(a) + WordSum(w) + WordSum(b)
  {
    WordSumOfConcat(a + w, b);
    WordSumOfConcat(a, w);
  }

  function Concat(parts: seq<seq<byte>>): seq<byte> {
    if parts == [] then [] else parts[0] + Concat(parts[1..])
  }

  lemma ConcatPair(a: seq<byte>, b: seq<byte>)
    ensures Concat([a, b]) == a + b
  {
    assert [a, b][1..] == [b];
    assert Concat([b]) == b;
  }

  lemma {:induction false} ConcatSnoc(parts: seq<seq<byte>>, p: seq<byte>)
    ensures Concat(parts + [p]) == Concat(parts) + p
  {
    if parts == [] {
      assert parts + [p] == [p];
    } else {
      assert (parts + [p])[1..] == parts[1..] + [p];
      ConcatSnoc(parts[1..], p);
    }
  }

  /** No packet can overflow the accumulator: 0x1_0001 words of 0xffff just fit. */
  lemma AccumulatorFits(s: seq<byte>)
    requires |s| <= 2 * 0x1_0001
    ensures WordSum(s) < 0x1_0000_0000
  {
    WordSumBound(s);
  }

  function Low32(n: nat): uint32 {
    if n < 0x1_0000_0000 then n else n % 0x1_0000_0000
  }

  /** uint32 addition of Go. */
  function Add32(a: uint32, b: uint32): uint32 {
    if a + b < 0x1_0000_0000 then a + b else a + b - 0x1_0000_0000
  }

  lemma Add32IsLow32(n: nat, b: uint32)
    ensures Add32(Low32(n), b) == Low32(n + b)
  {
  }

  /** What the code computes for any parts: the folded 32-bit accumulator. */
  function CodeChecksum(s: seq<byte>): uint16 {
    0xffff - Fold(Low32(WordSum(s)))
  }

  lemma NoWrapIsRfc1071(s: seq<byte>)
    requires WordSum(s) < 0x1_0000_0000
    ensures CodeChecksum(s) == Rfc1071(s)
  {
    FoldOfWordSum(s);
  }

  /** The accumulator did not wrap, or so often that the residue came round again. */
  predicate WrapHarmless(sum: nat) {
    sum < 0x1_0000_0000 || (sum % 0x1_0000_0000 != 0 && sum / 0x1_0000_0000 % 0xffff == 0)
  }

  /** A sum and its low 32 bits fold alike exactly when wrapping was harmless: each
      wrap loses 2^32, which is 1 modulo 0xffff. */
  lemma FoldOfLow32(sum: nat)
    ensures Fold(Low32(sum)) == Fold(sum) <==> WrapHarmless(sum)
  {
    var wraps, low := sum / 0x1_0000_0000, sum % 0x1_0000_0000;
    if wraps != 0 {
      var q, m := Residue(sum);
      if low != 0 {
        var ql, ml := Residue(low);
        var a, b := wraps / 0xffff, wraps % 0xffff;
        var quotient := wraps * 0x1_0001 + a + ql;
        assert sum == quotient * 0xffff + b + ml;
        if b + ml <= 0xffff {
          FoldOf(sum, quotient, b + ml);
        } else {
          FoldOf(sum, quotient + 1, b + ml - 0xffff);
        }
      }
    }
  }

  /** The code's result is the RFC 1071 checksum exactly when the 32-bit accumulator
      did not wrap, or harmlessly. */
  lemma CorrectIffHarmless(s: seq<byte>)
    ensures CodeChecksum(s) == Rfc1071(s) <==> WrapHarmless(WordSum(s))
  {
    FoldOfWordSum(s);
    FoldOfLow32(WordSum(s));
  }

  /** Below 8 GiB no wrap is harmless. */
  lemma CorrectIffNoWrap(s: seq<byte>)
    requires |s| <= 0x1_ffff_0000
    ensures CodeChecksum(s) == Rfc1071(s) <==> WordSum(s) < 0x1_0000_0000
  {
    CorrectIffHarmless(s);
    WordSumBound(s);
    var wraps := WordSum(s) / 0x1_0000_0000;
    assert wraps < 0xffff;
  }

  /** Inserting the complement of a sum makes the whole fold to 0xffff. */
  lemma ComplementFolds(sum: nat)
    ensures Fold(sum + (0xffff - Fold(sum))) == 0xffff
  {
    if sum != 0 {
      var q, m := Residue(sum);
      FoldOf(sum + (0xffff - m), q, 0xffff);
    }
  }

  /** Adding 0xffff to a sum that is not zero does not change its fold. */
  lemma AddOnesFolds(sum: nat)
    requires sum != 0
    ensures Fold(sum + 0xffff) == Fold(sum)
  {
    var q, m := Residue(sum);
    FoldOf(sum + 0xffff, q + 1, m);
  }

  /** The loop state of packetChecksum after the bytes of s: every whole word is
      in sum, and a last odd byte waits in high for its partner. */
  ghost predicate Accumulated(s: seq<byte>, sum: uint32, high: byte, odd: bool) {
    && odd == (|s| % 2 == 1)
    && (odd ==> high == s[|s| - 1])
    && sum == Low32(WordSum(s[..|s| - |s| % 2]))
  }

  lemma AddWord(s: seq<byte>, word: seq<byte>, sum: uint32, w: uint16)
    requires |s| % 2 == 0 && w == WordSum(word)
    requires sum == Low32(WordSum(s))
    ensures Add32(sum, w) == Low32(WordSum(s + word))
  {
    WordSumOfConcat(s, word);
    Add32IsLow32(WordSum(s), w);
  }

  /** The whole words of one part, packet.go:406-409. */
  method AddWords(data: seq<byte>, sum0: uint32, ghost s: seq<byte>) returns (sum: uint32, part: seq<byte>)
    requires |data| <= |s| && (|s| - |data|) % 2 == 0 && s[|s| - |data|..] == data
    requires sum0 == Low32(WordSum(s[..|s| - |data|]))
    ensures part == s[|s| - |s| % 2..]
    ensures sum == Low32(WordSum(s[..|s| - |s| % 2]))
  {
    hide WordSum, Low32, Add32;
    sum, part := sum0, data;
    while |part| >= 2
      invariant |part| <= |s| && (|s| - |part|) % 2 == 0 && s[|s| - |part|..] == part
      invariant sum == Low32(WordSum(s[..|s| - |part|]))
    {
      ghost var done := s[..|s| - |part|];
      FirstWord(part);
      AddWord(done, part[..2], sum, U16At(part, 0));
      NextWord(s, |s| - |part|, part);
      sum := Add32(sum, U16At(part, 0));
      part := part[2..];
    }
  }

  lemma FirstWord(part: seq<byte>)
    requires |part| >= 2
    ensures WordSum(part[..2]) == U16At(part, 0)
  {
  }

  lemma NextWord(s: seq<byte>, n: nat, part: seq<byte>)
    requires n <= |s| && part == s[n..] && |part| >= 2
    ensures s[..n] + part[..2] == s[..n + 2] && part[2..] == s[n + 2..]
  {
  }

  lemma PairSum(high: byte, low: byte)
    ensures WordSum([high, low]) == high as int * 0x100 + low
  {
  }

  /** One part of packetChecksum, packet.go:398-413. */
  method AddPart(data: seq<byte>, sum0: uint32, high0: byte, odd0: bool, ghost before: seq<byte>)
    returns (sum: uint32, high: byte, odd: bool)
    requires Accumulated(before, sum0, high0, odd0)
    ensures Accumulated(before + data, sum, high, odd)
  {
    hide WordSum, Low32, Add32;
    var part := data;
    sum, high, odd := sum0, high0, odd0;
    ghost var s := before + data;
    if part == [] {
      assert s == before;
      return;
    }
    ghost var even := |before| - |before| % 2;
    assert s[..even] == before[..even];
    if odd {
      PairSum(high, part[0]);
      AddWord(s[..even], [high, part[0]], sum, high as int * 0x100 + part[0]);
      assert s[..even] + [high, part[0]] == s[..even + 2];
      sum := Add32(sum, high as int * 0x100 + part[0]);
      part, odd := part[1..], false;
    }
    sum, part := AddWords(part, sum, s);
    if part != [] {
      high, odd := part[0], true;
    }
  }

  method FoldCarries(sum0: uint32) returns (folded: uint16)
    ensures folded == Fold(sum0)
  {
    var sum: uint32 := sum0;
    while sum / 0x1_0000 != 0
      invariant Fold(sum) == Fold(sum0)
      decreases sum
    {
      sum := sum % 0x1_0000 + sum / 0x1_0000;
    }
    folded := sum;
  }

  /** packetChecksum: parts of any length, odd and empty ones included, are
      summed as if they were one byte string. */
  method PacketChecksum(parts: seq<seq<byte>>) returns (checksum: uint16)
    ensures checksum == CodeChecksum(Concat(parts))
    ensures WordSum(Concat(parts)) < 0x1_0000_0000 ==> checksum == Rfc1071(Concat(parts))
  {
    var sum: uint32 := 0;
    var high: byte := 0;
    var odd := false;
    for p := 0 to |parts|
      invariant Accumulated(Concat(parts[..p]), sum, high, odd)
    {
      assert parts[..p + 1] == parts[..p] + [parts[p]];
      ConcatSnoc(parts[..p], parts[p]);
      sum, high, odd := AddPart(parts[p], sum, high, odd, Concat(parts[..p]));
    }
    assert parts[..|parts|] == parts;
    ghost var all := Concat(parts);
    if odd {
      AddWord(all[..|all| - 1], [high], sum, high as int * 0x100);
      assert all[..|all| - 1] + [high] == all;
      sum := Add32(sum, high as int * 0x100);
    }
    assert all[..|all|] == all;
    var folded := FoldCarries(sum);
    checksum := 0xffff - folded;
    if WordSum(all) < 0x1_0000_0000 {
      NoWrapIsRfc1071(all);
    }
  }
}
