/** The internet checksum: 16-bit words added up in 32 bits and folded at the
    end, against ones' complement addition one word at a time (RFC 1071). */
module Checksum {
  import opened Division

  const M := 65535

  type Byte = x: int | 0 <= x < 256

  /** Word `i`, most significant byte first; a last odd byte is followed by zero. */
  function WordAt(data: seq<Byte>, i: nat): nat
    requires 2 * i < |data|
  {
    (data[2 * i] as int) * 256 + if 2 * i + 1 < |data| then data[2 * i + 1] else 0
  }

  function Words(data: seq<Byte>): nat { (|data| + 1) / 2 }

  /** The plain sum of the first `n` words. */
  function Sum(data: seq<Byte>, n: nat): (s: nat)
    requires n <= Words(data)
    ensures s <= n * M
  {
    if n == 0 then 0 else Sum(data, n - 1) + WordAt(data, n - 1)
  }

  /** Ones' complement addition: the carry goes round. */
  function Plus(a: nat, b: nat): nat { if a + b > M then a + b - M else a + b }

  function OnesSum(data: seq<Byte>, n: nat, start: nat): nat
    requires n <= Words(data)
  {
    if n == 0 then start else Plus(OnesSum(data, n - 1, start), WordAt(data, n - 1))
  }

  /** What folding leaves of a sum: its residue, where only zero itself gives zero. */
  function Folded(s: nat): nat { if s == 0 then 0 else (s - 1) % M + 1 }

  lemma FoldedRange(s: nat)
    ensures Folded(s) <= M && (Folded(s) == 0 <==> s == 0) && (s <= M ==> Folded(s) == s)
  {
  }

  /** The residue is unchanged by taking whole multiples away, down to a positive rest. */
  lemma FoldedLess(s: nat, k: nat)
    requires s > k * M
    ensures s - k * M > 0 && Folded(s - k * M) == Folded(s)
  {
    var q, r := (s - 1) / M, (s - 1) % M;
    assert s - 1 - k * M == (q - k) * M + r;
    RemainderOf(s - 1 - k * M, q - k, M, r);
  }

  lemma FoldedPlus(s: nat, w: nat)
    requires w <= M
    ensures Folded(s + w) == Plus(Folded(s), w)
  {
    if s > 0 {
      var q, r := (s - 1) / M, (s - 1) % M;
      if r + 1 + w > M {
        RemainderOf(s + w - 1, q + 1, M, r + w - M);
      } else {
        RemainderOf(s + w - 1, q, M, r + w);
      }
    } else {
      FoldedRange(w);
    }
  }

  /** Folding the plain sum is adding with the carry going round at every word. */
  lemma {:induction false} DeferredCarry(data: seq<Byte>, n: nat, start: nat)
    requires n <= Words(data)
    ensures Folded(start + Sum(data, n)) == OnesSum(data, n, Folded(start))
  {
    if n > 0 {
      DeferredCarry(data, n - 1, start);
      FoldedPlus(start + Sum(data, n - 1), WordAt(data, n - 1));
    }
  }

  /** Folds the carries of a sum back in until none is left. */
  method Fold(sum: nat) returns (r: nat)
    ensures r == Folded(sum)
  {
    r := sum;
    while r / 0x1_0000 != 0
      invariant Folded(r) == Folded(sum)
      decreases r
    {
      FoldedLess(r, r / 0x1_0000);
      r := r % 0x1_0000 + r / 0x1_0000;
    }
    FoldedRange(r);
  }

  /** The checksum of the data: the complement of its ones' complement sum. */
  method ComputeChecksum(data: seq<Byte>) returns (checksum: nat)
    requires |data| <= M
    ensures checksum == M - OnesSum(data, Words(data), 0) <= M
  {
    var sum := AddWords(data, 0);
    DeferredCarry(data, Words(data), 0);
    var folded := Fold(sum);
    FoldedRange(sum);
    checksum := M - folded;
  }

  /** Adds the words up; the sum stays below 2^32. */
  method AddWords(data: seq<Byte>, start: nat) returns (sum: nat)
    requires |data| <= M && start <= 6 * M
    ensures sum == start + Sum(data, Words(data)) < 0x1_0000_0000
  {
    sum := start;
    var index := 0;
    while index + 1 < |data|
      invariant 0 <= index <= |data| && index % 2 == 0 && sum == start + Sum(data, index / 2)
    {
      sum := sum + ((data[index] as int) * 256 + data[index + 1]);
      index := index + 2;
    }
    if |data| % 2 != 0 {
      sum := sum + (data[|data| - 1] as int) * 256;
    }
  }

  // ----- the checksum in its place

  /** The value is written, most significant byte first, over word `k`. */
  function Filled(data: seq<Byte>, k: nat, value: nat): seq<Byte>
    requires 2 * k + 1 < |data| && value <= M
  {
    data[2 * k := value / 256][2 * k + 1 := value % 256]
  }

  lemma {:induction false} FilledSum(data: seq<Byte>, k: nat, value: nat, n: nat)
    requires 2 * k + 1 < |data| && value <= M && data[2 * k] == 0 == data[2 * k + 1] && n <= Words(data)
    ensures Sum(Filled(data, k, value), n) == Sum(data, n) + if k < n then value else 0
  {
    if n > 0 {
      FilledSum(data, k, value, n - 1);
      if n - 1 == k {
        assert WordAt(Filled(data, k, value), k) == value && WordAt(data, k) == 0;
      } else {
        assert WordAt(Filled(data, k, value), n - 1) == WordAt(data, n - 1);
      }
    }
  }

  /** A header with its checksum in the field that was zero adds up to all ones, which is how a receiver
      verifies it. */
  lemma ChecksumVerifies(data: seq<Byte>, k: nat)
    requires 2 * k + 1 < |data|
    requires data[2 * k] == 0 == data[2 * k + 1]
    ensures var c := M - OnesSum(data, Words(data), 0);
            0 <= c <= M && OnesSum(Filled(data, k, c), Words(data), 0) == M
  {
    Verifies(data, k, 0, M - OnesSum(data, Words(data), 0));
  }

  lemma Verifies(data: seq<Byte>, k: nat, start: nat, c: int)
    requires 2 * k + 1 < |data| && data[2 * k] == 0 == data[2 * k + 1]
    requires c == M - OnesSum(data, Words(data),
                              Folded(start)) || (c == M && OnesSum(data, Words(data), Folded(start)) == M)
    ensures 0 <= c <= M && OnesSum(Filled(data, k, c), Words(data), Folded(start)) == M
  {
    hide OnesSum, Sum, Filled, Folded, Words;
    var n := Words(data);
    var s := start + Sum(data, n);
    DeferredCarry(data, n, start);
    FoldedRange(s);
    assert 0 <= c <= M;
    InWords(data, k);
    FilledSum(data, k, c, n);
    SameLength(data, k, c);
    DeferredCarry(Filled(data, k, c), n, start);
    FoldedPlus(s, c);
  }

  lemma InWords(data: seq<Byte>, k: nat)
    requires 2 * k + 1 < |data|
    ensures k < Words(data)
  {
  }

  lemma SameLength(data: seq<Byte>, k: nat, value: nat)
    requires 2 * k + 1 < |data| && value <= M
    ensures Words(Filled(data, k, value)) == Words(data)
  {
  }

  // ----- the transport form

  /** Addresses, protocol and length, in front of what the transport checksum covers. */
  function PseudoHeader(source: nat, destination: nat, protocol: Byte, length: nat): seq<Byte> {
    Quad(source) + Quad(destination) + [0, protocol, length / 256 % 256, length % 256]
  }

  function Quad(x: nat): seq<Byte> { [x / 0x100_0000 % 256, x / 0x1_0000 % 256, x / 256 % 256, x % 256] }

  /** The checksum of data behind its pseudo header, where zero is sent as all ones. */
  method ComputeTransportChecksum(source: nat, destination: nat, protocol: Byte,
                                  data: seq<Byte>) returns (checksum: nat)
    requires |data| <= M
    ensures checksum == TransportChecksum(PseudoHeader(source, destination, protocol, |data|), data)
  {
    var header := PseudoHeader(source, destination, protocol, |data|);
    var sum := AddWords(header, 0);
    assert sum == Sum(header, 6) <= 6 * M;
    ghost var start := sum;
    sum := AddWords(data, sum);
    DeferredCarry(header, 6, 0);
    DeferredCarry(data, Words(data), start);
    FoldedRange(sum);
    var folded := Fold(sum);
    checksum := M - folded;
    if checksum == 0 {
      checksum := M;
    }
  }

  function TransportChecksum(header: seq<Byte>, data: seq<Byte>): int {
    var sum := OnesSum(data, Words(data), OnesSum(header, Words(header), 0));
    if sum == M then M else M - sum
  }

  /** With the transport checksum in its zeroed field, pseudo header and data add up to all ones; the
      value sent is never zero. */
  lemma TransportVerifies(header: seq<Byte>, data: seq<Byte>, k: nat)
    requires 2 * k + 1 < |data| && data[2 * k] == 0 == data[2 * k + 1]
    ensures var c := TransportChecksum(header, data);
            0 < c <= M && OnesSum(Filled(data, k, c), Words(data), OnesSum(header, Words(header), 0)) == M
  {
    DeferredCarry(header, Words(header), 0);
    var start := Sum(header, Words(header));
    DeferredCarry(data, Words(data), start);
    FoldedRange(start + Sum(data, Words(data)));
    FoldedRange(0);
    Verifies(data, k, start, TransportChecksum(header, data));
  }
}
