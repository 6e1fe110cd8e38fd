/** Binary strings: int2bin and bin2int, the ripple-carry enumeration binary_range, and Gray codes. */
module Bits {
  import opened Arithmetic
  import opened Sequences

  datatype Result = Binary(value: string) | ValueError

  function Pow2(n: nat): (p: nat)
    ensures p >= 1
  {
    if n == 0 then 1 else 2 * Pow2(n - 1)
  }

  function BitChar(b: nat): char {
    if b % 2 == 0 then '0' else '1'
  }

  /** The n lowest bits of i, most significant first. */
  function Bin(i: nat, n: nat): (s: string)
    ensures |s| == n
  {
    if n == 0 then "" else Bin(i / 2, n - 1) + [BitChar(i)]
  }

  /** i shifted right by b bits. */
  function Shift(i: nat, b: nat): nat {
    if b == 0 then i else Shift(i / 2, b - 1)
  }

  predicate IsBinary(s: string) {
    forall k :: 0 <= k < |s| ==> s[k] == '0' || s[k] == '1'
  }

  /** int(s, 2) of a string of bits. */
  function Bin2Int(s: string): nat
    requires IsBinary(s)
  {
    if s == "" then 0 else 2 * Bin2Int(s[..|s| - 1]) + (if s[|s| - 1] == '1' then 1 else 0)
  }

  // ---------------------------------------------------------------- splitting and comparing

  lemma {:induction false} BinSplit(i: nat, a: nat, b: nat)
    ensures Bin(i, a + b) == Bin(Shift(i, b), a) + Bin(i, b)
  {
    if b == 0 {
      assert Bin(i, a) + "" == Bin(i, a);
    } else {
      BinSplit(i / 2, a, b - 1);
      assert Bin(Shift(i, b), a) + Bin(i / 2, b - 1) + [BitChar(i)]
          == Bin(Shift(i, b), a) + (Bin(i / 2, b - 1) + [BitChar(i)]);
    }
  }

  lemma {:induction false} ShiftZero(i: nat, n: nat)
    ensures Shift(i, n) == 0 <==> i < Pow2(n)
  {
    if n > 0 {
      ShiftZero(i / 2, n - 1);
    }
  }

  lemma {:induction false} ShiftBelow(i: nat, a: nat, b: nat)
    requires i < Pow2(a + b)
    ensures Shift(i, b) < Pow2(a)
  {
    if b > 0 {
      ShiftBelow(i / 2, a, b - 1);
    }
  }

  lemma {:induction false} NoOnes(i: nat, n: nat)
    requires i < Pow2(n)
    ensures '1' in Bin(i, n) <==> i != 0
  {
    if n > 0 {
      NoOnes(i / 2, n - 1);
    }
  }

  /** bin2int inverts the n-bit notation. */
  lemma {:induction false} Bin2IntOfBin(i: nat, n: nat)
    requires i < Pow2(n)
    ensures IsBinary(Bin(i, n)) && Bin2Int(Bin(i, n)) == i
  {
    if n > 0 {
      Bin2IntOfBin(i / 2, n - 1);
      assert Bin(i, n)[..n - 1] == Bin(i / 2, n - 1);
    }
  }

  // ---------------------------------------------------------------- int2bin

  /** The digits hex() gives, as numbers. */
  function Hex(i: nat): (digits: seq<nat>)
    ensures digits != [] && forall k :: 0 <= k < |digits| ==> digits[k] < 16
  {
    if i < 16 then [i] else Hex(i / 16) + [i % 16]
  }

  /** The table from a hexadecimal digit to four bits. */
  function Nibble(d: nat): string
    requires d < 16
  {
    ["0000", "0001", "0010", "0011", "0100", "0101", "0110", "0111",
     "1000", "1001", "1010", "1011", "1100", "1101", "1110", "1111"][d]
  }

  function Expand(digits: seq<nat>): string
    requires forall k :: 0 <= k < |digits| ==> digits[k] < 16
  {
    if digits == [] then "" else Expand(digits[..|digits| - 1]) + Nibble(digits[|digits| - 1])
  }

  /** s[:-n] and s[-n:], where minus zero is zero. */
  function DropLast(s: string, n: nat): string {
    if n == 0 || n >= |s| then "" else s[..|s| - n]
  }

  function TakeLast(s: string, n: nat): string {
    if n == 0 || n >= |s| then s else s[|s| - n..]
  }

  function Zeros(n: int): string
    decreases n
  {
    if n <= 0 then "" else Zeros(n - 1) + "0"
  }

  /** Fits a string of bits into n of them. */
  function Fit(result: string, n: nat): Result {
    if '1' in DropLast(result, n) then ValueError
    else Binary(Zeros(n - |TakeLast(result, n)|) + TakeLast(result, n))
  }

  function Int2Bin(i: nat, n: nat): Result {
    Fit(Expand(Hex(i)), n)
  }

  lemma BinFour(i: nat)
    ensures Bin(i, 4) == [BitChar(i / 8), BitChar(i / 4), BitChar(i / 2), BitChar(i)]
  {
    var a, b, c := i / 2, i / 4, i / 8;
    assert a / 2 == b && b / 2 == c;
    assert Bin(c, 1) == "" + [BitChar(c)];
    assert Bin(b, 2) == Bin(c, 1) + [BitChar(b)];
    assert Bin(a, 3) == Bin(b, 2) + [BitChar(a)];
  }

  lemma NibbleBits(d: nat)
    requires d < 16
    ensures Nibble(d) == [BitChar(d / 8), BitChar(d / 4), BitChar(d / 2), BitChar(d)]
  {}

  lemma BitCharEven(q: nat, x: nat)
    ensures BitChar(2 * q + x) == BitChar(x)
  {}

  lemma Quotients(i: nat)
    ensures var q, d := i / 16, i % 16;
            i == 16 * q + d && i / 2 == 8 * q + d / 2 && i / 4 == 4 * q + d / 4 && i / 8 == 2 * q + d / 8
  {}

  /** A hexadecimal digit expands to the four lowest bits. */
  lemma NibbleIsBin(i: nat)
    ensures Nibble(i % 16) == Bin(i, 4)
  {
    var q, d := i / 16, i % 16;
    Quotients(i);
    BitCharEven(8 * q, d);
    BitCharEven(4 * q, d / 2);
    BitCharEven(2 * q, d / 4);
    BitCharEven(q, d / 8);
    BinFour(i);
    NibbleBits(d);
  }

  lemma FourMore(i: nat, n: nat)
    ensures Shift(i, 4) == i / 16 && Pow2(n + 4) == 16 * Pow2(n)
  {
    assert Shift(i, 4) == Shift(i / 2, 3);
    assert Shift(i / 2, 3) == Shift(i / 2 / 2, 2);
    assert Shift(i / 2 / 2, 2) == i / 2 / 2 / 2 / 2;
    assert Pow2(n + 4) == 2 * Pow2(n + 3);
    assert Pow2(n + 3) == 2 * Pow2(n + 2);
  }

  lemma ExpandLast(digits: seq<nat>, d: nat)
    requires d < 16 && forall k :: 0 <= k < |digits| ==> digits[k] < 16
    ensures Expand(digits + [d]) == Expand(digits) + Nibble(d)
  {
    assert (digits + [d])[..|digits|] == digits;
  }

  lemma ExpandStep(digits: seq<nat>, i: nat, n: nat)
    requires forall k :: 0 <= k < |digits| ==> digits[k] < 16
    requires Expand(digits) == Bin(i / 16, n)
    ensures Expand(digits + [i % 16]) == Bin(i, n + 4)
  {
    NibbleIsBin(i);
    ExpandLast(digits, i % 16);
    BinSplit(i, n, 4);
    FourMore(i, n);
  }

  lemma OneDigit(i: nat)
    requires i < 16
    ensures [] + [i % 16] == [i] && Expand([]) == Bin(i / 16, 0)
  {}

  lemma {:induction false} ExpandHex(i: nat)
    ensures Expand(Hex(i)) == Bin(i, 4 * |Hex(i)|)
  {
    if i < 16 {
      ExpandStep([], i, 0);
      OneDigit(i);
    } else {
      ExpandHex(i / 16);
      ExpandStep(Hex(i / 16), i, 4 * |Hex(i / 16)|);
    }
  }

  lemma {:induction false} HexWideEnough(i: nat)
    ensures i < Pow2(4 * |Hex(i)|)
  {
    if i < 16 {
      FourMore(i, 0);
    } else {
      HexWideEnough(i / 16);
      FourMore(i, 4 * |Hex(i / 16)|);
    }
  }

  lemma {:induction false} BinOfZero(n: nat)
    ensures Bin(0, n) == Zeros(n)
  {
    if n > 0 {
      BinOfZero(n - 1);
    }
  }

  lemma {:induction false} Pow2Monotone(m: nat, n: nat)
    requires m <= n
    ensures Pow2(m) <= Pow2(n)
    decreases n - m
  {
    if m < n {
      Pow2Monotone(m + 1, n);
    }
  }

  /** A result with `extra` bits more than asked for: the slices separate the low bits from those that must be zero. */
  lemma Truncated(i: nat, n: nat, extra: nat)
    requires n >= 1 && extra >= 1 && i < Pow2(extra + n)
    ensures TakeLast(Bin(i, extra + n), n) == Bin(i, n)
    ensures '1' in DropLast(Bin(i, extra + n), n) <==> i >= Pow2(n)
  {
    BinSplit(i, extra, n);
    SplitAt(Bin(Shift(i, n), extra), Bin(i, n));
    ShiftBelow(i, extra, n);
    NoOnes(Shift(i, n), extra);
    ShiftZero(i, n);
  }

  lemma SplitAt(a: string, b: string)
    ensures (a + b)[..|a|] == a && (a + b)[|a|..] == b
  {}

  lemma Padded(i: nat, size: nat, missing: nat)
    requires i < Pow2(size)
    ensures Zeros(missing) + Bin(i, size) == Bin(i, missing + size)
  {
    BinSplit(i, missing, size);
    ShiftZero(i, size);
    BinOfZero(missing);
  }

  lemma FitTruncated(i: nat, n: nat, extra: nat)
    requires n >= 1 && extra >= 1 && i < Pow2(extra + n)
    ensures Fit(Bin(i, extra + n), n) == if i < Pow2(n) then Binary(Bin(i, n)) else ValueError
  {
    Truncated(i, n, extra);
    AppendNothing(Bin(i, n));
  }

  lemma FitPadded(i: nat, size: nat, missing: nat)
    requires missing + size >= 1 && i < Pow2(size)
    ensures Fit(Bin(i, size), missing + size) == Binary(Bin(i, missing + size))
    ensures i < Pow2(missing + size)
  {
    Pow2Monotone(size, missing + size);
    Padded(i, size, missing);
  }

  lemma FitNarrow(i: nat, n: nat, size: nat)
    requires 1 <= n < size && i < Pow2(size)
    ensures Fit(Bin(i, size), n) == if i < Pow2(n) then Binary(Bin(i, n)) else ValueError
  {
    FitTruncated(i, n, size - n);
  }

  lemma FitWide(i: nat, n: nat, size: nat)
    requires n >= 1 && n >= size && i < Pow2(size)
    ensures Fit(Bin(i, size), n) == Binary(Bin(i, n)) && i < Pow2(n)
  {
    var missing := n - size;
    assert missing + size == n;
    FitPadded(i, size, missing);
  }

  /** For a width of at least one bit, int2bin refuses exactly the numbers that do not fit, and otherwise gives the
      n-bit notation, which bin2int reads back. */
  lemma Int2BinExact(i: nat, n: nat)
    requires n >= 1
    ensures Int2Bin(i, n) == if i < Pow2(n) then Binary(Bin(i, n)) else ValueError
    ensures i < Pow2(n) ==> IsBinary(Int2Bin(i, n).value) && Bin2Int(Int2Bin(i, n).value) == i
  {
    ExpandHex(i);
    HexWideEnough(i);
    if n < 4 * |Hex(i)| {
      FitNarrow(i, n, 4 * |Hex(i)|);
    } else {
      FitWide(i, n, 4 * |Hex(i)|);
    }
    if i < Pow2(n) {
      Bin2IntOfBin(i, n);
    }
  }

  /** For a width of zero nothing is refused: the slices [:-0] and [-0:] are empty and whole. */
  lemma Int2BinZeroWidth(i: nat)
    ensures Int2Bin(i, 0) == Binary(Bin(i, 4 * |Hex(i)|))
    ensures IsBinary(Int2Bin(i, 0).value) && Bin2Int(Int2Bin(i, 0).value) == i
  {
    ExpandHex(i);
    HexWideEnough(i);
    Bin2IntOfBin(i, 4 * |Hex(i)|);
    AppendNothing(Bin(i, 4 * |Hex(i)|));
  }

  // ---------------------------------------------------------------- binary_range

  /** The n lowest bits of i, least significant first, as the loop keeps them. */
  function LowFirst(i: nat, n: nat): (s: string)
    ensures |s| == n
  {
    if n == 0 then "" else [BitChar(i)] + LowFirst(i / 2, n - 1)
  }

  function Reverse(s: string): (r: string)
    ensures |r| == |s|
  {
    if s == "" then "" else Reverse(s[1..]) + [s[0]]
  }

  lemma {:induction false} ReverseLowFirst(i: nat, n: nat)
    ensures Reverse(LowFirst(i, n)) == Bin(i, n)
  {
    if n > 0 {
      ReverseLowFirst(i / 2, n - 1);
      assert LowFirst(i, n)[1..] == LowFirst(i / 2, n - 1);
    }
  }

  /** Adding one to bits kept least significant first. */
  function Increment(s: string): string {
    if s == "" then "" else if s[0] == '0' then ['1'] + s[1..] else ['0'] + Increment(s[1..])
  }

  predicate AllOnes(s: string) {
    forall j :: 0 <= j < |s| ==> s[j] == '1'
  }

  lemma {:induction false} IncrementAdds(i: nat, n: nat)
    requires i < Pow2(n)
    ensures IsBinary(LowFirst(i, n))
    ensures AllOnes(LowFirst(i, n)) <==> i + 1 == Pow2(n)
    ensures i + 1 < Pow2(n) ==> Increment(LowFirst(i, n)) == LowFirst(i + 1, n)
  {
    if n > 0 {
      var t := LowFirst(i, n);
      IncrementAdds(i / 2, n - 1);
      assert t[1..] == LowFirst(i / 2, n - 1);
      assert AllOnes(t) <==> t[0] == '1' && AllOnes(t[1..]) by {
        assert forall j :: 1 <= j < |t| ==> t[j] == t[1..][j - 1];
        assert forall j :: 0 <= j < |t| - 1 ==> t[1..][j] == t[j + 1];
      }
      if i % 2 == 0 {
        assert (i + 1) / 2 == i / 2;
      } else {
        assert (i + 1) / 2 == i / 2 + 1;
      }
    }
  }

  /** What the ripple has done after its first k positions, all of which held a one. */
  ghost predicate Rippled(s: string, before: string, k: nat) {
    && |s| == |before| && k <= |s|
    && (forall j :: 0 <= j < k ==> before[j] == '1' && s[j] == '0')
    && (forall j :: k <= j < |s| ==> s[j] == before[j])
  }

  lemma {:induction false} RippleStops(s: string, before: string, k: nat)
    requires k < |before| && Rippled(s, before, k) && before[k] == '0'
    ensures s[k := '1'] == Increment(before)
    decreases k
  {
    if k > 0 {
      assert forall j :: 0 <= j < |s| - 1 ==> s[1..][j] == s[j + 1] && before[1..][j] == before[j + 1];
      RippleStops(s[1..], before[1..], k - 1);
      assert s[k := '1'] == ['0'] + s[1..][k - 1 := '1'];
    } else {
      assert s[0 := '1'] == ['1'] + before[1..];
    }
  }

  lemma RippleGoes(s: string, before: string, k: nat)
    requires k < |before| && Rippled(s, before, k) && s[k] == '1'
    ensures Rippled(s[k := '0'], before, k + 1) && before[k] == '1'
  {}

  /** The inner loop: adds one to the bits in place; carry is the last toggle. */
  method Ripple(v: array<char>, ghost i: nat) returns (carry: bool)
    requires i < Pow2(v.Length) && v[..] == LowFirst(i, v.Length)
    modifies v
    ensures carry <==> i + 1 == Pow2(v.Length)
    ensures !carry ==> i + 1 < Pow2(v.Length) && v[..] == LowFirst(i + 1, v.Length)
  {
    var bits := v.Length;
    ghost var before := v[..];
    IncrementAdds(i, bits);
    var toggle := new int[bits + 1](j => if j == 0 then 1 else 0);
    var k := 0;
    while k < bits && toggle[k] == 1
      invariant k <= bits && (toggle[k] == 0 || toggle[k] == 1) && forall j :: k < j <= bits ==> toggle[j] == 0
      invariant toggle[k] == 1 ==> Rippled(v[..], before, k)
      invariant toggle[k] == 0 ==> v[..] == Increment(before) && !AllOnes(before)
    {
      ghost var now := v[..];
      if v[k] == '0' {
        RippleStops(now, before, k);
        v[k] := '1';
        toggle[k + 1] := 0;
        assert v[..] == now[k := '1'];
      } else {
        RippleGoes(now, before, k);
        v[k] := '0';
        toggle[k + 1] := 1;
        assert v[..] == now[k := '0'];
      }
      k := k + 1;
    }
    carry := toggle[bits] == 1;
  }

  /** binary_range: for at least one bit, all the numbers of that width in order. */
  method BinaryRange(bits: nat) returns (l: seq<string>)
    ensures bits == 0 ==> l == []
    ensures bits > 0 ==> |l| == Pow2(bits) && forall k :: 0 <= k < |l| ==> Int2Bin(k, bits) == Binary(l[k])
  {
    l := [];
    var v := new char[bits](_ => '0');
    var toggled := bits == 0;
    LowFirstZero(bits);
    assert v[..] == LowFirst(0, bits) && |l| == 0;
    while !toggled
      invariant !toggled ==> bits > 0 && |l| < Pow2(bits) && v[..] == LowFirst(|l|, bits)
      invariant toggled ==> |l| == if bits == 0 then 0 else Pow2(bits)
      invariant forall k :: 0 <= k < |l| ==> l[k] == Bin(k, bits) && k < Pow2(bits)
      decreases Pow2(bits) - |l|, !toggled
    {
      ReverseLowFirst(|l|, bits);
      l := l + [Reverse(v[..])];
      toggled := Ripple(v, |l| - 1);
    }
    forall k | 0 <= k < |l| && bits > 0
      ensures Int2Bin(k, bits) == Binary(l[k])
    {
      Int2BinExact(k, bits);
    }
  }

  lemma {:induction false} LowFirstZero(n: nat)
    ensures forall j :: 0 <= j < n ==> LowFirst(0, n)[j] == '0'
  {
    if n > 0 {
      LowFirstZero(n - 1);
    }
  }

  // ---------------------------------------------------------------- Gray codes

  /** The exclusive or of two numbers. */
  function Xor(a: nat, b: nat): nat {
    if a == 0 && b == 0 then 0 else 2 * Xor(a / 2, b / 2) + (a + b) % 2
  }

  function GrayEncode(i: nat): nat {
    Xor(i, i / 2)
  }

  function Bit(i: nat, k: nat): nat {
    Shift(i, k) % 2
  }

  /** The two numbers differ in the k-th bit and in no other. */
  ghost predicate DifferOnlyIn(a: nat, b: nat, k: nat) {
    forall j :: Bit(a, j) != Bit(b, j) <==> j == k
  }

  lemma GrayStep(i: nat)
    ensures GrayEncode(i) == 2 * GrayEncode(i / 2) + (i + i / 2) % 2
    ensures GrayEncode(i) / 2 == GrayEncode(i / 2) && GrayEncode(i) % 2 == (i + i / 2) % 2
  {}

  lemma DifferHigher(a: nat, b: nat, k: nat)
    requires a % 2 == b % 2 && DifferOnlyIn(a / 2, b / 2, k)
    ensures DifferOnlyIn(a, b, k + 1)
  {
    forall j: nat
      ensures Bit(a, j) != Bit(b, j) <==> j == k + 1
    {
      if j > 0 {
        assert Bit(a, j) == Bit(a / 2, j - 1) && Bit(b, j) == Bit(b / 2, j - 1);
      }
    }
  }

  lemma DifferLowest(a: nat, b: nat)
    requires a % 2 != b % 2 && a / 2 == b / 2
    ensures DifferOnlyIn(a, b, 0)
  {
    forall j: nat
      ensures Bit(a, j) != Bit(b, j) <==> j == 0
    {
      if j > 0 {
        assert Bit(a, j) == Bit(a / 2, j - 1) && Bit(b, j) == Bit(b / 2, j - 1);
      }
    }
  }

  lemma HalvesAndParities(m: nat)
    ensures 2 * m / 2 == m && (2 * m + 1) / 2 == m && (2 * m + 2) / 2 == m + 1
    ensures (2 * m + m) % 2 != (2 * m + 1 + m) % 2
    ensures (2 * m + 1 + m) % 2 == (2 * m + 2 + (m + 1)) % 2
  {}

  lemma GrayNextEven(m: nat)
    ensures GrayEncode(2 * m) % 2 != GrayEncode(2 * m + 1) % 2
    ensures GrayEncode(2 * m) / 2 == GrayEncode(m) == GrayEncode(2 * m + 1) / 2
  {
    HalvesAndParities(m);
    GrayStep(2 * m);
    GrayStep(2 * m + 1);
  }

  lemma GrayNextOdd(m: nat)
    ensures GrayEncode(2 * m + 1) % 2 == GrayEncode(2 * m + 2) % 2
    ensures GrayEncode(2 * m + 1) / 2 == GrayEncode(m) && GrayEncode(2 * m + 2) / 2 == GrayEncode(m + 1)
  {
    HalvesAndParities(m);
    GrayStep(2 * m + 1);
    GrayStep(2 * m + 2);
  }

  /** Consecutive codes differ in exactly one bit. */
  lemma {:induction false} GrayAdjacent(i: nat) returns (k: nat)
    ensures DifferOnlyIn(GrayEncode(i), GrayEncode(i + 1), k)
    decreases i
  {
    var m := i / 2;
    if i % 2 == 0 {
      GrayNextEven(m);
      DifferLowest(GrayEncode(i), GrayEncode(i + 1));
      k := 0;
    } else {
      GrayNextOdd(m);
      var j := GrayAdjacent(m);
      DifferHigher(GrayEncode(i), GrayEncode(i + 1), j);
      k := j + 1;
    }
  }

  /** The same parity sum above the same half is the same number. */
  lemma SameLowest(i: nat, j: nat)
    requires i / 2 == j / 2 && (i + i / 2) % 2 == (j + j / 2) % 2
    ensures i == j
  {}

  lemma LowestBit(g: nat, h: nat) returns (i: nat)
    ensures i / 2 == h && (i + h) % 2 == g % 2
  {
    i := 2 * h + (g + h) % 2;
  }

  lemma Halves(a: nat, b: nat)
    requires a / 2 == b / 2 && a % 2 == b % 2
    ensures a == b
  {}

  lemma HalfBelow(a: nat, p: nat)
    ensures a < 2 * p <==> a / 2 < p
  {}

  lemma {:induction false} GrayInjective(i: nat, j: nat)
    requires GrayEncode(i) == GrayEncode(j)
    ensures i == j
    decreases i + j
  {
    if i + j > 0 {
      GrayStep(i);
      GrayStep(j);
      GrayInjective(i / 2, j / 2);
      SameLowest(i, j);
    }
  }

  lemma {:induction false} GrayPreimage(g: nat) returns (i: nat)
    ensures GrayEncode(i) == g
    decreases g
  {
    if g == 0 {
      i := 0;
    } else {
      var h := GrayPreimage(g / 2);
      i := LowestBit(g, h);
      GrayStep(i);
      Halves(GrayEncode(i), g);
    }
  }

  lemma {:induction false} GrayInRange(i: nat, n: nat)
    ensures GrayEncode(i) < Pow2(n) <==> i < Pow2(n)
  {
    if n == 0 {
      if GrayEncode(i) == 0 {
        GrayInjective(i, 0);
      }
    } else {
      GrayStep(i);
      GrayInRange(i / 2, n - 1);
      HalfBelow(i, Pow2(n - 1));
      HalfBelow(GrayEncode(i), Pow2(n - 1));
    }
  }

  /** The codes of the numbers below 2^n are the numbers below 2^n, each once. */
  lemma GrayBijection(n: nat, g: nat) returns (i: nat)
    requires g < Pow2(n)
    ensures i < Pow2(n) && GrayEncode(i) == g
    ensures forall j: nat :: GrayEncode(j) == g ==> j == i
  {
    i := GrayPreimage(g);
    GrayInRange(i, n);
    forall j: nat | GrayEncode(j) == g
      ensures j == i
    {
      GrayInjective(j, i);
    }
  }

  // ---------------------------------------------------------------- bit by bit

  lemma {:induction false} ShiftDivides(i: nat, b: nat)
    ensures Shift(i, b) == i / Pow2(b)
  {
    if b > 0 {
      var p, h := Pow2(b - 1), i / 2;
      ShiftDivides(h, b - 1);
      HalfThenDivide(i, p);
    }
  }

  lemma HalfThenDivide(i: nat, p: nat)
    requires p > 0
    ensures i / 2 / p == i / (2 * p)
  {
    var q, r := i / 2 / p, i / 2 % p;
    Double(p, q, r);
    Division(i, 2 * p, q, 2 * r + i % 2);
  }

  lemma Double(p: nat, q: nat, r: nat)
    ensures 2 * (p * q + r) == 2 * p * q + 2 * r
  {}

  lemma {:induction false} ShiftAgain(i: nat, b: nat)
    ensures Shift(i, b + 1) == Shift(i, b) / 2 == Shift(i / 2, b)
    decreases b
  {
    if b > 0 {
      ShiftAgain(i / 2, b - 1);
    }
  }

  /** The k-th character from the right is the k-th binary digit of the number. */
  lemma {:induction false} BinAt(i: nat, n: nat, k: nat)
    requires k < n
    ensures Bin(i, n)[n - 1 - k] == if i / Pow2(k) % 2 == 1 then '1' else '0'
  {
    ShiftDivides(i, k);
    if k > 0 {
      BinAt(i / 2, n - 1, k - 1);
      ShiftDivides(i / 2, k - 1);
    }
  }

  lemma BitUp(i: nat, k: nat)
    ensures Bit(i, 0) == i % 2 && Bit(i, k + 1) == Bit(i / 2, k)
  {}

  lemma ParitySum(a: nat, b: nat)
    ensures (a + b) % 2 == (a % 2 + b % 2) % 2
  {}

  /** Each bit of a code is the exclusive or of the number's bit there and the one above it. */
  lemma {:induction false} GrayBit(i: nat, k: nat)
    ensures Bit(GrayEncode(i), k) == (Bit(i, k) + Bit(i, k + 1)) % 2
  {
    GrayStep(i);
    BitUp(i, k);
    if k > 0 {
      GrayBit(i / 2, k - 1);
      BitUp(i, k - 1);
      BitUp(GrayEncode(i), k - 1);
    } else {
      BitUp(i / 2, 0);
      BitUp(GrayEncode(i), 0);
      ParitySum(i, i / 2);
    }
  }

  lemma BitIsDigit(i: nat, k: nat)
    ensures Bit(i, k) == i / Pow2(k) % 2
  {
    ShiftDivides(i, k);
  }
}
