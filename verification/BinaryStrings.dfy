/** int2bin, bin2int and binary_range of bindings/python/rad_util.py. */
module BinaryStrings {

  function Pow2(n: nat): (p: nat)
    ensures p > 0
  {
    if n == 0 then 1 else 2 * Pow2(n - 1)
  }

  ghost predicate IsBinary(s: string) {
    forall i :: 0 <= i < |s| ==> s[i] == '0' || s[i] == '1'
  }

  function Bit(b: nat): char {
    if b == 0 then '0' else '1'
  }

  // ----- the strings, digit by digit

  /** int(s, 2) */
  function Bin2Int(s: string): nat {
    if s == "" then 0 else 2 * Bin2Int(s[..|s| - 1]) + (if s[|s| - 1] == '1' then 1 else 0)
  }

  /** The n binary digits of i, the most significant first; higher digits are lost. */
  function BitString(i: nat, n: nat): (s: string)
    ensures |s| == n
  {
    if n == 0 then "" else BitString(i / 2, n - 1) + [Bit(i % 2)]
  }

  lemma {:induction false} BitStringValue(i: nat, n: nat)
    ensures IsBinary(BitString(i, n))
    ensures i < Pow2(n) ==> Bin2Int(BitString(i, n)) == i
  {
    hide Bin2Int;
    if n > 0 {
      BitStringValue(i / 2, n - 1);
      OneMoreDigit(BitString(i / 2, n - 1), i % 2);
    } else {
      EmptyIsZero();
    }
  }

  lemma OneMoreDigit(s: string, b: nat)
    requires b < 2
    ensures Bin2Int(s + [Bit(b)]) == 2 * Bin2Int(s) + b
  {
    assert (s + [Bit(b)])[..|s|] == s;
  }

  lemma EmptyIsZero()
    ensures Bin2Int("") == 0
  {
  }

  /** A binary string is determined by its length and its value. */
  lemma {:induction false} BinaryIsBitString(s: string)
    requires IsBinary(s)
    ensures Bin2Int(s) < Pow2(|s|) && s == BitString(Bin2Int(s), |s|)
  {
    if s != "" {
      BinaryIsBitString(s[..|s| - 1]);
      assert s == s[..|s| - 1] + [s[|s| - 1]];
    }
  }

  lemma {:induction false} ValueOfConcat(a: string, b: string)
    ensures Bin2Int(a + b) == Bin2Int(a) * Pow2(|b|) + Bin2Int(b)
  {
    if b == "" {
      assert a + b == a;
    } else {
      var c := b[..|b| - 1];
      ValueOfConcat(a, c);
      assert (a + b)[..|a + b| - 1] == a + c;
      assert Bin2Int(a) * Pow2(|b|) == 2 * (Bin2Int(a) * Pow2(|c|));
    }
  }

  lemma {:induction false} ZeroIffNoOne(s: string)
    requires IsBinary(s)
    ensures Bin2Int(s) == 0 <==> '1' !in s
  {
    if s != "" {
      ZeroIffNoOne(s[..|s| - 1]);
      assert s == s[..|s| - 1] + [s[|s| - 1]];
    }
  }

  // ----- int2bin

  /** hex(i)[2:], the digits as numbers */
  function HexDigits(i: nat): (d: seq<nat>)
    ensures d != [] && forall k :: 0 <= k < |d| ==> d[k] < 16
  {
    if i < 16 then [i] else HexDigits(i / 16) + [i % 16]
  }

  /** The table from a hexadecimal digit to four binary ones. */
  function Hex2Bin(d: nat): (s: string)
    requires d < 16
    ensures |s| == 4
  {
    ["0000", "0001", "0010", "0011", "0100", "0101", "0110", "0111",
     "1000", "1001", "1010", "1011", "1100", "1101", "1110", "1111"][d]
  }

  function Mapped(digits: seq<nat>): string
    requires forall k :: 0 <= k < |digits| ==> digits[k] < 16
  {
    if digits == [] then "" else Mapped(digits[..|digits| - 1]) + Hex2Bin(digits[|digits| - 1])
  }

  function Zeros(n: int): (s: string)
    ensures |s| == if n < 0 then 0 else n
    ensures forall k :: 0 <= k < |s| ==> s[k] == '0'
  {
    if n <= 0 then "" else Zeros(n - 1) + "0"
  }

  /** Where a Python slice of a string with that length is cut at k; a negative k counts from the end. */
  function CutAt(length: nat, k: int): (cut: nat)
    ensures cut <= length
  {
    if k >= 0 then if k < length then k else length
    else if length + k >= 0 then length + k else 0
  }

  /** A string of bits, or what is raised: KeyError because hex puts a sign before "0x", ValueError because of a lost 1. */
  datatype Conversion = Bits(bits: string) | KeyError | ValueError

  function Int2Bin(i: int, n: int): Conversion {
    if i < 0 then KeyError
    else
      var result := Mapped(HexDigits(i));
      var cut := CutAt(|result|, -n);
      if '1' in result[..cut] then ValueError
      else
        var kept := result[cut..];
        Bits(Zeros(n - |kept|) + kept)
  }

  /** How many bits are printed: n if it is positive; else all of them, without the first -n. */
  function Width(i: nat, n: int): nat {
    if n > 0 then n else if 4 * |HexDigits(i)| + n > 0 then 4 * |HexDigits(i)| + n else 0
  }

  lemma Hex2BinValue(d: nat)
    requires d < 16
    ensures IsBinary(Hex2Bin(d)) && Bin2Int(Hex2Bin(d)) == d
  {
    var s := Hex2Bin(d);
    assert s[..3][..2] == s[..2] && s[..2][..1] == s[..1] && s[..1][..0] == "";
    assert s[..3][2] == s[2] && s[..2][1] == s[1] && s[..1][0] == s[0];
    assert Bin2Int(s[..1]) == if s[0] == '1' then 1 else 0;
    assert Bin2Int(s[..2]) == 2 * Bin2Int(s[..1]) + if s[1] == '1' then 1 else 0;
    assert Bin2Int(s[..3]) == 2 * Bin2Int(s[..2]) + if s[2] == '1' then 1 else 0;
  }

  lemma {:induction false} MappedValue(i: nat)
    ensures IsBinary(Mapped(HexDigits(i))) && Bin2Int(Mapped(HexDigits(i))) == i
  {
    if i < 16 {
      Hex2BinValue(i);
      assert [i][..0] == [];
      assert Mapped([i]) == Mapped([]) + Hex2Bin(i);
      assert "" + Hex2Bin(i) == Hex2Bin(i);
    } else {
      MappedValue(i / 16);
      Hex2BinValue(i % 16);
      assert HexDigits(i)[..|HexDigits(i)| - 1] == HexDigits(i / 16);
      ValueOfConcat(Mapped(HexDigits(i / 16)), Hex2Bin(i % 16));
      assert Pow2(4) == 16;
    }
  }

  lemma {:induction false} MappedSize(digits: seq<nat>)
    requires forall k :: 0 <= k < |digits| ==> digits[k] < 16
    ensures |Mapped(digits)| == 4 * |digits|
  {
    if digits != [] {
      MappedSize(digits[..|digits| - 1]);
    }
  }

  lemma CutInTwo(i: nat, n: int)
    ensures var result := Mapped(HexDigits(i));
            var cut := CutAt(|result|, -n);
            && Width(i, n) - |result[cut..]| == (if n > |result[cut..]| then n - |result[cut..]| else 0)
            && (cut > 0 ==> |result[cut..]| == Width(i, n))
  {
    MappedSize(HexDigits(i));
  }

  lemma Padding(kept: string, n: int, width: nat)
    requires IsBinary(kept) && width - |kept| == (if n > |kept| then n - |kept| else 0)
    ensures Bin2Int(kept) < Pow2(width) && Zeros(n - |kept|) + kept == BitString(Bin2Int(kept), width)
  {
    hide Bin2Int, BitString, Zeros, Pow2;
    var zeros := Zeros(n - |kept|);
    ValueOfConcat(zeros, kept);
    ZeroIffNoOne(zeros);
    BinaryIsBitString(zeros + kept);
  }

  /** For any integers: a negative i is a KeyError; otherwise the conversion fails exactly when i does not fit the width,
      and gives the digits of i in that width, which bin2int turns back into i. */
  lemma Int2BinCorrect(i: int, n: int)
    ensures Int2Bin(i, n) == KeyError <==> i < 0
    ensures i >= 0 ==> (Int2Bin(i, n) == ValueError <==> i >= Pow2(Width(i, n)))
    ensures 0 <= i && i < Pow2(Width(i, n)) ==>
              Int2Bin(i, n) == Bits(BitString(i, Width(i, n))) && Bin2Int(Int2Bin(i, n).bits) == i
  {
    hide Bin2Int, BitString, Zeros, Pow2, Mapped, HexDigits, CutAt, Width;
    if i >= 0 {
      var result, width := Mapped(HexDigits(i)), Width(i, n);
      var cut := CutAt(|result|, -n);
      var lost, kept := result[..cut], result[cut..];
      MappedValue(i);
      CutInTwo(i, n);
      assert result == lost + kept;
      ValueOfConcat(lost, kept);
      ZeroIffNoOne(lost);
      if Bin2Int(lost) == 0 {
        Padding(kept, n, width);
        BitStringValue(i, width);
      } else {
        EmptyIsZero();
      }
    }
  }

  /** With a positive n the width is n; with none, nothing is lost. */
  lemma Int2BinWidths(i: nat, n: int)
    ensures n > 0 ==> (Int2Bin(i, n) == ValueError <==> i >= Pow2(n))
    ensures n > 0 && i < Pow2(n) ==> Int2Bin(i, n) == Bits(BitString(i, n))
    ensures n == 0 ==> Int2Bin(i, n) == Bits(Mapped(HexDigits(i)))
  {
    hide Int2Bin, BitString, Mapped, HexDigits, Pow2;
    Int2BinCorrect(i, n);
    if n == 0 {
      Unpadded(i);
    }
  }

  lemma Unpadded(i: nat)
    ensures Int2Bin(i, 0) == Bits(Mapped(HexDigits(i)))
  {
    hide Mapped, HexDigits;
    var result := Mapped(HexDigits(i));
    assert result[..0] == "" && result[0..] == result;
  }

  // ----- binary_range

  /** The value of digits with the least significant first. */
  ghost function LowFirst(v: seq<char>): nat {
    if v == [] then 0 else LowFirst(v[..|v| - 1]) + (if v[|v| - 1] == '1' then Pow2(|v| - 1) else 0)
  }

  function Reverse(s: seq<char>): (r: seq<char>)
    ensures |r| == |s|
  {
    if s == [] then [] else [s[|s| - 1]] + Reverse(s[..|s| - 1])
  }

  lemma {:induction false} ReversedValue(v: seq<char>)
    requires IsBinary(v)
    ensures IsBinary(Reverse(v)) && Bin2Int(Reverse(v)) == LowFirst(v)
  {
    if v != [] {
      var last := |v| - 1;
      ReversedValue(v[..last]);
      ValueOfConcat([v[last]], Reverse(v[..last]));
      assert [v[last]][..0] == "";
      assert Bin2Int([v[last]]) == if v[last] == '1' then 1 else 0;
    }
  }

  lemma {:induction false} LowFirstUpdate(v: seq<char>, i: nat, c: char)
    requires IsBinary(v) && i < |v| && (c == '0' || c == '1')
    ensures LowFirst(v[i := c]) + (if v[i] == '1' then Pow2(i) else 0) == LowFirst(v) + (if c == '1' then Pow2(i) else 0)
  {
    var last := |v| - 1;
    if i < last {
      LowFirstUpdate(v[..last], i, c);
      assert v[i := c][..last] == v[..last][i := c];
    } else {
      assert v[i := c][..last] == v[..last];
    }
  }

  /** The ripple-carry step: one is added to the number in v, unless it was all ones, in which case the last toggle
      is set and the number is back at zero. */
  method Increment(v: array<char>, bits: nat) returns (toggle: seq<int>)
    requires v.Length == bits && IsBinary(v[..])
    modifies v
    ensures IsBinary(v[..]) && |toggle| == bits + 1
    ensures toggle[bits] == 0 || toggle[bits] == 1
    ensures LowFirst(v[..]) + toggle[bits] * Pow2(bits) == old(LowFirst(v[..])) + 1
  {
    hide LowFirst;
    toggle := [1] + seq(bits, _ => 0);
    ghost var k := LowFirst(v[..]);
    var i := 0;
    while i < bits && toggle[i] == 1
      invariant i <= bits && |toggle| == bits + 1 && IsBinary(v[..])
      invariant toggle[i] == 0 || toggle[i] == 1
      invariant forall j :: i < j <= bits ==> toggle[j] == 0
      invariant LowFirst(v[..]) + toggle[i] * Pow2(i) == k + 1
    {
      ghost var before := v[..];
      if v[i] == '0' {
        v[i] := '1';
        toggle := toggle[i + 1 := 0];
        LowFirstUpdate(before, i, '1');
        assert v[..] == before[i := '1'];
      } else {
        v[i] := '0';
        toggle := toggle[i + 1 := 1];
        LowFirstUpdate(before, i, '0');
        assert v[..] == before[i := '0'];
      }
      i := i + 1;
    }
  }

  ghost predicate CountsUp(l: seq<string>, bits: nat) {
    forall k :: 0 <= k < |l| ==> Int2Bin(k, bits) == Bits(l[k])
  }

  lemma NextNumber(v: seq<char>, l: seq<string>)
    requires IsBinary(v) && CountsUp(l, |v|) && LowFirst(v) == |l| < Pow2(|v|) && |v| > 0
    ensures CountsUp(l + [Reverse(v)], |v|)
  {
    hide LowFirst, Reverse, Int2Bin, Bin2Int, Pow2;
    ReversedValue(v);
    BinaryIsBitString(Reverse(v));
    Int2BinWidths(|l|, |v|);
  }

  /** For at least one bit, the list of all n-bit strings in order; for none, the loop does not start. */
  method BinaryRange(bits: nat) returns (l: seq<string>)
    ensures bits == 0 ==> l == []
    ensures bits > 0 ==> |l| == Pow2(bits) && CountsUp(l, bits)
  {
    hide LowFirst, Reverse, CountsUp, IsBinary;
    l := [];
    var v := new char[bits](_ => '0');
    var toggle: seq<int> := [1] + seq(bits, _ => 0);
    StartAtZero(v[..]);
    while toggle[bits] != 1
      invariant |toggle| == bits + 1 && (toggle[bits] == 0 || toggle[bits] == 1)
      invariant bits > 0 && toggle[bits] == 0 ==> LowFirst(v[..]) == |l| < Pow2(bits)
      invariant bits > 0 && toggle[bits] == 1 ==> |l| == Pow2(bits)
      invariant bits == 0 ==> l == [] && toggle[bits] == 1
      invariant IsBinary(v[..])
      invariant CountsUp(l, bits)
      decreases Pow2(bits) - |l|
    {
      NextNumber(v[..], l);
      var vCopy := Reverse(v[..]);
      l := l + [vCopy];
      toggle := Increment(v, bits);
      StillBinary(v[..]);
    }
  }

  lemma StartAtZero(v: seq<char>)
    requires forall i :: 0 <= i < |v| ==> v[i] == '0'
    ensures IsBinary(v) && LowFirst(v) == 0 && CountsUp([], |v|)
  {
  }

  lemma StillBinary(v: seq<char>)
    requires IsBinary(v)
    ensures LowFirst(v) < Pow2(|v|)
  {
    ReversedValue(v);
    BinaryIsBitString(Reverse(v));
  }
}
