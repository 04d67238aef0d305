/** gray_encode of bindings/python/rad_util.py, on the bit strings that int2bin prints. */
module GrayCode {

  import opened BinaryStrings

  /** a ^ b for integers that are not negative */
  function Xor(a: nat, b: nat): nat {
    if a == 0 && b == 0 then 0 else 2 * Xor(a / 2, b / 2) + (a % 2 + b % 2) % 2
  }

  function GrayEncode(i: nat): nat {
    Xor(i, i / 2)
  }

  function GrayDecode(g: nat): nat {
    if g == 0 then 0 else
      var high := GrayDecode(g / 2);
      2 * high + (g % 2 + high % 2) % 2
  }

  predicate BitAt(i: nat, k: nat) {
    if k == 0 then i % 2 == 1 else BitAt(i / 2, k - 1)
  }

  lemma XorStep(a: nat, b: nat)
    ensures Xor(a, b) / 2 == Xor(a / 2, b / 2) && Xor(a, b) % 2 == (a % 2 + b % 2) % 2
  {
  }

  /** Xor is the bitwise exclusive or. */
  lemma {:induction false} XorBit(a: nat, b: nat, k: nat)
    ensures BitAt(Xor(a, b), k) == (BitAt(a, k) != BitAt(b, k))
  {
    hide Xor;
    XorStep(a, b);
    if k > 0 {
      XorBit(a / 2, b / 2, k - 1);
    }
  }

  /** Every digit of the code tells whether the number's digit differs from the next higher one. */
  lemma EncodeBit(i: nat, k: nat)
    ensures BitAt(GrayEncode(i), k) == (BitAt(i, k) != BitAt(i, k + 1))
  {
    hide Xor;
    XorBit(i, i / 2, k);
  }

  /** A code is the code of the upper half and one more digit. */
  lemma EncodeStep(i: nat)
    ensures GrayEncode(i) / 2 == GrayEncode(i / 2)
    ensures GrayEncode(i) % 2 == (i % 2 + (i / 2) % 2) % 2
  {
    hide Xor;
    XorStep(i, i / 2);
  }

  lemma DecodeStep(g: nat)
    ensures GrayDecode(g) / 2 == GrayDecode(g / 2)
    ensures GrayDecode(g) % 2 == (g % 2 + GrayDecode(g / 2) % 2) % 2
  {
  }

  /** Two exclusive ors with one digit cancel. */
  lemma TwiceIsNothing(x: nat, y: nat, z: nat)
    requires z % 2 == (x % 2 + y % 2) % 2
    ensures (z % 2 + y % 2) % 2 == x % 2
  {
  }

  lemma Halves(a: nat, b: nat)
    requires a / 2 == b / 2 && a % 2 == b % 2
    ensures a == b
  {
  }

  lemma {:induction false} DecodeEncode(i: nat)
    ensures GrayDecode(GrayEncode(i)) == i
  {
    hide GrayEncode, GrayDecode;
    EncodeStep(i);
    DecodeStep(GrayEncode(i));
    if i > 0 {
      DecodeEncode(i / 2);
      TwiceIsNothing(i, i / 2, GrayEncode(i));
      Halves(GrayDecode(GrayEncode(i)), i);
    } else {
      ZeroStays();
    }
  }

  lemma ZeroStays()
    ensures GrayEncode(0) == 0 && GrayDecode(0) == 0
  {
  }

  lemma {:induction false} EncodeDecode(g: nat)
    ensures GrayEncode(GrayDecode(g)) == g
  {
    hide GrayEncode, GrayDecode;
    DecodeStep(g);
    EncodeStep(GrayDecode(g));
    if g > 0 {
      EncodeDecode(g / 2);
      TwiceIsNothing(g, GrayDecode(g / 2), GrayDecode(g));
      Halves(GrayEncode(GrayDecode(g)), g);
    } else {
      ZeroStays();
    }
  }

  lemma {:induction false} CodeFits(i: nat, n: nat)
    ensures GrayEncode(i) < Pow2(n) <==> i < Pow2(n)
  {
    EncodeStep(i);
    if n > 0 {
      CodeFits(i / 2, n - 1);
    } else if i > 0 {
      DecodeEncode(i);
    }
  }

  /** Gray coding permutes the numbers below 2^n, for every n. */
  lemma EncodeIsBijective(n: nat)
    ensures forall i: nat :: i < Pow2(n) ==> GrayEncode(i) < Pow2(n)
    ensures forall i: nat, j: nat :: GrayEncode(i) == GrayEncode(j) ==> i == j
    ensures forall g: nat :: g < Pow2(n) ==> GrayDecode(g) < Pow2(n) && GrayEncode(GrayDecode(g)) == g
  {
    forall i: nat | i < Pow2(n) ensures GrayEncode(i) < Pow2(n) { CodeFits(i, n); }
    forall i: nat, j: nat | GrayEncode(i) == GrayEncode(j) ensures i == j { DecodeEncode(i); DecodeEncode(j); }
    forall g: nat | g < Pow2(n) ensures GrayDecode(g) < Pow2(n) && GrayEncode(GrayDecode(g)) == g {
      EncodeDecode(g);
      CodeFits(GrayDecode(g), n);
    }
  }

  ghost predicate DifferOnlyAt(s: string, t: string, p: nat) {
    |s| == |t| && p < |s| && s[p] != t[p] && forall q :: 0 <= q < |s| && q != p ==> s[q] == t[q]
  }

  lemma {:induction false} Neighbours(i: nat, n: nat) returns (p: nat)
    requires i + 1 < Pow2(n)
    ensures DifferOnlyAt(BitString(GrayEncode(i), n), BitString(GrayEncode(i + 1), n), p)
  {
    hide GrayEncode;
    EncodeStep(i);
    EncodeStep(i + 1);
    if i % 2 == 0 {
      p := n - 1;
    } else {
      p := Neighbours(i / 2, n - 1);
    }
  }

  /** The strings int2bin prints for the codes of two successive numbers differ in exactly one place. */
  lemma SuccessorsDifferInOnePlace(i: nat, n: nat) returns (s: string, t: string, p: nat)
    requires i + 1 < Pow2(n)
    ensures Int2Bin(GrayEncode(i), n) == Bits(s) && Int2Bin(GrayEncode(i + 1), n) == Bits(t)
    ensures DifferOnlyAt(s, t, p)
  {
    hide GrayEncode, Int2Bin;
    p := Neighbours(i, n);
    CodeFits(i, n);
    CodeFits(i + 1, n);
    Int2BinWidths(GrayEncode(i), n);
    Int2BinWidths(GrayEncode(i + 1), n);
    s, t := BitString(GrayEncode(i), n), BitString(GrayEncode(i + 1), n);
  }

  lemma {:induction false} LastCode(n: nat)
    requires n >= 1
    ensures GrayEncode(Pow2(n) - 1) == Pow2(n - 1)
  {
    EncodeStep(Pow2(n) - 1);
    if n > 1 {
      hide GrayEncode;
      LastCode(n - 1);
      assert (Pow2(n) - 1) / 2 == Pow2(n - 1) - 1;
    }
  }

  lemma {:induction false} OneAtTheFront(n: nat)
    requires n >= 1
    ensures DifferOnlyAt(BitString(Pow2(n - 1), n), BitString(0, n), 0)
  {
    if n > 1 {
      OneAtTheFront(n - 1);
    }
  }

  /** The code is cyclic: the last string and the first one differ in the leading digit alone. */
  lemma WrapsRound(n: nat)
    requires n >= 1
    ensures DifferOnlyAt(BitString(GrayEncode(Pow2(n) - 1), n), BitString(GrayEncode(0), n), 0)
  {
    LastCode(n);
    OneAtTheFront(n);
  }
}
