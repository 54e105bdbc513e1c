/** Packs of flags and their text and number forms (include/erebus/system/flags.hxx). */
module Flags {

  type Bits = seq<bool>

  function Min(a: nat, b: nat): nat {
    if a < b then a else b
  }

  /** The flags a text denotes: its last character is flag 0, and only '1' sets a flag. */
  function Parsed(text: string, size: nat): (bits: Bits)
    ensures |bits| == size
  {
    seq(size, k => k < |text| && k >= 0 && text[|text| - 1 - k] == '1')
  }

  function Text(bits: Bits): (text: string)
    ensures |text| == |bits|
  {
    seq(|bits|, j requires 0 <= j < |bits| => if bits[|bits| - 1 - j] then '1' else '0')
  }

  function Normalized(text: string): (out: string)
    ensures |out| == |text|
  {
    seq(|text|, j requires 0 <= j < |text| => if text[j] == '1' then '1' else '0')
  }

  function Zeros(n: nat): (out: string)
    ensures |out| == n
  {
    seq(n, _ => '0')
  }

  /** Parsing the text of a pack gives the pack back, for every width. */
  lemma TextRoundTrip(bits: Bits)
    ensures Parsed(Text(bits), |bits|) == bits
  {
    var text := Text(bits);
    forall k | 0 <= k < |bits|
      ensures Parsed(text, |bits|)[k] == bits[k]
    {
      assert text[|bits| - 1 - k] == if bits[k] then '1' else '0';
    }
  }

  /**
   * The text of a parsed text is that text with every other character read as '0', padded with zeros on
   * the left; of a text longer than the pack only the last characters count.
   */
  lemma ParsedTextIsPadded(text: string, size: nat)
    ensures Text(Parsed(text, size))
         == if |text| <= size then Zeros(size - |text|) + Normalized(text) else Normalized(text[|text| - size..])
  {
    var out := Text(Parsed(text, size));
    forall j | 0 <= j < size
      ensures out[j] == if Parsed(text, size)[size - 1 - j] then '1' else '0'
    {
    }
  }

  /** The number form: flag k is worth 2^k. */
  function Packed(bits: Bits): nat {
    if bits == [] then 0 else (if bits[0] then 1 else 0) + 2 * Packed(bits[1..])
  }

  function Unpacked(n: nat, size: nat): (bits: Bits)
    ensures |bits| == size
  {
    if size == 0 then [] else [n % 2 == 1] + Unpacked(n / 2, size - 1)
  }

  function Pow2(k: nat): nat {
    if k == 0 then 1 else 2 * Pow2(k - 1)
  }

  function SumOfPowers(bits: Bits): nat {
    if bits == [] then 0
    else SumOfPowers(bits[..|bits| - 1]) + if bits[|bits| - 1] then Pow2(|bits| - 1) else 0
  }

  lemma {:induction false} PackedAppend(bits: Bits, b: bool)
    ensures Packed(bits + [b]) == Packed(bits) + if b then Pow2(|bits|) else 0
    decreases |bits|
  {
    if bits == [] {
      assert [b][1..] == [];
    } else {
      assert (bits + [b])[1..] == bits[1..] + [b];
      PackedAppend(bits[1..], b);
    }
  }

  /** Packing is the sum of the powers of two of the set flags. */
  lemma {:induction false} PackedIsSumOfPowers(bits: Bits)
    ensures Packed(bits) == SumOfPowers(bits)
    decreases |bits|
  {
    if bits != [] {
      var last := |bits| - 1;
      assert bits == bits[..last] + [bits[last]];
      PackedAppend(bits[..last], bits[last]);
      PackedIsSumOfPowers(bits[..last]);
    }
  }

  /** Building a pack from its number gives it back, and its number is the low bits of the given one. */
  lemma {:induction false} PackRoundTrip(bits: Bits)
    ensures Unpacked(Packed(bits), |bits|) == bits
    ensures Packed(bits) < Pow2(|bits|)
    decreases |bits|
  {
    if bits != [] {
      PackRoundTrip(bits[1..]);
      assert Packed(bits) / 2 == Packed(bits[1..]) && (Packed(bits) % 2 == 1 <==> bits[0]);
    }
  }

  lemma {:induction false} UnpackedNumber(n: nat, size: nat)
    requires n < Pow2(size)
    ensures Packed(Unpacked(n, size)) == n
    decreases size
  {
    if size > 0 {
      UnpackedNumber(n / 2, size - 1);
      assert Unpacked(n, size)[1..] == Unpacked(n / 2, size - 1);
    }
  }

  /** The number a text of ones and zeros writes down, its first character counting most. */
  function Binary(text: string): nat {
    if text == "" then 0 else 2 * Binary(text[..|text| - 1]) + if text[|text| - 1] == '1' then 1 else 0
  }

  /** The two forms agree: the flags of a text are those of the number it writes down in binary. */
  lemma {:induction false} TextWritesNumber(text: string, size: nat)
    requires |text| <= size
    ensures Packed(Parsed(text, size)) == Binary(text)
    decreases size
  {
    if size > 0 {
      var bits, more := Parsed(text, size), if text == "" then "" else text[..|text| - 1];
      TextWritesNumber(more, size - 1);
      assert bits[1..] == Parsed(more, size - 1);
    }
  }

  class FlagsPack {
    const size: nat
    var bits: Bits

    ghost predicate Valid()
      reads this
    {
      size > 0 && |bits| == size
    }

    constructor (size: nat)
      requires size > 0
      ensures Valid() && this.size == size && bits == seq(size, _ => false)
    {
      this.size := size;
      bits := seq(size, _ => false);
    }

    method Set(f: nat, value: bool)
      requires Valid() && f < size
      modifies this
      ensures Valid() && bits == old(bits)[f := value]
    {
      bits := bits[f := value];
    }

    /** The constructor from text. */
    constructor FromText(size: nat, text: string)
      requires size > 0
      ensures Valid() && this.size == size && bits == Parsed(text, size)
    {
      this.size := size;
      bits := seq(size, _ => false);
      new;
      if text != "" {
        var index := Min(|text|, size);
        while true
          invariant Valid() && 1 <= index <= Min(|text|, size)
          invariant forall k | 0 <= k < size :: bits[k] == (index <= k && Parsed(text, size)[k])
          decreases index
        {
          index := index - 1;
          if text[|text| - index - 1] == '1' {
            Set(index, true);
          }
          if index == 0 {
            break;
          }
        }
      }
    }

    method ToString() returns (out: string)
      requires Valid()
      ensures out == Text(bits)
      ensures Parsed(out, size) == bits
    {
      out := "";
      var i := size;
      while i > 0
        invariant Valid() && 0 <= i <= size && |out| == size - i
        invariant forall j | 0 <= j < |out| :: out[j] == Text(bits)[j]
      {
        out := out + [if bits[i - 1] then '1' else '0'];
        i := i - 1;
      }
      TextRoundTrip(bits);
    }
  }
}
