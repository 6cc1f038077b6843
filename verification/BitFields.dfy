// Streams of bits: libjxl/lib/jxl/enc_bit_writer.h and dec_bit_reader.h. A
// field is written low bit first; past the end, zeros are read.
module BitFields {
  import opened Bits

  type BitString = seq<bool>

  function BitsOf(x: nat, n: nat): (r: BitString)
    ensures |r| == n
  {
    if n == 0 then [] else [x % 2 == 1] + BitsOf(x / 2, n - 1)
  }

  function Rest(stream: BitString): BitString {
    if stream == [] then [] else stream[1..]
  }

  // The value of the next n bits, and what follows them.
  function Peek(stream: BitString, n: nat): (r: nat)
    decreases n
  {
    if n == 0 then 0 else (if stream != [] && stream[0] then 1 else 0) + 2 * Peek(Rest(stream), n - 1)
  }

  function Advance(stream: BitString, n: nat): BitString {
    if n <= |stream| then stream[n..] else []
  }

  lemma {:induction false} PeekBound(stream: BitString, n: nat)
    ensures Peek(stream, n) < Pow2(n)
    decreases n
  {
    if n > 0 {
      PeekBound(Rest(stream), n - 1);
    }
  }

  // What was written is read, and nothing after it is touched.
  lemma {:induction false} FieldIsRead(x: nat, n: nat, after: BitString)
    requires x < Pow2(n)
    ensures Peek(BitsOf(x, n) + after, n) == x && Advance(BitsOf(x, n) + after, n) == after
  {
    if n > 0 {
      FieldIsRead(x / 2, n - 1, after);
      var stream := BitsOf(x, n) + after;
      assert stream[0] == (x % 2 == 1) && stream[1..] == BitsOf(x / 2, n - 1) + after;
    } else {
      assert [] + after == after;
    }
  }

  // A number made of two fields is written as the low one and then the high one.
  lemma {:induction false} FieldsJoin(high: nat, low: nat, m: nat, n: nat)
    requires low < Pow2(n)
    ensures BitsOf(low + Shl(high, n), n + m) == BitsOf(low, n) + BitsOf(high, m)
  {
    if n == 0 {
      assert BitsOf(low, 0) + BitsOf(high, m) == BitsOf(high, m);
    } else {
      FieldsJoin(high, low / 2, m, n - 1);
      var x := low + Shl(high, n);
      assert x / 2 == low / 2 + Shl(high, n - 1) && x % 2 == low % 2;
      NextBit(x, n + m);
      NextBit(low, n);
      hide BitsOf;
      assert [low % 2 == 1] + (BitsOf(low / 2, n - 1) + BitsOf(high, m)) == BitsOf(low, n) + BitsOf(high, m);
    }
  }

  lemma NextBit(x: nat, n: nat)
    requires n > 0
    ensures BitsOf(x, n) == [x % 2 == 1] + BitsOf(x / 2, n - 1)
  {
  }

  // The bits of a field are those of the number, from the lowest on.
  lemma {:induction false} BitIsWritten(x: nat, n: nat, k: nat)
    requires k < n
    ensures BitsOf(x, n)[k] == Bit(x, k)
  {
    NextBit(x, n);
    if k > 0 {
      BitIsWritten(x / 2, n - 1, k - 1);
    }
  }

  class BitWriter {
    var written: BitString

    constructor ()
      ensures written == []
    {
      written := [];
    }

    method Write(nBits: nat, bits: nat)
      requires bits < Pow2(nBits) && nBits <= MAX_BITS_PER_CALL
      modifies this
      ensures written == old(written) + BitsOf(bits, nBits)
    {
      written := written + BitsOf(bits, nBits);
    }
  }

  const MAX_BITS_PER_CALL: nat := 56

  // ---------------------------------------------------------------------
  // Fields in reverse: what is added last comes first.

  datatype Chunk = Chunk(bits: nat, nbits: nat) {
    ghost predicate Ok() { bits < Pow2(nbits) && nbits <= MAX_BITS_PER_CALL }
  }

  // The chunks are written from the last to the first.
  ghost function Flushed(out: seq<Chunk>): BitString {
    if out == [] then [] else BitsOf(out[|out| - 1].bits, out[|out| - 1].nbits) + Flushed(out[..|out| - 1])
  }

  class ReversedBits {
    var out: seq<Chunk>
    var allbits: nat
    var numallbits: nat

    ghost predicate Valid()
      reads this
    {
      Chunk(allbits, numallbits).Ok() && forall c :: c in out ==> c.Ok()
    }

    ghost function Contents(): BitString
      reads this
    {
      BitsOf(allbits, numallbits) + Flushed(out)
    }

    constructor ()
      ensures Valid() && Contents() == []
    {
      out, allbits, numallbits := [], 0, 0;
    }

    // A word of at most 56 bits collects the fields.
    method AddBits(bits: nat, nbits: nat)
      requires Valid() && bits < Pow2(nbits) && nbits <= MAX_BITS_PER_CALL
      modifies this
      ensures Valid() && Contents() == BitsOf(bits, nbits) + old(Contents())
    {
      NoBits(bits);
      hide BitsOf, Flushed, Or, Shl, Pow2;
      if nbits != 0 {
        if numallbits + nbits > MAX_BITS_PER_CALL {
          OneMoreChunk(out, Chunk(allbits, numallbits));
          out := out + [Chunk(allbits, numallbits)];
          allbits, numallbits := 0, 0;
          assert [] + Flushed(out) == Flushed(out);
        }
        AllBitsStep(allbits, numallbits, bits, nbits, Flushed(out));
        allbits := Or(bits, Shl(allbits, nbits));
        numallbits := numallbits + nbits;
      } else {
        assert [] + Contents() == Contents();
      }
    }

    // Everything, in reading order.
    method Flush(writer: BitWriter)
      requires Valid()
      modifies writer
      ensures writer.written == old(writer.written) + Contents()
    {
      writer.Write(numallbits, allbits);
      ghost var before := writer.written;
      var i := |out|;
      assert out[..|out|] == out;
      hide BitsOf;
      while i > 0
        invariant 0 <= i <= |out| && before + Flushed(out) == writer.written + Flushed(out[..i])
      {
        assert out[..i][..i - 1] == out[..i - 1] && out[i - 1] in out;
        writer.Write(out[i - 1].nbits, out[i - 1].bits);
        i := i - 1;
      }
      assert writer.written + [] == writer.written;
    }
  }

  lemma NoBits(bits: nat)
    ensures BitsOf(bits, 0) == BitsOf(0, 0) == [] && Pow2(0) == 1
  {
  }

  lemma OneMoreChunk(out: seq<Chunk>, chunk: Chunk)
    ensures Flushed(out + [chunk]) == BitsOf(chunk.bits, chunk.nbits) + Flushed(out)
  {
    assert (out + [chunk])[..|out|] == out;
  }

  lemma AllBitsStep(all: nat, num: nat, bits: nat, nbits: nat, flushed: BitString)
    requires all < Pow2(num) && bits < Pow2(nbits)
    ensures Or(bits, Shl(all, nbits)) < Pow2(num + nbits)
    ensures BitsOf(Or(bits, Shl(all, nbits)), num + nbits) + flushed
         == BitsOf(bits, nbits) + (BitsOf(all, num) + flushed)
  {
    OrDisjoint(bits, all, nbits);
    FieldsJoin(all, bits, num, nbits);
    ShlLess(all, Pow2(num), nbits);
    RangeIs(num + nbits, num);
  }
}
