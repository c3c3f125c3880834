/** The object representation of trivially copyable values.

    `operator<<` and `WriteSmallVector` reinterpret a value of type `T` as the
    `sizeof(T)` bytes it occupies in memory and copy them to the stream. Here a
    value of `T` is given by that representation read as an unsigned number
    (`value < 256^size`), and the host's byte order, which decides where each
    byte lands, is a parameter.
 */
module RawBytes {

  /** One byte of an object's representation or of the stream. */
  newtype byte = b: int | 0 <= b < 256

  /** Byte order of the host the serialiser runs on. */
  datatype ByteOrder = LittleEndian | BigEndian

  /** 256^n: one more than the largest number n bytes can hold. */
  function Pow256(n: nat): (r: nat)
    ensures r >= 1
  {
    if n == 0 then 1 else 256 * Pow256(n - 1)
  }

  /** Whether `value` is the representation of an object of `size` bytes. */
  predicate Fits(value: nat, size: nat) {
    value < Pow256(size)
  }

  function Reverse(s: seq<byte>): (r: seq<byte>)
    ensures |r| == |s|
    ensures forall i :: 0 <= i < |s| ==> r[i] == s[|s| - 1 - i]
  {
    if s == [] then [] else Reverse(s[1..]) + [s[0]]
  }

  lemma ReverseReverse(s: seq<byte>)
    ensures Reverse(Reverse(s)) == s
  {
  }

  /** The `size` bytes of `value`, least significant first. */
  function LittleEndianBytes(value: nat, size: nat): (r: seq<byte>)
    requires Fits(value, size)
    ensures |r| == size
  {
    if size == 0 then []
    else
      assert value / 256 < Pow256(size - 1);
      [(value % 256) as byte] + LittleEndianBytes(value / 256, size - 1)
  }

  /** The number whose least significant byte comes first in `bytes`. */
  function LittleEndianValue(bytes: seq<byte>): (r: nat)
    ensures Fits(r, |bytes|)
  {
    if bytes == [] then 0
    else
      var rest := LittleEndianValue(bytes[1..]);
      assert rest <= Pow256(|bytes| - 1) - 1;
      bytes[0] as int + 256 * rest
  }

  /** The bytes an object of `size` bytes with representation `value` occupies
      in memory on a host of byte order `order`: what `(char *)&data` points at. */
  function Bytes(value: nat, size: nat, order: ByteOrder): (r: seq<byte>)
    requires Fits(value, size)
    ensures |r| == size
  {
    match order
    case LittleEndian => LittleEndianBytes(value, size)
    case BigEndian => Reverse(LittleEndianBytes(value, size))
  }

  /** The representation a reader on a host of byte order `order` recovers from
      `bytes`. */
  function Value(bytes: seq<byte>, order: ByteOrder): (r: nat)
    ensures Fits(r, |bytes|)
  {
    match order
    case LittleEndian => LittleEndianValue(bytes)
    case BigEndian => LittleEndianValue(Reverse(bytes))
  }

  lemma {:induction false} LittleEndianValueOfBytes(value: nat, size: nat)
    requires Fits(value, size)
    ensures LittleEndianValue(LittleEndianBytes(value, size)) == value
  {
    if size > 0 {
      var bs := LittleEndianBytes(value, size);
      assert bs[1..] == LittleEndianBytes(value / 256, size - 1);
      LittleEndianValueOfBytes(value / 256, size - 1);
    }
  }

  lemma {:induction false} LittleEndianBytesOfValue(bytes: seq<byte>)
    ensures LittleEndianBytes(LittleEndianValue(bytes), |bytes|) == bytes
  {
    if bytes != [] {
      var v := LittleEndianValue(bytes);
      var rest := LittleEndianValue(bytes[1..]);
      assert v % 256 == bytes[0] as int && v / 256 == rest;
      LittleEndianBytesOfValue(bytes[1..]);
    }
  }

  /** Reading back the bytes of a value gives the value. */
  lemma ValueOfBytes(value: nat, size: nat, order: ByteOrder)
    requires Fits(value, size)
    ensures Value(Bytes(value, size, order), order) == value
  {
    LittleEndianValueOfBytes(value, size);
    ReverseReverse(LittleEndianBytes(value, size));
  }

  /** Different values of the same size have different bytes, and every byte
      string of that size is the representation of some value. */
  lemma BytesOfValue(bytes: seq<byte>, order: ByteOrder)
    ensures Bytes(Value(bytes, order), |bytes|, order) == bytes
  {
    match order
    case LittleEndian =>
      LittleEndianBytesOfValue(bytes);
    case BigEndian =>
      LittleEndianBytesOfValue(Reverse(bytes));
      ReverseReverse(bytes);
  }

  /** The bytes `count` objects of `size` bytes take when stored back to back:
      `count * size`, counted out one object at a time. */
  function Span(count: nat, size: nat): nat {
    if count == 0 then 0 else Span(count - 1, size) + size
  }

  lemma {:induction false} SpanIsProduct(count: nat, size: nat)
    ensures Span(count, size) == count * size
  {
    if count > 0 {
      SpanIsProduct(count - 1, size);
    }
  }

  lemma {:induction false} SpanMonotonic(a: nat, b: nat, size: nat)
    requires a <= b
    ensures Span(a, size) <= Span(b, size)
  {
    if a < b {
      SpanMonotonic(a, b - 1, size);
    }
  }

  /** Whether every element of `values` is the representation of an object of
      `size` bytes: a `std::vector<T>` with `sizeof(T) == size`. */
  predicate AllFit(values: seq<nat>, size: nat) {
    forall i :: 0 <= i < |values| ==> Fits(values[i], size)
  }

  /** The bytes of each element of `values`, in index order. */
  function Chunks(values: seq<nat>, size: nat, order: ByteOrder): (r: seq<seq<byte>>)
    requires AllFit(values, size)
    ensures |r| == |values|
    ensures forall i :: 0 <= i < |values| ==> r[i] == Bytes(values[i], size, order)
  {
    if values == [] then [] else [Bytes(values[0], size, order)] + Chunks(values[1..], size, order)
  }

  /** Byte strings laid end to end. */
  function Concat(chunks: seq<seq<byte>>): seq<byte> {
    if chunks == [] then [] else chunks[0] + Concat(chunks[1..])
  }

  /** Whether every byte string of `chunks` is `size` bytes long. */
  predicate Uniform(chunks: seq<seq<byte>>, size: nat) {
    forall i :: 0 <= i < |chunks| ==> |chunks[i]| == size
  }

  lemma {:induction false} ConcatLength(chunks: seq<seq<byte>>, size: nat)
    requires Uniform(chunks, size)
    ensures |Concat(chunks)| == Span(|chunks|, size)
  {
    if chunks != [] {
      ConcatLength(chunks[1..], size);
    }
  }

  /** Chunk `i` of equally long chunks laid end to end occupies the `size`
      bytes after the first `i` chunks. */
  lemma {:induction false} ConcatAt(chunks: seq<seq<byte>>, size: nat, i: nat)
    requires Uniform(chunks, size) && i < |chunks|
    ensures Span(i + 1, size) <= |Concat(chunks)|
    ensures Concat(chunks)[Span(i, size)..Span(i + 1, size)] == chunks[i]
  {
    ConcatLength(chunks, size);
    SpanMonotonic(i + 1, |chunks|, size);
    var tail := Concat(chunks[1..]);
    if i == 0 {
      assert (chunks[0] + tail)[..size] == chunks[0];
    } else {
      ConcatAt(chunks[1..], size, i - 1);
      ShiftedSpan(i, size);
      SliceAfterPrefix(chunks[0], tail, Span(i - 1, size), Span(i, size));
    }
  }

  /** The contiguous storage of a `std::vector<T>`: each element's bytes, in
      index order, with nothing between them. */
  function ElementBytes(values: seq<nat>, size: nat, order: ByteOrder): (r: seq<byte>)
    requires AllFit(values, size)
    ensures |r| == Span(|values|, size)
  {
    ConcatLength(Chunks(values, size, order), size);
    Concat(Chunks(values, size, order))
  }

  /** Element `i` occupies the `size` bytes after the first `i` elements. */
  lemma ElementBytesAt(values: seq<nat>, size: nat, order: ByteOrder, i: nat)
    requires AllFit(values, size) && i < |values|
    ensures Span(i + 1, size) <= Span(|values|, size)
    ensures ElementBytes(values, size, order)[Span(i, size)..Span(i + 1, size)] == Bytes(values[i], size, order)
  {
    var chunks := Chunks(values, size, order);
    ConcatAt(chunks, size, i);
    assert ElementBytes(values, size, order) == Concat(chunks);
    assert chunks[i] == Bytes(values[i], size, order);
  }

  /** Skipping one object and then `i - 1` more skips `i` of them. */
  lemma ShiftedSpan(i: nat, size: nat)
    requires i > 0
    ensures Span(i, size) == size + Span(i - 1, size)
    ensures Span(i + 1, size) == size + Span(i, size)
  {
  }

  lemma SliceAfterPrefix(head: seq<byte>, tail: seq<byte>, lo: nat, hi: nat)
    requires lo <= hi <= |tail|
    ensures (head + tail)[|head| + lo..|head| + hi] == tail[lo..hi]
  {
  }

  /** The `count` values a reader recovers from the contiguous storage of a
      vector of objects of `size` bytes. */
  function SplitElements(bytes: seq<byte>, size: nat, count: nat, order: ByteOrder): (r: seq<nat>)
    requires |bytes| == Span(count, size)
    ensures |r| == count
    ensures AllFit(r, size)
    decreases count
  {
    if count == 0 then []
    else [Value(bytes[..size], order)] + SplitElements(bytes[size..], size, count - 1, order)
  }

  /** Reading back the contiguous storage of a vector gives the vector. */
  lemma {:induction false} SplitElementBytes(values: seq<nat>, size: nat, order: ByteOrder)
    requires AllFit(values, size)
    ensures SplitElements(ElementBytes(values, size, order), size, |values|, order) == values
  {
    if values != [] {
      var bs := ElementBytes(values, size, order);
      var head := Bytes(values[0], size, order);
      var tail := ElementBytes(values[1..], size, order);
      assert Chunks(values, size, order)[1..] == Chunks(values[1..], size, order);
      assert bs == head + tail;
      assert bs[..size] == head && bs[size..] == tail;
      ValueOfBytes(values[0], size, order);
      SplitElementBytes(values[1..], size, order);
    }
  }
}
