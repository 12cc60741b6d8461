// A medium as the readers see it: a byte at each address, and which of them can
// be read.
module Media {

  datatype Medium = Medium(byteAt: int -> bv8, readable: int -> bool)

  function Bytes(m: Medium, start: int, n: nat): seq<bv8> {
    seq(n, k requires 0 <= k < n => m.byteAt(start + k))
  }

  predicate CanRead(m: Medium, x: int) {
    m.readable(x)
  }

  predicate AllReadable(m: Medium, start: int, n: nat) {
    forall x :: start <= x < start + n ==> CanRead(m, x)
  }

  // The bytes of a range, one part after the other.
  lemma BytesAdded(m: Medium, start: int, a: nat, b: nat)
    ensures Bytes(m, start, a) + Bytes(m, start + a, b) == Bytes(m, start, a + b)
    ensures AllReadable(m, start, a) && AllReadable(m, start + a, b) <==> AllReadable(m, start, a + b)
  {
    var whole, parts := Bytes(m, start, a + b), Bytes(m, start, a) + Bytes(m, start + a, b);
    forall k | 0 <= k < a + b ensures whole[k] == parts[k] {
      if k >= a { assert start + a + (k - a) == start + k; }
    }
  }

  // A part of a readable range.
  lemma PartReadable(m: Medium, start: int, n: nat, from: int, k: nat)
    requires AllReadable(m, start, n) && start <= from && from + k <= start + n
    ensures AllReadable(m, from, k)
  {
  }

  // A part of the bytes of a range.
  lemma PartBytes(m: Medium, start: int, n: nat, offset: nat, k: nat)
    requires offset + k <= n
    ensures Bytes(m, start, n)[offset..offset + k] == Bytes(m, start + offset, k)
  {
    var part, right := Bytes(m, start, n)[offset..offset + k], Bytes(m, start + offset, k);
    forall i | 0 <= i < k ensures part[i] == right[i] {
      assert start + (offset + i) == start + offset + i;
    }
  }
}
