/** Sequences, and buffers of bytes. */
module ByteSeqs {
  import opened Utf8

  function Zeros(n: nat): (z: seq<Byte>)
    ensures |z| == n
  {
    seq(n, _ => 0)
  }

  predicate Distinct<T(==)>(s: seq<T>) {
    forall i, j :: 0 <= i < j < |s| ==> s[i] != s[j]
  }

  lemma Associates<T>(a: seq<T>, b: seq<T>, c: seq<T>)
    ensures a + (b + c) == a + b + c
  {
  }

  /** s with some bytes replaced. */
  function Over(s: seq<Byte>, off: nat, bytes: seq<Byte>): seq<Byte>
    requires off + |bytes| <= |s|
  {
    s[..off] + bytes + s[off + |bytes|..]
  }

  /** Copies bytes into a buffer. */
  method Put(b: array<Byte>, off: nat, bytes: seq<Byte>)
    requires off + |bytes| <= b.Length
    modifies b
    ensures b[..] == Over(old(b[..]), off, bytes)
  {
    forall k | 0 <= k < |bytes| { b[off + k] := bytes[k]; }
  }
}
