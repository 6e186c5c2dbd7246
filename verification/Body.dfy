/** Request bodies (net/http2/fixed_buffer.go, net/http2/pipe.go): a fixed buffer whose unread data
    slides to the front when room is needed, and the pipe around it.  Each method is one atomic
    step; the source holds the pipe's mutex for its duration. */
module Body {
  import opened Machine
  import opened Utf8

  datatype BufferError = NoError | ReadEmpty | WriteFull

  class FixedBuffer {
    const buf: array<Byte>
    var r: nat
    var w: nat

    ghost predicate Valid()
      reads this
    {
      r <= w <= buf.Length
    }

    /** The unread portion. */
    ghost function Contents(): (s: seq<Byte>)
      requires Valid()
      reads this, buf
    {
      buf[r..w]
    }

    constructor (size: nat)
      ensures Valid() && fresh(buf) && buf.Length == size && Contents() == []
    {
      buf := new Byte[size];
      r, w := 0, 0;
    }

    function Len(): (n: int)
      requires Valid()
      reads this, buf
      ensures n == |Contents()|
    {
      w - r
    }

    /** Moves the front of the contents to p. */
    method Read(p: array<Byte>) returns (n: nat, err: BufferError)
      requires Valid() && p != buf
      modifies this`r, this`w, p
      ensures Valid()
      ensures err == if old(Contents()) == [] then ReadEmpty else NoError
      ensures n == Min(p.Length, |old(Contents())|)
      ensures p[..n] == old(Contents())[..n] && p[n..] == old(p[n..])
      ensures Contents() == old(Contents())[n..]
    {
      if r == w { return 0, ReadEmpty; }
      n := Min(p.Length, w - r);
      forall k | 0 <= k < n { p[k] := buf[r + k]; }
      r := r + n;
      if r == w { r, w := 0, 0; }
      err := NoError;
    }

    /** Appends as much of p as the capacity allows, wherever the unread data lies. */
    method Write(p: seq<Byte>) returns (n: nat, err: BufferError)
      requires Valid()
      modifies this, buf
      ensures Valid()
      ensures n == Min(|p|, buf.Length - |old(Contents())|)
      ensures err == if n < |p| then WriteFull else NoError
      ensures Contents() == old(Contents()) + p[..n]
    {
      if r > 0 && |p| > buf.Length - w { Slide(); }
      n := Min(|p|, buf.Length - w);
      forall k | 0 <= k < n { buf[w + k] := p[k]; }
      w := w + n;
      err := if n < |p| then WriteFull else NoError;
    }

    method Slide()
      requires Valid()
      modifies this, buf
      ensures Valid() && r == 0 && Contents() == old(Contents())
    {
      forall k | 0 <= k < w - r { buf[k] := buf[r + k]; }
      w := w - r;
      r := 0;
    }
  }

  datatype PipeError = Nil | Eof | ClosedPipeWrite | Buffer(e: BufferError) | Why(code: nat)

  class Pipe {
    const b: FixedBuffer
    var err: PipeError
    var breakErr: PipeError
    // whether code is to be run before the read error is first returned
    var readFn: bool

    ghost predicate Valid()
      reads this, b
    {
      b.Valid()
    }

    ghost function Contents(): seq<Byte>
      requires Valid()
      reads this, b, b.buf
    {
      b.Contents()
    }

    constructor (size: nat)
      ensures Valid() && fresh(b) && fresh(b.buf) && b.buf.Length == size
      ensures Contents() == [] && err == Nil && breakErr == Nil && !readFn
    {
      b := new FixedBuffer(size);
      err, breakErr, readFn := Nil, Nil, false;
    }

    /** A read that does not have to wait: a break shows at once, a close only when drained. */
    method Read(d: array<Byte>) returns (n: nat, e: PipeError)
      requires Valid() && d != b.buf
      requires breakErr != Nil || err != Nil || Contents() != []
      modifies this`readFn, b`r, b`w, d
      ensures Valid() && n <= d.Length
      ensures n == if breakErr != Nil then 0 else Min(d.Length, |old(Contents())|)
      ensures d[..n] == old(Contents())[..n] && Contents() == old(Contents())[n..]
      ensures e == if breakErr != Nil then breakErr else if old(Contents()) != [] then Nil else err
      ensures e != Nil ==> n == 0
      ensures readFn == (old(readFn) && (breakErr != Nil || old(Contents()) != []))
    {
      if breakErr != Nil { return 0, breakErr; }
      if b.Len() > 0 {
        var be;
        n, be := b.Read(d);
        return n, if be == NoError then Nil else Buffer(be);
      }
      readFn := false;
      return 0, err;
    }

    /** Nothing is written after a close; otherwise what the buffer takes. */
    method Write(d: seq<Byte>) returns (n: nat, e: PipeError)
      requires Valid()
      modifies b, b.buf
      ensures Valid()
      ensures n == if err != Nil then 0 else Min(|d|, b.buf.Length - |old(Contents())|)
      ensures e == if err != Nil then ClosedPipeWrite else if n < |d| then Buffer(WriteFull) else Nil
      ensures Contents() == old(Contents()) + d[..n]
    {
      if err != Nil { return 0, ClosedPipeWrite; }
      var be;
      n, be := b.Write(d);
      e := if be == NoError then Nil else Buffer(be);
    }

    /** The first close decides: later ones change nothing. */
    method CloseWithError(e: PipeError, fn: bool)
      requires e != Nil
      modifies this`err, this`readFn
      ensures err == if old(err) == Nil then e else old(err)
      ensures readFn == if old(err) == Nil then fn else old(readFn)
    {
      if err != Nil { return; }
      readFn := fn;
      err := e;
    }

    /** So does the first break; it drops the code that a close may have left to be run. */
    method BreakWithError(e: PipeError)
      requires e != Nil
      modifies this`breakErr, this`readFn
      ensures breakErr == if old(breakErr) == Nil then e else old(breakErr)
      ensures readFn == (old(breakErr) != Nil && old(readFn))
    {
      if breakErr != Nil { return; }
      readFn := false;
      breakErr := e;
    }
  }
}
