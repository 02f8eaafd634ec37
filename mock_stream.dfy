/** The in-memory stream of src/mock_stream.rs: a read buffer with a cursor and an append-only write buffer. */
module MockStreams {
  import opened Base
  import opened Errors
  import Transport

  const MockErrorText := "MockStream Error"
  const EofText := "EOF"

  class MockStream {
    var readBuf: Bytes
    var readPos: nat
    var writtenBuf: Bytes
    var errOnRead: bool

    ghost predicate Valid()
      reads this
    {
      readPos <= |readBuf|
    }

    /** `MockStream::new`. */
    constructor (readBuf: Bytes)
      ensures Valid()
      ensures this.readBuf == readBuf && readPos == 0 && writtenBuf == [] && !errOnRead
    {
      this.readBuf := readBuf;
      readPos := 0;
      writtenBuf := [];
      errOnRead := false;
    }

    /** `MockStream::new_err`: like `new([])`, except that every read fails. */
    constructor NewErr()
      ensures Valid()
      ensures readBuf == [] && readPos == 0 && writtenBuf == [] && errOnRead
    {
      readBuf := [];
      readPos := 0;
      writtenBuf := [];
      errOnRead := true;
    }

    /** `Read::read`: fails with `Other` when reads are set to fail, with
        `UnexpectedEof` at the end of the buffer, and otherwise copies the next
        `min(buf.len, remaining)` octets into the front of `buf`. */
    method Read(buf: array<byte>) returns (r: Outcome<nat>)
      requires Valid()
      modifies this`readPos, buf
      ensures Valid()
      ensures readBuf == old(readBuf) && writtenBuf == old(writtenBuf) && errOnRead == old(errOnRead)
      ensures old(errOnRead) ==> r == Err(Io(IoError(Other, MockErrorText, MockErrorText)))
      ensures !old(errOnRead) && old(readPos) >= |readBuf| ==> r == Err(Io(IoError(UnexpectedEof, EofText, EofText)))
      ensures !r.Ok? ==> readPos == old(readPos) && buf[..] == old(buf[..])
      ensures !old(errOnRead) && old(readPos) < |readBuf| ==>
        var n := if buf.Length < |readBuf| - old(readPos) then buf.Length else |readBuf| - old(readPos);
        && r == Ok(n)
        && readPos == old(readPos) + n
        && buf[..n] == readBuf[old(readPos)..readPos]
        && buf[n..] == old(buf[n..])
    {
      if errOnRead {
        return Err(Io(IoError(Other, MockErrorText, MockErrorText)));
      }
      if readPos >= |readBuf| {
        return Err(Io(IoError(UnexpectedEof, EofText, EofText)));
      }
      var start := readPos;
      var writeLen := if buf.Length < |readBuf| - start then buf.Length else |readBuf| - start;
      var maxPos := start + writeLen;
      for x := start to maxPos
        invariant forall i | 0 <= i < x - start :: buf[i] == readBuf[start + i]
        invariant forall i | x - start <= i < buf.Length :: buf[i] == old(buf[i])
      {
        buf[x - start] := readBuf[x];
      }
      assert buf[..writeLen] == readBuf[start..maxPos];
      readPos := start + writeLen;
      r := Ok(writeLen);
    }

    /** `Write::write`: appends all of `buf` and reports its length. */
    method Write(buf: Bytes) returns (r: Outcome<nat>)
      modifies this`writtenBuf
      ensures writtenBuf == old(writtenBuf) + buf
      ensures r == Ok(|buf|)
    {
      writtenBuf := writtenBuf + buf;
      r := Ok(|buf|);
    }

    /** `Write::flush` succeeds and changes nothing. */
    method Flush() returns (r: Outcome<()>)
      ensures r == Ok(())
    {
      r := Ok(());
    }

    /** How a buffered reader over this stream presents it to `readline`: the
        unread octets, then the error every further read reports. */
    function AsWire(): (w: Transport.Wire)
      reads this
      requires Valid()
      ensures errOnRead ==> w.incoming == []
      ensures !errOnRead ==> Transport.Octets(w.incoming) == readBuf[readPos..]
      ensures w.ending.Broken?
    {
      if errOnRead then
        Transport.Wire([], Transport.Broken(IoError(Other, MockErrorText, MockErrorText)))
      else
        Transport.Wire(Transport.OctetArrivals(readBuf[readPos..]), Transport.Broken(IoError(UnexpectedEof, EofText, EofText)))
    }
  }

  /** A read buffer that ends without a reported end of file: the last line
      of a `MockStream` is followed by `UnexpectedEof`, so reading past it
      yields an `Io` error, never `ConnectionLost`. */
  lemma {:induction false} MockStreamNeverLosesConnection(s: Bytes, err: bool, debug: bool)
    ensures var w := if err then Transport.Wire([], Transport.Broken(IoError(Other, MockErrorText, MockErrorText)))
                     else Transport.Wire(Transport.OctetArrivals(s), Transport.Broken(IoError(UnexpectedEof, EofText, EofText)));
            Transport.ReadLine(w, debug).result != Err(ConnectionLost)
  {
  }
}
