/** The resumable transmitter of one range: it fills the message body again and again. */
module Transmit {
  import opened Chunked
  import opened ResponseWriter
  import opened Results

  datatype Status = Sending | Done(outcome: Outcome) | IrrecoverableIoError

  class FileTransmitter {
    const socket: ServerSocket
    const file: string
    var position: nat
    var remaining: nat
    var body: string
    ghost var sent: seq<string>

    constructor (socket: ServerSocket, file: string, first: nat, length: nat, bufferSize: nat)
      ensures this.socket == socket && this.file == file
      ensures position == first && remaining == length && |body| == bufferSize && sent == []
    {
      this.socket, this.file := socket, file;
      position, remaining, sent := first, length, [];
      body := seq(bufferSize, _ => '\0');
    }

    /** One completion of a write: the next buffer, the end of the message, or a failed read. */
    method Process() returns (status: Status)
      requires |body| > 0
      modifies this, socket, socket.helper
      ensures old(remaining) == 0 ==>
                status == Done(Step(old(socket.View()), End).1) &&
                socket.View() == Step(old(socket.View()), End).0 &&
                position == old(position) && remaining == 0 && sent == old(sent)
      ensures old(remaining) > 0 && old(position) + Smaller(old(remaining), |old(body)|) > |file| ==>
                status == IrrecoverableIoError && socket.View() == old(socket.View()) && sent == old(sent)
      ensures old(remaining) > 0 && old(position) + Smaller(old(remaining), |old(body)|) <= |file| ==>
                var n := Smaller(old(remaining), |old(body)|);
                && status == Sending && position == old(position) + n && remaining == old(remaining) - n
                && body == file[old(position)..position]
                && socket.View() == Step(old(socket.View()), Write(Message([], body, []))).0
                && sent == old(sent) + [body]
      ensures |body| > 0
    {
      if remaining == 0 {
        var ec := socket.AsyncWriteEndOfMessage();
        return Done(ec);
      }
      var nextRead := Smaller(remaining, |body|);
      if position + nextRead > |file| {
        return IrrecoverableIoError;
      }
      body := file[position..position + nextRead] + body[nextRead..];
      position, remaining := position + nextRead, remaining - nextRead;
      if remaining == 0 {
        body := body[..nextRead];
      }
      var _ := socket.AsyncWrite(Message([], body, []));
      sent := sent + [body];
      return Sending;
    }
  }

  function Smaller(a: nat, b: nat): nat {
    if a < b then a else b
  }

  lemma ConcatSnoc(bodies: seq<string>, b: string, file: string, first: nat, from: nat, to: nat)
    requires first <= from < to <= |file|
    requires Concat(bodies) == file[first..from] && b == file[from..to]
    ensures Concat(bodies + [b]) == file[first..to]
    ensures Chunks(bodies + [b]) == Chunks(bodies) + Chunk(b)
  {
    hide Chunk, Chunks, Concat;
    ChunksSnoc(bodies, b);
    assert file[first..from] + file[from..to] == file[first..to];
  }

  /** Between two calls of Process: `base` was on the wire when the first buffer was filled. */
  ghost predicate InFlight(t: FileTransmitter, first: nat, length: nat, base: string)
    reads t, t.socket, t.socket.helper
  {
    && |t.body| > 0 && first <= t.position && t.position - first + t.remaining == length
    && (t.position > first ==> t.position <= |t.file|)
    && Concat(t.sent) == (if t.position == first then "" else t.file[first..t.position])
    && t.socket.View().state == MetadataIssued
    && t.socket.wire == base + Chunks(t.sent)
  }

  /** Calls Process on every completion until it calls the handler. */
  method Drive(t: FileTransmitter, first: nat, length: nat) returns (status: Status)
    requires InFlight(t, first, length, t.socket.wire) && t.position == first && length > 0
    modifies t, t.socket, t.socket.helper
    ensures first + length <= |t.file| ==>
              status == Done(Accepted) && t.socket.View().state == Finished &&
              t.socket.wire == old(t.socket.wire) + Chunks(t.sent) + "0\r\n\r\n" &&
              Concat(t.sent) == t.file[first..first + length]
    ensures first + length > |t.file| ==>
              status == IrrecoverableIoError && t.socket.View().state == MetadataIssued &&
              t.socket.wire == old(t.socket.wire) + Chunks(t.sent)
  {
    hide Chunks, Chunk, Concat;
    ghost var base := t.socket.wire;
    status := Sending;
    while true
      invariant InFlight(t, first, length, base)
      decreases t.remaining
    {
      ghost var before, from, wire := t.sent, t.position, t.socket.wire;
      ghost var n := Smaller(t.remaining, |t.body|);
      status := t.Process();
      if status != Sending {
        return;
      }
      assert t.body != "";
      if from == first {
        assert t.file[first..from] == "";
      }
      ConcatSnoc(before, t.body, t.file, first, from, t.position);
      assert base + Chunks(before) + Chunk(t.body) == base + (Chunks(before) + Chunk(t.body));
    }
  }

  /**
   * The answer to a satisfiable single range.  Behind an accepted head the recipient's decoder
   * finds exactly the bytes of the range; when the file ends before the range does, it finds
   * no complete body.  A refused head leaves the socket as it was.
   */
  method TransmitRange(socket: ServerSocket, file: string, first: nat, length: nat, bufferSize: nat,
                       headers: seq<Field>)
    returns (status: Status, ghost head: Sock)
    requires bufferSize > 0 && length > 0
    modifies socket, socket.helper
    ensures head == Step(old(socket.View()), Metadata(206, "Partial Content", Message(headers, "", []))).0
    ensures status == Done(OutOfOrder) || status == Done(NativeStreamUnsupported) <==>
            Step(old(socket.View()), Metadata(206, "Partial Content", Message(headers, "", []))).1 != Accepted
    ensures status == Done(OutOfOrder) || status == Done(NativeStreamUnsupported) ==>
              socket.View() == old(socket.View())
    ensures status == Done(Accepted) ==>
              first + length <= |file| && socket.View().state == Finished && head.wire <= socket.wire &&
              Decode(socket.wire[|head.wire|..]) == Some(Body(file[first..first + length], [], ""))
    ensures status == IrrecoverableIoError ==>
              first + length > |file| && head.wire <= socket.wire &&
              Decode(socket.wire[|head.wire|..]) == None
    ensures status != Sending
  {
    hide Chunks, Chunk, Concat, Decode, FieldLines, StartLine, ClosesIn, KeepAfter, SentHeaders;
    var ec := socket.AsyncWriteResponseMetadata(206, "Partial Content", Message(headers, "", []));
    head := socket.View();
    if ec != Accepted {
      return Done(ec), head;
    }
    var t := new FileTransmitter(socket, file, first, length, bufferSize);
    NothingSent(head.wire);
    status := Drive(t, first, length);
    ghost var tail := socket.wire[|head.wire|..];
    if first + length <= |file| {
      assert tail == Chunks(t.sent) + "0\r\n\r\n";
      Received(t.sent);
    } else {
      assert tail == Chunks(t.sent);
      NeverEarly(t.sent);
    }
  }

  lemma NothingSent(wire: string)
    ensures wire + Chunks([]) == wire && Concat([]) == ""
  {
  }

  lemma Received(bodies: seq<string>)
    ensures Decode(Chunks(bodies) + "0\r\n\r\n") == Some(Body(Concat(bodies), [], ""))
  {
    hide Decode, Chunks, Concat;
    assert Last([]) == "0\r\n\r\n" by { assert "0\r\n" + "" + CRLF == "0\r\n\r\n"; }
    RoundTrip(bodies, [], "");
    assert Chunks(bodies) + Last([]) + "" == Chunks(bodies) + Last([]);
  }
}
