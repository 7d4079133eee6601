/**
 * The streaming frame parser of cli/src/msgpack_rpc.rs: `MsgPackCodec::decode` over a growing
 * buffer, and the loop of `start_msgpack_rpc` that drains every complete frame after each read.
 */
module FrameParser {
  import opened Prelude
  import opened MessagePack

  datatype Message = Message(obj: Value, vec: Bytes)

  // One call of the decoder.
  datatype Outcome = Frame(message: Message) | NeedMore | InvalidData

  // What a drained buffer yields. After bad data the connection is given up.
  datatype Drained = Drained(frames: seq<Message>, rest: Bytes, bad: bool)

  function Drain(s: Bytes): Drained {
    match Decode(s)
    case Incomplete => Drained([], s, false)
    case Bad => Drained([], s, true)
    case Ok(obj, len) => var d := Drain(s[len..]); d.(frames := [Message(obj, s[..len])] + d.frames)
  }

  lemma DrainStep(s: Bytes)
    ensures Decode(s).Incomplete? ==> Drain(s) == Drained([], s, false)
    ensures Decode(s).Bad? ==> Drain(s) == Drained([], s, true)
    ensures Decode(s).Ok? ==>
      var first, more := Message(Decode(s).value, s[..Decode(s).len]), Drain(s[Decode(s).len..]);
      Drain(s) == Drained([first] + more.frames, more.rest, more.bad)
  {
    hide Decode;
  }

  // Reads arriving one after the other, each drained before the next.
  function Receive(buf: Bytes, chunks: seq<Bytes>): Drained
    decreases |chunks|
  {
    if chunks == [] then Drained([], buf, false)
    else
      var d := Drain(buf + chunks[0]);
      if d.bad then d
      else var r := Receive(d.rest, chunks[1..]); r.(frames := d.frames + r.frames)
  }

  class MsgPackCodec {
    var buf: Bytes

    constructor ()
      ensures buf == []
    {
      buf := [];
    }

    method DecodeFrame() returns (r: Outcome)
      modifies this
      ensures match Decode(old(buf))
        case Ok(obj, len) => r == Frame(Message(obj, old(buf)[..len])) && buf == old(buf)[len..]
        case Incomplete => r == NeedMore && buf == old(buf)
        case Bad => r == InvalidData && buf == old(buf)
    {
      match Decode(buf)
      case Incomplete => r := NeedMore;
      case Bad => r := InvalidData;
      case Ok(obj, len) =>
        r := Frame(Message(obj, buf[..len]));
        buf := buf[len..];
    }

    // The read branch: append what was read, then take frames until one is incomplete or bad.
    method ReadBranch(read: Bytes) returns (frames: seq<Message>, bad: bool)
      modifies this
      ensures Drained(frames, buf, bad) == Drain(old(buf) + read)
    {
      buf := buf + read;
      ghost var all := buf;
      frames, bad := [], false;
      while true
        invariant !bad
        invariant Drain(all) == Drain(buf).(frames := frames + Drain(buf).frames)
        decreases |buf|
      {
        var r := DecodeFrame();
        if r.Frame? {
          frames := frames + [r.message];
        } else {
          bad := r.InvalidData?;
          break;
        }
      }
    }
  }

  function Vecs(frames: seq<Message>): seq<Bytes> {
    if frames == [] then [] else [frames[0].vec] + Vecs(frames[1..])
  }

  // Frames and leftover together are the input.
  lemma {:induction false} NothingIsLost(s: Bytes)
    ensures Flatten(Vecs(Drain(s).frames)) + Drain(s).rest == s
    decreases |s|
  {
    hide Decode;
    if Decode(s).Ok? {
      var len := Decode(s).len;
      var tail := Drain(s[len..]);
      NothingIsLost(s[len..]);
      assert Vecs(Drain(s).frames) == [s[..len]] + Vecs(tail.frames) by { assert Drain(s).frames[1..] == tail.frames; }
      assert Flatten([s[..len]] + Vecs(tail.frames)) == s[..len] + Flatten(Vecs(tail.frames)) by {
        assert ([s[..len]] + Vecs(tail.frames))[1..] == Vecs(tail.frames);
      }
      assert s[..len] + (Flatten(Vecs(tail.frames)) + tail.rest) == s;
    }
  }

  // Each frame takes at least one byte and decodes on its own to its value, and the leftover is
  // incomplete, or bad if the drain said so.
  lemma {:induction false} FramesDecodeAlone(s: Bytes)
    ensures forall m :: m in Drain(s).frames ==> m.vec != [] && Decode(m.vec) == Ok(m.obj, |m.vec|)
    ensures Decode(Drain(s).rest) == if Drain(s).bad then Bad else Incomplete
    decreases |s|
  {
    hide Decode;
    if Decode(s).Ok? {
      var len := Decode(s).len;
      FramesDecodeAlone(s[len..]);
      DecodeIsLocal(s, len);
    }
  }

  // ---------------------------------------------------------------------------------------------
  // Chunking

  // Draining early changes nothing: what is left over continues as if it had never been drained.
  lemma {:induction false} DrainInTwo(s: Bytes, more: Bytes)
    ensures var d := Drain(s);
      if d.bad then Drain(s + more).bad && Drain(s + more).frames == d.frames
      else var r := Drain(d.rest + more); Drain(s + more) == r.(frames := d.frames + r.frames)
    decreases |s|
  {
    hide Decode;
    if !Decode(s).Incomplete? { DecodeIsStable(s, more); }
    if Decode(s).Ok? {
      var len := Decode(s).len;
      DrainInTwo(s[len..], more);
      assert (s + more)[len..] == s[len..] + more && (s + more)[..len] == s[..len];
    }
  }

  lemma {:induction false} ReceiveIsDrain(buf: Bytes, chunks: seq<Bytes>)
    requires Decode(buf).Incomplete?
    ensures var r, d := Receive(buf, chunks), Drain(buf + Flatten(chunks));
      r.frames == d.frames && r.bad == d.bad && (!r.bad ==> r.rest == d.rest)
    decreases |chunks|
  {
    if chunks == [] {
      assert buf + Flatten(chunks) == buf;
    } else {
      var d := Drain(buf + chunks[0]);
      assert buf + Flatten(chunks) == (buf + chunks[0]) + Flatten(chunks[1..]);
      DrainInTwo(buf + chunks[0], Flatten(chunks[1..]));
      FramesDecodeAlone(buf + chunks[0]);
      if !d.bad { ReceiveIsDrain(d.rest, chunks[1..]); }
    }
  }

  // Any two ways of cutting the same bytes into reads give the same frames and the same verdict,
  // and as long as the data is good the same leftover; frames and leftover are the bytes received.
  lemma CuttingDoesNotMatter(chunks: seq<Bytes>, chunks': seq<Bytes>)
    requires Flatten(chunks) == Flatten(chunks')
    ensures var r, r' := Receive([], chunks), Receive([], chunks');
      && r.frames == r'.frames && r.bad == r'.bad
      && (!r.bad ==> r.rest == r'.rest && Flatten(Vecs(r.frames)) + r.rest == Flatten(chunks))
  {
    ReceiveIsDrain([], chunks);
    ReceiveIsDrain([], chunks');
    assert [] + Flatten(chunks) == Flatten(chunks);
    NothingIsLost(Flatten(chunks));
  }

  // Encoding messages, cutting the concatenation anywhere, and decoding returns the messages with
  // their exact bytes and nothing left over.
  lemma MessagesArriveIntact(messages: seq<Value>, chunks: seq<Bytes>)
    requires forall i :: 0 <= i < |messages| ==> WellFormed(messages[i])
    requires Flatten(chunks) == EncodeMany(messages)
    ensures Receive([], chunks) ==
      Drained(seq(|messages|, i requires 0 <= i < |messages| => Message(messages[i], Encode(messages[i]))), [], false)
  {
    ReceiveIsDrain([], chunks);
    assert [] + Flatten(chunks) == Flatten(chunks);
    DrainEncoded(messages);
  }

  lemma {:induction false} DrainEncoded(messages: seq<Value>)
    requires forall i :: 0 <= i < |messages| ==> WellFormed(messages[i])
    ensures Drain(EncodeMany(messages)) ==
      Drained(seq(|messages|, i requires 0 <= i < |messages| => Message(messages[i], Encode(messages[i]))), [], false)
    decreases |messages|
  {
    if messages == [] {
    } else {
      var first, rest := Encode(messages[0]), EncodeMany(messages[1..]);
      RoundTrip(messages[0], rest);
      assert (first + rest)[..|first|] == first && (first + rest)[|first|..] == rest;
      DrainEncoded(messages[1..]);
    }
  }
}
