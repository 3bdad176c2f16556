/** Frames on the wire, and the buffered reads that recover them however the stream is cut up. */
module Transport {
  import opened Common
  import opened Bytes
  import opened Framing

  datatype Failure = SocketClosed | FramingError(end: byte) | BadFrame

  const FRAME_END: byte := 0xce

  predicate Packable(f: Frame) { f.ftype < 0x100 && f.channel < 0x1_0000 && |f.payload| < 0x1_0000_0000 }

  /** `pack('>BHI%dsB')` of a frame. */
  function Wire(f: Frame): bytes {
    Be(f.ftype, 1) + Be(f.channel, 2) + Be(|f.payload|, 4) + f.payload + [FRAME_END]
  }

  function WireAll(fs: seq<Frame>): bytes
    decreases fs
  {
    if fs == [] then [] else Wire(fs[0]) + WireAll(fs[1..])
  }

  /** The frame at the front of a stream, and the stream behind it. */
  function Parse(stream: bytes): Result<(Frame, bytes), Failure> {
    if |stream| < 7 then Err(SocketClosed)
    else
      var size := UnBe(stream[3..7]);
      if |stream| < 8 + size then Err(SocketClosed)
      else if stream[7 + size] != FRAME_END then Err(FramingError(stream[7 + size]))
      else Ok((Frame(UnBe(stream[..1]), UnBe(stream[1..3]), stream[7..7 + size]), stream[8 + size..]))
  }

  function ParseMany(stream: bytes, n: nat): Result<(seq<Frame>, bytes), Failure>
  {
    if n == 0 then Ok(([], stream))
    else
      var (f, rest) :- Parse(stream);
      var (fs, end) :- ParseMany(rest, n - 1);
      Ok(([f] + fs, end))
  }

  lemma FrameRoundTrip(f: Frame, rest: bytes)
    requires Packable(f)
    ensures Parse(Wire(f) + rest) == Ok((f, rest))
  {
    var s := Wire(f) + rest;
    Widths();
    BeRoundTrip(f.ftype, 1);
    BeRoundTrip(f.channel, 2);
    BeRoundTrip(|f.payload|, 4);
    assert s[..1] == Be(f.ftype, 1);
    assert s[1..3] == Be(f.channel, 2);
    assert s[3..7] == Be(|f.payload|, 4);
    assert s[7..7 + |f.payload|] == f.payload;
    assert s[8 + |f.payload|..] == rest;
  }

  /** The octets of a frame: type, channel, size, payload, and 206 at the end. */
  lemma WireLayout(f: Frame)
    requires Packable(f)
    ensures var w := Wire(f);
      && |w| == |f.payload| + 8 && w[7..|w| - 1] == f.payload && w[|w| - 1] == 206
      && w[0] == f.ftype && Pair(w[1], w[2]) == f.channel
      && 0x1_0000 * Pair(w[3], w[4]) + Pair(w[5], w[6]) == |f.payload|
  {
    hide Be, UnBe, Pow256;
    var a, b, c := Be(f.ftype, 1), Be(f.channel, 2), Be(|f.payload|, 4);
    Widths();
    BeRoundTrip(f.ftype, 1);
    BeRoundTrip(f.channel, 2);
    BeRoundTrip(|f.payload|, 4);
    NetworkOrder(a);
    NetworkOrder(b);
    NetworkOrder(c);
  }

  /** A frame is parsed just where its octets stand at the front of the stream. */
  lemma ParseExactly(stream: bytes, f: Frame, rest: bytes)
    ensures Parse(stream) == Ok((f, rest)) <==> Packable(f) && stream == Wire(f) + rest
  {
    hide Be, UnBe, Pow256;
    if Packable(f) && stream == Wire(f) + rest { FrameRoundTrip(f, rest); }
    if Parse(stream) == Ok((f, rest)) {
      var size := UnBe(stream[3..7]);
      Widths();
      UnBeBound(stream[..1]);
      UnBeBound(stream[1..3]);
      UnBeBound(stream[3..7]);
      UnBeRoundTrip(stream[..1]);
      UnBeRoundTrip(stream[1..3]);
      UnBeRoundTrip(stream[3..7]);
      assert stream == stream[..1] + stream[1..3] + stream[3..7] + stream[7..7 + size] + [stream[7 + size]]
                       + stream[8 + size..];
    }
  }

  /** Another octet in the place of the end octet is the framing error; a stream that ends early is closed. */
  lemma ParseFails(f: Frame, end: byte, rest: bytes, n: nat)
    requires Packable(f)
    ensures end != 206 ==> Parse(Wire(f)[..|Wire(f)| - 1] + [end] + rest) == Err(FramingError(end))
    ensures n < |Wire(f)| ==> Parse(Wire(f)[..n]) == Err(SocketClosed)
  {
    hide Be, UnBe, Pow256;
    var w := Wire(f);
    var bad := w[..|w| - 1] + [end] + rest;
    Widths();
    BeRoundTrip(|f.payload|, 4);
    assert w[3..7] == Be(|f.payload|, 4) && bad[3..7] == w[3..7];
    if 7 <= n < |w| { assert w[..n][3..7] == w[3..7]; }
  }

  lemma ParseManyStep(stream: bytes, f: Frame, mid: bytes, fs: seq<Frame>, rest: bytes)
    requires Parse(stream) == Ok((f, mid)) && ParseMany(mid, |fs|) == Ok((fs, rest))
    ensures ParseMany(stream, |fs| + 1) == Ok(([f] + fs, rest))
  {
  }

  lemma WireCons(fs: seq<Frame>, rest: bytes)
    requires fs != []
    ensures WireAll(fs) + rest == Wire(fs[0]) + (WireAll(fs[1..]) + rest)
  {
    var w := Wire(fs[0]);
    assert (w + WireAll(fs[1..])) + rest == w + (WireAll(fs[1..]) + rest);
  }

  /** Frames written one after another are read back one after another. */
  lemma {:induction false} FramesRoundTrip(fs: seq<Frame>, rest: bytes)
    requires forall f | f in fs :: Packable(f)
    ensures ParseMany(WireAll(fs) + rest, |fs|) == Ok((fs, rest))
    decreases fs
  {
    if fs == [] {
      assert [] + rest == rest;
    } else {
      var mid, stream := WireAll(fs[1..]) + rest, WireAll(fs) + rest;
      FramesRoundTrip(fs[1..], rest);
      FrameRoundTrip(fs[0], mid);
      WireCons(fs, rest);
      ParseManyStep(stream, fs[0], mid, fs[1..], rest);
      assert fs == [fs[0]] + fs[1..];
    }
  }

  class TCPTransport {
    var readBuffer: bytes
    /** What the coming calls of `recv` return; an empty result means the peer has closed. */
    var incoming: seq<bytes>
    /** What has been handed to `sendall`. */
    var outgoing: bytes

    ghost predicate Valid()
      reads this
    {
      forall s | s in incoming :: 0 < |s| <= 65536
    }

    /** Everything not read yet, buffered or still to arrive. */
    ghost function Stream(): bytes
      reads this
    {
      readBuffer + Flatten(incoming)
    }

    constructor (incoming: seq<bytes>)
      requires forall s | s in incoming :: 0 < |s| <= 65536
      ensures Valid() && Stream() == Flatten(incoming) && outgoing == []
    {
      readBuffer, this.incoming, outgoing := [], incoming, [];
      new;
      assert [] + Flatten(incoming) == Flatten(incoming);
    }

    method Recv() returns (s: bytes)
      requires Valid()
      modifies this`incoming
      ensures Valid() && s + Flatten(incoming) == Flatten(old(incoming))
      ensures s == [] <==> old(incoming) == []
      ensures |incoming| == |old(incoming)| - (if s == [] then 0 else 1)
    {
      if incoming == [] {
        s := [];
      } else {
        s := incoming[0];
        incoming := incoming[1..];
      }
    }

    /** Exactly the next `n` octets of the stream, or an error and nothing lost when there are fewer. */
    method Read(n: nat) returns (r: Result<bytes, Failure>)
      requires Valid()
      modifies this`incoming, this`readBuffer
      ensures Valid()
      ensures if n <= |old(Stream())|
              then r == Ok(old(Stream())[..n]) && Stream() == old(Stream())[n..]
              else r == Err(SocketClosed) && Stream() == old(Stream())
    {
      while |readBuffer| < n
        invariant Valid() && Stream() == old(Stream())
        decreases |incoming|
      {
        ghost var buffered, coming := readBuffer, Flatten(incoming);
        var s := Recv();
        if s == [] {
          assert coming == [];
          return Err(SocketClosed);
        }
        readBuffer := readBuffer + s;
        assert (buffered + s) + Flatten(incoming) == buffered + coming;
      }
      ghost var all := readBuffer + Flatten(incoming);
      r := Ok(readBuffer[..n]);
      readBuffer := readBuffer[n..];
      assert all[..n] == r.value && all[n..] == readBuffer + Flatten(incoming);
    }

    /** The frame at the front of the stream; how the stream is cut into receives does not matter. */
    method ReadFrame() returns (r: Result<Frame, Failure>)
      requires Valid()
      modifies this`incoming, this`readBuffer
      ensures Valid()
      ensures match Parse(old(Stream()))
              case Ok((f, rest)) => r == Ok(f) && Stream() == rest
              case Err(e) => r == Err(e)
    {
      ghost var s := Stream();
      var head :- Read(7);
      var size := UnBe(head[3..7]);
      assert head[3..7] == s[3..7] && head[1..3] == s[1..3] && head[..1] == s[..1];
      var payload :- Read(size);
      assert payload == s[7..7 + size] && Stream() == s[7 + size..];
      var end :- Read(1);
      assert end[0] == s[7 + size] && Stream() == s[8 + size..];
      if end[0] == FRAME_END {
        r := Ok(Frame(UnBe(head[..1]), UnBe(head[1..3]), payload));
      } else {
        r := Err(FramingError(end[0]));
      }
    }

    method WriteFrame(f: Frame) returns (error: Option<Failure>)
      modifies this`outgoing
      ensures if Packable(f) then error == None && outgoing == old(outgoing) + Wire(f)
              else error == Some(BadFrame) && outgoing == old(outgoing)
    {
      if !Packable(f) { return Some(BadFrame); }
      outgoing := outgoing + Wire(f);
      error := None;
    }

    /** Reading `n` frames. */
    method ReadFrames(n: nat) returns (r: Result<seq<Frame>, Failure>)
      requires Valid()
      modifies this`incoming, this`readBuffer
      ensures Valid()
      ensures match ParseMany(old(Stream()), n)
              case Ok((fs, rest)) => r == Ok(fs) && Stream() == rest
              case Err(e) => r == Err(e)
    {
      if n == 0 { return Ok([]); }
      var f :- ReadFrame();
      var fs :- ReadFrames(n - 1);
      r := Ok([f] + fs);
    }
  }
}
