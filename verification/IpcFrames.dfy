/** Length-prefixed frames: the encoder of cli/src/ipc.rs and the streaming decoder of mcp/src/db.ts. */
module IpcFrames {
  import opened Numbers
  import opened Sequences

  /** `n as u32` in big-endian order; higher bits are lost. */
  function BeBytes(n: nat): (r: seq<Byte>)
    ensures |r| == 4
  {
    [n / 0x100_0000 % 256, n / 0x1_0000 % 256, n / 0x100 % 256, n % 256]
  }

  /** `readUInt32BE(0)`. */
  function FromBe(b: seq<Byte>): nat
    requires |b| >= 4
  {
    0x100_0000 * (b[0] as nat) + 0x1_0000 * (b[1] as nat) + 0x100 * (b[2] as nat) + (b[3] as nat)
  }

  lemma BeRoundTrip(n: nat)
    ensures FromBe(BeBytes(n)) == n % U32
  {
    var a, b, c := n / 0x100, n / 0x1_0000, n / 0x100_0000;
    assert n == 0x100 * a + n % 256;
    assert a / 0x100 == b && b / 0x100 == c;
    assert a == 0x100 * b + a % 256 && b == 0x100 * c + b % 256;
    assert c == 256 * (c / 256) + c % 256;
    assert n == U32 * (c / 256) + FromBe(BeBytes(n));
  }

  /** The most significant byte comes first, and a length of 2^32 is written as 0. */
  lemma BigEndian()
    ensures BeBytes(0x0102_0304) == [1, 2, 3, 4] && BeBytes(0x1_0000_0000) == [0, 0, 0, 0]
  {
  }

  /** `framed`. */
  function Framed(body: seq<Byte>): seq<Byte> {
    BeBytes(|body|) + body
  }

  datatype Parsed = Parsed(bodies: seq<seq<Byte>>, rest: seq<Byte>)

  /** The buffer starts with a whole frame. */
  predicate Whole(buf: seq<Byte>) {
    |buf| >= 4 && |buf| >= 4 + FromBe(buf)
  }

  /** All whole frames at the front of a buffer, and what is left. */
  function Parse(buf: seq<Byte>): (p: Parsed)
    ensures !Whole(p.rest)
    decreases |buf|
  {
    if !Whole(buf) then Parsed([], buf)
    else
      var len := FromBe(buf);
      var p := Parse(buf[4 + len..]);
      Parsed([buf[4..4 + len]] + p.bodies, p.rest)
  }

  lemma FromBePrefix(a: seq<Byte>, b: seq<Byte>)
    requires |a| >= 4
    ensures FromBe(a + b) == FromBe(a)
  {
  }

  /** More bytes do not change the frame at the front. */
  lemma WholeExtends(a: seq<Byte>, b: seq<Byte>)
    requires Whole(a)
    ensures Whole(a + b) && FromBe(a + b) == FromBe(a)
    ensures (a + b)[4..4 + FromBe(a)] == a[4..4 + FromBe(a)]
    ensures (a + b)[4 + FromBe(a)..] == a[4 + FromBe(a)..] + b
  {
    FromBePrefix(a, b);
  }

  /** Parsing a stream in two pieces gives what parsing it whole gives. */
  lemma {:induction false} ParseInPieces(a: seq<Byte>, b: seq<Byte>)
    ensures
      var p := Parse(a);
      var q := Parse(p.rest + b);
      Parse(a + b) == Parsed(p.bodies + q.bodies, q.rest)
    decreases |a|
  {
    if !Whole(a) {
      Empties(Parse(a + b).bodies);
    } else {
      var first, rest := a[4..4 + FromBe(a)], a[4 + FromBe(a)..];
      WholeExtends(a, b);
      ParseInPieces(rest, b);
      Assoc([first], Parse(rest).bodies, Parse(Parse(rest).rest + b).bodies);
    }
  }

  lemma HeaderRead(h: seq<Byte>, body: seq<Byte>, tail: seq<Byte>)
    requires |h| == 4
    ensures FromBe(h + body + tail) == FromBe(h)
  {
  }

  lemma HeaderSlices(h: seq<Byte>, body: seq<Byte>, tail: seq<Byte>)
    requires |h| == 4
    ensures (h + body + tail)[4..4 + |body|] == body && (h + body + tail)[4 + |body|..] == tail
  {
  }

  lemma HeaderParses(h: seq<Byte>, body: seq<Byte>, tail: seq<Byte>)
    requires |h| == 4 && FromBe(h) == |body|
    ensures Parse(h + body + tail) == Parsed([body] + Parse(tail).bodies, Parse(tail).rest)
  {
    HeaderRead(h, body, tail);
    HeaderSlices(h, body, tail);
  }

  /** A frame of a body that fits is parsed off whole. */
  lemma FrameParses(body: seq<Byte>, tail: seq<Byte>)
    requires |body| < U32
    ensures Parse(Framed(body) + tail) == Parsed([body] + Parse(tail).bodies, Parse(tail).rest)
  {
    BeRoundTrip(|body|);
    HeaderParses(BeBytes(|body|), body, tail);
  }

  function Stream(bodies: seq<seq<Byte>>): seq<Byte> {
    if bodies == [] then [] else Framed(bodies[0]) + Stream(bodies[1..])
  }

  lemma {:induction false} StreamParses(bodies: seq<seq<Byte>>, tail: seq<Byte>)
    requires forall i :: 0 <= i < |bodies| ==> |bodies[i]| < U32
    ensures Parse(Stream(bodies) + tail) == Parsed(bodies + Parse(tail).bodies, Parse(tail).rest)
  {
    if bodies == [] {
      Empties(tail);
      Empties(Parse(tail).bodies);
    } else {
      var rest := Stream(bodies[1..]) + tail;
      Assoc(Framed(bodies[0]), Stream(bodies[1..]), tail);
      FrameParses(bodies[0], rest);
      StreamParses(bodies[1..], tail);
      Assoc([bodies[0]], bodies[1..], Parse(tail).bodies);
      assert [bodies[0]] + bodies[1..] == bodies;
    }
  }

  /** What a connection delivers when its stream arrives in these chunks, starting from a buffer. */
  function Fed(buf: seq<Byte>, chunks: seq<seq<Byte>>): Parsed
    decreases |chunks|
  {
    if chunks == [] then Parsed([], buf)
    else
      var p := Parse(buf + chunks[0]);
      var q := Fed(p.rest, chunks[1..]);
      Parsed(p.bodies + q.bodies, q.rest)
  }

  function Flatten(chunks: seq<seq<Byte>>): seq<Byte> {
    if chunks == [] then [] else chunks[0] + Flatten(chunks[1..])
  }

  /** The cuts between chunks do not matter. */
  lemma {:induction false} ChunksDoNotMatter(buf: seq<Byte>, chunks: seq<seq<Byte>>)
    requires !Whole(buf)
    ensures Fed(buf, chunks) == Parse(buf + Flatten(chunks))
    decreases |chunks|
  {
    if chunks == [] {
      Empties(buf);
    } else {
      var p := Parse(buf + chunks[0]);
      ChunksDoNotMatter(p.rest, chunks[1..]);
      ParseInPieces(buf + chunks[0], Flatten(chunks[1..]));
      Assoc(buf, chunks[0], Flatten(chunks[1..]));
    }
  }

  /** However the frames of these bodies and the start of another frame are cut into chunks, a fresh
      connection delivers exactly the bodies, in order, and keeps the start of the other frame. */
  lemma EveryBodyArrives(bodies: seq<seq<Byte>>, tail: seq<Byte>, chunks: seq<seq<Byte>>)
    requires forall i :: 0 <= i < |bodies| ==> |bodies[i]| < U32
    requires !Whole(tail) && Flatten(chunks) == Stream(bodies) + tail
    ensures Fed([], chunks) == Parsed(bodies, tail)
  {
    ChunksDoNotMatter([], chunks);
    StreamParses(bodies, tail);
    assert [] + Flatten(chunks) == Flatten(chunks) && bodies + [] == bodies;
  }

  /** A frame is read back exactly when the length of its body fits the header. */
  lemma FrameReadBackIff(body: seq<Byte>)
    ensures Parse(Framed(body)) == Parsed([body], []) <==> |body| < U32
  {
    var buf := Framed(body);
    if |body| < U32 {
      FrameParses(body, []);
      assert buf + [] == buf;
    } else {
      BeRoundTrip(|body|);
      FromBePrefix(BeBytes(|body|), body);
      assert Parse(buf).bodies != [] ==> |Parse(buf).bodies[0]| < U32;
    }
  }

  lemma HeaderRebuilt(b: seq<Byte>)
    requires |b| >= 4
    ensures FromBe(b) < U32 && BeBytes(FromBe(b)) == b[..4]
  {
    var w, x, y, z := b[0] as nat, b[1] as nat, b[2] as nat, b[3] as nat;
    var n := FromBe(b);
    assert n / 0x100 == 0x1_0000 * w + 0x100 * x + y && n % 256 == z;
    assert n / 0x1_0000 == 0x100 * w + x && n / 0x100 % 256 == y;
    assert n / 0x100_0000 == w && n / 0x1_0000 % 256 == x;
  }

  lemma SplitThree<T>(s: seq<T>, i: nat, j: nat)
    requires i <= j <= |s|
    ensures s[..i] + s[i..j] + s[j..] == s
  {
  }

  /** Framing the front frame's body gives its bytes back. */
  lemma FrameRebuilt(buf: seq<Byte>)
    requires Whole(buf)
    ensures Framed(buf[4..4 + FromBe(buf)]) + buf[4 + FromBe(buf)..] == buf
  {
    HeaderRebuilt(buf);
    SplitThree(buf, 4, 4 + FromBe(buf));
  }

  lemma StreamCons(body: seq<Byte>, bodies: seq<seq<Byte>>)
    ensures Stream([body] + bodies) == Framed(body) + Stream(bodies)
  {
    assert ([body] + bodies)[1..] == bodies;
  }

  /** Nothing is lost or invented: framing what was parsed and adding the rest gives the buffer back. */
  lemma {:induction false} ParseIsExact(buf: seq<Byte>)
    ensures Stream(Parse(buf).bodies) + Parse(buf).rest == buf
    decreases |buf|
  {
    if !Whole(buf) {
      Empties(buf);
    } else {
      var body, tail := buf[4..4 + FromBe(buf)], buf[4 + FromBe(buf)..];
      ParseIsExact(tail);
      FrameRebuilt(buf);
      StreamCons(body, Parse(tail).bodies);
      Assoc(Framed(body), Stream(Parse(tail).bodies), Parse(tail).rest);
    }
  }

  lemma LengthAdds<T>(a: seq<T>, b: seq<T>)
    ensures a + b == b <==> a == []
  {
    assert |a + b| == |a| + |b|;
  }

  /** The buffer outlives its connection: the next one delivers exactly its own frames if and only if the
      last one left nothing behind. */
  lemma ReconnectIff(left: seq<Byte>, bodies: seq<seq<Byte>>, chunks: seq<seq<Byte>>)
    requires !Whole(left) && Flatten(chunks) == Stream(bodies)
    requires forall i :: 0 <= i < |bodies| ==> |bodies[i]| < U32
    ensures Fed(left, chunks) == Parsed(bodies, []) <==> left == []
  {
    ChunksDoNotMatter(left, chunks);
    ParseIsExact(left + Flatten(chunks));
    Empties(Stream(bodies));
    LengthAdds(left, Stream(bodies));
    if left == [] {
      EveryBodyArrives(bodies, [], chunks);
    }
  }
}
