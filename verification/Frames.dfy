/** The wire format of the echo protocol: a four-byte native (little-endian) signed
    length followed by that many payload bytes, and what a byte stream means in it. */
module Frames {
  import opened Coding

  const HEADER_LEN: nat := 4
  const READ_BUFFER_SIZE: nat := 1024 * 1024

  /** The `int` that the first four bytes hold. */
  function RequestLen(bs: Bytes): (len: int)
    requires |bs| >= HEADER_LEN
    ensures -0x8000_0000 <= len < 0x8000_0000
  {
    ValueBound(bs[..HEADER_LEN]);
    RadixValues();
    var raw := Value(bs[..HEADER_LEN]);
    if raw < 0x8000_0000 then raw else raw - 0x1_0000_0000
  }

  /** The header is that number as four bytes, in two's complement. */
  lemma RequestLenIs(bs: Bytes)
    requires |bs| >= HEADER_LEN
    ensures
      var len := RequestLen(bs);
      bs[..HEADER_LEN] == Fixed(if len >= 0 then len else len + 0x1_0000_0000, HEADER_LEN)
  {
    var header := bs[..HEADER_LEN];
    FixedOfValue(header);
    ValueBound(header);
    RadixValues();
    var raw: int := Value(header);
    assert |header| == HEADER_LEN;
    assert RequestLen(bs) == if raw < 0x8000_0000 then raw else raw - 0x1_0000_0000;
  }

  /** The lengths the server can echo. */
  predicate GoodLen(len: int) {
    1 <= len && len + HEADER_LEN <= READ_BUFFER_SIZE
  }

  predicate GoodHeader(bs: Bytes) {
    |bs| >= HEADER_LEN && GoodLen(RequestLen(bs))
  }

  /** `bs` begins with a header that the server rejects. */
  predicate Rejects(bs: Bytes) {
    |bs| >= HEADER_LEN && !GoodLen(RequestLen(bs))
  }

  /** `bs` begins with a whole frame. */
  predicate HasFrame(bs: Bytes) {
    GoodHeader(bs) && |bs| >= HEADER_LEN + RequestLen(bs)
  }

  /** `bs` could still grow into a frame: a short header, or a good header and a short payload. */
  predicate Partial(bs: Bytes) {
    |bs| < HEADER_LEN || (GoodHeader(bs) && |bs| < HEADER_LEN + RequestLen(bs))
  }

  /** Every stream begins in one of three ways. */
  lemma FrameKinds(bs: Bytes)
    ensures Partial(bs) <==> !HasFrame(bs) && !Rejects(bs)
    ensures !(HasFrame(bs) && Rejects(bs))
  {
  }

  /** `bs` is exactly one frame. */
  predicate IsFrame(bs: Bytes) {
    HasFrame(bs) && |bs| == HEADER_LEN + RequestLen(bs)
  }

  /** The payloads of the whole frames at the head of a stream, up to the first header
      that the server rejects. */
  function Decode(bs: Bytes): seq<Bytes> {
    if HasFrame(bs) then
      var end := HEADER_LEN + RequestLen(bs);
      [bs[HEADER_LEN..end]] + Decode(bs[end..])
    else []
  }

  /** What is left of a stream after those frames. */
  function Rest(bs: Bytes): Bytes {
    if HasFrame(bs) then Rest(bs[HEADER_LEN + RequestLen(bs)..]) else bs
  }

  /** The request a client sends for `payload`. */
  function Frame(payload: Bytes): Bytes {
    Fixed(|payload|, HEADER_LEN) + payload
  }

  function Request(payloads: seq<Bytes>): Bytes {
    if payloads == [] then [] else Frame(payloads[0]) + Request(payloads[1..])
  }

  lemma HeaderStable(bs: Bytes, more: Bytes)
    requires |bs| >= HEADER_LEN
    ensures RequestLen(bs + more) == RequestLen(bs)
  {
    assert (bs + more)[..HEADER_LEN] == bs[..HEADER_LEN];
  }

  /** Decoding is incremental: a stream may be cut anywhere, and decoding the undecoded
      remainder with what arrives later gives the same frames. */
  lemma {:induction false} DecodeExtend(bs: Bytes, more: Bytes)
    ensures Decode(bs + more) == Decode(bs) + Decode(Rest(bs) + more)
    ensures Rest(bs + more) == Rest(Rest(bs) + more)
    decreases |bs|
  {
    if HasFrame(bs) {
      HeaderStable(bs, more);
      var end := HEADER_LEN + RequestLen(bs);
      assert (bs + more)[HEADER_LEN..end] == bs[HEADER_LEN..end];
      assert (bs + more)[end..] == bs[end..] + more;
      DecodeExtend(bs[end..], more);
    }
  }

  lemma DecodeOneFrame(bs: Bytes)
    requires IsFrame(bs)
    ensures Decode(bs) == [bs[HEADER_LEN..]] && Rest(bs) == []
  {
    DecodeFirst(bs, bs[HEADER_LEN..], []);
    NothingDecoded();
  }

  /** Decoding one frame off the front. */
  lemma DecodeFirst(bs: Bytes, payload: Bytes, tail: Bytes)
    requires HasFrame(bs) && |payload| == RequestLen(bs) && bs[HEADER_LEN..] == payload + tail
    ensures Decode(bs) == [payload] + Decode(tail) && Rest(bs) == Rest(tail)
  {
    var end := HEADER_LEN + RequestLen(bs);
    Cut(payload, tail);
    assert bs[HEADER_LEN..end] == bs[HEADER_LEN..][..|payload|] && bs[end..] == bs[HEADER_LEN..][|payload|..];
  }

  lemma NothingDecoded()
    ensures Decode([]) == [] && Rest([]) == []
  {
    assert !HasFrame([]);
  }

  /** Every stream of requests within the size limit decodes to exactly its payloads. */
  lemma {:induction false} DecodeRequest(payloads: seq<Bytes>)
    requires forall p :: p in payloads ==> GoodLen(|p|)
    ensures Decode(Request(payloads)) == payloads
    ensures Rest(Request(payloads)) == []
  {
    if payloads == [] {
      assert !HasFrame([]);
    } else {
      var p := payloads[0];
      assert p in payloads;
      FrameAhead(p, Request(payloads[1..]));
      DecodeRequest(payloads[1..]);
    }
  }

  /** A frame is found at the head of whatever it is followed by. */
  lemma FrameAhead(p: Bytes, tail: Bytes)
    requires GoodLen(|p|)
    ensures var bs := Frame(p) + tail; var end := HEADER_LEN + |p|;
      && HasFrame(bs) && RequestLen(bs) == |p| && bs[HEADER_LEN..end] == p && bs[end..] == tail
  {
    var header := Fixed(|p|, HEADER_LEN);
    Cut3(header, p, tail);
    RadixValues();
    FixedRoundTrip(|p|, HEADER_LEN);
  }

  /** Once the remainder has a rejected header, no later byte adds a frame. */
  lemma DeadStream(bs: Bytes, more: Bytes)
    requires !Partial(Rest(bs))
    ensures Decode(bs + more) == Decode(bs)
  {
    RestHasNoFrame(bs);
    HeaderStable(Rest(bs), more);
    DecodeExtend(bs, more);
  }

  lemma {:induction false} RestHasNoFrame(bs: Bytes)
    ensures !HasFrame(Rest(bs))
    decreases |bs|
  {
    if HasFrame(bs) {
      RestHasNoFrame(bs[HEADER_LEN + RequestLen(bs)..]);
    }
  }

  /** What a whole stream decodes to extends what any prefix of it decodes to. */
  lemma EchoMonotone(bs: Bytes, more: Bytes)
    ensures Decode(bs) <= Decode(bs + more)
    ensures Concat(Decode(bs)) <= Concat(Decode(bs + more))
  {
    DecodeExtend(bs, more);
    ConcatPlus(Decode(bs), Decode(Rest(bs) + more));
  }
}
