/**
 The minimum frame size of the protocol is the size of the largest walk request
 of sixteen names of 256 bytes.
 */
module Bounds {
  import opened Bytes
  import opened Fields
  import opened Messages
  import opened Framing
  import opened Streams
  import opened Refinement

  const MIN_MESSAGE_SIZE := 4145
  const MAX_WALK := 16
  const MAX_NAME := 256

  predicate OrdinaryPath(p: Path) {
    |p| <= MAX_WALK && forall i | 0 <= i < |p| :: |p[i]| <= MAX_NAME
  }

  lemma {:induction false} TextsBound(ss: seq<Text>)
    requires forall i | 0 <= i < |ss| :: |ss[i]| <= MAX_NAME
    ensures |EncodeTexts(ss)| <= (2 + MAX_NAME) * |ss|
    ensures (forall i | 0 <= i < |ss| :: |ss[i]| == MAX_NAME) ==> |EncodeTexts(ss)| == (2 + MAX_NAME) * |ss|
  {
    if ss != [] {
      assert forall i | 0 <= i < |ss| - 1 :: ss[1..][i] == ss[i + 1];
      assert |ss[0]| <= MAX_NAME;
      TextsBound(ss[1..]);
    }
  }

  lemma WalkPayloadSize(fid: u32, newfid: u32, p: Path)
    ensures |RequestPayload(Base(TWalk(fid, newfid, p)))| == 10 + |EncodeTexts(p)|
  {
    hide EncodeTexts;
    var fields := [V32(fid), V32(newfid)];
    assert RequestFields(Base(TWalk(fid, newfid, p))) == fields + [VPath(p)];
    PathFieldPayload(fields, p);
    EncodeSnoc([V32(fid)], V32(newfid));
    EncodeSnoc([], V32(fid));
    assert [] + [V32(fid)] == [V32(fid)] && [V32(fid)] + [V32(newfid)] == fields;
  }

  /** A path of sixteen names of 256 bytes. */
  function LargestPath(): (p: Path)
    ensures OrdinaryPath(p)
  {
    seq(MAX_WALK, _ => seq(MAX_NAME, _ => 0))
  }

  /** The bound holds for every ordinary walk request, and is attained. */
  lemma WalkFrameBound(fid: u32, newfid: u32, p: Path, tag: u16)
    requires OrdinaryPath(p)
    ensures HEADER_SIZE + |RequestPayload(Base(TWalk(fid, newfid, p)))| <= MIN_MESSAGE_SIZE
    ensures |RequestFrame(Base(TWalk(fid, newfid, p)), tag)| <= MIN_MESSAGE_SIZE
    ensures HEADER_SIZE + |RequestPayload(Base(TWalk(fid, newfid, LargestPath())))| == MIN_MESSAGE_SIZE
  {
    hide RequestPayload;
    hide EncodeTexts;
    WalkPayloadSize(fid, newfid, p);
    TextsBound(p);
    WalkPayloadSize(fid, newfid, LargestPath());
    TextsBound(LargestPath());
  }
}
