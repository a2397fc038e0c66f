/** Little-endian PCM16 bytes in front of and behind the desktop resampler (audio/resample.py). */
module PcmBytes {
  import opened Machine
  import opened Resampler

  function SampleOf(low: u8, high: u8): (s: int)
    ensures InRange(s)
  {
    if high < 128 then low + 256 * high else low + 256 * high - TWO_16
  }

  function Unsigned(s: int): u16
    requires InRange(s)
  {
    if s >= 0 then s else s + TWO_16
  }

  function Samples(b: seq<u8>): (s: seq<int>)
    requires |b| % 2 == 0
    ensures |s| == |b| / 2
    decreases |b|
  {
    if b == [] then [] else [SampleOf(b[0], b[1])] + Samples(b[2..])
  }

  function BytesOf(s: seq<int>): (b: seq<u8>)
    requires Pcm16(s)
    ensures |b| == 2 * |s|
    decreases |s|
  {
    if s == [] then [] else [Unsigned(s[0]) % 256, Unsigned(s[0]) / 256] + BytesOf(s[1..])
  }

  lemma {:induction false} SamplesPcm16(b: seq<u8>)
    requires |b| % 2 == 0
    ensures Pcm16(Samples(b))
    decreases |b|
  {
    if b != [] {
      SamplesPcm16(b[2..]);
    }
  }

  lemma OneSample(s: int, low: u8, high: u8)
    requires InRange(s)
    ensures SampleOf(low, high) == s <==> low == Unsigned(s) % 256 && high == Unsigned(s) / 256
  {
  }

  /** Bytes and samples determine each other. */
  lemma {:induction false} SamplesIffBytes(b: seq<u8>, s: seq<int>)
    requires |b| % 2 == 0 && Pcm16(s)
    ensures Samples(b) == s <==> b == BytesOf(s)
    decreases |b|
  {
    if b != [] && s != [] {
      OneSample(s[0], b[0], b[1]);
      SamplesIffBytes(b[2..], s[1..]);
      assert b == [b[0], b[1]] + b[2..] && s == [s[0]] + s[1..];
      assert Samples(b)[1..] == Samples(b[2..]) && BytesOf(s)[2..] == BytesOf(s[1..]);
    }
  }

  datatype Pushed = Bytes(pcm: seq<u8>) | OddLength | Refused(reason: Outcome)

  /** `push` on bytes: an odd byte count is an error, found after the flush check and before the alignment check. */
  method PushBytes(r: Pcm16MonoResampler, pcm: seq<u8>) returns (p: Pushed)
    requires r.Valid()
    modifies r
    ensures r.Valid()
    ensures p == Refused(PushedAfterFlush) <==> old(r.flushed)
    ensures p.OddLength? <==> !old(r.flushed) && |pcm| % 2 != 0
    ensures p == Refused(Misaligned) <==> !old(r.flushed) && |pcm| % 2 == 0 && |pcm| / 2 % r.channels != 0
    ensures !p.Bytes? ==> (p == Refused(PushedAfterFlush) || p == Refused(Misaligned) || p.OddLength?) && r.consumed == old(r.consumed)
    ensures p.Bytes? ==>
              && |pcm| % 2 == 0 && r.consumed == old(r.consumed) + Mono(Samples(pcm), r.channels)
              && var out := Yield(old(r.consumed), Mono(Samples(pcm), r.channels), r.inRate, r.outRate);
                 Pcm16(out) && p.pcm == BytesOf(out)
  {
    if r.flushed {
      return Refused(PushedAfterFlush);
    }
    if |pcm| % 2 != 0 {
      return OddLength;
    }
    SamplesPcm16(pcm);
    ghost var before := r.consumed;
    var o := r.Push(Samples(pcm));
    if !o.Produced? {
      return Refused(o);
    }
    YieldPcm16(before, Mono(Samples(pcm), r.channels), r.inRate, r.outRate);
    p := Bytes(BytesOf(o.samples));
  }

  lemma YieldPcm16(before: seq<int>, chunk: seq<int>, inRate: nat, outRate: nat)
    requires inRate > 0 && outRate > 0 && Pcm16(before + chunk)
    ensures Pcm16(Yield(before, chunk, inRate, outRate))
  {
    var x := before + chunk;
    ReadyMonotone(|before|, |x|, inRate, outRate);
    ReadyWithinTotal(|x|, inRate, outRate);
    ValuesPcm16(x, Ready(|before|, inRate, outRate), Ready(|x|, inRate, outRate), inRate, outRate);
  }

  /** Two's complement, least significant byte first. */
  lemma SampleIsTwosComplement(low: u8, high: u8)
    ensures var s := SampleOf(low, high); -32768 <= s <= 32767 && (s == low + 256 * high || s + 65536 == low + 256 * high)
  {
  }

  /** Samples are read in order, two bytes each. */
  lemma {:induction false} SampleAt(b: seq<u8>, i: nat)
    requires |b| % 2 == 0 && 2 * i + 1 < |b|
    ensures i < |Samples(b)| && Samples(b)[i] == SampleOf(b[2 * i], b[2 * i + 1])
    decreases i
  {
    if i > 0 {
      SampleAt(b[2..], i - 1);
      assert b[2..][2 * (i - 1)] == b[2 * i] && b[2..][2 * (i - 1) + 1] == b[2 * i + 1];
    }
  }
}
