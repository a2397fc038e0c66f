/** Fixed-width unsigned integers of the firmware, media constants and small shared definitions. */
module Machine {
  const TWO_8 := 0x100
  const TWO_16 := 0x1_0000
  const TWO_32 := 0x1_0000_0000
  const TWO_64 := 0x1_0000_0000_0000_0000
  const U32_MAX := TWO_32 - 1
  const U64_MAX := TWO_64 - 1

  type u8 = x: nat | x < TWO_8
  type u16 = x: nat | x < TWO_16
  type u32 = x: nat | x < TWO_32
  type u64 = x: nat | x < TWO_64

  /** One media frame: 60 ms of audio at 16 kHz, at most 1200 bytes encoded. */
  const SAMPLES_PER_FRAME := 960
  const MAX_PAYLOAD_BYTES := 1200

  /** uint32 arithmetic: everything is taken modulo 2^32. */
  function Wrap32(x: nat): (r: u32)
    ensures x < TWO_32 ==> r == x
    ensures x == TWO_32 ==> r == 0
  {
    x % TWO_32
  }

  /** Adding modulo 2^32 one by one is adding the whole modulo 2^32. */
  lemma WrapAdd(base: nat, first: nat, rest: nat)
    ensures Wrap32(Wrap32(base + first) + rest) == Wrap32(base + (first + rest))
  {
  }

  datatype Option<+T> = None | Some(value: T)

  ghost predicate Increasing(s: seq<nat>) {
    forall i, j :: 0 <= i < j < |s| ==> s[i] < s[j]
  }

  /** The least element of a non-empty set. */
  ghost function Least(s: set<u32>): (r: u32)
    requires s != {}
    ensures r in s && forall x :: x in s ==> r <= x
  {
    var x :| x in s;
    if s == {x} then x
    else
      var rest := Least(s - {x});
      assert s == (s - {x}) + {x};
      if x <= rest then x else rest
  }
}
