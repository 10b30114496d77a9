/** The worker's xorshift generator for queue-group picks (`pick_index` of crates/aulon-server/src/main.rs). */
module XorShift {
  function First(s: bv64): bv64 {
    s ^ (s << 13)
  }

  function Second(s: bv64): bv64 {
    s ^ (s >> 7)
  }

  function Third(s: bv64): bv64 {
    s ^ (s << 17)
  }

  /** The state after one draw. */
  function Step(s: bv64): bv64 {
    Third(Second(First(s)))
  }

  /** Three draws from the smallest state: the shifts and their order are these. */
  lemma FirstDraws()
    ensures Step(1) == 0x4082_2041 && Step(2) == 0x8104_4082 && Step(0x8000_0000_0000_0000) == 0x8100_0000_0000_0000
  {
  }

  method Draw(state: bv64) returns (s: bv64)
    ensures s == Step(state)
  {
    s := state;
    s := First(s);
    s := Second(s);
    s := Third(s);
  }

  /** A draw reduced to an index. */
  function Reduce(draw: nat, n: nat): (k: nat)
    requires n > 0
    ensures k < n
  {
    draw % n
  }

  lemma SameBits(a: bv64, b: bv64)
    requires a ^ b == 0
    ensures a == b
  {
  }

  /** A word equal to itself shifted is equal to itself shifted out. */
  lemma Left13(z: bv64)
    requires z == z << 13
    ensures z == 0
  {
    assert (z << 13) << 13 == z << 26;
    assert (z << 26) << 26 == z << 52;
    assert (z << 52) << 52 == 0;
  }

  lemma Right7(z: bv64)
    requires z == z >> 7
    ensures z == 0
  {
    assert (z >> 7) >> 7 == z >> 14;
    assert (z >> 14) >> 14 == z >> 28;
    assert (z >> 28) >> 28 == z >> 56;
    assert (z >> 56) >> 56 == 0;
  }

  lemma Left17(z: bv64)
    requires z == z << 17
    ensures z == 0
  {
    assert (z << 17) << 17 == z << 34;
    assert (z << 34) << 34 == 0;
  }

  lemma FirstZero(s: bv64)
    requires First(s) == 0
    ensures s == 0
  {
    SameBits(s, s << 13);
    Left13(s);
  }

  lemma SecondZero(s: bv64)
    requires Second(s) == 0
    ensures s == 0
  {
    SameBits(s, s >> 7);
    Right7(s);
  }

  lemma ThirdZero(s: bv64)
    requires Third(s) == 0
    ensures s == 0
  {
    SameBits(s, s << 17);
    Left17(s);
  }

  /** A non-zero state never becomes zero, where every draw would be zero. */
  lemma NeverZero(s: bv64)
    requires Step(s) == 0
    ensures s == 0
  {
    ThirdZero(Second(First(s)));
    SecondZero(First(s));
    FirstZero(s);
  }

  /** The state a shard's worker starts with. */
  function Seed(shard: bv64): bv64 {
    0x1234_5678_9abc_def0 ^ (shard * 0x9E37_79B9)
  }

  /** No 32-bit shard id starts at zero. */
  lemma SeedNotZero(shard: bv64)
    requires shard < 0x1_0000_0000
    ensures Seed(shard) != 0
  {
  }
}
