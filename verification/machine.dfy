/** Machine words of the 64-bit RISC-V target and the Rust `as` casts between them.
    Dafny integers are unbounded, so every width and every wrap-around is explicit. */
module Machine {

  /** 2^64, the modulus of a machine word. */
  const WORD: int := 0x1_0000_0000_0000_0000
  const ISIZE_MAX: int := 0x7FFF_FFFF_FFFF_FFFF

  type usize = x: int | 0 <= x < 0x1_0000_0000_0000_0000
  type isize = x: int | -0x8000_0000_0000_0000 <= x < 0x8000_0000_0000_0000
  type i32 = x: int | -0x8000_0000 <= x < 0x8000_0000

  /** `v as usize`: the unsigned word with the same bit pattern. */
  function AsUsize(v: isize): (r: usize)
    ensures (r - v) % WORD == 0
    ensures 0 <= v ==> r == v
  {
    if v < 0 then v + WORD else v
  }

  /** `v as isize`: the signed word with the same bit pattern. */
  function AsIsize(v: usize): (r: isize)
    ensures (r - v) % WORD == 0
    ensures v <= ISIZE_MAX ==> r == v
  {
    if v <= ISIZE_MAX then v else v - WORD
  }

  /** `a + b` on usize in a build without overflow checks. */
  function WrappingAdd(a: usize, b: usize): (r: usize)
    ensures (r - (a + b)) % WORD == 0
    ensures a + b < WORD ==> r == a + b
  {
    (a + b) % WORD
  }

  /** Reinterpreting a signed word as unsigned and back loses nothing. */
  lemma SignedRoundTrip(v: isize)
    ensures AsIsize(AsUsize(v)) == v
  {
  }

  /** Reinterpreting an unsigned word as signed and back loses nothing. */
  lemma UnsignedRoundTrip(u: usize)
    ensures AsUsize(AsIsize(u)) == u
  {
  }
}

/** The optional value used for partial lookups and out-locations. */
module Optional {

  datatype Option<+T> = None | Some(value: T)
}
