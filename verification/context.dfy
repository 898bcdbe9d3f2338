/** The saved user register file of a task (the trap context): the 32 general
    registers and the exception program counter `sepc`. */
module TrapContext {
  import opened Machine

  const REG_COUNT: nat := 32
  /** Argument / return registers of the system-call convention. */
  const A0: nat := 10
  const A1: nat := 11
  const A2: nat := 12
  /** The register that carries the system-call number. */
  const A7: nat := 17

  datatype Context = Context(x: seq<usize>, sepc: usize)

  predicate WellFormed(c: Context)
  {
    |c.x| == REG_COUNT
  }

  /** The context with register `i` overwritten and every other register and `sepc` kept. */
  function SetReg(c: Context, i: nat, v: usize): (r: Context)
    requires WellFormed(c) && i < REG_COUNT
    ensures WellFormed(r)
    ensures r.x[i] == v && r.sepc == c.sepc
    ensures forall j :: 0 <= j < REG_COUNT && j != i ==> r.x[j] == c.x[j]
  {
    c.(x := c.x[i := v])
  }
}
