/** Types shared by the models: optional values and machine-width numbers. */
module Common {

  datatype Option<+T> = None | Some(value: T) {
    predicate IsFailure() { None? }

    function PropagateFailure<U>(): Option<U>
      requires None?
    {
      None
    }

    function Extract(): T
      requires Some?
    {
      value
    }
  }

  type Byte = b: nat | b < 0x100
  type UInt32 = n: nat | n < 0x1_0000_0000
  type UInt64 = n: nat | n < 0x1_0000_0000_0000_0000
  type Int64 = n: int | -0x8000_0000_0000_0000 <= n < 0x8000_0000_0000_0000

  /** The client is built for a 32-bit target: an address is below 2^32, and the
      all-ones value stands for "no address". */
  type Address = nat

  const ADDRESS_BAD: Address := 0xFFFF_FFFF

  /** The bytes a process may read. A read outside the domain is an error that
      Dafny refuses, so a verified method reads only what its precondition
      declares readable. */
  type Memory = map<int, Byte>

  predicate Readable(mem: Memory, lo: nat, hi: nat) {
    forall a: Address :: lo <= a < hi ==> a in mem
  }

  /** C `isspace`. */
  predicate IsWhiteSpace(c: char) {
    c == ' ' || '\t' <= c <= '\r'
  }
}
