/**
 Types shared by the models.
 */
module Common {

  datatype Option<T> = None | Some(value: T)

  type Byte = x: nat | x < 256

  type Bytes = seq<Byte>

  /** How many values 32 and 64 bits have. */
  const LIMIT32: nat := 0x1_0000_0000

  const LIMIT64: nat := 0x1_0000_0000_0000_0000

  /** A C string ends before its first zero character. */
  function CString(s: Bytes): (r: Bytes)
    ensures 0 !in r
  {
    if s == [] || s[0] == 0 then [] else [s[0]] + CString(s[1..])
  }

  lemma {:induction false} CStringWhole(s: Bytes)
    requires 0 !in s
    ensures CString(s) == s
  {
    if s != [] { CStringWhole(s[1..]); }
  }
}
