/** The dynamically typed values that rows, registers and B-tree records are made of. */
module Values {
  const U64_LIMIT: int := 0x1_0000_0000_0000_0000

  type byte = b: int | 0 <= b < 256
  type u64 = n: int | 0 <= n < 0x1_0000_0000_0000_0000

  datatype Option<+T> = None | Some(value: T)

  datatype Result<+T, +E> = Success(value: T) | Failure(error: E)

  datatype Value =
    | Null
    | Integer(n: u64)
    | Real(r: real)
    | Text(s: string)
    | Blob(bytes: seq<byte>)

  type Record = seq<Value>

  ghost predicate NoDup(s: seq<nat>) {
    forall i, j :: 0 <= i < j < |s| ==> s[i] != s[j]
  }

  ghost function Members(s: seq<nat>): set<nat> { set x | x in s }
}
