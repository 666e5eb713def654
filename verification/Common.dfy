/** Small types, functions and constants shared by the models. */
module Common {

  /** From `kernel/param.h` and `kernel/riscv.h`. */
  const MAXOPBLOCKS: nat := 10
  const LOGBLOCKS: nat := MAXOPBLOCKS * 3
  const PGSIZE: nat := 4096
  const MAXVA: nat := 0x40_0000_0000

  datatype Option<+T> = None | Some(value: T)

  /** Everything but the last element. */
  function Init<T>(q: seq<T>): seq<T>
    requires q != []
  {
    q[..|q| - 1]
  }

  function Last<T>(q: seq<T>): T
    requires q != []
  {
    q[|q| - 1]
  }

  predicate Distinct<T(==)>(q: seq<T>) {
    forall i, j :: 0 <= i < j < |q| ==> q[i] != q[j]
  }
}
