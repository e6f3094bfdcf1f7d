/** Types and small helpers shared by every component model. */
module Common {

  datatype Option<+T> = None | Some(value: T)

  datatype Result<+T, +E> = Ok(value: T) | Err(error: E)

  type Byte = b: int | 0 <= b < 0x100
  type U16 = x: int | 0 <= x < 0x1_0000
  type U32 = x: int | 0 <= x < 0x1_0000_0000
  type U64 = x: int | 0 <= x < 0x1_0000_0000_0000_0000

  function Min(a: int, b: int): int {
    if a <= b then a else b
  }

  function Abs(a: int): nat {
    if a < 0 then -a else a
  }

  const PID_TABLE_BASE := 10
  const PID_LIMIT := 14

  /** First free process table slot at or after pid `id`, or 14. */
  function FreePid<T>(procs: map<nat, T>, id: nat): (j: nat)
    requires id <= PID_LIMIT
    decreases PID_LIMIT - id
    ensures id <= j <= PID_LIMIT
    ensures j < PID_LIMIT ==> j !in procs
    ensures forall m :: id <= m < j ==> m in procs
  {
    if id == PID_LIMIT || id !in procs then id else FreePid(procs, id + 1)
  }

  lemma FreePidRange<T>(procs: map<nat, T>)
    ensures PID_TABLE_BASE <= FreePid(procs, PID_TABLE_BASE) <= PID_LIMIT
    ensures FreePid(procs, PID_TABLE_BASE) < PID_LIMIT ==> FreePid(procs, PID_TABLE_BASE) !in procs
  {
  }

  /** `n` bytes of zero. */
  function Zeros(n: nat): (s: seq<Byte>)
    ensures |s| == n
    ensures forall i :: 0 <= i < n ==> s[i] == 0
  {
    seq(n, _ => 0)
  }

  lemma DivBounds(a: int, b: int)
    requires b > 0
    ensures b * (a / b) <= a < b * (a / b) + b
  {
  }

  lemma DivIs(a: int, b: int, c: int)
    requires b > 0 && b * c <= a < b * c + b
    ensures a / b == c
  {
    DivBounds(a, b);
    MulLess(b, a / b, c);
    MulLess(b, c, a / b);
  }

  lemma MulLess(b: int, x: int, y: int)
    ensures b >= 0 && x < y ==> b * x + b <= b * y
  {
    if b >= 0 && x < y {
      MulLe(b, x + 1, y);
    }
  }

  lemma MulLe(b: int, x: int, y: int)
    requires b >= 0 && x <= y
    ensures b * x <= b * y
  {
  }
}
