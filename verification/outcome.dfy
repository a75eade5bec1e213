/** Outcomes shared by the modelled scripts: the value a routine returns, or the
    Python exception it raises instead. */
module Outcome {

  /** The Python exceptions the modelled code can raise. */
  datatype Fault =
    | UnboundLocal     // a loop variable read after a loop that never ran (UnboundLocalError)
    | IndexOutOfRange  // a list index at or past the end (IndexError)
    | DivisionByZero   // ZeroDivisionError

  /** Either the value a routine returns, or the exception it raises. */
  datatype Result<+T> = Ok(value: T) | Err(fault: Fault)

  /** Number of iterations of Python's `range(n)`: none when `n` is not positive. */
  function RangeLength(n: int): nat {
    if n < 0 then 0 else n
  }
}

/** Positional arithmetic for lists laid out as consecutive blocks of equal width. */
module Indexing {

  /** Splits an offset `x` into whole blocks of width `n` and a remainder, without
      division: `x` lies in block `q` (of fewer than `bound` blocks) at position `m`. */
  lemma {:induction false} DivideIndex(n: nat, x: nat, bound: nat) returns (q: nat, m: nat)
    requires n > 0 && x < bound * n
    ensures x == q * n + m && m < n && q < bound
    decreases x
  {
    if x < n {
      q, m := 0, x;
    } else {
      assert x - n < (bound - 1) * n;
      var q', m' := DivideIndex(n, x - n, bound - 1);
      q, m := q' + 1, m';
    }
  }
}
