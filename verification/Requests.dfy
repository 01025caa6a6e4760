/** The sizes requested of the small-memory heap (mem.c) and the memory heap (memheap.c), on a 32-bit target. */
module Requests {

  const ALIGN: nat := 4
  const MIN: nat := 12

  /** RT_ALIGN(n, 4) for an n that does not wrap. */
  function Align(n: nat): (r: nat)
    ensures r % ALIGN == 0 && n <= r < n + ALIGN
  {
    (n + 3) / 4 * 4
  }

  /** The payload a request asks for, once aligned and raised to the minimum. */
  function Need(request: nat): (r: nat)
    ensures r % ALIGN == 0 && request <= r && MIN <= r
  {
    if Align(request) < MIN then MIN else Align(request)
  }
}
