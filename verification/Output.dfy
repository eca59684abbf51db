/** The output a build writes to: every call may fail, and then the build gives up. */
module Output {
  import opened Words

  class Writer {
    /** Whether the call with a given number fails. */
    const fails: nat -> bool
    var calls: nat
    var out: seq<byte>

    constructor (fails: nat -> bool)
      ensures this.fails == fails && calls == 0 && out == []
    {
      this.fails := fails;
      calls, out := 0, [];
    }

    method Write(data: seq<byte>) returns (ok: bool)
      modifies this
      ensures calls == old(calls) + 1 && ok == !fails(old(calls))
      ensures out == old(out) + if ok then data else []
    {
      ok := !fails(calls);
      calls := calls + 1;
      if ok {
        out := out + data;
      }
    }

    /** None of the calls from number `from` on has failed. */
    ghost predicate Clean(from: nat)
      reads this
    {
      from <= calls && forall k :: from <= k < calls ==> !fails(k)
    }

    /** The last call has failed, and none of those from `from` on before it. */
    ghost predicate GaveUp(from: nat)
      reads this
    {
      from < calls && fails(calls - 1) && forall k :: from <= k < calls - 1 ==> !fails(k)
    }
  }
}
