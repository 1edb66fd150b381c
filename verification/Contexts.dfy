/** Request contexts and the work count of the process they add to. */
module Contexts {
  import opened Shutdown

  /** The process-wide signal context; only its work count matters here. */
  class SignalContext {
    var count: int
    ghost var contexts: seq<HTTPContext>

    constructor ()
      ensures count == 0 && contexts == []
    {
      count := 0;
      contexts := [];
    }

    /** Which of its contexts are still to be cancelled. */
    ghost function Pending(): seq<bool>
      reads this, set c | c in contexts
    {
      seq(|contexts|, i requires 0 <= i < |contexts| reads this, set c | c in contexts => !contexts[i].isCanceled)
    }

    ghost predicate Valid()
      reads this, set c | c in contexts
    {
      && count == Live(Pending())
      && forall i, j :: 0 <= i < j < |contexts| ==> contexts[i] != contexts[j]
    }
  }

  class HTTPContext {
    var isCanceled: bool

    constructor ()
      ensures !isCanceled
    {
      isCanceled := false;
    }

    /** Cancelling counts once, however often it is called. */
    method Cancel(scx: SignalContext)
      requires scx.Valid() && this in scx.contexts
      modifies this`isCanceled, scx`count
      ensures scx.Valid() && isCanceled
      ensures scx.count == old(scx.count) - (if old(isCanceled) then 0 else 1)
    {
      if isCanceled {
        return;
      }
      ghost var before := scx.Pending();
      ghost var i :| 0 <= i < |scx.contexts| && scx.contexts[i] == this;
      isCanceled := true;
      scx.count := scx.count - 1;
      assert scx.Pending() == before[i := false];
      LiveAfterCancel(before, i);
    }
  }

  /** NewHTTPContext, and the constructors that wrap a plain context. */
  method NewHTTPContext(scx: SignalContext) returns (ctx: HTTPContext)
    requires scx.Valid()
    modifies scx
    ensures scx.Valid() && fresh(ctx) && !ctx.isCanceled
    ensures scx.contexts == old(scx.contexts) + [ctx] && scx.count == old(scx.count) + 1
  {
    ghost var before := scx.Pending();
    ctx := new HTTPContext();
    scx.count := scx.count + 1;
    scx.contexts := scx.contexts + [ctx];
    assert scx.Pending() == before + [true];
    assert (before + [true])[..|before|] == before;
  }

  /** The gRPC constructors return a context that already is one, and count nothing. */
  method FromGrpc(scx: SignalContext, given: HTTPContext?) returns (ctx: HTTPContext)
    requires scx.Valid()
    modifies scx
    ensures scx.Valid()
    ensures given != null ==> ctx == given && scx.count == old(scx.count) && scx.contexts == old(scx.contexts)
    ensures given == null ==> fresh(ctx) && scx.count == old(scx.count) + 1 && ctx in scx.contexts
  {
    if given != null {
      return given;
    }
    ctx := NewHTTPContext(scx);
  }
}
