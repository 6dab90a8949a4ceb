/** The middleware chain: an ordered list of middlewares run one after another
    over one context. Each middleware either hands the (possibly changed)
    context on (`next`) or stops the chain (`done`). */
module Middleware {
  import opened Wrappers

  /** What one middleware does with the context it is given: calls `next`
      after its changes, or calls `done`. */
  datatype Step<C> = Next(context: C) | Done

  /** How `execute` ends: it resolves with the context once every middleware
      has called `next`, or it is aborted by the `done` of middleware `at`. */
  datatype ChainResult<C> = Completed(context: C) | Halted(at: nat)

  type Handler<!C> = C -> Step<C>

  /** The chain from middleware `i` on. */
  function RunFrom<C>(ms: seq<Handler<C>>, i: nat, c: C): (r: ChainResult<C>)
    requires i <= |ms|
    ensures r.Halted? ==> i <= r.at < |ms|
    decreases |ms| - i
  {
    if i == |ms| then Completed(c)
    else
      match ms[i](c)
      case Done => Halted(i)
      case Next(d) => RunFrom(ms, i + 1, d)
  }

  /** `execute`'s result; a halt names a registered middleware. */
  function Run<C>(ms: seq<Handler<C>>, c: C): (r: ChainResult<C>)
    ensures r.Halted? ==> r.at < |ms|
  {
    RunFrom(ms, 0, c)
  }

  /** The context after the first `k` middlewares, provided none of them
      called `done`. */
  function After<C>(ms: seq<Handler<C>>, c: C, k: nat): Option<C>
    requires k <= |ms|
  {
    if k == 0 then Some(c)
    else
      match After(ms, c, k - 1)
      case None => None
      case Some(d) => if ms[k - 1](d).Next? then Some(ms[k - 1](d).context) else None
  }

  /** How many middlewares a run invokes: up to and including the one that
      calls `done`, or all of them. */
  function InvokedCount<C>(r: ChainResult<C>, n: nat): nat
  {
    if r.Halted? then r.at + 1 else n
  }

  /** The indices `0 .. n-1`, in order. */
  function Upto(n: nat): (s: seq<nat>)
    ensures |s| == n && forall i :: 0 <= i < n ==> s[i] == i
  {
    seq(n, i requires 0 <= i < n => i)
  }

  /** The middlewares in `execute`: registration appends; execution runs them
      in order over one context. */
  class Middleware<C> {
    var middlewares: seq<Handler<C>>

    constructor ()
      ensures middlewares == []
    {
      middlewares := [];
    }

    /** `register`: one more middleware at the end. */
    method Register(m: Handler<C>)
      modifies this
      ensures middlewares == old(middlewares) + [m]
    {
      middlewares := middlewares + [m];
    }

    /** `execute`: each middleware in turn, each only after the one before it
        called `next`; `invoked` lists the middlewares called, in call order. */
    method Execute(context: C) returns (r: ChainResult<C>, invoked: seq<nat>)
      ensures r == Run(middlewares, context)
      ensures invoked == Upto(InvokedCount(r, |middlewares|))
      ensures r.Halted? ==> r.at < |middlewares|
    {
      var ms := middlewares;
      var c := context;
      var i := 0;
      invoked := [];
      while i < |ms|
        invariant 0 <= i <= |ms|
        invariant invoked == Upto(i)
        invariant RunFrom(ms, i, c) == Run(ms, context)
      {
        invoked := invoked + [i];
        var step := ms[i](c);
        if step.Done? {
          return Halted(i), invoked;
        }
        c := step.context;
        i := i + 1;
      }
      r := Completed(c);
    }
  }

  // ---------------------------------------------------------------- laws

  /** An empty chain completes with the context it was given. */
  lemma EmptyChainCompletes<C>(c: C)
    ensures Run([], c) == Completed(c)
  {
  }

  /** Running the chain from `i` after the first `i` middlewares called
      `next` is running the whole chain. */
  lemma {:induction false} RunFromAfter<C>(ms: seq<Handler<C>>, c: C, i: nat)
    requires i <= |ms| && After(ms, c, i).Some?
    ensures RunFrom(ms, i, After(ms, c, i).value) == Run(ms, c)
  {
    if i > 0 {
      RunFromAfter(ms, c, i - 1);
    }
  }

  /** The chain completes exactly when every middleware called `next`, and it
      completes with the context they produced between them. */
  lemma CompletedIff<C>(ms: seq<Handler<C>>, c: C, d: C)
    ensures Run(ms, c) == Completed(d) <==> After(ms, c, |ms|) == Some(d)
  {
    if After(ms, c, |ms|).Some? {
      RunFromAfter(ms, c, |ms|);
    } else {
      var k := FirstHalt(ms, c);
      HaltedAt(ms, c, k);
    }
  }

  /** The chain stops at `k` exactly when the middlewares before `k` all
      called `next` and middleware `k` called `done`. */
  lemma HaltedIff<C>(ms: seq<Handler<C>>, c: C, k: nat)
    ensures Run(ms, c) == Halted(k)
        <==> k < |ms| && After(ms, c, k).Some? && ms[k](After(ms, c, k).value).Done?
  {
    if Run(ms, c) == Halted(k) {
      if After(ms, c, |ms|).Some? {
        RunFromAfter(ms, c, |ms|);
        assert false;
      }
      var h := FirstHalt(ms, c);
      HaltedAt(ms, c, h);
    }
    if k < |ms| && After(ms, c, k).Some? && ms[k](After(ms, c, k).value).Done? {
      HaltedAt(ms, c, k);
    }
  }

  lemma HaltedAt<C>(ms: seq<Handler<C>>, c: C, k: nat)
    requires k < |ms| && After(ms, c, k).Some? && ms[k](After(ms, c, k).value).Done?
    ensures Run(ms, c) == Halted(k)
  {
    RunFromAfter(ms, c, k);
  }

  /** When the chain does not complete, some middleware is the first to stop it. */
  lemma FirstHalt<C>(ms: seq<Handler<C>>, c: C) returns (k: nat)
    requires After(ms, c, |ms|).None?
    ensures k < |ms| && After(ms, c, k).Some? && ms[k](After(ms, c, k).value).Done?
  {
    k := 0;
    while After(ms, c, k + 1).Some?
      invariant k < |ms| && After(ms, c, k).Some?
      decreases |ms| - k
    {
      k := k + 1;
    }
  }

  /** Registering one more middleware: the old chain runs first, and the new
      one only sees the context if the old chain completed. */
  lemma {:induction false} RunAppend<C>(ms: seq<Handler<C>>, m: Handler<C>, c: C)
    ensures Run(ms + [m], c)
         == match Run(ms, c)
            case Halted(k) => Halted(k)
            case Completed(d) => if m(d).Done? then Halted(|ms|) else Completed(m(d).context)
  {
    RunFromAppend(ms, m, 0, c);
  }

  lemma {:induction false} RunFromAppend<C>(ms: seq<Handler<C>>, m: Handler<C>, i: nat, c: C)
    requires i <= |ms|
    ensures RunFrom(ms + [m], i, c)
         == match RunFrom(ms, i, c)
            case Halted(k) => Halted(k)
            case Completed(d) => if m(d).Done? then Halted(|ms|) else Completed(m(d).context)
    decreases |ms| - i
  {
    var all := ms + [m];
    if i == |ms| {
      assert all[i] == m;
      if m(c).Next? {
        assert RunFrom(all, i + 1, m(c).context) == Completed(m(c).context);
      }
    } else {
      assert all[i] == ms[i];
      if ms[i](c).Next? {
        RunFromAppend(ms, m, i + 1, ms[i](c).context);
      }
    }
  }
}
