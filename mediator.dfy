/** The mediator's four `Send`/`SendAsync` entry points. Each resolves the
    pipeline behaviors registered for the request type, removes duplicate
    instances, makes the innermost continuation resolve and call the handler,
    and then wraps every behavior around the continuation built so far. The
    last behavior of the list therefore ends up outermost. The continuation
    handed to a behavior here takes no request. */
module Mediator {
  import opened Pipeline

  /** The service container as `Send`/`SendAsync` consult it for one response type. */
  datatype Container<T> = Container(
    behaviors: map<Tag, seq<Behavior<T>>>,  // IPipelineBehavior<TRequest, T> registrations, in order
    handlers: map<Tag, Handler<T>>,         // IHandler<TRequest, T>, resolved by SendAsync
    taskHandlers: map<Tag, Handler<T>>)     // Tasks.IRequestHandler<TRequest, T>, resolved by Send

  /** The container for requests without a response: behaviors are typed over Unit. */
  datatype VoidContainer = VoidContainer(
    behaviors: map<Tag, seq<Behavior<Unit>>>,
    handlers: map<Tag, VoidHandler>,        // IHandler<TRequest>, resolved by SendAsync
    taskHandlers: map<Tag, VoidHandler>)    // Tasks.IRequestHandler<TRequest>, resolved by Send

  /** `GetServices<...>()`: the registrations for `tag`, none when there are none. */
  function Resolve<T>(registered: map<Tag, seq<Behavior<T>>>, tag: Tag): seq<Behavior<T>> {
    if tag in registered then registered[tag] else []
  }

  /** `Distinct()` on behavior instances: the first occurrence of each instance, in order. */
  function Distinct<T>(s: seq<Behavior<T>>): (r: seq<Behavior<T>>)
    ensures UniqueInstances(r)
    ensures forall i :: 0 <= i < |r| ==> r[i] in s
    ensures forall i :: 0 <= i < |s| ==> HasInstance(r, s[i].id)
    ensures |r| <= |s|
  {
    if s == [] then []
    else
      var front, last := s[..|s| - 1], s[|s| - 1];
      var d := Distinct(front);
      assert forall i :: 0 <= i < |front| ==> front[i] == s[i];
      if HasInstance(d, last.id) then d
      else
        var r := d + [last];
        assert forall i :: 0 <= i < |d| ==> r[i] == d[i];
        assert HasInstance(r, last.id) by { assert r[|d|] == last; }
        r
  }

  /** `behavior.HandleAsync(request, next, cancellationToken)`, where every call
      of `next` yields `next`. Forward cannot hand over its request: `next`
      takes none. */
  function Layer<T>(b: Behavior<T>, req: Request, tok: Token, next: Run<T>): (r: Run<T>)
    ensures |r.trace| > 0 && r.trace[0] == Enter(b.id, req, tok)
    ensures b.action.Answer? ==> r == Run(b.action.answer, [Enter(b.id, req, tok)])
    ensures !b.action.Answer? ==> r.outcome == next.outcome
    ensures !b.action.Answer? && next.outcome.Err? ==> r.trace == [Enter(b.id, req, tok)] + next.trace
    ensures !b.action.Answer? && next.outcome.Ok? ==> r.trace[|r.trace| - 1] == Exit(b.id)
  {
    var enter := Enter(b.id, req, tok);
    match b.action
    case Answer(o) => Run(o, [enter])
    case Retry =>
      if next.outcome.Err? then Run(next.outcome, [enter] + next.trace)
      else Run(next.outcome, [enter] + next.trace + next.trace + [Exit(b.id)])
    case _ => Run(next.outcome, [enter] + next.trace + Post(b, next.outcome))
  }

  /** The chain the `foreach` builds over `bs` around the innermost result `inner`. */
  function Fold<T>(bs: seq<Behavior<T>>, req: Request, tok: Token, inner: Run<T>): (r: Run<T>)
    ensures bs != [] ==> |r.trace| > 0 && r.trace[0] == Enter(bs[|bs| - 1].id, req, tok)
    ensures (forall i :: 0 <= i < |bs| ==> !bs[i].action.Answer?) ==> r.outcome == inner.outcome
    decreases |bs|
  {
    if bs == [] then inner
    else Layer(bs[|bs| - 1], req, tok, Fold(bs[..|bs| - 1], req, tok, inner))
  }

  /** The innermost continuation: resolve the handler (a missing one throws), then call it. */
  function Innermost<T>(handlers: map<Tag, Handler<T>>, req: Request, tok: Token): (r: Run<T>)
    ensures req.tag in handlers <==> r.trace == [Handle(req, tok)]
    ensures req.tag in handlers ==> r.outcome == handlers[req.tag](req, tok)
    ensures req.tag !in handlers ==> r == Run(Err(HandlerNotFound(req.tag)), [])
  {
    if req.tag in handlers then Run(handlers[req.tag](req, tok), [Handle(req, tok)])
    else Run(Err(HandlerNotFound(req.tag)), [])
  }

  /** The innermost continuation of the void variants: await the handler, then yield Unit. */
  function InnermostVoid(handlers: map<Tag, VoidHandler>, req: Request, tok: Token): (r: Run<Unit>)
    ensures req.tag in handlers <==> r.trace == [Handle(req, tok)]
    ensures req.tag in handlers ==> Discard(r.outcome) == handlers[req.tag](req, tok)
    ensures req.tag !in handlers ==> r == Run(Err(HandlerNotFound(req.tag)), [])
  {
    if req.tag !in handlers then Run(Err(HandlerNotFound(req.tag)), [])
    else
      match handlers[req.tag](req, tok)
      case Completed => Run(Ok(Unit), [Handle(req, tok)])
      case Faulted(e) => Run(Err(e), [Handle(req, tok)])
  }

  /** Awaiting a `ValueTask<Unit>` and dropping its value. */
  function Discard(o: Outcome<Unit>): (c: Completion)
    ensures c.Completed? <==> o.Ok?
    ensures o.Err? ==> c == Faulted(o.error)
  {
    match o
    case Ok(_) => Completed
    case Err(e) => Faulted(e)
  }

  /** The `foreach` loop shared by the four entry points: each step keeps the
      current closure as `next` and replaces it by one that runs the behavior
      around `next`. */
  method Compose<T>(behaviors: seq<Behavior<T>>, request: Request, token: Token, innermost: () -> Run<T>)
    returns (handler: () -> Run<T>)
    ensures handler() == Fold(behaviors, request, token, innermost())
  {
    handler := innermost;
    for i := 0 to |behaviors|
      invariant handler() == Fold(behaviors[..i], request, token, innermost())
    {
      var next := handler;
      var behavior := behaviors[i];
      handler := () => Layer(behavior, request, token, next());
      assert behaviors[..i + 1][..i] == behaviors[..i];
    }
    assert behaviors[..|behaviors|] == behaviors;
  }

  /** `SendAsync<TRequest, TResponse>`: the chain around an `IHandler`. */
  method SendAsync<T>(c: Container<T>, request: Request, token: Token) returns (r: Run<T>)
    ensures r == Fold(Distinct(Resolve(c.behaviors, request.tag)), request, token,
                      Innermost(c.handlers, request, token))
  {
    var behaviors := Distinct(Resolve(c.behaviors, request.tag));
    var handler := Compose(behaviors, request, token, () => Innermost(c.handlers, request, token));
    r := handler();
  }

  /** `Send<TRequest, TResponse>`: the same chain around a `Tasks.IRequestHandler`. */
  method Send<T>(c: Container<T>, request: Request, token: Token) returns (r: Run<T>)
    ensures r == Fold(Distinct(Resolve(c.behaviors, request.tag)), request, token,
                      Innermost(c.taskHandlers, request, token))
  {
    var behaviors := Distinct(Resolve(c.behaviors, request.tag));
    var handler := Compose(behaviors, request, token, () => Innermost(c.taskHandlers, request, token));
    r := handler();
  }

  /** `SendAsync<TRequest>`: the Unit-typed chain around a void `IHandler`; the final Unit is dropped. */
  method SendAsyncVoid(c: VoidContainer, request: Request, token: Token)
    returns (done: Completion, trace: seq<Event>)
    ensures var run := Fold(Distinct(Resolve(c.behaviors, request.tag)), request, token,
                            InnermostVoid(c.handlers, request, token));
            done == Discard(run.outcome) && trace == run.trace
  {
    var behaviors := Distinct(Resolve(c.behaviors, request.tag));
    var handler := Compose(behaviors, request, token, () => InnermostVoid(c.handlers, request, token));
    var run := handler();
    done, trace := Discard(run.outcome), run.trace;
  }

  /** `Send<TRequest>`: the Unit-typed chain around a void `Tasks.IRequestHandler`. */
  method SendVoid(c: VoidContainer, request: Request, token: Token)
    returns (done: Completion, trace: seq<Event>)
    ensures var run := Fold(Distinct(Resolve(c.behaviors, request.tag)), request, token,
                            InnermostVoid(c.taskHandlers, request, token));
            done == Discard(run.outcome) && trace == run.trace
  {
    var behaviors := Distinct(Resolve(c.behaviors, request.tag));
    var handler := Compose(behaviors, request, token, () => InnermostVoid(c.taskHandlers, request, token));
    var run := handler();
    done, trace := Discard(run.outcome), run.trace;
  }

  // ---------------------------------------------------------------------------
  // Deduplication

  /** A list without repeated instances is left as it is. */
  lemma {:induction false} DistinctOfDistinct<T>(s: seq<Behavior<T>>)
    requires UniqueInstances(s)
    ensures Distinct(s) == s
  {
    if s != [] {
      var f, last := s[..|s| - 1], s[|s| - 1];
      LastIsNew(s);
      DistinctOfDistinct(f);
      DistinctKeepsNew(f, last);
      assert f + [last] == s;
    }
  }

  /** Appending a behavior whose instance is new keeps it at the end. */
  lemma DistinctKeepsNew<T>(f: seq<Behavior<T>>, last: Behavior<T>)
    requires !HasInstance(Distinct(f), last.id)
    ensures Distinct(f + [last]) == Distinct(f) + [last]
  {
    var s := f + [last];
    assert s[..|s| - 1] == f && s[|s| - 1] == last;
  }

  lemma LastIsNew<T>(s: seq<Behavior<T>>)
    requires UniqueInstances(s) && s != []
    ensures UniqueInstances(s[..|s| - 1])
    ensures !HasInstance(s[..|s| - 1], s[|s| - 1].id)
  {
    var f := s[..|s| - 1];
    forall k | 0 <= k < |f| ensures f[k].id != s[|s| - 1].id {
      assert f[k] == s[k];
    }
    forall i, j | 0 <= i < j < |f| ensures f[i].id != f[j].id {
      assert f[i] == s[i] && f[j] == s[j];
    }
  }

  /** Deduplicating twice is deduplicating once. */
  lemma DistinctIdempotent<T>(s: seq<Behavior<T>>)
    ensures Distinct(Distinct(s)) == Distinct(s)
  {
    DistinctOfDistinct(Distinct(s));
  }

  // ---------------------------------------------------------------------------
  // The fold

  /** Folding a list is folding its tail around the fold of its head part. */
  lemma {:induction false} FoldAppend<T>(pre: seq<Behavior<T>>, post: seq<Behavior<T>>,
                                         req: Request, tok: Token, inner: Run<T>)
    ensures Fold(pre + post, req, tok, inner) == Fold(post, req, tok, Fold(pre, req, tok, inner))
    decreases |post|
  {
    if post == [] {
      assert pre + post == pre;
    } else {
      var front := post[..|post| - 1];
      assert (pre + post)[..|pre + post| - 1] == pre + front;
      assert (pre + post)[|pre + post| - 1] == post[|post| - 1];
      FoldAppend(pre, front, req, tok, inner);
    }
  }

  /** Onion order of the fold: for behaviors that call `next` once, the
      pre-logic runs from the last behavior to the first, then the innermost
      continuation, then the post-logic from the first behavior to the last
      (skipped when the continuation threw); the outcome is the innermost one. */
  lemma {:induction false} FoldOnionOrder<T>(bs: seq<Behavior<T>>, req: Request, tok: Token, inner: Run<T>)
    requires forall i :: 0 <= i < |bs| ==> CallsNextOnce(bs[i])
    ensures Fold(bs, req, tok, inner) ==
            Run(inner.outcome,
                Enters(Reverse(bs), req, tok) + inner.trace + (if inner.outcome.Ok? then Exits(bs) else []))
    decreases |bs|
  {
    if bs != [] {
      var front, last := bs[..|bs| - 1], bs[|bs| - 1];
      FoldOnionOrder(front, req, tok, inner);
      LayerOnce(last, req, tok, Fold(front, req, tok, inner));
      WrapLayer(last, req, tok, inner.outcome, Enters(Reverse(front), req, tok), inner.trace, Exits(front));
      assert front + [last] == bs;
      EntersReverseSnoc(front, last, req, tok);
      ExitsSnoc(front, last);
    } else {
      assert Enters(Reverse(bs), req, tok) == [];
    }
  }

  /** A behavior that calls `next` once wraps its pre- and post-logic around it. */
  lemma LayerOnce<T>(b: Behavior<T>, req: Request, tok: Token, next: Run<T>)
    requires CallsNextOnce(b)
    ensures Layer(b, req, tok, next) ==
            Run(next.outcome, [Enter(b.id, req, tok)] + next.trace + Post(b, next.outcome))
  {
  }

  /** Wrapping an onion-shaped run in one more layer. */
  lemma WrapLayer<T>(b: Behavior<T>, req: Request, tok: Token, o: Outcome<T>,
                     pre: seq<Event>, mid: seq<Event>, post: seq<Event>)
    ensures Run(o, [Enter(b.id, req, tok)] + (pre + mid + (if o.Ok? then post else [])) + Post(b, o)) ==
            Run(o, ([Enter(b.id, req, tok)] + pre) + mid + (if o.Ok? then post + [Exit(b.id)] else []))
  {
    var enter := [Enter(b.id, req, tok)];
    if o.Ok? {
      assert enter + (pre + mid + post) + [Exit(b.id)] == (enter + pre) + mid + (post + [Exit(b.id)]);
    } else {
      assert enter + (pre + mid + []) + [] == (enter + pre) + mid + [];
    }
  }

  lemma EntersReverseSnoc<T>(front: seq<Behavior<T>>, last: Behavior<T>, req: Request, tok: Token)
    ensures Enters(Reverse(front + [last]), req, tok) == [Enter(last.id, req, tok)] + Enters(Reverse(front), req, tok)
  {
    var bs := front + [last];
    assert bs[..|bs| - 1] == front && bs[|bs| - 1] == last;
    assert Reverse(bs) == [last] + Reverse(front);
    assert ([last] + Reverse(front))[1..] == Reverse(front);
  }

  /** A behavior that answers without calling `next` decides the outcome: the
      behaviors inside it and the handler never run, whatever they are. */
  lemma FoldShortCircuit<T>(pre: seq<Behavior<T>>, b: Behavior<T>, post: seq<Behavior<T>>,
                            req: Request, tok: Token, inner: Run<T>)
    requires b.action.Answer?
    requires forall i :: 0 <= i < |post| ==> CallsNextOnce(post[i])
    ensures var r := Fold(pre + [b] + post, req, tok, inner);
            r.outcome == b.action.answer &&
            r.trace == Enters(Reverse(post), req, tok) + [Enter(b.id, req, tok)] +
                       (if r.outcome.Ok? then Exits(post) else []) &&
            HandlerCalls(r.trace) == []
  {
    var mid := Fold(pre + [b], req, tok, inner);
    FoldEndsInAnswer(pre, b, req, tok, inner);
    FoldAppend(pre + [b], post, req, tok, inner);
    FoldOnionOrder(post, req, tok, mid);
    FoldKeepsHandlerCalls(post, req, tok, mid);
    assert HandlerCalls(mid.trace) == [];
  }

  /** Whatever is inside it, an answering behavior's layer is just its answer. */
  lemma FoldEndsInAnswer<T>(pre: seq<Behavior<T>>, b: Behavior<T>, req: Request, tok: Token, inner: Run<T>)
    requires b.action.Answer?
    ensures Fold(pre + [b], req, tok, inner) == Run(b.action.answer, [Enter(b.id, req, tok)])
  {
    assert (pre + [b])[..|pre + [b]| - 1] == pre;
  }

  /** Behaviors that call `next` once return the innermost outcome and add no handler call. */
  lemma FoldKeepsHandlerCalls<T>(bs: seq<Behavior<T>>, req: Request, tok: Token, inner: Run<T>)
    requires forall i :: 0 <= i < |bs| ==> CallsNextOnce(bs[i])
    ensures Fold(bs, req, tok, inner).outcome == inner.outcome
    ensures HandlerCalls(Fold(bs, req, tok, inner).trace) == HandlerCalls(inner.trace)
  {
    FoldOnionOrder(bs, req, tok, inner);
    var tail := if inner.outcome.Ok? then Exits(bs) else [];
    EnteredIdsOfEnters(Reverse(bs), req, tok);
    EnteredIdsOfExits(bs);
    HandlerCallsBetween(Enters(Reverse(bs), req, tok), inner.trace, tail);
  }

  /** Every layer and the innermost continuation receive the request and token of the call. */
  lemma {:induction false} FoldSeesOneRequest<T>(bs: seq<Behavior<T>>, req: Request, tok: Token, inner: Run<T>)
    requires AllSee(inner.trace, req, tok)
    ensures AllSee(Fold(bs, req, tok, inner).trace, req, tok)
    decreases |bs|
  {
    if bs != [] {
      FoldSeesOneRequest(bs[..|bs| - 1], req, tok, inner);
    }
  }

  // ---------------------------------------------------------------------------
  // The entry points

  /** Whatever the behaviors do, every behavior and the handler see the request
      and token given to `SendAsync`: `next` takes no request. */
  lemma SendAsyncSeesOneRequest<T>(c: Container<T>, req: Request, tok: Token)
    ensures AllSee(Fold(Distinct(Resolve(c.behaviors, req.tag)), req, tok,
                        Innermost(c.handlers, req, tok)).trace, req, tok)
  {
    FoldSeesOneRequest(Distinct(Resolve(c.behaviors, req.tag)), req, tok, Innermost(c.handlers, req, tok));
  }

  /** With no behaviors registered, `SendAsync` calls the handler once with
      the original request and returns exactly what it returned. */
  lemma SendAsyncWithoutBehaviors<T>(c: Container<T>, req: Request, tok: Token)
    requires Resolve(c.behaviors, req.tag) == []
    requires req.tag in c.handlers
    ensures Fold(Distinct(Resolve(c.behaviors, req.tag)), req, tok, Innermost(c.handlers, req, tok)) ==
            Run(c.handlers[req.tag](req, tok), [Handle(req, tok)])
  {
  }

  /** Pass-through behaviors around a registered handler: pre-logic from the
      last registered to the first, one handler call with the original request,
      post-logic from the first to the last; the handler's result comes back
      unchanged. */
  lemma SendAsyncOnionOrder<T>(c: Container<T>, req: Request, tok: Token)
    requires req.tag in c.handlers
    requires AllPassThrough(Resolve(c.behaviors, req.tag))
    ensures var d := Distinct(Resolve(c.behaviors, req.tag));
            var o := c.handlers[req.tag](req, tok);
            Fold(d, req, tok, Innermost(c.handlers, req, tok)) ==
            Run(o, Enters(Reverse(d), req, tok) + [Handle(req, tok)] + (if o.Ok? then Exits(d) else []))
  {
    var d := Distinct(Resolve(c.behaviors, req.tag));
    FoldOnionOrder(d, req, tok, Innermost(c.handlers, req, tok));
  }

  /** The handler is resolved only by the innermost continuation: with no
      handler registered, the pre-logic of every pass-through behavior has
      already run when the missing-handler error is raised, and no post-logic
      runs. */
  lemma SendAsyncMissingHandler<T>(c: Container<T>, req: Request, tok: Token)
    requires req.tag !in c.handlers
    requires AllPassThrough(Resolve(c.behaviors, req.tag))
    ensures var d := Distinct(Resolve(c.behaviors, req.tag));
            Fold(d, req, tok, Innermost(c.handlers, req, tok)) ==
            Run(Err(HandlerNotFound(req.tag)), Enters(Reverse(d), req, tok))
  {
    var d := Distinct(Resolve(c.behaviors, req.tag));
    FoldOnionOrder(d, req, tok, Innermost(c.handlers, req, tok));
    assert Enters(Reverse(d), req, tok) + [] + [] == Enters(Reverse(d), req, tok);
  }

  /** For behaviors that call `next` once, the pre-logic of each runs once,
      from the last behavior to the first. */
  lemma FoldEntersEachOnce<T>(bs: seq<Behavior<T>>, req: Request, tok: Token, inner: Run<T>)
    requires forall i :: 0 <= i < |bs| ==> CallsNextOnce(bs[i])
    requires EnteredIds(inner.trace) == []
    ensures EnteredIds(Fold(bs, req, tok, inner).trace) == Ids(Reverse(bs))
  {
    FoldOnionOrder(bs, req, tok, inner);
    var tail := if inner.outcome.Ok? then Exits(bs) else [];
    EnteredIdsAppend(Enters(Reverse(bs), req, tok), inner.trace);
    EnteredIdsAppend(Enters(Reverse(bs), req, tok) + inner.trace, tail);
    EnteredIdsOfEnters(Reverse(bs), req, tok);
    EnteredIdsOfExits(bs);
  }

  lemma IdsUnique<T>(bs: seq<Behavior<T>>)
    requires UniqueInstances(bs)
    ensures NoDuplicates(Ids(bs))
  {
    forall i, j | 0 <= i < j < |bs| ensures Ids(bs)[i] != Ids(bs)[j] {
      IdsAt(bs, i);
      IdsAt(bs, j);
    }
  }

  lemma ReverseUnique<T>(d: seq<Behavior<T>>)
    requires UniqueInstances(d)
    ensures UniqueInstances(Reverse(d))
  {
    var r := Reverse(d);
    forall i, j | 0 <= i < j < |r| ensures r[i].id != r[j].id {
      assert r[i] == d[|d| - 1 - i] && r[j] == d[|d| - 1 - j];
    }
  }

  lemma IdsOfReverseCover<T>(d: seq<Behavior<T>>, k: nat)
    requires k < |d|
    ensures d[k].id in Ids(Reverse(d))
  {
    var r := Reverse(d);
    assert r[|d| - 1 - k] == d[k];
    IdsHas(r, |d| - 1 - k);
  }

  lemma IdsOfReverse<T>(d: seq<Behavior<T>>)
    requires UniqueInstances(d)
    ensures NoDuplicates(Ids(Reverse(d)))
    ensures forall k :: 0 <= k < |d| ==> d[k].id in Ids(Reverse(d))
  {
    ReverseUnique(d);
    IdsUnique(Reverse(d));
    forall k | 0 <= k < |d| ensures d[k].id in Ids(Reverse(d)) {
      IdsOfReverseCover(d, k);
    }
  }

  /** A behavior instance registered more than once runs once per call: the
      pre-logic of every registered instance runs, and none runs twice. */
  lemma SendAsyncRunsEachInstanceOnce<T>(c: Container<T>, req: Request, tok: Token)
    requires AllPassThrough(Resolve(c.behaviors, req.tag))
    ensures var bs := Resolve(c.behaviors, req.tag);
            var entered := EnteredIds(Fold(Distinct(bs), req, tok, Innermost(c.handlers, req, tok)).trace);
            NoDuplicates(entered) && forall i :: 0 <= i < |bs| ==> bs[i].id in entered
  {
    var bs := Resolve(c.behaviors, req.tag);
    var d := Distinct(bs);
    var inner := Innermost(c.handlers, req, tok);
    assert EnteredIds(inner.trace) == [] by {
      if req.tag in c.handlers {
        assert EnteredIds(inner.trace) == EnteredIds([Handle(req, tok)]);
      }
    }
    FoldEntersEachOnce(d, req, tok, inner);
    IdsOfReverse(d);
    forall i | 0 <= i < |bs| ensures bs[i].id in Ids(Reverse(d)) {
      var k :| 0 <= k < |d| && d[k].id == bs[i].id;
    }
  }

  /** The void variant behind pass-through behaviors completes exactly as the
      void handler did, after one call with the original request. */
  lemma SendAsyncVoidOnionOrder(c: VoidContainer, req: Request, tok: Token)
    requires req.tag in c.handlers
    requires AllPassThrough(Resolve(c.behaviors, req.tag))
    ensures var d := Distinct(Resolve(c.behaviors, req.tag));
            var run := Fold(d, req, tok, InnermostVoid(c.handlers, req, tok));
            Discard(run.outcome) == c.handlers[req.tag](req, tok) &&
            HandlerCalls(run.trace) == [Handle(req, tok)]
  {
    var d := Distinct(Resolve(c.behaviors, req.tag));
    var inner := InnermostVoid(c.handlers, req, tok);
    FoldKeepsHandlerCalls(d, req, tok, inner);
    assert HandlerCalls(inner.trace) == [Handle(req, tok)] by {
      assert inner.trace == [Handle(req, tok)];
    }
  }
}
