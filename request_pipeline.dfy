/** The shared-cursor pipelines: one object holds an enumerator over the
    behaviors and the handler. Each `InvokeAsync` advances the enumerator; if
    a behavior remains it is called with the pipeline itself as `next`,
    otherwise the handler is called with the request that invocation was
    given. The first behavior of the list is therefore outermost, and since
    the enumerator only moves forward, a behavior that calls `next` again
    after the behaviors are used up reaches the handler directly. */
module RequestPipelines {
  import opened Pipeline

  /** An invocation's run, and where the shared cursor stands after it. */
  datatype Step<T> = Step(run: Run<T>, cursor: nat)

  /** The run of a pass-through layer `b` whose continuation produced `inner`. */
  function Around<T>(b: Behavior<T>, req: Request, tok: Token, inner: Step<T>): Step<T> {
    Step(Run(inner.run.outcome, [Enter(b.id, req, tok)] + inner.run.trace + Post(b, inner.run.outcome)),
         inner.cursor)
  }

  /** `InvokeAsync(request, token)` on a pipeline over `bs` and `h` whose
      enumerator has moved `k` times. */
  function Invoke<T>(bs: seq<Behavior<T>>, h: Handler<T>, k: nat, req: Request, tok: Token): (s: Step<T>)
    requires k <= |bs|
    ensures k <= s.cursor <= |bs|
    ensures k < |bs| ==> k < s.cursor
    decreases 2 * (|bs| - k) + 1
  {
    if k < |bs| then Behave(bs, h, k + 1, req, tok)
    else Step(Run(h(req, tok), [Handle(req, tok)]), k)
  }

  /** `Current.HandleAsync(request, this, token)` with the enumerator at
      `k`, so that the current behavior is `bs[k - 1]`. */
  function Behave<T>(bs: seq<Behavior<T>>, h: Handler<T>, k: nat, req: Request, tok: Token): (s: Step<T>)
    requires 1 <= k <= |bs|
    ensures k <= s.cursor <= |bs|
    decreases 2 * (|bs| - k) + 2
  {
    var b := bs[k - 1];
    match b.action
    case Answer(o) => Step(Run(o, [Enter(b.id, req, tok)]), k)
    case PassThrough => Around(b, req, tok, Invoke(bs, h, k, req, tok))
    case Forward(newRequest) => Around(b, req, tok, Invoke(bs, h, k, newRequest, tok))
    case Retry =>
      var first := Invoke(bs, h, k, req, tok);
      if first.run.outcome.Err? then
        Step(Run(first.run.outcome, [Enter(b.id, req, tok)] + first.run.trace), first.cursor)
      else
        var second := Invoke(bs, h, first.cursor, req, tok);
        Step(Run(second.run.outcome,
                 [Enter(b.id, req, tok)] + first.run.trace + second.run.trace + Post(b, second.run.outcome)),
             second.cursor)
  }

  /** `RequestPipeline<TRequest, TResponse>`: the cursor pipeline ending at
      `IRequestHandler.HandleAsync`. */
  class RequestPipeline<T> {
    const behaviors: seq<Behavior<T>>
    const handler: Handler<T>
    /** How many times `MoveNext` has succeeded on the behaviors' enumerator. */
    var cursor: nat

    ghost predicate Valid()
      reads this
    {
      cursor <= |behaviors|
    }

    constructor (behaviors: seq<Behavior<T>>, handler: Handler<T>)
      ensures Valid()
      ensures this.behaviors == behaviors && this.handler == handler && cursor == 0
    {
      this.behaviors := behaviors;
      this.handler := handler;
      cursor := 0;
    }

    /** `behaviors.MoveNext()`: an exhausted enumerator stays exhausted. */
    method MoveNext() returns (moved: bool)
      requires Valid()
      modifies this`cursor
      ensures Valid()
      ensures moved <==> old(cursor) < |behaviors|
      ensures cursor == if moved then old(cursor) + 1 else old(cursor)
    {
      moved := cursor < |behaviors|;
      if moved {
        cursor := cursor + 1;
      }
    }

    method InvokeAsync(request: Request, token: Token) returns (r: Run<T>)
      requires Valid()
      modifies this`cursor
      ensures Valid()
      ensures Step(r, cursor) == Invoke(behaviors, handler, old(cursor), request, token)
      decreases 2 * (|behaviors| - cursor) + 1
    {
      var moved := MoveNext();
      if moved {
        r := CallCurrent(request, token);
      } else {
        r := Run(handler(request, token), [Handle(request, token)]);
      }
    }

    /** `behaviors.Current.HandleAsync(request, this, token)`: what the current
        behavior does, with this pipeline as its `next`. */
    method CallCurrent(request: Request, token: Token) returns (r: Run<T>)
      requires Valid() && 1 <= cursor
      modifies this`cursor
      ensures Valid()
      ensures Step(r, cursor) == Behave(behaviors, handler, old(cursor), request, token)
      decreases 2 * (|behaviors| - cursor) + 2
    {
      var b := behaviors[cursor - 1];
      var enter := Enter(b.id, request, token);
      match b.action {
        case Answer(o) =>
          r := Run(o, [enter]);
        case PassThrough =>
          var inner := InvokeAsync(request, token);
          r := Run(inner.outcome, [enter] + inner.trace + Post(b, inner.outcome));
        case Forward(newRequest) =>
          var inner := InvokeAsync(newRequest, token);
          r := Run(inner.outcome, [enter] + inner.trace + Post(b, inner.outcome));
        case Retry =>
          var first := InvokeAsync(request, token);
          if first.outcome.Err? {
            r := Run(first.outcome, [enter] + first.trace);
          } else {
            var second := InvokeAsync(request, token);
            r := Run(second.outcome, [enter] + first.trace + second.trace + Post(b, second.outcome));
          }
      }
    }
  }

  /** `RequestPipelineTaskHandlers<TRequest, TResponse>`: the same cursor
      pipeline ending at `Tasks.IRequestHandler.Handle`. */
  class RequestPipelineTaskHandlers<T> {
    const behaviors: seq<Behavior<T>>
    const handler: Handler<T>
    /** How many times `MoveNext` has succeeded on `_behaviors`. */
    var cursor: nat

    ghost predicate Valid()
      reads this
    {
      cursor <= |behaviors|
    }

    constructor (behaviors: seq<Behavior<T>>, handler: Handler<T>)
      ensures Valid()
      ensures this.behaviors == behaviors && this.handler == handler && cursor == 0
    {
      this.behaviors := behaviors;
      this.handler := handler;
      cursor := 0;
    }

    /** `_behaviors.MoveNext()`: an exhausted enumerator stays exhausted. */
    method MoveNext() returns (moved: bool)
      requires Valid()
      modifies this`cursor
      ensures Valid()
      ensures moved <==> old(cursor) < |behaviors|
      ensures cursor == if moved then old(cursor) + 1 else old(cursor)
    {
      moved := cursor < |behaviors|;
      if moved {
        cursor := cursor + 1;
      }
    }

    method InvokeAsync(request: Request, token: Token) returns (r: Run<T>)
      requires Valid()
      modifies this`cursor
      ensures Valid()
      ensures Step(r, cursor) == Invoke(behaviors, handler, old(cursor), request, token)
      decreases 2 * (|behaviors| - cursor) + 1
    {
      var moved := MoveNext();
      if moved {
        r := CallCurrent(request, token);
      } else {
        var response := handler(request, token);
        r := Run(response, [Handle(request, token)]);
      }
    }

    /** `_behaviors.Current.HandleAsync(request, this, token)`, awaited. */
    method CallCurrent(request: Request, token: Token) returns (r: Run<T>)
      requires Valid() && 1 <= cursor
      modifies this`cursor
      ensures Valid()
      ensures Step(r, cursor) == Behave(behaviors, handler, old(cursor), request, token)
      decreases 2 * (|behaviors| - cursor) + 2
    {
      var b := behaviors[cursor - 1];
      var enter := Enter(b.id, request, token);
      match b.action {
        case Answer(o) =>
          r := Run(o, [enter]);
        case PassThrough =>
          var inner := InvokeAsync(request, token);
          r := Run(inner.outcome, [enter] + inner.trace + Post(b, inner.outcome));
        case Forward(newRequest) =>
          var inner := InvokeAsync(newRequest, token);
          r := Run(inner.outcome, [enter] + inner.trace + Post(b, inner.outcome));
        case Retry =>
          var first := InvokeAsync(request, token);
          if first.outcome.Err? {
            r := Run(first.outcome, [enter] + first.trace);
          } else {
            var second := InvokeAsync(request, token);
            r := Run(second.outcome, [enter] + first.trace + second.trace + Post(b, second.outcome));
          }
      }
    }
  }

  // ---------------------------------------------------------------------------
  // Properties of the cursor pipeline

  /** Onion order of the cursor pipeline: from cursor `k`, pass-through
      behaviors run their pre-logic in list order, the handler runs once with
      the request given, and the post-logic runs in reverse list order
      (skipped when the handler threw); the handler's outcome comes back
      unchanged and the enumerator ends exhausted. With `k == |bs|` (an empty
      list, say) this is the handler's call alone. */
  lemma {:induction false} OnionOrder<T>(bs: seq<Behavior<T>>, h: Handler<T>, k: nat, req: Request, tok: Token)
    requires k <= |bs|
    requires AllPassThrough(bs[k..])
    ensures var o := h(req, tok);
            Invoke(bs, h, k, req, tok) ==
            Step(Run(o, Enters(bs[k..], req, tok) + [Handle(req, tok)] +
                        (if o.Ok? then Exits(Reverse(bs[k..])) else [])),
                 |bs|)
    decreases |bs| - k
  {
    if k < |bs| {
      assert bs[k..][0] == bs[k];
      assert AllPassThrough(bs[k + 1..]) by {
        assert bs[k + 1..] == bs[k..][1..];
      }
      OnionOrder(bs, h, k + 1, req, tok);
      PeelPassThrough(bs, h, k, req, tok);
      assert bs[k..|bs|] == bs[k..] && bs[k + 1..|bs|] == bs[k + 1..];
      WrapOnion(bs[k], req, tok, h(req, tok), Enters(bs[k + 1..], req, tok), [Handle(req, tok)],
                Exits(Reverse(bs[k + 1..])), |bs|);
      SliceLayers(bs, k, |bs|, req, tok);
    } else {
      assert bs[k..] == [];
    }
  }

  /** A pass-through behavior wraps whatever the rest of the pipeline does. */
  lemma PeelPassThrough<T>(bs: seq<Behavior<T>>, h: Handler<T>, k: nat, req: Request, tok: Token)
    requires k < |bs| && bs[k].action.PassThrough?
    ensures Invoke(bs, h, k, req, tok) == Around(bs[k], req, tok, Invoke(bs, h, k + 1, req, tok))
  {
  }

  /** Wrapping an onion-shaped run in one more pass-through layer. */
  lemma WrapOnion<T>(b: Behavior<T>, req: Request, tok: Token, o: Outcome<T>,
                     pre: seq<Event>, mid: seq<Event>, post: seq<Event>, c: nat)
    ensures Around(b, req, tok, Step(Run(o, pre + mid + (if o.Ok? then post else [])), c)) ==
            Step(Run(o, ([Enter(b.id, req, tok)] + pre) + mid + (if o.Ok? then post + [Exit(b.id)] else [])), c)
  {
    var enter := [Enter(b.id, req, tok)];
    if o.Ok? {
      assert enter + (pre + mid + post) + [Exit(b.id)] == (enter + pre) + mid + (post + [Exit(b.id)]);
    } else {
      assert enter + (pre + mid + []) + [] == (enter + pre) + mid + [];
    }
  }

  /** The pre- and post-logic steps of `bs[k..m]` split off its first behavior. */
  lemma SliceLayers<T>(bs: seq<Behavior<T>>, k: nat, m: nat, req: Request, tok: Token)
    requires k < m <= |bs|
    ensures Enters(bs[k..m], req, tok) == [Enter(bs[k].id, req, tok)] + Enters(bs[k + 1..m], req, tok)
    ensures Exits(Reverse(bs[k..m])) == Exits(Reverse(bs[k + 1..m])) + [Exit(bs[k].id)]
  {
    assert bs[k..m] == [bs[k]] + bs[k + 1..m];
    assert bs[k..m][1..] == bs[k + 1..m];
    ReverseCons(bs[k], bs[k + 1..m]);
    ExitsSnoc(Reverse(bs[k + 1..m]), bs[k]);
  }

  /** The behaviors whose pre-logic runs are exactly those the enumerator
      passes over, each once and in list order. */
  lemma {:induction false} InvokeEntersEachOnce<T>(bs: seq<Behavior<T>>, h: Handler<T>, k: nat, req: Request, tok: Token)
    requires k <= |bs|
    ensures var s := Invoke(bs, h, k, req, tok);
            EnteredIds(s.run.trace) == Ids(bs[k..s.cursor])
    decreases 3 * (|bs| - k) + 1
  {
    if k < |bs| {
      BehaveEntersEachOnce(bs, h, k + 1, req, tok);
    } else {
      assert EnteredIds([Handle(req, tok)]) == [];
    }
  }

  lemma {:induction false} BehaveEntersEachOnce<T>(bs: seq<Behavior<T>>, h: Handler<T>, k: nat, req: Request, tok: Token)
    requires 1 <= k <= |bs|
    ensures var s := Behave(bs, h, k, req, tok);
            EnteredIds(s.run.trace) == Ids(bs[k - 1..s.cursor])
    decreases 3 * (|bs| - k) + 3
  {
    var b := bs[k - 1];
    match b.action
    case Answer(o) =>
      assert bs[k - 1..k] == [b];
      assert EnteredIds([Enter(b.id, req, tok)]) == [b.id];
    case PassThrough =>
      InvokeEntersEachOnce(bs, h, k, req, tok);
      EnteredIdsOfAround(b, req, tok, Invoke(bs, h, k, req, tok));
      IdsSplit(bs, k - 1, k, Invoke(bs, h, k, req, tok).cursor);
    case Forward(newRequest) =>
      InvokeEntersEachOnce(bs, h, k, newRequest, tok);
      EnteredIdsOfAround(b, req, tok, Invoke(bs, h, k, newRequest, tok));
      IdsSplit(bs, k - 1, k, Invoke(bs, h, k, newRequest, tok).cursor);
    case Retry =>
      RetryEntersEachOnce(bs, h, k, req, tok);
  }

  /** The retrying case of `BehaveEntersEachOnce`: the second call of `next`
      starts where the first left the enumerator. */
  lemma {:induction false} RetryEntersEachOnce<T>(bs: seq<Behavior<T>>, h: Handler<T>, k: nat, req: Request, tok: Token)
    requires 1 <= k <= |bs| && bs[k - 1].action.Retry?
    ensures var s := Behave(bs, h, k, req, tok);
            EnteredIds(s.run.trace) == Ids(bs[k - 1..s.cursor])
    decreases 3 * (|bs| - k) + 2
  {
    var b := bs[k - 1];
    var enter := [Enter(b.id, req, tok)];
    var first := Invoke(bs, h, k, req, tok);
    var s := Behave(bs, h, k, req, tok);
    InvokeEntersEachOnce(bs, h, k, req, tok);
    assert Ids(bs[k - 1..k]) == [b.id] by { assert bs[k - 1..k] == [b]; }
    assert EnteredIds(enter) == [b.id];
    IdsSplit(bs, k - 1, k, first.cursor);
    if first.run.outcome.Ok? {
      var second := Invoke(bs, h, first.cursor, req, tok);
      var post := Post(b, second.run.outcome);
      assert s == Step(Run(second.run.outcome, enter + first.run.trace + second.run.trace + post), second.cursor);
      InvokeEntersEachOnce(bs, h, first.cursor, req, tok);
      IdsSplit(bs, k - 1, first.cursor, second.cursor);
      EnteredIdsOfPost(b, second.run.outcome);
      EnteredIdsOfRetry(b, req, tok, first.run.trace, second.run.trace, post);
    } else {
      assert s == Step(Run(first.run.outcome, enter + first.run.trace), first.cursor);
      EnteredIdsAppend(enter, first.run.trace);
    }
  }

  lemma EnteredIdsOfPost<T>(b: Behavior<T>, o: Outcome<T>)
    ensures EnteredIds(Post(b, o)) == []
  {
    if o.Ok? {
      assert EnteredIds([Exit(b.id)]) == [];
    }
  }

  lemma EnteredIdsOfAround<T>(b: Behavior<T>, req: Request, tok: Token, inner: Step<T>)
    ensures EnteredIds(Around(b, req, tok, inner).run.trace) == [b.id] + EnteredIds(inner.run.trace)
  {
    EnteredIdsAppend([Enter(b.id, req, tok)], inner.run.trace);
    EnteredIdsAppend([Enter(b.id, req, tok)] + inner.run.trace, Post(b, inner.run.outcome));
    assert EnteredIds([Enter(b.id, req, tok)]) == [b.id];
    EnteredIdsOfPost(b, inner.run.outcome);
  }

  lemma EnteredIdsOfRetry<T>(b: Behavior<T>, req: Request, tok: Token, t1: seq<Event>, t2: seq<Event>, post: seq<Event>)
    requires EnteredIds(post) == []
    ensures EnteredIds([Enter(b.id, req, tok)] + t1 + t2 + post) == [b.id] + EnteredIds(t1) + EnteredIds(t2)
  {
    EnteredIdsAppend([Enter(b.id, req, tok)], t1);
    EnteredIdsAppend([Enter(b.id, req, tok)] + t1, t2);
    EnteredIdsAppend([Enter(b.id, req, tok)] + t1 + t2, post);
    assert EnteredIds([Enter(b.id, req, tok)]) == [b.id];
  }

  lemma IdsSplit<T>(bs: seq<Behavior<T>>, a: nat, m: nat, c: nat)
    requires a <= m <= c <= |bs|
    ensures Ids(bs[a..c]) == Ids(bs[a..m]) + Ids(bs[m..c])
  {
    assert bs[a..c] == bs[a..m] + bs[m..c];
    IdsAppend(bs[a..m], bs[m..c]);
  }

  /** However often continuations are called, a pipeline whose behaviors are
      distinct instances runs each of them at most once. */
  lemma EachBehaviorAtMostOnce<T>(bs: seq<Behavior<T>>, h: Handler<T>, req: Request, tok: Token)
    requires UniqueInstances(bs)
    ensures NoDuplicates(EnteredIds(Invoke(bs, h, 0, req, tok).run.trace))
  {
    var s := Invoke(bs, h, 0, req, tok);
    InvokeEntersEachOnce(bs, h, 0, req, tok);
    var run := bs[..s.cursor];
    forall i, j | 0 <= i < j < |run| ensures Ids(run)[i] != Ids(run)[j] {
      IdsAt(run, i);
      IdsAt(run, j);
    }
  }

  /** A behavior that answers without calling `next` ends the chain: no later
      behavior runs, the handler is not called, and its answer comes back
      through the pass-through behaviors before it. */
  lemma {:induction false} ShortCircuit<T>(bs: seq<Behavior<T>>, h: Handler<T>, k: nat, j: nat, req: Request, tok: Token)
    requires k <= j < |bs|
    requires AllPassThrough(bs[k..j])
    requires bs[j].action.Answer?
    ensures var o := bs[j].action.answer;
            Invoke(bs, h, k, req, tok) ==
            Step(Run(o, Enters(bs[k..j + 1], req, tok) + (if o.Ok? then Exits(Reverse(bs[k..j])) else [])),
                 j + 1)
    decreases j - k
  {
    if k < j {
      assert bs[k..j][0] == bs[k];
      assert AllPassThrough(bs[k + 1..j]) by {
        assert bs[k + 1..j] == bs[k..j][1..];
      }
      ShortCircuit(bs, h, k + 1, j, req, tok);
      PeelPassThrough(bs, h, k, req, tok);
      var pre := Enters(bs[k + 1..j + 1], req, tok);
      assert pre + [] == pre && Enters(bs[k..j + 1], req, tok) + [] == Enters(bs[k..j + 1], req, tok);
      WrapOnion(bs[k], req, tok, bs[j].action.answer, pre, [],
                Exits(Reverse(bs[k + 1..j])), j + 1);
      SliceLayers(bs, k, j + 1, req, tok);
      SliceLayers(bs, k, j, req, tok);
    } else {
      var o := bs[j].action.answer;
      assert bs[k..j + 1] == [bs[j]];
      assert bs[k..j] == [];
      assert Enters([bs[j]], req, tok) == [Enter(bs[j].id, req, tok)];
      assert Exits(Reverse(bs[k..j])) == [];
      assert [Enter(bs[j].id, req, tok)] + [] == [Enter(bs[j].id, req, tok)];
    }
  }

  /** The short-circuited chain never reaches the handler. */
  lemma ShortCircuitSkipsHandler<T>(bs: seq<Behavior<T>>, h: Handler<T>, j: nat, req: Request, tok: Token)
    requires j < |bs|
    requires AllPassThrough(bs[..j])
    requires bs[j].action.Answer?
    ensures HandlerCalls(Invoke(bs, h, 0, req, tok).run.trace) == []
  {
    assert bs[0..j] == bs[..j];
    ShortCircuit(bs, h, 0, j, req, tok);
    var o := bs[j].action.answer;
    var tail := if o.Ok? then Exits(Reverse(bs[..j])) else [];
    HandlerCallsAppend(Enters(bs[0..j + 1], req, tok), tail);
    EnteredIdsOfEnters(bs[0..j + 1], req, tok);
    EnteredIdsOfExits(Reverse(bs[..j]));
  }

  /** Once the behaviors are used up, a second call of `next` reaches the
      handler directly: a retrying behavior followed by pass-through
      behaviors runs them once and the handler twice. */
  lemma RetryRerunsOnlyHandler<T>(bs: seq<Behavior<T>>, h: Handler<T>, k: nat, req: Request, tok: Token)
    requires k < |bs|
    requires bs[k].action.Retry?
    requires AllPassThrough(bs[k + 1..])
    requires h(req, tok).Ok?
    ensures var o := h(req, tok);
            Invoke(bs, h, k, req, tok) ==
            Step(Run(o, [Enter(bs[k].id, req, tok)] + Enters(bs[k + 1..], req, tok) + [Handle(req, tok)] +
                        Exits(Reverse(bs[k + 1..])) + [Handle(req, tok)] + [Exit(bs[k].id)]),
                 |bs|)
  {
    var o := h(req, tok);
    var b := bs[k];
    OnionOrder(bs, h, k + 1, req, tok);
    var first := Invoke(bs, h, k + 1, req, tok);
    assert first.cursor == |bs| && first.run.outcome == o;
    assert first.run.trace == Enters(bs[k + 1..], req, tok) + [Handle(req, tok)] + Exits(Reverse(bs[k + 1..]));
    var second := Invoke(bs, h, |bs|, req, tok);
    assert second == Step(Run(o, [Handle(req, tok)]), |bs|);
    assert Invoke(bs, h, k, req, tok) == Behave(bs, h, k + 1, req, tok);
    assert Behave(bs, h, k + 1, req, tok) ==
           Step(Run(o, [Enter(b.id, req, tok)] + first.run.trace + second.run.trace + [Exit(b.id)]), |bs|);
  }

  /** The request the handler receives after the behaviors of `bs` have
      passed it on: the last one a Forward behavior handed over, else `req`. */
  function Forwarded<T>(bs: seq<Behavior<T>>, req: Request): Request {
    if bs == [] then req
    else Forwarded(bs[1..], if bs[0].action.Forward? then bs[0].action.request else req)
  }

  /** A behavior may substitute the request: behind behaviors that call `next`
      once, the handler is called exactly once, with the last substituted
      request, and its outcome is the pipeline's. */
  lemma {:induction false} ForwardReachesHandler<T>(bs: seq<Behavior<T>>, h: Handler<T>, k: nat, req: Request, tok: Token)
    requires k <= |bs|
    requires forall i :: k <= i < |bs| ==> CallsNextOnce(bs[i])
    ensures var s := Invoke(bs, h, k, req, tok);
            var seen := Forwarded(bs[k..], req);
            s.run.outcome == h(seen, tok) && HandlerCalls(s.run.trace) == [Handle(seen, tok)]
    decreases |bs| - k
  {
    if k < |bs| {
      var b := bs[k];
      var next := if b.action.Forward? then b.action.request else req;
      assert bs[k..][1..] == bs[k + 1..] && bs[k..][0] == b;
      ForwardReachesHandler(bs, h, k + 1, next, tok);
      var inner := Invoke(bs, h, k + 1, next, tok);
      HandlerCallsAppend([Enter(b.id, req, tok)], inner.run.trace);
      HandlerCallsAppend([Enter(b.id, req, tok)] + inner.run.trace, Post(b, inner.run.outcome));
    } else {
      assert bs[k..] == [];
    }
  }
}
