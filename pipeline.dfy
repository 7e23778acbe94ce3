/** Vocabulary shared by both chain builders of the mediator: requests, the
    values that flow back through a chain, pipeline behaviors, handlers, and
    the trace of observable steps a call produces. Asynchrony is erased: a
    `ValueTask<T>` is the `Outcome<T>` it completes with, and a cancellation
    token is an uninterpreted value that is only passed along. */
module Pipeline {

  /** Identity of a concrete request type (the generic argument `TRequest`). */
  type Tag = string

  /** A cancellation token, only ever passed along. */
  type Token = nat

  /** A request object: its type and the data it carries. */
  datatype Request = Request(tag: Tag, payload: string)

  /** The zero-information response of "no response" requests. */
  datatype Unit = Unit

  /** What an invocation raises instead of returning. */
  datatype Error =
    | HandlerNotFound(tag: Tag)   // the container had no handler registered for the request type
    | Thrown(reason: string)      // an exception raised by a handler or a behavior

  /** The completed value of a `ValueTask<T>` / `Task<T>`: a result or an exception. */
  datatype Outcome<T> = Ok(value: T) | Err(error: Error)

  /** The completion of a `ValueTask` / `Task` that carries no value. */
  datatype Completion = Completed | Faulted(error: Error)

  /** A handler for one request type: `HandleAsync(request, cancellationToken)`. */
  type Handler<T> = (Request, Token) -> Outcome<T>

  /** A handler of a request without a response. */
  type VoidHandler = (Request, Token) -> Completion

  /** What a pipeline behavior does with the continuation it is given. */
  datatype Action<T> =
    | PassThrough               // pre-logic, `await next(...)`, post-logic, return the awaited value
    | Answer(answer: Outcome<T>) // pre-logic, then return or throw without calling `next`
    | Forward(request: Request) // like PassThrough, but hands `request` to `next` where `next` takes one
    | Retry                     // calls `next` a second time once the first call has succeeded

  /** A registered behavior instance; `id` is the instance's identity. */
  datatype Behavior<T> = Behavior(id: nat, action: Action<T>)

  /** An observable step: a behavior's pre-logic (with the request and token it
      received), its post-logic, or a call of the handler. */
  datatype Event =
    | Enter(id: nat, req: Request, tok: Token)
    | Exit(id: nat)
    | Handle(req: Request, tok: Token)

  /** The result of invoking (part of) a chain, and the steps it took. */
  datatype Run<T> = Run(outcome: Outcome<T>, trace: seq<Event>)

  /** A behavior that calls its continuation exactly once. */
  predicate CallsNextOnce<T>(b: Behavior<T>) {
    b.action.PassThrough? || b.action.Forward?
  }

  predicate AllPassThrough<T>(bs: seq<Behavior<T>>) {
    forall i :: 0 <= i < |bs| ==> bs[i].action.PassThrough?
  }

  /** The pre-logic steps of `bs`, in the order of `bs`. */
  function Enters<T>(bs: seq<Behavior<T>>, req: Request, tok: Token): (es: seq<Event>)
    ensures |es| == |bs|
  {
    if bs == [] then [] else [Enter(bs[0].id, req, tok)] + Enters(bs[1..], req, tok)
  }

  /** The post-logic steps of `bs`, in the order of `bs`. */
  function Exits<T>(bs: seq<Behavior<T>>): (es: seq<Event>)
    ensures |es| == |bs|
  {
    if bs == [] then [] else [Exit(bs[0].id)] + Exits(bs[1..])
  }

  function Reverse<X>(s: seq<X>): (r: seq<X>)
    ensures |r| == |s|
    ensures forall i :: 0 <= i < |s| ==> r[i] == s[|s| - 1 - i]
  {
    if s == [] then [] else [s[|s| - 1]] + Reverse(s[..|s| - 1])
  }

  function Ids<T>(bs: seq<Behavior<T>>): (ids: seq<nat>)
    ensures |ids| == |bs|
  {
    if bs == [] then [] else [bs[0].id] + Ids(bs[1..])
  }

  /** The post-logic step of `b`: it runs only when the awaited continuation did not throw. */
  function Post<T>(b: Behavior<T>, o: Outcome<T>): seq<Event> {
    if o.Ok? then [Exit(b.id)] else []
  }

  lemma {:induction false} ExitsSnoc<T>(bs: seq<Behavior<T>>, b: Behavior<T>)
    ensures Exits(bs + [b]) == Exits(bs) + [Exit(b.id)]
  {
    if bs == [] {
      assert [] + [b] == [b];
    } else {
      assert (bs + [b])[1..] == bs[1..] + [b];
      ExitsSnoc(bs[1..], b);
    }
  }

  lemma ReverseCons<X>(x: X, s: seq<X>)
    ensures Reverse([x] + s) == Reverse(s) + [x]
  {
  }

  lemma {:induction false} IdsAppend<T>(a: seq<Behavior<T>>, b: seq<Behavior<T>>)
    ensures Ids(a + b) == Ids(a) + Ids(b)
  {
    if a == [] {
      assert a + b == b;
    } else {
      assert (a + b)[0] == a[0] && (a + b)[1..] == a[1..] + b;
      IdsAppend(a[1..], b);
    }
  }

  /** The identities of the behaviors whose pre-logic ran, in the order it ran. */
  function EnteredIds(trace: seq<Event>): seq<nat> {
    if trace == [] then []
    else (if trace[0].Enter? then [trace[0].id] else []) + EnteredIds(trace[1..])
  }

  /** The handler calls of a trace. */
  function HandlerCalls(trace: seq<Event>): seq<Event> {
    if trace == [] then []
    else (if trace[0].Handle? then [trace[0]] else []) + HandlerCalls(trace[1..])
  }

  lemma {:induction false} EnteredIdsAppend(a: seq<Event>, b: seq<Event>)
    ensures EnteredIds(a + b) == EnteredIds(a) + EnteredIds(b)
  {
    if a == [] {
      assert a + b == b;
    } else {
      assert (a + b)[0] == a[0] && (a + b)[1..] == a[1..] + b;
      EnteredIdsAppend(a[1..], b);
      var head := if a[0].Enter? then [a[0].id] else [];
      calc {
        EnteredIds(a + b);
        head + EnteredIds(a[1..] + b);
        head + (EnteredIds(a[1..]) + EnteredIds(b));
        (head + EnteredIds(a[1..])) + EnteredIds(b);
      }
    }
  }

  lemma {:induction false} HandlerCallsAppend(a: seq<Event>, b: seq<Event>)
    ensures HandlerCalls(a + b) == HandlerCalls(a) + HandlerCalls(b)
  {
    if a == [] {
      assert a + b == b;
    } else {
      assert (a + b)[0] == a[0] && (a + b)[1..] == a[1..] + b;
      HandlerCallsAppend(a[1..], b);
      var head := if a[0].Handle? then [a[0]] else [];
      calc {
        HandlerCalls(a + b);
        head + HandlerCalls(a[1..] + b);
        head + (HandlerCalls(a[1..]) + HandlerCalls(b));
        (head + HandlerCalls(a[1..])) + HandlerCalls(b);
      }
    }
  }

  /** Handler calls only come from the middle of a trace framed by steps without any. */
  lemma HandlerCallsBetween(pre: seq<Event>, mid: seq<Event>, post: seq<Event>)
    requires HandlerCalls(pre) == [] && HandlerCalls(post) == []
    ensures HandlerCalls(pre + mid + post) == HandlerCalls(mid)
  {
    HandlerCallsAppend(pre, mid);
    HandlerCallsAppend(pre + mid, post);
  }

  lemma {:induction false} EnteredIdsOfEnters<T>(bs: seq<Behavior<T>>, req: Request, tok: Token)
    ensures EnteredIds(Enters(bs, req, tok)) == Ids(bs)
    ensures HandlerCalls(Enters(bs, req, tok)) == []
  {
    if bs != [] {
      EnteredIdsOfEnters(bs[1..], req, tok);
    }
  }

  lemma {:induction false} EnteredIdsOfExits<T>(bs: seq<Behavior<T>>)
    ensures EnteredIds(Exits(bs)) == []
    ensures HandlerCalls(Exits(bs)) == []
  {
    if bs != [] {
      EnteredIdsOfExits(bs[1..]);
    }
  }

  /** Every behavior and handler call in `trace` received `req` and `tok`. */
  predicate AllSee(trace: seq<Event>, req: Request, tok: Token) {
    forall i :: 0 <= i < |trace| && !trace[i].Exit? ==> trace[i].req == req && trace[i].tok == tok
  }

  lemma {:induction false} IdsAt<T>(bs: seq<Behavior<T>>, i: nat)
    requires i < |bs|
    ensures Ids(bs)[i] == bs[i].id
  {
    if i > 0 { IdsAt(bs[1..], i - 1); }
  }

  lemma IdsHas<T>(bs: seq<Behavior<T>>, i: nat)
    requires i < |bs|
    ensures bs[i].id in Ids(bs)
  {
    IdsAt(bs, i);
    assert Ids(bs)[i] == bs[i].id;
  }

  /** No instance occurs twice in `bs`. */
  predicate UniqueInstances<T>(bs: seq<Behavior<T>>) {
    forall i, j :: 0 <= i < j < |bs| ==> bs[i].id != bs[j].id
  }

  /** The instance `id` occurs in `bs`. */
  predicate HasInstance<T>(bs: seq<Behavior<T>>, id: nat) {
    exists k :: 0 <= k < |bs| && bs[k].id == id
  }

  predicate NoDuplicates<X(==)>(s: seq<X>) {
    forall i, j :: 0 <= i < j < |s| ==> s[i] != s[j]
  }
}
