# MitMediator dispatch core in Dafny

This project models the request/response dispatch core of MitMediator, an
in-process mediator for .NET, and proves properties of the model. It covers
three things:

- **The mediator's chain builder** (`Mediator.cs`). This is module
  `Mediator`. Each of the four `Send`/`SendAsync` entry points does the
  following:
  - It resolves the pipeline behaviors registered for the request type.
  - It drops repeated instances (`Distinct()`).
  - It makes an innermost continuation that resolves the handler and calls it.
  - A `foreach` then reassigns a closure, wrapping each behavior around the
    continuation built so far.

  The method `Compose` keeps that loop and its closures. A loop invariant
  ties them to the pure function `Fold`, and the entry-point methods are
  proved equal to `Fold` over the deduplicated registrations.
- **The cursor pipelines** (`RequestPipeline.cs`,
  `RequestPipelineTaskHandlers.cs`). This is module `RequestPipelines`. An
  object holds an enumerator over the behaviors plus the handler, and it is
  itself the `next` that every behavior receives. Each `InvokeAsync` advances
  the enumerator. It then calls the current behavior, or the handler once no
  behavior is left.
  - Each struct is a class with a mutable `cursor`: the number of successful
    `MoveNext` calls.
  - Its methods are proved against the pure, mutually recursive `Invoke` and
    `Behave`, which return the run and the cursor after it.
- **The sample `Book` entity** (`samples/WebApi/Domain/Book.cs`). This is
  module `Domain`. `SetTitle` rejects a missing or blank title, and then one
  longer than 1000 characters. Otherwise it stores the title trimmed and
  upper-cased. `SetAuthor` and `SetGenre` assign. The public constructor
  sets the title first.

Module `Pipeline` holds the shared vocabulary.
- Asynchrony is erased. A `ValueTask<T>` is the `Outcome<T>` it completes
  with: a value or an exception. A cancellation token is an uninterpreted value that
  is only passed along.
- A behavior is an instance identity plus what it does with its continuation:
  - pass the call through;
  - answer without calling `next` (a short circuit, or a throw);
  - pass on a different request object;
  - call `next` a second time once the first call succeeded.

  A behavior's post-logic runs only when the awaited continuation did not
  throw.
- The tests observe ordering through a shared list. Here it is the trace of
  `Enter`, `Exit` and `Handle` events that a run returns.

The two builders do not agree on order, and the model keeps each as written.
- Onion order means pre-logic in registration order and post-logic in
  reverse.
- The cursor pipelines follow onion order (`RequestPipelines.OnionOrder`).
  The console sample shows it: `samples/SimpleConsoleApp/Program.cs:16-20`
  registers HeightBehavior then LowBehavior and prints Height, Low,
  handler, Low, Height. `tests/MitMediator.Tests/HandleAsyncTests.cs:132-147`
  registers High then Low and expects "High", "Low".
- `Mediator.cs` folds its behavior array front to back. The *last*
  registered behavior therefore ends up outermost, and pre-logic runs in
  reverse registration order (`Mediator.FoldOnionOrder`).
  `tests/MitMediator.Tests/MediatorTests.cs:129-142` expects exactly that: it
  registers Low then High and expects "High", "Low".
- The model follows the code.

## Model

| member | source | states |
|---|---|---|
| Mediator.Layer | src/MitMediator/Mediator.cs:79 | a behavior's pre-logic is the first step, with the captured request and token; an answering behavior returns its answer after that step alone; any other behavior returns the outcome of `next`, ends with its post-logic when `next` succeeded, and adds nothing after `next` when it threw |
| Mediator.Fold | src/MitMediator/Mediator.cs:76-80 | the last behavior is outermost, so its pre-logic is the first step of the run; when no behavior answers, the outcome is the innermost continuation's |
| Mediator.Innermost | src/MitMediator/Mediator.cs:70-74 | the handler is called exactly when one is registered, once, with the original request and token, and its outcome is returned; without one, the result is the missing-handler error and nothing is called |
| Mediator.InnermostVoid | src/MitMediator/Mediator.cs:93-98 | the void handler is called exactly when one is registered, and dropping the Unit gives back the handler's own completion; without one, the missing-handler error and no call |
| Mediator.Distinct | src/MitMediator/Mediator.cs:17-20 | the deduplicated behaviors are pairwise-distinct instances, each drawn from the registrations, every registered instance is among them, and there are no more of them than registrations |
| Mediator.DistinctOfDistinct | src/MitMediator/Mediator.cs:17-20 | registrations without a repeated instance pass through `Distinct()` unchanged, order included |
| Mediator.DistinctIdempotent | src/MitMediator/Mediator.cs:65-68 | deduplicating twice gives the same behaviors as deduplicating once |
| Mediator.Compose | src/MitMediator/Mediator.cs:76-80 | the closure the `foreach` leaves behind computes the fold of all behaviors around the innermost continuation, the last behavior outermost |
| Mediator.SendAsync | src/MitMediator/Mediator.cs:62-83 | the returned run is the fold of the deduplicated registrations around the continuation that resolves and calls the `IHandler` |
| Mediator.Send | src/MitMediator/Mediator.cs:14-36 | the same chain, with the continuation resolving the `Tasks.IRequestHandler` instead |
| Mediator.SendAsyncVoid | src/MitMediator/Mediator.cs:85-107 | the Unit-typed chain around the void `IHandler`; the call completes exactly when that chain yields a value, faulting with the chain's exception otherwise |
| Mediator.SendVoid | src/MitMediator/Mediator.cs:38-60 | the same for the void `Tasks.IRequestHandler` |
| Mediator.Discard | src/MitMediator/Mediator.cs:106 | awaiting the chain completes iff the chain produced a value; otherwise it faults with the chain's own exception |
| Mediator.FoldAppend | src/MitMediator/Mediator.cs:76-80 | folding a concatenation is folding the later behaviors around the fold of the earlier ones |
| Mediator.FoldOnionOrder | src/MitMediator/Mediator.cs:76-82 | for behaviors that call `next` once: outcome of the innermost continuation unchanged, pre-logic from the last behavior to the first, then the innermost trace, then post-logic from the first to the last; no post-logic when the continuation threw |
| Mediator.FoldShortCircuit | src/MitMediator/Mediator.cs:76-80 | a behavior that answers without calling `next` fixes the outcome; only the pass-through behaviors folded outside it run, and the handler is never called, whatever lies inside |
| Mediator.FoldKeepsHandlerCalls | src/MitMediator/Mediator.cs:76-80 | behaviors that call `next` once return the innermost outcome and make exactly the handler calls the innermost continuation makes |
| Mediator.FoldSeesOneRequest | src/MitMediator/Mediator.cs:79 | every behavior and handler call in a folded chain receives the request and token of the call, since `next` takes no request |
| Mediator.SendAsyncSeesOneRequest | src/MitMediator/Mediator.cs:62-83 | whatever the behaviors do, every behavior and the handler see the request and token passed to `SendAsync` |
| Mediator.SendAsyncWithoutBehaviors | src/MitMediator/Mediator.cs:70-74 | with no behaviors registered, the handler is called once with the original request and its outcome is returned unchanged |
| Mediator.SendAsyncOnionOrder | src/MitMediator/Mediator.cs:62-83 | around a registered handler, pass-through behaviors run pre-logic in reverse registration order, one handler call, then post-logic in registration order, and the handler's outcome comes back unchanged |
| Mediator.SendAsyncMissingHandler | src/MitMediator/Mediator.cs:70-74 | without a registered handler, the call fails with the missing-handler error only after every pass-through behavior's pre-logic has run, and no post-logic runs |
| Mediator.FoldEntersEachOnce | src/MitMediator/Mediator.cs:76-80 | for behaviors that call `next` once, the entered behaviors are exactly the folded ones, from the last to the first |
| Mediator.SendAsyncRunsEachInstanceOnce | src/MitMediator/Mediator.cs:65-68 | an instance registered several times runs once per call: no behavior is entered twice and every registered instance is entered |
| Mediator.SendAsyncVoidOnionOrder | src/MitMediator/Mediator.cs:93-106 | for pass-through behaviors, the void call completes exactly as the void handler did, after exactly one handler call with the original request |
| RequestPipelines.Invoke | src/MitMediator/RequestPipeline.cs:9-17 | an invocation never moves the enumerator back or past the end, and moves it at least once while behaviors remain |
| RequestPipelines.Behave | src/MitMediator/RequestPipeline.cs:13 | calling the current behavior never moves the enumerator back or past the end |
| RequestPipelines.RequestPipeline.constructor | src/MitMediator/RequestPipeline.cs:3-6 | a fresh pipeline holds the behaviors and the handler with an enumerator that has not moved |
| RequestPipelines.RequestPipeline.MoveNext | src/MitMediator/RequestPipeline.cs:11 | the enumerator advances iff behaviors remain; an exhausted one stays exhausted |
| RequestPipelines.RequestPipeline.InvokeAsync | src/MitMediator/RequestPipeline.cs:9-17 | the run returned and the new enumerator position are those `Invoke` gives from the old position |
| RequestPipelines.RequestPipeline.CallCurrent | src/MitMediator/RequestPipeline.cs:13 | the run and new position are those `Behave` gives for the current behavior, with this pipeline as its `next` |
| RequestPipelines.RequestPipelineTaskHandlers.constructor | src/MitMediator/RequestPipelineTaskHandlers.cs:9-15 | the pipeline stores the behaviors and the handler with an enumerator that has not moved |
| RequestPipelines.RequestPipelineTaskHandlers.MoveNext | src/MitMediator/RequestPipelineTaskHandlers.cs:19 | the enumerator advances iff behaviors remain; an exhausted one stays exhausted |
| RequestPipelines.RequestPipelineTaskHandlers.InvokeAsync | src/MitMediator/RequestPipelineTaskHandlers.cs:17-25 | the awaited run and the new enumerator position are those `Invoke` gives from the old position |
| RequestPipelines.RequestPipelineTaskHandlers.CallCurrent | src/MitMediator/RequestPipelineTaskHandlers.cs:21 | the run and new position are those `Behave` gives for the current behavior |
| RequestPipelines.OnionOrder | src/MitMediator/RequestPipeline.cs:9-17 | from any position, pass-through behaviors run pre-logic in registration order, the handler once with the given request, post-logic in reverse order (none if the handler threw), the handler's outcome unchanged, enumerator exhausted |
| RequestPipelines.InvokeEntersEachOnce | src/MitMediator/RequestPipeline.cs:11-13 | the behaviors entered by an invocation are exactly those the enumerator passed over, in list order, each once |
| RequestPipelines.BehaveEntersEachOnce | src/MitMediator/RequestPipeline.cs:13 | the behaviors entered when calling the current behavior are exactly that one and those the enumerator passed over afterwards |
| RequestPipelines.EachBehaviorAtMostOnce | src/MitMediator/RequestPipeline.cs:11 | with distinct behavior instances, no behavior runs twice in one pipeline, however often continuations are called |
| RequestPipelines.ShortCircuit | src/MitMediator/RequestPipeline.cs:9-17 | a behavior that answers without calling `next` ends the chain: later behaviors do not run, its answer returns through the earlier pass-through behaviors, and the enumerator stops just after it |
| RequestPipelines.ShortCircuitSkipsHandler | src/MitMediator/RequestPipeline.cs:16 | a short-circuited pipeline never calls the handler |
| RequestPipelines.RetryRerunsOnlyHandler | src/MitMediator/RequestPipeline.cs:11-16 | a behavior calling `next` twice reruns only the handler: the later behaviors run once, the handler twice |
| RequestPipelines.ForwardReachesHandler | src/MitMediator/RequestPipeline.cs:13-16 | behind behaviors that call `next` once, the handler is called exactly once, with the last request a behavior passed on, and its outcome is the pipeline's |
| Domain.IsWhiteSpace | samples/WebApi/Domain/Book.cs:50 | a white-space character is never an ASCII letter |
| Domain.IsNullOrWhiteSpace | samples/WebApi/Domain/Book.cs:50 | a null and an empty title both count as blank; a title that is not blank is present and has a visible character |
| Domain.TrimStart | samples/WebApi/Domain/Book.cs:59 | the result is a suffix of the input, everything cut off is white space, and the result does not start with white space |
| Domain.TrimEnd | samples/WebApi/Domain/Book.cs:59 | the result is a prefix of the input, everything cut off is white space, and the result does not end with white space |
| Domain.Trim | samples/WebApi/Domain/Book.cs:59 | the result is no longer than the input; it is empty iff the input is all white space, and otherwise starts and ends with a visible character |
| Domain.UpperChar | samples/WebApi/Domain/Book.cs:59 | a lower-case ASCII letter becomes its capital and every other character is kept; so white space stays white space and no lower-case ASCII letter remains |
| Domain.ToUpperInvariant | samples/WebApi/Domain/Book.cs:59 | same length; at every position a lower-case ASCII letter becomes its capital and any other character is kept, so white-space positions are kept and no lower-case ASCII letter remains |
| Domain.NormalizeTitle | samples/WebApi/Domain/Book.cs:59 | the stored title is no longer than the input, is empty iff the input is blank, and holds no lower-case ASCII letter |
| Domain.CheckTitle | samples/WebApi/Domain/Book.cs:50-58 | a blank title (null, empty or white space only) is rejected as empty whatever its length; a title that is not blank is rejected as too long iff it has more than 1000 characters |
| Domain.Book.Blank | samples/WebApi/Domain/Book.cs:30 | the parameterless constructor leaves id zero and title, author and genre unset |
| Domain.Book.Create | samples/WebApi/Domain/Book.cs:31-36 | construction fails iff the title is rejected, with that error; otherwise the new book holds the normalised title, the author and the genre |
| Domain.Book.SetGenre | samples/WebApi/Domain/Book.cs:38-41 | stores the genre and changes nothing else |
| Domain.Book.SetAuthor | samples/WebApi/Domain/Book.cs:43-46 | stores the author and changes nothing else |
| Domain.Book.SetTitle | samples/WebApi/Domain/Book.cs:48-60 | the empty check comes before the length check; an accepted title is stored trimmed and upper-cased, a rejected one leaves the stored title as it was, and no other property changes |
| Domain.CheckTitleAccepts | samples/WebApi/Domain/Book.cs:50-58 | a title is accepted iff it is present, has a visible character and has at most 1000 characters |
| Domain.StoredTitleIsValid | samples/WebApi/Domain/Book.cs:48-60 | a stored title is non-empty, at most 1000 characters long, has no white space at either end and no lower-case ASCII letter |
| Domain.TrimOfTrimmed | samples/WebApi/Domain/Book.cs:59 | a string with a visible character at each end is its own trim |
| Domain.SetTitleIdempotent | samples/WebApi/Domain/Book.cs:48-60 | a stored title passes `SetTitle` again and is stored unchanged |
| Domain.PaddingOnlyMatchesLength | samples/WebApi/Domain/Book.cs:55-59 | the length limit counts the untrimmed input: adding white space in front of and behind an accepted title never changes the stored title, yet the padded title is rejected once its length exceeds 1000 |

## Left out

- Asynchrony, `ValueTask`/`Task` scheduling and cancellation are erased. A token is only passed along, and nothing in the core reacts to it.
- Service resolution is left out: the container, reflection, generic registration, and the `MediatR`-compatible `Send` bridge. A container is a map from request type to registrations, with an absent key for "nothing registered". `DependencyInjection.cs` and `MediatRSendMethodInfo.cs` are not part of this model.
- The code that builds a cursor pipeline over an enumerator and calls it is not part of this model. The classes start at an unmoved enumerator.
- Notifications (`Publish`) and streams (`CreateStream`) are not part of this model.
- The text of the missing-handler `InvalidOperationException` is reduced to the request type's tag.
- The request is an immutable value. A behavior that mutates the request object before calling `next` is modelled as passing a new request on (`Forward`).
- Mediator.Layer: `Forward` cannot pass its request on in the fold, because `next` there takes no argument. The object is shared, so a mutation would still reach the handler; the model does not capture that aliasing.
- Mediator.Layer: handlers and behaviors are deterministic. A handler is a function of request and token, and a retried `next` is assumed to produce the same outcome and the same steps as the first call. In the source the second call runs the inner behaviors and the handler again, so a handler that writes to a store, counts its calls or fails on a repeat can make the retry return something else.
- RequestPipelines.Behave: likewise, a retried `next` calls the same handler function again and gets the first call's outcome. A handler with side effects or state of its own is not modelled.
- Behaviors are limited to four actions: pass through, answer, forward, and retry once after success. A behavior that transforms the awaited result, or retries after a failure, is not modelled.
- Domain.UpperChar: `ToUpperInvariant` is modelled for the ASCII letters only. The culture-invariant mapping of other letters is not modelled.
- Domain.CheckTitle: `title.Length` counts UTF-16 code units. The model counts characters (Unicode scalar values), so titles outside the Basic Multilingual Plane are measured differently.
- `Author` and `Genre` are reduced to their ids. `Author.cs` and `Genre.cs` are not part of this model, and neither is persistence through `BookId`.
- The rest of the sample applications, the benchmarks and the test fixtures are left out.
