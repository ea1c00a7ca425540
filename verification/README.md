# A model of the jQuery bundle shipped with the documentation

`docs/jquery.js` is the script bundle that the generated documentation carries: jQuery 3.4.1 with
Sizzle, minified, both on line 2 of the file. This project models the parts of that line with real
state and real algorithms, and proves what they guarantee. It is a model of the vendored library;
the chain code of the repository is not part of this model.

The modules, each in the file of its name:

- `Options`, `Units`: optional values and strings of UTF-16 code units, which the others share.
- `Dom`: the document tree; a node is the path of child indices from its root.
- `Selector`: the closures that Sizzle compiles a selector into (`be`, `we`, `Ee`), their meaning
  without caches, and the declarative meaning of the token list (section 8 of Selectors Level 3).
- `MatchCache`: the cached ancestor and sibling walks of `be`, with the result cells that all nodes of
  one walk share, as objects on the heap. `Select`: compiling all groups and running them on seeds.
- `ChildFilter`: the `CHILD` filter with its two position caches and the An+B test.
- `DocumentOrder`: the comparator `D` with `pe` for browsers without `compareDocumentPosition`, the
  order that it defines, and `uniqueSort`.
- `Escape`: `se.escape` with `ie`, and unescaping by `te` with `ne`, on UTF-16 code units.
- `Callbacks`, `CallbackRuns`, `CallbackFlags`: the re-entrant callback list. Its firing loop is cut at the calls of
  callbacks, between which the environment may call any operation.
- `Deferred`, `DeferredObject`, `DeferredRuns`, `Notifications`, `ProgressDelivery`, `ProgressHandlers`: six
  such lists wired into a Deferred.
- `Thenable`: the adoption of thenables in `then`, accessors included, against the flags of Promises/A+.
- `When`: `k.when` on two or more inputs.
- `Namespace`, `EventStore`, `Dispatch`: the words of a type list and the namespace expression, the
  handler store of `event.add` and `event.remove`, and the order of `event.handlers`.
- `FxQueue`: the `fx` queue with its sentinel.

Three results say where the code does not do what one might expect, each with its exact condition:

- `:nth-last-child` starts its first walk at the element itself, so that element siblings before it in
  the document get wrong cached counts. A sequence of queries is answered correctly if and only if no
  later query is about an element that comes before the first one queried
  (`ChildFilter.BackwardCacheRight`; `ChildFilter.BackwardCacheWrong` gives two elements).
- The fallback comparator puts the root of a tree after its descendants when that root is not the
  current document. Two nodes are ordered as in the document if and only if the root is the current
  document, or neither node is the root, or they are the same (`DocumentOrder.OrderedAsDocument`;
  `DocumentOrder.ListedAsDocument` says it of a sorted list, `DocumentOrder.RootLast` gives a tree).
- In `then` the guard is not looked at again after the `then` of a resolution value has been read, and
  an accessor that runs there can call the functions of the pair being resolved. Over every run, code
  and Promises/A+ have the same outcome throughout if and only if every step is benign
  (`Thenable.AgreeExactly`): an accessor that runs for the last pair must not settle otherwise than its
  value does, and no exception may be lost because the accessor has made the code adopt twice. Whether
  one resolution with an accessor goes well can be read off what the accessor calls
  (`Thenable.AccessorExactly`, with `Thenable.Chain`): the pair is stale, or the calls settle what the
  value itself does, or they settle nothing and the value does not throw after two adoptions.
  `Thenable.AccessorDecides`, `Thenable.AccessorHidesOwnThrow` and `Thenable.AccessorHidesThrow` are the
  three ways for a step not to be benign.

Values from outside are parameters: what ordinary filters accept, which nodes are disabled, what a
selector selects, how `special` maps event types, in which order the types in store are enumerated, and
what the native sort compares and returns. `setTimeout` is a task list. Arguments of callbacks are
numbers that stand for a receiver with its arguments.

## Model

| member | source | states |
|---|---|---|
| Selector.WalkMeans | docs/jquery.js:2 | `be`: a walk closure accepts a node exactly when a node in the combinator's relation to it satisfies the inner closure, for all four combinators, base walks (contexts) included |
| Selector.We | docs/jquery.js:2 | `we`: the conjunction of closures, evaluated on any node and run |
| Selector.LeadingAccepts | docs/jquery.js:2 | the first closure of `Ee` holds exactly when the context requirement of the first compound does |
| Selector.FilterMeans | docs/jquery.js:2 | adding a filter closure adds that filter to the last compound |
| Selector.CombinatorMeans | docs/jquery.js:2 | wrapping the closures so far into a walk starts a new compound after the combinator |
| Selector.Compiler.MatcherFromTokens | docs/jquery.js:2 | `Ee`: for any token list the closure accepts exactly the nodes for which there are nodes for all compounds in the required relations, the context included, on every page and run; its walks get fresh numbers |
| Selector.Compiler.Extend | docs/jquery.js:2 | one turn of the loop of `Ee` keeps that meaning |
| MatchCache.MatchCache.Call | docs/jquery.js:2 | calling a compiled closure with the shared cache answers what the uncached closure answers, whatever earlier calls and unfinished outer walks left in the cache, and keeps the cache truthful |
| MatchCache.MatchCache.CallCached | docs/jquery.js:2 | the memoised walk equals the uncached one; cells are only added for the closure and the walks inside it |
| MatchCache.MatchCache.CachedWalk | docs/jquery.js:2 | every node visited carries the cell of the walk, which ends up with "some node from here on satisfies the closure", or the cell of a walk inside it |
| MatchCache.MatchCache.Try | docs/jquery.js:2 | while the inner closure runs, the cells of the outer walk stay on visited nodes unless an inner walk passes by, and all other cells stay truthful |
| MatchCache.MatchCache.CallAll | docs/jquery.js:2 | the backward loop of `we` answers the conjunction |
| MatchCache.MatchCache.CallFirst | docs/jquery.js:2 | the first-only loop of `be` |
| MatchCache.MatchCache.CallUncached | docs/jquery.js:2 | the XML loop of `be` |
| MatchCache.MatchCache.Begin | docs/jquery.js:2 | a new run makes all earlier cells stale, on whatever page it runs |
| MatchCache.InnerIdsDiffer | docs/jquery.js:2 | the number of a walk is not used by the walks inside it, so a nested walk never reads a cell of an unfinished one |
| Select.Sizzle.Compile | docs/jquery.js:2 | `se.compile`: every group is compiled, last group first, to a closure that accepts what the group selects |
| Select.Sizzle.Run | docs/jquery.js:2 | the matcher loop returns the seeds that some group selects, in the order of the seeds and as often as they are there, over any number of runs with one cache |
| Select.Sizzle.Matched | docs/jquery.js:2 | a seed matches when one of the element matchers accepts it |
| ChildFilter.ForwardCache.Position | docs/jquery.js:2 | from any valid cache entry the resumable walk gives the number of element siblings up to the target and stores a valid entry |
| ChildFilter.ForwardCache.NthChild | docs/jquery.js:2 | `:nth-child(an+b)` holds exactly when the position is a*n+b for some n >= 0 |
| ChildFilter.TestMeansAnB | docs/jquery.js:2 | the final arithmetic test, for all integers a and b, zero and negative included |
| ChildFilter.BackwardCache.Position | docs/jquery.js:2 | the second loop of `CHILD`: without the cache the position, with it the stored count if any, else the position, and exactly which counts it leaves behind |
| ChildFilter.BackwardCacheRight | docs/jquery.js:2 | the cached answers to a sequence of `:nth-last-child` queries are all right if and only if no query is about a sibling further along the walk than the first one |
| ChildFilter.BackwardCacheWrong | docs/jquery.js:2 | two element children for which the second query is answered wrongly |
| ChildFilter.StoredRight | docs/jquery.js:2 | a count left behind is right exactly for the siblings up to the target |
| DocumentOrder.PreorderLists | docs/jquery.js:2 | the traversal lists exactly the nodes of the tree, each before its successors in document order |
| DocumentOrder.PreorderPosition | docs/jquery.js:2 | document order is the order of positions in the traversal |
| DocumentOrder.PrecedesTransitive | docs/jquery.js:2 | document order is transitive |
| DocumentOrder.PrecedesStrict | docs/jquery.js:2 | document order is irreflexive, asymmetric and total |
| DocumentOrder.AncestorsFirst | docs/jquery.js:2 | ancestors come first |
| DocumentOrder.Compare | docs/jquery.js:2 | `D`: zero exactly for the same node, negative exactly for a pair in the order `Before`, which is document order except that a root that is not the current document comes last |
| DocumentOrder.OrderedAsDocument | docs/jquery.js:2 | the comparator agrees with document order on two nodes exactly when the root is the current document, or neither is the root, or they are the same |
| DocumentOrder.RootLast | docs/jquery.js:2 | a tree whose root the comparator puts behind its child |
| DocumentOrder.ListedAsDocument | docs/jquery.js:2 | a list in the order of the comparator is in document order exactly when the root is the current document, not on the list, or alone on it |
| DocumentOrder.BeforeStrict | docs/jquery.js:2 | the order of the comparator is irreflexive, asymmetric and total, whatever the current document |
| DocumentOrder.BeforeTransitive | docs/jquery.js:2 | it is transitive |
| DocumentOrder.NeighboursSort | docs/jquery.js:2 | a list in which the comparator finds every neighbour in place is sorted as a whole |
| DocumentOrder.OneSorting | docs/jquery.js:2 | every sort by the comparator gives the same list |
| DocumentOrder.ComparedNeighbours | docs/jquery.js:2 | a sort that has compared all neighbours has met two equal nodes, and so the comparator has set the flag, exactly when there are some |
| DocumentOrder.SiblingCheck | docs/jquery.js:2 | `pe`: the order of two siblings, a missing one first |
| DocumentOrder.Part | docs/jquery.js:2 | the common-prefix loop ends, at the first difference of the root paths of two different nodes |
| DocumentOrder.RootPath | docs/jquery.js:2 | the ancestor array that the comparator builds |
| DocumentOrder.ResultList.UniqueSort | docs/jquery.js:2 | for a list sorted by the comparator: the nodes stay the same; when the sort has compared all neighbours, the list is strictly increasing and each node is there once; in general it is exactly when the flag was set before, or equal nodes were compared, or there are no repetitions |
| DocumentOrder.ResultList.RemoveDuplicates | docs/jquery.js:2 | splicing the collected indices from the back drops every repetition |
| DocumentOrder.CompactLists | docs/jquery.js:2 | a list sorted by the comparator, without its repetitions, is strictly increasing and has the same nodes |
| Escape.EscapeRoundTrip | docs/jquery.js:2 | unescaping an escaped string gives the string back, except that U+0000 becomes U+FFFD |
| Escape.EscapeIsIdentifier | docs/jquery.js:2 | the escaped form of a non-empty string is a CSS identifier (sections 4.3.7 to 4.3.9 and 4.3.11 of CSS Syntax Level 3), with the newlines of CSS |
| Escape.EscapeKeeps | docs/jquery.js:2 | escaping leaves a string as it is exactly when it has only letters, digits, `_`, `-` and non-ASCII units, does not start with a digit or with a dash and a digit, and is not `-` |
| Escape.EscapedForm | docs/jquery.js:2 | how each other unit is written: U+FFFD, by number, or behind a backslash |
| Escape.NumberedEscape | docs/jquery.js:2 | an escape by number stands for the units of that code point |
| Escape.SpelledEscape | docs/jquery.js:2 | an escape by number, in either case, with leading zeros, up to six digits, stands for the units of its number; one white space after it goes with it |
| Escape.DecodedIsUtf16 | docs/jquery.js:2 | the surrogate arithmetic of `ne` is UTF-16 for all code points |
| Escape.OrHighMeans | docs/jquery.js:2 | the bits that `|` sets in the upper surrogate, beyond the code points too |
| Callbacks.CallbackList.Add | docs/jquery.js:2 | `add`: appends (with `unique` only what is missing) and replays a remembered firing to the new callbacks |
| Callbacks.CallbackList.Remove | docs/jquery.js:2 | `remove`: all occurrences go and the index keeps its place among the callbacks that stay |
| Callbacks.CallbackList.FireWith | docs/jquery.js:2 | `fireWith`: ignored when locked, queued while firing, else the loop starts |
| Callbacks.CallbackList.Advance | docs/jquery.js:2 | the firing loop from one callback to the next |
| Callbacks.CallbackList.Lock | docs/jquery.js:2 | `lock`: the queue is dropped, and without memory or firing the list is disabled |
| Callbacks.CallbackList.Disable | docs/jquery.js:2 | `disable`: nothing is kept |
| CallbackRuns.RemoveKeepsUnrun | docs/jquery.js:2 | after a removal during a pass the callbacks still to run are the old ones without the removed, in order |
| CallbackRuns.UniqueLists | docs/jquery.js:2 | with `unique` no reachable list has duplicates |
| CallbackRuns.FirstInFirstOut | docs/jquery.js:2 | over every run of a `memory` list, calls come in the order of the firings, never interleaved; the queue holds exactly the firings asked for and not yet started, so none is lost; what the index has passed has been called in the current firing |
| CallbackRuns.PassReachesAll | docs/jquery.js:2 | when a pass ends, every callback then on the list has been called in it, those added during the pass included |
| CallbackRuns.EveryFiringDelivered | docs/jquery.js:2 | on a `memory` list, `unique` or not, with callbacks removed and firings nested at will: a firing that has had its turn has called the callbacks that were on the list when it was asked for and are never removed, in order, once for each of their places |
| CallbackRuns.DeliveredInFull | docs/jquery.js:2 | without removals it has called all of them, then some of those added since |
| CallbackRuns.NeverRemoved | docs/jquery.js:2 | a callback that is never removed from a `unique` list is called exactly once in every such firing |
| CallbackRuns.ExactlyOnce | docs/jquery.js:2 | leaving aside the callbacks that are removed at some time, each firing has called a prefix of the list in order, the one under way up to the index, and while idle the last one has called them all |
| CallbackRuns.LockKeepsArguments | docs/jquery.js:2 | after `lock` only the arguments that were being or had last been fired reach callbacks, whatever is called afterwards; nothing does if there were none |
| CallbackRuns.DisableEndsCalls | docs/jquery.js:2 | after `disable`, even during a firing, no operation calls a callback any more |
| CallbackFlags.PushedMeans | docs/jquery.js:2 | `add` appends what is given; with `unique` only what is missing |
| CallbackFlags.AddedAll | docs/jquery.js:2 | after `add` on an enabled list that is open, all callbacks given are on it |
| CallbackFlags.IdleForgets | docs/jquery.js:2 | without `memory` an idle list remembers nothing, over every run |
| CallbackFlags.NothingReplayed | docs/jquery.js:2 | so an addition to it calls nothing |
| CallbackFlags.OnceOnly | docs/jquery.js:2 | a list with `once` passes the arguments of one firing only, over every run |
| CallbackFlags.StoppedOnFalse | docs/jquery.js:2 | with `stopOnFalse` a callback that returns false ends the pass and its arguments are forgotten; without it the result makes no difference |
| CallbackFlags.FiredMeans | docs/jquery.js:2 | `fired` exactly when some firing has not been ignored |
| DeferredObject.DeferredObject.Settle | docs/jquery.js:2 | `resolve`, `reject` and `notify` on the object do what the wiring of the six lists does |
| DeferredObject.DeferredObject.Register | docs/jquery.js:2 | `done`, `fail` and `progress` on the object |
| DeferredObject.DeferredObject.Then | docs/jquery.js:2 | the registration of a handler by `then`, which is scheduled, never called at once |
| DeferredObject.DeferredObject.Return | docs/jquery.js:2 | a user's callback returns and its list goes on |
| DeferredObject.DeferredObject.RunWired | docs/jquery.js:2 | the callbacks that set the state, disable, lock and fire the handlers |
| DeferredRuns.RunInvariant | docs/jquery.js:2 | after every run, the state is that of the first resolve or reject; the callbacks of that outcome have been called in order, once each, with its arguments, up to those still to come in the firing under way; handlers of `then` have been scheduled likewise; nothing of the other outcome is called |
| DeferredRuns.SettledOnce | docs/jquery.js:2 | the state leaves pending at most once, and when nothing is firing all registered callbacks of the outcome have been called exactly once |
| DeferredRuns.FirstSettle | docs/jquery.js:2 | the six wired callbacks of the first resolve or reject, run in order, switch off the other outcome and reach the users' callbacks |
| DeferredRuns.StepProgress | docs/jquery.js:2 | notifications never change the outcome |
| Notifications.NotificationsInOrder | docs/jquery.js:2 | notifications sent before the deciding call reach `progress` callbacks in the order of sending, and no others do; while pending none is lost |
| Notifications.LateNotification | docs/jquery.js:2 | a notification after the deciding call does nothing |
| Notifications.LockedWhenDecided | docs/jquery.js:2 | the `progress` list is locked exactly when the Deferred has been resolved or rejected |
| ProgressDelivery.EveryNotificationDelivered | docs/jquery.js:2 | every notification, however nested, goes to `progress` callbacks in the order of registration, once each; one that has had its turn has reached all registered when it was sent, the last one begun also those registered later, and one not begun before the deciding call reaches nobody |
| ProgressDelivery.AsksMeans | docs/jquery.js:2 | the callbacks counted for a notification are those registered when it was sent |
| ProgressHandlers.NotificationScheduled | docs/jquery.js:2 | a notification to a pending Deferred, outside the delivery of another, schedules every handler that `then` has registered for notifications, in order, once each |
| ProgressHandlers.HandlerCatchesUp | docs/jquery.js:2 | a handler registered later is scheduled with the last notification, if there was one |
| Thenable.CounterRefinesFlags | docs/jquery.js:2 | for every run of calls and exceptions of misbehaving thenables without accessors, at any depth, the depth counter gives the outcome that the flags of Promises/A+ give (section 2.3.3.3) |
| Thenable.LaterCallsIgnored | docs/jquery.js:2 | after one call of a pair of functions, a further call of the pair or an exception from the thenable makes no difference |
| Thenable.AgreeExactly | docs/jquery.js:2 | over every run of calls, exceptions and accessors, nested at any depth, code and Promises/A+ (section 2.3.3) have the same outcome throughout exactly when every step is benign |
| Thenable.StepAgrees | docs/jquery.js:2 | a benign step keeps the agreement, any other makes the outcomes differ at once |
| Thenable.AccessorExactly | docs/jquery.js:2 | one resolution whose accessor does anything at all, nested accessors and functions handed out meanwhile included: the outcomes agree exactly when the pair is stale, or what its calls settle is what the value does, or they settle nothing and the value does not throw after two adoptions; a condition on the accessor's events alone |
| Thenable.AccessorDecides | docs/jquery.js:2 | an accessor that resolves the pair being resolved with another plain value decides the outcome, where Promises/A+ lets the first call decide |
| Thenable.AccessorHidesOwnThrow | docs/jquery.js:2 | after two adoptions by an accessor the exception of reading the value is lost: the code has no outcome where Promises/A+ rejects |
| Thenable.AccessorHidesThrow | docs/jquery.js:2 | after an accessor has adopted a thenable for the pair being resolved, an exception of the value's own `then` is lost: the code has no outcome where Promises/A+ rejects |
| Thenable.CalledWith | docs/jquery.js:2 | a resolve function looks at its first argument: a thenable is adopted, an error rejects, anything else fulfils with all arguments; a reject function rejects with all arguments |
| Thenable.StartedWith | docs/jquery.js:2 | the same for the task: without handlers arguments are passed on, a handler gives one value or throws one error |
| Thenable.Derived.Call | docs/jquery.js:2 | the function that `l` makes: guard, handler, resolution |
| Thenable.Derived.Finish | docs/jquery.js:2 | the rest of that function, once the `then` of the value has been read |
| Thenable.Derived.Caught | docs/jquery.js:2 | its catch block: rejects unless the adoption has moved on by more than one |
| When.Joined.Update | docs/jquery.js:2 | `a(t)`: the primary is resolved with the values in argument order exactly when all inputs have resolved |
| When.Joined.Reject | docs/jquery.js:2 | the first rejection in time rejects the primary, which is then never resolved |
| When.Joined.constructor | docs/jquery.js:2 | subscription from the last input to the first: the last argument that fails at once rejects the primary, plain values alone resolve it in argument order, and otherwise it stays pending |
| When.VerdictAtOnce | docs/jquery.js:2 | the same about the verdict after subscription |
| When.RejectionExcludes | docs/jquery.js:2 | once an input has rejected, the inputs can no longer all resolve |
| When.CountResolved | docs/jquery.js:2 | the counter reaches zero exactly when every input has resolved |
| Namespace.TestMeansEmbeds | docs/jquery.js:2 | the regular expression built from dot-free names matches exactly when the names occur among the handler's in order, with no line terminator in a name skipped between two |
| Namespace.WordsAreWellNamed | docs/jquery.js:2 | the names that a type word gives are free of dots and line terminators, and sorted |
| Namespace.WordSplits | docs/jquery.js:2 | a type word gives the type before its first dot and the sorted parts of what follows on the same line |
| Namespace.WordNames | docs/jquery.js:2 | the names of a word are the parts between its dots, with multiplicities, sorted |
| Namespace.AtMostMeans | docs/jquery.js:2 | the order in which names are sorted is that of strings: a prefix first, else the smaller unit at the first difference |
| Namespace.TypeInFront | docs/jquery.js:2 | with a type in front, a word that had none keeps its names |
| Namespace.WordFilterMeans | docs/jquery.js:2 | on the namespaces that `event.add` stores, the expression of `event.remove` matches exactly when the namespace has all names asked for, with multiplicities |
| Namespace.SplitOfJoin | docs/jquery.js:2 | splitting a stored namespace gives its names back |
| Namespace.FilterMeansSubMultiset | docs/jquery.js:2 | for any sorted names without dots and line terminators the expression matches exactly when the names asked for are a sub-multiset of the handler's |
| EventStore.EventStore.AddOne | docs/jquery.js:2 | `event.add` for one word of the type list: a delegated handler goes behind the delegated ones, a direct one to the end, with the joined names of the word as its namespace; the count, the partition and the form of the namespaces are kept, other types are unchanged |
| EventStore.EventStore.RemoveOne | docs/jquery.js:2 | `event.remove` for one word: with a type, the handlers go that fit and whose namespace matches the regular expression; without a type, the types in store are searched one after another; the rest keep their order; the count and the partition are kept and no empty list is stored |
| EventStore.EventStore.RemoveEverywhere | docs/jquery.js:2 | the word without a type, tried with every type in store that still has a list, in the order of enumeration |
| EventStore.SearchedExactly | docs/jquery.js:2 | for such a word: if types are stored under types stored under themselves, exactly the lists under which a type in store is stored lose what is asked for, in whatever order |
| EventStore.SearchedMeans | docs/jquery.js:2 | in general each list loses that or nothing, and those of types stored under themselves do lose it |
| EventStore.OrderMatters | docs/jquery.js:2 | three types stored under one another, for which the order of enumeration decides what remains |
| EventStore.EventStore.RemoveTyped | docs/jquery.js:2 | the removal for one type, other lists unchanged |
| EventStore.RemovesMeans | docs/jquery.js:2 | for stored handlers the criterion with the regular expression is that of having all names of the word |
| EventStore.RemovalByNames | docs/jquery.js:2 | end to end: a handler added with one word is removed with another of the same type exactly when it has all names of the second, with multiplicities, and guid and selector fit |
| EventStore.LeftAlone | docs/jquery.js:2 | what a removal leaves alone: other types, other guids, direct handlers with `**`, other selectors |
| EventStore.InsertedMeans | docs/jquery.js:2 | a direct handler comes last, a delegated one behind the other delegated ones, the rest keep their order |
| EventStore.EventStore.Remove | docs/jquery.js:2 | the removal from one list with its count |
| EventStore.EventStore.Filter | docs/jquery.js:2 | the backward splicing walk with its count |
| EventStore.InsertPartitions | docs/jquery.js:2 | insertion keeps delegated handlers in front and the count right |
| EventStore.RemovePartitions | docs/jquery.js:2 | removal keeps delegated handlers in front |
| EventStore.KeptExactly | docs/jquery.js:2 | removal takes every matching handler and no other |
| EventStore.RemoveUndoesAdd | docs/jquery.js:2 | removing the handler just added restores the list |
| Dispatch.Handlers | docs/jquery.js:2 | `event.handlers`: the two nested loops make the queue of delegated entries and direct handlers |
| Dispatch.QueueMeans | docs/jquery.js:2 | for a list of the store: entries come from the target upwards, the bound element last; there is an entry for a node exactly when something is to run for it, and it holds all stored handlers that are, in the order of the store (direct ones on the bound element, delegated ones on eligible nodes below it that their selector selects, except on clicks of other buttons) |
| Dispatch.HandlersOf | docs/jquery.js:2 | a handler runs for a node exactly if it is direct and the node is the bound element, or it is delegated and the node an element below that its selector selects; on a click only with the main button and not for disabled elements |
| Dispatch.MatchNode | docs/jquery.js:2 | the memo per selector does not change which handlers match a node |
| Dispatch.DelegationsMeaning | docs/jquery.js:2 | the delegated entries are exactly those of eligible nodes of the path with a matching handler |
| Dispatch.PathUpwards | docs/jquery.js:2 | for a target at or below the bound element the path is the target and its ancestors below the bound element, innermost first |
| FxQueue.FxQueue.Dequeue | docs/jquery.js:2 | `dequeue`, called by anybody at any time: the next function starts behind a new sentinel, or the empty hooks fire; functions go on one after another exactly when none was in flight |
| FxQueue.FxQueue.Next | docs/jquery.js:2 | its body, from the states that its three callers leave |
| FxQueue.FxQueue.Enqueue | docs/jquery.js:2 | `queue`: a function starts at once exactly when the sentinel is not at the head; it keeps functions one after another and fires no empty hooks |
| FxQueue.FxQueue.Continue | docs/jquery.js:2 | the continuation: started functions followed by waiting ones are all enqueued ones in order; the sentinel is at the head only while the function started last is in flight; functions that ran one after another go on so; the empty hooks fire exactly when nothing is left |

## Left out

- Positional and set matchers (`Ce`, `ve`), `:has`, `:not` and the `legend` case of `be`: a token list has ordinary filters and combinators only.
- The tokenizer, native `querySelectorAll` and `compareDocumentPosition`, and trees that change during a run.
- The selector cache and the re-use of run numbers after nested queries: every run gets a new number.
- `:first-child`, `:last-child` and `:only-child`: two plain sibling loops without a cache.
- The legacy `sourceIndex` in `pe`, and nodes of different trees in `D`.
- DocumentOrder.ResultList.UniqueSort: the native sort is a parameter, and so are the pairs that it compares; that a comparison sort compares all neighbours of its result is not proved.
- `Page.accepts`: an ordinary filter is a fixed predicate on nodes, so `MatchCache.MatchCache.Call` and `Select.Sizzle.Run` do not speak of selectors with the cached `:nth-last-child`, whose answers depend on earlier queries.
- `empty` and nested argument lists of `Callbacks`, and exceptions thrown by plain callbacks.
- Receivers and arguments of callbacks are one number, and the callbacks that a Deferred adds to its own lists are values of their own kind.
- ProgressHandlers.NotificationScheduled: it speaks of notifications sent while no other is being delivered; for nested ones only the calls of `progress` callbacks are stated (`ProgressDelivery.EveryNotificationDelivered`).
- Notifications.NotificationsInOrder: notifications are numbered by their arguments.
- `pipe`, `always`, `promise` with an argument, hooks, and progress handling inside `then`.
- Thenable.AgreeExactly: an accessor on what the user's handler returned runs before any function has been handed out, so it can do nothing and is part of `Start`.
- Thenable.Derived.Call: the derived Deferred is the list of its resolve and reject calls, of which the first decides (`DeferredRuns.RunInvariant`).
- `when` with fewer than two inputs, inputs that settle more than once, and resolutions with several arguments.
- Names with regular-expression metacharacters in an event namespace: they are literals here.
- Handler objects passed to `event.add` with a type list of their own or a `namespace` field.
- The loops over the words of a type list: each word is one call of `EventStore.EventStore.AddOne` or `EventStore.EventStore.RemoveOne`.
- Entries of `special` whose `delegateType` or `bindType` has a dot.
- The `setup`, `teardown`, `add` and `remove` hooks of special events, event triggering and the run of the queue of handlers.
- Replacing or clearing a queue, queues other than `fx`, and its stop hook.
- Ajax, CSS, animation, and the interface plugins in the same bundle.
