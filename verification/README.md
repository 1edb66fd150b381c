# Verified model of hfw's stateful core

hfw is a small Go framework for web and gRPC services. This project models the parts of it whose
correctness depends on state, interleaving or careful text handling, and proves what they promise:

- **Balancer** (`P2c*.dfy`): the power-of-two-choices picker. `P2cPicker` is the picker as objects;
  `P2cMachine` is the same code with every atomic load, store, swap, add and compare-and-swap as a
  step of its own, so that picks and completions interleave freely; `P2cSafety` and `P2cFairness`
  hold of every run of that machine, and `P2cAlone` shows that its steps run without interruption do
  what the objects do. Latency weights are any real from 0 to 1, averages are floored.
- **Condition compiler** (`Conditions.dfy`, `ConditionOrder.dfy`, `ConditionMeaning.dfy`,
  `ConditionLimits.dfy`, `ConditionExact.dfy`, `ConditionResult.dfy`, `Sql.dfy`): from a map of
  conditions to a WHERE text with arguments, session calls, ordering and a page. `Sql` reads a text
  by SQL's precedence and is the independent meaning the compiler is measured against; for the other
  settings it is what the map holds under each of its keys. The map's iteration order is a parameter.
- **Shared SSH connections** (`SshPool.dfy`, `SshSafety.dfy`, `SshKeeper.dfy`, `SshRuns.dfy`,
  `SshInstances.dfy`): the table of instances with its two levels of locks, reference counts, dials
  that may fail, callers that close more than once, connections dialled through an instance that
  share its context, and the keepalive loop with the contexts it waits on.
- **Shutdown and admission** (`Shutdown.dfy`, `Contexts.dfy`, `Admission.dfy`): the shutdown protocol
  with the contexts it counts, and the 32-bit counter of requests.
- **Router** (`Names.dfy`, `Routes.dfy`, `RouteLookup.dfy`, `RegisterExact.dfy`): action names,
  registration and its panics, lookup.
- **Codecs and refinements** (`Aes.dfy`, `EtcdResolver.dfy`, `Pac.dfy`, `Utf.dfy`,
  `RoundRobin.dfy`): padding and chaining over any invertible block function, the address list as a
  set, the saved host table, escaping to `\uXXXX`, and the round-robin choice.

`Options.dfy`, `Seqs.dfy` and `Text.dfy` hold what these share. Everything the outside world decides
(clocks, random draws, dials, pings, map order, the events of etcd) is a parameter or an event.

Where the code does not do what its names or comments suggest, the model follows the code, and a
theorem says exactly when it does:

- A condition key keeps its meaning beside any other readable keys if and only if it is readable
  itself (`ConditionExact.SafeExactly`); of the keys of two plain words those are not that join,
  negate or leave a BETWEEN open (`ConditionExact.OperatorKeysExactly`), and a column's name after a
  blank never is, because the blank is quoted with it (`ConditionExact.BlankNameUnsafe`).
- Every iteration order of a condition map gives the same result if and only if the orderings, the
  raw conditions and the page sizes it holds agree, each where it is used
  (`ConditionOrder.OrderFreeExactly`); keys that differ only in case can break that
  (`ConditionLimits.CollidingKeysDiffer`). A page is the right window if and only if its start fits
  64 bits (`ConditionOrder.LimitIsAPage`, `ConditionOrder.StartOverflows`).
- `Concurrence` is cut to 32 bits, and what is left is exactly how many requests can be admitted at
  once (`Admission.CapacityExactly`, `Admission.BoundKeptExactly`).
- The balancer's averages are truncated, so failures bring the success estimate down to 0 but no
  success brings one below 1000 back to it (`P2cArithmetic.TruncationShows`).
- Registration panics if and only if a path is registered under two controllers' names, or two
  methods of one controller give one action by one verb (`RegisterExact.PanicsExactly`).
- A `NewSSH` whose dial fails leaves its context in the shutdown count for good
  (`SshSafety.ContextsLeakPerFailure`, `SshSafety.FailedDialsNeverDrain`).
- A caller that closes an instance more than once takes a holder's place in its count
  (`SshSafety.RefCountsHolders`): another holder loses its client (`SshRuns.SurplusCutsOff`), or two
  clients stay open (`SshRuns.SurplusOpensTwo`). `NewForward` and `NewProxy` do that: they defer a
  `Close`, and `Forward.Close` or `Proxy.Close` is another. What is proved of open clients, and of
  contexts per failed dial, is for instances to which it has not happened.
- A keepalive stops when the context it waits on ends, and never runs again for its instance; an
  instance held anew is then without one (`SshRuns.HeldUntended`). That happens only after one of its
  contexts or the root was cancelled (`SshKeeper.TendedExactly`, `SshKeeper.NeverClosedIsTended`),
  and a context is cancelled by a last close, or by closing a connection dialled through the
  instance, which shares it (`SshRuns.RemoteEndsKeepalive`). From where a held instance is, its
  keepalive can end by itself if and only if what `SshKeeper.EndsUntendedExactly` names has happened.
- `NewHTTPContextWithCtx(nil)` adds to the shutdown count before it panics, and a context whose last
  owner lets go of it uncancelled, as a failed `NewSSH` does, stays counted; the count can come down
  to zero if and only if neither has happened (`Shutdown.DrainsExactly`). After the 30 second timer
  has closed the done channel the waiter can close it again if and only if nothing has leaked in
  either way or it was already past the count (`Shutdown.ClosableTwiceExactly`).
- `DispatchRoute` looks up paths that begin with "c:", and ends in NotFound if and only if no route is
  registered there (`RouteLookup.DispatchExactly`, `RouteLookup.DispatchNeverFinds`); a route is never
  found by its own controller and action (`RouteLookup.DispatchMisses`).
- The "ecb" model of the cipher is chaining with a zero vector, so the two models agree only for the
  key of zeros (`Aes.ModelsAgreeExactly`), and cbc works only with a key of 16 bytes
  (`Aes.DecryptEncrypt`); unpadding checks nothing but a length (`Aes.UnpadPad`).
- A saved host table is restored if and only if no host has a colon or a line break
  (`Pac.RestoredExactly`), though its decisions survive colons (`Pac.DecisionsSurvive`); an escaped
  text if and only if it is valid UTF-8 of the basic plane without an escape of its own
  (`Utf.RestoredExactly`), and the round-robin stays fair across the wrap of its counter if and only
  if the list's length divides 2^64 (`RoundRobin.FairExactly`).

## Model

| member | source | states |
|---|---|---|
| P2cPicker.Picker.Choose | grpc/balancer/p2c/p2c.go:149-167 | the less loaded of the two is chosen, unless the other has gone unpicked for longer than the force interval; only the chosen one's pick time changes |
| P2cPicker.Picker.Sample | grpc/balancer/p2c/p2c.go:83-95 | the pair of the first draw that names two connections whose success is above 500, else of the third draw; always two different connections |
| P2cPicker.PairsAreUniform | grpc/balancer/p2c/p2c.go:85-89 | each ordered pair of different connections comes from exactly one draw, and no other pair from any |
| P2cPicker.SecondAmongOthers | grpc/balancer/p2c/p2c.go:85-91 | the first number drawn names a connection among all, the second one among the others |
| P2cPicker.Picker.Pick | grpc/balancer/p2c/p2c.go:69-111 | an error only without connections; the choice between the two, or between the pair of the first draw with both successes above 500, of the third draw when there is none; the chosen one's pick time, inflight and requests step, nothing else changes |
| P2cPicker.Picker.Done | grpc/balancer/p2c/p2c.go:113-147 | a completion's whole effect on its connection, on the stamp and, when a log interval has passed, on every request counter |
| P2cPicker.Picker.LogStats | grpc/balancer/p2c/p2c.go:169-181 | every counter is handed to the log once and zeroed |
| P2cArithmetic.BlendBetween | grpc/balancer/p2c/p2c.go:132-138 | a decayed average never leaves an interval that holds the old average and the new sample |
| P2cArithmetic.CompletionWeighs | grpc/balancer/p2c/p2c.go:113-138 | over an estimate that is not zero each new value lies, within 1, where the caller's weight puts it between the old value and the sample |
| P2cArithmetic.EstimatesDecay | grpc/balancer/p2c/p2c.go:113-138 | after k completions of one latency, outcome and weight the distance left has decayed with the k-th power of the weight, up to rounding |
| P2cArithmetic.TruncationShows | grpc/balancer/p2c/p2c.go:132-138 | each failure lowers a success estimate above 0, and no success brings one below 1000 back to 1000 |
| P2cArithmetic.LighterUnlessOverdue | grpc/balancer/p2c/p2c.go:156-167 | in numbers: the smaller of sqrt(lag+1)*(inflight+1) is taken, the first on a tie, unless one has waited for more than a second |
| P2cArithmetic.FirstSampleKept | grpc/balancer/p2c/p2c.go:128-132 | the first latency becomes the estimate undiluted, because the weight is 0 while the estimate is 0 |
| P2cArithmetic.LoadFits | grpc/balancer/p2c/p2c.go:198-207 | with at most 2^31-1 outstanding requests the load is at least 1, fits int64, and is not the penalty |
| P2cSafety.OnlyTheLockBlocks | grpc/balancer/p2c/p2c.go:69-181 | in every reachable state the lock is the only thing anyone waits for, and its holder can always step |
| P2cSafety.EstimatesAlways | grpc/balancer/p2c/p2c.go:113-138 | in every interleaving, updates lost or not, success stays in 0..1000 and lag is 0 or between the extremes of the latencies stored |
| P2cSafety.ConservedAlways | grpc/balancer/p2c/p2c.go:100-181 | in every interleaving inflight is the number of outstanding picks, never negative, and flushed counts plus running counters are all the picks |
| P2cSafety.LoadsFit | grpc/balancer/p2c/p2c.go:156-207 | every load a pick computes from values read at different moments is positive, fits int64 and is not the penalty |
| P2cSafety.StampsAlwaysSpaced | grpc/balancer/p2c/p2c.go:140-145 | successive successful swaps of the statistics stamp are at least a log interval apart |
| P2cFairness.SwapSucceeds | grpc/balancer/p2c/p2c.go:160-163 | in every run the compare-and-swap of a pick time succeeds, whatever ran since its load |
| P2cFairness.BoundedWaiting | grpc/balancer/p2c/p2c.go:149-167 | with two connections and picks that follow each other within the force interval, at every pick after the first the one passed over was picked within that interval |
| P2cAlone.CompletionAlone | grpc/balancer/p2c/p2c.go:113-147 | the atomic steps of a completion, run alone, are the whole operation |
| P2cAlone.ChoiceAlone | grpc/balancer/p2c/p2c.go:149-167 | the atomic steps of a choice, run alone, pick the connection the operation picks |
| P2cAlone.OnlyAlone | grpc/balancer/p2c/p2c.go:77-101 | the atomic steps of the pick of an only connection, run alone, count it and set its pick time |
| Conditions.Meet | db/xorm_dao.go:176-303 | one entry of the map: the clause, the call, the setting, or the error it stands for |
| Conditions.WalkMap | db/xorm_dao.go:175-303 | the loop over the map stops before the first bad key, its earlier calls already made |
| Conditions.Conclude | db/xorm_dao.go:305-322 | the WHERE text and arguments, then the ordering, then the page, are handed to the session |
| Conditions.BuildCond | db/xorm_dao.go:162-325 | every call made on the session, in order, on success and on error; an error exactly when some key that is no setting has neither one field nor two |
| ConditionOrder.WalkSummarised | db/xorm_dao.go:176-240 | ordering, raw condition and page depend on the map alone; nolimit wins wherever it is met |
| ConditionOrder.CollectedAlike | db/xorm_dao.go:175-303 | whatever the keys, any two iteration orders agree on error and on the multisets of clauses with arguments and of calls |
| ConditionOrder.OrderFreeExactly | db/xorm_dao.go:176-240 | all iteration orders agree on ordering, raw condition and page if and only if the orderings, the raw conditions and the page sizes in the map agree where they are used |
| ConditionOrder.Confluence | db/xorm_dao.go:162-325 | for keys distinct after lower-casing, any two iteration orders agree on all of that |
| ConditionOrder.PagesConcatenate | db/xorm_dao.go:320-322 | the windows of consecutive pages put together are the unpaged result |
| ConditionOrder.LimitIsAPage | db/xorm_dao.go:202-235 | limit and start are those of the page asked for if and only if the start fits 64 bits |
| ConditionOrder.StartOverflows | db/xorm_dao.go:320-322 | a map whose start wraps to a negative number |
| Sql.LexConcat | db/xorm_dao.go:305-314 | the tokens of two texts put together are the tokens of each, where no quote is open and no word runs across |
| Sql.ReadsConjoined | db/xorm_dao.go:305-308 | clauses joined by AND are read as all of them, each with its own argument |
| Sql.ReadsGuarded | db/xorm_dao.go:310-314 | a raw condition in parentheses, with the clauses after it, is read as the raw condition and all of them, even when it holds an OR |
| ConditionMeaning.WhereReads | db/xorm_dao.go:305-316 | the built text has as many holes as arguments and says the raw condition and every clause |
| ConditionMeaning.MeaningPreserved | db/xorm_dao.go:277-324 | the session selects exactly the rows that every entry of the map asks for, whatever the order; blanks around a column's name are no part of what a key asks |
| ConditionResult.QueryAsked | db/xorm_dao.go:162-325 | of distinct keys, the calls tell the session the grouping, having, selection, columns, locking, statement, ordering and page that the map holds under those names, and nothing else |
| ConditionResult.NoEmptyCalls | db/xorm_dao.go:191-239 | no grouping, having, selection or ordering call is made with an empty text |
| ConditionResult.SettingNames | db/xorm_dao.go:179-275 | which fifteen names are settings |
| ConditionResult.ResultAsked | db/xorm_dao.go:162-325 | the rows the calls leave of a table are those every entry asks for, as the database groups and orders them for the query asked, cut to the page asked for |
| ConditionResult.PagesOfMap | db/xorm_dao.go:202-235 | the results for pages 1 to n of a map, each in an iteration order of its own, put together are the result with "nolimit", as far as they reach |
| ConditionResult.SpellingsAgree | db/xorm_dao.go:203-216 | a number of 64 bits counts the same as an int, a float and a text |
| ConditionResult.OtherSpellings | db/xorm_dao.go:203-216 | a text that is no number counts as 0, one beyond 64 bits as the nearest bound |
| ConditionLimits.FieldsOfJoined | db/xorm_dao.go:277 | the fields of words with blanks between them are the words |
| ConditionLimits.PlainOperatorReadable | db/xorm_dao.go:294-296 | a key of two plain words is readable exactly when they join and negate nothing, and is read as that comparison |
| ConditionLimits.CallKeyReadable | db/xorm_dao.go:294-296 | a function of a column compared by a plain operator is a readable key |
| ConditionExact.SafeExactly | db/xorm_dao.go:277-308 | a key keeps its meaning in every map of otherwise readable keys if and only if it is readable |
| ConditionExact.BlankNameUnsafe | db/xorm_dao.go:277-281 | a column's name after a blank counts as one field but is quoted with the blank, so it never keeps its meaning |
| ConditionExact.OperatorKeysExactly | db/xorm_dao.go:283-299 | a key of two plain words keeps its meaning if and only if neither word joins or negates, or they are "between and" |
| ConditionExact.BetweenAndIsSafe | db/xorm_dao.go:294-296 | "between and" is the one key of two joining words that is read as it is meant |
| ConditionLimits.OrKeyEscapes | db/xorm_dao.go:294-308 | a key whose operator is OR lets through rows that another clause rejects |
| ConditionLimits.CollidingKeysDiffer | db/xorm_dao.go:176-190 | a map of two keys equal after lower-casing for which two orders give different orderings |
| SshSafety.NeverStuck | ssh/ssh.go:75-100 | while a call is unfinished some call can step, though NewSSH waits for an instance while it holds the table |
| SshSafety.SameKeySameInstance | ssh/ssh.go:75-85 | callers share an instance exactly when their keys are the same, however their calls overlap |
| SshSafety.ConfiguredByFirst | ssh/ssh.go:75-85 | an instance keeps the address and the keepalive wish of the first NewSSH for its key |
| SshSafety.RefCountsHolders | ssh/ssh.go:92-119 | ref is the number of callers holding the instance less the closes by callers that had closed it before, in every interleaving |
| SshSafety.OneOpenClient | ssh/ssh.go:106-119 | an instance that nobody closed twice never has two open clients, and none after its last holder has closed it |
| SshSafety.ClosedExactly | ssh/ssh.go:106-119 | in every run an open client is closed exactly when it drops, when the last holder closes, or when the keepalive is about to dial again for holders |
| SshSafety.NoRedialAfterLastClose | ssh/ssh.go:342-358 | the keepalive dials only while somebody holds the instance |
| SshSafety.ContextsExact | ssh/ssh.go:97-119 | in every run, surplus closes and shared contexts included, the contexts an instance has in the shutdown count are those made less those cancelled, each cancelled once |
| SshSafety.ContextsLeakPerFailure | ssh/ssh.go:97-102 | an instance that nobody closed twice keeps the context it uses, and one more for each NewSSH whose dial failed |
| SshSafety.FailedDialsNeverDrain | ssh/ssh.go:97-102 | the failed dials of any point of a run are still in the shutdown count at every later point |
| SshKeeper.KeeperNeverReturns | ssh/ssh.go:315-325 | a keepalive loop that has ended is never started again for its instance |
| SshKeeper.SkipMeansNone | ssh/ssh.go:315-320 | in every run an instance with SkipKeep never has a keepalive loop |
| SshKeeper.TendedExactly | ssh/ssh.go:315-335 | in every run a held instance that wants a keepalive has one if and only if its loop has never stopped |
| SshKeeper.NeverClosedIsTended | ssh/ssh.go:315-335 | a held instance none of whose contexts was cancelled, by a last close or by that of a connection dialled through it, keeps its keepalive while the root lives |
| SshKeeper.EndsUntendedExactly | ssh/ssh.go:315-335 | the keepalive of a held instance can end by its own steps alone if and only if it has stopped, the context it waits on has ended, or, unless a failed ping is being dealt with, the instance's context or the root has |
| SshRuns.HeldUntended | ssh/ssh.go:97-142 | a run that ends with an instance held, connected and without a keepalive |
| SshRuns.RemoteEndsKeepalive | ssh/ssh.go:159-176 | the same in a run whose only caller of NewSSH has never closed the instance, but a connection dialled through it was closed |
| SshRuns.SurplusCutsOff | ssh/ssh.go:106-119 | a run in which one caller's second close shuts the client that another holds |
| SshRuns.SurplusOpensTwo | ssh/ssh.go:92-119 | a run in which a second close lets two callers dial, and both clients stay open |
| SshInstances.SSH.Dial | ssh/ssh.go:131-148 | without an address nothing changes; otherwise the client is replaced, and success counts a holder and starts a keepalive goroutine |
| SshInstances.SSH.BeginKeepalive | ssh/ssh.go:315-320 | the goroutine goes on to its loop exactly when no other has, one is wanted and there is a client |
| SshInstances.SSH.Acquire | ssh/ssh.go:92-102 | the part of NewSSH under the instance's lock, with the change in the shutdown count |
| SshInstances.SSH.Close | ssh/ssh.go:106-119 | ref is one less, whoever closes; at zero and below the context is cancelled, which counts once, and the client closed |
| SshInstances.SSH.Keep | ssh/ssh.go:337-372 | after a failed ping a held instance has its old client closed and is dialled again, an unheld one is left alone |
| SshInstances.AcquireAlone | ssh/ssh.go:68-103 | the steps of NewSSH run alone, for a known key or a new one, do what the method does |
| SshInstances.ReleaseAlone | ssh/ssh.go:106-119 | the same for Close |
| SshInstances.RenewAlone | ssh/ssh.go:337-372 | the same for one round of the keepalive |
| Shutdown.ShutdownOnce | signal/signal.go:110-149 | with any number of callers at most one waiter starts; unless the timer fired, done is closed at most once, only after the root context was cancelled and the count was zero, and no Shutdowned returns before |
| Shutdown.ClosesCounted | signal/signal.go:123-143 | done is closed at most once by the timer and at most once by the waiter, and by nothing else |
| Shutdown.NeverStuck | signal/signal.go:110-131 | while a doShutdownDone is unfinished one of them can step |
| Shutdown.StartedExactly | signal/signal.go:72-131 | each listener that goes on and each Shutdowned starts one doShutdownDone and nothing else does; the root is cancelled exactly by its owner or the waiter, and only then can a listener give up |
| Shutdown.LateListenerLeaves | signal/signal.go:56-62 | a Listen that begins after the flag was set never waits for signals |
| Shutdown.ClosableTwiceExactly | signal/signal.go:123-143 | after the timer has closed done, some continuation closes it again if and only if nothing has leaked or the waiter has passed the count |
| Shutdown.DrainsExactly | signal/signal.go:133-161 | from any point of any run the count can come down to zero if and only if no constructor has panicked after counting itself and no context was let go uncancelled |
| Shutdown.TimerClosesTwice | signal/signal.go:123-143 | a run in which that happens |
| Shutdown.CountExact | signal/signal.go:151-161 | the wait count is the contexts that can still be cancelled, the other work in progress, and the leaks |
| Shutdown.LeakNeverDrains | context.go:98-111 | once a constructor has panicked after counting itself, or a context was dropped, the count never reaches zero again |
| Contexts.HTTPContext.Cancel | context.go:154-163 | a context counts down once, however often it is cancelled |
| Contexts.NewHTTPContext | context.go:88-96 | a new context counts one, and is not cancelled |
| Contexts.FromGrpc | context.go:113-139 | a context that already is one is returned and not counted again |
| Admission.Server.Serve | router.go:50-60 | a request alone leaves the counter as it was, and is admitted exactly when nothing is configured, under go test, or when its number is within the bound, both cut to 32 bits |
| Admission.StepsAreAdds | router.go:206-209 | adding 1 and adding the largest 32-bit value are one step up and one step down |
| Admission.OnlineCounts | server_grpc.go:114-125 | the counter is the number of requests inside modulo 2^32, exits by panic included |
| Admission.AdmissionBounded | router.go:111-120 | with fewer than 2^32 inside, over every interleaving the counter is exact and no more than Concurrence are admitted at once |
| Admission.CapacityExactly | router.go:111-120 | a number of requests can be admitted at once in some run if and only if it is at most Concurrence cut to 32 bits; any number the counter holds when none is configured or under go test |
| Admission.UnboundedRejectsNobody | router.go:112-114 | with Concurrence at most 0, or under go test, nobody is ever rejected |
| Admission.BoundKeptExactly | router.go:116-118 | every number within Concurrence passes if and only if Concurrence fits 32 bits or is cut to the largest number of 32 bits |
| Admission.TruncatedBoundAdmitsNobody | router.go:116-118 | a bound that is a multiple of 2^32 admits nobody |
| Names.Snake | encoding/cased.go:4-17 | the loop computes the snake form |
| Names.SnakeIsLowerCase | encoding/cased.go:4-17 | without underscores the snake form is the lower-case name |
| Names.SnakeUndone | encoding/cased.go:4-17 | on names that begin with a capital the snake form has an inverse |
| Names.SnakeInjective | encoding/cased.go:4-17 | two names that begin with a letter share a snake form exactly when they differ in the case of that letter at most |
| Names.GetActionsAndMethod | router_map.go:87-112 | the actions, the verb and whether there is one |
| Names.VerbReported | router_map.go:92-102 | a verb is reported exactly for names that end in For and a known verb, and then action, For and verb make up the name |
| Names.ActionsExactly | router_map.go:87-112 | a method serves the lower-case and the snake form of its own name, which is without "For" and its verb, each once, and nothing else |
| Names.OneFormExactly | router_map.go:104-108 | the two forms are one exactly when no letter after the first is a capital |
| Names.ActionsPlain | router_map.go:104-108 | every action is lower-case and slash-free, and is the lower-case or the snake form |
| Routes.Router.AddAction | router.go:166-182 | one route goes into the table for its kind under its key, or panics on a taken key |
| Routes.Router.Handler | router.go:129-187 | the tables after a registration, or the panic |
| Routes.Router.LookUp | router_map.go:51-56 | the verb's own route first, then the plain one |
| Routes.Router.FindInstanceByPath | router_map.go:32-74 | the instance, action, controller and path a lookup settles on |
| RouteLookup.KeysDiffer | router.go:166-182 | routes that differ in controller, action or verb never share a key |
| RouteLookup.TablesFaithful | router.go:129-187 | after any registrations without a panic the tables hold exactly the registered routes |
| RouteLookup.RegisteredPaths | router.go:142-148 | only paths asked for are registered |
| RouteLookup.RegisteredIsRouted | router.go:148-184 | every action of every method of the first controller at a path is a route, and stays one |
| RouteLookup.FoundAtOwnPath | router_map.go:46-68 | a route is found at its own path in any letter case and between any slashes, unless one of higher priority is there first |
| RouteLookup.RegisteredIsFound | router.go:129-187 | from registration to lookup: each method is found at the lower-case and at the snake form of its own name, with the two stated exceptions |
| RegisterExact.PanicsExactly | router.go:142-184 | registrations panic if and only if one names a path registered under another controller's name, or is at a new path and two of its methods give one action by one verb |
| RegisterExact.FrameworkNeverRouted | router.go:152-154 | the six methods of the framework are never routed |
| RegisterExact.FirstIsFirst | router.go:163-165 | the default instance is that of the first route |
| RouteLookup.TriedExactly | router_map.go:51-56 | a path is in the tables if and only if a registered route has one of the two keys that are tried |
| RouteLookup.ServesOwnPath | router_map.go:51-56 | for a method that hides no "for" and verb in itself, that route is registered at the very path, without a verb or with the request's |
| RouteLookup.CapitalsArePlain | router_map.go:51 | a request method of capitals alone, PATCH included, can hit no key of another path |
| RouteLookup.NotFoundExactly | router_map.go:46-73 | by any method, a lookup ends in NotFound if and only if neither of the two paths it tries has such a route |
| RouteLookup.ShadowIsDefaultAction | router_map.go:48-56 | the first exception is a route with a key tried at the longer path, by a plain method a default action registered there |
| RouteLookup.ShadowIsVerbRoute | router_map.go:63-68 | the second is a route with the key tried for the request's verb, by a plain method the same action registered for that verb |
| RouteLookup.RootFindsDefault | router_map.go:76-84 | a path of slashes finds the default action of the default controller |
| RouteLookup.DispatchExactly | router_map.go:115-128 | DispatchRoute ends in NotFound if and only if no route is registered at the paths it makes up, which begin with "c:" |
| RouteLookup.DispatchMisses | router_map.go:115-128 | a route is served at neither path that dispatching its own controller and action makes up |
| RouteLookup.DispatchNeverFinds | router_map.go:115-128 | DispatchRoute always ends in NotFound while no controller's path begins with "c:", by any method |
| Aes.PadUnpad | crypto/aes.go:63-67 | padding adds 1 to 16 bytes, fills the last block and is undone |
| Aes.PadInjective | crypto/aes.go:63-67 | different texts are padded differently |
| Aes.UnpadPad | crypto/aes.go:102-106 | padding again what unpadding left restores a text if and only if it was well padded |
| Aes.UnchainChain | crypto/aes.go:39-49 | unchaining undoes chaining |
| Aes.ChainUnchain | crypto/aes.go:76-83 | chaining undoes unchaining |
| Aes.ChainBlock | crypto/aes.go:39-49 | each block of cipher text is the block function of its text xor the block before, as the standard has it |
| Aes.UnchainBlock | crypto/aes.go:76-83 | each block of text depends on two blocks of cipher text, as the standard has it |
| Aes.DamageIsLocal | crypto/aes.go:76-83 | damage to one block of cipher text reaches two blocks of text at most |
| Aes.OtherModel | crypto/aes.go:40-44 | decrypting in the other model spoils no block but the first |
| Aes.KeyIsLongest | crypto/aes.go:108-126 | the key used is the longest prefix of 16, 24 or 32 bytes that the given one has |
| Aes.EncryptedBlocks | crypto/aes.go:33-51 | the first block of cipher text is the block function of the first padded block, mixed with the key in cbc and alone in "ecb"; each later one is mixed with the block before |
| Aes.DecryptedBlocks | crypto/aes.go:70-106 | the same for decryption, whose last byte alone says how much padding goes |
| Aes.NotDecrypted | crypto/aes.go:70-106 | no text of none or broken blocks is decrypted, nor any by a cbc key not of 16 bytes |
| Aes.ModelsAgreeExactly | crypto/aes.go:40-44 | under a key of 16 bytes the models agree on a text if and only if the key is all zeros |
| Aes.DecryptEncrypt | crypto/aes.go:33-86 | every byte string decrypts to itself in both models; encryption panics exactly for a cbc key not of 16 bytes |
| Aes.EncryptDecrypt | crypto/aes.go:70-86 | a cipher text is the encryption of what it decrypts to if and only if that came well padded |
| Aes.EncryptBlocks | crypto/aes.go:46-49 | the buffer is filled with the chained text |
| Aes.DecryptBlocks | crypto/aes.go:82-83 | the buffer is filled with the unchained text |
| Aes.AesCrypt.Encrypt | crypto/aes.go:33-51 | the encrypted text, or the panic |
| Aes.AesCrypt.Decrypt | crypto/aes.go:70-86 | the decrypted text, or the panics on broken blocks and lengths |
| EtcdResolver.SwapOutIsRemoval | grpc/discovery/resolver/etcd.go:112-120 | swapping in the last item removes exactly one address and keeps the list free of duplicates |
| EtcdResolver.StepRefines | grpc/discovery/resolver/etcd.go:86-99 | one event changes the list as it should change the set, and publishes exactly when the set changes |
| EtcdResolver.RunRefines | grpc/discovery/resolver/etcd.go:85-100 | after any events the list is the fold of them over the set, and the published lists are the sets it went through |
| EtcdResolver.WatchRefines | grpc/discovery/resolver/etcd.go:69-101 | the same for the whole watch from the first read on |
| EtcdResolver.ListedExactly | grpc/discovery/resolver/etcd.go:69-101 | an address is in the list, and in the one published last, if and only if the last event on its key was a put, or there was none and the key was there at first |
| EtcdResolver.TrimmedDistinct | grpc/discovery/resolver/etcd.go:76-78 | distinct keys under the prefix give distinct addresses |
| EtcdResolver.Watcher.Exist | grpc/discovery/resolver/etcd.go:103-110 | whether the address is in the list |
| EtcdResolver.Watcher.Remove | grpc/discovery/resolver/etcd.go:112-120 | in place, the first occurrence is overwritten by the last item |
| EtcdResolver.Watcher.Watch | grpc/discovery/resolver/etcd.go:69-101 | the loop over batches of events computes the list and everything published |
| Pac.SplitWritten | pac/pac.go:60-67 | what is written splits into one line a host and an empty one |
| Pac.LineExactly | pac/pac.go:34-43 | a line of two parts sets a host, to yes exactly for "1"; any other line says nothing |
| Pac.ParseWritten | pac/pac.go:32-46 | reading back what was saved, its hosts without line breaks, adds those without a colon to the present table, whatever the order |
| Pac.RestoredExactly | pac/pac.go:32-67 | a saved table is restored if and only if no host has a colon or a line break |
| Pac.DecisionsSurvive | pac/pac.go:32-67 | without line breaks in its hosts every decision of a saved table survives |
| Pac.AlikeExactly | pac/common.go:47-61 | two tables decide every host alike if and only if they decide alike the hosts they hold |
| Pac.Table.Check | pac/common.go:47-61 | the answer is the value of the longest dot-suffix of the host in the table, false when there is none |
| Pac.DecidesOnce | pac/common.go:53-58 | that answer is determined |
| Pac.HostEndsAtColon | pac/common.go:51 | the host is what stands before the first colon |
| Pac.Table.ParsePac | pac/pac.go:32-46 | the table after reading a text |
| Pac.Table.Write | pac/pac.go:60-67 | the text written for an order of the map |
| Utf.DecodeUtf8 | common/common.go:134 | decoding an encoded code point gives it back (section 3 of RFC 3629) |
| Utf.Utf8Decode | common/common.go:134 | whatever decodes and is not invalid is the encoding of its code point |
| Utf.InvalidExactly | common/common.go:134 | one byte is taken for a replacement character exactly when no encoding stands at the front |
| Utf.HexIsNumeral | common/common.go:142 | the digits written are those of the code point, in lower case, at least four, without needless zeros |
| Utf.OneEscaped | common/common.go:135-146 | a character outside ASCII becomes a backslash, "u" and its digits, one of ASCII stays |
| Utf.UtfToUnicode | common/common.go:131-151 | the loop ends, and its output is the escaped text, all ASCII |
| Utf.RestoredExactly | common/common.go:131-151 | reading the escapes back restores the text if and only if it is valid, of the basic plane, and holds no escape of its own |
| Utf.NoBackslashNoEscape | common/common.go:131-151 | a text without a backslash holds no escape |
| RoundRobin.Resolver.GetAddress | service/discovery/consul.go:160-183 | the error, the only address, the random one or the next in turn, and the counter after it |
| RoundRobin.IndexStep | service/discovery/consul.go:179-180 | the counter after any number of calls, in 64 bits |
| RoundRobin.Fair | service/discovery/consul.go:178-180 | any window of calls serves every position within one of every other, and k rounds serve each k times |
| RoundRobin.FairExactly | service/discovery/consul.go:178-180 | every round is fair from every counter value if and only if the length divides 2^64 |

## Left out

- P2cMachine.Next: the connection pair of a pick among three or more is any two different ones, so the health check and the three draws are in `P2cPicker.Picker.Sample` only; a pick reads its clock in one step with taking the lock.
- P2cArithmetic.BlendBetween: rounding of 64-bit floats and the true exponential are not modelled; weights are reals from 0 to 1 and the average is floored.
- P2cPicker.Picker.Done: which errors are acceptable is a parameter, and so is the weight the clock gives; `Load` follows `int64(sqrt(lag+1))` as an integer square root.
- ConditionMeaning.MeaningPreserved: a raw condition must close its quotes and parentheses and hold no placeholder; this is not exact, since one that contradicts itself on both sides of a stray pair selects nothing either way. A map with a "sql" key is excluded, since a statement given as a whole leaves no use for the conditions; grouping and HAVING do not select rows there but are part of the query in `ConditionResult`.
- ConditionExact.SafeExactly: "readable" is meant in the reading of `Sql`, where "between and" as a key of two words is one comparison and parentheses count by their balance.
- Sql.LexConcat: backslash escapes in quoted text and comments are not part of this reading of SQL.
- ConditionResult.ResultAsked: what the database makes of the selected rows for a query, its grouping, columns and ordering included, is any function of the two; a negative limit or start is taken to leave nothing.
- Conditions.BuildCond: a float stands for the 64-bit integer it converts to; the database's own schema and the session's later use are not modelled.
- SshKeeper.TendedExactly: reading and setting the keepalive flag is one step, so two goroutines that both find it unset are not distinguished; the timer may fire at any time the loop waits.
- SshSafety.SameKeySameInstance: the hash of a configuration stands for the configuration; hash collisions and encoding errors are not modelled. Of `DialRemote`, called by a holder, the shared context is modelled, not the client and keepalive of what it dials; the proxy of `ssh/proxy.go` is not part of this model.
- SshSafety.OneOpenClient: closes by a caller whose own `NewSSH` failed are not modelled; that a surplus close breaks it in some run is `SshRuns.SurplusOpensTwo`.
- Shutdown.ShutdownOnce: claims of exactly one close exclude runs in which the 30 second timer fires; what happens then is `Shutdown.ClosableTwiceExactly`. The unlocked flag of `Listen` is read and written in separate steps.
- Contexts.HTTPContext.Cancel: one step, since its flag is a plain bool; races inside it are not modelled.
- Routes.Router.Handler: the tables are not described after a panic; reflection is replaced by the list of method names, taken to be ASCII and without slashes. `HandlerFunc` and static files are not routes of these tables.
- RouteLookup.ServesOwnPath: a request method that itself holds "for" and a verb, as "xforGET" does, is excluded, since it can hit the key of another path.
- Names.SnakeUndone: letter case is ASCII only, here and in the router, the condition compiler and `Text`; white space in keys is recognised up to U+00FF.
- Aes.DecryptEncrypt: Go's AES is any invertible function on 16-byte blocks; appending the padding into spare capacity of the caller's slice is not modelled. The Base64 wrappers are left out.
- EtcdResolver.WatchRefines: relative to the events delivered; a change between the first read and the start of the watch is not one, and lists published earlier are recorded by their contents, not as aliases of the array.
- Pac.DecisionsSurvive: a host with a line break is written as several lines, and what they add is not described.
- Pac.Table.Check: locks, file age and the download that fills the table are not part of this model.
- Utf.UtfToUnicode: the buffer's write errors never occur and are left out.
- RoundRobin.Resolver.GetAddress: calls are sequential on a fixed list; a nil resolver and a concurrent refresh of the list are not modelled, and the random draw is a parameter.
- Redis, sessions, templates, JSON output, metrics, logging, configuration loading, cron, and the network and terminal code of `curl/`, `api/`, `proxy/`, `ssh/scp.go`, `ssh/exec.go` and `ssh/forward.go` are thin wrappers whose meaning lies elsewhere.
