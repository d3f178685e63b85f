# ric-edge: a model of the gateway's stateful core

ric-edge is a gateway between a cloud (MQTT) and device connectors (websocket JSON-RPC). Its network code is thin;
the logic between the networks is not. This project models that logic in Dafny and proves what it keeps, and, where
it keeps something only under a condition the code does not enforce, exactly when.

| files | models |
|---|---|
| `ws_protocol.dfy`, `ws_channels.dfy`, `ws_pending.dfy`, `ws_delivery.dfy`, `ws_registry.dfy` | callers, listeners and connect handlers of `internal/pkg/core/ws/ws.go` as a transition system, one step per critical section; properties over all runs |
| `ws_service.dfy` | the methods of the same file as imperative code; each of their outcomes is a run of the transition system |
| `template.dfy`, `template_text.dfy`, `template_properties.dfy`, `template_outcome.dfy`, `template_jobs.dfy`, `template_traps.dfy`, `template_examples.dfy` | `fillTemplate`: the code over a real backing array, the same over slice memory, and the pure function a reader expects; when filling fails and what it gives else; what scheduled jobs read on later ticks; when filling never ends |
| `model_tree.dfy`, `model_tree_code.dfy`, `model_tree_tables.dfy`, `model_tree_shape.dfy`, `model_tree_properties.dfy` | `prepare`, `walk`, `afterWalk`, `fillPayload`: a class that updates its maps and a path stack whose array is shared, a function of that array, and what the finished tables mean for the tree |
| `modbus_coils.dfy`, `modbus_coils_properties.dfy`, `modbus_registers.dfy` | bit and register packers and readers, against the wire layout |
| `jsonrpc_frames.dfy`, `jsonrpc_response.dfy` | the two locks around the transport; responses and error values |
| `state_store.dfy` | memory, database bucket and published value of each parameter, alone and interleaved |
| `opcua_browse.dfy`, `opcua_browse_properties.dfy` | depth-bounded browsing of a possibly cyclic address space |
| `ble_connections.dfy` | who owns a BLE client, over any sequence of calls |

`dafny verify dfyconfig.toml` checks everything. The conventions are the same throughout: what a library, a peer, a
timer or the runtime decides is a parameter (`ok`, `upgraded`, `written`, `saved`, a `Device`, the growth policy `extra`
of `append`) or a choice of step, and every statement is for all of them. "History" fields and `ghost` variables only
remember what happened.

## What the code does not promise

Each of these is a lemma with a concrete run or input, next to the exact condition under which the code is right.

- `Call` writes its request before it registers the id, so an answer that arrives in between ends the process with
  "resp chan not found" (`WsPending.PromptAnswerPanics`; exactly when: `WsPending.PanicsIff`).
- Two connect attempts for one name can both pass the check and leave two live sessions, one of them unreachable; and the
  late clean-up of an old session removes its successor's entry (`WsRegistry.OverlapLeavesTwoOpen`,
  `WsRegistry.LateDeleteHidesSuccessor`; exactly which steps do harm: `WsRegistry.StepKeepsGoodIff`).
- A configuration value longer than its placeholder is written over the text after the placeholder before that text is
  appended, whenever it ends within the capacity of the buffer; no spare capacity is needed, enough text behind the
  placeholder will do (`TemplateExamples.AliasedTailIsLost`; exactly when: `TemplateProperties.GrowthIsSpliceIff`).
- A "{{" without a "}}" behind it makes the whole call fail, and where values bring no loose braces nothing else does
  (`TemplateOutcome.FailsIff`).
- A scheduled job hands the same buffer to `fillTemplate` on every tick. Where no value is longer than its placeholder, a
  tick finds the output of the last one followed by leftovers (`TemplateExamples.SecondTickDiffers`: what follows the JSON
  object makes the second payload undecodable); the next tick gives the same payload exactly when the leftovers alone fill
  to nothing (`TemplateJobs.ScheduledReuse`), any number of ticks exactly when they go on doing so
  (`TemplateJobs.TicksAlikeIff`), and values as long as their placeholders are always safe
  (`TemplateJobs.SameLengthIsSteady`). A longer value that makes the slice move at once is safe too
  (`TemplateJobs.MovedIsSteady`); one that fits into the buffer leaves it changed (`TemplateExamples.LongTickDiffers`).
- Filling need not end. Where the values leave no "{{" open and no loose brace at their end, and no longer value
  overwrites text it changes, it never ends exactly when from some placeholder of the text one can go on for ever from a
  placeholder to one in its value (`TemplateTraps.EndlessIff` of the pure function, `TemplateTraps.CallIsEndlessIff` of the code).
  Of other values and of corrupting runs: without '{' in any value every run ends (`TemplateProperties.DepthIsBounded`),
  and where values lead back to each other by their leftmost placeholders none does (`TemplateTraps.TrapNeverEnds`).
- `walk` takes an id off its stack after every child it goes into, but puts one on only for subsystems. A plain grouping
  node makes it panic (`ModelTreeProperties.GroupingNodePanics`) or gives later sensors an outer connector without notice
  (`ModelTreeProperties.GroupingNodeMisleads`); because the array of the stack is shared, groups deep in the tree can even
  replace the connector of a sensor outside it (`ModelTreeProperties.SharedStackOverwritten`); a subsystem with a read
  command is never taken off (`ModelTreeProperties.ReadingSubsystemLeaks`). Exactly when it panics:
  `ModelTree.WalkIsSafe`; on which trees every connector is the nearest subsystem, exactly, where subsystem ids differ:
  `ModelTreeShape.ShapeIsRightIff`. Tables are
  keyed by name and id: of two sensors with one name only the last has an action
  (`ModelTreeTables.ActionsAreTheReadNodes`).
- Reading coils drops the zero bits at the high end of every byte, so later coils move forward
  (`ModbusCoilsProperties.NinthCoilReadAsFirst`; exactly when: `ModbusCoilsProperties.ReadingIsRightIff`).
- The buffer for registers has `quantity*2` bytes in `uint16` arithmetic, so from 32768 registers on every request fails
  (`ModbusRegisters.PackRegisters`).
- A notification and a response for one parameter, or two responses, can overlap and leave memory and database apart
  (`StateStore.OverlapDisagrees`; exactly when the copies agree in the end: `StateStore.QuietAgreesIff`,
  `StateStore.LastOfAllIff`). Keys that only notifications update are safe (`StateStore.ListenerIsApart`,
  `StateStore.AgreeWhenQuiet`).
- A BLE subscribe that dials and then fails keeps its client open for good (`BleConnections.LostClientsStayOpen`).
- The comment at `pkg/jsonrpc/error.go:46` says that SetCode works for the server error only; what the code looks at is
  the range of the current and of the new code. The model follows the code, and for chains that begin at a package-level
  error the two come to the same (`JsonRpcResponse.ReachableIffMade`).

## Model

| member | source | states |
|---|---|---|
| WsChannels.ChannelsCarryOneMessage | internal/pkg/core/ws/ws.go:328-381 | In every interleaving: a reply channel is sent at most one message; that message is an error made for this call or a frame with its id read from a session with its name; no thread about to send finds the channel full, whether or not the caller gave up |
| WsChannels.OutcomesAreFinal | internal/app/core/rpc/interceptor.go:349-371 | A call that was answered or timed out stays so in every continuation, and what was sent to its channel stays a prefix of what is sent later: a late answer is delivered to nobody else |
| WsChannels.InvStep | internal/pkg/core/ws/ws.go:287-381 | Each step keeps: a pending entry or a channel in a listener's hand belongs to one waiting call of that session with that id and nothing sent yet, and to no one else |
| WsChannels.InvAlong | internal/pkg/core/ws/ws.go:287-381 | The same over runs of any length under any restriction |
| WsChannels.StepIsLater | internal/app/core/rpc/interceptor.go:356-370 | No step renames a call, takes a message back or changes an outcome |
| WsDelivery.AnswersAreDelivered | internal/pkg/core/ws/ws.go:328-377 | In every run with distinct ids: a registered call that was sent nothing is still pending or in the listener's hand, so an answer taken out of pending and not in hand has been sent to the call that registered its id, and that call can receive it |
| WsDelivery.NoneLostStep | internal/pkg/core/ws/ws.go:328-377 | Each step keeps every call accounted for: pending, in hand, sent its answer, or sent its error |
| WsPending.PanicsIff | internal/pkg/core/ws/ws.go:328-346 | With distinct ids, closed sessions included: pending = registered minus taken, and the lookup of an answer panics if and only if its id is not registered yet or was taken before |
| WsPending.PatientPeerIsSafe | internal/pkg/core/ws/ws.go:274-285 | If ids on a connection are distinct and the peer answers each id once and only after its registration, no run panics, and pending = registered minus answered on every session, also after a close |
| WsPending.HealthyStep | internal/pkg/core/ws/ws.go:328-377 | Every step of such a run keeps the books of every session balanced |
| WsPending.PromptAnswerPanics | internal/pkg/core/ws/ws.go:362-378 | A run of nine steps, ids distinct, in which the peer answers the only request right after it was written, and the process panics |
| WsRegistry.NamesAgreeAlong | internal/pkg/core/ws/ws.go:235-285 | In every run, orderly or not, conns binds a name to a session of that name |
| WsRegistry.RegisteredIsTheLiveOne | internal/pkg/core/ws/ws.go:235-285 | If connect attempts for a name do not overlap and no session deletes the name after its successor's insert, the registered session is the latest of its name, no other one of the name is open, and every open session is registered |
| WsRegistry.StepKeepsGoodIff | internal/pkg/core/ws/ws.go:267-283 | For all states where this holds, a step breaks it if and only if it inserts while a session of the name is open, or deletes a name that has an open session |
| WsRegistry.InvInsert | internal/pkg/core/ws/ws.go:267-269 | An insert in an orderly run finds no open session of its name and no entry for it, and keeps the invariant |
| WsRegistry.InvUnlist | internal/pkg/core/ws/ws.go:282-284 | A delete by name in an orderly run removes the entry of the session that asked for it and leaves every other entry alone |
| WsRegistry.OverlapLeavesTwoOpen | internal/pkg/core/ws/ws.go:237-269 | A run with two attempts that both pass the check: two open sessions of one name, the first in no entry |
| WsRegistry.LateDeleteHidesSuccessor | internal/pkg/core/ws/ws.go:274-285 | A run in which the listener of a replaced session deletes the entry of the open successor |
| WsService.Service.Handle | internal/pkg/core/ws/ws.go:235-271 | The effect is the run connect, check, upgrade, insert; over the fields: a free name and a successful upgrade add one open session with nothing pending and bind the name to it, anything else leaves registry and sessions alone |
| WsService.Service.CloseConnOnErr | internal/pkg/core/ws/ws.go:274-285 | The transport is closed and the name deleted whoever holds it; pending entries survive |
| WsService.Service.Call | internal/pkg/core/ws/ws.go:350-381 | The effect of Call is the run lookup, write, register, or the run that closes, deletes and then sends the error; over the fields: an unknown name puts the not-found error into the new channel, a written frame leaves the channel empty and registers it under its id, a failed write puts the not-available error there, closes the session and frees its name, pending kept |
| WsService.Service.Message | internal/pkg/core/ws/ws.go:306-346 | One turn of the listener is a run of the transition system and keeps the channel invariant; over the fields: a pending id is taken out and its frame put into the channel registered for it and no other, an unknown id ends the process, a request goes to requestsCh, anything else changes nothing but what was read |
| WsService.Service.Listen | internal/pkg/core/ws/ws.go:287-348 | The whole loop is a run; unless it panics it has read every frame in order, forwarded exactly the peer's requests in order, and left the session closed and its name free |
| WsService.HandleRun | internal/pkg/core/ws/ws.go:235-271 | The steps of the handler are enabled in their order and lead to its outcome |
| WsService.CallRun | internal/pkg/core/ws/ws.go:350-381 | The steps of Call are enabled in their order and lead to its outcome, for each of its three ways |
| WsService.AnswerRun | internal/pkg/core/ws/ws.go:334-346 | Take and deliver lead from an answer in hand to the channel it is registered for, or to the panic |
| WsService.MessageRun | internal/pkg/core/ws/ws.go:306-346 | The steps for each kind of frame lead to the outcome of that turn |
| TemplateText.SiteIff | internal/app/core/rpc/interceptor.go:260-270 | By indices: a placeholder runs from the first "{{" through the first "}}" behind it; none is found if and only if there is no "{{"; it counts as unclosed if and only if no "}}" follows the first one |
| TemplateOutcome.FailsIff | internal/app/core/rpc/interceptor.go:260-270 | For values that leave no "{{" open and do not end in a brace: where filling ends, it is an error if and only if some "{{" of the text has no "}}" behind it |
| TemplateOutcome.CallFailsIff | internal/app/core/rpc/interceptor.go:259-297 | The same of the code, for runs in which no longer value is written over text it changes: a closed text never fails, an open one never succeeds |
| TemplateOutcome.FillIsRendered | internal/app/core/rpc/interceptor.go:259-297 | With values free of "{{" a successful filling is the text with each placeholder replaced by its value, in place, and all else kept |
| TemplateOutcome.CallIsRendered | internal/app/core/rpc/interceptor.go:259-297 | The same of the code on such runs |
| TemplateProperties.FillsInPlace | internal/app/core/rpc/interceptor.go:259-288 | If no value is longer than its placeholder, then for every buffer, capacity and number of placeholders: the result is the pure leftmost-first filling, in the same memory, followed by the leftovers, and no byte past the slice is touched |
| TemplateProperties.CleanRunRefinesFill | internal/app/core/rpc/interceptor.go:259-297 | Long values included: if each of them is written where append moves the slice or over text it agrees with, the code computes the pure function, and says "changed" exactly when there was a placeholder |
| TemplateProperties.NeverLongerIsClean | internal/app/core/rpc/interceptor.go:281-288 | Where values fit, no round has to be watched |
| TemplateProperties.CallerMemory | internal/app/core/rpc/interceptor.go:281-288 | After any run with fitting values, even a failed one, the caller's memory past the slice is untouched; after a successful one the slice is output ++ leftovers |
| TemplateJobs.ScheduledReuse | internal/app/core/rpc/interceptor.go:220-225 | The next tick reads the output t and the leftovers and gives t followed by the filling of the leftovers; it gives t again if and only if these fill to nothing, a brace at the very end of t counted among them |
| TemplateJobs.TicksAlikeIff | internal/app/core/rpc/interceptor.go:220-225 | For every number of ticks: all of them give t if and only if what each one leaves over fills to nothing again |
| TemplateJobs.SameLengthIsSteady | internal/app/core/rpc/interceptor.go:281-288 | If every value is as long as its placeholder, every tick gives the same |
| TemplateJobs.MovedIsSteady | internal/app/core/rpc/interceptor.go:290-296 | If the first value makes the slice move, the caller's memory stays as it was, whatever happens in the new array, and every tick gives the same |
| TemplateText.FillAfter | internal/app/core/rpc/interceptor.go:259-288 | Text in front of the first placeholder takes no part in filling, for every configuration |
| TemplateJobs.LeftoverAfter | internal/app/core/rpc/interceptor.go:281-288 | Nor in what is left over |
| TemplateText.PlaceholderNamesKey | internal/app/core/rpc/interceptor.go:272-277 | A key between any spaces and braces, with or without "object.config." before it, stands for the configured value of that key |
| TemplateText.PlaceholderAlone | internal/app/core/rpc/interceptor.go:260-272 | The text cut out of the buffer is one whole placeholder, which is what "longer than its placeholder" is measured against |
| TemplateProperties.ShrinkIsSplice | internal/app/core/rpc/interceptor.go:281-285 | The two copies amount to a splice and leave memory past the new end alone |
| TemplateProperties.GrowthExact | internal/app/core/rpc/interceptor.go:290-296 | Length and contents after the two appends, for every capacity and growth policy: prefix, value, and a tail read from memory the first append may have overwritten |
| TemplateProperties.GrowthIsSpliceIff | internal/app/core/rpc/interceptor.go:290-296 | That is the intended splice if and only if the first append moves the slice or the overhang of the value repeats the text under it |
| TemplateProperties.RoundUsesTwoBraces | internal/app/core/rpc/interceptor.go:281-296 | With brace-free values every round, corrupting ones included, leaves at least two opening braces fewer |
| TemplateProperties.DepthIsBounded | internal/app/core/rpc/interceptor.go:259-297 | Hence with brace-free values the recursion is no deeper than half the number of opening braces |
| TemplateProperties.EnoughDepth | internal/app/core/rpc/interceptor.go:259-297 | Where some depth is enough every larger one gives the same run, so the bound of the model decides nothing else |
| TemplateProperties.ResultIsFilled | internal/app/core/rpc/interceptor.go:259-263 | Every successful result is free of "{{", whatever the configuration |
| TemplateTraps.EndlessIff | internal/app/core/rpc/interceptor.go:259-297 | For every text, and values that leave no "{{" open and no loose brace at their end: filling exceeds every depth if and only if a placeholder of the text is in a set each of which has one of the set anywhere among the placeholders of its value |
| TemplateTraps.CallIsEndlessIff | internal/app/core/rpc/interceptor.go:259-297 | The same of the code over slice memory, for runs in which no longer value is written over text it changes |
| TemplateTraps.FittingIsEndlessIff | internal/app/core/rpc/interceptor.go:281-288 | In particular for every buffer and capacity where no value is longer than its placeholder |
| TemplateTraps.OwnMentionIsEndless | internal/app/core/rpc/interceptor.go:259-297 | A placeholder anywhere in its own value and anywhere in the text is filled in forever |
| TemplateTraps.EndsOnBoth | internal/app/core/rpc/interceptor.go:259-297 | Filling ends on two texts put together where it ends on each, at the sum of the depths |
| TemplateTraps.SomePieceIsEndless | internal/app/core/rpc/interceptor.go:259-297 | A text on which it never ends has a placeholder on which alone it never ends |
| TemplateTraps.TrapNeverEnds | internal/app/core/rpc/interceptor.go:259-297 | For every configuration, buffer, capacity and growth policy: if each placeholder of a set has a value whose leftmost placeholder is in the set again, a run whose leftmost placeholder is in the set exhausts every depth |
| TemplateTraps.SelfReferenceNeverEnds | internal/app/core/rpc/interceptor.go:259-297 | In particular where the leftmost placeholder of its value is that placeholder itself |
| TemplateExamples.AliasedTailIsLost | internal/app/core/rpc/interceptor.go:290-292 | A whole call on a JSON payload in a buffer without spare capacity: the closing quote and brace are lost, where the pure function keeps them |
| TemplateExamples.LongTickDiffers | internal/app/core/rpc/interceptor.go:220-225 | A job with that long value: its second tick gives the payload without the two bytes the first one put behind the value |
| TemplateExamples.SecondTickDiffers | internal/app/core/rpc/interceptor.go:220-225 | A job with a JSON payload and an empty value: the second tick gives the JSON object of the first with five bytes of leftovers behind it |
| Template.FillTemplate | internal/app/core/rpc/interceptor.go:259-297 | The code over a real array does to the caller's memory, and returns, what the memory-level description says, which is what the lemmas above are about |
| Template.ShrinkInPlace | internal/app/core/rpc/interceptor.go:281-285 | The same for the branch with two copies; the array stays the same |
| Template.GrowInPlace | internal/app/core/rpc/interceptor.go:290-292 | The same for the branch with two appends: new slice, old array afterwards, and whether the slice moved |
| Template.FindSite | internal/app/core/rpc/interceptor.go:260-270 | A placeholder has room for its four braces, so every slice expression is in range |
| Template.IndexPair | internal/app/core/rpc/interceptor.go:260-265 | The first place from an index on where a byte is doubled, or none |
| ModelTreeCode.Model.Walk | internal/pkg/core/cloud/types.go:172-229 | For every tree, well-shaped or not: panic, final depth, contents of the caller's array and all four tables are those of the stack function over the shared array; on well-shaped trees it performs the effects of the tree with the top of the caller's stack as outer connector, and the caller's path is unchanged |
| ModelTreeCode.Model.Child | internal/pkg/core/cloud/types.go:174-227 | The same for one child, with the new stack and whether it moved |
| ModelTreeCode.Append | internal/pkg/core/cloud/types.go:182-182 | append on the path: in place as long as there is room, else in a new array with the old one as it was |
| ModelTree.WalkIsSafe | internal/pkg/core/cloud/types.go:172-229 | For every tree: walk panics if and only if some read node is met with an empty stack, and its stack ends at the computed depth: +1 per active subsystem, -1 floored at 0 per child gone into |
| ModelTreeShape.ShapeIsRightIff | internal/pkg/core/cloud/types.go:172-229 | For every tree whose subsystem ids are not empty and differ: walk ends without a panic and with every connector the nearest subsystem, under every growth policy, if and only if the tree has a shape that speaks of depths only: no live subsystem reads, and each read node is met with the stack as long as after its subsystem's push and that slot not written to since |
| ModelTreeShape.ShapeIsRight | internal/pkg/core/cloud/types.go:172-229 | The shape is enough for every tree, ids alike or empty included |
| ModelTreeShape.AttendedHasShape | internal/pkg/core/cloud/types.go:181-227 | Where ids differ and the array has room for all of them, a stack that is right at every read node forces the shape |
| ModelTreeShape.TurnKeeps | internal/pkg/core/cloud/types.go:181-227 | Under every growth policy a child leaves each slot alone that the depths do not have it write to, in the caller's array and in the one the stack moved to |
| ModelTreeShape.TurnOverwrites | internal/pkg/core/cloud/types.go:181-227 | With room, each slot they do have it write to ends with an id pushed below that child |
| ModelTreeShape.WellShapedHasShape | internal/pkg/core/cloud/types.go:181-227 | Well-shaped trees have the shape and write to no slot below the stack they come with |
| ModelTree.WalkIsRightIff | internal/pkg/core/cloud/types.go:199-221 | For every tree: walk has the effects of the tree, every connector being the nearest enclosing subsystem, if and only if every read node finds that subsystem's id on top of the stack; a step towards the condition on the tree |
| ModelTree.WellShapedIsAttended | internal/pkg/core/cloud/types.go:181-227 | On well-shaped trees every read node does, and the caller's entries survive in the shared array |
| ModelTree.WellShapedIsSafe | internal/pkg/core/cloud/types.go:181-227 | On trees where only subsystems are gone into, none of them reads, and every read node has a subsystem above it, no empty stack is indexed and the depth comes out as it went in |
| ModelTreeTables.TablesHoldTheLast | internal/pkg/core/cloud/types.go:187-219 | A table holds an entry if and only if it is the last effect on its key |
| ModelTreeTables.TablesAreTheLastNodes | internal/pkg/core/cloud/types.go:172-229 | The tables of a tree hold exactly what the last live node in document order wrote to each key |
| ModelTreeTables.ActionsAreTheReadNodes | internal/pkg/core/cloud/types.go:199-221 | The table of actions: a name has one if and only if an active node with a read command that is no action, reached through active nodes without one, has that name; it is that of the last such node, with its id, read type and interval, and the last subsystem on the way as connector |
| ModelTreeTables.ExpressionsAreOfLiveNodes | internal/pkg/core/cloud/types.go:192-198 | The table of expressions: under each key the one of the last such node other than an action that has it |
| ModelTreeTables.CommandsAreTheActions | internal/pkg/core/cloud/types.go:185-190 | The table of commands: under each id the last active action node that has it, without its children |
| ModelTreeTables.EffectsAreOwn | internal/pkg/core/cloud/types.go:172-229 | The effects of a tree are what the nodes reachable through active nodes contribute themselves |
| ModelTreeTables.FindRoute | internal/pkg/core/cloud/types.go:172-229 | Every effect has such a way to a node it comes from |
| ModelTreeTables.RouteIsFound | internal/pkg/core/cloud/types.go:172-229 | What the node at the end of such a way contributes is an effect of the tree |
| ModelTreeProperties.InactiveDoesNothing | internal/pkg/core/cloud/types.go:175-177 | A tree and the tree without its inactive subtrees are walked alike on every stack and under every growth policy, and have the same effects, panics, stack movements and shape |
| ModelTreeProperties.GroupingNodePanics | internal/pkg/core/cloud/types.go:222-227 | A grouping node before a sensor makes walk panic; after it, not |
| ModelTreeProperties.GroupingNodeMisleads | internal/pkg/core/cloud/types.go:222-227 | With a subsystem further out the sensor gets that one as its connector instead |
| ModelTreeProperties.SharedStackOverwritten | internal/pkg/core/cloud/types.go:181-227 | For every growth policy: two groups and a subsystem inside A put that subsystem's id over the outer one in the shared array, and a sensor outside A gets it as its connector |
| ModelTreeProperties.ReadingSubsystemLeaks | internal/pkg/core/cloud/types.go:181-221 | A live subsystem with a read command gets its own id as connector, on every stack and under every growth policy, and stays on the stack |
| ModelTreeProperties.LowerSlotDoesNotMatter | internal/pkg/core/cloud/types.go:181-227 | A tree in which the outermost entry is overwritten and the sensor, standing below another subsystem, still gets the right connector: it is the slot of the nearest subsystem that counts |
| ModelTreeCode.Model.Prepare | internal/pkg/core/cloud/types.go:89-99 | For every tree walk does not panic on: success if and only if every action can be prepared, and then each is its preparation. On every tree of the shape above, well-shaped ones included, every action then belongs to the last active read node of its name and has its id, type and interval and the nearest enclosing subsystem as connector, and every such name has one |
| ModelTreeCode.Model.AfterWalk | internal/pkg/core/cloud/types.go:144-170 | For every iteration order: success if and only if each action can be prepared from the tables as they were before the loop; then each action is its preparation, and every command in use has its action's id bound; a failure is the failure of some action |
| ModelTreeTables.PayloadIsTheActionsOwn | internal/pkg/core/cloud/types.go:107-163 | A prepared action keeps its other fields; in its payload `_cancel` and non-placeholders are those of the command, "{{node.parent.id}}" is the action's id and any other "{{k}}" the parameter k of its own command |
| ModelTreeTables.PreparedIff | internal/pkg/core/cloud/types.go:107-163 | Exactly which actions can be prepared: the command is known, its payload is a text that decodes to a request, the action has parameters, every parameter but `_cancel` is a string, and each "{{k}}" among them has k = node.parent.id or a k among the action's own; and exactly what they become |
| ModelTreeTables.PanicIff | internal/pkg/core/cloud/types.go:145-157 | The write to a nil map: exactly where command and payload are there and the action has no parameters |
| ModelTreeTables.PlaceholderIff | internal/pkg/core/cloud/types.go:125-127 | A value counts as a placeholder if and only if it is some k between double braces, and then k is what is cut out |
| ModelTreeTables.CommandIsTheLastChild | internal/pkg/core/cloud/types.go:209-216 | The last child with the named id defines the command of a read node; without one nothing is defined |
| ModelTreeTables.ActionCommandsComeFromChildren | internal/pkg/core/cloud/types.go:209-216 | Each entry of that table is the command and parameters of such a child, of the last live read node that has one for the id |
| ModelTreeCode.Model.PrepareAction | internal/pkg/core/cloud/types.go:145-163 | One turn: the result depends on that action and its own command only, and the action's id is bound in its parameters |
| ModelTreeCode.Model.FillPayload | internal/pkg/core/cloud/types.go:107-142 | Success if and only if the text decodes to a request, every parameter but `_cancel` is a string and each "{{k}}" has a k in the data; then `_cancel` and non-placeholders are as they were and each "{{k}}" is the datum k |
| ModelTreeCode.Model.ReplaceParams | internal/pkg/core/cloud/types.go:115-135 | Its loop, for every iteration order |
| ModelTreeCode.Model.FindCommand | internal/pkg/core/cloud/types.go:209-216 | The last child with the named id defines the command, active or not; without one the table stays as it was |
| ModelTreeCode.BoundTwice | internal/pkg/core/cloud/types.go:157-157 | Binding the id for earlier actions, even actions with the same id, changes no later result: why the order does not matter |
| ModelTree.IsPlaceholder | internal/pkg/core/cloud/types.go:125-127 | For every such value the slice between the braces is in range |
| ModbusCoilsProperties.ReadingIsRightIff | internal/app/modbus/handler/handler.go:84-96 | For all zero-padded responses: the coils returned are those on the wire (section 6.1 of the MODBUS Application Protocol Specification V1.1b3) if and only if every byte with bit 7 clear is followed by zero bytes only |
| ModbusCoilsProperties.OnesAreNeverLate | internal/app/modbus/handler/handler.go:84-96 | For all zero-padded responses: as many ones as on the wire, in order, none later than its true index |
| ModbusCoilsProperties.EmittedIsWireIff | internal/app/modbus/handler/handler.go:88-93 | Dropping the high zeros is harmless under that very condition, padding or not |
| ModbusCoilsProperties.EmittedFits | internal/app/modbus/handler/handler.go:95-95 | No more bits are produced than coils were asked for, so none is cut off |
| ModbusCoilsProperties.DigitsAreBits | internal/app/modbus/handler/handler.go:89-92 | What the inner loop produces for a byte is its bits from the lowest up to the highest one set |
| ModbusCoilsProperties.RoundTripIff | internal/app/modbus/handler/handler.go:295-317 | Coils written and read back come out unchanged if and only if an eighth coil that is off is followed by coils that are off |
| ModbusCoilsProperties.NinthCoilReadAsFirst | internal/app/modbus/handler/handler.go:84-96 | Nine coils with the ninth on are read with the first on |
| ModbusCoils.ParseBits | internal/app/modbus/handler/handler.go:84-96 | For every response, quantity and growth policy: the final slice is in range, and the result is the bits produced, extended by zeros or cut to quantity |
| ModbusCoils.ParseByte | internal/app/modbus/handler/handler.go:89-92 | The inner loop appends those bits and moves nothing else; capacity never shrinks |
| ModbusCoils.CoilPacker.Process | internal/app/modbus/handler/handler.go:295-317 | Each item keeps 8*i+pos equal to the items consumed, bit k%8 of byte k/8 equal to item k, and the bits not reached yet zero; an item is refused if and only if it is neither 0 nor 1 |
| ModbusCoils.PackCoils | internal/app/modbus/handler/handler.go:319-339 | Accepted if and only if the count matches and all items are coils; then bit k of byte j is value 8j+k and the padding is zero (section 6.11) |
| ModbusRegisters.PackRegisters | internal/app/modbus/handler/handler.go:434-454 | Which arrays are accepted, refused and which panic, for every quantity; accepted ones read back as the values given. From 32768 on the buffer has wrapped: nothing is accepted, and item quantity-32768 is written out of range |
| ModbusRegisters.RegisterPacker.Process | internal/app/modbus/handler/handler.go:419-432 | Each item keeps word k equal to item k; it is refused outside uint16, and out of range exactly when the buffer is full |
| ModbusRegisters.ParseResult | internal/app/modbus/handler/handler.go:98-106 | Register k is 256 times byte 2k plus byte 2k+1 (section 6.12), an odd last byte ignored |
| JsonRpcFrames.OneFrameAtATime | pkg/jsonrpc/jsonrpc.go:115-234 | In every interleaving of Serve and any number of Sends at most one frame is open |
| JsonRpcFrames.RepliesFollowRequests | pkg/jsonrpc/jsonrpc.go:115-152 | The reply frames are the responses to the requests read, in order, at most the last missing |
| JsonRpcFrames.NoticesFollowSends | pkg/jsonrpc/jsonrpc.go:194-234 | The frames of a notification service are what its Sends brought, once each, in the order of its lock, across any number of failed attempts; only the holder's may be missing |
| JsonRpcFrames.MxStep | pkg/jsonrpc/jsonrpc.go:132-147 | Each step keeps: the lock has the owner its threads think it has, and the open frame is that owner's |
| JsonRpcFrames.SendStep | pkg/jsonrpc/jsonrpc.go:194-234 | Each step keeps: sendL is held by exactly the Send that is between its lock and its deferred unlock |
| JsonRpcFrames.NoticeStep | pkg/jsonrpc/jsonrpc.go:211-233 | Each step keeps: frames on the wire, and then the value the holder owes, are the values acquired |
| JsonRpcFrames.ServeStep | pkg/jsonrpc/jsonrpc.go:115-152 | Each step, of Serve or of a Send, keeps: replies on the wire, and then the one owed, are the responses to the requests |
| JsonRpcResponse.HandleMessage | pkg/jsonrpc/jsonrpc.go:260-286 | For every request, decoding and Caller: version "2.0", the id or null, exactly one of result and error; for each way through, which code, message and data the error has, which result is sent, and when it crashes; and a code and message reachable from the package's errors (sections 5 and 5.1 of the JSON-RPC 2.0 Specification) |
| JsonRpcResponse.DoCall | pkg/jsonrpc/jsonrpc.go:236-253 | A caught panic becomes a server error with code -32099 and no result |
| JsonRpcResponse.BuildResult | pkg/jsonrpc/jsonrpc.go:288-312 | An error drops the result; a foreign error becomes a server error -32098 that carries its text; a missing id becomes null |
| JsonRpcResponse.AddData | pkg/jsonrpc/error.go:55-61 | The result has a map of its own with the entry added; nothing that existed changes |
| JsonRpcResponse.Chain | pkg/jsonrpc/error.go:47-66 | Any chain of edits of a shared error leaves that error and its map as they were, and code and entries come out as the edits say |
| JsonRpcResponse.ReachableIffMade | pkg/jsonrpc/error.go:31-53 | Chains from the six package-level errors give exactly their own codes and messages, and for the server error every code from -32099 to -32000 |
| StateStore.AgreeWhenQuiet | pkg/store/state/state.go:88-107 | With interleaved updates: for every key whose updates did not overlap, memory, database and last published value agree whenever none is under way |
| StateStore.RestartKeepsState | pkg/store/state/state.go:42-74 | After such a run a restart without clean start finds exactly the map that was in memory |
| StateStore.TopicIsKey | internal/app/core/rpc/interceptor.go:133-138 | Trimming the prefix "edge." never touches a key free of selectors, so values are published under their own key |
| StateStore.TopicDropsEdge | internal/app/core/rpc/interceptor.go:133-136 | The topic of a key is what follows "edge.", or the key itself without that prefix |
| StateStore.InvStep | internal/app/core/rpc/interceptor.go:192-216 | Each step of any update keeps: at most one update of the key is under way, and the copies it has passed hold its value |
| StateStore.UpdateRun | internal/app/core/rpc/interceptor.go:408-432 | An uninterrupted update is a run of the interleaved system, for both callers and both ends of Set |
| StateStore.QuietAgreesIff | pkg/store/state/state.go:88-107 | With any overlaps and no failing Set: a key with none of its updates under way has one value in memory, database and publication if and only if the updates that were last to store, save and publish it carry one value |
| StateStore.LastOfAllIff | pkg/store/state/state.go:88-107 | When no two updates of the key carry the same value, that is: one update was last in all three places |
| StateStore.ListenerIsApart | internal/app/core/rpc/interceptor.go:151-218 | Updates of a key that all come from the one listener goroutine never overlap |
| StateStore.OverlapDisagrees | pkg/store/state/state.go:88-107 | A run the goroutines of the code allow, with no failing Set: a notification and a response overlap, and memory ends with one value and the database with the other |
| StateStore.Core.Update | internal/app/core/rpc/interceptor.go:192-216 | The listener publishes only what was stored, prepareResponse publishes even when Set failed; memory changes in any case |
| StateStore.Service.Set | pkg/store/state/state.go:88-107 | Memory takes the value even when the database fails; no other key changes |
| StateStore.Service.GetAll | pkg/store/state/state.go:109-132 | For every iteration order the map returned is the bucket |
| StateStore.Service.constructor | pkg/store/state/state.go:42-74 | Memory equals the bucket: empty on a clean start or where there was none, else what was there |
| OpcuaBrowseProperties.BrowseListsWalks | internal/app/opcua/handler/browse.go:59-205 | A successful browse of any graph, cyclic ones included, lists in strict pre-order, no walk twice, one entry per walk of at most ten references that ends in a node of class 2: its id, its attributes or zero values where they do not exist, writable as bit 1 of the access level says, its path the names along the walk |
| OpcuaBrowseProperties.BrowseFailsIff | internal/app/opcua/handler/browse.go:166-205 | It fails if and only if some walk of at most ten references ends in a node whose attributes cannot be read, whose class or name is not good, one of whose description, access level and data type is bad, or whose references of some type cannot be listed |
| OpcuaBrowseProperties.BrowseIsBounded | internal/app/opcua/handler/browse.go:59-62 | With at most d references a node, at most 1 + d + ... + d^10 entries |
| OpcuaBrowseProperties.EntriesOfNode | internal/app/opcua/handler/browse.go:59-83 | The listing is the entries of the walks, at every level and with every path so far |
| OpcuaBrowseProperties.WalksAreAll | internal/app/opcua/handler/browse.go:173-190 | The list of walks misses none and has no other |
| OpcuaBrowseProperties.WalksAreOrdered | internal/app/opcua/handler/browse.go:192-202 | It is in pre-order, by the number of each reference among HasComponent, Organizes, HasProperty |
| OpcuaBrowseProperties.BeforeIsStrict | internal/app/opcua/handler/browse.go:183-189 | Pre-order is irreflexive |
| OpcuaBrowseProperties.ListingFails | internal/app/opcua/handler/browse.go:166-205 | An error anywhere within reach, and nothing else, makes the whole browse an error |
| OpcuaBrowseProperties.HealthyIffWalks | internal/app/opcua/handler/browse.go:166-205 | Within reach means at the end of some walk short enough |
| OpcuaBrowseProperties.WalksAreFew | internal/app/opcua/handler/browse.go:59-62 | The bound on the number of walks, for every number of levels |
| OpcuaBrowseProperties.PathIsDotted | internal/app/opcua/handler/browse.go:51-57 | The path of an entry is the names on its walk with dots between them |
| OpcuaBrowse.FillStatus | internal/app/opcua/handler/browse.go:85-120 | Success if and only if class and name are good and none of description, access level and data type is bad; then each field is the attribute or, where it does not exist, the zero value, and writable is bit 1 of the access level |
| OpcuaBrowse.FillDataType | internal/app/opcua/handler/browse.go:122-164 | A missing data type leaves the field alone, only a bad one is an error |
| OpcuaBrowse.Browse | internal/app/opcua/handler/browse.go:59-83 | Terminates on every graph from every level, with the listing for the levels that are left |
| OpcuaBrowse.BuildNodeList | internal/app/opcua/handler/browse.go:166-205 | Own entry, then the children by type of reference in the order of the code; the first error wins |
| OpcuaBrowse.BrowseChildren | internal/app/opcua/handler/browse.go:173-190 | The loop over the references of a type yields their listings one after the other |
| BleConnections.OpenClients | internal/app/ble/handler/handler.go:148-353 | After any sequence of calls: open clients = entries of conns plus one for each subscribe that dialled and then failed or panicked |
| BleConnections.InvStep | internal/app/ble/handler/handler.go:148-353 | Each call keeps: clients in conns are open and distinct, the other open ones are the lost ones, and a lost one is new |
| BleConnections.InvAlong | internal/app/ble/handler/handler.go:284-330 | Over any sequence the number of lost clients grows by the number of such subscribes |
| BleConnections.LostClientsStayOpen | internal/app/ble/handler/handler.go:284-330 | A lost client is never hung up and never in conns again |
| BleConnections.OthersLeaveNoTrace | internal/app/ble/handler/handler.go:148-282 | discover, read and write leave conns and the open clients as they were on every exit, panics included |
| BleConnections.EntriesStay | internal/app/ble/handler/handler.go:284-353 | No entry is overwritten, and one goes away exactly when its own subscribeCancel succeeds |
| BleConnections.Service.DiscoverProfile | internal/app/ble/handler/handler.go:148-174 | discover hangs up exactly the client it dialled itself; when it succeeds, and that it never panics |
| BleConnections.Service.Exchange | internal/app/ble/handler/handler.go:200-282 | read and write do so too, on each of their exits; exactly when they succeed and when they panic |
| BleConnections.Service.StartSubscription | internal/app/ble/handler/handler.go:284-330 | subscribe enters its client in conns on success only, and hangs up nothing; exactly when it succeeds and when it panics |
| BleConnections.Service.CancelSubscription | internal/app/ble/handler/handler.go:332-353 | subscribeCancel hangs up and removes the entry when both device steps succeed, and changes nothing otherwise |

## Left out

- ModelTreeShape.ShapeIsRightIff: where two subsystems have the same id, or one has none, the shape is sufficient and not necessary: the wrong subsystem may then have the right id.
- ModelTreeCode.Model.AfterWalk: the payload is the decoded request, not its JSON text; when several actions fail, which failure is reported depends on the iteration order, and the contract says only that it is that of one of them.
- Template.FillTemplate: takes a bound on the depth of the recursion, because filling may never end; `DepthIsBounded` and `EnoughDepth` say when the bound does not matter.
- TemplateTraps.CallIsEndlessIff: for values that leave no "{{" open and no '{' at their end, in runs that overwrite nothing; outside that, `DepthIsBounded` says when runs end and `TrapNeverEnds` when they do not, and between the two nothing is stated.
- TemplateJobs.ScheduledReuse: for configurations without values longer than their placeholders; of longer values `MovedIsSteady` covers those that move the slice at once, and of those that fit into the buffer there is the counterexample only. Decoding the text as JSON is not part of it.
- StateStore.QuietAgreesIff: for keys without '.' and '[' (which objx takes for selectors) and for runs in which Set does not fail; nested values are not modelled.
- StateStore.Core.Update: the decoding of base64 and the read expression before the update, and the reply built after it, are not part of it; the value is a parameter.
- WsService.Service.Listen: states the run when nothing interleaves; interleavings are the subject of the transition system, whose state holds values and not shared maps.
- OpcuaBrowse.FillStatus: the name of a data type is a string; the table from type ids to names is not modelled, nor are unit, scale, minimum and maximum.
- BleConnections.Service.CancelSubscription: a client whose CancelConnection fails is taken to be open still; a deferred CancelConnection is taken to hang up always.
- JsonRpcFrames.RepliesFollowRequests: for one run of Serve; the panic after a failed write of an opened frame is not modelled, nor is the reconnecting loop ServeWithReconnect.
- JsonRpcResponse.HandleMessage: a response is a record; JSON text, and a Caller result that is a typed nil, are not modelled.
- Websocket, HTTP, MQTT, bbolt, cron, BLE, OPC UA and MODBUS libraries: their success, failure and answers are parameters or choices of steps.
- Server shutdown in ws.go (`done`, and the closing of `requestsCh` by each listener): runs are those before it.
- The slow consumer of `requestsCh`: forwarding a request is a step that is always enabled, so a listener blocked on it is not distinguished from one not scheduled.
- prepareRequest beyond the filling of templates (new ids, write expressions) and prepareResponse beyond the update of state.
- Lua expressions and everything the actions compute.
- spawnJobs, the cron schedule and the interval of a job; a tick is a call of `fillTemplate` on the same slice.
- The BLE scan table and mapToList; parsing of UUIDs (one `valid` flag); base64 of a written value.
- Readers of numeric parameters, slave ids, and the single coil and register operations; readDiscreteInputs, which decodes with the 16-bit parseResult.
- SNMP, configuration, logging, version constraints, update download, generated assets and entry points.
