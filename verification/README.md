# onekit generators: a verified model

onekit is a schema compiler. Much of what it does is done by the programs it
generates: WebSocket runtimes, rule checkers, JSON writers and readers, binary
frame codecs. This project models those programs and the searches that decide what
to generate, and proves what they promise. It is one Dafny 4.11 project; `dafny verify
dfyconfig.toml` checks all of it.

**The correlated call protocol** (`PendingTable`, `PendingMap`, `CallProtocol`,
`CallSafety`, `CallRouting`, `CallLiveness`, `CallProgress`, `CallDelivery`,
`CallOutcomes`). The pending map is a
class, each method proved against a function on the table of waiters. The whole
runtime is a transition system whose steps are single lock regions and single channel
operations, with any number of callers, receivers and closers next to the read loop;
it steps by the same table functions. Proved over every run: channel safety although
sends and closes happen outside the lock, one place for every frame, the lookup alone
deciding which, a registered call returning exactly the frame that answers it, receivers
given the inbox in order, no lost wakeup, every call answered when ids in flight are
distinct (and exactly which steps lose an answer when they are not), bounded work between
external events, nobody stuck, and nobody waiting after the connection is lost.

**The rule language** (`Arith64`, `RuleLang`, `RuleTypes`, `RuleEval`, `RuleNative`,
`RuleAgree`, `RuleTyping`, `RuleNumbers`, `RuleScope`, `RuleSound`, `RuleOrder`). A
checked expression goes two ways: lowered to an op tree that an evaluator runs over one
mutable slot vector, and compiled to native code with loop variables named by depth. The
evaluator computes the lexically scoped meaning, in which a loop variable is the
innermost of its name and a loop the quantifier it is called after; a checked rule never
fails for a kind mismatch; the native code yields a value of the inferred type or the
rule's own panic on every message, and never crashes. The documentation promises
identical results on every target. That fails for one reason: ordering a NaN is answered
differently by native Go and Python (false), Rust (a failure), Dart and Swift (as if
greater) and the reference evaluator (as if equal). `SameVerdict` holds of every
message: native code and evaluator give one verdict unless the evaluator fails on
ordering a NaN and the native code says yes, and `SameVerdictWithoutNaN` says that this
cannot happen without a NaN or without an ordering of doubles. `RuleOrder` shows,
operator by operator, exactly when the targets agree, and a rule whose verdict differs
on exactly the NaN.

**AppendJSON and DecodeJSON** (`AppendGraph`, `AppendSet`, `Separators`, `JsonModel`,
`JsonAppend`, `JsonWriter`, `JsonText`, `JsonDecode`, `JsonReader`, `JsonSound`,
`JsonNorm`, `JsonRoundTrip`, `JsonStable`, `JsonCanonical`, `Reorder`, `JsonOrder`,
`JsonDocument`). The memoised fixpoint and the worklist that choose messages are least
closures, and the methods are emitted for exactly the messages they are called on. The
separator compiler writes one well-formed object whatever is set, and the text written
is the printed form of the JSON tree the laws are about. That tree has a member for
exactly the fields that differ from a fresh message's or are always written, and writing
fails exactly on an invalid enum value or raw field. The decoder is characterised on
every document, whoever wrote it: what it accepts, what it takes from it, and that the
result is something the Go types hold. Decoding what was appended gives the message back
up to a normalisation that is stated as a function of its own, and every further round
trip is exact. The first is exact precisely for the messages `Canonical` describes by
their structure. The others lose one of these:
- absent, in a nullable field that is always sent (a response-only message): it is read
  back as null, while null and set survive everywhere; a null flag beside a set pointer
  is dropped (`NullableReadBack`);
- nil, in a raw JSON item of a list or map: it comes back as the document `null`
  (`EmptyRawItemBecomesNull`);
- the document `null`, in an optional field or a oneof payload: it comes back as no
  document (`NullDocumentBecomesUnset`, `NullPayloadBecomesEmpty`);
- an unset message that is always sent: it comes back as the zero message;
- nil or empty, of bytes, lists and maps: only one of the two is read back, and the
  schema's option to write zeros decides which.

The decoder does not tell documents apart that differ in member order, at any depth
(`SameMsgDecodes`), and rejects a repeated key of a message or a oneof wherever it
stands (`RepeatFails`). Map objects are different: a repeated key overwrites
(`RepeatedEntryOverwrites`), so the order of their members is free exactly when members
with one key carry one value (`EntryOrderExactly`).

**Binary frames** (`RawFrame`, `RawPlan`, `RawSplit`, `RawTargets`, `RawHeap`,
`RawJoin`, `RawPyJoin`). The frame decoder accepts exactly the encodings. The search for
messages that carry raw fields is exact. Splitting and joining are inverse on every
message, the header keeps no raw byte however deep, and joining fits exactly as many
segments as were split off. The Go split is proved on the heap, with no effect on the
caller's message, and the Go join in place on a decoded tree; Python's chains of ifs split
into the same header and segments, and join back to the same message.

**Smaller cores**: `BoxedTypes` (Rust types of finite size), `EditDistance` (the
two-row distance is the length of a shortest edit script), `PingDetector` (the client's
two-flag detector drops a connection on the same evidence as the server's one flag).

Where a member takes a `Platform`, `Codec` or `Text`, that is what the language's library
supplies: float rounding, regular expressions, number, string and byte text encodings, the
order of sorted map keys and case folding. Round trips assume that each encoder is inverted
by its decoder (`Codec.Ok`). Only where a statement excludes NaN does it assume that
rounding a 64-bit integer gives a number (`PlatformOk`).

## Model

| member | source | states |
|---|---|---|
| PendingMap.PendingMap.Register | internal/gengo/ws.go:113-120 | after a close it fails with the first cause and changes nothing; otherwise exactly one waiter with a fresh channel is added |
| PendingMap.PendingMap.Resolve | internal/gengo/ws.go:125-133 | delivers iff a waiter has the id and did not send this variant; that waiter leaves the table, its channel holds the value, every other channel is unchanged |
| PendingMap.PendingMap.Cancel | internal/gengo/ws.go:135-139 | removes exactly that id |
| PendingMap.PendingMap.CloseAll | internal/gengo/ws.go:149-157 | the first close keeps its cause, empties the table and closes every waiting channel; a later one changes nothing |
| PendingMap.RustTwinAgrees | internal/genrust/ws.go:317-346 | register, resolve, cancel and close_all take the Go decisions on every table, forgetting only the close cause |
| CallSafety.StepInv | internal/gengo/ws.go:113-157 | the protocol invariant, including threads caught between the lock region and the channel operation, is kept by every step of every thread |
| CallSafety.ChannelSafety | internal/gengo/ws.go:113-157 | in every run no send or close hits a closed channel, each reply channel sees at most one event, the read loop's send never blocks, and channels still to be closed are open |
| CallSafety.ErrorStays | internal/gengo/ws.go:149-153 | once the table has an error it keeps it through any further steps |
| CallSafety.ClosingIsSticky | internal/gengo/ws.go:147-157 | the error is the cause of the first closeAll that ran, and the table stays empty after it |
| CallRouting.StepRouting | internal/gengo/ws.go:419-452 | every step keeps each arrived frame in its one place |
| CallRouting.EveryFrameInOnePlace | internal/gengo/ws.go:419-452 | in every run a decoded frame is either in the read loop's hand, or delivered to one waiter with its id whose sent variant is empty or different, or in the inbox sequence; the inbox is in arrival order and nothing is taken twice |
| CallDelivery.LookupDecides | internal/gengo/ws.go:446-451 | in every run a frame is on a call's channel, or on its way there, iff the read loop, looking it up, found that call registered under its id without having sent its variant; and in the inbox history, or on its way there, iff nobody was found |
| CallDelivery.WaiterGetsFrame | internal/gengo/ws.go:125-133 | once a frame that a call waits for is looked up, the read loop's only next step, whatever other threads do, leaves exactly this frame on the call's channel |
| CallDelivery.UnclaimedIsQueued | internal/gengo/ws.go:446-451 | a frame nobody waits for is appended to the inbox and to no channel, whatever other threads do |
| CallDelivery.CallGetsItsReply | internal/gengo/ws.go:179-187 | a registered waiting call returns exactly the frame with its id, not of the variant it sent, that the read loop looks up |
| CallDelivery.MissesNothing | internal/gengo/ws.go:446-451 | over any run at whose end a call is still registered, no frame that answers it was looked up and sent elsewhere |
| CallDelivery.ChannelIsACalls | internal/gengo/ws.go:113-120 | every reply channel of a run was made by one call of the run and carries its id and sent variant |
| CallDelivery.ReplyIsTheCalls | internal/gengo/ws.go:462-473 | what a call returns has its id, is not the variant it sent, and was looked up for the channel this call was given |
| CallDelivery.NothingLeaks | internal/gengo/ws.go:135-139 | in every run each entry of the table belongs to a call in flight on that channel, so a call that has ended in any way has left none |
| CallOutcomes.ArrivedAsSent | internal/gengo/ws.go:419-446 | the read loop takes up the frames the network brings as they are and in order |
| CallOutcomes.ToldARealCause | internal/gengo/ws.go:149-153 | the close cause kept and told is one a user passed to a close or that ended the read loop |
| CallOutcomes.PassesSignalOn | internal/gengo/ws.go:376-393 | a receiver passes the wakeup on iff something is left to receive |
| CallOutcomes.GivenIsTaken | internal/gengo/ws.go:376-384 | the frame a receiver is given is the first of the inbox, which loses exactly that one |
| CallOutcomes.ReceiversGetTheInbox | internal/gengo/ws.go:373-399 | over every run, the frames given to receivers in this order, followed by the inbox, are the frames appended, in arrival order |
| CallOutcomes.GivenIsReturned | internal/gengo/ws.go:382-383 | a receiver that notifies first returns the frame it was given |
| CallOutcomes.OutcomeIsEarned | internal/gengo/ws.go:176-193 | each outcome has its cause: the kept close cause, a send that failed, a context that ended, the frame on the call's channel or at the front of the inbox, an inbox empty and ended |
| CallOutcomes.NobodyWaitsAfterTheEnd | internal/gengo/ws.go:419-444 | once the read loop has left its read and own steps have run out, the table is closed, the inbox ended, and no call or receiver waits |
| CallLiveness.NoLostWakeup | internal/gengo/ws.go:359-399 | whenever the inbox is non-empty or finished and somebody is blocked, the token is present or some thread is about to notify or to look again |
| CallLiveness.AnswerLostExactly | internal/gengo/ws.go:113-157 | a call keeps its answer coming over a step iff the step is not a registration or a cancel that takes its table entry away |
| CallLiveness.EveryCallAnswered | internal/gengo/ws.go:462-473 | if new calls use ids not in flight, every call in flight is still registered, or has its value, or its close, or a thread carrying one of them |
| CallLiveness.LostCallStaysLost | internal/gengo/ws.go:118 | a call without an answer coming still has none, and still waits, after any step but its own giving up |
| CallLiveness.DuplicateIdLosesCall | internal/gengo/ws.go:118 | two calls under one id: a run after which the first has no answer coming |
| CallProgress.OwnStepsRunOut | internal/gengo/ws.go:373-399 | a run of the runtime's own steps is no longer than a rank computed from the state |
| CallProgress.ThreadServed | internal/gengo/ws.go:176-193 | in a state of a disciplined run where only outside steps are left, a waiting call is registered in an open table, a sleeping receiver has an empty open inbox, and no thread is between two steps |
| CallProgress.NobodyStuck | internal/gengo/ws.go:359-473 | in every disciplined run, where the runtime's own steps have run out, no caller, receiver or closer is left waiting for something already there |
| Arith64.WrappedProductCheck | internal/gengo/rules.go:420-429 | dividing the wrapped product gives a factor back iff the exact product fits in 64 bits |
| Arith64.AddSubAgree | internal/gendart/rules.go:467-477 | the sign tests of Go and Dart accept exactly the sums and differences that fit |
| Arith64.DivModAgree | internal/genpy/rules.go:340-353 | Go's truncating division and Python's construction from absolute values agree with the exact quotient and remainder, errors included |
| Arith64.TargetsAgree | internal/gengo/rules.go:397-443 | for every operator and all 64-bit operands Go, Dart and Python accept the same operands and return the same result, and negation is exact |
| RuleEval.LowerIsWellScoped | internal/onkexpr/lower.go:196-255 | lowering numbers loop variables by depth: every slot read is bound and a loop at depth d binds slot d |
| RuleEval.Evaluator.Eval | internal/genrust/rules.go:527-682 | the shared mutable slot vector computes the lexically scoped meaning, leaves the slots below its depth as they were, and never indexes out of range |
| RuleEval.Evaluator.EvalList | internal/genrust/rules.go:533-539 | list items are evaluated in order and the first failure wins |
| RuleEval.Evaluator.EvalQuant | internal/genrust/rules.go:601-621 | resizing and overwriting one slot per loop computes all and exists over fresh bindings |
| RuleEval.CheckRule | internal/genrust/rules.go:449-451 | a rule holds iff its tree evaluates to true |
| RuleAgree.ReadFieldAgrees | internal/gengo/rules.go:173-218 | a nil-safe widened getter reads what the op tree selects on the converted message, through nil receivers and unset pointers |
| RuleAgree.HasAgrees | internal/gengo/rules.go:261-281 | the native presence test of every kind of field equals `has` on the converted message |
| RuleAgree.UnAgrees | internal/gengo/rules.go:227-307 | every one-operand form gives a value of its type and the converted value, or both sides fail |
| RuleAgree.BinAgrees | internal/gengo/rules.go:309-324 | every two-operand form, on all operands of its types, gives a value of its type or the rule's panic, and agrees with the tree unless that fails on ordering a NaN |
| RuleAgree.EachAgrees | internal/gengo/rules.go:283-293 | a native loop over depth-numbered variables agrees with the slot loop, shadowed names included, unless the tree fails on ordering a NaN |
| RuleAgree.ExprAgrees | internal/gengo/rules.go:107-171 | below any loop variables and on every message, compiled code yields a value of the inferred type or the rule's panic, and agrees with the lowered tree unless that fails on ordering a NaN, which takes both a NaN and an ordering of doubles |
| RuleAgree.NeverCrashes | internal/gengo/rules.go:337-347 | the native code of a checked rule returns a verdict on every message, NaN included |
| RuleAgree.SameVerdict | internal/gengo/rules.go:337-347 | on every message a checked rule's native verdict equals its op tree's on the converted message, iff it is not the case that the tree fails on ordering a NaN and the native code says yes |
| RuleAgree.SameVerdictWithoutNaN | README.md:1384 | on messages without NaN, and for rules that order no doubles on all messages, the verdicts are equal |
| RuleTyping.InferExactly | internal/onkexpr/check.go:108-523 | the checker answers with a type iff the expression has that type by the typing rules, stated as a relation |
| RuleNumbers.OrderOfDoubles | internal/genrust/rules.go:506-512 | doubles are ordered as the reals between two infinities, and NaN stands in no order |
| RuleNumbers.TruncatesTowardZero | internal/gengo/rules.go:465-472 | conversion to int truncates toward zero by less than one |
| RuleNumbers.ArithmeticExactly | internal/gengo/rules.go:445-463 | arithmetic on doubles yields exactly the finite rounded exact result of finite operands, nothing divided by zero, and zero for a finite number over an infinite one |
| RuleNumbers.StringTestsExactly | internal/genrust/rules.go:568-582 | the string tests hold iff the second string is a prefix, a suffix, or a part of the first |
| RuleScope.LoopVariableIsItem | internal/onkexpr/lower.go:196-201 | in a loop's body its variable is the item, natively and in the tree, whatever is called so outside |
| RuleScope.OtherNamesAreKept | internal/gengo/rules.go:158-171 | a loop changes the meaning and type of no other name |
| RuleScope.SelfAndValue | internal/gengo/rules.go:164-170 | outside loops so called, `self` is the message and `value` the field of a field rule |
| RuleScope.QuantIsQuantifier | internal/gengo/rules.go:283-293 | a loop whose body gives a verdict for each item is the universal or existential quantifier over them, natively and in the tree |
| RuleSound.TreeSound | internal/genrust/rules.go:453-487 | evaluating a well-typed expression gives a value of its type or one of the documented failures |
| RuleSound.RuleYieldsBool | internal/genrust/rules.go:449-512 | a checked rule yields a bool or fails for a documented reason, on any message of its schema, and holds iff it yields true |
| RuleSound.StructConverts | internal/genrust/rules.go:289-330 | converting a generated struct gives a well-typed message value |
| RuleSound.EvaluateConverted | internal/genrust/rules.go:449-451 | running the slot evaluator on the converted message returns the verdict of the native code on the original, on every message, iff the tree does not fail on ordering a NaN where the native code says yes |
| RuleOrder.NativeAgreesWithRust | internal/genrust/rules.go:506-512 | each ordering agrees between native code and Rust iff neither operand is NaN |
| RuleOrder.NativeAgreesWithThreeWay | internal/gendart/rules.go:450-454 | native and Dart or Swift orderings agree iff no operand is NaN or the operator is `<` or `<=` |
| RuleOrder.NativeAgreesWithReference | internal/onkexpr/eval.go:259-290 | native and reference orderings agree iff no operand is NaN or the operator is `<` or `>` |
| RuleOrder.NotCheapVerdicts | README.md:1384 | `!(self.price < 1.0)` type checks, and its native and Rust verdicts are equal iff the price is not NaN |
| AppendGraph.Graph.AppendableIsLeast | internal/gengo/appendjson.go:188-239 | any set holding the eligible custom messages and closed under eligible local parents holds every appendable message |
| AppendSet.Printer.Visit | internal/gengo/appendjson.go:200-212 | the depth-first search collects local messages only and is closed under local children |
| AppendSet.Printer.Fixpoint | internal/gengo/appendjson.go:213-235 | the marked messages are appendable, hold every seed, and are closed under eligible parents; every pass of the loop ends |
| AppendSet.Printer.Appendable | internal/gengo/appendjson.go:188-239 | the answer is exact and the memo stays right about every message it holds, whichever root stored it |
| AppendGraph.Pull.PulledIsLeast | internal/gengo/appendjson.go:251-290 | any set closed the way the worklist closes it holds every pulled message |
| AppendSet.Printer.PullAppendChildren | internal/gengo/appendjson.go:251-290 | the worklist ends with exactly the least closure |
| AppendGraph.Pull.AppendJSONIsClosed | internal/gengo/appendjson.go:241-290 | nothing ineligible, external or from another file is pulled, and below a message of the file with AppendJSON every eligible local message of the file has it |
| AppendGraph.Pull.MarshalsItself | internal/gengo/types.go:496-503 | a message gets its own MarshalJSON iff it is a root unwrap, needs custom JSON, or is appendable |
| AppendGraph.Pull.CalledIffEmitted | internal/gengo/types.go:496-503 | AppendJSON and onkDecode are emitted for exactly the messages of the file that generated code calls them on |
| Separators.KeyRuns | internal/gengo/appendjson.go:422-437 | running a key's code appends an opening brace before the first member, a comma before any other, and the key, and leaves the variable as the generator's next state assumes |
| Separators.AppendGen.Field | internal/gengo/appendjson.go:439-454 | appends one member's code and moves the state |
| Separators.AppendGen.Write | internal/gengo/appendjson.go:327-359 | the printed program is the specified one for every field list |
| Separators.MembersRun | internal/gengo/appendjson.go:422-454 | from any coherent state and variable, the remaining code writes the remaining present members or returns the first failing one's error |
| Separators.CodeWritesObject | internal/gengo/appendjson.go:327-359 | for every field list and every outcome of the conditions the program appends `{`, the present members joined by single commas, and `}`, and never reads an undeclared `sep` |
| JsonWriter.MembersAreWritten | internal/gengo/appendjson.go:374-420 | the keys of the object are, in schema order, the fields that are always written, or differ from a fresh message's and are not empty bytes, lists or maps |
| JsonWriter.MessageWritable | internal/gengo/appendjson.go:573-656 | AppendJSON returns an error iff some enum value is not the schema's or some raw field is not JSON, anywhere below |
| JsonText.AppendItems | internal/gengo/appendjson.go:476-489 | the loop with its comma test appends the printed array, or fails with the first item that does |
| JsonText.AppendKeys | internal/gengo/appendjson.go:526-543 | the loop over sorted keys appends the printed object |
| JsonText.AppendBody | internal/gengo/appendjson.go:456-571 | what is appended for a member of any shape is its tree, printed |
| JsonText.AppendMessage | internal/gengo/appendjson.go:327-359 | the program of the separator compiler, run on a message, appends the printed form of its JSON tree to any buffer, and fails iff there is none |
| JsonDecode.DecodeObject | internal/gengo/decodejson.go:60-109 | the token loop with its seen bits computes the specified decoder |
| JsonReader.ScalarExactly | internal/gengo/runtime/decodejson.go.tmpl:402-450 | for strings, booleans, integers, enums and numbered enums a document is read as a value iff that value fits the type and is written as this document |
| JsonReader.NullExactly | internal/gengo/decodejson.go:115-221 | null leaves a field as in a fresh message, except that a nullable field records it, a raw field keeps it and an enum refuses it |
| JsonReader.NullItemExactly | internal/gengo/decodejson.go:241-261 | a null item or entry is the kind's zero, the document null, or refused |
| JsonReader.ItemsExactly | internal/gengo/decodejson.go:223-262 | an array is read iff every item is, item by item |
| JsonReader.EntriesExactly | internal/gengo/decodejson.go:264-305 | a map object is read iff every value is, and the last member under a key gives its value |
| JsonReader.MessageExactly | internal/gengo/decodejson.go:60-109 | a document is read iff it is an object whose known keys stand once with readable values and whose unknown keys do not differ from a field's in case only; named fields hold what their members say, the others the zero |
| JsonReader.OneofExactly | internal/gengo/decodejson.go:325-404 | the same for oneof objects; the variant is the one whose tag the document names, with its payload or a zero, and an unknown tag leaves the oneof unset |
| JsonSound.MessageSound | internal/gengo/decodejson.go:60-404 | whatever document is accepted, the result has exactly the schema's fields with values their Go types hold, valid enums and raw JSON, all the way down |
| JsonWriter.DecodedCanBeWritten | internal/gengo/decodejson.go:60-404 | what was read from any document can be written |
| JsonAppend.EncZeroIsNew | internal/gengo/appendjson.go:493-499 | an always-sent unset message is written as the zero struct is |
| JsonRoundTrip.PlainRoundTrip | internal/gengo/decodejson.go:184-221 | every plain field, zero written or not, empty text included, reads back as its normal form |
| JsonRoundTrip.AbsentIsZero | internal/gengo/appendjson.go:374-420 | a member that is not written stands for the zero value it leaves |
| JsonRoundTrip.CaseRoundTrip | internal/gengo/appendjson.go:547-571 | a set oneof comes back with its variant and payload |
| JsonRoundTrip.FieldRoundTrip | internal/gengo/decodejson.go:115-404 | any written field of any shape reads back as its normal form |
| JsonRoundTrip.MessageRoundTrip | internal/gengo/appendjson.go:374-571 | the same for whole messages, nested, repeated, in maps and oneofs, and for zero messages written in place of unset ones |
| JsonRoundTrip.DecodeOfAppend | internal/gengo/decodejson.go:60-404 | decoding into a fresh message what AppendJSON wrote succeeds and gives the normalised message, for every schema |
| JsonStable.MessageStable | internal/gengo/decodejson.go:60-404 | the normal form of a message that can be written can be written and is its own normal form |
| JsonStable.SecondRoundTripIsExact | internal/gengo/decodejson.go:60-404 | a message that has been written and read back survives every further round trip unchanged |
| JsonCanonical.MessageUnchanged | internal/gengo/decodejson.go:60-404 | the normal form of a message is the message itself iff it is canonical, a condition on its fields alone |
| JsonCanonical.RoundTripIsExact | internal/gengo/decodejson.go:60-404 | decoding what AppendJSON wrote gives the same message back iff it is canonical |
| JsonCanonical.NullableReadBack | internal/gengo/decodejson.go:144-159 | writing a nullable field and reading it keeps absent, null and set, except that absent becomes null exactly where the field is always sent; a set field never keeps a null flag |
| JsonCanonical.EmptyRawItemBecomesNull | internal/gengo/decodejson.go:237-261 | a nil raw item anywhere in a list is read back as the document null |
| JsonCanonical.OneEmptyRawItem | internal/gengo/decodejson.go:237-261 | the list of one nil raw item is read back as the list of one document null |
| JsonCanonical.NullDocumentBecomesUnset | internal/gengo/decodejson.go:168-182 | an optional raw field holding the document null is read back unset |
| JsonCanonical.NullPayloadBecomesEmpty | internal/gengo/decodejson.go:364-367 | a oneof's raw payload holding the document null is read back as no document in the same variant |
| JsonOrder.RepeatedKeyFails | internal/gengo/decodejson.go:80-86 | a field's key occurring twice makes the decoder give up, wherever the two stand |
| JsonOrder.KeyOrderIsIrrelevant | internal/gengo/decodejson.go:60-109 | message objects with the same members in any order decode alike, failures included |
| JsonOrder.RepeatedCaseKeyFails | internal/gengo/decodejson.go:347-363 | the tag or a variant's key occurring twice in a oneof object makes the decoder give up |
| JsonOrder.CaseKeyOrderIsIrrelevant | internal/gengo/decodejson.go:325-404 | oneof objects with the same members in any order decode alike, tag first or last |
| JsonOrder.EntryOrderIsIrrelevant | internal/gengo/decodejson.go:264-305 | map objects with the same members in any order decode alike, failures included, if members with one key carry one value |
| JsonOrder.EntryOrderExactly | internal/gengo/decodejson.go:264-305 | every reordering of a readable map object decodes alike iff members with one key carry one value |
| JsonOrder.LastEntryWins | internal/gengo/decodejson.go:303 | a map key's last member decides its value |
| JsonOrder.RepeatedEntryOverwrites | internal/gengo/decodejson.go:303 | a map object with one key twice is accepted, and reads differently in the other order |
| JsonDocument.SameMsgDecodes | internal/gengo/decodejson.go:60-404 | documents equal up to the order of members, in message, oneof and map objects at every depth, decode alike, failures included |
| JsonDocument.RepeatFails | internal/gengo/decodejson.go:60-404 | a repeated key in a message or oneof object, at any depth below known fields, makes the whole decoding fail |
| RawFrame.Be32 | internal/gengo/wsraw.go:246 | four bytes, most significant first, worth the number modulo 2^32 |
| RawFrame.ParseOfFrame | internal/gengo/wsraw.go:243-277 | reading an encoding gives back its header and segments |
| RawFrame.FrameOfParse | internal/gengo/wsraw.go:255-277 | whatever is accepted is the encoding of what is returned |
| RawFrame.FrameInjective | internal/gengo/wsraw.go:244-252 | a byte string encodes at most one header and list of segments |
| RawFrame.DecodeRawFrame | internal/gengo/wsraw.go:255-277 | accepts a frame iff it is an encoding, returns what was encoded, and never slices out of range |
| RawFrame.EncodeRawFrame | internal/gengo/wsraw.go:244-252 | produces the frame in one buffer |
| RawFrame.EncodeAppend | internal/gengo/wsraw.go:86-102 | what it appends, followed by the trailing segments, is the frame after any destination prefix; with nothing raw the message goes out whole as text; it fails iff marshalling does |
| RawPlan.RawSearch.Visit | internal/onkir/helpers.go:646-668 | the shared-seen search is exact: not finding a raw field leaves everything newly seen raw-free and closed |
| RawPlan.MessageHasRaw | internal/onkir/helpers.go:642-644 | true iff a raw field lies below the message through local messages |
| RawPlan.RawSteps | internal/onkir/helpers.go:670-690 | the step list has a step for each raw field, carrying child and carrying variant, in field order |
| RawTargets.PlanOfOk | internal/onkir/helpers.go:670-690 | a field has one step, or one per variant with distinct names and tags |
| RawTargets.HeaderIsClean | internal/gengo/wsraw.go:157-196 | no raw field below the message holds any byte in the header |
| RawSplit.JoinOfSplit | internal/gengo/wsraw.go:157-237 | joining the split header with its segments restores the message and leaves whatever followed them |
| RawSplit.JoinConsumes | internal/gengo/wsraw.go:198-237 | joining succeeds iff there are as many segments as the shape takes, and leaves exactly the others |
| RawSplit.JoinAllExactly | internal/gengo/wsraw.go:149-152 | a frame's segments fit a header iff there are as many as were split off |
| RawHeap.Split | internal/gengo/wsraw.go:157-196 | the copying split returns fresh structs holding the header and the segments in order, and changes nothing that existed |
| RawHeap.SplitSwitch | internal/gengo/wsraw.go:165-177 | the variants of one oneof, as one switch, do what their steps do |
| RawTargets.PySplit | internal/genpy/ws.go:89-132 | one `if` per variant, each looking again at the copied dict, yields the same header and segment order |
| RawPyJoin.PyJoin | internal/genpy/ws.go:134-175 | one `if` per variant, each looking at the dict as the earlier ones left it, and one iterator restore what Go's join restores, fail where it fails, and leave the same segments |
| RawJoin.JoinRaw | internal/gengo/wsraw.go:198-237 | the join writes in place into the message's own memory, keeps it a tree, and agrees with the specified join, failure included |
| RawJoin.JoinAllRaw | internal/gengo/wsraw.go:149-152 | on the decoded header it succeeds iff the number of segments is right, and with the right ones the memory holds the original message |
| BoxedTypes.Search.Visit | internal/genrust/types.go:822-842 | true only if the owner is reachable; false leaves a seen set closed under variants and without the owner |
| BoxedTypes.BoxedVariant | internal/genrust/types.go:818-845 | a variant is boxed iff its message reaches the owner through oneof variants |
| BoxedTypes.InlineIsUnboxed | internal/genrust/types.go:518-545 | what a generated struct stores inline is an unboxed variant, never a message, list or map field |
| BoxedTypes.UnboxedIsInline | internal/genrust/types.go:518-545 | a variant that does not lead back is stored inline: nothing is boxed without need |
| BoxedTypes.PlainFieldStates | internal/genrust/types.go:518-545 | a nullable field tells absent, null and set apart, an optional one and a message absent and set, lists and maps are never absent; lists are vectors and messages boxed |
| BoxedTypes.InlineIsAcyclic | internal/genrust/types.go:799-845 | no chain of inline containment meets a message twice |
| BoxedTypes.EveryStructHasASize | internal/genrust/types.go:799-845 | every generated struct has a finite size |
| EditDistance.CommandDistance | cmd/onkt/main.go:444-462 | the two-row program computes the recurrence |
| EditDistance.DistSymmetric | cmd/onkt/main.go:444-462 | the distance is symmetric |
| EditDistance.Triangle | cmd/onkt/main.go:444-462 | the triangle inequality |
| EditDistance.DistZero | cmd/onkt/main.go:444-462 | distance zero means equal |
| EditDistance.ScriptsAreLonger | cmd/onkt/main.go:444-462 | no chain of single inserts, deletes and replacements is shorter than the distance |
| EditDistance.ShortestScript | cmd/onkt/main.go:444-462 | a chain of exactly that many edits exists |
| EditDistance.DistIsMinimal | cmd/onkt/main.go:444-462 | the returned number is the length of a shortest edit script |
| EditDistance.SuggestCommand | cmd/onkt/main.go:427-442 | an alias, else the first command at the least score if that is below three, else nothing |
| PingDetector.ServerReadLoop | internal/genrust/ws.go:694-712 | drops iff two consecutive ticks have no message between them |
| PingDetector.RunClient | internal/genrust/ws.go:490-509 | with messages arriving between or inside ticks, drops iff two consecutive swaps of the shared flag have no message between them |
| PingDetector.DetectorsAgree | internal/genrust/ws.go:490-509 | on the same ticks and messages client and server drop alike |

## Left out

- Emitted text, imports, naming and doc comments: the meaning of the generated programs is modelled, not their spelling.
- Sockets, contexts and clocks: frames arriving, reads failing, sends failing, deadlines and ticks are external steps that may happen at any time.
- Chunk assembly, the server frame queue, cancel frames sent to the peer and Rust's call-sink guards: the protocol starts at a decoded frame.
- CallLiveness.EveryCallAnswered: assumes that ids of calls in flight are distinct, because `register` overwrites; what happens otherwise is AnswerLostExactly, LostCallStaysLost and DuplicateIdLosesCall.
- RuleAgree.SameVerdict: compares the native Go code with the evaluator as Rust has it; Dart and Swift differ from that evaluator only in NativeAgreesWithThreeWay, and Python's `in` compares a NaN object equal to itself, which is not modelled.
- Regular expressions and float rounding in rules are uninterpreted; regular expressions are not shared through an indexed table; negative zero is not told apart from zero.
- Rule fields of type uint64, timestamp, json and oneof: the language cannot read them.
- Rule fields that are maps with other than string keys: the documentation (README.md:1388) names string keys only, the checker never looks at the key type (internal/onkexpr/check.go:59-64), and they are not modelled.
- Lists of struct items (`ValueItems`) and the authorization bindings of rule expressions.
- The rule parser, the checker's error messages, and which messages a generated validator walks to.
- JsonText.AppendMessage: appends a raw document in its printed form, where the library routine compacts the bytes it is given; quoting is a parameter that leaves digits, encoded bytes and the names of a schema as they are.
- JSON text is not parsed: decoding starts at the tree, and strings, numbers, base64 and hexadecimal are taken as inverse pairs of library routines; float and timestamp kinds, which behave like the integer kind, unions flattened into their parent, and external messages written by the standard library are not in the schema.
- JsonRoundTrip.DecodeOfAppend: is about the fast decoder on a fresh message; the standard-library decoder it falls back to is not part of this model.
- JSON numbers that are not integers, which integer fields refuse, are not among the documents.
- Map keys of non-string type, which both directions hand to the standard library.
- RawHeap.Split: byte contents are sequences, so nil and empty segments are not told apart.
- RawJoin.JoinRaw: tries the variants of a oneof one by one where the source has a switch; at most one applies.
- RawTargets.PySplit: works on values, not on aliased dicts; base64 and UTF-8 text in the dict is taken as the bytes it stands for.
- RawPyJoin.PyJoin: returns the joined dict where the source updates it; a segment that is not UTF-8 under a JSON field, on which the source raises, is not modelled.
- BoxedTypes.EveryStructHasASize: adds up the variants of an enum instead of taking the largest, which bounds its size from above.
- PingDetector.RunClient: a failing ping and a reader that has already stopped end the ticker earlier, which is not modelled.
- HTTP clients and servers, OpenAPI output, imports of other schemas, file serving and the command line beyond the suggestion.
