# Alarms, check scheduling and the benchmark check of the QC framework

This project is a Dafny model of four pieces of the ALICE O2 Quality Control
framework, with proofs about each:

- **The alarm expression engine.** An alarm condition such as
  `Check::taskA != Quality::Bad` is a tree of boolean nodes (`|`, `&`,
  `^`, `!`) over comparison leaves. Each leaf compares two values: a quality
  literal (`QualityValue`) or the last quality a check published
  (`CheckValue`). Evaluation is four-valued (True, False, Outdated,
  Undefined). `or` and `and` short-circuit, and node shapes the evaluator
  does not handle raise a fatal error.
- **Alarm input dispatch.** An alarm records the values its parser
  registered. `gather_inputs` builds a binding-to-values map and a
  duplicate-free input list. `run` delivers each input that carried data to
  the values registered under its binding, and then evaluates the
  condition only if some input carried data.
- **The revision-gated check scheduler.** A check runner stamps every
  received monitor object with the current global revision. It runs the
  checks whose policy reports them ready against the stamped objects, and
  each run check records the global revision. The runner then advances the
  global revision, an `unsigned int`. When it wraps it skips 0 and resets
  every check's revision to 0. The runner-name and data-description helpers
  are modelled as well.
- **The benchmark check's quality rule.** It classifies the histogram called
  "example" as Good, Medium or Bad from its bin contents (Null when there is
  none), and then paints the histogram in the verdict's colour.

Modules follow the source:

| module | file | models |
|---|---|---|
| `Wrappers` | wrappers.dfy | `Option`, and `Result` with the `FatalException` error |
| `Text` | text.dfy | `boost::algorithm::split` on one separator, `substr(0, n)` |
| `Qualities` | qualities.dfy | the four named qualities and their levels |
| `Framework`, `Objects` | framework.dfy | input/output specs, data descriptions, quality and monitor objects, histograms |
| `Values` | values.dfy | `Value`, `QualityValue`, `CheckValue`, `parseValue` |
| `Expressions` | expressions.dfy | `AlarmExpression`, operator tokens, `eval` |
| `Alarms` | alarms.dfy | `Alarm` |
| `Checks` | checks.dfy | the scheduler's view of `Check` |
| `CheckRunners` | check_runners.dfy | `CheckRunner` |
| `Benchmark` | benchmark_check.dfy | `BenchmarkCheck` |

Modelling choices:

- **Shared values are positions.** The C++ code shares `Value` objects
  through `shared_ptr` between the alarm's value list, its update map and
  the expression's leaves. Here a leaf and the update map name a value by
  its position in the alarm's list. A position outside the list stands for
  a null pointer.
- **Quality levels are a parameter.** `core::Quality` is not part of this
  model, so the integer levels of the four qualities are a `LevelScale`
  parameter. Properties that need it assume only that the four levels are
  distinct.
- **Other code becomes parameters.** These are:
  - the condition parser: the calls it makes back into the alarm, the
    exception one of its grammar actions throws, if any, and its return
    status;
  - `std::hash<std::string>`;
  - a check's readiness policy and its evaluation, which returns the verdict
    and the objects as its beautification painted them (`Check.cxx` is not
    part of this model);
  - the initial global revision, which the source never initialises;
  - the data each input binding carries in a cycle.
- **Revisions wrap explicitly.** They are naturals below 2^32, and the
  increment is taken modulo 2^32.
- **Histograms include ROOT's extra bins.** A histogram carries ROOT's
  underflow, regular and overflow bins. The benchmark scan reads
  `GetBinContent(i)` for `0 <= i < GetNbinsX()`, so it reads the underflow
  bin and never reads the last regular bin. `Benchmark.UnderflowCounts` and
  `Benchmark.LastBinIgnored` state this.
- **Map order is the sequence order.** The benchmark check iterates a
  `std::map`. Here it takes the map's entries as a sequence in iteration
  order.

Source behaviour kept as written:

- `parseValueOp` maps `"<"`, `"<="`, `">"` and `">="` all to the inequality
  operator. Every ordering comparison therefore evaluates as `!=`.
- `xor` of True and True is True: two identical operands return their
  shared value.
- The header documents value strings as `"Prefix::Name"`. The code splits on
  `':'` and needs exactly three parts, ignoring the middle one. So
  `"Quality::Good"` and `"Quality:x:Good"` parse, but `"Quality:Good"` is
  refused. The model follows the code.
- No value kind is ready without also being valid. An evaluation therefore
  never returns Outdated, although the outcome exists.

## Model

| member | source | states |
|---|---|---|
| `Values.Name` | Framework/include/QualityControl/Expression.h:23-69 | the base class's name is empty; a literal or check value returns the name it was built with |
| `Values.IsValid` | Framework/include/QualityControl/Expression.h:25-49 | a value is valid iff it hashes the quality type, that is, iff it is not the base class |
| `Values.TypeHash` | Framework/include/QualityControl/Expression.h:29-65 | only the base class hashes `void`; both concrete kinds hash the same quality type |
| `Values.IsReady` | Framework/src/Expression.cxx:218-221 | on distinct levels, a value is ready iff it is a literal or a check value whose last quality is not Null |
| `Values.Compare` | Framework/src/Expression.cxx:199-211 | the base class compares as 0; a concrete value compares as 0 iff both hold the same quality, and below or above 0 exactly as its level is below or above the other's |
| `Values.CompareAntisymmetric` | Framework/src/Expression.cxx:199-211 | swapping two concrete operands negates the comparison |
| `Values.BaseValueDefaults` | Framework/include/QualityControl/Expression.h:21-35 | a base value is not valid or ready, has no name or inputs, hashes void, compares as 0 and ignores updates |
| `Values.ConcreteValueKinds` | Framework/include/QualityControl/Expression.h:41-65 | literals are always valid and ready, check values always valid, and both hash the same type |
| `Values.Inputs` | Framework/src/Expression.cxx:223-226 | exactly a check value has one input: binding `check-<name>`, origin QC, its checker description, subspec 0 |
| `Values.Update` | Framework/src/Expression.cxx:228-232 | a check value takes the received quality; other kinds and the name, hash and inputs are unchanged |
| `Values.UpdateOverwrites` | Framework/src/Expression.cxx:228-232 | only the latest update counts, so repeating one changes nothing |
| `Values.UpdateMakesReady` | Framework/src/Expression.cxx:218-232 | a check value is ready after an update iff the received quality is not Null |
| `Values.MakeQualityValue` | Framework/src/Expression.cxx:184-197 | succeeds iff the name is a capitalised or lowercase quality name, which it then denotes; otherwise the named parse error |
| `Values.UpperCaseQualityRejected` | Framework/src/Expression.cxx:186-196 | `"GOOD"` is refused while `"Good"` gives Good |
| `Values.MakeCheckValue` | Framework/src/Expression.cxx:205 | a new check value holds Null, so it is valid and not ready |
| `Values.ParseValue` | Framework/src/Expression.cxx:169-182 | a parsed value is concrete; a string without exactly two colons gives the value parse error |
| `Values.ParseValueOfParts` | Framework/src/Expression.cxx:172-180 | a three-part string builds a literal or a check value from its third part according to the first part, and fails otherwise |
| `Values.ParseValueSucceeds` | Framework/src/Expression.cxx:169-182 | parsing succeeds iff the string is `Quality:<m>:<quality name>` or `Check:<m>:<name>` with no other colons |
| `Values.MiddlePartIgnored` | Framework/src/Expression.cxx:174-178 | the middle part has no influence on the result |
| `Values.DoubleColonFormParses` | Framework/include/QualityControl/Expression.h:113-117 | the documented `Prefix::Name` form parses to the named value |
| `Values.SingleColonFormRejected` | Framework/src/Expression.cxx:172-174 | `"Quality:Good"` is refused |
| `Text.Split` | Framework/src/Expression.cxx:171-172 | one more part than separators, and no part contains the separator |
| `Text.JoinSplit` | Framework/src/Expression.cxx:171-172 | joining the parts gives the split string back |
| `Text.SplitJoin` | Framework/src/Expression.cxx:171-172 | splitting inverts joining of separator-free parts |
| `Text.Take` | Framework/src/Alarm.cxx:23 | `substr(0, n)` is a prefix of length `min(n, size)` |
| `Framework.TruncatedDescription` | Framework/src/Alarm.cxx:22-23 | at most 16 characters, ending in `-chk` after a prefix of the name of length `min(12, size)` |
| `Expressions.ParseValueOp` | Framework/src/Expression.cxx:56-72 | accepts exactly the six relational tokens; only `==` gives equality and every other accepted token gives inequality; otherwise the error naming the token |
| `Expressions.ValueOpTokenRoundTrip` | Framework/src/Expression.cxx:56-72 | printing then parsing gives the operator back exactly for `==` and `!=` |
| `Expressions.OrderingTokensBuildInequality` | Framework/src/Expression.cxx:62-69 | the four ordering tokens build the same node as `!=` |
| `Expressions.ParseExpressionOp` | Framework/src/Expression.cxx:74-86 | accepts exactly the four boolean tokens; otherwise the error naming the token |
| `Expressions.ExpressionOpTokenRoundTrip` | Framework/src/Expression.cxx:74-86 | boolean tokens and operators correspond one to one |
| `Expressions.MakeBinary` | Framework/src/Expression.cxx:16-23 | builds a binary node over the two children iff the token parses, with unlimited lifetime |
| `Expressions.MakeUnary` | Framework/src/Expression.cxx:25-32 | builds a unary node over the child iff the token parses, with unlimited lifetime |
| `Expressions.MakeComparison` | Framework/src/Expression.cxx:34-44 | an operator error first; then differing type hashes give the compare error and no node; otherwise the comparison node |
| `Expressions.ParsedValuesComparable` | Framework/include/QualityControl/Expression.h:43-65 | any two parsed values pass the type check |
| `Expressions.BaseValueNotComparable` | Framework/src/Expression.cxx:41-43 | a base value against a concrete value is refused |
| `Expressions.SetValueLifetime` | Framework/include/QualityControl/Expression.h:111 | only the lifetime field changes |
| `Expressions.LifetimeNotConsulted` | Framework/include/QualityControl/Expression.h:111-121 | the lifetime never changes an evaluation |
| `Expressions.EvalValues` | Framework/src/Expression.cxx:137-167 | Undefined if either value is unready, checked first; then Outdated if either is invalid; otherwise True iff the operator holds of the comparison |
| `Expressions.Eval` | Framework/src/Expression.cxx:46-54 | evaluation never yields Outdated |
| `Expressions.WellShapedNeverFails` | Framework/src/Expression.cxx:46-135 | a tree with handled node shapes and existing values never raises |
| `Expressions.DefiniteWhenAllReady` | Framework/src/Expression.cxx:88-167 | once every value read is ready, the outcome is True or False |
| `Expressions.UndefinedNeedsUnreadyValue` | Framework/src/Expression.cxx:88-145 | an Undefined outcome implies some value the tree reads is not ready |
| `Expressions.OrShortCircuits` | Framework/src/Expression.cxx:92-94 | a True left child makes `or` True whatever the right child is |
| `Expressions.OrPassesRight` | Framework/src/Expression.cxx:95-97 | otherwise `or` returns the right child's outcome verbatim |
| `Expressions.AndShortCircuits` | Framework/src/Expression.cxx:99-102 | a left outcome other than True is returned by `and` whatever the right child is |
| `Expressions.AndPassesRight` | Framework/src/Expression.cxx:103-105 | after a True left child, `and` returns the right child's outcome |
| `Expressions.XorEvaluatesBoth` | Framework/src/Expression.cxx:107-109 | `xor` evaluates both children, left first, propagating the first error |
| `Expressions.XorTable` | Framework/src/Expression.cxx:110-119 | the `xor` results on the characteristic operand pairs, True with True giving True |
| `Expressions.XorProperties` | Framework/src/Expression.cxx:110-119 | `xor` returns one of its operands, an indefinite left operand first, and on definite operands is False iff both are False |
| `Expressions.NotProperties` | Framework/src/Expression.cxx:123-131 | `not` swaps True and False, passes the others through, and undoes itself |
| `Expressions.MisshapenNodesFail` | Framework/src/Expression.cxx:122-134 | an empty node, a binary `not` or a unary non-`not` raises the matching fatal error |
| `Expressions.BinaryNotNodeFails` | Framework/src/Expression.cxx:82-134 | `"!"` builds a binary node that can never be evaluated |
| `Expressions.UnreadyComparisonUndefined` | Framework/src/Expression.cxx:139-141 | a comparison with an unready value is Undefined under every operator |
| `Expressions.ComparisonsNegate` | Framework/src/Expression.cxx:146-166 | `!=` is `not ==`, `<` is `not >=` and `>` is `not <=`, in all four outcomes |
| `Expressions.EqualityMeansSameQuality` | Framework/src/Expression.cxx:153-158 | on distinct levels, `==` on ready values is True iff they hold the same quality |
| `Expressions.LiteralEqualityScenario` | Framework/src/Expression.cxx:184-203 | `Good == Good` over literals builds a node that is True |
| `Expressions.UnpublishedCheckScenario` | Framework/src/Expression.cxx:205-221 | a check value that has received nothing makes `!=` Undefined |
| `Alarms.CreateAlarmDataDescription` | Framework/src/Alarm.cxx:17-25 | fails iff the name is empty, with the empty-name error; otherwise the truncated `-chk` description |
| `Alarms.RegisterValue` | Framework/src/Alarm.cxx:90-93 | appends the value and changes nothing else |
| `Alarms.SetExpression` | Framework/src/Alarm.cxx:85-88 | replaces the root and changes nothing else |
| `Alarms.LastRoot` | Framework/src/Alarm.cxx:85-88 | the root of the last `set_expression` call, present iff some call sets one |
| `Alarms.ApplyCalls` | Framework/src/Alarm.cxx:85-93 | the parser's calls append exactly the registered values, leave the root given by the last `set_expression` call (the earlier root if none), and change nothing else |
| `Alarms.FirstRaised` | Framework/src/Alarm.cxx:69-81 | the first parser step that throws: the parse stops there and that exception is the one passed on |
| `Alarms.ParseString` | Framework/src/Alarm.cxx:62-83 | succeeds iff no grammar action throws, the status is 0 and a root is set; the first exception thrown is passed on, otherwise a non-zero status gives the parser error and a missing root the empty-expression error |
| `Alarms.PairsUnderUpdate` | Framework/src/Alarm.cxx:49-60 | the visited pairs depend only on each value's inputs, so updating values keeps the gathered routing |
| `Alarms.SegmentMembership` | Framework/src/Alarm.cxx:53-54 | one value's visited pairs are its position with each of its inputs |
| `Alarms.PairsMembership` | Framework/src/Alarm.cxx:51-54 | the loop visits exactly the pairs of a position and one of that value's inputs |
| `Alarms.PositionsUnderMembership` | Framework/src/Alarm.cxx:54 | a position is listed under a binding iff a visited pair joins them |
| `Alarms.DistinctInputsMembership` | Framework/src/Alarm.cxx:55-57 | an input is kept iff some visited pair carries it |
| `Alarms.DistinctInputsOrder` | Framework/src/Alarm.cxx:55-57 | no input is kept twice, and kept inputs are in order of first occurrence |
| `Alarms.MapStep` | Framework/src/Alarm.cxx:54 | appending a position under the input's binding keeps the map equal to the positions visited under each binding |
| `Alarms.GatherStep` | Framework/src/Alarm.cxx:53-57 | one inner iteration keeps map and list equal to their reference definitions |
| `Alarms.GatherValueInputs` | Framework/src/Alarm.cxx:53-58 | after one value's inputs, map and list match the reference definitions over everything visited |
| `Alarms.GatherInputs` | Framework/src/Alarm.cxx:49-60 | the map and input list are those of the reference definitions over all values |
| `Alarms.ListedPositions` | Framework/src/Alarm.cxx:51-54 | a position is listed under a binding iff it holds a check value fetched by that binding |
| `Alarms.ListedMeaning` | Framework/src/Alarm.cxx:51-54 | the same, for any map built by `gather_inputs` |
| `Alarms.CheckInputGathered` | Framework/src/Alarm.cxx:51-57 | every check value's input is in the gathered list |
| `Alarms.NewAlarm` | Framework/src/Alarm.cxx:37-47 | succeeds iff the name is non-empty, no grammar action throws, the parser returns 0 and sets a root; each failure gives its own error (empty name, the thrown exception, parser status, empty expression); names, output, values, the root of the last `set_expression` call and the gathered inputs are then as built |
| `Alarms.UpdateListed` | Framework/src/Alarm.cxx:105-107 | exactly the listed values take the data |
| `Alarms.ValidRouted` | Framework/src/Alarm.cxx:49-60 | in a built alarm every listed position holds a check value of that binding, and every check value is listed and its input gathered |
| `Alarms.Deliver` | Framework/src/Alarm.cxx:97-109 | a value is refreshed iff an input with data lists it; the update flag is set iff some input had data |
| `Alarms.CarriedMeaning` | Framework/src/Alarm.cxx:98-107 | a value receives data iff it is a check value and its own binding carries some |
| `Alarms.Run` | Framework/src/Alarm.cxx:95-128 | only values change, exactly the check values whose binding carries data are updated, and the condition is evaluated, on the updated values, iff some input had data; the alarm stays valid, so cycles chain |
| `Checks.NewCheck` | Framework/include/QualityControl/Check.h:81 | a new check has revision 0 and keeps its name, output and inputs |
| `Checks.UpdateRevision` | Framework/include/QualityControl/Check.h:34-39 | sets the revision and nothing else |
| `Checks.UpdateRevisionOverwrites` | Framework/include/QualityControl/Check.h:34-39 | only the latest revision counts, and rewriting the current one changes nothing |
| `CheckRunners.CreateCheckRunnerDataDescription` | Framework/src/CheckRunner.cxx:53-61 | fails iff the name is empty, with the empty-name error; otherwise the truncated `-chk` description |
| `CheckRunners.Digits` | Framework/src/CheckRunner.cxx:98-101 | `count` characters, all from the 62-character alphabet |
| `CheckRunners.DigitValueOfAlphanumeric` | Framework/src/CheckRunner.cxx:82-85 | the alphabet is the ten digits, then upper-case, then lower-case letters |
| `CheckRunners.DecodeDigits` | Framework/src/CheckRunner.cxx:97-101 | the digits read back, least significant first, are the number modulo 62^count |
| `CheckRunners.CreateCheckRunnerName` | Framework/src/CheckRunner.cxx:80-104 | one check gives `QC-CHECK-RUNNER-<name>`; otherwise the prefix and four alphabet characters encoding the hash of the concatenated names modulo 62^4 |
| `CheckRunners.GroupNameDependsOnConcatenation` | Framework/src/CheckRunner.cxx:93-97 | groups whose names concatenate to the same string get the same runner name |
| `CheckRunners.CollectOutputs` | Framework/src/CheckRunner.cxx:106-113 | one output per check, in check order |
| `CheckRunners.NewRunner` | Framework/src/CheckRunner.cxx:120-133 | name, checks, first check's inputs, outputs, empty object and stamp maps, the given initial revision, and no revision ahead of it |
| `CheckRunners.Update` | Framework/src/CheckRunner.cxx:230-234 | the object is stored under its full name stamped with the global revision; other names and fields are unchanged |
| `CheckRunners.StampAll` | Framework/src/CheckRunner.cxx:182-191 | updating a batch changes only the object and stamp maps |
| `CheckRunners.StampAllReceived` | Framework/src/CheckRunner.cxx:182-187 | a received name holds its last received object and the current global revision |
| `CheckRunners.StampAllUntouched` | Framework/src/CheckRunner.cxx:182-187 | a name not received keeps its object and stamp |
| `CheckRunners.NonNull` | Framework/src/CheckRunner.cxx:182-190 | the objects kept are exactly the non-null entries |
| `CheckRunners.NonNullOrder` | Framework/src/CheckRunner.cxx:182-190 | the kept objects are in array order: a null entry gives nothing, an object gives itself, and concatenated arrays give concatenated results |
| `CheckRunners.Received` | Framework/src/CheckRunner.cxx:173-193 | an object is received iff it is a non-null entry of an input whose data is present |
| `CheckRunners.ReceivedOrder` | Framework/src/CheckRunner.cxx:173-193 | objects arrive input by input, in input order and array order within an input, so the last one under a name is the one stored |
| `CheckRunners.Repainted` | Framework/src/CheckRunner.cxx:236-244 | a check can paint the shared objects but cannot add or drop a name, because it receives a copy of the map |
| `CheckRunners.ObjectsAfterKeys` | Framework/src/CheckRunner.cxx:236-255 | running the checks keeps the set of object names |
| `CheckRunners.UnpaintedObjectsKept` | Framework/src/CheckRunner.cxx:236-255 | checks that beautify nothing leave every object as it was |
| `CheckRunners.CheckAll` | Framework/src/CheckRunner.cxx:236-255 | each ready check records the global revision and unready ones are untouched; each ready check sees the objects as the ready checks before it painted them; triggered is exactly the ready checks with a quality object, in increasing order; the objects come out as all ready checks left them |
| `CheckRunners.Increment` | Framework/src/CheckRunner.cxx:302 | `++` on an `unsigned int`: one more, and the largest value wraps to 0 |
| `CheckRunners.UpdateGlobalRevision` | Framework/src/CheckRunner.cxx:300-311 | the revision is incremented modulo 2^32 and never 0 afterwards; on wrap it is 1 and every check's revision is 0 |
| `CheckRunners.RunCycle` | Framework/src/CheckRunner.cxx:173-207 | checks see and record this cycle's stamps at the pre-increment revision, and the objects keep what the checks painted under the same names; the revision advances last; with no wrap no revision gets ahead of it |
| `CheckRunners.UnchangedDependenciesNotRerun` | Framework/src/CheckRunner.cxx:182-187 | under the example "a dependency changed" policy, a batch holding none of a check's dependencies leaves the stamps showing nothing newer than the check's revision, so the check is not ready |
| `CheckRunners.ReceivedDependencyMakesReady` | Framework/src/CheckRunner.cxx:182-187 | under that policy, once the global revision is past a check's revision, a batch holding one of its dependencies makes it ready |
| `CheckRunners.WrapMakesChecksReady` | Framework/src/CheckRunner.cxx:303-309 | after a wrap, a dependency stamped at a non-zero revision makes the check ready under that policy |
| `Benchmark.AcceptedType` | Modules/Benchmark/src/BenchmarkCheck.cxx:67 | the accepted object type is `"TH1"` |
| `Benchmark.Scanned` | Modules/Benchmark/src/BenchmarkCheck.cxx:51-52 | the scan reads `GetBinContent(i)` for each index below the number of bins |
| `Benchmark.ClassifyHistogram` | Modules/Benchmark/src/BenchmarkCheck.cxx:47-58 | the scan with early exit gives Bad iff a bin 1 to 7 is empty, otherwise Medium iff a bin at 0 or beyond 7 is filled, otherwise Good |
| `Benchmark.Check` | Modules/Benchmark/src/BenchmarkCheck.cxx:39-65 | Null if no object is named `example`; otherwise the classification of the last one |
| `Benchmark.UnderflowCounts` | Modules/Benchmark/src/BenchmarkCheck.cxx:51-57 | a filled underflow bin makes a gap-free histogram Medium |
| `Benchmark.LastBinIgnored` | Modules/Benchmark/src/BenchmarkCheck.cxx:51 | the last regular bin's content has no influence |
| `Benchmark.Beautify` | Modules/Benchmark/src/BenchmarkCheck.cxx:69-85 | only `example` is painted: green, red or orange fill by verdict, fill kept on Null, black line, nothing else changed |
| `Benchmark.BeautifyShowsVerdict` | Modules/Benchmark/src/BenchmarkCheck.cxx:74-82 | the fill colour reads back as the last definite verdict painted, and Null changes nothing |
| `Benchmark.BeautifyIdempotent` | Modules/Benchmark/src/BenchmarkCheck.cxx:69-85 | painting twice with one verdict is painting once |

## Left out

- Logging, monitoring metrics, timers, and the database store and send of `CheckRunner::run`: they are I/O. `RunCycle` returns the triggered checks instead. `store` is not only I/O, though: it reads `mMonitorObjects[name]` for the first object name of each beautified triggered check, which inserts a null entry when that name was never received (see the `CheckRunners.RunCycle` line below).
- Configuration lookups: `Alarm`'s condition string, `CheckRunner::createInputSpec`, `BenchmarkCheck::configure`, and the database and monitoring set-up. They read external configuration.
- The alarm condition grammar (Parser and Scanner are not part of this model). The parser's effect is given as its calls and status.
- `Check.cxx` is not part of this model. `Check::isReady` and `Check::check`, together with the beautification it performs on the shared objects, are parameters. `AnyNewer` is one example policy.
- `core::Quality` and `TObjArray` are not part of this model. Quality levels are a parameter, and a received array is a sequence of optional objects.
- `std::hash` is a parameter, and `DataDescription::runtimeInit` is taken to store a description of at most 16 characters unchanged.
- `Framework.TruncatedDescription`, `Alarms.CreateAlarmDataDescription`, `CheckRunners.CreateCheckRunnerDataDescription`: names are modelled as character sequences, while `substr(0, 12)` and the 16-byte description count bytes, so the truncation is exact only for ASCII names.
- The default constructor `AlarmExpression()` is declared in Expression.h and defined nowhere in the QC sources. It is modelled only as the `Empty` node shape.
- `lifetime` and `CheckValue::lastUpdate` are stored but never read by Expression.cxx or Alarm.cxx, so no staleness is modelled.
- `spinsleep(mDuration)` in the benchmark check only spends time.
- Floating-point NaN bin contents, and `dynamic_cast` failures: the model assumes the "example" object is a `TH1F`.
- Concurrency and the framework's processing-context API: each `run` call is one sequential step.
- `Expressions.Eval`: its contract states only that Outdated never results. The full outcome is characterised by `EvalValues` and the per-operator lemmas.
- `CheckRunners.RunCycle`: the bound that no revision gets ahead of the global revision is stated only for cycles without a wrap, because on a wrap the stamps keep their old large values. The contract's key-set equality leaves out the null entry that `store` inserts through `mMonitorObjects[name]` (CheckRunner.cxx:280) when a beautified triggered check names an object the runner never received; the next cycle would hand that null pointer to the checks. `isBeautified` and `getMonitorObjectNames` are not declared in Check.h, so which name a check reports is not modelled.
- `CheckRunners.CheckAll`: policies are taken to be stateless functions of the check and the stamps. `Check::isReady` is non-const and takes the revision map by non-const reference, and `mPolicyHelper` (Check.h:82) gives a policy state that can change between calls; neither that state nor a policy writing stamps is modelled. Checks are taken to paint only objects already in the shared `moMap` copy: an entry one check inserts, erases or replaces in that copy, which later checks of the cycle would see, is not modelled.
