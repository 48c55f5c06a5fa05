# Verification model of CCE: scoring pipeline and scoring service

CCE measures the code complexity of a repository, turns the measurements into one decimal score under a
frozen spec, and writes a record whose hash pins down what was scored.  A service around it queues scoring
jobs, limits request rates and request bodies, and keeps an audit log.  This project models the parts of both
whose correctness is not visible from reading one function, and proves what they promise.

The modules follow the program.

* **Measuring** (`Tally`, `Trees`, `Counting`, `FileMetrics`, `TypeScriptCounter`, `TypeScriptTheorems`,
  `SourceSlices`, `PythonCounter`, `Ordering`, `Analyzer`, `BuiltInBackends`).  The TypeScript counters are two
  loops over explicit stacks; they are proved to refine recursive definitions, which are then explained by paths
  in the tree.  The Python counter is a visitor that mutates its fields.  Trees are the input; parsing is not
  modelled.
* **Scoring** (`Reals`, `Decimal`, `DecimalText`, `ScoringSpec`, `Normalise`, `Scoring`).  Numbers are reals, and each
  operation is followed by the explicit half-even rounding to 28 significant digits of the decimal context.
* **Hashing and writing** (`Utf8`, `Json`, `JsonMeaning`, `Hex`, `RecordHash`, `Sidecars`, `Outputs`).  SHA-256 is a
  parameter about which nothing is assumed, except in `Outputs` that it yields 64 hexadecimal digits.  The
  serialiser follows RFC 8785 and is checked against a reader written from RFC 8259.  The disk remembers every state it passes through, so that a statement about all
  of them is a statement about a crash at any point; writing a file's bytes is not atomic, replacing a name is.
* **Service** (`TokenBucket`, `RateLimiter`, `CircuitBreaker`, `DocumentedBreaker`, `Trials`, `Timestamps`, `Repos`,
  `Retry`, `ConsumerRuns`, `ConsumerSteps`, `ConsumerLedger`, `Consumer`, `BodyLimit`).  Clocks, dispatch results and
  inner applications are parameters: theorems hold for all of them.  `Consumer` is the job consumer as an object over shared, mutable stores, and
  refines the step function that `ConsumerRuns`, `ConsumerSteps` and `ConsumerLedger` reason about over all runs.

Where the code and its documentation differ, the model follows the code:

* `circuit_breaker.py` speaks of consecutive failures; a success while closed resets nothing.
  `DocumentedBreaker` says when that can be told: exactly from the first success that is recorded while the
  breaker is closed and has counted failures (`DocumentedBreaker.DocumentedUntilIgnored`).  No run has such a
  success exactly when the threshold is one (`DocumentedBreaker.DocumentedWhen`).
* It speaks of one trial request; while half open every caller is admitted (`CircuitBreaker.HalfOpenAdmitsAll`),
  trials that are torn down by something that is not an `Exception` do not end it (`CircuitBreaker.TornDownTrial`),
  and the success that closes it may be that of a call from before it opened (`Trials.ClosingCallIsTrial`).
* A job requeued because the breaker is open stays RUNNING in the store, and the consumer's last handler writes
  no audit event.  A dispatch torn down by something that is not an `Exception` passes every handler: its job stays
  RUNNING and is in no queue (`ConsumerRuns.RunSettles`).

Five further results are about inputs on which the code does less than one might expect, each with its exact
condition: operator text sliced with byte offsets (`SourceSlices.LogicalOperatorSeen`), repositories that lie
under a skipped name (`Analyzer.RootMatters`), cutoffs written with `Z`
(`Repos.SinceZuluMissesASecond`), appending one audit object twice (`Repos.InMemoryAuditRepo.Append`), and
rewriting the outputs of an earlier run with the same hash (`Outputs.OverwriteWindow`).  The commit pattern's `$`
lets one trailing line feed through; the pre-image is decodable all the same.

The hypotheses of the main theorems can be met: the shipped spec satisfies those on specs
(`Scoring.ShippedSpecIsUnit`), every built record those on records (`RecordHash.BuiltVerifies`), and a loader that
reads canonical bytes back exists (`Outputs.CanBeReadBack`).

## Model

| member | source | states |
|---|---|---|
| `TypeScriptCounter.CountTsFunction` | src/cce/analyzers/builtin.py:145-208 | The explicit-stack loop terminates and returns the tally of the recursive definition: nested functions cut off, `else if` and non-logical binary expressions passed through, nesting capped at 256 |
| `TypeScriptCounter.IsLogicalExpression` | src/cce/analyzers/builtin.py:177-188 | The early-exit search over the children decides whether some operator child has the text of a logical operator |
| `TypeScriptCounter.PushReversed` | src/cce/analyzers/builtin.py:162-163 | Pushing the children right to left puts them on the stack in left-to-right order |
| `TypeScriptCounter.WalkTsFunctions` | src/cce/analyzers/builtin.py:114-142 | The explicit-stack walk measures the functions the recursive walk selects, each once, in preorder, down to tree level 256 |
| `TypeScriptCounter.AnalyseTypeScript` | src/cce/analyzers/builtin.py:81-111 | Blank text and files without functions give cyclomatic 1 and zeros, any other file the maxima over its functions |
| `TypeScriptTheorems.WalkFindsFunctions` | src/cce/analyzers/builtin.py:124-142 | The walk reports exactly the nodes of the six function types at tree level at most 256, in left-to-right preorder, told by paths from the root |
| `TypeScriptTheorems.NodeRule` | src/cce/analyzers/builtin.py:168-206 | What each type of node adds to what is below it, type by type: branches nest it, functions hide it, an `else` with an `if` in it and an operation without a logical operator leave it as it is |
| `TypeScriptTheorems.ElseIfIsFree` | src/cce/analyzers/builtin.py:189-194 | An `else if` costs, in all three metrics, what its `if` costs in the place of the `else`, at any nesting |
| `TypeScriptTheorems.MetricsMeaning` | src/cce/analyzers/builtin.py:195-208 | A function's three metrics come from one list of branch sites: their number plus one, the sum of one more than each nesting, and the deepest nesting |
| `TypeScriptTheorems.ChargedToInnermost` | src/cce/analyzers/builtin.py:168-174 | A branch charged to a function has that function as its innermost one |
| `TypeScriptTheorems.ChargedOnce` | src/cce/analyzers/builtin.py:114-208 | No branch is charged twice, neither to one function nor to two |
| `TypeScriptTheorems.Conservation` | src/cce/analyzers/builtin.py:114-208 | Over the functions found, the sum of cyclomatic - 1 is the number of branches inside functions, less those beyond the two caps |
| `TypeScriptTheorems.NothingUncharged` | src/cce/analyzers/builtin.py:139-140 | In a tree no deeper than 256 the caps cost nothing, so conservation is exact |
| `TypeScriptTheorems.MeasureGeometry` | src/cce/analyzers/builtin.py:195-208 | d(d+1)/2 <= cognitive <= (cyclomatic - 1) * max(1, d) for every TypeScript function, with nesting d <= 256 |
| `TypeScriptTheorems.FileObeysGeometry` | src/cce/analyzers/builtin.py:81-111 | Both inequalities hold of whatever the analysis of a TypeScript file returns, and its cyclomatic metric is at least 1 |
| `Tally.OfDepthsMeaning` | src/cce/analyzers/builtin.py:196-200 | The accumulated numbers of a list of branches are its length, the sum of the costs and the deepest nesting, and the deepest is attained |
| `Trees.WalkMeaning` | src/cce/analyzers/builtin.py:124-142 | Any such walk reports exactly the nodes it may reach, all of them, in preorder |
| `Counting.ReachesMeaning` | src/cce/analyzers/builtin.py:165-206 | A counted site told without recursion: nothing on the way stops the count, the cap is not met, and the nesting is the number of counted nodes above |
| `Counting.ReachesWhen` | src/cce/analyzers/builtin.py:165-206 | The converse: every such node is counted, with that nesting |
| `FileMetrics.MaximaMeaning` | src/cce/analyzers/builtin.py:105-111 | Each file metric bounds that metric of every function, and some function attains it |
| `FileMetrics.MaximaGeometry` | src/cce/analyzers/builtin.py:105-111 | Both inequalities survive taking each maximum on its own |
| `SourceSlices.SpansAreSlicedWhen` | src/cce/analyzers/builtin.py:181 | Every span of characters, token or not, is sliced as written exactly when no character but the last lies outside ASCII |
| `SourceSlices.OperatorsAfterDrift` | src/cce/analyzers/builtin.py:179-186 | Any ASCII token, anywhere in any source, is taken for a logical operator exactly when one is written where its slice has drifted to: further on by the extra bytes of the characters before it |
| `SourceSlices.LogicalOperatorSeen` | src/cce/analyzers/builtin.py:179-186 | A logical operator is recognised if and only if a logical operator is written that drift further on |
| `SourceSlices.OperatorsByText` | src/cce/analyzers/builtin.py:179-186 | With nothing but ASCII before it a token is recognised by its own text, whatever comes after |
| `SourceSlices.MetricsByToken` | src/cce/analyzers/builtin.py:145-208 | In every tree whose operators lie in the source's ASCII beginning, every function has the metrics its tokens give it, whatever characters come after |
| `SourceSlices.FileByToken` | src/cce/analyzers/builtin.py:81-111 | And so has the file |
| `SourceSlices.AccentHidesOperator` | src/cce/analyzers/builtin.py:181-182 | A concrete source in which one accented letter before it hides a logical operator |
| `SourceSlices.AccentLosesABranch` | src/cce/analyzers/builtin.py:177-204 | Two arrow functions that differ in that letter alone have cyclomatic 2 and 1 |
| `PythonCounter.FunctionCounter.GenericVisit` | src/cce/analyzers/builtin.py:252-265 | The mutable visitor adds the compositional tally of the subtree at its current depth and restores `depth` |
| `PythonCounter.FunctionCounter.VisitChildren` | src/cce/analyzers/builtin.py:258 | Visiting the children in order adds their tallies and restores `depth` |
| `PythonCounter.MetricVisitor.RecordFunction` | src/cce/analyzers/builtin.py:224-231 | Each list and the running maximum gain the measurement of this one function |
| `PythonCounter.MetricVisitor.Visit` | src/cce/analyzers/builtin.py:211-231 | The outer visitor records exactly the outermost functions at and below the node, in preorder |
| `PythonCounter.AnalysePython` | src/cce/analyzers/builtin.py:64-78 | A file that parses scores the maxima over its recorded functions, or zeros when it has none; one that does not is an error |
| `PythonCounter.VisitFindsOutermost` | src/cce/analyzers/builtin.py:218-222 | The recorded functions are exactly the nodes of the two function types inside no other, in preorder, told by paths |
| `PythonCounter.MetricsMeaning` | src/cce/analyzers/builtin.py:252-265 | cyclomatic = 1 + branches + boolean extras, cognitive = sum of 1 + enclosing branches + boolean extras, nesting = most branches on a path; the extras and the boolean operations together are their operands |
| `PythonCounter.NodeRule` | src/cce/analyzers/builtin.py:234-265 | What each type of node adds to what is below it, type by type |
| `PythonCounter.ExtrasAreOperands` | src/cce/analyzers/builtin.py:261-264 | Below any node, what boolean operations add and the number of operations come to the number of operands |
| `PythonCounter.MeasureGeometry` | src/cce/analyzers/builtin.py:252-265 | The two inequalities for one Python function |
| `PythonCounter.FileObeysGeometry` | src/cce/analyzers/builtin.py:72-78 | For a Python file the lower bound always holds, the upper one exactly when the cyclomatic metric is not zero |
| `Analyzer.IterSourceFiles` | src/cce/analyzer.py:186-193 | The walk keeps exactly the files with a source suffix under none of the seven skipped names, in the order of the code points of their relative paths |
| `Analyzer.MeasureMetrics` | src/cce/analyzer.py:132-161 | Fails exactly when some file cannot be analysed; otherwise reports every file, its length set, and the summary |
| `Analyzer.SummaryIsLeastBound` | src/cce/analyzer.py:144-147 | The summary is the least common upper bound of every file's metrics and zero |
| `Analyzer.OrderIndependent` | src/cce/analyzer.py:186-193 | Any two listings of one tree, in any order, give the same files in the same order and so the same report |
| `Analyzer.RawIsGreatest` | src/cce/analyzer.py:132-149 | Each raw metric is, as number and as numeral, the greatest value over the files of the metric of that name, the file length being the number of lines |
| `Analyzer.SourceUnderRoot` | src/cce/analyzer.py:188-192 | The skipped names are looked for in the whole absolute path: an entry is a source by its path below the repository, in a repository that is under none of them |
| `Analyzer.RootMatters` | src/cce/analyzer.py:188-192 | The path below the repository alone decides for all entries if and only if the repository's own path has no skipped name in it |
| `Analyzer.NothingUnderSkipped` | src/cce/analyzer.py:186-193 | Under a skipped name no file of the repository is a source |
| `Analyzer.MoreFilesMore` | src/cce/analyzer.py:144-147 | More files, in any order, never lower any summary metric |
| `Analyzer.MoreFilesScoreMore` | src/cce/analyzer.py:144-149 | Adding analysable files never lowers the final score, through summary, raw metrics, normalisation, rounding and quantizing, as long as both repositories have one |
| `Analyzer.MoreFilesUnitScoreMore` | src/cce/analyzer.py:144-149 | Under a spec in [0, 1] both always do |
| `Analyzer.SummaryGeometry` | src/cce/analyzer.py:144-147 | The metric inequalities survive the repository's maxima for every backend whose results obey them: the lower always, the upper exactly when the cyclomatic summary is not zero |
| `BuiltInBackends.CountersObey` | src/cce/analyzers/builtin.py:64-111 | Both built-in backends obey them, for whatever tree the parser returns; cyclomatic is at least 1 exactly for TypeScript files and Python files with a function |
| `BuiltInBackends.WithoutFunctions` | src/cce/analyzers/builtin.py:64-111 | A blank TypeScript file or one without functions counts as one plain function, a Python file without functions as none; only Python text that does not parse is an error |
| `BuiltInBackends.RepositoryGeometry` | src/cce/analyzer.py:132-147 | From the counters to the summary of any repository: the lower bound always, the upper one exactly when some file is TypeScript or has a function |
| `Ordering.AscendingUnique` | src/cce/analyzer.py:193 | An ascending arrangement of given elements is unique |
| `Ordering.SortForgetsOrder` | src/cce/analyzer.py:193 | Sorting by distinct keys forgets the original order |
| `Ordering.SortInOrder` | src/cce/analyzer.py:193 | Sorting puts any elements in order, equal keys or not |
| `Ordering.LessAtDifference` | src/cce/analyzer.py:193 | One text comes before another when it has the smaller code point where they first differ, or ends there |
| `Decimal.RoundMonotone` | src/cce/scoring.py:13-14 | Half-even rounding to 28 significant digits is monotone over all numbers |
| `Decimal.RoundExact` | src/cce/scoring.py:131-136 | It is exact on every number of at most 28 digits, whatever the exponent |
| `Decimal.RoundIdempotent` | src/cce/scoring.py:131-136 | Every rounded number has at most 28 digits, so that rounding it again changes nothing |
| `Decimal.RoundError` | src/cce/scoring.py:131-136 | Every operation's relative error is at most half a unit in the 28th digit |
| `Decimal.HalfEvenIsNearest` | src/cce/scoring.py:14 | Nearest, ties to even, determines the rounding |
| `Decimal.QuantizeMonotone` | src/cce/scoring.py:139-140 | quantize is monotone where it succeeds, and succeeds between two successes |
| `Decimal.QuantizeIdempotent` | src/cce/scoring.py:153-155 | Quantizing again changes nothing |
| `Decimal.QuantizeUnit` | src/cce/scoring.py:139-140 | Zero and one survive quantize whenever one fits in 28 digits |
| `DecimalText.FixedPointRoundTrip` | src/cce/scoring.py:153-155 | The printed score can be read back: digits give the coefficient and the point stands `places` from the right |
| `DecimalText.NumeralIsRead` | src/cce/analyzer.py:149 | A numeral has no needless leading zero and can be read off the front of a text |
| `DecimalText.NoLeadingZero` | src/cce/analyzer.py:149 | No numeral of more than one digit begins with a zero |
| `ScoringSpec.ParseWeights` | src/cce/spec.py:101-115 | Accepts exactly the mappings whose five weights are quoted numbers with rounded total one |
| `ScoringSpec.ParseDecimalTuple` | src/cce/spec.py:142-150 | Accepts exactly non-empty lists of quoted numbers, and keeps their values in order |
| `ScoringSpec.ParseNormalisation` | src/cce/spec.py:118-139 | Accepts exactly when every metric has ascending cuts and one more value than cuts |
| `ScoringSpec.LoadsWhen` | src/cce/spec.py:118-150 | A rule is kept exactly when both lists hold quoted numbers, there is a cut, one more value than cuts, and no cut is below the one before it; repeated cuts are kept |
| `Normalise.NormaliseMetric` | src/cce/scoring.py:23-47 | The search loop returns the quantized blend at the first cut not below the value; no division by zero even with repeated cuts |
| `Normalise.FirstCut` | src/cce/scoring.py:33-38 | The first cut at or above the value: every earlier one is below it |
| `Normalise.BlendMonotone` | src/cce/scoring.py:33-47 | Before quantizing: monotone inside each segment, across segments and over the final jump, every operation rounded |
| `Normalise.NormalisedMonotone` | src/cce/scoring.py:23-47 | The normalised value is monotone in the raw one, lies between the first and last quantized values, and exists whenever those do |
| `Normalise.ScaledIntegersAreShort` | src/cce/spec.py:142-150 | A condition on a rule's text that makes its values and their differences exact in 28 digits |
| `Normalise.InterpolateError` | src/cce/scoring.py:39-44 | The rounded interpolation differs from the exact line by at most (5 * height of the segment + magnitude of its ends) half-units in the 28th digit, for segments in any range |
| `Normalise.BlendError` | src/cce/scoring.py:33-47 | The same for a whole rule and every value, whichever branch it takes and whatever range the rule spans |
| `Normalise.UnitBlendError` | src/cce/scoring.py:33-47 | Six half-units, and a result in [0, 1], for a rule with values in [0, 1] |
| `Scoring.ScoreMetrics` | src/cce/scoring.py:50-70 | Fails exactly on a missing or unusable metric or an impossible quantize; otherwise returns the specified records and score |
| `Scoring.MetricTexts` | src/cce/scoring.py:59-68 | For each of the five metrics the record holds its raw text, and a text that reads as its normalised value |
| `Scoring.ScoreReads` | src/cce/scoring.py:153-155 | The printed score reads as the quantized score |
| `Scoring.ScoreInUnit` | src/cce/scoring.py:50-70 | Under a spec with non-negative weights summing to one and values in [0, 1], scoring succeeds and the score is in [0, 1] |
| `Scoring.ScoreMonotone` | src/cce/scoring.py:59-70 | Raising any raw metric never lowers the score, whatever the roundings do and whatever range the normalised values span, as long as there are two scores to compare |
| `Scoring.UnitScoreMonotone` | src/cce/scoring.py:59-70 | Under a spec in [0, 1] there always are |
| `Scoring.ScoreError` | src/cce/scoring.py:59-70 | The score is within 10^-decimal_places of the unrounded blend, plus 29 half-units in the 28th digit for all intermediate roundings |
| `Scoring.ScoreErrorExactIntermediates` | src/cce/scoring.py:59-70 | With exact intermediates the bound is 10^-decimal_places |
| `Scoring.PartialScoreBounds` | src/cce/scoring.py:64 | The running score never passes the running total of the weights, roundings included |
| `Scoring.ShippedSpecIsUnit` | scoring-spec.yaml:6-58 | The shipped spec meets every assumption of the range, order and error theorems |
| `Json.TextIsRead` | src/cce/canonical.py:8-10 | A reader of JSON without white space, written from RFC 8259, reads what is written as the value it was written for, and leaves what follows it |
| `Json.EscapeIsShortest` | src/cce/canonical.py:8-10 | Nothing shorter than the escape that is written reads as its character, and hexadecimal letters are small (section 3.2.2.2 of RFC 8785) |
| `Json.TextUnique` | src/cce/canonical.py:8-10 | So a serialised value can be told from what follows it, and different serialisations never run together |
| `JsonMeaning.CanonicalForm` | src/cce/canonical.py:8-10 | The canonical form of a value is the one value equal to it, up to the order of members, whose members ascend by the UTF-16 code units of their names at every level (section 3.2.3 of RFC 8785) |
| `JsonMeaning.CanonicalIsRead` | src/cce/canonical.py:8-10 | Canonical bytes are UTF-8 of a text that reads as the value serialised, with its members in that order |
| `JsonMeaning.CanonicalBytes` | src/cce/canonical.py:8-10 | Canonical bytes are equal exactly when the values are equal up to dictionary insertion order |
| `Utf8.EncodeInjective` | src/cce/scoring.py:108-109 | Different texts have different UTF-8 encodings |
| `Utf8.EncodeCharTable` | src/cce/canonical.py:8-14 | The bytes of each character: the first tells how many there are, each other holds six more bits |
| `Utf8.DecodeInverse` | src/cce/cli.py:257 | Strict decoding accepts exactly the encodings and undoes them |
| `Utf8.UnitsMean` | src/cce/canonical.py:8-10 | A character beyond the first 65536 is a high and a low surrogate, whose payloads give it back |
| `Utf8.Utf16Concat` | src/cce/canonical.py:8-10 | A text's code units are those of its characters, in their order |
| `RecordHash.ComputeRecordHash` | src/cce/scoring.py:106-112 | Succeeds exactly when both texts and both members are present, and hashes their concatenation |
| `RecordHash.VerifyRecordHash` | src/cce/scoring.py:115-128 | Every outcome: False, an error, or whether the recomputed hash is the recorded one |
| `RecordHash.CommitsAccepted` | src/cce/scoring.py:84-85 | A commit passes exactly when it is 40 digits out of 0-9 and a-f, or these and a line feed |
| `RecordHash.BuildScoreRecord` | src/cce/scoring.py:73-103 | Rejects bad modes and commits first; succeeds exactly when scoring does, with the specified record |
| `RecordHash.HashIgnoresOrder` | src/cce/scoring.py:106-112 | Two records equal as nested dictionaries have the same pre-image and verify alike, whatever the insertion order |
| `RecordHash.PreImageDecodable` | src/cce/scoring.py:108-111 | Equal pre-images if and only if all four hashed fields are equal |
| `RecordHash.BuiltVerifies` | src/cce/scoring.py:82-103 | Every built record has the hashed shape, verifies, and hashes only spec hash, commit, the texts under the metrics' names and the digests under the tools' names |
| `RecordHash.RecordFields` | src/cce/scoring.py:88-102 | The thirteen fields of a built record hold what they are named after, its own hash included, as any reader of the dictionary finds them: each metric's texts under its name and each tool's digest under its name |
| `RecordHash.DigestFields` | src/cce/scoring.py:97 | Under each tool's name lies that tool's digest, and nothing else is recorded |
| `RecordHash.MetricFields` | src/cce/scoring.py:65-68 | Under the names cyclomatic, cognitive, nesting_depth, function_length and file_length, and no other, lie the two texts of each, each under its own name |
| `RecordHash.MetricsReadBack` | src/cce/scoring.py:65-68 | The metric texts can be read back from the hashed dictionary |
| `RecordHash.HashPinsRecord` | src/cce/scoring.py:82-112 | Two built records have one pre-image exactly when spec hash, commit, every metric text and the pairs of tools and digests agree, whatever the rest; with the same hash they do, unless SHA-256 collides |
| `TokenBucket.AccruedIsRate` | src/cce_service/rate_limit.py:59-63 | What comes in over a span is the rate times the span |
| `TokenBucket.TokensAreLeastLeft` | src/cce_service/rate_limit.py:59-63 | After refilling, the tokens are the least, over earlier requests j, of capacity + rate * (now - t_j) - accepted since j |
| `TokenBucket.AnswerIsExact` | src/cce_service/rate_limit.py:65-68 | A request is admitted exactly when, in every window ending now, one more acceptance stays within capacity + rate * length |
| `TokenBucket.BucketRespects` | src/cce_service/rate_limit.py:55-68 | In every span of time at most capacity + rate * length requests are accepted |
| `TokenBucket.BucketIsOptimal` | src/cce_service/rate_limit.py:55-68 | No other way of answering that respects the rate has accepted more after any number of requests |
| `TokenBucket.GrantedAfterWait` | src/cce_service/rate_limit.py:59-68 | However drained, a bucket left alone for 1/rate seconds says yes |
| `RateLimiter.Bucket.Take` | src/cce_service/rate_limit.py:58-68 | Refilling and taking in place is one step of the bucket's specification |
| `RateLimiter.RateLimiter.GetBucket` | src/cce_service/rate_limit.py:41-53 | Finds the key's bucket or creates a full one, and leaves the others alone |
| `RateLimiter.RateLimiter.Allow` | src/cce_service/rate_limit.py:55-68 | Answers as the key's own bucket would and changes no other |
| `RateLimiter.OwnRequestsOnly` | src/cce_service/rate_limit.py:41-68 | A key's bucket depends on nothing but its own requests, in any run over any keys |
| `RateLimiter.AllowIsExact` | src/cce_service/rate_limit.py:55-68 | In any run over any keys, `allow` is True exactly when one more acceptance in every window of that key ending now stays within capacity + rate * length |
| `RateLimiter.NamedRates` | src/cce_service/rate_limit.py:31-45 | With capacity 10 and rate 5 for "score", 100 and 50 for "records", 20 and 10 for any other name |
| `RateLimiter.NamedLimits` | src/cce_service/rate_limit.py:31-68 | In any run and any span a "score" key is granted at most 10 + 5 * length, a "records" key 100 + 50 * length, any other 20 + 10 * length |
| `RateLimiter.AllowedAfterWait` | src/cce_service/rate_limit.py:55-68 | In any run over any keys, a key left alone for 1/rate seconds is granted its next request, and its first is granted too |
| `RateLimiter.RunIsOptimal` | src/cce_service/rate_limit.py:55-68 | In any run over any keys, what one key is granted respects its rate and is the most any such answering grants, at every prefix |
| `CircuitBreaker.CircuitBreaker.MaybeTransition` | src/cce_service/circuit_breaker.py:109-115 | Open turns half open exactly when the timeout has passed since the last failure |
| `CircuitBreaker.CircuitBreaker.Enter` | src/cce_service/circuit_breaker.py:73-78 | The first locked section: the new state, and whether the call is admitted |
| `CircuitBreaker.CircuitBreaker.RecordFailure` | src/cce_service/circuit_breaker.py:83-98 | The second locked section: the failure is counted and may open the breaker |
| `CircuitBreaker.CircuitBreaker.RecordSuccess` | src/cce_service/circuit_breaker.py:99-107 | The third locked section: only a half-open breaker is closed and reset |
| `CircuitBreaker.PhaseIsCount` | src/cce_service/circuit_breaker.py:73-107 | Under every interleaving of any number of calls: closed exactly while the count is below the threshold, and the count is the failures since the last close |
| `CircuitBreaker.ThresholdAtLeastOne` | src/cce_service/circuit_breaker.py:87-91 | That correspondence holds in all runs if and only if the threshold is at least one |
| `CircuitBreaker.OpenAdmitsAfterTimeout` | src/cce_service/circuit_breaker.py:109-115 | An open breaker admits a call exactly when the timeout has passed since every recorded failure |
| `CircuitBreaker.HalfOpenAdmitsAll` | src/cce_service/circuit_breaker.py:73-78 | While half open every caller is admitted, not one trial call |
| `CircuitBreaker.HalfOpenReached` | src/cce_service/circuit_breaker.py:109-115 | Every breaker with a threshold of at least one can be brought to half open |
| `DocumentedBreaker.DocumentedUntilIgnored` | src/cce_service/circuit_breaker.py:99-107 | Up to the first success recorded while closed with failures counted, the code is the documented breaker; an event is such a success if and only if some further failures after it put the two in different phases |
| `DocumentedBreaker.AgreeUnlessIgnored` | src/cce_service/circuit_breaker.py:3-6 | On every run without such a success the two breakers agree in every field |
| `DocumentedBreaker.ClosedCountsConsecutive` | src/cce_service/circuit_breaker.py:3 | The documented breaker, while closed, counts exactly the failures since the last success, fewer than the threshold, so that it opens with the failure that completes them |
| `DocumentedBreaker.DocumentedWhen` | src/cce_service/circuit_breaker.py:83-107 | Code and documentation agree on the phase in every run if and only if the threshold is one |
| `DocumentedBreaker.NotConsecutive` | src/cce_service/circuit_breaker.py:99-107 | For every larger threshold, a run that opens the code's breaker on fewer consecutive failures than the threshold |
| `CircuitBreaker.HalfOpenUnseen` | src/cce_service/circuit_breaker.py:73-107 | With one caller at a time, half open is never seen between calls |
| `CircuitBreaker.TornDownTrial` | src/cce_service/circuit_breaker.py:73-115 | Half open lasts unchanged, and admits every caller, over any number of calls asked for and torn down by something that is not an Exception |
| `CircuitBreaker.OutcomeEndsHalfOpen` | src/cce_service/circuit_breaker.py:83-107 | The first outcome recorded ends half open: a success closes and resets, a failure opens again from its own time |
| `Trials.NamesDoNotMatter` | src/cce_service/circuit_breaker.py:66-107 | Telling the calls in flight apart leaves the breaker, and their number, as in the theorems above |
| `Trials.ClosingCallIsTrial` | src/cce_service/circuit_breaker.py:99-103 | When the breaker is open, its next close is sure to come from a call that half open admitted, over all continuations, if and only if no call admitted while closed is in flight |
| `Trials.FirstOpening` | src/cce_service/circuit_breaker.py:83-91 | When it first opens, that condition is that no call is in flight at all |
| `Timestamps.IsoOrderIsTimeOrder` | src/cce_service/storage/repos.py:95 | Comparing the isoformat texts of two UTC timestamps, with or without microseconds, compares their instants |
| `Timestamps.IsoFormatReads` | src/cce_service/storage/repos.py:95 | What isoformat writes, place by place: numerals of fixed width, the characters between them, a fraction only when there are microseconds, and +00:00 |
| `Timestamps.ZuluReads` | src/cce_service/storage/repos.py:95 | The same for a cutoff written with Z |
| `Timestamps.YearsElapsed` | src/cce_service/storage/repos.py:95 | The days before a year are those of the Gregorian calendar |
| `Timestamps.MonthsElapsed` | src/cce_service/storage/repos.py:95 | So are the days before a month |
| `Timestamps.ZuluCutoff` | src/cce_service/storage/repos.py:95 | Against a cutoff written with Z: not before it are exactly the events after its instant, and for one without a fraction those at least a second after |
| `Repos.InMemoryQueue.Get` | src/cce_service/workers/consumer.py:52-56 | First in, first out; None when empty |
| `Repos.InMemoryQueue.Put` | src/cce_service/workers/consumer.py:49-50 | Appends at the back |
| `Repos.InMemoryJobRepo.Create` | src/cce_service/storage/repos.py:45-48 | Stores the job under its identifier |
| `Repos.InMemoryJobRepo.Update` | src/cce_service/storage/repos.py:54-59 | Replaces a known job; an unknown one is an error and changes nothing |
| `Repos.InMemoryRecordRepo.Upsert` | src/cce_service/storage/repos.py:71-73 | The record is stored under its hash, over any earlier one |
| `Repos.InMemoryAuditRepo.Append` | src/cce_service/storage/repos.py:86-91 | Numbers and appends; identifiers stay increasing exactly when the object is not in the list already |
| `Repos.InMemoryAuditRepo.Since` | src/cce_service/storage/repos.py:93-98 | The two filters return the matching events in their order |
| `Repos.SinceMember` | src/cce_service/storage/repos.py:93-98 | An event is returned exactly when it is in the log, its text is not below the cutoff and its tenant matches |
| `Repos.SinceIncreasing` | src/cce_service/storage/repos.py:93-98 | Strictly increasing identifiers in, strictly increasing identifiers out |
| `Repos.SinceIsChronological` | src/cce_service/storage/repos.py:93-98 | For a cutoff given as an isoformat text: exactly the tenant's events at or after that instant, in strictly increasing id order |
| `Repos.SinceZuluMissesASecond` | src/cce_service/storage/repos.py:95 | For any cutoff written with Z: the events of its own instant are missed, and without a fraction those of its whole second |
| `Retry.RetryOnTransientError` | src/cce_service/retry.py:44-74 | The attempt loop returns the specified outcome and number of calls, and sleeps the capped exponential delays between attempts |
| `Retry.AttemptsMeaning` | src/cce_service/retry.py:46-74 | One to n dispatches, all but the last transient failures; exhaustion exactly when the n-th is one too; a DispatchError never comes out |
| `Retry.DelaysDouble` | src/cce_service/retry.py:62 | The first delay is the base and each next one twice the last, as far as the cap allows |
| `Consumer.JobConsumer.constructor` | src/cce_service/workers/consumer.py:65-84 | Shares the stores given; without a breaker it makes one with threshold 5 and timeout 30 |
| `Consumer.JobConsumer.MarkRunning` | src/cce_service/workers/consumer.py:98-100 | The job is RUNNING in the store; an unknown job raises and leaves the stores as they were |
| `Consumer.JobConsumer.Dispatch` | src/cce_service/workers/consumer.py:101-109 | Breaker, retries and dispatcher composed: new breaker state, calls made, what is returned or raised, and one second slept before the second attempt and two before the third |
| `Consumer.JobConsumer.Process` | src/cce_service/workers/consumer.py:96-188 | The whole method, object updates and all, is the specified step on queue, stores, audits and breaker; what tears a dispatch down escapes it, past every handler |
| `Consumer.JobConsumer.RunOnce` | src/cce_service/workers/consumer.py:86-94 | One run of the consumer is one step of the model the theorems below are about, and something escapes exactly when that step tears a dispatch down |
| `Consumer.Submit` | src/cce_service/api/service.py:175-194 | Creating, reporting and queueing a job is the submission step of that model |
| `ConsumerRuns.ApplySettles` | src/cce_service/workers/consumer.py:86-188 | Each step keeps: every job is in the queue exactly once, terminal, or had its dispatch torn down, and only one of these |
| `ConsumerRuns.RunSettles` | src/cce_service/workers/consumer.py:86-188 | The same of every stored job over every run in which each job is submitted once, with exactly the jobs whose dispatch was torn down |
| `ConsumerRuns.NoJobIsLost` | src/cce_service/workers/consumer.py:86-188 | With a dispatcher that raises nothing but Exceptions, every job is in the queue exactly once or terminal, never both |
| `ConsumerRuns.SubmittedStays` | src/cce_service/workers/consumer.py:86-188 | A job once submitted stays stored through every continuation, as exactly one of the three |
| `ConsumerRuns.SubmittedAreStored` | src/cce_service/workers/consumer.py:86-188 | After every run as many jobs are stored as were submitted |
| `ConsumerRuns.RunAddsUp` | src/cce_service/workers/consumer.py:86-188 | After every run: submissions = queued + SUCCEEDED + FAILED + torn down |
| `ConsumerRuns.JobsAddUp` | src/cce_service/workers/consumer.py:86-188 | In any state where every stored job is one of the three, the stored jobs are counted by them |
| `ConsumerSteps.RunOnceTold` | src/cce_service/workers/consumer.py:96-188 | What one run does, told by the first of at most three dispatches that raises no DispatchError: calls made, queue, job, stored record and audit event, field by field |
| `ConsumerSteps.RefusedTold` | src/cce_service/workers/consumer.py:110-116 | A run that the breaker refuses puts the job at the back of the queue, RUNNING and with that error, and does nothing else |
| `ConsumerSteps.SucceedsWithinThree` | src/cce_service/workers/consumer.py:101-135 | A dispatched job succeeds if and only if one of three dispatches returns and those before it raise DispatchErrors; the retries are exhausted if and only if all three do, and then three were made |
| `ConsumerSteps.SubmitTold` | src/cce_service/api/service.py:175-194 | What a submission stores, queues and logs, field by field |
| `ConsumerSteps.LogIsTrue` | src/cce_service/workers/consumer.py:117-188 | After every run each audit event carries its job's tenant and says of it what is so: what it was submitted with, the hash it succeeded with, or the error it failed with |
| `ConsumerLedger.TerminalIsForGood` | src/cce_service/workers/consumer.py:96-188 | A job that is terminal after a run is unchanged after every continuation of that run |
| `ConsumerLedger.DispatchesPerJob` | src/cce_service/workers/consumer.py:101-116 | A job taken costs 0 to 3 dispatches, 0 exactly when the breaker refuses it; when it goes back to the queue, RUNNING; the DispatchError branch is never reached |
| `ConsumerLedger.StepJob` | src/cce_service/workers/consumer.py:96-188 | A step changes at most the one job it takes, and leaves it with the status its outcome calls for |
| `ConsumerLedger.AccountsBalance` | src/cce_service/workers/consumer.py:86-188 | After every run: one score.succeeded event per succeeded job and a record under its hash, every stored record some succeeded job's with its tenant, commit and score, score.failed events exactly for exhausted jobs, breaker failures = FAILED jobs + requeues raised by the dispatcher itself, and the breaker has seen one complete call at a time |
| `ConsumerLedger.FailuresAreFailedJobs` | src/cce_service/workers/consumer.py:101-160 | With a dispatcher that does not itself raise CircuitBreakerOpenError, breaker failures = FAILED jobs |
| `ConsumerLedger.RequeuedCostsNothing` | src/cce_service/workers/consumer.py:110-116 | With such a dispatcher a job is requeued exactly when it cost no dispatch |
| `ConsumerLedger.BreakerNeverHalfOpen` | src/cce_service/workers/consumer.py:86-109 | Between steps of a single consumer its breaker is never half open, as long as no dispatch has been torn down |
| `ConsumerLedger.HalfOpenAfterDispatch` | src/cce_service/workers/consumer.py:86-109 | After any run, a dispatch leaves the breaker half open if and only if half open admitted it and it was torn down |
| `BodyLimit.Limiter.LimitedReceive` | src/cce_service/api/app.py:119-126 | The flags after a message from the host |
| `BodyLimit.Limiter.GuardedSend` | src/cce_service/api/app.py:130-150 | What one message of the inner application puts on the wire, and the flags after it |
| `BodyLimit.Limiter.Run` | src/cce_service/api/app.py:116-186 | For every inner trace and ending: the client gets exactly the specified output; an Exception escapes exactly when the limit was not crossed, and anything else that ends the inner application always does, with no response made up |
| `BodyLimit.Call` | src/cce_service/api/app.py:87-114 | Other scopes pass through; an unparsable or too large content-length is answered at once; otherwise the trace decides |
| `BodyLimit.CutCrosses` | src/cce_service/api/app.py:122-125 | The crossing is the one receive that takes the total over the limit |
| `BodyLimit.FlagsMean` | src/cce_service/api/app.py:116-133 | The three flags told from the trace: bytes handed over, whether they exceed the limit, whether a start was sent |
| `BodyLimit.StartsReachingClient` | src/cce_service/api/app.py:130-186 | The client gets as many response starts as the inner application sends, or one if it sends none and the limit was crossed |
| `BodyLimit.RelayedStarts` | src/cce_service/api/app.py:130-150 | Without the final step, as when the inner application is torn down, the client gets exactly as many starts as were sent |
| `BodyLimit.NeverCrossed` | src/cce_service/api/app.py:130-154 | If the limit is never crossed the output is what the inner application sent |
| `BodyLimit.RelayedAroundCut` | src/cce_service/api/app.py:130-150 | What was sent before the crossing goes through; after it starts become 413s and bodies vanish |
| `BodyLimit.CrossedAfterStart` | src/cce_service/api/app.py:130-186 | Crossed after the response started: the output is what was sent before, and of the rest only messages that are neither starts nor bodies, if and only if no further start is sent |
| `BodyLimit.CrossedBeforeStart` | src/cce_service/api/app.py:130-186 | Crossed before any start: the output is one complete 413 if and only if the inner application starts at most once, had sent nothing, and sends nothing but bodies besides |
| `BodyLimit.TooLargeIsComplete` | src/cce_service/api/app.py:34-50 | The 413 is a start with content type and the length of the body, and that one final body, JSON that names the limit |
| `BodyLimit.BadLengthIsComplete` | src/cce_service/api/app.py:94-102 | So is the 400, with its own detail |
| `Sidecars.TmpIsAppended` | src/cce/cli.py:392 | Whatever the name, its temporary name is the name and ".tmp" |
| `Sidecars.PrintedParses` | src/cce/cli.py:274-280 | How a printed sidecar line is read, for any file name |
| `Sidecars.PrintedIsRead` | src/cce/cli.py:274-284 | A printed sidecar is read back as its digest and name if and only if the name is not empty, has no white space at either end and no leading star |
| `Sidecars.LegacyIsRead` | src/cce/cli.py:267-272 | The legacy form, "sha256:" and a digest, is read as that digest and the record that shares the sidecar's stem |
| `Sidecars.CapitalsAreRead` | src/cce/cli.py:282-295 | A digest shown in capitals is read as the same digest |
| `Sidecars.LineEndsAreRead` | src/cce/cli.py:257 | Line ends of other systems are read as line feeds |
| `Outputs.Disk.WriteBytes` | src/cce/cli.py:394 | Not atomic: every state passed through, and the one it stops in, holds a prefix of the bytes |
| `Outputs.Disk.AtomicWrite` | src/cce/cli.py:391-408 | Seen without the temporary file, the directory moves from the old to the new content in one step, exactly when no error is raised |
| `Outputs.WriteOutputs` | src/cce/cli.py:372-388 | Whatever fails and wherever it stops, every state passed through has the first 0 to 3 files complete and all else unchanged; success leaves the record under hash.json, the raw measurements under hash.raw.json, digest and name under hash.sha256, and no temporary file |
| `Outputs.VerifySidecar` | src/cce/cli.py:255-307 | Accepts exactly the sidecars whose target has the claimed digest and holds a record that verifies; every exception that escapes is characterised |
| `Outputs.HoldsMeans` | src/cce/cli.py:255-307 | A sidecar holds exactly when it is text that claims a digest for a file which has it, and which is a record whose own hash is that of its four hashed fields |
| `Outputs.CanBeReadBack` | src/cce/canonical.py:8-10 | A loader that undoes canonical serialisation exists |
| `Outputs.HoldsWhenDigestsAgree` | src/cce/cli.py:274-307 | Where a sound record and a printed sidecar are in place, verification accepts exactly when the sidecar carries that record's digest |
| `Outputs.LegacyHolds` | src/cce/cli.py:267-307 | A sidecar in the legacy form holds exactly when it carries the digest of the record that shares its name |
| `Outputs.CrashSafe` | src/cce/cli.py:372-408 | At any point of a run that starts without a sidecar for its hash no final file is partial, and a present sidecar verifies and implies complete record and raw files |
| `Outputs.CompletedVerifies` | src/cce/cli.py:255-307 | After completion the sidecar verifies, whatever was there before |
| `Outputs.OverwriteWindow` | src/cce/cli.py:386-388 | Over earlier outputs with the same hash: between the record and the sidecar, verification accepts if and only if old and new record have the same digest |
| `Outputs.RerunsDiffer` | src/cce/scoring.py:88-103 | Two runs at different times give records with the same hash, hence file names, and different bytes |

## Left out

- Decimal.RoundMonotone: the exponent limits of the decimal context, signed zeros, infinities and NaN are not modelled.
- Scoring.ScoreMonotone: assumes what the loader does not check, non-negative weights and normalised values that ascend and, with their differences, have at most 28 digits; the shipped spec satisfies it.
- Normalise.NormalisedMonotone: assumes normalised values that ascend and, with their differences, have at most 28 digits.
- ScoringSpec.ParseWeights: YAML text is not parsed; a scalar is a quoted number, quoted text that is no number, or something else.
- Scoring.ScoreError: the numbers of half-units are bounds, not the least ones.
- TypeScriptCounter.CountTsFunction: `skip_branch` is always False in the source and is dropped; trees come from the parser, which is not modelled.
- SourceSlices.LogicalOperatorSeen: tokens are given by character positions; the grammar of the language is not modelled.
- PythonCounter.FunctionCounter.GenericVisit: the interpreter's recursion limit is not modelled.
- Analyzer.IterSourceFiles: the file system's listing is the input; symbolic links and unreadable files are not modelled.
- RateLimiter.RateLimiter.Allow: binary floating point is replaced by reals, so rounding in the refill is not modelled.
- TokenBucket.BucketIsOptimal: the clock is monotonic, as `time.monotonic` read under the lock is.
- CircuitBreaker.CircuitBreaker.Enter: a locked section is one atomic step; times are reals.
- Consumer.JobConsumer.Process: `updated_at`, logging and metrics counters are not modelled, and the stores do not fail.
- ConsumerLedger.AccountsBalance: one consumer; consumers sharing a queue, and the Redis source, are not modelled.
- Consumer.Submit: authorisation, rate check and request validation come before and are not modelled.
- Retry.RetryOnTransientError: sleeping is recorded, not timed; jobs are passed through unchanged.
- BodyLimit.Limiter.Run: the host's `send` and `receive` do not fail, and the inner application's messages do not overlap in time.
- BodyLimit.Call: header parsing is reduced to absent, unparsable or a number.
- RecordHash.BuildScoreRecord: the number of decimal places is at most 2^53 - 1, the largest integer canonical JSON may hold.
- Json.TextIsRead: the reader reads no white space and no escaped surrogates, which are never written.
- Json.TextUnique: values are strings, booleans, integers and objects; lists and floats do not occur in records, and lone surrogates do not occur in strings.
- Outputs.CrashSafe: a crash of the process, not of the machine; nothing is flushed to stable storage, so a power cut can leave a replaced name with partial contents.
- Outputs.WriteOutputs: the raw measurements are given as bytes; file names are names in one directory, and line-end translation when writing on other platforms is not modelled.
- Outputs.VerifySidecar: `json.loads` is a parameter; the theorems need only that it reads canonical bytes back. A loaded object with members outside the modelled values, such as lists, floats or integers beyond 2^53 - 1, is not covered.
- Repos.InMemoryAuditRepo.Since: timestamps are UTC with years 1 to 9999.
- Firecracker dispatch, git, sockets and the external analyzers: input, output and external binaries.
- Signatures, tokens and scopes: calls into libraries over parsing that cannot be seen.
- Postgres and ClickHouse repositories, telemetry and migrations: plumbing around what is modelled.
- Registry, command-line parsing, version parsing and per-tenant listings: would only add easy members.
