# Verified models of the Go test-suite algorithms

This project models, in Dafny, the programs of the repository that are real algorithms, for all
inputs and all runs instead of the fixed data they are shipped with.

- **Power series over demand channels** (`testsuit/chan/powser1.go`). `Rational` is the exact
  rational arithmetic, `Convolution` the reference algebra, `PowerSeries`, `SeriesLaws`,
  `SeriesFeedback` and `SeriesSubst` the stream algebra with its self-referential series,
  `SeriesProcesses` and `SeriesDemand` the generator loops and what they ask of each other, and
  `Split` the concurrent splitter as a state machine. A series is a function from indices to rats
  whose end mark, once sent, stays; a coefficient after the end counts as zero. Two readers of one
  series, as in `Mul`, see the same items; `Split` is the proof that the splitter in between makes
  that so.
- **Incremental Eratosthenes** (`testsuit/chan/sieve2.go`). `MergingSieve` is the feedback loop as
  a state machine and `SendProxy` the growing ring that breaks its deadlock.
- **Flat interpreter with bracket scanning** (`testsuit/roottest/turing.go`): `Turing`, and
  `TuringLaws` for what programs compute, up to the greeting of the original.
- **S-expressions** (`testsuit/ken/rob2.go`): `Sexpr` has lexer, parser and printer as functions,
  `SexprReader` the code with its global state and its cells on the heap, proved against them,
  `SexprInput` the round trip seen from the input, and `SexprForms` the written language with all its
  layouts.
- **Backtracking peg solver** (`testsuit/roottest/solitaire.go`): `Solitaire`, and
  `SolitaireLaws` for the rules of the game and its symmetries.
- **Open-addressing hash map** (`testsuit/roottest/hashmap.go`): `HashMap`, and `HashMapRuns` for
  whole runs.
- **Select-driven channel protocol** (`testsuit/ken/chan.go`): `SelectChannels`.
- **5-smooth numbers** (`testsuit/roottest/235.go`): `SmoothNumbers`, and `SmoothFactors` for
  what smooth numbers are.
- **Filter-chain sieve** (`testsuit/chan/sieve1.go`): `FilterSieve`, and `FilterProgress` for its
  liveness.
- **Scrolling console** (`tiny/io.go`): `Console`.

`NumberTheory`, `Primes` and `Texts` hold the facts several of these share.

A protocol is a step relation over explicit program counters. A run is any sequence of enabled
steps, so a statement about runs covers every schedule; blocking is a step that is not enabled.
Code that changes fields or arrays is a class or a method with a loop, proved against a function.

## Where the code differs from its comments or its promise

- `i2tor` of zero over a negative number gives the denominator -1. `Rational.MakeRatSpec` states
  exactly when the result is canonical. One caller gets there: `Recip` of an empty series inverts the
  end mark and sends 0/-1 (`SeriesFeedback.RecipStarts`).
- The comment at `testsuit/roottest/hashmap.go:120` says that the map doubles. Line 121 doubles the
  logarithm, so the capacity is squared. A growing insertion returns only from tables of 2 to 32 slots:
  with one slot it never ends, and with more it runs out of the array (`HashMap.HashMap.Lookup`).
- An entry that a lookup returned is in an array that growth gives up. A write through it is lost from
  then on (`HashMapRuns.WriteSeen`, `HashMapRuns.WriteLost`).
- `Clear` leaves slot 0 as it was. Only the fresh array in `Initialize` makes up for that.
- Parsing what was printed loses negative numbers, which come back as strings. The parser produces
  them itself when a numeral overflows, so parse-print-parse is not always parse.
  `SexprInput.ReadPrintReadInput` gives the exact condition on the input and `Sexpr.WrappedInput` a
  family of inputs.
- `MonSubst` multiplies the end mark by the running power of c. That divides by zero if and only if c
  is zero and U is finite but not empty (`SeriesProcesses.MonSubstLoop`). Its result is padded with
  zeros where `Subst` stops; the coefficients agree.
- `Integ` and `MonSubst` offer a second end mark that nobody asks for.
- `Exp` ignores the constant term of its argument (`SeriesFeedback.ExpForgets`).
- A send of the 235 generator can block for good on its bounded channels. `SmoothNumbers.Generate`
  states when, and that it does not happen in the program's 100 rounds.
- A one-row border is enough for the peg solver: the far field of a jump is looked at only when the
  near one is a peg.

## Model

| member | source | states |
|---|---|---|
| `Rational.GcdSpec` | testsuit/chan/powser1.go:201-205 | under truncated remainder gcd terminates, is an integer combination of its arguments and divides both; positive when the first argument is nonzero, the second argument otherwise |
| `Rational.GcdGreatest` | testsuit/chan/powser1.go:201-205 | every common divisor divides the result |
| `Rational.GcdNonzero` | testsuit/chan/powser1.go:201-205 | gcd is zero only for two zeros |
| `Rational.GcdCofactors` | testsuit/chan/powser1.go:209-220 | Go's truncating division by the gcd is exact and leaves coprime cofactors |
| `Rational.MakeRatSpec` | testsuit/chan/powser1.go:209-220 | i2tor gives lowest terms with a positive denominator if and only if the divisor is positive, or negative with a nonzero dividend; the number is exact for every nonzero divisor, and a zero divisor gives an end mark |
| `Rational.Constants` | testsuit/chan/powser1.go:603-612 | zero and one are canonical, and the end mark is what i2tor makes of 1/0 |
| `Rational.AddSpec` | testsuit/chan/powser1.go:241-244 | add gives the exact sum in canonical form |
| `Rational.MulSpec` | testsuit/chan/powser1.go:246-253 | mul is defined on canonical rats and gives the exact product in canonical form, although it only cancels across and never reduces afterwards |
| `Rational.NegSpec` | testsuit/chan/powser1.go:255-257 | neg gives the exact negation in canonical form |
| `Rational.SubSpec` | testsuit/chan/powser1.go:259-261 | sub gives the exact difference in canonical form |
| `Rational.InvSpec` | testsuit/chan/powser1.go:263-266 | inv of a nonzero rat is canonical and multiplies with it to one; of the end mark inv makes 0/-1, which is neither canonical nor an end mark |
| `Rational.CanonicalUnique` | testsuit/chan/powser1.go:31-33 | two canonical rats are the same pair if and only if they are the same number |
| `Rational.MulFinis` | testsuit/chan/powser1.go:246-253 | multiplying an end mark gives an end mark again unless the factor is zero |
| `Rational.MulPanicsWhen` | testsuit/chan/powser1.go:246-253 | mul of a stream item and a rat divides by zero if and only if the item is the end mark and the rat is zero |
| `Convolution.ConvAssociates` | testsuit/chan/powser1.go:435-458 | the Cauchy product is associative |
| `Convolution.ConvCommutes` | testsuit/chan/powser1.go:435-458 | the Cauchy product is commutative |
| `Convolution.ProductRule` | testsuit/chan/powser1.go:462-482 | the derivative of a Cauchy product obeys the product rule at every coefficient |
| `Convolution.LinearEquationUnique` | testsuit/chan/powser1.go:540-551 | a constant term and the equation Z' = Z*D determine all coefficients |
| `PowerSeries.SameItem` | testsuit/chan/powser1.go:31-33 | a stream item is determined by its number and its end status |
| `PowerSeries.AddItem` | testsuit/chan/powser1.go:319-341 | a sum stream carries the sums, treats a finished summand as zero, and ends exactly where both have ended |
| `PowerSeries.CmulItem` | testsuit/chan/powser1.go:344-360 | a scaled stream carries the scaled numbers and ends where its input ends |
| `PowerSeries.MulCauchy` | testsuit/chan/powser1.go:435-458 | coefficient n of the recursively wired product stream is the Cauchy sum, for finite and infinite factors |
| `PowerSeries.MulEnds` | testsuit/chan/powser1.go:435-458 | the product ends exactly where every remaining term has a factor past its end, so only where all later coefficients are zero |
| `PowerSeries.MulCausal` | testsuit/chan/powser1.go:435-458 | item n of a product needs only items up to n of the factors |
| `PowerSeries.DiffItem` | testsuit/chan/powser1.go:462-482 | a differentiated stream carries n+1 times coefficient n+1 and ends one item early |
| `PowerSeries.DiffValue` | testsuit/chan/powser1.go:462-482 | the differentiated stream carries the formal derivative |
| `PowerSeries.IntegItem` | testsuit/chan/powser1.go:485-499 | an integrated stream starts with the given constant and carries coefficient n-1 over n; the end mark goes through the same multiplication and stays an end mark |
| `PowerSeries.DiffOfInteg` | testsuit/chan/powser1.go:462-499 | differentiating an integral gives back the very stream, end marks included |
| `PowerSeries.IntegOfDiff` | testsuit/chan/powser1.go:462-499 | integrating a derivative with the old constant term gives back every nonempty stream |
| `SeriesLaws.MulCommutes` | testsuit/chan/powser1.go:435-458 | multiplying in either order gives the same stream, item by item, although the two wirings differ |
| `SeriesLaws.MulAssociates` | testsuit/chan/powser1.go:435-458 | a product of three series does not depend on how it is wired, end marks included |
| `SeriesLaws.MulDistributes` | testsuit/chan/powser1.go:435-458 | a product with a sum stream is the sum of the products, end marks included |
| `SeriesLaws.Eval` | testsuit/chan/powser1.go:299-304 | evaluation is the exact partial sum of the first n terms, in canonical form; with a negative n it is the sum of all terms of a finite series |
| `SeriesLaws.EvalOfSum` | testsuit/chan/powser1.go:299-304 | evaluating a sum stream gives the same rat as adding the evaluations |
| `SeriesFeedback.RoundGuarded` | testsuit/chan/powser1.go:519-551 | item n that comes round the Recip or Exp loop depends only on items below n of the looped stream |
| `SeriesFeedback.UnrolledStable` | testsuit/chan/powser1.go:519-551 | items already produced do not change as the loop goes round |
| `SeriesFeedback.FixSolves` | testsuit/chan/powser1.go:519-551 | the looped stream satisfies its own defining equation |
| `SeriesFeedback.FixUnique` | testsuit/chan/powser1.go:519-551 | the looped stream is the only one that does |
| `SeriesFeedback.RecipStarts` | testsuit/chan/powser1.go:530-533 | the first request to Recip gets the inverse of the leading coefficient, a panic if and only if that is zero, and 0/-1 on an empty series |
| `SeriesFeedback.RecipEquation` | testsuit/chan/powser1.go:519-538 | every item of the reciprocal after the first comes from the product of the scaled tail with the reciprocal itself |
| `SeriesFeedback.RecipEnds` | testsuit/chan/powser1.go:519-538 | the reciprocal of a constant is a constant; every other reciprocal is infinite |
| `SeriesFeedback.RecipInverse` | testsuit/chan/powser1.go:519-538 | for every series with nonzero leading coefficient the product with its reciprocal is 1, 0, 0, ... at every index |
| `SeriesFeedback.ExpEquation` | testsuit/chan/powser1.go:540-551 | the exponential is one plus the integral of itself times the derivative, item by item |
| `SeriesFeedback.ExpDerivative` | testsuit/chan/powser1.go:540-551 | Exp(U) starts with one and its derivative stream equals Exp(U)*U' |
| `SeriesFeedback.ExpEnds` | testsuit/chan/powser1.go:540-551 | the exponential of a constant is a constant; every other exponential is infinite |
| `SeriesFeedback.ExpOfSum` | testsuit/chan/powser1.go:540-551 | Exp(U+V) and Exp(U)*Exp(V) are equal streams for all series |
| `SeriesFeedback.ExpForgets` | testsuit/chan/powser1.go:540-551 | two series have the same exponential if and only if their coefficients above the constant term agree and both or neither consist of a constant term at most |
| `SeriesFeedback.ExpIgnores` | testsuit/chan/powser1.go:542 | constant terms are ignored, and so are trailing zeros, although these make a difference to the derivative stream |
| `SeriesSubst.SubstStable` | testsuit/chan/powser1.go:553-575 | item n of a substitution needs only n+1 nested processes |
| `SeriesSubst.SubstEquation` | testsuit/chan/powser1.go:553-575 | the substituted stream satisfies S(U,V) = u + VV*S(UU,V) |
| `SeriesSubst.SubstComposes` | testsuit/chan/powser1.go:553-575 | coefficient n of Subst(U,V) is the sum over k of U_k times coefficient n of (V - v0)^k |
| `SeriesSubst.RatPow` | testsuit/chan/powser1.go:580-600 | the factor MonSubst has built up after k coefficients is exactly c^k |
| `SeriesSubst.MonSubstItem` | testsuit/chan/powser1.go:580-600 | MonSubst carries U_(m/n)*c^(m/n) where n divides m and zeros between, for every c |
| `SeriesSubst.MonSubstPanicsAt` | testsuit/chan/powser1.go:586-588 | the multiplication of coefficient k by the running power fails if and only if c is zero, k is not the first and U has ended there |
| `SeriesSubst.SubstOfMonomial` | testsuit/chan/powser1.go:553-600 | substituting the monomial c*x^n directly or through Subst gives the same coefficients, for every c, zero included, and n >= 1 |
| `SeriesSubst.SubstOfMonomialEnds` | testsuit/chan/powser1.go:577-600 | where each of the two ends: MonSubst pads with the zeros after the last coefficient, Subst does not and stops after the constant term when c is zero |
| `SeriesProcesses.Copy` | testsuit/chan/powser1.go:166-171 | the copying loop sends the remaining items unchanged |
| `SeriesProcesses.AddLoop` | testsuit/chan/powser1.go:319-341 | the adder's loop, with its switch to copying, sends the sum stream and never asks an input for an item past its end mark |
| `SeriesProcesses.DiffLoop` | testsuit/chan/powser1.go:462-482 | the differentiator's loop sends the derivative stream and never asks past the end mark |
| `SeriesProcesses.IntegLoop` | testsuit/chan/powser1.go:485-499 | the integrator's loop sends the integral stream, and offers a second end mark exactly when it has sent one |
| `SeriesProcesses.MonSubstLoop` | testsuit/chan/powser1.go:580-600 | for every c and n the loop sends the MonSubst stream with its surplus end mark, and it panics if and only if c is zero and it comes to an end mark behind the first item within the requests; all items before that one are sent |
| `SeriesProcesses.MonSubstFails` | testsuit/chan/powser1.go:587 | the smallest failing input: c = 0 and the series 1, at the second request |
| `SeriesProcesses.GetN` | testsuit/chan/powser1.go:127-158 | whatever order the select takes, each of the two channels is asked once and gives its next item, some case is ready until all four events have happened, and any other number of inputs panics |
| `SeriesDemand.CmulLoop` | testsuit/chan/powser1.go:344-360 | the scaling loop sends the scaled stream and asks for one item per item sent |
| `SeriesDemand.ShiftLoop` | testsuit/chan/powser1.go:405-412 | the shifting loop sends the shifted stream and stays one item behind in what it asks for |
| `SeriesDemand.MulLoop` | testsuit/chan/powser1.go:440-458 | the multiplier, with its nested multipliers and adders, sends the product stream, asks each factor for at most as many items as it sends, and never asks past an end mark |
| `SeriesDemand.ServeRound` | testsuit/chan/powser1.go:519-551 | serving n requests on the looped channel of Recip or Exp takes fewer than n items from that channel |
| `SeriesDemand.NextOfLoop` | testsuit/chan/powser1.go:519-551 | what comes round the loop next is the same whatever lies behind the items already sent |
| `SeriesDemand.Produce` | testsuit/chan/powser1.go:519-551 | served request by request, the loop asks itself only for items it has sent already and sends the one solution of its equation |
| `Split.EvaluateKeeps` | testsuit/chan/powser1.go:78-106 | a generation that starts to wait binds the channels it should |
| `Split.RequestKeeps` | testsuit/chan/powser1.go:78-106 | taking a request keeps the invariant: the newest generation serves out[0], the oldest out[1] |
| `Split.ExchangeKeeps` | testsuit/chan/powser1.go:86-91 | out is exchanged only by a generation that is the only one alive, so no waiting process holds a stale channel |
| `Split.AskKeeps` | testsuit/chan/powser1.go:94-95 | asking the source keeps the invariant; one item at most is owed |
| `Split.SpawnKeeps` | testsuit/chan/powser1.go:96-97 | a new generation is always started by the newest one |
| `Split.DeliverKeeps` | testsuit/chan/powser1.go:98 | the item a generation loads is the one out[0] lacks next |
| `Split.Send0Keeps` | testsuit/chan/powser1.go:99-102 | out[0] receives its next item in order, and the generation then holds it for the other reader |
| `Split.Send1Keeps` | testsuit/chan/powser1.go:103-104 | only the oldest generation serves out[1], with the item out[1] lacks next |
| `Split.ReleaseKeeps` | testsuit/chan/powser1.go:105-112 | only the oldest generation releases, and its successor takes over as oldest |
| `Split.StepKeeps` | testsuit/chan/powser1.go:64-112 | every step of every interleaving keeps the invariant |
| `Split.RunInv` | testsuit/chan/powser1.go:64-112 | the invariant holds in every reachable state |
| `Split.SplitDelivers` | testsuit/chan/powser1.go:64-112 | in every run each reader has a prefix of the input in order, and the live generations hold exactly the items between the two prefixes, oldest first |
| `Split.OnlyOldestActs` | testsuit/chan/powser1.go:64-112 | in every run only the oldest generation releases or serves out[1], only the newest spawns, and out is exchanged only when one generation is alive |
| `Split.InternalStepsFinish` | testsuit/chan/powser1.go:64-112 | between two requests only finitely many steps are possible |
| `Split.QuietMeansReady` | testsuit/chan/powser1.go:64-112 | when no internal step is left every request has been answered and a request on either channel is taken at once: no deadlock |
| `MergingSieve.OnSomeChannel` | testsuit/chan/sieve2.go:33-43 | every odd composite is on the channel of multiples of some odd prime whose square is not above it |
| `MergingSieve.MinIsNotHead` | testsuit/chan/sieve2.go:110-129 | the pending minimum never equals a new channel's head, and the heap is empty only when nothing is to be popped |
| `MergingSieve.MinIsNear` | testsuit/chan/sieve2.go:110-129 | because 3 is always in the heap the pending minimum is at most p*p+2p, so the stream of composites stays ordered |
| `MergingSieve.AlreadySent` | testsuit/chan/sieve2.go:110-129 | an odd composite below both the pending minimum and the new head has been sent |
| `MergingSieve.SendMinKeeps` | testsuit/chan/sieve2.go:116-122 | sending the minimum and refilling the heap keeps the invariant |
| `MergingSieve.SendHeadKeeps` | testsuit/chan/sieve2.go:129-130 | sending p*p and pushing the channel keeps the invariant |
| `MergingSieve.TakePrimeKeeps` | testsuit/chan/sieve2.go:114-115 | taking the next prime from the feedback loop keeps the invariant |
| `MergingSieve.CandidateIsPrime` | testsuit/chan/sieve2.go:148-153 | a candidate below the next composite is prime |
| `MergingSieve.TakeCompositeKeeps` | testsuit/chan/sieve2.go:148 | taking the next composite keeps the invariant |
| `MergingSieve.SendPrimeKeeps` | testsuit/chan/sieve2.go:150 | feeding a prime back keeps the invariant |
| `MergingSieve.SendOutKeeps` | testsuit/chan/sieve2.go:151 | the value sent out is the next prime |
| `MergingSieve.FetchKeeps` | testsuit/chan/sieve2.go:152 | moving on to the next odd candidate skips no prime |
| `MergingSieve.DiscardKeeps` | testsuit/chan/sieve2.go:154-156 | the candidate that is discarded is composite |
| `MergingSieve.StepKeeps` | testsuit/chan/sieve2.go:96-161 | every step of both goroutines keeps the invariant, and the min == head loop is never entered |
| `MergingSieve.RunInv` | testsuit/chan/sieve2.go:96-161 | the invariant holds throughout every run |
| `MergingSieve.OutputIsPrimes` | testsuit/chan/sieve2.go:96-161 | in every run what has been sent on out is exactly the primes below some bound, in order |
| `MergingSieve.CompositesAreExhaustive` | testsuit/chan/sieve2.go:107-131 | in every run the composites are in order with no odd composite left out (some come twice), and Pop never meets an empty heap |
| `SendProxy.SegmentAppends` | testsuit/chan/sieve2.go:79-86 | writing at last and moving on appends one value to the queue, also around the end of the ring |
| `SendProxy.SegmentDrops` | testsuit/chan/sieve2.go:87-88 | advancing first drops the oldest value, also around the end of the ring |
| `SendProxy.SegmentFull` | testsuit/chan/sieve2.go:81 | last.Next() is first exactly when one slot is left |
| `SendProxy.SegmentSurvivesLink` | testsuit/chan/sieve2.go:81-85 | linking new cells behind last does not disturb the queue |
| `SendProxy.StoreAppends` | testsuit/chan/sieve2.go:79-86 | storing a value appends it to the queue whether or not the ring grows first |
| `SendProxy.ServedConserves` | testsuit/chan/sieve2.go:62-93 | an unbounded queue neither loses, invents nor reorders values |
| `SendProxy.DepartsDeliver` | testsuit/chan/sieve2.go:71-88 | m departures in a row deliver the m oldest values, or all of them when there are fewer |
| `SendProxy.Drained` | testsuit/chan/sieve2.go:62-93 | once as many departures follow as values are queued, exactly what was queued and what arrived has been delivered, in order |
| `SendProxy.Proxy.constructor` | testsuit/chan/sieve2.go:64-67 | the proxy starts as an empty queue |
| `SendProxy.Proxy.Queue` | testsuit/chan/sieve2.go:62-93 | one slot of the ring is always free, and first == last exactly when the queue is empty |
| `SendProxy.Proxy.Receive` | testsuit/chan/sieve2.go:79-86 | a value is appended; the ring doubles exactly when that used its last free slot |
| `SendProxy.Proxy.Send` | testsuit/chan/sieve2.go:71-88 | the oldest value leaves |
| `SendProxy.Proxy.Select` | testsuit/chan/sieve2.go:62-93 | under any sequence of select choices the ring behaves as the unbounded queue: same values delivered, same values left; when the choices end in enough departures, exactly what was queued and what arrived is delivered and nothing is left |
| `Turing.ScanMatches` | testsuit/roottest/turing.go:15-24 | from either bracket of a loop scan lands on the other one, so the two scans undo each other |
| `Turing.ScanPasses` | testsuit/roottest/turing.go:15-24 | a forward scan passes over any structured text without changing its nesting count |
| `Turing.ScanBackPasses` | testsuit/roottest/turing.go:15-24 | so does a backward scan |
| `Turing.Simulate` | testsuit/roottest/turing.go:26-52 | from the start of a structured piece of text the machine does what the piece means and arrives behind it |
| `Turing.StructuredThenFlat` | testsuit/roottest/turing.go:26-52 | if the structured program ends, with a tape and output or by running off the tape, the machine ends the same way |
| `Turing.FlatThenStructured` | testsuit/roottest/turing.go:26-52 | if the machine ends, the structured program ends the same way |
| `Turing.FlatIsStructured` | testsuit/roottest/turing.go:26-52 | the machine halts with a tape and output if and only if the structured program finishes with them, and panics if and only if it fails |
| `Turing.BalancedIsStructured` | testsuit/roottest/turing.go:26-52 | every balanced program text is the text of some structured program |
| `Turing.Interpreter.constructor` | testsuit/roottest/turing.go:11-13 | a zeroed tape with head and program counter at zero |
| `Turing.Interpreter.Scan` | testsuit/roottest/turing.go:15-24 | the in-place scan finds the matching bracket, or panics exactly when it runs off the text |
| `Turing.Interpreter.Turn` | testsuit/roottest/turing.go:28-51 | one turn of the in-place loop is one step of the machine, panics included |
| `Turing.Interpreter.Interpret` | testsuit/roottest/turing.go:26-52 | any number of turns of the in-place interpreter is that many steps of the machine |
| `TuringLaws.PlusRow` | testsuit/roottest/turing.go:33-34 | n plus signs add n to the current cell, modulo 256, and nothing else |
| `TuringLaws.MinusRow` | testsuit/roottest/turing.go:35-36 | n minus signs subtract n from it, modulo 256 |
| `TuringLaws.RightRow` | testsuit/roottest/turing.go:29-30 | n right arrows move the head up by n, wherever it is |
| `TuringLaws.LeftRow` | testsuit/roottest/turing.go:31-32 | n left arrows move it down by n |
| `TuringLaws.DotRow` | testsuit/roottest/turing.go:37-38 | n dots print the current cell n times |
| `TuringLaws.OffTape` | testsuit/roottest/turing.go:33-46 | with the head off the tape every command but the two moves panics |
| `TuringLaws.Stops` | testsuit/roottest/turing.go:47-48 | any character but the seven commands halts the machine, and running off the text panics |
| `TuringLaws.TextRuns` | testsuit/roottest/turing.go:28-51 | any text without brackets has the effect of its runs of moves, additions modulo 256 and prints, one after the other, panics included |
| `TuringLaws.LoopRuns` | testsuit/roottest/turing.go:15-46 | from either bracket a loop whose turns reach a zero cell arrives behind its closing bracket with the data of the last turn |
| `TuringLaws.LoopMultiplies` | testsuit/roottest/turing.go:26-52 | the loop [>, m plus signs, <-] empties the current cell and adds m times its value to the next one, modulo 256 |
| `TuringLaws.Multiplies` | testsuit/roottest/turing.go:26-52 | the program of n plus signs, [>, m plus signs, <-] and any terminator, on cells x and y, halts with 0 and y + (x + n) * m, modulo 256 |
| `TuringLaws.Greets` | testsuit/roottest/turing.go:12-13 | on a zero tape of at least five cells the program text of the original halts, having printed Hello World! and a newline |
| `Sexpr.AtoiOfDigits` | testsuit/ken/rob2.go:229-235 | reading the digits of a number below 2^31 gives the number |
| `Sexpr.AtoiWraps` | testsuit/ken/rob2.go:229-235 | a numeral from 2^31 up to 2^32 is read as a negative number |
| `Sexpr.ParseShape` | testsuit/ken/rob2.go:237-265 | whatever is parsed is nil or a printable element |
| `Sexpr.ParseListShape` | testsuit/ken/rob2.go:193-212 | a parsed list is the nil-car cell or a chain of elements |
| `Sexpr.ReadShape` | testsuit/ken/rob2.go:237-272 | the same for a whole input |
| `Sexpr.LexAtom` | testsuit/ken/rob2.go:144-182 | an atom of at most 98 bytes before a delimiter is one token, a number when it starts with a digit |
| `Sexpr.ParsePrinted` | testsuit/ken/rob2.go:237-265 | an element parses back from its printed form wherever that form stands before a delimiter |
| `Sexpr.ParseListPrinted` | testsuit/ken/rob2.go:193-212 | so does a list without its parentheses before a closing one |
| `Sexpr.ParseLastPrinted` | testsuit/ken/rob2.go:204-207 | the last cell of a printed list parses back |
| `Sexpr.ParseMorePrinted` | testsuit/ken/rob2.go:204-210 | so does a cell with more behind it |
| `Sexpr.ReadPrinted` | testsuit/ken/rob2.go:90-118 | reading a printed tree gives the tree with negative numbers turned into strings, and consumes the whole line |
| `Sexpr.RoundTrip` | testsuit/ken/rob2.go:90-118 | parsing the printed form of a well-formed tree gives back that tree if and only if it holds no negative number |
| `Sexpr.ReadPrintRead` | testsuit/ken/rob2.go:237-272 | on every accepted input, printing and parsing again gives the same tree if and only if the tree holds no negative number |
| `Sexpr.WrappedInput` | testsuit/ken/rob2.go:229-235 | a numeral from 2147483648 up to 4294967295 is accepted as a negative number, and parse-print-parse differs from parse on it |
| `SexprInput.AtoiIsWrapped` | testsuit/ken/rob2.go:229-235 | atoi gives the number its leading digits write, reduced to 32 bits |
| `SexprInput.NegativeIsOverflow` | testsuit/ken/rob2.go:229-235 | a numeral is read as a negative number if and only if its value modulo 2^32 is at least 2^31 |
| `SexprInput.ParseChecks` | testsuit/ken/rob2.go:237-265 | an element is free of negative numbers if and only if a flat scan of its tokens finds no overflowing numeral |
| `SexprInput.ReadPrintReadInput` | testsuit/ken/rob2.go:237-272 | on every accepted input, printing and parsing again gives the same tree if and only if no numeral of the expression overflows to a negative number |
| `SexprForms.FormParses` | testsuit/ken/rob2.go:237-265 | a written expression, with any white space inside, parses as the tree it stands for |
| `SexprForms.BodyParses` | testsuit/ken/rob2.go:193-212 | so does the inside of a list up to a closing parenthesis or the end of the input |
| `SexprForms.ReadsForm` | testsuit/ken/rob2.go:237-272 | every layout of an expression reads as the same tree: names as strings, numerals below 2147483648 as their numbers, and nothing is left to read |
| `SexprForms.UnclosedPanics` | testsuit/ken/rob2.go:184-190 | a list that is never closed is an error |
| `SexprForms.LongAtomPanics` | testsuit/ken/rob2.go:158-173 | an atom of 99 bytes or more is an error |
| `SexprForms.PrintsForm` | testsuit/ken/rob2.go:90-113 | the tree of an expression prints in the plain layout: single blanks between the parts of a list and no other white space |
| `SexprForms.PrintsNegative` | testsuit/ken/rob2.go:97-98 | a negative number prints as a minus sign and its digits |
| `SexprForms.Reformats` | testsuit/ken/rob2.go:75-118 | reading an expression in any layout and printing it gives its plain layout on a line |
| `SexprForms.PairReads` | testsuit/ken/rob2.go:140-212 | two names separated by a blank, tab, return or newline read as a list of two and print with a blank |
| `SexprForms.ProgramReads` | testsuit/ken/rob2.go:75-88 | the input (defn foo (add 12 34)) reads as its tree, with 12 and 34 as numbers, and prints as it was written |
| `SexprReader.Reader.constructor` | testsuit/ken/rob2.go:267-272 | the reader starts at the beginning with nothing pushed back |
| `SexprReader.Reader.Get` | testsuit/ken/rob2.go:120-138 | one character is consumed, from the pushback or the input; the end byte is never passed; a newline counts a line when it is first read; running off the input panics |
| `SexprReader.Reader.SkipSpace` | testsuit/ken/rob2.go:148-151 | skipping white space does not change which token comes next |
| `SexprReader.Reader.CollectAtom` | testsuit/ken/rob2.go:158-170 | the loop that fills the token buffer ends with exactly the atom that the lexer specification gives, or with a full buffer |
| `SexprReader.Reader.ReadAtom` | testsuit/ken/rob2.go:158-181 | the buffer and code after an atom are the token the lexer specification gives, and a long or unterminated atom panics |
| `SexprReader.Reader.NextToken` | testsuit/ken/rob2.go:144-182 | the globals after NextToken hold the specified token and position |
| `SexprReader.Reader.ReadNumber` | testsuit/ken/rob2.go:229-235 | atoi of the token buffer, with wrap-around |
| `SexprReader.Reader.Atom` | testsuit/ken/rob2.go:214-227 | a new cell holds the number or string of the token |
| `SexprReader.Reader.ParseOne` | testsuit/ken/rob2.go:237-265 | Parse on the global state builds new cells that spell out the specified tree and leaves the specified lookahead, or panics exactly as specified |
| `SexprReader.Reader.ParseCell` | testsuit/ken/rob2.go:204 | an element is linked into the last cell of a list and the cells before stay as they are |
| `SexprReader.Reader.ParseNext` | testsuit/ken/rob2.go:203-210 | one turn of the loop: an element for the last cell, and a new last cell unless the list ends |
| `SexprReader.Reader.ParseChain` | testsuit/ken/rob2.go:193-212 | the chain of cells linked one by one spells out the specified list |
| `SexprReader.ReadOne` | testsuit/ken/rob2.go:267-272 | OpenFile and Parse on any input build cells that spell out what the functional reader reads, or panic when it does |
| `SexprReader.PrintCells` | testsuit/ken/rob2.go:90-113 | walking over the cells prints what the functional printer prints of the tree they spell out |
| `SexprReader.Echo` | testsuit/ken/rob2.go:75-118 | main on any input prints the expression it reads on a line, nothing when there is none, and panics when reading does |
| `Solitaire.JumpTakesPeg` | testsuit/roottest/solitaire.go:55-64 | a jump removes exactly one peg, which is why the search ends |
| `Solitaire.JumpKeepsBorder` | testsuit/roottest/solitaire.go:55-64 | jumps never touch the border |
| `Solitaire.JumpUndone` | testsuit/roottest/solitaire.go:68-72 | taking a jump back restores the board |
| `Solitaire.SolvableHasGame` | testsuit/roottest/solitaire.go:80-111 | a solvable board has a game: a list of boards, each one jump from the next, ending solved |
| `Solitaire.GameIsSolvable` | testsuit/roottest/solitaire.go:80-111 | a board with such a game is solvable |
| `Solitaire.SolvedBySinglePeg` | testsuit/roottest/solitaire.go:103-108 | with one peg left the test on its position decides whether the board is solved |
| `Solitaire.NothingLeft` | testsuit/roottest/solitaire.go:80-111 | when no jump leads to a solution the board is solvable only if it is solved already |
| `Solitaire.Solver.constructor` | testsuit/roottest/solitaire.go:12-29 | a solver for any board and row length |
| `Solitaire.Solver.InitCenter` | testsuit/roottest/solitaire.go:36-47 | center becomes the only hole of the board, or -1 when there is none or more than one |
| `Solitaire.Solver.Move` | testsuit/roottest/solitaire.go:55-64 | the board jumps if the jump is legal and is unchanged otherwise; the call is counted; all accesses are in bounds on any board with a one-row border |
| `Solitaire.Solver.Unmove` | testsuit/roottest/solitaire.go:68-72 | the three fields are put back |
| `Solitaire.Solver.Solve` | testsuit/roottest/solitaire.go:80-111 | solve terminates, restores the board, returns true if and only if some sequence of jumps solves it, and prints exactly a legal game backwards |
| `Solitaire.Solver.TryJump` | testsuit/roottest/solitaire.go:88-97 | one jump is made, the rest is solved, and the jump is taken back: a solution is printed, or the jump leads to none |
| `Solitaire.Solver.TryFrom` | testsuit/roottest/solitaire.go:84-98 | the four directions of one peg: a solution is printed, or none of its jumps leads to one |
| `SolitaireLaws.IsJumpMeans` | testsuit/roottest/solitaire.go:55-64 | a jump is exactly this: three neighbouring fields in a row or column go from peg, peg, hole to hole, hole, peg and every other field stays the same |
| `SolitaireLaws.SolvedMeans` | testsuit/roottest/solitaire.go:103-108 | a board is solved if and only if a single peg is on it, in the centre when there is one to aim for |
| `SolitaireLaws.SolvableSymmetric` | testsuit/roottest/solitaire.go:80-111 | a rearrangement of the fields that keeps fields of play in line both ways does not change whether a board can be solved |
| `SolitaireLaws.SolvableTurned` | testsuit/roottest/solitaire.go:80-111 | a board can be solved if and only if it can be solved turned by half a turn |
| `SolitaireLaws.SolvableTransposed` | testsuit/roottest/solitaire.go:80-111 | a board that fits a square with nothing in play at its edge can be solved if and only if it can be solved with rows and columns exchanged |
| `HashMap.ProbeFinds` | testsuit/roottest/hashmap.go:71-86 | a matching key is where the probe stops |
| `HashMap.ProbeMisses` | testsuit/roottest/hashmap.go:71-86 | if the probe stops at a free slot no stored key matches |
| `HashMap.InsertKeeps` | testsuit/roottest/hashmap.go:97-100 | filling the slot where the probe stopped keeps every key reachable and the keys distinct |
| `HashMap.FreeSlot` | testsuit/roottest/hashmap.go:77 | occupancy below capacity means there is a free slot, so the probe ends |
| `HashMap.RoomAfterGrowth` | testsuit/roottest/hashmap.go:116-132 | after growth every old entry fits without growing again |
| `HashMap.GrowthMakesRoom` | testsuit/roottest/hashmap.go:121 | the arithmetic of growth: squaring 2^k slots makes room if and only if k is positive |
| `HashMap.GrowthFits` | testsuit/roottest/hashmap.go:121 | the arithmetic of growth: the squared table fits the 1024 slots if and only if k is at most five |
| `HashMap.EightyPercent` | testsuit/roottest/hashmap.go:102-103 | the growth test is passed if and only if at least 80 percent of the slots are occupied |
| `HashMap.ProbeOrder` | testsuit/roottest/hashmap.go:74-83 | probing visits the slots hash, hash + 1, hash + 2 and so on, modulo the capacity |
| `HashMap.GrowthReturns` | testsuit/roottest/hashmap.go:116-132 | the outcome that Resize has is success if and only if the squared table makes room and fits |
| `HashMap.HashMap.constructor` | testsuit/roottest/hashmap.go:64-68 | a new map of the given log capacity is empty |
| `HashMap.HashMap.Clear` | testsuit/roottest/hashmap.go:53-61 | every slot but slot 0 is freed, so the table is empty afterwards exactly when slot 0 was free before; the first store is out of range if and only if the capacity exceeds 1024 |
| `HashMap.HashMap.Initialize` | testsuit/roottest/hashmap.go:64-68 | the map is empty and lives in a fresh array, or an index is out of range if and only if the log of the capacity exceeds ten |
| `HashMap.HashMap.Probe` | testsuit/roottest/hashmap.go:71-86 | the probe terminates at the first slot of the key's sequence that is free or matches |
| `HashMap.HashMap.ProbeDecides` | testsuit/roottest/hashmap.go:91-94 | the slot the probe returns is occupied if and only if the finite map has a matching key |
| `HashMap.HashMap.ProbeLive` | testsuit/roottest/hashmap.go:103-106 | probing again after growth finds the entry in the new array, with its value |
| `HashMap.HashMap.Lookup` | testsuit/roottest/hashmap.go:89-113 | a lookup that does not grow the table returns; a growing one returns if and only if the log of the capacity is 1 to 5, runs out of the array above that, and nests deeper than any bound when there is one slot; the finite map is unchanged except that an inserting lookup of a new key adds it with nil; the entry returned is in the current array, also after growth, and without growth no entry moves |
| `HashMap.HashMap.AddEntry` | testsuit/roottest/hashmap.go:97-109 | inserting a new key and growing if that filled the table to 80 percent |
| `HashMap.HashMap.Insert` | testsuit/roottest/hashmap.go:97-100 | the new key is added to the finite map |
| `HashMap.HashMap.Write` | testsuit/roottest/hashmap.go:127 | a write through an entry updates the finite map at that key if and only if the entry is in the current array; otherwise the map does not see it |
| `HashMap.HashMap.Rehash` | testsuit/roottest/hashmap.go:127 | reinserting an old entry adds it without growing the new table, except that a table of one slot grows again without end |
| `HashMap.HashMap.MoveSlot` | testsuit/roottest/hashmap.go:125-131 | one slot of the old table is moved |
| `HashMap.HashMap.Resize` | testsuit/roottest/hashmap.go:116-132 | growth squares the capacity and preserves every key and value from 2 to 32 slots, runs out of the array from more, and never ends from one |
| `HashMapRuns.WriteSeen` | testsuit/roottest/hashmap.go:85-113 | after a write through the entry of an earlier lookup, matching keys have the value written if and only if the table has not grown since that lookup, or had that value anyway |
| `HashMapRuns.WriteLost` | testsuit/roottest/hashmap.go:103-106 | four operations on a table of two slots that lose a write |
| `HashMapRuns.RecordsWrite` | testsuit/roottest/hashmap.go:127 | a write through a live entry changes what is seen under matching keys and under no other |
| `HashMapRuns.RecordsLost` | testsuit/roottest/hashmap.go:103-106 | a write through an entry from before a growth changes nothing that is seen |
| `HashMapRuns.RefsKept` | testsuit/roottest/hashmap.go:71-86 | entries handed out stay where they are while the table does not grow |
| `HashMapRuns.RefsStale` | testsuit/roottest/hashmap.go:104-105 | growth leaves all entries handed out before in an array that was given up |
| `HashMapRuns.LookUp` | testsuit/roottest/hashmap.go:89-113 | a lookup sees the value that the run so far has put under the key, and fails if and only if growth does |
| `HashMapRuns.DoWrite` | testsuit/roottest/hashmap.go:127 | a write through any entry handed out, current or not, leaves the table in step with the run |
| `HashMapRuns.Run` | testsuit/roottest/hashmap.go:64-132 | over any sequence of lookups, inserting or not, and of writes through any entries they returned, each lookup sees exactly the last value written while its entry was live; the run completes if and only if the number of distinct keys inserted fits the largest table that growth leads to |
| `SelectChannels.NextValue` | testsuit/ken/chan.go:64-73 | expect advances through 76 consecutive values and then to the end value |
| `SelectChannels.SendKeeps` | testsuit/ken/chan.go:75-86 | a send puts the next value of the channel and drops the end after the last one |
| `SelectChannels.RecvKeeps` | testsuit/ken/chan.go:101-112 | the value received is the expected one, so expect does not panic |
| `SelectChannels.MeetKeeps` | testsuit/ken/chan.go:75-112 | the same for an unbuffered exchange |
| `SelectChannels.DropKeeps` | testsuit/ken/chan.go:129-203 | a select's count of live ends stays right when it loses one |
| `SelectChannels.DoSendKeeps` | testsuit/ken/chan.go:75-99 | a process that sends keeps the totals and the counts of live ends right |
| `SelectChannels.DoRecvKeeps` | testsuit/ken/chan.go:101-127 | so does one that receives, and expect does not panic |
| `SelectChannels.StepKeeps` | testsuit/ken/chan.go:64-203 | every step of every interleaving keeps the invariant |
| `SelectChannels.InitialInv` | testsuit/ken/chan.go:50-62 | freshly made channels satisfy it |
| `SelectChannels.RunInv` | testsuit/ken/chan.go:64-203 | it holds in every reachable state |
| `SelectChannels.RunsAreSafe` | testsuit/ken/chan.go:64-203 | for any buffer size and wiring, in every run each channel has carried consecutive values in order, expect has not panicked, a select runs exactly while one of its ends is live, and the run has at most 152 steps per channel |
| `SelectChannels.UnfinishedCanStep` | testsuit/ken/chan.go:129-203 | an unfinished channel always has an enabled step |
| `SelectChannels.RunsFinish` | testsuit/ken/chan.go:129-203 | a run that cannot go on has delivered on channel c exactly the 76 values from cval + 100 * (c + 1) on, in order; tots and totr are 76 times the channel count, and every process has exited |
| `SelectChannels.TestIsWired` | testsuit/ken/chan.go:206-308 | the topologies of test1 to test6 are covered by these results |
| `SmoothNumbers.Relay` | testsuit/roottest/235.go:11-20 | however far the process has run, its outputs are f times its inputs, in order, and the other inputs are still there |
| `SmoothNumbers.Receive` | testsuit/roottest/235.go:11-20 | a receive gets the oldest product, or f times the oldest input when no product is waiting |
| `SmoothNumbers.Send` | testsuit/roottest/235.go:56-58 | a send blocks for good if and only if both channels and the process between them are full, 201 values in all |
| `SmoothNumbers.Min` | testsuit/roottest/235.go:23-31 | the least element |
| `SmoothNumbers.SomeFrontReached` | testsuit/roottest/235.go:56-71 | a product not yet emitted is never below every front |
| `SmoothNumbers.NextSmooth` | testsuit/roottest/235.go:66 | the least front is the next number of the enumeration |
| `SmoothNumbers.RenewedFront` | testsuit/roottest/235.go:60-64 | a used-up front always has a next value, above the last one emitted |
| `SmoothNumbers.QueueDelivers` | testsuit/roottest/235.go:11-20 | what a channel delivers at place j is its factor times the j-th emitted value not yet consumed |
| `SmoothNumbers.FullIsOverfull` | testsuit/roottest/235.go:56-58 | a channel is full if and only if its factor times the value emitted 202 rounds before is not below the value now sent |
| `SmoothNumbers.SendAll` | testsuit/roottest/235.go:56-58 | after sending, each queue holds its factor times the emitted values not yet consumed; sending blocks if and only if a channel is overfull |
| `SmoothNumbers.RenewAll` | testsuit/roottest/235.go:60-64 | after the receives every front lies above the last value, and the queues still hold exactly what is left |
| `SmoothNumbers.Round` | testsuit/roottest/235.go:55-66 | one round emits the next product, or blocks if and only if a channel is overfull |
| `SmoothNumbers.Generate` | testsuit/roottest/235.go:46-71 | after any number of rounds the emitted values enumerate, in increasing order and without a gap, all products of the factors; the run stops short if and only if a channel is overfull, and never within 202 rounds, while the program has 100 |
| `SmoothFactors.SmoothIsProduct` | testsuit/roottest/235.go:11-20 | for any factors the generated numbers are exactly the products of finitely many factors |
| `SmoothFactors.SmoothByPrimes` | testsuit/roottest/235.go:34-36 | for prime factors they are exactly the numbers without any other prime divisor |
| `SmoothFactors.SmoothFrom235` | testsuit/roottest/235.go:34-36 | from 2, 3 and 5: n is generated if and only if every prime divisor of n is 2, 3 or 5 |
| `SmoothFactors.SmoothIs235` | testsuit/roottest/235.go:34-36 | these are exactly the numbers 2^a*3^b*5^c |
| `SmoothFactors.Enumerates235` | testsuit/roottest/235.go:34-71 | what is emitted for 2, 3 and 5 is one and then, in increasing order, every number up to the last whose prime divisors are among them |
| `FilterSieve.TakenMoves` | testsuit/chan/sieve1.go:14-28 | a value that moves is the next one that survives the filters before it |
| `FilterSieve.FilterKeeps` | testsuit/chan/sieve1.go:22-28 | a filter that passes or drops a value keeps the invariant |
| `FilterSieve.CollectKeeps` | testsuit/chan/sieve1.go:31-36 | so does the collector when it takes a value |
| `FilterSieve.FirstSurvivorIsPrime` | testsuit/chan/sieve1.go:31-36 | the first number that survives all filters is the next prime |
| `FilterSieve.ReportKeeps` | testsuit/chan/sieve1.go:36-41 | reporting the prime and adding its filter keeps the invariant |
| `FilterSieve.RunInv` | testsuit/chan/sieve1.go:14-42 | the invariant holds in every reachable state: after k filters the tail channel carries exactly the numbers not divisible by the first k primes |
| `FilterSieve.ReportsPrimes` | testsuit/chan/sieve1.go:14-42 | in every run the reported values are the primes in order, without a gap |
| `FilterSieve.NeverStuck` | testsuit/chan/sieve1.go:14-42 | every reachable state has an enabled step |
| `FilterSieve.SurvivorExists` | testsuit/chan/sieve1.go:31-42 | beyond every bound there is a number that survives all filters |
| `FilterProgress.GeneratorBounded` | testsuit/chan/sieve1.go:14-18 | with k primes found the generator has never run beyond k + 2 times their product, plus one |
| `FilterProgress.PassProgresses` | testsuit/chan/sieve1.go:14-36 | every move of a value takes one channel on and none back |
| `FilterProgress.ReportComes` | testsuit/chan/sieve1.go:14-42 | under every schedule the next prime is reported after a bounded number of steps |
| `Console.PageShape` | tiny/io.go:14-47 | the cursor is in the last row of the unbounded page and blanks follow it |
| `Console.PageStep` | tiny/io.go:31-46 | how one byte changes the unbounded page: wrapped at 80 columns, newline to the next row |
| `Console.ShownNewRow` | tiny/io.go:39-46 | scrolling shows the same as a window moved down by one row |
| `Console.PutShows` | tiny/io.go:14-47 | if the screen shows the end of the page, it still does after putc |
| `Console.FirstPut` | tiny/io.go:19-30 | the same for the first byte, which also clears the screen |
| `Console.BlankAfterCursor` | tiny/io.go:14-47 | cells after the cursor and row 24 are blank, and the cursor is where it should be |
| `Console.LineShown` | tiny/io.go:31-46 | the characters since the last newline stand right in front of the cursor 0x0720, each as 0x0700 plus its low eight bits, on a screen of 1920 cells |
| `Console.NewlineStartsRow` | tiny/io.go:32-33 | a newline takes the cursor to the next multiple of 80 |
| `Console.Screen.constructor` | tiny/io.go:11-12 | nothing written, no screen memory yet |
| `Console.Screen.Putc` | tiny/io.go:14-47 | after any characters, bytes or not, rows 0 to 23 equal the last 24 rows of the plain rendering of everything written |
| `Console.Screen.Draw` | tiny/io.go:31-46 | every store is within the screen, and the cells and position become what one putc means |
| `Console.Screen.Scroll` | tiny/io.go:39-45 | all rows move up in place and the last one is cleared |
| `Console.Screen.Write` | tiny/io.go:49-53 | write appends all its bytes to what has been written |

## Left out

- `testsuit/chan/powser2.go`: the same algorithms once more.
- `evaln`, `printn`, `pr`, `check`, `checka`, `Init` and `main` of powser1.go: floating point, printing and fixed data.
- `Binom`: for a natural exponent it stops one coefficient early.
- `Sub`, `Monmul`, `Xmul`, `Rep`, `Shift` and `Poly` of powser1.go: easy next to the operations modelled.
- Rational.AddSpec: int64 overflow is not modelled in the rational arithmetic; integers are unbounded, also in `mul`, `neg`, `sub`, `inv` and `gcd`.
- SeriesProcesses.AddLoop: a reader that asks again after an end mark, which would block, is not modelled; neither is it for the other loops. A loop serves its requests in one batch; the interleaving of processes is modelled for the splitter only. `Subst` is modelled as the equation its processes establish.
- SeriesLaws.Eval: a negative term count on an infinite series, which recurses without end, is not modelled.
- Split.QuietMeansReady: consumers that never ask again are allowed; the source is taken to answer every request.
- MergingSieve.OutputIsPrimes: safety only; that a next prime always arrives needs a bound on prime gaps. Channels are unbounded and the heap is any extract-min.
- Internals of container/heap, container/ring and container/vector: a ring is a cyclic sequence.
- Turing.Interpreter.Interpret: the loop is cut off after a number of turns, for any number; the encoding of printed bytes as UTF-8 is not modelled.
- SexprReader.Reader.ParseChain: that no two cells of a tree are the same is not stated. `Free` is left out, and so is that the line number is an int32. int is 32 bits wide.
- Solitaire.Solver.Solve: the final value of the moves counter is only bounded from below.
- HashMap.HashMap.Lookup: uint32 wrap-around is not modelled, and Match is any equivalence that Hash respects instead of the stub in the test code. A client that writes through nil is not modelled.
- SelectChannels.RunsFinish: `nrand`, `Gosched` and the locks are left out, and the bookkeeping of send and recv happens together with the channel operation.
- SmoothNumbers.Generate: uint64 overflow is not modelled.
- Console.Screen.Putc: the screen memory is an array instead of a raw address.
- Everything else in the repository (other tests of compiler and runtime, `tiny/mem.c`, `tiny/thread.c`, documentation and headers).
