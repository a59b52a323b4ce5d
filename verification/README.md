# PoorMansAnubis: a verified model of the gate

PoorMansAnubis stands in front of a web server. A visitor without a recent pass gets a page whose
script must factor a large number; the server multiplied that number from small random primes, keeps
only a hash of the factor list, and lets the address through once the right list comes back. This
project models the parts of it whose correctness is not visible in any single function and proves
what they promise, for every input, every random draw, every way of cutting a stream, and every
interleaving of connections or threads.

| files | component |
|---|---|
| `Alphabet`, `Bignum`, `Primes`, `Generator`, `Heap`, `Decimal`, `Runs`, `Printer`, `Solver`, `Challenge` | making, printing and solving a challenge |
| `Packing`, `Validator`, `SimpleJson`, `Hexadecimal`, `Ipv6`, `Ipv6Grammar`, `Ipv6Parser`, `Ipv6RoundTrip`, `Ipv6Spinning`, `Ipv6Language` | text codecs |
| `Bytes`, `Params`, `Packets`, `Rows`, `RowValues`, `Framing`, `ResponseValues` | the MySQL wire layer |
| `Gate`, `GateLocks`, `GateProvenance`, `GateOneShot`, `GateMatches`, `GateWitness`, `GateFresh`, `GateService`, `Sequence` | the gate's tables, locks and cache under concurrency |
| `Jobs`, `ThreadPool`, `ThreadPoolRuns`, `ThreadLimit`, `ThreadLimitRuns` | the two thread classes |
| `Chunked` | re-encoding a proxied body |
| `Common`, `Machine` | shared definitions, machine integers |

## The main results

- **The browser answers what the server hashed, exactly when its ticks last** (`Challenge.Exchange`).
  For every sequence of random numbers the string computed by long division and trial division from
  the challenge equals the string printed from the heap of factors, if and only if the 1,000,000
  ticks cover one division per factor and one divisor advance per step to the largest factor. They do
  for every challenge of up to 41,665 quads (the default is 2200); from 41,667 quads on, a generator
  that draws only twos produces a challenge the solver cannot finish. The factors are exactly the first k
  draws, where k is the least number whose product has enough digits. The printed answer also passes the
  JSON parser of the C++ server and the answer validator of the Rust server.
- **Every forwarded request is backed by a recent correct answer** (`GateFresh.ForwardsAreFresh`),
  **every allowed row traces back to a token, a challenge and a matching answer**
  (`GateProvenance.AllowedRowsTraceBack`). On MySQL **tokens are one-shot**
  (`GateOneShot.TokenRedeemedOnce`) and **lock waits cannot form a cycle** (`GateLocks.LockDiscipline`).
- **Whoever has a pass is served** (`GateService.PassIsServed`): on either backend a page request whose
  address and port have an allowed row that is still young never gets to ask for a challenge unless a
  statement of its own fails, and once finished it has been forwarded. An answer session without a failure
  ends accepted (`GateService.AnswerIsAccepted`), and on MySQL from every reachable state without locks a
  correct answer to a young challenge can be accepted and a young pass be served (`GateWitness.AnswerIt`,
  `GateWitness.ServeIt`).
- **Challenges are one-shot on MySQL as long as their DELETE executes**: a second answer is accepted for a
  challenge only if the DELETE of the session that matched it first failed
  (`GateMatches.SecondAcceptNeedsFailedDelete`), after an executed DELETE nobody matches it again
  (`GateMatches.SpentNeverMatched`), and a failed DELETE does let it be accepted twice
  (`GateWitness.FailedDeleteAcceptsTwice`).
- **A MySQL response means the same however it is cut into reads, but not whenever they come**: the loop's
  outcome is that of the bytes before the first pause after data (`Framing.ReadResponse`). Two deliveries of
  one response agree if and only if it fails anyway, or both or neither bring all the bytes that decide
  before such a pause (`Framing.CompareCuts`); any pause inside a response makes it fail
  (`Framing.PauseFails`). A success has as many cells in each row as the response announced, and a row is
  read back as the values it encodes if and only if it is accepted, under an exact condition, and has no
  DECIMAL value (`RowValues.RowReadBack`).
- **A result set gives exactly its rows, in order**, if and only if every column definition is shorter than
  the client's buffer and every row is accepted; otherwise the statement fails. A deadlock or lock timeout is
  tried again, any other server error fails (`ResponseValues.SetRead`, `ResponseValues.EndingRead`).
- **Every IPv6 address survives printing and parsing** (`Ipv6RoundTrip.RoundTrip`), and in brackets
  or with a scope it does exactly when it is not seven groups followed by `::`. Exactly which texts are
  accepted, and as which address, is `Ipv6Language.ParsesExactly`; exactly which make the parser run past
  their end is `Ipv6Spinning.SpinsExactly`; all others are rejected.
- **No job is lost, doubled, cleaned up without having run, or run after its cleanup** in either thread
  class, except that the destructor drops what is still queued; every job can always still be finished, the
  pool takes the newest first and the limiter the oldest (`ThreadPoolRuns`, `ThreadLimitRuns`). The limiter's
  counter exceeds its limit by at most one. The limit is kept exactly as long as the two agents are never
  both past the check for the last free place (`ThreadLimit.WithinExactly`), which happens for every limit.
- **A client decodes exactly the upstream body**, whatever the reads and partial writes, and the transfer
  completes if and only if some read ends the body, all reads before it are in time and fit the announced
  length, and the client takes everything (`Chunked.ForwardBody`).

## How the model is laid out

Loops of the source are methods proved against a specification function or an outright property;
what the source promises is then proved of the specification. Objects changed in place (the digit
vector, the heap, a client socket) are classes. Concurrent parts are step relations: a state, a
program counter per session or thread, and a relation `Next` that performs one SQL statement, one
atomic access or one lock operation; a `Run` is any finite sequence of such steps, and a main result
speaks of every state of every run.

- *Machine integers.* `Machine` declares the fixed widths; a method computing with them also proves
  that nothing wraps. Where the source does wrap (packet sequence numbers, the validator's numbers,
  the IPv6 digit counter, the index past a DECIMAL field, the sequence table) the wrap is written out.
- *Randomness, clocks, hashing and the operating system* are parameters: a function from draw number to random
  number, `Tick` events of one monotone clock, a hash function without assumed properties, a table of
  interface names.
- *Gate.* One clock in seconds serves the database and the process. Statements that hold no lock may
  interleave freely. A connection can be lost between any two statements, which frees its locks;
  `UNLOCK TABLES` otherwise succeeds, and so do the deletions of stale rows whose result a decision uses.
  A sequence number drawn while a token or a challenge is made is abstracted in `Gate` to the lock it
  needs and modelled exactly in `Sequence`.
- *Responses.* The socket is non-blocking, and a delivery is a trace of reads, pauses and ends. A field that
  would be read past the end of its packet is the outcome `Undefined`, because the source reads memory it
  does not own there.

Where code and expectation differ, the model follows the code:

- a heap entry of zero would be dropped by the printer (none is ever drawn);
- with `quads = 0` the padding loop runs and gives four digits from eighteen twos, for `quads >= 1` it never
  does;
- a row packet that ends with its NULL bitmap (all columns NULL) is rejected
  (`RowValues.NullRowRefused`), and so is a row with a fixed-width field that ends at byte 4096 or later;
- a DECIMAL value is read as NULL (`RowValues.DecimalReadAsNull`), and a DECIMAL field that runs past its row
  is accepted exactly when the 64-bit index wraps into the row and below 4096
  (`RowValues.DecimalWrapsExactly`);
- a pause between two reads of a response makes the statement fail, a pause before the first does not;
- on SQLite a failed query for the allowed row looks like a missing one, so the request is asked for a new
  challenge (`GateService.QueryFails`);
- the pool takes its jobs from the end it appends to, so the oldest waits longest;
- the IPv6 parser accepts eight groups around a `::` when a scope that ends in `::` follows, and reads a
  segment of 257 to 260 digits as one to four of them;
- an amount after the `x` of an answer may be missing: `2x` is valid (`Validator.AmountCanBeMissing`);
- an empty packet ends a response in failure;
- the cache keeps the older time when a key is already present;
- on MySQL the result of deleting an accepted challenge is ignored, so after a failed deletion the
  same challenge can be accepted again;
- the segment count of the IPv6 parser corrects for a final `::` only at the very end of the text;
- the IPv6 parser's full form runs past the end of the text (`Spinning`) when the text has no `::`, eight
  segments, the segments before the last have one to four digits as far as an eight-bit counter sees, and
  the last one's length is a multiple of 256, zero included; or when the last segment is empty, the
  seventh's length is a multiple of 256, and the six before have one to four digits counted. So
  `1:2:3:4:5:6:7:` spins, `12345:2:3:4:5:6:7:` is rejected, and ending in a colon is not necessary. The idle
  index then wraps at 2^64 and the parser raises (`Ipv6Spinning.WrapRound`).

## Model

| member | source | states |
|---|---|---|
| `Alphabet.ToChar` | challenge_impl/src/base64.c:24-37 | values below 64 round-trip through the inverse table, and only zero prints as `A` |
| `Bignum.SumB64` | challenge_impl/src/work2.cc:36-79 | the value of the sum vector is the sum of the values, for all digit vectors of any lengths |
| `Bignum.SumFromValue` | challenge_impl/src/work2.cc:36-79 | digit-wise addition with carry in {0, 1} preserves the positional value |
| `Bignum.Digits.SumScalar` | challenge_impl/src/work2.cc:81-96 | adding a scalar in place to a non-empty vector adds it to the value, and the carry never exceeds its type |
| `Bignum.MultB64` | challenge_impl/src/work2.cc:98-132 | the value of the schoolbook product is the product of the values, with every intermediate fitting 64 bits |
| `Bignum.MultRow` | challenge_impl/src/work2.cc:103-127 | one shifted row is worth 64^shift times the digit times the other operand |
| `Bignum.MulAdd` | challenge_impl/src/work2.cc:110-118 | digit product plus carry splits into a digit and a carry, both below 64 |
| `Bignum.Digits.MultScalar` | challenge_impl/src/work2.cc:134-149 | in-place multiplication by a scalar of at most 64 is exact although only one carry digit is pushed |
| `Bignum.ScaleValue` | challenge_impl/src/work2.cc:134-149 | the digits of `k * a + carry` have that value, carries staying below 64 |
| `Bignum.ScaleShape` | challenge_impl/src/work2.cc:134-149 | scaling by 1..64 adds at most one digit and never creates a leading `A` |
| `Bignum.CanonicalUnique` | cxx_impl/src/constants.cc:175-178 | two digit vectors without leading zero digit and with equal value are equal |
| `Primes.ChoiceIsPrime` | challenge_impl/src/work2.cc:168-220 | each of the 17 values the generator can draw is prime |
| `Primes.DividesIffMember` | cxx_impl/src/constants.cc:191-206 | if no factor lies below d, d divides the product exactly when d is one of the factors, also for composite d |
| `Primes.CoprimeDivides` | cxx_impl/src/constants.cc:191-206 | Euclid's lemma in the form the trial loop needs, by Bezout coefficients |
| `Primes.ProductLowerBound` | challenge_impl/src/work2.cc:163-225 | a product of n factors is at least 2^n |
| `Generator.StepKeepsBalance` | challenge_impl/src/work2.cc:163-225 | one draw keeps value = product of the heap's multiset and the top digit nonzero, at least doubles the value, adds at most one digit |
| `Generator.Generate` | challenge_impl/src/work2.cc:151-235 | for every draw sequence the loop ends with a canonical number of exactly 4 digits per quad, equal to the product of the heap, and the heap holds exactly the primes the first k draws select, k being the least number whose product has that many digits |
| `Generator.Pad` | challenge_impl/src/work2.cc:228-233 | the padding loop leaves whole quads alone and completes the start value by eighteen twos |
| `Generator.DigitsReach` | challenge_impl/src/work2.cc:163-163 | the loop's test on the digit count is a test on the product: more than n digits if and only if it is at least 64^n |
| `Heap.PriorityHeap.Pop` | challenge_impl/src/work.c:337-339 | the assumed contract of the heap: pop returns and removes a smallest key |
| `Decimal.CountDigits` | challenge_impl/src/work.c:342-348 | the digit-counting loop is the length of the decimal numeral |
| `Decimal.NumeralInjective` | challenge_impl/src/work.c:352-352 | different numbers print differently |
| `Printer.PrintRun` | challenge_impl/src/work.c:342-354 | the computed buffer holds exactly the text of one run |
| `Printer.PopOne` | challenge_impl/src/work.c:337-361 | popping a smallest key extends the current run or closes it, and the runs so far account for what was popped |
| `Printer.CollectRuns` | challenge_impl/src/work.c:330-376 | the pop loop lists the heap's runs in strictly ascending order, with positive counts summing to the multiset, and there is no other such list |
| `Printer.MeasureParts` | challenge_impl/src/work.c:378-390 | the sizing loop computes the joined length plus the terminator |
| `Printer.FillParts` | challenge_impl/src/work.c:392-413 | the filling loop writes the measured buffer completely and nothing outside it |
| `Printer.FactorsToStr` | challenge_impl/src/work.c:329-416 | the whole printer: the run-length text of the heap and a terminator, in a buffer of exactly that size |
| `Runs.RunLengthUnique` | challenge_impl/src/work.c:336-376 | a multiset has only one ascending run-length listing |
| `Runs.TextInjective` | challenge_impl/src/work.c:352-413 | different run lists print differently |
| `Runs.DistinctMultisetsPrintDistinctly` | challenge_impl/src/work.c:329-416 | two factor multisets print alike if and only if they are equal |
| `Solver.LongDivMod` | cxx_impl/src/constants.cc:168-182 | one pass over the digits gives the canonical quotient and the remainder |
| `Solver.GetFactors` | cxx_impl/src/constants.cc:184-220 | on a canonical challenge the answer is the printed result of trial division of its value within the ticks |
| `Solver.TrialFinds` | cxx_impl/src/constants.cc:190-214 | whatever the ticks, trial division lists, in ascending run-length form, the factors it gets to |
| `Solver.FoundAll` | cxx_impl/src/constants.cc:189-210 | it gets to all factors if and only if the ticks cover one division per factor and the advances to the largest |
| `Challenge.FactorCount` | challenge_impl/src/work2.cc:163-225 | a challenge of n digits has fewer than 6n prime factors |
| `Challenge.SolverFindsFactors` | cxx_impl/src/constants.cc:184-214 | for a generated challenge the listed factors are all of them exactly when the ticks are enough |
| `Challenge.BudgetSuffices` | cxx_impl/src/constants.cc:189-210 | 24 * quads + 28 <= 1,000,000 is enough for every draw |
| `Challenge.TwosExceedBudget` | cxx_impl/src/constants.cc:207-209 | with 24 * quads - 6 > 1,000,000 a challenge of twos alone is cut off |
| `Challenge.Exchange` | challenge_impl/src/work2.cc:151-235 | generator, printer and solver composed: the hashed string lists exactly the first k draws, the solved string equals it if and only if the ticks are enough, and it passes the JSON parser and the validator |
| `Packing.NumberStrToBase64Str` | challenge_impl/src/base64.c:56-112 | packs every digit string, fails exactly on a non-digit, and its overflow check never fires |
| `Packing.PackingStep` | challenge_impl/src/base64.c:64-88 | each digit keeps the relation between emitted characters, held bits and digits consumed |
| `Packing.PackingRoom` | challenge_impl/src/base64.c:58-111 | the output size bound leaves room for every character and the terminator |
| `Packing.EmitNibbles` | challenge_impl/src/base64.c:131-147 | complete half-bytes are emitted in order unless they are padding, and there is room for them |
| `Packing.Base64StrToNumberStr` | challenge_impl/src/base64.c:114-162 | unpacks every string the specification can read, and its overflow check never fires |
| `Packing.UnpackPack` | challenge_impl/src/base64.c:56-162 | unpacking a packed digit string gives it back, for all three residues of its length |
| `Validator.ValidateClientResponse` | rust_impl/src/helpers.rs:19-88 | accepts exactly the strings that are one or more entries of digits, `x`, possibly no digits, separated by white space, with numbers modulo 2^64 strictly ascending from above zero |
| `Validator.AcceptsExactlyWellFormed` | rust_impl/src/helpers.rs:19-88 | the same language, of the state machine, for every string |
| `Validator.AmountCanBeMissing` | rust_impl/src/helpers.rs:55-64 | `2x` is accepted |
| `Validator.AcceptsExactlyOrdered` | rust_impl/src/helpers.rs:19-88 | a printed run list is accepted if and only if it is non-empty with positive, strictly ascending primes |
| `SimpleJson.ParseSimpleJson` | cxx_impl/src/http.cc:1307-1363 | the scanner's loop is the state machine, with its error state |
| `SimpleJson.RunEntry` | cxx_impl/src/http.cc:1307-1363 | a member is read whatever stands around its quotes and colon, and fails exactly on an empty key or value |
| `SimpleJson.ObjectRead` | cxx_impl/src/http.cc:1307-1363 | every list of string members with arbitrary spacing gives its pairs, the first of two equal keys counting |
| `SimpleJson.PostedSurvives` | cxx_impl/src/constants.cc:235-237 | the posted object parses back to its three members, and fails exactly when the id or the answer is empty |
| `SimpleJson.AnswerSurvives` | cxx_impl/src/http.cc:1307-1363 | every printed answer reaches the server unchanged |
| `Hexadecimal.ParseOfHex` | cxx_impl/src/helpers.cc:120-127 | a hexadecimal numeral without leading zeros has the value it was printed from, in both cases |
| `Ipv6.FindZeroRun` | cxx_impl/src/http.cc:715-738 | the byte scan finds exactly the first run of zero groups |
| `Ipv6.PrintSide` | cxx_impl/src/http.cc:744-771 | a printing loop writes the groups without leading zeros, joined by colons |
| `Ipv6.AddrToStr` | cxx_impl/src/http.cc:713-804 | the printed text is the groups with the first zero run replaced by `::` |
| `Ipv6Parser.PutForward` | cxx_impl/src/http.cc:181-327 | the four forward decoding cases write the two bytes of the segment's number and nothing else |
| `Ipv6Parser.PutBackward` | cxx_impl/src/http.cc:362-500 | the four backward cases write the same two bytes |
| `Ipv6Parser.ParseForward` | cxx_impl/src/http.cc:167-342 | the forward walk reads the segments' groups into the front of the array, raises, or runs on forever, exactly as specified |
| `Ipv6Parser.ParseBackward` | cxx_impl/src/http.cc:344-519 | the backward walk reads the segments' groups into the back of the array without touching the left ones |
| `Ipv6Parser.FindDouble` | cxx_impl/src/http.cc:120-137 | raises exactly on three colons in a row, otherwise finds the last `::` |
| `Ipv6Parser.CountSegments` | cxx_impl/src/http.cc:142-155 | the two flags count the segments followed by a colon |
| `Ipv6Parser.SidesFit` | cxx_impl/src/http.cc:141-165 | the segment count keeps the left and right groups from meeting |
| `Ipv6Parser.StrToAddr` | cxx_impl/src/http.cc:65-711 | the whole parser on every text: scope, brackets, character check, both forms, every error |
| `Ipv6Spinning.StuckExactly` | cxx_impl/src/http.cc:535-706 | a walk over all segments of a text without adjacent colons runs off exactly when the segment lengths say so |
| `Ipv6Spinning.SpinsExactly` | cxx_impl/src/http.cc:520-707 | a text spins if and only if its scope is known, its brackets match and the address inside has no `::`, eight hexadecimal segments and a runaway end |
| `Ipv6Spinning.WrapRound` | cxx_impl/src/http.cc:541-706 | a spinning walk takes the idle turns to 2^64 and then raises at index zero |
| `Ipv6Spinning.FinalColonSpins` | cxx_impl/src/http.cc:541-706 | `1:2:3:4:5:6:7:` spins |
| `Ipv6Spinning.LongEndSpins` | cxx_impl/src/http.cc:538-550 | a last segment of 256 digits spins without a final colon |
| `Ipv6Spinning.FinalColonCanRaise` | cxx_impl/src/http.cc:691-694 | `12345:2:3:4:5:6:7:` ends in a colon and is rejected |
| `Ipv6Parser.ParseInside` | cxx_impl/src/http.cc:111-708 | character check, choice of form, segment counts and both walks give exactly the specified bytes or error |
| `Ipv6RoundTrip.ForwardOfJoin` | cxx_impl/src/http.cc:167-342 | reading any joined segments forward gives their values |
| `Ipv6RoundTrip.BackwardOfJoin` | cxx_impl/src/http.cc:344-519 | reading any joined segments backward gives their values |
| `Ipv6RoundTrip.RoundTrip` | cxx_impl/src/http.cc:139-804 | parsing the printed text of any 16 bytes gives those bytes and no scope |
| `Ipv6RoundTrip.BracketedRoundTrip` | cxx_impl/src/http.cc:96-165 | in brackets the address comes back if and only if its first zero group is not the last group |
| `Ipv6RoundTrip.ScopedRoundTrip` | cxx_impl/src/http.cc:73-100 | with a scope the address and the interface index come back, with the same exception |
| `Ipv6RoundTrip.BracketsRefuseAnAddress` | cxx_impl/src/http.cc:157-164 | a concrete address that is parsed without brackets and refused in them |
| `Ipv6RoundTrip.PrintInjective` | cxx_impl/src/http.cc:713-804 | two addresses never print alike |
| `Ipv6Language.ParsesExactly` | cxx_impl/src/http.cc:65-711 | a text is parsed as an address with a scope if and only if the scope is known, the brackets match, and what they enclose is eight readable segments or no more than fit around one `::`, with that value |
| `Ipv6Language.BodyParsesExactly` | cxx_impl/src/http.cc:111-708 | the same for the part between brackets and before the scope |
| `Ipv6Language.ForwardSound` | cxx_impl/src/http.cc:167-342 | a forward walk that reads has read all segments of the text, or as many as there is room for |
| `Ipv6Language.BackwardSound` | cxx_impl/src/http.cc:344-519 | the same for the backward walk |
| `Ipv6RoundTrip.SegmentsParsed` | cxx_impl/src/http.cc:139-165 | segments around `::` are accepted if and only if they fit, with their values |
| `Ipv6RoundTrip.EightParsed` | cxx_impl/src/http.cc:520-707 | eight joined segments are read as their values |
| `Bytes.LittleEndianInverse` | cxx_impl/src/db_msql.cc:1861-1907 | k little-endian bytes give back every number below 256^k |
| `Bytes.ParseEncodedLength` | cxx_impl/src/db_msql.cc:1861-1907 | parsing inverts every length prefix and reports its size, whatever follows |
| `Params.BuildNullBitmap` | cxx_impl/src/db_msql.cc:782-797 | the bitmap loop builds the bitmap specified bit by bit |
| `Params.BitIsNull` | cxx_impl/src/db_msql.cc:786-796 | a bit is set if and only if its parameter exists and is NULL |
| `Params.EncodeParams` | cxx_impl/src/db_msql.cc:780-955 | bitmap, flag, types and values in the written order |
| `Params.DecodeEncoded` | cxx_impl/src/db_msql.cc:780-955 | a reader that takes NULLs from the bitmap and the rest from types and values recovers exactly the bound parameters |
| `Params.EncodingInjective` | cxx_impl/src/db_msql.cc:780-955 | for a fixed count, different parameters are encoded differently |
| `Packets.CreatePackets` | cxx_impl/src/db_msql.cc:1286-1312 | the loop splits the payload as specified and advances the sequence number by the packet count modulo 256 |
| `Packets.SplitShape` | cxx_impl/src/db_msql.cc:1286-1312 | full packets, then one shorter packet, numbered consecutively modulo 256, lengths matching bodies |
| `Packets.ReadBack` | cxx_impl/src/db_msql.cc:1314-1343 | joining packets until the short one recovers every non-empty payload and leaves the rest of the stream |
| `RowValues.BitPosition` | cxx_impl/src/db_msql.cc:2387-2394 | the subtraction loop finds the byte and bit of column b at offset two |
| `RowValues.ParseRowPkt` | cxx_impl/src/db_msql.cc:2355-2916 | the column loop decodes the row: bytes that encode values give exactly those values, DECIMALs as NULL, or a rejection when the exact condition fails |
| `RowValues.CellDecoded` | cxx_impl/src/db_msql.cc:2408-2912 | every integer, floating, text, date and time field is read as the value its bytes encode and a DECIMAL as NULL, or a bounded one is rejected because it ends at 4096 or later |
| `RowValues.RowRead` | cxx_impl/src/db_msql.cc:2355-2916 | an encoded row is accepted, with NULL for each DECIMAL, if and only if a value byte follows the bitmap, the values start below 4096 and every bounded field ends below it; otherwise it is rejected |
| `RowValues.RowReadBack` | cxx_impl/src/db_msql.cc:2355-2916 | it is read back as its values if and only if it is accepted and has no DECIMAL value |
| `RowValues.DecimalReadAsNull` | cxx_impl/src/db_msql.cc:2409-2426 | the DECIMAL 1.5 is accepted and read as NULL |
| `RowValues.NullRowRefused` | cxx_impl/src/db_msql.cc:2382-2385 | a row of NULLs only is rejected, whatever its columns |
| `RowValues.OneNullRefused` | cxx_impl/src/db_msql.cc:2382-2385 | the bytes 0, 4 of a single NULL string column are rejected |
| `RowValues.DecimalWrapsExactly` | cxx_impl/src/db_msql.cc:2409-2426 | a DECIMAL field that runs past its row is accepted if and only if the 64-bit index wraps to a position inside the row and below 4096 |
| `RowValues.DecimalLengthWraps` | cxx_impl/src/db_msql.cc:2409-2426 | for instance a length of 2^64 - 1 moves the index back and is accepted |
| `Framing.ReadResponse` | cxx_impl/src/db_msql.cc:1007-1244 | for every trace of reads, pauses and ends the loop's outcome is that of parsing in one go the bytes before the end or the first pause after data |
| `Framing.OutcomeExactly` | cxx_impl/src/db_msql.cc:1010-1038 | a delivery has the outcome of its bytes if no pause comes between the first data and the last deciding byte, and fails otherwise |
| `Framing.PauseFails` | cxx_impl/src/db_msql.cc:1012-1019 | every response fails when it pauses anywhere before its last deciding byte |
| `Framing.PauseMatters` | cxx_impl/src/db_msql.cc:1012-1019 | a concrete OK response succeeds in one read and fails with a pause after its header |
| `Framing.SteadyOutcome` | cxx_impl/src/db_msql.cc:1007-1244 | without pauses the cut into reads does not matter |
| `Framing.CompareCuts` | cxx_impl/src/db_msql.cc:1010-1120 | two deliveries of one response agree if and only if it fails anyway, or both are in time, or neither is |
| `Framing.RowsHaveColumnCount` | cxx_impl/src/db_msql.cc:1165-1241 | once the columns are counted, every row of a success has that many cells |
| `Framing.RowsMatchAnnouncement` | cxx_impl/src/db_msql.cc:1007-1244 | every returned row has the column count announced by the first packet |
| `ResponseValues.ColumnRead` | cxx_impl/src/db_msql.cc:2174-2353 | a column definition of a server gives its type and flags if it is shorter than the buffer and is rejected otherwise |
| `ResponseValues.OkayAccepted` | cxx_impl/src/db_msql.cc:1688-1769 | an OK packet with or without a message is accepted and ends the response |
| `ResponseValues.EndingRead` | cxx_impl/src/db_msql.cc:1128-1163 | an OK packet succeeds with the rows so far, the errors 1213 and 1205 ask for a retry, any other error fails |
| `ResponseValues.PacketRead` | cxx_impl/src/db_msql.cc:1040-1126 | a packet with its header is taken off the stream and its payload handled |
| `ResponseValues.SetRead` | cxx_impl/src/db_msql.cc:1007-1244 | a result set (count, definitions, rows, ending) gives its rows in order and its ending if and only if all definitions are short and all rows accepted, and fails otherwise |
| `ResponseValues.StatementRead` | cxx_impl/src/db_msql.cc:1128-1163 | a response without a result set gives its ending at once |
| `ResponseValues.SetDelivered` | cxx_impl/src/db_msql.cc:1007-1244 | however an acceptable result set is cut into reads without pauses, its rows arrive |
| `GateLocks.LockDiscipline` | cxx_impl/src/db_msql.cc:3029-3259 | in every reachable state no session holds two tables, none holds one after its call, and whoever waits holds none |
| `GateLocks.FittingMoveKeepsLocks` | cxx_impl/src/db_msql.cc:3029-3259 | every statement keeps the lock table in step with the sessions' program counters |
| `GateProvenance.AllowedRowsTraceBack` | cxx_impl/src/db.cc:489-551 | on either backend every allowed row has a challenge for its address and port with the hash of the answer sent, and that challenge a token issued for the port |
| `GateProvenance.MoveTraced` | cxx_impl/src/db.cc:341-551 | every insert a session is about to make is already accounted for |
| `GateProvenance.NextKeepsTraced` | cxx_impl/src/db_msql.cc:3029-3259 | every step of every interleaving keeps the provenance invariant |
| `GateOneShot.TokenRedeemedOnce` | cxx_impl/src/db_msql.cc:3093-3125 | on MySQL no two calls redeem the same token row, and a redeemed row is gone |
| `GateOneShot.ChallengeAcceptedOnce` | cxx_impl/src/db_msql.cc:3127-3185 | of the answers accepted for a challenge at most one had its DELETE executed |
| `GateMatches.SpentNeverMatched` | cxx_impl/src/db_msql.cc:3127-3185 | once a challenge's DELETE has executed its row is gone for good and no later statement matches it |
| `GateMatches.EarlierMatchMisses` | cxx_impl/src/db_msql.cc:3127-3185 | of two sessions that match the same challenge the earlier one's DELETE fails for good |
| `GateMatches.SecondAcceptNeedsFailedDelete` | cxx_impl/src/db_msql.cc:3127-3185 | two answers accepted for one challenge matched it one after the other, and the first one's DELETE failed |
| `GateWitness.FailedDeleteAcceptsTwice` | cxx_impl/src/db_msql.cc:3127-3185 | a reachable state in which one challenge was accepted twice, the first time with a failed DELETE |
| `GateOneShot.AcceptedInTime` | cxx_impl/src/db_msql.cc:3127-3185 | an accepted challenge was younger than the challenge timeout at the cleanup before the match |
| `GateOneShot.NextKeepsOneShot` | cxx_impl/src/db_msql.cc:3029-3185 | every step of every interleaving keeps both one-shot invariants |
| `GateFresh.KeyInjective` | cxx_impl/src/main.cc:1641-1644 | the "ip:port" key determines address and port, whatever characters the address has |
| `GateFresh.ForwardsAreFresh` | cxx_impl/src/main.cc:1637-1787 | each forwarded request is backed by a traced answer from its address at most allowed_timeout minutes plus 120 seconds older than its captured time |
| `GateFresh.NextKeepsBacked` | cxx_impl/src/main.cc:1637-1787 | every step, including cache inserts and cache clears, keeps cache, rows and forwards backed |
| `GateService.PassIsServed` | cxx_impl/src/main.cc:1637-1787 | on either backend a page request whose address and port have a young allowed row never asks for a challenge unless its own statement fails, and once finished it has been forwarded |
| `GateService.YoungIsKept` | cxx_impl/src/db_msql.cc:3187-3218 | a cleanup keeps a row if and only if it is younger than the timeout, on SQLite up to and including it |
| `GateService.RowIsThere` | cxx_impl/src/db_msql.cc:3187-3218 | an inserted allowed row stays in the table as long as it is young |
| `GateService.CacheDecides` | cxx_impl/src/main.cc:1637-1677 | the lookup goes straight to forwarding if and only if the cached time is at most 120 seconds old |
| `GateService.AnswerIsAccepted` | cxx_impl/src/db_msql.cc:3127-3185 | an answer session none of whose statements fails has an accepted entry for its address once it is finished |
| `GateWitness.AnswerIt` | cxx_impl/src/db_msql.cc:3127-3185 | from every reachable state without locks a correct answer to a young challenge can be accepted, with or without a failing DELETE |
| `GateWitness.ServeIt` | cxx_impl/src/main.cc:1637-1787 | from every reachable state without locks a request with a young pass can be forwarded, whatever the cache |
| `Sequence.SequenceIsExact` | cxx_impl/src/db_msql.cc:2930-3009 | across any interleaving the table has at most one row, and the k-th number handed out is k until the wrap |
| `Sequence.NumbersAreDistinct` | cxx_impl/src/db_msql.cc:2930-3009 | before the wrap no two calls return the same number |
| `Jobs.ExactlyOnePlace` | cxx_impl/src/thread_pool.cc:26-97 | balanced books mean that a submitted job is in exactly one place, and has run exactly if it is being or was cleaned up without having been dropped |
| `Jobs.RanBefore` | cxx_impl/src/thread_pool.cc:54-68 | a job that was not dropped has run before its cleanup |
| `ThreadPool.NextKeepsInv` | cxx_impl/src/thread_pool.cc:26-168 | every step of owner and workers, including resizes, keeps the job books and the mutex discipline |
| `ThreadPool.EveryJobAccounted` | cxx_impl/src/thread_pool.cc:26-97 | in every reachable state each job is pending, held by one worker, or cleaned; the jobs run are exactly those being or having been cleaned except the ones the destructor dropped, each once and before its cleanup |
| `ThreadPool.PendingIsGuarded` | cxx_impl/src/thread_pool.cc:34-97 | no two agents are about to touch the pending vector together |
| `ThreadPool.DestroyedCleansAll` | cxx_impl/src/thread_pool.cc:81-97 | when the destructor has returned, every job was cleaned exactly once, and every job that was not still pending has run |
| `ThreadPoolRuns.JobsCanFinish` | cxx_impl/src/thread_pool.cc:26-79 | from every reachable state with an idle owner and a thread all jobs can be run and cleaned up |
| `ThreadPoolRuns.DestructorCanReturn` | cxx_impl/src/thread_pool.cc:81-97 | from every reachable state with an idle owner the destructor can return |
| `ThreadPoolRuns.NewestFirst` | cxx_impl/src/thread_pool.cc:46-51 | a worker takes the newest pending job and leaves the others |
| `ThreadLimit.NextKeepsCounter` | cxx_impl/src/thread_limit.cc:174-186 | every step keeps the counter equal to started and unfinished jobs and, with agents past the check, within limit + 1 |
| `ThreadLimit.CounterIsExact` | cxx_impl/src/thread_limit.cc:27-68 | in every reachable state the counter is the number of started and unfinished jobs and at most limit + 1 |
| `ThreadLimit.WithinExactly` | cxx_impl/src/thread_limit.cc:174-186 | in every run the limit is kept, counting agents past the check, if and only if producer and manager were never both past it for the last free place |
| `ThreadLimit.CriticalCanExceed` | cxx_impl/src/thread_limit.cc:174-186 | from every reachable state with both past the check for the last place a state above the limit is reachable |
| `ThreadLimit.LimitWithoutOverlap` | cxx_impl/src/thread_limit.cc:174-186 | in particular it stays within the limit as long as checks and increments of the two agents never overlap |
| `ThreadLimit.LimitCanBeExceeded` | cxx_impl/src/thread_limit.cc:174-186 | for every limit a run that reaches limit + 1 |
| `ThreadLimit.EveryJobAccounted` | cxx_impl/src/thread_limit.cc:27-68 | in every reachable state each accepted job waits, is held by one thread, or is cleaned; the jobs run are exactly those being or having been cleaned except the ones the destructor dropped, each once and before its cleanup |
| `ThreadLimit.DestroyedCleansAll` | cxx_impl/src/thread_limit.cc:86-113 | when the destructor has returned, every accepted job was cleaned exactly once, and every job that was not still queued has run |
| `ThreadLimitRuns.JobsCanFinish` | cxx_impl/src/thread_limit.cc:27-68 | from every reachable state with an idle producer all accepted jobs can be run and cleaned up, the queued ones included |
| `ThreadLimitRuns.DestructorCanReturn` | cxx_impl/src/thread_limit.cc:86-113 | from there the destructor can return with all jobs run |
| `ThreadLimitRuns.OldestFirst` | cxx_impl/src/thread_limit.cc:53-68 | the manager starts queued jobs in the order in which they were accepted |
| `Chunked.Client.WriteAll` | cxx_impl/src/main.cc:1212-1238 | the offset loop sends a prefix of the data, all of it if and only if the client's write results take it all |
| `Chunked.SendChunk` | cxx_impl/src/main.cc:1202-1268 | a chunk is sent completely if and only if the client takes both its lines, otherwise as a prefix |
| `Chunked.FinishBody` | cxx_impl/src/main.cc:984-994 | the terminating chunk is sent completely if and only if one write takes all five bytes, otherwise as a prefix |
| `Chunked.DecodeComplete` | cxx_impl/src/main.cc:1202-1283 | however the body is segmented, the chunks and the last chunk decode to exactly the body |
| `Chunked.ForwardBody` | cxx_impl/src/main.cc:963-1283 | for all reads and partial writes: the client has the chunk coding of the bytes of the reads used and then the last chunk, nothing, or a beginning of the last or next chunk; the outcome is that of the first read that does not pass, so it is completed if and only if some read ends the body with all earlier ones in time and in length and the client takes everything; remaining plus forwarded length is the announced length throughout |
| `Chunked.SteadyTransferCompletes` | cxx_impl/src/main.cc:963-1283 | a body that comes without pauses, fits its announcement and is taken by the client is transferred completely |
| `Chunked.EagerTakesAll` | cxx_impl/src/main.cc:1212-1238 | a client whose every write takes all it is given takes every chunk |

## Left out

- Socket setup, accept and poll loops, curl forwarding, the HTTP request and response header scanners: plumbing, and tied to read boundaries.
- A response that already is chunked, and the short-cut for 304 responses: passed through unchanged.
- The MySQL handshake, authentication and prepare response; statement retries, whose decision is an outcome (`Retry`) that is not re-executed.
- Column type checks of the callers of a query, and the text form of dates and times, which are kept as raw bytes.
- The base-10 sibling of generator and printer, which repeats the base-64 one with powers of ten.
- The Rust server, which repeats the gate with another cache key, and both foreign-function layers.
- BLAKE3, the random number generator, and the heap, list and chunked array internals: `Heap.PriorityHeap` is an assumed contract.
- Move construction and assignment of the thread classes; that threads do progress under a given scheduler: only that they always can is stated, since condition variables may wake or not.
- Argument and configuration parsing, HTML, MIME types, printing, signals; hosts that are not little-endian.
- IPv4 text, and the HTTP request parser.
- Length fields so large that a string constructor throws (OK packets, column definitions): the model has a failure or `Undefined` where the source raises.
- ResponseValues.SetRead: payloads below 2^24 bytes; a server splits longer ones into several packets.
- Sequence.NumbersAreDistinct: stated for MySQL; the SQLite sequence returns 1 twice at its start.
- Validator.AcceptsExactlyOrdered: primes below 2^64, the width of the validator's numbers.
- RowValues.RowRead: rows with a DECIMAL value are smaller than 2^64 bytes, the width of the source's sizes.
