# TCP latency tool and Monte Carlo catching simulator — a Dafny model

This project models the core of two Python programs and proves properties of the model.

**tcp_latency_measurement.py**

- `TCPServer` answers `ping` requests with a `pong` that carries the one-way latency it measured. It records every latency in a statistics dictionary and answers `stats` queries with a summary: count, total, minimum, maximum, mean, median and standard deviation.
- `TCPClient` sends pings over one connection. It keeps the latency each reply reports, or its own round-trip time when the reply has none, and summarises them at the end of a run.

**monte_carlo_simulator_catching.py**

- Reads four anchor points `(x, y, signal)`, either from a `--points` argument or from piped stdin.
- Warns about anchors that lie off the screen.
- Draws random candidate points and keeps the one whose distances to the anchors are best proportional to the signals. At each candidate it uses the least-squares scale `k = Σ d·s / Σ s²`.

Module layout:

- `Statistics`: the parts of Python's `statistics`, `sum`, `min`, `max` and `sorted` that the tool uses.
- `LatencyStats`: the statistics dictionary as a value, `update_stats` as `Record`, and `get_stats` as `Report`.
- `Protocol`: one iteration of the `handle_client` loop (`Step`) and a connection's whole loop (`Run`).
- `Server`: the class `TCPServer`. Its fields are updated in place.
- `Client`: the class `TCPClient`, its ping loop and `run_client`.
- `PyText`: `str.strip`, `str.split(sep)`, `str.split()`, `str.replace(" ", "")` and the strip-and-drop-blank comprehension.
- `AnchorParsing`: `parse_points_arg` and the piped-stdin reader of `main`.
- `CatchingSearch`: `compute_best_scale_and_error`, `monte_carlo_search` and `validate_anchors_within_screen`.

Some inputs are modelled as parameters rather than computed:

- Clocks, sockets and JSON decoding: each read the server performs is an `Arrival` value, and each client exchange is an `Exchange` value.
- `float()`: a partial function `string -> Option<real>`.
- `math.hypot`: a function parameter.
- The random generator: a sequence of drawn candidate points.

Numbers are mathematical reals, and the initial `float('inf')` minimum is `None`.

Behaviour of the latency tool's code worth noting, which the model follows:

- No lock guards the statistics. Concurrent handlers are modelled as some sequential order of their updates, and `LatencyStats.ReportIndependentOfOrder` shows that every order gives the same count, total, minimum, maximum, mean and median. The sample list in the summary keeps arrival order, so it does differ between orders, and the standard deviation is not covered by that lemma.
- Only a `JSONDecodeError` keeps the connection open. A payload that is not UTF-8, JSON that is not an object, and a ping whose timestamp is not a number all raise other exceptions. The outer handler catches these, and the connection closes.
- A ping without a timestamp is measured against a clock reading taken while the request is parsed.
- `client_socket` is assigned before the connection attempt, so it stays set after a failed `connect`.
- In `parse_points_arg`, blank comma-separated fields are dropped, not rejected: `"1,,2,3"` reads as three fields.

## Model

| member | source | states |
|---|---|---|
| Statistics.SumPermutation | tcp_latency_measurement.py:127 | the running total `sum` does not depend on the order of the samples |
| Statistics.SeqMin | tcp_latency_measurement.py:212 | `min(s)` is an element of `s` and no element is smaller |
| Statistics.SeqMax | tcp_latency_measurement.py:213 | `max(s)` is an element of `s` and no element is larger |
| Statistics.MinMaxPermutation | tcp_latency_measurement.py:212-213 | two lists holding the same values have the same min and max |
| Statistics.Insert | tcp_latency_measurement.py:140 | insertion into a sorted list gives a sorted list holding one more copy of the value |
| Statistics.Sort | tcp_latency_measurement.py:140 | `sorted(s)` is ordered and a permutation of `s` |
| Statistics.SortedUnique | tcp_latency_measurement.py:140 | two sorted permutations of the same values are equal |
| Statistics.MeanBounds | tcp_latency_measurement.py:139 | `statistics.mean` lies between the smallest and the largest sample |
| Statistics.MedianBounds | tcp_latency_measurement.py:140 | `statistics.median` lies between min and max, and is a sample for an odd count |
| Statistics.MedianPermutation | tcp_latency_measurement.py:140 | the median depends only on the multiset of samples |
| Statistics.SumSquaredDeviations | tcp_latency_measurement.py:141 | the sum of squared deviations is non-negative |
| Statistics.SampleVariance | tcp_latency_measurement.py:141 | the square of `statistics.stdev` (n − 1 denominator) is non-negative |
| LatencyStats.Record | tcp_latency_measurement.py:124-133 | `update_stats`: count +1, total + sample, sample appended, min lowered and max raised to the sample only when it passes them |
| LatencyStats.RecordKeepsConsistent | tcp_latency_measurement.py:124-133 | one update keeps the count equal to the number of samples, the total equal to their sum, min = smallest sample and max = max(0, largest sample) |
| LatencyStats.RecordAllAppends | tcp_latency_measurement.py:124-133 | any run of updates appends exactly its samples in order and counts them |
| LatencyStats.RecordAllKeepsConsistent | tcp_latency_measurement.py:124-133 | any run of updates keeps the record consistent |
| LatencyStats.FromInitial | tcp_latency_measurement.py:30-36 | from the initial dictionary, after samples `xs`: count `len(xs)`, total `sum(xs)`, min `min(xs)`, max `max(0, max(xs))`, every sample between min and max |
| LatencyStats.MaxLatencyFloorsAtZero | tcp_latency_measurement.py:34 | because `max_latency` starts at 0, all-negative samples report a maximum of 0 that no sample has; otherwise the maximum is the largest sample |
| LatencyStats.Report | tcp_latency_measurement.py:135-146 | `get_stats` copies the record; mean, median and std are 0 without samples; std is 0 for one sample; mean and median lie within the samples' range |
| LatencyStats.ReportWithinRecordedBounds | tcp_latency_measurement.py:135-146 | on a consistent record, avg = total / count and min ≤ avg, median ≤ max |
| LatencyStats.ReportFromInitial | tcp_latency_measurement.py:135-146 | the summary after samples `xs` reports `len`, `sum`, `min`, `max(0, max)`, `mean` and `median` of `xs` |
| LatencyStats.ReportIndependentOfOrder | tcp_latency_measurement.py:57-62 | handlers updating in any interleaved order give the same count, total, min, max, mean and median |
| Protocol.Step | tcp_latency_measurement.py:83-116 | a ping (missing type included) is answered with a pong stamped with the receive time and its latency recorded; a stats query gets the summary of the unchanged record; bad JSON and unknown types are skipped; an empty read, non-UTF-8 data, non-object JSON and a ping's non-numeric timestamp close the connection (if and only if); a stats query's timestamp is ignored; the record changes only by the latency the pong reports |
| Protocol.RunRecordsPongLatencies | tcp_latency_measurement.py:76-116 | over a connection's lifetime the record changes exactly by the latencies of the pongs sent, in order |
| Protocol.RunCountsPongs | tcp_latency_measurement.py:76-116 | the request counter grows by the number of pongs sent and a consistent record stays consistent |
| Protocol.MalformedPayloadKeepsConnection | tcp_latency_measurement.py:115-116 | a payload that is not JSON is dropped and the connection goes on serving the next request exactly as if it had not arrived |
| Server.TCPServer.constructor | tcp_latency_measurement.py:30-36 | the fields start as the initial dictionary, which is consistent |
| Server.TCPServer.UpdateStats | tcp_latency_measurement.py:124-133 | the in-place field updates perform `Record` and keep the record consistent |
| Server.TCPServer.GetStats | tcp_latency_measurement.py:135-146 | the summary is `Report` of the record, which it only reads: the copied count, total, min, max and samples, and (see `ReportFromInitial`) the mean and median of the samples; with samples, avg = total / count and min ≤ avg, median ≤ max |
| Server.TCPServer.HandleRequest | tcp_latency_measurement.py:83-116 | one read handled in place does what `Step` says, to the response and to the fields |
| Server.TCPServer.HandleClient | tcp_latency_measurement.py:76-122 | the connection loop sends the responses of `Run`, stops at the first closing read, and records exactly the pongs' latencies |
| Client.PingSample | tcp_latency_measurement.py:175-203 | no sample without a socket, on an exception or on an empty reply; otherwise the reply's `latency` or, when absent, the local round trip in ms |
| Client.Samples | tcp_latency_measurement.py:198 | the kept samples are exactly the values of the successful results; no round gives nothing, a successful round gives its value, a failed one nothing |
| Client.SamplesConcat | tcp_latency_measurement.py:198 | the samples of consecutive rounds are the samples of each in order, so every successful round contributes its value once, in its place |
| Client.TCPClient.constructor | tcp_latency_measurement.py:158-162 | no socket and no samples |
| Client.TCPClient.Connect | tcp_latency_measurement.py:164-173 | returns whether the connection succeeded; the socket field is set either way |
| Client.TCPClient.SendPing | tcp_latency_measurement.py:175-203 | returns the sample rule's result and appends it to `latencies` only when there is one |
| Client.TCPClient.GetStats | tcp_latency_measurement.py:205-217 | `None` exactly when there are no samples; otherwise the count, `min`, `max`, `statistics.mean` and `statistics.median` of the samples, the min and max being samples bounding all others and the mean and median between them, std 0 for one sample |
| Client.TCPClient.PingAll | tcp_latency_measurement.py:246-254 | one `send_ping` per round in order; `latencies` gains exactly the successful samples |
| Client.RunClient | tcp_latency_measurement.py:234-272 | a failed connect sends no ping and reports nothing; otherwise the report is absent exactly when no round got a decoded reply, counts the successful rounds and gives their `min`, `max`, `statistics.mean` and `statistics.median` |
| PyText.TrimStart | monte_carlo_simulator_catching.py:43 | `lstrip` removes exactly a whitespace prefix and leaves a non-space first character |
| PyText.TrimEnd | monte_carlo_simulator_catching.py:43 | `rstrip` removes exactly a whitespace suffix and leaves a non-space last character |
| PyText.Strip | monte_carlo_simulator_catching.py:43 | `strip` leaves no whitespace at either end |
| PyText.StripOuterSpace | monte_carlo_simulator_catching.py:43 | `s.strip()` is `s` with a whitespace prefix and a whitespace suffix cut off |
| PyText.StripChars | monte_carlo_simulator_catching.py:43 | stripping only removes characters |
| PyText.StripBlank | monte_carlo_simulator_catching.py:43 | `p.strip()` is empty if and only if `p` is all whitespace |
| PyText.StripUnchanged | monte_carlo_simulator_catching.py:49 | a string without outer whitespace is its own strip |
| PyText.SplitWherePieces | monte_carlo_simulator_catching.py:200 | each piece of a split holds characters of the string that are not separators |
| PyText.SplitPieces | monte_carlo_simulator_catching.py:43 | no piece of `s.split(sep)` holds `sep` |
| PyText.JoinSplit | monte_carlo_simulator_catching.py:43 | joining the pieces of `s.split(sep)` with `sep` gives `s` back |
| PyText.SplitWhereJoin | monte_carlo_simulator_catching.py:200 | splitting a join of separator-free pieces on a separator gives the pieces back |
| PyText.SplitJoin | monte_carlo_simulator_catching.py:49 | splitting a join of separator-free pieces gives the pieces back |
| PyText.StrippedNonBlankShape | monte_carlo_simulator_catching.py:43 | every kept piece is non-empty and stripped |
| PyText.StrippedNonBlankKeeps | monte_carlo_simulator_catching.py:43 | the comprehension keeps, stripped and in order, exactly the pieces not all whitespace |
| PyText.StrippedNonBlankUnchanged | monte_carlo_simulator_catching.py:49 | already stripped non-blank pieces pass through unchanged |
| PyText.WordsShape | monte_carlo_simulator_catching.py:200 | `line.split()` gives non-empty words of non-whitespace characters of the line |
| PyText.WordsJoin | monte_carlo_simulator_catching.py:200 | `line.split()` of words joined by single spaces gives back exactly those words, in order |
| PyText.NonEmpty | monte_carlo_simulator_catching.py:200 | `[t for t in ps if t]` holds a piece if and only if it is a non-empty piece of `ps` |
| PyText.NonEmptyConcat | monte_carlo_simulator_catching.py:200 | the filter keeps, in order, the non-empty pieces of each part of the list |
| PyText.NonEmptySingle | monte_carlo_simulator_catching.py:200 | one piece is kept exactly when it is non-empty |
| PyText.NonEmptyUnchanged | monte_carlo_simulator_catching.py:200 | a list of non-empty pieces passes through unchanged |
| PyText.RemoveSpacesChars | monte_carlo_simulator_catching.py:49 | `replace(" ", "")` keeps exactly the characters other than the space |
| PyText.RemoveSpacesConcat | monte_carlo_simulator_catching.py:49 | removing spaces from a concatenation removes them from each part, so the kept characters stay in order with their multiplicity |
| PyText.RemoveSpacesSingle | monte_carlo_simulator_catching.py:49 | a single character is dropped exactly when it is a space |
| PyText.RemoveSpacesUnchanged | monte_carlo_simulator_catching.py:49 | a string without spaces is unchanged |
| AnchorParsing.ToAnchor | monte_carlo_simulator_catching.py:52-53 | the anchor is built if and only if all three `float()` calls succeed; otherwise the error names the first field that fails |
| AnchorParsing.FieldsWellFormed | monte_carlo_simulator_catching.py:49 | every field kept is non-empty and holds neither a comma nor a space |
| AnchorParsing.ParsePointsArg | monte_carlo_simulator_catching.py:39-54 | not exactly 4 non-blank parts → error; success gives 4 anchors, each the parse of its part; all parts parse → success; otherwise the error is the first bad part's |
| AnchorParsing.JoinedTokens | monte_carlo_simulator_catching.py:49 | three plain number tokens joined by commas are read back as those three fields |
| AnchorParsing.TripletShape | monte_carlo_simulator_catching.py:49-53 | a triplet written with a printer whose output for the anchor's three numbers `float()` reads back parses to the same anchor |
| AnchorParsing.FormatTriplets | monte_carlo_simulator_catching.py:40-41 | writes one `x,y,signal` triplet per anchor, in order |
| AnchorParsing.PointsRoundTrip | monte_carlo_simulator_catching.py:39-54 | four anchors written in the `x1,y1,s1;...` format, with numbers `float()` reads back, parse back to the same anchors in order |
| AnchorParsing.ParsePipedStdin | monte_carlo_simulator_catching.py:195-212 | fewer than 4 non-blank lines fall back to interactive input (iff); success gives the parses of the first 4 lines; all 4 parse → success; otherwise the error is the first bad line's |
| AnchorParsing.FormatLines | monte_carlo_simulator_catching.py:200 | writes one `x y signal` line per anchor, in order |
| AnchorParsing.LineRoundTrip | monte_carlo_simulator_catching.py:200-206 | a line written with a printer `float()` reads back for that anchor's numbers is stripped and parses to that anchor |
| AnchorParsing.StdinRoundTrip | monte_carlo_simulator_catching.py:196-207 | four anchors written one per line survive the strip-and-drop-blank step and parse back to the same anchors, in order |
| CatchingSearch.SquaredErrorNonNegative | monte_carlo_simulator_catching.py:107 | the fit error is a sum of squares and never negative |
| CatchingSearch.Expand | monte_carlo_simulator_catching.py:84-86 | the error is the quadratic Σd² − 2k·Σds + k²·Σs² in k |
| CatchingSearch.FlatSignals | monte_carlo_simulator_catching.py:100-103 | when every signal is zero, Σds is zero too, so the error is Σd² whatever k is |
| CatchingSearch.SumSquaresNonNegative | monte_carlo_simulator_catching.py:99 | Σs² is never negative |
| CatchingSearch.BestFit | monte_carlo_simulator_catching.py:84-108 | with all signals zero the fit is scale 0 and error Σd²; otherwise the scale is Σds / Σs²; the returned error is the squared error at the returned scale, and is non-negative |
| CatchingSearch.BestFitIsOptimal | monte_carlo_simulator_catching.py:82-87 | no scale leaves a smaller error than the returned one: k is the least-squares scale |
| CatchingSearch.QuadraticMinimum | monte_carlo_simulator_catching.py:86 | a − 2kd + k²s is least at k = d / s when s > 0 |
| CatchingSearch.ComputeBestScaleAndError | monte_carlo_simulator_catching.py:81-108 | the loop over anchors collects their distances and signals; the result is the closed-form fit, non-negative and no worse than any other scale |
| CatchingSearch.EarliestMinimumUnique | monte_carlo_simulator_catching.py:131-135 | the strict `<` keeps a unique sample: the earliest with the least error |
| CatchingSearch.MonteCarloSearch | monte_carlo_simulator_catching.py:111-138 | the result is the point, scale and error of the earliest sample with the least error; that error bounds every sample's error at every scale |
| CatchingSearch.SampleCount | monte_carlo_simulator_catching.py:222 | `max(1, num)` is `num` when that is positive and 1 otherwise |
| CatchingSearch.Draws | monte_carlo_simulator_catching.py:127-129 | the clamped count of draws, the j-th being the j-th point drawn, and at least one |
| CatchingSearch.SearchClamped | monte_carlo_simulator_catching.py:220-226 | with the clamped count the search always meets its assertion and returns the earliest best draw |
| CatchingSearch.ValidateAnchorsWithinScreen | monte_carlo_simulator_catching.py:141-151 | lists, increasing and 1-based, exactly the anchors off the screen; warns if and only if one is |

## Left out

- Sockets, the accept loop and `start`/`stop`: each read is an input value. The 1024-byte buffer, message framing and `send` failures are not modelled.
- The `running` flag is not modelled: a connection's loop runs until a read closes it or the reads run out.
- Threads and the missing lock: updates are modelled as whole `update_stats` calls in some sequential order. Lost updates from interleaving inside `update_stats` are not modelled.
- JSON encoding and decoding: a read is already classified, and a JSON `true` or `false` timestamp, which Python would subtract as 1 or 0, counts as a number of the expected kind.
- The client's reply is already classified. A reply whose `latency` field is not a number is treated as a decoded number.
- `time.time()`, `datetime.now().isoformat()` and `time.sleep`: the clock readings are inputs and the sleep is left out.
- IEEE double arithmetic, NaN and infinities: the arithmetic is on mathematical reals.
- LatencyStats.Report: states the square of `std_latency`, because the square root is not modelled.
- Client.TCPClient.GetStats: states the square of `std`, because the square root is not modelled.
- `float()`: it is a parameter, and the round trips hold for printers whose output for the anchors' numbers `float()` reads back as plain tokens. Its exact grammar, such as `"1e3"`, `"nan"` or surrounding whitespace, is not modelled.
- `math.hypot`: a parameter. Its floating-point value is not modelled.
- `random.Random` and `rng.uniform`: the draws are an input sequence. The model does not state that they lie within the screen.
- `get_screen_size`: it calls the Windows API.
- `read_points_interactive`: it prompts on a terminal. The model stops at the decision to call it.
- `parse_args`, the printed output, `close` and `run_server`.
- `main`'s check `len(anchors) != 4`: both modelled readers return exactly four anchors, and the interactive reader is not modelled.
- simple_tcp_client.py is not part of this model.
- Strip: its own contract states only the non-space ends. That the result is `s` with outer whitespace cut off is stated by the lemma StripOuterSpace.
- Samples: its own contract states membership and the zero- and one-round cases. Order and multiplicity over several rounds are stated by the lemma SamplesConcat.
- NonEmpty: its own contract states membership only. Order and multiplicity are stated by the lemmas NonEmptyConcat and NonEmptySingle.
- WordsShape: it states only the shape of the words. The words `line.split()` returns are pinned by WordsJoin, for words joined by single spaces; runs of several whitespace characters are not covered.
