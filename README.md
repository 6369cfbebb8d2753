# wayback-discover-diff: simhash engine and snapshot worker

This project models, in Dafny, the core of a service that fingerprints web
pages archived by the Wayback Machine, so that near-identical captures of a
URL can be found.

The model has two parts.

- **The simhash engine** (`pkg/simhash/simhash.go`) turns a page into a 64-bit fingerprint:
  1. It walks the parsed HTML tree and collects the visible text. `script` and `style` elements are skipped.
  2. It lower-cases that text and splits it into words.
  3. Each word's non-letters become spaces, the result is trimmed, and each resulting token is counted.
  4. Each token's BLAKE2b-512 digest votes on every bit of the fingerprint, most significant digest bit first, weighted by the token's count.
  5. A fingerprint bit is set when its vote is strictly positive.
  6. The fingerprint is stored as 8 little-endian bytes in standard base64 (section 4 of RFC 4648). `DecodeSimHash` reverses this. It accepts short payloads by zero-extending them and ignores bytes after the eighth.
- **The worker** (`pkg/worker/worker.go`) processes one URL for one year:
  1. It lists the year's captures from the CDX index.
  2. It takes the captures in order and checks for cancellation before each one.
  3. A capture whose key `simhash:<url>:<timestamp>` is already in Redis is skipped.
  4. Any other capture is downloaded. Only a 200 response with an HTML content type is accepted. The page is then fingerprinted and stored.
  5. Each failed capture raises `downloadErrs` by one. The job gives up when the count reaches `MaxErrors`.
  6. `HandleCalculateSimHash` resets the count to 0 before each job.

Imperative code stays imperative:
- `CalculateSimHash` fills an `array<int>` of votes in nested loops, then ORs bits into a `bv64`.
- `toBits` and `EncodeSimHash` fill arrays.
- `DecodeSimHash` accumulates in a loop.
- `extractText` appends to a `Text.Builder` object as it walks the tree.
- The worker is a `Worker` class. Its fields are `downloadErrs` and `store`, a `map<string, string>` standing for the Redis keys.

Each method is proved equal to a specification function. That function's
properties are then proved as lemmas. The worker also keeps a ghost `log` of
the captures it has processed: what each came to, and whether it was
downloaded. `ProcessURLForYear` is proved to append exactly the trace of
`Job` to it, so the lemmas about that trace hold of what the methods did.
The specification functions are:
- `Tally` for the feature map;
- `SimHashOf` for the fingerprint;
- `Pack` and `Decoded` for the storage form;
- `Job` and `RunFrom` for the worker loop.

The outside world is passed in as parameters:
- the BLAKE2b digest (`blake2b: string -> Digest`, 64 bytes);
- `html.Parse` (`parse: seq<byte> -> Option<Node>`);
- the Unicode letter, punctuation and lower-case tables (`Text.Unicode`);
- the CDX and replay HTTP replies (`Worker.Env.cdx`, `Worker.Env.replay`);
- the sets of keys whose Redis `Exists` or `Set` call fails;
- cancellation, as `done: nat -> bool`, which says whether the context is done when capture `i` comes up.

`unicode.IsSpace`, `strings.Fields`, `strings.TrimSpace`, `strings.Contains`
and base64 `StdEncoding` are modelled concretely.

Three behaviours of the code are worth noting:
- **Width.** `CalculateSimHash` clamps only sizes above 64 (simhash.go:69-71). A size of 0 gives the fingerprint 0. A negative size makes `make` panic, so the model requires `size >= 0`.
- **Body size.** `maxDownloadSize` (worker.go:22) is declared but never used. `ioutil.ReadAll` reads the whole body (worker.go:146), so there is no cap on the body size.
- **Decoding.** `DecodeSimHash` accepts any valid base64, whatever its length (simhash.go:129-132). A payload shorter than 8 bytes is zero-extended, and bytes after the eighth are ignored. Only invalid base64 is an error.

## Model

| member | source | states |
|---|---|---|
| SimHash.ExtractText | pkg/simhash/simhash.go:30-43 | the builder ends up holding its old contents followed by `VisibleText(n)`: each text node's data plus a space, in document order, with `script`/`style` subtrees not entered |
| SimHash.ExtractChildren | pkg/simhash/simhash.go:40-42 | the loop over the children appends the visible text of each child in order |
| SimHash.SkippedTextIgnored | pkg/simhash/simhash.go:34-39 | two trees that differ only inside `script` or `style` elements give the same text, so such text never reaches the features |
| SimHash.ExtractHTMLFeatures | pkg/simhash/simhash.go:20-65 | the map returned is `Features`: empty when parsing fails, otherwise the tally of the lower-cased words of the visible text |
| SimHash.CountWords | pkg/simhash/simhash.go:49-62 | the counting loop produces `Tally` of the words |
| SimHash.TallyKeysAreTokens | pkg/simhash/simhash.go:51-60 | every feature key is non-empty, has no space at either end, and holds only letters that are not punctuation and spaces |
| SimHash.NormalizedIsToken | pkg/simhash/simhash.go:51-58 | a word that survives mapping and trimming is a token in that sense |
| SimHash.TallyCounts | pkg/simhash/simhash.go:58-61 | a key is in the map iff it is a non-empty normalised word, and its count is the number of words that normalise to it |
| SimHash.CountsPositive | pkg/simhash/simhash.go:59-61 | every count is at least 1 |
| SimHash.TallyTotal | pkg/simhash/simhash.go:48-62 | the counts add up to the number of words minus those that normalise to the empty string, so never to more than the number of words |
| SimHash.SumAddWord | pkg/simhash/simhash.go:59-61 | counting a word raises the total by one, and an empty word changes nothing |
| SimHash.ToBits | pkg/simhash/simhash.go:103-111 | a fresh array of exactly `size` entries; entry `i` is bit `7 - i % 8` of byte `i / 8`, and is false at and beyond `8 * len(hash)` |
| SimHash.BitsOfBytePrefix | pkg/simhash/simhash.go:105-108 | the first `n` bits read from a byte, taken most significant first, are the byte's top `n` bits |
| SimHash.BitsOfByteSpellByte | pkg/simhash/simhash.go:105-108 | the eight bits read from a byte, taken most significant first, spell the byte: none lost or reordered |
| SimHash.BitOfOr | pkg/simhash/simhash.go:95 | OR-ing in `1 << i` sets bit `i` and leaves every other bit as it was |
| SimHash.NoBitOfZero | pkg/simhash/simhash.go:92 | the initial value 0 has no bit set |
| SimHash.Width | pkg/simhash/simhash.go:69-71 | the width is `size` capped at 64 |
| SimHash.AddVotes | pkg/simhash/simhash.go:82-88 | each position gains the weight where the digest bit is 1 and loses it where it is 0, and nothing else changes |
| SimHash.CalculateSimHash | pkg/simhash/simhash.go:68-100 | the result is `SimHashOf`: the fingerprint of the per-position sums of signed weights over all features, whatever order the map is visited in |
| SimHash.BuildFingerprint | pkg/simhash/simhash.go:92-97 | the final loop yields the fingerprint of the vote array |
| SimHash.FingerprintBits | pkg/simhash/simhash.go:93-96 | bit `j` of a fingerprint is set iff `j` is below the number of votes and vote `j` is strictly positive |
| SimHash.SimHashBits | pkg/simhash/simhash.go:69-97 | bit `j` of the simhash is set iff `j < min(size, 64)` and the weighted vote at `j` is strictly positive; ties and positions at or above the width are 0 |
| SimHash.EmptySimHash | pkg/simhash/simhash.go:73-97 | an empty feature map, or a size of 0, hashes to 0 |
| SimHash.SingleFeature | pkg/simhash/simhash.go:76-97 | with one feature of positive weight, the simhash is the first `min(size, 64)` digest bits of that feature |
| SimHash.VoteInAnyOrder | pkg/simhash/simhash.go:76-89 | adding the contributions in any order that visits each key once gives the same vote |
| SimHash.Pack | pkg/simhash/simhash.go:115-118 | the packed form is exactly 8 bytes |
| SimHash.EncodeSimHash | pkg/simhash/simhash.go:114-120 | the result is the base64 of the 8 little-endian bytes `byte(h >> 8i)`, and it is 12 characters long |
| SimHash.EncodedLength | pkg/simhash/simhash.go:119 | 8 bytes encode to 12 base64 characters |
| SimHash.LittleEndianOfPack | pkg/simhash/simhash.go:115-118 | the first `n` packed bytes, read back little-endian, are `h mod 256^n` |
| SimHash.UnpackPack | pkg/simhash/simhash.go:115-132 | unpacking the 8 packed bytes gives `h` back |
| SimHash.DecodeSimHash | pkg/simhash/simhash.go:123-134 | invalid base64 gives `(0, error)`; otherwise the first `min(len, 8)` bytes, read little-endian, and no error |
| SimHash.DecodeEncodeSimHash | pkg/simhash/simhash.go:114-134 | `DecodeSimHash(EncodeSimHash(h))` is `(h, nil)` for every 64-bit `h` |
| SimHash.UnpackZeroExtends | pkg/simhash/simhash.go:130 | a payload shorter than 8 bytes reads as if followed by zero bytes |
| SimHash.UnpackIgnoresExtra | pkg/simhash/simhash.go:130 | bytes after the eighth do not change the result |
| SimHash.LittleEndianDigit | pkg/simhash/simhash.go:131 | byte `i` of the decoded value is the `i`-th decoded byte, so the bytes OR'ed at shifts `8i` do not overlap and adding them equals OR-ing them |
| Base64.Encode | pkg/simhash/simhash.go:119 | `EncodeToString` produces 4 characters per started group of 3 bytes |
| Base64.Decode | pkg/simhash/simhash.go:124 | `DecodeString` succeeds only when what is left after skipping line breaks is whole groups of 4 characters with `=` only in the last two places, and it then yields 3 bytes per group less at most 2 |
| Base64.DecodeGroupsShape | pkg/simhash/simhash.go:124 | line-free input that decodes is whole groups of 4 characters, 3 bytes per group less at most 2, with padding only at the end |
| Base64.DecodeIgnoresNewline | pkg/simhash/simhash.go:124 | a carriage return or line feed inserted anywhere does not change what the input decodes to |
| Base64.GroupsOfLength | pkg/simhash/simhash.go:119 | that group count is `(n + 2) / 3`, Go's `EncodedLen` |
| Base64.DecodeEncode | pkg/simhash/simhash.go:119-124 | `DecodeString` of `EncodeToString(bs)` is `bs`, for every byte string |
| Base64.EncodeInjective | pkg/simhash/simhash.go:119 | different byte strings never share an encoding |
| Base64.TripleRoundTrip | pkg/simhash/simhash.go:119-124 | the four characters of a full group decode to its three bytes |
| Base64.EncodeHasNoNewlines | pkg/simhash/simhash.go:119-124 | encoded text holds no CR or LF, so the decoder's newline stripping leaves it as it is |
| Text.FieldsKeepNonSpace | pkg/simhash/simhash.go:48 | the words of `strings.Fields` put back together are the input with its spaces removed |
| Text.Fields | pkg/simhash/simhash.go:48 | every word of `strings.Fields` is non-empty and space-free |
| Text.TrimSpaceIsSlice | pkg/simhash/simhash.go:58 | `strings.TrimSpace` returns a slice of its input, and everything it cuts away is space |
| Text.TrimSpace | pkg/simhash/simhash.go:58 | a non-empty result starts and ends with a non-space |
| Text.MapAt | pkg/simhash/simhash.go:51-56 | rune `i` of `strings.Map(f, s)` is `f(s[i])` |
| Text.ContainsIff | pkg/worker/worker.go:192-193 | `strings.Contains(s, sub)` holds iff `sub` occurs in `s` at some position |
| Text.Builder.WriteString | pkg/simhash/simhash.go:32 | the builder's contents gain `s` at the end |
| Worker.IsHTMLContent | pkg/worker/worker.go:191-194 | the content type is accepted iff its lower-case form contains `text/html` or `application/xhtml` at some position |
| Worker.Key | pkg/worker/worker.go:89 | the key is `simhash:`, then the URL, a colon and the timestamp, each readable back at its own position |
| Worker.DownloadChecks | pkg/worker/worker.go:118-147 | a body is returned iff the reply is a 200 with an HTML type and a readable body; a non-200 status or a non-HTML type is rejected with its own error whatever the body |
| Worker.Worker.DownloadSnapshot | pkg/worker/worker.go:118-147 | the result is `Downloaded`: transport error, status check, content-type check, then the body |
| Worker.Worker.GetSnapshots | pkg/worker/worker.go:149-177 | the result is `SnapshotsOf`: the index error, "no snapshots" for fewer than 2 rows, else column 1 of each later row with more than one column, in order |
| Worker.ColumnOneLength | pkg/worker/worker.go:169-174 | at most one timestamp per data row, so at most `len(results) - 1` |
| Worker.ColumnOneMembers | pkg/worker/worker.go:170-174 | a timestamp is returned iff some data row has more than one column and holds it in column 1 |
| Worker.KeyDeterminesCapture | pkg/worker/worker.go:89 | with timestamps free of `:`, different captures never share a key |
| Worker.Worker.ProcessSnapshot | pkg/worker/worker.go:87-116 | the error and the new store are those of `SnapshotStep`: only the capture's own key can be written, and only with the encoded simhash; the log gains one event, which records the step and that the page was downloaded iff the existence check succeeded and found no key |
| Worker.SnapshotStepOutcomes | pkg/worker/worker.go:89-115 | a capture is skipped iff its key exists; a simhash is stored iff the key is absent, the download succeeds, there is at least one feature and the write succeeds; the value stored is the encoded simhash of the features; otherwise nothing is written |
| Worker.EncodedDecodes | pkg/worker/worker.go:110-111 | the stored value is 12 characters that decode to the fingerprint of the features |
| Worker.Worker.VisitSnapshot | pkg/worker/worker.go:74-79 | one turn of the loop: the store changes as the step says, the count rises by one exactly on a failure, `stop` says the budget is spent, and the log gains the capture's event |
| Worker.Worker.ProcessURLForYear | pkg/worker/worker.go:61-85 | the result, store and count are those of `Job`, and the log gains exactly `Job`'s trace: a listing error is returned at once, then the captures are run in order |
| Worker.Worker.VisitSnapshots | pkg/worker/worker.go:68-84 | the loop's result, store and count are those of `RunFrom` from the first capture, and the log gains exactly its trace |
| Worker.RemainsStep | pkg/worker/worker.go:69-82 | one capture the context lets through moves its event from the rest of the run to the events taken, or ends the run with the budget error |
| Worker.Worker.HandleCalculateSimHash | pkg/worker/worker.go:46-59 | a payload that does not decode is an error and changes nothing, the log included; otherwise the count is reset to 0, the job runs from there, and the log gains the job's trace |
| Worker.Worker.IncrementErrors | pkg/worker/worker.go:179-183 | the count rises by exactly 1 |
| Worker.Worker.GetErrorCount | pkg/worker/worker.go:185-189 | returns the current count |
| Worker.RunFromStep | pkg/worker/worker.go:69-82 | a capture the context lets through ends the run with the budget error if it spends the budget, and otherwise is followed by the rest of the loop |
| Worker.RunVisitsInOrder | pkg/worker/worker.go:69-72 | the loop takes captures in listing order from the first, and every capture it takes found the context not done |
| Worker.RunCountsFailures | pkg/worker/worker.go:74-79 | the count ends up raised by exactly the number of failed captures; skipped and stored captures leave it alone |
| Worker.RunOutcome | pkg/worker/worker.go:69-84 | a run returns nil only after every capture, the context's error only when the next capture finds it done, and the budget error only right after a failure that brings the count to `MaxErrors` |
| Worker.RunBudget | pkg/worker/worker.go:74-79 | a failure brings the count to `MaxErrors` iff it is the last capture taken and the run returns the budget error, so no later capture is tried and a nil run kept the count below `MaxErrors` after every failure |
| Worker.BudgetStep | pkg/worker/worker.go:74-79 | the budget property carries back over one capture that did not spend the budget |
| Worker.RunStoreKeys | pkg/worker/worker.go:89-115 | a key is in the final store iff it was there before or a capture of the run stored it, and earlier values are left as they were |
| Worker.StoreKeysStep | pkg/worker/worker.go:94-115 | the store property carries back over one capture, which adds only its own, previously absent, key |
| Worker.RunStoreWrites | pkg/worker/worker.go:110-115 | every simhash the run stores is still there, as written, at the end |
| Worker.RunSkipsStored | pkg/worker/worker.go:90-96 | a capture whose key is already stored is neither downloaded nor written, however often it comes up |
| Worker.RunFetchesOnce | pkg/worker/worker.go:90-115 | a capture listed twice is not downloaded again after its simhash was stored |
| Worker.RunKeepsVisited | pkg/worker/worker.go:90-115 | every capture of the run that did not fail has its key stored at the end |
| Worker.RerunFetchesNothing | pkg/worker/worker.go:90-96 | a run over captures whose keys are all stored downloads and writes nothing |
| Worker.FailCountZero | pkg/worker/worker.go:74-79 | a trace with no failures has no failed capture |
| Worker.JobAccounting | pkg/worker/worker.go:61-66 | a job whose listing fails returns that error and touches neither the store nor the count; every job raises the count by one per failed capture |
| Worker.JobIdempotent | pkg/worker/worker.go:61-116 | running a job again after a run that finished with no failure downloads nothing and leaves the store as it was |
| Worker.CompleteRunStoresAll | pkg/worker/worker.go:68-84 | a run that went through every capture with no failure has every listed key stored |
| Worker.LoopOfFollows | pkg/worker/worker.go:69-82 | the loop the worker runs follows its environment and settings |

## Left out

- JSON decoding of the task payload (worker.go:48-50): the payload arrives already decoded, as `Option<Payload>`, and `None` stands for a decoding error.
- Building the HTTP requests (worker.go:119-131, 150-153): the request URL, the `User-Agent` header, the auth cookie and the 20-second client timeout are not modelled. The replies are parameters of `Env`.
- The CDX JSON decoding (worker.go:159-162): a transport or decoding failure is the single `IndexFailure` reply.
- The CDX response status, which the code never checks: the rows are taken as they come.
- Redis I/O: `Exists` and `Set` become reads and writes of the `store` map. The keys whose call fails are given as `Env.existsFails` and `Env.setFails`, fixed for a job. A Redis error caused by cancelling the context falls under these sets.
- The TTL `Simhash.ExpireAfter` (worker.go:114-115): keys never expire within the model.
- The mutex and cross-job sharing of one `Worker` (worker.go:29, 53-55, 180-188): one job runs sequentially. `IncrementErrors` and `GetErrorCount` are plain field updates.
- `maxDownloadSize` (worker.go:22): it is declared but never applied, so there is no body cap to model.
- BLAKE2b-512, `html.Parse` and the Unicode letter, punctuation and lower-case tables: these are library code, passed in as parameters. `strings.ToLower` is `strings.Map` of that lower-case function, as in Go. Strings are sequences of runes, so invalid UTF-8 is not modelled.
- Go's `int` overflow of the vote accumulators and the feature counts: integers are unbounded.
- The near-duplicate claim, that similar pages give fingerprints at a small Hamming distance: it is statistical and not a property of any one input.
- `internal/handler/handler.go`, `cmd/main.go` and `config/config.go`: these are not part of this model. `Simhash.Size` and `MaxErrors` are the fixed `Config`.
- The `Feature` struct (simhash.go:14-17): it is unused.
- Cancellation and deadlines: `ctx.Done()` is `done(i)`, which says whether the context is done when capture `i` comes up. The error `ctx.Err()` returns, cancellation or deadline, is the single `ContextDone`. A cancellation arriving inside a capture's processing is not modelled.
- SimHash.EncodeSimHash: byte `i` is computed as `(h / 256^i) mod 256`, the value `byte(h >> 8i)` has for a `uint64`. The shift and the truncating conversion themselves are not modelled.
- SimHash.DecodeSimHash: the bytes are combined by adding `bytes[i] * 256^i`, not by OR-ing shifted values. `LittleEndianDigit` shows that the two agree.
- SimHash.UnpackPack: only this direction is proved. The converse, that packing an unpacked 8-byte string gives it back, is left out because of the cost of the integer to 64-bit conversion.
