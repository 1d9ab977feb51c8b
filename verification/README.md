# Pie: the algorithms around the engine, modelled and proved

Pie is a serving engine for language models. Around the engine sit tools and programs
whose correctness rests on small, exact arguments: a tool that cuts a miniature
checkpoint out of a large one, a replay that compares cache policies, a beam search
whose lanes share one pool of slots on the device, a speculative decoding loop, and a
few build and audit steps. This project models them in Dafny and proves what they are
for. `dafny verify dfyconfig.toml` checks all of it.

## What is modelled

**Checkpoint carve** (`scripts/bench/shrink_checkpoint.py`). A hashed table is `heads`
embeddings stacked into one row space, one per prime, cut into equal stored shards. A
miniature has fewer, smaller primes, so its rows come from other places, and neither
the shard seams nor the head seams line up.
`Primes` has primality by odd trial division and the n-th prime at or after a base;
`HashGeometry` the two derivations of head sizes; `PleCarve` and `PlePlan` the splitting
and dealing loops and the plan; `Tensors`, `Download`, `Safetensors` the byte ranges,
their coalesced fetching and the file format; `CarvedPlane` and `EndToEnd` follow one
row from the remote shard through the row-window cache into the written file, whatever
the heights of the stored shards; `StoredRows` and `StoredBytes` say when that row is the
table's own, `HeightCheck` shows a plane where it is not, and `OutputSizes` ties the file
split to what is written. `EngramCarve` has the plan and the cut of the tables kept head by head, and
`EngramTables` takes them from the config to the bytes written. `Bf16` and `Dequant` are
the read-out of fp8 planes, with the rounding on bit patterns, and `EngramReadOut` the
read-out of a kept table.

**Seat replacement** (`scripts/dsv4_route_replay.py`). `Cuts` has traces of cuts (the
ids one step wants at once) and what any schedule of S seats costs; `Belady`,
`OrderedSeats` (LRU, LFU, LRFU) and `Clock` are the simulator's branches, `Evictions` and
`SecondChance` say whom they evict in terms of what the trace has asked for, and `Replay`
compares them.

**Beam search** (`examples/beam-search-py/main.py`, and `examples/beam-search-js/index.js`,
which is the same program). `BeamReference` keeps every lane's own token list;
`BeamLaws` are the laws of that search, and `BeamTies` when its check against the greedy
token holds. `BeamPool` is what the device holds instead: one
pool of key/value slots for all lanes and a boolean row per lane. `RunAhead` is the
host draining bounded rings behind a device that runs ahead, in every interleaving, and
`BeamProgram` the program on its mutable channels.

**Speculative decoding** (`scripts/gemma4_assistant_ref.py`): `Speculative`.

**Build and audits.** `KernelVariants` and `WorkPool` (`crates/kernels-vulkan/build.rs`),
`ModuleWalk` (`scripts/mod-reachability-audit.py`), `Fp4` (`scripts/dsv41_parity_ref.py`)
and `CpuList` and `CpuGrammar` with `Text` (`scripts/bench/common.py`).

## Where the code does less than its words

Each is stated with its exact condition, and where it takes one with an input.

- Two tensors can share a cache file. They do exactly when their names differ in slashes
  for underscores and their row windows are the same, or when one is fetched whole and its
  name reads like the other's with the window after it (`Tensors.KeysMeet`,
  `Tensors.BlobsShared`). The end-to-end results ask that the tensors involved stay apart.
- Only the first shards' heights are looked at, one for each output. The rows written are
  the table's own exactly when every shard read through a window starts at its multiple of
  the derived height and has all the window's rows (`StoredRows.RightExactly`). With the
  first shards right and every window inside its shard, nothing fails; that makes the rows
  right exactly when no window is on a shard past the first one not looked at
  (`StoredRows.CheckIsEnoughExactly`). `HeightCheck.WrongAndSilent` plans a carve that has
  such a window and builds the plane with a wrong row.
- A window that asks for rows its shard has not: from the first row on it gets the whole
  tensor and the reading runs out later, and from further down it takes the bytes after
  the tensor (`EndToEnd.RangeReaches`, `EndToEnd.RowsRunOut`).
- The size an output is reckoned at when files are split is the size written exactly where
  rows are cut from a tensor that has them and a literal is as long as the tensor it
  stands for (`OutputSizes.OutBytesExactly`).
- A clock that serves the ids of a cut one at a time can evict an id the same cut still
  asks for, and load it again (`Clock.ReloadsWithinACut`). It misses once for each load
  of its seats and once for each such reload, so the two counts are equal exactly when no
  request of the run is one (`Clock.MissesAreLoads`); a cut that asks first for the ids it
  finds seated has none (`Clock.HitsFirstIsExact`).
- A cut of more ids than seats ends the belady, lru, lfu and lrfu branches with an error
  and leaves the clock's cut unseated (`Belady.Simulate`, `OrderedSeats.RunIsSchedule`,
  `Clock.CutIsSeated`).
- The speculative loop looks for the end token only in a round's own tokens and only after
  all of them are committed. Tokens follow the end token exactly when the prompt's pass
  gives it and more than one token is asked for, or when a round commits it before its last
  place (`Speculative.PastTheEnd`, `Speculative.GoesPastTheEnd`).
- With more beams than tokens the first step keeps two equal, impossible lanes; lanes
  stay distinct exactly when the vocabulary is no smaller than the beam
  (`BeamLaws.LanesNeverDuplicate`).
- The width-one check that a beam's pick equals the greedy token can fail on a tie: the
  two calls answer one token, for all they promise, exactly where the row has a single
  largest logit (`BeamTies.PicksAgreeIffUnique`, `BeamTies.TieIsRefused`).
- The rounding loses a NaN whose payload is near either end of the range
  (`Bf16.RoundSpecials`), and a subnormal product of a code and an exponent can lose
  bits (`Dequant.SubnormalLosesBits`).

## Model

| member | source | states |
|---|---|---|
| Belady.Simulate | scripts/dsv4_route_replay.py:12-31 | the belady branch fails exactly when some cut has more ids than seats; otherwise its count is the loads of a real schedule and no S-seat schedule that starts from seats 0 to S-1 and ends each cut with that cut seated loads less |
| Belady.FarthestFirstIsOptimal | scripts/dsv4_route_replay.py:12-31 | any schedule that evicts farthest-first loads no more than any other schedule |
| Belady.LeadNeverLost | scripts/dsv4_route_replay.py:18-30 | the exchange argument as a potential, after every cut and for every horizon: loads so far plus the other's ids due by the horizon never exceed the other's loads plus one's own |
| Belady.PotentialStep | scripts/dsv4_route_replay.py:18-30 | one cut cannot lose that lead |
| Belady.KeepsTheNearest | scripts/dsv4_route_replay.py:25-30 | of the uncut ids, either all survivors are due by a horizon or every one due by it survives |
| Belady.ServeCut | scripts/dsv4_route_replay.py:22-30 | one cut's loop ends farthest-first, counts exactly the ids it loaded, and fails exactly when the cut outnumbers the seats |
| Belady.UseTable | scripts/dsv4_route_replay.py:13-16 | the table lists, for each id, the cuts that want it in order |
| Belady.AdvancePointers | scripts/dsv4_route_replay.py:19-21 | after a cut's loop every pointer counts the uses up to and including that cut |
| Belady.PointerFindsNextUse | scripts/dsv4_route_replay.py:26-28 | reading the table at the pointer gives the next cut that wants the id, or the far sentinel when there is none |
| OrderedSeats.Simulate | scripts/dsv4_route_replay.py:32-49 | the loops over an ordered dictionary and a counter count what the policy's run counts |
| OrderedSeats.ServeCut | scripts/dsv4_route_replay.py:35-48 | one cut's two loops are the counting and the requests of the policy |
| OrderedSeats.FirstMinIsFirstLeast | scripts/dsv4_route_replay.py:43-47 | the victim has the least key, and the first place among those that do |
| OrderedSeats.RunIsSchedule | scripts/dsv4_route_replay.py:32-49 | lru, lfu and lrfu succeed exactly when every cut fits, and their seats after each cut are a schedule that loads exactly the misses counted |
| OrderedSeats.HeldIsSchedule | scripts/dsv4_route_replay.py:32-49 | over a whole trace the misses are the loads of that schedule |
| OrderedSeats.InclusionRequest | scripts/dsv4_route_replay.py:38-48 | one request keeps the smaller LRU order equal to the larger one without one id, and the larger misses no more |
| OrderedSeats.LruInclusion | scripts/dsv4_route_replay.py:32-49 | after any number of cuts, the seats held with S are among those held with any S' no smaller, which has missed no more |
| Evictions.RunIsRequests | scripts/dsv4_route_replay.py:32-49 | a run starts from the seats 0 to S-1 with nothing missed, and is its cuts' requests one after another |
| Evictions.FreqIsUses | scripts/dsv4_route_replay.py:34-37 | under every policy an id's count after n cuts is how many of those cuts ask for it |
| Evictions.SeatsByRecency | scripts/dsv4_route_replay.py:33-48 | under every policy the seats stand in the order their ids were last asked for, those never asked for first, as they started |
| Evictions.EveryRequest | scripts/dsv4_route_replay.py:38-48 | at every request of every run a hit moves its own seat to the end and a miss is counted and takes a seat the cut does not want, of least weight, the oldest of those that weigh so little; the weight is nothing for lru, the number of cuts so far that asked for the id for lfu, and that number times 9^age * 10^(S - age) for lrfu |
| Evictions.LruEvictsOldest | scripts/dsv4_route_replay.py:43 | so lru evicts the id last asked for longest ago of those the cut does not want |
| Evictions.LfuEvictsLeastUsed | scripts/dsv4_route_replay.py:44 | so lfu evicts the id the fewest cuts so far asked for, the oldest of those |
| Evictions.KeysAreWeights | scripts/dsv4_route_replay.py:44-47 | two seats compare by the keys `min` is given exactly as by those whole-number weights |
| Evictions.LrfuKeepsTheNewer | scripts/dsv4_route_replay.py:45-47 | under lrfu an id the cut does not want outstays a newer one only by having been asked for more often; of two asked for equally often the older goes first |
| Evictions.OneMoreUse | scripts/dsv4_route_replay.py:43-47 | under every policy, an id counted once more is not evicted where it was not before |
| Clock.SweepHand | scripts/dsv4_route_replay.py:58-62 | the loop over the hand is the sweep, clearing used marks in place |
| Clock.SweepReaches | scripts/dsv4_route_replay.py:58-62 | the sweep stops by itself at or before any unpinned seat, within one turn of it, or two if it is used |
| Clock.ServingRequest | scripts/dsv4_route_replay.py:54-65 | a load within a cut that fits always finds an unpinned seat by break within 2S probes, leaves the ids served so far seated and pinned, and keeps misses equal to the new ids and the reloads |
| Clock.CutIsSeated | scripts/dsv4_route_replay.py:52-65 | after a cut all its ids are seated if and only if they are no more than the seats, with a miss for each new id and each reload; the inverse map and ranges hold either way |
| Clock.RunKeepsInverse | scripts/dsv4_route_replay.py:51-65 | after any run `where` is exactly the inverse of `in_seat` |
| Clock.Simulate | scripts/dsv4_route_replay.py:50-66 | the loops over arrays and a dictionary count what the run counts |
| Clock.RunIsSchedule | scripts/dsv4_route_replay.py:50-66 | the clock's seats after each cut are a schedule, and its misses are that schedule's loads plus the reloads |
| Clock.MissesAreLoads | scripts/dsv4_route_replay.py:50-66 | misses equal loads exactly when no request of the run misses on an id its cut found seated |
| Clock.HitsFirstIsExact | scripts/dsv4_route_replay.py:53-65 | and they are equal whenever each cut asks first for the ids it finds seated |
| Clock.ReloadsWithinACut | scripts/dsv4_route_replay.py:54-65 | two misses for one new id: an id of the cut is evicted and loaded back |
| SecondChance.SweepTakesFirst | scripts/dsv4_route_replay.py:58-62 | the hand takes the unpinned seat it would reach first, a turn later if used, after exactly so many probes; it stops behind it, and has taken the mark off exactly the unpinned seats passed |
| SecondChance.RequestIs | scripts/dsv4_route_replay.py:55-65 | a hit marks and pins the id's own seat and changes nothing else; a miss marks and pins the seat whose turn is first |
| SecondChance.SecondChance | scripts/dsv4_route_replay.py:55-65 | an id asked for, and the hand not at its seat since, is still seated and marked, and is not what the hand takes on its next visit there |
| Replay.Row | scripts/dsv4_route_replay.py:69-74 | each column is its own policy's count, belady's the fewest loads of any schedule; for every trace that fits it is at most each of the other four, and for one that does not the four set-based policies have none |
| Primes.IsPrime | scripts/bench/shrink_checkpoint.py:735-745 | true exactly for the numbers above 1 that only 1 and themselves divide |
| Primes.PrimeBeyond | scripts/bench/shrink_checkpoint.py:766-767 | there is a prime above any number, so the search ends |
| Primes.PrimeOutside | scripts/bench/shrink_checkpoint.py:1801-1802 | there is one above any number and outside any finite set, so the other search ends |
| Primes.EveryPrimeIsNth | scripts/bench/shrink_checkpoint.py:748-767 | counting primes from a base leaves none out |
| Primes.FirstPrimesIncrease | scripts/bench/shrink_checkpoint.py:748-767 | they come in strictly increasing order |
| Primes.NthPrimeMonotone | scripts/bench/shrink_checkpoint.py:730-732 | the n-th prime at or after a base does not fall as the base grows |
| Primes.NextAfterFirst | scripts/bench/shrink_checkpoint.py:1798-1803 | with the first n primes used, the least unused prime after any of the earlier positions is the next one in order |
| HashGeometry.RoundUp | scripts/bench/shrink_checkpoint.py:771 | the negated floor division gives the least multiple no less than the total |
| HashGeometry.NgramHashGeometry | scripts/bench/shrink_checkpoint.py:748-771 | exactly the first `heads` primes at or after the base, their prefix sums, and the sum rounded up |
| HashGeometry.NextPrimeAfter | scripts/bench/shrink_checkpoint.py:1798-1803 | the least prime above the start that is not in the used set |
| HashGeometry.ModuleGeometry | scripts/bench/shrink_checkpoint.py:1815-1826 | a module draws the next orders * heads primes in order though every order restarts its search |
| HashGeometry.EngramGeometry | scripts/bench/shrink_checkpoint.py:1806-1827 | over all modules, the same list of first primes the other derivation gives, in order, with each module's prefix sums |
| HashGeometry.NoPrimeRepeats | scripts/bench/shrink_checkpoint.py:1811-1812 | no prime is drawn twice |
| HashGeometry.ModulePrimeIsNth | scripts/bench/shrink_checkpoint.py:1806-1827 | head j of module m has the prime numbered m * orders * heads + j |
| PleCarve.SplitSpan | scripts/bench/shrink_checkpoint.py:890-897 | splitting a span at shard seams keeps its rows in order, each piece inside one shard |
| PleCarve.SplitSpans | scripts/bench/shrink_checkpoint.py:889-897 | all the pieces together are all the spans' rows in order |
| PleCarve.DealSlice | scripts/bench/shrink_checkpoint.py:905-911 | dealing a piece adds its rows after those laid and moves `at` by as many |
| PleCarve.LayOut | scripts/bench/shrink_checkpoint.py:899-911 | the shards receive the rows in order, each as many, every dealt slice inside one piece, and the windows are those of the pieces |
| PleCarve.DealtRows | scripts/bench/shrink_checkpoint.py:899-911 | the shards joined are the rows dealt, and each has the same number |
| PleCarve.WindowsCover | scripts/bench/shrink_checkpoint.py:903-904 | every piece lies in its part's window |
| PleCarve.WindowsTight | scripts/bench/shrink_checkpoint.py:903-904 | a window starts where some piece starts and ends where some piece ends |
| PlePlan.BaseFor | scripts/bench/shrink_checkpoint.py:730-732 | the greatest base b with b * src_parts no more than src_base * dst_parts |
| PlePlan.TargetBaseIsUnique | scripts/bench/shrink_checkpoint.py:730-732 | there is only one such base |
| PlePlan.HeadsAreCounted | scripts/bench/shrink_checkpoint.py:859 | the heads are as many as the pairs of an order past the first and a slot of it, and none for a product below zero |
| PlePlan.FewerPartsShrink | scripts/bench/shrink_checkpoint.py:730-732 | with no more parts, no head's prime grows |
| PlePlan.SpansAreSameRows | scripts/bench/shrink_checkpoint.py:875-879 | the spans hold, for each head, the first rows of its own source segment, and the padding from the last head's |
| PlePlan.CarveIsFaithful | scripts/bench/shrink_checkpoint.py:887-922 | what is laid out from those spans is faithful: row offset[h] + i is source row offset[h] + i, shards are equal, no slice crosses a seam or leaves its window |
| PlePlan.Cut | scripts/bench/shrink_checkpoint.py:887-922 | the cutting part of the plan changes layout and windows only, and its result is faithful |
| PlePlan.Plan | scripts/bench/shrink_checkpoint.py:843-922 | no carve exactly for the same number of parts, a faithful one exactly when both totals divide and no head grows, whose target heads are the first primes from the greatest base of which src_parts are no more than parts of the source's; else the refusal whose turn it is, with the first head that grows, which is the last head whenever there are fewer parts |
| Tensors.SafeNamesMeet | scripts/bench/shrink_checkpoint.py:2016 | two names are one once made safe exactly when they are as long and differ in slashes for underscores at most |
| Tensors.KeysMeet | scripts/bench/shrink_checkpoint.py:2015-2021 | two tensors share a cache file exactly when safe names and windows are the same, or one is whole and named like the other with its window |
| Tensors.BlobsShared | scripts/bench/shrink_checkpoint.py:2015-2021 | both happen |
| Tensors.KeyOfWindow | scripts/bench/shrink_checkpoint.py:2015-2021 | a whole tensor's file is its safe name, a window's says its first row and its rows |
| Tensors.SafeIsName | scripts/bench/shrink_checkpoint.py:2016 | a name is its own safe form exactly when it has no slash |
| Download.GroupSpans | scripts/bench/shrink_checkpoint.py:1720-1725 | the groups in order are the tensors in order, joined within a group across gaps of at most COALESCE_GAP and parted only at wider ones |
| Download.SpanWaste | scripts/bench/shrink_checkpoint.py:1731-1734 | a group's span exceeds its tensors' bytes by at most COALESCE_GAP per join |
| Download.FetchGroup | scripts/bench/shrink_checkpoint.py:1726-1744 | after a group every tensor of it is cached with its own bytes, whatever was cached before is kept, nothing outside the group is added; it fails only when a range runs past its shard |
| Download.DownloadShard | scripts/bench/shrink_checkpoint.py:1719-1744 | every tensor of the shard is cached with exactly its range, or, exactly when one runs past the end, the fetch fails |
| Download.DownloadAll | scripts/bench/shrink_checkpoint.py:1712-1744 | so with every tensor of every shard, after sorting each |
| Download.ByShard | scripts/bench/shrink_checkpoint.py:1713-1715 | grouping by shard loses no tensor and adds none |
| Download.RangeIs | scripts/bench/shrink_checkpoint.py:195-217 | the range of any tensor: all its bytes from start to end when it is kept whole, as many for one without rows, else a row width for each row of the window from its first row on |
| Download.FetchAll | scripts/bench/shrink_checkpoint.py:1712-1744 | a list of tensors that share no cache file with other bytes ends up cached, each as its range and a whole one as its shard's bytes from its start to its end, exactly when no range runs past its file |
| Safetensors.LittleRoundTrip | scripts/bench/shrink_checkpoint.py:222-250 | n little-endian bytes give a number back exactly when it fits them |
| Safetensors.LittleDigits | scripts/bench/shrink_checkpoint.py:250 | byte i is the number's digit i from the low end in base 256 |
| Safetensors.BlobIs | scripts/bench/shrink_checkpoint.py:246-248 | the header text is followed by blanks only, fewer than eight |
| Safetensors.WriteSafetensors | scripts/bench/shrink_checkpoint.py:235-259 | a file is written exactly when every type is known, every tensor yields the bytes its shape asks for and the header's length fits; it is the header's length, the padded header and the contents |
| Safetensors.ReadsWhatWasWritten | scripts/bench/shrink_checkpoint.py:220-259 | reading the header of a written file finds each tensor, and its offsets hold exactly its bytes |
| Safetensors.ReadsNothingElse | scripts/bench/shrink_checkpoint.py:220-232 | it finds no other name |
| Safetensors.FileIsTiled | scripts/bench/shrink_checkpoint.py:235-259 | the ranges start after the header, follow each other without gap and end with the file |
| Safetensors.SplitFiles | scripts/bench/shrink_checkpoint.py:2141-2166 | files in order hold the tensors in order, none empty, none over the limit but a lone tensor's, and each ends only where the next tensor would not fit |
| OutputSizes.OutBytesExactly | scripts/bench/shrink_checkpoint.py:1505-1513 | the reckoned size of an output, whole, cut, pieced, literal or read out, is the size of its entry exactly where rows are cut from what has them and a literal fits |
| OutputSizes.WriteOutput | scripts/bench/shrink_checkpoint.py:2141-2166 | files hold the entries in order, written exactly when each is writable; for such outputs no file's data area is over the limit but a lone tensor's, and none ended while the next tensor fitted |
| CarvedPlane.MarkWindows | scripts/bench/shrink_checkpoint.py:986-988 | each windowed source tensor keeps exactly its window; the others are as they were |
| CarvedPlane.ApplyPleCarve | scripts/bench/shrink_checkpoint.py:951-989 | succeeds exactly when every stand-in has the height the config derives, and then gives each output its shard's pieces and row count and marks the windows |
| CarvedPlane.ReadFrom | scripts/bench/shrink_checkpoint.py:2085-2091 | chunk by chunk, exactly the wanted bytes from there, or failure exactly when they run out; no chunk is empty or over the limit |
| CarvedPlane.RowsFrom | scripts/bench/shrink_checkpoint.py:2081-2091 | the chunks joined are the rows asked for |
| CarvedPlane.JoinPieces | scripts/bench/shrink_checkpoint.py:2117-2124 | the entry's bytes are the pieces' rows in order |
| CarvedPlane.SliceIsRows | scripts/bench/shrink_checkpoint.py:889-897 | a slice's table rows are consecutive bytes of one stored shard |
| CarvedPlane.PieceIsSlice | scripts/bench/shrink_checkpoint.py:2121-2124 | read out of the cached window, a piece is its slice of the remote shard |
| CarvedPlane.PiecesAreRows | scripts/bench/shrink_checkpoint.py:2117-2124 | all the pieces of a shard are its planned table rows |
| CarvedPlane.TableRowsAt | scripts/bench/shrink_checkpoint.py:2117-2124 | row i of the joined bytes sits at i times the row width |
| EndToEnd.FetchWindows | scripts/bench/shrink_checkpoint.py:1712-1744 | every window's blob is its range of the remote file, and the fetch cannot fail while each window lies inside its shard |
| EndToEnd.RangeReaches | scripts/bench/shrink_checkpoint.py:203-217 | a window's range is a row width for each row, inside its tensor, exactly when the shard has the rows; else it is the whole tensor for a window from the first row on, and runs past the tensor for any other |
| EndToEnd.RowsRunOut | scripts/bench/shrink_checkpoint.py:2081-2091 | of that whole tensor, reading a row past its last fails |
| EndToEnd.CarvedRowBytes | scripts/bench/shrink_checkpoint.py:843-999 | the bytes written for row offset[h] + i of the miniature are those of row offset[h] + i of the source table |
| EndToEnd.BuildPlane | scripts/bench/shrink_checkpoint.py:951-2124 | from the remote shards, of whatever heights, to the output shards' bytes: the height refusal exactly when one of the first shards is not as derived, no failure otherwise while each window lies inside its shard, and then every hashed row holds its source row |
| StoredRows.RightExactly | scripts/bench/shrink_checkpoint.py:887-922 | row g % src_rows of shard g / src_rows is the table's row g, for all rows the carve reads, exactly when every windowed shard starts at its multiple and has its window's rows |
| StoredRows.EqualHeightsAreRight | scripts/bench/shrink_checkpoint.py:970-976 | so when all shards have the derived height |
| StoredRows.CheckIsEnoughExactly | scripts/bench/shrink_checkpoint.py:967-976 | over all heights, the check on the first n shards and windows inside their shards make the rows right if and only if no window is on a shard past number n |
| StoredRows.CheckIsNotEnough | scripts/bench/shrink_checkpoint.py:967-976 | for a window that is, heights that pass and are wrong: a shard in between one row too tall |
| StoredRows.OneShortShard | scripts/bench/shrink_checkpoint.py:887-922 | one shard too short for its window is wrong, whichever it is |
| HeightCheck.SmallCarve | scripts/bench/shrink_checkpoint.py:843-922 | the plan gives such a carve: two heads of five and seven rows in four shards cut to two shards, with a window on the last of the four |
| HeightCheck.WrongAndSilent | scripts/bench/shrink_checkpoint.py:951-2124 | and the plane built from it, nothing refused and nothing failing, has a row that is not the table's |
| StoredBytes.RightMeansReach | scripts/bench/shrink_checkpoint.py:967-989 | where the rows are right every window lies inside its shard |
| StoredBytes.WrittenIsTheTable | scripts/bench/shrink_checkpoint.py:843-2124 | and each row written is, byte for byte, the row of that number of the stored shards laid end to end |
| EndToEnd.StretchReadsBack | scripts/bench/shrink_checkpoint.py:220-259 | a stretch of a tensor is found in the file at its offset plus its place |
| EndToEnd.CarvedRowReadsBack | scripts/bench/shrink_checkpoint.py:220-2124 | a reader that opens the file and looks a hashed row up finds the source row |
| EngramCarve.SurvivingAre | scripts/bench/shrink_checkpoint.py:1866 | the modules kept are exactly those of selected layers, in module order |
| EngramCarve.SortKept | scripts/bench/shrink_checkpoint.py:1867 | sorting gives the same modules in selection order, the earlier module first within a layer |
| EngramCarve.Plan | scripts/bench/shrink_checkpoint.py:1847-1872 | a plan exactly when there are layer ids and every stated row count is the derived one, else the first module that is not; the plan has both derivations and exactly the selected modules in selection order |
| EngramCarve.NeverGrows | scripts/bench/shrink_checkpoint.py:1899-1902 | with no larger base, no head of a kept module can trip the growth refusal |
| EngramCarve.Apply | scripts/bench/shrink_checkpoint.py:1889-1911 | succeeds exactly when the table has the derived rows and no head grows; the pieces are fresh clones, each the first rows of its head's segment |
| EngramCarve.PiecesAreSpans | scripts/bench/shrink_checkpoint.py:1899-1911 | joined, they are the spans' table rows |
| EngramCarve.TableRowKept | scripts/bench/shrink_checkpoint.py:1899-1911 | joined, row offset[j] + i of the miniature is byte for byte row offset[j] + i of the source |
| EngramTables.ModuleFor | scripts/bench/shrink_checkpoint.py:1890-1892 | a plane's module is the first kept one of the source layer its output layer stands for, and none exactly when no kept module is of that layer |
| EngramTables.PlaneGeometries | scripts/bench/shrink_checkpoint.py:1890-1894 | so a plane is cut from the primes of that source module, numbered on from its first head, to those of its place among the kept |
| EngramTables.ClonesApart | scripts/bench/shrink_checkpoint.py:1903-1908 | two heads' clones of one table never share a cache file: their windows differ |
| EngramTables.BuildTables | scripts/bench/shrink_checkpoint.py:1875-2124 | cloned, fetched and joined, every plane comes out as the kept table of the first kept module of its source layer, head row for head row; it fails exactly when some plane's source layer has no kept module, its table is not as tall as derived or a head would grow |
| EngramTables.CarveTables | scripts/bench/shrink_checkpoint.py:1847-2124 | the same from the config on, with the plan's own refusal exactly when it has one and naming the first module that disagrees |
| EngramReadOut.KeptReadsOut | scripts/bench/shrink_checkpoint.py:2106-2116 | two planes kept alike, codes and their exponents, read out to rows that are the source rows' read-outs |
| EngramReadOut.ReadOutTable | scripts/bench/shrink_checkpoint.py:1847-2116 | from the config to the chunks of bf16: row offset[j] + i is the read-out of source row offset[j] + i, and there are chunks whenever both planes fit the plan and the blocks divide the rows |
| EngramReadOut.WordReadsBack | scripts/bench/shrink_checkpoint.py:1989 | each value's two bytes read back to it |
| EngramReadOut.RowReadsBack | scripts/bench/shrink_checkpoint.py:220-2116 | a reader that opens the file finds, at the header's offset, the source row's read-out |
| Bf16.RoundIsNearestEven | scripts/bench/shrink_checkpoint.py:1987-1989 | for every finite float32 pattern with a finite result, no finite bf16 value is nearer, and of two as near the even one is taken |
| Bf16.RoundOverflow | scripts/bench/shrink_checkpoint.py:1987-1989 | a finite pattern rounds to infinity exactly from half a step past the largest bf16 on, and the sign is kept |
| Bf16.RoundSpecials | scripts/bench/shrink_checkpoint.py:1987-1989 | infinities stay, and a NaN stays one exactly when its payload is not near either end |
| Bf16.RoundIsExact | scripts/bench/shrink_checkpoint.py:1987-1989 | widening the result gives the pattern back exactly when its low sixteen bits are zero |
| Bf16.MagLinear | scripts/bench/shrink_checkpoint.py:1987-1989 | patterns between two bf16 values are evenly spaced, also across an exponent |
| Dequant.CodeSteps | scripts/bench/shrink_checkpoint.py:1948-1964 | the table from 0 on: eight codes to an octave, evenly spaced, the first two octaves alike and each later one twice as wide |
| Dequant.CodeLandmarks | scripts/bench/shrink_checkpoint.py:1948-1964 | so code 1 is 2^-9, code 8 is 2^-6, code 56 is 1 and code 126 is 448 |
| Dequant.ProductSpecials | scripts/bench/shrink_checkpoint.py:1957-1985 | the product is no number exactly for codes 0x7F and 0xFF and for a zero under exponent 255, which makes every other code its sign's infinity; a NaN stays one when rounded |
| Dequant.ElementIsNearest | scripts/bench/shrink_checkpoint.py:1983-1989 | what is written for a code under an exponent is the bf16 value nearest to their exact product |
| Dequant.ProductIsExact | scripts/bench/shrink_checkpoint.py:1948-1986 | a code times a power of two is exact in float32, with the code's sign, unless it reaches 2^128 |
| Dequant.CodesRoundExactly | scripts/bench/shrink_checkpoint.py:1948-1989 | rounding that product to bf16 changes nothing exactly when it is a whole number of 2^-133, as every normal product is |
| Dequant.SubnormalLosesBits | scripts/bench/shrink_checkpoint.py:1984-1989 | the least code at the least exponent rounds to zero |
| Dequant.ExponentInRange | scripts/bench/shrink_checkpoint.py:1977-1985 | every code of a blocked plane has a block exponent |
| Dequant.PlaneByCoordinates | scripts/bench/shrink_checkpoint.py:1977-1985 | element (i, j) is its code under exponent (i / br, j / bc), rounded |
| Dequant.PlanesStack | scripts/bench/shrink_checkpoint.py:1980-1985 | a plane cut between bands reads out as its parts do |
| Dequant.ReadOutPlane | scripts/bench/shrink_checkpoint.py:1967-1989 | the same errors in the same order; otherwise the chunks are whole rows, at most a step of them, and joined are the whole plane read out at once |
| BeamReference.StepExtends | examples/beam-search/README.md:33-37 | each lane extends its parent's hypothesis by one token and its score by that token's log-probability |
| BeamReference.StepKeepsApart | examples/beam-search-py/main.py:66-69 | no two lanes take the same extension of the same parent |
| BeamReference.StepKeepsBest | examples/beam-search-py/main.py:66-70 | an extension left out scores no more than any lane kept |
| BeamLaws.FirstStepFromLaneZero | examples/beam-search-py/main.py:50-69 | with enough tokens the first step takes every lane from the one seeded lane |
| BeamLaws.LanesNeverDuplicate | examples/beam-search-py/main.py:50-76 | hypotheses are distinct after the first step if and only if the beam is no wider than the vocabulary, and then after every step |
| BeamLaws.ScoresAreSums | examples/beam-search-py/main.py:66-74 | each lane's score is the sum of the log-probabilities along its own hypothesis |
| BeamLaws.MismatchesAreCounted | examples/beam-search-py/main.py:32-33 | a step's count is the number of lanes whose pick is not their greedy token |
| BeamLaws.GreedyIsOwn | examples/beam-search-py/main.py:56-75 | at any width a lane's greedy token has the greatest raw logit after that lane's own tokens |
| BeamLaws.WidthOneIsGreedy | examples/beam-search-py/main.py:58-75 | at width one the picked token has the largest logit, and no mismatch is counted where the largest is unique |
| BeamTies.PicksAgreeIffUnique | examples/beam-search-py/main.py:58-75 | over one row, the two calls agree for everything they may answer if and only if the row has one largest logit |
| BeamTies.UniquePasses | examples/beam-search-py/main.py:148-152 | a run whose rows all have one counts no mismatch |
| BeamTies.TieIsRefused | examples/beam-search-py/main.py:148-152 | with two equal logits and libraries that break the tie differently the search refuses its own answer, a mismatch for every step |
| BeamLaws.BestLane | examples/beam-search-py/main.py:142-147 | the last of the lanes with the greatest score |
| BeamPool.NewRowIsOwn | examples/beam-search-py/main.py:106-112 | the row a fire writes for a lane is the one the lane's own sequence would have |
| BeamPool.AdmittedIsPath | examples/beam-search-py/main.py:122-126 | the slots a mask row admits, in order, are its lane's ancestry |
| BeamPool.LaneView | examples/beam-search-py/main.py:112-126 | what a lane attends to in the shared pool is its own cache |
| BeamPool.FireRefines | examples/beam-search-py/main.py:114-133 | one fire keeps every lane's ancestry, position, depth and slot in step with the reference, and writes below the fill only |
| BeamPool.DeviceRefinesReference | examples/beam-search-py/main.py:97-139 | so after any number of fires |
| BeamPool.MaskedTokens | examples/beam-search-py/main.py:105-133 | the slots admitted by lane b's row hold BOS and its hypothesis in order, one per generation, positions counting up; set bits lie below kv_len, written slots below pool_len |
| BeamPool.DeviceReports | examples/beam-search-py/main.py:63-76 | the rows a fire reports are those the reference reports at that step |
| BeamProgram.Ring.TakeHost | examples/beam-search-py/main.py:89-92 | the first row waiting is taken |
| BeamProgram.Channels.Epilogue | examples/beam-search-py/main.py:118-133 | the epilogue moves mask, slots, kv_len, pos, fill and tokens on together |
| BeamProgram.Channels.Advance | examples/beam-search-py/main.py:63-133 | pass and epilogue are one fire of the device and its report |
| BeamProgram.Channels.PoolStep | examples/beam-search-py/main.py:63-133 | and put that report's four rows, one on each ring |
| BeamProgram.HostState.Drain | examples/beam-search-py/main.py:86-95 | taking one row off each ring advances hypotheses and scores by that step and adds the number of lanes whose pick is not their greedy token |
| BeamProgram.RunProgram | examples/beam-search-py/main.py:78-140 | after max_steps fires and drains the host holds the reference's hypotheses and scores, the device its state |
| BeamProgram.Search | examples/beam-search-py/main.py:40-154 | the refusals exactly where the code raises them, and otherwise a best hypothesis of the reference after max_steps, the last among equals; the mismatches, printed or refused, are as many as the steps and lanes at which pick and greedy token differ |
| RunAhead.PutInv | examples/beam-search-py/main.py:72-75 | a device put onto a ring keeps the invariant of rings and host |
| RunAhead.TakeInv | examples/beam-search-py/main.py:86-95 | so does each single take of a drain |
| RunAhead.RunInv | packages/python/inferlet/src/inferlet/eta/bridge.py:362-417 | in every interleaving, at every moment |
| RunAhead.MismatchesAreDisagreements | examples/beam-search-py/main.py:86-95 | the counts added over n drains are the number of steps and lanes at which pick and greedy token differ |
| RunAhead.HostSeesWholeSteps | examples/beam-search-py/main.py:54-95 | after k drains the host has the device's k-th step and as many mismatches as steps and lanes that differ; the rows a drain has taken so far are all of one step; rings stay within capacity and the device within the window |
| RunAhead.SomeMove | packages/python/inferlet/src/inferlet/eta/bridge.py:401-411 | until the budget is consumed some step can be taken: no deadlock |
| RunAhead.RunsEnd | packages/python/inferlet/src/inferlet/eta/bridge.py:362-417 | no run takes more than eight steps per fire |
| RunAhead.FinishedRun | examples/beam-search-py/main.py:135-139 | a run that can go no further has consumed the whole budget and holds the final hypotheses, scores and mismatches |
| Speculative.CountAccepted | scripts/gemma4_assistant_ref.py:78-80 | the length of the longest prefix the target agrees with |
| Speculative.AgreedRowsAreGreedy | scripts/synthesize_eagle_head.py:6-8 | the answers up to the first disagreement carry the greedy run on |
| Speculative.RoundIsGreedy | scripts/gemma4_assistant_ref.py:68-83 | so a round's accepted answers and the one after them do |
| Speculative.DraftRound | scripts/gemma4_assistant_ref.py:68-89 | a round commits 1 to k + 1 tokens of the greedy run, and afterwards cache, shared rows and offset cover the prompt and all committed tokens but the last |
| Speculative.RoundsStop | scripts/gemma4_assistant_ref.py:68-91 | every round is sound, no round follows one that commits the end token, and without one at least max_tokens are committed |
| Speculative.DecodedIsGreedy | scripts/synthesize_eagle_head.py:6-8 | for any drafter the committed tokens are the plain greedy run, over max_tokens by at most k |
| Speculative.Decode | scripts/gemma4_assistant_ref.py:54-91 | the loop with its mutable cache commits exactly those rounds' tokens, and the cache ends up covering all of them but the last |
| Speculative.PastTheEnd | scripts/gemma4_assistant_ref.py:56-91 | tokens follow the first end token exactly when the prompt's pass gives it and max_tokens is above 1, or a round's first one is not its last token |
| Speculative.GoesPastTheEnd | scripts/gemma4_assistant_ref.py:56-91 | three end tokens where two tokens were asked for |
| Speculative.DraftersAgree | scripts/synthesize_eagle_head.py:6-8 | the committed tokens of two runs of one target agree as far as both go, whatever the drafters, block sizes, limits and end tokens |
| Speculative.GreedyPrefix | scripts/synthesize_eagle_head.py:6-8 | a shorter greedy run is the beginning of a longer one |
| KernelVariants.ParseRendered | crates/kernels-vulkan/build.rs:209-233 | a variant written as a line reads back as itself |
| KernelVariants.ParseUntagged | crates/kernels-vulkan/build.rs:215-224 | a line that names no tier is the baseline's |
| KernelVariants.ParseFails | crates/kernels-vulkan/build.rs:209-233 | a line is refused exactly without an entrypoint, for an unknown tier, or for its first word without `=`, in that order |
| KernelVariants.OneTierEach | crates/kernels-vulkan/build.rs:255-263 | the second pass finds a name at two tiers, or there is none |
| KernelVariants.Collect | crates/kernels-vulkan/build.rs:190-265 | a table exactly when every line is well formed and no entrypoint is named twice at whatever tiers; it has each line's variant and nothing else, and a refusal is about real lines |
| KernelVariants.OutputsApart | crates/kernels-vulkan/build.rs:255-263 | two jobs of a table never write the same output file |
| WorkPool.TakeKeepsInv | crates/kernels-vulkan/build.rs:92-99 | any worker's next atomic step keeps every claimed job held or compiled exactly once and every error pushed or about to be, and leaves fewer steps |
| WorkPool.EveryRunKeepsInv | crates/kernels-vulkan/build.rs:88-103 | so does every interleaving |
| WorkPool.RunsAreBounded | crates/kernels-vulkan/build.rs:88-103 | none takes more than a step per worker and three per job |
| WorkPool.ReturnedIsFinished | crates/kernels-vulkan/build.rs:88-106 | when all workers have returned each job was compiled once and the list holds each error as often as jobs fail with it |
| WorkPool.PassesIffFine | crates/kernels-vulkan/build.rs:105-106 | the list is empty exactly when no job fails |
| WorkPool.CompileAll | crates/kernels-vulkan/build.rs:83-107 | whoever goes next, the pool comes to rest finished, and the build passes exactly when every job compiles |
| ModuleWalk.FirstFile | scripts/mod-reachability-audit.py:114-117 | the first candidate that exists |
| ModuleWalk.TargetsAre | scripts/mod-reachability-audit.py:110-117 | what a file pushes is what its declarations lead to |
| ModuleWalk.Mark | scripts/mod-reachability-audit.py:102-117 | marking a popped file and pushing its targets leaves everything marked or waiting reachable and nothing declared forgotten |
| ModuleWalk.Marks.Walk | scripts/mod-reachability-audit.py:97-117 | after a walk the shared marks are exactly the existing files reachable from all roots so far, cycles included, and the loop ends |
| ModuleWalk.WalkCrate | scripts/mod-reachability-audit.py:124-126 | after all roots, exactly those reachable from any |
| ModuleWalk.OrphansAre | scripts/mod-reachability-audit.py:128-130 | the orphans are exactly the source files no root of their crate leads to |
| ModuleWalk.Audit | scripts/mod-reachability-audit.py:119-148 | the report has the files reached and the orphans in order; the exit code is 2 exactly below 400 files reached, else 1 exactly when some file is an orphan, else 0 |
| Fp4.Pow2CeilBounds | scripts/dsv41_parity_ref.py:89-93 | the scale is a power of two p with x <= p < 2x |
| Fp4.OneInAnOctave | scripts/dsv41_parity_ref.py:89-93 | there is only one such power |
| Fp4.CodeIsNearest | scripts/dsv41_parity_ref.py:96-104 | the code looked up is the nearest of the eight, the even one of two as near |
| Fp4.ScaleFits | scripts/dsv41_parity_ref.py:118-125 | at a block's scale the clamp to [-6, 6] changes no value |
| Fp4.ScaleIsLeast | scripts/dsv41_parity_ref.py:118-125 | the scale is the least power of two, of those from 2^-126 on, with the block's greatest magnitude no more than six times it |
| Fp4.QuantisedIsNearest | scripts/dsv41_parity_ref.py:124-127 | a value goes to the nearest scaled code's value, with its sign |
| Fp4.BlockGoesToNearest | scripts/dsv41_parity_ref.py:118-127 | so does every value of a block at the block's own scale |
| Fp4.ValueGoesToNearest | scripts/dsv41_parity_ref.py:118-128 | and every value of a tensor at the scale of its own 32 |
| Fp4.ScaleAgain | scripts/dsv41_parity_ref.py:118-127 | quantising again takes the same scale, or half of it where nothing is past three steps |
| Fp4.QuantBlockTwice | scripts/dsv41_parity_ref.py:118-127 | a block quantised twice is the block quantised once |
| Fp4.QuantDequantTwice | scripts/dsv41_parity_ref.py:118-127 | and so is a tensor |
| Fp4.ActQuant | scripts/dsv41_parity_ref.py:118-128 | in place, every block by its own scale; refused and untouched exactly when the length does not split into blocks |
| Text.SplitJoin | scripts/bench/common.py:884-907 | splitting joined parts gives them back when none has the separator |
| Text.SplitIs | scripts/bench/common.py:884 | joining the parts gives the text back, and no part has the separator |
| Text.StripIs | scripts/bench/common.py:885 | stripping takes white space off both ends, and leaves none there |
| Text.DigitsRead | scripts/bench/common.py:890-892 | digits read exactly when they begin and end with one and underscores stand singly between, and say their decimal value |
| Text.IntReads | scripts/bench/common.py:890-892 | white space, a sign or none, digits and white space read as that number |
| Text.IntReadsNothingElse | scripts/bench/common.py:890-892 | whatever reads as a number is of that form |
| Text.IntOfDecimal | scripts/bench/common.py:888-892 | a number printed in decimal reads back |
| CpuList.ParseCpuList | scripts/bench/common.py:882-893 | the union of the parts' ranges, or failure when any part is no number or range |
| CpuGrammar.PartReads | scripts/bench/common.py:885-892 | white space around a part and around its numbers changes nothing: a part says the CPUs of its range, its one CPU, or none if blank |
| CpuGrammar.PartReadsNothingElse | scripts/bench/common.py:885-892 | a part that is no error is of that form |
| CpuGrammar.ListReads | scripts/bench/common.py:882-893 | a list of such parts, in any order and however they overlap, is read as the union of what they say |
| CpuGrammar.ListReadsNothingElse | scripts/bench/common.py:882-893 | and any list that is no error is one |
| CpuGrammar.SpacedList | scripts/bench/common.py:882-893 | "0-3, 8" and a line end are 0, 1, 2, 3 and 8 |
| CpuList.FormatCpuList | scripts/bench/common.py:896-909 | prints ranges that are disjoint, in increasing order, never adjacent, and together exactly the set, and the text parses back to it |
| CpuList.CanonicalIsUnique | scripts/bench/common.py:896-909 | a set has only one such list, so the ranges are maximal |
| CpuList.RoundTrip | scripts/bench/common.py:882-909 | what is printed for any finite set of naturals, the empty one included, parses back to it |

## Left out

- HTTP, retries, tokens, progress output, temporary files and renames: a remote shard is a byte sequence and the cache a map from keys to bytes.
- JSON text: the header's encoding is a parameter that decoding inverts, with trailing spaces ignored.
- `list.sort`, `sorted` and `list.index` are modelled by small functions and loops of the same result.
- The `mod` remap and the plain and literal branches of `output_entry`: each is a read of a whole blob.
- The choice of which planes are read out, by dtype and name (`mark_fp8_readout`), and the read-out of planes that are not Engram tables, which are read as whole blobs first.
- A request for an empty byte range, which the code would phrase as a range that ends before it starts: it is modelled as an empty answer.
- Config parsing: counts that the config gives are naturals where the code would only loop zero times or raise on a negative one.
- `Dequant.ReadOutPlane`: gives sixteen-bit values, whose two bytes `EngramReadOut.WordReadsBack` adds; a NaN's sign is not followed through the product.
- `Belady.Simulate`: is optimal for traces of at most 10**9 cuts, since the code uses that number for a use that never comes.
- LRFU's decayed counts and all beam scores are reals: float rounding is not modelled.
- `top_k`, `reduce_argmax`, `log_softmax`, the target model and the drafter are functions with the contracts their use needs; ties are broken as the function pleases.
- `RunAhead.RunInv`: frames have one live slot, as they do for a pass that binds a device mask; a put or take of one row is one atomic step.
- `Speculative.Decode`: the hidden state and key/value tensors are the token rows they were computed from.
- `WorkPool.CompileAll`: an external compiler's outcome is a function of the job; the counter does not overflow, having at most one increment per job and per worker.
- `KernelVariants.Collect`: takes the directive lines in file order, already split into words; reading the tree and the files' text is left out.
- `ModuleWalk.Marks.Walk`: files are abstract identities with ordered candidates; the regular expressions, path normalisation and symbolic links are left out.
- `Fp4.ActQuant`: is over the reals with the power-of-two scale; the e4m3 scale branch and overflow are left out.
- `CpuList.ParseCpuList`: reads ASCII digits, one sign, single underscores and ASCII white space; other Unicode digits and spaces are left out.
- Per-family config rewrites, the daemon, the command lines and everything inside the engine's crates.
