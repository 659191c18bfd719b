# A verified model of the ADNS server's caches, locks and zone files

This project models the parts of the ADNS name server in which several pieces of state
must agree, and proves properties of them for every input and every run.

- **Reader/writer lock** (`ReadWriteLock.dfy`). Program counters per thread, steps that are
  atomic under the mutex, explicit sleeping sets, `notify_all` and spurious wake-ups; a class
  with the three counters and the four operations.
- **Frequency meter** (`FrequencyMeter.dfy`). The circular array of seconds, related to the
  history of all events.
- **Queues** (`MessageQueue.dfy`, `QueueMultiplexer.dfy`). A bounded queue, and the
  multiplexer as a state machine in which `add_channel` is split into its single steps.
- **Forwarding cache** (`ForwardingCache.dfy`). Answers with timestamps, its collection and
  the condition under which the collection is well defined.
- **Recursive cache** (`CacheAnswer.dfy`, `FifoCache.dfy`, `CacheRefinement.dfy`,
  `RecursiveCache.dfy`, `RootHints.dfy`). Answers as objects that share record objects; the
  trio of map, insertion list and record counter on values, with the run-level refinement of a
  plain map; the cache object whose methods are tied to those values; the updater that keeps
  the root hints alive.
- **Zone files** (`Text.dfy`, `ZoneReader.dfy`, `ZoneToken.dfy`, `ZoneUtil.dfy`,
  `LocCodec.dfy`, `LocText.dfy`, `ZoneRdata.dfy`, `ZoneStatement.dfy`, `ZoneParser.dfy`). Reader,
  lexer, record data, statements and parser, each as methods over the reader and as functions of
  the text; `ZoneFields.dfy`, `ZoneOwner.dfy` and `ZoneContext.dfy` say in words what those
  functions make of fields, owners and whole files. `ZoneLayout.dfy` and `ZoneExplicit.dfy` prove
  that rewriting a file keeps its meaning; `ZoneDump.dfy`, `ZoneRoundTrip.dfy`, `ZoneRestore.dfy`,
  `ZonePieces.dfy` and `ZonePrinted.dfy` prove exactly which dumped records and zones are parsed
  back, and `ZoneUnreadable.dfy` has records that are not.
- **Names on the wire** (`NameCompression.dfy`). Writing names with compression pointers into a
  message and parsing them from any bytes, with the exact conditions under which what was written
  is read back.

Clocks are explicit arguments: every reading the code takes is a parameter of its own. Seconds
are `TICKS` clock ticks, so that truncation to seconds is visible. A Python exception, or a C++
one, is `None` or a constructor of its own in the result; a loop that reads on for ever at the
end of a file is a constructor too (`Endless`, `Hang`, `Stuck`), so the zone file methods return
where the scripts would spin.

## Where code and documentation disagree

The model follows the code.

- `acore/message_queue.hpp:42-45` says the oldest messages are dropped; the code rejects new
  ones and its bound is one more than the maximum (`MessageQueue.OldestAreKept`).
- The frequency meter does not clear every slot a gap skips and can over-count
  (`FrequencyMeter.ReadingIs`).
- The loop at `cache/dns_forwarding_cache.cpp:79-82` can only step to older timestamps
  (`ForwardingCache.StepToFresh`).
- The SOA branch at `cache/dns_recursive_cache_answer.cpp:128-140` tests one value and stores
  another (`CacheAnswer.MinimumAboveTtl`).
- Copies of cached answers share record objects that update_ttls takes to be its own
  (`CacheAnswer.SharedDriftNeedsOneListing`).
- The dump script writes owners the lexer refuses and strings without the escapes the lexer
  expects (`ZonePrinted.PrintedTokens`).
- `message/dns_label.hpp:29` admits labels of 64 octets, which the parser refuses
  (`NameCompression.PlainComesBack`).
- The comment at `bin/zone_file_statement.py:84-90` allows any owner next to a TTL; the code
  refuses `@` there (`ZoneExplicit.OriginSignNeedsClass`).
- The comment at `bin/zone_file_rdata.py:334` gives the LOC size a default of one metre; the code
  throws when it is missing. `valid_uint16` admits 65536, `is_lower_alnum` refuses digits, and a
  `\DDD` escape always throws.

## Model

| member | source | states |
|---|---|---|
| ReadWriteLock.EveryRunIsSafe | acore/read_write_lock.cpp:34-84 | After every interleaving of the threads' steps, spurious wake-ups included, the three counters equal the numbers of reading, writing and waiting threads, there is at most one writer and never alongside readers, and every sleeper still has its wait condition true (no wake-up is lost) |
| ReadWriteLock.SleeperHasWaker | acore/read_write_lock.cpp:34-84 | Whenever a thread sleeps, another thread holds the lock or is an awake writer whose next step is enabled |
| ReadWriteLock.EveryStateDrains | acore/read_write_lock.cpp:34-84 | No reachable state is stuck: without new calls and without spurious wake-ups, some run of at most two steps per busy thread ends with every thread having acquired, released and gone |
| ReadWriteLock.WriterPriority | acore/read_write_lock.cpp:34-59 | In any reachable state with a waiting writer no step makes a thread a reader |
| ReadWriteLock.Lock.LockRead | acore/read_write_lock.cpp:34-44 | One pass of the loop: the reader is counted exactly when no writer writes or waits, and otherwise nothing changes and it sleeps |
| ReadWriteLock.Lock.LockWrite | acore/read_write_lock.cpp:46-59 | One pass of the loop: the writer is counted as waiting on entry, and moves from waiting to writing exactly when nobody holds the lock |
| ReadWriteLock.Lock.ReleaseRead | acore/read_write_lock.cpp:61-71 | The last reader out, and nobody else, wakes the writers, every one of them; all other threads stay where they are |
| ReadWriteLock.Lock.ReleaseWrite | acore/read_write_lock.cpp:73-84 | The writer leaving wakes every sleeping reader and writer; all other threads stay where they are |
| FrequencyMeter.NeverUndercounts | acore/frequency_meter.cpp:43-67 | For any clock that does not go back and any non-negative events, the reading is the sum of the slots and at least the number of events of the last period |
| FrequencyMeter.OverCount | acore/frequency_meter.cpp:43-67 | From a meter whose slots hold exactly the last period, the next reading exceeds the truth by exactly the events whose seconds left the window while their slots were not cleared |
| FrequencyMeter.ExactNextReading | acore/frequency_meter.cpp:51-60 | From a meter whose slots hold exactly the last period, the next reading is right if and only if nothing was counted in that stale range of seconds |
| FrequencyMeter.ReadingIs | acore/frequency_meter.cpp:43-67 | For every history of a clock that does not go back, whatever gaps and counts: the reading is the true number of events of the last period plus the events that left the window while no later call cleared their slot |
| FrequencyMeter.ReadingIsRight | acore/frequency_meter.cpp:43-67 | Over every run with non-negative events the reading is right if and only if every event that has left the window had its slot cleared by some later call |
| FrequencyMeter.ExactWhenGapsHarmless | acore/frequency_meter.cpp:43-67 | When every gap between calls is at most a second or at least two periods, the reading of every run is the true count |
| FrequencyMeter.OverCountsAfterShortGap | acore/frequency_meter.cpp:55-60 | A concrete run with a gap in between whose reading is too high |
| FrequencyMeter.OverCountLasts | acore/frequency_meter.cpp:51-64 | An over-count can outlive the call that made it: three calls and a fourth whose own stale range counts nothing still read one event too many |
| FrequencyMeter.ReadingGuarantees | acore/frequency_meter.cpp:43-67 | What one more call returns, seen from the history of all calls |
| FrequencyMeter.Meter.constructor | acore/frequency_meter.cpp:25-36 | A new meter has all slots at zero and the given time |
| FrequencyMeter.Meter.RecordEvent | acore/frequency_meter.cpp:43-67 | The call on the slot array takes the meter to the state the history of calls, this one included, gives it, and returns its total |
| MessageQueue.OldestAreKept | acore/message_queue.hpp:96-113 | Of all messages offered a queue keeps the oldest, one more than its configured length, and rejects the newer ones |
| MessageQueue.Queue.Enqueue | acore/message_queue.hpp:96-113 | A message is accepted exactly when the length does not exceed the maximum, and then queued last |
| MessageQueue.Queue.Dequeue | acore/message_queue.hpp:58-83 | The oldest message is taken, or the timeout reported when the queue is empty |
| QueueMultiplexer.EveryRunIsSafe | acore/queue_multiplexer.hpp:56-156 | In every interleaving of channel additions and thread steps: a message that passes the channel check never indexes past the output queues, whatever sits in or left an output queue came from that channel, queues hold at most one more than their maximum, and each injected message is in exactly one place: queued, in a thread, delivered or rejected |
| QueueMultiplexer.RejectedExactlyWhenFull | acore/queue_multiplexer.hpp:97-156 | In every reachable state and for every step: a message is rejected exactly when the queue it is offered to holds one more than the maximum, and none is dropped as invalid |
| QueueMultiplexer.DemuxDelivers | acore/queue_multiplexer.hpp:97-129 | Demux puts every reply it holds behind the others of the channel it came from whenever that queue has room, and touches no other queue |
| QueueMultiplexer.FirstInFirstOut | acore/queue_multiplexer.hpp:97-156 | In every interleaving each queue hands out its messages in the order in which they were accepted: what entered is what left, then what is still there |
| QueueMultiplexer.RepliesComeInOrder | acore/queue_multiplexer.hpp:97-129 | What a channel has been delivered, then what waits for it, is exactly what was routed to it, in the order of routing |
| QueueMultiplexer.MessageIsDelivered | acore/queue_multiplexer.hpp:97-156 | A run that takes a message through every thread and queue to the consumer of its channel |
| QueueMultiplexer.TagIsRoutable | acore/queue_multiplexer.hpp:56-62 | A tag in flight passes the check and names an existing output queue even while its channel is only half added |
| QueueMultiplexer.StepConserves | acore/queue_multiplexer.hpp:97-156 | A step moves at most one message from one place to another; only an injection adds one, and only its own |
| QueueMultiplexer.RunsExtend | acore/queue_multiplexer.hpp:97-129 | Every enabled step of a reachable state can be taken: no run is cut short by an index out of range |
| QueueMultiplexer.CheckMustAdmitTheCount | acore/queue_multiplexer.hpp:60-107 | A run in which demux receives a message tagged with exactly the number of counted channels, so the check may not be tightened to `>=` |
| ForwardingCache.CollectionKeepsNewest | cache/dns_forwarding_cache.cpp:84-109 | A collection leaves fewer than `target` answers, each strictly newer than every answer it evicted and none altered |
| ForwardingCache.CollectionSize | cache/dns_forwarding_cache.cpp:84-109 | When no two answers have the same timestamp a collection leaves exactly one fewer than the target |
| ForwardingCache.AddedSize | cache/dns_forwarding_cache.cpp:48-110 | In numbers: with different timestamps and none too old, an addition that fills the cache is well defined and leaves exactly one answer fewer than the configured percentage of the maximum, rounded down, the newest ones |
| ForwardingCache.AgeInNumbers | cache/dns_forwarding_cache.cpp:79-82 | An answer is too old once a whole second more than the maximum age has passed |
| ForwardingCache.RankExists | cache/dns_forwarding_cache.cpp:71-90 | There is a timestamp of every rank below the number of answers |
| ForwardingCache.FreshTarget | cache/dns_forwarding_cache.cpp:79-82 | While no answer is too old a collection that keeps fewer answers than there are is well defined |
| ForwardingCache.SortedGivesRank | cache/dns_forwarding_cache.cpp:71-90 | Index k of the sorted timestamps holds the time of rank k among the cached answers |
| ForwardingCache.StepToFresh | cache/dns_forwarding_cache.cpp:79-82 | The loop that steps back through sorted timestamps stops inside them exactly when it need not step at all |
| ForwardingCache.SortedTimes | cache/dns_forwarding_cache.cpp:71-75 | The timestamps of all answers in ascending order, each as often as it occurs |
| ForwardingCache.Cache.Add | cache/dns_forwarding_cache.cpp:48-60 | The answer becomes the last one added for its question. Below the maximum nothing is dropped; otherwise the target is the percentage of the maximum, `100 * t <= maximum * pct < 100 * t + 100`, the call is well defined exactly when there are fewer than t answers or the timestamp of rank t is within the maximum age, and the result is the collection for t; with a percentage below 100 the size is then below the maximum, and with no answer too old every addition is well defined |
| ForwardingCache.Cache.GarbageCollect | cache/dns_forwarding_cache.cpp:62-110 | For the same t in numbers: the cache becomes the collected one exactly when there are fewer than t answers or the timestamp of rank t is within the maximum age |
| ForwardingCache.SilenceUndefinesCollection | cache/dns_forwarding_cache.cpp:62-110 | A reachable cache whose collection is undefined: at most four answers, half of them kept, three answers, ten minutes of silence and a fourth |
| ForwardingCache.Cache.Get | cache/dns_forwarding_cache.cpp:112-139 | Nothing, or the last answer added for the question, aged at most the maximum; a too old one is dropped |
| CacheAnswer.UpdatesKeepDeadline | cache/dns_recursive_cache_answer.cpp:235-270 | Over any sequence of update_ttls calls before expiry the sum of create time and minimum TTL is constant |
| CacheAnswer.UpdatesAreInvisibleLater | cache/dns_recursive_cache_answer.cpp:226-270 | Whether an answer has expired at any later time is the same as if update_ttls had never been called |
| CacheAnswer.TickMovesDeadline | cache/dns_recursive_cache_answer.cpp:235-270 | One update moves the deadline exactly when it takes effect on an expired answer |
| CacheAnswer.UpdateInNumbers | cache/dns_recursive_cache_answer.cpp:235-270 | In numbers: within a second of the last update nothing changes; otherwise the reading becomes the create time, the minimum falls by the time that has passed or to zero, and a record listed once by as many whole seconds |
| CacheAnswer.ClockIsCurrent | cache/dns_recursive_cache_answer.cpp:235-270 | After any run of updates the create time is less than a second behind the last reading |
| CacheAnswer.BoundedDrift | cache/dns_recursive_cache_answer.cpp:235-270 | For a record listed once by one answer: over any run of its updates before expiry whose effective time is E, the TTL falls by at most E and by more than half of it, never wraps, and stays at or above the minimum TTL |
| CacheAnswer.DriftInElapsedTime | cache/dns_recursive_cache_answer.cpp:235-270 | The same bound in time as it passes: between create time and last reading the TTL falls by no more seconds than pass, and by at least half of them but for less than a second |
| CacheAnswer.DriftNeedsDistinctRecords | cache/dns_recursive_cache_answer.cpp:235-270 | Within one answer the bound holds for one update if and only if the record is not listed twice |
| CacheAnswer.SharedTtlFalls | cache/dns_recursive_cache_answer.cpp:235-270 | Over any run of updates of any number of answers that share a record, its TTL falls by the sum of the drops of every update of every answer that lists it, modulo 2^32 |
| CacheAnswer.LoneListingDrifts | cache/dns_recursive_cache_answer.cpp:235-270 | A record listed at most once over all updated answers drifts within the bound, whatever other answers are updated in between |
| CacheAnswer.SharedDriftNeedsOneListing | cache/dns_recursive_cache_answer.cpp:30-42 | Since copies share their records, the drift bound holds for every run of updates of several answers if and only if their listings of the record total at most one |
| CacheAnswer.UpdateInTurn | cache/dns_recursive_cache_answer.cpp:235-270 | On answer objects that share record objects: after any run of updates the clocks and the TTL of each record are those of the shared run on values |
| CacheAnswer.CopyMakesTtlWrap | resolver/dns_recursive_slot.cpp:259-268 | A cached answer and its cached copy, each listing one record of TTL 10 once and each updated once before it expires, leave the record a TTL of 2^32 - 2 |
| CacheAnswer.TimesOfDistinct | cache/dns_recursive_cache_answer.cpp:235-270 | A record in a list without repetitions is hit once by one update, which is what the drift bound asks |
| CacheAnswer.InitialMinIsLeast | cache/dns_recursive_cache_answer.cpp:44-142 | Without SOA records the constructor starts from the least TTL of answer and additional records, or from the default if there are none |
| CacheAnswer.SoaRaisesMinimum | cache/dns_recursive_cache_answer.cpp:128-140 | The running minimum grows exactly when an SOA's minimum field undercuts it while the SOA's own TTL lies above it |
| CacheAnswer.MinimumAboveTtl | cache/dns_recursive_cache_answer.cpp:116-142 | For all record lists: the minimum a new answer starts from exceeds a record's TTL if and only if an SOA behind it undercut the running minimum by its minimum field while its TTL lay above it, no later record did so again, and neither that SOA nor a later record has a TTL as low |
| CacheAnswer.SoaStartsOutOfStep | cache/dns_recursive_cache_answer.cpp:128-140 | An address of TTL 100 before an SOA of TTL 3600 and minimum 60: the answer starts from an hour, and an update at 200 seconds wraps the address's TTL |
| CacheAnswer.NewAnswerInStep | cache/dns_recursive_cache_answer.cpp:44-114 | Every answer and additional record of a new answer has a TTL at or above the minimum, so that the drift bound applies to it, if and only if no SOA raised the minimum above another record's TTL for good |
| CacheAnswer.UpdateMinTtl | cache/dns_recursive_cache_answer.cpp:116-142 | The loop over one list of records folds their TTLs into the running minimum |
| CacheAnswer.UsableNameservers | cache/dns_recursive_cache_answer.cpp:70-106 | The NS records with a TTL are kept, in their order and as often as listed, and the filter throws exactly when there are none or they name two domains |
| CacheAnswer.AddedIsNew | cache/dns_recursive_cache_answer.cpp:155-170 | Merged records are new and pairwise different by text |
| CacheAnswer.AddedMissesNone | cache/dns_recursive_cache_answer.cpp:155-170 | Every offered record is there by text after the merge |
| CacheAnswer.ResourceRecord.UpdateTtl | zone/dns_rr.cpp:204-207 | The TTL is a 32-bit unsigned field: adding a negative difference wraps |
| CacheAnswer.Answer.Create | cache/dns_recursive_cache_answer.cpp:44-114 | Clock, record lists and referral name of a new answer, the kept NS records in order; the exception exactly for a referral without usable NS records or with several names; NS records never contribute to the minimum |
| CacheAnswer.Answer.Copy | cache/dns_recursive_cache_answer.cpp:30-42 | A copy shares its record objects, is created now with the minimum TTL the original has left, and so has a deadline later by the time since the original was last updated |
| CacheAnswer.Answer.UpdateTtls | cache/dns_recursive_cache_answer.cpp:235-270 | Within a second of the last update nothing changes. Otherwise the create time is the reading, the minimum of an unexpired answer falls by exactly the time passed, and every record listed once and in step loses as many whole seconds; records listed more often lose them once per listing |
| CacheAnswer.Answer.SetTtls | cache/dns_recursive_cache_answer.cpp:328-346 | All TTLs and the minimum are set while the create time stays |
| CacheAnswer.Answer.AddAnswerRecords | cache/dns_recursive_cache_answer.cpp:155-170 | The records with new texts are appended; clock and minimum stay |
| FifoCache.SweepIs | cache/dns_recursive_cache.cpp:510-564 | After a sweep the survivors, in insertion order, are exactly the longest suffix of the current unexpired entries whose record total fits the budget; the counter is that total and within the budget; list and map match one to one; pinned keys stay |
| FifoCache.DropStaleIs | cache/dns_recursive_cache.cpp:514-550 | The first phase keeps exactly the current unexpired items in order and unbinds exactly the keys whose current item expired |
| FifoCache.DropStaleIsInvisible | cache/dns_recursive_cache.cpp:514-550 | No lookup after the last clock reading of the first phase can tell that it ran |
| FifoCache.EvictedIsLeast | cache/dns_recursive_cache.cpp:552-563 | Eviction drops the least number of oldest items that makes the rest fit |
| FifoCache.AddKeepsInv | cache/dns_recursive_cache.cpp:153-185 | Adding an entry with a fresh sequence number keeps counter, list and map in agreement |
| FifoCache.TouchKeepsInv | cache/dns_recursive_cache.cpp:264-291 | Updating TTLs through any reference keeps counter, list and map in agreement |
| CacheRefinement.LookupRefinesPlainMap | cache/dns_recursive_cache.cpp:153-564 | After any run of additions, lookups and sweeps, a later lookup hits exactly when the last entry accepted for the key is unexpired by the clock it was accepted with and was not evicted for size, and returns that entry |
| CacheRefinement.CounterAgreesAfterEveryRun | cache/dns_recursive_cache.cpp:153-564 | In every reachable state the record counter is the sum over the list, never negative, and every binding of the map is in the list |
| CacheRefinement.SameSequenceTwiceBreaksMatch | cache/dns_recursive_cache.cpp:510-564 | Without fresh sequence numbers a sweep can keep two list items for one binding |
| RecursiveCache.FindsLongestSuffix | cache/dns_recursive_cache.cpp:293-323 | The referral search ends with the longest suffix of the question name that is cached and unexpired, and fails only when there is none |
| RecursiveCache.RootIsNeverRemoved | cache/dns_recursive_cache.cpp:187-202 | No run of referral additions and sweeps removes the root entry: it is always the last root referral added |
| RecursiveCache.ReferralLookupNeverFails | cache/dns_recursive_cache.cpp:293-323 | After any such run the lookup ends with the longest cached unexpired suffix, as long as the last root referral is fresh |
| RecursiveCache.DropStaleItems | cache/dns_recursive_cache.cpp:514-550 | The iterator loop over list and map computes the first phase, counter included |
| RecursiveCache.EvictOldestItems | cache/dns_recursive_cache.cpp:552-563 | The eviction loop computes the second phase |
| RecursiveCache.Cache.AddAnswer | cache/dns_recursive_cache.cpp:153-185 | The three structures change together for a cacheable answer; zero TTLs and TKEY records are skipped silently and a referral type is refused; with a sequence number not cached yet the cache stays in order |
| RecursiveCache.Cache.AddReferral | cache/dns_recursive_cache.cpp:187-202 | Root referrals are bound outside the list, all others go through it; with a sequence number not cached yet the cache stays in order |
| RecursiveCache.Cache.GetReferral | cache/dns_recursive_cache.cpp:293-323 | The cached object of the longest unexpired suffix, or the report that no root hints are loaded |
| RecursiveCache.Cache.GetAnswer | cache/dns_recursive_cache.cpp:264-291 | The cached object the plain lookup gives, with create time, minimum and TTLs brought up to date by the time passed, wherever it is bound or listed; otherwise the referral asked for, or a failure answer that is not cached |
| RecursiveCache.Cache.GarbageCollectAnswers | cache/dns_recursive_cache.cpp:510-564 | The object's list, map and counter become the sweep of the old ones; the counter fits the limit and list and map match one to one |
| RecursiveCache.Cache.GarbageCollectReferrals | cache/dns_recursive_cache.cpp:566-628 | The same for referrals; the root entry stays |
| RecursiveCache.Cache.UpdateCached | cache/dns_recursive_cache_answer.cpp:235-270 | Updating one answer object changes exactly its own entries in both caches |
| RecursiveCache.Cache.ResetCached | cache/dns_recursive_cache_answer.cpp:328-346 | The same for set_ttls; every record has the TTL that was set |
| RootHints.RootNeverExpires | cache/dns_recursive_cache.cpp:445-481 | While the updater is the only writer of the root entry and each pass, sleep and query included, takes under half an hour, no mix of replies makes a lookup of the root fail; the updater ends in an exception if and only if some pass that asks gets a reply that is valid but all of whose TTLs are zero, and otherwise the entry lasts another half hour |
| RootHints.PassInNumbers | cache/dns_recursive_cache.cpp:342-481 | A timely pass in numbers: it asks in a first pass and when less than a day is left; then silence leaves exactly 48 hours from the update on, an accepted reply 48 hours from the reply on, and an invalid reply the deadline as it was unless less than an hour was left |
| RootHints.RefusedReplyEndsUpdater | cache/dns_recursive_cache.cpp:384-481 | In a first pass such a reply ends the updater at once |
| RootHints.RefusedReply | cache/dns_recursive_cache.cpp:384-443 | A reply of that kind: it passes validation and the referral constructor refuses it |
| RootHints.RootUnexpiredDuringPass | cache/dns_recursive_cache.cpp:342-481 | None of the clocks the root entry has in the course of a pass expires before the pass ends |
| RootHints.LookupsNeverThrow | cache/dns_recursive_cache.cpp:293-481 | At any point of a pass, and up to half an hour after it, behind any other referrals and sweeps, a referral lookup by any thread finds a referral for every name |
| RootHints.LatePassFindsNoRoot | cache/dns_recursive_cache.cpp:462-474 | The timing matters: a pass that comes too late finds no root |
| RootHints.LoadedHintsAreSafe | cache/dns_recursive_cache.cpp:77-147 | Freshly loaded hints satisfy what the first pass needs |
| RootHints.LoadRootHints | cache/dns_recursive_cache.cpp:77-147 | On a cache without entries: the root entry holds an NS record for every name and an address record for every row of the table, lasts two days and satisfies what the first pass needs; an empty table ends in an exception |
| RootHints.HintsGiveAddresses | cache/dns_recursive_cache.cpp:77-147 | From loaded hints the updater is given exactly the addresses of the table whose family is enabled |
| RootHints.AcceptedReplyHasGlue | cache/dns_recursive_cache.cpp:384-508 | For a root reply that passes validation and is accepted by the constructor, some address is found if and only if an address family is enabled |
| RootHints.AcceptedReplyIsOneName | cache/dns_recursive_cache_answer.cpp:70-106 | The constructor refuses a validated root reply exactly when all its TTLs are zero |
| RootHints.ValidateRootResponse | cache/dns_recursive_cache.cpp:384-443 | A reply passes exactly when it has at least five answers, all of them NS records of the root with both A and AAAA glue |
| RootHints.GetGlueIps | cache/dns_recursive_cache.cpp:483-508 | Exactly the addresses, of the enabled families, of the servers the answer names |
| RootHints.UpdateRootHintsNow | cache/dns_recursive_cache.cpp:342-382 | On the cache object: silence on an unexpired root keeps its create time and sets its minimum and every record to 48 hours; an accepted reply becomes a new root entry created now with all TTLs at 48 hours; an invalid one leaves entry and TTLs alone; a refused one throws |
| RootHints.UpdateRootHints | cache/dns_recursive_cache.cpp:445-481 | On the cache object: one pass takes the root entry's clock where the value-level pass takes it, and after a pass that asked, all TTLs are 48 hours unless the reply was invalid with an hour or more left |
| Text.IntOfPrinted | bin/zone_file_util.py:47-73 | int() undoes the printing of a number, sign included |
| Text.SplitJoin | bin/zone_file_rdata.py:220-221 | Splitting at commas undoes joining when no part holds one |
| ZoneReader.Reader.Read | bin/zone_file_reader.py:31-46 | The next character that is not a carriage return, put back or from the file; the line number counts the newlines handed out |
| ZoneReader.Reader.Putback | bin/zone_file_reader.py:48-51 | The character is next again and its newline uncounted |
| ZoneToken.LexShown | bin/zone_file_token.py:115-138 | Every string, '@' and lexable word is read back from its printed form, whatever follows |
| ZoneToken.LexGivesLexable | bin/zone_file_token.py:115-138 | Every such token the lexer finds can be printed and read back |
| ZoneToken.FirstCharacters | bin/zone_file_token.py:115-138 | A single character is a word exactly when it is a letter, a digit or one of five signs, and is refused unless it is one of the seven other signs |
| ZoneToken.WordEnds | bin/zone_file_token.py:91-101 | A word goes on up to a blank, the end of the line or a bracket, and no further |
| ZoneToken.StringFromEscape | bin/zone_file_token.py:62-88 | A string printed with quotes and backslashes escaped is scanned back |
| ZoneToken.ConsumeWhitespace | bin/zone_file_token.py:47-52 | Exactly the leading blanks are consumed |
| ZoneToken.ConsumeToEol | bin/zone_file_token.py:55-59 | The line and its newline are consumed, or the loop never ends |
| ZoneToken.ReadToNextToken | bin/zone_file_token.py:91-101 | The word up to a blank, newline or bracket; a blank goes with it |
| ZoneToken.ReadQuoted | bin/zone_file_token.py:62-88 | The string up to its closing quote, the exception of a bad escape, or the loop never ends |
| ZoneToken.ReadToken | bin/zone_file_token.py:115-138 | The method over the reader finds the token the lexer function gives and leaves the same rest |
| ZoneUtil.TranslateTtl | bin/zone_file_util.py:7-38 | Digits with at most one unit, or the exception |
| ZoneUtil.TtlOfPrinted | bin/zone_file_util.py:7-38 | A printed number is read as a TTL exactly when it fits 32 bits |
| ZoneUtil.TtlInNumbers | bin/zone_file_util.py:7-38 | Every run of digits and what follows it: 1, 60, 3600, 86400 or 604800 seconds for no unit, m, h, d or w in either case, up to 4294967295 seconds, and nothing else |
| ZoneUtil.NameLimits | bin/zone_file_util.py:75-97 | The limits in numbers: 254 characters with the dot whatever the length of a label, and 128 parts, empty ones included |
| ZoneUtil.NameCharacters | bin/zone_file_util.py:75-97 | Names are made of letters, digits, hyphens and underscores between dots |
| ZoneUtil.HexIsOctets | bin/zone_file_util.py:140-145 | Hex text is valid exactly when it decodes to half as many octets |
| ZoneUtil.EuiIsOctets | bin/zone_file_util.py:112-138 | An EUI is valid exactly when it is that many octets in hex with hyphens between them |
| ZoneUtil.ValidFqdn | bin/zone_file_util.py:75-97 | Exactly the names of at most 254 characters and 128 parts that end in a dot and hold only letters, digits, dots, hyphens and underscores |
| LocCodec.EncodeLocSize | bin/zone_file_rdata.py:298-322 | The scaling loop computes mantissa and exponent of a size |
| LocCodec.SizeError | bin/zone_file_rdata.py:298-322 | An encoded size comes back at most half of 10^exponent centimetres off |
| LocCodec.SizeOrder | bin/zone_file_rdata.py:298-322 | Encoding and decoding keeps the order of sizes |
| LocCodec.SizeRoundTrip | bin/zone_file_rdata.py:298-322 | Encoding what an octet stands for gives the octet back if and only if its mantissa is 1 to 9 and its exponent at most 9 |
| LocCodec.EncodableSizes | bin/zone_file_rdata.py:298-322 | Exactly the sizes above half a centimetre and up to 90000 km can be encoded |
| LocText.ExtractAngle | bin/zone_file_rdata.py:277-296 | Up to three numbers and a direction make an angle |
| LocText.AngleIsNamed | bin/zone_file_rdata.py:277-296 | An angle is read exactly when one to three numbers and a direction stand there, and is degrees, minutes and seconds |
| LocText.StoredAngle | bin/zone_file_rdata.py:268-275 | In numbers: an angle of d degrees is stored as 2147483648 plus 3600000 d for n and e, minus 3600000 d otherwise, rounded to the nearest |
| LocText.PolarInNumbers | bin/zone_file_rdata.py:325-370 | A line is LOC data exactly when it names two angles, an altitude and sizes that can be encoded; latitude, longitude and altitude are then stored, to the nearest unit, as thousandths of an arc second from 2147483648, north and east up, and centimetres from 10000000 |
| LocText.MissingPrecisions | bin/zone_file_rdata.py:325-370 | Precisions that are left out are stored as 10 km (octet 22) and 10 m (octet 19) |
| LocText.TakeApart | bin/adns-dump-zone.py:149-162 | The in-place reduction of seconds gives `3600000 * degrees + 60000 * minutes + thousandths` equal to the distance from 2147483648, with minutes below 60 and seconds below 60, and the positive hemisphere exactly from 2147483648 on |
| LocText.PrintedCoordinate | bin/adns-dump-zone.py:149-164 | The printed words read as whole degrees, whole minutes below 60 and seconds below 60 that make up the distance from 2147483648 thousandths, and the side it lies on |
| LocText.PrintedAltitude | bin/adns-dump-zone.py:178-182 | The printed altitude is the number of metres (altitude - 10000000) / 100 |
| LocText.PrintedSize | bin/adns-dump-zone.py:166-176 | The printed size is the nearest whole number of metres to mantissa times ten to the exponent centimetres |
| LocText.LatitudeRoundTrip | bin/adns-dump-zone.py:149-164 | Printing a latitude and reading it back restores it |
| LocText.LongitudeRoundTrip | bin/adns-dump-zone.py:149-164 | Printing a longitude and reading it back restores it |
| LocText.AltitudeRoundTrip | bin/adns-dump-zone.py:178-182 | Printing an altitude and reading it back restores it |
| LocText.SizeTextRoundTrip | bin/adns-dump-zone.py:166-176 | Printing a size octet and reading it back restores it if and only if it is a valid octet of whole metres |
| LocText.PolarRoundTrip | bin/adns-dump-zone.py:184-190 | A printed LOC record is read back as it was if and only if its three sizes are valid octets of whole metres |
| LocText.GetPolar | bin/zone_file_rdata.py:325-370 | The LOC data of a line of words, as `LocText.PolarInNumbers` says in numbers; the size has no default |
| ZoneRdata.ParseRdata | bin/zone_file_rdata.py:372-483 | The loop over the field table gives each field its value, all tokens that are left to a field that takes the rest, and refuses tokens too many or too few |
| ZoneFields.FieldByField | bin/zone_file_rdata.py:372-483 | In a record of single-token fields each field has the value of the token in its place, and a record is refused exactly for a wrong number of tokens or a token that has no value |
| ZoneFields.MxData | bin/zone_file_rdata.py:30-150 | A mail exchanger is a preference and a name |
| ZoneFields.SrvData | bin/zone_file_rdata.py:30-150 | A service is a priority, a weight, a port and a name |
| ZoneRdata.GetTxt | bin/zone_file_rdata.py:194-205 | All tokens as strings of at most 255 characters, or the exception |
| ZoneRdata.GetSvcparams | bin/zone_file_rdata.py:207-226 | The service parameters of all tokens, later ones winning, or the exception |
| ZoneFields.ParamInWords | bin/zone_file_rdata.py:207-226 | A service parameter is a known key, an equals sign and a value whose quotes do not count, or the one key without a value |
| ZoneRdata.GetIpseckey | bin/zone_file_rdata.py:246-266 | The IPSECKEY fields of at least five tokens, or the exception |
| ZoneFields.KeyInWords | bin/zone_file_rdata.py:246-266 | An IPSECKEY is precedence, algorithm, gateway type, a gateway that counts unless the type is 0, and a key of one word or more |
| ZoneStatement.FindRecordType | bin/zone_file_statement.py:58-65 | The first word that is a supported type, or the exception |
| ZoneOwner.HeaderIsRead | bin/zone_file_statement.py:72-172 | For every form [owner] [TTL] [class] or [owner] [class] [TTL] whose words can be told apart, in every context: the owner is the one given, or else the last one or the origin, the TTL the one given, or else the last one or the default, and it is refused exactly when what is needed is missing |
| ZoneOwner.AcceptedIsHeader | bin/zone_file_statement.py:72-172 | Up to three tokens in front of a type are accepted only if they are such a form |
| ZoneOwner.RecordInWords | bin/zone_file_statement.py:72-175 | A whole record: such a form, the first supported type and some data assemble to that owner and TTL and to what the data stand for, or are refused with them |
| ZoneOwner.NameInLabels | bin/zone_file_rdata.py:188-192 | `@` is the origin, a name with a dot at its end itself, and the labels of any other name are followed by those of the origin |
| ZoneStatement.AssembleRecord | bin/zone_file_statement.py:68-176 | The record the tokens stand for in their context, or the exception |
| ZoneStatement.ReadTokens | bin/zone_file_statement.py:179-210 | The loop collects the tokens up to the end of the record, through brackets, line ends and comments |
| ZoneStatement.ReadStatement | bin/zone_file_statement.py:220-262 | The next statement and what it says in its context |
| ZoneParser.GetResourceRecords | bin/zone_file_parser.py:6-35 | The loop that threads origin, TTL, last name and last TTL, with its recursive includes, produces the records of the run of the file's statements |
| ZoneContext.RecordsInTurn | bin/zone_file_parser.py:6-35 | A file whose statements all come through gives their records in their turn, an included file its own, parsed from the origin and default TTL of the moment and without a last record |
| ZoneContext.FirstFailureDecides | bin/zone_file_parser.py:6-35 | Otherwise the first statement or included file that fails decides how the parse ends |
| ZoneContext.OriginAt | bin/zone_file_parser.py:20-21 | At every statement the origin is the one the last `$ORIGIN` before it named |
| ZoneContext.DefaultTtlAt | bin/zone_file_parser.py:24-25 | The default TTL is the one the last `$TTL` before it gave |
| ZoneContext.LastRecordAt | bin/zone_file_parser.py:28-32 | Last owner and TTL are those of the last record before it, included files aside |
| ZoneLayout.CollectLaidOut | bin/zone_file_statement.py:179-210 | Whatever the layout over blanks, lines, comments and brackets, the tokens of a record are collected in their order |
| ZoneLayout.RecordIsReadBack | bin/zone_file_statement.py:179-262 | A record is read back from any layout |
| ZoneLayout.WrittenMeansTheSame | bin/zone_file_parser.py:6-35 | Statements written out in any layout and parsed produce what running them produces |
| ZoneExplicit.ExplicitRecord | bin/zone_file_statement.py:68-176 | A record rewritten with owner, TTL and class explicit assembles to the same record, whatever there was to fall back on |
| ZoneExplicit.ExplicitMeansTheSame | bin/zone_file_parser.py:6-35 | Making every record of a run explicit changes nothing: the same records, or the same failure |
| ZoneExplicit.NormalisedMeansTheSame | bin/zone_file_parser.py:6-35 | A file whose records all resolve an owner and a TTL can be rewritten with everything explicit, in any layout, and parses to the same records |
| ZoneExplicit.LayoutsFit | bin/zone_file_statement.py:179-210 | The one-line and the folded form are layouts of any writable record |
| ZoneExplicit.OwnerIsMissing | bin/zone_file_statement.py:96-170 | An accepted record lacks an owner exactly when more than three tokens precede its type, or just class and TTL do with no name to fall back on |
| ZoneExplicit.TtlIsMissing | bin/zone_file_statement.py:96-170 | An accepted record lacks a TTL exactly when it names none and there is none to fall back on |
| ZoneExplicit.OriginSignNeedsClass | bin/zone_file_statement.py:128-166 | The origin sign is refused as owner next to a TTL alone, though accepted when the class is given too |
| ZoneDump.DumpTxt | bin/adns-dump-zone.py:133-135 | The strings in quotes, a space behind each |
| ZoneDump.DumpSvcparams | bin/adns-dump-zone.py:137-147 | The printable service parameters in their order |
| ZoneDump.DumpPolar | bin/adns-dump-zone.py:184-190 | The words of a LOC record: latitude, longitude, altitude and three sizes as the three `LocText.Printed` lemmas say in numbers |
| ZoneDump.DumpRecord | bin/adns-dump-zone.py:208-228 | The line of a record, field by field |
| ZoneDump.DumpZone | bin/adns-dump-zone.py:230-242 | The text of a zone: default TTL, origin, SOA, NS records, the others |
| ZoneRoundTrip.TokenBack | bin/adns-dump-zone.py:208-228 | A field of one token is parsed back as it was exactly when it survives, and refused otherwise |
| ZoneRoundTrip.KeyBack | bin/adns-dump-zone.py:192-206 | IPSECKEY data come back if and only if they have a gateway and a valid key: without a gateway the printed form is a token short |
| ZoneRoundTrip.ParamsBack | bin/adns-dump-zone.py:137-147 | Service parameters come back if and only if they hold no address hints, no empty lists and no commas or quotes inside values |
| ZoneRestore.FieldsBack | bin/zone_file_rdata.py:372-483 | Printed fields are parsed back as they were if and only if all of them survive |
| ZoneRestore.RecordBack | bin/zone_file_statement.py:68-176 | The tokens of a printed record assemble to the record, with dots behind its names, if and only if it is restorable, in every context |
| ZonePieces.RecordIsRaw | bin/adns-dump-zone.py:208-228 | Whatever a record holds, its text is its tokens as the script writes them, nothing escaped, one after the other with spaces between |
| ZonePieces.RecordIsLaidOut | bin/adns-dump-zone.py:208-228 | When all words of a record can be read at all, that text is a layout of its tokens but for missing escapes |
| ZonePrinted.StringFromRaw | bin/adns-dump-zone.py:133-135 | What is written between quotes as it is, is read back as itself if and only if it holds neither a quote nor a backslash |
| ZonePrinted.PrintedTokens | bin/adns-dump-zone.py:208-228 | For every record and every text behind it: the printed text is read as the record's own tokens if and only if its words are lexable, its strings need no escape and nothing holds a carriage return, and reading goes on behind it |
| ZonePrinted.PrintedRecord | bin/adns-dump-zone.py:208-228 | For every record and every text behind it: the printed text is read as the record's own tokens and these assemble to the record if and only if the record is readable and restorable; a readable record is parsed to what its tokens assemble to, and the text behind it as what follows |
| ZonePrinted.PrintedStatements | bin/adns-dump-zone.py:236-241 | The text of printed records is read as one statement a record, each with its own tokens, if and only if all are readable |
| ZonePrinted.PrintedRecords | bin/adns-dump-zone.py:236-241 | Readable records are parsed back, all of them and in order, if and only if all are restorable, whatever the context |
| ZonePrinted.PrintedZoneStatements | bin/adns-dump-zone.py:230-242 | For every zone: the dump is read as the statements it was written as if and only if the zone's name is a lexable word without carriage returns and all records are readable |
| ZonePrinted.PrintedZone | bin/adns-dump-zone.py:230-242 | For every zone: the dump is read as the statements it was written as and parsed to the zone's records if and only if the zone is readable, its name is a domain name and all its records are restorable |
| ZoneUnreadable.UnderscoreIsRefused | bin/zone_file_token.py:135-138 | No text that starts with a printed record whose owner begins with an underscore can be parsed |
| ZoneUnreadable.ServiceRecordIsRefused | bin/adns-dump-zone.py:208-228 | The record of `_sip._tcp.example.com` is restorable and its printed text is refused |
| ZoneUnreadable.QuoteIsRefused | bin/adns-dump-zone.py:133-135 | A text record with a quote in its string can be restorable, yet the printed text is refused: what follows the quote reads as a word |
| ZoneUnreadable.BackslashIsLost | bin/adns-dump-zone.py:133-135 | A backslash in a printed string vanishes without an exception, unless a digit or line end follows |
| ZoneUnreadable.ComesBackFromOtherTokens | bin/zone_file_statement.py:96-170 | The converse for bare records fails: a record whose owner reads like a record and a comment comes back from tokens that are not its own |
| NameCompression.ParseName | message/dns_message_serial.cpp:210-279 | parse_name ends on any bytes, without reading past them, in a name or one of its exceptions |
| NameCompression.WireFormat | message/dns_message_serial.cpp:210-279 | The format in numbers: 0 ends a name, 1 to 63 is the length of a label, 64 to 191 is refused, from 192 on 16 bits are 49152 plus the offset to go on at, and no name takes more than 254 octets |
| NameCompression.FoldTells | message/dns_label.cpp:63-79 | Two names fold to the same exactly when they are equal octet by octet but for the case of ASCII letters |
| NameCompression.ParsedIsGood | message/dns_message_serial.cpp:210-279 | Every name it returns has labels of 1 to 63 octets and at most 254 octets in all |
| NameCompression.PlainComesBack | message/dns_message_serial.cpp:137-146 | A name written without compression is parsed back exactly, case included and whatever surrounds it, if and only if its labels have 1 to 63 octets and 254 in all; labels of 0 and 64 octets can be constructed |
| NameCompression.ParsedComesBack | message/dns_message_serial.cpp:210-279 | Whatever was parsed from any bytes can be written again and is then parsed to the same name |
| NameCompression.WritingIsSound | message/dns_message_serial.cpp:106-146 | Writing a name into a message of at most 64 KB keeps every remembered suffix spelled where its offset says |
| NameCompression.SharedEndsAreShort | message/dns_message_serial.cpp:106-135 | In every message a name that ends like one written before with compression takes no more than its own labels and a pointer of two octets |
| NameCompression.WrittenComesBack | message/dns_message_serial.cpp:106-279 | A compressed name whose pointer target is within 14 bits is parsed back, up to case and to the octet behind it, if and only if it is proper and its labels, pointers and end take at most 128 turns of the parser |
| NameCompression.NameComesBack | message/dns_message_serial.cpp:106-279 | The same for every name of a whole message, after any mix of compressed names, plain names and other bytes |
| NameCompression.CompressionNeedsFewLabels | message/dns_message_serial.cpp:210-227 | All proper names of up to n labels survive compression in every message within a pointer's reach if and only if n is at most 63: a name of 64 labels built up suffix by suffix takes 129 turns |
| NameCompression.CompressionNeedsShortMessages | message/dns_message_serial.cpp:106-135 | All proper names of up to 63 labels survive compression in every message of up to n octets if and only if n is at most 16388: behind 16 KB an offset no longer fits a pointer and its upper bits are lost |
| NameCompression.MessageWriter.UnparseName | message/dns_message_serial.cpp:106-135 | The loop over the labels writes what the function says and remembers every new suffix; it overruns exactly when what is length-checked does not fit |
| NameCompression.MessageWriter.UnparsePlain | message/dns_message_serial.cpp:137-146 | The loop without compression |

## Left out

- Sockets, TLS, HTTP, REST handlers, configuration, logging, monitors, run state and the database row classes: input, output and dispatch. A root query is a reply or silence, and the table of root servers is a list of rows.
- Real threads and clocks: a step is atomic under its mutex and readings are arguments. Data races on the multiplexer's vectors and on answers updated under a read lock are not modelled.
- Machine integers other than the 32-bit record TTL and the 16-bit offsets of compressed names: the lock's, meter's and caches' counters are unbounded. The proofs show that none of them goes below zero.
- Message contents, wire format other than names, and the subclasses of resource records: in the caches a record has an owner, type, TTL, name server or address, minimum and text. The record length that is patched into a message later is one of the bytes between its names.
- Names in `NameCompression` are compared octet by octet after folding ASCII letters; the cached hash of a name, which one overload of `append` does not reset, is not modelled.
- RootHints.UpdateRootHints: takes the records of a reply to be its own, not those of the cached root entry, as a message just parsed has them, and their sequence number to be new.
- RecursiveCache.Cache.AddAnswer: promises order only for a sequence number that no cached answer has, as each new answer object gets one; what happens otherwise is `CacheRefinement.SameSequenceTwiceBreaksMatch`.
- ForwardingCache.Cache.GarbageCollect: leaves the cache alone where the original indexes outside its vector and its behaviour is undefined.
- FrequencyMeter.NeverUndercounts: holds for events that are not negative; negative counts can make up for others, and `FrequencyMeter.ReadingIs` gives the exact reading for them too.
- FrequencyMeter.Meter.RecordEvent: gives the state for any clock reading, and the exact total for clocks that do not go back.
- Text outside ASCII in zone files: letters and digits are the ASCII ones.
- LocText.ExtractAngle: number words with an exponent or underscores, infinities and NaN are refused here, and floating-point numbers are exact reals.
- Base64 and IP address validation: parameters of the parser, so every result holds whatever they accept.
- Included files: the recursion stops at a depth that is a parameter, as the interpreter's does; opening the first file is not modelled.
- ZoneDump.DumpRecord: asks that a stored record has the fields of its type and LOC sizes of one octet; the script throws otherwise.
- ZonePrinted.PrintedRecord: its converse is about the record's own tokens. That the record comes back is not enough to conclude it was readable (`ZoneUnreadable.ComesBackFromOtherTokens`): what an unreadable record is parsed to depends on the records before and the text behind it.
- ZonePrinted.PrintedZone: in the same way its converse asks that the zone is read as the statements it was written as; whether a whole zone can come back from other statements is left open.
- NameCompression.WrittenComesBack: what a pointer past its reach is parsed to depends on the octets it happens to point at; the exact message length up to which that cannot happen is `NameCompression.CompressionNeedsShortMessages`.
- ZoneExplicit.NormalisedMeansTheSame: control entries are written one per line, and included files are left as they are.
- Forwarding, zone transfers, signing, the resolver itself, and all of the user interface: nothing of them is modelled.
