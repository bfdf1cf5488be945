# A verified model of the ScyllaDB C/C++ driver

This project models, in Dafny, the parts of the C/C++ driver (`cpp-rs-driver`) whose correctness does
not show in any single function, and proves what they promise:

- **Futures** (`FutureProtocol`, `FutureProgress`, `FutureAnswers`): the mutex, condition variable,
  join handle and callback slot behind `CassFuture`, as a machine whose steps of the creator, the
  runtime task and any number of client threads interleave freely. Safety is proved for every run, and
  so is what each call answers. Progress is proved for every schedule: no deadlock, no lost wake-up, a
  bound on the number of steps.
- **Reference counting** (`RefCounting`, `RefCountingSafety`, `RefCountingProgress`,
  `RefCountingEffects`, `RefCountingMoves`): `SharedRefPtr` handles that live in variables and inside
  objects, copied, moved, reset and destroyed by any number of threads, with destructors that release
  further objects. Counts are exact, nothing freed is touched and every operation leaves its handles
  as it should, in any run; a rank shows that releases come to an end, with every object no handle
  refers to deleted, once.
- **Timestamps and UUIDs** (`TimestampGenerator`, `UuidGenerator`): two lock-free sources of increasing
  timestamps under an arbitrary clock, and the packing of timestamps into UUIDs. Of any two calls, the
  one whose compare-exchange comes first has the smaller value, so that a call which starts after
  another returned gets the larger one; calls that overlap may return in the other order. Both follow
  the clock whenever it is ahead of what they gave out last. The first source is lock-free.
- **CQL values** (`CqlTypes`, `CqlFrames`, `CqlWire`, `CqlSizes`, `CqlSerializer`, `CqlTypecheck`,
  `CqlTypePaths`, `CqlBinding`, `CqlBuilders`, `CqlDenotes`, `CqlExact`, `Vint`): the types and values
  of the C API, the checks made when a value is bound, the wire format, and a reader written from the
  protocol. Which types the checks take for equal is stated along the paths into them. The main result
  is exact as well: a value assembled through the API is read back from a column as what was sent if and
  only if it has the column's type down to its leaves. The driver's checks alone do not ensure that;
  there are lemmas for when they do, and values they let through that cannot be read.
- **Hashes** (`Words`, `Murmur3`, `StringHash`, `HashVectors`): Cassandra's MurmurHash3 and FNV-1a, with
  64-bit wrap-around arithmetic on natural numbers; every mixing step is invertible, so whole families of
  inputs cannot collide. Published hashes fix the constants.
- **Allocators and buffers** (`FixedAllocator`, `Bootstrap`, `RingBuffer`).
- **Text and tools** (`Text`, `Decimal`, `Lcov`, `Versions`, `DateTime`, `NextPow2`).

Pure code is modelled by functions, loops and updated objects by methods and classes that are proved
against specification functions, concurrent code by step machines (a state, the enabled actions, and
runs as sequences of actions). `dafny verify dfyconfig.toml` checks everything.

Where a property turned out not to hold for all inputs, the model keeps the behaviour of the code, and
one lemma states the exact condition while another gives inputs that fail it:

- `CqlExact.ReadBackExactlyWhenTyped`; failing: `CqlExact.UntypedListIsMisread`, `CqlBinding.StaleTypeHidesWrongField`.
- `CqlExact.RecordReadsBackExactlyWhenNotNewer`, `CqlTypecheck.CheckIsSoundExactlyWhenNotNewer`; failing: `CqlBinding.NewerRecordIsUnreadable`.
- `RefCountingMoves.MoveFromInside`; failing: `RefCountingMoves.CountDoesNotDecide`.
- `TimestampGenerator.OrderIsTakingOrder`, `UuidGenerator.OrderIsTakingOrder` for the order in which calls return; failing: `TimestampGenerator.ReturnsOutOfOrder`, `UuidGenerator.ReturnsOutOfOrder`.
- `UuidGenerator.UuidsAreUnique` needs a clock that fits the timestamp field; failing: `UuidGenerator.UuidsCollide`.
- `UuidGenerator.TimestampRoundTrip`; failing: `UuidGenerator.TimestampRoundTripFails`.
- `Murmur3.MatchesOriginalExactlyWhen`; failing: `Murmur3.OriginalDiffers`.
- `Bootstrap.RoomIsRightExactlyWhen`, `Bootstrap.CopyFitsExactlyWhen`; failing: `Bootstrap.WrappingRequestIsGranted`, `Bootstrap.WrappingReallocOverruns`.
- `DateTime.RoundTripExactlyWhen`; failing: `DateTime.RoundTripFails`.
- `DateTime.TimeInRangeExactlyWhen`; failing: `DateTime.TimeOutOfRange`.
- `Text.EscapedIdReadsBack`; failing: `Text.EscapedIdsLost`.

Two remarks on the source. `include/cassandra.h` documents that the time of day is never negative; the
code yields negative times for negative seconds off midnight, and the model follows the code. The
comment on UDT comparison in `data_type.rs` calls types with common first fields equivalent; that
relation is not transitive, which is what `StaleTypeHidesWrongField` shows, and it is not symmetric in
what it guarantees: a record of an older version can be read through a newer column
(`OlderRecordReadsBack`), one of a newer version through an older column cannot.

## Model

| member | source | states |
|---|---|---|
| FutureProtocol.InvKept | scylla-rust-wrapper/src/future.rs:134-453 | every step of the creator, the task and the clients keeps lock ownership, handle ownership, write-once result, callback accounting and the rule that a sleeper is always owed a wake-up |
| FutureProtocol.FutureIsSafe | scylla-rust-wrapper/src/future.rs:134-453 | in every interleaving: the callback is stored and called at most once, never before the result, never forgotten; the stored result is the one the awaited future completed with, and so is every result a call returned; no panic; at most one of creator, task and clients is inside the mutex, and the join handle is in its slot or with one client |
| FutureAnswers.CallsAreAnswered | scylla-rust-wrapper/src/future.rs:222-453 | whatever happens between a call and its return, the outcome fits the call: a result is what the awaited future completed with, a timeout is reported only by a timed wait after its deadline passed, an invalid duration only after the deadline overflowed, and a callback is reported as set only if it is the one in the slot |
| FutureAnswers.ResolvedAnswersAtOnce | scylla-rust-wrapper/src/future.rs:222-235 | once the result is set, a waiter returns it with its first step, which nothing can block |
| FutureAnswers.SecondCallbackIsRefused | scylla-rust-wrapper/src/future.rs:416-447 | once a callback is stored, another one is never accepted |
| FutureProtocol.SlotsAreWriteOnce | scylla-rust-wrapper/src/future.rs:164-183 | result and callback never change once set, along every run |
| FutureProgress.HelpfulStepRanks | scylla-rust-wrapper/src/future.rs:222-395 | every step lowers a rank, other than new calls, spurious wake-ups, deadlines that expire or overflow, and the awaited future completing while no client drives the runtime |
| FutureProgress.SomeoneCanMove | scylla-rust-wrapper/src/future.rs:222-395 | while a call has not returned, some such step is possible |
| FutureProgress.EveryWaiterIsServed | scylla-rust-wrapper/src/future.rs:222-395 | such schedules are bounded, and when they end every call has returned and every waiter has the result the awaited future completed with, even on a runtime only waiters drive; if the result is set, a stored callback has been called |
| FutureProgress.ServedStateIsReachable | scylla-rust-wrapper/src/future.rs:222-395 | from every state with the invariant such an end is reached |
| RefCountingSafety.CountsAreExact | src/ref_counted.hpp:39-51 | in every run the count of an object equals the references held plus those in flight |
| RefCountingSafety.NothingFreedIsTouched | src/ref_counted.hpp:39-135 | no step touches a deleted object, and the assertion in dec_ref holds |
| RefCountingSafety.ObjectsOnlyAge | src/ref_counted.hpp:44-51 | an object is deleted at most once and never comes back |
| RefCountingEffects.CopyCopies | src/ref_counted.hpp:79-135 | whatever other threads do until a copy is finished, the destination then refers to what the source referred to when it began, and so does the source still |
| RefCountingEffects.ResetClears | src/ref_counted.hpp:113-135 | a finished reset without argument leaves the handle null |
| RefCountingEffects.ResetAdopts | src/ref_counted.hpp:113-135 | a finished reset to a new object leaves the handle referring to it |
| RefCountingEffects.ConstructAdopts | src/ref_counted.hpp:61-66 | a finished construction from a new object leaves the handle referring to it |
| RefCountingEffects.MoveConstructMoves | src/ref_counted.hpp:100-100 | a finished move construction leaves the new handle with what the source referred to and the source null |
| RefCountingEffects.MoveAssignMoves | src/ref_counted.hpp:91-98 | so does a finished move assignment; one from a handle to itself leaves it null |
| RefCountingEffects.OnlyTargetsChange | src/ref_counted.hpp:59-138 | no step changes, makes or destroys a handle other than the one its operation is about |
| RefCountingProgress.IdleStatesAreSettled | src/ref_counted.hpp:39-51 | in every reachable state without an operation in progress, an object is live with as many references as handles hold, or deleted |
| RefCountingProgress.LastReleaseDeletes | src/ref_counted.hpp:44-51 | from every reachable state, whatever the schedule, the operations in progress end within a bound, and then every object no handle refers to has been deleted |
| RefCountingMoves.MoveFromInside | src/ref_counted.hpp:91-98 | while another thread is idle, no reference to the object is in flight, and the handles the thread does not keep, on a stack or inside objects, can be reset without going through the object itself: move assignment from a handle inside the released object reads that handle intact in every run if and only if the thread keeps another handle to the object |
| RefCountingMoves.LastReferenceTakesItAway | src/ref_counted.hpp:91-98 | if the released reference was the last, the handle to move from is gone in every run |
| RefCountingMoves.CountDoesNotDecide | src/ref_counted.hpp:91-98 | reachable states with counts 1 and 2 in which it goes wrong, and with count 2 in which it does not |
| TimestampGenerator.TimestampsAreMonotonic | src/timestamp_generator.cpp:25-63 | in every interleaving and for any clock, timestamps are strictly increasing in CAS order, every returned value is one of them, no two calls hold the same one, from the compare-exchange on, and `last_` is at most the largest clock reading plus their number |
| TimestampGenerator.TimestampsFollowTheClock | src/timestamp_generator.cpp:25-63 | in every interleaving each timestamp is the greater of the last clock reading of the call that obtained it and one more than the timestamp before |
| TimestampGenerator.TimestampsAreTheTime | src/timestamp_generator.cpp:37-62 | while those readings rise, the timestamps are the readings |
| TimestampGenerator.CallAlone | src/timestamp_generator.cpp:25-63 | what an undisturbed call returns, stores and logs, for every state it starts in and every reading of the two clocks |
| TimestampGenerator.TakenLaterIsLarger | src/timestamp_generator.cpp:25-33 | if one thread holds its timestamp, and another has not passed the compare-exchange of its call yet or makes another call later, the other gets the larger one |
| TimestampGenerator.StartedLaterIsLarger | src/timestamp_generator.cpp:25-33 | a call that starts after another returned returns a larger timestamp |
| TimestampGenerator.OrderIsTakingOrder | src/timestamp_generator.cpp:29-31 | of two calls in any run, overlapping or not, one has the smaller timestamp if and only if its compare-exchange came first |
| TimestampGenerator.ReturnsOutOfOrder | src/timestamp_generator.cpp:29-31 | a run in which a call returns a smaller timestamp after an overlapping call returned a larger one |
| TimestampGenerator.LaterIsLarger | src/timestamp_generator.cpp:25-35 | the log of timestamps only grows, and what is added after a moment is larger than `last_` was |
| TimestampGenerator.FailedCasMeansProgress | src/timestamp_generator.cpp:25-33 | a failed CAS means that another thread obtained a timestamp |
| TimestampGenerator.LockFree | src/timestamp_generator.cpp:25-63 | whatever the schedule and the clocks, more than 14 steps per thread, new calls included, issue a timestamp |
| TimestampGenerator.WarningsAreRateLimited | src/timestamp_generator.cpp:40-57 | any two logged warnings are more than the interval apart; a negative threshold disables them |
| UuidGenerator.UuidsAreUnique | scylla-rust-wrapper/src/cql_types/uuid.rs:52-98 | UUIDs of any two threads that have taken their timestamps, and of any two timestamps taken, are distinct, version 1 and ordered like the timestamps while the 60-bit time field lasts |
| UuidGenerator.SameUuidExactlyWhen | scylla-rust-wrapper/src/cql_types/uuid.rs:38-40 | two UUIDs are the same exactly if generator and low 60 timestamp bits are, and they carry the generator they were made with, for both ways of making them |
| UuidGenerator.GeneratorsNeverClash | scylla-rust-wrapper/src/cql_types/uuid.rs:43-98 | generators with different node and clock sequence never make the same UUID, over any two runs |
| UuidGenerator.NodeComesApart | scylla-rust-wrapper/src/cql_types/uuid.rs:43-50 | node, clock sequence and variant can be read from the generator's word |
| UuidGenerator.TimestampsFollowTheClock | scylla-rust-wrapper/src/cql_types/uuid.rs:52-98 | in every interleaving each timestamp is the greater of the sample of the call that took it and one more than the timestamp before; it lies in the sampled millisecond unless the clock is behind; as long as the 64-bit counter does not wrap |
| UuidGenerator.OffsetIsFromTheReform | scylla-rust-wrapper/src/cql_types/uuid.rs:26-36 | the offset is the number of ticks from 15 October 1582 to 1 January 1970 |
| UuidGenerator.UuidsCollide | scylla-rust-wrapper/src/cql_types/uuid.rs:38-40 | with a clock beyond that field, a run in which two threads get different timestamps and the same UUID |
| UuidGenerator.TakenLaterIsLarger | scylla-rust-wrapper/src/cql_types/uuid.rs:52-98 | if one thread holds its timestamp, and another has not taken the one of its call yet or makes another call later, the other gets the larger timestamp and UUID, also across clock rollback |
| UuidGenerator.StartedLaterIsLarger | scylla-rust-wrapper/src/cql_types/uuid.rs:87-180 | a call that starts after another returned gets the larger timestamp and UUID |
| UuidGenerator.OrderIsTakingOrder | scylla-rust-wrapper/src/cql_types/uuid.rs:52-98 | of two calls in any run, one has the smaller timestamp if and only if it was taken first |
| UuidGenerator.ReturnsOutOfOrder | scylla-rust-wrapper/src/cql_types/uuid.rs:87-180 | a run in which overlapping calls return against the order of their timestamps |
| UuidGenerator.LaterIsLarger | scylla-rust-wrapper/src/cql_types/uuid.rs:52-98 | what is taken from the counter after a moment is larger than it was then |
| UuidGenerator.TimestampRoundTrip | scylla-rust-wrapper/src/cql_types/uuid.rs:105-107 | the exact millisecond values that come back from a UUID made from them |
| UuidGenerator.TimestampRoundTripFails | scylla-rust-wrapper/src/cql_types/uuid.rs:197-212 | a value that does not come back |
| UuidGenerator.RepresentationsAgree | scylla-rust-wrapper/src/cql_types/uuid.rs:217-247 | the two conversions are inverse bijections and place the fields as section 4.1.2 of RFC 4122 does |
| Vint.SizesAgree | src/utils.hpp:103-107 | vint_size is the least n in 1..8 with value < 2^(7n), else 9, and the length of what the Rust encoder writes |
| Vint.SplitAgrees | src/utils.hpp:74-101 | counting leading zeros in two 32-bit scans agrees with the 64-bit count |
| Vint.DecodeEncode | scylla-rust-wrapper/src/cql_types/value.rs:479-499 | a reader of the protocol's unsigned vints recovers the value and leaves the rest |
| CqlSerializer.DoSerialize | scylla-rust-wrapper/src/cql_types/value.rs:212-287 | the serializer that appends to a buffer produces the bytes, or the nested error, of the specification |
| CqlSerializer.SerializeTupleLike | scylla-rust-wrapper/src/cql_types/value.rs:326-347 | as DoSerialize, for tuples |
| CqlSerializer.SerializeSequence | scylla-rust-wrapper/src/cql_types/value.rs:349-375 | as DoSerialize, for lists and sets |
| CqlSerializer.SerializeMapping | scylla-rust-wrapper/src/cql_types/value.rs:377-409 | as DoSerialize, for maps |
| CqlSerializer.SerializeVector | scylla-rust-wrapper/src/cql_types/value.rs:419-473 | as DoSerialize, for vectors: raw or vint-prefixed elements |
| CqlSerializer.SerializeUdt | scylla-rust-wrapper/src/cql_types/value.rs:525-546 | as DoSerialize, for user-defined types |
| CqlWire.RoundTrip | scylla-rust-wrapper/src/cql_types/value.rs:211-546 | a value of the column's type that serializes is decoded to the value that was sent, every field of it, for every nesting of types |
| CqlWire.FixedLength | scylla-rust-wrapper/src/cql_types/data_type.rs:503-517 | values of the types a vector holds raw have exactly that type's size |
| CqlFrames.FrameIs | scylla-rust-wrapper/src/cql_types/value.rs:326-347 | a cell is the length of its bytes in four bytes, most significant first, and then the bytes |
| CqlFrames.NullFrame | scylla-rust-wrapper/src/cql_types/value.rs:326-347 | a null cell is the length -1 |
| CqlSizes.SerializesExactlyWhenWritable | scylla-rust-wrapper/src/cql_types/value.rs:326-546 | serialization fails exactly when a vector slot is unset or a count or cell length exceeds an i32, and otherwise writes a number of bytes computed from the value alone |
| CqlTypecheck.Lift | scylla-rust-wrapper/src/cql_types/data_type.rs:216-309 | a value of a type has, down to its leaves, every type that one passes the check against and is not newer than |
| CqlTypecheck.CheckIsSoundExactlyWhenNotNewer | scylla-rust-wrapper/src/cql_types/data_type.rs:50-85 | two types that pass the check share all values made for the first exactly when no UDT of the first has more fields than its counterpart |
| CqlTypePaths.CheckComparesEveryPath | scylla-rust-wrapper/src/cql_types/data_type.rs:50-309 | two types pass the check if and only if they agree at the end of every path that leads into both: same kind of type, same dimensions, same names of fields both have, and same keyspace and name unless one is left empty |
| CqlTypePaths.CheckIsEquality | scylla-rust-wrapper/src/cql_types/data_type.rs:50-309 | between types that leave nothing open, with as many fields in corresponding UDTs, the check is equality up to the two names of text |
| CqlTypePaths.OtherNameIsRefused | scylla-rust-wrapper/src/cql_types/data_type.rs:53-58 | the check fails on a UDT of another keyspace or name, however deep it is found |
| CqlTypePaths.AcceptedExactlyWhen | scylla-rust-wrapper/src/cql_types/value.rs:90-197 | exactly which types a value can be bound to: by its kind, by its shape if it is an untyped container, and else along every path of the type it was made from |
| CqlTypePaths.OneKindPerType | scylla-rust-wrapper/src/cql_types/value.rs:93-153 | every native type takes values of one kind, apart from blob and varint, which take two |
| CqlTypePaths.AddressIsNoPerson | scylla-rust-wrapper/src/cql_types/data_type.rs:56-58 | a record of one UDT is refused by a column of another with the same fields |
| CqlBinding.ChecksReachTheLeaves | scylla-rust-wrapper/src/cql_types/value.rs:83-197 | the shallow check of an assembled value extends to everything in it, if each container either was made from a fully named type that is not newer than its slot, or has parts that pass the same check against the slot's subtypes |
| CqlBinding.BoundValuesReadBack | scylla-rust-wrapper/src/cql_types/value.rs:83-287 | such a value, accepted for a column, reads back from it as what was sent; untyped containers and older records included |
| CqlBinding.StaleTypeHidesWrongField | scylla-rust-wrapper/src/cql_types/data_type.rs:60-82 | every bind succeeds and yet the column cannot be read, with a list declared for an older version of a UDT |
| CqlBinding.NewerRecordIsUnreadable | scylla-rust-wrapper/src/cql_types/data_type.rs:60-82 | a record of a newer version is accepted for a column of an older one, which then cannot be read |
| CqlBinding.OlderRecordReadsBack | scylla-rust-wrapper/src/cql_types/data_type.rs:60-82 | the other way round it can |
| CqlDenotes.EncodingsAgree | scylla-rust-wrapper/src/cql_types/value.rs:419-499 | a vector written with lengths is never read as the same vector held raw, or the reverse |
| CqlExact.ReadBackExactlyWhenTyped | scylla-rust-wrapper/src/cql_types/value.rs:83-546 | a value made through the API that serializes is read back from a column as what was sent if and only if it has the column's type down to its leaves, whatever types its containers were declared with |
| CqlExact.RecordReadsBackExactlyWhenNotNewer | scylla-rust-wrapper/src/cql_types/data_type.rs:60-82 | a record whose fields pass the check against the column's fields is read back if and only if it has no more fields than the column |
| CqlExact.UntypedListIsMisread | scylla-rust-wrapper/src/cql_types/value.rs:160-167 | an untyped list of text is accepted for a list of integers, where the text is read as a number |
| CqlBuilders.CassTuple.BindValue | scylla-rust-wrapper/src/cql_types/tuple.rs:40-54 | error codes, new state, and that the tuple stays well made |
| CqlBuilders.CassVector.BindValue | scylla-rust-wrapper/src/cql_types/vector.rs:53-65 | error codes, new state, and that the vector stays well made |
| CqlBuilders.CassUserType.SetFieldByIndex | scylla-rust-wrapper/src/cql_types/user_type.rs:21-32 | error codes, new state, and that the value stays well made |
| CqlBuilders.CassUserType.SetFieldByName | scylla-rust-wrapper/src/cql_types/user_type.rs:34-61 | every field of that name is set up to the first that refuses the value; the error tells which case it is |
| CqlBuilders.FirstRefusalIsFirst | scylla-rust-wrapper/src/cql_types/user_type.rs:44-51 | that field refuses the value and no earlier field of the name does |
| CqlBuilders.CassCollection.Append | scylla-rust-wrapper/src/cql_types/collection.rs:75-148 | items are checked against the element type, or in turn against key and value type, and appended |
| CqlBuilders.CassCollection.ToValue | scylla-rust-wrapper/src/cql_types/collection.rs:151-188 | keys and values are paired up, an odd number of items is an error, and the value is well made |
| Murmur3.RoundInjective | src/murmur3.cpp:94-116 | a body round loses nothing of the state |
| Murmur3.RoundKeepsBlock | src/murmur3.cpp:94-116 | a body round loses nothing of the block |
| Murmur3.FmixInjective | src/murmur3.cpp:65-74 | the finalization mix is injective |
| Murmur3.FinishInjective | src/murmur3.cpp:162-177 | finalization is injective on pairs of hash words |
| Murmur3.PackedInjective | src/murmur3.cpp:118-160 | packing sign-extended tail bytes is injective |
| Murmur3.NoCollision | src/murmur3.cpp:76-178 | two keys of one length that differ in a single block, or in the tail only, reach different pairs of hash words |
| Murmur3.MatchesOriginalExactlyWhen | src/murmur3.cpp:118-177 | the words equal those of Appleby's hash exactly when no tail byte but the eighth is negative |
| Murmur3.OriginalDiffers | src/murmur3.cpp:118-177 | a one-byte key that hashes differently, for every seed |
| HashVectors.MurmurVector | src/murmur3.cpp:65-178 | a key of one block and a tail in both words has the published hash, which fixes constants, rotations and the order of the steps |
| Murmur3.PackTail | src/murmur3.cpp:120-160 | combining the shifted tail bytes from last to first gives the packed word |
| Murmur3.MurmurHash3_x64_128 | src/murmur3.cpp:76-178 | the loop and the fall-through tail compute the first hash word |
| StringHash.Fnv1aLoop | src/hash.hpp:33-40 | the loop computes the hash of the mapped characters |
| StringHash.OneDifferenceNeverCollides | src/hash.hpp:33-40 | strings whose mapped characters differ at one position never collide |
| StringHash.MatchesReference | src/hash.hpp:33-40 | on ASCII it is the FNV-1a of section 2 of draft-eastlake-fnv |
| StringHash.OneNonAsciiByteDiffers | src/hash.hpp:33-40 | a string with one byte outside ASCII always hashes differently from it |
| HashVectors.FnvVectors | src/hash.hpp:30-40 | the reference has the hashes draft-eastlake-fnv lists for the empty string and for the letter a |
| StringHash.CompareLoop | src/string_ref.hpp:33-41 | the loop decides by the first difference |
| StringHash.EqualsIsEquality | src/string_ref.hpp:107-130 | compare is zero exactly for equal strings |
| StringHash.LessIsStrictTotalOrder | src/string_ref.hpp:119-130 | operator< is a strict total order |
| StringHash.LessIs | src/string_ref.hpp:107-130 | that order: shorter strings first, strings of one length in dictionary order of their signed characters |
| StringHash.EqualKeysHashAlike | src/string_ref.hpp:161-169 | strings equal under StringRefIEquals are those that fold down alike, and have equal StringRefIHash |
| StringHash.StartsWith | src/string_ref.hpp:148-151 | holds exactly for prefixes |
| StringHash.EndsWith | src/string_ref.hpp:153-157 | holds exactly for suffixes |
| FixedAllocator.Allocator.Allocate | src/fixed_allocator.hpp:80-87 | the buffer is handed out only when free and large enough; live regions stay disjoint and the flag stays exact, over all copies sharing the buffer |
| FixedAllocator.Allocator.Deallocate | src/fixed_allocator.hpp:89-95 | each block is released by the route that produced it |
| Bootstrap.RoomIsRightExactlyWhen | examples/result_iteration_bench/result_iteration_bench.c:82-85 | the test for room is right exactly for requests that do not wrap |
| Bootstrap.WrappingRequestIsGranted | examples/result_iteration_bench/result_iteration_bench.c:82-85 | a request that wraps and passes the test |
| Bootstrap.PlaceNextExactlyWhen | examples/result_iteration_bench/result_iteration_bench.c:82-88 | a granted request leaves the blocks apart and inside the buffer exactly when it does not wrap |
| Bootstrap.CopyFitsExactlyWhen | examples/result_iteration_bench/result_iteration_bench.c:107-110 | the copy of a granted reallocation stays inside the buffer exactly when the request does not wrap or the bytes from the old block on fit once more |
| Bootstrap.WrappingReallocOverruns | examples/result_iteration_bench/result_iteration_bench.c:107-110 | a granted request whose copy does not |
| Bootstrap.Allocator.Malloc | examples/result_iteration_bench/result_iteration_bench.c:79-89 | for every size: granted exactly when the test passes; if the request does not wrap that is when there is room, and blocks stay 8-aligned, inside the buffer and disjoint exactly then |
| Bootstrap.Allocator.Realloc | examples/result_iteration_bench/result_iteration_bench.c:95-113 | as Malloc, and the first min(old size, new size) bytes are kept while nothing below the new block changes |
| RingBuffer.PeekMultiple | src/ring_buffer.hpp:137-159 | on any ring that leads to the write head it ends there, the chunks concatenate to the readable bytes, and the total is their number |
| Decimal.ParsePrint | ci/merge_coverage.py:30-66 | an integer of either sign is read back from how it is printed |
| Decimal.ParseAround | ci/merge_coverage.py:30-30 | blanks around a number, such as the newline of the record, do not change it |
| Lcov.ReadLcov | ci/merge_coverage.py:21-34 | the loop over records computes the counts by source and line, or fails |
| Lcov.ReadExactly | ci/merge_coverage.py:21-34 | an export is read exactly if every DA record is well-formed and stands under a source; the result has the sources of the SF records and, for each line, the sum of the counts of all DA records for it under its source |
| Lcov.Merge | ci/merge_coverage.py:48-59 | the nested dictionary loops compute the merged report in whatever order they visit the entries |
| Lcov.MergedExactly | ci/merge_coverage.py:48-59 | the report has exactly the lines some non-test export has, with the sum of their counts over all exports |
| Lcov.OrderDoesNotMatter | ci/merge_coverage.py:48-59 | the order of the input files does not matter |
| Lcov.WriteReport | ci/merge_coverage.py:61-69 | the writer produces one record group per source |
| Lcov.WrittenReportReadsBack | ci/merge_coverage.py:21-69 | reading the text of the written report gives the same counts |
| Lcov.MergedNamesAreClean | ci/merge_coverage.py:27-28 | names read from files never contain a line break, so every merged report can be read back |
| Versions.LessIsStrictWeakOrder | ci/version_fetch.py:91-100 | `__lt__` is a strict weak order |
| Versions.StringLessIs | ci/version_fetch.py:98-99 | a string is less than those it is a proper prefix of, and otherwise the first difference decides |
| Versions.FilterVersions | ci/version_fetch.py:140-150 | returns the first passing version of each of the first count series, for any list |
| Versions.ChoosesGreatestOfHighest | ci/version_fetch.py:131-150 | of a descending list these are the greatest passing versions of the count highest series that have one; series left out are lower and only left out for lack of room |
| Versions.ChoosesNewest | ci/version_fetch.py:91-150 | what is chosen has the highest patch number of its series, is a release if a passing version with that number is, and has the greatest rest among those |
| Versions.ChoosesSomething | ci/version_fetch.py:140-150 | something is chosen whenever something passes and something is asked for |
| Text.TrimIs | src/utils.cpp:106-112 | trimming removes exactly the spaces around the text |
| Text.TrimInPlace | src/utils.cpp:106-112 | erasing from both ends computes the trimmed text |
| Text.Explode | src/utils.cpp:82-91 | appends exactly the trimmed non-empty pieces, in order |
| Text.Implode | src/utils.cpp:93-102 | computes the joined text |
| Text.ExplodeUndoesImplode | src/utils.cpp:82-102 | splitting a joined list of trimmed, non-empty, delimiter-free items gives the list back |
| Text.ExplodeIsStable | src/utils.cpp:82-102 | splitting, joining and splitting again is splitting, for every text |
| Text.IsLowercaseLoop | src/utils.cpp:114-127 | the scan decides whether a name can stay unquoted |
| Text.QuoteId | src/utils.cpp:129-144 | quotes the name and doubles the quotes in it |
| Text.EscapedIdReadsBack | src/utils.cpp:146-146 | a reader with any set of reserved words reads the escaped form as the original exactly if the name is not empty and not a reserved word in lower case |
| Text.EscapedIdsLost | src/utils.cpp:146-146 | the empty name and `select` are not read back |
| Text.EscapeIdInjective | src/utils.cpp:146-146 | different names have different escaped forms |
| DateTime.RoundTripExactlyWhen | scylla-rust-wrapper/src/cql_types/date_time.rs:13-29 | date and time give back the seconds exactly when the day number fits the date |
| DateTime.RoundTripFails | scylla-rust-wrapper/src/cql_types/date_time.rs:13-29 | 2^31 days after the epoch they do not |
| DateTime.PartsAre | scylla-rust-wrapper/src/cql_types/date_time.rs:13-20 | date and time of every number of days and seconds: day 2^31 is the day of the epoch, the time counts nanoseconds, and before the epoch both count back from the next midnight |
| DateTime.TimeInRangeExactlyWhen | scylla-rust-wrapper/src/cql_types/date_time.rs:18-20 | the time is in its documented range exactly for non-negative seconds and midnights |
| DateTime.TimeOutOfRange | scylla-rust-wrapper/src/cql_types/date_time.rs:18-20 | a time that is not |
| NextPow2.NextPowerOf2 | src/utils.hpp:54-61 | ends, with the least power of two that is at least 2 and at least the argument |
| NextPow2.StaticIsNextPow2 | src/macros.hpp:66-83 | the compile-time recursion gives that same number |

## Left out

- Futures that are ready from the start, error messages and the accessors of results: no synchronisation to speak of.
- Weak memory orderings: atomics and lock operations are single steps of one interleaving.
- A panicking or cancelled runtime task: `block_on(..).unwrap()` would end the process.
- The encodings of native values (integers, floats, text, inet, decimals, durations), the size table of native types in vectors and the overflow checks of cell writers come from the rust-driver, which is not part of this model; a native value is its kind and its bytes, with the width the protocol gives it.
- `frozen` flags: no check looks at them.
- Changing a data type after values were made from it.
- The list of CQL's reserved words: `Text.ReadId` takes it as a parameter.
- Lcov.ReadLcov: numbers have the syntax of Python's `int` with ASCII digits; it also takes decimal digits of other scripts. Translating line ends when a file is opened is not modelled.
- Sorting in the report writer: `WriteReport` takes the order of the keys as a parameter and reading back is proved for every order.
- The summary table of the coverage script, and parsing of version strings: printing and regular expressions.
- `StringRef::find` and `icompare` as an order: the first is a library search, the second has no meaningful sign.
- Locales other than C, and unsigned `char`.
- TimestampGenerator: timestamps stay clear of the largest 64-bit integer, where the code's increment would be undefined.
- TimestampGenerator, UuidGenerator: nothing is promised about the order in which overlapping calls return; `ReturnsOutOfOrder` shows that the code does not keep it.
- UuidGenerator: the loop waits for the clock once the ticks of a millisecond are used up, so it has no bound like that of `TimestampGenerator.LockFree`.
- UuidGenerator: how the node and the random clock sequence are chosen; they are parameters, and generators are told apart by the word made of both. The string form of UUIDs and the smallest and largest UUID of a time are not modelled.
- RefCounting: threads do not race on one handle, and the object around a handle in use is kept alive by another handle, as C++ demands of callers; move assignment outside that rule is the subject of `RefCountingMoves`.
- StringHash.MatchesReference: strings with several bytes outside ASCII may or may not collide with their reference hash; for none and for one the answer is proved.
- RefCountingMoves.MoveFromInside: says nothing about references that other threads are just copying or releasing, or that can only be reached through the object itself.
- DateTime: arithmetic wraps, as in a release build; with overflow checks `cass_date_time_to_epoch` stops for dates below 2^31.
- Murmur3.MatchesOriginalExactlyWhen: Appleby's hash is the model's own mixing with a zero-extended tail; no second definition of the mixing steps is compared, and `HashVectors.MurmurVector` ties them to his by one published hash.
- FixedAllocator: `construct`, `destroy` and alignment of the storage; malloc does not fail.
- Bootstrap.Allocator.Realloc: asks that the old block lies below the bump pointer and that the copy fits the buffer, outside of which memcpy is undefined; `CopyFitsExactlyWhen` says when it fits.
- NextPow2.NextPowerOf2: arguments above 2^63, for which the shift in the source is undefined.
- RingBuffer.PeekMultiple: asks for a ring whose read positions do not pass its write positions, as the rest of the class keeps it.
- Bootstrap: calls outside symbol resolution go to the real functions and are not modelled.
- RingBuffer: only the walk whose body is in the header; writing, reading and freeing are declared there without bodies.
- The session, cluster, statement, retry and iterator code, bindings, loggers, sockets and console examples.
