# Streamed storage, egress and network slots of the per-host agent

This project models four parts of the agent that runs on every host and proves what they promise.

1. The streamed root file system (`agent/internal/diskstream`, with `memstream`'s page resolver). An image is cut into
   chunks; all-zero chunks are left out and every other chunk carries a SHA-256. A guest read goes through a per-device
   resolver, a per-host cache that survives restarts, and an egress governor to an upstream that may fail, answer short or
   answer wrong. The promise: a successful read returns the image's bytes, whatever crashed, interleaved or lied.
2. The egress governor: a token bucket that may go into debt, and a lifetime cap that is checked and charged in two
   different critical sections.
3. Network slots and namespaces (`agent/internal/network`, `agent/internal/slotstore`, the boot order of
   `agent/cmd/agent/main.go`): prebuild, adopt, slow build, release, reconcile and sweep as small steps with a crash
   between any two, and with store calls and removals of namespaces that fail.
4. The NBD serve loop (`agent/internal/nbdstream`) and the file clone (`agent/internal/sandbox/clone.go`): loops over byte
   streams whose system calls do part of their work, are interrupted, or fail.

## How it is built

Protocols are step systems (a state, an `Event`, `Enabled`, `Step`, `Exec`) with an invariant that every step keeps, so
that the theorems hold for every run: `CacheMachine`/`CacheSafety`, `ResolverMachine`, `Retry`, `Governor`, `WarmUp`,
`NetMachine`/`NetSteps`/`NetSafety`/`NetFaults`/`NetBoot`; `RetryOnCache` ties the retry counter to the cache's steps, `NbdImage` the serve loop to
the image. Objects that change their fields in place are classes with the source's fields
(`SharedCaches.SharedCache`, `Resolvers.Resolver`, `GovSources.GovSource`, `SlotStores.SlotStore`, `NatidPools.Pool`,
`NbdServer.Server`, `MemPages.Resolver`, `Clone.File`); between two critical sections `Interfere` runs any number of steps of other
goroutines, taken from the same step system. Unpredictable outcomes (upstream answers, partial reads and writes, errors,
cancellation) are nondeterministic assignments in methods that stand for the outside (`Works`, `AskUpstream`, `Outside.Try`,
`Root.Remove`, the methods of `Clone.File` and `NbdServer.Socket`). These count or record what failed (`faults`, `failures`,
`asked`, `tried`, `hard`, `io`, `soft`), and the contracts say both halves: a success is right, and a failure has a cause
there. `HonestFetchCompletes`, `EnterTells`, `WakeTells`, `FinishTells` and `NetBoot.BootHeals` say the same of the step
systems.

Assumptions, all visible in contracts: `Header.Sane` (chunk tables of the right length, `TotalSize` below 2^63), fewer
than 2^32 chunks, and an end of the last chunk that fits an int64 (`Header.Fits`); the digest is a function under which no other buffer has an image chunk's digest (`Unforgeable`); on a
power loss every chunk not covered by a completed fsync may hold anything, and bitmap rename and remove are durable in
program order (a power loss may in addition cut the bitmap file short, which the decoder rejects); removing the bitmap
succeeds, though the code ignores its result (`CacheSafety.FailedRemoveIff` is what a failure costs); flushes of one cache
do not overlap; clocks are monotone and real-valued.

The network layer's guarantees rest on four conditions, and for each a theorem says what it is worth: two sandboxes of one
host differ in their short ids (`DistinctShorts`; `NetSafety.ClearSparesIffShortsDiffer`); an allocation starts from nothing
(`NetSafety.SlowReallocationIff`, `NetSafety.FastReallocationIff`); a reboot of the host finds no adopted slot on record
(`NetSafety.RebootKeepsInvIff`); and whoever gives up a slot leaves no namespace on it and no record of an adopted one
(`NetMachine.HandsOverClean`; `NetFaults.HandOverIff`, `NetFaults.FaultyReleaseIff`). The last holds in every run in which
payload reads, payload deletes and removals of namespaces work (`NetFaults.FaultlessRunsAreClean`); in the machine and in
`NatidPools.Pool` each of them, and every ledger write, may fail. What is only assumed: adding a namespace happens as a
whole or not at all and so does removing one, a store call that fails has changed nothing, a sandbox id whose payload row
outlived its sandbox row is not used again, and operations on one sandbox id do not overlap, except for the late removal of
`NetSafety.LateDestroyHarmsIff`.

## Where the code and its words differ

- `NewResolver` is documented to create its cache file but does not truncate an old one
  (`agent/internal/diskstream/resolver.go:61-81`). Reads over an old file are right exactly when the file already serves the
  absent chunks (`Resolvers.ReadsRightIff`).
- `ChunkRange` says the last chunk is cut so that callers never read past the end. For sizes within a chunk of 2^63 the
  int64 sum overflows and it is not: `Geometry.Header.RangesAreSpansIff`.
- A chunk size of 2^32 or more is cut to 32 bits in the header but not in the scan: `Elision.WideChunksIff`.
- `ReadAt` of the resolver zeroes the buffer past the end of the image but returns the shorter count
  (`agent/internal/diskstream/resolver.go:90-124`), and the NBD server turns a short count into EIO
  (`agent/internal/nbdstream/server_linux.go:549-551`), so over the whole stack a read past the end is refused, not zero-filled
  (`NbdImage.EveryReadIsTheImage`, `NbdImage.StraddlingReadRefused`). A client that keeps to the sectors the device was given
  never sends one, and cannot reach a last part of the image shorter than a sector either (`NbdImage.SectorsInside`).
- `ResolvePage` makes sure of one chunk only. It is right for every image exactly when the page lies in one chunk or touches
  no present one (`MemPages.PageRightIff`).
- `StalledFor` is described as a wedged request of age `d`; it fires at once for a request that follows an idle spell
  longer than `d`, and late for one that was accepted before the clock was seeded. `Watchdog.FalseAlarmWindow` gives both
  windows.
- An oversized NBD write is refused without draining its payload, which is then parsed as requests
  (`NbdWire.WriteBoundary`, `NbdWire.OversizedWriteIsParsed`).
- A release frees the slot whatever failed before it: a payload read that fails skips the removal
  (`agent/internal/network/natid.go:343-369`), a removal that fails is not noticed (`agent/internal/netns/netns.go:348-358`).
  "Never a FREED-but-poisoned one" (`agent/internal/network/natid.go:354-356`) is true of crashes, not of these: the freed /30
  keeps its namespace exactly when the sandbox was connected and one of the two failed (`NetFaults.FaultyReleaseIff`,
  `NetFaults.FailedReadPoisons`). A payload delete that fails is returned as an error, but the slot is freed too
  (`agent/internal/network/natid.go:371-381`); if the slot was adopted, a repeated release then removes the next owner's
  namespace (`NetFaults.FailedDeleteDestroysStranger`). Failed builds give their slot back the same way
  (`NetFaults.UndoPrebuildIff`, `NetFaults.UndoSlowIff`).
- When saving the payload of an adopted slot fails, the slot is freed before its namespace is destroyed, against the
  order the release path insists on (`NetSafety.FailedSavePoisons`, `NetSafety.PoisonCollides`), and the removal may come after the slot has
  a new owner (`NetFaults.LateRollbackDestroysStranger`).
- The slot ledger is meant to reset with the host while payload rows stay. A payload row of an adopted slot then outlives
  its slot: waking that sandbox releases by the old row first (`agent/internal/sandbox/manager.go:3200-3205`) and destroys the
  namespace of whoever has the slot now (`NetSafety.StaleRowDestroysStranger`, `NetSafety.RebootKeepsInvIff`).
- Teardown calls a second release of the same sandbox safe (`agent/internal/sandbox/teardown.go:19-25`). A release that read its
  row before the first one finished destroys what it read whenever it gets there; that is harmless exactly as long as the
  slot has not changed hands (`NetSafety.LateDestroyHarmsIff`, `NetSafety.SecondReleaseDestroysStranger`).
- Allocating twice without a release is meant to be re-entrant (`agent/internal/slotstore/slotstore.go:148-165`). On the slow
  path it is unless the sandbox has an adopted slot, on the fast path it never is (`NetSafety.SlowReallocationIff`,
  `NetSafety.FastReallocationIff`, `NetSafety.FastReallocationPoisons`).
- Rows above a reduced capacity "will simply never be claimed" (`agent/internal/slotstore/slotstore.go:112-114`). They are, as soon
  as the rows below are taken, and the carve then refuses them (`Addresses.HigherRowClaimedIff`).
- A caller may choose a sandbox id. One whose short form is p and eight hexadecimal digits names a pool slot's namespace
  (`NetNames.ClashIff`).
- "Live caches are never evicted" holds for a snapshot taken before the eviction goroutine starts; a cache opened later is
  not in it (`Evict.RemovableIff`).
- `carve` and `carveNATID` do not refuse every index past their base. `Addresses.CarveAcceptsIff` and
  `Addresses.CarveNatidAcceptsIff` say which they accept; the indices that get their own block are exactly those below the
  capacity, and a ledger of the pool's own size never hands out another (`Addresses.ClaimedIndexCarves`).

## Model

| member | source | states |
|---|---|---|
| `Geometry.Header.NumChunksIsCeiling` | agent/internal/diskstream/header.go:94-99 | uint64 rounding arithmetic gives the ceiling of size over chunk size, without wrapping, for every size below 2^63 |
| `Geometry.Header.TilesAt` | agent/internal/diskstream/header.go:103-113 | the chunks' spans tile [0, TotalSize): each non-empty, each starting where the previous stops, the last ending at the size |
| `Geometry.Header.RangesAreSpansIff` | agent/internal/diskstream/header.go:103-113 | the ranges ChunkRange computes in int64 arithmetic are the spans exactly when the end of the last chunk fits an int64 |
| `Geometry.Header.RangeOverflows` | agent/internal/diskstream/header.go:103-113 | otherwise the last range runs past the image, with the whole chunk size as its length |
| `Geometry.Header.OffsetInChunk` | agent/internal/diskstream/header.go:116-121 | every offset of the image lies in the span of the chunk ChunkForOffset names |
| `Geometry.Header.ChunkUnique` | agent/internal/diskstream/header.go:116-121 | and in no other chunk's span |
| `Geometry.Header.Disjoint` | agent/internal/diskstream/header.go:103-113 | spans of different chunks do not overlap |
| `Elision.BuildHeader` | agent/internal/diskstream/header.go:159-197 | for every chunk size: the flags and digests are those of the buffers read; for sizes below 2^32 the header describes the image, exactly the chunks with a non-zero byte present with their digests |
| `Elision.WideChunksIff` | agent/internal/diskstream/header.go:173-195 | for chunk sizes of 2^32 and more the header is right for all images of a length exactly when one chunk of the cut size holds them |
| `Elision.ScanChunks` | agent/internal/diskstream/header.go:176-195 | the read loop records the non-zero flag and digest of each buffer of the image, the short last one included |
| `Elision.AnyNonZero` | agent/internal/diskstream/header.go:200-207 | true exactly when some byte is not zero |
| `Elision.ElisionIsLossless` | agent/internal/diskstream/header.go:155-197 | present chunks as fetched, with zeros for the absent ones, concatenate to the image, cut at every chunk boundary |
| `Elision.HeaderDeterminesImage` | agent/internal/diskstream/header.go:136-141 | two images of one header whose digests are unforgeable are the same image |
| `HeaderCodec.DigestOffset` | agent/internal/diskstream/header.go:230-243 | the digest of a present chunk sits at 32 times its rank among the present chunks |
| `HeaderCodec.DecodeOfEncode` | agent/internal/diskstream/header.go:221-305 | on any prefix or extension of an encoding: shorter is rejected, the rest decodes to the header, trailing bytes ignored |
| `HeaderCodec.RoundTripIff` | agent/internal/diskstream/header.go:221-305 | decode(encode(h)) = h exactly for encodable headers (own magic version, fields that fit the truncated widths, zero digests for absent chunks) |
| `HeaderCodec.HeaderPrefixRejected` | agent/internal/diskstream/header.go:253-305 | every strict prefix of an encoding is rejected |
| `HeaderCodec.ReencodeIsCanonical` | agent/internal/diskstream/header.go:221-305 | whatever is accepted decodes the same again after re-encoding, and equals its re-encoding exactly when its bitmap padding is clear |
| `HeaderCodec.DecodedIsEncodable` | agent/internal/diskstream/header.go:253-305 | everything the decoder accepts is encodable |
| `HeaderCodec.Encode` | agent/internal/diskstream/header.go:221-244 | the loops that pack the bitmap and append the digests produce the specified encoding |
| `HeaderCodec.Decode` | agent/internal/diskstream/header.go:253-305 | the parsing loops accept, reject and produce exactly what the specification does, with the same error |
| `HeaderCodec.PackBitmap` | agent/internal/diskstream/sharedcache.go:351-367 | the or-a-bit loop produces the bitmap of the flags, padding clear |
| `HeaderCodec.ReadDigests` | agent/internal/diskstream/header.go:291-304 | the walking offset reads each present chunk's digest from its rank position |
| `HeaderCodec.BitmapRoundTrip` | agent/internal/diskstream/sharedcache.go:351-419 | the shared presence bitmap round-trips, every strict prefix is rejected |
| `HeaderCodec.BitmapAcceptedIff` | agent/internal/diskstream/sharedcache.go:381-419 | a bitmap file is accepted exactly if it begins with the 24 bytes this very header would write and holds all its bits |
| `HeaderCodec.ForeignBitmapRejected` | agent/internal/diskstream/sharedcache.go:381-419 | so the bitmap of an image of another size or chunk size is not |
| `HeaderCodec.BitmapPrefix` | agent/internal/diskstream/sharedcache.go:381-419 | bytes after an accepted bitmap do not change what it means |
| `HeaderCodec.EncodeShared` | agent/internal/diskstream/sharedcache.go:351-367 | the bitmap file writer produces the specified bytes |
| `HeaderCodec.ReadBitmap` | agent/internal/diskstream/sharedcache.go:381-419 | the bitmap file reader accepts and rejects exactly as specified, for any bytes |
| `CacheMachine.BuiltIsBaked` | agent/internal/diskstream/header.go:159-197 | a header built from an image satisfies the cache's standing assumptions |
| `CacheMachine.OpenKeepsInv` | agent/internal/diskstream/sharedcache.go:101-153 | opening on any files a crash left keeps the invariant, also when good files cannot be read and are reset |
| `CacheMachine.VerifyKeepsInv` | agent/internal/diskstream/sharedcache.go:241-268 | a buffer that passes the digest check is the image chunk, whatever upstream sent |
| `CacheMachine.WriteEffect` | agent/internal/diskstream/sharedcache.go:241-268 | one partial write extends its own chunk and leaves every other chunk of the file alone |
| `CacheMachine.FlushKeepsInv` | agent/internal/diskstream/sharedcache.go:287-311 | snapshot, fsync begin and end, failure and acknowledgement keep the invariant; what is acknowledged never exceeds dirty |
| `CacheMachine.RenameKeepsInv` | agent/internal/diskstream/sharedcache.go:287-311 | publishing the snapshot bitmap is safe: every chunk it marks was written before the fsync began |
| `CacheMachine.PowerLossKeepsInv` | agent/internal/diskstream/sharedcache.go:41-45 | a power loss that rewrites any unsynced chunk and may cut the bitmap short keeps the invariant |
| `CacheMachine.StepKeepsInv` | agent/internal/diskstream/sharedcache.go:101-311 | every step of every goroutine, and every crash, keeps the invariant |
| `CacheSafety.RunsKeepInv` | agent/internal/diskstream/sharedcache.go:101-311 | and so does every run |
| `CacheSafety.NeverServesTornData` | agent/internal/diskstream/sharedcache.go:41-45 | in every run a running cache serves only image bytes, and so does any cache reopened after one more power loss of any kind |
| `CacheSafety.CrashOnlyForgets` | agent/internal/diskstream/sharedcache.go:101-153 | the chunks valid after crash and reopen were all valid before, and nothing is dirty |
| `CacheSafety.HonestFetchCompletes` | agent/internal/diskstream/sharedcache.go:224-268 | whatever else is going on, a fetch whose upstream answers with the image's bytes registers, passes, is written and ends with the chunk valid and counted dirty |
| `CacheSafety.FailedRemoveIff` | agent/internal/diskstream/sharedcache.go:124-131 | if removing the bitmap fails during a reset, a later reopen serves the image exactly when every chunk the old bitmap marks is zero |
| `CacheSafety.DirtyCountsUnflushed` | agent/internal/diskstream/sharedcache.go:228-311 | outside a flush dirty is the number of valid chunks that are not durable, so dirty = 0 exactly when the durable bitmap is the valid set |
| `CacheSafety.ClampUnreachable` | agent/internal/diskstream/sharedcache.go:301-309 | the clamp of a negative dirty count is never reached |
| `CacheSafety.CleanClosePersists` | agent/internal/diskstream/sharedcache.go:320-337 | with fetches of other goroutines anywhere in between, a Close that completes persists the chunks that were valid when it began; dirty counts those that became valid since, and the two sets are the same exactly when there are none |
| `CacheSafety.ReopenAfterClose` | agent/internal/diskstream/sharedcache.go:101-153 | after such a Close a reopen starts from exactly those chunks, also after a power loss that leaves the bitmap whole; after one that cuts short the bitmap it wrote, from none |
| `CacheSafety.RangeServed` | agent/internal/diskstream/sharedcache.go:158-186 | a byte range all of whose chunks serve the image is the image's range |
| `SharedCaches.ForeignStep` | agent/internal/diskstream/sharedcache.go:197-239 | what a goroutine may rely on while others run: the valid set only grows and its own flight is untouched |
| `SharedCaches.SharedCache.Open` | agent/internal/diskstream/sharedcache.go:101-153 | keeps a readable bitmap over a full-size file exactly when the stat and the read succeed, and otherwise does the reset in the order that is safe to crash in |
| `SharedCaches.SharedCache.FetchChunk` | agent/internal/diskstream/sharedcache.go:241-268 | success means the chunk's verified bytes are all in the file; any failure leaves it invalid and has its cause in the upstream's answer or the write |
| `SharedCaches.SharedCache.EnsureChunk` | agent/internal/diskstream/sharedcache.go:197-239 | a valid chunk is done at once; success means the chunk is valid, whoever fetched it; a call that finds it neither valid nor in flight leaves no flight of it, and if it fails, the chunk invalid; a failure has its cause outside |
| `SharedCaches.SharedCache.ReadAt` | agent/internal/diskstream/sharedcache.go:158-186 | success returns exactly the image bytes, clamped to the size, count included, and leaves the rest of the buffer alone; inside the image a failure has its cause outside |
| `SharedCaches.SharedCache.Flush` | agent/internal/diskstream/sharedcache.go:287-311 | on success every chunk valid when it began is durable, with fetches running throughout; it fails only if the sync or the bitmap's writing did, and leaves the bitmap as it was |
| `ResolverMachine.NewResolverOk` | agent/internal/diskstream/resolver.go:61-81 | the protocol invariant holds at the start exactly for a cache file that serves every absent chunk |
| `Resolvers.ReadsRightIff` | agent/internal/diskstream/resolver.go:61-124 | in every run every read that gets to copying returns the image's bytes, exactly when the cache file served the absent chunks at the start |
| `ResolverMachine.FreshFileOk` | agent/internal/diskstream/resolver.go:61-81 | a fresh, all-zero file is one such |
| `ResolverMachine.EnterKeeps` | agent/internal/diskstream/resolver.go:136-160 | the first critical section of ensureChunk keeps the protocol invariant |
| `ResolverMachine.FinishKeeps` | agent/internal/diskstream/resolver.go:162-178 | the last critical section of a leader keeps it |
| `ResolverMachine.WakeKeeps` | agent/internal/diskstream/resolver.go:144-154 | so does a waiter's, and its cancellation |
| `ResolverMachine.RStepKeepsInv` | agent/internal/diskstream/resolver.go:136-214 | so does every step of any number of callers |
| `ResolverMachine.RRunsKeepInv` | agent/internal/diskstream/resolver.go:136-214 | over every run, with the cached set only growing |
| `ResolverMachine.CachedGrows` | agent/internal/diskstream/resolver.go:136-178 | no step un-caches a chunk |
| `ResolverMachine.SingleFlight` | agent/internal/diskstream/resolver.go:136-178 | in every interleaving each chunk has at most one fetch and one leader; a nil answer means cached; the leader of a closed channel has returned with its chunk cached or an error recorded |
| `ResolverMachine.NoLostWakeup` | agent/internal/diskstream/resolver.go:136-178 | a waiter's channel is closed, or belongs to a registered fetch whose leader can finish it; and it is told the leader's answer, nil or error |
| `ResolverMachine.WakeTells` | agent/internal/diskstream/resolver.go:149-159 | a woken waiter is told nil exactly when the chunk is cached by then, else the last recorded error |
| `ResolverMachine.EnterTells` | agent/internal/diskstream/resolver.go:142-163 | a caller finds, in this order: the chunk cached and returns nil, a registered fetch and waits on its leader's channel, or neither and leads |
| `ResolverMachine.FinishTells` | agent/internal/diskstream/resolver.go:167-177 | however the leader finishes, its fetch is unregistered and its channel closed; the chunk is cached exactly if it succeeded, else its error is on record |
| `ResolverMachine.HonestFetchCompletes` | agent/internal/diskstream/resolver.go:161-214 | whatever else is going on, a leader whose source answers with the image's bytes can verify, write and finish, and returns nil with the chunk cached |
| `CacheMachine.HonestPasses` | agent/internal/diskstream/resolver.go:180-214 | the image's own bytes pass the length and digest checks |
| `Resolvers.Resolver.constructor` | agent/internal/diskstream/resolver.go:61-81 | construction over a suitable file, with any source |
| `Resolvers.Resolver.FetchChunk` | agent/internal/diskstream/resolver.go:180-214 | verify, then write; over the shared cache the digest never mismatches; an error has its cause in the source's answer or the write |
| `Resolvers.Resolver.Lead` | agent/internal/diskstream/resolver.go:165-177 | nil exactly if the chunk is cached now; whatever the answer, the fetch is unregistered, its channel closed and an error on record |
| `Resolvers.Resolver.Await` | agent/internal/diskstream/resolver.go:149-159 | a waiter that was woken is told nil exactly when the chunk is cached, else the recorded error; one that was not is told it was cancelled |
| `Resolvers.Resolver.EnsureChunk` | agent/internal/diskstream/resolver.go:136-178 | nil means the chunk is cached, whoever fetched it; a cached chunk is nil at once; an error has its cause outside; a call that finds the chunk neither cached nor in flight leaves no flight of it, and if it fails, the chunk uncached and its error on record |
| `Resolvers.Resolver.ReadAt` | agent/internal/diskstream/resolver.go:90-124 | end to end: a successful read is the image's bytes and zeros past its end, over a lying upstream or over the shared cache; inside the image a failure has its cause outside |
| `Retry.StepDecreases` | agent/internal/diskstream/sharedcache.go:197-239 | every critical section of ensureChunk's retry uses up some of a measure |
| `Retry.RunBound` | agent/internal/diskstream/sharedcache.go:197-239 | so a run is no longer than the measure, and once the chunk is valid nothing is fetched again |
| `Retry.Progress` | agent/internal/diskstream/sharedcache.go:197-239 | while a caller has not returned, some caller can move |
| `Retry.EveryCallerReturns` | agent/internal/diskstream/sharedcache.go:197-239 | k callers: at most k fetches, at most k(2k+2) critical sections, every caller returns, nil only with the chunk valid |
| `Retry.FirstSuccessIsOnly` | agent/internal/diskstream/sharedcache.go:197-239 | exactly one fetch in all if the first succeeds |
| `RetryOnCache.LeadIsEnter` | agent/internal/diskstream/sharedcache.go:197-227 | registering a fetch in the cache is the caller's step to leading |
| `RetryOnCache.FinishIsFinish` | agent/internal/diskstream/sharedcache.go:229-238 | finishing it is the step of its one leader |
| `RetryOnCache.OthersLeaveIt` | agent/internal/diskstream/sharedcache.go:197-311 | nothing else the running cache does touches the chunk's callers |
| `RetryOnCache.RetryStepIsCacheStep` | agent/internal/diskstream/sharedcache.go:197-239 | every caller's step is one the cache can take; a caller leads exactly when the cache may register a fetch |
| `Governor.ReservePays` | agent/internal/diskstream/govsource.go:158-178 | a reservation advances the bucket's virtual clock by exactly its bytes, from where it was or from a full burst behind now, and is released as soon as that clock is reached and no sooner |
| `Governor.ReleasedBound` | agent/internal/diskstream/govsource.go:158-178 | what is released by T lies between the bucket's clock and the rate line, for every request sequence |
| `Governor.RateBound` | agent/internal/diskstream/govsource.go:155-178 | bytes released from their wait by T never exceed burst + rate(T - t0), oversized reads and carried debt included |
| `Governor.RateBoundTight` | agent/internal/diskstream/govsource.go:155-178 | the bound is reached |
| `Governor.CapBound` | agent/internal/diskstream/govsource.go:101-153 | with at most k readers of at most m bytes, lifetime plus in-flight bytes stay within hardCap + (k-1)m |
| `Governor.SequentialStaysUnderCap` | agent/internal/diskstream/govsource.go:101-153 | sequential readers never pass the cap |
| `Governor.CapBoundTight` | agent/internal/diskstream/govsource.go:101-153 | for every cap of at least one read the bound is reached, by a run that keeps to k readers of m bytes: in flight, and in the bytes charged |
| `GovSources.GovSource.ReserveLocked` | agent/internal/diskstream/govsource.go:158-178 | the fields after a reservation are the specified bucket's, and the wait its debt over the rate |
| `GovSources.GovSource.Begin` | agent/internal/diskstream/govsource.go:101-135 | refuses exactly when the cap would be passed, leaves the bucket alone then, otherwise reserves the bytes; the wait it returns is the one after which the reservation counts as released; the soft cap latches |
| `GovSources.GovSource.End` | agent/internal/diskstream/govsource.go:136-153 | charges a fetch that succeeded, by what was read, and nothing else |
| `GovSources.GovSource.ReleasedSoFar` | agent/internal/diskstream/govsource.go:155-178 | the rate bound for the reservations an object has really made |
| `GovSources.ServeReads` | agent/internal/diskstream/govsource.go:101-153 | over a run of readers against one governor, the waits really returned keep the bytes released within burst + rate(T - t0) |
| `WarmUp.CapCovers` | agent/internal/nbdstream/origin_linux.go:100-105 | a multiplier of at least one gives no cap or one that covers the working set, the product rounded down |
| `WarmUp.WeightWithinWorkingSet` | agent/internal/nbdstream/origin_linux.go:100-105 | present chunks' real lengths, short last one included, fit the working set |
| `WarmUp.StackStepKeeps` | agent/internal/nbdstream/origin_linux.go:97-136 | one step of cache and governor together, with short answers, wrong digests and failed local writes: what is charged is the chunks valid or in flight, each once, and what came to nothing |
| `WarmUp.StackIsMeter` | agent/internal/diskstream/govsource.go:101-153 | the stack's checks and charges are the governor's own for a read of the whole chunk |
| `WarmUp.WarmUpBound` | agent/internal/nbdstream/origin_linux.go:97-136 | over one cache lifetime the bytes charged are at most the present chunks' plus those that came to nothing, and a read is refused only if these together are more than the cap |
| `WarmUp.HonestWarmUpNeverCapped` | agent/internal/nbdstream/origin_linux.go:97-136 | so with a multiplier of at least one no read is ever refused as long as nothing that was charged came to nothing |
| `Evict.EvictSharedLRU` | agent/internal/diskstream/sharedcache.go:501-550 | oldest first; every removal tried was needed at that moment; stops when the rest fits or no candidate is left; failing removals allowed; only directories named disk-... and not in the snapshot go |
| `Evict.Survey` | agent/internal/diskstream/sharedcache.go:510-539 | the total counts every directory named disk-..., the candidates are exactly those that are not open |
| `Evict.HeldCounts` | agent/internal/diskstream/sharedcache.go:513-526 | an entry adds its bytes to the total exactly if it is a directory named disk-... |
| `Evict.RemoveUntilFits` | agent/internal/diskstream/sharedcache.go:543-549 | the running total is at every step the bytes really left, and the removals are tried and counted as they went |
| `Evict.LiveAndForeignStay` | agent/internal/diskstream/sharedcache.go:511-529 | nothing that is not a directory named disk-... and nothing in the live set is ever removed |
| `Evict.OldestGoFirst` | agent/internal/diskstream/sharedcache.go:543-549 | nothing is removed before every strictly older candidate was tried |
| `Evict.WithoutDistinct` | agent/internal/diskstream/sharedcache.go:546-548 | removing a cache directory lowers the bytes held by exactly its own |
| `Evict.RemovableIff` | agent/internal/diskstream/sharedcache.go:470-477 | some eviction removes an entry exactly when it is a directory named disk-... and its name is not in the snapshot of open caches |
| `MemPages.OneChunkInside` | agent/internal/memstream/resolver.go:96-97 | a page lies in one chunk exactly when it ends by the end of its first byte's chunk |
| `MemPages.PageIsImage` | agent/internal/memstream/resolver.go:88-115 | then the page is the image's, over any old contents of the cache file |
| `MemPages.StraddlingPageFails` | agent/internal/memstream/resolver.go:88-115 | across a boundary after a present chunk, some image and sound cache give a wrong page |
| `MemPages.AbsentPageFails` | agent/internal/memstream/resolver.go:88-115 | and from an absent chunk into a present one, zeros are served over its bytes |
| `MemPages.PageRightIff` | agent/internal/memstream/resolver.go:88-115 | the page is right for every image and every sound cache exactly when it lies in one chunk or touches no present chunk |
| `MemPages.AlignedPageIsOneChunk` | agent/internal/memstream/resolver.go:84-97 | aligned pages whose size divides the chunk size always lie in one chunk |
| `MemPages.Resolver.ResolvePage` | agent/internal/memstream/resolver.go:88-115 | success fills exactly the bytes up to the image's end, with the image's bytes for a one-chunk page, from a stale file too; in range a failure has its cause outside |
| `MemPages.Resolver.EnsureChunk` | agent/internal/memstream/resolver.go:126-160 | nil exactly if the chunk is the image's; a cached one is nil at once, and a failure has its cause outside |
| `MemPages.Resolver.FetchChunk` | agent/internal/memstream/resolver.go:162-180 | an error or short read trusts nothing and is the only reason to fail; success has written the whole chunk |
| `Addresses.SizeFacts` | agent/internal/network/pool.go:126-130 | the capacity is the number of /30 blocks of the base |
| `Addresses.CarveInside` | agent/internal/network/pool.go:228-240 | below the capacity the /30 lies inside the base, no uint32 wraps, host and guest are its first two addresses |
| `Addresses.CarveAcceptsIff` | agent/internal/network/pool.go:228-240 | which of all uint32 indices are accepted: those below the capacity modulo 2^30, and 2^30 - 1 modulo 2^30 |
| `Addresses.CarveOwnBlockIff` | agent/internal/network/pool.go:228-240 | an index gets its own block inside the base exactly when it is below the capacity |
| `Addresses.ClaimedIndexCarves` | agent/internal/network/pool.go:103-107 | a claimed index is accepted exactly when it is below the capacity, and on a ledger of the pool's own size always |
| `Addresses.HigherRowClaimedIff` | agent/internal/slotstore/slotstore.go:112-146 | after a capacity reduction a claim gets a refused index exactly when a row is free and all rows below the capacity are taken |
| `Addresses.SlotsDisjoint` | agent/internal/network/pool.go:228-240 | different indices have disjoint blocks and distinct host and guest addresses |
| `Addresses.CarveNatidInside` | agent/internal/network/natid.go:86-97 | the 16384 blocks of the NATID base, and the first index past them refused |
| `Addresses.CarveNatidAcceptsIff` | agent/internal/network/natid.go:86-97 | which of all uint32 indices are accepted |
| `Addresses.CarveNatidOwnBlockIff` | agent/internal/network/natid.go:86-97 | an index gets its own block inside the base exactly when it is below 16384 |
| `Addresses.NatidSlotsDisjoint` | agent/internal/network/natid.go:86-97 | and they are disjoint |
| `Addresses.MacIsLowBytes` | agent/internal/network/pool.go:248-251 | two guests share a MAC exactly when the low 24 bits of their addresses agree |
| `Addresses.MacsDistinctIff` | agent/internal/network/pool.go:248-251 | all guests of a pool have distinct MACs exactly when the base is /8 or smaller |
| `SlotStores.SlotStore.Claim` | agent/internal/slotstore/slotstore.go:152-201 | the slot already held, else the lowest free one, else none exactly if all are owned by others; single ownership kept |
| `SlotStores.SlotStore.ClaimPrebuilt` | agent/internal/slotstore/slotstore.go:216-249 | the lowest free slot under its own sentinel |
| `SlotStores.SlotStore.Reassign` | agent/internal/slotstore/slotstore.go:278-294 | the sentinel's slot changes hands in one step or not at all; single ownership survives exactly when the sandbox had no slot |
| `SlotStores.SlotStore.Free` | agent/internal/slotstore/slotstore.go:301-316 | frees what the owner held and says whether it did |
| `SlotStores.SlotStore.Reclaim` | agent/internal/slotstore/slotstore.go:337-378 | the scan frees every row whose owner is not a live sandbox, sentinels included, and no other, and counts them |
| `SlotStores.ClaimKeepsSingle` | agent/internal/slotstore/slotstore.go:152-201 | a claim returns a free slot or the caller's own and keeps ownership single |
| `SlotStores.ReassignSingleIff` | agent/internal/slotstore/slotstore.go:278-294 | adoption keeps ownership single exactly when the sandbox had no slot before |
| `NetSteps.LedgerKept` | agent/internal/network/natid.go:104-381 | every step keeps ownership single, namespaces on real slots, and pool entries on their own sentinel |
| `NetSteps.PayloadKept` | agent/internal/network/natid.go:328-381 | every step keeps: a payload row in use names a namespace of its own sandbox's slot, so a release destroys nobody else's; a host reboot and a free only under the conditions of `NetMachine.Careful` |
| `NetSteps.ProcsKept` | agent/internal/network/natid.go:186-381 | every step keeps what each half-done allocate or release may assume, among them releases whose payload read, removal or payload delete failed |
| `NetSteps.PhaseKept` | agent/cmd/agent/main.go:131-182 | every step keeps what each stage of boot has established, and cleanliness after a complete sweep; boots whose listings or removals fail are included, slots are handed over clean |
| `NetSafety.StepKeepsInv` | agent/internal/network/natid.go:104-466 | every careful step of allocation, release, prewarming, boot, crash and host reboot keeps the invariant, failing store calls and removals included; of these only the hand-over of a slot is conditional |
| `NetSafety.RunsKeepInv` | agent/internal/network/natid.go:104-466 | and so does every run of such steps from a new host |
| `NetSafety.NoPoisonedSlot` | agent/internal/network/natid.go:421-432 | in careful runs, after a boot with a complete sweep no free index has a namespace and no /30 has two, whatever crashed where; no sandbox ever owns two slots |
| `NetSafety.AdoptionNeverRefused` | agent/internal/network/natid.go:199-204 | a slot taken from the free list is still under its sentinel with its namespace up, so Reassign succeeds |
| `NetSafety.AllocationConnects` | agent/internal/network/natid.go:186-326 | both allocation paths end with a payload naming an existing namespace on a slot the sandbox owns |
| `NetSafety.HeldStaysConnected` | agent/internal/network/natid.go:328-451 | a connected sandbox with a row keeps its namespace and /30 through any run of other events, agent crashes and boots included, complete or not, until its own release, its row's deletion or a host reboot |
| `NetSafety.SweepSparesLive` | agent/internal/network/natid.go:433-451 | the sweep names only ns-* namespaces and none of a sandbox with a row |
| `NetBoot.BootHeals` | agent/cmd/agent/main.go:131-182 | a boot whose calls work gets through whatever a crash left: the ledger then holds exactly the slots of sandboxes with a row, the agent's namespaces are exactly those such a sandbox has on record, no other was touched, and the pool is in order |
| `NetSafety.FailedSavePoisons` | agent/internal/network/natid.go:223-230 | the rollback of a failed save always passes through a free index with its namespace up; a crash there is healed by the next boot |
| `NetSafety.PoisonCollides` | agent/internal/network/natid.go:223-230 | a sandbox that claims the index in that window shares the /30 with the old namespace |
| `NetSafety.ClearSparesIffShortsDiffer` | agent/internal/network/natid.go:267-293 | building b's namespace spares a's exactly when their short ids differ |
| `NetSafety.ShortHexCollides` | agent/internal/network/natid.go:383-389 | two ids share a short id exactly when their first ten characters that are not dashes agree |
| `NetSafety.UuidsCollideIff` | agent/internal/sandbox/manager.go:1211-1214 | two UUIDs do exactly when their first eleven characters agree |
| `NetSafety.TwoUuidsCollide` | agent/internal/sandbox/manager.go:1211-1214 | two such UUIDs |
| `NetSafety.SlowReallocationIff` | agent/internal/network/natid.go:259-326 | a slow-path allocation by any sandbox keeps ownership single, and makes its /30 ambiguous exactly when the sandbox still has an adopted namespace on it |
| `NetSafety.FastReallocationIff` | agent/internal/network/natid.go:192-248 | a fast-path allocation keeps ownership single exactly when the sandbox owns no slot |
| `NetSafety.FastReallocationPoisons` | agent/internal/network/natid.go:192-248 | allocating fast while connected, then releasing, leaves the old slot free with its namespace up |
| `NetSafety.RebootKeepsInvIff` | agent/internal/slotstore/slotstore.go:16-24 | a host reboot keeps the invariant exactly when no payload row in use is of an adopted slot |
| `NetSafety.StaleRowDestroysStranger` | agent/internal/sandbox/manager.go:3200-3205 | the run that shows it: reboot, boot, prebuild, another sandbox adopts the slot, the old owner's release destroys its namespace |
| `NetSafety.LateDestroyHarmsIff` | agent/internal/sandbox/teardown.go:19-25 | with any other operations under way, a second release that read its row earlier, or a late rollback, harms another sandbox or a pool slot exactly when the slot it has in mind has changed hands |
| `NetSafety.SecondReleaseDestroysStranger` | agent/internal/sandbox/teardown.go:19-25 | the run that shows it: both releases read, the first ends, the slot is adopted again, the second destroys |
| `NetFaults.FaultlessRunsAreClean` | agent/internal/network/natid.go:328-381 | in every run of careful callers in which payload reads, payload deletes and removals work, whatever crashes and whatever ledger writes fail, nothing is poisoned and no /30 is shared |
| `NetFaults.FaultlessIsCareful` | agent/internal/network/natid.go:328-381 | in such a run every slot is handed over clean |
| `NetFaults.HandOverIff` | agent/internal/network/natid.go:371-381 | with any other operations under way, giving up a slot keeps the invariant exactly when no namespace is left on it and no record of an adopted slot survives it |
| `NetFaults.FaultyReleaseIff` | agent/internal/network/natid.go:343-381 | a release in which things fail leaves its /30 free with a namespace exactly when the sandbox was connected and the read or the removal failed; the invariant is lost exactly then, or when the record of an adopted slot was not deleted |
| `NetFaults.UndoPrebuildIff` | agent/internal/network/natid.go:139-143 | a failed prebuild poisons the slot it gives back exactly when its namespace is up and could not be removed |
| `NetFaults.UndoSlowIff` | agent/internal/network/natid.go:290-325 | so does a failed slow build; if the ledger fails too, the slot stays owned but the namespace is out of sight |
| `NetFaults.RollbackIff` | agent/internal/network/natid.go:223-230 | the uninterrupted rollback ends in order exactly when the removal worked, and poisons exactly when only the ledger's half did |
| `NetFaults.BeforeRebootIsReached` | agent/internal/network/natid.go:104-248 | the host from which the runs below start comes about on a new host: a boot, two sandboxes, a prebuild, an adoption |
| `NetFaults.FailedReadPoisons` | agent/internal/network/natid.go:343-369 | the run that shows it: one failed payload read, then another sandbox builds on the freed slot and two namespaces share its /30 |
| `NetFaults.FailedDeleteDestroysStranger` | agent/internal/network/natid.go:371-381 | one failed payload delete, the slot is adopted again, and the repeated release destroys the new owner's namespace |
| `NetFaults.LateRollbackDestroysStranger` | agent/internal/network/natid.go:223-230 | the rollback frees, the slot is prebuilt and adopted, and only then does the rollback destroy |
| `NatidPools.ForeignStep` | agent/internal/network/natid.go:186-381 | what a goroutine may rely on between two operations: its sandbox's place, payload and emptiness, and the slot it is building, are left alone |
| `NatidPools.Pool.PrebuildNATID` | agent/internal/network/natid.go:104-162 | success parks a slot under its own sentinel with its namespace up; it fails only if a call did or all slots are owned; a failed build gives the slot back, or leaves it to its sentinel if the ledger fails; if the namespace could not be removed, exactly then the free slot is poisoned |
| `NatidPools.Pool.PopSlot` | agent/internal/network/natid.go:192-198 | some parked slot, and none only if nothing is parked |
| `NatidPools.Pool.AdoptSlot` | agent/internal/network/natid.go:199-204 | Reassign is not refused, whatever ran since the slot was popped; only if the ledger fails does the sandbox go on with nothing, the slot staying with its sentinel |
| `NatidPools.Pool.RollBack` | agent/internal/network/natid.go:223-230 | the two steps of the rollback, uninterrupted, either of which may fail: the invariant is whole exactly when the removal worked, the freed slot is poisoned if only it failed |
| `NatidPools.Pool.AllocateNATID` | agent/internal/network/natid.go:186-326 | a sandbox that holds nothing ends connected to an existing namespace on a slot it owns, with everybody else running in between, unless a call failed or every slot is owned; then it has no payload row and holds nothing unless the ledger failed to take the slot back, and a namespace that could not be removed is left unaccounted for |
| `NatidPools.Pool.BuildSlow` | agent/internal/network/natid.go:259-326 | the slow path; both failures destroy before they release, and a failed removal leaves the namespace on the freed slot |
| `NatidPools.Pool.DestroyOwn` | agent/internal/network/natid.go:349-369 | if the payload row was read and names a namespace, its removal is tried, and if that works it is gone while the slot is still owned; otherwise the release goes on with it standing |
| `NatidPools.Pool.ReleaseNATID` | agent/internal/network/natid.go:328-381 | the calls it makes and their order: read, removal if there is one to make, delete, free; how they went decides: with all of them the sandbox holds nothing and may allocate again; the invariant is whole exactly when no namespace is left behind on a slot that was freed or whose record is gone, and no record of an adopted slot outlives its freeing; a namespace left on the freed slot poisons it |
| `NetNames.HexDigitsInjective` | agent/internal/network/natid.go:52 | the zero-padded hexadecimal of an index determines it |
| `NetNames.HexDigitsOnto` | agent/internal/network/natid.go:52 | every string of hexadecimal digits is the rendering of some index |
| `NetNames.ClashIff` | agent/internal/network/natid.go:383-389 | a sandbox's namespace has the name of some pool slot's exactly when its short id is p and eight hexadecimal digits |
| `NetNames.RenderFaithful` | agent/internal/network/natid.go:52 | namespace names are distinct strings for distinct owners, short ids that read like a pool slot's excepted, and the prefix tells the agent's from the rest |
| `NetNames.LiveNetnsNames` | agent/internal/network/natid.go:400-418 | the keep-set is complete and exact, or one read failed and there is none |
| `NetNames.OrphanNetnsToSweep` | agent/internal/network/natid.go:457-466 | the loop filters the list in order |
| `NetNames.OrphansAre` | agent/internal/network/natid.go:457-466 | to exactly the ns-* names that are not kept |
| `NetNames.SweepListIsTodo` | agent/internal/network/natid.go:433-451 | which are exactly the names the machine's sweep goes through |
| `NbdWire.FromBEofBE` | agent/internal/nbdstream/server_linux.go:449-457 | big-endian fields read back as written |
| `NbdWire.ParseOfEncode` | agent/internal/nbdstream/server_linux.go:449-457 | a request header read back is the request, flags masked off the type |
| `NbdWire.ParsesIff` | agent/internal/nbdstream/server_linux.go:447-452 | 28 bytes are a request exactly if they begin with the magic number |
| `NbdWire.ServeStream` | agent/internal/nbdstream/server_linux.go:434-526 | every request of a well-formed stream is parsed at its true boundary, and what follows is served afterwards |
| `NbdWire.ReplyIs` | agent/internal/nbdstream/server_linux.go:480-523 | the k-th reply carries the k-th request's handle; a read that fits the buffer and whose own backend call gave enough bytes gets error 0 and exactly those bytes, any other read an I/O error; flush and trim succeed, the rest is not permitted |
| `NbdWire.OneReplyEach` | agent/internal/nbdstream/server_linux.go:434-526 | each request gets exactly one reply, in order, its own, with the code and payload the protocol asks for |
| `NbdWire.DiscEnds` | agent/internal/nbdstream/server_linux.go:460-464 | a disconnect gets no reply and nothing after it is looked at |
| `NbdWire.GarbageEnds` | agent/internal/nbdstream/server_linux.go:440-452 | bytes that are no request end the conversation: what came before was served, nothing after is looked at |
| `NbdWire.ClientReadsItsReplies` | agent/internal/nbdstream/server_linux.go:555-567 | round trip, cut off anywhere: a client that knows its requests reads the reply bytes back into exactly those replies, as many as are complete |
| `NbdWire.WriteBoundary` | agent/internal/nbdstream/server_linux.go:503-510 | after a write the next request is looked for behind the payload exactly when the payload fits the scratch buffer |
| `NbdWire.OversizedWriteIsParsed` | agent/internal/nbdstream/server_linux.go:503-510 | a request inside an oversized payload gets a reply of its own |
| `NbdServer.ReadFull` | agent/internal/nbdstream/server_linux.go:646-661 | all the bytes in order, or the stream ended or broke, under partial reads and interrupts |
| `NbdServer.WriteFull` | agent/internal/nbdstream/server_linux.go:663-675 | all the bytes in order, or a prefix and a broken socket |
| `NbdServer.Server.ServeRead` | agent/internal/nbdstream/server_linux.go:530-553 | good exactly when the backend filled the buffer, with its bytes in it; over a device only inside the image, with the image's bytes, and there it fails only if the outside failed the device |
| `NbdServer.Server.SendReply` | agent/internal/nbdstream/server_linux.go:555-567 | header and payload in full, or a prefix of them and a broken socket |
| `NbdServer.Server.Answer` | agent/internal/nbdstream/server_linux.go:480-524 | one accepted request: one reply, pending back down, the clock stamped once, on every branch |
| `NbdServer.Server.Serve` | agent/internal/nbdstream/server_linux.go:434-526 | the loop sends exactly the conversation's replies, or a prefix if the socket breaks; nothing is pending between requests; the backend is asked for exactly the reads, or the first of them; over a device every answer is honest, and if the outside never failed it every read inside the image was answered |
| `NbdServer.Backend.ReadAt` | agent/internal/nbdstream/server_linux.go:82-88 | one answer per call; a device's resolver answers with the image's bytes, as many as there are, or fails, inside the image only if the outside failed it |
| `NbdImage.EveryReadIsTheImage` | agent/internal/nbdstream/server_linux.go:434-553 | over a device the conversation's reply to every read of a well-formed stream is the image's bytes at its own offset, or an I/O error, exactly if the answer to its own call is missing, failed or short |
| `NbdImage.ServeDevice` | agent/internal/nbdstream/server_linux.go:434-553 | end to end, cut off or not: every reply a client can make out of what the loop sent is its request's, and for a read the image's bytes at its own offset or an I/O error; unless the socket broke there is one for every request, and unless the outside failed the device every read inside the image got its bytes |
| `NbdImage.AskedAt` | agent/internal/nbdstream/server_linux.go:480-505 | the backend call recorded for the k-th request is for that request's offset and length |
| `Watchdog.WatchIs` | agent/internal/nbdstream/server_linux.go:465-476 | pending says whether a request is unanswered, at most one is, and the clock is the latest answer or seed of the history |
| `Watchdog.StalledMeans` | agent/internal/nbdstream/server_linux.go:614-626 | stalled exactly when a request is unanswered, the clock was stamped, and no answer and no seed came within d |
| `Watchdog.FalseAlarmWindow` | agent/internal/nbdstream/server_linux.go:614-626 | over the history's latest stamp and the open request's acceptance: the exact windows in which a younger request is reported, and in which an older one is not |
| `Watchdog.LateOnlyBeforeSeed` | agent/internal/nbdstream/server_linux.go:318-333 | if the clock was seeded before the open request was accepted, every wait longer than d is reported |
| `Watchdog.EarlyRequestReportedLate` | agent/internal/nbdstream/server_linux.go:318-333 | a request accepted before the seed is reported only d after it |
| `Watchdog.FreshRequestReported` | agent/internal/nbdstream/server_linux.go:604-613 | a request accepted after an idle spell of more than d is reported at its acceptance |
| `Clone.File.CopyRange` | agent/internal/sandbox/clone.go:157 | copy_file_range copies some prefix, or fails and may have scribbled in the range |
| `Clone.CopyRegion` | agent/internal/sandbox/clone.go:158-183 | the userspace fallback copies the rest of a region whatever the failed kernel copy left there |
| `Clone.CopyData` | agent/internal/sandbox/clone.go:155-187 | a region is copied by any mix of partial kernel copies and one fallback |
| `Clone.SparseCopy` | agent/internal/sandbox/clone.go:130-191 | terminates; success means equal bytes and length with no source hole allocated; abandoned only if a seek, the truncation, a read or a write failed |
| `Clone.FullCopy` | agent/internal/sandbox/clone.go:58-75 | overwrites whatever an abandoned sparse copy left; success means equality; fails only if a read or a write did |
| `Clone.CloneFile` | agent/internal/sandbox/clone.go:28-77 | success means an identical file, on every path, and one with no hole filled in unless the full copy was needed; it fails only if a file could not be opened, rewound or closed, or the full copy's own reads or writes failed |

## Left out

- `SharedCaches.SharedCache.EnsureChunk`: `patience` bounds its retries, and running out of it counts as a cancelled context; that the unbounded retry ends is proved in `Retry`.
- `SharedCaches.SharedCache.Flush`: requires that no other flush is in progress; the source starts flushes from one loop and from `Close`, and overlapping manual calls are outside the invariant.
- `NetSafety.RunsKeepInv`: the runs are those of `NetMachine.Careful` steps, and a sandbox id whose payload row outlived its sandbox row is not used again; what happens at a step that is not careful is `NetFaults.HandOverIff`, `NetSafety.RebootKeepsInvIff`, `NetSafety.SlowReallocationIff` and `NetSafety.FastReallocationIff`.
- `NatidPools.Pool.AllocateNATID`: nobody else runs between the two steps of the rollback after a failed save (`NetSafety.FailedSavePoisons` and `NetSafety.PoisonCollides` are about that window), which parked slot is popped is unspecified, and indices are taken to be below the capacity, where carving cannot fail.
- `NatidPools.Pool.ReleaseNATID`: no other operation on the same sandbox overlaps it; what an overlapping release can do is `NetSafety.LateDestroyHarmsIff`.
- `MemPages.Resolver.EnsureChunk`: another goroutine's flight is one nondeterministic wait; the single-flight protocol itself, which is the same code as the disk resolver's, is proved in `ResolverMachine`.
- `Clone.CloneFile`: the source file does not change during the copy; were it truncated meanwhile, the fallback's end-of-file branch would report success.
- `NbdServer.Server.Serve`: a read error ends the incoming stream; the counters of reads, bytes, errors and breaker trips are not modelled, nor the per-read time budget beyond "the backend may fail"; on a socket that broke, the replies to the last requests may be missing, so that every read inside the image gets its bytes is stated for a socket that did not.
- `Evict.EvictSharedLRU`: a failed removal is taken to remove nothing; modification times and sizes are those of the walk.
- `Governor.RateBound`: waits are exact reals; the source truncates them to nanoseconds.
- An fsync that fails after the kernel has dropped dirty pages, and a file system that reorders rename and remove.
- The counters behind `Stats` (hits, fills, reads, fetches, zero fills); `verifyErr` only in so far as it stays put over the shared cache.
- The registry of open caches (`AcquireSharedCache`), except for the eviction it starts.
- The legacy TAP path of `Pool.Allocate` and `Pool.Release`, beyond its addresses and the slot ledger.
- The kernel side of a namespace: `ip`, iptables, veth pairs and `ClearStaleHolders` itself; what is proved is that it has nobody to clear.
- `natidIdentityKey` with several ports, which iterates a map in random order; the pool here has one key.
- NBD device set-up, reclaim and teardown, and the device table of `allocDevice`.
- The prefetch list and its workers, memstream's own shared cache, header codec and eviction, and memory-image building.
- Object-store, HTTP and token clients, metrics, logging, timers and back-off.
