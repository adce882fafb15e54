# zhifou-agent: one metrics polling cycle, in Dafny

zhifou-agent is a host-metrics agent. Every `INTERVAL` seconds it samples
operating-system counters and posts a JSON report to a collector. This project
models one such cycle, the body of `postMetrics` in `main.go`. All provider
queries are replaced by their results, and the HTTP post is left out. What
remains is a pure function over integers, sequences, maps and strings:

    (disk snapshot, network snapshot, readings, interval) -> (report, disk snapshot', network snapshot')

It has four parts:

- **Disk block** (`Disk`). Each partition gets one record with its device, mount point,
  file-system type and usage. It also gets four per-second rates: read/write bytes
  and read/write operations. Each rate is computed against the disk snapshot
  from the previous cycle. A counter that went backwards gives a rate of 0, and
  each counter is judged on its own. Inside the partition loop the snapshot
  variable is reassigned to the map this cycle is filling (`main.go:186`).
  Go maps are references, so from the second partition on, the lookup of the
  "previous" counters reads this cycle's map. The device's counters were stored
  in that map just before the lookup. The model makes that reference explicit
  (`Disk.LastRef`). As a result, every partition after the first reports 0 for
  all four rates.
- **Connection tally** (`Connections`). The status string of each TCP
  connection is counted into one of eleven fields. Any status the switch does
  not know is ignored.
- **Network block** (`Network`). Loopback (`lo`) and virtual interfaces are
  skipped. Virtual interfaces are those whose names start with `veth`, `br-` or
  `docker`. Each kept interface gets one record with:
  - its hardware address;
  - the last of its addresses that has no colon;
  - its cumulative counters;
  - four rates against the previous network snapshot.
  These rates use plain uint64 subtraction with no guard. So when a counter went
  backwards the difference wraps around to a value near 2^64, and the rate is
  that difference divided by the interval. An interface with no entry in
  the I/O list counts as having zero counters.
- **Snapshot hand-over** (`Agent`). The disk snapshot for the next cycle is
  this cycle's map when there was at least one partition. With no partitions it
  is the previous snapshot. The network snapshot is this cycle's whole I/O map,
  including the entries of skipped interfaces.

`uint64` is modelled as `UInt64.U64`, the integers in `[0, 2^64)`. Subtraction
wraps explicitly (`UInt64.Sub`), and division is unsigned (`UInt64.Div`). The
polling interval is a parameter `itv` with `itv > 0`.

Three behaviours a reader might not expect are modelled as the code does them:

- The disk snapshot variable is reassigned inside the partition loop
  (`main.go:186`), not once after it. This zeroes the rates of every partition
  but the first.
- The network rates are not guarded (`main.go:246-249`). A counter that went
  backwards makes the uint64 difference wrap.
- The address loop has no `break` (`main.go:230-235`), so the last colon-free
  address is kept, not the first.

`scenarios.dfy` pins down each of these with a concrete cycle.

## Model

| member | source | states |
|---|---|---|
| UInt64.Sub | main.go:246-249 | uint64 subtraction: the plain difference when `a >= b`, and `2^64 - (b - a)` when `a < b` |
| UInt64.Div | main.go:173-182 | unsigned division by a positive interval: the quotient `r` satisfies `r*d <= a < r*d + d` and is no larger than `a` |
| Rates.GuardedRate | main.go:172-183 | a disk rate is `(cur - prev) / itv` when the counter did not go backwards, and 0 when it did |
| Rates.WrappingRate | main.go:245-250 | a network rate agrees with the guarded rate when the counter grew; when it went backwards it is `(2^64 - (prev - cur)) / itv` |
| Disk.RateRecord | main.go:171-184 | the four guarded updates: each rate follows its own counter's comparison, independently of the other three; identity and usage are copied from the partition |
| Disk.PartitionRecord | main.go:154-185 | a partition gets rates only when its I/O query yielded counters AND the map being read has the device; otherwise all four rates are 0 |
| Disk.Store | main.go:167-169 | storing one partition's counters: when its I/O query yielded counters the device maps to them, with none the map is unchanged, and every other device keeps its entry |
| Disk.StoredIO | main.go:151-169 | the map this cycle fills, one store per partition; its keys and values are stated by `Disk.StoredIOKeys` and `Disk.StoredIOValues` |
| Disk.LastMap | main.go:170-186 | the map the "previous counters" lookup reads: the previous cycle's map until the first reassignment, this cycle's map afterwards (the aliasing); its consequence is stated by `Disk.Step` |
| Disk.Step | main.go:153-188 | one partition iteration appends exactly one record describing the partition, keeps the earlier records, and leaves the snapshot variable pointing at this cycle's map; once it already points there, the new record has no rates, because the lookup finds the counters just stored |
| Disk.Scan | main.go:150-188 | the partition loop: one record per partition, in input order, describing that partition; this cycle's map is the stored counters; the snapshot variable still points at the previous cycle's map only when there were no partitions |
| Disk.DiskCycle | main.go:150-189 | the disk block yields exactly one record per partition, in order, each carrying that partition's device, mount point, type and usage |
| Disk.RecordOfIteration | main.go:153-188 | record `i` is the one appended by loop iteration `i`, computed from the loop state after the first `i` partitions |
| Disk.FirstPartitionRates | main.go:167-184 | the first partition is compared with the previous cycle's snapshot: guarded rates when it has counters and an entry there, all rates 0 when the query yielded nothing or the device is new |
| Disk.LaterPartitionsHaveNoRates | main.go:168-186 | every partition after the first reports 0 for all four rates, because its lookup reads this cycle's map where its own counters were just stored |
| Disk.StoredIOKeys | main.go:167-169 | this cycle's map holds exactly the devices whose I/O query yielded counters |
| Disk.StoredIOValues | main.go:167-169 | each device in this cycle's map has the counters stored last for it, so a later partition of the same device overwrites an earlier one |
| Disk.DiskSnapshotAfterCycle | main.go:151-186 | the next cycle's disk snapshot is the previous one when there were no partitions, and otherwise exactly this cycle's counters (last write wins per device), dropping devices not seen again |
| Connections.Bump | main.go:195-207 | one switch case: a recognised status adds one to exactly its own field, and any other string changes no field |
| Connections.BumpTotal | main.go:195-207 | a recognised status adds one to the sum of the fields, and an unrecognised one adds nothing |
| Connections.Tally | main.go:192-209 | the connection loop, one switch case per connection in order; what the fields then hold is stated by `Connections.TallyCounts` and `Connections.TallyTotal` |
| Connections.TallyCounts | main.go:192-209 | each field of the tally equals the number of connections whose status is that state's string |
| Connections.TallyTotal | main.go:192-209 | the fields of the tally add up to the number of connections with a recognised status, unrecognised ones being dropped |
| Connections.TallyBounded | main.go:78-90 | no field exceeds the number of connections, so the uint64 counters cannot overflow |
| Strings.ContainsOneChar | main.go:231 | the substring test for `":"` is membership of the character `':'` |
| Network.IOMap | main.go:213-217 | the I/O map built by overwriting in list order; its names and values are stated by `Network.IOMapKeys` and `Network.IOMapValues` |
| Network.IOMapKeys | main.go:213-217 | this cycle's I/O map has exactly the names in the provider's I/O list |
| Network.IOMapValues | main.go:213-217 | each name maps to the counters of its last entry in the list |
| Network.Ignored | main.go:220-223 | the skip test: the name is exactly `lo`, or starts with `veth`, `br-` or `docker`; concrete outcomes are stated by `Network.IgnoredExamples` |
| Network.PickAddr | main.go:230-235 | the chosen address is "" or one of the interface's addresses, and never contains a colon |
| Network.PickAddrIsLastColonFree | main.go:230-235 | the chosen address is the last one without a colon (not the first), or "" when every address has a colon |
| Network.InterfaceRecord | main.go:226-250 | name, MAC and chosen address copied; counters copied when the name is in this cycle's map, and 0 otherwise; each rate is the wrapping rate of the reported counter against the previous snapshot when it has the name, and 0 when it does not |
| Network.ScanInterfaces | main.go:218-252 | the interface loop never reports a loopback or virtual interface and yields at most one record per input interface |
| Network.KeptPositions | main.go:219-225 | the positions that survive the filter: increasing, each naming an interface that is neither loopback nor virtual, and including every such interface |
| Network.InterfacesKeptInOrder | main.go:218-252 | the report's interfaces are exactly the kept ones, in input order, one record each |
| Network.NetCycle | main.go:211-254 | the next cycle's network snapshot contains every name in the I/O list, skipped interfaces included, and no other name |
| Network.NetworkRateCases | main.go:237-250 | no previous entry gives rates of 0; with one, each of the four counters that grew gives `(cur - prev) / itv` and each that went backwards gives the wrapped difference `2^64 - (prev - cur)` over `itv` |
| Network.IgnoredExamples | main.go:220-223 | `lo`, `veth0`, `br-abc123` and `docker0` are skipped; `eth0`, `lo0` and `vet` are kept |
| Agent.PostMetrics | main.go:113-254 | one cycle: client id and memory, swap and process figures copied into the report; one disk record per partition, in order; each tally field counts its status; no skipped interface in the report; every I/O entry in the new network snapshot; disk snapshot kept when there are no partitions |
| Agent.FirstCycleReportsNoRates | main.go:24-25 | starting from the empty snapshots of a fresh process, every disk and network rate in the first report is 0, whatever the readings |
| Agent.DiskRatesAcrossCycles | main.go:167-186 | in two consecutive cycles, the first partition's rates compare its counters with the counters its device was last given in the previous cycle |
| Agent.NetworkRatesAcrossCycles | main.go:213-253 | in two consecutive cycles, a kept interface's rates are the wrapping rates between its last I/O entries of the two cycles |
| Scenarios.DiskRateExample | main.go:172-174 | read bytes going from 1,000,000 to 1,050,000 over 10 seconds give 5,000 bytes per second |
| Scenarios.SecondPartitionLosesItsRate | main.go:169-186 | two devices that both grew by 50,000 bytes in 10 seconds: the first reports 5,000, the second 0 |
| Scenarios.DiskCounterResetExample | main.go:172-174 | a disk counter that fell from 1,000 to 400 reports no rate |
| Scenarios.NetworkCounterWrapsExample | main.go:246 | received bytes falling from 100 to 40 in one second report `2^64 - 60` bytes per second |
| Scenarios.MissingCountersCountAsZero | main.go:237-249 | an interface missing from the I/O list but present in the previous snapshot reports 0 counters and a wrapped rate |
| Scenarios.LastColonFreeAddressExample | main.go:230-235 | of `10.0.0.1/8`, `fe80::1/64`, `192.168.1.5/24`, `::1/128` the address `192.168.1.5/24` is chosen |
| Scenarios.TallyExample | main.go:194-208 | three ESTABLISHED, two LISTEN and one unknown status, in any order, tally to established 3, listen 2, all else 0, total 5 |

## Left out

- Provider queries: CPU, load, memory, host, disk partitions, usage and I/O counters, TCP connections, interfaces and network I/O counters. They are foreign calls. Their results are the `Agent.Readings` inputs.
- Floating-point fields: CPU and per-core CPU, load averages, memory, swap and partition used-percent. They are rounded through string formatting and parsing, which is outside integer reasoning, so the report carries only the integer and string fields.
- JSON marshalling, the HTTP post and the check of the `"ok"` response. These are I/O through library code.
- `postHostInfo`, the `time.Tick` scheduler loop in `main`, and environment configuration. These are I/O, clock and environment. The interval is the parameter `itv`. `itv > 0` is a precondition because it holds at the only call site: `postMetrics` runs only on a tick of `time.Tick` (`main.go:303-304`), and for an interval of zero or less `time.Tick` returns no channel, so the loop never ticks.
- Logging: the usage-query error is logged at `main.go:159-162`. Logging output is not modelled.
- A failing usage query: the provider's result in that case is outside the code shown, so usage is modelled as always present.
- Several entries returned by the per-device I/O query. Each would be stored under the same device, and the last one would overwrite the others. The query result is modelled as at most one set of counters (`Option<DiskIO>`).
- Connections.Bump: tally fields are unbounded naturals rather than uint64, so an increment never wraps. `Connections.TallyBounded` shows no field exceeds the number of connections, so the source's uint64 fields cannot wrap for any list shorter than 2^64.
- Byte strings: Go strings are byte sequences, while the model uses `seq<char>`. Every pattern compared against (`lo`, `veth`, `br-`, `docker`, `:` and the eleven status names) is ASCII, and UTF-8 never uses an ASCII byte inside a multi-byte character, so equality, prefix and substring tests give the same answers.
- Connection records other than their status string. The tally reads only the status.
