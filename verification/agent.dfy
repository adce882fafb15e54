/**
 One polling cycle of the agent with every provider query replaced by its
 result and the HTTP post left out: from the two snapshots carried over from
 the previous cycle and this cycle's readings, the report record and the two
 snapshots for the next cycle.
 */
module Agent {

  import opened UInt64
  import Disk
  import Connections
  import Network
  import Rates

  /** Used, free and total bytes of memory or swap. */
  datatype MemoryStat = MemoryStat(used: U64, free: U64, total: U64)

  /** The provider's readings for one cycle (the integer ones). */
  datatype Readings = Readings(
    mem: MemoryStat,
    swap: MemoryStat,
    procs: U64,
    partitions: seq<Disk.PartitionStat>,
    statuses: seq<string>,
    interfaces: seq<Network.NetInterface>,
    netstats: seq<Network.NicStat>)

  /** The report record of one cycle (its integer and string fields). */
  datatype Report = Report(
    clientId: string,
    connection: Connections.Connection,
    disk: seq<Disk.Partition>,
    memUsed: U64,
    memFree: U64,
    memTotal: U64,
    network: seq<Network.Interface>,
    processCount: U64,
    swapUsed: U64,
    swapFree: U64,
    swapTotal: U64)

  /** The state carried from one cycle to the next: the two snapshots. */
  datatype State = State(disk: Disk.Snapshot, nic: Network.Snapshot)

  /** Both snapshots start out empty when the process starts. */
  const Startup := State(map[], map[])

  /** One polling cycle. */
  function PostMetrics(clientId: string, s: State, rd: Readings, itv: U64): (r: (Report, State))
    requires itv > 0
    ensures r.0.clientId == clientId
    ensures r.0.memUsed == rd.mem.used && r.0.memFree == rd.mem.free && r.0.memTotal == rd.mem.total
    ensures r.0.swapUsed == rd.swap.used && r.0.swapFree == rd.swap.free && r.0.swapTotal == rd.swap.total
    ensures r.0.processCount == rd.procs
    ensures |r.0.disk| == |rd.partitions|
    ensures forall i :: 0 <= i < |rd.partitions| ==> Disk.Describes(r.0.disk[i], rd.partitions[i])
    ensures |rd.partitions| == 0 ==> r.1.disk == s.disk
    ensures forall k :: Connections.Count(r.0.connection, k) == multiset(rd.statuses)[Connections.StatusName(k)]
    ensures forall k :: 0 <= k < |r.0.network| ==> !Network.Ignored(r.0.network[k].name)
    ensures forall i :: 0 <= i < |rd.netstats| ==> rd.netstats[i].name in r.1.nic
  {
    var (disk, diskSnap) := Disk.DiskCycle(s.disk, rd.partitions, itv);
    Disk.DiskSnapshotAfterCycle(s.disk, rd.partitions, itv);
    Connections.TallyCounts(rd.statuses);
    var (network, nicSnap) := Network.NetCycle(s.nic, rd.interfaces, rd.netstats, itv);
    var report := Report(clientId, Connections.Tally(rd.statuses), disk,
                         rd.mem.used, rd.mem.free, rd.mem.total, network, rd.procs,
                         rd.swap.used, rd.swap.free, rd.swap.total);
    (report, State(diskSnap, nicSnap))
  }

  /** The first cycle after start-up reports 0 for every disk and network rate,
      whatever the provider reads. */
  lemma FirstCycleReportsNoRates(clientId: string, rd: Readings, itv: U64)
    requires itv > 0
    ensures var report := PostMetrics(clientId, Startup, rd, itv).0;
      && (forall i :: 0 <= i < |report.disk| ==> Disk.NoRates(report.disk[i]))
      && (forall k :: 0 <= k < |report.network| ==> Network.NoRates(report.network[k]))
  {
    var report := PostMetrics(clientId, Startup, rd, itv).0;
    forall i | 0 <= i < |report.disk|
      ensures Disk.NoRates(report.disk[i])
    {
      if i == 0 {
        Disk.FirstPartitionRates(map[], rd.partitions, itv);
      } else {
        Disk.LaterPartitionsHaveNoRates(map[], rd.partitions, itv, i);
      }
    }
    var current := Network.IOMap(rd.netstats);
    Network.InterfacesKeptInOrder(rd.interfaces, current, map[], itv);
  }

  /** Across two consecutive cycles the first partition's rates compare its
      counters with those its device was last given in the previous cycle. */
  lemma DiskRatesAcrossCycles(clientId: string, s: State, rd1: Readings, rd2: Readings, itv: U64, j: nat)
    requires itv > 0
    requires j < |rd1.partitions| && Disk.LatestIO(rd1.partitions, j)
    requires |rd2.partitions| > 0 && rd2.partitions[0].io.Some?
    requires rd2.partitions[0].device == rd1.partitions[j].device
    ensures var s2 := PostMetrics(clientId, s, rd1, itv).1;
      Disk.RatesBetween(PostMetrics(clientId, s2, rd2, itv).0.disk[0],
                        rd2.partitions[0].io.value, rd1.partitions[j].io.value, itv)
  {
    var s2 := PostMetrics(clientId, s, rd1, itv).1;
    Disk.DiskSnapshotAfterCycle(s.disk, rd1.partitions, itv);
    Disk.FirstPartitionRates(s2.disk, rd2.partitions, itv);
  }

  /** Across two consecutive cycles a kept interface's rates compare the
      counters of its last entry in each cycle's I/O list, wrapping around
      where a counter went backwards. */
  lemma NetworkRatesAcrossCycles(clientId: string, s: State, rd1: Readings, rd2: Readings, itv: U64, i1: nat, i2: nat, k: nat)
    requires itv > 0
    requires i1 < |rd1.netstats| && Network.LatestEntry(rd1.netstats, i1)
    requires i2 < |rd2.netstats| && Network.LatestEntry(rd2.netstats, i2)
    requires k < |rd2.interfaces| && !Network.Ignored(rd2.interfaces[k].name)
    requires rd2.interfaces[k].name == rd1.netstats[i1].name == rd2.netstats[i2].name
    ensures var s2 := PostMetrics(clientId, s, rd1, itv).1;
      var net := PostMetrics(clientId, s2, rd2, itv).0.network;
      exists m :: 0 <= m < |net| && net[m].name == rd2.interfaces[k].name
        && net[m].recvBps == Rates.WrappingRate(rd2.netstats[i2].io.bytesRecv, rd1.netstats[i1].io.bytesRecv, itv)
        && net[m].sentBps == Rates.WrappingRate(rd2.netstats[i2].io.bytesSent, rd1.netstats[i1].io.bytesSent, itv)
        && net[m].recvPps == Rates.WrappingRate(rd2.netstats[i2].io.packetsRecv, rd1.netstats[i1].io.packetsRecv, itv)
        && net[m].sentPps == Rates.WrappingRate(rd2.netstats[i2].io.packetsSent, rd1.netstats[i1].io.packetsSent, itv)
  {
    var s2 := PostMetrics(clientId, s, rd1, itv).1;
    Network.IOMapValues(rd1.netstats);
    Network.IOMapValues(rd2.netstats);
    var current := Network.IOMap(rd2.netstats);
    Network.InterfacesKeptInOrder(rd2.interfaces, current, s2.nic, itv);
    var idx := Network.KeptPositions(rd2.interfaces);
    var m :| 0 <= m < |idx| && idx[m] == k;
  }
}
