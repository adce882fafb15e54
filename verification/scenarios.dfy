/**
 Concrete cycles that pin down the behaviour of the code as written, including
 where it departs from what a reader might expect: the second partition's rates
 are lost to the in-loop snapshot reassignment, a network counter that went
 backwards yields a wrapped-around rate, and the address chosen is the last
 colon-free one.
 */
module Scenarios {

  import opened Wrappers
  import opened UInt64
  import opened Disk
  import opened Connections
  import opened Network

  /** A partition of device `dev` whose I/O query yields `readBytes` bytes read
      and nothing else. */
  function ReadOnlyPartition(dev: string, readBytes: U64): PartitionStat
  {
    PartitionStat(dev, "/", "ext4", Usage(0, 0, 0), Some(DiskIO(readBytes, 0, 0, 0)))
  }

  /** Read bytes going from 1,000,000 to 1,050,000 over ten seconds give
      5,000 bytes per second. */
  lemma DiskRateExample()
    ensures var prev := map["sda1" := DiskIO(1000000, 0, 0, 0)];
      var rec := DiskCycle(prev, [ReadOnlyPartition("sda1", 1050000)], 10).0[0];
      rec.readBps == 5000 && rec.writeBps == 0 && rec.readIops == 0 && rec.writeIops == 0
  {
  }

  /** Two devices that both grew by 50,000 bytes: only the first partition
      reports a rate, the second reports 0 because its lookup reads this
      cycle's map. */
  lemma SecondPartitionLosesItsRate()
    ensures var prev := map["sda1" := DiskIO(1000000, 0, 0, 0), "sdb1" := DiskIO(1000000, 0, 0, 0)];
      var parts := [ReadOnlyPartition("sda1", 1050000), ReadOnlyPartition("sdb1", 1050000)];
      var recs := DiskCycle(prev, parts, 10).0;
      recs[0].readBps == 5000 && recs[1].readBps == 0
  {
  }

  /** A disk counter that went backwards (1,000 to 400) reports no rate. */
  lemma DiskCounterResetExample()
    ensures var prev := map["sda1" := DiskIO(1000, 0, 0, 0)];
      DiskCycle(prev, [ReadOnlyPartition("sda1", 400)], 1).0[0].readBps == 0
  {
  }

  /** A received-bytes counter that went from 100 back to 40 in one second
      reports 2^64 - 60 bytes per second. */
  lemma NetworkCounterWrapsExample()
    ensures var v := NetInterface("eth0", "00:11:22:33:44:55", []);
      var r := InterfaceRecord(v, map["eth0" := NicIO(0, 40, 0, 0)], map["eth0" := NicIO(0, 100, 0, 0)], 1);
      r.recvBytes == 40 && r.recvBps == TWO_64 - 60
  {
  }

  /** An interface that has vanished from the I/O list but was in the previous
      snapshot is reported with zero counters, and its rates wrap around. */
  lemma MissingCountersCountAsZero()
    ensures var v := NetInterface("eth1", "", []);
      var r := InterfaceRecord(v, map[], map["eth1" := NicIO(0, 10, 0, 0)], 1);
      r.recvBytes == 0 && r.recvBps == TWO_64 - 10
  {
  }

  /** With an IPv4 address, an IPv6 address, another IPv4 address and a second
      IPv6 address, the second IPv4 address is chosen. */
  lemma LastColonFreeAddressExample()
    ensures PickAddr(["10.0.0.1/8", "fe80::1/64", "192.168.1.5/24", "::1/128"]) == "192.168.1.5/24"
  {
    var addrs := ["10.0.0.1/8", "fe80::1/64", "192.168.1.5/24", "::1/128"];
    PickAddrIsLastColonFree(addrs);
    assert ':' in addrs[3];
    assert ':' !in addrs[2];
  }

  /** A tally whose fields count the statuses of the example mix. */
  lemma MixCounts(c: Connection, ms: multiset<string>, unknown: string)
    requires !Recognized(unknown)
    requires ms == multiset{"ESTABLISHED", "ESTABLISHED", "ESTABLISHED", "LISTEN", "LISTEN", unknown}
    requires forall k :: Count(c, k) == ms[StatusName(k)]
    ensures forall k :: Count(c, k) == if k == Established then 3 else if k == Listen then 2 else 0
    ensures Total(c) == 5
  {
  }

  /** Any list of three established connections, two listening sockets and
      one status the switch does not know, in any order: established 3,
      listen 2, every other field 0, and 5 connections counted in all. */
  lemma TallyExample(statuses: seq<string>, unknown: string)
    requires !Recognized(unknown)
    requires multiset(statuses) == multiset{"ESTABLISHED", "ESTABLISHED", "ESTABLISHED", "LISTEN", "LISTEN", unknown}
    ensures forall k :: Count(Tally(statuses), k) == if k == Established then 3 else if k == Listen then 2 else 0
    ensures Total(Tally(statuses)) == 5
  {
    TallyCounts(statuses);
    MixCounts(Tally(statuses), multiset(statuses), unknown);
  }
}
