/**
 The disk block of one polling cycle: one record per mounted partition with
 its usage and four I/O rates, computed against the disk snapshot carried over
 from the previous cycle, and the snapshot handed on to the next one.

 The snapshot variable is reassigned inside the partition loop, after each
 partition, to the map this cycle is filling. Go maps are references, so from
 the second partition on the "previous" lookup reads the current cycle's map,
 in which the device's counters were stored just before the lookup. `LastRef`
 makes that reference explicit.
 */
module Disk {

  import opened Wrappers
  import opened UInt64
  import opened Rates

  /** The cumulative counters of one block device that the cycle reads. */
  datatype DiskIO = DiskIO(readBytes: U64, writeBytes: U64, readCount: U64, writeCount: U64)

  /** Device name to cumulative counters. */
  type Snapshot = map<string, DiskIO>

  /** Space usage of a mount point. */
  datatype Usage = Usage(used: U64, free: U64, total: U64)

  /** One mounted partition as the provider reports it, with the results of
      its usage query and of its I/O counter query (which may yield nothing). */
  datatype PartitionStat = PartitionStat(
    device: string,
    mountPoint: string,
    fsType: string,
    usage: Usage,
    io: Option<DiskIO>)

  /** The per-partition record of the report. */
  datatype Partition = Partition(
    device: string,
    mountPoint: string,
    fsType: string,
    used: U64,
    free: U64,
    total: U64,
    readBps: U64,
    writeBps: U64,
    readIops: U64,
    writeIops: U64)

  /** `r` is the record of partition `v`: identity and usage copied over. */
  predicate Describes(r: Partition, v: PartitionStat)
  {
    && r.device == v.device
    && r.mountPoint == v.mountPoint
    && r.fsType == v.fsType
    && r.used == v.usage.used
    && r.free == v.usage.free
    && r.total == v.usage.total
  }

  predicate NoRates(r: Partition)
  {
    r.readBps == 0 && r.writeBps == 0 && r.readIops == 0 && r.writeIops == 0
  }

  /** Each of the four rates is judged on its own counter: the increase over
      the interval where that counter did not go backwards, and 0 where it did. */
  predicate RatesBetween(r: Partition, cur: DiskIO, last: DiskIO, itv: U64)
    requires itv > 0
  {
    && r.readBps == GuardedRate(cur.readBytes, last.readBytes, itv)
    && r.writeBps == GuardedRate(cur.writeBytes, last.writeBytes, itv)
    && r.readIops == GuardedRate(cur.readCount, last.readCount, itv)
    && r.writeIops == GuardedRate(cur.writeCount, last.writeCount, itv)
  }

  /** The record before any rate is filled in: rates at Go's zero value. */
  function BaseRecord(v: PartitionStat): (r: Partition)
    ensures Describes(r, v) && NoRates(r)
  {
    Partition(v.device, v.mountPoint, v.fsType, v.usage.used, v.usage.free, v.usage.total, 0, 0, 0, 0)
  }

  /** The four guarded updates, applied one after the other to the base record. */
  function RateRecord(v: PartitionStat, cur: DiskIO, last: DiskIO, itv: U64): (r: Partition)
    requires itv > 0
    ensures Describes(r, v)
    ensures RatesBetween(r, cur, last, itv)
  {
    var p := BaseRecord(v);
    var p := if cur.readBytes >= last.readBytes then p.(readBps := Div(Sub(cur.readBytes, last.readBytes), itv)) else p;
    var p := if cur.writeBytes >= last.writeBytes then p.(writeBps := Div(Sub(cur.writeBytes, last.writeBytes), itv)) else p;
    var p := if cur.readCount >= last.readCount then p.(readIops := Div(Sub(cur.readCount, last.readCount), itv)) else p;
    if cur.writeCount >= last.writeCount then p.(writeIops := Div(Sub(cur.writeCount, last.writeCount), itv)) else p
  }

  /** The record of partition `v`, where `last` is the map the lookup for the
      previous counters reads. Rates exist only when the I/O query yielded
      counters and `last` has an entry for the device. */
  function PartitionRecord(v: PartitionStat, last: Snapshot, itv: U64): (r: Partition)
    requires itv > 0
    ensures Describes(r, v)
    ensures v.io.Some? && v.device in last ==> RatesBetween(r, v.io.value, last[v.device], itv)
    ensures v.io.None? || v.device !in last ==> NoRates(r)
  {
    match v.io
    case None => BaseRecord(v)
    case Some(cur) => if v.device in last then RateRecord(v, cur, last[v.device], itv) else BaseRecord(v)
  }

  /** Storing partition `v`'s counters, if its I/O query yielded any, under its device. */
  function Store(m: Snapshot, v: PartitionStat): (r: Snapshot)
    ensures v.io.Some? ==> v.device in r && r[v.device] == v.io.value
    ensures v.io.None? ==> r == m
    ensures forall d :: d != v.device ==> (d in r <==> d in m) && (d in m ==> r[d] == m[d])
  {
    if v.io.Some? then m[v.device := v.io.value] else m
  }

  /** The map of this cycle's counters after storing those of every partition of `parts`. */
  function StoredIO(parts: seq<PartitionStat>): Snapshot
    decreases |parts|
  {
    if |parts| == 0 then map[] else Store(StoredIO(parts[..|parts| - 1]), parts[|parts| - 1])
  }

  /** What the previous-snapshot variable refers to: the map left by the
      previous cycle, or the very map this cycle is filling. */
  datatype LastRef = PreviousCycle(prev: Snapshot) | ThisCycle

  /** The loop state: records so far, the map this cycle is filling, and what
      the previous-snapshot variable refers to. */
  datatype DiskLoop = DiskLoop(records: seq<Partition>, current: Snapshot, last: LastRef)

  /** The map the previous-snapshot variable denotes in state `s`. */
  function LastMap(s: DiskLoop): Snapshot
  {
    match s.last
    case PreviousCycle(prev) => prev
    case ThisCycle => s.current
  }

  /** One iteration of the partition loop: store the counters, look the device
      up through the previous-snapshot variable (after the store), append the
      record, and point the previous-snapshot variable at this cycle's map.
      Once that variable refers to this cycle's map, the lookup finds the
      counters just stored, so the new record has no rates. */
  function Step(s: DiskLoop, v: PartitionStat, itv: U64): (r: DiskLoop)
    requires itv > 0
    ensures |r.records| == |s.records| + 1 && r.records[..|s.records|] == s.records
    ensures Describes(r.records[|s.records|], v)
    ensures r.last == ThisCycle
    ensures s.last == ThisCycle ==> NoRates(r.records[|s.records|])
  {
    var current := Store(s.current, v);
    var record := PartitionRecord(v, LastMap(s.(current := current)), itv);
    if s.last == ThisCycle && v.io.Some? then
      var io := v.io.value;
      UnchangedCounterHasNoRate(io.readBytes, itv);
      UnchangedCounterHasNoRate(io.writeBytes, itv);
      UnchangedCounterHasNoRate(io.readCount, itv);
      UnchangedCounterHasNoRate(io.writeCount, itv);
      DiskLoop(s.records + [record], current, ThisCycle)
    else
      DiskLoop(s.records + [record], current, ThisCycle)
  }

  /** The partition loop over `parts`, starting from an empty map for this
      cycle and the previous cycle's snapshot `prev`. */
  function Scan(prev: Snapshot, parts: seq<PartitionStat>, itv: U64): (s: DiskLoop)
    requires itv > 0
    ensures |s.records| == |parts|
    ensures forall i :: 0 <= i < |parts| ==> Describes(s.records[i], parts[i])
    ensures s.last == if |parts| == 0 then PreviousCycle(prev) else ThisCycle
    ensures s.current == StoredIO(parts)
    decreases |parts|
  {
    if |parts| == 0 then DiskLoop([], map[], PreviousCycle(prev))
    else Step(Scan(prev, parts[..|parts| - 1], itv), parts[|parts| - 1], itv)
  }

  /** The disk block: the partition records in input order and the snapshot the
      next cycle will read. */
  function DiskCycle(prev: Snapshot, parts: seq<PartitionStat>, itv: U64): (r: (seq<Partition>, Snapshot))
    requires itv > 0
    ensures |r.0| == |parts|
    ensures forall i :: 0 <= i < |parts| ==> Describes(r.0[i], parts[i])
  {
    var s := Scan(prev, parts, itv);
    (s.records, LastMap(s))
  }

  /** Partition `i`'s record is the one appended by the `i`-th loop iteration. */
  lemma {:induction false} RecordOfIteration(prev: Snapshot, parts: seq<PartitionStat>, itv: U64, i: nat)
    requires itv > 0
    requires i < |parts|
    ensures Scan(prev, parts, itv).records[i] == Step(Scan(prev, parts[..i], itv), parts[i], itv).records[i]
    decreases |parts|
  {
    var n := |parts| - 1;
    var init := parts[..n];
    var s := Scan(prev, init, itv);
    assert Scan(prev, parts, itv) == Step(s, parts[n], itv);
    if i == n {
      assert init == parts[..i];
    } else {
      RecordOfIteration(prev, init, itv, i);
      assert Step(s, parts[n], itv).records[i] == s.records[i];
      assert init[..i] == parts[..i];
      assert init[i] == parts[i];
    }
  }

  /** The first partition is compared with the previous cycle's snapshot: each
      rate is the guarded increase of its counter when the I/O query yielded
      counters and the device was in that snapshot, and all rates are 0 otherwise. */
  lemma FirstPartitionRates(prev: Snapshot, parts: seq<PartitionStat>, itv: U64)
    requires itv > 0
    requires |parts| > 0
    ensures var r := DiskCycle(prev, parts, itv).0[0];
      && (parts[0].io.Some? && parts[0].device in prev ==> RatesBetween(r, parts[0].io.value, prev[parts[0].device], itv))
      && (parts[0].io.None? || parts[0].device !in prev ==> NoRates(r))
  {
    RecordOfIteration(prev, parts, itv, 0);
  }

  /** Every partition after the first reports 0 for all four rates: its lookup
      reads this cycle's map, where its own counters were just stored. */
  lemma LaterPartitionsHaveNoRates(prev: Snapshot, parts: seq<PartitionStat>, itv: U64, i: nat)
    requires itv > 0
    requires 1 <= i < |parts|
    ensures NoRates(DiskCycle(prev, parts, itv).0[i])
  {
    RecordOfIteration(prev, parts, itv, i);
    var s := Scan(prev, parts[..i], itv);
    assert s.last == ThisCycle;
  }

  /** Partition `i` supplies the counters its device ends up with: it has
      counters and no later partition of the same device has any. */
  predicate LatestIO(parts: seq<PartitionStat>, i: int)
    requires 0 <= i < |parts|
  {
    && parts[i].io.Some?
    && forall j :: i < j < |parts| && parts[j].device == parts[i].device ==> parts[j].io.None?
  }

  /** This cycle's map holds exactly the devices whose I/O query yielded counters. */
  lemma {:induction false} StoredIOKeys(parts: seq<PartitionStat>)
    ensures forall d :: d in StoredIO(parts) <==>
      exists i :: 0 <= i < |parts| && parts[i].device == d && parts[i].io.Some?
    decreases |parts|
  {
    if |parts| > 0 {
      var n := |parts| - 1;
      var init := parts[..n];
      StoredIOKeys(init);
      forall d
        ensures d in StoredIO(parts) <==> exists i :: 0 <= i < |parts| && parts[i].device == d && parts[i].io.Some?
      {
        if d in StoredIO(init) {
          var i :| 0 <= i < |init| && init[i].device == d && init[i].io.Some?;
          assert parts[i] == init[i];
        }
        if exists i :: 0 <= i < |parts| && parts[i].device == d && parts[i].io.Some? {
          var i :| 0 <= i < |parts| && parts[i].device == d && parts[i].io.Some?;
          if i < n {
            assert init[i] == parts[i];
          }
        }
      }
    }
  }

  /** Each device in this cycle's map has the counters stored last for it. */
  lemma {:induction false} StoredIOValues(parts: seq<PartitionStat>)
    ensures forall i :: 0 <= i < |parts| && LatestIO(parts, i) ==>
      && parts[i].device in StoredIO(parts)
      && StoredIO(parts)[parts[i].device] == parts[i].io.value
    decreases |parts|
  {
    if |parts| > 0 {
      var n := |parts| - 1;
      var init := parts[..n];
      StoredIOValues(init);
      forall i | 0 <= i < |parts| && LatestIO(parts, i)
        ensures parts[i].device in StoredIO(parts) && StoredIO(parts)[parts[i].device] == parts[i].io.value
      {
        if i < n {
          assert init[i] == parts[i];
          assert LatestIO(init, i);
        }
      }
    }
  }

  /** The snapshot handed to the next cycle: unchanged when there were no
      partitions; otherwise this cycle's counters, keyed by device, with the
      last counters stored for a device that appears more than once. Devices of
      the previous snapshot that were not seen again are dropped. */
  lemma DiskSnapshotAfterCycle(prev: Snapshot, parts: seq<PartitionStat>, itv: U64)
    requires itv > 0
    ensures |parts| == 0 ==> DiskCycle(prev, parts, itv).1 == prev
    ensures var m := DiskCycle(prev, parts, itv).1;
      |parts| > 0 ==>
        && (forall d :: d in m <==> exists i :: 0 <= i < |parts| && parts[i].device == d && parts[i].io.Some?)
        && (forall i :: 0 <= i < |parts| && LatestIO(parts, i) ==> m[parts[i].device] == parts[i].io.value)
  {
    StoredIOKeys(parts);
    StoredIOValues(parts);
  }
}
