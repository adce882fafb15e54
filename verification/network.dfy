/**
 The network block of one polling cycle: one record per interface that is
 neither loopback nor virtual, with its hardware address, one chosen address,
 its cumulative counters and four rates against the network snapshot of the
 previous cycle; and the snapshot handed on to the next cycle.
 */
module Network {

  import opened Wrappers
  import opened UInt64
  import opened Strings
  import opened Rates

  /** The cumulative counters of one interface that the cycle reads. */
  datatype NicIO = NicIO(bytesSent: U64, bytesRecv: U64, packetsSent: U64, packetsRecv: U64)

  /** Go's zero value: what a lookup of a missing interface yields. */
  const ZeroIO := NicIO(0, 0, 0, 0)

  /** One per-interface entry of the provider's I/O counter list. */
  datatype NicStat = NicStat(name: string, io: NicIO)

  /** Interface name to cumulative counters. */
  type Snapshot = map<string, NicIO>

  /** One network interface as the provider reports it. */
  datatype NetInterface = NetInterface(name: string, hardwareAddr: string, addrs: seq<string>)

  /** The per-interface record of the report. */
  datatype Interface = Interface(
    name: string,
    mac: string,
    addr: string,
    recvBytes: U64,
    sentBytes: U64,
    recvPackets: U64,
    sentPackets: U64,
    recvBps: U64,
    sentBps: U64,
    recvPps: U64,
    sentPps: U64)

  predicate NoRates(r: Interface)
  {
    r.recvBps == 0 && r.sentBps == 0 && r.recvPps == 0 && r.sentPps == 0
  }

  /** The I/O counters keyed by interface name, built in list order. */
  function IOMap(stats: seq<NicStat>): Snapshot
    decreases |stats|
  {
    if |stats| == 0 then map[]
    else
      var n := |stats| - 1;
      IOMap(stats[..n])[stats[n].name := stats[n].io]
  }

  /** Entry `i` is the one the map keeps for its name: no later entry has that name. */
  predicate LatestEntry(stats: seq<NicStat>, i: int)
    requires 0 <= i < |stats|
  {
    forall j :: i < j < |stats| ==> stats[j].name != stats[i].name
  }

  /** The map holds exactly the listed names. */
  lemma {:induction false} IOMapKeys(stats: seq<NicStat>)
    ensures forall n :: n in IOMap(stats) <==> exists i :: 0 <= i < |stats| && stats[i].name == n
    decreases |stats|
  {
    if |stats| > 0 {
      var n := |stats| - 1;
      var init := stats[..n];
      IOMapKeys(init);
      forall name
        ensures name in IOMap(stats) <==> exists i :: 0 <= i < |stats| && stats[i].name == name
      {
        if name in IOMap(init) {
          var i :| 0 <= i < |init| && init[i].name == name;
          assert stats[i] == init[i];
        }
        if exists i :: 0 <= i < |stats| && stats[i].name == name {
          var i :| 0 <= i < |stats| && stats[i].name == name;
          if i < n {
            assert init[i] == stats[i];
          }
        }
      }
    }
  }

  /** Each listed name maps to the counters of its last entry in the list. */
  lemma {:induction false} IOMapValues(stats: seq<NicStat>)
    ensures forall i :: 0 <= i < |stats| && LatestEntry(stats, i) ==>
      stats[i].name in IOMap(stats) && IOMap(stats)[stats[i].name] == stats[i].io
    decreases |stats|
  {
    if |stats| > 0 {
      var n := |stats| - 1;
      var init := stats[..n];
      IOMapValues(init);
      forall i | 0 <= i < |stats| && LatestEntry(stats, i)
        ensures stats[i].name in IOMap(stats) && IOMap(stats)[stats[i].name] == stats[i].io
      {
        if i < n {
          assert init[i] == stats[i];
          assert LatestEntry(init, i);
        }
      }
    }
  }

  /** Loopback and virtual interfaces (virtual ethernet pairs, bridges, the
      container runtime's interfaces), which the report leaves out. */
  predicate Ignored(name: string)
  {
    || name == "lo"
    || HasPrefix(name, "veth")
    || HasPrefix(name, "br-")
    || HasPrefix(name, "docker")
  }

  /** The address loop: every address without a colon overwrites the chosen
      one, which starts out as "". */
  function PickAddr(addrs: seq<string>): (r: string)
    ensures r == "" || (r in addrs && ':' !in r)
    decreases |addrs|
  {
    if |addrs| == 0 then ""
    else
      var n := |addrs| - 1;
      ContainsOneChar(addrs[n], ':');
      if Contains(addrs[n], ":") then PickAddr(addrs[..n]) else addrs[n]
  }

  /** The chosen address is the LAST colon-free address (not the first), or ""
      when every address contains a colon. */
  lemma {:induction false} PickAddrIsLastColonFree(addrs: seq<string>)
    ensures (forall i :: 0 <= i < |addrs| ==> ':' in addrs[i]) ==> PickAddr(addrs) == ""
    ensures forall i :: 0 <= i < |addrs| && ':' !in addrs[i] && (forall j :: i < j < |addrs| ==> ':' in addrs[j]) ==>
      PickAddr(addrs) == addrs[i]
    decreases |addrs|
  {
    if |addrs| > 0 {
      var n := |addrs| - 1;
      var init := addrs[..n];
      PickAddrIsLastColonFree(init);
      ContainsOneChar(addrs[n], ':');
      assert forall i :: 0 <= i < n ==> init[i] == addrs[i];
      forall i | 0 <= i < |addrs| && ':' !in addrs[i] && (forall j :: i < j < |addrs| ==> ':' in addrs[j])
        ensures PickAddr(addrs) == addrs[i]
      {
        if i < n {
          assert ':' in addrs[n];
          assert forall j :: i < j < n ==> ':' in init[j];
        }
      }
    }
  }

  /** The record of a kept interface `v`: counters copied from this cycle's
      map (Go's zero value when absent), and the unguarded wrapping rate of
      each when `last` has an entry for the interface. */
  function InterfaceRecord(v: NetInterface, current: Snapshot, last: Snapshot, itv: U64): (r: Interface)
    requires itv > 0
    ensures r.name == v.name && r.mac == v.hardwareAddr && r.addr == PickAddr(v.addrs)
    ensures v.name in current ==>
      && r.recvBytes == current[v.name].bytesRecv && r.sentBytes == current[v.name].bytesSent
      && r.recvPackets == current[v.name].packetsRecv && r.sentPackets == current[v.name].packetsSent
    ensures v.name !in current ==> r.recvBytes == r.sentBytes == r.recvPackets == r.sentPackets == 0
    ensures v.name in last ==>
      && r.recvBps == WrappingRate(r.recvBytes, last[v.name].bytesRecv, itv)
      && r.sentBps == WrappingRate(r.sentBytes, last[v.name].bytesSent, itv)
      && r.recvPps == WrappingRate(r.recvPackets, last[v.name].packetsRecv, itv)
      && r.sentPps == WrappingRate(r.sentPackets, last[v.name].packetsSent, itv)
    ensures v.name !in last ==> r.recvBps == r.sentBps == r.recvPps == r.sentPps == 0
  {
    var cur := if v.name in current then current[v.name] else ZeroIO;
    var base := Interface(v.name, v.hardwareAddr, PickAddr(v.addrs),
                          cur.bytesRecv, cur.bytesSent, cur.packetsRecv, cur.packetsSent, 0, 0, 0, 0);
    if v.name in last then
      var prev := last[v.name];
      base.(recvBps := Div(Sub(cur.bytesRecv, prev.bytesRecv), itv),
            sentBps := Div(Sub(cur.bytesSent, prev.bytesSent), itv),
            recvPps := Div(Sub(cur.packetsRecv, prev.packetsRecv), itv),
            sentPps := Div(Sub(cur.packetsSent, prev.packetsSent), itv))
    else base
  }

  /** The interface loop: ignored interfaces are skipped, every other one
      appends its record. */
  function ScanInterfaces(ifs: seq<NetInterface>, current: Snapshot, last: Snapshot, itv: U64): (out: seq<Interface>)
    requires itv > 0
    ensures |out| <= |ifs|
    ensures forall k :: 0 <= k < |out| ==> !Ignored(out[k].name)
    decreases |ifs|
  {
    if |ifs| == 0 then []
    else
      var n := |ifs| - 1;
      var out := ScanInterfaces(ifs[..n], current, last, itv);
      if Ignored(ifs[n].name) then out else out + [InterfaceRecord(ifs[n], current, last, itv)]
  }

  /** The positions of the interfaces that are not ignored, in increasing order. */
  function KeptPositions(ifs: seq<NetInterface>): (idx: seq<nat>)
    ensures forall k :: 0 <= k < |idx| ==> idx[k] < |ifs| && !Ignored(ifs[idx[k]].name)
    ensures forall k, l :: 0 <= k < l < |idx| ==> idx[k] < idx[l]
    ensures forall i :: 0 <= i < |ifs| && !Ignored(ifs[i].name) ==> i in idx
    decreases |ifs|
  {
    if |ifs| == 0 then []
    else
      var n := |ifs| - 1;
      var idx := KeptPositions(ifs[..n]);
      assert forall i :: 0 <= i < n ==> ifs[..n][i] == ifs[i];
      if Ignored(ifs[n].name) then idx else idx + [n]
  }

  /** The report's interfaces are exactly the kept interfaces, in input
      order, one record each. */
  lemma {:induction false} InterfacesKeptInOrder(ifs: seq<NetInterface>, current: Snapshot, last: Snapshot, itv: U64)
    requires itv > 0
    ensures |ScanInterfaces(ifs, current, last, itv)| == |KeptPositions(ifs)|
    ensures forall k :: 0 <= k < |KeptPositions(ifs)| ==>
      ScanInterfaces(ifs, current, last, itv)[k] == InterfaceRecord(ifs[KeptPositions(ifs)[k]], current, last, itv)
    decreases |ifs|
  {
    if |ifs| > 0 {
      var n := |ifs| - 1;
      var init := ifs[..n];
      InterfacesKeptInOrder(init, current, last, itv);
      var out0 := ScanInterfaces(init, current, last, itv);
      var idx0 := KeptPositions(init);
      forall k | 0 <= k < |idx0|
        ensures out0[k] == InterfaceRecord(ifs[idx0[k]], current, last, itv)
      {
        assert init[idx0[k]] == ifs[idx0[k]];
      }
    }
  }

  /** The network block: the interface records and the snapshot for the next
      cycle, which is this cycle's whole I/O map, ignored interfaces included. */
  function NetCycle(prev: Snapshot, ifs: seq<NetInterface>, stats: seq<NicStat>, itv: U64): (r: (seq<Interface>, Snapshot))
    requires itv > 0
    ensures forall i :: 0 <= i < |stats| ==> stats[i].name in r.1
    ensures forall n :: n in r.1 ==> exists i :: 0 <= i < |stats| && stats[i].name == n
  {
    var current := IOMap(stats);
    IOMapKeys(stats);
    (ScanInterfaces(ifs, current, prev, itv), current)
  }

  /** Without a previous entry for an interface every one of its rates is 0;
      with one, each counter that grew gives the plain increase per second and
      each counter that went backwards gives the wrapped-around difference. */
  lemma NetworkRateCases(v: NetInterface, current: Snapshot, last: Snapshot, itv: U64)
    requires itv > 0
    ensures var r := InterfaceRecord(v, current, last, itv);
      && (v.name !in last ==> r.recvBps == r.sentBps == r.recvPps == r.sentPps == 0)
      && (v.name in last ==>
            var p := last[v.name];
            && (r.recvBytes >= p.bytesRecv ==> r.recvBps == (r.recvBytes - p.bytesRecv) / itv)
            && (r.recvBytes < p.bytesRecv ==> r.recvBps == (TWO_64 - (p.bytesRecv - r.recvBytes)) / itv)
            && (r.sentBytes >= p.bytesSent ==> r.sentBps == (r.sentBytes - p.bytesSent) / itv)
            && (r.sentBytes < p.bytesSent ==> r.sentBps == (TWO_64 - (p.bytesSent - r.sentBytes)) / itv)
            && (r.recvPackets >= p.packetsRecv ==> r.recvPps == (r.recvPackets - p.packetsRecv) / itv)
            && (r.recvPackets < p.packetsRecv ==> r.recvPps == (TWO_64 - (p.packetsRecv - r.recvPackets)) / itv)
            && (r.sentPackets >= p.packetsSent ==> r.sentPps == (r.sentPackets - p.packetsSent) / itv)
            && (r.sentPackets < p.packetsSent ==> r.sentPps == (TWO_64 - (p.packetsSent - r.sentPackets)) / itv))
  {
  }

  /** The concrete filter outcomes: loopback, a virtual ethernet pair, a
      bridge and the container runtime's interface are left out; an ordinary
      ethernet interface is kept. */
  lemma IgnoredExamples()
    ensures Ignored("lo") && Ignored("veth0") && Ignored("br-abc123") && Ignored("docker0")
    ensures !Ignored("eth0") && !Ignored("lo0") && !Ignored("vet")
  {
    assert "veth0"[..4] == "veth";
    assert "br-abc123"[..3] == "br-";
    assert "docker0"[..6] == "docker";
    assert "eth0"[..4] == "eth0" && "eth0"[..3] == "eth";
    assert "lo0"[..3] == "lo0" && "vet"[..3] == "vet";
  }
}
