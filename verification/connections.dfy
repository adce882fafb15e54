/**
 The connection block of one polling cycle: the status string of every TCP
 connection is tallied into eleven counters, one per recognised state;
 any other status string is ignored.
 */
module Connections {

  /** The eleven TCP states the tally recognises. */
  datatype TcpState =
    | Established | SynSent | SynRecv | FinWait1 | FinWait2 | TimeWait
    | Close | CloseWait | LastAck | Listen | Closing

  /** The status string the provider uses for each state. */
  function StatusName(k: TcpState): string
  {
    match k
    case Established => "ESTABLISHED"
    case SynSent => "SYN_SENT"
    case SynRecv => "SYN_RECV"
    case FinWait1 => "FIN_WAIT1"
    case FinWait2 => "FIN_WAIT2"
    case TimeWait => "TIME_WAIT"
    case Close => "CLOSE"
    case CloseWait => "CLOSE_WAIT"
    case LastAck => "LAST_ACK"
    case Listen => "LISTEN"
    case Closing => "CLOSING"
  }

  predicate Recognized(status: string)
  {
    exists k :: StatusName(k) == status
  }

  /** The connection record of the report. */
  datatype Connection = Connection(
    established: nat,
    synSent: nat,
    synRecv: nat,
    finWait1: nat,
    finWait2: nat,
    timeWait: nat,
    close: nat,
    closeWait: nat,
    lastAck: nat,
    listen: nat,
    closing: nat)

  const NoConnections := Connection(0, 0, 0, 0, 0, 0, 0, 0, 0, 0, 0)

  /** The field of `c` that counts state `k`. */
  function Count(c: Connection, k: TcpState): nat
  {
    match k
    case Established => c.established
    case SynSent => c.synSent
    case SynRecv => c.synRecv
    case FinWait1 => c.finWait1
    case FinWait2 => c.finWait2
    case TimeWait => c.timeWait
    case Close => c.close
    case CloseWait => c.closeWait
    case LastAck => c.lastAck
    case Listen => c.listen
    case Closing => c.closing
  }

  /** All eleven fields added up. */
  function Total(c: Connection): nat
  {
    Count(c, Established) + Count(c, SynSent) + Count(c, SynRecv) + Count(c, FinWait1)
    + Count(c, FinWait2) + Count(c, TimeWait) + Count(c, Close) + Count(c, CloseWait)
    + Count(c, LastAck) + Count(c, Listen) + Count(c, Closing)
  }

  /** One case of the status switch: a recognised status increments exactly
      its own field, any other status leaves the tally as it was. */
  function Bump(c: Connection, status: string): (r: Connection)
    ensures forall k :: Count(r, k) == Count(c, k) + (if status == StatusName(k) then 1 else 0)
  {
    if status == "ESTABLISHED" then c.(established := c.established + 1)
    else if status == "SYN_SENT" then c.(synSent := c.synSent + 1)
    else if status == "SYN_RECV" then c.(synRecv := c.synRecv + 1)
    else if status == "FIN_WAIT1" then c.(finWait1 := c.finWait1 + 1)
    else if status == "FIN_WAIT2" then c.(finWait2 := c.finWait2 + 1)
    else if status == "TIME_WAIT" then c.(timeWait := c.timeWait + 1)
    else if status == "CLOSE" then c.(close := c.close + 1)
    else if status == "CLOSE_WAIT" then c.(closeWait := c.closeWait + 1)
    else if status == "LAST_ACK" then c.(lastAck := c.lastAck + 1)
    else if status == "LISTEN" then c.(listen := c.listen + 1)
    else if status == "CLOSING" then c.(closing := c.closing + 1)
    else c
  }

  /** A recognised status adds one to the total, any other status nothing. */
  lemma BumpTotal(c: Connection, status: string)
    ensures Total(Bump(c, status)) == Total(c) + (if Recognized(status) then 1 else 0)
  {
    if Recognized(status) {
      var k :| StatusName(k) == status;
    }
  }

  /** The statuses of `statuses` that the tally recognises, in order. */
  function RecognizedOnly(statuses: seq<string>): (r: seq<string>)
    ensures forall s :: multiset(r)[s] == if Recognized(s) then multiset(statuses)[s] else 0
    ensures |r| <= |statuses|
    decreases |statuses|
  {
    if |statuses| == 0 then []
    else
      var n := |statuses| - 1;
      assert statuses == statuses[..n] + [statuses[n]];
      RecognizedOnly(statuses[..n]) + (if Recognized(statuses[n]) then [statuses[n]] else [])
  }

  /** The connection loop over the status of every connection. */
  function Tally(statuses: seq<string>): Connection
    decreases |statuses|
  {
    if |statuses| == 0 then NoConnections
    else Bump(Tally(statuses[..|statuses| - 1]), statuses[|statuses| - 1])
  }

  /** Each field counts the connections whose status is its state's string. */
  lemma {:induction false} TallyCounts(statuses: seq<string>)
    ensures forall k :: Count(Tally(statuses), k) == multiset(statuses)[StatusName(k)]
    decreases |statuses|
  {
    if |statuses| > 0 {
      var n := |statuses| - 1;
      TallyCounts(statuses[..n]);
      assert statuses == statuses[..n] + [statuses[n]];
    }
  }

  /** The fields add up to the number of connections with a recognised status. */
  lemma {:induction false} TallyTotal(statuses: seq<string>)
    ensures Total(Tally(statuses)) == |RecognizedOnly(statuses)|
    decreases |statuses|
  {
    if |statuses| > 0 {
      var n := |statuses| - 1;
      TallyTotal(statuses[..n]);
      BumpTotal(Tally(statuses[..n]), statuses[n]);
    }
  }

  /** No field exceeds the number of connections, so none can overflow the
      source's uint64 counters. */
  lemma TallyBounded(statuses: seq<string>, k: TcpState)
    ensures Count(Tally(statuses), k) <= |statuses|
  {
    TallyTotal(statuses);
  }
}
