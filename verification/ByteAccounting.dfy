/** Byte counts between two socket snapshots (bench/src/network.rs, `NetworkSnapshot::measure`). */
module ByteAccounting {
  import opened Wrappers
  import opened Netlink

  const U64_MAX: nat := 0xFFFF_FFFF_FFFF_FFFF

  datatype Reason =
    | ReceiveMovedBackwards
    | SendMovedBackwards
    | RetransmitMovedBackwards
    | SocketClosed(inode: nat)
    | NoSocket

  datatype Measurement = Measurement(
    connectionsBefore: nat, connectionsAfter: nat,
    received: nat, sent: nat, retransmitted: nat, total: nat, reason: Option<Reason>)

  predicate IsComplete(m: Measurement) {
    m.reason.None?
  }

  function Saturate(n: nat): nat {
    if n <= U64_MAX then n else U64_MAX
  }

  function SaturatingAdd(a: nat, b: nat): nat {
    Saturate(a + b)
  }

  datatype Counter = Received | Sent | Retransmitted

  function Get(counters: TcpCounters, counter: Counter): nat {
    match counter
    case Received => counters.received
    case Sent => counters.sent
    case Retransmitted => counters.retransmitted
  }

  function Before(sockets: Sockets, id: SocketId): TcpCounters {
    if id in sockets then sockets[id] else TcpCounters(0, 0, 0)
  }

  // ----- Sums over snapshots -----

  ghost function Sum(sockets: Sockets, counter: Counter): nat {
    if sockets == map[] then 0
    else
      var id :| id in sockets;
      Get(sockets[id], counter) + Sum(sockets - {id}, counter)
  }

  lemma {:induction false} SumRemove(sockets: Sockets, id: SocketId, counter: Counter)
    requires id in sockets
    ensures Sum(sockets, counter) == Get(sockets[id], counter) + Sum(sockets - {id}, counter)
    decreases |sockets|
  {
    var first :| first in sockets &&
      Sum(sockets, counter) == Get(sockets[first], counter) + Sum(sockets - {first}, counter);
    if first != id {
      SumRemove(sockets - {first}, id, counter);
      SumRemove(sockets - {id}, first, counter);
      assert (sockets - {first}) - {id} == (sockets - {id}) - {first};
    }
  }

  /** Removing a socket from both snapshots takes away what it held in each. */
  lemma SumWithout(sockets: Sockets, id: SocketId, counter: Counter)
    ensures Sum(sockets, counter) == Sum(sockets - {id}, counter) + Get(Before(sockets, id), counter)
  {
    if id in sockets {
      SumRemove(sockets, id, counter);
    } else {
      assert sockets - {id} == sockets;
    }
  }

  // ----- Complete measurements -----

  /** No counter moved back, no socket closed, and one is left. */
  ghost predicate Complete(before: Sockets, after: Sockets) {
    && after != map[] && before.Keys <= after.Keys
    && forall id, c :: id in after ==> Get(Before(before, id), c) <= Get(after[id], c)
  }

  lemma {:induction false} SumGrows(before: Sockets, after: Sockets, counter: Counter)
    requires before.Keys <= after.Keys
    requires forall id :: id in after ==> Get(Before(before, id), counter) <= Get(after[id], counter)
    ensures Sum(before, counter) <= Sum(after, counter)
    decreases |after|
  {
    if after != map[] {
      var id :| id in after;
      SumWithout(before, id, counter);
      SumWithout(after, id, counter);
      forall other | other in after - {id}
        ensures Get(Before(before - {id}, other), counter) <= Get((after - {id})[other], counter)
      {
        assert other in after;
      }
      SumGrows(before - {id}, after - {id}, counter);
    } else {
      assert before == map[];
    }
  }

  /** What a complete measurement reports: the sum over the final sockets minus that over the initial ones. */
  ghost function Growth(before: Sockets, after: Sockets, counter: Counter): nat
    requires Complete(before, after)
  {
    SumGrows(before, after, counter);
    Sum(after, counter) - Sum(before, counter)
  }

  ghost predicate Reports(m: Measurement, before: Sockets, after: Sockets) {
    && (IsComplete(m) <==> Complete(before, after))
    && m.connectionsBefore == |before| && m.connectionsAfter == |after|
    && m.total == SaturatingAdd(m.received, m.sent)
    && (Complete(before, after) ==>
      && m.received == Saturate(Growth(before, after, Received))
      && m.sent == Saturate(Growth(before, after, Sent))
      && m.retransmitted == Saturate(Growth(before, after, Retransmitted)))
  }

  lemma CompleteComposes(t0: Sockets, t1: Sockets, t2: Sockets)
    requires Complete(t0, t1) && Complete(t1, t2)
    ensures Complete(t0, t2)
    ensures forall c :: Growth(t0, t2, c) == Growth(t0, t1, c) + Growth(t1, t2, c)
  {
  }

  lemma FourAdd(a: nat, b: nat, c: nat, d: nat)
    ensures SaturatingAdd(SaturatingAdd(a, b), SaturatingAdd(c, d)) == Saturate(a + b + c + d)
  {
  }

  lemma TotalsAdd(r: nat, s: nat, r': nat, s': nat)
    ensures SaturatingAdd(SaturatingAdd(r, r'), SaturatingAdd(s, s'))
        == SaturatingAdd(SaturatingAdd(r, s), SaturatingAdd(r', s'))
  {
    FourAdd(r, r', s, s');
    FourAdd(r, s, r', s');
    assert r + r' + s + s' == r + s + r' + s';
  }

  lemma GrowthTelescopes(t0: Sockets, t1: Sockets, t2: Sockets, counter: Counter)
    requires Complete(t0, t1) && Complete(t1, t2)
    ensures Complete(t0, t2)
    ensures Saturate(Growth(t0, t2, counter))
        == SaturatingAdd(Saturate(Growth(t0, t1, counter)), Saturate(Growth(t1, t2, counter)))
  {
  }

  /** Measurements telescope: two complete neighbours make the outer one complete, with counters that
      are their (saturating) sums. */
  lemma MeasurementsTelescope(t0: Sockets, t1: Sockets, t2: Sockets, m01: Measurement, m12: Measurement,
                              m02: Measurement)
    requires Reports(m01, t0, t1) && Reports(m12, t1, t2) && Reports(m02, t0, t2)
    requires IsComplete(m01) && IsComplete(m12)
    ensures IsComplete(m02)
    ensures m02.received == SaturatingAdd(m01.received, m12.received)
    ensures m02.sent == SaturatingAdd(m01.sent, m12.sent)
    ensures m02.retransmitted == SaturatingAdd(m01.retransmitted, m12.retransmitted)
    ensures m02.total == SaturatingAdd(m01.total, m12.total)
  {
    GrowthTelescopes(t0, t1, t2, Received);
    GrowthTelescopes(t0, t1, t2, Sent);
    GrowthTelescopes(t0, t1, t2, Retransmitted);
    TotalsAdd(m01.received, m01.sent, m12.received, m12.sent);
  }

  // ----- The loop -----

  ghost predicate MovesForward(before: Sockets, after: Sockets, ids: set<SocketId>) {
    ids <= after.Keys && forall id, c :: id in ids ==> Get(Before(before, id), c) <= Get(after[id], c)
  }

  /** What the visited sockets gained. */
  ghost function Gained(before: Sockets, after: Sockets, ids: set<SocketId>, counter: Counter): nat
    requires MovesForward(before, after, ids)
  {
    if ids == {} then 0
    else
      var id :| id in ids;
      Get(after[id], counter) - Get(Before(before, id), counter) + Gained(before, after, ids - {id}, counter)
  }

  lemma {:induction false} GainedOneMore(before: Sockets, after: Sockets, ids: set<SocketId>, id: SocketId,
                                         counter: Counter)
    requires id in ids && MovesForward(before, after, ids)
    ensures Gained(before, after, ids, counter)
         == Get(after[id], counter) - Get(Before(before, id), counter) + Gained(before, after, ids - {id}, counter)
    decreases |ids|
  {
    var first :| first in ids && Gained(before, after, ids, counter)
      == Get(after[first], counter) - Get(Before(before, first), counter)
          + Gained(before, after, ids - {first}, counter);
    if first != id {
      GainedOneMore(before, after, ids - {first}, id, counter);
      GainedOneMore(before, after, ids - {id}, first, counter);
      assert (ids - {first}) - {id} == (ids - {id}) - {first};
    }
  }

  lemma {:induction false} GainedIsGrowth(before: Sockets, after: Sockets, counter: Counter)
    requires MovesForward(before, after, after.Keys) && before.Keys <= after.Keys
    ensures Gained(before, after, after.Keys, counter) + Sum(before, counter) == Sum(after, counter)
    decreases |after|
  {
    if after == map[] {
      assert before == map[];
    } else {
      var id :| id in after;
      var before', after' := before - {id}, after - {id};
      SumWithout(before, id, counter);
      SumWithout(after, id, counter);
      assert after'.Keys == after.Keys - {id};
      forall other, c | other in after'.Keys ensures Get(Before(before', other), c) <= Get(after'[other], c) {
        assert other in after.Keys;
      }
      GainedIsGrowth(before', after', counter);
      GainedOneMore(before, after, after.Keys, id, counter);
      GainedAgrees(before, after, before', after', after'.Keys, counter);
    }
  }

  lemma {:induction false} GainedAgrees(before: Sockets, after: Sockets, before': Sockets, after': Sockets,
                                        ids: set<SocketId>, counter: Counter)
    requires MovesForward(before, after, ids) && MovesForward(before', after', ids)
    requires forall id :: id in ids ==> after[id] == after'[id] && Before(before, id) == Before(before', id)
    ensures Gained(before, after, ids, counter) == Gained(before', after', ids, counter)
    decreases |ids|
  {
    if ids != {} {
      var id :| id in ids;
      GainedOneMore(before, after, ids, id, counter);
      GainedOneMore(before', after', ids, id, counter);
      GainedAgrees(before, after, before', after', ids - {id}, counter);
    }
  }

  /** The running sums are those of the sockets visited so far. */
  ghost predicate Running(before: Sockets, after: Sockets, ids: set<SocketId>, received: nat, sent: nat,
                          retransmitted: nat) {
    && MovesForward(before, after, ids)
    && received == Saturate(Gained(before, after, ids, Received))
    && sent == Saturate(Gained(before, after, ids, Sent))
    && retransmitted == Saturate(Gained(before, after, ids, Retransmitted))
  }

  lemma RunningStep(before: Sockets, after: Sockets, ids: set<SocketId>, id: SocketId, received: nat, sent: nat,
                    retransmitted: nat)
    requires Running(before, after, ids, received, sent, retransmitted) && id in after && id !in ids
    requires forall c :: Get(Before(before, id), c) <= Get(after[id], c)
    ensures Running(before, after, ids + {id},
                    SaturatingAdd(received, Get(after[id], Received) - Get(Before(before, id), Received)),
                    SaturatingAdd(sent, Get(after[id], Sent) - Get(Before(before, id), Sent)),
                    SaturatingAdd(retransmitted,
                                  Get(after[id], Retransmitted) - Get(Before(before, id), Retransmitted)))
  {
    assert (ids + {id}) - {id} == ids;
    GainedOneMore(before, after, ids + {id}, id, Received);
    GainedOneMore(before, after, ids + {id}, id, Sent);
    GainedOneMore(before, after, ids + {id}, id, Retransmitted);
  }

  /** The first counter found to have moved back. */
  function Regression(previous: TcpCounters, current: TcpCounters): Option<Reason> {
    if current.received < previous.received then Some(ReceiveMovedBackwards)
    else if current.sent < previous.sent then Some(SendMovedBackwards)
    else if current.retransmitted < previous.retransmitted then Some(RetransmitMovedBackwards)
    else None
  }

  lemma RegressionMeans(previous: TcpCounters, current: TcpCounters)
    ensures Regression(previous, current).None? <==> forall c :: Get(previous, c) <= Get(current, c)
  {
    assert Get(previous, Received) == previous.received && Get(current, Received) == current.received;
    assert Get(previous, Sent) == previous.sent && Get(current, Sent) == current.sent;
    assert Get(previous, Retransmitted) == previous.retransmitted;
    assert Get(current, Retransmitted) == current.retransmitted;
  }

  method SumGains(before: Sockets,
                  after: Sockets) returns (reason: Option<Reason>, received: nat, sent: nat, retransmitted: nat)
    ensures reason.None? ==> Running(before, after, after.Keys, received, sent, retransmitted)
    ensures reason.Some? ==> !Complete(before, after)
  {
    received, sent, retransmitted := 0, 0, 0;
    var left := after.Keys;
    assert after.Keys - left == {};
    while left != {}
      invariant left <= after.Keys
      invariant Running(before, after, after.Keys - left, received, sent, retransmitted)
      decreases left
    {
      var id :| id in left;
      var current, previous := after[id], Before(before, id);
      reason := Regression(previous, current);
      RegressionMeans(previous, current);
      if reason.Some? {
        return;
      }
      RunningStep(before, after, after.Keys - left, id, received, sent, retransmitted);
      assert after.Keys - (left - {id}) == (after.Keys - left) + {id};
      received := SaturatingAdd(received, current.received - previous.received);
      sent := SaturatingAdd(sent, current.sent - previous.sent);
      retransmitted := SaturatingAdd(retransmitted, current.retransmitted - previous.retransmitted);
      left := left - {id};
    }
    assert after.Keys - left == after.Keys;
    reason := None;
  }

  method Measure(before: Sockets, after: Sockets) returns (m: Measurement)
    ensures Reports(m, before, after)
  {
    var reason, received, sent, retransmitted := SumGains(before, after);
    if reason.None? {
      if !(before.Keys <= after.Keys) {
        var missing :| missing in before.Keys && missing !in after.Keys;
        reason := Some(SocketClosed(missing.inode));
      } else if after == map[] {
        reason := Some(NoSocket);
      } else {
        CompleteSums(before, after, received, sent, retransmitted);
      }
    }
    m := Measurement(|before|, |after|, received, sent, retransmitted, SaturatingAdd(received, sent), reason);
  }

  lemma CompleteSums(before: Sockets, after: Sockets, received: nat, sent: nat, retransmitted: nat)
    requires Running(before, after, after.Keys, received, sent, retransmitted)
    requires before.Keys <= after.Keys && after != map[]
    ensures Complete(before, after)
    ensures received == Saturate(Growth(before, after, Received)) && sent == Saturate(Growth(before, after, Sent))
    ensures retransmitted == Saturate(Growth(before, after, Retransmitted))
  {
    GainedIsGrowth(before, after, Received);
    GainedIsGrowth(before, after, Sent);
    GainedIsGrowth(before, after, Retransmitted);
  }
}
