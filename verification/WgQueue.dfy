/**
 struct wg_queue and the functions on it (src/if_wg.c:1790-1944): a list with its length field.
 PacketQueues says what any interleaving of the serial and parallel ones leads to; here are the
 critical sections themselves, and the staged queue, which drops its oldest packet when full.
 */
module WgQueue {
  import opened Wrappers
  import P = PacketQueues

  const MAX_STAGED: nat := 128
  const MAX_HANDSHAKES: nat := 4096

  // The last n packets, or all if there are fewer
  function Last(s: seq<nat>, n: nat): seq<nat> {
    if |s| <= n then s else s[|s| - n..]
  }

  // What is kept of a list when only the front is dropped, and only down to n
  lemma LastIs(dropped: seq<nat>, kept: seq<nat>, n: nat)
    requires |kept| <= n && (dropped != [] ==> |kept| == n)
    ensures kept == Last(dropped + kept, n)
  {}

  class Queue {
    var queue: seq<nat>
    var len: nat

    ghost predicate Valid()
      reads this
    {
      len == |queue|
    }

    constructor ()
      ensures Valid() && queue == []
    {
      queue, len := [], 0;
    }

    // The insertion of wg_queue_both and of wg_queue_enqueue_handshake
    method InsertTail(pkt: nat, limit: nat) returns (ok: bool)
      requires Valid()
      modifies this
      ensures Valid()
      ensures ok <==> |old(queue)| < limit
      ensures queue == if ok then old(queue) + [pkt] else old(queue)
    {
      ok := len < limit;
      if ok {
        queue := queue + [pkt];
        len := len + 1;
      }
    }

    // wg_queue_enqueue_handshake: a packet that finds no room is freed
    method EnqueueHandshake(pkt: nat) returns (freed: seq<nat>)
      requires Valid() && len <= MAX_HANDSHAKES
      modifies this
      ensures Valid() && len <= MAX_HANDSHAKES
      ensures queue + freed == old(queue) + [pkt] && (freed != [] <==> |old(queue)| == MAX_HANDSHAKES)
    {
      var ok := InsertTail(pkt, MAX_HANDSHAKES);
      freed := if ok then [] else [pkt];
    }

    // wg_queue_dequeue_parallel and wg_queue_dequeue_handshake
    method RemoveHead() returns (pkt: Option<nat>)
      requires Valid()
      modifies this
      ensures Valid()
      ensures pkt == None <==> old(queue) == []
      ensures old(queue) == if pkt.Some? then [pkt.value] + queue else queue
    {
      pkt := None;
      if len > 0 {
        pkt := Some(queue[0]);
        len := len - 1;
        queue := queue[1..];
      }
    }

    // wg_queue_dequeue_serial: the head stays until it is no longer uncrypted
    method DequeueSerial(alive: map<nat, P.Progress>) returns (pkt: Option<nat>)
      requires Valid() && forall x :: x in queue ==> x in alive
      modifies this
      ensures Valid()
      ensures pkt.Some? <==> old(queue) != [] && alive[old(queue)[0]] != P.Uncrypted
      ensures old(queue) == if pkt.Some? then [pkt.value] + queue else queue
    {
      pkt := None;
      if len > 0 && alive[queue[0]] != P.Uncrypted {
        pkt := RemoveHead();
      }
    }

    // wg_queue_push_staged
    method PushStaged(pkt: nat) returns (freed: seq<nat>)
      requires Valid() && len <= MAX_STAGED
      modifies this
      ensures Valid() && len <= MAX_STAGED
      ensures queue == Last(old(queue) + [pkt], MAX_STAGED)
      ensures freed + queue == old(queue) + [pkt] && (freed != [] ==> |queue| == MAX_STAGED)
    {
      ghost var was := queue;
      freed := [];
      if len >= MAX_STAGED {
        freed := [queue[0]];
        queue := queue[1..];
        len := len - 1;
      }
      queue := queue + [pkt];
      len := len + 1;
      assert freed + queue == was + [pkt];
      LastIs(freed, queue, MAX_STAGED);
    }

    // wg_queue_enlist_staged, which wg_peer_send_staged uses to put back what it could not send
    method EnlistStaged(list: seq<nat>) returns (freed: seq<nat>)
      requires Valid() && len <= MAX_STAGED
      modifies this
      ensures Valid() && len <= MAX_STAGED
      ensures queue == Last(old(queue) + list, MAX_STAGED)
      ensures freed + queue == old(queue) + list && (freed != [] ==> |queue| == MAX_STAGED)
    {
      hide Last;
      freed := [];
      ghost var was := queue;
      for i := 0 to |list|
        invariant Valid() && len <= MAX_STAGED
        invariant freed + queue == was + list[..i]
        invariant freed != [] ==> |queue| == MAX_STAGED
      {
        ghost var before := queue;
        var f := PushStaged(list[i]);
        assert (freed + f) + queue == freed + (f + queue) == (freed + before) + [list[i]];
        assert was + list[..i + 1] == was + list[..i] + [list[i]];
        freed := freed + f;
      }
      assert list[..|list|] == list;
      LastIs(freed, queue, MAX_STAGED);
    }

    // wg_queue_delist_staged
    method DelistStaged() returns (list: seq<nat>)
      modifies this
      ensures Valid() && queue == [] && list == old(queue)
    {
      list := queue;
      queue, len := [], 0;
    }

    // The failure path of wg_peer_send_staged: everything is taken off, and put back behind what
    // arrived in between.
    method SendFails(arrived: seq<nat>) returns (freed: seq<nat>)
      requires Valid() && len <= MAX_STAGED
      modifies this
      ensures Valid() && len <= MAX_STAGED
      ensures queue == Last(arrived + old(queue), MAX_STAGED)
      ensures freed + queue == arrived + old(queue)
    {
      hide Last;
      var list := DelistStaged();
      var first := EnlistStaged(arrived);
      ghost var middle := queue;
      assert first + middle == arrived;
      var second := EnlistStaged(list);
      freed := first + second;
      assert freed + queue == first + (second + queue) == first + (middle + list) == arrived + list;
      LastIs(freed, queue, MAX_STAGED);
    }
  }

  // The critical sections take the steps of PacketQueues. A queue stands for the serial queue of
  // peer p, or for the parallel queue, in state s.

  ghost predicate IsSerial(q: Queue, s: P.State, p: nat)
    reads q
  {
    p in s.peers && q.queue == s.peers[p].serial && q.len == s.peers[p].len
  }

  ghost predicate IsParallel(q: Queue, s: P.State)
    reads q
  {
    q.queue == s.parallel && q.len == s.parallelLen
  }

  // The first section of wg_queue_both
  method SerialSection(serial: Queue, pkt: nat, ghost s: P.State, ghost p: nat) returns (ok: bool)
    requires P.Inv(s) && IsSerial(serial, s, p) && P.Enabled(s, P.EnqueueSerial(pkt, p))
    modifies serial
    ensures var s' := P.Apply(s, P.EnqueueSerial(pkt, p));
            IsSerial(serial, s', p) && (ok <==> pkt in s'.inserting) && (!ok <==> pkt in s'.freed)
  {
    assert P.PeerOk(s.owner, p, s.peers[p]) && P.PacketOk(s, pkt);
    ok := serial.InsertTail(pkt, P.LIMIT);
  }

  // The second section of wg_queue_both
  method ParallelSection(parallel: Queue, pkt: nat, ghost s: P.State) returns (ok: bool)
    requires P.Inv(s) && IsParallel(parallel, s) && P.Enabled(s, P.InsertParallel(pkt))
    modifies parallel
    ensures var s' := P.Apply(s, P.InsertParallel(pkt));
            IsParallel(parallel, s') && (ok <==> pkt !in s'.failing)
  {
    assert P.PacketOk(s, pkt);
    ok := parallel.InsertTail(pkt, P.LIMIT);
  }

  // wg_queue_dequeue_parallel takes the step whenever it is possible, and nothing otherwise.
  method TakeSection(parallel: Queue, ghost s: P.State) returns (pkt: Option<nat>)
    requires P.Inv(s) && IsParallel(parallel, s)
    modifies parallel
    ensures pkt.Some? <==> P.Enabled(s, P.TakeParallel)
    ensures pkt.None? ==> IsParallel(parallel, s)
    ensures pkt.Some? ==>
              var s' := P.Apply(s, P.TakeParallel);
              IsParallel(parallel, s') && pkt.value in s'.working
  {
    pkt := parallel.RemoveHead();
  }

  // wg_queue_dequeue_serial takes the step whenever it is possible, and nothing otherwise.
  method DequeueSection(serial: Queue, alive: map<nat, P.Progress>, ghost s: P.State, ghost p: nat) returns (pkt: Option<nat>)
    requires P.Inv(s) && IsSerial(serial, s, p) && alive == s.alive
    modifies serial
    ensures pkt.Some? <==> P.Enabled(s, P.DequeueSerial(p))
    ensures pkt.None? ==> IsSerial(serial, s, p)
    ensures pkt.Some? ==>
              var s' := P.Apply(s, P.DequeueSerial(p));
              IsSerial(serial, s', p) && s'.peers[p].left == s.peers[p].left + [pkt.value]
  {
    assert P.PeerOk(s.owner, p, s.peers[p]);
    forall x | x in serial.queue
      ensures x in s.alive
    {
      assert P.PacketOk(s, x);
    }
    hide P.Inv;
    pkt := serial.DequeueSerial(alive);
  }
}
