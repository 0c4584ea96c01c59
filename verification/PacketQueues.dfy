/**
 Packets on their way through the crypto workers (src/if_wg.c:1888-1944, with wg_encrypt,
 wg_decrypt and wg_deliver_out / wg_deliver_in). Every critical section and every store to
 p_state is one step; a schedule interleaves producers, workers and consumers in any order.
 */
module PacketQueues {
  // MAX_QUEUED_PKT
  const LIMIT: nat := 1024

  datatype Progress = Uncrypted | Crypted | Dead

  // One peer: its serial queue with its length field, and what went in and came out
  datatype Peer = Peer(serial: seq<nat>, len: nat, entered: seq<nat>, left: seq<nat>)

  datatype State = State(
    peers: map<nat, Peer>,
    owner: map<nat, nat>,          // the peer of every packet ever allocated
    alive: map<nat, Progress>,     // p_state of the packets that are queued or being delivered
    parallel: seq<nat>,            // the parallel queue shared by all peers
    parallelLen: nat,
    inserting: set<nat>,           // a producer has put it on the serial queue only
    failing: set<nat>,             // a producer found the parallel queue full
    working: set<nat>,             // a worker has taken it
    delivering: set<nat>,          // a consumer has taken it
    freed: multiset<nat>)

  datatype Step =
    | NewPeer(p: nat)
    | EnqueueSerial(pkt: nat, p: nat)
    | InsertParallel(pkt: nat)
    | StoreDead(pkt: nat)
    | TakeParallel
    | Finish(pkt: nat, ok: bool)
    | DequeueSerial(p: nat)
    | Free(pkt: nat)

  const INIT: State := State(map[], map[], map[], [], 0, {}, {}, {}, {}, multiset{})

  predicate Enabled(s: State, step: Step) {
    match step
    case NewPeer(p) => p !in s.peers
    case EnqueueSerial(pkt, p) => p in s.peers && pkt !in s.owner
    case InsertParallel(pkt) => pkt in s.inserting
    case StoreDead(pkt) => pkt in s.failing
    case TakeParallel => s.parallelLen > 0 && s.parallel != []
    case Finish(pkt, _) => pkt in s.working
    case DequeueSerial(p) =>
      && p in s.peers && s.peers[p].len > 0 && s.peers[p].serial != []
      && s.peers[p].serial[0] in s.alive && s.alive[s.peers[p].serial[0]] != Uncrypted
    case Free(pkt) => pkt in s.delivering
  }

  function Apply(s: State, step: Step): State
    requires Enabled(s, step)
  {
    match step
    case NewPeer(p) => s.(peers := s.peers[p := Peer([], 0, [], [])])
    case EnqueueSerial(pkt, p) =>
      var q := s.peers[p];
      var s' := s.(owner := s.owner[pkt := p]);
      if q.len < LIMIT then
        s'.(peers := s.peers[p := Peer(q.serial + [pkt], q.len + 1, q.entered + [pkt], q.left)],
            alive := s.alive[pkt := Uncrypted], inserting := s.inserting + {pkt})
      else s'.(freed := s.freed + multiset{pkt})
    case InsertParallel(pkt) =>
      if s.parallelLen < LIMIT then
        s.(parallel := s.parallel + [pkt], parallelLen := s.parallelLen + 1, inserting := s.inserting - {pkt})
      else s.(failing := s.failing + {pkt}, inserting := s.inserting - {pkt})
    case StoreDead(pkt) => s.(alive := s.alive[pkt := Dead], failing := s.failing - {pkt})
    case TakeParallel =>
      s.(parallel := s.parallel[1..], parallelLen := s.parallelLen - 1, working := s.working + {s.parallel[0]})
    case Finish(pkt, ok) => s.(alive := s.alive[pkt := if ok then Crypted else Dead], working := s.working - {pkt})
    case DequeueSerial(p) =>
      var q := s.peers[p];
      s.(peers := s.peers[p := Peer(q.serial[1..], q.len - 1, q.entered, q.left + [q.serial[0]])],
         delivering := s.delivering + {q.serial[0]})
    case Free(pkt) =>
      s.(alive := s.alive - {pkt}, delivering := s.delivering - {pkt}, freed := s.freed + multiset{pkt})
  }

  // How many producers and workers hold a packet, counting its place on the parallel queue
  function Hands(s: State, pkt: nat): nat {
    (if pkt in s.inserting then 1 else 0) + (if pkt in s.failing then 1 else 0) +
    multiset(s.parallel)[pkt] + (if pkt in s.working then 1 else 0)
  }

  // How often a packet is on its peer's serial queue or with its consumer
  function Places(s: State, pkt: nat): nat {
    (if pkt in s.owner && s.owner[pkt] in s.peers then multiset(s.peers[s.owner[pkt]].serial)[pkt] else 0) +
    (if pkt in s.delivering then 1 else 0)
  }

  ghost predicate PeerOk(owner: map<nat, nat>, p: nat, q: Peer) {
    && q.len == |q.serial| <= LIMIT
    && q.entered == q.left + q.serial
    && (forall pkt :: pkt in q.serial ==> pkt in owner && owner[pkt] == p)
  }

  // A packet is in somebody's hands exactly while it is uncrypted, in one place as long as it is
  // alive, and freed once when it is not.
  ghost predicate PacketOk(s: State, pkt: nat) {
    && Hands(s, pkt) == (if pkt in s.alive && s.alive[pkt] == Uncrypted then 1 else 0)
    && Places(s, pkt) == (if pkt in s.alive then 1 else 0)
    && s.freed[pkt] == (if pkt in s.owner && pkt !in s.alive then 1 else 0)
    && (pkt in s.alive ==> pkt in s.owner)
    && (pkt in s.owner ==> s.owner[pkt] in s.peers)
    && (pkt in s.delivering ==> pkt in s.alive && s.alive[pkt] != Uncrypted)
  }

  ghost predicate Inv(s: State) {
    && s.parallelLen == |s.parallel| <= LIMIT
    && (forall p :: p in s.peers ==> PeerOk(s.owner, p, s.peers[p]))
    && (forall pkt :: PacketOk(s, pkt))
  }

  lemma NewPeerKeeps(s: State, p: nat)
    requires Inv(s) && Enabled(s, NewPeer(p))
    ensures Inv(Apply(s, NewPeer(p)))
  {
    var s' := Apply(s, NewPeer(p));
    forall x
      ensures PacketOk(s', x)
    {
      assert PacketOk(s, x);
    }
  }

  lemma AcceptKeeps(s: State, pkt: nat, p: nat)
    requires Inv(s) && Enabled(s, EnqueueSerial(pkt, p)) && s.peers[p].len < LIMIT
    ensures Inv(Apply(s, EnqueueSerial(pkt, p)))
  {
    assert PeerOk(s.owner, p, s.peers[p]);
    forall x
      ensures PacketOk(Apply(s, EnqueueSerial(pkt, p)), x)
    {
      AcceptPacket(s, pkt, p, x);
    }
    forall c | c in s.peers
      ensures PeerOk(s.owner[pkt := p], c, Apply(s, EnqueueSerial(pkt, p)).peers[c])
    {
      assert PeerOk(s.owner, c, s.peers[c]) && PacketOk(s, pkt);
      hide PacketOk;
    }
    hide PacketOk, PeerOk;
  }

  lemma AcceptPacket(s: State, pkt: nat, p: nat, x: nat)
    requires Enabled(s, EnqueueSerial(pkt, p)) && s.peers[p].len < LIMIT
    requires PeerOk(s.owner, p, s.peers[p]) && PacketOk(s, pkt) && PacketOk(s, x)
    ensures PacketOk(Apply(s, EnqueueSerial(pkt, p)), x)
  {}

  lemma RefuseKeeps(s: State, pkt: nat, p: nat)
    requires Inv(s) && Enabled(s, EnqueueSerial(pkt, p)) && s.peers[p].len >= LIMIT
    ensures Inv(Apply(s, EnqueueSerial(pkt, p)))
  {
    var s' := Apply(s, EnqueueSerial(pkt, p));
    assert PeerOk(s.owner, p, s.peers[p]);
    forall x
      ensures PacketOk(s', x)
    {
      assert PacketOk(s, x);
    }
    forall c | c in s'.peers
      ensures PeerOk(s'.owner, c, s'.peers[c])
    {
      assert PeerOk(s.owner, c, s.peers[c]);
    }
  }

  lemma InsertParallelKeeps(s: State, pkt: nat)
    requires Inv(s) && Enabled(s, InsertParallel(pkt))
    ensures Inv(Apply(s, InsertParallel(pkt)))
  {
    var s' := Apply(s, InsertParallel(pkt));
    forall x
      ensures PacketOk(s', x)
    {
      assert PacketOk(s, x);
    }
  }

  lemma StoreDeadKeeps(s: State, pkt: nat)
    requires Inv(s) && Enabled(s, StoreDead(pkt))
    ensures Inv(Apply(s, StoreDead(pkt)))
  {
    var s' := Apply(s, StoreDead(pkt));
    forall x
      ensures PacketOk(s', x)
    {
      assert PacketOk(s, x);
    }
  }

  lemma TakeParallelKeeps(s: State)
    requires Inv(s) && Enabled(s, TakeParallel)
    ensures Inv(Apply(s, TakeParallel))
  {
    var s' := Apply(s, TakeParallel);
    forall x
      ensures PacketOk(s', x)
    {
      assert PacketOk(s, x);
      assert s.parallel == [s.parallel[0]] + s.parallel[1..];
    }
  }

  lemma FinishKeeps(s: State, pkt: nat, ok: bool)
    requires Inv(s) && Enabled(s, Finish(pkt, ok))
    ensures Inv(Apply(s, Finish(pkt, ok)))
  {
    var s' := Apply(s, Finish(pkt, ok));
    forall x
      ensures PacketOk(s', x)
    {
      assert PacketOk(s, x);
    }
  }

  lemma DequeueKeeps(s: State, p: nat)
    requires Inv(s) && Enabled(s, DequeueSerial(p))
    ensures Inv(Apply(s, DequeueSerial(p)))
  {
    var s', q := Apply(s, DequeueSerial(p)), s.peers[p];
    forall x
      ensures PacketOk(s', x)
    {
      assert PacketOk(s, x);
      assert q.serial == [q.serial[0]] + q.serial[1..];
    }
    forall c | c in s'.peers
      ensures PeerOk(s'.owner, c, s'.peers[c])
    {
      assert PeerOk(s.owner, c, s.peers[c]);
    }
  }

  lemma FreeKeeps(s: State, pkt: nat)
    requires Inv(s) && Enabled(s, Free(pkt))
    ensures Inv(Apply(s, Free(pkt)))
  {
    var s' := Apply(s, Free(pkt));
    forall x
      ensures PacketOk(s', x)
    {
      assert PacketOk(s, x);
    }
  }

  lemma StepKeeps(s: State, step: Step)
    requires Inv(s) && Enabled(s, step)
    ensures Inv(Apply(s, step))
  {
    hide Inv, Apply;
    match step
    case NewPeer(p) => NewPeerKeeps(s, p);
    case EnqueueSerial(pkt, p) =>
      if s.peers[p].len < LIMIT {
        AcceptKeeps(s, pkt, p);
      } else {
        RefuseKeeps(s, pkt, p);
      }
    case InsertParallel(pkt) => InsertParallelKeeps(s, pkt);
    case StoreDead(pkt) => StoreDeadKeeps(s, pkt);
    case TakeParallel => TakeParallelKeeps(s);
    case Finish(pkt, ok) => FinishKeeps(s, pkt, ok);
    case DequeueSerial(p) => DequeueKeeps(s, p);
    case Free(pkt) => FreeKeeps(s, pkt);
  }

  // A step that is not possible is skipped.
  function Exec(s: State, steps: seq<Step>): State
    decreases |steps|
  {
    hide Apply, Enabled;
    if steps == [] then s
    else Exec(if Enabled(s, steps[0]) then Apply(s, steps[0]) else s, steps[1..])
  }

  lemma {:induction false} ExecKeeps(s: State, steps: seq<Step>)
    requires Inv(s)
    ensures Inv(Exec(s, steps))
    decreases |steps|
  {
    hide Inv, Apply, Enabled;
    if steps != [] {
      if Enabled(s, steps[0]) {
        StepKeeps(s, steps[0]);
      }
      ExecKeeps(if Enabled(s, steps[0]) then Apply(s, steps[0]) else s, steps[1..]);
    }
  }

  lemma InitOk()
    ensures Inv(INIT)
  {
    assert forall pkt :: PacketOk(INIT, pkt);
  }

  lemma Reachable(steps: seq<Step>)
    ensures Inv(Exec(INIT, steps))
  {
    hide Exec;
    InitOk();
    ExecKeeps(INIT, steps);
  }

  // In every schedule, the packets of a peer leave its serial queue in the order they entered it,
  // and both queues are as long as their counters say and no longer than the limit.
  lemma InOrder(steps: seq<Step>, p: nat)
    ensures var s := Exec(INIT, steps);
            && s.parallelLen == |s.parallel| <= LIMIT
            && (p in s.peers ==>
                  var q := s.peers[p];
                  q.entered == q.left + q.serial && q.len == |q.serial| <= LIMIT)
  {
    hide Exec, PacketOk;
    Reachable(steps);
  }

  // A packet is refused, and one is stored dead without a worker, only when the queue in question
  // holds 1024 packets.
  lemma RoomDecides(steps: seq<Step>, pkt: nat, p: nat)
    ensures var s := Exec(INIT, steps);
            && (Enabled(s, EnqueueSerial(pkt, p)) ==>
                  var s', serial := Apply(s, EnqueueSerial(pkt, p)), s.peers[p].serial;
                  if |serial| == 1024 then s'.peers == s.peers && s'.freed == s.freed + multiset{pkt} && pkt !in s'.inserting
                  else s'.peers[p].serial == serial + [pkt] && pkt in s'.inserting && s'.freed == s.freed)
            && (Enabled(s, InsertParallel(pkt)) ==>
                  var s' := Apply(s, InsertParallel(pkt));
                  if |s.parallel| == 1024 then s'.parallel == s.parallel && Enabled(s', StoreDead(pkt))
                  else s'.parallel == s.parallel + [pkt] && s'.failing == s.failing)
  {
    hide Exec;
    Reachable(steps);
    assert PacketOk(Exec(INIT, steps), pkt);
    hide PacketOk;
  }

  // A packet that leaves is in no producer's or worker's hands, nor on the parallel queue, and
  // never gets there again.
  lemma LeavesAlone(steps: seq<Step>, p: nat, later: seq<Step>)
    requires Enabled(Exec(INIT, steps), DequeueSerial(p))
    ensures var s := Exec(INIT, steps);
            var pkt := s.peers[p].serial[0];
            && Hands(s, pkt) == 0 && s.freed[pkt] == 0
            && Hands(Exec(Apply(s, DequeueSerial(p)), later), pkt) == 0
  {
    hide Exec;
    Reachable(steps);
    var s := Exec(INIT, steps);
    var pkt := s.peers[p].serial[0];
    assert PacketOk(s, pkt);
    DequeueKeeps(s, p);
    var t := Apply(s, DequeueSerial(p));
    assert PacketOk(t, pkt);
    StaysAlone(t, later, pkt);
  }

  // Done with: known, and in nobody's hands
  ghost predicate Done(s: State, pkt: nat) {
    pkt in s.owner && !(pkt in s.alive && s.alive[pkt] == Uncrypted)
  }

  lemma {:induction false} StaysAlone(s: State, steps: seq<Step>, pkt: nat)
    requires Inv(s) && Done(s, pkt)
    ensures Hands(Exec(s, steps), pkt) == 0
    decreases |steps|
  {
    assert PacketOk(s, pkt);
    if steps != [] {
      if Enabled(s, steps[0]) {
        StepKeeps(s, steps[0]);
        StaysDone(s, steps[0], pkt);
      }
      hide Apply, Enabled, Inv, Done;
      StaysAlone(if Enabled(s, steps[0]) then Apply(s, steps[0]) else s, steps[1..], pkt);
    }
  }

  lemma StaysDone(s: State, step: Step, pkt: nat)
    requires Inv(s) && Enabled(s, step) && Done(s, pkt)
    ensures Done(Apply(s, step), pkt)
  {
    assert PacketOk(s, pkt);
  }

  // Every accepted packet is either still on its peer's queue or with its consumer, or it has been
  // freed exactly once.
  lemma FreedOnce(steps: seq<Step>, pkt: nat)
    ensures var s := Exec(INIT, steps);
            pkt in s.owner ==> s.freed[pkt] + Places(s, pkt) == 1
  {
    hide Exec;
    Reachable(steps);
    assert PacketOk(Exec(INIT, steps), pkt);
  }

  // The steps of a schedule that were possible, in order
  function Ran(s: State, steps: seq<Step>): seq<Step>
    decreases |steps|
  {
    hide Apply, Enabled;
    if steps == [] then []
    else if Enabled(s, steps[0]) then [steps[0]] + Ran(Apply(s, steps[0]), steps[1..])
    else Ran(s, steps[1..])
  }

  // How often a packet was stored as crypted, and as dead
  function Successes(ran: seq<Step>, pkt: nat): nat {
    multiset(ran)[Finish(pkt, true)]
  }

  function Failures(ran: seq<Step>, pkt: nat): nat {
    multiset(ran)[Finish(pkt, false)] + multiset(ran)[StoreDead(pkt)]
  }

  ghost predicate Told(ran: seq<Step>, s: State, pkt: nat) {
    && (pkt !in s.owner || (pkt in s.alive && s.alive[pkt] == Uncrypted) ==> Successes(ran, pkt) == Failures(ran, pkt) == 0)
    && (pkt in s.alive && s.alive[pkt] == Crypted ==> Successes(ran, pkt) == 1 && Failures(ran, pkt) == 0)
    && (pkt in s.alive && s.alive[pkt] == Dead ==> Successes(ran, pkt) == 0 && Failures(ran, pkt) == 1)
    && Successes(ran, pkt) + Failures(ran, pkt) <= 1
  }

  lemma ToldKeeps(ran: seq<Step>, s: State, step: Step, pkt: nat)
    requires Inv(s) && Enabled(s, step) && Told(ran, s, pkt)
    ensures Told(ran + [step], Apply(s, step), pkt)
  {
    CountsMore(ran, step, pkt);
    assert PacketOk(s, pkt);
    hide PacketOk, Successes, Failures;
  }

  lemma CountsMore(ran: seq<Step>, step: Step, pkt: nat)
    ensures Successes(ran + [step], pkt) == Successes(ran, pkt) + if step == Finish(pkt, true) then 1 else 0
    ensures Failures(ran + [step], pkt) == Failures(ran, pkt) + if step == Finish(pkt, false) || step == StoreDead(pkt) then 1 else 0
  {}

  lemma {:induction false} ExecTells(ran: seq<Step>, s: State, steps: seq<Step>, pkt: nat)
    requires Inv(s) && Told(ran, s, pkt)
    ensures Told(ran + Ran(s, steps), Exec(s, steps), pkt)
    decreases |steps|
  {
    hide Inv, Apply, Enabled, Told;
    if steps == [] {
      assert ran + [] == ran;
    } else if Enabled(s, steps[0]) {
      var s' := Apply(s, steps[0]);
      StepKeeps(s, steps[0]);
      ToldKeeps(ran, s, steps[0], pkt);
      ExecTells(ran + [steps[0]], s', steps[1..], pkt);
      assert ran + [steps[0]] + Ran(s', steps[1..]) == ran + Ran(s, steps);
    } else {
      ExecTells(ran, s, steps[1..], pkt);
    }
  }

  // In every schedule a packet that a consumer finds crypted was finished by a worker with success,
  // one that it finds dead was finished without or had no room on the parallel queue, and no packet
  // ever has two outcomes.
  lemma Outcome(steps: seq<Step>, pkt: nat)
    ensures var s, ran := Exec(INIT, steps), Ran(INIT, steps);
            && Successes(ran, pkt) + Failures(ran, pkt) <= 1
            && (pkt in s.alive ==>
                  && (s.alive[pkt] == Crypted <==> Finish(pkt, true) in ran)
                  && (s.alive[pkt] == Dead <==> Finish(pkt, false) in ran || StoreDead(pkt) in ran))
  {
    hide Exec, Ran, Inv;
    InitOk();
    ExecTells([], INIT, steps, pkt);
    assert [] + Ran(INIT, steps) == Ran(INIT, steps);
  }

  // What leaves the serial queue carries its outcome until it is freed.
  lemma LeavesWithOutcome(steps: seq<Step>, p: nat)
    requires Enabled(Exec(INIT, steps), DequeueSerial(p))
    ensures var s, ran := Exec(INIT, steps), Ran(INIT, steps);
            var pkt := s.peers[p].serial[0];
            s.alive[pkt] == if Finish(pkt, true) in ran then Crypted else Dead
  {
    hide Exec, Ran, Inv;
    Outcome(steps, Exec(INIT, steps).peers[p].serial[0]);
  }

  // Work that is left: what a packet still has to go through
  function Work(s: State): int {
    4 * |s.inserting| + 3 * |s.parallel| + 2 * |s.failing| + 2 * |s.working| + 2 * |s.alive| - |s.delivering|
  }

  // A step that a packet in the queues waits for
  predicate Forward(step: Step) {
    !step.NewPeer? && !step.EnqueueSerial?
  }

  lemma WorkNotNegative(s: State)
    requires Inv(s)
    ensures Work(s) >= 0
  {
    assert s.delivering <= s.alive.Keys by {
      forall pkt | pkt in s.delivering
        ensures pkt in s.alive
      {
        assert PacketOk(s, pkt);
      }
    }
    Smaller(s.delivering, s.alive.Keys);
    assert |s.alive.Keys| == |s.alive|;
  }

  lemma {:induction false} Smaller(a: set<nat>, b: set<nat>)
    requires a <= b
    ensures |a| <= |b|
  {
    assert b == a + (b - a);
  }

  // While packets are alive some step is possible that brings one of them forward.
  lemma SomeStep(s: State) returns (step: Step)
    requires Inv(s) && s.alive != map[]
    ensures Forward(step) && Enabled(s, step)
  {
    if s.parallel != [] {
      return TakeParallel;
    } else if s.working != {} {
      var pkt :| pkt in s.working;
      return Finish(pkt, true);
    } else if s.inserting != {} {
      var pkt :| pkt in s.inserting;
      return InsertParallel(pkt);
    } else if s.failing != {} {
      var pkt :| pkt in s.failing;
      return StoreDead(pkt);
    } else if s.delivering != {} {
      var pkt :| pkt in s.delivering;
      return Free(pkt);
    }
    var pkt :| pkt in s.alive;
    assert PacketOk(s, pkt);
    var p := s.owner[pkt];
    assert PeerOk(s.owner, p, s.peers[p]);
    var head := s.peers[p].serial[0];
    assert PacketOk(s, head);
    step := DequeueSerial(p);
  }

  lemma LessWork(s: State, step: Step)
    requires Inv(s) && Forward(step) && Enabled(s, step)
    ensures Work(Apply(s, step)) < Work(s)
  {
    if step.DequeueSerial? {
      var head := s.peers[step.p].serial[0];
      assert PacketOk(s, head) && PeerOk(s.owner, step.p, s.peers[step.p]);
      assert head !in s.delivering;
      hide Inv;
    } else {
      var pkt := if step.TakeParallel? then s.parallel[0] else step.pkt;
      assert PacketOk(s, pkt);
      hide Inv;
      if step.Finish? || step.StoreDead? {
        LessStored(s, step);
      } else {
        LessMoved(s, step, pkt);
      }
      hide PacketOk, Apply, Work, Enabled;
    }
  }

  lemma LessStored(s: State, step: Step)
    requires (step.Finish? || step.StoreDead?) && Enabled(s, step) && PacketOk(s, step.pkt)
    ensures Work(Apply(s, step)) < Work(s)
  {
    assert step.pkt in s.alive;
    SameSize(s.alive, step.pkt, Dead);
    SameSize(s.alive, step.pkt, Crypted);
    hide PacketOk;
  }

  lemma LessMoved(s: State, step: Step, pkt: nat)
    requires (step.InsertParallel? || step.TakeParallel? || step.Free?) && Enabled(s, step) && PacketOk(s, pkt)
    requires pkt == if step.TakeParallel? then s.parallel[0] else step.pkt
    ensures Work(Apply(s, step)) < Work(s)
  {
    if step.Free? {
      OneLess(s.alive, pkt);
      hide PacketOk;
    }
  }

  lemma SameSize(alive: map<nat, Progress>, pkt: nat, p: Progress)
    requires pkt in alive
    ensures |alive[pkt := p]| == |alive|
  {
    assert alive[pkt := p].Keys == alive.Keys;
    assert |alive[pkt := p]| == |alive[pkt := p].Keys| && |alive| == |alive.Keys|;
  }

  lemma OneLess(alive: map<nat, Progress>, pkt: nat)
    requires pkt in alive
    ensures |alive - {pkt}| == |alive| - 1
  {
    assert (alive - {pkt}).Keys == alive.Keys - {pkt};
    assert |alive - {pkt}| == |(alive - {pkt}).Keys| && |alive| == |alive.Keys|;
  }

  // Nothing is stuck: from every reachable state, without any new packet, a schedule leads to a
  // state with empty queues in which every packet has been freed.
  lemma Drains(steps: seq<Step>) returns (more: seq<Step>)
    ensures var s := Exec(Exec(INIT, steps), more);
            && (forall step :: step in more ==> Forward(step))
            && s.alive == map[] && s.parallel == []
            && (forall p :: p in s.peers ==> s.peers[p].serial == [] && s.peers[p].left == s.peers[p].entered)
            && (forall pkt :: pkt in s.owner ==> s.freed[pkt] == 1)
  {
    hide Exec;
    Reachable(steps);
    more := DrainFrom(Exec(INIT, steps));
  }

  lemma {:induction false} DrainFrom(s: State) returns (more: seq<Step>)
    requires Inv(s)
    ensures var t := Exec(s, more);
            && (forall step :: step in more ==> Forward(step))
            && t.alive == map[] && t.parallel == []
            && (forall p :: p in t.peers ==> t.peers[p].serial == [] && t.peers[p].left == t.peers[p].entered)
            && (forall pkt :: pkt in t.owner ==> t.freed[pkt] == 1)
    decreases Work(s)
  {
    WorkNotNegative(s);
    if s.alive == map[] {
      more := [];
      AllFreed(s);
      assert Exec(s, []) == s;
    } else {
      var step := SomeStep(s);
      StepKeeps(s, step);
      LessWork(s, step);
      WorkNotNegative(Apply(s, step));
      var rest := DrainFrom(Apply(s, step));
      hide Inv, Apply, Enabled, Forward, Work;
      more := [step] + rest;
      assert more[1..] == rest;
    }
  }

  lemma QueuedAlive(s: State)
    requires Inv(s)
    ensures s.parallel != [] ==> s.alive != map[]
    ensures forall p :: p in s.peers && s.peers[p].serial != [] ==> s.alive != map[]
  {
    if s.parallel != [] {
      assert PacketOk(s, s.parallel[0]);
    }
    forall p | p in s.peers && s.peers[p].serial != []
      ensures s.alive != map[]
    {
      assert PeerOk(s.owner, p, s.peers[p]) && PacketOk(s, s.peers[p].serial[0]);
    }
  }

  lemma AllFreed(s: State)
    requires Inv(s) && s.alive == map[]
    ensures s.parallel == [] && forall pkt :: pkt in s.owner ==> s.freed[pkt] == 1
    ensures forall p :: p in s.peers ==> s.peers[p].serial == [] && s.peers[p].left == s.peers[p].entered
  {
    QueuedAlive(s);
    forall pkt | pkt in s.owner
      ensures s.freed[pkt] == 1
    {
      assert PacketOk(s, pkt);
    }
    forall p | p in s.peers
      ensures s.peers[p].serial == [] && s.peers[p].left == s.peers[p].entered
    {
      assert PeerOk(s.owner, p, s.peers[p]);
      assert s.peers[p].left + [] == s.peers[p].left;
    }
  }
}
