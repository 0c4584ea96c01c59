/**
 Shutting down a peer's timers (src/if_wg.c:966-1187). Every load, store, callout call and
 epoch operation is one step. Each handler is a section between NET_EPOCH_ENTER and
 NET_EPOCH_EXIT that loads p_enabled and resets callouts only if it was true; which handler it
 is, and which callouts it resets, is left open.
 */
module Timers {
  datatype Callout = NewHandshake | SendKeepalive | RetryHandshake | PersistentKeepalive | ZeroKeyMaterial

  // The order in which wg_timers_disable stops them
  const ORDER: seq<Callout> := [NewHandshake, SendKeepalive, RetryHandshake, PersistentKeepalive, ZeroKeyMaterial]

  datatype Section =
    | Entered     // has not loaded p_enabled yet
    | MayReset    // saw it true
    | Skips       // saw it false

  // Where the thread that configures the peer is
  datatype Control =
    | Running                    // since wg_timers_enable
    | Stored                     // wg_timers_disable has stored false
    | Waiting(former: set<nat>)  // in NET_EPOCH_WAIT, for the sections that were open when it began
    | Stopping(next: nat)        // callout_stop of ORDER[next] is next
    | Disabled                   // wg_timers_disable has returned

  datatype State = State(
    enabled: bool,
    sections: map<nat, Section>,   // open epoch sections, of any thread, nested ones too
    closed: set<nat>,              // their numbers are not used again
    pending: set<Callout>,
    control: Control)

  // A peer is allocated disabled.
  const INIT: State := State(false, map[], {}, {}, Disabled)

  datatype Step =
    | Enter(id: nat)
    | Load(id: nat)
    | Reset(id: nat, c: Callout)
    | Exit(id: nat)
    | Stop(c: Callout)             // callout_stop in a handler, which needs no section
    | Fire(c: Callout)
    | StoreFalse
    | BeginWait
    | EndWait
    | StopNext
    | Enable

  predicate Enabled(s: State, step: Step) {
    match step
    case Enter(id) => id !in s.sections && id !in s.closed
    case Load(id) => id in s.sections && s.sections[id].Entered?
    case Reset(id, _) => id in s.sections && s.sections[id].MayReset?
    case Exit(id) => id in s.sections
    case Stop(_) => true
    case Fire(c) => c in s.pending
    case StoreFalse => s.control.Running? || s.control.Disabled?
    case BeginWait => s.control.Stored?
    case EndWait => s.control.Waiting? && s.control.former !! s.sections.Keys
    case StopNext => s.control.Stopping? && s.control.next < |ORDER|
    case Enable => s.control.Running? || s.control.Disabled?
  }

  // `waits` is true of wg_timers_disable; false is the same function without NET_EPOCH_WAIT.
  function Apply(waits: bool, s: State, step: Step): State
    requires Enabled(s, step)
  {
    match step
    case Enter(id) => s.(sections := s.sections[id := Entered])
    case Load(id) => s.(sections := s.sections[id := if s.enabled then MayReset else Skips])
    case Reset(_, c) => s.(pending := s.pending + {c})
    case Exit(id) => s.(sections := s.sections - {id}, closed := s.closed + {id})
    case Stop(c) => s.(pending := s.pending - {c})
    case Fire(c) => s.(pending := s.pending - {c})
    case StoreFalse => s.(enabled := false, control := Stored)
    case BeginWait => s.(control := if waits then Waiting(s.sections.Keys) else Stopping(0))
    case EndWait => s.(control := Stopping(0))
    case StopNext =>
      var i := s.control.next;
      s.(pending := s.pending - {ORDER[i]}, control := if i + 1 == |ORDER| then Disabled else Stopping(i + 1))
    case Enable => s.(enabled := true, control := Running)
  }

  predicate MayResetIn(s: State, id: nat) {
    id in s.sections && s.sections[id].MayReset?
  }

  // Sections that saw true are older than the store; the wait outlasts them; each stop then holds.
  ghost predicate Inv(s: State) {
    && (s.enabled <==> s.control.Running?)
    && match s.control
       case Running => true
       case Stored => true
       case Waiting(former) => forall id :: MayResetIn(s, id) ==> id in former
       case Stopping(next) =>
         && next < |ORDER|
         && (forall id :: !MayResetIn(s, id))
         && (forall i :: 0 <= i < next ==> ORDER[i] !in s.pending)
       case Disabled => (forall id :: !MayResetIn(s, id)) && s.pending == {}
  }

  lemma StepKeeps(s: State, step: Step)
    requires Inv(s) && Enabled(s, step)
    ensures Inv(Apply(true, s, step))
  {
    var s' := Apply(true, s, step);
    assert forall id :: MayResetIn(s', id) ==> MayResetIn(s, id) || (step == Load(id) && s.enabled);
    assert step.Reset? ==> MayResetIn(s, step.id);
    if step.StopNext? && s.control.next + 1 == |ORDER| {
      forall c: Callout
        ensures c !in s'.pending
      {
        assert c in ORDER by {
          Listed(c);
        }
      }
    }
  }

  lemma Listed(c: Callout)
    ensures c in ORDER
  {
    match c
    case NewHandshake => assert ORDER[0] == c;
    case SendKeepalive => assert ORDER[1] == c;
    case RetryHandshake => assert ORDER[2] == c;
    case PersistentKeepalive => assert ORDER[3] == c;
    case ZeroKeyMaterial => assert ORDER[4] == c;
  }

  function Exec(waits: bool, s: State, steps: seq<Step>): State
    decreases |steps|
  {
    if steps == [] then s
    else Exec(waits, if Enabled(s, steps[0]) then Apply(waits, s, steps[0]) else s, steps[1..])
  }

  lemma {:induction false} ExecKeeps(s: State, steps: seq<Step>)
    requires Inv(s)
    ensures Inv(Exec(true, s, steps))
    decreases |steps|
  {
    hide Inv, Apply, Enabled;
    if steps != [] {
      if Enabled(s, steps[0]) {
        StepKeeps(s, steps[0]);
      }
      ExecKeeps(if Enabled(s, steps[0]) then Apply(true, s, steps[0]) else s, steps[1..]);
    }
  }

  // In every schedule, from when wg_timers_disable returns until the peer is enabled again, no
  // callout is pending and no handler is about to reset one.
  lemma NothingPending(steps: seq<Step>)
    ensures var s := Exec(true, INIT, steps);
            s.control.Disabled? ==> s.pending == {} && forall id :: !MayResetIn(s, id)
  {
    hide Exec;
    ExecKeeps(INIT, steps);
  }

  lemma ExecOne(waits: bool, s: State, step: Step, rest: seq<Step>)
    requires Enabled(s, step)
    ensures Exec(waits, s, [step] + rest) == Exec(waits, Apply(waits, s, step), rest)
  {
    var steps := [step] + rest;
    assert steps[0] == step && steps[1..] == rest;
  }

  // A handler has seen p_enabled true when false is stored.
  const CAUGHT: State := State(false, map[0 := MayReset], {}, {}, Stored)

  lemma Caught(waits: bool, rest: seq<Step>)
    ensures Exec(waits, INIT, [Enable] + ([Enter(0)] + ([Load(0)] + ([StoreFalse] + rest)))) == Exec(waits, CAUGHT, rest)
  {
    hide Exec;
    var s1 := State(true, map[], {}, {}, Running);
    var s2 := s1.(sections := map[0 := Entered]);
    var s3 := s1.(sections := map[0 := MayReset]);
    assert Apply(waits, s1, Enter(0)) == s2 && Apply(waits, s2, Load(0)) == s3 && Apply(waits, s3, StoreFalse) == CAUGHT;
    ExecOne(waits, INIT, Enable, [Enter(0)] + ([Load(0)] + ([StoreFalse] + rest)));
    ExecOne(waits, s1, Enter(0), [Load(0)] + ([StoreFalse] + rest));
    ExecOne(waits, s2, Load(0), [StoreFalse] + rest);
    ExecOne(waits, s3, StoreFalse, rest);
  }

  // The stops are needed: a callout can be reset after the store of false, when nothing was
  // pending, and be pending when the wait is over.
  lemma ResetsAfterStore() returns (before: seq<Step>, after: seq<Step>)
    ensures var s := Exec(true, INIT, before);
            && s.control.Waiting? && !s.enabled && s.pending == {} && Enabled(s, Reset(0, NewHandshake))
            && var t := Exec(true, Apply(true, s, Reset(0, NewHandshake)), after);
            t.control == Stopping(0) && t.pending == {NewHandshake}
  {
    hide Exec;
    before := [Enable] + ([Enter(0)] + ([Load(0)] + ([StoreFalse] + ([BeginWait] + []))));
    Caught(true, [BeginWait] + []);
    ExecOne(true, CAUGHT, BeginWait, []);
    var s := CAUGHT.(control := Waiting(CAUGHT.sections.Keys));
    assert Apply(true, CAUGHT, BeginWait) == s;
    ExecNone(true, s);
    after := [Exit(0)] + ([EndWait] + []);
    var s1 := s.(pending := {NewHandshake});
    var s2 := s1.(sections := map[], closed := {0});
    assert Apply(true, s, Reset(0, NewHandshake)) == s1 && Apply(true, s1, Exit(0)) == s2;
    ExecOne(true, s1, Exit(0), [EndWait] + []);
    ExecOne(true, s2, EndWait, []);
    ExecNone(true, s2.(control := Stopping(0)));
  }

  lemma ExecNone(waits: bool, s: State)
    ensures Exec(waits, s, []) == s
  {}

  // Without the wait the same handler can reset its callout after every stop.
  lemma PendingWithoutWait() returns (steps: seq<Step>)
    ensures var s := Exec(false, INIT, steps);
            s.control.Disabled? && s.pending == {NewHandshake}
  {
    hide Exec;
    var last := [Reset(0, NewHandshake)] + [];
    steps := [BeginWait] + ([StopNext] + ([StopNext] + ([StopNext] + ([StopNext] + ([StopNext] + last)))));
    ExecOne(false, CAUGHT, BeginWait, [StopNext] + ([StopNext] + ([StopNext] + ([StopNext] + ([StopNext] + last)))));
    StopNothing(0, [StopNext] + ([StopNext] + ([StopNext] + ([StopNext] + last))));
    StopNothing(1, [StopNext] + ([StopNext] + ([StopNext] + last)));
    StopNothing(2, [StopNext] + ([StopNext] + last));
    StopNothing(3, [StopNext] + last);
    StopNothing(4, last);
    var s := AtStop(5);
    assert Apply(false, s, Reset(0, NewHandshake)) == s.(pending := {NewHandshake});
    ExecOne(false, s, Reset(0, NewHandshake), []);
    ExecNone(false, s.(pending := {NewHandshake}));
    Caught(false, steps);
    steps := [Enable] + ([Enter(0)] + ([Load(0)] + ([StoreFalse] + steps)));
  }

  function AtStop(k: nat): State {
    CAUGHT.(control := if k == 5 then Disabled else Stopping(k))
  }

  // A stop when nothing is pending
  lemma StopNothing(k: nat, rest: seq<Step>)
    requires k < 5
    ensures Exec(false, AtStop(k), [StopNext] + rest) == Exec(false, AtStop(k + 1), rest)
  {
    hide Exec;
    assert Apply(false, AtStop(k), StopNext) == AtStop(k + 1);
    ExecOne(false, AtStop(k), StopNext, rest);
  }

  // So the wait is exactly what makes the shutdown safe.
  lemma SafeExactly(waits: bool)
    ensures (forall steps: seq<Step> :: Exec(waits, INIT, steps).control.Disabled? ==> Exec(waits, INIT, steps).pending == {}) <==> waits
  {
    hide Exec;
    if waits {
      forall steps: seq<Step>
        ensures Exec(waits, INIT, steps).control.Disabled? ==> Exec(waits, INIT, steps).pending == {}
      {
        NothingPending(steps);
      }
    } else {
      var steps := PendingWithoutWait();
      assert Exec(waits, INIT, steps).control.Disabled? && Exec(waits, INIT, steps).pending != {};
    }
  }
}
