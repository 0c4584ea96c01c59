/**
 The send nonce of a keypair under concurrent callers (src/wg_noise.c:792-809). Each atomic
 instruction of noise_keypair_nonce_next is one step; a schedule is any sequence of steps of a
 fixed number of callers, each of which may call again and again.
 */
module SendCounter {
  import opened Machine
  import opened CounterLimits

  datatype Phase =
    | Idle
    | Ready      // saw can_send true, has not fetched a nonce yet
    | MustClear  // fetched a nonce that is too large, has not stored false yet

  datatype State = State(
    counter: u64,            // kp_nonce_send
    canSend: bool,           // kp_can_send
    callers: seq<Phase>,
    sent: seq<int>,          // nonces returned with success so far
    fetches: nat,            // how often the counter was incremented
    overshot: set<nat>)      // callers that ever fetched a nonce that is too large

  datatype Step =
    | Load(c: nat)
    | Fetch(c: nat)
    | Clear(c: nat)
    | Expire                 // noise_remote_expire_current

  function Init(k: nat): State {
    State(0, true, seq(k, _ => Idle), [], 0, {})
  }

  // A step that its caller is not about to take changes nothing.
  function Apply(s: State, step: Step): State {
    match step
    case Load(c) =>
      if c < |s.callers| && s.callers[c] == Idle && s.canSend then s.(callers := s.callers[c := Ready]) else s
    case Fetch(c) =>
      if !(c < |s.callers| && s.callers[c] == Ready) then s
      else
        var s' := s.(counter := (s.counter + 1) % 0x1_0000_0000_0000_0000, fetches := s.fetches + 1);
        if s.counter < REJECT then s'.(callers := s.callers[c := Idle], sent := s.sent + [s.counter])
        else s'.(callers := s.callers[c := MustClear], overshot := s.overshot + {c})
    case Clear(c) =>
      if c < |s.callers| && s.callers[c] == MustClear then s.(canSend := false, callers := s.callers[c := Idle]) else s
    case Expire => s.(canSend := false)
  }

  function Exec(s: State, steps: seq<Step>): State
    decreases |steps|
  {
    if steps == [] then s else Exec(Apply(s, steps[0]), steps[1..])
  }

  // Safety for few callers

  function Min(a: int, b: int): int {
    if a < b then a else b
  }

  // A caller overshoots at most once: it is then about to store false, or false has been stored.
  ghost predicate Inv(s: State) {
    && s.counter == s.fetches % 0x1_0000_0000_0000_0000
    && (forall c :: c in s.overshot ==> c < |s.callers|)
    && (forall c :: 0 <= c < |s.callers| && s.callers[c] == MustClear ==> c in s.overshot)
    && (forall c :: 0 <= c < |s.callers| && s.callers[c] == Ready ==> c !in s.overshot)
    && (s.canSend ==> forall c :: c in s.overshot ==> s.callers[c] == MustClear)
    && (s.overshot == {} ==> s.fetches <= REJECT)
    && (s.overshot != {} ==> s.fetches == REJECT + |s.overshot|)
    && |s.sent| == Min(s.fetches, REJECT)
    && (forall i :: 0 <= i < |s.sent| ==> s.sent[i] == i)
  }

  lemma {:induction false} FewElements(elems: set<nat>, k: nat)
    requires forall c :: c in elems ==> c < k
    ensures |elems| <= k
  {
    if k > 0 {
      var rest := elems - {k - 1};
      FewElements(rest, k - 1);
      assert k - 1 in elems ==> elems == rest + {k - 1};
      assert k - 1 !in elems ==> elems == rest;
    } else {
      assert elems == {};
    }
  }

  // The number fetched is the true count: the counter has not wrapped when anybody fetches.
  lemma FetchBelow(s: State, c: nat)
    requires Inv(s) && |s.callers| <= WINDOW + 2 && c < |s.callers| && s.callers[c] == Ready
    ensures s.counter == s.fetches < 0x1_0000_0000_0000_0000
  {
    FewElements(s.overshot + {c}, |s.callers|);
    assert |s.overshot + {c}| == |s.overshot| + 1;
  }

  lemma InvSend(s: State, c: nat)
    requires Inv(s) && c < |s.callers| && s.callers[c] == Ready && s.counter == s.fetches < REJECT
    ensures Inv(Apply(s, Fetch(c)))
  {}

  lemma InvOvershoot(s: State, c: nat)
    requires Inv(s) && c < |s.callers| && s.callers[c] == Ready && s.counter == s.fetches >= REJECT
    ensures Inv(Apply(s, Fetch(c)))
  {
    assert |s.overshot + {c}| == |s.overshot| + 1;
  }

  lemma InvFetch(s: State, c: nat)
    requires Inv(s) && |s.callers| <= WINDOW + 2 && c < |s.callers| && s.callers[c] == Ready
    ensures Inv(Apply(s, Fetch(c)))
  {
    FetchBelow(s, c);
    hide Inv, Apply;
    if s.counter < REJECT {
      InvSend(s, c);
    } else {
      InvOvershoot(s, c);
    }
  }

  lemma InvStep(s: State, step: Step)
    requires Inv(s) && |s.callers| <= WINDOW + 2
    ensures Inv(Apply(s, step)) && |Apply(s, step).callers| == |s.callers|
  {
    if step.Fetch? {
      if step.c < |s.callers| && s.callers[step.c] == Ready {
        InvFetch(s, step.c);
        hide Inv;
      }
    }
  }

  lemma {:induction false} InvExec(s: State, steps: seq<Step>)
    requires Inv(s) && |s.callers| <= WINDOW + 2
    ensures Inv(Exec(s, steps)) && |Exec(s, steps).callers| == |s.callers|
    decreases |steps|
  {
    if steps != [] {
      InvStep(s, steps[0]);
      InvExec(Apply(s, steps[0]), steps[1..]);
    }
  }

  // With at most COUNTER_WINDOW_SIZE + 2 callers, every schedule hands out 0, 1, 2, ... in the
  // order of the fetches, all below REJECT_AFTER_MESSAGES, and no fetch returns a wrapped value.
  lemma Safety(k: nat, steps: seq<Step>)
    requires k <= WINDOW + 2
    ensures var s := Exec(Init(k), steps);
            && |s.callers| == k && |s.sent| <= REJECT
            && (forall i :: 0 <= i < |s.sent| ==> s.sent[i] == i)
            && (forall c :: 0 <= c < k && s.callers[c] == Ready ==> s.counter == s.fetches)
  {
    InvExec(Init(k), steps);
    var s := Exec(Init(k), steps);
    forall c | 0 <= c < k && s.callers[c] == Ready
      ensures s.counter == s.fetches
    {
      FetchBelow(s, c);
    }
  }

  // A repeated nonce for more callers

  lemma {:induction false} ExecAppend(s: State, a: seq<Step>, b: seq<Step>)
    ensures Exec(s, a + b) == Exec(Exec(s, a), b)
    decreases |a|
  {
    if a == [] {
      assert a + b == b;
    } else {
      assert (a + b)[1..] == a[1..] + b;
      ExecAppend(Apply(s, a[0]), a[1..], b);
    }
  }

  lemma ExecNone(s: State)
    ensures Exec(s, []) == s
  {}

  lemma ExecSnoc(s: State, a: seq<Step>, step: Step)
    ensures Exec(s, a + [step]) == Apply(Exec(s, a), step)
  {
    ExecAppend(s, a, [step]);
    assert [step][1..] == [];
    assert Exec(Apply(Exec(s, a), step), []) == Apply(Exec(s, a), step);
  }

  // Caller 0 calls n times on its own.
  function Serial(n: nat): seq<Step> {
    if n == 0 then [] else Serial(n - 1) + [Load(0)] + [Fetch(0)]
  }

  lemma {:induction false} SerialRun(k: nat, n: nat)
    requires k > 0 && n <= REJECT
    ensures var s := Exec(Init(k), Serial(n));
            && s.counter == n && s.canSend && s.callers == seq(k, _ => Idle)
            && |s.sent| == n && (n > 0 ==> s.sent[0] == 0)
  {
    if n > 0 {
      SerialRun(k, n - 1);
      ExecSnoc(Init(k), Serial(n - 1), Load(0));
      ExecSnoc(Init(k), Serial(n - 1) + [Load(0)], Fetch(0));
    }
  }

  // Callers 0 to m - 1 look at can_send.
  function Loads(m: nat): seq<Step> {
    if m == 0 then [] else Loads(m - 1) + [Load(m - 1)]
  }

  lemma {:induction false} LoadsRun(s: State, m: nat)
    requires s.canSend && m <= |s.callers| && forall c :: 0 <= c < |s.callers| ==> s.callers[c] == Idle
    ensures var s' := Exec(s, Loads(m));
            && s'.counter == s.counter && s'.canSend && s'.sent == s.sent && |s'.callers| == |s.callers|
            && (forall c :: 0 <= c < m ==> s'.callers[c] == Ready)
            && (forall c :: m <= c < |s.callers| ==> s'.callers[c] == Idle)
  {
    if m > 0 {
      LoadsRun(s, m - 1);
      ExecSnoc(s, Loads(m - 1), Load(m - 1));
    }
  }

  // Then they all fetch.
  function Fetches(m: nat): seq<Step> {
    if m == 0 then [] else Fetches(m - 1) + [Fetch(m - 1)]
  }

  lemma {:induction false} FetchesRun(s: State, m: nat)
    requires s.counter == REJECT && m <= |s.callers| && m <= WINDOW + 2
    requires forall c :: 0 <= c < |s.callers| ==> s.callers[c] == Ready
    ensures var s' := Exec(s, Fetches(m));
            && s'.counter == (REJECT + m) % 0x1_0000_0000_0000_0000 && s'.sent == s.sent && |s'.callers| == |s.callers|
            && (forall c :: m <= c < |s.callers| ==> s'.callers[c] == Ready)
  {
    hide Exec;
    if m == 0 {
      assert Exec(s, []) == s by {
        ExecNone(s);
      }
    } else {
      FetchesRun(s, m - 1);
      ExecSnoc(s, Fetches(m - 1), Fetch(m - 1));
    }
  }

  // One caller more than COUNTER_WINDOW_SIZE + 2 and the counter comes round to 0 while it is
  // about to fetch.
  lemma Wraps(k: nat) returns (steps: seq<Step>)
    requires k > WINDOW + 2
    ensures var s := Exec(Init(k), steps);
            |s.sent| == REJECT + 1 && s.sent[0] == s.sent[REJECT] == 0
  {
    hide Exec, Serial, Loads, Fetches;
    SerialRun(k, REJECT);
    var s1 := Exec(Init(k), Serial(REJECT));
    LoadsRun(s1, k);
    var s2 := Exec(s1, Loads(k));
    FetchesRun(s2, WINDOW + 2);
    var s3 := Exec(s2, Fetches(WINDOW + 2));
    ExecAppend(Init(k), Serial(REJECT), Loads(k));
    ExecAppend(Init(k), Serial(REJECT) + Loads(k), Fetches(WINDOW + 2));
    steps := Serial(REJECT) + Loads(k) + Fetches(WINDOW + 2);
    ExecSnoc(Init(k), steps, Fetch(WINDOW + 2));
    steps := steps + [Fetch(WINDOW + 2)];
  }

  ghost predicate NoRepeats(sent: seq<int>) {
    forall i, j :: 0 <= i < j < |sent| ==> sent[i] != sent[j]
  }

  // The bound is exact.
  lemma SafeExactly(k: nat)
    ensures (forall steps: seq<Step> :: NoRepeats(Exec(Init(k), steps).sent)) <==> k <= WINDOW + 2
  {
    if k <= WINDOW + 2 {
      forall steps: seq<Step>
        ensures NoRepeats(Exec(Init(k), steps).sent)
      {
        Safety(k, steps);
      }
    } else {
      var steps := Wraps(k);
      assert !NoRepeats(Exec(Init(k), steps).sent);
    }
  }

  // Expiry

  // How many of the first k callers saw can_send true and have not fetched yet
  function Readies(callers: seq<Phase>, k: nat): nat
    requires k <= |callers|
  {
    if k == 0 then 0 else Readies(callers, k - 1) + if callers[k - 1] == Ready then 1 else 0
  }

  lemma {:induction false} ReadiesUpdate(callers: seq<Phase>, c: nat, phase: Phase, k: nat)
    requires c < |callers| && k <= |callers| && phase != Ready
    ensures Readies(callers[c := phase], k) == Readies(callers, k) - if c < k && callers[c] == Ready then 1 else 0
  {
    if k > 0 {
      ReadiesUpdate(callers, c, phase, k - 1);
    }
  }

  function Pending(s: State): nat {
    Readies(s.callers, |s.callers|)
  }

  lemma ExpiredStep(s: State, step: Step)
    requires !s.canSend
    ensures var s' := Apply(s, step);
            !s'.canSend && |s'.sent| + Pending(s') <= |s.sent| + Pending(s)
  {
    if (step.Fetch? || step.Clear?) && step.c < |s.callers| {
      ReadiesUpdate(s.callers, step.c, Idle, |s.callers|);
      ReadiesUpdate(s.callers, step.c, MustClear, |s.callers|);
    }
  }

  // After noise_remote_expire_current, in any state, only callers that had already looked still get
  // a nonce, and each of them at most one.
  lemma ExpireStops(s: State, later: seq<Step>)
    ensures |Exec(Apply(s, Expire), later).sent| <= |s.sent| + Pending(s)
  {
    ExpiredRun(Apply(s, Expire), later);
  }

  lemma {:induction false} ExpiredRun(s: State, steps: seq<Step>)
    requires !s.canSend
    ensures |Exec(s, steps).sent| <= |s.sent| + Pending(s)
    decreases |steps|
  {
    hide Apply, Pending;
    if steps != [] {
      ExpiredStep(s, steps[0]);
      ExpiredRun(Apply(s, steps[0]), steps[1..]);
    }
  }
}
