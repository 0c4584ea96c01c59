/**
 The receive side of a keypair (src/wg_noise.c:27-41, src/wg_noise.c:811-854): a ring of 128
 words that remembers which nonces were accepted, in the scheme of section 2 of RFC 6479.
 */
module ReplayWindow {
  import opened Machine
  import opened CounterLimits

  // The specification: which nonces were accepted, and nothing else

  predicate Acceptable(accepted: set<int>, n: int) {
    && n < REJECT
    && n !in accepted
    && forall m :: m in accepted ==> m <= n + WINDOW
  }

  function After(accepted: set<int>, n: int): set<int> {
    if Acceptable(accepted, n) then accepted + {n} else accepted
  }

  // The ring

  // Bit b of absolute word w stands for this nonce; nonces are stored one up.
  function Nonce(w: int, b: int): int {
    64 * w + b - 1
  }

  // Where the ring keeps absolute word w
  function Slot(w: int): (s: nat)
    ensures s < 128
  {
    w % 128
  }

  predicate Marked(words: seq<u64>, w: int, b: nat)
    requires |words| == 128
  {
    Bit(words[Slot(w)], b)
  }

  // The 128 words ending at word `top` mark exactly the accepted nonces.
  ghost predicate Ring(words: seq<u64>, top: int, accepted: set<int>) {
    && |words| == 128
    && forall w: int, b: nat :: top - 128 < w <= top && b < 64 ==> (Marked(words, w, b) <==> Nonce(w, b) in accepted)
  }

  lemma SameSlot(v: int, w: int)
    requires Slot(v) == Slot(w) && -128 < v - w < 128
    ensures v == w
  {}

  // Words ahead of every accepted nonce are empty.
  lemma RingAhead(words: seq<u64>, words': seq<u64>, top: int, top': int, accepted: set<int>)
    requires Ring(words, top, accepted) && top <= top' && |words'| == 128
    requires forall w :: top < w <= top' && top' - 128 < w ==> words'[Slot(w)] == 0
    requires forall w :: top' - 128 < w <= top ==> words'[Slot(w)] == words[Slot(w)]
    requires forall w: int, b: nat :: top < w && b < 64 ==> Nonce(w, b) !in accepted
    ensures Ring(words', top', accepted)
  {
    forall w: int, b: nat | top' - 128 < w <= top' && b < 64
      ensures Marked(words', w, b) <==> Nonce(w, b) in accepted
    {
      if w <= top {
        assert Marked(words, w, b) <==> Nonce(w, b) in accepted;
      } else {
        NoBits(b);
      }
    }
  }

  lemma NoBits(b: nat)
    ensures !Bit(0, b)
  {
    assert 0 / Pow2(b) == 0;
  }

  lemma RingMark(words: seq<u64>, top: int, accepted: set<int>, w0: int, b0: nat, marked: u64)
    requires Ring(words, top, accepted) && top - 128 < w0 <= top && b0 < 64
    requires marked == Or(words[Slot(w0)], Pow2(b0))
    ensures Ring(words[Slot(w0) := marked], top, accepted + {Nonce(w0, b0)})
  {
    var words' := words[Slot(w0) := marked];
    forall w: int, b: nat | top - 128 < w <= top && b < 64
      ensures Marked(words', w, b) <==> Nonce(w, b) in accepted + {Nonce(w0, b0)}
    {
      assert Marked(words, w, b) <==> Nonce(w, b) in accepted;
      if Slot(w) == Slot(w0) {
        SameSlot(w, w0);
        OrPow2(words[Slot(w0)], b0, b);
      } else {
        assert w != w0;
      }
    }
  }

  class Receiver {
    var nonceRecv: u64
    const backtrack: array<u64>

    ghost var accepted: set<int>

    ghost predicate Valid()
      reads this, backtrack
    {
      && backtrack.Length == 128
      && Highest(nonceRecv, accepted)
      && Ring(backtrack[..], nonceRecv / 64, accepted)
    }

    constructor ()
      ensures Valid() && fresh(backtrack) && accepted == {}
    {
      nonceRecv := 0;
      backtrack := new u64[128](_ => 0);
      accepted := {};
      new;
      forall w: int, b: nat | -128 < w <= 0 && b < 64
        ensures !Marked(backtrack[..], w, b)
      {
        NoBits(b);
      }
    }

    // noise_keypair_nonce_check
    method NonceCheck(recv: u64) returns (ok: bool)
      requires Valid()
      modifies this, backtrack
      ensures Valid()
      ensures ok <==> Acceptable(old(accepted), recv)
      ensures accepted == After(old(accepted), recv)
    {
      hide Ring, Pow2, Or, And;
      if nonceRecv >= REJECT + 1 || recv >= REJECT {
        return false;
      }
      var next: u64 := recv + 1;
      var limit: u64 := next + WINDOW;
      if limit < nonceRecv {
        assert nonceRecv - 1 in accepted;
        return false;
      }
      assert forall m :: m in accepted ==> m <= recv + WINDOW;
      var index := next / 64;
      if next > nonceRecv {
        MoveTop(next);
      }
      ok := Mark(next, index);
    }

    // Empty the words between the old and the new highest nonce.
    method MoveTop(next: u64)
      requires Valid() && next > nonceRecv
      modifies this`nonceRecv, backtrack
      ensures nonceRecv == next && backtrack.Length == 128
      ensures Ring(backtrack[..], next / 64, accepted)
    {
      hide Ring, Pow2, Or, And, Marked;
      var current := nonceRecv / 64;
      var index := next / 64;
      var top := if index - current < 128 then index - current else 128;
      ghost var words := backtrack[..];
      for i := 1 to top + 1
        invariant forall w :: current < w < current + i ==> backtrack[Slot(w)] == 0
        invariant forall w :: current + i - 1 - 128 < w <= current ==> backtrack[Slot(w)] == words[Slot(w)]
      {
        Mask128(i + current);
        ghost var before := backtrack[..];
        backtrack[And(i + current, 127)] := 0;
        forall w | current + i - 128 < w <= current
          ensures backtrack[Slot(w)] == words[Slot(w)]
        {
          assert before[Slot(w)] == words[Slot(w)];
          if Slot(w) == Slot(i + current) {
            SameSlot(w, i + current);
          }
        }
      }
      nonceRecv := next;
      AllCleared(backtrack[..], current, top, index);
      RingAhead(words, backtrack[..], current, index, accepted);
    }

    // Test and set the bit of `next`.
    method Mark(next: u64, index: u64) returns (ok: bool)
      requires backtrack.Length == 128 && Ring(backtrack[..], nonceRecv / 64, accepted)
      requires index == next / 64 && nonceRecv - WINDOW <= next <= nonceRecv && 0 < next < REJECT + 1
      modifies backtrack, this`accepted
      ensures backtrack.Length == 128 && Ring(backtrack[..], nonceRecv / 64, accepted)
      ensures ok <==> next - 1 !in old(accepted)
      ensures accepted == old(accepted) + {next - 1}
    {
      hide Ring, Pow2, Or, And, Marked;
      Mask128(index);
      Mask64(next);
      var slot, b := And(index, 127), And(next, 63);
      PowFits(b);
      var bit: u64 := Pow2(b);
      InRing(nonceRecv, next);
      RingAt(backtrack[..], nonceRecv / 64, accepted, index, b);
      AndPow2(backtrack[slot], b);
      if And(backtrack[slot], bit) != 0 {
        return false;
      }
      OrFits(backtrack[slot], bit);
      RingMark(backtrack[..], nonceRecv / 64, accepted, index, b, Or(backtrack[slot], bit));
      ghost var words := backtrack[..];
      backtrack[slot] := Or(backtrack[slot], bit);
      assert backtrack[..] == words[slot := backtrack[slot]];
      accepted := accepted + {next - 1};
      ok := true;
    }
  }

  // A word within the window of the highest nonce is still in the ring.
  lemma InRing(nonceRecv: u64, next: u64)
    requires nonceRecv - WINDOW <= next <= nonceRecv
    ensures nonceRecv / 64 - 128 < next / 64 <= nonceRecv / 64
  {}

  lemma RingAt(words: seq<u64>, top: int, accepted: set<int>, w: int, b: nat)
    requires Ring(words, top, accepted) && top - 128 < w <= top && b < 64
    ensures |words| == 128
    ensures Bit(words[Slot(w)], b) <==> Nonce(w, b) in accepted
  {
    assert Marked(words, w, b) <==> Nonce(w, b) in accepted;
  }

  // Clearing 128 words in a row clears the whole ring.
  lemma AllCleared(words: seq<u64>, current: int, top: int, index: int)
    requires |words| == 128 && current <= index && top == if index - current < 128 then index - current else 128
    requires forall w :: current < w <= current + top ==> words[Slot(w)] == 0
    ensures forall w :: current < w <= index && index - 128 < w ==> words[Slot(w)] == 0
  {
    forall w | current < w <= index && index - 128 < w
      ensures words[Slot(w)] == 0
    {
      var v := current + 1 + (w - current - 1) % 128;
      assert Slot(v) == Slot(w);
    }
  }

  lemma Mask64(a: nat)
    ensures And(a, 63) == a % 64
  {
    assert Pow2(6) == 64;
    AndMask(a, 6);
  }

  lemma PowFits(b: nat)
    requires b < 64
    ensures Pow2(b) < TWO64
  {
    Pow2Monotone(b, 63);
    Pow2Of63();
  }

  lemma Pow2Of63()
    ensures Pow2(63) == 0x8000_0000_0000_0000 && Pow2(64) == TWO64
  {
    Pow2Values();
    assert Pow2(44) == 0x1000_0000_0000;
    assert Pow2(56) == 0x100_0000_0000_0000;
  }

  lemma OrFits(a: u64, b: u64)
    ensures Or(a, b) < TWO64
  {
    Pow2Of63();
    OrBound(a, b, 64);
  }

  // The stored nonce is one above the highest accepted, 0 if there is none.
  ghost predicate Highest(nonceRecv: u64, accepted: set<int>) {
    && (forall m :: m in accepted ==> 0 <= m < nonceRecv && m < REJECT)
    && (nonceRecv == 0 || nonceRecv - 1 in accepted)
  }

  lemma Mask128(a: nat)
    ensures And(a, 127) == Slot(a)
  {
    assert Pow2(7) == 128;
    AndMask(a, 7);
  }

  // Over whole runs

  // The set that a run of received nonces leads to
  function Accepted(nonces: seq<u64>): set<int> {
    if nonces == [] then {} else After(Accepted(nonces[..|nonces| - 1]), nonces[|nonces| - 1])
  }

  // The i-th nonce of a run passes exactly when it is acceptable after the ones before it.
  predicate Passes(nonces: seq<u64>, i: nat)
    requires i < |nonces|
  {
    Acceptable(Accepted(nonces[..i]), nonces[i])
  }

  // A fresh keypair decides every nonce of every run as the specification does.
  method CheckRun(nonces: seq<u64>) returns (verdicts: seq<bool>)
    ensures |verdicts| == |nonces|
    ensures forall i :: 0 <= i < |nonces| ==> (verdicts[i] <==> Passes(nonces, i))
  {
    hide Receiver.Valid, Acceptable;
    var kp := new Receiver();
    verdicts := [];
    assert nonces[..0] == [];
    for i := 0 to |nonces|
      invariant fresh(kp) && fresh(kp.backtrack) && kp.Valid()
      invariant kp.accepted == Accepted(nonces[..i])
      invariant |verdicts| == i && forall j :: 0 <= j < i ==> (verdicts[j] <==> Passes(nonces, j))
    {
      var ok := kp.NonceCheck(nonces[i]);
      verdicts := verdicts + [ok];
      assert nonces[..i + 1][..i] == nonces[..i];
    }
  }

  lemma {:induction false} AcceptedAre(nonces: seq<u64>, n: int)
    ensures n in Accepted(nonces) <==> exists i :: 0 <= i < |nonces| && nonces[i] == n && Passes(nonces, i)
  {
    if nonces != [] {
      var k := |nonces| - 1;
      var front := nonces[..k];
      AcceptedAre(front, n);
      assert forall i :: 0 <= i < k ==> nonces[..i] == front[..i];
      assert forall i :: 0 <= i < k ==> (Passes(nonces, i) <==> Passes(front, i));
      if n in Accepted(front) {
        var i :| 0 <= i < k && front[i] == n && Passes(front, i);
        assert Passes(nonces, i);
      } else if n in Accepted(nonces) {
        assert Passes(nonces, k);
      }
    }
  }

  // No nonce passes twice in any run.
  lemma NoReplay(nonces: seq<u64>, i: nat, j: nat)
    requires i < j < |nonces| && Passes(nonces, i) && Passes(nonces, j)
    ensures nonces[i] != nonces[j]
  {
    var front := nonces[..j];
    assert front[..i] == nonces[..i];
    assert Passes(front, i);
    AcceptedAre(front, nonces[i]);
  }

  // Reordering within the window is harmless: a nonce that was not seen before and is at most the
  // window size below everything seen passes.
  lemma LateButFresh(nonces: seq<u64>, i: nat)
    requires i < |nonces| && nonces[i] < REJECT
    requires forall j :: 0 <= j < i ==> nonces[j] != nonces[i] && nonces[j] <= nonces[i] + WINDOW
    ensures Passes(nonces, i)
  {
    forall m | m in Accepted(nonces[..i])
      ensures m != nonces[i] && m <= nonces[i] + WINDOW
    {
      AcceptedAre(nonces[..i], m);
    }
  }

  // The verdict on a nonce in terms of the verdicts before it: below 2^64 - 8130, not passed
  // before, and nothing passed is more than 8128 above it.
  lemma PassesExactly(nonces: seq<u64>, i: nat)
    requires i < |nonces|
    ensures Passes(nonces, i) <==>
            && nonces[i] < 0x1_0000_0000_0000_0000 - 8130
            && forall j :: 0 <= j < i && Passes(nonces, j) ==> nonces[j] != nonces[i] && nonces[j] <= nonces[i] + 8128
  {
    var front, n := nonces[..i], nonces[i];
    forall j | 0 <= j < i
      ensures Passes(front, j) <==> Passes(nonces, j)
      ensures Passes(front, j) ==> nonces[j] in Accepted(front)
    {
      assert front[..j] == nonces[..j];
      if Passes(front, j) {
        AcceptedAre(front, nonces[j]);
      }
    }
    forall m | m in Accepted(front)
      ensures exists j :: 0 <= j < i && nonces[j] == m && Passes(nonces, j)
    {
      AcceptedAre(front, m);
      var j :| 0 <= j < i && front[j] == m && Passes(front, j);
      assert nonces[j] == m && Passes(nonces, j);
    }
    hide Accepted;
  }

  // The word that a nonce is marked in, counted from the start
  function WordOf(n: nat): nat {
    (n + 1) / 64
  }

  // The window is the largest for which 128 words are enough: every nonce in it has its word among
  // the 128 that end with the word of the highest nonce.
  lemma LargestWindow(window: nat)
    ensures (forall n: nat, high: nat :: n <= high <= n + window ==> WordOf(high) - 128 < WordOf(n)) <==> window <= WINDOW
  {
    if window > WINDOW {
      assert WordOf(62 + WINDOW + 1) - 128 == WordOf(62);
    }
  }
}
