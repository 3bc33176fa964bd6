/** Exactly-once counting needs a key's orders in stream order, and needs no more:
    what the order of deliveries guarantees, and what its absence costs. */
module StreamOrder {
  import opened Text
  import opened Common
  import opened OrderTotals
  import opened Accumulate

  // ------------------------------------------------- orders in stream order

  ghost predicate Delivered(s: State, q: nat) {
    exists h :: h in s.handlers && s.handlers[h].sequence == q
  }

  /** Some handler returned Ok for `q`. */
  ghost predicate Settled(s: State, q: nat) {
    exists h :: h in s.handlers && s.handlers[h].sequence == q && s.handlers[h].phase.Finished?
  }

  /** `p` is not above the newest sequence counted. */
  predicate Reached(counted: seq<nat>, p: nat) {
    counted != [] && p <= counted[|counted| - 1]
  }

  /** That is to be read off the entry. */
  lemma ReachedIsReadable(order: nat -> nat, actions: seq<Action>, p: nat)
    ensures var s := Run(order, actions);
            Reached(s.counted, p) <==> Existing(s).Some? && p <= Existing(s).value.lastSequence
  {
    ReadsBackInRun(order, actions);
  }

  /** A delivery is in stream order: it repeats a sequence that the entry has
      reached, or it is the newest so far and the entry has reached the others. */
  ghost predicate InOrder(s: State, a: Action) {
    Starts(s, a) ==>
      || (Delivered(s, a.sequence) && Reached(s.counted, a.sequence))
      || forall k | k in s.handlers :: Precedes(s, s.handlers[k].sequence, a.sequence)
  }

  predicate Precedes(s: State, p: nat, q: nat) {
    p == q || (p < q && Reached(s.counted, p))
  }

  ghost predicate AllInOrder(order: nat -> nat, actions: seq<Action>) {
    forall n: nat | n < |actions| :: InOrder(Run(order, actions[..n]), actions[n])
  }

  lemma PrefixInOrder(order: nat -> nat, actions: seq<Action>, n: nat)
    requires AllInOrder(order, actions) && n <= |actions|
    ensures AllInOrder(order, actions[..n])
  {
    forall m: nat | m < n ensures InOrder(Run(order, actions[..n][..m]), actions[..n][m]) {
      assert actions[..n][..m] == actions[..m];
    }
  }

  /** Every delivered sequence with a newer one delivered is counted. */
  ghost predicate OlderCounted(s: State) {
    forall j, k | j in s.handlers && k in s.handlers && s.handlers[j].sequence < s.handlers[k].sequence ::
      s.handlers[j].sequence in s.counted
  }

  ghost predicate ReachedAreCounted(s: State) {
    forall k | k in s.handlers && Reached(s.counted, s.handlers[k].sequence) :: s.handlers[k].sequence in s.counted
  }

  lemma OlderAreReached(order: nat -> nat, actions: seq<Action>)
    requires OlderCounted(Run(order, actions))
    ensures ReachedAreCounted(Run(order, actions))
  {
    if Run(order, actions).counted != [] {
      var last := Run(order, actions).counted[|Run(order, actions).counted| - 1];
      var h := CountedWereDelivered(order, actions, last);
      OlderThanLast(Run(order, actions), h);
    }
  }

  lemma OlderThanLast(s: State, h: nat)
    requires OlderCounted(s) && s.counted != [] && h in s.handlers
    requires s.handlers[h].sequence == s.counted[|s.counted| - 1]
    ensures ReachedAreCounted(s)
  {
  }

  lemma {:induction false} InOrderKeepsOlderCounted(order: nat -> nat, actions: seq<Action>)
    requires AllInOrder(order, actions)
    ensures OlderCounted(Run(order, actions)) && ReachedAreCounted(Run(order, actions))
  {
    if actions != [] {
      var n := |actions| - 1;
      PrefixInOrder(order, actions, n);
      InOrderKeepsOlderCounted(order, actions[..n]);
      assert InOrder(Run(order, actions[..n]), actions[n]);
      StepKeeps(order, Run(order, actions[..n]), actions[n]);
      OlderCountedStep(Run(order, actions[..n]), Run(order, actions), actions[n]);
    }
    OlderAreReached(order, actions);
  }

  lemma OlderCountedStep(s: State, t: State, a: Action)
    requires OlderCounted(s) && ReachedAreCounted(s) && InOrder(s, a) && Keeps(s, t)
    requires forall k | k in t.handlers && k !in s.handlers :: Starts(s, a) && t.handlers[k].sequence == a.sequence
    ensures OlderCounted(t)
  {
  }

  ghost predicate NothingLost(s: State) {
    forall h | h in s.handlers && s.handlers[h].phase.Finished? :: s.handlers[h].sequence in s.counted
  }

  /** In stream order, every order whose handler returned Ok is counted. */
  lemma InOrderCountsEveryOrder(order: nat -> nat, actions: seq<Action>)
    requires AllInOrder(order, actions)
    ensures NothingLost(Run(order, actions))
  {
    InOrderKeepsOlderCounted(order, actions);
    forall h | h in Run(order, actions).handlers && Run(order, actions).handlers[h].phase.Finished?
      ensures Run(order, actions).handlers[h].sequence in Run(order, actions).counted
    {
      SettledIsReached(order, actions, h);
    }
  }

  lemma SettledIsReached(order: nat -> nat, actions: seq<Action>, h: nat)
    requires h in Run(order, actions).handlers && Run(order, actions).handlers[h].phase.Finished?
    ensures Reached(Run(order, actions).counted, Run(order, actions).handlers[h].sequence)
  {
    OutcomesMeanWhatTheySay(order, actions, h);
    RunKeepsInv(order, actions);
    FinishedIsReached(Run(order, actions).counted, Run(order, actions).handlers[h]);
  }

  lemma FinishedIsReached(counted: seq<nat>, h: Handler)
    requires Ascending(counted) && h.phase.Finished?
    requires 0 < h.phase.at <= |counted| && h.sequence <= counted[h.phase.at - 1]
    ensures Reached(counted, h.sequence)
  {
    assert counted[h.phase.at - 1] <= counted[|counted| - 1];
  }

  lemma InOrderCountsExactlyTheDelivered(order: nat -> nat, actions: seq<Action>, q: nat)
    requires AllInOrder(order, actions)
    requires Delivered(Run(order, actions), q) ==> Settled(Run(order, actions), q)
    ensures q in Run(order, actions).counted <==> Delivered(Run(order, actions), q)
  {
    InOrderCountsEveryOrder(order, actions);
    if q in Run(order, actions).counted {
      var h := CountedWereDelivered(order, actions, q);
    }
  }

  /** What a consumer that waits for answers does: deliver a sequence it was
      answered Ok for, or the newest so far after an Ok for each of the others. */
  ghost predicate WaitsForOk(s: State, a: Action) {
    Starts(s, a) ==>
      || Settled(s, a.sequence)
      || forall k | k in s.handlers :: WasAnswered(s, s.handlers[k].sequence, a.sequence)
  }

  ghost predicate WasAnswered(s: State, p: nat, q: nat) {
    p == q || (p < q && Settled(s, p))
  }

  ghost predicate AllWaitForOk(order: nat -> nat, actions: seq<Action>) {
    forall n: nat | n < |actions| :: WaitsForOk(Run(order, actions[..n]), actions[n])
  }

  /** Waiting for an Ok before sending a newer sequence counts every order that
      is answered Ok, and every delivered one older than another. */
  lemma WaitingCountsEveryOrder(order: nat -> nat, actions: seq<Action>)
    requires AllWaitForOk(order, actions)
    ensures AllInOrder(order, actions)
    ensures NothingLost(Run(order, actions)) && OlderCounted(Run(order, actions))
  {
    forall n: nat | n < |actions| ensures InOrder(Run(order, actions[..n]), actions[n]) {
      assert WaitsForOk(Run(order, actions[..n]), actions[n]);
      WaitingIsInOrder(order, actions[..n], actions[n]);
    }
    InOrderCountsEveryOrder(order, actions);
    InOrderKeepsOlderCounted(order, actions);
  }

  lemma WaitingIsInOrder(order: nat -> nat, actions: seq<Action>, a: Action)
    requires WaitsForOk(Run(order, actions), a)
    ensures InOrder(Run(order, actions), a)
  {
    var s := Run(order, actions);
    forall p | Settled(s, p) ensures Delivered(s, p) && Reached(s.counted, p) {
      var h :| h in s.handlers && s.handlers[h].sequence == p && s.handlers[h].phase.Finished?;
      SettledIsReached(order, actions, h);
    }
    SettledOrder(s, a);
  }

  lemma SettledOrder(s: State, a: Action)
    requires WaitsForOk(s, a) && forall p | Settled(s, p) :: Delivered(s, p) && Reached(s.counted, p)
    ensures InOrder(s, a)
  {
  }

  // --------------------------------------- stream order is the exact condition

  /** `more` delivers no sequence that has not been delivered already. */
  ghost predicate Redelivers(s: State, more: seq<Action>) {
    forall i | 0 <= i < |more| && more[i].Deliver? :: Delivered(s, more[i].sequence)
  }

  /** Whatever is read, written, refused or redelivered from any point of the run
      on, every order answered Ok is counted. */
  ghost predicate Safe(order: nat -> nat, actions: seq<Action>) {
    forall n: nat, more | n <= |actions| && Redelivers(Run(order, actions[..n]), more) ::
      NothingLost(Run(order, actions[..n] + more))
  }

  lemma {:induction false} DeliveredStays(order: nat -> nat, actions: seq<Action>, more: seq<Action>, q: nat)
    requires Delivered(Run(order, actions), q)
    ensures Delivered(Run(order, actions + more), q)
  {
    if more == [] {
      assert actions + more == actions;
    } else {
      var n := |more| - 1;
      DeliveredStays(order, actions, more[..n], q);
      assert actions + more == actions + more[..n] + [more[n]];
      RunOne(order, actions + more[..n], more[n]);
      StepKeeps(order, Run(order, actions + more[..n]), more[n]);
      DeliveredKept(Run(order, actions + more[..n]), Run(order, actions + more), q);
    }
  }

  lemma DeliveredKept(s: State, t: State, q: nat)
    requires Keeps(s, t) && Delivered(s, q)
    ensures Delivered(t, q)
  {
    var h :| h in s.handlers && s.handlers[h].sequence == q;
    assert t.handlers[h].sequence == q;
  }

  lemma RedeliveryIsInOrder(s: State, a: Action)
    requires OlderCounted(s) && Ascending(s.counted) && (a.Deliver? ==> Delivered(s, a.sequence))
    ensures InOrder(s, a)
  {
    if Starts(s, a) && !Reached(s.counted, a.sequence) {
      var h :| h in s.handlers && s.handlers[h].sequence == a.sequence;
      forall k | k in s.handlers ensures Precedes(s, s.handlers[k].sequence, a.sequence) {
        if s.handlers[k].sequence != a.sequence {
          CountedIsReached(s.counted, if s.handlers[k].sequence < a.sequence then s.handlers[k].sequence else a.sequence);
        }
      }
    }
  }

  lemma CountedIsReached(counted: seq<nat>, p: nat)
    requires Ascending(counted) && p in counted
    ensures Reached(counted, p)
  {
    var i :| 0 <= i < |counted| && counted[i] == p;
    assert counted[i] <= counted[|counted| - 1];
  }

  lemma {:induction false} RedeliveriesStayInOrder(order: nat -> nat, actions: seq<Action>, more: seq<Action>)
    requires AllInOrder(order, actions) && Redelivers(Run(order, actions), more)
    ensures AllInOrder(order, actions + more)
  {
    if more == [] {
      assert actions + more == actions;
    } else {
      var n := |more| - 1;
      RedeliveriesStayInOrder(order, actions, more[..n]);
      assert actions + more == actions + more[..n] + [more[n]];
      OneMoreRedelivery(order, actions, actions + more[..n], more[n]);
    }
  }

  lemma OneMoreRedelivery(order: nat -> nat, actions: seq<Action>, longer: seq<Action>, a: Action)
    requires actions <= longer && AllInOrder(order, longer)
    requires a.Deliver? ==> Delivered(Run(order, actions), a.sequence)
    ensures AllInOrder(order, longer + [a])
  {
    StillDelivered(order, actions, longer[|actions|..], a);
    assert longer == actions + longer[|actions|..];
    OneMoreInOrder(order, longer, a);
  }

  lemma StillDelivered(order: nat -> nat, actions: seq<Action>, more: seq<Action>, a: Action)
    requires a.Deliver? ==> Delivered(Run(order, actions), a.sequence)
    ensures a.Deliver? ==> Delivered(Run(order, actions + more), a.sequence)
  {
    if a.Deliver? {
      DeliveredStays(order, actions, more, a.sequence);
    }
  }

  lemma OneMoreInOrder(order: nat -> nat, actions: seq<Action>, a: Action)
    requires AllInOrder(order, actions) && (a.Deliver? ==> Delivered(Run(order, actions), a.sequence))
    ensures AllInOrder(order, actions + [a])
  {
    InOrderKeepsOlderCounted(order, actions);
    RunKeepsInv(order, actions);
    RedeliveryIsInOrder(Run(order, actions), a);
    forall n: nat | n < |actions + [a]| ensures InOrder(Run(order, (actions + [a])[..n]), (actions + [a])[n]) {
      assert (actions + [a])[..n] == actions[..n];
      assert actions[..|actions|] == actions;
    }
  }

  // A delivery out of order loses an order: first the steps that do it.

  lemma {:induction false} Above(ids: set<nat>) returns (h: nat)
    ensures forall i | i in ids :: i < h
  {
    h := 0;
    if ids != {} {
      var i :| i in ids;
      h := Above(ids - {i});
      assert forall j | j in ids :: j == i || j in ids - {i};
      h := if h <= i then i + 1 else h;
    }
  }

  /** Handler `h` returned Ok, and its sequence is not counted whatever follows. */
  ghost predicate LostForGood(order: nat -> nat, actions: seq<Action>, h: nat) {
    var s := Run(order, actions);
    && h in s.handlers && s.handlers[h].phase.Finished?
    && forall more :: s.handlers[h].sequence !in Run(order, actions + more).counted
  }

  lemma PassedIsLostForGood(order: nat -> nat, actions: seq<Action>, h: nat)
    requires h in Run(order, actions).handlers && Run(order, actions).handlers[h].phase.Finished?
    requires Passed(Run(order, actions).counted, Run(order, actions).handlers[h].sequence)
    ensures LostForGood(order, actions, h)
  {
    var q := Run(order, actions).handlers[h].sequence;
    forall more ensures q !in Run(order, actions + more).counted {
      assert (actions + more)[..|actions|] == actions;
      CountedGrows(order, actions + more, |actions|);
      RunKeepsInv(order, actions + more);
      if q in Run(order, actions + more).counted {
        EarlierCountIsNotPassed(Run(order, actions).counted, Run(order, actions + more).counted, q);
      }
    }
  }

  /** A delivery below what the entry has reached is answered Ok at once. */
  lemma ReachedIsAnswered(order: nat -> nat, s: State, h: nat, q: nat, existing: Option<Total>)
    requires h !in s.handlers && IsU64(q) && Existing(s) == existing
    requires existing.Some? && q <= existing.value.lastSequence
    ensures var t := Next(order, Next(order, s, Deliver(h, q)), Read(h));
            t.counted == s.counted && h in t.handlers && t.handlers[h].sequence == q && t.handlers[h].phase.Finished?
  {
    var s1 := Next(order, s, Deliver(h, q));
    assert s1 == s.(handlers := s.handlers[h := Handler(q, 1, Reading, |s.counted|)]);
    assert Next(order, s1, Read(h)) == SetPhase(s1, h, Decide(order, s1, existing, q));
  }

  /** A delivery above it, undisturbed, is counted. */
  lemma UnreachedIsCounted(order: nat -> nat, s: State, h: nat, q: nat, revision: nat, existing: Option<Total>)
    requires h !in s.handlers && IsU64(q) && Existing(s) == existing && revision > s.lastRevision
    requires existing.Some? ==> existing.value.lastSequence < q
    ensures var t := Next(order, Next(order, Next(order, s, Deliver(h, q)), Read(h)), Write(h, revision));
            t.counted == s.counted + [q] && t.lastRevision == revision && t.handlers.Keys == s.handlers.Keys + {h}
  {
    var s1 := Next(order, s, Deliver(h, q));
    assert s1 == s.(handlers := s.handlers[h := Handler(q, 1, Reading, |s.counted|)]);
    var s2 := Next(order, s1, Read(h));
    assert s2 == SetPhase(s1, h, Decide(order, s1, existing, q));
    FirstWriteApplies(order, s2, h, revision);
  }

  lemma FirstWriteApplies(order: nat -> nat, s: State, h: nat, revision: nat)
    requires IsWriting(s, h) && s.handlers[h].phase.read == s.entry && revision > s.lastRevision
    ensures var t := Next(order, s, Write(h, revision));
            t.counted == s.counted + [s.handlers[h].sequence] && t.lastRevision == revision && t.handlers.Keys == s.handlers.Keys
  {
    assert WriteApplies(s, h, revision);
  }

  lemma RunTwo(order: nat -> nat, actions: seq<Action>, a: Action, b: Action)
    ensures Run(order, actions + [a] + [b]) == Next(order, Next(order, Run(order, actions), a), b)
  {
    RunOne(order, actions, a);
    RunOne(order, actions + [a], b);
  }

  lemma RunThree(order: nat -> nat, actions: seq<Action>, a: Action, b: Action, c: Action)
    ensures Run(order, actions + [a] + [b] + [c]) == Next(order, Next(order, Next(order, Run(order, actions), a), b), c)
  {
    RunTwo(order, actions, a, b);
    RunOne(order, actions + [a] + [b], c);
  }

  /** After any run: an uncounted sequence below what the entry has reached is
      answered Ok on its next delivery, and lost. */
  lemma PassedOrderIsLost(order: nat -> nat, actions: seq<Action>, p: nat) returns (longer: seq<Action>, h: nat)
    requires Passed(Run(order, actions).counted, p)
    ensures longer == actions + [Deliver(h, p)] + [Read(h)]
    ensures LostForGood(order, longer, h) && Run(order, longer).handlers[h].sequence == p
  {
    var s := Run(order, actions);
    h := Above(s.handlers.Keys);
    longer := actions + [Deliver(h, p)] + [Read(h)];
    RunKeepsInv(order, actions);
    ReadsBackInRun(order, actions);
    assert IsU64(s.counted[|s.counted| - 1]);
    ReachedIsAnswered(order, s, h, p, TotalOf(order, s.counted));
    RunTwo(order, actions, Deliver(h, p), Read(h));
    PassedIsLostForGood(order, longer, h);
  }

  /** After any run: a sequence above what the entry has reached can be counted
      before any other. */
  lemma HigherCanBeCounted(order: nat -> nat, actions: seq<Action>, q: nat) returns (longer: seq<Action>, h: nat, r: nat)
    requires IsU64(q) && !Reached(Run(order, actions).counted, q)
    ensures longer == actions + [Deliver(h, q)] + [Read(h)] + [Write(h, r)]
    ensures Run(order, longer).counted == Run(order, actions).counted + [q]
  {
    var s := Run(order, actions);
    h := Above(s.handlers.Keys);
    r := s.lastRevision + 1;
    longer := actions + [Deliver(h, q)] + [Read(h)] + [Write(h, r)];
    ReadsBackInRun(order, actions);
    UnreachedIsCounted(order, s, h, q, r, TotalOf(order, s.counted));
    RunThree(order, actions, Deliver(h, q), Read(h), Write(h, r));
  }

  /** After any run: of two orders in flight together, neither reached, the lower
      can lose to the higher, and its handler still returns Ok. */
  lemma ConcurrentOrderIsLost(order: nat -> nat, actions: seq<Action>, p: nat, q: nat) returns (more: seq<Action>, h: nat)
    requires p < q && IsU64(q) && !Reached(Run(order, actions).counted, p) && !Reached(Run(order, actions).counted, q)
    ensures forall i | 0 <= i < |more| && more[i].Deliver? :: more[i].sequence in {p, q}
    ensures LostForGood(order, actions + more, h) && Run(order, actions + more).handlers[h].sequence == p
  {
    var after, x, r := HigherOvertakes(order, actions, p, q);
    var longer;
    longer, h := PassedOrderIsLost(order, after, p);
    more := [Deliver(x, q), Read(x), Write(x, r), Deliver(h, p), Read(h)];
    assert longer == actions + more;
  }

  lemma HigherOvertakes(order: nat -> nat, actions: seq<Action>, p: nat, q: nat) returns (longer: seq<Action>, h: nat, r: nat)
    requires p < q && IsU64(q) && !Reached(Run(order, actions).counted, p) && !Reached(Run(order, actions).counted, q)
    ensures longer == actions + [Deliver(h, q)] + [Read(h)] + [Write(h, r)]
    ensures Passed(Run(order, longer).counted, p)
  {
    RunKeepsInv(order, actions);
    longer, h, r := HigherCanBeCounted(order, actions, q);
    UnreachedIsUncounted(Run(order, actions).counted, p, q);
  }

  lemma UnreachedIsUncounted(counted: seq<nat>, p: nat, q: nat)
    requires Ascending(counted) && !Reached(counted, p) && p < q
    ensures Passed(counted + [q], p)
  {
    if p in counted {
      CountedIsReached(counted, p);
    }
  }

  /** After any run, a delivery out of stream order can be continued, by reads, a
      write and redeliveries alone, to an Ok for an order that is never counted. */
  lemma OutOfOrderLoses(order: nat -> nat, actions: seq<Action>, a: Action) returns (more: seq<Action>, h: nat)
    requires !InOrder(Run(order, actions), a)
    ensures Redelivers(Run(order, actions + [a]), more)
    ensures LostForGood(order, actions + [a] + more, h)
  {
    var s, q := Run(order, actions), a.sequence;
    RunOne(order, actions, a);
    StepKeeps(order, s, a);
    var t := Run(order, actions + [a]);
    assert t == s.(handlers := s.handlers[a.h := Handler(q, 1, Reading, |s.counted|)]);
    assert Delivered(t, q) by { assert t.handlers[a.h].sequence == q; }
    if Reached(s.counted, q) {
      SkippedIsPassed(order, actions, q);
      var longer;
      longer, h := PassedOrderIsLost(order, actions + [a], q);
      more := [Deliver(h, q), Read(h)];
      assert longer == actions + [a] + more;
    } else {
      var k :| k in s.handlers && !Precedes(s, s.handlers[k].sequence, q);
      var p := s.handlers[k].sequence;
      assert Delivered(t, p) by { assert t.handlers[k].sequence == p; }
      DeliveredFits(order, actions, k);
      more, h := ConcurrentOrderIsLost(order, actions + [a], if p < q then p else q, if p < q then q else p);
    }
  }

  lemma SkippedIsPassed(order: nat -> nat, actions: seq<Action>, q: nat)
    requires Reached(Run(order, actions).counted, q) && !Delivered(Run(order, actions), q)
    ensures Passed(Run(order, actions).counted, q)
  {
    if q in Run(order, actions).counted {
      var h := CountedWereDelivered(order, actions, q);
    }
  }

  lemma DeliveredFits(order: nat -> nat, actions: seq<Action>, h: nat)
    requires h in Run(order, actions).handlers
    ensures IsU64(Run(order, actions).handlers[h].sequence)
  {
    RunKeepsInv(order, actions);
    assert HandlerOk(order, Run(order, actions), Run(order, actions).handlers[h]);
  }

  /** Every order answered Ok is counted, exactly once, whatever is read, written
      and redelivered, if and only if every delivery was in stream order. */
  lemma ExactlyOnceIff(order: nat -> nat, actions: seq<Action>)
    ensures Safe(order, actions) <==> AllInOrder(order, actions)
  {
    if AllInOrder(order, actions) {
      InOrderIsSafe(order, actions);
    } else {
      var n: nat :| n < |actions| && !InOrder(Run(order, actions[..n]), actions[n]);
      OutOfOrderIsUnsafe(order, actions, n);
    }
  }

  lemma InOrderIsSafe(order: nat -> nat, actions: seq<Action>)
    requires AllInOrder(order, actions)
    ensures Safe(order, actions)
  {
    forall n: nat, more | n <= |actions| && Redelivers(Run(order, actions[..n]), more)
      ensures NothingLost(Run(order, actions[..n] + more))
    {
      PrefixInOrder(order, actions, n);
      RedeliveriesStayInOrder(order, actions[..n], more);
      InOrderCountsEveryOrder(order, actions[..n] + more);
    }
  }

  lemma OutOfOrderIsUnsafe(order: nat -> nat, actions: seq<Action>, n: nat)
    requires n < |actions| && !InOrder(Run(order, actions[..n]), actions[n])
    ensures !Safe(order, actions)
  {
    var more, h := OutOfOrderLoses(order, actions[..n], actions[n]);
    assert actions[..n + 1] == actions[..n] + [actions[n]];
    LossShows(order, actions[..n + 1] + more, h);
  }

  lemma LossShows(order: nat -> nat, actions: seq<Action>, h: nat)
    requires LostForGood(order, actions, h)
    ensures !NothingLost(Run(order, actions))
  {
    assert actions + [] == actions;
  }

  // -------------------------------------------------------------- retrying

  /** A handler that reads and writes undisturbed ends with an Ok, counting its
      sequence unless the entry has reached it. */
  lemma ReadThenWrite(order: nat -> nat, s: State, h: nat, revision: nat, existing: Option<Total>)
    requires h in s.handlers && s.handlers[h].phase.Reading? && revision > s.lastRevision && Existing(s) == existing
    ensures var t, q := Next(order, Next(order, s, Read(h)), Write(h, revision)), s.handlers[h].sequence;
            && h in t.handlers && t.handlers[h].sequence == q && t.handlers[h].phase.Finished?
            && t.counted == if existing.Some? && q <= existing.value.lastSequence then s.counted else s.counted + [q]
  {
    var s1 := Next(order, s, Read(h));
    assert s1 == SetPhase(s, h, Decide(order, s, existing, s.handlers[h].sequence));
    if s1.handlers[h].phase.Writing? {
      FirstWriteApplies(order, s1, h, revision);
    }
  }

  /** After any run: a handler whose write finds that the entry has changed reads
      it again, up to its fifth attempt, with which it gives up.  Nothing else
      changes. */
  lemma RefusedIsRetried(order: nat -> nat, actions: seq<Action>, h: nat)
    requires var s := Run(order, actions); IsWriting(s, h) && !Unchanged(s, s.handlers[h].phase.read)
    ensures var s, t := Run(order, actions), Run(order, actions + [WriteRefused(h, true)]);
            && t == s.(handlers := t.handlers) && t.handlers.Keys == s.handlers.Keys
            && (forall k | k in s.handlers && k != h :: t.handlers[k] == s.handlers[k])
            && t.handlers[h].sequence == s.handlers[h].sequence
            && (s.handlers[h].attempt < 5 ==> t.handlers[h].phase == Reading && t.handlers[h].attempt == s.handlers[h].attempt + 1)
            && (s.handlers[h].attempt >= 5 ==> t.handlers[h].phase == GaveUp)
  {
    RunOne(order, actions, WriteRefused(h, true));
  }

  /** An error that does not say so is final. */
  lemma OtherRefusalIsFinal(order: nat -> nat, actions: seq<Action>, h: nat)
    requires var s := Run(order, actions); IsWriting(s, h) && !Unchanged(s, s.handlers[h].phase.read)
    ensures var s, t := Run(order, actions), Run(order, actions + [WriteRefused(h, false)]);
            t == SetPhase(s, h, Failed)
  {
    RunOne(order, actions, WriteRefused(h, false));
  }

  /** So, after any run, a refused handler that is left alone ends with an Ok, and
      with its order counted unless the entry had already reached it. */
  lemma RetrySucceeds(order: nat -> nat, actions: seq<Action>, h: nat, revision: nat)
    requires var s := Run(order, actions);
             && IsWriting(s, h) && !Unchanged(s, s.handlers[h].phase.read)
             && s.handlers[h].attempt < 5 && revision > s.lastRevision
    ensures var s, t := Run(order, actions), Run(order, actions + [WriteRefused(h, true)] + [Read(h)] + [Write(h, revision)]);
            var q := s.handlers[h].sequence;
            && h in t.handlers && t.handlers[h].sequence == q && t.handlers[h].phase.Finished?
            && t.counted == if Reached(s.counted, q) then s.counted else s.counted + [q]
  {
    var after := actions + [WriteRefused(h, true)];
    RefusedIsRetried(order, actions, h);
    ReadsBackInRun(order, after);
    RunTwo(order, after, Read(h), Write(h, revision));
    ReadThenWrite(order, Run(order, after), h, revision, TotalOf(order, Run(order, after).counted));
  }

  // ---------------------------------------------------------------- replay

  lemma {:induction false} SameElements(a: seq<nat>, b: seq<nat>)
    requires Ascending(a) && Ascending(b) && forall q :: q in a <==> q in b
    ensures a == b
  {
    HasElement(a);
    HasElement(b);
    if a != [] {
      var m, n := |a| - 1, |b| - 1;
      SameLast(a, b);
      forall q ensures q in a[..m] <==> q in b[..n] {
        LastOnce(a, q);
        LastOnce(b, q);
      }
      SameElements(a[..m], b[..n]);
      assert a == a[..m] + [a[m]] && b == b[..n] + [b[n]];
    }
  }

  lemma SameLast(a: seq<nat>, b: seq<nat>)
    requires Ascending(a) && Ascending(b) && a != [] && b != [] && forall q :: q in a <==> q in b
    ensures a[|a| - 1] == b[|b| - 1]
  {
    var x, y := a[|a| - 1], b[|b| - 1];
    assert x in b && y in a;
  }

  lemma HasElement(a: seq<nat>)
    ensures a != [] ==> exists q :: q in a
  {
    if a != [] {
      assert a[0] in a;
    }
  }

  lemma LastOnce(a: seq<nat>, q: nat)
    requires Ascending(a) && a != []
    ensures q in a[..|a| - 1] <==> q in a && q != a[|a| - 1]
  {
    assert a == a[..|a| - 1] + [a[|a| - 1]];
  }

  /** Replaying a stream into an empty bucket rebuilds its total: every run in
      stream order that delivers the stream's orders, until each is answered Ok,
      leaves the total of that stream, however often it redelivers and retries. */
  lemma ReplayRebuilds(order: nat -> nat, actions: seq<Action>, stream: seq<nat>)
    requires AllInOrder(order, actions) && Ascending(stream)
    requires forall q :: q in stream <==> Delivered(Run(order, actions), q)
    requires forall q | q in stream :: Settled(Run(order, actions), q)
    ensures Run(order, actions).counted == stream
    ensures Existing(Run(order, actions)) == TotalOf(order, stream)
  {
    forall q ensures q in Run(order, actions).counted <==> q in stream {
      InOrderCountsExactlyTheDelivered(order, actions, q);
    }
    RunKeepsInv(order, actions);
    SameElements(Run(order, actions).counted, stream);
    ReadsBackInRun(order, actions);
  }

  /** There is such a run: each order delivered, read and written in turn. */
  function Replay(sequences: seq<nat>): seq<Action> {
    if sequences == [] then []
    else
      var n := |sequences| - 1;
      Replay(sequences[..n]) + [Deliver(n, sequences[n])] + [Read(n)] + [Write(n, n + 1)]
  }

  ghost predicate Replayed(s: State, sequences: seq<nat>) {
    s.counted == sequences && s.lastRevision == |sequences| && forall h | h in s.handlers :: h < |sequences|
  }

  lemma {:induction false} ReplayCounts(order: nat -> nat, sequences: seq<nat>)
    requires Ascending(sequences) && forall i | 0 <= i < |sequences| :: IsU64(sequences[i])
    ensures Replayed(Run(order, Replay(sequences)), sequences)
  {
    if sequences != [] {
      var n := |sequences| - 1;
      ReplayCounts(order, sequences[..n]);
      DeliveredInRun(order, Replay(sequences[..n]), Replay(sequences), Run(order, Replay(sequences[..n])), sequences[n]);
      assert sequences == sequences[..n] + [sequences[n]];
    }
  }

  lemma DeliveredInRun(order: nat -> nat, before: seq<Action>, after: seq<Action>, s: State, q: nat)
    requires s == Run(order, before) && Replayed(s, s.counted) && IsU64(q) && !Reached(s.counted, q)
    requires var n := |s.counted|; after == before + [Deliver(n, q)] + [Read(n)] + [Write(n, n + 1)]
    ensures Replayed(Run(order, after), s.counted + [q])
  {
    var n := |s.counted|;
    ReadsBackInRun(order, before);
    RunThree(order, before, Deliver(n, q), Read(n), Write(n, n + 1));
    ReplayedStep(order, s, q, TotalOf(order, s.counted));
  }

  lemma ReplayedStep(order: nat -> nat, s: State, q: nat, existing: Option<Total>)
    requires Replayed(s, s.counted) && IsU64(q) && Existing(s) == existing
    requires existing.Some? ==> existing.value.lastSequence < q
    ensures var n := |s.counted|;
            Replayed(Next(order, Next(order, Next(order, s, Deliver(n, q)), Read(n)), Write(n, n + 1)), s.counted + [q])
  {
    UnreachedIsCounted(order, s, |s.counted|, q, |s.counted| + 1, existing);
  }
}
