/** The sliding de-duplicator (aetherbond-core/src/redundancy/mod.rs): a ring of the numbers last
    accepted and a hash set that must agree with it.  The value 0 marks an empty slot and is also a
    legal number. */
module Redundancy {

  // ---------- What is remembered, as a function of the numbers accepted so far ----------

  function Oldest(n: nat, accepted: seq<nat>): nat {
    if |accepted| < n then 0 else |accepted| - n
  }

  /** The last n numbers accepted. */
  function Window(n: nat, accepted: seq<nat>): seq<nat> {
    accepted[Oldest(n, accepted)..]
  }

  /** A number is turned away if it is among the last n accepted; 0 also if it ever was accepted,
      because nothing takes 0 out of the set. */
  predicate Rejects(n: nat, accepted: seq<nat>, x: nat) {
    x in Window(n, accepted) || (x == 0 && 0 in accepted)
  }

  function Accept(n: nat, accepted: seq<nat>, x: nat): seq<nat> {
    if Rejects(n, accepted, x) then accepted else accepted + [x]
  }

  function AcceptAll(n: nat, accepted: seq<nat>, inputs: seq<nat>): seq<nat>
    decreases |inputs|
  {
    if inputs == [] then accepted else AcceptAll(n, Accept(n, accepted, inputs[0]), inputs[1..])
  }

  ghost function Members(n: nat, accepted: seq<nat>): set<nat> {
    (set x | x in Window(n, accepted) && x != 0) + (if 0 in accepted then {0} else {})
  }

  /** Two equal numbers were accepted more than n acceptances apart, and 0 never twice. */
  ghost predicate Separated(n: nat, accepted: seq<nat>) {
    forall i, j :: 0 <= i < j < |accepted| && accepted[i] == accepted[j] ==> accepted[i] != 0 && j - i > n
  }

  // ---------- The ring ----------

  /** The slot the write position has reached after k acceptances: k modulo n. */
  ghost function Slot(k: nat, n: nat): (slot: nat)
    requires n >= 1
    ensures slot < n
  {
    if k == 0 then 0 else if Slot(k - 1, n) + 1 == n then 0 else Slot(k - 1, n) + 1
  }

  lemma {:induction false} SlotAhead(k: nat, d: nat, n: nat)
    requires n >= 1 && d <= n
    ensures Slot(k + d, n) == if Slot(k, n) + d < n then Slot(k, n) + d else Slot(k, n) + d - n
  {
    if d > 0 {
      SlotAhead(k, d - 1, n);
    }
  }

  lemma NextSlot(k: nat, n: nat)
    requires n >= 1
    ensures Slot(k + 1, n) == (Slot(k, n) + 1) % n
  {
    var a := Slot(k, n) + 1;
    assert a < n ==> a % n == a;
  }

  ghost predicate RingHolds(n: nat, accepted: seq<nat>, ring: seq<nat>)
    requires n >= 1
  {
    && |ring| == n
    && (forall j :: Oldest(n, accepted) <= j < |accepted| ==> ring[Slot(j, n)] == accepted[j])
    && (forall i :: |accepted| <= i < n ==> ring[i] == 0)
  }

  /** Overwriting the slot at the write position keeps the ring equal to the last n accepted; the
      slot held the one number that leaves the window, or nothing. */
  lemma {:induction false} RingAdvances(n: nat, accepted: seq<nat>, ring: seq<nat>, x: nat)
    requires n >= 1 && RingHolds(n, accepted, ring)
    ensures var slot := Slot(|accepted|, n);
      && ring[slot] == (if |accepted| < n then 0 else accepted[|accepted| - n])
      && RingHolds(n, accepted + [x], ring[slot := x])
  {
    var k, grown := |accepted|, accepted + [x];
    if k < n {
      SlotAhead(0, k, n);
    } else {
      SlotAhead(k - n, n, n);
    }
    forall j | Oldest(n, grown) <= j < |grown|
      ensures ring[Slot(k, n) := x][Slot(j, n)] == grown[j]
    {
      SlotAhead(j, k - j, n);
    }
  }

  lemma {:induction false} SeparatedAdvances(n: nat, accepted: seq<nat>, x: nat)
    requires n >= 1 && Separated(n, accepted) && !Rejects(n, accepted, x)
    ensures Separated(n, accepted + [x])
  {
    forall i | Oldest(n, accepted) <= i < |accepted|
      ensures accepted[i] in Window(n, accepted)
    {
      assert Window(n, accepted)[i - Oldest(n, accepted)] == accepted[i];
    }
  }

  /** The number that leaves the window of a full ring is, unless it is 0, nowhere else in it. */
  lemma {:induction false} LeaverIsAlone(n: nat, accepted: seq<nat>)
    requires 1 <= n <= |accepted| && Separated(n, accepted)
    ensures accepted[|accepted| - n] != 0 ==> accepted[|accepted| - n] !in Window(n, accepted)[1..]
  {
    var w := Window(n, accepted);
    forall i | 0 <= i < |w[1..]|
      ensures w[1..][i] != accepted[|accepted| - n] || w[1..][i] == 0
    {
      assert w[1..][i] == accepted[|accepted| - n + 1 + i];
    }
  }

  /** What acceptance does to the remembered set: the number leaving the window goes, unless it is
      0, and the new one comes. */
  lemma {:induction false} MembersAdvance(n: nat, accepted: seq<nat>, x: nat)
    requires n >= 1 && Separated(n, accepted) && !Rejects(n, accepted, x)
    ensures var leaver := if |accepted| < n then 0 else accepted[|accepted| - n];
      Members(n, accepted + [x])
      == (if leaver != 0 then Members(n, accepted) - {leaver} else Members(n, accepted)) + {x}
  {
    var w, w' := Window(n, accepted), Window(n, accepted + [x]);
    if |accepted| < n {
      assert w' == w + [x];
    } else {
      LeaverIsAlone(n, accepted);
      assert w == [w[0]] + w[1..];
      assert w' == w[1..] + [x];
    }
  }

  /** The ring, the set and the write position agree with the numbers accepted so far. */
  ghost predicate Remembers(n: nat, accepted: seq<nat>, ring: seq<nat>, members: set<nat>, writeIdx: nat) {
    && n >= 1 && RingHolds(n, accepted, ring) && writeIdx == Slot(|accepted|, n)
    && members == Members(n, accepted) && Separated(n, accepted)
  }

  lemma {:induction false} RemembersAdvances(n: nat, accepted: seq<nat>, ring: seq<nat>, members: set<nat>,
        writeIdx: nat, x: nat)
    requires Remembers(n, accepted, ring, members, writeIdx) && !Rejects(n, accepted, x)
    ensures var kept := if ring[writeIdx] != 0 then members - {ring[writeIdx]} else members;
      Remembers(n, accepted + [x], ring[writeIdx := x], kept + {x}, (writeIdx + 1) % n)
  {
    RingAdvances(n, accepted, ring, x);
    MembersAdvance(n, accepted, x);
    SeparatedAdvances(n, accepted, x);
    NextSlot(|accepted|, n);
  }

  /** The one acceptance among the last n that a slot of the ring belongs to. */
  lemma {:induction false} AcceptanceIn(n: nat, k: nat, slot: nat) returns (j: nat)
    requires slot < n && slot < k
    ensures j < k <= j + n && Slot(j, n) == slot
  {
    if k < n {
      j := slot;
      SlotAhead(0, slot, n);
    } else {
      var first := Slot(k - n, n);
      var ahead := if first <= slot then slot - first else slot - first + n;
      SlotAhead(k - n, ahead, n);
      j := k - n + ahead;
    }
  }

  lemma {:induction false} SlotHolds(n: nat, accepted: seq<nat>, ring: seq<nat>, i: nat) returns (j: nat)
    requires i < n && RingHolds(n, accepted, ring) && ring[i] != 0
    ensures Oldest(n, accepted) <= j < |accepted| && Slot(j, n) == i && accepted[j] == ring[i]
  {
    j := AcceptanceIn(n, |accepted|, i);
  }

  lemma {:induction false} RingIsDistinct(n: nat, accepted: seq<nat>, ring: seq<nat>, i: nat, k: nat)
    requires n >= 1 && RingHolds(n, accepted, ring) && Separated(n, accepted)
    requires i < k < n && ring[i] == ring[k]
    ensures ring[i] == 0
  {
    if ring[i] != 0 {
      var j := SlotHolds(n, accepted, ring, i);
      var l := SlotHolds(n, accepted, ring, k);
    }
  }

  lemma {:induction false} RingIsTheWindow(n: nat, accepted: seq<nat>, ring: seq<nat>, x: nat)
    requires n >= 1 && RingHolds(n, accepted, ring) && x != 0
    ensures x in ring <==> x in Window(n, accepted)
  {
    if x in ring {
      var i :| 0 <= i < n && ring[i] == x;
      var j := SlotHolds(n, accepted, ring, i);
      assert Window(n, accepted)[j - Oldest(n, accepted)] == x;
    }
    if x in Window(n, accepted) {
      var d :| 0 <= d < |Window(n, accepted)| && Window(n, accepted)[d] == x;
      assert ring[Slot(Oldest(n, accepted) + d, n)] == accepted[Oldest(n, accepted) + d];
    }
  }

  /** The ring and the set agree: no nonzero number stands in two slots, and the set holds the nonzero
      numbers of the ring, and 0 if it was ever accepted. */
  lemma {:induction false} RingAndSetAgree(n: nat, accepted: seq<nat>, ring: seq<nat>, members: set<nat>, writeIdx: nat)
    requires Remembers(n, accepted, ring, members, writeIdx)
    ensures forall i, k :: 0 <= i < k < n && ring[i] == ring[k] ==> ring[i] == 0
    ensures members == (set x | x in ring && x != 0) + (if 0 in accepted then {0} else {})
  {
    forall i, k | 0 <= i < k < n && ring[i] == ring[k]
      ensures ring[i] == 0
    {
      RingIsDistinct(n, accepted, ring, i, k);
    }
    forall x: nat | x != 0
      ensures x in ring <==> x in Window(n, accepted)
    {
      RingIsTheWindow(n, accepted, ring, x);
    }
  }

  lemma RejectsMembers(n: nat, accepted: seq<nat>, x: nat)
    ensures x in Members(n, accepted) <==> Rejects(n, accepted, x)
    ensures x != 0 ==> (Rejects(n, accepted, x) <==> x in Window(n, accepted))
    ensures x == 0 ==> (Rejects(n, accepted, x) <==> x in accepted)
  {
  }

  // ---------- The class ----------

  class SlidingDeDuplicator {
    const maxHistory: nat
    const history: array<nat>
    var members: set<nat>
    var writeIdx: nat
    ghost var accepted: seq<nat>

    ghost predicate Valid()
      reads this, history
    {
      Remembers(maxHistory, accepted, history[..], members, writeIdx)
    }

    /** With no slot at all the first registration would index outside the ring. */
    constructor (maxHistory: nat)
      ensures maxHistory >= 1 ==> Valid()
      ensures this.maxHistory == maxHistory == history.Length && accepted == [] && fresh(history)
    {
      this.maxHistory := maxHistory;
      history := new nat[maxHistory](i => 0);
      members, writeIdx, accepted := {}, 0, [];
    }

    /** true for a new number, false for one to drop. */
    method Register(x: nat) returns (isNew: bool)
      requires Valid()
      modifies this, history
      ensures Valid()
      ensures x != 0 ==> (isNew <==> x !in Window(maxHistory, old(accepted)))
      ensures x == 0 ==> (isNew <==> x !in old(accepted))
      ensures accepted == (if isNew then old(accepted) + [x] else old(accepted))
    {
      RejectsMembers(maxHistory, accepted, x);
      if x in members {
        return false;
      }
      ghost var ring := history[..];
      RemembersAdvances(maxHistory, accepted, ring, members, writeIdx, x);
      var evicted := history[writeIdx];
      if evicted != 0 {
        members := members - {evicted};
      }
      history[writeIdx] := x;
      assert history[..] == ring[writeIdx := x];
      members := members + {x};
      writeIdx := (writeIdx + 1) % maxHistory;
      accepted := accepted + [x];
      isNew := true;
    }

    method Size() returns (n: nat)
      requires Valid()
      ensures n == |Members(maxHistory, accepted)|
    {
      n := |members|;
    }
  }

  // ---------- Whole runs ----------

  /** After any inputs, equal accepted numbers are more than n acceptances apart and 0 was accepted
      at most once. */
  lemma {:induction false} RunSeparates(n: nat, accepted: seq<nat>, inputs: seq<nat>)
    requires n >= 1 && Separated(n, accepted)
    ensures Separated(n, AcceptAll(n, accepted, inputs))
    ensures accepted <= AcceptAll(n, accepted, inputs)
    decreases |inputs|
  {
    if inputs == [] {
    } else {
      if !Rejects(n, accepted, inputs[0]) {
        SeparatedAdvances(n, accepted, inputs[0]);
      }
      RunSeparates(n, Accept(n, accepted, inputs[0]), inputs[1..]);
    }
  }

  lemma {:induction false} AcceptAllSplit(n: nat, accepted: seq<nat>, first: seq<nat>, second: seq<nat>)
    ensures AcceptAll(n, accepted, first + second) == AcceptAll(n, AcceptAll(n, accepted, first), second)
    decreases |first|
  {
    if first == [] {
      assert first + second == second;
    } else {
      assert (first + second)[1..] == first[1..] + second;
      AcceptAllSplit(n, Accept(n, accepted, first[0]), first[1..], second);
    }
  }

  /** How often the registrations of these inputs return true. */
  function TimesNew(n: nat, accepted: seq<nat>, inputs: seq<nat>): nat
    decreases |inputs|
  {
    if inputs == [] then 0
    else (if Rejects(n, accepted, inputs[0]) then 0 else 1) + TimesNew(n, Accept(n, accepted, inputs[0]), inputs[1..])
  }

  lemma {:induction false} TimesNewCounts(n: nat, accepted: seq<nat>, inputs: seq<nat>)
    ensures |AcceptAll(n, accepted, inputs)| == |accepted| + TimesNew(n, accepted, inputs)
    decreases |inputs|
  {
    if inputs != [] {
      TimesNewCounts(n, Accept(n, accepted, inputs[0]), inputs[1..]);
    }
  }

  ghost predicate IsWindow(n: nat, accepted: seq<nat>) {
    forall x :: x in Members(n, accepted) <==> x in Window(n, accepted)
  }

  lemma {:induction false} IsWindowIff(n: nat, accepted: seq<nat>)
    ensures IsWindow(n, accepted) <==> (0 in accepted ==> 0 in Window(n, accepted))
  {
    if 0 in accepted && 0 !in Window(n, accepted) {
      assert 0 in Members(n, accepted);
    }
    if 0 in Window(n, accepted) {
      assert 0 in accepted;
    }
  }

  /** Exactly when the set is the sliding window of the last n accepted.  Without a 0 it always is.
      After a first 0 it is as long as registration has returned true fewer than n times since. */
  lemma {:induction false} WindowExactly(n: nat, before: seq<nat>, after: seq<nat>)
    requires n >= 1 && 0 !in before
    ensures IsWindow(n, AcceptAll(n, [], before))
    ensures IsWindow(n, AcceptAll(n, [], before + [0] + after))
      <==> TimesNew(n, AcceptAll(n, [], before + [0]), after) < n
  {
    var p, q := AcceptAll(n, [], before), AcceptAll(n, [], before + [0]);
    var a := AcceptAll(n, [], before + [0] + after);
    ZeroIsAccepted(n, [], before);
    IsWindowIff(n, p);
    IsWindowIff(n, a);
    AcceptAllSplit(n, [], before, [0]);
    assert [0][1..] == [];
    assert AcceptAll(n, p, [0]) == Accept(n, p, 0) == p + [0];
    AcceptAllSplit(n, [], before + [0], after);
    RunSeparates(n, [], before + [0]);
    RunSeparates(n, q, after);
    TimesNewCounts(n, q, after);
    assert a[|p|] == 0;
    if |p| >= Oldest(n, a) {
      assert Window(n, a)[|p| - Oldest(n, a)] == 0;
    }
  }

  lemma {:induction false} ZeroIsAccepted(n: nat, accepted: seq<nat>, inputs: seq<nat>)
    ensures 0 in AcceptAll(n, accepted, inputs) <==> 0 in accepted || 0 in inputs
    decreases |inputs|
  {
    if inputs != [] {
      var grown := Accept(n, accepted, inputs[0]);
      if 0 in Window(n, accepted) {
        assert 0 in accepted;
      }
      assert 0 in grown <==> 0 in accepted || inputs[0] == 0;
      ZeroIsAccepted(n, grown, inputs[1..]);
    }
  }

  lemma {:induction false} SetOfSeqIsNotLarger(s: seq<nat>, m: set<nat>)
    requires forall x :: x in m ==> x in s
    ensures |m| <= |s|
    decreases |s|
  {
    if s == [] {
      assert m == {};
    } else {
      SetOfSeqIsNotLarger(s[1..], m - {s[0]});
    }
  }

  /** The set never outgrows the ring by more than the one undying 0. */
  lemma {:induction false} SizeBound(n: nat, inputs: seq<nat>)
    requires n >= 1
    ensures var a := AcceptAll(n, [], inputs);
      |Members(n, a)| <= n + 1 && (0 !in inputs ==> |Members(n, a)| <= n)
  {
    var a := AcceptAll(n, [], inputs);
    SetOfSeqIsNotLarger(Window(n, a), Members(n, a) - {0});
    ZeroIsAccepted(n, [], inputs);
  }

  lemma {:induction false} ThreeInputs(n: nat, x: nat, y: nat, z: nat)
    ensures AcceptAll(n, [], [x, y, z]) == Accept(n, Accept(n, Accept(n, [], x), y), z)
  {
    assert [x, y, z][1..] == [y, z] && [y, z][1..] == [z] && [z][1..] == [];
    var one := Accept(n, [], x);
    var two := Accept(n, one, y);
    assert AcceptAll(n, two, [z]) == Accept(n, two, z);
    assert AcceptAll(n, one, [y, z]) == AcceptAll(n, two, [z]);
  }

  /** The window does not slide for 0: with room for one number, a number comes in again after another
      one has pushed it out, and is taken again unless it is 0. */
  lemma {:induction false} ZeroNeverAgesOut(x: nat, y: nat)
    requires x != y
    ensures AcceptAll(1, [], [x, y, x]) == if x == 0 then [x, y] else [x, y, x]
    ensures x !in Window(1, [x, y])
  {
    ThreeInputs(1, x, y, x);
    assert Window(1, [x]) == [x] && Window(1, [x, y]) == [y];
  }
}
