// The RTP/RTCP port allocator: a bitmap over [min, max] with a rotating cursor.

/** Positions on the ring of ports lo, lo+1, ..., hi, lo, ... */
module PortRing {

  function Succ(lo: nat, hi: nat, p: nat): nat {
    if p + 1 > hi then lo else p + 1
  }

  /** Number of `Succ` steps that lead from c to p. */
  function Dist(lo: nat, hi: nat, c: nat, p: nat): int {
    if c <= p then p - c else p + (hi - lo + 1) - c
  }

  predicate Free(lo: nat, hi: nat, taken: set<nat>, p: nat) {
    lo <= p <= hi && p !in taken
  }

  /** p is the first port outside `taken` that a walk from c meets. */
  ghost predicate FirstFree(lo: nat, hi: nat, taken: set<nat>, c: nat, p: nat)
    requires lo <= c <= hi
  {
    && Free(lo, hi, taken, p)
    && forall q :: Free(lo, hi, taken, q) ==> Dist(lo, hi, c, p) <= Dist(lo, hi, c, q)
  }

  /** e and e+1 can carry RTP and RTCP: e is even and both ports are free. */
  predicate FreePair(lo: nat, hi: nat, taken: set<nat>, e: nat) {
    e % 2 == 0 && Free(lo, hi, taken, e) && Free(lo, hi, taken, e + 1)
  }

  ghost predicate HasPair(lo: nat, hi: nat, taken: set<nat>) {
    exists e :: FreePair(lo, hi, taken, e)
  }

  ghost predicate FirstPair(lo: nat, hi: nat, taken: set<nat>, c: nat, e: nat)
    requires lo <= c <= hi
  {
    && FreePair(lo, hi, taken, e)
    && forall f :: FreePair(lo, hi, taken, f) ==> Dist(lo, hi, c, e) <= Dist(lo, hi, c, f)
  }

  /** x lies on the walk from c to e. */
  predicate Between(lo: nat, hi: nat, c: nat, x: nat, e: nat) {
    && lo <= c <= hi && lo <= x <= hi && lo <= e <= hi
    && Dist(lo, hi, c, x) <= Dist(lo, hi, c, e)
  }

  /** Pigeonhole: fewer taken ports than ports leaves one free. */
  lemma {:induction false} SomeFree(lo: nat, hi: nat, taken: set<nat>)
    requires lo <= hi + 1
    requires |taken| < hi + 1 - lo
    ensures exists p :: Free(lo, hi, taken, p)
    decreases hi + 1 - lo
  {
    if hi in taken {
      var rest := taken - {hi};
      SomeFree(lo, hi - 1, rest);
      var p :| Free(lo, hi - 1, rest, p);
      assert Free(lo, hi, taken, p);
    } else {
      assert Free(lo, hi, taken, hi);
    }
  }

  lemma {:induction false} FirstFreeFrom(lo: nat, hi: nat, taken: set<nat>, c: nat, p: nat) returns (first: nat)
    requires lo <= c <= hi
    requires Free(lo, hi, taken, p)
    ensures FirstFree(lo, hi, taken, c, first)
    decreases Dist(lo, hi, c, p)
  {
    if q :| Free(lo, hi, taken, q) && Dist(lo, hi, c, q) < Dist(lo, hi, c, p) {
      first := FirstFreeFrom(lo, hi, taken, c, q);
    } else {
      first := p;
    }
  }

  lemma {:induction false} FirstPairFrom(lo: nat, hi: nat, taken: set<nat>, c: nat, e: nat) returns (first: nat)
    requires lo <= c <= hi
    requires FreePair(lo, hi, taken, e)
    ensures FirstPair(lo, hi, taken, c, first)
    decreases Dist(lo, hi, c, e)
  {
    if f :| FreePair(lo, hi, taken, f) && Dist(lo, hi, c, f) < Dist(lo, hi, c, e) {
      first := FirstPairFrom(lo, hi, taken, c, f);
    } else {
      first := e;
    }
  }

  /** Every port that the walk from c passes before it reaches x is taken. */
  ghost predicate TakenBefore(lo: nat, hi: nat, taken: set<nat>, c: nat, x: nat)
    requires lo <= c <= hi && lo <= x <= hi
  {
    forall q :: Free(lo, hi, taken, q) ==> Dist(lo, hi, c, x) <= Dist(lo, hi, c, q)
  }

  /** Passing a taken port x keeps every port before the cursor taken, and comes closer to each free port. */
  lemma PassTaken(lo: nat, hi: nat, taken: set<nat>, c: nat, x: nat, goal: nat)
    requires lo <= c <= hi && lo <= x <= hi
    requires TakenBefore(lo, hi, taken, c, x) && Free(lo, hi, taken, goal) && x in taken
    ensures lo <= Succ(lo, hi, x) <= hi
    ensures TakenBefore(lo, hi, taken, c, Succ(lo, hi, x))
    ensures Dist(lo, hi, Succ(lo, hi, x), goal) < Dist(lo, hi, x, goal)
  {
  }

  // ---- the pair search as a walk, one call of GetOne a step ----

  /** Where the search stands: looking for an even port, holding an even port, or holding a pair. */
  datatype Search = Seeking(cursor: nat) | Holding(low: nat) | Done(pair: nat)

  ghost function First(lo: nat, hi: nat, taken: set<nat>, c: nat): (p: nat)
    requires lo <= c <= hi
    requires exists p :: Free(lo, hi, taken, p)
    ensures FirstFree(lo, hi, taken, c, p)
  {
    var q :| Free(lo, hi, taken, q);
    assert exists p :: FirstFree(lo, hi, taken, c, p) by {
      var p := FirstFreeFrom(lo, hi, taken, c, q);
    }
    var p :| FirstFree(lo, hi, taken, c, p);
    p
  }

  /** Two ports at least are free, so that holding one leaves one to find. */
  ghost predicate Roomy(lo: nat, hi: nat, taken: set<nat>) {
    lo <= hi && |taken| + 2 <= hi - lo + 1
  }

  ghost predicate InRing(lo: nat, hi: nat, s: Search) {
    match s
    case Seeking(c) => lo <= c <= hi
    case Holding(l) => lo <= l <= hi && l % 2 == 0
    case Done(l) => true
  }

  ghost function Step(lo: nat, hi: nat, taken: set<nat>, s: Search): (s': Search)
    requires Roomy(lo, hi, taken) && InRing(lo, hi, s)
    ensures InRing(lo, hi, s')
  {
    match s
    case Done(_) => s
    case Seeking(c) =>
      SomeFree(lo, hi, taken);
      var p := First(lo, hi, taken, c);
      if p % 2 == 1 then Seeking(Succ(lo, hi, p)) else Holding(p)
    case Holding(l) =>
      SomeFree(lo, hi, taken + {l});
      var p := First(lo, hi, taken + {l}, Succ(lo, hi, l));
      if p == l + 1 then Done(l)
      else if p % 2 == 1 then Seeking(Succ(lo, hi, p))
      else Holding(p)
  }

  ghost function Steps(lo: nat, hi: nat, taken: set<nat>, n: nat, s: Search): (s': Search)
    requires Roomy(lo, hi, taken) && InRing(lo, hi, s)
    ensures InRing(lo, hi, s')
  {
    if n == 0 then s else Step(lo, hi, taken, Steps(lo, hi, taken, n - 1, s))
  }

  ghost predicate Visits(lo: nat, hi: nat, taken: set<nat>, c: nat, s: Search)
    requires Roomy(lo, hi, taken) && lo <= c <= hi
  {
    exists n: nat :: Steps(lo, hi, taken, n, Seeking(c)) == s
  }

  /** s is on the walk from c to the pair at goal, and what it holds is free. */
  ghost predicate OnTrack(lo: nat, hi: nat, taken: set<nat>, c: nat, goal: nat, s: Search)
    requires Roomy(lo, hi, taken) && lo <= c <= hi
  {
    && Visits(lo, hi, taken, c, s)
    && match s
       case Seeking(x) => Between(lo, hi, c, x, goal)
       case Holding(l) => Between(lo, hi, c, l, goal) && l % 2 == 0 && l !in taken
       case Done(_) => false
  }

  ghost function Remaining(lo: nat, hi: nat, goal: nat, s: Search): int {
    match s
    case Seeking(x) => 2 * Dist(lo, hi, x, goal) + 1
    case Holding(l) => 2 * Dist(lo, hi, l, goal)
    case Done(_) => -1
  }

  lemma FirstIsUnique(lo: nat, hi: nat, taken: set<nat>, c: nat, p: nat)
    requires lo <= c <= hi && FirstFree(lo, hi, taken, c, p)
    ensures First(lo, hi, taken, c) == p
  {
    var q := First(lo, hi, taken, c);
    assert Dist(lo, hi, c, p) == Dist(lo, hi, c, q);
  }

  lemma VisitsOn(lo: nat, hi: nat, taken: set<nat>, c: nat, s: Search)
    requires Roomy(lo, hi, taken) && lo <= c <= hi && Visits(lo, hi, taken, c, s)
    ensures InRing(lo, hi, s) && Visits(lo, hi, taken, c, Step(lo, hi, taken, s))
  {
    var n: nat :| Steps(lo, hi, taken, n, Seeking(c)) == s;
    assert Steps(lo, hi, taken, n + 1, Seeking(c)) == Step(lo, hi, taken, s);
  }

  /** What GetOne does while the search looks for an even port: p is the port it hands out. */
  lemma SeekingOn(lo: nat, hi: nat, taken: set<nat>, c: nat, goal: nat, x: nat, p: nat)
    requires Roomy(lo, hi, taken) && lo <= c <= hi && FirstPair(lo, hi, taken, c, goal)
    requires OnTrack(lo, hi, taken, c, goal, Seeking(x))
    requires FirstFree(lo, hi, taken, x, p)
    ensures var s := if p % 2 == 1 then Seeking(Succ(lo, hi, p)) else Holding(p);
            && OnTrack(lo, hi, taken, c, goal, s)
            && 0 <= Remaining(lo, hi, goal, s) < Remaining(lo, hi, goal, Seeking(x))
  {
    FirstIsUnique(lo, hi, taken, x, p);
    VisitsOn(lo, hi, taken, c, Seeking(x));
    PastSought(lo, hi, taken, c, goal, x, p);
  }

  lemma PastSought(lo: nat, hi: nat, taken: set<nat>, c: nat, goal: nat, x: nat, p: nat)
    requires lo <= c <= hi && FirstPair(lo, hi, taken, c, goal)
    requires Between(lo, hi, c, x, goal) && FirstFree(lo, hi, taken, x, p)
    ensures Between(lo, hi, c, p, goal) && 0 <= Dist(lo, hi, p, goal) <= Dist(lo, hi, x, goal)
    ensures p % 2 == 1 ==> Between(lo, hi, c, Succ(lo, hi, p), goal)
                           && 0 <= Dist(lo, hi, Succ(lo, hi, p), goal) < Dist(lo, hi, x, goal)
  {
    assert Free(lo, hi, taken, goal);
  }

  lemma PastHeld(lo: nat, hi: nat, taken: set<nat>, c: nat, goal: nat, l: nat, p: nat)
    requires lo <= c <= hi && FirstPair(lo, hi, taken, c, goal)
    requires Between(lo, hi, c, l, goal) && l % 2 == 0 && l !in taken
    requires FirstFree(lo, hi, taken + {l}, Succ(lo, hi, l), p)
    ensures if p == l + 1 then l == goal
            else && Between(lo, hi, c, p, goal) && Dist(lo, hi, p, goal) < Dist(lo, hi, l, goal)
                 && (p != goal ==> Dist(lo, hi, Succ(lo, hi, p), goal) < Dist(lo, hi, p, goal)
                                   && Between(lo, hi, c, Succ(lo, hi, p), goal))
  {
    if l == goal {
      assert Free(lo, hi, taken + {l}, l + 1);
    } else {
      assert Free(lo, hi, taken + {l}, goal);
      if p == l + 1 {
        assert FreePair(lo, hi, taken, l);
      }
    }
  }

  /** What GetOne does while the search holds the even port l. */
  lemma HoldingOn(lo: nat, hi: nat, taken: set<nat>, c: nat, goal: nat, l: nat, p: nat)
    requires Roomy(lo, hi, taken) && lo <= c <= hi && FirstPair(lo, hi, taken, c, goal)
    requires OnTrack(lo, hi, taken, c, goal, Holding(l))
    requires FirstFree(lo, hi, taken + {l}, Succ(lo, hi, l), p)
    ensures if p == l + 1 then l == goal && Visits(lo, hi, taken, c, Done(l))
            else var s := if p % 2 == 1 then Seeking(Succ(lo, hi, p)) else Holding(p);
                 && OnTrack(lo, hi, taken, c, goal, s)
                 && 0 <= Remaining(lo, hi, goal, s) < Remaining(lo, hi, goal, Holding(l))
  {
    FirstIsUnique(lo, hi, taken + {l}, Succ(lo, hi, l), p);
    VisitsOn(lo, hi, taken, c, Holding(l));
    PastHeld(lo, hi, taken, c, goal, l, p);
  }

  lemma HoldingStep(lo: nat, hi: nat, taken: set<nat>, c: nat, goal: nat, l: nat)
    requires Roomy(lo, hi, taken) && lo <= c <= hi && FirstPair(lo, hi, taken, c, goal)
    requires OnTrack(lo, hi, taken, c, goal, Holding(l))
    ensures var s := Step(lo, hi, taken, Holding(l));
            if s.Done? then s == Done(goal) && l == goal && Visits(lo, hi, taken, c, s)
            else && OnTrack(lo, hi, taken, c, goal, s)
                 && 0 <= Remaining(lo, hi, goal, s) < Remaining(lo, hi, goal, Holding(l))
  {
    SomeFree(lo, hi, taken + {l});
    HoldingOn(lo, hi, taken, c, goal, l, First(lo, hi, taken + {l}, Succ(lo, hi, l)));
  }

  lemma {:induction false} WalkReachesGoal(lo: nat, hi: nat, taken: set<nat>, c: nat, goal: nat, s: Search)
    requires Roomy(lo, hi, taken) && lo <= c <= hi && FirstPair(lo, hi, taken, c, goal)
    requires OnTrack(lo, hi, taken, c, goal, s)
    ensures Visits(lo, hi, taken, c, Done(goal))
    decreases Remaining(lo, hi, goal, s)
  {
    match s {
      case Seeking(x) =>
        SomeFree(lo, hi, taken);
        var p := First(lo, hi, taken, x);
        SeekingOn(lo, hi, taken, c, goal, x, p);
        WalkReachesGoal(lo, hi, taken, c, goal, if p % 2 == 1 then Seeking(Succ(lo, hi, p)) else Holding(p));
      case Holding(l) =>
        SomeFree(lo, hi, taken + {l});
        var p := First(lo, hi, taken + {l}, Succ(lo, hi, l));
        HoldingOn(lo, hi, taken, c, goal, l, p);
        if p != l + 1 {
          WalkReachesGoal(lo, hi, taken, c, goal, if p % 2 == 1 then Seeking(Succ(lo, hi, p)) else Holding(p));
        }
    }
  }

  /** Without a free pair no number of steps finds one: the source's loop runs for ever. */
  lemma {:induction false} NoPairNeverDone(lo: nat, hi: nat, taken: set<nat>, c: nat, n: nat)
    requires Roomy(lo, hi, taken) && lo <= c <= hi
    requires !HasPair(lo, hi, taken)
    ensures var s := Steps(lo, hi, taken, n, Seeking(c));
            !s.Done? && (s.Holding? ==> Free(lo, hi, taken, s.low))
  {
    if n > 0 {
      NoPairNeverDone(lo, hi, taken, c, n - 1);
      NoPairNext(lo, hi, taken, Steps(lo, hi, taken, n - 1, Seeking(c)));
    }
  }

  lemma NoPairNext(lo: nat, hi: nat, taken: set<nat>, s: Search)
    requires Roomy(lo, hi, taken) && InRing(lo, hi, s) && !HasPair(lo, hi, taken)
    requires !s.Done? && (s.Holding? ==> Free(lo, hi, taken, s.low))
    ensures var r := Step(lo, hi, taken, s);
            !r.Done? && (r.Holding? ==> Free(lo, hi, taken, r.low))
  {
    if s.Holding? {
      assert !FreePair(lo, hi, taken, s.low);
      SomeFree(lo, hi, taken + {s.low});
    } else {
      SomeFree(lo, hi, taken);
    }
  }

  lemma StepSeeking(lo: nat, hi: nat, taken: set<nat>, x: nat, p: nat)
    requires Roomy(lo, hi, taken) && lo <= x <= hi && FirstFree(lo, hi, taken, x, p)
    ensures Step(lo, hi, taken, Seeking(x)) == if p % 2 == 1 then Seeking(Succ(lo, hi, p)) else Holding(p)
  {
    FirstIsUnique(lo, hi, taken, x, p);
  }

  lemma StepHolding(lo: nat, hi: nat, taken: set<nat>, l: nat, p: nat)
    requires Roomy(lo, hi, taken) && InRing(lo, hi, Holding(l)) && FirstFree(lo, hi, taken + {l}, Succ(lo, hi, l), p)
    ensures Step(lo, hi, taken, Holding(l)) ==
            if p == l + 1 then Done(l) else if p % 2 == 1 then Seeking(Succ(lo, hi, p)) else Holding(p)
  {
    FirstIsUnique(lo, hi, taken + {l}, Succ(lo, hi, l), p);
  }

  lemma StartsOnTrack(lo: nat, hi: nat, taken: set<nat>, c: nat, goal: nat)
    requires Roomy(lo, hi, taken) && lo <= c <= hi && Free(lo, hi, taken, goal)
    ensures OnTrack(lo, hi, taken, c, goal, Seeking(c))
  {
    assert Steps(lo, hi, taken, 0, Seeking(c)) == Seeking(c);
  }

  /** The search ends if and only if there is a free pair, and then at the first one from the cursor. */
  lemma SearchEndsIffPair(lo: nat, hi: nat, taken: set<nat>, c: nat)
    requires Roomy(lo, hi, taken) && lo <= c <= hi
    ensures (exists e :: Visits(lo, hi, taken, c, Done(e))) <==> HasPair(lo, hi, taken)
    ensures forall e :: FirstPair(lo, hi, taken, c, e) ==> Visits(lo, hi, taken, c, Done(e))
  {
    if e :| Visits(lo, hi, taken, c, Done(e)) {
      var n: nat :| Steps(lo, hi, taken, n, Seeking(c)) == Done(e);
      if !HasPair(lo, hi, taken) {
        NoPairNeverDone(lo, hi, taken, c, n);
      }
    }
    forall e | FirstPair(lo, hi, taken, c, e)
      ensures Visits(lo, hi, taken, c, Done(e))
    {
      StartsOnTrack(lo, hi, taken, c, e);
      WalkReachesGoal(lo, hi, taken, c, e, Seeking(c));
    }
    if e :| FreePair(lo, hi, taken, e) {
      var goal := FirstPairFrom(lo, hi, taken, c, e);
    }
  }
}

module MediaPorts {
  import opened PortRing

  datatype Status = Ok | OutOfPorts

  /** cells holds one bit a port from min on, set exactly for the ports handed out or withheld. */
  ghost predicate Accounts(cells: seq<bool>, min: nat, max: nat, held: set<nat>, reserved: set<nat>) {
    && min <= max && |cells| == max - min + 1
    && held !! reserved
    && (forall p :: p in held || p in reserved ==> min <= p <= max)
    && (forall i :: 0 <= i < |cells| ==> cells[i] == (min + i in held || min + i in reserved))
  }

  lemma Claim(cells: seq<bool>, min: nat, max: nat, held: set<nat>, reserved: set<nat>, p: nat)
    requires Accounts(cells, min, max, held, reserved) && min <= p <= max
    ensures if cells[p - min] then (p in held || p in reserved) && cells[p - min := true] == cells
            else p !in held && p !in reserved && Accounts(cells[p - min := true], min, max, held + {p}, reserved)
  {
    assert p == min + (p - min);
  }

  lemma Withhold(cells: seq<bool>, min: nat, max: nat, held: set<nat>, reserved: set<nat>, p: nat)
    requires Accounts(cells, min, max, held, reserved) && min <= p <= max
    ensures if cells[p - min] then (p in held || p in reserved) && cells[p - min := true] == cells
            else p !in held && p !in reserved && Accounts(cells[p - min := true], min, max, held, reserved + {p})
  {
    assert p == min + (p - min);
  }

  lemma Release(cells: seq<bool>, min: nat, max: nat, held: set<nat>, reserved: set<nat>, p: nat)
    requires Accounts(cells, min, max, held, reserved) && p in held + reserved
    ensures cells[p - min] && Accounts(cells[p - min := false], min, max, held - {p}, reserved - {p})
    ensures p in reserved ==> held - {p} == held && !Accounts(cells[p - min := false], min, max, held, reserved)
    ensures p in held ==> reserved - {p} == reserved
  {
    assert p == min + (p - min);
    assert !cells[p - min := false][p - min];
  }

  lemma SameAccounts(a: seq<bool>, b: seq<bool>, min: nat, max: nat, held: set<nat>, reserved: set<nat>)
    requires Accounts(a, min, max, held, reserved) && Accounts(b, min, max, held, reserved)
    ensures a == b
  {
  }

  lemma CountTaken(held: set<nat>, reserved: set<nat>)
    requires held !! reserved
    ensures |held + reserved| == |held| + |reserved|
  {
  }

  lemma OneLess(held: set<nat>, reserved: set<nat>, p: nat)
    requires held !! reserved && p in held + reserved
    ensures |held - {p}| == if p in held then |held| - 1 else |held|
    ensures |reserved - {p}| == if p in held then |reserved| else |reserved| - 1
  {
    if p in held {
      assert reserved - {p} == reserved;
    } else {
      assert held - {p} == held;
    }
  }

  /** Where two ports are free, holding one leaves one. */
  lemma OneMoreHeld(lo: nat, hi: nat, held: set<nat>, reserved: set<nat>, low: nat)
    requires Roomy(lo, hi, held + reserved)
    ensures held + {low} + reserved == held + reserved + {low}
    ensures |held + {low} + reserved| < hi - lo + 1
  {
    assert held + {low} + reserved == held + reserved + {low};
  }

  lemma PairReturned(lo: nat, hi: nat, held: set<nat>, reserved: set<nat>, low: nat)
    requires FreePair(lo, hi, held + reserved, low)
    ensures held + {low, low + 1} - {low, low + 1} == held
  {
    HeldTwo(held, low, low + 1);
  }

  function Both(low: nat): set<nat> {
    {low, low + 1}
  }

  lemma PairOf(held: set<nat>, low: nat, high: nat)
    requires high == low + 1
    ensures held + Both(low) == held + {low, high}
  {
    assert Both(low) == {low, high};
  }

  lemma HeldTwo(held: set<nat>, low: nat, high: nat)
    requires low !in held && high !in held && low != high
    ensures held + {low} + {high} == held + {low, high}
    ensures held + {low} + {high} - {low} == held + {high}
    ensures held + {low, high} - {low, high} == held
  {
  }

  class Bitmap {
    const bits: array<bool>

    constructor (size: nat)
      ensures fresh(bits) && bits.Length == size
      ensures forall i :: 0 <= i < size ==> !bits[i]
    {
      bits := new bool[size](_ => false);
    }

    method TestAndSet(i: nat) returns (old_: bool)
      requires i < bits.Length
      modifies bits
      ensures bits[..] == old(bits[..])[i := true] && old_ == old(bits[i])
    {
      old_ := bits[i];
      bits[i] := true;
    }

    /** Reset of a bit that is not set is an assertion failure in the source. */
    method Reset(i: nat)
      requires i < bits.Length && bits[i]
      modifies bits
      ensures bits[..] == old(bits[..])[i := false]
    {
      bits[i] := false;
    }
  }

  class PortsCtl {
    const min: nat
    const max: nat
    const bitmap: Bitmap
    var used: nat
    var next: nat
    var reserved: nat
    ghost var Reserved: set<nat>  // ports withheld by SetReserved
    ghost var Held: set<nat>      // ports handed out and not put back

    ghost predicate Valid()
      reads this, bitmap, bitmap.bits
    {
      && 0 < min < max < 65535
      && min <= next <= max
      && Accounts(bitmap.bits[..], min, max, Held, Reserved)
      && used == |Held| && reserved == |Reserved|
    }

    ghost function Taken(): set<nat>
      reads this
    {
      Held + Reserved
    }

    /** SetRange on a new object. */
    constructor (low: nat, high: nat)
      requires 0 < low < high < 65535
      ensures Valid() && fresh(bitmap) && fresh(bitmap.bits)
      ensures min == low && max == high && next == low
      ensures Held == {} && Reserved == {}
    {
      bitmap := new Bitmap(high - low + 1);
      min, max, used, next, reserved := low, high, 0, low, 0;
      Held, Reserved := {}, {};
    }

    method SetReserved(port: nat)
      requires Valid()
      modifies this`reserved, this`Reserved, bitmap.bits
      ensures Valid()
      ensures Reserved == old(Reserved) + if min <= port <= max && port !in Held then {port} else {}
    {
      if port > max || port < min {
        return;
      }
      Withhold(bitmap.bits[..], min, max, Held, Reserved, port);
      var wasSet := bitmap.TestAndSet(port - min);
      if !wasSet {
        reserved := reserved + 1;
        Reserved := Reserved + {port};
      }
    }

    /** `++m_nNext`, back to the lowest port after the highest. */
    method Advance()
      modifies this`next
      ensures next == Succ(min, max, old(next))
    {
      next := next + 1;
      if next > max {
        next := min;
      }
    }

    method GetOne() returns (status: Status, port: nat)
      requires Valid()
      modifies this`used, this`next, this`Held, bitmap.bits
      ensures Valid()
      ensures status == OutOfPorts <==> old(|Taken()|) >= max - min + 1
      ensures status == OutOfPorts ==> Held == old(Held) && next == old(next)
      ensures status == Ok ==>
                && FirstFree(min, max, old(Taken()), old(next), port)
                && Held == old(Held) + {port}
                && next == Succ(min, max, port)
    {
      port := 0;
      CountTaken(Held, Reserved);
      var total := max - min + 1;
      if used + reserved >= total {
        return OutOfPorts, port;
      }
      SomeFree(min, max, Taken());
      ghost var taken, start := Taken(), next;
      ghost var goal :| Free(min, max, taken, goal);
      while true
        invariant Valid() && Held == old(Held)
        invariant TakenBefore(min, max, taken, start, next)
        invariant 0 <= total < 65536
        decreases Dist(min, max, next, goal)
      {
        // `--nTotal < 0` on an unsigned 16-bit counter: it wraps, and the exit it guards is never taken
        total := (total + 65535) % 65536;
        assert total >= 0;
        port := next;
        ghost var from := next;
        var wasSet := TryNext();
        if !wasSet {
          return Ok, port;
        }
        PassTaken(min, max, taken, start, from, goal);
      }
    }

    /** Hands out the port at the cursor unless it is taken, and moves the cursor on. */
    method TryNext() returns (wasSet: bool)
      requires Valid()
      modifies this`used, this`next, this`Held, bitmap.bits
      ensures Valid() && next == Succ(min, max, old(next))
      ensures wasSet <==> old(next) in old(Taken())
      ensures Held == old(Held) + if wasSet then {} else {old(next)}
    {
      Claim(bitmap.bits[..], min, max, Held, Reserved, next);
      wasSet := bitmap.TestAndSet(next - min);
      if !wasSet {
        used := used + 1;
        Held := Held + {next};
      }
      Advance();
    }

    /** The port is free, although m_nReserved counts it. */
    ghost predicate Miscounted(port: nat)
      reads this, bitmap, bitmap.bits
    {
      Accounts(bitmap.bits[..], min, max, Held, Reserved - {port}) && reserved == |Reserved - {port}| + 1
    }

    /** A port that is not taken is an assertion failure in the source. A withheld port becomes free like
        any other, but m_nUsed goes down for it and m_nReserved keeps counting it: the object stays valid
        exactly if the port was not withheld. */
    method PutOne(port: nat)
      requires Valid()
      requires min <= port <= max ==> port in Taken()
      modifies this`used, this`Held, bitmap.bits
      ensures Held == old(Held) - {port}
      ensures port in old(Held) ==> Valid()
      ensures Valid() <==> port !in Reserved
      ensures port in Reserved ==> Miscounted(port) && used == if old(used) == 0 then 65535 else old(used) - 1
    {
      if port > max || port < min {
        return;
      }
      Release(bitmap.bits[..], min, max, Held, Reserved, port);
      bitmap.Reset(port - min);
      OneLess(Held, Reserved, port);
      used := if used == 0 then 65535 else used - 1;
      Held := Held - {port};
    }

    /** PutOne as GetTwo and PutTwo use it. */
    method PutHeld(port: nat)
      requires Valid()
      requires min <= port <= max ==> port in Held
      modifies this`used, this`Held, bitmap.bits
      ensures Valid() && Held == old(Held) - {port}
    {
      PutOne(port);
    }

    /** The first inner loop of GetTwo: hand out ports and put them back until one is even. */
    method SeekEven(ghost start: nat, ghost goal: nat) returns (low: nat)
      requires Valid() && Roomy(min, max, Taken())
      requires min <= start <= max && FirstPair(min, max, Taken(), start, goal)
      requires OnTrack(min, max, Taken(), start, goal, Seeking(next))
      modifies this`used, this`next, this`Held, bitmap.bits
      ensures Valid() && Held == old(Held) + {low} && next == Succ(min, max, low)
      ensures OnTrack(min, max, old(Taken()), start, goal, Holding(low))
      ensures 0 <= Remaining(min, max, goal, Holding(low)) < Remaining(min, max, goal, Seeking(old(next)))
    {
      ghost var taken := Taken();
      while true
        invariant Valid() && Held == old(Held)
        invariant OnTrack(min, max, taken, start, goal, Seeking(next))
        invariant Remaining(min, max, goal, Seeking(next)) <= Remaining(min, max, goal, Seeking(old(next)))
        decreases Remaining(min, max, goal, Seeking(next))
      {
        ghost var from := next;
        var status;
        status, low := GetOne();
        assert status == Ok;
        SeekingOn(min, max, taken, start, goal, from, low);
        if low % 2 == 1 {
          PutHeld(low);
          continue;
        }
        return;
      }
    }

    /** The second inner loop of GetTwo: with `even` held, take the next port; keep the two if they are
        a pair, else go on from the later one. */
    method PairUp(even: nat, ghost held: set<nat>, ghost start: nat, ghost goal: nat)
      returns (found: bool, low: nat, high: nat)
      requires Valid() && Roomy(min, max, held + Reserved) && Held == held + {even} && even !in held
      requires min <= start <= max && FirstPair(min, max, held + Reserved, start, goal)
      requires next == Succ(min, max, even) && OnTrack(min, max, held + Reserved, start, goal, Holding(even))
      modifies this`used, this`next, this`Held, bitmap.bits
      ensures Valid()
      ensures found ==> low == goal && high == low + 1
      ensures found ==> Stands(Done(low), held) && Visits(min, max, held + Reserved, start, Done(low))
      ensures !found ==> Held == held && OnTrack(min, max, held + Reserved, start, goal, Seeking(next))
      ensures !found ==>
                Remaining(min, max, goal, Seeking(next)) < Remaining(min, max, goal, Holding(even))
    {
      ghost var taken := held + Reserved;
      low := even;
      while true
        invariant Valid() && Stands(Holding(low), held)
        invariant OnTrack(min, max, taken, start, goal, Holding(low))
        invariant Remaining(min, max, goal, Holding(low)) <= Remaining(min, max, goal, Holding(even))
        decreases Remaining(min, max, goal, Holding(low))
      {
        var s := PairOn(low, held, start, goal);
        match s {
          case Done(pair) => return true, pair, pair + 1;
          case Seeking(_) => return false, low, low;
          case Holding(later) => low := later;
        }
      }
    }

    /** One turn of that loop brings the search nearer to the pair at `goal`, or there. */
    method PairOn(low: nat, ghost held: set<nat>, ghost start: nat, ghost goal: nat) returns (s: Search)
      requires Valid() && Roomy(min, max, held + Reserved) && Stands(Holding(low), held)
      requires min <= start <= max && FirstPair(min, max, held + Reserved, start, goal)
      requires OnTrack(min, max, held + Reserved, start, goal, Holding(low))
      modifies this`used, this`next, this`Held, bitmap.bits
      ensures Valid() && Stands(s, held)
      ensures s.Done? ==> s == Done(goal) && low == goal && Visits(min, max, held + Reserved, start, s)
      ensures !s.Done? ==> OnTrack(min, max, held + Reserved, start, goal, s)
      ensures !s.Done? ==> 0 <= Remaining(min, max, goal, s) < Remaining(min, max, goal, Holding(low))
    {
      HoldingStep(min, max, held + Reserved, start, goal, low);
      s := HoldOn(low, held);
    }

    /** With `low` held, take the next free port, and put `low` back unless the two are a pair. A third
        port was free before, so GetOne cannot fail. */
    method TakeNext(low: nat, ghost held: set<nat>) returns (high: nat)
      requires Valid() && Roomy(min, max, held + Reserved) && Held == held + {low} && low !in held
      requires next == Succ(min, max, low)
      modifies this`used, this`next, this`Held, bitmap.bits
      ensures Valid() && high !in held && next == Succ(min, max, high)
      ensures Held == held + if high == low + 1 then {low, high} else {high}
      ensures min <= Succ(min, max, low) <= max
      ensures FirstFree(min, max, held + Reserved + {low}, Succ(min, max, low), high)
    {
      OneMoreHeld(min, max, held, Reserved, low);
      var status;
      status, high := GetOne();
      HeldTwo(held, low, high);
      if high != low + 1 {
        PutHeld(low);
      }
    }

    /** Without a free pair the source never returns (SearchEndsIffPair), so a free pair is required
        whenever the first test lets the search begin. */
    method GetTwo() returns (status: Status, low: nat, high: nat)
      requires Valid()
      requires |Taken()| + 2 > max - min || HasPair(min, max, Taken())
      modifies this`used, this`next, this`Held, bitmap.bits
      ensures Valid()
      ensures status == OutOfPorts <==> old(|Taken()|) + 2 > max - min
      ensures status == OutOfPorts ==> Held == old(Held) && next == old(next)
      ensures status == Ok ==>
                && FirstPair(min, max, old(Taken()), old(next), low)
                && high == low + 1
                && Held == old(Held) + {low, high}
                && next == Succ(min, max, high)
      ensures status == Ok ==> Visits(min, max, old(Taken()), old(next), Done(low))
    {
      low, high := 0, 0;
      CountTaken(Held, Reserved);
      var total := max - min;
      if used + reserved + 2 > total {
        return OutOfPorts, low, high;
      }
      ghost var start, taken := next, Taken();
      ghost var e :| FreePair(min, max, taken, e);
      ghost var goal := FirstPairFrom(min, max, taken, start, e);
      StartsOnTrack(min, max, taken, start, goal);
      while true
        invariant Valid() && Held == old(Held)
        invariant OnTrack(min, max, taken, start, goal, Seeking(next))
        decreases Remaining(min, max, goal, Seeking(next))
      {
        low := SeekEven(start, goal);
        var found;
        found, low, high := PairUp(low, old(Held), start, goal);
        if found {
          PairOf(old(Held), low, high);
          return Ok, low, high;
        }
      }
    }

    // ---- the search without the knowledge that a pair is free ----

    /** The object while its search stands at s, and `held` was handed out before. */
    ghost predicate Stands(s: Search, held: set<nat>)
      reads this
    {
      match s
      case Seeking(c) => Held == held && next == c
      case Holding(l) => Held == held + {l} && l !in held && next == Succ(min, max, l)
      case Done(l) => Held == held + Both(l) && l !in held && l + 1 !in held && next == Succ(min, max, l + 1)
    }

    /** The part of GetTwo's loops from one call of GetOne to the next. */
    method SearchOn(s: Search, ghost held: set<nat>) returns (s': Search)
      requires Valid() && Roomy(min, max, held + Reserved) && Stands(s, held) && InRing(min, max, s)
      modifies this`used, this`next, this`Held, bitmap.bits
      ensures Valid() && Stands(s', held) && s' == Step(min, max, held + Reserved, s)
    {
      match s {
        case Seeking(c) => s' := SeekOn(c);
        case Holding(l) => s' := HoldOn(l, held);
        case Done(_) => s' := s;
      }
    }

    method SeekOn(c: nat) returns (s': Search)
      requires Valid() && Roomy(min, max, Taken()) && next == c
      modifies this`used, this`next, this`Held, bitmap.bits
      ensures Valid() && Stands(s', old(Held)) && s' == Step(min, max, old(Taken()), Seeking(c))
    {
      var status, p := GetOne();
      StepSeeking(min, max, old(Taken()), c, p);
      if p % 2 == 1 {
        PutHeld(p);
        s' := Seeking(next);
      } else {
        s' := Holding(p);
      }
    }

    method HoldOn(l: nat, ghost held: set<nat>) returns (s': Search)
      requires Valid() && Roomy(min, max, held + Reserved) && Stands(Holding(l), held) && InRing(min, max, Holding(l))
      modifies this`used, this`next, this`Held, bitmap.bits
      ensures Valid() && Stands(s', held) && s' == Step(min, max, held + Reserved, Holding(l))
    {
      var high := TakeNext(l, held);
      StepHolding(min, max, held + Reserved, l, high);
      if high == l + 1 {
        s' := Done(l);
      } else if high % 2 == 1 {
        PutHeld(high);
        s' := Seeking(next);
      } else {
        s' := Holding(high);
      }
    }

    /** GetTwo, stopped after n calls of GetOne if it has not ended. */
    method SearchFor(n: nat) returns (s: Search)
      requires Valid() && Roomy(min, max, Taken())
      modifies this`used, this`next, this`Held, bitmap.bits
      ensures Valid() && Stands(s, old(Held)) && s == Steps(min, max, old(Taken()), n, Seeking(old(next)))
    {
      ghost var held, start := Held, next;
      s := Seeking(next);
      var k := 0;
      while k < n
        invariant 0 <= k <= n && Valid() && Stands(s, held)
        invariant s == Steps(min, max, held + Reserved, k, Seeking(start))
      {
        s := SearchOn(s, held);
        k := k + 1;
      }
    }

    /** Without a free pair GetTwo has not ended after any number of calls. */
    method SearchInVain(n: nat) returns (s: Search)
      requires Valid() && |Taken()| + 2 <= max - min && !HasPair(min, max, Taken())
      modifies this`used, this`next, this`Held, bitmap.bits
      ensures Valid() && Stands(s, old(Held)) && !s.Done?
      ensures s == Steps(min, max, old(Taken()), n, Seeking(old(next)))
    {
      NoPairNeverDone(min, max, Taken(), next, n);
      s := SearchFor(n);
    }

    method PutTwo(low: nat, high: nat)
      requires Valid()
      requires min <= low <= max ==> low in Held
      requires min <= high <= max ==> high in Held
      requires low != high
      modifies this`used, this`Held, bitmap.bits
      ensures Valid()
      ensures Held == old(Held) - {low, high}
    {
      PutHeld(low);
      PutHeld(high);
    }

    /** A client that borrows a pair: PutTwo undoes GetTwo, except that the cursor has moved. */
    method GetThenPutTwo() returns (status: Status)
      requires Valid()
      requires |Taken()| + 2 > max - min || HasPair(min, max, Taken())
      modifies this`used, this`next, this`Held, bitmap.bits
      ensures Valid() && Held == old(Held) && used == old(used)
      ensures bitmap.bits[..] == old(bitmap.bits[..])
    {
      ghost var held, cells := Held, bitmap.bits[..];
      var low, high;
      status, low, high := GetTwo();
      if status == Ok {
        PutBack(low, high, held, cells);
      } else {
        SameAccounts(cells, bitmap.bits[..], min, max, Held, Reserved);
      }
    }

    method PutBack(low: nat, high: nat, ghost held: set<nat>, ghost cells: seq<bool>)
      requires Valid() && high == low + 1 && Held == held + {low, high} && FreePair(min, max, held + Reserved, low)
      requires Accounts(cells, min, max, held, Reserved)
      modifies this`used, this`Held, bitmap.bits
      ensures Valid() && Held == held && bitmap.bits[..] == cells
    {
      PairReturned(min, max, held, Reserved, low);
      PutTwo(low, high);
      SameAccounts(cells, bitmap.bits[..], min, max, Held, Reserved);
    }
  }

  /** Two ports withheld of six leave four free ports and no pair, and the first test of GetTwo passes. */
  method WithholdTwoOfSix() returns (c: PortsCtl)
    ensures c.Valid() && fresh(c) && fresh(c.bitmap) && fresh(c.bitmap.bits)
    ensures c.min == 1 && c.max == 6 && c.Held == {} && c.Reserved == {2, 4} && c.next == 1
    ensures |c.Taken()| + 2 <= c.max - c.min && !HasPair(c.min, c.max, c.Taken())
  {
    c := new PortsCtl(1, 6);
    c.SetReserved(2);
    c.SetReserved(4);
    assert c.Taken() == {2, 4};
  }

  /** GetTwo on that object stands, after n calls of GetOne, where n steps of the walk lead, and has not ended. */
  method GetTwoNeverReturns(n: nat) returns (c: PortsCtl, s: Search)
    ensures c.Valid() && c.min == 1 && c.max == 6 && c.Reserved == {2, 4}
    ensures c.Stands(s, {}) && s == Steps(1, 6, {2, 4}, n, Seeking(1)) && !s.Done?
  {
    c := WithholdTwoOfSix();
    assert c.Taken() == {2, 4};
    s := c.SearchInVain(n);
  }

  /** The outer two of four ports are withheld: 2 and 3 are a free pair, and GetTwo refuses to look for it. */
  method GetTwoRefusesPair() returns (c: PortsCtl, status: Status)
    ensures c.Valid() && c.min == 1 && c.max == 4 && c.Taken() == {1, 4}
    ensures FreePair(1, 4, c.Taken(), 2) && status == OutOfPorts
  {
    c := new PortsCtl(1, 4);
    c.SetReserved(1);
    c.SetReserved(4);
    assert c.Taken() == {1, 4};
    var low, high;
    status, low, high := c.GetTwo();
  }
}
