// Validation of RTP sequence numbers (Appendices A.1 and A.3 of RFC 3550).

module RtpSequence {
  import opened Counting
  import opened Optional
  import opened Words

  const SEQ_MOD: int := 65536
  const MAX_DROPOUT: int := 3000
  const MAX_MISORDER: int := 100
  const MIN_SEQUENTIAL: int := 2

  datatype State = State(
    maxSeq: nat, cycles: nat, baseSeq: nat, badSeq: nat, probation: nat,
    received: nat, expectedPrior: nat, receivedPrior: nat)

  /** What update_seq makes of a packet; it returns 0 for Probing and Rejected, else 1. */
  datatype Verdict = Probing | Validated | InOrder | Reordered | Resynced | Rejected

  predicate Accepts(v: Verdict) {
    v != Probing && v != Rejected
  }

  /** The fields fit their unsigned C types. */
  predicate Fits(s: State) {
    && s.maxSeq < SEQ_MOD
    && s.cycles < WORD && s.cycles % SEQ_MOD == 0
    && s.badSeq < WORD && s.received < WORD
  }

  function Init(s: State, seqNo: nat): State {
    s.(baseSeq := seqNo, maxSeq := seqNo, badSeq := SEQ_MOD + 1, cycles := 0,
       received := 0, receivedPrior := 0, expectedPrior := 0)
  }

  function Counted(s: State): State {
    s.(received := (s.received + 1) % WORD)
  }

  /** In line 29 the successor of maxSeq is taken in `int`: nothing follows 65535 during probation. */
  function Update(s: State, seqNo: nat): (State, Verdict)
  {
    var delta := (seqNo - s.maxSeq) % SEQ_MOD;
    if s.probation > 0 then
      if seqNo == s.maxSeq + 1 then
        var t := s.(probation := s.probation - 1, maxSeq := seqNo);
        if t.probation == 0 then (Counted(Init(t, seqNo)), Validated) else (t, Probing)
      else
        (s.(probation := MIN_SEQUENTIAL - 1, maxSeq := seqNo), Probing)
    else if delta < MAX_DROPOUT then
      var cycles := if seqNo < s.maxSeq then (s.cycles + SEQ_MOD) % WORD else s.cycles;
      (Counted(s.(maxSeq := seqNo, cycles := cycles)), InOrder)
    else if delta <= SEQ_MOD - MAX_MISORDER then
      if seqNo == s.badSeq then (Counted(Init(s, seqNo)), Resynced)
      else (s.(badSeq := (seqNo + 1) % SEQ_MOD), Rejected)
    else
      (Counted(s), Reordered)
  }

  // ---- the code, updating a source in place ----

  class Source {
    var maxSeq: nat
    var cycles: nat
    var baseSeq: nat
    var badSeq: nat
    var probation: nat
    var received: nat
    var expectedPrior: nat
    var receivedPrior: nat

    ghost function View(): State
      reads this
    {
      State(maxSeq, cycles, baseSeq, badSeq, probation, received, expectedPrior, receivedPrior)
    }

    method InitSeq(seqNo: nat)
      modifies this
      ensures View() == Init(old(View()), seqNo)
    {
      baseSeq := seqNo;
      maxSeq := seqNo;
      badSeq := SEQ_MOD + 1;
      cycles := 0;
      received := 0;
      receivedPrior := 0;
      expectedPrior := 0;
    }

    method UpdateSeq(seqNo: nat) returns (accepted: bool)
      modifies this
      ensures View() == Update(old(View()), seqNo).0
      ensures accepted == Accepts(Update(old(View()), seqNo).1)
    {
      var delta := (seqNo - maxSeq) % SEQ_MOD;
      if probation > 0 {
        if seqNo == maxSeq + 1 {
          probation := probation - 1;
          maxSeq := seqNo;
          if probation == 0 {
            InitSeq(seqNo);
            received := (received + 1) % WORD;
            return true;
          }
        } else {
          probation := MIN_SEQUENTIAL - 1;
          maxSeq := seqNo;
        }
        return false;
      } else if delta < MAX_DROPOUT {
        if seqNo < maxSeq {
          cycles := (cycles + SEQ_MOD) % WORD;
        }
        maxSeq := seqNo;
      } else if delta <= SEQ_MOD - MAX_MISORDER {
        if seqNo == badSeq {
          InitSeq(seqNo);
        } else {
          badSeq := (seqNo + 1) % SEQ_MOD;
          return false;
        }
      }
      received := (received + 1) % WORD;
      return true;
    }
  }

  // ---- refinement of an unbounded counter ----

  /** The 16-bit number under which the packet with true index t travels. */
  function OnWire(t: int): (n: nat)
    ensures n < SEQ_MOD
  {
    t % SEQ_MOD
  }

  /** The extended highest sequence number of the source. */
  function Extended(s: State): int {
    s.cycles + s.maxSeq
  }

  function Highest(h: int, ts: seq<int>): (r: int)
    ensures h <= r
    ensures forall t <- ts :: t <= r
    ensures r == h || r in ts
    decreases |ts|
  {
    if ts == [] then h
    else
      assert ts == [ts[0]] + ts[1..];
      Highest(Max(h, ts[0]), ts[1..])
  }

  /** Each packet is less than MAX_DROPOUT ahead of the highest before it and less than MAX_MISORDER behind. */
  predicate Near(h: int, ts: seq<int>)
    decreases |ts|
  {
    ts == [] || (-MAX_MISORDER < ts[0] - h < MAX_DROPOUT && Near(Max(h, ts[0]), ts[1..]))
  }

  function Receive(s: State, ts: seq<int>): State
    decreases |ts|
  {
    if ts == [] then s else Receive(Update(s, OnWire(ts[0])).0, ts[1..])
  }

  predicate AllAccepted(s: State, ts: seq<int>)
    decreases |ts|
  {
    ts == [] || (Accepts(Update(s, OnWire(ts[0])).1) && AllAccepted(Update(s, OnWire(ts[0])).0, ts[1..]))
  }

  /** A valid source whose extended number stands for h, counted from a multiple `offset` of 2^16. */
  predicate Tracks(s: State, h: int, offset: int) {
    && s.probation == 0 && Fits(s)
    && offset % SEQ_MOD == 0
    && s.maxSeq == OnWire(h)
    && Extended(s) == (h - offset) % WORD
  }

  lemma OneTurn(x: int, d: int)
    requires 0 <= d < SEQ_MOD
    ensures var r := x % SEQ_MOD;
            (x + d) % SEQ_MOD == if r + d < SEQ_MOD then r + d else r + d - SEQ_MOD
  {
    var q, r := x / SEQ_MOD, x % SEQ_MOD;
    if r + d < SEQ_MOD {
      assert x + d == q * SEQ_MOD + (r + d);
    } else {
      assert x + d == (q + 1) * SEQ_MOD + (r + d - SEQ_MOD);
    }
  }

  lemma WordTurn(x: int, d: int)
    requires 0 <= d < WORD
    ensures var r := x % WORD;
            (x + d) % WORD == if r + d < WORD then r + d else r + d - WORD
  {
    var q, r := x / WORD, x % WORD;
    if r + d < WORD {
      assert x + d == q * WORD + (r + d);
    } else {
      assert x + d == (q + 1) * WORD + (r + d - WORD);
    }
  }

  lemma CarryIntoCycles(cycles: int, low: int, d: int, x: int)
    requires 0 <= cycles < WORD && cycles % SEQ_MOD == 0 && 0 <= low < SEQ_MOD && 0 <= d < MAX_DROPOUT
    requires cycles + low == x % WORD
    ensures var n := if low + d < SEQ_MOD then low + d else low + d - SEQ_MOD;
            var c := if n < low then (cycles + SEQ_MOD) % WORD else cycles;
            0 <= c < WORD && c % SEQ_MOD == 0 && c + n == (x + d) % WORD
  {
    WordTurn(x, d);
  }

  lemma AheadKeepsTrack(s: State, h: int, offset: int, t: int)
    requires Tracks(s, h, offset) && 0 <= t - h < MAX_DROPOUT
    ensures var (s', v) := Update(s, OnWire(t));
            Tracks(s', t, offset) && v == InOrder && s'.baseSeq == s.baseSeq && s'.received == (s.received + 1) % WORD
  {
    var d := t - h;
    OneTurn(h, d);
    DeltaAhead(s.maxSeq, d);
    CarryIntoCycles(s.cycles, s.maxSeq, d, h - offset);
    assert h - offset + d == t - offset;
  }

  lemma DeltaAhead(low: int, d: int)
    requires 0 <= low < SEQ_MOD && 0 <= d < SEQ_MOD
    ensures ((if low + d < SEQ_MOD then low + d else low + d - SEQ_MOD) - low) % SEQ_MOD == d
  {
  }

  lemma BehindKeepsTrack(s: State, h: int, offset: int, t: int)
    requires Tracks(s, h, offset) && 0 < h - t < MAX_MISORDER
    ensures var (s', v) := Update(s, OnWire(t));
            s' == Counted(s) && v == Reordered
  {
    OneTurn(t, h - t);
    assert (OnWire(t) - s.maxSeq) % SEQ_MOD == SEQ_MOD - (h - t);
  }

  // ---- any run of a valid source up to its next restart ----

  function VerdictOn(s: State, t: int): Verdict {
    Update(s, OnWire(t)).1
  }

  /** No packet of the run makes the source start again. */
  predicate NoRestart(s: State, ts: seq<int>)
    decreases |ts|
  {
    ts == [] || (VerdictOn(s, ts[0]) != Resynced && NoRestart(Update(s, OnWire(ts[0])).0, ts[1..]))
  }

  /** The packets of the run that are accepted, in order. */
  function AcceptedOf(s: State, ts: seq<int>): seq<int>
    decreases |ts|
  {
    if ts == [] then []
    else
      var (t, v) := Update(s, OnWire(ts[0]));
      if Accepts(v) then [ts[0]] + AcceptedOf(t, ts[1..]) else AcceptedOf(t, ts[1..])
  }

  /** The highest of the accepted indices so far, once a packet has come. */
  function NextHighest(s: State, h: int, t: int): int {
    if Accepts(VerdictOn(s, t)) then Max(h, t) else h
  }

  /** An accepted packet is what its 16-bit number makes of it: less than MAX_DROPOUT ahead of the highest
      index, not whole cycles more than that; or behind it, but not ahead by its number. */
  predicate TrueTo(h: int, t: int) {
    if t >= h then (t - h) % WORD < MAX_DROPOUT
    else (t - h) % SEQ_MOD == 0 || (t - h) % SEQ_MOD > SEQ_MOD - MAX_MISORDER
  }

  predicate AllTrueTo(s: State, h: int, ts: seq<int>)
    decreases |ts|
  {
    ts == [] ||
    (&& (Accepts(VerdictOn(s, ts[0])) ==> TrueTo(h, ts[0]))
     && AllTrueTo(Update(s, OnWire(ts[0])).0, NextHighest(s, h, ts[0]), ts[1..]))
  }

  /** Before and after each packet of the run the extended number stands for the highest accepted index. */
  predicate AlwaysTracks(s: State, h: int, offset: int, ts: seq<int>)
    decreases |ts|
  {
    && Tracks(s, h, offset)
    && (ts == [] || AlwaysTracks(Update(s, OnWire(ts[0])).0, NextHighest(s, h, ts[0]), offset, ts[1..]))
  }

  lemma DeltaOnWire(h: int, t: int)
    ensures (OnWire(t) - OnWire(h)) % SEQ_MOD == (t - h) % SEQ_MOD
  {
    var a, b := t / SEQ_MOD, h / SEQ_MOD;
    assert t - h == (a - b) * SEQ_MOD + (OnWire(t) - OnWire(h));
  }

  lemma SameOnWire(t: int, u: int)
    requires (t - u) % SEQ_MOD == 0
    ensures OnWire(t) == OnWire(u)
  {
    assert t == (t - u) / SEQ_MOD * SEQ_MOD + u;
  }

  /** The extended number stands for t where it stands for u, exactly if these differ by whole words. */
  lemma TracksOther(s: State, u: int, t: int, offset: int)
    requires Tracks(s, u, offset)
    ensures Tracks(s, t, offset) <==> (t - u) % WORD == 0
  {
    if (t - u) % WORD == 0 {
      SameInWord(t, u, offset);
    } else if Tracks(s, t, offset) {
      ModDifferent(t - offset, u - offset);
    }
  }

  lemma SameInWord(t: int, u: int, offset: int)
    requires (t - u) % WORD == 0
    ensures (t - offset) % WORD == (u - offset) % WORD && OnWire(t) == OnWire(u)
  {
    var q := (t - u) / WORD;
    ModMultiple(q, u - offset);
    assert t - u == q * 65536 * SEQ_MOD;
    SameOnWire(t, u);
  }

  lemma ModDifferent(x: int, y: int)
    requires x % WORD == y % WORD
    ensures (x - y) % WORD == 0
  {
    assert x - y == (x / WORD - y / WORD) * WORD;
  }

  /** A packet in order leaves a source that tracks the index `delta` ahead, whatever its true index. */
  lemma InOrderTracks(s: State, h: int, offset: int, t: int)
    requires Tracks(s, h, offset) && VerdictOn(s, t) == InOrder
    ensures (t - h) % SEQ_MOD < MAX_DROPOUT
    ensures var s' := Update(s, OnWire(t)).0;
            Tracks(s', h + (t - h) % SEQ_MOD, offset) && s'.baseSeq == s.baseSeq && s'.received == Counted(s).received
  {
    DeltaOnWire(h, t);
    var u := h + (t - h) % SEQ_MOD;
    ModSplit(t - h);
    SameOnWire(t, u);
    AheadKeepsTrack(s, h, offset, u);
  }

  lemma ModSplit(x: int)
    ensures (x - x % SEQ_MOD) % SEQ_MOD == 0
  {
    assert x - x % SEQ_MOD == x / SEQ_MOD * SEQ_MOD;
  }

  lemma AheadByWhole(h: int, t: int)
    requires h <= t && (t - h) % SEQ_MOD < MAX_DROPOUT
    ensures (t - (h + (t - h) % SEQ_MOD)) % WORD == 0 <==> (t - h) % WORD < MAX_DROPOUT
  {
    var x, d := t - h, (t - h) % SEQ_MOD;
    ModOfMod(x);
    if (x - d) % WORD == 0 {
      assert x == (x - d) / WORD * WORD + d;
    }
    if x % WORD < MAX_DROPOUT {
      assert x - d == x / WORD * WORD;
    }
  }

  lemma ModOfMod(x: int)
    ensures x % WORD % SEQ_MOD == x % SEQ_MOD
  {
    assert x == x / WORD * 65536 * SEQ_MOD + x % WORD;
    SameOnWire(x, x % WORD);
  }

  /** What one packet does to the accounting. */
  predicate CountsOne(s: State, s': State, v: Verdict) {
    s'.baseSeq == s.baseSeq && s'.received == if Accepts(v) then (s.received + 1) % WORD else s.received
  }

  /** After a packet the source tracks the highest accepted index exactly if the packet, when it is
      accepted, is true to its number. */
  lemma TracksIffTrue(s: State, h: int, offset: int, t: int)
    requires Tracks(s, h, offset) && VerdictOn(s, t) != Resynced
    ensures var (s', v) := Update(s, OnWire(t));
            && CountsOne(s, s', v)
            && (Tracks(s', NextHighest(s, h, t), offset) <==> (Accepts(v) ==> TrueTo(h, t)))
  {
    match VerdictOn(s, t) {
      case InOrder => InOrderIffTrue(s, h, offset, t);
      case Reordered => ReorderedIffTrue(s, h, offset, t);
      case Rejected =>
    }
  }

  lemma InOrderIffTrue(s: State, h: int, offset: int, t: int)
    requires Tracks(s, h, offset) && VerdictOn(s, t) == InOrder
    ensures var s' := Update(s, OnWire(t)).0;
            CountsOne(s, s', InOrder) && (Tracks(s', Max(h, t), offset) <==> TrueTo(h, t))
  {
    InOrderTracks(s, h, offset, t);
    var s', u := Update(s, OnWire(t)).0, h + (t - h) % SEQ_MOD;
    TracksOther(s', u, Max(h, t), offset);
    if h <= t {
      AheadByWhole(h, t);
    }
  }

  lemma ReorderedIffTrue(s: State, h: int, offset: int, t: int)
    requires Tracks(s, h, offset) && VerdictOn(s, t) == Reordered
    ensures var s' := Update(s, OnWire(t)).0;
            CountsOne(s, s', Reordered) && (Tracks(s', Max(h, t), offset) <==> TrueTo(h, t))
  {
    DeltaOnWire(h, t);
    ModOfMod(t - h);
    TracksOther(s, h, Max(h, t), offset);
  }

  /** Over any run without a restart the extended number stands for the highest accepted index throughout,
      if and only if every accepted packet is true to its number. */
  lemma {:induction false} TracksThroughoutIffTrue(s: State, h: int, offset: int, ts: seq<int>)
    requires Tracks(s, h, offset) && NoRestart(s, ts)
    ensures AlwaysTracks(s, h, offset, ts) <==> AllTrueTo(s, h, ts)
    decreases |ts|
  {
    if ts != [] {
      TracksIffTrue(s, h, offset, ts[0]);
      var s', h' := Update(s, OnWire(ts[0])).0, NextHighest(s, h, ts[0]);
      if Tracks(s', h', offset) {
        TracksThroughoutIffTrue(s', h', offset, ts[1..]);
      } else {
        assert !AlwaysTracks(s', h', offset, ts[1..]);
      }
    }
  }

  /** Then it does so at the end, and each accepted packet has been counted. */
  lemma {:induction false} AcceptedAreTracked(s: State, h: int, offset: int, ts: seq<int>)
    requires Tracks(s, h, offset) && NoRestart(s, ts) && AllTrueTo(s, h, ts)
    ensures var s' := Receive(s, ts);
            && Tracks(s', Highest(h, AcceptedOf(s, ts)), offset)
            && s'.baseSeq == s.baseSeq
            && s'.received == (s.received + |AcceptedOf(s, ts)|) % WORD
    decreases |ts|
  {
    if ts != [] {
      TracksIffTrue(s, h, offset, ts[0]);
      AcceptedAreTracked(Update(s, OnWire(ts[0])).0, NextHighest(s, h, ts[0]), offset, ts[1..]);
      CountOn(s.received, |AcceptedOf(s, ts)|);
    }
  }

  lemma CountOn(received: nat, n: nat)
    ensures n > 0 ==> ((received + 1) % WORD + (n - 1)) % WORD == (received + n) % WORD
  {
    ModAdd(received + 1, n - 1);
  }

  /** What counts as accepted lies near its highest predecessor in any case, unless its true index is more
      than half a cycle away. */
  lemma WithinHalfIsTrue(s: State, h: int, offset: int, t: int)
    requires Tracks(s, h, offset) && -SEQ_MOD / 2 <= t - h <= SEQ_MOD / 2
    requires Accepts(VerdictOn(s, t)) && VerdictOn(s, t) != Resynced
    ensures TrueTo(h, t) && -MAX_MISORDER < t - h < MAX_DROPOUT
  {
    DeltaOnWire(h, t);
  }

  /** Within half a cycle a packet is accepted as the next one when it is less than 3000 ahead, and as a late
      or repeated one when it is less than 100 behind. */
  lemma AcceptedByDistance(s: State, h: int, offset: int, t: int)
    requires Tracks(s, h, offset) && -32768 <= t - h <= 32768
    ensures VerdictOn(s, t) == InOrder <==> 0 <= t - h < 3000
    ensures VerdictOn(s, t) == Reordered <==> -100 < t - h < 0
  {
    DeltaOnWire(h, t);
  }

  lemma NearIsTrue(s: State, h: int, offset: int, t: int)
    requires Tracks(s, h, offset) && -MAX_MISORDER < t - h < MAX_DROPOUT
    ensures VerdictOn(s, t) in {InOrder, Reordered} && TrueTo(h, t)
  {
    if t < h {
      BehindKeepsTrack(s, h, offset, t);
    } else {
      AheadKeepsTrack(s, h, offset, t);
    }
  }

  lemma {:induction false} NearRun(s: State, h: int, offset: int, ts: seq<int>)
    requires Tracks(s, h, offset) && Near(h, ts)
    ensures NoRestart(s, ts) && AllTrueTo(s, h, ts) && AllAccepted(s, ts) && AcceptedOf(s, ts) == ts
    decreases |ts|
  {
    if ts != [] {
      NearIsTrue(s, h, offset, ts[0]);
      TracksIffTrue(s, h, offset, ts[0]);
      NearRun(Update(s, OnWire(ts[0])).0, Max(h, ts[0]), offset, ts[1..]);
    }
  }

  /** For any number of wraps of the 16-bit number, cycles + max_seq is the highest true index up to one
      fixed offset (modulo the 32 bits of `cycles`), and every packet is accepted and counted, if each is
      near the highest before it. */
  lemma ExtendedFollowsTrueIndex(s: State, h: int, offset: int, ts: seq<int>)
    requires Tracks(s, h, offset) && Near(h, ts)
    ensures var s' := Receive(s, ts);
            && Tracks(s', Highest(h, ts), offset)
            && AllAccepted(s, ts)
            && s'.baseSeq == s.baseSeq
            && s'.received == (s.received + |ts|) % WORD
  {
    NearRun(s, h, offset, ts);
    AcceptedAreTracked(s, h, offset, ts);
  }

  // ---- loss accounting ----

  /** Packets expected since base_seq (Appendix A.3). */
  function Expected(s: State): int {
    (Extended(s) - s.baseSeq + 1) % WORD
  }

  lemma DistinctWithin(all: seq<int>, base: int, high: int)
    requires Distinct(all) && base <= high
    requires forall x <- all :: base <= x <= high
    ensures |all| <= high - base + 1
    ensures |all| == high - base + 1 <==> Elements(all) == Span(base, high)
  {
    DistinctSize(all);
    SubsetSize(Elements(all), Span(base, high));
  }

  lemma FillsSpan(all: seq<int>, base: int, high: int)
    requires base <= high && forall x <- all :: base <= x <= high
    ensures Elements(all) == Span(base, high) <==> forall x :: base <= x <= high ==> x in all
  {
    if Elements(all) == Span(base, high) {
      forall x | base <= x <= high ensures x in all {
        assert x in Span(base, high);
      }
    }
  }

  /** Every index from base to the highest has arrived. */
  predicate NoneMissing(base: int, ts: seq<int>) {
    forall x :: base <= x <= Highest(base, ts) ==> x in [base] + ts
  }

  /** Distinct indices from base on fill the span up to the highest, or leave one out. */
  lemma DistinctFill(base: int, ts: seq<int>)
    requires Distinct([base] + ts) && forall t <- ts :: base <= t
    ensures var high := Highest(base, ts);
            && 1 + |ts| <= high - base + 1
            && (1 + |ts| == high - base + 1 <==> NoneMissing(base, ts))
  {
    var all, high := [base] + ts, Highest(base, ts);
    forall x <- all ensures base <= x <= high {
      assert x == base || x in ts;
    }
    DistinctWithin(all, base, high);
    FillsSpan(all, base, high);
  }

  /** A source just (re)initialised at the packet with true index `base`. */
  predicate StartedAt(s: State, base: int) {
    s.probation == 0 && s == Counted(Init(s, OnWire(base)))
  }

  /** Validation and resynchronisation leave such a source. */
  lemma InitialisedSourceStarts(s: State, base: int)
    requires Update(s, OnWire(base)).1 in {Validated, Resynced}
    ensures var r := Update(s, OnWire(base)).0;
            && StartedAt(r, base)
            && r.baseSeq == r.maxSeq == OnWire(base) && r.cycles == 0 && r.received == 1
            && r.expectedPrior == 0 && r.receivedPrior == 0
            && r.badSeq >= 65536
  {
  }

  /** Nothing else touches the base and the counts of the last report. */
  lemma PriorsStay(s: State, seqNo: nat)
    requires Update(s, seqNo).1 !in {Validated, Resynced}
    ensures var r := Update(s, seqNo).0;
            r.expectedPrior == s.expectedPrior && r.receivedPrior == s.receivedPrior && r.baseSeq == s.baseSeq
  {
  }

  lemma ExpectedIsSpan(s: State, base: int, high: int)
    requires Tracks(s, high, base - OnWire(base)) && s.baseSeq == OnWire(base)
    requires 0 <= high - base + 1 < WORD
    ensures Expected(s) == high - base + 1
  {
    ModAdd(high - (base - OnWire(base)), 1 - OnWire(base));
  }

  /** Since the last init_seq, at the packet with true index `base`: of the packets `ts` that have come no
      more are counted as received than are expected, and as many exactly when none is missing. Packets
      may have been rejected; the accepted ones are distinct, not before the base, and true to their
      numbers. */
  lemma LossNeverNegative(s: State, base: int, ts: seq<int>)
    requires VerdictOn(s, base) in {Validated, Resynced}
    requires var r := Update(s, OnWire(base)).0; NoRestart(r, ts) && AllTrueTo(r, base, ts)
    requires var accepted := AcceptedOf(Update(s, OnWire(base)).0, ts);
             && Distinct([base] + accepted) && (forall t <- accepted :: base <= t)
             && Highest(base, accepted) - base + 1 < WORD
    ensures var r := Update(s, OnWire(base)).0;
            var s', accepted := Receive(r, ts), AcceptedOf(r, ts);
            && s'.received <= Expected(s') == Highest(base, accepted) - base + 1
            && (s'.received == Expected(s') <==> NoneMissing(base, accepted))
  {
    InitialisedSourceStarts(s, base);
    var r := Update(s, OnWire(base)).0;
    DistinctFill(base, AcceptedOf(r, ts));
    ReceivedAndExpected(r, base, ts);
    SmallMod(1 + |AcceptedOf(r, ts)|);
  }

  /** An accepted packet that is not true to its number: it comes a whole cycle behind the base, and two
      packets have been received where one is expected. */
  lemma SkippedCycleCountsNegative(s: State, base: int)
    requires VerdictOn(s, base) in {Validated, Resynced}
    ensures var r, ts := Update(s, OnWire(base)).0, [base + SEQ_MOD];
            && NoRestart(r, ts) && AcceptedOf(r, ts) == ts && Distinct([base] + ts)
            && Receive(r, ts).received == 2 && Expected(Receive(r, ts)) == 1
  {
    InitialisedSourceStarts(s, base);
    var r, t := Update(s, OnWire(base)).0, base + SEQ_MOD;
    SameOnWire(t, base);
    assert Receive(r, [t]) == Update(r, OnWire(t)).0;
  }

  lemma SmallMod(n: nat)
    requires n < WORD
    ensures n % WORD == n
  {
  }

  lemma ReceivedAndExpected(s: State, base: int, ts: seq<int>)
    requires StartedAt(s, base) && NoRestart(s, ts) && AllTrueTo(s, base, ts)
    requires Highest(base, AcceptedOf(s, ts)) - base + 1 < WORD
    ensures var s', accepted := Receive(s, ts), AcceptedOf(s, ts);
            s'.received == (1 + |accepted|) % WORD && Expected(s') == Highest(base, accepted) - base + 1
  {
    StartTracks(s, base);
    AcceptedAreTracked(s, base, base - OnWire(base), ts);
    ExpectedIsSpan(Receive(s, ts), base, Highest(base, AcceptedOf(s, ts)));
  }

  lemma StartTracks(s: State, base: int)
    requires StartedAt(s, base)
    ensures Tracks(s, base, base - OnWire(base)) && s.received == 1
  {
    assert base - OnWire(base) == base / SEQ_MOD * SEQ_MOD;
  }

  // ---- the history of a source ----

  /** A new source, as the packet seqNo that made it known leaves it (Appendix A.1). */
  function Fresh(seqNo: nat): (s: State)
    requires seqNo < SEQ_MOD
  {
    State((seqNo - 1) % SEQ_MOD, 0, seqNo, SEQ_MOD + 1, MIN_SEQUENTIAL, 0, 0, 0)
  }

  function At(s: State, seqs: seq<nat>, k: nat): State
    requires k <= |seqs|
  {
    if k == 0 then s else Update(At(s, seqs, k - 1), seqs[k - 1]).0
  }

  function VerdictAt(s: State, seqs: seq<nat>, k: nat): Verdict
    requires k < |seqs|
  {
    Update(At(s, seqs, k), seqs[k]).1
  }

  predicate OnTheWire(seqs: seq<nat>) {
    forall i :: 0 <= i < |seqs| ==> seqs[i] < SEQ_MOD
  }

  predicate Consecutive(seqs: seq<nat>, k: nat)
    requires k < |seqs|
  {
    k > 0 && seqs[k] == seqs[k - 1] + 1
  }

  ghost predicate SomeConsecutive(seqs: seq<nat>, k: nat)
    requires k <= |seqs|
  {
    exists i :: 0 <= i < k && Consecutive(seqs, i)
  }

  /** After k packets the source is on probation if no two of them were consecutive, and then it knows
      the last one. */
  ghost predicate ProbationAt(s: State, seqs: seq<nat>, k: nat)
    requires k <= |seqs|
  {
    && (s.probation == 0 <==> SomeConsecutive(seqs, k))
    && (s.probation > 0 && k > 0 ==> s.probation == 1 && s.maxSeq == seqs[k - 1])
    && (k == 0 ==> s.probation == 2)
  }

  lemma ProbationStep(s: State, seqs: seq<nat>, k: nat)
    requires k < |seqs| && ProbationAt(s, seqs, k) && (k == 0 ==> s.probation == 2)
    ensures ProbationAt(Update(s, seqs[k]).0, seqs, k + 1)
  {
    if SomeConsecutive(seqs, k) {
      assert SomeConsecutive(seqs, k + 1);
    } else if Consecutive(seqs, k) {
      assert SomeConsecutive(seqs, k + 1);
    }
  }

  lemma {:induction false} Probation(first: nat, seqs: seq<nat>, k: nat)
    requires first < SEQ_MOD && k <= |seqs|
    ensures ProbationAt(At(Fresh(first), seqs, k), seqs, k)
  {
    if k > 0 {
      Probation(first, seqs, k - 1);
      ProbationStep(At(Fresh(first), seqs, k - 1), seqs, k - 1);
    }
  }

  /** A source is validated by the first packet whose number is one more than its predecessor's. */
  lemma ValidatedByFirstConsecutive(first: nat, seqs: seq<nat>, k: nat)
    requires first < SEQ_MOD && OnTheWire(seqs) && k < |seqs|
    ensures VerdictAt(Fresh(first), seqs, k) == Validated <==>
            Consecutive(seqs, k) && forall i :: 0 <= i < k ==> !Consecutive(seqs, i)
    ensures Accepts(VerdictAt(Fresh(first), seqs, k)) ==> exists i :: 0 <= i <= k && Consecutive(seqs, i)
  {
    Probation(first, seqs, k);
    Probation(first, seqs, k + 1);
  }

  /** 65535 and 0 are consecutive modulo 2^16, yet do not validate a source. */
  lemma WrapDoesNotValidate()
    ensures VerdictAt(Fresh(65535), [65535, 0], 1) == Probing
    ensures OnWire(65535 + 1) == 0
  {
    var s0 := Fresh(65535);
    var seqs := [65535, 0];
    assert At(s0, seqs, 0) == s0;
    assert At(s0, seqs, 1) == Update(s0, 65535).0;
  }

  /** Index of the last rejection before packet k, if there is one since the last init_seq. */
  function LastRejected(s: State, seqs: seq<nat>, k: nat): (r: Option<nat>)
    requires k <= |seqs|
    ensures r.Some? ==> r.value < k && VerdictAt(s, seqs, r.value) == Rejected
    ensures r.Some? ==> forall i :: r.value < i < k ==> VerdictAt(s, seqs, i) in {Probing, InOrder, Reordered}
  {
    if k == 0 then None
    else match VerdictAt(s, seqs, k - 1)
      case Rejected => Some(k - 1)
      case Validated => None
      case Resynced => None
      case _ => LastRejected(s, seqs, k - 1)
  }

  lemma BadSeqStep(s: State, seqNo: nat)
    ensures var (t, v) := Update(s, seqNo);
            t.badSeq == match v
                        case Rejected => (seqNo + 1) % SEQ_MOD
                        case Validated => SEQ_MOD + 1
                        case Resynced => SEQ_MOD + 1
                        case _ => s.badSeq
  {
  }

  lemma {:induction false} BadSeqRemembers(s: State, seqs: seq<nat>, k: nat)
    requires OnTheWire(seqs) && k <= |seqs|
    requires s.badSeq == SEQ_MOD + 1
    ensures At(s, seqs, k).badSeq ==
            match LastRejected(s, seqs, k)
            case None => SEQ_MOD + 1
            case Some(j) => (seqs[j] + 1) % SEQ_MOD
  {
    if k > 0 {
      BadSeqRemembers(s, seqs, k - 1);
      BadSeqStep(At(s, seqs, k - 1), seqs[k - 1]);
    }
  }

  /** A valid source is re-based at a packet exactly when the packet is far from max_seq and its number
      follows that of the most recent rejection since the last init_seq. */
  lemma ResyncFollowsRejection(first: nat, seqs: seq<nat>, k: nat)
    requires first < SEQ_MOD && OnTheWire(seqs) && k < |seqs|
    ensures var s := Fresh(first);
            var t := At(s, seqs, k);
            var last := LastRejected(s, seqs, k);
            VerdictAt(s, seqs, k) == Resynced <==>
            && t.probation == 0
            && MAX_DROPOUT <= (seqs[k] - t.maxSeq) % SEQ_MOD <= SEQ_MOD - MAX_MISORDER
            && last.Some? && seqs[k] == (seqs[last.value] + 1) % SEQ_MOD
  {
    BadSeqRemembers(Fresh(first), seqs, k);
  }
}
