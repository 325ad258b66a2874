// The debugging allocator: it keeps the header of every block it has handed out in a hash, and running
// totals of the octets allocated and freed.

/** The ledger as a value, and what holds over whole runs of calls. Addresses are those of the headers
    that precede the blocks; sizes are 32-bit numbers. */
module Ledger {
  import opened LinkedList
  import opened Words

  const POINTER_SIZE: nat := 4

  /** What the header of a tracked block says about its length, and the statistics. */
  datatype State = State(
    live: map<Pointer, nat>, totalAllocated: nat, totalFreed: nat, maximum: nat, allocTimes: nat, freeTimes: nat)

  const EMPTY: State := State(map[], 0, 0, 0, 0, 0)

  /** A call, with the address `got` that the system allocator answers (0 if it has no memory). */
  datatype Call =
    | Malloc(size: nat, got: Pointer)
    | Calloc(num: nat, size: nat, got: Pointer)
    | Realloc(head: Pointer, size: nat, got: Pointer)
    | Free(head: Pointer)

  /** ALIGN: the next multiple of the pointer size, in 32 bits. */
  function Align(size: nat): nat {
    (size + POINTER_SIZE - 1) % WORD / POINTER_SIZE * POINTER_SIZE
  }

  function Difference(a: nat, b: nat): nat {
    (a - b) % WORD
  }

  function Outstanding(s: State): nat {
    Difference(s.totalAllocated, s.totalFreed)
  }

  function Counted(s: State, length: nat): State {
    var t := s.(allocTimes := Increment(s.allocTimes), totalAllocated := Plus(s.totalAllocated, length));
    if Outstanding(t) > t.maximum then t.(maximum := Outstanding(t)) else t
  }

  function Enter(s: State, head: Pointer, length: nat): State {
    Counted(s.(live := s.live[head := length]), length)
  }

  function Strike(s: State, head: Pointer): State
    requires head in s.live
  {
    s.(live := s.live - {head}, totalFreed := Plus(s.totalFreed, s.live[head]), freeTimes := Increment(s.freeTimes))
  }

  /** The caller passes 0 or a tracked block; the system answers 0 or an address not in use. */
  predicate Legal(s: State, call: Call) {
    match call
    case Malloc(_, got) => 0 <= got < WORD && got !in s.live
    case Calloc(_, _, got) => 0 <= got < WORD && got !in s.live
    case Realloc(head, _, got) => (head == 0 || head in s.live) && 0 <= got < WORD && (got !in s.live || got == head)
    case Free(head) => head == 0 || head in s.live
  }

  function Apply(s: State, call: Call): State
    requires Legal(s, call)
  {
    match call
    case Malloc(size, got) => if got == 0 then s else Enter(s, got, Align(size))
    case Calloc(num, size, got) => if got == 0 then s else Enter(s, got, Align(num * size % WORD))
    case Realloc(head, size, got) =>
      if head == 0 then (if got == 0 then s else Enter(s, got, Align(size)))
      else if got == 0 then Strike(s, head)
      else Enter(Strike(s, head), got, Align(size))
    case Free(head) => if head == 0 then s else Strike(s, head)
  }

  predicate LegalRun(s: State, calls: seq<Call>)
    decreases |calls|
  {
    calls == [] || (Legal(s, calls[0]) && LegalRun(Apply(s, calls[0]), calls[1..]))
  }

  function Run(s: State, calls: seq<Call>): State
    requires LegalRun(s, calls)
    decreases |calls|
  {
    if calls == [] then s else Run(Apply(s, calls[0]), calls[1..])
  }

  // ---- the octets in live blocks ----

  /** Headers have addresses in 1 .. 2^32 - 1. */
  ghost predicate Addresses(live: map<Pointer, nat>) {
    forall p <- live :: 0 < p < WORD
  }

  /** The octets recorded under addresses up to n. */
  function TotalUpTo(live: map<Pointer, nat>, n: nat): nat {
    if n == 0 then 0 else TotalUpTo(live, n - 1) + if n in live then live[n] else 0
  }

  lemma {:induction false} TotalWith(live: map<Pointer, nat>, n: nat, k: Pointer, length: nat)
    requires k !in live && 0 < k
    ensures TotalUpTo(live[k := length], n) == TotalUpTo(live, n) + if k <= n then length else 0
  {
    if n > 0 {
      TotalWith(live, n - 1, k, length);
    }
  }

  lemma {:induction false} NothingLive(live: map<Pointer, nat>, n: nat)
    requires live == map[]
    ensures TotalUpTo(live, n) == 0
  {
    if n > 0 {
      NothingLive(live, n - 1);
    }
  }

  ghost function Live(s: State): nat {
    TotalUpTo(s.live, WORD - 1)
  }

  /** The most octets that were live at once, after any of the calls. */
  ghost function Peak(s: State, calls: seq<Call>): nat
    requires LegalRun(s, calls)
    decreases |calls|
  {
    if calls == [] then Live(s) else Max(Live(s), Peak(Apply(s, calls[0]), calls[1..]))
  }

  /** The running totals differ by the live octets, modulo the width of the counters. */
  ghost predicate Balanced(s: State) {
    Addresses(s.live) && Outstanding(s) == Live(s) % WORD
  }

  lemma ModDifference(a: int, f: int, live: int, d: int)
    requires (a - f) % WORD == live % WORD
    ensures ((a + d) % WORD - f) % WORD == (live + d) % WORD
    ensures (a - (f + d) % WORD) % WORD == (live - d) % WORD
  {
    ModAdd(a + d, -f);
    ModAdd(a - f, d);
    ModAdd(live, d);
    ModAdd(a - f, -d);
    ModAdd(live, -d);
    ModSubtract(f + d, a);
  }

  /** A step from s to t: the totals balance, and the recorded maximum covers what is live. */
  ghost predicate Sound(s: State, t: State) {
    && Balanced(t)
    && (Live(s) <= s.maximum && Live(t) < WORD ==> t.maximum == Max(s.maximum, Live(t)))
  }

  lemma EnterTotals(s: State, head: Pointer, length: nat)
    requires Balanced(s) && head !in s.live && 0 < head < WORD
    ensures Balanced(Enter(s, head, length)) && Live(Enter(s, head, length)) == Live(s) + length
  {
    TotalWith(s.live, WORD - 1, head, length);
    ModDifference(s.totalAllocated, s.totalFreed, Live(s), length);
  }

  lemma StrikeTotals(s: State, head: Pointer)
    requires Balanced(s) && head in s.live
    ensures Balanced(Strike(s, head)) && Live(Strike(s, head)) == Live(s) - s.live[head]
  {
    TotalWith(s.live - {head}, WORD - 1, head, s.live[head]);
    assert (s.live - {head})[head := s.live[head]] == s.live;
    ModDifference(s.totalAllocated, s.totalFreed, Live(s), s.live[head]);
  }

  /** Entering a block after the step from s to r, in which nothing was added. */
  lemma EnterSound(s: State, r: State, head: Pointer, length: nat)
    requires Balanced(r) && Live(r) <= Live(s) && r.maximum == s.maximum && head !in r.live && 0 < head < WORD
    ensures Sound(s, Enter(r, head, length))
  {
    EnterTotals(r, head, length);
    var t := Enter(r, head, length);
    assert Outstanding(t) == Live(t) % WORD;
  }

  lemma ApplySound(s: State, call: Call)
    requires Balanced(s) && Legal(s, call)
    ensures Sound(s, Apply(s, call))
  {
    match call {
      case Malloc(size, got) =>
        if got != 0 { EnterSound(s, s, got, Align(size)); }
      case Calloc(num, size, got) =>
        if got != 0 { EnterSound(s, s, got, Align(num * size % WORD)); }
      case Realloc(head, size, got) =>
        if head == 0 {
          if got != 0 { EnterSound(s, s, got, Align(size)); }
        } else {
          StrikeTotals(s, head);
          if got != 0 { EnterSound(s, Strike(s, head), got, Align(size)); }
        }
      case Free(head) =>
        if head != 0 { StrikeTotals(s, head); }
    }
  }

  /** Over any run the totals stay balanced; and as long as never 2^32 octets are live at once, the
      recorded maximum is the historical peak, however often the totals wrap. */
  lemma {:induction false} LedgerOverRun(s: State, calls: seq<Call>)
    requires Balanced(s) && LegalRun(s, calls)
    ensures Balanced(Run(s, calls))
    ensures s.maximum >= Live(s) && Peak(s, calls) < WORD ==>
              Run(s, calls).maximum == Max(s.maximum, Peak(s, calls))
    decreases |calls|
  {
    if calls != [] {
      ApplySound(s, calls[0]);
      LedgerOverRun(Apply(s, calls[0]), calls[1..]);
      PeakCoversStart(Apply(s, calls[0]), calls[1..]);
    }
  }

  lemma PeakCoversStart(s: State, calls: seq<Call>)
    requires LegalRun(s, calls)
    ensures Peak(s, calls) >= Live(s)
  {
  }

  /** The maximum is recorded in 32 bits. */
  lemma {:induction false} MaximumFits(s: State, calls: seq<Call>)
    requires s.maximum < WORD && LegalRun(s, calls)
    ensures Run(s, calls).maximum < WORD
    decreases |calls|
  {
    if calls != [] {
      MaximumFits(Apply(s, calls[0]), calls[1..]);
    }
  }

  /** The numbers of calls that entered and struck a block differ by the number of live blocks. */
  ghost predicate TimesBalanced(s: State) {
    Difference(s.allocTimes, s.freeTimes) == |s.live| % WORD
  }

  lemma EnterTimes(s: State, head: Pointer, length: nat)
    requires TimesBalanced(s) && head !in s.live
    ensures TimesBalanced(Enter(s, head, length))
  {
    assert s.live[head := length].Keys == s.live.Keys + {head};
    ModDifference(s.allocTimes, s.freeTimes, |s.live|, 1);
  }

  lemma StrikeTimes(s: State, head: Pointer)
    requires TimesBalanced(s) && head in s.live
    ensures TimesBalanced(Strike(s, head))
  {
    assert (s.live - {head}).Keys == s.live.Keys - {head};
    ModDifference(s.allocTimes, s.freeTimes, |s.live|, 1);
  }

  lemma ApplyTimes(s: State, call: Call)
    requires TimesBalanced(s) && Legal(s, call)
    ensures TimesBalanced(Apply(s, call))
  {
    if call.Realloc? && call.head != 0 {
      StrikeTimes(s, call.head);
      if call.got != 0 { EnterTimes(Strike(s, call.head), call.got, Align(call.size)); }
    } else if call.Free? {
      if call.head != 0 { StrikeTimes(s, call.head); }
    } else if call.got != 0 {
      EnterTimes(s, call.got, EnteredLength(call));
    }
  }

  /** The length of the block that a call enters. */
  function EnteredLength(call: Call): nat
    requires !call.Free?
  {
    match call
    case Malloc(size, _) => Align(size)
    case Calloc(num, size, _) => Align(num * size % WORD)
    case Realloc(_, size, _) => Align(size)
  }

  /** The call counters stay right over any run. */
  lemma {:induction false} TimesOverRun(s: State, calls: seq<Call>)
    requires TimesBalanced(s) && LegalRun(s, calls)
    ensures TimesBalanced(Run(s, calls))
    decreases |calls|
  {
    if calls != [] {
      ApplyTimes(s, calls[0]);
      TimesOverRun(Apply(s, calls[0]), calls[1..]);
    }
  }

  /** The statistics after any run from an empty ledger. */
  lemma LedgerFromStart(s: State, calls: seq<Call>)
    requires s == EMPTY && LegalRun(s, calls)
    ensures Outstanding(Run(s, calls)) == Live(Run(s, calls)) % WORD && TimesBalanced(Run(s, calls))
    ensures Run(s, calls).maximum == Peak(s, calls) <==> Peak(s, calls) < WORD
  {
    MaximumFits(s, calls);
    TimesOverRun(s, calls);
    NothingLive(s.live, WORD - 1);
    LedgerOverRun(s, calls);
    PeakCoversStart(s, calls);
  }

  // ---- the ledger read off the calls ----

  /** The size a call asks for, without a bound. */
  function Asked(call: Call): nat
    requires !call.Free?
  {
    if call.Calloc? then call.num * call.size else call.size
  }

  /** The recorded length is the least multiple of 4 not below the size asked for, exactly if that is a
      32-bit number. */
  lemma LengthCovers(call: Call)
    requires !call.Free?
    ensures EnteredLength(call) % 4 == 0
    ensures Asked(call) <= EnteredLength(call) < Asked(call) + 4 <==> Asked(call) + 3 < 0x1_0000_0000
  {
    AlignCovers(Asked(call));
    if call.Calloc? {
      AlignModulo(call.num * call.size);
    }
  }

  lemma AlignCovers(size: nat)
    ensures Align(size) % 4 == 0
    ensures size <= Align(size) < size + 4 <==> size + 3 < 0x1_0000_0000
  {
  }

  lemma AlignModulo(size: nat)
    ensures Align(size % WORD) == Align(size)
  {
    ModAdd(size, POINTER_SIZE - 1);
  }

  /** The call hands out the block with the header at p. */
  predicate Enters(call: Call, p: Pointer) {
    p != 0 && !call.Free? && call.got == p
  }

  /** The call gives the block with the header at p back. */
  predicate Ends(call: Call, p: Pointer) {
    p != 0 && (call.Free? || call.Realloc?) && call.head == p
  }

  predicate NeverEnds(calls: seq<Call>, p: Pointer) {
    forall i :: 0 <= i < |calls| ==> !Ends(calls[i], p)
  }

  /** Call i hands out the block at p, and no later call gives it back. */
  predicate HoldsFrom(calls: seq<Call>, i: nat, p: Pointer) {
    i < |calls| && Enters(calls[i], p) && NeverEnds(calls[i + 1..], p)
  }

  ghost predicate StillHeld(calls: seq<Call>, p: Pointer) {
    exists i: nat :: HoldsFrom(calls, i, p)
  }

  /** What one call does to the block at p, every other block staying as it is. */
  lemma ApplyAt(s: State, call: Call, p: Pointer)
    requires Legal(s, call) && p != 0
    ensures var t := Apply(s, call);
            && (p in t.live <==> Enters(call, p) || (p in s.live && !Ends(call, p)))
            && (Enters(call, p) ==> p in t.live && t.live[p] == EnteredLength(call))
            && (p in s.live && !Ends(call, p) ==> !Enters(call, p) && t.live[p] == s.live[p])
  {
  }

  lemma EndsNext(calls: seq<Call>, p: Pointer)
    requires calls != []
    ensures NeverEnds(calls, p) <==> !Ends(calls[0], p) && NeverEnds(calls[1..], p)
  {
    assert forall i :: 0 < i < |calls| ==> calls[i] == calls[1..][i - 1];
  }

  lemma HeldNext(calls: seq<Call>, i: nat, p: Pointer)
    requires calls != []
    ensures HoldsFrom(calls, i, p) <==> if i == 0 then Enters(calls[0], p) && NeverEnds(calls[1..], p)
                                        else HoldsFrom(calls[1..], i - 1, p)
  {
    if 0 < i < |calls| {
      assert calls[1..][i..] == calls[i + 1..];
    }
  }

  lemma StillHeldNext(calls: seq<Call>, p: Pointer)
    requires calls != []
    ensures StillHeld(calls, p) <==> (Enters(calls[0], p) && NeverEnds(calls[1..], p)) || StillHeld(calls[1..], p)
  {
    HeldNext(calls, 0, p);
    if i: nat :| HoldsFrom(calls, i, p) {
      HeldNext(calls, i, p);
    }
    if i: nat :| HoldsFrom(calls[1..], i, p) {
      HeldNext(calls, i + 1, p);
    }
  }

  /** After any run a block is live exactly if some call has handed it out and no later one has given it
      back, or if it was live before and no call has given it back. */
  lemma {:induction false} LiveAfter(s: State, calls: seq<Call>, p: Pointer)
    requires LegalRun(s, calls) && p != 0
    ensures p in Run(s, calls).live <==> StillHeld(calls, p) || (p in s.live && NeverEnds(calls, p))
    decreases |calls|
  {
    if calls == [] {
      assert !StillHeld(calls, p);
    } else {
      ApplyAt(s, calls[0], p);
      LiveAfter(Apply(s, calls[0]), calls[1..], p);
      StillHeldNext(calls, p);
      EndsNext(calls, p);
    }
  }

  lemma {:induction false} LengthKept(s: State, calls: seq<Call>, p: Pointer)
    requires LegalRun(s, calls) && p != 0 && p in s.live && NeverEnds(calls, p)
    ensures p in Run(s, calls).live && Run(s, calls).live[p] == s.live[p]
    decreases |calls|
  {
    if calls != [] {
      EndsNext(calls, p);
      ApplyAt(s, calls[0], p);
      LengthKept(Apply(s, calls[0]), calls[1..], p);
    }
  }

  /** Its length is the one for which it was handed out. */
  lemma {:induction false} LengthAfter(s: State, calls: seq<Call>, i: nat, p: Pointer)
    requires LegalRun(s, calls) && HoldsFrom(calls, i, p)
    ensures p in Run(s, calls).live && Run(s, calls).live[p] == EnteredLength(calls[i])
    decreases i
  {
    HeldNext(calls, i, p);
    ApplyAt(s, calls[0], p);
    if i == 0 {
      LengthKept(Apply(s, calls[0]), calls[1..], p);
    } else {
      LengthAfter(Apply(s, calls[0]), calls[1..], i - 1, p);
    }
  }

  /** From an empty ledger the live blocks are exactly those handed out and not given back since. */
  lemma LiveFromCalls(calls: seq<Call>, p: Pointer)
    requires LegalRun(EMPTY, calls) && p != 0
    ensures p in Run(EMPTY, calls).live <==> StillHeld(calls, p)
    ensures forall i: nat :: HoldsFrom(calls, i, p) ==> Run(EMPTY, calls).live[p] == EnteredLength(calls[i])
  {
    LiveAfter(EMPTY, calls, p);
    forall i: nat | HoldsFrom(calls, i, p)
      ensures Run(EMPTY, calls).live[p] == EnteredLength(calls[i])
    {
      LengthAfter(EMPTY, calls, i, p);
    }
  }

  predicate Adding(call: Call) {
    !call.Free? && call.got != 0
  }

  predicate Ending(call: Call) {
    (call.Free? || call.Realloc?) && call.head != 0
  }

  /** What one call adds to the running totals: the length of the block it hands out, and that of the
      block it gives back. */
  lemma ApplyTotals(s: State, call: Call)
    requires Legal(s, call)
    ensures var t := Apply(s, call);
            && t.totalAllocated ==
               (if Adding(call) then Plus(s.totalAllocated, EnteredLength(call)) else s.totalAllocated)
            && t.allocTimes == (if Adding(call) then Plus(s.allocTimes, 1) else s.allocTimes)
            && t.totalFreed == (if Ending(call) then Plus(s.totalFreed, s.live[call.head]) else s.totalFreed)
            && t.freeTimes == (if Ending(call) then Plus(s.freeTimes, 1) else s.freeTimes)
  {
  }

  function SumAdded(calls: seq<Call>): nat {
    if calls == [] then 0 else (if Adding(calls[0]) then EnteredLength(calls[0]) else 0) + SumAdded(calls[1..])
  }

  function CountAdding(calls: seq<Call>): nat {
    if calls == [] then 0 else (if Adding(calls[0]) then 1 else 0) + CountAdding(calls[1..])
  }

  function CountEnding(calls: seq<Call>): nat {
    if calls == [] then 0 else (if Ending(calls[0]) then 1 else 0) + CountEnding(calls[1..])
  }

  lemma PlusAgain(total: nat, x: nat, rest: nat)
    ensures Plus(Plus(total, x), rest) == Plus(total, x + rest)
  {
    ModAdd(total + x, rest);
  }

  /** The totals are those of the calls: so many octets and blocks handed out, and so many given back. */
  lemma {:induction false} TotalsFromCalls(s: State, calls: seq<Call>)
    requires LegalRun(s, calls) && s.totalAllocated < WORD && s.allocTimes < WORD && s.freeTimes < WORD
    ensures var t := Run(s, calls);
            && t.totalAllocated == Plus(s.totalAllocated, SumAdded(calls))
            && t.allocTimes == Plus(s.allocTimes, CountAdding(calls))
            && t.freeTimes == Plus(s.freeTimes, CountEnding(calls))
    decreases |calls|
  {
    if calls != [] {
      ApplyTotals(s, calls[0]);
      TotalsFromCalls(Apply(s, calls[0]), calls[1..]);
      if Adding(calls[0]) {
        PlusAgain(s.totalAllocated, EnteredLength(calls[0]), SumAdded(calls[1..]));
        PlusAgain(s.allocTimes, 1, CountAdding(calls[1..]));
      }
      if Ending(calls[0]) {
        PlusAgain(s.freeTimes, 1, CountEnding(calls[1..]));
      }
    }
  }
}

module Allocator {
  import opened LinkedList
  import opened PointerHash
  import opened Ledger
  import opened Counting
  import opened Words

  const HEAD_SIZE: nat := 272  // sizeof(alloc_head_t)

  /** The address of the block behind a header, NULL behind none. */
  function BlockOf(head: Pointer): Pointer {
    if head == 0 then 0 else head + HEAD_SIZE
  }

  function HeadOf(block: Pointer): Pointer {
    if block == 0 then 0 else block - HEAD_SIZE
  }

  lemma FewAddresses(live: map<Pointer, nat>)
    requires Addresses(live)
    ensures |live.Keys| < WORD
  {
    SubsetSize(live.Keys, Span(1, WORD - 1));
  }

  lemma KeysWith(m: map<Pointer, nat>, k: Pointer, n: nat)
    ensures k !in m ==> multiset(m[k := n].Keys) == multiset(m.Keys) + multiset{k}
    ensures k in m ==> multiset((m - {k}).Keys) == multiset(m.Keys) - multiset{k} && k in multiset(m.Keys)
  {
    assert m[k := n].Keys == m.Keys + {k};
    assert (m - {k}).Keys == m.Keys - {k};
  }

  class AllocStat {
    const hash: Hash
    var lengths: map<Pointer, nat>  // the length field of each tracked header
    var totalAllocated: nat
    var totalFree: nat
    var maximum: nat
    var allocTimes: nat
    var freeTimes: nat

    ghost function View(): State
      reads this
    {
      State(lengths, totalAllocated, totalFree, maximum, allocTimes, freeTimes)
    }

    ghost predicate Valid()
      reads this`lengths, hash, hash.buckets, hash.owner.Keys
    {
      && hash.Valid()
      && hash.Contents() == multiset(lengths.Keys)
      && Addresses(lengths)
    }

    constructor ()
      ensures Valid() && View() == EMPTY
      ensures fresh(hash) && fresh(hash.buckets) && fresh(hash.owner.Keys)
    {
      hash := new Hash();
      lengths := map[];
      totalAllocated, totalFree, maximum, allocTimes, freeTimes := 0, 0, 0, 0, 0;
    }

    /** What malloc, calloc and realloc do with a new header. */
    method EnterBlock(head: Pointer, size: nat)
      requires Valid() && 0 < head < WORD && head !in lengths
      modifies this, hash, hash.buckets, hash.owner.Keys
      ensures Valid() && fresh(hash.owner.Keys - old(hash.owner.Keys))
      ensures View() == Enter(old(View()), head, size)
    {
      Track(head, size);
      CountAllocation(size);
    }

    method Track(head: Pointer, size: nat)
      requires Valid() && 0 < head < WORD && head !in lengths
      modifies this`lengths, hash, hash.buckets, hash.owner.Keys
      ensures Valid() && fresh(hash.owner.Keys - old(hash.owner.Keys))
      ensures lengths == old(lengths)[head := size]
    {
      CountKept(hash.Contents(), head, hash.available);
      KeysWith(lengths, head, size);
      lengths := lengths[head := size];
      var key := hash.Insert(head);
    }

    method CountAllocation(size: nat)
      requires Valid()
      modifies this`allocTimes, this`totalAllocated, this`maximum
      ensures Valid()
      ensures View() == Counted(old(View()), size)
    {
      allocTimes := Increment(allocTimes);
      totalAllocated := Plus(totalAllocated, size);
      var bytes := Difference(totalAllocated, totalFree);
      if bytes > maximum {
        maximum := bytes;
      }
    }

    /** What free and realloc do with the header of the block they are given. */
    method StrikeBlock(head: Pointer)
      requires Valid() && head in lengths
      modifies this, hash, hash.buckets, hash.owner.Keys
      ensures Valid() && hash.owner.Keys == old(hash.owner.Keys)
      ensures View() == Strike(old(View()), head)
    {
      CountKept(hash.Contents(), head, hash.available);
      KeysWith(lengths, head, 0);
      var key := hash.Remove(head);
      totalFree := Plus(totalFree, lengths[head]);
      freeTimes := Increment(freeTimes);
      lengths := lengths - {head};
    }

    method Malloc(size: nat, got: Pointer) returns (block: Pointer)
      requires Valid() && Legal(View(), Call.Malloc(size, got))
      modifies this, hash, hash.buckets, hash.owner.Keys
      ensures Valid() && fresh(hash.owner.Keys - old(hash.owner.Keys))
      ensures View() == Apply(old(View()), Call.Malloc(size, got)) && block == BlockOf(got)
    {
      if got != 0 {
        EnterBlock(got, Align(size));
      }
      block := BlockOf(got);
    }

    method Calloc(num: nat, size: nat, got: Pointer) returns (block: Pointer)
      requires Valid() && Legal(View(), Call.Calloc(num, size, got))
      modifies this, hash, hash.buckets, hash.owner.Keys
      ensures Valid() && fresh(hash.owner.Keys - old(hash.owner.Keys))
      ensures View() == Apply(old(View()), Call.Calloc(num, size, got)) && block == BlockOf(got)
    {
      if got != 0 {
        EnterBlock(got, Align(num * size % WORD));
      }
      block := BlockOf(got);
    }

    method Realloc(ptr: Pointer, size: nat, got: Pointer) returns (block: Pointer)
      requires Valid() && (ptr == 0 || HeadOf(ptr) in lengths)
      requires Legal(View(), Call.Realloc(HeadOf(ptr), size, got))
      modifies this, hash, hash.buckets, hash.owner.Keys
      ensures Valid() && fresh(hash.owner.Keys - old(hash.owner.Keys))
      ensures View() == Apply(old(View()), Call.Realloc(HeadOf(ptr), size, got)) && block == BlockOf(got)
    {
      if ptr == 0 {
        block := Malloc(size, got);
        return;
      }
      StrikeBlock(HeadOf(ptr));
      if got != 0 {
        EnterBlock(got, Align(size));
      }
      block := BlockOf(got);
    }

    method Free(block: Pointer)
      requires Valid() && (block == 0 || HeadOf(block) in lengths)
      modifies this, hash, hash.buckets, hash.owner.Keys
      ensures Valid() && hash.owner.Keys == old(hash.owner.Keys)
      ensures View() == Apply(old(View()), Call.Free(HeadOf(block)))
    {
      if block == 0 {
        return;
      }
      StrikeBlock(HeadOf(block));
    }

    /** _z3_alloc_uninit: the report names every block that was not freed exactly once, and nothing else. */
    method ReportLeaks() returns (leaks: seq<Pointer>)
      requires Valid()
      ensures multiset(leaks) == multiset(lengths.Keys)
    {
      leaks := [];
      FewAddresses(lengths);
      var amount := hash.Amount();
      if amount > 0 {
        leaks := hash.ForEach();
      }
    }

    method Perform(call: Call)
      requires Valid() && Legal(View(), call)
      modifies this, hash, hash.buckets, hash.owner.Keys
      ensures Valid() && fresh(hash.owner.Keys - old(hash.owner.Keys))
      ensures View() == Apply(old(View()), call)
    {
      var block;
      match call {
        case Malloc(size, got) => block := Malloc(size, got);
        case Calloc(num, size, got) => block := Calloc(num, size, got);
        case Realloc(head, size, got) => block := Realloc(BlockOf(head), size, got);
        case Free(head) => Free(BlockOf(head));
      }
    }

    method PerformAll(calls: seq<Call>)
      requires Valid() && LegalRun(View(), calls)
      modifies this, hash, hash.buckets, hash.owner.Keys
      ensures Valid() && View() == Run(old(View()), calls)
    {
      var i := 0;
      while i < |calls|
        invariant 0 <= i <= |calls|
        invariant Valid() && fresh(hash.owner.Keys - old(hash.owner.Keys))
        invariant LegalRun(View(), calls[i..]) && Run(View(), calls[i..]) == old(Run(View(), calls))
      {
        assert calls[i..][1..] == calls[i + 1..];
        Perform(calls[i]);
        i := i + 1;
      }
    }
  }

  /** A program from its start to its end: the report names exactly the blocks that some call has handed
      out and no later one has given back, each of them once. */
  method LeaksOf(calls: seq<Call>) returns (leaks: seq<Pointer>)
    requires LegalRun(EMPTY, calls)
    ensures forall p :: multiset(leaks)[p] == if p != 0 && StillHeld(calls, p) then 1 else 0
  {
    var stat := new AllocStat();
    stat.PerformAll(calls);
    leaks := stat.ReportLeaks();
    forall p
      ensures multiset(leaks)[p] == if p != 0 && StillHeld(calls, p) then 1 else 0
    {
      if p != 0 {
        LiveFromCalls(calls, p);
      }
    }
  }
}
