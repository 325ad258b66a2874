// RTCP transmission timing (section 6.3 of RFC 3550): the interval, the expiry of the report timer,
// and reverse reconsideration when participants leave.

/** rtcp_interval, over the reals; `draw` stands for the value of drand48, any real in [0, 1). */
module RtcpInterval {

  const MIN_TIME: real := 5.0
  const SENDER_FRACTION: real := 0.25
  const COMPENSATION: real := 2.71828 - 1.5

  /** Line 122 as written: a strict comparison, and only when somebody sends. */
  predicate SendersFavoured(members: int, senders: int) {
    senders > 0 && senders as real < members as real * SENDER_FRACTION
  }

  /** The interval before randomisation. */
  function Deterministic(members: int, senders: int, bandwidth: real, weSent: bool, averageSize: real,
                         initial: bool): real
    requires bandwidth > 0.0
  {
    var minTime := if initial then MIN_TIME / 2.0 else MIN_TIME;
    var favoured := SendersFavoured(members, senders);
    var fraction := if weSent then SENDER_FRACTION else 1.0 - SENDER_FRACTION;
    var share := if favoured then bandwidth * fraction else bandwidth;
    var sites := if favoured then (if weSent then senders else members - senders) else members;
    Enforced(averageSize, sites, share, minTime)
  }

  /** The time in which `sites` packets use up the bandwidth `share`, with a minimum enforced. */
  function Enforced(averageSize: real, sites: int, share: real, minTime: real): (t: real)
    requires share > 0.0
    ensures t >= minTime
  {
    var t := averageSize * sites as real / share;
    if t < minTime then minTime else t
  }

  function Times(a: real, b: real): real {
    a * b
  }

  function Drawn(d: real, draw: real): real {
    Times(d, draw + 0.5) / COMPENSATION
  }

  function Interval(members: int, senders: int, bandwidth: real, weSent: bool, averageSize: real, initial: bool,
                    draw: real): real
    requires bandwidth > 0.0
  {
    Drawn(Deterministic(members, senders, bandwidth, weSent, averageSize, initial), draw)
  }

  lemma MulBounds(t: real, a: real, x: real, b: real)
    requires 0.0 < t && a <= x < b
    ensures Times(t, a) <= Times(t, x) < Times(t, b)
  {
    assert Times(t, x - a) >= 0.0;
    assert Times(t, b - x) > 0.0;
  }

  lemma Compensated(x: real, y: real)
    requires x < y
    ensures x / COMPENSATION < y / COMPENSATION
  {
    assert x / 1.21828 < y / 1.21828;
  }

  lemma DrawBounds(d: real, draw: real, minTime: real)
    requires 0.0 < minTime <= d && 0.0 <= draw < 1.0
    ensures 0.5 * minTime / COMPENSATION <= 0.5 * d / COMPENSATION <= Drawn(d, draw) < 1.5 * d / COMPENSATION
  {
    MulBounds(d, 0.5, draw + 0.5, 1.5);
    Compensated(Times(d, draw + 0.5), Times(d, 1.5));
  }

  lemma DivMul(x: real, n: real)
    requires n != 0.0
    ensures x / n * n == x
  {
  }

  /** Every drawn interval lies within [0.5, 1.5)/1.21828 of the deterministic one, and never
      below half the enforced minimum. */
  lemma IntervalBounds(members: int, senders: int, bandwidth: real, weSent: bool, averageSize: real, initial: bool,
                       draw: real)
    requires bandwidth > 0.0 && 0.0 <= draw < 1.0
    ensures var d := Deterministic(members, senders, bandwidth, weSent, averageSize, initial);
            var t := Interval(members, senders, bandwidth, weSent, averageSize, initial, draw);
            && 0.5 * d / 1.21828 <= t < 1.5 * d / 1.21828
            && t >= (if initial then 1.25 else 2.5) / 1.21828
  {
    var d := Deterministic(members, senders, bandwidth, weSent, averageSize, initial);
    assert d >= if initial then 2.5 else 5.0;
    DrawBounds(d, draw, if initial then 2.5 else 5.0);
  }

  /** The draw spreads the interval over all of that range: in proportion to it, so that each value is drawn
      for exactly one number. */
  lemma DrawnEvenly(d: real, x: real, draw: real)
    requires d > 0.0
    ensures Drawn(d, draw) == x <==> draw == x * 1.21828 / d - 0.5
    ensures 0.5 * d / 1.21828 <= x < 1.5 * d / 1.21828 <==> 0.0 <= x * 1.21828 / d - 0.5 < 1.0
  {
    var q := x * 1.21828 / d;
    assert q * d == x * 1.21828;
    TimesOne(d, draw + 0.5, q);
    TimesOrder(d, 0.5, q);
    TimesOrder(d, 1.5, q);
  }

  lemma TimesOne(d: real, a: real, b: real)
    requires d > 0.0
    ensures Times(d, a) == b * d <==> a == b
  {
    if a != b {
      TimesOrder(d, a, b);
    }
  }

  lemma TimesOrder(d: real, a: real, b: real)
    requires d > 0.0
    ensures Times(d, a) <= b * d <==> a <= b
  {
    assert Times(d, a) == a * d;
    if a <= b {
      assert (b - a) * d >= 0.0;
    } else {
      assert (a - b) * d > 0.0;
    }
  }

  // ---- the whole group keeps to its bandwidth ----

  datatype Participant = Participant(weSent: bool, initial: bool)

  function Senders(group: seq<Participant>): (n: nat)
    ensures n <= |group|
  {
    if group == [] then 0 else (if group[0].weSent then 1 else 0) + Senders(group[1..])
  }

  function Sum(xs: seq<real>): real {
    if xs == [] then 0.0 else xs[0] + Sum(xs[1..])
  }

  /** Octets per second that p sends on average, with one report a deterministic interval. */
  function Rate(p: Participant, members: int, senders: int, bandwidth: real, averageSize: real): real
    requires bandwidth > 0.0
  {
    averageSize / Deterministic(members, senders, bandwidth, p.weSent, averageSize, p.initial)
  }

  /** The rates of all participants of the group. */
  function Rates(group: seq<Participant>, bandwidth: real, averageSize: real): (rates: seq<real>)
    requires bandwidth > 0.0
    ensures |rates| == |group|
    ensures forall i :: 0 <= i < |group| ==> rates[i] == Rate(group[i], |group|, Senders(group), bandwidth, averageSize)
  {
    seq(|group|, i requires 0 <= i < |group| => Rate(group[i], |group|, Senders(group), bandwidth, averageSize))
  }

  lemma QuotientLe(a: real, t: real, b: real, n: real)
    requires 0.0 < t && 0.0 < n && 0.0 <= a && 0.0 < b && a * n / b <= t
    ensures a / t <= b / n
  {
    assert a * n <= t * b by {
      var q := a * n / b;
      assert q * b == a * n;
      assert q * b <= t * b;
    }
    var x := a / t;
    assert x * t == a;
    assert x * n * t <= b * t;
    assert x * n <= b;
    var y := b / n;
    assert y * n == b;
    if x > y { assert (x - y) * n > 0.0; }
  }

  /** The largest rate a participant can have: its part of the bandwidth, split evenly. */
  function FairShare(weSent: bool, members: int, senders: int, bandwidth: real): real
    requires 0 < members
  {
    if !SendersFavoured(members, senders) then bandwidth / members as real
    else if weSent then bandwidth * SENDER_FRACTION / senders as real
    else bandwidth * (1.0 - SENDER_FRACTION) / (members - senders) as real
  }

  lemma EnforcedRate(averageSize: real, sites: int, share: real, minTime: real)
    requires 0.0 <= averageSize && 0 < sites && 0.0 < share && 0.0 < minTime
    ensures averageSize / Enforced(averageSize, sites, share, minTime) <= share / sites as real
  {
    QuotientLe(averageSize, Enforced(averageSize, sites, share, minTime), share, sites as real);
  }

  lemma RateWithinShare(p: Participant, members: int, senders: int, bandwidth: real, averageSize: real)
    requires bandwidth > 0.0 && averageSize >= 0.0 && 0 <= senders && 0 < members
    ensures Rate(p, members, senders, bandwidth, averageSize) <= FairShare(p.weSent, members, senders, bandwidth)
  {
    var minTime := if p.initial then MIN_TIME / 2.0 else MIN_TIME;
    if !SendersFavoured(members, senders) {
      EnforcedRate(averageSize, members, bandwidth, minTime);
    } else if p.weSent {
      EnforcedRate(averageSize, senders, bandwidth * SENDER_FRACTION, minTime);
    } else {
      EnforcedRate(averageSize, members - senders, bandwidth * (1.0 - SENDER_FRACTION), minTime);
    }
  }

  /** Above its minimum the interval is just long enough: the rate is the even part of the share, no less. */
  lemma RateIsFairShare(p: Participant, members: int, senders: int, bandwidth: real, averageSize: real)
    requires bandwidth > 0.0 && averageSize > 0.0 && 0 <= senders < members
    ensures var d := Deterministic(members, senders, bandwidth, p.weSent, averageSize, p.initial);
            && d >= (if p.initial then 2.5 else 5.0)
            && (d > (if p.initial then 2.5 else 5.0) && (p.weSent ==> senders > 0) ==>
                  Rate(p, members, senders, bandwidth, averageSize) == FairShare(p.weSent, members, senders, bandwidth))
  {
    var minTime := if p.initial then 2.5 else 5.0;
    if !SendersFavoured(members, senders) {
      ExactRate(averageSize, members, bandwidth, minTime);
    } else if p.weSent {
      ExactRate(averageSize, senders, bandwidth * SENDER_FRACTION, minTime);
    } else {
      ExactRate(averageSize, members - senders, bandwidth * (1.0 - SENDER_FRACTION), minTime);
    }
  }

  lemma ExactRate(averageSize: real, sites: int, share: real, minTime: real)
    requires 0.0 < averageSize && 0 < sites && 0.0 < share && 0.0 < minTime
    ensures Enforced(averageSize, sites, share, minTime) > minTime ==>
              averageSize / Enforced(averageSize, sites, share, minTime) == share / sites as real
  {
    var t := averageSize * sites as real / share;
    if t > minTime {
      QuotientEq(averageSize, sites as real, share, t);
    }
  }

  lemma QuotientEq(a: real, n: real, b: real, t: real)
    requires 0.0 < a && 0.0 < n && 0.0 < b && t == a * n / b && 0.0 < t
    ensures a / t == b / n
  {
    assert t * b == a * n;
    var x, y := a / t, b / n;
    assert x * t == a && y * n == b;
    assert x * t * n == t * (y * n);
    assert t * (x * n) == t * (y * n);
    SameFactor(t, x * n, y * n);
    SameFactor(n, x, y);
  }

  lemma SameFactor(c: real, x: real, y: real)
    requires c > 0.0 && c * x == c * y
    ensures x == y
  {
    MulOrder(c, x, y);
    MulOrder(c, y, x);
  }

  lemma MulOrder(c: real, x: real, y: real)
    requires c > 0.0
    ensures x < y <==> c * x < c * y
  {
    if x < y {
      assert c * (y - x) > 0.0;
    } else {
      assert c * (x - y) >= 0.0;
    }
  }

  /** Senders together have at least a quarter of the bandwidth: each has the larger of an even part of the
      whole and an even part of that quarter. */
  lemma SendersHaveAQuarter(members: int, senders: int, bandwidth: real)
    requires bandwidth > 0.0 && 0 < senders <= members
    ensures var whole, quarter := bandwidth / members as real, bandwidth * 0.25 / senders as real;
            FairShare(true, members, senders, bandwidth) == if whole < quarter then quarter else whole
  {
    var n, m := senders as real, members as real;
    var whole, quarter := bandwidth / m, bandwidth * 0.25 / n;
    assert whole * m == bandwidth && quarter * n == bandwidth * 0.25;
    assert whole * (m * 0.25) == quarter * n;
    Compare(whole, m * 0.25, quarter, n);
  }

  lemma Compare(x: real, a: real, y: real, b: real)
    requires 0.0 < a && 0.0 < b && 0.0 < x && 0.0 < y && x * a == y * b
    ensures x < y <==> b < a
  {
    MulOrder(a, x, y);
    MulOrder(y, b, a);
  }

  function Parts(senders: int, receivers: int, ofSender: real, ofReceiver: real): real {
    senders as real * ofSender + receivers as real * ofReceiver
  }

  lemma OneMore(k: int, n: int, a: real, b: real)
    ensures Parts(k + 1, n, a, b) == Parts(k, n, a, b) + a
    ensures Parts(k, n + 1, a, b) == Parts(k, n, a, b) + b
  {
    assert (k as real + 1.0) * a == k as real * a + a;
    assert (n as real + 1.0) * b == n as real * b + b;
  }

  lemma {:induction false} SumWithin(group: seq<Participant>, rates: seq<real>, ofSender: real, ofReceiver: real)
    requires |rates| == |group|
    requires forall i :: 0 <= i < |group| ==> rates[i] <= if group[i].weSent then ofSender else ofReceiver
    ensures Sum(rates) <= Parts(Senders(group), |group| - Senders(group), ofSender, ofReceiver)
  {
    if group == [] {
      assert Parts(0, 0, ofSender, ofReceiver) == 0.0;
    } else {
      SumWithin(group[1..], rates[1..], ofSender, ofReceiver);
      OneMore(Senders(group[1..]), |group| - 1 - Senders(group[1..]), ofSender, ofReceiver);
    }
  }

  lemma SharesAddUp(members: int, senders: int, bandwidth: real)
    requires 0 <= senders <= members && 0 < members
    ensures Parts(senders, members - senders, FairShare(true, members, senders, bandwidth),
                  FairShare(false, members, senders, bandwidth)) == bandwidth
  {
    if SendersFavoured(members, senders) {
      DivMul(bandwidth * SENDER_FRACTION, senders as real);
      DivMul(bandwidth * (1.0 - SENDER_FRACTION), (members - senders) as real);
    } else {
      DivMul(bandwidth, members as real);
      Distribute(senders as real, (members - senders) as real, bandwidth / members as real);
    }
  }

  lemma Distribute(k: real, n: real, a: real)
    ensures k * a + n * a == (k + n) * a
  {
  }

  /** If every participant reports once per deterministic interval, the group stays within its bandwidth. */
  lemma GroupWithinBandwidth(group: seq<Participant>, bandwidth: real, averageSize: real)
    requires bandwidth > 0.0 && averageSize >= 0.0
    ensures Sum(Rates(group, bandwidth, averageSize)) <= bandwidth
  {
    var members, senders, rates := |group|, Senders(group), Rates(group, bandwidth, averageSize);
    if group != [] {
      var s, r := FairShare(true, members, senders, bandwidth), FairShare(false, members, senders, bandwidth);
      forall i | 0 <= i < |group|
        ensures rates[i] <= if group[i].weSent then s else r
      {
        RateWithinShare(group[i], members, senders, bandwidth, averageSize);
      }
      SumWithin(group, rates, s, r);
      SharesAddUp(members, senders, bandwidth);
    }
  }
}

module RtcpTimer {
  import opened RtcpInterval

  type Ssrc = nat

  datatype EventType = UnknownEvent | ReportEvent | ByeEvent

  datatype PacketType = Rtp | RtcpReport | Bye | OtherPacket

  datatype Packet = Packet(kind: PacketType, source: Ssrc, size: nat)

  datatype Action = Nothing | SentReport | SentBye

  /** What the functions keep through pointers, the tables they consult, and the time tn for which
      the pending event was last scheduled. */
  datatype State = State(
    members: int, senders: int, memberTable: set<Ssrc>, senderTable: set<Ssrc>,
    pmembers: int, averageSize: real, initial: bool, tp: real, tn: real)

  /** The member count covers the member table (it exceeds it while BYEs are counted). */
  predicate WellFormed(s: State) {
    s.members >= |s.memberTable|
  }

  datatype Step =
    | Expire(event: EventType, time: real, bandwidth: real, weSent: bool, sentSize: nat, draw: real, redraw: real)
    | Receive(event: EventType, time: real, packet: Packet)

  predicate Admissible(step: Step) {
    step.Expire? ==> step.bandwidth > 0.0 && 0.0 <= step.draw < 1.0 && 0.0 <= step.redraw < 1.0
  }

  function Average(size: nat, averageSize: real): real {
    1.0 / 16.0 * size as real + 15.0 / 16.0 * averageSize
  }

  function Draw(s: State, e: Step, draw: real): real
    requires e.Expire? && e.bandwidth > 0.0
  {
    Interval(s.members, s.senders, e.bandwidth, e.weSent, s.averageSize, s.initial, draw)
  }

  function AfterExpire(s: State, e: Step): (State, Action)
    requires e.Expire? && e.bandwidth > 0.0
  {
    var tn := s.tp + Draw(s, e, e.draw);
    match e.event
    case UnknownEvent => (s, Nothing)
    case ByeEvent => if tn <= e.time then (s, SentBye) else (s.(tn := tn), Nothing)
    case ReportEvent =>
      if tn <= e.time then
        var sent := s.(averageSize := Average(e.sentSize, s.averageSize), tp := e.time);
        (sent.(tn := Draw(sent, e, e.redraw) + e.time, initial := false, pmembers := s.members), SentReport)
      else
        (s.(tn := tn, pmembers := s.members), Nothing)
  }

  function Joined(s: State, source: Ssrc): State {
    if source in s.memberTable then s
    else s.(memberTable := s.memberTable + {source}, members := s.members + 1)
  }

  function Left(s: State, source: Ssrc): State {
    var t :=
      if source in s.senderTable then s.(senderTable := s.senderTable - {source}, senders := s.senders - 1) else s;
    if source in t.memberTable then t.(memberTable := t.memberTable - {source}, members := t.members - 1) else t
  }

  function Scale(fraction: real, x: real): real {
    fraction * x
  }

  /** Reverse reconsideration: both ends of the pending interval are drawn towards `now`. */
  function Reconsidered(s: State, now: real): State
    requires WellFormed(s)
  {
    if s.members < s.pmembers then
      var f := s.members as real / s.pmembers as real;
      s.(tn := now + Scale(f, s.tn - now), tp := now - Scale(f, now - s.tp), pmembers := s.members)
    else s
  }

  /** A BYE before reconsideration: its size is averaged in and its sender struck off. */
  function ByeNoted(s: State, e: Step): (t: State)
    requires e.Receive? && WellFormed(s)
    ensures WellFormed(t) && t.tn == s.tn && t.tp == s.tp && t.pmembers == s.pmembers && t.initial == s.initial
  {
    Left(s.(averageSize := Average(e.packet.size, s.averageSize)), e.packet.source)
  }

  function AfterReceive(s: State, e: Step): (s': State)
    requires e.Receive? && WellFormed(s)
    ensures WellFormed(s')
  {
    var p := e.packet;
    match p.kind
    case RtcpReport =>
      (if e.event == ReportEvent then Joined(s, p.source) else s).(averageSize := Average(p.size, s.averageSize))
    case Rtp =>
      if e.event != ReportEvent then s
      else
        var t := Joined(s, p.source);
        if p.source in t.senderTable then t
        else t.(senderTable := t.senderTable + {p.source}, senders := t.senders + 1)
    case Bye =>
      var t := s.(averageSize := Average(p.size, s.averageSize));
      if e.event == ReportEvent then Reconsidered(ByeNoted(s, e), e.time)
      else if e.event == ByeEvent then t.(members := t.members + 1)
      else t
    case OtherPacket => s
  }

  // ---- the code, updating its state in place ----

  class Timer {
    var members: int
    var senders: int
    var memberTable: set<Ssrc>
    var senderTable: set<Ssrc>
    var pmembers: int
    var averageSize: real
    var initial: bool
    var tp: real
    var tn: real

    ghost function Snapshot(): State
      reads this
    {
      State(members, senders, memberTable, senderTable, pmembers, averageSize, initial, tp, tn)
    }

    method OnExpire(event: EventType, bandwidth: real, weSent: bool, sentSize: nat, tc: real, draw: real, redraw: real)
      returns (action: Action)
      requires bandwidth > 0.0
      modifies this`pmembers, this`averageSize, this`initial, this`tp, this`tn
      ensures (Snapshot(), action) ==
              AfterExpire(old(Snapshot()), Expire(event, tc, bandwidth, weSent, sentSize, draw, redraw))
    {
      action := Nothing;
      if event == ByeEvent {
        var t := Interval(members, senders, bandwidth, weSent, averageSize, initial, draw);
        var next := tp + t;
        if next <= tc {
          action := SentBye;
        } else {
          tn := next;
        }
      } else if event == ReportEvent {
        var t := Interval(members, senders, bandwidth, weSent, averageSize, initial, draw);
        var next := tp + t;
        if next <= tc {
          action := SentReport;
          averageSize := Average(sentSize, averageSize);
          tp := tc;
          t := Interval(members, senders, bandwidth, weSent, averageSize, initial, redraw);
          tn := t + tc;
          initial := false;
        } else {
          tn := next;
        }
        pmembers := members;
      }
    }

    /** The tail of a BYE: bring the pending report forward in the measure in which the group has shrunk. */
    method Reconsider(tc: real)
      requires WellFormed(Snapshot())
      modifies this`tn, this`tp, this`pmembers
      ensures Snapshot() == Reconsidered(old(Snapshot()), tc)
    {
      if members < pmembers {
        var left := members as real / pmembers as real;
        tn := tc + Scale(left, tn - tc);
        tp := tc - Scale(left, tc - tp);
        pmembers := members;
      }
    }

    method Join(source: Ssrc)
      modifies this`memberTable, this`members
      ensures Snapshot() == Joined(old(Snapshot()), source)
    {
      if source !in memberTable {
        memberTable := memberTable + {source};
        members := members + 1;
      }
    }

    method Leave(source: Ssrc)
      modifies this`memberTable, this`members, this`senderTable, this`senders
      ensures Snapshot() == Left(old(Snapshot()), source)
    {
      if source in senderTable {
        senderTable := senderTable - {source};
        senders := senders - 1;
      }
      if source in memberTable {
        memberTable := memberTable - {source};
        members := members - 1;
      }
    }

    method OnReceive(packet: Packet, event: EventType, tc: real)
      requires WellFormed(Snapshot())
      modifies this
      ensures Snapshot() == AfterReceive(old(Snapshot()), Receive(event, tc, packet))
    {
      if packet.kind == RtcpReport {
        if event == ReportEvent {
          Join(packet.source);
        }
        averageSize := Average(packet.size, averageSize);
      } else if packet.kind == Rtp {
        if event == ReportEvent {
          Join(packet.source);
        }
        if packet.source !in senderTable && event == ReportEvent {
          senderTable := senderTable + {packet.source};
          senders := senders + 1;
        }
      } else if packet.kind == Bye {
        averageSize := Average(packet.size, averageSize);
        if event == ReportEvent {
          Leave(packet.source);
          Reconsider(tc);
        } else if event == ByeEvent {
          members := members + 1;
        }
      }
    }
  }

  // ---- runs ----

  function Next(s: State, e: Step): (s': State)
    requires WellFormed(s) && Admissible(e)
    ensures WellFormed(s')
  {
    if e.Expire? then AfterExpire(s, e).0 else AfterReceive(s, e)
  }

  /** Every step is admissible and time does not run backwards from `start` on. */
  predicate Timed(steps: seq<Step>, start: real) {
    && (forall i :: 0 <= i < |steps| ==> Admissible(steps[i]) && start <= steps[i].time)
    && (forall i, j :: 0 <= i < j < |steps| ==> steps[i].time <= steps[j].time)
  }

  /** The state before step k of a run from s. */
  function At(s: State, steps: seq<Step>, k: nat): (s': State)
    requires WellFormed(s) && k <= |steps|
    requires forall i :: 0 <= i < |steps| ==> Admissible(steps[i])
    ensures WellFormed(s')
  {
    if k == 0 then s else Next(At(s, steps, k - 1), steps[k - 1])
  }

  predicate ReportsAt(s: State, steps: seq<Step>, k: nat)
    requires WellFormed(s) && k < |steps|
    requires forall i :: 0 <= i < |steps| ==> Admissible(steps[i])
  {
    steps[k].Expire? && AfterExpire(At(s, steps, k), steps[k]).1 == SentReport
  }

  lemma Fraction(f: real, x: real)
    requires 0.0 <= f < 1.0
    ensures 0.0 <= x ==> 0.0 <= Scale(f, x) <= x
    ensures x <= 0.0 ==> x <= Scale(f, x) <= 0.0
  {
    NonNegative(f, x);
    NonNegative(1.0 - f, x);
    NonNegative(f, -x);
    NonNegative(1.0 - f, -x);
    assert f * -x == -(f * x);
    assert (1.0 - f) * x == x - f * x;
    assert (1.0 - f) * -x == -(x - f * x);
  }

  lemma NonNegative(a: real, b: real)
    ensures 0.0 <= a && 0.0 <= b ==> 0.0 <= a * b
  {
  }

  lemma Ratio(m: int, p: int)
    requires 0 <= m < p
    ensures 0.0 <= m as real / p as real < 1.0
    ensures m as real / p as real * p as real == m as real
  {
  }

  /** Reverse reconsideration keeps tp between its old value and now, and tn between now and its old value. */
  lemma ReconsiderationBounds(s: State, now: real)
    requires WellFormed(s)
    ensures var t := Reconsidered(s, now);
            && (s.tp <= now ==> s.tp <= t.tp <= now)
            && (now <= s.tn ==> now <= t.tn <= s.tn)
            && (s.tn <= now ==> s.tn <= t.tn <= now)
  {
    if s.members < s.pmembers {
      var f := s.members as real / s.pmembers as real;
      Ratio(s.members, s.pmembers);
      Fraction(f, now - s.tp);
      Fraction(f, s.tn - now);
    }
  }

  lemma NextKeepsTp(s: State, e: Step)
    requires WellFormed(s) && Admissible(e) && s.tp <= e.time
    ensures s.tp <= Next(s, e).tp <= e.time
    ensures Next(s, e).initial ==> s.initial
  {
    if e.Receive? && e.packet.kind == Bye && e.event == ReportEvent {
      ReconsiderationBounds(ByeNoted(s, e), e.time);
    }
  }

  lemma {:induction false} TpNeverDecreases(s: State, steps: seq<Step>, start: real, i: nat, j: nat)
    requires WellFormed(s) && Timed(steps, start) && s.tp <= start
    requires i <= j <= |steps|
    ensures s.tp <= At(s, steps, i).tp <= At(s, steps, j).tp
    ensures forall k :: j <= k < |steps| ==> At(s, steps, j).tp <= steps[k].time
    ensures At(s, steps, j).initial ==> At(s, steps, i).initial
  {
    if j > 0 {
      TpNeverDecreases(s, steps, start, if i == j then j - 1 else i, j - 1);
      NextKeepsTp(At(s, steps, j - 1), steps[j - 1]);
    }
  }

  /** Over every interleaving of expiries and received packets, two reports are at least
      2.5/1.21828 apart, and the first comes at least half of that after tp. */
  lemma ReportsAreSpaced(s: State, steps: seq<Step>, start: real, i: nat, j: nat)
    requires WellFormed(s) && Timed(steps, start) && s.tp <= start
    requires j < |steps| && ReportsAt(s, steps, j)
    ensures steps[j].time - s.tp >= 1.25 / 1.21828
    ensures i < j && ReportsAt(s, steps, i) ==> steps[j].time - steps[i].time >= 2.5 / 1.21828
  {
    var t, e := At(s, steps, j), steps[j];
    IntervalBounds(t.members, t.senders, e.bandwidth, e.weSent, t.averageSize, t.initial, e.draw);
    TpNeverDecreases(s, steps, start, 0, j);
    if i < j && ReportsAt(s, steps, i) {
      TpNeverDecreases(s, steps, start, i + 1, j);
    }
  }

  // ---- what an expiry leaves ----

  /** A sixteenth of the way from the old average to the size of the packet. */
  predicate Averaged(before: real, after: real, size: nat) {
    16.0 * (after - before) == size as real - before
  }

  /** t lies within the range from which an interval is drawn. */
  predicate InRange(s: State, e: Step, averageSize: real, t: real)
    requires e.Expire? && e.bandwidth > 0.0
  {
    var d := Deterministic(s.members, s.senders, e.bandwidth, e.weSent, averageSize, s.initial);
    0.5 * d / 1.21828 <= t < 1.5 * d / 1.21828
  }

  ghost predicate SameGroup(s: State, t: State) {
    && t.members == s.members && t.senders == s.senders
    && t.memberTable == s.memberTable && t.senderTable == s.senderTable
  }

  /** What is pending is sent exactly if the interval drawn since tp is over. */
  lemma SentIffDue(s: State, e: Step)
    requires e.Expire? && Admissible(e)
    ensures var a := AfterExpire(s, e).1;
            && (a == SentReport <==> e.event == ReportEvent && s.tp + Draw(s, e, e.draw) <= e.time)
            && (a == SentBye <==> e.event == ByeEvent && s.tp + Draw(s, e, e.draw) <= e.time)
  {
  }

  /** A report, once sent, is noted with its time and size, and the next one is scheduled within the range
      of the interval from then on, by the new average. */
  lemma ReportReschedules(s: State, e: Step)
    requires e.Expire? && Admissible(e) && AfterExpire(s, e).1 == SentReport
    ensures var t := AfterExpire(s, e).0;
            && t.tp == e.time && !t.initial && t.pmembers == s.members && SameGroup(s, t)
            && Averaged(s.averageSize, t.averageSize, e.sentSize)
            && InRange(s, e, t.averageSize, t.tn - e.time)
  {
    var average := Average(e.sentSize, s.averageSize);
    IntervalBounds(s.members, s.senders, e.bandwidth, e.weSent, average, s.initial, e.redraw);
  }

  /** What is not due yet is put off to a later time, within the range of the interval from tp on. */
  lemma NotDueIsPutOff(s: State, e: Step)
    requires e.Expire? && Admissible(e) && e.event != UnknownEvent && AfterExpire(s, e).1 == Nothing
    ensures var t := AfterExpire(s, e).0;
            && t.tn > e.time && InRange(s, e, s.averageSize, t.tn - s.tp) && SameGroup(s, t)
            && t.tp == s.tp && t.averageSize == s.averageSize && t.initial == s.initial
            && t.pmembers == if e.event == ReportEvent then s.members else s.pmembers
  {
    IntervalBounds(s.members, s.senders, e.bandwidth, e.weSent, s.averageSize, s.initial, e.draw);
  }

  /** Nothing changes where a BYE is sent, or the event is neither. */
  lemma NothingElse(s: State, e: Step)
    requires e.Expire? && Admissible(e)
    requires e.event == UnknownEvent || AfterExpire(s, e).1 == SentBye
    ensures AfterExpire(s, e).0 == s
  {
  }

  // ---- the tables and their counts ----

  predicate ByeWhileLeaving(e: Step) {
    e.Receive? && e.event == ByeEvent && e.packet.kind == Bye
  }

  function ByesWhileLeaving(steps: seq<Step>, k: nat): nat
    requires k <= |steps|
  {
    if k == 0 then 0 else ByesWhileLeaving(steps, k - 1) + if ByeWhileLeaving(steps[k - 1]) then 1 else 0
  }

  /** How many members and senders are counted beyond those in the tables. */
  function Beyond(s: State): (int, int) {
    (s.members - |s.memberTable|, s.senders - |s.senderTable|)
  }

  lemma JoinedCounts(s: State, source: Ssrc)
    ensures Beyond(Joined(s, source)) == Beyond(s)
  {
  }

  lemma LeftCounts(s: State, source: Ssrc)
    ensures Beyond(Left(s, source)) == Beyond(s)
  {
  }

  lemma SenderCounts(s: State, source: Ssrc)
    requires source !in s.senderTable
    ensures |s.senderTable + {source}| == |s.senderTable| + 1
  {
  }

  lemma RtpCounts(s: State, e: Step)
    requires WellFormed(s) && e.Receive? && e.packet.kind == Rtp
    ensures Beyond(AfterReceive(s, e)) == Beyond(s)
  {
    var t := Joined(s, e.packet.source);
    JoinedCounts(s, e.packet.source);
    if e.packet.source !in t.senderTable {
      SenderCounts(t, e.packet.source);
    }
  }

  lemma ReconsideredCounts(s: State, now: real)
    requires WellFormed(s)
    ensures Beyond(Reconsidered(s, now)) == Beyond(s)
  {
  }

  lemma ByeNotedCounts(s: State, e: Step)
    requires WellFormed(s) && e.Receive?
    ensures Beyond(ByeNoted(s, e)) == Beyond(s)
  {
    LeftCounts(s.(averageSize := Average(e.packet.size, s.averageSize)), e.packet.source);
  }

  lemma ByeCounts(s: State, e: Step)
    requires WellFormed(s) && e.Receive? && e.packet.kind == Bye
    ensures Beyond(AfterReceive(s, e)) == (Beyond(s).0 + if ByeWhileLeaving(e) then 1 else 0, Beyond(s).1)
  {
    if e.event == ReportEvent {
      ByeNotedCounts(s, e);
      ReconsideredCounts(ByeNoted(s, e), e.time);
    }
  }

  lemma ReceiveCounts(s: State, e: Step)
    requires WellFormed(s) && e.Receive?
    ensures Beyond(AfterReceive(s, e)) == (Beyond(s).0 + if ByeWhileLeaving(e) then 1 else 0, Beyond(s).1)
  {
    match e.packet.kind {
      case Rtp => RtpCounts(s, e);
      case RtcpReport => JoinedCounts(s, e.packet.source);
      case Bye => ByeCounts(s, e);
      case OtherPacket =>
    }
  }

  lemma NextCounts(s: State, e: Step)
    requires WellFormed(s) && Admissible(e)
    ensures var t := Next(s, e);
            && t.senders - |t.senderTable| == s.senders - |s.senderTable|
            && t.members - |t.memberTable| == s.members - |s.memberTable| + if ByeWhileLeaving(e) then 1 else 0
  {
    if e.Receive? {
      ReceiveCounts(s, e);
    }
  }

  /** Over any run the senders counted are those in the table, and the members counted are those in the
      table and the BYEs that have come while a BYE was pending. */
  lemma {:induction false} CountsFollowTables(s: State, steps: seq<Step>, k: nat)
    requires WellFormed(s) && k <= |steps|
    requires forall i :: 0 <= i < |steps| ==> Admissible(steps[i])
    ensures var t := At(s, steps, k);
            && t.senders - |t.senderTable| == s.senders - |s.senderTable|
            && t.members - |t.memberTable| == s.members - |s.memberTable| + ByesWhileLeaving(steps, k)
  {
    if k > 0 {
      CountsFollowTables(s, steps, k - 1);
      NextCounts(At(s, steps, k - 1), steps[k - 1]);
    }
  }

  lemma LeftTables(s: State, source: Ssrc)
    ensures Left(s, source).memberTable == s.memberTable - {source}
    ensures Left(s, source).senderTable == s.senderTable - {source}
  {
  }

  lemma JoinedTables(s: State, source: Ssrc)
    ensures Joined(s, source).memberTable == s.memberTable + {source}
    ensures Joined(s, source).senderTable == s.senderTable
  {
  }

  /** While a report is pending, an RTP packet puts its source into both tables, a report into that of the
      members, and a BYE takes it out of both. Otherwise the tables stay. */
  lemma TablesFollowPackets(s: State, e: Step)
    requires WellFormed(s) && e.Receive?
    ensures var t, p, pending := AfterReceive(s, e), e.packet, e.event == ReportEvent;
            && t.memberTable == (if pending && p.kind in {Rtp, RtcpReport} then s.memberTable + {p.source}
                                 else if pending && p.kind == Bye then s.memberTable - {p.source}
                                 else s.memberTable)
            && t.senderTable == (if pending && p.kind == Rtp then s.senderTable + {p.source}
                                 else if pending && p.kind == Bye then s.senderTable - {p.source}
                                 else s.senderTable)
  {
    match e.packet.kind {
      case Rtp => JoinedTables(s, e.packet.source);
      case RtcpReport => JoinedTables(s, e.packet.source);
      case Bye => LeftTables(s.(averageSize := Average(e.packet.size, s.averageSize)), e.packet.source);
      case OtherPacket =>
    }
  }

  /** Reports and BYEs are averaged in, and nothing else is. */
  lemma AverageFollowsPackets(s: State, e: Step)
    requires WellFormed(s) && e.Receive?
    ensures var t := AfterReceive(s, e);
            && t.initial == s.initial
            && if e.packet.kind in {RtcpReport, Bye} then Averaged(s.averageSize, t.averageSize, e.packet.size)
               else t.averageSize == s.averageSize
  {
  }

  // ---- between expiries the pending interval shrinks with the group ----

  /** The two pending intervals stand in the ratio of the two member counts. */
  ghost predicate Proportional(d0: real, p0: real, d1: real, p1: real) {
    d1 * p0 == d0 * p1
  }

  ghost predicate InProportion(s: State, t: State) {
    Proportional(s.tn - s.tp, s.pmembers as real, t.tn - t.tp, t.pmembers as real)
  }

  lemma ScalesBy(f: real, p: real, m: real, now: real, tn: real, tp: real)
    requires f * p == m
    ensures Proportional(tn - tp, p, now + Scale(f, tn - now) - (now - Scale(f, now - tp)), m)
  {
    assert f * (tn - now) + f * (now - tp) == f * (tn - tp);
    assert f * (tn - tp) * p == (f * p) * (tn - tp);
  }

  lemma ReconsiderationScales(s: State, now: real)
    requires WellFormed(s)
    ensures InProportion(s, Reconsidered(s, now))
  {
    if s.members < s.pmembers {
      Ratio(s.members, s.pmembers);
      ScalesBy(s.members as real / s.pmembers as real, s.pmembers as real, s.members as real, now, s.tn, s.tp);
    }
  }

  /** When the group has shrunk, each end of the pending interval is scaled by itself. */
  lemma EachEndScales(s: State, now: real)
    requires WellFormed(s)
    ensures var t := Reconsidered(s, now);
            if s.members < s.pmembers then
              && t.pmembers == s.members
              && Proportional(s.tn - now, s.pmembers as real, t.tn - now, t.pmembers as real)
              && Proportional(now - s.tp, s.pmembers as real, now - t.tp, t.pmembers as real)
            else t == s
  {
    if s.members < s.pmembers {
      var f := s.members as real / s.pmembers as real;
      Ratio(s.members, s.pmembers);
      ScaleIsProportional(f, s.tn - now, s.pmembers as real);
      ScaleIsProportional(f, now - s.tp, s.pmembers as real);
    }
  }

  lemma ScaleIsProportional(f: real, x: real, p: real)
    ensures Scale(f, x) * p == x * (f * p)
  {
    assert f * x * p == x * (f * p);
  }

  lemma StaysProportional(s: State, t: State)
    requires t.tn == s.tn && t.tp == s.tp && t.pmembers == s.pmembers
    ensures InProportion(s, t)
  {
  }

  /** What one received packet can do to the pending interval. */
  ghost predicate Brought(s: State, t: State, now: real) {
    && InProportion(s, t)
    && (t.pmembers == s.pmembers ==> t.tn == s.tn && t.tp == s.tp)
    && (t.pmembers != s.pmembers ==> 0 <= t.pmembers < s.pmembers)
    && (now <= s.tn ==> now <= t.tn <= s.tn)
  }

  lemma ReconsiderationBrings(s: State, t: State, now: real)
    requires WellFormed(t) && t.tn == s.tn && t.tp == s.tp && t.pmembers == s.pmembers
    ensures Brought(s, Reconsidered(t, now), now)
  {
    ReconsiderationBounds(t, now);
    ReconsiderationScales(t, now);
  }

  lemma ReceiveBrings(s: State, e: Step)
    requires WellFormed(s) && e.Receive?
    ensures Brought(s, AfterReceive(s, e), e.time)
  {
    if e.packet.kind == Bye && e.event == ReportEvent {
      ReconsiderationBrings(s, ByeNoted(s, e), e.time);
    } else {
      StaysProportional(s, AfterReceive(s, e));
    }
  }

  lemma Cancel(x: real, y: real, p: real)
    requires p != 0.0 && x * p == y * p
    ensures x == y
  {
    assert (x - y) * p == 0.0;
  }

  lemma Chain(d0: real, p0: real, d1: real, p1: real, d2: real, p2: real)
    requires Proportional(d0, p0, d1, p1) && Proportional(d1, p1, d2, p2)
    requires p1 == 0.0 ==> d2 == d1 && p2 == p1
    ensures Proportional(d0, p0, d2, p2)
  {
    if p1 != 0.0 {
      assert (d2 * p0) * p1 == (d2 * p1) * p0;
      assert (d1 * p2) * p0 == (d1 * p0) * p2;
      assert (d0 * p1) * p2 == (d0 * p2) * p1;
      Cancel(d2 * p0, d0 * p2, p1);
    }
  }

  lemma BroughtAgain(s: State, t: State, u: State, now: real)
    requires InProportion(s, t) && Brought(t, u, now)
    ensures InProportion(s, u)
  {
    Chain(s.tn - s.tp, s.pmembers as real, t.tn - t.tp, t.pmembers as real, u.tn - u.tp, u.pmembers as real);
  }

  /** Over any run of received packets, whatever their times and sources, tn - tp stays proportional
      to pmembers. */
  lemma {:induction false} PendingIntervalScales(s: State, steps: seq<Step>, k: nat)
    requires WellFormed(s) && k <= |steps|
    requires forall i :: 0 <= i < |steps| ==> steps[i].Receive?
    ensures InProportion(s, At(s, steps, k))
  {
    if k == 0 {
      StaysProportional(s, s);
    } else {
      PendingIntervalScales(s, steps, k - 1);
      var t := At(s, steps, k - 1);
      ReceiveBrings(t, steps[k - 1]);
      BroughtAgain(s, t, At(s, steps, k), steps[k - 1].time);
    }
  }
}
