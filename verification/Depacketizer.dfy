// Reassembly of H.264 frames from RTP payloads (sections 5.6 and 5.8 of RFC 6184).

/** What the parser does to the frame under assembly, as a function of the packet. */
module Reassembly {
  import opened Bytes
  import opened Sequences

  const FU_A: int := 28
  const FU_B: int := 29

  function StartCode(): seq<Byte> {
    [0, 0, 0, 1]
  }

  /** The payload of an RTP packet, its marker bit and its timestamp. */
  datatype Packet = Packet(payload: seq<Byte>, marker: bool, timestamp: nat)

  /** The frame buffer, its timestamp (0 while unset), and whether it has been handed out. */
  datatype State = State(contents: seq<Byte>, timestamp: nat, completed: bool)

  function UnitType(payload: seq<Byte>): int
    requires payload != []
  {
    payload[0] % 32
  }

  predicate IsFragment(payload: seq<Byte>)
    requires payload != []
  {
    UnitType(payload) == FU_A || UnitType(payload) == FU_B
  }

  /** What the parser asserts of a payload; aggregation packets (types 24 to 27) are not modelled. */
  predicate Readable(payload: seq<Byte>) {
    && payload != []
    && !(24 <= UnitType(payload) <= 27)
    && (IsFragment(payload) ==> |payload| >= if |payload| > 1 && payload[1] >= 128 then 2 else 3)
  }

  /** The first fragment of a unit has its start bit set. */
  predicate Begins(payload: seq<Byte>)
    requires Readable(payload)
  {
    !IsFragment(payload) || payload[1] >= 128
  }

  /** The octets of the unit in a payload; the header of a fragmented unit is put together from two octets. */
  function UnitOctets(payload: seq<Byte>): seq<Byte>
    requires Readable(payload)
  {
    if !IsFragment(payload) then payload
    else if payload[1] >= 128 then [Header(payload[0], payload[1])] + payload[2..]
    else payload[2..]
  }

  /** The payload once it has been parsed: the header of the unit replaces that of its first fragment. */
  function Rewritten(payload: seq<Byte>): (r: seq<Byte>)
    requires Readable(payload)
    ensures |r| == |payload|
    ensures Begins(payload) && IsFragment(payload) ==> r[1..] == UnitOctets(payload) && r[0] == payload[0]
  {
    if Begins(payload) && IsFragment(payload) then payload[1 := Header(payload[0], payload[1])] else payload
  }

  function Header(indicator: Byte, header: Byte): Byte {
    indicator - indicator % 32 + header % 32
  }

  /** Appending to a buffer of limited size: all or nothing. */
  function Append(capacity: nat, contents: seq<Byte>, data: seq<Byte>): seq<Byte> {
    if |contents| + |data| > capacity then contents else contents + data
  }

  function Opened(s: State): State {
    if s.completed then State([], 0, false) else s
  }

  function After(capacity: nat, s: State, p: Packet): State
    requires Readable(p.payload)
  {
    Stored(capacity, Opened(s), Begins(p.payload), UnitOctets(p.payload), p.marker, p.timestamp)
  }

  function Stored(capacity: nat, s: State, begin: bool, data: seq<Byte>, marker: bool, timestamp: nat): State {
    var begun := if begin then Append(capacity, s.contents, StartCode()) else s.contents;
    State(Append(capacity, begun, data), if s.timestamp == 0 then timestamp else s.timestamp, marker)
  }

  // ---- runs ----

  datatype Output = Incomplete | Frame(contents: seq<Byte>, timestamp: nat)

  predicate AllReadable(packets: seq<Packet>) {
    forall i :: 0 <= i < |packets| ==> Readable(packets[i].payload)
  }

  function Run(capacity: nat, s: State, packets: seq<Packet>): State
    requires AllReadable(packets)
    decreases |packets|
  {
    if packets == [] then s else Run(capacity, After(capacity, s, packets[0]), packets[1..])
  }

  /** What each call of Parse hands out. */
  function Outputs(capacity: nat, s: State, packets: seq<Packet>): (r: seq<Output>)
    requires AllReadable(packets)
    ensures |r| == |packets|
    decreases |packets|
  {
    if packets == [] then []
    else
      var t := After(capacity, s, packets[0]);
      [if t.completed then Frame(t.contents, t.timestamp) else Incomplete] + Outputs(capacity, t, packets[1..])
  }

  // ---- packetisation ----

  /** How one NAL unit travels: in a packet of its own, or split into pieces of what follows its header. */
  datatype Unit = Single(nal: seq<Byte>) | Split(header: Byte, pieces: seq<seq<Byte>>)

  datatype Picture = Picture(units: seq<Unit>, timestamp: nat)

  function Joined(pieces: seq<seq<Byte>>): seq<Byte> {
    if pieces == [] then [] else pieces[0] + Joined(pieces[1..])
  }

  function Nal(u: Unit): seq<Byte> {
    match u
    case Single(nal) => nal
    case Split(header, pieces) => [header] + Joined(pieces)
  }

  predicate ValidHeader(header: Byte) {
    1 <= header % 32 <= 23
  }

  predicate NonEmpty(pieces: seq<seq<Byte>>) {
    forall i :: 0 <= i < |pieces| ==> pieces[i] != []
  }

  predicate ValidUnit(u: Unit) {
    match u
    case Single(nal) => nal != [] && ValidHeader(nal[0])
    case Split(header, pieces) => ValidHeader(header) && pieces != [] && NonEmpty(pieces)
  }

  predicate ValidUnits(units: seq<Unit>) {
    forall i :: 0 <= i < |units| ==> ValidUnit(units[i])
  }

  predicate ValidPictures(pictures: seq<Picture>) {
    forall i :: 0 <= i < |pictures| ==> ValidPicture(pictures[i])
  }

  predicate ValidPicture(picture: Picture) {
    picture.units != [] && ValidUnits(picture.units)
  }

  function FragmentPayload(header: Byte, piece: seq<Byte>, first: bool, last: bool): seq<Byte> {
    var indicator: Byte := header - header % 32 + 28;
    var fu: Byte := header % 32 + (if first then 128 else 0) + (if last then 64 else 0);
    [indicator, fu] + piece
  }

  function Fragments(header: Byte, pieces: seq<seq<Byte>>, first: bool, marker: bool, timestamp: nat): seq<Packet> {
    if pieces == [] then []
    else
      var last := |pieces| == 1;
      [Packet(FragmentPayload(header, pieces[0], first, last), marker && last, timestamp)] +
      Fragments(header, pieces[1..], false, marker, timestamp)
  }

  /** The packets of one unit; `marker` is set on the last of them. */
  function UnitPackets(u: Unit, marker: bool, timestamp: nat): seq<Packet> {
    match u
    case Single(nal) => [Packet(nal, marker, timestamp)]
    case Split(header, pieces) => Fragments(header, pieces, true, marker, timestamp)
  }

  function UnitsPackets(units: seq<Unit>, timestamp: nat): seq<Packet> {
    if units == [] then []
    else UnitPackets(units[0], |units| == 1, timestamp) + UnitsPackets(units[1..], timestamp)
  }

  function PicturesPackets(pictures: seq<Picture>): seq<Packet> {
    if pictures == [] then []
    else UnitsPackets(pictures[0].units, pictures[0].timestamp) + PicturesPackets(pictures[1..])
  }

  /** The byte stream of a picture: each unit behind a start code. */
  function ByteStream(units: seq<Unit>): seq<Byte> {
    if units == [] then [] else [0, 0, 0, 1] + Nal(units[0]) + ByteStream(units[1..])
  }

  predicate Fits(capacity: nat, pictures: seq<Picture>) {
    forall i :: 0 <= i < |pictures| ==> |ByteStream(pictures[i].units)| <= capacity
  }

  function Waiting(n: nat): (r: seq<Output>)
    ensures |r| == n
  {
    seq(n, _ => Incomplete)
  }

  /** A picture is handed out with its last packet, and nothing before. */
  function Expected(pictures: seq<Picture>): seq<Output> {
    if pictures == [] then []
    else
      var n := |UnitsPackets(pictures[0].units, pictures[0].timestamp)|;
      Waiting(if n == 0 then 0 else n - 1) +
      [Frame(ByteStream(pictures[0].units), pictures[0].timestamp)] +
      Expected(pictures[1..])
  }

  // ---- readability and markers of the packets ----

  /** Readable packets, only the last of which has the marker, and only if `marker` says so. */
  predicate Bundle(packets: seq<Packet>, marker: bool, timestamp: nat) {
    && packets != [] && AllReadable(packets)
    && forall i :: 0 <= i < |packets| ==>
         packets[i].timestamp == timestamp && packets[i].marker == (marker && i == |packets| - 1)
  }

  lemma FragmentReadable(header: Byte, piece: seq<Byte>, first: bool, last: bool)
    requires ValidHeader(header) && piece != []
    ensures var payload := FragmentPayload(header, piece, first, last);
            && Readable(payload) && Begins(payload) == first
            && UnitOctets(payload) == if first then [header] + piece else piece
  {
    var payload := FragmentPayload(header, piece, first, last);
    assert payload[0] % 32 == FU_A && payload[0] - payload[0] % 32 == header - header % 32;
    assert payload[1] % 32 == header % 32 && (payload[1] >= 128 <==> first);
    assert payload[2..] == piece;
  }

  /** Any payload but a fragment or an aggregation is a unit. */
  lemma WholeUnit(payload: seq<Byte>)
    requires Readable(payload) && payload[0] % 32 != 28 && payload[0] % 32 != 29
    ensures Begins(payload) && UnitOctets(payload) == payload
  {
  }

  /** Fragments of both types begin with the start bit, and then the unit has the upper three bits of the
      first octet and the lower five of the second. */
  lemma FragmentOfUnit(payload: seq<Byte>)
    requires Readable(payload) && payload[0] % 32 in {28, 29}
    ensures Begins(payload) <==> payload[1] as nat / 128 == 1
    ensures UnitOctets(payload) ==
            (if Begins(payload) then [payload[0] / 32 * 32 + payload[1] % 32] else []) + payload[2..]
  {
  }

  lemma {:induction false} FragmentsBundle(header: Byte, pieces: seq<seq<Byte>>, first: bool, marker: bool,
                                           timestamp: nat)
    requires ValidHeader(header) && pieces != [] && NonEmpty(pieces)
    ensures Bundle(Fragments(header, pieces, first, marker, timestamp), marker, timestamp)
  {
    FragmentReadable(header, pieces[0], first, |pieces| == 1);
    if |pieces| > 1 {
      FragmentsBundle(header, pieces[1..], false, marker, timestamp);
    } else {
      assert Fragments(header, pieces[1..], false, marker, timestamp) == [];
    }
  }

  lemma UnitBundle(u: Unit, marker: bool, timestamp: nat)
    requires ValidUnit(u)
    ensures Bundle(UnitPackets(u, marker, timestamp), marker, timestamp)
  {
    if u.Split? {
      FragmentsBundle(u.header, u.pieces, true, marker, timestamp);
    }
  }

  lemma JoinBundles(a: seq<Packet>, b: seq<Packet>, timestamp: nat)
    requires Bundle(a, false, timestamp) && Bundle(b, true, timestamp)
    ensures Bundle(a + b, true, timestamp)
  {
  }

  lemma {:induction false} UnitsBundle(units: seq<Unit>, timestamp: nat)
    requires units != [] && ValidUnits(units)
    ensures Bundle(UnitsPackets(units, timestamp), true, timestamp)
  {
    UnitBundle(units[0], |units| == 1, timestamp);
    if |units| > 1 {
      UnitsBundle(units[1..], timestamp);
      JoinBundles(UnitPackets(units[0], false, timestamp), UnitsPackets(units[1..], timestamp), timestamp);
    } else {
      assert UnitsPackets(units, timestamp) == UnitPackets(units[0], true, timestamp);
    }
  }

  lemma {:induction false} PicturesReadable(pictures: seq<Picture>)
    requires ValidPictures(pictures)
    ensures AllReadable(PicturesPackets(pictures))
  {
    if pictures != [] {
      UnitsBundle(pictures[0].units, pictures[0].timestamp);
      PicturesReadable(pictures[1..]);
    }
  }

  // ---- running over the packets of one unit, one picture, all pictures ----

  lemma {:induction false} OutputsOn(capacity: nat, s: State, a: seq<Packet>, b: seq<Packet>)
    requires AllReadable(a) && AllReadable(b)
    ensures Outputs(capacity, s, a + b) == Outputs(capacity, s, a) + Outputs(capacity, Run(capacity, s, a), b)
    decreases |a|
  {
    if a == [] {
      assert a + b == b;
    } else {
      assert (a + b)[1..] == a[1..] + b;
      OutputsOn(capacity, After(capacity, s, a[0]), a[1..], b);
    }
  }

  lemma {:induction false} RunOn(capacity: nat, s: State, a: seq<Packet>, b: seq<Packet>)
    requires AllReadable(a) && AllReadable(b)
    ensures Run(capacity, s, a + b) == Run(capacity, Run(capacity, s, a), b)
    decreases |a|
  {
    if a == [] {
      assert a + b == b;
    } else {
      assert (a + b)[1..] == a[1..] + b;
      RunOn(capacity, After(capacity, s, a[0]), a[1..], b);
    }
  }

  /** An open frame with this timestamp, or none so far. */
  predicate Open(s: State, timestamp: nat) {
    !s.completed && (s.timestamp == timestamp || s.timestamp == 0)
  }

  lemma AfterFragment(capacity: nat, s: State, header: Byte, piece: seq<Byte>, first: bool, last: bool,
                      marker: bool, timestamp: nat)
    requires ValidHeader(header) && piece != [] && Open(s, timestamp)
    requires |s.contents| + (if first then 5 else 0) + |piece| <= capacity
    ensures Readable(FragmentPayload(header, piece, first, last))
    ensures After(capacity, s, Packet(FragmentPayload(header, piece, first, last), marker, timestamp)) ==
            State(s.contents + Lead(header, first) + piece, timestamp, marker)
  {
    FragmentReadable(header, piece, first, last);
    if first {
      assert s.contents + StartCode() + ([header] + piece) == s.contents + Lead(header, first) + piece;
    } else {
      assert s.contents + Lead(header, first) + piece == s.contents + piece;
    }
  }

  /** What goes before the first piece of a unit. */
  function Lead(header: Byte, first: bool): seq<Byte> {
    if first then StartCode() + [header] else []
  }

  lemma {:induction false} RunFragments(capacity: nat, s: State, header: Byte, pieces: seq<seq<Byte>>, first: bool,
                                       marker: bool, timestamp: nat)
    requires ValidHeader(header) && pieces != [] && NonEmpty(pieces) && Open(s, timestamp)
    requires |s.contents| + (if first then 5 else 0) + |Joined(pieces)| <= capacity
    ensures AllReadable(Fragments(header, pieces, first, marker, timestamp))
    ensures Run(capacity, s, Fragments(header, pieces, first, marker, timestamp)) ==
            State(s.contents + Lead(header, first) + Joined(pieces), timestamp, marker)
    decreases |pieces|
  {
    FragmentsBundle(header, pieces, first, marker, timestamp);
    JoinedFirst(s.contents + Lead(header, first), pieces);
    var last := |pieces| == 1;
    AfterFragment(capacity, s, header, pieces[0], first, last, marker && last, timestamp);
    if |pieces| > 1 {
      var begun := s.contents + Lead(header, first) + pieces[0];
      NoLead(begun, header);
      RunFragments(capacity, State(begun, timestamp, false), header, pieces[1..], false, marker, timestamp);
    } else {
      RunOne(capacity, s, Packet(FragmentPayload(header, pieces[0], first, last), marker, timestamp));
      assert Fragments(header, pieces[1..], false, marker, timestamp) == [];
    }
  }

  lemma JoinedFirst(contents: seq<Byte>, pieces: seq<seq<Byte>>)
    requires pieces != []
    ensures contents + pieces[0] + Joined(pieces[1..]) == contents + Joined(pieces)
    ensures |pieces| == 1 ==> contents + pieces[0] == contents + Joined(pieces)
    ensures |Joined(pieces)| == |pieces[0]| + |Joined(pieces[1..])|
  {
    assert contents + pieces[0] + Joined(pieces[1..]) == contents + (pieces[0] + Joined(pieces[1..]));
  }

  lemma NoLead(contents: seq<Byte>, header: Byte)
    ensures contents + Lead(header, false) == contents
  {
  }

  lemma RunOne(capacity: nat, s: State, p: Packet)
    requires Readable(p.payload)
    ensures Run(capacity, s, [p]) == After(capacity, s, p)
  {
    assert [p][1..] == [];
  }

  lemma AfterSingle(capacity: nat, s: State, nal: seq<Byte>, marker: bool, timestamp: nat)
    requires nal != [] && ValidHeader(nal[0]) && Open(s, timestamp) && |s.contents| + 4 + |nal| <= capacity
    ensures After(capacity, s, Packet(nal, marker, timestamp)) ==
            State(s.contents + StartCode() + nal, timestamp, marker)
  {
  }

  lemma RunUnit(capacity: nat, s: State, u: Unit, marker: bool, timestamp: nat)
    requires ValidUnit(u) && Open(s, timestamp)
    requires |s.contents| + 4 + |Nal(u)| <= capacity
    ensures AllReadable(UnitPackets(u, marker, timestamp))
    ensures Run(capacity, s, UnitPackets(u, marker, timestamp)) ==
            State(s.contents + StartCode() + Nal(u), timestamp, marker)
  {
    UnitBundle(u, marker, timestamp);
    match u {
      case Single(nal) =>
        AfterSingle(capacity, s, nal, marker, timestamp);
        RunOne(capacity, s, Packet(nal, marker, timestamp));
      case Split(header, pieces) =>
        RunFragments(capacity, s, header, pieces, true, marker, timestamp);
        Regroup(s.contents, StartCode(), [header]);
        Regroup(s.contents + StartCode(), [header], Joined(pieces));
    }
  }

  lemma StreamFirst(contents: seq<Byte>, units: seq<Unit>)
    requires units != []
    ensures contents + StartCode() + Nal(units[0]) + ByteStream(units[1..]) == contents + ByteStream(units)
    ensures |units| == 1 ==> contents + StartCode() + Nal(units[0]) == contents + ByteStream(units)
    ensures |ByteStream(units)| == 4 + |Nal(units[0])| + |ByteStream(units[1..])|
  {
    assert contents + StartCode() + Nal(units[0]) + ByteStream(units[1..]) ==
           contents + (StartCode() + Nal(units[0]) + ByteStream(units[1..]));
  }

  lemma PacketsFirst(units: seq<Unit>, timestamp: nat)
    requires units != []
    ensures UnitsPackets(units, timestamp) ==
            UnitPackets(units[0], |units| == 1, timestamp) + UnitsPackets(units[1..], timestamp)
    ensures |units| == 1 ==> UnitsPackets(units, timestamp) == UnitPackets(units[0], true, timestamp)
  {
  }

  lemma {:induction false} RunUnits(capacity: nat, s: State, units: seq<Unit>, timestamp: nat)
    requires units != [] && ValidUnits(units) && Open(s, timestamp)
    requires |s.contents| + |ByteStream(units)| <= capacity
    ensures AllReadable(UnitsPackets(units, timestamp))
    ensures Run(capacity, s, UnitsPackets(units, timestamp)) ==
            State(s.contents + ByteStream(units), timestamp, true)
    decreases |units|
  {
    UnitsBundle(units, timestamp);
    StreamFirst(s.contents, units);
    PacketsFirst(units, timestamp);
    RunUnit(capacity, s, units[0], |units| == 1, timestamp);
    if |units| > 1 {
      var begun := s.contents + StartCode() + Nal(units[0]);
      RunUnits(capacity, State(begun, timestamp, false), units[1..], timestamp);
      RunOn(capacity, s, UnitPackets(units[0], false, timestamp), UnitsPackets(units[1..], timestamp));
    }
  }

  // ---- what is handed out ----

  lemma {:induction false} OutputsOfBundle(capacity: nat, s: State, packets: seq<Packet>, timestamp: nat)
    requires Bundle(packets, true, timestamp)
    ensures var t := Run(capacity, s, packets);
            && t.completed
            && Outputs(capacity, s, packets) == Waiting(|packets| - 1) + [Frame(t.contents, t.timestamp)]
            && (|s.contents| <= capacity ==> |t.contents| <= capacity)
    decreases |packets|
  {
    var t := After(capacity, s, packets[0]);
    if |packets| > 1 {
      OutputsOfBundle(capacity, t, packets[1..], timestamp);
      assert [Incomplete] + Waiting(|packets| - 2) == Waiting(|packets| - 1);
    } else {
      assert packets == [packets[0]];
      RunOne(capacity, s, packets[0]);
      assert Outputs(capacity, t, packets[1..]) == [];
    }
  }

  /** Between pictures the parser is new or has just handed one out. */
  predicate Between(capacity: nat, s: State) {
    |s.contents| <= capacity && (s.completed || (s.contents == [] && s.timestamp == 0))
  }

  /** A picture comes out whole if and only if its byte stream fits the buffer. */
  lemma RunPicture(capacity: nat, s: State, picture: Picture)
    requires ValidPicture(picture) && Between(capacity, s)
    ensures Bundle(UnitsPackets(picture.units, picture.timestamp), true, picture.timestamp)
    ensures var t := Run(capacity, s, UnitsPackets(picture.units, picture.timestamp));
            && Between(capacity, t) && t.completed
            && ((t.contents == ByteStream(picture.units) && t.timestamp == picture.timestamp) <==>
                |ByteStream(picture.units)| <= capacity)
  {
    var packets := UnitsPackets(picture.units, picture.timestamp);
    UnitsBundle(picture.units, picture.timestamp);
    OutputsOfBundle(capacity, s, packets, picture.timestamp);
    if |ByteStream(picture.units)| <= capacity {
      RunFromOpened(capacity, s, packets);
      RunUnits(capacity, Opened(s), picture.units, picture.timestamp);
      assert [] + ByteStream(picture.units) == ByteStream(picture.units);
    }
  }

  lemma RunFromOpened(capacity: nat, s: State, packets: seq<Packet>)
    requires AllReadable(packets) && packets != []
    ensures Run(capacity, s, packets) == Run(capacity, Opened(s), packets)
  {
  }

  lemma SameHead<T>(a: seq<T>, x: T, b: seq<T>, y: T, c: seq<T>)
    ensures a + [x] + b == a + [y] + c <==> x == y && b == c
  {
    assert (a + [x] + b)[|a|] == x && (a + [y] + c)[|a|] == y;
    assert (a + [x] + b)[|a| + 1..] == b && (a + [y] + c)[|a| + 1..] == c;
  }

  ghost predicate Inverts(capacity: nat, s: State, pictures: seq<Picture>)
    requires AllReadable(PicturesPackets(pictures))
  {
    Outputs(capacity, s, PicturesPackets(pictures)) == Expected(pictures) <==> Fits(capacity, pictures)
  }

  lemma InvertsFirst(capacity: nat, s: State, pictures: seq<Picture>, t: State)
    requires pictures != [] && ValidPicture(pictures[0]) && Between(capacity, s)
    requires AllReadable(UnitsPackets(pictures[0].units, pictures[0].timestamp))
    requires AllReadable(PicturesPackets(pictures)) && AllReadable(PicturesPackets(pictures[1..]))
    requires t == Run(capacity, s, UnitsPackets(pictures[0].units, pictures[0].timestamp))
    requires Inverts(capacity, t, pictures[1..])
    ensures Inverts(capacity, s, pictures)
  {
    var picture, rest := pictures[0], PicturesPackets(pictures[1..]);
    var first := UnitsPackets(picture.units, picture.timestamp);
    RunPicture(capacity, s, picture);
    OutputsOfBundle(capacity, s, first, picture.timestamp);
    OutputsOn(capacity, s, first, rest);
    SameHead(Waiting(|first| - 1), Frame(t.contents, t.timestamp), Outputs(capacity, t, rest),
             Frame(ByteStream(picture.units), picture.timestamp), Expected(pictures[1..]));
    FitsFirst(capacity, pictures);
  }

  /** Reassembly undoes packetisation: whatever way the units of a sequence of pictures are sent, each
      call with a marker, and no other, hands out the byte stream of its picture with the picture's
      timestamp - if and only if every byte stream fits the buffer. */
  lemma {:induction false} ReassemblyInvertsPacketisation(capacity: nat, s: State, pictures: seq<Picture>)
    requires ValidPictures(pictures) && Between(capacity, s)
    ensures AllReadable(PicturesPackets(pictures))
    ensures Outputs(capacity, s, PicturesPackets(pictures)) == Expected(pictures) <==> Fits(capacity, pictures)
    decreases |pictures|
  {
    PicturesReadable(pictures);
    if pictures != [] {
      RunPicture(capacity, s, pictures[0]);
      var t := Run(capacity, s, UnitsPackets(pictures[0].units, pictures[0].timestamp));
      ReassemblyInvertsPacketisation(capacity, t, pictures[1..]);
      InvertsFirst(capacity, s, pictures, t);
    }
  }

  lemma FitsFirst(capacity: nat, pictures: seq<Picture>)
    requires pictures != []
    ensures Fits(capacity, pictures) <==>
            |ByteStream(pictures[0].units)| <= capacity && Fits(capacity, pictures[1..])
  {
    if |ByteStream(pictures[0].units)| <= capacity && Fits(capacity, pictures[1..]) {
      forall i | 0 <= i < |pictures|
        ensures |ByteStream(pictures[i].units)| <= capacity
      {
        assert i > 0 ==> pictures[i] == pictures[1..][i - 1];
      }
    }
    if Fits(capacity, pictures) {
      forall i | 0 <= i < |pictures[1..]|
        ensures |ByteStream(pictures[1..][i].units)| <= capacity
      {
        assert pictures[1..][i] == pictures[i + 1];
      }
    }
  }
}

/** The parser and its frame buffer, updated in place. */
module Depacketizer {
  import opened Bytes
  import opened Reassembly

  class H264Frame {
    const buffer: array<Byte>
    var position: nat
    var timestamp: nat

    ghost predicate Valid()
      reads this
    {
      position <= buffer.Length
    }

    ghost function Contents(): seq<Byte>
      requires Valid()
      reads this, buffer
    {
      buffer[..position]
    }

    constructor (size: nat)
      ensures Valid() && fresh(buffer) && buffer.Length == size && Contents() == [] && timestamp == 0
    {
      buffer := new Byte[size](_ => 0);
      position, timestamp := 0, 0;
    }

    method AddNalStartCode() returns (added: bool)
      requires Valid()
      modifies this`position, buffer
      ensures Valid() && Contents() == Append(buffer.Length, old(Contents()), StartCode())
      ensures Contents() == old(Contents()) + if added then [0, 0, 0, 1] else []
      ensures added == (|old(Contents())| + 4 <= buffer.Length)
    {
      if position + 4 > buffer.Length {
        return false;
      }
      Copy(StartCode());
      return true;
    }

    /** Without room nothing is copied; a build with assertions stops. */
    method FillData(data: seq<Byte>) returns (size: nat)
      requires Valid()
      modifies this`position, buffer
      ensures Valid() && Contents() == Append(buffer.Length, old(Contents()), data)
      ensures Contents() == old(Contents()) + if |old(Contents())| + |data| > buffer.Length then [] else data
      ensures size == if |old(Contents())| + |data| > buffer.Length then 0 else |data|
    {
      if position + |data| > buffer.Length {
        return 0;
      }
      Copy(data);
      return |data|;
    }

    method Copy(data: seq<Byte>)
      requires Valid() && position + |data| <= buffer.Length
      modifies this`position, buffer
      ensures Valid() && Contents() == old(Contents()) + data
    {
      forall k | 0 <= k < |data| {
        buffer[position + k] := data[k];
      }
      position := position + |data|;
    }

    method Reset()
      requires Valid()
      modifies this`position, this`timestamp
      ensures Valid() && Contents() == [] && timestamp == 0
    {
      position := 0;
      timestamp := 0;
    }
  }

  class RtpParser {
    const frame: H264Frame
    var frameCompleted: bool

    ghost predicate Valid()
      reads this, frame
    {
      frame.Valid()
    }

    ghost function View(): State
      requires Valid()
      reads this, frame, frame.buffer
    {
      State(frame.Contents(), frame.timestamp, frameCompleted)
    }

    constructor (size: nat)
      ensures Valid() && View() == State([], 0, false)
      ensures fresh(frame) && fresh(frame.buffer) && frame.buffer.Length == size
    {
      frame := new H264Frame(size);
      frameCompleted := false;
    }

    /** A frame that has been handed out makes room for the next one. */
    method Open()
      requires Valid()
      modifies this`frameCompleted, frame`position, frame`timestamp
      ensures Valid() && View() == Opened(old(View()))
    {
      if frameCompleted {
        frame.Reset();
        frameCompleted := false;
      }
    }

    method Store(begin: bool, data: seq<Byte>, marker: bool, timestamp: nat) returns (complete: bool)
      requires Valid() && !frameCompleted
      modifies this`frameCompleted, frame, frame.buffer
      ensures Valid() && complete == marker
      ensures View() == Stored(frame.buffer.Length, old(View()), begin, data, marker, timestamp)
    {
      if begin {
        var added := frame.AddNalStartCode();
      }
      var size := frame.FillData(data);
      if frame.timestamp == 0 {
        frame.timestamp := timestamp;
      }
      if marker {
        frameCompleted := true;
        return true;
      }
      return false;
    }

    /** Where the octets of the unit begin, and whether they are its first. */
    method Unwrap(payload: array<Byte>) returns (begin: bool, skip: nat)
      requires Readable(payload[..])
      modifies payload
      ensures begin == Begins(old(payload[..]))
      ensures skip <= payload.Length && payload[skip..] == UnitOctets(old(payload[..]))
      ensures payload[..] == Rewritten(old(payload[..]))
    {
      ghost var octets := payload[..];
      var unitType := payload[0] % 32;
      begin, skip := true, 0;
      if unitType == FU_A || unitType == FU_B {
        if payload[1] >= 128 {
          skip := 1;
          payload[1] := Header(payload[0], payload[1]);
        } else {
          skip := 2;
          begin := false;
        }
      }
      assert payload[skip..] == UnitOctets(octets);
    }

    /** Returns whether a frame is complete. The header of a fragmented unit is put together inside the
        payload itself. */
    method Parse(payload: array<Byte>, marker: bool, timestamp: nat) returns (complete: bool)
      requires Valid() && Readable(payload[..]) && payload != frame.buffer
      modifies this, frame, frame.buffer, payload
      ensures Valid() && complete == marker
      ensures View() == After(frame.buffer.Length, old(View()), Packet(old(payload[..]), marker, timestamp))
      ensures frame.timestamp ==
              if old(frameCompleted) || old(frame.timestamp) == 0 then timestamp else old(frame.timestamp)
      ensures payload[..] == Rewritten(old(payload[..]))
    {
      Open();
      var begin, skip := Unwrap(payload);
      complete := Store(begin, payload[skip..], marker, timestamp);
    }
  }
}
