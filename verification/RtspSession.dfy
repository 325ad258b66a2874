// The RTSP client session: OPTIONS, DESCRIBE, one SETUP a track, PLAY, driven by whatever a server answers.

/** The session as a function of the replies, and what every run of it keeps. */
module RtspScript {
  import opened Optional

  datatype Verb = Invalid | Options | Describe | Setup | Play

  /** A request as it is written to the connection; `track` matters for SETUP only. */
  datatype Request = Request(verb: Verb, cseq: int, track: nat, session: Option<string>)

  /** A message from the server: any mixture of header fields, present or not. `tracks` says of each
      medium in the session description whether it has a control attribute, if there is a body and it can
      be parsed. */
  datatype Reply = Reply(isResponse: bool, parsed: bool, status: int, cseq: Option<int>, methods: seq<string>,
                         session: Option<string>, tracks: Option<seq<bool>>, contentBase: bool)

  /** What may go wrong on this side. */
  datatype Local = Local(
    memory: bool,        // there is an object for the request
    mediaKept: bool,     // there is one for the media, with its content base
    urlFits: bool,       // the address of the request fits its buffer
    initialised: bool,   // the request takes its address
    mediaSession: bool,  // ports and sessions for RTP and RTCP
    headersAdded: bool,  // the request takes its header fields
    endFits: bool,       // if its headers fit the text of 1500 octets, so does the empty line behind them
    written: bool,       // its headers fit that text, and it is written
    copied: bool,        // there is memory for the session identifier
    readStarted: bool)   // the next read is started

  /** What ends the program when it is built with assertions. */
  datatype Fault =
    | StateWrong        // an assertion about the state of the session
    | NoControl         // the medium has no control attribute
    | NoIdentifier      // the copy of the session identifier is NULL and is read all the same
    | RequestNotFilled  // SETUP and PLAY assert that the request takes its address
    | HeaderNotAdded
    | NoRoomForEnd      // one or two octets are left for the empty line, which takes three
    | ReadNotStarted

  datatype Media = Media(requestTrack: nat, controls: seq<bool>)

  /** What passes over the connection: requests, and replies with status 200 and the CSeq expected. */
  datatype Event = Sent(request: Request) | Answered(cseq: int)

  /** `reading` says whether a read is pending: a read delivers one message and has to be started again. */
  datatype State = State(
    methodPrevious: Verb, cseqPrevious: int, media: Option<Media>, ready: bool, sessionId: Option<string>,
    reading: bool, fault: Option<Fault>, log: seq<Event>)

  const NEW: State := State(Invalid, 0, None, false, None, false, None, [])

  function Lower(c: char): char {
    if 'A' <= c <= 'Z' then c - 'A' + 'a' else c
  }

  predicate EqualIgnoringCase(a: string, b: string) {
    |a| == |b| && forall i :: 0 <= i < |a| ==> Lower(a[i]) == Lower(b[i])
  }

  predicate OffersDescribe(methods: seq<string>) {
    exists i :: 0 <= i < |methods| && EqualIgnoringCase(methods[i], "describe")
  }

  function Leading(s: string, c: char): (n: nat)
    ensures n <= |s|
  {
    if s != "" && s[0] == c then 1 + Leading(s[1..], c) else 0
  }

  function Until(s: string, c: char): (n: nat)
    ensures n <= |s|
  {
    if s == "" || s[0] == c then 0 else 1 + Until(s[1..], c)
  }

  /** strtok at ";": leading separators are skipped, the string ends before the next one. */
  function SessionIdOf(header: string): string {
    var skip := Leading(header, ';');
    header[..skip + Until(header[skip..], ';')]
  }

  // ---- requests ----

  function Fail(s: State, fault: Fault): (State, bool) {
    (s.(fault := Some(fault)), false)
  }

  function Write(s: State, request: Request, local: Local): (State, bool) {
    if !local.endFits then Fail(s, NoRoomForEnd)
    else if !local.written then (s, false)
    else (s.(methodPrevious := request.verb, log := s.log + [Sent(request)]), true)
  }

  function SendDescribe(s: State, local: Local): (State, bool) {
    if !local.memory then (s, false)
    else
      var t := s.(cseqPrevious := s.cseqPrevious + 1);
      if !local.headersAdded then Fail(t, HeaderNotAdded)
      else Write(t, Request(Describe, t.cseqPrevious, 0, None), local)
  }

  /** The track index is advanced before anything can fail. */
  function SendSetup(s: State, local: Local): (State, bool) {
    if s.media == None || s.media.value.requestTrack >= |s.media.value.controls| then Fail(s, StateWrong)
    else
      var track := s.media.value.requestTrack;
      var t := s.(media := Some(s.media.value.(requestTrack := track + 1)));
      if !s.media.value.controls[track] then Fail(t, NoControl)
      else if !local.urlFits || !local.memory then (t, false)
      else if !local.initialised then Fail(t, RequestNotFilled)
      else if !local.mediaSession then (t, false)
      else if !local.headersAdded then Fail(t, HeaderNotAdded)
      else
        var u := t.(cseqPrevious := t.cseqPrevious + 1);
        Write(u, Request(Setup, u.cseqPrevious, track, u.sessionId), local)
  }

  function SendPlay(s: State, local: Local): (State, bool) {
    if s.media == None || s.sessionId == None then Fail(s, StateWrong)
    else if !local.urlFits || !local.memory then (s, false)
    else if !local.initialised then Fail(s, RequestNotFilled)
    else
      var t := s.(cseqPrevious := s.cseqPrevious + 1);
      if !local.headersAdded then Fail(t, HeaderNotAdded)
      else Write(t, Request(Play, t.cseqPrevious, 0, t.sessionId), local)
  }

  // ---- replies ----

  function OnOptions(s: State, reply: Reply, local: Local): (State, bool) {
    if OffersDescribe(reply.methods) then SendDescribe(s, local) else (s, false)
  }

  function OnDescribe(s: State, reply: Reply, local: Local): (State, bool) {
    if s.ready || s.media.Some? then Fail(s, StateWrong)
    else if reply.tracks == None || |reply.tracks.value| < 1 || !reply.contentBase || !local.mediaKept then (s, false)
    else SendSetup(s.(media := Some(Media(0, reply.tracks.value))), local)
  }

  /** The identifier is taken from the first answer to SETUP. */
  function Identified(s: State, reply: Reply): State
    requires reply.session.Some?
  {
    if s.sessionId == None then s.(sessionId := Some(SessionIdOf(reply.session.value))) else s
  }

  /** A copy of an empty string is NULL, as is one for which there is no memory; the parser of the client
      adds no empty header, though. */
  function OnSetup(s: State, reply: Reply, local: Local): (State, bool) {
    if s.media == None then Fail(s, StateWrong)
    else if reply.session == None then (s, false)
    else if s.sessionId.Some? && !(s.sessionId.value <= reply.session.value) then (s, false)
    else if s.sessionId == None && (reply.session.value == "" || !local.copied) then Fail(s, NoIdentifier)
    else
      var t := Identified(s, reply);
      if t.media.value.requestTrack >= |t.media.value.controls| then SendPlay(t.(ready := true), local)
      else SendSetup(t, local)
  }

  function Handle(s: State, reply: Reply, local: Local): (State, bool) {
    match s.methodPrevious
    case Invalid => Fail(s, StateWrong)
    case Options => OnOptions(s, reply, local)
    case Describe => OnDescribe(s, reply, local)
    case Setup => OnSetup(s, reply, local)
    case Play => (s, false)
  }

  /** Only if the reply leads to a new request is another read started. */
  function Invoke(s: State, reply: Reply, local: Local): State {
    ReadOn(Handle(s, reply, local), local)
  }

  function ReadOn(r: (State, bool), local: Local): State {
    if !r.1 then r.0
    else if !local.readStarted then r.0.(fault := Some(ReadNotStarted))
    else r.0.(reading := true)
  }

  predicate Expected(s: State, reply: Reply) {
    reply.isResponse && reply.parsed && reply.status == 200 && reply.cseq == Some(s.cseqPrevious)
  }

  /** What the handlers find. */
  function Taken(s: State): State {
    s.(reading := false, log := s.log + [Answered(s.cseqPrevious)])
  }

  /** One message is read, if a read is pending. */
  function AfterReply(s: State, reply: Reply, local: Local): State {
    if !s.reading then s
    else if !Expected(s, reply) then s.(reading := false)
    else Invoke(Taken(s), reply, local)
  }

  function AfterConnect(s: State, connected: bool, local: Local): State {
    if !connected || !local.memory then s
    else if !local.headersAdded then Fail(s, HeaderNotAdded).0
    else
      var (t, ok) := Write(s, Request(Options, 0, 0, None), local);
      if ok then t.(cseqPrevious := 0, reading := local.readStarted) else t
  }

  // ---- the script ----

  /** Request k of a session with n tracks. */
  function RequestAt(n: nat, session: string, k: nat): Request {
    if k == 0 then Request(Options, 0, 0, None)
    else if k == 1 then Request(Describe, 1, 0, None)
    else if k < n + 2 then Request(Setup, k, k - 2, if k == 2 then None else Some(session))
    else Request(Play, k, 0, Some(session))
  }

  /** Event i of the dialogue: requests and their answers take turns. */
  function EventAt(n: nat, session: string, i: nat): Event {
    if i % 2 == 0 then Sent(RequestAt(n, session, i / 2)) else Answered(i / 2)
  }

  function Tracks(s: State): nat {
    if s.media == None then 1 else |s.media.value.controls|
  }

  function Session(s: State): string {
    if s.sessionId == None then "" else s.sessionId.value
  }

  /** The dialogue so far is a beginning of the script, which ends with the answer to PLAY. */
  ghost predicate Follows(s: State) {
    && Tracks(s) >= 1 && |s.log| <= 2 * (Tracks(s) + 3)
    && forall i :: 0 <= i < |s.log| ==> s.log[i] == EventAt(Tracks(s), Session(s), i)
  }

  /** While a read is pending, the last request awaits its answer and the fields agree with its number. */
  ghost predicate Awaits(s: State) {
    var n, k := Tracks(s), s.cseqPrevious;
    && 0 <= k <= n + 2 && |s.log| == 2 * k + 1
    && s.methodPrevious == RequestAt(n, Session(s), k).verb
    && (k <= 1 <==> s.media == None)
    && (k <= 2 <==> s.sessionId == None)
    && (s.ready <==> k == n + 2)
    && (k >= 2 ==> s.media.Some? && s.media.value.requestTrack == if k == n + 2 then n else k - 1)
  }

  /** Nothing is read behind a fault, and no assertion about the state of the session has failed. */
  ghost predicate Inv(s: State) {
    && Follows(s) && (s.reading ==> Awaits(s) && s.fault == None)
    && s.fault != Some(StateWrong)
  }

  /** Up to the answer to the first SETUP the script depends neither on the tracks nor on the session. */
  lemma SameBeginning(s: State, t: State)
    requires Follows(s) && t.log == s.log && Tracks(t) >= 1
    requires |s.log| <= 6 || (Tracks(t) == Tracks(s) && Session(t) == Session(s))
    ensures Follows(t)
  {
    forall i | 0 <= i < |t.log|
      ensures t.log[i] == EventAt(Tracks(t), Session(t), i)
    {
      assert s.log[i] == EventAt(Tracks(s), Session(s), i);
    }
  }

  lemma LogOn(s: State, t: State, event: Event)
    requires Follows(s) && t.log == s.log + [event] && Tracks(t) == Tracks(s) && Session(t) == Session(s)
    requires event == EventAt(Tracks(s), Session(s), |s.log|) && |s.log| < 2 * (Tracks(s) + 3)
    ensures Follows(t)
  {
  }

  /** The state between an answer and the request it leads to. */
  ghost predicate Answering(s: State) {
    var n, k := Tracks(s), s.cseqPrevious;
    && Follows(s) && 0 <= k <= n + 2 && |s.log| == 2 * k + 2 && s.fault == None
  }

  /** What a handler leaves: either the next request awaits its answer, or there is no read. */
  ghost predicate Handled(r: (State, bool)) {
    && Follows(r.0) && !r.0.reading && r.0.fault != Some(StateWrong)
    && (r.1 ==> Awaits(r.0) && r.0.fault == None)
  }

  lemma AnswerFollows(s: State)
    requires Inv(s) && s.reading
    ensures Answering(Taken(s))
  {
    LogOn(s, Taken(s), Answered(s.cseqPrevious));
  }

  lemma DescribeFollows(s: State, local: Local)
    requires Answering(s) && s.cseqPrevious == 0 && s.media == None && s.sessionId == None && !s.ready && !s.reading
    ensures Handled(SendDescribe(s, local))
  {
    var (t, ok) := SendDescribe(s, local);
    if ok {
      LogOn(s, t, Sent(Request(Describe, 1, 0, None)));
    }
  }

  lemma SetupFollows(s: State, local: Local)
    requires Answering(s) && s.media.Some? && !s.ready && !s.reading
    requires s.media.value.requestTrack == s.cseqPrevious - 1 < |s.media.value.controls|
    requires s.sessionId == None <==> s.cseqPrevious == 1
    ensures Handled(SendSetup(s, local))
  {
    var (t, ok) := SendSetup(s, local);
    if ok {
      LogOn(s, t, Sent(Request(Setup, t.cseqPrevious, s.media.value.requestTrack, s.sessionId)));
    }
  }

  lemma PlayFollows(s: State, local: Local)
    requires Answering(s) && s.media.Some? && s.ready && !s.reading && s.sessionId.Some?
    requires s.media.value.requestTrack == |s.media.value.controls| == s.cseqPrevious - 1
    ensures Handled(SendPlay(s, local))
  {
    var (t, ok) := SendPlay(s, local);
    if ok {
      LogOn(s, t, Sent(Request(Play, t.cseqPrevious, 0, s.sessionId)));
    }
  }

  lemma OnSetupFollows(s: State, reply: Reply, local: Local)
    requires Answering(s) && s.media.Some? && !s.ready && !s.reading && 2 <= s.cseqPrevious <= Tracks(s) + 1
    requires s.media.value.requestTrack == s.cseqPrevious - 1
    requires s.sessionId == None <==> s.cseqPrevious == 2
    requires s.fault == None
    ensures Handled(OnSetup(s, reply, local))
  {
    if reply.session.Some? && !(s.sessionId.Some? && !(s.sessionId.value <= reply.session.value)) {
      var t := Identified(s, reply);
      SameBeginning(s, t);
      if t.media.value.requestTrack >= |t.media.value.controls| {
        SameBeginning(t, t.(ready := true));
        PlayFollows(t.(ready := true), local);
      } else {
        SetupFollows(t, local);
      }
    }
  }

  lemma OnDescribeFollows(s: State, reply: Reply, local: Local)
    requires Answering(s) && s.media == None && !s.ready && !s.reading && s.cseqPrevious == 1 && s.sessionId == None
    requires s.fault == None
    ensures Handled(OnDescribe(s, reply, local))
  {
    if reply.tracks.Some? && |reply.tracks.value| >= 1 && reply.contentBase && local.mediaKept {
      var t := s.(media := Some(Media(0, reply.tracks.value)));
      SameBeginning(s, t);
      SetupFollows(t, local);
    }
  }

  lemma HandleFollows(s: State, reply: Reply, local: Local)
    requires Inv(s) && s.reading
    ensures Handled(Handle(Taken(s), reply, local))
  {
    AnswerFollows(s);
    match s.methodPrevious {
      case Options => DescribeFollows(Taken(s), local);
      case Describe => OnDescribeFollows(Taken(s), reply, local);
      case Setup => OnSetupFollows(Taken(s), reply, local);
      case Play =>
    }
  }

  /** Any reply and any local failure keep the dialogue on the script, and no assertion about the state
      of the session fails. */
  lemma ReplyKeepsInv(s: State, reply: Reply, local: Local)
    requires Inv(s)
    ensures Inv(AfterReply(s, reply, local))
  {
    if s.reading && Expected(s, reply) {
      HandleFollows(s, reply, local);
    }
  }

  function Run(s: State, replies: seq<(Reply, Local)>): State
    decreases |replies|
  {
    if replies == [] then s else Run(AfterReply(s, replies[0].0, replies[0].1), replies[1..])
  }

  lemma {:induction false} RunKeepsInv(s: State, replies: seq<(Reply, Local)>)
    requires Inv(s)
    ensures Inv(Run(s, replies))
    decreases |replies|
  {
    if replies != [] {
      ReplyKeepsInv(s, replies[0].0, replies[0].1);
      RunKeepsInv(AfterReply(s, replies[0].0, replies[0].1), replies[1..]);
    }
  }

  /** Against any server and with any local failures the dialogue is a beginning of the script, and no
      assertion about the state of the session fails. */
  lemma SessionFollowsScript(connected: bool, local: Local, replies: seq<(Reply, Local)>)
    ensures var s := Run(AfterConnect(NEW, connected, local), replies);
            Follows(s) && s.fault != Some(StateWrong)
  {
    RunKeepsInv(AfterConnect(NEW, connected, local), replies);
  }

  /** Request k has been answered with its CSeq. */
  predicate AnsweredAt(log: seq<Event>, k: nat) {
    2 * k + 1 < |log| && log[2 * k + 1] == Answered(k)
  }

  /** Track t has been set up, by request t + 2, and that was answered. */
  predicate SetUp(log: seq<Event>, t: nat) {
    && AnsweredAt(log, t + 2)
    && log[2 * (t + 2)].Sent?
    && var r := log[2 * (t + 2)].request; r.verb == Setup && r.track == t && r.cseq == t + 2
  }

  lemma FollowsAnswered(s: State, k: nat)
    requires Follows(s) && 2 * k + 1 < |s.log|
    ensures AnsweredAt(s.log, k)
  {
    assert s.log[2 * k + 1] == EventAt(Tracks(s), Session(s), 2 * k + 1);
  }

  lemma FollowsSetUp(s: State, t: nat)
    requires Follows(s) && t < Tracks(s) && 2 * (t + 2) + 1 < |s.log|
    ensures SetUp(s.log, t)
  {
    assert s.log[2 * (t + 2)] == EventAt(Tracks(s), Session(s), 2 * (t + 2));
    FollowsAnswered(s, t + 2);
  }

  /** What the script means: CSeq counts the requests; a request is sent only after each one before it
      was answered with its CSeq; a track is set up once, in order, and within range; and PLAY comes
      after every track has been set up and answered. */
  lemma ScriptMeans(s: State, i: nat)
    requires Follows(s) && i < |s.log| && s.log[i].Sent?
    ensures var n, r := Tracks(s), s.log[i].request;
            && i == 2 * r.cseq
            && (forall k :: 0 <= k < r.cseq ==> AnsweredAt(s.log, k))
            && (r.verb == Setup ==> r.track < n && r.cseq == r.track + 2)
            && (r.verb == Play ==> forall t :: 0 <= t < n ==> SetUp(s.log, t))
  {
    assert s.log[i] == EventAt(Tracks(s), Session(s), i);
    forall k | 0 <= k < i / 2
      ensures AnsweredAt(s.log, k)
    {
      FollowsAnswered(s, k);
    }
    if s.log[i].request.verb == Play {
      forall t | 0 <= t < Tracks(s)
        ensures SetUp(s.log, t)
      {
        FollowsSetUp(s, t);
      }
    }
  }

  // ---- when an assertion fails ----

  predicate Accepts(s: State, reply: Reply) {
    reply.session.Some? && (s.sessionId.Some? ==> s.sessionId.value <= reply.session.value)
  }

  predicate CopyFails(s: State, reply: Reply, local: Local) {
    s.methodPrevious == Setup && s.sessionId == None && reply.session.Some? &&
    (reply.session.value == "" || !local.copied)
  }

  /** Whether the track that is to be asked for next has a control attribute. */
  function NextControl(s: State, reply: Reply, local: Local): Option<bool> {
    if s.methodPrevious == Describe && reply.tracks.Some? && reply.tracks.value != [] && reply.contentBase
       && local.mediaKept
    then Some(reply.tracks.value[0])
    else if s.methodPrevious == Setup && s.media.Some? && Accepts(s, reply) && !CopyFails(s, reply, local)
            && s.media.value.requestTrack < |s.media.value.controls|
    then Some(s.media.value.controls[s.media.value.requestTrack])
    else None
  }

  predicate BuildsDescribe(s: State, reply: Reply, local: Local) {
    s.methodPrevious == Options && OffersDescribe(reply.methods) && local.memory
  }

  predicate BuildsSetup(s: State, reply: Reply, local: Local) {
    NextControl(s, reply, local) == Some(true) && local.urlFits && local.memory
  }

  predicate BuildsPlay(s: State, reply: Reply, local: Local) {
    && s.methodPrevious == Setup && s.media.Some? && Accepts(s, reply) && !CopyFails(s, reply, local)
    && s.media.value.requestTrack >= |s.media.value.controls| && local.urlFits && local.memory
  }

  predicate Filled(s: State, reply: Reply, local: Local) {
    || BuildsDescribe(s, reply, local)
    || (BuildsSetup(s, reply, local) && local.initialised && local.mediaSession)
    || (BuildsPlay(s, reply, local) && local.initialised)
  }

  predicate Sends(s: State, reply: Reply, local: Local) {
    Filled(s, reply, local) && local.headersAdded && local.endFits && local.written
  }

  predicate Fails(s: State, reply: Reply, local: Local, fault: Fault) {
    match fault
    case StateWrong => false
    case NoControl => NextControl(s, reply, local) == Some(false)
    case NoIdentifier => CopyFails(s, reply, local)
    case RequestNotFilled => (BuildsSetup(s, reply, local) || BuildsPlay(s, reply, local)) && !local.initialised
    case HeaderNotAdded => Filled(s, reply, local) && !local.headersAdded
    case NoRoomForEnd => Filled(s, reply, local) && local.headersAdded && !local.endFits
    case ReadNotStarted => Sends(s, reply, local) && !local.readStarted
  }

  /** The assertion that fails is this one, and a request has been sent if `sent` says so. */
  predicate Outcome(s: State, t: State, fault: Fault, fails: bool, sent: bool) {
    (t.fault == Some(fault) <==> fails) && |t.log| == |s.log| + if sent then 1 else 0
  }

  /** Writing, and reading on. */
  predicate SendFails(filled: bool, local: Local, fault: Fault) {
    match fault
    case HeaderNotAdded => filled && !local.headersAdded
    case NoRoomForEnd => filled && local.headersAdded && !local.endFits
    case ReadNotStarted => filled && local.headersAdded && local.endFits && local.written && !local.readStarted
    case _ => false
  }

  predicate Goes(filled: bool, local: Local) {
    filled && local.headersAdded && local.endFits && local.written
  }

  lemma DescribeFails(s: State, local: Local, fault: Fault)
    requires s.fault == None
    ensures Outcome(s, ReadOn(SendDescribe(s, local), local), fault,
                    SendFails(local.memory, local, fault), Goes(local.memory, local))
  {
  }

  lemma SetupFails(s: State, local: Local, fault: Fault)
    requires s.fault == None && s.media.Some? && s.media.value.requestTrack < |s.media.value.controls|
    ensures var control := s.media.value.controls[s.media.value.requestTrack];
            var built := control && local.urlFits && local.memory;
            var filled := built && local.initialised && local.mediaSession;
            Outcome(s, ReadOn(SendSetup(s, local), local), fault,
                    (if fault == NoControl then !control
                     else if fault == RequestNotFilled then built && !local.initialised
                     else SendFails(filled, local, fault)),
                    Goes(filled, local))
  {
  }

  lemma PlayFails(s: State, local: Local, fault: Fault)
    requires s.fault == None && s.media.Some? && s.sessionId.Some?
    ensures var built := local.urlFits && local.memory;
            var filled := built && local.initialised;
            Outcome(s, ReadOn(SendPlay(s, local), local), fault,
                    (if fault == RequestNotFilled then built && !local.initialised
                     else SendFails(filled, local, fault)),
                    Goes(filled, local))
  {
  }

  lemma HandlerFails(s: State, reply: Reply, local: Local, fault: Fault)
    requires s.fault == None && s.methodPrevious != Invalid
    requires s.methodPrevious == Describe ==> !s.ready && s.media == None
    requires s.methodPrevious == Setup ==> s.media.Some?
    ensures Outcome(s, Invoke(s, reply, local), fault, Fails(s, reply, local, fault), Sends(s, reply, local))
  {
    match s.methodPrevious {
      case Options => DescribeFails(s, local, fault);
      case Describe => DescribedFails(s, reply, local, fault);
      case Setup => SetUpFails(s, reply, local, fault);
      case Play =>
    }
  }

  lemma DescribedFails(s: State, reply: Reply, local: Local, fault: Fault)
    requires s.fault == None && s.methodPrevious == Describe && !s.ready && s.media == None
    ensures Outcome(s, Invoke(s, reply, local), fault, Fails(s, reply, local, fault), Sends(s, reply, local))
  {
    if NextControl(s, reply, local).Some? {
      SetupFails(s.(media := Some(Media(0, reply.tracks.value))), local, fault);
    }
  }

  lemma SetUpFails(s: State, reply: Reply, local: Local, fault: Fault)
    requires s.fault == None && s.methodPrevious == Setup && s.media.Some?
    ensures Outcome(s, Invoke(s, reply, local), fault, Fails(s, reply, local, fault), Sends(s, reply, local))
  {
    if Accepts(s, reply) && !CopyFails(s, reply, local) {
      var t := Identified(s, reply);
      SetUpSends(s, reply, local);
      if t.media.value.requestTrack >= |t.media.value.controls| {
        PlayFails(t.(ready := true), local, fault);
        PlayConditions(s, reply, local, fault);
      } else {
        SetupFails(t, local, fault);
        SetupConditions(s, reply, local, fault);
      }
    } else {
      NotSent(s, reply, local, fault);
    }
  }

  lemma SetUpSends(s: State, reply: Reply, local: Local)
    requires s.methodPrevious == Setup && s.media.Some? && Accepts(s, reply) && !CopyFails(s, reply, local)
    ensures var t := Identified(s, reply);
            && t.fault == s.fault && t.media == s.media && t.sessionId.Some? && t.log == s.log
            && Handle(s, reply, local) ==
               if t.media.value.requestTrack >= |t.media.value.controls| then SendPlay(t.(ready := true), local)
               else SendSetup(t, local)
  {
  }

  lemma NotSent(s: State, reply: Reply, local: Local, fault: Fault)
    requires s.fault == None && s.methodPrevious == Setup && s.media.Some?
    requires !Accepts(s, reply) || CopyFails(s, reply, local)
    ensures !Sends(s, reply, local)
    ensures Fails(s, reply, local, fault) <==> fault == NoIdentifier && CopyFails(s, reply, local)
    ensures var t := OnSetup(s, reply, local);
            !t.1 && t.0 == if CopyFails(s, reply, local) then s.(fault := Some(NoIdentifier)) else s
  {
  }

  lemma PlayConditions(s: State, reply: Reply, local: Local, fault: Fault)
    requires s.methodPrevious == Setup && s.media.Some? && s.media.value.requestTrack >= |s.media.value.controls|
    requires Accepts(s, reply) && !CopyFails(s, reply, local)
    ensures var built := local.urlFits && local.memory;
            && Sends(s, reply, local) == Goes(built && local.initialised, local)
            && Fails(s, reply, local, fault) ==
               if fault == RequestNotFilled then built && !local.initialised
               else SendFails(built && local.initialised, local, fault)
  {
  }

  lemma SetupConditions(s: State, reply: Reply, local: Local, fault: Fault)
    requires s.methodPrevious == Setup && s.media.Some? && s.media.value.requestTrack < |s.media.value.controls|
    requires Accepts(s, reply) && !CopyFails(s, reply, local)
    ensures var control := s.media.value.controls[s.media.value.requestTrack];
            var built := control && local.urlFits && local.memory;
            var filled := built && local.initialised && local.mediaSession;
            && Sends(s, reply, local) == Goes(filled, local)
            && Fails(s, reply, local, fault) ==
               if fault == NoControl then !control
               else if fault == RequestNotFilled then built && !local.initialised
               else SendFails(filled, local, fault)
  {
  }

  /** Each assertion fails exactly under its condition: that a track without a control attribute is to be
      asked for, that the read behind a request cannot be started, and so on. */
  lemma FailsExactly(s: State, reply: Reply, local: Local, fault: Fault)
    requires Inv(s) && s.reading && Expected(s, reply)
    ensures AfterReply(s, reply, local).fault == Some(fault) <==> Fails(s, reply, local, fault)
    ensures |AfterReply(s, reply, local).log| == |s.log| + (if Sends(s, reply, local) then 2 else 1)
  {
    SameConditions(s, reply, local, fault);
    HandlerFails(Taken(s), reply, local, fault);
  }

  lemma SameConditions(s: State, reply: Reply, local: Local, fault: Fault)
    ensures Fails(Taken(s), reply, local, fault) == Fails(s, reply, local, fault)
    ensures Sends(Taken(s), reply, local) == Sends(s, reply, local)
  {
  }

  predicate FailsAt(s: State, replies: seq<(Reply, Local)>, i: nat, fault: Fault)
    requires i < |replies|
  {
    var t := Run(s, replies[..i]);
    t.reading && Expected(t, replies[i].0) && Fails(t, replies[i].0, replies[i].1, fault)
  }

  lemma FailsAtNext(s: State, replies: seq<(Reply, Local)>, i: nat, fault: Fault)
    requires i + 1 < |replies|
    ensures FailsAt(s, replies, i + 1, fault)
            <==> FailsAt(AfterReply(s, replies[0].0, replies[0].1), replies[1..], i, fault)
  {
    assert replies[..i + 1][1..] == replies[1..][..i];
  }

  lemma {:induction false} NothingRead(s: State, replies: seq<(Reply, Local)>)
    requires !s.reading
    ensures Run(s, replies) == s
    decreases |replies|
  {
    if replies != [] {
      NothingRead(s, replies[1..]);
    }
  }

  /** Over any run an assertion fails if and only if its condition holds at some reply. */
  lemma {:induction false} RunFails(s: State, replies: seq<(Reply, Local)>, fault: Fault)
    requires Inv(s) && s.fault == None
    ensures Run(s, replies).fault == Some(fault) <==> exists i :: 0 <= i < |replies| && FailsAt(s, replies, i, fault)
    decreases |replies|
  {
    if replies != [] {
      var t, rest := AfterReply(s, replies[0].0, replies[0].1), replies[1..];
      FirstFails(s, replies, fault);
      if t.fault == None {
        ReplyKeepsInv(s, replies[0].0, replies[0].1);
        RunFails(t, rest, fault);
      } else {
        ReplyKeepsInv(s, replies[0].0, replies[0].1);
        NothingRead(t, rest);
        forall i | 0 <= i < |rest|
          ensures !FailsAt(t, rest, i, fault)
        {
          NothingRead(t, rest[..i]);
        }
      }
      ShiftFails(s, replies, fault);
    }
  }

  lemma FirstFails(s: State, replies: seq<(Reply, Local)>, fault: Fault)
    requires Inv(s) && s.fault == None && replies != []
    ensures FailsAt(s, replies, 0, fault) <==> AfterReply(s, replies[0].0, replies[0].1).fault == Some(fault)
  {
    if s.reading && Expected(s, replies[0].0) {
      FailsExactly(s, replies[0].0, replies[0].1, fault);
    }
  }

  lemma ShiftFails(s: State, replies: seq<(Reply, Local)>, fault: Fault)
    requires replies != []
    ensures var t, rest := AfterReply(s, replies[0].0, replies[0].1), replies[1..];
            (exists i :: 0 <= i < |replies| && FailsAt(s, replies, i, fault)) <==>
            FailsAt(s, replies, 0, fault) || exists i :: 0 <= i < |rest| && FailsAt(t, rest, i, fault)
  {
    var t, rest := AfterReply(s, replies[0].0, replies[0].1), replies[1..];
    forall i | 0 <= i < |rest|
      ensures FailsAt(s, replies, i + 1, fault) <==> FailsAt(t, rest, i, fault)
    {
      FailsAtNext(s, replies, i, fault);
    }
    if i :| 0 <= i < |replies| && FailsAt(s, replies, i, fault) {
      if i > 0 {
        assert FailsAt(t, rest, i - 1, fault);
      }
    }
  }

  predicate ConnectFails(connected: bool, local: Local, fault: Fault) {
    && connected && local.memory
    && if local.headersAdded then fault == NoRoomForEnd && !local.endFits else fault == HeaderNotAdded
  }

  /** The same from the start of the dialogue, where only OPTIONS can fail before there is a reply. */
  lemma SessionFails(connected: bool, local: Local, replies: seq<(Reply, Local)>, fault: Fault)
    ensures var s := AfterConnect(NEW, connected, local);
            Run(s, replies).fault == Some(fault) <==>
            ConnectFails(connected, local, fault) || exists i :: 0 <= i < |replies| && FailsAt(s, replies, i, fault)
  {
    var s := AfterConnect(NEW, connected, local);
    if s.fault == None {
      RunFails(s, replies, fault);
    } else {
      NothingRead(s, replies);
      forall i | 0 <= i < |replies|
        ensures !FailsAt(s, replies, i, fault)
      {
        NothingRead(s, replies[..i]);
      }
    }
  }

  const WELL: Local := Local(true, true, true, true, true, true, true, true, true, true)

  /** A server that describes its first medium without a control attribute ends the program, although
      nothing fails on this side. */
  lemma DescribedWithoutControl(offer: Reply, describe: Reply)
    requires offer.isResponse && offer.parsed && offer.status == 200 && offer.cseq == Some(0)
    requires OffersDescribe(offer.methods)
    requires describe.isResponse && describe.parsed && describe.status == 200 && describe.cseq == Some(1)
    requires describe.contentBase && describe.tracks.Some? && describe.tracks.value != [] && !describe.tracks.value[0]
    ensures Run(AfterConnect(NEW, true, WELL), [(offer, WELL), (describe, WELL)]).fault == Some(NoControl)
  {
    var s := AfterConnect(NEW, true, WELL);
    var t := AfterReply(s, offer, WELL);
    assert t.reading && t.methodPrevious == Describe && t.cseqPrevious == 1 && !t.ready && t.media == None;
    assert AfterReply(t, describe, WELL).fault == Some(NoControl);
    RunTwo(s, [(offer, WELL), (describe, WELL)]);
  }

  lemma RunTwo(s: State, replies: seq<(Reply, Local)>)
    requires |replies| == 2
    ensures Run(s, replies) == AfterReply(AfterReply(s, replies[0].0, replies[0].1), replies[1].0, replies[1].1)
  {
    var t := AfterReply(s, replies[0].0, replies[0].1);
    assert Run(t, replies[1..]) == Run(AfterReply(t, replies[1].0, replies[1].1), replies[1..][1..]);
  }

  /** A reply in which every medium has a control attribute, and the session identifier is not empty. */
  predicate Sensible(reply: Reply) {
    && (reply.tracks.Some? ==> forall i :: 0 <= i < |reply.tracks.value| ==> reply.tracks.value[i])
    && reply.session != Some("")
  }

  predicate Controlled(s: State) {
    s.media.Some? ==> forall i :: 0 <= i < |s.media.value.controls| ==> s.media.value.controls[i]
  }

  /** If nothing fails on this side, sensible replies never make an assertion fail. */
  lemma {:induction false} SensibleServer(s: State, replies: seq<(Reply, Local)>)
    requires Inv(s) && s.fault == None && Controlled(s)
    requires forall i :: 0 <= i < |replies| ==> Sensible(replies[i].0) && replies[i].1 == WELL
    ensures Run(s, replies).fault == None
    decreases |replies|
  {
    if replies != [] {
      SensibleReply(s, replies[0].0);
      ReplyKeepsInv(s, replies[0].0, WELL);
      SensibleServer(AfterReply(s, replies[0].0, WELL), replies[1..]);
    }
  }

  lemma SensibleReply(s: State, reply: Reply)
    requires Inv(s) && s.fault == None && Controlled(s) && Sensible(reply)
    ensures var t := AfterReply(s, reply, WELL);
            t.fault == None && Controlled(t)
  {
  }

  // ---- the session identifier is that of the first answer to SETUP ----

  lemma {:induction false} UntilEnd(s: string, c: char)
    requires c !in s
    ensures Until(s, c) == |s|
  {
    if s != "" {
      UntilEnd(s[1..], c);
    }
  }

  lemma {:induction false} UntilFound(s: string, c: char, rest: string)
    requires c !in s
    ensures Until(s + ([c] + rest), c) == |s|
  {
    if s == "" {
      assert s + ([c] + rest) == [c] + rest;
    } else {
      UntilFound(s[1..], c, rest);
      assert (s + ([c] + rest))[1..] == s[1..] + ([c] + rest);
    }
  }

  lemma {:induction false} LeadingRun(lead: string, c: char, rest: string)
    requires forall i :: 0 <= i < |lead| ==> lead[i] == c
    requires rest != "" && rest[0] != c
    ensures Leading(lead + rest, c) == |lead|
  {
    if lead == "" {
      assert lead + rest == rest;
    } else {
      LeadingRun(lead[1..], c, rest);
      assert (lead + rest)[1..] == lead[1..] + rest;
    }
  }

  /** Nothing but the identifier: what stands behind a ";" is no part of it. Separators in front of it stay. */
  lemma CutAtSemicolon(lead: string, id: string, rest: string)
    requires id != "" && ';' !in id && forall i :: 0 <= i < |lead| ==> lead[i] == ';'
    ensures SessionIdOf(lead + id) == lead + id
    ensures SessionIdOf(lead + (id + (";" + rest))) == lead + id
  {
    LeadingRun(lead, ';', id);
    UntilEnd(id, ';');
    assert (lead + id)[|lead|..] == id;
    var tail := id + (";" + rest);
    LeadingRun(lead, ';', tail);
    UntilFound(id, ';', rest);
    assert (lead + tail)[|lead|..] == tail;
    assert (lead + tail)[..|lead| + |id|] == lead + id;
  }

  /** The header names this identifier, alone or with parameters behind a ";". */
  predicate Names(header: string, id: string) {
    id != "" && ';' !in id && (header == id || id + ";" <= header)
  }

  lemma CutWithoutLead(id: string, rest: string)
    requires id != "" && ';' !in id
    ensures SessionIdOf(id) == id && SessionIdOf(id + (";" + rest)) == id
  {
    CutAtSemicolon("", id, rest);
    assert "" + id == id;
    assert "" + (id + (";" + rest)) == id + (";" + rest);
  }

  lemma NamesIdentifier(header: string, id: string)
    requires Names(header, id)
    ensures SessionIdOf(header) == id
  {
    var rest := if header == id then "" else header[|id| + 1..];
    CutWithoutLead(id, rest);
    if header != id {
      assert header == id + (";" + rest);
    }
  }

  lemma {:induction false} RunSplit(s: State, replies: seq<(Reply, Local)>, i: nat)
    requires i < |replies|
    ensures Run(s, replies) ==
            Run(AfterReply(Run(s, replies[..i]), replies[i].0, replies[i].1), replies[i + 1..])
    decreases i
  {
    if i > 0 {
      RunSplit(AfterReply(s, replies[0].0, replies[0].1), replies[1..], i - 1);
      assert replies[..i][1..] == replies[1..][..i - 1] && replies[1..][i..] == replies[i + 1..];
    }
  }

  lemma SessionKeptOnce(s: State, reply: Reply, local: Local)
    requires s.sessionId.Some?
    ensures AfterReply(s, reply, local).sessionId == s.sessionId
  {
    if s.reading && Expected(s, reply) {
      HandlerReads(Taken(s), reply, local);
    }
  }

  lemma {:induction false} SessionKept(s: State, replies: seq<(Reply, Local)>)
    requires s.sessionId.Some?
    ensures Run(s, replies).sessionId == s.sessionId
    decreases |replies|
  {
    if replies != [] {
      SessionKeptOnce(s, replies[0].0, replies[0].1);
      SessionKept(AfterReply(s, replies[0].0, replies[0].1), replies[1..]);
    }
  }

  lemma FirstAnswerNames(s: State, reply: Reply, local: Local, id: string)
    requires Inv(s) && s.reading && Expected(s, reply) && s.cseqPrevious == 2
    requires reply.session.Some? && Names(reply.session.value, id) && local.copied
    ensures AfterReply(s, reply, local).sessionId == Some(id)
  {
    NamesIdentifier(reply.session.value, id);
    assert s.methodPrevious == Setup && s.sessionId == None;
  }

  /** Over any run: the identifier that the first answer to SETUP names, without its parameters, is the
      one that every later request carries. */
  lemma SessionComesFromReply(connected: bool, local: Local, replies: seq<(Reply, Local)>, i: nat, id: string)
    requires i < |replies|
    requires var t := Run(AfterConnect(NEW, connected, local), replies[..i]);
             t.reading && Expected(t, replies[i].0) && t.cseqPrevious == 2
    requires replies[i].0.session.Some? && Names(replies[i].0.session.value, id) && replies[i].1.copied
    ensures var r := Run(AfterConnect(NEW, connected, local), replies);
            && r.sessionId == Some(id)
            && forall k :: 0 <= k < |r.log| && r.log[k].Sent? && r.log[k].request.cseq >= 3 ==>
                             r.log[k].request.session == Some(id)
  {
    var s := AfterConnect(NEW, connected, local);
    var t, r := Run(s, replies[..i]), Run(s, replies);
    RunKeepsInv(s, replies[..i]);
    FirstAnswerNames(t, replies[i].0, replies[i].1, id);
    RunSplit(s, replies, i);
    SessionKept(AfterReply(t, replies[i].0, replies[i].1), replies[i + 1..]);
    RunKeepsInv(s, replies);
    forall k | 0 <= k < |r.log| && r.log[k].Sent? && r.log[k].request.cseq >= 3
      ensures r.log[k].request.session == Some(id)
    {
      assert r.log[k] == EventAt(Tracks(r), Session(r), k);
    }
  }

  /** With nothing wrong on this side, a later answer to SETUP leads to a request if and only if its
      header is the identifier followed by anything. */
  lemma LaterAnswersBeginAlike(s: State, reply: Reply)
    requires Inv(s) && s.reading && Expected(s, reply) && s.methodPrevious == Setup && s.sessionId.Some?
    requires s.media.Some? && Controlled(s)
    ensures |AfterReply(s, reply, WELL).log| == |s.log| + 2 <==>
            reply.session.Some? && exists rest :: reply.session.value == s.sessionId.value + rest
  {
    FailsExactly(s, reply, WELL, NoControl);
    if reply.session.Some? && s.sessionId.value <= reply.session.value {
      assert reply.session.value == s.sessionId.value + reply.session.value[|s.sessionId.value|..];
    }
  }

  // ---- what goes on, and what does not ----

  lemma LowerIs(c: char, letter: char)
    requires 'a' <= letter <= 'z'
    ensures Lower(c) == letter <==> c == letter || c == letter - 'a' + 'A'
  {
  }

  /** The word DESCRIBE, with each letter in either case. */
  predicate SaysDescribe(word: string) {
    |word| == 8 && forall i :: 0 <= i < 8 ==> word[i] == "DESCRIBE"[i] || word[i] == "describe"[i]
  }

  lemma DescribeInAnyCase(word: string)
    ensures EqualIgnoringCase(word, "describe") <==> SaysDescribe(word)
  {
    if |word| == 8 {
      var l, u := "describe", "DESCRIBE";
      forall i | 0 <= i < 8
        ensures Lower(word[i]) == Lower(l[i]) <==> word[i] == u[i] || word[i] == l[i]
      {
        LowerIs(word[i], l[i]);
        LowerIs(l[i], l[i]);
        CapitalOf(i);
      }
    }
  }

  lemma CapitalOf(i: nat)
    requires i < 8
    ensures 'a' <= "describe"[i] <= 'z' && "DESCRIBE"[i] == "describe"[i] - 'a' + 'A'
  {
    var l, u := "describe", "DESCRIBE";
    assert l == ['d', 'e', 's', 'c', 'r', 'i', 'b', 'e'] && u == ['D', 'E', 'S', 'C', 'R', 'I', 'B', 'E'];
  }

  /** With nothing wrong on this side, the answer to OPTIONS leads to DESCRIBE if and only if one of the
      methods it offers is that word in any case. */
  lemma OfferLeadsToDescribe(s: State, reply: Reply)
    requires Inv(s) && s.reading && Expected(s, reply) && s.methodPrevious == Options
    ensures AfterReply(s, reply, WELL).log == s.log + [Answered(0), Sent(Request(Describe, 1, 0, None))] <==>
            exists i :: 0 <= i < |reply.methods| && SaysDescribe(reply.methods[i])
  {
    forall i | 0 <= i < |reply.methods|
      ensures EqualIgnoringCase(reply.methods[i], "describe") <==> SaysDescribe(reply.methods[i])
    {
      DescribeInAnyCase(reply.methods[i]);
    }
    assert s.log + [Answered(0)] + [Sent(Request(Describe, 1, 0, None))] ==
           s.log + [Answered(0), Sent(Request(Describe, 1, 0, None))];
  }

  /** The dialogue starts with OPTIONS, CSeq 0, if there is a connection and the request can be written, and
      then an answer is awaited if the read is started. */
  lemma ConnectSendsOptions(connected: bool, local: Local)
    ensures var s := AfterConnect(NEW, connected, local);
            var sent := connected && local.memory && local.headersAdded && local.endFits && local.written;
            && s.log == (if sent then [Sent(Request(Options, 0, 0, None))] else [])
            && (s.reading <==> sent && local.readStarted)
  {
  }

  /** Whatever is not a response that can be parsed, with status 200 and the CSeq of the last request, has no
      effect, except that the read is over. */
  lemma OnlyTheAnswerCounts(s: State, reply: Reply, local: Local)
    requires s.reading
    requires !reply.isResponse || !reply.parsed || reply.status != 200 || reply.cseq != Some(s.cseqPrevious)
    ensures AfterReply(s, reply, local) == s.(reading := false)
  {
  }

  /** A further message is read exactly if the last one has led to a request and the read was started;
      otherwise the session stays as it is for ever. */
  lemma SilentWithoutRequest(s: State, reply: Reply, local: Local, later: seq<(Reply, Local)>)
    requires Inv(s) && s.reading
    ensures var t := AfterReply(s, reply, local);
            && (t.reading <==> |t.log| == |s.log| + 2 && local.readStarted)
            && (!t.reading ==> Run(t, later) == t)
  {
    var t := AfterReply(s, reply, local);
    if Expected(s, reply) {
      HandlerReads(Taken(s), reply, local);
    }
    if !t.reading {
      NothingRead(t, later);
    }
  }

  /** A handler reports success exactly if it has sent a request, and an identifier stays. */
  predicate Grows(s: State, r: (State, bool)) {
    && |r.0.log| == |s.log| + (if r.1 then 1 else 0) && r.0.reading == s.reading
    && (s.sessionId.Some? ==> r.0.sessionId == s.sessionId)
  }

  lemma DescribeGrows(s: State, local: Local)
    ensures Grows(s, SendDescribe(s, local))
  {
  }

  lemma SetupGrows(s: State, local: Local)
    ensures Grows(s, SendSetup(s, local))
  {
  }

  lemma PlayGrows(s: State, local: Local)
    ensures Grows(s, SendPlay(s, local))
  {
  }

  lemma OnSetupGrows(s: State, reply: Reply, local: Local)
    ensures Grows(s, OnSetup(s, reply, local))
  {
    if s.media.Some? && reply.session.Some? {
      var t := Identified(s, reply);
      PlayGrows(t.(ready := true), local);
      SetupGrows(t, local);
    }
  }

  lemma HandlerReads(s: State, reply: Reply, local: Local)
    requires !s.reading
    ensures var t := Invoke(s, reply, local);
            && (t.reading <==> |t.log| == |s.log| + 1 && local.readStarted)
            && |t.log| <= |s.log| + 1
            && (s.sessionId.Some? ==> t.sessionId == s.sessionId)
  {
    match s.methodPrevious {
      case Options => DescribeGrows(s, local);
      case Describe =>
        if reply.tracks.Some? {
          SetupGrows(s.(media := Some(Media(0, reply.tracks.value))), local);
        }
      case Setup => OnSetupGrows(s, reply, local);
      case Play =>
      case Invalid =>
    }
  }
}

/** The session object, updated in place. */
module RtspSession {
  import opened Optional
  import opened RtspScript

  class Session {
    var methodPrevious: Verb
    var cseqPrevious: int
    var media: Option<Media>
    var ready: bool
    var sessionId: Option<string>
    var reading: bool
    var fault: Option<Fault>  // the assertion that has ended the program
    ghost var log: seq<Event>

    ghost function View(): State
      reads this
    {
      State(methodPrevious, cseqPrevious, media, ready, sessionId, reading, fault, log)
    }

    constructor ()
      ensures View() == NEW
    {
      methodPrevious, cseqPrevious, media, ready := Invalid, 0, None, false;
      sessionId, reading, fault, log := None, false, None, [];
    }

    method WriteMsg(request: Request, local: Local) returns (ok: bool)
      modifies this`methodPrevious, this`log, this`fault
      ensures (View(), ok) == Write(old(View()), request, local)
    {
      if !local.endFits {
        fault := Some(NoRoomForEnd);
        return false;
      }
      if local.written {
        methodPrevious := request.verb;
        log := log + [Sent(request)];
      }
      ok := local.written;
    }

    method OnConnect(connected: bool, local: Local)
      modifies this
      ensures View() == AfterConnect(old(View()), connected, local)
    {
      if !connected || !local.memory {
        return;
      }
      if !local.headersAdded {
        fault := Some(HeaderNotAdded);
        return;
      }
      var ok := WriteMsg(Request(Options, 0, 0, None), local);
      if ok {
        cseqPrevious := 0;
        reading := local.readStarted;
      }
    }

    method SendDESCRIBE(local: Local) returns (ok: bool)
      modifies this
      ensures (View(), ok) == SendDescribe(old(View()), local)
    {
      if !local.memory {
        return false;
      }
      cseqPrevious := cseqPrevious + 1;
      if !local.headersAdded {
        fault := Some(HeaderNotAdded);
        return false;
      }
      ok := WriteMsg(Request(Describe, cseqPrevious, 0, None), local);
    }

    method SendSETUP(local: Local) returns (ok: bool)
      modifies this
      ensures (View(), ok) == SendSetup(old(View()), local)
    {
      if media == None || media.value.requestTrack >= |media.value.controls| {
        fault := Some(StateWrong);
        return false;
      }
      var track := media.value.requestTrack;
      media := Some(media.value.(requestTrack := track + 1));
      if !media.value.controls[track] {
        fault := Some(NoControl);
        return false;
      }
      if !local.urlFits || !local.memory {
        return false;
      }
      if !local.initialised {
        fault := Some(RequestNotFilled);
        return false;
      }
      if !local.mediaSession {
        return false;
      }
      if !local.headersAdded {
        fault := Some(HeaderNotAdded);
        return false;
      }
      cseqPrevious := cseqPrevious + 1;
      ok := WriteMsg(Request(Setup, cseqPrevious, track, sessionId), local);
    }

    method SendPLAY(local: Local) returns (ok: bool)
      modifies this
      ensures (View(), ok) == SendPlay(old(View()), local)
    {
      if media == None || sessionId == None {
        fault := Some(StateWrong);
        return false;
      }
      if !local.urlFits || !local.memory {
        return false;
      }
      if !local.initialised {
        fault := Some(RequestNotFilled);
        return false;
      }
      cseqPrevious := cseqPrevious + 1;
      if !local.headersAdded {
        fault := Some(HeaderNotAdded);
        return false;
      }
      ok := WriteMsg(Request(Play, cseqPrevious, 0, sessionId), local);
    }

    method OnOptionsRespond(reply: Reply, local: Local) returns (ok: bool)
      modifies this
      ensures (View(), ok) == OnOptions(old(View()), reply, local)
    {
      var index := 0;
      while index < |reply.methods|
        invariant 0 <= index <= |reply.methods|
        invariant View() == old(View())
        invariant forall i :: 0 <= i < index ==> !EqualIgnoringCase(reply.methods[i], "describe")
      {
        if EqualIgnoringCase(reply.methods[index], "describe") {
          ok := SendDESCRIBE(local);
          return;
        }
        index := index + 1;
      }
      ok := false;
    }

    method OnDescribeRespond(reply: Reply, local: Local) returns (ok: bool)
      modifies this
      ensures (View(), ok) == OnDescribe(old(View()), reply, local)
    {
      if ready || media.Some? {
        fault := Some(StateWrong);
        return false;
      }
      if reply.tracks == None || |reply.tracks.value| < 1 {
        return false;
      }
      if !reply.contentBase || !local.mediaKept {
        return false;
      }
      media := Some(Media(0, reply.tracks.value));
      ok := SendSETUP(local);
    }

    method OnSetupRespond(reply: Reply, local: Local) returns (ok: bool)
      modifies this
      ensures (View(), ok) == OnSetup(old(View()), reply, local)
    {
      if media == None {
        fault := Some(StateWrong);
        return false;
      }
      if reply.session == None {
        return false;
      }
      if sessionId == None {
        if reply.session.value == "" || !local.copied {
          fault := Some(NoIdentifier);
          return false;
        }
        sessionId := Some(SessionIdOf(reply.session.value));
      } else if !(sessionId.value <= reply.session.value) {
        return false;
      }
      if media.value.requestTrack >= |media.value.controls| {
        ready := true;
        ok := SendPLAY(local);
      } else {
        ok := SendSETUP(local);
      }
    }

    /** A message has been read, if a read was pending. */
    method Dispatch(reply: Reply, local: Local)
      modifies this
      ensures View() == AfterReply(old(View()), reply, local)
    {
      if !reading {
        return;
      }
      reading := false;
      if !reply.isResponse || !reply.parsed || reply.status != 200 {
        return;
      }
      if reply.cseq == None || reply.cseq.value != cseqPrevious {
        return;
      }
      log := log + [Answered(cseqPrevious)];
      InvokeStateMachine(reply, local);
    }

    method InvokeStateMachine(reply: Reply, local: Local)
      modifies this
      ensures View() == Invoke(old(View()), reply, local)
    {
      var ok := false;
      match methodPrevious {
        case Options => ok := OnOptionsRespond(reply, local);
        case Describe => ok := OnDescribeRespond(reply, local);
        case Setup => ok := OnSetupRespond(reply, local);
        case Play =>
        case Invalid => fault := Some(StateWrong);
      }
      if ok {
        if local.readStarted {
          reading := true;
        } else {
          fault := Some(ReadNotStarted);
        }
      }
    }
  }
}
