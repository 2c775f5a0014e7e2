/** The pure parts of the call view (client/src/components/VideoCall.jsx):
    the call clock, the byte totals of a stats sample and the quality ladder. */
module CallMetrics {
  import opened Wrappers
  import opened DurationText

  /** One report of `pc.getStats()`. A field the report lacks is `None`. */
  datatype Report = Report(reportType: string, mediaType: Option<string>,
                           bytesReceived: Option<nat>, bytesSent: Option<nat>)

  datatype Quality = Excellent | Good | Fair | Poor

  /** `report.bytesReceived || 0` and `report.bytesSent || 0`. */
  function OrZero(n: Option<nat>): nat
  {
    if n.Some? then n.value else 0
  }

  predicate IsVideo(r: Report)
  {
    r.mediaType == Some("video")
  }

  /** The bytes of one report that count as received video. */
  function ReceivedPart(r: Report): nat
  {
    if r.reportType == "inbound-rtp" && IsVideo(r) then OrZero(r.bytesReceived) else 0
  }

  /** The bytes of one report that count as sent video. */
  function SentPart(r: Report): nat
  {
    if r.reportType == "outbound-rtp" && IsVideo(r) then OrZero(r.bytesSent) else 0
  }

  /** The received-video total of a stats sample. */
  function ReceivedTotal(reports: seq<Report>): nat
  {
    if reports == [] then 0 else ReceivedTotal(reports[..|reports| - 1]) + ReceivedPart(reports[|reports| - 1])
  }

  /** The sent-video total of a stats sample. */
  function SentTotal(reports: seq<Report>): nat
  {
    if reports == [] then 0 else SentTotal(reports[..|reports| - 1]) + SentPart(reports[|reports| - 1])
  }

  /** The totals of a sample are the sums of the totals of its two parts. */
  lemma {:induction false} TotalsAdd(a: seq<Report>, b: seq<Report>)
    ensures ReceivedTotal(a + b) == ReceivedTotal(a) + ReceivedTotal(b)
    ensures SentTotal(a + b) == SentTotal(a) + SentTotal(b)
  {
    if b != [] {
      assert (a + b)[..|a + b| - 1] == a + b[..|b| - 1];
      TotalsAdd(a, b[..|b| - 1]);
    } else {
      assert a + b == a;
    }
  }

  /** Two blocks of reports give the same totals in either order. */
  lemma {:induction false} TotalsSwap(a: seq<Report>, b: seq<Report>)
    ensures ReceivedTotal(a + b) == ReceivedTotal(b + a)
    ensures SentTotal(a + b) == SentTotal(b + a)
  {
    TotalsAdd(a, b);
    TotalsAdd(b, a);
  }

  /** Only inbound and outbound video reports count: a sample whose every
      report is of another kind totals zero both ways. */
  lemma {:induction false} OtherReportsIgnored(reports: seq<Report>)
    requires forall i :: 0 <= i < |reports| ==>
               (!IsVideo(reports[i]) || (reports[i].reportType != "inbound-rtp" && reports[i].reportType != "outbound-rtp"))
    ensures ReceivedTotal(reports) == 0 && SentTotal(reports) == 0
  {
    if reports != [] {
      OtherReportsIgnored(reports[..|reports| - 1]);
    }
  }

  /** The `stats.forEach` loop: sum the video bytes received and sent. */
  method SumVideoBytes(reports: seq<Report>) returns (bytesReceived: nat, bytesSent: nat)
    ensures bytesReceived == ReceivedTotal(reports) && bytesSent == SentTotal(reports)
  {
    bytesReceived, bytesSent := 0, 0;
    for i := 0 to |reports|
      invariant bytesReceived == ReceivedTotal(reports[..i]) && bytesSent == SentTotal(reports[..i])
    {
      var report := reports[i];
      assert reports[..i + 1][..i] == reports[..i];
      if report.reportType == "inbound-rtp" && report.mediaType == Some("video") {
        bytesReceived := bytesReceived + OrZero(report.bytesReceived);
      }
      if report.reportType == "outbound-rtp" && report.mediaType == Some("video") {
        bytesSent := bytesSent + OrZero(report.bytesSent);
      }
    }
    assert reports[..|reports|] == reports;
  }

  /** The quality ladder: the first threshold either count exceeds decides. */
  function QualityFor(bytesReceived: nat, bytesSent: nat): Quality
  {
    if bytesReceived > 1000000 || bytesSent > 1000000 then Excellent
    else if bytesReceived > 500000 || bytesSent > 500000 then Good
    else if bytesReceived > 100000 || bytesSent > 100000 then Fair
    else Poor
  }

  /** The rungs of the ladder, worst first. */
  function Rank(q: Quality): (k: nat)
    ensures k <= 3
  {
    match q
    case Poor => 0
    case Fair => 1
    case Good => 2
    case Excellent => 3
  }

  /** The byte count a sample must exceed to reach rung `k`. */
  function Threshold(k: nat): nat
    requires 1 <= k <= 3
  {
    if k == 1 then 100000 else if k == 2 then 500000 else 1000000
  }

  /** The quality reaches rung `k` exactly when the larger of the two counts
      exceeds that rung's threshold. */
  lemma QualityByLargerCount(bytesReceived: nat, bytesSent: nat, k: nat)
    requires 1 <= k <= 3
    ensures Rank(QualityFor(bytesReceived, bytesSent)) >= k <==>
            (if bytesReceived >= bytesSent then bytesReceived else bytesSent) > Threshold(k)
  {
  }

  /** More bytes either way never lowers the quality. */
  lemma {:induction false} QualityMonotone(r1: nat, s1: nat, r2: nat, s2: nat)
    requires r1 <= r2 && s1 <= s2
    ensures Rank(QualityFor(r1, s1)) <= Rank(QualityFor(r2, s2))
  {
    var k := Rank(QualityFor(r1, s1));
    if k >= 1 {
      QualityByLargerCount(r1, s1, k);
      QualityByLargerCount(r2, s2, k);
    }
  }

  /** `formatDuration(seconds)`: `HH:MM:SS` from one hour on, `MM:SS` below. */
  function FormatCallDuration(seconds: nat): (clock: string)
    ensures seconds < 3600 ==> |clock| == 5 && clock[2] == ':'
    ensures seconds >= 3600 ==> |clock| >= 8 && clock[|clock| - 6] == ':' && clock[|clock| - 3] == ':'
  {
    var hours := seconds / 3600;
    var minutes := (seconds % 3600) / 60;
    var secs := seconds % 60;
    FieldRoundTrip(hours);
    FieldRoundTrip(minutes);
    FieldRoundTrip(secs);
    if hours > 0 then Field(hours) + ":" + Field(minutes) + ":" + Field(secs)
    else Field(minutes) + ":" + Field(secs)
  }

  /** Reads a call clock back: `HH:MM:SS` with at least one hour, or `MM:SS`;
      minutes and seconds are two digits below 60. */
  function ParseClock(s: string): Option<nat>
  {
    var f := SplitColons(s);
    if |f| == 3 && AllDigits(f[0]) && AllDigits(f[1]) && AllDigits(f[2])
       && |f[0]| >= 2 && |f[1]| == 2 && |f[2]| == 2
       && Value(f[0]) >= 1 && Value(f[1]) < 60 && Value(f[2]) < 60
    then Some(Value(f[0]) * 3600 + Value(f[1]) * 60 + Value(f[2]))
    else if |f| == 2 && AllDigits(f[0]) && AllDigits(f[1]) && |f[0]| == 2 && |f[1]| == 2
       && Value(f[0]) < 60 && Value(f[1]) < 60
    then Some(Value(f[0]) * 60 + Value(f[1]))
    else None
  }

  /** `MM:SS` splits into its two fields and reads back. */
  lemma ShortClock(minutes: nat, secs: nat)
    requires minutes < 60 && secs < 60
    ensures SplitColons(Field(minutes) + ":" + Field(secs)) == [Field(minutes), Field(secs)]
    ensures ParseClock(Field(minutes) + ":" + Field(secs)) == Some(minutes * 60 + secs)
  {
    FieldRoundTrip(minutes);
    FieldRoundTrip(secs);
    NoColonInDigits(Field(minutes));
    NoColonInDigits(Field(secs));
    SplitWithoutColon(Field(secs));
    SplitAtColon(Field(minutes), Field(secs));
  }

  /** `HH:MM:SS` splits into its three fields and reads back. */
  lemma LongClock(hours: nat, minutes: nat, secs: nat)
    requires hours >= 1 && minutes < 60 && secs < 60
    ensures SplitColons(Field(hours) + ":" + Field(minutes) + ":" + Field(secs)) == [Field(hours), Field(minutes), Field(secs)]
    ensures ParseClock(Field(hours) + ":" + Field(minutes) + ":" + Field(secs)) == Some(hours * 3600 + minutes * 60 + secs)
  {
    ShortClock(minutes, secs);
    FieldRoundTrip(hours);
    NoColonInDigits(Field(hours));
    SplitAtColon(Field(hours), Field(minutes) + ":" + Field(secs));
    assert Field(hours) + ":" + Field(minutes) + ":" + Field(secs) == Field(hours) + ":" + (Field(minutes) + ":" + Field(secs));
  }

  /** The clock has three fields exactly from one hour on, and reads back as
      the number of seconds it was made from. */
  lemma CallDurationRoundTrip(seconds: nat)
    ensures |SplitColons(FormatCallDuration(seconds))| == (if seconds >= 3600 then 3 else 2)
    ensures ParseClock(FormatCallDuration(seconds)) == Some(seconds)
  {
    var hours, minutes, secs := seconds / 3600, (seconds % 3600) / 60, seconds % 60;
    assert seconds == hours * 3600 + minutes * 60 + secs;
    if hours > 0 {
      LongClock(hours, minutes, secs);
    } else {
      ShortClock(minutes, secs);
    }
  }

  /** Different durations never show the same clock. */
  lemma CallDurationInjective(a: nat, b: nat)
    requires FormatCallDuration(a) == FormatCallDuration(b)
    ensures a == b
  {
    CallDurationRoundTrip(a);
    CallDurationRoundTrip(b);
  }
}

/** The call view's state (client/src/components/VideoCall.jsx): its React
    state and refs, the timers it runs, and what it sends on the socket.
    Each handler of the component is a method; what the browser or the
    network delivers to it is a parameter. */
module VideoCall {
  import opened Wrappers
  import opened PeerConnections
  import opened CallMetrics

  /** What the view emits on the signalling socket. */
  datatype Emit =
    | JoinRoomEmit(roomId: string)
    | OfferEmit(roomId: string, offer: Description)
    | AnswerEmit(roomId: string, answer: Description)
    | IceCandidateEmit(roomId: string, candidate: string)

  /** The ids held by a timer ref. */
  function RefIds(ref: Option<nat>): set<nat>
  {
    if ref.Some? then {ref.value} else {}
  }

  class CallSession {
    const roomId: string
    /** `socketRef.current` is set. */
    var socketRef: bool
    /** The socket module still holds a connected socket (`disconnectSocket` clears it). */
    var socketConnected: bool
    /** `startCall` reached the socket handlers and registered them. */
    var handlersRegistered: bool
    /** The connection `startCall` created; its handlers keep using it. */
    var pc: PeerConnection?
    var peerConnectionRef: PeerConnection?
    var localStreamRef: Option<Stream>
    var screenStreamRef: Option<Stream>
    var callTimerRef: Option<nat>
    var statsIntervalRef: Option<nat>
    /** The intervals set and not yet cleared, and the id the next one gets. */
    var liveIntervals: set<nat>
    var nextIntervalId: nat
    /** The streams whose tracks were stopped, in order. */
    var stoppedStreams: seq<string>
    /** Whether the screen track's `onended` handler is registered. */
    var screenEndedHandler: bool

    var connectionStatus: string
    var callDuration: nat
    var connectionQuality: Quality
    var isScreenSharing: bool
    var isLoading: bool
    var remoteStream: Option<string>
    /** Every emit on the socket, in order. */
    var sent: seq<Emit>

    /** Every live interval is held by one of the two timer refs, the refs
        never share an interval, and the handlers only exist once there is a
        connection, which the ref holds until cleanup releases it. */
    ghost predicate Valid()
      reads this`liveIntervals, this`callTimerRef, this`statsIntervalRef, this`nextIntervalId,
            this`handlersRegistered, this`pc, this`peerConnectionRef
    {
      && liveIntervals == RefIds(callTimerRef) + RefIds(statsIntervalRef)
      && (callTimerRef.Some? && statsIntervalRef.Some? ==> callTimerRef.value != statsIntervalRef.value)
      && 0 < nextIntervalId
      && (forall id :: id in liveIntervals ==> 0 < id < nextIntervalId)
      && (handlersRegistered ==> pc != null)
      && (peerConnectionRef == null || peerConnectionRef == pc)
    }

    /** Mounting the view: `initializeSocket()` and `socketRef.current = getSocket()`,
        with every piece of state at its initial value. */
    constructor (roomId: string)
      ensures Valid()
      ensures this.roomId == roomId && socketRef && socketConnected && !handlersRegistered
      ensures pc == null && peerConnectionRef == null && localStreamRef == None && screenStreamRef == None
      ensures callTimerRef == None && statsIntervalRef == None && liveIntervals == {}
      ensures connectionStatus == "Connecting..." && callDuration == 0 && connectionQuality == Good
      ensures !isScreenSharing && isLoading && remoteStream == None && sent == [] && stoppedStreams == []
    {
      this.roomId := roomId;
      socketRef, socketConnected, handlersRegistered := true, true, false;
      pc, peerConnectionRef, localStreamRef, screenStreamRef := null, null, None, None;
      callTimerRef, statsIntervalRef, liveIntervals, nextIntervalId := None, None, {}, 1;
      stoppedStreams, screenEndedHandler := [], false;
      connectionStatus, callDuration, connectionQuality := "Connecting...", 0, Good;
      isScreenSharing, isLoading, remoteStream, sent := false, true, None, [];
    }

    /** `startCall`: get the camera and microphone (`media`, or the error
        `getUserMedia` threw), create the connection, add the local tracks,
        join the room and register the signalling handlers. */
    method StartCall(media: Result<Stream>)
      requires Valid() && pc == null
      modifies this`localStreamRef, this`peerConnectionRef, this`pc, this`sent, this`handlersRegistered,
               this`isLoading, this`connectionStatus
      ensures Valid()
      ensures media.Err? ==> !isLoading && connectionStatus == "Error" && pc == null && peerConnectionRef == null
                             && sent == old(sent) && !handlersRegistered && localStreamRef == old(localStreamRef)
      ensures media.Ok? ==> && localStreamRef == Some(media.value)
                            && pc != null && fresh(pc) && peerConnectionRef == pc
                            && pc.senders == SendersFor(media.value.tracks, media.value.id)
                            && pc.iceServers == StunServers
                            && pc.localDescription == None && pc.remoteDescription == None
                            && pc.remoteCandidates == [] && !pc.closed
                            && handlersRegistered == socketRef
                            && sent == old(sent) + (if socketRef then [JoinRoomEmit(roomId)] else [])
                            && isLoading == old(isLoading) && connectionStatus == old(connectionStatus)
    {
      if media.Err? {
        isLoading := false;
        connectionStatus := "Error";
        return;
      }
      var stream := media.value;
      localStreamRef := Some(stream);
      var connection := OpenConnection(stream);
      peerConnectionRef := connection;
      pc := connection;
      if socketRef {
        sent := sent + [JoinRoomEmit(roomId)];
        handlersRegistered := true;
      }
    }

    /** A new connection with the STUN servers configured and every track
        of `stream` added to it. */
    static method OpenConnection(stream: Stream) returns (connection: PeerConnection)
      ensures fresh(connection)
      ensures connection.senders == SendersFor(stream.tracks, stream.id)
      ensures connection.iceServers == StunServers
      ensures connection.localDescription == None && connection.remoteDescription == None
      ensures connection.remoteCandidates == [] && !connection.closed
    {
      connection := new PeerConnection();
      connection.AddLocalStream(stream);
    }

    /** Create an offer on the connection and send it once it is made; an
        offer the browser fails to make is never sent. */
    method SendOffer(generated: Result<string>, localRejection: Option<string>)
      requires Valid() && handlersRegistered
      modifies this`sent, pc
      ensures Valid()
      ensures sent == old(sent) + (if generated.Ok? && localRejection.None?
                                   then [OfferEmit(roomId, Description(OfferSdp, generated.value))] else [])
      ensures pc.localDescription == (if generated.Ok? && localRejection.None?
                                      then Some(Description(OfferSdp, generated.value)) else old(pc.localDescription))
      ensures pc.senders == old(pc.senders) && pc.remoteDescription == old(pc.remoteDescription)
      ensures pc.remoteCandidates == old(pc.remoteCandidates) && pc.closed == old(pc.closed)
    {
      var offer := pc.CreateOffer(generated, localRejection);
      if offer.Ok? {
        sent := sent + [OfferEmit(roomId, offer.value)];
      }
    }

    /** The `room-users` handler: offer to a room that already has someone. */
    method OnRoomUsers(users: seq<string>, generated: Result<string>, localRejection: Option<string>)
      requires Valid()
      modifies this`sent, pc
      ensures Valid()
      ensures sent == old(sent) + (if handlersRegistered && |users| > 0 && generated.Ok? && localRejection.None?
                                   then [OfferEmit(roomId, Description(OfferSdp, generated.value))] else [])
      ensures handlersRegistered && |users| > 0 ==>
        && pc.localDescription == (if generated.Ok? && localRejection.None?
                                   then Some(Description(OfferSdp, generated.value)) else old(pc.localDescription))
        && pc.senders == old(pc.senders) && pc.remoteDescription == old(pc.remoteDescription)
        && pc.remoteCandidates == old(pc.remoteCandidates) && pc.closed == old(pc.closed)
      ensures !(handlersRegistered && |users| > 0) ==> pc == null || unchanged(pc)
    {
      if handlersRegistered && |users| > 0 {
        SendOffer(generated, localRejection);
      }
    }

    /** The `user-joined` handler: offer to whoever joined. */
    method OnUserJoined(generated: Result<string>, localRejection: Option<string>)
      requires Valid()
      modifies this`sent, pc
      ensures Valid()
      ensures sent == old(sent) + (if handlersRegistered && generated.Ok? && localRejection.None?
                                   then [OfferEmit(roomId, Description(OfferSdp, generated.value))] else [])
      ensures handlersRegistered ==>
        && pc.localDescription == (if generated.Ok? && localRejection.None?
                                   then Some(Description(OfferSdp, generated.value)) else old(pc.localDescription))
        && pc.senders == old(pc.senders) && pc.remoteDescription == old(pc.remoteDescription)
        && pc.remoteCandidates == old(pc.remoteCandidates) && pc.closed == old(pc.closed)
      ensures !handlersRegistered ==> pc == null || unchanged(pc)
    {
      if handlersRegistered {
        SendOffer(generated, localRejection);
      }
    }

    /** The `offer` handler: answer every offer, whatever state the connection is in. */
    method OnOffer(offer: Description, remoteRejection: Option<string>, generated: Result<string>,
                   localRejection: Option<string>)
      requires Valid()
      modifies this`sent, pc
      ensures Valid()
      ensures sent == old(sent) + (if handlersRegistered && remoteRejection.None? && generated.Ok? && localRejection.None?
                                   then [AnswerEmit(roomId, Description(AnswerSdp, generated.value))] else [])
      ensures handlersRegistered ==>
        pc.remoteDescription == (if remoteRejection.None? then Some(offer) else old(pc.remoteDescription))
      ensures handlersRegistered ==>
        pc.localDescription == (if remoteRejection.None? && generated.Ok? && localRejection.None?
                                then Some(Description(AnswerSdp, generated.value)) else old(pc.localDescription))
      ensures handlersRegistered ==>
        pc.senders == old(pc.senders) && pc.remoteCandidates == old(pc.remoteCandidates) && pc.closed == old(pc.closed)
      ensures !handlersRegistered ==> pc == null || unchanged(pc)
    {
      if handlersRegistered {
        var answer := pc.CreateAnswer(offer, remoteRejection, generated, localRejection);
        if answer.Ok? {
          sent := sent + [AnswerEmit(roomId, answer.value)];
        }
      }
    }

    /** The `answer` handler: install the answer as the remote description. */
    method OnAnswer(answer: Description, rejection: Option<string>)
      requires Valid()
      modifies pc
      ensures handlersRegistered ==>
        pc.remoteDescription == (if rejection.None? then Some(answer) else old(pc.remoteDescription))
      ensures handlersRegistered ==> pc.localDescription == old(pc.localDescription) && pc.senders == old(pc.senders)
      ensures handlersRegistered ==> pc.remoteCandidates == old(pc.remoteCandidates) && pc.closed == old(pc.closed)
      ensures !handlersRegistered ==> pc == null || unchanged(pc)
    {
      if handlersRegistered {
        var _ := pc.SetRemoteDescription(answer, rejection);
      }
    }

    /** The `ice-candidate` handler: hand the candidate straight to the connection. */
    method OnRemoteIceCandidate(candidate: Option<string>, rejected: bool)
      requires Valid()
      modifies pc
      ensures handlersRegistered ==>
        pc.remoteCandidates == old(pc.remoteCandidates) + (if candidate.Some? && !rejected then [candidate.value] else [])
      ensures handlersRegistered ==>
        && pc.senders == old(pc.senders) && pc.localDescription == old(pc.localDescription)
        && pc.remoteDescription == old(pc.remoteDescription) && pc.closed == old(pc.closed)
      ensures !handlersRegistered ==> pc == null || unchanged(pc)
    {
      if handlersRegistered {
        pc.AddIceCandidate(candidate, rejected);
      }
    }

    /** `pc.onicecandidate`: send a local candidate when there is one and a socket. */
    method OnLocalIceCandidate(candidate: Option<string>)
      requires Valid() && pc != null
      modifies this`sent
      ensures sent == old(sent) + (if candidate.Some? && socketRef then [IceCandidateEmit(roomId, candidate.value)] else [])
    {
      if candidate.Some? && socketRef {
        sent := sent + [IceCandidateEmit(roomId, candidate.value)];
      }
    }

    /** `pc.ontrack`: show the first stream of the event. */
    method OnTrack(streamIds: seq<string>)
      requires Valid() && pc != null
      modifies this`remoteStream, this`connectionStatus, this`isLoading
      ensures remoteStream == (if |streamIds| > 0 then Some(streamIds[0]) else None)
      ensures connectionStatus == "Connected" && !isLoading
    {
      remoteStream := if |streamIds| > 0 then Some(streamIds[0]) else None;
      connectionStatus := "Connected";
      isLoading := false;
    }

    /** `startCallTimer`. */
    method StartCallTimer()
      requires Valid() && callTimerRef == None
      modifies this`callTimerRef, this`liveIntervals, this`nextIntervalId
      ensures Valid()
      ensures callTimerRef == Some(old(nextIntervalId)) && liveIntervals == old(liveIntervals) + {old(nextIntervalId)}
      ensures nextIntervalId == old(nextIntervalId) + 1
    {
      callTimerRef := Some(nextIntervalId);
      liveIntervals := liveIntervals + {nextIntervalId};
      nextIntervalId := nextIntervalId + 1;
    }

    /** `startStatsMonitoring(pc)`. */
    method StartStatsMonitoring()
      requires Valid() && statsIntervalRef == None
      modifies this`statsIntervalRef, this`liveIntervals, this`nextIntervalId
      ensures Valid()
      ensures statsIntervalRef == Some(old(nextIntervalId)) && liveIntervals == old(liveIntervals) + {old(nextIntervalId)}
      ensures nextIntervalId == old(nextIntervalId) + 1
    {
      statsIntervalRef := Some(nextIntervalId);
      liveIntervals := liveIntervals + {nextIntervalId};
      nextIntervalId := nextIntervalId + 1;
    }

    /** `stopCallTimer`: clear the interval if there is one; the ref ends empty. */
    method StopCallTimer()
      requires Valid()
      modifies this`callTimerRef, this`liveIntervals
      ensures Valid()
      ensures callTimerRef == None && liveIntervals == old(liveIntervals) - RefIds(old(callTimerRef))
    {
      if callTimerRef.Some? {
        liveIntervals := liveIntervals - {callTimerRef.value};
        callTimerRef := None;
      }
    }

    /** `stopStatsMonitoring`: the same for the stats interval. */
    method StopStatsMonitoring()
      requires Valid()
      modifies this`statsIntervalRef, this`liveIntervals
      ensures Valid()
      ensures statsIntervalRef == None && liveIntervals == old(liveIntervals) - RefIds(old(statsIntervalRef))
    {
      if statsIntervalRef.Some? {
        liveIntervals := liveIntervals - {statsIntervalRef.value};
        statsIntervalRef := None;
      }
    }

    /** `pc.onconnectionstatechange` with the connection's new `state`. On
        `connected` each timer is started only when its ref is empty, so a
        repeated `connected` never adds an interval. */
    method OnConnectionStateChange(state: string)
      requires Valid() && pc != null
      modifies this`connectionStatus, this`isLoading, this`callTimerRef, this`statsIntervalRef,
               this`liveIntervals, this`nextIntervalId
      ensures Valid()
      ensures state == "connected" ==>
        && connectionStatus == state && !isLoading
        && callTimerRef.Some? && statsIntervalRef.Some?
        && (old(callTimerRef).Some? ==> callTimerRef == old(callTimerRef))
        && (old(statsIntervalRef).Some? ==> statsIntervalRef == old(statsIntervalRef))
        && liveIntervals >= old(liveIntervals)
      ensures (state == "disconnected" || state == "failed") ==>
        && connectionStatus == "Connection Lost" && isLoading == old(isLoading)
        && callTimerRef == None && statsIntervalRef == None && liveIntervals == {}
      ensures state != "connected" && state != "disconnected" && state != "failed" ==>
        && connectionStatus == state && isLoading == old(isLoading)
        && callTimerRef == old(callTimerRef) && statsIntervalRef == old(statsIntervalRef)
        && liveIntervals == old(liveIntervals)
    {
      connectionStatus := state;
      if state == "connected" {
        isLoading := false;
        if callTimerRef == None {
          StartCallTimer();
        }
        if statsIntervalRef == None {
          StartStatsMonitoring();
        }
      } else if state == "disconnected" || state == "failed" {
        connectionStatus := "Connection Lost";
        StopCallTimer();
        StopStatsMonitoring();
      }
    }

    /** A live interval fires: the call timer counts a second; the stats
        interval samples the connection (`stats`, or `None` when `getStats`
        rejects, which leaves the quality as it was). */
    method OnIntervalTick(id: nat, stats: Option<seq<Report>>)
      requires Valid() && id in liveIntervals
      modifies this`callDuration, this`connectionQuality
      ensures callTimerRef == Some(id) ==> callDuration == old(callDuration) + 1 && connectionQuality == old(connectionQuality)
      ensures statsIntervalRef == Some(id) ==>
        && callDuration == old(callDuration)
        && connectionQuality == (if stats.Some? then QualityFor(ReceivedTotal(stats.value), SentTotal(stats.value))
                                 else old(connectionQuality))
    {
      if callTimerRef == Some(id) {
        callDuration := callDuration + 1;
      } else if stats.Some? {
        var bytesReceived, bytesSent := SumVideoBytes(stats.value);
        connectionQuality := QualityFor(bytesReceived, bytesSent);
      }
    }

    /** Stop every track of a stream held by a ref. */
    method StopTracks(stream: Stream)
      modifies this`stoppedStreams
      ensures stoppedStreams == old(stoppedStreams) + [stream.id]
    {
      stoppedStreams := stoppedStreams + [stream.id];
    }

    /** The first half of `cleanup`: stop the timers, then the camera and
        the screen capture, emptying their refs. */
    method ReleaseMedia()
      requires Valid()
      modifies this`callTimerRef, this`statsIntervalRef, this`liveIntervals, this`localStreamRef,
               this`screenStreamRef, this`stoppedStreams, this`screenEndedHandler
      ensures Valid()
      ensures callTimerRef == None && statsIntervalRef == None && liveIntervals == {}
      ensures localStreamRef == None && screenStreamRef == None && !screenEndedHandler
      ensures stoppedStreams == old(stoppedStreams) + (if old(localStreamRef).Some? then [old(localStreamRef).value.id] else [])
                                                    + (if old(screenStreamRef).Some? then [old(screenStreamRef).value.id] else [])
    {
      StopCallTimer();
      StopStatsMonitoring();
      StopStreams();
    }

    /** Stop the camera and the screen capture, emptying their refs. A
        stopped screen track never fires `ended`, so its handler is gone. */
    method StopStreams()
      modifies this`localStreamRef, this`screenStreamRef, this`stoppedStreams, this`screenEndedHandler
      ensures localStreamRef == None && screenStreamRef == None && !screenEndedHandler
      ensures stoppedStreams == old(stoppedStreams) + (if old(localStreamRef).Some? then [old(localStreamRef).value.id] else [])
                                                    + (if old(screenStreamRef).Some? then [old(screenStreamRef).value.id] else [])
    {
      if localStreamRef.Some? {
        StopTracks(localStreamRef.value);
        localStreamRef := None;
      }
      if screenStreamRef.Some? {
        StopTracks(screenStreamRef.value);
        screenStreamRef := None;
      }
      screenEndedHandler := false;
    }

    /** `cleanup`: stop the timers and the streams, clean up the connection
        and disconnect the socket. `cleanupPeerConnection` throws when the
        connection lacks `getTracks` (`hasGetTracks` false); the rest of
        `cleanup` is then skipped and `completed` is false. */
    method Cleanup(hasGetTracks: bool) returns (completed: bool)
      requires Valid()
      modifies this`callTimerRef, this`statsIntervalRef, this`liveIntervals, this`localStreamRef,
               this`screenStreamRef, this`stoppedStreams, this`screenEndedHandler, this`peerConnectionRef,
               this`socketConnected, pc
      ensures Valid()
      ensures callTimerRef == None && statsIntervalRef == None && liveIntervals == {}
      ensures localStreamRef == None && screenStreamRef == None && !screenEndedHandler
      ensures stoppedStreams == old(stoppedStreams) + (if old(localStreamRef).Some? then [old(localStreamRef).value.id] else [])
                                                    + (if old(screenStreamRef).Some? then [old(screenStreamRef).value.id] else [])
      ensures completed <==> old(peerConnectionRef) == null || hasGetTracks
      ensures completed ==> peerConnectionRef == null && !socketConnected
      ensures completed && old(peerConnectionRef) != null ==> old(peerConnectionRef).closed
      ensures old(peerConnectionRef) != null ==>
        && pc.senders == old(pc.senders) && pc.localDescription == old(pc.localDescription)
        && pc.remoteDescription == old(pc.remoteDescription) && pc.remoteCandidates == old(pc.remoteCandidates)
      ensures old(peerConnectionRef) == null ==> pc == null || unchanged(pc)
      ensures !completed ==> peerConnectionRef == old(peerConnectionRef) && socketConnected == old(socketConnected)
                             && pc != null && unchanged(pc)
    {
      ReleaseMedia();
      if peerConnectionRef != null {
        var thrown := CleanupPeerConnection(peerConnectionRef, hasGetTracks);
        if thrown {
          return false;
        }
        peerConnectionRef := null;
      }
      // disconnectSocket()
      socketConnected := false;
      completed := true;
    }

    /** The start branch of `toggleScreenShare`: ask for a screen capture
        (`capture`, or the error `getDisplayMedia` threw), keep it in the ref
        and swap its video track in, but only when there is both a
        connection and a camera stream. */
    method StartSharing(capture: Result<Stream>)
      requires Valid()
      requires capture.Ok? ==> FirstVideoTrack(capture.value.tracks).Some?
      modifies this`screenStreamRef, this`isScreenSharing, this`screenEndedHandler, pc
      ensures Valid()
      ensures capture.Err? ==> !isScreenSharing && screenStreamRef == old(screenStreamRef) && (pc == null || unchanged(pc))
      ensures capture.Ok? ==> screenStreamRef == Some(capture.value)
      ensures capture.Ok? && peerConnectionRef != null && localStreamRef.Some? ==>
        && isScreenSharing && screenEndedHandler
        && pc.senders == WithVideoTrack(old(pc.senders), FirstVideoTrack(capture.value.tracks).value, capture.value)
        && pc.localDescription == old(pc.localDescription) && pc.remoteDescription == old(pc.remoteDescription)
        && pc.remoteCandidates == old(pc.remoteCandidates) && pc.closed == old(pc.closed)
      ensures capture.Ok? && (peerConnectionRef == null || localStreamRef.None?) ==>
        isScreenSharing == old(isScreenSharing) && (pc == null || unchanged(pc))
    {
      if capture.Err? {
        isScreenSharing := false;
        return;
      }
      var screenStream := capture.value;
      screenStreamRef := Some(screenStream);
      var videoTrack := FirstVideoTrack(screenStream.tracks).value;
      if peerConnectionRef != null && localStreamRef.Some? {
        peerConnectionRef.ReplaceVideoTrack(videoTrack, screenStream);
        isScreenSharing := true;
        screenEndedHandler := true;
      }
    }

    /** The stop branch of `toggleScreenShare`: stop the capture, empty its
        ref and swap the camera's video track back in. The stopped screen
        track never fires `ended`, so its handler is gone. */
    method StopSharing()
      requires Valid()
      modifies this`screenStreamRef, this`isScreenSharing, this`stoppedStreams, this`screenEndedHandler, pc
      ensures Valid()
      ensures !isScreenSharing && screenStreamRef == None && !screenEndedHandler
      ensures stoppedStreams == old(stoppedStreams) + (if old(screenStreamRef).Some? then [old(screenStreamRef).value.id] else [])
      ensures if peerConnectionRef != null && localStreamRef.Some? && FirstVideoTrack(localStreamRef.value.tracks).Some?
              then
                && pc.senders == WithVideoTrack(old(pc.senders), FirstVideoTrack(localStreamRef.value.tracks).value, localStreamRef.value)
                && pc.localDescription == old(pc.localDescription) && pc.remoteDescription == old(pc.remoteDescription)
                && pc.remoteCandidates == old(pc.remoteCandidates) && pc.closed == old(pc.closed)
              else pc == null || unchanged(pc)
    {
      if screenStreamRef.Some? {
        StopTracks(screenStreamRef.value);
        screenStreamRef := None;
      }
      if localStreamRef.Some? && peerConnectionRef != null {
        var videoTrack := FirstVideoTrack(localStreamRef.value.tracks);
        if videoTrack.Some? {
          peerConnectionRef.ReplaceVideoTrack(videoTrack.value, localStreamRef.value);
        }
      }
      isScreenSharing := false;
      screenEndedHandler := false;
    }

    /** `toggleScreenShare` from the button, which sees the current flag. */
    method ToggleScreenShare(capture: Result<Stream>)
      requires Valid()
      requires capture.Ok? ==> FirstVideoTrack(capture.value.tracks).Some?
      modifies this`screenStreamRef, this`isScreenSharing, this`stoppedStreams, this`screenEndedHandler, pc
      ensures Valid()
      ensures old(isScreenSharing) ==> !isScreenSharing && screenStreamRef == None && !screenEndedHandler
      ensures old(isScreenSharing) ==>
        stoppedStreams == old(stoppedStreams) + (if old(screenStreamRef).Some? then [old(screenStreamRef).value.id] else [])
      ensures old(isScreenSharing) ==>
        if peerConnectionRef != null && localStreamRef.Some? && FirstVideoTrack(localStreamRef.value.tracks).Some?
        then
          && pc.senders == WithVideoTrack(old(pc.senders), FirstVideoTrack(localStreamRef.value.tracks).value, localStreamRef.value)
          && pc.localDescription == old(pc.localDescription) && pc.remoteDescription == old(pc.remoteDescription)
          && pc.remoteCandidates == old(pc.remoteCandidates) && pc.closed == old(pc.closed)
        else pc == null || unchanged(pc)
      ensures !old(isScreenSharing) ==> stoppedStreams == old(stoppedStreams)
      ensures !old(isScreenSharing) && isScreenSharing ==> peerConnectionRef != null && localStreamRef.Some?
      ensures !old(isScreenSharing) && capture.Err? ==> !isScreenSharing && (pc == null || unchanged(pc))
      ensures !old(isScreenSharing) && capture.Ok? && peerConnectionRef != null && localStreamRef.Some? ==>
        && isScreenSharing && screenEndedHandler && screenStreamRef == Some(capture.value)
        && pc.senders == WithVideoTrack(old(pc.senders), FirstVideoTrack(capture.value.tracks).value, capture.value)
        && pc.localDescription == old(pc.localDescription) && pc.remoteDescription == old(pc.remoteDescription)
        && pc.remoteCandidates == old(pc.remoteCandidates) && pc.closed == old(pc.closed)
    {
      if !isScreenSharing {
        StartSharing(capture);
      } else {
        StopSharing();
      }
    }

    /** The screen track's `onended` handler as registered: it calls the
        `toggleScreenShare` of the render that registered it, in which the
        flag was still false, so it runs the start branch and asks for a new
        capture (`capture`) instead of going back to the camera. When that
        prompt is dismissed the flag drops while the connection still sends
        the ended screen track and the ref still holds its stream. */
    method OnScreenTrackEnded(capture: Result<Stream>)
      requires Valid() && screenEndedHandler
      requires capture.Ok? ==> FirstVideoTrack(capture.value.tracks).Some?
      modifies this`screenStreamRef, this`isScreenSharing, this`screenEndedHandler, pc
      ensures Valid()
      ensures capture.Err? ==> !isScreenSharing && screenStreamRef == old(screenStreamRef) && (pc == null || unchanged(pc))
    {
      StartSharing(capture);
    }

    /** What the handler is evidently meant to do: the stop branch, which
        stops the capture and sends the camera's video track again. */
    method OnScreenTrackEndedFixed()
      requires Valid() && screenEndedHandler
      modifies this`screenStreamRef, this`isScreenSharing, this`stoppedStreams, this`screenEndedHandler, pc
      ensures Valid()
      ensures !isScreenSharing && screenStreamRef == None && !screenEndedHandler
      ensures stoppedStreams == old(stoppedStreams) + (if old(screenStreamRef).Some? then [old(screenStreamRef).value.id] else [])
      ensures if peerConnectionRef != null && localStreamRef.Some? && FirstVideoTrack(localStreamRef.value.tracks).Some?
              then
                && pc.senders == WithVideoTrack(old(pc.senders), FirstVideoTrack(localStreamRef.value.tracks).value, localStreamRef.value)
                && pc.localDescription == old(pc.localDescription) && pc.remoteDescription == old(pc.remoteDescription)
                && pc.remoteCandidates == old(pc.remoteCandidates) && pc.closed == old(pc.closed)
              else pc == null || unchanged(pc)
    {
      StopSharing();
    }
  }

  /** A call with a camera, a screen share started from the button, then the
      browser's own "stop sharing" control with the new prompt dismissed:
      the flag is off, yet the connection still sends the screen track and
      the capture is still held. */
  method ScreenShareEndedAsWritten(roomId: string, camera: Stream, screen: Stream) returns (session: CallSession)
    requires FirstVideoTrack(camera.tracks).Some? && FirstVideoTrack(screen.tracks).Some?
    requires FirstVideoTrack(screen.tracks) != FirstVideoTrack(camera.tracks)
    ensures session.pc != null && !session.isScreenSharing
    ensures session.screenStreamRef == Some(screen)
    ensures session.pc.senders != SendersFor(camera.tracks, camera.id)
  {
    session := new CallSession(roomId);
    session.StartCall(Ok(camera));
    var cameraSenders := session.pc.senders;
    session.ToggleScreenShare(Ok(screen));
    session.OnScreenTrackEnded(Err("NotAllowedError"));
    var screenTrack := FirstVideoTrack(screen.tracks).value;
    ReplaceSendsNewTrack(cameraSenders, screenTrack, screen);
    CameraSendsFirstVideoTrack(camera.tracks, camera.id);
  }

  /** The same sequence with the corrected handler: the flag is off, the
      capture is released and the connection sends exactly what it sent
      before the share. */
  method ScreenShareEndedFixed(roomId: string, camera: Stream, screen: Stream) returns (session: CallSession)
    requires FirstVideoTrack(camera.tracks).Some? && FirstVideoTrack(screen.tracks).Some?
    ensures session.pc != null && !session.isScreenSharing
    ensures session.screenStreamRef == None
    ensures session.pc.senders == SendersFor(camera.tracks, camera.id)
  {
    session := new CallSession(roomId);
    session.StartCall(Ok(camera));
    var cameraSenders := session.pc.senders;
    session.ToggleScreenShare(Ok(screen));
    session.OnScreenTrackEndedFixed();
    CameraSendsFirstVideoTrack(camera.tracks, camera.id);
    ScreenShareRoundTrip(cameraSenders, FirstVideoTrack(screen.tracks).value, screen,
                         FirstVideoTrack(camera.tracks).value, camera);
  }
}
