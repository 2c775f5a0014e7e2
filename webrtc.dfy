/** The peer-connection helpers (client/src/utils/webrtc.js) over an abstract
    browser `RTCPeerConnection`: its senders, its local and remote session
    descriptions and the remote ICE candidates it accepted. Whatever the
    browser decides (the SDP it generates, whether it rejects a step) is a
    parameter of the operation. */
module PeerConnections {
  import opened Wrappers

  /** `STUN_SERVERS.iceServers`: the servers every connection is created with. */
  const StunServers: seq<string> := ["stun:stun.l.google.com:19302", "stun:stun1.l.google.com:19302"]

  datatype TrackKind = Audio | Video

  /** A `MediaStreamTrack`. */
  datatype Track = Track(id: string, kind: TrackKind)

  /** A `MediaStream`: its id and its tracks in `getTracks()` order. */
  datatype Stream = Stream(id: string, tracks: seq<Track>)

  /** An `RTCRtpSender`: the track it sends (none once set to null) and the
      id of the stream it was added with. */
  datatype Sender = Sender(track: Option<Track>, streamId: string)

  datatype SdpType = OfferSdp | AnswerSdp

  /** An `RTCSessionDescriptionInit`. */
  datatype Description = Description(kind: SdpType, sdp: string)

  /** `stream.getVideoTracks()[0]`: the first video track among `tracks`, if any. */
  function FirstVideoTrack(tracks: seq<Track>): (r: Option<Track>)
    ensures r.Some? ==> exists i :: 0 <= i < |tracks| && tracks[i] == r.value && tracks[i].kind == Video &&
                          forall j :: 0 <= j < i ==> tracks[j].kind != Video
    ensures r.None? ==> forall i :: 0 <= i < |tracks| ==> tracks[i].kind != Video
  {
    if tracks == [] then None
    else if tracks[0].kind == Video then Some(tracks[0])
    else
      var r := FirstVideoTrack(tracks[1..]);
      assert r.Some? ==> exists i :: 0 <= i < |tracks| - 1 && tracks[1..][i] == r.value && tracks[1..][i].kind == Video &&
                                     forall j :: 0 <= j < i ==> tracks[1..][j].kind != Video;
      r
  }

  /** `s.track && s.track.kind === 'video'`. */
  predicate SendsVideo(s: Sender)
  {
    s.track.Some? && s.track.value.kind == Video
  }

  /** `getSenders().find(...)`: the first sender that carries a video track. */
  function FirstVideoSender(senders: seq<Sender>): (r: Option<nat>)
    ensures r.Some? ==> r.value < |senders| && SendsVideo(senders[r.value])
    ensures r.Some? ==> forall j :: 0 <= j < r.value ==> !SendsVideo(senders[j])
    ensures r.None? ==> forall j :: 0 <= j < |senders| ==> !SendsVideo(senders[j])
  {
    if senders == [] then None
    else if SendsVideo(senders[0]) then Some(0)
    else
      match FirstVideoSender(senders[1..])
      case None => None
      case Some(i) => Some(i + 1)
  }

  /** The senders after `replaceVideoTrack(pc, track, stream)`: the first video
      sender switches to `track`, or, when there is none, `addTrack` appends one. */
  function WithVideoTrack(senders: seq<Sender>, track: Track, stream: Stream): (after: seq<Sender>)
    ensures |senders| <= |after| <= |senders| + 1
  {
    match FirstVideoSender(senders)
    case Some(i) => senders[i := Sender(Some(track), senders[i].streamId)]
    case None => senders + [Sender(Some(track), stream.id)]
  }

  /** The senders `addLocalStream` adds: one per track, in track order. */
  function SendersFor(tracks: seq<Track>, streamId: string): (senders: seq<Sender>)
    ensures |senders| == |tracks|
  {
    if tracks == [] then []
    else SendersFor(tracks[..|tracks| - 1], streamId) + [Sender(Some(tracks[|tracks| - 1]), streamId)]
  }

  lemma {:induction false} SendersForTracks(tracks: seq<Track>, streamId: string)
    ensures |SendersFor(tracks, streamId)| == |tracks|
    ensures forall i :: 0 <= i < |tracks| ==> SendersFor(tracks, streamId)[i] == Sender(Some(tracks[i]), streamId)
  {
    if tracks != [] {
      SendersForTracks(tracks[..|tracks| - 1], streamId);
    }
  }

  /** After `replaceVideoTrack` with a video track, that track is the one the
      connection sends as video; no sender is removed, at most one is added,
      and every sender other than the one switched or added is as before. */
  lemma ReplaceSendsNewTrack(senders: seq<Sender>, track: Track, stream: Stream)
    requires track.kind == Video
    ensures var after := WithVideoTrack(senders, track, stream);
      && FirstVideoSender(after).Some?
      && after[FirstVideoSender(after).value].track == Some(track)
      && |after| == |senders| + (if FirstVideoSender(senders).Some? then 0 else 1)
      && forall j :: 0 <= j < |senders| && Some(j) != FirstVideoSender(senders) ==> after[j] == senders[j]
  {
    var after := WithVideoTrack(senders, track, stream);
    match FirstVideoSender(senders)
    case Some(i) =>
      assert forall j :: 0 <= j < i ==> after[j] == senders[j];
      assert SendsVideo(after[i]);
      FirstVideoSenderIs(after, i);
    case None =>
      assert forall j :: 0 <= j < |senders| ==> after[j] == senders[j];
      FirstVideoSenderIs(after, |senders|);
  }

  /** A sender that carries video, with none before it, is the one `find` returns. */
  lemma {:induction false} FirstVideoSenderIs(senders: seq<Sender>, i: nat)
    requires i < |senders| && SendsVideo(senders[i])
    requires forall j :: 0 <= j < i ==> !SendsVideo(senders[j])
    ensures FirstVideoSender(senders) == Some(i)
  {
    if i > 0 {
      assert !SendsVideo(senders[0]);
      FirstVideoSenderIs(senders[1..], i - 1);
    }
  }

  /** Replacing the video track twice with the same track is replacing it once. */
  lemma ReplaceIdempotent(senders: seq<Sender>, track: Track, stream: Stream)
    requires track.kind == Video
    ensures WithVideoTrack(WithVideoTrack(senders, track, stream), track, stream) == WithVideoTrack(senders, track, stream)
  {
    var after := WithVideoTrack(senders, track, stream);
    ReplaceSendsNewTrack(senders, track, stream);
    var i := FirstVideoSender(after).value;
    assert after[i := Sender(Some(track), after[i].streamId)] == after;
  }

  /** Sharing the screen and then going back to the camera that was being sent
      leaves the senders exactly as they were. */
  lemma ScreenShareRoundTrip(senders: seq<Sender>, screen: Track, screenStream: Stream, camera: Track, cameraStream: Stream)
    requires screen.kind == Video
    requires FirstVideoSender(senders).Some? && senders[FirstVideoSender(senders).value].track == Some(camera)
    ensures WithVideoTrack(WithVideoTrack(senders, screen, screenStream), camera, cameraStream) == senders
  {
    var i := FirstVideoSender(senders).value;
    var shared := WithVideoTrack(senders, screen, screenStream);
    FirstVideoSenderIs(shared, i);
    assert shared[i := Sender(Some(camera), shared[i].streamId)] == senders;
  }

  /** The senders made for a stream send its first video track as video. */
  lemma CameraSendsFirstVideoTrack(tracks: seq<Track>, streamId: string)
    requires FirstVideoTrack(tracks).Some?
    ensures FirstVideoSender(SendersFor(tracks, streamId)).Some?
    ensures SendersFor(tracks, streamId)[FirstVideoSender(SendersFor(tracks, streamId)).value].track == FirstVideoTrack(tracks)
  {
    var senders := SendersFor(tracks, streamId);
    SendersForTracks(tracks, streamId);
    var i :| 0 <= i < |tracks| && tracks[i] == FirstVideoTrack(tracks).value && tracks[i].kind == Video
             && forall j :: 0 <= j < i ==> tracks[j].kind != Video;
    FirstVideoSenderIs(senders, i);
  }

  class PeerConnection {
    /** The ICE servers it was configured with. */
    const iceServers: seq<string>
    /** `getSenders()`, in the order the senders were added. */
    var senders: seq<Sender>
    var localDescription: Option<Description>
    var remoteDescription: Option<Description>
    /** The remote ICE candidates `addIceCandidate` accepted, in order. */
    var remoteCandidates: seq<string>
    var closed: bool

    /** `createPeerConnection()`. */
    constructor ()
      ensures iceServers == StunServers
      ensures senders == [] && localDescription == None && remoteDescription == None
      ensures remoteCandidates == [] && !closed
    {
      iceServers := StunServers;
      senders, localDescription, remoteDescription := [], None, None;
      remoteCandidates, closed := [], false;
    }

    /** `pc.addTrack(track, stream)`. */
    method AddTrack(track: Track, stream: Stream)
      modifies this
      ensures senders == old(senders) + [Sender(Some(track), stream.id)]
      ensures localDescription == old(localDescription) && remoteDescription == old(remoteDescription)
      ensures remoteCandidates == old(remoteCandidates) && closed == old(closed)
    {
      senders := senders + [Sender(Some(track), stream.id)];
    }

    /** `replaceVideoTrack(pc, newTrack, stream)`: switch the first video sender
        to `newTrack`, or add `newTrack` when no sender carries video. */
    method ReplaceVideoTrack(newTrack: Track, stream: Stream)
      modifies this
      ensures senders == WithVideoTrack(old(senders), newTrack, stream)
      ensures localDescription == old(localDescription) && remoteDescription == old(remoteDescription)
      ensures remoteCandidates == old(remoteCandidates) && closed == old(closed)
    {
      var sender := FirstVideoSender(senders);
      if sender.Some? {
        var i := sender.value;
        senders := senders[i := Sender(Some(newTrack), senders[i].streamId)];
      } else {
        AddTrack(newTrack, stream);
      }
    }

    /** `addLocalStream(pc, stream)`: add every track of the stream, in order. */
    method AddLocalStream(stream: Stream)
      modifies this
      ensures senders == old(senders) + SendersFor(stream.tracks, stream.id)
      ensures localDescription == old(localDescription) && remoteDescription == old(remoteDescription)
      ensures remoteCandidates == old(remoteCandidates) && closed == old(closed)
    {
      for i := 0 to |stream.tracks|
        invariant senders == old(senders) + SendersFor(stream.tracks[..i], stream.id)
        invariant localDescription == old(localDescription) && remoteDescription == old(remoteDescription)
        invariant remoteCandidates == old(remoteCandidates) && closed == old(closed)
      {
        assert stream.tracks[..i + 1][..i] == stream.tracks[..i];
        AddTrack(stream.tracks[i], stream);
      }
      assert stream.tracks[..|stream.tracks|] == stream.tracks;
    }

    /** `createOffer(pc)`: the browser generates an offer (`generated`, or the
        error it rejects with) and installs it as the local description unless
        it rejects that (`localRejection`). Either error is rethrown. */
    method CreateOffer(generated: Result<string>, localRejection: Option<string>) returns (r: Result<Description>)
      modifies this
      ensures r.Ok? <==> generated.Ok? && localRejection.None?
      ensures r.Ok? ==> r.value == Description(OfferSdp, generated.value) && localDescription == Some(r.value)
      ensures r.Err? ==> localDescription == old(localDescription)
      ensures generated.Err? ==> r == Err(generated.error)
      ensures generated.Ok? && localRejection.Some? ==> r == Err(localRejection.value)
      ensures senders == old(senders) && remoteDescription == old(remoteDescription)
      ensures remoteCandidates == old(remoteCandidates) && closed == old(closed)
    {
      if generated.Err? {
        return Err(generated.error);
      }
      var offer := Description(OfferSdp, generated.value);
      if localRejection.Some? {
        return Err(localRejection.value);
      }
      localDescription := Some(offer);
      r := Ok(offer);
    }

    /** `createAnswer(pc, offer)`: install the offer as the remote description,
        then generate an answer and install it as the local description. The
        first step that fails ends the call with its error, and what the
        earlier steps did stays done. */
    method CreateAnswer(offer: Description, remoteRejection: Option<string>, generated: Result<string>,
                        localRejection: Option<string>) returns (r: Result<Description>)
      modifies this
      ensures r.Ok? <==> remoteRejection.None? && generated.Ok? && localRejection.None?
      ensures remoteDescription == if remoteRejection.None? then Some(offer) else old(remoteDescription)
      ensures r.Ok? ==> r.value == Description(AnswerSdp, generated.value) && localDescription == Some(r.value)
      ensures r.Err? ==> localDescription == old(localDescription)
      ensures remoteRejection.Some? ==> r == Err(remoteRejection.value)
      ensures remoteRejection.None? && generated.Err? ==> r == Err(generated.error)
      ensures senders == old(senders) && remoteCandidates == old(remoteCandidates) && closed == old(closed)
    {
      var failed := SetRemoteDescription(offer, remoteRejection);
      if failed.Some? {
        return Err(failed.value);
      }
      if generated.Err? {
        return Err(generated.error);
      }
      var answer := Description(AnswerSdp, generated.value);
      if localRejection.Some? {
        return Err(localRejection.value);
      }
      localDescription := Some(answer);
      r := Ok(answer);
    }

    /** `setRemoteDescription(pc, description)`: returns the error it rethrows, if any. */
    method SetRemoteDescription(description: Description, rejection: Option<string>) returns (thrown: Option<string>)
      modifies this
      ensures thrown == rejection
      ensures remoteDescription == if rejection.None? then Some(description) else old(remoteDescription)
      ensures senders == old(senders) && localDescription == old(localDescription)
      ensures remoteCandidates == old(remoteCandidates) && closed == old(closed)
    {
      if rejection.None? {
        remoteDescription := Some(description);
      }
      thrown := rejection;
    }

    /** `addIceCandidate(pc, candidate)`: a missing candidate is skipped, and a
        candidate the browser rejects is dropped; no error reaches the caller. */
    method AddIceCandidate(candidate: Option<string>, rejected: bool)
      modifies this
      ensures remoteCandidates == old(remoteCandidates) + (if candidate.Some? && !rejected then [candidate.value] else [])
      ensures senders == old(senders) && localDescription == old(localDescription)
      ensures remoteDescription == old(remoteDescription) && closed == old(closed)
    {
      if candidate.Some? && !rejected {
        remoteCandidates := remoteCandidates + [candidate.value];
      }
    }

    /** `pc.close()`. */
    method Close()
      modifies this
      ensures closed
      ensures senders == old(senders) && localDescription == old(localDescription)
      ensures remoteDescription == old(remoteDescription) && remoteCandidates == old(remoteCandidates)
    {
      closed := true;
    }
  }

  /** `cleanupPeerConnection(pc)`. It first calls `pc.getTracks()`, a method a
      browser `RTCPeerConnection` does not have: with `hasGetTracks` false
      that call throws and the connection is never closed. */
  method CleanupPeerConnection(pc: PeerConnection?, hasGetTracks: bool) returns (thrown: bool)
    modifies pc
    ensures thrown <==> pc != null && !hasGetTracks
    ensures pc != null && !thrown ==> pc.closed
    ensures thrown ==> unchanged(pc)
    ensures pc != null ==> pc.senders == old(pc.senders) && pc.closed == (old(pc.closed) || !thrown)
    ensures pc != null ==> pc.localDescription == old(pc.localDescription) && pc.remoteDescription == old(pc.remoteDescription)
    ensures pc != null ==> pc.remoteCandidates == old(pc.remoteCandidates)
  {
    thrown := false;
    if pc != null {
      if !hasGetTracks {
        return true;
      }
      pc.Close();
    }
  }
}
