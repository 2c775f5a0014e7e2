# Calling-Application in Dafny

Calling-Application is a two-party video call in the browser with a small
Node.js signalling server. This project models its core and proves properties
of that model:

- **The signalling relay** (`server/index.js`). The `rooms` table maps a room
  id to the set of socket ids in that room. The `join-room`, `offer`,
  `answer`, `ice-candidate`, `chat-message` and `disconnect` handlers update
  that table and emit events.
  - `SignalingServer.RoomRegistry` is a class holding the table and an outbox
    of every emit.
  - A JavaScript `Map` iterates in insertion order, and `disconnect` emits in
    that order. So the table is the sequence of its entries, with no room id
    appearing twice (`WellFormed`).
- **The peer connection helpers** (`client/src/utils/webrtc.js`). The browser's
  `RTCPeerConnection` is the class `PeerConnections.PeerConnection`:
  - its senders, in order;
  - its local and remote descriptions;
  - the remote candidates it accepted;
  - a closed flag.

  What the browser would compute (an SDP, a rejection) is a parameter of each
  method.
- **The call view** (`client/src/components/VideoCall.jsx`).
  - `VideoCall.CallSession` holds the component's state and refs, and each
    handler is a method on it:
    - the signalling handlers registered by `startCall`;
    - the connection callbacks;
    - the call timer and the stats sampler;
    - `cleanup`;
    - `toggleScreenShare`.
  - `CallMetrics` holds the pure parts: the byte totals of a stats sample, the
    quality ladder, and the call clock `formatDuration`.
- **Link detection** (`client/src/utils/linkUtils.jsx`).
  - `LinkDetection` follows the regular expression `https?://` followed by a
    maximal run of non-whitespace characters, with the leftmost match taken
    first.
  - `detectLinks` is the `exec` loop.
  - `renderTextWithLinks` splits text into text parts and anchor parts.
- **File helpers** (`client/src/utils/fileUtils.js`). `FileTypes` covers:
  - the MIME category;
  - the icon;
  - the size bound;
  - the image whitelist;
  - the zero case of `formatFileSize`.
- **Voice recording** (`client/src/utils/voiceUtils.js`).
  `VoiceRecording.VoiceRecorder` holds the module-level `mediaRecorder` and
  `audioChunks`. The module also has the `MM:SS` formatter.
- **The chat panel** (`client/src/components/Chat.jsx`).
  - `ChatPanel.ChatState` holds the message list, the input box and the emits.
  - Encryption and decryption are parameters: uninterpreted functions that
    may fail.

Shared pieces:

- `Wrappers` has `Option` and `Result`.
- `JsText` has the JavaScript `\s` class, `trim`-emptiness, `startsWith` and
  `includes`.
- `DurationText` has `toString().padStart(2, '0')` and the decimal reading
  used to state the round trips of both duration formatters.

## Model

| member | source | states |
|---|---|---|
| `SignalingServer.IndexOf` | server/index.js:28 | The table has an entry for the room id exactly when a position is found. The position found holds that room id. |
| `SignalingServer.RoomRegistry.constructor` | server/index.js:19 | The server starts with no rooms and nothing emitted. |
| `SignalingServer.RoomRegistry.JoinRoom` | server/index.js:25-41 | A join keeps the table well formed (no duplicate rooms, no empty room). It creates the room if absent and adds the joiner. It emits `user-joined` to the other members of the room, then `room-users` to the joiner, listing every member except the joiner. |
| `SignalingServer.RoomRegistry.Forward` | server/index.js:44-73 | `offer`, `answer`, `ice-candidate` and `chat-message` leave the table alone. They emit the payload unchanged, tagged with the sender, to every member of the named room except the sender. The sender's own membership is not required. |
| `SignalingServer.RoomRegistry.Disconnect` | server/index.js:76-91 | The loop over the rooms removes the socket from every room and deletes rooms that became empty. It emits one `user-left` per room that held the socket, in table order. The table stays well formed. |
| `SignalingServer.RoomRegistry.LeaveAt` | server/index.js:81-88 | One loop step: the visited entry loses the socket, or is removed when it empties. The entries after it are untouched. Its notice, if any, is appended. |
| `SignalingServer.JoinWellFormed` | server/index.js:28-31 | Joining never creates a second entry for a room id and never leaves a room empty. |
| `SignalingServer.LeaveWellFormed` | server/index.js:80-90 | Removing a socket from every room keeps room ids unique and leaves no empty room behind. |
| `SignalingServer.UpdateWellFormed` | server/index.js:31 | Changing one room's non-empty member set in place keeps the table well formed. |
| `SignalingServer.LeaveKeepsIds` | server/index.js:80-90 | A disconnect never brings a room into existence. |
| `SignalingServer.JoinMembers` | server/index.js:28-31 | After a join (`AfterJoin`), the joined room exists and has the joiner added. Every other room is unchanged and no room is lost. |
| `SignalingServer.JoinIdempotent` | server/index.js:31 | A second join of the same room by the same socket leaves the table as the first join left it. |
| `SignalingServer.LeaveMembers` | server/index.js:80-90 | After a disconnect (`AfterLeave`), each room's members are its old members without the socket. A room survives exactly when it existed and did not hold only that socket. |
| `SignalingServer.RejoinEmptiedRoom` | server/index.js:86-88 | A room whose last member leaves is deleted, so the next join of that id starts a fresh room holding only the joiner. |
| `SignalingServer.LeftNoticesExact` | server/index.js:81-83 | Every disconnect notice is `user-left` for the socket and goes to the rest of a room that held it, never to the socket itself. Every room that held the socket gets such a notice. |
| `SignalingServer.HoldingExact` | server/index.js:80-81 | `Holding` lists the positions of exactly the rooms that hold the socket, each once, in increasing table order. |
| `SignalingServer.LeftNoticesPerRoom` | server/index.js:80-83 | There are exactly as many notices as rooms holding the socket. The k-th notice goes to the other members of the k-th such room, in table order. |
| `SignalingServer.LeftNotices` | server/index.js:80-89 | A disconnect sends at most one notice per room. |
| `SignalingServer.TwoPeersJoin` | server/index.js:25-41 | Two sockets joining an empty server leave one room with both. The emits are the empty `room-users` for the first socket, `user-joined` to the first, and `room-users` naming the first for the second. |
| `SignalingServer.TwoPeerHandshake` | server/index.js:44-57 | After two joins, an offer from the joiner and an answer from the first produce exactly the expected emit sequence. |
| `SignalingServer.HandshakeHeard` | server/index.js:37-57 | In that exchange, each socket receives exactly its side: the first hears the empty room, the joiner and the offer; the second hears the room's member and the answer. |
| `PeerConnections.FirstVideoTrack` | client/src/components/VideoCall.jsx:240 | The result is the first video track of the stream, and there is none exactly when no track is video. |
| `PeerConnections.FirstVideoSender` | client/src/utils/webrtc.js:61-62 | The sender found is the first one whose track is video. Senders with a null track never match, and none is found exactly when no sender sends video. |
| `PeerConnections.FirstVideoSenderIs` | client/src/utils/webrtc.js:61-62 | A video sender with no video sender before it is the one `find` returns. |
| `PeerConnections.SendersForTracks` | client/src/utils/webrtc.js:76-80 | `addLocalStream` yields one sender per track, in the stream's track order, each tagged with the stream. |
| `PeerConnections.SendersFor` | client/src/utils/webrtc.js:76-80 | The senders `addLocalStream` creates are exactly as many as the stream's tracks. |
| `PeerConnections.ReplaceSendsNewTrack` | client/src/utils/webrtc.js:60-69 | After `replaceVideoTrack`, the first video sender sends the new track. One sender is appended exactly when none sent video before. Every other sender is unchanged. |
| `PeerConnections.WithVideoTrack` | client/src/utils/webrtc.js:60-69 | `replaceVideoTrack` never removes a sender and adds at most one. |
| `PeerConnections.ReplaceIdempotent` | client/src/utils/webrtc.js:60-69 | Replacing with the same track twice is the same as once. |
| `PeerConnections.ScreenShareRoundTrip` | client/src/utils/webrtc.js:60-69 | Swapping the screen track in and then the camera track back restores the original senders exactly. |
| `PeerConnections.CameraSendsFirstVideoTrack` | client/src/utils/webrtc.js:76-80 | After adding a camera stream, the first video sender sends that stream's first video track. |
| `PeerConnections.PeerConnection.constructor` | client/src/utils/webrtc.js:16-18 | A new connection is configured with the two STUN servers, has no senders and no descriptions, and is open. |
| `PeerConnections.PeerConnection.AddTrack` | client/src/utils/webrtc.js:67 | One sender carrying the track is appended and nothing else changes. |
| `PeerConnections.PeerConnection.ReplaceVideoTrack` | client/src/utils/webrtc.js:60-69 | The senders become the replaced senders above, and the descriptions and candidates are untouched. |
| `PeerConnections.PeerConnection.AddLocalStream` | client/src/utils/webrtc.js:76-80 | One sender per track of the stream is appended, in order, and nothing else changes. |
| `PeerConnections.PeerConnection.CreateOffer` | client/src/utils/webrtc.js:87-96 | The offer succeeds exactly when it is generated and accepted as local description. The returned offer is the one installed. Either error is rethrown with the local description unchanged. |
| `PeerConnections.PeerConnection.CreateAnswer` | client/src/utils/webrtc.js:104-114 | The offer becomes the remote description before the answer is made. The answer returned is the one installed locally. A failure at any of the three steps is rethrown, and later steps do not happen. |
| `PeerConnections.PeerConnection.SetRemoteDescription` | client/src/utils/webrtc.js:121-128 | The description is installed unless it is rejected, and the rejection is rethrown. |
| `PeerConnections.PeerConnection.AddIceCandidate` | client/src/utils/webrtc.js:135-143 | A candidate is added only when present and accepted. A missing candidate changes nothing, and a failure is swallowed. |
| `PeerConnections.PeerConnection.Close` | client/src/utils/webrtc.js:152 | The connection ends closed with everything else unchanged. |
| `PeerConnections.CleanupPeerConnection` | client/src/utils/webrtc.js:149-154 | It throws exactly when there is a connection without `getTracks`, and then changes nothing. Otherwise a present connection ends closed, with its descriptions and candidates unchanged. |
| `CallMetrics.TotalsAdd` | client/src/components/VideoCall.jsx:196-203 | The received and sent totals (`ReceivedTotal`, `SentTotal`) of a sample are the sums of the totals of its two parts. |
| `CallMetrics.TotalsSwap` | client/src/components/VideoCall.jsx:196-203 | Two blocks of reports give the same totals in either order. |
| `CallMetrics.OtherReportsIgnored` | client/src/components/VideoCall.jsx:197-202 | Reports that are not inbound or outbound video contribute no bytes. |
| `CallMetrics.SumVideoBytes` | client/src/components/VideoCall.jsx:193-203 | The `forEach` loop computes the received-video and sent-video totals. A missing count counts as zero. |
| `CallMetrics.Rank` | client/src/components/VideoCall.jsx:207-215 | The four qualities sit on rungs 0 to 3. |
| `CallMetrics.QualityByLargerCount` | client/src/components/VideoCall.jsx:207-215 | The ladder `QualityFor` reaches a rung exactly when the larger of the two counts exceeds that rung's threshold (100000, 500000, 1000000). |
| `CallMetrics.QualityMonotone` | client/src/components/VideoCall.jsx:207-215 | More bytes in either direction never lower the quality. |
| `CallMetrics.ShortClock` | client/src/components/VideoCall.jsx:228-230 | An `MM:SS` clock splits into its two padded fields and reads back as minutes·60 + seconds. |
| `CallMetrics.LongClock` | client/src/components/VideoCall.jsx:227-228 | An `HH:MM:SS` clock splits into its three fields and reads back as hours·3600 + minutes·60 + seconds. |
| `CallMetrics.CallDurationRoundTrip` | client/src/components/VideoCall.jsx:222-231 | The clock has three fields exactly from one hour on and two below. It reads back as the seconds it was made from. |
| `CallMetrics.CallDurationInjective` | client/src/components/VideoCall.jsx:222-231 | Different durations never show the same clock. |
| `DurationText.FieldRoundTrip` | client/src/components/VideoCall.jsx:228-230 | A field `n.toString().padStart(2, '0')` (`Field`) is all digits, at least two long and exactly two below 100, and reads back as `n`. |
| `DurationText.ToDecimal` | client/src/components/VideoCall.jsx:228-230 | `toString()` of a whole number is a non-empty string of digits, one digit exactly below 10, with no leading zero above. |
| `CallMetrics.FormatCallDuration` | client/src/components/VideoCall.jsx:222-231 | Below one hour the clock is five characters with a colon in the middle. From one hour on it is at least eight, with colons three and six characters from the end. |
| `VideoCall.CallSession.constructor` | client/src/components/VideoCall.jsx:20-38 | The view mounts with a socket, no connection, no streams and no timers, and shows "Connecting..." and the loading state. |
| `VideoCall.CallSession.StartCall` | client/src/components/VideoCall.jsx:81-181 | A refused camera shows "Error", ends loading and registers nothing. Otherwise the connection is created with the STUN servers and every local track. A socket then gets exactly one `join-room` and the handlers are registered. |
| `VideoCall.CallSession.OpenConnection` | client/src/components/VideoCall.jsx:89-93 | A fresh open connection sends every local track, in order. |
| `VideoCall.CallSession.SendOffer` | client/src/components/VideoCall.jsx:139-143 | Exactly one offer is emitted when it is made, and it is the one installed as local description. A failed offer emits nothing. |
| `VideoCall.CallSession.OnRoomUsers` | client/src/components/VideoCall.jsx:136-145 | A non-empty `room-users` list produces exactly one offer, and that offer becomes the local description. An empty list produces nothing. The senders, the remote description, the candidates and the closed flag are untouched. |
| `VideoCall.CallSession.OnUserJoined` | client/src/components/VideoCall.jsx:148-155 | Every `user-joined` produces exactly one offer, and that offer becomes the local description. The senders, the remote description, the candidates and the closed flag are untouched. |
| `VideoCall.CallSession.OnOffer` | client/src/components/VideoCall.jsx:158-164 | Every offer is answered, whatever the state of the connection. The offer becomes the remote description unless rejected. The answer is installed as the local description and emitted when all three steps succeed. The senders, the candidates and the closed flag are untouched. |
| `VideoCall.CallSession.OnAnswer` | client/src/components/VideoCall.jsx:167-169 | The answer becomes the remote description unless it is rejected. The senders, the local description, the candidates and the closed flag are untouched. |
| `VideoCall.CallSession.OnRemoteIceCandidate` | client/src/components/VideoCall.jsx:172-174 | A remote candidate goes straight to the connection, with no queue. The senders, both descriptions and the closed flag are untouched. |
| `VideoCall.CallSession.OnLocalIceCandidate` | client/src/components/VideoCall.jsx:103-110 | A local candidate is emitted only when it is present and there is a socket. |
| `VideoCall.CallSession.OnTrack` | client/src/components/VideoCall.jsx:96-100 | The remote view shows the event's first stream, the status becomes "Connected" and loading ends. |
| `VideoCall.CallSession.StartCallTimer` | client/src/components/VideoCall.jsx:183-187 | A new interval is set and held by the call-timer ref. The live intervals stay exactly those held by the refs. |
| `VideoCall.CallSession.StartStatsMonitoring` | client/src/components/VideoCall.jsx:189-220 | A new interval is set and held by the stats ref, with the same invariant. |
| `VideoCall.CallSession.StopCallTimer` | client/src/components/VideoCall.jsx:40-45 | The ref ends null and its interval, if any, is cleared. It does nothing when already null. |
| `VideoCall.CallSession.StopStatsMonitoring` | client/src/components/VideoCall.jsx:47-52 | The same for the stats interval. |
| `VideoCall.CallSession.OnConnectionStateChange` | client/src/components/VideoCall.jsx:113-129 | On `connected`, each timer starts only if its ref is null, so a repeated `connected` adds no interval. On `disconnected` or `failed`, both refs end null with no live interval and the status is "Connection Lost". Any other state shows the raw state string. |
| `VideoCall.CallSession.OnIntervalTick` | client/src/components/VideoCall.jsx:183-220 | A call-timer tick adds one second. A stats tick sets the quality from the sample's totals. A failed `getStats` leaves the quality as it was. |
| `VideoCall.CallSession.StopTracks` | client/src/components/VideoCall.jsx:60-68 | The stream's tracks are stopped. |
| `VideoCall.CallSession.StopStreams` | client/src/components/VideoCall.jsx:59-69 | The camera and the screen capture are stopped, in that order, and both refs end null. A stopped capture never fires `ended`, so no screen-end handler is left armed. |
| `VideoCall.CallSession.ReleaseMedia` | client/src/components/VideoCall.jsx:54-69 | The timers are cleared with no live interval left, then the streams are stopped and released. |
| `VideoCall.CallSession.Cleanup` | client/src/components/VideoCall.jsx:54-79 | Timers and streams are always released and no screen-end handler stays armed. The rest completes exactly when there is no connection or it has `getTracks`. Completing closes the connection, nulls its ref and disconnects the socket, and leaves its senders, descriptions and candidates as they were. Otherwise both are left as they were. |
| `VideoCall.CallSession.StartSharing` | client/src/components/VideoCall.jsx:235-255 | A refused capture turns sharing off and changes nothing else. A capture is kept in its ref. With both a connection and a camera stream, its video track replaces the sent video, sharing turns on and the rest of the connection stays as it was. Without both, the connection is untouched. |
| `VideoCall.CallSession.StopSharing` | client/src/components/VideoCall.jsx:256-275 | Stopping always ends with sharing off, the capture ref null, its tracks stopped and no screen-end handler armed. With a connection and a camera stream, the camera's video track is sent again and nothing else on the connection changes. Otherwise the connection is untouched. |
| `VideoCall.CallSession.ToggleScreenShare` | client/src/components/VideoCall.jsx:233-280 | Stopping always ends not sharing with no capture held and no handler armed. It logs the capture as stopped and restores the camera's video track exactly as StopSharing does. Starting turns sharing on only with both a connection and a camera stream, and then the screen track is what is sent. Any error leaves it off, and a refused capture leaves the connection untouched. |
| `VideoCall.CallSession.OnScreenTrackEnded` | client/src/components/VideoCall.jsx:252-254 | As written, the handler re-enters the start branch. A dismissed prompt turns sharing off but keeps the capture and changes no sender. |
| `VideoCall.CallSession.OnScreenTrackEndedFixed` | client/src/components/VideoCall.jsx:256-275 | The intended handler stops sharing, logs and releases the capture, disarms itself and sends the camera track again, with the rest of the connection unchanged. |
| `VideoCall.ScreenShareEndedAsWritten` | client/src/components/VideoCall.jsx:233-280 | Call, share, then end the share from the browser and dismiss the prompt: sharing is off, yet the capture is still held and the connection does not send the camera tracks. |
| `VideoCall.ScreenShareEndedFixed` | client/src/components/VideoCall.jsx:233-280 | The same sequence with the intended handler ends with the capture released and the connection sending exactly the camera's senders again. |
| `LinkDetection.RunLengthShape` | client/src/utils/linkUtils.jsx:13 | The `[^\s]+` run holds no whitespace (`IsWhitespace`, the `\s` class) and is maximal: it stops at the end of the text or at a whitespace character. |
| `LinkDetection.SchemeLength` | client/src/utils/linkUtils.jsx:13 | A scheme match is 0, 7 or 8 characters long and starts with `h`. |
| `LinkDetection.SchemeOccurs` | client/src/utils/linkUtils.jsx:13 | The scheme is 7 long exactly when `http://` occurs there, and 8 long exactly when `https://` does. |
| `LinkDetection.MatchAt` | client/src/utils/linkUtils.jsx:13 | A match is longer than 7 characters and fits in the text. |
| `LinkDetection.MatchAtShape` | client/src/utils/linkUtils.jsx:13 | The regular expression matches at a position exactly when a scheme occurs there followed by at least one non-whitespace character. The match spans the scheme and the maximal run. |
| `LinkDetection.MatchStartsWithH` | client/src/utils/linkUtils.jsx:13 | A match starts with the letter `h`. |
| `LinkDetection.Exec` | client/src/utils/linkUtils.jsx:17-23 | `exec` returns a match within the text at or after `lastIndex`. Its url is the matched text and its end is start plus the url's length. |
| `LinkDetection.ExecLeftmost` | client/src/utils/linkUtils.jsx:17 | `exec` finds the leftmost match at or after `lastIndex`, and returns nothing exactly when none exists. |
| `LinkDetection.DetectLinks` | client/src/utils/linkUtils.jsx:12-27 | The `while` loop collects exactly the matches that repeated `exec` calls would yield. |
| `LinkDetection.Links` | client/src/utils/linkUtils.jsx:17-24 | The links found from a position number at most one per eight remaining characters, since each match is at least eight long and they do not overlap. |
| `LinkDetection.HasLinks` | client/src/utils/linkUtils.jsx:34-36 | `hasLinks` holds exactly when the pattern matches somewhere in the text. |
| `LinkDetection.HasLinksIffDetected` | client/src/utils/linkUtils.jsx:34-36 | `hasLinks` holds exactly when `detectLinks` returns a non-empty list. |
| `LinkDetection.LinksAreMatches` | client/src/utils/linkUtils.jsx:18-23 | Every detected link is a real match whose url is the text between its start and end. |
| `LinkDetection.LinksIncreasing` | client/src/utils/linkUtils.jsx:13-17 | Detected links are in strictly increasing order and do not overlap. |
| `LinkDetection.LinkShape` | client/src/utils/linkUtils.jsx:13-22 | A detected link starts with `http://` or `https://` and has at least one character after the scheme. It holds no whitespace, ends at start plus its length, and is maximal. |
| `LinkDetection.LinksComplete` | client/src/utils/linkUtils.jsx:17-24 | Every position where the pattern matches lies inside some detected link, so no link is missed. |
| `LinkDetection.LinksSpan` | client/src/utils/linkUtils.jsx:17-24 | The detected links are ordered, non-overlapping spans of the text equal to their urls. |
| `LinkDetection.RenderTextWithLinks` | client/src/utils/linkUtils.jsx:43-94 | An absent or empty text gives one empty span, and text without links gives one span of the whole text. Otherwise the parts concatenate back to the text, the anchors are the detected urls in order, and every text part is non-empty and sits between anchors. |
| `LinkDetection.SplitAtLinks` | client/src/utils/linkUtils.jsx:54-91 | The `forEach` loop and the trailing text produce parts that rebuild the text exactly, with the link urls as anchors in order. |
| `LinkDetection.PushLink` | client/src/utils/linkUtils.jsx:59-81 | One step adds the non-empty text before the link, then the link. The parts then rebuild the text up to the link's end. |
| `LinkDetection.PushText` | client/src/utils/linkUtils.jsx:84-91 | The text between the last link and a position is added as one part only when non-empty, so the parts rebuild the text up to that position and no text part follows another. |
| `LinkDetection.AppendPart` | client/src/utils/linkUtils.jsx:54-91 | Appending a part extends the rebuilt text by what it shows and the anchor list by its href. It keeps texts separated exactly when the new part is an anchor or a non-empty text after an anchor. |
| `FileTypes.GetFileCategory` | client/src/utils/fileUtils.js:27-33 | The category is one of the five names. Each media prefix gives its category, with the prefixes tried before the keywords. `document` holds exactly when no prefix matched and the type mentions `pdf`, `document` or `text`. |
| `FileTypes.PrefixBeforeKeyword` | client/src/utils/fileUtils.js:28-31 | `video/x-pdf` is a video although it mentions `pdf`. `text/plain` and `application/pdf` are documents. |
| `FileTypes.GetFileIcon` | client/src/utils/fileUtils.js:53-63 | The icon is the one of the computed category and is never empty. |
| `FileTypes.IconsDistinct` | client/src/utils/fileUtils.js:55-61 | Every category has a non-empty icon and no two categories share one. |
| `FileTypes.ValidateFileSize` | client/src/utils/fileUtils.js:70-73 | A file is accepted exactly when it is at most 10485760 bytes. |
| `FileTypes.ValidateImage` | client/src/utils/fileUtils.js:80-83 | An image is accepted exactly when its type is one of the five listed. |
| `FileTypes.ValidImageIsImage` | client/src/utils/fileUtils.js:80-83 | Every accepted image type is categorised as an image and gets the image icon. |
| `FileTypes.FormatFileSize` | client/src/utils/fileUtils.js:41 | Zero bytes format as "0 Bytes". |
| `VoiceRecording.NonEmpty` | client/src/utils/voiceUtils.js:18-22 | The kept chunks all carry data, come from what was delivered, and are no more numerous. |
| `VoiceRecording.NonEmptyKeepsAll` | client/src/utils/voiceUtils.js:18-22 | When every delivered chunk carries data, all are kept in arrival order. |
| `VoiceRecording.NonEmptyIdempotent` | client/src/utils/voiceUtils.js:18-22 | Filtering the kept chunks again changes nothing. |
| `VoiceRecording.VoiceRecorder.constructor` | client/src/utils/voiceUtils.js:5-6 | The module loads with no recorder and an empty buffer. |
| `VoiceRecording.VoiceRecorder.StartRecording` | client/src/utils/voiceUtils.js:12-30 | A refused microphone is rethrown with nothing changed. Otherwise a recording recorder is returned and the buffer is reset to empty. |
| `VoiceRecording.VoiceRecorder.OnDataAvailable` | client/src/utils/voiceUtils.js:18-22 | A chunk is appended only when it carries data, and arrival order is kept. |
| `VoiceRecording.VoiceRecorder.StopRecording` | client/src/utils/voiceUtils.js:36-58 | It rejects with nothing changed when there is no recorder or it is inactive. Otherwise the blob holds exactly the kept chunks in order, typed `audio/webm`. The microphone is stopped, and the recorder and buffer end empty. |
| `VoiceRecording.RecordTwiceStopped` | client/src/utils/voiceUtils.js:36-58 | A recording's blob is exactly its delivered chunks with data, and a second stop after a completed one rejects. |
| `VoiceRecording.VoiceDurationRoundTrip` | client/src/utils/voiceUtils.js:82-86 | The label has two fields, the minutes grow beyond two digits exactly from 100 minutes on, and it reads back as the seconds it was made from. |
| `VoiceRecording.VoiceDurationInjective` | client/src/utils/voiceUtils.js:82-86 | Different lengths never show the same label. |
| `VoiceRecording.FormatVoiceDuration` | client/src/utils/voiceUtils.js:82-86 | The label is at least five characters with a colon three from the end. It is exactly five characters below 100 minutes. |
| `ChatPanel.ChatState.constructor` | client/src/components/Chat.jsx:7-10 | The panel starts with an empty input, no messages and nothing sent. |
| `ChatPanel.ChatState.Type` | client/src/components/Chat.jsx:8 | The input box holds what was typed. |
| `ChatPanel.ChatState.HandleSendMessage` | client/src/components/Chat.jsx:39-61 | Blank input, a missing socket or a failed encryption changes and emits nothing. Otherwise exactly one `chat-message` carrying the ciphertext is emitted, the untrimmed input is appended as an own message, and the input is cleared. |
| `JsText.Trim` | client/src/components/Chat.jsx:41 | `trim()` is empty exactly when every character is whitespace (`IsBlank`), which is the test the send handler applies. A non-empty result has no whitespace at either end. |
| `ChatPanel.ChatState.HandleChatMessage` | client/src/components/Chat.jsx:12-27 | A received message is decrypted with the room id and appended as someone else's. A failed decryption, or a panel without a socket, leaves the list unchanged. |
| `ChatPanel.SendAndReceive` | client/src/components/Chat.jsx:14-56 | When decryption inverts encryption, a non-blank message shows up on the sender's side as its own and on the receiver's side as the same text from someone else. Blank input reaches neither side. |

## Left out

- Browser media capture (`getUserMedia`, `getDisplayMedia`) and the inside of `RTCPeerConnection` (SDP content, ICE and STUN behaviour) are not modelled. Each outcome they produce (a stream, an SDP, a rejection) is a parameter of the method that receives it.
- `getStats` is a parameter of the stats tick: the sample, or `None` when it rejects.
- The socket.io transport and `client/src/utils/socket.js` are not modelled. The server's emits are recorded as deliveries to sets of sockets, the view's socket is a flag that `disconnectSocket` clears, and the relay between the two sides is the caller's job in the scenario members.
- The asynchronous interleaving of awaited handlers, real timer timing, and the 100 ms delay in `handleEndCall` are not modelled. Each handler runs to completion as one method call, and an interval tick is an explicit call.
- `client/src/utils/encryption.js` is not part of this model. Encryption and decryption are uninterpreted functions that may fail.
- `formatFileSize` for non-zero sizes is not modelled, because it uses `Math.log` and `Math.pow` on floating point. `fileToBase64` and `blobToBase64` are not modelled, because they are `FileReader` I/O.
- `Home.jsx`, `MessageOptions.jsx`, `App.jsx`, the JSX markup and the DOM (`srcObject`, scrolling, `alert`, `console`) are not modelled. They are presentation only.
- SignalingServer.RoomRegistry.JoinRoom: the `room-users` list is an array in insertion order in the source; the model keeps it as a set of socket ids, so its order is not stated.
- JavaScript strings are sequences of UTF-16 code units; the model's strings are sequences of Dafny characters, and the `\s` class is stated for the characters it names.
- LinkDetection.RenderTextWithLinks: a truthy input that is not a string is not modelled (the input is an optional string); the JSX keys and attributes are not modelled.
- Timestamps (`new Date()`) are a `now` parameter.
- Stopping a track is recorded as the stream id appended to a `stoppedStreams` log.
- VoiceRecording.VoiceRecorder.StopRecording: the recorder's `onerror` rejection path is not modelled; stopping an active recorder always ends in `onstop`.
- VoiceRecording.VoiceRecorder.StartRecording: a second start while recording replaces the recorder without stopping the old one's microphone; the old recorder's late chunks are not modelled.
- PeerConnections.PeerConnection.ReplaceVideoTrack: the promise `replaceTrack` returns is not awaited by the source and its rejection is not modelled; adding or replacing a track on a closed connection is not modelled either.
- VideoCall.CallSession.ToggleScreenShare: a screen capture without a video track is excluded by a requires (the source would then replace the video with an undefined track and throw when registering `onended`); the same holds for StartSharing and OnScreenTrackEnded.
- VideoCall.CallSession.StartCall: the call is started once per mounted view (requires no connection yet), as the source's effect does.
- VideoCall.CallSession.OnScreenTrackEnded: its ensures covers only the dismissed-prompt path; a second successful capture is what StartSharing states.
- Fractional seconds are not modelled by either duration formatter; the inputs are whole seconds.
- SignalingServer.RoomRegistry.Forward / JoinRoom: socket.io also puts every socket in a private room named by its own id, so `socket.to(roomId)` reaches socket B when `roomId` is B's id. The model has only the rooms that `join-room` creates, so such a relay delivers nothing in the model.
- JavaScript numbers are IEEE doubles. The model uses unbounded integers, so byte counts and durations above 2^53 lose precision in the source but not in the model. `toString` switches to exponent form from 1e21 on, which the model's decimal text does not follow.
- CallMetrics: the report's `mediaType` is compared with "video" as a string; other report fields are not modelled.

## Findings

| source | as written | input that shows it | evidently intended | confidence | as-written member | corrected member |
|---|---|---|---|---|---|---|
| client/src/components/VideoCall.jsx:252-254 | The screen track's `onended` handler calls the `toggleScreenShare` of the render that registered it. In that render `isScreenSharing` was still false, so ending the share from the browser runs the start branch again and asks for a new capture. | Start a call with a camera, share the screen, end the share from the browser's own control, then dismiss the new prompt. Sharing shows off, but the connection still sends the ended screen track, the camera is not restored, and the capture stays in its ref. | Ending the track should run the stop branch: stop the capture, clear the ref and send the camera's video track again. | not executed | `VideoCall.ScreenShareEndedAsWritten` | `VideoCall.ScreenShareEndedFixed` |
