/** Voice messages: the module-level recorder and its chunk buffer, and the
    `MM:SS` length label. */
module VoiceRecording {
  import opened Wrappers
  import opened DurationText

  /** The states of a `MediaRecorder`. */
  datatype RecorderState = Inactive | Recording | Paused

  /** A recorder over the microphone stream `streamId`. */
  datatype Recorder = Recorder(streamId: string, state: RecorderState)

  /** A piece of recorded audio as `ondataavailable` delivers it. */
  datatype Chunk = Chunk(id: nat, size: nat)

  /** The recording handed back by `stopRecording`. */
  datatype Blob = Blob(chunks: seq<Chunk>, mimeType: string)

  /** The chunks worth keeping, in arrival order: those with data. */
  function NonEmpty(delivered: seq<Chunk>): (kept: seq<Chunk>)
    ensures |kept| <= |delivered|
    ensures forall i :: 0 <= i < |kept| ==> kept[i].size > 0
    ensures forall c :: c in kept ==> c in delivered
  {
    if delivered == [] then []
    else
      var last := delivered[|delivered| - 1];
      NonEmpty(delivered[..|delivered| - 1]) + (if last.size > 0 then [last] else [])
  }

  /** Chunks that all carry data are all kept, in the same order. */
  lemma {:induction false} NonEmptyKeepsAll(delivered: seq<Chunk>)
    requires forall i :: 0 <= i < |delivered| ==> delivered[i].size > 0
    ensures NonEmpty(delivered) == delivered
  {
    if delivered != [] {
      NonEmptyKeepsAll(delivered[..|delivered| - 1]);
    }
  }

  /** Empty chunks leave no trace: dropping them first changes nothing. */
  lemma {:induction false} NonEmptyIdempotent(delivered: seq<Chunk>)
    ensures NonEmpty(NonEmpty(delivered)) == NonEmpty(delivered)
  {
    NonEmptyKeepsAll(NonEmpty(delivered));
  }

  /** The recorder state of `voiceUtils.js`: `mediaRecorder` and
      `audioChunks`, plus the chunks delivered since the last start. */
  class VoiceRecorder {
    var mediaRecorder: Option<Recorder>
    var audioChunks: seq<Chunk>
    /** Every chunk `ondataavailable` delivered since the buffer was last reset. */
    ghost var delivered: seq<Chunk>
    /** The microphone streams whose tracks were stopped, in order. */
    var stoppedStreams: seq<string>

    /** The buffer holds exactly the delivered chunks that carry data. */
    ghost predicate Valid()
      reads this
    {
      audioChunks == NonEmpty(delivered)
    }

    /** The module as loaded: no recorder and an empty buffer. */
    constructor()
      ensures Valid()
      ensures mediaRecorder == None && audioChunks == [] && stoppedStreams == []
    {
      mediaRecorder := None;
      audioChunks := [];
      delivered := [];
      stoppedStreams := [];
    }

    /** `startRecording()` given what `getUserMedia` produced: on success a
        new recording recorder over the stream and an empty buffer; a refused
        microphone is rethrown and changes nothing. */
    method StartRecording(microphone: Result<string>) returns (r: Result<Recorder>)
      requires Valid()
      modifies this
      ensures Valid()
      ensures microphone.Err? ==> r == Err(microphone.error) && unchanged(this)
      ensures microphone.Ok? ==>
        && r == Ok(Recorder(microphone.value, Recording))
        && mediaRecorder == Some(Recorder(microphone.value, Recording))
        && audioChunks == [] && delivered == [] && stoppedStreams == old(stoppedStreams)
    {
      if microphone.Err? {
        return Err(microphone.error);
      }
      var recorder := Recorder(microphone.value, Inactive);
      mediaRecorder := Some(recorder);
      audioChunks := [];
      delivered := [];
      // `mediaRecorder.start()`
      recorder := recorder.(state := Recording);
      mediaRecorder := Some(recorder);
      return Ok(recorder);
    }

    /** `ondataavailable`: keep the chunk at the end of the buffer when it
        carries data, ignore it otherwise. */
    method OnDataAvailable(chunk: Chunk)
      requires Valid()
      modifies this`audioChunks, this`delivered
      ensures Valid()
      ensures audioChunks == old(audioChunks) + (if chunk.size > 0 then [chunk] else [])
      ensures delivered == old(delivered) + [chunk]
    {
      delivered := delivered + [chunk];
      assert delivered[..|delivered| - 1] == old(delivered);
      if chunk.size > 0 {
        audioChunks := audioChunks + [chunk];
      }
    }

    /** `stopRecording()`. Without a recorder, or with an inactive one, it
        rejects and changes nothing. Otherwise stopping delivers the last
        chunk (`finalChunk`, when the browser has one), and `onstop` resolves
        with every kept chunk in order, stops the microphone and empties
        both the recorder and the buffer. */
    method StopRecording(finalChunk: Option<Chunk>) returns (r: Result<Blob>)
      requires Valid()
      modifies this
      ensures Valid()
      ensures old(mediaRecorder).None? || old(mediaRecorder).value.state == Inactive ==>
        r == Err("No active recording") && unchanged(this)
      ensures old(mediaRecorder).Some? && old(mediaRecorder).value.state != Inactive ==>
        && r.Ok? && r.value.mimeType == "audio/webm"
        && r.value.chunks == old(audioChunks) + (if finalChunk.Some? && finalChunk.value.size > 0 then [finalChunk.value] else [])
        && r.value.chunks == NonEmpty(old(delivered) + (if finalChunk.Some? then [finalChunk.value] else []))
        && mediaRecorder == None && audioChunks == []
        && stoppedStreams == old(stoppedStreams) + [old(mediaRecorder).value.streamId]
    {
      if mediaRecorder.None? || mediaRecorder.value.state == Inactive {
        return Err("No active recording");
      }
      if finalChunk.Some? {
        OnDataAvailable(finalChunk.value);
      } else {
        assert delivered + [] == delivered;
      }
      var audioBlob := Blob(audioChunks, "audio/webm");
      stoppedStreams := stoppedStreams + [mediaRecorder.value.streamId];
      mediaRecorder := None;
      audioChunks := [];
      delivered := [];
      return Ok(audioBlob);
    }
  }

  /** A stop right after a completed stop rejects, and a recording's blob
      holds exactly the chunks with data, in the order they arrived. */
  method RecordTwiceStopped(microphone: string, chunks: seq<Chunk>) returns (first: Result<Blob>, second: Result<Blob>)
    ensures first == Ok(Blob(NonEmpty(chunks), "audio/webm"))
    ensures second == Err("No active recording")
  {
    var voice := new VoiceRecorder();
    var started := voice.StartRecording(Ok(microphone));
    for i := 0 to |chunks|
      invariant voice.Valid()
      invariant voice.mediaRecorder == Some(Recorder(microphone, Recording))
      invariant voice.delivered == chunks[..i]
    {
      voice.OnDataAvailable(chunks[i]);
      assert chunks[..i + 1] == chunks[..i] + [chunks[i]];
    }
    assert chunks[..|chunks|] == chunks;
    first := voice.StopRecording(None);
    assert chunks + [] == chunks;
    second := voice.StopRecording(None);
  }

  /** `formatDuration(seconds)`: whole minutes and the seconds left over,
      each padded to two digits; minutes are not capped. */
  function FormatVoiceDuration(seconds: nat): (shown: string)
    ensures |shown| >= 5 && shown[|shown| - 3] == ':'
    ensures |shown| == 5 <==> seconds < 6000
  {
    FieldRoundTrip(seconds / 60);
    FieldRoundTrip(seconds % 60);
    Field(seconds / 60) + ":" + Field(seconds % 60)
  }

  /** Reads an `MM:SS` label back: at least two digits of minutes, then two
      digits of seconds below 60. */
  function ParseMinSec(s: string): Option<nat>
  {
    var f := SplitColons(s);
    if |f| == 2 && AllDigits(f[0]) && AllDigits(f[1]) && |f[0]| >= 2 && |f[1]| == 2 && Value(f[1]) < 60
    then Some(Value(f[0]) * 60 + Value(f[1]))
    else None
  }

  /** The label always has two fields, the minutes take more than two digits
      exactly from 100 minutes on, and the label reads back as the seconds it
      was made from. */
  lemma VoiceDurationRoundTrip(seconds: nat)
    ensures |SplitColons(FormatVoiceDuration(seconds))| == 2
    ensures |SplitColons(FormatVoiceDuration(seconds))[0]| == 2 <==> seconds < 6000
    ensures ParseMinSec(FormatVoiceDuration(seconds)) == Some(seconds)
  {
    var minutes, secs := seconds / 60, seconds % 60;
    FieldRoundTrip(minutes);
    FieldRoundTrip(secs);
    NoColonInDigits(Field(minutes));
    NoColonInDigits(Field(secs));
    SplitWithoutColon(Field(secs));
    SplitAtColon(Field(minutes), Field(secs));
  }

  /** Different lengths never show the same label. */
  lemma VoiceDurationInjective(a: nat, b: nat)
    requires FormatVoiceDuration(a) == FormatVoiceDuration(b)
    ensures a == b
  {
    VoiceDurationRoundTrip(a);
    VoiceDurationRoundTrip(b);
  }
}
