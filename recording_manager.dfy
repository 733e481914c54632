/**
 * The browser's parallel recording sessions: one session per station, kept
 * in a Map keyed by the station's id, each collecting the non-empty audio
 * chunks its MediaRecorder delivers until it is stopped and encoded.
 */
module RecordingManager {
  import opened Common

  type StationId = string

  datatype Station = Station(id: StationId, title: string, audioUrl: string)

  /** Binary data: a chunk delivered by the MediaRecorder, or an encoded file. */
  datatype Blob = Blob(bytes: seq<bv8>)

  /** What `startRecording` reports. */
  datatype StartOutcome =
    | Refused(error: string)   // `{ success: false, error }`
    | Started(station: Station) // `{ success: true, station }`
    | Threw                    // the audio setup failed; the error is rethrown

  /** The message of the refusal to record a station twice. */
  const AlreadyRecording := "Already recording this station"

  /** What `stopRecording` resolves to. */
  datatype Recorded = Recorded(blob: Blob, duration: int, size: nat, stationInfo: Station)

  /** Why `stopRecording` rejects. */
  datatype StopError = NoActiveRecording(stationId: StationId) | EncodingFailed

  /** `new Blob(chunks)`: the bytes of the chunks, one after the other. */
  function Joined(chunks: seq<Blob>): (b: Blob)
    ensures chunks == [] ==> b.bytes == []
  {
    if chunks == [] then Blob([]) else Blob(Joined(chunks[..|chunks| - 1]).bytes + chunks[|chunks| - 1].bytes)
  }

  /** The chunks the data handler keeps: those of size greater than zero, in arrival order. */
  function NonEmpty(chunks: seq<Blob>): (kept: seq<Blob>)
    ensures |kept| <= |chunks|
    ensures forall i :: 0 <= i < |kept| ==> |kept[i].bytes| > 0
  {
    if chunks == [] then []
    else
      var last := chunks[|chunks| - 1];
      NonEmpty(chunks[..|chunks| - 1]) + (if |last.bytes| > 0 then [last] else [])
  }

  lemma JoinedStep(chunks: seq<Blob>, c: Blob)
    ensures Joined(chunks + [c]).bytes == Joined(chunks).bytes + c.bytes
  {
    assert (chunks + [c])[..|chunks|] == chunks;
  }

  /**
   * Dropping the empty chunks loses no audio: the chunks kept join into the
   * same bytes as every chunk delivered.
   */
  lemma {:induction false} NonEmptyJoinsAlike(chunks: seq<Blob>)
    ensures Joined(NonEmpty(chunks)) == Joined(chunks)
    decreases |chunks|
  {
    if chunks != [] {
      var front, last := chunks[..|chunks| - 1], chunks[|chunks| - 1];
      NonEmptyJoinsAlike(front);
      assert chunks == front + [last];
      JoinedStep(front, last);
      if |last.bytes| > 0 {
        JoinedStep(NonEmpty(front), last);
      } else {
        assert NonEmpty(chunks) == NonEmpty(front) + [] == NonEmpty(front);
        assert last.bytes == [];
        assert Joined(chunks).bytes == Joined(front).bytes + [] == Joined(front).bytes;
      }
    }
  }

  /**
   * `Math.floor((now - startTime) / 1000)`: the whole seconds elapsed, the
   * greatest `d` with `d * 1000` not past the elapsed milliseconds.
   */
  function ElapsedSeconds(startMs: int, nowMs: int): (d: int)
    ensures d * 1000 <= nowMs - startMs < d * 1000 + 1000
    ensures nowMs >= startMs ==> d >= 0
  {
    (nowMs - startMs) / 1000
  }

  /** One recording in progress: the station, the moment it started, and the audio collected so far. */
  class Session {
    const stationInfo: Station
    const startTime: int
    var audioChunks: seq<Blob>
    /** Every chunk the recorder has delivered, empty ones included. */
    ghost var delivered: seq<Blob>

    /** The collected chunks are the non-empty deliveries, in order. */
    ghost predicate Valid()
      reads this
    {
      audioChunks == NonEmpty(delivered)
    }

    constructor(station: Station, nowMs: int)
      ensures Valid()
      ensures stationInfo == station && startTime == nowMs
      ensures audioChunks == [] && delivered == []
    {
      stationInfo := station;
      startTime := nowMs;
      audioChunks := [];
      delivered := [];
    }

    /** The recorder's `ondataavailable` handler: keeps the chunk when it is not empty. */
    method OnDataAvailable(chunk: Blob)
      requires Valid()
      modifies this
      ensures Valid()
      ensures delivered == old(delivered) + [chunk]
      ensures audioChunks == old(audioChunks) + (if |chunk.bytes| > 0 then [chunk] else [])
    {
      delivered := delivered + [chunk];
      assert delivered[..|delivered| - 1] == old(delivered);
      if |chunk.bytes| > 0 {
        audioChunks := audioChunks + [chunk];
      }
    }

    /** The audio the session holds, as the WebM blob `stopRecording` builds, is every delivered byte in order. */
    lemma CollectedAudio()
      requires Valid()
      ensures Joined(audioChunks) == Joined(delivered)
    {
      NonEmptyJoinsAlike(delivered);
    }
  }

  /** The summary `getActiveSessions` gives for one station. */
  datatype ActiveInfo = ActiveInfo(stationTitle: string, duration: int)

  class Manager {
    /** `sessions`: station id to its session. */
    var sessions: map<StationId, Session>

    /** Every session is filed under its own station's id and holds the non-empty chunks it was delivered. */
    ghost predicate Valid()
      reads this, sessions.Values
    {
      forall id :: id in sessions ==> sessions[id].stationInfo.id == id && sessions[id].Valid()
    }

    constructor()
      ensures Valid() && sessions == map[]
    {
      sessions := map[];
    }

    /**
     * `startRecording(station)` at the instant `nowMs`; `setupSucceeds`
     * says whether the audio context, the audio element, the audio graph and
     * the recorder could be set up and started.
     */
    method StartRecording(station: Station, nowMs: int, setupSucceeds: bool) returns (outcome: StartOutcome)
      requires Valid()
      modifies this
      ensures Valid()
      ensures station.id in old(sessions) ==> outcome == Refused(AlreadyRecording) && sessions == old(sessions)
      ensures station.id !in old(sessions) && !setupSucceeds ==> outcome == Threw && sessions == old(sessions)
      ensures station.id !in old(sessions) && setupSucceeds ==>
        && outcome == Started(station)
        && station.id in sessions
        && sessions == old(sessions)[station.id := sessions[station.id]]
        && fresh(sessions[station.id])
        && sessions[station.id].stationInfo == station
        && sessions[station.id].startTime == nowMs
        && sessions[station.id].audioChunks == []
        && sessions[station.id].Valid()
    {
      if station.id in sessions {
        return Refused(AlreadyRecording);
      }
      var session := new Session(station, nowMs);
      if !setupSucceeds {
        CleanupSession(station.id);
        return Threw;
      }
      sessions := sessions[station.id := session];
      outcome := Started(station);
    }

    /**
     * `stopRecording(stationId)`, its stop handler running at `nowMs`;
     * `encode` stands for `encodeToMp3`, `None` when encoding throws. The
     * session is removed whether encoding succeeds or fails.
     */
    method StopRecording(stationId: StationId, nowMs: int, encode: Blob -> Option<Blob>)
      returns (result: Result<Recorded, StopError>)
      requires Valid()
      modifies this
      ensures Valid()
      ensures stationId !in old(sessions) ==> result == Err(NoActiveRecording(stationId)) && sessions == old(sessions)
      ensures stationId in old(sessions) ==>
        var session := old(sessions)[stationId];
        && sessions == old(sessions) - {stationId}
        && Joined(session.audioChunks) == Joined(session.delivered)
        && result == match encode(Joined(session.delivered))
           case Some(mp3) => Ok(Recorded(mp3, ElapsedSeconds(session.startTime, nowMs), |mp3.bytes|, session.stationInfo))
           case None => Err(EncodingFailed)
    {
      if stationId !in sessions {
        return Err(NoActiveRecording(stationId));
      }
      var session := sessions[stationId];
      session.CollectedAudio();
      var audioBlob := Joined(session.audioChunks);
      var duration := ElapsedSeconds(session.startTime, nowMs);
      var encoded := encode(audioBlob);
      match encoded {
        case Some(mp3Blob) =>
          result := Ok(Recorded(mp3Blob, duration, |mp3Blob.bytes|, session.stationInfo));
          CleanupSession(stationId);
        case None =>
          CleanupSession(stationId);
          result := Err(EncodingFailed);
      }
    }

    /** `cleanupSession(stationId)`: deletes that station's session, if there is one, and nothing else. */
    method CleanupSession(stationId: StationId)
      requires Valid()
      modifies this
      ensures Valid()
      ensures sessions == old(sessions) - {stationId}
      ensures stationId !in old(sessions) ==> sessions == old(sessions)
    {
      if stationId !in sessions {
        return;
      }
      sessions := sessions - {stationId};
    }

    /** `getDuration(stationId)` at `nowMs`: whole seconds since the session started, 0 for a station not recording. */
    function GetDuration(stationId: StationId, nowMs: int): (d: int)
      reads this
      ensures stationId !in sessions ==> d == 0
      ensures stationId in sessions ==>
        d * 1000 <= nowMs - sessions[stationId].startTime < d * 1000 + 1000
    {
      if stationId !in sessions then 0 else ElapsedSeconds(sessions[stationId].startTime, nowMs)
    }

    /** `isStationRecording(stationId)`. */
    function IsStationRecording(stationId: StationId): (recording: bool)
      reads this
      ensures recording <==> stationId in sessions
    {
      stationId in sessions
    }

    /** `getActiveSessions()` at `nowMs`: one summary per session, under the same station id. */
    method GetActiveSessions(nowMs: int) returns (active: map<StationId, ActiveInfo>)
      ensures active.Keys == sessions.Keys
      ensures forall id :: id in active ==>
        active[id] == ActiveInfo(sessions[id].stationInfo.title, GetDuration(id, nowMs))
    {
      active := map[];
      var todo := sessions.Keys;
      while todo != {}
        invariant todo <= sessions.Keys
        invariant active.Keys == sessions.Keys - todo
        invariant forall id :: id in active ==>
          active[id] == ActiveInfo(sessions[id].stationInfo.title, GetDuration(id, nowMs))
        decreases |todo|
      {
        var id :| id in todo;
        active := active[id := ActiveInfo(sessions[id].stationInfo.title, GetDuration(id, nowMs))];
        todo := todo - {id};
      }
    }
  }
}
