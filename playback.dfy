/** Reading an answer aloud: one audio handle shared by the whole message item,
    toggled by playAnswer. The speech request is abstracted to its body and
    to whether its response was ok; the audio element to its paused flag. */
module Playback {
  import opened Wrappers

  /** The body of a request to the speech endpoint. */
  datatype SpeechRequest = SpeechRequest(message: string, voice: string)

  /** An audio element built from a synthesized answer. */
  class AudioHandle {
    var paused: bool

    /** A new element that has been told to play. */
    constructor Play()
      ensures !paused
    {
      paused := false;
    }

    method Pause()
      modifies this
      ensures paused
    {
      paused := true;
    }
  }

  class Player {
    /** The current audio, or none (null). */
    var current: Option<AudioHandle>
    /** The speech requests issued so far, in order. */
    ghost var requests: seq<SpeechRequest>

    constructor ()
      ensures current == None && requests == []
    {
      current := None;
      requests := [];
    }

    /** The objects a call may change besides this player: the current audio. */
    function Held(): set<AudioHandle>
      reads this
    {
      if current.Some? then {current.value} else {}
    }

    predicate Playing()
      reads this, Held()
    {
      current.Some? && !current.value.paused
    }

    /** playAnswer. While the current audio plays it is paused and dropped, no
        request goes out and the result is false. Otherwise one request is
        issued; a failed response leaves the handle as it was and yields false,
        a good one installs a fresh playing handle and yields true. */
    method PlayAnswer(content: string, voice: string, responseOk: bool) returns (started: bool)
      modifies this, Held()
      ensures old(Playing()) ==>
                !started && current == None && old(current).value.paused && requests == old(requests)
      ensures !old(Playing()) ==>
                requests == old(requests) + [SpeechRequest(content, voice)] &&
                (old(current).Some? ==> old(current).value.paused == old(current.value.paused))
      ensures !old(Playing()) && !responseOk ==> !started && current == old(current)
      ensures !old(Playing()) && responseOk ==>
                started && current.Some? && fresh(current.value) && Playing()
    {
      if current.Some? && !current.value.paused {
        current.value.Pause();
        current := None;
        return false;
      }
      requests := requests + [SpeechRequest(content, voice)];
      if !responseOk {
        return false;
      }
      var audio := new AudioHandle.Play();
      current := Some(audio);
      return true;
    }

    /** The `ended` listener of a handle: the handle has stopped, and the
        current audio is cleared, whichever handle that is. */
    method Ended(audio: AudioHandle)
      modifies this, audio
      ensures audio.paused && current == None && requests == old(requests)
    {
      audio.paused := true;
      current := None;
    }
  }

  /** Starting from an idle player, a click with a good response starts
      playback; a second click while it plays stops it, clears the handle and
      issues no request, so only the first click's request went out. */
  method ClickTwice(content: string, voice: string)
      returns (first: bool, second: bool, cleared: bool, ghost requests: seq<SpeechRequest>)
    ensures first && !second && cleared
    ensures requests == [SpeechRequest(content, voice)]
  {
    var player := new Player();
    first := player.PlayAnswer(content, voice, true);
    second := player.PlayAnswer(content, voice, true);
    cleared := player.current.None?;
    requests := player.requests;
  }
}
