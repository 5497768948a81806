/**
 * The speech output queue: messages are queued in order and spoken one at
 * a time; queuing while a message plays never interrupts it.
 */
module Speech {
  import opened Wrappers

  class SpeechQueue {
    /** Whether the browser offers speech synthesis; without it `speak`
        only shows the text. */
    const enabled: bool
    /** `speechQueue`: the message being spoken first, then those waiting. */
    var pending: seq<string>
    /** Every message handed to `speak`, in order. */
    ghost var announced: seq<string>
    /** The messages whose playback has ended, in order. */
    ghost var finished: seq<string>

    /** Spoken order is queuing order: what has been said, followed by what
        is still queued, is exactly what was handed to speak. */
    ghost predicate Valid()
      reads this
    {
      if enabled then announced == finished + pending else pending == [] && finished == []
    }

    constructor (enabled: bool)
      ensures Valid()
      ensures this.enabled == enabled && pending == [] && announced == [] && finished == []
    {
      this.enabled := enabled;
      pending := [];
      announced := [];
      finished := [];
    }

    /** The message currently being spoken, if any. */
    function Playing(): (m: Option<string>)
      reads this
      ensures m.Some? <==> pending != []
      ensures m.Some? ==> m.value == pending[0]
    {
      if |pending| == 0 then None else Some(pending[0])
    }

    /** `speak`: queue `text`; playback starts now only if nothing else was
        queued, and then it is `text` that plays. */
    method Speak(text: string) returns (startsPlayback: bool)
      requires Valid()
      modifies this
      ensures Valid()
      ensures announced == old(announced) + [text] && finished == old(finished)
      ensures pending == if enabled then old(pending) + [text] else old(pending)
      ensures startsPlayback <==> enabled && old(pending) == []
      ensures startsPlayback ==> Playing() == Some(text)
      ensures old(pending) != [] ==> Playing() == old(Playing())
    {
      announced := announced + [text];
      if !enabled {
        return false;
      }
      pending := pending + [text];
      startsPlayback := |pending| == 1;
    }

    /** The utterance's `onend` handler: drop the message that has just
        been spoken (`shift`) and start the next one, which is returned. */
    method FinishCurrent() returns (next: Option<string>)
      requires Valid()
      modifies this
      ensures Valid()
      ensures announced == old(announced)
      ensures pending == if old(pending) == [] then [] else old(pending)[1..]
      ensures finished == if old(pending) == [] then old(finished) else old(finished) + [old(pending)[0]]
      ensures next == Playing()
    {
      if |pending| > 0 {
        finished := finished + [pending[0]];
        pending := pending[1..];
      }
      next := Playing();
    }
  }
}
