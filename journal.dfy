/**
 * The journal's shared `state` record and its handlers, updating the
 * fields in place. Each handler is proved to perform the corresponding
 * step of the `Conversation` functions and to say the matching reply.
 */
module JournalApp {
  import opened Wrappers
  import opened JsString
  import opened Entries
  import opened Topics
  import opened Valuation
  import opened Conversation
  import opened Speech

  class Journal {
    var isLoggedIn: bool
    var awaitingAnswer: bool
    var currentQuestion: string
    var entries: seq<LogEntry>
    var credits: int
    /** The speech output queue the handlers talk through. */
    const speech: SpeechQueue

    /** The fields as a session value. */
    function State(): Session
      reads this
    {
      Session(isLoggedIn, awaitingAnswer, currentQuestion, entries, credits)
    }

    ghost predicate Valid()
      reads this, speech
    {
      speech.Valid() && Invariant(State())
    }

    /** Start-up: the login flag, entries and credits read back from
        storage (or their defaults), no question pending. */
    constructor (loggedIn: bool, savedEntries: seq<LogEntry>, savedCredits: int, synthesis: bool)
      ensures Valid() && fresh(speech)
      ensures State() == Initial(loggedIn, savedEntries, savedCredits)
      ensures speech.enabled == synthesis && speech.announced == [] && speech.pending == []
    {
      isLoggedIn := loggedIn;
      awaitingAnswer := false;
      currentQuestion := "";
      entries := savedEntries;
      credits := savedCredits;
      speech := new SpeechQueue(synthesis);
    }

    /** `storeEntry`: append one entry at the end of the log. */
    method StoreEntry(text: string, kind: EntryType, time: Timestamp)
      modifies this
      ensures entries == Store(old(entries), LogEntry(text, kind, time))
      ensures isLoggedIn == old(isLoggedIn) && awaitingAnswer == old(awaitingAnswer)
      ensures currentQuestion == old(currentQuestion) && credits == old(credits)
    {
      entries := entries + [LogEntry(text, kind, time)];
    }

    /** `speak`: hand one message to the speech queue. */
    method Say(text: string)
      requires speech.Valid()
      modifies speech
      ensures speech.Valid()
      ensures speech.announced == old(speech.announced) + [text]
      ensures speech.finished == old(speech.finished)
    {
      var _ := speech.Speak(text);
    }

    /** `handleSpeechResult`. */
    method HandleSpeechResult(text: string, greet: nat, time: Timestamp)
      requires Valid() && greet < |GREET_MESSAGES|
      modifies this, speech
      ensures Valid()
      ensures State() == OnSpeech(old(State()), text, time)
      ensures speech.announced == old(speech.announced) + ToSeq(SpeechReply(old(State()), text, greet))
      ensures speech.finished == old(speech.finished)
    {
      ghost var before := State();
      OnSpeechPreservesInvariant(before, text, time);
      var trimmed := Trim(text);
      if trimmed == "" {
        return;
      }
      if !isLoggedIn {
        isLoggedIn := true;
        Say(LOGIN_PREFIX + GREET_MESSAGES[greet]);
        StoreEntry(trimmed, Login, time);
        return;
      }
      if awaitingAnswer {
        StoreEntry(trimmed, Answer, time);
        awaitingAnswer := false;
        currentQuestion := "";
        Say(ANSWER_REPLY);
        return;
      }
      StoreEntry(trimmed, Entry, time);
      if |entries| >= MAX_ENTRIES {
        Say(LIMIT_REPLY);
        return;
      }
      var followUp := DecideNextQuestion(trimmed);
      awaitingAnswer := true;
      currentQuestion := followUp;
      Say(followUp);
    }

    /** `handleSell`. */
    method HandleSell()
      requires Valid()
      modifies this, speech
      ensures Valid()
      ensures State() == OnSell(old(State()))
      ensures speech.announced == old(speech.announced) + [SellReply(old(State()))]
      ensures speech.finished == old(speech.finished)
    {
      OnSellPreservesInvariant(State());
      if |entries| == 0 {
        Say(NOTHING_TO_SELL_REPLY);
      } else {
        var offer := GetOfferForEntries(entries);
        var balance := credits + offer.amount;
        // `speak` reads neither field, so both are written once it is queued.
        Say(SoldReply(offer.amount, balance));
        credits, entries := balance, [];
      }
    }

    /** `handleCancel`: say the acknowledgement; nothing else changes. */
    method HandleCancel()
      requires Valid()
      modifies speech
      ensures Valid()
      ensures State() == old(State())
      ensures speech.announced == old(speech.announced) + [CANCEL_REPLY]
      ensures speech.finished == old(speech.finished)
    {
      Say(CANCEL_REPLY);
    }

    /** `updateMeter`'s offer for the current entries. */
    function Meter(): (o: Offer)
      reads this
      ensures o == NO_DATA <==> entries == []
    {
      MeterOffer(entries)
    }
  }

  /** Cancelling twice says the same thing twice and changes no session field. */
  method CancelTwice(j: Journal)
    requires j.Valid()
    modifies j.speech
    ensures j.Valid() && j.State() == old(j.State())
    ensures j.speech.announced == old(j.speech.announced) + [CANCEL_REPLY, CANCEL_REPLY]
  {
    j.HandleCancel();
    j.HandleCancel();
  }
}
