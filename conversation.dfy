/**
 * The conversation state machine as functions on a session value: what
 * one utterance, a sell and a cancel do to the session, and what the
 * agent says in reply. The `Journal` class performs these steps in place.
 */
module Conversation {
  import opened Wrappers
  import opened JsString
  import opened Entries
  import opened Topics
  import opened Valuation

  /** The fields of the shared `state` record that the logic reads and writes. */
  datatype Session = Session(
    isLoggedIn: bool,
    awaitingAnswer: bool,
    currentQuestion: string,
    entries: seq<LogEntry>,
    credits: int)

  /** `greetMessages`. */
  const GREET_MESSAGES: seq<string> := [
    "Welcome back. Tell me about your day.",
    "I'm here to listen. What happened today?",
    "Let's capture your day. Start speaking."
  ]

  /** What a login says before the drawn greeting. */
  const LOGIN_PREFIX := "Login complete. Welcome. "
  const ANSWER_REPLY := "Got it. Anything else you'd like to say?"
  const LIMIT_REPLY := "You've reached the daily data limit. You can sell this data or stop for now."
  const NOTHING_TO_SELL_REPLY := "There's no data to sell yet."
  const CANCEL_REPLY := "Okay, we won't use this data. You can keep journaling or stop anytime."

  /** The session at start-up, from the persisted login flag, entries and
      credits (or their defaults). */
  function Initial(loggedIn: bool, entries: seq<LogEntry>, credits: int): (s: Session)
    ensures Invariant(s)
    ensures s.isLoggedIn == loggedIn && s.entries == entries && s.credits == credits
    ensures !s.awaitingAnswer
  {
    Session(loggedIn, false, "", entries, credits)
  }

  /** What every reachable session satisfies: a question is pending only
      after login and below capacity, and `currentQuestion` holds a
      follow-up question exactly while one is pending. */
  predicate Invariant(s: Session) {
    (s.awaitingAnswer ==> s.isLoggedIn && |s.entries| < MAX_ENTRIES && IsFollowUp(s.currentQuestion)) &&
    (s.awaitingAnswer <==> s.currentQuestion != "")
  }

  /** An utterance that is empty once trimmed. */
  predicate Blank(text: string) {
    Trim(text) == ""
  }

  /** `handleSpeechResult`'s effect on the session; `time` is the clock's
      reading. */
  function OnSpeech(s: Session, text: string, time: Timestamp): (r: Session)
    ensures r.credits == s.credits
    ensures Blank(text) ==> r == s
    ensures !Blank(text) ==> r.isLoggedIn
    ensures !Blank(text) ==> |r.entries| == |s.entries| + 1 && r.entries[..|s.entries|] == s.entries
    ensures !Blank(text) ==> r.entries[|s.entries|].text == Trim(text) && r.entries[|s.entries|].time == time
    ensures !Blank(text) ==> (r.entries[|s.entries|].kind == Login <==> !s.isLoggedIn)
    ensures !Blank(text) ==> (r.entries[|s.entries|].kind == Answer <==> s.isLoggedIn && s.awaitingAnswer)
    ensures !Blank(text) ==> (r.entries[|s.entries|].kind == Entry <==> s.isLoggedIn && !s.awaitingAnswer)
    ensures !s.isLoggedIn ==> r.awaitingAnswer == s.awaitingAnswer && r.currentQuestion == s.currentQuestion
    ensures !Blank(text) && s.isLoggedIn ==>
      (r.awaitingAnswer <==> !s.awaitingAnswer && |r.entries| < MAX_ENTRIES)
    ensures r.awaitingAnswer && !s.awaitingAnswer ==> r.currentQuestion == DecideNextQuestion(Trim(text))
    ensures !r.awaitingAnswer && s.awaitingAnswer ==> r.currentQuestion == ""
    ensures !r.awaitingAnswer && !s.awaitingAnswer ==> r.currentQuestion == s.currentQuestion
  {
    var trimmed := Trim(text);
    if trimmed == "" then s
    else if !s.isLoggedIn then
      s.(isLoggedIn := true, entries := Store(s.entries, LogEntry(trimmed, Login, time)))
    else if s.awaitingAnswer then
      s.(entries := Store(s.entries, LogEntry(trimmed, Answer, time)), awaitingAnswer := false, currentQuestion := "")
    else
      var entries := Store(s.entries, LogEntry(trimmed, Entry, time));
      if |entries| >= MAX_ENTRIES then s.(entries := entries)
      else s.(entries := entries, awaitingAnswer := true, currentQuestion := DecideNextQuestion(trimmed))
  }

  /** What `handleSpeechResult` says, if anything. A prompt is exactly the
      question the turn leaves pending (any clock reading gives the same one). */
  function SpeechReply(s: Session, text: string, greet: nat): (m: Option<string>)
    requires greet < |GREET_MESSAGES|
    ensures m.None? <==> Blank(text)
    ensures var r := OnSpeech(s, text, "");
      r.awaitingAnswer && !s.awaitingAnswer ==> m == Some(r.currentQuestion)
    ensures !Blank(text) && s.isLoggedIn && !s.awaitingAnswer ==>
      (m == Some(LIMIT_REPLY) <==> |s.entries| + 1 >= MAX_ENTRIES)
    ensures !Blank(text) && s.isLoggedIn && s.awaitingAnswer ==> m == Some(ANSWER_REPLY)
    ensures !Blank(text) && !s.isLoggedIn ==> m == Some(LOGIN_PREFIX + GREET_MESSAGES[greet])
  {
    var trimmed := Trim(text);
    if trimmed == "" then None
    else if !s.isLoggedIn then Some(LOGIN_PREFIX + GREET_MESSAGES[greet])
    else if s.awaitingAnswer then Some(ANSWER_REPLY)
    else if |s.entries| + 1 >= MAX_ENTRIES then Some(LIMIT_REPLY)
    else Some(DecideNextQuestion(trimmed))
  }

  /** `handleSell`'s effect: an empty store changes nothing; otherwise the
      offer is credited and the store emptied. */
  function OnSell(s: Session): (r: Session)
    ensures s.entries == [] ==> r == s
    ensures s.entries != [] ==> r.entries == [] && r.credits == s.credits + GetOfferForEntries(s.entries).amount
    ensures s.entries != [] ==> s.credits + 5 <= r.credits <= s.credits + 20
    ensures r.isLoggedIn == s.isLoggedIn && r.awaitingAnswer == s.awaitingAnswer
    ensures r.currentQuestion == s.currentQuestion
  {
    if |s.entries| == 0 then s
    else s.(credits := s.credits + GetOfferForEntries(s.entries).amount, entries := [])
  }

  /** The fixed parts of the sell confirmation. */
  const SOLD_PREFIX := "Thanks. ₹"
  const SOLD_MIDDLE := " credited. Your balance is ₹"
  const SOLD_SUFFIX := ". You can withdraw anytime."

  /** The sell confirmation for a credited `amount` and the resulting
      `balance`. */
  function SoldReply(amount: int, balance: int): (m: string)
    ensures |m| > |SOLD_PREFIX| + |SOLD_MIDDLE| + |SOLD_SUFFIX|
  {
    SOLD_PREFIX + IntToString(amount) + SOLD_MIDDLE + IntToString(balance) + SOLD_SUFFIX
  }

  /** What `handleSell` says: "no data" for an empty store; otherwise the
      confirmation naming the credited offer and the balance after the sale. */
  function SellReply(s: Session): (m: string)
    ensures s.entries == [] <==> m == NOTHING_TO_SELL_REPLY
    ensures s.entries != [] ==>
      m == SoldReply(GetOfferForEntries(s.entries).amount, OnSell(s).credits)
  {
    if |s.entries| == 0 then NOTHING_TO_SELL_REPLY
    else
      var amount := GetOfferForEntries(s.entries).amount;
      var m := SoldReply(amount, s.credits + amount);
      assert |m| > |NOTHING_TO_SELL_REPLY|;
      assert OnSell(s).credits == s.credits + amount;
      m
  }

  /** The confirmation is spoken for one amount and one balance only: the
      amount credited and the balance held after the sale can be read back
      from it. */
  lemma {:induction false} SoldReplyDetermines(a1: int, b1: int, a2: int, b2: int)
    requires SoldReply(a1, b1) == SoldReply(a2, b2)
    ensures a1 == a2 && b1 == b2
  {
    assert IsSpace(SOLD_MIDDLE[0]);
    FramedWordsDetermined(SOLD_PREFIX, SOLD_MIDDLE, SOLD_SUFFIX,
                          IntToString(a1), IntToString(b1), IntToString(a2), IntToString(b2));
    IntToStringInjective(a1, a2);
    IntToStringInjective(b1, b2);
  }

  /** In `pre + x + mid + y + post`, where `x` has no white space and `mid`
      starts with some, `x` and `y` are fixed by the whole text. */
  lemma {:induction false} FramedWordsDetermined(pre: string, mid: string, post: string,
                                                 x1: string, y1: string, x2: string, y2: string)
    requires mid != [] && IsSpace(mid[0]) && NoSpace(x1) && NoSpace(x2)
    requires pre + x1 + mid + y1 + post == pre + x2 + mid + y2 + post
    ensures x1 == x2 && y1 == y2
  {
    var m := pre + x1 + mid + y1 + post;
    assert m[|pre|..] == x1 + (mid + y1 + post);
    assert m[|pre|..] == x2 + (mid + y2 + post);
    FirstSpaceAfterWord(x1, mid + y1 + post);
    FirstSpaceAfterWord(x2, mid + y2 + post);
    assert x1 == m[|pre|..|pre| + |x1|] == x2;
    assert y1 == m[|pre| + |x1| + |mid|..|m| - |post|] == y2;
  }

  // ---------------------------------------------------------------- properties

  lemma OnSpeechPreservesInvariant(s: Session, text: string, time: Timestamp)
    requires Invariant(s)
    ensures Invariant(OnSpeech(s, text, time))
  {
  }

  lemma OnSellPreservesInvariant(s: Session)
    requires Invariant(s)
    ensures Invariant(OnSell(s))
  {
  }

  /** Credits never go down, whatever the user says or sells. */
  lemma CreditsNeverDecrease(s: Session, text: string, time: Timestamp)
    ensures OnSpeech(s, text, time).credits == s.credits
    ensures OnSell(s).credits >= s.credits
  {
  }

  /** An utterance never lowers the offer for the stored entries. */
  lemma {:induction false} OfferGrowsOnSpeech(s: Session, text: string, time: Timestamp)
    ensures GetOfferForEntries(s.entries).amount <= GetOfferForEntries(OnSpeech(s, text, time).entries).amount
  {
    var r := OnSpeech(s, text, time);
    if !Blank(text) {
      assert r.entries == Store(s.entries, r.entries[|s.entries|]);
      OfferGrowsOnStore(s.entries, r.entries[|s.entries|]);
    }
  }

  /** The session after a sequence of utterances, all with the same clock
      reading. */
  function Feed(s: Session, texts: seq<string>, time: Timestamp): (r: Session)
    ensures r.credits == s.credits
    ensures |s.entries| <= |r.entries| && r.entries[..|s.entries|] == s.entries
    decreases |texts|
  {
    if texts == [] then s
    else Feed(OnSpeech(s, texts[0], time), texts[1..], time)
  }

  /** The capacity is not enforced: once the store is full and no question
      is pending, every further utterance is stored as an "Entry" and no
      question is asked, so the store grows without bound. */
  lemma {:induction false} CapacityNotEnforced(s: Session, texts: seq<string>, time: Timestamp)
    requires s.isLoggedIn && !s.awaitingAnswer && |s.entries| >= MAX_ENTRIES
    requires forall i :: 0 <= i < |texts| ==> !Blank(texts[i])
    ensures |Feed(s, texts, time).entries| == |s.entries| + |texts|
    ensures !Feed(s, texts, time).awaitingAnswer
    ensures forall i :: |s.entries| <= i < |Feed(s, texts, time).entries| ==>
      Feed(s, texts, time).entries[i].kind == Entry
    decreases |texts|
  {
    if texts != [] {
      var s1 := OnSpeech(s, texts[0], time);
      assert |s1.entries| == |s.entries| + 1 && s1.entries[|s.entries|].kind == Entry;
      CapacityNotEnforced(s1, texts[1..], time);
      var r := Feed(s, texts, time);
      assert r == Feed(s1, texts[1..], time);
      forall i | |s.entries| <= i < |r.entries| ensures r.entries[i].kind == Entry {
        if i == |s.entries| {
          assert r.entries[..|s1.entries|][i] == s1.entries[i];
        }
      }
    }
  }

  /** One login turn: a Login entry, nothing else but the login flag. */
  lemma LoginStep(s: Session, text: string, time: Timestamp)
    requires !s.isLoggedIn && !Blank(text)
    ensures OnSpeech(s, text, time) == s.(isLoggedIn := true, entries := s.entries + [LogEntry(Trim(text), Login, time)])
  {
  }

  /** One entry turn below capacity: an Entry, and its question pending. */
  lemma EntryStep(s: Session, text: string, time: Timestamp)
    requires s.isLoggedIn && !s.awaitingAnswer && !Blank(text) && |s.entries| + 1 < MAX_ENTRIES
    ensures OnSpeech(s, text, time) == s.(entries := s.entries + [LogEntry(Trim(text), Entry, time)],
                                          awaitingAnswer := true, currentQuestion := DecideNextQuestion(Trim(text)))
  {
  }

  /** One answer turn: an Answer, and nothing pending. */
  lemma AnswerStep(s: Session, text: string, time: Timestamp)
    requires s.isLoggedIn && s.awaitingAnswer && !Blank(text)
    ensures OnSpeech(s, text, time) == s.(entries := s.entries + [LogEntry(Trim(text), Answer, time)],
                                          awaitingAnswer := false, currentQuestion := "")
  {
  }

  /** Logging in, then saying something about work and answering the
      question stores a Login, an Entry and an Answer, in that order; the
      work question is asked in between and nothing is pending after. */
  lemma {:induction false} LoginEntryAnswerScenario(credits: int, hello: string, said: string, answer: string,
                                                    t1: Timestamp, t2: Timestamp, t3: Timestamp,
                                                    s1: Session, s2: Session, s3: Session)
    requires !Blank(hello) && !Blank(said) && !Blank(answer)
    requires Includes(ToLower(Trim(said)), "work")
    requires s1 == OnSpeech(Initial(false, [], credits), hello, t1)
    requires s2 == OnSpeech(s1, said, t2)
    requires s3 == OnSpeech(s2, answer, t3)
    ensures s2.awaitingAnswer && s2.currentQuestion == WORK_QUESTION
    ensures Kinds(s3.entries) == [Login, Entry, Answer]
    ensures Texts(s3.entries) == [Trim(hello), Trim(said), Trim(answer)]
    ensures s3.isLoggedIn && !s3.awaitingAnswer && s3.currentQuestion == "" && s3.credits == credits
  {
    WorkTopicFirst(Trim(said), 0);
    var e1, e2, e3 := LogEntry(Trim(hello), Login, t1), LogEntry(Trim(said), Entry, t2), LogEntry(Trim(answer), Answer, t3);
    LoginStep(Initial(false, [], credits), hello, t1);
    assert s1 == Session(true, false, "", [e1], credits);
    EntryStep(s1, said, t2);
    assert s2 == Session(true, true, WORK_QUESTION, [e1, e2], credits);
    AnswerStep(s2, answer, t3);
    assert s3 == Session(true, false, "", [e1, e2, e3], credits);
    ThreeEntries(e1, e2, e3);
  }

  lemma ThreeEntries(e1: LogEntry, e2: LogEntry, e3: LogEntry)
    ensures Kinds([e1, e2, e3]) == [e1.kind, e2.kind, e3.kind]
    ensures Texts([e1, e2, e3]) == [e1.text, e2.text, e3.text]
  {
  }

  /** The same run with the utterances "hello", "I went to work" and
      "it was fine". */
  lemma {:induction false} HelloWorkFineExample(credits: int, t1: Timestamp, t2: Timestamp, t3: Timestamp)
    ensures var s1 := OnSpeech(Initial(false, [], credits), "hello", t1);
            var s2 := OnSpeech(s1, "I went to work", t2);
            Kinds(OnSpeech(s2, "it was fine", t3).entries) == [Login, Entry, Answer]
  {
    HelloNotBlank();
    WorkNotBlank();
    FineNotBlank();
    TrimmedWorkIsMentioned();
    var s1 := OnSpeech(Initial(false, [], credits), "hello", t1);
    var s2 := OnSpeech(s1, "I went to work", t2);
    LoginEntryAnswerScenario(credits, "hello", "I went to work", "it was fine", t1, t2, t3,
                             s1, s2, OnSpeech(s2, "it was fine", t3));
  }

  lemma {:induction false} HelloNotBlank()
    ensures !Blank("hello")
  {
    TrimHello();
  }

  lemma {:induction false} WorkNotBlank()
    ensures !Blank("I went to work")
  {
    TrimWork();
  }

  lemma {:induction false} FineNotBlank()
    ensures !Blank("it was fine")
  {
    TrimFine();
  }

  lemma {:induction false} TrimmedWorkIsMentioned()
    ensures Includes(ToLower(Trim("I went to work")), "work")
  {
    TrimWork();
    WorkIsMentioned();
  }

  lemma {:induction false} TrimWork()
    ensures Trim("I went to work") == "I went to work"
  {
    var s := "I went to work";
    assert !IsSpace(s[0]) && !IsSpace(s[|s| - 1]);
  }

  lemma {:induction false} LowerWork()
    ensures ToLower("work") == "work"
  {
  }

  lemma {:induction false} WorkIsMentioned()
    ensures Includes(ToLower("I went to work"), "work")
  {
    var before, work := "I went to ", "work";
    assert before + work == "I went to work";
    ToLowerConcat(before, work);
    LowerWork();
    WorkAt(ToLower(before), |before|);
  }

  lemma {:induction false} WorkAt(lowered: string, n: nat)
    requires |lowered| == n
    ensures OccursAt(lowered + "work", "work", n)
  {
    assert (lowered + "work")[n..n + 4] == "work";
  }

  lemma {:induction false} TrimHello()
    ensures Trim("hello") == "hello"
  {
    var s := "hello";
    assert !IsSpace(s[0]) && !IsSpace(s[|s| - 1]);
  }

  lemma {:induction false} TrimFine()
    ensures Trim("it was fine") == "it was fine"
  {
    var s := "it was fine";
    assert !IsSpace(s[0]) && !IsSpace(s[|s| - 1]);
  }

  /** Selling a store of one-word entries, fewer than twenty of them,
      credits exactly 5 and empties the store. */
  lemma {:induction false} SellOneWordEntries(s: Session)
    requires 0 < |s.entries| < 20
    requires forall i :: 0 <= i < |s.entries| ==> OneWord(s.entries[i].text)
    ensures OnSell(s).credits == s.credits + 5
    ensures OnSell(s).entries == []
  {
    OneWordEntriesAreBasic(s.entries);
  }
}
