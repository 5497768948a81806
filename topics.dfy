/** The topic classifier: the keyword rule table and the first-match search
    that picks a follow-up question for one utterance. */
module Topics {
  import opened Wrappers
  import opened JsString

  /** A rule of `questionMap`: keywords and the question they trigger. */
  datatype Rule = Rule(keywords: seq<string>, question: string)

  const WORK_QUESTION := "How did that work moment make you feel?"
  const FOOD_QUESTION := "Was the meal healthy or did you crave it?"
  const TRAVEL_QUESTION := "Was the travel smooth or stressful?"
  const HEALTH_QUESTION := "Do you want to track this health moment?"
  const SOCIAL_QUESTION := "What stood out in that conversation?"

  /** `questionMap`, in its priority order. */
  const QUESTION_MAP: seq<Rule> := [
    Rule(["work", "office", "project", "meeting"], WORK_QUESTION),
    Rule(["food", "eat", "lunch", "dinner", "breakfast"], FOOD_QUESTION),
    Rule(["travel", "drive", "bus", "train", "flight"], TRAVEL_QUESTION),
    Rule(["health", "sick", "doctor", "exercise"], HEALTH_QUESTION),
    Rule(["family", "friend", "call", "visit"], SOCIAL_QUESTION)
  ]

  /** The question asked when no rule matches. */
  const FALLBACK_QUESTION := "Thanks for sharing. Want to add anything else from today?"

  /** `rule.match.some((term) => lowered.includes(term))`. */
  predicate Matches(rule: Rule, lowered: string): (b: bool)
    ensures rule.keywords == [] ==> !b
  {
    exists k :: 0 <= k < |rule.keywords| && Includes(lowered, rule.keywords[k])
  }

  /** `rules.find(...)`, as the index of the first rule that matches. */
  function FindRule(rules: seq<Rule>, lowered: string): (r: Option<nat>)
    ensures r.Some? ==> r.value < |rules| && Matches(rules[r.value], lowered)
    ensures r.Some? ==> forall j :: 0 <= j < r.value ==> !Matches(rules[j], lowered)
    ensures r.None? ==> forall j :: 0 <= j < |rules| ==> !Matches(rules[j], lowered)
  {
    if rules == [] then None
    else if Matches(rules[0], lowered) then Some(0)
    else
      match FindRule(rules[1..], lowered)
      case None => None
      case Some(i) => Some(i + 1)
  }

  /** One of the questions the classifier can ask. */
  predicate IsFollowUp(q: string) {
    q == FALLBACK_QUESTION || exists i :: 0 <= i < |QUESTION_MAP| && QUESTION_MAP[i].question == q
  }

  /** `decideNextQuestion`: the question of the first rule with a keyword
      inside the lower-cased text, or the fallback question. */
  function DecideNextQuestion(text: string): (q: string)
    ensures IsFollowUp(q) && q != ""
    ensures q == FALLBACK_QUESTION <==>
      forall i :: 0 <= i < |QUESTION_MAP| ==> !Matches(QUESTION_MAP[i], ToLower(text))
    ensures forall i :: (0 <= i < |QUESTION_MAP| && Matches(QUESTION_MAP[i], ToLower(text)) &&
                         forall j :: 0 <= j < i ==> !Matches(QUESTION_MAP[j], ToLower(text)))
                        ==> q == QUESTION_MAP[i].question
  {
    var lowered := ToLower(text);
    match FindRule(QUESTION_MAP, lowered)
    case Some(i) => QUESTION_MAP[i].question
    case None => FALLBACK_QUESTION
  }

  /** Rule 1 wins over every later rule: any work keyword in the text
      yields the work question, whatever else the text mentions. */
  lemma WorkTopicFirst(text: string, k: nat)
    requires k < |QUESTION_MAP[0].keywords|
    requires Includes(ToLower(text), QUESTION_MAP[0].keywords[k])
    ensures DecideNextQuestion(text) == WORK_QUESTION
  {
  }

  /** An utterance naming both a meeting and a friend is routed to the
      work question. */
  lemma MeetingWithFriendExample()
    ensures DecideNextQuestion("I had a Meeting with a friend") == WORK_QUESTION
  {
    MeetingIsMentioned();
    WorkTopicFirst("I had a Meeting with a friend", 3);
  }

  lemma {:induction false} MeetingIsMentioned()
    ensures Includes(ToLower("I had a Meeting with a friend"), "meeting")
  {
    MeetingLowered();
    IncludesMiddle(ToLower("I had a "), "meeting", ToLower(" with a friend"));
  }

  lemma {:induction false} MeetingLowered()
    ensures ToLower("I had a Meeting with a friend") == ToLower("I had a ") + "meeting" + ToLower(" with a friend")
  {
    var before, word, after := "I had a ", "Meeting", " with a friend";
    MeetingSplit();
    ToLowerConcat(before + word, after);
    ToLowerConcat(before, word);
    LowerMeeting();
  }

  lemma {:induction false} MeetingSplit()
    ensures "I had a Meeting with a friend" == "I had a " + "Meeting" + " with a friend"
  {
  }

  lemma {:induction false} LowerMeeting()
    ensures ToLower("Meeting") == "meeting"
  {
  }

  lemma {:induction false} IncludesMiddle(a: string, t: string, b: string)
    ensures Includes(a + t + b, t)
  {
    assert (a + t + b)[|a|..|a| + |t|] == t;
    assert OccursAt(a + t + b, t, |a|);
  }
}
