/** The valuation engine: the offer made for the text held in the store,
    and the meter that displays it. */
module Valuation {
  import opened JsString
  import opened Entries
  import opened Topics

  /** An offer: its amount in rupees and its label (`tier`). */
  datatype Offer = Offer(amount: nat, tier: string)

  /** The offer the meter shows while the store is empty. */
  const NO_DATA := Offer(0, "No data yet")

  /** The `reduce` over `questionMap`: how many rules have a keyword in
      the lower-cased text. */
  function Richness(rules: seq<Rule>, lowered: string): (r: nat)
    ensures r <= |rules|
    ensures r == 0 <==> forall i :: 0 <= i < |rules| ==> !Matches(rules[i], lowered)
    ensures r == |rules| <==> forall i :: 0 <= i < |rules| ==> Matches(rules[i], lowered)
  {
    if rules == [] then 0
    else (if Matches(rules[0], lowered) then 1 else 0) + Richness(rules[1..], lowered)
  }

  /** The indices, below `n`, of the rules that have a keyword in the text. */
  function MatchingRules(rules: seq<Rule>, lowered: string, n: nat): set<int>
    requires n <= |rules|
  {
    set i | 0 <= i < n && Matches(rules[i], lowered)
  }

  lemma {:induction false} RichnessAppend(a: seq<Rule>, b: seq<Rule>, lowered: string)
    ensures Richness(a + b, lowered) == Richness(a, lowered) + Richness(b, lowered)
    decreases |a|
  {
    if a == [] {
      assert a + b == b;
    } else {
      assert (a + b)[0] == a[0];
      assert (a + b)[1..] == a[1..] + b;
      RichnessAppend(a[1..], b, lowered);
    }
  }

  lemma MatchingRulesStep(rules: seq<Rule>, lowered: string, m: nat)
    requires m < |rules|
    ensures |MatchingRules(rules, lowered, m + 1)| ==
      |MatchingRules(rules, lowered, m)| + (if Matches(rules[m], lowered) then 1 else 0)
  {
    var before := MatchingRules(rules, lowered, m);
    assert m !in before;
    if Matches(rules[m], lowered) {
      assert MatchingRules(rules, lowered, m + 1) == before + {m};
    } else {
      assert MatchingRules(rules, lowered, m + 1) == before;
    }
  }

  lemma RichnessLast(rules: seq<Rule>, lowered: string, m: nat)
    requires m < |rules|
    ensures Richness(rules[..m + 1], lowered) ==
      Richness(rules[..m], lowered) + (if Matches(rules[m], lowered) then 1 else 0)
  {
    assert rules[..m + 1] == rules[..m] + [rules[m]];
    RichnessAppend(rules[..m], [rules[m]], lowered);
    assert [rules[m]][1..] == [];
  }

  lemma {:induction false} RichnessOfPrefix(rules: seq<Rule>, lowered: string, n: nat)
    requires n <= |rules|
    ensures Richness(rules[..n], lowered) == |MatchingRules(rules, lowered, n)|
    decreases n
  {
    if n > 0 {
      var m := n - 1;
      RichnessOfPrefix(rules, lowered, m);
      RichnessLast(rules, lowered, m);
      MatchingRulesStep(rules, lowered, m);
      assert m + 1 == n;
    } else {
      assert rules[..0] == [];
      assert MatchingRules(rules, lowered, 0) == {};
    }
  }

  /** Richness is the number of rules that have a keyword in the text. */
  lemma RichnessCountsMatchingRules(rules: seq<Rule>, lowered: string)
    ensures Richness(rules, lowered) == |set i | 0 <= i < |rules| && Matches(rules[i], lowered)|
  {
    RichnessOfPrefix(rules, lowered, |rules|);
    assert rules[..|rules|] == rules;
  }

  /** Two different matching rules, at `i` and `j`. */
  predicate TwoMatch(rules: seq<Rule>, lowered: string, i: int, j: int) {
    0 <= i < j < |rules| && Matches(rules[i], lowered) && Matches(rules[j], lowered)
  }

  /** A richness of at least two means two different rules match. */
  lemma {:induction false} RichnessAtLeastTwo(rules: seq<Rule>, lowered: string)
    ensures Richness(rules, lowered) >= 2 <==> exists i, j :: TwoMatch(rules, lowered, i, j)
    decreases |rules|
  {
    if rules != [] {
      var rest := rules[1..];
      RichnessAtLeastTwo(rest, lowered);
      if Richness(rules, lowered) >= 2 {
        if Matches(rules[0], lowered) {
          var j :| 0 <= j < |rest| && Matches(rest[j], lowered);
          assert TwoMatch(rules, lowered, 0, j + 1);
        } else {
          var i, j :| TwoMatch(rest, lowered, i, j);
          assert TwoMatch(rules, lowered, i + 1, j + 1);
        }
      }
      if exists i, j :: TwoMatch(rules, lowered, i, j) {
        var i, j :| TwoMatch(rules, lowered, i, j);
        assert Matches(rest[j - 1], lowered);
        if i > 0 {
          assert TwoMatch(rest, lowered, i - 1, j - 1);
        }
      }
    }
  }

  /** Richness of the shared rule table never exceeds its five rules. */
  lemma RichnessBound(lowered: string)
    ensures Richness(QUESTION_MAP, lowered) <= 5
  {
  }

  /** The classifier falls back exactly when the text has richness zero:
      both consumers read the same rule table. */
  lemma FallbackIffNoRichness(text: string)
    ensures DecideNextQuestion(text) == FALLBACK_QUESTION <==> Richness(QUESTION_MAP, ToLower(text)) == 0
  {
  }

  lemma {:induction false} MatchesExtend(rule: Rule, a: string, b: string)
    requires Matches(rule, a)
    ensures Matches(rule, a + b)
  {
    var k :| 0 <= k < |rule.keywords| && Includes(a, rule.keywords[k]);
    IncludesExtend(a, b, rule.keywords[k]);
  }

  /** Appending text never lowers the richness. */
  lemma {:induction false} RichnessExtend(rules: seq<Rule>, a: string, b: string)
    ensures Richness(rules, a) <= Richness(rules, a + b)
    decreases |rules|
  {
    if rules != [] {
      if Matches(rules[0], a) { MatchesExtend(rules[0], a, b); }
      RichnessExtend(rules[1..], a, b);
    }
  }

  /** The three-row decision table of `getOfferForEntries`. */
  function OfferFor(wordCount: nat, richness: nat): (o: Offer)
    ensures o.amount == 5 || o.amount == 10 || o.amount == 20
    ensures o.amount == 5 <==> wordCount < 20
    ensures o.amount == 20 <==> wordCount >= 60 && richness >= 2
    ensures o.amount == 5 ==> o.tier == "Basic"
    ensures o.amount == 10 ==> o.tier == "Detailed"
    ensures o.amount == 20 ==> o.tier == "High-value"
  {
    if wordCount < 20 then Offer(5, "Basic")
    else if wordCount < 60 || richness < 2 then Offer(10, "Detailed")
    else Offer(20, "High-value")
  }

  /** More words or more topics never lower the offer. */
  lemma OfferMonotone(w1: nat, r1: nat, w2: nat, r2: nat)
    requires w1 <= w2 && r1 <= r2
    ensures OfferFor(w1, r1).amount <= OfferFor(w2, r2).amount
  {
  }

  /** `state.entries.map((entry) => entry.text).join(" ")`. */
  function CombinedText(entries: seq<LogEntry>): (r: string)
    ensures entries == [] ==> r == ""
    ensures |entries| == 1 ==> r == entries[0].text
  {
    Join(Texts(entries))
  }

  /** Storing an entry into a non-empty store appends a space and its text
      to the combined text. */
  lemma CombinedTextStore(entries: seq<LogEntry>, e: LogEntry)
    requires entries != []
    ensures CombinedText(Store(entries, e)) == CombinedText(entries) + " " + e.text
  {
    TextsStore(entries, e);
    JoinAppend(Texts(entries), e.text);
  }

  /** `getOfferForEntries`. It has no empty case of its own: an empty
      store has no words and is offered 5 "Basic". */
  function GetOfferForEntries(entries: seq<LogEntry>): (o: Offer)
    ensures 5 <= o.amount <= 20
    ensures entries == [] ==> o == Offer(5, "Basic")
  {
    var combined := CombinedText(entries);
    assert entries == [] ==> SplitOnSpaces(combined) == [""];
    OfferFor(WordCount(combined), Richness(QUESTION_MAP, ToLower(combined)))
  }

  /** The top tier is offered exactly for at least sixty words that touch
      at least two different topics. */
  lemma HighValueOffer(entries: seq<LogEntry>)
    ensures var c := ToLower(CombinedText(entries));
      GetOfferForEntries(entries).amount == 20 <==>
        WordCount(CombinedText(entries)) >= 60 &&
        exists i, j :: TwoMatch(QUESTION_MAP, c, i, j)
  {
    RichnessAtLeastTwo(QUESTION_MAP, ToLower(CombinedText(entries)));
  }

  /** Storing one more entry never lowers the offer. */
  lemma {:induction false} OfferGrowsOnStore(entries: seq<LogEntry>, e: LogEntry)
    ensures GetOfferForEntries(entries).amount <= GetOfferForEntries(Store(entries, e)).amount
  {
    if entries != [] {
      var c := CombinedText(entries);
      CombinedTextStore(entries, e);
      assert CombinedText(Store(entries, e)) == c + (" " + e.text);
      WordCountJoin2(c, e.text);
      assert c + " " + e.text == c + (" " + e.text);
      ToLowerConcat(c, " " + e.text);
      RichnessExtend(QUESTION_MAP, ToLower(c), ToLower(" " + e.text));
    }
  }

  /** A text that is exactly one word. */
  predicate OneWord(t: string) {
    t != [] && NoSpace(t)
  }

  lemma {:induction false} OneWordCount(t: string)
    requires OneWord(t)
    ensures WordCount(t) == 1
  {
    assert FirstSpace(t) == |t|;
    assert SplitOnSpaces(t) == [t];
  }

  lemma {:induction false} SumOfOneWords(ts: seq<string>)
    requires forall i :: 0 <= i < |ts| ==> OneWord(ts[i])
    ensures SumWordCounts(ts) == |ts|
    decreases |ts|
  {
    if ts != [] {
      SumOfOneWords(ts[..|ts| - 1]);
      OneWordCount(ts[|ts| - 1]);
    }
  }

  /** Fewer than twenty one-word entries are worth 5 "Basic". */
  lemma {:induction false} OneWordEntriesAreBasic(entries: seq<LogEntry>)
    requires |entries| < 20
    requires forall i :: 0 <= i < |entries| ==> OneWord(entries[i].text)
    ensures GetOfferForEntries(entries) == Offer(5, "Basic")
  {
    WordCountJoin(Texts(entries));
    SumOfOneWords(Texts(entries));
  }

  /** The offer `updateMeter` displays: no data for an empty store,
      otherwise the engine's offer. */
  function MeterOffer(entries: seq<LogEntry>): (o: Offer)
    ensures o == NO_DATA <==> entries == []
    ensures entries != [] ==> o.amount >= 5
  {
    if |entries| == 0 then NO_DATA else GetOfferForEntries(entries)
  }

  /** `updateMeter`'s fill percentage, in exact arithmetic. */
  function FillPercent(count: nat): (p: real)
    ensures 0.0 <= p <= 100.0
  {
    var raw := (count as real / MAX_ENTRIES as real) * 100.0;
    if raw < 100.0 then raw else 100.0
  }

  /** The "limit reached" note shows exactly when the store holds at least
      `MAX_ENTRIES` entries. */
  lemma LimitNoteShown(count: nat)
    ensures FillPercent(count) >= 100.0 <==> count >= MAX_ENTRIES
  {
    var q := count as real / MAX_ENTRIES as real;
    assert q * MAX_ENTRIES as real == count as real;
  }
}
