/** Sentence scoring and evaluation: the driver get_sentiment_from_lexicon and map_gold_label. */
module Scoring {
  import opened Wrappers
  import opened Strings
  import opened Sums
  import opened SentimentObjects
  import opened Negation
  import opened Matcher

  /** map_gold_label returns a float for a recognised label and the raw string otherwise. */
  datatype GoldLabel = Numeric(value: real) | Unrecognised(raw: string)

  /** The recognised gold labels (after lower-casing) and their values. */
  const GoldTable: map<string, real> := map[
    "positive" := 1.0, "very_positive" := 1.0,
    "negative" := -1.0, "very_negative" := -1.0,
    "neutral" := 0.0, "objective" := 0.0]

  function MapGoldLabel(goldlabel: string): GoldLabel {
    var l := Lower(goldlabel);
    if l == "positive" || l == "very_positive" then Numeric(1.0)
    else if l == "negative" || l == "very_negative" then Numeric(-1.0)
    else if l == "neutral" || l == "objective" then Numeric(0.0)
    else Unrecognised(goldlabel)
  }

  /** A label is mapped through the table after lower-casing; any other label is kept as it is. */
  lemma MapGoldLabelTable(goldlabel: string)
    ensures Lower(goldlabel) in GoldTable ==> MapGoldLabel(goldlabel) == Numeric(GoldTable[Lower(goldlabel)])
    ensures Lower(goldlabel) !in GoldTable ==> MapGoldLabel(goldlabel) == Unrecognised(goldlabel)
  {
  }

  /** The mapping ignores case, and a recognised label maps to -1.0, 0.0 or 1.0. */
  lemma GoldLabelIgnoresCase(a: string, b: string)
    requires Lower(a) == Lower(b)
    ensures MapGoldLabel(a).Numeric? <==> MapGoldLabel(b).Numeric?
    ensures MapGoldLabel(a).Numeric? ==> MapGoldLabel(a) == MapGoldLabel(b)
    ensures MapGoldLabel(a).Numeric? ==> MapGoldLabel(a).value in {-1.0, 0.0, 1.0}
  {
  }

  /** The correctness test of lines 127-132. */
  predicate IsCorrect(gold: GoldLabel, predicted: real) {
    if gold.Numeric? && gold.value == 1.0 then predicted > 0.0
    else if gold.Numeric? && gold.value == -1.0 then predicted < 0.0
    else if gold.Numeric? && gold.value == 0.0 then predicted == 0.0
    else false
  }

  function Sign(x: real): real {
    if x > 0.0 then 1.0 else if x < 0.0 then -1.0 else 0.0
  }

  /** A prediction is correct exactly when the gold label is numeric and equals the sign of
      the score; an unrecognised gold label is never correct. */
  lemma CorrectIffSignAgrees(gold: GoldLabel, predicted: real)
    ensures IsCorrect(gold, predicted) <==> gold.Numeric? && gold.value == Sign(predicted)
  {
  }

  /** What one sentence yields: the mapped gold label, the score, the text and the matches. */
  datatype SentenceResult = SentenceResult(Gold: GoldLabel, Predicted: real, Text: string, Matches: seq<Match>)

  /** The result of one sentence whose tokens are ts before tagging. */
  function Outcome(dicts: seq<SentimentDictionary>, text: string, goldlabel: string, ts: seq<Token>): (r: SentenceResult)
    requires AllWellFormed(dicts)
  {
    var ms := MatchAll(dicts, Tagged(ts));
    SentenceResult(MapGoldLabel(goldlabel), Sum(Values(ms)), text, ms)
  }

  /** The number of correct results. */
  function CountCorrect(rs: seq<SentenceResult>): nat {
    if rs == [] then 0
    else CountCorrect(rs[..|rs| - 1]) + (if IsCorrect(rs[|rs| - 1].Gold, rs[|rs| - 1].Predicted) then 1 else 0)
  }

  /** There are never more correct results than results. */
  lemma {:induction false} CountCorrectBound(rs: seq<SentenceResult>)
    ensures CountCorrect(rs) <= |rs|
  {
    if rs != [] {
      CountCorrectBound(rs[..|rs| - 1]);
    }
  }

  /** Lines 113-132 for one sentence: map the gold label, tag negations in place, match,
      sum and test. */
  method ProcessSentence(dicts: seq<SentimentDictionary>, sentence: SentenceObject)
    returns (result: SentenceResult, isCorrect: bool)
    requires AllWellFormed(dicts)
    modifies sentence.WordObjects
    ensures Distinct(sentence.WordObjects) ==>
      result == Outcome(dicts, sentence.OriSentence, sentence.SentencePolarity, old(Snapshot(sentence.WordObjects)))
    ensures !Distinct(sentence.WordObjects) ==>
      && result.Gold == MapGoldLabel(sentence.SentencePolarity)
      && result.Matches == MatchAll(dicts, Snapshot(sentence.WordObjects))
      && result.Predicted == Sum(Values(result.Matches))
    ensures isCorrect == IsCorrect(result.Gold, result.Predicted)
    ensures forall a :: 0 <= a < |sentence.WordObjects| ==>
      sentence.WordObjects[a].IsNegated == (old(sentence.WordObjects[a].IsNegated)
        || exists j :: 0 <= j < |sentence.WordObjects| && sentence.WordObjects[j] == sentence.WordObjects[a]
             && NegatorBefore(sentence.WordObjects, j))
    ensures Distinct(sentence.WordObjects) ==>
      Snapshot(sentence.WordObjects) == Tagged(old(Snapshot(sentence.WordObjects)))
  {
    var mappedGoldLabel := MapGoldLabel(sentence.SentencePolarity);
    TagNegations(sentence.WordObjects);
    var lexiconmatches, allPolarities := MatchLexicon(dicts, sentence.WordObjects);
    var predictedlabel := Sum(allPolarities);
    result := SentenceResult(mappedGoldLabel, predictedlabel, sentence.OriSentence, lexiconmatches);
    if mappedGoldLabel.Numeric? && mappedGoldLabel.value == 1.0 && predictedlabel > 0.0 {
      isCorrect := true;
    } else if mappedGoldLabel.Numeric? && mappedGoldLabel.value == -1.0 && predictedlabel < 0.0 {
      isCorrect := true;
    } else if mappedGoldLabel.Numeric? && mappedGoldLabel.value == 0.0 && predictedlabel == 0.0 {
      isCorrect := true;
    } else {
      isCorrect := false;
    }
  }

  /** Every WordObject of every sentence occurs once, as the preprocessor creates them. */
  ghost predicate Separate(sentences: seq<SentenceObject>) {
    && (forall i :: 0 <= i < |sentences| ==> Distinct(sentences[i].WordObjects))
    && (forall i, j :: 0 <= i < j < |sentences| ==>
          forall w :: w in sentences[i].WordObjects ==> w !in sentences[j].WordObjects)
  }

  ghost function AllWords(sentences: seq<SentenceObject>): set<WordObject> {
    set i, w | 0 <= i < |sentences| && w in sentences[i].WordObjects :: w
  }

  /** A list of WordObjects whose flags have not changed has not changed. */
  twostate lemma SnapshotUnchanged(ws: seq<WordObject>)
    requires forall a :: 0 <= a < |ws| ==> ws[a].IsNegated == old(ws[a].IsNegated)
    ensures Snapshot(ws) == old(Snapshot(ws))
  {
  }

  /** The token lists of all sentences, in the current state. */
  ghost function Snapshots(sentences: seq<SentenceObject>): (r: seq<seq<Token>>)
    reads AllWords(sentences)
    ensures |r| == |sentences|
    ensures forall k {:trigger r[k]} :: 0 <= k < |sentences| ==> r[k] == Snapshot(sentences[k].WordObjects)
  {
    assert forall k, w :: 0 <= k < |sentences| && w in sentences[k].WordObjects ==> w in AllWords(sentences);
    seq(|sentences|, k requires 0 <= k < |sentences|
      reads if 0 <= k < |sentences| then sentences[k].WordObjects else [] => Snapshot(sentences[k].WordObjects))
  }

  /** The results of a list of sentences whose tokens are befores before tagging. */
  function Outcomes(dicts: seq<SentimentDictionary>, sentences: seq<SentenceObject>, befores: seq<seq<Token>>): (rs: seq<SentenceResult>)
    requires AllWellFormed(dicts) && |befores| == |sentences|
    ensures |rs| == |sentences|
  {
    if sentences == [] then []
    else
      var n := |sentences| - 1;
      Outcomes(dicts, sentences[..n], befores[..n])
        + [Outcome(dicts, sentences[n].OriSentence, sentences[n].SentencePolarity, befores[n])]
  }

  /** Result k of a list of sentences is the result of sentence k on its own. */
  lemma {:induction false} OutcomesAt(dicts: seq<SentimentDictionary>, sentences: seq<SentenceObject>, befores: seq<seq<Token>>, k: nat)
    requires AllWellFormed(dicts) && |befores| == |sentences| && k < |sentences|
    ensures Outcomes(dicts, sentences, befores)[k]
      == Outcome(dicts, sentences[k].OriSentence, sentences[k].SentencePolarity, befores[k])
  {
    var n := |sentences| - 1;
    var prefix := Outcomes(dicts, sentences[..n], befores[..n]);
    assert Outcomes(dicts, sentences, befores) == prefix
      + [Outcome(dicts, sentences[n].OriSentence, sentences[n].SentencePolarity, befores[n])];
    if k < n {
      OutcomesAt(dicts, sentences[..n], befores[..n], k);
      assert sentences[..n][k] == sentences[k] && befores[..n][k] == befores[k];
    }
  }

  /** One step of the sentence loop: the results and the correct count grow by one sentence. */
  lemma Step(dicts: seq<SentimentDictionary>, sentences: seq<SentenceObject>, befores: seq<seq<Token>>, i: nat,
             results: seq<SentenceResult>, correct: nat, result: SentenceResult, isCorrect: bool)
    requires AllWellFormed(dicts) && |befores| == |sentences| && i < |sentences|
    requires results == Outcomes(dicts, sentences[..i], befores[..i]) && correct == CountCorrect(results)
    requires result == Outcome(dicts, sentences[i].OriSentence, sentences[i].SentencePolarity, befores[i])
    requires isCorrect == IsCorrect(result.Gold, result.Predicted)
    ensures results + [result] == Outcomes(dicts, sentences[..i + 1], befores[..i + 1])
    ensures (if isCorrect then correct + 1 else correct) == CountCorrect(results + [result])
  {
    assert sentences[..i + 1][..i] == sentences[..i] && befores[..i + 1][..i] == befores[..i];
    assert (results + [result])[..i] == results;
  }

  /** Lines 112-132 for sentence i of a list: its tokens are tagged, and no other
      sentence's tokens change. */
  method ProcessNth(dicts: seq<SentimentDictionary>, sentences: seq<SentenceObject>, i: nat)
    returns (result: SentenceResult, isCorrect: bool)
    requires AllWellFormed(dicts) && Separate(sentences) && i < |sentences|
    modifies sentences[i].WordObjects
    ensures result == Outcome(dicts, sentences[i].OriSentence, sentences[i].SentencePolarity,
      old(Snapshot(sentences[i].WordObjects)))
    ensures isCorrect == IsCorrect(result.Gold, result.Predicted)
    ensures Snapshot(sentences[i].WordObjects) == Tagged(old(Snapshot(sentences[i].WordObjects)))
    ensures forall k :: 0 <= k < |sentences| && k != i ==>
      Snapshot(sentences[k].WordObjects) == old(Snapshot(sentences[k].WordObjects))
  {
    var sentence := sentences[i];
    result, isCorrect := ProcessSentence(dicts, sentence);
    forall k | 0 <= k < |sentences| && k != i
      ensures Snapshot(sentences[k].WordObjects) == old(Snapshot(sentences[k].WordObjects))
    {
      forall a | 0 <= a < |sentences[k].WordObjects|
        ensures sentences[k].WordObjects[a].IsNegated == old(sentences[k].WordObjects[a].IsNegated)
      {
        assert sentences[k].WordObjects[a] !in sentence.WordObjects;
      }
      SnapshotUnchanged(sentences[k].WordObjects);
    }
  }

  /**
   * The sentence loop of get_sentiment_from_lexicon over preprocessed sentences: count
   * every sentence, count the correct ones, and collect what is written out. Every
   * sentence's tokens end up tagged.
   */
  method GetSentimentFromLexicon(dicts: seq<SentimentDictionary>, sentences: seq<SentenceObject>)
    returns (correct: nat, allInstances: nat, results: seq<SentenceResult>)
    requires AllWellFormed(dicts)
    requires Separate(sentences)
    modifies AllWords(sentences)
    ensures allInstances == |sentences|
    ensures results == Outcomes(dicts, sentences, old(Snapshots(sentences)))
    ensures correct == CountCorrect(results) && correct <= allInstances
    ensures forall k :: 0 <= k < |sentences| ==>
      Snapshot(sentences[k].WordObjects) == Tagged(old(Snapshots(sentences))[k])
  {
    ghost var befores := Snapshots(sentences);
    correct, allInstances, results := 0, 0, [];
    for i := 0 to |sentences|
      invariant allInstances == i
      invariant results == Outcomes(dicts, sentences[..i], befores[..i])
      invariant correct == CountCorrect(results)
      invariant forall k :: 0 <= k < i ==> Snapshot(sentences[k].WordObjects) == Tagged(befores[k])
      invariant forall k :: i <= k < |sentences| ==> Snapshot(sentences[k].WordObjects) == befores[k]
    {
      allInstances := allInstances + 1;
      assert forall w :: w in sentences[i].WordObjects ==> w in AllWords(sentences);
      var result, isCorrect := ProcessNth(dicts, sentences, i);
      Step(dicts, sentences, befores, i, results, correct, result, isCorrect);
      results := results + [result];
      if isCorrect {
        correct := correct + 1;
      }
    }
    assert sentences[..|sentences|] == sentences && befores[..|sentences|] == befores;
    CountCorrectBound(results);
  }

  // Worked examples.

  /** goed is not one of the negators. */
  lemma GoedIsNoNegator()
    ensures !IsNegator("goed")
  {
  }

  /** The one-entry dictionary of the examples below. */
  function GoedDictionary(): (dicts: seq<SentimentDictionary>)
    ensures AllWellFormed(dicts)
  {
    [SentimentDictionary("D", map["goed" := SentimentEntry("goed", ["adj"], [1.0], ["D"])])]
  }

  /** A negated goed matches the dictionary with value -1.0. */
  lemma NegatedGoedMatches()
    ensures MatchToken(GoedDictionary(), Token("goed", "goed", "adj", true)) == [Match("goed", -1.0, "adj", "D")]
  {
    var dicts := GoedDictionary();
    var t := Token("goed", "goed", "adj", true);
    GoedIsNoNegator();
    assert LookupIn(dicts[0], t) == Some(-1.0);
    assert FirstMatch(dicts, t) == Some(Match("goed", -1.0, "adj", "D"));
  }

  /** Two tokens whose matches are [m] for the one match m of value -1.0 score -1.0. */
  lemma ScoreOfOneMatch(dicts: seq<SentimentDictionary>, text: string, goldlabel: string, ts: seq<Token>)
    requires AllWellFormed(dicts)
    requires MatchAll(dicts, Tagged(ts)) == [Match("goed", -1.0, "adj", "D")]
    ensures Outcome(dicts, text, goldlabel, ts).Predicted == -1.0
  {
    var m := Match("goed", -1.0, "adj", "D");
    assert Values([m]) == [-1.0];
    assert Sum([-1.0]) == -1.0 by {
      assert [-1.0][..0] == [];
    }
  }

  /** The matches of two tagged tokens are those of each token in turn. */
  lemma MatchTwo(dicts: seq<SentimentDictionary>, t0: Token, t1: Token)
    requires AllWellFormed(dicts)
    ensures MatchAll(dicts, [t0, t1]) == MatchToken(dicts, t0) + MatchToken(dicts, t1)
  {
    MatchAllSnoc(dicts, [t0, t1], 0);
    MatchAllSnoc(dicts, [t0, t1], 1);
    assert [t0, t1][..0] == [] && [t0, t1][..2] == [t0, t1];
  }

  /** In "niet goed" only goed is negated. */
  lemma NietGoedTagged()
    ensures Tagged([Token("niet", "niet", "adj", false), Token("goed", "goed", "adj", false)])
      == [Token("niet", "niet", "adj", false), Token("goed", "goed", "adj", true)]
  {
    assert Lower("niet") == "niet" && Lower("goed") == "goed";
    GoedIsNoNegator();
  }

  /** "niet goed" with goed an adjective of value 1.0 scores -1.0. */
  lemma NietGoed()
    ensures
      var ts := [Token("niet", "niet", "adj", false), Token("goed", "goed", "adj", false)];
      Outcome(GoedDictionary(), "niet goed", "negative", ts).Predicted == -1.0
  {
    var dicts := GoedDictionary();
    var ts := [Token("niet", "niet", "adj", false), Token("goed", "goed", "adj", false)];
    var t0, t1 := Token("niet", "niet", "adj", false), Token("goed", "goed", "adj", true);
    NietGoedTagged();
    MatchTwo(dicts, t0, t1);
    assert MatchToken(dicts, t0) == [];
    NegatedGoedMatches();
    ScoreOfOneMatch(dicts, "niet goed", "negative", ts);
  }

  /** In "goed niet" goed is negated: its predecessor is the token at index -1, niet. */
  lemma GoedNietTagged()
    ensures Tagged([Token("goed", "goed", "adj", false), Token("niet", "niet", "bw", false)])
      == [Token("goed", "goed", "adj", true), Token("niet", "niet", "bw", false)]
  {
    assert Lower("niet") == "niet" && Lower("goed") == "goed";
    GoedIsNoNegator();
  }

  /** "goed niet": the first token follows the last one, a negator, so goed is negated too. */
  lemma GoedNiet()
    ensures
      var ts := [Token("goed", "goed", "adj", false), Token("niet", "niet", "bw", false)];
      Outcome(GoedDictionary(), "goed niet", "positive", ts).Predicted == -1.0
  {
    var dicts := GoedDictionary();
    var ts := [Token("goed", "goed", "adj", false), Token("niet", "niet", "bw", false)];
    var t0, t1 := Token("goed", "goed", "adj", true), Token("niet", "niet", "bw", false);
    GoedNietTagged();
    MatchTwo(dicts, t0, t1);
    assert MatchToken(dicts, t1) == [];
    NegatedGoedMatches();
    ScoreOfOneMatch(dicts, "goed niet", "positive", ts);
  }

  /** A positive gold label agrees with 2.5; a neutral one with 0.0 but not with 0.001;
      the unrecognised label "mixed" agrees with no score. */
  lemma GoldScenarios()
    ensures IsCorrect(MapGoldLabel("positive"), 2.5)
    ensures IsCorrect(MapGoldLabel("Neutral"), 0.0)
    ensures !IsCorrect(MapGoldLabel("neutral"), 0.001)
    ensures forall p :: !IsCorrect(MapGoldLabel("mixed"), p)
  {
    assert Lower("positive") == "positive";
    assert Lower("Neutral") == "neutral";
    assert Lower("neutral") == "neutral";
    assert Lower("mixed") == "mixed";
  }
}
