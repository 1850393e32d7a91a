/** Lexicon matching: match_lexicon in lexiconmatch_NL.py. */
module Matcher {
  import opened Wrappers
  import opened SentimentObjects
  import Negation

  /** One match record: surface form, polarity value, PoS tag, lexicon name. */
  datatype Match = Match(Word: string, Value: real, PoS: string, Lexicon: string)

  function Values(ms: seq<Match>): (vs: seq<real>)
    ensures |vs| == |ms|
    ensures forall i :: 0 <= i < |ms| ==> vs[i] == ms[i].Value
  {
    seq(|ms|, i requires 0 <= i < |ms| => ms[i].Value)
  }

  /** Recording one more match records one more value. */
  lemma ValuesSnoc(ms: seq<Match>, m: Match)
    ensures Values(ms + [m]) == Values(ms) + [m.Value]
  {
    assert forall i :: 0 <= i < |ms| ==> (ms + [m])[i] == ms[i];
  }

  /** `list.index`: the first position of tag. */
  function IndexOf(tags: seq<string>, tag: string): (i: nat)
    requires tag in tags
    ensures i < |tags| && tags[i] == tag
    ensures tag !in tags[..i]
  {
    if tags[0] == tag then 0
    else
      var j := IndexOf(tags[1..], tag);
      assert tags[..j + 1] == [tags[0]] + tags[1..][..j];
      j + 1
  }

  /** The key looked up (lines 190-193): the lemma if it is a key, else the surface form
      if that is one. Neither is lower-cased. */
  function SelectKey(d: map<string, SentimentEntry>, t: Token): (key: Option<string>)
    ensures key.Some? <==> t.Lem in d || t.Word in d
    ensures key.Some? ==> key.value in d
    ensures t.Lem in d ==> key == Some(t.Lem)
    ensures t.Lem !in d && t.Word in d ==> key == Some(t.Word)
  {
    if t.Lem in d then Some(t.Lem)
    else if t.Word in d then Some(t.Word)
    else None
  }

  /** The value one dictionary gives a token, if any (lines 188-200). The empty key is
      false in Python's `if entry:`, so it never matches. */
  function LookupIn(dict: SentimentDictionary, t: Token): (r: Option<real>)
    requires dict.WellFormed()
    ensures r.Some? <==>
      var key := SelectKey(dict.Dictionary, t);
      key.Some? && key.value != "" && t.PoS in dict.Dictionary[key.value].PoSTag
    ensures r.Some? ==>
      var e := dict.Dictionary[SelectKey(dict.Dictionary, t).value];
      exists i :: 0 <= i < |e.PoSTag| && e.PoSTag[i] == t.PoS && t.PoS !in e.PoSTag[..i]
        && r.value == (if t.IsNegated then -e.SentimentPolarityValue[i] else e.SentimentPolarityValue[i])
  {
    match SelectKey(dict.Dictionary, t)
    case None => None
    case Some(key) =>
      if key == "" then None
      else
        var e := dict.Dictionary[key];
        if t.PoS in e.PoSTag then
          var v := e.SentimentPolarityValue[IndexOf(e.PoSTag, t.PoS)];
          Some(if t.IsNegated then v * -1.0 else v)
        else None
  }

  predicate AllWellFormed(dicts: seq<SentimentDictionary>) {
    forall i :: 0 <= i < |dicts| ==> dicts[i].WellFormed()
  }

  /** The match for a token from the first dictionary, in list order, that gives it a value. */
  function FirstMatch(dicts: seq<SentimentDictionary>, t: Token): Option<Match>
    requires AllWellFormed(dicts)
  {
    if dicts == [] then None
    else
      match LookupIn(dicts[0], t)
      case Some(v) => Some(Match(t.Word, v, t.PoS, dicts[0].Name))
      case None => FirstMatch(dicts[1..], t)
  }

  /** The matches of one token: none for a negator (compared case-sensitively), else the first match. */
  function MatchToken(dicts: seq<SentimentDictionary>, t: Token): (ms: seq<Match>)
    requires AllWellFormed(dicts)
    ensures |ms| <= 1
    ensures Negation.IsNegator(t.Word) ==> ms == []
  {
    if Negation.IsNegator(t.Word) then []
    else
      match FirstMatch(dicts, t)
      case None => []
      case Some(m) => [m]
  }

  /** The matches of a token list, in token order. */
  function MatchAll(dicts: seq<SentimentDictionary>, ts: seq<Token>): seq<Match>
    requires AllWellFormed(dicts)
  {
    if ts == [] then []
    else MatchAll(dicts, ts[..|ts| - 1]) + MatchToken(dicts, ts[|ts| - 1])
  }
  /** The matches of the first w + 1 tokens extend those of the first w by token w's. */
  lemma MatchAllSnoc(dicts: seq<SentimentDictionary>, ts: seq<Token>, w: nat)
    requires AllWellFormed(dicts) && w < |ts|
    ensures MatchAll(dicts, ts[..w + 1]) == MatchAll(dicts, ts[..w]) + MatchToken(dicts, ts[w])
  {
    assert ts[..w + 1][..w] == ts[..w];
  }

  /** First-match priority: the match comes from the first dictionary that gives the token
      a value, carries that dictionary's name, and exists only if some dictionary gives one. */
  lemma {:induction false} FirstMatchIsFirst(dicts: seq<SentimentDictionary>, t: Token)
    requires AllWellFormed(dicts)
    ensures forall i :: (0 <= i < |dicts| && LookupIn(dicts[i], t).Some?
      && (forall j :: 0 <= j < i ==> LookupIn(dicts[j], t).None?)) ==>
        FirstMatch(dicts, t) == Some(Match(t.Word, LookupIn(dicts[i], t).value, t.PoS, dicts[i].Name))
    ensures (forall i :: 0 <= i < |dicts| ==> LookupIn(dicts[i], t).None?) ==> FirstMatch(dicts, t) == None
  {
    if dicts != [] {
      FirstMatchIsFirst(dicts[1..], t);
      forall i | 1 <= i < |dicts| && LookupIn(dicts[i], t).Some?
        && (forall j :: 0 <= j < i ==> LookupIn(dicts[j], t).None?)
        ensures FirstMatch(dicts, t) == Some(Match(t.Word, LookupIn(dicts[i], t).value, t.PoS, dicts[i].Name))
      {
        assert dicts[1..][i - 1] == dicts[i];
        assert forall j :: 0 <= j < i - 1 ==> dicts[1..][j] == dicts[j + 1];
      }
      if forall i :: 0 <= i < |dicts| ==> LookupIn(dicts[i], t).None? {
        assert forall i :: 0 <= i < |dicts| - 1 ==> dicts[1..][i] == dicts[i + 1];
      }
    }
  }

  /** A PoS mismatch in one dictionary does not end the search: the next dictionary is tried. */
  lemma PosMismatchMovesOn(dicts: seq<SentimentDictionary>, t: Token)
    requires AllWellFormed(dicts) && |dicts| > 0
    requires SelectKey(dicts[0].Dictionary, t).Some?
    requires t.PoS !in dicts[0].Dictionary[SelectKey(dicts[0].Dictionary, t).value].PoSTag
    ensures FirstMatch(dicts, t) == FirstMatch(dicts[1..], t)
  {
  }

  /** Negation flips the sign of the value and changes nothing else about the match. */
  lemma {:induction false} NegationFlips(dicts: seq<SentimentDictionary>, t: Token)
    requires AllWellFormed(dicts)
    ensures
      var plain := FirstMatch(dicts, t.(IsNegated := false));
      var negated := FirstMatch(dicts, t.(IsNegated := true));
      && (plain.Some? <==> negated.Some?)
      && (plain.Some? ==> negated.value == plain.value.(Value := -plain.value.Value))
  {
    if dicts != [] {
      NegationFlips(dicts[1..], t);
      var p := LookupIn(dicts[0], t.(IsNegated := false));
      var n := LookupIn(dicts[0], t.(IsNegated := true));
      assert p.Some? ==> n == Some(-p.value);
    }
  }

  /** Matching distributes over concatenation: each token is matched on its own, in order. */
  lemma {:induction false} MatchAllConcat(dicts: seq<SentimentDictionary>, a: seq<Token>, b: seq<Token>)
    requires AllWellFormed(dicts)
    ensures MatchAll(dicts, a + b) == MatchAll(dicts, a) + MatchAll(dicts, b)
  {
    if b == [] {
      assert a + b == a;
    } else {
      var n := |b| - 1;
      assert (a + b)[..|a + b| - 1] == a + b[..n];
      assert (a + b)[|a + b| - 1] == b[n];
      MatchAllConcat(dicts, a, b[..n]);
    }
  }

  /** At most one match per token. */
  lemma {:induction false} MatchAllSize(dicts: seq<SentimentDictionary>, ts: seq<Token>)
    requires AllWellFormed(dicts)
    ensures |MatchAll(dicts, ts)| <= |ts|
  {
    if ts != [] {
      MatchAllSize(dicts, ts[..|ts| - 1]);
    }
  }

  /**
   * The inner loop of lines 186-203 for one word: try each dictionary in turn until one
   * gives the word a value, and build the match from it.
   */
  method SearchDictionaries(dicts: seq<SentimentDictionary>, wordObject: WordObject)
    returns (found: Option<Match>)
    requires AllWellFormed(dicts)
    ensures found == FirstMatch(dicts, Token(wordObject.Word, wordObject.Lem, wordObject.PoS, wordObject.IsNegated))
  {
    ghost var t := Token(wordObject.Word, wordObject.Lem, wordObject.PoS, wordObject.IsNegated);
    found := None;
    for d := 0 to |dicts|
      invariant found.None? ==> FirstMatch(dicts, t) == FirstMatch(dicts[d..], t)
      invariant found.Some? ==> found == FirstMatch(dicts, t)
    {
      var dictionaryObject := dicts[d];
      assert dicts[d..][1..] == dicts[d + 1..];
      ghost var look := LookupIn(dictionaryObject, t);
      if found.None? {
        var lexicondict := dictionaryObject.Dictionary;
        var entry: Option<string> := None;
        if wordObject.Lem in lexicondict {
          entry := Some(wordObject.Lem);
        } else if wordObject.Word in lexicondict {
          entry := Some(wordObject.Word);
        }
        if entry.Some? && entry.value != "" {
          var e := lexicondict[entry.value];
          if wordObject.PoS in e.PoSTag {
            var index := IndexOf(e.PoSTag, wordObject.PoS);
            var polarityvalue := e.SentimentPolarityValue[index];
            if wordObject.IsNegated {
              polarityvalue := polarityvalue * -1.0;
            }
            found := Some(Match(wordObject.Word, polarityvalue, wordObject.PoS, dictionaryObject.Name));
            assert look == Some(polarityvalue);
          } else {
            assert look == None;
          }
        } else {
          assert look == None;
        }
      }
    }
  }

  /**
   * match_lexicon: for each non-negator token, try the dictionaries in order until one
   * matches; record the match and its value.
   */
  method MatchLexicon(dicts: seq<SentimentDictionary>, ws: seq<WordObject>)
    returns (lexiconmatches: seq<Match>, allPolarities: seq<real>)
    requires AllWellFormed(dicts)
    ensures lexiconmatches == MatchAll(dicts, Snapshot(ws))
    ensures allPolarities == Values(lexiconmatches)
  {
    lexiconmatches, allPolarities := [], [];
    ghost var ts := Snapshot(ws);
    for w := 0 to |ws|
      invariant lexiconmatches == MatchAll(dicts, ts[..w])
      invariant allPolarities == Values(lexiconmatches)
    {
      var wordObject := ws[w];
      assert ts[w] == Token(wordObject.Word, wordObject.Lem, wordObject.PoS, wordObject.IsNegated);
      MatchAllSnoc(dicts, ts, w);
      if !Negation.IsNegator(wordObject.Word) {
        var found := SearchDictionaries(dicts, wordObject);
        if found.Some? {
          ValuesSnoc(lexiconmatches, found.value);
          lexiconmatches := lexiconmatches + [found.value];
          allPolarities := allPolarities + [found.value.Value];
        }
      }
    }
    assert ts[..|ws|] == ts;
  }
}
