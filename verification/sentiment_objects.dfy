/** The data classes of SentimentObjects.py. */
module SentimentObjects {

  /** One lexicon entry: parallel lists of PoS tags and polarity values. */
  datatype SentimentEntry = SentimentEntry(
    Lemma: string,
    PoSTag: seq<string>,
    SentimentPolarityValue: seq<real>,
    Dictionary: seq<string>)
  {
    /** The tag at index i goes with the value at index i. */
    predicate Parallel() {
      |PoSTag| == |SentimentPolarityValue|
    }
  }

  /** A named lexicon: lower-cased key to entry. */
  datatype SentimentDictionary = SentimentDictionary(Name: string, Dictionary: map<string, SentimentEntry>)
  {
    predicate WellFormed() {
      forall k :: k in Dictionary ==> Dictionary[k].Parallel()
    }
  }

  /** A token produced by the preprocessor; only IsNegated ever changes. */
  class WordObject {
    const Word: string
    const Lem: string
    const PoS: string
    var IsNegated: bool

    constructor (word: string, lem: string, pos: string)
      ensures Word == word && Lem == lem && PoS == pos
      ensures !IsNegated
    {
      Word, Lem, PoS := word, lem, pos;
      IsNegated := false;
    }
  }

  /** A sentence with its raw gold label and its tokens. */
  class SentenceObject {
    const OriSentence: string
    const SentencePolarity: string
    const WordObjects: seq<WordObject>

    constructor (oriSentence: string, sentencePolarity: string, wordObjects: seq<WordObject>)
      ensures OriSentence == oriSentence
      ensures SentencePolarity == sentencePolarity
      ensures WordObjects == wordObjects
    {
      OriSentence, SentencePolarity, WordObjects := oriSentence, sentencePolarity, wordObjects;
    }
  }

  /** The value of a WordObject at one moment. */
  datatype Token = Token(Word: string, Lem: string, PoS: string, IsNegated: bool)

  /** The current values of a list of WordObjects. */
  function Snapshot(ws: seq<WordObject>): (ts: seq<Token>)
    reads ws
    ensures |ts| == |ws|
    ensures forall i :: 0 <= i < |ws| ==>
      ts[i] == Token(ws[i].Word, ws[i].Lem, ws[i].PoS, ws[i].IsNegated)
  {
    seq(|ws|, i requires 0 <= i < |ws| reads ws => Token(ws[i].Word, ws[i].Lem, ws[i].PoS, ws[i].IsNegated))
  }

  /** No WordObject occurs twice in the list. */
  ghost predicate Distinct(ws: seq<WordObject>) {
    forall i, j :: 0 <= i < j < |ws| ==> ws[i] != ws[j]
  }
}
