/** Negation tagging: the loop over a sentence's tokens in get_sentiment_from_lexicon. */
module Negation {
  import opened Strings
  import opened SentimentObjects

  /** The Dutch negators of lexiconmatch_NL.py. */
  const NegatorList: seq<string> :=
    ["niet", "nee", "neen", "geen", "nooit", "zonder", "niemand", "nergens", "niets", "noch", "behalve"]

  /** w occurs in words, searched from the front. */
  predicate Occurs(w: string, words: seq<string>)
    decreases |words|
  {
    words != [] && (words[0] == w || Occurs(w, words[1..]))
  }

  /** The search finds exactly the members of the list. */
  lemma {:induction false} OccursIsMembership(w: string, words: seq<string>)
    ensures Occurs(w, words) <==> w in words
    decreases |words|
  {
    if words != [] {
      OccursIsMembership(w, words[1..]);
      assert words == [words[0]] + words[1..];
    }
  }

  /** w is one of the negators. */
  predicate IsNegator(w: string) {
    Occurs(w, NegatorList)
  }

  /** The token Python reads as `WordObjects[i-1]`: for i = 0 that is index -1, the last token. */
  function Prev(i: nat, n: nat): (p: nat)
    requires i < n
    ensures p < n
    ensures i > 0 ==> p == i - 1
    ensures i == 0 ==> p == n - 1
  {
    if i == 0 then n - 1 else i - 1
  }

  /** The token before position i, lower-cased, is a negator. */
  predicate FollowsNegator(ts: seq<Token>, i: nat)
    requires i < |ts|
  {
    IsNegator(Lower(ts[Prev(i, |ts|)].Word))
  }

  /** The tokens after tagging: a token becomes negated when it follows a negator;
      nothing else changes. */
  function Tagged(ts: seq<Token>): (r: seq<Token>)
    ensures |r| == |ts|
    ensures forall i {:trigger r[i]} :: 0 <= i < |ts| ==>
      && r[i].Word == ts[i].Word && r[i].Lem == ts[i].Lem && r[i].PoS == ts[i].PoS
      && (r[i].IsNegated <==> ts[i].IsNegated || FollowsNegator(ts, i))
  {
    seq(|ts|, i requires 0 <= i < |ts| => ts[i].(IsNegated := ts[i].IsNegated || FollowsNegator(ts, i)))
  }

  /** Tagging twice is tagging once: the surface forms it consults do not change. */
  lemma TaggedIdempotent(ts: seq<Token>)
    ensures Tagged(Tagged(ts)) == Tagged(ts)
  {
    var once := Tagged(ts);
    forall i | 0 <= i < |ts|
      ensures Tagged(once)[i] == once[i]
    {
      assert once[Prev(i, |ts|)].Word == ts[Prev(i, |ts|)].Word;
    }
  }

  /** The first token is tested against the last one, not left alone. */
  lemma FirstTokenConsultsLast(ts: seq<Token>)
    requires |ts| > 0
    ensures Tagged(ts)[0].IsNegated <==> ts[0].IsNegated || IsNegator(Lower(ts[|ts| - 1].Word))
  {
  }

  /** Whether position j of ws follows a negator (surface forms never change). */
  predicate NegatorBefore(ws: seq<WordObject>, j: nat)
    requires j < |ws|
  {
    IsNegator(Lower(ws[Prev(j, |ws|)].Word))
  }

  /**
   * Lines 115-119: set IsNegated on every token that follows a negator. When one
   * WordObject occurs at several positions, any of them can set it.
   */
  method TagNegations(ws: seq<WordObject>)
    modifies ws
    ensures forall i :: 0 <= i < |ws| ==>
      ws[i].IsNegated == (old(ws[i].IsNegated) || exists j :: 0 <= j < |ws| && ws[j] == ws[i] && NegatorBefore(ws, j))
    ensures Distinct(ws) ==> Snapshot(ws) == Tagged(old(Snapshot(ws)))
  {
    for i := 0 to |ws|
      invariant forall k :: 0 <= k < |ws| ==>
        ws[k].IsNegated == (old(ws[k].IsNegated) || exists j :: 0 <= j < i && ws[j] == ws[k] && NegatorBefore(ws, j))
    {
      if IsNegator(Lower(ws[Prev(i, |ws|)].Word)) {
        ws[i].IsNegated := true;
      }
    }
    if Distinct(ws) {
      var before := old(Snapshot(ws));
      forall i | 0 <= i < |ws|
        ensures Snapshot(ws)[i] == Tagged(before)[i]
      {
        assert forall j :: 0 <= j < |ws| && ws[j] == ws[i] ==> j == i;
        assert before[Prev(i, |ws|)].Word == ws[Prev(i, |ws|)].Word;
      }
    }
  }
}
