/** The one piece of prepro_instance kept here: the coarse PoS tag. */
module Preprocess {

  /** `tag.split('(')[0]`: the tag up to its first parenthesis. */
  function CoarsePoS(tag: string): (r: string)
    ensures r <= tag
    ensures '(' !in r
    ensures |r| < |tag| ==> tag[|r|] == '('
  {
    if tag == [] || tag[0] == '(' then []
    else [tag[0]] + CoarsePoS(tag[1..])
  }
}
