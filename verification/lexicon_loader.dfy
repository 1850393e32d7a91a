/**
 * Lexicon loading (get_dict_object in lexiconmatch_NL.py), from the point where
 * the XML has been read: a list of lexicon items and the list of declared domains.
 */
module LexiconLoader {
  import opened Wrappers
  import opened Strings
  import opened Sums
  import opened SentimentObjects

  /**
   * One `lexitem` of a lexicon file. `Parsed` is what `float(Polarity)` yields:
   * None when the label is not a number (Python raises ValueError there).
   */
  datatype LexItem = LexItem(Lemma: string, PoS: string, Wordform: string, Polarity: string, Parsed: Option<real>)

  datatype LoadError =
    | DomainCount(count: nat)    // the file declares no domain, or more than one
    | BadPolarity(polarity: string) // a content-word item whose label is neither named nor numeric

  /** The content-word PoS tags that are kept. */
  const ContentTags: seq<string> := ["adj", "n", "ww", "bw"]

  /** The named polarity labels and their values. */
  const LabelTable: map<string, real> :=
    map["positive" := 1.0, "very_positive" := 2.0, "negative" := -1.0, "very_negative" := -2.0, "neutral" := 0.0]

  predicate IsContent(item: LexItem) {
    Lower(item.PoS) in ContentTags
  }

  /** The polarity value of a label: the named labels first, then the number it spells. */
  function LabelValue(polarity: string, parsed: Option<real>): (r: Result<real, LoadError>)
    ensures polarity in LabelTable ==> r == Success(LabelTable[polarity])
    ensures polarity !in LabelTable && parsed.Some? ==> r == Success(parsed.value)
    ensures polarity !in LabelTable && parsed.None? ==> r == Failure(BadPolarity(polarity))
  {
    if polarity == "positive" then Success(1.0)
    else if polarity == "very_positive" then Success(2.0)
    else if polarity == "negative" then Success(-1.0)
    else if polarity == "very_negative" then Success(-2.0)
    else if polarity == "neutral" then Success(0.0)
    else if parsed.Some? then Success(parsed.value)
    else Failure(BadPolarity(polarity))
  }

  /** The value of an item whose label resolves (0.0 otherwise; never used then). */
  function ItemValue(item: LexItem): real {
    match LabelValue(item.Polarity, item.Parsed)
    case Success(v) => v
    case Failure(_) => 0.0
  }

  /** The dictionary key of an item: its lemma, or its wordform when it has none, lower-cased. */
  function ItemKey(item: LexItem): (k: string)
    ensures IsLower(k)
    ensures item.Lemma != "" ==> k == Lower(item.Lemma)
    ensures item.Lemma == "" ==> k == Lower(item.Wordform)
  {
    LowerIsLower(item.Lemma);
    LowerIsLower(item.Wordform);
    Lower(if item.Lemma != "" then item.Lemma else item.Wordform)
  }

  // ---------------------------------------------------------------------------
  // The first pass (lines 38-66): one item at a time.

  /** The effect of one item on the dictionary being built. */
  function AddItem(d: map<string, SentimentEntry>, item: LexItem, domains: seq<string>): Result<map<string, SentimentEntry>, LoadError> {
    if !IsContent(item) then Success(d)
    else
      match LabelValue(item.Polarity, item.Parsed)
      case Failure(e) => Failure(e)
      case Success(v) =>
        var k := ItemKey(item);
        if k !in d then Success(d[k := SentimentEntry(item.Lemma, [item.PoS], [v], domains)])
        else Success(d[k := d[k].(PoSTag := d[k].PoSTag + [item.PoS],
                                  SentimentPolarityValue := d[k].SentimentPolarityValue + [v])])
  }

  /** The dictionary after the first pass over `items`, or the error that stops it. */
  function Collect(items: seq<LexItem>, domains: seq<string>): Result<map<string, SentimentEntry>, LoadError> {
    if items == [] then Success(map[])
    else
      match Collect(items[..|items| - 1], domains)
      case Failure(e) => Failure(e)
      case Success(d) => AddItem(d, items[|items| - 1], domains)
  }

  // Reference definitions of the outcome of the first pass, item by item.

  /** The content-word items, in order. */
  function Accepted(items: seq<LexItem>): seq<LexItem> {
    if items == [] then []
    else Accepted(items[..|items| - 1]) + (if IsContent(items[|items| - 1]) then [items[|items| - 1]] else [])
  }

  /** Every content-word item has a label that resolves. */
  predicate LabelsOk(items: seq<LexItem>) {
    forall i :: 0 <= i < |items| && IsContent(items[i]) ==> LabelValue(items[i].Polarity, items[i].Parsed).Success?
  }

  /** The keys of the content-word items. */
  function KeysOf(items: seq<LexItem>): set<string> {
    set i | 0 <= i < |items| && IsContent(items[i]) :: ItemKey(items[i])
  }

  /** The PoS tags of the content-word items with key k, in order. */
  function TagsFor(items: seq<LexItem>, k: string): seq<string> {
    if items == [] then []
    else
      var last := items[|items| - 1];
      TagsFor(items[..|items| - 1], k) + (if IsContent(last) && ItemKey(last) == k then [last.PoS] else [])
  }

  /** The polarity values of the content-word items with key k, in order. */
  function ValuesFor(items: seq<LexItem>, k: string): seq<real> {
    if items == [] then []
    else
      var last := items[|items| - 1];
      ValuesFor(items[..|items| - 1], k) + (if IsContent(last) && ItemKey(last) == k then [ItemValue(last)] else [])
  }

  /** The lemma attribute of the first content-word item with key k. */
  function FirstLemma(items: seq<LexItem>, k: string): Option<string> {
    if items == [] then None
    else
      var last := items[|items| - 1];
      var before := FirstLemma(items[..|items| - 1], k);
      if before.Some? then before
      else if IsContent(last) && ItemKey(last) == k then Some(last.Lemma)
      else None
  }

  /** The first pass fails exactly when some content-word item has an unresolvable label,
      and then it reports the label of the first such item. */
  lemma {:induction false} CollectFails(items: seq<LexItem>, domains: seq<string>)
    ensures Collect(items, domains).Success? <==> LabelsOk(items)
    ensures Collect(items, domains).Failure? ==>
      exists i :: 0 <= i < |items| && IsContent(items[i]) && LabelsOk(items[..i])
        && LabelValue(items[i].Polarity, items[i].Parsed).Failure?
        && Collect(items, domains).error == BadPolarity(items[i].Polarity)
  {
    if items != [] {
      var n := |items| - 1;
      var init := items[..n];
      CollectFails(init, domains);
      assert forall i :: 0 <= i < n ==> init[i] == items[i];
      assert LabelsOk(items) <==> LabelsOk(init) && (IsContent(items[n]) ==> LabelValue(items[n].Polarity, items[n].Parsed).Success?);
      if Collect(init, domains).Failure? {
        var i :| 0 <= i < n && IsContent(init[i]) && LabelsOk(init[..i])
          && LabelValue(init[i].Polarity, init[i].Parsed).Failure?
          && Collect(init, domains).error == BadPolarity(init[i].Polarity);
        assert init[..i] == items[..i];
      } else if Collect(items, domains).Failure? {
        assert items[..n] == init;
      }
    }
  }

  /** On success, the keys are exactly the keys of the content-word items. */
  lemma {:induction false} CollectKeys(items: seq<LexItem>, domains: seq<string>)
    requires Collect(items, domains).Success?
    ensures Collect(items, domains).value.Keys == KeysOf(items)
  {
    if items == [] {
      assert KeysOf(items) == {};
    } else {
      var n := |items| - 1;
      var init := items[..n];
      CollectKeys(init, domains);
      assert KeysOf(items) == KeysOf(init) + (if IsContent(items[n]) then {ItemKey(items[n])} else {}) by {
        assert forall i :: 0 <= i < n ==> init[i] == items[i];
      }
    }
  }

  /** On success, each entry holds, in item order, the tags and values of the items with
      its key, the lemma of the first of them and the declared domains. */
  lemma {:induction false} CollectEntry(items: seq<LexItem>, domains: seq<string>, k: string)
    requires Collect(items, domains).Success? && k in Collect(items, domains).value
    ensures var e := Collect(items, domains).value[k];
      && e.PoSTag == TagsFor(items, k)
      && e.SentimentPolarityValue == ValuesFor(items, k)
      && FirstLemma(items, k) == Some(e.Lemma)
      && e.Dictionary == domains
  {
    var n := |items| - 1;
    var init := items[..n];
    var last := items[n];
    var d := Collect(init, domains).value;
    if IsContent(last) && ItemKey(last) == k {
      if k in d {
        CollectEntry(init, domains, k);
      } else {
        CollectKeys(init, domains);
        EmptyForMissingKey(init, k);
      }
    } else {
      CollectEntry(init, domains, k);
    }
  }

  lemma {:induction false} EmptyForMissingKey(items: seq<LexItem>, k: string)
    requires k !in KeysOf(items)
    ensures TagsFor(items, k) == [] && ValuesFor(items, k) == [] && FirstLemma(items, k) == None
  {
    if items != [] {
      var n := |items| - 1;
      assert KeysOf(items[..n]) <= KeysOf(items) by {
        forall i | 0 <= i < n ensures items[..n][i] == items[i] { }
      }
      EmptyForMissingKey(items[..n], k);
      assert IsContent(items[n]) ==> ItemKey(items[n]) in KeysOf(items);
    }
  }

  /** Only the content-word items matter: the first pass over all items equals the first
      pass over the accepted ones. */
  lemma {:induction false} CollectIgnoresFunctionWords(items: seq<LexItem>, domains: seq<string>)
    ensures Collect(items, domains) == Collect(Accepted(items), domains)
  {
    if items != [] {
      var n := |items| - 1;
      CollectIgnoresFunctionWords(items[..n], domains);
      if IsContent(items[n]) {
        var acc := Accepted(items[..n]) + [items[n]];
        assert Accepted(items) == acc;
        assert acc[..|acc| - 1] == Accepted(items[..n]);
        assert acc[|acc| - 1] == items[n];
      } else {
        assert Accepted(items) == Accepted(items[..n]);
      }
    }
  }

  lemma {:induction false} AcceptedConcat(a: seq<LexItem>, b: seq<LexItem>)
    ensures Accepted(a + b) == Accepted(a) + Accepted(b)
  {
    if b != [] {
      var n := |b| - 1;
      assert (a + b)[..|a + b| - 1] == a + b[..n];
      assert (a + b)[|a + b| - 1] == b[n];
      AcceptedConcat(a, b[..n]);
      assert Accepted(a + b) == Accepted(a + b[..n]) + (if IsContent(b[n]) then [b[n]] else []);
    } else {
      assert a + b == a;
    }
  }

  /** An item that is not a content word, wherever it stands, changes nothing. */
  lemma FunctionWordChangesNothing(before: seq<LexItem>, item: LexItem, after: seq<LexItem>, domains: seq<string>)
    requires !IsContent(item)
    ensures Collect(before + [item] + after, domains) == Collect(before + after, domains)
  {
    CollectIgnoresFunctionWords(before + [item] + after, domains);
    CollectIgnoresFunctionWords(before + after, domains);
    AcceptedConcat(before + [item], after);
    AcceptedConcat(before, [item]);
    AcceptedConcat(before, after);
    assert [item][..0] == [];
    assert Accepted([item]) == [];
    assert Accepted(before + [item]) == Accepted(before);
  }

  /** There are never more keys than content-word items. */
  lemma {:induction false} CollectSize(items: seq<LexItem>, domains: seq<string>)
    requires Collect(items, domains).Success?
    ensures |Collect(items, domains).value| <= |Accepted(items)|
  {
    if items != [] {
      var n := |items| - 1;
      CollectSize(items[..n], domains);
    }
  }

  /** After the first pass every entry has one value per tag, and at least one of each. */
  lemma {:induction false} CollectParallel(items: seq<LexItem>, domains: seq<string>)
    requires Collect(items, domains).Success?
    ensures forall k :: k in Collect(items, domains).value ==>
      Collect(items, domains).value[k].Parallel() && |Collect(items, domains).value[k].PoSTag| > 0
  {
    if items != [] {
      CollectParallel(items[..|items| - 1], domains);
    }
  }

  /** Once the first pass has failed on a prefix, the whole pass fails the same way. */
  lemma {:induction false} CollectFailureSticks(items: seq<LexItem>, j: nat, domains: seq<string>)
    requires j <= |items| && Collect(items[..j], domains).Failure?
    ensures Collect(items, domains) == Collect(items[..j], domains)
  {
    if j < |items| {
      var n := |items| - 1;
      assert items[..n][..j] == items[..j];
      CollectFailureSticks(items[..n], j, domains);
      assert items[..j] != items ==> j <= n;
    } else {
      assert items[..j] == items;
    }
  }

  // ---------------------------------------------------------------------------
  // The second pass (lines 67-79): collapse entries whose tags are all the same.

  /** One entry after the second pass. */
  function MergeEntry(e: SentimentEntry): (r: SentimentEntry)
    requires e.Parallel()
    ensures r.Parallel() && r.Lemma == e.Lemma && r.Dictionary == e.Dictionary
    ensures |e.PoSTag| > 1 && AllEqual(e.PoSTag) ==>
      r.PoSTag == [e.PoSTag[0]] && r.SentimentPolarityValue == [Mean(e.SentimentPolarityValue)]
    ensures !(|e.PoSTag| > 1 && AllEqual(e.PoSTag)) ==> r == e
  {
    var tags, values := e.PoSTag, e.SentimentPolarityValue;
    if |tags| > 1 && |set t | t in tags| == 1 then
      SingletonSet(tags);
      SingletonSet(values);
      if |set v | v in values| == 1 then
        MeanOfEqual(values);
        e.(PoSTag := [tags[0]], SentimentPolarityValue := [values[0]])
      else
        e.(PoSTag := [tags[0]], SentimentPolarityValue := [Mean(values)])
    else
      if |tags| > 0 then SingletonSet(tags); e else e
  }

  /** The second pass leaves nothing for a further pass to collapse. */
  lemma MergeEntryIdempotent(e: SentimentEntry)
    requires e.Parallel()
    ensures MergeEntry(MergeEntry(e)) == MergeEntry(e)
  {
  }

  function MergeAll(d: map<string, SentimentEntry>): (r: map<string, SentimentEntry>)
    requires forall k :: k in d ==> d[k].Parallel()
    ensures r.Keys == d.Keys
  {
    map k | k in d :: MergeEntry(d[k])
  }

  // ---------------------------------------------------------------------------
  // The whole load.

  /** The dictionary a lexicon file yields, or the reason it cannot be loaded. */
  function Load(items: seq<LexItem>, domains: seq<string>): Result<SentimentDictionary, LoadError> {
    if |domains| != 1 then Failure(DomainCount(|domains|))
    else
      match Collect(items, domains)
      case Failure(e) => Failure(e)
      case Success(d) =>
        CollectParallel(items, domains);
        Success(SentimentDictionary(domains[0], MergeAll(d)))
  }

  /** A lexicon loads exactly when it declares one domain and every content-word label resolves. */
  lemma LoadSucceeds(items: seq<LexItem>, domains: seq<string>)
    ensures Load(items, domains).Success? <==> |domains| == 1 && LabelsOk(items)
    ensures |domains| != 1 ==> Load(items, domains) == Failure(DomainCount(|domains|))
  {
    CollectFails(items, domains);
  }

  /** What a loaded dictionary holds: its name is the domain; its keys are the lower-cased
      keys of the content-word items and no more numerous than they are; every entry has
      parallel, non-empty lists. */
  lemma LoadedDictionary(items: seq<LexItem>, domains: seq<string>)
    requires Load(items, domains).Success?
    ensures var dict := Load(items, domains).value;
      && dict.Name == domains[0]
      && dict.WellFormed()
      && dict.Dictionary.Keys == KeysOf(items)
      && (forall k :: k in dict.Dictionary ==> IsLower(k))
      && |dict.Dictionary| <= |Accepted(items)|
      && (forall k :: k in dict.Dictionary ==> |dict.Dictionary[k].PoSTag| > 0)
  {
    forall k | k in Load(items, domains).value.Dictionary
      ensures |Load(items, domains).value.Dictionary[k].PoSTag| > 0
    {
      LoadedEntry(items, domains, k);
    }
    CollectParallel(items, domains);
    CollectKeys(items, domains);
    CollectSize(items, domains);
    var d := Collect(items, domains).value;
    assert |MergeAll(d)| == |d| by {
      assert MergeAll(d).Keys == d.Keys;
    }
  }

  /** Each loaded entry is the merge of the tags and values of the items with its key,
      stored with the lemma of the first of them and the declared domains. */
  lemma LoadedEntry(items: seq<LexItem>, domains: seq<string>, k: string)
    requires Load(items, domains).Success? && k in Load(items, domains).value.Dictionary
    ensures var e := Load(items, domains).value.Dictionary[k];
      && |e.PoSTag| > 0
      && FirstLemma(items, k) == Some(e.Lemma)
      && e.Dictionary == domains
      && |TagsFor(items, k)| == |ValuesFor(items, k)|
      && e == MergeEntry(SentimentEntry(e.Lemma, TagsFor(items, k), ValuesFor(items, k), domains))
  {
    CollectParallel(items, domains);
    var d := Collect(items, domains).value;
    assert Load(items, domains) == Success(SentimentDictionary(domains[0], MergeAll(d)));
    var raw := d[k];
    assert Load(items, domains).value.Dictionary[k] == MergeEntry(raw);
    CollectEntry(items, domains, k);
    assert raw == SentimentEntry(raw.Lemma, TagsFor(items, k), ValuesFor(items, k), domains);
    assert MergeEntry(raw).Lemma == raw.Lemma;
  }

  /** Two items with one key and one tag but opposite values merge into a single neutral pair. */
  lemma MergeOfOpposites(lem: string, pos: string, domain: string)
    requires Lower(pos) in ContentTags
    ensures var items := [LexItem(lem, pos, "w", "positive", None), LexItem(lem, pos, "w", "negative", None)];
      var k := ItemKey(items[0]);
      Load(items, [domain]).Success?
      && Load(items, [domain]).value.Dictionary[k].PoSTag == [pos]
      && Load(items, [domain]).value.Dictionary[k].SentimentPolarityValue == [0.0]
  {
    var items := [LexItem(lem, pos, "w", "positive", None), LexItem(lem, pos, "w", "negative", None)];
    var k := ItemKey(items[0]);
    assert items[..1][..0] == [];
    assert items[..1] == [items[0]];
    var d1 := map[k := SentimentEntry(lem, [pos], [1.0], [domain])];
    assert Collect(items[..1], [domain]) == Success(d1);
    var e := SentimentEntry(lem, [pos, pos], [1.0, -1.0], [domain]);
    assert items[..|items| - 1] == items[..1];
    assert ItemKey(items[1]) == k;
    assert LabelValue("negative", None) == Success(-1.0);
    assert IsContent(items[1]) && k in d1;
    assert d1[k].(PoSTag := d1[k].PoSTag + [pos], SentimentPolarityValue := d1[k].SentimentPolarityValue + [-1.0]) == e;
    assert AddItem(d1, items[1], [domain]) == Success(d1[k := e]);
    assert d1[k := e] == map[k := e];
    assert Collect(items, [domain]) == Success(map[k := e]);
    assert Sum(e.SentimentPolarityValue) == 0.0 by {
      assert e.SentimentPolarityValue[..1] == [1.0];
      assert [1.0][..0] == [];
    }
    assert AllEqual(e.PoSTag);
  }

  // ---------------------------------------------------------------------------
  // The loader as the source runs it.

  /** get_dict_object after parsing: check the domain, then the two passes. */
  method GetDictObject(items: seq<LexItem>, domains: seq<string>) returns (res: Result<SentimentDictionary, LoadError>)
    ensures res == Load(items, domains)
  {
    if |domains| != 1 {
      return Failure(DomainCount(|domains|));
    }
    var collected := CollectItems(items, domains);
    if collected.Failure? {
      return Failure(collected.error);
    }
    CollectParallel(items, domains);
    var dictionary := MergeEntries(collected.value);
    return Success(SentimentDictionary(domains[0], dictionary));
  }

  /** The first pass: insert a new entry per key, or append to the existing one. */
  method CollectItems(items: seq<LexItem>, domains: seq<string>) returns (res: Result<map<string, SentimentEntry>, LoadError>)
    ensures res == Collect(items, domains)
  {
    var dictionary: map<string, SentimentEntry> := map[];
    for i := 0 to |items|
      invariant Collect(items[..i], domains) == Success(dictionary)
    {
      var item := items[i];
      assert items[..i + 1][..i] == items[..i];
      if Lower(item.PoS) in ContentTags {
        var value := LabelValue(item.Polarity, item.Parsed);
        if value.Failure? {
          CollectFailureSticks(items, i + 1, domains);
          return Failure(value.error);
        }
        var entry := if item.Lemma != "" then item.Lemma else item.Wordform;
        var key := Lower(entry);
        if key !in dictionary {
          dictionary := dictionary[key := SentimentEntry(item.Lemma, [item.PoS], [value.value], domains)];
        } else {
          var existing := dictionary[key];
          dictionary := dictionary[key := existing.(PoSTag := existing.PoSTag + [item.PoS],
                                                      SentimentPolarityValue := existing.SentimentPolarityValue + [value.value])];
        }
      }
    }
    assert items[..|items|] == items;
    return Success(dictionary);
  }

  /** The second pass: rewrite each entry whose tags are all equal. */
  method MergeEntries(d: map<string, SentimentEntry>) returns (dictionary: map<string, SentimentEntry>)
    requires forall k :: k in d ==> d[k].Parallel()
    ensures dictionary == MergeAll(d)
  {
    dictionary := d;
    var todo := d.Keys;
    while todo != {}
      invariant todo <= d.Keys && dictionary.Keys == d.Keys
      invariant forall k :: k in d.Keys - todo ==> dictionary[k] == MergeEntry(d[k])
      invariant forall k :: k in todo ==> dictionary[k] == d[k]
      decreases todo
    {
      var k :| k in todo;
      var v := dictionary[k];
      if |v.PoSTag| > 1 && |set t | t in v.PoSTag| == 1 {
        if |set x | x in v.SentimentPolarityValue| == 1 {
          dictionary := dictionary[k := v.(PoSTag := [v.PoSTag[0]], SentimentPolarityValue := [v.SentimentPolarityValue[0]])];
        } else {
          var pols: seq<real> := [];
          for indx := 0 to |v.PoSTag|
            invariant pols == v.SentimentPolarityValue[..indx]
          {
            pols := pols + [v.SentimentPolarityValue[indx]];
          }
          assert pols == v.SentimentPolarityValue;
          dictionary := dictionary[k := v.(PoSTag := [v.PoSTag[0]], SentimentPolarityValue := [Sum(pols) / (|pols| as real)])];
        }
      }
      todo := todo - {k};
    }
  }
}
