/** The word list screen: the two-stage word filter, and the conversions between
    list ids and the `{label, value}` options of the list selector. */
module Home {
  import opened Records
  import opened Sequences

  // ---------------------------------------------------------------- list stage

  /** lodash's `intersection(a, b)`: the distinct values of `a` that also occur in
      `b`, each at its first occurrence in `a`. */
  function Intersection(a: seq<string>, b: seq<string>): (r: seq<string>)
    ensures Distinct(r)
    ensures Elements(r) == Elements(a) * Elements(b)
    decreases |a|
  {
    if a == [] then []
    else
      var rest := Intersection(a[..|a| - 1], b);
      var x := a[|a| - 1];
      assert Elements(a) == Elements(a[..|a| - 1]) + {x} by {
        assert a == a[..|a| - 1] + [x];
      }
      if x in b && x !in rest then
        assert Elements(rest + [x]) == Elements(rest) + {x};
        rest + [x]
      else
        rest
  }

  /** The length the list stage compares: the number of distinct values the two share. */
  lemma IntersectionLength(a: seq<string>, b: seq<string>)
    ensures |Intersection(a, b)| == |Elements(a) * Elements(b)|
  {
    ElementsCard(Intersection(a, b));
  }

  /** The first `filter` of `filterWords`: a non-empty list filter is applied only to
      a word that has a `list`. */
  predicate PassesListStage(w: Word, listsFilters: seq<string>)
    ensures listsFilters == [] || w.list.None? ==> PassesListStage(w, listsFilters)
    ensures PassesListStage(w, listsFilters) && |listsFilters| > 0 && w.list.Some? ==>
      |Elements(w.list.value) * Elements(listsFilters)| == |listsFilters|
  {
    IntersectionLength(if w.list.Some? then w.list.value else [], listsFilters);
    if |listsFilters| > 0 && w.list.Some? then
      |Intersection(w.list.value, listsFilters)| == |listsFilters|
    else
      true
  }

  /** A word with a `list` passes a non-empty, duplicate-free list filter iff it
      belongs to every selected list. */
  lemma ListStageIsMembership(w: Word, listsFilters: seq<string>)
    requires w.list.Some? && |listsFilters| > 0 && Distinct(listsFilters)
    ensures PassesListStage(w, listsFilters) <==> forall id :: id in listsFilters ==> id in w.list.value
  {
    var a, f := Elements(w.list.value), Elements(listsFilters);
    IntersectionLength(w.list.value, listsFilters);
    ElementsCard(listsFilters);
    SubsetCard(a * f, f);
    if PassesListStage(w, listsFilters) {
      assert a * f == f;
      forall id | id in listsFilters ensures id in w.list.value {
        assert id in f;
      }
    }
    if forall id :: id in listsFilters ==> id in w.list.value {
      assert a * f == f;
    }
  }

  /** A list filter that names a list twice lets no word with a `list` through. */
  lemma ListStageRejectsDuplicates(w: Word, listsFilters: seq<string>)
    requires w.list.Some? && !Distinct(listsFilters)
    ensures !PassesListStage(w, listsFilters)
  {
    var a, f := Elements(w.list.value), Elements(listsFilters);
    IntersectionLength(w.list.value, listsFilters);
    ElementsCard(listsFilters);
    SubsetCard(a * f, f);
  }

  /** A word without a `list` passes the list stage, whatever the filter. */
  lemma ListStageAdmitsListless(w: Word, listsFilters: seq<string>)
    requires w.list.None?
    ensures PassesListStage(w, listsFilters)
  {
  }

  // ---------------------------------------------------------------- text stage

  /** The secondary translation as the text stage sees it: lowered, or `''` when falsy. */
  function SecondaryKey(w: Word): (k: string)
    ensures w.secondaryTraduction.None? ==> k == ""
  {
    if w.secondaryTraduction.Some? && w.secondaryTraduction.value != "" then
      Lower(w.secondaryTraduction.value)
    else
      ""
  }

  /** The second `filter` of `filterWords`: the lowered search must equal one of the
      four fields; `kanji` is compared as it is, and an absent one matches nothing. */
  predicate PassesTextStage(w: Word, searchFilter: string)
    ensures searchFilter == "" ==> PassesTextStage(w, searchFilter)
    ensures searchFilter != "" && PassesTextStage(w, searchFilter) ==>
      var target := Lower(searchFilter);
      target == w.kana || w.kanji == Some(target) || target == Lower(w.traduction) || target == SecondaryKey(w)
  {
    if searchFilter != "" then
      Some(Lower(searchFilter)) in [Some(w.kana), w.kanji, Some(Lower(w.traduction)), Some(SecondaryKey(w))]
    else
      true
  }

  /** A non-empty search is exact equality with one of the four fields. */
  lemma TextStageIsExactMatch(w: Word, searchFilter: string)
    requires searchFilter != ""
    ensures PassesTextStage(w, searchFilter) <==>
      var target := Lower(searchFilter);
      || target == w.kana
      || w.kanji == Some(target)
      || target == Lower(w.traduction)
      || (w.secondaryTraduction.Some? && target == Lower(w.secondaryTraduction.value))
  {
  }

  /** The `''` placeholder of an absent secondary translation never matches a search. */
  lemma AbsentSecondaryNeverMatches(w: Word, searchFilter: string)
    requires searchFilter != "" && w.secondaryTraduction.None?
    ensures PassesTextStage(w, searchFilter) <==>
      Lower(searchFilter) in [w.kana, Lower(w.traduction)] || w.kanji == Some(Lower(searchFilter))
  {
  }

  /** A search that is a proper part of a field does not match it. */
  lemma SearchIsNotSubstring()
    ensures !PassesTextStage(Word("w", "みず", None, "water", None, None, None), "wat")
  {
  }

  // ---------------------------------------------------------------- filterWords

  function ListStage(listsFilters: seq<string>): Word -> bool
  {
    w => PassesListStage(w, listsFilters)
  }

  function TextStage(searchFilter: string): Word -> bool
  {
    w => PassesTextStage(w, searchFilter)
  }

  function BothStages(listsFilters: seq<string>, searchFilter: string): Word -> bool
  {
    w => PassesListStage(w, listsFilters) && PassesTextStage(w, searchFilter)
  }

  /** `filterWords`: the list stage, then the text stage. */
  function FilterWords(words: seq<Word>, listsFilters: seq<string>, searchFilter: string): (r: seq<Word>)
    ensures forall w :: w in r <==> w in words && PassesListStage(w, listsFilters) && PassesTextStage(w, searchFilter)
  {
    Select(Select(words, ListStage(listsFilters)), TextStage(searchFilter))
  }

  /** The two chained stages are one filter by both predicates. */
  lemma FilterWordsIsOneFilter(words: seq<Word>, listsFilters: seq<string>, searchFilter: string)
    ensures FilterWords(words, listsFilters, searchFilter) == Select(words, BothStages(listsFilters, searchFilter))
  {
    SelectSelect(words, ListStage(listsFilters), TextStage(searchFilter), BothStages(listsFilters, searchFilter));
  }

  /** The visible words are a subsequence of all words, in their order. */
  lemma FilterWordsKeepsOrder(words: seq<Word>, listsFilters: seq<string>, searchFilter: string)
    ensures IsSubsequence(FilterWords(words, listsFilters, searchFilter), words)
  {
    FilterWordsIsOneFilter(words, listsFilters, searchFilter);
  }

  /** With no list selected and an empty search every word is shown, in order. */
  lemma FilterWordsWithoutFilters(words: seq<Word>)
    ensures FilterWords(words, [], "") == words
  {
    FilterWordsIsOneFilter(words, [], "");
    SelectAll(words, BothStages([], ""));
  }

  /** Filtering the visible words again with the same criteria shows the same words. */
  lemma FilterWordsIdempotent(words: seq<Word>, listsFilters: seq<string>, searchFilter: string)
    ensures FilterWords(FilterWords(words, listsFilters, searchFilter), listsFilters, searchFilter)
         == FilterWords(words, listsFilters, searchFilter)
  {
    var r := FilterWords(words, listsFilters, searchFilter);
    FilterWordsIsOneFilter(r, listsFilters, searchFilter);
    assert forall i :: 0 <= i < |r| ==> BothStages(listsFilters, searchFilter)(r[i]) by {
      forall i | 0 <= i < |r| ensures BothStages(listsFilters, searchFilter)(r[i]) {
        assert r[i] in r;
      }
    }
    SelectAll(r, BothStages(listsFilters, searchFilter));
  }

  /** Of the words `{list: [a, b]}` and `{list: [a]}`, the filter `[a, b]` keeps the first only. */
  lemma FilterWordsTwoLists()
    ensures
      var first := Word("1", "みず", None, "water", None, None, Some(["a", "b"]));
      var second := Word("2", "ひ", None, "fire", None, None, Some(["a"]));
      FilterWords([first, second], ["a", "b"], "") == [first]
  {
    var first := Word("1", "みず", None, "water", None, None, Some(["a", "b"]));
    var second := Word("2", "ひ", None, "fire", None, None, Some(["a"]));
    ListStageIsMembership(first, ["a", "b"]);
    ListStageIsMembership(second, ["a", "b"]);
    assert "b" !in ["a"];
    FilterWordsIsOneFilter([first, second], ["a", "b"], "");
    assert [first, second][1..] == [second];
  }

  // ---------------------------------------------------------------- list options

  /** An option of the list selector; `caption` is its `label` (a reserved word in Dafny). */
  datatype ListOption = ListOption(caption: string, value: string)

  /** The outcome of reading list records by id: `MissingList` is the crash on the
      first id that is not a key of the lists. */
  datatype Lookup<T> = Found(value: T) | MissingList(id: string)

  /** Every list record sits under its own id. */
  predicate KeyedLists(lists: map<string, ListRecord>)
  {
    forall k :: k in lists ==> lists[k].id == k
  }

  function OptionOf(l: ListRecord): ListOption
  {
    ListOption(l.name, l.id)
  }

  /** `listsOptions`: one option per list record, in the order the records come. */
  function ListsOptions(records: seq<ListRecord>): (r: seq<ListOption>)
    ensures |r| == |records|
    ensures forall i :: 0 <= i < |r| ==> r[i].caption == records[i].name && r[i].value == records[i].id
  {
    seq(|records|, i requires 0 <= i < |records| => OptionOf(records[i]))
  }

  /** The ids of a word's lists as selector options, read from `lists` by key. */
  function IdsToOptions(ids: seq<string>, lists: map<string, ListRecord>): (r: Lookup<seq<ListOption>>)
    ensures r.Found? <==> forall i :: 0 <= i < |ids| ==> ids[i] in lists
    ensures r.MissingList? ==>
      exists i :: 0 <= i < |ids| && ids[i] == r.id && r.id !in lists && forall j :: 0 <= j < i ==> ids[j] in lists
    ensures r.Found? ==> |r.value| == |ids|
    ensures r.Found? ==>
      forall i :: 0 <= i < |ids| ==> r.value[i].caption == lists[ids[i]].name && r.value[i].value == lists[ids[i]].id
  {
    if ids == [] then Found([])
    else if ids[0] !in lists then MissingList(ids[0])
    else
      match IdsToOptions(ids[1..], lists)
      case MissingList(id) =>
        var i :| 0 <= i < |ids[1..]| && ids[1..][i] == id && id !in lists && forall j :: 0 <= j < i ==> ids[1..][j] in lists;
        assert ids[i + 1] == id && forall j :: 0 <= j < i + 1 ==> ids[j] in lists;
        MissingList(id)
      case Found(rest) => Found([OptionOf(lists[ids[0]])] + rest)
  }

  /** Selected options back to ids: `values.map(({value}) => value)`. */
  function OptionValues(options: seq<ListOption>): (ids: seq<string>)
    ensures |ids| == |options|
    ensures forall i :: 0 <= i < |options| ==> ids[i] == options[i].value
  {
    seq(|options|, i requires 0 <= i < |options| => options[i].value)
  }

  /** The `list` field of the form's initial values when a word is edited. */
  function InitialList(list: Option<seq<string>>, lists: map<string, ListRecord>): (r: Lookup<Option<seq<ListOption>>>)
    ensures r.Found? ==> (r.value.None? <==> list.None?)
  {
    match list
    case None => Found(None)
    case Some(ids) =>
      match IdsToOptions(ids, lists)
      case MissingList(id) => MissingList(id)
      case Found(options) => Found(Some(options))
  }

  /** The `list` field written when a word is created or edited. */
  function SubmittedList(list: Option<seq<ListOption>>): (r: Option<seq<string>>)
    ensures r.None? <==> list.None?
  {
    match list
    case None => None
    case Some(options) => Some(OptionValues(options))
  }

  /** Editing a word without touching its lists fails exactly when one of its ids is not a list key. */
  lemma InitialListFails(list: Option<seq<string>>, lists: map<string, ListRecord>)
    ensures InitialList(list, lists).MissingList? <==> list.Some? && exists id :: id in list.value && id !in lists
  {
  }

  /** Ids to options and back gives the ids again, when every id is the key of a record carrying it. */
  lemma IdsRoundTrip(list: Option<seq<string>>, lists: map<string, ListRecord>)
    requires KeyedLists(lists)
    requires list.Some? ==> forall id :: id in list.value ==> id in lists
    ensures InitialList(list, lists).Found?
    ensures SubmittedList(InitialList(list, lists).value) == list
  {
    InitialListFails(list, lists);
    if list.Some? {
      var options := IdsToOptions(list.value, lists).value;
      assert OptionValues(options) == list.value;
    }
  }

  /** Options chosen from `listsOptions` of the stored lists, to ids and back, give the same options. */
  lemma OptionsRoundTrip(records: seq<ListRecord>, lists: map<string, ListRecord>, chosen: seq<ListOption>)
    requires KeyedLists(lists)
    requires forall r :: r in records ==> r.id in lists && lists[r.id] == r
    requires forall o :: o in chosen ==> o in ListsOptions(records)
    ensures IdsToOptions(OptionValues(chosen), lists) == Found(chosen)
  {
    var ids := OptionValues(chosen);
    var options := ListsOptions(records);
    forall i | 0 <= i < |chosen| ensures ids[i] in lists && OptionOf(lists[ids[i]]) == chosen[i] {
      assert chosen[i] in options;
      var k :| 0 <= k < |options| && options[k] == chosen[i];
      assert records[k] in records;
    }
    var r := IdsToOptions(ids, lists);
    assert r.Found?;
    assert r.value == chosen;
  }
}
