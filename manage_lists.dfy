/** The user's word and list records, and the list operations that write to them:
    adding a list, adding a word, and removing a list with its cascade over the words. */
module ManageLists {
  import opened Records
  import opened Sequences
  import Home

  /** The predicate `listId => listId !== id`. */
  function Other(id: string): string -> bool
  {
    listId => listId != id
  }

  /** `list.filter(listId => listId !== id)`. */
  function Detach(list: seq<string>, id: string): (r: seq<string>)
    ensures r == Select(list, Other(id))
    ensures id !in r
    ensures forall x :: x in r <==> x in list && x != id
    ensures IsSubsequence(r, list)
    ensures id !in list ==> r == list
  {
    if list == [] then []
    else if list[0] != id then [list[0]] + Detach(list[1..], id)
    else Detach(list[1..], id)
  }

  /** The words `removeList` rewrites: those with a `list` that contains the id. */
  predicate InList(w: Word, id: string)
  {
    w.list.Some? && id in w.list.value
  }

  /** A word after the cascade of removing list `id`. */
  function DetachWord(w: Word, id: string): (v: Word)
    ensures !InList(v, id)
    ensures v.list.None? <==> w.list.None?
    ensures InList(w, id) ==> v == w.(list := Some(Detach(w.list.value, id)))
    ensures !InList(w, id) ==> v == w
  {
    if InList(w, id) then w.(list := Some(Detach(w.list.value, id))) else w
  }

  /** The words after the cascade of removing list `id`. */
  function WithoutList(words: map<string, Word>, id: string): (r: map<string, Word>)
    ensures r.Keys == words.Keys
  {
    map k | k in words :: DetachWord(words[k], id)
  }

  /** Every word sits under its own id. */
  predicate KeyedWords(words: map<string, Word>)
  {
    forall k :: k in words ==> words[k].id == k
  }

  /** After the cascade of removing list `id` no word refers to it; the words not in it
      are untouched; the others lose every occurrence of the id, keep the other ids
      in order, and keep every other field. */
  lemma WithoutListCascade(words: map<string, Word>, id: string)
    ensures forall k :: k in WithoutList(words, id) ==> !InList(WithoutList(words, id)[k], id)
    ensures forall k :: k in words && !InList(words[k], id) ==> WithoutList(words, id)[k] == words[k]
    ensures forall k :: k in words && InList(words[k], id) ==>
      var v := WithoutList(words, id)[k];
      && v.list == Some(Select(words[k].list.value, Other(id)))
      && IsSubsequence(v.list.value, words[k].list.value)
      && (forall x :: x in v.list.value <==> x in words[k].list.value && x != id)
      && v == words[k].(list := v.list)
  {
  }

  /** Removing the same list twice rewrites the words as removing it once. */
  lemma WithoutListIdempotent(words: map<string, Word>, id: string)
    ensures WithoutList(WithoutList(words, id), id) == WithoutList(words, id)
  {
  }

  /** The cascade keeps every word under its own id. */
  lemma WithoutListKeeps(words: map<string, Word>, id: string)
    requires KeyedWords(words)
    ensures KeyedWords(WithoutList(words, id))
  {
  }

  /** After the cascade, filtering by the removed list shows exactly the words that have no `list`. */
  lemma RemovedListFilter(words: map<string, Word>, id: string, k: string)
    requires k in words
    ensures Home.PassesListStage(WithoutList(words, id)[k], [id]) <==> words[k].list.None?
  {
    var v := WithoutList(words, id)[k];
    if v.list.Some? {
      Home.ListStageIsMembership(v, [id]);
    }
  }

  /** The record `addListOnSubmit` writes under the fresh id. */
  function NewList(id: string, name: string): (l: ListRecord)
    ensures l.id == id && l.name == name
  {
    ListRecord(id, name)
  }

  /** The values of the word form; `list` holds the selected options. */
  datatype WordForm = WordForm(
    kana: string,
    kanji: Option<string>,
    traduction: string,
    secondaryTraduction: Option<string>,
    name: Option<string>,
    list: Option<seq<Home.ListOption>>)

  /** The record `onWordCreation` writes under the fresh id. */
  function NewWord(id: string, values: WordForm): (w: Word)
    ensures w.id == id
    ensures w.list == Home.SubmittedList(values.list)
    ensures w.kana == values.kana && w.kanji == values.kanji && w.name == values.name
    ensures w.traduction == values.traduction && w.secondaryTraduction == values.secondaryTraduction
  {
    Word(id, values.kana, values.kanji, values.traduction, values.secondaryTraduction, values.name,
         Home.SubmittedList(values.list))
  }

  /** The `words` and `lists` collections of one user. */
  class Store {
    var words: map<string, Word>
    var lists: map<string, ListRecord>

    /** Every record sits under its own id, as the write paths build them. */
    ghost predicate Valid()
      reads this
    {
      KeyedWords(words) && Home.KeyedLists(lists)
    }

    constructor ()
      ensures Valid()
      ensures words == map[] && lists == map[]
    {
      words := map[];
      lists := map[];
    }

    /** `addListOnSubmit`: write `{id, name}` at `lists/{id}`; `id` is the fresh key the caller chose. */
    method AddList(id: string, name: string)
      requires Valid()
      modifies this
      ensures Valid()
      ensures lists == old(lists)[id := NewList(id, name)]
      ensures lists[id].id == id
      ensures words == old(words)
    {
      lists := lists[id := NewList(id, name)];
    }

    /** `onWordCreation`: write the form's values, the id and the selected list ids at `words/{id}`. */
    method AddWord(id: string, values: WordForm)
      requires Valid()
      modifies this
      ensures Valid()
      ensures words == old(words)[id := NewWord(id, values)]
      ensures lists == old(lists)
    {
      words := words[id := NewWord(id, values)];
    }

    /** `removeList`: for each word whose `list` contains the list's id, set that word's
        `list` to the id filtered out; then delete the list record. */
    method RemoveList(listValue: ListRecord)
      requires Valid()
      modifies this
      ensures Valid()
      ensures words == WithoutList(old(words), listValue.id)
      ensures lists == old(lists) - {listValue.id}
    {
      var snapshot := words;
      var affected := set k | k in snapshot && InList(snapshot[k], listValue.id);
      var todo := affected;
      while todo != {}
        invariant todo <= affected
        invariant Home.KeyedLists(lists) && lists == old(lists)
        invariant words.Keys == snapshot.Keys
        invariant forall k :: k in words ==>
          words[k] == if k in affected && k !in todo then DetachWord(snapshot[k], listValue.id) else snapshot[k]
        decreases todo
      {
        var k :| k in todo;
        var word := snapshot[k];
        words := words[word.id := words[word.id].(list := Some(Detach(word.list.value, listValue.id)))];
        todo := todo - {k};
      }
      WithoutListKeeps(snapshot, listValue.id);
      lists := lists - {listValue.id};
    }
  }

  /** Two removals of the same list leave the store as one removal does: the same word keys,
      no word referring to the list, and the list key gone. */
  method RemoveListTwice(store: Store, listValue: ListRecord)
    requires store.Valid()
    modifies store
    ensures store.Valid()
    ensures store.words.Keys == old(store.words.Keys)
    ensures forall k :: k in store.words ==> !InList(store.words[k], listValue.id)
    ensures store.lists == old(store.lists) - {listValue.id}
    ensures store.words == WithoutList(old(store.words), listValue.id)
  {
    store.RemoveList(listValue);
    store.RemoveList(listValue);
    WithoutListIdempotent(old(store.words), listValue.id);
    WithoutListCascade(old(store.words), listValue.id);
  }
}
