/** The records stored under a user's node of the realtime database: words and
    the user-defined lists they belong to. A field that JavaScript leaves
    `undefined` or `null` is `None` here. */
module Records {

  datatype Option<+T> = None | Some(value: T)

  /** A vocabulary entry. `traduction` is the translation the word list searches;
      `name` is the translation the quiz reads, kept as a field of its own.
      `list` holds the ids of the lists the word belongs to. */
  datatype Word = Word(
    id: string,
    kana: string,
    kanji: Option<string>,
    traduction: string,
    secondaryTraduction: Option<string>,
    name: Option<string>,
    list: Option<seq<string>>)

  /** A user-defined list; the store keeps it under the key `id`. */
  datatype ListRecord = ListRecord(id: string, name: string)

  /** JavaScript's `toLowerCase`, restricted to the ASCII letters. */
  function LowerChar(c: char): (d: char)
    ensures 'A' <= c <= 'Z' ==> 'a' <= d <= 'z' && d as int - c as int == 32
    ensures !('A' <= c <= 'Z') ==> d == c
  {
    if 'A' <= c <= 'Z' then (c as int + 32) as char else c
  }

  function Lower(s: string): (r: string)
    ensures |r| == |s|
    ensures forall i :: 0 <= i < |s| ==> r[i] == LowerChar(s[i])
  {
    seq(|s|, i requires 0 <= i < |s| => LowerChar(s[i]))
  }

  /** Lowering leaves no upper-case ASCII letter behind, so lowering twice is lowering once. */
  lemma LowerIdempotent(s: string)
    ensures forall i :: 0 <= i < |s| ==> !('A' <= Lower(s)[i] <= 'Z')
    ensures Lower(Lower(s)) == Lower(s)
  {
  }
}
