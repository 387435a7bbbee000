/**
 * The todo record shared by the server and the browser, and the sequence
 * vocabulary (search by id, uniqueness, order) both sides use.
 */
module TodoModel {
  import opened Wrappers

  /** A todo: its identity `id`, its text, its creation timestamp and whether it is done. */
  datatype Todo = Todo(id: string, content: string, date: string, done: bool)

  /** The same record with `done` negated and every other field kept. */
  function Flip(t: Todo): Todo {
    t.(done := !t.done)
  }

  predicate HasId(s: seq<Todo>, id: string) {
    exists k :: 0 <= k < |s| && s[k].id == id
  }

  /** No two records of the list share an id. */
  predicate UniqueIds(s: seq<Todo>) {
    forall i, j :: 0 <= i < j < |s| ==> s[i].id != s[j].id
  }

  /**
   * The position of the first record carrying `id`, as `Array.prototype.findIndex`
   * (and `find`) compute it; `None` where the application gets `-1` or `undefined`.
   */
  function FirstIndexOf(s: seq<Todo>, id: string): (r: Option<nat>)
    ensures r.None? <==> !HasId(s, id)
    ensures r.Some? ==> r.value < |s| && s[r.value].id == id
    ensures r.Some? ==> forall k :: 0 <= k < r.value ==> s[k].id != id
  {
    if |s| == 0 then None
    else if s[0].id == id then Some(0)
    else match FirstIndexOf(s[1..], id)
      case None =>
        assert forall k :: 1 <= k < |s| ==> s[k].id == s[1..][k - 1].id;
        None
      case Some(i) => Some(i + 1)
  }

  /** `Array.prototype.reverse` on a list built in place. */
  function Reverse<T>(s: seq<T>): (r: seq<T>)
    ensures |r| == |s|
    ensures forall k :: 0 <= k < |s| ==> r[k] == s[|s| - 1 - k]
  {
    if s == [] then [] else Reverse(s[1..]) + [s[0]]
  }

  /** `a` is `b` with some elements dropped and the rest kept in their relative order. */
  ghost predicate IsSubsequence<T>(a: seq<T>, b: seq<T>)
    decreases |b|
  {
    if a == [] then true
    else if b == [] then false
    else (a[0] == b[0] && IsSubsequence(a[1..], b[1..])) || IsSubsequence(a, b[1..])
  }

  /** Dropping the first element of the longer list keeps a subsequence one. */
  lemma SubsequenceOfTail<T>(a: seq<T>, b: seq<T>)
    requires b != [] && IsSubsequence(a, b[1..])
    ensures IsSubsequence(a, b)
  {
  }

  /** Two lists that carry the same ids at the same positions agree on where an id first occurs. */
  lemma FirstIndexOfSameIds(s: seq<Todo>, t: seq<Todo>, id: string)
    requires |s| == |t|
    requires forall k :: 0 <= k < |s| ==> s[k].id == t[k].id
    ensures FirstIndexOf(s, id) == FirstIndexOf(t, id)
  {
    match FirstIndexOf(s, id)
    case None =>
    case Some(i) =>
      assert t[i].id == id;
  }

  /** Under unique ids the first record carrying an id is the only one. */
  lemma UniqueFirstIndex(s: seq<Todo>, id: string, i: nat)
    requires UniqueIds(s)
    requires FirstIndexOf(s, id) == Some(i)
    ensures forall k :: 0 <= k < |s| && k != i ==> s[k].id != id
  {
  }
}
