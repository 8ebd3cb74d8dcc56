/** Datatypes and facts about collections that several components share. */
module Common {

  datatype Option<+T> = None | Some(value: T)

  datatype Result<+T, +E> = Ok(value: T) | Err(error: E)

  /** The elements of a finite set in some order, each once. */
  ghost function Enumerate<T(!new)>(s: set<T>): (r: seq<T>)
    ensures multiset(r) == multiset(s)
    decreases s
  {
    if s == {} then []
    else
      var x :| x in s;
      var rest := Enumerate(s - {x});
      assert multiset(s) == multiset{x} + multiset(s - {x});
      [x] + rest
  }

  lemma ConcatAssociative<T>(a: seq<T>, b: seq<T>, c: seq<T>)
    ensures a + (b + c) == (a + b) + c
  {
  }
}
