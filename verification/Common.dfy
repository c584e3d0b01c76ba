// Small definitions shared by the models.
module Common {
  datatype Option<+T> = None | Some(value: T)

  function SetOf<T>(s: seq<T>): set<T> {
    set x | x in s
  }

  predicate Distinct<T(==)>(s: seq<T>) {
    forall i, j :: 0 <= i < j < |s| ==> s[i] != s[j]
  }

  lemma Associate<T>(a: seq<T>, b: seq<T>, c: seq<T>)
    ensures a + b + c == a + (b + c)
  {
  }

  lemma FirstIn<T>(s: seq<T>)
    ensures s != [] ==> s[0] in SetOf(s)
  {
  }
}
