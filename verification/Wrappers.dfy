/** An optional value, and facts about sequences and sets that several modules need. */
module Wrappers {

  datatype Option<+T> = None | Some(value: T)

  lemma ConcatAssociates<T>(a: seq<T>, b: seq<T>, c: seq<T>)
    ensures a + b + c == a + (b + c)
  {
  }

  lemma EqualByDifference<T>(a: set<T>, b: set<T>)
    ensures a == b <==> a - b == {} && b - a == {}
  {
    if a - b == {} && b - a == {} {
      assert forall x :: x in a ==> x in b || x in a - b;
      assert forall x :: x in b ==> x in a || x in b - a;
    }
  }
}
