/** The members of a set, one after the other. */
module Enumerations {
  ghost function SeqOf<T(!new)>(s: set<T>): seq<T> {
    if s == {} then [] else var x :| x in s; [x] + SeqOf(s - {x})
  }

  ghost predicate NoRepeats<T(!new)>(s: seq<T>) {
    forall i, j | 0 <= i < j < |s| :: s[i] != s[j]
  }

  lemma {:induction false} SeqOfLists<T(!new)>(s: set<T>)
    ensures NoRepeats(SeqOf(s)) && forall x :: x in SeqOf(s) <==> x in s
    decreases |s|
  {
    if s != {} {
      var x := SeqOf(s)[0];
      SeqOfLists(s - {x});
      assert SeqOf(s) == [x] + SeqOf(s - {x});
      assert x in s;
    }
  }
}
