/**
 Vocabulary shared by the models.
 */
module Common {
  datatype Option<+T> = None | Some(value: T)

  lemma HasMember(s: set<int>)
    ensures s == {} || exists x :: x in s
  {
    assert (forall x :: x !in s) ==> s == {};
  }
}
