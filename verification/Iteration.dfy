/**
 Loops over the keys of a hash map or the members of a hash set, in whatever order: `rest`
 are those still to come.
*/
module Iteration {

  lemma NoneDone<K>(keys: set<K>)
    ensures keys - keys == {} && keys - {} == keys
  {
  }

  lemma NextDone<K>(keys: set<K>, rest: set<K>, k: K)
    requires k in rest && rest <= keys
    ensures keys - (rest - {k}) == keys - rest + {k} && k !in keys - rest
  {
  }
}
