/**
 The key-value state. A `Store` is what the root multistore holds; a `Writes` is the dirty
 set of one cache branch (`CacheMultiStore`): the keys it deleted and the keys it set. Any
 other key reads through to the branch's parent.
 */
module Stores {
  type Key = string

  type Value = string

  type Store = map<Key, Value>

  datatype Writes = Writes(deleted: set<Key>, updated: Store)

  const NO_WRITES: Writes := Writes({}, map[])

  /** What a reader of a branch over `parent` sees. It is also the parent's content after `Write`. */
  function View(parent: Store, w: Writes): (s: Store) {
    (parent - w.deleted) + w.updated
  }

  /** The outer branch after the inner branch, its child, is flushed with `Write`. */
  function Merge(outer: Writes, inner: Writes): (w: Writes) {
    Writes(outer.deleted - inner.updated.Keys + inner.deleted, (outer.updated - inner.deleted) + inner.updated)
  }

  /** A branch shows its own writes, hides what it deleted, and lets everything else through. */
  lemma ViewAt(parent: Store, w: Writes, k: Key)
    ensures
      var s := View(parent, w);
      if k in w.updated then k in s && s[k] == w.updated[k]
      else if k in w.deleted then k !in s
      else (k in s <==> k in parent) && (k in parent ==> s[k] == parent[k])
  {
  }

  lemma ViewNothing(parent: Store)
    ensures View(parent, NO_WRITES) == parent
  {
  }

  lemma MergeNothing(w: Writes)
    ensures Merge(w, NO_WRITES) == w && Merge(NO_WRITES, w) == w
  {
  }

  /** Flushing a branch does not change what a reader sees through it. */
  lemma ViewMerged(parent: Store, outer: Writes, inner: Writes)
    ensures View(View(parent, outer), inner) == View(parent, Merge(outer, inner))
  {
  }
}
