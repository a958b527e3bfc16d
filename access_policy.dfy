/** The permission tests written inline in the collection and image
    handlers. Modifying a collection (update, delete, share, upload to it,
    delete from it) needs an admin or the creator; reading it also admits
    the users it is shared with. */
module AccessPolicy {

  import opened UserModel
  import opened CollectionModel
  import opened Store

  predicate IsAdmin(a: Actor) {
    a.role == Admin
  }

  /** `req.user.role !== 'admin' && collection.createdBy !== req.user._id` is the refusal. */
  predicate CanModify(a: Actor, c: Collection) {
    IsAdmin(a) || c.createdBy == a.id
  }

  /** The read test of `getCollection`, and the `$or` filter of `getCollections`. */
  predicate CanRead(a: Actor, c: Collection) {
    IsAdmin(a) || a.id in c.accessibleBy || c.createdBy == a.id
  }

  /** Whoever may modify a collection may read it; the converse fails for a
      user it is only shared with. */
  lemma ModifyImpliesRead(a: Actor, c: Collection)
    ensures CanModify(a, c) ==> CanRead(a, c)
    ensures !IsAdmin(a) && c.createdBy != a.id && a.id in c.accessibleBy ==> CanRead(a, c) && !CanModify(a, c)
  {
  }
}
