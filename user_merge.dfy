/**
 * The partial update of a user that both user services apply: a field of
 * the patch replaces the user's only when it is present and not blank.
 */
module UserMerge {
  import opened Wrappers
  import opened Domain
  import opened Text

  /** A `UserDto` read as a patch: an absent field is a null one. */
  datatype UserPatch = UserPatch(name: Option<string>, email: Option<string>)

  /** Whether a patch field replaces the current value. */
  predicate Applies(field: Option<string>) {
    field.Some? && !IsBlank(field.value)
  }

  /** The private `update(UserDto, User)`: name and e-mail are each taken from the patch or kept. */
  function MergeUser(patch: UserPatch, user: User): (r: User)
    ensures r.id == user.id
    ensures r.name == user.name || (patch.name == Some(r.name) && !IsBlank(r.name))
    ensures r.email == user.email || (patch.email == Some(r.email) && !IsBlank(r.email))
  {
    user.(name := if Applies(patch.name) then patch.name.value else user.name,
          email := if Applies(patch.email) then patch.email.value else user.email)
  }

  /** A present, non-blank field always lands in the user; the others never change it. */
  lemma MergeUserFields(patch: UserPatch, user: User)
    ensures Applies(patch.name) ==> MergeUser(patch, user).name == patch.name.value
    ensures !Applies(patch.name) ==> MergeUser(patch, user).name == user.name
    ensures Applies(patch.email) ==> MergeUser(patch, user).email == patch.email.value
    ensures !Applies(patch.email) ==> MergeUser(patch, user).email == user.email
  {
  }

  /** A patch of nulls, or of blank strings, leaves the user as it was. */
  lemma MergeUserOfNothing(user: User, name: Option<string>, email: Option<string>)
    requires !Applies(name) && !Applies(email)
    ensures MergeUser(UserPatch(name, email), user) == user
  {
  }

  /** Applying the same patch twice is applying it once. */
  lemma MergeUserIdempotent(patch: UserPatch, user: User)
    ensures MergeUser(patch, MergeUser(patch, user)) == MergeUser(patch, user)
  {
  }
}
