/** The permission classes of the `foodgram` tree
    (`foodgram/utils/permissions.py`): boolean functions of the request
    verb, the requester, and the object's key or author. */
module Permissions {
  import opened Common

  /** `SAFE_METHODS`. */
  const SafeMethods: seq<string> := ["GET", "HEAD", "OPTIONS"]

  predicate IsSafe(verb: string) {
    verb in SafeMethods
  }

  /** `CurrentUserAdminOrReadOnly.has_object_permission` for an object with
      key `objPk`: a safe verb is always allowed; an unsafe one only for
      authenticated staff or for the user the object is (an anonymous
      requester has no key, so it never owns the object). */
  function CurrentUserAdminOrReadOnly(verb: string, who: Requester, objPk: nat): (r: bool)
    ensures IsSafe(verb) ==> r
    ensures who.IsAuthenticated() && who.isStaff ==> r
    ensures who.IsAuthenticated() && who.id == objPk ==> r
    ensures !IsSafe(verb) && !who.IsAuthenticated() ==> !r
    ensures !IsSafe(verb) && who.IsAuthenticated() && !who.isStaff && who.id != objPk ==> !r
  {
    IsSafe(verb)
      || (who.IsAuthenticated() && who.isStaff)
      || (match who case Anonymous => false case Member(pk, _) => objPk == pk)
  }

  /** `IsAuthorOrReadOnly.has_permission`: authenticated, or a safe verb. */
  function IsAuthorOrReadOnlyView(verb: string, who: Requester): (r: bool)
    ensures r <==> who.IsAuthenticated() || IsSafe(verb)
    ensures !IsSafe(verb) && !who.IsAuthenticated() ==> !r
  {
    who.Member? || verb in SafeMethods
  }

  /** `IsAuthorOrReadOnly.has_object_permission` for an object written by
      `author`: the author, or a safe verb; an unsafe request by anyone
      else is denied. */
  function IsAuthorOrReadOnlyObject(verb: string, who: Requester, author: nat): (r: bool)
    ensures IsSafe(verb) ==> r
    ensures !IsSafe(verb) ==> (r <==> who.IsAuthenticated() && who.id == author)
  {
    (match who case Anonymous => false case Member(pk, _) => author == pk) || IsSafe(verb)
  }

  /** Passing the object check implies passing the view check: whoever may
      change a recipe may also reach the view that changes it. */
  lemma ObjectPermissionImpliesView(verb: string, who: Requester, author: nat)
    requires IsAuthorOrReadOnlyObject(verb, who, author)
    ensures IsAuthorOrReadOnlyView(verb, who)
  {
  }

  /** Staff rights are not part of `IsAuthorOrReadOnly`: a staff member who
      is not the author cannot change a recipe, though the user check lets
      staff change any user. */
  lemma StaffIsNotAuthor(verb: string, id: nat, author: nat)
    requires !IsSafe(verb) && id != author
    ensures !IsAuthorOrReadOnlyObject(verb, Member(id, true), author)
    ensures CurrentUserAdminOrReadOnly(verb, Member(id, true), author)
  {
  }
}
