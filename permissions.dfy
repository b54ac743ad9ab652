/** backend/api/permissions.py: the two permission classes, each on its own. */
module Permissions {
  import opened Outcomes
  import opened UserModels
  import opened RecipeModels

  /** rest_framework.permissions.SAFE_METHODS. */
  const SAFE_METHODS: seq<string> := ["GET", "HEAD", "OPTIONS"]

  /** The request's user as the permissions see it: their id when
      authenticated, and the value of their `is_admin` attribute, which the
      user model does not define and which the model therefore takes as given. */
  datatype Requester = Requester(id: Option<UserId>, isAdmin: bool) {
    predicate IsAuthenticated() { id.Some? }
  }

  /** IsAdminOrReadOnly.has_permission. */
  predicate IsAdminOrReadOnly(httpMethod: string, user: Requester) {
    httpMethod in SAFE_METHODS || user.isAdmin
  }

  /** IsAuthorOrReadOnly.has_permission. */
  predicate IsAuthorOrReadOnly(httpMethod: string, user: Requester) {
    httpMethod in SAFE_METHODS || user.IsAuthenticated()
  }

  /** IsAuthorOrReadOnly.has_object_permission: the request method is not read. */
  predicate IsAuthorOfObject(user: Requester, recipe: Recipe) {
    user.id == Some(recipe.author)
  }

  /** Reading is open to everybody, anonymous users included; writing
      depends on the is_admin flag alone. */
  lemma AdminOrReadOnlySpec(httpMethod: string, user: Requester, other: Requester)
    ensures httpMethod in SAFE_METHODS ==> IsAdminOrReadOnly(httpMethod, user)
    ensures httpMethod !in SAFE_METHODS ==> (IsAdminOrReadOnly(httpMethod, user) <==> user.isAdmin)
    ensures user.isAdmin == other.isAdmin ==> (IsAdminOrReadOnly(httpMethod, user) <==> IsAdminOrReadOnly(httpMethod, other))
    ensures IsAdminOrReadOnly("GET", Requester(None, false)) && !IsAdminOrReadOnly("POST", Requester(Some(1), false))
  {
  }

  /** Writing needs only an authenticated user at the view level. */
  lemma AuthorOrReadOnlySpec(httpMethod: string, user: Requester)
    ensures IsAuthorOrReadOnly(httpMethod, user) <==> httpMethod in SAFE_METHODS || user.id.Some?
    ensures !IsAuthorOrReadOnly("DELETE", Requester(None, true))
    ensures IsAuthorOrReadOnly("HEAD", Requester(None, false))
  {
  }

  /** On one recipe only its author passes, and never an anonymous user, for
      whatever method (GET included). */
  lemma AuthorOfObjectSpec(user: Requester, recipe: Recipe)
    ensures IsAuthorOfObject(user, recipe) <==> user.IsAuthenticated() && user.id.value == recipe.author
    ensures user.id.None? ==> !IsAuthorOfObject(user, recipe)
    ensures IsAuthorOfObject(Requester(Some(recipe.author), false), recipe)
  {
  }
}
