/** Result and error values shared by every request handler of the model.

    The Django views answer with HTTP responses and the serializers raise
    exceptions; here each handler returns an Outcome instead, and the kind of
    failure says which response (or uncaught exception) the code produces. */
module Outcomes {

  datatype Option<+T> = None | Some(value: T) {

    /** The value when present, else the given default (Python's dict.get(key, default)). */
    function GetOr(default: T): T {
      if Some? then value else default
    }
  }

  /** Why the request was rejected with a 400: one case per ValidationError
      message in backend/api/serializers.py and backend/recipes/models.py, and
      InvalidBody for a body that fails the serializer's own field validation. */
  datatype Reason =
    | NoTags               // "choose at least 1 tag"
    | RepeatedTags         // "tags must not repeat"
    | NoIngredients        // "choose at least 1 ingredient"
    | RepeatedIngredient   // "ingredients must not repeat"
    | MissingAmount        // "the amount is required, the minimum is 1"
    | DuplicateText        // "you already have a recipe with the same text"
    | SelfFollow           // "you cannot subscribe to yourself"
    | AlreadyFollowing     // "you are already subscribed to <author>"
    | InvalidBody          // the request body failed the serializer's field validation

  /** An exception the code does not catch, so the request ends with a server error. */
  datatype Fault =
    | MissingKey           // KeyError from dict.pop
    | UnknownIngredient    // Ingredient.DoesNotExist from Ingredient.objects.get
    | NegativeLimit        // a negative slice bound on a queryset
    | InvalidLimit         // ValueError from int() on the recipes_limit parameter
    | AnonymousLookup      // TypeError from filtering a queryset by an anonymous user

  datatype Error =
    | ValidationError(reason: Reason)   // HTTP 400
    | NotFound                          // HTTP 404 from get_object_or_404
    | UniqueViolation                   // IntegrityError from a uniqueness constraint
    | ServerError(fault: Fault)         // any other uncaught exception

  datatype Outcome<+T> = Ok(value: T) | Fail(error: Error)
}
