/** The request bodies the handlers read, and the checks they apply to them.

    A JSON body is modelled by the keys the handlers look at: the credential
    forms as a map from key to string value, a recipe form as one optional
    value per recipe field (keys the handlers never read are dropped). */
module Payload {
  import opened Optional
  import opened Model

  /** A body of `register` or `login`. */
  type Form = map<string, string>

  /** `data.get(key)` is truthy: the key is present with a non-empty string. */
  predicate Filled(form: Form, key: string)
  {
    key in form && form[key] != ""
  }

  /** The body of a recipe create or update. */
  datatype RecipeBody = RecipeBody(
    title: Option<string>,
    description: Option<string>,
    ingredients: Option<seq<Ingredient>>,
    instructions: Option<string>)

  /** What `request.json` yields in the recipe handlers: an object whose keys the
      handler reads, or a failure (a body that does not parse as JSON), which
      raises inside the handler's `try`. */
  datatype Upload = Readable(body: RecipeBody) | Unreadable

  /** The three keys both recipe handlers demand. */
  predicate HasRequiredKeys(b: RecipeBody)
  {
    b.title.Some? && b.instructions.Some? && b.ingredients.Some?
  }

  /** An ingredient object carries both a `name` and a `quantity` key. */
  predicate Complete(g: Ingredient)
  {
    "name" in g.fields && "quantity" in g.fields
  }

  /** Python's `all(...)` over the ingredients, scanning left to right. */
  function AllComplete(gs: seq<Ingredient>): (ok: bool)
    ensures ok <==> forall i :: 0 <= i < |gs| ==> Complete(gs[i])
  {
    |gs| == 0 || (Complete(gs[0]) && AllComplete(gs[1..]))
  }

  /** What a recipe body is accepted as: only the presence of keys is checked,
      so empty strings and an empty ingredients list pass. */
  predicate Acceptable(b: RecipeBody)
  {
    HasRequiredKeys(b) && forall i :: 0 <= i < |b.ingredients.value| ==> Complete(b.ingredients.value[i])
  }

  /** Why a recipe body is refused. */
  datatype Problem = MissingFields | IncompleteIngredient

  /** The two validation steps of the recipe handlers, in their order. */
  function Check(b: RecipeBody): (r: Option<Problem>)
    ensures r.None? <==> Acceptable(b)
    ensures r == Some(MissingFields) <==> !HasRequiredKeys(b)
    ensures r == Some(IncompleteIngredient) <==>
      HasRequiredKeys(b) && exists i :: 0 <= i < |b.ingredients.value| && !Complete(b.ingredients.value[i])
  {
    if !HasRequiredKeys(b) then Some(MissingFields)
    else if !AllComplete(b.ingredients.value) then Some(IncompleteIngredient)
    else None
  }

  /** The recipe row an accepted body describes: the description defaults to the
      empty string and the ingredients array is stored as its encoded text. */
  function Row(env: Env, b: RecipeBody, id: nat, owner: nat): Recipe
    requires HasRequiredKeys(b)
  {
    Recipe(id, b.title.value, b.description.GetOr(""), env.encode(b.ingredients.value), b.instructions.value, owner)
  }
}
