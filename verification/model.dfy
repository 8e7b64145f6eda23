/** The entities of the recipe service and the store that holds them.

    A table is a sequence of rows in the order the database scans it (its rowid
    order); ids are handed out by a counter, so that order is also id order. */
module Model {
  import opened Optional

  /** One element of a recipe's `ingredients` array: a JSON object. Only its keys
      matter to the handlers; its values reach the store through `Env.encode`. */
  datatype Ingredient = Ingredient(fields: map<string, string>)

  /** A registered account. `passwordHash` is the opaque credential; the
      plain-text password is never stored. */
  datatype User = User(id: nat, username: string, email: string, passwordHash: string)

  /** A stored recipe. `ingredients` is the encoded text of the ingredients array,
      as the table stores it; `owner` is the `user_id` foreign key. */
  datatype Recipe = Recipe(
    id: nat,
    title: string,
    description: string,
    ingredients: string,
    instructions: string,
    owner: nat)

  /** The persistent state: both tables, and the next id each one hands out. */
  datatype Store = Store(users: seq<User>, recipes: seq<Recipe>, nextUserId: nat, nextRecipeId: nat)

  /** The identity remembered by the session cookie: a user id, or nobody. */
  type Session = Option<nat>

  /** The collaborators the handlers call but this model does not define:
      password hashing, password verification (`check_password_hash(hash, pw)`)
      and the JSON text encoding of an ingredients array. */
  datatype Env = Env(
    hash: string -> string,
    verify: (string, string) -> bool,
    encode: seq<Ingredient> -> string)

  /** The five fields the recipe schema dumps into a response. */
  datatype RecipeView = RecipeView(
    id: nat,
    title: string,
    description: string,
    ingredients: string,
    instructions: string)

  function Dump(r: Recipe): RecipeView
  {
    RecipeView(r.id, r.title, r.description, r.ingredients, r.instructions)
  }

  /** The serialised recipe carries every column but the owner: two rows read
      the same exactly when they differ at most in who owns them. */
  lemma DumpHidesOnlyOwner(a: Recipe, b: Recipe)
    ensures Dump(a) == Dump(b) <==> a.(owner := b.owner) == b
  {
  }

  /** The position of the first row satisfying `p`: the `.first()` of a filtered query. */
  function FirstIndex<T>(xs: seq<T>, p: T -> bool): (r: Option<nat>)
    ensures r.Some? ==> r.value < |xs| && p(xs[r.value])
    ensures r.Some? ==> forall j :: 0 <= j < r.value ==> !p(xs[j])
    ensures r.None? ==> forall j :: 0 <= j < |xs| ==> !p(xs[j])
  {
    if |xs| == 0 then None
    else if p(xs[0]) then Some(0)
    else
      match FirstIndex(xs[1..], p)
      case None => None
      case Some(k) => Some(k + 1)
  }

  function UserIndex(users: seq<User>, id: nat): Option<nat>
  {
    FirstIndex(users, (u: User) => u.id == id)
  }

  function RecipeIndex(recipes: seq<Recipe>, id: nat): Option<nat>
  {
    FirstIndex(recipes, (r: Recipe) => r.id == id)
  }

  /** The user with primary key `id`, if any (`User.query.get`). */
  function UserAt(st: Store, id: nat): Option<User>
  {
    match UserIndex(st.users, id)
    case None => None
    case Some(i) => Some(st.users[i])
  }

  /** The recipe with primary key `id`, if any (`Recipe.query.get`). */
  function RecipeAt(st: Store, id: nat): Option<Recipe>
  {
    match RecipeIndex(st.recipes, id)
    case None => None
    case Some(i) => Some(st.recipes[i])
  }

  predicate HasUser(users: seq<User>, id: nat)
  {
    exists j :: 0 <= j < |users| && users[j].id == id
  }

  /** The store invariant every handler keeps: ids are primary keys handed out in
      increasing order, usernames and emails are unique, and every recipe's owner
      is a stored user. */
  predicate Valid(st: Store)
  {
    && (forall i, j :: 0 <= i < j < |st.users| ==> st.users[i].id < st.users[j].id)
    && (forall i :: 0 <= i < |st.users| ==> st.users[i].id < st.nextUserId)
    && (forall i, j :: 0 <= i < j < |st.users| ==>
          st.users[i].username != st.users[j].username && st.users[i].email != st.users[j].email)
    && (forall i, j :: 0 <= i < j < |st.recipes| ==> st.recipes[i].id < st.recipes[j].id)
    && (forall i :: 0 <= i < |st.recipes| ==> st.recipes[i].id < st.nextRecipeId)
    && (forall i :: 0 <= i < |st.recipes| ==> HasUser(st.users, st.recipes[i].owner))
  }

  /** A session names nobody or a stored user. */
  predicate SessionValid(st: Store, session: Session)
  {
    session.Some? ==> HasUser(st.users, session.value)
  }

  lemma {:induction false} FirstIndexAppend<T>(xs: seq<T>, y: T, p: T -> bool)
    ensures FirstIndex(xs + [y], p) ==
      if FirstIndex(xs, p).Some? then FirstIndex(xs, p) else if p(y) then Some(|xs|) else None
  {
    if |xs| > 0 {
      assert (xs + [y])[1..] == xs[1..] + [y];
      FirstIndexAppend(xs[1..], y, p);
    }
  }

  lemma {:induction false} FirstIndexReplace<T>(xs: seq<T>, i: nat, y: T, p: T -> bool)
    requires i < |xs| && p(y) == p(xs[i])
    ensures FirstIndex(xs[i := y], p) == FirstIndex(xs, p)
  {
    if i > 0 {
      assert xs[i := y][1..] == xs[1..][i - 1 := y];
      FirstIndexReplace(xs[1..], i - 1, y, p);
    }
  }

  lemma {:induction false} FirstIndexRemove<T>(xs: seq<T>, i: nat, p: T -> bool)
    requires i < |xs| && !p(xs[i])
    ensures FirstIndex(xs[..i] + xs[i + 1..], p) ==
      match FirstIndex(xs, p)
      case None => None
      case Some(k) => Some(if k < i then k else k - 1)
  {
    if i == 0 {
      assert xs[..0] + xs[1..] == xs[1..];
    } else {
      var ys := xs[1..];
      assert (xs[..i] + xs[i + 1..])[1..] == ys[..i - 1] + ys[i..];
      FirstIndexRemove(ys, i - 1, p);
    }
  }

  /** Replacing a row by one with the same id changes what that id finds and
      nothing else. */
  lemma RecipeAtReplace(st: Store, i: nat, r: Recipe)
    requires RecipeIndex(st.recipes, r.id) == Some(i)
    ensures RecipeAt(st.(recipes := st.recipes[i := r]), r.id) == Some(r)
    ensures forall other :: other != r.id ==>
      RecipeAt(st.(recipes := st.recipes[i := r]), other) == RecipeAt(st, other)
  {
    var st' := st.(recipes := st.recipes[i := r]);
    forall other: nat
      ensures RecipeIndex(st'.recipes, other) == RecipeIndex(st.recipes, other)
    {
      FirstIndexReplace(st.recipes, i, r, (x: Recipe) => x.id == other);
    }
  }

  /** Removing the row at `i` leaves every other id finding what it found. */
  lemma RecipeAtRemove(st: Store, i: nat)
    requires i < |st.recipes|
    ensures forall other :: other != st.recipes[i].id ==>
      RecipeAt(st.(recipes := st.recipes[..i] + st.recipes[i + 1..]), other) == RecipeAt(st, other)
  {
    var xs := st.recipes;
    var ys := xs[..i] + xs[i + 1..];
    forall other | other != xs[i].id
      ensures RecipeAt(st.(recipes := ys), other) == RecipeAt(st, other)
    {
      FirstIndexRemove(xs, i, (x: Recipe) => x.id == other);
      match RecipeIndex(xs, other)
      case None =>
      case Some(k) =>
        if k < i {
          assert ys[k] == xs[k];
        } else {
          assert ys[k - 1] == xs[k];
        }
    }
  }

  /** Appending a row leaves every other id finding what it found; a fresh id
      finds the new row. */
  lemma RecipeAtAppend(st: Store, r: Recipe)
    ensures forall other :: other != r.id ==>
      RecipeAt(st.(recipes := st.recipes + [r]), other) == RecipeAt(st, other)
    ensures (forall j :: 0 <= j < |st.recipes| ==> st.recipes[j].id != r.id) ==>
      RecipeAt(st.(recipes := st.recipes + [r]), r.id) == Some(r)
  {
    var xs := st.recipes;
    forall other: nat
      ensures RecipeIndex(xs + [r], other) ==
        if RecipeIndex(xs, other).Some? then RecipeIndex(xs, other)
        else if r.id == other then Some(|xs|) else None
    {
      FirstIndexAppend(xs, r, (x: Recipe) => x.id == other);
    }
    forall other: nat | RecipeIndex(xs, other).Some?
      ensures (xs + [r])[RecipeIndex(xs, other).value] == xs[RecipeIndex(xs, other).value]
    {
    }
  }

  /** The store of a freshly created database. */
  const Empty: Store := Store([], [], 1, 1)

  lemma EmptyValid()
    ensures Valid(Empty) && SessionValid(Empty, None)
  {
  }
}
