/** Properties that relate several handler calls, or that hold of every store
    the handlers can reach. */
module Properties {
  import opened Optional
  import opened Model
  import opened Payload
  import opened Search
  import opened Pagination
  import opened Handlers

  /** Registration keeps ids increasing and usernames and emails unique. */
  lemma RegisterKeepsValid(env: Env, st: Store, session: Session, form: Form)
    requires Valid(st)
    ensures Valid(Register(env, st, session, form).store)
  {
  }

  /** Creation keeps recipe ids increasing and every owner a stored user. */
  lemma CreateKeepsValid(env: Env, st: Store, session: Session, upload: Upload)
    requires Valid(st)
    ensures Valid(CreateRecipe(env, st, session, upload).store)
  {
  }

  /** An update touches neither the id nor the owner of the row it rewrites. */
  lemma UpdateKeepsValid(env: Env, st: Store, session: Session, id: nat, upload: Upload)
    requires Valid(st)
    ensures Valid(UpdateRecipe(env, st, session, id, upload).store)
  {
  }

  /** Removing any one recipe row keeps the store invariant. */
  lemma RemoveKeepsValid(st: Store, i: nat)
    requires Valid(st) && i < |st.recipes|
    ensures Valid(st.(recipes := st.recipes[..i] + st.recipes[i + 1..]))
  {
  }

  /** A delete removes one row and keeps the store invariant. */
  lemma DeleteKeepsValid(st: Store, session: Session, id: nat)
    requires Valid(st)
    ensures Valid(DeleteRecipe(st, session, id).store)
  {
    var s := DeleteRecipe(st, session, id);
    if s.reply == Deleted {
      var i := RecipeIndex(st.recipes, id).value;
      assert s.store == st.(recipes := st.recipes[..i] + st.recipes[i + 1..]);
      RemoveKeepsValid(st, i);
    }
  }

  /** Every request keeps the store invariant, and keeps the session naming
      nobody or a stored user. */
  lemma HandleKeepsValid(env: Env, st: Store, session: Session, req: Request)
    requires Valid(st) && SessionValid(st, session)
    ensures Valid(Handle(env, st, session, req).store)
    ensures SessionValid(Handle(env, st, session, req).store, Handle(env, st, session, req).session)
  {
    var s := Handle(env, st, session, req);
    match req
    case PostRegister(form) =>
      RegisterKeepsValid(env, st, session, form);
      if session.Some? {
        var j :| 0 <= j < |st.users| && st.users[j].id == session.value;
        assert s.store.users[j] == st.users[j];
      }
    case PostLogin(form) =>
    case PostRecipe(upload) => CreateKeepsValid(env, st, session, upload);
    case GetRecipeList(_, _) =>
    case GetRecipeItem(_) =>
    case PutRecipeItem(id, upload) => UpdateKeepsValid(env, st, session, id, upload);
    case DeleteRecipeItem(id) => DeleteKeepsValid(st, session, id);
  }

  /** The status codes each route can answer with. A missing recipe id or an
      unserved page is never a 404: the NotFound is caught by the handler's
      catch-all, as is a recipe body that does not parse. */
  lemma RouteStatuses(env: Env, st: Store, session: Session, req: Request)
    ensures var code := Status(Handle(env, st, session, req).reply);
      match req
      case PostRegister(_) => code in {400, 201}
      case PostLogin(_) => code in {400, 401, 200}
      case PostRecipe(_) => code in {401, 500, 400, 201}
      case GetRecipeList(_, _) => code in {401, 500, 200}
      case GetRecipeItem(_) => code in {401, 500, 403, 200}
      case PutRecipeItem(_, _) => code in {401, 500, 403, 400, 200}
      case DeleteRecipeItem(_) => code in {401, 500, 403, 200}
    ensures (req.GetRecipeItem? || req.PutRecipeItem? || req.DeleteRecipeItem?)
              && CurrentUser(st, session).Some? && RecipeAt(st, req.id).None? ==>
      Status(Handle(env, st, session, req).reply) == 500
    ensures req.GetRecipeList? && CurrentUser(st, session).Some?
              && !Served(PageNumber(req.page), |Found(st, req.q)|) ==>
      Status(Handle(env, st, session, req).reply) == 500
  {
    match req
    case PostRegister(_) =>
    case PostLogin(_) =>
    case PostRecipe(_) =>
    case GetRecipeList(_, _) =>
    case GetRecipeItem(_) =>
    case PutRecipeItem(_, _) =>
    case DeleteRecipeItem(_) =>
  }

  /** Once a user is registered, a second registration sharing its username or
      its email is refused, and the store stays as it was. */
  lemma RegisterRejectsDuplicate(env: Env, st: Store, session: Session, form: Form,
                                 env': Env, session': Session, form': Form)
    requires Register(env, st, session, form).reply == Registered
    requires |form'| > 0 && HasCredentials(form')
    requires form'["username"] == form["username"] || form'["email"] == form["email"]
    ensures var st' := Register(env, st, session, form).store;
      Register(env', st', session', form') == Step(UserExists, st', session')
  {
  }

  /** In a valid store, login succeeds exactly for a stored username whose
      password verifies, and binds the session to that user; every other
      filled-in attempt gets the one `BadCredentials` reply. */
  lemma LoginSucceedsIff(env: Env, st: Store, session: Session, form: Form)
    requires Valid(st)
    requires Filled(form, "username") && Filled(form, "password")
    ensures var s := Login(env, st, session, form);
      && (s.reply == LoggedIn <==>
            exists i :: 0 <= i < |st.users| && st.users[i].username == form["username"]
                                            && env.verify(st.users[i].passwordHash, form["password"]))
      && (s.reply != LoggedIn ==> s.reply == BadCredentials && s.session == session)
  {
  }

  /** A 4xx or 5xx reply leaves the store and the session as they were. */
  lemma FailureChangesNothing(env: Env, st: Store, session: Session, req: Request)
    ensures var s := Handle(env, st, session, req);
      Status(s.reply) >= 400 ==> s.store == st && s.session == session
  {
  }

  /** A created recipe is owned by its creator, who reads it back as created;
      any other signed-in user is refused with 403. */
  lemma CreatedRecipeIsOwned(env: Env, st: Store, session: Session, upload: Upload, viewer: Session)
    requires Valid(st)
    requires CreateRecipe(env, st, session, upload).reply.Created?
    ensures var s := CreateRecipe(env, st, session, upload);
      && RecipeAt(s.store, st.nextRecipeId).Some?
      && RecipeAt(s.store, st.nextRecipeId).value.owner == session.value
      && GetRecipe(s.store, session, st.nextRecipeId).reply == Shown(s.reply.recipe)
      && (CurrentUser(s.store, viewer).Some? && viewer != session ==>
            GetRecipe(s.store, viewer, st.nextRecipeId).reply == Forbidden)
  {
  }

  /** The creator reads a new recipe back with the fields the body sent: the
      ingredients as their encoded text, and an empty description when the
      body has none. */
  lemma CreatedRecipeReadsBody(env: Env, st: Store, session: Session, body: RecipeBody)
    requires Valid(st)
    requires CreateRecipe(env, st, session, Readable(body)).reply.Created?
    ensures var s := CreateRecipe(env, st, session, Readable(body));
      var r := GetRecipe(s.store, session, st.nextRecipeId).reply;
      && r.Shown?
      && r.recipe.id == st.nextRecipeId
      && r.recipe.title == body.title.value && r.recipe.instructions == body.instructions.value
      && r.recipe.ingredients == env.encode(body.ingredients.value)
      && (body.description.None? ==> r.recipe.description == "")
      && (body.description.Some? ==> r.recipe.description == body.description.value)
  {
  }

  /** After an update the owner reads back exactly the updated recipe. */
  lemma UpdatedRecipeReadsBack(env: Env, st: Store, session: Session, id: nat, upload: Upload)
    requires UpdateRecipe(env, st, session, id, upload).reply.Updated?
    ensures var s := UpdateRecipe(env, st, session, id, upload);
      GetRecipe(s.store, session, id).reply == Shown(s.reply.recipe)
  {
  }

  /** An update is a full replacement: a body without a description clears the
      stored one, whatever it was. */
  lemma UpdateWithoutDescriptionClearsIt(env: Env, st: Store, session: Session, id: nat, body: RecipeBody)
    requires UpdateRecipe(env, st, session, id, Readable(body)).reply.Updated?
    requires body.description.None?
    ensures var s := UpdateRecipe(env, st, session, id, Readable(body));
      && RecipeAt(s.store, id).Some? && RecipeAt(s.store, id).value.description == ""
      && GetRecipe(s.store, session, id).reply.recipe.description == ""
  {
  }

  /** After a delete the id finds nothing: reading it again is the generic 500
      reply, as is deleting it again. */
  lemma DeletedRecipeIsGone(st: Store, session: Session, id: nat)
    requires Valid(st)
    requires DeleteRecipe(st, session, id).reply == Deleted
    ensures var s := DeleteRecipe(st, session, id);
      && RecipeAt(s.store, id).None?
      && GetRecipe(s.store, session, id).reply == ServerError
      && DeleteRecipe(s.store, session, id).reply == ServerError
  {
  }

  /** An empty or absent `q` lists every recipe: a served page counts them all,
      and page 1 is always served. */
  lemma EmptyQueryListsEverything(st: Store, session: Session, q: Option<string>, page: Option<int>)
    requires q.None? || q == Some("")
    ensures CurrentUser(st, session).Some? && (PageNumber(page) == 1 || Served(PageNumber(page), |st.recipes|)) ==>
      var r := ListRecipes(st, session, q, page).reply;
      r.Listing? && r.pagination.totalRecords == |st.recipes|
  {
    EmptyQueryMatchesAll(st.recipes);
  }

  /** Leaving out `q` and `page` (or sending a `page` that is not an integer)
      is the same request as `q=` and `page=1`, and that first page is
      always answered. */
  lemma ListingDefaults(st: Store, session: Session)
    ensures ListRecipes(st, session, None, None) == ListRecipes(st, session, Some(""), Some(1))
    ensures CurrentUser(st, session).Some? ==>
      var r := ListRecipes(st, session, None, None).reply;
      && r.Listing? && r.pagination.currentPage == 1 && r.pagination.totalRecords == |st.recipes|
      && |r.recipes| == if |st.recipes| < PerPage then |st.recipes| else PerPage
  {
    EmptyQueryMatchesAll(st.recipes);
  }

  lemma ListingIsOrdered(st: Store, q: Option<string>)
    requires Valid(st)
    ensures Ascending(Found(st, q))
  {
    MatchingKeepsOrder(st.recipes, Query(q));
  }
}
