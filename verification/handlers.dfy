/** The request handlers of the recipe blueprint, each a pure transition
    (store, session, request) -> (reply, store', session').

    Every recipe endpoint sits behind the login gate. Inside a handler the
    checks run in the order the handler performs them: login gate, lookup,
    body, ownership, validation; a lookup of a missing recipe id raises
    NotFound inside the handler's `try`, where the generic `except Exception`
    turns it into the 500 reply. */
module Handlers {
  import opened Optional
  import opened Model
  import opened Payload
  import opened Search
  import opened Pagination

  /** The pagination metadata of a listing. */
  datatype PageInfo = PageInfo(totalPages: nat, totalRecords: nat, currentPage: int, perPage: nat)

  /** Every distinct response the handlers give. */
  datatype Reply =
    | NoData                 // register: empty body
    | MissingCredentials     // register: a credential missing or empty
    | UserExists             // register: username or email taken
    | Registered
    | MissingLogin           // login: username or password missing or empty
    | BadCredentials         // login: unknown user or wrong password, one reply for both
    | LoggedIn
    | Unauthenticated        // the login gate refused the request
    | Invalid(problem: Problem)
    | Created(recipe: RecipeView)
    | Listing(recipes: seq<RecipeView>, pagination: PageInfo)
    | Shown(recipe: RecipeView)
    | Forbidden              // the recipe belongs to another user
    | Updated(recipe: RecipeView)
    | Deleted
    | ServerError            // the generic reply of every `except Exception`

  function Status(r: Reply): int
  {
    match r
    case NoData | MissingCredentials | UserExists | MissingLogin | Invalid(_) => 400
    case BadCredentials | Unauthenticated => 401
    case Forbidden => 403
    case ServerError => 500
    case Registered | Created(_) => 201
    case LoggedIn | Listing(_, _) | Shown(_) | Updated(_) | Deleted => 200
  }

  /** The outcome of one request. */
  datatype Step = Step(reply: Reply, store: Store, session: Session)

  /** The login gate: the session must name a user that still loads from the
      store, since the user is reloaded by id on every request. */
  function CurrentUser(st: Store, session: Session): (u: Option<User>)
    ensures u.Some? <==> session.Some? && HasUser(st.users, session.value)
    ensures u.Some? ==> u.value.id == session.value && u.value in st.users
  {
    match session
    case None => None
    case Some(id) => UserAt(st, id)
  }

  /** Some stored user already has this username or this email. */
  predicate Taken(users: seq<User>, username: string, email: string)
  {
    exists i :: 0 <= i < |users| && (users[i].username == username || users[i].email == email)
  }

  predicate HasCredentials(form: Form)
  {
    Filled(form, "username") && Filled(form, "email") && Filled(form, "password")
  }

  /** POST /api/register. */
  function Register(env: Env, st: Store, session: Session, form: Form): (s: Step)
    ensures s.session == session
    ensures s.reply in {NoData, MissingCredentials, UserExists, Registered}
    ensures s.reply == NoData <==> |form| == 0
    ensures s.reply == MissingCredentials <==> |form| > 0 && !HasCredentials(form)
    ensures s.reply == UserExists <==>
      |form| > 0 && HasCredentials(form) && Taken(st.users, form["username"], form["email"])
    ensures s.reply != Registered ==> s.store == st
    ensures s.reply == Registered ==>
      && HasCredentials(form)
      && s.store.recipes == st.recipes && s.store.nextRecipeId == st.nextRecipeId
      && |s.store.users| == |st.users| + 1 && s.store.users[..|st.users|] == st.users
      && s.store.users[|st.users|]
         == User(st.nextUserId, form["username"], form["email"], env.hash(form["password"]))
      && s.store.nextUserId == st.nextUserId + 1
  {
    if |form| == 0 then Step(NoData, st, session)
    else if !HasCredentials(form) then Step(MissingCredentials, st, session)
    else
      var username, email := form["username"], form["email"];
      if FirstIndex(st.users, (u: User) => u.username == username || u.email == email).Some? then
        Step(UserExists, st, session)
      else
        var user := User(st.nextUserId, username, email, env.hash(form["password"]));
        Step(Registered, st.(users := st.users + [user], nextUserId := st.nextUserId + 1), session)
  }

  /** POST /api/login. */
  function Login(env: Env, st: Store, session: Session, form: Form): (s: Step)
    ensures s.store == st
    ensures s.reply in {MissingLogin, BadCredentials, LoggedIn}
    ensures s.reply == MissingLogin <==> !(Filled(form, "username") && Filled(form, "password"))
    ensures s.reply != LoggedIn ==> s.session == session
    ensures s.reply == LoggedIn ==>
      && Filled(form, "username") && Filled(form, "password")
      && exists i :: 0 <= i < |st.users|
           && st.users[i].username == form["username"]
           && env.verify(st.users[i].passwordHash, form["password"])
           && s.session == Some(st.users[i].id)
    ensures Filled(form, "username") && Filled(form, "password")
      && (forall i :: 0 <= i < |st.users| ==> st.users[i].username != form["username"])
      ==> s.reply == BadCredentials
  {
    if !Filled(form, "username") || !Filled(form, "password") then Step(MissingLogin, st, session)
    else
      var username, password := form["username"], form["password"];
      match FirstIndex(st.users, (u: User) => u.username == username)
      case None => Step(BadCredentials, st, session)
      case Some(i) =>
        if env.verify(st.users[i].passwordHash, password) then Step(LoggedIn, st, Some(st.users[i].id))
        else Step(BadCredentials, st, session)
  }

  /** POST /api/recipes. */
  function CreateRecipe(env: Env, st: Store, session: Session, upload: Upload): (s: Step)
    ensures s.session == session
    ensures !s.reply.Created? ==> s.store == st
    ensures CurrentUser(st, session).None? ==> s.reply == Unauthenticated
    ensures CurrentUser(st, session).Some? && upload.Unreadable? ==> s.reply == ServerError
    ensures CurrentUser(st, session).Some? && upload.Readable? && !HasRequiredKeys(upload.body) ==>
      s.reply == Invalid(MissingFields)
    ensures CurrentUser(st, session).Some? && upload.Readable? && HasRequiredKeys(upload.body)
              && !Acceptable(upload.body) ==>
      s.reply == Invalid(IncompleteIngredient)
    ensures s.reply.Created? <==> CurrentUser(st, session).Some? && upload.Readable? && Acceptable(upload.body)
    ensures s.reply.Created? ==>
      var r := Row(env, upload.body, st.nextRecipeId, session.value);
      && s.reply.recipe == Dump(r)
      && s.store.users == st.users && s.store.nextUserId == st.nextUserId
      && s.store.nextRecipeId == st.nextRecipeId + 1
      && |s.store.recipes| == |st.recipes| + 1 && s.store.recipes[..|st.recipes|] == st.recipes
      && s.store.recipes[|st.recipes|] == r
      && forall other :: other != st.nextRecipeId ==> RecipeAt(s.store, other) == RecipeAt(st, other)
  {
    match CurrentUser(st, session)
    case None => Step(Unauthenticated, st, session)
    case Some(user) =>
      match upload
      case Unreadable => Step(ServerError, st, session)
      case Readable(body) =>
        match Check(body)
        case Some(problem) => Step(Invalid(problem), st, session)
        case None =>
          var r := Row(env, body, st.nextRecipeId, user.id);
          RecipeAtAppend(st, r);
          Step(Created(Dump(r)), st.(recipes := st.recipes + [r], nextRecipeId := st.nextRecipeId + 1), session)
  }

  /** The search term: `q`, or the empty string when absent. */
  function Query(q: Option<string>): string
  {
    q.GetOr("")
  }

  /** The page number: `page`, or 1 when absent or not an integer. */
  function PageNumber(page: Option<int>): int
  {
    page.GetOr(1)
  }

  /** The recipes the listing filters for `q`, in table order. */
  function Found(st: Store, q: Option<string>): seq<Recipe>
  {
    Matching(st.recipes, Query(q))
  }

  /** GET /api/recipes?q=&page=. A page the paginator does not serve (below 1,
      or past the last one) is its NotFound abort, which the handler's
      catch-all turns into 500. */
  function ListRecipes(st: Store, session: Session, q: Option<string>, page: Option<int>): (s: Step)
    ensures s.store == st && s.session == session
    ensures CurrentUser(st, session).None? ==> s.reply == Unauthenticated
    ensures CurrentUser(st, session).Some? && !Served(PageNumber(page), |Found(st, q)|) ==>
      s.reply == ServerError
    ensures CurrentUser(st, session).Some? && Served(PageNumber(page), |Found(st, q)|) ==>
      var found, p := Found(st, q), PageNumber(page);
      && s.reply.Listing?
      && p >= 1
      && |s.reply.recipes| <= PerPage
      && (p - 1) * PerPage + |s.reply.recipes| <= |found|
      && (|s.reply.recipes| == PerPage || (p - 1) * PerPage + |s.reply.recipes| == |found|)
      && (forall k :: 0 <= k < |s.reply.recipes| ==> s.reply.recipes[k] == Dump(found[(p - 1) * PerPage + k]))
      && s.reply.pagination == PageInfo(TotalPages(|found|), |found|, p, PerPage)
  {
    match CurrentUser(st, session)
    case None => Step(Unauthenticated, st, session)
    case Some(_) =>
      var found, p := Found(st, q), PageNumber(page);
      if !Served(p, |found|) then Step(ServerError, st, session)
      else
        var items := PageItems(found, p);
        var views := seq(|items|, k requires 0 <= k < |items| => Dump(items[k]));
        Step(Listing(views, PageInfo(TotalPages(|found|), |found|, p, PerPage)), st, session)
  }

  /** GET /api/recipes/<id>. */
  function GetRecipe(st: Store, session: Session, id: nat): (s: Step)
    ensures s.store == st && s.session == session
    ensures CurrentUser(st, session).None? ==> s.reply == Unauthenticated
    ensures CurrentUser(st, session).Some? && RecipeAt(st, id).None? ==> s.reply == ServerError
    ensures CurrentUser(st, session).Some? && RecipeAt(st, id).Some? ==>
      if RecipeAt(st, id).value.owner == session.value then s.reply == Shown(Dump(RecipeAt(st, id).value))
      else s.reply == Forbidden
  {
    match CurrentUser(st, session)
    case None => Step(Unauthenticated, st, session)
    case Some(user) =>
      match RecipeAt(st, id)
      case None => Step(ServerError, st, session)
      case Some(r) =>
        if r.owner != user.id then Step(Forbidden, st, session)
        else Step(Shown(Dump(r)), st, session)
  }

  /** PUT /api/recipes/<id>. */
  function UpdateRecipe(env: Env, st: Store, session: Session, id: nat, upload: Upload): (s: Step)
    ensures s.session == session
    ensures !s.reply.Updated? ==> s.store == st
    ensures CurrentUser(st, session).None? ==> s.reply == Unauthenticated
    ensures CurrentUser(st, session).Some? && RecipeAt(st, id).None? ==> s.reply == ServerError
    ensures CurrentUser(st, session).Some? && RecipeAt(st, id).Some? && upload.Unreadable? ==> s.reply == ServerError
    ensures CurrentUser(st, session).Some? && RecipeAt(st, id).Some? && upload.Readable?
              && RecipeAt(st, id).value.owner != session.value ==>
      s.reply == Forbidden
    ensures CurrentUser(st, session).Some? && RecipeAt(st, id).Some? && upload.Readable?
              && RecipeAt(st, id).value.owner == session.value ==>
      var body := upload.body;
      && (!HasRequiredKeys(body) ==> s.reply == Invalid(MissingFields))
      && (HasRequiredKeys(body) && !Acceptable(body) ==> s.reply == Invalid(IncompleteIngredient))
      && (Acceptable(body) ==> s.reply.Updated?)
    ensures s.reply.Updated? ==>
      && upload.Readable? && HasRequiredKeys(upload.body)
      && var r := Row(env, upload.body, id, session.value);
      && CurrentUser(st, session).Some? && RecipeAt(st, id).Some? && Acceptable(upload.body)
      && RecipeAt(st, id).value.owner == session.value
      && s.reply.recipe == Dump(r)
      && RecipeAt(s.store, id) == Some(r)
      && (forall other :: other != id ==> RecipeAt(s.store, other) == RecipeAt(st, other))
      && s.store.users == st.users && |s.store.recipes| == |st.recipes|
      && s.store.nextUserId == st.nextUserId && s.store.nextRecipeId == st.nextRecipeId
  {
    match CurrentUser(st, session)
    case None => Step(Unauthenticated, st, session)
    case Some(user) =>
      match RecipeIndex(st.recipes, id)
      case None => Step(ServerError, st, session)
      case Some(i) =>
        var current := st.recipes[i];
        match upload
        case Unreadable => Step(ServerError, st, session)
        case Readable(body) =>
          if current.owner != user.id then Step(Forbidden, st, session)
          else
            match Check(body)
            case Some(problem) => Step(Invalid(problem), st, session)
            case None =>
              var r := Row(env, body, current.id, current.owner);
              RecipeAtReplace(st, i, r);
              Step(Updated(Dump(r)), st.(recipes := st.recipes[i := r]), session)
  }

  /** DELETE /api/recipes/<id>. */
  function DeleteRecipe(st: Store, session: Session, id: nat): (s: Step)
    ensures s.session == session
    ensures s.reply != Deleted ==> s.store == st
    ensures CurrentUser(st, session).None? ==> s.reply == Unauthenticated
    ensures CurrentUser(st, session).Some? && RecipeAt(st, id).None? ==> s.reply == ServerError
    ensures CurrentUser(st, session).Some? && RecipeAt(st, id).Some? ==>
      if RecipeAt(st, id).value.owner == session.value then s.reply == Deleted else s.reply == Forbidden
    ensures s.reply == Deleted ==>
      && (forall other :: other != id ==> RecipeAt(s.store, other) == RecipeAt(st, other))
      && s.store.users == st.users && |s.store.recipes| == |st.recipes| - 1
      && s.store.nextUserId == st.nextUserId && s.store.nextRecipeId == st.nextRecipeId
  {
    match CurrentUser(st, session)
    case None => Step(Unauthenticated, st, session)
    case Some(user) =>
      match RecipeIndex(st.recipes, id)
      case None => Step(ServerError, st, session)
      case Some(i) =>
        if st.recipes[i].owner != user.id then Step(Forbidden, st, session)
        else
          RecipeAtRemove(st, i);
          Step(Deleted, st.(recipes := st.recipes[..i] + st.recipes[i + 1..]), session)
  }

  /** The routes of the blueprint, with the parts of each request a handler reads. */
  datatype Request =
    | PostRegister(form: Form)
    | PostLogin(form: Form)
    | PostRecipe(upload: Upload)
    | GetRecipeList(q: Option<string>, page: Option<int>)
    | GetRecipeItem(id: nat)
    | PutRecipeItem(id: nat, upload: Upload)
    | DeleteRecipeItem(id: nat)
  {
    /** The recipe routes carry the login gate; register and login do not. */
    predicate NeedsLogin()
    {
      !PostRegister? && !PostLogin?
    }
  }

  /** Route a request to its handler. */
  function Handle(env: Env, st: Store, session: Session, req: Request): (s: Step)
    ensures req.NeedsLogin() && CurrentUser(st, session).None? ==> s == Step(Unauthenticated, st, session)
    ensures !req.PostLogin? ==> s.session == session
    ensures req.PostLogin? || req.GetRecipeList? || req.GetRecipeItem? ==> s.store == st
    ensures s.store != st ==> s.reply in {Registered, Deleted} || s.reply.Created? || s.reply.Updated?
    ensures s.session != session ==> s.reply == LoggedIn
  {
    match req
    case PostRegister(form) => Register(env, st, session, form)
    case PostLogin(form) => Login(env, st, session, form)
    case PostRecipe(upload) => CreateRecipe(env, st, session, upload)
    case GetRecipeList(q, page) => ListRecipes(st, session, q, page)
    case GetRecipeItem(id) => GetRecipe(st, session, id)
    case PutRecipeItem(id, upload) => UpdateRecipe(env, st, session, id, upload)
    case DeleteRecipeItem(id) => DeleteRecipe(st, session, id)
  }
}
