/** One client's requests against a fresh database, one lemma per request,
    each applied to the store and session the previous one left: alice
    registers (201), logs in (200), creates a soup recipe, id 1 (201), and reads
    it (200); bob registers (201) and logs in (200) on the same client and is
    refused the soup (403); alice logs back in (200) and deletes it (200);
    reading it again gives the generic 500 reply, since the missing id is caught
    by the handler's catch-all. */
module Scenario {
  import opened Optional
  import opened Model
  import opened Payload
  import opened Handlers

  function Credentials(username: string, email: string, password: string): Form
  {
    map["username" := username, "email" := email, "password" := password]
  }

  const Soup: RecipeBody :=
    RecipeBody(Some("Soup"), None, Some([Ingredient(map["name" := "Water", "quantity" := "1L"])]), Some("Boil"))

  const Alice: Form := Credentials("alice", "a@x.com", "pw")
  const Bob: Form := Credentials("bob", "b@x.com", "pw2")

  function AliceRow(env: Env): User { User(1, "alice", "a@x.com", env.hash("pw")) }
  function BobRow(env: Env): User { User(2, "bob", "b@x.com", env.hash("pw2")) }

  /** The store after each stage: alice registered; her soup created; bob
      registered; the soup deleted. */
  function AfterAlice(env: Env): Store { Store([AliceRow(env)], [], 2, 1) }
  function AfterSoup(env: Env): Store { Store([AliceRow(env)], [Row(env, Soup, 1, 1)], 2, 2) }
  function AfterBob(env: Env): Store { Store([AliceRow(env), BobRow(env)], [Row(env, Soup, 1, 1)], 3, 2) }
  function AfterDelete(env: Env): Store { Store([AliceRow(env), BobRow(env)], [], 3, 2) }

  lemma RegistersAlice(env: Env)
    ensures Handle(env, Empty, None, PostRegister(Alice)) == Step(Registered, AfterAlice(env), None)
  {
  }

  lemma AliceLogsIn(env: Env)
    requires env.verify(env.hash("pw"), "pw")
    ensures Handle(env, AfterAlice(env), None, PostLogin(Alice)) == Step(LoggedIn, AfterAlice(env), Some(1))
  {
  }

  lemma AliceCreatesSoup(env: Env)
    ensures Handle(env, AfterAlice(env), Some(1), PostRecipe(Readable(Soup))).store == AfterSoup(env)
    ensures Status(Handle(env, AfterAlice(env), Some(1), PostRecipe(Readable(Soup))).reply) == 201
  {
  }

  lemma AliceReadsSoup(env: Env)
    ensures Handle(env, AfterSoup(env), Some(1), GetRecipeItem(1)) == Step(Shown(Dump(Row(env, Soup, 1, 1))), AfterSoup(env), Some(1))
  {
  }

  lemma RegistersBob(env: Env)
    ensures Handle(env, AfterSoup(env), Some(1), PostRegister(Bob)) == Step(Registered, AfterBob(env), Some(1))
  {
  }

  lemma BobLogsIn(env: Env)
    requires env.verify(env.hash("pw2"), "pw2")
    ensures Handle(env, AfterBob(env), Some(1), PostLogin(Bob)) == Step(LoggedIn, AfterBob(env), Some(2))
  {
    var users := AfterBob(env).users;
    assert FirstIndex(users[1..], (u: User) => u.username == "bob") == Some(0);
    assert FirstIndex(users, (u: User) => u.username == "bob") == Some(1);
  }

  lemma BobIsRefusedSoup(env: Env)
    ensures Handle(env, AfterBob(env), Some(2), GetRecipeItem(1)) == Step(Forbidden, AfterBob(env), Some(2))
  {
    var users := AfterBob(env).users;
    assert UserIndex(users[1..], 2) == Some(0);
    assert UserIndex(users, 2) == Some(1);
  }

  lemma AliceLogsBackIn(env: Env)
    requires env.verify(env.hash("pw"), "pw")
    ensures Handle(env, AfterBob(env), Some(2), PostLogin(Alice)) == Step(LoggedIn, AfterBob(env), Some(1))
  {
  }

  lemma AliceDeletesSoup(env: Env)
    ensures Handle(env, AfterBob(env), Some(1), DeleteRecipeItem(1)) == Step(Deleted, AfterDelete(env), Some(1))
  {
  }

  lemma SoupIsGone(env: Env)
    ensures Handle(env, AfterDelete(env), Some(1), GetRecipeItem(1)) == Step(ServerError, AfterDelete(env), Some(1))
  {
  }
}
