/** The favourites list, the shopping cart and the subscriptions
    (backend/api/views.py: `add_recipe`, `delete_recipe`, the
    `favorite`/`shopping_cart` actions and their DELETE mappings, `subscribe`,
    `unsubscribe`). Each table holds (user, recipe) or (user, author) rows;
    the model constraints (backend/recipes/models.py, backend/users/models.py)
    become the invariant `TablesValid`: no row twice, nobody subscribed to
    themselves, and every row naming an existing user and recipe.

    Each operation is a pure transition on the table it touches (`Add`,
    `Delete`, `Subscribe`, `Unsubscribe`), and `Store` calls it on its fields. */
module Membership {

  import opened Common

  /** A row of Favorite or ShoppingCart (`target` is the recipe) or of
      Subscription (`target` is the author). */
  datatype Pair = Pair(user: nat, target: nat)

  /** The model `add_recipe`/`delete_recipe` receive. */
  datatype ListKind = FavoriteList | CartList

  /** What `add_recipe` returns: a 201 response, `False`, or the 400 response
      for an unknown recipe. */
  datatype AddOutcome = Added | AlreadyPresent | NoSuchRecipe

  /** What `delete_recipe` returns, or the Http404 it propagates for an unknown recipe. */
  datatype DeleteOutcome = Deleted | NotPresent | RecipeMissing

  // Row helpers.

  /** The rows of `t` other than `p`: what a filtered `.delete()` leaves. */
  function Without(t: seq<Pair>, p: Pair): (r: seq<Pair>)
    ensures forall q :: q in r <==> q in t && q != p
    ensures |r| <= |t|
  {
    if t == [] then [] else (if t[0] == p then [] else [t[0]]) + Without(t[1..], p)
  }

  /** How many rows of `t` equal `p`: the count a queryset `.delete()` reports. */
  function Count(t: seq<Pair>, p: Pair): (n: nat)
    ensures n == 0 <==> p !in t
    ensures n <= |t|
  {
    if t == [] then 0 else (if t[0] == p then 1 else 0) + Count(t[1..], p)
  }

  lemma {:induction false} WithoutCount(t: seq<Pair>, p: Pair)
    ensures |Without(t, p)| == |t| - Count(t, p)
  {
    if t != [] {
      WithoutCount(t[1..], p);
    }
  }

  /** Removing an absent row changes nothing. */
  lemma {:induction false} WithoutAbsent(t: seq<Pair>, p: Pair)
    requires p !in t
    ensures Without(t, p) == t
  {
    if t != [] {
      WithoutAbsent(t[1..], p);
      assert t == [t[0]] + t[1..];
    }
  }

  lemma {:induction false} WithoutAppend(t: seq<Pair>, p: Pair)
    ensures Without(t + [p], p) == Without(t, p)
  {
    if t == [] {
      assert [p][1..] == [];
    } else {
      assert (t + [p])[1..] == t[1..] + [p];
      WithoutAppend(t[1..], p);
    }
  }

  lemma {:induction false} WithoutKeepsNoDuplicates(t: seq<Pair>, p: Pair)
    requires NoDuplicates(t)
    ensures NoDuplicates(Without(t, p))
  {
    if t != [] {
      assert NoDuplicates(t[1..]) by {
        forall i, j | 0 <= i < j < |t[1..]| ensures t[1..][i] != t[1..][j] {
          assert t[1..][i] == t[i + 1] && t[1..][j] == t[j + 1];
        }
      }
      WithoutKeepsNoDuplicates(t[1..], p);
      assert t[0] !in t[1..] by {
        forall k | 0 <= k < |t[1..]| ensures t[1..][k] != t[0] {
          assert t[1..][k] == t[k + 1];
        }
      }
    }
  }

  lemma AppendKeepsNoDuplicates(t: seq<Pair>, p: Pair)
    requires NoDuplicates(t) && p !in t
    ensures NoDuplicates(t + [p])
  {
  }

  // The invariant.

  /** The rows of `t` name existing users and existing targets. */
  predicate RowsExist(t: seq<Pair>, users: set<nat>, targets: set<nat>) {
    forall i :: 0 <= i < |t| ==> t[i].user in users && t[i].target in targets
  }

  /** The model constraints: `UniqueConstraint(user, recipe)` on Favorite and
      ShoppingCart, `UniqueConstraint(user, author)` and the check
      `author != user` on Subscription, and the foreign keys. */
  predicate TablesValid(users: set<nat>, recipes: set<nat>, favorites: seq<Pair>, cart: seq<Pair>, subscriptions: seq<Pair>) {
    && NoDuplicates(favorites) && RowsExist(favorites, users, recipes)
    && NoDuplicates(cart) && RowsExist(cart, users, recipes)
    && NoDuplicates(subscriptions) && RowsExist(subscriptions, users, users)
    && (forall i :: 0 <= i < |subscriptions| ==> subscriptions[i].user != subscriptions[i].target)
  }

  // Transitions.

  /** `add_recipe(request, pk, model)` on the rows of `model`, as its docstring
      describes it: an unknown recipe is refused, a row already present gives
      `False`, anything else is inserted. */
  function Add(recipes: set<nat>, t: seq<Pair>, user: nat, pk: nat): (r: (AddOutcome, seq<Pair>))
    ensures r.0 == NoSuchRecipe <==> pk !in recipes
    ensures r.0 == AlreadyPresent <==> pk in recipes && Pair(user, pk) in t
    ensures r.0 == Added ==> r.1 == t + [Pair(user, pk)]
    ensures r.0 != Added ==> r.1 == t
  {
    if pk !in recipes then (NoSuchRecipe, t)
    else if Pair(user, pk) in t then (AlreadyPresent, t)
    else (Added, t + [Pair(user, pk)])
  }

  /** `delete_recipe(request, pk, model)`: an unknown recipe propagates
      Http404, an absent row gives `False`, a present row is deleted. */
  function Delete(recipes: set<nat>, t: seq<Pair>, user: nat, pk: nat): (r: (DeleteOutcome, seq<Pair>))
    ensures r.0 == RecipeMissing <==> pk !in recipes
    ensures r.0 == NotPresent <==> pk in recipes && Pair(user, pk) !in t
    ensures r.0 != Deleted ==> r.1 == t
    ensures r.0 == Deleted ==> forall q :: q in r.1 <==> q in t && q != Pair(user, pk)
  {
    if pk !in recipes then (RecipeMissing, t)
    else if Pair(user, pk) !in t then (NotPresent, t)
    else (Deleted, Without(t, Pair(user, pk)))
  }

  /** The response of the `favorite` and `shopping_cart` POST actions. */
  function AddStatus(o: AddOutcome): (s: Status)
    ensures s == Created201 <==> o == Added
    ensures s != Created201 ==> s == BadRequest400
  {
    if o == Added then Created201 else BadRequest400
  }

  /** The response of the DELETE mappings: `False` becomes 400. */
  function DeleteStatus(o: DeleteOutcome): (s: Status)
    ensures s == NoContent204 <==> o == Deleted
    ensures s == NotFound404 <==> o == RecipeMissing
    ensures s == BadRequest400 <==> o == NotPresent
  {
    match o
    case Deleted => NoContent204
    case NotPresent => BadRequest400
    case RecipeMissing => NotFound404
  }

  /** `subscribe(request, id)`: an unknown author is 404; the serializer
      refuses the viewer themself (`validate_author`) and then a pair already
      present (`UniqueTogetherValidator`); otherwise the row is saved. */
  function Subscribe(users: set<nat>, subs: seq<Pair>, user: nat, author: nat): (r: (Status, seq<Pair>))
    ensures r.0 == NotFound404 <==> author !in users
    ensures r.0 == Created201 <==> author in users && author != user && Pair(user, author) !in subs
    ensures r.0 == Created201 ==> r.1 == subs + [Pair(user, author)]
    ensures r.0 != Created201 ==> r.1 == subs && r.0 in {NotFound404, BadRequest400}
  {
    if author !in users then (NotFound404, subs)
    else if author == user then (BadRequest400, subs)
    else if Pair(user, author) in subs then (BadRequest400, subs)
    else (Created201, subs + [Pair(user, author)])
  }

  /** `unsubscribe(request, id)`: an unknown author is 404; otherwise every
      matching row is deleted, and a deletion count of zero is 400. */
  function Unsubscribe(users: set<nat>, subs: seq<Pair>, user: nat, author: nat): (r: (Status, seq<Pair>))
    ensures r.0 == NotFound404 <==> author !in users
    ensures r.0 == NoContent204 <==> author in users && Pair(user, author) in subs
    ensures r.0 == BadRequest400 ==> r.1 == subs
    ensures r.0 != NotFound404 ==> forall q :: q in r.1 <==> q in subs && q != Pair(user, author)
    ensures r.0 == NotFound404 ==> r.1 == subs
  {
    if author !in users then (NotFound404, subs)
    else
      var deleted := Count(subs, Pair(user, author));
      if deleted == 0 then
        WithoutAbsent(subs, Pair(user, author));
        (BadRequest400, Without(subs, Pair(user, author)))
      else (NoContent204, Without(subs, Pair(user, author)))
  }

  // Properties of the transitions.

  /** Adding keeps the favourites or cart rows unique and existing. */
  lemma AddKeepsValid(users: set<nat>, recipes: set<nat>, t: seq<Pair>, user: nat, pk: nat)
    requires NoDuplicates(t) && RowsExist(t, users, recipes) && user in users
    ensures NoDuplicates(Add(recipes, t, user, pk).1) && RowsExist(Add(recipes, t, user, pk).1, users, recipes)
  {
    if Add(recipes, t, user, pk).0 == Added {
      AppendKeepsNoDuplicates(t, Pair(user, pk));
    }
  }

  /** Adding the same pair twice: the second call gives `False` and changes nothing. */
  lemma AddTwice(recipes: set<nat>, t: seq<Pair>, user: nat, pk: nat)
    requires pk in recipes
    ensures var t1 := Add(recipes, t, user, pk).1;
            Add(recipes, t1, user, pk) == (AlreadyPresent, t1)
  {
  }

  /** Deleting undoes adding: a fresh pair added and then deleted leaves the
      rows as they were. */
  lemma {:induction false} DeleteUndoesAdd(recipes: set<nat>, t: seq<Pair>, user: nat, pk: nat)
    requires pk in recipes && Pair(user, pk) !in t
    ensures Add(recipes, t, user, pk).0 == Added
    ensures Delete(recipes, Add(recipes, t, user, pk).1, user, pk) == (Deleted, t)
  {
    WithoutAppend(t, Pair(user, pk));
    WithoutAbsent(t, Pair(user, pk));
  }

  /** Deleting keeps the rows unique and existing, and removes exactly one row. */
  lemma DeleteKeepsValid(users: set<nat>, recipes: set<nat>, t: seq<Pair>, user: nat, pk: nat)
    requires NoDuplicates(t) && RowsExist(t, users, recipes)
    ensures var r := Delete(recipes, t, user, pk);
      && NoDuplicates(r.1) && RowsExist(r.1, users, recipes)
      && (r.0 == Deleted ==> |r.1| == |t| - 1)
  {
    var p := Pair(user, pk);
    WithoutKeepsNoDuplicates(t, p);
    WithoutCount(t, p);
    if p in t {
      UniqueCount(t, p);
    }
    var w := Without(t, p);
    forall i | 0 <= i < |w| ensures w[i].user in users && w[i].target in recipes {
      assert w[i] in t;
    }
  }

  /** In a table without duplicates a present row occurs once. */
  lemma {:induction false} UniqueCount(t: seq<Pair>, p: Pair)
    requires NoDuplicates(t) && p in t
    ensures Count(t, p) == 1
  {
    assert NoDuplicates(t[1..]) by {
      forall i, j | 0 <= i < j < |t[1..]| ensures t[1..][i] != t[1..][j] {
        assert t[1..][i] == t[i + 1] && t[1..][j] == t[j + 1];
      }
    }
    if t[0] == p {
      assert p !in t[1..] by {
        forall k | 0 <= k < |t[1..]| ensures t[1..][k] != t[0] {
          assert t[1..][k] == t[k + 1];
        }
      }
    } else {
      UniqueCount(t[1..], p);
    }
  }

  /** Subscribing keeps the subscriptions unique, existing and free of
      self-subscriptions. */
  lemma SubscribeKeepsValid(users: set<nat>, subs: seq<Pair>, user: nat, author: nat)
    requires NoDuplicates(subs) && RowsExist(subs, users, users) && user in users
    requires forall i :: 0 <= i < |subs| ==> subs[i].user != subs[i].target
    ensures var s := Subscribe(users, subs, user, author).1;
      && NoDuplicates(s) && RowsExist(s, users, users)
      && (forall i :: 0 <= i < |s| ==> s[i].user != s[i].target)
  {
    if Subscribe(users, subs, user, author).0 == Created201 {
      AppendKeepsNoDuplicates(subs, Pair(user, author));
    }
  }

  /** Unsubscribing keeps the invariant, and undoes a subscription. */
  lemma UnsubscribeKeepsValid(users: set<nat>, subs: seq<Pair>, user: nat, author: nat)
    requires NoDuplicates(subs) && RowsExist(subs, users, users)
    requires forall i :: 0 <= i < |subs| ==> subs[i].user != subs[i].target
    ensures var s := Unsubscribe(users, subs, user, author).1;
      && NoDuplicates(s) && RowsExist(s, users, users)
      && (forall i :: 0 <= i < |s| ==> s[i].user != s[i].target)
  {
    var p := Pair(user, author);
    WithoutKeepsNoDuplicates(subs, p);
    var w := Without(subs, p);
    forall i | 0 <= i < |w| ensures w[i].user in users && w[i].target in users && w[i].user != w[i].target {
      assert w[i] in subs;
    }
  }

  lemma {:induction false} UnsubscribeUndoesSubscribe(users: set<nat>, subs: seq<Pair>, user: nat, author: nat)
    requires Subscribe(users, subs, user, author).0 == Created201
    ensures Unsubscribe(users, Subscribe(users, subs, user, author).1, user, author) == (NoContent204, subs)
  {
    WithoutAppend(subs, Pair(user, author));
    WithoutAbsent(subs, Pair(user, author));
  }

  /** The tables of the application, updated in place by the views. */
  class Store {
    var users: set<nat>
    var recipes: set<nat>
    var favorites: seq<Pair>
    var cart: seq<Pair>
    var subscriptions: seq<Pair>

    predicate Valid()
      reads this
    {
      TablesValid(users, recipes, favorites, cart, subscriptions)
    }

    /** The table `model` names. */
    function Table(kind: ListKind): seq<Pair>
      reads this
    {
      if kind == FavoriteList then favorites else cart
    }

    constructor(users: set<nat>, recipes: set<nat>)
      ensures Valid()
      ensures this.users == users && this.recipes == recipes
      ensures favorites == [] && cart == [] && subscriptions == []
    {
      this.users := users;
      this.recipes := recipes;
      favorites, cart, subscriptions := [], [], [];
    }

    /** `add_recipe` for the authenticated `user`. */
    method AddRecipe(kind: ListKind, user: nat, pk: nat) returns (o: AddOutcome)
      requires Valid() && user in users
      modifies this
      ensures Valid()
      ensures (o, Table(kind)) == Add(recipes, old(Table(kind)), user, pk)
      ensures kind == FavoriteList ==> cart == old(cart)
      ensures kind == CartList ==> favorites == old(favorites)
      ensures users == old(users) && recipes == old(recipes) && subscriptions == old(subscriptions)
    {
      AddKeepsValid(users, recipes, Table(kind), user, pk);
      var r := Add(recipes, Table(kind), user, pk);
      o := r.0;
      if kind == FavoriteList {
        favorites := r.1;
      } else {
        cart := r.1;
      }
    }

    /** `delete_recipe` for the authenticated `user`. */
    method DeleteRecipe(kind: ListKind, user: nat, pk: nat) returns (o: DeleteOutcome)
      requires Valid()
      modifies this
      ensures Valid()
      ensures (o, Table(kind)) == Delete(recipes, old(Table(kind)), user, pk)
      ensures kind == FavoriteList ==> cart == old(cart)
      ensures kind == CartList ==> favorites == old(favorites)
      ensures users == old(users) && recipes == old(recipes) && subscriptions == old(subscriptions)
    {
      DeleteKeepsValid(users, recipes, Table(kind), user, pk);
      var r := Delete(recipes, Table(kind), user, pk);
      o := r.0;
      if kind == FavoriteList {
        favorites := r.1;
      } else {
        cart := r.1;
      }
    }

    /** POST `recipes/<pk>/shopping_cart/`. */
    method ShoppingCart(user: nat, pk: nat) returns (s: Status)
      requires Valid() && user in users
      modifies this
      ensures Valid()
      ensures (s, cart) == (AddStatus(Add(recipes, old(cart), user, pk).0), Add(recipes, old(cart), user, pk).1)
      ensures favorites == old(favorites) && subscriptions == old(subscriptions)
      ensures users == old(users) && recipes == old(recipes)
    {
      var o := AddRecipe(CartList, user, pk);
      s := AddStatus(o);
    }

    /** DELETE `recipes/<pk>/shopping_cart/`. */
    method DeleteShoppingCart(user: nat, pk: nat) returns (s: Status)
      requires Valid()
      modifies this
      ensures Valid()
      ensures (s, cart) == (DeleteStatus(Delete(recipes, old(cart), user, pk).0), Delete(recipes, old(cart), user, pk).1)
      ensures favorites == old(favorites) && subscriptions == old(subscriptions)
      ensures users == old(users) && recipes == old(recipes)
    {
      var o := DeleteRecipe(CartList, user, pk);
      s := DeleteStatus(o);
    }

    /** POST `recipes/<pk>/favorite/`. */
    method Favorite(user: nat, pk: nat) returns (s: Status)
      requires Valid() && user in users
      modifies this
      ensures Valid()
      ensures (s, favorites) == (AddStatus(Add(recipes, old(favorites), user, pk).0), Add(recipes, old(favorites), user, pk).1)
      ensures cart == old(cart) && subscriptions == old(subscriptions)
      ensures users == old(users) && recipes == old(recipes)
    {
      var o := AddRecipe(FavoriteList, user, pk);
      s := AddStatus(o);
    }

    /** DELETE `recipes/<pk>/favorite/`. */
    method DeleteFavorite(user: nat, pk: nat) returns (s: Status)
      requires Valid()
      modifies this
      ensures Valid()
      ensures (s, favorites) == (DeleteStatus(Delete(recipes, old(favorites), user, pk).0), Delete(recipes, old(favorites), user, pk).1)
      ensures cart == old(cart) && subscriptions == old(subscriptions)
      ensures users == old(users) && recipes == old(recipes)
    {
      var o := DeleteRecipe(FavoriteList, user, pk);
      s := DeleteStatus(o);
    }

    /** POST `users/<id>/subscribe/` by the authenticated `user`. */
    method SubscribeTo(user: nat, author: nat) returns (s: Status)
      requires Valid() && user in users
      modifies this
      ensures Valid()
      ensures (s, subscriptions) == Subscribe(users, old(subscriptions), user, author)
      ensures favorites == old(favorites) && cart == old(cart)
      ensures users == old(users) && recipes == old(recipes)
    {
      SubscribeKeepsValid(users, subscriptions, user, author);
      var r := Subscribe(users, subscriptions, user, author);
      s, subscriptions := r.0, r.1;
    }

    /** DELETE `users/<id>/subscribe/` by the authenticated `user`. */
    method UnsubscribeFrom(user: nat, author: nat) returns (s: Status)
      requires Valid()
      modifies this
      ensures Valid()
      ensures (s, subscriptions) == Unsubscribe(users, old(subscriptions), user, author)
      ensures favorites == old(favorites) && cart == old(cart)
      ensures users == old(users) && recipes == old(recipes)
    {
      UnsubscribeKeepsValid(users, subscriptions, user, author);
      var r := Unsubscribe(users, subscriptions, user, author);
      s, subscriptions := r.0, r.1;
    }
  }

  // `add_recipe` as written.

  /** `add_recipe` as written: `recipe` is bound to the queryset
      `Recipe.objects.filter(pk=pk)` rather than to a Recipe. An unknown
      recipe gives an empty queryset and the intended 400. For an existing
      one, the lookup `model.objects.filter(recipe=recipe, ...)` compares the
      foreign key with a queryset that is not sliced to one row, and Django
      raises ValueError before `exists()` answers, so the request fails with
      500. Even a pair already present gets 500 rather than `False`. Had the
      lookup passed, `create(recipe=recipe, ...)` would raise ValueError as
      well. */
  function AddRecipeAsWritten(recipes: set<nat>, t: seq<Pair>, user: nat, pk: nat): (r: (Status, seq<Pair>))
    ensures r.1 == t
    ensures r.0 == BadRequest400 <==> pk !in recipes
    ensures r.0 == ServerError500 <==> pk in recipes
  {
    if pk !in recipes then (BadRequest400, t)
    else (ServerError500, t)
  }

  /** As written, no request can ever add a favourite or a cart row: for
      every existing recipe the code answers 500 and the table stays as it
      was, while the intended transition adds the row with 201, or answers
      400 for a pair already present. */
  lemma AddRecipeAsWrittenNeverAdds(recipes: set<nat>, t: seq<Pair>, user: nat, pk: nat)
    requires pk in recipes
    ensures AddRecipeAsWritten(recipes, t, user, pk) == (ServerError500, t)
    ensures Pair(user, pk) !in t ==>
      AddStatus(Add(recipes, t, user, pk).0) == Created201 && Add(recipes, t, user, pk).1 == t + [Pair(user, pk)]
    ensures Pair(user, pk) in t ==>
      AddStatus(Add(recipes, t, user, pk).0) == BadRequest400 && Add(recipes, t, user, pk).1 == t
  {
  }

  /** For an unknown recipe the code as written agrees with the intended
      transition. */
  lemma AddRecipeAsWrittenAgrees(recipes: set<nat>, t: seq<Pair>, user: nat, pk: nat)
    requires pk !in recipes
    ensures AddRecipeAsWritten(recipes, t, user, pk) == (AddStatus(Add(recipes, t, user, pk).0), Add(recipes, t, user, pk).1)
  {
  }
}
