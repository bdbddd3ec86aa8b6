/** The filters of backend/api/filters.py over a queryset of recipe ids (in
    the queryset's order) and the Favorite or ShoppingCart rows. */
module Filters {

  import opened Common
  import opened Membership
  import opened Permissions
  import Schema
  import opened PyText

  /** `a` is `b` with some elements dropped and the rest in their order. */
  predicate Subsequence<T(==)>(a: seq<T>, b: seq<T>)
    decreases |b|
  {
    if a == [] then true
    else if b == [] then false
    else if a[0] == b[0] then Subsequence(a[1..], b[1..])
    else Subsequence(a, b[1..])
  }

  lemma {:induction false} FilterIsSubsequence<T>(s: seq<T>, p: T -> bool)
    ensures Subsequence(Filter(s, p), s)
  {
    if s != [] {
      FilterIsSubsequence(s[1..], p);
    }
  }

  lemma {:induction false} SubsequenceSelf<T>(s: seq<T>)
    ensures Subsequence(s, s)
  {
    if s != [] {
      SubsequenceSelf(s[1..]);
    }
  }

  function Repeat(x: nat, n: nat): (r: seq<nat>)
    ensures |r| == n && forall i :: 0 <= i < n ==> r[i] == x
  {
    if n == 0 then [] else [x] + Repeat(x, n - 1)
  }

  /** `queryset.filter(favorites__user=user)`: the join with the rows of
      `t` repeats a recipe once for each matching row. */
  function Joined(recipes: seq<nat>, t: seq<Pair>, user: nat): (r: seq<nat>)
  {
    if recipes == [] then []
    else Repeat(recipes[0], Count(t, Pair(user, recipes[0]))) + Joined(recipes[1..], t, user)
  }

  /** With the table's uniqueness constraint the join repeats nothing: it
      keeps exactly the recipes the user has a row for, in queryset order. */
  lemma {:induction false} JoinedIsFilter(recipes: seq<nat>, t: seq<Pair>, user: nat)
    requires NoDuplicates(t)
    ensures Joined(recipes, t, user) == Filter(recipes, x => Pair(user, x) in t)
  {
    if recipes != [] {
      JoinedIsFilter(recipes[1..], t, user);
      var p := Pair(user, recipes[0]);
      if p in t {
        UniqueCount(t, p);
        assert Repeat(recipes[0], 1) == [recipes[0]];
      }
    }
  }

  /** `filter_is_favorited` (and `filter_is_in_shopping_cart`, which differs
      only in the table it joins): the queryset unchanged unless the value is
      true and the user is signed in. */
  function FilterByList(recipes: seq<nat>, value: bool, v: Viewer, t: seq<Pair>): (r: seq<nat>)
    ensures !value || v == Anonymous ==> r == recipes
  {
    if value && v.Account? then Joined(recipes, t, v.id) else recipes
  }

  function FilterIsFavorited(recipes: seq<nat>, value: bool, v: Viewer, favorites: seq<Pair>): seq<nat> {
    FilterByList(recipes, value, v, favorites)
  }

  function FilterIsInShoppingCart(recipes: seq<nat>, value: bool, v: Viewer, cart: seq<Pair>): seq<nat> {
    FilterByList(recipes, value, v, cart)
  }

  /** Under the uniqueness constraint the filter keeps, in order, exactly the
      recipes of the queryset that the signed-in user has listed. */
  lemma FilterByListContents(recipes: seq<nat>, value: bool, v: Viewer, t: seq<Pair>)
    requires NoDuplicates(t)
    ensures Subsequence(FilterByList(recipes, value, v, t), recipes)
    ensures value && v.Account? ==>
      forall x :: x in FilterByList(recipes, value, v, t) <==> x in recipes && Pair(v.id, x) in t
    ensures NoDuplicates(recipes) ==> NoDuplicates(FilterByList(recipes, value, v, t))
  {
    if value && v.Account? {
      JoinedIsFilter(recipes, t, v.id);
      FilterIsSubsequence(recipes, x => Pair(v.id, x) in t);
      if NoDuplicates(recipes) {
        FilterKeepsNoDuplicates(recipes, x => Pair(v.id, x) in t);
      }
    } else {
      SubsequenceSelf(recipes);
    }
  }

  /** Without the constraint a doubled row doubles the recipe. */
  lemma DoubledRowDoubles()
    ensures FilterByList([5], true, Account(1, false, false), [Pair(1, 5), Pair(1, 5)]) == [5, 5]
  {
    assert Count([Pair(1, 5), Pair(1, 5)], Pair(1, 5)) == 2;
  }

  // The ingredient name filter.

  /** `name__istartswith=q`: `q` is a prefix of `name` once both are
      case-folded character by character by `fold`, the database's
      case-insensitive comparison. */
  predicate StartsWithFolded(name: string, q: string, fold: char -> char) {
    |q| <= |name| && forall i :: 0 <= i < |q| ==> fold(name[i]) == fold(q[i])
  }

  /** `IngredientFilter` on the `name` parameter. The `CharFilter`'s form
      field cleans the value first: it strips surrounding whitespace, and a
      value holding NUL makes the filter form invalid, which is a 400. A
      missing value, or one that strips to nothing, leaves the ingredients
      alone; any other keeps those whose name starts with the stripped value,
      in queryset order. */
  function IngredientFilter(ings: seq<Schema.Ingredient>, name: Option<string>, fold: char -> char)
    : (r: Result<seq<Schema.Ingredient>, Status>)
    ensures name.None? ==> r == Ok(ings)
    ensures name.Some? ==> (r.Err? <==> '\0' in Strip(name.value))
    ensures r.Err? ==> r.error == BadRequest400
    ensures name.Some? && Strip(name.value) == [] ==> r == Ok(ings)
    ensures r.Ok? ==> |r.value| <= |ings|
    ensures name.Some? && r.Ok? && Strip(name.value) != [] ==>
      forall x :: x in r.value <==> x in ings && StartsWithFolded(x.name, Strip(name.value), fold)
  {
    if name.None? then Ok(ings)
    else
      var q := Strip(name.value);
      if '\0' in q then Err(BadRequest400)
      else if q == [] then Ok(ings)
      else Ok(Filter(ings, (x: Schema.Ingredient) => StartsWithFolded(x.name, q, fold)))
  }

  /** A query of whitespace alone filters nothing out. */
  lemma BlankQueryKeepsAll(ings: seq<Schema.Ingredient>, fold: char -> char)
    ensures IngredientFilter(ings, Some(" "), fold) == Ok(ings)
  {
    assert IsSpace(' ');
    assert LeadingSpaces(" ") == 1;
  }

  /** A trailing space in the query changes nothing: "соль " filters like
      "соль". */
  lemma PaddedQuerySame(ings: seq<Schema.Ingredient>, q: string, fold: char -> char)
    requires q != [] && !IsSpace(q[0]) && !IsSpace(q[|q| - 1])
    ensures IngredientFilter(ings, Some(q + " "), fold) == IngredientFilter(ings, Some(q), fold)
  {
    StripNothing(q);
    StripPadded(q);
  }

  /** A NUL in the query is a 400. */
  lemma NullQueryRefused(ings: seq<Schema.Ingredient>, fold: char -> char)
    ensures IngredientFilter(ings, Some("a\0b"), fold) == Err(BadRequest400)
  {
    StripNothing("a\0b");
    assert "a\0b"[1] == '\0';
  }

  /** An ingredient whose name starts with the stripped query is always kept,
      whatever the case folding is. */
  lemma ExactPrefixMatches(ings: seq<Schema.Ingredient>, x: Schema.Ingredient, q: string, fold: char -> char)
    requires x in ings && '\0' !in Strip(q)
    requires |Strip(q)| <= |x.name| && x.name[..|Strip(q)|] == Strip(q)
    ensures IngredientFilter(ings, Some(q), fold).Ok?
    ensures x in IngredientFilter(ings, Some(q), fold).value
  {
    var t := Strip(q);
    assert forall i :: 0 <= i < |t| ==> x.name[i] == t[i] by {
      forall i | 0 <= i < |t| ensures x.name[i] == t[i] {
        assert x.name[..|t|][i] == x.name[i];
      }
    }
  }

  /** A query whose stripped value extends another's keeps no more. */
  lemma LongerQueryNarrows(ings: seq<Schema.Ingredient>, q1: string, q2: string, e: string, fold: char -> char)
    requires Strip(q1) != [] && Strip(q2) == Strip(q1) + e && '\0' !in Strip(q2)
    ensures IngredientFilter(ings, Some(q1), fold).Ok? && IngredientFilter(ings, Some(q2), fold).Ok?
    ensures forall x :: x in IngredientFilter(ings, Some(q2), fold).value ==> x in IngredientFilter(ings, Some(q1), fold).value
  {
    var t1, t2 := Strip(q1), Strip(q2);
    assert forall i :: 0 <= i < |t1| ==> t2[i] == t1[i];
    assert '\0' !in t1 by {
      forall i | 0 <= i < |t1| ensures t1[i] != '\0' {
        assert t2[i] == t1[i];
      }
    }
    forall x | x in IngredientFilter(ings, Some(q2), fold).value
      ensures x in IngredientFilter(ings, Some(q1), fold).value
    {
      assert StartsWithFolded(x.name, t2, fold);
    }
  }
}
