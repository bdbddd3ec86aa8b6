/** The stored entities of backend/recipes/models.py and
    backend/users/models.py: their fields, the constraints the database and
    the field validators state about whole tables, and the `__str__` texts. */
module Schema {

  import opened Common
  import opened Numerals
  import opened PyText
  import NameValidators

  // Constants.

  datatype Bounds = Bounds(min: int, max: int)

  /** A closed range `[min, max]`; the bounds themselves live in a settings
      module outside this model, so the model only knows `min <= max`. */
  type Limits = b: Bounds | b.min <= b.max witness Bounds(0, 0)

  predicate Within(x: int, l: Limits) {
    l.min <= x <= l.max
  }

  /** `MIN_INGEDIENT_AMOUNT`..`MAX_INGEDIENT_AMOUNT` and
      `MIN_COOKING_TIME`..`MAX_COOKING_TIME`. */
  datatype Constants = Constants(amount: Limits, cookingTime: Limits)

  // Entities.

  datatype Tag = Tag(id: nat, name: string, slug: string)

  datatype Ingredient = Ingredient(id: nat, name: string, unit: string)

  datatype Recipe = Recipe(id: nat, author: nat, name: string, cookingTime: int)

  datatype RecipeIngredient = RecipeIngredient(recipe: nat, ingredient: nat, amount: int)

  datatype User = User(id: nat, email: string, username: string)

  // Table constraints.

  /** `Tag.name` and `Tag.slug` are each `unique=True`. */
  predicate TagsValid(tags: seq<Tag>) {
    forall i, j :: 0 <= i < j < |tags| ==> tags[i].name != tags[j].name && tags[i].slug != tags[j].slug
  }

  /** `UniqueConstraint(name, measurement_unit)` on Ingredient. */
  predicate IngredientsValid(ings: seq<Ingredient>) {
    forall i, j :: 0 <= i < j < |ings| ==> (ings[i].name, ings[i].unit) != (ings[j].name, ings[j].unit)
  }

  /** The validators of `Recipe.cooking_time`. */
  predicate RecipesValid(c: Constants, recipes: seq<Recipe>) {
    forall i :: 0 <= i < |recipes| ==> Within(recipes[i].cookingTime, c.cookingTime)
  }

  /** The validators of `RecipeIngredient.amount` and its
      `UniqueConstraint(ingredient, recipe)`. */
  predicate RecipeIngredientsValid(c: Constants, rows: seq<RecipeIngredient>) {
    && (forall i :: 0 <= i < |rows| ==> Within(rows[i].amount, c.amount))
    && (forall i, j :: 0 <= i < j < |rows| ==>
          (rows[i].ingredient, rows[i].recipe) != (rows[j].ingredient, rows[j].recipe))
  }

  /** `User.email` and `User.username` are each `unique=True`. */
  predicate UsersValid(users: seq<User>) {
    forall i, j :: 0 <= i < j < |users| ==> users[i].email != users[j].email && users[i].username != users[j].username
  }

  /** In a valid user table a username names at most one user, so a lookup
      by username (as `SlugRelatedField(slug_field="username")` does) finds
      the user it was given. */
  lemma UsernameIdentifies(users: seq<User>, i: nat, j: nat)
    requires UsersValid(users) && i < |users| && j < |users|
    requires users[i].username == users[j].username
    ensures i == j
  {
  }

  // `__str__`.

  function TagStr(t: Tag): (s: string)
    ensures s == t.name
  {
    t.name
  }

  function RecipeStr(r: Recipe): (s: string)
    ensures s == r.name
  {
    r.name
  }

  function UserStr(u: User): (s: string)
    ensures s == u.username
  {
    u.username
  }

  /** `Ingredient.__str__`: "<name>, <unit>". */
  function IngredientStr(i: Ingredient): (s: string)
    ensures |s| == |i.name| + 2 + |i.unit|
    ensures s[..|i.name|] == i.name && s[|i.name|..|i.name| + 2] == ", " && s[|i.name| + 2..] == i.unit
  {
    i.name + ", " + i.unit
  }

  /** `Favorite.__str__`: "<recipe name> в избранном у <username>". */
  function FavoriteStr(recipe: Recipe, user: User): (s: string)
    ensures |s| == |recipe.name| + 15 + |user.username|
    ensures s[..|recipe.name|] == recipe.name && s[|s| - |user.username|..] == user.username
  {
    recipe.name + " в избранном у " + user.username
  }

  /** `Subscription.__str__`: "<user's username> -> <author's username>". */
  function SubscriptionStr(user: User, author: User): (s: string)
    ensures |s| == |user.username| + 4 + |author.username|
    ensures s[..|user.username|] == user.username && s[|user.username| + 4..] == author.username
  {
    user.username + " -> " + author.username
  }

  /** The position of the first `c` in `s`, or `|s|` when there is none. */
  function Find(s: string, c: char): (k: nat)
    ensures k <= |s|
  {
    if s == [] || s[0] == c then 0 else 1 + Find(s[1..], c)
  }

  lemma {:induction false} FindAfterPrefix(a: string, t: string, c: char)
    requires c !in a && |t| >= 1 && t[0] == c
    ensures Find(a + t, c) == |a|
  {
    if a != [] {
      assert (a + t)[1..] == a[1..] + t;
      FindAfterPrefix(a[1..], t, c);
    }
  }

  /** Two texts `a + sep + b` split the same way when `sep` starts with a
      character that neither left part contains. */
  lemma SplitAtSeparator(a1: string, b1: string, a2: string, b2: string, sep: string)
    requires |sep| >= 1 && sep[0] !in a1 && sep[0] !in a2
    requires a1 + sep + b1 == a2 + sep + b2
    ensures a1 == a2 && b1 == b2
  {
    var s := a1 + sep + b1;
    assert s == a1 + (sep + b1) && s == a2 + (sep + b2);
    FindAfterPrefix(a1, sep + b1, sep[0]);
    FindAfterPrefix(a2, sep + b2, sep[0]);
    assert s[..|a1|] == a1;
    assert s[..|a2|] == a2;
    assert s[|a1| + |sep|..] == b1;
    assert s[|a2| + |sep|..] == b2;
  }

  /** Names without a comma print apart: the string gives back the name and
      the unit. */
  lemma IngredientStrInjective(x: Ingredient, y: Ingredient)
    requires ',' !in x.name && ',' !in y.name
    requires IngredientStr(x) == IngredientStr(y)
    ensures x.name == y.name && x.unit == y.unit
  {
    SplitAtSeparator(x.name, x.unit, y.name, y.unit, ", ");
  }

  /** A comma inside a name makes two different ingredients print alike. */
  lemma IngredientStrAmbiguous()
    ensures IngredientStr(Ingredient(1, "соль, морская", "г")) == IngredientStr(Ingredient(2, "соль", "морская, г"))
  {
  }

  /** Every username the model field accepts is free of spaces, so the
      subscription text gives back both usernames. */
  lemma SubscriptionStrInjective(u1: User, a1: User, u2: User, a2: User, w: char -> bool)
    requires NameValidators.WordSound(w)
    requires NameValidators.UsernameChars(u1.username, w) && NameValidators.UsernameChars(u2.username, w)
    requires SubscriptionStr(u1, a1) == SubscriptionStr(u2, a2)
    ensures u1.username == u2.username && a1.username == a2.username
  {
    NameValidators.UsernameCharsAt(u1.username, w);
    NameValidators.UsernameCharsAt(u2.username, w);
    assert IsSpace(' ');
    SplitAtSeparator(u1.username, a1.username, u2.username, a2.username, " -> ");
  }

  /** `RecipeIngredient.__str__` as written: only the first of its three
      adjacent literals is an f-string, so the amount and the unit appear as
      the literal text "{self.amount}" and "{self.ingredient.measurement_unit}". */
  function RecipeIngredientStrAsWritten(ri: RecipeIngredient, ing: Ingredient): (s: string)
    ensures |s| > |IngredientStr(ing)| && s[..|IngredientStr(ing)|] == IngredientStr(ing)
  {
    IngredientStr(ing) + " = {self.amount} " + "{self.ingredient.measurement_unit}"
  }

  /** As written, the text does not depend on the amount at all. */
  lemma RecipeIngredientStrIgnoresAmount(ing: Ingredient, recipe: nat, a: int, b: int)
    ensures RecipeIngredientStrAsWritten(RecipeIngredient(recipe, ing.id, a), ing)
         == RecipeIngredientStrAsWritten(RecipeIngredient(recipe, ing.id, b), ing)
  {
  }

  /** The evidently intended text: "<ingredient> = <amount> <unit>", with the
      amount written by `str()`. A stored amount is a positive small integer,
      hence the `0 <= amount`. */
  function RecipeIngredientStr(ri: RecipeIngredient, ing: Ingredient): (s: string)
    requires 0 <= ri.amount
  {
    IngredientStr(ing) + " = " + Decimal(ri.amount) + " " + ing.unit
  }

  /** The intended text gives back the amount: the digits run from the fixed
      prefix up to the last space before the unit. */
  lemma RecipeIngredientStrAmount(x: RecipeIngredient, y: RecipeIngredient, ing: Ingredient)
    requires 0 <= x.amount && 0 <= y.amount
    requires RecipeIngredientStr(x, ing) == RecipeIngredientStr(y, ing)
    ensures x.amount == y.amount
  {
    var p := IngredientStr(ing) + " = ";
    var dx, dy := Decimal(x.amount), Decimal(y.amount);
    var tail := " " + ing.unit;
    assert RecipeIngredientStr(x, ing) == p + dx + tail;
    assert RecipeIngredientStr(y, ing) == p + dy + tail;
    assert |dx| == |dy|;
    assert dx == (p + dx + tail)[|p|..|p| + |dx|];
    assert dy == (p + dy + tail)[|p|..|p| + |dy|];
    DecimalInjective(x.amount, y.amount);
  }
}
