/** The validation logic of backend/api/serializers.py, run the way Django
    REST framework runs it: each field is checked on its own and all field
    errors are collected; `validate()` runs only when no field failed; a
    `CharField` strips surrounding whitespace and refuses a blank value. A
    request body is given already parsed; only the fields with rules of
    their own are modelled. */
module Serializers {

  import opened Common
  import opened Numerals
  import opened PyText
  import NameValidators
  import Schema
  import Membership
  import Permissions

  // `len(set(xs)) != len(xs)`, the duplicate test of the validators.

  function Elements<T>(s: seq<T>): set<T> {
    set x | x in s
  }

  lemma {:induction false} ElementsSize<T>(s: seq<T>)
    ensures |Elements(s)| <= |s|
    ensures |Elements(s)| == |s| <==> NoDuplicates(s)
  {
    if s != [] {
      ElementsSize(s[1..]);
      NoDuplicatesCons(s);
      assert Elements(s) == {s[0]} + Elements(s[1..]);
      if s[0] in s[1..] {
        assert Elements(s) == Elements(s[1..]);
      } else {
        assert s[0] !in Elements(s[1..]);
      }
    }
  }

  // Character fields.

  /** The errors a field reports. */
  datatype FieldError =
    | Required
    | Blank
    | TooShort
    | TooLong
    | NullCharacter
    | InvalidPattern
    | Taken

  /** `CharField` with no other rules: a missing value is required, a value
      that strips to nothing is blank; otherwise the stripped value, which
      must not hold NUL. */
  function CharField(raw: Option<string>): (r: Result<string, seq<FieldError>>)
    ensures r.Ok? <==> raw.Some? && Strip(raw.value) != [] && '\0' !in Strip(raw.value)
    ensures r.Ok? ==> r.value == Strip(raw.value)
    ensures r.Err? ==> |r.error| == 1
  {
    if raw.None? then Err([Required])
    else if raw.value == "" || Strip(raw.value) == [] then Err([Blank])
    else
      var v := Strip(raw.value);
      if '\0' in v then Err([NullCharacter]) else Ok(v)
  }

  /** `MAX_NAME_LENGTH` and `MIN_USERNAME_LENGTH_API` of users/constants.py. */
  const MaxNameLength := 150
  const MinUsernameLength := 5

  /** The `username` field of `CustomUserCreateSerializer` (`unique` true:
      its `UniqueValidator` looks the value up among `taken`) and of
      `CustomUserSerializer` (`unique` false). The validators run in the
      order the field holds them: the pattern, the uniqueness check, the
      length bounds, the NUL check; every failure is reported. */
  function UsernameField(raw: Option<string>, taken: set<string>, unique: bool, w: char -> bool): (r: Result<string, seq<FieldError>>)
    ensures r.Ok? ==> raw.Some? && r.value == Strip(raw.value)
  {
    if raw.None? then Err([Required])
    else if raw.value == "" || Strip(raw.value) == [] then Err([Blank])
    else
      var v := Strip(raw.value);
      var errors :=
        (if NameValidators.UsernameValid(v, w) then [] else [InvalidPattern])
        + (if unique && v in taken then [Taken] else [])
        + (if |v| > MaxNameLength then [TooLong] else [])
        + (if |v| < MinUsernameLength then [TooShort] else [])
        + (if '\0' in v then [NullCharacter] else []);
      if errors == [] then Ok(v) else Err(errors)
  }

  /** The `first_name` and `last_name` fields the serializers build from the
      model: `FIRST_NAME_PATTERN` or `LAST_NAME_PATTERN`, at most 150
      characters, no NUL, and not blank. */
  function NameField(raw: Option<string>, last: bool): (r: Result<string, seq<FieldError>>)
    ensures r.Ok? ==> raw.Some? && r.value == Strip(raw.value)
  {
    if raw.None? then Err([Required])
    else if raw.value == "" || Strip(raw.value) == [] then Err([Blank])
    else
      var v := Strip(raw.value);
      var matches := if last then NameValidators.LastNameValid(v) else NameValidators.FirstNameValid(v);
      var errors :=
        (if matches then [] else [InvalidPattern])
        + (if |v| > MaxNameLength then [TooLong] else [])
        + (if '\0' in v then [NullCharacter] else []);
      if errors == [] then Ok(v) else Err(errors)
  }

  /** The username a client may register: after stripping, 5 to 150
      characters matching `USERNAME_PATTERN` and not yet taken. The NUL
      check adds nothing, because NUL is not in `[\w.@+-]`. */
  lemma UsernameFieldAccepts(raw: Option<string>, taken: set<string>, w: char -> bool)
    requires NameValidators.WordSound(w)
    ensures UsernameField(raw, taken, true, w).Ok? <==>
      && raw.Some?
      && MinUsernameLength <= |Strip(raw.value)| <= MaxNameLength
      && NameValidators.UsernameValid(Strip(raw.value), w)
      && Strip(raw.value) !in taken
  {
    if raw.Some? && NameValidators.UsernameValid(Strip(raw.value), w) {
      var v := Strip(raw.value);
      NameValidators.UsernameCharsAt(v, w);
    }
  }

  /** The first-name pattern accepts the empty string, but the field does
      not: a blank value is refused before the pattern is tried, and so is
      one made only of spaces. */
  lemma BlankNameRefused(raw: string, last: bool)
    requires Strip(raw) == []
    ensures NameValidators.FirstNameValid(raw) || raw != ""
    ensures NameField(Some(raw), last) == Err([Blank])
  {
  }

  /** A name field accepts exactly the stripped values of 1 to 150
      characters that match the pattern. */
  lemma NameFieldAccepts(raw: Option<string>, last: bool)
    ensures NameField(raw, last).Ok? <==>
      && raw.Some? && 1 <= |Strip(raw.value)| <= MaxNameLength
      && (if last then NameValidators.LastNameValid(Strip(raw.value)) else NameValidators.FirstNameValid(Strip(raw.value)))
  {
    if raw.Some? && Strip(raw.value) != [] {
      var v := Strip(raw.value);
      NameValidators.FirstNameAt(v);
      NameValidators.LastNameAt(v);
      if '\0' in v {
        var i :| 0 <= i < |v| && v[i] == '\0';
        assert !NameValidators.NameChar(v[i]) && v[i] != '-';
      }
    }
  }

  // `SetPasswordSerializer`.

  datatype PasswordError =
    | NewPassword(e: FieldError)
    | CurrentPassword(e: FieldError)
    | WrongPassword
    | SamePassword

  function Tagged(errors: seq<FieldError>, current: bool): (r: seq<PasswordError>)
    ensures |r| == |errors|
  {
    seq(|errors|, i requires 0 <= i < |errors| => if current then CurrentPassword(errors[i]) else NewPassword(errors[i]))
  }

  /** `SetPasswordSerializer` with `check` standing for
      `request.user.check_password`: the two field checks first
      (`new_password` before `current_password`), then `validate`. The
      values compared are the stripped ones. */
  function SetPassword(newRaw: Option<string>, currentRaw: Option<string>, check: string -> bool): (r: Result<(string, string), seq<PasswordError>>)
    ensures r.Ok? ==> newRaw.Some? && currentRaw.Some? && r.value == (Strip(newRaw.value), Strip(currentRaw.value))
  {
    var n, c := CharField(newRaw), CharField(currentRaw);
    var errors := (if n.Err? then Tagged(n.error, false) else []) + (if c.Err? then Tagged(c.error, true) else []);
    if errors != [] then Err(errors)
    else if !check(c.value) then Err([WrongPassword])
    else if c.value == n.value then Err([SamePassword])
    else Ok((n.value, c.value))
  }

  /** A password change goes through exactly when both values are given
      and non-blank without NUL, the current one passes the check, and the
      two differ once stripped. */
  lemma SetPasswordAccepts(newRaw: Option<string>, currentRaw: Option<string>, check: string -> bool)
    ensures SetPassword(newRaw, currentRaw, check).Ok? <==>
      && newRaw.Some? && Strip(newRaw.value) != [] && '\0' !in Strip(newRaw.value)
      && currentRaw.Some? && Strip(currentRaw.value) != [] && '\0' !in Strip(currentRaw.value)
      && check(Strip(currentRaw.value))
      && Strip(currentRaw.value) != Strip(newRaw.value)
  {
  }

  /** Well-formed values are refused for a failing check, and for a new
      password equal to the current one. */
  lemma SetPasswordRefusals(newPw: string, currentPw: string, check: string -> bool)
    requires CharField(Some(newPw)).Ok? && CharField(Some(currentPw)).Ok?
    ensures !check(Strip(currentPw)) ==> SetPassword(Some(newPw), Some(currentPw), check) == Err([WrongPassword])
    ensures check(Strip(currentPw)) && Strip(newPw) == Strip(currentPw) ==>
              SetPassword(Some(newPw), Some(currentPw), check) == Err([SamePassword])
  {
  }

  /** Padding the current password with a space is not a new password. */
  lemma PaddedPasswordIsSame(pw: string, check: string -> bool)
    requires pw != [] && !IsSpace(pw[0]) && !IsSpace(pw[|pw| - 1]) && '\0' !in pw && check(pw)
    ensures SetPassword(Some(pw + " "), Some(pw), check) == Err([SamePassword])
  {
    StripNothing(pw);
    StripPadded(pw);
  }

  // `RecipeCreateUpdateSerializer`.

  /** One element of `ingredients`: the ingredient's primary key and the
      amount. */
  datatype IngredientItem = IngredientItem(id: nat, amount: int)

  /** The parsed body: each of the three checked fields may be missing. */
  datatype RecipePayload = RecipePayload(
    ingredients: Option<seq<IngredientItem>>,
    tags: Option<seq<nat>>,
    cookingTime: Option<int>)

  datatype RecipeError =
    | IngredientsRequired
    | UnknownIngredient(index: nat)
    | AmountBelowMin(index: nat)
    | AmountAboveMax(index: nat)
    | IngredientsRepeat
    | TagsRequired
    | UnknownTag(pk: nat)
    | TagsRepeat
    | CookingTimeRequired
    | CookingTimeBelowMin
    | CookingTimeAboveMax
    | NoIngredients
    | NoTags

  /** An element passes `RecipeIngredientCreateSerializer`: a stored
      ingredient, an amount of at least the minimum, and, when `upper`
      holds, of at most the maximum. */
  predicate ItemOk(it: IngredientItem, known: set<nat>, c: Schema.Constants, upper: bool) {
    it.id in known && c.amount.min <= it.amount && (upper ==> it.amount <= c.amount.max)
  }

  /** The errors of the element at position `i`: its `ingredient` field,
      then its `amount` field. */
  function ElementErrors(it: IngredientItem, known: set<nat>, c: Schema.Constants, upper: bool, i: nat): (r: seq<RecipeError>)
    ensures r == [] <==> ItemOk(it, known, c, upper)
    ensures forall j: nat :: UnknownIngredient(j) in r <==> j == i && it.id !in known
    ensures forall j: nat :: AmountBelowMin(j) in r <==> j == i && it.amount < c.amount.min
    ensures forall e :: e in r ==> e.UnknownIngredient? || e.AmountBelowMin? || e.AmountAboveMax?
  {
    (if it.id in known then [] else [UnknownIngredient(i)])
    + (if it.amount < c.amount.min then [AmountBelowMin(i)]
       else if upper && it.amount > c.amount.max then [AmountAboveMax(i)]
       else [])
  }

  /** The errors of the elements from position `from` on, element by
      element and field by field. */
  function ItemErrors(items: seq<IngredientItem>, known: set<nat>, c: Schema.Constants, upper: bool, from: nat): (r: seq<RecipeError>)
    requires from <= |items|
    ensures r == [] <==> forall i :: from <= i < |items| ==> ItemOk(items[i], known, c, upper)
    ensures forall i: nat :: UnknownIngredient(i) in r <==> from <= i < |items| && items[i].id !in known
    ensures forall i: nat :: AmountBelowMin(i) in r <==> from <= i < |items| && items[i].amount < c.amount.min
    ensures forall e :: e in r ==> e.UnknownIngredient? || e.AmountBelowMin? || e.AmountAboveMax?
    decreases |items| - from
  {
    if from == |items| then []
    else
      var head := ElementErrors(items[from], known, c, upper, from);
      var rest := ItemErrors(items, known, c, upper, from + 1);
      assert forall e :: e in head + rest <==> e in head || e in rest;
      head + rest
  }

  function Ids(items: seq<IngredientItem>): (ids: seq<nat>)
    ensures |ids| == |items| && forall i :: 0 <= i < |items| ==> ids[i] == items[i].id
  {
    seq(|items|, i requires 0 <= i < |items| => items[i].id)
  }

  /** The `ingredients` field and then `validate_ingredients`. */
  function IngredientsField(p: Option<seq<IngredientItem>>, partial: bool, known: set<nat>, c: Schema.Constants, upper: bool): seq<RecipeError> {
    match p
    case None => if partial then [] else [IngredientsRequired]
    case Some(items) =>
      var e := ItemErrors(items, known, c, upper, 0);
      if e != [] then e
      else if |Elements(Ids(items))| != |Ids(items)| then [IngredientsRepeat]
      else []
  }

  /** The first primary key in `pks` with no stored row, the one the
      related field stops at. */
  function FirstUnknown(pks: seq<nat>, known: set<nat>): (r: Option<nat>)
    ensures r.None? <==> forall i :: 0 <= i < |pks| ==> pks[i] in known
    ensures r.Some? ==> r.value in pks && r.value !in known
  {
    if pks == [] then None
    else if pks[0] !in known then Some(pks[0])
    else FirstUnknown(pks[1..], known)
  }

  /** The `tags` field and then `validate_tags`. */
  function TagsField(p: Option<seq<nat>>, partial: bool, known: set<nat>): seq<RecipeError> {
    match p
    case None => if partial then [] else [TagsRequired]
    case Some(pks) =>
      match FirstUnknown(pks, known)
      case Some(pk) => [UnknownTag(pk)]
      case None => if |Elements(pks)| != |pks| then [TagsRepeat] else []
  }

  /** The `cooking_time` field. */
  function CookingTimeField(p: Option<int>, partial: bool, c: Schema.Constants, upper: bool): seq<RecipeError> {
    match p
    case None => if partial then [] else [CookingTimeRequired]
    case Some(t) =>
      if t < c.cookingTime.min then [CookingTimeBelowMin]
      else if upper && t > c.cookingTime.max then [CookingTimeAboveMax]
      else []
  }

  /** The whole validation of a recipe body, `partial` for PATCH: the field
      errors if there are any, else `validate()`, which wants at least one
      ingredient and then at least one tag; an accepted body comes back as
      it was. */
  function CheckRecipe(p: RecipePayload, partial: bool, ingredients: set<nat>, tags: set<nat>, c: Schema.Constants, upper: bool): (r: Result<RecipePayload, seq<RecipeError>>)
    ensures r.Ok? ==> r.value == p
  {
    var errors := IngredientsField(p.ingredients, partial, ingredients, c, upper)
                  + TagsField(p.tags, partial, tags)
                  + CookingTimeField(p.cookingTime, partial, c, upper);
    if errors != [] then Err(errors)
    else if p.ingredients.None? || p.ingredients.value == [] then Err([NoIngredients])
    else if p.tags.None? || p.tags.value == [] then Err([NoTags])
    else Ok(p)
  }

  /** The serializer as written: only the minimums are checked. */
  function ValidateRecipeAsWritten(p: RecipePayload, partial: bool, ingredients: set<nat>, tags: set<nat>, c: Schema.Constants): Result<RecipePayload, seq<RecipeError>> {
    CheckRecipe(p, partial, ingredients, tags, c, false)
  }

  /** The serializer with the model's maximums checked as well. */
  function ValidateRecipe(p: RecipePayload, partial: bool, ingredients: set<nat>, tags: set<nat>, c: Schema.Constants): Result<RecipePayload, seq<RecipeError>> {
    CheckRecipe(p, partial, ingredients, tags, c, true)
  }

  /** What a recipe body must be to be accepted: a non-empty list of
      distinct stored ingredients with amounts in bounds, a non-empty list
      of distinct stored tags, and a cooking time in bounds (which PATCH may
      leave out). */
  lemma CheckRecipeAccepts(p: RecipePayload, partial: bool, ingredients: set<nat>, tags: set<nat>, c: Schema.Constants, upper: bool)
    ensures CheckRecipe(p, partial, ingredients, tags, c, upper).Ok? <==>
      && p.ingredients.Some? && |p.ingredients.value| >= 1
      && (forall i :: 0 <= i < |p.ingredients.value| ==> ItemOk(p.ingredients.value[i], ingredients, c, upper))
      && NoDuplicates(Ids(p.ingredients.value))
      && p.tags.Some? && |p.tags.value| >= 1
      && (forall i :: 0 <= i < |p.tags.value| ==> p.tags.value[i] in tags)
      && NoDuplicates(p.tags.value)
      && (p.cookingTime.None? ==> partial)
      && (p.cookingTime.Some? ==> c.cookingTime.min <= p.cookingTime.value && (upper ==> p.cookingTime.value <= c.cookingTime.max))
  {
    if p.ingredients.Some? {
      ElementsSize(Ids(p.ingredients.value));
    }
    if p.tags.Some? {
      ElementsSize(p.tags.value);
    }
  }

  /** A body without ingredients, or with an empty list of them, is refused;
      the same for tags. */
  lemma EmptyListsRefused(p: RecipePayload, partial: bool, ingredients: set<nat>, tags: set<nat>, c: Schema.Constants, upper: bool)
    requires p.ingredients.None? || p.ingredients == Some([]) || p.tags.None? || p.tags == Some([])
    ensures CheckRecipe(p, partial, ingredients, tags, c, upper).Err?
  {
    CheckRecipeAccepts(p, partial, ingredients, tags, c, upper);
  }

  /** Well-formed items naming one ingredient twice are reported as repeated. */
  lemma RepeatedIngredientReported(items: seq<IngredientItem>, known: set<nat>, c: Schema.Constants, upper: bool, partial: bool)
    requires forall i :: 0 <= i < |items| ==> ItemOk(items[i], known, c, upper)
    requires !NoDuplicates(Ids(items))
    ensures IngredientsField(Some(items), partial, known, c, upper) == [IngredientsRepeat]
  {
    ElementsSize(Ids(items));
  }

  /** Stored tags named twice are reported as repeated. */
  lemma RepeatedTagReported(pks: seq<nat>, known: set<nat>, partial: bool)
    requires forall i :: 0 <= i < |pks| ==> pks[i] in known
    requires !NoDuplicates(pks)
    ensures TagsField(Some(pks), partial, known) == [TagsRepeat]
  {
    ElementsSize(pks);
  }

  /** `add_tags_ingredients`: one RecipeIngredient per element. */
  function RecipeRows(recipe: nat, items: seq<IngredientItem>): (rows: seq<Schema.RecipeIngredient>)
    ensures |rows| == |items|
    ensures forall i :: 0 <= i < |items| ==> rows[i] == Schema.RecipeIngredient(recipe, items[i].id, items[i].amount)
  {
    seq(|items|, i requires 0 <= i < |items| => Schema.RecipeIngredient(recipe, items[i].id, items[i].amount))
  }

  /** Every body the full check accepts gives rows that meet the model's
      constraints on RecipeIngredient, and a cooking time within bounds. */
  lemma ValidatedRowsValid(p: RecipePayload, partial: bool, ingredients: set<nat>, tags: set<nat>, c: Schema.Constants, recipe: nat)
    requires ValidateRecipe(p, partial, ingredients, tags, c).Ok?
    ensures Schema.RecipeIngredientsValid(c, RecipeRows(recipe, p.ingredients.value))
    ensures p.cookingTime.Some? ==> Schema.Within(p.cookingTime.value, c.cookingTime)
  {
    CheckRecipeAccepts(p, partial, ingredients, tags, c, true);
    var items := p.ingredients.value;
    var rows := RecipeRows(recipe, items);
    forall i, j | 0 <= i < j < |rows|
      ensures (rows[i].ingredient, rows[i].recipe) != (rows[j].ingredient, rows[j].recipe)
    {
      assert Ids(items)[i] != Ids(items)[j];
    }
  }

  /** As written, an amount and a cooking time one above the maximums pass
      the serializer, and the stored row breaks the model's constraint; the
      full check refuses the same body. */
  lemma AsWrittenAdmitsAboveMax(c: Schema.Constants)
    ensures var p := RecipePayload(Some([IngredientItem(1, c.amount.max + 1)]), Some([1]), Some(c.cookingTime.max + 1));
      && ValidateRecipeAsWritten(p, false, {1}, {1}, c) == Ok(p)
      && !Schema.RecipeIngredientsValid(c, RecipeRows(7, p.ingredients.value))
      && !Schema.Within(p.cookingTime.value, c.cookingTime)
      && ValidateRecipe(p, false, {1}, {1}, c).Err?
  {
    var p := RecipePayload(Some([IngredientItem(1, c.amount.max + 1)]), Some([1]), Some(c.cookingTime.max + 1));
    CheckRecipeAccepts(p, false, {1}, {1}, c, false);
    CheckRecipeAccepts(p, false, {1}, {1}, c, true);
    assert Ids(p.ingredients.value) == [1];
    assert RecipeRows(7, p.ingredients.value)[0].amount == c.amount.max + 1;
  }

  // `SubscriptionSerializer`.

  datatype SubscriptionError = SelfSubscription | AlreadySubscribed

  /** `validate_author`, then the `UniqueTogetherValidator` on (user,
      author). */
  function ValidateSubscription(user: nat, author: nat, subs: seq<Membership.Pair>): (r: Result<Membership.Pair, SubscriptionError>)
    ensures r.Ok? <==> user != author && Membership.Pair(user, author) !in subs
    ensures r.Ok? ==> r.value == Membership.Pair(user, author)
    ensures user == author ==> r == Err(SelfSubscription)
  {
    if user == author then Err(SelfSubscription)
    else if Membership.Count(subs, Membership.Pair(user, author)) > 0 then Err(AlreadySubscribed)
    else Ok(Membership.Pair(user, author))
  }

  /** The `subscribe` view creates a row exactly when the author exists and
      the serializer accepts; a refusal by the serializer is a 400. */
  lemma SubscribeFollowsSerializer(users: set<nat>, subs: seq<Membership.Pair>, user: nat, author: nat)
    requires author in users
    ensures Membership.Subscribe(users, subs, user, author).0 == Created201 <==> ValidateSubscription(user, author, subs).Ok?
    ensures ValidateSubscription(user, author, subs).Err? ==> Membership.Subscribe(users, subs, user, author) == (BadRequest400, subs)
  {
  }

  /** `get_is_subscribed`: false without a request; otherwise the viewer is
      signed in, is not `obj` and follows `obj`. */
  function IsSubscribed(request: Option<Permissions.Viewer>, obj: nat, subs: seq<Membership.Pair>): (b: bool)
    ensures b <==> request.Some? && request.value.Account? && request.value.id != obj
                   && Membership.Pair(request.value.id, obj) in subs
  {
    if request.None? then false
    else
      var u := request.value;
      u != Permissions.Anonymous && u.id != obj && Membership.Count(subs, Membership.Pair(u.id, obj)) > 0
  }

  /** After a successful subscribe the author shows as followed by the
      subscriber, and after an unsubscribe no longer does. */
  lemma IsSubscribedTracksViews(users: set<nat>, subs: seq<Membership.Pair>, v: Permissions.Viewer, author: nat)
    requires v.Account?
    ensures Membership.Subscribe(users, subs, v.id, author).0 == Created201 ==>
              IsSubscribed(Some(v), author, Membership.Subscribe(users, subs, v.id, author).1)
    ensures author in users ==> !IsSubscribed(Some(v), author, Membership.Unsubscribe(users, subs, v.id, author).1)
  {
  }

  /** Nobody is shown as following themself, and the anonymous user follows
      nobody. */
  lemma IsSubscribedNeverSelf(request: Option<Permissions.Viewer>, obj: nat, subs: seq<Membership.Pair>)
    ensures request == Some(Permissions.Anonymous) ==> !IsSubscribed(request, obj, subs)
    ensures request.Some? && request.value.Account? && request.value.id == obj ==> !IsSubscribed(request, obj, subs)
  {
  }

  // `UserRecipeSerializer.get_recipes`.

  /** The request, reduced to its `recipes_limit` query parameter. */
  datatype Request = Request(recipesLimit: Option<string>)

  /** Why `get_recipes` raises: there is no request (AttributeError), or the
      limit is negative (a queryset refuses negative slicing). */
  datatype RecipesError = NoRequest | NegativeLimit

  /** `get_recipes` over the author's recipes in queryset order: a limit that
      `int()` reads cuts the list to its first `limit` recipes; a missing
      or unreadable one (TypeError, ValueError) leaves it whole. */
  function GetRecipes(request: Option<Request>, recipes: seq<nat>): (r: Result<seq<nat>, RecipesError>)
    ensures r.Ok? ==> |r.value| <= |recipes| && r.value == recipes[..|r.value|]
    ensures r == Err(NoRequest) <==> request.None?
  {
    if request.None? then Err(NoRequest)
    else match request.value.recipesLimit
      case None => Ok(recipes)
      case Some(s) =>
        match Int(s)
        case None => Ok(recipes)
        case Some(k) =>
          if k < 0 then Err(NegativeLimit)
          else if k < |recipes| then Ok(recipes[..k])
          else Ok(recipes)
  }

  /** `recipes_limit=<n>` yields the first `n` recipes, or all when fewer. */
  lemma GetRecipesLimit(n: nat, recipes: seq<nat>)
    requires |Decimal(n)| <= MaxStrDigits
    ensures GetRecipes(Some(Request(Some(Decimal(n)))), recipes)
         == Ok(recipes[..if n < |recipes| then n else |recipes|])
  {
    IntDecimal(n);
  }

  /** A limit `int()` cannot read leaves the recipes whole. */
  lemma GetRecipesUnreadable(s: string, recipes: seq<nat>)
    requires Int(s).None?
    ensures GetRecipes(Some(Request(Some(s))), recipes) == Ok(recipes)
    ensures GetRecipes(Some(Request(None)), recipes) == Ok(recipes)
  {
  }

  /** A limit too long for `int()` leaves the recipes whole. */
  lemma GetRecipesLimitTooLong(n: nat, recipes: seq<nat>)
    requires |Decimal(n)| > MaxStrDigits
    ensures GetRecipes(Some(Request(Some(Decimal(n)))), recipes) == Ok(recipes)
  {
    IntOfTooManyDigits(Decimal(n));
  }

  /** A limit behind a U+001C separator is unreadable, and leaves the
      recipes whole. */
  lemma GetRecipesSeparator(recipes: seq<nat>)
    ensures GetRecipes(Some(Request(Some("\U{1c}5"))), recipes) == Ok(recipes)
  {
    IntSeparatorRefused();
  }

  /** A limit `int()` reads as negative (`PyText.IntMinusOne`: "-1" is one)
      raises instead of falling back to all recipes. */
  lemma GetRecipesNegative(s: string, recipes: seq<nat>)
    requires Int(s).Some? && Int(s).value < 0
    ensures GetRecipes(Some(Request(Some(s))), recipes) == Err(NegativeLimit)
  {
  }
}
