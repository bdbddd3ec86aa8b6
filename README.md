# Foodgram backend core in Dafny

Foodgram is a recipe-sharing web service built with Django and Django REST
framework. Users publish recipes made of tagged ingredients with amounts and
a cooking time. They follow authors, keep favourites and fill a shopping
cart, which can be downloaded as a plain-text shopping list. Every recipe
also gets a short link.

This project models the parts of the backend that carry logic of their own:

- **Short links** (`ShortLink`, `Numerals`). `get_link` writes a recipe id
  with Django's `baseconv.base64` positional converter. `ShortLinkView.get`
  checks the code, decodes it and redirects to the recipe page.
- **Shopping list** (`CartReport`, `TextOrder`, `ShoppingList`).
  `download_shopping_cart` uses a grouped query ordered by name.
  `shopping_list_txt` uses two dictionaries filled by a loop; it is modelled
  as an imperative method proved against its specification functions.
- **Favourites, cart and subscriptions** (`Membership`). There are pure
  transitions on the row tables. The class `Store` updates its table fields
  in place through the view methods. The table constraints form the
  invariant the views keep.
- **Validation** (`Serializers`, `NameValidators`, `PyText`). This covers
  Django REST framework's field-then-`validate()` order, the username and
  name patterns, the password change, the recipe body, the subscription
  serializer and `get_recipes`.
- **Stored entities** (`Schema`): the uniqueness and range constraints of
  the models and their `__str__` texts.
- **Permissions and filters** (`Permissions`, `Filters`): the two permission
  classes, the recipe list filters and the ingredient name filter.
- **Tag import** (`TagImport`): the `add_tags` management command. It is a
  loop in the class `TagTable`, proved against the pure `ImportRows`.

Tables are sequences of rows, so a uniqueness constraint is a property the
operations must preserve. Integers are unbounded. The only fixed-width
effect that matters here is the recipe constants, which are a parameter
record `Schema.Constants` with `min <= max` for each range.

## Model

| member | source | states |
|---|---|---|
| Numerals.FromToDigits | backend/api/views.py:378 | Reading back the numeral written for `n` gives `n`. |
| Numerals.ToFromDigits | backend/api/views.py:403 | Writing the value of a canonical numeral gives the numeral back. |
| Numerals.ToDigitsCanonical | backend/api/views.py:378 | The written numeral is canonical: no leading zero digit unless it is the single zero digit. |
| Numerals.ToDigitsInjective | backend/api/views.py:378 | Different ids give different numerals. |
| Numerals.FromDigitsZero | backend/api/views.py:403 | A numeral reads as 0 exactly when all its characters are the zero digit. |
| Numerals.Decimal | backend/api/views.py:378 | `str(n)`: a non-empty canonical numeral over "0123456789". |
| Numerals.DecimalRoundTrip | backend/api/serializers.py:330 | The decimal text of `n` reads back as `n`. |
| Numerals.DecimalInjective | backend/recipes/models.py:129-134 | Different numbers have different decimal texts. |
| PyText.LeadingSpaces | backend/api/serializers.py:386-390 | The length of the whitespace prefix that `lstrip()` drops, ending at a non-space. |
| PyText.StripRight | backend/api/serializers.py:386-390 | `rstrip()` keeps a prefix ending in a non-space and drops only whitespace. |
| PyText.Strip | backend/api/serializers.py:386-390 | `strip()` returns a slice that starts and ends with a non-space, with only whitespace outside it. |
| PyText.StripPadded | backend/api/serializers.py:386-390 | A trailing space on a value without surrounding whitespace is stripped away again. |
| PyText.StripNothing | backend/api/serializers.py:386-390 | A value without whitespace at either end is its own strip. |
| PyText.Int | backend/api/serializers.py:330 | `int(s)` raises on a blank text, and on whitespace around the number that `int()` does not skip. |
| PyText.IntOfDigits | backend/api/serializers.py:330 | A plain digit run of at most 4300 digits reads as its decimal value. |
| PyText.IntOfTooManyDigits | backend/api/serializers.py:330-333 | A run of more than 4300 digits raises ValueError. |
| PyText.IntSeparatorRefused | backend/api/serializers.py:330-333 | `strip()` drops a leading U+001C but `int()` does not skip it, so "\x1c5" raises. |
| PyText.IntOfSigned | backend/api/serializers.py:330 | A '-' before a digit run negates its value. |
| PyText.IntDecimal | backend/api/serializers.py:330 | `int(str(n))` is `n` when `str(n)` has at most 4300 digits. |
| PyText.IntMinusOne | backend/api/serializers.py:330 | `int("-1")` is -1. |
| PyText.IntNeedsDigit | backend/api/serializers.py:330 | A text without any decimal digit does not parse. |
| ShortLink.Base64IsAlphabet | backend/api/views.py:378 | The 64 digits are distinct, exclude the sign '$' and '/', and run from '0' to '_'. |
| ShortLink.Convert | backend/api/views.py:378 | The converter fails with IndexError exactly on empty input; success gives a canonical numeral, with the sign flag being whether the first character is the sign. |
| ShortLink.EncodeIsBase64 | backend/api/views.py:378 | `encode(str(id))` is the canonical base-64 numeral of `id`. |
| ShortLink.EncodeExamples | backend/api/views.py:375-385 | Ids 0, 1, 63 and 64 encode to "0", "1", "_" and "10". |
| ShortLink.DecodeEncode | backend/api/views.py:378 | Decoding an encoded id gives the id. |
| ShortLink.DecodeAlphabetCode | backend/api/views.py:403 | A code over the alphabet decodes to a non-negative number, which re-encodes to the code exactly when it is canonical. |
| ShortLink.DecodeValue | backend/api/views.py:403 | A code over the alphabet decodes to its base-64 value. |
| ShortLink.DecodeRejectsForeign | backend/api/views.py:403 | A foreign character that is not a leading sign makes decoding raise ValueError. |
| ShortLink.ResolutionStatus | backend/api/views.py:392-409 | Only a redirect answers 302. |
| ShortLink.RecipePath | backend/api/views.py:407-409 | The redirect target is "/recipes/" followed by the id in decimal. |
| ShortLink.ShortLinkPath | backend/foodgram/urls.py:11 | The short link is "/s/", the code and "/". |
| ShortLink.GetLink | backend/api/views.py:375-385 | An unknown recipe is 404; otherwise the path of the encoded id. |
| ShortLink.ResolveRejectsForeign | backend/api/views.py:397-401 | A code with a foreign character is the 400 answer, whatever the recipe table holds. |
| ShortLink.ResolveAlphabetCode | backend/api/views.py:392-409 | A code over the alphabet redirects to its recipe when that recipe exists and is 404 otherwise; the converter never fails on it. |
| ShortLink.ShortLinkRoundTrip | backend/api/views.py:375-409 | The code in a link from `get_link` resolves to a redirect to that recipe's page. |
| ShortLink.LeadingZeroValue | backend/api/views.py:403 | "01" and "1" have the same base-64 value. |
| ShortLink.LeadingZeroDecodes | backend/api/views.py:403 | "01" and "1" both decode to 1. |
| ShortLink.LeadingZeroAlias | backend/api/views.py:392-409 | "01" resolves like "1", to recipe 1. |
| TextOrder.LessOrEqualTotalOrder | backend/api/views.py:347 | The name order of `order_by` is reflexive, antisymmetric, transitive and total. |
| TextOrder.LessTransitive | backend/api/views.py:347 | The strict text order is transitive. |
| TextOrder.LessTotal | backend/api/views.py:347 | Of two different texts one is less than the other. |
| CartReport.RowKeys | backend/api/views.py:343-346 | Every row's (name, unit) pair is one of the grouping keys. |
| CartReport.RowKeysMember | backend/api/views.py:343-346 | Every grouping key comes from some row. |
| CartReport.SumForPermutation | backend/api/views.py:348 | A key's sum does not depend on the order of the rows. |
| CartReport.AddRowAscending | backend/api/views.py:347 | Inserting a row keeps the totals strictly ordered by (name, unit). |
| CartReport.AddRowKeys | backend/api/views.py:343-348 | Inserting a row adds its key and no other. |
| CartReport.AddRowTotals | backend/api/views.py:348 | Inserting a row adds its amount to its own key's total only. |
| CartReport.GroupInvariants | backend/api/views.py:339-349 | The grouping is ordered, has exactly the rows' keys, and has each key's exact sum. |
| CartReport.GroupCorrect | backend/api/views.py:339-349 | One entry per distinct (name, unit) pair, each holding the exact sum of its rows. Entries are in name order and there are as many as distinct pairs. |
| CartReport.GroupIsUnique | backend/api/views.py:339-349 | Two ordered totals lists with the same keys and sums are equal, so the query's answer is determined. |
| CartReport.GroupPermutationInvariant | backend/api/views.py:339-349 | The answer does not depend on the order in which rows arrive. |
| CartReport.GroupExample | backend/api/views.py:339-349 | Two "Salt" rows merge into one total of 25, listed before "Sugar". |
| CartReport.RenderTotal | backend/api/views.py:351-356 | A line starts with the name and ends with a line break. |
| CartReport.RenderAll | backend/api/views.py:351-356 | One rendered line per total, in order. |
| CartReport.DownloadShoppingCart | backend/api/views.py:338-361 | The header, then exactly one line per distinct (name, unit) pair, in the grouped order. |
| CartReport.EmptyCartReport | backend/api/views.py:350-357 | An empty cart gives the header alone. |
| ShoppingList.FirstIndex | backend/api/services.py:14-25 | The position of the first row with a given name. |
| ShoppingList.FirstNamesKeys | backend/api/services.py:14-25 | The dictionary keys are the names of the rows, each once. |
| ShoppingList.FirstNamesOrder | backend/api/services.py:14-25 | Keys are in the order of each name's first row. |
| ShoppingList.FirstUnitIsFirst | backend/api/services.py:19-22 | The stored unit for a name is its first row's unit; an unseen name has none. |
| ShoppingList.SumByNameAbsent | backend/api/services.py:15-25 | A name with no rows sums to 0. |
| ShoppingList.SumByNameAgrees | backend/api/services.py:14-25 | For a name whose rows share one unit, the sum equals the grouped query's total. |
| ShoppingList.VersionsDiffer | backend/api/services.py:14-30 | One name with units "g" and "kg" gives one entry here and two in the grouped query. |
| ShoppingList.NameLine | backend/api/services.py:27-30 | A line is the name, " - ", then the amount in decimal with no space before the unit, then a line break. |
| ShoppingList.Lines | backend/api/services.py:26-30 | One line per key, with its sum and unit. |
| ShoppingList.DictsStepSeen | backend/api/services.py:15-18 | A repeated name adds the amount to its entry and keeps the loop invariant. |
| ShoppingList.DictsStepNew | backend/api/services.py:19-25 | A new name is appended with its unit and amount and keeps the loop invariant. |
| ShoppingList.DictsGiveLines | backend/api/services.py:26-30 | After the first loop the dictionaries give every line of the text. |
| ShoppingList.FoldRows | backend/api/services.py:8-25 | After the first loop, the insertion order lists every name once, in first-appearance order. `ingredient_amount` holds each name's sum and `measurement_unit` holds its first unit. |
| ShoppingList.AppendLines | backend/api/services.py:26-30 | The text is the header followed by the lines, in order. |
| ShoppingList.ShoppingListTxt | backend/api/services.py:5-31 | The method produces exactly the specified text `ListText`. |
| ShoppingList.ListTextContents | backend/api/services.py:5-31 | The text lists every cart name once, in first-appearance order, with the sum of all its rows and the unit of its first row. |
| ShoppingList.EmptyListText | backend/api/services.py:7 | An empty cart gives the header alone. |
| Membership.Without | backend/api/views.py:325-328 | A filtered delete leaves exactly the other rows. |
| Membership.Count | backend/api/views.py:141-151 | The deletion count is zero exactly when the row is absent. |
| Membership.Add | backend/api/views.py:276-304 | An unknown recipe is refused and an existing row gives `False`, both changing nothing. Otherwise the row is appended. |
| Membership.Delete | backend/api/views.py:306-330 | An unknown recipe is 404 and an absent row gives `False`, both changing nothing. Otherwise exactly that row is removed. |
| Membership.AddStatus | backend/api/views.py:234-241 | 201 exactly for an added row, 400 otherwise. |
| Membership.DeleteStatus | backend/api/views.py:244-251 | 204 for a deletion, 404 for an unknown recipe, 400 for an absent row. |
| Membership.Subscribe | backend/api/views.py:127-138 | 404 exactly for an unknown author. 201 appends the row exactly when the author exists, is not the viewer and is not yet followed. Otherwise nothing changes. |
| Membership.Unsubscribe | backend/api/views.py:141-151 | 404 exactly for an unknown author. 204 exactly when the row existed, and then only that row is removed. A 400 changes nothing. |
| Membership.AddKeepsValid | backend/recipes/models.py:154-158 | Adding keeps the favourites or cart rows unique and pointing at existing users and recipes. |
| Membership.AddTwice | backend/api/views.py:296-297 | A second identical add gives `False` and changes nothing. |
| Membership.DeleteUndoesAdd | backend/api/views.py:276-330 | Deleting a freshly added pair restores the table. |
| Membership.DeleteKeepsValid | backend/recipes/models.py:181-185 | Deleting keeps the invariant and removes exactly one row. |
| Membership.UniqueCount | backend/recipes/models.py:154-158 | Under the uniqueness constraint a present row occurs once. |
| Membership.SubscribeKeepsValid | backend/users/models.py:89-98 | Subscribing keeps subscriptions unique, existing and never self-directed. |
| Membership.UnsubscribeKeepsValid | backend/users/models.py:89-98 | Unsubscribing keeps the same invariant. |
| Membership.UnsubscribeUndoesSubscribe | backend/api/views.py:127-151 | Unsubscribing right after a successful subscribe answers 204 and restores the table. |
| Membership.Store.constructor | backend/recipes/models.py:154-185 | Empty tables satisfy the invariant. |
| Membership.Store.AddRecipe | backend/api/views.py:276-304 | The chosen table follows `Add`, the other tables are unchanged, and the invariant holds. |
| Membership.Store.DeleteRecipe | backend/api/views.py:306-330 | The chosen table follows `Delete`, the other tables are unchanged, and the invariant holds. |
| Membership.Store.ShoppingCart | backend/api/views.py:234-241 | POST on the cart: status and cart as `Add` gives them; nothing else changes. |
| Membership.Store.DeleteShoppingCart | backend/api/views.py:244-251 | DELETE on the cart: status and cart as `Delete` gives them; nothing else changes. |
| Membership.Store.Favorite | backend/api/views.py:257-264 | POST on favourites: status and rows as `Add` gives them; nothing else changes. |
| Membership.Store.DeleteFavorite | backend/api/views.py:267-274 | DELETE on favourites: status and rows as `Delete` gives them; nothing else changes. |
| Membership.Store.SubscribeTo | backend/api/views.py:127-138 | Subscriptions follow `Subscribe`; nothing else changes; the invariant holds. |
| Membership.Store.UnsubscribeFrom | backend/api/views.py:141-151 | Subscriptions follow `Unsubscribe`; nothing else changes; the invariant holds. |
| Membership.AddRecipeAsWritten | backend/api/views.py:293-304 | As written, the table never changes. The answer is 400 exactly for an unknown recipe and 500 for every existing one. |
| Membership.AddRecipeAsWrittenNeverAdds | backend/api/views.py:294-298 | For every existing recipe the code as written answers 500 and adds nothing. The intended transition adds the row with 201, or answers 400 for a pair already present. |
| Membership.AddRecipeAsWrittenAgrees | backend/api/views.py:293-294 | For an unknown recipe the code as written agrees with the intended transition. |
| NameValidators.UsernameCharsAt | backend/users/validators.py:3 | `[\w.@+-]+` holds exactly when every character is in the class. |
| NameValidators.MeWordFromAt | backend/users/validators.py:3 | `\bme\b` matches exactly where "me" sits between two word boundaries. |
| NameValidators.MeWordIsStandalone | backend/users/validators.py:3 | `\bme\b` matches exactly where a "me" has no word character on either side. |
| NameValidators.UsernameRule | backend/users/validators.py:3 | A username is valid exactly when it is non-empty, uses only `[\w.@+-]` and has no standalone "me". |
| NameValidators.UsernameMeRefused | backend/users/validators.py:3 | "me" and "a.me" are refused. |
| NameValidators.UsernameHomeAccepted | backend/users/validators.py:3 | "home" is accepted. |
| NameValidators.UsernameMellowAccepted | backend/users/validators.py:3 | "mellow" is accepted. |
| NameValidators.UsernameImpliesUnicodeUsername | backend/users/models.py:33-45 | Every value the pattern accepts also passes the model field's Unicode username validator. |
| NameValidators.FirstNameIsLastName | backend/users/validators.py:4-5 | Every valid first name is a valid last name. |
| NameValidators.FirstNameAt | backend/users/validators.py:4 | The first-name pattern holds exactly when every character is a Latin or Cyrillic letter or whitespace. |
| NameValidators.LastNameAt | backend/users/validators.py:5 | The last-name pattern additionally allows '-'. |
| NameValidators.YoRefused | backend/users/validators.py:4-5 | 'ё' and 'Ё' are outside both classes; a name holding either is refused. |
| NameValidators.HyphenatedName | backend/users/validators.py:4-5 | Two first names joined by '-' form a valid last name but not a valid first name. |
| NameValidators.NameExamples | backend/users/validators.py:4-5 | "" and "Анна" pass; "Пётр" fails both patterns. |
| Permissions.AdminOrReadOnly | backend/api/permissions.py:7-12 | Safe methods are allowed; any other method is allowed exactly for a superuser or staff account. |
| Permissions.AuthorOrReadOnlyView | backend/api/permissions.py:15-16 | The view check allows safe methods or any signed-in user. |
| Permissions.AuthorOrReadOnlyObject | backend/api/permissions.py:18-19 | Safe methods are allowed; any other method is allowed exactly for the object's author. |
| Permissions.AuthorOrReadOnlyRule | backend/api/permissions.py:15-19 | Access is read-for-all, write-for-author, and the object check implies the view check. |
| Permissions.AdminAndAuthorDiffer | backend/api/permissions.py:4-19 | An author without admin flags may change their object; an admin who is not the author may not. |
| Permissions.AnonymousReadsOnly | backend/api/permissions.py:4-19 | The anonymous user is allowed exactly the safe methods under both classes. |
| Schema.UsernameIdentifies | backend/users/models.py:33-45 | In a valid user table a username names at most one user. |
| Schema.TagStr | backend/recipes/models.py:24-25 | A tag prints as its name. |
| Schema.RecipeStr | backend/recipes/models.py:91-92 | A recipe prints as its name. |
| Schema.UserStr | backend/users/models.py:67-68 | A user prints as their username. |
| Schema.IngredientStr | backend/recipes/models.py:49-50 | The text is the name, ", " and the unit. |
| Schema.FavoriteStr | backend/recipes/models.py:160-161 | The text starts with the recipe name and ends with the username. |
| Schema.SubscriptionStr | backend/users/models.py:100-101 | The text is the user's username, " -> " and the author's username. |
| Schema.IngredientStrInjective | backend/recipes/models.py:49-50 | Names without a comma print apart, so the text gives back the name and the unit. |
| Schema.IngredientStrAmbiguous | backend/recipes/models.py:42-50 | Two different ingredients, one with a comma in its name, print alike. |
| Schema.SubscriptionStrInjective | backend/users/models.py:100-101 | Valid usernames have no spaces, so the text gives back both usernames. |
| Schema.RecipeIngredientStrAsWritten | backend/recipes/models.py:129-134 | As written, the text is the ingredient text followed by fixed literal text. |
| Schema.RecipeIngredientStrIgnoresAmount | backend/recipes/models.py:129-134 | As written, the text does not depend on the amount. |
| Schema.RecipeIngredientStrAmount | backend/recipes/models.py:129-134 | With the intended f-strings, equal texts mean equal amounts. |
| Filters.FilterIsSubsequence | backend/api/filters.py:19-27 | A filter keeps a subsequence of the queryset. |
| Filters.JoinedIsFilter | backend/recipes/models.py:154-158 | Under the uniqueness constraint the join keeps exactly the listed recipes, once each, in order. |
| Filters.FilterByList | backend/api/filters.py:19-27 | A false value or an anonymous user leaves the queryset unchanged. |
| Filters.FilterByListContents | backend/api/filters.py:19-27 | The signed-in user gets, in queryset order and without duplicates, exactly the queryset's recipes they listed. |
| Filters.DoubledRowDoubles | backend/api/filters.py:19-22 | Without the constraint a doubled row doubles the recipe. |
| Filters.IngredientFilter | backend/api/filters.py:30-38 | The value is stripped first. A NUL in it is a 400. A missing value, or one that strips to nothing, changes nothing. Otherwise the filter keeps exactly the ingredients whose name starts with the stripped value under case folding. |
| Filters.BlankQueryKeepsAll | backend/api/filters.py:33 | A query of a single space keeps every ingredient. |
| Filters.PaddedQuerySame | backend/api/filters.py:33 | A trailing space on the query changes nothing. |
| Filters.NullQueryRefused | backend/api/filters.py:33 | A query holding NUL is a 400. |
| Filters.ExactPrefixMatches | backend/api/filters.py:33 | An ingredient whose name starts with the stripped query is always kept. |
| Filters.LongerQueryNarrows | backend/api/filters.py:33 | A query whose stripped value extends another's keeps no more ingredients. |
| TagImport.ImportRows | backend/recipes/management/commands/add_tags.py:13-27 | At most one message per row. |
| TagImport.ImportExtends | backend/recipes/management/commands/add_tags.py:24 | Existing tags are kept unchanged and new ones are appended with consecutive keys. |
| TagImport.ImportAddsFresh | backend/recipes/management/commands/add_tags.py:17-24 | A tag is appended only if no earlier tag has its name or slug. |
| TagImport.ImportKeepsValid | backend/recipes/models.py:16-17 | Unique names, slugs and keys stay unique. |
| TagImport.ImportLog | backend/recipes/management/commands/add_tags.py:16-27 | One message per row read, naming its tag. The run completes exactly when every row has two fields and otherwise stops at the first short row. |
| TagImport.ImportedRowsClash | backend/recipes/management/commands/add_tags.py:17-24 | After the import every row read clashes with the table. |
| TagImport.ClashingRowsChangeNothing | backend/recipes/management/commands/add_tags.py:17-23 | Rows that all clash leave the table and the key counter alone. |
| TagImport.ImportIdempotent | backend/recipes/management/commands/add_tags.py:13-27 | Running the command again on the same file adds nothing. |
| TagImport.DuplicateRowSkipped | backend/recipes/management/commands/add_tags.py:17-27 | A tag listed twice in the file is inserted once and skipped once. |
| TagImport.TagTable.constructor | backend/recipes/models.py:16-17 | A table with unique names, slugs and keys is valid. |
| TagImport.TagTable.Create | backend/recipes/management/commands/add_tags.py:24 | Appends the tag with the next key and advances the key counter. |
| TagImport.TagTable.Exists | backend/recipes/management/commands/add_tags.py:17-19 | The lookup reports a clash exactly when some tag has the name or the slug. |
| TagImport.TagTable.Handle | backend/recipes/management/commands/add_tags.py:13-27 | The loop leaves the table, key counter, log and completion flag that `ImportRows` specifies, and keeps the table valid. |
| Serializers.ElementsSize | backend/api/serializers.py:250-261 | The `len(set(xs)) != len(xs)` test detects a repeated element exactly. |
| Serializers.CharField | backend/api/serializers.py:389-390 | A value is accepted exactly when it is present, non-blank after stripping and free of NUL; it is returned stripped. |
| Serializers.UsernameField | backend/api/serializers.py:29-39 | An accepted username is the stripped value. |
| Serializers.NameField | backend/users/models.py:46-56 | An accepted name is the stripped value. |
| Serializers.UsernameFieldAccepts | backend/api/serializers.py:29-39 | A registration username is accepted exactly when, stripped, it is 5 to 150 characters, matches the pattern and is not taken. |
| Serializers.BlankNameRefused | backend/users/models.py:46-56 | A blank name is refused as blank, although the pattern accepts it. |
| Serializers.NameFieldAccepts | backend/users/models.py:46-56 | A name is accepted exactly when, stripped, it is 1 to 150 characters and matches its pattern. |
| Serializers.SetPassword | backend/api/serializers.py:386-407 | An accepted change returns both stripped values. |
| Serializers.SetPasswordAccepts | backend/api/serializers.py:386-407 | Accepted exactly when both values are well-formed, the current one checks out, and the two differ. |
| Serializers.SetPasswordRefusals | backend/api/serializers.py:396-407 | A failing check gives the wrong-password error alone; an unchanged password gives the same-password error alone. |
| Serializers.PaddedPasswordIsSame | backend/api/serializers.py:396-407 | The current password plus a trailing space counts as the same password. |
| Serializers.ElementErrors | backend/api/serializers.py:153-171 | An element has no errors exactly when it names a stored ingredient with an amount in bounds; each error names its position. |
| Serializers.ItemErrors | backend/api/serializers.py:153-171 | The list's errors are empty exactly when every element passes; unknown ingredients and low amounts are reported at their positions. |
| Serializers.FirstUnknown | backend/api/serializers.py:220-222 | The related field stops at a tag key with no stored row, when there is one. |
| Serializers.CheckRecipe | backend/api/serializers.py:212-261 | An accepted body is returned unchanged. |
| Serializers.CheckRecipeAccepts | backend/api/serializers.py:212-261 | Over the ingredients, tags and cooking time, a body is accepted exactly when it has non-empty lists of distinct stored ingredients and tags, amounts and a cooking time in bounds, and leaves out the cooking time only for PATCH. |
| Serializers.EmptyListsRefused | backend/api/serializers.py:243-248 | A body without ingredients or without tags is refused. |
| Serializers.RepeatedIngredientReported | backend/api/serializers.py:250-256 | Well-formed items naming one ingredient twice are reported as repeated. |
| Serializers.RepeatedTagReported | backend/api/serializers.py:258-261 | Stored tags named twice are reported as repeated. |
| Serializers.RecipeRows | backend/api/serializers.py:288-298 | One RecipeIngredient row per element, carrying its ingredient and amount. |
| Serializers.ValidatedRowsValid | backend/recipes/models.py:104-125 | A body the corrected check accepts gives rows that meet the model's amount and uniqueness constraints, and a cooking time in bounds. |
| Serializers.AsWrittenAdmitsAboveMax | backend/api/serializers.py:160-167 | As written, an amount and a cooking time one above the maximums pass, and the stored row breaks the model's constraint. |
| Serializers.ValidateSubscription | backend/api/serializers.py:101-114 | The serializer accepts exactly a pair of different users not yet subscribed; subscribing to oneself is its own error. |
| Serializers.SubscribeFollowsSerializer | backend/api/views.py:127-138 | For an existing author the view creates a row exactly when the serializer accepts, and answers 400 otherwise. |
| Serializers.IsSubscribed | backend/api/serializers.py:72-81 | True exactly for a signed-in viewer, other than `obj`, who follows `obj`. |
| Serializers.IsSubscribedTracksViews | backend/api/serializers.py:72-81 | After a subscribe the author shows as followed; after an unsubscribe, no longer. |
| Serializers.IsSubscribedNeverSelf | backend/api/serializers.py:72-81 | Nobody follows themself, and the anonymous user follows nobody. |
| Serializers.GetRecipes | backend/api/serializers.py:326-337 | The result is a prefix of the author's recipes; a missing request is an error. |
| Serializers.GetRecipesLimit | backend/api/serializers.py:326-337 | `recipes_limit=n`, with `n` of at most 4300 digits, yields the first `n` recipes, or all recipes when there are fewer. |
| Serializers.GetRecipesLimitTooLong | backend/api/serializers.py:329-333 | A limit of more than 4300 digits leaves the recipes whole. |
| Serializers.GetRecipesSeparator | backend/api/serializers.py:329-333 | The limit "\x1c5" is unreadable and leaves the recipes whole. |
| Serializers.GetRecipesUnreadable | backend/api/serializers.py:330-333 | A missing or unreadable limit leaves the recipes whole. |
| Serializers.GetRecipesNegative | backend/api/serializers.py:334-336 | A negative limit raises instead of falling back. |

## Left out

- HTTP, the ORM and the database are not modelled as code. Requests come in as parsed values, tables are sequences of rows, and query results are stated by what they must contain.
- The user and recipe listing, retrieval, creation and update views beyond their validation are left out. They are Django REST framework defaults with no logic of their own.
- Pagination, the router and `get_permissions` in `RecipeViewSet` are left out. `get_permissions` only picks one of the modelled permission classes per action.
- Images and avatars (base64 image fields, file storage), the `text` field and the email field's validation are left out. They are library behaviour with no rule of this code.
- Password hashing is an input: `check_password` is the parameter `check` of `Serializers.SetPassword`.
- `UserViewSet.set_password` in backend/api/views.py uses djoser's `SetPasswordSerializer`, not the class of that name in backend/api/serializers.py. The model follows the latter, because the former is not part of this repository.
- `FavoriteSerializer` and `ShoppingCartSerializer` are not modelled as serializers. No view uses them; their uniqueness rule is the one `Membership.Add` enforces.
- The author and tags filters of `RecipeFilter` are left out. They are plain field lookups without logic of their own.
- The case-insensitive comparison of `istartswith` is a parameter `fold`. The database collation is not part of this model.
- CartReport.GroupCorrect: "name order" is code-point order (`TextOrder.Less`), which is what `order_by` gives under a binary collation. Under a locale collation the database orders names differently, for example "apple" before "Banana". The collation is database configuration outside this repository. `CartReport.DownloadShoppingCart`'s line order rests on the same assumption.
- The recipe `name` field (required, non-blank, length-bounded by the model) is not checked by the modelled recipe validation. `Serializers.CheckRecipe` covers the ingredients, tags and cooking time only.
- Django REST framework's refusal of surrogate code points in every `CharField` is not modelled. A Dafny `char` cannot hold a surrogate.
- ShortLink.Decode: Python's 4300-digit limit on converting between `int` and decimal text is not modelled here. A code whose value has more than 4300 decimal digits makes the id lookup's `int()` raise in the source, which answers 500; the model looks the value up. `PyText.Int` does model the limit.
- Python's `\w` is a parameter constrained by `NameValidators.WordSound`. The full Unicode word-character table is not part of this model.
- `PyText.Int` reads only ASCII digits. Python's `int()` also accepts other Unicode decimal digits.
- Serializers.GetRecipesNegative: this is stated for any text `int()` reads as negative. The one such text worked out concretely is "-1" (`PyText.IntMinusOne`).
- JSON type errors (a string where a list is expected, and so on) are left out. Element ids are natural numbers from the start.
- Serializers.UsernameField: only what an accepted value is. The full acceptance condition for registration is `Serializers.UsernameFieldAccepts`; the exact order of error messages is kept but no lemma is stated about it.
- The values of `MIN_`/`MAX_INGEDIENT_AMOUNT` and `MIN_`/`MAX_COOKING_TIME` are not in this repository's files. They are the parameter `Schema.Constants`, with `min <= max`.
- The range of `PositiveSmallIntegerField` in the database is not modelled. Amounts and times are unbounded integers checked only against the constants.
- `ShoppingCart.__str__` uses `!r` quoting and is left out. The other `__str__` texts are modelled.
- `get_link` also attaches scheme and host with `build_absolute_uri`. The model returns the path.
- The response headers and content type of both shopping-list downloads are left out. Only the body text is modelled.
- Transactions, concurrency and the admin site are left out.
- CartReport.Group: this breaks ties between equal names by unit. The query orders by name only and leaves the order of equal names to the database, so `CartReport.GroupCorrect` promises name order and no more.
- The CSV reading of `add_tags` is left out: the file is given as its parsed rows. Console styling is left out: messages are a log of events.
- The other management commands, which load fixtures, are left out.
- `Resolve` only takes codes the route `s/<str:encoded_id>/` can dispatch (non-empty, no '/'). Django's URL resolver refuses the others before the view runs.

## Findings

| source | as written | input that shows it | evidently intended | confidence | as-written member | corrected member |
|---|---|---|---|---|---|---|
| backend/api/views.py:293-298 | `recipe` holds the queryset `Recipe.objects.filter(pk=pk)`. The first line to raise is :296: `model.objects.filter(recipe=recipe, ...)` compares the foreign key with a queryset not sliced to one row, which raises ValueError. The `create` at :298 would raise too | POST `favorite` or `shopping_cart` for any existing recipe, listed or not | create the row and answer 201, as the docstring says | not executed | Membership.AddRecipeAsWrittenNeverAdds | Membership.Store.AddRecipe |
| backend/recipes/models.py:129-134 | only the first of three adjacent string literals is an f-string, so the amount and unit print as the literal text `{self.amount}` and `{self.ingredient.measurement_unit}` | any two rows of one ingredient with amounts 1 and 2 print alike | "ingredient = amount unit" | not executed | Schema.RecipeIngredientStrIgnoresAmount | Schema.RecipeIngredientStrAmount |
| backend/api/serializers.py:160-167 | the explicitly declared `amount` and `cooking_time` fields carry only `MinValueValidator`, so the model's maximum validators are never applied | an amount of `MAX_INGEDIENT_AMOUNT + 1` | refuse values above the maximums, as backend/recipes/models.py:71-83 and 104-116 require | not executed | Serializers.AsWrittenAdmitsAboveMax | Serializers.ValidatedRowsValid |
