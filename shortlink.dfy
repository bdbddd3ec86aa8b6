/** Short links to recipes (backend/api/views.py, `get_link` and
    `ShortLinkView.get`). A recipe id is written with Django's
    `baseconv.base64` converter: a positional base-64 numeral system over
    `BASE64_ALPHABET` whose digit 0 is '0' and whose sign character is '$'
    (this is not the binary-to-text Base64 encoding). */
module ShortLink {

  import opened Common
  import opened Numerals

  /** Django's `BASE62_ALPHABET` (digits, upper case, lower case) followed by
      "-_" gives `BASE64_ALPHABET`,
      "0123456789ABCDEFGHIJKLMNOPQRSTUVWXYZabcdefghijklmnopqrstuvwxyz-_". */
  const Base64Alphabet := "0123456789" + "ABCDEFGHIJKLMNOPQRSTUVWXYZ" + "abcdefghijklmnopqrstuvwxyz" + "-_"

  /** The sign character of `baseconv.base64`; it is not a digit. */
  const Base64Sign := '$'

  /** The character code of base-64 digit `i`. */
  function DigitCode(i: nat): int
    requires i < 64
  {
    if i < 10 then 48 + i
    else if i < 36 then 65 + (i - 10)
    else if i < 62 then 97 + (i - 36)
    else if i == 62 then 45
    else 95
  }

  lemma Base64Codes()
    ensures |Base64Alphabet| == 64
    ensures forall i :: 0 <= i < 64 ==> Base64Alphabet[i] as int == DigitCode(i)
  {
    var d, u, w := "0123456789", "ABCDEFGHIJKLMNOPQRSTUVWXYZ", "abcdefghijklmnopqrstuvwxyz";
    assert forall i :: 0 <= i < 10 ==> d[i] == (48 + i) as char;
    assert forall i :: 0 <= i < 26 ==> u[i] == (65 + i) as char;
    assert forall i :: 0 <= i < 26 ==> w[i] == (97 + i) as char;
  }

  lemma Base64IsAlphabet()
    ensures IsAlphabet(Base64Alphabet) && |Base64Alphabet| == 64
    ensures Base64Sign !in Base64Alphabet && '/' !in Base64Alphabet
    ensures Base64Alphabet[0] == '0' && Base64Alphabet[1] == '1' && Base64Alphabet[63] == '_'
  {
    Base64Codes();
  }

  /** Why `BaseConverter.convert` can raise: an empty input makes `str(number)[0]`
      fail, and a character outside `from_digits` makes `from_digits.index` fail. */
  datatype ConvertError = IndexError | ValueError

  /** `BaseConverter.convert(number, from_digits, to_digits, sign)`: drop a
      leading sign (remembering it), read the rest in `fromDigits`, write the
      value in `toDigits`. */
  function Convert(number: string, fromDigits: string, toDigits: string, sign: char)
    : (r: Result<(bool, string), ConvertError>)
    requires IsAlphabet(fromDigits) && IsAlphabet(toDigits)
    ensures number == [] <==> r == Err(IndexError)
    ensures r.Ok? ==> AllDigits(r.value.1, toDigits) && Canonical(r.value.1, toDigits)
    ensures r.Ok? ==> r.value.0 == (number[0] == sign)
  {
    if number == [] then Err(IndexError)
    else
      var neg := number[0] == sign;
      var body := if neg then number[1..] else number;
      if !AllDigits(body, fromDigits) then Err(ValueError)
      else
        ToDigitsCanonical(FromDigits(body, fromDigits), toDigits);
        Ok((neg, ToDigits(FromDigits(body, fromDigits), toDigits)))
  }

  /** `baseconv.base64.encode(str(id))` for a recipe id: `str(id)` is read as a
      decimal numeral and written in base 64. */
  function Encode(id: nat): (code: string)
  {
    DecimalIsAlphabet();
    Base64IsAlphabet();
    var r := Convert(Decimal(id), DecimalDigits, Base64Alphabet, '-');
    if r.Ok? then r.value.1 else []
  }

  /** `baseconv.base64.decode(code)`: read `code` in base 64 (a leading '$'
      marks a negative number), write it in decimal and apply `int`. */
  function Decode(code: string): (r: Result<int, ConvertError>)
  {
    DecimalIsAlphabet();
    Base64IsAlphabet();
    match Convert(code, Base64Alphabet, DecimalDigits, Base64Sign)
    case Err(e) => Err(e)
    case Ok((neg, value)) =>
      if neg then Ok(0 - DecimalValue(value)) else Ok(DecimalValue(value))
  }

  /** Encoding writes the id in base 64: a non-empty canonical numeral over the
      alphabet, the zero digit only for id 0. */
  lemma EncodeIsBase64(id: nat)
    ensures IsAlphabet(Base64Alphabet) && Encode(id) == ToDigits(id, Base64Alphabet)
    ensures |Encode(id)| >= 1 && AllDigits(Encode(id), Base64Alphabet)
    ensures Canonical(Encode(id), Base64Alphabet)
  {
    DecimalIsAlphabet();
    Base64IsAlphabet();
    var dec := Decimal(id);
    DecimalRoundTrip(id);
    assert dec[0] != '-';
    ToDigitsCanonical(id, Base64Alphabet);
  }

  /** The comments in `get_link` show recipe 1 getting the code "1". */
  lemma EncodeExamples()
    ensures Encode(0) == "0" && Encode(1) == "1" && Encode(63) == "_" && Encode(64) == "10"
  {
    Base64IsAlphabet();
    EncodeIsBase64(0);
    EncodeIsBase64(1);
    EncodeIsBase64(63);
    EncodeIsBase64(64);
    assert ToDigits(64, Base64Alphabet) == ToDigits(1, Base64Alphabet) + [Base64Alphabet[0]];
  }

  /** Decoding an encoded id gives the id back. */
  lemma DecodeEncode(id: nat)
    ensures Decode(Encode(id)) == Ok(id)
  {
    Base64IsAlphabet();
    DecimalIsAlphabet();
    EncodeIsBase64(id);
    var code := Encode(id);
    assert code[0] != Base64Sign;
    FromToDigits(id, Base64Alphabet);
    DecimalRoundTrip(id);
  }

  /** A non-empty code over the alphabet decodes to a non-negative number, and
      encoding that number gives the code back exactly when the code has no
      leading '0': "01" and "1" name the same recipe. */
  lemma DecodeAlphabetCode(code: string)
    requires |code| >= 1 && AllDigits(code, Base64Alphabet)
    ensures Decode(code).Ok? && Decode(code).value >= 0
    ensures Encode(Decode(code).value as nat) == code <==> Canonical(code, Base64Alphabet)
  {
    Base64IsAlphabet();
    DecimalIsAlphabet();
    assert code[0] != Base64Sign;
    var x := FromDigits(code, Base64Alphabet);
    DecimalRoundTrip(x);
    assert Decode(code) == Ok(x);
    EncodeIsBase64(x);
    ToFromDigits(code, Base64Alphabet);
  }

  /** A code over the alphabet decodes to the number it is the numeral of. */
  lemma DecodeValue(code: string)
    requires |code| >= 1 && AllDigits(code, Base64Alphabet)
    ensures IsAlphabet(Base64Alphabet) && Decode(code) == Ok(FromDigits(code, Base64Alphabet))
  {
    Base64IsAlphabet();
    DecimalIsAlphabet();
    assert code[0] != Base64Sign;
    DecimalRoundTrip(FromDigits(code, Base64Alphabet));
  }

  /** A code with a character that is neither a digit nor (in front) the sign
      makes the converter raise. */
  lemma DecodeRejectsForeign(code: string, i: nat)
    requires i < |code| && code[i] !in Base64Alphabet && (i == 0 ==> code[0] != Base64Sign)
    ensures Decode(code) == Err(ValueError)
  {
    Base64IsAlphabet();
    if code[0] == Base64Sign {
      assert code[1..][i - 1] == code[i];
    }
  }

  /** What `ShortLinkView.get` answers. */
  datatype Resolution =
    | Redirect(location: string)   // 302 to the recipe page
    | InvalidCharacters            // 400: a character outside the alphabet
    | RecipeNotFound               // 404 from get_object_or_404
    | ConverterFailed              // 500: the converter raised

  function ResolutionStatus(r: Resolution): (s: Status)
    ensures r.Redirect? <==> s == Found302
  {
    match r
    case Redirect(_) => Found302
    case InvalidCharacters => BadRequest400
    case RecipeNotFound => NotFound404
    case ConverterFailed => ServerError500
  }

  /** The canonical page of a recipe, `/recipes/<id>`. */
  function RecipePath(id: nat): (p: string)
    ensures |p| == 9 + |Decimal(id)| && p[..9] == "/recipes/" && p[9..] == Decimal(id)
  {
    "/recipes/" + Decimal(id)
  }

  /** The path of the short link, `reverse("shortlink", ...)`: `/s/<code>/`. */
  function ShortLinkPath(code: string): (p: string)
    ensures |p| == |code| + 4 && p[..3] == "/s/" && p[3..|p| - 1] == code && p[|p| - 1] == '/'
  {
    "/s/" + code + "/"
  }

  /** `get_link`: 404 for an unknown recipe, else the short-link path.
      Attaching the scheme and host (`build_absolute_uri`) is not modelled. */
  function GetLink(id: nat, recipes: set<nat>): (r: Result<string, Status>)
    ensures id !in recipes <==> r == Err(NotFound404)
    ensures r.Ok? ==> r.value == ShortLinkPath(Encode(id))
  {
    if id in recipes then Ok(ShortLinkPath(Encode(id))) else Err(NotFound404)
  }

  /** `ShortLinkView.get(encoded_id)`. The route `s/<str:encoded_id>/` only
      dispatches non-empty codes without '/'. The alphabet check comes first;
      only a code that passes it is decoded and looked up. */
  function Resolve(code: string, recipes: set<nat>): (r: Resolution)
    requires |code| >= 1 && '/' !in code
  {
    if !AllDigits(code, Base64Alphabet) then InvalidCharacters
    else
      match Decode(code)
      case Err(_) => ConverterFailed
      case Ok(id) => if id >= 0 && id as nat in recipes then Redirect(RecipePath(id as nat)) else RecipeNotFound
  }

  /** A code with a foreign character is refused whatever the recipe table
      holds: the answer does not depend on the lookup. */
  lemma ResolveRejectsForeign(code: string, recipes: set<nat>, i: nat)
    requires |code| >= 1 && '/' !in code
    requires i < |code| && code[i] !in Base64Alphabet
    ensures Resolve(code, recipes) == InvalidCharacters
    ensures forall other: set<nat> :: Resolve(code, other) == Resolve(code, recipes)
  {
  }

  /** A code over the alphabet never makes the converter fail; it redirects to
      the recipe it decodes to when that recipe exists, and is not found
      otherwise. */
  lemma ResolveAlphabetCode(code: string, recipes: set<nat>)
    requires |code| >= 1 && AllDigits(code, Base64Alphabet)
    ensures '/' !in code
    ensures Decode(code).Ok? && Decode(code).value >= 0
    ensures var id := Decode(code).value as nat;
            Resolve(code, recipes) == if id in recipes then Redirect(RecipePath(id)) else RecipeNotFound
  {
    Base64IsAlphabet();
    DecodeAlphabetCode(code);
  }

  /** Following the link `get_link` returns leads to that recipe's page. */
  lemma ShortLinkRoundTrip(id: nat, recipes: set<nat>)
    requires id in recipes
    ensures GetLink(id, recipes).Ok?
    ensures var p := GetLink(id, recipes).value;
            var code := p[3..|p| - 1];
            |code| >= 1 && '/' !in code && Resolve(code, recipes) == Redirect(RecipePath(id))
  {
    EncodeIsBase64(id);
    var code := Encode(id);
    ResolveAlphabetCode(code, recipes);
    DecodeEncode(id);
  }

  /** The digits '0' and '1' have the values 0 and 1. */
  lemma Base64ZeroOne()
    ensures IsAlphabet(Base64Alphabet) && '0' in Base64Alphabet && '1' in Base64Alphabet
    ensures IndexOf(Base64Alphabet, '0') == 0 && IndexOf(Base64Alphabet, '1') == 1
  {
    Base64IsAlphabet();
    assert Base64Alphabet[1..][0] == '1';
  }

  /** "0" and "1" are the numerals of 0 and 1. */
  lemma Base64SingleDigits()
    ensures IsAlphabet(Base64Alphabet) && AllDigits("0", Base64Alphabet) && AllDigits("1", Base64Alphabet)
    ensures FromDigits("0", Base64Alphabet) == 0 && FromDigits("1", Base64Alphabet) == 1
  {
    Base64ZeroOne();
    assert "0"[0] == '0' && "1"[0] == '1';
    assert "0"[..0] == [] && "1"[..0] == [];
  }

  /** "01" and "1" are both numerals of 1. */
  lemma LeadingZeroValue()
    ensures IsAlphabet(Base64Alphabet) && AllDigits("01", Base64Alphabet) && AllDigits("1", Base64Alphabet)
    ensures FromDigits("01", Base64Alphabet) == 1 && FromDigits("1", Base64Alphabet) == 1
  {
    Base64ZeroOne();
    Base64SingleDigits();
    FromDigitsSnoc("0", '1', Base64Alphabet);
    assert "0" + ['1'] == "01";
  }

  /** "01" and "1" both decode to 1. */
  lemma LeadingZeroDecodes()
    ensures AllDigits("01", Base64Alphabet) && AllDigits("1", Base64Alphabet)
    ensures Decode("01") == Ok(1) && Decode("1") == Ok(1)
  {
    LeadingZeroValue();
    DecodeValue("01");
    DecodeValue("1");
  }

  /** Codes with leading zeros resolve like their canonical form: "01" and "1"
      both lead to recipe 1. */
  lemma LeadingZeroAlias(recipes: set<nat>)
    ensures Resolve("01", recipes) == Resolve("1", recipes)
    ensures 1 in recipes ==> Resolve("01", recipes) == Redirect(RecipePath(1))
  {
    LeadingZeroDecodes();
    ResolveAlphabetCode("01", recipes);
    ResolveAlphabetCode("1", recipes);
  }
}
