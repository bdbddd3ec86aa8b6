/** The three patterns of backend/users/validators.py, which `RegexValidator`
    applies with `re.search`, written as recursive predicates over the
    characters of the value.

    `\w` (Unicode letters, digits and '_') is the parameter `w`; lemmas that
    need concrete characters assume only `WordSound(w)`, which holds for
    Python's `\w`. `\s` is `PyText.IsSpace`. */
module NameValidators {

  import opened PyText

  /** What every reading of `\w` must agree with: ASCII letters, digits and
      '_' are word characters; '.', '@', '+', '-', NUL and whitespace are
      not. */
  ghost predicate WordSound(w: char -> bool) {
    && (forall c :: 'a' <= c <= 'z' ==> w(c))
    && (forall c :: 'A' <= c <= 'Z' ==> w(c))
    && (forall c :: '0' <= c <= '9' ==> w(c))
    && w('_') && !w('.') && !w('@') && !w('+') && !w('-') && !w('\0')
    && (forall c :: IsSpace(c) ==> !w(c))
  }

  /** The character class `[\w.@+-]`. */
  predicate UsernameChar(c: char, w: char -> bool) {
    w(c) || c == '.' || c == '@' || c == '+' || c == '-'
  }

  /** `[\w.@+-]+` up to `\Z`: every character is in the class. */
  predicate UsernameChars(s: string, w: char -> bool) {
    s == [] || (UsernameChar(s[0], w) && UsernameChars(s[1..], w))
  }

  /** Whether position `i` (between `s[i-1]` and `s[i]`) is a `\b` word boundary:
      exactly one of the two sides is a word character. */
  predicate Boundary(s: string, i: nat, w: char -> bool)
    requires i <= |s|
  {
    (i > 0 && w(s[i - 1])) != (i < |s| && w(s[i]))
  }

  /** `\bme\b` matches at some position `i` or later. */
  predicate MeWordFrom(s: string, i: nat, w: char -> bool)
    requires i <= |s|
    decreases |s| - i
  {
    if i + 2 > |s| then false
    else (Boundary(s, i, w) && s[i] == 'm' && s[i + 1] == 'e' && Boundary(s, i + 2, w))
         || MeWordFrom(s, i + 1, w)
  }

  /** `USERNAME_PATTERN`, `^(?!.*\bme\b)[\w.@+-]+\Z`: no whole word "me" and
      at least one character, all from the class. The lookahead's `.*` stops at
      a line break, but a value with a line break fails the class anyway. */
  predicate UsernameValid(s: string, w: char -> bool) {
    !MeWordFrom(s, 0, w) && |s| >= 1 && UsernameChars(s, w)
  }

  /** The class `[a-zA-Zа-яА-Я\s]`; а-я is U+0430..U+044F and А-Я is
      U+0410..U+042F. */
  predicate NameChar(c: char) {
    ('a' <= c <= 'z') || ('A' <= c <= 'Z') || ('а' <= c <= 'я') || ('А' <= c <= 'Я') || IsSpace(c)
  }

  /** `FIRST_NAME_PATTERN`, `^[a-zA-Zа-яА-Я\s]*$`. The `$` may also match just
      before a final line break, but a line break is in `\s` already. */
  predicate FirstNameValid(s: string) {
    s == [] || (NameChar(s[0]) && FirstNameValid(s[1..]))
  }

  /** `LAST_NAME_PATTERN`, the same class with '-' added. */
  predicate LastNameValid(s: string) {
    s == [] || ((NameChar(s[0]) || s[0] == '-') && LastNameValid(s[1..]))
  }

  // Properties.

  lemma {:induction false} UsernameCharsAt(s: string, w: char -> bool)
    ensures UsernameChars(s, w) <==> forall i :: 0 <= i < |s| ==> UsernameChar(s[i], w)
  {
    if s != [] {
      UsernameCharsAt(s[1..], w);
      assert forall i :: 1 <= i < |s| ==> s[1..][i - 1] == s[i];
    }
  }

  lemma {:induction false} MeWordFromAt(s: string, i: nat, w: char -> bool)
    requires i <= |s|
    ensures MeWordFrom(s, i, w) <==>
            exists k :: i <= k && k + 2 <= |s| && Boundary(s, k, w) && s[k] == 'm' && s[k + 1] == 'e' && Boundary(s, k + 2, w)
    decreases |s| - i
  {
    if i + 2 <= |s| {
      MeWordFromAt(s, i + 1, w);
    }
  }

  /** A "me" at position `k` with no word character just before or just
      after it. */
  predicate StandaloneMe(s: string, k: nat, w: char -> bool)
    requires k + 2 <= |s|
  {
    && s[k] == 'm' && s[k + 1] == 'e'
    && (k == 0 || !w(s[k - 1])) && (k + 2 == |s| || !w(s[k + 2]))
  }

  /** Since 'm' and 'e' are word characters in any reading of `\w`,
      `\bme\b` matches exactly where a standalone "me" stands. */
  lemma MeWordIsStandalone(s: string, w: char -> bool)
    requires w('m') && w('e')
    ensures MeWordFrom(s, 0, w) <==> exists k: nat :: k + 2 <= |s| && StandaloneMe(s, k, w)
  {
    MeWordFromAt(s, 0, w);
    if MeWordFrom(s, 0, w) {
      var k :| 0 <= k && k + 2 <= |s| && Boundary(s, k, w) && s[k] == 'm' && s[k + 1] == 'e' && Boundary(s, k + 2, w);
      assert StandaloneMe(s, k, w);
    }
    if exists k: nat :: k + 2 <= |s| && StandaloneMe(s, k, w) {
      var k: nat :| k + 2 <= |s| && StandaloneMe(s, k, w);
      assert Boundary(s, k, w) && Boundary(s, k + 2, w);
    }
  }

  /** The username rule in one statement: at least one character, all from
      `[\w.@+-]`, and no standalone "me". */
  lemma UsernameRule(s: string, w: char -> bool)
    requires w('m') && w('e')
    ensures UsernameValid(s, w) <==>
      && |s| >= 1
      && (forall i :: 0 <= i < |s| ==> UsernameChar(s[i], w))
      && !(exists k: nat :: k + 2 <= |s| && StandaloneMe(s, k, w))
  {
    UsernameCharsAt(s, w);
    MeWordIsStandalone(s, w);
  }

  /** "me" and "a.me" are refused: the "me" stands alone. */
  lemma UsernameMeRefused(w: char -> bool)
    requires WordSound(w)
    ensures !UsernameValid("me", w) && !UsernameValid("a.me", w)
  {
    assert w('m') && w('e');
    assert Boundary("me", 0, w) && Boundary("me", 2, w);
    assert Boundary("a.me", 2, w) && Boundary("a.me", 4, w);
    assert MeWordFrom("a.me", 2, w);
    assert MeWordFrom("a.me", 1, w);
  }

  /** "home" passes: a word character precedes its "me". */
  lemma UsernameHomeAccepted(w: char -> bool)
    requires WordSound(w)
    ensures UsernameValid("home", w)
  {
    var s := "home";
    assert w('h') && w('o') && w('m') && w('e');
    assert !Boundary(s, 2, w);
    assert !MeWordFrom(s, 2, w);
    assert !MeWordFrom(s, 1, w);
    assert !MeWordFrom(s, 0, w);
    UsernameCharsAt(s, w);
  }

  /** "mellow" passes: a word character follows its "me". */
  lemma UsernameMellowAccepted(w: char -> bool)
    requires WordSound(w)
    ensures UsernameValid("mellow", w)
  {
    var s := "mellow";
    assert w('m') && w('e') && w('l') && w('o') && w('w');
    assert !Boundary(s, 2, w);
    assert !MeWordFrom(s, 4, w);
    assert !MeWordFrom(s, 3, w);
    assert !MeWordFrom(s, 2, w);
    assert !MeWordFrom(s, 1, w);
    assert !MeWordFrom(s, 0, w);
    UsernameCharsAt(s, w);
  }

  /** Every value `USERNAME_PATTERN` accepts also passes Django's
      `UnicodeUsernameValidator` (`^[\w.@+-]+\Z`) on the model field. */
  lemma UsernameImpliesUnicodeUsername(s: string, w: char -> bool)
    requires UsernameValid(s, w)
    ensures |s| >= 1 && UsernameChars(s, w)
  {
  }

  /** The last-name class contains the first-name class. */
  lemma {:induction false} FirstNameIsLastName(s: string)
    requires FirstNameValid(s)
    ensures LastNameValid(s)
  {
    if s != [] {
      FirstNameIsLastName(s[1..]);
    }
  }

  lemma {:induction false} FirstNameAt(s: string)
    ensures FirstNameValid(s) <==> forall i :: 0 <= i < |s| ==> NameChar(s[i])
  {
    if s != [] {
      FirstNameAt(s[1..]);
      assert forall i :: 1 <= i < |s| ==> s[1..][i - 1] == s[i];
    }
  }

  lemma {:induction false} LastNameAt(s: string)
    ensures LastNameValid(s) <==> forall i :: 0 <= i < |s| ==> NameChar(s[i]) || s[i] == '-'
  {
    if s != [] {
      LastNameAt(s[1..]);
      assert forall i :: 1 <= i < |s| ==> s[1..][i - 1] == s[i];
    }
  }

  /** 'ё' (U+0451) and 'Ё' (U+0401) lie outside а-я and А-Я: a name holding
      either is refused by both patterns. */
  lemma YoRefused(s: string, i: nat)
    requires i < |s| && (s[i] == 'ё' || s[i] == 'Ё')
    ensures !FirstNameValid(s) && !LastNameValid(s)
  {
    FirstNameAt(s);
    LastNameAt(s);
  }

  /** Two first names joined by a hyphen make a valid last name but not a
      valid first name. */
  lemma HyphenatedName(a: string, b: string)
    requires FirstNameValid(a) && FirstNameValid(b)
    ensures LastNameValid(a + "-" + b)
    ensures !FirstNameValid(a + "-" + b)
  {
    var s := a + "-" + b;
    FirstNameAt(a);
    FirstNameAt(b);
    LastNameAt(s);
    FirstNameAt(s);
    assert s[|a|] == '-' && !NameChar('-');
    forall i | 0 <= i < |s| ensures NameChar(s[i]) || s[i] == '-' {
      if i < |a| {
        assert s[i] == a[i];
      } else if i > |a| {
        assert s[i] == b[i - |a| - 1];
      }
    }
  }

  /** The empty name passes both patterns; "Анна" passes; "Пётр" does not. */
  lemma NameExamples()
    ensures FirstNameValid("") && LastNameValid("")
    ensures FirstNameValid("Анна")
    ensures !FirstNameValid("Пётр") && !LastNameValid("Пётр")
  {
    var s := "Анна";
    assert NameChar(s[0]) && NameChar(s[1]) && NameChar(s[2]) && NameChar(s[3]);
    FirstNameAt(s);
    YoRefused("Пётр", 1);
  }
}
