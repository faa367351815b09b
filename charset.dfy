/**
 * The character set a random string is drawn from (lambda_function.py,
 * lines 65-69), built from Python 2's `string` constants.
 */
module Charset {
  import PyValues

  /** `string.ascii_lowercase` */
  const AsciiLowercase: string := "abcdefghijklmnopqrstuvwxyz"

  /** `string.ascii_uppercase` */
  const AsciiUppercase: string := "ABCDEFGHIJKLMNOPQRSTUVWXYZ"

  /** `string.ascii_letters` */
  const AsciiLetters: string := AsciiLowercase + AsciiUppercase

  /** `string.digits` */
  const Digits: string := "0123456789"

  /** `string.punctuation`: the 32 printable ASCII characters that are neither letters, digits nor space. */
  const Punctuation: string := "!\"#$%&'()*+,-./:;<=>?@[\\]^_`{|}~"

  /** The characters an RDS master password may not contain. */
  const RdsForbidden: string := "@/\""

  /** The 62 characters every set starts from. */
  const Alphanumerics: string := AsciiLetters + Digits

  /** `s.translate(None, deleteChars)`: `s` with every character of `deleteChars` deleted, order kept. */
  function Translate(s: string, deleteChars: string): string
  {
    if s == [] then []
    else
      var rest := Translate(s[1..], deleteChars);
      if s[0] in deleteChars then rest else [s[0]] + rest
  }

  /** A character survives the deletion exactly when it occurs and is not to be deleted. */
  lemma {:induction false} TranslateMembership(s: string, deleteChars: string, c: char)
    ensures c in Translate(s, deleteChars) <==> c in s && c !in deleteChars
  {
    if s != [] {
      assert c in s <==> c == s[0] || c in s[1..];
      TranslateMembership(s[1..], deleteChars, c);
    }
  }

  /** Deleting characters that do not occur leaves the string as it was. */
  lemma {:induction false} TranslateNothingToDelete(s: string, deleteChars: string)
    requires forall c :: c in s ==> c !in deleteChars
    ensures Translate(s, deleteChars) == s
  {
    if s != [] {
      assert forall c :: c in s[1..] ==> c in s;
      TranslateNothingToDelete(s[1..], deleteChars);
    }
  }

  /**
   * The set for the two flag outcomes: the alphanumerics, the punctuation
   * appended when `punctuation` holds, and RdsForbidden deleted when
   * `rdsCompatible` holds.
   */
  function ValidCharacters(punctuation: bool, rdsCompatible: bool): (r: string)
    ensures r != []
  {
    var withPunctuation := if punctuation then Alphanumerics + Punctuation else Alphanumerics;
    if rdsCompatible then
      TranslateMembership(withPunctuation, RdsForbidden, 'a');
      Translate(withPunctuation, RdsForbidden)
    else
      withPunctuation
  }

  predicate IsAsciiLetter(c: char)
  {
    'a' <= c <= 'z' || 'A' <= c <= 'Z'
  }

  /** The constants classify characters by code-point range. */
  lemma ClassifyLetter(c: char)
    ensures c in AsciiLetters <==> IsAsciiLetter(c)
  {
    assert c in AsciiLowercase <==> 'a' <= c <= 'z';
    assert c in AsciiUppercase <==> 'A' <= c <= 'Z';
  }

  lemma Classify(c: char)
    ensures c in AsciiLetters <==> IsAsciiLetter(c)
    ensures c in Digits <==> PyValues.IsDigit(c)
    ensures c in Alphanumerics <==> IsAsciiLetter(c) || PyValues.IsDigit(c)
    ensures c in Punctuation ==> !IsAsciiLetter(c) && !PyValues.IsDigit(c)
    ensures c in RdsForbidden <==> c == '@' || c == '/' || c == '"'
    ensures c in RdsForbidden ==> c in Punctuation
  {
    ClassifyLetter(c);
    assert c in Digits <==> PyValues.IsDigit(c);
  }

  /** Exactly which characters the set holds, whatever the flags. */
  lemma ValidCharactersMembership(punctuation: bool, rdsCompatible: bool, c: char)
    ensures c in ValidCharacters(punctuation, rdsCompatible) <==>
              (c in AsciiLetters || c in Digits || (punctuation && c in Punctuation))
              && !(rdsCompatible && c in RdsForbidden)
  {
    Classify(c);
    var withPunctuation := if punctuation then Alphanumerics + Punctuation else Alphanumerics;
    TranslateMembership(withPunctuation, RdsForbidden, c);
    assert c in withPunctuation <==> c in Alphanumerics || (punctuation && c in Punctuation);
  }

  /** Every ASCII letter and digit is always available. */
  lemma AlphanumericsAlwaysValid(punctuation: bool, rdsCompatible: bool, c: char)
    requires IsAsciiLetter(c) || PyValues.IsDigit(c)
    ensures c in ValidCharacters(punctuation, rdsCompatible)
  {
    ValidCharactersMembership(punctuation, rdsCompatible, c);
    Classify(c);
  }

  /** The set holds some punctuation exactly when the punctuation flag is on. */
  lemma PunctuationIffFlag(punctuation: bool, rdsCompatible: bool)
    ensures (exists c :: c in Punctuation && c in ValidCharacters(punctuation, rdsCompatible)) <==> punctuation
  {
    if punctuation {
      ValidCharactersMembership(punctuation, rdsCompatible, '!');
    } else {
      forall c | c in Punctuation ensures c !in ValidCharacters(punctuation, rdsCompatible) {
        ValidCharactersMembership(punctuation, rdsCompatible, c);
        Classify(c);
      }
    }
  }

  /**
   * With `rdsCompatible`, none of `@`, `/`, `"` is in the set, and every other
   * character of the set built before the deletion is kept.
   */
  lemma RdsCompatibleRemovesExactly(punctuation: bool, c: char)
    ensures c in ValidCharacters(punctuation, true) <==>
              c in ValidCharacters(punctuation, false) && c != '@' && c != '/' && c != '"'
  {
    ValidCharactersMembership(punctuation, true, c);
    ValidCharactersMembership(punctuation, false, c);
    Classify(c);
  }

  /** Without punctuation the RDS deletion has nothing to delete: the 62 alphanumerics are unchanged. */
  lemma RdsCompatibleKeepsAlphanumerics()
    ensures ValidCharacters(false, true) == ValidCharacters(false, false) == Alphanumerics
  {
    forall c | c in Alphanumerics ensures c !in RdsForbidden {
      Classify(c);
    }
    TranslateNothingToDelete(Alphanumerics, RdsForbidden);
  }

  /** Deleting from a concatenation deletes from each part. */
  lemma {:induction false} TranslateConcat(a: string, b: string, deleteChars: string)
    ensures Translate(a + b, deleteChars) == Translate(a, deleteChars) + Translate(b, deleteChars)
  {
    if a == [] {
      assert a + b == b;
    } else {
      assert (a + b)[0] == a[0];
      assert (a + b)[1..] == a[1..] + b;
      TranslateConcat(a[1..], b, deleteChars);
    }
  }

  /** With both flags on, the alphanumerics stay in front, in order, and only the punctuation loses characters. */
  lemma RdsCompatiblePunctuation()
    ensures ValidCharacters(true, true) == Alphanumerics + Translate(Punctuation, RdsForbidden)
  {
    TranslateConcat(Alphanumerics, Punctuation, RdsForbidden);
    RdsCompatibleKeepsAlphanumerics();
  }

  /** The sets without the RDS deletion have 62 and 94 characters, and no set is empty. */
  lemma ValidCharactersSizes(punctuation: bool, rdsCompatible: bool)
    ensures !punctuation ==> |ValidCharacters(punctuation, rdsCompatible)| == 62
    ensures punctuation && !rdsCompatible ==> |ValidCharacters(punctuation, rdsCompatible)| == 94
    ensures |ValidCharacters(punctuation, rdsCompatible)| > 0
  {
    RdsCompatibleKeepsAlphanumerics();
    AlphanumericsAlwaysValid(punctuation, rdsCompatible, 'a');
  }
}
