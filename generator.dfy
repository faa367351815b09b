/**
 * The random string of lambda_function.py line 71:
 * `''.join(random.choice(valid_characters) for i in range(length))`.
 */
module Generator {
  import Charset

  /**
   * The string made of `length` draws from `chars`. `draw(i)` is the index
   * oracle standing for the i-th call of `random.choice`: that call picks
   * `chars[draw(i) % |chars|]`. `range` of a negative length is empty.
   */
  function RandomString(chars: string, length: int, draw: nat -> nat): (r: string)
    requires chars != []
    ensures |r| == if length < 0 then 0 else length
    ensures forall i :: 0 <= i < |r| ==> r[i] == chars[draw(i) % |chars|]
    ensures forall i :: 0 <= i < |r| ==> r[i] in chars
    decreases if length < 0 then 0 else length
  {
    if length <= 0 then [] else RandomString(chars, length - 1, draw) + [chars[draw(length - 1) % |chars|]]
  }

  /**
   * Whatever the oracle returns, the generated string respects the flags:
   * only letters, digits and (with the punctuation flag) punctuation, and
   * none of `@`, `/`, `"` under RDS compatibility.
   */
  lemma RandomStringRespectsFlags(punctuation: bool, rdsCompatible: bool, length: int, draw: nat -> nat)
    ensures var s := RandomString(Charset.ValidCharacters(punctuation, rdsCompatible), length, draw);
      forall i :: 0 <= i < |s| ==>
        && (s[i] in Charset.Alphanumerics || (punctuation && s[i] in Charset.Punctuation))
        && (!punctuation ==> s[i] !in Charset.Punctuation)
        && (rdsCompatible ==> s[i] != '@' && s[i] != '/' && s[i] != '"')
  {
    var s := RandomString(Charset.ValidCharacters(punctuation, rdsCompatible), length, draw);
    forall i | 0 <= i < |s|
      ensures && (s[i] in Charset.Alphanumerics || (punctuation && s[i] in Charset.Punctuation))
              && (!punctuation ==> s[i] !in Charset.Punctuation)
              && (rdsCompatible ==> s[i] != '@' && s[i] != '/' && s[i] != '"')
    {
      Charset.ValidCharactersMembership(punctuation, rdsCompatible, s[i]);
      Charset.Classify(s[i]);
    }
  }
}
