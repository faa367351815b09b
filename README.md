# CloudFormation random-string custom resource, modelled in Dafny

The repository holds one AWS Lambda handler, written in Python 2. It backs a
CloudFormation custom resource that generates a random string. The handler
reads the request's `Length`, `Punctuation`, `RDSCompatible` and `KmsKeyId`
properties. It builds a character set and draws the string from it. It may
encrypt the string with a KMS key. It then reports `SUCCESS` or `FAILED` to
the stack through the request's callback URL.

This project models the decision logic of `lambda_handler` and
`send_response` and proves what each outcome is.

- `wrappers.dfy`: `Option` (a dictionary key that may be missing) and
  `Result` (a call that returns or raises).
- `pyvalues.dfy`: the Python values a property can hold. It models Python
  `==` as the `not in [False, 'false', 'False']` test uses it, and Python 2's
  `int()`. String parsing allows surrounding ASCII white space, an optional
  sign, white space again after the sign, and decimal digits. The module also has a reference printer
  `ShowInt`, and `int(str(n)) == n` is proved for it.
- `charset.dfy`: `string.ascii_letters`, `string.digits` and
  `string.punctuation` as literals. It defines `str.translate(None, chars)`
  and the character-set selection.
- `generator.dfy`: the string of `length` characters drawn from the set.
- `handler.dfy`: the event and response records. `ResourceProperties`
  is either a dictionary or a value that cannot be indexed by a key. The response is a
  class whose fields are updated in place, as the dictionary is.
  `SendResponse` and `LambdaHandler` are methods that update it step by
  step. `Handle` is the response as a pure function of the event and the
  oracles. `LambdaHandler`'s postcondition ties the object's final state
  to `Handle`, and the lemmas state each outcome of `Handle`.

Foreign and nondeterministic parts are parameters:
- `freshId` stands for `str(uuid.uuid4())`.
- `draw` is the index oracle. The i-th call of `random.choice(chars)`
  picks `chars[draw(i) % |chars|]`.
- `encrypt(keyId, plaintext)` is the KMS call. It returns `Ok(blob)`, or
  `Err(text)` with the text of the exception.
- `encode` is `base64.b64encode`.

The HTTPS callback is an output. `SendResponse` returns the body it would
PUT, or `None` when `ResponseURL` is missing or empty.

Behaviours of the code that are easy to misread:
- **JSON `null` flag.** A `Punctuation` or `RDSCompatible` flag that is
  present with value `null` counts as true (lines 57-68: `None` is not
  equal to any element of `[False,'false','False']`). Only a missing key
  reads as `False` (lines 59-60 and 63-64).
- **`0` and `0.0` flags.** Python finds these equal to `False`, so they
  count as false, as `False`, `'false'` and `'False'` do (lines 66 and
  68). Every other value counts as true, including `"0"`, `"no"` and
  `"FALSE"`.
- **Non-string lengths.** `int()` also accepts booleans (as 0 or 1) and
  floats (truncated toward zero), so these pass validation at line 52.
- **Negative lengths.** A negative `Length` passes validation at line 52,
  and `range(length)` at line 71 is then empty, so the string is empty.

## Model

| member | source | states |
|---|---|---|
| `PyValues.CountsTrueExactly` | lambda_function.py:57-68 | a flag switches its feature on iff it is present and is none of False, 0, 0.0, 'false', 'False' (the values Python's `==` matches in `[False,'false','False']`) |
| `PyValues.AbsentFlagIsFalse` | lambda_function.py:57-64 | a missing flag (KeyError, defaulted to False) counts as false, exactly as an explicit False |
| `PyValues.Truncate` | lambda_function.py:52 | `int()` of a float truncates toward zero: the result has the float's sign and lies within 1 of it, on the zero side |
| `PyValues.ParseShowInt` | lambda_function.py:52 | `int()` parses the decimal form of every integer back to that integer |
| `PyValues.ParsePadded` | lambda_function.py:52 | white space before and after the decimal form is ignored by `int()` |
| `PyValues.RejectsNonNumeric` | lambda_function.py:52-56 | a string containing any character other than ASCII white space, a sign or an ASCII digit makes `int()` raise, so it takes the 'not an integer' path |
| `PyValues.FlagValue` | lambda_function.py:57-64 | the flag lookup, with False for a missing key; specified by `CountsTrueExactly` and `AbsentFlagIsFalse` |
| `PyValues.PyEq` | lambda_function.py:66-68 | Python `==` between a flag and the list elements; specified by `CountsTrueExactly` |
| `PyValues.NotInFalseList` | lambda_function.py:66-68 | `v not in [False,'false','False']`; specified by `CountsTrueExactly` |
| `PyValues.CountsTrue` | lambda_function.py:57-68 | whether a flag switches its feature on; specified by `CountsTrueExactly` and `AbsentFlagIsFalse` |
| `PyValues.ParseIntLiteral` | lambda_function.py:52 | Python 2 `int()` of a string over ASCII white space, signs and ASCII digits; specified by `ParseShowInt`, `ParsePadded`, `ParseSpaceAfterSign` and `RejectsNonNumeric` |
| `PyValues.ToInt` | lambda_function.py:52-56 | Python 2 `int()` of any property value, None for the raised error; specified by `Truncate`, `ParseShowInt`, `ParseMinusSpaceTwelve` and `RejectsNonNumeric` |
| `PyValues.ParseSpaceAfterSign` | lambda_function.py:52 | white space between a sign and the digits is skipped, so `int('- 12') == -12` and `int('+ 12') == 12` for every gap of white space and every number |
| `PyValues.ParseMinusSpaceTwelve` | lambda_function.py:52 | `int('- 12')` is -12 |
| `Charset.Translate` | lambda_function.py:69 | `str.translate(None, chars)`; specified by `TranslateMembership`, `TranslateNothingToDelete` and `TranslateConcat` |
| `Charset.TranslateMembership` | lambda_function.py:69 | after `translate(None, chars)` a character is present iff it was present before and is not one of the deleted characters |
| `Charset.TranslateNothingToDelete` | lambda_function.py:69 | `translate` leaves a string unchanged when none of its characters is to be deleted |
| `Charset.ValidCharacters` | lambda_function.py:65-69 | the selected character set is never empty, whatever the flags |
| `Charset.ValidCharactersMembership` | lambda_function.py:65-69 | a character is in the set iff it is a letter or digit, or punctuation with the punctuation flag on, and it is not one of `@/"` with the RDS flag on |
| `Charset.AlphanumericsAlwaysValid` | lambda_function.py:65 | every ASCII letter and digit is always in the set |
| `Charset.PunctuationIffFlag` | lambda_function.py:66-67 | the set contains some punctuation character iff the punctuation flag is on |
| `Charset.RdsCompatibleRemovesExactly` | lambda_function.py:68-69 | with the RDS flag on, the set is the set without it minus exactly `@`, `/` and `"` |
| `Charset.RdsCompatibleKeepsAlphanumerics` | lambda_function.py:65-69 | without punctuation, the RDS deletion leaves the 62 letters and digits unchanged (same string, same order) |
| `Charset.RdsCompatiblePunctuation` | lambda_function.py:65-69 | with both flags on, the letters and digits stay in front, in order, and only the punctuation part loses characters |
| `Charset.ValidCharactersSizes` | lambda_function.py:65-69 | the set has 62 characters without punctuation, 94 with punctuation and no RDS deletion, and is never empty |
| `Handler.RequestedCharacters` | lambda_function.py:57-69 | the set a validated request selects is never empty; specified by `RequestedCharactersMembership`, `CountsTrueExactly`, `AbsentFlagIsFalse` and `ValidCharactersMembership` |
| `Handler.RequestedCharactersMembership` | lambda_function.py:57-69 | a character is in the requested set iff it is a letter or digit, or punctuation when the Punctuation flag counts as true, and it is not one of `@/"` when the RDSCompatible flag counts as true |
| `Generator.RandomString` | lambda_function.py:71 | the string has `max(length, 0)` characters, the i-th being the oracle's i-th pick from the set, so every character belongs to the set |
| `Generator.RandomStringRespectsFlags` | lambda_function.py:65-71 | every generated character is a letter or digit, or punctuation only with the punctuation flag; no punctuation without it; never `@`, `/`, `"` with the RDS flag |
| `Handler.Respond` | lambda_function.py:18-23 | a given status and a given reason replace the old ones, an absent one leaves its field as it was, and no other field changes |
| `Handler.HasCallback` | lambda_function.py:25 | a callback is attempted iff ResponseURL is present and non-empty; used by `SendResponse`'s contract |
| `Handler.SendResponse` | lambda_function.py:18-31 | updates the response in place as `Respond` says, returns the same object, and a callback carrying the updated response is produced iff ResponseURL is present and non-empty |
| `Handler.Response.constructor` | lambda_function.py:36-41 | the new response holds the three identifiers, status SUCCESS, and no physical id, reason or data yet |
| `Handler.LambdaHandler` | lambda_function.py:34-88 | the response object built step by step is fresh, ends equal to `Handle` of the event and oracles, and the callback carries exactly that response when a callback URL is given |
| `Handler.InitialResponse` | lambda_function.py:36-46 | the response skeleton; specified by `HandleEchoesIdentifiers` |
| `Handler.LengthProperty` | lambda_function.py:52-55 | the Length lookup ends in a KeyError iff ResourceProperties or its Length key is missing, in a TypeError iff ResourceProperties is not a dictionary, and otherwise yields the Length value |
| `Handler.Handle` | lambda_function.py:34-88 | the response `lambda_handler` returns, as a function of the event and the oracles; specified by the outcome lemmas below, and equal to `LambdaHandler`'s final state |
| `Handler.EncryptFailure` | lambda_function.py:84 | the failure reason starts with the fixed prefix, then the key id, then `": "`, and ends with the error text |
| `Handler.HandleEchoesIdentifiers` | lambda_function.py:36-46 | StackId, RequestId and LogicalResourceId are the event's; PhysicalResourceId is the event's when present, else the fresh id |
| `Handler.DeleteSucceeds` | lambda_function.py:48-49 | a Delete request yields SUCCESS with no Reason and no Data |
| `Handler.DeleteIgnoresPropertiesAndOracles` | lambda_function.py:48-49 | a Delete request's response is the same whatever its ResourceProperties and whatever the draw, encrypt and encode oracles (none of them is reached) |
| `Handler.MissingLengthFails` | lambda_function.py:51-54 | a missing ResourceProperties or Length yields FAILED with reason 'Must specify a length' and no Data |
| `Handler.NotADictFails` | lambda_function.py:51-56 | ResourceProperties that is not a dictionary (null, a string, a list) makes the lookup raise TypeError, reported as FAILED 'Length not an integer' with no Data |
| `Handler.NonIntegerLengthFails` | lambda_function.py:51-56 | a Length that `int()` rejects yields FAILED with reason 'Length not an integer' and no Data |
| `Handler.FractionalLengthFails` | lambda_function.py:52-56 | the Length "12.5" takes the 'Length not an integer' path |
| `Handler.NoKeySucceeds` | lambda_function.py:71-78 | a valid request without KmsKeyId yields SUCCESS, reason 'Successfully generated a random string', and Data holding only the generated RandomString |
| `Handler.EncryptErrorFails` | lambda_function.py:80-84 | when the encrypt call raises, the result is FAILED with no Data and the reason names the key id and the error text |
| `Handler.EncryptSucceeds` | lambda_function.py:80-88 | when the encrypt call succeeds on the generated string, the result is SUCCESS, reason 'Successfully created and encrypted random string', Data holding that string and the encoding of its ciphertext |
| `Handler.DataIsWellFormed` | lambda_function.py:71-88 | a response with Data is a SUCCESS for a validated request, and its RandomString has the parsed length (0 if negative) and only characters of the selected set |
| `Handler.FailureHasReasonAndNoData` | lambda_function.py:48-88 | every FAILED response has a reason and no Data |

## Left out

- The HTTPS PUT (lines 25-29): URL parsing, JSON serialisation and the network call are not modelled. The body that would be sent is returned as a value instead.
- Handler.SendResponse: always returns the response. In the source, lines 26-29 are outside any `try`, so an exception from `urlparse`, `HTTPSConnection` or the request escapes `send_response` and `lambda_handler`, and no response is returned. Handler.LambdaHandler likewise always returns one.
- Handler.EncryptFailure, Handler.EncryptErrorFails, Handler.Handle, Handler.LambdaHandler: the crash of line 84 on non-ASCII text is not modelled. Line 84 formats into a byte-string template, and Python 2 converts a unicode argument to ASCII there. For a non-ASCII KmsKeyId such as "clé" (the encrypt call fails for such a key), or a non-ASCII error text from `str(e)`, line 84 raises UnicodeEncodeError inside the `except` clause of line 83. The exception escapes `lambda_handler`, and no response is sent or returned. The model answers FAILED with the formatted reason instead.
- Creating the KMS client (line 80) sits outside any `try`. An exception there would escape the handler. The model does not capture that failure.
- `kms.encrypt` and `base64.b64encode` are parameters. Their behaviour, and the ciphertext format, are not modelled.
- `random.choice` and `uuid.uuid4` are oracles. Nothing is claimed about distribution, uniformity or uniqueness.
- Generator.RandomString: a Length too large to build `range(length)` is not modelled. Line 71 is outside any `try`; in Python 2 `range` raises OverflowError above `sys.maxint` and MemoryError well below that, and the exception escapes `lambda_handler`, so no response is sent or returned. For a Length such as "100000000000000000000" the model still yields SUCCESS with a string of that length.
- Generator.RandomString: the oracle chooses an index modulo the set's size. It does not model `random.choice`'s `int(random() * len(seq))`.
- A missing `StackId`, `RequestId`, `LogicalResourceId` or `RequestType` raises an uncaught KeyError in the source. The event record's types rule these out.
- A `PhysicalResourceId` or `KmsKeyId` that is present with a non-string value (such as JSON `null`) cannot be represented. Both are optional strings in the model.
- PyValues.ToInt, PyValues.ParseIntLiteral, PyValues.RejectsNonNumeric: handle the six ASCII white-space characters, an optional sign (with or without white space after it) and ASCII decimal digits only. It leaves out Unicode digits and the white space `int()` accepts beyond ASCII's six (space, `\t`, `\n`, `\v`, `\f`, `\r`): for the unicode strings JSON decodes to, that includes `\x1c`-`\x1f` and the non-ASCII spaces. So for `u'\u0661\u0662'` or `u'\x1c12'` Python 2 gives 12 where the model rejects the Length and answers FAILED 'Length not an integer'. Floats are finite reals, so infinities and NaN are left out.
- PyValues.PyEq: a list or dict is treated as unequal to every value. That is exact for the comparisons with `False`, `'false'` and `'False'`, which are the only ones made here.
- Charset.ValidCharactersSizes: does not state that the set with both flags on has 91 characters. That set is characterised by `ValidCharactersMembership` and `RdsCompatiblePunctuation` instead.
- The Lambda `context` argument is unused by the source and is not modelled.
