/**
 * The custom-resource handler of lambda_function.py: `lambda_handler`
 * (lines 34-88) and `send_response` (lines 18-31).
 *
 * The handler's foreign inputs are parameters: `freshId` is the text of
 * `str(uuid.uuid4())`, `draw` the index oracle behind `random.choice`,
 * `encrypt` the KMS encrypt call (key id and plaintext to a ciphertext blob
 * or the text of the exception) and `encode` the base64 encoding.
 */
module Handler {
  import opened Wrappers
  import opened PyValues
  import Charset
  import Generator

  /**
   * The `ResourceProperties` value: a dictionary, in which a missing key is
   * None, or any other value (null, a string, a list), which cannot be
   * indexed by a key.
   */
  datatype Properties =
    | Properties(
        length: Option<Value>,
        punctuation: Option<Value>,
        rdsCompatible: Option<Value>,
        kmsKeyId: Option<string>)
    | NotADict

  /** The invocation event. */
  datatype Event = Event(
    stackId: string,
    requestId: string,
    logicalResourceId: string,
    requestType: string,
    physicalResourceId: Option<string>,
    responseUrl: Option<string>,
    resourceProperties: Option<Properties>)

  /** The `Status` texts "SUCCESS" and "FAILED". */
  datatype Status = Success | Failed

  type Blob = seq<bv8>

  /** The `Data` dictionary: `RandomString` and, when encrypted, `EncryptedRandomString`. */
  datatype Data = Data(randomString: string, encryptedRandomString: Option<string>)

  /** The response dictionary at one moment; a key not yet set is None. */
  datatype ResponseValue = ResponseValue(
    stackId: string,
    requestId: string,
    logicalResourceId: string,
    physicalResourceId: Option<string>,
    status: Status,
    reason: Option<string>,
    data: Option<Data>)

  const MissingLength: string := "Must specify a length"
  const LengthNotInteger: string := "Length not an integer"
  const Generated: string := "Successfully generated a random string"
  const GeneratedAndEncrypted: string := "Successfully created and encrypted random string"
  const EncryptFailurePrefix: string := "Could not encrypt random string with KeyId "

  /** `'Could not encrypt random string with KeyId {}: {}'.format(kmsKeyId, e)` */
  function EncryptFailure(keyId: string, error: string): (r: string)
    ensures |r| == |EncryptFailurePrefix| + |keyId| + 2 + |error|
    ensures r[..|EncryptFailurePrefix|] == EncryptFailurePrefix
    ensures r[|EncryptFailurePrefix|..|EncryptFailurePrefix| + |keyId|] == keyId
    ensures r[|EncryptFailurePrefix| + |keyId|..|EncryptFailurePrefix| + |keyId| + 2] == ": "
    ensures r[|r| - |error|..] == error
  {
    EncryptFailurePrefix + keyId + ": " + error
  }

  /** `'ResponseURL' in request and request['ResponseURL']`: a callback is attempted. */
  predicate HasCallback(request: Event)
  {
    request.responseUrl.Some? && request.responseUrl.value != ""
  }

  // ---------------------------------------------------------------------
  // send_response
  // ---------------------------------------------------------------------

  /**
   * The response as `send_response` leaves it: a given status and a given
   * reason replace the old ones, and nothing else changes.
   */
  function Respond(response: ResponseValue, status: Option<Status>, reason: Option<string>): (r: ResponseValue)
    ensures status.None? ==> r.status == response.status
    ensures status.Some? ==> r.status == status.value
    ensures reason.None? ==> r.reason == response.reason
    ensures reason.Some? ==> r.reason == reason
    ensures r.(status := response.status, reason := response.reason) == response
  {
    var withStatus := if status.Some? then response.(status := status.value) else response;
    if reason.Some? then withStatus.(reason := reason) else withStatus
  }

  /** The mutable response dictionary. */
  class Response {
    var stackId: string
    var requestId: string
    var logicalResourceId: string
    var physicalResourceId: Option<string>
    var status: Status
    var reason: Option<string>
    var data: Option<Data>

    /** The dictionary literal of lines 36-41. */
    constructor (stackId: string, requestId: string, logicalResourceId: string)
      ensures Value() == ResponseValue(stackId, requestId, logicalResourceId, None, Success, None, None)
    {
      this.stackId := stackId;
      this.requestId := requestId;
      this.logicalResourceId := logicalResourceId;
      this.physicalResourceId := None;
      this.status := Success;
      this.reason := None;
      this.data := None;
    }

    /** The current contents of the dictionary. */
    function Value(): ResponseValue
      reads this
    {
      ResponseValue(stackId, requestId, logicalResourceId, physicalResourceId, status, reason, data)
    }
  }

  /**
   * `send_response(request, response, status, reason)`: updates the
   * response in place and returns the same object. `callback` is the body
   * PUT to the callback URL, None when no callback is attempted.
   */
  method SendResponse(request: Event, response: Response, status: Option<Status>, reason: Option<string>)
    returns (sent: Response, callback: Option<ResponseValue>)
    modifies response
    ensures sent == response
    ensures response.Value() == Respond(old(response.Value()), status, reason)
    ensures callback == if HasCallback(request) then Some(response.Value()) else None
  {
    if status.Some? {
      response.status := status.value;
    }
    if reason.Some? {
      response.reason := reason;
    }
    if HasCallback(request) {
      callback := Some(response.Value());
    } else {
      callback := None;
    }
    sent := response;
  }

  // ---------------------------------------------------------------------
  // lambda_handler, as a function of the event and the oracles
  // ---------------------------------------------------------------------

  /** The response before any outcome is known (lines 36-46). */
  function InitialResponse(event: Event, freshId: string): ResponseValue
  {
    var physicalId := if event.physicalResourceId.Some? then event.physicalResourceId.value else freshId;
    ResponseValue(event.stackId, event.requestId, event.logicalResourceId, Some(physicalId), Success, None, None)
  }

  /** How `event['ResourceProperties']['Length']` ends (line 52). */
  datatype LengthLookup = KeyMissing | NotIndexable | Found(value: Value)

  /**
   * `event['ResourceProperties']['Length']`: a KeyError from either lookup,
   * the TypeError of indexing a value that is not a dictionary, or the value.
   */
  function LengthProperty(event: Event): (r: LengthLookup)
    ensures r.KeyMissing? <==>
              event.resourceProperties.None? ||
              (event.resourceProperties.value.Properties? && event.resourceProperties.value.length.None?)
    ensures r.NotIndexable? <==> event.resourceProperties == Some(NotADict)
    ensures r.Found? ==> event.resourceProperties.Some? && event.resourceProperties.value.Properties?
                         && event.resourceProperties.value.length == Some(r.value)
  {
    match event.resourceProperties
    case None => KeyMissing
    case Some(NotADict) => NotIndexable
    case Some(properties) =>
      if properties.length.Some? then Found(properties.length.value) else KeyMissing
  }

  /** The character set a request selects (lines 57-69). */
  function RequestedCharacters(properties: Properties): (r: string)
    requires properties.Properties?
    ensures r != []
  {
    Charset.ValidCharacters(CountsTrue(properties.punctuation), CountsTrue(properties.rdsCompatible))
  }

  /** A character is in the requested set iff it is a letter or a digit, or
      punctuation when the Punctuation flag counts as true, and it is not one
      of `@/"` when the RDSCompatible flag counts as true. */
  lemma RequestedCharactersMembership(properties: Properties, c: char)
    requires properties.Properties?
    ensures c in RequestedCharacters(properties) <==>
              (c in Charset.AsciiLetters || c in Charset.Digits
               || (CountsTrue(properties.punctuation) && c in Charset.Punctuation))
              && !(CountsTrue(properties.rdsCompatible) && c in Charset.RdsForbidden)
  {
    Charset.ValidCharactersMembership(CountsTrue(properties.punctuation), CountsTrue(properties.rdsCompatible), c);
  }

  /** The response `lambda_handler` returns. */
  function Handle(event: Event, freshId: string, draw: nat -> nat,
                  encrypt: (string, string) -> Result<Blob, string>, encode: Blob -> string): ResponseValue
  {
    var response := InitialResponse(event, freshId);
    if event.requestType == "Delete" then
      Respond(response, None, None)
    else
      match LengthProperty(event)
      case KeyMissing => Respond(response, Some(Failed), Some(MissingLength))
      case NotIndexable => Respond(response, Some(Failed), Some(LengthNotInteger))
      case Found(lengthValue) =>
        match ToInt(lengthValue)
        case None => Respond(response, Some(Failed), Some(LengthNotInteger))
        case Some(length) =>
          var properties := event.resourceProperties.value;
          var randomString := Generator.RandomString(RequestedCharacters(properties), length, draw);
          match properties.kmsKeyId
          case None =>
            Respond(response.(data := Some(Data(randomString, None)), reason := Some(Generated)), None, None)
          case Some(keyId) =>
            match encrypt(keyId, randomString)
            case Err(error) => Respond(response, Some(Failed), Some(EncryptFailure(keyId, error)))
            case Ok(blob) =>
              Respond(response.(data := Some(Data(randomString, Some(encode(blob)))),
                                reason := Some(GeneratedAndEncrypted)), None, None)
  }

  /** `lambda_handler(event, context)`, building the response dictionary step by step. */
  method LambdaHandler(event: Event, freshId: string, draw: nat -> nat,
                       encrypt: (string, string) -> Result<Blob, string>, encode: Blob -> string)
    returns (response: Response, callback: Option<ResponseValue>)
    ensures fresh(response)
    ensures response.Value() == Handle(event, freshId, draw, encrypt, encode)
    ensures callback == if HasCallback(event) then Some(response.Value()) else None
  {
    response := new Response(event.stackId, event.requestId, event.logicalResourceId);
    if event.physicalResourceId.Some? {
      response.physicalResourceId := event.physicalResourceId;
    } else {
      response.physicalResourceId := Some(freshId);
    }

    if event.requestType == "Delete" {
      response, callback := SendResponse(event, response, None, None);
      return;
    }

    var lengthValue := LengthProperty(event);
    if lengthValue.KeyMissing? {
      response, callback := SendResponse(event, response, Some(Failed), Some(MissingLength));
      return;
    }
    if lengthValue.NotIndexable? {
      response, callback := SendResponse(event, response, Some(Failed), Some(LengthNotInteger));
      return;
    }
    var parsed := ToInt(lengthValue.value);
    if parsed.None? {
      response, callback := SendResponse(event, response, Some(Failed), Some(LengthNotInteger));
      return;
    }
    var length := parsed.value;
    var properties := event.resourceProperties.value;
    var punctuation := FlagValue(properties.punctuation);
    var rdsCompatible := FlagValue(properties.rdsCompatible);
    var validCharacters := Charset.ValidCharacters(NotInFalseList(punctuation), NotInFalseList(rdsCompatible));
    var randomString := Generator.RandomString(validCharacters, length, draw);

    if properties.kmsKeyId.None? {
      response.data := Some(Data(randomString, None));
      response.reason := Some(Generated);
      response, callback := SendResponse(event, response, None, None);
      return;
    }
    var keyId := properties.kmsKeyId.value;
    var encrypted := encrypt(keyId, randomString);
    if encrypted.Err? {
      response, callback := SendResponse(event, response, Some(Failed), Some(EncryptFailure(keyId, encrypted.error)));
      return;
    }
    response.data := Some(Data(randomString, Some(encode(encrypted.value))));
    response.reason := Some(GeneratedAndEncrypted);
    response, callback := SendResponse(event, response, None, None);
  }

  // ---------------------------------------------------------------------
  // What the handler promises
  // ---------------------------------------------------------------------

  /** The identifiers are echoed; the physical id is the event's, else the fresh one. */
  lemma HandleEchoesIdentifiers(event: Event, freshId: string, draw: nat -> nat,
                                encrypt: (string, string) -> Result<Blob, string>, encode: Blob -> string)
    ensures var r := Handle(event, freshId, draw, encrypt, encode);
      && r.stackId == event.stackId
      && r.requestId == event.requestId
      && r.logicalResourceId == event.logicalResourceId
      && r.physicalResourceId == Some(if event.physicalResourceId.Some? then event.physicalResourceId.value else freshId)
  {
  }

  /** A Delete request succeeds with neither Reason nor Data. */
  lemma DeleteSucceeds(event: Event, freshId: string, draw: nat -> nat,
                       encrypt: (string, string) -> Result<Blob, string>, encode: Blob -> string)
    requires event.requestType == "Delete"
    ensures var r := Handle(event, freshId, draw, encrypt, encode);
      r.status == Success && r.reason == None && r.data == None
  {
  }

  /**
   * A Delete request never reaches validation, generation or encryption:
   * its response depends neither on the properties nor on the oracles.
   */
  lemma DeleteIgnoresPropertiesAndOracles(event: Event, properties: Option<Properties>, freshId: string,
                                          draw: nat -> nat, draw': nat -> nat,
                                          encrypt: (string, string) -> Result<Blob, string>,
                                          encrypt': (string, string) -> Result<Blob, string>,
                                          encode: Blob -> string, encode': Blob -> string)
    requires event.requestType == "Delete"
    ensures Handle(event, freshId, draw, encrypt, encode)
         == Handle(event.(resourceProperties := properties), freshId, draw', encrypt', encode')
  {
  }

  /** A missing Length, or missing ResourceProperties, fails without Data. */
  lemma MissingLengthFails(event: Event, freshId: string, draw: nat -> nat,
                           encrypt: (string, string) -> Result<Blob, string>, encode: Blob -> string)
    requires event.requestType != "Delete"
    requires event.resourceProperties.None? ||
             (event.resourceProperties.value.Properties? && event.resourceProperties.value.length.None?)
    ensures var r := Handle(event, freshId, draw, encrypt, encode);
      r.status == Failed && r.reason == Some("Must specify a length") && r.data == None
  {
  }

  /**
   * ResourceProperties that are not a dictionary raise TypeError at the
   * lookup, which the bare `except:` reports as a non-integer length.
   */
  lemma NotADictFails(event: Event, freshId: string, draw: nat -> nat,
                      encrypt: (string, string) -> Result<Blob, string>, encode: Blob -> string)
    requires event.requestType != "Delete"
    requires event.resourceProperties == Some(NotADict)
    ensures var r := Handle(event, freshId, draw, encrypt, encode);
      r.status == Failed && r.reason == Some("Length not an integer") && r.data == None
  {
  }

  /** A Length that `int()` rejects fails without Data. */
  lemma NonIntegerLengthFails(event: Event, freshId: string, draw: nat -> nat,
                              encrypt: (string, string) -> Result<Blob, string>, encode: Blob -> string)
    requires event.requestType != "Delete"
    requires event.resourceProperties.Some? && event.resourceProperties.value.Properties?
    requires event.resourceProperties.value.length.Some?
    requires ToInt(event.resourceProperties.value.length.value).None?
    ensures var r := Handle(event, freshId, draw, encrypt, encode);
      r.status == Failed && r.reason == Some("Length not an integer") && r.data == None
  {
  }

  /** For instance a fractional Length such as "12.5" is not an integer. */
  lemma FractionalLengthFails(event: Event, freshId: string, draw: nat -> nat,
                              encrypt: (string, string) -> Result<Blob, string>, encode: Blob -> string)
    requires event.requestType != "Delete"
    requires event.resourceProperties.Some? && event.resourceProperties.value.Properties?
    requires event.resourceProperties.value.length == Some(Str("12.5"))
    ensures Handle(event, freshId, draw, encrypt, encode).reason == Some(LengthNotInteger)
  {
    RejectsNonNumeric("12.5", 2);
  }

  /** A request that passes validation: its properties and its parsed length. */
  predicate Validated(event: Event, length: int)
  {
    && event.requestType != "Delete"
    && event.resourceProperties.Some?
    && event.resourceProperties.value.Properties?
    && event.resourceProperties.value.length.Some?
    && ToInt(event.resourceProperties.value.length.value) == Some(length)
  }

  /** Without a KmsKeyId the plaintext alone is returned. */
  lemma NoKeySucceeds(event: Event, length: int, freshId: string, draw: nat -> nat,
                      encrypt: (string, string) -> Result<Blob, string>, encode: Blob -> string)
    requires Validated(event, length) && event.resourceProperties.value.kmsKeyId.None?
    ensures var r := Handle(event, freshId, draw, encrypt, encode);
      && r.status == Success
      && r.reason == Some("Successfully generated a random string")
      && r.data.Some? && r.data.value.encryptedRandomString.None?
      && r.data.value.randomString
         == Generator.RandomString(RequestedCharacters(event.resourceProperties.value), length, draw)
  {
  }

  /** A failing encrypt call fails, naming the key and the error, without Data. */
  lemma EncryptErrorFails(event: Event, length: int, freshId: string, draw: nat -> nat,
                          encrypt: (string, string) -> Result<Blob, string>, encode: Blob -> string)
    requires Validated(event, length) && event.resourceProperties.value.kmsKeyId.Some?
    requires var properties := event.resourceProperties.value;
      encrypt(properties.kmsKeyId.value,
              Generator.RandomString(RequestedCharacters(properties), length, draw)).Err?
    ensures var properties := event.resourceProperties.value;
      var error := encrypt(properties.kmsKeyId.value,
                           Generator.RandomString(RequestedCharacters(properties), length, draw)).error;
      var r := Handle(event, freshId, draw, encrypt, encode);
      && r.status == Failed
      && r.data == None
      && r.reason == Some("Could not encrypt random string with KeyId " + properties.kmsKeyId.value + ": " + error)
  {
  }

  /** A successful encrypt call returns the plaintext and the encoding of its ciphertext. */
  lemma EncryptSucceeds(event: Event, length: int, freshId: string, draw: nat -> nat,
                        encrypt: (string, string) -> Result<Blob, string>, encode: Blob -> string)
    requires Validated(event, length) && event.resourceProperties.value.kmsKeyId.Some?
    requires var properties := event.resourceProperties.value;
      encrypt(properties.kmsKeyId.value,
              Generator.RandomString(RequestedCharacters(properties), length, draw)).Ok?
    ensures var properties := event.resourceProperties.value;
      var plaintext := Generator.RandomString(RequestedCharacters(properties), length, draw);
      var r := Handle(event, freshId, draw, encrypt, encode);
      && r.status == Success
      && r.reason == Some("Successfully created and encrypted random string")
      && r.data == Some(Data(plaintext, Some(encode(encrypt(properties.kmsKeyId.value, plaintext).value))))
  {
  }

  /**
   * Every response that carries Data carries a string of the requested
   * length (none for a negative one) drawn from the selected set, and
   * only a validated request gets one.
   */
  lemma DataIsWellFormed(event: Event, freshId: string, draw: nat -> nat,
                         encrypt: (string, string) -> Result<Blob, string>, encode: Blob -> string)
    ensures var r := Handle(event, freshId, draw, encrypt, encode);
      r.data.Some? ==>
        && r.status == Success
        && exists length :: (
             && Validated(event, length)
             && |r.data.value.randomString| == (if length < 0 then 0 else length)
             && forall i :: 0 <= i < |r.data.value.randomString| ==>
                  r.data.value.randomString[i] in RequestedCharacters(event.resourceProperties.value))
  {
    var r := Handle(event, freshId, draw, encrypt, encode);
    if r.data.Some? {
      assert event.requestType != "Delete" && LengthProperty(event).Found?;
      var length := ToInt(LengthProperty(event).value).value;
      assert Validated(event, length);
    }
  }

  /** A failed response never carries Data and always gives a reason. */
  lemma FailureHasReasonAndNoData(event: Event, freshId: string, draw: nat -> nat,
                                  encrypt: (string, string) -> Result<Blob, string>, encode: Blob -> string)
    ensures var r := Handle(event, freshId, draw, encrypt, encode);
      r.status == Failed ==> r.data == None && r.reason.Some?
  {
  }
}
