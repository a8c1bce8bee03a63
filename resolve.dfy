/** The resolution chain `from_raw_payload` -> `from_payload` ->
    `from_secret` (src/main.rs:193-252): every stage either stops with an
    error `Output` for the unchanged source or hands on to the next one. */
module Resolve {
  import opened Wrappers
  import opened Utf8
  import opened Foreign
  import opened Text
  import opened Labels

  const NotUtf8Message := "Payload is not valid UTF-8"
  const InvalidUrlMessage := "Invalid URL"
  const NoSecretKeyMessage := "URL query does not contain \"secret\" key"
  const NotBase32Message := "Secret is not valid base32"

  /** The `HashMap` that `collect` builds from the query pairs: pairs are
      inserted in order, so a later pair overwrites an earlier one. */
  function QueryMap(pairs: seq<(string, string)>): map<string, string>
    decreases |pairs|
  {
    if pairs == [] then map[]
    else QueryMap(pairs[..|pairs| - 1])[pairs[|pairs| - 1].0 := pairs[|pairs| - 1].1]
  }

  /** Reference definition of a query lookup: the value of the last pair
      with the key, scanning from the end. */
  function LastValue(pairs: seq<(string, string)>, key: string): (r: Option<string>)
    ensures r.Some? ==>
      exists i :: 0 <= i < |pairs| && pairs[i] == (key, r.value) &&
        forall j :: i < j < |pairs| ==> pairs[j].0 != key
    ensures r.None? ==> forall i :: 0 <= i < |pairs| ==> pairs[i].0 != key
    decreases |pairs|
  {
    if pairs == [] then None
    else if pairs[|pairs| - 1].0 == key then Some(pairs[|pairs| - 1].1)
    else LastValue(pairs[..|pairs| - 1], key)
  }

  /** The map `collect` builds answers every lookup with the last pair for
      that key: last write wins. */
  lemma {:induction false} QueryMapLastWins(pairs: seq<(string, string)>, key: string)
    ensures key in QueryMap(pairs) <==> LastValue(pairs, key).Some?
    ensures key in QueryMap(pairs) ==> QueryMap(pairs)[key] == LastValue(pairs, key).value
    decreases |pairs|
  {
    if pairs != [] {
      QueryMapLastWins(pairs[..|pairs| - 1], key);
    }
  }

  /** `from_secret`. */
  function FromSecret(env: Collaborators, secret: string, source: Source): (o: Output)
    ensures o.source == source
    ensures o.result.Ok? ==> o.result.value < 1000000
  {
    match env.base32(secret)
    case None => Output(source, Err(NotBase32Message))
    case Some(bytes) => Output(source, Ok(env.totp(bytes)))
  }

  /** `from_secret` on its own, as secret mode calls it: the code of the
      decoded bytes when the text is base32, otherwise the base32 message;
      the source unchanged. */
  lemma SecretOutcome(env: Collaborators, secret: string, source: Source)
    ensures var o := FromSecret(env, secret, source);
      o.source == source &&
      (env.base32(secret).Some? ==> o.result == Ok(env.totp(env.base32(secret).value))) &&
      (env.base32(secret).None? ==> o.result == Err(NotBase32Message))
  {}

  /** `from_payload`: the text must be a URL whose query has a `secret` key. */
  function FromPayload(env: Collaborators, payload: string, source: Source): (o: Output)
    ensures o.source == source
    ensures o.result.Ok? ==> o.result.value < 1000000
  {
    match env.parseUrl(payload)
    case None => Output(source, Err(InvalidUrlMessage + ": " + payload))
    case Some(pairs) =>
      var query := QueryMap(pairs);
      if "secret" !in query then Output(source, Err(NoSecretKeyMessage + ": " + payload))
      else FromSecret(env, query["secret"], source)
  }

  /** `from_raw_payload`: the bytes must be UTF-8 text. */
  function FromRawPayload(env: Collaborators, raw: seq<byte>, source: Source): (o: Output)
    ensures o.source == source
    ensures o.result.Ok? ==> o.result.value < 1000000
  {
    match Decode(raw)
    case None => Output(source, Err(NotUtf8Message))
    case Some(payload) => FromPayload(env, payload, source)
  }

  /** The stages of the chain that can fail. */
  datatype Stage = Utf8Stage | UrlStage | SecretKeyStage | Base32Stage

  /** Reference definition of the chain from the text on: the secret bytes,
      or the first stage that fails. */
  function SecretOfText(env: Collaborators, text: string): Result<seq<byte>, Stage> {
    if env.parseUrl(text).None? then Err(UrlStage)
    else
      var secret := LastValue(env.parseUrl(text).value, "secret");
      if secret.None? then Err(SecretKeyStage)
      else if env.base32(secret.value).None? then Err(Base32Stage)
      else Ok(env.base32(secret.value).value)
  }

  /** The same, from the raw bytes on. */
  function SecretOfRaw(env: Collaborators, raw: seq<byte>): Result<seq<byte>, Stage> {
    if Decode(raw).None? then Err(Utf8Stage) else SecretOfText(env, Decode(raw).value)
  }

  /** Which stage an error message of the chain names. */
  function StageOf(message: string): Option<Stage> {
    if message == NotUtf8Message then Some(Utf8Stage)
    else if HasPrefix(message, InvalidUrlMessage + ": ") then Some(UrlStage)
    else if HasPrefix(message, NoSecretKeyMessage + ": ") then Some(SecretKeyStage)
    else if message == NotBase32Message then Some(Base32Stage)
    else None
  }

  /** The message the chain reports for a failing stage; the URL stages quote
      the payload text. */
  function StageMessage(stage: Stage, payload: string): string {
    match stage
    case Utf8Stage => NotUtf8Message
    case UrlStage => InvalidUrlMessage + ": " + payload
    case SecretKeyStage => NoSecretKeyMessage + ": " + payload
    case Base32Stage => NotBase32Message
  }

  /** The four messages can be told apart whatever payload they quote. */
  lemma StageMessageNamesStage(stage: Stage, payload: string)
    ensures StageOf(StageMessage(stage, payload)) == Some(stage)
  {
    var m := StageMessage(stage, payload);
    match stage
    case Utf8Stage =>
    case UrlStage =>
      assert m[..|InvalidUrlMessage + ": "|] == InvalidUrlMessage + ": ";
      assert m != NotUtf8Message by { assert m[0] != NotUtf8Message[0]; }
    case SecretKeyStage =>
      var p := NoSecretKeyMessage + ": ";
      assert m[..|p|] == p;
      assert m != NotUtf8Message by { assert m[0] != NotUtf8Message[0]; }
      assert !HasPrefix(m, InvalidUrlMessage + ": ") by { assert m[0] != (InvalidUrlMessage + ": ")[0]; }
    case Base32Stage =>
      assert !HasPrefix(m, InvalidUrlMessage + ": ") by { assert m[0] != (InvalidUrlMessage + ": ")[0]; }
      assert !HasPrefix(m, NoSecretKeyMessage + ": ") by { assert m[0] != (NoSecretKeyMessage + ": ")[0]; }
  }

  /** `from_payload` against the reference chain: a code exactly when every
      stage succeeds, computed from the secret of the last `secret` pair;
      otherwise the message of the first failing stage. */
  lemma PayloadOutcome(env: Collaborators, payload: string, source: Source)
    ensures var o := FromPayload(env, payload, source);
      o.source == source &&
      match SecretOfText(env, payload)
      case Ok(bytes) => o.result == Ok(env.totp(bytes))
      case Err(stage) => o.result == Err(StageMessage(stage, payload))
  {
    if env.parseUrl(payload).Some? {
      QueryMapLastWins(env.parseUrl(payload).value, "secret");
    }
  }

  /** `from_raw_payload` against the reference chain. */
  lemma RawPayloadOutcome(env: Collaborators, raw: seq<byte>, source: Source)
    ensures var o := FromRawPayload(env, raw, source);
      o.source == source &&
      match SecretOfRaw(env, raw)
      case Ok(bytes) => o.result == Ok(env.totp(bytes))
      case Err(stage) =>
        o.result.Err? && StageOf(o.result.error) == Some(stage) &&
        (stage == Utf8Stage ==> o.result.error == NotUtf8Message) &&
        (stage != Utf8Stage ==> o.result.error == StageMessage(stage, Decode(raw).value))
  {
    match Decode(raw)
    case None =>
      StageMessageNamesStage(Utf8Stage, "");
    case Some(text) =>
      PayloadOutcome(env, text, source);
      if SecretOfText(env, text).Err? {
        StageMessageNamesStage(SecretOfText(env, text).error, text);
      }
  }

  /** Success routing: valid UTF-8 is passed on as the text it decodes to
      (which encodes back to exactly the same bytes). */
  lemma RawPayloadRoutesText(env: Collaborators, raw: seq<byte>, source: Source)
    requires Decode(raw).Some?
    ensures FromRawPayload(env, raw, source) == FromPayload(env, Decode(raw).value, source)
    ensures Encode(Decode(raw).value) == raw
  {
    EncodeDecode(raw);
  }

  /** Success routing: a URL is resolved as its last `secret` value would be
      resolved as a bare secret, so `--from url` and `--from secret` agree. */
  lemma PayloadRoutesSecret(env: Collaborators, payload: string, pairs: seq<(string, string)>, secret: string, source: Source)
    requires env.parseUrl(payload) == Some(pairs)
    requires LastValue(pairs, "secret") == Some(secret)
    ensures FromPayload(env, payload, source) == FromSecret(env, secret, source)
  {
    QueryMapLastWins(pairs, "secret");
  }
}
