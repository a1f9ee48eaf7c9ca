/**
 * The access store (app/store/access.ts): the user's token, access code and
 * bot settings, their setters, the authorisation test and the one-time
 * fetch of the server's settings.
 */
module AccessStore {
  import opened Wrappers
  import opened JsText
  import opened ClientApi

  /** The fields of the store that the setters and the server's reply write. */
  datatype AccessState = AccessState(
    token: string,
    accessCode: string,
    needCode: bool,
    hideUserApiKey: bool,
    hideBalanceQuery: bool,
    disableGPT4: bool,
    openaiUrl: string,
    cozeApiKey: string,
    cozeUrl: string,
    cozeBotId: string)

  /** The settings the server answers with; the fields of the reply that the store keeps. */
  datatype ConfigReply = ConfigReply(
    needCode: bool,
    hideUserApiKey: bool,
    disableGPT4: bool,
    hideBalanceQuery: bool,
    openaiUrl: string,
    cozeUrl: string,
    cozeApiKey: string,
    cozeBotId: string)

  /** The progress of the settings request: not sent, in flight, settled. */
  const NotFetched: nat := 0
  const Fetching: nat := 1
  const Fetched: nat := 2

  /**
   * The value a checked setter stores: the trimmed input, unless that is
   * non-empty and holds a code above 127, in which case the current value stays.
   */
  function SecretUpdate(current: string, input: string): (r: string)
    ensures r == current || r == Trim(input)
    ensures r == Trim(input) <==> Trim(input) == [] || AllAscii(Trim(input)) || current == Trim(input)
  {
    var trimmed := Trim(input);
    if trimmed != [] && !IsAsciiOnly(trimmed) then current else trimmed
  }

  /** A secret the header code can send: empty or ASCII. */
  predicate Clean(s: string) {
    s == [] || AllAscii(s)
  }

  /** A checked setter never stores a secret that is not clean. */
  lemma SecretUpdateKeepsClean(current: string, input: string)
    requires Clean(current)
    ensures Clean(SecretUpdate(current, input))
  {
  }

  /** Setting the same input twice is setting it once. */
  lemma SecretUpdateIdempotent(current: string, input: string)
    ensures SecretUpdate(SecretUpdate(current, input), input) == SecretUpdate(current, input)
  {
  }

  /** The authorisation test on a state: a token, or an access code, or no access control. */
  predicate Authorized(s: AccessState) {
    s.token != [] || s.accessCode != [] || !s.needCode
  }

  /** The store; `fetchState` is the module-level progress of the settings request. */
  class Store {
    var state: AccessState
    var fetchState: nat
    /** Whether the client was built as a static export, which never asks the server. */
    const exportMode: bool

    constructor(exportMode: bool, openaiUrl: string)
      ensures state == AccessState("", "", true, false, false, false, openaiUrl, "", "", "")
      ensures fetchState == NotFetched && this.exportMode == exportMode
    {
      state := AccessState("", "", true, false, false, false, openaiUrl, "", "", "");
      fetchState := NotFetched;
      this.exportMode := exportMode;
    }

    /** The three secrets are clean. */
    predicate SecretsClean()
      reads this
    {
      Clean(state.token) && Clean(state.accessCode) && Clean(state.cozeApiKey)
    }

    /** `updateCode`: only the access code changes, to the checked value. */
    method UpdateCode(code: string)
      modifies this
      ensures state == old(state).(accessCode := SecretUpdate(old(state).accessCode, code))
      ensures fetchState == old(fetchState)
      ensures old(SecretsClean()) ==> SecretsClean()
    {
      var trimmedCode := Trim(code);
      if trimmedCode != [] {
        var ok := ScanAscii(trimmedCode);
        if !ok {
          return;
        }
      }
      state := state.(accessCode := trimmedCode);
    }

    /** `updateToken`: only the token changes, to the checked value. */
    method UpdateToken(token: string)
      modifies this
      ensures state == old(state).(token := SecretUpdate(old(state).token, token))
      ensures fetchState == old(fetchState)
      ensures old(SecretsClean()) ==> SecretsClean()
    {
      var trimmedToken := Trim(token);
      if trimmedToken != [] {
        var ok := ScanAscii(trimmedToken);
        if !ok {
          return;
        }
      }
      state := state.(token := trimmedToken);
    }

    /** `updateCozeApiKey`: only the bot key changes, to the checked value. */
    method UpdateCozeApiKey(key: string)
      modifies this
      ensures state == old(state).(cozeApiKey := SecretUpdate(old(state).cozeApiKey, key))
      ensures fetchState == old(fetchState)
      ensures old(SecretsClean()) ==> SecretsClean()
    {
      var trimmedKey := Trim(key);
      if trimmedKey != [] {
        var ok := ScanAscii(trimmedKey);
        if !ok {
          return;
        }
      }
      state := state.(cozeApiKey := trimmedKey);
    }

    /** `updateOpenAiUrl`: the trimmed text, unchecked. */
    method UpdateOpenAiUrl(url: string)
      modifies this
      ensures state == old(state).(openaiUrl := Trim(url)) && fetchState == old(fetchState)
    {
      state := state.(openaiUrl := Trim(url));
    }

    /** `updateCozeUrl`: the trimmed text, unchecked. */
    method UpdateCozeUrl(url: string)
      modifies this
      ensures state == old(state).(cozeUrl := Trim(url)) && fetchState == old(fetchState)
    {
      state := state.(cozeUrl := Trim(url));
    }

    /** `updateCozeBotId`: the trimmed text, unchecked. */
    method UpdateCozeBotId(botId: string)
      modifies this
      ensures state == old(state).(cozeBotId := Trim(botId)) && fetchState == old(fetchState)
    {
      state := state.(cozeBotId := Trim(botId));
    }

    /**
     * `fetch`: sends the settings request the first time only, and never in
     * a static export; `started` says whether this call sent it.
     */
    method Fetch() returns (started: bool)
      modifies this
      ensures started <==> old(fetchState) == NotFetched && !exportMode
      ensures fetchState == if started then Fetching else old(fetchState)
      ensures state == old(state)
    {
      if fetchState > NotFetched || exportMode {
        return false;
      }
      fetchState := Fetching;
      return true;
    }

    /**
     * The settled request: a reply is merged into the state as it is (the
     * setters' checks do not apply to it), a failure changes nothing, and
     * the request counts as done either way.
     */
    method FinishFetch(reply: Option<ConfigReply>)
      requires fetchState == Fetching
      modifies this
      ensures fetchState == Fetched
      ensures reply.None? ==> state == old(state)
      ensures reply.Some? ==> state == old(state).(
        needCode := reply.value.needCode, hideUserApiKey := reply.value.hideUserApiKey,
        disableGPT4 := reply.value.disableGPT4, hideBalanceQuery := reply.value.hideBalanceQuery,
        openaiUrl := reply.value.openaiUrl, cozeUrl := reply.value.cozeUrl,
        cozeApiKey := reply.value.cozeApiKey, cozeBotId := reply.value.cozeBotId)
    {
      if reply.Some? {
        var r := reply.value;
        state := state.(needCode := r.needCode, hideUserApiKey := r.hideUserApiKey,
                        disableGPT4 := r.disableGPT4, hideBalanceQuery := r.hideBalanceQuery,
                        openaiUrl := r.openaiUrl, cozeUrl := r.cozeUrl,
                        cozeApiKey := r.cozeApiKey, cozeBotId := r.cozeBotId);
      }
      fetchState := Fetched;
    }

    /** `enabledAccessControl`: starts the fetch if need be and answers `needCode`. */
    method EnabledAccessControl() returns (enabled: bool)
      modifies this
      ensures enabled == state.needCode && state == old(state)
      ensures fetchState == if old(fetchState) == NotFetched && !exportMode then Fetching else old(fetchState)
    {
      var _ := Fetch();
      enabled := state.needCode;
    }

    /** `isAuthorized`: a token, or an access code, or access control off. */
    method IsAuthorized() returns (b: bool)
      modifies this
      ensures b == Authorized(old(state)) && state == old(state)
      ensures fetchState == if old(fetchState) == NotFetched && !exportMode then Fetching else old(fetchState)
    {
      var _ := Fetch();
      b := state.token != [] || state.accessCode != [];
      if !b {
        var enabled := EnabledAccessControl();
        b := !enabled;
      }
    }
  }

  /** However often the fetch is asked for, the request is sent at most once. */
  method FetchOnce(store: Store) returns (first: bool, second: bool)
    modifies store
    ensures !second
    ensures first <==> old(store.fetchState) == NotFetched && !store.exportMode
  {
    first := store.Fetch();
    second := store.Fetch();
  }
}
