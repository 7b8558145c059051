/**
 * `WebCredentialsUtils`: the credentials used for each server host. Temporary user names
 * and passwords and authentication tokens are kept in two static maps keyed by host (Java's
 * `HashMap`, which also accepts a null host); the preferences singleton holds the configured
 * server, user name, password and token.
 */
module WebCredentials {
  import opened Wrappers
  import opened Text
  import opened Forms
  import opened Credentials

  /** The values `GeneralSharedPreferences` holds for the keys read here. */
  datatype Preferences = Preferences(serverUrl: string, username: string, password: string, authToken: string)

  /**
   * The process-wide state every `WebCredentialsUtils` works on: the two `static final` maps
   * and the `GeneralSharedPreferences` singleton. All utilities objects of a process share
   * one store, so what one saves the others see.
   */
  class CredentialStore {
    /** `HOST_CREDENTIALS` */
    var hostCredentials: map<Option<string>, HttpCredentials>
    /** `HOST_AUTH_TOKEN` */
    var hostAuthTokens: map<Option<string>, TokenCredentials>
    /** `GeneralSharedPreferences.getInstance()`, or null */
    var preferences: Option<Preferences>

    constructor(preferences: Option<Preferences>)
      ensures hostCredentials == map[] && hostAuthTokens == map[] && this.preferences == preferences
    {
      hostCredentials := map[];
      hostAuthTokens := map[];
      this.preferences := preferences;
    }
  }

  class WebCredentialsUtils {
    /** the shared static state */
    const store: CredentialStore
    /** `Uri.parse(url).getHost()` */
    const hostOf: string -> Option<string>

    constructor(store: CredentialStore, hostOf: string -> Option<string>)
      ensures this.store == store && this.hostOf == hostOf
    {
      this.store := store;
      this.hostOf := hostOf;
    }

    /** `getServerUrlFromPreferences` */
    function ServerUrlFromPreferences(): (r: string)
      reads store
      ensures store.preferences.None? ==> r == ""
      ensures store.preferences.Some? ==> r == store.preferences.value.serverUrl
    {
      if store.preferences.None? then "" else store.preferences.value.serverUrl
    }

    /** `getUserNameFromPreferences` */
    function UserNameFromPreferences(): (r: string)
      reads store
      ensures store.preferences.None? ==> r == ""
      ensures store.preferences.Some? ==> r == store.preferences.value.username
    {
      if store.preferences.None? then "" else store.preferences.value.username
    }

    /** `getPasswordFromPreferences` */
    function PasswordFromPreferences(): (r: string)
      reads store
      ensures store.preferences.None? ==> r == ""
      ensures store.preferences.Some? ==> r == store.preferences.value.password
    {
      if store.preferences.None? then "" else store.preferences.value.password
    }

    /** `getTokenFromPreferences` */
    function TokenFromPreferences(): (r: string)
      reads store
      ensures store.preferences.None? ==> r == ""
      ensures store.preferences.Some? ==> r == store.preferences.value.authToken
    {
      if store.preferences.None? then "" else store.preferences.value.authToken
    }

    /**
     * No token is stored for `host`, or the stored one still verifies; `verifies` says which
     * tokens `parseToken` accepts at the time of the call.
     */
    predicate TokenAccepted(host: Option<string>, verifies: string -> bool)
      reads store
    {
      host !in store.hostAuthTokens || verifies(store.hostAuthTokens[host].GetToken())
    }

    /** `host` is the host of the server URL in the preferences, ignoring case. */
    predicate IsPreferencesHost(host: Option<string>)
      reads store
    {
      var prefsHost := hostOf(ServerUrlFromPreferences());
      prefsHost.Some? && host.Some? && EqualsIgnoreCase(prefsHost.value, host.value)
    }

    /**
     * `getCredentials` for a request to `host`: nothing when the token stored for the host
     * fails to verify; for the preferences' server, the temporary credentials if there are
     * any and the saved user name and password otherwise; for any other host, the temporary
     * credentials or nothing.
     */
    function GetCredentials(host: Option<string>, verifies: string -> bool): (r: Option<HttpCredentials>)
      reads store
      ensures !TokenAccepted(host, verifies) ==> r.None?
      ensures TokenAccepted(host, verifies) && host in store.hostCredentials ==> r == Some(store.hostCredentials[host])
      ensures (TokenAccepted(host, verifies) && host !in store.hostCredentials && IsPreferencesHost(host)) ==>
                r == Some(HttpCredentials(UserNameFromPreferences(), PasswordFromPreferences()))
      ensures TokenAccepted(host, verifies) && host !in store.hostCredentials && !IsPreferencesHost(host) ==> r.None?
    {
      if !TokenAccepted(host, verifies) then None
      else if IsPreferencesHost(host) then
        if host in store.hostCredentials then Some(store.hostCredentials[host])
        else Some(HttpCredentials(UserNameFromPreferences(), PasswordFromPreferences()))
      else if host in store.hostCredentials then Some(store.hostCredentials[host])
      else None
    }

    /**
     * `saveCredentials`: an empty user name changes nothing; otherwise the host of `url` is
     * mapped to the user name and password, replacing what it had, and a request to that host
     * gets them unless its token fails.
     */
    method SaveCredentials(url: string, username: string, password: string)
      modifies store
      ensures username == "" ==> store.hostCredentials == old(store.hostCredentials)
      ensures username != "" ==> store.hostCredentials == old(store.hostCredentials)[hostOf(url) := HttpCredentials(username, password)]
      ensures store.hostAuthTokens == old(store.hostAuthTokens) && store.preferences == old(store.preferences)
      ensures username != "" ==> forall verifies :: TokenAccepted(hostOf(url), verifies) ==>
                GetCredentials(hostOf(url), verifies) == Some(HttpCredentials(username, password))
    {
      if username == "" {
        return;
      }
      var host := hostOf(url);
      store.hostCredentials := store.hostCredentials[host := HttpCredentials(username, password)];
    }

    /**
     * `clearCredentials`: an empty URL or one without a host changes nothing; otherwise the
     * temporary credentials of that host, and only those, are forgotten.
     */
    method ClearCredentials(url: string)
      modifies store
      ensures url == "" || hostOf(url).None? ==> store.hostCredentials == old(store.hostCredentials)
      ensures url != "" && hostOf(url).Some? ==> store.hostCredentials == old(store.hostCredentials) - {hostOf(url)}
      ensures store.hostAuthTokens == old(store.hostAuthTokens) && store.preferences == old(store.preferences)
      ensures url != "" && hostOf(url).Some? && !IsPreferencesHost(hostOf(url)) ==> forall verifies :: GetCredentials(hostOf(url), verifies).None?
    {
      if url == "" {
        return;
      }
      var host := hostOf(url);
      if host.Some? {
        store.hostCredentials := store.hostCredentials - {host};
      }
    }
  }

  /**
   * `clearAllCredentials`, a static method: no temporary credentials remain, for every
   * utilities object over the store; tokens and preferences stay.
   */
  method ClearAllCredentials(store: CredentialStore)
    modifies store
    ensures store.hostCredentials == map[]
    ensures store.hostAuthTokens == old(store.hostAuthTokens) && store.preferences == old(store.preferences)
    ensures forall u: WebCredentialsUtils, host, verifies :: u.store == store && !u.IsPreferencesHost(host) ==>
              u.GetCredentials(host, verifies).None?
  {
    store.hostCredentials := map[];
  }

  /**
   * `saveAuthToken`, a static method, where `verifies` says which tokens `parseToken` accepts
   * now: an empty token changes nothing. A token that fails to verify throws before anything
   * changes. Otherwise the token and its subject are stored for the host of `url`, then
   * written to the preferences, which throws when there are none (after the token map has
   * changed). Every utilities object over the store then accepts the host's token.
   */
  method SaveAuthToken(store: CredentialStore, url: string, token: string, verifies: string -> bool,
                       hostOf: string -> Option<string>, subjectOf: string -> Option<string>) returns (r: Outcome<Exception>)
    modifies store
    ensures token == "" ==> r == Pass && store.hostAuthTokens == old(store.hostAuthTokens) && store.preferences == old(store.preferences)
    ensures token != "" && !verifies(token) ==>
      r == Fail(InvalidToken) && store.hostAuthTokens == old(store.hostAuthTokens) && store.preferences == old(store.preferences)
    ensures token != "" && verifies(token) ==>
      && store.hostAuthTokens == old(store.hostAuthTokens)[hostOf(url) := TokenCredentials(subjectOf(token), token)]
      && (old(store.preferences).None? ==> r == Fail(RuntimeFailure) && store.preferences.None?)
      && (old(store.preferences).Some? ==> r == Pass && store.preferences == Some(old(store.preferences).value.(authToken := token)))
      && (forall u: WebCredentialsUtils :: u.store == store ==> u.TokenAccepted(hostOf(url), verifies))
    ensures store.hostCredentials == old(store.hostCredentials)
  {
    if token == "" {
      return Pass;
    }
    if !verifies(token) {
      return Fail(InvalidToken);
    }
    var host := hostOf(url);
    store.hostAuthTokens := store.hostAuthTokens[host := TokenCredentials(subjectOf(token), token)];
    if store.preferences.None? {
      return Fail(RuntimeFailure);
    }
    store.preferences := Some(store.preferences.value.(authToken := token));
    return Pass;
  }
}
