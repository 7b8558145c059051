/** The credential records of package `openrosa`. */
module Credentials {
  import opened Wrappers

  /** A user name and password (`HttpCredentials`). */
  datatype HttpCredentials = HttpCredentials(username: string, password: string)

  /**
   * `TokenCredentials`: an authentication token and the user it names. Both are fixed at
   * construction; a token has no password. The user name is the token's subject, which may be absent.
   */
  datatype TokenCredentials = TokenCredentials(username: Option<string>, token: string)
  {
    function GetToken(): string { token }
    function GetUsername(): Option<string> { username }

    function GetPassword(): (p: Option<string>)
      ensures p.None?
    {
      None
    }
  }

  /** A token credential gives back the user name and token it was built from, and never a password. */
  lemma {:induction false} TokenCredentialsGetters(username: Option<string>, token: string)
    ensures var c := TokenCredentials(username, token);
      c.GetToken() == token && c.GetUsername() == username && c.GetPassword() == None
  {
  }
}
