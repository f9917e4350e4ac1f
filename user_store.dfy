/**
 * The login store of the web client: the signed-in user, the session token
 * and the logged-in flag, with the token mirrored in the browser's
 * `localStorage` under `music_token`.
 */
module UserSession {
  import opened Base

  datatype UserInfo = UserInfo(id: string, username: string, nickname: string, avatar: Option<string>)

  const TokenKey := "music_token"

  class UserStore {
    var userInfo: Option<UserInfo>
    var token: Option<string>
    var isLoggedIn: bool
    /** `localStorage`, shared with the rest of the page. */
    var storage: map<string, string>

    /** The flag is set exactly when a token is held, and a held token is the stored one. */
    ghost predicate Valid()
      reads this
    {
      (isLoggedIn <==> token.Some?) && (token.Some? ==> TokenKey in storage && storage[TokenKey] == token.value)
    }

    /** A fresh store: nobody signed in; the storage is whatever the browser kept. */
    constructor (storage: map<string, string>)
      ensures Valid()
      ensures userInfo.None? && token.None? && !isLoggedIn && this.storage == storage
    {
      userInfo := None;
      token := None;
      isLoggedIn := false;
      this.storage := storage;
    }

    /** `login(userData, userToken)`. */
    method Login(userData: UserInfo, userToken: string)
      modifies this
      ensures Valid()
      ensures userInfo == Some(userData) && token == Some(userToken) && isLoggedIn
      ensures storage == old(storage)[TokenKey := userToken]
    {
      userInfo := Some(userData);
      token := Some(userToken);
      isLoggedIn := true;
      storage := storage[TokenKey := userToken];
    }

    /** `logout()`: everything cleared, the stored token removed; other storage entries stay. */
    method Logout()
      modifies this
      ensures Valid()
      ensures userInfo.None? && token.None? && !isLoggedIn
      ensures storage == old(storage) - {TokenKey}
    {
      userInfo := None;
      token := None;
      isLoggedIn := false;
      storage := storage - {TokenKey};
    }

    /**
     * `checkLoginStatus()`: a saved token that is truthy (present and not the
     * empty string) is taken up and marks the session logged in; the user
     * info is not restored. Without one nothing changes.
     */
    method CheckLoginStatus()
      requires Valid()
      modifies this
      ensures Valid()
      ensures storage == old(storage) && userInfo == old(userInfo)
      ensures TokenKey in storage && storage[TokenKey] != "" ==> token == Some(storage[TokenKey]) && isLoggedIn
      ensures !(TokenKey in storage && storage[TokenKey] != "") ==> token == old(token) && isLoggedIn == old(isLoggedIn)
    {
      var savedToken := if TokenKey in storage then Some(storage[TokenKey]) else None;
      if savedToken.Some? && savedToken.value != "" {
        token := savedToken;
        isLoggedIn := true;
      }
    }
  }
}
