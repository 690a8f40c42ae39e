/** The `user` store module (user.js): the signed-in user and their profile. */
module UserStore {
  import opened Js

  class UserState {
    var user: Value
    var userProfile: Value

    /** The initial state: both null. */
    constructor ()
      ensures user == Null && userProfile == Null
    {
      user, userProfile := Null, Null;
    }

    /** The `user` getter. */
    function User(): Value
      reads this
    {
      user
    }

    /** The `userProfile` getter. */
    function UserProfile(): Value
      reads this
    {
      userProfile
    }

    /** The `isLoggedIn` getter: `user !== null`, so an undefined user counts as logged in. */
    function IsLoggedIn(): (r: bool)
      reads this
      ensures r <==> user != Null
    {
      user != Null
    }

    /** `setUser`: the `user` getter then reads the given user; the profile is kept. */
    method SetUser(u: Value)
      modifies this
      ensures User() == u && userProfile == old(userProfile)
      ensures IsLoggedIn() <==> u != Null
    {
      user := u;
    }

    /** `logOut`: clears the user but not the profile. */
    method LogOut()
      modifies this
      ensures user == Null && !IsLoggedIn() && userProfile == old(userProfile)
    {
      user := Null;
    }

    /** `setUserProfile`: changes only the profile. */
    method SetUserProfile(profile: Value)
      modifies this
      ensures UserProfile() == profile && user == old(user) && IsLoggedIn() == old(IsLoggedIn())
    {
      userProfile := profile;
    }
  }
}
