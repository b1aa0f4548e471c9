/** The client's in-memory access-token holder (`AccessTokenProvider`): one
    nullable slot, set, read and cleared. */
module TokenProvider {
  import opened Wrappers

  class AccessTokenProvider {
    var token: Option<string>

    /** The slot starts out null. */
    constructor ()
      ensures token == None
    {
      token := None;
    }

    /** After setting, the slot holds exactly `t`; setting null clears it. */
    method SetTokenAsync(t: Option<string>)
      modifies this
      ensures token == t
    {
      token := t;
    }

    /** Reading returns the held value and changes nothing. */
    method GetTokenAsync() returns (t: Option<string>)
      ensures t == token
    {
      t := token;
    }

    /** Clearing leaves null behind, the same state `SetTokenAsync(None)` leaves. */
    method RemoveTokenAsync()
      modifies this
      ensures token == None
    {
      token := None;
    }
  }
}
