/**
 * The server-side session attached to a request: a session key (absent before
 * the session is first saved, and after a flush) and a string-keyed store of
 * values. The expiry chosen by `set_expiry` lives in the same store under
 * `_session_expiry`, so a flush clears it and a key change keeps it.
 */
module Sessions {
  import opened Common

  const SESSION_EXPIRY_KEY := "_session_expiry"

  class Session {
    var key: Option<string>
    var data: map<string, Value>

    constructor (key: Option<string>, data: map<string, Value>)
      ensures this.key == key && this.data == data
    {
      this.key := key;
      this.data := data;
    }

    /** `session[k] = v`. */
    method Put(k: string, v: Value)
      modifies this
      ensures data == old(data)[k := v] && key == old(key)
    {
      data := data[k := v];
    }

    /**
     * `flush()`: the stored values are dropped and the session loses its key
     * (the row under the old key is deleted by the caller's database).
     */
    method Flush()
      modifies this
      ensures data == map[] && key == None
    {
      data := map[];
      key := None;
    }

    /**
     * `create()` (and `cycle_key()`, whose old row is already gone after a
     * flush): the session is saved under the fresh key `newKey` and keeps
     * the values it already holds.
     */
    method Rekey(newKey: string)
      modifies this
      ensures key == Some(newKey) && data == old(data)
    {
      key := Some(newKey);
    }

    /** `set_expiry(value)` for an integer number of seconds (0: expire at browser close). */
    method SetExpiry(seconds: int)
      modifies this
      ensures data == old(data)[SESSION_EXPIRY_KEY := VInt(seconds)] && key == old(key)
      ensures ExpireAtBrowserClose(data, false) <==> seconds == 0
    {
      data := data[SESSION_EXPIRY_KEY := VInt(seconds)];
    }
  }

  /**
   * `get_expire_at_browser_close()`: the site default when no expiry was set,
   * otherwise whether the stored expiry is 0.
   */
  function ExpireAtBrowserClose(data: map<string, Value>, siteDefault: bool): (r: bool)
    ensures SESSION_EXPIRY_KEY !in data ==> r == siteDefault
    ensures SESSION_EXPIRY_KEY in data && data[SESSION_EXPIRY_KEY] != VNone ==>
              (r <==> EqualsInt(data[SESSION_EXPIRY_KEY], 0))
  {
    var v := Get(data, SESSION_EXPIRY_KEY);
    if v == VNone then siteDefault else EqualsInt(v, 0)
  }
}
