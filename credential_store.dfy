/**
 * The credential store: the device's key-value storage (`AsyncStorage`) and
 * the `PREFS` helpers of src/api/FirstViewClient.ts that read it. The store is
 * one object shared by the token refresh logic and both sign-in screens'
 * session code, so every one of them reads and writes the same `items` map.
 */
module CredentialStore {
  import opened Wrappers

  /** The three storage keys the core uses. */
  const AUTH_TOKEN: string := "auth_token"
  const LOGIN_TOKEN: string := "login_token"
  const EMAIL: string := "email"

  type Items = map<string, string>

  /**
   * `await AsyncStorage.getItem(key) ?? ''`, the shape of `PREFS.getAuthToken`,
   * `PREFS.getLoginToken` and `PREFS.getEmail`: a missing key reads as `''`,
   * so "missing" and "stored empty" look the same to the caller.
   */
  function ReadOrEmpty(items: Items, key: string): (v: string)
    ensures key in items ==> v == items[key]
    ensures key !in items ==> v == ""
    ensures v != "" ==> key in items
  {
    if key in items then items[key] else ""
  }

  /** The device's persistent key-value storage. */
  class Storage {
    var items: Items

    constructor (initial: Items)
      ensures items == initial
    {
      items := initial;
    }

    /** `AsyncStorage.getItem(key)`: `None` stands for `null`. */
    method GetItem(key: string) returns (v: Option<string>)
      ensures v.Some? <==> key in items
      ensures v.Some? ==> v.value == items[key]
    {
      if key in items {
        v := Some(items[key]);
      } else {
        v := None;
      }
    }

    /** `AsyncStorage.setItem(key, value)`. */
    method SetItem(key: string, value: string)
      modifies this
      ensures items == old(items)[key := value]
    {
      items := items[key := value];
    }

    /** `AsyncStorage.removeItem(key)`. */
    method RemoveItem(key: string)
      modifies this
      ensures items == old(items) - {key}
    {
      items := items - {key};
    }

    /** `PREFS.getAuthToken`, `PREFS.getLoginToken`, `PREFS.getEmail`: `getItem(key) ?? ''`. */
    method GetOrEmpty(key: string) returns (v: string)
      ensures v == ReadOrEmpty(items, key)
    {
      var stored := GetItem(key);
      v := stored.GetOr("");
    }
  }
}
