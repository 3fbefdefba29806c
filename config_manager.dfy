/**
 * `ConfigManager`: the Tencent Cloud credentials kept in the user-defaults
 * store under three keys, the defaults a missing key reads as, the
 * "configured" predicate, the validation cascade and the reset operations.
 */
module ConfigManager {
  import opened Wrappers

  const SecretIdKey: string := "tencent.secretId"
  const SecretKeyKey: string := "tencent.secretKey"
  const RegionKey: string := "tencent.region"
  const DefaultRegion: string := "ap-chengdu"

  /** The three credential values as read at one moment. */
  datatype Credentials = Credentials(secretId: string, secretKey: string, region: string)

  /** `isTencentConfigured`: both the id and the key are non-empty. */
  predicate IsConfigured(c: Credentials) {
    c.secretId != "" && c.secretKey != ""
  }

  /** The result of `validateTencentCredentials`: a verdict and, when invalid, a message. */
  datatype Validation = Validation(isValid: bool, error: Option<string>)

  const SecretIdEmpty: string := "Secret ID is empty"
  const SecretKeyEmpty: string := "Secret Key is empty"
  const SecretIdTooShort: string := "Secret ID is too short"
  const SecretKeyTooShort: string := "Secret Key is too short"

  /**
   * The checks run in a fixed order and the first that fails names the
   * problem: empty id, empty key, id shorter than 10, key shorter than 10.
   */
  function Validate(c: Credentials): (v: Validation)
    ensures v.isValid <==> v.error == None
    ensures v.isValid <==> |c.secretId| >= 10 && |c.secretKey| >= 10
    ensures v.error == Some(SecretIdEmpty) <==> c.secretId == ""
    ensures v.error == Some(SecretKeyEmpty) <==> c.secretId != "" && c.secretKey == ""
    ensures v.error == Some(SecretIdTooShort) <==>
      c.secretId != "" && c.secretKey != "" && |c.secretId| < 10
    ensures v.error == Some(SecretKeyTooShort) <==>
      c.secretId != "" && c.secretKey != "" && |c.secretId| >= 10 && |c.secretKey| < 10
    ensures v.isValid ==> IsConfigured(c)
  {
    if c.secretId == "" then Validation(false, Some(SecretIdEmpty))
    else if c.secretKey == "" then Validation(false, Some(SecretKeyEmpty))
    else if |c.secretId| < 10 then Validation(false, Some(SecretIdTooShort))
    else if |c.secretKey| < 10 then Validation(false, Some(SecretKeyTooShort))
    else Validation(true, None)
  }

  /** A string stored under `key`, or `fallback` when nothing is stored (`?? fallback`). */
  function Lookup(store: map<string, string>, key: string, fallback: string): string {
    if key in store then store[key] else fallback
  }

  /** The credential part of the application's preferences store. */
  class ConfigStore {
    /** The user-defaults domain: every key the application has written. */
    var defaults: map<string, string>

    constructor (initial: map<string, string>)
      ensures defaults == initial
    {
      defaults := initial;
    }

    function SecretId(): string
      reads this
    {
      Lookup(defaults, SecretIdKey, "")
    }

    function SecretKey(): string
      reads this
    {
      Lookup(defaults, SecretKeyKey, "")
    }

    function Region(): string
      reads this
    {
      Lookup(defaults, RegionKey, DefaultRegion)
    }

    /**
     * The three getters read together: a written key reads as the value
     * stored under it, an unwritten one as "" (id, key) or the default
     * region; the store counts as configured exactly when non-empty values
     * are stored under both the id key and the secret key.
     */
    function Snapshot(): (c: Credentials)
      reads this
      ensures SecretIdKey in defaults ==> c.secretId == defaults[SecretIdKey]
      ensures SecretIdKey !in defaults ==> c.secretId == ""
      ensures SecretKeyKey in defaults ==> c.secretKey == defaults[SecretKeyKey]
      ensures SecretKeyKey !in defaults ==> c.secretKey == ""
      ensures RegionKey in defaults ==> c.region == defaults[RegionKey]
      ensures RegionKey !in defaults ==> c.region == DefaultRegion
      ensures IsConfigured(c) <==>
        && SecretIdKey in defaults && defaults[SecretIdKey] != ""
        && SecretKeyKey in defaults && defaults[SecretKeyKey] != ""
    {
      Credentials(SecretId(), SecretKey(), Region())
    }

    method SetSecretId(value: string)
      modifies this
      ensures defaults == old(defaults)[SecretIdKey := value]
      ensures SecretId() == value
      ensures SecretKey() == old(SecretKey()) && Region() == old(Region())
    {
      defaults := defaults[SecretIdKey := value];
    }

    method SetSecretKey(value: string)
      modifies this
      ensures defaults == old(defaults)[SecretKeyKey := value]
      ensures SecretKey() == value
      ensures SecretId() == old(SecretId()) && Region() == old(Region())
    {
      defaults := defaults[SecretKeyKey := value];
    }

    method SetRegion(value: string)
      modifies this
      ensures defaults == old(defaults)[RegionKey := value]
      ensures Region() == value
      ensures SecretId() == old(SecretId()) && SecretKey() == old(SecretKey())
    {
      defaults := defaults[RegionKey := value];
    }

    /** `resetTencentCredentials`: three writes; other keys of the store keep their values. */
    method ResetTencentCredentials()
      modifies this
      ensures Snapshot() == Credentials("", "", DefaultRegion)
      ensures !IsConfigured(Snapshot())
      ensures defaults.Keys == old(defaults).Keys + {SecretIdKey, SecretKeyKey, RegionKey}
      ensures forall k :: k in old(defaults) && k !in {SecretIdKey, SecretKeyKey, RegionKey} ==>
        defaults[k] == old(defaults)[k]
    {
      SetSecretId("");
      SetSecretKey("");
      SetRegion(DefaultRegion);
    }

    /** `resetToDefaults`: the same as resetting the credentials. */
    method ResetToDefaults()
      modifies this
      ensures Snapshot() == Credentials("", "", DefaultRegion)
      ensures !IsConfigured(Snapshot())
      ensures defaults.Keys == old(defaults).Keys + {SecretIdKey, SecretKeyKey, RegionKey}
      ensures forall k :: k in old(defaults) && k !in {SecretIdKey, SecretKeyKey, RegionKey} ==>
        defaults[k] == old(defaults)[k]
    {
      ResetTencentCredentials();
    }
  }

  /** A store that has never been written reads as empty credentials in the default region. */
  lemma FreshStoreDefaults(store: map<string, string>)
    requires SecretIdKey !in store && SecretKeyKey !in store && RegionKey !in store
    ensures Lookup(store, SecretIdKey, "") == ""
    ensures Lookup(store, SecretKeyKey, "") == ""
    ensures Lookup(store, RegionKey, DefaultRegion) == DefaultRegion
    ensures !IsConfigured(Credentials(Lookup(store, SecretIdKey, ""), Lookup(store, SecretKeyKey, ""),
                                      Lookup(store, RegionKey, DefaultRegion)))
  {
  }
}
