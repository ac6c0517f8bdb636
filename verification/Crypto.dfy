/** Field encryption with a keyring of several versions, over an ideal cipher: a sealed
    text opens only under the key, nonce and associated data it was sealed with. */
module Crypto {
  import opened Wrappers

  type Bytes = seq<bv8>

  const ZERO_NONCE: Bytes := [0, 0, 0, 0, 0, 0, 0, 0, 0, 0, 0, 0]

  type Nonce = n: Bytes | |n| == 12 witness ZERO_NONCE

  datatype Key = Key(secret: nat)

  /** The configured text of a key: 32 bytes in base 64, or not. */
  datatype KeyText = WellFormed(key: Key) | Malformed

  /** What a ciphertext is: sealed by the cipher, or any other bytes. */
  datatype Ciphertext = Sealed(key: Key, nonce: Bytes, aad: string, plain: Bytes) | Junk(bytes: Bytes)

  function Open(key: Key, nonce: Bytes, aad: string, c: Ciphertext): Option<Bytes> {
    if c.Sealed? && c.key == key && c.nonce == nonce && c.aad == aad then Some(c.plain) else None
  }

  /** `None` where the stored text is not base 64. */
  datatype EncryptedBlob = EncryptedBlob(ciphertext: Option<Ciphertext>, nonce: Option<Bytes>, keyVersion: nat)

  datatype CryptoError =
    | InvalidKey
    | EncryptionFailed
    | DecryptionFailed
    | UnknownKeyVersion(version: nat)
    | Base64Error
    | KeyringConfig(version: nat)

  // ---------------------------------------------------------- Associated data

  function OauthProviderId(userId: string, provider: string): string {
    "oauth_pid|user:" + userId + "|provider:" + provider
  }

  function NostrSecretKey(pubkey: string): string {
    "nostr_sk|pk:" + pubkey
  }

  function DmContent(giftWrapId: string, conversationKey: string): string {
    "dm|gw:" + giftWrapId + "|ck:" + conversationKey
  }

  /** The three purposes never share associated data, and none has the empty one. */
  lemma {:induction false} PurposesAreSeparate(user: string, provider: string, pubkey: string, wrap: string, conversation: string)
    ensures OauthProviderId(user, provider) != NostrSecretKey(pubkey)
    ensures NostrSecretKey(pubkey) != DmContent(wrap, conversation)
    ensures OauthProviderId(user, provider) != DmContent(wrap, conversation)
    ensures OauthProviderId(user, provider) != "" && NostrSecretKey(pubkey) != "" && DmContent(wrap, conversation) != ""
  {
    assert OauthProviderId(user, provider)[0] == 'o';
    assert NostrSecretKey(pubkey)[0] == 'n';
    assert DmContent(wrap, conversation)[0] == 'd';
  }

  predicate Plain(s: string) {
    '|' !in s
  }

  /** What comes before the first bar is determined. */
  lemma {:induction false} BarSplits(a: string, b: string, rest: string, more: string)
    requires Plain(a) && Plain(b) && rest != [] && more != [] && rest[0] == '|' == more[0]
    requires a + rest == b + more
    ensures a == b && rest == more
  {
    FirstChar(a, rest);
    FirstChar(b, more);
    if a != [] && b != [] {
      assert (a + rest)[1..] == a[1..] + rest && (b + more)[1..] == b[1..] + more;
      BarSplits(a[1..], b[1..], rest, more);
    } else {
      assert a == b;
      FrontCancels(a, rest, more);
    }
  }

  lemma {:induction false} FirstChar(a: string, rest: string)
    requires rest != []
    ensures (a + rest)[0] == if a == [] then rest[0] else a[0]
  {
  }

  lemma {:induction false} FrontCancels(front: string, a: string, b: string)
    requires front + a == front + b
    ensures a == b
  {
    assert (front + a)[|front|..] == a && (front + b)[|front|..] == b;
  }

  /** Within a purpose the associated data names its fields, while ids hold no bar. */
  lemma {:induction false} FieldsAreNamed(user: string, provider: string, user': string, provider': string)
    requires Plain(user) && Plain(user')
    ensures OauthProviderId(user, provider) == OauthProviderId(user', provider') <==> user == user' && provider == provider'
    ensures DmContent(user, provider) == DmContent(user', provider') <==> user == user' && provider == provider'
    ensures NostrSecretKey(provider) == NostrSecretKey(provider') <==> provider == provider'
  {
    if OauthProviderId(user, provider) == OauthProviderId(user', provider') {
      TwoFields("oauth_pid|user:", "|provider:", user, provider, user', provider');
    }
    if DmContent(user, provider) == DmContent(user', provider') {
      TwoFields("dm|gw:", "|ck:", user, provider, user', provider');
    }
    if NostrSecretKey(provider) == NostrSecretKey(provider') {
      FrontCancels("nostr_sk|pk:", provider, provider');
    }
  }

  lemma {:induction false} TwoFields(front: string, middle: string, a: string, b: string, c: string, d: string)
    requires Plain(a) && Plain(c) && middle != [] && middle[0] == '|'
    requires front + a + middle + b == front + c + middle + d
    ensures a == c && b == d
  {
    assert front + a + middle + b == front + (a + (middle + b));
    assert front + c + middle + d == front + (c + (middle + d));
    FrontCancels(front, a + (middle + b), c + (middle + d));
    BarSplits(a, c, middle + b, middle + d);
    FrontCancels(middle, b, d);
  }

  /** A bar in an id can make two pairs of fields one. */
  lemma {:induction false} BarsCollide()
    ensures OauthProviderId("a|provider:b", "c") == OauthProviderId("a", "b|provider:c")
  {
    assert "a|provider:b" == "a" + "|provider:" + "b" && "b|provider:c" == "b" + "|provider:" + "c";
  }

  // ---------------------------------------------------------------- The keyring

  datatype CryptoService = CryptoService(currentVersion: nat, keys: map<nat, Key>, allowLegacyEmptyAad: bool)

  datatype VersionedKey = VersionedKey(version: nat, text: KeyText)

  /** An entry that stops the keyring from being built. */
  predicate Rejected(entry: VersionedKey, currentVersion: nat) {
    entry.version == currentVersion || entry.text.Malformed?
  }

  /** The key of a version: the last entry that names it. */
  function LastKey(previous: seq<VersionedKey>, version: nat): Option<Key> {
    if previous == [] then None
    else
      var last := previous[|previous| - 1];
      if last.version == version && last.text.WellFormed? then Some(last.text.key)
      else LastKey(previous[..|previous| - 1], version)
  }

  function Lookup(keys: map<nat, Key>, version: nat): Option<Key> {
    if version in keys then Some(keys[version]) else None
  }

  /** The key that the configuration gives to a version. */
  function Configured(currentKey: Key, currentVersion: nat, previous: seq<VersionedKey>, version: nat): Option<Key> {
    if version == currentVersion then Some(currentKey) else LastKey(previous, version)
  }

  /** The current key for the current version; for another the one of the last entry that names it. */
  lemma {:induction false} ConfiguredExactly(currentKey: Key, currentVersion: nat, previous: seq<VersionedKey>, version: nat, key: Key)
    requires forall i :: 0 <= i < |previous| ==> previous[i].text.WellFormed? && previous[i].version != currentVersion
    ensures Configured(currentKey, currentVersion, previous, version) == Some(key) <==>
      if version == currentVersion then key == currentKey
      else exists i :: IsLastOf(previous, version, i) && previous[i].text == WellFormed(key)
  {
    if version != currentVersion {
      LastKeyExactly(previous, version, key);
    }
  }

  ghost predicate IsLastOf(previous: seq<VersionedKey>, version: nat, i: int) {
    0 <= i < |previous| && previous[i].version == version && forall j :: i < j < |previous| ==> previous[j].version != version
  }

  lemma {:induction false} LastKeyExactly(previous: seq<VersionedKey>, version: nat, key: Key)
    requires forall i :: 0 <= i < |previous| ==> previous[i].text.WellFormed?
    ensures LastKey(previous, version) == Some(key) <==> exists i :: IsLastOf(previous, version, i) && previous[i].text == WellFormed(key)
  {
    if previous != [] {
      var n := |previous| - 1;
      LastKeyExactly(previous[..n], version, key);
      if previous[n].version == version {
        assert IsLastOf(previous, version, n);
      } else {
        assert forall i :: IsLastOf(previous, version, i) <==> IsLastOf(previous[..n], version, i);
      }
    }
  }

  /** Builds the keyring. The current key can not be overwritten by a previous one, and the first bad
      entry is the one reported. */
  method FromKeyring(currentKey: KeyText, currentVersion: nat, previous: seq<VersionedKey>, allowLegacyEmptyAad: bool)
    returns (result: Result<CryptoService, CryptoError>)
    ensures result.Ok? <==>
      currentKey.WellFormed? && forall i :: 0 <= i < |previous| ==> !Rejected(previous[i], currentVersion)
    ensures result.Ok? ==>
      && result.value.currentVersion == currentVersion
      && result.value.allowLegacyEmptyAad == allowLegacyEmptyAad
      && forall version :: Lookup(result.value.keys, version) == Configured(currentKey.key, currentVersion, previous, version)
    ensures result.Err? && currentKey.WellFormed? ==>
      exists i :: && 0 <= i < |previous| && Rejected(previous[i], currentVersion)
                  && (forall j :: 0 <= j < i ==> !Rejected(previous[j], currentVersion))
                  && result.error == if previous[i].version == currentVersion then KeyringConfig(currentVersion) else InvalidKey
    ensures currentKey.Malformed? ==> result == Err(InvalidKey)
  {
    if currentKey.Malformed? {
      return Err(InvalidKey);
    }
    var keys: map<nat, Key> := map[currentVersion := currentKey.key];
    for i := 0 to |previous|
      invariant forall j :: 0 <= j < i ==> !Rejected(previous[j], currentVersion)
      invariant forall version :: Lookup(keys, version) == Configured(currentKey.key, currentVersion, previous[..i], version)
    {
      assert previous[..i + 1][..i] == previous[..i];
      if previous[i].version == currentVersion {
        assert Rejected(previous[i], currentVersion);
        return Err(KeyringConfig(currentVersion));
      }
      if previous[i].text.Malformed? {
        assert Rejected(previous[i], currentVersion);
        return Err(InvalidKey);
      }
      ghost var before := keys;
      keys := keys[previous[i].version := previous[i].text.key];
      forall version
        ensures Lookup(keys, version) == Configured(currentKey.key, currentVersion, previous[..i + 1], version)
      {
        assert Lookup(before, version) == Configured(currentKey.key, currentVersion, previous[..i], version);
        assert LastKey(previous[..i + 1], version)
            == if previous[i].version == version then Some(previous[i].text.key) else LastKey(previous[..i], version);
      }
    }
    assert previous[..|previous|] == previous;
    result := Ok(CryptoService(currentVersion, keys, allowLegacyEmptyAad));
  }

  // ------------------------------------------------------- Sealing and opening

  /** `nonce` is the fresh random nonce, or `None` when the cipher refuses. */
  function EncryptBytes(service: CryptoService, plain: Bytes, aad: string, nonce: Option<Nonce>): Result<EncryptedBlob, CryptoError> {
    if service.currentVersion !in service.keys then Err(UnknownKeyVersion(service.currentVersion))
    else if nonce.None? then Err(EncryptionFailed)
    else
      var key := service.keys[service.currentVersion];
      Ok(EncryptedBlob(Some(Sealed(key, nonce.value, aad, plain)), Some(nonce.value), service.currentVersion))
  }

  function DecryptBytes(service: CryptoService, blob: EncryptedBlob, aad: string): Result<Bytes, CryptoError> {
    if blob.keyVersion !in service.keys then Err(UnknownKeyVersion(blob.keyVersion))
    else if blob.ciphertext.None? || blob.nonce.None? then Err(Base64Error)
    else if |blob.nonce.value| != 12 then Err(DecryptionFailed)
    else
      var key := service.keys[blob.keyVersion];
      match Open(key, blob.nonce.value, aad, blob.ciphertext.value)
      case Some(plain) => Ok(plain)
      case None =>
        if service.allowLegacyEmptyAad && aad != "" then
          match Open(key, blob.nonce.value, "", blob.ciphertext.value)
          case Some(plain) => Ok(plain)
          case None => Err(DecryptionFailed)
        else Err(DecryptionFailed)
  }

  function RewrapBlob(service: CryptoService, blob: EncryptedBlob, aad: string, nonce: Option<Nonce>): Result<EncryptedBlob, CryptoError> {
    match DecryptBytes(service, blob, aad)
    case Err(error) => Err(error)
    case Ok(plain) => EncryptBytes(service, plain, aad, nonce)
  }

  /** The same keyring with the empty-data fallback switched off. */
  function Strict(service: CryptoService): CryptoService {
    service.(allowLegacyEmptyAad := false)
  }

  /** The blob is sealed with the key of its version, this associated data and a proper nonce. */
  predicate SealedWith(service: CryptoService, blob: EncryptedBlob, aad: string, plain: Bytes) {
    && blob.keyVersion in service.keys
    && blob.nonce.Some? && |blob.nonce.value| == 12
    && blob.ciphertext == Some(Sealed(service.keys[blob.keyVersion], blob.nonce.value, aad, plain))
  }

  /** Exactly what opens, and to what: a blob sealed with its own data, or, where that is allowed, an
      old one sealed with none. */
  lemma {:induction false} OpensExactly(service: CryptoService, blob: EncryptedBlob, aad: string, plain: Bytes)
    ensures DecryptBytes(service, blob, aad) == Ok(plain) <==>
      SealedWith(service, blob, aad, plain) || (service.allowLegacyEmptyAad && SealedWith(service, blob, "", plain))
  {
    if blob.keyVersion in service.keys && blob.ciphertext.Some? && blob.nonce.Some? && blob.ciphertext.value.Sealed? {
      var c := blob.ciphertext.value;
      assert c == Sealed(c.key, c.nonce, c.aad, c.plain);
    }
  }

  /** What is encrypted opens again with its own data and no other: in strict mode, and under any later
      keyring that keeps the key under its version. */
  lemma {:induction false} DecryptUndoesEncrypt(service: CryptoService, later: CryptoService, plain: Bytes, aad: string, other: string, nonce: Option<Nonce>)
    requires EncryptBytes(service, plain, aad, nonce).Ok?
    requires service.currentVersion in later.keys
    requires later.keys[service.currentVersion] == service.keys[service.currentVersion]
    ensures
      var blob := EncryptBytes(service, plain, aad, nonce).value;
      && DecryptBytes(later, blob, aad) == Ok(plain)
      && (DecryptBytes(Strict(later), blob, other).Ok? <==> other == aad)
  {
  }

  /** A rewrapped blob is at the current version and opens, strictly, to what the old one held. */
  lemma {:induction false} RewrapKeepsPlaintext(service: CryptoService, blob: EncryptedBlob, aad: string, nonce: Option<Nonce>)
    requires RewrapBlob(service, blob, aad, nonce).Ok?
    ensures
      var resealed := RewrapBlob(service, blob, aad, nonce).value;
      && resealed.keyVersion == service.currentVersion
      && DecryptBytes(service, blob, aad).Ok?
      && DecryptBytes(service, resealed, aad) == DecryptBytes(service, blob, aad)
      && DecryptBytes(Strict(service), resealed, aad) == DecryptBytes(service, blob, aad)
  {
  }
}
