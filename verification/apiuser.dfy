/** The record transformations of the user-management REST handlers: which
    fields of a stored user an update request may change, how encrypted
    secrets survive an update, and what disabling two-factor authentication
    resets. The handlers' HTTP plumbing is not modelled; a request arrives as
    its already-decoded body. */
module ApiUser {
  import opened Results

  // ---------------------------------------------------------------------------
  // Secrets and filesystem configurations

  /** The state of a secret, abstracted from its kms representation: no value,
      a clear-text value a client supplied, a value encrypted by the server, or
      the placeholder shown to clients instead of the payload. */
  datatype SecretStatus = Empty | Plain | Encrypted | Redacted

  datatype Secret = Secret(status: SecretStatus, payload: string)

  const EmptySecret: Secret := Secret(Empty, "")

  /** Secret.IsNotPlainAndNotEmpty */
  predicate IsNotPlainAndNotEmpty(s: Secret) {
    s.status != Plain && s.status != Empty
  }

  datatype Provider =
    | LocalFilesystem
    | S3Filesystem
    | GCSFilesystem
    | AzureBlobFilesystem
    | CryptedFilesystem
    | SFTPFilesystem

  datatype S3Config = S3Config(bucket: string, region: string, accessKey: string, accessSecret: Secret)
  datatype GCSConfig = GCSConfig(bucket: string, keyPrefix: string, credentials: Secret)
  datatype AzBlobConfig = AzBlobConfig(container: string, accountName: string, accountKey: Secret, sasURL: Secret)
  datatype CryptConfig = CryptConfig(passphrase: Secret)
  datatype SFTPConfig = SFTPConfig(endpoint: string, username: string, password: Secret, privateKey: Secret)

  /** The zero configurations, with their secrets set to the empty secret as
      SetEmptySecretsIfNil leaves them. */
  const ZeroS3: S3Config := S3Config("", "", "", EmptySecret)
  const ZeroGCS: GCSConfig := GCSConfig("", "", EmptySecret)
  const ZeroAzBlob: AzBlobConfig := AzBlobConfig("", "", EmptySecret, EmptySecret)
  const ZeroCrypt: CryptConfig := CryptConfig(EmptySecret)
  const ZeroSFTP: SFTPConfig := SFTPConfig("", "", EmptySecret, EmptySecret)

  /** vfs.Filesystem: the active provider and one configuration per provider. */
  datatype Filesystem = Filesystem(
    provider: Provider,
    s3: S3Config,
    gcs: GCSConfig,
    azBlob: AzBlobConfig,
    crypt: CryptConfig,
    sftp: SFTPConfig)

  /** The seven secrets updateUser saves from the stored user before decoding. */
  datatype StoredSecrets = StoredSecrets(
    s3AccessSecret: Secret,
    azAccountKey: Secret,
    azSASURL: Secret,
    gcsCredentials: Secret,
    cryptPassphrase: Secret,
    sftpPassword: Secret,
    sftpPrivateKey: Secret)

  function SecretsOf(f: Filesystem): StoredSecrets {
    StoredSecrets(f.s3.accessSecret, f.azBlob.accountKey, f.azBlob.sasURL, f.gcs.credentials,
                  f.crypt.passphrase, f.sftp.password, f.sftp.privateKey)
  }

  /** The filesystem with every secret blanked: what is left when secrets are ignored. */
  function WithoutSecrets(f: Filesystem): Filesystem {
    f.(s3 := f.s3.(accessSecret := EmptySecret),
       gcs := f.gcs.(credentials := EmptySecret),
       azBlob := f.azBlob.(accountKey := EmptySecret, sasURL := EmptySecret),
       crypt := f.crypt.(passphrase := EmptySecret),
       sftp := f.sftp.(password := EmptySecret, privateKey := EmptySecret))
  }

  /** One secret field: a plain or empty secret from the request is used;
      anything else (an encrypted or redacted value echoed back) gives way to
      the stored secret. */
  function Keep(supplied: Secret, stored: Secret): Secret {
    if IsNotPlainAndNotEmpty(supplied) then stored else supplied
  }

  /** updateEncryptedSecrets: the secret rule applied to the fields of the
      active provider only. */
  function UpdateEncryptedSecrets(f: Filesystem, cur: StoredSecrets): (r: Filesystem)
    ensures WithoutSecrets(r) == WithoutSecrets(f)
    ensures r.provider != S3Filesystem ==> r.s3 == f.s3
    ensures r.provider != GCSFilesystem ==> r.gcs == f.gcs
    ensures r.provider != AzureBlobFilesystem ==> r.azBlob == f.azBlob
    ensures r.provider != CryptedFilesystem ==> r.crypt == f.crypt
    ensures r.provider != SFTPFilesystem ==> r.sftp == f.sftp
    ensures r.provider == LocalFilesystem ==> r == f
    ensures r.provider == S3Filesystem ==> Decided(f.s3.accessSecret, cur.s3AccessSecret, r.s3.accessSecret)
    ensures r.provider == GCSFilesystem ==> Decided(f.gcs.credentials, cur.gcsCredentials, r.gcs.credentials)
    ensures r.provider == AzureBlobFilesystem ==>
      Decided(f.azBlob.accountKey, cur.azAccountKey, r.azBlob.accountKey)
      && Decided(f.azBlob.sasURL, cur.azSASURL, r.azBlob.sasURL)
    ensures r.provider == CryptedFilesystem ==> Decided(f.crypt.passphrase, cur.cryptPassphrase, r.crypt.passphrase)
    ensures r.provider == SFTPFilesystem ==>
      Decided(f.sftp.password, cur.sftpPassword, r.sftp.password)
      && Decided(f.sftp.privateKey, cur.sftpPrivateKey, r.sftp.privateKey)
  {
    match f.provider
    case S3Filesystem => f.(s3 := f.s3.(accessSecret := Keep(f.s3.accessSecret, cur.s3AccessSecret)))
    case AzureBlobFilesystem =>
      f.(azBlob := f.azBlob.(accountKey := Keep(f.azBlob.accountKey, cur.azAccountKey),
                             sasURL := Keep(f.azBlob.sasURL, cur.azSASURL)))
    case GCSFilesystem => f.(gcs := f.gcs.(credentials := Keep(f.gcs.credentials, cur.gcsCredentials)))
    case CryptedFilesystem => f.(crypt := f.crypt.(passphrase := Keep(f.crypt.passphrase, cur.cryptPassphrase)))
    case SFTPFilesystem =>
      f.(sftp := f.sftp.(password := Keep(f.sftp.password, cur.sftpPassword),
                         privateKey := Keep(f.sftp.privateKey, cur.sftpPrivateKey)))
    case LocalFilesystem => f
  }

  /** How one secret field ends up: the supplied secret exactly when it is
      plain or empty, the stored one otherwise. */
  predicate Decided(supplied: Secret, stored: Secret, persisted: Secret) {
    && (!IsNotPlainAndNotEmpty(supplied) ==> persisted == supplied)
    && (IsNotPlainAndNotEmpty(supplied) ==> persisted == stored)
  }

  /** Applying the rule a second time with the same stored secrets changes nothing. */
  lemma UpdateEncryptedSecretsIdempotent(f: Filesystem, cur: StoredSecrets)
    ensures UpdateEncryptedSecrets(UpdateEncryptedSecrets(f, cur), cur) == UpdateEncryptedSecrets(f, cur)
  {
    var once := UpdateEncryptedSecrets(f, cur);
    var twice := UpdateEncryptedSecrets(once, cur);
    assert WithoutSecrets(twice) == WithoutSecrets(once);
    assert SecretsOf(twice) == SecretsOf(once);
    SecretsDetermine(twice, once);
  }

  /** A filesystem is its non-secret part together with its secrets. */
  lemma SecretsDetermine(a: Filesystem, b: Filesystem)
    requires WithoutSecrets(a) == WithoutSecrets(b) && SecretsOf(a) == SecretsOf(b)
    ensures a == b
  {
    assert a.s3 == b.s3 by { assert WithoutSecrets(a).s3 == WithoutSecrets(b).s3; }
    assert a.gcs == b.gcs by { assert WithoutSecrets(a).gcs == WithoutSecrets(b).gcs; }
    assert a.azBlob == b.azBlob by { assert WithoutSecrets(a).azBlob == WithoutSecrets(b).azBlob; }
    assert a.crypt == b.crypt by { assert WithoutSecrets(a).crypt == WithoutSecrets(b).crypt; }
    assert a.sftp == b.sftp by { assert WithoutSecrets(a).sftp == WithoutSecrets(b).sftp; }
  }

  /** A client that sends back the configuration it was shown, with the
      active provider's secrets encrypted or redacted, keeps the stored secrets. */
  lemma EchoedSecretsKeepStored(f: Filesystem, stored: Filesystem)
    requires f.provider == stored.provider
    requires forall s :: s in ActiveSecrets(f) ==> IsNotPlainAndNotEmpty(s)
    ensures ActiveSecrets(UpdateEncryptedSecrets(f, SecretsOf(stored))) == ActiveSecrets(stored)
  {
  }

  /** The secrets of the active provider, in field order. */
  function ActiveSecrets(f: Filesystem): seq<Secret> {
    match f.provider
    case S3Filesystem => [f.s3.accessSecret]
    case AzureBlobFilesystem => [f.azBlob.accountKey, f.azBlob.sasURL]
    case GCSFilesystem => [f.gcs.credentials]
    case CryptedFilesystem => [f.crypt.passphrase]
    case SFTPFilesystem => [f.sftp.password, f.sftp.privateKey]
    case LocalFilesystem => []
  }

  // ---------------------------------------------------------------------------
  // Users

  datatype TOTPConfig = TOTPConfig(enabled: bool, configName: string, secret: Option<Secret>)

  /** sdk.TOTPConfig{Enabled: false} */
  const DisabledTOTP: TOTPConfig := TOTPConfig(false, "", None)

  datatype RecoveryCode = RecoveryCode(secret: Secret, used: bool)

  datatype Filters = Filters(
    allowedIP: seq<string>,
    deniedIP: seq<string>,
    totp: TOTPConfig,
    recoveryCodes: seq<RecoveryCode>)

  datatype VirtualFolder = VirtualFolder(name: string, virtualPath: string)

  datatype User = User(
    id: int,
    username: string,
    homeDir: string,
    status: int,
    description: string,
    permissions: map<string, seq<string>>,
    fsConfig: Filesystem,
    filters: Filters,
    virtualFolders: seq<VirtualFolder>)

  /** A decoded request body: each field present in the JSON, or absent (a
      JSON null counts as absent). Inside a present configuration an absent
      secret arrives as the empty secret. */
  datatype FsBody = FsBody(
    provider: Option<Provider>,
    s3: Option<S3Config>,
    gcs: Option<GCSConfig>,
    azBlob: Option<AzBlobConfig>,
    crypt: Option<CryptConfig>,
    sftp: Option<SFTPConfig>)

  datatype FiltersBody = FiltersBody(
    allowedIP: Option<seq<string>>,
    deniedIP: Option<seq<string>>,
    totp: Option<TOTPConfig>,
    recoveryCodes: Option<seq<RecoveryCode>>)

  datatype UserBody = UserBody(
    id: Option<int>,
    username: Option<string>,
    homeDir: Option<string>,
    status: Option<int>,
    description: Option<string>,
    permissions: Option<map<string, seq<string>>>,
    fsConfig: Option<FsBody>,
    filters: Option<FiltersBody>,
    virtualFolders: Option<seq<VirtualFolder>>)

  /** The stored user with the fields updateUser clears before decoding:
      permissions, every provider configuration, the two-factor settings and
      the virtual folders. */
  function Cleared(u: User): User {
    u.(permissions := map[],
       fsConfig := u.fsConfig.(s3 := ZeroS3, gcs := ZeroGCS, azBlob := ZeroAzBlob, crypt := ZeroCrypt, sftp := ZeroSFTP),
       filters := u.filters.(totp := TOTPConfig(false, "", None), recoveryCodes := []),
       virtualFolders := [])
  }

  function DecodeFs(f: Filesystem, b: FsBody): Filesystem {
    Filesystem(b.provider.GetOr(f.provider), b.s3.GetOr(f.s3), b.gcs.GetOr(f.gcs),
               b.azBlob.GetOr(f.azBlob), b.crypt.GetOr(f.crypt), b.sftp.GetOr(f.sftp))
  }

  function DecodeFilters(f: Filters, b: FiltersBody): Filters {
    Filters(b.allowedIP.GetOr(f.allowedIP), b.deniedIP.GetOr(f.deniedIP),
            b.totp.GetOr(f.totp), b.recoveryCodes.GetOr(f.recoveryCodes))
  }

  /** JSON decoding into an existing value: present fields overwrite, absent
      ones keep what is there. */
  function Decode(u: User, b: UserBody): User {
    User(b.id.GetOr(u.id), b.username.GetOr(u.username), b.homeDir.GetOr(u.homeDir),
         b.status.GetOr(u.status), b.description.GetOr(u.description),
         b.permissions.GetOr(u.permissions),
         if b.fsConfig.Some? then DecodeFs(u.fsConfig, b.fsConfig.value) else u.fsConfig,
         if b.filters.Some? then DecodeFilters(u.filters, b.filters.value) else u.filters,
         b.virtualFolders.GetOr(u.virtualFolders))
  }

  /** The configuration the request leaves before the secret rule runs. */
  function RequestedFs(stored: User, b: UserBody): Filesystem {
    Decode(Cleared(stored), b).fsConfig
  }

  /** updateUser's merge: the user that gets persisted when `stored` is found
      under the URL's `username` and the request body decodes to `b`. */
  function MergeUpdate(stored: User, username: string, b: UserBody): (r: User)
    ensures r.id == stored.id && r.username == username
    ensures r.filters.totp == stored.filters.totp && r.filters.recoveryCodes == stored.filters.recoveryCodes
    ensures b.permissions.Some? && |b.permissions.value| > 0 ==> r.permissions == b.permissions.value
    ensures b.permissions.None? || |b.permissions.value| == 0 ==> r.permissions == stored.permissions
    ensures r.homeDir == b.homeDir.GetOr(stored.homeDir)
    ensures r.status == b.status.GetOr(stored.status)
    ensures r.description == b.description.GetOr(stored.description)
    ensures b.filters.None? ==> r.filters.allowedIP == stored.filters.allowedIP
    ensures r.virtualFolders == b.virtualFolders.GetOr([])
    ensures r.fsConfig == UpdateEncryptedSecrets(RequestedFs(stored, b), SecretsOf(stored.fsConfig))
    ensures b.fsConfig.None? || b.fsConfig.value.provider.None? ==> r.fsConfig.provider == stored.fsConfig.provider
  {
    var d := Decode(Cleared(stored), b);
    var u := d.(id := stored.id, username := username,
                filters := d.filters.(totp := stored.filters.totp, recoveryCodes := stored.filters.recoveryCodes));
    var u' := if |u.permissions| == 0 then u.(permissions := stored.permissions) else u;
    u'.(fsConfig := UpdateEncryptedSecrets(u'.fsConfig, SecretsOf(stored.fsConfig)))
  }

  /** The body a client sends when it echoes a user back unchanged. */
  function Echo(u: User): UserBody {
    UserBody(Some(u.id), Some(u.username), Some(u.homeDir), Some(u.status), Some(u.description),
             Some(u.permissions),
             Some(FsBody(Some(u.fsConfig.provider), Some(u.fsConfig.s3), Some(u.fsConfig.gcs),
                         Some(u.fsConfig.azBlob), Some(u.fsConfig.crypt), Some(u.fsConfig.sftp))),
             Some(FiltersBody(Some(u.filters.allowedIP), Some(u.filters.deniedIP),
                              Some(u.filters.totp), Some(u.filters.recoveryCodes))),
             Some(u.virtualFolders))
  }

  /** Sending a user back unchanged stores it unchanged. */
  lemma EchoUpdateKeepsUser(u: User)
    ensures MergeUpdate(u, u.username, Echo(u)) == u
  {
    var f := RequestedFs(u, Echo(u));
    assert f == u.fsConfig;
    var r := MergeUpdate(u, u.username, Echo(u));
    assert SecretsOf(r.fsConfig) == SecretsOf(u.fsConfig);
    SecretsDetermine(r.fsConfig, u.fsConfig);
  }

  // ---------------------------------------------------------------------------
  // Handlers

  datatype ApiError = InvalidTokenClaims | UserNotFound(username: string)

  /** updateUser: the admin named by the token claims must be known, and the
      user must exist; the result is the user that gets persisted. */
  function UpdateUser(admin: string, username: string, users: map<string, User>, b: UserBody): (r: Result<User, ApiError>)
    ensures admin == "" ==> r == Err(InvalidTokenClaims)
    ensures admin != "" && username !in users ==> r == Err(UserNotFound(username))
    ensures admin != "" && username in users ==> r == Ok(MergeUpdate(users[username], username, b))
  {
    if admin == "" then Err(InvalidTokenClaims)
    else if username !in users then Err(UserNotFound(username))
    else Ok(MergeUpdate(users[username], username, b))
  }

  /** The two users differ at most in their two-factor settings. */
  predicate SameBut2FA(a: User, b: User) {
    a.(filters := a.filters.(totp := b.filters.totp, recoveryCodes := b.filters.recoveryCodes)) == b
  }

  /** disableUser2FA: recovery codes dropped, TOTP disabled, nothing else touched. */
  function DisableUser2FA(admin: string, username: string, users: map<string, User>): (r: Result<User, ApiError>)
    ensures admin == "" ==> r == Err(InvalidTokenClaims)
    ensures admin != "" && username !in users ==> r == Err(UserNotFound(username))
    ensures admin != "" && username in users ==> r.Ok?
    ensures r.Ok? ==>
      && admin != "" && username in users
      && SameBut2FA(r.value, users[username])
      && r.value.filters.recoveryCodes == []
      && !r.value.filters.totp.enabled && r.value.filters.totp == DisabledTOTP
  {
    if admin == "" then Err(InvalidTokenClaims)
    else if username !in users then Err(UserNotFound(username))
    else
      var u := users[username];
      Ok(u.(filters := u.filters.(recoveryCodes := [], totp := DisabledTOTP)))
  }

  /** Disabling twice is disabling once. */
  lemma DisableUser2FAIdempotent(admin: string, username: string, users: map<string, User>)
    requires DisableUser2FA(admin, username, users).Ok?
    ensures var u := DisableUser2FA(admin, username, users).value;
      DisableUser2FA(admin, username, users[username := u]) == Ok(u)
  {
  }

  /** After 2FA is disabled, no update request can turn it back on. */
  lemma UpdateAfterDisableKeeps2FAOff(admin: string, username: string, users: map<string, User>, b: UserBody)
    requires DisableUser2FA(admin, username, users).Ok?
    ensures var u := DisableUser2FA(admin, username, users).value;
      var r := UpdateUser(admin, username, users[username := u], b);
      r.Ok? && r.value.filters.totp == DisabledTOTP && r.value.filters.recoveryCodes == []
  {
  }
}
