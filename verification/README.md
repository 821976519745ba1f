# SFTPGo: the Google Cloud Storage backend, SQL query builders and user-update merge, in Dafny

This project models three pieces of SFTPGo, a file-transfer server, and proves properties of them.

- **The GCS backend** (`vfs/gcsfs.go`). It makes a flat bucket of object keys look like a directory tree.
  - The bucket is an immutable sequence of object records: name, size, a deleted flag, content type and encoding, and update time.
  - A listing is a pure function of the bucket. With delimiter `/`, it yields the objects directly under the prefix, then one de-duplicated *common prefix* for every deeper key.
  - A listing can be made to break after a number of entries (`ListFault`), which models the iterator's error path.
  - Every operation is a pure function of the bucket and returns the backend requests it makes (list, copy, delete, write, read). This lets contracts say things like "no copy or delete happened".
  - Go's `path.Clean`, `path.Dir` and `path.Join` are written out as lexical functions (`Paths`).
- **The SQL query builders** (`dataprovider/sqlqueries.go`). Modelled parts:
  - the placeholder list;
  - the `IN (...)` id lists of the relation queries;
  - the quota update rule (overwrite on reset, add otherwise), executed on a table of quota rows.
- **The user-update rules of the REST API** (`httpd/api_user.go`). Modelled parts:
  - `updateEncryptedSecrets`, which decides which secrets survive an update;
  - the merge `updateUser` performs between the stored user and the decoded request body;
  - `disableUser2FA`.

Modules:
- `Results`: Option and Result.
- `Strings`: prefix, suffix, split, join and decimal numerals.
- `Paths`: Go's `path` package, lexically.
- `Bucket`: object records, listings, copy and delete.
- `GcsFs`: the backend's operations.
- `GcsFsPaths`, `GcsFsStat`, `GcsFsReadDir` and `GcsFsOps`: properties of those operations.
- `SqlQueries` and `ApiUser`.

Behaviour of the code worth noting:
- Mkdir reports success whenever Stat finds the name, even when it is a file.
- Symlink and Chtimes return "403 …" errors that classify as permission errors, rather than an "unsupported" error.
- After a listing failure, Walk's final callback call carries no FileInfo, rather than a directory FileInfo.
- `IsAtomicUploadSupported` is false.

## Model

| member | source | states |
|---|---|---|
| GcsFs.Join | vfs/gcsfs.go:516-518 | The result never starts with "/". A list of empty elements gives "". When `path.Join` produces an absolute path, the result is that path minus its leading "/"; otherwise it is exactly `path.Join`'s result. |
| GcsFs.ResolvePath | vfs/gcsfs.go:526-531 | An object key never starts with "/". |
| GcsFs.GetRelativePath | vfs/gcsfs.go:447-462 | The user path is always absolute. With a key prefix it is clean. A key outside the key prefix collapses to "/". |
| GcsFsPaths.RelativePathOfResolved | vfs/gcsfs.go:526-531 | For every valid key prefix, GetRelativePath undoes ResolvePath. A relative path, or an already clean absolute one, comes back as its cleaned absolute form. |
| GcsFsPaths.ResolveEscapesKeyPrefix | vfs/gcsfs.go:526-531 | Absolute input is not cleaned before it is joined to the key prefix, so "/../x" under the key prefix "k/" resolves to the key "x", outside the prefix. |
| GcsFsPaths.ResolvedKey | vfs/gcsfs.go:526-531 | The key of a clean absolute path, in all four cases of root or not, and key prefix or not. |
| GcsFsPaths.StatPrefixOfName | vfs/gcsfs.go:564-575 | Stat's listing prefix is the parent directory with one trailing "/" (or "" at the top). The name is that prefix followed by a single name. |
| GcsFs.Resolve | vfs/gcsfs.go:533-540 | The relative name plus the dropped "/" rebuilds the key minus the prefix. "Is a directory" holds exactly when that remainder ended in "/". |
| GcsFs.PrefixForStat | vfs/gcsfs.go:564-575 | The prefix is empty, or ends in "/" and is not absolute. |
| GcsFs.DirPrefix | vfs/gcsfs.go:303-311 | ReadDir's and Walk's prefix ends in "/". It is empty exactly for "" and ".". |
| GcsFs.StatScan | vfs/gcsfs.go:100-132 | Stat succeeds iff some listing entry is accepted, and the first accepted entry decides the answer. With no accepted entry, the error is the listing's own error, or "404 no such file or directory" when the listing completed. |
| GcsFs.Stat | vfs/gcsfs.go:81-133 | For "" or ".", it is a directory iff the bucket check succeeds, and otherwise reports that error. The key prefix's own directory is answered without any request. Every other name costs one delimited listing of its parent. |
| GcsFsStat.StatOfName | vfs/gcsfs.go:94-132 | With a complete listing, a clean name is found iff a live object has exactly that name or some key lies below "name/". It is a directory iff no live object has the name. Not found is the "404" error, which IsNotExist accepts. |
| GcsFs.IsNotExist | vfs/gcsfs.go:364-377 | No error is not "not exist". The client's object and bucket sentinels and an API 404 always are. Any other error is iff its message contains "404". |
| GcsFs.IsPermission | vfs/gcsfs.go:381-391 | No error is not "permission denied". An API 403 or 401 always is. Any other error is iff its message contains "403". |
| GcsFs.IsEqual | vfs/gcsfs.go:542-553 | A listed key matches a name exactly when the two are equal, or when one is the other followed by a single "/". |
| GcsFsStat.NotFoundIsNotExist | vfs/gcsfs.go:364-377 | The "404 no such file or directory" error is classified as not-exist and not as permission denied. |
| GcsFs.Lstat | vfs/gcsfs.go:136-138 | Lstat answers exactly as Stat does, since there are no links. |
| GcsFs.ReadDir | vfs/gcsfs.go:303-347 | Exactly one delimited listing request is made. The result is an error iff the listing broke. |
| GcsFsReadDir.ObjectEntries | vfs/gcsfs.go:331-343 | The listing's objects give exactly the file entries of live objects directly inside the directory. The directory's own marker and deleted objects are skipped. None of these entries is a directory. |
| GcsFsReadDir.PrefixEntries | vfs/gcsfs.go:328-330 | Common prefixes give one directory entry each, in listing order, named by the key segment without its "/". |
| GcsFsReadDir.ReadDirContents | vfs/gcsfs.go:303-347 | A complete listing succeeds. Its file entries are exactly the live child objects. `DirInfo(n)` is listed iff some key lies below `prefix + n + "/"`. Directory names are distinct. |
| GcsFs.Remove | vfs/gcsfs.go:242-260 | A file is one delete request. For a directory that lists entries, the result is a "Cannot remove non empty directory" error, with the bucket unchanged and no copy or delete. An empty directory deletes its marker key with "/" appended. |
| GcsFsOps.RemoveDirChecksEmptiness | vfs/gcsfs.go:243-254 | Removing a directory is refused with the non-empty error iff a live file sits directly in it or some key lies deeper. Otherwise the marker "name/" is deleted. |
| GcsFsOps.ListedIffEntries | vfs/gcsfs.go:303-347 | ReadDir lists something iff the directory has a live child file or a nested key. |
| GcsFs.Rename | vfs/gcsfs.go:202-239 | Identical names succeed with no request at all. A Stat error is returned with the bucket unchanged and no copy or delete. A directory goes through RenameDir. For a file, the first copy request is source to target. |
| GcsFs.RenameFile | vfs/gcsfs.go:225-239 | The first copy request of a file rename is source to target. |
| GcsFs.CopyThenRemove | vfs/gcsfs.go:225-239 | The first request after the earlier ones is the server-side copy from source to target. Nothing after it is another copy: the source is then removed. |
| GcsFs.RenameDir | vfs/gcsfs.go:210-224 | A directory that lists entries gets a "Cannot rename non empty directory" error, with no copy or delete. An empty one is copied marker to marker, with "/" on both keys. |
| GcsFsOps.RenameMovesFile | vfs/gcsfs.go:202-239 | Renaming an existing file succeeds. The target then holds the source's record under the new name, the source is gone, and no other name changes. |
| GcsFs.DeleteKey | vfs/gcsfs.go:255-259 | Deleting a key fails exactly when no live object has it. On success, no live object has it any more. |
| GcsFs.Create | vfs/gcsfs.go:172-195 | Once the upload completes, the name holds the new object and every other name is unchanged. |
| GcsFs.Mkdir | vfs/gcsfs.go:263-276 | Nothing is written when Stat finds the name. A Stat error other than not-found is returned. Otherwise an empty marker "name/" is written. |
| GcsFsOps.MkdirThenStat | vfs/gcsfs.go:263-276 | After Mkdir, Stat finds the name. It is a directory unless a file already had that name. |
| GcsFs.Open | vfs/gcsfs.go:141-169 | A ranged read (offset > 0) of a gzip-encoded object is refused with an error naming the offset, and no reader is returned. Offset 0 is never refused for that reason. A missing object is "object doesn't exist". |
| GcsFs.RunUntilError | vfs/gcsfs.go:486-508 | The callback sees the visits in order. It stops right after the first visit it rejects, and sees them all when it rejects none. |
| GcsFs.WalkVisitsAsWritten | vfs/gcsfs.go:486-512 | The calls before the last are exactly the visits the callback saw up to its first rejection. The last call is always with root. After a callback error, that call carries the directory FileInfo and no error, and the result is no error. The result is an error iff the listing broke after every visit was accepted; then it is the listing's error and the last call has no FileInfo. A complete listing always gives no error. |
| GcsFs.Walk | vfs/gcsfs.go:466-513 | One undelimited listing below root, and the callback is offered each live object in listing order until it first rejects one. A callback error is lost: the final call with root and the result carry no error. The result is an error iff the listing broke before the callback rejected anything, and then the final call has no FileInfo. Otherwise the final call carries the directory FileInfo of root. |
| GcsFs.WalkVisits | vfs/gcsfs.go:486-512 | The walk as evidently intended (see "Findings"), not the code as written. The last call with root carries the walk's result. A success means every visit was seen and accepted. A callback's rejection is the result. A missing FileInfo on the final call means the listing broke. Otherwise the final call carries the directory FileInfo of root, and always does when the listing completed. |
| GcsFs.WalkCorrected | vfs/gcsfs.go:466-513 | The walk as evidently intended (see "Findings"), not the code as written. It makes the same listing and callback calls as Walk. The result is no error iff the listing completed and the callback accepted everything. A rejection is returned with the directory FileInfo on the final call; otherwise the listing's error is returned. The final call lacks a FileInfo iff the listing broke before any rejection, and otherwise carries the directory FileInfo of root. |
| GcsFsOps.WalkCallbackErrorLost | vfs/gcsfs.go:487-512 | A bucket with one live object "a" is walked from root "" with a callback that rejects every call. Walk makes two calls and returns no error. WalkCorrected returns the callback's error. |
| GcsFs.ScanRootDirContents | vfs/gcsfs.go:402-431 | The count and total size are those of the live objects under the key prefix, as far as the listing got. The error is the listing's. |
| GcsFsOps.LiveCountIsVisits | vfs/gcsfs.go:417-424 | The scan's file count equals the number of objects Walk would visit. |
| GcsFsOps.LiveSizeIsVisitSizes | vfs/gcsfs.go:417-424 | The scan's total size equals the sum of the sizes Walk's visits report. |
| GcsFs.GetDirSize | vfs/gcsfs.go:435-437 | The result is always the "unsupported" error with zero counts. |
| GcsFs.Symlink | vfs/gcsfs.go:279-281 | The result is always an error classified as permission denied and not as not-exist. |
| GcsFs.Chtimes | vfs/gcsfs.go:297-299 | The result is always an error classified as permission denied and not as not-exist. |
| GcsFs.ForbiddenMessage | vfs/gcsfs.go:381-391 | A "403 …" message without a "4" in its text contains "403" and not "404". |
| GcsFs.Chown | vfs/gcsfs.go:285-287 | Silently accepted: no error of either class. |
| GcsFs.IsUploadResumeSupported | vfs/gcsfs.go:351-353 | Resumed uploads are not supported. |
| GcsFs.IsAtomicUploadSupported | vfs/gcsfs.go:355-360 | Atomic uploads are not supported. |
| GcsFs.GetAtomicUploadPath | vfs/gcsfs.go:441-443 | With neither resume nor atomic uploads, the atomic upload path is empty. |
| GcsFs.HasVirtualFolders | vfs/gcsfs.go:521-523 | Folders are virtual: they are emulated from key prefixes. |
| GcsFs.Chmod | vfs/gcsfs.go:291-293 | Silently accepted: no error of either class. |
| GcsFsOps.GzipOffsetReadsAsNotFound | vfs/gcsfs.go:376 | Because IsNotExist looks for "404" anywhere in a message, refusing a gzip ranged read at offset 404 is classified as not-exist. |
| SqlQueries.Placeholders | dataprovider/sqlqueries.go:20-30 | There are exactly 30 placeholders. The PostgreSQL and CockroachDB drivers get "$" followed by the 1-based position as a decimal numeral without leading zeros, all distinct; every other driver gets "?" everywhere. |
| SqlQueries.WriteIds | dataprovider/sqlqueries.go:94-104 | The builder loop writes "(" and the comma-separated decimal ids (non-zero ones only, if asked), or nothing when no id qualifies. |
| SqlQueries.KeyIdList | dataprovider/sqlqueries.go:94-109 | The list is `IdList` of the non-zero ids, or "(0)" when none qualifies. Parsing it back gives exactly those ids, or [0]. |
| SqlQueries.RelatedUsersForAPIKeys | dataprovider/sqlqueries.go:92-111 | The id list is exactly `IdList` of the keys' non-zero user ids in order, or "(0)" when there are none. It parses back to those ids, or [0]. Every non-zero user id of a key is in it. |
| SqlQueries.RelatedAdminsForAPIKeys | dataprovider/sqlqueries.go:113-132 | The id list is exactly `IdList` of the keys' non-zero admin ids in order, or "(0)" when there are none. It parses back to those ids, or [0]. Every non-zero admin id of a key is in it. |
| SqlQueries.PlainIdList | dataprovider/sqlqueries.go:263-274 | Every id, zero included, goes into the list. No ids give "" without parentheses. Parsing the list back gives the ids. |
| SqlQueries.RelatedFoldersForUsers | dataprovider/sqlqueries.go:262-278 | With users, the list is exactly `IdList` of their ids in order. It is "" iff there are no users. It parses back to the users' ids. |
| SqlQueries.RelatedUsersForFolders | dataprovider/sqlqueries.go:280-295 | With folders, the list is exactly `IdList` of their ids in order. It is "" iff there are no folders. It parses back to the folders' ids. |
| SqlQueries.ParseIdListRoundTrip | dataprovider/sqlqueries.go:103 | Reading a non-empty id list back yields the ids it was written from. |
| SqlQueries.UpdateQuota | dataprovider/sqlqueries.go:155-162 | A reset overwrites the used size and files. Otherwise the values are added. Both set the update time. Other rows are untouched, and an unknown key changes nothing. |
| SqlQueries.ApplyDeltasSums | dataprovider/sqlqueries.go:160-161 | A run of increments moves the counters by the sums of the deltas. |
| SqlQueries.IncrementsCommute | dataprovider/sqlqueries.go:253-254 | The same increments in any order leave the same rows. |
| SqlQueries.IncrementUndo | dataprovider/sqlqueries.go:160-161 | Adding a change and then its opposite restores the counters. |
| SqlQueries.SumsPermutation | dataprovider/sqlqueries.go:253-254 | The summed deltas do not depend on their order. |
| ApiUser.UpdateEncryptedSecrets | httpd/api_user.go:197-228 | Only the active provider's secret fields change. Each keeps the supplied secret iff it is plain or empty, and otherwise takes the stored one. Azure's and SFTP's two secrets are decided independently. Everything that is not a secret is untouched. The local provider is returned unchanged. |
| ApiUser.UpdateEncryptedSecretsIdempotent | httpd/api_user.go:197-228 | Applying the rule again with the same stored secrets changes nothing. |
| ApiUser.MergeUpdate | httpd/api_user.go:124-160 | The id is the stored id and the username is the URL's. TOTP and recovery codes are the stored ones. A non-empty permission map replaces the stored one; an absent or empty one keeps it. Absent scalar fields keep their stored values. Absent virtual folders become none. The filesystem goes through the secret rule against the stored secrets. |
| ApiUser.EchoUpdateKeepsUser | httpd/api_user.go:124-160 | Sending a user back unchanged stores it unchanged. |
| ApiUser.UpdateUser | httpd/api_user.go:101-170 | Missing token claims give InvalidTokenClaims. An unknown user gives UserNotFound. Otherwise the result is the merge of the stored user with the request, as MergeUpdate states. |
| ApiUser.DisableUser2FA | httpd/api_user.go:77-99 | The same two error cases as UpdateUser, and success otherwise. On success the recovery codes are empty, TOTP is the disabled zero configuration, and nothing else changes. |

## Left out

- I/O, the SDK client, deadlines, metrics and logging are not modelled. Each request to the bucket becomes a recorded `Call`. The bucket's answers come from the `Store` value: its objects, the bucket check's outcome and an optional listing fault.
- Listing pagination, and the partial results ReadDir hands back together with a listing error, are not modelled: a broken ReadDir is just its error.
- `NewGCSFs`, `Name`, `ConnectionID` and `CheckRootPath` are not modelled: construction, identity and the local filesystem are outside this model.
- GcsFs.Create: the streaming upload is taken as completed and not failing. The pipe, the goroutine, the storage class and the content-type detection are not modelled.
- GcsFs.Open: only the admission check is modelled; the download stream is not.
- GcsFsPaths.RelativePathOfResolved: the round trip is proved for relative paths and for clean absolute paths only. Unclean absolute paths that stay inside the key prefix ("/a/", "/a/./b", "//a") also come back as their cleaned form, but this is not proved, because ResolvePath hands them to `path.Join` uncleaned. Absolute paths whose ".." climbs above the root have no round trip: with the key prefix "k/", "/../x" is the key "x", outside the prefix (GcsFsPaths.ResolveEscapesKeyPrefix).
- GcsFs.Walk and GcsFs.ScanRootDirContents: the `SetAttrSelection` error path is not modelled, because its input is a constant field list.
- GcsFs.Walk: the `len(name) == 0` skip is not modelled, because `path.Clean` never returns "".
- Modification times are opaque (`ModTime`): "now" is a value, not a clock reading.
- `IsNotExist` and `IsPermission` recognise SDK sentinels and API status codes through an error tag. Everything else goes through the substring rules. The other providers' errors are not modelled.
- `errUnsupported` is defined outside `vfs/gcsfs.go`. It is modelled as an error tagged `Unsupported`.
- Integer ids and quota counters are unbounded. The 64-bit limits of `strconv.FormatInt` and of the SQL columns are not modelled.
- SqlQueries.UpdateQuota: the SQL text around the `SET` clause is a constant template and is not modelled. Neither are the other constant query templates of `dataprovider/sqlqueries.go`.
- SqlQueries.ParseIdList is the model's reader for the lists. It has no counterpart in the source and does not report syntax errors.
- The secret handling of `kms` is abstracted: `IsNotPlainAndNotEmpty` is a predicate over a four-valued status.
- Nil pointer secrets are not modelled. The secrets in a decoded body are non-nil after `SetEmptySecretsIfNil`, and an absent one arrives as the empty secret.
- JSON decoding is modelled field by field. A present field overwrites the value. An absent field keeps it, and so does `null` for a scalar or a struct. `null` for a list or a map sets it to nil, which this model writes as a present empty value (`Some([])`, `Some(map[])`). The wire format is not modelled.
- `disconnect` parsing, `disconnectUser`, response rendering, request size limits and the persistence call `dataprovider.UpdateUser` (including its validation) are not modelled: they are HTTP plumbing and storage.

## Findings

| source | as written | input that shows it | evidently intended | confidence | as-written member | corrected member |
|---|---|---|---|---|---|---|
| vfs/gcsfs.go:487-512 | The callback's error is assigned to the `err` declared by `attrs, err := it.Next()` inside the loop. So after `break`, the final callback call and the return value use the outer `err`, which is nil. | A bucket with one live object `a` and no key prefix, walked from root "" with a callback that returns an error for every call. (A walk from "/" lists prefix "/" and never visits `a`.) | The error that stopped the walk is passed to the final callback call and returned. | not executed; high | GcsFs.Walk over GcsFs.WalkVisitsAsWritten (exhibited by GcsFsOps.WalkCallbackErrorLost) | GcsFs.WalkCorrected over GcsFs.WalkVisits |
