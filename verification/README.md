# Otter's data layer: authenticated GET with refresh-and-retry, and the hex-keyed cache

This project models the two pieces of logic in `utils/Data.kt` of the Otter
Android client for Funkwhale, and proves properties of them in Dafny.

- **`HTTP`** (`http.dfy`, `retry_machine.dfy`). `get` builds a GET. The GET
  carries `Authorization: Bearer <token>` unless anonymous mode is on. When
  the reply's status is 401, `get` drops the reply and calls `retryGet`.
  `retryGet` calls `refresh` once. `refresh` posts the stored username and
  password to `/api/v1/token` and stores the returned token. If the refresh
  fails, the result is `Failure(RefreshError)` and no further GET is made.
  Otherwise one more GET is built with the token just stored, and its result
  is returned as it came, even when it is another 401. The network is an
  input to the model: a script of replies to successive GETs and the outcome
  of the login POST. Every operation returns its result, the store it leaves
  behind and the calls it made, in order. `RetryMachine` restates the
  protocol as a small-step loop with a "refreshed already" flag. `HTTP.get`
  is proved equal to that machine run to completion, and the machine is
  proved to halt within three steps.
- **`Cache`** (`cache.dfy`, `hex.dfy`). The file name of a logical key is the
  SHA-1 digest of the key rendered as lowercase hex. The rendering folds
  `"%02x".format(byte)` over the digest's signed JVM bytes. The cache
  directory is a map from file name to bytes, held in an `Option` that
  stands for the nullable Android `Context`. `set` overwrites the whole
  file. `get` returns the bytes, or null when there is no file. `delete`
  removes the file and returns whether it existed. With a null context all
  three return null and change nothing.

SHA-1 and the default-charset conversion of the key are one opaque
function, `Cache.Sha1`, which every cache operation takes as a parameter.
The hex rendering built on top of it is verified in full.

## Model

| member | source | states |
|---|---|---|
| Hex.Unsigned | app/src/main/java/com/github/apognu/otter/utils/Data.kt:74 | `%x` prints a byte as an unsigned value below 256 that equals the byte modulo 256 (a negative byte gains 256). |
| Hex.Format02x | app/src/main/java/com/github/apognu/otter/utils/Data.kt:74 | `"%02x".format(b)` gives exactly two lowercase hex digits. Read high then low, they spell the unsigned value of `b`. |
| Hex.Format02xIsPaddedToHex | app/src/main/java/com/github/apognu/otter/utils/Data.kt:74 | For every byte, the two-digit form equals Java's rule for `%02x`: `toHexString` of the unsigned value, zero-padded to width 2. |
| Hex.HexFold | app/src/main/java/com/github/apognu/otter/utils/Data.kt:74 | The left fold `acc + "%02x".format(it)` equals the accumulator followed by each byte's two digits in order, the right-fold rendering. |
| Hex.DigestHex | app/src/main/java/com/github/apognu/otter/utils/Data.kt:70-75 | The digest's rendering is lowercase hex, two characters per byte. |
| Hex.RenderPairs | app/src/main/java/com/github/apognu/otter/utils/Data.kt:74 | Characters `2i` and `2i+1` of the rendering are the two digits of byte `i`. |
| Hex.UnhexRender | app/src/main/java/com/github/apognu/otter/utils/Data.kt:74 | Reading the rendering back in digit pairs yields the original bytes. |
| Hex.DigestHexRoundTrip | app/src/main/java/com/github/apognu/otter/utils/Data.kt:70-75 | Decoding inverts the digest rendering. |
| Hex.DigestHexInjective | app/src/main/java/com/github/apognu/otter/utils/Data.kt:70-75 | Two digests render to the same string if and only if they are equal. |
| Cache.Key | app/src/main/java/com/github/apognu/otter/utils/Data.kt:70-75 | A file name is 40 lowercase hex characters that decode back to the key's SHA-1 digest. |
| Cache.KeyCollision | app/src/main/java/com/github/apognu/otter/utils/Data.kt:70-75 | Two logical keys share a file if and only if their digests coincide. |
| Cache.Set | app/src/main/java/com/github/apognu/otter/utils/Data.kt:77-82 | With a null context it returns null and leaves nothing behind. Otherwise it returns Unit. The key's file then holds exactly the value, the directory gains only that name, and every other file is unchanged. |
| Cache.Get | app/src/main/java/com/github/apognu/otter/utils/Data.kt:84-92 | It returns bytes if and only if there is a context and the key's file exists, and the bytes are that file's content. Otherwise it returns null rather than failing. |
| Cache.Delete | app/src/main/java/com/github/apognu/otter/utils/Data.kt:94-98 | With a null context it returns null and leaves nothing behind. Otherwise it returns whether the file existed, removes only that name, and leaves every other file unchanged. |
| Cache.NullContextIsNoOp | app/src/main/java/com/github/apognu/otter/utils/Data.kt:77-98 | With a null context, `set`, `get` and `delete` all return null and produce no directory. |
| Cache.SetThenGet | app/src/main/java/com/github/apognu/otter/utils/Data.kt:77-92 | After `set(k, v)`, `get(k)` returns `v`, including an empty `v`. |
| Cache.SetOverwrites | app/src/main/java/com/github/apognu/otter/utils/Data.kt:77-82 | Two `set`s on the same key leave what the second alone would leave. |
| Cache.SetFrame | app/src/main/java/com/github/apognu/otter/utils/Data.kt:77-92 | `set(k, v)` leaves `get(k2)` unchanged for every key `k2` whose digest differs from `k`'s. |
| Cache.DeleteThenGet | app/src/main/java/com/github/apognu/otter/utils/Data.kt:84-98 | After `delete(k)`, `get(k)` returns null, whether or not `k` was ever set. |
| Cache.DeleteAbsent | app/src/main/java/com/github/apognu/otter/utils/Data.kt:94-98 | Deleting a key that has no file changes nothing and returns false. |
| Cache.DeleteIdempotent | app/src/main/java/com/github/apognu/otter/utils/Data.kt:94-98 | A second `delete` leaves what the first left and returns false. |
| Cache.DeleteFrame | app/src/main/java/com/github/apognu/otter/utils/Data.kt:94-98 | `delete(k)` leaves `get(k2)` unchanged for every key `k2` whose digest differs from `k`'s. |
| Http.AuthHeaders | app/src/main/java/com/github/apognu/otter/utils/Data.kt:39-43 | A request has no header if and only if anonymous mode is on. Otherwise it has exactly one header, `Authorization: Bearer <stored token>`. |
| Http.Refresh | app/src/main/java/com/github/apognu/otter/utils/Data.kt:20-36 | It makes exactly one POST. It returns true if and only if the login reply decodes, and only then does it store the new token. On failure the store is unchanged. It never touches anonymous mode, the username or the password. |
| Http.RetryGet | app/src/main/java/com/github/apognu/otter/utils/Data.kt:54-66 | It makes exactly one refresh. If the refresh fails, the result is `Failure(RefreshError)`, the store is unchanged and no GET is made. Otherwise exactly one GET is made, built with the new token, and that GET's result is returned as it came. The store afterwards differs from the one before only in `access_token`, which holds the new token. |
| Http.Get | app/src/main/java/com/github/apognu/otter/utils/Data.kt:38-52 | It makes one or two GETs and at most one POST, and every GET follows the header rule. A first reply other than 401 is returned as it came, with one GET and the store unchanged. A 401 followed by a failed refresh gives `RefreshError` after one GET and one POST. A 401 followed by a successful refresh gives the retry's result after GET, POST, GET. |
| Http.RefreshErrorMeansRefreshFailed | app/src/main/java/com/github/apognu/otter/utils/Data.kt:47-66 | If no server reply is itself `RefreshError`, then `get` returns `RefreshError` if and only if the first GET drew a 401 and the refresh failed. |
| Http.RetryCarriesFreshToken | app/src/main/java/com/github/apognu/otter/utils/Data.kt:54-60 | Outside anonymous mode, the first GET carries the old token and the retry carries the token that `refresh` just stored. |
| Http.AnonymousSendsNoToken | app/src/main/java/com/github/apognu/otter/utils/Data.kt:38-66 | In anonymous mode no GET carries a header, whatever token is stored. |
| RetryMachine.Step | app/src/main/java/com/github/apognu/otter/utils/Data.kt:38-66 | Each step preserves the invariant that the GET counter matches the GETs in the trace and that a POST appears exactly when a refresh has happened. A step only extends the trace, adding at most one GET and at most one POST. A finished state stays finished, and any other state moves strictly closer to finishing. |
| RetryMachine.RunHalts | app/src/main/java/com/github/apognu/otter/utils/Data.kt:47-66 | From any reachable state the machine finishes within its remaining-step bound (at most three steps), and further steps change nothing, so the protocol cannot loop. |
| RetryMachine.GetIsMachine | app/src/main/java/com/github/apognu/otter/utils/Data.kt:38-66 | `HTTP.get` produces the same result, store and calls as the retry loop run to completion. The number of GETs that loop sends equals the number of GETs in the trace. |

## Left out

- URL normalisation (`mustNormalizeUrl`) is not modelled. The URL is an input, the same one for both GETs, and the login path is the constant `/api/v1/token`.
- The Fuel transport and Gson decoding are not modelled either. A reply is an abstract status code plus an already-decoded `Result`, and the login outcome is either decoded credentials or a failure. The `Server` script supplies both.
- Http.Get: it requires the script to hold at least two replies. The real network answers every request, and the model needs an answer for each GET that may be sent; at most two are read.
- `FuelError` is reduced to `RefreshError` or an opaque other cause. `FuelError.wrap` is not modelled.
- PowerPreference and `Settings` are one in-memory `Store`. `Settings.getAccessToken()` reads the same `access_token` that `refresh` writes. A missing username or password is whatever string the store holds.
- SHA-1 (`MessageDigest`) and the default-charset `toByteArray` are platform code. They form one opaque parameter, `Cache.Sha1`.
- Android `Context`, `File` and `BufferedReader` are a map from file name to bytes inside an `Option`. Decoding the reader's text is not modelled, so `get` returns the file's bytes.
- Filesystem failures are not modelled. A file either exists or does not. `writeBytes` failing on a full disk and `bufferedReader` failing on an unreadable file are not represented.
- Coroutine suspension and concurrent refreshes or cache writes are not modelled. Every operation is sequential.
- The string expression built and discarded inside `Cache.set` (Data.kt line 79) is not modelled, because it has no effect.

## Notes on the code

- `retryGet` returns the retry's result as it came (Data.kt:54-66). There is no separate error kind for a retry that fails again, not even for a second 401.
- `set` does not catch exceptions from `writeBytes` (Data.kt:77-82). The model has no write failures, so such an exception never arises in it.
- `get` returns a text `BufferedReader` over the file (Data.kt:84-92). The model returns the file's bytes.
