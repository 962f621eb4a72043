# iyuu-scan-login: the scan-login decision, modelled in Dafny

The package adds a "scan to log in" endpoint to a ThinkPHP application
(here the CRMEB shop back office). A client posts an encrypted, signed
`payload`, its `signature` and a `key`. The route `/iyuu/scan/login/:driver`
picks a login driver by name. The CRMEB driver decrypts the payload into a
login assertion carrying a password-style token hash. It then scans the
configured allow-list `account => tokens` for the first account that has a
token verifying against that hash, and logs that account in.

This project models the two decision procedures of that flow and proves what
they do on every input:

- `php.dfy`, module `Php`: the PHP primitives the code relies on. These are
  `empty()` on a string (true for `""` and `"0"`), `strtoupper`,
  `ctype_alnum`, a value-or-null type and a returned-or-thrown type.
- `matching.dfy`, module `Matching`: the double `foreach` over the allow-list.
  `FirstToken`, `FirstAccount` and `FirstMatch` are the specification. `Examined`
  lists the pairs `password_verify` is called on. `Scan` is the nested loop as
  a method, proved equal to `FirstMatch`.
- `crmeb.dfy`, module `CrmebDriver`: `Crmeb::handle`, `Crmeb::login` and
  `Crmeb::makeRsaCrypt`.
  - `Decide` is the pure decision up to the `login` call. It gives the stage
    reached and the ordered trace of collaborator calls (decrypt, allow-list
    read, each `password_verify`).
  - `Reply` is the response. `Trace` is the full call trace, `login` included.
  - The class `Crmeb` holds the admin table as a map. Its methods `Login` and
    `Handle` carry out the same steps imperatively and are proved against
    `LoginResult`/`AfterLogin` and `Reply`/`Decide`.
- `service.dfy`, module `Service`: the route closure of `Service::boot` as the
  pure function `Route`, `getAlias` as `Alias`, and the default `$bind` table.

The source calls `login` from inside the inner loop and returns at once.
`Crmeb.Handle` first runs `Scan` to find the account and then calls `Login`.
The calls happen in the same order and the responses are the same, and
`Decide`/`Trace` state that order call by call.

The decryption and decoding steps, `password_verify` and the login routine
are parameters of the model, so every property holds whatever they do.
`unseal` stands for `makeRsaCrypt` + `RsaCrypt::decrypt` +
`new WechatAccountRocket`, and any of the three may throw. In the model,
"X is never reached" means that X does not appear in the call trace. It also
means the response stays the same when that collaborator is swapped for
another one.

## Model

| member | source | states |
|---|---|---|
| `Php.Empty` | src/Driver/Crmeb.php:56-63 | `empty()` on a string holds exactly for strings shorter than two characters made only of '0', that is `""` and `"0"` |
| `Php.CtypeAlnum` | src/Framework/ThinkPHP/Service.php:60 | an accepted driver name is non-empty and holds no '.', '/' or '\\', so the alias it forms adds no further segment |
| `Php.ToUpper` | src/Driver/Crmeb.php:73 | `strtoupper` keeps the length and upper-cases exactly the ASCII letters a-z, character by character |
| `Matching.FirstToken` | src/Driver/Crmeb.php:77-78 | the inner loop's stopping point: no earlier token verifies against the hash, and the token at that position does, unless it is past the end |
| `Matching.AcceptsIff` | src/Driver/Crmeb.php:77-78 | an account accepts exactly when one of its tokens verifies |
| `Matching.FirstAccount` | src/Driver/Crmeb.php:76-85 | the outer loop's stopping point: no earlier account accepts, and the account at that position does, unless it is past the end |
| `Matching.FirstMatch` | src/Driver/Crmeb.php:76-85 | a match exists exactly when some (account, token) pair verifies; the matched account is the first accepting one in list order |
| `Matching.Pairs` | src/Driver/Crmeb.php:76-77 | all (account, token) pairs in the order of the two `foreach` loops; there are exactly as many as tokens over all accounts |
| `Matching.Examined` | src/Driver/Crmeb.php:76-86 | the pairs `password_verify` is called on: at most one call per configured token, and none exactly when no account has a token |
| `Matching.ExaminedShape` | src/Driver/Crmeb.php:76-86 | the pairs checked are all pairs of the earlier accounts, then the matched account's tokens up to the verifying one, nothing later; every pair when there is no match |
| `Matching.ExaminedUpToHit` | src/Driver/Crmeb.php:76-84 | when some account accepts, the checked pairs are all pairs of the accounts before it, then its tokens up to and including the first that verifies |
| `Matching.ExaminedAll` | src/Driver/Crmeb.php:76-86 | when no account accepts, every pair of the allow-list is checked |
| `Matching.NoPairVerifies` | src/Driver/Crmeb.php:76-86 | when no account accepts, no pair of the allow-list verifies |
| `Matching.ExaminedMissesBeforeLast` | src/Driver/Crmeb.php:76-86 | every checked pair except the last one fails to verify |
| `Matching.ExaminedEndsAtFirstAccount` | src/Driver/Crmeb.php:76-84 | the last checked pair verifies exactly when some account accepts, and it then belongs to the first accepting account |
| `Matching.ExaminedBounded` | src/Driver/Crmeb.php:76-86 | the checked pairs are a prefix of all pairs in account-major, token-minor order, and there are no more of them than tokens over all accounts |
| `Matching.ExaminedStopsAtHit` | src/Driver/Crmeb.php:76-86 | every checked pair but the last fails; the last one verifies exactly when there is a match, and it belongs to the matched account |
| `Matching.Scan` | src/Driver/Crmeb.php:76-86 | the nested loop with early exit returns exactly `FirstMatch`, the first accepting account in list order |
| `CrmebDriver.MissingField` | src/Driver/Crmeb.php:56-64 | the field checks pass exactly when none of payload, signature, key is empty; the payload is reported whenever it is empty, the signature whenever it is the first empty one |
| `CrmebDriver.Decide` | src/Driver/Crmeb.php:51-88 | `handle` up to `login`: no collaborator is called exactly when a field check fails, no `login` call is among the recorded calls, and `login` can only be chosen for an account of the allow-list |
| `CrmebDriver.Reply` | src/Driver/Crmeb.php:51-92 | a `success` response never carries `false`, and only arises when the decision reached `login` and `login` returned that very value |
| `CrmebDriver.Trace` | src/Driver/Crmeb.php:51-92 | the full call trace extends the decision's calls by at most one call, and ends with a `login` call exactly when the decision reached `login` |
| `CrmebDriver.Truthy` | src/Driver/Crmeb.php:80 | the only falsy value `login` can return is `false`; the session array always has entries |
| `CrmebDriver.Finish` | src/Driver/Crmeb.php:79-91 | the response to what `login` did: `success` with the value exactly when it returned something other than `false`; a thrown message is passed on as the failure |
| `CrmebDriver.Guard` | src/Driver/Crmeb.php:104-111 | the guard admits exactly a known, enabled account and yields its row; it refuses an unknown one with 400140 and a disabled one with 400595 |
| `CrmebDriver.LoginResult` | src/Driver/Crmeb.php:102-115 | `login` returns the issued session, which is truthy, exactly for a known, enabled account, and otherwise throws 400140 or 400595 |
| `CrmebDriver.AfterLogin` | src/Driver/Crmeb.php:104-114 | `login` keeps the set of admins and every other admin's row, and never changes the status of the logged-in one |
| `CrmebDriver.ListEmptyMessageText` | src/Driver/Crmeb.php:73 | the empty-list message `strtoupper('iyuu.scan_login') . ' list is empty'` is "IYUU.SCAN_LOGIN list is empty" |
| `CrmebDriver.MakeRsaCrypt` | src/Driver/Crmeb.php:166-173 | every crypt context uses the same private and public key files; its third argument is the caller's key |
| `CrmebDriver.MakeRsaCryptInjective` | src/Driver/Crmeb.php:166-173 | two contexts are equal exactly when the keys are; changing the key is the only difference between any two |
| `CrmebDriver.FieldChecksFirst` | src/Driver/Crmeb.php:55-64 | an empty field fails, naming the first empty one in the order payload, signature, key; no collaborator is called at all |
| `CrmebDriver.UnsealFailure` | src/Driver/Crmeb.php:66-91 | when decrypting or decoding throws, the response is a failure with that message; the only call is the decrypt with the fixed key files and the caller's key; `login` is not called |
| `CrmebDriver.EmptyAllowList` | src/Driver/Crmeb.php:71-74 | an empty allow-list fails with "IYUU.SCAN_LOGIN list is empty" after the decrypt and the list read, with no `password_verify` call |
| `CrmebDriver.FirstMatchWins` | src/Driver/Crmeb.php:76-85 | `login` is reached exactly when some pair verifies, then on the first accepting account; the trace shows exactly the verifications before it and one `login` call; the response is what `login` produced |
| `CrmebDriver.NoMatch` | src/Driver/Crmeb.php:76-88 | when no pair verifies, every pair is tried, `login` is never called, and the response is the fixed mismatch failure |
| `CrmebDriver.LoginAtMostOnce` | src/Driver/Crmeb.php:76-85 | on every input, a `login` call can only be the last call of the trace, on the account the decision chose, so there is at most one |
| `CrmebDriver.LoginOutcomes` | src/Driver/Crmeb.php:79-91 | after a match: a thrown exception gives a failure with its message, a falsy result gives `fail(400140)`, a truthy one gives `success` with the result |
| `CrmebDriver.LoginRules` | src/Driver/Crmeb.php:104-114 | an unknown account is refused with 400140 before the status check; a disabled one with 400595; the table is then unchanged; otherwise only that row changes, its `login_count` goes up by exactly one, the time and address are stamped, and the result is truthy |
| `CrmebDriver.OwnLoginIsNeverFalsy` | src/Driver/Crmeb.php:79-83 | with the driver's own `login`, the falsy-result branch `fail(400140)` at line 81 is never taken: the guard's refusal is passed on, and otherwise the response is `success` with the issued session |
| `CrmebDriver.Crmeb.constructor` | src/Driver/Crmeb.php:41-45 | the driver starts over the given admin table |
| `CrmebDriver.Crmeb.Login` | src/Driver/Crmeb.php:102-115 | the in-place login returns `LoginResult` of the old table and leaves the table as `AfterLogin`: unchanged on refusal, the matched row updated on success |
| `CrmebDriver.Crmeb.Handle` | src/Driver/Crmeb.php:51-92 | the imperative handler returns exactly `Reply` for the driver's own `login`; the table changes only when the decision reached `login`, and then as `login` changes it |
| `Service.Route` | src/Framework/ThinkPHP/Service.php:47-75 | the closure answers a preflight exactly for `OPTIONS`, its JSON errors are 400, 404 or 500, and it calls a driver's `handle` only for an alphanumeric name bound to a `Driver` class, returning that result |
| `Service.DefaultBind` | src/Framework/ThinkPHP/Service.php:25-27 | the default `$bind` has the one alias "iyuu.scan-login.driver.crmeb", and it makes a `Driver` class |
| `Service.Alias` | src/Framework/ThinkPHP/Service.php:88-91 | the alias is the prefix "iyuu.scan-login.driver." followed by the driver name, nothing more |
| `Service.AliasRoundTrip` | src/Framework/ThinkPHP/Service.php:88-91 | the driver name can be read back from its alias |
| `Service.DriverOfRoundTrip` | src/Framework/ThinkPHP/Service.php:19 | every string carrying the prefix is the alias of the name that follows it |
| `Service.AliasInjective` | src/Framework/ThinkPHP/Service.php:88-91 | distinct driver names give distinct aliases |
| `Service.RouteBranches` | src/Framework/ThinkPHP/Service.php:47-75 | the guard chain in order: `OPTIONS` gives 200 "ok" with the five CORS headers; a non-alphanumeric name gives 400; an unbound alias 404; a class not implementing `Driver` 500; otherwise exactly the driver's `handle` result |
| `Service.PreflightIgnoresDriver` | src/Framework/ThinkPHP/Service.php:48-57 | the preflight answer is the same for every driver name, binding table and driver |
| `Service.BadNameIgnoresBindings` | src/Framework/ThinkPHP/Service.php:60-62 | a rejected name's answer does not depend on the binding table or the driver, so nothing is looked up |
| `Service.DefaultBindServesOnlyCrmeb` | src/Framework/ThinkPHP/Service.php:25-27 | with the default `$bind`, "crmeb" reaches the CRMEB driver's `handle` and every other alphanumeric name gets 404 |

Some behaviour of the code is worth stating plainly:

- The message of any exception thrown inside the `try` reaches the client
  unchanged (`UnsealFailure`, `LoginOutcomes`). A decryption failure and a
  decode failure can therefore be told apart by their messages.
- The key files are opened through `makeRsaCrypt` on every request, inside
  the `try`. A missing or unreadable key file is a per-request failure with
  the exception's message, not a startup error.
- The allow-list is read and checked for emptiness only after the payload
  has been decrypted. When decryption fails, the client gets the decryption
  message even if the allow-list is empty.
- A field equal to `"0"` counts as empty, because PHP's `empty()` treats it
  so.

## Left out

- RSA decryption, signature checking and payload decoding (`RsaCrypt`, `WechatAccountRocket`): these classes are not part of this model and rely on OpenSSL. They form the `unseal` parameter, and no round-trip or signature soundness is asserted.
- `password_verify`: a foreign hashing primitive, taken as the `verify` parameter. Its constant-time behaviour cannot be expressed.
- `Config::get('iyuu.scan_login')`, `app()->make`, `app('json')` and `$request->postMore`: framework plumbing. They become the allow-list parameter, the response datatypes and the string fields of `Request`. A missing field (null) is taken as `""`, which `empty()` treats the same way.
- The allow-list is a sequence of (account, tokens) pairs with token lists. A PHP array keys its accounts uniquely, and a non-array `$tokens` entry would make `foreach` throw. The model allows repeated accounts and has no non-array entries.
- The second half of `login` (src/Driver/Crmeb.php:115-156): `save()`, `createToken`, menu loading, `Event::until`, `event(...)`, `sys_config` and `get_file_link`. All of these are database or external services. The saved table is the `admins` map. The issued session is the `issued` parameter. `time()` and the request address become the `now` and `ip` parameters.
- CrmebDriver.OwnLoginIsNeverFalsy: the modelled `login` throws only the two guard codes. The source's `login` can also throw from `save()`, `createToken`, menu loading or `event(...)` (src/Driver/Crmeb.php:98-100, 115-134). Such an exception reaches the catch at src/Driver/Crmeb.php:89-91 and becomes `fail` with its message, so with the real routine a match can also end in that failure. `Reply` and `LoginOutcomes` take `login` as a parameter and still cover a `login` that throws.
- CrmebDriver.Crmeb.Login: never throws past the guard. In the source, an exception from `createToken` or a later step leaves the row already saved (login time, address, count), and the response is a failure. The method does not model that.
- CrmebDriver.Session: the array `login` returns is reduced to the token and its expiry. The menus, user info, logo and site fields are not modelled.
- CrmebDriver.LoginRules: `login_count++` is stated on unbounded integers. The 64-bit overflow to float in PHP is not modelled.
- Exceptions carrying a numeric code (`AdminException(400140)`, `fail(400140)`) keep the code as their message. CRMEB's translation of codes into text is not modelled.
- `accountByAdmin` filters out deleted admins in CRMEB. The `admins` map stands for the admins that lookup can find.
- `makeRsaCrypt`'s file paths: `dirname(__DIR__, 2)` and `DIRECTORY_SEPARATOR` depend on the filesystem. The paths are kept relative to the package root, and the contents of the key files are not modelled.
- Route registration and `commands([...])`: the container's `bound`, `make` and `invokeMethod` become the binding map and the `handle` parameter. Building the actual `Response` object becomes the `Reply` datatype. `Service::register` is empty.
- `ctype_alnum` is modelled for the default C locale, where only ASCII letters and digits qualify.
