# rust-jobs: a Dafny model of the job runner's core

The job runner lets an authenticated caller launch a shell command as a job,
keyed by a caller-chosen UUID, and later act on it. This project models, in
Dafny, the parts of it whose logic can be stated and proved:

- the worker library's `Job::new` / `Job::start`: whitespace tokenisation of
  the command line (no quoting), the output file `"<id>.txt"` shared by
  standard output and standard error, and the collapse of every failure into
  `InvalidCommand(<command line>)` (module `Jobs`, with `Text`, `Uuids`,
  `JobErrors`);
- the job status value and its `Display` text (module `JobStatuses`);
- the HTTP handlers over the job registry, a map from identifier to job that
  starts empty (`JobsApi.JobRegistry`, with its `Create` and `Get` methods,
  and the stub `JobsApi.Delete`);
- authentication: the bearer-token request guard (`SecurityClaims`) and the
  hard-coded login, claims construction and secret selection
  (`SecurityControl`).

`create` and `get` do all their map work under the registry's write lock
(worker-api/src/api/jobs.rs:19 and :39), so the registry is a sequential class
whose methods each make one atomic change to its `jobs` map; `delete` never
takes the lock and never touches the map.

Things that are not part of this model are parameters: the operating system
(creating the file, cloning its handle, spawning and waiting for the child)
is one oracle `os` that answers a launch request; the worker library the
handlers are written against is used through the oracles `newJob` and `stop`
over an opaque job type `J`; JWT encoding and decoding are `encode` and
`decode`; the clock is `now`; the `WORKER_API_SECRET` environment variable is
`env`. The operating system's exit status is the type parameter of
`JobStatus`, and its text is the function `show`.

Notes on what the code does:

- `Job::new` waits for the child to finish before returning (worker/src/job.rs:45),
  so a job that is returned has already run; nothing is left running.
- The worker library's only error is `InvalidCommand`; a missing program,
  or any other operating-system failure, also yields
  `InvalidCommand(<command line>)` (worker/src/job.rs:22-23). There is no
  separate `CommandNotFound` or I/O error from `Job::new`.
- The worker library in worker/src has no owner, status or stop; the handlers are
  written against a different version of it (three-argument `new`, `stop`,
  `CommandNotFound`, `Unauthorized`), which is why they are modelled over
  oracles.
- The `GET /<id>` handler calls `stop`, not a status query.

Whitespace is Unicode's White_Space property, which is what Rust's
`char::is_whitespace`, `split_whitespace` and `trim` use. A UUID is sixteen
bytes whose text form is lower-case hexadecimal in groups of 8-4-4-4-12
digits, as the uuid crate's `Display` writes it. `JobErrors.Message` is the
error's `Display` text, "Invalid Job", independent of the command line.

## Model

| member | source | states |
|---|---|---|
| Text.SplitWhitespace | worker/src/job.rs:32 | every token produced is non-empty and contains no whitespace |
| Text.SplitWhitespaceKeepsCharacters | worker/src/job.rs:32 | the tokens, concatenated in order, are exactly the non-whitespace characters of the command line |
| Text.SplitWhitespaceEmptyIff | worker/src/job.rs:32-35 | there is no token exactly when the command line is empty or all whitespace |
| Text.SplitWhitespaceSkipsLeading | worker/src/job.rs:32 | leading whitespace does not change the tokens |
| Text.SplitWhitespaceFirstToken | worker/src/job.rs:33-36 | a token followed by whitespace or the end is split off whole as the first token |
| Text.SplitWhitespaceJoinSpaced | worker/src/job.rs:31-36 | tokens joined by single spaces split back into the same tokens, in order |
| Text.StripPrefix | worker-api/src/security/claims.rs:23 | gives the rest exactly when the string begins with the prefix, and prefix + rest is the string |
| Text.StripPrefixOfConcat | worker-api/src/security/claims.rs:23 | stripping p from p + t gives t |
| Text.LeadingWhitespace | worker-api/src/security/claims.rs:23 | counts the whitespace `trim` drops at the start: all of it is whitespace and the next character is not |
| Text.TrailingWhitespace | worker-api/src/security/claims.rs:23 | counts the whitespace `trim` drops at the end: all of it is whitespace and the character before is not |
| Text.Trim | worker-api/src/security/claims.rs:23 | the result neither starts nor ends with whitespace |
| Text.TrimmedPadding | worker-api/src/security/claims.rs:23 | gives the whitespace `trim` removes before and after its result, so that the string is that whitespace + the trimmed form + that whitespace |
| Text.TrimDecomposes | worker-api/src/security/claims.rs:23 | every string is whitespace + its trimmed form + whitespace |
| Text.TrimStartPadded | worker-api/src/security/claims.rs:23 | whitespace followed by text not starting with whitespace: trimming the start leaves that text |
| Text.TrimEndPadded | worker-api/src/security/claims.rs:23 | text not ending with whitespace followed by whitespace: trimming the end leaves that text |
| Text.TrimPadded | worker-api/src/security/claims.rs:23 | trimming whitespace-padded text with no edge whitespace gives that text back |
| Uuids.Hex | worker/src/job.rs:37 | two characters per byte: for byte k, characters 2k and 2k+1 are the lower-case hexadecimal digits of its high and its low nibble |
| Uuids.HexInjective | worker/src/job.rs:37 | equal hexadecimal text means equal bytes |
| Uuids.ToString | worker/src/job.rs:37 | the text form is 36 characters with hyphens at positions 8, 13, 18 and 23 |
| Uuids.ToStringGroups | worker/src/job.rs:37 | characters 0-7 are the hexadecimal of bytes 0-3, 9-12 of bytes 4-5, 14-17 of bytes 6-7, 19-22 of bytes 8-9 and 24-35 of bytes 10-15 |
| Uuids.ToStringInjective | worker/src/job.rs:37 | distinct identifiers have distinct text forms |
| Uuids.ToStringPrefix | worker-api/src/api/jobs.rs:55 | the first two characters are the digits of the first byte |
| Uuids.ToStringStartsWith62 | worker-api/src/api/jobs.rs:55 | the text form starts with "62" exactly when the first byte is 0x62 |
| JobStatuses.Render | worker/src/job_status.rs:14-21 | the text is never empty and its first character tells the variant ('I', 'F' or 'D', each exactly for its variant); a `Done` text is "DONE(", the exit status's own text, then ")" |
| JobStatuses.RenderShapes | worker/src/job_status.rs:14-20 | `InProgress` renders as "IN_PROGRESS", `Failed` as "FAILED", `Done(s)` as "DONE(" + show(s) + ")" |
| JobStatuses.RenderDistinguishes | worker/src/job_status.rs:5-20 | equal renderings mean the same variant, and for `Done` the same exit-status text |
| JobStatuses.StillExecutingIffRendered | worker/src/job_status.rs:6-11 | a status describes a job still executing exactly when it is `InProgress`, which is exactly when it renders as "IN_PROGRESS" |
| Jobs.GetId | worker/src/job.rs:51-53 | the identifier returned, with the job's command line, rebuilds the job (and `Jobs.New` returns a job whose identifier is the one it was given) |
| Jobs.OutputFileName | worker/src/job.rs:37 | the name is 40 characters: the identifier's 36-character text followed by ".txt" |
| Jobs.OutputFileNameInjective | worker/src/job.rs:37 | distinct jobs never share an output file |
| JobErrors.Message | worker/src/job_error.rs:14-18 | the text is "Invalid Job" for every error, whatever command line it carries |
| Jobs.Start | worker/src/job.rs:30-48 | no program token: nothing is issued and the error is `InvalidCommand("")`; otherwise the request has the first token as program, the rest as arguments, and "<id>.txt" for both streams; success exactly when every step succeeds, else the failing step |
| Jobs.New | worker/src/job.rs:17-26 | success exactly when a request was issued and the child was spawned and waited for; the job then has the given id and command line and `get_id` returns the id; every failure is `InvalidCommand` with the original command line, including an empty or all-whitespace one |
| Jobs.LaunchRequestRoundTrip | worker/src/job.rs:32-41 | a program and arguments written with single spaces come back as the same program and arguments |
| Jobs.QuotesAreNotSpecial | worker/src/job.rs:31-32 | `echo "a b"` is split into `echo`, `"a` and `b"` |
| SecurityClaims.BearerToken | worker-api/src/security/claims.rs:23 | there is a token exactly when the header starts with "Bearer", and it has no edge whitespace |
| SecurityClaims.BearerTokenOfPadded | worker-api/src/security/claims.rs:23 | "Bearer", whitespace (possibly none), the token, whitespace: the token is found |
| SecurityClaims.BearerTokenIsTrimmedRest | worker-api/src/security/claims.rs:23 | every token found is the header after "Bearer" with only whitespace removed around it |
| SecurityClaims.FromRequest | worker-api/src/security/claims.rs:20-30 | success exactly when the first Authorization value has a bearer token that decodes, carrying the decoded claims; every failure is `Unauthorized` |
| SecurityClaims.NoBearerNoDecode | worker-api/src/security/claims.rs:21-29 | with no header, or one not starting with "Bearer", the outcome is `Unauthorized` whatever the decoder |
| SecurityClaims.OnlyFirstHeaderCounts | worker-api/src/security/claims.rs:21 | Authorization values after the first have no effect |
| SecurityControl.AsUsize | worker-api/src/security/control.rs:28-29 | the `as usize` cast keeps non-negative timestamps and wraps negative ones by 2^64 |
| SecurityControl.GetSecret | worker-api/src/security/control.rs:47-55 | the environment value if set, else "secret"; the warning is printed exactly when the secret is "secret", also when the variable holds "secret" |
| SecurityControl.UserId | worker-api/src/security/control.rs:10-20 | a subject exists exactly for "jorge" and "joel", and it is f14f83b7-c626-4255-9da4-cec1ac22b4a1 and c0e38e26-8364-4bac-aed0-f0463945557b respectively |
| SecurityControl.SessionClaims | worker-api/src/security/control.rs:22-30 | the claims carry the subject and the name; issue time and expiry are `now` and `now` + one day cast to `usize`; the expiry is one day after the issue time, except when `now` is negative and `now` + one day is not, where it is one day minus 2^64 after it |
| SecurityControl.Login | worker-api/src/security/control.rs:6-34 | an unknown name gets no token; only "jorge" and "joel" can ever get one |
| SecurityControl.DecodeToken | worker-api/src/security/control.rs:36-45 | decodes with the environment's secret when it is set and with "secret" otherwise |
| SecurityControl.LoginIssues | worker-api/src/security/control.rs:6-34 | unknown name: no token; known name: the token is the encoding, with `get_secret`'s secret, of claims with the user's subject and name whose issue time and expiry are `now` and `now` + one day cast to `usize` (so, for a non-negative `now`, issued now and expiring one day later) |
| SecurityControl.LoginIgnoresPassword | worker-api/src/security/control.rs:6-34 | the password does not affect the outcome |
| SecurityControl.LoginThenAuthenticate | worker-api/src/security/control.rs:22-45 | a login token is accepted by the guard within a day of its issue: with a codec that, at the request's time, decodes what it encoded under the same secret unless the claims have expired, "Bearer <login token>" is accepted with the logged-in user's subject and name |
| JobsApi.CreateErrorStatus | worker-api/src/api/jobs.rs:28-30 | `CommandNotFound` and `InvalidCommand` give BadRequest, every other error InternalServerError |
| JobsApi.StopStatus | worker-api/src/api/jobs.rs:41-45 | Ok gives Ok, `Unauthorized` gives Forbidden, every other error InternalServerError |
| JobsApi.JobRegistry.constructor | worker-api/src/main.rs:13 | the registry starts empty |
| JobsApi.JobRegistry.Create | worker-api/src/api/jobs.rs:15-33 | a taken id: Conflict, map unchanged, `Job::new` not called; a fresh id: `Job::new` is called once with the caller's subject as owner, and on success the id maps to the new job with nothing else changed, on failure the map is unchanged; keys only grow |
| JobsApi.JobRegistry.Get | worker-api/src/api/jobs.rs:36-49 | an absent id: NotFound, map unchanged; a present id: `stop` with the caller's subject is applied to that entry only and its result mapped to a status; no key is added or removed |
| JobsApi.Delete | worker-api/src/api/jobs.rs:52-60 | never touches the registry; Ok exactly when the id's first byte is 0x62 (its text starts with "62"), else NotFound |
| JobsApi.CreateTwice | worker-api/src/api/jobs.rs:19-26 | a second creation of an id that was just created, or already taken, is a Conflict; at most that id is added |

## Left out

- Process spawning, file creation, handle cloning and `wait_with_output` are the single oracle `os`; the child's exit status and its output are not modelled.
- The `RwLock` and the panic of its `unwrap()` on a poisoned lock: `create` and `get` make their map changes atomically under the write lock and `delete` takes no lock, so the registry is sequential; the interleaving of their logging is not modelled.
- The job status and stop state machine and the owner check of the worker version the handlers call: no worker code for them is part of this model, so `newJob` and `stop` are oracles and the job type is opaque.
- The `jobs::get_output` route: its definition is not part of this model.
- JWT encoding and decoding (including the expiry validation of `Validation::default`), `Utc::now` and `env::var` are parameters; `SecurityControl.LoginThenAuthenticate` assumes the codec's round trip only for claims that have not expired at the request's time.
- Rocket routing, request guards other than the claims guard, and the JSON request and response shapes.
- The command-line client and the example program.
- Logging with `eprintln!`; of `get_secret`'s warning only whether it is printed is kept.
- The Authorization header's case-insensitive name matching is Rocket's: the guard is given the header's values in order.
