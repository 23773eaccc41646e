# rest-rego in Dafny

rest-rego is an authorizing reverse proxy: it strips reserved headers, authenticates the request, asks a
Rego policy, and forwards the request with the policy's answers as headers, while policies and
credentials are reloaded from disk under it. This project models the parts that carry state, caches or
transformations, and proves what holds of them in every run. `dafny verify dfyconfig.toml` checks all of it.

## What is proved, in the system's terms

**Hot reload** (`Debounce`, `DebounceRuns`, `FileCache`, `RegoCache`, `HotReload*`, `Locked*`). The file
cache, the debouncer and the policy cache are classes; their methods are proved against functions, and
the step machine `HotReload` is built from the same functions: disk changes, notifications, the watcher
loop, timers, throw-away reads, the initial scan, and any number of request and readiness threads.

- In every interleaving, read errors included, a clean entry without undelivered event is the disk
  content, and every installed or returned policy is the successful compile of bytes its file once had.
- A dirty entry is never stranded, unless the last callback that would reload it fails to read the file
  (with anything but not-exist); failed reads of requests, of throw-away reads, of callbacks that are not
  the last and of other names do no harm.
- A policy is installed exactly when the last GetRego call that compiled or dropped it compiled it.
- Convergence, name by name: whenever no event, timer, unread callback or scan is outstanding for a name and
  no call for it carries news, its policy is the compile of its disk content (if that compiles), gone (if the
  file is gone), or that of the last successful compile, in every run that spares the name three events: the
  failed read of the last callback that it still needs, a GetRego call that publishes over newer bytes with
  nothing left to put that right, and a throw-away read (`go c.Get`) that swallows an update. The three
  conditions are exact: the invariant behind convergence holds of a name throughout a run if and only if the
  run spares it the three. Each of the three is shown to happen by a run that breaks convergence while the
  other two are avoided, and the stuck and stranded states are shown to be permanent until the file changes
  again or, if stranded, is removed or requested.
- `SerialConvergence` gives a schedule that implies the three, and convergence while requests are being
  served: one GetRego at a time for the name, no failed read of it by a callback, and no throw-away re-read of
  it while it is compiled *or being compiled*. Then its policy has converged whenever no event, timer,
  callback or scan is outstanding for it, with any number of requests (for the same name too), probes and
  throw-away reads in flight. That compiling counts is necessary: by `RereadWhileCompilingHappens` a re-read
  during a first compile leads to the same stale policy.
- `LockedReload` splits the critical sections into lock, file read and effect over the three mutexes and
  is proved to refine `HotReload`, so all of the above holds for it; some thread can step at once unless
  only armed timers are left, every run of the proxy's own steps is bounded by a work measure, and it
  always comes to rest.

**Basic authentication** (`Htpasswd`, `BasicAuth`, `BasicAuthRace`). The loader equals "last accepted line
wins" and undoes printing, exactly for the maps that some file loads to. With calls and reloads as atomic steps the verification cache is invisible for
every history. Under every interleaving an accepted password passed bcrypt, in a move of the run that is
named, against a map that had been installed by then (not necessarily the current one), and the verdict was
stored at most one TTL before the acceptance; and an old generation can no longer be used one TTL after its
last call. Equality with bcrypt on the map a call holds fails in three ways: after a store by a call that
straddled a reload, at a lookup between the swap and the clear, and at a lookup by a call that still holds an
older map. Each has its exact condition and a run; without straddled stores and outside the swap, a call that
holds the current map is always answered as bcrypt does.

**Pipeline** (`RequestInfo`, `Headers`, `Router`). Reserved headers sent by a client have no effect on
anything (two-run non-interference), requests are handed on exactly when authentication raised no error
and the policy said `allow: true`, forwarded reserved headers are exactly the policy's, and the iteration
order of Go maps is irrelevant exactly when no two entries clash. Parsing has its round trips.

**JWT** (`Jwt`). The nested loops compute the first verifying issuer and audience. Each issuer is checked
with its own keys, and the provider is right whatever remote issuers and tokens do, exactly when startup
loaded every entry up to the last local issuer.

## Conventions

- Code outside the repository is a parameter: the policy compiler and environment expansion
  (`Toolchain`), bcrypt and the seeded hash (`Crypto`, assumed injective), base64 (`Codec`), fmt.Sprint,
  key sets and token verification (`Outside`), the provider and policy of a `Proxy`, and the results of
  file reads. Time is a number of milliseconds.
- `HotReload`: names are regular files that pass `shouldProcess`; a file is read in one piece; an fsnotify
  event with both a write and a remove flag is two events; extra notifications are allowed (`Echo`).
- `LockedReload`: inside `invalidate` all effects happen in one step once the needed locks are held (only
  their holder could see the difference). A `Get` counts as done when its file read happens.
- Go panics are outcomes: `TypePanic` for a multi-valued authorization header, `NilDereference` for a
  policy whose file is absent, `IndexPanic` for misaligned key sets.
- Documentation and code differ in one place that matters here: a comment in internal/router/policy.go
  speaks of URL rewriting, but the value only becomes the metrics label of the request; `Router` follows
  the code.

## Model

| member | source | states |
|---|---|---|
| Debounce.DelayedCallbacks.constructor | pkg/filecache/callbacks.go:20-27 | starts with nothing pending and no timer |
| Debounce.DelayedCallbacks.Add | pkg/filecache/callbacks.go:29-45 | stops the armed timer that is pending for the name, arms a new one one delay later and makes it the pending one; pending entries keep pointing at timers of their own name |
| Debounce.DelayedCallbacks.Closure | pkg/filecache/callbacks.go:39-44 | deletes the pending entry of its name, whichever timer that is, and then calls back |
| DebounceRuns.Conservation | pkg/filecache/callbacks.go:29-45 | in every run adds equal stopped plus live plus completed timers, a stopped timer has a later one of its name, nothing fires early |
| DebounceRuns.CallbackWaitsForDelay | pkg/filecache/callbacks.go:39-44 | the callback of an add begins no earlier than the time of the add plus the delay |
| DebounceRuns.AddCoalescesIffUnraced | pkg/filecache/callbacks.go:33-39 | an add leaves one live timer exactly when no closure of the name is already waiting for the lock |
| DebounceRuns.Coalescing | pkg/filecache/callbacks.go:29-45 | in every run with unraced adds each name always has at most one live timer |
| DebounceRuns.RaceLeavesTwoArmed | pkg/filecache/callbacks.go:40-42 | the race exists for every name and delay: after a closure has run, the two timers made since are both armed |
| DebounceRuns.BurstGivesOneCallback | pkg/filecache/callbacks.go:29-45 | at any point of any run where no timer of a name is live, a burst of adds with gaps below the delay gives exactly one callback, that of the last add |
| FileCache.Cache.Get | pkg/filecache/filecache.go:154-179 | clean entry: its bytes, not updated; otherwise the outcome of the read, with entry stored, removed or (on error) left as it was |
| FileCache.Cache.Invalidate | pkg/filecache/filecache.go:125-148 | the new map, whether the name is queued (not if already dirty) and whether a throw-away read starts |
| RegoCache.ScanPackage | pkg/regocache/rego.go:97-103 | the rest of the first line that starts with the package keyword, or nothing |
| RegoCache.PolicyCache.GetRego | pkg/regocache/rego.go:70-126 | result and both caches after a call, for every outcome of read, expansion, scan and compile |
| RegoCache.CompileIff | pkg/regocache/rego.go:91-124 | a policy compiles to a query exactly when expansion succeeds, the query is about the expanded text, asks for the non-empty package that its first package line names, and is accepted under the policy's name |
| Text.LinesLaw | pkg/regocache/rego.go:98 | the lines of a text, put together, are the text; each but the last ends in its only newline |
| RegoCache.PolicyCache.Validate | pkg/regocache/rego.go:133-144 | dereferences nil exactly when the file has to be read and is absent; fails exactly when a needed read or compile fails, changing nothing; otherwise evaluates the installed query |
| RegoCache.OnlySuccessReplaces | pkg/regocache/rego.go:80-125 | a failed expansion, scan or compile changes nothing; only absence removes and only a successful compile replaces |
| HotReload.StepKeepsSyncedIff | pkg/filecache/filecache.go:125-179 | a step keeps the five-part invariant of a name, which ties disk, events, file cache, timers, calls in flight and policy together, if and only if it is guarded for that name |
| HotReload.FaultKeepsSyncedIff | pkg/filecache/filecache.go:165-167 | a failed read breaks it exactly when it was the last callback of a name that still needs one |
| HotReload.PublishKeepsSyncedIff | pkg/regocache/rego.go:77-125 | the end of a GetRego call breaks it exactly when it installs or removes a query against newer bytes and no call in flight, timer or event puts that right |
| HotReloadTheorems.Coherence | pkg/filecache/filecache.go:154-179 | in every reachable state a clean entry without undelivered event is the disk content and Get equals a direct read, startup included |
| HotReloadTheorems.Provenance | pkg/regocache/rego.go:70-126 | every stored or returned query is the successful compile of content the file once had; a query goes away only if the file was once absent |
| HotReloadTheorems.InstalledIsLastCompile | pkg/regocache/rego.go:43-126 | a query is installed (and Ready says so) exactly when it is that of the last call that compiled or dropped the name |
| HotReloadTheorems.StepKeepsDirtyLiveIff | pkg/filecache/filecache.go:137-167 | a step strands a dirty entry exactly when it is the failed read of its last callback and no timer is live |
| HotReloadTheorems.DirtyIsNeverStranded | pkg/filecache/filecache.go:137-142 | in every run without such a step for the name, its dirty entry has a live timer or an unread callback, though dirty names are not queued again |
| HotReloadTheorems.AlwaysSyncedIffGuarded | pkg/regocache/rego.go:70-126 | a name stays in step throughout a run if and only if every step is guarded for it, whatever happens to other names |
| HotReloadTheorems.Convergence | pkg/regocache/rego.go:62-126 | in every run guarded for the name it is never stranded, and whenever nothing is outstanding for it (requests without news, probes and throw-away reads may be in flight) its policy is the compile of the disk content, gone with the file, or that of the last successful compile with no removal since |
| HotReloadTheorems.QuietRequestSeesDisk | pkg/regocache/rego.go:70-126 | in every guarded run a request for a name with nothing outstanding gets the compile of the current disk content, or no policy if the file is gone |
| HotReloadSerial.SerialIsGuarded | pkg/regocache/rego.go:71-78 | one GetRego at a time, no failed callback read and no throw-away re-read while compiled or compiling imply the guards, name by name |
| HotReloadSerial.SerialConvergence | pkg/regocache/rego.go:70-126 | under that schedule a name has converged whenever no event, timer, callback or scan is outstanding for it, with any number of requests, probes and throw-away reads in flight |
| HotReloadTheorems.ThrowAwayReadExact | pkg/filecache/filecache.go:145-147 | the throw-away read keeps the machine in step exactly when it does not lose an update, and leaves the name stuck exactly when it does and no event or call with news is on its way |
| HotReloadTheorems.StuckForever | pkg/regocache/rego.go:86-89 | a stuck name keeps its outdated policy in every continuation that leaves its file alone |
| HotReloadWitnesses.LostUpdateHappens | pkg/filecache/filecache.go:145-147 | for all contents that compile differently, deleting and re-creating the file reaches a stuck state with the new content on disk and the policy of the old |
| HotReloadWitnesses.RereadWhileCompilingHappens | pkg/filecache/filecache.go:145-147 | with serial calls and no re-read of an already compiled name, a re-read during the first compile still reaches such a state |
| HotReloadWitnesses.StalePublishHappens | pkg/regocache/rego.go:71-78 | a request after startup that overlaps a reload ends quiescent with the policy of a deleted file |
| HotReloadWitnesses.ReadFaultStrands | pkg/filecache/filecache.go:165-167 | one failed read ends quiescent with a stranded entry, the new content on disk and the policy of the old |
| HotReloadWitnesses.StrandedForever | pkg/filecache/filecache.go:137-142 | without a request for it or its removal, nothing, and no number of later writes, reloads a stranded name |
| LockedReload.ActKeepsLocks | pkg/filecache/filecache.go:126-147 | lock ownership: who may hold which of the three mutexes, and in what state |
| LockedReload.ActRefines | pkg/filecache/filecache.go:154-179 | every act of the locked machine is one atomic step of HotReload or invisible there |
| LockedProgress.LockedRunRefines | pkg/filecache/filecache.go:66-179 | every locked run is a run of HotReload |
| LockedProgress.LockedCoherence | pkg/filecache/filecache.go:154-179 | coherence of the real file map whenever nobody is inside Get |
| LockedProgress.LockedConvergence | pkg/regocache/rego.go:70-126 | convergence of the real policy map whenever nothing is outstanding for the name, whatever other threads do and whichever locks are held |
| LockedProgress.LockedSerialConvergence | pkg/regocache/rego.go:70-126 | serial convergence said of the locked machine itself, with requests, probes and throw-away reads in flight |
| LockedProgress.LockedProvenance | pkg/regocache/rego.go:70-126 | every real policy is the compile of bytes once on the real disk |
| LockedProgress.NoDeadlock | pkg/filecache/callbacks.go:30-44 | in every reachable state with unfinished work some thread can step at once, or only armed timers are left and one fires when due |
| LockedProgress.AllThreadsFinish | pkg/filecache/filecache.go:126-178 | the number of further steps of the proxy is bounded by its work measure |
| LockedProgress.ComesToRest | pkg/filecache/filecache.go:66-179 | from every state, left alone, there is a run to rest |
| RequestInfo.SegmentsRebuildPath | internal/types/request.go:74 | joining the segments restores the path exactly when it starts with a slash |
| RequestInfo.TruncationLaw | internal/types/request.go:60-68 | the label is the root at level 0 and the path below it; above, a prefix of the path at a segment boundary with the first n segments, which grows with n and ends as the path |
| RequestInfo.PackHeaders | internal/types/request.go:78-85 | the header loop packs every header, in any order |
| RequestInfo.UnpackPack | internal/types/request.go:80-84 | packing can be inverted for all headers, and packs exactly single values as strings |
| RequestInfo.BuildInfo | internal/types/request.go:71-116 | the info, and a panic exactly for an authorization header that does not have one value |
| RequestInfo.InfoOfRequest | internal/types/request.go:71-116 | for every parsed request: verb, size and captured headers as they are, path and headers can be rebuilt, the label by level, an authorization exactly if the header is there, no identity or result yet |
| RequestInfo.BasicHeaderReachesInfo | internal/types/request.go:87-108 | user and password of a Basic header, in any spelling and spacing, are in the info |
| RequestInfo.BearerHeaderReachesInfo | internal/types/request.go:87-108 | so is the token of a bearer header, with no user |
| RequestInfo.ParsedKindAndToken | internal/types/request.go:88-95 | the first space ends the scheme; without one all is token |
| RequestInfo.BearerTokenIff | internal/types/request.go:131-143 | a token is found exactly in a header of the form scheme, space, token |
| RequestInfo.BasicRoundTrip | internal/types/request.go:87-108 | every colon-free user and any password are parsed back from their header (section 2 of RFC 7617) |
| RequestInfo.ParsedCredentialsExact | internal/types/request.go:96-106 | only a decodable Basic token gives credentials; the decoded text is exactly user, colon and password (or just the user), and the user has no colon |
| RequestInfo.KeyTextUnambiguous | internal/basicauth/htpasswd.go:100-108 | the text hashed for the cache identifies user and password |
| RequestInfo.BearerAgreesWithInfo | internal/types/request.go:131-143 | both parsers agree on bearer tokens (section 2.1 of RFC 6750) |
| Headers.CanonicalIdempotent | internal/router/cleanup.go:58 | canonical names are fixed points, so Del hits the delivered key |
| Headers.CanonicalKeepsPrefix | internal/router/router.go:157-158 | canonicalising keeps a name in the reserved namespace |
| Headers.CollectReserved | internal/router/cleanup.go:22-27 | exactly the reserved names |
| Headers.Capture | internal/router/cleanup.go:32-44 | the packed values of every listed name that has any |
| Headers.Message.Cleanup | internal/router/cleanup.go:19-63 | header map and captured headers after the handler |
| Headers.CleanupExact | internal/router/cleanup.go:51-59 | no reserved name survives exactly when each is the canonical form of one present; for delivered headers exactly the names without the prefix are left, unchanged |
| Headers.CaptureIsLossless | internal/router/cleanup.go:29-59 | kept and captured headers are disjoint and rebuild all headers but valueless reserved ones |
| Headers.InfoRebuildsHeaders | internal/types/request.go:78-113 | the policy input determines those headers |
| Headers.JoinItems | internal/router/router.go:144-152 | the builder loop is a comma join |
| Headers.ForwardEntry | internal/router/router.go:138-159 | one entry is set under its header name unless its text is empty |
| Headers.Forward | internal/router/router.go:136-161 | the loop applies every entry once, in some order |
| Headers.SharedHeaderIff | internal/router/router.go:157-158 | two token keys share a header exactly when equal up to case and underscore against hyphen |
| Headers.HeaderNameLaw | internal/router/router.go:157-158 | the prefix, then the key letter by letter up to case with a hyphen for every underscore |
| Headers.TextLaw | internal/router/router.go:139-156 | strings as they are, lists so that splitting at commas gives the items back, other values as they print |
| Headers.ForwardedAt | internal/router/router.go:137-160 | what each header holds after any order of the loop |
| Headers.ForwardStaysInNamespace | internal/router/router.go:136-161 | reserved headers are exactly the non-empty entries, all others unchanged |
| Headers.OrderIrrelevantIffNoClash | internal/router/router.go:137-160 | map order is irrelevant exactly when no two non-empty entries clash with different text |
| Router.ServePolicy | internal/router/policy.go:12-78 | computes the decision that the laws below are about |
| Router.Serve | internal/router/router.go:75-83 | the pipeline, in order, has only the specified outcomes |
| Router.ReservedHeadersHaveNoEffect | internal/router/cleanup.go:19-63 | two requests that differ in reserved headers only have the same info, decision and outcomes, with exposure off |
| Router.ForwardedIffAllowed | internal/router/policy.go:20-77 | a request is handed on exactly when authentication raised no error and the policy allowed it |
| Router.RefusalsHaveReasons | internal/router/auth.go:19-54 | which error of the provider and which answer of the policy give 401 (alone with a challenge), 503, 403, 500 or a panic, each exactly, and the info that goes with it |
| Router.ForwardedInfoIsThePolicys | internal/router/policy.go:59-77 | what is handed on has the policy's result and label, and otherwise the provider's info and the client's request |
| Router.ExposedInfoRebuildsHeaders | internal/router/cleanup.go:29-59 | with exposure on, the info gives back all headers but valueless reserved ones, the reserved ones apart |
| Router.ForwardedHeadersAreThePolicys | internal/router/router.go:132-165 | what is handed on has exactly the entries of the object the policy returned as reserved headers, and the client's other headers |
| Router.OutcomeIsUnique | internal/router/router.go:137-160 | without clashes a request has one outcome |
| Htpasswd.ParseLine | internal/basicauth/htpasswd.go:44-85 | which lines count, and their user and hash |
| Htpasswd.EntryIff | internal/basicauth/htpasswd.go:44-85 | a line counts exactly when, but for space around it, it is a user without colon, a colon and a bcrypt hash of cost 10 or more, and no comment |
| Htpasswd.Collect | internal/basicauth/htpasswd.go:38-86 | the line loop is a fold |
| Htpasswd.Load | internal/basicauth/htpasswd.go:31-98 | credentials or the error, read errors first |
| Htpasswd.LoadedMeansTheFile | internal/basicauth/htpasswd.go:31-98 | each user has the hash of its last accepted line, all hashes are bcrypt of cost at least 10, no-credentials exactly when nothing is accepted |
| Htpasswd.LoadedIsPrintable | internal/basicauth/htpasswd.go:42-97 | whatever a file holds, the loaded map is non-empty and each of its users and hashes survives being written as a line |
| Htpasswd.LoadUndoesPrintIff | internal/basicauth/htpasswd.go:31-98 | printing a map as one text, in any order, and loading it gives it back exactly when it is non-empty and printable throughout, that is, when some file loads to it |
| BasicAuth.Provider.VerifyPassword | internal/basicauth/htpasswd.go:111-129 | verdict and cache after a hit, a miss and a dropped store |
| BasicAuth.Provider.Authenticate | internal/basicauth/basicauth.go:74-102 | outcome, info and cache after a call |
| BasicAuth.Provider.Reload | internal/basicauth/watcher.go:20-32 | a good load swaps and clears, a failed one keeps everything |
| BasicAuth.VerdictLastsTwoMinutes | internal/basicauth/htpasswd.go:22-25 | a stored verdict answers for two minutes whatever the hash is by then, and not longer; a dropped one never |
| BasicAuth.DirectDecides | internal/basicauth/basicauth.go:74-115 | the right password, and nothing else, gives the user; a Basic request is let through exactly then, or in permissive mode if its user is empty or unknown; other requests pass as they are |
| BasicAuth.BasicRequestDecides | internal/basicauth/basicauth.go:74-102 | the same from the request's header on |
| BasicAuth.CachedIsDirect | internal/basicauth/htpasswd.go:111-129 | a cached call answers as bcrypt would, keeps the cache faithful and touches it only for a known user |
| BasicAuth.CacheRefinesNoCache | internal/basicauth/basicauth.go:74-102 | for every history of atomic calls, reloads, expiries and evictions the cache is invisible |
| BasicAuth.PasswordNeverReachesPolicy | internal/basicauth/basicauth.go:80-81 | whatever the request, no password is left for the policy, and a user only if known |
| BasicAuth.BasicPermissiveRelaxes | internal/basicauth/basicauth.go:83-115 | permissive mode admits what strict mode admits, otherwise without identity, and never a wrong password |
| BasicAuthRace.UndisturbedCallIsVerify | internal/basicauth/htpasswd.go:111-129 | a call whose steps are not interleaved gives the verdict and the cache of the atomic check |
| BasicAuthRace.AcceptedWasVerified | internal/basicauth/htpasswd.go:111-129 | under every interleaving an accepted pair passed bcrypt in an exhibited move of the run, against a map installed by then, and a later move stored its verdict at most one TTL before the acceptance |
| BasicAuthRace.TwoMinutesForgetAll | internal/basicauth/htpasswd.go:22-25 | in every run, once more than two minutes pass every lookup misses |
| BasicAuthRace.RevokedAfterTtl | internal/basicauth/watcher.go:27-30 | one TTL after the last call with an old map, acceptances rest on newer maps |
| BasicAuthRace.MisjudgedIff | internal/basicauth/htpasswd.go:113-120 | a lookup answers otherwise than bcrypt on the map its call holds exactly when an unexpired entry comes from a map with another verdict on the pair |
| BasicAuthRace.MisjudgedIffStraddled | internal/basicauth/htpasswd.go:111-129 | outside the swap, a call with the current map is answered wrongly exactly when a store that straddled a reload put in the entry, with another verdict |
| BasicAuthRace.UnstraddledMisjudgedIff | internal/basicauth/basicauth.go:87-95 | in every run without straddled stores, outside the swap, a lookup is answered otherwise than by bcrypt on the held map exactly when there is an unexpired entry and the current map differs on the pair; never for a call with the current map |
| BasicAuthRace.StoreMisleadsIff | internal/basicauth/htpasswd.go:124-127 | after a store the next call for a pair is answered wrongly exactly when it is that pair and the current map disagrees, which takes a straddling call |
| BasicAuthRace.SwapMisleadsIff | internal/basicauth/watcher.go:27-30 | between swap and clear the next call for a pair is answered wrongly exactly when an unexpired verdict differs from the new map's |
| BasicAuthRace.StoreKeepsCurrentIff | internal/basicauth/htpasswd.go:124-127 | a store keeps the cache about the current map exactly when its call did not straddle a reload |
| BasicAuthRace.CurrentUnlessStraddled | internal/basicauth/watcher.go:20-31 | in every run without such stores all cached verdicts are about the current map |
| BasicAuthRace.StaleAcceptHappens | internal/basicauth/basicauth.go:87-95 | after a straddling call and the clear, a new call that holds the new map has a revoked password accepted |
| BasicAuthRace.WindowAcceptHappens | internal/basicauth/watcher.go:27-30 | the same between swap and clear, in a run where no call straddles a reload |
| BasicAuthRace.LateLookupHappens | internal/basicauth/basicauth.go:87-95 | a call that still holds the old map gets the new map's verdict, with no straddled store and outside the swap |
| Jwt.LoadWellKnowns | internal/jwtsupport/jwt.go:105-155 | the loadable documents, in order |
| Jwt.LoadJwks | internal/jwtsupport/jwt.go:157-217 | the loadable key sets, in order |
| Jwt.WellKnownIff | internal/jwtsupport/jwt.go:106-154 | the list has exactly the configured non-empty URLs with a document, each with its key set URL |
| Jwt.KeysOfIff | internal/jwtsupport/jwt.go:164-214 | an entry's keys are those of its key set URL, if both URLs are files or both are not |
| Jwt.KeptInPlaceIff | internal/jwtsupport/jwt.go:164-216 | a loaded key set lands at its issuer's position exactly when nothing before it was skipped, and at a smaller one otherwise |
| Jwt.TryAudiences | internal/jwtsupport/jwt.go:261-295 | first verifying audience of an issuer, else its last error |
| Jwt.Search | internal/jwtsupport/jwt.go:244-296 | the nested loops compute the search |
| Jwt.SearchedIsFirst | internal/jwtsupport/jwt.go:240-296 | found exactly when some available issuer and audience verify the token, and then the first such pair |
| Jwt.LastIssuerDecides | internal/jwtsupport/jwt.go:298-321 | after a failed search the last issuer's error (its fetch error, or that of the last audience) alone decides in strict mode between rejected and unavailable; permissive mode lets the request on with its info unchanged |
| Jwt.Authenticate | internal/jwtsupport/jwt.go:219-322 | the answer for every kind of request |
| Jwt.StrictAdmitsIff | internal/jwtsupport/jwt.go:219-322 | strict mode lets through exactly requests without the header and verified tokens of the right kind, and refuses another kind, which permissive mode lets through as it is |
| Jwt.SystemErrorIff | internal/jwtsupport/jwt.go:301-303 | an error counts as the system's exactly when one of the three texts occurs in it |
| Jwt.AlignedIffLocalsLoaded | internal/jwtsupport/jwt.go:248-258 | each issuer is checked with its own keys, in range, exactly when every entry up to the last local issuer was loaded (for distinct key sets; if it was, for all) |
| Jwt.PanicIff | internal/jwtsupport/jwt.go:244-250 | the search indexes out of range exactly when no issuer before some local issuer without a position verifies the token |
| Jwt.ClaimsIffSomeoneVouches | internal/jwtsupport/jwt.go:219-322 | if every entry up to the last local issuer was loaded, claims are set exactly when some available issuer and audience verify a token of the right kind |
| Jwt.AlwaysRightIffLocalsLoaded | internal/jwtsupport/jwt.go:157-322 | that is so whatever remote issuers and tokens do, exactly under this condition |
| Jwt.SkipMisaligns | internal/jwtsupport/jwt.go:166-198 | one skipped local issuer is given the next one's keys, and the search falls off the list exactly for tokens that those keys do not verify |
| Jwt.JwtPermissiveRelaxes | internal/jwtsupport/jwt.go:226-321 | permissive mode is a pure relaxation of the search |

## Left out

- OPA evaluation, environment expansion, bcrypt, the seeded hash, base64, key sets and token verification: outside the repository; parameters here.
- Probability of hash collisions in the credential cache: the key is assumed injective.
- fsnotify itself, directory and symlink handling of `shouldProcess`, torn file reads, a failing ReadDir: the machine starts where the watcher delivers regular files.
- Asynchronous application of stores inside the cache library: a store happens at once or is dropped.
- Unicode case folding: `ToLower` and `EqualFold` are ASCII, so scheme names that fold outside ASCII are not covered.
- Algorithm labelling of keys in `PostFetch`: depends on how the key-set library treats a re-added key.
- internal/azure, internal/noauth, internal/config, internal/application, internal/metrics, cmd: case ladders and wiring that would only add easy members.
- Lines beyond the scanner's length limit: they are part of the scanner's failure flag.
- HTTP listeners, transports, the reverse proxy and the response tracker: the pipeline ends at the request handed on.
- FileCache.Cache.Invalidate: entries are values in the map, so the shared File pointer of the original is not modelled; no code keeps such a pointer outside the lock.
