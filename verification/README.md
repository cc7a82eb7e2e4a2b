# Xal-Tor-Ka: a verified model of the access gate

Xal-Tor-Ka stands in front of web services and decides, for every host, path and session, whether
NGINX may proxy a request. Two separate pieces of code have to tell the same story: the NGINX
configuration that the gate generates, and the `/validate` resolver that NGINX asks about gated
locations. This project models both over the same backend list and proves exactly when they agree.
Around that pair it models the state machines that decide who gets in (sessions, one-time codes, TOTP,
the login handlers), the grants and their editing form, and the gate's other stateful code.

| file | what it models |
|---|---|
| `Models.dfy`, `Paths.dfy`, `Ordering.dfy`, `Text.dfy` | entities, segment matching, Go's string order and sorts, trimming |
| `Matrix.dfy` | the resolver (`matrix/matrix.go`) |
| `Proxy.dfy`, `Generation.dfy` | the generator as a program from backends to a syntax tree, and what every generated configuration guarantees |
| `Ties.dfy`, `Keys.dfy` | services with equal ids; when NGINX takes two locations for the same |
| `Agreement.dfy` | NGINX's choice of a location over that tree, against the resolver |
| `Grants.dfy`, `RouteForm.dfy` | grant ids, inheritance, the rewrite of grants, the service form |
| `Access.dfy` | the `/validate` decision, comparing the checks of two routes, the listing |
| `Uri.dfy`, `Serving.dfy` | how NGINX normalises a path; what a location proxies after the check, and for whom |
| `Sessions.dfy`, `History.dfy`, `Otp.dfy`, `Totp.dfy` | session store and restarts, when a lookup finds a session, one-time codes, TOTP |
| `Login.dfy`, `Visits.dfy` | the login flow as a state machine; what each request answers and changes, logging in and out |
| `Scanner.dfy`, `Monitoring.dfy` | the concurrent port scan, the health checker |
| `Snapshots.dfy`, `Expand.dfy`, `Grouping.dfy`, `Certificates.dfy` | snapshot ring, `${VAR}` expansion, one-pass grouping, certificate rows |

Code that updates state is a class or a method with loops, proved against a specification function; the
lemmas are about those functions. Clocks, random ids and codes, password checks, binds, exchanges, probe
answers and the client-address test are parameters.

## Where the code and its documentation differ

- "Fail-closed" (`handlers/server.go:298-299`) holds for the route that the check finds, which need not be the
  route that is served. For all backends, names and paths, everyone a gated location proxies for is granted the
  route served exactly when the path that was sent resolves to nothing or to a route whose check covers it
  (`ServedIsGrantedIff`, `CoversIff`). Otherwise somebody gets through: without a session when the route checked
  is public (`AnonymousReachesGatedIff`), or from one list to another when both are gated. They come
  apart without an exact route or an alias in two ways. NGINX takes raw prefixes and the resolver takes segments: with "/" public and "/api" gated,
  "/apixyz" goes to the gated location, is checked as "/", and is proxied without a session, with no encoding
  involved (`RawPrefixIsReadApart`). And NGINX matches the normalised path while the check is given the request
  line as it was sent (`proxy/generate.go:191`): "/pub/../secret" is checked as "/pub" (`DotSegmentsAreReadApart`,
  `DotSegmentsChangeList`). On a segment boundary, with a path that NGINX matches as it was sent, nobody gets
  through whom the route served refuses (`PlainOnBoundaryIsGranted`, `MatchedAsSentIff`).
  `ProxiedRequestsAreEarned` promises the grant of the route served whenever the check covers it.
- The comments on `IPAllow` (`models/config.go:198-200`, `handlers/server.go:318-319`) say that the
  allow-list also restricts "public" services. The decision does, but a public location carries no
  `auth_request`, so NGINX never asks: `SamePathFollowsDecisionIff` states exactly this gap.
- A `www.` alias is written into the server block "also" to be answered (`proxy/generate.go:117`), but the
  resolver knows only the host itself. On the alias every gated location is a 403 and every public one is
  proxied although the decision is 403 (`AliasAgreesIff`, `AliasServesPublicOnly`).
- An exact route `= /x` is offered by the service form and written as a location, but the resolver never
  answers it, so such a request is decided by another route's rule (`ExactRouteNeverMatches`,
  `AsideNeverAgrees`).
- NGINX prefixes are raw and the resolver's are segments, so `/api` takes `/apixyz` in one and not in the
  other (`AgreementIff`, `RawPrefixDisagrees`); if the resolver's answer is public, whoever its allow-list
  does not refuse is let in through the gated location, as above. A route `/api/` is answered for `/api` by the resolver, while
  NGINX redirects that request or takes a shorter location (`SlashDisagrees`).
- "Output is deterministic" (`proxy/generate.go:42`) holds for every permutation when services with one host
  and one id are rendered alike (`ConfigIsOrderFree`). Two such services that each have an unreserved path
  of their own, and do not own "/", make the output depend on the input order (`TiedIdsShowInputOrder`); a
  service with reserved paths only need not (`ReservedPathsDoNotShow`). Equal ids take a services file edited
  by hand: `config/validate.go:83-86` refuses them at start and `handlers/admin.go:1484-1500` when a service is
  added, but `Reload` validates nothing. Ties with an owner of "/", or with a path that both declare, are not
  decided here.
- Duplicate locations are avoided by the text of the path. NGINX compares modifier class and name, so a route
  written `= /__auth`, `=/__auth` or `^~ /login` can be a second location of the same key, which NGINX
  rejects (`NoDuplicateLocationIff`, and `PlainPathsNoDuplicateIff` for ordinary spellings); and a `www.`
  alias may repeat another server's name (`NamesAreDistinctIff`).
- A logout deletes the session that the store knows (`handlers/login.go:137-143`). A process started without a
  session file does not know the sessions of an older file, so logging out there leaves them: a later process that
  opens the file lets the cookie in again. In every other reachable state the cookie is worthless from then on,
  whatever happens (`LogoutSignsOutIff`).
- The login page is reached from every gated location on the same name, unless a service writes an exact location
  `= /login` (`GatePathIsServedIff`).
- `cooldown` is documented as the minimum gap between two `Issue` calls for an email
  (`auth/otp.go:35-37`). A successful `Verify` forgets it (`IssueGrantedIff`, `CooldownIsForgotten`).
- A path with its own list and a trailing slash has a grant id that its descendants do not inherit
  (`TrailingSlashIff`). Two services share a grant, and a rewrite of one clears grants of the other, exactly
  when one id is the other followed by `#` and anything (`SharedGrantIff`, `OtherServicesAreKeptIff`).
- Snapshot names have a resolution of one second. The ring holds the last min(n - 1, 10) versions exactly when
  the saves that took them have different stamps (`BackupsAreLastVersionsIff`); a version whose snapshot is
  overwritten within its second is lost (`OverwrittenVersionIsLost`). Stamps are local time
  (`config/save.go:181`) and fall by an hour when daylight saving ends. The results about whole runs of saves
  assume stamps that do not fall; for any stamp, the snapshot just taken stays, and restoring it undoes the save,
  exactly when fewer than ten snapshots of its kind sort after it or nothing was changed (`FreshSnapshotStaysIff`, `RestoreUndoesSaveIff`).

## Model

| member | source | states |
|---|---|---|
| Paths.MatchesAreNested | matrix/matrix.go:84-93 | two canonical routes that match one request are nested in each other, and are the same path when equally long |
| Paths.MatchIsPrefix | matrix/matrix.go:84-93 | a segment match is always a raw prefix, so the resolver never matches more than NGINX could |
| Paths.SegmentMatchIff | matrix/matrix.go:84-93 | a canonical route matches exactly what begins with it and ends there or goes on with a slash; the root matches everything |
| Ordering.LeqIff | proxy/generate.go:64 | the order of hosts, ids and file names is decided at the first differing character, the smaller one first, and a prefix comes first |
| Matrix.Resolver.Set | matrix/matrix.go:31-37 | the backend set is replaced as a whole |
| Matrix.Resolver.Resolve | matrix/matrix.go:51-82 | the scan over all backends of the host answers the first longest match, and on failure the empty route with the host only if the host exists |
| Matrix.BestIsLongest | matrix/matrix.go:60-76 | the answer matches, no longer match exists, and there is no answer exactly when nothing matches |
| Matrix.ResolutionIsTopOfChain | matrix/matrix.go:48-82 | over canonical routes the answer is the top of the chain of matching routes of the host, and fails iff the chain is empty |
| Matrix.OtherHostsAreIgnored | matrix/matrix.go:64-67 | backends of other hosts never change an answer |
| Matrix.FrontBackendWins | matrix/matrix.go:68-75 | among declarers of one path the first in list order answers |
| Matrix.OrderIrrelevant | matrix/matrix.go:51-82 | with the same backends in any order the answer is the same if no path is shared |
| Matrix.OrderFreeIff | matrix/matrix.go:51-82 | every reordering of the backends keeps every answer exactly when no two backends of the host share a path |
| Matrix.ExactRouteNeverMatches | matrix/matrix.go:84-93 | a stored exact route matches no request path |
| Proxy.OrderGroup | proxy/generate.go:77-87 | the in-place sort and swap computes the group order, a permutation of the group |
| Proxy.WriteGatePaths | proxy/generate.go:214-231 | reserved locations are written, and recorded as seen, exactly when the group uses auth, with /admin only if nobody declares it |
| Proxy.WriteMember | proxy/generate.go:237-251 | one backend's routes extend locations, seen set and counter as the specification over all routes so far says |
| Proxy.WriteRoutes | proxy/generate.go:237-251 | the nested loop with its seen set writes one location per new path, numbered in order |
| Proxy.WriteServer | proxy/generate.go:105-251 | host-level settings from the primary, then the gate's own locations, the reserved paths and the routes |
| Proxy.GroupByHost | proxy/generate.go:53-63 | the map and the list hold, per host in first-appearance order, the servable backends in input order |
| Proxy.Generate | proxy/generate.go:43-69 | the whole generator equals the configuration that all lemmas of Generation and Agreement are about |
| Generation.ConfigIsOrderFree | proxy/generate.go:43-87 | every permutation of the backends generates the identical configuration, when servable backends that share host and id have the same routes, options, WAF and www setting |
| Generation.ServerOfBares | proxy/generate.go:105-251 | a server shows nothing of its backends but id, host, www, routes, options and WAF |
| Ties.TieLeads | proxy/generate.go:77-87 | of two services tied on host and id, neither owning "/", the group order shows which came first in the input, also after the primary is swapped to the front |
| Ties.TiedIdsShowInputOrder | proxy/generate.go:43-87 | for any list, two such services that are each the sole declarer of an unreserved path make some permutation generate a different configuration |
| Ties.ReservedPathsDoNotShow | proxy/generate.go:232-251 | the condition is needed: two services with equal settings, one with reserved paths only, are rendered the same in both orders |
| Generation.PrimaryIsLeastOwner | proxy/generate.go:71-87 | the first backend of a group is the least-id owner of "/", or the least id when nobody owns it |
| Generation.OthersStaySorted | proxy/generate.go:77-87 | behind the primary the group is the one sorted by id, with the primary's place taken by the first |
| Generation.PrimaryGivesTheSettings | proxy/generate.go:100-118 | names, TLS, options and WAF of a server are those of its primary, a backend of that host |
| Generation.RouteLocationAt | proxy/generate.go:237-251 | the k-th route location is numbered k and rendered from the first declarer of its path, with that member's options |
| Generation.LocationMembers | proxy/generate.go:214-251 | a server's gate locations are exactly its reserved paths, and each of its route locations is a declared, unreserved path rendered from the first declarer |
| Generation.PathsAndIndicesAreDistinct | proxy/generate.go:232-251 | no reserved or route path is written twice and the upstream variables are numbered apart |
| Generation.EveryPathIsCovered | proxy/generate.go:232-251 | every declared path has a location: the gate's if reserved, else one from its first declarer |
| Generation.AdminOwner | proxy/generate.go:206-231 | /admin belongs to the service that declares it, else to the gate iff a route is not public |
| Generation.GateLocationIff | proxy/generate.go:206-231 | the gate has a location exactly for /login, /auth/, /logout, /listing and /_xtk/, and for /admin unless a route is mounted there, and exactly on servers with a route that is not public |
| Generation.GatedServerHasLogin | proxy/generate.go:214-231 | a server with a gated location has the gate's login, auth, logout, listing and asset paths |
| Keys.NoDuplicateLocationIff | proxy/generate.go:180-256 | comparing modifier class and name as NGINX does, a server never has a location twice exactly when no declared path spells one of the four fixed locations (ACME, check, @login, @forbidden) or another declared or reserved path |
| Keys.PlainPathsNoDuplicateIff | proxy/generate.go:180-251 | over absolute paths and the form's "= /x" that is exactly: no route uses the ACME path or "= /__auth" |
| Generation.ServerAt | proxy/generate.go:64-69 | the i-th server is the one of the i-th host in sorted order |
| Generation.OneServerPerHost | proxy/generate.go:43-69 | each host with routes gets exactly one server, no other host gets one, and servers are sorted by host |
| Generation.NamesAreDistinctIff | proxy/generate.go:115-118 | no name is claimed by two servers exactly when no www alias is itself a served host |
| Agreement.GroupHits | proxy/generate.go:53-63 | the rendered group declares exactly the routes that the resolver scans for the host |
| Agreement.LookupIsHostServer | proxy/generate.go:64-69 | for every name, the lookup over the generated servers reaches the server of the name's owner (the host itself, or the host it is the www alias of unless it is served and written first), or none |
| Agreement.CompilerAgreesIff | proxy/generate.go:43-69 | for distinct paths, canonical, exact or ending in one slash, the location NGINX chooses carries the path, upstream, gate and options of the resolver's route (or both say no) exactly when that location is a prefix route met on a segment boundary and the request does not lack just the slash of a route |
| Agreement.AgreementIff | proxy/generate.go:214-251 | the same, decided on the input: they agree exactly when the host has no routes, or no exact location and no redirect takes the request, no route is the request with a slash, and every reserved, ACME or raw-only prefix of it is shorter than some matching route |
| Agreement.NameAgreesIff | proxy/generate.go:115-118 | for every name, also one that another server's www alias claims first: they agree exactly when the routes of the server's owner win the request, or it has none, and the resolver answers alike for the name and for the owner |
| Agreement.AsideNeverAgrees | proxy/generate.go:185-251 | a request that NGINX takes aside, by the check path, a route "= /x", or its own redirect to a proxied "/x/" or "= /x/", is never agreed on |
| Agreement.SlashDisagrees | matrix/matrix.go:84-93 | a request that lacks just the slash of a route is never agreed on |
| Agreement.AliasAgreesIff | proxy/generate.go:115-118 | on a www alias that is not served itself NGINX uses the host's locations while the resolver answers nothing, so they agree exactly on the requests that no location takes |
| Agreement.UnambiguousRequestsAgree | matrix/matrix.go:51-93 | requests on a boundary of every route that prefixes them, outside the gate's own paths, are always agreed on |
| Agreement.RootOwnerTakesTheRest | proxy/generate.go:71-76 | with an owner of "/" every such request reaches a route location of the host, on a boundary |
| Agreement.ApiIsRawPrefixOnly | matrix/matrix.go:84-93 | the documented example: /api prefixes /apixyz but does not match it |
| Agreement.RawPrefixDisagrees | matrix/matrix.go:84-93 | whenever the longest declared raw prefix of a request is no segment match, the two disagree |
| Agreement.BestIsFirstDeclarer | matrix/matrix.go:60-76 | the resolver's answer is the first declarer, in list order, of the winning path |
| Agreement.ChosenIsServed | proxy/generate.go:237-251 | for all backends, names and requests, a chosen route location carries upstream, gate and options of a route of the server's host, the first declarer of its path |
| Agreement.BoundaryIsAnswered | matrix/matrix.go:51-93 | on a boundary the route that the chosen location serves is the route the resolver answers |
| Agreement.DuplicatesAgreeIff | proxy/generate.go:232-251 | with paths declared more than once, the two agree on a boundary exactly when the first declarer in group order and the first in list order offer the same upstream, gate and options |
| Uri.MatchedAsSentIff | proxy/generate.go:191 | NGINX's decoding, merging of slashes and resolving of dot segments leaves a path as it was sent exactly when it has no "%", query, fragment, empty segment before the last, or dot segment |
| Serving.ProxyFollowsDecisionIff | proxy/generate.go:185-194 | with the path NGINX matches and the path it forwards to the check kept apart, for all backends, names and paths: a route location proxies only to the upstream of the route it serves, and exactly when the decision for the second path is 200, unless the route served is public and the decision is not 200; when the route checked is the route served, unless it is public and an allow-list refuses the client |
| Serving.SamePathFollowsDecisionIff | handlers/server.go:300-354 | on a boundary, when both paths resolve alike, the decision is followed exactly unless the route is public and an allow-list refuses the client |
| Serving.GatedProxyIsAnswered | proxy/generate.go:304-329 | for all backends, names and paths, a gated location proxies only on a 200, and only to the upstream of the non-public route of its host that it serves |
| Serving.ServeIff | proxy/generate.go:304-329 | a gated location redirects to the login on 401, refuses on 403 and proxies on 200; an open one always proxies |
| Serving.GatePathIsServedIff | proxy/generate.go:206-257 | for all backends, names and paths: where a location is gated, a request for one of the gate's paths on the same name reaches the gate exactly unless a service writes an exact location for it |
| Serving.AnonymousThroughGateIff | handlers/server.go:306-330 | without a session a gated location proxies exactly when the path as sent resolves to a public route whose allow-list does not refuse the client |
| Serving.AnonymousReachesGatedIff | handlers/server.go:306-330 | for all backends, names and paths, a route location proxies an anonymous request to a non-public route exactly when the path sent resolves to a public route that does not refuse the client |
| Serving.DotSegmentsAreReadApart | proxy/generate.go:191 | a service and a request for which this happens, in full: NGINX normalises the path sent to the gated one, the location chosen is gated, and it proxies without a session |
| Serving.RawPrefixIsReadApart | matrix/matrix.go:84-93 | a service with "/" public and "/api" gated and the request "/apixyz", in full: NGINX matches it as it was sent and off the boundary, and proxies it to the gated upstream without a session |
| Access.StatusIff | handlers/server.go:317-353 | each status in full over the rules as stored: 401 exactly if the allow-list lets the client in, the rule is authenticated, authorized or whitelist, and there is no complete session; 403 exactly for a refused client, an unknown rule, or a complete session without the grant; 200 otherwise |
| Access.StatusWithoutRoute | handlers/server.go:300-315 | without auth mode everything is 200; with it, what resolves to no route is 403 |
| Access.CoversIff | handlers/server.go:317-353 | a 200 for one route implies a 200 for another, for all clients, sessions and users, exactly when the first has an unknown rule, or the second has an empty or the same allow-list and is public, or authenticated beside a non-public one, or both are authorized under one grant |
| Serving.ServedIsGrantedIff | proxy/generate.go:304-329 | for all backends, names and paths, everyone a gated location proxies for would get 200 for the route served exactly when the path sent resolves to nothing or to a route whose check covers it |
| Serving.PlainOnBoundaryIsGranted | handlers/server.go:300-354 | on a boundary, for a path that NGINX matches as it was sent, the route checked is the route served, and everyone proxied would get 200 for it |
| Serving.DotSegmentsChangeList | proxy/generate.go:191 | a service with two own lists and a request, in full: a user on the first list only is proxied to the second path, whose decision is 403, though neither is public |
| Serving.AliasServesPublicOnly | proxy/generate.go:115-118 | on a www alias the decision is always 403, so exactly the public locations proxy |
| Access.OwnPathResolves | matrix/matrix.go:51-82 | a request for exactly the path of a prefix route resolves to that route |
| Access.EntersByRoute | handlers/server.go:327-353 | a complete session is answered 200 on a prefix route's own path exactly if its user is an administrator, the route is open, or the user holds the grant that governs it |
| Access.ListingSoundIff | handlers/server.go:445-455 | everyone who sees a service in the listing is answered 200 on some path of it exactly when a prefix route is open, or no route is and a prefix route inherits the service-wide grant |
| Access.HiddenIsEnteredByPathGrant | handlers/server.go:445-455 | whoever enters a service that the listing hides from them is no administrator and enters by the grant of a path, not of the service |
| Grants.GrantIDInjective | models/config.go:312-321 | for unrelated ids, or within one service, grant ids are equal exactly for the same service and the same path (the root spellings counting as one) |
| Grants.SharedGrantIff | models/config.go:312-321 | two services can share a grant exactly when one id is the other, or continues it after a "#" |
| Grants.ClearedPrefixIff | handlers/admin.go:1203-1223 | the prefix a rewrite clears reaches some grant of another service exactly when the ids are so related |
| Grants.EffectiveGrantID | models/config.go:326-346 | the loop with its best-so-far computes the governing grant |
| Grants.NearestOwnerIsNearest | models/config.go:323-346 | the path the scan ends with is the longest segment-ancestor with its own list, or the service when there is none |
| Grants.NearestIsUnique | models/config.go:323-346 | that ancestor is unique: it does not depend on the order of the routes |
| Grants.GovernedByNearestAncestor | models/config.go:323-346 | every prefix route, whatever other routes the service has, is governed by its nearest ancestor-or-self with an own list |
| Grants.OwnListIsLocal | models/config.go:323-346 | a new own list at q changes the grant of exactly the inheriting routes under q whose previous ancestor was shorter, and they all get q's |
| Grants.TrailingSlashIff | models/config.go:326-346 | the inherited id of a path equals its own id exactly when the path is the root or has no trailing slash |
| Grants.UserDirectory.constructor | auth/directory.go:21-25 | the directory holds the given users, later ones winning |
| Grants.UserDirectory.Get | auth/directory.go:28-33 | the user of an email, if present |
| Grants.UserDirectory.Replace | auth/directory.go:36-44 | the whole content is replaced by the list, every entry under its own email |
| Grants.UserDirectory.All | auth/directory.go:47-55 | a listing of the directory, each user once, in no particular order |
| Grants.CollectWanted | handlers/admin.go:1205-1214 | the inverted form holds, for every email, exactly the grants whose path lists it |
| Grants.RewriteUser | handlers/admin.go:1216-1229 | the user keeps what is outside the service's prefix with multiplicity, gains each wanted grant once, sorted |
| Grants.ApplyPathGrants | handlers/admin.go:1203-1232 | every user of the directory is rewritten that way and nobody is added or lost |
| Grants.HoldsIffListed | handlers/admin.go:1198-1202 | after the rewrite a user is authorized on a path iff submitted and listed for it |
| Grants.NoStaleGrant | handlers/admin.go:1198-1202 | no path grant of the service survives that the form did not give |
| Grants.OthersAreKept | handlers/admin.go:1219-1224 | every id outside the prefix keeps its multiplicity, except one more service id per root key that lists the user |
| Grants.OtherServicesAreKeptIff | handlers/admin.go:1219-1224 | every rewrite of a service leaves every grant of another to every user, with multiplicity, exactly when the ids are not related |
| Grants.RewriteIsIdempotentIff | handlers/admin.go:1203-1232 | saving the same form twice changes nothing exactly when no root key lists the user |
| Grants.ApplyServiceGrants | handlers/admin.go:1237-1270 | without the marker nothing changes; with it every user gains or loses the service id as ticked and keeps the rest in order |
| Grants.ServiceGrantIsReticked | handlers/admin.go:1250-1266 | nothing of a user but the service's grant changes: added once at the end if new, the list as it is if held and ticked, and without its occurrences, the rest in order, if unticked |
| Grants.RetickedCounts | handlers/admin.go:1250-1266 | the service is held exactly if ticked, and every other grant as often as before |
| Grants.SavedFormGoverns | handlers/admin.go:1190-1195 | whatever routes and keys the form has, after both rewrites a user is authorized on a prefix route iff listed under the key of its nearest own-list ancestor, or, when there is none, ticked for the service or listed under a root key |
| Grants.OwnerHasListIff | handlers/admin.go:1137-1153 | with one key for each route with an own list, the nearest ancestor has its key exactly when an owning route spells it without a final slash |
| Grants.PathGrantees | handlers/admin.go:727-743 | the emails shown for a path are exactly the holders of its grant, sorted, none for the root |
| Grants.FormShowsWhatWasSaved | handlers/admin.go:725-743 | reopening the form shows exactly the known users listed when it was saved |
| Grants.UnchangedFormIff | handlers/admin.go:1203-1232 | saving a form as it was opened leaves a user unchanged exactly when the user's grants are sorted and hold the service's path grants once each, only for paths of the form |
| RouteForm.SplitJoinIff | handlers/admin.go:1000-1013 | split and join are inverse in both directions, with the exact condition for each |
| RouteForm.ResavedIff | handlers/admin.go:1137-1153 | a stored path survives opening and saving the form exactly unless a second exact marker was typed |
| RouteForm.StoredForms | handlers/admin.go:1000-1013 | a typed path is stored trimmed, behind the marker if it is typed or selected, and an empty one is dropped |
| Text.TrimSpaceCuts | handlers/admin.go:1000-1013 | trimming cuts off white space at both ends and nothing else |
| Sessions.MemoryStore.constructor | auth/session.go:43-56 | a persistent store starts with the sessions of its file, another one empty |
| Sessions.MemoryStore.Create | auth/session.go:59-71 | stores a fresh incomplete session seen now and writes the file; a failed random source changes nothing |
| Sessions.MemoryStore.Get | auth/session.go:75-93 | misses, evicts the expired one in memory and file, or refreshes the time last seen in memory only |
| Sessions.MemoryStore.Complete2FA | auth/session.go:96-105 | marks the session if it exists, writes the file, and says whether it existed |
| Sessions.MemoryStore.Delete | auth/session.go:108-113 | removes the session from memory and file |
| History.GetHitsIff | auth/session.go:59-142 | over any run with any restarts, a lookup hits exactly when its id was created and neither deleted, missed nor lost in a restart since, within the lifetime, and within the idle limit of the last use the store knows; the session found is the one created, complete exactly if marked since |
| History.GetHitsWithoutRestartsIff | auth/session.go:75-93 | without restarts the last use is the latest lookup, or the creation |
| History.StoreIsHistory | auth/session.go:59-142 | in every state of every run memory and file hold exactly the sessions that the history says, with the time last seen that each knows |
| Sessions.StepKeepsInv | auth/session.go:59-142 | every operation and every crash keeps the file's sessions equal to the memory's up to an older time last seen |
| Sessions.FileTracksMemory | auth/session.go:59-142 | over whole runs, crashes included, file and memory differ in nothing but the time last seen |
| Sessions.GetSimulates | auth/session.go:75-93 | a lookup that succeeds in a store that may have restarted succeeds identically in one that never did, eviction included |
| Sessions.StepSimulates | auth/session.go:59-142 | every operation preserves the simulation between a restarting and a never-restarting store |
| Sessions.RestartsRefine | auth/session.go:59-142 | over any run with any number of crashes, whatever the restarting store grants the other grants identically; without an idle limit a persistent store's answers are equal |
| Sessions.RestartIsVisibleIff | auth/session.go:75-93 | the first lookup after a restart differs exactly when the idle limit has passed for the file's time last seen but not for the memory's |
| Sessions.DeletedStaysDeleted | auth/session.go:108-142 | from any consistent state, a session that Delete removed misses in every later run, crashes included, until its id is created again |
| Otp.OTPStore.constructor | auth/otp.go:38-43 | an empty store, with six digits when fewer than four are asked for |
| Otp.OTPStore.Issue | auth/otp.go:48-58 | refuses within the cooldown of the stored entry, else replaces it |
| Otp.OTPStore.Verify | auth/otp.go:62-75 | succeeds on an unexpired entry with the code's digest and consumes it |
| Otp.StoreHoldsPending | auth/otp.go:48-75 | after any calls the store holds exactly the latest successful issue of each email that no verification consumed |
| Otp.VerifySucceedsIff | auth/otp.go:60-75 | a verification succeeds exactly for the latest unconsumed issue, within its lifetime |
| Otp.IssueGrantedIff | auth/otp.go:45-58 | an issue is refused exactly while an unconsumed one is younger than the cooldown |
| Otp.CodesAreConserved | auth/otp.go:48-75 | per email, successful verifications plus the pending code never exceed successful issues |
| Otp.LogIsSpaced | auth/otp.go:48-58 | in every run each successful issue keeps the cooldown to the one pending before it |
| Otp.RunIsRateBounded | auth/otp.go:48-75 | k successful issues with no successful verification between them span at least (k-1) cooldowns |
| Otp.CooldownIsForgotten | auth/otp.go:62-75 | after a success a second code may be issued at once |
| Totp.VerifyTOTP | auth/totp.go:22-36 | accepts iff the secret decodes to a nonempty key and one of the three tried counters gives the trimmed code |
| Totp.BigEndianRoundTrip | auth/totp.go:40-43 | the hashed counter block determines the counter |
| Totp.TruncateIsLow31Bits | auth/totp.go:44-46 | the four-byte read stays inside the MAC and yields its low 31 bits (section 5.3 of RFC 4226) |
| Totp.CodeIsSixDigits | auth/totp.go:46-47 | a code is six digits that read back as the truncated value modulo 10^6 |
| Totp.TriedIff | auth/totp.go:29-31 | the counter of s is tried at t exactly when their steps are equal or neighbours, also in the first step |
| Totp.WithinOneStepIsAccepted | auth/totp.go:20-36 | a code made at s is accepted at every t at most 30 s away (section 5.2 of RFC 6238) |
| Totp.TwoStepsAwayIsNotTried | auth/totp.go:20-36 | from 60 s away the counter is not tried and every hashed block differs from its |
| Totp.BetweenOneAndTwoSteps | auth/totp.go:20-36 | in between it depends exactly on the position of s in its step |
| Login.Server.CurrentSession | handlers/server.go:471-477 | the session of the cookie, refreshed |
| Login.Server.HandleLoginSubmit | handlers/login.go:42-102 | the handler, LDAP loop included, is the transition LoginSubmit |
| Login.Server.HandleCodeRequestSubmit | handlers/otp.go:43-62 | issues a code only for a known user and always answers the same |
| Login.Server.HandleCodeVerifySubmit | handlers/otp.go:66-94 | the handler is the transition CodeSubmit; the code is consumed even when creating the session fails |
| Login.Server.HandleOIDCCallback | handlers/oidc.go:102-156 | the handler is the transition OidcCallback; only a user provisioned with that provider gets a session |
| Login.Server.HandleTOTPSubmit | handlers/login.go:116-135 | the handler is the transition TotpSubmit on the presented session |
| Login.Server.HandleLogout | handlers/login.go:137-143 | the presented session is removed |
| Login.Server.HandleValidate | handlers/server.go:300-354 | the handler answers the decision over the resolver's answer and refreshes the session only where the rule needs one |
| Login.HappenKeepsInv | handlers/login.go:42-135 | every interleaved step, with handlers interrupted before Complete2FA, crashes into another configuration and reloads, keeps every complete session tied to evidence under its own id and email |
| Login.NewEvidenceIsEarned | handlers/login.go:42-135 | completing evidence is recorded only by a request that earns it: password with TOTP disabled, one-time code with TOTP disabled, LDAP bind, OIDC exchange for a provisioned user, or TOTP for the session's own user |
| Login.FactorSafety | handlers/login.go:42-135 | in every reachable state each 2FA-done session, in memory or file, was earned by a request of the run under the configuration then in force |
| Login.AdmittedSessionsAreEarned | handlers/server.go:327-353 | with auth mode now on every 200 on a route that needs a session carries an unexpired session that the run earned |
| Login.OkMeansGranted | handlers/server.go:327-353 | a 200 on a non-public route is for a route that needs a session, and on an authorized route its user is an administrator or holds the governing grant |
| Login.ProxiedRequestsAreEarned | handlers/server.go:300-354 | end to end, in every reachable state, for every host and path: what NGINX proxies through a gated location goes to the upstream of the route that location serves; if the check of the route that the sent path resolves to covers it, as when the two are one, for an unexpired session that the run earned, whose user is granted the route served and whose client its allow-list admits; and if the two are only not read apart, granted the route checked |
| Login.TwoFactorsEnter | handlers/login.go:42-135 | from any state the password alone gets 401 on a route that needs a session; with the TOTP code the unexpired session gets 200 exactly if its user is granted, else 403 |
| Visits.ValidateAnswers | handlers/server.go:300-354 | the handler answers the decision for the route the path resolves to and the session that the cookie presents within both limits |
| Visits.ValidateChanges | handlers/server.go:327-342 | the check changes nothing but the presented session, and that only where a login is asked for: seen now, or removed when past a limit |
| Visits.LoginRedirectIff | handlers/server.go:327-342 | a visitor is answered 401, and sent to the login by a gated location, exactly where the route needs a session, the allow-list lets the client in and the cookie presents no complete session |
| Visits.EntersIff | handlers/login.go:42-135 | a login handler goes on exactly for a request that earns a complete session |
| Visits.EarnedEnters | handlers/login.go:42-135 | and then that session stands, complete, for that user, and no other session changes |
| Visits.PasswordOpens | handlers/login.go:66-81 | a right password opens a session at once with TOTP disabled, and else asks for the TOTP code |
| Visits.BindOpens | handlers/login.go:87-105 | after a rejected password a directory that binds opens a complete session under the first such provider |
| Visits.CodeOpens | handlers/otp.go:66-94 | a right one-time code opens a session, complete with TOTP disabled, and is used up either way |
| Visits.ExchangeOpens | handlers/oidc.go:102-156 | a user provisioned with the provider that vouches gets a complete session under it |
| Visits.TotpCompletes | handlers/login.go:116-135 | a right TOTP code completes the presented session and changes nothing else of it but the time last seen |
| Visits.AsksForTotpIff | handlers/login.go:42-102 | the TOTP code is asked for exactly after a right password or one-time code while TOTP is on |
| Visits.RefusalsIff | handlers/login.go:42-135 | each page refuses for exactly its reasons |
| Visits.RefusalChangesNothing | handlers/login.go:42-135 | a refusal opens and completes no session, and touches no code but one asked for by a known user or submitted |
| Visits.CodeRequestIssues | handlers/otp.go:43-62 | a known user who is not cooling down gets a code that is right until it expires |
| Visits.CodeRequestTellsNothing | handlers/otp.go:43-62 | the answer does not depend on whether the user is known |
| Visits.LogoutChanges | handlers/login.go:137-143 | the presented session goes from memory and file, and every other session and all else stays |
| Visits.LogoutSignsOutIff | handlers/login.go:137-143 | in every reachable state, after a logout the cookie is answered as if there were none through every later run of requests, resumptions, crashes and reloads, until its id is drawn again, exactly unless the process has no file, does not know the session, and an older file holds it |
| Scanner.ClampIsFirstPorts | dockerscan/scan.go:21-37 | the clamped range is the first 2000 requested ports that exist, and narrowing is reported whenever a requested port is dropped for size |
| Scanner.StepKeepsInv | dockerscan/scan.go:48-70 | every step of the loop and of every goroutine keeps semaphore, dials and shared result consistent |
| Scanner.DialsAreBounded | dockerscan/scan.go:48-70 | under every schedule at most 100 dials are in flight and each port is dialled at most once, in range |
| Scanner.EveryStepDecreases | dockerscan/scan.go:55-71 | every step decreases a measure that is never negative |
| Scanner.SchedulesAreBounded | dockerscan/scan.go:55-71 | no schedule is longer than five steps a port |
| Scanner.StuckIffFinished | dockerscan/scan.go:55-71 | the scan never deadlocks: no step is enabled exactly when the wait returns |
| Scanner.ResultIsScheduleFree | dockerscan/scan.go:39-74 | whatever the completion order, the result is the ascending list of exactly the open ports of the clamped range, each dialled exactly once |
| Monitoring.Checker.DoProbe | health/checker.go:102-132 | records the observed state and notifies on a change of a known state |
| Monitoring.Checker.Tick | health/checker.go:82-100 | probes, in order, exactly the backends that are due |
| Monitoring.ObservedIff | health/checker.go:112-124 | a 2xx answer is up, any other down, and none unreachable |
| Monitoring.TickProbesTheDue | health/checker.go:82-132 | in a tick each backend is checked exactly if it has a URL and was never checked or its interval, 30 seconds by default, has passed, and its status is what its probe brought |
| Monitoring.ProbeKeepsInv | health/checker.go:82-132 | a due probe keeps notifications, recorded states and status of every backend in agreement |
| Monitoring.AlertsAreChanges | health/checker.go:82-132 | over any run of ticks a backend's notifications are exactly the consecutive changes of its recorded states, and its checks are at least its interval apart |
| Monitoring.ChangesTelescope | health/checker.go:129-131 | consecutive changes link to each other and lead from the first state to the last |
| Monitoring.AlertsLeadToCurrentState | health/checker.go:82-132 | the alerts of a backend link up and end at its recorded state |
| Snapshots.ConfigDir.PruneBackups | config/save.go:186-197 | removes exactly the snapshots of the kind with at least `keep` newer ones |
| Snapshots.ConfigDir.SnapshotAndPrune | config/save.go:169-184 | copies an existing live file under its stamped name and prunes; does nothing for an absent one |
| Snapshots.ConfigDir.Save | config/save.go:34-37 | snapshots, then replaces the live file |
| Snapshots.ConfigDir.RestoreSnapshot | config/save.go:218-243 | copies a known snapshot to the file of its kind, and fails without change otherwise |
| Snapshots.NamesSortAsStamps | config/save.go:181-193 | names of one kind sort as their stamps |
| Snapshots.GlobsOneKind | config/save.go:189 | a file is a snapshot of at most one kind |
| Snapshots.KindOfIff | config/save.go:218-243 | a name belongs to the one of the four kinds that it begins with, and to none otherwise |
| Snapshots.OtherKindUntouched | config/save.go:169-197 | a save of one kind leaves every snapshot of another kind alone |
| Snapshots.OwnSaveKeepsHeld | config/save.go:169-184 | a save keeps the state: its snapshot joins, or replaces that of its second, and the oldest leaves when there are more than ten |
| Snapshots.BackupsAreHeld | config/save.go:169-197 | after any saves of any kinds, with a clock that does not go back, the backups of a kind are the last ten names taken, each with the version before the last save of its second |
| Snapshots.BackupsAreLastVersionsIff | config/save.go:169-197 | the backups of a kind hold its last min(n-1, 10) previous versions, each in a file of its own, exactly when the saves that took them have different stamps |
| Snapshots.BackupsAreLastVersions | config/save.go:169-197 | in particular when no two saves that took a snapshot share their second |
| Snapshots.RestoreUndoesLastSave | config/save.go:218-243 | after any saves, restoring the snapshot of the last one undoes it exactly when fewer than ten sort after it or it changed nothing, which is always so with stamps that do not fall, also within one second |
| Snapshots.FreshSnapshotStaysIff | config/save.go:181-197 | for any stamp: after a save its snapshot is there, with the version replaced, exactly when fewer than ten snapshots of the kind sort after its name |
| Snapshots.RestoreUndoesSaveIff | config/save.go:218-243 | for any stamp: restoring the snapshot of a save undoes it exactly then, or when the save changed nothing |
| Snapshots.OverwrittenVersionIsLost | config/save.go:181-183 | a version whose snapshot is overwritten within its second is in no snapshot of its kind, unless another version had the same content |
| Expand.ExpandEnv | config/expand.go:11-26 | the index loop equals evaluating the tokens of the text one by one |
| Expand.ReferenceForms | config/expand.go:28-43 | NAME and NAME:-default mean what the documentation says, empty variables counting as unset |
| Expand.TokensIffSplit | config/expand.go:11-26 | the tokens are the one and only split of the text into literals and references closed at their first brace |
| Expand.UnclosedIsVerbatim | config/expand.go:11-26 | a text without a closed reference is copied, unclosed references included |
| Expand.TokensConcatIff | config/expand.go:11-26 | splitting commutes with concatenation exactly when the second text does not close a reference left open by the first |
| Expand.ExpansionConcat | config/expand.go:11-26 | expansion is compositional at every token boundary, so substituted text is never looked at again |
| Grouping.GroupOnePass | handlers/server.go:373-389 | the one-pass loop with its index map equals the specification: keys by first appearance, all items of a key together, unkeyed items alone |
| Grouping.FlattenPermutes | handlers/server.go:373-389 | grouping loses and invents nothing |
| Grouping.GroupsAreStable | handlers/server.go:373-389 | a keyed group is all items of its key in input order, an unkeyed group one item |
| Grouping.GroupsInFirstAppearanceOrder | handlers/server.go:373-389 | the heads of the groups are the unkeyed items and the first item of each key, in input order |
| Grouping.KeysAreDistinct | handlers/server.go:373-389 | no key heads two groups |
| Grouping.ScanHosts | handlers/admin.go:126-133 | the two maps hold the first hosting site and the number of services of every host |
| Grouping.GroupServiceBackends | handlers/admin.go:125-172 | the services grouped by site or shared domain with labels for their group, a lone service keeping its full name |
| Grouping.SiteOfIff | handlers/admin.go:134-147 | a service stands under its own site, else under the site of its host, else under the host when another service shares it |
| Grouping.HostSiteIsFirst | handlers/admin.go:126-133 | the site of a host is that of the first service on it that has one |
| Grouping.LabelIff | handlers/admin.go:174-190 | inside a group a service shows its vhost, or its name without the header and a slash; outside, its full name |
| Grouping.RelabelledAt | handlers/admin.go:161-170 | a lone service is shown in full and nothing else changes |
| Grouping.SharedHostIsOneGroupIff | handlers/admin.go:119-124 | the services of a shared host appear under one header exactly when no two hosting sites claim it |
| Grouping.GroupTiles | handlers/server.go:373-389 | the listing's tiles grouped by site |
| Grouping.AuthzTree | handlers/admin.go:783-815 | base backends, services and links grouped by hosting site |
| Grouping.AuthzItemAt | handlers/admin.go:800-815 | base backends and links stand alone under their ids; a service with a site is titled by its vhost, or its id |
| Grouping.AuthzOffersAll | handlers/admin.go:800-815 | every base backend, service and link is offered once, in this order |
| Grouping.AuthzTreeKeepsItems | handlers/admin.go:783-815 | grouping the offers loses and doubles nothing |
| Certificates.RegistrableDomainIff | handlers/tls.go:87-96 | the domain is the host's one parent with exactly one dot, or the host itself when it has at most one |
| Certificates.RegistrableDomainIsIdempotent | handlers/tls.go:87-96 | a domain is its own domain |
| Certificates.CollectDomains | handlers/tls.go:102-110 | order and groups hold the rows by domain, in first-appearance order |
| Certificates.ArrangeGroup | handlers/tls.go:112-124 | a group on screen is the domain's own rows, then its subdomains marked and by host |
| Certificates.GroupTLSRows | handlers/tls.go:101-127 | the whole list equals the arranged groups, flattened |
| Certificates.ArrangeFacts | handlers/tls.go:112-124 | heads are unchanged rows of the domain; what follows is marked, sorted and never the domain itself |
| Certificates.ListingKeepsRows | handlers/tls.go:98-127 | every row is shown as often as it was given, up to indentation |
| Certificates.ListingIsIdempotent | handlers/tls.go:98-127 | grouping a grouped list changes nothing |
| Certificates.SubdomainOrderIsForced | handlers/tls.go:122 | for distinct hosts every correct sort gives the same group |

## Left out

- Agreement.CompilerAgreesIff: claims prefix and exact routes; regular-expression and `^~` locations, which an operator may type into a route path, and paths with characters that end an NGINX token are not interpreted.
- Agreement.AgreementIff: routes that end in several slashes, or are mounted on the ACME path, are not admitted; NGINX's redirect is modelled for the missing final slash of a proxied location, not for other redirects. Host names are compared exactly, as the resolver does; NGINX compares them without case and sends the check a lower-cased `$host`, so a service whose host has a capital letter gets 403 on every gated route.
- Agreement.LookupIsHostServer: a request to a name that no server claims selects none; NGINX's default server, which takes unmatched hosts, is not part of this model. Names are compared exactly: NGINX's case-insensitive comparison and its wildcard names, which a host like `*.example.com` would become, are not interpreted.
- Login.Server.HandleCodeRequestSubmit: the dashes that `randomDigits` returns when the random source fails are not distinguished from a drawn code.
- Serving.ProxyFollowsDecisionIff: holds for any pair of matched and sent path; `Uri` computes the first from the second as NGINX does by default, with merged slashes and ASCII bytes as characters, and refuses what NGINX answers 400.
- Access.ListingSoundIff: speaks of the decision; a path that the gate's own locations take is not reached through NGINX.
- Otp.OTPStore.Verify: codes are compared through an uninterpreted digest, so two codes with one digest count as equal.
- Certificates.GroupTLSRows: the sort of subdomains is modelled as a stable one; the source's may order rows with equal hosts differently.
- Monitoring.Checker.Tick: probe timeouts and overflow of very large intervals are not modelled.
- Totp.VerifyTOTP: Base32 decoding is an input, and HMAC-SHA-1 is an uninterpreted function with 20-byte results.
- NGINX text rendering, headers, WAF directives and custom snippets: options are carried as opaque values in the syntax tree.
- HTTP parsing, cookies, redirects, form limits, templates and audit logs: each handler is its decision and its state change.
- Login.HappenKeepsInv: what a handler reads of sessions, users and codes is one step, up to the interruption before Complete2FA; in the source they sit behind three locks taken in turn, and a reload can fall between them.
- Writes are assumed to succeed and to be atomic: `persistLocked` ignores write errors, and `mutateUsers` and the save functions have error paths that are not modelled.
- Slice aliasing between `UserDirectory.All` and the live directory: users are values, and nothing is claimed about a mutation that fails.
- `Reload`'s filter of disabled services and its merge of providers and OIDC clients: in runs, users and backends may be replaced by any others at any time, which includes every reload.
- `serviceUsers`, `tilesFor`, `HealthTargets`, `ListBackups` and the branch of the snapshot code without a backups directory: easy members.
- In-place rewriting by `CanonicalizeRules`: decisions canonicalise the rule they read, as `handleValidate` does.
- The agent, hosting extension, notifications, certificate manager, image handling and command line: mostly input and output.
