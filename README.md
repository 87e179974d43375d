# Chat client core, modelled in Dafny

This project models the statable logic inside a Next.js/React chat client and proves properties
of it. The client logs users in against a REST backend, keeps their session alive with a
token-refresh interceptor, renders messages with `@user`, `@&role` and `@everyone`/`@here`
mentions, lets server owners manage roles, channels and members, and shows a mention feed.

The model covers these parts of the client:

- **Two refresh pipelines.**
  - `src/app/api/axios.ts` keeps a bearer token in memory and localStorage.
  - `src/utils/apiClient.ts` relies on cookies.
  - Each is a class whose fields are the module state (`isRefreshing`, the queue of parked requests, the token, the default header) plus the browser's localStorage (a map) and a redirect flag.
  - The request interceptor, the response interceptor and the two ways a refresh can settle are methods.
  - The single-flight invariant `Valid` is kept by all of them.
- **The session effects** of `login`, `handleOAuthLogin`, `logout` and `getUser` (`src/app/api/auth.api.ts`), acting on the bearer pipeline's store.
- **The avatar cache** of `src/api/profile.api.ts`: its profile cache, and the in-flight map that makes concurrent callers share one fetch.
- **The mention renderer** of `src/components/MessageContentWithMentions.tsx`.
  - The three regular expressions become hand-written scanners, proved to return the span the JavaScript engine picks. For the role pattern that is the longest match, found by backtracking to `\b`.
  - On top of the scanners sit the three collection loops and their used-positions set, the sort and the cutting into parts.
- **The role pages** (`Role.tsx`, member and admin views, and `SelfAssignRoles.tsx`), **the channel form** (`AddChannel.tsx`) and **the member table** (`Members.tsx`).
- **The mention feed** (`src/hooks/useNotifications.ts`) and **its dropdown** (`src/components/NotificationDropdown.tsx`).
- **The composer** (`MessageInput.tsx`), **attachment rendering** (`MessageAttachment.tsx`) and **the message bubble** (`MessageBubble.tsx`).

## How the model is built

- Each source file is its own module. Four shared modules support them:
  - `Wrappers`: `Option`, `Result` and JavaScript truthiness;
  - `Text`: ECMAScript white space, `trim`, ASCII case mapping and number printing;
  - `Http`: the request shape;
  - `Roles`: the role values used by three views.
- Where the source mutates state step by step, the model is a class with `modifies` clauses. This covers the pipelines, the avatar cache, the view components with handlers and the composer.
- Where the source only builds new values, the model is a function. This covers the member table, the feed transitions, extension parsing and initials.
- Network outcomes, `confirm()` answers, `Date.now()` and random picks are parameters.
- An `await` splits a handler into one method per step, so that other calls can run in between. Examples are the avatar cache's start and settle, and the start and end of a self-assign toggle. What a React handler's closure captured at the click is passed from the first step to the second; `SelfAssign.OverlappingAssigns` shows what that means for two overlapping toggles.

Some facts about the source were proved along the way:

- The used-positions check in the mention renderer never drops a match.
  - `Mentions.CollectedIsConcatenation` proves this, because no two matches of the three patterns can overlap.
  - The one exception is `@everyone`/`@here` against the user pattern, and those matches are already skipped by name.
- The `trim()` on a role mention's label never removes anything (`Mentions.RoleLabelUntrimmed`).
- The refresh call in `axios.ts` passes `Authorization: ""`. The request interceptor treats an empty header as missing, so the call still carries the in-memory bearer token (`BearerPipeline.Pipeline.OnRequest`).
- A failed refresh in `axios.ts` clears the stored session but leaves the in-memory token and the default header in place (`BearerPipeline.Pipeline.FailRefresh`).

## Model

| member | source | states |
|---|---|---|
| BearerPipeline.Decide | src/app/api/axios.ts:46-66 | A failure outside a browser, or one that is not a 401, passes through, and so does a 401 on the refresh endpoint or on a `_retry` request. A browser 401 on any other request starts a refresh exactly when none is in flight, and is parked exactly when one is; with a refresh in flight, a second one never starts. |
| BearerPipeline.Settle | src/app/api/axios.ts:13-22 | A parked request is rejected with the refresh error. With no error, it is replayed with `Bearer <token>` when the token is non-empty, and otherwise rejected with "No token after refresh" (the `.then` of lines 61-65). |
| BearerPipeline.GrantStore | src/app/api/axios.ts:86-90 | A successful refresh writes `access_token`, `refresh_token` and `tokenExpiry` = the decimal text of `now + expiresIn*1000`, and keeps every other key. |
| BearerPipeline.ExpiryReadsBack | src/app/api/axios.ts:89-90 | The stored expiry is all digits and parses back to `now + expiresIn*1000`. |
| BearerPipeline.Pipeline.constructor | src/app/api/axios.ts:160-165 | On load in a browser, a non-empty stored access token becomes the in-memory token and the default `Authorization` header. Otherwise both are absent. No refresh is in flight. |
| BearerPipeline.Pipeline.GetToken | src/app/api/axios.ts:115-122 | The in-memory token becomes the argument; `??` keeps an empty string. A non-empty token sets the default header; an absent or empty one deletes it. |
| BearerPipeline.Pipeline.OnRequest | src/app/api/axios.ts:29-37 | A request gets `Bearer <token>` exactly when a non-empty in-memory token exists and the request has no non-empty header of its own. Otherwise the request is returned unchanged. |
| BearerPipeline.Pipeline.ProcessQueue | src/app/api/axios.ts:13-22 | Every parked request is settled once, in enqueue order, with the same error/token, and the queue is left empty. |
| BearerPipeline.Pipeline.FailRefresh | src/app/api/axios.ts:99-111 | Every parked request is rejected with the reason. The four session keys are removed and the redirect to `/login` is flagged. The flag is cleared and single flight is restored. The in-memory token and the default header are left as they were. |
| BearerPipeline.Pipeline.OnError | src/app/api/axios.ts:41-81 | Pass-through changes nothing. A parked request is appended to the queue. A refresh start marks only the initiator `_retry` and posts the stored refresh token. Without a refresh token, no call is made and the failure path runs at once: nothing is parked, the keys are removed and the user is redirected. `Valid` is kept. |
| BearerPipeline.Pipeline.RefreshSucceeded | src/app/api/axios.ts:83-111 | The grant is stored. The token and the default header are adopted. Each waiter is settled with the new token, in order. The initiator is replayed once with `Bearer <new token>`, and because it is marked `_retry` it can never start another refresh. The flag is cleared. |
| BearerPipeline.Pipeline.RefreshFailed | src/app/api/axios.ts:99-111 | A rejected refresh call rejects every waiter, removes exactly the four session keys and flags the redirect. Single flight is restored. |
| BearerPipeline.Pipeline.RefreshToken | src/app/api/axios.ts:124-158 | With no refresh token stored, nothing is posted and the result is null. Otherwise the stored token is posted. On success the grant is stored and adopted and returned; a failed call returns null and changes nothing. It never touches the flag, the queue or the redirect. |
| CookiePipeline.Decide | src/utils/apiClient.ts:39-59 | A failure outside a browser, or one that is not a 401, passes through. A browser 401 on a `_retry` request or on the refresh endpoint forces a logout. Any other 401 starts a refresh exactly when none is in flight, and is parked otherwise. |
| CookiePipeline.Settle | src/utils/apiClient.ts:13-22 | A waiter is rejected with the error, or replayed unchanged when there is none; no token is handed over. |
| CookiePipeline.Pipeline.constructor | src/utils/apiClient.ts:5-11 | The pipeline starts with no refresh in flight, an empty queue and the given store. |
| CookiePipeline.Pipeline.ProcessQueue | src/utils/apiClient.ts:13-22 | Every waiter is settled once, in order, with the same outcome, and the queue is left empty. |
| CookiePipeline.Pipeline.ClearAndRedirect | src/utils/apiClient.ts:46-48 | Exactly `token` and `user` are removed, and the redirect to `/login` is flagged. |
| CookiePipeline.Pipeline.OnError | src/utils/apiClient.ts:35-66 | Pass-through changes nothing. A forced logout removes `token`/`user` and redirects without touching the flag or the queue. Parking appends to the queue. A refresh start marks only the initiator `_retry` and sets the flag before the call. `Valid` is kept. |
| CookiePipeline.Pipeline.RefreshSucceeded | src/utils/apiClient.ts:68-85 | Every waiter is replayed unchanged, in order. The initiator is replayed once and can never start another refresh. The store is untouched and the flag is cleared. |
| CookiePipeline.Pipeline.RefreshFailed | src/utils/apiClient.ts:73-85 | Every waiter is rejected with the reason, exactly `token` and `user` are removed, and the redirect is flagged. The flag is cleared. |
| PipelineDivergence.Divergence | src/utils/apiClient.ts:44-50 | On a browser 401 to a retried request or to the refresh endpoint, the cookie pipeline logs out where the bearer pipeline (src/app/api/axios.ts:50-56) passes the error through. On every other failure the two decide alike. |
| AuthApi.SessionStore | src/app/api/auth.api.ts:42-51 | The store after a response with an access token: the token, the refresh token and the expiry text are written. `user` is written only when one came back, and is otherwise kept. No other key changes. |
| AuthApi.AdoptSession | src/app/api/auth.api.ts:42-54 | With a non-empty access token, the store becomes `SessionStore` and the token and default header are adopted. Without one, nothing changes. The refresh state is never touched. |
| AuthApi.Login | src/app/api/auth.api.ts:37-57 | The response body is returned whether or not it carried a token. An error that reaches `login` changes nothing further. Otherwise the effects are those of `AdoptSession`. |
| AuthApi.HandleOAuthLogin | src/app/api/auth.api.ts:59-84 | The same effects, keyed on the access token the response returns rather than the one sent. |
| AuthApi.Logout | src/app/api/auth.api.ts:103-119 | On success, exactly the four session keys go, the token and header are cleared, and the result is true. When an error reaches `logout` it is rethrown and `logout` itself changes nothing, because the removals follow the awaited call. |
| AuthApi.GetUser | src/app/api/auth.api.ts:121-128 | The stored user exactly when running in a browser and the key holds a non-empty value; null otherwise. |
| AuthApi.NoUserAfterLogout | src/app/api/auth.api.ts:107-125 | After logout's removals, `getUser` reports no user, whatever was stored. |
| AuthApi.UserAfterLogin | src/app/api/auth.api.ts:49-127 | A login that returned a user makes `getUser` return that user in a browser. |
| AvatarCache.AvatarOf | src/api/profile.api.ts:62-63 | The profile's non-empty `avatar_url`, else `/User_profil.png`. |
| AvatarCache.Cache.constructor | src/api/profile.api.ts:33-35 | Both maps start empty. |
| AvatarCache.Cache.GetUserAvatar | src/api/profile.api.ts:37-60 | An empty id, or a cached user, is answered at once and neither map changes. A user with a fetch in flight joins it, and no new fetch starts. Any other user registers exactly one fetch. No user is ever both cached and in flight between the model's steps. |
| AvatarCache.Cache.FetchSettled | src/api/profile.api.ts:52-63 | Only a non-null profile enters the cache, and the in-flight entry is deleted either way, in one step. Every caller that awaited the fetch gets `AvatarOf` the result. |
| MentionScan.EveryoneAt | src/components/MessageContentWithMentions.tsx:27 | Returns a span exactly when `@(everyone\|here)\b` matches at the position, and that span is the only one it accepts. |
| MentionScan.RoleAt | src/components/MessageContentWithMentions.tsx:25 | Returns a span the role pattern accepts at the position, and every accepted span is no longer: the greedy star backtracks to the last word character. |
| MentionScan.RoleAtIsLongest | src/components/MessageContentWithMentions.tsx:25 | The span ending after the last word character of the run is accepted, and no longer span is. |
| MentionScan.UserAt | src/components/MessageContentWithMentions.tsx:29 | Returns a span exactly when the user pattern matches at the position: the whole run of word characters. |
| MentionScan.MatchAt | src/components/MessageContentWithMentions.tsx:25-29 | The match of the chosen pattern at a position, which the pattern accepts. |
| MentionScan.Scan | src/components/MessageContentWithMentions.tsx:46-85 | `matchAll` from a position: every item is a match of that pattern with its own text, and the items are in order without overlap. |
| MentionScan.ScanCovers | src/components/MessageContentWithMentions.tsx:46-85 | The scan misses nothing: every position where the pattern matches lies inside a match it returned. |
| MentionScan.ScanStep | src/components/MessageContentWithMentions.tsx:46-85 | One step of `matchAll`: with no match at a position the scan moves on by one; with a match it yields that match and resumes at its end. |
| Mentions.UsedMeetsSpan | src/components/MessageContentWithMentions.tsx:64-67 | The `usedPositions` test is true exactly when the candidate overlaps a mention already accepted. |
| Mentions.UserCandidates | src/components/MessageContentWithMentions.tsx:87-90 | Exactly the user matches not named `everyone` or `here`. |
| Mentions.Admit | src/components/MessageContentWithMentions.tsx:63-109 | Candidates are accepted in turn unless they overlap an earlier acceptance. What was accepted before is kept in front, and disjointness is preserved. |
| Mentions.Keep | src/components/MessageContentWithMentions.tsx:63-109 | Exactly the candidates that overlap none of the higher-priority mentions. |
| Mentions.AdmitIsKeep | src/components/MessageContentWithMentions.tsx:63-109 | For mutually disjoint candidates, checking against all earlier acceptances is the same as checking against the higher-priority ones: a lower-priority match is dropped exactly when it overlaps one of higher priority. |
| Mentions.Collected | src/components/MessageContentWithMentions.tsx:42-109 | The collected mentions are matches of their patterns, pairwise disjoint and non-empty; no user mention is named `everyone`/`here`. |
| Mentions.EveryoneShadowsUser | src/components/MessageContentWithMentions.tsx:89-90 | A user match starting at an everyone/here match is named `everyone` or `here`. |
| Mentions.EveryoneRoleApart | src/components/MessageContentWithMentions.tsx:25-27 | An everyone/here match and a role match never overlap. |
| Mentions.RoleUserApart | src/components/MessageContentWithMentions.tsx:25-29 | A role match and a user match never overlap. |
| Mentions.OverlapSameStart | src/components/MessageContentWithMentions.tsx:25-29 | Two overlapping matches start at the same `@`. |
| Mentions.CollectedIsConcatenation | src/components/MessageContentWithMentions.tsx:42-109 | The collected list is all everyone/here matches, then all role matches, then all unreserved user matches, each in content order: the overlap checks never fire. |
| Mentions.MarkUsed | src/components/MessageContentWithMentions.tsx:55-57 | The loop adds exactly the mention's positions to the set. |
| Mentions.AnyUsed | src/components/MessageContentWithMentions.tsx:64-67 | True exactly when one of the mention's positions is already used. |
| Mentions.TryAdmit | src/components/MessageContentWithMentions.tsx:69-80 | The mention is pushed exactly when it overlaps nothing accepted, and the used set stays the union of the accepted spans. |
| Mentions.CollectEveryone | src/components/MessageContentWithMentions.tsx:46-58 | Every everyone/here match is pushed, and the used set is their positions. |
| Mentions.CollectRoles | src/components/MessageContentWithMentions.tsx:62-81 | The role loop computes `Admit` of the role matches. |
| Mentions.CollectUsers | src/components/MessageContentWithMentions.tsx:85-109 | The user loop skips `everyone`/`here` and computes `Admit` of the remaining matches. |
| Mentions.CollectMentions | src/components/MessageContentWithMentions.tsx:42-109 | The three loops collect exactly `Collected(content)`. |
| Mentions.SortByStart | src/components/MessageContentWithMentions.tsx:111 | The sorted list is a permutation of the input, in strictly increasing start order, with spans in order. |
| Mentions.InsertByStartOrdered | src/components/MessageContentWithMentions.tsx:111 | Inserting a non-empty mention that overlaps none of an ordered list at its start position keeps the list ordered, with non-empty spans. |
| Mentions.TagFor | src/components/MessageContentWithMentions.tsx:118-157 | A mention part is highlighted exactly when it is a user mention whose text after `@` equals `currentUserId`. A role part shows `@` and the trimmed name; the others show the match. |
| Mentions.Segment | src/components/MessageContentWithMentions.tsx:113-166 | The parts put back together are the content, the mention parts are the mentions in order, and no text part is empty. |
| Mentions.EmitMentions | src/components/MessageContentWithMentions.tsx:113-162 | After the loop, the parts spell the content up to the end of the last mention and hold each mention once, in order. |
| Mentions.EmitMention | src/components/MessageContentWithMentions.tsx:114-161 | One step pushes the non-empty text since `lastIndex`, then the mention, and extends the spelled prefix to the mention's end. |
| Mentions.RenderContent | src/components/MessageContentWithMentions.tsx:20-171 | Empty content renders nothing. Otherwise the parts reproduce the content exactly, their mentions are the collected ones sorted by start, and no text part is empty. |
| Mentions.RoleLabelUntrimmed | src/components/MessageContentWithMentions.tsx:122-157 | A role label is `@` plus the matched name unchanged: the trim never removes anything. |
| Roles.WithoutSystemRoles | src/app/server-settings/components/ServerSettings/Role.tsx:63-65 | Exactly the roles that are neither owner nor admin. |
| Roles.WithoutSystemRolesAppend | src/app/server-settings/components/ServerSettings/Role.tsx:63-65 | Hiding system roles distributes over concatenation, so the kept roles stay in order with their repetitions, as `filter` keeps them. |
| Roles.InCategory | src/app/server-settings/components/ServerSettings/Role.tsx:144-152 | Exactly the roles whose `category_id \|\| "uncategorized"` is the key, in input order. |
| Roles.NoKeyEmptyBucket | src/app/server-settings/components/ServerSettings/Role.tsx:144-152 | A key no role has gets an empty bucket. |
| Roles.GroupByCategory | src/app/server-settings/components/ServerSettings/Role.tsx:144-152 | The `reduce` makes a bucket exactly for each key some role has, holding that key's roles in input order, so each role is in exactly one bucket. |
| Roles.FirstWithId | src/app/server-settings/components/ServerSettings/Role.tsx:156 | The position of the first category with the id, or the length when there is none. |
| Roles.FindCategory | src/app/server-settings/components/ServerSettings/Role.tsx:156 | `find`: nothing exactly when no category has the id, else the first one that does. |
| Roles.CategoryName | src/app/server-settings/components/ServerSettings/Role.tsx:154-158 | "Other Roles" for the uncategorized bucket, an unknown id, or a found category with an empty name. Otherwise the name of the first category with that id. |
| Roles.CategoryDescription | src/app/server-settings/components/ServerSettings/Role.tsx:160-164 | Nothing for the uncategorized bucket or an unknown id. Otherwise the description of the first category with that id, which may itself be absent. |
| Roles.WithoutId | src/components/SelfAssignRoles.tsx:62 | `filter(x => x.id !== id)`: exactly the records with another id. It serves the role lists here and at Role.tsx:458, and the category list at Role.tsx:475. |
| Roles.FindRole | src/app/server-settings/components/ServerSettings/Role.tsx:438 | `find`: nothing exactly when no role has the id. Otherwise the role at the first position holding that id. |
| Roles.WithoutIdAppend | src/components/SelfAssignRoles.tsx:62-65 | Filtering by id distributes over concatenation, so the kept records stay in order with their repetitions. |
| Roles.WithoutAbsentId | src/components/SelfAssignRoles.tsx:62 | Filtering out an id no record has changes nothing. |
| RoleSettings.RoleIds | src/app/server-settings/components/ServerSettings/Role.tsx:72 | `map(r => r.id)`, position by position. |
| RoleSettings.Dedup | src/app/server-settings/components/ServerSettings/Role.tsx:72 | `new Set(ids)`: duplicate-free, with the same members. |
| RoleSettings.DedupPrefix | src/app/server-settings/components/ServerSettings/Role.tsx:72 | A Set keeps insertion order: deduplicating a prefix of the ids gives a prefix of the whole result, so each id sits where it first occurs. |
| RoleSettings.DedupSnoc | src/app/server-settings/components/ServerSettings/Role.tsx:72 | One more id joins the end exactly when it is new, and otherwise changes nothing. |
| RoleSettings.RemoveId | src/app/server-settings/components/ServerSettings/Role.tsx:86 | The ids other than the given one; duplicate-freedom is kept. |
| RoleSettings.RemoveIdInOrder | src/app/server-settings/components/ServerSettings/Role.tsx:86 | The kept ids stay in their order: the result is a subsequence of the input. |
| RoleSettings.RemoveIdAppend | src/app/server-settings/components/ServerSettings/Role.tsx:86 | Removal distributes over concatenation, so order and repeats are kept. |
| RoleSettings.ToggleSelection | src/app/server-settings/components/ServerSettings/Role.tsx:84-89 | A present id is deleted; an absent one is appended at the end. The selection stays duplicate-free. |
| RoleSettings.RemoveAppended | src/app/server-settings/components/ServerSettings/Role.tsx:84-89 | Removing an id just appended to a list without it gives the list back. |
| RoleSettings.ToggleTwice | src/app/server-settings/components/ServerSettings/Role.tsx:84-89 | Toggling twice restores the selected set, and restores the exact sequence when the id was absent. |
| RoleSettings.Additions | src/app/server-settings/components/ServerSettings/Role.tsx:113 | Exactly the selected ids not held. |
| RoleSettings.AdditionsInOrder | src/app/server-settings/components/ServerSettings/Role.tsx:113 | The additions keep selection order: a subsequence of the selection. |
| RoleSettings.AdditionsAppend | src/app/server-settings/components/ServerSettings/Role.tsx:113 | The filter distributes over concatenation, which with the subsequence clause fixes order and repeats. |
| RoleSettings.Removals | src/app/server-settings/components/ServerSettings/Role.tsx:114-116 | Exactly the held ids that are self-assignable and not selected. |
| RoleSettings.RemovalsInOrder | src/app/server-settings/components/ServerSettings/Role.tsx:114-116 | The removals keep the order of the held ids: a subsequence of them. |
| RoleSettings.RemovalsAppend | src/app/server-settings/components/ServerSettings/Role.tsx:114-116 | The filter distributes over concatenation, which with the subsequence clause fixes order and repeats. |
| RoleSettings.SaveDiff | src/app/server-settings/components/ServerSettings/Role.tsx:96-116 | `hasChanges` holds exactly when the add list or the remove list is non-empty. The two lists are disjoint. Applying them yields selected ∪ (held \ self-assignable). |
| RoleSettings.SaveCalls | src/app/server-settings/components/ServerSettings/Role.tsx:119-126 | The planned calls: an assign for each addition in selection order, then an unassign for each removal in held order. |
| RoleSettings.AdditionsBeforeRemovals | src/app/server-settings/components/ServerSettings/Role.tsx:119-126 | Every assign call comes before every unassign call. |
| RoleSettings.IssueSaveCalls | src/app/server-settings/components/ServerSettings/Role.tsx:118-126 | The two loops issue the planned calls in order and stop after the first one that throws; they fail exactly when such a call was reached. |
| RoleSettings.MemberRoleView.constructor | src/app/server-settings/components/ServerSettings/Role.tsx:40-49 | The initial state: empty lists and selection, loading, no messages. |
| RoleSettings.MemberRoleView.Loaded | src/app/server-settings/components/ServerSettings/Role.tsx:51-81 | System roles are hidden, and the selection is the set of held role ids. |
| RoleSettings.MemberRoleView.LoadFailed | src/app/server-settings/components/ServerSettings/Role.tsx:74-78 | The server's error, or "Failed to load roles"; loading ends. |
| RoleSettings.MemberRoleView.ToggleRole | src/app/server-settings/components/ServerSettings/Role.tsx:83-100 | The new selection is `ToggleSelection`, and `hasChanges` is recomputed against the held and self-assignable ids. |
| RoleSettings.MemberRoleView.HandleSave | src/app/server-settings/components/ServerSettings/Role.tsx:102-141 | The calls issued are the additions, then the removals, up to the first failure. A failure sets the error and keeps the held roles. Full success installs the refreshed roles, clears `hasChanges` and shows the success text. `saving` ends false. |
| RoleSettings.MemberRoleView.SaveSettled | src/app/server-settings/components/ServerSettings/Role.tsx:128-137 | After a failed call, only the error message (the server's, or "Failed to update roles") is set and the held roles stay. After all calls, a failed refresh does the same; a successful one installs the refreshed roles, clears `hasChanges` and shows "Roles updated successfully!". |
| RoleSettings.Optional | src/app/server-settings/components/ServerSettings/Role.tsx:368 | `value \|\| undefined`: absent exactly for the empty string. |
| RoleSettings.ApplyEdit | src/app/server-settings/components/ServerSettings/Role.tsx:411-414 | Only the edited field changes. |
| RoleSettings.ReplaceById | src/app/server-settings/components/ServerSettings/Role.tsx:428 | Position by position, the roles with the updated id are replaced and the others kept. |
| RoleSettings.ReplaceByIdKeepsIds | src/app/server-settings/components/ServerSettings/Role.tsx:428 | The ids stay in place, and saving the same role again changes nothing. |
| RoleSettings.CheckDelete | src/app/server-settings/components/ServerSettings/Role.tsx:437-453 | An unknown id exactly when no role has it. A role is refused only for the owner role, or for the admin role when the viewer is not the owner. Otherwise confirmation is asked for that role. |
| RoleSettings.DeleteButtonMatchesRule | src/app/server-settings/components/ServerSettings/Role.tsx:774-775 | The Delete button is shown for a role exactly when `handleDeleteRole` would ask to confirm its deletion. |
| RoleSettings.AdminRoleView.constructor | src/app/server-settings/components/ServerSettings/Role.tsx:317-334 | Empty lists, no open role, and the new-role form at its defaults (color `#99aab5`). |
| RoleSettings.AdminRoleView.Loaded | src/app/server-settings/components/ServerSettings/Role.tsx:343-348 | Both lists are installed as received. |
| RoleSettings.AdminRoleView.LoadFailed | src/app/server-settings/components/ServerSettings/Role.tsx:349-350 | The server's error, or "Failed to load roles". |
| RoleSettings.AdminRoleView.HandleSelectRole | src/app/server-settings/components/ServerSettings/Role.tsx:405-409 | The role opens unless it is the owner role and the viewer is not the owner. |
| RoleSettings.AdminRoleView.HandleEditRole | src/app/server-settings/components/ServerSettings/Role.tsx:411-414 | Changes one field of the open role; with no role open, nothing changes. |
| RoleSettings.AdminRoleView.HandleAddRole | src/app/server-settings/components/ServerSettings/Role.tsx:359-382 | A blank trimmed name sends nothing and changes nothing. Otherwise the form is sent, with an empty category sent as absent. Success appends the new role and resets the form; failure sets the error and keeps the list. |
| RoleSettings.AdminRoleView.RoleCreated | src/app/server-settings/components/ServerSettings/Role.tsx:371-378 | A created role is appended, and the form goes back to `"" / #99aab5 / false / ""` with the popup closed. A failure sets the server's error or "Failed to create role" and keeps list, form and popup. |
| RoleSettings.AdminRoleView.HandleAddCategory | src/app/server-settings/components/ServerSettings/Role.tsx:384-403 | The same pattern for categories, with an empty description sent as absent. |
| RoleSettings.AdminRoleView.CategoryCreated | src/app/server-settings/components/ServerSettings/Role.tsx:395-400 | A created category is appended, and the name and description are cleared with the popup closed. A failure sets the server's error or "Failed to create category" and keeps the rest. |
| RoleSettings.AdminRoleView.HandleSaveRole | src/app/server-settings/components/ServerSettings/Role.tsx:416-435 | With no open role, nothing happens. Otherwise its fields are sent. Success replaces only the roles with the returned id and closes the panel; failure sets the error. |
| RoleSettings.AdminRoleView.HandleDeleteRole | src/app/server-settings/components/ServerSettings/Role.tsx:437-465 | A call is sent exactly when the rules ask to confirm and the user confirms. A refusal sets its message. An unknown id or a decline changes nothing. Success removes exactly the roles with that id and closes the panel; failure sets the error. |
| RoleSettings.AdminRoleView.HandleDeleteCategory | src/app/server-settings/components/ServerSettings/Role.tsx:467-479 | A call is sent exactly for a known id that the user confirms. Success removes exactly the categories with that id; failure sets the error. |
| SelfAssign.ToggledMine | src/components/SelfAssignRoles.tsx:58-66 | After the call the member holds the role exactly when they did not before; roles with other ids are unaffected; an assigned role is appended at the end. |
| SelfAssign.MarkHasRole | src/components/SelfAssignRoles.tsx:69-73 | Only entries with the role's id get the new `has_role`. |
| SelfAssign.MarkHasRoleKeepsOthers | src/components/SelfAssignRoles.tsx:69-73 | Ids stay in place, the matching entries carry the new flag, and every other entry is still there. |
| SelfAssign.AssignThenUnassign | src/components/SelfAssignRoles.tsx:58-66 | Assigning an unheld role and then unassigning it restores the member's list exactly. |
| SelfAssign.SelfAssignView.constructor | src/components/SelfAssignRoles.tsx:22-27 | Empty lists, loading, no error, no busy button. |
| SelfAssign.SelfAssignView.Loaded | src/components/SelfAssignRoles.tsx:35-42 | The three lists are installed as received, and loading ends. |
| SelfAssign.SelfAssignView.LoadFailed | src/components/SelfAssignRoles.tsx:43-47 | The server's error, or "Failed to load roles", and loading ends. |
| SelfAssign.SelfAssignView.BeginToggle | src/components/SelfAssignRoles.tsx:53-58 | The button is marked busy and the error cleared. Whether the role is held decides which call is made. The two lists of the clicked render are handed back, as the handler's closure holds them. |
| SelfAssign.SelfAssignView.EndToggle | src/components/SelfAssignRoles.tsx:59-78 | Success sets both lists to the flip of the lists captured at the click, whatever they hold now. Failure keeps both lists and sets the error. Either way the button is released. |
| SelfAssign.ToggleOnce | src/components/SelfAssignRoles.tsx:53-79 | One click with a successful call: the member holds the role exactly when they did not, other roles are untouched, and no button is busy. |
| SelfAssign.OverlappingAssigns | src/components/SelfAssignRoles.tsx:53-79 | Two unheld roles clicked one after the other, both calls succeeding in click order: the list ends as the old list plus the second role only, so the first assignment is lost from view. Only the clicked button is disabled (line 218), so this interleaving is reachable. |
| AddChannel.ValidatePayload | src/app/server-settings/components/ServerSettings/AddChannel.tsx:69-76 | No error exactly when the server id is present, the trimmed name is non-empty and the type is text or voice. Otherwise the first failing check's message, in that order. |
| AddChannel.ApplyChange | src/app/server-settings/components/ServerSettings/AddChannel.tsx:49-52 | Only the named field takes the new value (`checked` for the checkbox). |
| AddChannel.FailureMessage | src/app/server-settings/components/ServerSettings/AddChannel.tsx:113-116 | The response's message, else the error's own message, else " Failed to create channel."; never empty. |
| AddChannel.AccessCall | src/app/server-settings/components/ServerSettings/AddChannel.tsx:99-104 | The role-access call is made exactly for a private channel with selected roles and a response id, with that id and those roles. |
| AddChannel.ResubmitAfterSuccessRefused | src/app/server-settings/components/ServerSettings/AddChannel.tsx:106-108 | The reset form fails validation with "Channel name cannot be empty.", so no second create can follow without new input. |
| AddChannel.ChannelForm.constructor | src/app/server-settings/components/ServerSettings/AddChannel.tsx:11-20 | The form starts as `{name: "", type: "text", is_private: false}` with nothing selected. |
| AddChannel.ChannelForm.RolesLoaded | src/app/server-settings/components/ServerSettings/AddChannel.tsx:23-41 | Without a server id, nothing happens. Otherwise the owner and admin roles are dropped from the list; a failure keeps the old list. |
| AddChannel.ChannelForm.HandleChange | src/app/server-settings/components/ServerSettings/AddChannel.tsx:43-58 | The named field changes, and unchecking private clears the selected roles. |
| AddChannel.ChannelForm.HandleRoleToggle | src/app/server-settings/components/ServerSettings/AddChannel.tsx:60-66 | An absent id is appended and a present one removed. |
| AddChannel.ChannelForm.HandleSubmit | src/app/server-settings/components/ServerSettings/AddChannel.tsx:79-121 | An invalid payload shows its message and sends nothing. A valid one sends the create call and ends as `Outcome` says. |
| AddChannel.ChannelForm.Create | src/app/server-settings/components/ServerSettings/AddChannel.tsx:88-120 | The role-access call is exactly `AccessCall`. When every call made succeeds, the confirmation shows and the form and selection reset; otherwise the failure's message shows and both are kept. Loading ends false. |
| Members.Kick | src/app/server-settings/components/ServerSettings/Members.tsx:47-49 | Exactly the members with another id, in their order: a subsequence. |
| Members.KickAbsent | src/app/server-settings/components/ServerSettings/Members.tsx:47-49 | Kicking an id nobody has leaves the list as it was. |
| Members.KickAppend | src/app/server-settings/components/ServerSettings/Members.tsx:47-49 | Kicking distributes over concatenation. |
| Members.WithRole | src/app/server-settings/components/ServerSettings/Members.tsx:58-59 | A role already held is not added again; otherwise it is appended. |
| Members.AddRoleTo | src/app/server-settings/components/ServerSettings/Members.tsx:55-63 | Only members with the id change, gaining the role if they lack it. |
| Members.RemoveRoleFrom | src/app/server-settings/components/ServerSettings/Members.tsx:67-75 | Only members with the id change, losing every occurrence of the role. |
| Members.AddRoleProperties | src/app/server-settings/components/ServerSettings/Members.tsx:55-63 | Afterwards the member holds the role and nobody else changes. Adding again changes nothing. |
| Members.RemoveRoleProperties | src/app/server-settings/components/ServerSettings/Members.tsx:67-75 | Afterwards the member lacks the role but keeps the others, and nobody else changes. |
| Members.AddThenRemove | src/app/server-settings/components/ServerSettings/Members.tsx:55-75 | Adding a lacking role and then removing it gives the same list back. |
| Members.Lacking | src/app/server-settings/components/ServerSettings/Members.tsx:183-184 | Exactly the available roles not held, in the available order. |
| Members.PickerRoles | src/app/server-settings/components/ServerSettings/Members.tsx:183-184 | The picker lists exactly the available roles the member lacks. |
| Members.AllAssignedIffAllHeld | src/app/server-settings/components/ServerSettings/Members.tsx:198-199 | "All roles assigned" is shown exactly when the member holds every available role. |
| Members.PickedRoleLeavesPicker | src/app/server-settings/components/ServerSettings/Members.tsx:183-189 | A role picked from the list is no longer offered to that member. |
| Members.HandleKick | src/app/server-settings/components/ServerSettings/Members.tsx:47-49 | Only the member list changes, to `Kick`. |
| Members.HandleBan | src/app/server-settings/components/ServerSettings/Members.tsx:51-53 | The state is unchanged. |
| Members.HandleAddRole | src/app/server-settings/components/ServerSettings/Members.tsx:55-65 | The role is added and the picker closes; the form is untouched. |
| Members.HandleRemoveRole | src/app/server-settings/components/ServerSettings/Members.tsx:67-75 | Only the member list changes, to `RemoveRoleFrom`. |
| Members.HandleAddMember | src/app/server-settings/components/ServerSettings/Members.tsx:77-93 | A blank trimmed name leaves the state alone. Otherwise a member with the untrimmed name and roles `["Member"]` is appended, and the form is cleared and closed. |
| Members.AddThenKick | src/app/server-settings/components/ServerSettings/Members.tsx:47-93 | Kicking a newly added member gives back the list from before the add. |
| Notifications.Take | src/hooks/useNotifications.ts:44 | `slice(0, k)`: the first `k` items, or all when there are fewer. |
| Notifications.Receive | src/hooks/useNotifications.ts:41-45 | The new item comes first, followed by at most 49 of the old ones in order, and the list never exceeds 50. The counter goes up by exactly one. |
| Notifications.MarkRead | src/hooks/useNotifications.ts:59-63 | Only items with the id are marked read. |
| Notifications.Decrement | src/hooks/useNotifications.ts:64 | `Math.max(0, c - 1)`: one less, never below zero. |
| Notifications.ApplyMarkRead | src/hooks/useNotifications.ts:58-65 | The items with the id are marked read and the counter drops by one, down to zero at most, whether or not the item was unread. |
| Notifications.MarkReadProperties | src/hooks/useNotifications.ts:59-63 | Ids stay in place, the matching items are read, the others are unchanged, and marking twice equals marking once. |
| Notifications.MarkAsRead | src/hooks/useNotifications.ts:106-123 | A failed PATCH changes nothing and emits nothing. Success applies the mark-read and emits the id only with a socket. |
| Notifications.MarkAll | src/hooks/useNotifications.ts:132-134 | Every item is marked read, position by position. |
| Notifications.MarkAllProperties | src/hooks/useNotifications.ts:132-134 | Every item is read with its id in place, and marking all again changes nothing. |
| Notifications.EmitMarked | src/hooks/useNotifications.ts:138-142 | One event per returned id, in order; none without a socket or without the list. |
| Notifications.MarkAllAsRead | src/hooks/useNotifications.ts:125-146 | A failed PATCH changes nothing. Success marks all, sets the counter to zero and emits once per marked id. |
| Notifications.InitialCount | src/hooks/useNotifications.ts:85-104 | The array's length for an array. 0 for other truthy data. Unchanged without a user, on failure or for falsy data. |
| Notifications.TransitionsKeepFeedOk | src/hooks/useNotifications.ts:41-146 | Every transition keeps the list within 50 items and the counter non-negative. |
| Notifications.ReceiveThenRead | src/hooks/useNotifications.ts:41-65 | A mention followed by its read confirmation leaves it first and read, with the counter back where it was. |
| NotificationDropdown.FormatTimeAgo | src/components/NotificationDropdown.tsx:119-128 | Under 60 s, negative ages included, "just now". Otherwise whole minutes, hours or days by band, with its letter. |
| NotificationDropdown.TimeAgoReadsBack | src/components/NotificationDropdown.tsx:122-127 | The digits times the unit are at most the age, and one more unit exceeds it. Minutes stay below 60 and hours below 24. |
| NotificationDropdown.Truncate | src/components/NotificationDropdown.tsx:130-133 | Content within the limit is unchanged. Longer content becomes its first `maxLength` characters plus "...". |
| NotificationDropdown.Preview | src/components/NotificationDropdown.tsx:236 | Empty without a message or content. Content of up to 50 characters is shown whole. Longer content shows its first 50 characters and "...". So the preview is never longer than 53 characters. |
| NotificationDropdown.AnyUnread | src/components/NotificationDropdown.tsx:156 | True exactly when some item is unread. |
| NotificationDropdown.MarkItemRead | src/components/NotificationDropdown.tsx:85-89 | Only items with the id become read. |
| NotificationDropdown.MarkAllItemsRead | src/components/NotificationDropdown.tsx:103-105 | Every item becomes read. |
| NotificationDropdown.MarkReadAndControl | src/components/NotificationDropdown.tsx:103-156 | Marking all is idempotent and hides "Mark all read". After marking one, the control shows exactly when an item with another id is unread. |
| NotificationDropdown.TargetChannel | src/components/NotificationDropdown.tsx:205 | Nothing without a message. The message's non-empty `channel_id` if it has one. Otherwise `channels.server_id` when that is non-empty, and nothing when it is not. Never an empty id. |
| NotificationDropdown.TargetMessage | src/components/NotificationDropdown.tsx:206 | A non-empty `message_id` if there is one. Otherwise the message's `id` when there is a message with a non-empty id, and nothing when there is not. Never an empty id. |
| NotificationDropdown.OnItemClick | src/components/NotificationDropdown.tsx:202-211 | An unread item is marked. Navigation and closing happen exactly when there is a handler and both ids resolve. |
| NotificationDropdown.NoMessageNoNavigation | src/components/NotificationDropdown.tsx:205-207 | An item without a message never navigates. |
| NotificationDropdown.Dropdown.constructor | src/components/NotificationDropdown.tsx:63-65 | An empty list, loading. |
| NotificationDropdown.Dropdown.LoadNotifications | src/components/NotificationDropdown.tsx:63-78 | Without a user the list is kept. An array replaces it, and anything else or a failure empties it. Loading ends. |
| NotificationDropdown.Dropdown.MarkAsRead | src/components/NotificationDropdown.tsx:80-96 | Only after a successful PATCH are the matching items marked and the hook called. |
| NotificationDropdown.Dropdown.MarkAllAsRead | src/components/NotificationDropdown.tsx:98-117 | After a successful PATCH all items are read, the control hides, the hook is called and a reload is scheduled. After a failure nothing happens. |
| MessageInput.RemoveAt | src/components/MessageInput.tsx:143-145 | Removing preview `i` drops exactly that position and shifts the rest. An index out of range changes nothing. |
| MessageInput.RemoveAtRestore | src/components/MessageInput.tsx:143-145 | Putting the removed file back at its place gives the list back. |
| MessageInput.SentTextTrimmed | src/components/MessageInput.tsx:52-55 | The text sent has no surrounding white space, and is empty only when files go along. |
| MessageInput.Composer.constructor | src/components/MessageInput.tsx:33-49 | An empty draft with the picker closed. |
| MessageInput.Composer.HandleEmojiClick | src/components/MessageInput.tsx:33-38 | The emoji is appended to the text. |
| MessageInput.Composer.HandleFileChange | src/components/MessageInput.tsx:41-49 | New files come after the existing ones, in order; an empty selection changes nothing. |
| MessageInput.Composer.RemoveFile | src/components/MessageInput.tsx:143-145 | The files become `RemoveAt` of the index. |
| MessageInput.Composer.HandleChange | src/components/MessageInput.tsx:107-111 | The text becomes the input's value. |
| MessageInput.Composer.ToggleEmojiPicker | src/components/MessageInput.tsx:180 | The picker flips. |
| MessageInput.Composer.HandleSend | src/components/MessageInput.tsx:52-67 | Nothing, exactly when the trimmed text is empty and there are no files. Otherwise one send with the trimmed text and the files, after which text and files are cleared and the picker closes. |
| MessageInput.Composer.HandleKeyDown | src/components/MessageInput.tsx:113-118 | Enter without Shift has `HandleSend`'s whole effect: nothing at all when there is nothing to send, otherwise one send of the trimmed text and files, then an empty draft and a closed picker. Any other key, Shift+Enter included, changes nothing. |
| MessageInput.ClickEnabledSend | src/components/MessageInput.tsx:205 | When the button is enabled and no send is in flight, a click always sends. |
| MessageAttachment.BeforeQuery | src/components/MessageAttachment.tsx:13 | The longest prefix with no `?`, ending just before the first `?`. |
| MessageAttachment.LastSegment | src/components/MessageAttachment.tsx:13 | The longest suffix with no `.`, the whole string when there is none. |
| MessageAttachment.Extension | src/components/MessageAttachment.tsx:13 | Has no `?`, no `.` and no upper-case letter, and is the whole lower-cased path when the path has no `.`. |
| MessageAttachment.BeforeQueryLower | src/components/MessageAttachment.tsx:13 | Lower-casing commutes with cutting the query. |
| MessageAttachment.LastSegmentLower | src/components/MessageAttachment.tsx:13 | Lower-casing commutes with taking the last segment. |
| MessageAttachment.ExtensionViaLower | src/components/MessageAttachment.tsx:13 | The extension is the last segment of the lower-cased URL's path. |
| MessageAttachment.ExtensionIgnoresCase | src/components/MessageAttachment.tsx:13-16 | URLs equal up to case have the same extension and the same image test. |
| MessageAttachment.FileIcon | src/components/MessageAttachment.tsx:32-60 | Each family's icon for exactly its listed extensions, and the paperclip for everything else. |
| MessageAttachment.DownloadLabel | src/components/MessageAttachment.tsx:71 | "Download file " and, only for a non-empty extension, the extension upper-cased in parentheses. |
| MessageAttachment.DownloadLabelReadsBack | src/components/MessageAttachment.tsx:71 | Lower-casing the text in parentheses gives the extension back. |
| MessageAttachment.Render | src/components/MessageAttachment.tsx:9-74 | Nothing exactly for an empty URL; an image exactly for an image extension; otherwise a link with `FileIcon` and `DownloadLabel` of the extension. |
| MessageAttachment.TrailingDotIsDownload | src/components/MessageAttachment.tsx:13-73 | A path ending in `.` has an empty extension and renders as a paperclip link labelled without one. |
| MessageBubble.Words | src/components/MessageBubble.tsx:13-15 | `split(/\s+/).filter(Boolean)`: non-empty words without white space, none at all exactly for a blank input. |
| MessageBubble.WordsFromSplit | src/components/MessageBubble.tsx:13-15 | From any position, the words are a split of the rest at white space (`SplitInto`): each word follows only spaces and ends at a space or the end, and the words appear in order. |
| MessageBubble.WordsSplit | src/components/MessageBubble.tsx:13-15 | The words of a string are a split of it at white space. |
| MessageBubble.SplitUnique | src/components/MessageBubble.tsx:13-15 | A string has only one split at white space, so the split fixes every word, the second initial's word included. |
| MessageBubble.WordsIsTheSplit | src/components/MessageBubble.tsx:13-15 | A list of words is a split of the string exactly when it is `Words` of it. |
| MessageBubble.WordsFromKeepEverythingElse | src/components/MessageBubble.tsx:13-15 | From any position, the words put together are the non-space characters of the rest. |
| MessageBubble.WordsKeepEverythingElse | src/components/MessageBubble.tsx:13-15 | Splitting loses only white space. |
| MessageBubble.Heads | src/components/MessageBubble.tsx:16-17 | The upper-cased first character of each word, in order. |
| MessageBubble.GetInitials | src/components/MessageBubble.tsx:12-18 | One or two characters. "?" exactly for a blank input; otherwise the first two heads. |
| MessageBubble.FirstInitial | src/components/MessageBubble.tsx:12-18 | The first initial is the upper-cased first non-space character. |
| MessageBubble.InitialsOf | src/components/MessageBubble.tsx:34 | "" without a name; one or two characters with one. |
| MessageBubble.Render | src/components/MessageBubble.tsx:28-70 | The avatar slot exists exactly when the viewer is not the sender. The avatar is visible exactly when, in addition, a URL or a name is present; it shows the image, else the initials. The name label shows only for a named non-sender. Alignment and style follow `isSender`. |
| MessageBubble.VisibleAvatarHasContent | src/components/MessageBubble.tsx:35-51 | A visible avatar always has content, and the viewer's own messages show neither avatar nor name. |
| Text.Trim | src/app/server-settings/components/ServerSettings/AddChannel.tsx:71 | `trim()`: empty exactly for an all-space string, and otherwise without white space at either end. |
| Text.TrimInfix | src/app/server-settings/components/ServerSettings/AddChannel.tsx:71 | The trimmed string is an infix of the input with nothing but white space before and after it. |

## Left out

- Network I/O, Promise scheduling and interleavings are left out. Each awaited call is an input, and each handler is modelled as the steps it runs between awaits.
- The socket.io connection, the browser Notification API, `console` logging, `alert`, focus and textarea-height effects, JSX and CSS are left out. Under them lies no logic of the client's own.
- `window.location` is only a redirect flag, localStorage only a map, and `Date.now()`, `new Date`, `Math.random` and `confirm()` only parameters.
- `JSON.parse` and `JSON.stringify` of the stored user are not modelled; the stored text stands for the user.
- The axios request-header merge and `api.defaults` are one optional header value.
- Case mapping covers ASCII letters only. Non-ASCII letters and the cases where `toUpperCase` changes a string's length are not modelled, and a string index is a character rather than a UTF-16 code unit.
- `MentionScan.Scan` stands for `matchAll` with the hand-written scanners rather than the regular expression engine.
- `Mentions.SortByStart`: an insertion sort stands for the library sort. The spans' starts are distinct, so the order is the same.
- The `saving` and `loading` spinners of the role admin view and of the channel form's create call are not modelled, beyond what the contracts list.
- The `if (!serverId) return` guards of the role views' load effects are not modelled; the load methods describe a load that ran.
- `setTimeout` is left out. It clears the member view's success message and runs the dropdown's reload; the reload is only reported as scheduled.
- `Object.entries` iteration order of the grouped buckets is left out. `Roles.GroupByCategory` keeps each bucket's order but a map has no key order.
- `NotificationDropdown.FormatTimeAgo` takes the age in whole seconds rather than parsing the timestamp.
- The emoji icons of `MessageAttachment.FileIcon` are the `Icon` enumeration.
- `AvatarCache.Cache.GetUserAvatar` counts the callers awaiting a fetch instead of holding the shared Promise.
- `AvatarCache.Cache.FetchSettled` records the result and clears the in-flight entry in one step. In the source, `.then` and `.finally` run as separate microtasks, and between them the user is both cached and in flight. The model's "never both" holds only between its steps.
- `AuthApi.Login`: an `Err` response is the outcome after the axios response interceptor has run. A 401 on the call first either clears the session keys and redirects, or refreshes and replays (`BearerPipeline.Pipeline.OnError`). Those effects are not composed into this contract, which covers only what `login` itself does.
- `AuthApi.HandleOAuthLogin`: the same as for `Login`. An `Err` response comes after the interceptor's 401 handling, whose effects are not part of this contract.
- `AuthApi.Logout`: the same as for `Login`. A 401 on the logout call runs the interceptor's clear-or-refresh path before the error reaches `logout`, and that is not part of this contract.
- `src/api/auth.api.ts` and `src/api/axios.ts` are not part of this model; the session effects follow the copies in `src/app/api/`.
