# Request throttling and route tables of a Next.js authentication app

This project models, in Dafny, the pieces of the application's `src/lib`
that carry logic:

- `simpleRateLimit` (src/lib/rate-limit.ts), the in-process fixed-window
  rate limiter. A table maps each client identifier to a record
  `{count, lastReset}`. A call resets the record to one request at `now` when
  there is no record or strictly more than one minute (`WINDOW_MS`) has passed
  since `lastReset`. Otherwise it rejects, untouched, once the record holds
  `MAX_REQUESTS` (10) requests, and else counts the request and reports how
  many remain. The table is the field `requests` of the class
  `RateLimit.SimpleRateLimiter`, and `Allow(identifier, now)` is the call,
  with the clock reading `now` passed in. The pure function `RateLimit.Step`
  specifies one call. `RateLimit.Replay` specifies a sequence of calls, and
  the lemmas about it give the verdicts of a whole burst.
- `absoluteUrl` and `isExpired` (src/lib/utils.ts), with the base URL
  (`NEXT_PUBLIC_APP_URL`) and the current time as parameters. An unset
  variable is printed as the text `undefined` by the template literal, so the
  base URL is an `Option<string>`. A JavaScript `Date` may be invalid (time
  value NaN), and every comparison with NaN is false, so a date is an
  `Instant` that is either a millisecond time value or `InvalidDate`.
- The route tables of src/lib/routes.ts as constants, with exact-membership
  tests for the public and sign-in pages and a prefix test for the
  authentication API.

Two details of the code decide the limiter's edge cases:

- The window test at src/lib/rate-limit.ts:24 is a strict `>`, so a call made
  exactly `WINDOW_MS` after `lastReset` still counts in the old window
  (`RateLimit.BoundaryCallInOldWindow`).
- The capacity check at src/lib/rate-limit.ts:29 comes before the increment
  at line 33, so a rejected call leaves its record unchanged and a stored
  count never exceeds 10 (`RateLimit.FullWindowRejects`, `RateLimit.Step`).

## Model

| member | source | states |
|---|---|---|
| RateLimit.Step | src/lib/rate-limit.ts:17-35 | one call only ever adds or rewrites the caller's own entry, and every other entry is kept as it was; a permitted call reports `remaining = MAX_REQUESTS - count` of the new record; a rejected call reports 0 and leaves the table unchanged; if every stored count is in 1..10 beforehand, it still is afterwards and `remaining` is in 0..9 |
| RateLimit.FirstCallAllowed | src/lib/rate-limit.ts:22-26 | an identifier with no entry is permitted with 9 remaining and gets `{count: 1, lastReset: now}` |
| RateLimit.ElapsedWindowResets | src/lib/rate-limit.ts:24-26 | when `now - lastReset > WINDOW_MS` the entry is reset to one request at `now` and the call is permitted with 9 remaining |
| RateLimit.WithinWindowKeepsStart | src/lib/rate-limit.ts:24-33 | when at most `WINDOW_MS` has passed, the window start is kept and the count does not drop |
| RateLimit.BoundaryCallInOldWindow | src/lib/rate-limit.ts:14-34 | a call exactly 60000 ms after the window start counts in the old window: `{3, 0}` becomes `{4, 0}` with 6 remaining |
| RateLimit.FullWindowRejects | src/lib/rate-limit.ts:29-31 | within the window, a count of at least 10 gives `{success: false, remaining: 0}` and the table is left as it was |
| RateLimit.AllowedCallIncrements | src/lib/rate-limit.ts:33-34 | within the window and below 10, the count rises by exactly one, `lastReset` is unchanged and `remaining` is 10 minus the new count |
| RateLimit.Replay | src/lib/rate-limit.ts:17-35 | successive calls give one verdict per call, leave the caller's entry present, and never touch another identifier's entry |
| RateLimit.ReplayWithinWindow | src/lib/rate-limit.ts:24-34 | calls inside an open window holding `c` requests: the i-th is permitted with `9 - (c + i)` remaining while `c + i < 10` and rejected after; the entry ends holding `min(c + n, 10)` requests with the same start |
| RateLimit.FreshBurst | src/lib/rate-limit.ts:14-34 | for a new identifier and calls all within one window of the first, the i-th call is permitted with `9 - i` remaining for i < 10 and rejected with 0 from then on; after N ≤ 10 calls the last reports `10 - N` remaining |
| RateLimit.TenAllowedThenRejected | src/lib/rate-limit.ts:14-34 | from a new identifier, 10 calls within one window all succeed (the tenth with 0 remaining) and the eleventh fails with 0 remaining |
| RateLimit.SimpleRateLimiter.constructor | src/lib/rate-limit.ts:13 | the limiter starts with an empty table |
| RateLimit.SimpleRateLimiter.Allow | src/lib/rate-limit.ts:17-35 | the verdict and the new table are those of `Step` on the old table; every stored count stays in 1..10; `remaining` is in 0..9; a rejection reports 0 and changes nothing; other identifiers' entries are unchanged |
| Utils.Interpolated | src/lib/utils.ts:8 | a set variable prints as its value, an unset one as "undefined" |
| Utils.AbsoluteUrl | src/lib/utils.ts:7-9 | the URL starts with the base, ends with the path and is as long as both together |
| Utils.AbsoluteUrlEmptyPath | src/lib/utils.ts:8 | the empty path gives back the base URL |
| Utils.AbsoluteUrlUnsetBase | src/lib/utils.ts:8 | with `NEXT_PUBLIC_APP_URL` unset the result is `"undefined"` followed by the path |
| Utils.AbsoluteUrlRecoversPath | src/lib/utils.ts:7-9 | for a fixed base, equal URLs come from equal paths |
| Utils.IsExpired | src/lib/utils.ts:13-15 | a valid date is expired iff its time value is strictly below `now`; an invalid date never is |
| Utils.ExpiredIffBefore | src/lib/utils.ts:13-15 | a valid date is expired iff it is strictly before `now`; a date equal to `now` is not expired |
| Utils.InvalidDateNeverExpires | src/lib/utils.ts:14 | an invalid date (time value NaN) is never expired |
| Utils.ExpiryMonotone | src/lib/utils.ts:14 | a date expired at one time is expired at every later time |
| Routes.IsApiAuthRoute | src/lib/routes.ts:10 | the path begins with "/api/auth" (its first nine characters are exactly the prefix), so it is absolute |
| Routes.IsAuthRoute | src/lib/routes.ts:3-8 | a sign-in page begins with "/" and is not the post-login target "/" |
| Routes.IsPublicRoute | src/lib/routes.ts:1 | a public page begins with "/", is not a sign-in page and is not "/" |
| Routes.RouteTestsDisjoint | src/lib/routes.ts:1-10 | no path is both a sign-in page and a public page, and neither kind of page is under "/api/auth" |
| Routes.ListedOutsideApiPrefix | src/lib/routes.ts:1-10 | no page of either table has "/api/auth" as a prefix |
| Routes.RouteTables | src/lib/routes.ts:1-8 | the public table is exactly `["/verify-email"]` and the sign-in table is exactly the four listed paths, in order |
| Routes.RouteTablesDistinct | src/lib/routes.ts:1-8 | the sign-in table has no duplicates and shares no path with the public table |
| Routes.RoutesRooted | src/lib/routes.ts:1-12 | every listed page, the API prefix and `DEFAULT_LOGIN_REDIRECT` begin with "/"; `DEFAULT_LOGIN_REDIRECT` is in neither table |
| Routes.SamplePaths | src/lib/routes.ts:1-10 | "/login" is a sign-in page, "/verify-email" is public, "/api/auth/callback" is under the API prefix, "/dashboard" is none of these |

## Left out

- The Upstash sliding-window limiter `rateLimit` (src/lib/rate-limit.ts:1-10): a client of a remote Redis store whose library is not part of this model. No code composes it with `simpleRateLimit`, so no fallback between the two is modelled.
- `generateToken` (src/lib/utils.ts:10-12): a call to `crypto.randomUUID`, a source of randomness.
- `cn` (src/lib/utils.ts:4-6): a wrapper over the `clsx` and `tailwind-merge` libraries.
- `Date.now()`, `new Date()` and `process.env`: the clock and the environment become the parameters `now` and `appUrl`.
- RateLimit.SimpleRateLimiter.Allow: `record.count++` updates the record object held by the map in place; the model writes a new record into the map instead. No other reference to a record escapes the module, so the two are indistinguishable to callers.
- RateLimit.Step: times and counts are unbounded integers. JavaScript numbers are doubles, but millisecond timestamps and counts up to 10 stay far inside the range where they are exact.
- Utils.IsExpired: dates outside JavaScript's representable range (more than 8.64e15 ms from the epoch) are not modelled as invalid.
- The module-level table is shared by all concurrent requests of one process; the model treats each call as one atomic step (JavaScript runs the body without suspending), and does not model several processes.
- Token issuing and consumption, and any middleware that classifies paths: no such code exists in src/lib; only the route constants and membership tests are modelled.
- The session helpers in src/actions/session.actions.ts, the NextAuth configuration in src/lib/auth.edge.ts, the React pages and components, and the generated Convex declarations: wrappers, configuration or presentation without logic of their own.
