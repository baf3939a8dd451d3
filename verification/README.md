# Verified models of the toolkit's core

This project models the parts of the toolkit whose promises are hardest to see in the code,
and proves them with Dafny:

- the vendored dotenv printer and parser, when they undo each other, and what files written by
  hand mean;
- the keyed rate limiters of the OAuth package and the single ones of the Slack package,
  with their background cleanup;
- the two circuit breakers, without overlap and under every interleaving, and the Slack
  retry loop above one of them;
- the loader that fills tagged structs from the environment, with its prefixes and slices;
- authorization sessions as concurrent steps, and proof keys;
- the response time statistics, and the in-memory cache.

`dafny verify dfyconfig.toml` checks everything.

## How it is laid out

Code of the source that works by expressions is written as functions. Code that updates
things is written as classes and methods with loops; each method's contract ties its result
or the whole new state to a function of the old one, and the theorems are about those
functions, over whole runs. Where several goroutines matter there is a second model whose
steps are what happens between two uses of a lock, and the theorems hold of every sequence of
steps. Times are real numbers, or integers where the source computes with nanoseconds; states
drawn at random, verifiers, the clock and the network are parameters.

| files | source |
|---|---|
| `Decimal`, `DotenvText`, `DotenvParser`, `DotenvLine`, `DotenvRoundTrip`, `DotenvMarshal`, `DotenvValues`, `DotenvDocuments` | `config/dotenv/` |
| `RateLimiting`, `TokenBucket`, `TokenBucketSteps`, `SlidingWindow`, `SlidingWindowSteps` | `oauth/rate_limiter.go`, `slack/rate_limiter.go` |
| `OauthBreaker`, `OauthBreakerSteps`, `OauthBreakerAlone`, `OauthProbes` | `oauth/circuit_breaker.go` |
| `SlackBreaker`, `SlackBreakerRuns`, `SlackRetry`, `SlackRetryRuns` | `slack/circuit_breaker.go`, `slack/service.go` |
| `EnvSlices`, `EnvLoader`, `EnvLeaves`, `EnvPrefix`, `EnvTwice` | `config/env/env.go` |
| `Pkce`, `OauthSessions`, `OauthSessionRuns`, `OauthSessionSteps`, `OauthSessionGaps`, `OauthSessionInstances`, `OauthProofKeys` | `oauth/pkce.go`, `oauth/service.go`, `oauth/multi_provider_service.go` |
| `ResponseTimes` | `oauth/monitoring.go` |
| `MemoryCache`, `MemoryCacheRuns` | `cache/driver/memory/memory.go` |
| `Options`, `Sizes`, `Sequences`, `Numbers` | what several modules share |

Every lemma is marked `{:induction false}`: where a proof is by induction, its body says so.

## Where the code and its promises part

Each of these is a theorem, with its exact condition:

- A map comes back from `Unmarshal(Marshal(m))` if and only if no value ends in `"` or `\`
  (`DotenvMarshal.RoundTrip`); values that `Atoi` accepts come back in canonical decimal.
- A reference `$(NAME` is expanded like `$NAME`, the parenthesis with it, where the code means to
  leave it alone: it compares the wrong group of its match (`DotenvValues.ExpandReference`). A
  last line without a separator is bound to the empty key (`DotenvDocuments.NoSeparator`).
- The token bucket's cleanup changes no decision, of calls that do not overlap, if and only if
  the burst is at most twice the rate (`TokenBucket.CleanupUnobservable`), and under the same
  condition it keeps the bound on what is granted (`TokenBucket.GrantBoundExactly`). `GetStatus`
  of a key without a bucket reports the rate, not the burst (`TokenBucket.StatusExact`), and as
  many requests as its `Limit` are granted at its `Reset` if and only if the rate is at most the
  burst (`TokenBucket.LimitAtReset`). `RetryAfter` of the token bucket is cut to whole seconds and so is too short unless the wait is whole
  (`TokenBucket.RetryAfterExact`); by default it is always zero (`TokenBucket.RetryAlwaysZero`).
- `AllowN` lets go of the limiter's lock before it takes that of the bucket or window. A cleanup
  in between keeps the admission bound if and only if nobody who could still be admitted is
  holding what it removes, and, of a bucket, it is full by now (`TokenBucketSteps.CleanupExactly`,
  `SlidingWindowSteps.CleanupExactly`), and in every configuration somebody can be
  (`TokenBucketSteps.HeldAndIdle`, `SlidingWindowSteps.HeldAndEmpty`). A reset in between takes
  effect for good if and only if nobody is holding what it removes: otherwise even what is
  admitted after it exceeds the bound (`TokenBucketSteps.ResetExactly`,
  `SlidingWindowSteps.ResetExactly`).
- `MaxHalfOpenRequests` is documented as the maximum number of requests in the half-open
  state. Of n goroutines no more than that many probe at once if and only if n is no more than
  that: with one goroutine more the limit fails in every configuration
  (`OauthProbes.ProbeLimitExactly`).
- The half-open refusal of the Slack breaker is dead code if and only if `CircuitMaxRequests`
  is at least 1, which the configuration does not check (`SlackBreaker.HalfOpenRefusalDead`).
- The documented backoff holds if and only if the maximum delay is not negative, which the
  configuration does not check either (`SlackRetry.BackoffFormula`).
- A prefix comes off the environment for every keyed struct if and only if it is empty or
  ends in an underscore (`EnvPrefix.PrefixHomomorphism`).
- The padding of a code verifier that "shouldn't happen" happens exactly for the lengths of the
  form 4n + 1 (`Pkce.PaddingNeeded`).
- A session may expire between the check and the call of the provider. No call that follows is
  late if and only if no goroutine past the check is holding an expired session
  (`OauthSessionGaps.OnTimeExactly`); no run at all makes a late call if and only if the timeout
  is negative and there are no calls (`OauthSessionGaps.NeverLate`).
- The provider may be replaced by another under its name any time between `GetAuthURL` and the
  lookup in `Exchange`, also without overlap (`OauthSessionInstances.OtherInstance`). Every call
  goes to the instance that made the URL if and only if providers are never unregistered or
  there are no calls at all (`OauthSessionInstances.InstancesExactly`). One `UnregisterProvider`
  is harmless if and only if no unexpired session of the name is being made, stored or redeemed
  (`OauthSessionInstances.UnregisterExactly`).
- `GetAuthURL` reads the clock twice, so a session may expire later than the timeout after its
  creation; the cleanup goes by both. A sweep goes unnoticed if and only if it finds no session
  over age that has not expired (`OauthSessionRuns.SweepExactly`), as is always the case if both
  readings give the same time (`OauthSessionRuns.OneReadingPunctual`).
- The cache's size counter is the sum of the sizes after a `Set` if and only if the key was
  absent or empty, or a limit is on and leaves room for the value in place of the old one
  (`MemoryCacheRuns.SetAccounts`). With n refused overwrites the cache holds at most 2^n times
  its limit (`MemoryCacheRuns.BytesBound`), and for every n it can hold as much
  (`MemoryCacheRuns.LimitExceeded`).

## Model

| member | source | states |
|---|---|---|
| `Decimal.NumeralInjective` | config/env/env.go:234-247 | the decimal numerals that name slice items are different for different indices |
| `Decimal.AtoiOfItoa` | config/dotenv/godotenv.go:112-113 | Atoi reads back exactly what the %d verb prints, on the 64-bit range and nowhere else |
| `Decimal.AtoiExactly` | config/dotenv/godotenv.go:112-113 | Atoi accepts exactly the decimal numerals of the 64-bit range, with leading zeros and a sign as they like, and gives their number |
| `DotenvText.DoubleQuoteEscape` | config/dotenv/godotenv.go:161-173 | the seven successive replace passes over the whole line equal one escape per character |
| `DotenvText.EscapeCharExactly` | config/dotenv/godotenv.go:161-173 | escaped are exactly the seven special characters, the line breaks by their letters |
| `DotenvText.AlphabetsExactly` | config/dotenv/parser.go:83-107 | the characters of names, keys, blanks and line ends, letter by letter |
| `DotenvText.PassOnString` | config/dotenv/godotenv.go:162-171 | pass n + 1 takes a line escaped for the first n specials to one escaped for n + 1: no pass touches what an earlier one produced |
| `DotenvText.ExpandOfEscapeThen` | config/dotenv/parser.go:192-205 | undoing the escapes of an escaped text followed by t gives the text followed by what t expands to, unless that begins with a dollar |
| `DotenvText.ExpandUndoesEscape` | config/dotenv/parser.go:192-271 | expandVariables(expandEscapes(doubleQuoteEscape(v)), m) = v for every string v and every variable map m |
| `DotenvParser.StatementStart` | config/dotenv/parser.go:50-68 | the next statement is a suffix of the source that starts with neither space nor comment, or there is none |
| `DotenvParser.LocateKeyName` | config/dotenv/parser.go:71-117 | the loop over the source finds the key and the rest after the separator, the text without a separator and the error cases included |
| `DotenvParser.ExtractVarValue` | config/dotenv/parser.go:120-190 | the comment scan and the quote scan give the value and the rest, or the error of an unterminated quote |
| `DotenvParser.StatementProgress` | config/dotenv/parser.go:20-45 | each iteration leaves a strictly shorter suffix, with or without a separator, a value or quotes |
| `DotenvParser.ParseBytes` | config/dotenv/parser.go:20-45 | terminates on every input with the bindings and the error of the recursive specification, the map kept as it was at the error |
| `DotenvParser.UnmarshalBytes` | config/dotenv/godotenv.go:100-105 | parses into an empty map and returns what was bound before an error; `DotenvDocuments.DocumentMeans` and `DotenvMarshal.RoundTrip` say what that is |
| `DotenvLine.SurvivorLine` | config/dotenv/parser.go:120-190 | a printed line whose value does not end in a quote or a backslash is read back as its key and canonical value, whatever lines follow |
| `DotenvLine.LostLine` | config/dotenv/parser.go:161-178 | any other printed line fails to parse or binds its key to another value, whatever lines follow |
| `DotenvLine.QuoteEndingValue` | config/dotenv/parser.go:167-173 | a value that ends in a quote comes back with a backslash in the place of the quote |
| `DotenvLine.BackslashEndingValue` | config/dotenv/parser.go:155-164 | a value that ends in a backslash swallows its closing quote: none closes it, which is an error, or one further on does, and a different value takes part of the text that follows |
| `DotenvRoundTrip.StatementConserves` | config/dotenv/parser.go:20-190 | in text whose dollars are all escaped, a statement that binds a named key spends one separator more than its value and the rest together hold |
| `DotenvRoundTrip.ParseConserves` | config/dotenv/parser.go:20-45 | over a whole parse the bound values gain no more separators than the text holds, and one fewer when a key is bound again to something else |
| `DotenvRoundTrip.TextParses` | config/dotenv/parser.go:20-45 | a text of printed lines whose values all survive parses to exactly its bindings |
| `DotenvRoundTrip.TextLoses` | config/dotenv/parser.go:20-190 | a text with a line that does not survive never parses to its bindings: later lines cannot repair the loss |
| `DotenvMarshal.Sort` | config/dotenv/godotenv.go:118 | sorting permutes the lines |
| `DotenvMarshal.SortedUnique` | config/dotenv/godotenv.go:118 | two sorted lists of the same lines are the same list, the order being byte-wise |
| `DotenvMarshal.BelowExactly` | config/dotenv/godotenv.go:118 | the order is decided by the first character in which two lines differ, and a line comes before what it is the beginning of |
| `DotenvMarshal.Marshal` | config/dotenv/godotenv.go:109-120 | the loop over the map in any order prints the sorted lines of the map, integers bare and other values escaped in quotes |
| `DotenvMarshal.MarshalDeterministic` | config/dotenv/godotenv.go:109-120 | the text does not depend on the order in which the map is walked |
| `DotenvMarshal.RoundTrip` | config/dotenv/godotenv.go:95-120 | for every map with non-empty keys over letters, digits, _ and ., Unmarshal(Marshal(m)) is m in canonical form without error if and only if no value ends in a quote or a backslash |
| `DotenvMarshal.CanonicalMeans` | config/dotenv/godotenv.go:112-113 | a value is its own canonical form unless Atoi accepts it, and then it is the decimal of the number |
| `DotenvValues.ExpandReference` | config/dotenv/parser.go:241-271 | a reference $NAME or ${NAME}, with or without an opening parenthesis, becomes the value bound to the name, or nothing if there is none |
| `DotenvValues.ExpandDollar` | config/dotenv/parser.go:241-271 | a dollar sign with no name after it stays |
| `DotenvValues.ValueMeans` | config/dotenv/parser.go:120-190 | a value of words, references and dollar signs, plain with a comment after it or not, in double quotes or in single quotes, is read back as its words and what its references are bound to; single quotes keep all as it is, and the comment is cut |
| `DotenvDocuments.AssignMeans` | config/dotenv/parser.go:71-117 | a line with or without export, with blanks around the separator, binds its key to what its value means |
| `DotenvDocuments.DocumentMeans` | config/dotenv/parser.go:20-45 | Unmarshal of any file of such lines, comment lines and empty lines, with either line end, binds each key to what its value means with the bindings above it, without an error |
| `DotenvDocuments.BrokenDocument` | config/dotenv/parser.go:20-45 | after any such lines, the first statement that fails ends the parse with its error and the bindings above it |
| `DotenvDocuments.KeyRefused` | config/dotenv/parser.go:95-107 | a key with any other character in it is refused, and that character is reported |
| `DotenvDocuments.QuoteRefused` | config/dotenv/parser.go:181-189 | a quote that nothing closes is refused, with its first line |
| `DotenvDocuments.NoSeparator` | config/dotenv/parser.go:110-116 | key characters up to the end of the file, with no separator, are bound to the empty key |
| `DotenvDocuments.NothingToExport` | config/dotenv/parser.go:73-112 | export with nothing but blanks after it is refused |
| `RateLimiting.WithDefaults` | oauth/rate_limiter.go:54-80 | the defaults make any configuration valid and change no valid one |
| `RateLimiting.DefaultsExactly` | oauth/rate_limiter.go:54-80 | each setting that is not positive is given its default, and no other is touched |
| `TokenBucket.TokenBucketLimiter.AllowN` | oauth/rate_limiter.go:88-128 | the whole new map and the answer of a call that nobody overlaps: refill up to the burst, grant and deduct, or deny; non-positive counts and a full map change nothing |
| `TokenBucket.TokenBucketLimiter.Reset` | oauth/rate_limiter.go:131-137 | forgets the key and no other |
| `TokenBucket.TokenBucketLimiter.GetStatus` | oauth/rate_limiter.go:140-175 | limit, remaining, reset and the truncated wait, without touching the bucket |
| `TokenBucket.TokenBucketLimiter.Cleanup` | oauth/rate_limiter.go:178-195 | removes exactly the buckets idle for more than two intervals |
| `TokenBucket.AskByLevel` | oauth/rate_limiter.go:88-128 | AllowN grants if and only if n is at most the level, lowers the level by what it grants, and leaves every other key's level alone |
| `TokenBucket.AnswerExactly` | oauth/rate_limiter.go:88-128 | when AllowN refuses for the count or for the room, and that a new key takes up room whether it is granted or not |
| `TokenBucket.SweptExactly` | oauth/rate_limiter.go:178-195 | the cleanup removes a key if and only if nobody has used it for more than two intervals |
| `TokenBucket.StepKeepsWf` | oauth/rate_limiter.go:88-195 | tokens stay in [0, Burst], clocks never run ahead and the map stays within its capacity, over every step |
| `TokenBucket.SweepKeepsLevels` | oauth/rate_limiter.go:178-195 | with Burst at most 2 * Rate a bucket that is swept away was full, so no level changes |
| `TokenBucket.CleanupUnobservable` | oauth/rate_limiter.go:54-195 | of calls that do not overlap: sweeps inserted anywhere change no decision, in all runs not at capacity, if and only if Burst is at most 2 * Rate |
| `TokenBucket.GrantBound` | oauth/rate_limiter.go:88-128 | of calls that do not overlap: over any stretch of any run without a reset of the key, and without sweeps unless Burst is at most 2 * Rate, the tokens granted are at most the level at the start plus rate * time, hence Burst + rate * time |
| `TokenBucket.GrantBoundExactly` | oauth/rate_limiter.go:54-195 | of calls that do not overlap: in all runs with sweeps at any moments and no reset of the key, from the empty map, the tokens granted are at most Burst + rate * time, if and only if Burst is at most 2 * Rate |
| `TokenBucket.StatusExact` | oauth/rate_limiter.go:88-175 | AllowN(n) at the instant of GetStatus succeeds iff n is at most Remaining, for all n, if and only if the key is tracked or Burst equals Rate |
| `TokenBucket.LimitAtReset` | oauth/rate_limiter.go:140-175 | a request at the time Reset, with no other before it, is granted if and only if it is within the burst and within what is there already and Limit together; a request for Limit itself if and only if Rate is at most Burst |
| `TokenBucket.RetryAfterExact` | oauth/rate_limiter.go:140-175 | a request RetryAfter later is granted if and only if the wait for the next token is a whole number of seconds |
| `TokenBucket.RetryTooSoon` | oauth/rate_limiter.go:140-175 | in every configuration a run from the empty map (the burst is taken, and a request comes too early) leads to a state in which the request RetryAfter later is denied |
| `TokenBucket.RetryAlwaysZero` | oauth/rate_limiter.go:158-168 | with more than one token a second, as by default, RetryAfter is always zero |
| `TokenBucket.SlackTokenBucket.Allow` | slack/rate_limiter.go:36-53 | the new tokens and clock, and the answer |
| `TokenBucket.SlackIsOneKey` | slack/rate_limiter.go:36-53 | one step of a Slack bucket is one step of the keyed limiter for one key with an interval of one second |
| `TokenBucket.SlackGrantBound` | slack/rate_limiter.go:36-53 | for any capacity and rate, a stretch of calls from s to t that ends with one let through lets through at most capacity + rate * (t - s), and so does any other if the rate is not negative |
| `TokenBucketSteps.GrantBound` | oauth/rate_limiter.go:88-195 | under every interleaving of the two locked halves of AllowN with cleanups and the clock: from any moment at which no goroutine holds a removed bucket with a request of at most the burst, and without a reset or a cleanup of a bucket so held, the tokens granted are at most the level at the start plus rate * time |
| `TokenBucketSteps.GrantBoundExactly` | oauth/rate_limiter.go:88-195 | and this is where the bound starts from, exactly: from a given moment it holds of all such runs if and only if no goroutine then holds a removed bucket with a request of at most the burst |
| `TokenBucketSteps.ResetExactly` | oauth/rate_limiter.go:131-137 | from a reset on, whatever follows without another removal, at most Burst + rate * time tokens are granted, if and only if no goroutine between its locks holds the bucket with a request of at most the burst |
| `TokenBucketSteps.CleanupUnobservable` | oauth/rate_limiter.go:88-195 | under every such interleaving, with room for new buckets, the cleanups change no decision |
| `TokenBucketSteps.CleanupExactly` | oauth/rate_limiter.go:93-110 | in every configuration, one removal keeps the bound, whatever follows without another, if and only if no goroutine between its locks holds the bucket with a request of at most the burst, and the bucket is full by now |
| `TokenBucketSteps.HeldAndIdle` | oauth/rate_limiter.go:93-110 | in every configuration a cleanup can remove a bucket that is so held |
| `TokenBucketSteps.Uninterrupted` | oauth/rate_limiter.go:88-128 | the two halves with nothing in between are the one step of AllowN |
| `TokenBucketSteps.UninterruptedRemoval` | oauth/rate_limiter.go:131-195 | the cleanup and the reset of the step model do to the key what they do to the map |
| `SlidingWindow.SlidingWindowLimiter.AllowN` | oauth/rate_limiter.go:242-289 | of a call that nobody overlaps: the pruned list, the admission of all n or none, and the capacity refusal |
| `SlidingWindow.SlidingWindowLimiter.Reset` | oauth/rate_limiter.go:292-298 | forgets the key and no other |
| `SlidingWindow.SlidingWindowLimiter.GetStatus` | oauth/rate_limiter.go:301-346 | the remaining count and the time until the oldest request leaves the window |
| `SlidingWindow.SlidingWindowLimiter.Cleanup` | oauth/rate_limiter.go:349-374 | removes exactly the keys with no request in the last two intervals |
| `SlidingWindow.StepKeepsWf` | oauth/rate_limiter.go:242-374 | no list ever holds more than Rate requests, over every step |
| `SlidingWindow.AnswerExactly` | oauth/rate_limiter.go:242-289 | when AllowN refuses for the count or for the room, that a new key takes up room whether it is admitted or not, and that the map stays within its capacity |
| `SlidingWindow.SweptExactly` | oauth/rate_limiter.go:349-374 | the cleanup removes a key if and only if it admitted nothing in the last two intervals |
| `SlidingWindow.StepRemembers` | oauth/rate_limiter.go:242-374 | one step of the pruned list and of the full history give the same answer and keep showing the same windows |
| `SlidingWindow.PruningUnobservable` | oauth/rate_limiter.go:242-374 | of calls that do not overlap: in every run without a capacity refusal, pruning and cleanup at any moment make the decisions of a limiter that keeps the whole history |
| `SlidingWindow.WindowBound` | oauth/rate_limiter.go:242-289 | of calls that do not overlap: in every run without a reset of the key, every window (t - Interval, t] contains at most Rate admissions |
| `SlidingWindow.StatusExact` | oauth/rate_limiter.go:242-346 | AllowN(n) at the instant of GetStatus succeeds iff n is at most Remaining, tracked key or not |
| `SlidingWindow.LimitAtReset` | oauth/rate_limiter.go:301-346 | at the time Reset a request for up to Limit is admitted, and none for more, if none is made before |
| `SlidingWindow.WaitExactly` | oauth/rate_limiter.go:323-346 | there is a wait if and only if nothing remains, and it ends when the oldest request of the window leaves it |
| `SlidingWindow.RetryAfterExact` | oauth/rate_limiter.go:242-346 | when nothing remains, every request for the key before now + RetryAfter is denied, whatever calls for other keys and sweeps come in between, and the first one then is granted |
| `SlidingWindow.SlackSlidingWindow.Allow` | slack/rate_limiter.go:89-111 | the pruned list, and the request added if there was room |
| `SlidingWindow.SlackIsOneKey` | slack/rate_limiter.go:89-111 | one step of a Slack window is one step of the keyed limiter for one key |
| `SlidingWindow.SlackWindowBound` | slack/rate_limiter.go:89-111 | for any limit and window, of calls at ascending times every window (t - window, t] contains at most limit that are let through |
| `SlidingWindowSteps.WindowBound` | oauth/rate_limiter.go:242-374 | under every interleaving of the two locked halves of AllowN with cleanups and the clock: from any moment at which the map shows what was admitted and no goroutine holds a removed window with a request of at most the rate, and without a reset or a cleanup of a window so held, every window (t - Interval, t] contains at most Rate admissions |
| `SlidingWindowSteps.CleanupUnobservable` | oauth/rate_limiter.go:242-374 | under every such interleaving, with room for new windows, the cleanups change no decision |
| `SlidingWindowSteps.ResetExactly` | oauth/rate_limiter.go:292-298 | of what is admitted from a reset on, whatever follows without another removal, every window (t - Interval, t] contains at most Rate, if and only if no goroutine between its locks holds the window with a request of at most the rate |
| `SlidingWindowSteps.CleanupExactly` | oauth/rate_limiter.go:247-263 | one removal keeps that bound, whatever follows without another, if and only if no goroutine between its locks holds the window with a request of at most the rate |
| `SlidingWindowSteps.HeldAndEmpty` | oauth/rate_limiter.go:247-263 | in every configuration a cleanup can remove the window of a first call that is between its locks |
| `SlidingWindowSteps.Uninterrupted` | oauth/rate_limiter.go:242-289 | the two halves with nothing in between are the one step of AllowN |
| `SlidingWindowSteps.UninterruptedRemoval` | oauth/rate_limiter.go:292-374 | the cleanup and the reset of the step model do to the key what they do to the map |
| `OauthBreaker.WithDefaults` | oauth/circuit_breaker.go:83-102 | the defaults make any configuration valid and change no valid one |
| `OauthBreaker.DefaultsExactly` | oauth/circuit_breaker.go:83-102 | each setting that is not positive is given its default, and no other is touched |
| `OauthBreaker.DefaultCircuitBreaker.Call` | oauth/circuit_breaker.go:105-118 | a call is one transition of the automaton Closed(k)/Open(until)/HalfOpen(j), with its outcome and the totals |
| `OauthBreaker.DefaultCircuitBreaker.CallClosed` | oauth/circuit_breaker.go:120-147 | runs fn, and opens on the failure that reaches the threshold |
| `OauthBreaker.DefaultCircuitBreaker.CallOpen` | oauth/circuit_breaker.go:149-167 | refuses until nextRetryTime has passed, then goes half-open and probes |
| `OauthBreaker.DefaultCircuitBreaker.CallHalfOpen` | oauth/circuit_breaker.go:169-206 | counts the probe in and out, refuses above the limit, and closes or reopens by its result |
| `OauthBreaker.DefaultCircuitBreaker.SetState` | oauth/circuit_breaker.go:269-298 | reports a change exactly when there is one, so that the reports form one path that ends in the current state |
| `OauthBreaker.DefaultCircuitBreaker.Reset` | oauth/circuit_breaker.go:247-267 | back to closed with no failures and all totals zero |
| `OauthBreaker.OpensExactly` | oauth/circuit_breaker.go:120-147 | from the start the breaker stays closed throughout if and only if no stretch of failures reaches FailureThreshold |
| `OauthBreaker.OpensHere` | oauth/circuit_breaker.go:120-147 | the call that completes the stretch opens it until Timeout later |
| `OauthBreaker.OpenRefuses` | oauth/circuit_breaker.go:149-167 | while open, no sequence of calls up to nextRetryTime runs fn or changes anything |
| `OauthBreaker.ClosesExactly` | oauth/circuit_breaker.go:149-206 | after the wait it closes if and only if SuccessThreshold probes in a row succeed; otherwise the first failure reopens it until Timeout later |
| `OauthBreakerSteps.StepKeepsInv` | oauth/circuit_breaker.go:105-267 | every interleaved step keeps the invariant that what is left of the locked section restores the accounts |
| `OauthBreakerSteps.EveryInterleaving` | oauth/circuit_breaker.go:120-267 | whenever the lock is free, requests = totalSuccesses + totalFailures, and closed implies consecutiveFailures < FailureThreshold, in every interleaving |
| `OauthBreakerAlone.UninterruptedCall` | oauth/circuit_breaker.go:105-206 | the steps of a call that nobody interrupts are one transition of the automaton, with its totals |
| `OauthBreakerAlone.UninterruptedReset` | oauth/circuit_breaker.go:247-267 | the steps of a reset that nobody interrupts close the breaker and clear all its counters |
| `OauthProbes.ProbeLimitExactly` | oauth/circuit_breaker.go:149-206 | in every interleaving of n goroutines at most MaxHalfOpenRequests probes run at once if and only if n is at most MaxHalfOpenRequests |
| `OauthProbes.OneProbeTooMany` | oauth/circuit_breaker.go:149-180 | in every configuration one goroutine more can break the limit: it swaps the state, the others fill the limit, and then it clears the counter and enters |
| `OauthProbes.ProbeLimit` | oauth/circuit_breaker.go:149-206 | in every run from the start in which the half-open counter is reset only while it is zero, it counts the probes under way and the limit holds |
| `SlackBreaker.CircuitBreaker.AllowLook` | slack/circuit_breaker.go:43-68 | the first half of Allow, under the read lock, decides and changes nothing |
| `SlackBreaker.CircuitBreaker.AllowUpgrade` | slack/circuit_breaker.go:49-58 | the second half, under the write lock, goes half-open only if the breaker is still open |
| `SlackBreaker.CircuitBreaker.Allow` | slack/circuit_breaker.go:43-68 | both halves with nobody in between |
| `SlackBreaker.CircuitBreaker.RecordSuccess` | slack/circuit_breaker.go:71-85 | the new state in each mode |
| `SlackBreaker.CircuitBreaker.RecordFailure` | slack/circuit_breaker.go:88-103 | the new state in each mode, the failure time included |
| `SlackBreaker.CircuitBreaker.Reset` | slack/circuit_breaker.go:113-119 | closed and cleared |
| `SlackBreaker.RunKeepsInv` | slack/circuit_breaker.go:43-119 | in every interleaving of the steps, closed implies failures < maxFailures and half-open implies successCount < maxRequests |
| `SlackBreaker.HalfOpenRefusalDead` | slack/circuit_breaker.go:43-68 | the half-open refusal is never taken, in any interleaving in which every upgrade follows a look that asked for it, if and only if maxRequests is at least 1 |
| `SlackBreakerRuns.StaysClosedExactly` | slack/circuit_breaker.go:71-103 | a closed breaker stays closed over a run, whatever its callers do, if and only if no stretch of failures without a success or reset between them reaches maxFailures |
| `SlackBreakerRuns.OpensHere` | slack/circuit_breaker.go:88-103 | the step that completes the stretch is a failure and opens the breaker at its time |
| `SlackBreakerRuns.OpenUntil` | slack/circuit_breaker.go:43-68 | an open breaker lets nobody through until timeout after the last failure, and asks for the upgrade later than that |
| `SlackBreakerRuns.TrialExactly` | slack/circuit_breaker.go:49-103 | after the upgrade the breaker stays half-open if and only if there is no failure, no reset and not enough successes; the first failure opens it again at its time, and the last success needed closes it with no failures counted |
| `SlackRetry.Execute` | slack/circuit_breaker.go:122-135 | one attempt through the breaker: refused without a request, or made and recorded |
| `SlackRetry.Attempt` | slack/service.go:820-834 | the same with or without a breaker |
| `SlackRetry.SendWithRetry` | slack/service.go:797-847 | the loop gives the result, the number of requests, the base waits and the breaker's state of the recursive specification |
| `SlackRetry.BackoffFormula` | slack/service.go:799-817 | the base wait before retry k is retryDelay for k = 1 and min(retryDelay * 2^(k-1), retryMaxDelay) from k = 2 on, for all k, if and only if retryMaxDelay is not negative |
| `SlackRetry.HopelessFrom` | slack/service.go:797-867 | from any attempt of a run in which every request fails retryably: how many requests remain, how it ends and what it waits |
| `SlackRetry.RetryTimesBreaker` | slack/service.go:797-867 | from a closed breaker with f failures exactly min(maxRetries + 1, threshold - f) requests are made, and the result is ErrCircuitOpen if and only if the breaker cut the retries short |
| `SlackRetryRuns.RetryableExactly` | slack/service.go:922-949 | an error is retried if and only if it is the rate limit, the failed request, or has one of the five phrases in its text |
| `SlackRetryRuns.EndsAt` | slack/service.go:797-847 | the first attempt that succeeds, fails for good, is refused by the breaker or is cut off by the context is the last: the result, the number of requests, the waits and the breaker after all these attempts |
| `SlackRetryRuns.RunsOut` | slack/service.go:797-847 | if there is none, maxRetries + 1 requests are made and the error of the last is reported |
| `SlackRetryRuns.WithoutBreaker` | slack/service.go:797-847 | without a breaker, the number of requests and the result in each of these cases |
| `EnvSlices.OneIndex` | config/env/env.go:442-451 | a variable is named after at most one index of a slice |
| `EnvSlices.Pigeonhole` | config/env/env.go:437-453 | no more indices in a row can be in use than there are variables under the prefix |
| `EnvSlices.Length` | config/env/env.go:440-453 | the length of a slice is the least index that no variable is named after; there always is one |
| `EnvSlices.Collect` | config/env/env.go:434-439 | the list of variables under the prefix, each once, in any order of the map |
| `EnvSlices.Discover` | config/env/env.go:440-453 | the scan terminates with at most as many as there are matching variables, at the least unused index |
| `EnvLoader.DoParse` | config/env/env.go:340-363 | every field is loaded in order and all errors are kept, flattened |
| `EnvLoader.DoParseField` | config/env/env.go:365-408 | the branches for anonymous structs, ignored fields, leaves, structs and slices, an error of the field itself ending its loading |
| `EnvLoader.DoParseSlice` | config/env/env.go:429-491 | discovery, capacity and items, the first item with errors ending the loading and leaving the slice as it was |
| `EnvLeaves.GetExactly` | config/env/env.go:575-652 | what a key stands for: its variable if that is present and not empty, else the default; and when it is reported as not set or empty |
| `EnvLeaves.LeavesExactly` | config/env/env.go:340-491 | at every path, the value of the leaf after loading: the parse of what its full key stands for, if that is something and parses, and else the old value; leaves passed by stay as they are, and there are no others |
| `EnvLeaves.ErrorsExactly` | config/env/env.go:340-491 | the errors of loading any struct, in order: each field the loader comes to reports what is wrong with its own key, and nothing else does |
| `EnvPrefix.GetPrefixed` | config/env/env.go:585-652 | one key looked up under p ++ q is found with the same value or error among the variables of p under q |
| `EnvPrefix.LengthPrefixed` | config/env/env.go:429-453 | a slice has the same length under p ++ q as under q among the variables of p |
| `EnvPrefix.LoadHom` | config/env/env.go:340-491 | for every struct steady at q, loading under p ++ q is loading under q from the variables of p with p taken off, values and errors alike up to p in the key names |
| `EnvPrefix.PrefixHomomorphism` | config/env/env.go:234-491 | for a given p this holds of every keyed struct, every q and every environment if and only if p is empty or ends in an underscore |
| `EnvPrefix.PrefixUnkeyed` | config/env/env.go:640-652 | and of every struct whatever if and only if p is empty or q is not |
| `EnvPrefix.OnlyPrefixMatters` | config/env/env.go:249-262 | environments that agree on the variables that start with p load the same values and errors |
| `EnvTwice.LoadTwice` | config/env/env.go:340-491 | loading a second time from the same environment changes nothing and reports the same errors, for every struct |
| `Pkce.WhatValidates` | oauth/pkce.go:12-90 | challenges are made for exactly S256 and plain, and a verifier passes if and only if it is the original, or hashes as it does |
| `Pkce.EncodeFrom` | oauth/pkce.go:173-174 | unpadded base64url has ceil(4n/3) characters, all unreserved |
| `Pkce.DecodeOfEncode` | oauth/pkce.go:173-174 | decoding gives the bytes back: no bit that was drawn is lost (section 5 of RFC 4648) |
| `Pkce.PaddingNeeded` | oauth/pkce.go:161-192 | for every length from 43 on nothing is cut off, and one padding character is needed if and only if the length is 4n + 1 |
| `Pkce.GenerateCodeVerifierWithLength` | oauth/pkce.go:161-201 | the verifier has the length asked for, consists of unreserved characters, and is the encoded bytes then the padding |
| `Pkce.ValidateVerifier` | oauth/pkce.go:204-218 | accepts exactly 43 to 128 unreserved characters |
| `Pkce.GeneratePkceChallengeWithLength` | oauth/pkce.go:130-158 | succeeds exactly for the lengths 43 to 128 and the two methods, and then passes both validations |
| `OauthSessions.MemorySessionStore.Store` | oauth/service.go:555-560 | the new map |
| `OauthSessions.MemorySessionStore.Retrieve` | oauth/service.go:562-570 | the session, left where it is |
| `OauthSessions.MemorySessionStore.Delete` | oauth/service.go:572-577 | the key is gone and no other |
| `OauthSessions.MemorySessionStore.RetrieveAndDelete` | oauth/service.go:579-592 | the session, and the key is gone in the same step |
| `OauthSessions.MemorySessionStore.Cleanup` | oauth/service.go:594-608 | exactly the expired and the over-age sessions are removed |
| `OauthSessions.MultiProviderService.RegisterProvider` | oauth/multi_provider_service.go:86-103 | registers if and only if the name is not empty, the provider given and the name free |
| `OauthSessions.MultiProviderService.UnregisterProvider` | oauth/multi_provider_service.go:106-116 | removes the name if and only if it is registered |
| `OauthSessions.MultiProviderService.GetProvider` | oauth/multi_provider_service.go:119-129 | the provider under the name |
| `OauthSessions.MultiProviderService.GetAuthURL` | oauth/multi_provider_service.go:144-191 | the URL's state and proof key and the stored session, or an error that stores nothing |
| `OauthSessions.MultiProviderService.Exchange` | oauth/multi_provider_service.go:194-241 | the checks in order up to the call of the provider, the session being gone whatever the outcome |
| `OauthSessions.IssueThenRedeem` | oauth/multi_provider_service.go:144-241 | an issued session reaches the provider with its proof key if and only if the name is its own and registered, it has not expired, and the sweep in between came no later than a timeout after the first of the two clock readings; and never a second time |
| `OauthSessions.IssueExactly` | oauth/multi_provider_service.go:144-191 | when GetAuthURL errs, storing nothing; and otherwise that the URL and the session carry a proof key if and only if the options enable it and the provider supports it, with the drawn verifier, the requested method and its challenge |
| `OauthSessions.RedeemExactly` | oauth/multi_provider_service.go:194-225 | each refusal of Exchange, if and only if it is the first that applies, the session being gone in any case |
| `OauthSessions.FlowsKeepWell` | oauth/multi_provider_service.go:173-187 | issuing, redeeming and the cleanup keep every stored session under its own state and expiring at least one timeout after its creation |
| `OauthSessionRuns.CleanupUnnoticed` | oauth/service.go:594-608 | over every run of calls that do not overlap, cleanups that find no session over age which has not expired change nothing that callers are told, except that an expired session may not be found |
| `OauthSessionRuns.SweepExactly` | oauth/service.go:594-608 | one cleanup goes unnoticed by every later exchange if and only if it finds no session over age which has not expired |
| `OauthSessionRuns.OneReadingPunctual` | oauth/multi_provider_service.go:173-187 | it never finds one if both clock readings of every GetAuthURL give the same time |
| `OauthSessionRuns.StepKeepsWell` | oauth/multi_provider_service.go:144-241 | over every step of such a run each stored session is under its own state and expires at least one timeout after its creation |
| `OauthSessionSteps.StepKeepsInv` | oauth/multi_provider_service.go:144-241 | every interleaved step keeps each state in one place: drawn by one goroutine, stored, taken by one goroutine, or spent |
| `OauthSessionSteps.AtMostOnce` | oauth/multi_provider_service.go:194-241 | in every interleaving each state gets past the lookup at most once, and at most one call of a provider is made for it |
| `OauthSessionSteps.CallsAreGenuine` | oauth/multi_provider_service.go:144-241 | every call of a provider is for a session made here under that provider's name, unexpired when checked, with the verifier that validates against the challenge of any URL sent for the state (section 10.12 of RFC 6749, sections 4.1 to 4.6 of RFC 7636) |
| `OauthSessionSteps.NeverMismatched` | oauth/multi_provider_service.go:206-209 | the state comparison never fails |
| `OauthSessionGaps.OnTimeExactly` | oauth/multi_provider_service.go:194-225 | for every run: whatever the goroutines do next at any point of it, every call is made before its session expires, if and only if at no point a goroutine past the check, with its provider found or to be found, holds an expired session |
| `OauthSessionGaps.NeverLate` | oauth/multi_provider_service.go:194-225 | no run makes a late call if and only if the timeout is negative, and then no run makes any call |
| `OauthSessionGaps.LateCall` | oauth/multi_provider_service.go:194-225 | for every other timeout, a reachable run in which the call is made after the session has expired |
| `OauthSessionInstances.SameInstance` | oauth/multi_provider_service.go:86-225 | in every run in which no provider is unregistered while an unexpired session of its name is being made, stored or redeemed, every call goes to the instance that made the URL for its state |
| `OauthSessionInstances.UnregisterExactly` | oauth/multi_provider_service.go:106-225 | after one UnregisterProvider, whatever follows without another, every call goes to the instance its session was made for if and only if no unexpired session of the name is being made, stored or redeemed |
| `OauthSessionInstances.OtherInstance` | oauth/multi_provider_service.go:106-225 | for every timeout that is not negative, a run in which the call goes to another instance, with both flows uninterrupted and no time passing |
| `OauthSessionInstances.InstancesExactly` | oauth/multi_provider_service.go:86-225 | in all runs every call goes to the instance that made the URL, if and only if providers are never unregistered or the timeout is negative |
| `OauthSessionSteps.UninterruptedExchange` | oauth/multi_provider_service.go:194-241 | without interruption the steps are the sequential flow, and the call is made at the time of the check |
| `OauthSessionSteps.UninterruptedGetAuthURL` | oauth/multi_provider_service.go:144-191 | without interruption the steps are the sequential flow |
| `OauthProofKeys.CallsCarryTheVerifier` | oauth/multi_provider_service.go:144-241 | in every interleaving, every URL and call for a state carries the verifier drawn for it, its challenge and the method asked for, if the options enable proof keys and the provider supports them, and none if not; with an unsupported method there is neither |
| `ResponseTimes.ExchangeSort` | oauth/monitoring.go:367-374 | sorts in place and permutes |
| `ResponseTimes.SortedHasRank` | oauth/monitoring.go:376-379 | element k of a sorted permutation has at least k + 1 samples not above it and at most k below it |
| `ResponseTimes.OneAtRank` | oauth/monitoring.go:376-379 | a rank determines the sample |
| `ResponseTimes.CalculateResponseTimeStats` | oauth/monitoring.go:342-392 | extremes, truncated mean, the samples of the three ranks, Min <= P50 <= P95 <= P99 <= Max and Min <= Average <= Max, with the input untouched and zeros for no samples |
| `ResponseTimes.TruncDivExactly` | oauth/monitoring.go:358-365 | the mean is rounded towards zero |
| `ResponseTimes.DefaultMetricsCollector.RecordDuration` | oauth/monitoring.go:330-340 | appends, and drops the first hundred when there are more than a thousand |
| `ResponseTimes.RemembersLast` | oauth/monitoring.go:330-340 | the kept samples are always a suffix of the history, all of it up to 1000 and then the last 901 to 1000, by an exact count |
| `MemoryCache.Cache.Get` | cache/driver/memory/memory.go:74-90 | the value unless missing or expired |
| `MemoryCache.Cache.Exists` | cache/driver/memory/memory.go:155-171 | true exactly when Get would find a value |
| `MemoryCache.Cache.Set` | cache/driver/memory/memory.go:93-138 | the verdict and the whole new state, the size counter of a refused overwrite included |
| `MemoryCache.Cache.Delete` | cache/driver/memory/memory.go:141-152 | the key and its size are gone |
| `MemoryCache.Cache.Clear` | cache/driver/memory/memory.go:174-192 | the keys with the prefix are gone and the counter is zero |
| `MemoryCache.Cache.RemoveExpired` | cache/driver/memory/memory.go:222-233 | exactly the expired items are gone, with the sum of their sizes |
| `MemoryCacheRuns.RefinesPlainMap` | cache/driver/memory/memory.go:74-233 | over every run, Get and Exists answer as a plain map of the accepted values and their deadlines |
| `MemoryCacheRuns.SweepsUnnoticed` | cache/driver/memory/memory.go:222-233 | runs that differ only in when expired items are removed, with the same values accepted, give the same answers |
| `MemoryCacheRuns.SweepExactly` | cache/driver/memory/memory.go:222-233 | a key is left if and only if Get would still find its value |
| `MemoryCacheRuns.KeysStayBounded` | cache/driver/memory/memory.go:101-106 | the key count never exceeds a positive maxKeys |
| `MemoryCacheRuns.SetAccepts` | cache/driver/memory/memory.go:93-138 | Set accepts if and only if the key is there or there is room for another, and the counter without its old size leaves room for the value; the other items stay |
| `MemoryCacheRuns.SetAcceptsExactly` | cache/driver/memory/memory.go:93-138 | with a limit, after every run without a refused overwrite, if and only if the key fits and all that would then be stored is within the limit |
| `MemoryCacheRuns.SetAccounts` | cache/driver/memory/memory.go:108-135 | after Set the counter is the sum of the stored sizes if and only if the key was absent or empty, or the limit is on and leaves room for the value in place of the old one |
| `MemoryCacheRuns.BytesStayBounded` | cache/driver/memory/memory.go:93-233 | with a limit, in runs in which no overwriting Set is refused, the counter is the sum of the sizes and within the limit |
| `MemoryCacheRuns.BytesBound` | cache/driver/memory/memory.go:93-233 | with a limit, in every run with n refused overwrites the stored bytes are at most 2^n times the limit |
| `MemoryCacheRuns.LimitExceeded` | cache/driver/memory/memory.go:108-119 | and that many are reached: for every limit and every n there is a run with n refused overwrites that stores 2^n times the limit |

## Left out

- DotenvParser.LocateKeyName: does not model keys with bytes outside ASCII, because the source's loop classifies single bytes as Unicode letters and numbers while the trimming around it decodes them; a character of the model stands for one byte and one rune.
- `Load`, `Overload`, `Read` and the files they read are not modelled; they fold the parser over files.
- Integer overflow, the rounding of floating point and the width of durations are not modelled: numbers are unbounded integers and reals. `Atoi` is that of a 64-bit platform.
- TokenBucket.TokenBucketLimiter.AllowN: does not model what other calls do between its two locks, because the class is about calls one at a time; `TokenBucketSteps` has the two locks, for one key, other keys only deciding whether there is room.
- SlidingWindow.SlidingWindowLimiter.AllowN: does not model what other calls do between its two locks; `SlidingWindowSteps` does, in the same way.
- The Slack limiters' `Wait` loops are left out.
- `GetStats` of the OAuth breaker and the breaker manager's map are left out. In the step model of the breaker the `OnStateChange` reports are left out; they are in the class.
- In the retry loop the amount of jitter is a parameter that only lengthens the sleep; the HTTP request is the error it ends in, and logging and metrics are left out.
- EnvLoader.DoParseField: does not model pointer fields, `init` and unknown tag options, nor `expand`, `file`, `unset`, `OnSet` and struct types with their own parser; the loaded struct is returned instead of written through reflection, and parsed values are numbers given by an abstract parser for each kind.
- `Service.Exchange` of the single-provider service falls back to a lookup and a deletion that are not atomic; only the multi-provider service is modelled. The token cache, the session metadata, the encrypted store and the failure of the random source are left out.
- What a provider answers to a call, and everything behind it over HTTP, is left out; SHA-256 is an arbitrary function.
- The counters of the metrics collector are left out, as are the captcha, database, Redis and message parts of the toolkit: library calls and plumbing.
- The cache's values are immutable here; that `Get` and `Set` share the caller's byte slice is not captured. Combining the namespace and the key prefix is left out.
