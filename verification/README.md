# A verified model of the social network service's core

The service answers HTTP requests on a fixed number of worker threads, each of which may lease a
database connection while it runs a request. This project models the parts of it whose correctness
is not visible in any single function, and proves what they are there for.

**The request engine.** `ThreadPoolMachine` is the task queue as a transition system: one action per
step another thread can observe (drawing an id under the mutex, accepting or refusing, a worker's
loop test, wake-up, inner test, pop and completion, the stop flag), with the three counters and the
stop flag read without the mutex. `ThreadPool` is the same pool as an object whose methods are proved
to perform runs of that system. `WaitAll` settles in which order `wait_all` may read its three
counters. `ConnectionLedger`, `RoundRobin` and `ConnectionPool` do the same for the pool of database
connections and its scoped leases: conserved, never shared, in turn, and first in, first out. `App`
composes both; `PoolSizing` shows that the number of connections the service opens is the least one
that never refuses a handler.

**URLs.** `UrlSyntax` says what the iterator parser makes of a text and what the printer writes,
`UrlCodec`, `UrlQuery` and `UrlPath` the percent-escaping, the query parameters and the dot segments;
`Url` is the class with its loops, proved against them. `UrlEscapes` says what each escape and each
byte stands for, `UrlGrammar` what a text composed of its parts reads as. `UrlRoundTrip` and
`UrlExactness` prove for which URLs printing and parsing cancel out: exactly the well-formed ones.
Sections are those of RFC 3986. The code deviates from section 5.2.4 in dropping empty segments and in
keeping a leading ".." of a URL without a scheme even behind a slash; the model follows the code.

**Configuration.** `Endpoint` and `Configuration` are the validation of the database endpoints and of
the thread and queue counts, in place and step by step on a `Url` object; `SocketAddress` is the part
of name resolution it depends on, with the host's name service as a parameter. `ValidatedEndpoint`,
`EndpointStability` and `Service` prove what `db_start` may rely on afterwards, end to end, down to what
the connection strings say: `ConnectionItems` reads them back.

**Addresses.** `IpAddress` relates the byte-wise increment and comparison to the numbers the bytes
stand for, `DnsAddress` proves the in-place removal of duplicates, and `StringReplace` and `Ipv6Text`
prove that the replace-until-nothing-is-left trimming of IPv6 text ends, and in the one clean text that
such replacing can lead to.

`Text`, `Numbers`, `Tallies`, `Arithmetic` and `Wrappers` hold shared definitions. Text is a sequence
of bytes written as `char`; ASCII is 0..127.

## What the proofs found

Where the code does not do what it or its documentation suggests, the model keeps the code, and the
proofs say for which inputs it does.

- `wait_all` (service/sources/helpers/thread_pool.cpp:40) compares a sum of two counters with the
  third in one expression. C++ does not fix the order of these reads. The comparison is sound exactly
  if `tasks_last_id` is read last, as it stands in the text; otherwise the wait can return with a task
  queued or running.
- `ThreadPoolAdaptor::enqueue` (service/include/app.h:21-25) promises false for a task that was not
  queued. It passes no callback, and then `add_task` returns an id even for a refused task
  (service/include/helpers/thread_pool.h:105-110), so the answer is always true.
- `Url::normalize` loses or invents the root of a relative URL exactly when walking its segments leads
  back to the start without ever going above it and only one end of the path is a slash: "/." becomes
  "" and "./" becomes "/".
- An endpoint that starts with a colon has an empty scheme, which validation lets pass. Printing then
  treats it as a relative URL: if the host resolves, host and port are lost, as for "://h:6432/d". With
  "://h:6432" the database becomes "ostgres" as well.
- Validation prints the host of an endpoint without its brackets before resolving it, and what it looks
  up is the endpoint's own host exactly if that host has no colon and does not itself start with a
  bracket. "postgresql://[::1]:5432/d" is therefore always replaced by the default URL.
- An endpoint whose host does not resolve keeps its URL. `db_start` then ends in an exception exactly if
  some such endpoint has no path, as for "nohost"; every other validated configuration starts.
- A login, password, host or database with a space in it is written into the connection string as it is
  (service/sources/app.cpp:141-146 and 155-160), and the string then does not read back as them; without
  spaces it always does.

## Model

| member | source | states |
|---|---|---|
| ThreadPoolMachine.StepInv | service/sources/helpers/thread_pool.cpp:46-76 | every step of an admission, of a worker loop and of shutdown keeps the invariant: ids accounted for, histories ordered, at most one thread in the critical section |
| ThreadPoolMachine.ReachableInv | service/sources/helpers/thread_pool.cpp:46-76 | the invariant holds after every run, for every number of workers and capacity |
| ThreadPoolMachine.EveryIdInOnePlace | service/include/helpers/thread_pool.h:88-111 | at any time every id drawn is in exactly one of refused, completed, queued, running or mid-admission, and no other id is anywhere |
| ThreadPoolMachine.NoTaskRunsTwice | service/sources/helpers/thread_pool.cpp:53-71 | no id is ever started twice, and none runs on two workers at once |
| ThreadPoolMachine.CountersAddUp | service/include/helpers/thread_pool.h:94-104 | `last_id` is refused + completed + queued + running + mid-admission; the queue never exceeds the capacity and running tasks never exceed the workers |
| ThreadPoolMachine.TasksStartInOrder | service/sources/helpers/thread_pool.cpp:53-56 | started ids followed by queued ids are the accepted ids, strictly increasing: first in, first out, nothing invented |
| ThreadPoolMachine.PopFindsTask | service/sources/helpers/thread_pool.cpp:53-56 | between the test of the inner `if` and the `pop` the queue cannot become empty |
| ThreadPoolMachine.BalancedIsQuiescent | service/sources/helpers/thread_pool.cpp:39-41 | if the three counters balance at one moment, nothing is queued, running or mid-admission then |
| ThreadPoolMachine.SnapshotIsSound | service/sources/helpers/thread_pool.cpp:36-42 | read one after the other without the mutex, with any steps in between: if `last_id` is read last, equality still means that nothing is pending at that read |
| ThreadPoolMachine.QuiescenceLasts | service/sources/helpers/thread_pool.cpp:36-76 | a quiescent pool stays quiescent through every run without a new admission |
| ThreadPoolMachine.StopAfterWaitDropsNothing | service/sources/helpers/thread_pool.cpp:9-16 | if the pool was quiescent and no task was added since, stopping it drops nothing: every accepted task has completed, once |
| ThreadPoolMachine.StopDropsExactlyTheQueue | service/sources/helpers/thread_pool.cpp:9-16 | when all workers have left their loops, the accepted tasks that never ran are exactly those still queued |
| ThreadPoolMachine.StopStartsAtMostOne | service/sources/helpers/thread_pool.cpp:49-57 | once the stop flag is up, at most the one worker that had already passed the test still starts a task |
| WaitAll.SoundExactlyWhenTotalIsReadLast | service/sources/helpers/thread_pool.cpp:39-41 | among the six orders in which three counters can be read, exactly those that read `last_id` last make the comparison sound |
| WaitAll.RefusalsLastRuns | service/sources/helpers/thread_pool.cpp:39-41 | a run in which reading the refusals last lets the wait return with a task running |
| WaitAll.CompletionsLastRuns | service/sources/helpers/thread_pool.cpp:39-41 | a run in which reading the completions last lets the wait return with a task queued |
| ThreadPool.ThreadPool.constructor | service/sources/helpers/thread_pool.cpp:18-34 | the object starts in the initial state of the transition system |
| ThreadPool.ThreadPool.AddTask | service/include/helpers/thread_pool.h:88-111 | the new state is that of the admission steps; the result is empty exactly if the task was refused and there was a callback, otherwise the id drawn |
| ThreadPool.ThreadPool.Run | service/sources/helpers/thread_pool.cpp:46-76 | one worker alone empties the queue in order, completing every task, and keeps the object a reachable state |
| ThreadPool.ThreadPool.RunIteration | service/sources/helpers/thread_pool.cpp:50-72 | one turn of the loop starts and completes the oldest queued task |
| ThreadPool.ThreadPool.WaitAllCanReturn | service/sources/helpers/thread_pool.cpp:39-41 | evaluated with nothing in between, the wait condition holds exactly if the pool is quiescent |
| ThreadPool.ThreadPoolAdaptor.Enqueue | service/include/app.h:21-25 | the answer is always "enqueued"; it is right exactly if there was room |
| ConnectionPool.ConnectionPool.constructor | service/include/app_connection_pool.h:36-61 | every configured node gets the requested number of new connections |
| ConnectionPool.OpenNodes | service/include/app_connection_pool.h:42-60 | the two construction loops open numbered, pairwise different connections node by node |
| ConnectionPool.ConnectionPool.GetConnection | service/include/app_connection_pool.h:63-99 | the new pool and the lease, or the exception, are those of the value-level operation; the lease is the front of the queue of the node it names, which loses it |
| ConnectionPool.ConnectionPool.ReleaseConnection | service/include/app_connection_pool.h:101-115 | the connection goes to the back of the queue of the node it names, and to no other |
| ConnectionPool.ScopedConnection.Acquire | service/include/app_connection_pool.h:130-138 | a scoped connection exists exactly if the lease was granted, and holds that lease |
| ConnectionPool.ScopedConnection.Destroy | service/include/app_connection_pool.h:126-129 | destruction returns exactly the lease held |
| ConnectionLedger.AcquireConserves | service/include/app_connection_pool.h:63-99 | an acquisition, failing or not, keeps idle plus leased connections of every node equal to those it was built with |
| ConnectionLedger.DropConserves | service/include/app_connection_pool.h:101-115 | so does a release |
| ConnectionLedger.ConnectionsAreConserved | service/include/app_connection_pool.h:36-139 | over every sequence of acquisitions and releases each node keeps exactly its connections |
| ConnectionLedger.BuiltDistinct | service/include/app_connection_pool.h:42-60 | a connection belongs to one node of the pool as built, once |
| ConnectionLedger.HeldIsHome | service/include/app_connection_pool.h:118-139 | a leased connection is one its node was built with |
| ConnectionLedger.ConnectionsAreNeverShared | service/include/app_connection_pool.h:36-139 | no two holders have one connection, a held one is not idle anywhere in its node, it was opened for its node, and the silently dropping branch of release is unreachable |
| ConnectionLedger.EnoughForEveryHolder | service/include/app_connection_pool.h:63-99 | a node built with one connection per holder always has an idle one for a holder without |
| ConnectionLedger.ConnectionsQueueUp | service/include/app_connection_pool.h:63-115 | over every run and for every node: the connections leased from it, in order, followed by its idle queue are its first idle queue followed by the connections returned to it, in order |
| ConnectionLedger.EventMovesQueue | service/include/app_connection_pool.h:63-115 | one event takes from the front of a queue, or puts at its back, or leaves it |
| ConnectionLedger.ReturnedGoesLast | service/include/app_connection_pool.h:72-112 | with a and b idle: get, release, get leases a and then b |
| ConnectionLedger.TurnIsServed | service/include/app_connection_pool.h:63-99 | the connection granted is the first idle one of the node whose turn it is, and the call fails exactly if that node has none |
| ConnectionLedger.BuiltAsConfigured | service/include/app_connection_pool.h:42-60 | each configured pair becomes a node of the given size whose connections are all opened with its own text |
| RoundRobin.TurnsAreCyclic | service/include/app_connection_pool.h:69-70 | the k-th selection of a side goes k nodes on from the last one used, cyclically, whatever is leased, released or failing in between |
| RoundRobin.TurnsBySide | service/include/app_connection_pool.h:66-85 | a master preference, or the lack of replicas, only ever selects masters; every other request selects a replica |
| RoundRobin.CountCyclic | service/include/app_connection_pool.h:69-70 | how often a node occurs in a stretch of cyclic selections, exactly |
| RoundRobin.EveryWindowIsFair | service/include/app_connection_pool.h:63-99 | in any window of w selections every one of n nodes is selected floor(w/n) or ceil(w/n) times |
| App.PlayCoupled | service/sources/app.cpp:302-612 | in every run of the composed service only a worker that is running a task holds a connection, and the pool stays conserved |
| App.PlayInv | service/sources/app.cpp:213-218 | the thread pool inside the service keeps its own invariant in every run of the composed service |
| App.EnoughConnections | service/sources/app.cpp:164 | with at least as many connections per node as worker threads no run refuses a connection |
| App.WiringNeverRefuses | service/sources/app.cpp:164 | as wired, no handler ever meets "No connections available": for every interleaving, preference and number of replicas |
| App.QuietMeansAllReturned | service/sources/app.cpp:302-612 | when the counters of the task queue balance, every node has all its connections back |
| PoolSizing.ServeFirstDrains | service/sources/app.cpp:302-612 | n requests admitted and started one after the other take the first n connections of a master |
| PoolSizing.TooFewConnections | service/sources/app.cpp:164 | with fewer connections per node than threads there is a run that refuses one |
| PoolSizing.ConnectionsNeeded | service/sources/app.cpp:164 | no run refuses a connection if and only if each node has at least one per worker thread |
| PoolSizing.WiringIsJustEnough | service/sources/app.cpp:164 | the size chosen is enough, and one less is not |
| UrlCodec.EncodeOnto | service/sources/helpers/url.cpp:496-513 | the loop appends the percent-encoding of the whole text |
| UrlCodec.DecodeText | service/sources/helpers/url.cpp:515-571 | the loop decodes the whole text, or reports it as malformed |
| UrlCodec.EncodeConcat | service/sources/helpers/url.cpp:496-513 | encoding distributes over concatenation |
| UrlCodec.DecodeUndoesEncode | service/sources/helpers/url.cpp:496-571 | decoding an encoded ASCII text gives the text back, whatever the reserved set |
| UrlCodec.EncodeIsPlain | service/sources/helpers/url.cpp:16-20 | encoded text has no byte of the reserved or the illegal set, except the percent sign |
| UrlCodec.EncodeEscapesWell | service/sources/helpers/url.cpp:506-511 | every percent sign in encoded text introduces an escape of two hexadecimal digits |
| UrlCodec.EncodeIsInjective | service/sources/helpers/url.cpp:496-513 | different ASCII texts have different encodings |
| UrlEscapes.EscapeStandsForByte | service/sources/helpers/url.cpp:540-562 | "%" and two digits, each from "0123456789abcdef" or "0123456789ABCDEF", stand for the byte they spell, for every byte |
| UrlEscapes.ByteStandsForItself | service/sources/helpers/url.cpp:526-571 | every other byte stands for itself, except a plus sign where those stand for spaces |
| UrlEscapes.DecodesExactlyWhenWellEscaped | service/sources/helpers/url.cpp:540-562 | a text decodes if and only if every percent sign stands in front of two hexadecimal digits |
| UrlEscapes.UpperCaseSlash | service/sources/helpers/url.cpp:540-562 | "/a%2Fb" decodes to "/a/b" |
| UrlEscapes.PlusReadsAsSpace | service/sources/helpers/url.cpp:526-536 | where plus signs stand for spaces, a well-escaped text decodes as it would with "%20" in their place |
| UrlEscapes.PlusStaysInFront | service/sources/helpers/url.cpp:526-536 | in front of a question mark they stand for themselves |
| UrlEscapes.EncodesExactly | service/sources/helpers/url.cpp:16-20 | letters, digits and the punctuation listed for each part of a URL are printed as they are, everything else as "%" and its two lower-case digits |
| UrlQuery.SetQueryParameters | service/sources/helpers/url.cpp:407-414 | the loop builds the text of all parameters in order |
| UrlQuery.AddQueryParameter | service/sources/helpers/url.cpp:368-374 | one parameter is appended behind a separator |
| UrlQuery.GetQueryParameters | service/sources/helpers/url.cpp:376-405 | the nested loops read the list that the recursive definition describes |
| UrlQuery.ParameterRoundTrip | service/sources/helpers/url.cpp:368-414 | getting what was set gives the same list, for every list of ASCII pairs (empty, repeated, containing separators) and both settings of `plus_is_space` |
| UrlQuery.ComponentReads | service/sources/helpers/url.cpp:385-395 | any text as a name or value: its decoding, each plus sign read as "%20" does or as itself by the setting, and nothing if it is not well escaped |
| UrlQuery.PairReads | service/sources/helpers/url.cpp:376-405 | "name=value" up to the next separator is read as that pair, also with "=" in the value |
| UrlQuery.NameAloneReads | service/sources/helpers/url.cpp:376-405 | a name without an equals sign is read with an empty value |
| UrlQuery.PlusSignsRead | service/sources/helpers/url.cpp:385-395 | "a+b=c+d" is ("a b", "c d") with plus signs as spaces, and ("a+b", "c+d") without |
| UrlPath.GetPathSegments | service/sources/helpers/url.cpp:441-460 | the loop collects the maximal slash-free pieces |
| UrlPath.NormalizeSegments | service/sources/helpers/url.cpp:180-208 | the stack loop reduces the segments |
| UrlPath.BuildPath | service/sources/helpers/url.cpp:732-754 | the loop joins the segments with the leading slash, or the "./" guard, and the trailing slash |
| UrlPath.ReduceIsNormal | service/sources/helpers/url.cpp:180-208 | the stack is always a run of ".." followed by ordinary segments, never "."; without any ".." for absolute URLs |
| UrlPath.NormalizedWalksAlike | service/sources/helpers/url.cpp:180-208 | walking the normalised segments ends where walking the original ones does, from every directory (from the root for absolute URLs) |
| UrlPath.SegmentsOfBuilt | service/sources/helpers/url.cpp:732-754 | a rebuilt path has the segments it was built from, behind a "." where a colon had to be guarded |
| UrlPath.NormalizedPathIsStable | service/sources/helpers/url.cpp:180-208 | normalising is idempotent on every path |
| UrlPath.CancelsExactlyAtDepthZero | service/sources/helpers/url.cpp:180-208 | all segments cancel out if and only if walking them returns to the start without ever going above it |
| UrlPath.NormalizePreservesMeaning | service/sources/helpers/url.cpp:180-208 | normalising keeps what a path denotes from every base, if and only if it is not a relative URL whose walk returns to its start without going above it, with a slash at one end only |
| UrlPath.RootIsLost | service/sources/helpers/url.cpp:180-208 | two members of that family: "/." becomes empty and "./" becomes "/" |
| UrlPath.SegmentsSplitAtSlashes | service/sources/helpers/url.cpp:441-460 | a slash separates the segments of what is in front of it from those behind it, and a text without one is a segment unless it is empty |
| UrlPath.CanonicalPathIsFixed | service/sources/helpers/url.cpp:180-208 | a path of normal segments, guarded where its first one has a colon, is left as it is |
| UrlPath.NormalizedIsCanonical | service/sources/helpers/url.cpp:180-208 | every path whose segments do not all cancel out becomes such a path, with the slashes it had at its ends |
| Url.Url.Assign | service/sources/helpers/url.cpp:584-619 | assigning a text yields the parsed URL or its error, and says what an exception leaves behind |
| Url.Url.ParseText | service/sources/helpers/url.cpp:584-619 | the iterator parser reads what the definition by cases says |
| Url.Url.ParseAuthorityAt | service/sources/helpers/url.cpp:621-639 | the authority loop: the last "@" separates the user info |
| Url.Url.ParseHostAndPortOf | service/sources/helpers/url.cpp:641-688 | bracketed and plain hosts, the port range check and the folding to lower case |
| Url.Url.ParsePathQueryFragmentAt | service/sources/helpers/url.cpp:690-730 | path, query and fragment, a malformed path leaving the old one |
| Url.Url.GetAuthority | service/sources/helpers/url.cpp:252-272 | user info, host in brackets if it has a colon, and the effective port |
| Url.Url.ToText | service/sources/helpers/url.cpp:210-238 | the printed URL |
| Url.Url.Normalize | service/sources/helpers/url.cpp:180-208 | the object's path becomes the normalised one, and nothing else changes |
| UrlSyntax.LookupFinds | service/sources/helpers/url.cpp:313-323 | the default port of a scheme is that of its first table entry |
| UrlRoundTrip.PrintedUrlParsesBack | service/sources/helpers/url.cpp:210-272 | every well-formed URL parses back from its text with the effective port made explicit, hence equal to itself |
| UrlRoundTrip.EqualExactlyWhenPrintedAlike | service/sources/helpers/url.cpp:573-582 | on well-formed URLs equality is equality of the printed text, explicit or default port |
| UrlRoundTrip.NormalizedRelativeStaysRelative | service/sources/helpers/url.cpp:732-754 | the text of a normalised relative URL is never rejected or read with a scheme, and reads back as that URL |
| UrlExactness.RoundTripsExactlyWhenWellFormed | service/sources/helpers/url.cpp:584-730 | a URL with a 16-bit port and an ASCII path parses back from its text if and only if it is well-formed |
| UrlExactness.UnguardedPathIsLost | service/sources/helpers/url.cpp:584-615 | the relative path "a:b" does not |
| UrlExactness.AuthorityComesBackFree | service/sources/helpers/url.cpp:621-688 | whatever text is parsed, user info and host come out free of the delimiters "@", "/", "?" and "#" |
| UrlGrammar.ComposedReads | service/sources/helpers/url.cpp:584-730 | "scheme://user@host:port/path?query#fragment" composed of parts without the delimiters that end them reads as these parts: capitals of scheme and host replaced by their small letters, the path decoded, the rest as it is |
| UrlGrammar.SchemeCaseDoesNotMatter | service/sources/helpers/url.cpp:241-250 | whatever follows the colon, a text reads as it does with the capitals of its scheme replaced by their small letters |
| UrlGrammar.PrintsItsParts | service/sources/helpers/url.cpp:210-272 | a URL with a host prints its parts in this order, with the effective port and a slash for a missing path in front of a query or fragment |
| UrlGrammar.UserIsBetweenTheLastTwo | service/sources/helpers/url.cpp:621-639 | of several "@" the last one ends the user info and the one before it starts it |
| UrlGrammar.PortsInRange | service/sources/helpers/url.cpp:663-682 | a printed port is accepted exactly from 1 to 65535, and an empty one is none |
| Numbers.DecimalRoundTrip | service/sources/helpers/url.cpp:663-682 | a printed port reads back as the same number |
| Numbers.StoIReads | service/sources/helpers/url.cpp:663-682 | space, sign and digits are read as the number they spell if it fits an `int`, whatever follows |
| Numbers.StoUIntReads | service/sources/helpers/dns_address.cpp:215-229 | as an unsigned long, negative numbers wrapped around, cut to 32 bits |
| Numbers.NothingSpelled | service/sources/helpers/url.cpp:663-682 | without a digit behind space and sign nothing is read |
| SocketAddress.SplitAtColon | service/sources/helpers/socket_address.cpp:377-400 | an unbracketed address is cut at its first colon, and refused if a part is empty |
| SocketAddress.OpenBracketFails | service/sources/helpers/socket_address.cpp:381-387 | an unclosed bracket is refused |
| SocketAddress.ColonHostSplits | service/sources/helpers/socket_address.cpp:377-400 | a host with a colon in it is cut there: another host, if any, and another port |
| SocketAddress.BracketedSplits | service/sources/helpers/socket_address.cpp:377-400 | in "[address]:port" the brackets keep the colons of the address from ending it |
| SocketAddress.PortsAndServices | service/sources/helpers/dns_address.cpp:215-229 | a number up to 65535 is the port itself, any other text the name of a service |
| ValidatedEndpoint.OwnHostIsLookedUp | service/sources/configuration/configuration_data.cpp:77-79 | what validation looks up is the endpoint's own host and port, if and only if the host has no colon and does not start with a bracket |
| ValidatedEndpoint.ColonAddressIsRejected | service/sources/configuration/configuration_data.cpp:77-79 | a bracketed address that starts with a colon is rejected, and the default URL put in its place, whatever the name services answer |
| ValidatedEndpoint.LoopbackIsRejected | service/sources/configuration/configuration_data.cpp:77-79 | "postgresql://[::1]:5432/d" is such an endpoint |
| Endpoint.HostedUrl | service/sources/helpers/url.cpp:584-619 | a URL that has a host was read with an authority, and its scheme is empty only behind a leading colon |
| Endpoint.RepackedReads | service/sources/configuration/configuration_data.cpp:79-108 | the repacked URL reads back with scheme "postgresql", no user info or fragment, a port and a database |
| ValidatedEndpoint.ValidatedNamesDatabase | service/sources/configuration/configuration_data.cpp:65-121 | unless name resolution failed, the URL left reads back as such a database URL if and only if it is not an endpoint with a leading colon whose host resolves |
| ValidatedEndpoint.ResolvedConnects | service/sources/app.cpp:136-146 | a resolving endpoint: `db_start` connects to the given host, the given or default port, and the given database or "postgres" |
| ValidatedEndpoint.RejectedConnects | service/sources/configuration/configuration_data.cpp:114-121 | a rejected endpoint: `db_start` connects to the default database on this host |
| ValidatedEndpoint.LeadingColonConnects | service/sources/configuration/configuration_data.cpp:72-108 | with a leading colon and a host that resolves, `db_start` is left without host and port, and without a path with the database "ostgres" |
| ValidatedEndpoint.LeadingColonLosesHost | service/sources/configuration/configuration_data.cpp:72-108 | so any database URL written with a colon for its scheme ends up without a host |
| ValidatedEndpoint.HostIsLost | service/sources/configuration/configuration_data.cpp:72-108 | the endpoint "://h:6432/d" is one |
| ValidatedEndpoint.DatabaseIsGarbled | service/sources/configuration/configuration_data.cpp:72-108 | and "://h:6432" another, whose database becomes "ostgres" |
| ValidatedEndpoint.ConnectsUnlessPathless | service/sources/app.cpp:136-146 | whatever becomes of an endpoint, `db_start` can take its URL apart if and only if it is not one whose host does not resolve and that has no path |
| ValidatedEndpoint.BareHostIsPathless | service/sources/app.cpp:136-146 | an endpoint that is only a name, and does not resolve, is one |
| ValidatedEndpoint.NoHostStops | service/sources/app.cpp:136-146 | for example "nohost" |
| ValidatedEndpoint.CredentialsMove | service/sources/configuration/configuration_data.cpp:88-121 | login and password of a resolving URL move out of it: each is the configured one if there is one, else that of the URL, else "postgres" and the empty password |
| ValidatedEndpoint.OwnCredentialsWin | service/sources/configuration/configuration_data.cpp:101-121 | a configured login or password is kept, whatever becomes of the URL |
| ValidatedEndpoint.DefaultsFillIn | service/sources/configuration/configuration_data.cpp:114-121 | without one in a URL whose host resolves, a missing login becomes "postgres" and a missing password stays empty |
| ValidatedEndpoint.LoginAlone | service/sources/configuration/configuration_data.cpp:88-100 | user info without a colon is a login, not a password |
| ValidatedEndpoint.ResolvedReadsExactly | service/sources/configuration/configuration_data.cpp:79-108 | the URL left for a resolving endpoint has scheme "postgresql", its host and query, no user info or fragment, its port or 5432 and its path or "/postgres" |
| ValidatedEndpoint.UnresolvedKeepsUrl | service/sources/configuration/configuration_data.cpp:110-113 | an endpoint whose host does not resolve keeps its URL, but for a missing scheme |
| EndpointStability.ValidationIsStable | service/sources/configuration/configuration_data.cpp:65-121 | validating a second time changes neither URL nor credentials, if and only if the endpoint is not of that family |
| Configuration.SplitCredentials | service/sources/configuration/configuration_data.cpp:88-100 | login and password are cut at the first colon |
| Configuration.Repack | service/sources/configuration/configuration_data.cpp:79-108 | the steps on the `Url` object leave the repacked URL's text |
| Configuration.ValidateEndpoint | service/sources/configuration/configuration_data.cpp:65-121 | the `try` block, its two handlers and the defaults behind it |
| Configuration.Config.Validate | service/sources/configuration/configuration_data.cpp:61-181 | master and replicas are validated in place, and then both counts (lines 199-211), with the messages about them in order |
| Configuration.Config.ValidateReplicas | service/sources/configuration/configuration_data.cpp:123-181 | the loop validates every replica in its place |
| Configuration.Config.ValidateCounts | service/sources/configuration/configuration_data.cpp:199-211 | a count out of range is replaced by its default, with a message |
| Configuration.NoComplaints | service/sources/configuration/configuration_data.cpp:61-181 | no message about an endpoint or a count if and only if every endpoint resolved and both counts were in range |
| Configuration.CountsAreClamped | service/sources/configuration/configuration_data.cpp:199-211 | one to ten threads and one to 4096 queued requests stay, anything else becomes one thread and 1024 requests |
| Configuration.MessagesInOrder | service/sources/configuration/configuration_data.cpp:61-211 | the messages are those about the master, then those about the replicas, then one for each count out of range |
| Configuration.ReplicaMessagesInOrder | service/sources/configuration/configuration_data.cpp:123-181 | of two parts of the replicas, the messages about the first part come first |
| Configuration.OneMessage | service/sources/configuration/configuration_data.cpp:110-119 | an endpoint that does not resolve is named by the URL examined, with its own scheme or "postgresql://" in front |
| Service.Service.DbStart | service/sources/app.cpp:123-187 | a pool is built, once, exactly if every URL can be taken apart; it is the one opened from the settings: one master, the replicas in their order, and as many connections per node as threads, converted to an unsigned number |
| ConnectionItems.AllReadBackExactlyWhenSpaceFree | service/sources/app.cpp:141-146 | every item of "key=value key=value ..." reads back if and only if no value has a space in it |
| Service.ConnectionTextReads | service/sources/app.cpp:141-146 | in a connection string "user", "password", "host", "port" and "dbname" read as the endpoint's login and password and as its host, port and database, if and only if none of these has a space in it |
| Service.ConnectionsAreOpenedAsConfigured | service/sources/app.cpp:136-164 | so does the text every connection of the master and of each replica is opened with, for its own endpoint; the tag is host and port |
| Service.ResolvingEndpointOpens | service/sources/app.cpp:136-146 | from a resolving endpoint as configured, through validation: the connection string reads as the credentials that win, the host, the port or 5432, and the database or "postgres" |
| Service.ResolvingNodesOpen | service/sources/app.cpp:136-164 | from a configuration as given: so does the text of every connection opened for an endpoint that resolves |
| Service.StartsUnlessPathless | service/sources/app.cpp:136-164 | after validation the service starts if and only if no endpoint has a host that does not resolve and no path |
| Service.StartedServiceNeverRefuses | service/sources/app.cpp:164 | if it starts, no run refuses a handler a connection, and with one connection per node fewer some run would |
| Service.ValidatedServiceNeverRefuses | service/sources/app.cpp:136-164 | both together, from the configuration as given to every run of the service |
| Service.ValidatedSettingsAreStable | service/sources/configuration/configuration_data.cpp:61-211 | validating the whole configuration again changes nothing, if and only if no endpoint is of the leading-colon family |
| IpAddress.IpAddress.Increment | service/sources/helpers/ip_address.cpp:720-742 | the carry loop makes the significant bytes the next ones and leaves the others |
| IpAddress.IncrementAddsOne | service/sources/helpers/ip_address.cpp:720-742 | the next bytes stand for the number plus one, modulo 256^n |
| IpAddress.IncrementsAdd | service/sources/helpers/ip_address.cpp:720-742 | k increments take v to v + k modulo 256^n, for every length n |
| IpAddress.CompareIsNumeric | service/sources/helpers/ip_address.cpp:186-230 | the first difference decides as the big-endian numbers do |
| IpAddress.OperatorsAreNumeric | service/sources/helpers/ip_address.cpp:186-230 | "==", "<" and ">" agree with equality and with the order by family, then number |
| IpAddress.LessIsTotalOrder | service/sources/helpers/ip_address.cpp:217-221 | "<" is a strict total order |
| IpAddress.NextIsGreater | service/sources/helpers/ip_address.cpp:720-742 | incrementing gives a greater address except from all ones, which wraps to zero |
| DnsAddress.RemoveDuplicates | service/sources/helpers/dns_address.cpp:16-25 | compacting in place leaves the first occurrences, for every strict weak order |
| DnsAddress.FirstOccurrencesInOrder | service/sources/helpers/dns_address.cpp:16-25 | the result is the input at increasing positions |
| DnsAddress.FirstIndicesAreFirst | service/sources/helpers/dns_address.cpp:16-25 | these positions are exactly those without an equivalent entry before them |
| DnsAddress.NoDuplicates | service/sources/helpers/dns_address.cpp:16-25 | no two entries of the result are equivalent |
| DnsAddress.NewToTheSet | service/sources/helpers/dns_address.cpp:20-22 | inserting into the set succeeds exactly for first occurrences |
| DnsAddress.AddressesAreOrdered | service/sources/helpers/ip_address.cpp:186-230 | the address operators are such an order, and its equivalence is equality |
| DnsAddress.RemoveDuplicateAddresses | service/sources/helpers/dns_address.cpp:40-47 | a host entry keeps the first occurrence of each of its addresses |
| DnsAddress.EachAddressOnce | service/sources/helpers/dns_address.cpp:16-25 | for addresses: the same addresses as before, each once |
| StringReplace.ReplaceInPlace | service/sources/helpers/string.cpp:117-139 | all occurrences from the start position on are replaced, left to right; a start behind the end is an error |
| StringReplace.ReplacingShortens | service/sources/helpers/string.cpp:117-139 | replacing by a shorter text shortens exactly the texts with an occurrence |
| StringReplace.PiecesAreGlued | service/sources/helpers/string.cpp:117-139 | the text is pieces glued with the old text, the result the same pieces glued with the new one |
| StringReplace.NoneIsPassedOver | service/sources/helpers/string.cpp:117-139 | each piece ends at the first occurrence of the old text, and the last piece has none |
| Ipv6Text.TrimV6String | service/sources/helpers/ip_address.cpp:836-869 | the replace-until-nothing-is-left loops terminate and compute what one pass from left to right does |
| Ipv6Text.DroppingZerosKeeps | service/sources/helpers/ip_address.cpp:858-861 | one replacing pass over ":0" does not change what is left in the end |
| Ipv6Text.ShorteningRunsKeeps | service/sources/helpers/ip_address.cpp:863-866 | nor does one over ":::" |
| Ipv6Text.SeveralDoubleColons | service/sources/helpers/ip_address.cpp:841-846 | the counting loop finds more than one "::" exactly if two of them do not overlap |
| Ipv6Text.TrimmedIsClean | service/sources/helpers/ip_address.cpp:853-868 | unless returned early, the text has no leading "0", no ":0" and no ":::" |
| Ipv6Text.TrimmedIsStable | service/sources/helpers/ip_address.cpp:836-869 | trimming is idempotent on every text |
| Ipv6Text.TrimmedIsReached | service/sources/helpers/ip_address.cpp:853-868 | unless left alone, the result is reached by steps that drop a leading "0" or put ":" for one ":0" or "::" for one ":::" |
| Ipv6Text.TrimmedIsTheOnlyEnd | service/sources/helpers/ip_address.cpp:853-868 | however such steps are chosen, a text from which there is no further step is that result |
| Ipv6Text.CleanStays | service/sources/helpers/ip_address.cpp:853-868 | a text with no leading "0", no ":0" and no ":::" is its own trimming |
| Ipv6Text.LeftAloneExactly | service/sources/helpers/ip_address.cpp:836-851 | a text is returned as it is early if and only if it has two separate "::" or ends with a single colon behind something else |
| Ipv6Text.LoopbackStays | service/sources/helpers/ip_address.cpp:853-868 | "::1" stays "::1" |

## Left out

- Liveness: that a waiting thread is woken is not modelled; a wait that has returned is a hypothesis. Notifications are issued without the matching mutex, so wake-ups can be lost.
- Counters are naturals: the wrap-around at 2^64 is not modelled.
- Tasks and callbacks return, or throw what the worker catches; anything else ends the process. What a handler does with its connection is not modelled beyond leasing at most one and returning it.
- The release of the queue's mutex is one step with the push, the refusal, or the worker's pop that it follows.
- ThreadPool.ThreadPool.Run: states what one worker does when no other thread interferes; interleavings are the transition system's.
- The two selection counters of the connection pool are shared by all pools of a process; the model keeps them in an object of their own that pools refer to.
- Opening a connection always succeeds and yields a new object; SQL, and what a failing constructor leaves behind, are not modelled.
- Service.Service.DbStart: the client thread and the metrics tags are left out, and memory is unlimited: a negative thread count, which validation replaces, is converted to `size_t` and that many connections are opened.
- Service.ConnectionTextReads: items are read as words separated by spaces; quotes and backslashes, which the database library also interprets, are not.
- Configuration.Config.Validate: without the HTTP and metrics listening addresses (lines 183-197 and 213-231 of the cited file), which it also validates and reports.
- Configuration.NoComplaints: a bad listening address is reported too, so the equivalence is one about endpoints and counts only.
- The listening addresses of the HTTP and metrics servers; the exception text inside the messages of validation.
- Name services are a parameter: a function from service names to ports and one from host names to found, unknown or without address. That no service name contains a colon is assumed where a second validation is compared with the first.
- UrlCodec.DecodeUndoesEncode: for bytes 0..127; `encode` formats a possibly signed `char`, so bytes from 0x80 on are not modelled. The same holds for every theorem about printed paths, such as UrlRoundTrip.NormalizedRelativeStaysRelative.
- StringReplace.ReplaceInPlace: returns the new text instead of overwriting its argument; what aliases of the argument see is not modelled.
- Ipv6Text.TrimV6String: nothing is claimed about the address a trimmed text denotes; the loops remove whole groups of zeros.
- DnsAddress.RemoveDuplicates: the ordered set is the list of values it accepted, and membership means an equivalent value; the tree inside is not modelled.
- `std::stoi` and `std::stoul` are modelled as reading leading space, a sign and digits, ignoring the rest; `getaddrinfo`, `inet_pton` and parsing or printing of addresses are not part of this model.
- Logging, metrics, JSON, password hashing, the HTTP server, replication, the command line, file paths, random numbers and the classification of addresses: input/output, foreign libraries, or thin wrappers.
