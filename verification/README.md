# SuperLock, modelled and proved in Dafny

SuperLock stores an organisation's secrets, serves them to a CLI and to SDK caches, rotates them, and tells
connected clients when one changes. This project models the parts of it in which many steps, loops or processes
have to agree, and proves what they keep.

| file | what it models |
|---|---|
| `Text.dfy` | string operations of the standard libraries: replace all, split and join lines, trim |
| `EnvEscape.dfy` | the four passes that print a `.env` value, the five passes that read one, and what those mean on any text |
| `EnvParser.dfy` | the `.env` parser: quote finder, multi-line loop, entry list with its key index |
| `EnvLine.dfy` | the parser's lines as a layout: which lines declare a variable, what comments and single quotes mean |
| `EnvFile.dfy` | the file a pull writes, and what the parser makes of it |
| `EnvHeader.dfy` | the comment header of that file: which project and environment names keep it free of declarations |
| `EnvQuoted.dfy` | files with quoted values over many lines, closed or not |
| `References.dfy` | `${secret:KEY@env}` references: the pattern, the match list, the depth-bounded resolver |
| `Expansion.dfy` | the unbounded expansion, how the bounded one relates to it, and the work bound |
| `ReferenceText.dfy` | resolution text by text: plain parts, unscoped and scoped references |
| `HubProtocol.dfy` | the WebSocket hub as interleaved steps of any number of clients, pumps and broadcasts |
| `HubDelivery.dfy` | the hub's invariant over all runs, deliveries, one broadcast from start to end, the holder of the lock |
| `HubProgress.dfy` | how far pumps, calls and broadcasts get: what is accepted is written |
| `Hub.dfy` | register, unregister and broadcast as methods that change the client map and the buffers |
| `SecretStore.dfy` | rows and version rows, the statements and transactions that write them, the update handler |
| `BulkImport.dfy` | the bulk import transaction, and an account of it that mentions no order |
| `ImportOrder.dfy` | key normalisation, concurrent encryption, and that their order does not matter |
| `SecretHistory.dfy` | runs of creates, updates, deletes, rotations and imports: what the history holds |
| `CurrentValue.dfy` | which ciphertext is the current one, in serial runs and in runs of meeting writes |
| `EditRuns.dfy` | update requests and transactions statement by statement, with everybody else's in between |
| `EditTraces.dfy` | what one of those steps does to one secret, and the traces they leave in a run |
| `EditHistory.dfy` | which of those runs keep a history complete |
| `EditScenarios.dfy` | writes that nobody meets agree with the serial operations; two ways to lose a version |
| `RotationLock.dfy` | the expiring rotation lock shared by any number of workers |
| `LockedRotations.dfy` | the transactions of rotations that run under that lock |
| `Lru.dfy` | least-recently-used caches: the meaning of their operations, inclusion, a pull |
| `PythonCache.dfy` | the cache of the Python SDK, which evicts before it inserts |
| `JavaCache.dfy` | the cache of the Java SDK, which inserts and then evicts |
| `CachesAgree.dfy` | the two fed the same operations |
| `CacheRecency.dfy` | that a hit or a set makes a pair the newest, and that the pair evicted is the one used longest ago |
| `PgSafe.dfy` | SQL quoting and the validation of identifiers |
| `PgLexer.dfy` | how names and quoted text read under the PostgreSQL manual, sections 4.1.1, 4.1.2.1 and 4.1.2.2 |
| `Share.dfy` | shared links with a view limit, requests alone and in flight together |
| `Rbac.dfy` | roles, permissions and scopes |
| `TokenFlow.dfy` | runs of role changes, mints, revocations and CLI login exchanges |
| `TokenOutcomes.dfy` | what minting, logging in, revoking and time do to what a token may be used for |
| `TokenApi.dfy` | the token and code handlers as methods that change the tables |

Loops and objects that the source updates in place are methods and classes, each proved against a function; the
properties are lemmas about those functions. Protocols shared by concurrent processes (hub, rotation lock, shared
links, tokens) are state machines: a step is one access to shared state, one committed statement, or a query or the
commit of a transaction, and a run is any sequence of steps of any number of processes.

How the model states things:

- A secret, token or code row is identified by its position in its table; random identifiers are not modelled.
- Encryption, hashing, key upper-casing and identifier parsing are function parameters, so every result holds
  whatever they compute. The outcome of a call that may fail (a commit, an increment, a delete in the cache) is a
  parameter or a step of its own.
- Time is a natural number of seconds. The rotation lock's key counts as present up to and including its 30th
  second. A shared link is open up to and including its expiry; a token or login code is valid only before it.
- A header line is *silent* when the parser sees no declaration in it. `HeaderCondition` shows that silence is exactly
  what the round trip needs, and `HeaderIsSilentIff` says which names give it.

Where the exact statement is narrower than a plain reading of the source suggests:

- A printed value does not always come back: `\` directly followed by `n`, `r` or `t` is read as the control
  character (`RoundTripFails`). `RoundTripDomain` and `PullRoundTrip` give the exact values and files that do.
- The update handler reads, saves and updates in separate statements and ignores an error of the save.
  `EditKeepsHistoryIff` says exactly when one edit keeps the history complete, with its failures and with whole writes
  of others between its statements.
- Rotations and imports begin their transactions at PostgreSQL's default isolation level, read committed, which lets
  another commit fall between the query that reads a version and the update that replaces it. So one rotation or
  import alone keeps a history complete (`RunKeepsHistory`, `ImportIsCommit`), and two that overlap may not
  (`BothCommit`, `TransactionsOverlap`).
- `CompleteIffUndisturbed` says it for any number of requests and transactions that meet: exactly when no other write
  to the secret falls between a request's read and its update, and none that changes its version between a
  transaction's query and its commit. `RotationInAWindow` and `TransactionsOverlap` are runs that break it.
- The rotation lock keeps rotations from disturbing each other, for runs within its 30 seconds and no longer ones
  (`LockKeepsHistoryIff`); update requests and imports take no lock and still may (`OnlyOthersDisturb`).
- A view limit is a bound on requests served one at a time. With N requests in flight the bound is limit + N - 1
  (`ServedAtMost`), it is reached (`BoundIsReached`), and so the limit holds exactly for serial requests
  (`LimitHoldsIffSerial`).
- A token minted with a token is checked against the role, not against the minting token's scopes. It may do no more
  than its parent exactly when its granted scopes are among the parent's (`WithinParentIff`, `ChildBeyondParent`).
- The rotation lock has no owner check on delete. It works exactly for runs that leave within the key's 30 seconds
  (`SafeIffWithinTtl`).

## Model

| member | source | states |
|---|---|---|
| EnvEscape.EscapeActsPerCharacter | superlock/cli/bin/superlock.js:235-242 | The four replace passes never touch one another's output: together they rewrite each character on its own |
| EnvEscape.PassUnit | superlock/cli/bin/superlock.js:211-218 | One unescape pass rewrites, as it stands after the earlier passes, one unit of the text and nothing around it |
| EnvEscape.PassAdvances | superlock/cli/bin/superlock.js:211-218 | Pass k takes the text as it stands after k passes to the text after k + 1, for every text |
| EnvEscape.UnescapeMeans | superlock/cli/bin/superlock.js:211-218 | On every text the five passes are one reading from left to right: a backslash with n, r, t, a quote or a backslash is one unit, and so are two backslashes before n, r, t or a quote, which read as a backslash and the escape |
| EnvEscape.EscapeStandsFor | superlock/cli/bin/superlock.js:211-218 | After text that ends in no backslash each of the five escapes gives its character, whatever follows; a doubled one unless n, r, t or a quote follows |
| EnvEscape.UnescapeAfterEscape | superlock/cli/bin/superlock.js:211-242 | For every string, the five passes after the four give the string with each n, r or t directly after a backslash turned into its control character |
| EnvEscape.RoundTripDomain | superlock/cli/bin/superlock.js:211-242 | A value comes back as it was exactly when it has no backslash directly followed by n, r or t |
| EnvEscape.RoundTripFails | superlock/cli/bin/superlock.js:211-242 | The two-character value backslash, n comes back as backslash, line feed |
| EnvEscape.EscapedHasNoLineBreak | superlock/cli/bin/superlock.js:235-242 | A printed value holds no line feed and no carriage return |
| EnvParser.FindClosingQuote | superlock/cli/bin/superlock.js:162-171 | The index loop finds what the recursive scan finds; CloseIsFirstClosing says what that is |
| EnvParser.CloseIsFirstClosing | superlock/cli/bin/superlock.js:160-171 | The scan finds the first quote that closes: any single quote, or a double quote after an even run of backslashes; -1 exactly when there is none |
| EnvParser.CloseAcrossLines | superlock/cli/bin/superlock.js:195-210 | Searching line by line finds the same quote as searching the joined text, even when a line ends in a backslash |
| EnvParser.CollectQuoted | superlock/cli/bin/superlock.js:195-210 | The multi-line loop returns the text up to the closing quote of everything that is left, and the line that quote is on |
| EnvParser.ParseEnvContent | superlock/cli/bin/superlock.js:176-233 | On every input the parser ends and returns the declarations collapsed by key, the index map pointing at its entries throughout |
| EnvParser.CollapseOneMore | superlock/cli/bin/superlock.js:226-230 | A repeated key overwrites its entry where it stands; a new key goes to the end |
| EnvLine.DeclarationIsExact | superlock/cli/bin/superlock.js:181-193 | A line is a declaration exactly when it is space, perhaps `export` and space, a valid key, space, an equals sign and the rest; the result is that key and the trimmed rest |
| EnvLine.InlineCommentDropped | superlock/cli/bin/superlock.js:221-224 | An unquoted value ends before the first # that space precedes, and a # elsewhere belongs to it |
| EnvLine.SingleQuotedIsVerbatim | superlock/cli/bin/superlock.js:195-220 | A single-quoted value is the text up to the next single quote as it stands, over any number of lines |
| EnvLine.DoubleQuotedReads | superlock/cli/bin/superlock.js:195-220 | A double-quoted value is the unescaped text up to its closing quote, over any number of lines |
| EnvLine.HandWrittenEscapes | superlock/cli/bin/superlock.js:195-220 | In double quotes a backslash with n, r, t or a quote gives line feed, carriage return, tab or quote between the texts around it |
| EnvQuoted.QuotedFileReads | superlock/cli/bin/superlock.js:176-233 | A file that is one quoted declaration holds just it, over all its lines, even if they look like declarations or comments; only the first line loses space at its end |
| EnvQuoted.UnclosedTakesTheRest | superlock/cli/bin/superlock.js:195-220 | A quote that is never closed takes the rest of the file |
| EnvFile.ParseResultShape | superlock/cli/bin/superlock.js:173-233 | On every input: keys valid and distinct, exactly the declared ones, each with its last declared value |
| EnvFile.FirstKeysInOrder | superlock/cli/bin/superlock.js:226-230 | Keys come in the order of their first declarations |
| EnvFile.LineEndingsAgree | superlock/cli/bin/superlock.js:179 | A file with CRLF or CR line endings parses like the one with LF |
| EnvFile.WrittenLineDeclares | superlock/cli/bin/superlock.js:181-193 | Every line the pull writes for a valid key declares that key with the printed value, and is one line |
| EnvFile.WrittenValueReads | superlock/cli/bin/superlock.js:193-242 | Reading a printed value, quoted or not, stays on its line and gives the value with its control letters folded |
| EnvFile.PulledDeclarations | superlock/cli/bin/superlock.js:749-759 | Under a silent header a pulled file declares exactly its entries, in order, with folded values |
| EnvFile.PullRoundTrip | superlock/cli/bin/superlock.js:749-759 | Under a silent header parsing the pulled file returns the same entries in the same order exactly when keys are valid and distinct and every value is in the round-trip domain |
| EnvFile.HeaderCondition | superlock/cli/bin/superlock.js:750-757 | All storable entry lists round-trip exactly when no header line is a declaration |
| EnvHeader.HeaderIsSilentIff | superlock/cli/bin/superlock.js:750-757 | The header is silent exactly when no line of the project name, the environment name or the time after its first is a declaration, whatever line endings they hold |
| EnvHeader.NamesThatRoundTrip | superlock/cli/bin/superlock.js:749-759 | So all storable entry lists round-trip exactly under such names |
| EnvHeader.OneLineNamesAreSilent | superlock/cli/bin/superlock.js:750-757 | Names without line breaks make the header silent |
| EnvHeader.NameAddsEntry | superlock/cli/bin/superlock.js:749-759 | An entry on the second line of a project name is declared by the written file, before the stored entries |
| EnvHeader.BrokenNameAddsEntry | superlock/cli/bin/superlock.js:749-759 | A pull of nothing under the project name x, line feed, A=1 reads back as the entry A with value 1 |
| References.MatchAtIsExact | superlock/backend/internal/references/resolve.go:14 | The scanner finds a match at a start exactly when the pattern matches there, and a start has only one possible match |
| References.MatchesAreDisjoint | superlock/backend/internal/references/resolve.go:14 | Occurrences of the pattern never overlap |
| References.FindAllIsComplete | superlock/backend/internal/references/resolve.go:27-64 | The leftmost-first match list holds every occurrence, once, from left to right |
| References.MatchesTile | superlock/backend/internal/references/resolve.go:27-64 | The gaps and the matches put together again are the input |
| References.ExtractRefs | superlock/backend/internal/references/resolve.go:73-80 | The keys of all occurrences, in order |
| References.ResolveReferences | superlock/backend/internal/references/resolve.go:22-65 | The builder loop with its last position returns the gaps with each match replaced by its piece, and makes the counted fetches |
| References.ResolveOne | superlock/backend/internal/references/resolve.go:37-61 | One match: its own environment if it names a well-formed one, verbatim if the fetch fails, the fetched text itself when the depth is used up |
| ReferenceText.PlainStays | superlock/backend/internal/references/resolve.go:22-65 | Text without a dollar sign stays, whatever follows it |
| ReferenceText.UnscopedReference | superlock/backend/internal/references/resolve.go:22-65 | A reference without a scope is looked up where it is read and what it fetches is resolved there, one level deeper; it stays as written if nothing is found; what follows it is resolved by itself |
| ReferenceText.ScopedReference | superlock/backend/internal/references/resolve.go:22-65 | One with a scope is looked up, and what it fetches resolved, in the environment its scope parses as, and where it is read if the scope does not parse |
| ReferenceText.ScopeIsTheReader | superlock/backend/internal/references/resolve.go:41-61 | So a found reference that names an environment is the plain reference read there, wherever it stands |
| Expansion.ResolveIsExpansion | superlock/backend/internal/references/resolve.go:22-65 | If every chain has at most d links, resolving with depth d is the unbounded expansion |
| Expansion.DeeperIsTheSame | superlock/backend/internal/references/resolve.go:22-65 | Any larger depth then gives the same result |
| Expansion.DepthIsExact | superlock/backend/internal/references/resolve.go:22-65 | For every depth d a store with a chain of d + 1 links is cut off by d and expanded by d + 1 |
| Expansion.ReadIsExpansion | superlock/backend/internal/handler/secret.go:147-159 | Reading a secret whose chains have at most 5 links answers its full expansion |
| Expansion.FetchesAreBounded | superlock/backend/internal/references/resolve.go:22-65 | If no text has more than b references, at most b + b^2 + ... + b^d fetches are made |
| Expansion.FetchBoundIsTight | superlock/backend/internal/references/resolve.go:22-65 | The bound is met when every text has b references and every fetch succeeds |
| Expansion.FetchBoundIsReached | superlock/backend/internal/references/resolve.go:22-65 | For every b and every depth a store and a text meet it |
| HubProtocol.QuietStep | superlock/backend/internal/ws/hub.go:111-175 | Steps of broadcasts and pumps keep the lock, the membership, the set and the channel invariants |
| HubProtocol.ServeKeepsInv | superlock/backend/internal/ws/hub.go:79-98 | So does every step of register, of unregister and of accepting a connection |
| HubProtocol.SendMeetsOpenChannel | superlock/backend/internal/ws/hub.go:100-127 | A client that a broadcast meets has an open channel |
| HubDelivery.StepKeepsInv | superlock/backend/internal/ws/hub.go:79-190 | Every step of every process keeps the whole invariant, in any interleaving |
| HubDelivery.RunIsFaultFree | superlock/backend/internal/ws/hub.go:100-127 | In no run does a send hit a closed channel, a channel get closed twice, a client go into a set that is not there, or the map change while it is read or written elsewhere |
| HubDelivery.RunMembership | superlock/backend/internal/ws/hub.go:79-98 | In every state of every run a client is in the map exactly between register and unregister, under its own environment, and a free lock means no empty set |
| HubDelivery.RunDelivers | superlock/backend/internal/ws/hub.go:119-126 | Written messages, then the pump's, then the buffered ones are the accepted sends in order; the buffer never exceeds 64 |
| HubDelivery.FrozenWhileRead | superlock/backend/internal/ws/hub.go:116-126 | While a broadcast holds the read lock no step of anyone changes the client map |
| HubDelivery.MembersFrozen | superlock/backend/internal/ws/hub.go:116-126 | From its first step to its last a broadcast iterates one and the same set |
| HubDelivery.BroadcastReachesAll | superlock/backend/internal/ws/hub.go:119-126 | When a broadcast ends it has tried every client of its environment once and no other client |
| HubDelivery.AtMostOneCopy | superlock/backend/internal/ws/hub.go:119-126 | A client is tried at most once by a broadcast, with its message, in its environment |
| HubDelivery.DroppedOnlyWhenFull | superlock/backend/internal/ws/hub.go:120-125 | A send is accepted, at the end, unless 64 messages wait; then it is dropped |
| HubDelivery.BroadcastCanStep | superlock/backend/internal/ws/hub.go:109-126 | A broadcast that holds the lock is never blocked |
| HubDelivery.BroadcastProgress | superlock/backend/internal/ws/hub.go:119-126 | Each own send leaves one client fewer to try, and nobody else's step sets it back |
| HubDelivery.BroadcastFinishes | superlock/backend/internal/ws/hub.go:116-126 | It ends after one step for each remaining client and one to release the lock |
| HubDelivery.WriterProgress | superlock/backend/internal/ws/hub.go:79-98 | The holder of the write lock is never blocked, and every step brings it nearer to the release |
| HubDelivery.WriterFinishes | superlock/backend/internal/ws/hub.go:79-98 | Left to itself, the holder of the write lock releases it after at most four steps of its own |
| HubDelivery.NoDeadlock | superlock/backend/internal/ws/hub.go:57-127 | In every reachable state the lock is free or whoever holds it can step |
| HubProgress.OthersKeepBuffer | superlock/backend/internal/ws/hub.go:79-190 | No step but one of a client's own pump takes a message out of its buffer or writes one, and only a broadcast's send adds one |
| HubProgress.PumpStops | superlock/backend/internal/ws/hub.go:148-175 | A pump that stops has written nothing more and lost at most the message in its hand |
| HubProgress.PumpDrains | superlock/backend/internal/ws/hub.go:148-175 | Left to itself, a pump that has not stopped writes all that waits, in order, in two steps for each buffered message and one more for a message in hand or for starting |
| HubProgress.AcceptedGetsOut | superlock/backend/internal/ws/hub.go:119-167 | From any reachable state every message accepted for the client is then written, in the order of the sends; with the channel closed the pump's next step is to stop |
| HubProgress.BroadcastAsCalled | superlock/backend/internal/ws/hub.go:111-127 | A call to broadcast m in an environment has, when it ends, tried each client that was in the set when it started once, and nobody else, and what it tried to send is m |
| HubProgress.BroadcastOffers | superlock/backend/internal/ws/hub.go:116-127 | Left to itself, a broadcast offers its message to exactly the clients it has still to try, and changes no other |
| HubProgress.BroadcastGetsOut | superlock/backend/internal/ws/hub.go:111-167 | From any reachable state with no writer: a broadcast of m, then the pump of a registered client of that environment with room, end with m written after all that was accepted before |
| HubProgress.NewClientHears | superlock/backend/internal/ws/hub.go:79-167 | From any reachable state with the lock free: a new client may connect and register, and after the next broadcast in its environment has had that message, and nothing else, written to it |
| HubProgress.RegisterCompletes | superlock/backend/internal/ws/hub.go:79-86 | Left to itself, a new connection that finds the lock free is in its environment's set after four steps |
| HubProgress.UnregisterCompletes | superlock/backend/internal/ws/hub.go:88-98 | One that leaves is in no set after five, its channel closed |
| HubObject.Hub.Register | superlock/backend/internal/ws/hub.go:79-86 | Adds the client to its environment's set, created if missing, and changes no other set |
| HubObject.Hub.Unregister | superlock/backend/internal/ws/hub.go:88-98 | Removes the client, drops a set that becomes empty, closes the channel, changes no other set |
| HubObject.Hub.Broadcast | superlock/backend/internal/ws/hub.go:111-127 | Every client of the environment gets the message last in its buffer, or nothing if 64 wait; nobody else is touched |
| HubObject.Hub.Take | superlock/backend/internal/ws/hub.go:157-167 | The pump takes the oldest message, and only that |
| HubObject.Hub.Serve | superlock/backend/internal/ws/hub.go:144-146 | Unregister undoes register: the map is as it was, the channel closed |
| SecretStore.AppendKeepsHistory | superlock/backend/internal/store/secret.go:12-26 | A new secret under a free key keeps keys unique and every history complete |
| SecretStore.BumpKeepsHistory | superlock/backend/internal/store/secret.go:150-185 | Save-and-replace keeps every history complete and only adds to it |
| SecretStore.DeleteKeepsHistory | superlock/backend/internal/store/secret.go:112-115 | So does a soft delete |
| SecretStore.EditKeepsHistoryIff | superlock/backend/internal/handler/secret.go:287-300 | With the tables at the save and at the update given separately: the history ends up complete exactly when the save succeeds just in case the update takes effect, and the row read is the one current at the save and the one the update replaces |
| SecretStore.LoneEditKeepsHistoryIff | superlock/backend/internal/handler/secret.go:287-300 | The same for all tables with nobody in between |
| SecretStore.FailuresCanCancel | superlock/backend/internal/handler/secret.go:287-300 | An edit that saves and cannot encrypt breaks the history, and a next one that cannot save but updates completes it again |
| SecretStore.Store.CreateSecret | superlock/backend/internal/store/secret.go:12-26 | Inserts a row with the ciphertext given, at version 1, exactly when no row of the environment, deleted or not, has the key |
| SecretStore.Store.UpdateSecret | superlock/backend/internal/store/secret.go:89-110 | Makes the ciphertext given the current one and moves the version on, for a live secret only; all else stays |
| SecretStore.Store.SaveSecretVersion | superlock/backend/internal/store/secret.go:117-124 | Adds the version row of the row that was read |
| SecretStore.Store.DeleteSecret | superlock/backend/internal/store/secret.go:112-115 | Marks the row deleted and changes nothing else |
| SecretStore.Store.RotateSecretValue | superlock/backend/internal/store/secret.go:150-185 | All or nothing: the old ciphertext becomes history and the one given current, or the tables stay |
| SecretStore.Store.EditSecret | superlock/backend/internal/handler/secret.go:254-316 | The handler's writes in its order, each failure leaving what came before it; one that gets through leaves the new ciphertext current |
| BulkImport.BulkImportSecrets | superlock/backend/internal/store/secret.go:200-264 | The loop over the items commits the folded tables and counts, or leaves the store untouched |
| BulkImport.ImportDescribed | superlock/backend/internal/store/secret.go:200-264 | Success, old rows, new rows, new history and the counts, each in terms of the tables before and the items alone |
| BulkImport.ImportKeepsUnique | superlock/backend/migrations/001_initial_schema.up.sql:60-73 | An import keeps keys unique |
| ImportOrder.ImportIsOrderBlind | superlock/backend/internal/store/secret.go:200-264 | Any order of the items: same success, same counts, same old rows, same new rows and version rows up to fresh ids |
| ImportOrder.AbortsExactlyOnDeletedKey | superlock/backend/internal/store/secret.go:217-252 | The import aborts exactly when some key is held by a soft-deleted row |
| ImportOrder.ImportCounts | superlock/backend/internal/store/secret.go:207-257 | created + updated + skipped = total, and the counts are the rows added; without overwrite no row there was and no history changes |
| ImportOrder.ImportReplaces | superlock/backend/internal/store/secret.go:223-241 | With overwrite every live key gets its item's ciphertext, one version on, and its old one is saved |
| ImportOrder.CleanItems | superlock/backend/internal/handler/secret.go:526-533 | The loop that fills the map computes the last value of each normalised key |
| ImportOrder.CleanKeys | superlock/backend/internal/handler/secret.go:526-533 | A key is kept exactly when it is not empty and some entry normalises to it |
| ImportOrder.CleanKeepsTheLast | superlock/backend/internal/handler/secret.go:526-533 | Its value is that of the last such entry |
| ImportOrder.EncryptAll | superlock/backend/internal/handler/secret.go:559-590 | Whatever order the goroutines finish in: one item for each key, or an error exactly when some encryption fails |
| ImportOrder.CompletionsPermute | superlock/backend/internal/handler/secret.go:559-590 | Any two finishing orders are permutations of each other |
| ImportOrder.HandlerIsOrderBlind | superlock/backend/internal/handler/secret.go:559-593 | So the import is the same up to fresh ids, whatever the finishing order |
| ImportOrder.ImportRequest | superlock/backend/internal/handler/secret.go:526-597 | The request as a whole: nothing is written without a key or after a failed encryption, otherwise one transaction |
| SecretHistory.ApplyKeepsHistory | superlock/backend/internal/store/secret.go:12-264 | Creates, updates, deletes, rotations and imports keep every history complete and extend it |
| SecretHistory.RunKeepsHistory | superlock/backend/internal/store/secret.go:89-264 | In every run a secret at version v has exactly the history versions 1 to v - 1, each once and in order |
| SecretHistory.OnceCurrentThenHistory | superlock/backend/internal/store/secret.go:117-185 | A ciphertext current at version k stays current as long as k is, and is row k of the history for ever after |
| SecretHistory.HistoryWasCurrent | superlock/backend/internal/store/secret.go:117-185 | Row k of the history holds a ciphertext that was current, at version k, in an earlier state of the run |
| CurrentValue.GivenIsCurrent | superlock/backend/internal/store/secret.go:12-264 | After any operation the current ciphertext is the one it was given for the secret (by a create, an edit, a rotation, or the item of the secret's key), and the old one if it gave none |
| CurrentValue.CurrentIsLastGiven | superlock/backend/internal/store/secret.go:12-264 | In every run of whole operations the current ciphertext is the one given last |
| EditRuns.CommitOnSecret | superlock/backend/internal/store/secret.go:150-264 | Whatever was committed since its queries, a commit adds to each secret it replaces one version and the row it had read, and leaves every other secret alone |
| EditRuns.CommitKeepsTables | superlock/backend/internal/store/secret.go:150-264 | It keeps keys unique, and secrets it creates start at version 1 without history |
| CurrentValue.StepGives | superlock/backend/internal/store/secret.go:89-264 | When requests and transactions meet: an update, a commit or a creation that takes effect makes its ciphertext current at once, and every other step leaves the current one |
| CurrentValue.CurrentIsLastWritten | superlock/backend/internal/store/secret.go:89-264 | In every such run the current ciphertext is that of the last update, commit or creation that took effect on the secret, and for a commit the one its transaction queried the secret for |
| EditHistory.SlackGrows | superlock/backend/internal/store/secret.go:89-264 | Along any run of meeting writes the excess of version rows over the version and the saves still open never shrinks |
| EditHistory.QuietTransaction | superlock/backend/internal/store/secret.go:150-264 | In a run that ends with a complete history no version changes between a transaction's query and its commit |
| EditHistory.CompleteIsUndisturbed | superlock/backend/internal/handler/secret.go:256-300 | A run that ends with a complete history had no other write to the secret inside any request's or transaction's window |
| EditHistory.OneOpenAtATime | superlock/backend/internal/handler/secret.go:256-300 | Without disturbed windows two requests of a secret that get to their updates are never open together |
| EditHistory.CommitIsCalm | superlock/backend/internal/store/secret.go:150-264 | Without disturbed windows a commit replaces the version its transaction has read, and finds no request between its save and its update |
| EditHistory.PeacefulEndsComplete | superlock/backend/internal/handler/secret.go:256-300 | Without disturbed windows the history ends complete |
| EditHistory.CompleteIffUndisturbed | superlock/backend/internal/handler/secret.go:256-300 | In every run of any number of update requests, rotations, imports, creates and deletes that leaves no request between its save and its update: a secret's history is complete if and only if no other write to it falls between a request's read and its update and none that changes its version between a transaction's query and its commit |
| EditHistory.CompleteIsTrue | superlock/backend/internal/handler/secret.go:256-300 | Row k of such a history is the row that was replaced at version k |
| EditHistory.HistoriesOkIffUndisturbed | superlock/backend/internal/handler/secret.go:256-300 | For all secrets of a run from empty tables at once |
| EditScenarios.ImportIsCommit | superlock/backend/internal/store/secret.go:200-264 | An import that nobody meets is one commit: of the live rows its keys met, as they were, if it overwrites, and of the rows it adds |
| EditScenarios.OperationIsARun | superlock/backend/internal/store/secret.go:12-264 | From any sound tables each operation that nobody meets does statement by statement what it does as a whole |
| EditScenarios.SerialRunIsARun | superlock/backend/internal/store/secret.go:12-264 | Every run of whole operations is a run of requests and transactions that ends in the same tables |
| EditScenarios.SaveThenCommit | superlock/backend/internal/handler/secret.go:287-300 | In any state: a commit between a request's save and its update, of a transaction that read the same row, leaves the history incomplete |
| EditScenarios.RotationInAWindow | superlock/backend/internal/rotation/worker.go:77-136 | From any sound tables a run in which a rotation does so |
| EditScenarios.BothCommit | superlock/backend/internal/store/secret.go:150-264 | In any state: two transactions that both hold the current row and both commit move the version by two and save that row twice |
| EditScenarios.TransactionsOverlap | superlock/backend/internal/store/secret.go:150-264 | From any sound tables a run of two transactions that do so, with no update request |
| RotationLock.StepKeepsInv | superlock/backend/internal/rotation/worker.go:77-86 | While runs leave in time, a run inside holds an unexpired key it set itself |
| RotationLock.ShortRunsAreSafe | superlock/backend/internal/rotation/worker.go:56-86 | With any number of workers, crashes and lost answers: runs that leave within 30 seconds never overlap on a secret and delete only their own keys |
| RotationLock.LongRunsCollide | superlock/backend/internal/rotation/worker.go:78-86 | For any longer bound there is a run with two runs inside and one deleting the other's key |
| RotationLock.SafeIffWithinTtl | superlock/backend/internal/rotation/worker.go:78-86 | The lock protects runs of at most B seconds exactly when B is at most 30 |
| RotationLock.KeyNeverSticks | superlock/backend/internal/rotation/worker.go:78-86 | In any run, whatever runs started by a state leave behind blocks no secret more than 30 seconds after it: a new run then gets in unless a younger one holds the key |
| RotationLock.StartTakesTheKey | superlock/backend/internal/rotation/worker.go:78-86 | A run is inside exactly when it finds no key and is answered; the key is then set even if the answer is lost |
| RotationLock.LeaveLetsTheNextIn | superlock/backend/internal/rotation/worker.go:78-86 | A run that leaves in time frees the key of its secret and no other, and the next one gets in at once; without the delete the key stays |
| LockedRotations.RotationsExclude | superlock/backend/internal/rotation/worker.go:77-136 | With runs within 30 seconds, two rotations of one secret are never both between their query and their commit |
| LockedRotations.OnlyOthersDisturb | superlock/backend/internal/rotation/worker.go:77-136 | Then between a rotation's query and its commit only an update request or a transaction outside the lock changes the version |
| LockedRotations.RotationsKeepHistory | superlock/backend/internal/rotation/worker.go:77-136 | A secret that only such rotations write ends with a complete history, whatever happens to other secrets |
| LockedRotations.LockKeepsHistoryIff | superlock/backend/internal/rotation/worker.go:78-136 | The lock keeps the histories of such secrets complete in all runs within B seconds exactly when B is at most 30 |
| Lru.RunFits | superlock/sdk/python/superlock_sdk/__init__.py:21-49 | Through any operations keys stay distinct and the size never exceeds the capacity |
| Lru.StepKeepsInclusion | superlock/sdk/python/superlock_sdk/__init__.py:21-49 | One operation on two caches keeps the smaller an ordered part of the larger, and a hit in the smaller is the same hit in the larger |
| Lru.Inclusion | superlock/sdk/python/superlock_sdk/__init__.py:21-49 | For every sequence of operations a larger cache holds all of a smaller one in order and loses none of its hits |
| Lru.PullKeepsTheLast | superlock/sdk/python/superlock_sdk/__init__.py:115-118 | Filling an empty cache with n distinct keys leaves exactly the last min(n, capacity) pairs |
| CacheRecency.HitIsNewest | superlock/sdk/python/superlock_sdk/__init__.py:27-32 | A hit moves its pair to the end and leaves the others in their order; a miss changes nothing |
| CacheRecency.SetIsNewest | superlock/sdk/python/superlock_sdk/__init__.py:34-41 | A set drops its key's old pair, or the first one if there is no room for another, and adds the new pair at the end |
| CacheRecency.HitSurvives | superlock/sdk/java/src/main/java/dev/superlock/sdk/SuperLockClient.java:58 | With room for two or more, the next insertion never evicts what has just been hit |
| CacheRecency.RunByUse | superlock/sdk/python/superlock_sdk/__init__.py:21-49 | In every run the pairs lie in the order of their last hits or sets |
| CacheRecency.EvictsTheOldest | superlock/sdk/python/superlock_sdk/__init__.py:34-41 | After every run an insertion into a full cache drops exactly the pair whose last hit or set is the oldest |
| CacheRecency.HitsAnswerTheLastSet | superlock/sdk/python/superlock_sdk/__init__.py:21-49 | In every run a hit answers what its key was last set to |
| PythonCache.Cache.Get | superlock/sdk/python/superlock_sdk/__init__.py:27-32 | A hit answers the value and makes its pair the newest |
| PythonCache.Cache.Set | superlock/sdk/python/superlock_sdk/__init__.py:34-41 | Evict-then-insert gives the newest pairs that fit; with no room at all it fails and changes nothing |
| PythonCache.Cache.Delete | superlock/sdk/python/superlock_sdk/__init__.py:43-45 | Removes the key's pair and keeps the order of the rest |
| PythonCache.Cache.Replay | superlock/sdk/python/superlock_sdk/__init__.py:21-49 | After any operations the cache and all its answers are those of the specification |
| PythonCache.Cache.BulkPull | superlock/sdk/python/superlock_sdk/__init__.py:111-118 | A pull leaves exactly the last pairs that fit; none when there is no room |
| JavaCache.Cache.Get | superlock/sdk/java/src/main/java/dev/superlock/sdk/SuperLockClient.java:72-75 | A hit makes its pair the newest: the map is ordered by access |
| JavaCache.Cache.Put | superlock/sdk/java/src/main/java/dev/superlock/sdk/SuperLockClient.java:58-62 | Insert-then-evict gives the newest pairs that fit |
| JavaCache.Cache.Evict | superlock/sdk/java/src/main/java/dev/superlock/sdk/SuperLockClient.java:119-122 | Removes one key, or all without one |
| JavaCache.Cache.Replay | superlock/sdk/java/src/main/java/dev/superlock/sdk/SuperLockClient.java:57-122 | After any operations the cache and all its answers are those of the same specification |
| JavaCache.Cache.Refresh | superlock/sdk/java/src/main/java/dev/superlock/sdk/SuperLockClient.java:105-106 | A refresh leaves exactly the last pairs that fit |
| CachesAgree.SameOperations | superlock/sdk/java/src/main/java/dev/superlock/sdk/SuperLockClient.java:57-122 | Fed the same operations, both caches answer alike and hold the same pairs in the same recency order |
| PgSafe.ValidateIdent | superlock/backend/internal/pgsafe/pgsafe.go:49-70 | The loop accepts exactly the identifiers of at most 63 bytes that match the pattern, and each error has its own exact cause |
| PgLexer.ValidIsBareWord | superlock/backend/internal/pgsafe/pgsafe.go:49-70 | A name is valid exactly when it is ASCII and PostgreSQL reads it, written without quotes, as one word that is the whole name in lower case |
| PgLexer.QuotedIdentReads | superlock/backend/internal/pgsafe/pgsafe.go:31-33 | A quoted identifier is one token with the name, whatever follows it |
| PgLexer.QuotedLiteralReads | superlock/backend/internal/pgsafe/pgsafe.go:38-44 | A quoted literal is one token with the value, under either setting of standard_conforming_strings |
| PgLexer.AlterRoleReads | superlock/backend/internal/rotation/worker.go:294-300 | For every valid role name and every password the statement is exactly its six tokens, under either setting |
| PgLexer.PlainQuoteDomain | superlock/backend/internal/pgsafe/pgsafe.go:35-44 | Quoting without the backslash rule reads back under both settings exactly when there is no backslash |
| Share.SharedSecret.IncrementShareViewCount | superlock/backend/internal/store/share.go:48-56 | Adds one and returns the new count |
| Share.SharedSecret.GetSharedSecret | superlock/backend/internal/handler/share.go:148-203 | A request alone: served exactly when the link is open and decrypts; the count moves when the link is open and the increment works |
| Share.AloneIsSerial | superlock/backend/internal/handler/share.go:155-174 | The steps of a request with no other in flight do just that |
| Share.StepKeepsInv | superlock/backend/internal/handler/share.go:155-174 | Every step keeps: the views plus the requests that may still count stay within limit + in flight - 1 |
| Share.ServedAtMost | superlock/backend/internal/handler/share.go:155-174 | With at most N requests in flight a link is served at most limit + N - 1 times, plus the failed increments |
| Share.BoundIsReached | superlock/backend/internal/handler/share.go:155-174 | For every limit, N and number of failed increments some run serves exactly that many |
| Share.LimitHoldsIffSerial | superlock/backend/internal/handler/share.go:155-174 | All runs without failed increments stay within the limit exactly when requests come one at a time |
| Rbac.HasPermission | superlock/backend/internal/rbac/rbac.go:39-50 | The loop answers whether the role's list holds the permission; no for an unknown role |
| Rbac.ValidScope | superlock/backend/internal/rbac/rbac.go:122-129 | Exactly the known permission names are valid scopes |
| Rbac.ScopesAllow | superlock/backend/internal/rbac/rbac.go:150-160 | No list allows everything, a list allows exactly its members |
| Rbac.Allows | superlock/backend/internal/rbac/rbac.go:162-168 | A permission needs both the role and the scopes |
| Rbac.ScopesForRole | superlock/backend/internal/rbac/rbac.go:131-143 | The loop computes the granted part of the list of all scopes |
| Rbac.ScopesForRoleAreItsPermissions | superlock/backend/internal/rbac/rbac.go:131-143 | A token minted for a role carries exactly the role's permissions |
| Rbac.LowerRoleIsMeet | superlock/backend/internal/rbac/rbac.go:170-178 | The lower of two roles grants exactly what both grant |
| Rbac.SecretAccessIsMeet | superlock/backend/internal/rbac/rbac.go:52-84 | Reading, writing and deleting secrets, protected or not, under the lower role needs both roles, and protected ones need the rank of an admin as well as the permission |
| TokenFlow.StepKeepsMint | superlock/backend/internal/handler/audit_token.go:87-138 | Every step keeps: scopes within the role snapshot, and no snapshot above the one it was minted with |
| TokenFlow.StepKeepsCodes | superlock/backend/internal/handler/cli_auth.go:78-112 | Every step keeps: a token from a code is its only one, from a claim in time with a matching verifier |
| TokenFlow.UsableIsTheMeet | superlock/backend/internal/middleware/auth.go:187-202 | In every run a token may be used for exactly its scopes met with its snapshot's and its user's present permissions |
| TokenFlow.ChainNeverRises | superlock/backend/internal/handler/audit_token.go:101-138 | Down a mint chain of any length the user stays the same and the snapshot never rises |
| TokenFlow.DelegationStaysBelow | superlock/backend/internal/handler/audit_token.go:101-138 | A token's usable permissions are among those of every snapshot above it |
| TokenFlow.OneTokenPerCode | superlock/backend/internal/store/cli_login.go:25-46 | In every run a code yields at most one token, claimed before expiry, with a verifier that matches, for the code's user and role |
| TokenFlow.CodesLastAMinute | superlock/backend/internal/handler/cli_auth.go:14-60 | A code carries the role its user had when the request was let in, before it was issued, and is claimed within 60 seconds of being issued or never |
| TokenFlow.WithinParentIff | superlock/backend/internal/handler/audit_token.go:101-116 | In every run a token may do no more than the one it was minted with exactly when those of its scopes its user's role grants are among that one's |
| TokenFlow.MintsWithinParentIff | superlock/backend/internal/handler/audit_token.go:101-138 | Right after the insert, exactly when the requested scopes are among the parent's, or the new token has expired already |
| TokenFlow.ChildBeyondParent | superlock/backend/internal/handler/audit_token.go:101-138 | A run in which they are not: the child may write secrets and the parent may not |
| TokenFlow.RunKeepsRows | superlock/backend/internal/store/token.go:13-71 | Over a run token rows change only by being revoked, for good, and code rows only by being used, once |
| TokenFlow.PromotionDoesNotReachBack | superlock/backend/internal/middleware/auth.go:175-195 | Whatever a token may do later, its row as first inserted already allowed, whichever roles its user gets |
| TokenOutcomes.RevokeEndsOne | superlock/backend/internal/store/token.go:68-71 | A revocation by its user ends a token at once; by anyone else, or of any other token, it changes nothing |
| TokenOutcomes.RevokedForGood | superlock/backend/internal/store/token.go:68-71 | A token its user has revoked may be used for nothing in any later state of the run |
| TokenOutcomes.ExpiryEndsOne | superlock/backend/internal/middleware/auth.go:175-195 | Time ends a token exactly when its expiry is reached |
| TokenOutcomes.MintGivesTheRequest | superlock/backend/internal/handler/audit_token.go:87-138 | A request within the user's role gives a token that may be used, until it expires, for just what was asked, or for reading if nothing was |
| TokenOutcomes.CodeIsStored | superlock/backend/internal/handler/cli_auth.go:28-60 | A code request that was let in is stored under the role and the challenge it came with, and is open until 60 seconds after the reading of the clock, which may come before the insert |
| TokenOutcomes.LoginGivesTheRole | superlock/backend/internal/handler/cli_auth.go:14-112 | A login with the verifier of its challenge gives a token for just what the user's role allows |
| TokenOutcomes.FailuresLeaveNothing | superlock/backend/internal/handler/cli_auth.go:28-112 | Inserts that fail, and a login with another verifier, leave no token and no code behind |
| TokenOutcomes.CodeIsAskedFor | superlock/backend/internal/handler/cli_auth.go:14-60 | A code is asked for exactly by a known user with a challenge, with the one method there is or with none named |
| TokenOutcomes.SnapshotWasTheRole | superlock/backend/internal/handler/audit_token.go:101-138 | In every run a token carries the role its user had when its request was let in, or the lower of that and the snapshot it was minted with |
| TokenApi.Backend.CreateAPIToken | superlock/backend/internal/handler/audit_token.go:87-138 | A token is inserted exactly when the caller's scopes carry tokens:manage, the request names it, and every requested scope is known and granted; nothing requested means read only |
| TokenApi.Backend.RevokeAPIToken | superlock/backend/internal/store/token.go:68-71 | Revokes the user's own token only |
| TokenApi.Backend.ClaimCLILoginCode | superlock/backend/internal/store/cli_login.go:25-46 | Claims an unused, unexpired code and leaves it claimed; afterwards the code is never open |
| TokenApi.Backend.CLIAuthToken | superlock/backend/internal/handler/cli_auth.go:78-112 | A token exactly for an open code with a matching verifier; any verifier but the empty one spends the code; the tables are those of the two steps |

## Left out

- HTTP routing, JSON, audit events, caches of the backend, plan limits and billing, email, analytics, the user interface: plumbing around the modelled parts.
- Encryption, hashing and random identifiers: parameters or positions, so nothing is said about their strength.
- Approvals: an approved change is written without a version row (`backend/internal/handler/approval.go`), so it is not among the operations of a run; nothing in the repository creates an approval.
- Rotation history records and schedules: a run's final record re-inserts the first one's key and its error is dropped, so no final status is claimed, nor one rotation an interval.
- Running the backend without its cache server: `rotate` then takes no lock, and the lock results do not apply.
- Hard deletion of an environment, which removes rows by cascade: rows of the model are only added, changed or marked deleted.
- The standalone `pull` command, which writes values unescaped: the round trip is that of `link`.
- Values that are not strings, and lone surrogates in JavaScript strings.
- Fairness and writer preference of the read-write lock: what a holder can do is proved, not that every waiting call is served in the end.
- Reconnects, pings and deadlines of a WebSocket: a pump may fail at any time, a connection may end at any time.
- Lexing of numeric escapes, continued and prefixed string constants, operators and comments: the lexer gives up on them, and no quoted text contains one.
- Writes to the store while one value is being resolved: a resolution sees one state of the store.
- Statements of one transaction: in EditRuns its queries are steps and its writes are seen at its commit; a failed one is a rollback. Row locks, waiting and deadlocks are not modelled: they only rule out runs. In SecretStore, BulkImport and SecretHistory nothing else writes meanwhile.
- EditHistory.CompleteIffUndisturbed: a request may fail before its save, not at its save or after it; EditKeepsHistoryIff has the failures of one edit. With failures of several edits no condition on each edit alone is exact: FailuresCanCancel has two failing edits that leave a complete history.
- Staleness of the SDK caches by time, and their locks: each operation is one step.
- HubDelivery.BroadcastFinishes: steps of the broadcast alone; BroadcastProgress says that steps of others in between do not set it back.
- HubObject.Hub.Register: the buffer of a new connection is empty, as it is where the source calls it.
- Share.ServedAtMost: links without a limit are served without bound, so it speaks of limits above 0.
- TokenFlow.UsableIsTheMeet: about a token that is found and whose user exists; an expired or revoked one may be used for nothing.
- Lru.RunFits: capacities of at least 1; with none, the Python cache fails on every insertion and stays empty, and the Java cache takes its default size.
