# Aerospike PHP client: verified model

A Dafny model of the stateful core of the Aerospike PHP extension (the PHP 5 branch), with proofs of what
it keeps over whole runs. Each module stands for one component:

| module | component |
|---|---|
| `RegistrySpec`, `RegistryProofs`, `RegistryRuns` | persistent connections: the alias table, the two counts of a shared `aerospike_ref`, constructor, `close`, `reconnect`, `isConnected`, object and session destruction, table teardown, as a transition system; its invariant; theorems over whole runs |
| `Registry` | the same on the heap: classes for `aerospike_ref`, `Aerospike_object` and the extension's globals, whose methods update the fields in place and are each proved to take one step of the transition system |
| `ShmKeys` | shared-memory keys: the allocator with its counter saved between calls |
| `HostAlias`, `Decimal` | the two alias printers, their buffers, decimal ports |
| `Strtok` | `strtok_r`, on values and in place on a zero-terminated buffer |
| `SavePath`, `ClusterNodes` | the two tokenising parsers, with printers to go with them |
| `LdtError` | the secondary error code of LDT operations |
| `Operate` | the compiler from operation arrays to server operations, and the two entry points that use it |
| `Policy` | policies laid in layers: library, INI, constructor, call |
| `PolicyInForce` | which of these layers a call sees, over whole runs of the registry |
| `StreamCallback` | the lock protocol of the record stream callback, under every interleaving |

Behaviour that C leaves undefined (a null, freed or destroyed structure followed, an array overrun) is a
step without a successor (`None`) or a value `Undefined`; the few cases not treated so are named under
"Left out". The answers of the library and the server (connects, info responses, setters, serialisation, refusals) are parameters, so a
theorem holds for all of them. Loops that update variables are methods with invariants, proved against
functions; the properties are lemmas about these functions.

## What the proofs show beyond the expected

- A configuration that names a host twice leaks its connection: the entry count includes the failed
  add, so teardown never reaches the last entry (`RegistryRuns.FreedIffConfigDistinct`).
- A constructor called again on the same object is safe under an exact condition only
  (`RegistryProofs.ConstructKeepsInvIff`); outside it a cell is orphaned, or freed while the table still
  leads to it (`RegistryRuns.ReconstructionFreesTwice`).
- With an empty host list and shared memory configured, the error status is overwritten by the key step
  and the constructor goes on through a pointer that was never set (`RegistrySpec.ConstructDefinedIff`).
- `reconnect` sets count and flag whatever the library's connect answers; its documentation promises a
  reconnection. The model follows the code.
- Two different hosts can share an alias exactly when one address extends the other by a colon and its
  port and then ends or goes on with a colon, as IPv6 literals can (`HostAlias.CanCollideIff`); under one
  user they never do (`HostAlias.SameUser`).
- A persistent object that attaches to an existing connection drops its own constructor options: its calls
  run with the policies of whoever created the connection (`PolicyInForce.OwnFieldIff`, with a run in
  `PolicyInForce.SecondObjectIgnored`). A connect timeout given to one call stays in the shared
  configuration (`RegistryProofs.CallKeeps`).
- Option keys are cast to `int`, so two different PHP keys can mean one option (`Policy.CastKeysClash`).
- More than 127 peers overrun the slot array and an empty peer response is misread (`ClusterNodes.RoundTripIff`).
- A save path is copied into fixed buffers without a check (`SavePath.RoundTripIff`); a last address without
  a port takes a place in the host array although it is not counted (`SavePath.FillIff`).
- An integer value survives in its variable and displaces the value of a later double write
  (`Operate.IntegerLeaksIntoDouble`); an index survives in `operate` but not in `operateOrdered`
  (`Operate.SameCallsIff`).
- The durable-delete option is refused unless a scan object is supplied, and it also overwrites that
  object's include-LDT field, so the two options do not commute (`Policy.CallOrderIff`). The serializer
  option of the constructor accepts values of any type, its type test being joined by "and" to a test that never fails.

## Model

| member | source | states |
|---|---|---|
| RegistryProofs.StepKeepsInv | src/aerospike/aerospike_helper.c:446-545 | For every enabled step from any state that meets the invariant (counts and library calls of every cell, live table entries, one holder per private cell, no persistent holder of a private cell and none but persistent holders of a shared one) the step follows no null, freed or destroyed structure and the invariant holds again; the one condition is on repeated or degenerate constructor calls, made exact below |
| RegistryProofs.ConstructKeepsInvIff | src/aerospike/aerospike.c:658-764 | For every constructor call, first or repeated, on any object in any reachable state: it is defined and keeps the invariant if and only if a condition on the flag, the held cell and the arguments holds, which a caller can check beforehand |
| RegistrySpec.ConstructDefinedIff | src/aerospike/aerospike.c:728-750 | A constructor call reads no null or freed pointer if and only if the found cell is usable, or, for an empty host list with shared memory, the object already holds a usable cell: the status of the empty list is overwritten by the key step |
| RegistryProofs.InvAllowsCalls | src/aerospike/aerospike.c:811-930 | In every reachable state before teardown every method on every holder, every registration and the teardown itself is within defined behaviour |
| RegistryProofs.CreationAliases | src/aerospike/aerospike_helper.c:508-532 | A cell is created under exactly the aliases of its configuration, and the entry count written into it equals the number of these aliases if and only if they are distinct, because a failed add is counted too |
| RegistryProofs.CreationKeepsOthers | src/aerospike/aerospike_helper.c:519-522 | Registering a configuration changes the aliases of no other cell |
| RegistryProofs.AddAliasesSpec | src/aerospike/aerospike_helper.c:508-532 | After registration every alias is bound, old bindings stand, and only new aliases lead to the new cell |
| RegistryProofs.FindAliasSpec | src/aerospike/aerospike_helper.c:456-495 | The search fails exactly when no alias of the configuration is bound, and otherwise yields a cell bound under one of them |
| RegistryProofs.FindsFirst | src/aerospike/aerospike_helper.c:456-495 | Of several bound aliases the earliest in the list decides |
| RegistryProofs.BindOutcome | src/aerospike/aerospike_helper.c:412-557 | What a registration leaves: a persistent holder joins the cell under its earliest known alias, with one count more and connected without a connect; otherwise there is one new cell with that configuration, counted once and connected once, under all aliases or, if private, under none, and the flag is what the connect answered; nothing else changes |
| RegistryProofs.ConstructOutcome | src/aerospike/aerospike.c:658-764 | What any constructor call leaves, first or repeated: which flags, which cell, and that no other object changes |
| RegistryProofs.CreatedKeeps | src/aerospike/aerospike_helper.c:497-532 | Creating a shared cell under all its aliases, with its first holder and first connect, keeps the invariant |
| RegistryProofs.AttachedKeeps | src/aerospike/aerospike_helper.c:536-544 | Attaching one more holder to a live shared cell keeps the invariant |
| RegistryProofs.BindCreatesPrivate | src/aerospike/aerospike_helper.c:446-449 | A non-persistent construction gives the object a cell with its own configuration that nobody else holds, counted once, connected once and not closed, and no table entry |
| RegistryProofs.ConstructOrphans | src/aerospike/aerospike.c:688-750 | Constructing again over a private cell leaves that cell live, with no holder and no table entry, and breaks the invariant |
| RegistryProofs.CloseKeeps | src/aerospike/aerospike.c:833-880 | Closing keeps the invariant; it is accepted exactly when the object is connected and the count at least one, and then unsets that flag and takes a private count from one to zero with exactly one library close, or a shared count down by one without any; everything else stays as it is |
| RegistryProofs.ReconnectKeeps | src/aerospike/aerospike.c:885-929 | Reconnecting keeps the invariant, whatever the library connect answers; it is accepted exactly when the flag is unset and the count zero, and then sets that flag and the count to one, with one library connect for a private cell and none for a shared one; everything else stays as it is |
| RegistryProofs.IsConnectedKeeps | src/aerospike/aerospike.c:811-829 | Whatever the cluster answers, only the flag of the asking object moves, to that answer if there is a handle |
| RegistryProofs.DropKeeps | src/aerospike/aerospike.c:553-590 | Freeing an object removes it; a non-persistent one frees and destroys exactly the private cell it holds, closing it as often as it was counted; everything else stays as it is |
| RegistryProofs.SessionOpenKeeps | src/aerospike/aerospike_session_handler.c:160-232 | Opening a session keeps the invariant; the holder stays exactly when hosts were parsed and one of them is known or the connect succeeds, and it is then connected and persistent; every other holder is left alone |
| RegistryProofs.SessionCloseKeeps | src/aerospike/aerospike_session_handler.c:246-264 | Closing a session removes its holder, takes one count from the held cell if it has one, changes no other cell, holder or table entry, and keeps the invariant |
| RegistryProofs.StepKeepsOrphan | src/aerospike/aerospike.c:553-930 | No defined step, whether or not it respects the constructor condition, finds such a cell again or changes it |
| RegistryProofs.CallKeeps | src/aerospike/aerospike_policy.c:384-392 | A call on the cluster keeps the invariant, is refused without effect on an unconnected object, and otherwise changes nothing in the registry but, through its options, the connect timeout of the configuration its holders share |
| RegistryProofs.TeardownSpec | src/aerospike/aerospike.c:133-176 | By induction over any entry order: emptying the table never touches a freed cell, changes no cell without aliases, and frees a cell exactly when its entry count is the number of its entries |
| RegistryProofs.TeardownKeeps | src/aerospike/aerospike.c:224-237 | Tearing down the table, in any order, keeps the invariant |
| RegistryRuns.OrphanForever | src/aerospike/aerospike.c:688-750 | In every defined run of any length after that, an orphaned cell stays exactly as it was: live and never freed |
| RegistryRuns.RunKeepsInv | src/aerospike/aerospike.c:553-930 | The invariant holds after every run, of any length, of constructor, method, session, destruction and teardown steps |
| RegistryRuns.StepTable | src/aerospike/aerospike_helper.c:508-532 | No step before teardown rebinds or unbinds an alias or changes what an existing cell counts; a new shared cell counts exactly its aliases if and only if its configuration repeats none |
| RegistryRuns.RunExtends | src/aerospike/aerospike_helper.c:508-532 | The same over whole runs: every alias keeps its cell and every shared cell its aliases and entry count until teardown |
| RegistryRuns.RunExact | src/aerospike/aerospike_helper.c:497-532 | Over every run of configurations that name no host twice, each shared cell counts exactly the aliases bound to it before teardown and is freed after it |
| RegistryRuns.TeardownFreesIff | src/aerospike/aerospike.c:133-176 | From every reachable state and in every entry order a shared cell is closed, destroyed and freed, each once, if and only if its entry count equals its aliases, and otherwise not at all; private cells are untouched |
| RegistryRuns.FreedIffConfigDistinct | src/aerospike/aerospike_helper.c:497-532 | Whatever happens between the registration of a configuration and teardown, its cell is freed in the end if and only if the configuration names no host twice |
| RegistryRuns.Lifecycle | src/aerospike/aerospike.c:133-237 | At the end of any run, in whatever order objects went and the table was emptied, every cell ever created has been destroyed and freed exactly once; a shared one was closed once, a private one as often as it was connected |
| RegistryRuns.PrivateBalance | src/aerospike/aerospike.c:553-578 | At every moment connects minus closes of a private cell is its count, which is 0 or 1, and after it is freed connects equal closes |
| RegistryRuns.CountIsTakenMinusGiven | src/aerospike/aerospike_helper.c:790-810 | Over every run a count is the number of creations, attaches and accepted reconnects minus accepted closes, session closes and the drop, and never negative; no library close reaches a shared cell before teardown |
| RegistryRuns.StepBalance | src/aerospike/aerospike.c:849-920 | Step by step: each count moves by exactly what the step takes and gives back |
| RegistryRuns.SessionPairNeutral | src/aerospike/aerospike_session_handler.c:190-260 | A session opened on an existing connection and closed again leaves the whole registry as it was |
| RegistryRuns.ReconstructionFreesTwice | src/aerospike/aerospike.c:688-692 | A concrete run with one repeated constructor call after which teardown follows a freed cell: why the condition on repeated calls is needed |
| RegistryRuns.DistinctIffHosts | src/aerospike/aerospike_helper.c:456-463 | Within one configuration the aliases are distinct exactly when the hosts are, whatever the addresses hold |
| RegistryRuns.SharesCellIff | src/aerospike/aerospike_helper.c:456-495 | For all configurations: one captures the cell of another exactly when a host of one and a host of the other have one alias, which is the same host and user or one absorbing the other |
| PolicyInForce.BaseIsOrigin | src/aerospike/aerospike_helper.c:536-544 | Over every tame run, every bound object holds a cell with an origin, and its calls are based on the configuration with which that cell was created; an attaching object drops its own |
| PolicyInForce.TimeoutPrecedence | src/aerospike/aerospike_policy.c:1030-1276 | Spelled out for the timeouts, options 2 and 3 by number, for all option arrays and every policy |
| PolicyInForce.KeyPrecedence | src/aerospike/aerospike_policy.c:1051-1173 | Spelled out for the key policies of read, write, operate and remove, option 12 |
| PolicyInForce.OriginField | src/aerospike/aerospike_record_operations.c:529-615 | After any run, for every field of every policy, and a creator of any kind, so also for an object that attaches to a connection a session has made: the call option, else the default of the configuration with which the held cell was created |
| PolicyInForce.FieldPrecedence | src/aerospike/aerospike_policy.c:1030-1276 | If that was a constructor, for every field of every policy: the call option, else the option of the constructor that created the held cell, else the INI value, else the library default |
| PolicyInForce.OwnFieldIff | src/aerospike/aerospike_helper.c:536-544 | From its construction on and in any run in which it is not constructed again, every field of the policies of an object is the one its own layers give if and only if the call has an option for it, or the construction captured no connection, or the captured one had the same default |
| PolicyInForce.SecondObjectIgnored | src/aerospike/aerospike_helper.c:536-544 | A concrete run: a second persistent object with a read timeout of its own attaches to the first, and its read runs with the timeout of the first |
| PolicyInForce.StepInherits | src/aerospike/aerospike.c:553-930 | No step of a tame run changes the defaults of an existing configuration, and a new cell has those of the configuration it is created with |
| Registry.Extension.ObjectFromAliasHash | src/aerospike/aerospike_helper.c:412-557 | The in-place search, attach and creation take the step of the transition system, including the overwritten status of an empty host list; for a host list that is not empty the cell left behind can be followed |
| Registry.Extension.FindExisting | src/aerospike/aerospike_helper.c:456-495 | The search loop returns the cell under the first bound alias, or null exactly when none is bound |
| Registry.Extension.Attach | src/aerospike/aerospike_helper.c:536-544 | Only the count of the found cell and the holder move |
| Registry.Extension.Create | src/aerospike/aerospike_helper.c:497-532 | A fresh cell, all its table entries and its holder, and nothing else, change |
| Registry.Extension.Register | src/aerospike/aerospike_helper.c:508-532 | The loop leaves the table as the fold of single adds and the entry count up by the number of hosts |
| Registry.Extension.Construct | src/aerospike/aerospike.c:658-764 | On the heap the constructor takes exactly the step of the transition system, on every path |
| Registry.Extension.IsConnected | src/aerospike/aerospike.c:811-829 | Takes exactly its step; true is returned exactly when there is a handle and the cluster says so |
| Registry.Extension.Call | src/aerospike/aerospike_record_operations.c:529-615 | Takes exactly its step: refused without a connection, otherwise the fields of the call are those laid over the configuration of the held cell |
| Registry.Extension.Close | src/aerospike/aerospike.c:833-880 | Takes exactly its step; accepted exactly when there is a connected cell with a count of at least one, and then no longer connected |
| Registry.Extension.CloseHelper | src/aerospike/aerospike_helper.c:790-810 | The count never goes below zero; success exactly when it was at least one |
| Registry.Extension.Reconnect | src/aerospike/aerospike.c:885-929 | Takes exactly its step; accepted exactly when there is an unconnected handle without counts, and then connected |
| Registry.Extension.FreeStorage | src/aerospike/aerospike.c:553-590 | Takes exactly its step: a private cell is closed if counted, destroyed and freed |
| Registry.Extension.SessionOpen | src/aerospike/aerospike_session_handler.c:160-232 | Takes exactly its step; succeeds exactly when hosts were parsed and one of them is known or the connect succeeds, and then keeps a connected holder |
| Registry.Extension.SessionClose | src/aerospike/aerospike_session_handler.c:246-264 | Takes exactly its step; success exactly when there was a count to give back |
| Registry.Extension.DestroyRef | src/aerospike/aerospike.c:133-176 | One table entry: decrement, or close, destroy and free |
| Registry.Extension.DestroyTable | src/aerospike/aerospike.c:224-237 | Empties the table entry by entry in an arbitrary order and takes exactly the teardown step for that order |
| ShmKeys.RunStable | src/aerospike/aerospike_helper.c:269-379 | Over every sequence of calls: a bound alias keeps its key, every call gets the key its alias ends with, and two calls get the same key exactly when they name the same alias |
| ShmKeys.ConfigsShareKeyIff | src/aerospike/aerospike_helper.c:289-305 | Through the alias printer, for all configurations: two calls get the same key exactly when their aliases have the same pieces between semicolons; without semicolons exactly when their hosts agree alias by alias; without colons either exactly when hosts, order and user are the same |
| ShmKeys.GrantsUnique | src/aerospike/aerospike_helper.c:306-379 | The specification (old key; else the requested one if unused; else the least unused one from 0xA5000000) determines the key |
| ShmKeys.Allocator.IsUnique | src/aerospike/aerospike_helper.c:232-255 | The scan answers whether any alias has the key |
| ShmKeys.Allocator.Search | src/aerospike/aerospike_helper.c:347-356 | The endless loop terminates, because every rejected key is one of finitely many in use, and the resumed search finds the least unused key from the base |
| ShmKeys.Allocator.SetKey | src/aerospike/aerospike_helper.c:269-391 | Every call meets the counter-free specification and binds just that alias; everything below the saved counter stays taken |
| ShmKeys.Allocator.Run | src/aerospike/aerospike_helper.c:434 | A whole run hands out exactly what the specification does, and in all of it the counter moves no further than there are aliases |
| ShmKeys.CounterBound | src/aerospike/aerospike_helper.c:347-361 | In every reachable state counter minus base is at most the number of registered aliases, so the C int does not overflow as long as they fit above the base |
| HostAlias.SingleInjective | src/aerospike/aerospike_helper.c:456-463 | Colon-free addresses never collide: equal aliases mean equal host, port and user |
| HostAlias.Spelled | src/aerospike/aerospike_helper.c:293-305 | Both forms on literal hosts |
| HostAlias.MultiInjective | src/aerospike/aerospike_helper.c:293-305 | Without colons and semicolons equal multi-host aliases mean equal host lists and users, and conversely |
| HostAlias.SameAliasIff | src/aerospike/aerospike_helper.c:456-463 | For all hosts and users: two single-host aliases are equal exactly when host and user are, or when one address is the head of the other host, or goes on after it with a colon, and the user of the shorter makes up the rest |
| HostAlias.CanCollideIff | src/aerospike/aerospike_helper.c:456-463 | What a caller can check: two different hosts share an alias for some users exactly when one address extends the other by a colon and its printed port and then ends or goes on with a colon |
| HostAlias.SameUser | src/aerospike/aerospike_helper.c:456-463 | Under one user different hosts never share an alias |
| HostAlias.AliasesCollide | src/aerospike/aerospike_helper.c:456-463 | A collision: the IPv6 loopback address on port 3000 and the address of one colon on port 1 |
| HostAlias.MultiIff | src/aerospike/aerospike_helper.c:293-305 | For all host lists and users: two multi-host aliases are equal exactly when the aliases of their hosts have, one after the other, the same pieces between semicolons |
| HostAlias.MultiUnbrokenIff | src/aerospike/aerospike_helper.c:293-305 | Without semicolons: exactly when the lists are of one length and agree alias by alias |
| HostAlias.ListsCollide | src/aerospike/aerospike_helper.c:293-305 | A collision: two hosts, and one host whose user holds a semicolon |
| HostAlias.SingleSizeTight | src/aerospike/aerospike_helper.c:457 | The single-host buffer always holds alias and terminator, and is used up exactly by five-digit ports |
| HostAlias.WrittenFits | src/aerospike/aerospike_helper.c:289-305 | At every point of the append loop the text written, one byte per host and the terminator fit into what was summed so far |
| HostAlias.WrittenIsMulti | src/aerospike/aerospike_helper.c:293-305 | The accumulating loop ends with the recursively described alias |
| HostAlias.BuildMulti | src/aerospike/aerospike_helper.c:285-305 | Summing, allocating and appending in place: no write leaves the buffer, and it ends up holding the alias and a terminator |
| Decimal.PrintInjective | src/aerospike/aerospike_helper.c:458 | Decimal printing of ports loses nothing |
| Decimal.AtoiReads | src/aerospike/aerospike_helper.c:939 | atoi on every text made of spaces, a sign, digits and a rest |
| Decimal.PortDigits | src/aerospike/aerospike_helper.c:457-458 | A 16-bit port prints in one to five digits, five exactly from 10000 on |
| Strtok.NextMeetsStandard | src/aerospike/aerospike_helper.c:874-949 | A call finds a token exactly as the wording of section 7.24.5.8 of ISO/IEC 9899:2011 cuts the string, and none exactly when only delimiters are left |
| Strtok.StrtokR | src/aerospike/aerospike_helper.c:887-888 | The in-place scanner with its saved position returns, on every zero-terminated buffer, the token and the rest that the value specification gives, and writes nothing before the position it started from |
| Strtok.CutView | src/aerospike/aerospike_helper.c:887-888 | Writing one terminator ends the token there and leaves everything after it readable |
| Strtok.NextOfField | src/aerospike/aerospike_helper.c:887-888 | A non-empty delimiter-free field followed by a delimiter is cut off whole |
| SavePath.NamedIff | src/aerospike/aerospike_helper.c:887-945 | On every string that holds a namespace and a set, for all buffer sizes: a buffer is overrun exactly when namespace, set or the addresses do not fit; the parse succeeds exactly when they fit and a complete pair follows; and then it reports namespace, set and the complete pairs |
| SavePath.UnnamedIff | src/aerospike/aerospike_helper.c:887-910 | On every other string it fails, unless the namespace does not fit its buffer |
| SavePath.FillIff | src/aerospike/aerospike_helper.c:912-945 | The host loop stays inside the array exactly when the addresses fit, one more than the pairs if the last has no port, and then counts exactly the complete pairs |
| SavePath.PairsOfPrint | src/aerospike/aerospike_helper.c:912-945 | Every printed host list, of any length, holds exactly its hosts as pairs and one address for each |
| SavePath.RoundTripIff | src/aerospike/aerospike_helper.c:874-949 | Parsing a printed path gives back namespace, set and hosts, for all non-empty delimiter-free fields, if and only if they fit their buffers; otherwise one of these is overrun |
| SavePath.SessionConfig.ParseSavePath | src/aerospike/aerospike_helper.c:874-949 | The in-place parser ends as specified on every string, with namespace and set in their fixed buffers and the hosts in their array, and stops in front of the first write beyond one of them; a failing one has stored just the fields read so far and counts no host |
| SavePath.SessionConfig.ParseHosts | src/aerospike/aerospike_helper.c:912-945 | The host loop terminates, since every token shortens the rest, writes only inside the array, and counts exactly the complete pairs |
| ClusterNodes.RoundTripIff | src/aerospike/aerospike_info_operations.c:208-336 | For every self address and every peer list of a cluster of several nodes, reading the printed responses returns self and the peers in order if and only if there are 1 to 127 peers; beyond that the slot array is overrun, and without peers a newline is read as an address and the call fails |
| ClusterNodes.PeersOfPrint | src/aerospike/aerospike_info_operations.c:271-335 | Reading a printed peer list from any slot on, across the colon, semicolon and newline delimiters |
| ClusterNodes.PeersCases | src/aerospike/aerospike_info_operations.c:272-335 | The peer loop on any text, as the standard cuts it: where it ends, with what, and when it is undefined |
| ClusterNodes.NodesCases | src/aerospike/aerospike_info_operations.c:262-276 | Peers are read exactly when there are several nodes and the response goes on after its tag |
| ClusterNodes.SingleNode | src/aerospike/aerospike_info_operations.c:267-271 | A single-node cluster reports itself alone, whatever the peer response says |
| ClusterNodes.SelfIff | src/aerospike/aerospike_info_operations.c:208-258 | On every pair of responses: the call is undefined as soon as the service response does not hold a label, an address and a port (the exit releases a node list not yet set), and otherwise these are reported first |
| ClusterNodes.GetClusterNodes | src/aerospike/aerospike_info_operations.c:208-336 | The in-place token loops report what the value specification does, for all pairs of responses |
| ClusterNodes.ReadPeers | src/aerospike/aerospike_info_operations.c:272-335 | The peer loop terminates on every buffer and appends exactly the specified nodes |
| ClusterNodes.ReadPort | src/aerospike/aerospike_info_operations.c:305-334 | The port token is cut a second time inside the first cut, and the scan ends there |
| LdtError.ExtractPrinted | src/LDT/LDT.php:378-386 | For every prefix, every non-empty digit string and every tail free of the two marks, the code extracted is the decimal value of the digits (saturated at the largest integer) and the message starts at LDT |
| LdtError.ExtractsIff | src/LDT/LDT.php:380-386 | Something is extracted exactly when both marks occur |
| LdtError.ExtractsBetween | src/LDT/LDT.php:380-384 | On every message with both marks, in either order: the code is what stands between their last occurrences, without leading zeros, read as an integer |
| LdtError.TrimKeepsValue | src/LDT/LDT.php:383 | Stripping leading zeros does not change the number |
| LdtError.StrRPos | src/LDT/LDT.php:380-381 | The position found is the last occurrence, and none is found exactly when there is none |
| LdtError.Ldt.ProcessStatusCode | src/LDT/LDT.php:372-390 | For every status and client error: which fields are set, to what, and when true is returned |
| Operate.CompileFaithfulIff | src/aerospike/aerospike_record_operations.c:743-927 | For every list that compiles, from every accumulator state: the server receives the documented operation of every array, in order, if and only if every array is faithful given the integer left over from the arrays before it |
| Operate.ChooseFaithfulIff | src/aerospike/aerospike_record_operations.c:234-482 | The same for one array: the operation built is the documented one if and only if a condition on its own fields and the left-over integer holds |
| Operate.ScanReads | src/aerospike/aerospike_record_operations.c:752-898 | For all field lists, in both entry points: after a successful scan every variable holds what the last field of its name and type gave, as given or cut to its width, else what it held before |
| Operate.ScanSucceedsIff | src/aerospike/aerospike_record_operations.c:772-894 | A scan succeeds exactly when every field is admissible by name and type, a GeoJSON value also by the operation named before it |
| Operate.ChooseIff | src/aerospike/aerospike_record_operations.c:234-482 | Which arrays are accepted, and the operation, payload and time to live sent for each, from given and left-over values |
| Operate.CompilesIff | src/aerospike/aerospike_record_operations.c:743-927 | When one array compiles, what it then sends and what it leaves behind for the next |
| Operate.ListOperators | src/aerospike/aerospike_record_operations.c:308-470 | The list operators by number |
| Operate.OperateFaithfulIff | src/aerospike/aerospike_record_operations.c:737-937 | The one call of operate carries the documented operations, in order, if and only if every array is faithful with nothing left over in front of the first; its time to live is that of the option, else of the last touch, else zero |
| Operate.IndependentIff | src/aerospike/aerospike_record_operations.c:234-306 | The class of arrays compiled faithfully whatever came before, characterised exactly |
| Operate.CompileIsMap | src/aerospike/aerospike_record_operations.c:743-927 | On lists of such arrays the stateful loop equals compiling each array by itself from zeroed accumulators, success and failure included |
| Operate.IntegerLeaksIntoDouble | src/aerospike/aerospike_record_operations.c:288-304 | A concrete list on which it does not: after an integer write a double write stores the integer |
| Operate.OperateAllOrNothing | src/aerospike/aerospike_record_operations.c:737-937 | The server is called at most once, and exactly when the options are usable and every array compiles |
| Operate.OrderedCallsExact | src/aerospike/aerospike_record_operations.c:1012-1261 | The server is called once per array, in order, with that operation and its time to live alone, up to the first that does not compile, the first call it refuses or the first reply that cannot be converted, and no further |
| Operate.SameOpsIff | src/aerospike/aerospike_record_operations.c:743-1261 | When every array compiles for both entry points, the operations sent one by one are those sent at once if and only if every array that takes an index has one or finds zero left over |
| Operate.SameCallsIff | src/aerospike/aerospike_record_operations.c:743-1261 | The same about the calls issued: the single calls concatenated are the one call of operate, under exactly that condition |
| Operate.ScanOrdered | src/aerospike/aerospike_record_operations.c:1067-1161 | Whatever operateOrdered can read, operate reads the same way |
| Operate.ReadField | src/aerospike/aerospike_record_operations.c:772-894 | One field moves exactly the variables and accumulators the specification says, or is refused |
| Operate.ReadArray | src/aerospike/aerospike_record_operations.c:752-898 | The inner loop refines the recursive scan, with the accumulators in place |
| Operate.BuildOp | src/aerospike/aerospike_record_operations.c:234-482 | The operation switch appends what the specification chooses, for every operator and every accumulator state |
| Operate.RunOperate | src/aerospike/aerospike_record_operations.c:737-937 | The outer loop issues exactly the specified calls |
| Operate.RunOrdered | src/aerospike/aerospike_record_operations.c:1012-1261 | The ordered loop issues exactly the specified calls for every pattern of refused calls, answers and replies that cannot be converted, which only the check in front of the next array notices |
| Policy.RunSucceedsIff | src/aerospike/aerospike_policy.c:362-742 | Applying options succeeds exactly when every one of them is accepted by itself, in any order |
| Policy.OrderIrrelevantIff | src/aerospike/aerospike_policy.c:362-742 | The accepted options give the same policy in every permutation if and only if no two write different values into one field |
| Policy.CallOrderIff | src/aerospike/aerospike_policy.c:362-742 | For every set of supplied policies and every accepted array: permutation independence holds if and only if no read timeout meets a different write timeout on one policy, no include-LDT a different durable-delete on a scan, and no two keys that the cast to int makes one code have different values |
| Policy.AgreeIffNoClash | src/aerospike/aerospike_policy.c:384-733 | Two accepted options write conflicting values exactly in these three cases |
| Policy.ClashingTargets | src/aerospike/aerospike_policy.c:393-448 | Both timeouts reach one and the same policy exactly for info, scan and query |
| Policy.ApplyValue | src/aerospike/aerospike_policy.c:362-742 | After all options a field holds what its last writer wrote, or what was there before |
| Policy.CtorOrderIff | src/aerospike/aerospike_policy.c:1095-1270 | Constructor options give the same defaults in every permutation if and only if no two of them have one code after the cast of their keys and different values |
| Policy.CtorOrderIrrelevant | src/aerospike/aerospike_policy.c:1095-1270 | So order never matters for the distinct keys of a PHP array that fit an int |
| Policy.CastKeysClash | src/aerospike/aerospike_policy.c:1123 | The keys 2 and 2^32 + 2 are both accepted, and their order decides |
| Policy.CtorApart | src/aerospike/aerospike_policy.c:1124-1260 | Different constructor options never write one field |
| Policy.ConstructedField | src/aerospike/aerospike_policy.c:1030-1276 | Every default that a successful construction leaves, field by field with the options by number: its option, else the INI value, else the library default |
| Policy.ConstructedDoneIff | src/aerospike/aerospike_policy.c:1095-1270 | Construction succeeds exactly when every option is admissible by number and type |
| Policy.IniSpelled | src/aerospike/aerospike_policy.c:1042-1088 | Which INI entry each field takes, and when |
| Policy.CallField | src/aerospike/aerospike_policy.c:241-742 | Every field after a successful call, with the options by number and their values spelled out (booleans as 0 and 1): the last option that reaches it, else the default of the configuration it reads |
| Policy.CalledDoneIff | src/aerospike/aerospike_policy.c:259-742 | A call succeeds exactly when something to set is supplied, there are defaults to copy from, and every option is admissible by number, type, range and supplied policy |
| Policy.CallAcceptsIff | src/aerospike/aerospike_policy.c:383-742 | The same for one option |
| Policy.CallKeepsConfig | src/aerospike/aerospike_policy.c:384-742 | The only field of a configuration that a call writes is the connect timeout, whether it succeeds or not |
| Policy.WithIniAt | src/aerospike/aerospike_policy.c:1042-1088 | After the INI layer every field holds the value its INI entry gives it (a nonzero timeout or key policy, the serializer and batch settings always, a threshold that is not negative), else the library default |
| Policy.GovernedValue | src/aerospike/aerospike_policy.c:362-742 | A field that one group of options governs ends with the last of them, or unchanged |
| Policy.PolicyFields.SetPolicy | src/aerospike/aerospike_policy.c:241-742 | The in-place loop accepts exactly the acceptable option arrays and then leaves exactly the fields that CallField describes; refused, it leaves the configuration as the options before the refused one made it |
| Policy.PolicyFields.ApplyCallOption | src/aerospike/aerospike_policy.c:383-742 | One round of the switch: accepted and written, field by field, as specified for every combination of supplied policies |
| Policy.PolicyFields.SetConfigPolicies | src/aerospike/aerospike_policy.c:1030-1276 | INI layer and constructor loop in place: done exactly when every option is admissible, and then the defaults are those that ConstructedField describes |
| Policy.PolicyFields.ApplyIni | src/aerospike/aerospike_policy.c:1042-1088 | The assignments one after the other, some fields written more than once in all, leave every field with the value that its own INI entry determines |
| StreamCallback.Safety | src/aerospike/aerospike_helper.c:610-731 | Under every schedule of any number of threads: no thread unlocks what it does not hold, at most one is between lock and unlock and so inside the userland function, every lock is matched by one unlock on all five exits, and each userland function has seen a prefix of what it should |
| StreamCallback.Completion | src/aerospike/aerospike_helper.c:610-731 | Once no thread can move, under whatever schedule, every thread is through, each userland function has seen exactly its deliverable records up to and including the first explicit false, and the lock is free |
| StreamCallback.NoDeadlock | src/aerospike/aerospike_helper.c:638-730 | As long as some thread is not through, some thread can move |
| StreamCallback.MovesBounded | src/aerospike/aerospike_helper.c:610-731 | No run has more moves than the work it starts with, so every schedule that keeps moving comes to an end |
| StreamCallback.ExecKeepsInv | src/aerospike/aerospike_helper.c:638-730 | The lock and delivery invariant holds after every schedule |

## Left out

- Registry.Extension.ObjectFromAliasHash: of the configuration kept in a cell only the policy fields and the connect timeout are modelled; the shared-memory key that is also written into the cell a constructor attaches to, the strings of its hosts and who frees them are not.
- Registry.Extension.Call: the serializer option, which belongs to the object and not to the cell, is not carried from one call to the next.
- Interleavings inside one registry call, where the lock is taken host by host: each constructor, method, session or teardown call is one step.
- The per-thread counters that decide which thread's end tears the table down; the model starts from one table and tears it down once.
- RegistryProofs.ConstructKeepsInvIff: runs that go on after a call outside the condition are followed only in two respects, the orphaned cell (OrphanForever) and one run into a freed cell (ReconstructionFreesTwice).
- ShmKeys.CounterBound: keys are mathematical integers with the C `int` range as a bound; beyond it the counter would overflow, which takes more than 3.6 thousand million aliases.
- The arguments' way into a configuration (hosts and their array's capacity, user, password, shared-memory options from PHP arrays): the registry starts from the parsed configuration.
- SavePath.SessionConfig.ParseSavePath: `atoi` beyond the range of `int` is not modelled. The buffer sizes and the width of the port field come from library headers (as_key.h, as_config.h), which are not part of this model: the sizes are parameters, 16 bits are assumed.
- The white-space trimmer: the parser ignores its result and it changes nothing.
- ClusterNodes.GetClusterNodes: starts when both info calls have answered; failures of these calls and of PHP array insertion are left out.
- Operate.OrderedCallsExact: about the calls issued, not about the status returned or the result array; some error paths leave or overwrite the status.
- Operate.RunOperate: a value that serialises but is then not found in the scratch record adds no operation; that library outcome is left out.
- Operate.ChooseFaithfulIff: INCR with a numeric string, insert-items and the value-carrying list operations are modelled as the code does them (the parsed number is dropped, items are appended, the last field is the value), which is why they are outside the faithful class or in it only under a condition. The numbering of the library's own operators is a parameter, since its header as_operations.h is not part of this model.
- Policy.PolicyFields.SetPolicy: after a refusal only the fields of the configuration are fixed, not those of the call's own policy and scan object, which the caller then does not use.
- PolicyInForce.FieldPrecedence: calls that supply one policy (with or without scan object, serializer and configuration), which is what the calls in this repository do; for several policies only acceptance and order are stated.
- Policy.CallOrderIff: the generation policy taken from an option that is no array, or an empty one, is undefined behaviour in the code and counts as not accepted.
- StreamCallback.Safety: the lock is one atomic flag; transformation of records to PHP arrays and the userland function are outcomes of each record.
- Time to live and generation values of a call beyond being absent, valid or refused.
- Method bodies that check arguments and forward one call (lists, security, indexes, UDFs, scans, queries), batch results, query definition, serialisation, logging, INI registration, constant tables: wide but easy, or resting on code that is not in the repository.
- The PHP 7 branches.
