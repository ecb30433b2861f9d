# linode-ddns reconciliation model

A Dafny model of the decision logic of a small dynamic-DNS updater for Linode.
On every cron tick the updater looks up the machine's public IPv4 and IPv6
addresses from echo endpoints. It then fetches the Linode domain and its
records, selects the A and AAAA records whose targets have drifted, and sends
one update per selected record. At start-up it turns the optional
`HOSTNAMES` and `RECORD_TYPES` variables into sets.

Modules:

- `Wrappers` (wrappers.dfy): `Option` (`None` is JavaScript's `undefined`) and `Result`.
- `Configuration` (config.dfy): src/config.ts. `HOSTNAMES` becomes the set of the parsed list. `RECORD_TYPES` is refused when empty, then refused if any element is not `"A"` or `"AAAA"`, and otherwise becomes a set. A variable that is absent or `''` leaves its field unset.
- `Addresses` (addresses.dfy): `fetchIpv4`, `fetchIpv6` and `getIp` in src/index.ts. It covers which echo lookups are queued and how a response becomes an address (JavaScript `trim`). It also covers how the `Promise.all` results are bound to `ipv4` and `ipv6` by position.
- `Records` (records.dfy): `getDomainRecordDisplayName` and the `reduce` that selects the records to update. `NewTarget` is the per-record decision and `Select` the fold. `Picked` is an independent reference definition: the indices of the kept records.
- `Updater` (updater.dfy): the per-record update loop (`ApplyUpdates`), `updateDomainRecordsIp` as a method that records every external call in a trace, and the cron callback (`OnTick`). Each method is proved against the pure functions `CycleTrace` and `CycleResult`, and lemmas state what those guarantee.

External calls are oracles. `Network` carries each echo lookup's outcome (`Unreachable` or `Responded(body)`), `getDomain` and `getDomainRecords` (`None` when the call rejects). `UpdateOracle` says whether the provider accepts each update call. `JSON.parse` is a `JsonParser` parameter.

Behaviours of the code the model keeps as written:

- Record types are never compared with `RECORD_TYPES`. The only gate is whether `ipv4`/`ipv6` is truthy. The addresses are bound by position, so with `RECORD_TYPES` = `["AAAA"]` the IPv6 address lands in `ipv4`. A records are then moved to the IPv6 address and AAAA records are never updated (`Updater.PendingTargetsByFamily`).
- `fetch` resolves on every HTTP status. So the body of an error response is trimmed and used as an address. Only a rejected request (or body read) yields `undefined`. A body that trims to `''` is falsy and counts as absent.
- An empty `HOSTNAMES` list `[]` is accepted and gives an empty set. That set is truthy, so no record is ever selected (`Records.EmptyAllowListSelectsNothing`).
- A failing `getDomain` aborts the cycle as a failing `getDomainRecords` does. The update loop records no outcome value: a rejected update is only logged. The model returns the provider's answers (`accepted`) as what the log reports.

The selection is deterministic because `Select` is a function of its inputs.

## Model

| member | source | states |
|---|---|---|
| `Configuration.HostnameSet` | src/config.ts:32-34 | a name is in the allow-list exactly when the parsed list holds it as a string element |
| `Configuration.ValidateRecordTypes` | src/config.ts:52-60 | the empty list (and only it) gets "Please specific record types to update."; a non-empty list with any element other than "A"/"AAAA" (and only such) gets "Only A and AAAA record types are supported."; on success the set is non-empty, a subset of {A, AAAA}, and holds exactly the list's elements |
| `Configuration.RecordTypesIgnoreOrderAndDuplicates` | src/config.ts:60 | validation depends only on which elements occur, so order and duplicates do not matter |
| `Configuration.LoadConfig` | src/config.ts:32-61 | unset or empty variables leave their field unset (no restriction); an unparsable HOSTNAMES gives "Cannot parse HOSTNAMES: …" before RECORD_TYPES is looked at; an unparsable RECORD_TYPES gives its own error; loading succeeds exactly when HOSTNAMES (if set) parses and RECORD_TYPES (if set) parses and validates, and then holds the sets built from them; otherwise the validator's error |
| `Addresses.TrimStart` | src/index.ts:18 | the result is a suffix of the input, everything dropped is whitespace, and it does not start with whitespace |
| `Addresses.TrimEnd` | src/index.ts:30 | the result is a prefix of the input, everything dropped is whitespace, and it does not end with whitespace |
| `Addresses.TrimIsUniqueSlice` | src/index.ts:18 | trim returns the one slice with only whitespace outside it and non-whitespace at both ends |
| `Addresses.TrimEmptyIff` | src/index.ts:18 | a body trims to '' exactly when it is all whitespace |
| `Addresses.TrimIdempotent` | src/index.ts:18 | trimming twice equals trimming once |
| `Addresses.FetchAddress` | src/index.ts:15-37 | a rejected lookup gives undefined and only it does; any response gives its body trimmed; the address is truthy exactly when a response body has a non-whitespace character |
| `Addresses.QueuedLookups` | src/index.ts:42-53 | with RECORD_TYPES unset both lookups are queued; otherwise IPv4 is queued iff "A" is enabled and IPv6 iff "AAAA" is; IPv4 always comes before IPv6 and neither is queued twice |
| `Addresses.GetIp` | src/index.ts:39-56 | the tasks pushed under the source's conditions equal the reference plan, and the joined results are one address per queued lookup, in queue order |
| `Addresses.ResolveBindsByPosition` | src/index.ts:55-62 | with A enabled, ipv4/ipv6 are the IPv4/IPv6 lookups (ipv6 undefined unless AAAA is enabled); with only AAAA, ipv4 is the IPv6 lookup and ipv6 is undefined; with neither, both undefined |
| `Records.DisplayNameIdentifiesName` | src/index.ts:58-59 | for one record type, two display names are equal exactly when the names are equal or one is the apex '' and the other '@' |
| `Records.NewTarget` | src/index.ts:77-101 | a record is selected iff it passes the allow-list and is an A record with truthy ipv4 differing from its target, or an AAAA record with truthy ipv6 differing from its target; the new target is that address; no other type is selected |
| `Records.ReduceExtends` | src/index.ts:73-106 | the reducer only appends to the accumulator it starts from |
| `Records.SelectAppend` | src/index.ts:73-106 | selecting from a concatenation is selecting from each part, in order |
| `Records.Picked` | src/index.ts:73-106 | the reference selection: strictly increasing in-range indices, holding exactly the positions whose record `NewTarget` keeps |
| `Records.SelectIsOrderedFilter` | src/index.ts:73-106 | the reduce result is the records at `Picked`, in input order, each copied whole with the target `NewTarget` gives it |
| `Records.SelectMembership` | src/index.ts:73-106 | an update is selected iff its record is in the list and `NewTarget` gives it that target |
| `Records.SelectedRecordsQualify` | src/index.ts:77-101 | every selected update passes the allow-list, is A (with truthy ipv4 as target) or AAAA (with truthy ipv6 as target), and changes the target |
| `Records.StaleRecordsAreSelected` | src/index.ts:91-101 | no record that needs a change is missed |
| `Records.SelectedIdsDistinct` | src/index.ts:73-106 | with distinct record ids in the list, the selected updates have distinct ids |
| `Records.EmptyAllowListSelectsNothing` | src/index.ts:77-89 | an empty HOSTNAMES set excludes every record |
| `Records.NoAddressSelectsNothing` | src/index.ts:91-101 | with neither address truthy (failed lookup or blank body) nothing is selected |
| `Records.SecondPassSelectsNothing` | src/index.ts:91-101 | after every selected update is applied, the same addresses and allow-list select nothing |
| `Updater.ApplyUpdates` | src/index.ts:120-136 | one update call per pending update, in order, with its id and new target; each answer is recorded and a rejected call does not stop later ones |
| `Updater.UpdateDomainRecordsIp` | src/index.ts:61-137 | the calls made and the outcome are those of `CycleTrace` and `CycleResult`: lookups, getDomain, getDomainRecords, then the selected updates |
| `Updater.OnTick` | src/index.ts:139-148 | the cycle's error is caught and logged, and is there exactly when getDomain or getDomainRecords failed |
| `Updater.CycleUpdateCalls` | src/index.ts:69-136 | the cycle fails iff getDomain or getDomainRecords fails; a failed getDomain skips getDomainRecords; a failed cycle sends no update; otherwise exactly one update per selected record, in order, whatever the provider answers |
| `Updater.UpdatesTouchOnlySelectedRecords` | src/index.ts:73-136 | every update call names the configured domain and a listed record that passes the allow-list, with a new target chosen by `NewTarget` |
| `Updater.PendingTargetsByFamily` | src/index.ts:42-101 | with A enabled, A records get the IPv4 address and AAAA records the IPv6 address; with only AAAA enabled, A records get the IPv6 address and AAAA records are never updated; with neither, nothing is updated |

## Left out

- The HTTP calls to the echo endpoints and the Linode API (`fetch`, `getDomain`, `getDomainRecords`, `updateDomainRecord`) are oracles. `setToken` and authentication are not modelled, and neither are error objects or their messages.
- The `Promise.all` concurrency of the two lookups: they are modelled as independent results joined in queue order.
- pino logging: the text and level of every log line (`DisplayName` is modelled since it names records in those lines), and the summary log of the records to update.
- `CronJob` scheduling and `cron.start()`. Each tick is one call of `OnTick`; cycles are assumed not to overlap.
- Joi validation, defaults and `dotenv`: `LINODE_ACCESS_TOKEN`, `CRON_TIME`, `LOG_LEVEL` and the check that required variables are present. `LINODE_DOMAIN_ID` is taken as the already-validated string; Joi validates it as a string although the interface types it as a number.
- `JSON.parse` is an oracle that returns the elements of an array or fails. Top-level non-array JSON values are not modelled: `new Set` would split a JSON string into characters, and `.length` or `.some` behave differently on non-arrays.
- `Configuration.HostnameSet`: non-string elements of `HOSTNAMES` are dropped. They are kept in the source's `Set`, but a record name is a string, so they can never match one.
- Domain record fields other than `id`, `name`, `type` and `target`. The source copies them unchanged, and the model keeps the whole record value in each pending update.
