# ServiceDiscovery bookkeeping of QtQuickVcp, in Dafny

This project models the bookkeeping core of QtQuickVcp's `ServiceDiscovery`
component and of its item filter `ServiceDiscoveryFilter`, and proves
properties of that model. `ServiceDiscovery` finds Machinekit services by
DNS-SD over a resolver transport (JDNS). The model has four parts.

- **The query ledger.** Three maps are keyed by the query id the transport hands out.
  - `queryIdTypeMap` gives each id its record type.
  - `queryIdServiceMap` gives a top-level (PTR) query id its service type.
  - `queryIdItemMap` gives a follow-up (TXT, SRV, A) query id the item it resolves.
- **The item registry.** `serviceItemsMap` holds the ordered list of discovered items of each tracked service type. `serviceTypeMap` holds each tracked type's record type.
- **The resolution state machine.** `resultsReady` drives it. A PTR answer announces or withdraws an item. The TXT and SRV answers, and then the A answer, fill the item in. An item is resolved exactly when no follow-up query is open for it.
- **Reconciliation and filtering.**
  - `updateServices` tracks exactly the service types the configured queries name.
  - `startQueries`, `stopQueries` and `unicastLookup` start, stop and refresh the top-level queries.
  - Every configured query is handed the items of its type. Unless it is an A query, those items first pass the global filter and the query's own filter. A filter AND-connects a name wildcard with successively narrowed TXT wildcards.

Files and their parts:

- `items.dfy` (modules `Sequences`, `ServiceItems`): items as values. Each per-type list operation is a function, with lemmas:
  - lookup by name;
  - upsert (addItem) and removal;
  - the unicast purge cycle and its eviction after threshold+1 missed cycles.
- `ledger.dfy` (`QueryLedger`): the invariants that tie the three id maps to the registry.
  - Every id has a record type.
  - A top-level id and an item-owned id are never the same id.
  - There is at most one top-level query per service type.
  - Every item's set of open follow-up ids is exactly the set of ids that the item map assigns to it.
  - Lemmas show that each kind of update keeps these invariants.
- `filter.dfy` (`DiscoveryFilter`): the filter predicate and its loops. The `ServiceDiscoveryFilter` class holds the two criteria fields and their setters.
- `discovery.dfy` (`Discovery`): the `ServiceDiscovery` class. Its fields are the five maps, the running/network flags, the global filter, the configured queries and what each query was last handed. The transport is represented by a fresh-id counter and a set of cancelled ids. Every operation is a method proved against functions of the old state, and every method keeps `Valid()`.

## Model

| member | source | states |
|---|---|---|
| ServiceItems.Answered | src/service/servicediscovery.cpp:1118 | the answered query id leaves the item's open set and nothing else of the item changes |
| ServiceItems.MarkedResolved | src/service/servicediscovery.cpp:1169-1177 | an item waiting for no query is marked updated with error count 0; an item still waiting is left exactly as it was; nothing else changes |
| ServiceItems.IndexOf | src/service/servicediscovery.cpp:928-934 | the position of the first item with that name, or -1 exactly when no item has it |
| ServiceItems.FindItem | src/service/servicediscovery.cpp:958-964 | the search loop over a list returns the first position of the name, or -1 |
| ServiceItems.IndexOfReplaced | src/service/servicediscovery.cpp:1099-1105 | updating an item in place, under its name, does not move any name's first position |
| ServiceItems.UpsertedProperties | src/service/servicediscovery.cpp:915-943 | addItem keeps names unique and types right; afterwards exactly one item has the name; the old list is a prefix of the new one; a second addItem changes nothing |
| ServiceItems.RemovedProperties | src/service/servicediscovery.cpp:975-999 | removeItem leaves no item of that name, keeps every other item and keeps their order |
| ServiceItems.PurgedKeepsOrder | src/service/servicediscovery.cpp:1028-1069 | a purge cycle adds no item and keeps the survivors in their relative order |
| ServiceItems.PurgedMembers | src/service/servicediscovery.cpp:1043-1062 | every non-evicted item survives in aged form (updated cleared or one more error); every survivor is such an item |
| ServiceItems.PurgedWellFormed | src/service/servicediscovery.cpp:1028-1069 | a purge cycle keeps names unique and types right |
| ServiceItems.PurgedEvictStep | src/service/servicediscovery.cpp:1047-1056 | an item past the threshold, not refreshed, is dropped and counted as evicted |
| ServiceItems.PurgedAgeStep | src/service/servicediscovery.cpp:1043-1062 | a kept item is aged in place and nothing is counted as evicted |
| ServiceItems.StaleItemLifetime | src/service/servicediscovery.cpp:1047-1056 | a never-refreshed item survives exactly as long as errorCount + rounds stays within the threshold |
| ServiceItems.ResolvedItemLifetime | src/service/servicediscovery.cpp:1043-1061 | a freshly resolved item survives threshold+1 purge cycles without fresh data and is evicted by the next |
| ServiceItems.RefreshedItemSurvives | src/service/servicediscovery.cpp:1058-1061 | a refreshed item survives a purge cycle with only its updated flag cleared |
| QueryLedger.RemoveKeepsConsistent | src/service/servicediscovery.cpp:975-999 | removing an item together with every id it owns keeps ledger, registry and link consistent |
| QueryLedger.ResolvedIffUnreferenced | src/service/servicediscovery.cpp:1169-1177 | an item is resolved exactly when no ledger id refers to it |
| QueryLedger.ReplaceItemKeepsLink | src/service/servicediscovery.cpp:1112-1167 | updating an item whose open set matches the ids the item map assigns to it keeps the registry and the link |
| QueryLedger.RemoveItemKeepsLink | src/service/servicediscovery.cpp:772-788 | dropping an item and the ids it owns keeps the registry and the link |
| QueryLedger.AppendItemKeepsLink | src/service/servicediscovery.cpp:936-940 | appending a new item that owns no id, under an unused name, keeps the registry and the link |
| QueryLedger.DropItemIdsKeepsLedger | src/service/servicediscovery.cpp:772-788 | forgetting item-owned ids keeps the ledger invariant |
| QueryLedger.IssueFollowUpKeepsLedger | src/service/servicediscovery.cpp:1098-1105 | a fresh follow-up id is in no map yet, and recording it keeps the ledger invariant |
| QueryLedger.OwnedByWholeList | src/service/servicediscovery.cpp:1001-1025 | under the link, the ids owned by the items of a type are exactly the ids that refer to that type |
| QueryLedger.DropEmptyTypeKeepsLink | src/service/servicediscovery.cpp:803-813 | a type whose list is empty can leave both registry maps |
| QueryLedger.ReplaceKeepsConsistent | src/service/servicediscovery.cpp:1169-1177 | changing an item's data without changing its open set keeps everything consistent |
| QueryLedger.AtMostOneTopQuery | src/service/servicediscovery.cpp:677-699 | under the ledger invariant a type has at most one top-level id, so any id found is the only one |
| QueryLedger.StartKeepsConsistent | src/service/servicediscovery.cpp:690-694 | recording a fresh top-level id for a type that has none keeps everything consistent |
| QueryLedger.StopKeepsConsistent | src/service/servicediscovery.cpp:723-725 | forgetting the top-level ids of a type keeps everything consistent |
| QueryLedger.TopQueriesOfOthers | src/service/servicediscovery.cpp:659-675 | starting or stopping the query of one type leaves the top-level ids of every other type as they were |
| DiscoveryFilter.Keep | src/service/servicediscoveryfilter.cpp:93 | the texts kept by one wildcard are exactly those it matches, each as many times as in the input, in their original order |
| DiscoveryFilter.NarrowMembers | src/service/servicediscoveryfilter.cpp:87-98 | a text survives the successive narrowing exactly when it is the item's and every pattern matches it |
| DiscoveryFilter.NarrowSnoc | src/service/servicediscoveryfilter.cpp:91-94 | one more pattern narrows the already narrowed list once more |
| DiscoveryFilter.AcceptsMeaning | src/service/servicediscoveryfilter.cpp:80-102 | apply holds exactly when the name test passes and, if TXT patterns are set, one TXT record matches every pattern |
| DiscoveryFilter.NameCriterion | src/service/servicediscoveryfilter.cpp:82-85 | an empty name pattern accepts any name; a non-matching one rejects; with no TXT patterns only the name test counts |
| DiscoveryFilter.MorePatternsStricter | src/service/servicediscoveryfilter.cpp:91-94 | an item accepted under patterns P ++ [q] (P non-empty) is accepted under P |
| DiscoveryFilter.ApplyCriteria | src/service/servicediscovery.cpp:876-897 | the loop of filterServiceDiscoveryItem returns exactly the filter predicate |
| DiscoveryFilter.SelectedProperties | src/service/servicediscovery.cpp:899-913 | the selected items are exactly the input items passing both filters, as a subsequence of the input |
| DiscoveryFilter.SelectedCommutes | src/service/servicediscovery.cpp:905-906 | the global and the query filter can be applied in either order |
| DiscoveryFilter.SelectedIdempotent | src/service/servicediscovery.cpp:899-913 | filtering a filtered list again changes nothing |
| DiscoveryFilter.SelectItems | src/service/servicediscovery.cpp:899-913 | the loop of filterServiceDiscoveryItems returns exactly the selection |
| DiscoveryFilter.ServiceDiscoveryFilter.constructor | src/service/servicediscoveryfilter.cpp:64-68 | a new filter has an empty name pattern and no TXT patterns |
| DiscoveryFilter.ServiceDiscoveryFilter.Apply | src/service/servicediscoveryfilter.cpp:80-102 | apply answers the filter predicate of the current criteria and changes nothing |
| DiscoveryFilter.ServiceDiscoveryFilter.SetName | src/service/servicediscoveryfilter.cpp:104-110 | the name pattern is stored, the TXT patterns are kept, and the change is reported exactly when the value differs |
| DiscoveryFilter.ServiceDiscoveryFilter.SetTxtRecords | src/service/servicediscoveryfilter.cpp:112-118 | the TXT patterns are stored, the name is kept, and the change is reported exactly when the value differs |
| Discovery.SeparatorIndex | src/service/servicediscovery.cpp:1087 | the position of the first "._" in a PTR target, or -1 exactly when there is none |
| Discovery.InstanceNameProperties | src/service/servicediscovery.cpp:1087 | the instance name is a prefix of the target with no "._" in it; it ends where the first "._" starts, and it is empty when the target has no "._" (a negative-length prefix of a byte array is empty) |
| Discovery.InstanceNameExample | src/service/servicediscovery.cpp:1087 | dots before the first "._" stay in the instance name: "mill.2._machinekit._tcp.local" names "mill.2" |
| Discovery.InstanceNameWithoutSeparator | src/service/servicediscovery.cpp:1087 | the PTR target "mill", which has no "._", names the empty instance |
| Discovery.ViewsMeaning | src/service/servicediscovery.cpp:815-855 | exactly the configured queries of the type receive a view; an A query gets all items, any other the filtered ones |
| Discovery.RefreshedStep | src/service/servicediscovery.cpp:867-874 | republishing one more type extends the set of types whose queries show their current view |
| Discovery.QueriedTypesMeaning | src/service/servicediscovery.cpp:530-538 | a type is tracked exactly when it is non-empty and some configured query names it |
| Discovery.ResolutionCompletes | src/service/servicediscovery.cpp:1084-1177 | after announcement, the TXT and SRV answers (in either order) and then the A answer leave the item resolved with the texts, host, port and address of those answers; the orders TXT, SRV, A and SRV, TXT, A, and SRV, A, TXT as well, all give the same item |
| Discovery.UnresolvedWhileWaiting | src/service/servicediscovery.cpp:1169-1177 | while another follow-up query is open, the resolved check leaves the item unmarked |
| Discovery.AnnouncementsPositive | src/service/servicediscovery.cpp:1093 | a PTR response announces something exactly when one record has a positive TTL |
| Discovery.AnnouncementIs | src/service/servicediscovery.cpp:1093-1105 | announcing an instance is upserting it and then awaiting two fresh ids, TXT then SRV, at its position |
| Discovery.AfterAnnounceIs | src/service/servicediscovery.cpp:1093-1106 | proof step that only connects `AnnounceItem` to its specification: the registry and ledger after addItem and the two new requests are exactly `AfterAnnounce` |
| Discovery.AfterWithdrawIs | src/service/servicediscovery.cpp:975-999 | proof step that only connects `WithdrawAt` to its specification: dropping a present item with its owned ids and republishing its type is exactly `AfterWithdraw` |
| Discovery.AfterDataAnswerIs | src/service/servicediscovery.cpp:1112-1177 | proof step that only connects `AnswerTxt` and `AnswerAddress` to their specification: storing a TXT or address answer, retiring the id and the resolved check are exactly `AfterAnswer` |
| Discovery.AfterSrvAnswerIs | src/service/servicediscovery.cpp:1133-1152 | proof step that only connects `AnswerSrv` to its specification: storing an SRV answer, retiring the id and issuing one fresh A query are exactly `AfterAnswer` |
| Discovery.AnswerOnce | src/service/servicediscovery.cpp:1116-1121 | a second answer to the same follow-up id changes nothing, because the first one retired it |
| Discovery.OnlyFirstAnswerCounts | src/service/servicediscovery.cpp:1071-1179 | of the records answering one follow-up query, the state after all of them is the state after the first |
| Discovery.FirstQueryTypeMeaning | src/service/servicediscovery.cpp:530-538 | for a queried type, `FirstQueryType` is the record type of the earliest configured query that names it |
| Discovery.TypesFromStep | src/service/servicediscovery.cpp:534-537 | addServiceType for one more query keeps the old record types and gives a new type the record type of the first query naming it |
| Discovery.RegisteredTypesMeaning | src/service/servicediscovery.cpp:530-546 | the record types after the first loop of updateServices: every queried type has one, old types keep theirs, and each new type has that of the first query naming it |
| Discovery.TypesAfterDrop | src/service/servicediscovery.cpp:518-558 | after the stale types are dropped, each remaining type keeps its old record type or, when new, has that of the first query naming it |
| Discovery.ServiceDiscovery.constructor | src/service/servicediscovery.cpp:226-253 | starts not running, no transport, error threshold 2, empty filter, every map empty |
| Discovery.ServiceDiscovery.UpdateServiceType | src/service/servicediscovery.cpp:815-855 | every configured query of a registered type is handed its view; nothing changes for an unregistered type |
| Discovery.ServiceDiscovery.AddServiceType | src/service/servicediscovery.cpp:790-801 | a new type is registered with an empty list and its record type; a registered one is left alone |
| Discovery.ServiceDiscovery.GetItem | src/service/servicediscovery.cpp:945-967 | an item is returned exactly when the type is registered and has an item of that name, and it is that item |
| Discovery.ServiceDiscovery.AddItem | src/service/servicediscovery.cpp:915-943 | the existing item is returned with the list unchanged, or exactly one new item is appended; nothing for an unregistered type |
| Discovery.ServiceDiscovery.StopItemQueries | src/service/servicediscovery.cpp:772-788 | exactly the ids the item owns are cancelled and leave the item and type maps |
| Discovery.ServiceDiscovery.RemoveItem | src/service/servicediscovery.cpp:975-999 | the new state is `AfterWithdraw`: the ids the item owns are cancelled and forgotten, and a present item leaves the list and its type is republished; afterwards no item of that name is listed |
| Discovery.ServiceDiscovery.WithdrawAt | src/service/servicediscovery.cpp:990-996 | a found item leaves its list with the ids it owns, which are cancelled, and its type is republished: exactly `AfterWithdraw` |
| Discovery.ServiceDiscovery.DropItem | src/service/servicediscovery.cpp:983-993 | one item leaves its list together with the ids it owns, which are cancelled |
| Discovery.ServiceDiscovery.ClearItems | src/service/servicediscovery.cpp:1001-1025 | the type's list is emptied; exactly the ids of its items are cancelled and forgotten; the type is republished |
| Discovery.ServiceDiscovery.StopListQueries | src/service/servicediscovery.cpp:1015-1021 | the loop of clearItems drops and cancels exactly the ids owned by the list's items |
| Discovery.ServiceDiscovery.PurgeItems | src/service/servicediscovery.cpp:1028-1069 | the list goes through one purge cycle; exactly the evicted items' ids are cancelled; the type is republished exactly when something was evicted |
| Discovery.ServiceDiscovery.PurgeType | src/service/servicediscovery.cpp:1042-1062 | the reverse loop yields the purged list and reports whether any item was evicted |
| Discovery.ServiceDiscovery.PurgeList | src/service/servicediscovery.cpp:1043-1062 | the reverse loop of the purge cycle yields the purged list, drops and cancels exactly the evicted items' ids and reports whether any was evicted |
| Discovery.ServiceDiscovery.RemoveServiceType | src/service/servicediscovery.cpp:803-813 | the type's item ids are cancelled, its queries are shown an empty list, and the type leaves both registry maps; nothing for an unknown type |
| Discovery.ServiceDiscovery.ForgetType | src/service/servicediscovery.cpp:810-811 | an emptied type leaves both registry maps and nothing else changes |
| Discovery.ServiceDiscovery.RemoveAllServiceTypes | src/service/servicediscovery.cpp:857-865 | both registry maps and the item map end empty; every item id is cancelled; every query of a removed type is shown an empty list |
| Discovery.ServiceDiscovery.UpdateAllServiceTypes | src/service/servicediscovery.cpp:867-874 | every configured query of a registered type shows its current view; other entries are kept |
| Discovery.ServiceDiscovery.SetFilter | src/service/servicediscovery.cpp:649-657 | the filter is stored; a changed filter republishes every registered type under it and keeps the other published entries; an unchanged one republishes nothing |
| Discovery.ServiceDiscovery.SetUnicastErrorThreshold | src/service/servicediscovery.cpp:473-480 | the threshold is stored, and it is the one the next purge cycle evicts by |
| Discovery.ServiceDiscovery.UpdateServices | src/service/servicediscovery.cpp:512-561 | the tracked types become exactly the non-empty queried types; kept types keep their items and record types, new ones start empty with the record type of the first query naming them; when running on a ready network each tracked type has one top-level query and removed types have none, otherwise the top-level queries and the id counter are unchanged; every query shows its current view |
| Discovery.ServiceDiscovery.ReconcileTypes | src/service/servicediscovery.cpp:518-558 | both loops of updateServices: the tracked types become the queried ones with their items kept or empty, the type map is `RegisteredTypes` minus the stale types, and the top-level queries are as for UpdateServices |
| Discovery.ServiceDiscovery.RegisterQueries | src/service/servicediscovery.cpp:518-546 | the first loop registers every queried type (and starts its query when running on a ready network); the type map becomes `RegisteredTypes` of the queries, adding only types not tracked yet; without a running, ready network no top-level query, record type or id changes; it returns the old types no query names |
| Discovery.ServiceDiscovery.DropStaleTypes | src/service/servicediscovery.cpp:548-558 | the second loop stops and removes exactly the stale types from both registry maps; the others keep their lists, record types and queries; without a running, ready network the top-level queries are unchanged |
| Discovery.ServiceDiscovery.SetRunning | src/service/servicediscovery.cpp:482-510 | the flag is stored; on a ready network switching on gives every type one top-level query, with new ids carrying the registered record type; it keeps every existing id with its service type and record type, and leaves the items, follow-up ids, cancelled ids and views unchanged; and switching off leaves none; nothing else when unchanged or the network is not ready |
| Discovery.ServiceDiscovery.DeinitializeMdns | src/service/servicediscovery.cpp:350-384 | with no transport nothing changes; otherwise the transport is gone and lookup is not ready; while running every type is removed and all three maps end empty |
| Discovery.ServiceDiscovery.ForgetAll | src/service/servicediscovery.cpp:361-372 | all types removed and all three query maps cleared; every item id cancelled; every query of a removed type shown an empty list |
| Discovery.ServiceDiscovery.FindQuery | src/service/servicediscovery.cpp:706-716 | a top-level query of the type is found exactly when one exists, and the id found is one of them |
| Discovery.ServiceDiscovery.StartQuery | src/service/servicediscovery.cpp:677-699 | nothing when the type's query runs; otherwise exactly one fresh id is recorded with the registered record type; afterwards the type has exactly one top-level query |
| Discovery.ServiceDiscovery.IssueQuery | src/service/servicediscovery.cpp:690-694 | one fresh top-level id is recorded for the type with the given record type; it is then the type's only top-level query |
| Discovery.ServiceDiscovery.StopQuery | src/service/servicediscovery.cpp:701-731 | the type's running query is cancelled and forgotten and its items are cleared; nothing when none runs; afterwards the type has no top-level query |
| Discovery.ServiceDiscovery.CancelQuery | src/service/servicediscovery.cpp:723-725 | the type's only top-level id is cancelled and leaves the type and service maps |
| Discovery.ServiceDiscovery.RefreshQuery | src/service/servicediscovery.cpp:733-770 | the running query is cancelled, the items go through one purge cycle, and one fresh query of the registered record type replaces it; nothing when none runs |
| Discovery.ServiceDiscovery.RetireQuery | src/service/servicediscovery.cpp:744-749 | the running query is cancelled and forgotten and the type goes through one purge cycle, its evicted ids cancelled and the type republished exactly when something was evicted |
| Discovery.ServiceDiscovery.StartQueries | src/service/servicediscovery.cpp:659-666 | every registered type ends with exactly one top-level query; running queries and their record types are kept; new ids are fresh, belong to registered types and carry the type's registered record type |
| Discovery.ServiceDiscovery.StopQueries | src/service/servicediscovery.cpp:668-675 | exactly the top-level queries of registered types are forgotten; lists of types whose query ran are emptied, the others are kept; no registered type keeps a query |
| Discovery.ServiceDiscovery.UnicastLookup | src/service/servicediscovery.cpp:416-423 | each registered type whose query runs goes through one purge cycle and keeps a query; the others are untouched |
| Discovery.ServiceDiscovery.FindOwner | src/service/servicediscovery.cpp:1116 | the item a follow-up id belongs to is live, and it has that id among its open queries |
| Discovery.ServiceDiscovery.AddRequest | src/service/servicediscovery.cpp:1098-1105 | a fresh id of a follow-up type is recorded in the type and item maps, and the item waits for it |
| Discovery.ServiceDiscovery.MarkIfResolved | src/service/servicediscovery.cpp:1169-1177 | an item with no open query is marked resolved and its type is republished; otherwise nothing changes |
| Discovery.ServiceDiscovery.HandleTxt | src/service/servicediscovery.cpp:1112-1132 | the TXT answer retires its id (cancelled, out of both maps and the item's open set) and stores the texts |
| Discovery.ServiceDiscovery.HandleAddress | src/service/servicediscovery.cpp:1153-1167 | the A or AAAA answer retires its id and stores the address |
| Discovery.ServiceDiscovery.HandleSrv | src/service/servicediscovery.cpp:1133-1152 | the SRV answer retires its id, stores host and port, and puts exactly one fresh A query in its place, so the item stays unresolved |
| Discovery.ServiceDiscovery.StartResolving | src/service/servicediscovery.cpp:1098-1105 | two consecutive fresh ids, TXT then SRV, are recorded for the item, and it waits for both |
| Discovery.ServiceDiscovery.AnnounceItem | src/service/servicediscovery.cpp:1093-1106 | a fault, with nothing changed, exactly when the type is unregistered; otherwise the new state is `AfterAnnounce`: the instance is upserted and waits for two fresh ids, TXT then SRV |
| Discovery.ServiceDiscovery.AnswerTxt | src/service/servicediscovery.cpp:1112-1132 | the new state is `AfterAnswer` for TXT: texts stored, id retired, and the item marked and republished exactly when it waits for nothing more |
| Discovery.ServiceDiscovery.AnswerAddress | src/service/servicediscovery.cpp:1153-1177 | the new state is `AfterAnswer` for A or AAAA: address stored, id retired, and the item marked and republished exactly when it waits for nothing more |
| Discovery.ServiceDiscovery.AnswerSrv | src/service/servicediscovery.cpp:1133-1152 | the new state is `AfterAnswer` for SRV: host and port stored, id retired and cancelled, one fresh A query recorded |
| Discovery.ServiceDiscovery.ProcessRecord | src/service/servicediscovery.cpp:1084-1177 | the new state is `AfterRecord` of the record under the looked-up type; a null dereference (fault) exactly for an announcement of an unregistered type or an item answer to an id no item owns, and then nothing changes |
| Discovery.ServiceDiscovery.ProcessPtr | src/service/servicediscovery.cpp:1084-1110 | the new state is `AfterRecord` for PTR: a positive TTL upserts `InstanceName` of the target (the part before the first "._", empty when there is none) under the query's service type (`AfterAnnounce`), TTL 0 removes it (`AfterWithdraw`); a fault exactly when announcing for an unregistered type |
| Discovery.ServiceDiscovery.ProcessAnswer | src/service/servicediscovery.cpp:1112-1167 | the new state is `AfterAnswer`: texts for TXT, host, port and a fresh A query for SRV, the address for A and AAAA, in the item owning the id; a fault, with nothing changed, exactly when no item owns it; either way the id is no longer item-owned |
| Discovery.ServiceDiscovery.ResultsReady | src/service/servicediscovery.cpp:1071-1179 | as written: for PTR responses a fault exactly when the type is unregistered and a record announces; for item responses a fault exactly when the id has no owner or there are two or more records; without a fault the new state is `AfterRecords` of all the records; empty or other responses change nothing |
| Discovery.ServiceDiscovery.ResultsReadyChecked | src/service/servicediscovery.cpp:1071-1179 | as intended: the new state is `AfterRecords` of all the records, which for an item answer is that of the first record alone; no record is skipped for a registered PTR type or for the first answer of an owned id; exactly the announcements, or the records after the first, are skipped otherwise |
| Discovery.ServiceDiscovery.NothingLiveWhenEmpty | src/service/servicediscovery.cpp:368-371 | with no type registered, the item map is empty |
| Discovery.ServiceDiscovery.NothingOwnedByAbsent | src/service/servicediscovery.cpp:772-788 | an item that is not in the registry owns no ledger id |

## Findings

| source | as written | input that shows it | evidently intended | confidence | as-written member | corrected member |
|---|---|---|---|---|---|---|
| src/service/servicediscovery.cpp:1112-1167 | the TXT, SRV and A/AAAA branches dereference the item of `m_queryIdItemMap.value(id)` without a null check; the first record of a response removes `id` from that map | a response with two A records to an item's A query, or any answer to a top-level query of record type A (its id is in no item's map) | skip a record whose item is missing | not executed | Discovery.ServiceDiscovery.ResultsReady | Discovery.ServiceDiscovery.ResultsReadyChecked |

In the model, a null dereference is the `fault` result. The faulting record changes nothing, and processing stops there. `ResultsReadyChecked` is the corrected operation: it skips such a record and goes on with the rest.

## Left out

- The network session, its bearer enumeration and timers are platform I/O. These are `initializeNetworkSession`, `openNetworkSession`, `networkSession*` and `updateNetConfig`.
- JDNS initialisation, `updateNameServers` and the Android multicast activator are foreign calls. The transport is represented only by fresh ids from a counter and the set of cancelled ids. The query name passed to the transport is not recorded.
- The unicast lookup timer is an external trigger. `UnicastLookup` is what it calls. The timer starts and stops in `setRunning` and `deinitializeMdns` are left out.
- Signals, QML list properties and `error()` (which only logs) are left out. So is `setUnicastLookupInterval`, which only sets the interval of the lookup timer.
- SetLookupMode is not modelled, and the lookup mode is not a field of the model. When the mode changes while lookup is ready, `setLookupMode` (src/service/servicediscovery.cpp:619-647) runs `deinitializeMdns` (modelled as `DeinitializeMdns`) and then `initializeMdns`. A failed re-initialisation clears the network-ready flag. `initializeMdns` is left out because it initialises JDNS, a foreign call. On success it sets lookup ready and, while running, calls `updateServices`.
- The Unix wildcard semantics of `QRegExp` are the `Matcher` parameter.
- `deleteLater` object lifetime is left out. Deleting an item is its removal from the registry.
- ServiceDiscoveryItem is not part of this model. An item is a value with its open follow-up ids as a set. Items are identified by service type and name, which `addItem` keeps unique within a type. A configured query is handed the names of its items.
- ServiceList, Service and ServiceDiscoveryQuery are not part of this model. Their nested query lists are flattened into one sequence of `Query` values.
- QtKnobs/styles/needlestyle.cpp is UI rendering with floating-point angle arithmetic.
- `SetFilter` compares filter values, while the source compares filter objects by identity. Setting a distinct filter object with equal criteria republishes in the source but not in the model.
- SetFilter: a null filter is not modelled, because `filter` is a value. `setFilter` accepts `nullptr` (src/service/servicediscovery.cpp:649-657) and then republishes every type. `filterServiceDiscoveryItem` then dereferences the null filter (:878) for every non-A query of a registered type that has items, and crashes.
- Map iteration order is not modelled. The walks over the registry (`startQueries`, `stopQueries`, `unicastLookup`, `removeAllServiceTypes`, `updateAllServiceTypes`, the second loop of `updateServices`) pick the next type nondeterministically. Each step touches one type only, so the final registry, type map, cancelled ids and published views do not depend on the order. The fresh query ids do: `startQueries`, `unicastLookup` and `updateServices` hand them out in ascending service-type order, and the model does not state which id each type receives.
- `stopItemQueries` walks the id map in key order. Its model removes the item's ids all at once, which gives the same final maps.
- A positive-TTL PTR record for a service type that is not registered also dereferences null: `addItem` returns null there. `ResultsReady` models it as a fault too, and `ResultsReadyChecked` skips the record. It is not listed under Findings because the input is unlikely: top-level queries start only while running on a ready network, and then the second loop of `updateServices` stops a type's query before removing it. Two paths remove a type without stopping its query. `removeAllServiceTypes` (src/service/servicediscovery.cpp:857-865) is called only from `deinitializeMdns`, which clears the three query maps and drops the transport right after (:368-375). `updateServices` when not running on a ready network (:553-557) can leave a query behind only if the network stopped being ready while the query ran, as after a failed re-initialisation in `setLookupMode` (:640-644). `Valid()` allows such a dangling top-level id, so the model reaches this fault from a consistent state.
- The resolved check after a PTR or SRV record is not modelled. It cannot fire, because the item has just been given new open queries.
- The AAAA record type is only ever answered, never requested. Like the source, the SRV branch always issues an A query.
- StopQueries: does not state the cancelled ids, the follow-up ledger or the published views after the walk.
- UnicastLookup: does not state the cancelled ids, the follow-up ledger, the new query ids or the published views after the walk.
- SetRunning: for the stop case, states only the tracked types and the absence of top-level queries (see `StopQueries`).
- UpdateServices: does not state the cancelled ids, the follow-up ledger or the published entries of configured queries that name no tracked type after stale types are removed.
- ReconcileTypes: like `UpdateServices`, does not state the cancelled ids, the follow-up ledger or the published views after stale types are removed.
- DropStaleTypes: does not state the cancelled ids, the follow-up ledger or the published views; each removal is stated by `RemoveServiceType`, and the walk order is not modelled.
