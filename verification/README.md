# Homestead: the subscriber cache and the procedures around it

Homestead answers Sprout and an HSS from a cache of implicit registration sets (IRSs). The
cache is a key-value store per site, changed by many Homesteads at once with
compare-and-swap and no transactions. This project models the cache and the procedures that
drive it, and proves what they keep under every interleaving, and where they do not.

| file | what it models |
|---|---|
| `Types.dfy`, `Stores.dfy` | records, statuses; one site's store with versions (CAS), and the turns the rest of the world takes before each access |
| `StateMap.dfy`, `Identities.dfy`, `Irs.dfy` | an IRS in memory: ADDED / UNCHANGED / DELETED maps, "set by caller" flags, merging with snapshots, the identities in its XML |
| `ImpuAction.dfy`, `NoLostUpdate.dfy` | the CAS retry loop for the default record, against any interleaving |
| `IrsUpdate.dfy`, `Consistency.dfy`, `CacheActions.dfy`, `GeoCache.dfy` | pointers and mappings; when a store is consistent; put and delete on one store and on all of them |
| `Lookup.dfy` | local-then-remote reads and the lookup through an associated IMPU |
| `HandlerPuts.dfy` | what the handlers put does meet the conditions of the cache theorems |
| `MappingRace.dfy`, `RegStateRace.dfy` | any number of Homesteads, one store access at a time |
| `RegDataTask.dfy`, `HssRequests.dfy`, `Ttl.dfy` | the registration request, RTR and PPR, and registrations over time |
| `Framing.dfy` | the varbyte length, the record frame and the growing compression buffer |

## How the store is modelled

A CAS write succeeds if the CAS is that of the stored version, or is 0 and the key is absent;
every write gets a fresh non-zero CAS; deletes and `set_impu_without_cas` ignore it. Before each
access of this Homestead the others take a *turn*: any writes, deletions or expiries, and possibly
a failure of the access. A theorem about a schedule of turns holds for every one. A store without
turns is *quiet*.

## What turned out false of the code

- An identity that the others remove and add back while a put keeps retrying is dropped, although
  the record finally replaced lists it (`NoLostUpdate.RetryLosesReadded` is such a run; the exact
  condition is `StateMap.ForeignAdditionKept`, and `NoLostUpdate.WrittenImpisExactly` for what is written).
- Emptying an IMPI mapping deletes it without a CAS, so an addition committed meanwhile is lost
  (`MappingRace.RacedDeleteLosesAddition`; exact condition in `MappingRace.StepLoses` and `StepEdits`).
- The removal loop does not reset its status, and the addition loop can keep the CAS of a vanished
  mapping: both can spin (`MappingRace.ContendedRemovalSpins`, `StaleAdditionSpins` are runs that get
  there). `MappingRace.EndsUnlessStuck` says exactly when a loop left alone ends.
- A registered record is never replaced by an unregistered one, as src/memcached_cache.cpp:816-846
  wants it. But the pointer updates of another IRS, which use no CAS, can delete or overwrite it
  (`RegStateRace.RacedEraseLosesRegistration`, `PointerReplacesRegistration`; the exact steps in
  `RegStateRace.StepKeepsRegistered`).
- A non-refreshed put to a store that lacks the record leaves pointers and mappings unwritten, exactly
  if it counts any identity as unchanged (`CacheActions.UnrefreshedPutDangles`). A push meets such a store
  whenever a remote one has lost the record; else it does fit (`HandlerPuts.PushFitsAll`).
- A deletion of an IRS that was not read from this store, and whose first read fails there, reports
  success: the default record stays, but the pointers and mappings that the IRS tracks are deleted
  (`CacheActions.FailedReadDangles`; `NoLostUpdate.DeletionTakesEffect` says when the record stays).
- A registration for which the HSS answers with a document for another default IMPU, or for nobody,
  leaves the record that was found as old as it was, or a pointer over it (`Ttl.ServeCurrent`).
- `to_data` says that adding 6 fixes rounding; the reserved length is one byte short when the
  number of halvings is a multiple of seven (`Framing.ReservedLength`). It is only a reservation.

## Model

| member | source | states |
|---|---|---|
| `StateMap.TrackAll` | include/memcached_cache.h:47-55 | identities read from a record are all tracked as UNCHANGED |
| `StateMap.DeleteTracked` | src/memcached_cache.cpp:248-254 | every tracked identity becomes DELETED and none is forgotten |
| `StateMap.SetElements` | src/memcached_cache.cpp:99-127 | the two loops compute the closed form: missing ones DELETED, new or deleted ones ADDED, the ignored one untouched |
| `StateMap.ReplacedLive` | src/memcached_cache.cpp:85-127 | live becomes the update minus the ignored element exactly unless that one is already live; what was live and stays so keeps its mark, what comes to be live is ADDED, and no key is dropped |
| `StateMap.MergeDataSets` | src/memcached_cache.cpp:168-193 | the two loops compute the merge with one snapshot |
| `StateMap.EmplaceDeleted` | src/memcached_cache.cpp:222-233 | identities only the store lists are tracked as DELETED; known ones keep their state |
| `StateMap.Superseded` | src/memcached_cache.cpp:222-233 | merging into a refreshed set changes neither its live, ADDED nor UNCHANGED elements, and tracks all the store lists |
| `StateMap.MergedAllLive` | src/memcached_cache.cpp:171-193 | over any snapshot sequence ADDED is fixed, DELETED only grows, no key is lost, and the live set is exactly known |
| `StateMap.MergedAllLast` | src/memcached_cache.cpp:171-193 | live = ADDED + (last snapshot - DELETED before it), and merging it again changes nothing |
| `StateMap.ReaddedIdentityIsLost` | src/memcached_cache.cpp:183-192 | a removed and re-added identity is dropped |
| `StateMap.ForeignAdditionKept` | src/memcached_cache.cpp:171-193 | an identity the caller did not touch survives if and only if no snapshot saw it go |
| `Identities.GetPublicAndDefaultIds` | src/homestead_xml_utils.cpp:247-332 | the nested loops compute the ids and the default id |
| `Identities.WalkProfile` | src/homestead_xml_utils.cpp:280-316 | the inner loop extends both lists by one profile |
| `Identities.IdsMeaning` | src/homestead_xml_utils.cpp:292-311 | the ids are exactly the URIs mentioned |
| `Identities.IdsOrder` | src/homestead_xml_utils.cpp:302-310 | the ids have no duplicates and come in order of first mention |
| `Identities.DefaultMeaning` | src/homestead_xml_utils.cpp:325-329 | the default is the first URI whose first mention is unbarred, and empty if there is none |
| `Identities.IdsOfDocument` | src/homestead_xml_utils.cpp:276-316 | the ids are exactly the URIs that some profile of the document mentions |
| `Identities.IdsInDocumentOrder` | src/homestead_xml_utils.cpp:276-316 | the ids come in the order of their first mention, by profile and then within it |
| `Identities.DefaultOfDocument` | src/homestead_xml_utils.cpp:276-332 | the default is the URI at the first place of the document, by profile and then within it, that is a first mention and not barred; "" exactly if there is no such place |
| `IrsModel.MemcachedIrs.FromStore` | include/memcached_cache.h:33-58 | an IRS read from a store remembers its CAS and tracks the record as UNCHANGED |
| `IrsModel.MemcachedIrs.New` | include/memcached_cache.h:66-76 | a blank IRS is refreshed and not existing |
| `IrsModel.MemcachedIrs.SetImsSubXml` | src/memcached_cache.cpp:129-156 | sets XML, default IMPU and associated IMPUs from the document |
| `IrsModel.MemcachedIrs.SetRegState` | include/memcached_cache.h:123-127 | sets the state and marks it as set by the caller |
| `IrsModel.MemcachedIrs.SetChargingAddresses` | include/memcached_cache.h:132-136 | sets the addresses and marks them as set |
| `IrsModel.MemcachedIrs.SetTtl` | include/memcached_cache.h:138-142 | sets the TTL and refreshes |
| `IrsModel.MemcachedIrs.AddAssociatedImpi` | src/memcached_cache.cpp:158-161 | that IMPI becomes ADDED, no other one changes state, and nothing else of the IRS changes |
| `IrsModel.MemcachedIrs.DeleteAssociatedImpi` | src/memcached_cache.cpp:163-166 | that IMPI becomes DELETED, so is not live, no other one changes state, and nothing else of the IRS changes |
| `IrsModel.MemcachedIrs.DeleteAssocImpus` | src/memcached_cache.cpp:256-259 | marks all associated IMPUs as DELETED |
| `IrsModel.MemcachedIrs.DeleteImpis` | src/memcached_cache.cpp:261-264 | marks all IMPIs as DELETED |
| `IrsModel.MemcachedIrs.MarkAsRefreshed` | include/memcached_cache.h:170-170 | only sets the refreshed flag |
| `IrsModel.MemcachedIrs.UpdateFromImpuFromStore` | src/memcached_cache.cpp:195-246 | merges a record: unset fields and TTL taken over, IMPIs merged, associated IMPUs merged or superseded |
| `IrsModel.XmlSetsAssociated` | src/memcached_cache.cpp:129-156 | the live associated IMPUs become ids minus default exactly unless the default is already tracked as live |
| `IrsModel.ReadCovers` | include/memcached_cache.h:33-58 | an IRS covers the record it was read from |
| `IrsModel.EditCovers` | include/memcached_cache.h:121-142 | whatever the caller sets, the IRS keeps covering that record |
| `IrsModel.MergeCovers` | src/memcached_cache.cpp:195-246 | merging a record makes the IRS cover it; no key is forgotten |
| `IrsModel.CoveredWriteKeepsUpdates` | src/memcached_cache.cpp:44-61 | over a covered record the write is added + (record's - deleted), and unset fields are the record's |
| `IrsModel.UnchangedRewritesItself` | include/memcached_cache.h:148-156 | an IRS without changes would rewrite its own record, so skipping the put loses nothing |
| `IrsModel.ChangedMeaning` | include/memcached_cache.h:148-156 | an IRS has changed exactly if it is new or refreshed, or the caller has set a field or added or deleted an identity |
| `IrsModel.MergeRecordsMeaning` | src/memcached_cache.cpp:195-246 | over a whole retry history: IMPIs, and associated IMPUs of a non-refreshed IRS, by the snapshot fold; a refreshed one keeps its own and tracks all listed; no field or flag the caller set changes |
| `Stores.Encoded` | src/impu_store.cpp:410-431 | a stored record is registered or unregistered, and equal otherwise |
| `Stores.ImpuStore.GetImpu` | src/impu_store.cpp:494-527 | returns the version stored now, NOT_FOUND, or ERROR |
| `Stores.ImpuStore.SetImpu` | src/impu_store.cpp:576-603 | writes exactly if the CAS matches, else contention |
| `Stores.ImpuStore.AddImpu` | src/impu_store.cpp:551-574 | writes exactly if the key is absent |
| `Stores.ImpuStore.SetImpuWithoutCas` | src/impu_store.cpp:529-549 | writes whatever is there |
| `Stores.ImpuStore.DeleteImpu` | src/impu_store.cpp:605-609 | deletes whatever is there |
| `Stores.ImpuStore.GetImpiMapping` | src/impu_store.cpp:611-645 | returns the version stored now, NOT_FOUND, or ERROR |
| `Stores.ImpuStore.SetImpiMapping` | src/impu_store.cpp:647-668 | writes exactly if the CAS matches |
| `Stores.ImpuStore.DeleteImpiMapping` | src/impu_store.cpp:670-674 | deletes whatever is there |
| `Stores.ForeignWritesFresh` | include/impu_store.h:256-280 | foreign writes never reuse a CAS and leave records alone that they do not name |
| `ImpuAction.PerformIrsImpuAction` | src/memcached_cache.cpp:895-987 | the loop computes its specification for every schedule of turns, and ends |
| `ImpuAction.RereadOn` | src/memcached_cache.cpp:923-976 | the branch that re-reads: absent, default, pointer and refreshed, or give up |
| `ImpuAction.RereadContended` | src/memcached_cache.cpp:923-979 | contention after a re-read needs a disturbance in one of the two turns, and then nothing was written |
| `NoLostUpdate.NoUpdateLost` | src/memcached_cache.cpp:895-987 | for every schedule: one write only, over the record found at that moment, keeping its updates; the caller's additions, deletions and set fields are written as they were; pointers overwritten only if refreshed |
| `NoLostUpdate.WrittenImpisExactly` | src/memcached_cache.cpp:195-246 | exactly which IMPIs get written, in terms of the records merged on the way |
| `NoLostUpdate.RetryLosesReadded` | src/memcached_cache.cpp:923-979 | a run of the put in which an identity removed and added back between its reads and writes is dropped from a record that lists it |
| `NoLostUpdate.BoundedRetry` | src/memcached_cache.cpp:911-979 | after the first write, at most one round more than there were failed reads and foreign writes of the record just before ours; never ends in contention |
| `NoLostUpdate.UnrefreshedKeepsExpiry` | src/memcached_cache.cpp:195-246 | over any schedule a put without a refresh leaves the expiry of the record it replaces as it is |
| `NoLostUpdate.PerformSucceeds` | src/memcached_cache.cpp:895-987 | if no access fails, the loop succeeds whatever the others write, unless a non-refreshed put meets a pointer |
| `NoLostUpdate.FailedReadRetries` | src/memcached_cache.cpp:931-948 | a put whose first read fails comes to the same as one whose read does not |
| `NoLostUpdate.ReadIsFresh` | src/http_handlers.cpp:1263-1273 | an IRS read, edited as by a registration or a push, meets the condition of the previous rows after any foreign writes |
| `NoLostUpdate.DeletionTakesEffect` | src/memcached_cache.cpp:931-948 | a deletion that reports OK removed the record exactly unless its first read failed |
| `IrsUpdate.UpdateIrsAssociatedImpus` | src/memcached_cache.cpp:738-811 | deleted pointers to this IRS go, written ones point to it, nothing else changes, in any order of iteration |
| `IrsUpdate.RemovePointer` | src/memcached_cache.cpp:753-772 | deletes a pointer only if it still points to this IRS |
| `IrsUpdate.UpdateIrsImpiMappings` | src/memcached_cache.cpp:581-736 | all mappings after the three loops, in any order of iteration |
| `IrsUpdate.RemoveFromMapping` | src/memcached_cache.cpp:599-628 | removes the default IMPU from a mapping, deleting an emptied one |
| `IrsUpdate.RefreshMapping` | src/memcached_cache.cpp:633-666 | rewrites a mapping with the default IMPU in it, creating it if absent |
| `IrsUpdate.AddToMapping` | src/memcached_cache.cpp:670-728 | adds to a mapping supposed new, resolving contention once |
| `IrsUpdate.Add` | include/impu_store.h:201-211 | has the old default IMPUs and the new one |
| `IrsUpdate.Remove` | include/impu_store.h:213-219 | has the old default IMPUs but that one |
| `Consistency.PutPoints` | src/memcached_cache.cpp:738-811 | who points to whom after a put |
| `Consistency.PutMapsTo` | src/memcached_cache.cpp:581-736 | who maps to whom after a put |
| `Consistency.PutExpiries` | src/memcached_cache.cpp:581-811 | all records and mappings written live as long as the default record; a non-refreshed IRS leaves the life of a mapping it is in already; the rest keep theirs |
| `Consistency.PutAgreesOnImpus` | src/memcached_cache.cpp:1015-1044 | pointers agree with records after a put if and only if the IRS was up to date |
| `Consistency.PutAgreesOnImpis` | src/memcached_cache.cpp:1015-1044 | mappings agree with records after a put if and only if the IRS was up to date |
| `Consistency.PutRefines` | src/memcached_cache.cpp:1015-1044 | a put keeps consistency if and only if the IRS was up to date, and is a one-entry update of the abstract map |
| `Consistency.DeleteCleans` | src/memcached_cache.cpp:1046-1068 | a deletion leaves no trace if and only if all that was listed is tracked |
| `Consistency.DeleteRefines` | src/memcached_cache.cpp:1046-1068 | a deletion keeps consistency under that same condition, and is removal from the abstract map |
| `CacheActions.CreateIrsImpu` | src/memcached_cache.cpp:847-891 | registered records overwrite, others give way to what got there, and contention is no error |
| `CacheActions.PutIrsAction` | src/memcached_cache.cpp:1015-1044 | the three steps of a put compute its specification |
| `CacheActions.QuietSet` | src/memcached_cache.cpp:895-987 | with nobody else writing, the loop writes at once or after one re-read |
| `CacheActions.WritesNewEntry` | src/memcached_cache.cpp:895-987 | the record written is that entry, and the IRS is still the caller's |
| `CacheActions.PutActionRefines` | src/memcached_cache.cpp:1015-1044 | a ready IRS leaves a consistent store that differs in its own entry of the abstract map: the caller's edits and set fields, and the rest from the entry there was |
| `CacheActions.PutFailsExactly` | src/memcached_cache.cpp:895-987 | on a quiet store a put fails exactly if a stored, non-refreshed IRS finds a pointer where its record should be |
| `CacheActions.UnrefreshedPutDangles` | src/memcached_cache.cpp:774-803 | a non-refreshed put to a store without the record keeps it consistent exactly if it counts nothing as unchanged |
| `CacheActions.PutImsSubAction` | src/memcached_cache.cpp:1164-1181 | puts every IRS of a subscription in turn, each on what the one before left, and always reports OK |
| `CacheActions.DeleteIrsAction` | src/memcached_cache.cpp:1046-1068 | the three steps of a deletion compute its specification, over any turns and failures in the first one |
| `CacheActions.DeleteActionRefines` | src/memcached_cache.cpp:1046-1068 | a deletion cleans any consistent store, and is removal from the abstract map unless the IMPU is associated there |
| `CacheActions.FailedReadDangles` | src/memcached_cache.cpp:923-939 | a failed first read leaves the record and counts as success; the store stays consistent exactly if nothing listed was tracked |
| `CacheActions.StillDeletable` | src/memcached_cache.cpp:1109-1126 | deleting one IRS leaves the others deletable |
| `CacheActions.DeleteIrssAction` | src/memcached_cache.cpp:1109-1126 | removes exactly the listed IRSs that were stored from the abstract map; the IRSs keep their keys and track all they did |
| `GeoCache.Perform` | src/memcached_cache.cpp:528-554 | local first, remotes only then, and untouched if the local store fails; the status is the local one; if the IRS fits every store the action achieves its end in all of them, however they differ; each new entry has what the caller wanted and the rest from that store, and nothing is lost that all entries had |
| `GeoCache.FitAchieves` | src/memcached_cache.cpp:1015-1068 | on one store a put, refreshed or not, makes exactly the resolved entry, and a deletion cleans |
| `GeoCache.StillFits` | src/memcached_cache.cpp:541-550 | what other stores' turns do to the IRS does not spoil it for a store it fits later |
| `GeoCache.ServesFirst` | src/memcached_cache.cpp:541-550 | what is put on a later store, with the IRS merged by then, is still what the caller wanted at first |
| `GeoCache.PutOrDelete` | src/memcached_cache.cpp:556-579 | a put serves every store that the IRS fits if the IRS is new, refreshed, or has a field set or an identity added or deleted, and otherwise changes no store; in either case the local entry is the one asked for; a deletion serves every store if the IRS was stored, changes none otherwise, and always succeeds |
| `GeoCache.SkippedIsAchieved` | src/memcached_cache.cpp:556-579 | when a put is skipped, the local entry already is the one asked for |
| `GeoCache.PutImsSubscription` | src/memcached_cache.cpp:1153-1162 | always success; the one IRS of a subscription, if it fits every store, is put in all of them |
| `GeoCache.DeleteImplicitRegistrationSets` | src/memcached_cache.cpp:1098-1107 | the IRSs of an RTR that were stored are removed from the abstract map of the local and every remote store, and nothing else is |
| `Lookup.GetImpuGr` | src/memcached_cache.cpp:280-398 | for every order of completion: a local error or record is the answer; else the first remote record; NOT_FOUND exactly if the local store has none and no remote answers; frees each unchosen record once and adds the longest remote time |
| `Lookup.GeoReadMeaning` | src/memcached_cache.cpp:275-300 | each answer in terms of what the stores answered: a local error, NOT_FOUND if no store has it, or the first record, and there is no other case |
| `Lookup.UnchosenMeaning` | src/memcached_cache.cpp:376-384 | the freed records are exactly those not returned, each once |
| `Lookup.GetMappingGr` | src/memcached_cache.cpp:432-469 | the same answers, from a sequential loop over the remote stores |
| `Lookup.GetIrsForImpu` | src/memcached_cache.cpp:471-526 | computes the lookup; on arbitrary contents the IRS found has the IMPU as default or lists it; one pointer is followed at most |
| `Lookup.LookupOutcome` | src/memcached_cache.cpp:471-526 | when each status comes out: an error of the local store on the first read or the followed one is returned as it is; NOT_FOUND if a record is in no store, or the followed one is no default record listing the IMPU; otherwise that default record |
| `Lookup.LookupInTable` | src/memcached_cache.cpp:280-526 | if the sites answer from one table, wherever its records are, the lookup over all of them is the lookup in that table |
| `Lookup.LookupIsAbstract` | src/memcached_cache.cpp:471-526 | on a consistent table the lookup succeeds exactly for the IMPUs of the abstract map, and finds that entry |
| `Lookup.GetIrssForImpus` | src/base_hss_cache.cpp:30-67 | stops at the first IMPU whose lookup is not NOT_FOUND, so finds at most one IRS, and returns the error if it is one |
| `HandlerPuts.RegistrationReady` | src/http_handlers.cpp:1263-1273 | the IRS of a registration is ready for the store it was read from and for any other that knows none of its IMPUs elsewhere |
| `HandlerPuts.NewReady` | src/http_handlers.cpp:822-858 | so is that of a registration or call found nowhere, for a store without it |
| `HandlerPuts.PushReady` | src/diameter_handlers.cpp:432-470 | so is that of a push, for a store with its record |
| `HandlerPuts.RegistrationMeaning` | src/http_handlers.cpp:879-950 | the IRS a registration puts is registered and has what the HSS sent; its private identity is ADDED exactly if it is a new binding, and no other one changes state |
| `HandlerPuts.RegistrationStored` | src/http_handlers.cpp:1082-1152 | end to end on a store it fits: the entry is registered, has the document, addresses and identities, and lists the new binding, whose mapping has the default IMPU |
| `HandlerPuts.NewStored` | src/http_handlers.cpp:901-974 | end to end for a subscriber found nowhere: the whole new entry, with just the private identity for a registration and none for a call |
| `HandlerPuts.PushStored` | src/diameter_handlers.cpp:432-470 | end to end for a push: the document and addresses that came replace those of the entry, and nothing else in the store's abstract map changes |
| `HandlerPuts.RegistrationFitsAll` | src/memcached_cache.cpp:528-579 | a registration found locally fits all stores, whatever their entries for it |
| `HandlerPuts.NewFitsAll` | src/memcached_cache.cpp:528-579 | a new subscriber fits all stores that lack it |
| `HandlerPuts.PushFitsAll` | src/memcached_cache.cpp:1153-1181 | a push fits all stores if all have the record |
| `MappingRace.StartHonest` | src/memcached_cache.cpp:674-680 | a starting loop holds an edit of what it would replace |
| `MappingRace.StepInv` | src/memcached_cache.cpp:595-728 | every step keeps all loops honest |
| `MappingRace.StepEdits` | src/memcached_cache.cpp:595-728 | each step changes at most one mapping by its own default IMPU, exactly unless it is an uncased delete of others |
| `MappingRace.StepLoses` | src/memcached_cache.cpp:595-628 | a default IMPU leaves a mapping exactly by its own committed removal or by such a delete |
| `MappingRace.RunKeeps` | src/memcached_cache.cpp:595-728 | over every interleaving no mapping gains a duplicate, and what is in a mapping stays until taken |
| `MappingRace.EditNoDup` | include/impu_store.h:201-219 | adding and removing keep a list duplicate-free |
| `MappingRace.LoneLoop` | src/memcached_cache.cpp:595-728 | alone, each loop ends in three accesses and does what the mapping methods do |
| `MappingRace.RacedDeleteLosesAddition` | src/memcached_cache.cpp:614-617 | a concrete run in which a committed addition is lost |
| `MappingRace.EndsUnlessStuck` | src/memcached_cache.cpp:595-728 | after any interleaving, a loop left alone ends within three accesses, or never, and never exactly if it is stuck |
| `MappingRace.ContendedRemovalSpins` | src/memcached_cache.cpp:601-627 | a run of two removals after which one never ends |
| `MappingRace.StaleAdditionSpins` | src/memcached_cache.cpp:712-725 | a run of an addition and a removal after which the addition never ends |
| `RegStateRace.StepKeepsRegistered` | src/memcached_cache.cpp:753-891 | a registered record stays so exactly unless the step deletes it for a deregistration, erases it as a pointer read before, or writes a pointer over it; NOT_REGISTERED is never put |
| `RegStateRace.StepInv` | src/memcached_cache.cpp:738-987 | every access of every request, pointers included, keeps what each request may write |
| `RegStateRace.LookupHonest` | src/http_handlers.cpp:901-974 | what a request prepares to write after its lookup, direct or by a pointer, is REGISTERED, UNREGISTERED for a new call, or the stored state for a push |
| `RegStateRace.LookupFinds` | src/memcached_cache.cpp:471-526 | with nobody else moving, the lookup of a request finds what the records say |
| `RegStateRace.FoundFor` | src/http_handlers.cpp:901-1019 | what each kind of request does with an IRS found, in terms of what the handlers prepare |
| `RegStateRace.NotFoundFor` | src/http_handlers.cpp:822-858 | and with none: registrations and calls that are answered create one |
| `RegStateRace.LoneCreate` | src/memcached_cache.cpp:847-891 | alone, the creation writes what the first step of a put writes |
| `RegStateRace.LoneWrite` | src/memcached_cache.cpp:895-987 | alone, the update takes at most three accesses to do what the retry loop does |
| `RegStateRace.LoneDelete` | src/memcached_cache.cpp:1046-1068 | alone, the deletion does what the retry loop does |
| `RegStateRace.LonePointer` | src/memcached_cache.cpp:738-811 | alone, each pointer access, in any order, brings the records nearer to one and the same end |
| `RegStateRace.PointersAtLast` | src/memcached_cache.cpp:1015-1068 | and that end is the records after the whole put or deletion |
| `RegStateRace.RunKeepsRegistered` | src/memcached_cache.cpp:816-846 | over every interleaving of registrations, calls, pushes and deregistrations no step replaces registered by unregistered, and a registered record stays until taken |
| `RegStateRace.RacedEraseLosesRegistration` | src/memcached_cache.cpp:753-772 | a run of a push and a registration that loses a registered record with no deregistration |
| `RegStateRace.PointerReplacesRegistration` | src/memcached_cache.cpp:791-803 | a registration whose document lists a registered IMPU writes a pointer over its record |
| `RegDataTask.ProtocolCounts` | src/http_handlers.cpp:704-1367 | replies, cache changes and destructions behind each stage of the protocol |
| `RegDataTask.ProtocolCauses` | src/http_handlers.cpp:1180-1328 | every cache change follows directly the answer that calls for it, with the state for that request; every retry follows a different wildcard; every lookup is of the wildcard or, without one, the IMPU; the HSS is asked by the type the request calls for, and the reply has the code of the failure |
| `RegDataTask.ExactlyOneReply` | src/http_handlers.cpp:1021-1059 | a finished run has one reply, one destruction and nothing after it; never two cache changes; none for GET or authentication failure |
| `RegDataTask.RetryMoves` | src/http_handlers.cpp:1206-1237 | in any run a retry asks the cache for the wildcard the HSS named, or Sprout's, or the IMPU; and that is another id than the one looked up before, exactly unless the HSS named none and Sprout's was just used, or a wildcard equals the IMPU |
| `RegDataTask.ImpuRegDataTask.Run` | src/http_handlers.cpp:704-753 | rejects bad methods and bodies at once, else looks up |
| `RegDataTask.ImpuRegDataTask.OnGetRegDataSuccess` | src/http_handlers.cpp:792-820 | processes the cached IRS |
| `RegDataTask.ImpuRegDataTask.OnGetRegDataFailure` | src/http_handlers.cpp:822-858 | a PUT goes on with an empty IRS; otherwise 404 or 504 |
| `RegDataTask.ImpuRegDataTask.ProcessReceivedRegData` | src/http_handlers.cpp:860-1019 | answers from the cache, rejects, or prepares the IRS and asks the HSS, as the request and the cached data demand |
| `RegDataTask.ImpuRegDataTask.HandleRegistration` | src/http_handlers.cpp:901-950 | re-registration, registration or no request at all |
| `RegDataTask.ImpuRegDataTask.HandleCall` | src/http_handlers.cpp:951-974 | only an unknown subscriber is assigned, as unregistered |
| `RegDataTask.ImpuRegDataTask.HandleDeregistration` | src/http_handlers.cpp:975-999 | marks the IRS NOT_REGISTERED and asks the HSS; a subscriber who is not registered is rejected |
| `RegDataTask.ImpuRegDataTask.Judge` | src/http_handlers.cpp:1180-1255 | the reply code of a failure; a new wildcard restarts the lookup, the same one is an error |
| `RegDataTask.ImpuRegDataTask.OnSarResponse` | src/http_handlers.cpp:1180-1313 | the cache operation or reply that each answer leads to |
| `RegDataTask.ImpuRegDataTask.PutInCache` | src/http_handlers.cpp:1082-1152 | puts the IRS, or replies inline if the document names nobody |
| `RegDataTask.ImpuRegDataTask.SendReply` | src/http_handlers.cpp:1021-1059 | replies with the saved failure or the outcome of rendering |
| `RegDataTask.ImpuRegDataTask.OnProgress` | src/http_handlers.cpp:1154-1160 | replies while the cache goes on |
| `RegDataTask.ImpuRegDataTask.OnSuccess` | src/http_handlers.cpp:1162-1166 | only tidies up |
| `RegDataTask.ImpuRegDataTask.OnPutFailure` | src/http_handlers.cpp:1168-1178 | replies 503 |
| `RegDataTask.ImpuRegDataTask.OnDelFailure` | src/http_handlers.cpp:1348-1367 | not found is benign; otherwise the original error or 503 |
| `RegDataTask.ImpuRegDataTask.Drive` | src/http_handlers.cpp:704-1367 | against any sequence of answers the protocol is kept, and a finished run has replied once |
| `HssRequests.RegistrationTerminationTask.Run` | src/diameter_handlers.cpp:59-147 | for each reason, which identities an RTR looks up sets by, or its rejection |
| `HssRequests.RegistrationTerminationTask.GetRegistrationSetsSuccess` | src/diameter_handlers.cpp:149-263 | tells Sprout, answers with its verdict, and deletes all sets whatever that was |
| `HssRequests.RegistrationTerminationTask.TellSprout` | src/diameter_handlers.cpp:183-212 | what Sprout is told for each reason |
| `HssRequests.RegistrationTerminationTask.Drive` | src/diameter_handlers.cpp:59-295 | one answer and one destruction in every run; found sets are always deleted, nothing else ever is |
| `HssRequests.BaseImsSubscription.constructor` | include/base_ims_subscription.h:23-30 | keyed by default IMPU; the last set with one stays |
| `HssRequests.BaseImsSubscription.SetChargingAddrs` | include/base_ims_subscription.h:42-48 | every set gets the addresses and changes in nothing else |
| `HssRequests.PushProfileTask.Run` | src/diameter_handlers.cpp:321-361 | an empty push succeeds at once, any other looks the subscription up |
| `HssRequests.PushProfileTask.PushDocument` | src/diameter_handlers.cpp:375-447 | the document goes to the set with its default identity; an unknown default or Sprout's refusal ends the run |
| `HssRequests.PushProfileTask.OnGetImsSubSuccess` | src/diameter_handlers.cpp:363-488 | saved exactly if accepted, with the exact new sets; no set changes its default IMPU |
| `HssRequests.PushProfileTask.TouchesAll` | src/diameter_handlers.cpp:474-487 | every set saved was touched by the push, exactly unless there is another than the document's and no charging addresses came; with one set, always |
| `HssRequests.PushProfileTask.PushedMeaning` | src/diameter_handlers.cpp:405-487 | only the set the document is for gets it, every set gets the addresses if any came, and no other field changes but the associated IMPUs with the document |
| `HssRequests.PushProfileTask.OnSaved` | src/diameter_handlers.cpp:499-520 | success or failure is answered once |
| `HssRequests.PushProfileTask.Drive` | src/diameter_handlers.cpp:321-520 | one answer and one destruction in every run; saved if and only if accepted; default IMPUs fixed |
| `Ttl.ServeCurrent` | src/http_handlers.cpp:1082-1152 | the record is current again exactly if the HSS was not asked or answered for this default IMPU, but for one answer at the same time |
| `Ttl.ServeOnTime` | src/http_handlers.cpp:909-939 | one more registration in time finds the record, computes the true age and asks exactly when it must |
| `Ttl.PutCurrent` | src/memcached_cache.cpp:1015-1044 | what the put leaves under the IMPU registered: a new record, the one found, or a pointer |
| `Ttl.RunOnTime` | src/main.cpp:949-953 | over every regular run, the HSS answering for the same default IMPU, no registration but the first meets an expired record |
| `Framing.EncodeVarbyte` | src/impu_store.cpp:59-78 | appends the groups of the number |
| `Framing.EncodedMeaning` | src/impu_store.cpp:59-78 | the groups of seven bits of the number, lowest first, none empty at the end, with the top bit in all but the last |
| `Framing.DecodeVarbyte` | src/impu_store.cpp:80-117 | the loop computes the decoder on any data |
| `Framing.VarbyteRoundTrip` | src/impu_store.cpp:59-117 | any length in (0, INT_MAX) is recovered between any prefix and suffix, with the offset just behind it, and no shift leaves a 32-bit int |
| `Framing.UndefinedShiftExactly` | src/impu_store.cpp:86-95 | exactly which data make the decoder shift by more than 31 |
| `Framing.FrameRoundTrip` | src/impu_store.cpp:124-150 | the frame gives back length and payload |
| `Framing.SizeBits` | src/impu_store.cpp:380-386 | the loop counts the halvings |
| `Framing.EncodedLength` | src/impu_store.cpp:59-78 | how many bytes a length takes |
| `Framing.ReservedLength` | src/impu_store.cpp:388-393 | the reservation is exact, or one short exactly for multiples of seven |
| `Framing.Compress` | src/impu_store.cpp:286-329 | at most 7 attempts, buffer 2048*2^k up to the maximum, succeeds exactly if the output fits, with the least buffer |

## Left out

- Identity lists in records are sets, not vectors: they are written from ordered maps and only tested or iterated. Order is not captured; loops over them are proved for every order.
- An IRS owned by the registration handler is a value there, not a shared object.
- CacheActions.PutIrsAction: stated for a quiet store. Its default-record loop is stated for every schedule of turns (`ImpuAction`, `NoLostUpdate`), and its mapping loops under concurrency are `MappingRace`.
- CacheActions.DeleteIrsAction: its second and third step are stated for a quiet store, as for a put.
- CacheActions.DeleteIrssAction: stated for a quiet store, as for one deletion.
- IrsUpdate.UpdateIrsImpiMappings: stated for a quiet store, because on a store with turns the removal loop need not end (`MappingRace.ContendedRemovalSpins`).
- IrsUpdate.RemoveFromMapping: stated for a quiet store, for the same reason.
- IrsUpdate.AddToMapping: stated for a quiet store, because otherwise it need not end (`MappingRace.StaleAdditionSpins`).
- IrsUpdate.RefreshMapping: stated for a quiet store; `MappingRace` has it under concurrency.
- IrsUpdate.UpdateIrsAssociatedImpus: stated for a quiet store; pointers are written and deleted without a CAS, so a raced update can leave either writer's pointer.
- IrsUpdate.RemovePointer: stated for a quiet store, for the same reason.
- GeoCache.PutOrDelete: stated for quiet stores, as for one store.
- GeoCache.DeleteImplicitRegistrationSets: stated for quiet stores, as for one store.
- RegDataTask.ImpuRegDataTask.SendReply: the body of the reply, with the previous registration state, is not modelled; its code is.
- Mappings, remote stores and requests answered from the cache in `RegStateRace`: its requests work on one store, and end with their pointers.
- Retry with a record that never decodes: a failed read is a fault of a turn, so each schedule has finitely many. A record that never decodes makes the loop spin.
- A write that fails is taken not to have happened; a record that does not compress counts as a failed write.
- Expiry: a record's expiry is a foreign turn in the default-record loop and a lookup condition in `Ttl`; it does not occur in `MappingRace` and `RegStateRace`. Expiries are not part of the abstract map.
- The clock is read once per cache action; TTLs are unbounded integers instead of 32-bit ones.
- GeoCache.Perform: stated for quiet stores. A store that an IRS does not fit is left open; `CacheActions.UnrefreshedPutDangles` and `Consistency.PutRefines` say what happens there.
- GeoCache.PutImsSubscription: stated for quiet stores, and its effect for subscriptions of at most one IRS, since no lookup finds more.
- CacheActions.PutImsSubAction: stated for a quiet store, as for one put.
- Cleanup when a REGISTERED create overwrites a different record, which the code disclaims.
- Reading the IMPUs of several IMPIs, before the IRSs of those are looked up.
- JSON, LZ4 and XML parsing; a document is a tree, a compressor a parameter, rendering a reply a parameter.
- HSS transports, HTTP, Sprout, thread pools, logging, statistics; the other HTTP handlers.
