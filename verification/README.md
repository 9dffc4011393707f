# go-acme-store, modelled in Dafny

go-acme-store keeps TLS certificates for a list of managed domains. A server adds and removes domains,
orders certificates from an ACME authority when they come within 21 days of expiry, and stores them in a
keystore (filesystem, Vault or memory). A second program, the fetcher, copies the server's certificates
to disk and writes a Traefik configuration for them. This project models both and proves what they keep:

| file | models |
|---|---|
| Certificates.dfy | PEM texts, the leaf and the issuers in a chain, the renewal deadline |
| Keystore.dfy | records, and what each keystore operation does to them, as specification functions |
| Filesystem.dfy, Vault.dfy, Memory.dfy | the three keystores, as classes updated in place, proved against the specification |
| Renewal.dfy | renewing one certificate and the worker's pass over all of them |
| Handlers.dfy, Backup.dfy, ImportExport.dfy | the HTTP handlers, export and import, and what they restore |
| Operations.dfy, Lifecycle.dfy, RateBound.dfy | sequential runs of handlers and passes, what they keep, how often a domain can be issued |
| Refinement.dfy | the filesystem keystore behaves as the memory keystore does |
| Interleaving.dfy, ManagedLists.dfy, StaleLists.dfy, Races.dfy, WriteBacks.dfy, Witnesses.dfy, Completion.dfy, ConcurrentRate.dfy, AloneRuns.dfy | the same operations as threads interleaved at every keystore access |
| Daemon.dfy | the daemon's select loop, the one-slot trigger channel, the mutex |
| Fetcher.dfy, Reconciliation.dfy | the fetcher, and what it converges to |
| Serving.dfy | both programs together: what the fetcher gets from a server with a given keystore |
| FileNames.dfy | domain names to file names |
| JsEscape.dfy, AttributeText.dfy | escaping text for a JavaScript literal, and for one inside an HTML attribute |

How the code is rendered:

- File accesses, calls to Vault and calls to the API either succeed or fail. Whether they do is a parameter of
  every operation (the `...Io` values, true meaning failure), so the error paths are the code's. A theorem that
  needs them to succeed says so.
- The ACME authority is a parameter too: each attempt carries the answer it would give. Where a theorem needs it, a
  granted leaf has a common name or a DNS name. The clock is an integer number of seconds that each attempt carries.
- `verifyKeyPairMatch` is a predicate `pairs(chain, key)`; the only fact used about it is that nothing pairs with
  the empty text. Parsing a PEM block as X.509 is part of the block. JSON storage is faithful.
- The functions are specifications. Each class method equates its result and new state with one, lemmas named
  `...Exactly` say what each one means field by field and code by code, and the theorems are about them over whole runs.
- The sequential and the interleaved model are tied together: a thread that starts with the lock free and moves while
  the others stand still is not blocked and does exactly what the sequential specification says (`AloneRuns`).

Where the code and its documentation disagree, the model follows the code:

- API.md says that removing an unknown domain answers 404. A hard removal answers 200 whether or not the domain is
  listed (`Handlers.CodesTellOutcome`).
- API.md says that deleting the certificate of an unknown domain answers 404. A missing record reads as an
  unmanaged one, so the answer is 200 (`Handlers.CodesTellOutcome`).
- API.md says that adding a domain triggers issuance. The handler sends no trigger; the next tick or trigger does.

What turned out not to hold in general, with the exact condition or a run that shows it:

- A trigger is lost when the read of the managed list that would serve it fails, and in no other case
  (`Daemon.TriggersAreKeptExactly`, `Daemon.FailedReadDropsTrigger`).
- A trigger called while a keystore that opened with an error is still in place is let through and lost
  (`Daemon.HalfOpenedDropsTrigger`).
- A handler whose file accesses fail half way can leave flags and list disagreeing; which failures do is exact
  (`Lifecycle.RunsAreCoherentExactly`). No failure in the worker does.
- A worker that cannot read the leaf of a certificate that is not due marks it failed, and the fetcher skips it. Nothing
  else makes a status wrong (`Lifecycle.RunsAreSoundExactly`, `Serving.MisreadStopsFetching`).
- There is no bound on how often the authority grants when a granted certificate cannot be stored: the next pass orders
  again (`RateBound.NextGrantExactly`, `RateBound.FailedStoreGrantsAgain`).
- Adding a domain replaces an issued certificate by a placeholder when its record cannot be read
  (`Keystore.AddKeepsPayload`), or when the certificate is stored between the addition's read and its write
  (`Witnesses.AdditionLosesIssuance`).
- A soft removal that reads a record before the worker stores a new certificate, and writes it after, loses that
  certificate (`Witnesses.SoftRemovalLosesIssuance`). Each write-back leaves exactly what its own read brought
  (`WriteBacks.WriteBackExactly`), so it loses a change exactly if there was one in between.
- A worker that took its snapshot before a removal leaves a managed record for an unlisted domain
  (`Witnesses.WorkerOutlivesRemoval`).
- Over Vault, an addition that cannot read the list succeeds and leaves its domain as the only one listed
  (`AloneRuns.UnreadListLosesDomains`), so an import can end with fewer domains than it counts (`Backup.StatisticsAddUp`).
- Over Vault, two concurrent additions can both succeed and one be lost (`Witnesses.VaultLosesAddition`). Which domains
  are listed after a run is exact (`StaleLists.ListedExactly`).
- Export followed by import restores a keystore exactly when it is restorable (`ImportExport.ExportImportRestores`).
- The filesystem and the memory keystore answer differently about a placeholder that only the filesystem has:
  deleting its certificate is refused and accepted, its private key is an empty text and not found, and it is shown
  and exported by one only. Among the handlers modelled, and as long as imported records and domains have names,
  these are the only differences (`Refinement.AnswersAgree`, `Refinement.ShownAgree`). Adding the domain of a nameless
  record replaces it on the filesystem only (`Refinement.NamelessImportDiffers`).
- A second fetch rests exactly when the keys fit (`Reconciliation.SecondFetchRests`). Domains that share a file name
  never come to rest (`Reconciliation.CollidingDomainsNeverRest`).
- A domain that was removed stays in the Traefik file until something else is saved
  (`Reconciliation.DroppedDomainStaysListed`, `Serving.RemovedDomainStaysListed`).
- A listed domain whose name no record carries as its common name makes every fetch fail
  (`Serving.UncarriedNameFails`).
- Inside an HTML attribute whose value decoding leaves alone, as it does without ampersands, escaped text reads back
  exactly when it has no double quote (`AttributeText.ReadsBackExactly`).

## Model

| member | source | states |
|---|---|---|
| Certificates.GetCerts | pkg/crypto/certificates.go:10-29 | the loop that decodes block after block collects every parsable certificate of the text, in order |
| Certificates.GetLeafCert | pkg/crypto/certificates.go:33-40 | the first certificate that is not an authority's, or none |
| Certificates.GetIssuersCN | pkg/crypto/certificates.go:65-72 | the names of all authorities' certificates, in order |
| Certificates.PieceInText | pkg/crypto/certificates.go:15-27 | a piece of text contributes a certificate exactly if it is a certificate block that parses, in its place |
| Certificates.CertInChain | pkg/crypto/certificates.go:65-72 | a certificate contributes an issuer's name exactly if it is an authority's, in its place |
| Certificates.CheckIfCertNeedsUpdate | pkg/crypto/certificates.go:44-54 | true for a text without a leaf, else exactly when 21 days from now lie after its expiry |
| Certificates.DueInSeconds | pkg/crypto/certificates.go:46-53 | due exactly when 1814400 seconds from now lie after the expiry; a text without a leaf always is |
| Certificates.LeafRoundTrip | pkg/crypto/certificates.go:75-78 | encoding a leaf and looking for the leaf in the text gives it back |
| Certificates.NeedsUpdateMonotone | pkg/crypto/certificates.go:44-54 | a certificate that is due stays due as time passes |
| Keystore.NewCertAndKey | pkg/keystore/keystore.go:45-78 | assigning the fields one by one builds the issued record, or fails without a leaf |
| Keystore.IssuedRecordDescribesLeaf | pkg/keystore/keystore.go:45-78 | wherever the leaf stands in the chain, the record carries its text, dates and names, and the authorities' names around it |
| Keystore.IssuedRecordDeadline | pkg/keystore/keystore.go:52-62 | the renewal check on the stored leaf text reads the date of the very leaf that was issued |
| Keystore.LeaflessChainIsRefused | pkg/keystore/keystore.go:47-50 | no record exactly when the chain holds authorities' certificates only |
| Keystore.SamePayload | pkg/keystore/keystore.go:29-43 | two records hold the same issuance exactly if nine fields agree, leaving the managed mark, status and error |
| Keystore.AddKeepsPayload | pkg/keystore/filesystem.go:322-359 | adding a domain keeps what was issued for it exactly when the record has a name and could be read, or nothing could be written |
| Keystore.AddFilesystemExactly | pkg/keystore/filesystem.go:287-362 | when an addition succeeds, whichever accesses fail; the entry with the requested names comes last; the record keeps all but the managed mark, or is a pending one with that name and those names and nothing issued; nothing else changes |
| Keystore.AddVaultExactly | pkg/keystore/vault.go:249-322 | the same over Vault, where a list that cannot be read is replaced |
| Keystore.AddMemoryExactly | pkg/keystore/memory.go:87-107 | the same in memory: no names, no placeholder |
| Keystore.RemoveExactly | pkg/keystore/filesystem.go:365-396 | removing takes out that entry, keeps the others in order with their names, and touches no record |
| FilesystemKeystores.FilesystemKeystore.GetCertAndKey | pkg/keystore/filesystem.go:160-178 | reads the domain's record, an empty one if it has no file; takes and frees the lock |
| FilesystemKeystores.FilesystemKeystore.GetLeafCert | pkg/keystore/filesystem.go:181-187 | reads the record's leaf |
| FilesystemKeystores.FilesystemKeystore.StoreCertAndKey | pkg/keystore/filesystem.go:190-206 | replaces this domain's record and no other, or nothing on failure |
| FilesystemKeystores.FilesystemKeystore.DeleteCertAndKey | pkg/keystore/filesystem.go:209-220 | drops this domain's record and no other; a missing file is no error |
| FilesystemKeystores.FilesystemKeystore.GetAllDomains | pkg/keystore/filesystem.go:131-157 | whatever else lies in the directory, sub-directories included, exactly the domains with a record, each once: file names invert to domains; an unreadable directory is an error, a missing one is empty |
| FilesystemKeystores.FilesystemKeystore.LoadManagedDomains | pkg/keystore/filesystem.go:229-248 | the stored list, empty when there is no file |
| FilesystemKeystores.FilesystemKeystore.StoreManagedDomains | pkg/keystore/filesystem.go:251-262 | replaces the list and leaves the records alone |
| FilesystemKeystores.FilesystemKeystore.GetManagedDomains | pkg/keystore/filesystem.go:265-279 | the names of the list, in order |
| FilesystemKeystores.FilesystemKeystore.AddManagedDomainWithSANs | pkg/keystore/filesystem.go:287-362 | the three critical sections amount to the specified addition, on every error path; no path acquires a lock it holds and every path frees it |
| FilesystemKeystores.FilesystemKeystore.RemoveManagedDomain | pkg/keystore/filesystem.go:365-396 | filters the name out of the list, or reports that it was not there |
| FilesystemKeystores.FilesystemKeystore.IsManagedDomain | pkg/keystore/filesystem.go:399-415 | whether the name is listed |
| VaultKeystores.VaultKeystore.GetCertAndKey | pkg/keystore/vault.go:167-170 | the record, or an empty one for a missing secret |
| VaultKeystores.VaultKeystore.StoreCertAndKey | pkg/keystore/vault.go:181-191 | replaces this record and no other, or nothing on failure |
| VaultKeystores.VaultKeystore.DeleteCertAndKey | pkg/keystore/vault.go:193-200 | drops this record and no other |
| VaultKeystores.VaultKeystore.GetManagedDomains | pkg/keystore/vault.go:209-226 | the names of the list, in order |
| VaultKeystores.VaultKeystore.GetManagedDomainWithSANs | pkg/keystore/vault.go:228-243 | the first entry of that name, or an error |
| VaultKeystores.VaultKeystore.AddManagedDomainWithSANs | pkg/keystore/vault.go:249-322 | the specified addition, on every error path |
| VaultKeystores.VaultKeystore.RemoveManagedDomain | pkg/keystore/vault.go:324-365 | filters the name out, or reports that it was not there |
| VaultKeystores.VaultKeystore.IsManagedDomain | pkg/keystore/vault.go:367-380 | whether the name is listed |
| MemoryKeystores.MemoryKeystore.GetCertAndKey | pkg/keystore/memory.go:40-47 | the record, or an empty one |
| MemoryKeystores.MemoryKeystore.GetLeafCert | pkg/keystore/memory.go:49-56 | the record's leaf, or an empty text |
| MemoryKeystores.MemoryKeystore.StoreCertAndKey | pkg/keystore/memory.go:58-63 | replaces this record and no other |
| MemoryKeystores.MemoryKeystore.DeleteCertAndKey | pkg/keystore/memory.go:65-70 | drops this record and no other |
| MemoryKeystores.MemoryKeystore.AddManagedDomainWithSANs | pkg/keystore/memory.go:87-107 | appends a new name and flips an existing unmanaged record; no placeholder |
| MemoryKeystores.MemoryKeystore.RemoveManagedDomain | pkg/keystore/memory.go:109-130 | filters the name out, or reports that it was not there |
| MemoryKeystores.MemoryKeystore.IsManagedDomain | pkg/keystore/memory.go:132-143 | whether the name is listed |
| Renewal.RenewCertIfNeeded | pkg/acme/acme.go:59-169 | keeps a certificate that is not due, else stores the authority's answer or marks the record failed, with the error the code reports |
| Renewal.DoAcmeOrders | cmd/acme-store/worker.go:59-113 | the loop visits every domain of the snapshot once, in order, skipping unmanaged ones and marking failures |
| Renewal.VisitExactly | pkg/acme/acme.go:59-169 | one visit in full for every combination of failures, with the text each failure leaves in the record |
| Handlers.AddDomain | cmd/acme-store/httpserver.go:261-304 | state and status code of the add handler, also without a keystore and for an unparsable body |
| Handlers.RemoveDomain | cmd/acme-store/httpserver.go:306-373 | state and status code of soft and hard removal, on every error path |
| Handlers.DeleteCert | cmd/acme-store/httpserver.go:430-474 | state and status code of certificate deletion |
| Handlers.CodesTellOutcome | cmd/acme-store/httpserver.go:286-474 | which codes the three handlers answer in which states, and that anything but success leaves the keystore alone |
| Handlers.AddExactly | cmd/acme-store/httpserver.go:280-303 | 201 exactly for a named, unlisted domain whose list can be read and written; else 400 and nothing changes |
| Handlers.SoftRemovalExactly | cmd/acme-store/httpserver.go:316-373 | code and state for every combination of failures; the record loses its managed mark and nothing else |
| Handlers.HardRemovalExactly | cmd/acme-store/httpserver.go:316-346 | code and state for every combination of failures |
| Handlers.DeletionExactly | cmd/acme-store/httpserver.go:439-473 | code and state for every combination of failures |
| Handlers.RemovalRepairs | cmd/acme-store/httpserver.go:322-365 | from any prior state, a removal that answers 200 leaves its domain unlisted with no managed record, with exactly the listed exceptions |
| Handlers.GetCerts | cmd/acme-store/httpserver.go:166-223 | shows the readable named records in directory order, changing nothing |
| Handlers.ShownFields | cmd/acme-store/httpserver.go:190-214 | what is shown of which records, field by field, with the default status |
| Handlers.ShownInOrder | cmd/acme-store/httpserver.go:182-215 | certificates are shown in the order of the directory |
| Handlers.GetPrivateKey | cmd/acme-store/httpserver.go:392-428 | the key of a named record, and a code for every other case |
| Handlers.PrivateKeyExactly | cmd/acme-store/httpserver.go:401-427 | the code of every case, and the key of a named record |
| Backup.ExportKeystore | cmd/acme-store/httpserver.go:506-578 | the export holds every readable record and the ordered names; each error has its code |
| Backup.ExportedExactly | cmd/acme-store/httpserver.go:540-573 | version 1.0, the names in order, and every readable record |
| Backup.ExportedFields | cmd/acme-store/httpserver.go:559-572 | the twelve fields of a record, one by one |
| Backup.ImportCerts | cmd/acme-store/httpserver.go:613-635 | whatever order the map yields, the writable certificates replace the records they name, and the two counts are exact |
| Backup.ImportOneDomain | cmd/acme-store/httpserver.go:640-666 | a listed name is left alone, any other is added with its certificate's SANs |
| Backup.ImportKeystore | cmd/acme-store/httpserver.go:580-683 | state, code and exact statistics of the import, a repeated name failing and succeeding as its accesses do |
| Backup.OtherVersionsAreRefused | cmd/acme-store/httpserver.go:598-602 | only version 1.0 is imported |
| Backup.OverlaidExactly | cmd/acme-store/httpserver.go:613-635 | each certificate that can be written becomes its domain's record, field by field, and no other record changes |
| Backup.ImportedDomainExactly | cmd/acme-store/httpserver.go:638-667 | a listed domain counts as neither imported nor failed; any other is added with its certificate's names and counts as one of them |
| Backup.StatisticExactly | cmd/acme-store/httpserver.go:605-681 | each statistic is the number of certificates or positions that came to that outcome |
| Backup.SmoothImportNeverFails | cmd/acme-store/httpserver.go:605-681 | without failed accesses every certificate is imported and nothing fails |
| Backup.StatisticsAddUp | cmd/acme-store/httpserver.go:605-682 | imported and failed certificates add up to all of them, the domains imported are the growth of the list unless Vault replaced it unread, and the rest failed or were listed |
| ImportExport.ImportExact | cmd/acme-store/httpserver.go:605-667 | the one result of an import: first occurrences of new names appended, records overlaid, only newly listed domains flipped or given a placeholder |
| ImportExport.ExportRoundTrip | cmd/acme-store/httpserver.go:559-627 | all twelve fields survive export and import |
| ImportExport.ExportImportRestores | cmd/acme-store/httpserver.go:552-667 | export then import into an empty keystore restores records and ordered names exactly when no name is listed twice and every listed domain has a record that adding it leaves alone |
| ImportExport.EmptyNameIsRestorable | cmd/acme-store/httpserver.go:638-666 | an import lists the empty name, and the result is restorable |
| Lifecycle.RunsAreCoherentExactly | cmd/acme-store/httpserver.go:286-365 | over every import-free run from an empty keystore, with any accesses failing, a record is managed exactly when its domain is listed, names are distinct, and on the filesystem and Vault each has a record, at every point exactly if no handler's failed access broke it |
| Lifecycle.RunsAreCoherent | cmd/acme-store/httpserver.go:322-365 | so it holds after every run whose handlers meet no failed access, whatever fails in the worker |
| Lifecycle.WorkerNeverSkips | cmd/acme-store/worker.go:79-85 | then the worker never takes its branch for unmanaged certificates, whichever of its accesses fail |
| Lifecycle.PassIsPointwise | cmd/acme-store/worker.go:79-112 | a pass does to each domain what one visit from the starting store would, and nothing to the others |
| Lifecycle.VisitOutcome | pkg/acme/acme.go:66-166 | a visit leaves the record untouched, freshly issued, or marked failed with everything issued intact and the reported error |
| Lifecycle.VisitCases | pkg/acme/acme.go:59-169 | whatever fails, a visit leaves the store alone, or stores what was granted, or marks a named record failed and leaves the rest of it |
| Lifecycle.RunsAreSoundExactly | cmd/acme-store/worker.go:96-110 | in every import-free run with a forward clock and any accesses failing, status failed or pending means at every moment that the stored certificate is due, exactly if no leaf that is not due is misread |
| Lifecycle.MisreadMarksFailed | pkg/acme/acme.go:61-64 | such a misread marks a certificate in good order failed |
| Lifecycle.RunsAreStatusSound | pkg/acme/acme.go:66-152 | so after every such run in which leaves can be read, now and later |
| Lifecycle.DueIsRetried | cmd/acme-store/worker.go:79-112 | the next pass, when it comes to such a listed domain, places an order unless the setup fails, and leaves what was granted or the failure with its reason |
| Lifecycle.OnlyIssuanceSettles | pkg/acme/acme.go:154-166 | whatever fails, nothing but a granted and stored certificate takes a record out of failed or pending |
| Lifecycle.PassSettlesAll | cmd/acme-store/worker.go:68-112 | after a pass no listed domain whose visit met no failed access is pending: each is good as it was, fresh, or failed with its certificate intact; other records are unchanged |
| RateBound.GrantsAreSpaced | pkg/acme/acme.go:61-70 | with leaves valid for V that can be stored, two grants for a domain are more than V minus 21 days apart, over any schedule, whichever other accesses fail, and any operations that keep its record |
| RateBound.GrantsInWindow | pkg/crypto/certificates.go:44-54 | n grants in a window W satisfy (n - 1) * (V - 21 days) < W |
| RateBound.NextGrantExactly | pkg/acme/acme.go:154-166 | after a grant the next order is granted again exactly if the certificate was not stored, has no leaf, or has come within 21 days of expiry |
| RateBound.FailedStoreGrantsAgain | pkg/acme/acme.go:163-166 | a run with a failed store in which a domain is granted twice at the same time |
| RateBound.HarmlessRunsKeep | pkg/keystore/filesystem.go:320-359 | which handlers, with which failed accesses, keep what is stored for a domain |
| Refinement.FilesystemRefinesMemory | pkg/keystore/filesystem.go:265-415 | over every run, imports of named records and domains included, the filesystem and memory keystores list the same names in order and hold the same certificates, placeholders apart |
| Refinement.AnswersAgree | pkg/keystore/memory.go:40-143 | along a run every answer is the same on both, import statistics included, except exactly the deletion of a managed placeholder's certificate; the reading handlers differ exactly about placeholders only one has |
| Refinement.PrivateKeysAgree | cmd/acme-store/httpserver.go:392-428 | the same key and code, except exactly for such a placeholder: an empty key and not found |
| Refinement.ShownAgree | cmd/acme-store/httpserver.go:180-215 | the same certificates are shown and exported, except exactly such placeholders |
| Refinement.AnswersDiffer | cmd/acme-store/httpserver.go:392-474 | the exceptions occur |
| Refinement.NamelessImportDiffers | pkg/keystore/filesystem.go:340-359 | for every nameless imported record the filesystem ends with a placeholder and the memory keystore with the record |
| Refinement.AgreeOnLeaves | pkg/keystore/memory.go:49-56 | agreeing keystores serve the same leaf and key for every domain |
| Interleaving.RecordsStayWhole | pkg/keystore/filesystem.go:287-362 | in every interleaving with every failure pattern, a stored record is keyless or carries all of exactly one issuance or import for its domain |
| Races.EveryRecordHasOneSource | pkg/acme/acme.go:136-166 | every stored record is keyless, or from the start, or brought by a move of the run for its domain |
| Races.IssuedChangesOnlyBy | cmd/acme-store/httpserver.go:355-365 | what was issued changes only by a store, import or deletion, by an addition whose read failed or whose record has no name, or by a write-back whose record was written since it was read |
| Races.UndisturbedWriteKeeps | pkg/keystore/filesystem.go:320-359 | an addition, soft removal or failure mark keeps what was issued for a named record if its read succeeded and nothing wrote the record since |
| WriteBacks.WriteBackExactly | pkg/keystore/filesystem.go:320-359 | in every interleaving a write-back leaves exactly what its own read brought, a placeholder for an addition whose read failed or found no name |
| WriteBacks.RemovalOrMarkLosesExactly | cmd/acme-store/httpserver.go:355-365 | a soft removal or failure mark changes what was issued exactly if that changed between its read and its write |
| WriteBacks.AdditionLosesExactly | pkg/keystore/filesystem.go:322-354 | an addition exactly then, or if it brings a placeholder and anything else is stored |
| ConcurrentRate.GrantsAreSpacedConcurrently | cmd/acme-store/worker.go:59-112 | in every interleaving with one worker at a time, a certificate that is stored and not disturbed is found due again only after its validity minus 21 days |
| ManagedLists.ListIsLinearizable | pkg/keystore/filesystem.go:287-312 | with the lock, the list is the sequential effect of the committed operations, and each was answered as the sequential keystore would |
| ManagedLists.NoAdditionIsLost | pkg/keystore/filesystem.go:291-312 | the domain of every finished addition is listed unless it was removed since |
| ManagedLists.LockedRunsProgress | pkg/keystore/filesystem.go:287-362 | no deadlock: in every reachable state some unfinished thread can move |
| Completion.FinishesWithin | pkg/keystore/filesystem.go:287-362 | whatever the others do, a thread has finished after a bounded number of its own steps, seven for each domain of a worker's snapshot |
| StaleLists.ListIsExact | pkg/keystore/vault.go:249-286 | in every interleaving the list is what its events make of the lists they were computed from, the empty one for a failed read |
| StaleLists.ListedExactly | pkg/keystore/vault.go:255-359 | a domain is listed exactly if, going back from each commit to the read it was computed from, its addition comes before its removal and before a failed read |
| StaleLists.LostOnlyToStaleLists | pkg/keystore/vault.go:249-286 | so a successful addition is lost only to a removal, or to a commit of a list read before it or not at all |
| ManagedLists.ListStaysDistinct | pkg/keystore/vault.go:255-283 | with or without a lock, even when a failed read counts as an empty list, no list ever holds a domain twice |
| Witnesses.SoftRemovalLosesIssuance | cmd/acme-store/httpserver.go:355-365 | for every due record and every certificate the authority may grant there is a run that stores it and loses it |
| Witnesses.AdditionLosesIssuance | pkg/keystore/filesystem.go:322-354 | for every new domain and every certificate the authority may grant there is a run that stores it and puts a placeholder in its place |
| Witnesses.WorkerOutlivesRemoval | cmd/acme-store/worker.go:68-96 | a run that leaves a managed record for a domain no longer listed |
| Witnesses.VaultLosesAddition | pkg/keystore/vault.go:249-286 | a run of two additions over Vault in which both succeed and one is lost |
| AloneRuns.LeadsIsARun | pkg/keystore/filesystem.go:287-362 | moving alone is a run of the interleaved model that starts the operation and moves only its thread |
| AloneRuns.OperationsStart | cmd/acme-store/httpserver.go:257-416 | each of the five operations can start at any time, in any state, as a thread of its own |
| AloneRuns.HeldLockBlocks | pkg/keystore/filesystem.go:288-289 | an operation that starts while a thread standing still holds the lock never moves |
| AloneRuns.AddAlone | pkg/keystore/filesystem.go:287-362 | with the lock free at the start, or none as over Vault, the addition's steps, moving alone, are not blocked and are the sequential addition, for every combination of failures |
| AloneRuns.UnreadListIsReplaced | pkg/keystore/vault.go:255-286 | over Vault, whatever was listed, an addition that cannot read the list and can write it leaves its domain alone on it |
| AloneRuns.UnreadListLosesDomains | pkg/keystore/vault.go:255-286 | so from any keystore there is a run that loses every other listed domain |
| AloneRuns.RemoveAlone | cmd/acme-store/httpserver.go:322-365 | the removal's steps, moving alone, are the sequential removal, with a lock or without |
| AloneRuns.DeleteAlone | cmd/acme-store/httpserver.go:445-467 | the deletion's steps, moving alone, are the sequential deletion |
| AloneRuns.ImportAlone | cmd/acme-store/httpserver.go:629-634 | the import's write of a certificate, moving alone, is the sequential one |
| AloneRuns.WorkAlone | cmd/acme-store/worker.go:68-112 | the worker's steps over its whole snapshot, moving alone, are one sequential pass, for every combination of failures |
| Daemon.TriggersAreKeptExactly | cmd/acme-store/worker.go:29-72 | in every run each trigger, a dropped one included, was followed by a snapshot of the managed list or has one to come, at every moment, exactly if no read that would have served one failed |
| Daemon.FailedReadDropsTrigger | cmd/acme-store/worker.go:68-72 | a run in which the failed read takes the trigger with it, with the keystore connected throughout |
| Daemon.NoTriggerIsLost | cmd/acme-store/worker.go:29-62 | when the list can be read and triggers are called with the keystore connected for good, no trigger is lost |
| Daemon.AttemptWithinDistance | cmd/acme-store/worker.go:36-46 | the next attempt to read the list comes within a bounded number of the daemon's steps, whatever else happens |
| Daemon.SnapshotWithinDistance | cmd/acme-store/worker.go:36-72 | with the keystore connected and its list readable, that attempt is a snapshot |
| Daemon.InHandIsNotStuck | cmd/acme-store/worker.go:36-61 | while a read is still to come or a tick waits the daemon can move, or waits for a reconnection that can |
| Daemon.TicksWait | cmd/acme-store/worker.go:33-40 | in its loop the daemon can take a tick exactly if the ticker fired since the last one taken |
| Daemon.NoMoreRunsThanTicks | cmd/acme-store/worker.go:33-40 | there are never more runs on ticks than ticks |
| Daemon.OneFurtherTickRun | cmd/acme-store/worker.go:33-40 | any number of ticks during one run cause exactly one further run |
| Daemon.RunsAreCounted | cmd/acme-store/worker.go:29-47 | the reads of the list are those of the run at the start and one for every tick and token taken, but for a run yet to come to its read |
| Daemon.SnapshotsAreHandled | cmd/acme-store/worker.go:79-112 | every domain of every snapshot is handled once, but for those the present run has left |
| Daemon.OpeningExactly | cmd/acme-store/keystore.go:18-24 | what opening the keystore leaves, with and without an error, and once it is reset |
| Daemon.HalfOpenedDropsTrigger | cmd/acme-store/keystore.go:18-24 | a trigger called while a keystore opened with an error is in place is let through and lost |
| Daemon.ReconnectionProceeds | cmd/acme-store/keystore.go:42-57 | without a keystore the retry loop can go on unless a run holds the mutex, and connects when its keystore opens |
| Daemon.OneFurtherRun | cmd/acme-store/worker.go:49-57 | any number of triggers during one run cause exactly one further manual run |
| Daemon.NoMoreRunsThanTriggers | cmd/acme-store/worker.go:41-57 | there are never more manual runs than triggers |
| Daemon.RunsExclude | cmd/acme-store/worker.go:59-61 | the mutex is held exactly during a run or a reconnection, so they never overlap |
| Daemon.ConnectedStays | cmd/acme-store/keystore.go:14-57 | once the keystore is connected and no reconnection is under way it stays so, and no later run finds it down |
| Fetcher.GetAllCerts | cmd/acme-store-fetcher/main.go:523-531 | the map by common name, the later of two certificates winning |
| Fetcher.TrimExactly | cmd/acme-store-fetcher/main.go:368-370 | normalising takes away leading and trailing white space, all of it and nothing else |
| Fetcher.SpaceCodes | cmd/acme-store-fetcher/main.go:368-370 | white space is that of Unicode, code by code |
| Fetcher.TrimDecides | cmd/acme-store-fetcher/main.go:343-350 | two texts count as equal exactly if they are one text with white space around |
| Fetcher.OutputDir.NeedsCertificateUpdate | cmd/acme-store-fetcher/main.go:315-359 | when the two files have to be written |
| Fetcher.OutputDir.FindPrivateKey | cmd/acme-store-fetcher/main.go:232-256 | the key on disk if it fits the chain, else the server's, else none |
| Fetcher.OutputDir.WritePair | cmd/acme-store-fetcher/main.go:267-284 | writes chain then key; a key that cannot be written takes the certificate down |
| Fetcher.OutputDir.FetchDomain | cmd/acme-store-fetcher/main.go:186-285 | one iteration: every check and error path, with its verdict |
| Fetcher.NothingToKeep | cmd/acme-store-fetcher/main.go:190-216 | an unknown domain is an error, one with nothing issued and managed is skipped |
| Fetcher.NoKeyFails | cmd/acme-store-fetcher/main.go:232-256 | without a fitting key on disk or one from the server it is an error |
| Fetcher.KeptExactly | cmd/acme-store-fetcher/main.go:224-284 | exactly when an offered certificate is skipped, and what is written, with which verdict, when it is not |
| Fetcher.ListCertificates | cmd/acme-store-fetcher/main.go:584-604 | the file pairs of the eligible domains, in managed order |
| Fetcher.ListedInOrder | cmd/acme-store-fetcher/main.go:584-604 | one more domain adds one more pair, by file name, exactly if it has a certificate to keep |
| Fetcher.OutputDir.GenerateTraefikConfig | cmd/acme-store-fetcher/main.go:580-637 | writes that list, or fails when it is empty |
| Fetcher.OutputDir.PerformFetch | cmd/acme-store-fetcher/main.go:159-309 | files, Traefik file and exit code of one fetch |
| Reconciliation.FetchConverges | cmd/acme-store-fetcher/main.go:186-285 | from any disk contents, a fetch without errors leaves every eligible domain's files the same as the server's chain and a fitting key or the server's, but for white space around them |
| Reconciliation.RenewedIsNotSkipped | cmd/acme-store-fetcher/main.go:342-345 | a domain whose file differs from the chain by more than that is never skipped |
| Reconciliation.UpToDatePairFits | cmd/acme-store-fetcher/main.go:372-427 | if the server's pair fits, so does the pair on disk, up to white space |
| Reconciliation.SecondFetchRests | cmd/acme-store-fetcher/main.go:315-358 | after it, a second fetch saves nothing exactly when for every eligible domain the key on disk or the server's fits |
| Reconciliation.SecondFetchWritesNothing | cmd/acme-store-fetcher/main.go:186-285 | with a server whose pairs fit, the second fetch changes no file |
| Reconciliation.CollidingDomainsNeverRest | cmd/acme-store-fetcher/main.go:218-222 | two eligible domains with one file name and different chains make every fetch save something or fail, on any disk contents |
| Reconciliation.AcceptedNamesAreDistinct | pkg/webui/static/app.js:545 | names accepted by the web UI never share a file |
| Reconciliation.FetchLeavesOtherFiles | cmd/acme-store-fetcher/main.go:218-222 | a fetch touches the files of eligible managed domains only |
| Reconciliation.CountsAddUp | cmd/acme-store-fetcher/main.go:182-300 | saved, skipped and failed add up to the number of managed domains |
| Reconciliation.SavedIsListed | cmd/acme-store-fetcher/main.go:606-608 | anything saved is listed, so the Traefik file never fails for want of certificates |
| Reconciliation.ListedPairsAreOnDisk | cmd/acme-store-fetcher/main.go:583-604 | after a fetch without errors each listed pair belongs to the eligible domain at that place, is on disk and up to date |
| Reconciliation.TraefikFollowsDisk | cmd/acme-store-fetcher/main.go:288-295 | after a fetch without failures the Traefik file agrees with the server exactly if it did before, or the disk was not at rest |
| Reconciliation.SavesUnlessResting | cmd/acme-store-fetcher/main.go:315-358 | a fetch without failures saves nothing exactly if every eligible domain's files are the server's and their keys fit |
| Reconciliation.DroppedDomainStaysListed | cmd/acme-store-fetcher/main.go:288-295 | a domain that was eligible when the Traefik file was written is listed afterwards exactly if its file is still served or the disk was at rest, whatever the server serves now |
| Serving.OffersExactly | cmd/acme-store/httpserver.go:392-428 | the fetcher sees the names of the list in order, and gets a key for exactly the records with a name: the key of the record |
| Serving.FoundExactlyByName | cmd/acme-store-fetcher/main.go:523-531 | a domain is found on the server exactly when some record carries its name |
| Serving.ServedChainReachesDisk | cmd/acme-store-fetcher/main.go:186-285 | after a fetch without errors the files of a listed domain hold the chain of its record and a fitting key or the record's own |
| Serving.UncarriedNameFails | cmd/acme-store-fetcher/main.go:190-195 | a listed domain whose name no record carries makes every fetch fail |
| Serving.MisreadStopsFetching | cmd/acme-store-fetcher/main.go:204-209 | a certificate in use whose leaf the worker misreads is no longer taken by the fetcher |
| Serving.RemovedDomainStaysListed | cmd/acme-store/httpserver.go:322-365 | a removal, soft or hard, with the disk at rest: the next fetch leaves the Traefik file as it is, the removed domain in it |
| FileNames.DomainFileInverts | pkg/keystore/filesystem.go:143-157 | the domain file name maps back to its domain |
| FileNames.FileNamesInFull | cmd/acme-store-fetcher/main.go:218-222 | the three file names spelled out |
| FileNames.SafeDomainInjective | cmd/acme-store-fetcher/main.go:219 | names without underscores map to distinct safe names |
| FileNames.AcceptedForms | pkg/webui/static/app.js:545 | labels of letters, digits and inner hyphens, joined by dots, with `*.` in front or not, are accepted |
| FileNames.RejectedForms | pkg/webui/static/app.js:545 | no other characters are, and no label begins or ends otherwise |
| FileNames.UnderscoresCollide | cmd/acme-store-fetcher/main.go:219 | with underscores they need not |
| FileNames.AcceptedNamesAreDistinctFiles | pkg/webui/static/app.js:545 | distinct names of the accepted form share no file and contain no slash |
| JsEscape.EscapeForJsIsOnePass | pkg/webui/static/app.js:429-435 | the five replacements in their order equal one pass over the characters |
| JsEscape.EscapedTextReadsBack | pkg/webui/static/app.js:429-435 | between quotes of either kind every escaped text is a well-formed literal that ends at its closing quote and whose value is the original text (section 12.9.4 of ECMA-262, 14th edition) |
| AttributeText.ReadsBackExactly | pkg/webui/static/app.js:513-517 | inside a double-quoted attribute whose value decoding leaves alone, escaped text reaches the call as it was exactly if it has no double quote |
| AttributeText.PlainTextIsLeftAlone | pkg/webui/static/app.js:513-517 | decoding leaves the value alone for every text without an ampersand |
| AttributeText.QuoteCutsLiteral | pkg/webui/static/app.js:301 | a double quote ends the attribute, and the literal is never closed |
| AttributeText.ReferenceIsDecodedFirst | pkg/webui/static/app.js:301 | text that spells a character reference is decoded before the literal is read |

## Left out

- HTTP routing, configuration, logging, metadata, the rest of the web UI: input and output around the state modelled here.
- ACME accounts: stored once and exported, they take no part in the certificate state; import does not restore them.
- The names an order asks for: the authority's answer is a parameter whatever it was asked. The worker reads configured SANs for Vault only.
- Vault's `GetAllDomains`: it lists deleted secrets too, which then read as empty records; the model's records leave them out. Vault's deletion is the record reading as absent.
- File names containing '/': each domain name is one file name here; the code would look for a sub-directory.
- A failed write leaves a file as it was; a torn write is not modelled. A file that cannot be parsed is a failed read.
- Interleaving.RecordsStayWhole: the re-acquisitions of the lock before `AddManagedDomainWithSANs` returns are not steps of their own, because nothing happens under them. The order in which they are made is part of the class method.
- Import as one thread: each certificate it writes and each domain it adds is a thread of its own, which allows more interleavings than the code.
- Fairness and real time: the daemon's progress is counted in its own steps.
- JsEscape.EscapedTextReadsBack: line continuations and escapes that begin with a digit, `x` or `u` are not given a value, because the escaper produces none.
- AttributeText.ReadsBackExactly: texts whose references are decoded have one example only (`AttributeText.ReferenceIsDecodedFirst`); the table of references is a parameter.
- Serving.RemovedDomainStaysListed: covers keystores in which every record carries its own domain as its common name.
- The paths `outputDir` and `traefikConfig`: files are named within the directory, and the Traefik file is taken to lie outside it.
