# A verified model of the apm package-metadata core

apm (Atomic Package Manager) manages packages of an ALT Linux host image and
of distrobox containers. Its core keeps two SQLite tables of package
metadata and runs the package commands on top of them:

- **`host_image_packages`** (module `HostStore`): the host's packages.
  - A full scan replaces the table in 1000-row batches.
  - A reconciliation sets every row's installed flag and installed version from apt's list of installed packages.
  - Lookups and substring searches read it, and so does an allow-listed filter/sort/paginate query.
- **`distrobox_packages`** (module `ContainerStore`): one table shared by every container, with each row tagged with its container.
  - A container scan replaces only that container's rows.
  - Install and remove set single flags.
  - Queries may be scoped to one container or span all of them.
- **The ALT index reader** (module `AltParser`): reads the stanzas of `apt-cache dumpavail` into packages and filters `rpm -ql` output into file paths.
- **The host commands** (module `HostActions`, a class over the host table, the desired image configuration, and the logs of apt runs and images built):
  - `Install` and `Remove`: root and database checks, name resolution, apt's dry run, the "nothing to do" branch with drift correction of the saved configuration, the dialog, the real run, the table sync, and the image update (`applyChange`).
  - The input checks of `Info`, `Search` and `List`.
- **The container commands** (module `ContainerActions`, a class over the container table and a log of service calls):
  - `validateContainer`, which rescans a container the table knows nothing about;
  - the install/remove flag machine over a package's (installed, exporting) pair;
  - the blank-argument checks of `List`, `ContainerAdd` and `ContainerRemove`.

Shared pieces:
- `Text`: Go's `strings.TrimSpace` with the `unicode.IsSpace` set, `Split`/`Join` on one character, containment, and `ToUpper` as far as it can produce ASCII.
- `Sql`: the part of SQLite the stores rely on.
  - `LIKE '%v%'` is ASCII-case-insensitive containment.
  - The whole-token test is `',' || col || ',' LIKE '%,v,%'`.
  - ORDER BY follows SQLite's value order.
  - LIMIT/OFFSET as the builders emit them.
  - A query engine that fails on an unknown column.
- `Batch`: the batched bulk insert both stores use.
- `Wrappers`: `Option` and `Result`.

How the outside world is modelled:
- **Database faults** are an input naming the statement the database refuses (`SaveFault`, `SyncFault`, `dbFails`).
- **Collaborators whose code is not part of this model** are inputs that say how they answer:
  - apt's dry run, dialog, real run and installed list;
  - the desired-configuration service and the image builder;
  - distrobox, the package manager inside a container, and the desktop export;
  - `GetVersionFromAptCache` and `ParseBool`.
- **Go map iteration order** is left open: the WHERE builders pick the next key with `:|`, and their results are stated as sets of conditions.

The model follows the code as written, including where it differs from its own comments or from what its callers expect:
- `PackageDatabaseExist` checks only that the table exists. Its comment (cmd/system/apt/database.go:591) also promises at least one record, but the body ignores the scanned count. The host commands' database check relies on it, so an existing empty table passes without a refresh (see Findings).
- The host query builder writes filter and sort field names into the SQL as given, so a filter or sort on the allowed field "installedSize" fails for want of a column (see Findings). The intended column mapping is modelled beside it, as a separate statement.
- Both stores run their DELETE before `Begin` (cmd/system/apt/database.go:110-116, cmd/distrobox/service/database.go:91-97). A refused batch or commit therefore leaves the table, or the container's rows, empty.
- The "nothing to do" branch of Install and Remove always ends in an error response (cmd/system/actions.go:369), even after it has updated the image.

## Model

| member | source | states |
|---|---|---|
| Sql.IsAllowedField | cmd/system/apt/database.go:605-612 | a field passes the allow-list exactly when it is an element of the list |
| Sql.DirectionOf | cmd/system/apt/database.go:456-460 | the query sorts descending exactly when the upper-cased order is "DESC"; every other order is ascending |
| Sql.DescSpellings | cmd/system/apt/database.go:456-459 | the orders that sort descending are exactly the four-letter spellings of "desc" in any case, the s possibly the long s that Go upper-cases to S |
| Sql.PagingOf | cmd/system/apt/database.go:464-471 | LIMIT is emitted only for a positive limit; OFFSET only beside a LIMIT and for a positive offset |
| Sql.NoLimitKeepsAll | cmd/system/apt/database.go:464-471 | without a positive limit every selected row is returned, whatever the offset |
| Sql.PageWindow | cmd/system/apt/database.go:464-471 | with a positive limit the page is the window [offset, offset+limit) of the ordered rows, offset 0 when not positive |
| Sql.TokenMatch | cmd/system/apt/database.go:426-433 | the `',' \|\| col \|\| ','` LIKE test matches exactly when the value is, up to ASCII case, one whole comma-separated element of the column, never part of one |
| Sql.MissingColumn | cmd/system/apt/database.go:474-476 | the column SQLite reports for a WHERE clause: none exactly when every condition names a column of the table, otherwise a missing column some condition names |
| Sql.SortBy | cmd/system/apt/database.go:452-461 | ORDER BY yields a permutation of the selected rows in which no row is strictly out of order with the next |
| Sql.ExecuteSound | cmd/system/apt/database.go:406-471 | every row a query returns meets every WHERE condition; at most `limit` rows come back for a positive limit; without LIMIT and ORDER BY the result is the selection itself |
| Sql.OptionalFilter | cmd/system/actions.go:541-544 | a list request carries at most one filter, present exactly when both field and value are non-blank after trimming, mapping the field to the untrimmed value |
| Batch.InsertBatches | cmd/system/apt/database.go:121-168 | the batch loop issues Batches(n) INSERTs of 1 to 1000 rows that stage every item in order, or stops at the first refused batch and reports that batch |
| Batch.BatchStep | cmd/system/apt/database.go:123-128 | a non-empty remainder takes one INSERT of at most 1000 rows plus the INSERTs of what is left |
| HostStore.ListRoundTrip | cmd/system/apt/database.go:134-135 | a dependency or provides list without commas, other than [""], reads back from its comma-joined column as itself |
| HostStore.ListRoundTripLosses | cmd/system/apt/database.go:207-218 | the lists the column cannot carry: [""] reads back as [] and an element with a comma reads back split |
| HostStore.PackageRoundTrip | cmd/system/apt/database.go:132-157 | a package with storable lists reads back from its row unchanged, including the installed flag written as 1/0 and read as non-zero |
| HostStore.Column | cmd/system/apt/database.go:89-104 | a row has a cell exactly for the 13 columns of CREATE TABLE |
| HostStore.InstalledSizeFilterFailsAsWritten | cmd/system/apt/database.go:65-79 | "installedSize" passes the filter allow-list, yet the store's own conditions for a filter on it make the query fail with that column missing, whatever the order and paging |
| HostStore.InstalledSizeSortFailsAsWritten | cmd/system/apt/database.go:48-62 | "installedSize" passes the sort allow-list, yet ORDER BY on it fails with that column missing, whatever the allowed filters |
| HostStore.AllowedFieldsAreColumns | cmd/system/apt/database.go:48-79 | with "installedSize" mapped to `installed_size` (the intended mapping), every allowed filter or sort field names a column |
| HostStore.AllowedMissingColumn | cmd/system/apt/database.go:48-104 | of the allowed filter and sort fields, exactly "installedSize" names no column of the table |
| HostStore.CondOf | cmd/system/apt/database.go:414-442 | the condition one allowed filter adds is on the field name as given, and it is skipped exactly for an `installed` value that does not parse as a boolean |
| HostStore.CondSource | cmd/system/apt/database.go:409-443 | every condition of the WHERE set comes from one filter of the map, on that filter's field name as given |
| HostStore.MissingColumnConds | cmd/system/apt/database.go:409-443 | under the allow-list, some condition names a missing column exactly when "installedSize" is filtered on, and that is the only such column |
| HostStore.MissingOfBuilt | cmd/system/apt/database.go:474-476 | the column SQLite reports missing for the built conditions is "installedSize" exactly when it is filtered on, and there is none otherwise |
| HostStore.BuiltQueriesRun | cmd/system/apt/database.go:406-476 | a query built from allowed filter and sort fields fails exactly when it filters or sorts on "installedSize", and then reports that column missing |
| HostStore.CorrectedQueriesRun | cmd/system/apt/database.go:48-104 | with the intended mapping of each condition and the ORDER BY to its column, no query built from allowed fields fails for a missing column |
| HostStore.CorrectionKeepsOtherQueries | cmd/system/apt/database.go:409-443 | for a filter map without "installedSize", the intended conditions are exactly the ones the builder writes |
| HostStore.UnparsedInstalledIsSkipped | cmd/system/apt/database.go:415-419 | an `installed` filter whose value does not parse adds nothing: the conditions are those of the map without it |
| HostStore.InstalledFilterMeaning | cmd/system/apt/database.go:415-425 | a parsed `installed` filter holds of a package exactly when its installed flag equals the parsed value |
| HostStore.DependsFilterMatchesWholeElement | cmd/system/apt/database.go:426-433 | a `depends` filter matches a package exactly when the value is, up to ASCII case, one whole element of its dependency list |
| HostStore.ProvidesFilterMatchesWholeElement | cmd/system/apt/database.go:426-433 | the same for `provides` and the provided names |
| HostStore.StringFilterIsContainment | cmd/system/apt/database.go:434-437 | a string filter on any allowed field other than installed, depends and provides is a LIKE on that field, holding exactly when the field's text (an integer column in decimal) contains the value up to ASCII case; on "installedSize" it holds of no row |
| HostStore.FirstNamed | cmd/system/apt/database.go:177-188 | the single-row query keyed on name finds the first row of that name, or none exactly when no row has it |
| HostStore.Search | cmd/system/apt/database.go:289-312 | a row is in the search result exactly when it is in the table, its name contains the part (LIKE), and it is installed when only installed ones are asked for |
| HostStore.HostTable.constructor | cmd/system/apt/database.go:37-42 | a new store has no table and no rows |
| HostStore.HostTable.SavePackagesToDB | cmd/system/apt/database.go:82-174 | success exactly when no statement is refused; on success the rows are the packages' rows in order, written in Batches(n) INSERTs; a refused CREATE or DELETE leaves the rows alone; any later failure leaves the table empty |
| HostStore.HostTable.GetPackageByName | cmd/system/apt/database.go:177-223 | fails with PackageNotFound exactly when there is no table or no row of that name; otherwise returns a stored row of that name, read back |
| HostStore.HostTable.SyncPackageInstallationInfo | cmd/system/apt/database.go:226-285 | on success every row is reconciled (installed exactly when its name is in the map, with the map's version or ""); no row is added or removed; on failure nothing changes |
| HostStore.HostTable.SearchPackagesByName | cmd/system/apt/database.go:289-375 | every package returned is read from a row of the table whose name contains the part (and which is installed when asked for), and every such row is returned |
| HostStore.HostTable.BuildConditions | cmd/system/apt/database.go:406-449 | the WHERE builder succeeds exactly when every filter field is allowed, with the condition set CondsFor(filters); otherwise it fails with some disallowed field of the map |
| HostStore.HostTable.QueryHostImagePackages | cmd/system/apt/database.go:379-532 | a disallowed filter field fails first, then a disallowed sort field; otherwise the result is the query engine's answer for the filters, the sort on the field as given and the paging; on an existing table it fails with "installedSize" missing exactly when that field is filtered or sorted on, and succeeds otherwise |
| HostStore.HostTable.CountHostImagePackages | cmd/system/apt/database.go:536-590 | a disallowed filter field fails; otherwise a missing table fails, a filter on "installedSize" fails with that column missing, and else the count is the number of rows meeting every condition |
| HostStore.HostTable.PackageDatabaseExist | cmd/system/apt/database.go:593-602 | as written: succeeds exactly when the table exists, whatever its row count |
| HostStore.HostTable.PackageDatabaseHasRows | cmd/system/apt/database.go:592-602 | as intended: succeeds exactly when the table exists and holds at least one row |
| HostStore.CondsForAdd | cmd/system/apt/database.go:409-443 | walking one more filter adds exactly that filter's condition, if any |
| HostStore.EmptyTablePassesExistenceCheck | cmd/system/apt/database.go:593-602 | on an existing empty table the as-written check passes and the intended one fails |
| HostStore.ReconciledKeepsInstalledInvariant | cmd/system/apt/database.go:264-275 | after reconciling from a map of non-empty versions, a package is installed exactly when its installed version is non-empty |
| HostStore.ReconcileExample | cmd/system/apt/database.go:264-275 | scanning {A v1, B v2} and reconciling with {A: v1} leaves A installed at v1 and B not installed with no version |
| ContainerStore.RowRoundTrip | cmd/distrobox/service/database.go:113-123 | a saved package reads back as itself, tagged with the container it was saved under |
| ContainerStore.Column | cmd/distrobox/service/database.go:77-85 | a row has a cell exactly for the 7 columns of CREATE TABLE |
| ContainerStore.AllowedFieldsAreColumns | cmd/distrobox/service/database.go:45-64 | every allowed filter or sort field is a column |
| ContainerStore.CondOf | cmd/distrobox/service/database.go:188-209 | the condition one allowed filter adds is on that field, and it is skipped exactly for an `installed`/`exporting` value that does not parse |
| ContainerStore.ScopeMeaning | cmd/distrobox/service/database.go:176-180 | a query scoped to a container admits only that container's rows; the empty name scopes nothing |
| ContainerStore.FlagFilterMeaning | cmd/distrobox/service/database.go:189-199 | a parsed flag filter holds exactly when the package's flag equals the parsed value |
| ContainerStore.CondSource | cmd/distrobox/service/database.go:183-210 | every filter condition comes from one filter of the map, on that field |
| ContainerStore.BuiltQueriesRun | cmd/distrobox/service/database.go:225-281 | a query built from allowed fields never fails for a missing column |
| ContainerStore.FilterCondsAdd | cmd/distrobox/service/database.go:183-210 | walking one more filter adds exactly its condition, if any |
| ContainerStore.RowsOf | cmd/distrobox/service/database.go:157 | a row is one of a container's rows exactly when it is in the table with that container |
| ContainerStore.Without | cmd/distrobox/service/database.go:91-92 | `DELETE ... WHERE container = ?` keeps exactly the rows of other containers |
| ContainerStore.WithoutKeepsOthers | cmd/distrobox/service/database.go:90-93 | deleting one container's rows leaves every other container's rows as they were, in order |
| ContainerStore.WithoutEmptiesContainer | cmd/distrobox/service/database.go:90-93 | after the delete the container has no rows |
| ContainerStore.WrittenRowsOf | cmd/distrobox/service/database.go:113-123 | every row written for a container carries that container, whatever the package says |
| ContainerStore.RowsOfAppend | cmd/distrobox/service/database.go:91-133 | a container's rows of a concatenation are its rows of each part, in order |
| ContainerStore.SaveScopedToContainer | cmd/distrobox/service/database.go:68-134 | after a successful save the container holds exactly the saved packages and every other container is untouched |
| ContainerStore.SetFlagMeaning | cmd/distrobox/service/database.go:381-390 | a flag update changes that flag to the value and nothing else of the package |
| ContainerStore.ContainerTable.constructor | cmd/distrobox/service/database.go:37-42 | a new store has no table and no rows |
| ContainerStore.ContainerTable.SavePackagesToDB | cmd/distrobox/service/database.go:68-134 | an empty container name fails and changes nothing; on success the container's rows are replaced by the packages' rows, other containers kept; a refused CREATE/DELETE changes no row; a later failure leaves the container without rows |
| ContainerStore.ContainerTable.DatabaseExist | cmd/distrobox/service/database.go:137-153 | succeeds exactly when the table exists and holds a row; a missing table is its own error |
| ContainerStore.ContainerTable.ContainerDatabaseExist | cmd/distrobox/service/database.go:156-167 | succeeds exactly when the table holds a row of that container |
| ContainerStore.ContainerTable.BuildConditions | cmd/distrobox/service/database.go:170-214 | succeeds exactly when every filter field is allowed, with the container scope plus the filters' conditions; otherwise fails with a disallowed field |
| ContainerStore.ContainerTable.CountTotalPackages | cmd/distrobox/service/database.go:170-222 | a disallowed filter fails; otherwise the count of rows in scope meeting every filter |
| ContainerStore.ContainerTable.QueryPackages | cmd/distrobox/service/database.go:225-320 | a disallowed filter fails first, then a disallowed sort field; otherwise the query engine's answer for scope, filters, sort and paging |
| ContainerStore.ContainerTable.FindPackagesByName | cmd/distrobox/service/database.go:324-366 | every package returned is read from a row in scope (all containers for "") whose name contains the part, and every such row is returned |
| ContainerStore.ContainerTable.UpdatePackageField | cmd/distrobox/service/database.go:369-394 | only `installed` and `exporting` are updated, on the rows of that container and name; a refused field or database error changes nothing |
| ContainerStore.ContainerTable.GetPackageInfoByName | cmd/distrobox/service/database.go:397-411 | fails exactly when no row has that container and name; otherwise returns a stored row of that container and name |
| ContainerStore.ContainerTable.DeletePackagesFromContainer | cmd/distrobox/service/database.go:414-421 | on success exactly the container's rows are gone; on failure nothing changes |
| ContainerStore.FirstMatch | cmd/distrobox/service/database.go:397-402 | the single-row query keyed on container and name finds a matching stored row, or none exactly when no row matches |
| ContainerStore.SetFlagWhere | cmd/distrobox/service/database.go:381-390 | the UPDATE keeps the row count and sets the flag on exactly the rows of that container and name |
| ContainerStore.FlagUpdateSeen | cmd/distrobox/service/database.go:369-411 | after a flag update, the next lookup of that package sees the old row with the flag set, and every other (container, name) pair finds what it found before |
| ContainerStore.EmptyLike | cmd/distrobox/service/database.go:334-337 | an empty name part matches every row, as omitting the condition does |
| AltParser.GetPackages | cmd/distrobox/service/alt.go:27-127 | a failing listing command fails the read; otherwise one package per parsed stanza, installed exactly when the container lists it and with manager "apt-get" |
| AltParser.ReadStanzas | cmd/distrobox/service/alt.go:62-106 | the scanning loop, one StepLine per trimmed line, returns exactly Parse(lines) |
| AltParser.MarkInstalled | cmd/distrobox/service/alt.go:119-124 | the post-processing loop finalizes every package in place against the installed map |
| AltParser.ParsedPackagesAreNamed | cmd/distrobox/service/alt.go:69-74 | every package read has a non-empty name and no container, flags or manager |
| AltParser.RunFromAppend | cmd/distrobox/service/alt.go:66-102 | reading a concatenation is reading the first part, then the second |
| AltParser.FieldLine | cmd/distrobox/service/alt.go:78-96 | a clean `key: value` line sets that key, with that value |
| AltParser.ContinuationLine | cmd/distrobox/service/alt.go:97-100 | a continuation line under Description appends "\n" and the line to the description |
| AltParser.Continuations | cmd/distrobox/service/alt.go:97-100 | a run of continuation lines joins onto the description with "\n" |
| AltParser.StanzaRead | cmd/distrobox/service/alt.go:66-75 | reading one rendered stanza from a fresh state closes exactly that package, its version resolved |
| AltParser.RenderRead | cmd/distrobox/service/alt.go:66-106 | reading rendered stanzas appends exactly those packages, versions resolved |
| AltParser.ParseRender | cmd/distrobox/service/alt.go:51-127 | round trip: the dump of well-formed packages parses back as those packages, each version passed through the resolver |
| AltParser.BlankWithoutName | cmd/distrobox/service/alt.go:69-75 | a blank line with no name read changes nothing |
| AltParser.NamelessStanzaCarriesOver | cmd/distrobox/service/alt.go:69-75 | a stanza without a Package line is not dropped: its fields carry over into the next package |
| AltParser.ColonEndsDescription | cmd/distrobox/service/alt.go:78-100 | a description line holding a colon is read as a new key and ends the description; later continuation lines are dropped |
| AltParser.KeptPathsMembership | cmd/distrobox/service/alt.go:158-165 | a path is returned exactly when some output line, trimmed, is that non-empty path not ending in "/" |
| AltParser.GetPathByPackageName | cmd/distrobox/service/alt.go:150-167 | a failed command yields its error; otherwise the kept paths of the output's lines, in order |
| AltParser.KeptPathsMeaning | cmd/distrobox/service/alt.go:158-165 | every kept path is clean, names a file (no trailing "/") and is a single line |
| HostActions.AddInstall | cmd/system/actions.go:817-822 | recording an install leaves the name to install and not to remove, and no other name moves |
| HostActions.AddRemove | cmd/system/actions.go:819-824 | recording a removal leaves the name to remove and not to install, and no other name moves |
| HostActions.RunOf | cmd/system/actions.go:187 | the real run gets the space-joined names and is an install exactly for Install |
| HostActions.FindCritical | cmd/system/actions.go:117-120 | no critical error is found exactly when no apt error is critical |
| HostActions.MatchedOf | cmd/system/actions.go:122-129 | the recognised errors, none exactly when no error was recognised |
| HostActions.ParamsWith | cmd/system/actions.go:135-139 | exactly the first parameters of the recognised errors with that code |
| HostActions.StripMeaning | cmd/system/actions.go:807-814 | stripping removes only trailing '+'/'-' markers and stops at the first known prefix, otherwise when no marker is left |
| HostActions.CanonicalMeaning | cmd/system/actions.go:804-814 | the recorded name is the name itself when known; otherwise a marker-stripped prefix as above |
| HostActions.ResolveOne | cmd/system/actions.go:251-263 | Install resolves a name as itself when known, else without one trailing marker when that is known, else not at all with the last lookup's error |
| HostActions.RecordedKeepsDisjoint | cmd/system/actions.go:799-830 | recording names never makes a name both to install and to remove |
| HostActions.RecordedPlaces | cmd/system/actions.go:816-826 | the last name with a given canonical form ends up in the install list when its marker (or else the command) says install, in the remove list otherwise |
| HostActions.RecordedNothing | cmd/system/actions.go:800-802 | empty names are skipped: recording only them changes nothing |
| HostActions.AddMissing | cmd/system/actions.go:339-357 | drift correction keeps every listed name, adds every drift name, adds nothing else, keeps the invariant, and changes nothing when all are listed |
| HostActions.AddDrifted | cmd/system/actions.go:339-357 | a drift loop fails exactly when some name is missing and the service cannot write; otherwise it yields AddMissing and reports whether any name was missing |
| HostActions.NoneMissing | cmd/system/actions.go:148-156 | with no missing name the loop changes nothing |
| HostActions.MissingStep | cmd/system/actions.go:148-156 | a name is missing from the list built so far exactly when it is missing from the original list and no earlier name was |
| HostActions.HostActions.constructor | cmd/system/actions.go:26-38 | the commands start from a configuration that keeps the invariant, with no apt runs and no images built |
| HostActions.HostActions.ValidateDB | cmd/system/actions.go:854-869 | the database check passes when the existence check passes (the table exists, whatever it holds), or else when root and the refresh both succeed; a root failure is reported as such |
| HostActions.HostActions.ValidateDBPassesEmptyTable | cmd/system/actions.go:854-869 | an existing empty table passes the database check with no root check and no refresh, although the intended row check fails on it |
| HostActions.HostActions.Preflight | cmd/system/actions.go:224-242 | root is checked first, then the database, then a non-empty list; the empty list is an error response without a Go error |
| HostActions.HostActions.ResolveForInstall | cmd/system/actions.go:244-297 | every name resolves, with the infos and whether a marker was dropped, or the first name that does not |
| HostActions.HostActions.LookupForInstall | cmd/system/actions.go:251-263 | one lookup of Install's loop is ResolveOne |
| HostActions.HostActions.KnownIsFound | cmd/system/actions.go:106 | the lookup by name succeeds exactly for names of the table |
| HostActions.HostActions.Suggest | cmd/system/actions.go:265-294 | an unresolved name ends in the lookup error, "not found", or up to five alternatives, each a package of the table that provides the name |
| HostActions.HostActions.QueryProviders | cmd/system/actions.go:266-270 | the provides query with limit 5 returns at most five packages, each providing the name |
| HostActions.HostActions.NamesOf | cmd/system/actions.go:280-283 | the alternatives' names, in order |
| HostActions.HostActions.CollectMatched | cmd/system/actions.go:306-313 | the recognised-error loop yields MatchedOf |
| HostActions.HostActions.CollectDrift | cmd/system/actions.go:320-327 | drift names are collected only when applying on an atomic system: already-newest ones (Install only) and not-installed ones |
| HostActions.HostActions.CorrectDrift | cmd/system/actions.go:332-358 | a load error fails with the configuration unchanged; a write error fails when something must be added; otherwise the configuration gains the missing names and the result says whether any was added |
| HostActions.HostActions.CanonicalOf | cmd/system/actions.go:804-814 | the strip loop yields Canonical |
| HostActions.HostActions.ApplyChange | cmd/system/actions.go:789-843 | refused off an atomic system; otherwise every non-empty name is recorded by its marker or the command, and on success exactly one image is built from the new configuration; apt is never run |
| HostActions.HostActions.RecordName | cmd/system/actions.go:804-829 | a non-empty name is recorded with its canonical form, to install or to remove by its marker or else by the command; a failed configuration write leaves the configuration as it was |
| HostActions.HostActions.RecordAll | cmd/system/actions.go:799-830 | every non-empty name is recorded in order, giving Recorded of the old configuration; a failed write fails exactly when some name is non-empty and then changes nothing |
| HostActions.HostActions.Settle | cmd/system/actions.go:315-370 | the idle dry run's drift is collected and settled as a nothing-branch error response; runs stay as they were, and the configuration or image list changes only when applying on an atomic system |
| HostActions.HostActions.NothingToDoBranch | cmd/system/actions.go:315-370 | always ends in an error response without running apt; the image is rebuilt only when applying on an atomic system and drift correction added something; after a rebuild the configuration is the drift-corrected one with every requested name recorded, and exactly that configuration is the one new image |
| HostActions.HostActions.Commit | cmd/system/actions.go:372-432 | the real run happens exactly when the dialog says yes; a cancelled or failed dialog changes nothing; on success the rows are synced with the installed list; the image changes only when applying, and an applied success records every requested name in the configuration and appends that configuration as the one new image |
| HostActions.HostActions.Install | cmd/system/actions.go:224-432 | the preflight failures come first; an unresolved name ends in a suggestion with at most five alternatives; a critical dry-run error, a cancel or a dialog failure changes nothing; apt runs once at most, with the joined names; config and image change only when applying, and an applied success records every name as an install and appends the new configuration as one image |
| HostActions.HostActions.Proceed | cmd/system/actions.go:299-432 | a critical error exactly when the dry run reports one; the nothing branch exactly on an idle dry run; otherwise the dialog, run and sync as in Commit; an applied success records every name and appends the new configuration as one image |
| HostActions.HostActions.Remove | cmd/system/actions.go:83-221 | the preflight failures come first; a name not in the table fails with PackageNotFound for a requested name; then as Proceed with the removal dry run; an applied success records every name as a removal and appends the new configuration as one image |
| HostActions.HostActions.LookupAll | cmd/system/actions.go:103-113 | succeeds exactly when every name is in the table, giving the names unchanged; otherwise fails with a requested name |
| HostActions.HostActions.Info | cmd/system/actions.go:476-515 | a blank name fails before the database is checked; otherwise the package of the trimmed name, or the database or lookup error |
| HostActions.HostActions.Search | cmd/system/actions.go:595-648 | the database is checked before the name; a result is non-empty, each package is read from a row of the table and contains the trimmed name, and every matching row is in it; "nothing found" means no row matches |
| HostActions.HostActions.List | cmd/system/actions.go:528-592 | a forced update fails first, then the database check; a returned page is non-empty, holds at most `limit` packages when limit is positive, and comes with the count of matching rows; a filter or sort on "installedSize" always fails |
| HostActions.RowNames | cmd/system/actions.go:280-283 | reading rows back keeps each row's name |
| HostActions.Providers | cmd/system/actions.go:266-270 | a provides query with limit 5 returns at most five packages, each named like a row that provides the name |
| HostActions.ProvidesAllowed | cmd/system/actions.go:266-268 | the provides filter passes the allow-list |
| HostActions.ProvidesQuery | cmd/system/actions.go:266-270 | a provides query for one name asks exactly for that whole element |
| ContainerActions.NoMutationAppend | cmd/distrobox/actions.go:148-151 | appending a call that changes no container keeps "no mutation" |
| ContainerActions.NonBlankMeaning | cmd/distrobox/actions.go:361-364 | an argument is refused exactly when it is all white space; an accepted one is the input with white space cut off both ends |
| ContainerActions.NonBlankIdempotent | cmd/distrobox/actions.go:180-184 | checking an accepted argument again gives it back unchanged |
| ContainerActions.InstallIdempotent | cmd/distrobox/actions.go:193-209 | installing again with the same request changes no flag |
| ContainerActions.RemoveAfterInstall | cmd/distrobox/actions.go:244-260 | a removal after an install leaves the package not exporting, and installed exactly when only the export was removed |
| ContainerActions.TouchesOnlyTrans | cmd/distrobox/actions.go:199-208 | two updates of one package's flags together touch only that package |
| ContainerActions.SetFlagTouchesOnly | cmd/distrobox/actions.go:199 | a flag update touches only the package it names |
| ContainerActions.TouchesOnlyKeepsOthers | cmd/distrobox/actions.go:199-259 | every other package of every container reads back as before |
| ContainerActions.StoredAfterUpdate | cmd/distrobox/actions.go:199-200 | the next lookup of the updated package sees the new flag and its other flag unchanged |
| ContainerActions.ContainerActions.constructor | cmd/distrobox/actions.go:19-27 | the commands start over a given table, with no service calls made |
| ContainerActions.ContainerActions.UpdatePackages | cmd/distrobox/actions.go:372-374 | a rescan logs one call and succeeds exactly when the scan and its save succeed, replacing only that container's rows |
| ContainerActions.ContainerActions.ValidateContainer | cmd/distrobox/actions.go:360-378 | a blank name fails with no call; a known container passes with no call; an unknown one is described and rescanned, and fails exactly when either fails; no call mutates a container |
| ContainerActions.ContainerActions.Install | cmd/distrobox/actions.go:175-219 | blank arguments fail with no mutating call; for a stored package, only its flags change; success leaves it installed (and exporting when asked); a failure keeps its exporting flag; an installed package already as requested makes no service call beyond the description |
| ContainerActions.ContainerActions.Lookup | cmd/distrobox/actions.go:185-192 | describes the container once; a description error or a missing package fails; a found package has that container and name |
| ContainerActions.ContainerActions.InstallFound | cmd/distrobox/actions.go:193-209 | install only when not installed, export only when asked and not exporting; each flag is set after its call succeeds; a failed call keeps its flag; nothing happens when already as requested |
| ContainerActions.ContainerActions.InstallMissing | cmd/distrobox/actions.go:193-201 | one install call; on success the installed flag is set and the package re-read; on failure nothing changes |
| ContainerActions.ContainerActions.SetExport | cmd/distrobox/actions.go:202-209 | one export call; on success the exporting flag follows it; on failure nothing changes |
| ContainerActions.ContainerActions.Remove | cmd/distrobox/actions.go:222-271 | blank arguments fail with no mutating call; for a stored package only its flags change; success leaves the AfterRemove flags; a failure or an export-only removal keeps the installed flag |
| ContainerActions.ContainerActions.RemoveFound | cmd/distrobox/actions.go:244-260 | un-export an exporting package in any case, then uninstall only when installed and not export-only; each flag is cleared after its call succeeds |
| ContainerActions.ContainerActions.Uninstall | cmd/distrobox/actions.go:253-260 | one remove call; on success the installed flag is cleared; on failure nothing changes |
| ContainerActions.ContainerActions.List | cmd/distrobox/actions.go:132-151 | validates the container and describes it last; the request carries the trimmed container, the optional filter and the untouched paging and sort; no call mutates a container |
| ContainerActions.ContainerActions.ContainerAdd | cmd/distrobox/actions.go:291-307 | a blank image, then a blank name, fails before distrobox is called; otherwise one create call with the trimmed arguments, succeeding exactly when it does |
| ContainerActions.ContainerActions.ContainerRemove | cmd/distrobox/actions.go:321-331 | a blank name fails before distrobox is called; otherwise one remove call with the trimmed name, succeeding exactly when it does |

## Left out

- The apt front end is not part of this model: `Check`, `Install`, `Remove`, `GetInstalledPackages`, `FindCriticalError`'s classification and `NewDialog`. They are answers of the `Apt` input.
- `apt-get update` and its rescan of the host table (`serviceAptActions.Update`) are not part of this model. `validateDB` and `List` see only whether the update failed (`Env.updateError`), and the refreshed table is not modelled.
- `updateAllPackagesDB` (cmd/system/actions.go:872-886) is modelled as the installed list from the `Apt` input followed by `SyncPackageInstallationInfo`. The before/after event notifications are left out.
- `checkRoot` (effective user id, overlay on an atomic system) is an input: `Env.rootError`.
- The desired-configuration service (`HostConfigService`) is modelled by its two list operations. Its code is not part of this model, and it is assumed that no name is ever both to install and to remove.
  - A write error fails every add.
  - `GenerateDockerfile` and `BuildAndSwitch` are folded into one image-build answer.
- Messages, `DeclOfNum`, `AutoSize` and the response maps are left out. Outcomes are datatypes, and only whether an error response or a Go error is returned is kept.
- The recognised apt error's `Params[0]` is modelled as a single parameter.
- HostActions.HostActions.List: does not model the page contents beyond non-emptiness and the limit. The count and the query are those of the store, and their contracts are stated there.
- HostActions.HostActions.Info: does not model the response's field-by-field copy of the package.
- The container package service is not part of this model:
  - `GetInfoPackage` is modelled as the container store's lookup, and `IsConsole`/`Paths` are not modelled;
  - `UpdatePackages` is modelled as a scan answer plus `SavePackagesToDB`;
  - `GetPackagesQuery` is not modelled, so container `List` stops at the request it builds.
- `DeleteContainerTable`, called by container `ContainerRemove` after the container is gone (cmd/distrobox/actions.go:341), is not part of this model.
- Container `Info`, `Search`, `Update` and `ContainerList` are not part of the modelled core.
- `GetPackages` in alt.go:
  - the `apt-get update` before the dump and the starting of the command are one `commandFails` input;
  - the 350 MB line limit of the scanner is not modelled.
- Sql.TokenMatch: stated only for a value without a comma. A value holding commas matches a run of consecutive elements (`%,a,b,%`); that case is not characterised.
- HostStore.DependsFilterMatchesWholeElement: stated only for a value without a comma, as for TokenMatch, and not for an empty list with an empty value, which matches because the empty list is stored as "".
- HostStore.ProvidesFilterMatchesWholeElement: the same two restrictions as for `depends`.
- SQL wildcards: `%` and `_` inside a filter or search value are taken as plain characters. Real LIKE treats them as wildcards.
- Row order: SQLite leaves the order of rows without ORDER BY, and of equal sort keys, unspecified. The model keeps table order, using a stable sort.
- Concurrency (`syncDBMutex`), contexts and cancellation are not modelled.
- AltParser.GetPackages: a failed installed-package report is logged and counted as "none installed", as in the source; the log line is not modelled.

## Findings

| source | as written | input that shows it | evidently intended | confidence | as-written member | corrected member |
|---|---|---|---|---|---|---|
| cmd/system/apt/database.go:48-79 | the sort and filter allow-lists contain "installedSize", but the table's column is `installed_size`, and the builder writes the field name into the SQL as is | a `List` with filter field "installedSize" (or sort field "installedSize") passes the allow-list and the query then fails with "no such column" | the API field "installedSize" names the `installed_size` column | not executed | HostStore.BuiltQueriesRun | HostStore.CorrectedQueriesRun |
| cmd/system/apt/database.go:592-602 | `PackageDatabaseExist` runs `SELECT COUNT(*)` and ignores the count | an existing but empty `host_image_packages` table (a scan that stored nothing) passes the check, so `validateDB` never refreshes it | fail when the table holds no row, as its comment says, so `validateDB` refreshes an empty table | not executed | HostActions.HostActions.ValidateDBPassesEmptyTable | HostStore.HostTable.PackageDatabaseHasRows |
