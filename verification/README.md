# uidctl: the UID/GID/port ledger and the container lifecycle, verified

This project models the part of `uidctl` that keeps a relational database and a set of Docker hosts in
step: creating, deleting, expiring and extending containers, managing groups, deleting users, and
synchronising a host with the database. One store is transactional (`nfs_mysql/init.sql`); the other, the
hosts with their containers and Kerberos files, is not. Every statement and every remote command may fail,
so create is a small saga: plan from reads, act remotely, write in one transaction, compensate on failure.

`dafny verify dfyconfig.toml` checks everything.

## How the model is built

* `Schema` is the database: seven tables, and one `Statement` per SQL write of the program. `Exec` gives the
  next tables or the key violation that refuses the statement; `ExecAll` is a transaction's list of statements.
  `Repositories.Repository` is the connection, with a committed and a working copy, on which every call may raise.
* `Fleets.Fleet` is the remote world: containers by name and Kerberos files by path on each server. A failing
  command may or may not have had its effect.
* The services are methods over these objects with the loops and branches of the program
  (`Planner.Prepare`, `ContainerCreate`, `ContainerDelete`, `ExpiredCleanup`, `ContainerExtend`,
  `GroupManagement`, `UserDeletion`, `ContainerSync`). Each is proved against functions and predicates on
  values, so what it may do to both stores is stated outright.
* Faults are nondeterminism: a contract holds wherever they strike. Each object also has a `faultless` mode, in
  which contracts say when the operation succeeds, so that raising is never an excuse: a refused request is
  refused by a guard or a key, and a request that passes them goes through. In the other direction the remote
  objects record which commands went through and count those that raised: an operation that reports success
  has run every one of its checked commands and survived no failure.
* The queries and guards the services run are written as the program writes them (`Matches`, `Listed`,
  `RequestedIdsOk`, `ContainersOfUsers`). The contracts do not rest on them: each says in terms of rows,
  owners and dates which rows an operation may touch (`Asked`, `Wanted`, `Expired`, `OnlyNamedGone`) or why it
  is refused (`Grounds`), and a lemma proves the two descriptions equal.
* Run theorems are inductions over those values: `Interleaving` lets any number of operators interleave
  write transactions whose plans may be arbitrarily stale; `SerialRuns`, `IdentityRuns` (stored identities)
  and `KerberosRuns` (Kerberos files) follow operations one after another through both stores.
  `SerialRuns.PerformCreate`, `PerformDelete` and `PerformCleanup` show that the services take exactly the
  steps those runs are made of, the clean-up loop a run of its own.
* What AD prints of an account is a parameter of the create service, the same for every question of one run.
* Around it stand the port allocator, the purpose-string round trip, the sync reconciler and the ticket
  refresh script.

## Where the code does less than one might expect

Each of these is a lemma with the exact condition:

* Create's compensation removes by name when it has no container id, so a compensated failure restores the
  host if and only if the name was free (`ContainerCreate.RestoredExactly`).
* `validate_date` accepts unpadded dates while extend compares texts: the comparison is sound if and only if
  the accepted text has ten characters (`DateText.StringOrderSoundExactly`, `ContainerExtend.ShortRequestCanMoveBack`).
* A custom port purpose does not survive the round trip through the database unless the two ports are equal
  (`PortSpecs.CustomPurposeRoundTrip`); a `|` in any purpose breaks it unless nothing but further `|` follows
  (`PortSpecs.RoundTripExactly`).
* Without Kerberos a new user with a new, differently named group is given the same number twice
  (`Planner.PlainFreshIdsCoincide`).
* `manage-group` refuses a requested gid that is reserved, even if no group uses it (`GroupManagement.EnsureRefusedExactly`).
* Clean-up sources the env file it finds: if that file was written for another uid, the credential cache of
  whoever has that uid goes (`KerberosRuns.StaleEnvHitsExactly`). `KerberosRuns.FilesAreNeverTakenAway` therefore
  assumes that every Kerberos create plans with its user's one AD account and uid, failed ones included, for a
  failed create leaves its env file.
* Two usernames on one AD account share one identity row (`IdentityRuns.SharedAccountMovesTheRow`).
  The theorems of `IdentityRuns` assume no more than that the recorded creates of different usernames share no AD
  name and no object SID; a create that meets any other account is part of the run, and refused.
* An uncompensated create leaves an orphan whenever it leaves a container (`SerialRuns.UncompensatedOrphans`).
* Tickets stay alive from tick to tick if and only if ticks come no further apart than the reissue margin
  (`TicketRefresh.ContinuityExactly`).
* The refresh script empties the credential cache before it asks for a new ticket, so a live ticket can be lost
  (`TicketRefresh.LiveTicketLostExactly`).

## Model

| member | source | states |
|---|---|---|
| `Schema.NextAvailableId` | script/uid_manager/db.py:264-268 | The chosen id is at least the minimum and above every reserved id. |
| `Invariants.ExecKeepsValid` | nfs_mysql/init.sql:7-74 | No statement the program issues can break a primary, unique or foreign key of the seven tables. |
| `Invariants.ExecAllKeepsValid` | nfs_mysql/init.sql:7-74 | The same for any sequence of statements run as one transaction. |
| `Invariants.UpsertIdentityKeepsKeys` | script/uid_manager/db.py:297-346 | The ON DUPLICATE KEY upsert keeps username, principal, object SID and user id unique, whichever row it lands on. |
| `Repositories.Repository.Execute` | script/uid_manager/db.py:64-82 | A statement has its effect on the working copy inside a transaction and on the committed one outside; a raising one has none; without faults it raises exactly on a key violation. |
| `Repositories.Repository.Commit` | script/uid_manager/db.py:76-78 | A commit publishes the working copy, a raising one nothing. |
| `Repositories.Repository.Rollback` | script/uid_manager/db.py:80-82 | A rollback, with or without a begin, never changes what is committed. |
| `PortAllocator.AllocatePorts` | script/uid_manager/ports.py:9-29 | Refuses exactly when the block has too few free ports; otherwise hands out the smallest free ones of the server's hundred in increasing order, 22 and 8888 first, and maps exactly the container ports asked for. |
| `PortAllocator.ExtrasExactly` | script/uid_manager/ports.py:25-28 | With vnc the requested 6080s are dropped and nothing else; without it nothing is. |
| `PortAllocator.SmallestFreeUnique` | script/uid_manager/ports.py:13-28 | The ports handed out are determined by the server and the used ports alone. |
| `PortAllocator.ServersNeverCollide` | script/uid_manager/ports.py:10-11 | Allocations on different servers never share a host port. |
| `PortSpecs.ParseFixedPortMappings` | script/uid_manager/cli.py:35-68 | Accepts exactly the lists whose entries parse, whose host ports are distinct and which map 22 and 8888, and otherwise raises the first of these errors. |
| `Text.ParseIntExactly` | script/uid_manager/cli.py:46-50 | Exactly the decimal numbers with or without a sign are read, whatever white space stands around them. |
| `Text.StripDecomposes` | script/uid_manager/cli.py:41 | Stripping takes all white space off both ends of a text and nothing else. |
| `PortSpecs.FixedItemExactly` | script/uid_manager/cli.py:40-61 | A list item is skipped if it is blank and read as a mapping if and only if it is written as one: two numbers around a colon, and behind another the purpose, blank or missing for the usual one. |
| `PortSpecs.BuildPortArguments` | script/uid_manager/services/sync_containers.py:61-65 | The `-p` pairs sync builds are the bindings the stored text denotes, or its first parse error. |
| `PortSpecs.ParsePortSpecs` | script/uid_manager/services/sync_containers.py:84-92 | The loop over the joined text yields every non-empty entry split at its first colon, or the first error. |
| `PortSpecs.RoundTripExactly` | script/uid_manager/db.py:430 | For mappings in any order and with any purposes, printing them by port number and parsing the text gives back exactly their bindings, in that order, if and only if every purpose names its container port. |
| `PortSpecs.AllocationRoundTrip` | script/uid_manager/services/sync_containers.py:83-106 | Every automatic allocation survives the trip through the database, in the order it was made. |
| `PortSpecs.FixedRoundTrip` | script/uid_manager/cli.py:51-61 | Every list of fixed mappings without custom purposes, in any order, parses as written and comes back from the database as the same bindings, ordered by port number. |
| `PortSpecs.CustomPurposeRoundTrip` | script/uid_manager/services/sync_containers.py:95-106 | A custom purpose is stored as typed and rebinds correctly if and only if host and container port are equal and no separator inside it cuts off a piece. |
| `DateText.FormatParses` | script/uid_manager/db.py:427 | A stored date prints as a text that parses back to it. |
| `DateText.ParsesExactly` | script/uid_manager/validation.py:17-22 | A text is accepted if and only if it spells a date there is: a four-digit year, month and day with or without padding. |
| `Calendar.MonthLengths` | script/uid_manager/validation.py:19 | The lengths of the months follow the Gregorian count of leap days. |
| `DateText.TenCharactersCompare` | script/uid_manager/services/extend_container.py:36 | On ten-character dates the text comparison is the calendar comparison. |
| `DateText.StringOrderSoundExactly` | script/uid_manager/validation.py:17-22 | The text comparison never mistakes an earlier date for a later one if and only if the accepted text has ten characters. |
| `ContainerExtend.FindMatches` | script/uid_manager/services/extend_container.py:20-29 | Exactly the active rows of every requested domain whose owner and ports the filters name. |
| `ContainerExtend.Execute` | script/uid_manager/services/extend_container.py:31-67 | One match not later in any domain, or ambiguity, leaves every row of every domain as it was; success moves exactly the active rows the filters name, each of them; a raising update leaves the rows before it moved; without faults a request is refused if and only if its date, filters or matches do not allow it, and one with a ten-character date succeeds. |
| `ContainerExtend.ExpiryOnlyIncreases` | script/uid_manager/services/extend_container.py:36-48 | Over any run of extends with ten-character dates an expiry only moves forward. |
| `ContainerExtend.ShortRequestCanMoveBack` | script/uid_manager/services/extend_container.py:36 | For every shorter accepted text there is a stored date the service would move backwards. |
| `ContainerSync.PlanFromRecords` | script/uid_manager/services/sync_containers.py:13-31 | One step line per record and per host name without a record, each the text of its decision. |
| `ContainerSync.StepsReadBack` | script/uid_manager/services/sync_containers.py:49-58 | A step line parses back to exactly the decision that produced it. |
| `ContainerSync.StepTextTells` | script/uid_manager/services/sync_containers.py:15-31 | No two decisions about names docker accepts print the same step line: names, images, versions and users can be told from it. |
| `ContainerSync.LocalDocker.Execute` | script/uid_manager/services/sync_containers.py:42-59 | A dry run changes nothing, a successful apply has exactly the effects of its step lines, without auto-delete no name is removed, and without faults an apply succeeds. |
| `ContainerSync.Converges` | script/uid_manager/services/sync_containers.py:42-59 | A successful apply leaves the recorded names (with auto-delete nothing else) in the state the decisions aim at. |
| `ContainerSync.RunningExactly` | script/uid_manager/services/sync_containers.py:19-25 | After an apply a recorded container runs if and only if it was absent, exited or running. |
| `ContainerSync.SecondPlanIsOk` | script/uid_manager/services/sync_containers.py:13-31 | A second plan keeps every record, proposes no removal after auto-delete, and changes nothing. |
| `TicketRefresh.CredentialCache.Run` | script/uid_manager/kerberos/commands.py:624-657 | The script's imperative form leaves exactly the cache the specification says, and exits cleanly when it holds a ticket. |
| `TicketRefresh.RefreshExactly` | script/uid_manager/kerberos/commands.py:631-653 | A run renews the ticket, cut at its renew-until time, if and only if it is live, renewable for longer than the margin and the renewal works; otherwise the cache holds what the keytab login grants, or nothing. |
| `TicketRefresh.RefreshIsHealthy` | script/uid_manager/kerberos/commands.py:631-653 | After one run renew-until lies beyond the margin and the ticket lives at least the shorter of margin and lifetime. |
| `TicketRefresh.Continuity` | script/uid_manager/kerberos/commands.py:677-687 | Over unboundedly many timer ticks closer together than the margin the cache never expires between ticks. |
| `TicketRefresh.EndsWithinRenewTill` | script/uid_manager/kerberos/commands.py:646-653 | No renewed ticket ever outlives its renew-until time (sections 2.3 and 3.3.3 of RFC 4120). |
| `TicketRefresh.LiveTicketLostExactly` | script/uid_manager/kerberos/commands.py:649-653 | A live ticket is lost if and only if reissue or a failed renewal is followed by a failed keytab login. |
| `TicketRefresh.GapBeyondMarginLosesTicket` | script/uid_manager/kerberos/commands.py:641-643 | For every margin and every gap beyond it there are a grant and regular ticks, each with a working kinit, between which the ticket expires. |
| `TicketRefresh.ContinuityExactly` | script/uid_manager/kerberos/commands.py:677-687 | Every regular schedule keeps the ticket alive between ticks if and only if its gap does not exceed the margin. |
| `Planner.BumpId` | script/uid_manager/services/create_container.py:141-144 | The skip loop ends at the least value from the start on that AD does not use. |
| `Planner.SkipUsed` | script/uid_manager/services/create_container.py:161-162 | That value exists, is not used, and everything before it is. |
| `Planner.Prepare` | script/uid_manager/services/create_container.py:63-314 | A plan gives the request the ids, names and ports it asked for or that were found for it; an error has its grounds in the request and the rows read; without faults a plan is returned if and only if no error has grounds. |
| `Planner.AcceptableExactly` | script/uid_manager/services/create_container.py:63-168 | The planner's guards hold if and only if none of the refusals it can raise has grounds: malformed names or dates, unusable ports, unmanaged, taken or contradicted ids, a storage home or an AD account that disagrees. |
| `Planner.PlanMeetsRequest` | script/uid_manager/services/create_container.py:109-172 | A planned id is the requested one if one was requested, else the found user's or group's, AD's, or the storage home's, in that order; requested ids are managed and nobody else's. |
| `Planner.PlanPortsMeetRequest` | script/uid_manager/services/create_container.py:86-100 | Fixed mappings are planned as given; otherwise 22, 8888, vnc's 6080 and every extra are mapped inside the server's block; no planned host port is recorded or in use. |
| `Planner.IdentityNameExactly` | script/uid_manager/validation.py:8-14 | Names are accepted if and only if they have one to 64 characters of the listed ones and do not start with a digit, a dot or a dash. |
| `Planner.AutomaticIdsAreFresh` | script/uid_manager/services/create_container.py:139-162 | An automatic uid or gid was never reserved; with Kerberos each is the least value from the next unreserved one on that AD does not use, the gid passing over the uid as well. |
| `Planner.PlainFreshIdsCoincide` | script/uid_manager/services/create_container.py:140-157 | Without Kerberos a new user and a new other group get the same number. |
| `CreateTransaction.ReserveStage` | script/uid_manager/services/create_container.py:351-354 | What the reservations do, and that with insertable ids they succeed. |
| `CreateTransaction.IdStage` | script/uid_manager/services/create_container.py:351-357 | The id, group and user statements succeed if and only if no new id belongs to someone else. |
| `CreateTransaction.PortStage` | script/uid_manager/services/create_container.py:360-361 | The port statements succeed if and only if the host ports are distinct and free. |
| `CreateTransaction.PortsAndContainerStage` | script/uid_manager/services/create_container.py:360-363 | The port and container statements together: exactly when they succeed and exactly what they leave. |
| `CreateTransaction.CreateRecords` | script/uid_manager/services/create_container.py:349-364 | A committed create has its user, exactly its ports attached to its one new active container row, and has lost nothing, whatever tables the plan was made from. |
| `CreateTransaction.OwnerIsAsPlanned` | script/uid_manager/db.py:283-295 | The owner ends up with the planned name, uid and primary group, and usernames stay unique. |
| `CreateTransaction.GroupIsAsPlanned` | script/uid_manager/services/create_container.py:355-356 | A new group is on record under its planned gid. |
| `CreateTransaction.RecordIsStored` | script/uid_manager/db.py:297-346 | A committed record stands whole in some row, under that row's username, and every other identity row is as before. |
| `CreateTransaction.RefusedExactly` | script/uid_manager/services/create_container.py:349-370 | On tables its plan fits, a create with any identity record or none is refused if and only if a new id is someone's, a port is taken or repeated, the container id is on record, or the record collides with two stored identities at once. |
| `CreateTransaction.GuardsSuffice` | script/uid_manager/services/create_container.py:86-171 | For new and adopted-home identities, with or without Kerberos and for every kind of group and ports, the planner's guards alone imply that no id, group, user, port or container statement violates a key: only the identity record can be refused, exactly when it collides with two rows. |
| `Transactions.Issue` | script/uid_manager/services/create_container.py:350-363 | One more statement of an open transaction continues the specification's run by exactly that statement. |
| `Interleaving.RunIsSafe` | script/uid_manager/services/create_container.py:349-370 | Whatever interleaves and whatever fails: uids and gids are unique, every foreign key holds, every port row belongs to one active container. |
| `Interleaving.PortsAreTheActiveContainers` | script/uid_manager/db.py:364-386 | Between transactions used_ports is the disjoint union of the active containers' ports, and a deleted container holds none. |
| `Interleaving.StepPorts` | script/uid_manager/db.py:446-454 | A committed step adds only new ports, one per planned mapping, and frees exactly those of the rows it releases. |
| `Interleaving.PortsConserved` | script/uid_manager/db.py:364-386 | Over any run the number of port rows changes by exactly the ports allocated minus the ports freed. |
| `Interleaving.UsedIdsGrow` | script/uid_manager/db.py:264-281 | used_ids only grows unless users are deleted together with their ids. |
| `Interleaving.AutomaticIdsNeverReissued` | script/uid_manager/services/create_container.py:139-162 | An automatic uid or gid was never the id of any user or group earlier in the run, deleted groups included. |
| `Interleaving.SameIdReservedTwice` | nfs_mysql/init.sql:7-8 | Two commits reserve the same id only if ids were given back in between. |
| `Interleaving.SamePortCommittedTwice` | nfs_mysql/init.sql:68-74 | Two committed creates hold the same host port only if it was released in between. |
| `Interleaving.LoserChangesNothing` | script/uid_manager/services/create_container.py:349-370 | Of two creates that planned the same fresh id or port at most one commits; the loser leaves the tables unchanged. |
| `Interleaving.StalePlansContend` | script/uid_manager/services/create_container.py:139-144 | Two plans for new users made from the same tables choose the same uid, hence contend. |
| `UserDeletion.DeleteUsersScript` | maintenance/delete_user.py:70-179 | Either the whole deletion is committed or nothing is; a committed one takes exactly the named users' rows; without faults it is if and only if it was confirmed, some user exists and no row holds on. |
| `UserDeletion.DeletionExactly` | maintenance/delete_user.py:105-174 | Whether groups and ids are kept or not: refused if and only if a membership or identity row holds on; otherwise of every table exactly the users' rows go (a container by its owner, a port with its container, a group that is primary to nobody else, a uid no surviving group uses) and every other row stays as it was. |
| `GroupManagement.InsertNewGroup` | script/uid_manager/services/manage_group.py:75-83 | Both rows of a new group are committed or neither; without faults both if and only if the schema accepts them. |
| `GroupManagement.EnsureGroup` | script/uid_manager/services/manage_group.py:66-84 | Returns the existing group's gid or commits a new one under the requested id or the next one above every reserved id; a mismatch or fault changes nothing. |
| `GroupManagement.MakePrimary` | script/uid_manager/db.py:474-480 | On success the user has the primary group and no membership doubling it; a fault between the two statements still keeps every key. |
| `GroupManagement.AddAll` | script/uid_manager/services/manage_group.py:109-123 | On success every named user is in the group; only memberships of named users in that group are added. |
| `GroupManagement.RemoveAll` | script/uid_manager/services/manage_group.py:130-144 | On success no named user is in the group in any way; only memberships of named users in that group are dropped. |
| `GroupManagement.DeleteGroupRows` | script/uid_manager/services/manage_group.py:145-155 | On success exactly the group and its memberships are gone, it was nobody's primary group, and force was given if it had members. |
| `GroupManagement.Execute` | script/uid_manager/services/manage_group.py:86-161 | Every action meets its purpose for exactly the users the request names or raises; whatever happens no key breaks, no reference dangles and nothing outside the action's frame changes; it succeeds only when group and users fit, after exactly the Samba commands the action calls for, and without faults whenever they fit. |
| `GroupManagement.EnsureRefusedExactly` | script/uid_manager/services/manage_group.py:77-80 | The transaction is refused if and only if the gid is already reserved. |
| `GroupManagement.AutomaticGidAccepted` | script/uid_manager/services/manage_group.py:74 | An automatically chosen gid is never refused by the schema. |
| `KerberosPathNames.FilesDisjointExactly` | script/uid_manager/kerberos/paths.py:60-79 | Two identities share a file on a host if and only if they share the AD name or the uid. |
| `KerberosPathNames.KindsDiffer` | script/uid_manager/kerberos/paths.py:60-79 | A keytab, an env file and a credential cache never have the same path. |
| `KerberosPathNames.CreatePathsAre` | script/uid_manager/kerberos/paths.py:60-79 | Keytab and env file are named after the account and the credential cache after the uid, in the domain's directories. |
| `KerberosPathNames.DeleteRecomputesExactly` | script/uid_manager/services/delete_container.py:103-128 | Delete recomputes create's files if and only if the stored AD name and the owner's uid are the planned ones, whatever the realm. |
| `KerberosIdentity.SetFieldsAreFixed` | script/uid_manager/services/create_container.py:813-832 | Once every stored field is set, validation accepts exactly the same account. |
| `KerberosIdentity.BuiltNamesThePlan` | script/uid_manager/services/create_container.py:776-811 | Every value AD reported stands in the record under its own name, account and numbers are the plan's, and no text is missing. |
| `KerberosIdentity.PlannedAccountIsBuilt` | script/uid_manager/services/create_container.py:776-811 | What AD prints of the planned account is accepted if and only if no text is missing. |
| `KerberosIdentity.AgreesExactly` | script/uid_manager/services/create_container.py:813-832 | Validation passes if and only if filling the unset stored fields from AD turns the stored account into the reported one. |
| `KerberosIdentity.FindIdentity` | script/uid_manager/db.py:217-246 | Returns some row stored under the username or pointing at the user of that name, none only if there is no such row. |
| `KerberosIdentity.ValidateIdentity` | script/uid_manager/services/create_container.py:813-832 | Passes only if there is no stored row or one that agrees. |
| `Fleets.Fleet.RunContainer` | script/uid_manager/services/create_container.py:341-347 | A taken name fails; a new container has a fresh id, which the output may lose; a failing command may leave a container. |
| `Fleets.Fleet.RemoveForce` | script/uid_manager/services/delete_container.py:67 | Removes the containers with the id or, where none has it, the one of the name; success leaves no container with the id. |
| `Fleets.Fleet.CleanUp` | script/uid_manager/kerberos/commands.py:701-732 | Removes the env file and the two files it names, or the recomputed ones when there is no env file, and nothing else. |
| `ContainerCreate.VerifyAccess` | script/uid_manager/services/create_container.py:467-494 | Succeeds only after owner and write checks passed, in the first round or, after a failed write check and a refresh of the identity caches, in the second; raises only if a command or both write checks failed. |
| `ContainerCreate.PrepareKerberos` | script/uid_manager/services/create_container.py:496-567 | Success leaves a validated record that holds AD's realm, NetBIOS name and SIDs, and all three files on the target host; nothing but those files is ever written, no container is started, and every checked command went through; without faults it succeeds when AD reports the planned account and the stored row agrees. |
| `ContainerCreate.WriteRecords` | script/uid_manager/services/create_container.py:349-364 | Commits exactly the specification's transaction or nothing; without faults the former if and only if no key refuses it. |
| `ContainerCreate.RunGuarded` | script/uid_manager/services/create_container.py:338-370 | The guarded block and its error path: success adds exactly the container and the records; failure leaves the tables, and after compensation, which without faults takes place, no container under the name. |
| `ContainerCreate.RestoredExactly` | script/uid_manager/services/create_container.py:368-369 | A compensated failure restores the host if and only if the name was free to begin with. |
| `ContainerCreate.Execute` | script/uid_manager/services/create_container.py:316-375 | Dry runs and refused plans change nothing, no-record creates leave the tables alone, a Kerberos create stores what AD reported in one identity row, and with Kerberos a container is started only after the checks passed; success leaves the container with the planned user, uid, account and files under its name and means that every checked command, from the image pull to the inspection, went through; without database faults a rejection has a failed command or two failed write checks behind it, and without faults a create under a free name whose records the schema accepts succeeds, with Kerberos when AD reports the planned account and the stored row agrees. |
| `ContainerDelete.ShouldCleanUp` | script/uid_manager/services/delete_container.py:89-93 | True exactly when an identity row of the user exists and no other active container of the user is on the server. |
| `ContainerDelete.CleanUpIfUnused` | script/uid_manager/services/delete_container.py:95-101 | Cleans up only then, only the files of a matching identity, and then the env file is gone. |
| `ContainerDelete.Execute` | script/uid_manager/services/delete_container.py:57-87 | Exactly the one active row of the server that has everything the request names is released, once its container is gone, or the tables are untouched; no container but the record's is removed; success means no checked command failed; without faults it is rejected if and only if not exactly one such row exists. |
| `ExpiredCleanup.CleanRow` | script/uid_manager/services/expired_cleanup.py:45-54 | One row's transaction releases it after its container is gone, or leaves the tables as they were. |
| `ExpiredCleanup.CleanDomain` | script/uid_manager/services/expired_cleanup.py:31-54 | Whatever fails, exactly the first rows of the list are released, every released row's container is gone, and every iteration meets its record as it was read. |
| `ExpiredCleanup.Execute` | script/uid_manager/services/expired_cleanup.py:20-71 | The released rows are exactly a prefix in processing order across domains, each past its expiry, with the names asked for and its container gone; every other row is as it was; a finished apply leaves no matching expired row, and without faults an apply finishes. |
| `ExpiredCleanup.NoneLeft` | script/uid_manager/db.py:461-463 | Releasing the expired rows leaves none. |
| `SerialRuns.PerformCreate` | script/uid_manager/services/create_container.py:316-375 | The create service takes a create step of the run model, or changes nothing; without faults an unimpeded create succeeds, with Kerberos one whose account AD reports as planned. |
| `SerialRuns.PerformDelete` | script/uid_manager/services/delete_container.py:57-87 | The delete service takes a delete step of the run model, or changes nothing. |
| `SerialRuns.PerformCleanup` | script/uid_manager/services/expired_cleanup.py:31-54 | The loop over a domain's expired rows is a run of clean-up steps from the world before to the world after, a row whose transaction raised being the last step; a finished apply leaves no expired row. |
| `SerialRuns.GuardsAcceptRecords` | script/uid_manager/services/create_container.py:86-171 | For new and adopted-home identities the planner's guards make the schema accept the records, under any id docker may issue, if and only if the identity record collides with at most one row. |
| `SerialRuns.AllOrNothing` | script/uid_manager/services/create_container.py:338-370 | Success: container on the host, user, group, ids, ports and container row committed. Otherwise: tables as before, and after compensation the containers too, if and only if the name was free. |
| `SerialRuns.RunsLeaveNoOrphans` | script/uid_manager/services/delete_container.py:61-72 | Over every serial run with faults anywhere, as long as the compensating removals work, every recorded container still on a host has an active row that agrees with it. |
| `SerialRuns.UncompensatedOrphans` | script/uid_manager/services/create_container.py:365-370 | A failure whose removal did not work leaves an orphan if and only if it left a container. |
| `KerberosRuns.FilesAreNeverTakenAway` | script/uid_manager/services/delete_container.py:57-72 | When every Kerberos create plans with its user's one AD account and the compensations work, a recorded Kerberos container on a host always has its keytab, env file and credential cache there. |
| `KerberosRuns.CleanupIsOwn` | script/uid_manager/services/delete_container.py:89-128 | When clean-up runs, the recomputed paths are the ones create computed for the user's account. |
| `KerberosRuns.TargetsAreOwn` | script/uid_manager/kerberos/commands.py:713-727 | Whatever env file it sources, the clean-up script removes only that account's files. |
| `IdentityRuns.UpsertsOwnRow` | script/uid_manager/db.py:297-346 | Where no other username's row has the record's AD name or SID, the upsert writes the user's own row and no other. |
| `IdentityRuns.AccountsConflictExactly` | script/uid_manager/db.py:297-346 | Two users' records share a key of the identity table if and only if AD reported one object SID, or one account name in one realm, for both, or both belong to one user. |
| `IdentityRuns.IdentitiesAreStable` | script/uid_manager/services/create_container.py:813-832 | Over every run in which recorded creates of different usernames share no account, once all stored fields of a user are set nothing later changes any of them, whatever AD reported in between. |
| `IdentityRuns.StoredUidIsTheUsers` | script/uid_manager/services/create_container.py:794-799 | In such runs, at every quiescent point, the stored uid number is the uid of the user, whatever uids creates asked for. |
| `IdentityRuns.ContainersRunAsStored` | script/uid_manager/services/create_container.py:794-799 | Where compensations worked as well, every recorded container of the user still on a host runs under the stored uid number. |
| `IdentityRuns.DifferingAccountIsRefused` | script/uid_manager/services/create_container.py:813-832 | A Kerberos create for a user with all fields stored gets as far as docker run only if AD reports exactly the stored account; any difference leaves tables and containers as they were. |
| `IdentityRuns.KerberosGuardsSuffice` | script/uid_manager/services/create_container.py:349-364 | With unshared accounts the planner's guards alone make the schema accept a Kerberos create, identity statement included. |
| `KerberosRuns.StaleEnvHitsExactly` | script/uid_manager/kerberos/commands.py:718-727 | An env file written for another uid makes clean-up remove another identity's cache if and only if that uid is theirs. |
| `IdentityRuns.SharedAccountMovesTheRow` | script/uid_manager/db.py:297-346 | A second username takes over the first one's identity row if and only if they share principal, object SID or user. |
| `KerberosRuns.FreshInstallation` | nfs_mysql/init.sql:7-74 | An empty installation meets what the run theorems assume of the start. |

## Left out

* Post actions (e-mail, database backup, exports): an exception from them after the commit leaves the create or delete in place.
* Passwords, plan rendering and command redaction, argument parsing other than fixed port mappings, schema migration.
* Ansible and SSH text, Samba and NAS command bodies: one abstract remote command each, which may raise. In `ContainerCreate` consecutive commands that touch no container and no keytab, env file or credential cache on a host are one such command.
* AD state and its rollback (the program attempts none), replication, NSS and idmap caches, which host answers for AD.
* The supplemental groups passed to `docker run`, the image, memory and mount arguments.
* Table columns no key and no decision depends on (image, version, e-mail, phone, note, created_by, timestamps); surrogate ids of identity and membership rows.
* Collation of MySQL string comparison (exact here), LIKE wildcards in container ids, integer column range, VARCHAR and GROUP_CONCAT truncation.
* Reads of one operation see one snapshot of the tables; other operators come in between operations (`SerialRuns`) or between a plan and its transaction (`Interleaving`).
* Username and group-name uniqueness under interleaving: the schema does not enforce it. It is proved for serial runs only.
* A commit whose acknowledgement is lost counts as not committed.
* Unicode digits and white space and the digit-group underscores that `int()` and `strip()` also accept.
* Parsing of `docker ps` and `klist` output; the order of rows MySQL leaves open and the sorting of extra host names.
* Deleting users is not part of the serial runs: it removes rows without touching hosts, so it would orphan containers by design.
* `GroupManagement.Execute`: what Samba makes of its commands is not modelled; a raising action may have moved some of the named users already.
