# Verified models of the platform's protocols, deletions and package loaders

A Dafny 4.11 project that models five parts of the repository and proves what each promises over all inputs or all
runs. `dafny verify dfyconfig.toml` checks the whole project.

| files | what they model |
|---|---|
| `FileSystem`, `Paths`, `Containment`, `PackageFiles` | a POSIX tree with symbolic links, the operating system's path walk, and the package path resolver proved against that walk |
| `RequestStore`, `LinkProtocol`, `LinkAnswers`, `LinkBounds`, `LinkForecast`, `LinkRuns`, `LinkLife`, `LinkOverlap`, `TokenService` | the account-deletion link: one table, atomic statements, any number of interleaved callers |
| `Database`, `Cascade`, `Inventory`, `AccountDeletion`, `DeletionService`, `DeletionAudit`, `Succession`, `KeptContent`, `DeletionPhases`, `DeletionOutcome`, `DeletionIntegrity`, `DeletionFailure`, `DeletionCounts`, `PreviewOutcome`, `PersonalRows`, `KeptExample` | the deletion routine over relational state, from the workspace plan to the closing transaction and the audit row, with every foreign key either cascading or setting null |
| `ExportStream`, `ExportOutcome` | the streamed export with its keepalive, in every order of events |
| `Names`, `NameReading`, `Ordering`, `SkillFrontmatter`, `SkillRoundTrip`, `SkillExport`, `SkillDiscovery`, `SkillsFound`, `SkillContents`, `Mcp`, `McpOutcome`, `McpEntries`, `McpContainment` | names and their repair, skill export and import, the skill loader and the MCP server loader |
| `Bootstrap`, `Reconcile` | the reconciler bootstrap with rollback, and the de-duplication of activity reconciliation |

How the models are built:

- Objects that change state are classes whose methods state their whole new state through a function; protocols with
  several callers are step functions over a state, and the results speak of every sequence of events. An event that does
  not apply changes nothing, so a sequence may hold any events at all.
- What lies outside is a parameter: the clock, the answer of an awaited call, which statements the database refuses,
  where an uncaught error is thrown, what a YAML or JSON parser returns, SHA-256 (injective), fresh tokens, URL parsing.
- A row of a table has its `userId` and workspace columns, and the sets of things its other foreign keys name, those that
  cascade and those that set null; the schema says what the keys of the columns do. A delete takes what hangs on it and
  clears the keys that set null.
- `Text` has the string operations of the runtime the code calls, on strings of UTF-16 code units without surrogates.

## Findings

The proofs fix the exact condition under which a promise holds where the code does not meet it everywhere.

- `packages/agent-plugins/src/paths.ts:67` slices one character too many when the nearest existing ancestor is the
  filesystem root: `/ab` on a machine without it comes back as `/b` (`Containment.WalkUpAtTheFilesystemRoot`). The
  comment at lines 43-45 promises the remainder unchanged. It is unchanged exactly when the path is the root itself or
  its first name exists (`Containment.WalkUpKeepsTheRemainder`).
- `packages/agent-plugins/src/serialize.ts:330` asks `key in data`, which is also true of what every object inherits, so
  an accepted unknown key such as `constructor` is dropped on export. Unknown keys survive exactly when none of them is
  such a name (`SkillRoundTrip.UnknownKeysSurvive`, `SkillRoundTrip.ConstructorKeyIsDropped`).
- `packages/agent-plugins/src/serialize.ts:119-125` tells an empty slug that it contains forbidden characters
  (`Names.SkillReasonIsTrue`).
- `apps/api/src/account-deletion/account-deletion-token.service.ts:86-90` promises at most three links per address per
  hour and that a new request revokes the earlier ones. `issue` takes several awaited steps without a lock, and four
  overlapping requests leave four usable links of one instant (`LinkOverlap.OverlappingRequestsBreakBothBounds`). The
  exact conditions count the requests that can still insert a link: those past the hourly count, and those that would
  pass it now.
  - One usable link: from a state, no run without a further request comes to two if and only if there is at most one
    now, at most one request can still insert, and none is usable once that one is about to
    (`LinkForecast.PendingForecast`). A run stays in such states if and only if each request for the address starts when
    it will be rate-limited or no other can still insert (`LinkRuns.PendingDiscipline`).
  - Three an hour: the bound holds now, and the links of the last hour together with the requests that can still insert
    are at most three (`LinkForecast.HourForecast`, `LinkRuns.HourDiscipline`).
  - Both hold when no request for an address starts before the one before it has inserted; it may still be mailing
    (`LinkRuns.OnePendingLink`, `LinkRuns.AtMostThreePerHour`). That a link is used at most once and only before it
    expires needs no condition.
- `apps/api/src/account-deletion/account-deletion.inventory.ts:1-10` promises that the content of a workspace that stays
  is handed over and stays. A listed row can have another cascading key. Every MCP binding hangs on its connection, which
  is not handed over (`KeptExample.TheBindingGoesWithItsConnection`); a member's personal model account names its person
  by `ownerUserId` as well, and that key cascades (`KeptExample.TheModelAccountGoes`). Both are handed over, every
  statement accepted, and deleted all the same. A handed-over row stays if and only if no chain of cascading keys leads
  from it to a row that goes on its own (`DeletionOutcome.ContentStays`). A row does not go on its own if and only if no
  cascading key of its but the creator names the account, a Tenant that goes or one of its Organizations, and it is
  somebody else's, or taken over, or in a table whose creator key does not cascade and wanted by no phase
  (`DeletionOutcome.SafeIff`); all of that can be read off the database before the call, the plan and the statements
  refused.
- For the same reason other people's rows can go: a collaborator's seat on a Work the account owns
  (`KeptExample.TheSeatGoesWithTheWork`), a view someone else owns and the account made
  (`KeptExample.TheViewGoesWithItsMaker`). The same condition is exact for them; a row that stays is unchanged if and
  only if no key of its that sets null names anything gone (`DeletionOutcome.OthersStay`).
- `apps/api/src/account-deletion/account-deletion.service.ts:104-106` says that with its sole member a workspace and
  everything in it goes, and the preview counts other people's Works there as deleted. Works forget their Tenant instead:
  such a Work is announced and stays (`KeptExample.TheAnnouncedWorkStays`). The announced number is that of the missing
  Works if and only if the announced Works that stay are as many as the others that go
  (`PreviewOutcome.AnnouncedAgainstMissing`). With the keys Works have, these are other people's Works in the workspace
  that goes, and the account's own Works in workspaces that stay whose statement was refused
  (`PreviewOutcome.AnnouncedUnderUsualKeys`).
- `packages/agent-plugins/src/serialize.ts:262-264` promises a fixed field order. An object lists keys that are array
  indexes before all others, so an unknown key such as `1` is written before the name (`SkillRoundTrip.IndexKeyComesFirst`).
  The order is as promised if and only if no unknown key is an array index (`SkillRoundTrip.OrderIsFixed`).
- `packages/agent-plugins/src/serialize.ts:336-340` promises that the body is written back exactly as given. The
  front-matter library parses the body it is handed, so a body that itself opens with a block of fields loses the block
  to the head of the file. It is written back as given if and only if it does not open with one
  (`SkillRoundTrip.BodyIsKept`).
- `packages/agent-plugins/src/mcp.ts:570-580` promises that a plugin-relative command or `cwd` of a loaded server stays in
  the plugin root. Lines 608-609 and 642-645 take off `./`, or one anchor and one slash; what is left may begin with a
  slash, and then `paths.ts:125` resolves it from the filesystem root, where it may lead into the package while the file
  it names does not (`McpContainment.TheTwoSlashesLeave`). A backslash parts names for the check and is a character of a
  name for a POSIX system. The promise holds, whatever the package, the machine and the client, if and only if the text
  left is relative and without a backslash, or names nothing, or begins with the configuration's own file
  (`McpContainment.CommandHoldsIff`, `McpContainment.CwdHoldsIff`).

## Model

| member | source | states |
|---|---|---|
| `Containment.ContainmentIsTheWalk` | packages/agent-plugins/src/paths.ts:114-159 | for a canonical root and any relative value without backslashes whose OS walk succeeds, the resolver arrives at the walk's target, and answers inside exactly when the root's segments are a prefix of the target's |
| `Containment.FollowIsWalk` | packages/agent-plugins/src/paths.ts:146-159 | segment by segment, from any canonical place, the resolver follows links as the OS does, whatever links were used up before |
| `Containment.WithinIffPrefix` | packages/agent-plugins/src/paths.ts:80-90 | the text comparison with `relative` decides the prefix relation of segment lists, both directions |
| `Containment.AbsoluteValueIsTheWalk` | packages/agent-plugins/src/paths.ts:124-128 | an absolute value without `..` that exists resolves to its OS walk and is accepted exactly when that lies under the root |
| `Containment.WalkUpKeepsTheRemainder` | packages/agent-plugins/src/paths.ts:51-71 | the result is the longest existing ancestor's real path plus the missing names in order, if and only if the path is the filesystem root or its first name exists |
| `Containment.WalkUpAtTheFilesystemRoot` | packages/agent-plugins/src/paths.ts:62-68 | a concrete input that loses a character |
| `Containment.WalkUpWithoutRoot` | packages/agent-plugins/src/paths.ts:62-66 | with nothing readable the lexical path comes back |
| `Containment.PendingPathIsContained` | packages/agent-plugins/src/paths.ts:131-159 | a path about to be created is judged by where its existing part leads, with the missing names under it |
| `Paths.ResolveRealPath` | packages/agent-plugins/src/paths.ts:51-71 | the walk up over path texts terminates and computes the real path of the nearest existing ancestor with the segments put aside |
| `Paths.ResolveRelativeSegments` | packages/agent-plugins/src/paths.ts:146-159 | the loop over path texts is the segment-level following |
| `Paths.ResolveWithinRoot` | packages/agent-plugins/src/paths.ts:114-129 | the three answers of the check |
| `FileSystem.WalkFromCanonical` | packages/agent-plugins/src/paths.ts:153-156 | the OS walk of a canonical path plus more components follows only those components |
| `PackageFiles.ContainedMeansInside` | packages/agent-plugins/src/paths.ts:114-129 | for the package's own names that exist under any root text, passing the check means lying under the real root, both directions |
| `RequestStore.Store.Claim` | apps/api/src/account-deletion/account-deletion-request.store.ts:97-107 | the one conditional update: won exactly when a pending, unexpired row had the token, and none is claimable afterwards |
| `RequestStore.Store.Insert` | apps/api/src/account-deletion/account-deletion-request.store.ts:82-91 | appends, or is refused by the unique token index and changes nothing |
| `RequestStore.Store.ClearUser` | apps/api/src/account-deletion/account-deletion-request.store.ts:113-116 | pending links revoked, and no row names the account any more |
| `RequestStore.Store.RevokePending` | apps/api/src/account-deletion/account-deletion-request.store.ts:74-80 | the pending links of the one address are revoked; every other row, of that address or another, is as it was |
| `RequestStore.Store.Update` | apps/api/src/account-deletion/account-deletion-request.store.ts:109-111 | the columns the patch names change, in one row |
| `RequestStore.Store.CountIssuedSince` | apps/api/src/account-deletion/account-deletion-request.store.ts:68-72 | the number of e-mail links of the address created since then, each once; audit rows and other addresses do not count |
| `RequestStore.SameAddress` | apps/api/src/account-deletion/account-deletion.tokens.ts:39-45 | two addresses are one if and only if they are equal but for case and the white space around them |
| `LinkProtocol.NeverBackToPending` | apps/api/src/account-deletion/account-deletion-request.store.ts:74-116 | in every interleaving rows stay the same links, and none that left pending returns to it |
| `LinkProtocol.AtMostOneWinner` | apps/api/src/account-deletion/account-deletion-request.store.ts:97-107 | in every run at most one claim of a token wins |
| `LinkProtocol.WonClaims` | apps/api/src/account-deletion/account-deletion-request.store.ts:97-107 | in every reachable state won claims have different tokens, and each used its link strictly before the expiry |
| `LinkProtocol.SupersededLinkNeverWins` | apps/api/src/account-deletion/account-deletion-token.service.ts:157-157 | after a request of the address has revoked, no link that was there is ever claimed |
| `LinkLife.RequestsKeepToTheirAddress` | apps/api/src/account-deletion/account-deletion-token.service.ts:135-183 | in every reachable state no step of a request changes a row of another address, nor one of its own that is not pending but for the row it mails for |
| `LinkLife.PendingUntilClosed` | apps/api/src/account-deletion/account-deletion-request.store.ts:74-116 | over every run a pending link stays pending if and only if no step closes it: a claim of it in time, a request for its own address, its own failed mail, the deletion of its user, or the record of a deletion on it |
| `LinkLife.InsertedLinkLives` | apps/api/src/account-deletion/account-deletion-token.service.ts:157-167 | an inserted link names its recipient, carries its token, and over every run can be claimed at a moment if and only if nothing has closed it and the moment is before its expiry |
| `LinkLife.RecordsOnLinks` | apps/api/src/account-deletion/account-deletion-request.store.ts:109-111 | what a deletion writes on the link it was asked for by |
| `LinkForecast.PendingForecast` | apps/api/src/account-deletion/account-deletion-token.service.ts:135-183 | from any state, no run without a further request comes to two usable links if and only if there is at most one, at most one request can still insert, and no link is usable when that one is about to |
| `LinkForecast.HourForecast` | apps/api/src/account-deletion/account-deletion-token.service.ts:142-148 | from any state of a clock that only goes forward, no run without a further request puts four links in a closed hour if and only if none holds four and the last hour's links plus the requests that can still insert are at most three |
| `LinkRuns.RequestKeepsPendingSafe` | apps/api/src/account-deletion/account-deletion-token.service.ts:135-157 | a new request keeps the first condition exactly when it will be rate-limited or no other request can still insert |
| `LinkRuns.RequestKeepsHourSafe` | apps/api/src/account-deletion/account-deletion-token.service.ts:135-148 | a new request keeps the second condition exactly when it will be rate-limited or there is room for one more |
| `LinkRuns.PendingDiscipline` | apps/api/src/account-deletion/account-deletion-token.service.ts:135-183 | a whole run keeps the first condition if and only if each request for the address starts where it may |
| `LinkRuns.HourDiscipline` | apps/api/src/account-deletion/account-deletion-token.service.ts:135-183 | the same of the hourly condition |
| `LinkRuns.OnePendingLink` | apps/api/src/account-deletion/account-deletion-token.service.ts:152-182 | when no request for an address starts before the one before it has inserted, it never has two usable links |
| `LinkRuns.AtMostThreePerHour` | apps/api/src/account-deletion/account-deletion-token.service.ts:142-167 | under the same condition no closed span of 3 600 000 milliseconds holds more than three of its links |
| `LinkAnswers.AnswerLeavesTheNewLink` | apps/api/src/account-deletion/account-deletion-token.service.ts:157-182 | with requests of an address one at a time, right after sent only this request's own link, with the mailed token and the expiry counted from its start, can be pending; right after send-failed none is |
| `LinkOverlap.OverlappingRequestsBreakBothBounds` | apps/api/src/account-deletion/account-deletion-token.service.ts:142-167 | overlapping requests can break both bounds: a concrete run |
| `TokenService.LinkService.Issue` | apps/api/src/account-deletion/account-deletion-token.service.ts:135-183 | an uninterrupted request: limited exactly by three links of the address in the last 3 600 000 milliseconds; without an account nothing changes; else the pending links of this address, and no other row, are revoked; after sent the new link names the recipient and can be claimed exactly until its expiry, after send-failed never; refused addresses change nothing |
| `TokenService.LooseEmailIff` | apps/api/src/account-deletion/account-deletion-token.service.ts:77-77 | an address is taken if and only if it reads as a mailbox, an `@`, a host, a dot and a suffix, without white space or a further `@` |
| `TokenService.LinkService.Inspect` | apps/api/src/account-deletion/account-deletion-token.service.ts:186-195 | answers exactly when a claim at that instant would win |
| `TokenService.LinkService.ClaimLink` | apps/api/src/account-deletion/account-deletion-token.service.ts:201-215 | wins exactly for a well-formed token with a claimable row, which is consumed |
| `TokenService.IssueAloneIsARun` | apps/api/src/account-deletion/account-deletion-token.service.ts:135-183 | the service's request is the protocol machine's run of one caller alone |
| `Succession.SuccessorIsEligible` | apps/api/src/account-deletion/account-deletion.service.ts:320-340 | there is a successor exactly when some other user of the Tenant owns none, and the successor is such a user |
| `Succession.AdminSucceeds` | apps/api/src/account-deletion/account-deletion.service.ts:333-337 | with an eligible admin, the successor is the one who joined first |
| `Succession.MemberSucceeds` | apps/api/src/account-deletion/account-deletion.service.ts:334-337 | else the eligible roster member who joined first |
| `Succession.UserSucceeds` | apps/api/src/account-deletion/account-deletion.service.ts:335-337 | else the eligible user created first, named ones before anonymous ones |
| `Succession.PlanShows` | apps/api/src/account-deletion/account-deletion.service.ts:304-380 | the Organizations, other members and role a plan shows: all Organizations to the owner, to a member those it belongs to, the oldest first; an admin in any of them is one |
| `KeptContent.PlansAreSound` | apps/api/src/account-deletion/account-deletion.service.ts:286-340 | successors are other, existing accounts, a new Tenant owner owns none, no workspace is planned twice |
| `KeptContent.EveryWorkspaceIsPlanned` | apps/api/src/account-deletion/account-deletion.service.ts:286-302 | the workspaces planned are exactly those the account owns or is a member of |
| `KeptContent.AllHandOversRow` | apps/api/src/account-deletion/account-deletion.service.ts:449-493 | after any number of hand-overs every row is in its place with all but its creator unchanged, and the creator is what one hand-over statement after another makes of it |
| `KeptContent.HandedToSuccessor` | apps/api/src/account-deletion/account-deletion.service.ts:449-493 | a row of the account goes to the successor of the one workspace whose statement takes it, and to nobody before that workspace's turn |
| `KeptContent.CoveredMeans` | apps/api/src/account-deletion/account-deletion.service.ts:457-511 | which rows are content of a workspace: in a listed table the database has with the column the list names, placed by it in the Tenant or one of its Organizations |
| `KeptContent.CoveredOnce` | apps/api/src/account-deletion/account-deletion.inventory.ts:30-79 | no two workspaces cover the same content row |
| `Inventory.ContentTablesAreDistinct` | apps/api/src/account-deletion/account-deletion.inventory.ts:30-79 | no content table is listed twice, and Works go by Tenant |
| `Inventory.ContentScoped` | apps/api/src/account-deletion/account-deletion.inventory.ts:30-79 | which content tables place their rows by Organization; all others do by Tenant |
| `Cascade.DoomedIffReaches` | apps/api/src/account-deletion/account-deletion.service.ts:219-226 | a delete takes exactly the rows from which a chain of `ON DELETE CASCADE` keys leads to a deleted row |
| `Cascade.TakenTwice` | apps/api/src/account-deletion/account-deletion.service.ts:560-612 | two deletes one after the other take, and set to null, exactly what one delete with both conditions does |
| `Cascade.NothingNamesTheGone` | apps/api/src/account-deletion/account-deletion.service.ts:219-226 | after a delete no key of a row that is left, of either kind, names anything that is gone |
| `DeletionPhases.SweepsPrune` | apps/api/src/account-deletion/account-deletion.service.ts:560-612 | both passes are one delete of what is to sweep in the tables that did not refuse twice |
| `DeletionPhases.PhasesPrune` | apps/api/src/account-deletion/account-deletion.service.ts:182-205 | the tear-down, both sweeps and the sessions together are one delete with all their conditions |
| `DeletionOutcome.RowStaysIff` | apps/api/src/account-deletion/account-deletion.service.ts:163-227 | after all phases a row is there, as the hand-overs made it and with the keys that set null cleared, if and only if no chain of cascading keys leads from it to a row that goes on its own; else no row with its key is there |
| `DeletionOutcome.SafeIff` | apps/api/src/account-deletion/account-deletion.service.ts:163-227 | which rows go on their own, key by key: by any cascading key to the account, a Tenant that goes or its Organizations, or wanted by a phase |
| `DeletionOutcome.SafeAncestors` | apps/api/src/account-deletion/account-deletion.service.ts:163-227 | no chain leads to a row that goes if and only if every row a chain leads to is safe |
| `DeletionOutcome.ContentStays` | apps/api/src/account-deletion/account-deletion.service.ts:163-227 | a content row whose hand-over statement is not refused names the successor afterwards, a different account that still exists, and sits in its workspace, if and only if no chain of cascading keys, its own keys to users included, leads from it to a row that goes |
| `KeptExample.TheAgentStays` | apps/api/src/account-deletion/account-deletion.service.ts:163-227 | one deletion with the service's own lists: the agent of a member who leaves somebody else's workspace is the owner's afterwards |
| `KeptExample.TheModelAccountGoes` | apps/api/src/migrations/1791160000000-CreateModelAccountsAndPolicies.ts:80-93 | with the service's own lists and nothing refused, a personal model account is handed over and gone afterwards, because `ownerUserId` cascades |
| `KeptExample.TheBindingGoesWithItsConnection` | apps/api/src/migrations/1786840000000-CreateMcpServerConnections.ts:128-133 | with the service's own lists and nothing refused, an MCP binding handed to the owner is gone afterwards, because its connection is not handed over |
| `KeptExample.TheSeatGoesWithTheWork` | packages/agent/src/entities/work-member.entity.ts:34-36 | with the service's own lists, a collaborator's seat on the account's personal Work is gone afterwards |
| `KeptExample.TheViewGoesWithItsMaker` | apps/api/src/migrations/1791180000000-CreateSharedViews.ts:110-123 | a view of somebody else's that the account made is gone afterwards, because both user keys cascade |
| `KeptExample.TheAnnouncedWorkStays` | apps/api/src/migrations/1779991006000-AddTenantIdAndOrganizationIdToTierA.ts:63-76 | one Work is announced as deleted and is there afterwards without its Tenant |
| `DeletionOutcome.OthersStay` | apps/api/src/account-deletion/account-deletion.service.ts:163-227 | another person's row is there, still theirs and with the keys that set null cleared, if and only if no chain of cascading keys leads from it to a row that goes; and there unchanged if and only if, besides, no key that sets null names anything gone |
| `DeletionIntegrity.AccountIsGone` | apps/api/src/account-deletion/account-deletion.service.ts:215-227 | no user row, membership or Tenant of the account is left, no foreign key of any row names anything that is gone, and Tenant owners stay unique |
| `DeletionIntegrity.NothingDangles` | apps/api/src/account-deletion/account-deletion.service.ts:163-227 | a database with unique keys and every foreign key naming something that is there is one again after a deletion, whatever was refused |
| `DeletionFailure.FailureKeepsTheFrame` | apps/api/src/account-deletion/account-deletion.service.ts:228-239 | whatever step throws, every account, membership and Organization is there, every Tenant is and has an existing owner of its own, only the account's own may have changed hands; a failure while planning or billing has changed nothing |
| `DeletionFailure.FailureBeforeTearDown` | apps/api/src/account-deletion/account-deletion.service.ts:173-180 | a failure before the tear-down leaves every row in place, as exactly the hand-overs done before it made it |
| `DeletionFailure.FailedRowStaysIff` | apps/api/src/account-deletion/account-deletion.service.ts:182-213 | a failure later leaves a row, as the hand-overs made it, if and only if no chain of cascading keys leads from it to a row that a phase before the failure wanted |
| `DeletionFailure.WantedAreOwn` | apps/api/src/account-deletion/account-deletion.service.ts:182-213 | what those phases want is the account's, and nobody takes it over |
| `DeletionCounts.ContentReassignedCounts` | apps/api/src/account-deletion/account-deletion.service.ts:465-493 | the rows reported as reassigned are the rows whose creator the hand-overs changed, each once, and these are the account's rows that some plan takes over |
| `DeletionCounts.OrganizationsDeletedCounts` | apps/api/src/account-deletion/account-deletion.service.ts:204-208 | the Organizations reported as deleted are those there before and not afterwards |
| `DeletionCounts.WorkspaceReported` | apps/api/src/account-deletion/account-deletion.service.ts:174-209 | a transfer is reported exactly when some Tenant has another owner afterwards, a deletion exactly when some Tenant is not there; these are the account's own Tenants with, or without, somebody who can take over |
| `DeletionCounts.MembershipsRemovedCounts` | apps/api/src/account-deletion/account-deletion.service.ts:200-202 | the memberships reported are all the account had, and none is there afterwards |
| `DeletionCounts.SessionsAndKeysCount` | apps/api/src/account-deletion/account-deletion.service.ts:196-199 | the sessions and API keys reported are the account's that no earlier phase took, as read off the database before |
| `DeletionCounts.SessionsAndKeysAsAnnounced` | apps/api/src/account-deletion/account-deletion.service.ts:153-157 | with both in tables of their own, all sessions and API keys are counted, and the API keys are as many as announced |
| `DeletionCounts.SummaryReportsTruly` | apps/api/src/account-deletion/account-deletion.service.ts:163-227 | every number and flag of the summary against the database before and after |
| `DeletionOutcome.OwnersAfterHandOver` | apps/api/src/account-deletion/account-deletion.service.ts:449-456 | hand-overs keep the Tenant owner one-to-one and leave the account only Tenants that go |
| `PreviewOutcome.PreviewMatchesExecute` | apps/api/src/account-deletion/account-deletion.service.ts:134-157 | the hand-overs cannot change the Works that go; execute's count is preview's without other people's Works, and with the Works kept it makes up all the account's |
| `AccountDeletion.PreviewCounts` | apps/api/src/account-deletion/account-deletion.service.ts:134-157 | the announced numbers count the account's Works outside what stays with other people's in what goes, and the account's Works in what stays |
| `PreviewOutcome.AnnouncedAgainstMissing` | apps/api/src/account-deletion/account-deletion.service.ts:134-157 | the announced number differs from the Works missing afterwards by the announced ones that stay and the others that go, so the two agree if and only if these are as many; where Works go with their creator, the announced ones that stay are other people's |
| `PreviewOutcome.AnnouncedUnderUsualKeys` | apps/api/src/account-deletion/account-deletion.service.ts:134-157 | with the migrated keys the announced number is that of the missing Works if and only if other people's Works in workspaces that go are as many as the account's refused Works in workspaces that stay; the number reported is that of the missing ones but for the refused |
| `PreviewOutcome.UsualExceptions` | apps/api/src/account-deletion/account-deletion.service.ts:143-152 | which Works are announced and stay, and which go unannounced, both directions |
| `PersonalRows.SweptExactly` | apps/api/src/account-deletion/account-deletion.service.ts:560-612 | after both passes a row is there exactly when every row a chain leads to, itself included, is in no listed table, or somebody else's, or in a workspace that stays, or in a table that refused twice; else its key is gone |
| `PersonalRows.SingledMeans` | apps/api/src/account-deletion/account-deletion.service.ts:182-196 | what the tear-down, the sweeps and the sign-out want, column by column |
| `PersonalRows.PersonalRowsAreGone` | apps/api/src/account-deletion/account-deletion.service.ts:163-227 | unless its table refuses both passes, a listed personal table holds no row of the account afterwards but those in workspaces that stay |
| `Inventory.PersonalTablesAreDistinct` | apps/api/src/account-deletion/account-deletion.inventory.ts:86-113 | no personal table is listed twice |
| `Inventory.PersonalScoped` | apps/api/src/account-deletion/account-deletion.inventory.ts:86-113 | which personal tables are swept everywhere, and which but for Organizations or Tenants that stay |
| `DeletionService.AccountDeletionService.Execute` | apps/api/src/account-deletion/account-deletion.service.ts:163-262 | the database and the table of requests for each answer: untouched, as the phases before a thrown error left them with the failure recorded under its code, or after all phases with the completion recorded and the account forgotten; every number of the summary is the number of what it speaks of, a planning or billing failure changes no row, and any failure leaves every account, membership, Organization and Tenant |
| `DeletionAudit.FailureIsOnRecord` | apps/api/src/account-deletion/account-deletion.service.ts:228-239 | a failure adds one row without a name or a token, with status, code and hashed address, or marks the link it was asked for by; nothing else changes |
| `DeletionAudit.CompletionIsOnRecord` | apps/api/src/account-deletion/account-deletion.service.ts:241-244 | a completion is on record as completed and dated, in a row of its own or on the link, which then names nobody |
| `DeletionAudit.NoRowNamesTheAccount` | apps/api/src/account-deletion/account-deletion-request.store.ts:113-116 | after a completed deletion no request names the account if and only if both statements went through or only the request it was asked for by did |
| `DeletionAudit.NoLinkIsLeftOpen` | apps/api/src/account-deletion/account-deletion.service.ts:242-244 | the account's links are closed once the first statement went through, other people's rows are as they were, nothing becomes claimable, and tokens stay unique |
| `DeletionService.AccountDeletionService.HandOverAll` | apps/api/src/account-deletion/account-deletion.service.ts:174-180 | the loop over plans: the database, whether a workspace was transferred, and, of sound plans, as many rows moved as have another creator than before the loop |
| `DeletionService.AccountDeletionService.RunStatements` | apps/api/src/account-deletion/account-deletion.service.ts:465-492 | one statement per table with refusals skipped; the count is that of the account's rows some statement reaches, each once |
| `DeletionService.AccountDeletionService.DeletePersonalRows` | apps/api/src/account-deletion/account-deletion.service.ts:560-612 | two passes, the second over the tables that refused the first |
| `ExportStream.BodyIsWoven` | apps/api/src/account/account-export-stream.ts:82-119 | in every interleaving the body is a prefix of the fragments, each whole and in order, with spaces only between them and none before the first, and short only once the peer has gone or the response was ended elsewhere |
| `ExportStream.BodyReads` | apps/api/src/account/account-export-stream.ts:97-104 | in every interleaving the body reads, but for spaces, as the fragments written one after the other |
| `ExportStream.WeaveIsReadable` | apps/api/src/account/account-export-stream.ts:97-104 | where no fragment begins with a space, the body and the lengths of the fragments determine the fragments and the spaces between them |
| `ExportStream.EndedMeansComplete` | apps/api/src/account/account-export-stream.ts:107-120 | ended here at most once, and then the generator was done, every fragment is in the body and no close or error was seen; `ExportOutcome.FinishedIsEnded` is the other direction |
| `ExportOutcome.FinishedIsEnded` | apps/api/src/account/account-export-stream.ts:107-120 | in every interleaving a finished call with no close or error seen leaves the response ended, and ended it itself if and only if nobody else had while it was under way |
| `ExportOutcome.FragmentIsWritten` | apps/api/src/account/account-export-stream.ts:82-115 | in every reachable state that waits for a fragment, it is written whole at the end while the peer is there and the response open, dropped otherwise, and only a refused write is waited for |
| `ExportOutcome.TickAddsASpace` | apps/api/src/account/account-export-stream.ts:97-104 | in every reachable state a tick adds exactly one space while the call streams to an open response, and nothing otherwise |
| `ExportOutcome.RefusedWriteWaits` | apps/api/src/account/account-export-stream.ts:84-94 | after a refused write nothing but spaces is written and no fragment is asked for until the response drains or closes |
| `ExportOutcome.ReliefIsDrainOrClose` | apps/api/src/account/account-export-stream.ts:84-94 | draining or closing, and nothing else, lets the waiting call go on |
| `ExportStream.FailuresNeverEnd` | apps/api/src/account/account-export-stream.ts:61-133 | a later failure destroys the response and nothing ends it afterwards; a failure producing the first fragment leaves it untouched |
| `ExportStream.ClosedMeansPeerLeft` | apps/api/src/account/account-export-stream.ts:65-75 | the flag is set exactly when some close or error event reached the response |
| `ExportStream.NobodyReadsNobodyWalks` | apps/api/src/account/account-export-stream.ts:109-114 | after the peer has gone no fragment is asked for, nothing is written and the response is not ended |
| `ExportStream.AccountExport.AfterNext` | apps/api/src/account/account-export-stream.ts:115-120 | the code after a fragment is the machine's step: writes it whole unless nobody reads, or, when there is none, stops ticking and listening, finishes, and ends the response unless the peer left or somebody else ended it |
| `ExportStream.AccountExport.Write` | apps/api/src/account/account-export-stream.ts:82-95 | writes unless the peer has gone, then waits when asked to |
| `Names.RepairLands` | packages/agent-plugins/src/serialize.ts:92-104 | for both rules a name comes out exactly when the lower-cased text has a letter a-z or a digit, and it satisfies the rule even after truncation; what it keeps of the text is `NameReading.RepairReads` |
| `NameReading.RepairReads` | packages/agent-plugins/src/serialize.ts:92-104 | the name stands at increasing places of the text, each character for itself or a separator for the last of a run that reads as it; between its first and last place no letter or digit is passed over, before the first there is none, and after the last none that would have fitted into 64 characters |
| `NameReading.NothingIsGlued` | packages/agent-plugins/src/serialize.ts:96-98 | letters and digits that are neighbours in the name are neighbours in the text |
| `NameReading.LettersAreKept` | packages/agent-plugins/src/serialize.ts:96-103 | the letters and digits of the name are those of the text from the first on, and all of them unless it was cut |
| `NameReading.CutSkillNamesAreLong` | packages/agent-plugins/src/serialize.ts:103-103 | a cut skill name has 63 or 64 characters |
| `NameReading.CollapsedIsSqueezed` | packages/agent-plugins/src/serialize.ts:95-102 | the three replacements come to one pass over the text |
| `Names.ValidNamesUnchanged` | packages/agent-plugins/src/serialize.ts:92-104 | valid names are their own repair |
| `Names.SuggestionsAreAccepted` | packages/agent-plugins/src/serialize.ts:113-162 | a name is accepted as it stands exactly when valid, and a suggestion is always accepted |
| `Names.SkillReasonIsTrue` | packages/agent-plugins/src/serialize.ts:118-125 | the reason given for a refused slug is the first true one, but for the empty slug |
| `SkillRoundTrip.RoundTrip` | packages/agent-plugins/src/serialize.ts:266-368 | an accepted frontmatter is exported without error and accepted again with the same tools and known fields; an empty metadata map is dropped |
| `SkillRoundTrip.UnknownKeysSurvive` | packages/agent-plugins/src/serialize.ts:329-333 | unknown keys survive if and only if none is a name every object inherits |
| `SkillRoundTrip.ConstructorKeyIsDropped` | packages/agent-plugins/src/serialize.ts:329-333 | a concrete skill that loses a key |
| `SkillRoundTrip.SecondExportIsTheFirst` | packages/agent-plugins/src/serialize.ts:266-368 | exporting what was read back gives the same fields in the same order and the same body |
| `SkillRoundTrip.BodyIsKept` | packages/agent-plugins/src/serialize.ts:336-341 | the body is written back as given if and only if it does not itself open with a block of fields; else its fields join those of the file where that has none of the name |
| `SkillRoundTrip.OrderIsFixed` | packages/agent-plugins/src/serialize.ts:262-333 | the fields are written in the order they were set, the known ones first, if and only if no unknown key is an array index |
| `SkillRoundTrip.IndexKeyComesFirst` | packages/agent-plugins/src/serialize.ts:329-333 | a concrete skill whose first field is not its name |
| `SkillRoundTrip.TokensJoin` | packages/agent-plugins/src/skills.ts:129-131 | splitting joined tokens gives the tokens back |
| `SkillFrontmatter.SerializeSkillMd` | packages/agent-plugins/src/serialize.ts:266-341 | the fields in the order the runtime lists them, or which check refuses |
| `SkillFrontmatter.SkillToSerializeInput` | packages/agent-plugins/src/serialize.ts:344-368 | the loop collects exactly the unknown keys that assignment keeps, and each known field is taken when it has its type |
| `SkillFrontmatter.ListKeys` | packages/agent-plugins/src/serialize.ts:329-329 | the one strictly increasing list of the keys |
| `SkillExport.ExportedIff` | packages/agent-plugins/src/serialize.ts:266-327 | a skill is written if and only if name, description and optional fields keep the reader's rules, and refused for the first broken |
| `SkillExport.ExportedBody` | packages/agent-plugins/src/serialize.ts:336-341 | the body handed to the writer ends in a line feed, added only where there was none |
| `SkillsFound.EveryCandidateOnce` | packages/agent-plugins/src/skills.ts:415-557 | every child directory ends up as exactly one skill or one finding, other children as neither, and skills are strictly increasing by name |
| `SkillsFound.SkillsLiveInside` | packages/agent-plugins/src/skills.ts:427-550 | a returned skill is named like its directory, and the directory, its SKILL.md and sidecars, links followed, lie under the real root |
| `SkillsFound.RealSkillsAreFound` | packages/agent-plugins/src/skills.ts:358-413 | a real, readable skills directory of a package is read, never reported absent or invalid |
| `SkillContents.ReturnedIff` | packages/agent-plugins/src/skills.ts:427-550 | a child becomes a skill if and only if it is a directory of the package with a readable SKILL.md of the package whose frontmatter keeps the rules |
| `SkillContents.AcceptedIff` | packages/agent-plugins/src/skills.ts:169-282 | a frontmatter is accepted, as it is, if and only if each field that is there has its type and length and the name is the directory's |
| `SkillContents.SkillsAreTheirFiles` | packages/agent-plugins/src/skills.ts:514-549 | a returned skill has the fields, body and tools of its file, and exactly those sidecars that are listed directories of the package |
| `SkillContents.CandidateIff` | packages/agent-plugins/src/skills.ts:419-425 | the children looked at are exactly the directories, links followed |
| `SkillContents.LocationIff` | packages/agent-plugins/src/skills.ts:366-411 | when the location is absent, unusable for which reason, or read |
| `SkillContents.FindingsMean` | packages/agent-plugins/src/skills.ts:427-512 | which finding a child gets, each if and only if |
| `SkillDiscovery.DiscoverSkills` | packages/agent-plugins/src/skills.ts:358-558 | the loop's result: absent, invalid for which reason, or the skills and findings child by child |
| `McpOutcome.EveryServerOnce` | packages/agent-plugins/src/mcp.ts:540-565 | each declared server is returned or has exactly one finding, never both; results are strictly increasing by name and can be launched as they stand |
| `McpOutcome.EveryServerOnceLoaded` | packages/agent-plugins/src/mcp.ts:700-780 | after loading, each declared server is returned exactly when its entry passes and the containment check objects to none of its paths, and has exactly one finding if the entry fails, else one for each path objected to |
| `McpOutcome.EntriesAreIndependent` | packages/agent-plugins/src/mcp.ts:543-561 | changing one entry never changes what becomes of another |
| `McpOutcome.HeadersChecked` | packages/agent-plugins/src/mcp.ts:381-409 | the one-pass check passes exactly headers with valid names and values and no name twice under any casing |
| `McpOutcome.AcceptedIsLaunchable` | packages/agent-plugins/src/mcp.ts:266-419 | what an accepted entry guarantees about transport, command, cwd, url and headers |
| `McpEntries.AcceptedIff` | packages/agent-plugins/src/mcp.ts:266-419 | an entry is accepted if and only if it declares a transport the client can connect and keeps that transport's rules, spelled out field by field |
| `McpEntries.AcceptedIsItsEntry` | packages/agent-plugins/src/mcp.ts:357-418 | an accepted server has the document's own transport, command and working directory, or transport, address and headers |
| `McpEntries.RefusalsMean` | packages/agent-plugins/src/mcp.ts:286-369 | when an entry is refused for a missing or unknown type, a reserved environment name, or a transport the client lacks |
| `McpEntries.RuleRefusals` | packages/agent-plugins/src/mcp.ts:303-378 | when an entry is refused for its command, working directory, address or schema |
| `McpEntries.HeaderProblemMeans` | packages/agent-plugins/src/mcp.ts:381-409 | the problem reported is one of a header, and no header before it has a wrong name or value |
| `McpEntries.DocumentProblemsMean` | packages/agent-plugins/src/mcp.ts:422-538 | which problem disables the document, each if and only if |
| `McpEntries.LoadedIff` | packages/agent-plugins/src/mcp.ts:700-780 | loaded if and only if the fixed place leads to a file of the package that parses to a document without a problem; absent if and only if there is no entry |
| `McpEntries.ObjectionsMean` | packages/agent-plugins/src/mcp.ts:596-678 | which paths the containment check objects to: plugin-relative commands, and working directories not anchored in the data directory |
| `McpContainment.LoadedServersStayInside` | packages/agent-plugins/src/mcp.ts:596-678 | exactly the servers the containment check objects to are dropped, and what a loaded server names by a remainder that is relative and without a backslash, or names nothing, lies under the real root |
| `McpContainment.CommandHoldsIff` | packages/agent-plugins/src/mcp.ts:608-609 | for a plugin-relative command the entry check accepts, every loaded server with it runs a file of the package, on every machine, if and only if what follows `./` is relative and without a backslash, or names nothing, or begins with `mcp.json` |
| `McpContainment.CwdHoldsIff` | packages/agent-plugins/src/mcp.ts:639-675 | the same equivalence for a working directory anchored in the package |
| `McpContainment.TheTwoSlashesLeave` | packages/agent-plugins/src/paths.ts:124-125 | a concrete package whose server is loaded without a finding and whose command names no file of the package |
| `McpOutcome.CwdRefusedOnlyForParent` | packages/agent-plugins/src/expand.ts:91-115 | past the schema's pattern a cwd is refused exactly for a `..` segment |
| `Mcp.CommandRule` | packages/agent-plugins/src/mcp.ts:213-245 | a command passes exactly when it is a bare name or names a file under the package without going up |
| `Mcp.CheckHeaders` | packages/agent-plugins/src/mcp.ts:381-409 | the loop with its map of names seen finds the first problem |
| `Mcp.ValidateStdioEntry` | packages/agent-plugins/src/mcp.ts:266-369 | the stdio checks one after another: reserved environment names, schema, command, cwd, transport |
| `Mcp.ValidateServerEntry` | packages/agent-plugins/src/mcp.ts:266-419 | the outcome of one entry, check by check |
| `Mcp.ValidateMcpConfig` | packages/agent-plugins/src/mcp.ts:422-566 | the document checks in order, then servers and findings entry by entry |
| `Mcp.LoadMcpConfig` | packages/agent-plugins/src/mcp.ts:700-780 | absent, disabled for which reason, or the contained servers with all findings |
| `Bootstrap.Controller.Start` | apps/hosting-operator/src/bootstrap.ts:49-111 | refuses with exactly the configuration's and the registry's refusals and calls nothing, or starts all in order, or rethrows after stopping exactly those started, once each, in reverse |
| `Bootstrap.Controller.Shutdown` | apps/hosting-operator/src/bootstrap.ts:78-92 | stops by name, last started first, and only the first time |
| `Bootstrap.Controller.ShutdownRepeatedly` | apps/hosting-operator/src/bootstrap.ts:78-92 | any number of shutdown calls stops each started reconciler once, in reverse order |
| `Bootstrap.StoppingRestsOnUniqueNames` | apps/hosting-operator/src/bootstrap.ts:83-91 | stopping by name reaches each started reconciler once, in reverse, if and only if names are unique |
| `Bootstrap.DuplicatesReported` | apps/hosting-operator/src/reconciler.port.ts:71-79 | a name is reported as a duplicate exactly when two reconcilers carry it |
| `Bootstrap.UnknownKindsReported` | apps/hosting-operator/src/reconciler.port.ts:81-86 | a name is reported for its kind exactly when a reconciler of that name watches an unknown one |
| `Bootstrap.EmptinessReported` | apps/hosting-operator/src/reconciler.port.ts:63-69 | an empty registry, and no other, is refused for being empty, and for nothing else |
| `Bootstrap.ValidateRegistry` | apps/hosting-operator/src/reconciler.port.ts:60-90 | refuses exactly the empty registries and those with a repeated name or an unknown kind |
| `Reconcile.OneRunningPerUser` | apps/api/src/activity-log/activity-log.controller.ts:53-84 | in every interleaving the in-flight entry is the one unfinished promise, so at most one runs per user and the identity check always holds |
| `Reconcile.StartsAreSpaced` | apps/api/src/activity-log/activity-log.controller.ts:60-73 | every start is at least 5000 ms after every earlier success for that user |
| `Reconcile.JoinersWaitForTheRunningOne` | apps/api/src/activity-log/activity-log.controller.ts:54-58 | a caller that joined goes on only after the joined reconciliation has finished |
| `Reconcile.SkippedCallersAreFresh` | apps/api/src/activity-log/activity-log.controller.ts:60-66 | a caller let through at once comes less than 5000 ms after a noted success |
| `Reconcile.CallsDecided` | apps/api/src/activity-log/activity-log.controller.ts:53-84 | in every reachable state a call joins the reconciliation of its user that runs; without one it is let through if and only if a success was noted less than 5000 ms ago; else it starts exactly one, now, and waits for it |
| `Reconcile.WaitersGoOn` | apps/api/src/activity-log/activity-log.controller.ts:68-83 | no caller waits for ever: once the callbacks have run it goes on, after success and failure alike, nothing is in flight for the user, and only a success is noted |
| `Reconcile.ActivityReconciler.ReconcileActivities` | apps/api/src/activity-log/activity-log.controller.ts:53-84 | waits for the entry in flight if there is one; without one returns at once exactly when a success was noted less than 5000 ms ago; else starts one reconciliation, enters it and waits for it |
| `Reconcile.ActivityReconciler.Settle` | apps/api/src/activity-log/activity-log.controller.ts:76-80 | the last callback is the machine's step |

## Left out

- Path containment: Windows rules, absolute values containing `..`, dangling links and values with backslashes, where the
  resolver and the POSIX walk differ; permission errors, and changes to the tree between check and use.
- Strings hold no surrogates, so characters outside the Basic Multilingual Plane count once in lengths and sort by code
  point; e-mail addresses are lower-cased over ASCII only. `Names` takes lower-casing as a parameter.
- DeletionService.AccountDeletionService.Execute: the bodies of billing, storage and of a Work's teardown are parameters,
  and a teardown removes at most that Work with what hangs on it; the receipt mail is best effort and left out, and so are
  the `summary` column of the audit row and the preview's display fields.
- DeletionOutcome.ContentStays: the database is the migrated one, with foreign keys that cascade or set null; a key that
  refuses the delete shows as a statement or a transaction that fails.
- DeletionOutcome.OthersStay: the same.
- LinkRuns.OnePendingLink: only when requests of an address do not overlap before the insertion, because the code has no
  lock; LinkForecast.PendingForecast and LinkRuns.PendingDiscipline give the exact condition.
- LinkRuns.AtMostThreePerHour: the same, with LinkForecast.HourForecast and LinkRuns.HourDiscipline.
- Link confirmation pages, token generation and the mail's contents.
- ExportStream: header values and backpressure inside the keepalive's own write; `write` and `end` are taken not to throw.
- Recognising the opening `---` of a SKILL.md and its byte-order mark: a file is one without a frontmatter block, one with bad
  YAML, or its parsed value and body.
- SkillRoundTrip.RoundTrip: the YAML codec is abstract, so the file is its record of fields and its body, read back as
  written for bodies that do not themselves open with a block; SkillRoundTrip.BodyIsKept has the others.
- SkillRoundTrip.SecondExportIsTheFirst: the same.
- Manifest export and import, placeholder expansion, remote URL rules and loopback hosts: URL checking is a parameter.
- Mcp: which of several schema errors comes first is a parameter; it decides only between two findings for a bad entry.
- SkillDiscovery and Mcp name paths by their segments from the working directory, where the code keeps a relative
  package root as text.
- Bootstrap.Controller.Start: what the configuration check refuses is a parameter, log lines are left out, and a hanging
  start or stop is not modelled.
- Reconcile: the reconciliation itself, and a service call that throws before returning its promise.
- Controllers, guards, modules, the web front ends and the node adapters.
