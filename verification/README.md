# A model of groups, memberships, audit log, handles, sessions and credentials

The project models the parts of the service in which several pieces have to agree:

* **Groups and memberships.** The state is a database: users, groups, memberships, the audit log and two id
  sequences (`Statements.Db`). Handlers are modelled twice. `Handlers` has them as imperative code on a mutable
  `Database` object with its triggers, transactions and rollback. `Protocol` has them as small-step machines: every
  query is a step of its own, each probe of the suffix search included, and the transaction is one more, so that any
  number of handlers can be interleaved (`Protocol.Run`) and what one has read may be out of date when it commits. Each
  imperative handler is shown to do exactly what its machine does when left alone (`Protocol.Serve`), and serial runs
  are shown to be a special case of interleaved ones, so what holds of every interleaving holds of the code run request
  by request.
* **The audit log** as a second copy of the tables: replayed forwards, undone backwards, chained per record, and
  counted (`Audit`, `Effects`, `Conservation`).
* **Handles and usernames**: the slug passes against a one-line specification, and the suffix search (`Handles`,
  `UniqueHandles`, `Usernames`).
* **Races**: what overlapping requests can do, shown on runs that start from the empty database, each with the exact
  condition under which it happens (`Races`, `Provenance`, `Archive`, `Acceptance`, `Answers`, `UpdateAnswers`), and
  what an interleaved suffix search still guarantees (`HandleSearch`).
* **Sessions**: the store as a class against a map that is never cleaned up (`Sessions`), and the same store under
  concurrent use at the granularity of single map operations, replies included (`SessionThreads`).
* **Two printer/parser pairs**: the stored Argon2id hash (`Passwords`, `Base64`, `Decimals`) and the connection string
  (`Dsn`).

## Assumptions

* Transactions are serialised: each `BeginTxFunc` body is one atomic step. The comment on the last-admin trigger
  (migrations/004_create_memberships.sql:47-49) relies on as much; nothing here says a weaker isolation level suffices.
* A database error ends a handler with status 500. The failing step changes nothing, except that ids may have been drawn
  from the sequences; what the handler has committed before stands. Every transaction carries its own time stamp, about
  which nothing is assumed.
* Unicode folding and lowercasing beyond ASCII happen in libraries. A request carries their results: the folded name
  and the lowercased handle field. No property assumes anything about them.
* Random bytes, session tokens and salts are inputs. Tokens are assumed distinct only in `SessionThreads`. The Argon2id
  key function (RFC 9106) is a parameter; only the length of its output is assumed, and only where stated.
* `sync.Map.Range` visits every entry that is present throughout the walk, and may show entries removed meanwhile, but
  none that was gone before it began.
* A reader of the connection string follows PostgreSQL's keyword/value syntax: white space ends an unquoted value, a
  backslash makes the next character literal, a value that starts with a quote runs to the closing quote. That is
  PostgreSQL's own reader; the driver the service links against is not part of this model and may treat a lone backslash
  in an unquoted value differently.
* Lengths are counted in characters. Where the Go code counts bytes the text is ASCII, or is refused either way.

## What the code does differently from what one may expect

* The pre-check of demotion and removal is stricter than the trigger: it also refuses to demote or remove a *pending*
  admin invitation while the group has one active admin (`Safety.PreCheckIsStricter`, an exact condition).
* Grants of the admin role are justified, and archived groups frozen, when requests are served one at a time. Under
  interleaving neither holds, because a transaction does not look again at what its handler has read: runs from the
  empty database end with an unjustified grant (`Races.UnjustifiedGrant`) and with a changed role in an archived group
  (`Races.ThawedArchive`). Exactly when: `Provenance.RunIsJustifiedIff` and `Archive.FrozenThroughoutIff`. Repeating the
  checks inside the transaction would be enough for both (`Provenance.CarefulRunsAreJustified`,
  `Archive.CarefulRunsStayFrozen`).
* The last-admin guarantee does hold under interleaving, with commits serialised, and only thanks to the trigger
  (`Races.RefusedDemotion`). The handlers open their transactions at the database's default isolation.
* An update whose count queries fail after its commit answers 500 although the update stands (`Races.UpdateStands`).
  That is the one case in which an error status comes with a change (`Answers.ErrorsTell`).
* Those two counts are separate queries, so the answer can speak of fewer members than admins (`Races.TornCounts`), even
  when no admin invitation is accepted in between (`Races.TornByPromotion`). Exactly when: `UpdateAnswers.TornIff`;
  never while nobody joins the group (`UpdateAnswers.NotTornUnlessJoined`).
* Removing a membership that has just been removed answers 204 and leaves no audit entry (`Races.RemovedTwice`). It is
  the one success without an entry (`Answers.SuccessLeavesEntries`).
* An invitation accepted twice at once answers 200 both times and keeps the later acceptance time
  (`Races.MovedAcceptance`). Nothing else moves an acceptance time (`Acceptance.StepMovesIff`), and one request at a
  time nothing does (`Acceptance.AcceptanceIsFinal`).
* Archiving an archived group succeeds and moves its time stamp (`Outcomes.ArchiveOutcome`).
* The suffix search can fail with exactly 1000 handles taken, since a 100-character base may be its own first
  candidate (`UniqueHandles.BoundIsSharp`); below 1000 it cannot (`UniqueHandles.SearchIsComplete`).
* The connection string quotes nothing but the password. It reads back as the configuration exactly when host, user,
  database name and SSL mode may stand unquoted (`Dsn.DsnReadsBackIff`); of the first three, validation
  asks only that they are not empty.
* The version number in a stored hash is scanned but never compared (`Passwords.VersionIsNotCompared`).

## Model

| member | source | states |
|---|---|---|
| Safety.EveryGroupHasAnAdmin | migrations/004_create_memberships.sql:50-82 | in every database any interleaving can reach, each group has an active admin, and a user whom the permission checks admit as such |
| Safety.MutualDemotion | internal/api/memberships.go:697-725 | when the last two admins demote each other both pass all pre-checks; the second commit is refused by the trigger, answered 409 and changes nothing; without the trigger no admin would be left |
| Safety.TriggerIsForStaleReads | internal/api/memberships.go:678-694 | a request served alone never meets the trigger, for any request kind |
| Safety.PreCheckIsStricter | internal/api/memberships.go:781-793 | the pre-check implies the trigger's consent; it refuses what the trigger allows exactly for pending admin rows in a group with one active admin |
| Safety.TriggerIsExact | migrations/004_create_memberships.sql:50-77 | the trigger raises exactly when the change would leave the group without an active admin |
| Safety.DemotionIsReady | internal/api/memberships.go:638-694 | with two active admins in an open group each one's demotion of the other gets to its transaction |
| Safety.SettleManaged | internal/api/memberships.go:741-794 | closed form of the uninterrupted reads and checks of promote, demote and remove |
| Safety.FindsMembership | internal/db/memberships.sql.go:100-124 | with unique pairs the lookup by group and user returns the one matching row |
| Invariant.RunKeepsWorld | migrations/004_create_memberships.sql:11-28 | row constraints, distinct handles, distinct (group, user) pairs, an admin per group and a log that replays to the tables, after every interleaving |
| Invariant.ExecKeepsInv | migrations/004_create_memberships.sql:47-77 | every transaction, committed or rolled back, keeps that invariant |
| Invariant.TriggerKeepsGoverned | migrations/004_create_memberships.sql:58-73 | any single-row change the trigger lets through leaves every group an active admin |
| Invariant.CreateGroupKeepsInv | internal/api/groups.go:219-266 | a new group never commits without its admin |
| Invariant.ServeKeepsInv | internal/api/memberships.go:638-735 | a whole request keeps the invariant |
| Effects.RunEvolves | migrations/004_create_memberships.sql:11-28 | from any point of any run to any later one: groups persist with handle, parent, creator and creation time; memberships keep group, user, inviter and creation time and never fall back to pending; removed ids stay away; the log only grows |
| Effects.RemovedStaysRemoved | internal/db/memberships.sql.go:90-98 | a removed membership id never comes back |
| Effects.CommitTells | internal/api/memberships.go:717-730 | out of its transaction a handler has answered with an error and changed nothing, or has left exactly its audit entries and answers with success or goes on |
| Answers.ErrorsTell | internal/api/groups.go:630-665 | over every interleaving: a handler that answered with an error changed tables or log if and only if it was past its commit when it failed, and then it answered 500 |
| Answers.OnlyUpdatesGoOn | internal/api/groups.go:654-665 | only an update can be past its commit and not yet answered |
| Answers.SuccessLeavesEntries | internal/db/memberships.sql.go:90-98 | a commit answered with success leaves the log as it was if and only if it deletes a membership that is gone |
| Answers.RefusalsTell | internal/api/memberships.go:282-299 | a refused transaction is answered 409 for the last admin's demotion or removal, a second invitation and a taken handle, 500 for all else |
| Answers.OneQueryAtATime | internal/api/authorization.go:64-94 | each read is one query about one thing; what was read earlier counts as it was read |
| Effects.ExecEffects | internal/db/audit.go:24-29 | every new audit entry is signed by the acting user; a refused transaction leaves no trace but drawn ids |
| Effects.LogRestoresEveryState | migrations/002_create_audit_schema.sql:48-99 | the log replayed from nothing gives the current tables, and undone from the current tables gives the tables at every earlier point of the run |
| Effects.LogIsChained | migrations/002_create_audit_schema.sql:28-35 | per record the entries form INSERT, UPDATEs, at most one DELETE, each starting where the last ended and ending in the current row; every entry has an id, a record unless it deletes and an old record unless it inserts |
| Effects.LogIsOrderly | migrations/005_enable_auditing.sql:8-17 | no logged update changes a membership's group, user, inviter or falls back to pending, nor a group's handle, parent or creator |
| Audit.UnwindRestores | migrations/002_create_audit_schema.sql:64-95 | for every consistent log, undoing its tail gives what its head describes |
| Audit.HistoryIsChain | migrations/002_create_audit_schema.sql:64-95 | for every consistent log, the history of a record is an unbroken chain whose outcome is the current row |
| Audit.UndoInvertsRedo | migrations/002_create_audit_schema.sql:24-25 | an entry carries enough to take its own change back |
| Conservation.AdminsAreConserved | internal/db/memberships.sql.go:37-48 | over any interleaving the active admins of a group equal the gains minus the losses in its log, and losses stay below gains |
| Conservation.MembersAreConserved | internal/db/groups.sql.go:62-73 | the same account of a group's active members |
| Conservation.DemotionsAreCovered | migrations/004_create_memberships.sql:58-73 | demotions plus removals of active admins never reach creations plus promotions plus accepted admin invitations |
| Conservation.CountIsBalance | migrations/002_create_audit_schema.sql:64-95 | for every consistent log and whatever memberships one counts, their number in the tables it describes is its balance of gains and losses |
| Conservation.KindsAddUp | internal/api/memberships.go:581-608 | creation, promotion and acceptance are the only gains, demotion and removal the only losses |
| Conservation.MemberKindsAddUp | internal/api/memberships.go:436-483 | active members come by founding and acceptance only and go by removal only |
| Provenance.AdminRolesTraceToFounder | internal/api/memberships.go:581-608 | in serial runs every admin role goes back through finitely many grants, each by a user granted the role earlier, to the group's creator |
| Provenance.GrantsAreJustified | internal/api/memberships.go:239-244 | in serial runs each grant of the admin role is the group's founding or was made by a user who was an active admin at that very entry |
| Provenance.RoleWasGranted | migrations/002_create_audit_schema.sql:64-95 | a row with the admin role has an earlier log entry that gave it |
| Provenance.StaleGrant | internal/api/memberships.go:581-615 | under interleaving a user demoted after the check still promotes: status 200 and an unjustified grant in the log |
| Provenance.GrantIsJustifiedIff | internal/api/memberships.go:581-615 | a committing promotion or admin invitation is a justified grant if and only if its actor is an active admin of the group at that moment |
| Provenance.RunIsJustifiedIff | internal/api/memberships.go:581-615 | over every interleaving: all grants in the log are justified if and only if each committing promotion or admin invitation was made by a user who was an active admin as it committed |
| Provenance.CarefulRunsAreJustified | internal/api/memberships.go:597-615 | under any interleaving in which commits are still authorised when they happen, every grant is justified |
| Sequential.ServedIsAuthorised | internal/api/authorization.go:64-144 | served alone, what a handler commits is something its actor is entitled to in the database as it stands at commit, roles, permission flags and archiving included |
| Sequential.SerialIsRun | internal/api/memberships.go:209-824 | every serial run is one of the interleaved runs |
| Sequential.AnswerIsRun | internal/api/memberships.go:209-824 | a request served alone is a run of steps that leaves every other handler where it was |
| Archive.ArchivedStaysFrozen | internal/api/groups.go:572-575 | in serial runs, while a group stays archived its settings, subgroups, membership ids and roles do not change; an invitation may be accepted |
| Archive.FreezeBreaksIff | internal/api/memberships.go:585-615 | a transaction leaves a group frozen if and only if it is refused or does not thaw it: no subgroup under it, no change of its settings, no invitation into it, no write to one of its rows but a first acceptance |
| Archive.FrozenThroughoutIff | internal/api/groups.go:572-575 | over every interleaving: from some point on a group is frozen between any two moments if and only if no transaction committing from then on thaws it |
| Archive.AuthorisedFreezes | internal/api/memberships.go:234-237 | no authorised transaction of any kind thaws an archived group |
| Archive.StalePromotionThaws | internal/api/memberships.go:585-615 | a promotion ready before archiving still changes a role in the archived group |
| Archive.CarefulRunsStayFrozen | internal/api/memberships.go:585-615 | under any interleaving in which commits are still authorised when they happen, a group is frozen while it stays archived |
| Acceptance.AcceptanceMovesIff | internal/db/memberships.sql.go:14-18 | the acceptance time of a row that stays is moved by exactly one thing: a committing acceptance of that row at another time |
| Acceptance.StepMovesIff | internal/api/memberships.go:462-483 | the same at every step of every interleaving |
| Acceptance.AcceptanceIsFinal | internal/api/memberships.go:457-460 | in serial runs an acceptance keeps its time as long as the membership lasts |
| Acceptance.DoubleAcceptance | internal/api/memberships.go:462-483 | two acceptances of one invitation that both passed the check both answer 200, and the later one overwrites the acceptance time |
| Races.UnjustifiedGrant | internal/api/memberships.go:581-615 | a run from the empty database whose log holds an unjustified grant |
| Races.ThawedArchive | internal/api/memberships.go:585-615 | a run from the empty database in which a role changes in an archived group |
| Races.RefusedDemotion | internal/api/memberships.go:697-725 | a run from the empty database in which the trigger refuses the last admin's demotion, answered 409 without a change |
| Races.RefusedRemoval | internal/api/memberships.go:797-819 | a run from the empty database in which the trigger refuses the last admin's removal, answered 409 without a change |
| Races.MovedAcceptance | internal/api/memberships.go:462-483 | a run from the empty database in which an acceptance time moves |
| Races.RemovedTwice | internal/api/memberships.go:796-824 | a run from the empty database in which a removal answers 204 and changes nothing |
| Races.UpdateStands | internal/api/groups.go:635-665 | a run from the empty database in which an update answers 500 and stands |
| Races.TornCounts | internal/api/groups.go:654-665 | a run from the empty database in which an update is answered with one member and two admins |
| Races.TornByPromotion | internal/api/groups.go:654-665 | another, in which no admin invitation is accepted between the two counts |
| UpdateAnswers.AnswerHasMoments | internal/api/groups.go:654-671 | over every interleaving an answer with counts has two moments, one after the other: its members are those of the first, its admins those of the second |
| UpdateAnswers.TornIff | internal/api/groups.go:654-665 | it speaks of more admins than members if and only if in between promotions and accepted admin invitations outnumber demotions and removals of admins by more than the plain members there were at the first |
| UpdateAnswers.TrueOfOneMomentIff | internal/api/groups.go:654-665 | it is true of the second moment if and only if as many joined as left in between, of the first if and only if admin gains and losses cancel out |
| UpdateAnswers.NotTornUnlessJoined | internal/api/groups.go:654-665 | it never speaks of more admins than members while nobody joins in between |
| UpdateAnswers.AdminsBetween | internal/db/groups.sql.go:49-60 | between any two moments of a run the active admins of a group change by exactly the logged promotions, accepted admin invitations, demotions and removals |
| UpdateAnswers.MembersBetween | internal/db/groups.sql.go:62-73 | and its active members by exactly those who join and those who leave |
| Hierarchy.GroupsFormAForest | internal/api/groups.go:780-818 | in every reachable database each ancestor walk ends at a root after strictly falling ids |
| Hierarchy.AncestryIsPermanent | internal/db/groups.sql.go:506-524 | a group's ancestors never change once it exists |
| Hierarchy.StoredHandles | migrations/003_create_groups.sql:40-47 | stored handles have the strict format and are distinct; for well-formed handles case-insensitive uniqueness is plain equality |
| Hierarchy.ReadyHandlesPassCheck | internal/api/groups.go:200-211 | every handle a handler is about to insert passes the schema's format check |
| Hierarchy.EachGroupListedOnce | internal/db/groups.sql.go:325-337 | the listing join has exactly the user's groups, each once |
| Outcomes.ContextIsExact | internal/api/authorization.go:64-94 | the authorisation context says admin or member exactly when an accepted membership does |
| Outcomes.PromoteOutcome | internal/api/memberships.go:550-624 | success if and only if actor is admin of the open group and the row is not admin, 404, 403 and 409 each exactly when; only the role changes; any other answer changes nothing |
| Outcomes.DemoteOutcome | internal/api/memberships.go:638-735 | success if and only if also a second active admin exists; each refusal's status exactly |
| Outcomes.RemoveOutcome | internal/api/memberships.go:741-824 | 204 if and only if the actor may manage and an admin row has a second active admin beside it; each refusal's status exactly; only that row goes |
| Outcomes.AcceptOutcome | internal/api/memberships.go:436-494 | success if and only if the actor is the invited user and the row is pending; 404, 403 and 409 each exactly when |
| Outcomes.InviteOutcome | internal/api/memberships.go:209-300 | 201, 403, 404, 409 and 500 each if and only if, in terms of group, standing, archiving, invitee, role and pair; the new row is pending |
| Outcomes.ArchiveOutcome | internal/api/groups.go:936-1043 | success if and only if the actor is an admin, archived already or not; 404 and 403 exactly when |
| Outcomes.UpdateOutcome | internal/api/groups.go:547-671 | with no query failing: success if and only if admin, open and a usable name; 403, 404, 409, 422 and 500 each exactly when; all other rows stay |
| Outcomes.UpdateStores | internal/db/groups.sql.go:506-524 | for each of the thirteen columns a patch can name: named, the stored value is the patch's, the name trimmed; not named, it is the old one; every other column and row stays |
| Outcomes.UpdateCommits | internal/api/groups.go:635-665 | such an update leaves its transaction with the two counts still to be read |
| Outcomes.PatchedGroup | internal/db/groups.sql.go:506-524 | a patched group differs in nothing but name, description, flags and time stamp |
| Outcomes.FlagPatches | internal/db/groups.sql.go:510-520 | a patch naming all eleven flags sets exactly them, one naming none keeps them |
| Outcomes.CreatedGroup | internal/api/groups.go:219-266 | a new group has exactly one member, its creator, as accepted admin |
| Outcomes.SubgroupOutcome | internal/api/groups.go:696-859 | 201 if and only if the parent is open, the actor may create subgroups in it, and name and handle are usable and free; 403, 404, 409 and 422 each exactly when; the row is exactly what was asked for, flags inherited only on request, its creator sole admin |
| Outcomes.SubgroupStores | internal/api/groups.go:728-790 | the same by what is given and what is stored, white space around name and handle gone |
| Outcomes.CreateOutcome | internal/api/groups.go:154-281 | 201 if and only if the name is usable and the handle, given or generated, is well formed and free; 409 and 422 each exactly when; the row is exactly what was asked for |
| Outcomes.CreateStores | internal/api/groups.go:166-217 | the same by what is given and what is stored, white space around name and handle gone |
| Outcomes.CreateRefuses | internal/api/groups.go:192-210 | without a usable handle the answer is 422 |
| Text.TrimSpaceIs | internal/api/groups.go:166-176 | trimming gives the one middle of the text with nothing but white space around it and none at its own ends |
| Text.SpacesAre | internal/api/groups.go:166-176 | the white space meant |
| Rows.DefaultFlagsAre | migrations/003_create_groups.sql:20-31 | the permissions of a new group, column by column |
| Rows.RolesAre | migrations/004_create_memberships.sql:11-28 | admin and member are the roles |
| Rows.TakenWithoutCase | migrations/003_create_groups.sql:46-47 | case makes no difference to whether a handle is taken |
| Outcomes.CreationSucceedsIff | migrations/003_create_groups.sql:36-47 | a creation commits if and only if creator known, name length in range, handle free |
| Outcomes.BlankHandleSucceeds | internal/api/groups.go:154-281 | with fewer than 1000 groups a usable name with a blank handle is created: status 201 |
| Handlers.MembershipHandler.HandleInviteMember | internal/api/memberships.go:209-300 | the code is the uninterrupted run of its small-step form, status and database |
| Handlers.MembershipHandler.HandleAcceptInvitation | internal/api/memberships.go:436-494 | the same for accepting |
| Handlers.MembershipHandler.HandlePromoteMember | internal/api/memberships.go:550-624 | the same for promoting |
| Handlers.MembershipHandler.HandleDemoteMember | internal/api/memberships.go:638-735 | the same for demoting |
| Handlers.MembershipHandler.HandleRemoveMember | internal/api/memberships.go:741-824 | the same for removing |
| Handlers.GroupHandler.HandleCreateGroup | internal/api/groups.go:154-281 | the same for creating a group |
| Handlers.GroupHandler.HandleCreateSubgroup | internal/api/groups.go:696-859 | the same for creating a subgroup |
| Handlers.GroupHandler.HandleUpdateGroup | internal/api/groups.go:547-671 | the same for updating, the counts behind the commit included: alone, both are those of the new database |
| Handlers.GroupHandler.HandleSetArchived | internal/api/groups.go:936-1043 | the same for archiving and unarchiving |
| Handlers.GroupHandler.CreateInTransaction | internal/api/groups.go:807-853 | group and admin membership commit together or not at all; only a taken handle is a conflict |
| Handlers.GroupHandler.ChooseHandle | internal/api/groups.go:175-211 | the handle used is the generated or the validated one, as the small-step form resolves it |
| Handlers.ReachableIsUsable | migrations/004_create_memberships.sql:26-27 | every reachable database meets what the handlers require |
| Database.Database.RecordVersion | migrations/002_create_audit_schema.sql:48-99 | appends one entry with the new row unless deleted, the old row unless inserted, and the current actor |
| Database.Database.PreventLastAdminRemoval | migrations/004_create_memberships.sql:50-77 | raises exactly when an active admin goes or loses the role and no other active admin is left |
| Database.Database.CountGroupMembershipStats | internal/db/groups.sql.go:75-95 | one pass gives the same numbers as the two separate counts |
| Database.Database.CountAdminsByGroup | internal/db/memberships.sql.go:37-48 | the number of active admins |
| Database.Database.CountGroupMembers | internal/db/groups.sql.go:62-73 | the number of accepted memberships |
| Database.Database.GetMembershipByGroupAndUser | internal/db/memberships.sql.go:100-124 | the one membership of that pair, if any |
| Database.Database.NewAuthorizationContext | internal/api/authorization.go:64-94 | a context exists exactly for existing groups; pending invitations give no standing |
| Database.Database.ListGroupsByUserWithCounts | internal/db/groups.sql.go:325-337 | each group of the user once, with the user's role and the counts of the single-group queries |
| Database.Database.InsertGroup | internal/db/groups.sql.go:97-188 | the insert with its constraints, audit entry and drawn id |
| Database.Database.CreateMembership | internal/db/memberships.sql.go:50-88 | the insert with its constraints, audit entry and drawn id |
| Database.Database.AcceptMembership | internal/db/memberships.sql.go:14-35 | the update behind the trigger, or no row |
| Database.Database.UpdateMembershipRole | internal/db/memberships.sql.go:494-520 | the update behind the trigger, or no row |
| Database.Database.DeleteMembership | internal/db/memberships.sql.go:90-98 | the deletion behind the trigger; a missing row is no error |
| Database.Database.UpdateGroup | internal/db/groups.sql.go:506-524 | the partial update with checks and audit entry |
| Database.Database.SetArchived | internal/db/groups.sql.go:471-475 | the archiving updates with audit entry |
| Database.Database.Begin | internal/db/audit.go:24-29 | the actor is set for this transaction |
| Database.Database.End | internal/db/audit.go:40-51 | rollback restores rows and log but not sequences; the actor setting ends |
| Handles.HandleMeetsSpec | internal/api/groups.go:327-373 | the passes give the alphanumeric runs joined by single hyphens, cut to 100, empty under 3 |
| Handles.FixedPoints | internal/api/groups.go:348-372 | generation is idempotent, and its fixed points are exactly the canonical handles |
| Handles.GeneratedIsCanonical | internal/api/groups.go:305-314 | what is generated is empty or valid, without double hyphens |
| Handles.CollapseAfterReplace | internal/api/groups.go:351-355 | two passes are one replacement of non-alphanumeric runs |
| Handles.WordsAreStretches | internal/api/groups.go:348-355 | the words of the specification are the maximal alphanumeric stretches of the text, all of them and in order |
| Handles.HandleLength | internal/api/groups.go:359-371 | a slug of 3 to 100 characters is the handle, a longer one is cut to 100, or to 99 in front of a hyphen, a shorter one gives none |
| Handles.ValidHandleIs | internal/api/groups.go:305-314 | the format spelled out: length, characters, ends |
| UniqueHandles.GenerateUniqueHandle | internal/api/groups.go:387-423 | the loop is the least-suffix search; its early exit is never taken |
| UniqueHandles.UniqueHandleMeaning | internal/api/groups.go:387-423 | base first, then the least free suffix; valid and free; nothing exactly when base and all 1000 are taken |
| UniqueHandles.SearchIsComplete | internal/api/groups.go:399-413 | with fewer than 1000 handles taken a usable name always gets one |
| UniqueHandles.BoundIsSharp | internal/api/groups.go:402-408 | 1000 taken handles can leave none |
| UniqueHandles.CandidatesDiffer | internal/api/groups.go:400-408 | candidates with different suffixes differ even when the base is cut |
| UniqueHandles.CandidateIsValid | internal/api/groups.go:402-408 | every candidate is a valid handle |
| UniqueHandles.CandidateIs | internal/api/groups.go:399-408 | a candidate is base, hyphen and number, the base cut only as far as 100 characters ask |
| UniqueHandles.RoomIsAmple | internal/api/groups.go:404-407 | the base keeps at least 95 characters, so the under-3 exit is unreachable |
| HandleSearch.ChoiceIsAtomic | internal/api/groups.go:180-187 | over every interleaving: the query that ends the choice of a handle ends it as if the whole search had been made at that moment |
| HandleSearch.GeneratedWasFree | internal/api/groups.go:387-423 | a generated handle is valid, was free at its own probe, and all candidates before it were taken then |
| HandleSearch.RunFindsTaken | internal/api/groups.go:399-413 | what a search has found taken stays taken |
| Handlers.HandleSettles | internal/api/groups.go:175-211 | with nobody in between the probes add up to the least-suffix search |
| Decimals.Itoa | internal/api/groups.go:426-436 | the digit loop writes the decimal numeral |
| Decimals.DecimalReads | internal/api/groups.go:426-436 | a numeral is non-empty, all digits, and reads back as its number |
| Decimals.ValueIsPositional | internal/api/groups.go:430-434 | the first digit counts for the most |
| Decimals.NoLeadingZero | internal/api/groups.go:426-436 | and is not zero but in zero itself |
| Usernames.GenerateUsername | internal/auth/username.go:22-53 | the result is a valid username and does not depend on the late random draw |
| Usernames.ForeignCharactersGo | internal/auth/username.go:26-33 | characters outside ASCII make no difference to a username, wherever they stand |
| Usernames.AsciiUsername | internal/auth/username.go:35-50 | on ASCII text the username is the slug, or eight random hexadecimal digits when that is under two characters |
| Usernames.HexDigits | internal/auth/username.go:76-84 | a random name is its bytes in hexadecimal |
| Usernames.AgreesWithHandle | internal/auth/username.go:35-42 | on ASCII text with a slug of 3 to 100 characters it is the group handle |
| Usernames.CollapseIsIdentity | internal/auth/username.go:38-39 | the collapse pass changes nothing |
| Usernames.EnsureAlphanumericEnds | internal/auth/username.go:87-111 | a random name exactly when fewer than two characters are left between the first and the last alphanumeric one, else just what is left |
| Usernames.MakeUsernameUnique | internal/auth/username.go:57-72 | free unless all 100 probes were taken; keeps the username pattern |
| Sessions.SessionStore.Create | internal/auth/session.go:53-71 | field by field: the session stored under its own token holds what was given, created now, expiring one duration from now; nothing when no token could be drawn |
| Sessions.SessionLifetime | internal/auth/session.go:60-96 | created at t and not ended since, a session is found at u if and only if u <= t + duration, whatever is called in between |
| Sessions.SessionStore.Get | internal/auth/session.go:75-96 | found exactly when stored and not expired now; an expired entry is dropped |
| Sessions.SessionStore.GetByUserID | internal/auth/session.go:104-119 | exactly the user's sessions unexpired when looked at, each once |
| Sessions.SessionStore.DeleteByUserID | internal/auth/session.go:122-139 | exactly the user's sessions go |
| Sessions.SessionStore.CleanupExpired | internal/auth/session.go:143-164 | exactly the entries expired when looked at go, and are counted |
| Sessions.SessionStore.Delete | internal/auth/session.go:99-101 | exactly that entry goes |
| Sessions.StoreRefinesSpec | internal/auth/session.go:75-164 | over every run in time order all replies equal those of a map nobody cleans up |
| Sessions.CleanupIsInvisible | internal/auth/session.go:143-164 | a clean-up inserted anywhere changes no later reply |
| Sessions.LazyDeletionIsInvisible | internal/auth/session.go:89-93 | nor does the deletion inside an expired read |
| SessionThreads.LiveSessionsStay | internal/auth/session.go:143-164 | at single-operation granularity a session goes only by its logout, by its own user's bulk deletion, or, expired, by clean-up or an expired read |
| SessionThreads.UserSessionsAreGone | internal/auth/session.go:122-139 | when bulk deletion returns, none of the user's sessions present at its start is left, whatever ran in between |
| SessionThreads.ExpiredSessionsAreGone | internal/auth/session.go:143-164 | when the clean-up returns, nothing is left that was there and had expired when it began |
| SessionThreads.CreatedAsAsked | internal/auth/session.go:53-71 | a new session holds what was given, expires one duration from now and stays on record so |
| SessionThreads.ExpiredReadDeletes | internal/auth/session.go:89-93 | a read that meets an expired session takes it out of the store |
| SessionThreads.GetIsLinearisable | internal/auth/session.go:75-96 | under any interleaving Get answers as the map that nobody cleans up would have at one moment of the call |
| SessionThreads.ListingIsRight | internal/auth/session.go:104-119 | under any interleaving GetByUserID returns every session of the user open throughout the call, and only the user's sessions open at some moment of it |
| SessionThreads.RunKeepsInv | cmd/server/main.go:250-266 | the thread invariant behind both, over every interleaving |
| Passwords.VerifyAfterHash | internal/auth/password.go:60-102 | a password is accepted against the hash of another exactly when the key function agrees under the recovered salt and costs |
| Passwords.VerifyStored | internal/auth/password.go:86-102 | for any stored hash, a password is accepted exactly when the key function gives the stored key, at its own length, under the stored salt and costs |
| Passwords.HashedForm | internal/auth/password.go:30-54 | the stored hash to the letter: algorithm, version 19, 64 MiB, three passes, four threads, salt, 32-byte key |
| Passwords.ShapelessNeverMatches | internal/auth/password.go:65-94 | what lacks the six fields, the algorithm name, the prefixes or base64 symbols matches no password |
| Passwords.CostsMustFit | internal/auth/password.go:80-84 | costs are read if and only if they fit their variables |
| Passwords.VersionsRead | internal/auth/password.go:75-78 | a version may be signed, must fit, and what follows it is ignored |
| Passwords.PrintReadsBack | internal/auth/password.go:44-54 | version, memory, time, threads, salt and hash are recovered in full from the printed form, for all values that fit |
| Passwords.CostReadsBack | internal/auth/password.go:80-84 | the three cost numbers survive printing and scanning |
| Passwords.FieldsSplit | internal/auth/password.go:66-69 | splitting at the dollar sign gives back the six fields |
| Passwords.VersionIsNotCompared | internal/auth/password.go:75-78 | any version number verifies alike |
| Base64.RoundTrip | internal/auth/password.go:86-94 | decoding inverts encoding for all bytes; no dollar sign in the encoding |
| Base64.GroupIsBits | internal/auth/password.go:47-54 | three octets and their four symbols are the same 24 bits |
| Base64.ForeignSymbol | internal/auth/password.go:86-94 | a character outside the alphabet makes the text unreadable |
| Dsn.DsnIs | internal/config/config.go:77-84 | the connection string to the letter |
| Dsn.TwoPassesAreOne | internal/config/config.go:88-94 | the two replacement passes equal one pass over backslashes and quotes |
| Dsn.PasswordReadsBack | internal/config/config.go:77-94 | a reader of the quoted value gets every password back exactly and stops at the closing quote |
| Dsn.ValueReadsBackIff | internal/config/config.go:77-80 | an unquoted value is read back exactly when it has no blank and no backslash, no quote in front, and is not empty unless nothing follows |
| Dsn.DsnReadsBackIff | internal/config/config.go:77-84 | the whole string reads back as the configuration if and only if host, user, database name and SSL mode are such values; the password may be anything |

## Left out

- HTTP routing, cookies, the 401 answers, response bodies but for the counts of an update, logging and the lookup of the inviter's name after an invitation (whose failure is only logged): plumbing around the handlers; a request starts with its authenticated user.
- Read-only handlers (get and list endpoints): they change nothing; the listing query behind one of them is modelled.
- Ordering of listings by name: results are modelled as unordered.
- Transaction isolation below serialisability, and a commit whose acknowledgement is lost.
- Deleting users or groups, TRUNCATE and SNAPSHOT audit operations: no handler performs them.
- 64-bit overflow of ids and counts: ids and counts are unbounded integers.
- Audit columns ts, xact_id, table_oid and table_schema: not used by any property.
- Failure of the handle existence query: it ends the handler like any database error.
- Panics of the key function on zero time or threads: the key function is a total parameter.
- internal/db/pool.go and internal/auth/key.go: smaller variants of what is modelled.
