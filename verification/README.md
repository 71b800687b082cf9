# FAU portal: verified models

A Dafny model of the parts of the FAU portal's backend whose correctness depends on more than
one function, with proofs of what they promise over every input and every run.
`dafny verify dfyconfig.toml` checks the whole project.

- **Members' authority** (`Calendar`, `Periods`, `Rules`, `Access`, `Rows`, `Transactions`,
  `Authority`, `Effects`, `Coverage`, `SweepRuns`, `AdminState`, `Store`, `Framing`). Memberships, dated role
  assignments and handover grants; granting, revoking with its cascades, the last-admin
  safeguard and the late-running handover sweep. `Transactions` says what each transaction does
  to the tables; `Store` is a class that changes the tables in place and refines it;
  `Effects` says from the rows alone when each goes through and what it leaves; `Authority`, `Coverage` and
  `SweepRuns` prove invariants and safety over runs. Dates are a real civil
  calendar with truncation at month ends and saturation at the last date.
- **Retention and history** (`Retention`, `Remembering`, `ProfileRuns`, `Keeping`, `History`). How long a former member's
  fields are kept, and which role a past event names.
- **The change stream** (`Hub`, `Delivery`, `Subscribers`). A state machine over the steps of subscribers,
  committing transactions, the lossy listener and its dispatch loop, interleaved freely; and the
  hub's subscriber lists as a class whose loops leave what those steps leave.
- **Invitations** (`Invitations`, `InvitationRules`, `InvitationRuns`, `InvitationDesk`). Issue, re-send, withdraw
  and accept, with the lookup outside the lock as a step of its own, over the membership tables.
- **Text** (`Text`, `Slug`, `Email`, `Address`, `Mailto`). Slugs, and address lists that a reader
  gets back.
- **The school register** (`SlugHistory`, `Register`, `RegisterRuns`, `RegisterEffects`, `RegisterStore`). Numbers
  and former slugs as chained intervals under plans applied in one transaction.
- **Data keys** (`KeyCache`, `KeyAgreement`). The session cache, and many calls racing to store a
  unit's one wrapped key.

Five things one would expect are false of the code, and each has the exact condition under which
it holds, over every input or every run:

- A post town that is used makes a well-formed slug: if and only if its own has at most 78 characters
  (`Slug.FirstFreeIsSlug`; `Slug.LongTownBreaksTheSlug` shows one that does not).
- A second handover sweep of the day creates nothing: if and only if no role seated in between
  already over is still open (`SweepRuns.SecondSweepCreatesExactlyLateSeats`;
  `InvitationRuns.LateAcceptanceFeedsSecondSweep` shows an invitation that leads to one).
- A school's slug history says when each slug was live: if and only if each slug since replaced
  or given up was got at once (`RegisterRuns.SchoolHistoryIsTrueExactly`;
  `RegisterRuns.FirstSlugIsBackdated` shows one that was not).
- A replaced slug is recorded: if and only if its change comes after every instant one was given up
  (`SlugHistory.ReplacedSlugIsRecordedExactly`; `SlugHistory.SteppingBackLosesASlug`).
- Sessions agree on a unit's key after a rollback: if and only if the transaction has stored no
  key (`KeyAgreement.RollbackKeepsAgreementExactly`; `KeyAgreement.RollbackBreaksAgreement`).

What the outside world decides is a parameter: the time and the Oslo date of each transaction,
new ids and tokens, the answer of `authorize`, the Unicode tables, and what a wrapped key
unwraps to. New tokens are assumed to differ from every earlier one.

## Model

| member | source | states |
|---|---|---|
| `Rules.AddMonthsMonotone` | backend/crates/domain/src/membership/rules.rs:36-38 | Month addition that truncates at month ends and saturates at the last date is monotone in the date and in the number of months. |
| `Rules.HandoverPeriodSpec` | backend/crates/domain/src/membership/rules.rs:43-55 | A handover window starts on the exclusive end of the admin role and ends in the sixth month after, on the same day of the month or, where that month is shorter, on its last day; it is missing exactly for the last date of the calendar. |
| `Rules.HandoverWindowsKeepOrder` | backend/crates/domain/src/membership/rules.rs:43-55 | Of two roles that have windows, the one that ends later has the window that closes no earlier. |
| `Rules.DefaultAdminEndIsFirstOctober` | backend/crates/domain/src/membership/rules.rs:59-72 | The date offered at signup is the first 1 October at or after today plus three months, or the last date of the calendar when there is none. |
| `Rules.DefaultPassesValidation` | backend/crates/domain/src/membership/rules.rs:59-87 | For every date, the end of the calendar included, the date offered passes the one-to-24-months check. |
| `Rules.ValidateAdminEndSpec` | backend/crates/domain/src/membership/rules.rs:79-87 | A chosen end date is accepted exactly from the day one month after today to the day 24 months after, both included, and is too soon exactly before. |
| `Calendar.FirstClosedForm` | backend/crates/domain/src/membership/rules.rs:36-38 | The month lengths the dates are counted with add up to the Gregorian leap-year rule. |
| `Calendar.CheckedAddMonotone` | backend/crates/domain/src/membership/rules.rs:36-38 | Month addition before saturation is monotone in the date and the count, and what leaves the calendar leaves it for every later date and larger count. |
| `Calendar.CheckedAddLands` | backend/crates/domain/src/membership/rules.rs:36-38 | Month addition lands in the month that many later, on the same day of the month, or on its last day where it is shorter; and leaves the calendar exactly when that month does. |
| `Retention.RetainedUntilSpec` | backend/crates/domain/src/membership/retention.rs:48-55 | The five settings: none keeps nothing, and the others end 3, 6, 12 or 24 months after the end date, by the same rule. |
| `Access.LeastUncoveredDay` | backend/crates/domain/src/membership/access.rs:133-178 | Between a day with an administrator and a later day without one, coverage first stops on the end of one of the periods. |
| `Access.SafeguardIsExact` | backend/crates/domain/src/membership/access.rs:133-178 | The check of a few chosen days answers true if and only if some day from today on has an administrator through the removed rows and none through the remaining ones. |
| `Access.HighestCapability` | backend/crates/domain/src/membership/access.rs:92-107 | The capability of a membership is the highest of its roles valid on the day. |
| `Access.EvaluateAccessExactly` | backend/crates/domain/src/membership/access.rs:77-112 | Nothing without standing of FAU, account and membership; with it, administrator, guest or no capability exactly by the roles valid today, handover exactly by a valid grant, and the earliest coming start exactly when there is no capability. |
| `AdminState.SplitAssignments` | backend/crates/persistence/src/membership/sql.rs:586-600 | The loop that sorts assignments into removed and remaining shows exactly each side. |
| `AdminState.SplitGrants` | backend/crates/persistence/src/membership/sql.rs:600-606 | A grant goes with its source assignment: the two lists show exactly each side. |
| `AdminState.CheckLastAdmin` | backend/crates/persistence/src/membership/sql.rs:586-613 | Refuses, unless confirmed, exactly when some day from today on is covered by a loaded row the action ends and by none it leaves; otherwise returns whether that is so. |
| `AdminState.LoadedGap` | backend/crates/persistence/src/membership/sql.rs:503-580 | The loaded rows have such a day if and only if the database has. |
| `AdminState.LoadedHasAdmin` | backend/crates/persistence/src/membership/sql.rs:575-579 | The loaded rows show an administrator on a day if and only if the database has one. |
| `Store.MembershipStore.GrantRole` | backend/crates/persistence/src/membership/roles.rs:39-101 | Grants a role in place, or refuses with the first error that applies and changes nothing. |
| `Store.MembershipStore.SeatMember` | backend/crates/persistence/src/membership/invitations.rs:854-880 | Finds, reopens or creates the account's membership, writes the profile and inserts the offered roles, as the step is specified. |
| `Store.MembershipStore.RevokeRoleAssignment` | backend/crates/persistence/src/membership/roles.rs:131-204 | Revokes one assignment and the grant from it, or refuses and changes nothing. |
| `Store.MembershipStore.AddGroupMember` | backend/crates/persistence/src/membership/groups.rs:411-486 | Puts one membership that has not ended into one group by hand, or refuses with the first error that applies and changes nothing. |
| `Store.MembershipStore.RevokeMembership` | backend/crates/persistence/src/membership/roles.rs:234-391 | Ends the membership: the two assignment cascades, the profile, every grant and every group, or refuses and changes nothing. |
| `Store.MembershipStore.RevokeEndedAdminRolesWithOpenWindow` | backend/crates/persistence/src/membership/roles.rs:409-448 | Revokes exactly the unrevoked ended admin roles whose handover window is not over. |
| `Store.MembershipStore.CreateTenantHandoverGrants` | backend/crates/persistence/src/membership/handover.rs:69-148 | Inserts a grant for every candidate read under the lock, and counts them. |
| `Store.MembershipStore.CreateHandoverGrants` | backend/crates/persistence/src/membership/handover.rs:45-67 | The sweep over a scan taken once: afterwards no active FAU has a candidate left, and it returns how many grants it added. |
| `Store.MembershipStore.EndedOn` | backend/crates/persistence/src/membership/retention.rs:82-111 | Computes the one end date: the latest held end, else the latest revocation, else the membership's own, never after today. |
| `Store.MembershipStore.SettleProfile` | backend/crates/persistence/src/membership/retention.rs:227-278 | Keeps, stamps or clears the profile as the settling rule says, and returns which. |
| `Store.MembershipStore.ReopenProfile` | backend/crates/persistence/src/membership/retention.rs:291-335 | A returner leaves every group when ended, is settled, and becomes current again. |
| `Store.MembershipStore.ClearEndedProfiles` | backend/crates/persistence/src/membership/retention.rs:385-418 | One FAU: settles every due membership and clears hand-made group rows of the ended ones, counting the profiles it cleared. |
| `Store.MembershipStore.ClearAllEndedProfiles` | backend/crates/persistence/src/membership/retention.rs:346-418 | The scan and then each FAU it named: afterwards every ended membership anywhere that keeps a field is stamped after today and sits in no group by hand, none has a field it did not have, and the count is of the memberships that lost their fields. |
| `Store.MembershipStore.SetRetentionMonths` | backend/crates/persistence/src/membership/retention.rs:460-560 | Settles under the old setting, changes it, and restamps under the new one. |
| `Store.MembershipStore.EraseMemberNames` | backend/crates/persistence/src/membership/retention.rs:577-623 | Clears the account's fields everywhere and marks its memberships erased, counting them. |
| `Effects.GrantGoesThroughExactly` | backend/crates/persistence/src/membership/roles.rs:39-101 | A role is granted if and only if an administrator, by the rows, of an open FAU grants it to a current member for a period not over under a new id; in an open FAU anyone else is refused with NotAuthorized, whatever the target. |
| `Effects.AddingGoesThroughExactly` | backend/crates/persistence/src/membership/groups.rs:411-460 | A member is added to a group if and only if an administrator of an open FAU adds a current membership that has not ended and is not there already; anyone else gets NotAuthorized. |
| `Effects.RevokingARoleGoesThroughExactly` | backend/crates/persistence/src/membership/roles.rs:131-204 | A role is ended if and only if it is an unrevoked one of the FAU, its holder or an administrator asks, and the safeguard is not in the way or is confirmed; anyone else gets NotAuthorized, whatever the role. |
| `Effects.RevokingAMemberGoesThroughExactly` | backend/crates/persistence/src/membership/roles.rs:234-272 | A membership is ended if and only if it is an unrevoked one of the FAU, the member or an administrator asks, and the safeguard is not in the way or is confirmed; anyone else gets NotAuthorized, whatever the target. |
| `Effects.SeatingGoesThroughExactly` | backend/crates/persistence/src/membership/invitations.rs:854-880 | Someone is seated if and only if the FAU is open, the account usable, the membership expected is the account's own and not erased, or there is none, and the ids are new. |
| `Effects.GrantDoes` | backend/crates/persistence/src/membership/roles.rs:70-101 | A grant leaves one new assignment in the words asked for; no other role, grant or membership changes. |
| `Effects.SeatDoes` | backend/crates/persistence/src/membership/invitations.rs:854-880 | An acceptance leaves one new assignment per offer in its words, the membership current and unstamped with the given name, and everything else as it was. |
| `Effects.RevokingARoleDoes` | backend/crates/persistence/src/membership/roles.rs:131-204 | Exactly that assignment is revoked that day, and exactly its grant. |
| `Effects.RevokingAMemberDoes` | backend/crates/persistence/src/membership/roles.rs:274-391 | Exactly the member's roles that run, are booked, or have ended with the handover window not over are revoked that day, exactly its grants, and exactly its places in groups. |
| `Effects.SweepDoes` | backend/crates/persistence/src/membership/handover.rs:69-148 | A sweep of an active FAU gives a grant to exactly the ended, unrevoked admin roles of current members that have none and whose window is not over, by the rows and the calendar; it runs from the role's end to six months on. |
| `Effects.EraseDoes` | backend/crates/persistence/src/membership/retention.rs:577-623 | Exactly the account's memberships lose name, address and stamp and are marked erased. |
| `Effects.SettingDoes` | backend/crates/persistence/src/membership/retention.rs:460-560 | The setting is written to that account alone; roles, grants and groups stay. |
| `Effects.NoRoleEndsWithoutAuthority` | backend/crates/persistence/src/membership/roles.rs:131-391 | Over every run, a role that has been revoked was ended by a move whose actor held it or was that day, by the rows, an administrator of its FAU. |
| `Effects.NoMembershipEndsWithoutAuthority` | backend/crates/persistence/src/membership/roles.rs:234-391 | Over every run, a membership that has been revoked was ended by itself or by someone who was that day an administrator of its FAU. |
| `Effects.NoRoleComesWithoutAuthority` | backend/crates/persistence/src/membership/roles.rs:39-101 | Over every run, a new role was granted by someone who was that day an administrator of the FAU, to a current member, or was seated by an acceptance. |
| `Effects.NoGroupIsJoinedWithoutAuthority` | backend/crates/persistence/src/membership/groups.rs:411-486 | Over every run, whoever is new in a group by hand was added by someone who was that day an administrator of the FAU. |
| `Authority.StepEvolves` | backend/crates/persistence/src/membership/roles.rs:39-448 | Whatever transaction commits or is refused: assignments only gain a revocation dated today, grants keep their period and are never reopened, new grants come from candidates. |
| `Authority.SoundRun` | backend/crates/persistence/src/membership/handover.rs:105-145 | In every state a run reaches: each grant has an admin-class source and exactly that source's handover period, an unrevoked grant an unrevoked source, and a revoked membership nothing that still counts. |
| `Authority.NoResurrection` | backend/crates/persistence/src/membership/roles.rs:274-391 | After a membership is revoked no assignment it held, and no grant from one, is valid on any later day, whatever follows. |
| `Coverage.RevocationEndsExactly` | backend/crates/persistence/src/membership/roles.rs:268-391 | On every day, a row covers after a revocation exactly when it did before and the safeguard did not count it as removed. |
| `Coverage.AdminsAfterRevocation` | backend/crates/persistence/src/membership/sql.rs:586-613 | After a revocation a coming day has an administrator if and only if a row that remains covers it. |
| `Coverage.RefusedExactlyWhenADayIsLost` | backend/crates/persistence/src/membership/sql.rs:586-613 | An unconfirmed revocation that is otherwise allowed is refused if and only if carrying it out would take the last administrator of some day from today on. |
| `Coverage.AdminDaysNeverShrink` | backend/crates/persistence/src/membership/sql.rs:586-613 | Over every run without a confirmed removal, every coming day that has an administrator still has one. |
| `Coverage.SecondSweepCreatesNone` | backend/crates/persistence/src/membership/handover.rs:69-148 | After a sweep of an active FAU, whatever transactions follow and on whatever days, no assignment that existed at the sweep is a candidate again that day, and none that was over at the sweep is one on any later day. What was added in between is the subject of the rows of `SweepRuns`. |
| `Coverage.SweepIsIdempotent` | backend/crates/persistence/src/membership/handover.rs:69-148 | With nothing in between, the second sweep changes nothing. |
| `Coverage.ScanFindsEveryTenant` | backend/crates/persistence/src/membership/handover.rs:45-67 | The unlocked scan names every FAU with a role to hand over. |
| `Coverage.OneTenantDone` | backend/crates/persistence/src/membership/handover.rs:45-67 | Sweeping one scanned FAU leaves only the others to visit; other transactions in between are the subject of the rows of `SweepRuns`. |
| `SweepRuns.SecondSweepCreatesExactlyLateSeats` | backend/crates/persistence/src/membership/handover.rs:69-148 | After a sweep of an active FAU and whatever transactions follow that day, the roles a second sweep hands over are exactly those that an acceptance in between seated already over with their window open, and that are still unrevoked, ungranted and held by a usable member; so none if and only if no such role is left. |
| `SweepRuns.SecondSweepChangesNothing` | backend/crates/persistence/src/membership/handover.rs:69-148 | If no acceptance in between offers such a role, which is read off the offered periods, the second sweep changes nothing. |
| `SweepRuns.LateSeatFeedsSecondSweep` | backend/crates/persistence/src/membership/handover.rs:69-148 | Such roles exist: a sweep leaves an FAU no candidate, someone who is not a member is seated with one role that is over and has its window open, and a second sweep that day hands it over. |
| `InvitationRuns.LateAcceptanceFeedsSecondSweep` | backend/crates/persistence/src/membership/invitations.rs:774-905 | How one comes about: an invitation issued while the role runs, by an administrator who still is one, is accepted within its 14 days after the role has ended and after that day's sweep; the acceptance goes through and the role it seats is a candidate. |
| `SweepRuns.NewCandidateWasSeated` | backend/crates/persistence/src/membership/invitations.rs:827-905 | Only an acceptance, which does not look at the periods it was offered, adds a role that is already over. |
| `SweepRuns.OthersAddNoVisit` | backend/crates/persistence/src/membership/handover.rs:45-67 | Any other transaction of the day adds no FAU to those left to visit, as long as it offers nothing late. |
| `SweepRuns.ScanThenVisits` | backend/crates/persistence/src/membership/handover.rs:45-67 | A scan and a visit to each FAU it named, with any other transactions before, between and after the visits, of that day and of later ones: if nothing that was over at the scan is offered in between, all that an active FAU has left to hand over, on the day it ends or after, are roles that ended after the scan. |
| `SweepRuns.ScanThenVisitsLeavesNothingOld` | backend/crates/persistence/src/membership/handover.rs:45-67 | Whatever is offered in between, no role that was over at the scan is left to hand over, then or later. |
| `Coverage.ReturnerGetsNothingBack` | backend/crates/domain/src/membership/access.rs:77-112 | A returned member's old assignments and grants give no capability and no handover authority on any later day. |
| `Remembering.ProfilesSoundRun` | backend/crates/persistence/src/membership/retention.rs:153-335 | No run leaves a stamp without a field, an erased membership with a field, or a revoked membership with a field and no stamp. |
| `Remembering.SweptProfiles` | backend/crates/persistence/src/membership/retention.rs:346-418 | After the sweep every ended membership of the FAU that keeps a field is stamped after today and sits in no group by hand. |
| `Remembering.ProfileSweepIsIdempotent` | backend/crates/persistence/src/membership/retention.rs:346-418 | Running the sweep again the same day changes nothing. |
| `ProfileRuns.DoneStays` | backend/crates/persistence/src/membership/retention.rs:346-418 | Whatever transaction commits, an ended membership that it does not bring back stays ended, has what it keeps stamped after the day of the sweep, and is in no group by hand, if so before. |
| `ProfileRuns.ProfileScanThenVisits` | backend/crates/persistence/src/membership/retention.rs:346-418 | A scan and a visit to each FAU it named, with any other transactions in between, of that day and of later ones: every membership that had ended at the scan and was not brought back is ended, keeps only what is stamped after the day of the sweep, and is in no group by hand. |
| `Remembering.SettingNeverRevives` | backend/crates/persistence/src/membership/retention.rs:460-560 | A profile whose period under the old setting was over has no field left after the setting changes. |
| `Remembering.SettingRestamps` | backend/crates/persistence/src/membership/retention.rs:460-560 | What an ended membership keeps is stamped with its end date plus the new months, and that day is still ahead. |
| `Remembering.SettingLeavesOthers` | backend/crates/persistence/src/membership/retention.rs:460-560 | Active memberships and other accounts' are unchanged. |
| `Remembering.EndDateIsAFactOfThePast` | backend/crates/persistence/src/membership/retention.rs:82-111 | A membership that has ended with at least one role has the same end date on every later day of every run that gives it no new role. |
| `Keeping.EndDateInRows` | backend/crates/persistence/src/membership/retention.rs:82-111 | The end date in rows: the latest day a held role stopped being held, else the latest revocation, else the membership's own, and never after today. |
| `Keeping.EndedExactly` | backend/crates/persistence/src/membership/profile.rs:159-177 | A membership has ended exactly when it is revoked, or each of its roles is revoked or over. |
| `Keeping.RevocationKeepsExactly` | backend/crates/persistence/src/membership/roles.rs:285-325 | Ending a membership keeps its name and address, stamped with the end date plus the setting's months, if and only if that day is ahead, and otherwise clears them; one that had ended already goes by its stamp. |
| `Keeping.SweepKeepsExactly` | backend/crates/persistence/src/membership/retention.rs:227-278 | The daily sweep leaves a row whose stamp is ahead as it is, clears one whose stamp is not, and keeps an unstamped one until the end date plus the setting's months if and only if that day is ahead. |
| `Keeping.SettingKeepsExactly` | backend/crates/persistence/src/membership/retention.rs:460-560 | After a change of setting the fields are kept, until the end date plus the new months, if and only if they had not run out under the old setting and that day is ahead. |
| `Keeping.ReturnKeepsExactly` | backend/crates/persistence/src/membership/retention.rs:291-335 | A returner has the fields back if and only if they had not run out, and without a stamp. |
| `Keeping.AcceptanceKeepsExactly` | backend/crates/persistence/src/membership/profile.rs:120-148 | An acceptance without an address keeps the one there is if and only if the membership is current or its fields have not run out. |
| `Keeping.KeptUntilTheStamp` | backend/crates/persistence/src/membership/retention.rs:116-130 | Over every run, the fields of an ended, stamped membership are there unchanged until the day of the stamp, unless the account is erased, its setting changed, or the membership brought back. |
| `Keeping.ActiveFieldsStay` | backend/crates/persistence/src/membership/retention.rs:227-278 | The fields of a membership that has not ended change only when it is ended or erased or an acceptance writes them. |
| `History.HeldRoles` | backend/crates/persistence/src/membership/names.rs:130-165 | The loop keeps the roles held on at least one day, cut at their revocation. |
| `History.HeldDays` | backend/crates/persistence/src/membership/names.rs:148-163 | A day is held in the result exactly when some assignment held it, before its end and its revocation. |
| `History.HeldRolesAreTheRows` | backend/crates/persistence/src/membership/names.rs:130-165 | The roles held are exactly one per assignment held at least a day, with its name and class, from its start to its end or earlier revocation. |
| `History.LabelNames` | backend/crates/domain/src/directory/history.rs:94-112 | A label gives the role's name, the calendar year it began, and the calendar year of the last day it was held. |
| `History.ChosenIsBest` | backend/crates/domain/src/directory/history.rs:94-112 | The role shown for a day is one held then, by class and then earliest start; else the nearest end before; else the first start after. |
| `History.ChosenIsFirst` | backend/crates/domain/src/directory/history.rs:94-112 | Of equally good names the first in order is shown: every role before it is a worse one. |
| `History.MergeRuns` | backend/crates/domain/src/directory/history.rs:153-168 | Sorting and merging touching spans gives non-empty runs at least a day apart that cover exactly the held days. |
| `History.CurrentPeriod` | backend/crates/domain/src/directory/history.rs:153-176 | If today is held, the period starts on the day from which every day to today is held and before which the day is not; otherwise today. Roles before it are the earlier ones. |
| `History.PeriodStartIsLeast` | backend/crates/domain/src/directory/history.rs:153-176 | No earlier day begins an unbroken run to today. |
| `History.EachRoleOnOneSide` | backend/crates/domain/src/directory/history.rs:130-144 | Every role is in the earlier period or starts on or after the current one, never both. |
| `History.ReturnerIsNamedOnlyNow` | backend/crates/domain/src/directory/history.rs:138-144 | The label of a day before the current period names an earlier role only. |
| `Hub.NoLostRevocationStep` | backend/crates/persistence/src/membership/events.rs:195-236 | Every step of every party keeps this: a live stream that passed its check, of a membership revoked since, has its notification queued, is being closed, or will be by a close-all that is due. |
| `Hub.NoLostRevocationRun` | backend/crates/persistence/src/membership/events.rs:195-236 | So does every run. |
| `Hub.DrainedMeansClosed` | backend/crates/persistence/src/membership/events.rs:472-517 | In every interleaving, once the listener is healthy and drained no open stream belongs to a membership revoked after its check. |
| `Hub.SignalsSoundRun` | backend/crates/persistence/src/membership/events.rs:132-153 | In every interleaving a finished close has its flag set and has woken any reader that is past its flag check. |
| `Hub.ClosedGivesNothing` | backend/crates/persistence/src/membership/events.rs:261-271 | Once close has returned, no later poll returns an item, wherever the reader stood and whatever was buffered. |
| `Hub.DeliverAuthorises` | backend/crates/persistence/src/membership/events.rs:392-426 | One delivery's answer extends what is authorised for its own viewer only, and never contradicts an answer the dispatch already has. |
| `Hub.NoGaps` | backend/crates/persistence/src/membership/events.rs:367-431 | In every interleaving, received plus buffered is a prefix of the changes authorised since registration, equal to it while registered and no dispatch is under way, and at most 64 are buffered. That a stream stays registered is the subject of the rows of `Delivery`. |
| `Delivery.AllowedIsBuffered` | backend/crates/persistence/src/membership/events.rs:408-416 | An authorised change reaches the buffer of a live stream with fewer than 64 buffered, which stays registered. |
| `Delivery.EndsExactly` | backend/crates/persistence/src/membership/events.rs:358-431 | A registered stream is unregistered by exactly these: its reader's drop, a failed check, a finished close, a close of all, no connection to authorise with, a failed answer, or an authorised change it has no room for. |
| `Delivery.ClosedForItsOwn` | backend/crates/persistence/src/membership/events.rs:369-421 | A stream is to be closed only because its own membership's revocation was announced or its own answer was no access. |
| `Delivery.RecvReturnsTheFirst` | backend/crates/persistence/src/membership/events.rs:261-271 | A reader of an open stream with something buffered gets the first of it, wherever nothing has closed the stream. |
| `Delivery.PollReturnsTheFirst` | backend/crates/persistence/src/membership/events.rs:261-271 | Past the flag check, a poll that no close has woken returns the first item buffered. |
| `Delivery.NothingAnnouncedIsSkipped` | backend/crates/persistence/src/membership/events.rs:472-485 | While the connection holds, what was announced is what was taken up, in the order of the commits, and what is still queued. |
| `Delivery.DispatchAims` | backend/crates/persistence/src/membership/events.rs:380-395 | A change taken up is recorded and aimed at exactly the streams registered in its FAU. |
| `Delivery.RevocationAims` | backend/crates/persistence/src/membership/events.rs:369-379 | A revocation taken up closes exactly the streams of that membership in that FAU. |
| `Delivery.UnendedStreamGetsAll` | backend/crates/persistence/src/membership/events.rs:358-431 | From any reachable world a registered stream is still registered after a run if and only if no step of it ended the stream; and then every change taken up for its FAU is on record, and all that was authorised of it is received or buffered. |
| `Subscribers.HubInner.Subscribe` | backend/crates/persistence/src/membership/events.rs:195-217 | Registers the subscription in its tenant's list before any check. |
| `Subscribers.HubInner.Retain` | backend/crates/persistence/src/membership/events.rs:313-325 | The tenant's list keeps exactly the entries that pass the test, in order, and theirs are the senders left; other tenants' lists are unchanged. |
| `Subscribers.HubInner.CloseAndRemove` | backend/crates/persistence/src/membership/events.rs:335-350 | Every matching entry's signal is raised and its sender dropped; nothing else changes. |
| `Subscribers.HubInner.CloseAll` | backend/crates/persistence/src/membership/events.rs:352-354 | Every list is emptied and every sender dropped; no signal is raised. |
| `Subscribers.HubInner.Dispatch` | backend/crates/persistence/src/membership/events.rs:367-431 | Each subscription registered at the start ends as its membership's answer says, or unregistered when no connection could be had; all others are unchanged. |
| `Subscribers.CloseSteps` | backend/crates/persistence/src/membership/events.rs:145-148 | Flag then waiters in the protocol leaves what the list operation leaves. |
| `Subscribers.DeliverSteps` | backend/crates/persistence/src/membership/events.rs:392-426 | One delivery in the protocol leaves what the loop leaves. |
| `InvitationDesk.Desk.Insert` | backend/crates/persistence/src/membership/invitations.rs:76-151 | Writes the row every issuing path writes, with 14 days to expiry, or refuses a clash. |
| `InvitationDesk.Desk.Issue` | backend/crates/persistence/src/membership/invitations.rs:295-410 | Issues by an administrator or under the actor's own grant, or refuses with the first error that applies and changes nothing. |
| `InvitationDesk.ResolveRoles` | backend/crates/persistence/src/membership/invitations.rs:155-252 | The offer is refused for the first role at fault. |
| `InvitationDesk.Desk.Resend` | backend/crates/persistence/src/membership/invitations.rs:574-662 | Replaces the token and restarts the 14 days; authority is checked first. |
| `InvitationDesk.Desk.Withdraw` | backend/crates/persistence/src/membership/invitations.rs:668-713 | Marks a pending invitation withdrawn, on a frozen FAU too. |
| `InvitationDesk.Desk.LookUp` | backend/crates/persistence/src/membership/invitations.rs:768-773 | The unlocked read finds the invitation that holds the token, if any does. |
| `InvitationDesk.Desk.Accept` | backend/crates/persistence/src/membership/invitations.rs:774-905 | Re-checks the token under the lock, applies the rules in their order, seats the member and marks the invitation; a refused seat undoes the account. |
| `InvitationDesk.OverrideAdminEnds` | backend/crates/persistence/src/membership/invitations.rs:855-868 | Gives every admin role the leader's end date, or stops at the first it would empty. |
| `InvitationRules.InsertingExactly` | backend/crates/persistence/src/membership/invitations.rs:76-152 | Every path that issues writes a pending row in its own words that expires in fourteen days, unless the id or token is taken. |
| `InvitationRules.OfferableExactly` | backend/crates/persistence/src/membership/invitations.rs:155-290 | Roles are offered if and only if none is over, bound to an archived group, or named twice. |
| `InvitationRules.IssuingExactly` | backend/crates/persistence/src/membership/invitations.rs:295-418 | An invitation is issued if and only if the FAU is open, there are roles and all can be offered, and the actor is an administrator by the rows, or holds the grant in force and offers no guest role and not to themself; without authority it is NotAuthorized. |
| `InvitationRules.ResendingExactly` | backend/crates/persistence/src/membership/invitations.rs:534-665 | Re-sending takes an administrator, or the issuer whose grant is in force; a pending invitation of an open FAU; and gives a new token and fourteen days. Without authority it is NotAuthorized. |
| `InvitationRules.WithdrawingExactly` | backend/crates/persistence/src/membership/invitations.rs:534-570 | Withdrawing takes an administrator or the issuer while a current member, and a pending invitation; it is marked and nothing else changes. |
| `InvitationRules.RolesToSeatExactly` | backend/crates/persistence/src/membership/invitations.rs:845-860 | An end date of the leader's is taken for an activation only, from one to 24 months on, by exactly the admin roles, each of which must begin before it; other roles are seated as offered. |
| `InvitationRules.RefusalsInOrder` | backend/crates/domain/src/membership/acceptance.rs:54-98 | The first rule that fails names the refusal: revoked, accepted, expired, another address, account disabled, FAU not active, FAU frozen, authority gone. |
| `InvitationRules.AcceptingExactly` | backend/crates/persistence/src/membership/invitations.rs:757-905 | An acceptance goes through if and only if the invited address accepts a pending, current invitation with its token, the account is not disabled, the FAU is open, what the invitation rests on stands by the rows, its roles resolve, and the membership expected is the account's own. |
| `InvitationRules.AcceptingDoes` | backend/crates/persistence/src/membership/invitations.rs:862-930 | The invited address gets an account, the expected membership is that account's in the inviting FAU, it holds exactly one new assignment per role, and the invitation is accepted by it. |
| `InvitationRuns.StepTraced` | backend/crates/persistence/src/membership/invitations.rs:574-713 | Every step keeps each row in agreement with its history: the token and expiry are the latest issued, pending exactly when nothing has settled it, never both accepted and withdrawn. |
| `InvitationRuns.AcceptedOnceWithItsLatestToken` | backend/crates/persistence/src/membership/invitations.rs:757-830 | Over every run, with other steps between lookup and lock, an invitation is accepted only with its latest token, before that token's expiry, and nothing happens to it afterwards. |
| `InvitationRuns.AcceptedByTheInvited` | backend/crates/domain/src/membership/acceptance.rs:54-98 | Over every run an invitation is accepted only by the address every token of it was issued to, on a day on which that account is not disabled, the FAU is active and not frozen, and the rows it rests on stand: the issuer an administrator, the grant in force, or no administrator and the seat that issued it. |
| `InvitationRuns.ReplacedTokenIsDead` | backend/crates/persistence/src/membership/invitations.rs:617-626 | Once an invitation is re-sent its earlier token accepts nothing. |
| `InvitationRuns.SettledStays` | backend/crates/persistence/src/membership/invitations.rs:680-700 | A settled invitation stays as it is and is never both accepted and withdrawn. |
| `InvitationRuns.HandoverInvitationDiesWithItsIssuer` | backend/crates/domain/src/membership/acceptance.rs:54-88 | When the membership behind a handover grant is revoked, an invitation issued under it is never accepted, whatever follows. |
| `Text.Fold` | backend/crates/domain/src/register/text.rs:18-37 | The fold loop is the letter table applied character by character between lower-casing and decomposing. |
| `Text.FoldKeepsPlain` | backend/crates/domain/src/register/text.rs:18-37 | Text that is already plain folds to itself with either table. |
| `Text.LetterTable` | backend/crates/domain/src/register/text.rs:18-36 | The letters that are written out, each with its spelling in both tables, and that no other is changed. |
| `Text.FoldLowersAndDecomposes` | backend/crates/domain/src/register/text.rs:18-36 | Folding lowers the case before the table and decomposes after it. |
| `Text.Collapse` | backend/crates/domain/src/register/text.rs:45-64 | The loop with the gap flag gives the maximal letter-and-digit runs of the cleaned text, joined by one separator each. |
| `Text.CleanedBoth` | backend/crates/domain/src/register/text.rs:38-64 | Character by character, in order: the four apostrophes go, ASCII capitals become small, and the rest stays. |
| `Text.CollapsedSpec` | backend/crates/domain/src/register/text.rs:42-64 | The result is well formed and has exactly the words of the cleaned input. |
| `Text.CollapseTwice` | backend/crates/domain/src/register/text.rs:42-64 | Collapsing a collapsed text, with either separator, is collapsing the original: idempotent, and slug and search forms have the same words. |
| `Text.FixedExactlyWhenWellFormed` | backend/crates/domain/src/register/text.rs:42-64 | The well-formed texts are exactly those collapsing leaves alone. |
| `Slug.CutSpec` | backend/crates/domain/src/register/slug.rs:59-71 | A cut slug is a slug: the longest whole-word prefix that fits, or as much of the first word as does. |
| `Slug.SlugifySpec` | backend/crates/domain/src/register/slug.rs:39-53 | A slug is well formed and at most 80 characters; a name has none exactly when no word is left of it. |
| `Slug.SlugifyKeepsTheWords` | backend/crates/domain/src/register/slug.rs:39-72 | A slug is the words of the folded name joined by hyphens: all when they fit in 80 characters, and else the longest run of whole words that does, or a cut of the first. |
| `Slug.SlugifyTwice` | backend/crates/domain/src/register/slug.rs:39-46 | Slugging a slug changes nothing. |
| `Slug.MunicipalitySlugSpec` | backend/crates/domain/src/register/slug.rs:87-92 | A municipality's slug is its four digits, a hyphen and the name's slug. |
| `Slug.MunicipalitySlugExactly` | backend/crates/domain/src/register/slug.rs:87-95 | There is a municipality slug if and only if the number is four digits and the name has a word left; a bad number is told first. |
| `Slug.AppendedFits` | backend/crates/domain/src/register/slug.rs:77-84 | A suffix fits within the cap as a slug if and only if it has at most 78 characters. |
| `Slug.AppendedSpec` | backend/crates/domain/src/register/slug.rs:59-83 | A suffix follows a hyphen and the whole base when that fits, or else its longest run of whole words that does. |
| `Slug.LongTownBreaksTheSlug` | backend/crates/domain/src/register/slug.rs:73-112 | The comment says a post town always leaves room; a town whose slug has 79 characters gives a slug that starts with a hyphen. |
| `Slug.NumberedDiffer` | backend/crates/domain/src/register/slug.rs:116-121 | Numbered candidates differ, even where the stem was cut. |
| `Slug.FirstFreeIsFree` | backend/crates/domain/src/register/slug.rs:99-124 | With fewer taken slugs than numbers the search ends; its result is free and is the first free candidate in order. |
| `Slug.FirstFreeIsSlug` | backend/crates/domain/src/register/slug.rs:99-124 | The result is a slug within the cap if and only if the base is free, no town is used, or the town's slug has at most 78 characters. |
| `Email.ParsedIsAddress` | backend/crates/domain/src/email.rs:26-63 | An address that parses has a local part, an @, and a domain without separator, quote or backslash. |
| `Email.ParsesExactly` | backend/crates/domain/src/email.rs:26-63 | An address parses if and only if, within its outer white space, it is at most 254 bytes without space or control characters, with something before its one @ and a dotted name of letters, digits and inner hyphens after; it comes out in lower case. |
| `Address.NewRecipients` | backend/crates/domain/src/directory/address.rs:93-101 | The loop with the seen set keeps first occurrences. |
| `Address.FirstsInOrder` | backend/crates/domain/src/directory/address.rs:93-101 | What is kept comes in the order in which each address first occurs. |
| `Address.FirstsAreTheSame` | backend/crates/domain/src/directory/address.rs:93-101 | Exactly the given addresses are kept. |
| `Address.WriteAddress` | backend/crates/domain/src/directory/address.rs:158-178 | The quoting loop writes the addr-spec. |
| `Address.WrittenBareExactly` | backend/crates/domain/src/directory/address.rs:145-178 | An address is written as it is if and only if its local part is atoms between single dots, and else with the local part quoted. |
| `Address.ReadWritten` | backend/crates/domain/src/directory/address.rs:158-178 | Reading an addr-spec by RFC 5322, sections 3.2.4 and 3.4.1, gives the address back. |
| `Address.CopyTextReadsBack` | backend/crates/domain/src/directory/address.rs:135-143 | Splitting the copied text outside quotes, for either separator, recovers exactly the recipients in order. |
| `Address.CopyTextJoins` | backend/crates/domain/src/directory/address.rs:135-143 | Each address as written, with a comma or semicolon and a space between. |
| `Mailto.PercentEncode` | backend/crates/domain/src/directory/address.rs:180-192 | The loop writes the percent-encoding of the UTF-8 bytes. |
| `Mailto.PercentRoundTrip` | backend/crates/domain/src/directory/address.rs:180-192 | Percent-decoding recovers every byte. |
| `Mailto.EncodesExactly` | backend/crates/domain/src/directory/address.rs:180-192 | Letters, digits, hyphen, dot, underscore, tilde and @ are written as they are, and every other byte as two upper-case hexadecimal digits. |
| `Mailto.Utf8RoundTrip` | backend/crates/domain/src/directory/address.rs:180-192 | The bytes decode to the text they were made from. |
| `Mailto.LinkReadsBack` | backend/crates/domain/src/directory/address.rs:115-133 | A link exists exactly when it is at most 1800 characters; splitting its list at commas and decoding gives the field and every recipient, in order (RFC 6068, section 2). |
| `SlugHistory.PushKeepsChain` | backend/crates/persistence/src/register/apply.rs:325-350 | Moving a slug into history keeps the intervals non-empty and chained, whatever the clock does. |
| `SlugHistory.ChainIsDisjoint` | backend/crates/persistence/src/register/apply.rs:325-350 | Chained intervals are disjoint, in order. |
| `SlugHistory.ChainCovers` | backend/crates/persistence/src/register/apply.rs:325-350 | They cover every instant from the start to the last end and no other. |
| `SlugHistory.HistoryIsTheTimeline` | backend/crates/persistence/src/register/apply.rs:320-350 | With a clock that does not step back, every instant at which there was a slug before the last one was given up is in an interval that names that slug; at any other the slug is the current one. Also with several changes at one instant. |
| `SlugHistory.ReplacedSlugIsRecordedExactly` | backend/crates/persistence/src/register/apply.rs:325-350 | After every history, whatever the clock did, the slug a change replaces is recorded if and only if the change comes after every instant a slug was given up before; otherwise the history stays as it is. |
| `SlugHistory.AllTrueExactly` | backend/crates/persistence/src/register/school_ops.rs:181-210 | The whole history is true if and only if every slug that was replaced or given up had been got at once: at the start, or the moment the one before was given up. |
| `SlugHistory.SteppingBackLosesASlug` | backend/crates/persistence/src/register/apply.rs:325-350 | A history that shows it: a change dated before the last one drops the slug it replaces. |
| `RegisterRuns.RenumberKeepsChain` | backend/crates/persistence/src/register/apply.rs:297-320 | A renumber closes the open number and opens the next on the same day, no sooner than the day after the old one opened; other municipalities keep theirs. |
| `RegisterRuns.OpKeepsSound` | backend/crates/persistence/src/register/apply.rs:141-272 | Every op that succeeds keeps numbers and histories chained and open numbers and current slugs distinct. |
| `RegisterRuns.ReachableIsSound` | backend/crates/persistence/src/register/apply.rs:96-138 | In every register reached by applying plans each municipality has exactly one open number, numbers are chained, and slug histories of municipalities and schools are non-empty, disjoint and chained. |
| `RegisterRuns.HistoryNamesTheLiveSlug` | backend/crates/persistence/src/register/school_ops.rs:181-210 | Over every run of plans that name the current slug, with a clock that does not step back, the history of a municipality or school never names another slug than the live one, and leaves out none but the current one. |
| `RegisterRuns.MunicipalityHistoryIsTrue` | backend/crates/persistence/src/register/apply.rs:193-241 | Over those runs a municipality's history and current slug say of every instant since its creation which slug was live. |
| `RegisterRuns.SchoolHistoryIsTrueExactly` | backend/crates/persistence/src/register/school_ops.rs:181-210 | Over those runs, with moves and closures, a school's whole history is true if and only if every slug it replaced or gave up had been got at its creation or verification, or the moment the one before was given up. A closure gives the slug up, so one got later is recorded from the closure on. |
| `RegisterRuns.OpenSchoolHistoryIsTrueExactly` | backend/crates/persistence/src/register/school_ops.rs:181-210 | For a school that is never closed: if and only if it had a slug at its creation or verification, or got its first one then, or has not changed it since. |
| `RegisterRuns.FirstSlugIsBackdated` | backend/crates/persistence/src/register/school_ops.rs:70-94 | Inputs that show it, where the comment says a history starts when the school got a slug: one that gets its first slug later and then changes it is recorded as having had it all along. |
| `RegisterEffects.CreatingMunicipalityExactly` | backend/crates/persistence/src/register/apply.rs:151-192 | A municipality is created, with its row and open number, if and only if the id, the slug and the number are free. |
| `RegisterEffects.RenamingMunicipalityExactly` | backend/crates/persistence/src/register/apply.rs:219-241 | A rename writes name and slug, if the slug is free and the former one can be recorded. |
| `RegisterEffects.RenumberingDoes` | backend/crates/persistence/src/register/apply.rs:193-218 | A renumber closes the old number and opens the new one on the change's date, or the day after the old one opened if that is later, and writes slug and name. |
| `RegisterEffects.CreatingSchoolExactly` | backend/crates/persistence/src/register/school_ops.rs:22-69 | A school is created if and only if its municipality exists and the slug is free there. |
| `RegisterEffects.RenamingSchoolExactly` | backend/crates/persistence/src/register/school_ops.rs:70-94 | A renamed school has the new name and slug, where given, and all else as it was. |
| `RegisterEffects.MovingSchoolExactly` | backend/crates/persistence/src/register/school_ops.rs:98-117 | A moved school is in the municipality it moves to, with its own name and the new slug, where given. |
| `RegisterEffects.ClosingSchoolExactly` | backend/crates/persistence/src/register/school_ops.rs:118-152 | A closed school gives its slug up to the history and keeps the rest. |
| `RegisterEffects.RecordedRow` | backend/crates/persistence/src/register/school_ops.rs:186-210 | A school's recorded slug is one row: in the scope it had, from the latest end or the school's start, until now; none if that is empty. |
| `RegisterEffects.OthersAreUntouched` | backend/crates/persistence/src/register/apply.rs:141-272 | No op touches a row or the history of another municipality or school. |
| `RegisterEffects.PlanInOrder` | backend/crates/persistence/src/register/apply.rs:96-138 | A plan is its ops in order, each from where the one before left off; when one fails nothing stays. |
| `RegisterStore.Tables.ApplyPlan` | backend/crates/persistence/src/register/apply.rs:96-138 | Applies the ops in order in place; the first that fails undoes them all. |
| `RegisterStore.Tables.ApplyMunicipality` | backend/crates/persistence/src/register/apply.rs:141-272 | Each municipality op, statement by statement. |
| `RegisterStore.Tables.ApplySchool` | backend/crates/persistence/src/register/school_ops.rs:15-152 | Each school op, statement by statement. |
| `RegisterStore.Tables.RenumberRows` | backend/crates/persistence/src/register/apply.rs:297-320 | Finds the municipality's open row for the number, closes it and opens the next, or fails. |
| `RegisterStore.Tables.InsertSlugRow` | backend/crates/persistence/src/register/school_ops.rs:186-210 | Adds a history row from the latest end, or else the owner's start, unless its interval would be empty. |
| `KeyCache.Cache.Get` | backend/crates/keys/src/cache.rs:59-73 | Returns the cached key and marks it used, or unwraps and caches; a failed unwrap caches nothing. |
| `KeyCache.Cache.TouchSession` | backend/crates/keys/src/cache.rs:86-93 | Marks exactly the session's entries used. |
| `KeyCache.Cache.ReleaseSession` | backend/crates/keys/src/cache.rs:95-98 | Afterwards the session holds no key, and every other session what it held. |
| `KeyCache.Cache.ReleaseDocument` | backend/crates/keys/src/cache.rs:99-103 | Removes the session's key of that document only. |
| `KeyCache.Cache.Sweep` | backend/crates/keys/src/cache.rs:106-112 | An entry is left, unchanged, if and only if it was there and was used within the idle time; returns how many went. |
| `KeyCache.Cache.DataKey` | backend/crates/keys/src/data_key.rs:20-39 | Alone, a call returns and caches the unwrapping of the row that is stored afterwards; it fails, and leaves the cache alone, if and only if the unit has a row that does not unwrap. |
| `KeyCache.SweptSpec` | backend/crates/keys/src/cache.rs:86-112 | Sweeping twice is sweeping once; a touched session survives a sweep within the idle time and no entry of it one after. |
| `KeyAgreement.OfficialStays` | backend/crates/persistence/src/keys.rs:38-57 | A unit's wrapped key, once inserted, is never replaced, as long as its transaction commits. |
| `KeyAgreement.SessionsAgree` | backend/crates/keys/src/data_key.rs:20-39 | If every transaction that stores a key commits, in every interleaving each key returned and each key held unwraps the one wrapped key of its unit. |
| `KeyAgreement.LoserReturnsTheWinnersKey` | backend/crates/keys/src/data_key.rs:31-38 | A call that minted a key and found another's stored: whatever follows, if it returns, it returns the winner's key, and only that key is held for the unit. |
| `KeyAgreement.MintAlone` | backend/crates/keys/src/data_key.rs:27-37 | A call that finds no row and no other inserter stores, caches and returns the key it minted. |
| `KeyAgreement.RowIsUnwrapped` | backend/crates/keys/src/data_key.rs:24-26 | A call on a unit whose row is committed returns and caches its unwrapping, or fails and caches nothing. |
| `KeyAgreement.CachedKeyIsReturned` | backend/crates/keys/src/cache.rs:59-66 | A call whose session holds the key returns it without unwrapping and marks it used. |
| `KeyAgreement.LoserGoesOnWithTheRow` | backend/crates/persistence/src/keys.rs:38-57 | A call that comes to store after another's row stores nothing and goes on with that row. |
| `KeyAgreement.CommitsItsRows` | backend/crates/persistence/src/keys.rs:38-57 | A commit makes exactly its transaction's rows the units'; a rollback drops exactly them. |
| `KeyAgreement.CacheSteps` | backend/crates/keys/src/cache.rs:86-112 | Release, sweep and touch in the protocol change the cache key by key as the sessions' events say, and no row or call. |
| `KeyAgreement.RollbackKeepsAgreementExactly` | backend/crates/keys/src/data_key.rs:31-34 | In every state reached by transactions that commit what they store, rolling one back keeps the agreement if and only if it has stored no key. |
| `KeyAgreement.RollbackBreaksAgreement` | backend/crates/keys/src/data_key.rs:31-34 | Without that hypothesis a session can keep a key that is not the one stored. |

## Left out

- HTTP, the command line, configuration, telemetry, shutdown and migration running: plumbing around what is modelled.
- SQL text, pooling, audit rows, the outbox and access requests: tables are maps, sets and sequences of rows, and a transaction under `lock_tenant` is one step.
- The row order of queries, and the FAU-er as separate tables: all memberships are in one store keyed by id, each naming its FAU.
- Role and group tables: an assignment carries its role's name and class, and an invitation its role's group; creating a role or a group, and the errors for unknown ones, are not modelled.
- Two grants from one source: grants are keyed by their source assignment, which is the table's unique constraint.
- Clashing ids: a new id that is already taken is a database error; that UUIDs do not clash is not proved.
- Instants of revocations: they are kept as their Oslo dates, which is all the rules read.
- Account disabling and the clock's zone: whether an account is usable and the Oslo date are inputs; only `InvitationRuns` has a step that disables an account.
- `member_names`, `set_display_name` and `set_contact_email`: each reads or writes one row and is settled by reading it.
- The gates of recovery and activation before they write an invitation, message ciphertexts, and `prepare_acceptance`: only the row they insert is modelled.
- Standing lost with the passing of time, the listener's backoff, and malformed notifications: the stream's revocations are those a transaction announces.
- Random tokens, SHA-256, the key service and AEAD: abstract values; deleting a stored key (crypto-shredding) is not modelled.
- Unicode composition, case tables and decomposition: parameters, assumed to leave plain ASCII text alone and, for addresses, to make no ASCII punctuation.
- `search_text`, names, reviews and attributes of the register, successor links, and the sync planner: they touch neither numbers nor slugs; the planner is not part of this model.
- Register source parsing, fetching and retries: input and output only.
- Store.MembershipStore.SeatMember: covers the write half of an acceptance; the checks before it are in `InvitationDesk.Desk.Accept`.
- Store.MembershipStore.GrantRole: the role is given by its name and class, so an unknown role, a mismatched or archived group and the creation of a role are not modelled.
- Store.MembershipStore.RevokeMembership: does not withdraw the member's pending access requests, which are not modelled.
- Store.MembershipStore.ClearAllEndedProfiles: the method visits FAU-er with nothing in between; other transactions in between are the subject of `ProfileRuns.ProfileScanThenVisits`.
- Store.MembershipStore.AddGroupMember: groups have no table, so an unknown and an archived group are not refused; removing a member from a group by hand only takes a row away and is not a step.
- Store.MembershipStore.CreateHandoverGrants: the method visits FAU-er with nothing in between; what other transactions in between can add is `SweepRuns.ScanThenVisits` and `SweepRuns.ScanThenVisitsLeavesNothingOld`.
- InvitationDesk.ResolveRoles: roles are told apart by name, and unknown roles and groups, the match of class and group, and creating a role are not modelled.
- InvitationDesk.Desk.Issue: as `InvitationDesk.ResolveRoles`, and the length of the encrypted message is not checked.
- RegisterStore.Tables.ApplyPlan: successor links, search text and review items are written after the ops and touch neither numbers nor slugs.
- RegisterStore.Tables.ApplyMunicipality: updates of names, counties and other details are not modelled, nor is the format check of slugs, which the slugs of `Slug.MunicipalitySlugSpec` meet.
- RegisterStore.Tables.ApplySchool: attribute updates are not modelled, nor are the verification state, which only an unverified school with a slug would breach, and the format check of slugs.
- KeyCache.Cache.DataKey: a call that nothing runs between the statements of; the interleaved call is the one of `KeyAgreement`.
- SweepRuns.SecondSweepCreatesExactlyLateSeats: the second sweep and what lies between are of the same day; what later sweeps can add to is `Coverage.SecondSweepCreatesNone`.
