# DataFoundry user service: a verified model

The service keeps organisations and user profiles in etcd, inbox messages and statistics in MySQL, and
volumes in heketi and Kubernetes. This project models the parts of it that keep state consistent across
several writes, and proves what they keep.

| files | what they model |
|---|---|
| `Membership`, `Organization` | member lists, their scans and the removal that shifts a slice while ranging over it |
| `OrgStores`, `OrgService` | each organisation request as a function on the two stores, and as the code that runs it in place |
| `OrgSafety`, `OrgMatrix`, `OrgRetry`, `OrgRoles` | whole runs of requests: admins, agreement of the stores, quotas, retries, role bindings |
| `Upgrade`, `UpgradeRuns`, `UpgradeFailures`, `UpgradeProcesses` | the database upgrade: one run, runs that fail and which call decides it, many processes interleaved |
| `StatTable`, `StatKeys` | the statistics table with compare-and-set, and its keys |
| `Volumes`, `VolumeSafety`, `VolumeBalance`, `VolumeLeaks` | goroutines that create and delete volumes, interleaved without bound |
| `Paging`, `Inbox` | page windows in 64-bit arithmetic, read marks and unread statistics |
| `Validation` | user names, DNS labels and organisation ids |

A request or goroutine that talks to the outside takes the answers of its calls as a parameter, so "for
all answers" means "whatever fails". Objects that the Go code changes in place are classes; their methods
are proved equal to functions on values, and the laws are proved about those functions.

## What the model assumes

- Organisation requests do not overlap, since the store offers no compare-and-set. Each may stop at any of
  its calls.
- Reads of the etcd stores fail only on a missing key, and a write that reports an error has stored nothing.
  A profile is stored under its own user name.
- Statistics transactions are serialisable and their commits succeed. An `INT` column rejects a value
  outside its range.
- Volume ids handed out by heketi are fresh, and Kubernetes refuses a second PV of the same name.
- Strings are byte sequences.

## What the code does not keep

The following hold in the code and are proved, as exact conditions or as runs that show them.

- `OrgJoin` never checks that the caller is a listed member. Once an unlisted user has accepted, that
  user can be invited as an admin and, never having joined, remove the only joined admin.
- `CreateOrg` trusts the members in the request body, and `SignUp` the organisation list and counter. A body
  that names the creator and brings a joined admin makes the creator's own leave slice out of range.
- `RemoveMember` leaves a copy behind when two neighbours bear the name, and slices out of range when the last
  entry repeats an earlier one.
- A removal that has written the organisation cannot be repeated, whichever later call failed. It can be made
  good by the removed user's leave, or by inviting the user again and removing again. But inviting the user
  again as an admin lets an admin through the gate who has not joined.
- A delete reports success when its last two calls fail, and then leaves a counter or an organisation behind.
- An invited admin cannot be demoted while the organisation has a single joined admin: `IsLastAdmin`
  accepts an admin of any status but counts joined ones.
- `OrgLeave` sends no role bindings, so bindings that matched before a leave that writes the organisation do
  not match after it. Invites and privilege changes send roles before they store the list, so a failure in
  between can leave bindings that do not match; so can a removal whose role update fails.
- With several processes the stored database version can go back, because it is read before the phase is taken:
  exactly when it is not 0, the phase is free and an upgrader other than the last starts from it. The one
  upgrader in the repository is the last, so there it cannot happen.
- A process that stops between taking and releasing the phase keeps every process from upgrading ever after.
- PV names of different namespaces can coincide.
- A volume can be left without a PV and without a goroutine in charge, even when every call goes well: a
  goroutine that has read a PV deletes by name the PV that another create has posted since, and then the
  volume it had read. Lost creates, failed volume deletions and PV deletions that report an error do it too.
- A PV post that is stored although it reports an error is compensated; if the deletion of the volume takes
  effect, the PV is left without one.
- A page number so large that its offset does not fit 64 bits shows what the wrapped offset selects. That is
  another page in general: in pages of 64 rows, page 2^58 + q shows page q.

## Model

| member | source | states |
|---|---|---|
| `OrgSafety.RunsAreSafe` | user.go:64-142 | After every clean run from empty stores, requests stopped by failing calls included: each stored organisation has distinct member names and a joined admin, a profile lists an organisation exactly when it is stored and the user has joined it, every entry of a list bears the stored organisation's name, each counter equals the number of stored organisations the user created and lies in 0..9999999; and no next request crashes, however its calls are answered |
| `OrgSafety.StepKeepsIff` | organization.go:223-295 | For each request and all answers to its calls: from any state meeting the invariant it keeps it if and only if it is clean, a condition on the stores before it and on which calls fail; and it never crashes |
| `OrgSafety.RunKeeps` | user.go:386-547 | The joint invariant holds after every clean run from any state that meets it |
| `OrgSafety.AcceptKeepsIff` | user.go:406-428 | A whole accept keeps the invariant exactly when the caller is listed, one without its profile write exactly when it has not newly joined the caller |
| `OrgSafety.CreateKeepsIff` | user.go:104-142 | A create that writes anything keeps the invariant exactly when both writes go well, the id is unused and the body names nobody twice, not the creator and no joined member |
| `OrgSafety.HalfCreateBreaks` | user.go:123-136 | A create without its profile write always breaks the invariant: the quota, or, over an organisation of the same creator, the agreement or the listed name |
| `OrgSafety.CreateWrites` | user.go:104-142 | Every create that goes through, field by field: id, name, creator, time, role flag and members of the record, the id and name of the list entry, the counter; and nothing else changes |
| `OrgSafety.NameIsTaken` | organization.go:174-177 | From then on the same user's create of that name is refused with 14090, whatever suffix, body and answers it comes with |
| `OrgSafety.CreateThenLeaveCrashesIff` | organization.go:161-166 | After any create that goes through, the creator's leave slices out of range exactly when the body named the creator and held a joined admin |
| `OrgSafety.CreateThenRemoveExactIff` | organization.go:381-388 | After any create that goes through, the creator's removal of someone the body names is exact if and only if the body does not name that user twice in a row |
| `OrgSafety.SignUpKeepsIff` | user.go:553-564 | A sign-up keeps it exactly when the body brings no organisations and a zero counter, or it is refused |
| `OrgSafety.CollisionBreaksQuota` | user.go:111 | A create that goes through under an id in use always breaks quota conservation |
| `OrgSafety.DirtyBodyBreaks` | organization.go:161-166 | Any other body breaks the distinct names or the agreement of the stores |
| `OrgSafety.DeleteKeepsIff` | user.go:64-102 | Once the caller's profile is written a delete reports success, and keeps the invariant exactly when both unchecked calls go well, be caller and creator one user or two; the creator's profile is always there |
| `OrgSafety.LeaveKeepsIff` | user.go:386-404 | A leave keeps the invariant, a joined admin stays, exactly when it does not stop between its two writes; its removal stays in range |
| `OrgSafety.InviteKeeps` | user.go:430-466 | An invite keeps the invariant whichever calls fail, and never reaches the fall-through with a missing organisation |
| `OrgSafety.RemoveKeepsIff` | user.go:468-501 | A removal keeps the invariant, the acting admin, shown to be joined, stays, exactly when the member had not joined or the profile is reached once the organisation is written |
| `OrgSafety.PrivilegeKeeps` | user.go:503-547 | A privilege change keeps the invariant, whoever is promoted or demoted and whichever calls fail |
| `OrgSafety.ActingAdminIsJoined` | organization.go:255-258 | Who passes the list gate and `IsAdmin`, which ignores the status, is a joined admin |
| `OrgSafety.DeleterIsOnlyJoined` | user.go:72-75 | Who may delete is the only joined member, so no other profile keeps pointing there |
| `OrgSafety.KeepsByRewrite` | user.go:386-404 | Rewriting one organisation's members keeps the invariant when at most one profile changes, in step with them |
| `OrgSafety.AnyRunKeepsNames` | organization.go:381-388 | Whatever calls fail and whoever accepts, so long as no create body names a user twice or its creator: no list ever names a user twice, and the removal loop yields exactly the other members |
| `OrgSafety.StepKeepsNames` | user.go:430-466 | Under the same condition distinct names survive each request, whatever its calls answer |
| `OrgSafety.UnlistedAcceptLosesTheAdmin` | user.go:406-428 | From any stores, a create, an unlisted accept, an invite as admin and a removal leave an organisation without a joined admin |
| `OrgMatrix.SignUpCases` | signup.go:9-46 | For all answers: the outcome of a sign-up by name, address, password length, existing profile, LDAP and profile write in this order, with its code; it stores the body under the name or nothing |
| `OrgMatrix.AcceptCell` | user.go:406-428 | For all answers: the outcome in every case; once the organisation is written the caller's standing in it is joined, if there was one, and no other standing changes |
| `OrgMatrix.LeaveCell` | organization.go:99-102 | For all answers: a leave is refused, with its code, exactly to those not joined and to the only joined admin; otherwise it clears that one cell once the organisation is written |
| `OrgMatrix.InviteCell` | user.go:430-466 | For all answers: every refusal, with its code, in terms of who stands where; success appends one invited entry, given field by field, and changes nothing else |
| `OrgMatrix.RemoveCell` | user.go:468-501 | For all answers: every refusal likewise; once the organisation is written the member's cell is cleared and no other |
| `OrgMatrix.PrivilegeCell` | user.go:503-547 | For all answers: every refusal likewise, an invited admin included; success sets one member's admin flag, and names the caller as the one who granted it |
| `OrgMatrix.DeleteCells` | user.go:64-102 | For all answers: a delete is let through exactly for a joined admin who is the only joined member; it clears exactly that organisation's cells, if its last call goes well |
| `OrgMatrix.CreateCell` | user.go:104-142 | For all answers: a create with an empty body and a fresh id makes the caller a joined admin of the new organisation once that is written, and changes no other cell; each refusal is told apart by its code, the quota one at 9999999 organisations |
| `OrgMatrix.CountIsOne` | organization.go:339-351 | Beside a joined admin, the admin count is one exactly when nobody else is a joined admin |
| `OrgMatrix.JoinedAlone` | organization.go:362-370 | Beside a joined member, the joined count is at most one exactly when nobody else has joined |
| `Membership.CountsMeaning` | organization.go:339-370 | The two counters are the numbers of joined entries and of joined admin entries |
| `OrgMatrix.ScansRead` | organization.go:353-379 | With distinct names every scan of the list agrees with the one entry of that name |
| `OrgRetry.AcceptConverges` | user.go:406-428 | Any number of accepts stopped at any call, then a whole one: both stores are as after the whole one alone, `JoinedAt` that of the last |
| `OrgRetry.AcceptAbsorbs` | user.go:348-362 | A whole accept makes good whatever one earlier attempt left |
| `OrgRetry.LeaveConverges` | user.go:386-404 | The same for leave, failed at either write or carried out before |
| `OrgRetry.LeaveAbsorbs` | user.go:336-346 | A whole leave makes good whatever one earlier attempt left |
| `OrgRetry.RemoveRetryIff` | user.go:478-496 | For all answers: a removal that goes through when whole can be repeated exactly when it has not written the organisation; after that every attempt is refused and changes nothing |
| `OrgRetry.CutRemoveIsWholeIff` | user.go:482-496 | A removal that has written the organisation leaves both maps as the whole one exactly when the member had not joined or its later calls went well |
| `OrgRetry.CutRemoveLeavesPointer` | user.go:482-496 | Otherwise, and only then, the removed user's profile points where the user no longer is |
| `OrgRetry.ReinviteCompletesRemove` | user.go:430-501 | Whatever calls of a removal failed, inviting the user again and removing again gives the very reply of the whole removal, roles included |
| `OrgRetry.CutRemoveOpensGateIff` | organization.go:255-258 | After a removal has written the organisation, inviting the user as admin lets an admin who has not joined through the gate exactly when the profile was not reached |
| `OrgRetry.LeaveCompletesRemove` | user.go:386-404 | Whatever later calls of a removal failed, the removed user's leave brings both maps to those of the whole removal |
| `OrgRoles.InviteSendsRoles` | user.go:459-464 | After a successful invite the bindings hold exactly the admins and the others of the stored list, in order, subjects matching user names |
| `OrgRoles.RemoveSendsRoles` | user.go:481-488 | The same after a successful removal |
| `OrgRoles.PrivilegeSendsRoles` | user.go:522-537 | The same after a successful privilege change |
| `OrgRoles.PicksIffNames` | user.go:204-214 | The loop collects the one list that holds, in list order and each once, the names of the members of one kind |
| `OrgRoles.StepKeepsRolesIff` | user.go:188-278 | For each request and all answers to its calls: bindings that match still match after it if and only if a condition holds on the stores before, on which role was sent or lost, and on whether the change touches that role |
| `OrgRoles.LeaveStalesRolesIff` | user.go:386-404 | A leave, cut short or whole, leaves matching bindings behind stale exactly when it gets past its refusals and writes the organisation |
| `OrgRoles.RunKeepsRolesIff` | user.go:188-278 | Bindings that match go on matching throughout a clean run exactly when each of its requests meets that condition |
| `OrgRoles.NamesAfterWithout` | organization.go:381-388 | A removal changes the names of a kind exactly when the name removed is of that kind |
| `OrgRoles.NamesAfterPrivilege` | user.go:522-525 | A privilege change changes both lists of names, or neither, exactly by whether the flag changes |
| `Membership.RemovalExactIff` | organization.go:381-388 | The removal loop, run on the shared array with its stale tail, stays in range and leaves exactly the other members if and only if no two neighbours bear the name and the last one does not repeat it |
| `Membership.SweepMeaning` | organization.go:381-388 | What the loop leaves for any list: out of range exactly when the last name occurs before, else the list with each element after a hit skipped |
| `Membership.SweptIsWithoutIff` | organization.go:381-388 | That list is the one without the name exactly when no two neighbours bear it |
| `Membership.SweptKeepsOthers` | organization.go:381-388 | Members of other names are never lost nor reordered |
| `Membership.DistinctSweep` | organization.go:381-388 | With distinct names the loop is in range and exact |
| `Membership.AnotherJoinedAdmin` | organization.go:339-351 | Beside a joined admin who is not the last one there is another |
| `OrgSafety.AcceptMembers` | organization.go:390-398 | Marking a name joined keeps names distinct and a joined admin; that user is then joined exactly if listed, and nobody else's joining changes |
| `Membership.WithPrivilegeAt` | user.go:522-525 | Only the first entry of the name gets the flag and the granter |
| `Organization.Orgnazition.RemoveMember` | organization.go:381-388 | In place: fails exactly when a slice goes out of range, else the slice is the swept list |
| `Organization.Orgnazition.DeleteAt` | organization.go:384 | Slots from the index shift down, the last slot in use keeps its stale value |
| `Organization.Orgnazition.IsAdmin` | organization.go:330-337 | True exactly when some entry of the name is an admin, whatever its status |
| `Organization.Orgnazition.LastAdmin` | organization.go:339-351 | True exactly when the user is an admin of any status and one joined admin is counted |
| `Organization.Orgnazition.IsMemberExist` | organization.go:353-360 | True exactly when the name occurs |
| `Organization.Orgnazition.JoinedMemberCnt` | organization.go:362-370 | The number of joined entries |
| `Organization.Orgnazition.MemberStatus` | organization.go:372-379 | The first entry's status, none without an entry |
| `Organization.Orgnazition.MemberJoined` | organization.go:390-398 | In place: every entry of the name and no other becomes joined |
| `Organization.Orgnazition.Privilege` | user.go:522-547 | In place: only the first entry changes, and it says whether there was one |
| `OrgService.UserInfo.DeleteOrgFromList` | user.go:336-346 | In place: the first entry of the id goes, order kept |
| `OrgService.UserInfo.AddOrgToList` | user.go:348-362 | In place: one entry of the id, appended if missing |
| `OrgService.UserInfo.CheckIfOrgExist` | user.go:327-334 | True exactly when some listed organisation bears the name |
| `OrgService.UserInfo.CheckIfOrgExistByID` | user.go:364-371 | True exactly when some listed organisation has the id |
| `OrgService.UserInfo.UpdateRoleBinding` | user.go:188-278 | Both roles are sent with subjects and names in step, whatever becomes of the first; an error of either is reported, and a role that fails may be gone |
| `OrgService.UserInfo.CreateOrg` | user.go:104-142 | For all answers, acts on the stores as the create function the laws are about |
| `OrgService.UserInfo.DeleteOrg` | user.go:64-102 | The same for delete, its unchecked last calls included |
| `OrgService.UserInfo.OrgLeave` | user.go:386-404 | The same for leave, on the object it changes in place |
| `OrgService.UserInfo.OrgJoin` | user.go:406-428 | The same for accept, the profile read again after the first write |
| `OrgService.UserInfo.OrgInvite` | user.go:430-466 | The same for invite, the crash on a missing organisation included |
| `OrgService.UserInfo.OrgRemoveMember` | user.go:468-501 | The same for removal |
| `OrgService.UserInfo.OrgPrivilege` | user.go:503-547 | The same for privilege changes |
| `OrgService.SignUpUser` | signup.go:9-46 | The handler acts on the stores as the sign-up function, which stores nothing when LDAP fails and the process exits |
| `OrgService.CreateOrganization` | organization.go:143-187 | The handler with its checks acts as the create request |
| `OrgService.DeleteOrganization` | organization.go:11-43 | The handler with its list gate acts as the delete request |
| `OrgService.JoinOrganization` | organization.go:45-75 | The handler, without a gate, acts as the accept request |
| `OrgService.LeaveOrganization` | organization.go:77-114 | The handler with its list gate acts as the leave request |
| `OrgService.ManageOrganization` | organization.go:223-295 | The dispatch behind the shared gate acts as the removal, invite or privilege request |
| `UpgradeRuns.CleanRunServesIff` | messages/notification/notification.go:38-148 | For any chain and any stored rows, a run without failing calls ends serving exactly when the version is absent, 0, not below the last, or an upgrader's start with the phase free; it then ran exactly the upgraders above the stored version, in order, once each, and otherwise changed nothing |
| `UpgradeRuns.ChainVersionsServe` | messages/notification/notification.go:78-86 | Every version the chain itself leaves, with the phase free, is one to serve from |
| `UpgradeRuns.VersionFollowsWrites` | messages/notification/notification.go:94-148 | Whatever fails, an initialised version never decreases and is that of the last upgrader whose version was written, or the first one |
| `UpgradeRuns.ServingIffNoError` | messages/notification/notification.go:33-92 | A process not serving before serves after its run exactly when the run returned no error |
| `UpgradeRuns.OneStep` | messages/notification/notification.go:94-148 | For all answers: an upgrader is called only from a free phase, a failure after the phase is taken leaves it Upgrading, and a version is written only upwards |
| `UpgradeRuns.StuckRun` | messages/notification/notification.go:117-127 | A phase left behind below the last version makes every run fail without calling an upgrader or changing a row |
| `UpgradeRuns.StuckForGood` | messages/notification/notification.go:117-127 | No number of further runs changes the rows |
| `UpgradeRuns.RunKeepsSound` | messages/notification/notification.go:61-87 | Failing anywhere, a run leaves a version of the chain and one of the two phases |
| `UpgradeRuns.RecoversIff` | messages/notification/notification.go:38-92 | After any number of failing runs, a run without failing calls serves exactly when the phase was not left behind |
| `UpgradeFailures.RunFailsIff` | messages/notification/notification.go:38-92 | For all rows, chains and answers: a run fails exactly when creating the tables, initialising the version or reading it fails, or it walks the chain and the walk fails; the process's own phase is then untouched, -1, or 1 once a phase was taken, and else 0 |
| `UpgradeFailures.StopsAtOnce` | messages/notification/notification.go:42-54 | Without upgraders, or when the tables cannot be created, the run fails with rows, phase and log untouched |
| `UpgradeFailures.NotNeeded` | messages/notification/notification.go:39-92 | A run that is not needed serves and touches nothing |
| `UpgradeFailures.WalkFailsIff` | messages/notification/notification.go:80-84 | A walk fails exactly when some upgrader that it reaches fails |
| `UpgradeFailures.OneInFull` | messages/notification/notification.go:94-148 | For all answers, in terms of the two rows and the literal phases 0 and 1: when one upgrader is called, when its version is written, what rows it leaves and when it fails |
| `UpgradeFailures.KeysAre` | statistics/statistics.go:19-25 | The rows of the protocol are the database's name with `#version` and `#phase` |
| `UpgradeProcesses.MutualExclusion` | messages/notification/notification.go:113-145 | In every interleaving of any number of processes, killed and restarted at will, at most one is between taking and releasing the phase, and then the row says Upgrading |
| `UpgradeProcesses.AtMostOneInside` | messages/notification/notification.go:113-145 | From any rows with nobody inside, two processes inside are one |
| `UpgradeProcesses.HolderStopShutsForGood` | messages/notification/notification.go:123-145 | When the holder fails or is killed there, no process is ever inside again |
| `UpgradeProcesses.LoneRun` | messages/notification/notification.go:38-148 | Every run of one process, whatever fails, is an execution of the interleaved system with the same rows and end, whose first two calls carry the answers of the tables, the initialisation and the first read |
| `UpgradeProcesses.GoesDownIff` | messages/notification/notification.go:94-145 | From any rows with no process under way, some execution makes the stored version go down if and only if it is not 0, the phase is free and an upgrader other than the last starts from it |
| `UpgradeProcesses.VersionCanGoBack` | messages/notification/notification.go:95-114 | In that case an execution reaches the last version and then writes an earlier one back |
| `UpgradeProcesses.NeverGoesDown` | messages/notification/notification.go:94-145 | In every other case no execution, of any number of processes, with kills, restarts and failing calls, ever lowers it |
| `UpgradeProcesses.ShippedNeverGoesDown` | messages/notification/upgrade_1.go:20-30 | With the one upgrader of the repository it never goes down |
| `UpgradeFailures.CallStopsIff` | messages/notification/notification.go:38-148 | Exactly when the next call of an interleaved process ends its run with an error |
| `UpgradeFailures.CallWrites` | messages/notification/notification.go:38-148 | What each such call does to the rows |
| `UpgradeFailures.KillStops` | messages/notification/notification.go:113-145 | A killed process has stopped and nothing else has happened |
| `Upgrade.Process.TryToUpgradeDatabase` | messages/notification/notification.go:33-92 | The loop on the table and the phase variable does, for all answers, what the run function the laws are about says, its log of calls and writes included; a process not serving before serves exactly when no error is returned |
| `Upgrade.Process.UpgradeInOrder` | messages/notification/notification.go:78-84 | The loop over the upgraders stops at the first error and does, for all answers, what the walk the laws are about says |
| `Upgrade.Process.UpgradeDatabase` | messages/notification/notification.go:94-148 | The same for one upgrader |
| `StatTable.ActsOnPartialMap` | statistics/statistics.go:138-202 | An error changes no key; success changes the one key to the returned value, the exact sum or the value to set, never a wrapped one |
| `StatTable.SucceedsIff` | statistics/statistics.go:138-202 | Exactly when a transaction succeeds; a set on an absent row ignores the expected value |
| `StatTable.ErrorsInOrder` | statistics/statistics.go:138-202 | Which error an unsuccessful transaction returns, and with which value |
| `StatTable.UpdateAdds` | statistics/statistics.go:121-123 | An update succeeds exactly when the sum fits the column, a new row being no negative one, and adds to what is stored |
| `StatTable.SetReplaces` | statistics/statistics.go:125-127 | A set succeeds likewise and replaces, whatever is stored |
| `StatTable.SetIfReplaces` | statistics/statistics.go:129-131 | A conditional set succeeds exactly when moreover a stored value is the expected one or the expectation is negative |
| `StatTable.RunAddsAccepted` | statistics/statistics.go:121-123 | Over any run of updates every key ends at its start, or 0, plus the accepted deltas |
| `StatTable.AcceptedDidNotWrap` | _db/initdb_v1.sql:16-21 | A sum that wraps in 64 bits never fits the column |
| `StatTable.Table.UpdateOrSetStat` | statistics/statistics.go:138-202 | The step-by-step transaction has exactly that effect and result, rolled back wherever it stops |
| `StatTable.Table.RetrieveStat` | statistics/statistics.go:204-216 | An absent row reads as 0 |
| `StatKeys.BuiltKeysRoundTripIff` | statistics/statistics.go:19-116 | For each name a builder appends: keys of a user's item, of a user and of an item alone parse back to their parts if and only if the user holds no `$`, no word holds `/`, the words are not one empty word and, without a user, no word holds `$` |
| `StatKeys.UserKeyRoundTripIff` | statistics/statistics.go:53-116 | For every name without `#`, parsing a user's key gives the same user, words and name if and only if the user holds no `$`, no word holds `/` and the words are not one empty word |
| `StatKeys.GeneralKeyRoundTripIff` | statistics/statistics.go:19-49 | The same without a user, if and only if moreover no word holds `$` |
| `StatKeys.SplitJoinIff` | statistics/statistics.go:27-29 | Splitting joined words gives them back exactly under that condition |
| `StatKeys.DollarInJoin` | statistics/statistics.go:27-29 | The joined words hold `$` exactly when one of them does |
| `StatKeys.UserKeysDiffer` | statistics/statistics.go:53-55 | Different users, words or names have different keys |
| `StatKeys.GeneralKeysDiffer` | statistics/statistics.go:19-49 | Different words or names have different keys |
| `StatKeys.UserKeyIsNotGeneral` | statistics/statistics.go:53-55 | A user's key is never a key without a user |
| `StatKeys.BuiltKeysDiffer` | statistics/statistics.go:19-55 | With the names the builders append, a user's item and an item alone never share a row |
| `StatKeys.UserStatKeyIsUserItemKey` | statistics/statistics.go:62-76 | The keys of a user alone are the general form with no words |
| `StatKeys.VersionIsNotPhase` | statistics/statistics.go:19-25 | The version and the phase of the upgrade are different rows |
| `StatKeys.KeysWrittenOut` | statistics/statistics.go:19-76 | Each builder's key, written out with its literal marks and name |
| `StatKeys.DateKeyParses` | statistics/statistics.go:91-98 | A key without `#` parses to the date before its last `>` and the name after it, or to nothing |
| `VolumeSafety.NoDanglingEver` | volume.go:155-263 | In every interleaving of any number of create and delete goroutines, each failing or stopping anywhere, every PV refers to an existing volume and no two share one, if no failed post is stored |
| `VolumeSafety.CallKeepsIff` | volume.go:360-400 | Each single call of each goroutine keeps the joint invariant of stores and goroutines, except exactly a post that stores its PV and reports an error |
| `VolumeSafety.RunKeepsIff` | volume.go:155-263 | In every interleaving the invariant holds throughout exactly when there is no such post |
| `VolumeSafety.LostPostDanglesIff` | volume.go:188-225 | Such a post is compensated, and its PV dangles exactly when the deletion of the volume takes effect |
| `VolumeBalance.CreateThenDeleteRestores` | volume.go:155-263 | A create and a delete of one name, interleaved with any others that keep off the name, leave both stores as the run without the two does |
| `VolumeBalance.PairErases` | volume.go:155-263 | At every moment, erasing the pair from the system gives the run of the others alone |
| `VolumeLeaks.CreateEndsIff` | volume.go:172-240 | In every interleaving: when a create that has got its volume ends, it leaves the volume with a PV exactly when its last call is the post, and neither exactly when it is a compensation that does not fail on a stored volume |
| `VolumeLeaks.CallOrphansIff` | volume.go:155-263 | When every volume has a PV or a goroutine in charge, a call keeps it so if and only if each volume it lets go of is in another goroutine's charge |
| `VolumeLeaks.GoodCallLetsGoIff` | volume.go:360-388 | A call that goes well lets go of a volume exactly when it deletes a PV by a stale read: under the name there is by now the PV of another volume than the one read |
| `VolumeLeaks.RunOrphansIff` | volume.go:155-263 | In every interleaving no volume is ever lost to sight if and only if no call lets go of one |
| `VolumeLeaks.RunsEndBalanced` | volume.go:155-263 | From volumes and PVs one to one, every such run that comes to rest, without a post that is stored and reports an error, ends with volumes and PVs one to one |
| `VolumeLeaks.StaleDeleteLeaks` | volume.go:360-400 | From any state, two deletes and a create of one claim have an execution in which every call goes well and the new volume is left without a PV and without anybody in charge |
| `VolumeBalance.CreateLeavesBothOrNeither` | volume.go:172-240 | Run with no other goroutine in between, a create with working compensation leaves a new volume with its PV, exactly when both calls went well on a free name, and otherwise both stores as they were |
| `VolumeBalance.CreateAlone` | volume.go:172-240 | For all answers, what a create that runs alone leaves in each store, with the literal path of its PV |
| `VolumeBalance.DeleteAlone` | volume.go:360-400 | For all answers, what a delete that runs alone leaves in each store |
| `VolumeBalance.MissingPvEnds` | volume.go:372-382 | A delete whose PV has gone since it was read ends and touches nothing |
| `VolumeBalance.TakenNameUndoes` | volume.go:217-225 | A create whose name has been taken turns to its compensation |
| `VolumeBalance.CreateGoroutine` | volume.go:172-240 | The goroutine with its deferred compensation makes the calls of the interleaved system; it succeeds exactly when both calls go well on a free name, and then the PV has the path `vol_` and the volume's id |
| `VolumeBalance.DeleteGoroutine` | volume.go:360-400 | The same for the deleting goroutine |
| `Volumes.IdRoundTrip` | volume.go:57-68 | Name-to-id undoes id-to-name for every id |
| `Volumes.NameRoundTripIff` | volume.go:57-68 | Id-to-name undoes name-to-id exactly for names with the prefix |
| `Volumes.PvNamesClashIff` | volume.go:53-55 | Exactly which namespaces and claims share a PV name |
| `Volumes.PathOfId` | volume.go:57-59 | A path is the four bytes `vol_` and the id |
| `Volumes.IdOfPath` | volume.go:61-68 | The id of a path is what follows `vol_`, or the path itself if it does not start so |
| `Volumes.NameOfPv` | volume.go:53-55 | A PV is named by its namespace, a dash and its claim |
| `Paging.PagesTile` | messages/notification/notification.go:390-403 | For each size 1..100 and the page count that is the row count divided by it, rounded up, pages 1 to the last show every row once, in order |
| `Paging.SomePagesTile` | messages/notification/notification.go:390-403 | Every list has such a page count |
| `Paging.LaterPages` | messages/notification/notification.go:390-403 | A later page whose offset fits 64 bits shows the last rows |
| `Paging.LastRowsIff` | messages/params.go:294-319 | For every page number: it shows the last rows exactly when its wrapped offset is past the end or where they start |
| `Paging.FirstRowIff` | messages/params.go:294-319 | For every page number: it starts at the first row exactly when its wrapped offset is not positive, or past the end of a list of one page |
| `Paging.EveryPageInBounds` | messages/params.go:294-319 | For every page number, its product wrapped or not, the window lies in the list and is not empty |
| `Paging.PagesWrap` | messages/params.go:318 | Pages whose offsets differ by a multiple of 2^64 show the same rows |
| `Paging.PagesComeAgain` | messages/params.go:318 | In pages of 64 rows every page shows up again 2^58 pages later |
| `Paging.OptionalOffsetAndSize` | messages/params.go:294-319 | The size asked for, or the default, is used if it lies between the bounds, taken in either order and at least 1, and else the nearer bound; the offset is 0 for no page or one up to 1, and else the 64-bit product |
| `Paging.ValidateOffsetAndLimit` | messages/notification/notification.go:390-403 | In 64-bit steps: the window lies within the rows, is not empty when there are any, and is the stated one |
| `Paging.PageWindow` | messages/message.go:251-254 | From the two parameters: a size in 1..100 is used, below is 1, above is 100, none is 30; no page or one below 1 is the first; a page that starts within the list starts at (page - 1) * size and has the rows up to its size or the end |
| `Inbox.ListingFlips` | messages/notification/notification.go:406-476 | The marks after a listing turn exactly the unread rows of the page whose transactions go through to read, and change no other row |
| `Inbox.ListingStats` | messages/notification/notification.go:543-584 | The totals by type and by level are equal before and after, and drop by the rows flipped |
| `Inbox.StatsCount` | messages/notification/notification.go:543-584 | A group's entry is the number of unread rows in it; groups without any are absent |
| `Inbox.StatsByType` | messages/notification/notification.go:543-584 | By type: an entry for exactly the types of the user's unread rows, counting the rows of that type, and no entry for a level |
| `Inbox.StatsByLevel` | messages/notification/notification.go:543-584 | By level likewise, and no entry for a type |
| `Inbox.SelectsByParts` | messages/notification/notification.go:407-431 | Each part of the where clause by itself: blank it keeps every row, given it keeps exactly the rows that have it |
| `Inbox.StatsTotal` | messages/notification/notification.go:543-584 | Either total is the number of unread messages |
| `Inbox.UnreadCountPositions` | messages/notification/notification.go:553-559 | That number counts the positions of the user's rows with status 0 |
| `Inbox.FlipCountIsRows` | messages/notification/notification.go:406-476 | The count along the page is the number of rows that change |
| `Inbox.MessageTable.ModifyUserMessage` | messages/notification/notification.go:306-352 | Only the user's own row of that id changes; foreign, missing and failing cases report an error and change nothing, unknown actions are not handled |
| `Inbox.MessageTable.MarkPage` | messages/notification/notification.go:462-473 | The goroutine's loop has the effect of the marks in page order |
| `Inbox.MessageTable.GetUserMessages` | messages/notification/notification.go:406-476 | The count is the number of rows selected; the page is the validated window of the listing, latest first, of the user's own rows, and is marked |
| `Inbox.TakePage` | messages/notification/notification.go:438-441 | The page is the validated window of the listing |
| `Inbox.ListingCounts` | messages/notification/notification.go:429-441 | A listing holds each selected row exactly once |
| `Validation.UserNameMeaning` | validation.go:28-42 | Accepts exactly names of 2 to 63 characters in label form (section 2.1 of RFC 1123, lower case) |
| `Validation.LabelMeaning` | validation.go:9-16 | The anchored pattern matches exactly the label form |
| `Validation.LabelMeetsMinimal` | validation.go:44-58 | The forbidden-content checks reject nothing the label check takes |
| `Validation.MinimalMeaning` | validation.go:44-58 | They reject exactly `.`, `..` and names with `/` or `%` |
| `Validation.OrgIDInjective` | user.go:111 | An id determines its owner and its suffix |
| `Validation.OrgIDParts` | user.go:111 | An id is the owner's name, `-org-` and the suffix, byte for byte |
| `Validation.OrgIDIsLabelIff` | common.go:134-142 | For a valid owner the id is a label exactly when the name has at most 50 characters |

## Left out

- HTTP parsing and responses, authentication, login, LDAP, mail and OAuth: input and output over libraries.
- `PUT /profile` (profile.go:34-50) writes a whole profile as sent, list and counter included; runs hold no such request.
- Organisation requests that overlap in time: the store has no compare-and-set, so updates can be lost.
- OpenShift, heketi and etcd clients appear as the answers of their calls. `CreateProject` can return nil after a transport error, so nothing in the stores depends on it.
- JSON, timestamps, random generation, logging, token refresh and watch streams. `ParseInt` is a parameter of the page functions.
- Fields of no consequence here: `OrgAlias`, an organisation's `Status` and `Reason`, and everything of a profile but its list and counter.
- `ListOrgs` and the read-only handlers.
- Whether an address matches the pattern of `ValidateEmail` (validation.go:18-26) is an answer.
- SQL text, the order of messages of equal time, collation when grouping, and isolation below the transaction.
- `RemoveStat` and the statistics cursor.
- The steps of the volume goroutines and handlers on volume claims (PVCs), which touch neither store. The deferred PV deletion in volume.go:226-237 never deletes, since `succeeded` is set right after it is registered.
- The message-driven acceptance in message.go:87-141, which flips a flag and leaves the organisations alone.
- Several upgrade processes running each upgrader once: false in general, for the reason that `UpgradeProcesses.VersionCanGoBack` shows.
- The bindings that `CreateRoleBinding` makes with a new project (user.go:288-325), which name nobody, and the removal of bindings with their project: bindings are those last sent by `UpdateRoleBinding`.
- VolumeSafety.NoDanglingEver: excludes runs in which a failed PV post stores its PV; VolumeSafety.LostPostDanglesIff says what becomes of those.
- OrgRetry.LeaveConverges: equates the stores and not the outcome, since a leave after a completed one is refused.
- Upgrade.Process.TryToUpgradeDatabase: takes `TryToCreateTables` and `Upgrade` of an upgrader as answers, because their SQL is not modelled.
