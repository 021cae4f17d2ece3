# A3S: the authorisation store, its security contracts, and the algorithms around them

A3S keeps applications with their application functions, permissions and data policies; business
functions; roles and teams, both with children; and users with roles and team memberships. Services
edit this store one request at a time, security contracts declare large parts of it at once, and an
identity server turns it into the claims of a token. This project models that store, the services and
the contracts as a state machine, proves what every run of it keeps, and proves the self-contained
algorithms of the repository: the archive reader, the random number picker, time-based codes, recovery
codes and agreement version numbers.

`dafny verify dfyconfig.toml` checks everything.

## How the model is built

* `Model` holds the store twice: `Store`, a value with one map per table, and `A3SContext`, an object
  with the same tables as fields. Rows are keyed by the name on which the database has a unique
  constraint. Association tables are sets, because they have composite keys; a list that would add a row
  twice is refused when it is saved.
* Every operation is a method on the object with the loops of the code, proved against a function on
  values (`After...`). `Realises` says that the method fails exactly when the function does, with the
  same error, and otherwise leaves the function's state. The theorems are about the functions.
* `Graphs` is about roles and teams alike. `Invariants` names what runs keep. `Bootstrap` is what the service
  stores at a start. `Runs` composes requests, contracts and restarts, from whatever store they find;
  `Levels`, `Coverage` and `RunExports` are about runs, `Installation` about those of a new installation.
* Everything the code cannot decide is a parameter that the statements quantify over: the order in which
  rows are listed, the row that `First()` finds, the clock, random bytes, hashes, the octal conversion
  of the platform, which commits fail.

## What is proved

1. **Runs.** From any sound store, a sequence of requests, contracts and restarts keeps foreign keys,
   never makes a cycle through two roles or two teams, never gives a team both members and child teams,
   and keeps every permission held, so that `First()` never fails, exactly when every restart is safe
   (`Runs.RunsStaySoundIff`). A restart that is not can be reached from any new installation
   (`Installation.SomeRestartBreaksFirst`). That no run closes a cycle needs nothing but a first store
   without one (`Levels.RunsStayAcyclic`). The store of a new installation qualifies for every theorem on
   runs (`Installation.FirstStartQualifies`).
2. **Levels.** The comments promise one level of children. That is false of an update of a role or team
   that is already a child (`Levels.SomeRunMakesTwoLevels`). The exact condition is proved for every
   operation, for whole contracts (`Levels.ContractKeepsFlatIff`) and for runs
   (`Levels.RunsStayOneLevelIff`); in runs that respect it the one-hop queries of the identity server grant
   exactly what the transitive closure grants (`Levels.RunsLetThroughIffGranted`).
3. **Convergence and idempotence.** Applying a resource server's declaration leaves exactly what is
   declared, whatever was there before. A whole contract is accepted again exactly when no role or team
   that it declares with children is listed as a child, and is then without effect exactly when it names no
   stored function under an application without application functions, which moves there and back
   (`SecurityContract.ContractAgainIff`): `quickstart/README.md` promises idempotence without conditions,
   and concrete runs break both halves of it (`Counterexamples.SomeContractIsRefusedAgain`,
   `Counterexamples.SomeContractMovesAgain`).
4. **Export.** The exported contract rebuilds the store from nothing or onto a part of it, such as a new
   installation, and leaves the store it came from as it is, each under an exact condition
   (`ContractRestore.RestoreIff`, `ContractRestore.RestoreOntoIff`, `ContractReapply.ReapplyIff`). A
   permission that a function uses must be in one application function of its application: the code adds
   a row for every one that holds it, and the key refuses the second. `RunExports` carries these and
   idempotence over to every state of a run.
5. **Permissions within applications.** Business functions keep to the permissions of their application
   in every state of a run, exactly when every restart is safe and no contract leaves a permission
   stranded, which can be read off the store before and the contract (`Stranding.ContractCoveredIff`,
   `Coverage.RunsStayCoveredIff`); one contract can strand one without any permission being shared before
   or after it (`Coverage.SomeRunLosesCover`).
6. **Effects.** For every request of a service: exactly when it is accepted, which error it raises about
   which item otherwise, and every row it leaves (`RoleService`, `TeamService`, `UserService`,
   `FunctionService`). From that, exactly what each request does to the permissions of every user
   (`Effects.UpdatedRoleGrants`, `Effects.UpdatedFunctionGrants`, `Effects.WrittenUserIsGranted`), that renaming
   changes none (`Effects.RoleRenameGrantsAlike`), and that in a run a user who is gone has none until made
   anew (`Effects.GoneUntilMade`).
7. **Transactions.** The calls of thirteen repositories on two contexts amount to one begin and one end each,
   and a contract is all or nothing but for one case of a failing commit.
8. **Algorithms.** Archives are read back; every value of a range has the same number of draws; codes
   follow section 5.3 of RFC 4226 and live between six and nine minutes; each recovery code works once;
   versions increase.

Where the code and its documentation disagree, the model follows the code:

* The comments next to the time-based codes speak of 90 seconds either way; the code accepts two steps
  of three minutes (`Totp.AcceptedWithinSixMinutes`).
* The comment on the data policy query describes a third branch, for child teams; the query has two
  (`Claims.PoliciesAreThoseOfTheTeams`).
* The existence test for team claims compares names with values that are identifiers (`Claims.TeamsAreAllClaimed`).
* The comments in `RoleService` and `TeamService` prohibit compound children; only the child's own list is
  checked (`Levels.UpdateRoleKeepsOneLevelIff`).

## Model

| member | source | states |
|---|---|---|
| Runs.RunsStaySoundIff | src/za.co.grindrodbank.a3s/Services/SecurityContractService.cs:30-74 | in a run of requests, contracts and restarts from any sound store: foreign keys hold, no cycle goes through two distinct roles or teams, no team has both members and child teams, and every stored permission is held by an application function, in every state exactly when every restart is safe |
| Runs.FirstNeverFails | src/za.co.grindrodbank.a3s/Services/FunctionService.cs:156-160 | in every state of every run from a sound store whose restarts are safe, creating or updating a function never meets an empty `First()` |
| Runs.AnswersKeepSound | src/za.co.grindrodbank.a3s/Services/RoleService.cs:36-116 | every accepted request of any kind keeps the store sound, and a restart exactly when it is safe |
| Levels.UpdateRoleKeepsOneLevelIff | src/za.co.grindrodbank.a3s/Services/RoleService.cs:77-116 | an accepted role update (renaming included) keeps a one-level role graph one-level exactly when no child roles are given, or the role is nobody's child and does not list itself |
| Levels.CreateRoleKeepsOneLevel | src/za.co.grindrodbank.a3s/Services/RoleService.cs:36-65 | creating a role keeps a one-level role graph one-level |
| Levels.RoleWriteKeepsOneLevelIff | src/za.co.grindrodbank.a3s/Services/SecurityContractDefaultConfigurationService.cs:298-332 | the same exact condition for any accepted overwrite of a role, so also for a role of a contract |
| Levels.UpdateTeamKeepsOneLevelIff | src/za.co.grindrodbank.a3s/Services/TeamService.cs:90-137 | the exact condition for team updates |
| Levels.CreateTeamKeepsOneLevel | src/za.co.grindrodbank.a3s/Services/TeamService.cs:36-67 | creating a team keeps a one-level team graph one-level |
| Levels.DeclaredTeamKeepsOneLevelIff | src/za.co.grindrodbank.a3s/Services/SecurityContractDefaultConfigurationService.cs:669-706 | the exact condition for a team of a contract |
| Levels.RunsStayOneLevelIff | src/za.co.grindrodbank.a3s/Services/RoleService.cs:150-190 | in a run from any store with one-level graphs, every state has one-level role and team graphs exactly when no update and no contract leaves a role or team with children that is a child |
| Levels.ContractKeepsFlatIff | src/za.co.grindrodbank.a3s/Services/SecurityContractDefaultConfigurationService.cs:208-332 | an accepted contract, with any number of sections and repeated names, keeps one level exactly when no role or team that it leaves with children is a child in the end; read off the store before and the contract alone |
| Levels.RunsStayAcyclic | src/za.co.grindrodbank.a3s/Services/RoleService.cs:150-190 | no run of any requests, contracts and restarts closes a cycle through two roles or two teams, from any store without one whose children are stored; nothing else is asked |
| Levels.SomeRunMakesTwoLevels | src/za.co.grindrodbank.a3s/Services/RoleService.cs:175-182 | the one-level promise fails without that: a run of four requests, given concretely, ends in a two-level role graph |
| Levels.RunsLetThroughIffGranted | src/za.co.grindrodbank.a3s-identity-server/Services/IdentityWithAdditionalClaimsProfileService.cs:76-117 | in every state of such a run a user with a new token passes the permission check exactly when a role they have, or any role below it, grants the permission |
| Bootstrap.BootstrapAdminUser | src/za.co.grindrodbank.a3s/Startup.cs:240-385 | what is stored at a start: what is missing, or the error of a name that is taken, and then nothing |
| Bootstrap.StartIff | src/za.co.grindrodbank.a3s/Startup.cs:240-385 | a start fails exactly when it would make an application function or a permission whose name is taken, and then about which row |
| Bootstrap.StartStores | src/za.co.grindrodbank.a3s/Startup.cs:240-385 | each row is made, with its contents, when it is missing; everything else stays |
| Bootstrap.BootstrapKeepsSoundIff | src/za.co.grindrodbank.a3s/Startup.cs:248-319 | a start keeps a sound store sound exactly when the application is not there yet, or its function still is, or the start fails because its permissions are; otherwise it makes permissions that no application function holds |
| Installation.BootstrapKeepsQualified | src/za.co.grindrodbank.a3s/Startup.cs:240-385 | under that condition it keeps everything that the theorems on runs ask of their first store |
| Installation.FirstStartQualifies | src/za.co.grindrodbank.a3s/Startup.cs:240-385 | the store with which a new installation meets its first request satisfies all of it |
| Bootstrap.SecondStartChangesNothing | src/za.co.grindrodbank.a3s/Startup.cs:240-385 | the next start finds everything in place |
| Installation.RestartBreaksFirst | src/za.co.grindrodbank.a3s/Services/FunctionService.cs:156-160 | where the condition fails, giving a new permission to a function meets an empty `First()` |
| Installation.SomeRestartBreaksFirst | src/za.co.grindrodbank.a3s/Startup.cs:282-319 | that happens: from any new installation, a contract that empties the application, the deletion of its function and a restart lead there |
| Coverage.RunsStayCoveredIff | src/za.co.grindrodbank.a3s/Services/FunctionService.cs:143-170 | in every state of a run every permission of a business function belongs to an application function of its application, exactly when every restart is safe and no contract of the run leaves a permission stranded |
| Coverage.UnsharedRunsStayCovered | src/za.co.grindrodbank.a3s/Services/SecurityContractApplicationService.cs:157-164 | so they do in runs in which no permission is shared between applications while contracts are applied |
| Stranding.ContractCoveredIff | src/za.co.grindrodbank.a3s/Services/SecurityContractService.cs:30-74 | after a whole contract, whatever its sections and repeated names, every permission of a business function is its application's exactly when none is left stranded: one that somebody holds after each declaration, its own application not at the end, under a function that no default section touches; stated on the store before and the contract alone |
| Stranding.ListStrandsIff | src/za.co.grindrodbank.a3s/Services/SecurityContractApplicationService.cs:157-164 | exactly which permission of which function a list of declarations strands, applications and functions declared twice included |
| Stranding.DefaultListTouches | src/za.co.grindrodbank.a3s/Services/SecurityContractDefaultConfigurationService.cs:72-206 | exactly which stranded permissions the default sections leave: those of functions no list rewrites, removes or detaches |
| Coverage.SomeRunLosesCover | src/za.co.grindrodbank.a3s/Services/SecurityContractApplicationService.cs:157-164 | not sharing permissions between requests is not enough: a concrete run of three requests, unshared in all its states, ends with a function that holds another application's permission |
| Graphs.AssignmentClosesNoCycle | src/za.co.grindrodbank.a3s/Services/RoleService.cs:150-190 | giving a node leaf children (itself excepted) closes no cycle through two distinct nodes, in any graph |
| Graphs.AssignmentKeepsOneLevelIff | src/za.co.grindrodbank.a3s/Services/RoleService.cs:177-182 | exactly when such an assignment keeps a one-level graph one-level |
| Graphs.OverwrittenKeepsOneLevelIff | src/za.co.grindrodbank.a3s/Services/SecurityContractDefaultConfigurationService.cs:208-229 | exactly when any list of such assignments, one after the other, keeps a one-level graph one-level in the end |
| Graphs.RenameKeepsNoLongCycle | src/za.co.grindrodbank.a3s/Services/RoleService.cs:92-100 | renaming a node to a fresh name creates no cycle |
| Graphs.RenameKeepsOneLevel | src/za.co.grindrodbank.a3s/Services/RoleService.cs:92-100 | renaming a node to a fresh name keeps a one-level graph one-level |
| Graphs.RenameInIff | src/za.co.grindrodbank.a3s/Services/RoleService.cs:92-100 | after a renaming the new name stands exactly where the old one stood, and no other name is gained or lost |
| RoleService.AssignRows | src/za.co.grindrodbank.a3s/Services/RoleService.cs:118-190 | the two loops reset and rebuild the function and child rows, stop at the first missing or compound item with the right error, keep the children of a list that is not submitted, and a row named twice is refused by its composite key when all else has passed |
| RoleService.Create | src/za.co.grindrodbank.a3s/Services/RoleService.cs:36-65 | the whole new state or the error, and no change on failure |
| RoleService.Update | src/za.co.grindrodbank.a3s/Services/RoleService.cs:77-116 | the whole new state or the error, and no change on failure |
| RoleService.WriteKeepsSound | src/za.co.grindrodbank.a3s/Services/RoleService.cs:118-190 | overwriting a role keeps every invariant |
| RoleService.WriteIff | src/za.co.grindrodbank.a3s/Services/RoleService.cs:118-190 | for every outcome of the two loops what the role becomes, or which error is raised about which item: an unknown function before a child role, unknown or compound, before a row named twice |
| RoleService.CreateIff | src/za.co.grindrodbank.a3s/Services/RoleService.cs:36-65 | a role is accepted exactly when its name is free, its functions exist, its child roles exist and have no children, and no list repeats a row; then nothing is stored but the role as submitted |
| RoleService.UpdateIff | src/za.co.grindrodbank.a3s/Services/RoleService.cs:77-116 | exactly when an update is accepted, with the errors of an unknown role and of a name that is taken; the role may list itself, under its new name, when it has no children |
| RoleService.UpdateStores | src/za.co.grindrodbank.a3s/Services/RoleService.cs:77-116 | an update stores description, functions and child roles as submitted, keeps child roles that are not submitted, and all users and roles that referred to the old name refer to the new one |
| Assignments.CheckLeaves | src/za.co.grindrodbank.a3s/Services/RoleService.cs:170-182 | passes exactly when every listed item exists and has no children; otherwise names one that does not |
| Assignments.CheckPresent | src/za.co.grindrodbank.a3s/Services/RoleService.cs:123-142 | passes exactly when every listed item exists; otherwise names one that is missing |
| Assignments.AssignLeaves | src/za.co.grindrodbank.a3s/Services/RoleService.cs:170-189 | the loop over child identifiers, with the rows it adds |
| Assignments.AssignPresent | src/za.co.grindrodbank.a3s/Services/RoleService.cs:125-141 | the loop over function identifiers, with the rows it adds |
| TeamService.AssignRows | src/za.co.grindrodbank.a3s/Services/TeamService.cs:139-225 | the two loops over child teams and data policies, with the refusal of child teams for a team with members, and of rows named twice |
| TeamService.Create | src/za.co.grindrodbank.a3s/Services/TeamService.cs:36-67 | the whole new state or the error, and no change on failure |
| TeamService.Update | src/za.co.grindrodbank.a3s/Services/TeamService.cs:90-130 | the whole new state or the error, and no change on failure |
| TeamService.WriteKeepsSound | src/za.co.grindrodbank.a3s/Services/TeamService.cs:139-184 | overwriting a team keeps every invariant, members and child teams apart included |
| TeamService.WriteIff | src/za.co.grindrodbank.a3s/Services/TeamService.cs:139-225 | for every outcome what the team becomes, or which error is raised about which item: child teams for a team with members, then an unknown or compound child team, then an unknown policy, then a row named twice |
| TeamService.CreateIff | src/za.co.grindrodbank.a3s/Services/TeamService.cs:36-67 | a team is accepted exactly when its name is free, its child teams exist and have no children, its policies exist, and no list repeats a row; then nothing is stored but the team as submitted, without members |
| TeamService.UpdateIff | src/za.co.grindrodbank.a3s/Services/TeamService.cs:90-137 | exactly when an update is accepted, with the errors of an unknown team and of a name that is taken |
| TeamService.UpdateStores | src/za.co.grindrodbank.a3s/Services/TeamService.cs:90-137 | an update keeps the members, replaces the lists that are submitted and keeps those that are not, and parent teams refer to the new name |
| UserService.AssignRows | src/za.co.grindrodbank.a3s/Services/UserService.cs:233-287 | the loops over roles and teams; a team with child teams is refused, and so are rows named twice |
| UserService.Create | src/za.co.grindrodbank.a3s/Services/UserService.cs:43-105 | the whole new state or the error, and no change on failure |
| UserService.Update | src/za.co.grindrodbank.a3s/Services/UserService.cs:117-171 | the whole new state or the error, and no change on failure |
| UserService.Delete | src/za.co.grindrodbank.a3s/Repositories/UserRepository.cs:100-122 | the whole new state: rows dropped, user renamed and marked |
| UserService.WriteKeepsSound | src/za.co.grindrodbank.a3s/Services/UserService.cs:233-262 | rebuilding a user's roles and memberships keeps every invariant |
| UserService.DeleteKeepsSound | src/za.co.grindrodbank.a3s/Repositories/UserRepository.cs:100-122 | deleting a user keeps every invariant |
| UserService.DeletionFreesName | src/za.co.grindrodbank.a3s/Repositories/UserRepository.cs:100-122 | after a deletion no row is left under the name, and the renamed user joins no team |
| UserService.SecondDeletionConflicts | src/za.co.grindrodbank.a3s/Repositories/UserRepository.cs:113-120 | deleting, creating and deleting the same name again meets the first deletion's renamed row |
| UserService.WriteIff | src/za.co.grindrodbank.a3s/Services/UserService.cs:233-287 | for every outcome of the two loops the row and the memberships, or which error is raised about which item |
| UserService.CreateIff | src/za.co.grindrodbank.a3s/Services/UserService.cs:43-105 | a user is accepted exactly when the password is not blank, the trimmed name is free, the roles exist, the teams exist and have no child teams, and no list repeats a row; then the whole row is stored, with trimmed address and the submitted roles, the user is a member of exactly the submitted teams, and nothing else changes |
| UserService.UpdateIff | src/za.co.grindrodbank.a3s/Services/UserService.cs:117-171 | exactly when an update is accepted, with the errors of an unknown user and of a name that is taken |
| UserService.UpdateStores | src/za.co.grindrodbank.a3s/Services/UserService.cs:117-171 | the whole row that an update stores; under the new name the user is a member of exactly the submitted teams, under the old one of none, and everybody else is what and where they were |
| UserService.DeleteIff | src/za.co.grindrodbank.a3s/Repositories/UserRepository.cs:100-122 | a deletion succeeds exactly when the user is there and the marked name is free; it leaves the whole row under that name, marked, with the time, without roles, and the user in no team |
| FunctionService.AssignPermissions | src/za.co.grindrodbank.a3s/Services/FunctionService.cs:143-170 | the loop stops at the first permission that is unknown or whose first application function belongs to another application, and otherwise adds one row for each listed name |
| FunctionService.Create | src/za.co.grindrodbank.a3s/Services/FunctionService.cs:36-67 | the whole new state or the error, and no change on failure |
| FunctionService.Update | src/za.co.grindrodbank.a3s/Services/FunctionService.cs:79-117 | the whole new state or the error, and no change on failure |
| FunctionService.Delete | src/za.co.grindrodbank.a3s/Services/FunctionService.cs:119-129 | the function and the rows that assign it to roles are gone |
| FunctionService.CreateIff | src/za.co.grindrodbank.a3s/Services/FunctionService.cs:36-67 | where no permission is shared, a function is accepted exactly when its application exists and holds all its permissions and none is listed twice |
| FunctionService.UpdateStores | src/za.co.grindrodbank.a3s/Services/FunctionService.cs:79-117 | the submitted function is stored, its permissions are the application's, and roles follow the new name |
| FunctionService.CheckIsExact | src/za.co.grindrodbank.a3s/Services/FunctionService.cs:156-160 | where every permission is held and none is shared, the check accepts exactly the application's own permissions, whatever row the database lists first |
| FunctionService.CheckedPermissionsAreHeld | src/za.co.grindrodbank.a3s/Services/FunctionService.cs:156-168 | whatever passes the check is held by the application |
| FunctionService.WriteKeeps | src/za.co.grindrodbank.a3s/Services/FunctionService.cs:79-117 | writing a function keeps every invariant and keeps permissions within applications |
| FunctionService.WithoutFunctionsKeeps | src/za.co.grindrodbank.a3s/Services/FunctionService.cs:119-129 | deleting functions keeps every invariant and keeps permissions within applications |
| FunctionService.FirstRefused | src/za.co.grindrodbank.a3s/Services/FunctionService.cs:143-170 | the first permission that is unknown, held by nothing, or listed first under another application is the one reported, with the error of its kind; if there is none, the check passes |
| FunctionService.UpdateIff | src/za.co.grindrodbank.a3s/Services/FunctionService.cs:79-117 | where no permission is shared, exactly when an update is accepted, with the errors of an unknown function and of a name that is taken |
| FunctionService.DeleteIff | src/za.co.grindrodbank.a3s/Services/FunctionService.cs:119-129 | a deletion removes the function, and every role keeps exactly its other functions |
| SecurityContractApplication.AddPermissions | src/za.co.grindrodbank.a3s/Services/SecurityContractApplicationService.cs:272-281 | the add-if-absent loop |
| SecurityContractApplication.DropUndeclared | src/za.co.grindrodbank.a3s/Services/SecurityContractApplicationService.cs:234-248 | the loop from the last row to the first leaves exactly the declared rows |
| SecurityContractApplication.SynchroniseFunctions | src/za.co.grindrodbank.a3s/Services/SecurityContractApplicationService.cs:174-213 | the loop over declared application functions |
| SecurityContractApplication.RemoveUndeclaredFunctions | src/za.co.grindrodbank.a3s/Services/SecurityContractApplicationService.cs:215-232 | the loop from the last application function to the first |
| SecurityContractApplication.RemoveOrphans | src/za.co.grindrodbank.a3s/Repositories/PermissionRepository.cs:59-70 | exactly the permissions no application function holds are deleted, with the rows that use them |
| SecurityContractApplication.RemoveUndeclaredPolicies | src/za.co.grindrodbank.a3s/Services/SecurityContractApplicationService.cs:103-119 | exactly the application's undeclared policies are deleted, with the rows that use them |
| SecurityContractApplication.SynchronisePolicies | src/za.co.grindrodbank.a3s/Services/SecurityContractApplicationService.cs:97-155 | policies are dropped, updated and added, or another application's policy is met |
| SecurityContractApplication.Apply | src/za.co.grindrodbank.a3s/Services/SecurityContractApplicationService.cs:38-95 | a new or an existing application is brought to its declaration |
| ApplicationConvergence.EditedIsDeclared | src/za.co.grindrodbank.a3s/Services/SecurityContractApplicationService.cs:190-203 | adding absent permissions and deleting undeclared ones leaves exactly the declared permission names, from any starting point |
| ApplicationConvergence.PoliciesConverge | src/za.co.grindrodbank.a3s/Services/SecurityContractApplicationService.cs:97-155 | synchronising policies succeeds exactly when no declared policy is another application's, and then leaves exactly the declared ones |
| ApplicationConvergence.ApplyConverges | src/za.co.grindrodbank.a3s/Services/SecurityContractApplicationService.cs:103-312 | from any store, an accepted declaration leaves exactly the declared application functions and permissions, of several under one name the last, exactly the declared data policies when names are distinct, and other applications' rows untouched |
| ApplicationInvariants.AcceptedIff | src/za.co.grindrodbank.a3s/Services/SecurityContractApplicationService.cs:38-95 | a declaration is accepted exactly when it names no other application's functions or policies, a permission once in a function, and a new one once in all; repeating one under a stored function is harmless |
| ApplicationInvariants.ApplyKeepsSound | src/za.co.grindrodbank.a3s/Services/SecurityContractApplicationService.cs:157-164 | synchronisation and orphan deletion leave every stored permission held and every other invariant intact |
| ApplicationInvariants.FunctionsAfterApply | src/za.co.grindrodbank.a3s/Repositories/PermissionRepository.cs:59-70 | the cascade leaves each business function exactly its permissions that are still held |
| ApplicationInvariants.TeamsAfterApply | src/za.co.grindrodbank.a3s/Services/SecurityContractApplicationService.cs:103-119 | after a declaration every team has exactly those of its policies that are still stored, and is otherwise unchanged |
| SecurityContract.TeamsAfterResourceServers | src/za.co.grindrodbank.a3s/Services/SecurityContractApplicationService.cs:103-119 | after any list of declarations a team has exactly those of its policies that no declaration of their own application left out, even if another one brings the name back |
| ApplicationInvariants.PermissionsAfterApply | src/za.co.grindrodbank.a3s/Services/SecurityContractApplicationService.cs:157-164 | after a declaration the stored permissions are exactly the held ones: old ones with their description, new ones with one that the declaration gives them |
| ApplicationInvariants.RefusedIsConflict | src/za.co.grindrodbank.a3s/Services/SecurityContractApplicationService.cs:55-101 | a declaration is only ever refused for a unique constraint, and a new application that repeats a function's name is |
| ApplicationInvariants.ApplyKeepsCoveredIff | src/za.co.grindrodbank.a3s/Services/SecurityContractApplicationService.cs:157-164 | permissions stay within applications exactly when the declaration drops none that a function of the application uses and another application holds |
| ApplicationInvariants.ApplyKeepsUnsharedIff | src/za.co.grindrodbank.a3s/Services/SecurityContractApplicationService.cs:283-312 | no permission is shared afterwards exactly when none was claimed from another application |
| ApplicationInvariants.UnsharedStrandsNothing | src/za.co.grindrodbank.a3s/Services/SecurityContractApplicationService.cs:215-248 | where nothing is shared nothing is stranded |
| ApplicationInvariants.MatchedIsFixed | src/za.co.grindrodbank.a3s/Services/SecurityContractApplicationService.cs:157-232 | applying a declaration that already holds changes nothing |
| SecurityContractDefaultConfiguration.AssignPermissions | src/za.co.grindrodbank.a3s/Services/SecurityContractDefaultConfigurationService.cs:132-180 | the nested loops find a permission exactly when an application function of the application holds it, and add a row for every one that does |
| SecurityContractDefaultConfiguration.RemoveUndeclared | src/za.co.grindrodbank.a3s/Services/SecurityContractDefaultConfigurationService.cs:182-206 | the loop from the last function to the first |
| SecurityContractDefaultConfiguration.ApplyApplication | src/za.co.grindrodbank.a3s/Services/SecurityContractDefaultConfigurationService.cs:72-130 | the walk over an application's default functions, which ends at the first without permissions; rows added twice fail the save, and without application functions a stored function loses its permissions and moves |
| SecurityContractDefaultConfiguration.ApplyRole | src/za.co.grindrodbank.a3s/Services/SecurityContractDefaultConfigurationService.cs:231-332 | one role is overwritten or the error is the loop's first |
| SecurityContractDefaultConfiguration.ApplyUser | src/za.co.grindrodbank.a3s/Services/SecurityContractDefaultConfigurationService.cs:419-508 | one user is overwritten; looked up as declared, stored trimmed |
| SecurityContractDefaultConfiguration.ApplyTeam | src/za.co.grindrodbank.a3s/Services/SecurityContractDefaultConfigurationService.cs:557-706 | one team is overwritten, with its checks in the order of the code |
| SecurityContractDefaultConfiguration.Apply | src/za.co.grindrodbank.a3s/Services/SecurityContractDefaultConfigurationService.cs:42-56 | the sections in order, simple roles and teams before compound ones |
| ApplicationsSection.ApplicationIff | src/za.co.grindrodbank.a3s/Services/SecurityContractDefaultConfigurationService.cs:72-180 | a function list is accepted exactly when every permission met before the walk ends is held by exactly one application function of the application and is named once |
| ApplicationsSection.ApplicationRefused | src/za.co.grindrodbank.a3s/Services/SecurityContractDefaultConfigurationService.cs:132-174 | a list is refused for a permission that the walk meets and the application does not hold, and if there is none for a row that is added twice |
| ApplicationsSection.ApplicationApplied | src/za.co.grindrodbank.a3s/Services/SecurityContractDefaultConfigurationService.cs:72-206 | the application then has exactly the declared functions the walk reached; without application functions it has none with permissions |
| ApplicationsSection.UnreachedIsDetached | src/za.co.grindrodbank.a3s/Services/SecurityContractDefaultConfigurationService.cs:90-127 | a stored function on the list that the walk does not reach is taken from the application and keeps its description and permissions |
| ApplicationsSection.ApplicationMoves | src/za.co.grindrodbank.a3s/Services/SecurityContractDefaultConfigurationService.cs:103-130 | without application functions a listed function of another application, or of none, moves to this one, and one of this application is left without |
| ApplicationsSection.RolesAfterApplication | src/za.co.grindrodbank.a3s/Services/SecurityContractDefaultConfigurationService.cs:184-206 | after a list every role has exactly those of its functions that are not functions of the application left out of the list |
| ApplicationsSection.NewFunctionTwiceIsRefused | src/za.co.grindrodbank.a3s/Services/SecurityContractDefaultConfigurationService.cs:95-127 | a list whose walk meets a function twice that is not stored is refused |
| ApplicationsSection.ApplicationsAgainIff | src/za.co.grindrodbank.a3s/Services/SecurityContractDefaultConfigurationService.cs:57-130 | applying the section again succeeds, and changes nothing exactly when no stored function is named under an application without application functions |
| ApplicationsSection.ApplicationKeeps | src/za.co.grindrodbank.a3s/Services/SecurityContractDefaultConfigurationService.cs:72-206 | a function list keeps every invariant and keeps permissions within applications |
| RolesSection.RolesAgainIff | src/za.co.grindrodbank.a3s/Services/SecurityContractDefaultConfigurationService.cs:208-332 | applying a roles section without self-listing roles again, on any store with the same roles and functions, succeeds and changes nothing, exactly when no declared compound role is listed as a child |
| RolesSection.SectionOnEmpty | src/za.co.grindrodbank.a3s/Services/SecurityContractDefaultConfigurationService.cs:208-332 | on a store without roles the section succeeds exactly when every child is a declared simple role, the functions exist and no list repeats a row; the stored graph is the declared one and one-level |
| RolesSection.OrderIsImmaterial | src/za.co.grindrodbank.a3s/Services/SecurityContractDefaultConfigurationService.cs:208-229 | the order of the list decides neither success nor result |
| TeamsSection.TeamsAgainIff | src/za.co.grindrodbank.a3s/Services/SecurityContractDefaultConfigurationService.cs:535-706 | the same for applying a teams section again |
| TeamsSection.SectionOnEmpty | src/za.co.grindrodbank.a3s/Services/SecurityContractDefaultConfigurationService.cs:535-706 | on a store without teams the section succeeds exactly when every child is a declared simple team, every team refers to stored rows and no list repeats one; the stored graph is the declared one and one-level |
| TeamsSection.OrderIsImmaterial | src/za.co.grindrodbank.a3s/Services/SecurityContractDefaultConfigurationService.cs:535-556 | the order of the list decides neither success nor result |
| TeamsSection.TeamKeepsSound | src/za.co.grindrodbank.a3s/Services/SecurityContractDefaultConfigurationService.cs:557-706 | a declared team keeps members and child teams apart, and every other invariant |
| TeamsSection.TeamRefused | src/za.co.grindrodbank.a3s/Services/SecurityContractDefaultConfigurationService.cs:555-706 | which error a refused team raises about which item: members against child teams, unknown or compound child teams, unknown users, unknown policies, rows named twice |
| UsersSection.UsersApplied | src/za.co.grindrodbank.a3s/Services/SecurityContractDefaultConfigurationService.cs:408-508 | every declared user is then stored as declared |
| UsersSection.DeclaredUserIff | src/za.co.grindrodbank.a3s/Services/SecurityContractDefaultConfigurationService.cs:419-508 | for every outcome of one declared user, with any white space around the name, what is stored, or which error is raised about which item |
| UsersSection.UntrimmedFailsTwice | src/za.co.grindrodbank.a3s/Services/SecurityContractDefaultConfigurationService.cs:427-458 | a user name with white space around it is refused the second time |
| SecurityContract.ContractKeepsSound | src/za.co.grindrodbank.a3s/Services/SecurityContractService.cs:30-74 | every accepted contract keeps every invariant |
| SecurityContract.ContractAgainIff | src/za.co.grindrodbank.a3s/Services/SecurityContractService.cs:30-74 | idempotence: an accepted contract with distinct names, trimmed user names, no self-listing role or team and at most one default section is accepted again exactly when it lists no role or team that it declares with children as a child, and then changes nothing exactly when it also names no stored function under an application without application functions |
| Counterexamples.SomeContractIsRefusedAgain | src/za.co.grindrodbank.a3s/Services/SecurityContractDefaultConfigurationService.cs:208-332 | a concrete run from the empty store ends with a contract that is accepted once and refused ever after: a role is listed as a child before it gets children |
| Counterexamples.SomeContractMovesAgain | src/za.co.grindrodbank.a3s/Services/SecurityContractDefaultConfigurationService.cs:103-130 | a concrete run from the empty store ends with a contract that is accepted every time and moves a function every time |
| Effects.RoleRenameGrantsAlike | src/za.co.grindrodbank.a3s/Services/RoleService.cs:92-100 | giving a role a fresh name changes nobody's permissions |
| Effects.FunctionRenameGrantsAlike | src/za.co.grindrodbank.a3s/Services/FunctionService.cs:91-101 | nor does giving a function one |
| Effects.CreationsGrantNothing | src/za.co.grindrodbank.a3s/Services/FunctionService.cs:36-67 | creating a function, a role or a team, or updating a team, changes nobody's permissions |
| Effects.UpdatedRoleGrants | src/za.co.grindrodbank.a3s/Services/RoleService.cs:77-116 | exactly what every user is granted after a role is updated, renaming and listing itself included |
| Effects.UpdatedFunctionGrants | src/za.co.grindrodbank.a3s/Services/FunctionService.cs:79-117 | exactly what every user is granted after a function is updated, renaming included |
| Effects.DeletedFunctionIsRevoked | src/za.co.grindrodbank.a3s/Services/FunctionService.cs:119-129 | after a function is deleted every user is granted exactly what their other functions grant |
| Effects.WrittenUserIsGranted | src/za.co.grindrodbank.a3s/Services/UserService.cs:43-171 | a user who is created or updated is granted exactly what the submitted roles and their child roles have, and found in exactly the submitted teams and those above |
| Effects.DeletedUserIsGrantedNothing | src/za.co.grindrodbank.a3s/Repositories/UserRepository.cs:100-122 | a deleted user is granted nothing and found in no team, under either name |
| Effects.GoneUntilMade | src/za.co.grindrodbank.a3s/Services/SecurityContractService.cs:30-74 | whatever else happens in a run, a user who is not there is granted nothing until a request, a contract or a start makes a user of that name |
| Effects.OtherUsersStay | src/za.co.grindrodbank.a3s/Services/UserService.cs:43-171 | creating, updating or deleting a user changes nobody else's permissions, teams or policies |
| Effects.NewAdminIsGranted | src/za.co.grindrodbank.a3s/Startup.cs:240-385 | the administrator whom a start makes, with the role and function it makes, is granted exactly the two permissions it makes |
| ContractExport.ExportApplication | src/za.co.grindrodbank.a3s/Services/SecurityContractApplicationService.cs:314-362 | an application's functions, permissions and policies are listed; policies only inside the loop over functions |
| ContractExport.ExportPolicies | src/za.co.grindrodbank.a3s/Services/SecurityContractApplicationService.cs:364-381 | all data policies of the application |
| ContractExport.ExportFunctions | src/za.co.grindrodbank.a3s/Services/SecurityContractDefaultConfigurationService.cs:726-762 | the business functions of an application |
| ContractExport.ExportRoles | src/za.co.grindrodbank.a3s/Services/SecurityContractDefaultConfigurationService.cs:764-799 | all roles, simple ones first |
| ContractExport.ExportUsers | src/za.co.grindrodbank.a3s/Services/SecurityContractDefaultConfigurationService.cs:801-832 | all users that are not deleted |
| ContractExport.ExportTeams | src/za.co.grindrodbank.a3s/Services/SecurityContractDefaultConfigurationService.cs:866-906 | all teams, simple ones first |
| ContractExport.Export | src/za.co.grindrodbank.a3s/Services/SecurityContractService.cs:97-116 | the whole export is a listing of the store |
| ContractReapply.ReapplyIff | src/za.co.grindrodbank.a3s/Services/SecurityContractService.cs:97-116 | applying the export of a sound store to that store changes nothing, exactly when every application with data policies has an application function, every function of an application has permissions and each of them is held by exactly one of the application's functions, and both graphs are one-level; for any order of the exported lists |
| ContractRestore.RestoreIff | src/za.co.grindrodbank.a3s/Services/SecurityContractService.cs:97-116 | applying the export of any sound store to the empty store rebuilds it, exactly when it can be reapplied, the contract carries all its rows, and a permission that two functions of one application hold is held by some application listed earlier |
| ContractRestore.RestoreOntoIff | src/za.co.grindrodbank.a3s/Services/SecurityContractService.cs:97-116 | the same onto any sound store whose rows have their names in the exported one, for an exported store with one-level graphs: what is stored already may hold the permission as well |
| Installation.RunsRestoreOntoInstallationIff | src/za.co.grindrodbank.a3s/Services/SecurityContractService.cs:97-116 | the same from any state of a run that starts at a new installation and still has the rows of the first start, onto another new installation |
| ContractRestore.UnsharedOrderIsImmaterial | src/za.co.grindrodbank.a3s/Services/SecurityContractService.cs:97-116 | where no permission is shared between applications, the order in which the contract lists them does not matter |
| RunExports.RunsStayTrimmed | src/za.co.grindrodbank.a3s/Services/SecurityContractDefaultConfigurationService.cs:419-483 | in every state of a run with safe restarts that starts so, the names and addresses of users that are not deleted carry no white space around them |
| RunExports.RunsReapplyIff | src/za.co.grindrodbank.a3s/Services/SecurityContractService.cs:97-116 | in every state of a run with safe restarts from a sound store with trimmed user names, where no role or team lists itself, applying the export changes nothing, exactly when the store is reappliable |
| RunExports.RunsRestoreIff | src/za.co.grindrodbank.a3s/Services/SecurityContractService.cs:97-116 | in every state of a run with safe restarts from a sound store with trimmed user names, the export rebuilds the store from nothing, under the exact condition of `ContractRestore.RestoreIff` |
| RunExports.RunsContractAgainIff | src/za.co.grindrodbank.a3s/Services/SecurityContractService.cs:30-74 | idempotence, with its exact conditions, in every state of a run with safe restarts from a sound store |
| Transactions.UnitOfWork.InitSharedTransaction | src/za.co.grindrodbank.a3s/Repositories/PermissionRepository.cs:27-31 | a repository begins a transaction only if its context has none |
| Transactions.UnitOfWork.CommitTransaction | src/za.co.grindrodbank.a3s/Repositories/PermissionRepository.cs:33-37 | a repository commits only a transaction that is still open |
| Transactions.UnitOfWork.RollbackTransaction | src/za.co.grindrodbank.a3s/Repositories/PermissionRepository.cs:39-43 | a repository rolls back only a transaction that is still open |
| Transactions.UnitOfWork.BeginAll | src/za.co.grindrodbank.a3s/Services/SecurityContractApplicationService.cs:383-390 | all repositories together begin one transaction a context |
| Transactions.UnitOfWork.CommitAll | src/za.co.grindrodbank.a3s/Services/SecurityContractApplicationService.cs:392-399 | all repositories together commit each context once, up to the first commit that fails |
| Transactions.UnitOfWork.RollbackAll | src/za.co.grindrodbank.a3s/Services/SecurityContractApplicationService.cs:401-408 | all repositories together roll each open context back once |
| Transactions.UnitOfWork.ApplySecurityContract | src/za.co.grindrodbank.a3s/Services/SecurityContractService.cs:30-74 | a contract that fails leaves both databases as they were, one that succeeds publishes both, and each context sees one begin and one end; a failing commit is accounted for |
| Transactions.UnitOfWork.AllOrNothingIff | src/za.co.grindrodbank.a3s/Services/SecurityContractService.cs:83-88 | exactly when a failing commit leaves half of a contract durable |
| Claims.PermissionQueryIff | src/za.co.grindrodbank.a3s-identity-server/Services/IdentityWithAdditionalClaimsProfileService.cs:78-101 | on the tables: the query finds a permission exactly when it is stored and one of its functions is in a role that the user has, or in a child role of one |
| Claims.TeamQueryIff | src/za.co.grindrodbank.a3s-identity-server/Services/IdentityWithAdditionalClaimsProfileService.cs:163-180 | on the tables: the query finds a team exactly when the user is a member of it or of one of its child teams |
| Claims.PolicyQueryIff | src/za.co.grindrodbank.a3s-identity-server/Services/IdentityWithAdditionalClaimsProfileService.cs:128-148 | on the tables: the query finds a policy exactly when it is stored and assigned to such a team |
| Claims.QueryIsClosure | src/za.co.grindrodbank.a3s-identity-server/Services/IdentityWithAdditionalClaimsProfileService.cs:78-101 | on a one-level role graph the two-branch query finds exactly the permissions that some function of some role reachable from the user's roles has |
| Claims.QueryIsClosureIfNoDeeperRole | src/za.co.grindrodbank.a3s-identity-server/Services/IdentityWithAdditionalClaimsProfileService.cs:78-101 | on any graph the query finds exactly the permissions of all reachable roles when a second hop adds no role |
| Claims.QueryIsGranted | src/za.co.grindrodbank.a3s-identity-server/Services/IdentityWithAdditionalClaimsProfileService.cs:78-101 | on any graph the query finds only such permissions |
| Claims.OneHopReachesAllIff | src/za.co.grindrodbank.a3s-identity-server/Services/IdentityWithAdditionalClaimsProfileService.cs:78-101 | on any graph one hop reaches all roles exactly when a second hop adds none |
| Claims.DeepPermissionIsMissed | src/za.co.grindrodbank.a3s-identity-server/Services/IdentityWithAdditionalClaimsProfileService.cs:91-101 | a permission two steps down that nothing nearer has is missed |
| Claims.TeamQueryIsClosure | src/za.co.grindrodbank.a3s-identity-server/Services/IdentityWithAdditionalClaimsProfileService.cs:163-180 | the team query finds only teams at or above the user's teams, and all of them on a one-level team graph |
| Claims.PoliciesAreThoseOfTheTeams | src/za.co.grindrodbank.a3s-identity-server/Services/IdentityWithAdditionalClaimsProfileService.cs:128-148 | the policies are exactly those of the teams of the team query |
| Claims.GeneratePermissionClaims | src/za.co.grindrodbank.a3s-identity-server/Services/IdentityWithAdditionalClaimsProfileService.cs:103-116 | the loop adds one claim for every permission that had none, and nothing else |
| Claims.GeneratePolicyClaims | src/za.co.grindrodbank.a3s-identity-server/Services/IdentityWithAdditionalClaimsProfileService.cs:150-161 | the loop adds one claim for every policy that had none, and nothing else |
| Claims.GenerateTeamClaims | src/za.co.grindrodbank.a3s-identity-server/Services/IdentityWithAdditionalClaimsProfileService.cs:182-194 | the loop over the teams, whose test compares the name with values that are identifiers |
| Claims.TeamsAreClaimed | src/za.co.grindrodbank.a3s-identity-server/Services/IdentityWithAdditionalClaimsProfileService.cs:182-194 | if no identifier is a team's name, exactly the teams whose names are not values already get a claim, in order |
| Claims.TeamsAreAllClaimed | src/za.co.grindrodbank.a3s-identity-server/Services/IdentityWithAdditionalClaimsProfileService.cs:187-193 | every team is claimed once if no identifier is a team's name |
| Claims.GetProfileData | src/za.co.grindrodbank.a3s-identity-server/Services/IdentityWithAdditionalClaimsProfileService.cs:40-74 | the issued claims are the requested ones, then those of the three queries, then contact data |
| Claims.RequestedExactly | src/za.co.grindrodbank.a3s-identity-server/Services/IdentityWithAdditionalClaimsProfileService.cs:50-50 | of the principal's claims those of a requested kind are issued, each as often as it is there |
| Claims.ProfileValues | src/za.co.grindrodbank.a3s-identity-server/Services/IdentityWithAdditionalClaimsProfileService.cs:40-74 | what an issued profile says under every kind but that of teams: the requested claims, and with them the permissions and policies of the queries, the address and the user name |
| Claims.ProfileTeams | src/za.co.grindrodbank.a3s-identity-server/Services/IdentityWithAdditionalClaimsProfileService.cs:40-74 | and under that of teams: the identifiers of exactly the teams of the team query, if no identifier or value is a team's name |
| Claims.HandleRequirement | src/za.co.grindrodbank.a3s/AuthorisationPolicies/PermissionsAuthorisationHandler.cs:17-45 | succeeds exactly when some permission claim names the required permission |
| Claims.LetThroughIffGranted | src/za.co.grindrodbank.a3s/AuthorisationPolicies/PermissionsAuthorisationHandler.cs:17-45 | query, claims and check together: on a one-level graph a user is let through exactly when a reachable role grants the permission |
| Archives.MemoryStream.Read | src/za.co.grindrodbank.a3s/Helpers/ArchiveHelper.cs:51-51 | a read near the end gets fewer bytes and leaves the rest of the buffer as it was |
| Archives.ReadEntry | src/za.co.grindrodbank.a3s/Helpers/ArchiveHelper.cs:49-75 | one pass of the loop on the reused buffer and the moving position |
| Archives.ReturnFilesListInTar | src/za.co.grindrodbank.a3s/Helpers/ArchiveHelper.cs:44-88 | the loop ends on every byte string, at a multiple of 512 at each head, with the list or the exception of its rounds |
| Archives.NextNeedsABlock | src/za.co.grindrodbank.a3s/Helpers/ArchiveHelper.cs:49-75 | a completed round needs a whole block, advances by at least 512 and ends at a multiple of 512 |
| Archives.BaseName | src/za.co.grindrodbank.a3s/Helpers/ArchiveHelper.cs:81-82 | what follows the last slash |
| ArchiveReading.ShortRoundThrows | src/za.co.grindrodbank.a3s/Helpers/ArchiveHelper.cs:49-69 | a round with fewer than 512 bytes left ends the list on a blank name and throws otherwise |
| ArchiveReading.NamesFit | src/za.co.grindrodbank.a3s/Helpers/ArchiveHelper.cs:44-88 | a successful list has at most one name for every 512 bytes |
| ArchiveReading.EndMarkerIsNeeded | src/za.co.grindrodbank.a3s/Helpers/ArchiveHelper.cs:51-60 | an archive that ends with its last file is never listed: the stale buffer passes for another name |
| ArchiveReading.ArchiveReadBack | src/za.co.grindrodbank.a3s/Helpers/ArchiveHelper.cs:44-88 | any well-formed archive followed by a zero block gives back its names in order, or their base names |
| ArchiveReading.BadSizeFails | src/za.co.grindrodbank.a3s/Helpers/ArchiveHelper.cs:58-65 | after any well-formed files, a size that cannot be read or that no array can have ends in the exception of the conversion or of the allocation |
| ArchiveReading.BlankNameStops | src/za.co.grindrodbank.a3s/Helpers/ArchiveHelper.cs:51-54 | a block whose name is nothing but white space ends the list |
| ArchiveReading.UstarIsFile | src/za.co.grindrodbank.a3s/Helpers/ArchiveHelper.cs:58-60 | sizes written as octal digits padded with spaces make a file well-formed |
| ArchiveReading.OctalParserReadsDigits | src/za.co.grindrodbank.a3s/Helpers/ArchiveHelper.cs:60-60 | reading octal digit by digit rejects empty texts and NULs |
| SafeRandomizer.DrawCount | src/za.co.grindrodbank.a3s/Services/SafeRandomizerService.cs:27-47 | every value of the range, as far as 32 bits hold its size, is returned for exactly floor(2^32 / size) fillings of the buffer, and no other value for any |
| SafeRandomizer.UnbiasedIff | src/za.co.grindrodbank.a3s/Services/SafeRandomizerService.cs:34-46 | all values are returned for equally many fillings exactly when the range has at most 2^31 of them; beyond that the difference wraps around |
| SafeRandomizer.MostDrawsAreAccepted | src/za.co.grindrodbank.a3s/Services/SafeRandomizerService.cs:41-46 | more than half of all fillings give a number at once |
| SafeRandomizer.DrawnOnce | src/za.co.grindrodbank.a3s/Services/SafeRandomizerService.cs:37-38 | every 32-bit number comes from exactly one filling of the buffer |
| SafeRandomizer.FirstAcceptedInRange | src/za.co.grindrodbank.a3s/Services/SafeRandomizerService.cs:27-47 | whatever is returned lies in the range |
| SafeRandomizer.SafeRandomizerService.Next | src/za.co.grindrodbank.a3s/Services/SafeRandomizerService.cs:27-47 | the result and the bytes left for the next call are those of `Picked` |
| SafeRandomizer.PickedIff | src/za.co.grindrodbank.a3s/Services/SafeRandomizerService.cs:27-47 | the number returned is the lower bound plus the remainder of the first four-byte block, read from the lowest byte, that lies below the largest multiple of the number of values; the bytes after that block are left |
| SafeRandomizer.NothingPickedIff | src/za.co.grindrodbank.a3s/Services/SafeRandomizerService.cs:27-35 | nothing is returned exactly while every block lies at or above that multiple; bounds in the wrong order are the exception, and equal bounds cost no bytes |
| SafeRandomizer.SafeRandomizerService.RandomString | src/za.co.grindrodbank.a3s/Services/SafeRandomizerService.cs:49-80 | the text and the bytes left are those of `Password`, the characters that the numbers drawn name |
| SafeRandomizer.PasswordIff | src/za.co.grindrodbank.a3s/Services/SafeRandomizerService.cs:49-80 | a text is returned exactly when each of its characters is the one named by the first block after the previous character's that is accepted for the size of its alphabet |
| SafeRandomizer.LastCharactersAreNeverUsed | src/za.co.grindrodbank.a3s/Services/SafeRandomizerService.cs:61-76 | the three alphabets in their order, without z, Z and 0, which the exclusive upper bound shuts out |
| Totp.TruncationIsStandard | src/za.co.grindrodbank.a3s-identity-server/Services/Rfc6238AuthenticationService.cs:46-52 | the masks, shifts and ors compute the truncation of section 5.3 of RFC 4226 for every 20-byte hash |
| Totp.Offset | src/za.co.grindrodbank.a3s-identity-server/Services/Rfc6238AuthenticationService.cs:46-47 | the offset is the low four bits of the last byte, so no index is out of range |
| Totp.ComputeTotp | src/za.co.grindrodbank.a3s-identity-server/Services/Rfc6238AuthenticationService.cs:36-55 | a code is below 10^6 |
| Totp.CodeIsStandard | src/za.co.grindrodbank.a3s-identity-server/Services/Rfc6238AuthenticationService.cs:36-55 | the code is the truncation of the hash of the standard text modulo 10^6, sections 5.2 and 5.3 of RFC 4226, for every step number of 64 bits |
| Totp.GeneratedCode | src/za.co.grindrodbank.a3s-identity-server/Services/Rfc6238AuthenticationService.cs:72-91 | from the epoch on, that step is the number of whole periods of 180 seconds since the epoch |
| Totp.HashedTextsDiffer | src/za.co.grindrodbank.a3s-identity-server/Services/Rfc6238AuthenticationService.cs:43-44 | different time steps or modifiers give different texts to hash |
| Totp.ApplyModifier | src/za.co.grindrodbank.a3s-identity-server/Services/Rfc6238AuthenticationService.cs:57-69 | the copied array is the input followed by the modifier |
| Totp.ValidateCode | src/za.co.grindrodbank.a3s-identity-server/Services/Rfc6238AuthenticationService.cs:93-118 | accepts exactly the codes of the five steps around now |
| Totp.AcceptsIff | src/za.co.grindrodbank.a3s-identity-server/Services/Rfc6238AuthenticationService.cs:93-118 | a code is accepted exactly when it is the standard's for one of the five step numbers around the present one |
| Totp.AcceptedWithinSixMinutes | src/za.co.grindrodbank.a3s-identity-server/Services/Rfc6238AuthenticationService.cs:72-118 | a code is accepted at every moment within 360 seconds of its making, on either side of the epoch |
| Totp.WindowIff | src/za.co.grindrodbank.a3s-identity-server/Services/Rfc6238AuthenticationService.cs:103-112 | a step is in the window exactly when its number is at most two away, wrap-around included |
| Totp.OutsideAfterNineMinutes | src/za.co.grindrodbank.a3s-identity-server/Services/Rfc6238AuthenticationService.cs:72-118 | at 540 seconds or more the step is outside the window, from the epoch on |
| Totp.LongerAcrossTheEpoch | src/za.co.grindrodbank.a3s-identity-server/Services/Rfc6238AuthenticationService.cs:72-76 | across the epoch that is false: a concrete pair of moments |
| RecoveryCodes.EachCodeWorksOnce | src/za.co.grindrodbank.a3s/Stores/CustomUserStore.cs:36-73 | over any run of attempts a code is accepted exactly when it was issued and not tried before, and the count is what was issued less what was accepted |
| RecoveryCodes.RunOnList | src/za.co.grindrodbank.a3s/Stores/CustomUserStore.cs:57-73 | the same for stored hashes, without assuming that hashes do not collide |
| RecoveryCodes.SplitUndoesJoin | src/za.co.grindrodbank.a3s/Stores/CustomUserStore.cs:51-67 | splitting undoes joining; the empty text splits into one empty code |
| Strings.JoinUndoesSplit | src/za.co.grindrodbank.a3s/Stores/CustomUserStore.cs:51-67 | joining undoes splitting, and no part holds the separator |
| RecoveryCodes.HashedText | src/za.co.grindrodbank.a3s/Stores/CustomUserStore.cs:44-48 | a stored hash is not empty and has no separator in it |
| RecoveryCodes.HashedDiffers | src/za.co.grindrodbank.a3s/Stores/CustomUserStore.cs:44-48 | stored texts are equal exactly when the hashes are |
| RecoveryCodes.HashedIsHexadecimal | src/za.co.grindrodbank.a3s/Stores/CustomUserStore.cs:44-48 | what is stored for a code are the 64 lower-case hexadecimal digits of its hash, and they give it back byte by byte |
| RecoveryCodes.CustomUserStore.SetToken | src/za.co.grindrodbank.a3s/Stores/CustomUserStore.cs:75-110 | the row is inserted or updated, sealed for the authenticator key, verified for recovery codes |
| RecoveryCodes.WritesReadBack | src/za.co.grindrodbank.a3s/Stores/CustomUserStore.cs:75-142 | after any writes of any tokens, each is read as it was written last, encrypted or not |
| RecoveryCodes.WrittenRows | src/za.co.grindrodbank.a3s/Stores/CustomUserStore.cs:75-110 | after any writes of any tokens: which rows there are, the stored text of each, sealed for authenticator keys only, and whether it counts as verified |
| RecoveryCodes.CustomUserStore.ReplaceCodes | src/za.co.grindrodbank.a3s/Stores/CustomUserStore.cs:36-53 | codes are hashed in place, joined and stored |
| RecoveryCodes.CustomUserStore.RedeemCode | src/za.co.grindrodbank.a3s/Stores/CustomUserStore.cs:55-73 | a stored hash is removed and accepted; every other row of every user stays, and none is added |
| RecoveryCodes.CustomUserStore.CountCodes | src/za.co.grindrodbank.a3s/Stores/CustomUserStore.cs:167-175 | the number of stored hashes, none for the empty text |
| AgreementVersions.RunsKeepOrder | src/za.co.grindrodbank.a3s/Services/TermsOfServiceService.cs:104-124 | over any run of creations and deletions that starts in order, whatever the clock shows, the versions of a name increase as year and number in the order of creation, while numbers stay below 2^31 - 1 |
| AgreementVersions.CreateKeepsOrderIff | src/za.co.grindrodbank.a3s/Services/TermsOfServiceService.cs:104-124 | a creation keeps the versions increasing exactly when the latest number has room or its year is past |
| AgreementVersions.NumbersOverflow | src/za.co.grindrodbank.a3s/Services/TermsOfServiceService.cs:119-120 | after the largest number comes the smallest |
| AgreementVersions.NewVersionIsNext | src/za.co.grindrodbank.a3s/Services/TermsOfServiceService.cs:104-124 | on versions the service wrote, it writes the next one, and that parses back |
| AgreementVersions.CreateStores | src/za.co.grindrodbank.a3s/Services/TermsOfServiceService.cs:35-62 | a creation adds one row at the end, under the trimmed name and an identifier of its own, whose version reads as the first of the year or as the latest one's year and number plus one |
| AgreementVersions.WriteReadBack | src/za.co.grindrodbank.a3s/Services/TermsOfServiceService.cs:115-120 | every version written parses back to its year and number |
| AgreementVersions.ParseReads | src/za.co.grindrodbank.a3s/Services/TermsOfServiceService.cs:115-120 | numbers may have white space around them and one sign; what does not fit 32 bits is not a number |
| AgreementVersions.NewVersionOfAny | src/za.co.grindrodbank.a3s/Services/TermsOfServiceService.cs:113-120 | texts that are not versions start over, others keep their year as it is written |
| AgreementVersions.VersionsAreUnique | src/za.co.grindrodbank.a3s/Repositories/TermsOfServiceRepository.cs:95-102 | no two stored agreements of a name have the same version |
| AgreementVersions.DeleteKeepsOrder | src/za.co.grindrodbank.a3s/Services/TermsOfServiceService.cs:64-72 | deleting any agreement keeps the order of the others |
| AgreementVersions.DeleteIff | src/za.co.grindrodbank.a3s/Services/TermsOfServiceService.cs:64-72 | a deletion removes the one row with the identifier and keeps all others in their places |
| AgreementVersions.RunsKeepIdentified | src/za.co.grindrodbank.a3s/Services/TermsOfServiceService.cs:35-72 | in every state of a run no two agreements share an identifier |
| AgreementVersions.TermsOfServiceService.Create | src/za.co.grindrodbank.a3s/Services/TermsOfServiceService.cs:35-62 | the whole new state, or the error of the archive check and no change |
| Strings.TrimIs | src/za.co.grindrodbank.a3s/Services/TermsOfServiceService.cs:45-45 | trimming removes all white space from both ends and nothing else |
| AgreementVersions.TermsOfServiceService.Delete | src/za.co.grindrodbank.a3s/Services/TermsOfServiceService.cs:64-72 | the row is gone, or it was not there |
| AgreementVersions.TermsOfServiceService.ValidateFile | src/za.co.grindrodbank.a3s/Services/TermsOfServiceService.cs:84-102 | accepts exactly archives that list both files; a damaged archive is reported as such |
| AgreementVersions.CheckFileIff | src/za.co.grindrodbank.a3s/Services/TermsOfServiceService.cs:84-102 | a file passes exactly when it can be listed and both files are on the list; otherwise which error it is |
| AgreementVersions.ArchivePassesIff | src/za.co.grindrodbank.a3s/Services/TermsOfServiceService.cs:84-102 | a well-formed archive passes exactly when it holds both files, in whatever directories |

## Left out

- ContractRestore.RestoreIff: for stores whose user names are trimmed; the restored store has an API resource for every application, and what the exporter does not carry (LDAP modes, phone numbers, avatars, passwords, clients) is not part of the store.
- ContractRestore.RestoreOntoIff: onto stores without teams, and for one-level graphs; a role that is a leaf in the store that is restored onto, and not in the exported one, may or may not be accepted as a child, as the order of the list has it.
- SecurityContractApplication.Apply: a null list and an empty list are one; the database's unique constraints on the names of application functions, permissions and policies are the `Conflict` error.
- RoleService.Update: like the updates of functions and teams it saves after the commit in the code; the model makes the save part of the step, and a rejected request leaves no trace. A role that lists itself is looked up as it is stored.
- RoleService.AssignRows: a role that lists itself is looked up as it is stored; what the object-relational mapper's identity map makes of it is not modelled. Statements on accepting it ask that no node is its own child, and those on cycles are about two distinct nodes.
- TeamService.AssignRows: a team that lists itself, likewise.
- SecurityContractDefaultConfiguration.ApplyRole: a declared role that lists itself, likewise; the code looks it up in the middle of being changed.
- SecurityContractDefaultConfiguration.ApplyTeam: a declared team that lists itself, likewise.
- UserService.Create: passwords, avatars, phone numbers, LDAP links and the validation of the identity library are not modelled, except that the password must not be blank; nor is the upper-case copy of the user name.
- UserService.Update: the same parts of a user, and the upper-case copy of the new name.
- SecurityContractDefaultConfiguration.ApplyUser: LDAP modes and the upper-case copy of the user name.
- Strings.Trim: removes ASCII white space only; the platform's trimming also removes the other white space of Unicode.
- TeamService.Create: the link from a team to a terms-of-service entry.
- TeamService.Update: the link from a team to a terms-of-service entry; a team that lists itself.
- SecurityContractDefaultConfiguration.ApplyApplication: a stored function that the walk does not put back into its application's list belongs to no application afterwards, and one whose application has been set belongs to that one, which is how the model reads the change tracking of the object-relational mapper.
- Claims.GetProfileData: the alphabetical order of the permission claims.
- Archives.ReturnFilesListInTar: starts from decompressed bytes; of the path separators only the slash is modelled.
- Archives.ReadEntry: the conversion of the octal size is a parameter; a size beyond the largest array is an error, and memory is otherwise unbounded.
- SafeRandomizer.SafeRandomizerService.Next: the generator's bytes are a finite sequence, so that running out of them is a third outcome beside a value and the exception.
- Totp.ComputeTotp: the keyed hash is any function to 20 bytes, and the modifier is given as the bytes of its text.
- RecoveryCodes.EachCodeWorksOnce: assumes that the hashes of the codes in play do not collide; `RecoveryCodes.RunOnList` does not.
- AgreementVersions.TermsOfServiceService.Create: rows are ordered by creation, which the code reads off the time of the last change; trailing NULs that the number parser tolerates are not modelled.
- AgreementVersions.TermsOfServiceService.Delete: the database refuses to delete an agreement that a team refers to (`V1__terms_of_service.sql:74`), which the model does not know of.
- Bootstrap.BootstrapAdminUser: the descriptions of the rows, and whether the identity library accepts the new user, are parameters; saves are part of one step, and the only save that can fail after an earlier one changed something is the user's.
- Identifiers, the user who made a change and the time of a change: rows are known by name, and lists are exported in any order.
- Requests that run at the same time: the code takes no locks, and the model runs one request after the other.
- The OAuth clients of a contract: only the repository's part in the second transaction is modelled.
- Controllers, resource classes, mapping profiles, YAML, views and start-up wiring.
