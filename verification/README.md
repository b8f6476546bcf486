# kano-init onboarding core, modelled in Dafny

This project models the first-boot text onboarding of a Kano device. It covers two parts.

The **stage flow** (`kano_init/tasks/flow.py`) has one handler per onboarding stage. The stages are USERNAME → LIGHTUP → SWITCH → LETTERS → WHITE_RABBIT → LOVE → FINAL → UI_INIT. Each handler does its stage's work, writes its fixed successor stage into the shared status object and saves that status.

The **account provisioner** (`kano_init/user.py`) covers existence queries, uid allocation, user-name suffix resolution, account creation with a compensating delete, and deletion.

Files:

- `wrappers.dfy`: module `Wrappers`, the `Option` type.
- `user.dfy`: module `User`.
  - The account database (a sequence of `Passwd` entries), the group database (a sequence of `Group` entries), the directories, and the password table.
  - `useradd`, `userdel -r` and the home move are functions on the abstract state `Db`; `usermod -G` (`SetSupplementary`) and the `groupadd` of `kanousers` (`WithKanoUsers`) are functions on the group table. `chpasswd` is the update of the password table inside `Created`. Whether each command exits with status 0 is an input.
  - `GetNextUid` and `MakeUsernameUnique` are the source's loops.
  - Class `Host` holds the machine state. Its methods `CreateUser`, `DeleteUser` and `DeleteAllUsers` change that state step by step. Each is proved against a specification function (`Created`, `Userdel`, `DeletedAll`), and lemmas state what happens on each exit: the refusal, the useradd, chpasswd (with the delete succeeding or failing) and groupadd failures, success, and the ignored usermod status.
- `status.dfy`: module `StatusStore`.
  - The stage enumeration and its successor function.
  - Class `Status`, with the in-memory `stage` and `username` and the `persisted` record that `Save` overwrites.
- `flow.dfy`: module `Flow`.
  - The seven stage handlers, as methods over a `Status` and a `Host`.
  - The name prompt loop (`GetUsername`) and the password-puzzle loop (`AwaitSecret`), each over an injected sequence of typed lines.
  - `HeadlessFirstBoot`: a headless first boot on a device that already has a `kano` account.

Modelling choices:

- Terminal input is a sequence of lines. When the lines run out, the model reports `InputEnded`. This stands for the end-of-input error that reading the prompt raises. A handler that hits it leaves the status unchanged.
- `make_username_unique` follows the code, not its docstring. The docstring promises `None` after 1,000,000 attempts. The code returns `base + "1000000"`, even when that name is taken. `ExhaustedNameRefused` shows that `create_user` then refuses the name, so the username stage fails with `AlreadyExists` instead of provisioning a colliding name.
- `re.match("^[a-zA-Z0-9]+$", s)` is modelled with Python's `$`, which also matches before one final newline (`MatchesWord`). The prompt deletes all whitespace first, so `Judge` accepts exactly the valid names.

## Model

| member | source | states |
|---|---|---|
| `User.GetPwNam` | kano_init/user.py:43-48 | the lookup finds an entry of that name in the account database, and finds nothing exactly when no entry has that name |
| `User.UserExists` | kano_init/user.py:32-48 | `user_exists(n)` holds exactly when `n` is a name in the account database |
| `User.GetGrNam` | kano_init/user.py:62-67 | the group lookup finds a group of that name, and fails exactly when there is none |
| `User.GroupExists` | kano_init/user.py:51-67 | `group_exists(g)` holds exactly when `g` is a name in the group database |
| `User.GetGroupMembers` | kano_init/user.py:70-82 | the list returned is the member list of a group of that name in the database |
| `User.GetNextUid` | kano_init/user.py:148-166 | the uid returned is at least 1001 and used by no account, and every uid from 1001 below it is in use |
| `User.FreeUidFrom` | kano_init/user.py:162-166 | the upward scan from any start past used uids ends at the smallest free uid ≥ 1001 (reference definition of the scan) |
| `User.NextUid` | kano_init/user.py:156-166 | the uid allocated for a database is the smallest free one from 1001 |
| `User.NextUidUnique` | kano_init/user.py:156-166 | any uid meeting the allocation postcondition is the allocated uid: the choice is determined |
| `User.NatToString` | kano_init/user.py:187 | the suffix `str(n)` is a non-empty string of decimal digits with no leading zero (with the round trip below, exactly the decimal numeral of `n`) |
| `User.NatToStringRoundTrip` | kano_init/user.py:187 | the digits of the suffix spell `n` back: `str(n)` is the decimal numeral of `n` |
| `User.MakeUsernameUnique` | kano_init/user.py:169-190 | a free base is returned unchanged; otherwise the result is `base + str(n)` for the smallest n in 1..1,000,000 with that name free, every earlier candidate taken; a taken result only happens as `base + "1000000"` |
| `User.ExhaustedNameRefused` | kano_init/user.py:184-190 | when the search returns a taken name, all candidates below the last are taken, the name is `base + "1000000"`, and `create_user` refuses it without changes |
| `User.RemoveAccount` | kano_init/user.py:207 | userdel removes exactly the entries of that name and keeps every other entry |
| `User.DropMember` | kano_init/user.py:207 | userdel drops the name from every group's member list and keeps all other members and group names |
| `User.SetSupplementary` | kano_init/user.py:140-142 | `usermod -G` makes the user a member of exactly the listed groups and changes no other membership |
| `User.Useradd` | kano_init/user.py:114-119 | useradd appends the new entry last and keeps every earlier one, its home exists, and groups and passwords are unchanged |
| `User.MoveHomeAside` | kano_init/user.py:101-108 | an existing `/home/<name>` is gone and `/home/<name>-old` exists afterwards, no other directory and no database changes; with no `/home/<name>` nothing changes at all |
| `User.Userdel` | kano_init/user.py:204-209 | after userdel the account, its home, its password and its memberships are gone, and every other account exists exactly as before |
| `User.UserdelKeepsOthers` | kano_init/user.py:204-209 | userdel touches no other user: the other account entries, directories and passwords are kept, and every group keeps its name, its position and all its other members |
| `User.WithKanoUsers` | kano_init/user.py:133-138 | after this step the `kanousers` group exists, an existing group table is left as it was, every earlier group is kept, and the group names gain exactly `kanousers` |
| `User.Created` | kano_init/user.py:85-145 | `create_user` raises `AlreadyExists` exactly when the name is an account, and raises nothing exactly when the name is new and useradd, chpasswd and (when `kanousers` is missing) groupadd succeed; the usermod status plays no part |
| `User.DeletedAll` | kano_init/user.py:212-225 | the only error `delete_all_users` raises is the delete error |
| `User.AppendKeepsUnique` | kano_init/user.py:98-119 | adding an account whose name is new keeps account names unique |
| `User.RemoveKeepsUnique` | kano_init/user.py:207 | removing a name's entries keeps account names unique |
| `User.CreatedKeepsUnique` | kano_init/user.py:85-145 | on every path, `create_user` keeps the account database free of duplicate names |
| `User.CreateExistingRefused` | kano_init/user.py:98-99 | creating an existing name raises `AlreadyExists` before any state change: no home move, no useradd |
| `User.CreatePreservesOldHome` | kano_init/user.py:101-108 | once past the existence check, a directory found at `/home/<name>` survives as `/home/<name>-old` on every path |
| `User.CreateSucceeds` | kano_init/user.py:85-145 | a successful creation appends exactly one account with the uid `get_next_uid` picks, creates its home, sets the default password, and leaves `kanousers` present |
| `User.CreateTwiceRefused` | kano_init/user.py:98-99 | after a successful creation, creating the same name again raises `AlreadyExists`, changes nothing, and exactly one such account remains |
| `User.CreateUseraddFails` | kano_init/user.py:119-123 | a useradd failure raises and skips the password and group steps; only the stale home has moved |
| `User.CreateRollsBack` | kano_init/user.py:125-131 | a chpasswd failure with a successful compensating delete raises, and leaves no such account, no home, no password and no membership |
| `User.CreateRollbackFails` | kano_init/user.py:125-131 | a chpasswd failure whose compensating delete also fails raises the delete error and leaves the new account and its home in place, without a password |
| `User.CreateGroupaddFails` | kano_init/user.py:133-138 | a groupadd failure raises after the account and its password are in place; nothing is rolled back and `kanousers` stays missing |
| `User.UsermodIgnored` | kano_init/user.py:140-142 | the usermod exit status changes neither the error raised nor the accounts, directories or passwords |
| `User.UsermodJoinsKanoUsers` | kano_init/user.py:140-142 | after a successful creation with usermod succeeding, the new user is a member of `kanousers` |
| `User.SupplementaryKeepsGroups` | kano_init/user.py:140-142 | `usermod -G` neither creates nor removes a group |
| `User.JoinsListedGroup` | kano_init/user.py:140-142 | `usermod -G` with the default list makes the user a member of an existing `kanousers` |
| `User.RemoveAppendNew` | kano_init/user.py:125-131 | deleting the account just added restores the account database exactly |
| `User.DeletedAllRemovesMembers` | kano_init/user.py:212-225 | after an error-free `delete_all_users`, no member of `kanousers` is an account, and no other account was removed |
| `User.DeletedAllKeepsAbsent` | kano_init/user.py:224-225 | deleting accounts never brings back an absent one |
| `User.DeletedAllStopsAt` | kano_init/user.py:224-225 | when member `k`'s delete is the first to fail, `delete_all_users` raises with exactly the members before `k` deleted, in order, and the rest untouched |
| `User.DeletedAllFailsIff` | kano_init/user.py:224-225 | `delete_all_users` raises exactly when some member's userdel fails, and then it raises the delete error |
| `User.DeletedAllKeepsUnique` | kano_init/user.py:212-225 | deleting the members keeps account names unique |
| `User.Host.DeleteUser` | kano_init/user.py:193-209 | raises exactly when userdel fails, with the state unchanged; otherwise the new state is `Userdel` of the old one; the killall result plays no part |
| `User.Host.CreateUser` | kano_init/user.py:85-145 | the new state and the error raised are those of `Created` for the old state, including the early refusal, the useradd, chpasswd+rollback and groupadd failures, and the ignored usermod status |
| `User.Host.DeleteAllUsers` | kano_init/user.py:212-225 | without `kanousers` nothing happens; otherwise the members listed at the start are deleted in order and the first failing delete stops the loop (`DeletedAll`) |
| `StatusStore.Index` | kano_init/tasks/flow.py:67-193 | every stage has a position in the onboarding order USERNAME … UI_INIT |
| `StatusStore.Next` | kano_init/tasks/flow.py:67-193 | each stage's successor is the stage right after it in that order |
| `StatusStore.AdvanceFollowsOrder` | kano_init/tasks/flow.py:67-193 | completing stages one after another visits the order without skipping one, and from USERNAME reaches UI_INIT after seven |
| `StatusStore.Status.Load` | kano_init/tasks/flow.py:66 | a fresh process's status is the saved record, or USERNAME with no name when there is no file |
| `StatusStore.Status.Save` | kano_init/tasks/flow.py:69 | after `save()` the persisted record equals the in-memory stage and username |
| `Flow.PresetName` | kano_init/tasks/flow.py:43-46 | the headless start name is the `user` parameter when given, else "kano" |
| `Flow.StripSpaces` | kano_init/tasks/flow.py:201-202 | the cleaned name has no whitespace left, and a line without whitespace is unchanged |
| `Flow.StripSpacesConcat` | kano_init/tasks/flow.py:202 | whitespace deletion works piecewise over a concatenation |
| `Flow.SpaceDeleted` | kano_init/tasks/flow.py:201-202 | a single whitespace character is deleted; with the piecewise lemma this fixes the cleaned name of every line |
| `Flow.InnerSpaceDeleted` | kano_init/tasks/flow.py:202 | a space between two words is deleted, joining them ("Mary Ann" becomes "MaryAnn") |
| `Flow.Judge` | kano_init/tasks/flow.py:205-219 | the verdict is `Empty` exactly for the empty name; for a whitespace-free name it is `NotOneWord` exactly when it is not alphanumeric, `Taken` exactly when it is an alphanumeric account name, `TooLong` exactly when it is alphanumeric, new and longer than 25, and accepted exactly when it is non-empty, alphanumeric, new and at most 25 long |
| `Flow.MatchesWord` | kano_init/tasks/flow.py:207 | on a whitespace-free line the `^[a-zA-Z0-9]+$` match holds exactly for a non-empty run of letters and digits |
| `Flow.GetUsername` | kano_init/tasks/flow.py:199-219 | returns the cleaned form of the first accepted line, which is a valid new name; every earlier line was rejected and re-prompted; with no acceptable line the input ends unanswered |
| `Flow.LowerChar` | kano_init/tasks/flow.py:127 | lower-casing one character never yields a capital, and changes exactly the capitals |
| `Flow.ToLower` | kano_init/tasks/flow.py:127 | `lower()` keeps the length, turns each capital into its small letter, and keeps every character that is not a capital |
| `Flow.LowerCharIs` | kano_init/tasks/flow.py:127 | the characters that lower-case to a letter are that letter and its capital |
| `Flow.SecretAnyCase` | kano_init/tasks/flow.py:127-129 | a line passes the puzzle exactly when it spells "kano" in any mix of upper and lower case |
| `Flow.AwaitSecret` | kano_init/tasks/flow.py:123-129 | the loop stops at the first line that lower-cases to "kano" and at no other line |
| `Flow.DoUsernameStage` | kano_init/tasks/flow.py:37-69 | headless: the name is the preset or "kano" passed through the suffix search; interactive: the first valid typed name. The account state becomes `Created(…)` for that name. Only if creation succeeds are `stage = LIGHTUP` and the name recorded and saved; on any error the status is neither changed nor saved |
| `Flow.DoLightupStage` | kano_init/tasks/flow.py:71-90 | advances to SWITCH and saves, keeping the username; only an interactive run with no input line fails, leaving the status as it was |
| `Flow.DoSwitchStage` | kano_init/tasks/flow.py:92-104 | advances to LETTERS and saves whether or not the animation raised, keeping the username |
| `Flow.DoLettersStage` | kano_init/tasks/flow.py:106-135 | advances to WHITE_RABBIT and saves; an interactive run fails exactly when no line lower-cases to "kano" |
| `Flow.DoWhiteRabbitStage` | kano_init/tasks/flow.py:137-166 | interactively, the rabbithole directory exists while the subshell runs and is gone afterwards; advances to LOVE and saves |
| `Flow.DoLoveStage` | kano_init/tasks/flow.py:168-178 | advances to FINAL and saves, keeping the username |
| `Flow.DoFinalStage` | kano_init/tasks/flow.py:181-196 | advances to UI_INIT and saves; the status file already says UI_INIT when the lightdm start is issued |
| `User.KanoSearchPassesBase` | kano_init/user.py:186 | with only `kano` taken, the search does not stop at the base |
| `User.KanoSearchStopsAtOne` | kano_init/user.py:186-188 | with only `kano` taken, the search stops at the first suffix |
| `User.KanoResolvesToKano1` | kano_init/user.py:184-190 | with only `kano` taken, resolving "kano" yields "kano1" |
| `Flow.HeadlessFirstBoot` | kano_init/tasks/flow.py:41-69 | headless run with preset "kano" when "kano" is taken: afterwards both `kano` and `kano1` are accounts, the saved status is LIGHTUP with "kano1", and a restart resumes at LIGHTUP |

## Left out

- Terminal output and animations (`typewriter_echo`, `clear_screen`, `matrix`, `rabbit`, `binary`, `loading`, `write_flush`) have no state. Only the typed lines are modelled.
- The subshell and game launched through `os.system` hand the process over and return nothing that is used. The white-rabbit directory is modelled as created before the subshell and removed after it.
- Foreign collaborators with no code here are not modelled: `set_hostname`, `set_user_cookies`, `reconfigure_autostart_policy` and `set_ldm_autologin`.
- `kano_init/status.py` is not part of this model. `Status` follows its use in `flow.py`: `Load` reads a record, or starts at USERNAME when there is none. The file format and the atomic write are not modelled, and an unreadable file counts as no file.
- Shell command composition and quoting, `run_cmd`/`run_cmd_log` and logging are not modelled. Each command is a state change plus its exit status.
- `killall` in `delete_user` is not modelled: processes are not part of the state.
- The umask and shell options of useradd, the password hashing, and the per-user primary group that useradd creates are not modelled.
- `shutil.move` is a rename of one path in the directory set. Directory contents are not modelled.
- `kano_init/paths.py` holds only path constants.
- User.GetGroupMembers: requires the group to exist. The lookup raises `KeyError` otherwise, and its only caller checks first.
- User.DeletedAll: userdel's exit status is a set of names whose delete fails, not one status per call. A name listed twice in `kanousers`, whose second delete fails because the account is already gone, is not captured; deleting an absent account succeeds in the model.
- The `pwd`/`grp` databases are sequences of (name, uid) and (name, members) entries. They have no other fields.
