# Verified models of Cybex OS

This project models the state-carrying algorithms of Cybex OS in Dafny and proves what they promise over every crash,
interleaving and input. `dafny verify dfyconfig.toml` checks it.

| module | models | main results |
|---|---|---|
| `Deployment` | staging, applying, trial boot, confirmation, restoration, recovery and the boot selection of storage cleanup, with every effect failing or losing power before or after it happened | `Engine.Run`, `Engine.Apply`, `Engine.Recover`, `Engine.CleanUp`, `Engine.RecoverRepeatedly`, `Engine.FinishRepeatedly`, `UnconfirmedTrialFallsBack`, `AtRestHasRoom` |
| `DeploymentRuns` | whole runs of that engine from a fresh installation | `Update`, `RejectedStaysOut`, `HandBootMisleadsCleanUp`, `CrowdedMenuBootsCandidate` |
| `GrubEnvironment` | GRUB's environment block: parser, printer and the two programs that rewrite it | `PrintedParsesBack`, `ParsesIff`, `RewriteFits`, `BlockFile.UpdateTrial`, `BlockFile.ConfirmStart` |
| `GrubMenu` | identifiers for generations and GRUB's first-match rule | `SelectionBootsSystemIff`, `GrubEntryIs`, `LabellingKeepsBoots` |
| `GrubMenuText` | the reader of the menu's lines, with its stack of open braces | `ReadingIsMeaning`, `ReadsIffBalanced`, `TextSelectsSystem` |
| `KmsShadow` | buffer-age damage copying, which refines copying the whole frame | `RunPresentsShadow`, `OnlyDamageIsCopied` |
| `PasswordChange` | login password and disk keys, with a recovery journal | `PasswordStores.Change`, `PasswordStores.Session`, `PasswordStores.Recover`, `RecoveryFindsPairIff` |
| `StorageCleanup` | selection of recovery points and the restartable cleanup job | `Cleanup.CleanWithInterruptions`, `CandidatesAre`, `GenerationsAre` |
| `ConversationList` | list refreshes that overlap with deletes | `RowsAfterList`, `ConfirmedRowReappearsIff`, `SettledDeleteIsFinal`, `TombstoneLifetime` |
| `Transcript` | the projection of a transcript into prose rows and tool cards | `ResultIsShownIff`, `MessageIsRowIff`, `CallHasCard`, `OrphanIsKept`, `ProjectionIsNewest` |
| `LockGraph` | what an update of a lock file may change | `UnchangedIffEveryPath`, `AcceptedIffOnlyScopeChanges`, `ValidIff` |
| `WindowReducer`, `Tiling` | the desktop page's windows and their layout | `ReachableSwapTransposes`, `OnlySwapReorders`, `TilesAreApart` |
| `LineFraming`, `NixProgress` | bounded line readers and the totals of a build log | `ReadLines`, `ReadProgress`, `RunKeepsBytes` |
| `PackageReview` | the list of package changes between two systems | `ChangesRebuildNext`, `PathsOccurOnce` |
| `FileUndo` | undo of one assistant turn | `Snapshots.TurnAndUndo` |
| `ModelUsage` | routing of requests to accounts and their quotas | `RotationIsFair`, `RotationTakesNext`, `EventsAreNewest` |

Code that changes state step by step is modelled by classes whose methods are proved against specification functions
over values; the lemmas about those functions are the results. Commands, the file system and firmware are effects with
a free outcome: an effect happens or not, and is then reported as done, as failed, or cut short by power loss. Replacing
a file is one indivisible durable effect, and locks serialize whole operations. Progress is stated for engines that are
`undisturbed`: every command has its effect and the power stays on. What is not a matter of commands may still go wrong
and is a parameter: which health checks pass and what the user edits meanwhile (`Deployment`), and whether `passwd`
accepts the new password, rejects it or breaks off after setting it (`PasswordChange`).

What the proofs show about the code, beyond its own comments:

- With nothing pending, the boot default and the `deployed` configuration agree exactly if what last decided them left
  them so. A restoration does if its record was staged on a machine that ran the system of the deployed configuration,
  which staging does not check; a cleanup does if that system is running, because it selects what runs and leaves
  `deployed` alone (`Deployment.AtRestAllAgree`, `Deployment.Engine.Restore`, `Deployment.Engine.CleanUp`). Two runs from
  a fresh installation break the agreement, each with one boot of an older generation by hand
  (`DeploymentRuns.HandBootMisleadsRollBack`, `DeploymentRuns.HandBootMisleadsCleanUp`).
- The menu keeps ten generations (`nix/modules/default.nix:180`). An application that was staged at rest on the selected
  system cannot lose its default, unless a cleanup selected a system booted by hand (`Deployment.AtRestHasRoom`). One
  that was staged on an old generation booted by hand can: a power loss then boots the unconfirmed candidate
  (`DeploymentRuns.CrowdedMenuBootsCandidate`).
- A cleanup can finish only while the system that started it is among the ten newest generations that stay; otherwise its
  journal blocks staging and rollback for good (`StorageCleanup.Cleanup.ResumeRepeatedly`). No run of the
  deployment engine leads there (`Deployment.Engine.ResumeCleanup`).
- GRUB reaches the requested system exactly when no group on the way comes after a sibling group of the same name. Groups
  of the same name that hold the same systems suffice (`GrubMenu.SelectionBootsSystemIff`,
  `GrubMenu.DisagreeingGroupsMislead`).
- A disk slot below the new one that already holds the chosen password makes an interrupted change ask for manual
  recovery (`PasswordChange.RecoveryFindsPairIff`).
- Tombstones are dropped when a list arrives, not when a list request fails, although the comment promises to forget a
  delete once no older request is in flight. The model follows the code, and their exact lifetime is proved
  (`ConversationList.FailedListKeepsTombstone`, `ConversationList.TombstoneLifetime`).
- No list restores a deleted conversation, but a late response to its creation does
  (`ConversationList.ConfirmedRowReappearsIff`, `ConversationList.LateCreationRestoresRow`).
- Of several tool results with one identity and different outputs at most one is shown, and a sidecar can replace or hide it
  (`Transcript.ResultIsShownIff`, `Transcript.RepeatedResultIsLost`, `Transcript.EmptiedSidecarHidesResult`). A generated
  identity can hide a failure (`Transcript.ClashHidesFailure`).
- Undo of a turn overwrites a later change of a file's mode alone (`FileUndo.Snapshots.TurnAndUndo`).
- A swap of windows is a transposition in every reachable state, but not with a third tied order
  (`WindowReducer.ThirdTieMovesToo`).

## Model

| member | source | states |
|---|---|---|
| `Deployment.Engine.Run` | lifecycle/cybexos/engine.py:516-717 | Over every sequence of staging, applying, confirming, rolling back, recovering, cleaning up, edits and boots, each command ending normally, failing or losing power between any two effects, the invariant holds: an armed candidate always has the vouched previous system as its fallback, and a trial's default is its candidate only after both checks passed on a boot of it. With nothing pending, what boots by default is vouched for; it is the deployed generation exactly if the last restoration, confirmation or cleanup left it so, and it is that while every filed record is coherent and no cleanup selected another system booted by hand |
| `Deployment.InitialIsSafe` | lifecycle/cybexos/engine.py:516-531 | A fresh installation satisfies the invariant, so every run from it does |
| `Deployment.RebootKeepsInv` | lifecycle/cybexos/boot.py:404-426 | A boot, whichever menu entry is chosen by hand, consumes the one-shot entry and keeps the invariant |
| `Deployment.BootIs` | lifecycle/cybexos/boot.py:404-426 | A boot starts the entry chosen by hand, else the one-shot entry, else the persistent one, and the top entry for what the menu lacks; it consumes the one-shot entry and changes nothing else of the boot files |
| `Deployment.TrialFallsBack` | lifecycle/cybexos/engine.py:564-569 | An armed trial boots the candidate exactly once; the next boot is the previous system again |
| `Deployment.UnconfirmedTrialFallsBack` | lifecycle/cybexos/engine.py:564-569 | At every later point of an unconfirmed trial, whatever was booted meanwhile, the default is still the previous system, and the next undirected boot starts it |
| `Deployment.DefaultBootIsVouched` | lifecycle/cybexos/engine.py:550-553 | In every reachable state with nothing pending, or whose menu lists the default, what boots by default was installed first, was running when some deployment was staged, or passed both confirmation checks on its own boot. The default can be missing from the menu only while an activation, a restoration or a cleanup is in progress |
| `Deployment.MenuKeepsDefaultIff` | nix/modules/default.nix:180 | A menu installation keeps the persistent default listed exactly when its system is one of the last ten generations; otherwise the installing system boots instead; being among the last nine before is enough |
| `Deployment.NineNewestHaveRoom` | nix/modules/default.nix:180 | Room for a whole application, in terms of what can be checked before it: the selected and the previous system are among the nine newest generations |
| `Deployment.AtRestHasRoom` | lifecycle/cybexos/engine.py:516-562 | At rest a deployment staged on the selected system has that room in every reachable state, unless a cleanup selected a system booted by hand: its application can never lose the default |
| `Deployment.CandidateDefaultIsConfirmed` | lifecycle/cybexos/engine.py:674-694 | While a deployment is pending, a candidate that was neither installed first nor running at any staging is the persistent default only if both health checks passed on one boot of it |
| `Deployment.AtRestAllAgree` | lifecycle/cybexos/engine.py:585-635 | With nothing pending, the boot default and the deployed configuration name one generation exactly if what last decided them was a coherent restoration, a confirmation, or a cleanup on the deployed system; so they do while every filed record is coherent and no cleanup selected another system. It is also the running one while nobody booted another entry by hand |
| `Deployment.UndirectedBootDoesNotStray` | lifecycle/cybexos/engine.py:585-625 | At rest, and during a cleanup while nobody redirected a boot before, a boot that nobody redirects starts the selected system |
| `Deployment.SameGoalMeans` | lifecycle/cybexos/engine.py:585-625 | Two states lead to the same restored state exactly when the parts that a restoration keeps are equal |
| `Deployment.GoalIs` | lifecycle/cybexos/engine.py:594-612 | What a finished restoration leaves, part by part: the previous system is the last generation, leads a menu of exactly the ten newest, is the default and runs, with nothing armed. The configuration deployed at staging is deployed again, and selected unless the personal selection is preserved; the deployment is marked failed, and everything else is as before |
| `Deployment.Engine.Restore` | lifecycle/cybexos/engine.py:585-625 | A restoration that is cut short anywhere stays journaled and keeps its goal; one that finishes leaves exactly the goal: previous system running and default, nothing armed, configuration and `deployed` restored, failure marked, record gone. Default and deployed configuration then agree if and only if the record is coherent. If the menus of the restoration have room for the default, it stays listed throughout. Undisturbed it completes exactly if the previous system passes its health check, and else stays journaled as failed |
| `Deployment.Engine.CarryOutRestoration` | lifecycle/cybexos/engine.py:594-612 | After the journal was written the record disappears only with the goal reached, in every interruption |
| `Deployment.Engine.RestoreBoot` | lifecycle/cybexos/engine.py:595-602 | First disarm, then recreate the entry, then select the previous system; success leaves it default, listed, leading and nothing armed |
| `Deployment.Engine.Recover` | lifecycle/cybexos/engine.py:627-672 | Recovery resumes a journaled cleanup, restores every pending activation or restoration, waits on the boot a trial was armed in, restores a trial that did not boot, finishes one with a success marker, and at rest only reports what was interrupted. Another trial that booted keeps waiting for the user if its system is healthy, with nothing changed but the check on record, and is restored completely if it is not. Undisturbed each way is exact; which personal selection is kept is stated outright |
| `Deployment.Engine.RecoverRepeatedly` | lifecycle/cybexos/engine.py:585-672 | However often recoveries are cut short, and whatever is booted in between, the recovery that completes leaves the state of one uninterrupted restoration; with room in the menu the default stays listed throughout |
| `Deployment.Engine.FinishConfirmation` | lifecycle/cybexos/engine.py:696-704 | Replaying the finalization from any point changes nothing more: its final state is fixed from the success marker on |
| `Deployment.Engine.FinishRepeatedly` | lifecycle/cybexos/engine.py:661-666 | Any number of interrupted recoveries after the success marker, with default boots in between, ends in the state of the uninterrupted confirmation |
| `Deployment.Engine.Apply` | lifecycle/cybexos/engine.py:516-577 | Nothing changes unless the reviewed deployment is ready, unedited and based on the running system; menus change only behind the pinned previous system; success leaves exactly the state with the candidate armed once and the previous system as default. With room in the menu, and so at rest on the selected system, the default stays listed at every interruption. Undisturbed it succeeds exactly if both menus list the previous system, the candidate passes its checks and nobody edits meanwhile. Otherwise it is given up completely: the machine is restored to its goal, keeping the personal selection with its edits unless the candidate's was selected already; only an unhealthy previous system leaves the restoration pending |
| `Deployment.Engine.ArmableIff` | lifecycle/cybexos/engine.py:549-566 | What decides that: both menus list the previous system, both checks of the candidate pass on the present boot, and the configuration is still the reviewed one after any edit |
| `Deployment.Engine.ApplicableIff` | lifecycle/cybexos/engine.py:520-545 | When a deployment may be applied at all: ready, the reviewed one, and staged on the running system and the present configuration |
| `Deployment.Engine.Supervise` | lifecycle/cybexos/engine.py:546-577 | From the journal on, an application ends armed, given up completely, or pending |
| `Deployment.Engine.TryCandidate` | lifecycle/cybexos/engine.py:549-569 | Without a disturbance the candidate is tested and armed exactly if it can be; where it stopped otherwise is stated |
| `Deployment.Engine.TestCandidate` | lifecycle/cybexos/engine.py:550-561 | The previous system is pinned before anything else; success leaves the candidate running and selected. Undisturbed it succeeds exactly if the previous system is listed, both checks pass and the configuration is unedited |
| `Deployment.Engine.PrepareTrial` | lifecycle/cybexos/engine.py:562-569 | The trial is recorded only after its menu is installed and the candidate is armed; throughout, the default stays the previous system. Undisturbed it succeeds exactly if the new menu lists that one |
| `Deployment.Engine.GiveUp` | lifecycle/cybexos/engine.py:570-577 | A failed activation is never reported as success. The personal selection is preserved unless the candidate's was selected, and undisturbed the machine is restored exactly if the previous system passes its check |
| `Deployment.Engine.Confirm` | lifecycle/cybexos/engine.py:674-694 | The boot default changes only to a system that is running, was booted, on a later boot than the one that armed it, and has just passed both checks; success yields exactly the finished state. Undisturbed a booted trial is confirmed exactly if both checks pass, and else nothing changes but the record of checks |
| `Deployment.Engine.RollBack` | lifecycle/cybexos/engine.py:706-717 | An explicit rollback that succeeds reaches the restoration goal of the pending or the named deployment, with nothing armed and its own configuration selected, and makes default and deployed configuration agree exactly if that record is coherent. A journaled cleanup and a retired deployment refuse it without any change; undisturbed it succeeds otherwise, exactly if the previous system is healthy |
| `Deployment.Engine.Stage` | lifecycle/cybexos/engine.py:269-411 | Staging changes neither boot state nor the running system, waits for a pending deployment and a journaled cleanup, refuses a system that was rolled back until retry is authorized, and yields an agreeing record exactly when the machine runs the deployed system. Undisturbed it succeeds otherwise, in exactly the prepared state |
| `Deployment.Engine.CleanUp` | lifecycle/cybexos/maintenance.py:243-263 | A cleanup starts only at rest, on a booted system, for confirmed deployments that never failed, and spares what the running system and other deployments refer to; it is journaled before any other effect. Cut short it stays journaled towards the same state; finished it is there: planned generations gone, menu reinstalled, running system selected, candidates retired, `deployed` as before. So it leaves default and deployed configuration on one generation exactly if the deployed one is running. Undisturbed it completes exactly if the running system is healthy |
| `Deployment.Engine.MayCleanUpIff` | lifecycle/cybexos/maintenance.py:121-258 | When a cleanup may start, condition by condition |
| `Deployment.SweptIs` | lifecycle/cybexos/maintenance.py:278-324 | What a finished cleanup leaves, part by part |
| `Deployment.Engine.ResumeCleanup` | lifecycle/cybexos/maintenance.py:265-321 | Every attempt keeps the state that the cleanup leads to, and does nothing under another system. It finishes, undisturbed, exactly from the system that started it, unless it is to delete the profile's own generation; a menu without the running system never stops it |
| `Deployment.Engine.DropGenerations` | lifecycle/cybexos/maintenance.py:278-283 | Exactly the generations of planned systems go, one at a time, and the others keep their order; the system to be selected stays among the newest |
| `Deployment.Engine.SelectCurrent` | lifecycle/cybexos/maintenance.py:286-287 | The menu is reinstalled from the remaining generations before the running system becomes the default in it |
| `Deployment.Engine.RetireCandidates` | lifecycle/cybexos/maintenance.py:301-324 | The journal goes only after every candidate was retired |
| `Deployment.SweptSelects` | lifecycle/cybexos/maintenance.py:286-287 | A finished cleanup has selected the system that started it, listed, and left the deployed configuration |
| `Deployment.KeptWithout` | lifecycle/cybexos/maintenance.py:278-283 | Dropping one planned generation does not change which generations are left at the end |
| `Deployment.NewestWithout` | lifecycle/cybexos/maintenance.py:278-287 | Dropping a generation keeps every other system among the newest that was there |
| `DeploymentRuns.Update` | lifecycle/cybexos/engine.py:269-704 | An undisturbed update from rest, whose system passes its checks and that nobody edits meanwhile, always ends confirmed: staged, applied, booted, looked at by the recovery of that boot, and confirmed, its system is running, selected and deployed, and everything else is as before |
| `DeploymentRuns.BootAndRecover` | lifecycle/cybexos/engine.py:656-672 | The recovery of its first boot leaves a healthy trial waiting for the user, armed for nothing and otherwise unchanged |
| `DeploymentRuns.RejectedStaysOut` | lifecycle/cybexos/engine.py:363-404 | A system that was rolled back is refused at the next staging, accepted once after a retry was authorized, and that permission is used up |
| `DeploymentRuns.HandBootMisleadsRollBack` | lifecycle/cybexos/engine.py:372-380 | A run from a fresh installation in which the agreement breaks: update, boot the older generation by hand, stage there and roll that back. The older generation is then the default, with the newer configuration deployed |
| `DeploymentRuns.HandBootMisleadsCleanUp` | lifecycle/cybexos/maintenance.py:286-287 | Another one, with every record coherent: seven updates, a boot of the previous generation by hand, and a cleanup of the two oldest deployments, which selects what runs |
| `DeploymentRuns.CrowdedMenuBootsCandidate` | lifecycle/cybexos/engine.py:550-562 | A run in which an application loses its default: nine updates, a boot of the oldest generation by hand, an eleventh system staged and applied there up to its menu. A power loss then boots the unconfirmed candidate, although the previous system was pinned |
| `Deployment.Engine.Build` | lifecycle/cybexos/engine.py:363-405 | A staged record names the running system, the edited content and the deployed configuration of that moment, and only for a system that is not quarantined |
| `Deployment.Engine.SpendAuthorizations` | lifecycle/cybexos/engine.py:402-404 | Staging uses up exactly the permissions to retry its system, one by one |
| `Deployment.Engine.AuthorizeRetry` | lifecycle/cybexos/cli.py:360-374 | Authorizing a retry lifts the quarantine of the system for all its failed deployments, adds no other permission, and refuses a deployment that did not fail; undisturbed it succeeds otherwise |
| `Deployment.Engine.Activate` | lifecycle/cybexos/engine.py:549-577 | The supervised part ends with the candidate armed or is given up: undisturbed, every failure of a check, an edit or a missing entry leads to the restored machine, or to a pending restoration if the previous system is unhealthy too |
| `Deployment.Engine.RecoverTrial` | lifecycle/cybexos/engine.py:656-672 | A trial is left alone on its own boot, restored if it did not boot, finished if it has its success marker; otherwise the outcome of its health check decides: it keeps waiting, unchanged, or is restored |
| `Deployment.Engine.CommitTrial` | lifecycle/cybexos/engine.py:686 | Committing needs passed checks and a listed entry, and changes the default only |
| `Deployment.Engine.CompleteRestoration` | lifecycle/cybexos/engine.py:607-612 | The failure mark and the `deployed` link precede the removal of the record, which is last |
| `Deployment.Engine.SelectDefault` | lifecycle/cybexos/boot.py:410-418 | Restoring selects a listed system or changes nothing but the one-shot entry; both loaders |
| `Deployment.Engine.ArmTrial` | lifecycle/cybexos/boot.py:419-426 | Both entries are resolved first; every intermediate state has the previous system as default before the candidate is armed; both loaders |
| `Deployment.Engine.Profile` | lifecycle/cybexos/engine.py:512-514 | Setting the profile and installing its menu, one effect after the other |
| `GrubEnvironment.PrintedParsesBack` | lifecycle/cybexos/boot.py:363-370 | A printed block has exactly the requested size, and it parses back to the same variables, values and comments if and only if the environment is well formed |
| `GrubEnvironment.ParsedIsWellFormed` | lifecycle/cybexos/boot.py:327-356 | Whatever parses is well formed, so everything that was read can be printed and read again |
| `GrubEnvironment.ParsesIff` | lifecycle/cybexos/boot.py:327-356 | A block parses exactly if it is the signature, pieces that are each a comment or a variable in some way of writing, and padding, and then to the environment that these add up to, escapes and repeated variables included |
| `GrubEnvironment.ParseEnvironment` | lifecycle/cybexos/boot.py:327-356 | The position loop computes the recursive specification, also for escapes, comments, padding and every malformed block |
| `GrubEnvironment.ReadHead` | lifecycle/cybexos/boot.py:337-346 | One step of the loop finds the comment, the separator or the malformation that the specification finds |
| `GrubEnvironment.ParseValue` | lifecycle/cybexos/boot.py:346-353 | The value loop reads through escapes to the newline, or to the end of the block |
| `GrubEnvironment.RewriteFits` | lifecycle/cybexos/boot.py:359-370 | Rewriting any block that parsed, with its comments and the same or fewer variables, always fits its old size |
| `GrubEnvironment.FewerLinesFit` | lifecycle/cybexos/boot.py:363-370 | Dropping variables never needs more bytes |
| `GrubEnvironment.PutIs` | lifecycle/cybexos/boot.py:354 | Assigning a variable replaces its value in place or appends it, and keeps names distinct |
| `GrubEnvironment.WithoutIs` | lifecycle/cybexos/boot.py:411 | Removing a variable keeps all others in order |
| `GrubEnvironment.BlockFile.UpdateTrial` | lifecycle/cybexos/boot.py:404-426 | A boot selection is written exactly when the block can be read, the entries are found and the changed block fits; otherwise the file is untouched. Afterwards both selections are what the action says, and every other variable, all comments and the size are as before |
| `GrubEnvironment.BlockFile.ConfirmStart` | lifecycle/cybexos/boot.py:463-478 | Clearing the pending mark fails only for a block that does not parse, never for a full one, and changes nothing else |
| `GrubMenu.SelectionBootsSystemIff` | lifecycle/cybexos/boot.py:300-324 | GRUB, taking the first match at every level, follows the path found for a listed system to an entry that boots exactly that system, if and only if no group on the way comes after a sibling group of the same name |
| `GrubMenu.SelectionBootsSystem` | lifecycle/cybexos/boot.py:212-248 | Where groups of the same name hold the same systems, every selection leads to its system |
| `GrubMenu.DisagreeingGroupsMislead` | lifecycle/cybexos/boot.py:236-243 | The condition is needed: a menu in which the path found does not boot the requested system |
| `GrubMenu.SelectionExistsIffListed` | lifecycle/cybexos/boot.py:300-324 | After labelling a selection exists for exactly the systems under the generations submenu |
| `GrubMenu.GrubEntryIs` | lifecycle/cybexos/boot.py:300-324 | In any menu with one group of generations, labelled or not, the search takes the first entry that boots the system: it is refused if there is none or if that one has another identifier, and else gives the path to it |
| `GrubMenu.NoGenerationsNoEntry` | lifecycle/cybexos/boot.py:300-307 | Without exactly one such group nothing is selected |
| `GrubMenu.SearchStopsAtFirst` | lifecycle/cybexos/boot.py:308-319 | The same of the search inside any list of nodes |
| `GrubMenu.SearchFindsListed` | lifecycle/cybexos/boot.py:308-319 | The search of labelled nodes never meets an unsafe identity and succeeds exactly for listed systems |
| `GrubMenu.FoundPathBootsIff` | lifecycle/cybexos/boot.py:308-324 | The same equivalence at every depth of nested groups |
| `GrubMenu.AgreeingGroupsAreUnshadowed` | lifecycle/cybexos/boot.py:215-219 | Agreement of equally named groups is sufficient |
| `GrubMenu.RedirectionBootsSystem` | lifecycle/cybexos/boot.py:257-262 | Highlighting the single top-level entry instead of its submenu boots the same system |
| `GrubMenu.CurrentBootsTopSystem` | lifecycle/cybexos/boot.py:257-262 | The highlighted entry is reached and boots the top-level system |
| `GrubMenu.LabellingKeepsBoots` | lifecycle/cybexos/boot.py:268-297 | Labelling leaves the shape of the menu and what every entry boots unchanged |
| `GrubMenu.LabelledIff` | lifecycle/cybexos/boot.py:231-245 | A menu is labelled exactly if one submenu of the top level has one of the known titles and something inside it boots |
| `GrubMenu.RedirectedIff` | lifecycle/cybexos/boot.py:257-262 | The selection is redirected exactly if the top level has one bootable entry and that is the one selected without a specialisation |
| `GrubMenu.LabelKeepsShape` | lifecycle/cybexos/boot.py:237-243 | The same for the nodes inside the generations submenu, whose systems stay in order |
| `GrubMenu.LabellingIsIdempotent` | lifecycle/cybexos/boot.py:228-236 | Labelling a labelled menu again changes nothing |
| `GrubMenuText.ReadingIsMeaning` | lifecycle/cybexos/boot.py:112-139 | From any well-nested text the reader computes its menu: nodes in opening order, what stands inside blocks or entries belonging to the menu around it, each entry booting the system of its own single linux command |
| `GrubMenuText.ReadsIffBalanced` | lifecycle/cybexos/boot.py:126-135 | The reader accepts exactly the texts whose braces balance |
| `GrubMenuText.BalancedHasSyntax` | lifecycle/cybexos/boot.py:112-139 | Every accepted text is well nested, so the two results above cover all texts |
| `GrubMenuText.Read` | lifecycle/cybexos/boot.py:112-139 | The loop over lines with its stack of open braces is the specified reader |
| `GrubMenuText.EntryBoots` | lifecycle/cybexos/boot.py:132-138 | An entry boots a system exactly if it has one linux command, and that names the system |
| `GrubMenuText.LabelledTextIsLabelledMenu` | lifecycle/cybexos/boot.py:236-243 | Reading the relabelled lines of the generations yields the labelled nodes |
| `GrubMenuText.RootTextIsRootMenu` | lifecycle/cybexos/boot.py:236-297 | Relabelling the lines of the whole text relabels the top-level nodes, also those inside blocks |
| `GrubMenuText.StrippedTextIsStrippedMenu` | lifecycle/cybexos/boot.py:271-291 | Outside the generations the relabelled lines read as nodes without identifiers |
| `GrubMenuText.LabelledTextReads` | lifecycle/cybexos/boot.py:212-297 | Reading the labelled text with its closing entries yields exactly the labelled menu |
| `GrubMenuText.TextSelectsSystem` | lifecycle/cybexos/boot.py:212-324 | From generated text to boot: in the labelled text a selection is found for exactly the systems of the generations, and GRUB follows it to its system exactly if no group on the way is shadowed |
| `GrubMenuText.LabellingKeepsLines` | lifecycle/cybexos/boot.py:268-297 | Labelling replaces only identifiers of opening lines; every other line stays |
| `KmsShadow.RunPresentsShadow` | installer/kiosk/kms-shadow.rs:36-98 | For any number of scanout buffers with arbitrary initial bytes, presented in any order with a true age or age 0, every buffer shows exactly the frame last presented in it, also when ages reach across layout changes and resets |
| `KmsShadow.RunKeepsConsistent` | installer/kiosk/kms-shadow.rs:36-98 | The invariant between history, frames and buffers holds in every run |
| `KmsShadow.ApplyKeepsConsistent` | installer/kiosk/kms-shadow.rs:30-98 | One presentation or reset keeps it |
| `KmsShadow.PartialCopyShows` | installer/kiosk/kms-shadow.rs:68-92 | A partial copy of current and remembered damage brings a buffer of true age fully up to date |
| `KmsShadow.PartialIff` | installer/kiosk/kms-shadow.rs:60-67 | A copy is partial exactly if the layout is that of the frame before and the remembered frames reach back to what the buffer shows; unknown and too great ages get the whole frame |
| `KmsShadow.OnlyDamageIsCopied` | installer/kiosk/kms-shadow.rs:68-90 | Then nothing is written but what the damage of this frame or of a frame the buffer missed touches |
| `KmsShadow.TouchesIff` | installer/kiosk/kms-shadow.rs:77-88 | A rectangle touches exactly the bytes of the pixels of the screen that lie in it |
| `KmsShadow.SpanBytesAre` | installer/kiosk/kms-shadow.rs:84-90 | The bytes counted for a rectangle are as many as it touches |
| `KmsShadow.UntouchedStepKeepsByte` | installer/kiosk/kms-shadow.rs:49-59 | A visible byte outside the recorded damage of a frame is what it was in the frame before |
| `KmsShadow.PartialCopyKeepsPadding` | installer/kiosk/kms-shadow.rs:73-90 | A partial copy never writes row padding |
| `KmsShadow.DamageIsVisible` | installer/kiosk/kms-shadow.rs:77-85 | Clipped rectangles, wherever their origin, touch visible bytes only |
| `KmsShadow.FullRectCoversScreen` | installer/kiosk/kms-shadow.rs:52-58 | The rectangle recorded on a layout change covers every visible byte |
| `KmsShadow.DamageHistory.CopyToScanout` | installer/kiosk/kms-shadow.rs:36-98 | The new buffer is the specified copy, the new history the specified rotation, and the answer the number of bytes written |
| `KmsShadow.DamageHistory.CopyRects` | installer/kiosk/kms-shadow.rs:72-91 | The loop over rectangles copies exactly the damaged bytes |
| `KmsShadow.DamageHistory.CopyRect` | installer/kiosk/kms-shadow.rs:77-90 | The loop over rows copies exactly the bytes of one clipped rectangle |
| `KmsShadow.DamageHistory.CopyRow` | installer/kiosk/kms-shadow.rs:84-88 | One span copy writes exactly its columns of its row, with the stride arithmetic in bounds |
| `KmsShadow.DamageHistory.Reset` | installer/kiosk/kms-shadow.rs:31-33 | Reset forgets layout and damage |
| `PasswordChange.PasswordStores.Change` | lifecycle/cybexos/password.py:118-185 | Success means that the old login password was right and the new one is set, with one disk key replaced by it and no journal left; every refusal has its cause and says what is true of the stores. With commands that work, a change goes through to `passwd` exactly if the policy, owner, record and current password are right and, if encrypted, the journal is absent or an own one whose pair can be found, and a slot is free where one is needed; then its answer is that of `passwd`, also one that ends broken after the password was set |
| `PasswordChange.PasswordStores.ChangeVerified` | lifecycle/cybexos/password.py:127-185 | Each outcome states slots, journal and login password; undisturbed, the outcome is that of `passwd` exactly if the disk allows the change |
| `PasswordChange.PasswordStores.Session` | lifecycle/cybexos/password.py:118-185 | The same over any number of attempts by any users, each cut short anywhere |
| `PasswordChange.PasswordStores.Recover` | lifecycle/cybexos/password.py:100-115 | A recovery that ends normally leaves one slot of the pair, the lowest that opens, and no journal; a journal of another user or disk is refused untouched. Undisturbed it succeeds exactly if there is none, or an own one whose pair it can find |
| `PasswordChange.RecoveryFindsPairIff` | lifecycle/cybexos/password.py:106-113 | Recovery finds its pair before the login password changed, and afterwards exactly when no slot below the new one already holds the new password |
| `PasswordChange.LowerCopyBlocksRecovery` | lifecycle/cybexos/password.py:111-112 | The excluded case is real: a lower slot with the chosen password blocks recovery |
| `PasswordChange.LowestSlot` | lifecycle/cybexos/password.py:76-85 | The slot found is the lowest that opens |
| `PasswordChange.PasswordStores.MatchingSlot` | lifecycle/cybexos/password.py:76-85 | The loop over the slots finds the lowest match, where tests of a passphrase are reliable, and there reports none only if there is none; otherwise some slot that opens |
| `PasswordChange.PasswordStores.AddSecondKey` | lifecycle/cybexos/password.py:134-142 | The pair is journaled before the key is added to a free slot; undisturbed it succeeds exactly if one is free |
| `PasswordChange.PasswordStores.SwitchPassword` | lifecycle/cybexos/password.py:143-185 | The login password changes with the other key still there, and exactly one key of the pair remains, the one that opens with it; undisturbed the answer is the one of `passwd` |
| `PasswordChange.PlainIsPrintable` | lifecycle/cybexos/password.py:119-121 | Which texts in ASCII may be typed in: at most 4096 characters, no line breaks and zeros |
| `PasswordChange.Utf8SizeIsBounded` | lifecycle/cybexos/password.py:120 | The limit counts between one and four bytes a character |
| `PasswordChange.PasswordStores.SwitchKeys` | lifecycle/cybexos/password.py:134-185 | The two together replace one key or leave the slots as they were |
| `PasswordChange.RemovalKeepsJournal` | lifecycle/cybexos/password.py:94-97 | Removing one slot of the pair while the other opens keeps the disk usable and the journal resolvable |
| `PasswordChange.AdditionKeepsJournal` | lifecycle/cybexos/password.py:88-91 | So does adding the new key beside the old one |
| `PasswordChange.KeptTransitively` | lifecycle/cybexos/password.py:140-142 | Keeping foreign slots composes over attempts |
| `StorageCleanup.Cleanup.CleanWithInterruptions` | lifecycle/cybexos/maintenance.py:225-321 | A cleanup, cut short and resumed any number of times with any boots in between, loses no reference, generation or store path that a retained deployment needs, and ends either untouched or where an uninterrupted run ends |
| `StorageCleanup.Cleanup.ResumeRepeatedly` | lifecycle/cybexos/maintenance.py:265-321 | Once the journal is gone, roots, generations and retired marks equal those of an uninterrupted run and the system that started it is selected; until then only planned deletions happened and that system stays in the boot menu. If the first phase cannot end, the journal stays whatever is tried |
| `StorageCleanup.Cleanup.Resume` | lifecycle/cybexos/maintenance.py:265-321 | Every attempt only advances the job, refuses under another system without changing anything, and removes the journal only at the goal. Undisturbed it finishes exactly if nothing that is left of the plan was changed and, before the menu is reinstalled, the current system is among the ten newest generations that stay |
| `StorageCleanup.Cleanup.Clean` | lifecycle/cybexos/maintenance.py:243-263 | A cleanup starts only on a confirmed boot without another journal, with the plan that was reviewed; a review of other records, pins, policy, selection or systems changes nothing. Undisturbed an accepted one completes if it can finish, with the running system selected |
| `StorageCleanup.Cleanup.DeleteGenerations` | lifecycle/cybexos/maintenance.py:278-289 | Only planned generations with their planned targets are deleted, and the menu is reinstalled from what is left before the next phase; the phase ends exactly if it can |
| `StorageCleanup.Cleanup.ReinstallMenu` | lifecycle/cybexos/maintenance.py:286-289 | The new menu lists exactly the ten newest retained generations, and the installing system; the phase advances only with the current system among them and selected. If it is not among them, the step always fails with the phase unchanged |
| `StorageCleanup.ListedIs` | nix/modules/default.nix:180 | A system is listed exactly if fewer than ten generations follow one of its own |
| `StorageCleanup.SmallMenuListsAll` | nix/modules/default.nix:180 | Up to ten generations are all listed, and the newest always is |
| `StorageCleanup.Cleanup.ReleaseRoots` | lifecycle/cybexos/maintenance.py:290-304 | Only planned references with their planned targets are removed |
| `StorageCleanup.Cleanup.Retire` | lifecycle/cybexos/maintenance.py:301-304 | Every candidate is marked before garbage collection is journaled |
| `StorageCleanup.Cleanup.Collect` | lifecycle/cybexos/maintenance.py:305-324 | Collection, complete or not, keeps whatever an anchor reaches; only then the journal goes |
| `StorageCleanup.RetainedSurvives` | lifecycle/cybexos/maintenance.py:158-207 | At every point of a cleanup the references of a retained deployment, the generations of its systems and of the running one, and everything reachable from them are in place |
| `StorageCleanup.CandidatesAreOld` | lifecycle/cybexos/maintenance.py:144-174 | A candidate has as many distinct newer confirmed deployments, none of them a candidate, as the policy keeps; it is past the cutoff, not pinned, failed, selected, active, running or the fallback of what runs |
| `StorageCleanup.CandidatesAre` | lifecycle/cybexos/maintenance.py:151-181 | Exactly which deployments are candidates: some confirmed deployment of the running system is retained; the record is confirmed, not failed and not retired; at least as many confirmed ones as the policy keeps are newer; and it is past the cutoff, not pinned, not selected, and refers to neither the running nor, with its own system, the booted one |
| `StorageCleanup.GenerationsAre` | lifecycle/cybexos/maintenance.py:160-188 | Exactly which generations are planned: those of systems that a candidate names, except the running and the booted one, the fallback of the active deployment, and whatever a deployment that stays refers to |
| `StorageCleanup.ActiveIs` | lifecycle/cybexos/maintenance.py:151-153 | The active deployment is the newest confirmed one of the running system |
| `StorageCleanup.KeptByCountIff` | lifecycle/cybexos/maintenance.py:151-157 | A confirmed deployment is kept by count exactly if fewer than that many are newer |
| `StorageCleanup.PlanSparesKept` | lifecycle/cybexos/maintenance.py:158-192 | No reference of a retained deployment and no generation of a system that one needs is in the plan |
| `StorageCleanup.PlanSparesRunning` | lifecycle/cybexos/maintenance.py:154-192 | The running system is never planned for deletion |
| `StorageCleanup.Snapshot` | lifecycle/cybexos/maintenance.py:121-207 | The loop over the records computes the plan: candidates, their references, and the generations only they need |
| `StorageCleanup.ReviewedIsCarriedOut` | lifecycle/cybexos/maintenance.py:197-207 | Equal review material means the reviewed plan is exactly the plan carried out |
| `StorageCleanup.ConfirmedIs` | lifecycle/cybexos/maintenance.py:144-145 | The confirmed list is the confirmed records, newest first |
| `StorageCleanup.ConfirmedIsDistinct` | lifecycle/cybexos/maintenance.py:144-145 | The confirmed list holds no deployment twice |
| `StorageCleanup.ReducedKeepsGoal` | lifecycle/cybexos/maintenance.py:278-304 | Progress does not move the goal of a job |
| `StorageCleanup.DoneIsGoal` | lifecycle/cybexos/maintenance.py:305-316 | When the collection phase is reached, the goal is |
| `StorageCleanup.StartKeepsInv` | lifecycle/cybexos/maintenance.py:257-259 | A journaled plan spares what its own resumption needs |
| `StorageCleanup.ClosedKeepsReached` | lifecycle/cybexos/maintenance.py:305-312 | A collector that keeps a closed set around the anchors keeps everything reachable from them |
| `ConversationList.RunNeverRestores` | desktop/hermes-menubar-bridge/hermes_bridge.py:1250-1290 | Under every interleaving of requests, responses in any order, failures and deletes, a row removed by a confirmed delete is absent until a late response to its creation arrives |
| `ConversationList.ConfirmedRowReappearsIff` | desktop/hermes-menubar-bridge/hermes_bridge.py:1127-1137 | From the confirmation on, a missing row comes back in one step exactly if that is the arrival of the response to the request that created or branched the conversation; no list does it |
| `ConversationList.SettledDeleteIsFinal` | desktop/hermes-menubar-bridge/hermes_bridge.py:1250-1290 | If no such response is in flight when the row is removed, it never comes back |
| `ConversationList.LateCreationRestoresRow` | desktop/hermes-menubar-bridge/hermes_bridge.py:3397-3405 | The failing input: a delete is confirmed and finished before the response to the creation arrives, and the row is back |
| `ConversationList.RunKeepsInv` | desktop/hermes-menubar-bridge/hermes_bridge.py:2266-2337 | In every run each response in flight that still lists a deleted row meets a tombstone |
| `ConversationList.StepKeepsInv` | desktop/hermes-menubar-bridge/hermes_bridge.py:2271-2333 | Every event keeps that invariant |
| `ConversationList.PruningKeepsStaleRowsBlocked` | desktop/hermes-menubar-bridge/hermes_bridge.py:2292-2297 | Dropping tombstones leaves every response in flight covered |
| `ConversationList.ArrivalRestoresNothing` | desktop/hermes-menubar-bridge/hermes_bridge.py:2287-2327 | A response installs no row whose delete was confirmed after it was requested |
| `ConversationList.TombstonesAreMinimal` | desktop/hermes-menubar-bridge/hermes_bridge.py:2292-2297 | A tombstone outlives one arriving response exactly while a request no newer than it is in flight |
| `ConversationList.TombstoneLifetime` | desktop/hermes-menubar-bridge/hermes_bridge.py:2278-2297 | Over any run, the tombstone of the last confirmation is there exactly if every list that arrived since left a request from before the confirmation in flight; failed requests never drop it |
| `ConversationList.FailedListKeepsTombstone` | desktop/hermes-menubar-bridge/hermes_bridge.py:2278-2297 | The failing input: a delete confirmed while a request is in flight that then fails, or while none is, keeps its tombstone with nothing in flight |
| `ConversationList.AcceptedIds` | desktop/hermes-menubar-bridge/hermes_bridge.py:2299-2313 | The accepted rows are exactly the valid, unblocked ones |
| `ConversationList.Bridge.RefreshArrived` | desktop/hermes-menubar-bridge/hermes_bridge.py:2278-2333 | After a list arrived, the rows are exactly those that a valid row of it names and no delete blocks, and the selected one while its turn runs; the selection stays exactly if its row does |
| `ConversationList.RowsAfterList` | desktop/hermes-menubar-bridge/hermes_bridge.py:2284-2330 | A listed row has the status and stream of its last row in the list and keeps its earlier `unread`; the selected running one that is not listed stays as it was, with the selection |
| `ConversationList.LastRowCounts` | desktop/hermes-menubar-bridge/hermes_bridge.py:2300-2313 | Of several rows with one identity the last one counts |
| `ConversationList.Bridge.OldestRequest` | desktop/hermes-menubar-bridge/hermes_bridge.py:2292 | The least request in flight, or the next generation |
| `ConversationList.Bridge.BeginRefresh` | desktop/hermes-menubar-bridge/hermes_bridge.py:2271-2273 | A request gets a fresh generation |
| `ConversationList.Bridge.RefreshFailed` | desktop/hermes-menubar-bridge/hermes_bridge.py:2278-2282 | A failed request leaves rows and tombstones alone |
| `ConversationList.Bridge.DeleteConfirmed` | desktop/hermes-menubar-bridge/hermes_bridge.py:1262 | The tombstone carries the current generation |
| `ConversationList.Bridge.FinishDelete` | desktop/hermes-menubar-bridge/hermes_bridge.py:1278-1280 | The row and its selection go |
| `Transcript.ProjectTranscript` | desktop/hermes-menubar-bridge/hermes_bridge.py:2577-2855 | The passes over messages, sidecars, orphans and unmatched results compute the projection |
| `Transcript.AllToolsAre` | desktop/hermes-menubar-bridge/hermes_bridge.py:2822-2847 | Before any limit there is exactly one card for each identity that any pass produced |
| `Transcript.ResultIsKept` | desktop/hermes-menubar-bridge/hermes_bridge.py:2591-2610 | The last result of an identity is indexed and has a card, whatever follows. A failure shows there exactly if no successful result without an identity happens to get that identity |
| `Transcript.ClashHidesFailure` | desktop/hermes-menubar-bridge/hermes_bridge.py:2800-2820 | The failing input for failures: a successful result without an identity gets the identity of a failed one, whose failure then does not show |
| `Transcript.ResultIsShownIff` | desktop/hermes-menubar-bridge/hermes_bridge.py:2591-2843 | A noted result is shown exactly if its output is the last non-empty one that sidecars and orphans bring for its identity, or, without one, if it is that of the last result and a message carries the call or nothing else has the identity |
| `Transcript.ShownOutputIsFinal` | desktop/hermes-menubar-bridge/hermes_bridge.py:2639-2652 | The merged card of a result's identity shows that output |
| `Transcript.EarlierResultIsLost` | desktop/hermes-menubar-bridge/hermes_bridge.py:2607-2608 | Of two results with one identity and different outputs at most one is shown: results are not all kept |
| `Transcript.RepeatedResultIsLost` | desktop/hermes-menubar-bridge/hermes_bridge.py:2607-2608 | The failing input: the first of two results of one call is shown nowhere |
| `Transcript.EmptiedSidecarHidesResult` | desktop/hermes-menubar-bridge/hermes_bridge.py:2756-2798 | The failing input for sidecars: one whose own output became empty hides the only result of its call |
| `Transcript.OrphanIsKept` | desktop/hermes-menubar-bridge/hermes_bridge.py:2800-2820 | Every result without an identity has its own card with its output, failure and place, whatever other identities exist |
| `Transcript.OrphanIdsDiffer` | desktop/hermes-menubar-bridge/hermes_bridge.py:2803 | The identities generated for such results are distinct |
| `Transcript.MergedTextIsLast` | desktop/hermes-menubar-bridge/hermes_bridge.py:2639-2652 | A merged card shows the last non-empty text of every field |
| `Transcript.MergedPlaceIsLast` | desktop/hermes-menubar-bridge/hermes_bridge.py:2648-2652 | It has the status and place of the last card merged |
| `Transcript.LastResultCounts` | desktop/hermes-menubar-bridge/hermes_bridge.py:2607-2608 | Of several results with one identity the last is indexed |
| `Transcript.ResultIsNoted` | desktop/hermes-menubar-bridge/hermes_bridge.py:2591-2633 | Every result is noted with its identity, name, output and failure, behind the calls of its message |
| `Transcript.CallHasCard` | desktop/hermes-menubar-bridge/hermes_bridge.py:2690-2722 | Every call has a card with its identity or the generated one, its name, title and input, the output of its result, its own or its result's failure, and its place |
| `Transcript.SidecarHasCard` | desktop/hermes-menubar-bridge/hermes_bridge.py:2756-2798 | So has every sidecar, with its own output or else its result's |
| `Transcript.UnansweredHasCard` | desktop/hermes-menubar-bridge/hermes_bridge.py:2822-2843 | A result that nothing answers has a card of its own |
| `Transcript.SoleCardIsShown` | desktop/hermes-menubar-bridge/hermes_bridge.py:2639-2652 | A card that is the only one of its identity is shown as it is |
| `Transcript.ProjectionIsNewest` | desktop/hermes-menubar-bridge/hermes_bridge.py:2845-2855 | At most 250 rows and 250 cards, in order; what is dropped is older than everything kept, and a card goes only below the oldest kept row or beyond the limit |
| `Transcript.RowsAre` | desktop/hermes-menubar-bridge/hermes_bridge.py:2654-2754 | Rows are produced in strictly ascending order, so sorting moves none |
| `Transcript.ShownIsRow` | desktop/hermes-menubar-bridge/hermes_bridge.py:2724-2754 | Every message with prose, a state or an error is a row |
| `Transcript.MessageIsRowIff` | desktop/hermes-menubar-bridge/hermes_bridge.py:2654-2754 | A message is a row exactly if it is of a user, the assistant or the system and has prose, a state or an error; the row has its role, prose, states and error, cut to 500 characters, and its identity or the generated one |
| `Transcript.CollectResults` | desktop/hermes-menubar-bridge/hermes_bridge.py:2612-2633 | The first pass indexes the results of all messages and their parts |
| `Transcript.CardTable.UpsertTool` | desktop/hermes-menubar-bridge/hermes_bridge.py:2639-2652 | Merging field by field is the specified merge |
| `Transcript.CardTable.AddCarriers` | desktop/hermes-menubar-bridge/hermes_bridge.py:2654-2754 | The pass over messages adds the cards of their calls and collects the rows |
| `Transcript.CardTable.AddSidecars` | desktop/hermes-menubar-bridge/hermes_bridge.py:2756-2798 | The pass over sidecars adds their cards; entries that are not objects are skipped but counted |
| `Transcript.CardTable.AddUnmatched` | desktop/hermes-menubar-bridge/hermes_bridge.py:2822-2843 | The last pass adds a card exactly for results that no earlier card answers |
| `Tiling.TilesAreDisjoint` | web/lib/tiling.ts:25-58 | On a viewport at least 760 wide, the places of any number of tiles have pairwise disjoint interiors |
| `Tiling.TilesAreApart` | web/lib/tiling.ts:15-58 | While every split region is at least one gap long, all tiles lie in the area, at least 10 px apart |
| `Tiling.LayoutIsSound` | web/lib/tiling.ts:25-64 | Every tile and every maximized window has exactly one rectangle, and tiles that are not maximized never overlap |
| `Tiling.AreaIs` | web/lib/tiling.ts:26 | The area leaves 10 at the sides, 46 above and 48 below |
| `Tiling.FirstTileIsLeft` | web/lib/tiling.ts:53-58 | The first of several tiles has the left share of the area, between 30 and 70 percent, and the others divide the rest beside it |
| `Tiling.PlacesAre` | web/lib/tiling.ts:30-39 | The first half of a group, with the odd one, fills the first part of its region and the others the second |
| `Tiling.SingleIs` | web/lib/tiling.ts:45-52 | A single tile is in the middle of the area, with the size for the welcome or for other windows |
| `Tiling.StackIs` | web/lib/tiling.ts:41-44 | Stacked tiles have one height: that at which they fill the area, but at least 300 |
| `Tiling.LayoutWorkspace` | web/lib/tiling.ts:25-64 | The layout assigns every tile its place, and then every maximized window the whole area |
| `Tiling.Partition` | web/lib/tiling.ts:30-39 | The recursive halving terminates and assigns the places of the group |
| `Tiling.Stack` | web/lib/tiling.ts:41-44 | The narrow layout stacks the tiles |
| `Tiling.Maximize` | web/lib/tiling.ts:60-62 | Maximized windows get the area, all others keep their place |
| `Tiling.StackIsApart` | web/lib/tiling.ts:41-44 | Stacked tiles are at least one gap apart |
| `Tiling.SplitIsExact` | web/lib/tiling.ts:15-22 | The two parts and the gap add up to the region, lie inside it and are apart |
| `Tiling.SplitIsProper` | web/lib/tiling.ts:15-22 | Parts never have negative lengths, however small the region |
| `Tiling.FirstLengthIsWithin` | web/lib/tiling.ts:16-18 | Both parts are at least the minimum, or half of what there is |
| `Tiling.FirstLengthIs` | web/lib/tiling.ts:16-18 | The first part is the rounded share, moved as far as needed for both parts to have the minimum, or half |
| `Tiling.HalvesAre` | web/lib/tiling.ts:32-36 | A region is divided beside each other if two minimal parts fit into its width, unless they fit into a greater height; both parts get the same length up to rounding, and the rest of the region |
| `Tiling.PlacesAreDisjoint` | web/lib/tiling.ts:30-39 | The halved places are disjoint, flat ones included |
| `Tiling.PlacesAreApart` | web/lib/tiling.ts:30-39 | The halved places are apart while splits fit |
| `WindowReducer.ReachableIsSound` | web/lib/desktop.ts:41-95 | In every reachable state identities and creation orders are unique, tile orders are unique in a workspace, and at most one window per workspace is maximized |
| `WindowReducer.ReduceKeepsInv` | web/lib/desktop.ts:46-95 | Every action keeps that |
| `WindowReducer.CloseRemoves` | web/lib/desktop.ts:62 | Closing takes the window out; all others stay as they are and in their order |
| `WindowReducer.FocusRaises` | web/lib/desktop.ts:63-64 | Focusing puts the window on top as it is; the others keep their order, and change only if they are maximized in its workspace |
| `WindowReducer.OpenRaises` | web/lib/desktop.ts:49-55 | Opening a window that is there puts it on top, visible, in the workspace asked for, and as the last tile and not maximized if that is another one |
| `WindowReducer.OpenCreates` | web/lib/desktop.ts:28-59 | A new window opens on top, centred but not left of 12, lower by 24 for each window of its workspace up to a fourth, in its own size, as the last tile and the last one created |
| `WindowReducer.OthersStay` | web/lib/desktop.ts:77-88 | Minimizing also ends maximizing; maximizing toggles and ends it for the others of the workspace; floating, moving and resizing change just that; all others stay |
| `WindowReducer.MoveToBringsLast` | web/lib/desktop.ts:77-93 | Moving to another workspace makes the window its last tile and ends maximizing, for it and for all there; moving to its own changes nothing |
| `WindowReducer.SwapExchanges` | web/lib/desktop.ts:65-74 | A swap exchanges the orders of two different visible tiles of one workspace and is ignored for any others |
| `WindowReducer.PlaceCounts` | web/lib/desktop.ts:68-70 | With tied orders, the place of a window counts those before it |
| `WindowReducer.UnknownIsIgnored` | web/lib/desktop.ts:61 | An action on a window that is not there changes nothing, unless it opens it |
| `WindowReducer.ReachableSwapTransposes` | web/lib/desktop.ts:65-74 | An accepted swap exactly transposes two tiles of the ordered list, and the same swap takes the whole state back |
| `WindowReducer.SwapTransposes` | web/lib/desktop.ts:65-74 | Also with the two orders tied; sufficient in any state is that no third window shares one of the orders |
| `WindowReducer.ThirdTieMovesToo` | web/lib/desktop.ts:68-70 | In an unreachable state with three tied orders a swap is no transposition |
| `WindowReducer.PlacesAreOrdered` | web/lib/desktop.ts:68-70 | Swap positions order windows as the layout does, ties included |
| `WindowReducer.OnlySwapReorders` | web/lib/desktop.ts:46-95 | Every other action keeps the tile order of all windows but the addressed one, in every workspace |
| `WindowReducer.InPlaceKeepsTiles` | web/lib/desktop.ts:63-64 | Focusing, maximizing, moving and resizing reorder no tiles |
| `WindowReducer.ArrivalIsLast` | web/lib/desktop.ts:41-60 | A window opened in or moved to a workspace becomes its last tile |
| `WindowReducer.TiledWindowsIs` | web/lib/tiling.ts:10-13 | The tiles are exactly the visible, tiled windows of the workspace, strictly ordered |
| `WindowReducer.TilesAreVisible` | web/lib/tiling.ts:10-13 | They are those neither minimized nor floating, by order and then identity |
| `WindowReducer.OrderedIsUnique` | web/lib/tiling.ts:10-13 | That order is unique, so layouts depend on nothing else |
| `WindowReducer.NextTileOrderIs` | web/lib/desktop.ts:41-43 | A new order is the least that is not negative and exceeds all orders of the workspace |
| `LockGraph.UnchangedIffEveryPath` | lifecycle/cybexos/inputs.py:60-68 | On acyclic locks an input is unchanged if and only if every path of input names reaches equal content, equal input names and equal follows lists |
| `LockGraph.RenamingIsNoChange` | lifecycle/cybexos/inputs.py:60-68 | Injective renaming of nodes changes no input |
| `LockGraph.AcceptedIffOnlyScopeChanges` | lifecycle/cybexos/inputs.py:71-78 | An update is accepted exactly when the new lock is a valid machine lock, the inputs are the same and nothing outside its scope looks different on any path |
| `LockGraph.ValidIff` | lifecycle/cybexos/inputs.py:10-38 | Exactly which locks are valid: Nixpkgs follows the supported branch, the vendor is pinned and follows the machine's Nixpkgs, and one node alone is locked to Nixpkgs |
| `LockGraph.PinnedIff` | lifecycle/cybexos/inputs.py:24-35 | The vendor is pinned exactly by a release revision of its repository, equal in both places, with a content hash, or by a path with a hash |
| `LockGraph.RenamingKeepsValidity` | lifecycle/cybexos/inputs.py:18-38 | Whether a lock is a valid machine lock does not depend on the names of its nodes: the supported branch, the vendor that follows it, pinned to a release or a content-addressed path, and one node locked to Nixpkgs |
| `LockGraph.LookNormalized` | lifecycle/cybexos/inputs.py:62-67 | Looking along a path in the lock and in the unfolded tree agree |
| `LockGraph.SameViewsUnfoldAlike` | lifecycle/cybexos/inputs.py:62-68 | Equal views along all paths mean equal unfolded trees |
| `LockGraph.RenamedLooksAlike` | lifecycle/cybexos/inputs.py:61 | Renaming changes no view |
| `LockGraph.Graph` | lifecycle/cybexos/inputs.py:46-57 | The search returns exactly the nodes reachable from an input, with their content, and ends on cycles |
| `LockGraph.Visit` | lifecycle/cybexos/inputs.py:49-55 | One visit adds what is reachable and not yet visited |
| `LockGraph.ClosedSetHoldsReachable` | lifecycle/cybexos/inputs.py:46-57 | A set closed under direct inputs holds whatever is reachable from it |
| `LineFraming.ReadLines` | desktop/assistant/cybexos_assistant/protocol.py:78-110 | For every chunking the lines delivered are those of the whole stream within the limit |
| `LineFraming.ReadProgress` | lifecycle/cybexos/progress.py:44-59 | The same for the progress reader, whose limit counts the newline |
| `LineFraming.LineReader.Consume` | desktop/assistant/cybexos_assistant/protocol.py:92-110 | One chunk delivers the lines it completes, and at most the limit is retained |
| `LineFraming.LineReader.Finish` | desktop/assistant/cybexos_assistant/protocol.py:88-91 | At the end an unterminated line within the limit is delivered |
| `LineFraming.ProgressReader.Feed` | lifecycle/cybexos/progress.py:44-59 | One chunk, split at newlines and carriage returns, delivers the lines it completes |
| `LineFraming.ProgressReader.FeedPart` | lifecycle/cybexos/progress.py:46-58 | One part extends or ends the current line |
| `LineFraming.ProgressReader.Close` | lifecycle/cybexos/progress.py:119-122 | Closing delivers the retained rest |
| `LineFraming.SplitIsFaithful` | desktop/assistant/cybexos_assistant/protocol.py:78-83 | The specified lines, joined again, are the stream |
| `LineFraming.SplitIsUnique` | desktop/assistant/cybexos_assistant/protocol.py:78-83 | No other lines are |
| `NixProgress.RunKeepsBytes` | lifecycle/cybexos/progress.py:61-92 | Over a whole log the bytes done are exactly what the reports of running transfers added up to |
| `NixProgress.StepKeepsBytes` | lifecycle/cybexos/progress.py:75-92 | Starting, stopping and expecting conserve the bytes done; a report changes them by its difference |
| `NixProgress.BytesFallIff` | lifecycle/cybexos/progress.py:80-85 | The bytes done fall exactly when a running transfer reports less than before |
| `NixProgress.ClosingKeepsBytes` | lifecycle/cybexos/progress.py:119-126 | Closing conserves the bytes of transfers that never stopped, and is idempotent |
| `NixProgress.LastSnapshotShowsAll` | lifecycle/cybexos/progress.py:94-107 | The last snapshot shows the same bytes and builds, and nothing active |
| `NixProgress.Progress.Line` | lifecycle/cybexos/progress.py:61-92 | Each event changes the totals as specified |
| `NixProgress.StepIs` | lifecycle/cybexos/progress.py:71-92 | What each event does: starts up to 2048 activities, replaces the numbers of a running one, takes over those of all builds or an expectation from the activity for it, and keeps what a stopped transfer did |
| `NixProgress.SumIs` | lifecycle/cybexos/progress.py:96-98 | What a transfer adds: the bytes it did, or the greater of these and the ones it expects |
| `NixProgress.Progress.TakeSnapshot` | lifecycle/cybexos/progress.py:94-107 | The snapshot sums the running transfers and bounds expectations from below |
| `NixProgress.SnapshotShows` | lifecycle/cybexos/progress.py:94-107 | The bytes shown are those of all transfers that ever ran; expected are the greatest of these, the announced ones and those of the running transfers; builds are the reported ones, and at least the running ones while the log is open |
| `NixProgress.Progress.Close` | lifecycle/cybexos/progress.py:119-126 | Closing folds the running transfers into the total |
| `PackageReview.ChangesRebuildNext` | lifecycle/cybexos/review.py:29-49 | Where a path identifies a package, applying the changes to the old packages yields exactly the new ones |
| `PackageReview.PathsOccurOnce` | lifecycle/cybexos/review.py:33-48 | Every path of only one system occurs exactly once, on its side, and no common path occurs |
| `PackageReview.ComparingMirrors` | lifecycle/cybexos/review.py:29-49 | Comparing in the other direction mirrors the list, apart from descriptions |
| `PackageReview.NoChangeToItself` | lifecycle/cybexos/review.py:29-49 | A system does not differ from itself |
| `PackageReview.OnlyIs` | lifecycle/cybexos/review.py:36-38 | The packages to pair are those at uncommon paths, ordered by version and path |
| `PackageReview.OnlyIsLast` | lifecycle/cybexos/review.py:34-38 | Of several entries at one path the last is paired |
| `PackageReview.NameChangesAre` | lifecycle/cybexos/review.py:36-48 | The changes of a name pair what is at uncommon paths in order: each has the versions and paths of its two packages and the newer description; equal versions are rebuilt, others updated, and the rest of the longer list is added or removed |
| `PackageReview.ChangesFollowNames` | lifecycle/cybexos/review.py:33 | The changes follow the order of the names |
| `PackageReview.TakeIs` | lifecycle/cybexos/review.py:10-26 | An inventory lists exactly its packages, each under its name |
| `PackageReview.ReadInventory` | lifecycle/cybexos/review.py:15-26 | The loop builds that inventory |
| `PackageReview.Compare` | lifecycle/cybexos/review.py:29-49 | The loops over names and pairs compute the comparison |
| `PackageReview.ComparePairs` | lifecycle/cybexos/review.py:34-48 | The loop over one name pairs the packages to the end of the longer list |
| `FileUndo.Snapshots.TurnAndUndo` | desktop/assistant/cybexos_assistant/policy.py:493-551 | After any turn and later edits, a file taken before the turn changed its content gets content and mode of before exactly if its content is as the turn left it and the file system allows it. Later edits of the content are kept, a later change of the mode alone is overwritten; a second undo does nothing |
| `FileUndo.Snapshots.Undo` | desktop/assistant/cybexos_assistant/policy.py:522-551 | Undo partitions the changed paths into restored and skipped, restores exactly those untouched since that could be written, and changes no other file |
| `FileUndo.Snapshots.UndoAgain` | desktop/assistant/cybexos_assistant/policy.py:550-551 | A second undo restores nothing |
| `FileUndo.Snapshots.Finish` | desktop/assistant/cybexos_assistant/policy.py:510-520 | The post-images are those of restorable files whose content changed |
| `FileUndo.Snapshots.TakePreimage` | desktop/assistant/cybexos_assistant/policy.py:505-508 | The first pre-image of a path stays |
| `FileUndo.Snapshots.Work` | desktop/assistant/cybexos_assistant/policy.py:501-508 | After any mix of taking and changing, each pre-image is the state at the first taking |
| `FileUndo.TakenFirstIsOriginal` | desktop/assistant/cybexos_assistant/policy.py:505-508 | A file taken before its first change has its original state as pre-image |
| `FileUndo.StateIs` | desktop/assistant/cybexos_assistant/policy.py:456-469 | A pre-image is the absence of a file, or content and mode of a regular one of at most 8 MiB |
| `FileUndo.ChangedIff` | desktop/assistant/cybexos_assistant/policy.py:510-520 | A post-image is kept exactly where both states can be restored and the content differs, whatever the modes |
| `ModelUsage.RotationIsFairWithinAll` | web/lib/model-usage.ts:134-143 | In rotation an account that stays eligible is chosen within as many requests as its provider has accounts, whatever happens to the others |
| `ModelUsage.RotationIsFair` | web/lib/model-usage.ts:134-143 | The exact bound is its distance in the rotation |
| `ModelUsage.RequestComesCloser` | web/lib/model-usage.ts:139-142 | Every request chooses the account or brings the rotation closer to it |
| `ModelUsage.RotationTakesNext` | web/lib/model-usage.ts:134-143 | The rotation takes the account that may serve and comes first after the one used last, going around |
| `ModelUsage.FillFirstTakesFirst` | web/lib/model-usage.ts:136 | Filling first takes the first account that may serve |
| `ModelUsage.ServedIffEligible` | web/lib/model-usage.ts:87-90 | A request is served exactly if an enabled account of the provider has both quotas left, and by such a one |
| `ModelUsage.PoolIs` | web/lib/model-usage.ts:137 | The accounts to rotate are exactly those of the provider, in order |
| `ModelUsage.RequestEntersEvent` | web/lib/model-usage.ts:154-181 | A request enters the newest event with its number, account, tokens and latency, and at most 24 are kept |
| `ModelUsage.RequestConsumes` | web/lib/model-usage.ts:154-181 | A served request counts for its account, takes 4 to 6 percent of the session and 1 or 2 of the week, not below zero, and changes no other account; an unserved one changes none |
| `ModelUsage.SettingsKeepQuotas` | web/lib/model-usage.ts:148-151 | Switching an account changes whether it is enabled, and choosing a routing nothing else |
| `ModelUsage.AdvanceResetIsNext` | web/lib/model-usage.ts:111-113 | An elapsed deadline moves to the only congruent time after now and at most one window later |
| `ModelUsage.RefreshRenews` | web/lib/model-usage.ts:115-132 | An elapsed window is full again and ends next after now, a whole number of windows later; other quotas and everything else stay |
| `ModelUsage.StepKeepsInv` | web/lib/model-usage.ts:115-182 | Every action, resets included, keeps quotas between 0 and 100, identities unique and the history bounded; accounts stay in place |
| `ModelUsage.ReachableIsSound` | web/lib/model-usage.ts:51-182 | In every state reached from the demo data quotas are between 0 and 100, identities unique and the history bounded |
| `ModelUsage.RunKeepsInv` | web/lib/model-usage.ts:115-182 | Every run keeps that |
| `ModelUsage.CreatedIsSound` | web/lib/model-usage.ts:51-85 | The demo data satisfy the invariant, and their events are newest first |
| `ModelUsage.EventsAreNewest` | web/lib/model-usage.ts:180 | The list of events is always the newest 24 of the full history since the last reset |

## Left out

- Nix evaluation, `nixos-rebuild`, `systemctl`, `cryptsetup`, PAM, `bootctl` and HTTP: effects or parameters with the meaning stated above.
- Failed systemd units, exit code 4 and diagnostics of `switch`: a switch happened or failed.
- Firmware updates, release channels with their sequence numbers, and Git metadata.
- The copy of personal edits before a rollback, and discarding a preview, which only changes the status.
- Deployment.Engine.CleanUp: takes any plan with the properties that `StorageCleanup` proves of the selected one (`CandidatesAre`, `GenerationsAre`), as the references of a deployment name its two systems (`lifecycle/cybexos/engine.py:371-373`). References and the store are modelled in `StorageCleanup` only. That the profile's own generation cannot be deleted is a property of `nix-env`; in `StorageCleanup` it counts as a failing command.
- GrubMenuText.Read: lines are taken as classified; quoting, regular expressions, new titles, icons and themes are not modelled. Whether foreign identifiers are safe is a parameter of `GrubMenu`.
- GrubEnvironment.ParseEnvironment: does not decode UTF-8, so a block with invalid text parses here and is refused by the code.
- I/O errors while a boot file is replaced, and the verification of the written ESP file.
- KmsShadow.RunPresentsShadow: assumes, as the renderer promises, that the damage of a frame covers what changed since the frame before it; byte counts have no machine width.
- PasswordChange.PasswordStores.Recover: that the slot kept is the lowest match is stated only for devices on which testing a passphrase never fails by accident.
- StorageCleanup.Cleanup.Clean: does not model the status guard, the health check's content, the estimate of bytes, identity hashes (equal material stands for them) and the sorting of the published list.
- StorageCleanup.Cleanup.Collect: the garbage collector is any that keeps a closed set around the anchors; the references of concurrent builders are held anchors.
- ConversationList.Bridge.RefreshArrived: starting and stopping of streams and saving of the registry are not modelled; a row has its identity, status, stream and `unread`, under one name each.
- Transcript.ProjectTranscript: fields of JSON messages are taken as extracted; time, model, attachments and constant fields of rows and cards are not modelled.
- Tiling.LayoutWorkspace: gets the ordered tiles, whose order `WindowReducer` models; lengths are reals, and keyboard navigation between tiles (`directionalNeighbor`) would add easy members.
- LockGraph.AcceptedIffOnlyScopeChanges: `unchanged_graph` on a cyclic lock, where the code does not end, is outside the model. Fields that are not texts count only as empty or not.
- NixProgress.Progress.Line: events are taken as classified; the JSON checks, component names and the rate of publication are not modelled, nor is the step shown, which follows from the numbers.
- PackageReview.Compare: the order of names is a parameter, because names that differ only in case have no fixed order.
- FileUndo.Snapshots.Undo: empty plugin folders are not removed, and a failed write leaves the file as it was.
- ModelUsage: labels, plans, addresses and model names of accounts, and the provider summary, which only reads.
- Command classification, signature checking, the remaining bridge, agent adapters, themes, images and release scripts.
