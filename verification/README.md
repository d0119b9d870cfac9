# A verified model of the pointer benchmarks

The benchmark drivers of this repository collect labels crash-safely, replay and
evaluate pointer policies tick by tick, and compose gate decisions out of partial
reports.  The Dafny modules beside this file model the algorithms under that
plumbing and prove what the drivers rely on, for all inputs, runs and crashes.
Check everything with `dafny verify dfyconfig.toml`.

## What is modelled

**The write-once store** of `benchmarks/r3h_g2_exact_collect.py`.  `Images` is a
file system as a value: names bound to inodes, inodes holding lines.  Every program
of the collector (`Recovery`, `Sessions`) is a function from an image to a *run*: its
outcome and the image after every system call, so a crash is a run cut short.
`Store.Disk` is the same code on mutable directory state; each method is proved to
go through exactly the images of its function.  `Law` is the invariant and the
effect of single calls; `Safety`, `Convergence` and `Publication` lift it to whole
programs, `Validators` and `Progress` say exactly which states are accepted and
exactly when recovery goes through, `Locality` how far an invocation reaches.
`Verdicts` says what the validators and scans accept and refuse of every image,
lawful or not, in terms of names, inodes and bytes.
`Histories` ranges over all histories of invocations, each cut anywhere, with any
directory listing orders, and `Splits` shows that uncut ones complete a split.
`Authority` is the receipt chain that grants one split after another, `Issuance` the
commands of `benchmarks/rl_r3h_g2.py` that issue its reports and receipts and exactly
when they open a split, `Discipline` whole campaigns of commands and crashing
collectors in any order.

**Interpreters.**  `Simulation` is the plain episode loop over an abstract
simulator and stateful policy, `Interpreter` the loop that cuts WAITs at checkpoints
(`Prefix` is what it keeps of the plain run, `Transcripts` what it chains, `Entries`
what the chained entries mean, read as a plain sequence),
`Shadow` the unit-tick collector with oracle queries, `Tracking` the wrapper that
notes query ticks.  The wait-composition law that the drivers probe at run time
(`WaitLaw`) and the rule of public time that they enforce at every step (`TimeLaw`)
are explicit hypotheses.

**Generator.**  `Words` and `Generator` are the 64-bit generator of
`benchmarks/native_physics.cpp`, its rejection sampler and its random policy, in
exact modular arithmetic; `KnownWords` computes the first words of two streams.

**Gates and reports.**  `Statistics` and `Promotion` are the order statistics and
the promotion gate, `Rejection` the gate in numbers and whom it keeps out; `Records`
and `Composition` the typed episode records, curves, pairings and the merge of four
one-mode slices, `Selection` their gates in terms of the episodes played.

**Schedules.**  `Frames` (50 ticks a second drawn at 60 frames), `Lanes` (barrier
against chunked rollouts), `Partition` (cells dealt to replicas).

## Findings

- A writer temp that a crash leaves half linked into `_incomplete/_atomic` (between
  lines 1108 and 1115 of the collector) is accepted by
  `_validate_collection_incomplete` but refused by `_validate_collection_split`
  (lines 1483-1493).  `collect_episode` validates before it recovers, so the split is
  then refused for ever (`StuckForever`), two crashes reach that state
  (`StuckReachable`), and the recovery it never gets to would repair it
  (`RefusedYetRepairable`).  `CollectExact` gives the exact condition under which an
  invocation completes.
- `_load_complete` is refused exactly when another half-finished move occupies the
  quarantine directory it needs, no retry name is left there, or the rows on disk are
  another collector's (`LoadExact`).  The lone-episode branch (lines 1606-1612) is
  never reached from the collector's own states (`CommitOrder`).
- Other than from that one state a split always converges: one uncut invocation per
  seed, the pair with a half-finished query move first, completes it
  (`SplitConverges`).
- The website renderer consumes its whole action trace exactly when the number of
  action words is a multiple of five; otherwise it stops one word short and raises at
  line 562 (`Render`).  The last angle correction (lines 180-181) never applies.
- A record reads back exactly when its episode's values pass the reader's guards, and
  a curve recomputes, and four slices merge, exactly when their episodes are reportable
  (`ReadWrite`, `EvaluatedRecomputes`, `MergeAgrees`).
- The partition's coverage guard passes exactly for distinct snapshot ids
  (`CoverGuard`).

## Model

| member | source | states |
|---|---|---|
| Histories.LinkStructure | benchmarks/r3h_g2_exact_collect.py:1451-1493 | After every history of invocations cut anywhere, an inode has one name, or two as temp and final, temp and atomic quarantine entry, or final and partial quarantine entry |
| Histories.OneWriterTemp | benchmarks/r3h_g2_exact_collect.py:1483-1493 | After every history each target has at most one writer temp and each quarantine directory at most one move that was cut short |
| Histories.CommitOrder | benchmarks/r3h_g2_exact_collect.py:1867-1913 | After every history whatever is bound to a final name, a lone query file included, is the whole payload of one of its sessions; where an episode is bound, its query file is bound too, is the whole query file of that same session, and has the digest and row count the episode names |
| Histories.WholePayloads | benchmarks/r3h_g2_exact_collect.py:1501-1521 | After every history, cut anywhere, each final name holds exactly what one of its sessions set out to write there |
| Histories.ReplayPublishes | benchmarks/r3h_g2_exact_collect.py:1660-1919 | Over any continuation a final name is as it was or was published, whole, by one of the sessions |
| Locality.CollectReaches | benchmarks/r3h_g2_exact_collect.py:1660-1919 | At every point of an invocation the names of every other pair keep their inodes and bytes, and every final name is as before or holds the whole payload of this session |
| Locality.LoadTidies | benchmarks/r3h_g2_exact_collect.py:1577-1657 | Loading writes no byte, publishes nothing and touches the names of its own pair only, whatever the disk |
| Histories.Conservation | benchmarks/r3h_g2_exact_collect.py:1066-1124 | Between any two points of a history no inode loses its last name, published and quarantined bytes are frozen, and a final name is given up only for a quarantine name with its digest |
| Histories.DiskLawful | benchmarks/r3h_g2_exact_collect.py:1660-1919 | Every history of invocations, each cut anywhere, in any listing orders, keeps the whole storage invariant |
| Histories.ReplayAdvances | benchmarks/r3h_g2_exact_collect.py:1660-1919 | From any lawful disk every continuation stays lawful and keeps all earlier evidence |
| Histories.AfterAdvances | benchmarks/r3h_g2_exact_collect.py:1660-1919 | One invocation, cut anywhere, stays lawful and keeps all earlier evidence |
| Histories.ReachableVerdicts | benchmarks/r3h_g2_exact_collect.py:1399-1498 | On every reachable disk the quarantine validator accepts, and the split validator accepts exactly the states without a half-linked temp, or when completeness is required exactly the pristine splits |
| Histories.StuckForever | benchmarks/r3h_g2_exact_collect.py:1483-1493 | Once a temp is half linked into the atomic quarantine, no history changes a name, an inode or a byte of its split again, and the half link stays |
| Histories.StuckReachable | benchmarks/r3h_g2_exact_collect.py:1103-1115 | That state is reached from the empty store by two crashes, for every schedule, listing order and session |
| Histories.FirstCrash | benchmarks/r3h_g2_exact_collect.py:1508-1511 | A crash after the first system call on an empty store leaves exactly one empty writer temp |
| Histories.SecondCrash | benchmarks/r3h_g2_exact_collect.py:1108-1115 | The next invocation, cut after one system call, leaves that temp half linked |
| Sessions.CollectExact | benchmarks/r3h_g2_exact_collect.py:1660-1919 | An invocation run to its end completes if and only if no temp of the split is half linked, the rows on disk are its own and neither an unpublished temp of the pair nor its lone query file is blocked; it then leaves a settled pair without temps and no half link |
| Sessions.CollectSafe | benchmarks/r3h_g2_exact_collect.py:1660-1919 | Every intermediate image of an invocation is lawful and keeps all evidence |
| Sessions.CollectStuck | benchmarks/r3h_g2_exact_collect.py:1483-1493 | With a half-linked temp in the split the invocation is refused before any system call |
| Sessions.RefusedYetRepairable | benchmarks/r3h_g2_exact_collect.py:1374-1396 | Where that temp belongs to the invocation's own pair, the recovery it does not reach would succeed and leave a split the validator accepts |
| Splits.SplitConverges | benchmarks/r3h_g2_exact_collect.py:1399-1498 | From every lawful disk without a half-linked temp, one uncut invocation per seed, the pair with the half-quarantined query file first, ends in a pristine split that the strict validator accepts |
| Splits.FinishSettles | benchmarks/r3h_g2_exact_collect.py:1660-1919 | A ready invocation settles its pair, whatever else is on disk |
| Splits.ReadyUnblocked | benchmarks/r3h_g2_exact_collect.py:1066-1113 | With a retry name left, and the only half-finished query move its own, nothing blocks a pair |
| Splits.DoneKept | benchmarks/r3h_g2_exact_collect.py:1660-1919 | Invocations for other seeds leave a settled pair settled |
| Splits.ReadyKept | benchmarks/r3h_g2_exact_collect.py:1660-1919 | And leave a pair that is ready ready |
| Convergence.LoadSettles | benchmarks/r3h_g2_exact_collect.py:1577-1657 | `_load_complete` is crash-safe, and unless refused leaves no temp of the pair and either both artifacts bound, singly linked and matching, or neither |
| Convergence.LoadIdempotent | benchmarks/r3h_g2_exact_collect.py:1577-1657 | A second load, at another instant, in another process and listing order, gives the same answer and changes nothing |
| Progress.LoadExact | benchmarks/r3h_g2_exact_collect.py:1577-1657 | `_load_complete` is refused if and only if an unpublished temp or the lone query file cannot be moved, or the rows are foreign; a move is blocked exactly by another cut-short one in the same directory or, before it has begun, by all thousand retry names being taken |
| Progress.RecoverExact | benchmarks/r3h_g2_exact_collect.py:1374-1396 | Recovering one target is refused if and only if its unpublished temp is blocked |
| Progress.RecoverPairExact | benchmarks/r3h_g2_exact_collect.py:1585-1586 | The two recoveries are refused exactly when one of them is blocked, then without any effect, and otherwise only drop temps and add atomic entries |
| Progress.SettleExact | benchmarks/r3h_g2_exact_collect.py:1587-1657 | After recovery the pair is refused exactly when its rows are foreign or its lone query file is blocked |
| Progress.RemnantRefusal | benchmarks/r3h_g2_exact_collect.py:1066-1113 | Moving a remnant is refused exactly when the move is blocked |
| Convergence.RecoverSafe | benchmarks/r3h_g2_exact_collect.py:1374-1396 | `_recover_writer_temps` is crash-safe; done, it leaves no temp of the target and disturbs nothing else; refused, it has changed nothing |
| Convergence.RecoverNothing | benchmarks/r3h_g2_exact_collect.py:1388-1396 | Without temps recovery makes no call, and fails only on a final name with a second link that is not allowed |
| Convergence.RecoverPublished | benchmarks/r3h_g2_exact_collect.py:1383-1386 | After a crash between publishing and unlinking, recovery is exactly the missing unlink |
| Convergence.RecoverRemnant | benchmarks/r3h_g2_exact_collect.py:1362-1387 | After a crash before publishing, recovery is exactly one quarantine move of the one temp |
| Convergence.RecoverPairSafe | benchmarks/r3h_g2_exact_collect.py:1585-1586 | Both recoveries together are crash-safe and leave no temp of the pair |
| Convergence.InspectMeaning | benchmarks/r3h_g2_exact_collect.py:1626-1657 | A bound episode has its query file, and the checks on the pair pass exactly for the collector that owns the rows |
| Convergence.SettleLone | benchmarks/r3h_g2_exact_collect.py:1588-1625 | A lone query file is quarantined, and refused exactly when it is foreign or its move is refused |
| Convergence.SettleSafe | benchmarks/r3h_g2_exact_collect.py:1587-1657 | Settling the pair is crash-safe and ends with both artifacts bound and matching, none, or nothing changed |
| Safety.ParkRefusal | benchmarks/r3h_g2_exact_collect.py:1066-1113 | `_quarantine_link` is refused, then without effect, if and only if another move in the directory was cut short or no name is free, in any listing order |
| Safety.ParkSafe | benchmarks/r3h_g2_exact_collect.py:1066-1124 | `_quarantine_link` is crash-safe and, done, has moved its path and nothing else: the same inode, byte for byte, is now an entry that carries its digest |
| Safety.ParkResume | benchmarks/r3h_g2_exact_collect.py:1078-1096 | A resumed move is exactly the missing unlink, and the link check after it passes |
| Safety.ParkLinks | benchmarks/r3h_g2_exact_collect.py:1099-1124 | In a clear directory with a free name the move is exactly a link and an unlink, and the link check after them passes |
| Safety.ScanMeaning | benchmarks/r3h_g2_exact_collect.py:1076-1098 | What the directory scan answers: refused exactly when a cut-short foreign move is listed first, resumed at an entry of the same inode, clear only if every entry is singly linked and foreign |
| Safety.ResumeIsTwin | benchmarks/r3h_g2_exact_collect.py:1078-1096 | A resumed move finds the one other name of the inode, a rightful partner |
| Safety.LawLinks | benchmarks/r3h_g2_exact_collect.py:1451-1456 | On a lawful disk every link count is one or two, and two only beside a second name |
| Convergence.LawTemps | benchmarks/r3h_g2_exact_collect.py:1043-1063 | The listing yields no temp of a target or exactly one |
| Publication.CommitSafe | benchmarks/r3h_g2_exact_collect.py:1909-1913 | From an absent pair without temps both writes succeed, crash-safe at every step, and leave the settled pair with exactly this payload |
| Publication.WriteNewSafe | benchmarks/r3h_g2_exact_collect.py:1501-1521 | `_write_new` succeeds, crash-safe at every step, and adds exactly one file with the payload |
| Publication.PublishSafe | benchmarks/r3h_g2_exact_collect.py:1508-1521 | Create, grow, link, unlink: lawful after every call, and in every image on the way the final name is bound to the whole payload or not at all |
| Publication.PublishWhole | benchmarks/r3h_g2_exact_collect.py:1508-1521 | From any disk, every image of a publication adds one file under two names and binds the final name to the whole payload only |
| Publication.GrowthSafe | benchmarks/r3h_g2_exact_collect.py:1511-1514 | While a payload grows, cut lines included, the disk stays lawful |
| Publication.GrowthKeeps | benchmarks/r3h_g2_exact_collect.py:1511-1514 | Growing changes one file and ends with the whole payload |
| Law.CreateAdvances | benchmarks/r3h_g2_exact_collect.py:1511 | Creating a writer temp keeps the invariant and all evidence |
| Law.RewriteAdvances | benchmarks/r3h_g2_exact_collect.py:1512-1514 | Writing to a writer temp keeps the invariant and all evidence |
| Law.LinkAdvances | benchmarks/r3h_g2_exact_collect.py:1108 | The links the collector makes keep the invariant and all evidence |
| Law.UnlinkAdvances | benchmarks/r3h_g2_exact_collect.py:1115 | The unlinks the collector makes keep the invariant and all evidence, and leave the other name alone |
| Images.SoleLinks | benchmarks/r3h_g2_exact_collect.py:1099-1100 | A link count is one exactly when the inode has no other name |
| Images.TwinLinks | benchmarks/r3h_g2_exact_collect.py:1088 | Two names of one inode count two |
| Images.SomeOrderLists | benchmarks/r3h_g2_exact_collect.py:1076 | Directory listings as assumed exist |
| Recovery.FreeSequence | benchmarks/r3h_g2_exact_collect.py:1103-1113 | The retry loop stops at the first free suffix of a thousand |
| Recovery.TempsAmong | benchmarks/r3h_g2_exact_collect.py:1043-1063 | The candidates are exactly the listed temps of the target |
| Validators.IncompleteAccepts | benchmarks/r3h_g2_exact_collect.py:1191-1327 | `_validate_collection_incomplete` accepts every lawful state |
| Validators.SplitAccepts | benchmarks/r3h_g2_exact_collect.py:1399-1498 | With temps allowed and completeness not required `_validate_collection_split` accepts exactly the lawful states without a half-linked temp |
| Validators.CompleteAccepts | benchmarks/r3h_g2_exact_collect.py:1494-1498 | Without temps and with completeness required it accepts exactly the lawful splits in which every seed has a settled pair |
| Validators.FinalAccepts | benchmarks/r3h_g2_exact_collect.py:1451-1482 | A published artifact always passes, even half quarantined |
| Validators.TempAccepts | benchmarks/r3h_g2_exact_collect.py:1483-1493 | A temp passes if and only if it is not half linked into the atomic quarantine |
| Validators.QuarantineAccepts | benchmarks/r3h_g2_exact_collect.py:1191-1327 | Every quarantine entry of a lawful disk passes |
| Validators.CommittedPristine | benchmarks/r3h_g2_exact_collect.py:1399-1498 | In a split without temps a bound episode has a settled pair |
| Verdicts.IncompleteExact | benchmarks/r3h_g2_exact_collect.py:1191-1327 | For every image, lawful or not, `_validate_collection_incomplete` accepts if and only if each name in a quarantine directory is named after its own bytes and a scheduled artifact by a positive process and instant, a partial's whole lines belong to the identity in its name, and it is the inode's one name or has one other, the temp or the final name it is being moved from |
| Verdicts.SplitExact | benchmarks/r3h_g2_exact_collect.py:1399-1498 | For every image the split validator accepts if and only if all quarantine directories hold such evidence, every entry of the split is a scheduled final or allowed temp with no other name than its rightful partner, and, if completeness is required, both artifacts of every seed exist |
| Verdicts.EntryExact | benchmarks/r3h_g2_exact_collect.py:1200-1327 | The same of one quarantine entry |
| Verdicts.FinalExact | benchmarks/r3h_g2_exact_collect.py:1451-1482 | A final name passes exactly alone, or with one other name that is a temp of its target or an entry of its partial quarantine |
| Verdicts.TempExact | benchmarks/r3h_g2_exact_collect.py:1483-1493 | A temp passes exactly alone, or with the final name of its target as the one other name |
| Verdicts.ScanClears | benchmarks/r3h_g2_exact_collect.py:1076-1098 | For every image and listing the directory scan clears a path exactly when every entry is evidence of something else, at rest |
| Verdicts.ScanResumes | benchmarks/r3h_g2_exact_collect.py:1076-1098 | And resumes at an entry exactly when it is the first related one and is where the path's own move was cut short |
| Verdicts.InterruptedExact | benchmarks/r3h_g2_exact_collect.py:1149-1179 | For every image the interrupted-link check passes exactly when the whole directory is named after its bytes and the path's one other name is the entry its own move was cut short at |
| Verdicts.LoneExact | benchmarks/r3h_g2_exact_collect.py:1588-1625 | For every image and either kind a lone artifact is quarantined exactly when it is this collector's, at rest or cut short in its own move, and the move is not refused |
| Verdicts.InspectExact | benchmarks/r3h_g2_exact_collect.py:1626-1657 | For every image the pair checks pass exactly for two files at rest, the rows of this collector in order and the one document that names them, and give that document |
| Verdicts.TwoNames | benchmarks/r3h_g2_exact_collect.py:1088 | A link count is two exactly when the inode has one other name |
| Store.Disk.Mount | benchmarks/r3h_g2_exact_collect.py:1660-1699 | A process starts on what an earlier one left behind |
| Store.Disk.Create | benchmarks/r3h_g2_exact_collect.py:1511 | Exclusive creation binds the name to a new empty inode |
| Store.Disk.Write | benchmarks/r3h_g2_exact_collect.py:1512-1514 | A write changes the bytes of one inode |
| Store.Disk.Link | benchmarks/r3h_g2_exact_collect.py:1515 | A link binds a second name to the inode |
| Store.Disk.Unlink | benchmarks/r3h_g2_exact_collect.py:1115 | An unlink drops one name |
| Store.Disk.QuarantineLink | benchmarks/r3h_g2_exact_collect.py:1066-1124 | The method goes through exactly the images of `Recovery.Park` and gives its answer |
| Store.Disk.RecoverTemp | benchmarks/r3h_g2_exact_collect.py:1380-1387 | One iteration of the temp loop goes through exactly the images of its function |
| Store.Disk.RecoverTemps | benchmarks/r3h_g2_exact_collect.py:1380-1387 | The temp loop goes through exactly the images of `Recovery.RecoverEach` |
| Store.Disk.RecoverWriterTemps | benchmarks/r3h_g2_exact_collect.py:1374-1396 | `_recover_writer_temps` goes through exactly the images of `Recovery.Recover` |
| Store.Disk.RequireInterrupted | benchmarks/r3h_g2_exact_collect.py:1149-1179 | The check passes exactly for a link count of two, valid entries and one match of the right stem |
| Store.Disk.QuarantineLone | benchmarks/r3h_g2_exact_collect.py:1588-1625 | The lone-artifact branch goes through exactly the images of `Recovery.SettlePartial` |
| Store.Disk.RecoverBoth | benchmarks/r3h_g2_exact_collect.py:1585-1586 | Both recoveries go through exactly the images of `Recovery.RecoverPair` |
| Store.Disk.Decide | benchmarks/r3h_g2_exact_collect.py:1587-1657 | What follows recovery goes through exactly the images of `Recovery.Settle` |
| Store.Disk.LoadComplete | benchmarks/r3h_g2_exact_collect.py:1577-1657 | `_load_complete` goes through exactly the images of `Recovery.Load`, the function of `LoadSettles` and `LoadExact` |
| Store.Disk.Grow | benchmarks/r3h_g2_exact_collect.py:1512-1514 | The write loop goes through exactly the images of `Recovery.Growth` |
| Store.Disk.PublishFile | benchmarks/r3h_g2_exact_collect.py:1508-1521 | Publication goes through exactly the images of `Recovery.Publish` |
| Store.Disk.WriteNewFile | benchmarks/r3h_g2_exact_collect.py:1501-1521 | `_write_new` goes through exactly the images of `Recovery.WriteNew` |
| Store.Disk.CommitPair | benchmarks/r3h_g2_exact_collect.py:1909-1913 | The two closing writes go through exactly the images of `Recovery.Commit`, rows first |
| Store.Disk.ValidateQuarantine | benchmarks/r3h_g2_exact_collect.py:1127-1146 | The loop over one quarantine directory accepts exactly when every entry is evidence, in the sense of `Verdicts.IncompleteExact`, for every image |
| Store.Disk.ValidateIncomplete | benchmarks/r3h_g2_exact_collect.py:1191-1327 | For every image the loop over all quarantine directories accepts exactly when every quarantine entry is evidence: digest, owner, schedule and links |
| Store.Disk.ValidateSplit | benchmarks/r3h_g2_exact_collect.py:1399-1498 | For every image the loops of the split validator accept exactly as `Verdicts.SplitExact` says, with its conditions on names, bytes and links in the contract |
| Store.Disk.CollectEpisode | benchmarks/r3h_g2_exact_collect.py:1660-1919 | `collect_episode`, from the split validation on, goes through exactly the images of `Sessions.Collect`, and every image it logs is lawful and keeps all evidence |
| Authority.AuthorityIsPrefix | benchmarks/r3h_g2_exact_collect.py:679-702 | Authorised splits form a prefix of the stage order, and authority over a split means that every earlier collection is pristine on disk exactly as the receipt of its stage names it, made by the running source |
| Authority.GrantsNest | benchmarks/r3h_g2_exact_collect.py:511-676 | Each later validator contains every earlier one and names the same collection identities |
| Authority.GrantsDepend | benchmarks/r3h_g2_exact_collect.py:511-676 | What is granted depends on the recomputed identities of earlier splits only |
| Authority.EditWithdraws | benchmarks/r3h_g2_exact_collect.py:445-463 | Any change to one file of an earlier collection withdraws every later split |
| Authority.FilesInjective | benchmarks/r3h_g2_exact_collect.py:445-463 | Equal collection identities mean equal bytes of every artifact |
| Authority.PristineKept | benchmarks/r3h_g2_exact_collect.py:1660-1919 | A settled split is untouched by any invocation, cut anywhere, for it or another split |
| Authority.AuthorityKept | benchmarks/r3h_g2_exact_collect.py:679-702 | One invocation does not withdraw a granted authority |
| Authority.AuthorityPersists | benchmarks/r3h_g2_exact_collect.py:679-702 | No history of invocations withdraws a granted authority |
| Authority.AuthorizationCuts | benchmarks/r3h_g2_exact_collect.py:1676 | Refusing authorization is a cut before the first call, so every result about histories covers the authorised ones |
| Issuance.ChainOpens | benchmarks/r3h_g2_exact_collect.py:511-702 | After the first n issuing commands on a lawful disk without reports a split is authorised if and only if its last stage is among them, its numbers hold (pilot counts 32, 24, 18, 160; AUROC at least 3/4 and a first grid cell without bad candidates that covers a twentieth of the queries; finite q) and every earlier collection is settled |
| Issuance.AuthorizedExact | benchmarks/r3h_g2_exact_collect.py:511-702 | In any world a split is authorised if and only if every stage up to its last one has a report that says, in numbers and indices, what is needed and a receipt that is, as far as it is read, the one written beside that report |
| Issuance.AuthorityMeans | benchmarks/r3h_g2_exact_collect.py:578-638 | Authority over margin-board or offline-board means a passed AUROC of at least 3/4 and an index i such that point i passes, every earlier point fails, and the threshold is that of point i |
| Issuance.OfflineMeans | benchmarks/r3h_g2_exact_collect.py:641-676 | Authority over offline-board means besides a finite q fitted with that very calibration on the absolute-B2 target |
| Issuance.FirstPassingExact | benchmarks/r3h_g2_exact_collect.py:591-627 | The threshold test passes exactly for the threshold of the first passing point, given by its index |
| Issuance.FitExact | benchmarks/rl_r3h_g2.py:2372-2415 | The support calibration is GO exactly with an AUROC of at least 3/4 and a first cell that passes |
| Issuance.WinnerIsFirst | python/irisu_pointer/resolution_first_g2.py:1421-1447 | The fitted threshold is the one the authorizer looks for, and there is one exactly when some point passes |
| Issuance.IssuedStands | benchmarks/rl_r3h_g2.py:1831-2616 | After the first n commands exactly these reports are on file, and exactly these stages stand |
| Issuance.PilotIssued | benchmarks/rl_r3h_g2.py:1953-1987 | The pilot's report and receipt stand exactly when the collection is settled and the four counts pass |
| Issuance.SupportWritten | benchmarks/rl_r3h_g2.py:2418-2473 | The support report and receipt stand, on a standing checkpoint, exactly when the calibration is GO |
| Issuance.MarginWritten | benchmarks/rl_r3h_g2.py:2552-2616 | The margin report and receipt stand, on a standing calibration, exactly when q is finite |
| Issuance.IdentityExact | benchmarks/r3h_g2_exact_collect.py:445-463 | On a lawful disk a collection has an identity exactly when it is settled |
| Issuance.FilesExact | benchmarks/r3h_g2_exact_collect.py:445-463 | For any image the identity covers both artifacts of every seed in order with their digests, and exists exactly when each has no other name |
| Discipline.StagedDiscipline | benchmarks/r3h_g2_exact_collect.py:679-702 | Over all runs that interleave issuing commands and collectors cut anywhere, from the empty store: once anything of a split is on disk, every earlier collection is settled and every stage before it was run with an outcome that passed |
| Discipline.EarlierFrozen | benchmarks/r3h_g2_exact_collect.py:679-702 | From the moment a split is authorised no command or collector changes a name, inode or byte of an earlier collection |
| Discipline.RunKeeps | benchmarks/r3h_g2_exact_collect.py:679-702 | In every run only authorised splits are begun, and no authority is withdrawn |
| Discipline.IssueKeeps | benchmarks/rl_r3h_g2.py:1831-2616 | An issuing command withdraws no authority |
| Interpreter.RunPrefix | benchmarks/rl_r3e_reserve_band_prefix.py:300-497 | The split run ends in the view of the plain run (state, policy state, decisions, primitives, events); its rows are the reference rows, each with the transcript of the split run cut at its checkpoint; steps are primitives plus splits, less one exactly when it ended on a fragment that did not end its WAIT; each of those transcripts is the one complete sequence of entries in the sense of `Entries.TranscriptExact` |
| Entries.TranscriptExact | benchmarks/rl_r3e_reserve_band_prefix.py:396-494 | The transcript of a checkpoint is the one sequence of entries in which each follows from those before it (a decision is the policy's answer to the state reached once all its actions are begun and nothing is left; a transition is the next fragment of the primitive under way, or the first of the next action, with the right index, ticks and `sim.step` of the state reached) and which ends at that checkpoint or with the episode |
| Entries.SavedExact | benchmarks/rl_r3e_reserve_band_prefix.py:337-377 | So is the transcript that each row carries |
| Entries.EntriesMeet | benchmarks/rl_r3e_reserve_band_prefix.py:410-484 | After a decision comes fragment 0 of its first action; after a fragment that leaves part of its primitive comes the next index of the same original; otherwise an index is 0; each entry takes up at the tick where the last one stopped, and each result is `sim.step` of the state reached so far |
| Entries.FragmentsAddUp | benchmarks/rl_r3e_reserve_band_prefix.py:412-484 | The fragments of a primitive are numbered from 0 without a gap, name the same original, and with what is left add up to its duration |
| Entries.PlayedOut | benchmarks/rl_r3e_reserve_band_prefix.py:412-484 | The fragments of a primitive that was played out add up to its duration |
| Entries.OriginalsInOrder | benchmarks/rl_r3e_reserve_band_prefix.py:410-413 | The primitives begun since a decision are its first actions, in order |
| Entries.FollowsOnce | benchmarks/rl_r3e_reserve_band_prefix.py:396-484 | What follows a sequence of entries is determined by it |
| Entries.RowShowsTranscript | benchmarks/rl_r3e_reserve_band_prefix.py:337-377 | A row agrees with the transcript it carries: the state and policy last reached, as many decisions as decision entries, as many primitives as first fragments, and all events in order |
| Prefix.RowMeaning | benchmarks/rl_r3e_reserve_band_prefix.py:337-387 | Every checkpoint has one row, in order, showing the plain run cut at that checkpoint; the row is at the checkpoint's own tick unless carried from a run that had terminated before |
| Prefix.RowsLookBack | benchmarks/rl_r3e_reserve_band_prefix.py:379-387 | Views, splits and steps of the rows up to a checkpoint do not depend on later checkpoints |
| Transcripts.TranscriptsLookBack | benchmarks/rl_r3e_reserve_band_prefix.py:396-484 | Two runs whose checkpoints agree up to one of them carry the same transcript there, whatever checkpoints come later |
| Transcripts.TraceLooksBack | benchmarks/rl_r3e_reserve_band_prefix.py:396-484 | The same from any state on the way, mid-WAIT included |
| Transcripts.LogsFragment | benchmarks/rl_r3e_reserve_band_prefix.py:465-486 | Chaining a fragment, and saving the transcript on arrival, keeps the log on track for every later checkpoint |
| Transcripts.LogsDecided | benchmarks/rl_r3e_reserve_band_prefix.py:396-409 | So does chaining a decision |
| Transcripts.LogsOver | benchmarks/rl_r3e_reserve_band_prefix.py:490-494 | Once the episode is over the log is the transcript of every later checkpoint |
| Transcripts.SavedAt | benchmarks/rl_r3e_reserve_band_prefix.py:337-377 | The transcript saved for a row is the one at its checkpoint |
| Interpreter.CarryRows | benchmarks/rl_r3e_reserve_band_prefix.py:490-494 | Only a terminated run has checkpoints left, and their rows and transcripts are the reference ones |
| Simulation.PlainIsClipped | benchmarks/rl_r3d_steering.py:395-463 | Cut at the simulator's own horizon the plain run loses nothing |
| Simulation.SplitWait | benchmarks/rl_r3e_reserve_band_prefix.py:203-255 | Playing part of a WAIT and then the rest gives the view of playing it whole, with the primitive counted once |
| Interpreter.CaptureDue | benchmarks/rl_r3e_reserve_band_prefix.py:379-387 | The capture loop takes exactly the checkpoint whose tick has come, at that tick, with the transcript so far, and never two |
| Interpreter.PlayFragment | benchmarks/rl_r3e_reserve_band_prefix.py:418-484 | One fragment: a WAIT stops at the next checkpoint, a split is counted exactly when it is cut, the entry that `Entries.TranscriptExact` pins down is chained, and the arrival is captured with the new counts and transcript |
| Interpreter.PlayPrimitive | benchmarks/rl_r3e_reserve_band_prefix.py:410-486 | All fragments of a primitive keep the run and its transcript on track for every later checkpoint and advance time |
| Interpreter.PlayActions | benchmarks/rl_r3e_reserve_band_prefix.py:410-486 | The primitives of a decision do so too |
| Interpreter.PlayEpisode | benchmarks/rl_r3e_reserve_band_prefix.py:389-486 | So does the decision loop, which ends with the episode |
| Prefix.CarriedRow | benchmarks/rl_r3e_reserve_band_prefix.py:490-494 | A checkpoint left when the loop ends belongs to a terminated run, and its carried row is the reference row |
| Prefix.ArrivalRow | benchmarks/rl_r3e_reserve_band_prefix.py:337-377 | The row captured on arrival is the reference row of that checkpoint |
| Prefix.EndTally | benchmarks/rl_r3e_reserve_band_prefix.py:425-464 | When a fragment ends the episode, the splits so far are all there will be, and one step is missing exactly if the fragment was cut |
| Prefix.PlayedPart | benchmarks/rl_r3e_reserve_band_prefix.py:428-484 | After part of a WAIT the rest of the run, continued to any later cut, is still the plain run |
| Prefix.PlayedWhole | benchmarks/rl_r3e_reserve_band_prefix.py:428-484 | And after a whole primitive |
| Prefix.Decided | benchmarks/rl_r3e_reserve_band_prefix.py:392-397 | And after a decision |
| Prefix.ClippedEnds | benchmarks/rl_r3e_reserve_band_prefix.py:431-437 | A run cut at a tick stops there or where the episode ends |
| Tracking.TrackingIsTransparent | benchmarks/rl_r3e_reserve_band_prefix.py:167-200 | Over a whole episode the tracking wrapper changes no decision, state or count, and its marks say exactly whether a query was made and the cap was reached |
| Tracking.TrackedPolicy.Predict | benchmarks/rl_r3e_reserve_band_prefix.py:181-197 | Raises exactly when the counter moves by something other than zero or one; otherwise decides as the wrapped policy; a query moves the last mark to the tick observed, and the cap mark exactly when the counter reaches the cap |
| Tracking.TrackedPolicy.constructor | benchmarks/rl_r3e_reserve_band_prefix.py:170-174 | Starts without marks |
| Tracking.MarksExact | benchmarks/rl_r3e_reserve_band_prefix.py:167-200 | Over a whole episode the marks are the tick of the last decision that consulted the oracle and the tick of the one that brought the counter to the cap |
| Shadow.Collect | benchmarks/r3h_g2_exact_collect.py:1736-1864 | If the oracle hands back the environment and leaves the policy alone, the accepted trajectory is the query-free run of whole WAITs cut at the horizon, elapsed time never exceeds it, and the query rows have the indexes 0, 1, ..., the shots 1, 7, 13 and 19 as far as they came, and increasing ticks; without restoring it is caught, without a shot it is rejected; query k is made at the tick of shot decision 6k + 1 of that query-free run |
| Shadow.Consult | benchmarks/r3h_g2_exact_collect.py:1762-1843 | A consultation that restores leaves the run as it was and keeps the schedule; it is refused only for not restoring |
| Shadow.PlayDecision | benchmarks/r3h_g2_exact_collect.py:1845-1860 | The primitives of a decision, played in units, keep the clipped plain run |
| Shadow.UnitPlayed | benchmarks/r3h_g2_exact_collect.py:1852-1860 | After one unit the rest of the primitive is still to be played |
| Shadow.ScheduleStep | benchmarks/r3h_g2_exact_collect.py:1763-1768 | The modular test and the cap give the closed schedule, shot by shot |
| Shadow.PlayUnits | benchmarks/r3h_exact_collect.py:526-545 | Unit steps cut at the horizon equal the clipped primitive |
| Shadow.AtShotsNext | benchmarks/r3h_g2_exact_collect.py:1763-1768 | A shot on schedule adds a query at its own tick, any other adds none |
| Shadow.UnitTicks | benchmarks/r3h_g2_exact_collect.py:1852-1860 | Playing one unit of a primitive leaves the shot decisions still to come, and their ticks, as they are |
| Generator.SplitMixPermutes | benchmarks/native_physics.cpp:41-46 | `splitmix` is a permutation of the 64-bit words |
| Generator.OutputsDistinct | benchmarks/native_physics.cpp:234-240 | Any 2^64 consecutive outputs are pairwise distinct, from every seed |
| Generator.StatesDistinct | benchmarks/native_physics.cpp:234-236 | The increment being odd, any 2^64 consecutive states are distinct |
| Generator.FinishInjective | benchmarks/native_physics.cpp:237-239 | The finalizer loses nothing |
| Generator.SplitMixIs | benchmarks/native_physics.cpp:41-46 | The output of `splitmix` as an explicit formula of words: the constants, the shifts 30, 27 and 31 in that order, the wrap-around products |
| Generator.FinishIs | benchmarks/native_physics.cpp:237-239 | The same of the finalizer |
| Generator.FinishUndone | benchmarks/native_physics.cpp:237-239 | An explicit inverse that names the shifts 31, 27 and 30 and the inverse factors gives the word back |
| Generator.UnfinishUndone | benchmarks/native_physics.cpp:237-239 | And is the inverse on the other side |
| KnownWords.FirstWordOf0 | benchmarks/native_physics.cpp:41-46 | The first word of the stream seeded with 0 is 0xE220A8397B1DCDAF |
| KnownWords.FirstWordOf1 | benchmarks/native_physics.cpp:41-46 | The first word of the stream seeded with 1 is 0x910A2DEC89025CC1 |
| KnownWords.FirstUnitOf0 | benchmarks/native_physics.cpp:220-245 | So the first `unit()` of seed 0 lies between 0.883 and 0.884, and its first action is a wait |
| Words.XorBits | benchmarks/native_physics.cpp:41-46 | Exclusive or is bit by bit: bit i differs exactly where the operands' bits differ |
| Words.RestoreUndoes | benchmarks/native_physics.cpp:41-46 | Repeated shifts undo `v ^ (v >> k)` for every k |
| Words.ShrDivides | benchmarks/native_physics.cpp:41-46 | A right shift by k divides by 2^k |
| Words.XorShiftInjective | benchmarks/native_physics.cpp:237-239 | A word is determined by itself xor its right shift |
| Generator.Threshold | benchmarks/native_physics.cpp:248 | The wrapped remainder is below the bound |
| Generator.ThresholdDivides | benchmarks/native_physics.cpp:248 | The number of accepted words is a multiple of the bound |
| Generator.RejectionIsExact | benchmarks/native_physics.cpp:247-253 | Every residue is left by exactly (2^64 - threshold) / bound accepted words |
| Generator.RejectionsBounded | benchmarks/native_physics.cpp:249-252 | Consecutive draws below the threshold are at most as many as the threshold |
| Generator.RandomPolicy.Bounded | benchmarks/native_physics.cpp:247-253 | Ends within threshold + 1 <= bound draws from every state, at the first accepted draw, with its residue, and the state advanced by just those draws |
| Generator.RandomPolicy.Accepted | benchmarks/native_physics.cpp:249-252 | The rejection loop ends at the first draw that reaches the threshold |
| Generator.RandomPolicy.Next | benchmarks/native_physics.cpp:234-240 | With s = (state + 0x9e3779b97f4a7c15) mod 2^64 as the new state, a = (s xor s / 2^30) * 0xbf58476d1ce4e5b9 mod 2^64 and b = (a xor a / 2^27) * 0x94d049bb133111eb mod 2^64, the value is b xor b / 2^31 |
| Generator.RandomPolicy.Act | benchmarks/native_physics.cpp:220-231 | A wait takes two draws and a shot four; the kind, strength and in-range coordinates are the stated functions of those draws |
| Generator.RandomPolicy.Play | benchmarks/native_physics.cpp:288-290 | After any decisions the state is the seed plus (2 waits + 4 shots) increments modulo 2^64 |
| Generator.RandomPolicy.constructor | benchmarks/native_physics.cpp:216 | The state starts at the seed |
| Generator.RandomPolicy.Reset | benchmarks/native_physics.cpp:218 | The state returns to a seed |
| Generator.Unit | benchmarks/native_physics.cpp:242-245 | The scaled top 53 bits lie in [0, 1) |
| Generator.UnitExact | benchmarks/native_physics.cpp:242-245 | And are the 53 top bits over 2^53, exactly |
| Promotion.NoWorseIsPromoted | benchmarks/rl_joint_planner.py:739-801 | A candidate no worse on every seed in survival, score, clears and renewal, with no new gauge failure and no invalid action, passes every check of the gate, in whatever order the suites were played |
| Promotion.PromotedIsSafe | benchmarks/rl_joint_planner.py:604-705 | Promotion guarantees of every single seed that it is no catastrophic regression and has no invalid action |
| Rejection.GateExact | benchmarks/rl_joint_planner.py:739-801 | For paired suites the gate passes if and only if it is a selection suite, every seed keeps the written-out bounds (less than 2000 ticks or a quarter lost, at least half kept, full runs stay full, no new gauge failure, no invalid action) and each of the seven aggregate inequalities holds |
| Rejection.WorseIsRejected | benchmarks/rl_joint_planner.py:747-777 | A candidate with a strictly lower score on every seed is never promoted, nor one with strictly lower survival, clears or renewal on every seed, nor one with more gauge failures |
| Rejection.LowerPercentile | benchmarks/rl_joint_planner.py:306-318 | A quantity strictly lower on every seed has strictly lower percentiles, in any two orders |
| Rejection.LowerTotal | benchmarks/rl_joint_planner.py:535-600 | And a strictly lower total |
| Rejection.FailuresCount | benchmarks/rl_joint_planner.py:535-600 | The failure total counts the episodes that ended terminated with a gauge of at most one |
| Promotion.NoCatastrophes | benchmarks/rl_joint_planner.py:613-640 | A candidate no worse on every seed pairs up with the baseline without a catastrophe |
| Promotion.ChecksPass | benchmarks/rl_joint_planner.py:739-775 | And passes all seven aggregate checks |
| Promotion.SumDominates | benchmarks/rl_joint_planner.py:535-600 | A quantity no smaller on every seed has no smaller a total, in any two orders |
| Promotion.ValuesDominate | benchmarks/rl_joint_planner.py:306-323 | And its values dominate as a distribution |
| Statistics.SortMonotone | benchmarks/rl_r3d_steering.py:505-507 | Dominance carries to sorted values, place by place |
| Statistics.PercentileMonotone | benchmarks/rl_r3d_steering.py:505-513 | Every interpolated percentile of a dominating sample is at least as high |
| Statistics.PercentileExact | benchmarks/rl_joint_planner.py:306-318 | Of the values in ascending order, however sorted, a percentile is the one at place (n - 1) * fraction, or in proportion between the two around it |
| Statistics.PercentileShifted | benchmarks/rl_joint_planner.py:306-318 | A percentile moves with its values |
| Statistics.SortedOnce | benchmarks/rl_joint_planner.py:306-308 | There is one way to sort |
| Statistics.AtMonotone | benchmarks/rl_joint_planner.py:309-318 | Interpolation between order statistics is monotone in them |
| Statistics.AtBounds | benchmarks/rl_r3d_steering.py:508-513 | An interpolated percentile lies between its two order statistics |
| Statistics.SortSorts | benchmarks/rl_r3d_steering.py:506 | Sorting sorts and keeps every value as often |
| Records.ReadWrite | benchmarks/rl_r3e_reserve_band_merge.py:192-287 | Reading what was written gives the episode back exactly when its values pass the reader's guards, and nothing otherwise |
| Records.WriteRead | benchmarks/rl_r3e_reserve_band_merge.py:192-287 | A record that reads is exactly the one its episode is written as, with values in range |
| Records.ReadWriteConversion | benchmarks/rl_r3e_reserve_band_merge.py:200-245 | Conversion metrics, as they can be built at all, always read back |
| Composition.MergeAgrees | benchmarks/rl_r3e_reserve_band_merge.py:496-665 | Four one-mode slices merge exactly when every episode of every mode is reportable; the result then has the joint run's curves and pairings, and its gate passes exactly when the joint gate does and no pair against the base policy is a catastrophe |
| Composition.EvaluatedRecomputes | benchmarks/rl_r3e_reserve_band_merge.py:290-352 | A curve emitted by `_evaluate` recomputes if and only if its episodes are in range and censored at the horizon |
| Composition.ReadAllWritten | benchmarks/rl_r3e_reserve_band_merge.py:300-325 | The rows of a curve read back to the episodes played exactly when all are in range |
| Composition.Evaluate | benchmarks/rl_r3e_reserve_band.py:365-449 | The evaluation loop builds the records, the counts and the aggregate fields the gates read |
| Composition.GatesAgree | benchmarks/rl_r3e_reserve_band_merge.py:437-466 | The composed gate is the joint gate and one more check |
| Selection.JointGateExact | benchmarks/rl_r3e_reserve_band.py:542-600 | Of the episodes played, the joint gate passes if and only if the reserve mode's median score is higher than the gauge-first mode's, its failures and survival p10 stay within the configured bounds, and on no seed does it newly fail or lose too much survival against either comparator |
| Selection.MergedGateExact | benchmarks/rl_r3e_reserve_band_merge.py:437-466 | And the gate of the merged slices exactly when, besides, no seed is harmed against the base policy |
| Selection.PairingExact | benchmarks/rl_r3e_reserve_band.py:467-540 | A pairing over one seed list exists and is free of catastrophes exactly when no seed newly fails or loses too much |
| Selection.AggregateExact | benchmarks/rl_r3e_reserve_band.py:425-449 | The aggregate is the median score, the survival p10 and the number of failed episodes of what was played |
| Selection.CountsExact | benchmarks/rl_r3e_reserve_band.py:365-449 | The counts of a curve are, name by name, the totals of what its episodes counted |
| Records.DerivedFields | benchmarks/rl_r3e_reserve_band.py:395-424 | A written record's derived fields in numbers: both failure flags and the three rates |
| Composition.JointPairs | benchmarks/rl_r3e_reserve_band.py:702-738 | Curves over one seed list always pair up, with all three comparators |
| Selection.SliceExact | benchmarks/rl_r3e_reserve_band_merge.py:290-352 | A slice, wherever it comes from, is accepted if and only if it holds its own mode alone and a curve that `_evaluate` would have written for some episodes of just those seeds, in range and not longer than the horizon |
| Selection.MergeRefuses | benchmarks/rl_r3e_reserve_band_merge.py:496-665 | Whatever slices are handed in, nothing else is merged |
| Composition.AloneIsSlice | benchmarks/rl_r3e_reserve_band_merge.py:617-631 | One mode run alone is an acceptable slice exactly when its episodes are reportable |
| Frames.Render | benchmarks/render_r3l_website_video.py:522-562 | Every frame shows the exact linear playback one tick behind; the loop consumes all words exactly when five divides their number, one less otherwise, where it raises |
| Frames.DrawFrame | benchmarks/render_r3l_website_video.py:526-560 | A frame steps at most one word and draws the playback at its time |
| Frames.TargetSteps | benchmarks/render_r3l_website_video.py:528 | Frames ask for at most one word more each and never for more than there are |
| Frames.AlphaIs | benchmarks/render_r3l_website_video.py:168-169 | The interpolation weight is the fraction of the tick; neither clamp binds |
| Frames.DrawnIs | benchmarks/render_r3l_website_video.py:157-187 | What is interpolated between the last two snapshots is the playback at 5f/6 - 1 ticks |
| Frames.PlaybackExact | benchmarks/render_r3l_website_video.py:157-187 | In the picture at time t every body of the next snapshot stands, in order, at (1 - w) of its last pose with the same id and w of its own, turned the short way by w; a body that was not there before is drawn where it is |
| Frames.BlendExact | benchmarks/render_r3l_website_video.py:171-187 | The same of one body |
| Frames.LookupExact | benchmarks/render_r3l_website_video.py:164-166 | The old pose is the last body with the id, if there is one |
| Frames.InterpolatedBodies | benchmarks/render_r3l_website_video.py:157-187 | The loop blends every body with its old pose, and shows bodies as they are without one or across a gap |
| Frames.TurnIsShortest | benchmarks/render_r3l_website_video.py:177-181 | The turn drawn lies in (-pi, pi] and leads to the new angle up to whole turns; the correction at lines 180-181 is never taken |
| Frames.StepTo | benchmarks/render_r3l_website_video.py:529-538 | The action loop plays the words that are due and remembers the snapshot before |
| Frames.LastTarget | benchmarks/render_r3l_website_video.py:501-528 | The last frame asks for all words exactly when five divides their number, else for one less |
| Lanes.SchedulesAgree | benchmarks/exact_actor_rollout.py:54-140 | Interleavings that give every lane the same number of steps agree on every lane's simulator, policy, digest and event count |
| Lanes.InterleavingIsPrivate | benchmarks/exact_actor_rollout.py:54-140 | In any interleaving a lane ends where its own steps take it |
| Lanes.Synchronous | benchmarks/exact_actor_rollout.py:54-99 | The barrier loop takes every lane the given number of steps |
| Lanes.Actor | benchmarks/exact_actor_rollout.py:102-140 | So do chunks of min(remaining, horizon), for any horizon |
| Lanes.Compare | benchmarks/exact_actor_rollout.py:211-240 | Both executors give the same lanes |
| Lanes.RolloutAdds | benchmarks/exact_actor_rollout.py:113-135 | Consecutive chunks compose |
| Partition.PartitionIndependent | benchmarks/r3b_evaluation_throughput.py:251-270 | For distinct snapshots and any number of replicas the sorted concatenation is the serial suite |
| Partition.DealtCovers | benchmarks/r3b_evaluation_throughput.py:188-199 | All replicas together hold every cell exactly as often as the suite |
| Partition.ReplicasDisjoint | benchmarks/r3b_evaluation_throughput.py:191-196 | Two replicas never share a cell |
| Partition.ReplicaMembers | benchmarks/r3b_evaluation_throughput.py:191-196 | A replica holds exactly the repetitions of the snapshots with its index |
| Partition.NoReplicaIdle | benchmarks/r3b_evaluation_throughput.py:197-198 | No replica is empty if and only if there are at least as many snapshots as replicas |
| Partition.CoverGuard | benchmarks/r3b_evaluation_throughput.py:262-263 | The coverage guard passes if and only if the snapshot ids are distinct |
| Partition.SuiteExact | benchmarks/r3b_evaluation_throughput.py:251-270 | Cell k of snapshot i is at place i * repetitions + k of the serial suite |

## Left out

- Images: a crash is the death of the process between two system calls or inside a write; `fsync`, power loss and reordering by the kernel are not modelled, and `time.time_ns` is one instant per invocation.
- Images: symbolic links, non-regular files, directory creation, entries with unknown names and edits from outside (other than in `Authority.EditWithdraws`) are left out; the collector's own programs never produce them.
- Images: SHA-256 is an injective constructor and JSON text is its value; a line cut short by a crash is the single symbol `Torn`, and Python's equality of `0` and `0.0` plays no part.
- Recovery.TempsAmong: the source also sorts the candidates and rejects malformed temp names; a target never has two temps (`Convergence.LawTemps`), and malformed names are outside edits.
- Sessions.Collect: the live episode between load and commit is the number of rows it yields; the call of `_authorize_collection` (line 1676) is in `Authority.CollectAuthorized` instead, and the checks of source identity, environment and seed registry around it, and `_validate_all_incomplete`, are left out.
- Store.Disk.CollectEpisode: leaves out the same checks as `Sessions.Collect`.
- Splits.SplitConverges: assumes that the sessions own the rows on disk and that a retry name is left for what has to be quarantined; `Progress.LoadExact` says what happens otherwise.
- Authority: report fields that no predicate reads are left out, and file paths are their stage names.
- Issuance.ChainOpens: what the commands compute from datasets and models (counts, AUROC, grid cells, `q`, digests) are inputs; that a command checks its predecessor again (`_require_pilot`, `_load_model`, `_support_calibration`) is that the predecessor's report is on file and passed, and recovery of a half-written checkpoint or report is left out.
- Discipline.StagedDiscipline: a command is one step; the crash points inside it are left out, those inside collectors are not.
- Simulation.Plain: the decision budget, the archive of snapshots and the conversion metrics of `_run_episode` are left out; policies answer with at least one primitive, and a WAIT takes at least one tick.
- Interpreter.RunPrefix: the transcript is the sequence of chained entries instead of its digest, with the reached state in place of observation, reward and flags; wall and CPU times are left out; checkpoints start after tick zero and end at the simulator's horizon, as the constants do.
- Shadow.Collect: the query results and the identity checks on them are left out; the oracle is any function of environment and live policy that leaves the policy alone.
- Generator.RandomPolicy.Act: products of doubles are exact reals; rounded, a coordinate may reach the upper end of its range.  The benchmark's resets reseed the policy and start the statement over.
- Statistics: percentiles and interpolation are exact rationals instead of rounded doubles.
- Records: fields that are copied without being checked are left out, and counts are the policy's own counters.
- Composition.Evaluate: the aggregate holds the three fields that the gates read; the other aggregate fields, the runner identity and the cost manifest are left out.
- Composition.EvaluatedRecomputes: speaks of that aggregate.
- Composition.MergeAgrees: slice files, embedded identities, seed registry, protocol and timing fields of the merge are left out.
- Frames: trails, drawing and encoding are left out; angles are exact and the half turn is any positive real.
- Lanes: threads and timing are left out; a lane's digest is the sequence of payloads it was fed.
- Partition: replicas run one after another; parallel execution and content hashes are left out.
- The joint planner's `_run_episode`, whose clamp at an evaluation checkpoint drops the remainder of a WAIT, `SampledOraclePolicy` and `_load_slice` would add easier members only.
- The simulator, policies, models, search teachers and file readers that the drivers import are not part of this model.
