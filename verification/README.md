# Proofs about the MRP shell, the mailbox server and the file-system tool

The repository holds three pieces of MINIX coursework in C. This project models
the parts of them with real state or recursion and proves what they keep,
compute and undo:

1. **Mailbox server** (`prj_2/src/mailbox.c`). Up to ten mailboxes, each a linked
   FIFO of capacity ten with a table of registered senders and perhaps a
   suspended receiver; a bitmask of ids; blocked senders and the mailboxes they
   wait for; and the code that looks for a circle of waiting senders and breaks
   it.
2. **Shell language** (`prj_1/valid.c`, `prj_1/exe.c`). The stack recogniser of
   `if/then/else/fi`, the interpreter that runs it by index through forks and
   pipes, and the splitting of a command into arguments.
3. **Aliases** (`prj_1/assoc_ar.c`, `prj_1/parser.c`). A hash table with a shared
   overflow area, the lines it is saved as, and the parser that reads them back.
4. **File-system tool** (`prj_3/src/mfs/misc.c`). The block walk over direct,
   single and double indirect zones with its range printer, the recursive walk
   that gathers internal fragmentation, and the inode bitmap scan.

Code that updates state in place is modelled by classes, arrays and loops, each
proved against a function on values; the laws are proved about those functions,
over every input, every run and every tree.

| files | what they hold |
|---|---|
| `WaitGraph.dfy` | the wait-for relation: chains, cycles, whom a notice wakes |
| `MailSpec.dfy`, `MailInvariants.dfy` | the server as a transition system; what every run keeps |
| `MailBox.dfy`, `MailServer.dfy` | mailbox records and the server's globals, in place |
| `MailHistory.dfy`, `MailIds.dfy` | every answer and every local id, told from the history alone |
| `MailProcesses.dfy` | the blocked processes along a run, and when they wait in a circle |
| `MailFindings.dfy`, `MailRuns.dfy` | where the server's text falls short, exactly when, and runs in which it does |
| `ShellSyntax.dfy`, `Validator.dfy`, `ValidatorExact.dfy` | the grammar and the recogniser |
| `Executor.dfy`, `Tokeniser.dfy` | the interpreter; splitting a command |
| `AliasTable.dfy`, `AliasStore.dfy` | the alias table as a value and in arrays |
| `AliasText.dfy`, `AliasCommand.dfy` | the alias command: trimming, cutting and quotes |
| `AliasReload.dfy`, `AliasFile.dfy` | its text form line by line and as a file; when saving and reloading gives it back |
| `ZoneWalk.dfy`, `ZoneFormula.dfy` | the block walk and its ranges; where block k is |
| `FragWalk.dfy`, `FragLaws.dfy`, `FragFigures.dfy` | the recursive walk and its figures; what they add up to, over the walk and over the inodes |
| `FragTree.dfy`, `FragEntries.dfy`, `FragEnds.dfy` | the recursive walk against the tree on the disk; where it comes to an end |
| `FragDisks.dfy` | disks whose tree is walked right, and disks on which it is not |
| `BitmapScan.dfy` | the inode bitmap scan |
| `Options.dfy`, `Arithmetic.dfy` | shared declarations |

## How the C text is read

The models follow the text, including its slips.

- **Mailbox text slips.** `MailSpec.Reading` has three switches: whether a
  hand-off clears `rx_suspended` (line 306 writes `==` for `=`, so it does not),
  whether the deadlock notice advances its cursor once per wake-up (lines 139 and
  147 both advance it), and what `senderDB` holds at the start (zeros, while a
  free entry is sought as -1 at line 231). `AS_WRITTEN` is the text. The theorems
  hold for all readings, except four about the text alone: `OnlyOwnersHaveIds`,
  `DepositFaultsInRun`, `StaleFlag` and `SenderWithoutIdFaults`. Three lemmas give
  the difference exactly: `WakesAllIff`, `HandOffReaches`, `OnlyOwnersHaveIds`.
- **Outside the tables.** Where the text would use index -1, an id out of range or
  an empty slot (destroy with a negative id, register with a wrong one, blocking
  without a local id, the notice running over), the outcome is `Fault` and
  nothing is claimed afterwards. `DepositFaultsIff` and
  `DepositFaultsInRun` say exactly when a deposit ends so.
- **Empty slots on look-up.** `get_mb_id` dereferences them (line 203); the model
  passes over them. `front` and `rear` of a new record, which line 277 leaves
  unset, are taken to be null.
- **After a deadlock** the depositor's own edge stays set unless it waits for
  itself. That is kept as written: no circle of local ids remains all the same.
- **Ids and processes.** The deadlock check follows local ids, and a process that
  owns two mailboxes is known by the lower one only. Such processes can wait for
  each other unseen (`UnseenCircle`, for any two processes); where no process
  creates a second mailbox they cannot (`NoCircleOfProcesses`).
- **Destroying** a mailbox asks for no permission (line 552 is switched off),
  though the manual page lists a privilege error; the model follows the code.
- **Popping stops quietly** on an empty stack (`prj_1/valid.c:75`), so a stray `fi`
  after a closed statement is accepted although the comment above it says that
  popping must meet the matching `if`.
- **A failed condition.** A process whose exec fails returns through the frames it
  inherited and writes to the pipe of every enclosing condition
  (`prj_1/exe.c:268-280`). So a condition holds when no exec attempt made while
  evaluating it failed, which is not the usual meaning for compound conditions;
  `CompoundCondition` says exactly when the two agree, `OrdinaryAttemptsIff` when
  the attempts made do.
- **Ranges.** For a file none of whose blocks is visited, the last statement of
  `fs_get_inode_blocks` prints the range from -1 to -2.
- **Directory blocks.** `zone_num << scale + i` (`prj_3/src/mfs/misc.c:905`) shifts by
  the sum. The walk reads those blocks; `RightBlockIff` and `AlignedIff` say when
  they are right. Where they are not, the walk can follow the entries of another
  directory for ever although the directories on the disk form a finite tree
  (`EndlessWalk`); `AlwaysEndsIff` gives the layouts on which it cannot.
- **Directory entries.** The walk passes over the first two entries of every block
  of a directory (`prj_3/src/mfs/misc.c:913-917` counts from 0 in each), not just
  over "." and "..", so children named there are missed; `FollowedIff` says exactly
  when none is.
- **Alias file.** The text writes one line for each alias and cuts the file at
  newlines when it reads; reading stops at the first empty line (`prj_1/mrpsh.c:160`).
- **Bitmap report.** It is printed on meeting the first bit past the map, so not at
  all when the map fills its blocks exactly.

## Model

| member | source | states |
|---|---|---|
| `MailInvariants.Run` | prj_2/src/mailbox.c:387-667 | after any sequence of create, destroy, register, deposit and retrieve, on every reading: pool bit i is set exactly for a live mailbox i; each sender table is a duplicate-free prefix, of length `num_senders` while live; queues hold at most ten; a suspended receiver means an empty queue; the wait-for relation over local ids has no cycle |
| `MailInvariants.NoCircularWait` | prj_2/src/mailbox.c:484-497 | after any run no list of local ids, however long, waits in a circle on first blocked mailboxes |
| `MailProcesses.NoCircleOfProcesses` | prj_2/src/mailbox.c:457-503 | along any run in which blocked senders make no calls and nobody creates a second mailbox, no blocked senders ever wait for each other in a circle |
| `MailProcesses.CircleNeedsSecondMailbox` | prj_2/src/mailbox.c:210-224 | without the second hypothesis: in any circle of blocked senders one is waited for at a mailbox of its own above the one whose number it blocked under |
| `MailProcesses.RunWaits` | prj_2/src/mailbox.c:457-503 | at every point of such a run the context under a blocked sender's number is its own and holds the mailbox it waits for, while it still owns the mailbox of that number |
| `MailRuns.UnseenCircle` | prj_2/src/mailbox.c:157-173 | a run, for any two processes, the first owning two mailboxes, that ends with each waiting for the other unnoticed |
| `MailInvariants.FifoAndVetted` | prj_2/src/mailbox.c:295-367 | per mailbox lifetime, messages copied to the receiver followed by those queued are the messages accepted, in order; each queued message is from a sender who passed the permission test when registering |
| `MailInvariants.HandOffReaches` | prj_2/src/mailbox.c:304-309 | a hand-off meets a receiver that is really waiting when the flag is cleared; in the text the flag says only that the receiver has ever waited, after which nothing is queued again |
| `MailInvariants.LostIff` | prj_2/src/mailbox.c:295-330 | an accepted message is queued or reaches a receiver that is waiting, except, in the text, exactly when the receiver has waited before and is not waiting now |
| `MailInvariants.StepKeeps` | prj_2/src/mailbox.c:387-667 | each system call that does not fault keeps the whole invariant |
| `MailInvariants.SuspendAcyclic` | prj_2/src/mailbox.c:457-503 | the edge a blocking deposit adds leaves every cycle passing through the depositor, and whatever the deadlock check finds, no cycle is left when the call returns |
| `MailHistory.DepositAnswer` | prj_2/src/mailbox.c:387-507 | after any run, from the events alone: the list is gone through up to the first destination that has no living mailbox (-3) or with which the sender has no registration since it was created (-5); until then each mailbox takes as many of the messages meant for it as fit in ten, or all if a receiver is thought to wait; the sender is suspended exactly when there was no refusal, a mailbox was full, it has a local id and no circle is closed, and then waits for the full ones in order |
| `MailHistory.OneAnswer` | prj_2/src/mailbox.c:417-456 | for one destination, in any state that holds its history: -3 no mailbox, -5 sender not on its roll, -1 on the roll and ten messages queued, else accepted; never -4 |
| `MailHistory.RegisterAnswer` | prj_2/src/mailbox.c:637-667 | after any run, for the creator's permission bits (1 everyone, 2 group, 4 owner, higher bits free): registered exactly when let in, not registered since the slot was filled and fewer than ten are; -2 when let in and already there; else -1 |
| `MailHistory.RegisterFaultsIff` | prj_2/src/mailbox.c:637-649 | registering runs outside the tables exactly for a slot never filled |
| `MailHistory.RetrieveAnswer` | prj_2/src/mailbox.c:509-541 | a process gets -1 without a living mailbox, 0 and the oldest message accepted and not yet copied, or is suspended when there is none |
| `MailHistory.CreateAnswer` | prj_2/src/mailbox.c:258-294 | the lowest slot without a living mailbox, or -1 when all ten live |
| `MailHistory.DestroyAnswer` | prj_2/src/mailbox.c:542-571 | -1 exactly for a mailbox destroyed before; the slot is dead afterwards |
| `MailIds.LocalIdIsTold` | prj_2/src/mailbox.c:210-241 | a process with a mailbox blocks under its lowest slot, another under ten plus its place among the senders registered while they had none; in the text only process 0 has an id without a mailbox |
| `MailIds.IdsDistinct` | prj_2/src/mailbox.c:210-241 | no two processes block under one id, but for the one that matches the initial value of `senderDB` |
| `MailInvariants.DepositKeeps` | prj_2/src/mailbox.c:387-507 | a deposit keeps the invariant and never returns -4 |
| `MailInvariants.PutMsgKeeps` | prj_2/src/mailbox.c:295-330 | taking a message from a registered sender keeps the invariant, by hand-off or by queueing |
| `MailInvariants.RetrieveKeeps` | prj_2/src/mailbox.c:509-541 | taking a message, or being suspended, keeps the invariant |
| `MailInvariants.RegisterKeeps` | prj_2/src/mailbox.c:637-667 | registering keeps the table a duplicate-free prefix of vetted senders |
| `MailInvariants.CreateKeeps` | prj_2/src/mailbox.c:258-294 | creating keeps the invariant and starts a new lifetime in the slot |
| `MailInvariants.DestroyKeeps` | prj_2/src/mailbox.c:542-571 | destroying keeps the invariant, for whichever process calls it |
| `WaitGraph.NewEdge` | prj_2/src/mailbox.c:157-173 | when every cycle passes through l, the graph is acyclic exactly when l's own chain does not come back |
| `WaitGraph.OnlyThroughMeans` | prj_2/src/mailbox.c:157-173 | every cycle passes through l exactly when the graph without l's edge is acyclic |
| `WaitGraph.WokenOnce` | prj_2/src/mailbox.c:105-154 | the notice wakes nobody twice and nobody off the cycle, at least one process, and the caller only when it waits for itself |
| `WaitGraph.WakesAllIff` | prj_2/src/mailbox.c:105-154 | it wakes every other process of the cycle exactly when it advances once per wake-up or the cycle has at most two processes |
| `WaitGraph.WakingBreaks` | prj_2/src/mailbox.c:105-154 | waking anybody on the cycle leaves no cycle anywhere |
| `WaitGraph.ChainFresh` | prj_2/src/mailbox.c:159-171 | while the chain has not come back to its start it meets no process twice, which is why the check ends |
| `MailServers.MailServer.Handle` | prj_2/src/table.c:97-127 | every system call on the globals is one step of the transition system, and faults exactly when it does |
| `MailServers.MailServer.CheckDeadLock` | prj_2/src/mailbox.c:157-173 | when every cycle passes through l the chase ends and answers whether the chain from l comes back to l |
| `MailServers.MailServer.IndicateDeadLock` | prj_2/src/mailbox.c:105-154 | on a cycle the loop ends, having cleared exactly the contexts of the processes `Woken` lists and no other, or runs over exactly when there is no such list |
| `MailServers.NoticeIsWoken` | prj_2/src/mailbox.c:113-152 | the loop of the notice, taken turn by turn, comes to the closed form: whom it wakes, in which order, and the contexts it leaves |
| `MailServers.MailServer.DepositMessage` | prj_2/src/mailbox.c:387-507 | delivers along the list up to the first error, blocks on full mailboxes, breaks a deadlock, as the step says, whose answers `DepositAnswer` gives from the history; no local ids wait in a circle afterwards |
| `MailServers.MailServer.SendAll` | prj_2/src/mailbox.c:417-456 | the destination loop: messages delivered so far stay delivered on an error, and the full mailboxes are collected in order |
| `MailServers.MailServer.BlockSender` | prj_2/src/mailbox.c:457-503 | blocks the sender or breaks the deadlock it would close |
| `MailServers.MailServer.RetrieveMessage` | prj_2/src/mailbox.c:509-541 | hands the oldest message to the owner of a mailbox or suspends it |
| `MailServers.MailServer.CreateMailBox` | prj_2/src/mailbox.c:258-294 | takes the lowest clear id and resets the slot, or fails when none is clear |
| `MailServers.MailServer.DestroyMailBox` | prj_2/src/mailbox.c:542-571 | empties the record in its slot and frees the id |
| `MailServers.MailServer.RegisterSender` | prj_2/src/mailbox.c:637-667 | enters a permitted sender at the first free entry and gives it a local id; -2 if already there, -1 if refused or full, which `RegisterAnswer` decides from the history |
| `MailServers.MailServer.TakeFreeId` | prj_2/src/mailbox.c:177-189 | the lowest clear bit of the pool is set and returned, or -1 when all ten are set |
| `MailServers.MailServer.DropId` | prj_2/src/mailbox.c:190-198 | the bit is clear afterwards; -1 if it was already |
| `MailServers.MailServer.FindLocalId` | prj_2/src/mailbox.c:210-224 | the slot of the caller's own mailbox, else its entry in the sender table |
| `MailServers.MailServer.SetLocalId` | prj_2/src/mailbox.c:225-241 | a sender without a mailbox gets the first free entry from position ten on |
| `MailServers.BitOps` | prj_2/src/mailbox.c:177-198 | setting and flipping bit i of the pool touch bit i and no other |
| `MailBoxes.MailBox.Put` | prj_2/src/mailbox.c:295-330 | refuses at ten messages, hands over to a suspended receiver, else appends at the rear of the linked list |
| `MailBoxes.MailBox.Get` | prj_2/src/mailbox.c:332-367 | removes the first message of the linked list, keeping the order of the rest |
| `MailBoxes.MailBox.CheckSender` | prj_2/src/mailbox.c:370-383 | -1 for a destroyed mailbox, 1 exactly when some entry in use is the sender, else 0 |
| `MailBoxes.MailBox.AddSender` | prj_2/src/mailbox.c:649-664 | first entry that is the sender or free decides: -2, entered, or -1 when full |
| `MailFindings.DepositFaultsIff` | prj_2/src/mailbox.c:457-497 | a deposit leaves the tables exactly when the sender must block and has no local id, or, advancing twice, closes an odd cycle of three or more |
| `MailFindings.StaleFlag` | prj_2/src/mailbox.c:304-308 | a run of the text after which the flag is up with nobody waiting |
| `MailFindings.OnlyOwnersHaveIds` | prj_2/src/mailbox.c:225-241 | with `senderDB` left at zero, a sender other than process 0 has a local id exactly when it owns a mailbox |
| `MailFindings.ThreeRunsOver` | prj_2/src/mailbox.c:128-147 | on any circle of three ids the text runs over; advancing once wakes the other two |
| `MailRuns.RingOfThree` | prj_2/src/mailbox.c:105-154 | a run, for any three processes, that ends with the third closing a circle: the text runs outside the tables, advancing once answers the two blocked senders |
| `MailRuns.SenderWithoutIdFaults` | prj_2/src/mailbox.c:457-462 | a run of the text, for any two processes, in which a registered sender fills a mailbox and its next message runs outside the tables |
| `MailRuns.DepositFaultsInRun` | prj_2/src/mailbox.c:457-497 | after any run of the text a deposit by a process other than 0 leaves the tables exactly when it must block and the sender owns no mailbox or closes an odd circle of three or more |
| `Validator.Validate` | prj_1/valid.c:29-100 | the array-stack loop accepts exactly what the scan on values accepts |
| `Validator.DerivableIsAccepted` | prj_1/valid.c:40-99 | every statement of the grammar followed by words is accepted, at any nesting |
| `Validator.DerivableStops` | prj_1/valid.c:72-94 | in a derivable line no keyword follows the `fi` that closes the first `if` |
| `ValidatorExact.AcceptsIffDerivable` | prj_1/valid.c:40-99 | a line starting with `if` is derivable exactly when it is accepted and no keyword follows the closing `fi` |
| `ValidatorExact.AcceptedBeginsWithStmt` | prj_1/valid.c:40-99 | every accepted line starting with `if` begins with a complete statement, so the interpreter is never started on anything else |
| `ValidatorExact.AcceptsIffTail` | prj_1/valid.c:40-99 | a line starting with `if` is accepted exactly when it is a statement followed by a tail that passes from an empty stack, the symbol popped last being carried over |
| `ValidatorExact.FisAndWordsAccepted` | prj_1/valid.c:72-94 | on an empty stack any sequence of words and `fi` passes, whatever was popped last |
| `ValidatorExact.NoIfInTail` | prj_1/valid.c:40-46 | after a closed statement and any words and `fi` no `if` passes, whatever follows it |
| `ValidatorExact.TailsOfLines` | prj_1/valid.c:46-94 | after any statement, an else part with its `fi`, and a then and an else part with their `fi`, are accepted whatever bodies they have; a lone then part is not |
| `ValidatorExact.GroupIff` | prj_1/valid.c:46-94 | on an empty stack a keyword, words and a `fi` pass exactly when the keyword is the one due after the symbol popped last, which it then is |
| `ValidatorExact.StrayFiAccepted` | prj_1/valid.c:72-94 | a stray `fi` after a closed statement is accepted and not derivable, for all words |
| `Executor.Shell.Execute` | prj_1/exe.c:147-302 | on a body anywhere in the token array, with any tokens around it, the attempts made are those of the evaluator on the tree, as many processes come back from the call as attempts failed, and the pipe of each condition has been written three bytes for each attempt that failed in it, in the order the conditions are decided |
| `Executor.Shell.ExecuteSingle` | prj_1/exe.c:113-146 | one attempt; a process comes back exactly when it fails |
| `Executor.Shell.RunLine` | prj_1/valid.c:29-100 | a line the recogniser lets through runs as the statement it begins with; one it refuses runs nothing |
| `Executor.EvalCounts` | prj_1/exe.c:255-290 | the evaluator only adds attempts, and its count is that of the failures among those added, so a condition holds exactly when none failed |
| `Executor.UnspoiltIsOrdinary` | prj_1/exe.c:255-290 | when every condition on the path taken, and inside those, that succeeds in the usual sense has no failed attempt before its last, the attempts are the usual ones |
| `Executor.OrdinaryAttemptsIff` | prj_1/exe.c:255-290 | where the then and else parts of every statement begin with different commands, the attempts are the usual ones exactly then |
| `Executor.PlainConditionsOrdinary` | prj_1/exe.c:284-290 | with single-command conditions the attempts are the usual ones: then-body if the condition could be exec'd, else-body if not |
| `Executor.CompoundCondition` | prj_1/exe.c:268-290 | any condition, however nested, holds exactly when it holds in the usual sense and none of its usual attempts before the last failed |
| `Executor.NothingFails` | prj_1/exe.c:268-290 | when no attempt fails the shell's evaluation is the usual one |
| `Executor.TaintedCondition` | prj_1/exe.c:268-290 | a condition that succeeds in the usual sense and is taken for false |
| `Executor.FindMarks` | prj_1/exe.c:224-247 | the depth-counting loop returns the positions found by the scan |
| `Executor.MarksOwn` | prj_1/exe.c:224-247 | for a statement anywhere in the array these are its own `then`, `else` and `fi`, never those of a nested one |
| `Tokeniser.CountSpaces` | prj_1/exe.c:33-48 | the number of spaces outside quotes |
| `Tokeniser.SplitCommand` | prj_1/exe.c:51-112 | every piece is stored, in order, inside the table allocated at line 117, and a null entry ends it |
| `Tokeniser.SplitUndoesQuoting` | prj_1/exe.c:51-112 | for every non-empty list of quote-free strings, splitting their quoted forms joined by single spaces gives the list back |
| `Tokeniser.SplitKeepsText` | prj_1/exe.c:51-112 | for every input the pieces joined by spaces are the input without quotes, less one final unquoted space, with at most one piece more than counted spaces |
| `Tokeniser.PieceCount` | prj_1/exe.c:62-112 | one piece per unquoted space, and one more unless the last character is such a space |
| `AliasTable.GetHash` | prj_1/assoc_ar.c:28-35 | the hash is the folded sum of the signed characters, below 256 |
| `AliasTable.HashIs` | prj_1/assoc_ar.c:28-35 | whatever the characters sum up to, the hash is its low byte plus its second byte, modulo 256 |
| `AliasTable.AnagramsCollide` | prj_1/assoc_ar.c:28-35 | keys made of the same characters share a slot |
| `AliasStore.AssocArray.constructor` | prj_1/assoc_ar.c:12-26 | the arrays hold the empty table |
| `AliasStore.AssocArray.Add` | prj_1/assoc_ar.c:39-76 | the arrays become those of the table with the entry added, in its main slot or in the overflow area |
| `AliasStore.AssocArray.Get` | prj_1/assoc_ar.c:78-114 | finds the value in the main slot or the overflow area, or none |
| `AliasStore.AssocArray.WriteAlias` | prj_1/assoc_ar.c:115-136 | the text written is one line for each main slot in use, in slot order, and nothing for the overflow area |
| `AliasTable.TableIsMap` | prj_1/assoc_ar.c:39-114 | after any additions look-up returns the last value added or none, no key is held twice, overflow keys lie behind a slot held by another key, and the two sizes add up to the size of the map |
| `AliasTable.AddIsMap` | prj_1/assoc_ar.c:39-76 | addition updates the map at the key and nowhere else |
| `AliasTable.GetIsMap` | prj_1/assoc_ar.c:78-114 | look-up is look-up in the map |
| `AliasTable.AddThenGet` | prj_1/assoc_ar.c:39-114 | after an addition the key gives the new value and every other key what it gave |
| `AliasTable.SizeIsMap` | prj_1/assoc_ar.c:39-76 | used main slots and overflow entries together count the keys |
| `AliasText.CleanCmd` | prj_1/parser.c:175-199 | in place: what is left begins and ends with no blank, everything before and after it was blank, tabs in it became spaces, nothing else changed, and terminators follow |
| `AliasText.ParseAlias` | prj_1/parser.c:37-63 | the `strtok` loop yields the pieces of the command, which `PiecesOf`, `RunsOfMesh` and `QuoteCosts` determine |
| `AliasCommand.QuotedAlias` | prj_1/parser.c:37-63 | with any blanks around it, `alias k="w"` defines k as w, for every w without `=`, tabs in both become spaces |
| `AliasCommand.OneQuote` | prj_1/parser.c:50-59 | a value with one quote loses just the quote if it comes first, else its first and its last character |
| `AliasCommand.QuoteCosts` | prj_1/parser.c:50-59 | what becomes of any piece with quotes in it |
| `AliasCommand.PiecesOf` | prj_1/parser.c:43-60 | pieces with any number of `=` signs before, between and after them are the parameters, unquoted |
| `AliasCommand.RunsOfMesh` | prj_1/parser.c:43-60 | cutting such a text at the signs gives the pieces back |
| `AliasCommand.EveryMesh` | prj_1/parser.c:43-60 | every text is made up so, of the pieces the cutting gives |
| `AliasCommand.CleanedIs` | prj_1/parser.c:175-199 | blanks around a text go, tabs in it become spaces, nothing else changes |
| `AliasFile.ReadingEnds` | prj_1/mrpsh.c:299-322 | an empty line ends the reading whatever follows; a last line need not end in a newline |
| `AliasFile.GetLine` | prj_1/mrpsh.c:299-322 | the read loop takes the file up to the next newline and leaves the rest |
| `AliasFile.ReadBackIff` | prj_1/assoc_ar.c:115-136 | the text saved for an alias is read as that alias and nothing else exactly when key and value are non-empty, free of `=`, quotes, tabs and newlines, and the value does not end in a blank |
| `AliasFile.SaveThenReload` | prj_1/assoc_ar.c:115-136 | if every entry in a main slot is such, reading the saved file restores every main slot and drops the overflow entries, and look-up answers accordingly |
| `AliasFile.ReloadIff` | prj_1/assoc_ar.c:115-136 | reading the saved file gives the main slots back exactly when every entry in them is such |
| `AliasFile.CutAll` | prj_1/mrpsh.c:299-322 | any non-empty newline-free lines written one after the other are cut into the same lines |
| `AliasReload.LinesReloadIff` | prj_1/parser.c:37-63 | the same over the lines as written, where newlines inside entries would survive |
| `AliasReload.LineLoses` | prj_1/parser.c:37-63 | reading a saved line never adds an entry longer than the one it was written for, and as long a one only if it reads back right but for tabs |
| `AliasText.ReloadFirst` | prj_1/parser.c:37-63 | after each number of lines the table holds exactly the slots written so far |
| `ZoneWalk.Walker.GetInodeBlocks` | prj_3/src/mfs/misc.c:687-777 | with holes anywhere, the blocks visited are the first ceil(size / block size) blocks of all non-empty zones, direct, single, then double indirect; end of file is raised exactly when that many were visited; the ranges printed encode the visit maximally |
| `ZoneWalk.Walker.GetDirZone` | prj_3/src/mfs/misc.c:541-602 | visits the blocks of a zone up to the countdown |
| `ZoneWalk.Walker.GetSingle` | prj_3/src/mfs/misc.c:512-538 | visits the blocks behind a single indirect zone up to the countdown |
| `ZoneWalk.Walker.GetDouble` | prj_3/src/mfs/misc.c:483-509 | visits the blocks behind a double indirect zone up to the countdown |
| `ZoneWalk.Walker.Visit` | prj_3/src/mfs/misc.c:571-591 | the ranges printed and the one begun encode the blocks visited, losing none and leaving no two that could be merged |
| `ZoneWalk.MaximalUnique` | prj_3/src/mfs/misc.c:571-584 | a block sequence has only one such encoding, so the printed ranges are determined by it |
| `ZoneFormula.HoleFreeFile` | prj_3/src/mfs/misc.c:483-602 | for a file without holes that fits the tables, block k visited is block k mod b of zone k div b, the zone found by div and mod in the three tables |
| `FragWalk.FragStats.FindIntFrag` | prj_3/src/mfs/misc.c:778-831 | from any inode with a rank, which exist exactly where the walk ends (`EndsRanked`, `RankedEnds`), the mutual recursion ends and has seen exactly the trace of what it follows; at every point the figures are those of what has been seen, which `FiguresAre` ties to the inodes on the disk |
| `FragWalk.FragStats.DirZone` | prj_3/src/mfs/misc.c:888-929 | reads the directory blocks of a zone up to the countdown and follows their entries |
| `FragWalk.FragStats.SingleInd` | prj_3/src/mfs/misc.c:862-887 | the zones behind a single indirect zone, in order, up to the countdown |
| `FragWalk.FragStats.DoubleInd` | prj_3/src/mfs/misc.c:833-859 | the zones behind a double indirect zone, in order, up to the countdown |
| `FragWalk.FragStats.Enter` | prj_3/src/mfs/misc.c:796-803 | entering one slack value keeps total, count, least, greatest and all eight bins right |
| `FragWalk.BinIff` | prj_3/src/mfs/misc.c:803 | the bin index is in range, and is k exactly for the slack values v with k bs <= 8 v < (k+1) bs |
| `FragLaws.BinsSumToEntries` | prj_3/src/mfs/misc.c:778-831 | the eight bins sum to the number of entries |
| `FragLaws.MinSumMax` | prj_3/src/mfs/misc.c:649-657 | with an entry present, least and greatest are entries, bound them all, and n least <= total <= n greatest |
| `FragLaws.Conservation` | prj_3/src/mfs/misc.c:778-929 | sizes plus fragmentation equal the blocks used times the block size, plus the slack of each directory once more for every direct zone beyond its first; entries less directories count the files, plus those same extra zones |
| `FragLaws.ConservedIff` | prj_3/src/mfs/misc.c:807-820 | sizes plus fragmentation fill the blocks exactly when every directory seen takes up one direct zone or fills its last block |
| `FragLaws.VisitedFilesCountedIff` | prj_3/src/mfs/misc.c:660 | the number of files printed is the number of files the walk visited exactly when every directory seen takes up one direct zone |
| `FragEnds.EndsRanked` | prj_3/src/mfs/misc.c:778-929 | the depths of the walk, taken wherever it ends, are ranks: every entry followed has a lower one |
| `FragEnds.RankedEnds` | prj_3/src/mfs/misc.c:778-929 | where there is a rank the walk ends, at no greater depth |
| `FragEnds.TreeWalkEnds` | prj_3/src/mfs/misc.c:778-929 | on a finite tree the walk ends, no deeper than the tree, when from each member it follows only entries that name children of that member |
| `FragEnds.AlignedTreeEnds` | prj_3/src/mfs/misc.c:904-907 | so it ends on every finite tree whose directories are read from the right blocks, in particular whenever a zone is one block |
| `FragEnds.IntFragOfTree` | prj_3/src/mfs/misc.c:604-684 | on such a tree the call returns, with the figures of what it has seen, whatever is elsewhere on the disk |
| `FragEnds.AlwaysEndsIff` | prj_3/src/mfs/misc.c:778-929 | for a layout with two directories that have blocks, besides the root: the walk ends on every tree the entries can make exactly when each directory that can be walked to reads only blocks of its own |
| `FragEnds.EndsAnywhere` | prj_3/src/mfs/misc.c:778-929 | on a layout with that property the walk ends from every inode, the root included |
| `FragEnds.EndlessWalk` | prj_3/src/mfs/misc.c:905 | a disk whose directories form a finite tree, two blocks to a zone, on which the walk does not end and no ranks exist |
| `FragDisks.FilesCountedIff` | prj_3/src/mfs/misc.c:660 | where the walk follows the children of every inode of the tree on the disk, it ends and the number printed is the number of files in that tree exactly when every directory takes up one direct zone |
| `FragDisks.IntFragOfWholeTree` | prj_3/src/mfs/misc.c:604-684 | where the walk follows the children of every inode of the tree, the call returns and its figures are the sums over the members of the tree |
| `FragEntries.FollowedNames` | prj_3/src/mfs/misc.c:913-923 | an inode is followed exactly when it is named by an entry from the third on in a block read, and is neither below 2 nor the directory itself |
| `FragEntries.ChildrenNames` | prj_3/src/mfs/misc.c:913-923 | a child is what any entry of the directory's own blocks names, but for the first two of the first block |
| `FragDisks.FollowedVisitsAll` | prj_3/src/mfs/misc.c:778-929 | under that hypothesis the walk ends and sees exactly the members of the tree, in order |
| `FragTree.VisitsTree` | prj_3/src/mfs/misc.c:778-929 | the inodes the walk sees are the members of the tree of entries it follows, each directory before what is in it |
| `FragTree.WalkIsTreeIff` | prj_3/src/mfs/misc.c:778-929 | that tree is the tree on the disk exactly when the walk follows the children of every inode in it |
| `FragDisks.OneBlockVisitsAll` | prj_3/src/mfs/misc.c:888-929 | when no directory of the tree takes more than one block, the walk ends and sees exactly the members of the tree, in order |
| `FragTree.FollowedIff` | prj_3/src/mfs/misc.c:913-923 | a directory whose blocks are read right has all its children followed exactly when none is named in the first two entries of a block after the first |
| `FragTree.AlignedIff` | prj_3/src/mfs/misc.c:904-907 | the directory walk reads the blocks the file walk visits exactly when a zone is one block, or there is at most one block to read, or none to be found |
| `FragTree.DirBlocks` | prj_3/src/mfs/misc.c:807-887 | the directory walk takes the zones in the order of the file walk, direct, single, then double indirect, over holes and up to the countdown |
| `FragDisks.MisreadBlock` | prj_3/src/mfs/misc.c:905 | a disk with two blocks to a zone on which a file is not visited, though its directory takes up one direct zone |
| `FragDisks.PassedEntries` | prj_3/src/mfs/misc.c:913-917 | a disk with one block to a zone on which the files named first in a second block are not visited |
| `FragDisks.FileTooMany` | prj_3/src/mfs/misc.c:660 | on that disk a number of files above 0 is printed and none is visited |
| `FragDisks.SlackTwice` | prj_3/src/mfs/misc.c:807-820 | a directory of 15 bytes in two zones of one block of 10: sizes plus fragmentation exceed the blocks |
| `FragLaws.OneTurnIff` | prj_3/src/mfs/misc.c:809-821 | a directory takes up one direct zone exactly when there is only one or all its blocks are in the first |
| `FragLaws.TraceBalanced` | prj_3/src/mfs/misc.c:807-831 | over the whole recursion the direct zones seen are those the directories announced, for every weight given to a size |
| `FragFigures.GetIntFrag` | prj_3/src/mfs/misc.c:604-684 | the figures printed, over the inodes seen: directories and blocks once each; slack, entries and all eight bins once for each file and once for each direct zone a directory takes up; least and greatest are slack values of such inodes and bound them all |
| `FragFigures.FiguresAre` | prj_3/src/mfs/misc.c:778-831 | with multiplicities, the slack values entered are those the inodes seen have on the disk; so are sizes, blocks, files and directories |
| `FragFigures.ExtremesAre` | prj_3/src/mfs/misc.c:797-798 | least and greatest, in terms of the inodes seen |
| `FragFigures.ShareIs` | prj_3/src/mfs/misc.c:809-821 | a directory takes up direct zones up to the first that completes its blocks, or all of them |
| `FragLaws.RightBlockIff` | prj_3/src/mfs/misc.c:904-907 | the block number computed is the i-th block of the zone only for i = 0 |
| `BitmapScan.FragInFS` | prj_3/src/mfs/misc.c:47-161 | the four loops keep the bit number equal to the inodes scanned, look at each allocated inode from 1 on once and never at bit 0, and end with the sum and the greatest of their fragments, each the blocks missing to whole zones from the least number of blocks that hold the inode's size |
| `BitmapScan.FragInInode` | prj_3/src/mfs/misc.c:165-186 | with u the least number of blocks that hold the size, the least number that makes u whole zones |
| `BitmapScan.FragIsLeast` | prj_3/src/mfs/misc.c:179-182 | the remainder computed is the least number of blocks that makes the used blocks whole zones |
| `BitmapScan.FragIsFrag` | prj_3/src/mfs/misc.c:178-182 | the blocks taken as used are the least that hold the size, and the fragment is the only number that fills up their last zone |
| `BitmapScan.BitIsDigit` | prj_3/src/mfs/misc.c:144 | the bit looked at is the binary digit of that weight |
| `BitmapScan.InodesAre` | prj_3/src/mfs/misc.c:106-155 | the inodes looked at are exactly those allocated, increasing |
| `BitmapScan.UsedPlusFrag` | prj_3/src/mfs/misc.c:143-152 | used blocks and fragments together are blocks per zone times zones |
| `BitmapScan.FragMaxIs` | prj_3/src/mfs/misc.c:150 | the greatest fragment bounds them all and is one of them |

## Left out

- Kernel input and output: `sys_datacopy`, `reply`, endpoints and `printf`. A hand-off or a revival is an event in the server's history.
- Mailbox calls before the first create, when the tables do not exist yet.
- `suspended_sender`, `sus_sender_idx` and `num_active_mailboxes`, which are written and never read.
- Entries after the first of `suspened_for`: kept in the contexts, but the deadlock code follows only the first, and so do the claims.
- Liveness: `do_retrieve` never revives a blocked sender, so nothing is claimed about senders getting through.
- `do_get_av_mailboxes` and `do_get_senders`, which are plain listings.
- The shell's `|`, `>`, `cd`, `set` and `exit` arms, and real fork, pipe and exec. A word stands for a command other than these; whether it can be exec'd is an oracle over the attempts made before.
- `validateCommand`, the main loop of `parseCmd` and its `set` branch, and `signal.c`.
- The main loop of `prj_1/mrpsh.c`, which also drops the first alias line when it loads a profile; saving and reloading is stated for the functions themselves.
- Executor.Shell.ExecuteSingle: a word is one whole command; its splitting into arguments is modelled apart (`Tokeniser.SplitCommand`), the arms `cd`, `set` and `exit` are left out, and whether exec succeeds is an oracle.
- Fixed 256-byte buffers, allocation failure and the hit counts of the alias table.
- `strtok` and `getMsg` writing into shared buffers: tokens and messages are values.
- AliasStore.AssocArray.Add: requires room in the overflow area when the key needs a new entry there; the text prints a warning when the eighth slot is filled and would write past the arrays at the ninth.
- AliasText.CleanCmd: requires a character that is not blank; on a buffer of blanks the text runs off its front.
- Validator.Validate: requires at most 1000 tokens and a first token other than `then`, `else` or `fi`; the text has a stack of 1000 and looks at the token before the first.
- 32-bit wrap-around of sums, counters and block numbers; `ceil` on doubles is the integer ceiling.
- `get_block`, `get_inode` and `rd_indir` succeed and return what is on the disk; the branch for a block of another device is not modelled.
- Blocked senders are taken to make no calls: the system keeps them waiting. Waiting receivers are not part of the circles.
- FragWalk.FragStats.FindIntFrag: requires ranks from the inode it starts at, which exist exactly where the recursion of the text returns; on a finite tree it need not (`EndlessWalk`), and nothing is claimed of a walk that does not end.
- `computeExtFragInFS` and `computeExtFragInInode`, copies of the bitmap pair; the percentage in floating point, averages, and `min_efrag`, which starts at 0 and never changes.
- `prj_3/src/vfs/request.c`, `prj_3/src/fs_tool.c`, the library wrappers and the command-line tools.
