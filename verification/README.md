# A verified model of the TF-M demo firmware

This project models four parts of the firmware repository in Dafny and proves what they promise:

1. **The secure partition call machine.** A service call blocks the caller, records a back-pointer and the saved
   stack registers in the callee's database row, switches stacks and takes the "big lock" once more; a return undoes
   this. The call stack is never stored as a stack. `PartitionDb` and `CallMachine` say what one request, one return
   and one set-buffer call do; `CallRuns`, `CallTheorems` and `CallGuarantees` prove what holds in every state of
   every run, `CallAnswers` what each call answers at any point of a run in terms of its arguments alone; `NsLock` puts
   the non-secure mutex and any number of threads in front, `NsProgress` says who gets through; `Boot` covers the way
   from an empty database to the first non-secure instruction, `BootGuarantees` what it hands over; `SecureCore` is the
   imperative code, a class whose methods update the database in place and are proved against the functions above.
2. **The audit log.** Variable-length entries in a 1024-byte circular buffer, found only through the size word of the
   entry before. `AuditRing` is the byte level, `AuditQueue` the log as a queue and what its runs keep, `AuditForward`
   the loop that retrieves from an index, `AuditLog` the class with the two byte arrays.
3. **Keyword substitution.** Key chains of a template line expanded over a tree of dictionaries and lists.
   `KeywordTree` gives the ordered-product meaning, `KeywordSubstitution` the engine with its loops,
   `KeywordChoices` a second meaning by choice of list elements, and the proof that the two agree; `KeywordOrder` in
   which order the choices come.
4. **The JSON Web Token builder.** A streaming base64url encoder into a bounded, NUL-terminated buffer. `Base64Url`
   is the one-shot encoder with an independent strict decoder (section 5 of RFC 4648, unpadded as in section 2 of
   RFC 7515), `JwtBuilder` the streaming builder and the compact form (section 7.1 of RFC 7515).

`Words`, `Options` and `Distinct` hold 32-bit words, an optional value and sequences of different numbers.

Where the code does not do what one would expect of it, the code is kept and the exact condition is proved:

- The audit log's recorded size is the true one plus what partial deletes removed since the last reset
  (`SlackIsExcess`): an init, a delete of everything, or an added line for which there is no room even in the emptied
  log. So the reported size is true if and only if every partial delete was followed by a reset (`ExactIffSettled`),
  and `READ_RECENT` is right if and only if that holds or the request is smaller than what is really stored
  (`RecentCorrectInEveryRun`). `RecentMissesExample` is a failing run of three operations.
- The loop that retrieves from an index is not bounded by the number of entries. It runs past the newest entry if and
  only if room is left and the stale word behind that entry fits it (`ForwardOverrunsExactly`).
  `ForwardOverrunExample` is a case that needs no delete: two lines of no content on a fresh log, and a request for 48
  bytes from the second. The loop never ends if and only if a counted size comes again within the first 257 rounds, all
  of them taken (`NeverEndsExactly`); `NeverEndsExample` is a run of three operations that leads there. It does not run
  forever when no size it is announced is 0 or wraps around (`GrowingLoopEnds`), and a loop that ends takes at most 256
  rounds (`EndsSoon`).
- The token builder does not clear its pending-byte cells. A text is the token if and only if no stale bits reach the
  first section that is not empty (`StreamedTextExact`, `BuiltTextExact`). The builder always starts with its JSON
  header, which is longer than a group of three bytes, so with the JSON encoder succeeding its texts are always tokens
  (`BuildToken`); `StaleCellExample` shows what the header's length guards against.
- Expansion that meets a leaf as a list element or as the whole database does not give a list of rows; `None` stands
  for that. It happens exactly when `LeafReached` holds (`Substitute`), never when list elements are dictionaries or
  lists (`BranchElementsSuffice`), always when a plain value is an element of the list being expanded
  (`LeafListFails`).

- At level 3 an untrusted partition's init function is entered with thread mode unprivileged, and the pop of any
  untrusted partition makes it privileged. So inside an init function thread mode is unprivileged if and only if the
  partition is untrusted and no call it made has returned from an untrusted one (`InitPrivilegeExactly`).

Modelling decisions:

- A processor exception entry or return on the process stack is `psp` minus or plus 0x20. A function that ends in the
  error handler's infinite loop halts the machine with a reason. Statuses are the internal ones, before the error
  status is hidden from non-secure callers.
- The exception register accepts a write only with the key 0x05FA and reads the key back as 0xFA05. Putting it back
  clears its PRIS bit, which only the configure call sets; from a boot with that bit clear the register at rest is
  always the one boot left (`RegisterAtRestInEveryState`).
- A request names a registered partition, because the code does not test the invalid index it would otherwise get.
- Boot covers init functions that all succeed, because the handler of a failed init passes a partition ID where an
  index is expected. What an init function does is an arbitrary list of actions. That the inits are stack-balanced is
  asked for only where the user stacks are the point.
- The partition database is a sequence of the registered rows with the capacity of the array (8).
- The result of the secure-caller check, the JSON encoder's output and result, and the crypto library's answers are
  parameters; the signature is any function of the text that is signed.
- A key chain is a sequence of keys and a template line a sequence of text and chain segments. The missing-key
  actions are 'report' and 'replace'.

## Model

| member | source | states |
|---|---|---|
| `CallTheorems.CallChainInEveryState` | secure_fw/core/tfm_secure_api.c:66-292 | In every state of every run after boot, at both isolation levels, the caller links from the running partition form a finite duplicate-free chain ending at the non-secure partition; its head is the only RUNNING partition, the rest exactly the BLOCKED ones, its length is the lock plus one, the lock lies between 0 and the partition count minus one, and all other partitions are as boot left them |
| `CallRuns.StepKeepsInv` | secure_fw/core/tfm_secure_api.c:493-531 | Every request, return, set-buffer call and stack movement keeps the invariant that the suspended requests, the rows, the running index and the lock describe one chain |
| `CallRuns.RequestKeepsInv` | secure_fw/core/tfm_secure_api.c:126-192 | An accepted request extends the chain by the named partition, which was not on it |
| `CallRuns.ReturnKeepsInv` | secure_fw/core/tfm_secure_api.c:194-292 | A return pops the newest suspended request, never halts on unlock or link register, and restores what that request found |
| `CallRuns.ReturnRestores` | secure_fw/core/tfm_secure_api.c:702-762 | The return handler's pop succeeds and its link-register test passes whenever the running row is linked to the suspended request |
| `CallGuarantees.NestedCallRestores` | secure_fw/core/tfm_secure_api.c:142-147 | For any well-nested run between a request and its matching return, the return gives back all partition states and caller links, live saved registers, running index, lock and stack limit, the share modes recorded by the caller and its callers, and the stack pointer where the call switched stacks |
| `CallGuarantees.CallRestoresInEveryRun` | secure_fw/core/tfm_secure_api.c:268-289 | The same at any point of any run after boot; at level 3 a secure caller also gets the share mode programmed into hardware back |
| `CallGuarantees.UnlockHaltsUnreachable` | secure_fw/core/tfm_secure_api.c:738-759 | No run after boot reaches the unlock-error or the link-register halt |
| `CallGuarantees.StacksReadyInEveryState` | secure_fw/core/tfm_secure_api.c:133-140 | At level 3, from a boot that left the user stacks at their tops and with stack-balanced secure functions, every idle user partition has its saved stack pointer at its stack top in every reachable state: frame, exception stacking and the 0x20 discount cancel |
| `CallGuarantees.ReturnedStackPtr` | secure_fw/core/tfm_secure_api.c:269-273 | The pop stores the stack pointer the secure function had at its return, the SVC frame discounted |
| `CallGuarantees.ShareProgrammedInEveryState` | secure_fw/core/tfm_secure_api.c:242-254 | At level 3 after boot, while a secure partition runs, the share mode in hardware is the one its row records, through any nesting of calls, returns and set-buffer requests |
| `CallGuarantees.DeconfigureUsesOwnSave` | secure_fw/core/tfm_secure_api.c:347-399 | In every run a return to the non-secure side uses the register value saved by its own request; the register comes back unchanged if and only if PRIS was clear at entry |
| `CallGuarantees.RegisterAtRestInEveryState` | secure_fw/core/tfm_secure_api.c:376-399 | From a boot with PRIS clear, in every run, whenever no request is suspended the exception register is the one boot left |
| `CallGuarantees.RunKeepsSave` | secure_fw/core/tfm_secure_api.c:517-528 | Only the request that enters from the non-secure side configures, so the single save slot is never overwritten while live |
| `CallGuarantees.AcceptedExactly` | secure_fw/core/tfm_secure_api.c:302-345 | After boot a request is accepted if and only if it is well formed, comes from the running side in the mode that side must use, and names a partition that rests idle and is not on the call chain |
| `CallTheorems.StaticInEveryState` | secure_fw/spm/spm_db_setup.h:34-57 | In every state of every run after boot each row has the identifier, flags, init function and stack area boot left it with |
| `CallAnswers.CalleeStartsAt` | secure_fw/core/tfm_secure_api.c:126-192 | At any point of any run after boot, where an accepted request starts its callee: share mode NS_CODE for a non-secure caller and SCRATCH otherwise, at level 3 also in hardware; the stack pointer and limit of the callee at level 3, of the shared stack at level 1 for a non-secure caller, the caller's own for a level 1 call between partitions; and the stack pointer a secure caller leaves in its row at level 3 |
| `CallAnswers.RefusedExactly` | secure_fw/core/tfm_secure_api.c:78-124 | At any point of any run after boot, each refusal if and only if its reason holds: malformed, wrong exception mode, non-secure thread mode, non-secure request while a call is in progress, callee on the call chain |
| `CallAnswers.ReturnHaltsExactly` | secure_fw/core/tfm_secure_api.c:718-736 | At any point of any run after boot, a return halts if and only if it goes through the return SVC with a value from 1 to 0x1F other than 2, and then as a reserved value; a direct return, which is a level 1 return to a secure caller, never halts |
| `CallAnswers.ReturnLeaves` | secure_fw/core/tfm_secure_api.c:222-291 | What a return leaves: all rows, with the callee's cleared but for the stack pointer it returned with at level 3, and the caller's running; the share mode of a secure caller in hardware at level 3, the old one otherwise |
| `CallAnswers.SetBufferExactly` | secure_fw/core/tfm_secure_api.c:764-811 | At any point of any run after boot, for a set-buffer call inside a request: 1 sets NS_CODE, 2 SCRATCH, 4 NS_CODE if and only if the newest request came from the non-secure side, at level 3 also in hardware, and nothing else changes; any other argument, and any call from a partition that is not secure, is refused and changes nothing |
| `CallAnswers.DefaultShareIsTheRequests` | secure_fw/core/tfm_secure_api.c:789-793 | At any point inside a call, whatever it did before, argument 4 gives back the share mode its own request set |
| `CallAnswers.RunKeepsPrivilege` | secure_fw/core/tfm_secure_api.c:97-115 | Once boot is over, no run changes the privilege of thread mode |
| `NsLock.EveryEntryFindsSecureSideAtRest` | interface/src/tfm_ns_lock_rtx.c:87-119 | For any number of threads and any interleaving through the dispatcher, a request that passed the mutex finds the non-secure partition running and the lock at 0, is never refused as locked or re-entrant, and is accepted if and only if it is well formed and does not name the closed core partition |
| `NsLock.RunsKeepInv` | interface/src/tfm_ns_lock_rtx.c:105-134 | Every interleaving keeps mutual exclusion: exactly the mutex owner is past it, and the secure side is busy only on the owner's behalf |
| `NsLock.RestAdmits` | secure_fw/core/tfm_secure_api.c:321-335 | What a request from a non-secure handler gets from a secure side at rest, for every such request |
| `NsProgress.WaiterGetsInExactly` | interface/src/tfm_ns_lock_rtx.c:105-113 | At any point of any interleaving, a thread that waits for the mutex can still get it if and only if no secure function has halted the system |
| `NsProgress.NobodyGetsIn` | interface/src/tfm_ns_lock_rtx.c:99-119 | As long as the lock is not initialised, or all service numbers are outside 1 to 10, every thread stays outside and the secure side is not entered |
| `NsProgress.DispatchWaits` | interface/src/tfm_ns_lock_rtx.c:104-109 | With the lock initialised, a thread that dispatches a service number from 1 to 10 waits with its request, marked as coming from a non-secure handler |
| `Boot.BootEndsReady` | secure_fw/core/tfm_core.c:150-183 | For every partition list that fits with unique IDs and every behaviour of init functions that all succeed, nested calls and unbalanced stacks included, boot ends with non-secure the only RUNNING partition, core CLOSED, all others IDLE with invalid caller, lock 0, and internal IDs agreeing with their rows |
| `Boot.BalancedBootLeavesStacksAtTop` | secure_fw/spm/spm_api.c:128-168 | At level 3, when the init functions are stack-balanced as well, boot leaves every user stack at its top |
| `Boot.AfterRowIsBooting` | secure_fw/spm/spm_api.c:136-166 | One round of the init loop, with or without an init function, leaves one more row initialised and the others as they were |
| `Boot.InitRequestAccepted` | secure_fw/spm/spm_api.c:147-157 | The core's init request is accepted and reaches the very row it was made for |
| `BootGuarantees.BootHandsOver` | secure_fw/core/tfm_core.c:150-183 | For every boot whose inits succeed: row k + 2 has the identifier, flags, init function and at level 3 the stack area of the k-th list entry, rows 0 and 1 those of the internal partitions; the stack pointer and the exception register are the ones boot started with, the stack limit is the bottom of the main thread's stack, and thread mode is privileged if it was so at the start |
| `BootGuarantees.DeclaredInEveryState` | secure_fw/spm/spm_db_setup.h:34-57 | The rows are as the list declares them in every state of every run after such a boot |
| `BootGuarantees.CalleeStackAsDeclared` | secure_fw/core/tfm_secure_api.c:133-140 | At level 3, with stack-balanced init and secure functions, an accepted request for the k-th list entry starts it at its declared stack top, bounded by its declared stack bottom, at any point of any run |
| `BootGuarantees.InitPrivilegeExactly` | secure_fw/core/tfm_secure_api.c:97-115 | Inside an init function thread mode is unprivileged if and only if isolation is at level 3, the partition is untrusted, and no call it made has returned from an untrusted partition |
| `PartitionDb.PartitionIdxExact` | secure_fw/spm/spm_api.c:52-67 | The look-up gives the first row with the ID, and the invalid index if and only if no row has it or the ID is the invalid one |
| `SecureCore.FrameReadsBack` | secure_fw/core/tfm_secure_api.c:44-64 | The eight words of a context frame read back as stored, also around the address wrap, and no other word changes |
| `SecureCore.FrameUnstacks` | secure_fw/core/tfm_secure_api.c:44-64 | The frame lies in memory as the exception return reads it: arguments at 0x00 to 0x0C, 0 at 0x10, the return label at 0x14, the function at 0x18, the Thumb state at 0x1C; no word outside those 0x20 bytes changes |
| `SecureCore.Spm.GetPartitionIdx` | secure_fw/spm/spm_api.c:52-67 | The loop finds what the specification function gives |
| `SecureCore.Spm.PreparePartitionCtx` | secure_fw/core/tfm_secure_api.c:44-64 | The frame lies 0x20 below the given top: the exception return from there starts the function with its arguments, and the function's return goes to the return label; nothing else is written |
| `SecureCore.Spm.CheckPush` | secure_fw/core/tfm_secure_api.c:78-124 | The tests in the order of the code; a refusal changes nothing |
| `SecureCore.Spm.RecordCall` | secure_fw/core/tfm_secure_api.c:126-165 | The context of the call stacked in the callee's row, and where its frame goes |
| `SecureCore.Spm.SwitchTo` | secure_fw/core/tfm_secure_api.c:167-191 | Stack registers, states, running index and lock of an accepted call, and the frame from which the exception return starts the function |
| `SecureCore.Spm.PushLock` | secure_fw/core/tfm_secure_api.c:66-192 | The tests in order, then the context, share mode, stack registers, states, running index and lock of the call: the whole new state and the frame that starts the function on acceptance, the old state and memory on refusal |
| `SecureCore.Spm.LeaveEnvironment` | secure_fw/core/tfm_secure_api.c:222-255 | Privilege restored during boot, the caller's share mode reprogrammed after it |
| `SecureCore.Spm.RestoreContext` | secure_fw/core/tfm_secure_api.c:257-287 | Caller's registers and link register back, callee's row cleaned |
| `SecureCore.Spm.PopLock` | secure_fw/core/tfm_secure_api.c:194-292 | The whole new state on success (saved registers and link register restored, the callee's row cleaned, states, lock, share mode and privilege), the old one on failure |
| `SecureCore.Spm.CheckRules` | secure_fw/core/tfm_secure_api.c:313-345 | Caller, exception mode and lock rules |
| `SecureCore.Spm.ConfigureException` | secure_fw/core/tfm_secure_api.c:352-374 | The register is saved and PRIS set by a write carrying the key |
| `SecureCore.Spm.DeconfigureException` | secure_fw/core/tfm_secure_api.c:376-399 | The saved register is put back with PRIS clear |
| `CallGuarantees.ConfigureWrites` | secure_fw/core/tfm_secure_api.c:354-367 | With the read-back key in place the write takes effect and sets exactly PRIS |
| `CallGuarantees.DeconfigureWrites` | secure_fw/core/tfm_secure_api.c:378-383 | With the read-back key saved the write takes effect and restores all but PRIS |
| `SecureCore.Spm.RequestFunction` | secure_fw/core/tfm_secure_api.c:493-522 | Status, new state and the frame that starts the function, up to the exception return; a refusal changes neither state nor memory |
| `SecureCore.Spm.Request` | secure_fw/core/tfm_secure_api.c:493-531 | A request is one step of the abstract machine; where it switches stacks, the 0x20 bytes below the callee's stack pointer make the exception return start the requested function with the request's arguments and the return label as its return address, and no other word of memory changes; otherwise, and on a refusal, memory is as before |
| `SecureCore.Spm.ReturnFrom` | secure_fw/core/tfm_secure_api.c:702-762 | Pop and epilogue, the unlock and link-register halts, and the reserved-value halt exactly for values from 1 to 0x1F other than 2 that come through the return SVC |
| `SecureCore.Spm.Return` | secure_fw/core/tfm_secure_api.c:465-491 | A return, through the handler or direct at level 1, is one step of the abstract machine, leaves memory alone, and halts on a reserved value exactly for 1 to 0x1F other than 2 through the handler |
| `SecureCore.Spm.SetBufferArea` | secure_fw/core/tfm_secure_api.c:764-811 | The status and the share mode for every argument: 1, 2 and 4 from a secure partition, everything else refused |
| `SecureCore.Spm.PerformAll` | secure_fw/core/tfm_secure_api.c:493-531 | Any sequence of actions on the imperative state is a run of the abstract machine |
| `SecureCore.Spm.DeclarePartition` | secure_fw/spm/spm_db_setup.h:34-104 | The new row, with identifier, flags, init function and stack area as declared, or a refusal exactly when the database is full |
| `SecureCore.Spm.DbInit` | secure_fw/spm/spm_api.c:69-126 | The internal rows and the listed ones in order, each as declared, or failure exactly when the list has more than six entries |
| `SecureCore.Spm.StartInit` | secure_fw/spm/spm_api.c:147-157 | The core's request for an init function makes the exception return start that very function, with zero arguments and the return label as its return address |
| `SecureCore.Spm.PartitionInit` | secure_fw/spm/spm_api.c:128-175 | The init loop is the specified one and ends the init phase |
| `SecureCore.Spm.Boot` | secure_fw/core/tfm_core.c:150-183 | The whole boot sequence ends in the state that every theorem about runs starts from, with every row as declared, the stack pointer and exception register it started with, and the stack limit at the main thread's stack bottom |
| `AuditRing.WalkFindsEntry` | secure_fw/services/audit_logging/log_core.c:181-215 | Walking k steps by the in-buffer size words reaches the arc that holds the k-th entry byte for byte, aligned, right after the entries before it |
| `AuditRing.SizeWordOnRing` | secure_fw/services/audit_logging/log_core.c:181-185 | Four-byte alignment keeps a size word from straddling the end of the buffer |
| `AuditRing.HoldsTail` | secure_fw/services/audit_logging/log_core.c:211-215 | The oldest entry's size word leads to where the rest is stored |
| `AuditRing.AppendHolds` | secure_fw/services/audit_logging/log_core.c:311-332 | A wrapping copy behind the newest entry stores it and disturbs no survivor |
| `AuditRing.ArcsDisjoint` | secure_fw/services/audit_logging/log_core.c:253-300 | Different entries lie on disjoint arcs |
| `AuditRing.FormatWellFormed` | secure_fw/services/audit_logging/log_core.c:362-396 | A formatted entry is aligned and its size word announces its length |
| `AuditQueue.WindowInEveryRun` | secure_fw/services/audit_logging/log_core.c:267-284 | Over every run of init, add and delete the entries are a contiguous window of the accepted lines ending with the newest, in acceptance order; lines leave only at the old end |
| `AuditQueue.HistoryIsAccepted` | secure_fw/services/audit_logging/log_core.c:518-536 | In every run exactly the lines from a secure caller whose size is a multiple of 4 and at most 1000 are accepted |
| `AuditQueue.EntriesShowLines` | secure_fw/services/audit_logging/log_core.c:362-396 | In every run from an empty log, the entries read back as the newest accepted lines in order: the number of lines accepted before as the time stamp, 0 as the counter, 1234 as the partition, the size, the line's bytes, and the MAC 0, 1, 2, 3 |
| `AuditQueue.TimestampsConsecutive` | secure_fw/services/audit_logging/log_core.c:378-378 | Neighbouring entries carry consecutive timestamps while the 64-bit counter has not wrapped |
| `AuditQueue.EvictedFewest` | secure_fw/services/audit_logging/log_core.c:267-284 | With exact accounting, add evicts the shortest prefix of oldest entries that makes room |
| `AuditQueue.Run` | secure_fw/services/audit_logging/log_core.c:460-589 | Over every run the sum of the entries is at most the recorded size, which is at most 1024 |
| `AuditQueue.ApplySlack` | secure_fw/services/audit_logging/log_core.c:460-589 | What each operation does to the excess of the recorded size: a reset clears it, a partial delete adds what it removed, nothing else changes it |
| `AuditQueue.SlackIsExcess` | secure_fw/services/audit_logging/log_core.c:460-589 | In every run the excess is what partial deletes removed since the last reset |
| `AuditQueue.ExactIffSettled` | secure_fw/services/audit_logging/log_core.c:489-491 | In every run the recorded size is the true sum if and only if every partial delete was followed by a reset |
| `AuditQueue.ExactWithoutPartialDelete` | secure_fw/services/audit_logging/log_core.c:510-589 | In particular, without a partial delete the recorded size is the true sum |
| `AuditQueue.PartialDeleteOverstates` | secure_fw/services/audit_logging/log_core.c:489-491 | Every partial delete leaves a recorded size larger than the true sum |
| `AuditQueue.LongestSuffixIsLongest` | secure_fw/services/audit_logging/log_core.c:632-650 | What the longest run of newest entries that fits means |
| `AuditQueue.RecentCorrectExactly` | secure_fw/services/audit_logging/log_core.c:621-657 | READ_RECENT yields the longest suffix of whole entries that fits, with its size, if and only if the recorded size is exact or the request is smaller than the true sum |
| `AuditQueue.RecentCorrectInEveryRun` | secure_fw/services/audit_logging/log_core.c:621-657 | The same over every run, in terms of the operations made |
| `AuditQueue.RecentMissesAfterPartialDelete` | secure_fw/services/audit_logging/log_core.c:635-650 | After a partial delete, every request between the remaining and the former sum loses an entry that fits |
| `AuditQueue.RecentMissesExample` | secure_fw/services/audit_logging/log_core.c:635-657 | A run that shows it: two lines of no content added to a fresh log, the older deleted, a request for 30 bytes returns nothing |
| `AuditQueue.LongestRunIsLongest` | secure_fw/services/audit_logging/log_core.c:666-697 | What the longest run of whole entries from an index means |
| `AuditForward.ForwardCounts` | secure_fw/services/audit_logging/log_core.c:680-694 | The loop's rounds over stored entries count exactly their sizes |
| `AuditForward.ForwardOverrunsExactly` | secure_fw/services/audit_logging/log_core.c:681-694 | The loop counts past the newest entry if and only if room is left and the stale word there fits it |
| `AuditForward.GuardsOfRun` | secure_fw/services/audit_logging/log_core.c:680-694 | Where the loop stays among stored entries, it takes exactly the rounds of the longest run that fits |
| `AuditForward.ForwardOverrunExample` | secure_fw/services/audit_logging/log_core.c:681-694 | A run that shows it: two lines of no content on a fresh log, and the count from the second for 48 bytes goes past it |
| `AuditForward.NeverEndsExactly` | secure_fw/services/audit_logging/log_core.c:681-694 | The loop never ends if and only if a counted size comes again within the first 257 rounds, all of them taken |
| `AuditForward.NeverEndsExample` | secure_fw/services/audit_logging/log_core.c:681-694 | A run that leads there: a line ending in a certain word is added to a fresh log, everything is deleted, a line of no content is added; a request for 24 bytes or more from the first entry is counted forever |
| `AuditForward.GrowingLoopEnds` | secure_fw/services/audit_logging/log_core.c:682-693 | The loop does not run forever when no size it is announced is 0 or wraps around |
| `AuditForward.EndsSoon` | secure_fw/services/audit_logging/log_core.c:682-694 | A loop that ends takes at most 256 rounds |
| `AuditForward.OneFate` | secure_fw/services/audit_logging/log_core.c:681-694 | The loop ends, runs forever, or is led to an index that is not a multiple of four: exactly one of the three |
| `AuditForward.LiveLoopEnds` | secure_fw/services/audit_logging/log_core.c:681-694 | Where the loop stays among stored entries, it ends with the longest run that fits |
| `AuditLog.NextOfLast` | secure_fw/services/audit_logging/log_core.c:286-291 | The newest entry's size word leads to the first free byte |
| `AuditLog.Audit.constructor` | secure_fw/services/audit_logging/log_core.c:454-457 | The empty log |
| `AuditLog.Audit.ClearState` | secure_fw/services/audit_logging/log_core.c:227-241 | The state variables of an empty log, the timestamp counter kept |
| `AuditLog.Audit.Init` | secure_fw/services/audit_logging/log_core.c:434-458 | Init empties the log and keeps the timestamp counter |
| `AuditLog.Audit.DeleteItems` | secure_fw/services/audit_logging/log_core.c:460-497 | Partial and full delete refine the queue: the oldest entries asked for leave, the number is reported, a full delete resets the recorded size and a partial one keeps it; without a result pointer it fails and changes nothing |
| `AuditLog.Audit.GetInfo` | secure_fw/services/audit_logging/log_core.c:499-508 | The count is true; the size is the true sum plus what partial deletes removed since the last reset, so true if and only if every partial delete was followed by one |
| `AuditLog.Audit.GetNextLogIndex` | secure_fw/services/audit_logging/log_core.c:211-215 | The next index as read from the buffer, with 32-bit wrap-around |
| `AuditLog.Audit.ReplaceItem` | secure_fw/services/audit_logging/log_core.c:253-300 | Evicts as specified, and returns the first free byte with enough room behind it |
| `AuditLog.Audit.FormatBuffer` | secure_fw/services/audit_logging/log_core.c:362-396 | The scratch buffer holds the complete entry and the counter advances |
| `AuditLog.Audit.BufferCopy` | secure_fw/services/audit_logging/log_core.c:311-332 | The copy wraps at the end and touches nothing else |
| `AuditLog.Audit.AddLine` | secure_fw/services/audit_logging/log_core.c:510-589 | Add refines the queue for every line and caller; success exactly for a secure caller and a size that is a multiple of 4 and at most 1000, and then the newest entry shows the line; a failure changes nothing |
| `AuditLog.Audit.SkipToRecent` | secure_fw/services/audit_logging/log_core.c:627-657 | The READ_RECENT loop ends and stands at the specified suffix, with its size and count |
| `AuditLog.Audit.SkipOne` | secure_fw/services/audit_logging/log_core.c:637-644 | The circular-distance formula is the sum of the remaining entries |
| `AuditLog.Audit.CountForward` | secure_fw/services/audit_logging/log_core.c:666-697 | For every buffer and room on which the loop ends: it counts exactly the rounds whose guard holds, with their size and number, and reads size words along the walk and nowhere else |
| `AuditLog.TallyLive` | secure_fw/services/audit_logging/log_core.c:666-697 | Where the loop stays among stored entries, size and number are those of the longest run of whole entries that fits |
| `AuditLog.ProbedLive` | secure_fw/services/audit_logging/log_core.c:681-694 | There it reads size words only at the starts of the entries in order and at most once behind the newest; never behind it when the room is smaller than what is stored |
| `AuditLog.Audit.SmallRequestStaysLive` | secure_fw/services/audit_logging/log_core.c:681-694 | A request smaller than what is stored from the index on always stays inside live entries |
| `AuditLog.Audit.LiveRequestEnds` | secure_fw/services/audit_logging/log_core.c:681-694 | A request whose loop stays live is one on which it ends |
| `AuditLog.Audit.Retrieve` | secure_fw/services/audit_logging/log_core.c:591-718 | Size, count and status in every mode, the error cases, nothing written behind the result; from an index, for every request on which the loop ends, what it counts and the bytes from there on, which are the longest run of whole entries where it stays live; the bytes of the newest entries, followed by stale ones only when the recorded size is too large |
| `KeywordSubstitution.Substitute` | tools/keyword_substitution.py:43-136 | The engine yields exactly the rows of the ordered-product meaning, in order, and something else than rows exactly when expansion meets a bare leaf; it terminates on every database |
| `KeywordSubstitution.KeywordSubstitute` | tools/keyword_substitution.py:138-154 | The same with every chain of the line pending |
| `KeywordSubstitution.GroupChains` | tools/keyword_substitution.py:69-87 | Groups by first key, keys in order of first appearance, chains in order |
| `KeywordSubstitution.LookUp` | tools/keyword_substitution.py:91-116 | Leaves, missing keys and shortened chains in the row; only groups that lead into a branch are kept |
| `KeywordSubstitution.Fork` | tools/keyword_substitution.py:118-136 | The kept groups expand into the product of their solutions |
| `KeywordSubstitution.ExpandEach` | tools/keyword_substitution.py:126-130 | Every row found so far is expanded by every solution of the next branch |
| `KeywordSubstitution.RowsKeepLiterals` | tools/keyword_substitution.py:43-136 | Every row has the template's length and literal segments |
| `KeywordTree.SolutionsCover` | tools/keyword_substitution.py:43-136 | Every solution assigns exactly the places of the pending chains |
| `KeywordTree.CombineAt` | tools/keyword_substitution.py:118-130 | The order of the product: the first key is outermost |
| `KeywordTree.CombineCount` | tools/keyword_substitution.py:118-130 | Independent branches multiply the number of rows |
| `KeywordChoices.SolutionsAreThePicks` | tools/keyword_substitution.py:43-136 | The solutions are exactly what one choice of element per list gives, so chains sharing a key prefix meet the same list element; a chain becomes the text of the leaf it names, itself or the placeholder at a missing key, an empty chain when its keys are used up |
| `KeywordChoices.RowsAreThePicks` | tools/keyword_substitution.py:138-154 | A row is in the result if and only if it is the template with every chain followed through one choice of list elements |
| `KeywordOrder.RowsInPickOrder` | tools/keyword_substitution.py:118-136 | The rows come in the order of their choices, one for every choice: earlier list elements first, and of several entries that fork, the one whose chain stands first in the line varies slowest |
| `KeywordOrder.BeforeDiffers` | tools/keyword_substitution.py:118-136 | That order is strict, so no choice comes twice |
| `KeywordOrder.UnderRises` | tools/keyword_substitution.py:69-87 | Chains keep the order in which they stand in the line on the way down |
| `KeywordChoices.BranchElementsSuffice` | tools/keyword_substitution.py:46-67 | With dictionaries or lists as list elements, expansion always yields rows |
| `KeywordChoices.LeafListFails` | tools/keyword_substitution.py:46-67 | A plain value among the elements of the list being expanded, at any position and for any template, never yields rows |
| `Base64Url.DecodeInvertsEncode` | secure_fw/services/secure_storage/jwt.c:40-53 | A text decodes to a byte string if and only if it is that string's encoding |
| `Base64Url.CharRoundTrip` | secure_fw/services/secure_storage/jwt.c:40-53 | The 64 characters are distinct, decode back, and are neither a dot nor NUL |
| `Base64Url.AlphabetInOrder` | secure_fw/services/secure_storage/jwt.c:40-53 | The alphabet is A to Z, a to z, 0 to 9, minus, underscore, in this order |
| `Base64Url.EncodeConcat` | secure_fw/services/secure_storage/jwt.c:87-106 | Whole groups encode independently of what follows |
| `JwtBuilder.AppendedInPieces` | secure_fw/services/secure_storage/jwt.c:116-126 | How the input is cut into append calls makes no difference |
| `JwtBuilder.AppendedState` | secure_fw/services/secure_storage/jwt.c:108-126 | In mid-section the text is the encoding of the whole groups and the cells hold the open one |
| `JwtBuilder.SectionState` | secure_fw/services/secure_storage/jwt.c:87-126 | A section streamed and flushed adds its streamed text and leaves cleared cells |
| `JwtBuilder.StreamedTextExact` | secure_fw/services/secure_storage/jwt.c:93-98 | The streamed text is the one-shot encoding if and only if no stale bits reach the last character |
| `JwtBuilder.StaleCellExample` | secure_fw/services/secure_storage/jwt.c:87-106 | What the header's length guards against: one byte alone over uncleared cells comes out wrong |
| `JwtBuilder.TokenSplits` | secure_fw/services/secure_storage/jwt.c:153-191 | A token splits at its dots into exactly three parts that decode to header, payload and signature |
| `JwtBuilder.SignedTextExact` | secure_fw/services/secure_storage/jwt.c:290-292 | With a header of three bytes or more, the text the builder has written when it signs is the encoded header, a dot and the encoded payload |
| `JwtBuilder.BuiltTextExact` | secure_fw/services/secure_storage/jwt.c:315-328 | The builder writes the token if and only if no stale bits reach its first non-empty section |
| `JwtBuilder.BuildToken` | secure_fw/services/secure_storage/jwt.c:283-328 | The whole builder life over any buffer: always the token with a header of three bytes or more, otherwise exactly on a clean start; the flag exactly when text and NUL do not fit, the whole text NUL-terminated otherwise, a proper prefix on overflow; the token in the buffer splits into three parts that decode to header, payload and the signature of the first two parts with their dot |
| `JwtBuilder.Builder.Outch` | secure_fw/services/secure_storage/jwt.c:66-80 | One character more of the unbounded text; written length plus `len` stays the buffer size, and the text in the buffer a NUL-terminated prefix |
| `JwtBuilder.Builder.OverflowExact` | secure_fw/services/secure_storage/jwt.c:66-80 | In every valid state the flag is set if and only if a non-empty text and its NUL do not fit |
| `JwtBuilder.Builder.Flush` | secure_fw/services/secure_storage/jwt.c:87-106 | Two, three or four characters, cells cleared |
| `JwtBuilder.Builder.AddByte` | secure_fw/services/secure_storage/jwt.c:108-114 | One byte more in the cells, flushed when they are full |
| `JwtBuilder.Builder.AppendBytes` | secure_fw/services/secure_storage/jwt.c:116-126 | The loop appends all the bytes |
| `JwtBuilder.Builder.constructor` | secure_fw/services/secure_storage/jwt.c:315-323 | An empty builder whose cells hold what the memory held |
| `JwtBuilder.Builder.AddHeader` | secure_fw/services/secure_storage/jwt.c:153-172 | The header section, or an unflushed one when the JSON encoder fails |
| `JwtBuilder.Builder.AddPayload` | secure_fw/services/secure_storage/jwt.c:174-191 | A dot and the payload section, with the JSON encoder's result; after a header whose encoder failed, the open group runs on into the payload |
| `JwtBuilder.Builder.Sign` | secure_fw/services/secure_storage/jwt.c:283-312 | What is signed is the text in the buffer; then a dot and the signature section, or the crypto library's errors with nothing written; never an overflow error |

## Left out

- AuditLog.Audit.Retrieve: from an index it asks that the loop ends; `AuditForward.NeverEndsExactly` says when it never does. An index that is not a multiple of four is not followed, because the word there can straddle the end of the buffer.
- AuditLog.Audit.CountForward: the same.
- CallGuarantees.StacksReadyInEveryState: level 3 only and for stack-balanced init and secure functions, because level 1 partitions share one stack and an unbalanced function leaves its own stack pointer off the top.
- BootGuarantees.CalleeStackAsDeclared: the same.
- SecureCore.Spm.PushLock: asks for a registered partition ID, because the code does not test the invalid index and would read outside the database.
- SecureCore.Spm.CheckPush: the same.
- Boot.BootEndsReady: not for a failed init, whose handler uses a partition ID as an index; level 1 calls made by an init function are modelled as arriving through an SVC.
- SecureCore.Spm.SetBufferArea: with an invalid caller index the code reads flags outside the database; they count as non-secure here, and no run after boot gets there.
- NsLock.EveryEntryFindsSecureSideAtRest: the RTOS mutex is taken as correct and its initialisation as one step, while the code tests and sets the flag without protection; thread priorities and fairness are not modelled.
- NsProgress.WaiterGetsInExactly: that the thread can get the mutex, not that it does, for the same reason.
- AuditLog.Audit.ReplaceItem: the stop position is left out, because no caller uses it.
- Hardware and HAL bodies: MPU, SAU, PPC and MPC set-up, sandbox configuration and the share-region call are taken to succeed.
- Inline assembly, CMSE intrinsics, interrupt masking, the MSP test of the return handler, SHCSR and the alternative exception set-up without deprioritising.
- The memory permission, secure-caller and scratch-area handlers of the secure API, and the hiding of error statuses from non-secure callers.
- Isolation level 2.
- UART output of log entries and the log veneers.
- RSA signing, hashing, the random number generator and JSON encoding.
- Regular-expression tokenising, number and boolean leaves, the 'halt' and 'hide' actions and the final joining of rows into text in the substitution tool; `tools/generate_from_template.py` around it.
- The SST service, the flash map, the bootloader and the test suites.
