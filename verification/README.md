# mod_gearman: a model and its proofs

mod_gearman takes check jobs from a Naemon core, hands them to worker processes through gearmand and
brings the results back. This project models the parts of it that are hard to get right and proves what
they promise. Each module stands for one component:

- `SlotProtocol` is the worker pool as a step relation. The parent and its children share a table with
  one slot per worker; each event is one access of a shared word or one action of the kernel, so that a
  sequence of events is an interleaving. `WorkerPool` has the same code as loops over an array. Before
  every access any steps of the children may happen, after it the event is recorded, and the memory is
  at all times what the recorded events make of an empty pool. So the methods take steps of the protocol
  only, and what is proved of reachable states holds at each of their statements. Statements about the
  population are for a `company` of children none of whom begins or goes on with its exit during the
  pass; they may be born, start and end jobs and write their slots at any point.
- `TextCodec`, `ResultMessage` and `SendResult` are the text of a result: escaping, printing, the size
  limits, and the line parser of the core. `JobMessage` is the text of a check job on its way to the
  worker. `Transport` is zero padding, a block cipher (any bijection on blocks of 16 bytes) and base64.
  `EndToEnd` puts them together.
- `DecodeXml`, `ChildCheck` and `MultiStream` are the buffer code of send_multi; `ChildElements`,
  `StreamReading` and `ChildBody` say what it is to read and what it does read. `CommandLine` is the argument splitter and
  `GrowingReader` the reader of plugin output. All work on mutable arrays; `CString` holds what they share.
- `JobResult` is one job with its alarm and signals, `ResultList` the concurrent list of results in the
  core module (as a step relation down to the single pointers, and as linked nodes).
- `ConfigFiles` is the recursion over configuration files, `GroupNames` the lists of groups in them,
  `Routing` the choice of a queue and the queues the workers register, `Submission` the retries and statistics
  of add_job_to_queue.

Where the program changes state in place, the model has a class or an array and methods with loops; what
they compute is given by functions, and the lemmas are about those.

## What the proofs show about the code

Some of the statements one would like are not true of the code as it is. The exact conditions are:

- The `source` of a result is not copied: the core is handed a pointer into a buffer that get_results frees.
  That is so exactly if the message names a source, and every result of a worker does
  (`ResultMessage.SourceDangles`, `SendResult.SourceIsAlwaysLost`). And check_options are masked with a
  logical instead of a bitwise complement, so none are left (`ResultMessage.GetResults`).
- A text survives the way to the core exactly if it contains no backslash. The worker doubles
  backslashes, the core only undoes `\n` (`TextCodec.EscapeRoundTrip`, `SendResult.ResultRoundTrip`).
- A result arrives whole exactly if the message up to the end of its output fits into `result_size`, which
  is measured by stdout but has to hold stderr, too. One text is an exception: an output `(null)` that is
  cut off right before its equals sign is replaced by the same text (`SendResult.SizeLimitDecides`). Before
  it is cut, what is put together stays inside its buffers exactly if two lengths stay below eight times
  `result_size` (`SendResult.BuildMessage`).
- A check job arrives with its command exactly if it fits into the buffer; a longer one reaches the worker
  with a shortened command or none (`JobMessage.JobArrives`). It does not carry next_check, which get_job leaves
  unset and send_result_back prints as core_start_time (`JobMessage.JobIsRead`).
- A worker marks a timeout in early_timeout but never prints it, so the core is always told that there was none
  (`SendResult.MessageArrives`, `SendResult.ResultRoundTrip`).
- The padding guard divides the wrong way round. Texts of 0, 1, 3 and 7 characters cannot be encrypted
  (`Transport.GuardMisses`, `Transport.AesEncrypt`). In the clear, exactly the empty text cannot be sent:
  base64_encode returns a null pointer, whose length is then taken (`Transport.Encrypt`). No result message is
  that short (`EndToEnd.MessageCanBeEncrypted`).
- `decode_xml` undoes the encoding of a text exactly if the text does not itself contain one of the
  entities in the last three rows of its table (`DecodeXml.DecodeUndoesEncode`). A decoded ampersand may begin
  another entity, which is then decoded, too (`DecodeXml.EntitiesAreDecoded`).
- The slot table cannot run out exactly because verify_options lowers min_worker to max_worker
  (`SlotProtocol.ClampIsNeeded`).
- The failed result that clean_worker_exit has in store is never sent. A job without usable data leaves SIGTERM
  blocked and gearmand's job set until the next job has run (`JobResult.Process.GetJob`). A worker that ends by
  itself after such a job, and only then, enters the branch without a current job and dies of a null pointer
  before it has freed its slot (`JobResult.Process.CleanWorkerExit`, `JobResult.Process.LastJob`).
- A worker that count_current_worker restarts in the slot it has just freed is counted twice. So a pass that
  nothing disturbs can end below min_worker (`SlotProtocol.RestartCostsAWorker`). With no forced restart and no
  top-up due it does so exactly if the pool was below min_worker and there is a stale slot without a free slot
  in front of it; in all other cases `WorkerPool.Pool.CheckWorkerPopulation` states the number of workers.
- A forced restart does not count again: only min_worker minus the old count are started in that pass
  (`WorkerPool.Pool.CheckWorkerPopulation`).
- send_multi reads exactly the elements of its input exactly if, at each refill, no element begins in the data
  thrown away and none is left where it stops (`StreamReading.ReadsAllExactly`); an element whose opening tag
  is cut by the end of a full buffer is lost (`StreamReading.ElementCut`).
- The pointer to the line buffer of read_config_file moves over leading blanks and empty lines and is not moved
  back. Reading stays inside the allocation exactly as long as the lines have room behind them
  (`ConfigFiles.Config.ReadText`); 65536 empty lines are one too many (`ConfigFiles.EmptyLinesRunOut`).
- parse_command_line does not keep quoted text together: a quote is an empty argument of its own
  (`CommandLine.QuoteIsAnArgument`). Its caller gives commands with quotes to the shell.
- The choice of a queue and its registration cut their names at different lengths. It makes no difference,
  because no group name has more than 50 characters (`Routing.CheckQueueIsRegistered`).

## Assumptions

- Pids are fresh and at least 2; a shared word is read and written in one piece; SIGKILL takes effect at
  once. A dead child is still found by kill(0) until its parent has waited for it.
- max_worker does not change and the shared memory segment is large enough for it.
- The mutex of the result list excludes all others; result threads are any number.
- A handler that ends its process is taken to return, which only adds runs.
- The clock that add_job_to_queue reads does not run backwards. Times are real numbers there.
- strcpy within one string, which decode_xml uses to close gaps, copies from front to back; C leaves that open.
- The flag CHECK_OPTION_FRESHNESS_CHECK of the core's header, which is not part of this model, is not zero.
- EVP_DecodeBlock skips blanks in front of a text and blanks, line ends and hyphens behind it.
- Each list of groups stays below the 512 entries reserved for it.
- libgearman limits function names to 511 and unique keys to 64 characters.

## Model

| member | source | states |
|---|---|---|
| SlotProtocol.WorkersFindThemselves | worker/worker_client.c:505-556 | in every interleaving of parent, children, crashes and forced restarts, a worker that has written its slot and not begun its exit finds its pid or its negated pid there |
| SlotProtocol.NoSharedSlot | worker/worker.c:296-347 | no two such workers share a slot |
| SlotProtocol.SlotsAreNeverDoubleUsed | worker/worker_client.c:528-545 | the branches "status slot changed to -1" and "double used worker slot" are unreachable |
| SlotProtocol.ClearFreesOwnSlotOnly | worker/worker_client.c:597-602 | the guarded clear on exit frees the slot of the exiting worker, which no serving worker holds, and no other |
| SlotProtocol.AFreeSlotIsAlwaysLeft | worker/worker.c:832-854 | whenever a worker is started, from start-up or from a population pass, a free slot lies ahead of the scan; what the parent has counted is never below the used slots |
| SlotProtocol.ClampIsNeeded | worker/worker.c:464-465 | the table never runs out of slots, whatever the run, if and only if min_worker <= max_worker |
| SlotProtocol.NextKeepsInv | worker/worker.c:190-292 | every single access of parent or child keeps the invariant: who answers for each slot, where each child is, and the budget of slots |
| SlotProtocol.RunKeepsInv | worker/worker.c:175-292 | the invariant over whole runs |
| SlotProtocol.ChildKeepsInv | worker/worker_client.c:505-611 | child steps keep the invariant at every point of the parent |
| SlotProtocol.CountKeepsInv | worker/worker.c:190-240 | counting, with restarts that are counted twice, keeps count >= used |
| SlotProtocol.MakeChildKeepsInv | worker/worker.c:296-347 | reserve, fork (or its failure) and the write of -pid keep it, in either order with the child's own write |
| SlotProtocol.RestartCostsAWorker | worker/worker.c:213-226 | a run from start-up with min_worker and max_worker 2: the second worker leaves, the first dies, and a pass without a failure in which no child moves ends with one worker |
| SlotProtocol.JobEndAlone | worker/worker_client.c:526-547 | a worker nobody disturbs, whatever its slot holds: it takes the error branches exactly if the slot is free or holds somebody else, and is idle again otherwise |
| SlotProtocol.DyingWorkerIsCounted | worker/worker.c:205-217 | a worker that dies after the waitpid loop keeps its slot in that pass; one that has been waited for loses it |
| SlotProtocol.ExitAlone | worker/worker_client.c:597-602 | a worker nobody disturbs frees its slot on exit if and only if the slot holds its pid or the negated pid |
| WorkerPool.Pool.constructor | worker/worker.c:543-572 | the segment as set up, with the limits after the clamp, is the initial state of the protocol |
| WorkerPool.Pool.GetNextShmIndex | worker/worker.c:832-854 | returns the first slot that was free, now reserved; the branch that gives up is never taken |
| WorkerPool.Pool.MakeNewChild | worker/worker.c:296-347 | a new child in the first slot that was free, or the reservation a failed fork leaves there; all other slots keep their owners, whatever the children write meanwhile |
| WorkerPool.Pool.CountOnly | worker/worker.c:190-238 | while no child begins or goes on with its exit, count_current_worker(GM_DISABLED) leaves exactly the slots of living processes and counts the used ones exactly; the busy ones too if no child moves |
| WorkerPool.Pool.CountAndRestart | worker/worker.c:190-238 | while no child is on its exit, with GM_ENABLED the number of used slots stays, the count exceeds it by exactly the stale slots without a free slot in front of them, and only a failed fork leaves a slot nobody answers for; the busy slots are counted exactly if none is stale and no child moves |
| WorkerPool.Pool.StartWorkers | worker/worker.c:160-163 | start-up uses min_worker slots while no child is on its exit |
| WorkerPool.Pool.KillAll | worker/worker.c:257-268 | a forced restart leaves no slot used, whatever the children do |
| WorkerPool.Pool.ForceRestart | worker/worker.c:253-271 | no slot is used after a forced restart; without one, all slots keep their owners while no child is on its exit; when a restart is forced, and that the time of the last check is then set |
| WorkerPool.OthersKeep | worker/worker_client.c:505-611 | no step of a child, signal or crash makes a free slot used or touches what is the parent's |
| WorkerPool.StepInCompany | worker/worker_client.c:505-555 | a step that is no part of an exit leaves it to the same processes who owns which slot, while the parent has still to write a new pid, too |
| WorkerPool.Pool.KeepMinimum | worker/worker.c:275-279 | one more used slot for each worker below the minimum, while no child is on its exit |
| WorkerPool.TargetIs | worker/worker.c:576-626 | how far adjust_number_of_worker lets the pool grow, for every load and number of jobs: by spawn_rate up to max_worker if more than 90 percent are busy or no more than two idle, unless a load limit is set and reached; otherwise not at all |
| WorkerPool.Pool.KeepUp | worker/worker.c:281-291 | the pool grows to what TargetIs says, at most once a second, while no child is on its exit |
| WorkerPool.Pool.CheckWorkerPopulation | worker/worker.c:242-292 | every statement of a pass is a step of the protocol; with children being born and starting and ending jobs, but none on its exit, the number of used slots after it is stated exactly, with and without a forced restart; with no stale slot and no forced restart it is the larger of the old number and min_worker, topped up as TargetIs says if a second has passed; with no top-up due, the pool ends below min_worker if and only if it was below it and a stale slot had no free slot in front of it; without a failed fork there is a living process in every used slot |
| WorkerPool.Pool.SetStateJobStart | worker/worker_client.c:505-525 | whatever the others do, the worker's pid is in its slot afterwards |
| WorkerPool.Pool.SetStateJobEnd | worker/worker_client.c:526-547 | neither error branch is taken, and the negated pid is in the slot afterwards |
| WorkerPool.Pool.CleanWorkerExit | worker/worker_client.c:590-609 | a cleared slot is free when the worker reaches _exit; a worker that holds its slot when it begins to compare clears it, unless it is killed or interrupted again |
| WorkerPool.StillKept | worker/worker.c:190-347 | whatever the others do, parent or children: the slot of a living worker that finds itself there keeps its value or gets the negated pid |
| CString.StrSep | neb_module_naemon/result_thread.c:228-230 | strsep on a buffer: the token, what is left, and nothing else changed |
| CString.SpaceCharacters | common/utils.c:213-233 | the six characters that isspace takes for spaces |
| CString.TrimmedText | common/utils.c:213-241 | trim takes off the spaces at both ends and keeps everything between them |
| TextCodec.EscapeNewlines | common/utils.c:48-92 | the buffer holds the escaped (and trimmed) text; twice the length plus one always suffices |
| TextCodec.EscapeShape | common/utils.c:66-84 | escaped text has no newline and at most twice the length |
| TextCodec.ReplacedLength | common/utils.c:1485-1491 | the first pass computes the length of the replaced text |
| TextCodec.ReplaceStr | common/utils.c:1476-1507 | the second pass fills exactly that length with the leftmost non-overlapping replacement, for shorter, equal and longer replacements |
| TextCodec.ReplaceFirst | common/utils.c:1496-1504 | the text before the first occurrence is kept, the occurrence is replaced, and what is inserted is not searched again |
| TextCodec.EscapeRoundTrip | common/utils.c:72-84 | the receiver's replacement gives the text back if and only if it has no backslash |
| TextCodec.EscapeUnescape | neb_module_naemon/result_thread.c:235-258 | a line whose undoing leaves no backslash is the escaped form of the result |
| ResultMessage.GetResults | neb_module_naemon/result_thread.c:228-351 | the strsep loop computes the fields of the text line by line; results without host or output are discarded |
| ResultMessage.SourceDangles | neb_module_naemon/result_thread.c:264-351 | the source handed to the core points into the freed buffer if and only if a line that is read names one |
| ResultMessage.NumberIsRead | neb_module_naemon/result_thread.c:265-276 | a number is read behind spaces, with or without a sign, up to the first character that is no digit |
| ResultMessage.AtoiOfIntText | common/utils.c:1674-1683 | a printed integer is read back, negative ones too |
| SendResult.BuildMessage | common/utils.c:1669-1716 | the sequence of strcat and cuts builds the message, inside both buffers if and only if two lengths stay below eight times result_size |
| SendResult.DuplicateIsPassive | common/utils.c:1738-1745 | with room for one more line, the copy for a duplicate server is read like the original, as a passive result |
| SendResult.BuildDuplicate | common/utils.c:1738-1745 | what is read from the copy is what is read from the message, as a passive result if asked for and if there is room for the type |
| SendResult.ReadLinesOf | neb_module_naemon/result_thread.c:228-287 | printed lines are read back field by field |
| SendResult.MessageArrives | neb_module_naemon/result_thread.c:228-351 | for every message of lines and an output, whatever follows an empty line: each field the core gets, by the key of its line; of a repeated key the last value counts; check options are lost and the source dangles |
| SendResult.ResultRoundTrip | common/utils.c:1669-1716 | within the size limit the core gets host, service, return code, exit flag, times and the text of stdout with stderr in brackets, each as the worker has it, if and only if that text has no backslash; the source dangles |
| SendResult.SourceIsAlwaysLost | neb_module_naemon/result_thread.c:264-351 | whatever result of a worker reaches the core, its source dangles |
| SendResult.SizeLimitDecides | common/utils.c:1669-1716 | for backslash-free texts the message is put together inside its buffers and the result arrives intact if and only if the message up to the end of the output fits into result_size (or the text is "(null)" and is cut right before its equals sign) |
| SendResult.CutLines | common/utils.c:1674-1694 | a message cut off before its output line never yields an output |
| JobMessage.GetJob | worker/worker_client.c:225-284 | the strsep loop of get_job computes the job line by line |
| JobMessage.JobArrives | neb_module_naemon/mod_gearman.c:964-972 | a check job reaches the worker with its command as printed if and only if the text up to the end of the command fits into the buffer of the core module |
| JobMessage.JobIsRead | worker/worker_client.c:225-284 | for every job of lines, whatever follows an empty line: each field that get_job reads, by the key of its line, start_time for two fields at once, and how many lines were valid |
| JobMessage.NotificationArrives | neb_module_naemon/mod_gearman.c:755-764 | a notification reaches the worker with its command and both outputs as printed if and only if it fits into the buffer up to the end of the last of them |
| EndToEnd.ResultArrives | neb_module_naemon/result_thread.c:228-351 | printed, escaped, encrypted or only encoded, with newlines inserted in the base64, opened and parsed: the result, but for its source, arrives intact if and only if its text has no backslash |
| EndToEnd.MessageCanBeEncrypted | common/utils.c:1674-1683 | no result message is empty or has one of the lengths for which padding is forgotten |
| Transport.Base64RoundTrip | common/gm_crypt.c:187-221 | decoding gives the bytes back, filled up with zeros to a multiple of three (RFC 4648, section 4) |
| Transport.KnownEncodings | common/gm_crypt.c:212-221 | the alphabet and padding of RFC 4648, by examples from its section 10 |
| Transport.Alphabet | common/gm_crypt.c:212-221 | the 64 digits are those of table 1 of RFC 4648 |
| Transport.StripNewlines | common/gm_crypt.c:193-199 | the copying loop takes out exactly the newlines |
| Transport.NewlineGoes | common/gm_crypt.c:193-199 | a newline makes no difference, wherever it is |
| Transport.NewlinesAreHarmless | common/gm_crypt.c:187-210 | newlines anywhere in the base64 change nothing |
| Transport.GuardMisses | common/gm_crypt.c:101-102 | the padding guard fails for exactly the lengths 1, 2, 4 and 8 |
| Transport.PadWithZeros | common/gm_crypt.c:102-109 | the second update completes the padded text and leaves nothing pending |
| Transport.AesEncrypt | common/gm_crypt.c:81-119 | fails exactly for those lengths, otherwise the buffer holds the encrypted padded text, a multiple of 16 within the allocated size |
| Transport.BlocksRoundTrip | common/gm_crypt.c:123-145 | decrypting block by block undoes encrypting, for every bijection on blocks |
| Transport.Base64Encode | common/gm_crypt.c:212-221 | the allocated size covers base64 and NUL at every length; the result is null for exactly the empty text |
| Transport.Base64Decode | common/gm_crypt.c:187-210 | the second attempt without newlines; the target is large enough |
| Transport.Encrypt | common/utils.c:138-162 | for every text and mode the ciphertext, the error for a text the guard refuses, or the length of a null pointer for the empty text in the clear |
| Transport.Decrypt | common/utils.c:166-197 | the result is always terminated inside its buffer and is the opened text whenever that has a NUL of its own or is not decrypted |
| Transport.ArtefactsAreCut | common/utils.c:180-183 | cutting to whole blocks removes exactly the bytes base64 has added |
| Transport.TransportRoundTrip | common/utils.c:138-197 | what has been sealed is opened again: encrypted, and in the clear unless it is empty |
| Transport.AcceptAllReadsBoth | common/utils.c:176-197 | a receiver that accepts clear results opens both kinds |
| DecodeXml.DecodeInPlace | tools/send_multi.c:509-534 | five passes in place compute the decoded string, terminate, and write neither before the string nor at or behind its old end |
| DecodeXml.EntitiesAreDecoded | tools/send_multi.c:509-534 | each of the five entities, in a text without other ampersands, becomes its character and nothing else changes; an ampersand stays if and only if it does not begin another entity of the last three rows |
| DecodeXml.NoEntityLeft | tools/send_multi.c:512-531 | the result contains none of the entities for the ampersand, the apostrophe and the bar |
| DecodeXml.DecodeUndoesEncode | tools/send_multi.c:512-531 | decoding undoes entity encoding if and only if the raw text contains none of these three entities |
| ChildCheck.ReadMultiAttribute | tools/send_multi.c:491-507 | the bounds of the value, one NUL written, nothing outside the element touched, no other tag moved |
| ChildCheck.BracketError | tools/send_multi.c:456-464 | the error text gets its brackets; two bytes in front and one behind are written |
| ChildCheck.CutUndisturbed | tools/send_multi.c:491-507 | cutting one attribute out in place leaves all tags of the others where they were |
| ChildCheck.BracketsUndisturbed | tools/send_multi.c:456-464 | so do the brackets around the error text, although they overwrite the ends of two tags |
| ChildCheck.ReadChildCheck | tools/send_multi.c:405-489 | writes only inside its element; which elements it accepts, for every element as it has been cut up and bracketed so far; without a NUL in it, if and only if its number is there and not 0, name, return code, runtime, output and error are there, and pplugin if performance is |
| ChildBody.AttributeOfBody | tools/send_multi.c:491-507 | in an element put together from attributes, with any texts between them, each attribute is found with its value; of a repeated name the first |
| ChildBody.BodyIsJudged | tools/send_multi.c:405-489 | such an element is accepted if and only if it has the attributes no (not 0), name, rc, runtime, output and error, and pplugin if it has performance |
| MultiStream.TakeElement | tools/send_multi.c:329-352 | the first element of the buffer goes to read_child_check, whose verdict is returned, the rest moves to the front |
| MultiStream.ReadMultiStream | tools/send_multi.c:317-403 | for every input what is read, how it ends and the count returned, which is that of the results sent; sent are exactly the elements read_child_check accepts and send_result does not fail for; if every element fits with the text in front of it, read_child_check is given exactly the elements of the input, once and in order, wherever the refills fall |
| StreamReading.ReadsAllExactly | tools/send_multi.c:317-403 | for every input, exactly its elements are read if and only if at every refill no element begins in the data that are thrown away, and none is left where reading stops |
| StreamReading.NeverMore | tools/send_multi.c:317-403 | never are more elements read than there are, and a first element that is not lost is never read longer than it is |
| StreamReading.ElementCut | tools/send_multi.c:363-377 | an element whose opening tag is cut by the end of a full buffer is lost |
| StreamReading.PlainMessage | tools/send_multi.c:359-374 | a short input without an opening tag is reported as a message if and only if it begins with ASCII text up to a NUL |
| StreamReading.FittingIsRead | tools/send_multi.c:317-403 | nothing is lost if every element fits, unless a read error cuts the input short |
| ChildElements.ElementsOfStream | tools/send_multi.c:317-403 | the elements of a stream put together from gaps and bodies without tags are the bodies, and it fits if and only if every item does |
| JobResult.Process.GetJob | worker/worker_client.c:167-354 | at most one result is handed to add_job_to_queue for the primary and for the duplicate server, none without a queue or a payload, exactly one for a check unless return code 25 is suppressed, with the return code the plugin has ended with; other jobs send nothing but timeouts; SIGTERM stays blocked if and only if the job had no payload |
| JobResult.Process.DoExecJob | worker/worker_client.c:361-438 | which job is marked as sent, by whom and with which return code: too old, normal, timed out by the alarm or by its run time, failed fork |
| JobResult.Process.ExecuteSafeCommand | common/check_utils.c:252-425 | the return code left behind, or carried by the timeout result sent meanwhile, with the alarm going off between any two statements, with or without fork_on_exec: 3 after a failed fork, timeout_return for a late plugin, the exit codes 0 to 3 as they are, critical for a missing or killed plugin and for other codes, except 25 or with the workaround for 25 |
| JobResult.Process.SendResultBack | common/utils.c:1639-1667 | the first caller marks the job and hands its result over; later callers change nothing |
| JobResult.Process.CheckAlarmHandler | common/check_utils.c:429-471 | sends a timeout only in a worker that runs the plugin itself, and only for a current job |
| JobResult.Process.SendTimeoutResult | common/check_utils.c:503-526 | replaces the result and sends it unless one has been sent |
| JobResult.Process.CleanWorkerExit | worker/worker_client.c:559-580 | for SIGINT, an unblocked SIGTERM and the calls the worker makes itself between two jobs: the branch that sends a failed result is entered if and only if a job of gearmand is set and the signal is not SIGINT, and then there is no current job, so it dereferences a null pointer |
| JobResult.Process.LastJob | worker/worker_client.c:118-136 | a worker that ends by itself after a job dies of that null pointer if and only if the job had no usable data |
| CommandLine.ParseCommandLine | common/check_utils.c:554-595 | argv holds the arguments of the command, with backslashes undone, at most MAX_CMD_ARGS - 1 of them, then a null pointer; nothing behind the command is written |
| CommandLine.TakeArgument | common/check_utils.c:563-591 | the write cursor stays behind the read cursor and below it earlier words are kept |
| CommandLine.WordsOfText | common/check_utils.c:554-595 | any words, with a backslash in front of their spaces and backslashes and of a quote they begin with, put apart by any spaces, are found again, all and in order |
| CommandLine.PlainWord | common/check_utils.c:581-587 | a word without spaces and backslashes that does not begin with a quote needs no backslash |
| CommandLine.QuoteIsAnArgument | common/check_utils.c:566-580 | a quote in front of a word gives an empty argument of its own, and what is quoted is not kept together |
| ResultList.HandedOverOnce | neb_module_naemon/mod_gearman.c:341-386 | for any number of threads, at any time: a result is in exactly one place, freed at most once, handed to the core at most once |
| ResultList.DrainedCompletely | neb_module_naemon/mod_gearman.c:341-379 | between drains every freed result has been passed on exactly once unless the module terminates |
| ResultList.NothingPassedAfterTermination | neb_module_naemon/mod_gearman.c:362-366 | in every run nothing is handed to the core once the module terminates |
| ResultList.NeverReadsFreedMemory | neb_module_naemon/mod_gearman.c:360-372 | the loop reads only nodes that have not been freed and can always go on |
| ResultList.NewestFirst | neb_module_naemon/mod_gearman.c:382-386 | the list holds what has been added since the last drain, newest first |
| ResultList.NextKeepsInv | neb_module_naemon/mod_gearman.c:341-386 | every access of list or mutex keeps the invariant |
| ResultList.ResultList.Add | neb_module_naemon/mod_gearman.c:382-386 | prepends |
| ResultList.ResultList.ProcessCheckResultList | neb_module_naemon/mod_gearman.c:341-379 | frees in order everything that was in the list, passing it on first as long as the module does not terminate and not at all if it did before; what comes in meanwhile stays |
| ConfigFiles.Config.ReadConfigFile | common/utils.c:1028-1107 | terminates on every file system; settings applied and result are those of the recursive description; nothing is opened below level 10 |
| ConfigFiles.Config.ParseArgsLine | common/utils.c:394-416 | an include reads one level deeper, a return code outside 0 to 3 is refused after it has been applied |
| ConfigFiles.Config.ReadDirectory | common/utils.c:1045-1076 | a directory is read to its end, whatever fails |
| ConfigFiles.Config.ReadText | common/utils.c:1078-1106 | a file is read up to its first error; fgets writes inside the allocation if and only if each line read has room behind the blanks and empty lines in front of it |
| ConfigFiles.EmptyLinesRunOut | common/utils.c:1083-1098 | a file of empty lines is read inside the allocation if and only if it has fewer of them than the allocation has bytes |
| ConfigFiles.LoadsExactlyTrees | common/utils.c:708-717 | loading succeeds if and only if there is a finite include tree not higher than the levels left, and then the settings applied are that tree flattened depth first |
| ConfigFiles.CommentsAreIgnored | common/utils.c:1083-1096 | a comment behind a line changes nothing |
| ConfigFiles.SpacesAreIgnored | common/utils.c:1094-1096 | spaces around a line and the newline at its end change nothing |
| ConfigFiles.SettingIsRead | common/utils.c:394-420 | a written setting, behind any hyphens, in any letters, with any spaces around key and value: three keys include a file, two check that the value is 0 to 3, all others are applied |
| ConfigFiles.DirectoryIncludes | common/utils.c:1052-1072 | a directory leads to its subdirectories and its .cfg and .conf files, under their paths, and to nothing else |
| ConfigFiles.ErrorEndsFile | common/utils.c:1097-1100 | a file is read up to its first error and no further |
| ConfigFiles.ErrorsInDirectory | common/utils.c:1052-1076 | a directory is read on behind an error, which is not forgotten |
| ConfigFiles.LowerLetters | common/utils.c:413 | keys are compared in lower case, letter by letter |
| ConfigFiles.CommentLineMoves | common/utils.c:1088-1091 | a line that is nothing but a comment does not move the pointer of the line buffer |
| ConfigFiles.IndentedLineMoves | common/utils.c:1094 | an indented line moves the pointer of the line buffer over its blanks |
| ConfigFiles.CyclesNeverLoad | common/utils.c:1038-1041 | a configuration that leads into a cycle of includes is never loaded, at whatever level |
| Routing.Module.SetTargetQueue | neb_module_naemon/mod_gearman.c:1371-1475 | the queue by the rules, one after the other: first matching variable of the service, of the host, local groups, first matching servicegroup, first matching hostgroup, generic; which is also the first of all candidates |
| Routing.Module.EventhandlerQueue | neb_module_naemon/mod_gearman.c:534-547 | event handlers follow the checks only into the queue of a group |
| Routing.Module.NotificationsQueue | neb_module_naemon/mod_gearman.c:635-645 | notifications have one queue, unless they are local |
| Routing.SetWorker | worker/worker_client.c:442-488 | the queues a worker registers |
| Routing.RegisteredQueues | worker/worker_client.c:442-488 | exactly which queues are registered, by options and group names |
| Routing.CheckQueueIsRegistered | neb_module_naemon/mod_gearman.c:1371-1475 | every check queue that does not come from a custom variable is registered by the workers with the same options, under a name short enough for libgearman |
| Routing.EventQueueIsRegistered | neb_module_naemon/mod_gearman.c:534-547 | the same for event handlers, and if they do not follow the checks, with custom variables, too |
| Routing.NotificationQueueIsRegistered | neb_module_naemon/mod_gearman.c:635-645 | the same for notifications |
| GroupNames.AddGroupNames | common/utils.c:868-903 | the loop adds the trimmed names of the value in order, without empty ones and without those over 50 characters |
| GroupNames.OnlyGroupNames | common/utils.c:872-879 | nothing but trimmed names of 1 to 50 characters without a comma gets into a list |
| GroupNames.NamesOfValue | common/utils.c:868-903 | a list written with commas, with any spaces around its names, is read back, but for empty names and those over 50 characters |
| Submission.Submitter.AddJobToQueue | common/gearman_utils.c:124-253 | nothing is sent exactly for a queue over 511 characters, a key over 64, a wrong priority or a failed encryption; otherwise at most retries + 1 attempts, all but the last failed, OK exactly if the last succeeded; mod_gm_con_errors is the number of jobs lost since the last success; a new client for every failure |
| Submission.Submitter.Sample | common/gearman_utils.c:174-183 | totals are what has been flushed plus the deltas, errors never exceed jobs, the sum never exceeds jobs times maximum |
| Submission.Submitter.Flush | common/gearman_utils.c:185-200 | what is reported: successful jobs per second, the mean duration and the longest, of all attempts since the last flush; both divisors are positive, the average is at most the maximum |
| Submission.Submitter.CountAttempt | common/gearman_utils.c:173-203 | a flush is made exactly if the interval has passed since an earlier one, and reports all attempts counted since then, this one included |
| Submission.BoundedNext | common/gearman_utils.c:174-179 | one more submission keeps the sum below the number times the maximum |
| GrowingReader.ReadFilepointer | common/utils.c:1809-1830 | for input of any length and content every append stays inside the allocation; what is stored is the kept part of the input |
| GrowingReader.Store | common/utils.c:1821-1827 | one step of growth is enough for one piece and its NUL |
| GrowingReader.KeptBeginning | common/utils.c:1814-1820 | what is kept is below GM_MAX_OUTPUT although the count starts with an offset, a beginning of the input unless that has a NUL, and all of it if and only if there is no NUL and the count stays below the limit up to the last piece |

## Left out

- ChildCheck.ReadChildCheck: states what it may write and which elements it accepts, not the text it puts together, because the model keeps only the effect on the buffer.
- SendResult.BuildMessage: the two buffers are strings with a capacity, not arrays; their bytes behind the NUL are not modelled.
- Transport.Decrypt: a decoded text shorter than five bytes is not compared with what a new buffer happens to contain behind it.
- GrowingReader.ReadFilepointer: read_pipe, which relies on what is left in its buffer, is not part of this model.
- ConfigFiles.Config.ParseArgsLine: settings are recorded as key and value; the table of options itself is not modelled.
- JobResult.Process.ExecuteSafeCommand: texts of outputs and the plugin itself are abstract.
- Submission.Submitter.AddJobToQueue: encryption succeeds or fails as the request says; counters do not wrap around.
- The status worker in slot 3, reloads, and handlers of the parent that re-enter its loops: exclusivity is not promised there.
- SHM_JOBS_DONE, which the children increment without synchronisation.
- Timestamps are the printed text; reading them back as floating-point numbers, and latency, are not modelled.
- Integers are unbounded; the program's int would have to overflow first.
- check_gearman, gearman_top, embedded Perl, logging, performance data, notification macros and the dummy checks would add easy members only.
