# Leandro: a verified model

Leandro forwards NVIDIA Resource Manager (RM) calls from a guest kernel module to a
host backend. This project models the parts of it where a mistake is hard to see, and
proves what they promise, in Dafny 4.11. `dafny verify dfyconfig.toml` checks all of it.

| file | what it models |
|---|---|
| `Transport.dfy` | one virtqueue request shared by its waiter, the completion callback, device removal and the release work, as a step system over every interleaving |
| `Pins.dfy` | pinned guest pages and the pin quota, with the host as an arbitrary replier; module `Identity` reads the replies |
| `Tables.dfy` | the descriptor-table stream: the host's writer, the guest's parser and lookups |
| `Collect.dfy` | the host's table builder, from translation rules to rows |
| `Xlate.dfy` | the direct translation rules, the guest's reading of the rows, and their agreement |
| `CallSpec.dfy` | what the tables say of one call: which fields are translated, what travels along, which refusal comes first |
| `Agreement.dfy` | the translated fields of a call by the rules and by the collected rows, and when a call is sent |
| `Marshal.dfy` | the guest's ioctl interpreter: gather, write back, caller memory with faults |
| `ObjectTree.dfy` | dependency-ordered teardown |
| `Vgpu.dfy` | vGPU profiles and admission |
| `Balloon.dfy`, `BalloonGate.dfy` | the VRAM balloon's arithmetic, bitmap and loops; its gate against processes |
| `Events.dfy`, `Callbacks.dfy`, `EventDelivery.dfy` | the event ring, the two callback tables, and the fate of every firing |
| `PageRuns.dfy` | coalescing pages into guest-physical runs |
| `Edid.dfy` | the invented display's EDID block |
| `Naming.dfy` | guest-visible GPU names |
| `Bytes.dfy` | byte buffers and little-endian words |
| `Common.dfy` | types and small arithmetic shared by the other modules |

How the model is made:

- Code that updates state becomes a class or a method with loops, proved against a
  function of the old state. Protocols between threads become step systems: a state, the
  steps each party may take, and theorems about every run.
- Machine integers are unbounded here. Where a width matters it is written out (the
  32-bit ring indices, the table header's counts, the narrowing of a vGPU charge, the
  wrapping length of an OS descriptor); where the code relies on a bound, the bound is a
  `requires`.
- Host replies, fault positions, the order in which a hash set yields its elements and the
  outcome of every transport call are arbitrary.
- The translation rules that come from generated driver layouts (parameter sizes, request
  sizes, nested pointers of a control) are parameters of the table builder; the theorems
  hold for any such rules under the stated conditions.

Results that turned out to have a condition:

- Reading a GPU name back inverts printing it for exactly the boards that do not look like
  what surrounds them.
- The EDID range limits contain the mode's own line rate exactly when it is at least 1 kHz.
- A semaphore waiter never fires after UNREGISTER exactly while at most one arming of its
  pointer was live.
- The guest and the direct rules agree exactly on tables whose classes are 16 bit and have
  nonempty parameters, as all classes in the driver's table do.
- `free_order` puts every dependant first exactly on acyclic graphs.
- A balloon chunk is a scanout buffer whenever 64 of them cover the reserve exactly for
  buffers of whole 64 KiB, as all scanout buffers are.
- The collected row of a userspace request names its inline fd exactly unless the request is
  a UVM one without a known size, which has no row.

## Model

| member | source | states |
|---|---|---|
| `Transport.StepKeepsInv` | guest-module/virtio_nvrm/virtio_nvrm.c:627-806 | every step of the waiter, the completion callback, removal, the release work and the host keeps the ownership invariant of every request |
| `Transport.RunKeepsInv` | guest-module/virtio_nvrm/virtio_nvrm.c:627-806 | so does every run, that is every interleaving of those steps |
| `Transport.WaiterKeepsRequest` | guest-module/virtio_nvrm/virtio_nvrm.c:702-806 | the waiter's own steps keep one request's invariant, given that the lock keeps the completion loops away from it |
| `Transport.FreedExactlyOnce` | guest-module/virtio_nvrm/virtio_nvrm.c:536-552 | in every run a request is freed at most once: by its caller unless abandoned, otherwise by the release work; a finished one exactly once |
| `Transport.NeverTouchedAfterFree` | guest-module/virtio_nvrm/virtio_nvrm.c:627-652 | no enabled step of any run reads or writes a request that has been freed |
| `Transport.InflightIsExact` | guest-module/virtio_nvrm/virtio_nvrm.c:702-806 | outside the critical sections the in-flight counter is the number of requests submitted and not completed |
| `Transport.AddSeesNoStop` | guest-module/virtio_nvrm/virtio_nvrm.c:702-760 | a step that puts a buffer into the queue finds the stopping flag clear |
| `Transport.NothingSubmittedOnceStopping` | guest-module/virtio_nvrm/virtio_nvrm.c:3625-3662 | after removal has set the stopping flag nothing is submitted, at any later point of the run |
| `Transport.RemovalCompletesEverything` | guest-module/virtio_nvrm/virtio_nvrm.c:3625-3662 | when removal returns the queue and the release work are empty, every submitted request is done, nobody sleeps on an answer that cannot come, every abandoned request was freed |
| `Transport.OutcomeIsTrue` | guest-module/virtio_nvrm/virtio_nvrm.c:702-806 | in every run a request is done exactly when one of the two completion loops completed it and never both; without an error only if the host answered it, with one exactly if removal completed it, and then the device was stopping; it comes back unsubmitted only after the loop saw the stop, a queue error or a give-up, and is abandoned only on a signal or timeout |
| `Identity.FreeReplyReadsBlock` | guest-module/virtio_nvrm/nvrm_identity.h:35-52 | a FREE block written by the host, with anything behind it, reads back as its client and object exactly when both return codes are zero |
| `Identity.FreeReplyCut` | guest-module/virtio_nvrm/nvrm_identity.h:35-52 | a reply cut short names nothing below the size of the block and the same object above it: no byte outside the reply decides |
| `Identity.OsdescReplyReads` | guest-module/virtio_nvrm/nvrm_identity.h:60-75 | status and handle words at any two offsets read back as created with that handle or as rejected |
| `Identity.OsdescReplyCut` | guest-module/virtio_nvrm/nvrm_identity.h:60-75 | a reply cut short proves nothing unless both words are inside what is left, and then what the whole reply proves |
| `Pins.StepKeepsInv` | guest-module/virtio_nvrm/virtio_nvrm.c:2836-3034 | every step of calls, closes, faults and quota updates keeps the ownership and quota invariants |
| `Pins.RunKeepsInv` | guest-module/virtio_nvrm/virtio_nvrm.c:2836-3034 | so does every run, with arbitrary bytes as host replies |
| `Pins.HistoryIsRecorded` | guest-module/virtio_nvrm/virtio_nvrm.c:2944-2980 | in every run the flags and the log are a record of its actions: each entry of one answer, to the call the context had begun, with the pin it had taken, certain exactly if nothing was in doubt by then |
| `Pins.UncertainIffDoubted` | guest-module/virtio_nvrm/virtio_nvrm.c:2944-2980 | in every run a context is uncertain if and only if one of its requests was lost, or an answer to a call with a pin left open whether the allocation was made |
| `Pins.ReleasedOnlyOnProof` | guest-module/virtio_nvrm/virtio_nvrm.c:2958-3034 | pages the host had been told about are released only on a reply that rejects that very allocation, or on an acknowledged FREE of the object or its client root, or on an acknowledged CLOSE whose scan came before the device began to stop; FREE and CLOSE count only after the reply that created the object, and only if no request of the context had been lost or left in doubt by then |
| `Pins.EveryPinIsDecided` | guest-module/virtio_nvrm/virtio_nvrm.c:1489-1537 | once a context is idle or closed each of its pins is listed, retained, quarantined or released, and one the host never heard of is always released |
| `Pins.RejectionReleases` | guest-module/virtio_nvrm/virtio_nvrm.c:2958-2980 | the converse over every run: once a rejection of an allocation is in the log, its pages are released |
| `Pins.CreatedIsListed` | guest-module/virtio_nvrm/virtio_nvrm.c:2962-2976 | in every run a pin whose allocation a reply confirmed is listed under the handle of that reply, until its pages are released or its context is closed |
| `Pins.AcknowledgedFreeReleases` | guest-module/virtio_nvrm/virtio_nvrm.c:2996-3018 | once the scan after an acknowledged FREE on a context without a lost or doubtful request is over, at any later point of the run, no listed pin of that context is named by it except one created after it |
| `Pins.CloseReleasesIff` | guest-module/virtio_nvrm/virtio_nvrm.c:1489-1502 | in every run, once a close is over its scan has taken each pin it found listed, which is released if and only if CLOSE was acknowledged, no request of the context had been lost or left in doubt, and the device was not stopping when the scan took it; otherwise it is retained or quarantined |
| `Pins.QuotaIsExact` | guest-module/virtio_nvrm/virtio_nvrm.c:483-514 | in every state of every run held pages are the pages of everything live, quarantined or being reserved, quarantined pages are the quarantined part, and granted charges stay within the limit |
| `Pins.ChargeIsGrantedIff` | guest-module/virtio_nvrm/virtio_nvrm.c:483-514 | in every run a charge is granted if and only if it and the pages of everything charged already fit the limit |
| `Pins.ObjActKeepsQuota` | guest-module/virtio_nvrm/virtio_nvrm.c:1107-1287 | one atomic update of the quota counters keeps both sums exact, on the error paths too |
| `Tables.SerializedIsParsed` | crates/nvrm-abi/src/table.rs:299-337 | every stream written from lists that fit 32 bits is accepted if and only if its control rows are in range, and the guest's views show exactly those lists |
| `Tables.ParsedIsSerialized` | guest-module/virtio_nvrm/nvrm_tables.c:49-121 | the other way: the rows of any accepted stream write its body again, byte for byte |
| `Tables.AcceptedIsDetermined` | guest-module/virtio_nvrm/nvrm_tables.c:49-121 | two accepted streams with equal header and equal rows are the same bytes |
| `Tables.StreamShows` | crates/nvrm-abi/src/table.rs:267-296 | the header read back from a written stream is the header written, lengths and checksum included |
| `Tables.Serialize` | crates/nvrm-abi/src/table.rs:299-337 | the writer's loops produce exactly that stream and its checksum |
| `Tables.Fnv1a32` | guest-module/virtio_nvrm/nvrm_tables.c:30-40 | the hash loop computes FNV-1a over 32 bits |
| `Tables.Views.Parse` | guest-module/virtio_nvrm/nvrm_tables.c:49-121 | the parser's verdict on any byte string, check by check in order, and on acceptance the four views |
| `Tables.Views.Controls` | guest-module/virtio_nvrm/nvrm_tables.c:111-119 | the loop over control rows accepts exactly when every row's count and nested range fit |
| `Tables.CtrlView` | guest-module/virtio_nvrm/nvrm_tables.c:105-119 | indexing the control view stays inside the blob and gives the row of the list |
| `Tables.IoctlView` | guest-module/virtio_nvrm/nvrm_tables.c:105-110 | the same of the ioctl view |
| `Tables.ClassView` | guest-module/virtio_nvrm/nvrm_tables.c:105-110 | the same of the class view |
| `Tables.NestedInside` | guest-module/virtio_nvrm/nvrm_tables.c:111-119 | every nested row a control of an accepted stream names lies inside the blob, at most four per control |
| `Tables.Views.FindIoctl` | guest-module/virtio_nvrm/nvrm_tables.c:123-132 | the lookup loop returns the first row with device and number, or none |
| `Tables.Views.FindClass` | guest-module/virtio_nvrm/nvrm_tables.c:134-143 | the first class row with the class, or none |
| `Tables.Views.FindCtrl` | guest-module/virtio_nvrm/nvrm_tables.c:145-154 | the first control row with the command, or none |
| `Collect.CollectIoctls` | crates/nvrm-abi/src/table.rs:108-162 | a lookup in the collected rows answers, for every device and request number, with the rule for that request and with nothing where there is no rule |
| `Collect.CollectClasses` | crates/nvrm-abi/src/table.rs:164-185 | a lookup by class answers with the class rule for every 16-bit class and with nothing above |
| `Collect.CollectCtrls` | crates/nvrm-abi/src/table.rs:187-256 | a row for exactly the commands of the nested, blocked and fd lists, each with the union of its flags; one row per command if and only if the nested list names none twice |
| `Collect.AddFd` | crates/nvrm-abi/src/table.rs:240-256 | the command has a row afterwards, a new one at the end only if it had none; every other row is the row it was, where it was, and no row's flags beyond the command's are touched |
| `Collect.NestedRowsArePartitioned` | crates/nvrm-abi/src/table.rs:187-221 | every nested row belongs to exactly one control: the ranges are disjoint and leave nothing over |
| `Collect.RangeIs` | crates/nvrm-abi/src/table.rs:187-221 | a control's range holds exactly the rows of its own rules |
| `Collect.CollectedIsAccepted` | guest-module/virtio_nvrm/nvrm_tables.c:111-119 | the parser accepts what the builder collects if and only if no control names more than four pointers |
| `Xlate.CollectAll` | crates/nvrm-abi/src/table.rs:105-264 | whatever the rules, the four collected lists say the same as the rules, and survive the wire |
| `Xlate.GuestAgrees` | crates/nvrm-abi/src/xlate.rs:707-771 | for every device, request, payload and accepted size the guest's reading of the collected rows is the direct rule: same offset and length, same none, same refusals, plus refusals of blocked controls and of lengths above the limit |
| `Xlate.ControlAgrees` | guest-module/virtio_nvrm/virtio_nvrm.c:2251-2326 | the CONTROL case of that agreement, for all 32-byte payloads |
| `Xlate.AllocAgrees` | guest-module/virtio_nvrm/virtio_nvrm.c:2290-2314 | the ALLOC case for both sizes, rights pointer and unknown classes included |
| `Xlate.MisfitDisagrees` | crates/nvrm-abi/src/xlate.rs:737-754 | the condition on the class table is exact: a class of size zero or beyond 16 bits makes the two sides differ on a concrete request |
| `Xlate.NestedAgrees` | crates/nvrm-abi/src/xlate.rs:1382-1396 | pointer by pointer, the nested rows found for a control give the offsets and lengths of the direct rules on every parameter buffer, failures included |
| `Agreement.RowsAgree` | crates/nvrm-abi/src/table.rs:108-162 | which requests have a row, and that its size and marks are those of the request: FREE, OS descriptor, XFER |
| `Agreement.InlineFdAgrees` | crates/nvrm-abi/src/xlate.rs:647-681 | for every accepted request of a userspace caller the fd offset in the collected row is the direct rule's, exactly unless it is a UVM request without a size; a kernel caller has none |
| `Agreement.AuxFdAgrees` | crates/nvrm-abi/src/xlate.rs:1095-1120 | for every accepted request and params buffer the fd field the rows name inside the params is the rule of its class, guard included, or of its command; two at once do not occur |
| `Agreement.ControlFdAgrees` | crates/nvrm-abi/src/xlate.rs:1213-1225 | the CONTROL case of that agreement |
| `Agreement.NestedPlanAgrees` | crates/nvrm-abi/src/xlate.rs:1382-1396 | the nested rows of a call are the pointers of the rules, one by one: a pointer is live exactly if it lies inside the params, is not null and its resolved length is not zero, and fails exactly if its length cannot be resolved |
| `Agreement.OsdescAgrees` | guest-module/virtio_nvrm/virtio_nvrm.c:2632-2680 | which calls the collected tables treat as OS descriptors, for either caller |
| `Agreement.InlineFieldsAreTheRules` | crates/nvrm-abi/src/xlate.rs:647-771 | the inline bytes the tables name for a call are exactly those the rules name |
| `Agreement.ParamFieldsAreTheRules` | crates/nvrm-abi/src/xlate.rs:1095-1396 | so are the bytes inside the params |
| `Agreement.SentIffSendable` | guest-module/virtio_nvrm/virtio_nvrm.c:2850-2908 | a call over collected tables is sent if and only if the rules find nothing wrong with it: memory readable, files known, lengths resolvable and within the limit, a descriptor in the form its caller may use |
| `Marshal.Call.Run` | guest-module/virtio_nvrm/virtio_nvrm.c:2836-2992 | a whole call with any reply: the status is exactly the first refusal the tables ask for, and a refusal leaves caller memory alone; otherwise only the caller's buffers change, and where they do not overlap every byte of them holds the reply's byte as far as the write-back got and its own elsewhere, a field the tables name always its own; the write-back fails exactly if a buffer cannot be written, and stops at the first such |
| `Marshal.Call.Gather` | guest-module/virtio_nvrm/virtio_nvrm.c:2850-2908 | refuses exactly when and with what the tables say; on success embedded pointer, inline fd, nested pointers, fd inside the params and OS-descriptor words are recorded exactly where the tables name them, everything sent was read from the caller, packed back to back within the limit, and fds travel as tokens of their files |
| `Marshal.Call.GatherEmbedded` | guest-module/virtio_nvrm/virtio_nvrm.c:2251-2531 | the same of the embedded part: faults, refusals and their order, the params at the pointer the tables decide on, every live pointer behind them, the one fd inside them |
| `Marshal.PlanNested` | guest-module/virtio_nvrm/virtio_nvrm.c:2361-2394 | the planning loop yields exactly the live pointers of the rows in order, or the refusal of the first row with an unreadable length or past the limit |
| `CallSpec.PlanDoneIff` | guest-module/virtio_nvrm/virtio_nvrm.c:2361-2394 | planning succeeds if and only if every row's length can be read and params and live buffers together fit the limit |
| `CallSpec.PlansAreLive` | guest-module/virtio_nvrm/virtio_nvrm.c:2361-2394 | an entry is planned if and only if some row is a live pointer that says so |
| `Marshal.Call.GatherNested` | guest-module/virtio_nvrm/virtio_nvrm.c:2395-2416 | the copy loop lays the planned buffers back to back behind the params, and faults exactly when one of them is not mapped |
| `Marshal.Call.GatherClassFd` | guest-module/virtio_nvrm/virtio_nvrm.c:2419-2464 | the fd inside allocation params is noted exactly when the class row names one and its guard holds, with those eight bytes and the token of their file; refuses exactly on a field or guard out of range or a number without a file |
| `Marshal.Call.GatherCtrlFd` | guest-module/virtio_nvrm/virtio_nvrm.c:2466-2522 | the same of the four bytes inside control params; a second fd is refused, and without a field nothing changes |
| `Marshal.Call.GatherFd` | guest-module/virtio_nvrm/virtio_nvrm.c:2872-2896 | the inline fd field is noted before it is replaced by a token, and refused exactly when it is out of range or names no file |
| `Marshal.Call.GatherOsdesc` | guest-module/virtio_nvrm/virtio_nvrm.c:2632-2726 | which calls are OS descriptors and in which form, the refusal of each check, and on success the runs of the pinned pages with address and limit saved from the words that were read; any other call is left as it was |
| `Marshal.RunBytes` | guest-module/virtio_nvrm/virtio_nvrm.c:2706-2724 | the runs of the pinned pages in wire form, exactly when they fit |
| `Marshal.InlineFieldsAreTheTables` | guest-module/virtio_nvrm/virtio_nvrm.c:2251-2326 | the inline bytes that are put back are exactly those the tables name for the call |
| `Marshal.ParamFieldsAreTheTables` | guest-module/virtio_nvrm/virtio_nvrm.c:2340-2522 | so are the bytes put back inside the params |
| `Marshal.TakenCarriesAll` | guest-module/virtio_nvrm/virtio_nvrm.c:2361-2416 | every live second-level pointer travels with its buffer: none is forwarded as a bare guest address |
| `Marshal.TableFieldsStay` | guest-module/virtio_nvrm/virtio_nvrm.c:2729-2809 | what keeps the recorded fields keeps every byte the tables name, inline and inside the params |
| `Marshal.ReplyLands` | guest-module/virtio_nvrm/virtio_nvrm.c:2729-2809 | byte by byte: what has arrived is the reply, nested buffers from behind the params, and what has not is untouched |
| `Marshal.FaultIsReal` | guest-module/virtio_nvrm/virtio_nvrm.c:2729-2809 | the write-back completes if and only if every buffer can be written, and otherwise stops at the first that cannot |
| `Marshal.Call.WriteBack` | guest-module/virtio_nvrm/virtio_nvrm.c:2729-2809 | write_back makes exactly the copies specified, in order, up to the first that faults, for replies of any length |
| `Marshal.OnlyGatheredIsWritten` | guest-module/virtio_nvrm/virtio_nvrm.c:2729-2809 | no byte outside the gathered ranges changes, however far the copies get |
| `Marshal.InlineFieldsKept` | guest-module/virtio_nvrm/virtio_nvrm.c:2769-2804 | the embedded pointer, the fd number and the OS-descriptor words in the inline block keep the caller's bytes for any reply and any fault |
| `Marshal.ParamFieldsKept` | guest-module/virtio_nvrm/virtio_nvrm.c:2747-2768 | so do the nested pointers and the fd number inside the params |
| `Marshal.InlineReplyArrives` | guest-module/virtio_nvrm/virtio_nvrm.c:2732-2739 | every other inline byte is the reply's, or the request's where the reply is short |
| `Marshal.ParamsReplyArrives` | guest-module/virtio_nvrm/virtio_nvrm.c:2765-2768 | the same of the params |
| `Marshal.NestedReplyArrives` | guest-module/virtio_nvrm/virtio_nvrm.c:2747-2756 | the same of each nested buffer |
| `Marshal.CollectedTablesFit` | crates/nvrm-abi/src/table.rs:475-531 | the tables the builder makes meet what the interpreter takes for granted |
| `ObjectTree.Tracker.Insert` | crates/nvrm-client/src/object.rs:40-53 | a reused handle starts with its own edges only, every other object gains at most the edge of its new child, and every edge still points at a tracked object if the new object's do |
| `ObjectTree.InsertedEdges` | crates/nvrm-client/src/object.rs:40-53 | exactly which edges an insert leaves |
| `ObjectTree.Tracker.AddDependant` | crates/nvrm-client/src/object.rs:55-61 | an edge is added if and only if both ends are tracked |
| `ObjectTree.Tracker.Remove` | crates/nvrm-client/src/object.rs:72-78 | an object and every edge to it are gone, nothing else |
| `ObjectTree.Tracker.FreeOrder` | crates/nvrm-client/src/object.rs:80-85 | on any graph, cyclic included: exactly the reachable handles, once each, the root last |
| `ObjectTree.Tracker.Visit` | crates/nvrm-client/src/object.rs:87-97 | what the recursive walk adds, from any set already seen; it terminates |
| `ObjectTree.DependantsFirstIffAcyclic` | crates/nvrm-client/src/object.rs:80-97 | every handle follows all its dependants if and only if the reachable graph has no cycle |
| `ObjectTree.Client.Free` | crates/nvrm-client/src/lib.rs:154-166 | a successful free removes exactly the reachable set, dependants first, each with its own parent; a refusal stops after a prefix |
| `Vgpu.NeverOversubscribed` | crates/nvrm-abi/src/vgpu.rs:191-240 | however VMs come and go, framebuffer plus overhead of the running ones never exceeds available minus carve-out, which is the usable heap on a card of whole eighths of segments |
| `Vgpu.ChargeCoversShare` | crates/nvrm-abi/src/vgpu.rs:210-230 | a charge covers its exact share, and narrowing it to 64 bits loses nothing |
| `Vgpu.ChargeIsLeast` | crates/nvrm-abi/src/vgpu.rs:210-230 | and no whole number of MiB that covers the share is less |
| `Vgpu.ProfileForIff` | crates/nvrm-abi/src/vgpu.rs:210-230 | a framebuffer gets a profile if and only if it and its overhead fit the heap |
| `Vgpu.EncoderShareIsPercentage` | crates/nvrm-abi/src/vgpu.rs:120-125 | the whole percentage of the card, at least 1 and at most 100 |
| `Vgpu.RunStaysWithin` | crates/nvrm-abi/src/vgpu.rs:238-241 | admitted runs keep the summed charges within the card |
| `Vgpu.NamedTypesAreSound` | crates/nvrm-abi/src/vgpu.rs:155-187 | every named type gets a profile: segment-aligned, at most its share, at least its count of instances, for any segment size |
| `Vgpu.NamedFbIsLargest` | crates/nvrm-abi/src/vgpu.rs:168-184 | a named framebuffer is the largest whole number of segments that leaves its share the rounded reserve and overhead; there is none exactly if no segment does or the divisor's number of them exceeds the usable heap |
| `Vgpu.NamedTypesAreAdmitted` | crates/nvrm-abi/src/vgpu.rs:155-241 | as many VMs of a named type as it divides the card by are admitted one after the other |
| `Vgpu.Derive` | crates/nvrm-abi/src/vgpu.rs:155-187 | the loop emits, in order, exactly the rows of the powers of two that leave a whole share, and every row is sound for its divisor |
| `Vgpu.NamedRowsAreSound` | crates/nvrm-abi/src/vgpu.rs:155-187 | no divisor with a framebuffer lacks its row: profile_for never refuses a candidate that reaches it |
| `Vgpu.AlignUpIsLeast` | crates/nvrm-abi/src/vgpu.rs:130-136 | the least multiple at or above |
| `Vgpu.AlignDownIsBelow` | crates/nvrm-abi/src/vgpu.rs:137-143 | the greatest multiple at or below: less than one step away |
| `Balloon.CutIsSound` | guest-module/virtio_nvrm/nvrm_vram.c:124-140 | at most 64 chunks, rest included, summing to the reserve, the rest below a chunk |
| `Balloon.ChunkSizeIsLeast` | guest-module/virtio_nvrm/nvrm_vram.c:124-140 | a chunk is the larger of a scanout buffer and the least multiple of 64 KiB that covers the reserve in 64 pieces; for a buffer of whole 64 KiB it is the buffer exactly when 64 of them cover the reserve |
| `Balloon.UnalignedBufferGivesWay` | guest-module/virtio_nvrm/nvrm_vram.c:124-140 | an unaligned buffer may give way to a larger chunk although 64 of it would do |
| `Balloon.Pick` | guest-module/virtio_nvrm/nvrm_vram.c:142-149 | a full chunk while one is held and the rest does not cover the want, the rest otherwise, nothing when nothing is held |
| `Balloon.Reserve.HeldIsExact` | guest-module/virtio_nvrm/virtio_nvrm.c:6092-6168 | held bytes equal the target exactly when all chunks are held and zero exactly when none is |
| `Balloon.Reserve.AllocChunk` | guest-module/virtio_nvrm/virtio_nvrm.c:6120-6142 | a granted chunk adds its bit and bytes, a refusal changes nothing |
| `Balloon.Reserve.FreeChunk` | guest-module/virtio_nvrm/virtio_nvrm.c:6144-6168 | only a failed transport keeps bit and bytes |
| `Balloon.Reserve.Deflate` | guest-module/virtio_nvrm/virtio_nvrm.c:6173-6193 | terminates; returns exactly the drop in held bytes, less than want plus a chunk; every free but the last was granted, each granted one took one chunk, and it falls short only with nothing held or with its last free lost, and then always |
| `Balloon.Reserve.Recut` | guest-module/virtio_nvrm/virtio_nvrm.c:6199-6227 | a new target or chunk size leaves no stale bit |
| `Balloon.Reserve.Fill` | guest-module/virtio_nvrm/virtio_nvrm.c:6199-6265 | success is exactly the target held; a failure is the code of opening the device, where it had to be opened, or of the last chunk asked for, every chunk before it granted |
| `Balloon.Reserve.Retry` | guest-module/virtio_nvrm/virtio_nvrm.c:6290-6322 | the retry loop terminates, its answer is that of the last retry and every earlier one was out of room; it gives up only for a zero size, with an empty balloon, or when the first free of another round was lost |
| `Balloon.Reserve.Stop` | guest-module/virtio_nvrm/virtio_nvrm.c:6388-6401 | nothing is held after stop |
| `BalloonGate.RunKeepsInv` | guest-module/virtio_nvrm/virtio_nvrm.c:2863-2870 | the gate and lock invariants over every interleaving of processes, NVKMS callers and the refill worker |
| `BalloonGate.NobodySlipsBetween` | guest-module/virtio_nvrm/virtio_nvrm.c:6290-6322 | no process VIDMEM allocation and no refill is submitted between a balloon free and the retry it is for |
| `BalloonGate.RetryIsGranted` | guest-module/virtio_nvrm/virtio_nvrm.c:6290-6322 | on a byte ledger serving in submission order the retry is granted when the chunks given back cover it and no other NVKMS allocation came between |
| `EventRing.Ring.Push` | guest-module/virtio_nvrm/virtio_nvrm.c:675-685 | appends to a FIFO of 8192, or refuses exactly when it is full, across the 32-bit wrap of both indices |
| `EventRing.Ring.Pop` | guest-module/virtio_nvrm/virtio_nvrm.c:5098-5106 | takes the oldest, or nothing when empty |
| `EventRing.MaskAcrossWrap` | guest-module/virtio_nvrm/virtio_nvrm.c:675-685 | masking a wrapped index finds the cell the unwrapped one would |
| `EventDelivery.Device.EveryFiringIsAccounted` | guest-module/virtio_nvrm/virtio_nvrm.c:662-697 | received equals ring plus in hand plus delivered plus dropped, and dropped is the sum of its four counters |
| `EventDelivery.Device.Receive` | guest-module/virtio_nvrm/virtio_nvrm.c:662-697 | a well-formed firing is queued or counted as ring-full, anything else is ignored |
| `EventDelivery.Device.Fire` | guest-module/virtio_nvrm/virtio_nvrm.c:5092-5113 | one record is decided with the fate its class, slot or file gives it, and exactly one counter moves |
| `EventDelivery.Device.Wakeup` | guest-module/virtio_nvrm/virtio_nvrm.c:5068-5090 | wakes the file with that process and token, and no other |
| `EventDelivery.WakesExactlyItsFile` | guest-module/virtio_nvrm/virtio_nvrm.c:5068-5090 | an OS event is delivered exactly if the file of its process and token is open, and marks that file alone |
| `EventDelivery.Device.Drain` | guest-module/virtio_nvrm/virtio_nvrm.c:5092-5113 | an undisturbed worker decides everything the ring took, in arrival order |
| `EventDelivery.KeyIsInjective` | guest-module/virtio_nvrm/virtio_nvrm.c:1063-1069 | two indexed files never share a key |
| `Callbacks.CallbackOnlyWhileRegistered` | guest-module/virtio_nvrm/virtio_nvrm.c:4980-5057 | in every interleaving a kernel callback runs only for a slot registered since the last FREE of its object or client, and with that slot's own pointer |
| `Callbacks.TableIsRegistered` | guest-module/virtio_nvrm/virtio_nvrm.c:4696-4778 | after any interleaving the table holds exactly what is registered: each registration that found room, until an operation clears it, as often as it was made |
| `Callbacks.RegisteredCallbackRuns` | guest-module/virtio_nvrm/virtio_nvrm.c:4980-5057 | the converse: in every interleaving a firing for the one callback registered for its client, handle and session runs it, unless the pointer is stale or the notifier filtered; a firing for none is dropped |
| `Callbacks.RegisteredSinceRuns` | guest-module/virtio_nvrm/virtio_nvrm.c:4980-5057 | so a callback registered while there was room, not cleared since and alone for its event, runs, or is filtered exactly for a filtered notifier |
| `Callbacks.SlotHistory` | guest-module/virtio_nvrm/virtio_nvrm.c:4743-4766 | a taken slot survived the step untouched or was just registered |
| `Callbacks.WaiterFiresOnce` | guest-module/virtio_nvrm/virtio_nvrm.c:4926-4964 | one arming of a semaphore waiter fires at most once |
| `Callbacks.ArmedWaiterIsWoken` | guest-module/virtio_nvrm/virtio_nvrm.c:4926-4964 | a waiter armed while there was a free slot and not taken out since is woken by the firing for its client, session and pointer, that very arming if it is the only one live |
| `Callbacks.NeverAfterUnregister` | guest-module/virtio_nvrm/virtio_nvrm.c:4892-4922 | with at most one live arming of the pointer, no firing after UNREGISTER until it is armed again |
| `Callbacks.SecondArmingStillFires` | guest-module/virtio_nvrm/virtio_nvrm.c:4804-4818 | that proviso is exact: with two live armings a firing after UNREGISTER still runs the callback |
| `Callbacks.DisarmRemovesOne` | guest-module/virtio_nvrm/virtio_nvrm.c:4804-4818 | UNREGISTER removes exactly one live arming, if there is one |
| `Callbacks.CountersAreExact` | guest-module/virtio_nvrm/virtio_nvrm.c:4696-4778 | the published counters are the occupied slots after any interleaving |
| `Callbacks.Registry.AfterAlloc` | guest-module/virtio_nvrm/virtio_nvrm.c:4696-4738 | the slot loop takes the first free slot for a granted event object |
| `Callbacks.Registry.Free` | guest-module/virtio_nvrm/virtio_nvrm.c:4743-4766 | the fence loop clears the object's slot, or all of a client's, and counts them down |
| `Callbacks.Registry.BeforeControl` | guest-module/virtio_nvrm/virtio_nvrm.c:4829-4889 | a kernel pointer takes the first free waiter slot before submission; 32-bit values take none |
| `Callbacks.Registry.AfterControl` | guest-module/virtio_nvrm/virtio_nvrm.c:4892-4922 | a refused registration and every cancellation give one slot back |
| `Callbacks.Registry.FireSemaphore` | guest-module/virtio_nvrm/virtio_nvrm.c:4926-4964 | the first matching waiter is given back, then called |
| `Callbacks.Registry.FireCallback` | guest-module/virtio_nvrm/virtio_nvrm.c:4980-5057 | class, slot, pointer and notifier decide what a firing does |
| `Callbacks.Registry.DropAll` | guest-module/virtio_nvrm/virtio_nvrm.c:4768-4778 | teardown clears every event slot and the counter |
| `Callbacks.Registry.DropWaiting` | guest-module/virtio_nvrm/virtio_nvrm.c:4967-4978 | teardown clears every waiter and the counter |
| `PageRuns.ExpandCoalesce` | guest-module/virtio_nvrm/virtio_nvrm.c:1290-1310 | expanding the runs gives the page sequence back, in order |
| `PageRuns.CoalescedApart` | guest-module/virtio_nvrm/virtio_nvrm.c:1290-1310 | no run starts where the one before it ends |
| `PageRuns.MaximalRunsAreUnique` | guest-module/virtio_nvrm/virtio_nvrm.c:1290-1310 | any run list that expands to the pages and has no mergeable neighbours is the coalesced one |
| `PageRuns.RunsFromPages` | guest-module/virtio_nvrm/virtio_nvrm.c:1290-1310 | the loop fills exactly those runs, or returns zero exactly when they exceed the maximum |
| `PageRuns.CountIsLength` | guest-module/nvrm_nodes/nvrm_nodes_main.c:287-297 | the counting pass gives the number the building pass needs |
| `PageRuns.CountRuns` | guest-module/nvrm_nodes/nvrm_nodes_main.c:287-297 | the counting loop computes it |
| `PageRuns.FillRuns` | guest-module/nvrm_nodes/nvrm_nodes_main.c:311-322 | the building loop fills an array of exactly that size without another check |
| `PageRuns.VaToGpa` | guest-module/nvrm_nodes/nvrm_nodes_main.c:287-322 | the runs, or the number needed when the caller's buffer is too small |
| `Edid.EffectiveMode` | guest-module/virtio_nvrm/nvrm_edid.c:78-113 | the clamp's branches compute the effective mode |
| `Edid.ClampIsIdempotent` | guest-module/virtio_nvrm/nvrm_edid.c:78-113 | clamping an effective mode changes nothing, for all inputs |
| `Edid.EffectiveFits` | guest-module/virtio_nvrm/nvrm_edid.c:55-72 | every field of the block is wide enough for the effective mode |
| `Edid.ClampIsTight` | guest-module/virtio_nvrm/nvrm_edid.c:78-113 | a request that fits is kept; otherwise the rate is the highest up to the one asked for that fits with either blanking, and the narrow blanking is used only where the wide one would not do |
| `Edid.DtdRoundTrip` | guest-module/virtio_nvrm/nvrm_edid.c:135-162 | a timing whose fields have the widths of section 3.10.2 of EDID 1.4 decodes to itself |
| `Edid.DescriptorSaysTheMode` | guest-module/virtio_nvrm/nvrm_edid.c:115-162 | for any size and rate the descriptor reads back as the timing of the effective mode |
| `Edid.RateAndClockContained` | guest-module/virtio_nvrm/nvrm_edid.c:260-288 | the range limits contain the effective rate and the pixel clock |
| `Edid.LineRateContainedIff` | guest-module/virtio_nvrm/nvrm_edid.c:260-283 | they contain the line rate if and only if it is at least 1 kHz |
| `Edid.SmallestModeIsExcluded` | guest-module/virtio_nvrm/nvrm_edid.c:260-283 | the mode 1 x 1 at 1 Hz is below that and outside its own limits |
| `Edid.BlockSumsToZero` | guest-module/virtio_nvrm/nvrm_edid.c:311-313 | the 128 bytes add up to zero modulo 256 |
| `Edid.BlockHolds` | guest-module/virtio_nvrm/nvrm_edid.c:244-296 | where the descriptors sit in the block |
| `Edid.BuildEdid` | guest-module/virtio_nvrm/nvrm_edid.c:171-314 | the builder writes exactly that block |
| `Edid.Seal` | guest-module/virtio_nvrm/nvrm_edid.c:311-313 | the summing loop and the check byte |
| `Naming.ParseInvertsPrint` | crates/nvrm-abi/src/naming.rs:347-373 | parse_name inverts guest_name if and only if the board is not empty, does not start like a transport word (legacy format) and does not end like a size (no profile) |
| `Naming.LabelRoundTrip` | crates/nvrm-abi/src/naming.rs:152-173 | a size survives its label, for every nonzero 64-bit MiB count |
| `Naming.LabelIsShortest` | crates/nvrm-abi/src/naming.rs:152-159 | the label is the shortest string that reads back as the size and the only one of its length: GiB exactly for whole GiB |
| `Naming.BoundedNameKeepsSizeWhole` | crates/nvrm-abi/src/naming.rs:301-334 | the bounded name fits and carries the whole size or none, or is the fallback; it reads back as what was printed if and only if that board is unambiguous |
| `Naming.PrintedSizeIsRead` | crates/nvrm-abi/src/naming.rs:347-373 | a printed size is read whole whatever the board looks like |

## Left out

- Bus-address mediation in the interpreter: it is off by default, and the interpreter is modelled with it off.
- Reuse of host window slots and the mmap paths.
- Sharing of host objects beyond the close of their source; a FREE, CLOSE or rejection acknowledged by the host is what releases pages here.
- The host backend and the hypervisor patches: the host is an arbitrary replier, or a byte ledger in `BalloonGate.dfy`.
- Generated driver layouts and static tables (`nvrm-sys`, `nvgpu.rs`, `mediate.rs`): their numbers enter as parameters of the rules.
- Foreign calls, memory mappings and handle counters of the client crate.
- Virtual-display control answers, module parameters, logging, node creation and procfs: plumbing.
- Unwrapping of the XFER request: calls are modelled after it, with their real number, size and address.
- Failed kernel memory allocations inside the interpreter: they end a call like the other refusals.
- Real time: timeouts, back-off and timers are steps that may happen at any moment.
- Pins.ReleasedOnlyOnProof: speaks of pins. UVM semaphore pools are charged to the same quota, but their pages go with the mapping, without a word from the host.
- Marshal.Call.GatherOsdesc: in the kernel form the descriptor and limit inside the params are put back by the host, not by the guest, so only the userspace form's words are proved restored; a missing DMA device and a failed pin are one outcome.
- Marshal.Call.Run: the caller does not change its own buffers between gathering and write-back; the lemmas it is built from compare with the bytes that were gathered. The addresses a copy to it faults on are arbitrary but the same throughout the call.
- Callbacks: the function and argument words behind a callback pointer, and what the callback does, are not modelled; a null function still counts as delivered, as in the code.
- Naming.ParseInvertsPrint: boards are ASCII; other white space and case folding of option spellings are not modelled.
- Vgpu.NeverOversubscribed: the heap is positive and no sum or product of the source overflows on the card, as stated in `Fits`.
- Option parsing of profile sizes, catalogue printing and board names of the vGPU crate.
- The scanout and reserve sizing formulas of `nvrm_vram.c`: single expressions.
