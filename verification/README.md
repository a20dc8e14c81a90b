# jail / jaild: a verified model

`jaild` accepts connections inside a container; for every connection one *session* process
(`server/child.c`) starts one *guest* program and relays its standard streams, its terminal size and its
exit status to the *client* (`client/jail.c`) over a byte stream cut into small frames. This project models
both ends of that conversation, the string-list codec they share, the container's init that forks the
sessions, the process outside that outlives it, and the process-title trick of `common/cmdline.c`, and proves
properties that hold in every run.

The files follow the program.

| file | models |
|---|---|
| `Bytes.dfy` | octets, C strings, little-endian fields |
| `StringList.dfy` | `common/array.c` |
| `Message.dfy` | `common/message.h`: frames, their unique decoding, payloads |
| `Decoder.dfy` | `common/buffer.c` and the receive loop both sides have |
| `Environ.dfy`, `GuestEnv.dfy` | `common/environ.c`; the guest's environment in `server/child.c` |
| `ForkPayload.dfy` | `client_prepare` and `child_parse` |
| `Kernel.dfy` | descriptor table and child processes as POSIX has them |
| `Descriptors.dfy` | the three ways of forking a guest and their descriptors |
| `Runs.dfy` | runs of a machine, whatever its states and events |
| `Session.dfy`, `SessionSafety.dfy` | the session as a state machine; what every step keeps |
| `Client.dfy`, `ClientSafety.dfy` | the client as a state machine; what every step keeps |
| `Receivers.dfy` | both sides as instances of the receive loop |
| `Relay.dfy` | both machines over one connection: the end-to-end theorems |
| `ChildProcess.dfy`, `ClientProcess.dfy` | `server/child.c` and `client/jail.c` as written, globals updated in place |
| `Master.dfy` | `server_loop` and `server_sigchld` in `server/jaild.c` |
| `Babysitter.dfy` | `server_wait_for_child` in `server/jaild.c` |
| `CommandLine.dfy` | `common/cmdline.c` |

How it fits together. `Session` and `Client` are transition systems: a state, an event for every step the C
code or its surroundings can make (a system call with its answer, a child's exit, a signal, a resize), and
`Next`. `Runs.Leads` says that a sequence of events is possible from one state and leads to another.
`SessionSafety.Safe` and `ClientSafety.Safe` are inductive invariants over these. `Relay` runs both machines,
in any interleaving and with any chunking of the wires, and its theorems quantify over every such run.
`ChildProcess.ChildSession` and `ClientProcess.JailClient` are the imperative programs: each method
carries a ghost history of events and is proved to be a run of the machine, so that what is proved of every
run is proved of the program (`AlwaysSafe`). The bytes they assemble in their local buffers and write - to
the wire, to the guest's stdin, to the client's stdout and stderr - are collected in fields and are the
machine's, byte for byte. Before every step of the machine that makes a system call, any number of outside
events may happen in them; within a step - a read and the write that passes it on, the calls that execute one
frame, `waitpid` and the write of the status - there are none, and nothing but the next `waitpid`, `pselect`
or `TIOCGWINSZ` could see them. What `pselect` answers and what a read then brings are parameters (`Poll`,
`Look`), and the contracts say which steps of the machine follow, in which order. Other calls may fail at any
time, unless the constant `works` says that none does; then the contracts say that the methods succeed.

System calls answer anything POSIX lets them answer: reads return any non-empty piece of what is in flight,
writes may be short, `waitpid` returns any exited child, `pselect` any subset of ready descriptors. A blocked
signal is a pending flag that only `pselect` or `sigsuspend` delivers. The target is little-endian LP64
Linux: `struct termios` is 60 opaque bytes, `struct winsize` 8, and the relay reads at most 8185 bytes.

## Where the code differs from what one would expect

- An empty argument ends the argument list on the wire (`common/array.c` closes a list with an empty
  string). `ForkPayload.RoundTrip` states what arrives for every argument vector and that it is what was sent
  exactly when no argument is empty.
- `child_run` has a branch that ends a session once the guest is reaped and both outputs are drained. It is
  unreachable: `child_sigchld` returns 1 for the guest and `child_loop` returns at once
  (`SessionSafety.Safe` contains `s.pc != Ended(Finished)`). Output the guest wrote and the session had not
  read by then is dropped. What the session has read is not: `Relay.OutputConserved` holds of ended sides too,
  unless a call failed, and `Relay.NothingMissing` says that a client which ends with an exit code other than
  255 has written all of it.
- `client_process_remote_status` checks for `sizeof(message_t)`, five bytes, and then reads an `int` at offset
  four, past the end of a frame of five to seven bytes. The model has the value `PastTheFrame` for that;
  `Relay.ExitCodeIsGuests` shows that it never happens with this session.
- `server_wait_for_child` suspends after reaping a child that is not the one it waits for, without asking
  `waitpid` again. `Babysitter.NeverSleepsPastDeath` shows that it cannot sleep past its child's death exactly
  when that child is the only one. So it is for the daemon, which has just been forked. In the foreground the
  process is the one that was executed and keeps any children it had, so there it is no guarantee.
- The asserts of `common/buffer.c` are compiled out (`NDEBUG`); the preconditions and invariants of
  `Decoder.FrameBuffer` say the same and are proved at every call.
- `cmdline_setup` stores the NULL of the copied vector at index `argc`. When not all of argv was found
  contiguous, that is behind the vector, where the copies lie: with one argument missing the store empties the
  new `argv[0]` (`CommandLine.LastMissed`; `CmdLine.TwoApart` gives an input). `CmdLine.Setup` says exactly
  when the copies survive it, by `Spared`, which needs only the number of arguments and the lengths of those
  found; `CmdLine.AllFound` that nothing is at stake if and only if argv is contiguous; and `Strays` when the
  store leaves its memory, after which nothing is claimed.
- `cmdline_setup` copies the part of `environ` that lies in one piece behind argv and makes that the new
  `environ`; every variable behind the first gap is gone. `CmdLine.EnvironSurvives` says exactly when none is
  lost, unless memory runs out: when `environ` is empty, or does not begin in one piece behind argv, or stays
  in one piece with it to its end. `CmdLine.VariableLost` gives an input that loses one.
- The master is the first process of its namespace and adopts orphans, a guest among them whose session ended
  before it. It reaps them like its own; `Master.Accounted` counts them.

## Model

| member | source | states |
|---|---|---|
| StringList.ParseLanguage | common/array.c:51-114 | a window of bytes parses if and only if it holds a list end (a NUL at the front or behind a NUL), and the bytes used reach through the first one |
| StringList.ParseThenSerialize | common/array.c:80-182 | serialising what was parsed gives back exactly the bytes that were used, and no parsed element is empty |
| StringList.SerializeThenParse | common/array.c:80-182 | reading a serialised list, whatever follows it, yields its elements up to the first empty one and uses just their bytes |
| StringList.SerializeSplit | common/array.c:149-182 | behind an empty element the bytes are again a serialised list: that of the elements after it |
| StringList.Layout | common/array.c:149-182 | the i-th string with its NUL lies behind the room of those before it, and one NUL ends the list: its size is the sum of the lengths with their NULs and one |
| StringList.ArraySanityTest | common/array.c:51-78 | the scan stays inside the window and answers the number of strings before the list end, or -1 if there is none |
| StringList.ArrayParse | common/array.c:80-114 | the pointers denote, in place, the strings of the list; the offset returned is the bytes used; -1 exactly when there is no list end or no byte |
| StringList.ArrayGetSize | common/array.c:132-147 | the size is exactly that of the serialised list |
| StringList.ArraySerialize | common/array.c:149-182 | writes exactly the serialised list if it fits the length given, otherwise -1; nothing outside the given length is touched in any case |
| StringList.StringArray.constructor | common/array.c:22-29 | an empty array |
| StringList.StringArray.Push | common/array.c:184-216 | appends the string; the block is replaced exactly when it is full, by one of 10 slots and then of twice as many; when memory runs out, -1 and the array as it was |
| Message.DecodeEncoded | common/message.h:36-68 | a frame with a body written in front of any bytes is decoded again, and exactly its bytes are taken |
| Message.EncodeDecoded | common/message.h:36-68 | re-encoding a frame read from the wire gives the bytes it was read from |
| Message.Assemble | server/child.c:876-880 | the bytes every sender puts into its local buffer, header fields first, are the encoding of the frame |
| Message.NextFrame | server/child.c:797-832 | of a stream of frames cut off anywhere, a whole frame at the front is the first one sent |
| Message.FramesPrefix | server/child.c:797-832 | decoding is unique on a wire in flight: bytes that prefix the sender's bytes decode to a prefix of the sender's frames |
| Message.FramesInEncoded | server/child.c:797-832 | a stream of frames followed by a fragment contains exactly these whole frames |
| Decoder.DrainLeavesRoom | server/child.c:797-832 | the frame loop takes at least five bytes per frame handed out, and what it leaves holds no whole frame and at least two bytes of room |
| Decoder.DrainSplit | server/child.c:797-832 | draining a stream equals draining its start and then the residue with the rest; a refused frame stops both at the same place |
| Decoder.ChunkIndependence | common/buffer.c:40-81 | for any dispatcher that refuses bodyless frames and any way of cutting a stream into reads: same state, same verdict and same residue as one pass over the whole stream |
| Decoder.FrameBuffer.constructor | common/buffer.c:21-25 | an empty buffer |
| Decoder.FrameBuffer.GetBufferSpace | common/buffer.c:27-32 | the room left is the capacity less the bytes held |
| Decoder.FrameBuffer.PushBuffer | common/buffer.c:77-81 | what was read stands behind what the buffer held |
| Decoder.FrameBuffer.GetMessage | common/buffer.c:40-58 | answers 0 exactly when a whole frame, by its length field, is at the front |
| Decoder.FrameBuffer.FrontLength | common/buffer.c:40-58 | the length field of the front frame, read in place |
| Decoder.FrameBuffer.ConsumeMessage | common/buffer.c:60-75 | in place, the buffer then holds exactly what stood behind the front frame |
| Environ.EnvironPermitted | common/environ.c:34-56 | the scan over the table answers true exactly for assignments to a listed name and for entries beginning with LC_ |
| Environ.ScanAnswers | common/environ.c:34-56 | what the whitelist means, stated by the name before the first '=', holds of an entry if and only if some row of the table matches its bytes |
| Environ.AssignmentOf | server/child.c:184 | of any assignment, name without '=', the name is what stands before the first '=' and the value what stands behind it |
| GuestEnv.PutAllEffect | server/child.c:167-219 | after putting a received list, a name has the effect of its last admitted entry - the value behind its '=', or none for a bare name - and is as before if it has none |
| GuestEnv.LastForIsPermitted | server/child.c:167-219 | the entry that decides a name is an admitted one of the list with that name, and there is none exactly when the list has none |
| GuestEnv.LastOfPermitted | client/jail.c:63-78 | leaving out what is not admitted, as the client does, does not change which entry decides a name |
| GuestEnv.FiveAreNotWhitelisted | common/environ.c:25-32 | HOME, PWD, SHELL, LOGNAME and USER are not on the whitelist |
| GuestEnv.GuestEnvironment | server/child.c:167-219 | at exec, for every account and received list: five variables independent of the list, nothing else outside the whitelist, every other name from its last admitted entry, SSH_TTY only the guest's terminal |
| GuestEnv.PutenvEffect | server/child.c:184 | putting name=value gives the name just that value, and putting a bare name removes it |
| GuestEnv.LastAssignmentWins | server/child.c:172-187 | for a listed name other than SSH_TTY, the guest has just the value of the last assignment to it in the list, whatever stands before |
| GuestEnv.NotAssigned | server/child.c:172-187 | a name other than those five that nothing in the list assigns to is absent |
| GuestEnv.AccountVariables | server/child.c:140-202 | whatever the list, HOME, PWD, LOGNAME and USER are the account's, and SHELL is the override, else a login shell that is an absolute path, else /bin/sh |
| GuestEnv.NothingElse | server/child.c:167-219 | every variable at exec is one of those five or has a listed name |
| GuestEnv.OwnTerminal | server/child.c:204-216 | SSH_TTY is the guest's own terminal if the list assigns to it and there is one, and absent otherwise |
| GuestEnv.ChildEnvironment.Setenv | server/child.c:167-219 | sets the one variable, or fails - unless calls work - and changes nothing |
| GuestEnv.ChildEnvironment.Unsetenv | server/child.c:204-216 | removes the one variable, or fails - unless calls work - and changes nothing |
| GuestEnv.ChildEnvironment.PutEnv | server/child.c:172-187 | putenv: assigns the value behind the '=', or removes the name if there is none |
| GuestEnv.ChildEnvironment.ChdirToHome | server/child.c:298-317 | HOME is the account's directory, PWD the directory entered: that one if it can be, else the root; if calls work it fails only when neither can be entered |
| GuestEnv.ChildEnvironment.SetupEnvvars | server/child.c:167-219 | on success, which is certain if calls work, the variables are those GuestEnvironment speaks of |
| GuestEnv.ChildEnvironment.ExecChild | server/child.c:327-367 | a guest that reaches exec has the environment of GuestEnvironment; if calls work it does reach it, unless it can enter neither its home nor the root |
| ForkPayload.Prepare | client/jail.c:80-116 | a request made of the lists fits the frame buffer and takes at least two bytes |
| ForkPayload.PrepareFits | client/jail.c:98-115 | the lists are refused if and only if their lengths, with a NUL each and one behind each list, exceed the frame buffer behind the header |
| ForkPayload.UnpackLanguage | server/child.c:647-670 | a request's lists can be read if and only if one ends before the last byte and another behind that end |
| ForkPayload.PermittedAreNonEmpty | client/jail.c:63-78 | what the client keeps of its environment are admitted entries, none of them empty |
| ForkPayload.RoundTrip | server/child.c:647-670 | for every argument vector and environment that need no more room than there is, the request is built, and the session parses it to what Received says, and to exactly what was sent if and only if no argument is empty |
| ForkPayload.FirstList | server/child.c:655-657 | the first parse finds the arguments up to the first empty one |
| ForkPayload.SecondList | server/child.c:647-670 | the second list starts behind the bytes the first used, and is the environment, or the arguments behind an empty one |
| ForkPayload.ParseWindow | server/child.c:655-657 | leaving the last byte of the request out of the argument window does not change the arguments |
| ForkPayload.ClientPrepareArgv | client/jail.c:50-61 | all arguments in order, unless memory runs out |
| ForkPayload.ClientPrepareEnv | client/jail.c:63-78 | exactly the admitted variables in order, unless memory runs out |
| ForkPayload.ClientPrepare | client/jail.c:80-116 | fills the buffer behind the header with both lists, or -1 exactly when they need more room than there is or memory runs out; the lengths passed down never underflow |
| ForkPayload.ChildParse | server/child.c:647-670 | the pointers into the request denote both lists, or -1 exactly when one has no end; no length underflows |
| Descriptors.AttachedKeys | server/child.c:483-492 | a started guest leaves the session with exactly its old descriptors and those it holds |
| Descriptors.PipeParent | server/child.c:601-611 | closing the guest's three pipe ends leaves the old table and the three held ends |
| Descriptors.SocketParent | server/child.c:535-545 | closing the guest's two socket ends leaves the old table and the held ends |
| Descriptors.GuestTableFrom | server/child.c:586-599 | a guest that closes the connection and every new descriptor keeps only the standard ones |
| Descriptors.EndsMeet | server/child.c:586-611 | what the session puts into fin comes out of the guest's 0, what the guest writes to 1 comes out of fout and what it writes to 2 out of ferr, and neither out of the other; on a terminal both out of fout |
| Descriptors.Forker.OpenPipes | server/child.c:550-575 | all three pipes, or the table exactly as it was |
| Descriptors.Forker.ForkPipe | server/child.c:550-614 | failure restores the table; success adds exactly the held descriptors and the guest; no guest end stays with the session; the guest keeps of the session's descriptors all but the connection, and its 0, 1 and 2 are each connected to the session's end of that stream; if calls work it succeeds |
| Descriptors.Forker.OpenSockets | server/child.c:498-512 | both pairs, or the table exactly as it was |
| Descriptors.Forker.ForkSocket | server/child.c:498-548 | as ForkPipe, for the socket pairs |
| Descriptors.Forker.OpenPty | server/child.c:370-406 | a master and a slave, or the table exactly as it was on every failing path |
| Descriptors.Forker.LoginTty | server/child.c:409-429 | on success the slave is descriptors 0, 1 and 2 and nothing else |
| Descriptors.Forker.ForkPty | server/child.c:431-496 | as ForkPipe, for the terminal |
| SessionSafety.SafeAtStart | server/child.c:986-1009 | a fresh session satisfies the invariant |
| SessionSafety.OutcomeOfExecute | server/child.c:759-795 | executing a frame logs it exactly when it is accepted, gives the guest's stdin its body in order, and only a fork adds a child; a frame without a body is never accepted |
| SessionSafety.ExecuteLifecycle | server/child.c:616-645 | after any frame the guest pid, the held descriptors and the log agree: at most one fork is accepted, and the guest is what that request asked for |
| SessionSafety.ExecuteDescriptors | server/child.c:616-645 | after any frame the open descriptors are exactly the inherited ones, the connection and the held ones, which are the session's ends of the guest's streams, with no guest end among them |
| SessionSafety.VerdictExactly | server/child.c:647-795 | a frame is refused if and only if it is none of: a first fork whose lists can be read, a window size of eight bytes, input for a guest; and accepted if and only if it is not refused and the kernel does what it needs |
| SessionSafety.ExecuteKept | server/child.c:759-832 | a round of the frame loop keeps the invariant |
| SessionSafety.RunKept | server/child.c:834-858 | child_run keeps the invariant, and never ends a session as drained |
| SessionSafety.OutputKept | server/child.c:860-886 | relaying a read of guest output keeps the invariant, short writes included |
| SessionSafety.OutputEndsKept | server/child.c:870-874 | closing an output at its end keeps the invariant: nothing is closed twice or leaked |
| SessionSafety.WaitGuestKept | server/child.c:888-929 | reaping the guest keeps the invariant: unless its write fails, one status frame is last on the wire, with the guest's wait status |
| SessionSafety.WaitOtherKept | server/child.c:888-929 | reaping another child keeps the invariant |
| SessionSafety.ChildStopsKept | server/child.c:109-116 | a SIGCHLD for a child that stops or is continued keeps the invariant |
| SessionSafety.ChildExitsKept | server/child.c:109-116 | a child exiting between any two steps keeps the invariant, and so is never lost |
| SessionSafety.SafeKept | server/child.c:797-984 | every step a session can make, and every outside event, keeps the invariant |
| SessionSafety.SafeAlways | server/child.c:797-984 | the invariant holds in every state any run can reach |
| SessionSafety.Wires | server/child.c:797-984 | what was sent stays sent, only a read receives, and only executing a frame can refuse one |
| SessionSafety.OneGuest | server/child.c:616-645 | over any run the guest pid moves only from -1 to positive to 0, and the guest never changes |
| SessionSafety.SourceIsGuests | server/child.c:967-978 | in every state, what is relayed as stdout is read from what the guest's 1 is written to, as stderr from what its 2 is, and its 0 is fed from g_child_stdin |
| SessionSafety.EndsExactly | server/child.c:797-984 | a step ends a session if and only if it is the alarm with no guest (or its timer not cancelled), a failed waitpid or pselect, the end of the client, a frame not served, a short write to the client, or the flag cleared after the guest was reaped |
| SessionSafety.InTurn | server/child.c:931-984 | a session that goes on looks at the client's descriptor and every whole frame, then at stdout, then at stderr, and returns to the head; reaps as long as there is a child to reap; and goes round for signals and time-outs |
| SessionSafety.AlarmKept | server/child.c:103-107 | over any run an alarm that rang stays pending or flagged until the session ends |
| SessionSafety.AlarmHeard | server/child.c:834-858 | a pending alarm interrupts pselect; a session without a guest then ends, and one with a guest goes on unless its timer cannot be cancelled |
| SessionSafety.AlarmPolicy | server/child.c:834-858 | a pass through child_run ends the session if and only if the alarm has gone off and no guest was started or cancelling the timer fails the one time it is tried |
| SessionSafety.ExitIsReaped | server/child.c:888-962 | with an exited child, pselect is interruptible and the loop then stands before a waitpid that can return it, or the session has ended |
| SessionSafety.GuestEndsSession | server/child.c:888-962 | once the signal of the guest's exit is delivered, every run ends the session within a number of the session's own steps given by its children, whatever the children do meanwhile; until then such a step that is no failure is always possible; and if none fails, the session ends for the guest's exit with its status sent |
| ClientSafety.SafeAtStart | client/jail.c:535-565 | a fresh client satisfies the invariant |
| ClientSafety.OutcomeOfDispatch | client/jail.c:273-288 | a frame is logged exactly when accepted, its body goes in order to the one output of its kind, and only an accepted status frame changes the status and raises the termination flag |
| ClientSafety.VerdictExactly | client/jail.c:240-288 | a frame is refused if and only if it has no body or is none of the three kinds, and accepted if and only if it is not refused and its write is whole |
| ClientSafety.ExecuteKept | client/jail.c:118-201 | writing the request keeps the invariant: it is the first frame, or the client ends |
| ClientSafety.WriteSizeKept | client/jail.c:352-372 | writing a window size keeps the invariant, however resizes fall |
| ClientSafety.TypeKept | client/jail.c:326-350 | relaying a read of stdin keeps the invariant, short writes included |
| ClientSafety.HandleKept | client/jail.c:240-324 | a round of the frame loop keeps the invariant |
| ClientSafety.FlagKept | client/jail.c:374-404 | the head of the loop, the flags, delivered signals and resizes keep the invariant: no resize is lost between reading the size, writing it and clearing the flag |
| ClientSafety.SafeKept | client/jail.c:240-417 | every step a client can make, and every outside event, keeps the invariant |
| ClientSafety.SafeAlways | client/jail.c:240-417 | the invariant holds in every state any run can reach |
| ClientSafety.Wires | client/jail.c:240-417 | what was sent stays sent, only a read receives, and only handling a frame can refuse one |
| ClientSafety.ExitsExactly | client/jail.c:192-417 | a step ends a client if and only if it is a request that does not fit or go out whole, the termination flag at the head of the loop, a size that cannot be had or sent, a failed pselect, the end of the session or of stdin, a frame not acceptable, or a short write |
| ClientSafety.InTurn | client/jail.c:374-417 | a client that goes on sends the size if it is flagged, looks at the session's descriptor and every whole frame, then at stdin, and returns to the head |
| ClientSafety.FlagEndsClient | client/jail.c:374-417 | once the termination flag is up, every run ends the client within a number of its own steps given by its buffer, whatever happens outside; until then such a step is always possible; and it ends by the flag unless a call fails, stdin ends or a frame is refused |
| ClientSafety.TerminationKept | client/jail.c:426-430 | over any run a termination signal stays pending or flagged until the client ends |
| ClientSafety.TerminationHeard | client/jail.c:383-401 | a pending termination signal interrupts pselect and the client leaves the loop |
| ClientSafety.CodeOf | client/jail.c:568-572 | for every n below 256, a client that leaves by the flag knowing the status of exit(n) has code n; for every signal it has 255 |
| Receivers.SessionRefusesEmpty | server/child.c:759-795 | whatever the kernel answers, child_execute refuses frames without a body, length zero included |
| Receivers.ClientRefusesEmpty | client/jail.c:245-288 | whatever write answers, client_dispatch_remote refuses frames without a body |
| Receivers.SessionDrainIsRun | server/child.c:811-831 | the recursive drain of a buffer is a run of the session machine with the same end |
| Receivers.SessionChunking | server/child.c:797-832 | two ways of cutting one stream into reads leave the session in the same state with the same verdict and residue |
| Receivers.ClientChunking | client/jail.c:290-324 | the same for the client |
| Relay.SessionAccepts | server/child.c:616-795 | in every reachable state the session refuses no frame this client can send: not by length, not by the list parser, not as a second fork, and no input precedes the guest |
| Relay.ClientAccepts | client/jail.c:240-288 | in every reachable state the client refuses no frame this session sends |
| Relay.SafeKept | client/jail.c:290-417 | every step of either side keeps the joint invariant |
| Relay.SafeAlways | server/child.c:797-984 | in every run of client and session together, under any interleaving and chunking, the joint invariant holds and neither side ever refuses a frame |
| Relay.InputConserved | client/jail.c:326-350 | unless a call failed on one side, and also after a side has ended, what was read from the client's stdin is what the guest's stdin got followed by the StdIn payload in flight; the guest's stdin always sees a prefix |
| Relay.OutputConserved | server/child.c:860-886 | the same for the guest's stdout and for its stderr towards the client |
| Relay.GuestAsRequested | server/child.c:616-670 | the guest runs with the client's kind of connection, its terminal's settings and the lists Received names; with exactly the client's lists if and only if no argument is empty |
| Relay.GuestVariables | server/child.c:167-219 | in every run, for every account and name, the guest's variable is decided by the last admitted entry in the client's own environment, or among the arguments behind an empty one |
| Relay.SizesConverge | client/jail.c:352-401 | in a terminal session, once no resize is flagged or pending and nothing is in flight, the size the session last gave the guest's terminal is the client's |
| Relay.ExitCodeIsGuests | client/jail.c:564-572 | any exit code of the client but 255 is what the one guest, which has been reaped, passed to exit(3) |
| Relay.StatusEndsClient | client/jail.c:259-271 | once the client has handled a status frame, every run of the whole system ends it within a bounded number of its own steps, by the flag unless a call of its own fails or stdin ends; and then its code is the guest's exit code, or 255 if a signal ended the guest |
| Relay.NothingMissing | client/jail.c:564-572 | with any exit code but 255 the client has written all that was ever read from the guest's stdout and stderr |
| Relay.AllDelivered | server/child.c:860-923 | once the session has ended for its guest's exit and nothing is in flight, a client of which no call failed has written all that was read from the guest's outputs and knows the guest's wait status |
| Relay.StatusIsGuests | client/jail.c:259-271 | what the client knows of a status, at any point of the stream, is nothing yet or the guest's wait status |
| Master.SafeKept | server/jaild.c:199-275 | every step of the master and every outside event keeps its invariant |
| Master.SafeAlways | server/jaild.c:199-275 | in every run, with orphans adopted at any time: no exit is lost between waitpid, flag and signal; children started and adopted are those reaped and those still to reap; no connection stays open past its round; a termination signal stays pending or flagged, and no session is started once it is flagged |
| Master.ExitWakes | server/jaild.c:241-257 | with an exited child, pselect is interruptible and its delivery leads to a waitpid that can return it |
| Master.StartsSession | server/jaild.c:265-269 | a session is forked with exactly the descriptors its own runs begin with |
| Master.EndsExactly | server/jaild.c:241-258 | a step ends the master if and only if it finds the termination flag up at the head or is a failed waitpid or pselect; a failed accept or fork does not |
| Master.InTurn | server/jaild.c:241-272 | a master that goes on reaps while its flag is up, and accepts, forks and closes when a connection is ready |
| Master.ServesConnection | server/jaild.c:260-271 | whatever descriptor and pid the kernel gives, a ready connection leads in four steps back to the head with one more child and no more descriptor |
| Master.TerminationHeard | server/jaild.c:241-254 | a pending termination signal interrupts pselect and the master ends |
| Master.Server.constructor | server/jaild.c:230-240 | the loop starts as the machine does |
| Master.Server.AlwaysSafe | server/jaild.c:230-275 | whatever the methods did so far, the state satisfies the invariant, and outside accept to close the table is the master's own |
| Master.Server.ReapOne | server/jaild.c:210-224 | one waitpid, with children exiting and orphans arriving before it: reaps one more child, or finds none exited, or fails, which it does not if calls work |
| Master.Server.Sigchld | server/jaild.c:199-228 | terminates however many orphans arrive, as long as they are finitely many; the result is the number of children reaped in this call, at least those that had exited when it was called, or -1 |
| Master.Server.Wait | server/jaild.c:246-258 | pselect, for each answer: exactly the step that answer calls for, delivering what is pending |
| Master.Server.Serve | server/jaild.c:260-271 | accept, fork and close, each of which may fail, are a run of the machine back to the head of the loop; if calls work a session was started |
| Master.Server.Round | server/jaild.c:241-272 | one round is a run of the machine; it is over with 0 exactly when the termination flag was up, and otherwise leaves the descriptors as they were; if calls work it does not fail, and with a connection ready it starts one session |
| Babysitter.RequestsForwarded | server/jaild.c:644-684 | in every run a termination request not passed on yet is pending, flagged, or just about to be passed on |
| Babysitter.NeverSleepsPastDeath | server/jaild.c:644-684 | no run sleeps past the child's death if and only if that child is the only one |
| Babysitter.LosingRun | server/jaild.c:644-684 | with another child there is a run that does |
| Babysitter.StatusIsChilds | server/jaild.c:664-683 | in every run, with any other children, the status returned is the wait status of the child waited for |
| Babysitter.EndsExactly | server/jaild.c:664-681 | a step ends the wait if and only if it reaps the child waited for or is a failed waitpid or sigsuspend |
| Babysitter.InTurn | server/jaild.c:656-681 | a wait that goes on passes a flagged request on, asks for a child and sleeps |
| Babysitter.RequestHeard | server/jaild.c:657-661 | a pending request interrupts the sleep and is passed on before the next one |
| Babysitter.Sitter.constructor | server/jaild.c:644-654 | starts as the machine does |
| Babysitter.Sitter.Round | server/jaild.c:656-681 | one round of the loop is a run of the machine; it ends with the child's status exactly when that child was reaped; if calls work and the child is there it does not fail |
| Babysitter.Sitter.PassOn | server/jaild.c:657-661 | a flagged request is passed on before anything else, and the flag is down |
| Babysitter.Sitter.AwaitSignal | server/jaild.c:674 | sleeping ends only with a signal pending |
| Babysitter.Sitter.Sigsuspend | server/jaild.c:674-681 | delivers the pending signals to the flags, or fails for another reason |
| ChildProcess.ChildSession.constructor | server/child.c:986-1009 | the globals as child_main sets them are the machine's first state |
| ChildProcess.ChildSession.AlwaysSafe | server/child.c:797-984 | whatever the methods did so far, the state satisfies the session invariant |
| ChildProcess.ChildSession.Run | server/child.c:834-858 | child_run is the machine's step, and says go exactly when the session has not ended |
| ChildProcess.ChildSession.ExecuteFork | server/child.c:647-730 | a request that does not parse is refused; one that does is what child_fork makes of the lists its pointers denote |
| ChildProcess.ChildSession.Fork | server/child.c:616-645 | refusing a second start and the three forks leave globals, table, children, terminal and the guest's lists as the machine's step for the kernel's answer does; a guest that reaches exec is as asked: descriptors 0, 1 and 2 and no others, each connected to the session's end of its stream, the received arguments, and the variables its list decides; if calls work a first start succeeds and its guest reaches exec |
| ChildProcess.ChildSession.GuestExec | server/child.c:327-367 | a guest that gets as far as execve, which it does if calls work, has the variables GuestEnvironment speaks of, for its list and terminal |
| ChildProcess.ChildSession.Execute | server/child.c:732-795 | the dispatcher with all its length checks does what the machine's step does, down to the bytes given to the guest's stdin, and returns 0 exactly when the frame is accepted; if calls work it fails only by refusing |
| ChildProcess.ChildSession.FrontMessage | server/child.c:811-820 | the message at the front of the buffer is the frame the machine decodes |
| ChildProcess.ChildSession.ProcessFrame | server/child.c:811-829 | one round of the frame loop is one event of the machine and shortens the buffer, or finds no whole frame |
| ChildProcess.ChildSession.ProcessRemote | server/child.c:797-832 | one read and then frames until none is whole, these steps and no others; terminates; -1 exactly when the session has ended |
| ChildProcess.ChildSession.ProcessOutput | server/child.c:860-886 | after success exactly one frame with what was read is on the wire, or the output is closed; -1 exactly on a short write |
| ChildProcess.ChildSession.ReapOne | server/child.c:900-923 | one waitpid, with children exiting before it: reaps one more child, or finds none, or fails |
| ChildProcess.ChildSession.Reaped | server/child.c:902-916 | a reaped child leaves the table, and for the guest its pid becomes 0 and its status goes out |
| ChildProcess.ChildSession.GuestReaped | server/child.c:903-913 | -1 exactly when the status did not go out whole, and then the session has ended |
| ChildProcess.ChildSession.SendStatus | server/child.c:907-910 | what is written is the status frame with the wait status, as much of it as write took |
| ChildProcess.ChildSession.Sigchld | server/child.c:888-929 | terminates; with the flag up it is waitpid until none is left and the flag cleared, and every child that had exited when it was called is reaped; 0 exactly when the loop may go on, 1 exactly when the guest was among them |
| ChildProcess.ChildSession.ClearFlag | server/child.c:927-928 | the flag goes down and the result says whether the guest was among the reaped |
| ChildProcess.ChildSession.Interrupt | server/child.c:956-961 | pselect delivers the pending signals to the flags and the loop goes round |
| ChildProcess.ChildSession.ServeRemote | server/child.c:965-969 | whenever the descriptor is looked at, the buffer has at least two free bytes; if it is ready, what the read brings is received and every whole frame executed, and otherwise nothing |
| ChildProcess.ChildSession.RelayOutput | server/child.c:971-981 | an open output that is ready is relayed or, at its end, closed; one that is not ready or not open is left alone |
| ChildProcess.ChildSession.SelectAndServe | server/child.c:946-981 | for each answer of pselect exactly the steps it calls for: pending signals delivered, nothing for a time-out, the end for a failure, and every ready descriptor served in turn |
| ChildProcess.ChildSession.Round | server/child.c:939-981 | one round of the loop is a run of the machine with at least two steps of its own; if calls work the session ends in it only by its alarm, its client, a refused frame or its guest |
| ChildProcess.ChildSession.Loop | server/child.c:931-984 | as many rounds as asked for, each with pselect's next answer, or until the session ends; returning 0 means the alarm or the timer, never a drained guest |
| ClientProcess.JailClient.constructor | client/jail.c:481-533 | the globals are the machine's first state |
| ClientProcess.JailClient.AlwaysSafe | client/jail.c:374-417 | whatever the methods did so far, the state satisfies the client invariant |
| ClientProcess.JailClient.Sigwinch | client/jail.c:352-372 | with resizes between any two of its steps: the flag is down, and if it was up exactly one size was sent, which is the terminal's unless the signal is pending again; or the client has ended, which on a terminal it does not if calls work |
| ClientProcess.JailClient.SendSize | client/jail.c:360-368 | after success exactly the frame with the size TIOCGWINSZ gave is on the wire |
| ClientProcess.JailClient.BuildRequest | client/jail.c:118-190 | the bytes in the 8192-byte buffer are exactly the encoding of the request frame, or -1 exactly when the lists do not fit or memory runs out |
| ClientProcess.JailClient.FillHead | client/jail.c:118-190 | header, terminal settings and window size stand in front of the lists, which are not disturbed |
| ClientProcess.JailClient.Execute | client/jail.c:192-201 | after success exactly one frame was sent and the loop begins; otherwise the client has ended; if calls work it succeeds exactly when the lists need no more room than there is |
| ClientProcess.JailClient.ProcessInput | client/jail.c:326-350 | after success exactly one frame with what was read is on the wire; -1 exactly at the end of stdin or on a short write |
| ClientProcess.JailClient.Dispatch | client/jail.c:273-288 | the dispatcher does what the machine's step does with the front frame, down to the bytes on stdout and stderr and the flag a status raises, and returns 0 exactly when it is accepted |
| ClientProcess.JailClient.ProcessFrame | client/jail.c:306-321 | one round of the frame loop is one event of the machine and shortens the buffer, or finds no whole frame |
| ClientProcess.JailClient.ProcessRemote | client/jail.c:290-324 | one read and then frames until none is whole, these steps and no others; terminates; -1 exactly when the client has ended |
| ClientProcess.JailClient.SelectAndServe | client/jail.c:385-413 | for each answer of pselect exactly the steps it calls for: pending signals delivered, nothing for a time-out, the end for a failure, and what is ready of the session's descriptor and stdin served in turn |
| ClientProcess.JailClient.Loop | client/jail.c:374-417 | as many rounds as asked for, each with pselect's next answer, or until the client ends; returning 0 means the termination flag is up |
| ClientProcess.JailClient.ExitCode | client/jail.c:564-572 | the exit code is n for the status of exit(n), 255 for that of a signal, and the machine's in every case |
| CommandLine.ChainFills | common/cmdline.c:113-138 | strings that lie one behind the other fill their stretch of memory completely |
| CommandLine.FoundIsChain | common/cmdline.c:113-138 | what the contiguity scan accepts behind a chain of strings makes a longer chain |
| CommandLine.CountsAll | common/cmdline.c:115-122 | the loop counts every argument if and only if each begins behind the NUL of the one before |
| CommandLine.LastMissed | common/cmdline.c:139-148 | with one argument not found and a first one that is not empty, the store of the terminator destroys its copy |
| CommandLine.StraysExactly | common/cmdline.c:139-148 | the store leaves the arena if and only if not all arguments were found and a vector for all of them would not have fitted |
| CommandLine.CmdLine.Malloc | common/cmdline.c:42-57 | the next bytes of the arena, disjoint from all before, or fresh memory; used and free bytes always make 65536 |
| CommandLine.CmdLine.Strdup | common/cmdline.c:59-75 | a copy of the string apart from everything handed out before, or NULL when the heap failed |
| CommandLine.CmdLine.CountContiguous | common/cmdline.c:115-138 | both loops count the pointers that continue the chain |
| CommandLine.CmdLine.ReservePrefix | common/cmdline.c:77-92 | the prefix is PrefixOf of argv[0], of which PrefixIs says what it is, unless the heap failed |
| CommandLine.BasenameIs | common/cmdline.c:77-92 | the base name of a path is what stands behind its last slash, trailing slashes not counted |
| CommandLine.PrefixIs | common/cmdline.c:77-92 | for a program whose path ends in a name, the prefix is that name cut to 18 bytes, and ": " |
| CommandLine.CmdLine.CopyStrings | common/cmdline.c:145-147 | copies equal to the originals, outside the region, pairwise apart |
| CommandLine.CmdLine.CopyArgv | common/cmdline.c:139-148 | the last cell is NULL exactly when argc is the number found or the vector lies in the arena; the copies read as their originals if and only if they are spared; the store strays exactly when Strays says so |
| CommandLine.CmdLine.StoreNull | common/cmdline.c:148 | storing cell argc of a shorter vector leaves a copy in place exactly when it meets none of its characters |
| CommandLine.CmdLine.AllFound | common/cmdline.c:115-122 | all of argv is found if and only if it is contiguous |
| CommandLine.CmdLine.TwoApart | common/cmdline.c:139-148 | for the arguments "a" and "b" one byte apart, the new argv[0] is not "a" |
| CommandLine.CmdLine.KeepName | common/cmdline.c:109-113 | the region begins at argv[0], whose copies take the arena's first bytes |
| CommandLine.CmdLine.CopyMore | common/cmdline.c:156-165 | the second vector's copies leave the first's as they are and share no memory with them |
| CommandLine.CmdLine.Occupy | common/cmdline.c:150-161 | the region is exactly the scanned strings with their NULs |
| CommandLine.CmdLine.Setup | common/cmdline.c:94-169 | the region is what was scanned; if all of argv was found, its copies and those of the environ strings found equal the originals, are apart from the region and from each other and closed by NULL; otherwise argv's copies equal the originals if and only if the store at index argc spares them, and nothing is claimed if it strays |
| CommandLine.BothInOnePiece | common/cmdline.c:115-138 | the loops count all of argv and all of what follows exactly when both together are contiguous |
| CommandLine.CmdLine.EnvironParts | common/cmdline.c:124-138 | all of environ is found if and only if argv and environ are contiguous, none if and only if argv and its first string are not or there is none |
| CommandLine.CmdLine.EnvironSurvives | common/cmdline.c:124-167 | unless memory ran out, the program sees the environ strings found, or all if none was; so it sees all of environ if and only if it is empty, does not begin contiguously behind argv, or is contiguous with argv to its end |
| CommandLine.CmdLine.VariableLost | common/cmdline.c:124-167 | for the argument "a" with "X" behind it and "Y" behind a gap, "X" is all that is left |
| CommandLine.WriteText | common/cmdline.c:212-226 | behind the prefix the text, cut to the region, and nothing but zeros behind it |
| CommandLine.ShownTitle | common/cmdline.c:212-226 | what is then read from the region as a C string is the title cut to the region, and behind it there are only zeros |
| CommandLine.Titles | common/cmdline.c:184-195 | a format without '%' appears behind the prefix, behind a dash it appears without, and a NULL format shows the argument that was kept |
| CommandLine.CmdLine.SetProcessName | common/cmdline.c:171-228 | the region shows exactly this title, no byte outside it changes, its last byte stays NUL; -1 exactly without a region or when formatting fails, and then the region begins with the prefix |
| CommandLine.CmdLine.Restore | common/cmdline.c:184-186 | a NULL format shows exactly argv[0] again when that holds no '%' |
| CommandLine.CmdLine.SetProcessNames | common/cmdline.c:171-228 | after any sequence of calls the region shows the last title and nothing of an older one - or, if the last could not be formatted, begins with its prefix - and the rest of the memory is as it was; without a region every call answers -1 and nothing changes |

## Left out

- Output the guest wrote and the session never read: the program stops as soon as the guest is reaped, so
  there may be some; the theorems speak of what was read.
- The poll set: `child_loop` zeroes its descriptor set only once, so that a closed descriptor may stay in it
  and make `pselect` fail; the model lets `pselect` fail at any time and says nothing of the set.
- Real system calls, accounts, ownership and privileges: they are answers and parameters. `_exit` in the
  session when privileges cannot be dropped is an end of the session.
- `child_construct_args`: the program arguments the guest is executed with, including the address of a local
  array that one branch leaves in them, are not modelled; the lists the session parsed are.
- ChildProcess.ChildSession.Loop: the loop is endless by design; the model gives it any number of rounds. The
  same holds of the client's loop, and of the master's and the babysitter's, of which one round is modelled.
- Babysitter: killing the child with SIGKILL when a call fails is only the end of the machine.
- Namespaces, mounts, daemonising, option parsing, sockets and `common/utility.c`: no state that the
  properties above speak of.
- Contents of `struct termios` and `struct winsize`: opaque bytes; a pty's size is the last one the session
  set, though a guest may set its own.
- StringList.ArrayParse: allocation always succeeds and the pointer array is a sequence; `array_cleanup` is not
  modelled.
- CommandLine.CmdLine.Setup: the addresses stored in a vector's cells are kept as slots beside the arena, not
  as bytes in it; a cell of the heap that is never stored is `Unset`; `basename` is a function. What a store
  outside every object does (`wild`) is undefined in C and left open.
- CommandLine.CmdLine.SetProcessName: `vsnprintf` is a parameter: the formatted text, or its failure; only that
  a format without '%' is copied as it is, is used; if it fails it may have written any part of its output.
  Its format must not be NULL once there is a region but argv[0] could not be copied for want of memory.
- A client that is not on a terminal and is sent SIGWINCH ends in `client_sigwinch`, in the model as in the
  code; no theorem is about it.
- Frames whose length field is below four are kept as frames without a body; both sides refuse them alike.
