# nav, verified

`nav` is a small tool that remembers directories under short tags.  A daemon keeps the
tags, and for every shell a stack of the directories it has left; a client sends it one
datagram per command; a shell function turns the replies into `cd`.  This project models
the daemon, the client's encoding and the shell function, and proves what they promise.

The same behaviour is described on three levels, and each is proved against the next.

- **On the heap** (`HeapList`, `NavDaemon`, `Commands`, `TagLoader`, `MainLoop`, `Teardown`,
  `BashSession`): singly linked lists with a stored count, nested two deep, with the
  handlers, the file reader and writer, the receive loop with its reused 100-byte buffer,
  the teardown, and the shell function calling the client calling the daemon.  `Heap.live`
  is a ledger of allocated objects.  Freeing requires the object to be in it, so nothing is
  freed twice; every operation keeps it equal to what the lists own.
- **On values** (`Daemon`, `TagFile`, `ReceiveBuffer`, `Wire`, `Serving`, `NavScript`): the
  daemon's state is an ordered list of shells with their stacks, an ordered list of tags, and
  the content of the tag file.  One message is one `Step`; a `Run` is any sequence of messages
  from any shells.  `Serve` takes datagrams instead, and carries the buffer from one to the
  next, byte for byte.
- **Theorems about every run** (`Isolation`, `ActionStack`, `TagMap`, `RoundTrip`, `Reload`,
  `Restart`, and the last parts of `Wire`, `Serving` and `NavScript`).

`RecordFormat`, `Texts` and `Turns` say the same character by character: what the reader makes
of any file, what the daemon sends and saves, and what any message comes to.

`CString` and `Decimal` give the library functions that the daemon relies on: `strtok_r`,
`strspn`, `strcspn` (section 7.24.5 of ISO C11, and POSIX for `strtok_r`), `fgets`
(section 7.21.7.2), `sprintf` and `snprintf` (section 7.21.6), and `strtol` (section 7.22.1.4)
with a 64-bit `long` that is stored in a 32-bit `int`.

## Reading guide

The contract of a handler in `Commands` reads: the list state after the call, seen as a
value, and the reply are those of `Daemon.Handle` on the value before it, and the buffer is
exactly what tokenising leaves.  So a handler that swapped two nodes, skipped an update or
took another branch would not verify, and what is proved of `Daemon.Step` and `Daemon.Run`
holds of the handlers.  What a step does is pinned down in turn, in words that do not mention
the step's own functions: `CommandTable.DispatchSpecification` by the eleven names,
`ActionStack.PushAdds`, `PopTakes` and `ResetEmpties` for the stack, `TagMap.PutTagMap`,
`RemoveTagMap` and `GetAfterChange` for the tags, `Texts` for every text, and `Turns` for
the loop.  `MainLoop.RunDaemon` composes start-up, the loop and teardown, and
`Serving.ServeActs` shows that whatever datagrams arrive, the daemon takes a run of messages.
`BashSession` does the same from the shell's side: its methods come to `NavOn` and `BackOn` for
every input, and `NavOnIsNav` and `BackOnIsBack` carry the theorems of `NavScript` over.

Where the program's behaviour is undefined the model stops and says why: a message that
leaves no NUL in the receive buffer, a registered shell's `add`, `delete` or `get` without
arguments (a NULL dereference), a reply longer than the buffer it is formatted in, and a
command line longer than the client's buffer.

Where a property fails of the code, the project proves exactly when it holds, and shows an
input on which it fails:

- `Restart.RestartIff` and `Serving.ServeRestartIff`: a restart reproduces the tags exactly
  when nothing was saved or every name is non-empty and free of `=`, every path is valid, and
  no record but the last is longer than 255 bytes, nor the last than 256.  Failing inputs:
  `Restart.EqualsSignIsLost` (`add a=b /p`), `Reload.UncheckedPathIsLost` (a repeated record
  with an invalid path), `Reload.FullChunkHidesNext` (a full chunk without a newline).
- `Reload.RoundTripIff`: the newline of a 256-byte record becomes a chunk of its own and ends
  the read.  Failing input: `RoundTrip.LongRecordHidesNext`.
- `Wire.StepIgnoresStaleIff` and `Wire.RunIgnoresStaleIff`: the receive buffer is never
  cleared, and `add`, `get`, `delete` and `push` can read what earlier messages left in it.
  The lemmas give the exact condition for every line and every run.  Failing inputs:
  `Wire.StaleWordIsAdded`, and `Serving.StaleTmp` with the two datagrams `1 push a/tmp ` and
  `1 add t `.
- `TagMap.GetFitsIff`: every reply to `get` fits its buffer exactly when the paths in the tag
  file do.  Failing input: `TagMap.LongPathOverruns`.
- `Decimal.ReplyReachesClientIff`: the daemon answers the address the client bound exactly when
  the pid is written canonically, or the paths are too long to differ.  Failing input:
  `Decimal.LeadingZerosMissReply` (`007`).
- `NavScript.UndoWalkIff`, `NavScript.UndoWalkReturns` and `NavScript.NavThenBack`: the undo
  history holds the directories left exactly when none of them has a space or newline in its
  name.  Failing input: `NavScript.SpaceIsCut` (`/a b`).

Where the code and its own documentation differ, the model follows the code:

- `include/utils.h:29-31` promises the string's length when there is no white space; the loop
  in `src/shared/utils.c:40` does not stop at NUL.  Its callers pass the result to `strndup`,
  and the pair is modelled as `CString.CopyTrimmed`.
- `src/daemon/list.h:45` promises `NULL` data in a new node and `src/daemon/list.h:68-69` a
  `NULL` `next` on append; only node creation sets `next`, and nothing sets `data`.
- `src/daemon/list.h:100` promises non-zero on failure; deleting an absent key from a non-empty
  list returns 0.

## Model

| member | source | states |
|---|---|---|
| CString.StrtokCuts | src/daemon/main.c:60-79 | one tokenising call writes at most one byte: the delimiter behind the token becomes NUL |
| CString.StrtokSplits | src/daemon/main.c:60-79 | its token is the string up to the next delimiter, the next call sees what follows, and without a token nothing is written |
| CString.StrtokR | src/daemon/main.c:60-79 | the scan on the array leaves exactly that buffer, token and resume pointer |
| CString.CopyTrimmed | src/shared/utils.c:35-49 | scanning for white space and copying gives the text up to the first space, newline or end |
| CString.Snprintf | src/daemon/commands.c:359-360 | appending at an offset keeps the buffer holding the text so far, cut short where it does not fit |
| CString.TrimIsPlain | src/shared/utils.c:35-49 | the trimmed text is a prefix without white space, and is the whole text exactly when that holds none |
| CString.WordsCons | src/daemon/main.c:60-73 | tokenising peels off one space-free word and skips an empty one |
| CString.WordsSplit | src/daemon/commands.c:221-235 | text that ends in a space is tokenised independently of what follows it |
| CString.NoWordsIffBlank | src/daemon/commands.c:222-225 | there is no token exactly when there are only spaces |
| CString.WordsAreWords | src/daemon/commands.c:221-235 | every token is non-empty and space-free |
| Decimal.ParsePrint | src/daemon/commands.c:140-142 | every 32-bit pid survives being printed and parsed |
| Decimal.PrintParseIff | src/daemon/main.c:66-71 | a pid string is what its pid prints as exactly when it is canonical decimal notation in range |
| Decimal.ReplyReachesClientIff | src/client/main.c:95-96 | for every pid string and cache directory: the client is answered at the address it bound exactly when its pid is canonical or both paths are cut to the same 107 bytes, which for seven characters and a cache directory of 94 bytes does not happen |
| Decimal.LeadingZerosMissReply | src/daemon/main.c:67 | the client of `007` waits at an address the daemon does not use |
| Decimal.DistinctPidsDistinctAddresses | src/daemon/state.h:16-24 | socket paths of pids up to 2^22 fit 108 bytes with their NUL, and distinct pids have distinct paths |
| Decimal.PidSpecification | src/daemon/main.c:66-71 | for every word: its pid is the number that it starts with behind white space and a sign, 0 if that is none, modulo 2^32 as an `int`; beyond 64 bits there is no pid |
| Decimal.NumeralParts | src/daemon/main.c:66-71 | every word is of the form that this speaks of |
| Decimal.AddressesAre | src/daemon/commands.c:140-142 | both ends name the socket `dir/pid.sock`, cut to 107 bytes |
| TagFile.LoadIsReference | src/daemon/tag.c:52-109 | for every sequence of records the imperative update order gives the declarative reference list |
| TagFile.ReaderSpecification | src/daemon/tag.c:52-109 | for every sequence of records in the file: a name is loaded exactly when some record gives it a valid path, names are distinct and ordered by their first such record, and each has the path of its last record |
| RecordFormat.ParseLineIff | src/daemon/tag.c:59-72 | for every line: it gives a name a path exactly when it is a run of `=`, a non-empty run without `=`, an `=` and something more, and name and path are what stands before the first space or newline of each |
| RecordFormat.NotARecordIff | src/daemon/tag.c:60-71 | a line is skipped exactly when it cannot be split like that |
| RecordFormat.JunkIsIgnored | src/daemon/tag.c:64-72 | whatever stands behind a blank after the path is ignored |
| RecordFormat.ChunksIff | src/daemon/tag.c:52 | the pieces that are read are the only way to cut the file into pieces of 1 to 255 bytes without a newline before their last byte, each of which but the last is full or ends in one |
| RecordFormat.LinesReadAre | src/daemon/tag.c:52-55 | the lines looked at are the strings of the pieces before the first that is a newline alone |
| RecordFormat.ReaderIff | src/daemon/tag.c:52-109 | for every file content, in terms of these lines: a tag is loaded exactly when some line gives its name a valid path, and the last line that gives its name any path gives it this one |
| RoundTrip.RecordsOfWrite | src/daemon/tag.c:114-136 | the records read from a written list of records up to 256 bytes are those up to the first of 256 bytes |
| RoundTrip.ReadOfWrite | src/daemon/tag.c:39-136 | reading what was written gives the surviving records, filtered to valid paths, in order |
| RoundTrip.LongRecordHidesNext | src/daemon/tag.c:52-55 | a record of 256 bytes hides the tag behind it |
| Reload.ReadShape | src/daemon/tag.c:52-109 | whatever the file holds, the loaded tags have distinct names, no white space, no `=` in a name, and fit a 256-byte record |
| Reload.ReloadIff | src/daemon/tag.c:39-136 | for every list of distinct clean tags: it is read back unchanged exactly when it is restorable |
| Reload.RoundTripIff | src/daemon/tag.c:45-55 | the round trip gives the whole filtered list exactly when no record is longer than 256 bytes and none of 256 stands before a valid one; records of at most 255 bytes always survive |
| Reload.RewriteIff | src/daemon/tag.c:74-81 | what was loaded from any file survives one rewrite exactly when it is restorable |
| Reload.FullChunkHidesNext | src/daemon/tag.c:45-52 | a loaded record that filled its chunk hides the next once it is rewritten |
| Reload.UncheckedPathIsLost | src/daemon/tag.c:74-81 | a repeated record puts in an invalid path, which a rewrite loses |
| CommandTable.NamesPrefixFree | src/daemon/commands.c:70-77 | no two names in the command table start the same string |
| CommandTable.DispatchIff | src/daemon/commands.c:79-91 | an entry of the table is reached exactly by the strings that start with its name, so by no two at once |
| CommandTable.DispatchSpecification | src/daemon/commands.c:70-91 | for every string and each of the eleven commands by name: the string reaches the command exactly when it starts with the name |
| CommandTable.UnknownIff | src/daemon/commands.c:79-91 | and it reaches none exactly when none of the eleven names starts it |
| Isolation.StepKeepsShells | src/daemon/commands.c:115-151 | every message keeps pids pairwise distinct and addresses determined by them |
| Isolation.StepIsLocal | src/daemon/commands.c:105-198 | a message acts on its sender's stack as on a machine of its own, and on no other shell's |
| Isolation.ReplyGoesToSender | src/daemon/commands.c:138-155 | every reply goes to the address of the sender's pid |
| Isolation.UnregisteredIsIgnored | src/daemon/commands.c:467-471 | except for register, a message from an unregistered pid changes nothing and is not answered |
| Isolation.RunIsLocal | src/daemon/commands.c:454-610 | in every interleaved run a pid's registration, stack and replies to stack commands are those of its own machine on its own messages |
| Isolation.IsolationByProjection | src/daemon/commands.c:105-198 | leaving out every other shell's messages changes neither a pid's registration nor its stack nor what it hears |
| ActionStack.PopRemovesHead | src/daemon/commands.c:537-551 | pop deletes by path yet removes exactly the head that it reported |
| ActionStack.PushAdds | src/daemon/commands.c:454-517 | push puts what stands before the first blank of its arguments on top of its sender's stack, unless that is an invalid path or there already, says OK or BAD, and changes nothing else |
| ActionStack.PushNothing | src/daemon/commands.c:472-474 | without arguments it changes nothing and is not answered |
| ActionStack.PopTakes | src/daemon/commands.c:519-554 | pop takes the top off, replies with it, or BAD for an empty stack, and changes nothing else |
| ActionStack.ResetEmpties | src/daemon/commands.c:590-610 | reset leaves its sender's stack empty, says OK, and changes nothing else |
| ActionStack.NothingBehindReset | src/daemon/commands.c:590-610 | whatever other shells do in between, behind a reset the listing is empty and the next pop replies BAD |
| ActionStack.OnStackGood | src/daemon/commands.c:476-507 | every command keeps a stack free of adjacent repeats, with valid paths without white space |
| ActionStack.RunStacks | src/daemon/commands.c:481-488 | in every reachable state stacks have no adjacent repeats and, when messages fit the buffer, no action over 92 bytes |
| ActionStack.PopFits | src/daemon/commands.c:526-549 | the reply to pop, with its newline and NUL, fits its 100-byte buffer in every reachable state |
| ActionStack.ListingRoundTrip | src/daemon/commands.c:576-583 | reading the numbered listing back gives the stack |
| ActionStack.ListingAgreesWithPopping | src/daemon/commands.c:537-583 | for a listing that fits its buffer, whatever other shells do in between: its lines are in order the replies of as many pops, and the next pop replies BAD |
| ActionStack.PopTextsShape | src/daemon/commands.c:537-549 | what those pops reply, position by position |
| TagMap.PutTagMap | src/daemon/commands.c:246-270 | an add changes the path of one name and of no other |
| TagMap.PutTagOrder | src/daemon/commands.c:246-270 | an add of a known name keeps every position and every other entry; a new name goes to the end |
| TagMap.RemoveTagMap | src/daemon/commands.c:317-331 | deleting the first match removes the name altogether and nothing else |
| TagMap.StepChanges | src/daemon/commands.c:246-277 | a message keeps the tags and the file, or puts or drops one tag and rewrites the file from the result |
| TagMap.PutIsAdd | src/daemon/commands.c:221-244 | only an add puts a tag, with a valid path without white space |
| TagMap.RunTags | src/daemon/commands.c:200-335 | in every reachable state names are distinct and records fit what the file can hold |
| TagMap.GetFitsIff | src/daemon/commands.c:415-444 | every reply to get fits its buffer, after every run and for every name, exactly when the loaded paths do |
| TagMap.LongPathOverruns | src/daemon/commands.c:415-444 | a file with a path of 99 bytes, whose reply does not fit |
| TagMap.RunKeepsOther | src/daemon/commands.c:200-335 | a run that does not target a name leaves its path alone |
| TagMap.OkIffChanged | src/daemon/commands.c:272-288 | add and delete answer OK exactly when they save the list |
| TagMap.GetAfterChange | src/daemon/commands.c:435-448 | after an OK add or delete and any run that leaves the name alone, get replies the added path, or BAD |
| TagMap.CompletionRoundTrip | src/daemon/commands.c:390-400 | splitting the reply to list on spaces gives exactly the names in order |
| Texts.TextReplies | src/daemon/commands.c:337-404 | the replies to show, list and actions, spelled out: one line or word for every tag or action in order, the actions numbered from 1, and the text of show cut to 2047 bytes |
| Texts.ShowRoundTrip | src/daemon/commands.c:337-369 | reading the reply to show back, line by line, gives the tags, names and paths in order; for a longer list the reply is the first 2047 bytes of the text that does |
| Texts.WriteIs | src/daemon/tag.c:122-129 | the saved file is a line `name=path` for every tag in order and a blank line |
| Restart.RunFile | src/daemon/commands.c:272-277 | in every run the file is what was written of the current tags, or nothing was saved and nothing changed |
| Restart.RestartIff | src/daemon/main.c:166-168 | from any file and after any run, re-reading the file gives the tags in memory exactly when nothing was saved or they are restorable |
| Restart.RestartReproducesTags | src/daemon/commands.c:200-335 | if the loaded tags are safe and only good names are added, every reachable state survives a restart with the same tags, paths and order |
| Restart.BadNameIsLost | src/daemon/commands.c:227-270 | an accepted name that is empty or holds `=` never survives a restart |
| Restart.EqualsSignIsLost | src/daemon/commands.c:227-270 | `add a=b /p` is answered OK and lost |
| Wire.WireRoundTrip | src/client/main.c:50-53 | tokenising the client's encoding gives the words, empty ones dropped |
| Wire.ProcessCommand | src/client/main.c:43-55 | the encoding loop fills its 1024-byte buffer with exactly the encoded words and a NUL, or stops where it would overrun it, exactly for longer lines |
| Wire.ParsedFits | src/daemon/main.c:57-81 | every request parsed from the buffer leaves room for a pid, two separators and a NUL |
| Wire.SendableIff | src/daemon/main.c:51-59 | a line with a pid and a command can be sent exactly when it has at most 99 bytes |
| ReceiveBuffer.TokenisedParses | src/daemon/main.c:59-79 | the three tokenising calls on the buffer find what parsing the string finds, and only cut |
| Wire.ReceivedString | src/daemon/main.c:51-59 | the string in the buffer is the datagram followed by the stale bytes up to the next NUL |
| Wire.ParseInStaleBuffer | src/daemon/main.c:59-81 | whatever the buffer holds, pid and command are read as sent, and the arguments are those sent and then the stale bytes |
| Wire.StepIgnoresStaleIff | src/daemon/commands.c:221-244 | for every line and whatever is behind it: it takes the step it takes in a clean buffer exactly when, for add, there are no stale words or neither word list is good; for get and delete, it has a word or the stale bytes have none; for push, it has arguments or nothing is behind it |
| Wire.RunIgnoresStaleIff | src/daemon/main.c:51-81 | over every run, for every content of the buffers: it is the run that was meant exactly when no line of it is affected; the first affected one is answered differently |
| Serving.LongestIsClean | src/daemon/main.c:51-57 | no stale byte follows a message that no earlier one exceeds in length |
| Wire.AddIgnoresStaleIff | src/daemon/commands.c:221-240 | for every add of a registered shell: one that is OK in a clean buffer stays OK exactly when only spaces stand before the next NUL, and any other becomes OK exactly when the stale words make it good |
| Wire.StaleWordIsAdded | src/daemon/commands.c:221-270 | `add t` with `/tmp` behind it adds a tag that a clean buffer refuses |
| HeapList.LinkedList.NoCycle | src/daemon/list.c:23-121 | a list in order has no cycle |
| HeapList.LinkedList.GetNode | src/daemon/list.c:123-145 | returns the first node whose data match the key, or null |
| HeapList.LinkedList.AppendNode | src/daemon/list.c:23-43 | a node with a null link goes to the end, and the count follows |
| HeapList.LinkedList.PrependNode | src/daemon/list.c:45-60 | the same at the front |
| HeapList.LinkedList.DeleteNode | src/daemon/list.c:62-100 | removes the first match only, frees its node and what its data own and nothing else, and returns 1 only for an empty list |
| HeapList.LinkedList.DeleteAll | src/daemon/list.c:102-121 | empties the list and frees all of its nodes and everything inside them |
| HeapList.NodeCreate | src/daemon/list.c:12-21 | a new live node with a null link |
| HeapList.Cleanup | src/daemon/shell.c:52-60 | the cleanup function of a list frees exactly what its datum owns |
| HeapList.CleanupShell | src/daemon/shell.c:26-38 | the count-driven loop ends, and has freed each action, each action node and the shell |
| NavDaemon.NavState.constructor | src/daemon/state.c:26-63 | an empty state that is in order |
| NavDaemon.NavState.FindShell | src/daemon/commands.c:115-119 | finds the first shell of that pid |
| NavDaemon.NavState.AppendShell | src/daemon/commands.c:127-151 | a new shell with an empty stack at the end; everything else as it was |
| NavDaemon.NavState.DeleteShell | src/daemon/commands.c:188-193 | the shell goes with everything it owns; every other shell and tag as it was |
| NavDaemon.NavState.PushNode | src/daemon/commands.c:492-505 | the path on top of one stack; every other stack as it was |
| NavDaemon.NavState.DeleteAction | src/daemon/commands.c:551 | the first action of that path goes from one stack |
| NavDaemon.NavState.ClearActions | src/daemon/commands.c:604 | one stack is emptied and freed |
| NavDaemon.NavState.SetPath | src/daemon/commands.c:247-252 | one tag's path is replaced in place |
| NavDaemon.NavState.AppendTag | src/daemon/commands.c:255-270 | a new tag at the end |
| NavDaemon.NavState.RemoveTag | src/daemon/commands.c:325 | the first tag of that name goes |
| Commands.CmdRegister | src/daemon/commands.c:105-158 | the new state and the reply are those of the register step |
| Commands.CmdUnregister | src/daemon/commands.c:170-198 | ... of the unregister step |
| Commands.CmdAdd | src/daemon/commands.c:200-288 | ... of the add step on the string it was given, tokenised in place |
| Commands.CmdDelete | src/daemon/commands.c:290-335 | ... of the delete step |
| Commands.CmdShow | src/daemon/commands.c:337-369 | ... of the show step (`Texts.TextReplies`), formatted in the reply buffer, or the handler stops where it would overrun that, exactly when the reply does not fit |
| Commands.CmdList | src/daemon/commands.c:371-404 | ... of the list step, formatted in the reply buffer, or the handler stops where it would overrun that, exactly when the reply does not fit |
| Commands.CmdGet | src/daemon/commands.c:406-452 | ... of the get step, formatted in the reply buffer, or the handler stops where it would overrun that, exactly when the reply does not fit |
| Commands.CmdPush | src/daemon/commands.c:454-517 | ... of the push step, duplicates of the top included |
| Commands.CmdPop | src/daemon/commands.c:519-554 | ... of the pop step, formatted in the reply buffer, or the handler stops where it would overrun that, exactly when the reply does not fit |
| Commands.CmdActions | src/daemon/commands.c:556-588 | ... of the actions step, formatted in the reply buffer, or the handler stops where it would overrun that, exactly when the reply does not fit |
| Commands.CmdReset | src/daemon/commands.c:590-610 | ... of the reset step (`ActionStack.ResetEmpties`) |
| Commands.WriteTagFile | src/daemon/tag.c:114-136 | the file becomes the written form of the tags |
| Commands.DispatchCommand | src/daemon/commands.c:79-91 | dispatching takes the step of the message (`CommandTable.DispatchSpecification`), keeps every list in order and leaves exactly the buffer that its tokenising leaves |
| TagLoader.Fgets | src/daemon/tag.c:52 | copies the next chunk, which ends at a newline, at 255 bytes or at the end of the file |
| TagLoader.ReadTagFile | src/daemon/tag.c:39-112 | the loop over chunks loads exactly what the reader on values loads (`RecordFormat.ReaderIff`) |
| MainLoop.HandleMessage | src/daemon/main.c:58-82 | tokenising and dispatching take the turn that the string in the buffer determines (`Turns.TurnWithoutCommand`, `Turns.TurnOfCommand`), and leave exactly the buffer it determines |
| MainLoop.Loop | src/daemon/main.c:48-84 | over any datagrams of any length: state, replies and end are those of serving them one by one from a clear buffer (`Turns.ServeAppend`, `Turns.ArrivesIs`) |
| MainLoop.LoopOn | src/daemon/main.c:51-83 | the same from any content of the buffer, which each message cuts and the next overwrites, and which is left exactly as they leave it |
| MainLoop.RunDaemon | src/daemon/main.c:226-248 | from start-up to exit: the replies and the file are those of serving from the loaded tags; when the datagrams end or a pid is beyond 64 bits both lists are then empty and none of the state's objects is left live |
| Turns.TurnWithoutCommand | src/daemon/main.c:58-77 | for every string: a message without a word, or with a pid alone, changes nothing, is not answered and the loop goes on; the loop is left exactly for a first word beyond 64 bits |
| Turns.ParseOfFramed | src/daemon/main.c:60-81 | for two words with any spaces before them: the first is the pid, the second the command, and the arguments are all that follows one space behind it |
| Turns.FramedParts | src/daemon/main.c:60-79 | every string with two words is of that form |
| Turns.TurnOfCommand | src/daemon/main.c:58-82 | for every such string: the program is undefined exactly where a known shell's add, get or delete lacks arguments, or its reply is longer than the buffer (100 bytes for a path, 1024, 2048 and 256 for the three texts); strangers that do not register are ignored; anything else is a step |
| Turns.BlankIsLeft | src/daemon/main.c:60-64 | parsing leaves a message of spaces alone as it is |
| Turns.AloneIsCut | src/daemon/main.c:60-77 | in a message with a pid alone it turns at most the byte behind the pid into NUL |
| Turns.CommandIsCut | src/daemon/main.c:60-79 | in any message with a command it turns exactly the byte behind the pid and that behind the command into NUL |
| Turns.OnlyShowIsLong | src/client/main.c:57-66 | a reply that fits the daemon's buffer fits the client's 1024 bytes, unless it answers show |
| Turns.ArrivesIs | src/daemon/main.c:51-59 | for every datagram and content of the 100-byte buffer: an empty one is not looked at, one without a NUL behind it is undefined, and otherwise the bytes before the first NUL are heard |
| Turns.ServeAppend | src/daemon/main.c:55-84 | datagrams are served one after the other, up to one that ends the loop |
| Turns.ServeGoesOn | src/daemon/main.c:60-77 | the datagrams behind a message without a command are served as if it had only been received |
| Turns.ServeEnds | src/daemon/main.c:66-71 | those behind a pid beyond 64 bits are not |
| Turns.PidAlone | src/daemon/main.c:73-77 | the datagrams `1 ` and `1 register `: the first is not answered, the second registers |
| Serving.ServeActs | src/daemon/main.c:56-83 | whatever datagrams arrive, the daemon takes the steps of a run of messages that fit the buffer, and sends what that run sends |
| Serving.ServeIsSound | src/daemon/main.c:56-83 | so every reachable state has distinct pids, stacks without adjacent repeats or over-long paths, and distinct names that fit the file |
| Serving.ServeRestartIff | src/daemon/main.c:166-168 | and re-reading the file gives the tags in memory exactly when no message saved or they are restorable |
| Serving.ArrivalsAreBuffers | src/daemon/main.c:51-57 | over every run of messages of at most 99 bytes the last byte of the buffer stays NUL |
| Serving.FramedCuts | src/daemon/main.c:60-79 | parsing a framed message turns the spaces behind pid and command into NUL and changes nothing else |
| Serving.OthersCutNothing | src/daemon/commands.c:79-91 | handlers other than add, get and delete, and all of them for an unregistered shell, write nothing into the buffer |
| Serving.OneWordIsCut | src/daemon/commands.c:307-314 | get and delete turn the space behind their first word into NUL and change nothing else |
| Serving.ThreeWordsAreCut | src/daemon/commands.c:221-235 | add does so behind up to three words |
| Serving.ServeIsRun | src/daemon/main.c:48-84 | serving undisturbed lines whose replies fit is a run of the messages they meant, each within the buffer |
| Serving.ServeIsLocal | src/daemon/main.c:56-83 | whatever datagrams arrive, a pid's registration and stack are those of its own machine on its own messages among them |
| Serving.ServeIsolation | src/daemon/commands.c:105-198 | leaving out every other shell's lines changes neither a pid's registration nor its stack nor what it hears, where no line is affected by stale bytes and every reply fits |
| Serving.StaleTmp | src/daemon/commands.c:221-270 | the datagrams `1 push a/tmp ` and `1 add t ` add the tag `t` with the path `/tmp` |
| Serving.RestartAfterServing | src/daemon/main.c:166-168 | if the loaded tags are safe and only good names are added, serving any datagrams and restarting gives the same tags |
| Teardown.Deinit | src/daemon/state.c:65-71 | both lists are emptied, every live object has been freed, and the file is as it was |
| Teardown.LiveCounts | src/daemon/shell.c:26-38 | live actions are as many as there are on all stacks, live shells as many as registered, live nodes as many as shells, tags and actions |
| Teardown.TwoLevelOwnership | src/daemon/list.c:23-121 | no list has a cycle, no two lists share a node, and every stored count is its list's length |
| NavScript.Called | scripts/nav-bash.sh:24-32 | a client call among any messages of other shells acts on the caller's own stack, and its reply reaches the caller |
| NavScript.NavPushes | scripts/nav-bash.sh:106-128 | `nav [tag]` pushes the directory it leaves, once, or leaves stack and directory alone |
| NavScript.NavGoes | scripts/nav-bash.sh:106-127 | for every tag that no other shell changes meanwhile: `nav [tag]` goes to the path of its first word in the tag map, or says exactly which step failed and stays |
| NavScript.BackPops | scripts/nav-bash.sh:91-98 | `nav back` pops the top and goes there, or says that there is none |
| NavScript.BackLeaves | scripts/nav-bash.sh:91-98 | it takes the top off the stack whether or not it can go there |
| NavScript.BackTries | scripts/nav-bash.sh:91-98 | it goes to what it popped, or says that `cd` failed and stays; an entry that is empty or reads `BAD` is gone, and `nav back` says that there is none |
| NavScript.UnreachableIff | scripts/nav-bash.sh:24-32 | `nav [tag]` and `nav back` say that the daemon is unreachable, and stay, exactly when it answers another address than the client bound |
| NavScript.StripIff | scripts/nav-bash.sh:26 | command substitution takes off all newlines at the end and nothing else |
| NavScript.UndoWalk | scripts/nav-bash.sh:114-123 | after any successful legs the stack read from its oldest entry is the sequence of directories left, cut at white space, consecutive repeats collapsed |
| NavScript.UndoWalkIff | scripts/nav-bash.sh:114-123 | it is the sequence of directories itself exactly when none of them holds white space |
| NavScript.UndoWalkReturns | scripts/nav-bash.sh:91-123 | repeating back until the stack is empty ends where the walk started, cut at white space, if `cd` can go there, whatever has become of the other directories, and so in that directory exactly when its name has none; one more back stays there |
| NavScript.NavThenBack | scripts/nav-bash.sh:91-123 | one nav and one back restore the directory exactly when its name has no white space, and the stack exactly when the directory was not on top of it |
| NavScript.SpaceIsCut | src/daemon/commands.c:476 | a walk out of `/a b` comes back to `/a` |
| BashSession.BashShell.Client | src/client/main.c:43-72 | any call at any time, behind any datagrams of other shells and any content of the buffer: encoding, the turn of the daemon and the captured reply are one exchange on values, and whether the daemon is still running |
| BashSession.BashShell.Nav | scripts/nav-bash.sh:106-128 | the sequence of client calls, each behind any datagrams of other shells, comes to the sequence of exchanges on values, every early return included |
| BashSession.BashShell.Back | scripts/nav-bash.sh:91-98 | the same for `nav back` |
| BashSession.AskIsCall | scripts/nav-bash.sh:24-32 | an exchange whose line is unaffected by stale bytes and whose reply fits is a client call of `NavScript` among the messages that the other datagrams come to |
| BashSession.RobustReaches | src/daemon/main.c:51-81 | register, get with a word, pop and push with an argument are such lines whatever the buffer holds, if it ends in NUL and the reply fits |
| BashSession.NavOnIsNav | scripts/nav-bash.sh:106-128 | so `nav [tag]` over the wire is `nav [tag]` on values with the gaps that the other shells' datagrams make |
| BashSession.BackOnIsBack | scripts/nav-bash.sh:91-98 | ... and `nav back` likewise |
| BashSession.GoneIsUnreachable | scripts/nav-bash.sh:28-31 | if the daemon is not running, or ends before the first call, both commands say that it is unreachable, and stay |
| BashSession.StaysWithoutDaemon | scripts/nav-bash.sh:91-127 | whenever it ends during a command, the shell stays where it is and says which answer it did not get |

## Left out

- Sockets, timeouts, failing `sendto`, signals, `getopt`, environment variables and the creation of directories: a reply is an address and a text, and whether a trailing NUL is sent with it is not modelled.
- `valid_path` is an uninterpreted predicate, fixed during a run and, where restarts are concerned, false of the empty string.
- BashSession.BashShell.Client: prints a reply of 1024 bytes or more whole; the client's buffer has 1024 bytes, and only the text of show can be that long (`Turns.OnlyShowIsLong`).
- The tag file is a string that a write replaces at once; opening it always succeeds.
- `malloc` always succeeds, so its failure branches are not modelled.
- The strings inside objects are values: freeing them, and the paths that updates drop, are not in the ledger. The struct of a tag is never freed by `src/daemon/tag.c:29-37`, so nothing is claimed about tags beyond their nodes.
- What the program does behind undefined behaviour: the loop, the handlers and the client's encoder end there.
- Reload.RoundTripIff: does not cover records of more than 256 bytes with an invalid path, because their pieces can be read as other records; the daemon never holds one (`TagMap.RunTags`, `Reload.ReadShape`).
- BashSession.BashShell.Nav: requires client lines without NUL that fit the client's 1024-byte buffer. `BashSession.NavOnIsNav` speaks of calls that reach the daemon as meant (`NavReaches`); for the others `BashSession.NavOn` still says what they come to, but not in the terms of `NavScript`.
- `NavScript` on values puts no bound on the length of a tag, a directory or a reply.
- `get_trailing_whitespace` on its own reads past the end of its string; it is modelled together with the `strndup` that every caller applies.
- The branches of `list_delete_node` and one turn of `list_delete_all` are methods of their own here, called in the same order.
- What `nav` prints, its other branches, tab completion beyond its list of names, and the zsh script, which repeats the bash logic.
- `cd` is a function of the working directory and its argument, so `cd -` is not modelled.
- Logging, usage texts and version options.
