# Verification of a small teaching kernel and its programs

This project models the hard core of a 32-bit x86 teaching operating system with three text
terminals, together with four of its user programs, and proves what the code is for.

| file | part of the system |
|---|---|
| `TextMode`, `Layout` | one text screen as a value, and the layout of a byte stream on paper that it must show |
| `Keyboard`, `Echo`, `KeyTable` | scancodes as edits of the line being typed, the echo of that line on the screen, and what keys and modifiers mean |
| `Multiplexer` | one live view and three saved ones, proved to be three independent terminals, also where other programs interrupt a switch |
| `TypedLines` | what programs read, over runs of output, keys, switches and reads |
| `Console` | the console code itself: in-place screen, backups, key buffers, scrolling, keyboard interrupt, terminal switch |
| `Blink`, `BlinkDriver` | the intrusive list of blinking characters in a static pool, as a value and as code |
| `Paging`, `PageTables` | page directory, shared page table and a TLB that may fill between any two stores |
| `RoundRobin`, `Scheduler` | the search for the next terminal, and the context switch |
| `System`, `Kernel` | the parts of a switch of the display, ticks of the timer and the video window together, as a value and as code |
| `Grep` | line search through a 1024-byte window, against the search of the whole file |
| `FileSystem`, `Directory` | block-indexed reads against flat files, look-up by name, and the directory listing |
| `Memory`, `Numerals`, `Arguments` | block copies by words, number printing, and splitting and joining of arguments |

The style is the same throughout. The code, which works in place on arrays and object fields, is a
class or a method whose contract equates the new state with a function of the old one. The properties
are lemmas about those functions, over all inputs and over all runs. `Types` holds the machine
integers. `int` is unbounded; where a 16- or 32-bit word wraps, the model says so.

What is not under the model's control enters it as a parameter or a free choice: scancodes, the times
of ticks, what running processes compute, the failure of an open, read or close, and which translations
the processor caches.

What the timer may interrupt: writes, keys and reads are taken whole. A switch of terminals is not, because
`save_term_info` enables interrupts twice (`student-distrib/keyboard.c:160,181`). It is modelled as four
parts, and other programs may run between them: the saving of the cursor, the copies, the restore with the
change of the current terminal, and the mapping of the window. Each part is taken whole.

## Where the code does not do what it seems to promise

- Tabs compare the column with a number of rows (`student-distrib/lib.c:218`) and can scroll from row 0.
  `TextMode.TabIsSafeIff` gives the exact condition; there the shown and the hidden terminal also differ.
- The Tab key scrolls in the middle of the screen, where a count of cells is taken for an offset
  (`student-distrib/keyboard.c:409`). `Keyboard.TabKeyScrollsIff` says exactly when.
- With caps lock on, shift and the backslash key type no "|" (`student-distrib/keyboard.c:59`), as `KeyTable.CapsAndShift` says.
- Enter and Tab do not stop at 127 characters (`student-distrib/keyboard.c:207,267`), and
  `Keyboard.KeyKeepsWfIff` says exactly when that matters. With 128 characters the next clearing of the line
  writes one byte behind the key buffer; and as the condition at `student-distrib/keyboard.c:297` asks for
  exactly 127, every character typed from then on is stored behind it too, without limit.
- What the outgoing terminal writes in the middle of a switch is lost in whole or in part: before the copies of
  the save the text is kept, but the cursor is where it was, and after them nothing is kept.
  `Multiplexer.SplitSwitchRefinesIff` has the exact condition, and `Multiplexer.PartOfALineIsLost` the common case.
- An add accepts every location on the screen, but location 0 is also the mark of a free slot. `Blink.AddKeepsOkIff` shows that the pool stays in order exactly if an added location is not 0.
- The 16-bit countdown is compared as a signed number. `Blink.AddedKeepsTimeIff`: a blinker keeps time exactly if
  both of its lengths are from 1 to 0x8000. A length of 0x8000 still does, since its first decrement gives 0x7FFF.
- A sync always draws the off character: `testb` leaves the sign and overflow flags clear, so the
  conditional move behind it never takes place (`fish/blink.S:281-282`). The model does what the code does,
  and `Blink.SyncDisplaysIff` says exactly when the cell is right.
- `remap` and `remap_vid` set the present bit before the page size, so that between two stores an entry
  names a stray page table at 128 MB or 132 MB. `Paging.StrayGlobalIff` says exactly when that lets a
  global translation in that the flush need not drop. The code never turns global pages on in CR4 (the bit that
  it sets, with a comment about physical address extension, is the one for 4-MByte pages), and then there is no condition.
- A switch of a terminal to itself may restore an old kernel stack. `Scheduler.SwitchToItselfIff` says when it does not.
- `read_data` fails when the read ends at a block boundary and the next block is missing, although no byte
  of it is wanted. `FileSystem.WholeReadSucceedsIff` gives the condition for a whole file. After a failure
  `file_read` moves the position back by one (`FileSystem.OpenFile.FileRead`).
- A file whose name fills all 32 bytes is found only if the low byte of its type is not 0 and the next one is,
  since `strlen` runs on into the type. `Directory.NameLeadsBackIff` is exact about it.
- `grep` compares the first byte of the pattern as a signed char with an unsigned byte, so that a pattern
  that begins with 0x80 or more is never found: `Grep.HighByteIsMissed` searches the file `E9` for `E9`.
  It also cuts lines longer than 1024 bytes. `Grep.FoundIsLineSearchIff` proves that its output is that of a
  line search exactly if no line longer than 1024 bytes holds the pattern, and the pattern is empty, begins with a byte
  below 0x80, or is nowhere in the file.
- A newline in a command ends it only if a space comes right before it. `Arguments.SplitsLineIff` says exactly
  when a command splits into the words of its first line: if that ends in a space, or what follows it has
  nothing but spaces up to the next newline or the end. The command "\nf" is one that does not
  (`Arguments.EmptyLineRunsOver`).
- `getargs` may write a terminating NUL one byte behind the buffer it was given: exactly if the first
  arguments, with the spaces between them, are as long as the buffer (`Arguments.Spills`, `Arguments.Getargs`).
- A program on a hidden terminal that reads takes the line of the terminal on display. `Multiplexer.HiddenReadIsOwnIff`
  says exactly when that is a read of its own line: if there is nothing in either of the two. With "a" and Enter
  typed on the first terminal and "b" on the second, the program on the first reads "b"
  (`TypedLines.HiddenReadTakesAnotherLine`).

## Model

| member | source | states |
|---|---|---|
| `TextMode.OnScreenIff` | student-distrib/lib.c:203-204 | an even cursor offset is on the screen if and only if it is one of 0, 2, .. 3998 |
| `TextMode.LocationOf` | student-distrib/lib.c:239 | splitting the stored offset into column and row gives back the cursor it was made of |
| `TextMode.CursorAt` | student-distrib/lib.c:239 | an offset is the cursor of a screen exactly if it is twice the number of its cell |
| `TextMode.TabIsSafeIff` | student-distrib/lib.c:217-225 | a tab leaves the screen, and treats shown and hidden terminals differently, exactly on the top row at columns 21 to 75 |
| `TextMode.TabMoves` | student-distrib/lib.c:217-225 | a tab moves the cursor on by four cells, and the text up a row from column 21 on |
| `TextMode.ColoursDiffer` | student-distrib/lib.c:228-233 | each terminal has a colour of its own |
| `TextMode.PrintCell` | student-distrib/lib.c:226-238 | what every cell holds after a character: only the cell written changes, or all move up by a row when the last cell is reached |
| `TextMode.NewLineCell` | student-distrib/lib.c:209-216 | what every cell holds after a newline: nothing changes above the last row, on it all move up and the last row is NULs |
| `TextMode.PutAllConcat` | student-distrib/terminal.c:84-92 | writing two buffers one after the other shows the same as writing them at once |
| `Layout.LinesHoldText` | student-distrib/lib.c:209-216 | the lines of a stream are its bytes but for line feeds and carriage returns, and each of these begins a line |
| `Layout.RowsHoldLine` | student-distrib/lib.c:235-237 | the rows of a line are the line, and all but the last hold 80 characters |
| `Layout.RowsExtend` | student-distrib/lib.c:205-238 | one more byte changes the layout of a stream (split at newlines, wrapped at 80 columns) only at its end |
| `Layout.InkedExtend` | student-distrib/lib.c:226-238 | one more byte inks one position of the paper at most |
| `Layout.PutShows` | student-distrib/lib.c:202-241 | a screen that shows the last 25 rows of a layout still does after one more byte |
| `Layout.StreamShowsLayout` | student-distrib/lib.c:202-241 | from a cleared screen, any tab-free stream shows as exactly the last 25 rows of its layout with the cursor at its end |
| `Keyboard.ScancodeMap` | student-distrib/keyboard.c:40-61 | no scancode types a tab or a newline, whatever the modifiers |
| `KeyTable.KeyTypes` | student-distrib/keyboard.c:40-61 | each key of the four rows types the two characters that an inverse table, from characters to keys, gives it, and no key beside them types any but "*" and the space |
| `KeyTable.CapsAndShift` | student-distrib/keyboard.c:40-61 | a letter is a capital exactly if one of caps lock and shift is on; other keys mind shift alone, but for the backslash key |
| `KeyTable.ModifiersAre` | student-distrib/keyboard.c:82-115 | after any scancodes the modes are those told from the scancodes alone: caps lock by the parity of its presses, shift, Alt and control by the last press or release |
| `KeyTable.KeyMeans` | student-distrib/keyboard.c:244-302 | so the character of a key after any scancodes, and which keys then switch terminals or halt |
| `KeyTable.RowKeyIsTyped` | student-distrib/keyboard.c:294-302 | every key of the four rows adds its character to a line of less than 127, but for L and C with control |
| `KeyTable.EditingKeys` | student-distrib/keyboard.c:198-302 | backspace takes the last character back, control-L all of them, and the modifiers none |
| `Keyboard.KeyKeepsWfIff` | student-distrib/keyboard.c:265-300 | a key leaves at most 127 characters in the line exactly if it is not Enter or Tab on a line that has as many; at 128 the test of the code for a full line no longer holds |
| `Keyboard.TabKeyScrollsIff` | student-distrib/keyboard.c:402-420 | the Tab key moves the cursor on by four cells exactly if it writes neither cell 1000, the count of cells that the code takes for an offset, nor the last one |
| `Echo.BlanksShow` | student-distrib/keyboard.c:402-420 | as long as nothing scrolls, the Tab key writes blanks from the cursor on and leaves every other cell |
| `Echo.TypedEchoes` | student-distrib/keyboard.c:294-315 | a typed character keeps the line visible just before the cursor, also when the screen scrolls |
| `Echo.EraseEchoes` | student-distrib/keyboard.c:353-392 | so does a backspace, which always removes one character of a line without tabs |
| `Echo.EraseShows` | student-distrib/keyboard.c:353-392 | a backspace leaves a NUL under the cursor and every other cell as it was, and over a tab or a newline only the cursor moves, to the place stated |
| `Echo.EnterShows` | student-distrib/keyboard.c:327-343 | Enter shows as a printed newline does |
| `Echo.KeyEchoes` | student-distrib/keyboard.c:198-316 | every key other than Tab and Enter edits the visible line like a stack of at most 127 characters |
| `Echo.TypingEchoes` | student-distrib/keyboard.c:198-392 | after any run of keys that neither complete the line nor switch terminals nor halt, on an empty line, the buffer and the cells before the cursor both hold exactly the edited line |
| `Multiplexer.MuxStep` | student-distrib/terminal.c:49-94 | every write, key, switch and read keeps the representation of the three terminals consistent |
| `Multiplexer.StepRefines` | student-distrib/terminal.c:202-250 | one operation on live view and saved copies is the same operation on three independent terminals |
| `Multiplexer.RunRefines` | student-distrib/terminal.c:49-250 | so is every run of writes, keys, reads and whole switches that keeps the code within its memory; a switch changes no view and a write only its own, shown or hidden |
| `Multiplexer.ReadIsBoth` | student-distrib/terminal.c:49-67 | waiting for the Enter of the reader and taking the line on display is the read of the runs if the reader is on display; a hidden reader takes the line of another terminal |
| `Multiplexer.HiddenReadIsOwnIff` | student-distrib/terminal.c:49-67 | a read by a hidden terminal is one of its own line if and only if neither that line nor the one on display has anything in it |
| `Multiplexer.WriteCommutesWithSwitch` | student-distrib/terminal.c:84-92 | writing in the background and then switching equals switching and then writing |
| `Multiplexer.PartsAreSwitch` | student-distrib/terminal.c:202-250 | the parts of saving and restoring, with nothing in between, are the switch |
| `Multiplexer.NothingToRead` | student-distrib/terminal.c:227 | between the save and the restore there is nothing to read |
| `Multiplexer.SplitSwitchKeeps` | student-distrib/terminal.c:202-250 | with any writes in the middle of the save, and between save and restore, everything is as with a whole switch after them, but that the outgoing terminal has the text of the former with the cursor from before, and nothing of the latter |
| `Multiplexer.SplitSwitchRefinesIff` | student-distrib/terminal.c:156-190 | an interrupted switch is a whole one if and only if all that the outgoing terminal writes leaves the screen that its early writes leave with the cursor put back |
| `Multiplexer.PartOfALineIsLost` | student-distrib/terminal.c:218-250 | in particular it is not if the outgoing terminal writes any part of a line in the middle, however short |
| `Multiplexer.TimedRunRefines` | student-distrib/terminal.c:156-250 | every run whose switches are interrupted by writes under that condition is a run of three independent terminals |
| `Multiplexer.OutputReachesScreen` | student-distrib/terminal.c:76-94 | a terminal's screen depends on its own output alone |
| `Multiplexer.EveryTerminalShowsItsOwnOutput` | student-distrib/terminal.c:76-250 | from boot, however writes and switches interleave, also inside switches under that condition, each terminal shows the layout of its own tab-free output |
| `TypedLines.EraseEditsLineIff` | student-distrib/keyboard.c:353-392 | a backspace takes the last key back exactly if the cursor is not on the first cell of the screen |
| `TypedLines.WipedIsFresh` | student-distrib/keyboard.c:273-284 | control-L leaves a terminal as it was at boot |
| `TypedLines.KeyEditsLine` | student-distrib/keyboard.c:198-392 | while the cursor is behind the line, every key, but for a backspace over an Enter, edits it like a list of characters, tabs and Enter included |
| `TypedLines.LinesFollowDesk` | student-distrib/terminal.c:49-250 | over every run of tab-free writes, keys, switches and reads without a backspace over an Enter, the line of each terminal is the edit of the keys that went to it |
| `TypedLines.ReadDeliversLine` | student-distrib/terminal.c:54-66 | a read at the end of such a run delivers that line, cut at the size asked for |
| `TypedLines.TypedLineIsRead` | student-distrib/terminal.c:49-67 | from an empty line, any keys with any output in between, then Enter and a read: it delivers exactly the edited line and a newline, and the line is empty again |
| `TypedLines.HiddenReadTakesAnotherLine` | student-distrib/terminal.c:49-67 | after "a" and Enter on the first terminal and "b" on the second, a read on the first delivers "b" |
| `Console.Terminal.constructor` | student-distrib/terminal.c:132-141 | an entry starts as an empty terminal on a cleared screen |
| `Console.Terminal.SaveCursor` | student-distrib/terminal.c:219-223 | the saved copy takes the cursor, and its line is cleared |
| `Console.Terminal.SaveCopies` | student-distrib/terminal.c:224-226 | it takes screen and line as they are then, and keeps that cursor |
| `Console.Terminal.PutcTerm` | student-distrib/lib.c:248-286 | printing on a hidden terminal is the same step on the saved copy, with the tab's unsigned row |
| `Console.Terminal.PutcTermEach` | student-distrib/terminal.c:89-91 | a whole hidden write |
| `Console.ScrollUp` | student-distrib/lib.c:592-603 | moving the character bytes row by row in place gives the scrolled screen and keeps all attributes |
| `Console.Blank` | student-distrib/lib.c:19-34 | the loop fills the whole screen with blanks in the terminal's colour |
| `Console.ClearKeys` | student-distrib/keyboard.c:153-162 | the loop clears the line and one byte behind it and nothing else |
| `Console.CopyLine` | student-distrib/terminal.c:54-66 | the bytes delivered are the start of the typed line, as many as both allow, and the rest of the caller's buffer stays; for a negative size the length is returned and nothing copied |
| `Console.Console.Putc` | student-distrib/lib.c:202-241 | putc on video memory and cursor is the step on a screen, and the cursor stays on it exactly if no tab takes it off |
| `Console.Console.Clear` | student-distrib/lib.c:19-34 | only the screen is cleared, not the line or the mode |
| `Console.Console.ClearLine` | student-distrib/keyboard.c:153-162 | the line becomes empty, and the screen and all saved copies stay |
| `Console.Console.TerminalWrite` | student-distrib/terminal.c:76-94 | terminal_write is the write step of the multiplexer, shown or hidden, with the result it returns |
| `Console.Console.TerminalRead` | student-distrib/terminal.c:49-67 | the caller gets the start of the line on display, which becomes empty, whichever terminal runs; the count is that of the unsigned comparison |
| `Console.Console.SaveTermInfo` | student-distrib/terminal.c:218-229 | the two parts of the save, with nothing in between |
| `Console.Console.SaveTermCursor` | student-distrib/terminal.c:219-223 | the first part of the save |
| `Console.Console.SaveTermScreen` | student-distrib/terminal.c:224-227 | the second part of the save, whatever the first has left |
| `Console.Console.RestoreTermInfo` | student-distrib/terminal.c:240-250 | the restore, whatever the save has left |
| `Console.Console.SwitchTerminal` | student-distrib/terminal.c:202-208 | saving and restoring together are the switch step of the multiplexer |
| `Console.Console.LaunchTerm` | student-distrib/terminal.c:156-181 | the console half of launch_term is that switch step, and nothing for the terminal already on display |
| `Console.Console.HandleBackspace` | student-distrib/keyboard.c:353-392 | the backspace erases one key of line and screen: a character, a tab or a newline |
| `Console.Console.SearchBack` | student-distrib/keyboard.c:368-370 | the search for the end of the line above stops at the last place of the character, if there is one |
| `Console.Console.HandleTab` | student-distrib/keyboard.c:402-420 | the four blanks of the Tab key, with its scrolling in the middle of the screen |
| `Console.Console.HandleScroll` | student-distrib/keyboard.c:431-443 | the screen scrolls and the cursor goes to the start of the last row |
| `Console.Console.HandleEnter` | student-distrib/keyboard.c:265-272 | Enter completes the line and begins a new row, scrolling on the last one; also on a full line |
| `Console.Console.TypeChar` | student-distrib/keyboard.c:294-315 | the default case types the mapped character unless the line holds 127 |
| `Console.Console.PressModifier` | student-distrib/keyboard.c:213-264 | the modifier keys change only the mode, and say which terminal to launch |
| `Console.Console.ClearScreenAndLine` | student-distrib/keyboard.c:273-284 | control-L clears screen and line |
| `Console.Console.ReleaseKey` | student-distrib/keyboard.c:82-115 | releases change only the modifiers |
| `Console.Console.ProcessChar` | student-distrib/keyboard.c:198-316 | each key is its step on the live view, the modifiers and the action to take |
| `Console.Console.KeyboardInterruptHandler` | student-distrib/keyboard.c:71-129 | a scancode is the key step of the multiplexer: it reaches only the terminal on display |
| `Console.Console.constructor` | student-distrib/terminal.c:120-144 | after initialisation, up to the first shell, the console is three empty terminals with the first on display |
| `Console.Console.Boot` | student-distrib/terminal.c:143-144 | at the end of the initialisation the first of three empty terminals comes on display |
| `Blink.AddKeepsOkIff` | fish/blink.S:105-170 | an add keeps list and pool in step if and only if the location is not the free mark |
| `Blink.UnlinkKeepsOk` | fish/blink.S:206-223 | taking any listed slot out leaves a chain without cycles over exactly the slots in use |
| `Blink.UnlinkKeepsOthers` | fish/blink.S:206-223 | and changes no other blinker but for one link |
| `Blink.RemoveTakesTheNewest` | fish/blink.S:187-223 | a removal frees the newest blinker at its location, keeps the others and their order, and touches nothing else |
| `Blink.SyncKeepsOk` | fish/blink.S:240-290 | a sync changes the timing of one blinker and no link or location |
| `Blink.TickKeepsOk` | fish/blink.S:49-99 | a tick of all listed slots keeps the list, the links and the locations |
| `Blink.StepKeepsOk` | fish/blink.S:105-290 | over any operation with nonzero location the list stays acyclic and holds exactly the used slots |
| `Blink.ListAndFreeSlotsFillThePool` | fish/fish.c:160-175 | list length and free slots always add up to 2000 |
| `Blink.StepOnOne` | fish/blink.S:49-99 | whatever the operation, an undisturbed blinker stays listed and only ticks change it |
| `Blink.TickAdvancesPhase` | fish/blink.S:64-86 | a tick moves countdown and status exactly one step along the period, for lengths from 1 to 0x8000 |
| `Blink.AddedStartsLit` | fish/blink.S:135-170 | an added blinker is at the head of the list, shows its on character and starts its lit time, if that is not empty |
| `Blink.BlinkerKeepsTime` | fish/blink.S:49-99 | with lengths a and b it is on after n ticks if and only if n mod (a+b) < a, whatever other operations come between |
| `Blink.AddedKeepsTimeIff` | fish/blink.S:49-99 | an added blinker with lengths a and b is on after n ticks exactly if n mod (a+b) < a, over all runs that leave it alone, if and only if both lengths are from 1 to 0x8000 |
| `Blink.BlinkerShowsTime` | fish/blink.S:64-86 | and if it is alone at its location the screen shows its on character exactly then |
| `Blink.StepAtCell` | fish/blink.S:43-47 | only a tick of its own blinker writes the cell of a blinker that is alone there |
| `Blink.StepDrawsOnly` | fish/blink.S:43-47 | an operation writes no byte of the video memory but the characters of its blinkers |
| `Blink.ColoursStay` | fish/blink.S:43-47 | so over every run the colours of the screen stay |
| `Blink.SyncPutsInStep` | fish/blink.S:267-275 | after a sync source and target agree in lengths, countdown and status |
| `Blink.SyncDisplaysIff` | fish/blink.S:277-285 | after a sync the target is shown rightly exactly if the source is off or the two characters of the target are the same |
| `Blink.SyncedBlinkersStayInStep` | fish/blink.S:49-99 | and they do so, hence toggle on the same ticks, until one of them is removed or synced again |
| `BlinkDriver.BlinkDriver.Malloc` | fish/fish.c:160-170 | the lowest free slot, or none |
| `BlinkDriver.BlinkDriver.Add` | fish/blink.S:105-184 | the code's new pool, list and screen; it returns 0 exactly if the location exists and a slot is free |
| `BlinkDriver.BlinkDriver.FindHelper` | fish/blink.S:351-379 | following the links finds the newest blinker at a location |
| `BlinkDriver.BlinkDriver.Find` | fish/blink.S:302-349 | the blinker found is copied out, and -1 means there is none |
| `BlinkDriver.BlinkDriver.Remove` | fish/blink.S:187-237 | the search for the link that points to a slot ends, and the code's new pool is that of the removal |
| `BlinkDriver.BlinkDriver.Sync` | fish/blink.S:240-300 | the code's new pool and screen, and failure exactly if either location has no blinker |
| `BlinkDriver.BlinkDriver.TickSlot` | fish/blink.S:64-86 | one slot's 16-bit countdown, toggle and redraw |
| `BlinkDriver.BlinkDriver.TickList` | fish/blink.S:58-90 | the walk ends and visits every listed slot exactly once |
| `BlinkDriver.BlinkDriver.RtcTasklet` | fish/blink.S:49-99 | a tick of the code ticks exactly the slots in use and keeps the list |
| `Paging.FieldsAreTheWord` | student-distrib/paging.h:23-66 | the bit-fields make up every 32-bit entry, so nothing of an old entry is lost from view |
| `Paging.ProgramEntryWord` | student-distrib/paging.c:32-44 | the entry that remap leaves is base * 2^22 + 0x87 |
| `Paging.RemapChangesOnlyItsPages` | student-distrib/paging.c:28-48 | remap maps its 4 MBytes to consecutive frames whatever was there, and changes no other translation |
| `Paging.RemapVidChangesOnly` | student-distrib/paging.c:57-78 | remap_vid changes its own 4 MBytes and page 0 of every entry that shares the page table |
| `Paging.RunIsConfigured` | student-distrib/paging.c:28-158 | after any run the tables depend only on the last program and the last video frame mapped |
| `Paging.UserReachesExactly` | student-distrib/paging.c:28-158 | a user program then reaches exactly its own 4 MBytes at 128 MB and one page at 132 MB |
| `Paging.MapIsExactly` | student-distrib/paging.c:87-158 | after any run every page of the address space is mapped as stated in plain numbers: kernel, video pages, program and window, and nothing else |
| `Paging.TableIsSharedByTwo` | student-distrib/paging.c:122 | only directory entries 0 and 33 ever walk through the page table, the latter once the window is mapped |
| `Paging.FramesAreApart` | student-distrib/pit.c:91 | the frames of six processes, the kernel's and the video frames do not meet |
| `Paging.CachedGlobalIsKernel` | student-distrib/paging.c:126-138 | a global translation is the kernel's |
| `Paging.ConfiguredIsQuiet` | student-distrib/paging.c:87-158 | in the tables of any run no other entry is global |
| `Paging.StrayGlobalIff` | student-distrib/paging.c:32-39 | the exact condition under which a half-written entry of the first remap reaches a global page |
| `PageTables.PageTables.StorePde` | student-distrib/paging.c:32-44 | one store into the directory, with whatever the processor caches after it, brings in no stale global translation |
| `PageTables.PageTables.FlushTLB` | student-distrib/paging.c:193-199 | after a reload of CR3 every cached translation agrees with the tables, even if global ones survive |
| `PageTables.PageTables.Remap` | student-distrib/paging.c:28-48 | field by field from any old layout: the new tables, and a TLB that agrees with them |
| `PageTables.PageTables.RemapVid` | student-distrib/paging.c:57-78 | the same for the video window |
| `PageTables.PageTables.SetUpPdPt` | student-distrib/paging.c:87-158 | the loops leave the initial tables |
| `PageTables.PageTables.ValidIsSteady` | student-distrib/paging.c:87-158 | between calls only the kernel's translations are global, so both remaps may run |
| `PageTables.PageTables.MapProgram` | student-distrib/pit.c:91 | mapping a process keeps tables and TLB in order and makes it the one mapped |
| `PageTables.PageTables.MapWindow` | student-distrib/paging.c:57-78 | mapping the window does the same for a video frame |
| `RoundRobin.AfterIsModulo` | student-distrib/pit.c:122 | the terminal after t |
| `RoundRobin.SearchStops` | student-distrib/pit.c:121-126 | the search stops at the first active terminal it passes |
| `RoundRobin.NextIsActiveIff` | student-distrib/pit.c:118-128 | it returns an active terminal if and only if there is one, for any number of terminals |
| `RoundRobin.RotationAdvances` | student-distrib/pit.c:118-128 | each pick turns the circle of active terminals by one |
| `RoundRobin.PassedOnce` | student-distrib/pit.c:121-126 | one turn passes each active terminal once and no other |
| `RoundRobin.EveryActiveTerminalGetsItsTurn` | student-distrib/pit.c:38-47 | any k consecutive ticks with k active terminals pick each of them exactly once |
| `Scheduler.SwitchKeepsContexts` | student-distrib/pit.c:58-107 | a switch between two terminals keeps the state of every process, the resumed one included |
| `Scheduler.SwitchToItselfIff` | student-distrib/pit.c:65-94 | a switch of a terminal to itself keeps its state exactly if the saved kernel stack is the current one |
| `Scheduler.EveryProcessHasItsOwnProcessor` | student-distrib/pit.c:58-107 | over every run each process finds its registers and kernel stack as it left them |
| `Scheduler.NamesAlwaysAgree` | student-distrib/pit.c:89-96 | after a first switch the current process, the running terminal's and the one mapped at 128 MB are always the same |
| `System.StepKeepsOk` | student-distrib/pit.c:38-107 | every event, a part of a switch included, keeps the terminals, the schedule and the window consistent |
| `System.PartsAreLaunch` | student-distrib/terminal.c:156-190 | the two parts of the save, the restore and the mapping of the window, with nothing in between, are launch_term |
| `System.WindowFollows` | student-distrib/pit.c:60-89 | over all interleavings of ticks with the parts of switches, a program that is not itself switching finds at 132 MB the display if its terminal is shown, and its backup otherwise |
| `System.ScheduleAndSwitchMapTheWindow` | student-distrib/terminal.c:181-186 | every schedule and the end of every switch bring that about, whatever was before |
| `System.DrawingStaysOnOwnScreen` | student-distrib/terminal.c:181-186 | drawing through the window changes one byte of the running terminal's own screen and no other view, or nothing that is seen again if that terminal is already saved by a switch under way |
| `System.PrintingStaysOnOwnScreen` | student-distrib/terminal.c:76-94 | so does printing; in the middle of a save the text is kept and the cursor is not |
| `System.OnlyTheTargetChanges` | student-distrib/pit.c:60-89 | each event changes the view of at most one terminal, the one it is meant for |
| `System.BystanderKeepsItsView` | student-distrib/pit.c:58-107 | over all interleavings of ticks with the parts of switches, a terminal on which nobody prints, draws, types or reads keeps its screen and line |
| `System.TickPicks` | student-distrib/pit.c:38-47 | every tick runs the next active terminal, and changes nothing if only the first one has a process |
| `System.TicksFollowPicks` | student-distrib/pit.c:38-47 | k ticks end with the terminal that the k-th pick of the round robin names |
| `System.EveryTerminalRuns` | student-distrib/pit.c:38-47 | so every active terminal runs after at most as many ticks as there are active terminals, from any state |
| `Kernel.Kernel.GetNextProcess` | student-distrib/pit.c:118-128 | the loop is the round-robin search over the terminal table |
| `Kernel.Kernel.MapWindowFor` | student-distrib/pit.c:60-70 | the window ends up on the frame that the running terminal must draw to |
| `Kernel.Kernel.MapShownWindow` | student-distrib/terminal.c:181-186 | mapping it leaves all terminals as they are |
| `Kernel.Kernel.Schedule` | student-distrib/pit.c:58-107 | the stores in their order are the context switch, with TSS, address space and video window switched together |
| `Kernel.Kernel.PitInterruptHandler` | student-distrib/pit.c:38-47 | the handler is the tick of the whole system: terminals, schedule and window |
| `Kernel.Kernel.LaunchTerm` | student-distrib/terminal.c:176-190 | launch_term of a terminal that has a process, with nothing in between, is the launch of the whole system |
| `Kernel.Kernel.FirstLaunch` | student-distrib/terminal.c:164-173 | for a terminal without a process the terminals switch too, and the running process is left where it can be resumed; the window stays |
| `Grep.SeenIff` | syscalls/ece391grep.c:41-45 | the program sees a pattern in a line exactly if the line holds it and the first byte of the pattern is below 0x80 |
| `Grep.LinesAreTheFile` | syscalls/ece391grep.c:29-32 | the lines of a file, each with its newline, are the file |
| `Grep.LinesAreLines` | syscalls/ece391grep.c:29-32 | and hold no newline themselves |
| `Grep.FoundNext` | syscalls/ece391grep.c:29-57 | once the first line of a window is known, searching it leaves the rest of the file to find |
| `Grep.FoundShort` | syscalls/ece391grep.c:33-39 | a line of up to 1024 bytes is searched as one, wherever it lies |
| `Grep.FoundStartsShort` | syscalls/ece391grep.c:45-48 | no more than 1024 bytes are ever printed for a match |
| `Grep.PiecesShowLinesIff` | syscalls/ece391grep.c:20-60 | what is printed is what the program sees in whole lines, if and only if it sees the pattern in no line longer than 1024 bytes |
| `Grep.FoundIsLineSearchIff` | syscalls/ece391grep.c:20-60 | the program prints exactly the lines that hold the pattern, once each and in order, if and only if none of them is longer than 1024 bytes, and the first byte of the pattern is below 0x80 or none holds it at all |
| `Grep.HighByteIsMissed` | syscalls/ece391grep.c:43 | the file E9 searched for E9: nothing is printed |
| `Grep.CarryDown` | syscalls/ece391support.c:14-17 | the overlapping copy moves the carried bytes intact to the start |
| `Grep.Strncmp` | syscalls/ece391support.c:35-46 | 0 exactly for a full match inside the line, which the NUL at its end guards |
| `Grep.FindEnd` | syscalls/ece391grep.c:30-32 | the first newline, or the end of the window |
| `Grep.CheckAt` | syscalls/ece391grep.c:43-44 | the comparison of a signed with an unsigned byte, and then of all the bytes |
| `Grep.Session.Read` | syscalls/ece391grep.c:22 | a read fails, or delivers the next bytes of the file and is short only at its end |
| `Grep.Session.SearchLine` | syscalls/ece391grep.c:41-51 | a line is printed once if the program sees the pattern in it and not at all otherwise |
| `Grep.Session.SearchWindow` | syscalls/ece391grep.c:28-57 | what is printed, carried and still unread together keep what is to be printed |
| `Grep.Session.SearchFile` | syscalls/ece391grep.c:20-60 | over all reads the output is all that is to be found, or a part of it if a read fails |
| `Grep.Session.DoOneFile` | syscalls/ece391grep.c:10-66 | the output and result for every file without NULs and every pattern, with the three failures |
| `FileSystem.ReadData` | student-distrib/file_system.c:85-124 | the count clipped at end of file and exactly those bytes if the inode exists and the read comes to no missing block, and -1 otherwise |
| `FileSystem.FlatIsBlocks` | student-distrib/file_system.c:94-118 | a whole file is its blocks one behind the other, cut at its length |
| `FileSystem.SoundFilesRead` | student-distrib/file_system.c:100-121 | a file with all its blocks never meets a missing one, for any offset and length |
| `FileSystem.WholeReadSucceedsIff` | student-distrib/file_system.c:108-112 | reading a whole file succeeds if and only if every block up to index length/4096 exists |
| `FileSystem.OpenFile.FileRead` | student-distrib/file_system.c:162-174 | a read at the position, which moves by the count; a failure moves it back by one |
| `FileSystem.OpenFile.ReadWhole` | student-distrib/file_system.c:162-174 | on a file with all its blocks: the slice at the position of these blocks joined and cut |
| `FileSystem.ReadsDeliverTheFile` | student-distrib/file_system.c:162-174 | consecutive reads of any sizes deliver the file once and in order |
| `FileSystem.ZeroMeansEndOfFile` | student-distrib/file_system.c:101-103 | 0 for a positive size exactly at end of file |
| `Directory.EntryStrlen` | student-distrib/file_system.c:35 | the length that strlen finds: for a full name it runs on into type and inode number |
| `Directory.BytesAreTheWord` | student-distrib/file_system.c:35 | the type and the inode number behind a name are read from their low byte up |
| `Directory.RunsOnByOneIff` | student-distrib/file_system.c:24-35 | it runs on by one byte exactly if the first byte of the type is not 0 and the second is |
| `Directory.SameBytes` | student-distrib/lib.c:522-536 | the comparison finds no difference exactly if the name begins the entry |
| `Directory.Driver.ReadDentryByName` | student-distrib/file_system.c:16-52 | the first entry of that name that can be found: its fields, inode number and file size, or -1 and no change exactly if there is none |
| `Directory.Driver.ReadDentryByIndex` | student-distrib/file_system.c:63-75 | the fields of an entry, or -1 exactly if there is none of that index |
| `Directory.NameLeadsBackIff` | student-distrib/file_system.c:20-49 | with distinct names each name finds its own entry, except empty ones and full ones where strlen does not run on by exactly one byte |
| `Directory.Driver.DirRead` | student-distrib/file_system.c:205-224 | the next name, or nothing and back to the start |
| `Directory.ListingRepeats` | student-distrib/file_system.c:205-224 | the index goes round all entries for ever |
| `Directory.ListingInOrder` | student-distrib/file_system.c:205-224 | call k delivers the entry k mod (n+1), and nothing in place of entry n |
| `Memory.Memmove` | student-distrib/lib.c:491-509 | dest holds the old source bytes for every overlap, and nothing else changes |
| `Memory.RepMovsl` | student-distrib/lib.c:459-465 | word moves equal byte moves |
| `Memory.Memcpy` | student-distrib/lib.c:445-482 | align, words and tail equal the byte-wise move for all addresses and lengths, also with dest below src |
| `Memory.MoveInPieces` | student-distrib/lib.c:447-475 | a move may be cut in two as long as the first piece spares the source of the second |
| `Memory.Memset` | student-distrib/lib.c:362-396 | align, words and tail store the low byte everywhere in the range and nowhere else |
| `Numerals.DigitsDenote` | student-distrib/lib.c:312-317 | the digits read back as the value |
| `Numerals.LookupIs` | student-distrib/lib.c:295-314 | digits are looked up in 0 to 9 and A to Z |
| `Numerals.NoLeadingZero` | student-distrib/lib.c:300-317 | only 0 has a leading zero |
| `Numerals.LowFirstIsReversed` | student-distrib/lib.c:307-323 | the loop produces the digits in reverse |
| `Numerals.NumeralReadsBack` | student-distrib/lib.c:294-324 | the text of itoa reads back as the value in its radix |
| `Numerals.NumeralFits` | student-distrib/lib.c:294-324 | 32 digits are enough for any 32-bit value and radix |
| `Numerals.Strrev` | student-distrib/lib.c:330-343 | the string is reversed in place and nothing else changes |
| `Numerals.Itoa` | syscalls/ece391support.c:49-81 | the numeral and its NUL are written and nothing else, for radix 2 to 36 |
| `Numerals.PrintUnsigned` | student-distrib/lib.c:132-139 | %u and %x print the numeral |
| `Numerals.PrintSigned` | student-distrib/lib.c:142-155 | %d prints sign and magnitude, for the most negative value too |
| `Numerals.PrintAlternateHex` | student-distrib/lib.c:116-126 | %#x prints the numeral padded with zeros to 8 characters |
| `Numerals.PaddedReadsBack` | student-distrib/lib.c:116-126 | these are 8 hexadecimal digits that still denote the value |
| `Arguments.ArgsAreWords` | syscalls/ece391emulate.c:85-99 | from any place on, the splitter yields the words of the line and then, if a word comes right before the newline, those behind it |
| `Arguments.SplitsLineIff` | syscalls/ece391emulate.c:78-98 | a command splits into the words of its first line if and only if that ends in a space, or nothing but spaces lies between it and the next newline or the end |
| `Arguments.EmptyLineRunsOver` | syscalls/ece391emulate.c:78-98 | the command "\nf" has no word in its first line and "f" among its arguments |
| `Arguments.SplitCommand` | syscalls/ece391emulate.c:81-99 | a command with a newline at most at its end is split into its space-separated words |
| `Arguments.ArgsAreProper` | syscalls/ece391emulate.c:94-97 | no argument is empty or holds a separator |
| `Arguments.JoinedSplits` | syscalls/ece391emulate.c:138-152 | words joined by single spaces split into the same words |
| `Arguments.SplitJoinSplit` | syscalls/ece391emulate.c:138-152 | splitting, joining and splitting again changes nothing, for every text |
| `Arguments.ArgumentsSurvive` | syscalls/ece391emulate.c:131-157 | a program finds the words of its command line in what getargs returns |
| `Arguments.NextArgument` | syscalls/ece391emulate.c:88-98 | one round of the loop adds the next word or has found them all |
| `Arguments.SplitInPlace` | syscalls/ece391emulate.c:76-100 | every pointer in args names its NUL-terminated word in the buffer, a NULL follows, and args is never overrun |
| `Arguments.Getargs` | syscalls/ece391emulate.c:131-157 | 0 exactly if the joined length plus 1 fits nbytes, then the joined text; behind nbytes nothing changes, but for a NUL in the first byte, exactly if the first few arguments fill nbytes |
| `Arguments.CopyString` | syscalls/ece391support.c:14-17 | the text and its NUL |

## Left out

- Process creation and end (`execute` and `halt` of the kernel), file descriptors and their dispatch.
- Port I/O and device set-up: interrupt controller, real-time clock, timer, the hardware cursor.
- Descriptor tables, exception handlers, boot code and the assembly linkage of interrupts: constant tables and sequencing.
- Interrupts inside one of the four parts of a switch, and keys pressed while a switch is under way.
- Scancode 0, after which `keyboard_interrupt_handler` reads an unset variable.
- The busy waits of `read_buffer` and of the clock; a read is modelled from the moment Enter has been hit.
- `term_last_buf` and `rtc_freq` of the terminal table; its other fields are split between `Console.Terminal` (display) and `Scheduler.Task` (process).
- The accessed and dirty bits that the processor sets in page entries, and caches of directory entries: the TLB caches whole translations.
- The last two instructions of `schedule`, which return on the stack of the resumed process; the model loads the two stack pointers.
- The direction flag that `memmove` leaves set after a move to a higher address.
- `ece391_itoa`, `ece391_strrev`, `ece391_strlen` and `ece391_strcmp` have the same loops as the kernel's functions; `ece391_strrev` only returns early for short strings.
- `fork`, `execv` and the exit status in the emulated `execute`; the small user programs; the parts of `fish` that read the frames.
- Multiplexer.OpOk: a tab printed on the terminal on display must not leave the screen (`TextMode.TabLeavesScreen`), and a line must not pass 127 characters; otherwise the code stores outside its video memory or key buffer.
- Keyboard.Handled: a backspace must find its place on the screen. Over a newline the code searches the video memory for the character before it, and runs out of it if there is none.
- Multiplexer.EveryTerminalShowsItsOwnOutput: output without tabs, for which the layout says where they go.
- TypedLines.LinesFollowDesk: output without tabs, and no backspace over an Enter, as either may bring the cursor to the first cell, where backspaces fail (`TypedLines.EraseEditsLineIff`).
- Echo.TypingEchoes: keys other than Tab, whose four blanks are not the one character in the line.
- Console.Console.KeyboardInterruptHandler: up to where it acts on the key; `System` and `Kernel` have the switch.
- Console.Console.LaunchTerm: the display half; `Kernel.Kernel.LaunchTerm` adds the mapping of the window.
- Kernel.Kernel.FirstLaunch: ends before `execute` of the shell.
- Blink.StepKeepsOk: nonzero locations, as `Blink.AddKeepsOkIff` shows it must.
- PageTables.PageTables.SetUpPdPt: if global pages were on, the stray frames at 128 MB and 132 MB must hold no global entry, as `Paging.StrayGlobalIff` explains.
- Grep.Session.DoOneFile: files without NULs, reads short only at the end of the file, and a byte behind the uninitialised window that is not a newline; a newline there would end a full window's last line early.
- FileSystem.ReadData: a read that delivers anything starts in a block that exists and stays within the 1023 block numbers of an inode, since the code checks neither.
- Directory.EntryStrlen: inode numbers below 2^24, so that the search for a NUL ends in the entry.
- Arguments.SplitInPlace: a command as a C string, so without NULs.

Nothing was executed; every claim above is what the Dafny verifier accepts.
