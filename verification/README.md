# Verified models of the boot loader's memory pool, number formatter and update caches

This project models the parts of the `uboot` application that are hardest to get right by reading, and proves
what they promise. Everything is in Dafny; `dafny verify dfyconfig.toml` checks the whole project.

**The lbuf pool** (`Tiling`, `PoolSpec`, `PoolInvariant`, `PoolRuns`, `PoolQueue`; `Memory`, `PoolMemory`,
`PoolMemoryFree`, `PoolMemoryQueue`, `Lbuf`). The allocator keeps block headers and doubly linked lists inside the
arena it hands out. `Memory` models the target's memory as one map from addresses to words, so a freed block's
length really overlays the owner field of a live header. The class `Lbuf.LbufPool` holds that memory and does what the C functions do, loop by loop;
each method is proved to take the pool from one abstract value to the next. The abstract value (`PoolSpec.Pool`) is
the sequence of blocks from the start of the arena to its end, and the queue. What the pool promises is then
proved about whole runs of operations. Every method also shows that the bytes behind the headers of live blocks
are not written. Header sizes are the named constants of the 32-bit target (12, 20, 16).

**The formatter** (`Digits`, `PutDec`, `Layout`, `Printer`, `LongPrinter`, `Strtoull`, `RoundTrip`, `Format`,
`FormatText`, `Vsnprintf`, `FormatRender`, `Agreement`, `Standard`,
`StandardRender`, `TextRender`, `Numeral`). `put_dec` turns binary into decimal by nibbles and multiply-shift division; it is proved to
give exactly the decimal digits. `number` and `vsnprintf` write through a cursor that goes on counting behind
the end of the buffer; both are proved to be the unbounded text cut to the buffer. The second formatter,
`number_to_string`, divides; the two are proved to agree where they are meant to, and the parsers are proved to
read the output back. A format is proved to print what its literal texts and its conversions print, asterisks included,
and integer conversions, the value they take and its layout, are compared with section 7.19.6.1 of ISO/IEC 9899:1999.

**Read-ahead for firmware updates** (`HttpWindow`, `HttpOta`; `BlePreRead`, `BleUpdate`). The HTTP reader keeps a
window of the file that range requests (sections 2.1 and 4.1 of RFC 7233) refill; the Bluetooth reader asks one
block ahead with two buffers and a four-state flag. The server, the other side and the timing of replies are
parameters, universally quantified.

**The parameter area and attribute lists** (`VmLog`, `VmSearch`, `VmScan`, `Ltv`). The search for saved parameters walks
sectors and records with redos; its termination and its result are proved for any flash content. The attribute writer
and its length calculation are proved to agree exactly when no attribute is awkward.

Where a C function loops, so does the method here. Long functions are split into several methods, each with its own
contract, and loops carry ghost arguments; no step is left out by that. Pointers into a string or buffer are
indices. A C string is its characters without the terminator.

Properties that fail, each with the input and the exact condition:

- The comment of `vsnprintf` says it follows C99. `StandardRender.IntegerRendered` says exactly when an integer conversion in a
  format prints what the standard asks, from the way it is written and the arguments it takes. The value is taken wrongly
  for a negative size (`%zd`, `%zi`) and for an unsigned address difference from 2^31 up (`%tu`, `%to`, `%tx`, `%tX`), and right
  otherwise (`Standard.ValueIff`, with inputs in `Standard.ValueDiffers`); a wrong value never prints the right text.
  The layout is wrong (`Agreement.C99Iff`) for hexadecimal zero with `#`; for zero with precision 0; for octal with `#` beyond
  a precision, or for zero unless zeros fill the field; and where the flag `0` fills a field in spite of a precision.
  `Agreement.C99Differs` has an input for each. A lone `.` counts as no precision, and a negative precision argument as
  precision 0 (`FormatRender.ConversionRendered`), where the standard has it the other way round; numbers print
  the same either way (`FormatRender.DotNumber`), and strings exactly if they are blank and fit their field (`TextRender.StringRendered`).
- `simple_strtoull` reads the longest numeral of section 7.20.1.4 of the same standard, modulo 2^64, for every text and base, unless
  base 16 is named and a prefix stands without a digit behind it (`Numeral.ReadsNumeral`, with `0xg` in `Numeral.BareExample`).
- `number_to_string` and `number` differ for a plus without a sign conversion, for zero with `#` in octal and
  hexadecimal, and in some cases of octal with `#` and of a blank without a sign conversion:
  `Agreement.FormattersIff`, with inputs in `Agreement.FormattersDiffer`; `Agreement.LongIs` says what it prints in all cases.
- A wanted and sound record in the flash is not always found: the search looks at the first area and at the highest other
  one, at that one twice, and never at a third (`VmSearch.FoundIff`, with a flash in `VmSearch.ThirdAreaMissed`). A damaged
  record clears what an earlier, sound record of the same index had put into its buffer (`VmLog.LastWins`).
- A Bluetooth read that breaks the sequence directly after reading ahead was switched on can return another block of
  the file (`BlePreRead.SwitchOnBreak`, with a run in `BlePreRead.StaleBlock`). One that breaks it then, when the block asked
  for ahead is its own and already there, or that breaks it later, makes the source copy as many bytes out of a buffer of
  one block as the read is long (`BlePreRead.DrainInside`, with runs in `BlePreRead.LongBreaks`). `BlePreRead.ReadIff` has the exact condition for any read: its own bytes
  come, and every copy stays inside its buffer.
- The announced length of an attribute list is wrong for sizes of 255 and for attributes without a data callback
  (`Ltv.LengthAgrees`).

The HTTP window reads towards the front, as `NET_OTA_FILE_RESV` says (`uboot/apps/code/demo_wifi/net_update.c:87`): behind the first buffer a read that
goes on where the last one ended always misses (`HttpWindow.ForwardIff`).

## Model

| member | source | states |
|---|---|---|
| `Tiling.Canonical` | uboot/apps/code/common/lbuf_new.c:127-185 | the layout of the arena is determined by its live blocks, once no two free blocks touch |
| `Tiling.Conservation` | uboot/apps/code/common/lbuf_new.c:49-301 | in a tiled arena free bytes plus live bytes are its length |
| `Tiling.TiledApart` | uboot/apps/code/common/lbuf_new.c:49-73 | blocks of a tiled arena lie in address order, in the arena, and never overlap |
| `PoolSpec.SpliceTiled` | uboot/apps/code/common/lbuf_new.c:76-218 | replacing neighbouring blocks by others over the same bytes keeps the tiling |
| `PoolSpec.FirstFit` | uboot/apps/code/common/lbuf_new.c:89-92 | the lowest free block that is long enough, and that all before it do not fit |
| `PoolInvariant.AllocInv` | uboot/apps/code/common/lbuf_new.c:76-124 | allocation keeps tiling, block sizes, no touching free blocks, and the queue |
| `PoolInvariant.ReleaseTiled` | uboot/apps/code/common/lbuf_new.c:150-181 | freeing with the full coalescing pass keeps the tiling and leaves no two free blocks touching |
| `PoolInvariant.FreeInv` | uboot/apps/code/common/lbuf_new.c:127-185 | freeing a live block keeps the invariant and takes the block out of the queue |
| `PoolInvariant.ReallocInv` | uboot/apps/code/common/lbuf_new.c:187-218 | shrinking keeps the invariant |
| `PoolInvariant.PushInv` | uboot/apps/code/common/lbuf_new.c:233-246 | pushing keeps the invariant; a block is linked once however often it is pushed |
| `PoolInvariant.PopInv` | uboot/apps/code/common/lbuf_new.c:268-286 | popping keeps the invariant |
| `PoolRuns.ClearInv` | uboot/apps/code/common/lbuf_new.c:289-301 | clearing keeps the invariant and empties the queue |
| `PoolRuns.StepInv` | uboot/apps/code/common/lbuf_new.c:76-301 | every legal operation keeps the invariant |
| `PoolRuns.RunInv` | uboot/apps/code/common/lbuf_new.c:76-301 | so does every legal run |
| `PoolRuns.RunTilesArena` | uboot/apps/code/common/lbuf_new.c:49-301 | after any legal run from a fresh pool the blocks tile the arena, no free blocks touch, and free plus live bytes are the initial length |
| `PoolRuns.RunRestores` | uboot/apps/code/common/lbuf_new.c:127-185 | after any run that leaves no live block the pool is again one free block of the initial address and length |
| `PoolRuns.AnyOrderRestores` | uboot/apps/code/common/lbuf_new.c:127-185 | freeing all live blocks, in any order, restores the one free block |
| `PoolRuns.AllocFirstFit` | uboot/apps/code/common/lbuf_new.c:76-124 | allocation succeeds exactly when a free block fits, and then takes the one with the lowest address |
| `PoolRuns.AllocBlock` | uboot/apps/code/common/lbuf_new.c:81-115 | the payload is 4-byte aligned, holds at least the bytes asked for, and at most 3 rounding bytes and 12 more |
| `PoolRuns.AllocSplits` | uboot/apps/code/common/lbuf_new.c:81-115 | alloc takes the lowest free block that holds header, bytes and rounding, and splits it exactly if more than 12 bytes would be left; all other blocks stay |
| `PoolRuns.AllocThenFree` | uboot/apps/code/common/lbuf_new.c:76-185 | allocating and freeing at once restores the pool exactly |
| `PoolRuns.ChunkNumAllocs` | uboot/apps/code/common/lbuf_new.c:44-47 | as many allocations as lbuf_get_chunk_num answers all succeed on a fresh pool |
| `PoolRuns.ChunkNumLargest` | uboot/apps/code/common/lbuf_new.c:44-47 | lbuf_get_chunk_num answers the largest number whose worst-case blocks fit |
| `PoolRuns.ReallocAnswer` | uboot/apps/code/common/lbuf_new.c:191-217 | realloc answers the pointer it was given, or NULL exactly if the rounded size exceeds the payload |
| `PoolRuns.ReallocCuts` | uboot/apps/code/common/lbuf_new.c:205-216 | the tail is given back exactly if more than 20 bytes would be left behind the rounded payload; else nothing changes |
| `PoolRuns.ReallocShrinks` | uboot/apps/code/common/lbuf_new.c:187-218 | shrinking keeps address and enough bytes, and gives the tail back merged with a free neighbour; all other blocks stay |
| `PoolRuns.ReallocNull` | uboot/apps/code/common/lbuf_new.c:198-202 | when shrinking answers NULL nothing has changed |
| `PoolQueue.AtMostOncePerPush` | uboot/apps/code/common/lbuf_new.c:233-286 | over any run a block is delivered at most as often as it is pushed |
| `PoolQueue.FirstPushedFirst` | uboot/apps/code/common/lbuf_new.c:233-286 | while two blocks stay queued, the one pushed first is delivered first |
| `PoolQueue.NoOvertaking` | uboot/apps/code/common/lbuf_new.c:127-301 | over any run, while a block stays queued and undelivered, no other block is delivered that was not in front of it, whenever that one is pushed, freed or pushed again |
| `PoolQueue.PopSome` | uboot/apps/code/common/lbuf_new.c:268-286 | pop delivers exactly if a block has been pushed and not been delivered since, and then such a block |
| `PoolQueue.DeliveredInTime` | uboot/apps/code/common/lbuf_new.c:233-286 | over any run, a pushed block that stays queued is delivered as soon as there are as many pops as blocks were pending up to it and were pushed again in front of it |
| `PoolQueue.PopIsFirst` | uboot/apps/code/common/lbuf_new.c:268-286 | a block that waits in front of another is never passed over |
| `PoolQueue.PushIsLast` | uboot/apps/code/common/lbuf_new.c:241-243 | a newly linked block comes behind all others |
| `PoolQueue.StepKeepsOrder` | uboot/apps/code/common/lbuf_new.c:127-301 | no operation changes the order of the blocks that stay queued |
| `PoolQueue.ClearFreesQueued` | uboot/apps/code/common/lbuf_new.c:289-301 | clear frees exactly the queued blocks; the unqueued live ones are what they were |
| `PoolQueue.RunOwed` | uboot/apps/code/common/lbuf_new.c:233-286 | deliveries and what is still owed never exceed the pushes |
| `Memory.AddLinked` | uboot/include_lib/system/generic/list.h:129-151 | linking a node between neighbours inserts it into the ring at that place |
| `Memory.DeleteLinked` | uboot/include_lib/system/generic/list.h:153-175 | unlinking a node leaves the ring of the others |
| `Memory.ReplaceLinked` | uboot/apps/code/common/lbuf_new.c:93-96 | linking a split-off rest between the neighbours of the block it comes from puts it in its place |
| `PoolMemory.SplitRep` | uboot/apps/code/common/lbuf_new.c:93-110 | the writes of a splitting allocation give the memory of the new layout |
| `PoolMemory.TakeRep` | uboot/apps/code/common/lbuf_new.c:97-110 | so do those of taking a whole block |
| `PoolMemoryFree.UnlinkQueued` | uboot/apps/code/common/lbuf_new.c:148 | unlinking a block from the queue writes no header but the links |
| `PoolMemoryFree.InsertRep` | uboot/apps/code/common/lbuf_new.c:150-160 | linking a freed block by address gives the memory of the layout with that block free |
| `PoolMemoryFree.MergeRep` | uboot/apps/code/common/lbuf_new.c:172-176 | merging two touching free blocks gives the memory of the merged layout |
| `PoolMemoryQueue.PushRep` | uboot/apps/code/common/lbuf_new.c:240-243 | the writes of a push give the memory of the longer queue |
| `PoolMemoryQueue.PopRep` | uboot/apps/code/common/lbuf_new.c:276-280 | the write of a pop gives the memory with that block delivered |
| `PoolMemoryQueue.CutRep` | uboot/apps/code/common/lbuf_new.c:206-212 | the writes of a shrink give the memory of the block cut in two |
| `Lbuf.NoOverlap` | uboot/apps/code/common/lbuf_new.c:154-157 | for a live block the overlap exit of free is never taken |
| `Lbuf.LbufPool.constructor` | uboot/apps/code/common/lbuf_new.c:49-73 | the aligned pool with its one free block; memory outside is untouched |
| `Lbuf.LbufPool.Alloc` | uboot/apps/code/common/lbuf_new.c:76-124 | on memory: the specified allocation and payload address, and no live payload written |
| `Lbuf.LbufPool.RemainLen` | uboot/apps/code/common/lbuf_new.c:337-365 | answers 1 exactly when the allocation would succeed |
| `Lbuf.LbufPool.RemainSpace` | uboot/apps/code/common/lbuf_new.c:447-462 | the number of free bytes |
| `Lbuf.LbufPool.Free` | uboot/apps/code/common/lbuf_new.c:127-185 | on memory: the block is unlinked, linked by address and all touching blocks are merged |
| `Lbuf.LbufPool.Realloc` | uboot/apps/code/common/lbuf_new.c:187-218 | on memory: the specified shrink; the answer is the pointer given, or NULL exactly if the rounded size exceeds the payload; the kept payload is untouched |
| `Lbuf.LbufPool.WritePayload` | uboot/apps/code/common/lbuf_new.c:81-115 | a client that writes into its own live block keeps the pool and all other live blocks |
| `PoolMemoryQueue.PayloadWriteRep` | uboot/apps/code/common/lbuf_new.c:81-115 | writes behind the header of a live block leave memory holding the same pool |
| `Lbuf.LbufPool.Push` | uboot/apps/code/common/lbuf_new.c:233-246 | on memory: the specified push |
| `Lbuf.LbufPool.MoreData` | uboot/apps/code/common/lbuf_new.c:249-265 | true exactly if a block has been pushed and not been delivered since |
| `Lbuf.LbufPool.Pop` | uboot/apps/code/common/lbuf_new.c:268-286 | on memory: the specified pop; NULL exactly if no block is pending, else a pending one that is not pending any more |
| `Lbuf.LbufPool.IsEmpty` | uboot/apps/code/common/lbuf_new.c:221-227 | true exactly when nothing is queued |
| `Lbuf.LbufPool.Clear` | uboot/apps/code/common/lbuf_new.c:289-301 | on memory: frees every queued block although freeing rewrites the links it walks |
| `Digits.DigitsOf` | uboot/apps/code/common/Vsnprintf.c:267-277 | digits below the base, at least one |
| `Digits.DigitsValue` | uboot/apps/code/common/Vsnprintf.c:267-277 | the digits of a number are worth the number |
| `Digits.NoLeadingZero` | uboot/apps/code/common/Vsnprintf.c:183-222 | no leading zero but in zero itself |
| `Digits.NibbleDigits` | uboot/apps/code/common/Vsnprintf.c:186-222 | the nibble sums reduced from below give the five decimal digits |
| `Digits.Div205` | uboot/apps/code/common/Vsnprintf.c:193-213 | multiplying by 0xcd and shifting by 11 divides by 10, over all values that reach it |
| `Digits.Div13` | uboot/apps/code/common/Vsnprintf.c:203-207 | multiplying by 0xd and shifting by 7 divides by 10, over all values that reach it |
| `Digits.MultiplyShiftLimits` | uboot/apps/code/common/Vsnprintf.c:235-243 | both bounds are the last values for which the multiplication is right |
| `PutDec.PutDecTrunc` | uboot/apps/code/common/Vsnprintf.c:186-222 | exactly the decimal digits of a number below 100000, least significant first |
| `PutDec.PutDecFull` | uboot/apps/code/common/Vsnprintf.c:224-264 | exactly its five digits, leading zeros included |
| `PutDec.PutDecimal` | uboot/apps/code/common/Vsnprintf.c:267-277 | exactly the decimal digits of any 64-bit number, least significant first, at most 20 |
| `PutDec.TwentyDigits` | uboot/apps/code/common/Vsnprintf.c:285 | 20 digits are enough for 64 bits |
| `Layout.DigitCase` | uboot/apps/code/common/Vsnprintf.c:318-333 | digits above nine are small or capital letters, as asked for |
| `Layout.FieldWidth` | uboot/apps/code/common/Vsnprintf.c:343-410 | a printed number is as wide as asked for, or as what must be printed |
| `Layout.FieldShape` | uboot/apps/code/common/Vsnprintf.c:347-410 | what must be printed stands at the left end, the right end, or around zeros |
| `Layout.SameText` | uboot/apps/code/common/Vsprintf.c:473-577 | number and number_to_string print the same text for every 32-bit value, width and precision, in bases 8, 10 and 16 without #, and nonzero hexadecimal with it |
| `Agreement.FormattersIff` | uboot/apps/code/common/Vsprintf.c:473-577 | exactly when number_to_string prints a 32-bit value as number does, in bases 8, 10 and 16, for all flags, widths and precisions |
| `Agreement.FormattersDiffer` | uboot/apps/code/common/Vsprintf.c:494-517 | an input for each way in which they differ |
| `Agreement.LongIs` | uboot/apps/code/common/Vsprintf.c:473-577 | what number_to_string prints, for all inputs: what number prints with the sign flag set, and in octal and for zero with the changes of flag, width and precision that the source makes |
| `Agreement.C99Iff` | uboot/apps/code/common/Vsnprintf.c:279-410 | exactly when number lays a value out as the standard asks, for all values, flags, widths and precisions |
| `Agreement.C99Differs` | uboot/apps/code/common/Vsnprintf.c:279-410 | an input for each way in which it does not |
| `Standard.ValueIff` | uboot/apps/code/common/Vsnprintf.c:919-955 | exactly when a conversion takes the value that the standard asks for from its argument, for all length modifiers and letters |
| `Standard.ValueDiffers` | uboot/apps/code/common/Vsnprintf.c:932-936 | minus one as a signed size prints as 2^32 - 1, and as an unsigned address difference as 2^64 - 1 |
| `Standard.ConversionIff` | uboot/apps/code/common/Vsnprintf.c:919-957 | exactly when a conversion prints what the standard asks for, value and layout, for all flags, widths and precisions |
| `Standard.UnsignedApart` | uboot/apps/code/common/Vsnprintf.c:279-410 | the text of one unsigned number is never what the standard asks for another |
| `StandardRender.IntegerRendered` | uboot/apps/code/common/Vsnprintf.c:432-957 | exactly when vsnprintf, at an integer conversion of a format, prints what the standard asks for and then what follows; asterisks and lone dots included |
| `Agreement.ZeroPadIs` | uboot/apps/code/common/Vsnprintf.c:343-398 | what number prints with the flag 0, whatever the precision: what it prints with the precision that the width leaves |
| `Agreement.OctalIs` | uboot/apps/code/common/Vsnprintf.c:303-346 | what number prints in octal with #, zero included: one digit more than without it |
| `Agreement.HexZeroIs` | uboot/apps/code/common/Vsnprintf.c:303-391 | what number prints for hexadecimal zero with #: the prefix in front of the zeros |
| `Printer.Out.Emit` | uboot/apps/code/common/Vsnprintf.c:351-354 | one character, cut at the end of the buffer; the cursor goes on |
| `Printer.Out.Number` | uboot/apps/code/common/Vsnprintf.c:279-410 | the bounded number printer appends exactly the laid-out number |
| `Printer.Out.Convert` | uboot/apps/code/common/Vsnprintf.c:318-341 | the digits in the temporary buffer, by put_dec or by shifting and masking |
| `LongPrinter.NumberToString` | uboot/apps/code/common/Vsprintf.c:473-577 | the dividing formatter stores exactly its laid-out number; an unknown base prints nothing |
| `Strtoull.SimpleStrtoull` | uboot/apps/code/common/Vsprintf.c:77-104 | value of the run of digits modulo 2^64 and its end, with base guessing and prefix |
| `Strtoull.SimpleStrtoll` | uboot/apps/code/common/Vsprintf.c:112-119 | the signed reading and its end |
| `RoundTrip.UnsignedRoundTrip` | uboot/apps/code/common/Vsprintf.c:77-104 | what number prints without blanks, zero padding included, reads back in its base up to the terminator |
| `RoundTrip.SignedRoundTrip` | uboot/apps/code/common/Vsprintf.c:112-119 | so does signed output |
| `RoundTrip.PrefixedRoundTrip` | uboot/apps/code/common/Vsprintf.c:58-104 | output with # in octal and hexadecimal reads back, with the base named or with base 0 |
| `RoundTrip.PrefixedSigned` | uboot/apps/code/common/Vsprintf.c:112-119 | so does signed output with #, behind its minus sign |
| `Numeral.ReadsNumeral` | uboot/apps/code/common/Vsprintf.c:77-104 | for every text and base, exactly when it reads the longest numeral that the standard expects, to its end and for its value modulo 2^64 |
| `Numeral.ReadsSigned` | uboot/apps/code/common/Vsprintf.c:112-119 | so does the signed reading behind a minus sign, wrapped into 64 bits, and no other sign is read |
| `Numeral.BareExample` | uboot/apps/code/common/Vsprintf.c:85-87 | a prefix without a digit, read in base 16, ends behind the x |
| `RoundTrip.DecimalGuess` | uboot/apps/code/common/Vsprintf.c:58-69 | decimal output reads back with base 0 exactly if it has no leading zero or is below 8 |
| `Format.FormatDecode` | uboot/apps/code/common/Vsnprintf.c:432-632 | one call of format_decode, in loops and labels, is Decode |
| `Format.Decode` | uboot/apps/code/common/Vsnprintf.c:432-632 | stands still only when it resumes after an asterisk, and then nothing stays pending |
| `Format.DecodePrecision` | uboot/apps/code/common/Vsnprintf.c:514-632 | from the precision on, reading stands still only at a pointer or an unknown letter, and a pointer leaves the letter to be read |
| `FormatText.ConversionRead` | uboot/apps/code/common/Vsnprintf.c:432-632 | every conversion without asterisks, pointers included, is read for its flags, width, precision, qualifier and letter, whatever came before |
| `FormatText.FlagsRead` | uboot/apps/code/common/Vsnprintf.c:470-501 | a run of flags sets each flag whose character occurs, in any order |
| `FormatText.NumberRead` | uboot/apps/code/common/Vsnprintf.c:164-173 | skip_atoi yields the value of the run of digits and its end |
| `Vsnprintf.TurnOf` | uboot/apps/code/common/Vsnprintf.c:823-959 | every turn of the main loop gets closer to the end, the pending call included |
| `Vsnprintf.StringShape` | uboot/apps/code/common/Vsnprintf.c:635-667 | a string is its first precision characters at one end of a blank field |
| `Vsnprintf.PrintString` | uboot/apps/code/common/Vsnprintf.c:635-667 | the string printer appends exactly that |
| `Vsnprintf.PrintPointer` | uboot/apps/code/common/Vsnprintf.c:712-761 | pointers: (null), or eight hexadecimal digits unless a width is given |
| `Vsnprintf.PrintTurn` | uboot/apps/code/common/Vsnprintf.c:823-959 | one turn appends the text of its conversion and moves on in format and arguments |
| `Vsnprintf.PrintAll` | uboot/apps/code/common/Vsnprintf.c:823-959 | the main loop terminates and appends the whole text |
| `Vsnprintf.Print` | uboot/apps/code/common/Vsnprintf.c:803-972 | the first min(size-1, total) characters of the whole text, then a terminator, and every cell behind it as before; nothing for size 0; returns total whatever the size |
| `FormatRender.ConversionRendered` | uboot/apps/code/common/Vsnprintf.c:432-959 | every conversion, with asterisks for width and precision or without, prints the text it asks for with the arguments it takes, and then what follows |
| `FormatRender.RenderedParts` | uboot/apps/code/common/Vsnprintf.c:803-972 | a format of literal text, a conversion and a rest prints the text, what the conversion comes to, and the rest |
| `FormatRender.RenderedMoved` | uboot/apps/code/common/Vsnprintf.c:823-959 | what a format prints from a position on is what its rest prints |
| `FormatRender.DotString` | uboot/apps/code/common/Vsnprintf.c:514-524 | a lone dot prints a string as precision 0 would exactly if the string is blank and fits its field |
| `TextRender.PercentRendered` | uboot/apps/code/common/Vsnprintf.c:888-893 | two percent signs print one and take no argument but for asterisks |
| `TextRender.CharRendered` | uboot/apps/code/common/Vsnprintf.c:850-874 | a character prints itself at one end of its field and takes one argument |
| `TextRender.StringRendered` | uboot/apps/code/common/Vsnprintf.c:635-667 | exactly when a string conversion prints what the standard asks for, asterisks and lone dots included |
| `TextRender.PointerRendered` | uboot/apps/code/common/Vsnprintf.c:880-886 | a pointer prints its text and takes along the letters and digits behind it |
| `TextRender.NullPointer` | uboot/apps/code/common/Vsnprintf.c:712-716 | a null pointer prints as a string |
| `TextRender.PlainPointer` | uboot/apps/code/common/Vsnprintf.c:752-760 | any other prints as eight hexadecimal digits in small letters, which read back |
| `TextRender.UnknownRendered` | uboot/apps/code/common/Vsnprintf.c:895-900 | a percent sign in front of anything else prints itself, and what follows is text |
| `Vsnprintf.PlainFormat` | uboot/apps/code/common/Vsnprintf.c:830-840 | a format without percent signs prints itself |
| `Vsnprintf.IntReadsBack` | uboot/apps/code/common/Vsnprintf.c:803-972 | any int printed with %d is read back by simple_strtoll |
| `Vsnprintf.LongLongReadsBack` | uboot/apps/code/common/Vsnprintf.c:803-972 | any long long but the most negative, printed with %lld, is read back |
| `HttpWindow.MissRange` | uboot/apps/code/demo_wifi/net_update.c:660-664 | with a known size every request is a nonempty range inside the file, no longer than the buffer, and covers what is wanted |
| `HttpWindow.AnswerCovers` | uboot/apps/code/demo_wifi/net_update.c:660-704 | with an unknown size the answer still covers what is wanted and fits the buffer |
| `HttpWindow.AfterSound` | uboot/apps/code/demo_wifi/net_update.c:684-719 | no read, whether it succeeds or not, makes the window claim bytes outside the file |
| `HttpWindow.RunsGood` | uboot/apps/code/demo_wifi/net_update.c:660-719 | over any run of reads inside the file every request covers what is wanted, fits the buffer and stays inside a file of known size, and the window stays sound |
| `HttpWindow.CompleteIff` | uboot/apps/code/demo_wifi/net_update.c:439-446 | a reply completes the read exactly when the whole answer came and the request did not reach behind the file, or started at its beginning |
| `HttpWindow.MissAnswered` | uboot/apps/code/demo_wifi/net_update.c:684-719 | exactly when a miss is answered, in the numbers of the read: from how far back to how far on, and what a forgotten size costs |
| `HttpWindow.NoneLeft` | uboot/apps/code/demo_wifi/net_update.c:690-714 | a miss without a connection leaves an empty window |
| `HttpWindow.KnownSizeCompletes` | uboot/apps/code/demo_wifi/net_update.c:439-446 | with a known size the whole answer is enough |
| `HttpWindow.RetryHits` | uboot/apps/code/demo_wifi/net_update.c:693-700 | a reply that breaks off behind the wanted bytes makes the next try a hit |
| `HttpWindow.BroughtAnswers` | uboot/apps/code/demo_wifi/net_update.c:903-911 | net_f_read succeeds whenever a try but the last brings the wanted bytes |
| `HttpWindow.BackwardHits` | uboot/apps/code/demo_wifi/net_update.c:701-705 | after a miss all reads from the start of the window to the end of this read are hits |
| `HttpWindow.ForwardIff` | uboot/apps/code/demo_wifi/net_update.c:701-705 | after an answered miss the next sequential read hits exactly if the first was within the first buffer and both fit the buffer together |
| `HttpOta.HttpOta.Seek` | uboot/apps/code/demo_wifi/net_update.c:839-856 | absolute, or relative in 32 bits |
| `HttpOta.HttpOta.Read` | uboot/apps/code/demo_wifi/net_update.c:881-941 | returns all the bytes of the file at the position or none and then leaves the caller's buffer alone; the window always shows the file |
| `HttpOta.HttpOta.HttpRead` | uboot/apps/code/demo_wifi/net_update.c:684-719 | one try, hit or miss |
| `HttpOta.HttpOta.HttpGet` | uboot/apps/code/demo_wifi/net_update.c:565-683 | overwrites the buffer with its texts, empties the window and fixes the range |
| `HttpOta.HttpOta.MsgRecv` | uboot/apps/code/demo_wifi/net_update.c:334-446 | a piece extends the window with the next bytes of the file; the last one copies what is wanted |
| `HttpOta.HttpOta.AppendFirst` | uboot/apps/code/demo_wifi/net_update.c:347-415 | the first piece loses its header and teaches the file size |
| `BlePreRead.OpenedMode` | uboot/apps/code/common/update_main.c:619-651 | over any run of reads from the start of an update, allowed or not, reading ahead is switched on with the fifth block downwards in a row, on from the sixth, and off after any other read |
| `BlePreRead.ArriveLabelled` | uboot/apps/code/common/update_main.c:375-393 | a block asked for ahead finds a free buffer, and is kept there under its true address |
| `BlePreRead.WaitFirst` | uboot/apps/code/common/update_main.c:431-506 | the handler brings the expected block whatever the timing of replies and polls |
| `BlePreRead.BreakDrains` | uboot/apps/code/common/update_main.c:670-678 | a read that breaks the sequence first takes in everything that is on its way |
| `BlePreRead.ReadKeeps` | uboot/apps/code/common/update_main.c:375-393 | along every allowed read every reply that comes in while it waits is treated as it should be: a block asked for ahead finds a free buffer and is kept under the address of its request |
| `BlePreRead.ReadStays` | uboot/apps/code/common/update_main.c:596-607 | no allowed read copies more out of a buffer than it has, its drain included |
| `BlePreRead.ReadCorrect` | uboot/apps/code/common/update_main.c:654-707 | every allowed read brings the bytes at its own address and leaves exactly the next block expected, or nothing |
| `BlePreRead.RunCorrect` | uboot/apps/code/common/update_main.c:325-707 | all reads of any allowed run bring their own bytes; along them replies are placed and labelled right, and copies stay inside |
| `BlePreRead.UpdateCorrect` | uboot/apps/code/common/update_main.c:586-594 | so do all reads from the start of an update on |
| `BlePreRead.SwitchOnBreak` | uboot/apps/code/common/update_main.c:633-637 | exactly when breaking the sequence right after the switch-on brings the right bytes with every copy inside its buffer, for reads of any length and any timing; which block is returned otherwise |
| `BlePreRead.ReadIff` | uboot/apps/code/common/update_main.c:654-707 | exactly when a read, in any state between reads and with any timing, brings its own bytes with every copy inside its buffer |
| `BlePreRead.StaleBlock` | uboot/apps/code/common/update_main.c:633-637 | a run from the start of an update, six blocks downwards from 6656, after which the read of the block at 0 returns the block at 3584 |
| `BlePreRead.DrainInside` | uboot/apps/code/common/update_main.c:673-677 | the wait of a later break stays inside its buffer exactly if the read is no longer than a block |
| `BlePreRead.LongBreaks` | uboot/apps/code/common/update_main.c:599-611 | two runs from the start of an update, after which a read of two blocks copies 1024 bytes out of a buffer of 512 |
| `BleUpdate.BleUpdate.Receive` | uboot/apps/code/common/update_main.c:325-407 | one reply: ignored, kept ahead under its address, or copied to the reader |
| `BleUpdate.BleUpdate.GetPreReadBuf` | uboot/apps/code/common/update_main.c:596-617 | the block with that address, if a buffer has it, and the buffer is free again |
| `BleUpdate.BleUpdate.GetPreReadFlag` | uboot/apps/code/common/update_main.c:619-651 | the four-state flag and its counter |
| `BleUpdate.BleUpdate.Handler` | uboot/apps/code/common/update_main.c:431-506 | the polling loop, for any schedule of replies |
| `BleUpdate.BleUpdate.Read` | uboot/apps/code/common/update_main.c:654-707 | n == len and the buffer holds the bytes of the file at addr, for every read that goes right and every timing; after an allowed one the next may follow |
| `VmLog.HeaderReads` | uboot/apps/code/demo_wifi/vm_wifi.c:218-222 | index and length read back from a record header, 12 bits each |
| `VmScan.SearchEnds` | uboot/apps/code/demo_wifi/vm_wifi.c:205-252 | every turn that goes on gets closer to the end, for any flash content: redos left, then area not found, then way to go get smaller |
| `VmLog.VisitSays` | uboot/apps/code/demo_wifi/vm_wifi.c:147-168 | the first entry with the index gets the payload, or as much as it holds, or is cleared if the checksum of what was read is wrong; nothing else changes |
| `VmLog.NextSector` | uboot/apps/code/demo_wifi/vm_wifi.c:223-244 | sector addresses stay multiples of the sector size inside the flash; the search ends at 0 |
| `VmSearch.ThroughArea` | uboot/apps/code/demo_wifi/vm_wifi.c:205-252 | the search goes through all records of an area, once each and in order, up to the first header never written or the end |
| `VmSearch.AreaFinal` | uboot/apps/code/demo_wifi/vm_wifi.c:223-244 | it ends at an area that has a hit, or whose records run to its end, or when the redos are used up |
| `VmSearch.AreaPassed` | uboot/apps/code/demo_wifi/vm_wifi.c:223-242 | otherwise it goes on at the highest area but the first one found |
| `VmSearch.SearchOutcome` | uboot/apps/code/demo_wifi/vm_wifi.c:170-254 | for any flash, from its start, the whole search comes to the first area, then the highest other one, then that one again |
| `VmSearch.SearchTable` | uboot/apps/code/demo_wifi/vm_wifi.c:170-254 | the table it leaves: filled from the first area, or also from the highest other one, or twice from that one |
| `VmSearch.FoundIff` | uboot/apps/code/demo_wifi/vm_wifi.c:170-254 | a wanted and right record is found exactly if it is in the first area, or the first area is closed and it is in the highest other one |
| `VmSearch.FoundWhere` | uboot/apps/code/demo_wifi/vm_wifi.c:238-239 | which area is remembered, whether something is found or not |
| `VmSearch.ThirdAreaMissed` | uboot/apps/code/demo_wifi/vm_wifi.c:214-244 | a flash with three areas in which a wanted and right record is not found |
| `VmSearch.SameAgain` | uboot/apps/code/demo_wifi/vm_wifi.c:225-242 | an area left for a redo is looked at again if it is the highest other one, and has no hit then either |
| `VmSearch.LogMarks` | uboot/apps/code/demo_wifi/vm_wifi.c:218-248 | an area written as records is walked record by record, and fills the table as replaying them does |
| `VmSearch.FilledFromFirst` | uboot/apps/code/demo_wifi/vm_wifi.c:170-254 | from the start, the table is filled from the records of the first area if one of them is wanted and right |
| `VmSearch.FilledFromSecond` | uboot/apps/code/demo_wifi/vm_wifi.c:170-254 | or else from those of the highest other area, on top of the first |
| `VmSearch.SecondLength` | uboot/apps/code/demo_wifi/vm_wifi.c:225-248 | the length remembered of the highest other area counts the records of the first one too |
| `VmLog.LastWins` | uboot/apps/code/demo_wifi/vm_wifi.c:147-168 | each wanted index ends with the payload of its last record, or cleared if that is damaged; others are untouched |
| `VmSearch.Descends` | uboot/apps/code/demo_wifi/vm_wifi.c:205-242 | the search goes on at the highest sector with the magic, leaving out the first area found |
| `VmSearch.NoneHigher` | uboot/apps/code/demo_wifi/vm_wifi.c:205-242 | no sector above that one has the magic |
| `VmScan.VmArea.IndexFind` | uboot/apps/code/demo_wifi/vm_wifi.c:147-168 | the first entry with that index is filled, or cleared if the checksum is wrong |
| `VmScan.VmArea.Find` | uboot/apps/code/demo_wifi/vm_wifi.c:170-254 | the whole search, in place on the buffers; if the area that the boot loader names, or else the last sector, has a wanted and right record, the table is filled from it, its address is remembered, and its length is kept or counted anew |
| `VmScan.VmArea.OneTurn` | uboot/apps/code/demo_wifi/vm_wifi.c:205-252 | one turn of the loop |
| `Ltv.MaskedBit` | uboot/apps/code/common/ltv_format.c:34-35 | type i belongs to the mask's bit worth 2 to the i |
| `Ltv.AttrOf` | uboot/apps/code/common/ltv_format.c:9-22 | the first attribute of a type |
| `Ltv.AttrTotalLenGet` | uboot/apps/code/common/ltv_format.c:24-44 | the announced length |
| `Ltv.AttrFill` | uboot/apps/code/common/ltv_format.c:47-73 | writes the masked known items one behind the other; a missing buffer is refused |
| `Ltv.RoundTrip` | uboot/apps/code/common/ltv_format.c:58-67 | encoded items decode to themselves |
| `Ltv.LengthAgrees` | uboot/apps/code/common/ltv_format.c:24-73 | the announced length is where the cursor ends if and only if no masked type has a size callback alone or a size of 255 |
| `Ltv.LengthGap` | uboot/apps/code/common/ltv_format.c:24-73 | by how much the announced length is off otherwise |
| `Ltv.FillDecodes` | uboot/apps/code/common/ltv_format.c:47-73 | then the announced bytes decode to exactly the masked known items, and nothing behind them is written |
| `Ltv.ItemsAscend` | uboot/apps/code/common/ltv_format.c:53-56 | the items are of masked known types, in ascending order, each with its data |
| `Ltv.ItemsComplete` | uboot/apps/code/common/ltv_format.c:53-57 | no masked known type is missing |

## Left out

- Lbuf.LbufPool.Realloc: only for sizes below the block length, because the source asserts that and resets otherwise (`ASSERT`, `uboot/apps/code/common/lbuf_new.c:196`).
- Lbuf.LbufPool.Alloc: requests whose length plus header and rounding exceeds 32 bits are not modelled; there the source wraps.
- Lbuf.LbufPool.Push: at most 127 pushes of one block between frees, because the reference count is a char.
- Lbuf.LbufPool.Free: only live blocks; a freed block's length overlays the owner field, so the source has no working guard against a second free.
- `lbuf_inc_ref`: it makes a later push skip linking, so it is not an operation of the runs.
- Lbuf.LbufPool.constructor: not for pools too small for a pool header and two free headers.
- The wrappers around the pool functions; debug output; critical sections, which make each operation atomic.
- Printer.Out.Number: precisions above 32700, widths below -1 and the most negative signed value, for which the source's short and long long arithmetic overflows.
- LongPrinter.NumberToString: the most negative 32-bit value, which the source negates in 32 bits.
- Vsnprintf.Print: widths that a short does not hold (a literal above 32767, an argument of -32768 or beyond); sizes larger than the buffer, and their clamp when the end wraps (`uboot/apps/code/common/Vsnprintf.c:817-821`); `%n` and the letters behind `%p` that ask for extensions (function, resource and address printers are stubs or external); arguments of the wrong type; totals above 2^31.
- StandardRender.IntegerRendered: width and precision arguments that a short holds, because the source cuts them to one; `%Z` and the letters other than `d i o u x X` have no counterpart here.
- Format.SkipAtoi: numbers in a format are unbounded; the source overflows an int for more than nine digits.
- `vsprintf`, `vsscanf` and the other printers of the repository: they repeat the cores above.
- HttpOta.HttpOta.Read: one connection at a time, and no piece of a reply after its timeout; for reads longer than the buffer, or that start at or reach behind the end of the file, nothing is stated.
- HttpOta.HttpOta.AppendFirst: the source moves the body with memcpy although the ranges overlap; it is modelled as a move towards the front. The header text search is a parameter (the header's length and the file size it tells).
- The answers other than 206 with their redo (`net_recv_err`), the access-point path, sockets, DNS and delays; the progress percentage.
- BleUpdate.BleUpdate.Read: reads that go wrong by `BlePreRead.ReadIff`; after a break directly behind the switch-on nothing is stated about the next read.
- BleUpdate.BleUpdate.GetPreReadBuf: only copies inside the buffer; the source copies what lies behind a buffer too, and when it is asked to is stated by `BlePreRead.ReadIff`.
- BleUpdate.BleUpdate.Handler: disconnection is not modelled, and a timeout only when nothing more can arrive; `ONE_TIME_RECEIVE_ALL_DATA` is off. The two halves of one 1024-byte buffer are two arrays.
- BlePreRead.ReadCorrect: lengths are those of the callers' 16-bit argument; the source truncates longer ones.
- The drain writes into the buffer of the previous read; the result is stated for each read's own buffer when it returns.
- VmScan.VmArea.Find: the area named by the boot loader lies in the flash, whose size is a multiple of the sector size; decryption (with the fixed key 0), checksum and flash content are arbitrary functions.
- VmLog.LastWins: payloads longer than their buffer are visited by the search but not by this lemma.
- `vm_data_read` and `vm_data_recover` copy the area found; flash drivers.
- Ltv.AttrFill: callbacks are fixed values, and the data they return is at least as long as the size they return.
- Hardware: registers, clocks, UART, USB and radio stacks; floating point; `msg.c`, whose circular buffer is not part of this model.
