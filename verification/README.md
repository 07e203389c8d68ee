# uCore: heaps, processes, copy-on-write memory and formatted output

This project models parts of the uCore teaching kernel and its small C library, and
proves what they promise. It has four independent parts.

**The skew heap** (`lab6/libs/skew_heap.h`) is the run queue of the stride scheduler.
`SkewTree.dfy` defines merge, insert and removal of an arbitrary node on trees and
proves contents, heap order and sorted draining over every run. `SkewCost.dfy` counts
calls of merge and proves the amortised logarithmic bound by a potential, for removals
of any node.
`SkewHeap.dfy` is the code itself, on nodes with `parent`, `left` and `right`: the
links that it leaves are exactly those of the tree operations; `SkewQueue.dfy` keeps such
a heap in operation and carries cost and order over to it. `Stride.dfy` says for
which strides the 32-bit comparison callback meets the contract of the heap, and that a
run queue whose strides go round the range still drains in order, as long as the strides
queued at any one time fit together.

**Memory and processes** (`lab5`). `Paging.dfy` models frames and two-level page
directories. `CowRange.dfy`, `Mm.dfy` hold the copying of ranges and regions, eager and
copy-on-write, and the fault handler; `CowMachine.dfy` is the protocol over all address
spaces, in which both forms of fork are shown to have the same runs, and `CowFaults.dfy`
looks at runs with faults anywhere. `CowTrace.dfy` shows that whatever the code does to
descriptors, page directories and frames is such a run, and `CowHistory.dfy` what each
process finds at each address, from the history of events alone. `Loader.dfy` is the
segment loader of `load_icode`, and `LoaderLaws.dfy` what a loaded program finds.
`ProcSpec.dfy` says on values what fork, exit, wait and kill do to the family of
processes and proves their invariant, and `ProcEffects.dfy` what they do to each process;
`ProcLinks.dfy` and `Proc.dfy` hold the code on process records threaded through `cptr`,
`optr` and `yptr`, with `get_pid` in `PidAlloc.dfy`; `ProcRuns.dfy` proves what holds over every run, and
`ProcTrace.dfy` that whatever the code does on the records is such a run.
`RoundRobin.dfy` is about the scheduler of `lab5`, which `ProcTrace.dfy` runs on the
process list, and proves that nobody starves.

**Formatted output** (`lab6/libs/printfmt.c`, `string.c`). `FormatSpec.dfy` gives the
text that a format describes, by recursion over the format. `Printfmt.dfy` is the code,
with the bounded buffer and the rewinding of an unrecognised directive. `Directives.dfy`
says what formats made of directives print. `Strtol.dfy` is the reader, and what texts
made of blanks, sign, prefix and digits it reads; `RoundTrip.dfy` says exactly when it
reads back what the printer has printed.
`Digits.dfy` holds the positional numerals that both use.

**Arithmetic** (`lab6/libs/rand.c`, `hash.c`). `Rand.dfy` proves the full period of the
48-bit generator and the equal distribution of its output, `Hash.dfy` that the hash fills
all buckets equally. `Arith.dfy` holds congruences.

How C is read: integers are unbounded with the wrap-around written out where the code
relies on it (`rand`, `hash32`, `strtol`, the stride difference, `getint`/`getuint`). A
stretch of kernel code between two calls of `schedule` is one step, since the kernel is
not preempted there. Memory and processes are bounded only where the code tests a bound
(`MAX_PROCESS`, `MAX_PID`, the user address range).

Properties that fail are stated with an input for which they fail and with their exact
condition:

- A negative number padded with spaces is not read back by `strtol`, nor is a pointer
  padded with spaces or dashes: `%5ld` of -7 is read as 0 and `%5p` of 7 as 0
  (`PaddedNegativeUnread`, `PaddedPointerUnread`). `SignedDirectiveReadsBackIff`,
  `UnsignedDirectiveReadsBackIff` and `PointerReadsBackIff` say for which flags and widths
  printing and reading are inverse.
- The comment at `printfmt.c:148` calls `-` a flag to pad on the right. For numbers the
  code puts dashes in front of the digits. So every number that gets a dash is read back
  wrongly, except 0, and 2^63 modulo 2^64, with one dash: `%-3ld` of 42 prints `-42` and
  is read as -42 (`DashedNumberNegated`). The flag does no harm to a number exactly if the width is at
  most the number of its digits (`DashHarmlessIff`).
- A written precision of 0 is not understood: the `0` behind the dot is taken for the
  padding flag and no precision is set. `%.0s` prints the whole string
  (`PrecisionZeroPrintsAll`). The flags are those asked for if and only if the written
  precision is not 0 (`UnderstoodIff`), and the precision bounds what is printed of a
  string if and only if it is not 0 or the string is empty (`PrecisionBoundsIff`). A star
  for the precision has no such exception (`StarPrecision`).
- The comment of `strtol` allows the prefix `0X`; the code knows only `0x`
  (`UpperCasePrefixUnread`).
- The comment of `printfmt.c` says that widths are for numeric formats only; the code
  supports them for `%s`, and so does the model.
- The fault handler gives write permission whatever the region says: a store to the only
  page of a process, in a read-only region, makes this page writable
  (`ReadOnlyPageBecomesWritable`). Write bits stay within writable regions exactly if the
  faulting page is in one (`FaultConfinedIff`). That frames with write permission are
  never shared does not depend on this (`WildExclusivity`).
- `mm_map` answers `-E_INVAL` to an overlap only if the new region begins inside of an
  old one. If it begins below an old one and reaches into it, an assertion stops the kernel
  (`MapPanicsIff`), as for two pages in front of a region that begins with the second one
  (`OverlapFromBelowPanics`).
- The stride comparison is an order exactly on sets of strides that fit into half of the
  range (`OrdersExactlyWindows`); it fails for the strides 0 and 2^31 (`OppositeStrides`).

## Model

| member | source | states |
|---|---|---|
| Rand.Generator.Rand | lab6/libs/rand.c:11-16 | one call moves the state by the 48-bit recurrence and returns bits 12 to 42 of the new state; the state stays below 2^48 |
| Rand.Generator.Srand | lab6/libs/rand.c:22-25 | the state is the seed |
| Rand.MaskAfterWrap | lab6/libs/rand.c:13 | computing modulo 2^64 before masking to 48 bits gives the 48-bit recurrence |
| Rand.ReturnsIff | lab6/libs/rand.c:13 | for every multiplier of the form 4k+1 and odd increment, n steps modulo 2^k return to the start exactly if 2^k divides n |
| Rand.FullPeriod | lab6/libs/rand.c:11-16 | from every state: back exactly after the multiples of 2^48 calls, no repetition before, every 48-bit value visited |
| Rand.Equidistributed | lab6/libs/rand.c:11-16 | within one period every value from 0 to RAND_MAX is returned exactly 2^17 times |
| Rand.OutputBits | lab6/libs/rand.c:14-15 | the number returned is bits 12 to 42 of the state |
| Rand.FirstNumbers | lab6/libs/rand.c:5-16 | the first three numbers from the static state |
| Hash.HashInRange | lab6/libs/hash.c:13-17 | the hash is below 2^bits, as documented |
| Hash.ScrambleBijective | lab6/libs/hash.c:15 | multiplication by the golden ratio prime is a bijection of 32-bit values, with an explicit inverse |
| Hash.HashUniform | lab6/libs/hash.c:13-17 | for every number of bits from 1 to 32, each bucket has exactly 2^(32-bits) preimages |
| Hash.SomeHashes | lab6/libs/hash.c:13-17 | some numbers and their buckets |
| SkewTree.MergeContents | lab6/libs/skew_heap.h:29-59 | merging neither loses nor duplicates an element |
| SkewTree.MergeDistinct | lab6/libs/skew_heap.h:29-59 | disjoint trees without repetition merge into one without repetition |
| SkewTree.MergeOrdered | lab6/libs/skew_heap.h:37-57 | merging keeps heap order for every total preorder that answers -1 for strictly less |
| SkewTree.RemoveElems | lab6/libs/skew_heap.h:69-85 | removal of any node, root or interior, removes exactly this node |
| SkewTree.RemoveOrdered | lab6/libs/skew_heap.h:69-85 | and keeps heap order |
| SkewTree.DrainPermutes | lab6/libs/skew_heap.h:69-85 | repeated removal of the root emits exactly the contents |
| SkewTree.DrainSorted | lab6/libs/skew_heap.h:69-85 | and emits them in order |
| SkewTree.RunKeeps | lab6/libs/skew_heap.h:61-85 | every run of inserts and removals of arbitrary members keeps order and distinctness, and the heap holds what was inserted and not removed; the callback need only order the members present at each step |
| SkewTree.OneUniverse | lab6/libs/skew_heap.h:61-85 | a legal run is such a run if the callback orders all elements that ever join |
| SkewTree.DrainAfterRun | lab6/libs/skew_heap.h:61-85 | after any such run, draining emits a sorted permutation of exactly the remaining nodes |
| SkewCost.LightIsLogarithmic | lab6/libs/skew_heap.h:29-59 | at most log2(size+1) nodes of the right spine have a right subtree no larger than the left one |
| SkewCost.Log2IsExponent | lab6/libs/skew_heap.h:29-59 | the logarithm of the bounds is the exponent of the largest power of two up to the number |
| SkewCost.MergeCallsBetween | lab6/libs/skew_heap.h:29-59 | a merge makes more calls than the shorter right spine has nodes and at most as many as both have |
| SkewCost.MergeAmortised | lab6/libs/skew_heap.h:29-59 | calls of merge plus new potential exceed the old potentials by at most 2(log2(|a|+1)+log2(|b|+1))+1 |
| SkewCost.RemoveAmortised | lab6/libs/skew_heap.h:69-85 | taking out any node, root or interior: calls of merge plus the change of potential of the whole tree are at most 4 log2(n+1)+1; the ancestors that gain potential are paid for by their sizes |
| SkewCost.OpAmortised | lab6/libs/skew_heap.h:61-85 | an insert or the removal of any member costs at most 4 log2(n+1)+3 amortised calls on at most n nodes |
| SkewCost.LogarithmicRuns | lab6/libs/skew_heap.h:61-85 | any run of k inserts and removals of arbitrary members, never on more than n nodes, makes at most k(4 log2(n+1)+3) calls of merge |
| SkewCost.LegalRunsLogarithmic | lab6/libs/skew_heap.h:61-85 | whatever joins and leaves, k operations from the empty heap make at most k(4 log2(k+1)+3) calls |
| SkewHeap.SkewHeapInit | lab6/libs/skew_heap.h:23-27 | the node becomes a heap of one |
| SkewHeap.SkewHeapMerge | lab6/libs/skew_heap.h:29-59 | the nodes of two disjoint heaps are relinked into the merged tree, all parent, left and right links agreeing; the parent of the new root is left as it was, for the caller to repair; the calls made are those counted in SkewCost |
| SkewHeap.SkewHeapInsert | lab6/libs/skew_heap.h:61-67 | the result is a heap with a null root parent whose node set has grown by exactly the new node; nothing outside is written |
| SkewHeap.Replacement | lab6/libs/skew_heap.h:73-75 | the merged children of a node hang under the parent of this node |
| SkewHeap.SkewHeapRemove | lab6/libs/skew_heap.h:69-85 | any node of the heap, found by its parent link alone, is cut out; the other nodes form a heap with a null root parent; nothing outside is written; the calls made are those counted in SkewCost |
| SkewHeap.RemoveLayout | lab6/libs/skew_heap.h:77-84 | the links after removing an interior node differ from the old ones only at its parent and in the merged children |
| SkewQueue.Queue.constructor | lab6/libs/skew_heap.h:12-21 | the null root is the empty heap, after the empty run |
| SkewQueue.Queue.Insert | lab6/libs/skew_heap.h:61-67 | skew_heap_insert extends the run by one insert, and the calls of merge made so far by those of this insert |
| SkewQueue.Queue.Remove | lab6/libs/skew_heap.h:69-85 | skew_heap_remove extends the run by the removal of any member, and the calls likewise |
| SkewQueue.Queue.Drain | lab6/libs/skew_heap.h:69-85 | removing the root until it is null yields the drain of the tree: sorted, and exactly the members of the run, if the callback has ordered the members at each step |
| SkewQueue.CallsBounded | lab6/libs/skew_heap.h:61-85 | the code has made at most k(4 log2(k+1)+3) calls of merge in k operations |
| Stride.OrdersExactlyWindows | lab6/kern/schedule/default_sched_stride:16-25 | the wrapping comparison is a total preorder on a set of strides if and only if some member has all of them within 2^31 above it |
| Stride.OppositeStrides | lab6/kern/schedule/default_sched_stride:16-25 | two strides 2^31 apart compare as less both ways, so they are not ordered |
| Stride.CompIsAhead | lab6/kern/schedule/default_sched_stride:16-25 | 0 for equal strides, 1 if the first is ahead by less than half of the range, else -1 |
| Stride.QueueOrderedIff | lab6/kern/schedule/default_sched_stride:16-25 | queued processes, several of which may have the same stride, are totally preordered if and only if their strides fit into half of the range |
| Stride.StrideQueueDrains | lab6/kern/schedule/default_sched_stride:16-25 | after any run in which the strides queued at any one time fit into half of the range, however often they wrap around over the run, the queue yields exactly the processes left, each less than half of the range behind those that follow |
| Digits.NumeralValue | lab6/libs/printfmt.c:39-54 | the digits that printnum prints are a numeral of the base whose value is the number |
| Digits.NumeralLeads | lab6/libs/printfmt.c:46-54 | a numeral begins with 0 only if it is the numeral of 0 |
| Digits.NumeralIsLower | lab6/libs/printfmt.c:54 | the digits of a numeral are 0 to 9 and small letters below the base |
| Digits.PaddedField | lab6/libs/printfmt.c:46-54 | the numeral stands at the right end of its field, which is as wide as asked or as the numeral, and the rest is padding |
| Digits.ValueCons | lab6/libs/string.c:232-253 | the value that strtol accumulates is positional: each digit counts with the power of the base for the digits behind it |
| Digits.SmallDigits | lab6/libs/string.c:236-241 | 0 to 9 and a to z are the digits of the bases up to 36 |
| Digits.CapitalDigits | lab6/libs/string.c:236-244 | so are the capital letters |
| Digits.OnlyDigits | lab6/libs/string.c:236-247 | and no other character is a digit |
| FormatSpec.ReadAsHeld | lab6/libs/printfmt.c:68-97 | an argument is read as the signed or unsigned number on 32 or 64 bits whose two's complement the word holds |
| FormatSpec.LiteralRun | lab6/libs/printfmt.c:133-138 | characters up to the next % are rendered as they are |
| FormatSpec.EchoIsRewind | lab6/libs/printfmt.c:277-282 | an unrecognised directive renders as % followed by rendering again from behind the %, with the arguments its stars have consumed |
| Printfmt.SprintBuf.constructor | lab6/libs/printfmt.c:339-340 | an empty buffer that leaves room for the terminator |
| Printfmt.SprintBuf.SprintPutch | lab6/libs/printfmt.c:299-305 | every character is counted; only those that fit are stored, nothing at or behind the end is written |
| Printfmt.Pad | lab6/libs/printfmt.c:229-231 | exactly max(width, 0) padding characters |
| Printfmt.PrintNum | lab6/libs/printfmt.c:39-54 | prints the numeral of the number, padded on the left to the width |
| Printfmt.StrNLen | lab6/libs/string.c:33-40 | the smaller of the length and the bound |
| Printfmt.PrintCharacters | lab6/libs/printfmt.c:221-228 | prints the characters that the precision admits, unprintable ones as ? under #, and returns the width that is left |
| Printfmt.PadLeft | lab6/libs/printfmt.c:216-220 | pads by the width minus the characters that will be printed |
| Printfmt.PrintString | lab6/libs/printfmt.c:211-232 | prints the specified text of %s, (null) for a null pointer |
| Printfmt.ReadDirective | lab6/libs/printfmt.c:140-191 | the goto machine stops at the conversion character that the recursive scan of the flags specifies, with the same flags and arguments consumed |
| Printfmt.ReadNumber | lab6/libs/printfmt.c:159-166 | consumes all digits and computes their decimal value |
| Printfmt.Rewind | lab6/libs/printfmt.c:280-281 | the backward walk ends right behind the % of the directive |
| Printfmt.PrintLiterals | lab6/libs/printfmt.c:133-138 | prints up to the next % or the end; what is left to render is unchanged |
| Printfmt.PrintDirective | lab6/libs/printfmt.c:140-283 | one directive: output plus what is still to be rendered equals what was to be rendered before, also when the directive is unrecognised and rewound |
| Printfmt.PrintConversion | lab6/libs/printfmt.c:192-275 | prints the specified text of a recognised conversion |
| Printfmt.PrintNumber | lab6/libs/printfmt.c:234-270 | %d %u %o %p %x with the argument read at the width that the l flags select |
| Printfmt.PrintSigned | lab6/libs/printfmt.c:235-242 | a sign is printed before the padding |
| Printfmt.PrintError | lab6/libs/printfmt.c:197-209 | the name of a known error of either sign, else its number; the nested calls terminate |
| Printfmt.VPrintFmt | lab6/libs/printfmt.c:125-285 | terminates on every format and appends exactly the rendered format to the sink |
| Printfmt.VSNPrintF | lab6/libs/printfmt.c:337-348 | returns the full length; the buffer holds the first min(length, size-1) characters and a terminator, and is unchanged behind it; -E_INVAL for a null buffer or size 0 |
| Strtol.StrToL | lab6/libs/string.c:203-259 | for every base: value and end pointer of the reading of the string: blanks, sign, prefix, the longest run of digits, value modulo 2^64 as a signed number |
| Strtol.ReadPrefix | lab6/libs/string.c:221-230 | the base and the position behind the prefix |
| Strtol.ReadDigits | lab6/libs/string.c:232-253 | stops at the first character that is no digit of the base; the accumulator, wrapping at each step, is the wrapped value of the run |
| Strtol.ReadsText | lab6/libs/string.c:203-259 | blanks, a sign, a prefix that selects a base, and digits of this base are read as the signed value of the digits modulo 2^64, up to the first character that is no digit of it; prefix 0x for base 16 or an open base, 0 for base 8 and none for base 10 with an open base, none else |
| Strtol.WrapLongShifts | lab6/libs/string.c:253 | what is read differs from the exact value by a multiple of 2^64 |
| Strtol.ReadsBack | lab6/libs/string.c:203-259 | blanks, a sign, zeros and a numeral in any base of the printer are read completely and give its value, modulo 2^64 |
| Strtol.ReadsBackOctal | lab6/libs/string.c:225-227 | behind a leading 0, with an open base, an octal numeral is read as such |
| Strtol.ReadsBackDecimal | lab6/libs/string.c:228-230 | with an open base a decimal numeral is read as such |
| Strtol.ReadsBackCapitals | lab6/libs/string.c:242-244 | numerals with capital letters are read as well |
| Strtol.ReadsBackPrefixed | lab6/libs/string.c:221-224 | the same behind 0x in base 0 and 16 |
| Strtol.UpperCasePrefixUnread | lab6/libs/string.c:198-224 | behind 0X only the 0 is read, against the comment |
| Directives.DirectiveUnderstood | lab6/libs/printfmt.c:140-191 | at any place in any format, a directive written from a fill flag (none, 0 or -), #, width, precision (none, or any number with 0), l flags and conversion ends where its text ends and is converted with the flags asked for, save that a precision 0 becomes the padding 0 |
| Directives.UnderstoodIff | lab6/libs/printfmt.c:150-176 | the flags taken from a directive are those asked for if and only if its precision is not a written 0 |
| Directives.SoleDirective | lab6/libs/printfmt.c:125-285 | a format that is one directive renders as the text of its conversion |
| Directives.PrecisionZeroPrintsAll | lab6/libs/printfmt.c:154-176 | %.0s prints the whole string |
| Directives.PrecisionBoundsIff | lab6/libs/printfmt.c:211-232 | %.ps prints at most p characters of the string if and only if p is not 0 or the string is empty |
| Directives.StarWidth | lab6/libs/printfmt.c:169-185 | with a star for the width, the int argument, of either sign, is the width and the conversion takes the next argument |
| Directives.StarPrecision | lab6/libs/printfmt.c:169-185 | behind a dot a star is the precision, whatever the int, 0 included |
| Directives.CharPrinted | lab6/libs/printfmt.c:193-195 | %c prints the byte that the argument holds |
| Directives.PercentPrinted | lab6/libs/printfmt.c:273-275 | %% prints a percent sign |
| Directives.UnknownEchoed | lab6/libs/printfmt.c:277-282 | an unknown conversion character is printed with its percent sign |
| Directives.StringDirective | lab6/libs/printfmt.c:211-232 | %s with any flags: the field is as wide as the width or the admitted characters; these stand at its left end under -, else at its right end, as they are or as ? under #, and the rest is filled |
| Directives.StarString | lab6/libs/printfmt.c:211-232 | the same with a star for the precision: an int that is not negative bounds the characters, 0 included, and a negative one does not |
| Directives.ErrorTextsDiffer | lab6/libs/printfmt.c:11-15 | %e of two errors is the same text if and only if they are the same up to the sign |
| Directives.ErrorsPrinted | lab6/libs/printfmt.c:17-28 | the text of E_NO_MEM of either sign, and of an error without a name |
| Directives.FormatMeans | lab6/libs/printfmt.c:125-285 | a format made of texts and directives prints the texts and the conversions of the arguments, one by one and in order |
| RoundTrip.PaddedReadsBack | lab6/libs/printfmt.c:39-54 | unsigned numbers padded with 0 or spaces are read back, modulo 2^64 |
| RoundTrip.SignedReadsBackIff | lab6/libs/printfmt.c:235-270 | for every number of 64 bits, width and padding character: printed and read back exactly if the condition Readable on sign, width and padding holds |
| RoundTrip.SignedDirectiveReadsBackIff | lab6/libs/printfmt.c:86-97 | %d with any number of l flags, any fill flag and width, of every number of the type that the l flags select, given in two's complement: read back in base 10 with the end at the terminator if and only if not padded at all, zero padded, non-negative and padded with spaces, or 0 with one dash |
| RoundTrip.UnsignedDirectiveReadsBackIff | lab6/libs/printfmt.c:68-79 | %u %o %x with any number of l flags, any fill flag and width, of every number of the type: the same 64 bits are read back in bases 10, 8 and 16 if and only if there is no dash, or 0 or 2^63 has one dash |
| RoundTrip.PointerReadsBackIff | lab6/libs/printfmt.c:257-262 | %p with any fill flag and width reads back in base 0 and 16 if and only if zero padded or not padded at all |
| RoundTrip.DashHarmlessIff | lab6/libs/printfmt.c:148-151 | %-wld prints what %ld prints if and only if the width is at most the number of digits |
| RoundTrip.DashedNumberNegated | lab6/libs/printfmt.c:148-151 | %-3ld of 42 prints -42, which is read as -42 |
| RoundTrip.PaddedNegativeUnread | lab6/libs/printfmt.c:235-242 | %5ld of -7 gives a sign, four spaces and 7, which is read as 0 up to the sign |
| RoundTrip.PaddedPointerUnread | lab6/libs/printfmt.c:257-262 | %5p of 7 is read as 0 up to the prefix |
| RoundTrip.PrintThenRead | lab6/libs/printfmt.c:337-348 | the code itself: what vsnprintf prints into a buffer that is large enough, and strtol reads from there in any base, is the reading of the rendered format |
| RoundTrip.PrintThenReadSigned | lab6/libs/printfmt.c:234-270 | %d with any l flags, printed and read back by the code, gives the number and the end at the terminator if and only if the condition of SignedDirectiveReadsBackIff holds |
| RoundTrip.PrintThenReadUnsigned | lab6/libs/printfmt.c:245-270 | the same for %u, %o and %x under the condition of UnsignedDirectiveReadsBackIff |
| RoundTrip.PrintThenReadPointer | lab6/libs/printfmt.c:257-262 | the same for %p under the condition of PointerReadsBackIff |
| Paging.PhysMem.AllocPage | lab5/kern/mm/pmm.c:49-70 | a frame not in use, other frames unchanged |
| Paging.PageDir.GetPte | lab5/kern/mm/pmm.c:214-236 | without create: null exactly if the block has no table, and then no page of the block is mapped; else the entry of the page |
| Paging.PageDir.PageInsert | lab5/kern/mm/pmm.c:423-439 | the page is mapped to the frame with the permissions, all other pages as before |
| CowRange.NextBlock | lab5/README.md:1129-1131 | the jump to the next block boundary moves forward and passes only pages of the block without table |
| CowRange.CowCopyRange | lab5/README.md:1095-1141 | every valid page of the range is visited exactly once and no other; afterwards parent and child map the same frames there without write permission, and everything else is as before |
| CowRange.CopyRange | lab5/README.md:214-252 | visits the same pages; the child maps a new frame of its own for each, with equal contents and the user permissions; existing frames are unchanged |
| CowRange.CowPgFault | lab5/README.md:1144-1204 | the page is mapped writable to a new frame with the old contents; nothing else changes |
| Mm.MmStruct.InsertVma | lab5/kern/mm/vmm.c:113-141 | the list of regions stays sorted and disjoint and grows by the region |
| Mm.CowCopyMmap | lab5/README.md:1075-1092 | the child has the same regions; all pages in regions are shared without write permission |
| Mm.DupMmap | lab5/kern/mm/vmm.c:190-211 | the child has the same regions and its own copy of every page in them |
| CowMachine.FaultInvisible | lab5/README.md:1179-1204 | a store fault changes nothing that a process can observe and keeps the invariant |
| CowMachine.FaultConfinedIff | lab5/README.md:1155-1199 | after a fault write bits are still confined to writable regions if and only if the page is in a writable region |
| CowMachine.CowForkSimulates | lab5/README.md:1075-1141 | copy-on-write fork looks like copying the whole space |
| CowMachine.EagerForkSimulates | lab5/README.md:214-252 | so does eager fork |
| CowMachine.CowSimulates | lab5/README.md:1075-1204 | every step of the copy-on-write system keeps its invariant and is a step of the system with private memories |
| CowMachine.EagerSimulates | lab5/README.md:214-252 | the same for the eager system |
| CowMachine.CowRunSound | lab5/README.md:1075-1204 | every run of the copy-on-write system is one of the system with private memories |
| CowMachine.CowRunComplete | lab5/README.md:1075-1204 | and the other way round: none of its runs is lost |
| CowMachine.EagerRunSound | lab5/README.md:214-252 | every run of the eager system is one of the system with private memories |
| CowMachine.EagerRunComplete | lab5/README.md:214-252 | and the other way round |
| CowMachine.CowExclusivity | lab5/README.md:1104-1204 | in every reachable state a frame mapped with write permission is mapped by one entry only, over all address spaces |
| CowMachine.EagerNeverFaults | lab5/README.md:214-252 | in every reachable state of the eager system legal stores do not fault |
| CowMachine.SameRuns | lab5/README.md:1075-1204 | a sequence of exec, map, fork, load, store and exit events, loads with the bytes they read, is possible under copy-on-write exactly if it is possible under eager copying |
| CowMachine.SpecRunDeterministic | lab5/README.md:1075-1204 | the same events lead to the same private memories |
| CowTrace.Memory.constructor | lab5/kern/mm/pmm.c:49-70 | no frame in use, no address space, and the empty run |
| CowTrace.Memory.Exec | lab5/kern/mm/vmm.c:113-141 | a new descriptor with the regions, inserted one by one, extends the run by one exec |
| CowTrace.Memory.MapPage | lab5/kern/mm/pmm.c:451-478 | a new frame filled and mapped in a region extends the run by one map |
| CowTrace.Memory.Fork | lab5/kern/process/proc.c:317-360 | cow_copy_mmap or dup_mmap into a new descriptor extends the run by one fork, whatever other address spaces there are |
| CowTrace.Memory.Load | lab5/kern/mm/pmm.c:214-236 | the byte found through the page directory is the one that the history of the process last stored there, and extends the run by a load of it |
| CowTrace.Memory.Store | lab5/kern/mm/vmm.c:432-437 | the write through the page directory, behind the fault handler if the write bit is missing, extends the run by one store; with eager fork the handler never runs |
| CowTrace.Memory.MakeWritable | lab5/README.md:1144-1204 | without the write bit the handler runs and makes one fault step, with it nothing changes; all other address spaces are as before |
| CowTrace.Memory.Exit | lab5/kern/process/proc.c:474-500 | giving up the address space, and any frames that nobody else maps, extends the run by one exit; all other address spaces are as before |
| CowTrace.EitherFork | lab5/README.md:1075-1204 | whatever the code has done to memory is a run of the system with the other kind of fork, with the same bytes loaded |
| CowTrace.SameHistorySameMemory | lab5/README.md:1075-1204 | in any two memories with the same history, whatever their kinds of fork and their frames, all processes have the same regions and see the same pages with the same contents |
| CowTrace.WritersAlone | lab5/README.md:1104-1204 | no frame that a page directory maps with the write bit is mapped a second time in any page directory |
| CowTrace.MemoryIsTold | lab5/README.md:1075-1204 | at any time and with either kind of fork, frames and page directories hold at each address of each process the byte last stored there by it or by the process it was forked from, else what was mapped |
| CowHistory.StoreChangesOneByte | lab5/README.md:1179-1204 | a store changes the byte at its address, no other byte and no other process |
| CowHistory.RunsTell | lab5/README.md:1075-1204 | in every run the private memories are what the history of events says byte by byte |
| CowHistory.CowLoadsLastStored | lab5/README.md:1075-1204 | with copy-on-write fork a load returns the byte last stored at its address by the process or its ancestors before the fork, else what was mapped |
| CowHistory.EagerLoadsLastStored | lab5/README.md:214-252 | so it does with eager fork |
| CowFaults.WildKeeps | lab5/kern/mm/vmm.c:432-437 | a fault on any mapped page without write permission, and any other step, keeps frames with write permission unshared |
| CowFaults.WildExclusivity | lab5/kern/mm/vmm.c:432-437 | in every state that can be reached with stores and faults in whatever region, a frame mapped with write permission is mapped by one entry only |
| CowFaults.RunsAreWild | lab5/README.md:1075-1204 | the runs of the copy-on-write system are among these |
| CowFaults.ReadOnlyPageBecomesWritable | lab5/README.md:1155-1199 | a reachable state with a page in a read-only region, which the handler makes writable |
| Loader.PgdirAllocPage | lab5/kern/mm/pmm.c:451-478 | a new frame is mapped at the page |
| Loader.CopyFileBytes | lab5/README.md:99-112 | the first loop loads all bytes of the file part and maps each page of it once |
| Loader.ClearPartialPage | lab5/README.md:114-128 | the rest of the last page is cleared as far as the segment goes; the assertion of the code holds |
| Loader.ClearPages | lab5/README.md:129-139 | the second loop loads zeros up to the end of the segment |
| Loader.LoadSegment | lab5/README.md:93-139 | every byte of the segment is its file byte or zero behind the file part; each page of the rounded range gets exactly one frame of its own and the segment's permissions; pages mapped and frames in use before are unchanged |
| Loader.MmMap | lab5/kern/mm/vmm.c:159-188 | -E_INVAL outside of user memory or if the region begins inside of another one, a stop of the kernel on any other overlap, else the region is added |
| Loader.MapPanicsIff | lab5/kern/mm/vmm.c:92-98 | mm_map stops the kernel if and only if the region is in user memory, begins in none that is there, and one that is there begins inside of it |
| Loader.OverlapFromBelowPanics | lab5/kern/mm/vmm.c:92-98 | two pages mapped in front of a region that begins with the second one stop the kernel |
| Loader.RoomInNewRegion | lab5/README.md:90-95 | after mm_map has accepted a segment its pages are unmapped and below the user top |
| Loader.LoadSegments | lab5/README.md:67-140 | the loop over the program headers: on success all bytes of all loadable segments are in memory, the mapped pages are exactly those of the segments, with their permissions and frames of their own, and the regions are theirs; frames in use before are never touched |
| Loader.LoadsIff | lab5/README.md:67-92 | loading succeeds if and only if every loadable segment lies in user memory, is not shorter in memory than in the file, and shares no page with another |
| LoaderLaws.BytesOfSegment | lab5/README.md:99-140 | byte i of the file part of a loaded segment is byte offset + i of the file, and the bytes behind the file part are zero |
| LoaderLaws.PagesTouched | lab5/README.md:93-139 | the pages of a segment are exactly those that its addresses touch |
| LoaderLaws.RegionTouched | lab5/README.md:90-92 | so is the region of a segment that is not empty, with its right to write |
| LoaderLaws.RightsOfSegment | lab5/README.md:81-89 | every page of a segment is valid and for the user; it can be written and executed if and only if the segment can, and read if and only if the segment can be read or written |
| LoaderLaws.WriteBitIffRegion | lab5/README.md:81-92 | a page of a loaded program has the write bit if and only if it lies in a writable region |
| LoaderLaws.AcceptableIff | lab5/README.md:72-92 | a header is accepted by itself if and only if the file part is not longer than the segment and the segment lies in user memory, an empty one not at a page boundary |
| LoaderLaws.FirstFailure | lab5/README.md:67-92 | when loading fails, the headers before some header are loaded and this one decides: -E_INVAL_ELF for a file part that is too long, -E_INVAL for a region that is refused, else the kernel stops on an overlap |
| PidAlloc.PidAllocator.GetPid | lab5/kern/process/proc.c:168-200 | terminates, and gives the first unused number behind the last one given, in cyclic order; no number between last_pid and next_safe is in use |
| PidAlloc.PidAllocator.Search | lab5/kern/process/proc.c:178-198 | the scan that starts over ends, since the list is too short to use all numbers |
| PidAlloc.NotAllUsed | lab5/kern/process/proc.c:170 | with fewer processes than numbers one number is unused |
| PidAlloc.CyclicOrder | lab5/kern/process/proc.c:168-200 | the number behind the last one comes next, and behind 8191 comes 1, or the first unused one after it |
| PidAlloc.NextFreeUnique | lab5/kern/process/proc.c:168-200 | the description of the answer of get_pid fits one number only |
| PidAlloc.EveryFreeNumberHasItsTurn | lab5/kern/process/proc.c:168-200 | over any sequence of calls: before a number is given out again, every number that has been free all the time since is given out |
| ProcSpec.BootedInv | lab5/kern/process/proc.c:887-918 | the invariant of the family holds after booting |
| ProcSpec.ForkKeepsInv | lab5/README.md:536-604 | fork keeps the family forest, the numbers, the states and that no wakeup is lost |
| ProcSpec.ExitWakes | lab5/README.md:783-808 | who still sleeps after an exit is not the parent of the new zombie, and init has got no zombie |
| ProcSpec.ExitKeepsInv | lab5/README.md:753-819 | exit keeps the invariant, with the children handed to init |
| ProcSpec.WaitKeepsInv | lab5/README.md:686-740 | each outcome of a pass of do_wait keeps the invariant |
| ProcSpec.KillKeepsInv | lab5/kern/process/proc.c:791-806 | kill keeps the invariant |
| ProcEffects.BootedEffects | lab5/kern/process/proc.c:887-918 | idle with number 0 and its child init with number 1, both able to run |
| ProcEffects.ForkEffects | lab5/README.md:536-604 | the child can run and is the youngest child of the caller; all else is as it was |
| ProcEffects.ExitEffects | lab5/README.md:753-819 | the caller is a zombie with its code and without children, its children are init's, who sleeps for a child and has got a zombie wakes up, and nobody else changes |
| ProcEffects.AdoptedChildren | lab5/README.md:793-802 | init's list is preceded by the children, in reverse order |
| ProcEffects.WaitEffects | lab5/README.md:686-740 | the child that is reaped leaves table and list, or the caller sleeps for its target, or nothing changes |
| ProcEffects.KillEffects | lab5/kern/process/proc.c:791-806 | the target is flagged, and wakes up if it sleeps and was not flagged before |
| ProcEffects.KilledSleeperResumes | lab5/README.md:717-721 | a process killed in its sleep can go on behind schedule |
| ProcEffects.FlaggedExits | lab5/README.md:717-721 | and then exits with -E_KILLED on record, whatever it waited for |
| ProcLinks.WakeupProc | lab5/kern/schedule/sched.c:7-22 | runnable, and the wait state is cleared unless it was runnable before |
| ProcLinks.LinkFront | lab5/kern/process/proc.c:143-147 | the process is threaded in front of its siblings |
| ProcLinks.Unlink | lab5/kern/process/proc.c:155-162 | the siblings are threaded without the process, wherever it was |
| ProcLinks.MoveFirst | lab5/README.md:793-802 | one round of the loop: the first child leaves the list and is threaded in front of init's children; the stale back pointer of the next child is the only defect |
| ProcLinks.AdoptionLoop | lab5/README.md:792-809 | the loop ends with no child left, init's list preceded by the children in reverse order, parents redirected, and init awake if it waited and got a zombie; other lists are untouched |
| Proc.Kernel.constructor | lab5/kern/process/proc.c:887-918 | idle, and init as its child with number 1, in consistent tables with the invariant |
| Proc.Kernel.SetLinks | lab5/kern/process/proc.c:139-149 | all child lists stay threaded, the process being the youngest child of its parent |
| Proc.Kernel.RemoveLinks | lab5/kern/process/proc.c:151-164 | all child lists stay threaded, the process gone |
| Proc.Kernel.GiveChildrenToInit | lab5/README.md:792-809 | after the loop every optr and yptr are inverse again and each process is in exactly the child list of its parent |
| Proc.Kernel.DoExit | lab5/README.md:753-812 | the whole table becomes what Exit specifies; table, hash and process list stay consistent and the invariant holds |
| Proc.Kernel.FindProc | lab5/kern/process/proc.c:252-264 | finds the process with the number, if there is one |
| Proc.Kernel.DoKill | lab5/kern/process/proc.c:791-806 | the three answers with their conditions; the target is flagged and woken if it waits, nothing else changes |
| Proc.Kernel.FindAny | lab5/README.md:703-711 | walking the sibling list finds a zombie if there is one and tells whether there are children |
| Proc.Kernel.FindOne | lab5/README.md:692-701 | finds the child with the number through the hash table |
| Proc.Kernel.FindZombie | lab5/README.md:689-711 | a matching zombie child, else whether any child matches |
| Proc.Kernel.Reap | lab5/README.md:731-735 | the child leaves hash table, process list and sibling list, which stay consistent |
| Proc.Kernel.WaitOnce | lab5/README.md:687-740 | one pass: the answer is the specified one, -E_BAD_PROC exactly if no child matches, and the table becomes what the answer calls for; the panic is unreachable |
| Proc.AnswerInforms | lab5/README.md:686-740 | do_wait returns 0 if and only if a matching child is a zombie, and then stores this child's exit code if it is asked for; it returns -E_BAD_PROC if and only if no child matches, and sleeps else |
| Proc.Kernel.DoWait | lab5/README.md:674-740 | the call does this: 0 with the exit code of the child that is gone stored, -E_BAD_PROC, sleep, or -E_INVAL for an invalid address |
| Proc.Kernel.ResumeWait | lab5/README.md:717-721 | behind schedule: exit with -E_KILLED if killed meanwhile, for init the panic of do_exit, else another pass for the same target |
| Proc.Kernel.DoFork | lab5/README.md:536-604 | at the limit -E_NO_FREE_PROC and no change; else a new runnable youngest child with an unused number, which is returned |
| ProcRuns.StepKeeps | lab5/README.md:536-819 | every step of the process system keeps the invariant of family and ledger |
| ProcRuns.RunKeeps | lab5/README.md:536-819 | so does every run |
| ProcRuns.NoWakeupIsLost | lab5/README.md:713-721 | in every reachable state a process asleep in do_wait has a child that matches its target, and no matching zombie |
| ProcRuns.StepsAddToLedger | lab5/README.md:674-740 | exit codes on record never change; a delivery takes a zombie's code to its current parent, and the child is gone |
| ProcRuns.DeliveredOnce | lab5/README.md:724-739 | in every run each process is reaped at most once, with the exit code that its do_exit recorded |
| ProcRuns.Conservation | lab5/README.md:536-819 | in every reachable state processes created = living + zombies + reaped |
| ProcRuns.ParentsLive | lab5/README.md:753-809 | in every reachable state the parent of a process is in the table and no zombie |
| ProcRuns.InitIsLast | lab5/kern/process/proc.c:871-878 | when do_wait(0) tells init that there is no child, only idle and init are left, without siblings or children, and all other processes created have been reaped |
| ProcRuns.SomeDescendantRuns | lab5/README.md:713-721 | in every reachable state a process asleep in do_wait has a descendant that can run: waiting never deadlocks |
| ProcTrace.Machine.constructor | lab5/kern/process/proc.c:887-918 | after booting the run is empty and idle runs |
| ProcTrace.Machine.Switch | lab5/kern/process/proc.c:204-229 | whatever the scheduler, any runnable process may go on; table and run are as before |
| ProcTrace.Machine.Schedule | lab5/kern/schedule/sched.c:24-51 | the next process behind the current one in the process list that can run goes on, the current one last, idle if there is none; table and run are as before |
| ProcTrace.FirstRunnable | lab5/kern/schedule/sched.c:34-44 | the loop over the links of the list, head included, ends at the first runnable process, or has seen that there is none |
| ProcTrace.Machine.Fork | lab5/README.md:536-604 | a call of do_fork extends the run by one fork, or changes nothing at the limit; the caller still runs |
| ProcTrace.Machine.Exit | lab5/README.md:753-819 | a call of do_exit extends the run by one exit and puts the code on record |
| ProcTrace.Machine.Wait | lab5/README.md:674-740 | a call of do_wait extends the run by one pass; if it returns 0, the code stored is the one on record for the child, which is gone; the caller still runs if the call returns |
| ProcTrace.Machine.Resume | lab5/README.md:717-721 | so does going on behind schedule |
| ProcTrace.Machine.Kill | lab5/kern/process/proc.c:791-806 | a call of do_kill that flags a process extends the run by it; whoever runs still runs |
| ProcTrace.Reachable | lab5/kern/process/proc.c:384-806 | whatever the entry points of the kernel have done, its table satisfies the invariant of all runs |
| ProcTrace.ProcessesCounted | lab5/kern/process/proc.c:139-164 | nr_process is the number of living processes and zombies, and with the reaped ones the number of processes created |
| ProcTrace.SleepersWait | lab5/README.md:689-721 | each record asleep in do_wait has a matching child in its own list and no matching zombie there |
| ProcTrace.InitMainAssertions | lab5/kern/process/proc.c:871-878 | when init has no child, the assertions of init_main on cptr, yptr, optr, nr_process and the process list hold |
| RoundRobin.NextTurnUnique | lab5/kern/schedule/sched.c:34-44 | there is only one process whose turn it is |
| RoundRobin.LineSteps | lab5/kern/process/proc.c:139-164 | the process list is always the processes but idle in reverse order of creation: a new one comes in front, a reaped one leaves, no other step changes it |
| RoundRobin.TurnBringsCloser | lab5/kern/schedule/sched.c:34-44 | a turn of another process brings a process that can run closer to its own |
| RoundRobin.ActKeepsWaiting | lab5/kern/schedule/sched.c:24-51 | no step of the process that runs, creation of processes included, makes another process wait longer |
| RoundRobin.OthersKeepRunning | lab5/README.md:536-819 | no step of a process makes another one that can run unable to |
| RoundRobin.NoStarvation | lab5/kern/schedule/sched.c:24-51 | in every execution without end in which schedule is called again and again, a process that can run gets its turn, even if others create processes at each turn |
| RoundRobin.ExecutionExists | lab5/kern/process/proc.c:887-918 | there are such executions from booting on: init gets its turn from idle and goes on |

## Left out

- Failure to allocate memory in fork, the loader and the fault handler, and the cleanup on those paths: allocation succeeds in the model.
- CowTrace.Memory.Exit: which frames are freed is a parameter, any set that nobody else maps; in the source reference counts find the largest such set.
- Reference counts of frames, freeing of frames, swapping: a frame is free if nobody maps it; on exit any unused frames may be freed.
- The TLB, control registers, traps, kernel stacks, context switches, locks and interrupt masking.
- The scheduler classes of `lab6`, whose bodies are not in the repository: only the comparison callback of the stride scheduler is modelled. The runs of `ProcRuns.dfy` let any runnable process go on; `RoundRobin.dfy` adds the order of `lab5`. The counter `runs` and the flag `need_resched` are left out.
- Sharing of an address space (CLONE_VM), execve and the user stack of `load_icode`. `lab5/kern/process/proc.c` calls the eager copy and has the copy-on-write call commented out; both are modelled.
- ProcRuns.Conservation: in the runs idle only gives up the processor, as `cpu_idle` does, so it forks nobody after booting; the limit MAX_PROCESS is not imposed on them, which only adds runs.
- Load faults and faults outside of mapped pages: only store faults on mapped pages without write permission reach the handler in the model.
- The hash chains of `find_proc` and the links of the process list: a map and a sequence. The list of regions is a sequence.
- Loader.LoadSegments: on an error only the error is stated, not the state of the partly filled space, which the code throws away; reading the file header before the loop is left out.
- Proc.Kernel.DoWait: the call ends at the call of `schedule`; ResumeWait goes on from there, with the address for the exit code that the process has kept on its stack. Checking this address in user memory is a parameter.
- Loader.MmMap: the sum of address and length is exact; segments whose end wraps around the machine word are not modelled.
- Printfmt.PrintError: `%e` of the smallest int, whose negation overflows, is modelled as the exact absolute value.
- Printfmt.ReadNumber: widths, precisions and the character count are unbounded integers, whereas `int` overflows.
- Printfmt.PrintConversion: `%c` prints the argument as a byte. Arguments are given as a total sequence of slots, each usable as a word or as a string, since C does not check their types.
- Printfmt.VPrintFmt: the only sink is the bounded buffer, whose log is the sequence of characters put; the console is left out.
- Strtol.StrToL: signed overflow, undefined in C, is taken to wrap around; a null `endptr` makes no difference.
- Hash.HashUniform: 0 bits, for which the shift is undefined in C.
- The other routines of `string.c`, `list.h`, `readline.c` and the user programs: textbook routines, console input and fixed examples.
