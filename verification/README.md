# A verified model of jmscott's `work` library and tools

This project models, in Dafny, the core of jmscott's `work` repository:
a C library (`libjmscott`), a handful of small C and Go command line
tools built on it, and two Go packages for long running servers.

**The hierarchical allocator, `jmscott_halloc`.** This is the main part
of the model.
- Every block has a header with a parent, a head/tail list of children,
  doubly linked siblings and a FIFO list of free-time callbacks.
- `jmscott_halloc_free` first fires the callbacks of the whole subtree,
  deepest first. Then it unlinks the block and releases the subtree,
  children before parents.
- `jmscott_halloc_adopt` moves a block under a new parent.
- `jmscott_halloc_resize` reallocates a block and repairs every link
  that named its old address.

How the allocator is modelled:
- `HAlloc.Arena` is a class. Its header map stands for the memory, and
  its methods perform the C assignments in the C order.
- `HAllocSteps` writes the same assignments as functions.
- `HAllocEdit` holds the tree edits those assignments add up to. Each
  edit is proved to keep the tree well formed.
- `HAllocTree` defines the two depth-first walks of free and proves
  what they visit and in which order.
- `malloc` and `realloc` are parameters: the address returned, or the
  failure. Callbacks are opaque ids recorded in a trace.

**Validators, encoders and formatters.**
- `Utf8`: the byte-at-a-time UTF-8 checker `is-utf8wf`.
- `CString`: bounded concatenation (`jmscott_strcat`, `strcat2`..`7`),
  `ulltoa`/`lltoa` and the strict decimal parsers `a2ui63`/`a2size_t`.
- `Json`: JSON string escaping in the library and in the
  `escape-json-string` filter.
- `Udig`: the udig syntax check, in its current and older forms.
- `Hexdump`: the 77-column hexdump and the program's positional checksum.
- `Net`: the IPv4 dotted-quad renderer with its four rotating buffers.
- `English`: the English duration and byte-size formatters.
- `Tzo`: the time zone part of rolled file names.

**Parsers and state machines.**
- `IDiff`: idiff's `diff` hunk header parser and its line count.
- `Flatx`: flatx's `--order` parser, row layout, growable element stack
  and char-extraction states.
- `Ecpg`: the SQLSTATE-to-exit-status table of the ecpg fault handler.
- `Logroll` and `Logger`: the Go option/undo closures and the `Open`
  checks.
- `Dedup`: the order-preserving line filter.

Shared vocabulary lives in `Common`:
- C strings are `seq<char>` without a NUL.
- A char's ordinal is the byte the C code sees.
- The ctype classes are those of the "C" locale.
- Widths the code relies on are explicit: `int` wraps modulo 2^32, and
  the byte-size loop multiplies in 64-bit unsigned arithmetic.

Where the repository's comments and its code disagree, or a test reads
a field that is not kept up to date, the model follows the code:
- **Whether storage is freed before the callbacks run.** The comment at
  clib/halloc.c:205-207 says the children have already been freed when the
  callbacks run. In the code no storage is released until every callback
  of the subtree has fired. `HAlloc.Arena.Free` states this order.
- **What adopt treats as "already a child".** The test under the comment
  "Already a child of this parent?" (clib/halloc.c:77-81) reads the node's
  recorded `parent` field, which adopt never updates (see Findings).
  `HAlloc.Arena.Adopt` models the test as written.

## Model

| member | source | states |
|---|---|---|
| HAlloc.Arena.Alloc | clib/halloc.c:133-167 | errno is cleared; a failed malloc returns null with ENOMEM and leaves the tree as it was; otherwise the fresh zeroed node records P as its parent, becomes P's last child, and the tree stays well formed (also clang/halloc.c:141-170) |
| HAlloc.Arena.LinkTail | clib/halloc.c:158-165 | the tail wiring leaves the headers of WireTail, which HAllocSteps.WireTailAppends shows to be "append as last child" |
| HAlloc.Arena.Strdup | clib/halloc.c:292-306 | a null source sets EINVAL and allocates nothing; a failed malloc sets ENOMEM and changes nothing; otherwise a new last child of P whose payload is the string and its NUL (also clang/halloc.c:295-308) |
| HAlloc.Arena.AddCallback | clib/halloc.c:262-290 | the node's callback list becomes the old list followed by (func, private_data); the tree stays well formed (also clang/halloc.c:266-292) |
| HAlloc.Arena.Adopt | clib/halloc.c:57-122 | a null p sets EINVAL; a node already recorded under P is left alone; otherwise p leaves its old list and becomes P's last child with its subtree intact, errno untouched, the header returned; the parent field is left stale (also clang/halloc.c:66-128) |
| HAlloc.Arena.AdoptRecording | clib/halloc.c:57-122 | the corrected adopt: the same outcomes, and afterwards p's parent field names the node whose list holds it |
| HAlloc.Arena.MoveUnder | clib/halloc.c:85-121 | the unlink and wire-in statements of adopt land exactly on the Adopted tree, which stays well formed |
| HAlloc.Arena.LeaveParent | clib/halloc.c:85-105 | adopt's unlink statements leave the headers of AdoptUnlink, which HAllocSteps.UnlinkIsDetach shows to be "remove p from its owner's list" |
| HAlloc.Arena.FollowTail | clib/halloc.c:109-110 | the relink inside the unlink block leaves the headers of AdoptRelink, shown to have no effect by HAllocSteps.AdoptRelinkRedundant |
| HAlloc.Arena.Resize | clib/halloc.c:312-364 | a null p sets EINVAL; a failed realloc sets ENOMEM and changes nothing; a block resized in place changes only its payload; a moved block takes the old one's place among its siblings, its children record the new address, and the tree stays well formed (also clang/halloc.c:315-357) |
| HAlloc.Arena.ReparentChildren | clib/halloc.c:347-348 | every child of the moved block records the new address as its parent |
| HAlloc.Arena.RelinkMoved | clib/halloc.c:355-362 | the moved block's neighbours, or its parent's head and tail, are pointed at the new address (Relink) |
| HAlloc.Arena.FireFreeCallbacks | clib/halloc.c:212-228 | the callbacks fired are the children's subtrees head to tail, each deepest first, then the node's own callbacks in registration order (also clang/halloc.c:216-231) |
| HAlloc.Arena.FireOwn | clib/halloc.c:226-227 | a node's own callbacks fire in list order, each on its payload |
| HAlloc.Arena.FreeTree | clib/halloc.c:172-202 | _free releases exactly the subtree, children head to tail before the parent, each node's callback records before the node (also clang/halloc.c:176-205) |
| HAlloc.Arena.FreeKids | clib/halloc.c:181-186 | the child loop releases exactly the children's subtrees, in list order |
| HAlloc.Arena.ReleaseOwn | clib/halloc.c:190-201 | a node's callback records are released in list order, then the node, and nothing else is removed |
| HAlloc.Arena.Free | clib/halloc.c:230-260 | every callback of the subtree fires before anything is released, then the subtree is released; the headers are the unlink followed by the removal of the subtree; when the recorded parent holds p the result is the well-formed FreeShape (also clang/halloc.c:234-263) |
| HAlloc.Arena.Unlink | clib/halloc.c:242-254 | free's unlink statements leave the headers of FreeUnlink |
| HAllocTree.TraceEvents | clib/halloc.c:212-228 | each node of the subtree appears in a walk with exactly its own callbacks, each once, in registration order; nodes outside the subtree never appear |
| HAllocTree.DescendantsFirst | clib/halloc.c:218-227 | in a walk, every event of a proper descendant of y comes before y's own events |
| HAllocTree.TraceSegment | clib/halloc.c:221-222 | the walk of any node of a subtree is one contiguous block of the walk of the whole subtree |
| HAllocTree.SubBelow | clib/halloc.c:40-49 | a subtree lies in the arena, and ranks drop strictly below its root, so the recursive walks terminate |
| HAllocEdit.InsertWF | clib/halloc.c:143-157 | a zeroed header added as a root keeps the tree well formed and has a subtree of itself alone |
| HAllocEdit.AppendWF | clib/halloc.c:158-165 | making a root the last child of a node outside its subtree keeps the tree well formed and carries the whole subtree, with its walks, unchanged |
| HAllocEdit.DetachWF | clib/halloc.c:242-254 | taking a child out of its owner's list keeps the tree well formed and its subtree and walks unchanged |
| HAllocEdit.PruneWF | clib/halloc.c:172-202 | removing a root's whole subtree leaves a well-formed tree |
| HAllocEdit.FreeKeeps | clib/halloc.c:230-260 | after free exactly p's subtree is gone, and no surviving node changes except p's owner and its two former neighbours |
| HAllocEdit.FreeUnlinks | clib/halloc.c:242-254 | after free p is no longer in its owner's list and the other children keep their order |
| HAllocEdit.AdoptedWF | clib/halloc.c:80-121 | adopt keeps the tree well formed and moves p's subtree and its walks unchanged |
| HAllocEdit.AdoptAppends | clib/halloc.c:115-121 | after adopt p is P's last child behind P's earlier children in their old order |
| HAllocEdit.AdoptLeavesParent | clib/halloc.c:80-121 | adopt leaves p's parent field as it was, so it names the node holding p exactly when that was already P |
| HAllocEdit.AdoptedRecordedWF | clib/halloc.c:115-121 | the corrected adopt keeps the tree well formed with p's subtree and walks unchanged, and p's parent field names P, the node holding it |
| HAllocEdit.SetPayloadWF | clib/halloc.c:335-343 | a block resized in place keeps the tree well formed |
| HAllocEdit.RenameWF | clib/halloc.c:345-362 | a block moved by realloc keeps the tree well formed |
| HAllocEdit.RenameInOwner | clib/halloc.c:355-362 | the moved block stands where the old one stood in its owner's list |
| HAllocSteps.UnlinkIsDetach | clib/halloc.c:85-105 | when the recorded parent is the owner, the unlink statements of both free and adopt remove p from its owner's list and nothing else |
| HAllocSteps.UnlinkKeepsSub | clib/halloc.c:242-254 | unlinking p leaves every header of its subtree as it was, whatever its recorded parent |
| HAllocSteps.StaleFreeDangles | clib/halloc.c:249-254 | a free through a recorded parent that does not hold p leaves the owner's head or tail naming the released node |
| HAllocSteps.AdoptThenFreeDangles | clib/halloc.c:57-122 | after an adopt that moved p, a free of p leaves P's child_tail naming the released node |
| HAllocSteps.RecordedAdoptThenFree | clib/halloc.c:57-122 | after the corrected adopt, a free of p yields the well-formed FreeShape, and P names p neither as its head nor as its tail |
| HAllocSteps.WireTailAppends | clib/halloc.c:158-165 | the tail wiring on a root is the Append edit |
| HAllocSteps.AdoptRelinkRedundant | clib/halloc.c:109-110 | the relink inside adopt's unlink block has no effect once lines 115-120 have run |
| HAllocSteps.AdoptSteps | clib/halloc.c:85-121 | adopt's statements, in the C order, land on the Adopted headers |
| HAllocSteps.ResizeMoves | clib/halloc.c:345-362 | copying the header, reparenting the children and relinking the neighbours yields exactly the Rename edit |
| HAllocSteps.AllocatedShape | clib/halloc.c:143-166 | a fresh node has no children and no callbacks, holds the bytes malloc left, records P and, with a parent, is its last child behind the earlier ones in their order |
| HAllocSteps.AllocSteps | clib/halloc.c:149-164 | bzero, the parent assignment and the tail wiring build the Allocated headers |
| HAllocSteps.FreeIs | clib/halloc.c:242-259 | when the recorded parent is the owner, the unlink and the release of the subtree leave the FreeShape headers |
| HAllocSteps.RegisteredWF | clib/halloc.c:279-289 | adding a callback keeps the tree well formed |
| HAllocSteps.RegisteredFiresLast | clib/halloc.c:279-289 | a new callback fires after every callback the node already had and its record is released last before the node |
| CString.CopyCount | clib/string.c:51-52 | the copy loop takes at most the whole source, never lets the string pass tgtsize-1 bytes, and stops short of the source's end only when it reaches tgtsize-1 |
| CString.CatAtText | clib/string.c:41-57 | after jmscott_strcat the string is the old string followed by the first CopyCount bytes of src, NUL-terminated, and it stays within tgtsize-1 bytes when it started within tgtsize |
| CString.CatAtFrame | clib/string.c:44-56 | jmscott_strcat writes nothing before the target and nothing after the new terminating NUL |
| CString.StrCat | clib/string.c:41-57 | on the array the buffer becomes CatAt of the old buffer (a null src leaves it unchanged) and the returned pointer is the index of the new NUL |
| CString.ScanNul | clib/string.c:44-47 | the first loop stops at the first NUL after the target and has taken one from tgtsize for every byte it passed |
| CString.CopyBounded | clib/string.c:50-56 | the second loop copies CopyCount source bytes, writes the NUL after them and changes no other byte |
| CString.StrCatUnguarded | clang/strcat.c:20-34 | the void jmscott_strcat of clang/strcat.c and clang/string.c:28-42 leaves the same buffer as the clib version with a non-null source |
| CString.CatAll | clib/string.c:59-151 | the buffer after each source is appended in turn stays the same length and NUL-terminated |
| CString.StrCatN | clib/string.c:59-151 | jmscott_strcat2..7, each appending at the NUL the previous call returned with tgtsize reduced by the bytes already used, leave CatAll of the sources and return the final NUL's index |
| CString.CatAllText | clib/string.c:59-151 | with non-null sources the resulting C string is the old string followed by all sources, cut to tgtsize-1 bytes |
| CString.Ulltoa | clib/string.c:163-190 | jmscott_ulltoa writes exactly the canonical decimal digits of ull (no NUL) and returns the index after the last digit; nothing else changes |
| CString.CountDigits | clib/string.c:172-178 | the first do-while counts exactly the number of decimal digits of ull, one for zero |
| CString.Lltoa | clib/string.c:192-200 | jmscott_lltoa writes a '-' and the magnitude's digits for a negative value, the digits alone otherwise, and returns the index after them |
| CString.SignedDecimalRoundTrip | clib/string.c:192-200 | the signed text starts with '-' exactly for negative values and its digits read back as the magnitude |
| CString.ParseUi63 | clib/string.c:209-228 | a string is accepted only when it has 1 to 19 chars, all digits, and then its value is the digits' value |
| CString.A2ui63 | clib/string.c:209-228 | jmscott_a2ui63 returns an error exactly when ParseUi63 rejects, with ParseUi63's reason, and stores the value only on success and only when given a target |
| CString.ParseUi63Decimal | clib/string.c:209-228 | every canonical decimal below 10^19 is accepted with its own value |
| CString.ParseUi63Bound | clib/string.c:209-228 | accepted values are below 10^19, and an accepted string without a leading zero is the canonical decimal of its value |
| CString.ParseUi63Exceeds63Bits | clib/string.c:202-228 | "9999999999999999999" is accepted although the comment promises an unsigned 63-bit value: the value exceeds LLONG_MAX |
| CString.ParseSize | clib/string.c:230-243 | a2size_t accepts exactly what a2ui63 accepts with a value no larger than SIZE_MAX, with the same value |
| CString.A2SizeT | clib/string.c:230-243 | jmscott_a2size_t's error is a2ui63's, or the size_t range error, exactly when ParseSize rejects; the value is stored only on success with a target |
| CString.ParseSize64 | clib/string.c:230-243 | with a 64-bit size_t the range check never rejects |
| Utf8.IsUtf8wf | is-utf8wf.c:85-282 | the exit status of main over reads split into any non-empty chunks is Status of their concatenation: it depends on the byte stream only, not on how read split it |
| Utf8.ExitStatus | is-utf8wf.c:275-281 | with no arguments and clean reads the exit is 1 exactly for empty input, 0 exactly for non-empty well-formed UTF-8 (in the code's sense), 2 exactly for any other input |
| Utf8.ScanAccepts | is-utf8wf.c:108-273 | started between characters, the state machine ends between characters without refusing a byte exactly when the bytes are a sequence of characters of the UTF8-char rule of RFC 3629 section 4, widened to lead bytes F1-F7 with any tail |
| Utf8.CharLength | is-utf8wf.c:114-272 | from the initial state the machine either accepts one whole character of 1 to 4 bytes and returns to the initial state, or no prefix of the input is a character and the scan cannot end between characters |
| Utf8.OneCharOnly | is-utf8wf.c:121-146 | the lead byte fixes a character's length, so the text after one character is well formed exactly when the whole is |
| Utf8.RunNoneStays | is-utf8wf.c:156-270 | a refused byte ends the scan (the _exit with 2) whatever follows |
| Utf8.RunAppend | is-utf8wf.c:91-104 | the state and the partial code point carry across reads: scanning s then t is scanning s + t |
| Utf8.BeyondUnicodeAccepted | is-utf8wf.c:137-144 | F4 90 80 80 (U+110000) and F7 BF BF BF are accepted: the U+10FFFF cap of RFC 3629 section 3 is not applied, and the first exits 0 |
| Utf8.MaskRanges | is-utf8wf.c:114-146 | each mask test of a byte is the range test the model uses, and the complementary mask keeps the offset into that range |
| Utf8.OrIsPlus | is-utf8wf.c:150-262 | or-ing bits the code point does not have yet is the addition the model uses |
| Json.EscapeChar | clang/json.c:46-70 | a quote, a backslash or one of \b \f \n \r \t becomes a backslash and one letter; any other char is copied alone |
| Json.UnescapeEscaped | clang/json.c:41-71 | a JSON reader (section 7 of RFC 8259, the seven two-char escapes) reads the escaped text back as the source |
| Json.EscapedLength | clang/json.c:41-71 | every escaped char adds exactly one byte, the backslash |
| Json.QuotesEscaped | clang/json.c:47-49 | every quote in the escaped text follows a backslash, so the text cannot end the JSON string early |
| Json.Converted | clang/json.c:17-75 | never more bytes written than the buffer holds |
| Json.ConvertedSucceeds | clang/json.c:17-75 | the conversion returns no error exactly when the source is all ASCII and its quoted, escaped, NUL-terminated form fits tgt_size bytes, and it then writes exactly that form |
| Json.ConvertedErrors | clang/json.c:32-43 | "tgt size < 3" when the buffer is below 3; "non ascii char" when a non-ASCII char is reached before the buffer fills; "source string too large" when an all-ASCII source does not fit |
| Json.Put | clang/json.c:22-26 | _PUT refuses exactly when j has reached tgt_size, and otherwise writes the next byte of the stream at j |
| Json.PutBytes | clang/json.c:28-31 | _ESCAPE (and the closing _PUT pair): both bytes are written when they fit; otherwise the buffer holds exactly the first tgt_size bytes of the stream |
| Json.PutEscapedSource | clang/json.c:40-71 | the loop over the source stops on a non-ASCII char or a full buffer with Converted's error and bytes; otherwise the whole source is all ASCII and its escape is written after the opening quote |
| Json.Ascii2JsonString | clang/json.c:17-75 | jmscott_ascii2json_string returns the error of Converted and leaves the buffer overwritten with Converted's bytes and nothing else |
| Json.JsonWrite | clang/json.c:77-105 | a null format gives "null format"; otherwise no error exactly when the format is white space and # comments only, and "unknown format char" for anything else |
| Json.EscapeJsonString | escape-json-string.c:46-87 | a wrong argument count dies with status 1 and no output; otherwise the output is the escape of every input byte and the status is 0 |
| Udig.AlgoStop | clib/udig.c:37-50 | the algorithm scan passes only chars of [a-z0-9] other than the colon, before index 8, and stops at the colon, index 8, a char outside the class, or the end |
| Udig.DigestStop | clib/udig.c:56-63 | the digest scan passes only graphic ASCII chars and stops at index 128, a non-graphic char, or the end |
| Udig.FriskUdig | clib/udig.c:21-67 | the pointer walk returns the verdict of Frisk, the checks taken in the source's order |
| Udig.FriskAccepts | clib/udig.c:21-67 | clib accepts a udig exactly when it is a lower-case letter, up to seven more of [a-z0-9], a colon and graphic ASCII chars, 31 to 128 chars in all |
| Udig.FriskFirstChecks | clib/udig.c:24-35 | a null udig, an empty one, and one whose first char is not in [a-z] get their own messages, in that order |
| Udig.LengthsCountWholeUdig | clib/udig.c:54-65 | both digest bounds count from the start of the udig, not of the digest: "sha:" and 27 chars pass, "sha:" and 125 chars are refused as too long |
| Udig.LaxFriskUdig | clang/udig.c:21-63 | the older pointer walk returns the verdict of LaxFrisk |
| Udig.LaxFriskAccepts | clang/udig.c:21-63 | the older copy accepts exactly up to eight chars of [a-z0-9] not starting with a digit (possibly none), a colon, and graphic ASCII up to index 128, with no minimum length |
| Udig.StrictImpliesLax | clang/udig.c:21-63 | whatever clib accepts the older copy accepts too |
| Udig.LaxAcceptsEmptyParts | clang/udig.c:21-63 | the older copy also accepts ":" and "sha:", which clib refuses, and refuses "" for its missing colon |
| Udig.LaxFirstCharOrder | clang/udig.c:38-47 | in the older copy the class tests come before the first-char test: "A:x" is refused as not lower, "1:x" as a bad first char |
| Hexdump.HexTable | clang/hexdump.c:51 | the hexchar table and the computed hex digit agree for every nibble |
| Hexdump.Need | clang/hexdump.c:53-65 | need is 77 columns for each of ceiling(n/16) lines, plus the NUL |
| Hexdump.FieldIsPrinted | clang/hexdump.c:89-96 | columns 0-5 of a line are the first six columns of what sprintf("%6lu") prints, the rest being overwritten by the direction columns |
| Hexdump.OffsetInFull | clang/hexdump.c:89 | an offset below a million is shown in full, right-aligned |
| Hexdump.OffsetLeadingDigits | clang/hexdump.c:89-94 | an offset of seven or more digits shows only its leading six |
| Hexdump.LineFixedColumns | clang/hexdump.c:94-96 | every line is the offset field, two spaces, the direction, a space; two spaces at 58-59; the newline at 76 |
| Hexdump.ByteColumns | clang/hexdump.c:101-110 | byte i of a line is a space and its high and low hex digits at 10+3i..12+3i, and at 60+i itself when printable, else '.' |
| Hexdump.LinePadding | clang/hexdump.c:114-120 | a short last line is padded with spaces up to column 58 in the hex part and up to 76 in the text part |
| Hexdump.DumpLine | clang/hexdump.c:78-124 | line l of the dump sits at columns 77l to 77l+76 |
| Hexdump.DumpReadsBack | clang/hexdump.c:101-110 | every source byte k can be read back from line k/16: its two hex digits give its value and its text column shows it |
| Hexdump.DumpNoNul | clang/hexdump.c:78-125 | the dump holds no NUL before the terminating one unless the direction char is NUL |
| Hexdump.PrintOffset | clang/hexdump.c:89 | sprintf writes the printed offset and its NUL at the line start and nothing else; its first six columns are the offset field |
| Hexdump.WriteBytes | clang/hexdump.c:101-110 | the byte loop consumes up to 16 bytes and writes exactly their hex and text columns |
| Hexdump.PutByte | clang/hexdump.c:102-108 | one byte's four columns are written and no other |
| Hexdump.PadBytes | clang/hexdump.c:114-120 | the padding loop blanks exactly the columns of the missing bytes |
| Hexdump.WriteLine | clang/hexdump.c:84-123 | one pass of the outer loop writes line l of the dump into its 77 columns and nothing else |
| Hexdump.FillLines | clang/hexdump.c:78-124 | the outer loop writes the whole dump text and nothing past it |
| Hexdump.Hexdump | clang/hexdump.c:34-126 | an empty source leaves the empty string; otherwise the first need bytes become the dump and its NUL and nothing after them changes |
| Hexdump.Cksum | hexdump.c:31-40 | _cksum is the sum of i * buf[i] kept modulo 2^16 |
| Hexdump.CksumIgnoresFirst | hexdump.c:37-38 | the byte at index 0 has weight 0 and never changes the checksum |
| Hexdump.HexdumpProgram | hexdump.c:42-147 | hexdump writes the zero-byte notice for an empty source; it refuses with "source bigger than target" and need as the int holds it when that wrapped need exceeds 64 KiB; when the wrapped need passes the test but the dump does not fit, the line loop overruns the buffer; otherwise it writes the header with the size and checksum, the dump up to its first NUL and a newline |
| Hexdump.AsWrittenAgrees | hexdump.c:75-86 | up to 446,230,368 bytes need fits the int, so the program refuses exactly the dumps that do not fit and never overruns |
| Hexdump.NeedOverflowOverruns | hexdump.c:75-86 | at 446,230,369 bytes need is 2,147,483,724, the int holds -2,147,483,572, the test passes and the dump overruns, where an exact need would be refused |
| Hexdump.ProgramRefusesOversize | hexdump.c:75-86 | with need computed in 64 bits, which holds it for every int size, the refusal is written exactly when the dump does not fit the buffer |
| Hexdump.ProgramShowsDump | hexdump.c:140-146 | with a direction other than NUL and a dump that fits, the program writes the whole dump after the header |
| Net.OctetText | clib/net.c:34-42 | each byte is written as one to three digits without a leading zero, reading back as the byte |
| Net.OctetDigits | clib/net.c:35-41 | the digits the loop peels off from the right spell the byte's decimal |
| Net.FourPasses | clib/net.c:32-45 | the four passes of the do-while loop leave a dot followed by b3.b2.b1.b0, so skipping the first dot gives the dotted quad |
| Net.DottedQuadLength | clib/net.c:29-48 | the text has 7 to 15 chars, so it fits the 20-byte buffer with its NUL |
| Net.ThreeDots | clib/net.c:43 | the text holds exactly three dots |
| Net.HighBitsIgnored | clib/net.c:34-44 | bits above the low 32 of addr do not show |
| Net.DottedQuadInjective | clib/net.c:13-49 | two addresses are written alike only when their four low bytes agree |
| Net.RotationCycle | clib/net.c:23-27 | four calls in a row use four different buffers, and the fifth reuses the first |
| Net.AddrText.PutOctet | clib/net.c:34-43 | one pass writes the byte's digits and a dot just before the cursor and nothing else |
| Net.AddrText.WriteOctets | clib/net.c:32-45 | the loop writes ".b3.b2.b1.b0" backwards ending at the buffer's last byte and nothing else |
| Net.AddrText.Addr2Text | clib/net.c:13-49 | jmscott_net_32addr2text returns buffer curbuf, where the text is the dotted quad ending at the NUL in the last byte; curbuf moves to the next buffer, and no other buffer changes |
| English.CDiv | duration-english.c:36 | C's division agrees with the mathematical one on non-negative operands |
| English.RoundNearest | duration-english.c:36 | for a non-negative count, ROUND(n, d) is the multiple of d nearest to n, a half rounding up (also byte-size-english.c:26-32) |
| Common.Int32 | duration-mtime-english.c:82 | the conversion to int keeps the value modulo 2^32, within the int range, and leaves a value the int holds unchanged |
| English.MtimeNewline | duration-mtime-english.c:86-112 | below an hour duration-mtime-english prints what duration-english does; from an hour on it lacks the final newline |
| English.BreakdownExact | duration-english.c:72-81 | below a minute the seconds are printed as they are; below an hour the minutes and seconds add back to the duration exactly |
| English.BreakdownHours | duration-english.c:82-89 | from an hour to a day the hours are 1 to 23 and the rounded minutes 0 to 60, within half a minute of the duration |
| English.BreakdownDays | duration-english.c:90-97 | from a day on the rounded hours are 0 to 24, within half an hour of the duration |
| English.SixtyMinutes | duration-english.c:84-87 | rounding the minutes up prints "1h60m" for 7170 seconds |
| English.TwentyFourHours | duration-english.c:92-95 | rounding the hours up prints "1d24h" for 172799 seconds |
| English.SecondsError | duration-english.c:61-68 | the argument is accepted exactly when it is 1 to 20 digits; an empty argument, a non-digit within the first 21 chars, and a 21st char get their own messages |
| English.CheckSeconds | duration-english.c:61-68 | the validation loop refuses with exactly the message of SecondsError |
| English.AtoiSmall | duration-english.c:69 | an accepted argument whose value fits an int is read as itself |
| English.AtoiWraps | duration-english.c:69 | "4294967295" is read as -1 and printed as "-1s" |
| English.DurationEnglishMain | duration-english.c:52-102 | a wrong argument count or a refused argument dies with status 2 and its message; otherwise the answer for atoi of the argument is printed |
| English.DurationMtimeMain | duration-mtime-english.c:60-115 | a wrong argument count dies with 2; a missing file exits 1, and only then; another stat failure dies with 2 and die2's "stat() failed" with strerror's text; otherwise the answer for now minus the mtime, cut to an int, is printed without the hours' newline |
| English.Die2Joins | duration-mtime-english.c:39-48 | die2's text is at most 1023 bytes, begins with msg1 and ": ", and is the whole of msg1, ": " and msg2 exactly when they fit |
| English.MissingFileLine | duration-mtime-english.c:50-58 | enoent writes 29 bytes of a 30-byte literal, so "file does not exist:" runs straight into the path with no space |
| English.StatFailedText | duration-mtime-english.c:77-81 | a stat failure other than ENOENT dies with "stat() failed: " followed by strerror's text |
| English.FutureMtime | duration-mtime-english.c:82-87 | a file modified 30 seconds in the future prints "-30s" |
| English.UnitFrom | byte-size-english.c:64-68 | the unit chosen is the first whose next power of 1024 exceeds the size |
| English.UnitIsSmallest | byte-size-english.c:64-68 | the size is below 1024 to the unit's next power and, past bytes, at least 1024 to the unit's power |
| English.ByteSizeNearest | byte-size-english.c:71 | the printed count is within half a unit of the size and at most 1024 |
| English.ByteSizeUnits | byte-size-english.c:72 | only the units B, K, M, G, T and P are ever printed |
| English.ByteSize1024Kb | byte-size-english.c:71-76 | rounding can print "1024Kb", for 1048575 bytes |
| English.ByteSizeLoop | byte-size-english.c:64-82 | the unit loop, with r multiplied in 64-bit unsigned arithmetic, prints ByteSizeText, and nothing for a size of 2^60 or more |
| English.UnitMonotone | byte-size-english.c:64-68 | the loop's passes up to unit i establish that the unit is i |
| English.ByteSizeMain | byte-size-english.c:48-83 | a wrong argument count, an empty size, a size a2ui63 refuses and a size too big die with status 1 and their messages; otherwise the rounded count, its unit and 's' or 'b' are printed |
| Tzo.Pad2 | golang/logroll/hz_driver.go:61 | `%02d` of a non-negative number is all digits, at least two, exactly two below 100 |
| Tzo.Signed3 | golang/logroll/hz_driver.go:61 | `%+03d` is a sign (plus for zero and above) and at least two digits of the magnitude |
| Tzo.Pad2Value | golang/logroll/hz_driver.go:61 | the digits `%02d` prints read back as the number printed |
| Tzo.FileNameAgrees | golang/logroll/hz_driver.go:55-62 | for offsets at or east of UTC, or an hour or more west, the name as written equals the name with the sign taken from the seconds |
| Tzo.FileNameRoundTrip | golang/logroll/hz_driver.go:55-62 | for a whole-minute offset at or east of UTC, or an hour or more west, the name reads back as the offset in seconds |
| Tzo.FileNameSignedOffset | golang/logroll/hz_driver.go:55-62 | the corrected name always reads back as the offset cut toward zero to a whole minute, sign included |
| Tzo.FileNameLosesSign | rasql/log.go:116-123 | for offsets less than an hour west, the name as written carries a plus sign where the offset is west, and reads back as the same offset east of UTC |
| Tzo.FileNameHalfHourWest | golang/logroll/hz_driver.go:55-62 | half an hour west of UTC (-1800 seconds) is written "+0030" and reads back as +1800; the corrected name reads back as -1800 |
| Tzo.FileNameUtc | golang/logroll/hz_driver.go:55-62 | UTC, and any offset under a minute east of it, is written "+0000" |
| IDiff.DigitRun | idiff.c:89 | the run of characters a2i consumes from an index stays inside the line |
| IDiff.RunDigits | idiff.c:89 | the run a2i consumes is made only of decimal digits |
| IDiff.A2i | idiff.c:89 | the macro stops at the first non-digit (or the terminating NUL) and leaves the decimal value of the digits it passed, 0 when there were none |
| IDiff.ReadRange | idiff.c:153-158 | one range: a number, then after a comma a second number, otherwise the second end equals the first; past the NUL both are 0 |
| IDiff.Parse | idiff.c:142-167 | the hunk read from a header line is the two ranges around the command letter, each end defaulting to the start when no comma follows |
| IDiff.RangeOf | idiff.c:153-158 | a range written as diff writes it, followed by a character that is neither digit nor comma, reads back as the same two ends and ends where the writing ended |
| IDiff.HeaderRoundTrip | idiff.c:142-167 | every header line diff writes for any ranges and any non-digit, non-comma command letter parses back to exactly those ranges and that letter |
| IDiff.HunkLines | idiff.c:200-206 | the count of lines copied after the header equals the lines diff prints after an append, a delete or a change header (change adds the "---" line); an append advances from1 and a delete from2 past the last line already in the file |
| Flatx.ScanOrder | flatx.c:599-613 | a word is accepted exactly when it is the name of one of the four orders, and then yields that order; any other word dies with the command line status 2 |
| Flatx.ScanOrderName | flatx.c:599-613 | every order's name scans back to that order, and distinct orders have distinct codes |
| Flatx.Comma | flatx.c:695 | the index strchr finds lies between the start and the end of the list, and is a comma unless it is the end |
| Flatx.CommaFirst | flatx.c:695 | no comma lies between the start and the index strchr finds: it is the first one |
| Flatx.Strchr | flatx.c:695 | the search loop stops at the first comma at or after the start, or at the end of the list |
| Flatx.ScanJoined | flatx.c:688-702 | a list of one to five order names joined by commas is cut back into exactly those orders |
| Flatx.ScanAccepts | flatx.c:688-702 | whatever the cutting loop accepts is one to five orders whose names joined by commas are the list |
| Flatx.OrderListExact | flatx.c:670-702 | the --order argument is accepted exactly when it is a comma-joined list of one to five order names shorter than 25 chars, and then yields those orders in the order written |
| Flatx.ParseOrderOption | flatx.c:670-702 | the --order branch dies with status 2 on an empty list or one of 25 chars or more and otherwise yields what the cutting loop yields |
| Flatx.CutList | flatx.c:688-702 | the loop over at most four comma-ended words and a last word yields what the scan of the list yields, including the death on an empty word before a comma |
| Flatx.DefaultOrders | flatx.c:738-739 | without --order the row starts with the byte index; a given list is kept |
| Flatx.FieldsCount | flatx.c:486-533 | the element order goes up by one per element field of the row, and writing the row dies with status 6 exactly when a field would have to print the signed 64 bit limit |
| Flatx.FieldsSeparated | flatx.c:489-532 | once a separator is due before a field, every later field of the row has one in front of it |
| Flatx.FieldsJoined | flatx.c:486-533 | with the separator test corrected, the order fields are joined by the field separator, after one separator when a prefix came first |
| Flatx.FieldsJoinedAsWritten | flatx.c:486-533 | the order fields as written: after a prefix each field has a separator in front; without one the first two fields run together and every later field has a separator in front |
| Flatx.GluedFields | flatx.c:489-492 | without a prefix and with two orders or more, no separator is written between the first two fields, and one before each later field |
| Flatx.PathOntoText | flatx.c:541-544 | the branch of the tree is written as each open element's name after a path separator, outermost first |
| Flatx.RowSeparatesFields | flatx.c:467-550 | a row (with the separator test corrected) is the prefix and the order fields joined by the field separator, one more separator, the path and the row separator |
| Flatx.FieldsAgree | flatx.c:491 | the separator test as written and as intended decide alike from the third field on, and everywhere when a prefix was given |
| Flatx.RowsAgree | flatx.c:480-550 | with a prefix, or with at most one order, the row as written is the intended row |
| Flatx.RowAsWrittenLayout | flatx.c:467-550 | the row start_element writes is the prefix and the order fields laid out as written (the first two run together without a prefix), one field separator, each open element's name after a path separator, and the row separator |
| Flatx.ElementFieldAt | flatx.c:493-527 | the first element field of a row prints the element order the row started with, the fields before it leaving the order alone |
| Flatx.FirstElementOrderZero | flatx.c:215 | element_order starts at 0 and is printed before it is incremented, so the first row's element field is "0" |
| Flatx.RowAsWrittenGlues | flatx.c:491 | without a prefix and with `--order byte,line`, byte index 12 on line 3 is written "123" where the intended row has "12", a tab, "3" |
| Flatx.Flattener.constructor | flatx.c:759-765 | main starts with an empty stack of 64 zeroed slots, element order 0, and a search for the element at the given byte index when --char-byte-index was given |
| Flatx.Flattener.Grow | flatx.c:397-425 | a full stack doubles, keeps its slots, zeroes the new ones and changes nothing else |
| Flatx.Flattener.PushElement | flatx.c:389-449 | the name is pushed on the open path; the stack doubles only when it was full; the slot's buffer grows to the name's length and never shrinks; every other slot, the element order and the output stay as they were |
| Flatx.Flattener.StartElement | flatx.c:466-550 | the element is pushed and exactly its row as written (`RowAsWrittenLayout`) is appended to the output; the element order advances by the element fields, and the call dies with status 6 exactly when the row would overflow |
| Flatx.Flattener.WriteFields | flatx.c:486-533 | the loop over the orders, with the separator test as written (`o - 1 > orders`, or a prefix), writes exactly the order fields of the row as written and leaves the element order the row's count |
| Flatx.Flattener.WritePath | flatx.c:539-544 | the loop over the stack writes the path of open elements and nothing else |
| Flatx.Flattener.WriteRow | flatx.c:480-549 | after the push, the output grows by exactly the row as written for the open path, with the overflow death of status 6 |
| Flatx.Flattener.EndElement | flatx.c:552-559 | the innermost open element is popped; popping an empty stack, and only that, dies with the panic status 255 |
| Flatx.Flattener.CharStartElement | flatx.c:451-464 | the element is pushed; while searching, the element that starts at the requested byte index is marked and extraction begins, and otherwise the char state stays |
| Flatx.Flattener.CharEndElement | flatx.c:561-580 | the innermost element is popped (an empty stack panics); closing the marked element ends the extraction |
| Flatx.Flattener.CharacterData | flatx.c:582-597 | character data is written exactly while the marked element is open, and nothing else changes |
| Flatx.Flattener.Finish | flatx.c:809-833 | after the document, a search that never found its element dies with status 7, an extraction still open panics, and otherwise the exit is 0; with every element closed only status 7 or success remain |
| Ecpg.Lookup | clib/ecpg.c:67-72 | the entry the table scan stops at is the first whose SQLSTATE equals the fault's state, or the null sentinel when no entry does (also clang/ecpg.c:61-66) |
| Ecpg.ScanFaults | clib/ecpg.c:68-72 | the scan loop over the table stops at the first entry for the state, or at the sentinel (also clang/ecpg.c:62-66) |
| Ecpg.EcpgFault | clib/ecpg.c:42-111 | the handler step by step has exactly the effect of the fault rule: ignored, or death with the chosen status and the message built from "SQL", what, the state and the error text (also clang/ecpg.c:37-99, which is the build with PostgreSQL) |
| Ecpg.EcpgError | clib/ecpg.c:117-121 | an SQL error is a fault with the error exit code and "ERROR" (also clang/ecpg.c:105-109) |
| Ecpg.EcpgWarning | clib/ecpg.c:142-146 | an SQL warning is a fault with the warning exit code and "WARNING" (also clang/ecpg.c:129-133) |
| Ecpg.FaultOutcome | clib/ecpg.c:57-109 | the fault is ignored exactly when built with PostgreSQL, the state is present and its first table entry says -1; otherwise it dies with that entry's action when it is 0..255, else with the given status, and always 127 without PostgreSQL (also clang/ecpg.c:51-98) |
| Ecpg.FirstEntryWins | clib/ecpg.c:68-72 | the first entry for a state decides, whatever entries for it come later (also clang/ecpg.c:62-66) |
| Ecpg.MissingStateSkipsTable | clib/ecpg.c:57-92 | with no SQLSTATE the table is never consulted, the fault always dies, and the message says the state is missing (also clang/ecpg.c:51-86) |
| Ecpg.MessageBegins | clib/ecpg.c:51-53 | the message starts with "SQL" immediately followed by what, when that fits the 4096 byte buffer (also clang/ecpg.c:45-47) |
| Logroll.ValidHzTick | logroll/roller.go:122-127 | a tick is refused exactly when it is under one second, and the refusal names that tick |
| Logroll.Roller.constructor | logroll/roller.go:45-51 | a new roller has the defaults (directory ".", 3s poll, mode 0640, suffix "log", 10m roll), the given base name and no driver yet |
| Logroll.Roller.ApplyOption | logroll/roller.go:129-153 | an option sets exactly its one field and hands back the option that restores the old value |
| Logroll.Roller.Options | logroll/roller.go:155-163 | options are applied first to last; the undo of the last one is handed back (nil for none) and there is never an error |
| Logroll.OpenRoller | logroll/roller.go:173-223 | an empty base name, a driver other than "Dow" or "Hz", or a failing driver open yields no roller and that error; otherwise a new roller with the defaults, the base name, the driver and the options applied |
| Logroll.Close | logroll/roller.go:225-238 | closing a nil roller or one without a driver succeeds; otherwise the result is the driver's close |
| Logroll.UndoRestores | logroll/roller.go:129-153 | applying an option's undo after it puts every field back as it was |
| Logroll.OptionsUndoLast | logroll/roller.go:155-163 | the undo Options hands back restores the settings from before the last option only |
| Logroll.ApplyAllAppend | logroll/roller.go:155-163 | options passed in two calls have the effect of the same options passed in one |
| Logroll.DirectoryLastWins | logroll/roller.go:139-163 | after the options the directory is that of the last Directory option, or the one before when there is none |
| Logroll.OptionsKeep | logroll/roller.go:155-163 | options never change the base name, the poll tick, the file mode or the driver |
| Logroll.OpenChecks | logroll/roller.go:173-204 | the empty base name is refused before the driver is looked at; the open succeeds exactly for a non-empty base name, driver "Dow" or "Hz", and a driver open without error; with no options the roller has exactly the defaults |
| Logroll.HzPathIsLogRoll | golang/logroll/hz_driver.go:72-114 | the path hz_path reports is the one hz_roll opens in the same zone when the suffix is "log", and differs from it for any other suffix; both carry the zone as tzo2file_name writes it |
| Logroll.PathSlices | golang/logroll/hz_driver.go:72-86 | a rolled path begins with the directory, the separator, the base name and "-", and ends with the zone field, "." and the suffix |
| Logroll.ZoneReadsBack | golang/logroll/hz_driver.go:55-62 | the zone field of a rolled path reads back as a whole-minute zone, except that a zone less than an hour west reads back as the same offset east |
| Logroll.StampFields | golang/logroll/hz_driver.go:76-82 | for four-digit years the time stamp in a rolled name is 15 chars with "_" at index 8, and each field reads back from its fixed slice |
| Logger.CheckHeartbeatPause | golang/logger/logger.go:72-78 | a pause is refused exactly when it is negative, and the refusal names that pause |
| Logger.Logger.constructor | golang/logger/logger.go:10-18 | a new logger has directory ".", a ten second heartbeat, the given name and no driver yet |
| Logger.Logger.ApplyOption | golang/logger/logger.go:80-94 | an option sets exactly its one field and hands back the option that restores the old value |
| Logger.Logger.Options | golang/logger/logger.go:96-103 | options are applied first to last; the undo of the last one is handed back (nil for none) and there is never an error |
| Logger.Open | golang/logger/logger.go:105-152 | an empty name, a driver other than "Dow" or a failing driver open yields no logger and that error; otherwise a new logger with the defaults, the name, the driver and the options applied |
| Logger.Close | golang/logger/logger.go:164-174 | closing a nil logger or one without a driver succeeds; otherwise the result is the driver's close |
| Logger.UndoRestores | golang/logger/logger.go:80-94 | applying an option's undo after it puts every field back as it was |
| Logger.OptionsUndoLast | golang/logger/logger.go:96-103 | the undo Options hands back restores the settings from before the last option only |
| Logger.PauseLastWins | golang/logger/logger.go:80-103 | after the options the heartbeat pause is that of the last HeartbeatPause option, or the one before when there is none |
| Logger.OptionsKeep | golang/logger/logger.go:96-103 | options never change the name or the driver |
| Logger.OpenChecks | golang/logger/logger.go:105-130 | the empty name is refused before the driver is looked at; the open succeeds exactly for a non-empty name, driver "Dow" and a driver open without error; with no options the logger has exactly the defaults |
| Dedup.DedupMain | dedup.go:27-65 | the run is the deduplication rule: a bad argument list exits 1 with no output; otherwise each distinct line is printed the first time it appears (or, with --count, only their number), and a scanner error exits 1 |
| Dedup.KeepNoRepeats | dedup.go:48-56 | the lines printed never repeat, and they are exactly the lines read so far |
| Dedup.DistinctMembers | dedup.go:48-56 | every input line is printed, nothing else is, and no line twice |
| Dedup.CountIsDistinct | dedup.go:61-63 | --count prints the number of lines the plain run prints |
| Dedup.DistinctIdempotent | dedup.go:48-56 | deduplicating the output again changes nothing |
| Dedup.NoRepeatsKept | dedup.go:48-56 | input without repeated lines is copied whole |
| Dedup.ExitStatus | dedup.go:34-64 | the exit status is 0 exactly when the arguments are none or just --count and the scan ended cleanly, and 1 otherwise |

## Left out

- HAlloc.Arena.Adopt: requires that P is not inside p's subtree. The C code has no cycle check (clib/halloc.c:55), and a cycle makes every later walk undefined.
- HAlloc.Arena.AdoptRecording: requires, like Adopt, that P is not inside p's subtree.
- HAlloc.Arena.Adopt: requires that p's recorded parent is the node whose list holds it, and that P is not null. After one adopt that moved p, a second adopt or a resize of p is outside the model. `HAllocSteps.AdoptThenFreeDangles` and `HAllocSteps.StaleFreeDangles` show what a free does then.
- HAlloc.Arena.Resize: when realloc moves the block, requires that its recorded parent is the node holding it. This is the same gap as for Adopt.
- HAlloc.Arena.Free: the well-formed result is promised only when the recorded parent holds p. Otherwise only the raw headers are stated.
- HAlloc.Arena.AddCallback: the malloc of the callback record is not checked in the source and is taken to succeed. The callback list is a sequence, so the walk to its tail record (clib/halloc.c:283-286) is its end; the record links are not modelled.
- HAlloc.Arena.Strdup: clang/halloc.c calls `halloc`, not `jmscott_halloc`, to allocate. The model covers the clib copy, whose call is direct.
- HAlloc.Arena.Alloc: header arithmetic, alignment and the size of the header are not modelled. A payload is a `seq<char>` of the requested length.
- Callback function bodies are not modelled: a fired callback is an event (func, private_data, payload address) in a trace.
- CString.StrCat: every copy takes `int tgtsize` (clib/string.c:42, clang/strcat.c:21, clang/string.c:29). The model's size is an unbounded int, so the wrap of `--tgtsize` during the NUL scan, which clib/string.c:39 and :46 warn of, is not modelled.
- Json.EscapeJsonString: `ferror` on standard input or output is not modelled. The input is the whole byte stream.
- Utf8.IsUtf8wf: `read` errors are one flag, not an errno. The message of `die` is not modelled, only the exit status.
- Udig.FriskAccepts: the source's comment calls 32..128 the digest's length. The code counts the whole udig. The model follows the code, and `Udig.LengthsCountWholeUdig` states it.
- Hexdump.Hexdump: requires that need fits `tgt_size`. Otherwise the source sets `src_size = tgt_size` and still writes whole lines and `tgt[need-1]` past the caller's size. That is undefined and not modelled.
- Hexdump.Hexdump: the source size is below 2^31, the range of the C `int` it is held in.
- Hexdump.HexdumpProgram: the source size is below 2^31, the range of the C `int` parameter. Signed overflow of `need` is undefined in C; the model takes the usual two's-complement wrap. A dump that overruns the 64 KiB buffer is reported as `Overrun`; what it writes past the buffer is not modelled.
- Net.AddrText.Addr2Text: `u_long` is wider than 32 bits on some platforms. Only the low 32 bits matter, and `Net.HighBitsIgnored` states that.
- English.DurationEnglishMain: `atoi` is modelled as glibc's `strtol`, clamped to LLONG_MAX and then cut to a 32-bit `int`. The program name and "ERROR:" prefix that `die` writes are not modelled. Write errors are not modelled.
- English.DurationMtimeMain: the clock and `stat` are inputs, and so is strerror's text (the C library's message table is not part of this model). The cut that `die` applies to a message longer than its 1024-byte buffer is not modelled.
- English.ByteSizeMain: the output has no final newline, because the source writes `p - buf` bytes. The model keeps that.
- IDiff.A2i: the accumulation is unbounded. The C `int` overflow of a number with more than nine digits is not modelled.
- IDiff.Parse: when the command char is the line's NUL, the source steps past it and reads stale bytes of `buf` left by an earlier, longer line; the model reads NUL there. Reading past the buffer itself is not modelled.
- idiff's interactive loop is not modelled: `efdiff`, the editor's `system()` calls, the temporary files and the signal cleanup. The model covers only its header parse and line count.
- Flatx.FirstElementOrderZero: the header comment at flatx.c:28 gives the element order a minimum of 1, but the code starts it at 0 (flatx.c:215) and prints it before counting up (flatx.c:525-527). The model keeps the code's 0.
- Flatx.FieldsJoined: states the corrected separator test, from the second field on, which the program does not apply; what the program writes is Flatx.FieldsJoinedAsWritten.
- Flatx.Flattener.PushElement: the new slots of a grown stack have `in_char_twig` uninitialised in the source. The model zeroes them, so the marked slot stays unique.
- Flatx.Flattener.PushElement: the `size_t` wrap check and the realloc failures exit 3 in the source. They are not modelled; the stack always grows.
- Flatx.ParseOrderOption: the "missing order list" death for `--order` as the last argument belongs to the argument loop, which is not modelled. The other options of main are not modelled either.
- Flatx.OrderListExact: a list of five names reads `orders[5]` as the end marker. The model stops after five orders.
- libexpat is not modelled: parsing, XML errors, I/O and `XML_GetCurrent*` positions are inputs to the Flattener's methods.
- Flatx.Flattener.Finish: the message text `die` writes is not modelled, only the status.
- Ecpg.EcpgFault: the `sqlca` record is an input. `jmscott_die` is modelled as its status and message, not its output. The message is cut to 4095 bytes as `jmscott_strcat` cuts it.
- Logroll.ValidHzTick: Go's error is modelled as the refused tick. Its text, which formats the duration, is not modelled.
- Logger.CheckHeartbeatPause: the error is modelled as the refused pause, without its text.
- Logroll.OpenRoller: the driver's `open` is a parameter, its error result. Creating the channels and starting the `read`/`poll_roll` goroutines are not modelled.
- Logroll.OpenRoller: `ValidHzTick` is not called by OpenRoller in the source, so a tick under a second is accepted. The model keeps that.
- Logroll.Close: the send on `done_c` and the driver's `close` are not modelled. The close's error is a parameter.
- Logger.Open: the driver's `open` is a parameter. The goroutines, the hello/heartbeat log lines and the message channel are not modelled.
- Logger.Close: the good-bye line, the send on `close_c` and the driver's `close` are not modelled. The close's error is a parameter.
- Go concurrency is not modelled: channels, tickers, goroutines and `panic` with its stderr message.
- The roller's file, path, permission use and the `hz_open`/`hz_roll`/`hz_close`/`hz_poll_roll` methods are not modelled. Only the path `hz_roll` opens (`Logroll.RollPath`) and `hz_path` are, both with the zone as tzo2file_name writes it. `hz_roll` takes its zone from the clock at the roll, which is the parameter `tzo`.
- Dedup.DedupMain: the scanner's 16 MiB line buffer is abstracted into the `scanErr` flag. The stderr messages are not modelled.
- The Dow drivers (logroll/dow_driver.go, golang/logger/dow.go) are not part of this model.

## Findings

| source | as written | input that shows it | evidently intended | confidence | as-written member | corrected member |
|---|---|---|---|---|---|---|
| flatx.c:491 | the separator before an order field is written when `o - 1 > orders`, which holds only from the third field on | `--order byte,line` without `--prefix-fields`, an element at byte 12 on line 3: the row starts "123" instead of "12", a tab, "3" | write it from the second field on (`o > orders`) | not executed | Flatx.RowAsWrittenLayout | Flatx.RowSeparatesFields |
| golang/logroll/hz_driver.go:55-62 | the sign comes from `sec/3600`, which is 0 for offsets less than an hour west; the same code is at rasql/log.go:116-123 | a zone 30 minutes west of UTC, sec = -1800, is written "+0030" | the sign of the offset itself, "-0030" | not executed | Tzo.FileNameLosesSign | Tzo.FileNameSignedOffset |
| clib/halloc.c:57-122 | adopt moves the node into the new parent's child list but never sets its `parent` field; the older copy clang/halloc.c:66-128 does the same | allocate p under A, `jmscott_halloc_adopt(B, p)`, then `jmscott_halloc_free(p)`: free patches A's child list, and B's `child_tail` still names the freed p | adopt sets `mp->parent = parent_mp` | not executed | HAllocSteps.AdoptThenFreeDangles | HAllocSteps.RecordedAdoptThenFree |
| hexdump.c:75-81 | `need` is a C `int`; from 446,230,369 source bytes the product overflows it, and on a wrapping compiler it turns negative | a source of 446,230,369 bytes: need is 2,147,483,724, held as -2,147,483,572, so `need > tgt_size` fails and the line loop writes about 2 GiB into the 64 KiB `tbuf` | compute need in a wider type and refuse every dump that does not fit | not executed | Hexdump.NeedOverflowOverruns | Hexdump.ProgramRefusesOversize |
