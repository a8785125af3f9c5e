# Verification of pciutils with JSON output

Dafny models of the parts of the program that compute over unbounded data, with proofs of
what they promise. `dafny verify dfyconfig.toml` checks everything.

| directory | what it models |
|---|---|
| json | the JSON parser (a state machine that runs twice over the text), the builder's growable and sortable trees, the measurer, the serializer and the destructor |
| pci | configuration space as a fixed function; the recursive bus scan, the bridge forest of the bus map, the aligned block split, and the capability chains |
| ids | the list of identifiers: bump allocator, hash table, line parser, and the documented file format |
| cli | getopt, which permutes its argument vector in place |
| dmi | slot entries of the SMBIOS structure table |
| dns | walking through DNS messages |
| dump | the cache of configuration bytes, the hexadecimal dump printed from it, and the reader of dumps |
| text | hexadecimal numbers, sequences inside others, values that may be missing |

How the pieces fit:

- Code that changes state is imperative: a class or array with the fields of the source, and
  methods whose contracts tie the new state to a function of the old one. The properties are
  lemmas about these functions.
- The parser works on an arena of nodes, numbered in the order of allocation; a link is a
  number. A ghost stack of open containers, with the mode the flags stand for, connects the
  loop to a recursive grammar (`JsonGrammar`); `JsonMachine.Good` is the invariant of the
  loop, and `JsonSteps` has one lemma for each of its branches. `JsonArena.Emit` says what
  either pass leaves in memory.
- The builder, the serializer and the destructor work on `JsonHeap.Value`, a node with
  pointers, in a forest described by `JsonHeap.Valid`. `JsonWalk` says what is left to write
  or to count at each point of the walk.
- Text and names are sequences of characters; a text is followed by NUL. Bytes are numbers
  below 256. Masks and shifts of constants are written as remainders and quotients.
- Reads of the device, of files and of the environment are parameters: a function from
  address to byte, the text of a file, a flag.

Where the code and its documentation differ, the model follows the code:

- `lib/json-parser.c:347` combines surrogates with a bitwise or; `JsonUnicode.PairExact` says
  for which pairs that is the addition of section 7 of RFC 8259.
- `lib/json-parser.c` takes most texts of RFC 8259, and others; `JsonStandard` says exactly
  which of the standard it refuses, and `JsonStray` what else it does not take.
- `lib/json-parser.c:481-486` refuses a comment directly behind a number, though not behind
  any other value; `JsonScalars.NumberSlash`.
- `lib/json-parser.c:775` tests for overflow on every digit of an integer, so `INT64_MAX` is
  accepted and the next number is not; the round trip goes up to `INT64_MAX` on both sides.
- `json-builder.c:401` moves its second index on with every match, without a bound, although
  `json-builder.h:91-94` names no condition; `JsonSort.ObjectSort` says exactly when it stays
  inside.
- `json-builder.c:692` and `json-builder.c:923` go on to the parent of the value they were
  called with, so that a value inside a tree is measured and written together with all its
  ancestors; `JsonSerializer.OnlyRoots` says that this is so for all values but roots.
- `compat/getopt.c:348-353` skips a leading mode character of the option string only in the
  first call; in later calls it can be found as an option letter, and hides a colon behind it.
  `GetoptMode.ModeCharacter` says for which option strings that makes no difference.
- `lib/names-hash.c:28` rounds a size that is already aligned up by a whole unit, and
  `id_alloc` does not reject sizes that no bucket can hold; `IdAlloc.Allocator.Alloc` says
  exactly which blocks stay inside their bucket.
- `dmi_phy_slots/dmi_phy_slots.c:57` compares signed characters, so bytes from 128 on are
  filtered as well.

## Model

Row by row, what the contract of the member states.

| member | source | states |
|---|---|---|
| `JsonGrammar.Skip` | lib/json-parser.c:450-507 | Skipping white space and comments never moves backwards, and stops at a character that matters or at the end |
| `JsonGrammar.Value` | lib/json-parser.c:529-745 | The recursive reading of one value: a value that is read ends behind where it began and inside the text. `JsonStandard.StandardRead` relates it to RFC 8259 |
| `JsonUnicode.Utf8Decodes` | lib/json-parser.c:350-389 | The bytes written for a code point decode to it, by the table in section 3 of RFC 3629 |
| `JsonUnicode.EscapeDecodes` | lib/json-parser.c:303-389 | An escape adds the bytes of one code point: that of its four digits, or of a pair with bit 16 set |
| `JsonUnicode.PairExact` | lib/json-parser.c:327-348 | A pair of surrogates gives the code point of section 7 of RFC 8259 if and only if bit 6 of its first half is clear; otherwise one that is 0x10000 less |
| `JsonUnicode.FourDigits` | lib/json-parser.c:312-328 | Four digits give the number that they print, in small or capital letters |
| `JsonUnicode.PairWrong` | lib/json-parser.c:347-347 | The pair of U+20000 becomes U+10000 |
| `JsonStandard.StandardRead` | lib/json-parser.c:237-951 | Every text of RFC 8259, in any spelling, with any white space and, where they are enabled, with comments between its tokens and at its end, is accepted with the value of its pieces (pairs of surrogates as `JsonUnicode.PairExact` says), if and only if it has none of four things: a surrogate escape without another escape behind it, a fraction behind an integer part beyond INT64_MAX, a string or container longer than the parser takes, a comment directly behind a number |
| `JsonSpace.SpaceRead` | lib/json-parser.c:450-508 | Any pieces of white space are skipped: blanks, comments up to the first carriage return or line feed, comments up to the first closing mark |
| `JsonStray.NoDocument` | lib/json-parser.c:237-951 | Wherever white space may stand in a text, in front of or behind values, names, colons and commas at any depth: what is no blank, no comment that ends, and not one of the characters that may come next there makes a text that is no document, whatever follows. So nothing is left out, added or cut off |
| `JsonStray.NoScalar` | lib/json-parser.c:293-448 | So does, wherever a value or a name is due, another word than the three, a string that does not end or has an escape without four digits, a zero in front of a digit, and a point or an exponent without digits |
| `JsonBroken.BrokenStuck` | lib/json-parser.c:295-869 | None of these is read as a value |
| `JsonStandard.ElementRead` | lib/json-parser.c:529-745 | The same for a value wherever it stands; when it is not taken, reading fails or stops at a point |
| `JsonScalars.StringRead` | lib/json-parser.c:293-448 | The characters and escapes of a string give the bytes they stand for, or the string is refused, exactly when a surrogate stands alone or it is too long |
| `JsonScalars.NumberRead` | lib/json-parser.c:749-869 | A number is read as a whole: an integer up to INT64_MAX with its value, any other as a double; reading stops at the point behind a larger integer part |
| `JsonScalars.NumberSlash` | lib/json-parser.c:481-486 | A number is not taken when a slash comes directly behind it, even if it opens a comment |
| `JsonStandard.LargeFraction` | lib/json-parser.c:775-780 | For every integer n, its digits with a fraction are a document if and only if n is at most INT64_MAX |
| `JsonStandard.LoneSurrogate` | lib/json-parser.c:327-341 | The string of a lone surrogate escape and an x is no document |
| `JsonStandard.NoMark` | lib/json-parser.c:250-258 | A text of RFC 8259 does not begin with a byte order mark, so none of it is skipped |
| `JsonStandard.MarkSkipped` | lib/json-parser.c:250-258 | The three bytes of a byte order mark are skipped, once |
| `JsonStandard.FinalComma` | lib/json-parser.c:536-563 | The parser takes more than the standard: an array with a final comma |
| `JsonStandard.MinusAlone` | lib/json-parser.c:749-862 | and a minus sign without digits |
| `JsonStandard.AnyCharacter` | lib/json-parser.c:383-402 | and, in strings, control characters, and a backslash in front of any character |
| `JsonMachine.NewNodeOk` | lib/json-parser.c:117-207 | In pass 2 the next node of the chain is the very node that pass 1 allocated for the value being read |
| `JsonMachine.Locate` | lib/json-parser.c:126-204 | What pass 1 has recorded of a value stands at the node number pass 2 reaches for it |
| `JsonSteps.OpenedOk` | lib/json-parser.c:583-596 | Opening a bracket keeps the invariant of the loop, in both passes |
| `JsonSteps.SpaceOk` | lib/json-parser.c:531-534 | White space changes nothing where it is skipped |
| `JsonSteps.CommentOpens` | lib/json-parser.c:481-501 | A comment opens only where the grammar skips one |
| `JsonSteps.CommentEnds` | lib/json-parser.c:452-480 | Leaving a comment resumes exactly where the grammar would |
| `JsonSteps.CommentFails` | lib/json-parser.c:481-506 | A slash that opens no comment is an error of the grammar too |
| `JsonSteps.SeparatedOk` | lib/json-parser.c:549-577 | A comma or colon that is due is taken, once |
| `JsonSteps.SeparatorMissing` | lib/json-parser.c:549-577 | Any other character there is an error of the grammar too |
| `JsonSteps.StrayBracket` | lib/json-parser.c:536-545 | A closing bracket without an open array is an error of the grammar too |
| `JsonSteps.ObjectFails` | lib/json-parser.c:717-745 | Inside an object every other character is an error of the grammar too |
| `JsonSteps.QuotedOk` | lib/json-parser.c:598-608 | A string begins with a node of its own and an empty buffer |
| `JsonSteps.BackslashedOk` | lib/json-parser.c:398-402 | A backslash defers to the next character |
| `JsonSteps.AddedOk` | lib/json-parser.c:300-396 | Each character or escape, also one of several UTF-8 bytes, extends the string by what the grammar says |
| `JsonSteps.StringFails` | lib/json-parser.c:295-341 | Ending inside a string, a bad escape and a string too long are the errors of the grammar |
| `JsonSteps.RoomForString` | lib/json-parser.c:404-434 | In pass 2 the rest of a string or name, with its terminator, fits what pass 1 counted, to the byte |
| `JsonSteps.StringClosedOk` | lib/json-parser.c:404-419 | A closed string has the length and, in pass 2, exactly the memory the value needs |
| `JsonSteps.NameClosedOk` | lib/json-parser.c:421-437 | A closed name is counted in pass 1, and stored at its place in pass 2 |
| `JsonSteps.WordedOk` | lib/json-parser.c:610-653 | true, false and null become complete values |
| `JsonSteps.SkippedOk` | lib/json-parser.c:657-678 | In pass 2 a number is skipped as a whole, to the character where pass 1 ended it |
| `JsonSteps.NumberStepResume` | lib/json-parser.c:752-869 | Each character of a number in pass 1 moves on as the grammar does |
| `JsonSteps.NumberHere` | lib/json-parser.c:662-677 | In a text that pass 1 accepted the characters skipped are those of the number and no more |
| `JsonSteps.ClosedOk` | lib/json-parser.c:536-545 | A closed container is complete: its node holds all elements or entries |
| `JsonSteps.HandedOk` | lib/json-parser.c:882-928 | A complete value becomes the next child of its parent |
| `JsonSteps.RoomForValue` | lib/json-parser.c:897-923 | In pass 2 the parent has a free slot for it |
| `JsonSteps.FinishedOk` | lib/json-parser.c:510-513 | At the end of the text the nodes are those of the whole value |
| `JsonParser.Parser.NewValue` | lib/json-parser.c:117-207 | Allocation in pass 1 appends to the chain; in pass 2 it follows the chain |
| `JsonParser.Parser.StringSection` | lib/json-parser.c:293-448 | The string part of the loop, on every character |
| `JsonParser.Parser.CommentSection` | lib/json-parser.c:450-508 | The part inside comments |
| `JsonParser.Parser.SeekSection` | lib/json-parser.c:529-703 | The part that looks for a value |
| `JsonParser.Parser.ObjectSection` | lib/json-parser.c:706-747 | The part inside objects |
| `JsonParser.Parser.NumberSection` | lib/json-parser.c:749-869 | The part inside numbers |
| `JsonParser.Parser.HandOver` | lib/json-parser.c:882-928 | The part that hands a complete value to its parent |
| `JsonParser.Parser.Step` | lib/json-parser.c:289-929 | One turn of the loop keeps the invariant and makes progress, or ends as the grammar does |
| `JsonParser.Parser.RunPass` | lib/json-parser.c:277-932 | A pass over the text ends; it accepts exactly the texts of the grammar, and leaves the nodes of the parsed value |
| `JsonParser.Parser.Parse` | lib/json-parser.c:237-951 | Both passes: the parser accepts exactly the documents of the grammar; when pass 1 accepts, pass 2 does, with every buffer of the parsed tree filled exactly |
| `JsonReader.ReadBack` | lib/json-parser.c:117-207 | Reading strings by length, names by offset and children by link gives the value back from the nodes |
| `JsonReader.ParsedReadsBack` | lib/json-parser.c:237-934 | What a successful parse leaves in memory is the parsed tree |
| `JsonPrinter.StringBack` | json-builder.c:495-524 | A written string is read back, whatever characters it holds except NUL |
| `JsonPrinter.NumberBack` | json-builder.c:849-878 | A written integer is read back exactly, up to INT64_MAX on both sides |
| `JsonPrinter.ValueBack` | json-builder.c:731-927 | A written value is read back wherever it stands |
| `JsonPrinter.ContainerBack` | json-builder.c:749-840 | So is a container, with its breaks, blanks and indentation |
| `JsonPrinter.RoundTrip` | json-builder.c:731-927 | For every tree without doubles and INT64_MIN, with all options, parsing the text gives the tree back with its entry order, if and only if no string or name holds NUL and none is longer than the parser takes |
| `JsonScalars.DoubleBack` | json-builder.c:880-896 | What is written for a finite double is read as a double wherever it stands, whether `%g` prints a point, an exponent or neither |
| `JsonScalars.CommaBecomesPoint` | json-builder.c:886-889 | Where `%g` prints a comma, a point is written in its place |
| `JsonLayout.TextLaid` | json-builder.c:704-927 | The text of a tree is laid out as a checker of lexemes asks for in every character: a break directly behind an opening bracket, behind each comma and in front of a closing bracket of a container that is not empty, and nowhere else; behind it indent_size times the number of brackets open there, in tabs or blanks; blanks exactly where mode and options put them |
| `JsonLayout.BreaksPaired` | json-builder.c:704-733 | With CRLF every line feed has a carriage return directly in front of it and none stands elsewhere; without it there is no carriage return, in one line there is no break, and without tabs no tab |
| `JsonWalk.CountIsLength` | json-builder.c:531-702 | The sum of the measured sizes is the length of the text, and two more for each double that needs no .0 behind it |
| `JsonWalk.NewlinesCounted` | json-builder.c:570-591 | The measurer counts a break for each child and one for each closing bracket |
| `JsonWalk.TotalIsExact` | json-builder.c:695-701 | With the final additions the total is the length of the text, its terminator, what is counted for doubles and not written, and indent_size for every newline |
| `JsonWalk.TextDown` | json-builder.c:749-789 | Entering a child leaves the rest of the text to write |
| `JsonWalk.StepUp` | json-builder.c:767-775 | Leaving a container leaves the rest of the text around it |
| `JsonSerializer.MeasureString` | json-builder.c:457-488 | The measured size of a string is the length of its escaped text |
| `JsonSerializer.MeasureInteger` | json-builder.c:643-661 | The measured size of an integer is the length of its digits |
| `JsonSerializer.Enter` | json-builder.c:586-595 | The step from a container to its next child, through the cursor in the node |
| `JsonSerializer.Leave` | json-builder.c:576-584 | The step out of a container, which sets its cursor to 0 |
| `JsonSerializer.MeasureEx` | json-builder.c:536-702 | The iterative measurer ends; its result is exact for what the serializer writes from this value, with doubles and in every layout, and all cursors are 0 again, so the tree is as before |
| `JsonSerializer.AllFinished` | json-builder.c:695-701 | With the final additions the total is the length of all texts, a terminator, what is counted for doubles and not written, and indent_size for every newline |
| `JsonSerializer.SerializeString` | json-builder.c:495-524 | The escaped text is written and nothing else |
| `JsonSerializer.SerializeInteger` | json-builder.c:849-878 | The digits are written from the last to the first |
| `JsonSerializer.SerializeDouble` | json-builder.c:880-896 | What `%g` prints is written, with a point for a comma, and .0 behind it exactly when it has neither comma, point nor exponent |
| `JsonSerializer.SerializeEnter` | json-builder.c:749-840 | Entering writes what stands before a child |
| `JsonSerializer.SerializeLeave` | json-builder.c:767-775 | Leaving writes break and bracket, and decreases the indentation |
| `JsonSerializer.SerializeEx` | json-builder.c:731-927 | The iterative serializer ends; in a buffer of the measured size it writes exactly the text of the recursive printer, then those of the ancestors of the value, and NUL, and leaves all cursors 0 |
| `JsonSerializer.RootAlone` | json-builder.c:923-923 | A root is written alone, and its measure is that of its own text |
| `JsonSerializer.OnlyRoots` | json-builder.c:923-923 | The text written is that of the value if and only if the value has no parent |
| `JsonBuilder.ContainerNew` | json-builder.c:128-201 | A new array or object is a tree of its own with the room asked for |
| `JsonBuilder.StringNew` | json-builder.c:273-312 | A new string is a tree of its own |
| `JsonBuilder.ArrayPush` | json-builder.c:150-178 | A push of a whole tree other than that of the array keeps the forest valid: capacity is length plus what is left, links agree, nothing is shared; the array gains the value as last element, and no tree apart from it changes. Any other push leaves links that no forest has |
| `JsonBuilder.ObjectPush` | json-builder.c:203-271 | The same for entries, with a copy of the name |
| `JsonBuilder.ObjectMerge` | json-builder.c:406-455 | Merging moves all entries behind those of the other object, gives them their new parent and needs no more room than is there; the rest of the forest stays valid exactly when the object was a whole tree that does not hold the other |
| `JsonBuilder.Push.Settled` | json-builder.c:150-271 | What a push changes leaves a valid forest |
| `JsonBuilder.Push.SameTree` | json-builder.c:150-271 | A node apart from the host stands for the same value after a push |
| `JsonBuilder.Merge.Settled` | json-builder.c:406-455 | What a merge changes leaves a valid forest |
| `JsonBuilder.TangledIsNoForest` | json-builder.c:172-175 | Nodes with a node in two places, a cycle or a child outside are linked under no ranks and trees |
| `JsonBuilder.Push.Tangles` | json-builder.c:150-271 | A push of a value that has a parent puts it in two places; a push of its own root onto an array or object closes a cycle |
| `JsonBuilder.Merge.Tangles` | json-builder.c:436-452 | A merge of an object that has a parent leaves a freed child; a merge of the own root closes a cycle |
| `JsonSort.GatherOn` | json-builder.c:388-402 | Each comparison of a round keeps what it has gathered; an index beyond the last entry means that the name was among those before |
| `JsonSort.Round` | json-builder.c:388-402 | One round gathers the entries of one name behind those of earlier rounds, or runs beyond the last entry, exactly when the name was gathered before |
| `JsonSort.UnderwayFails` | json-builder.c:383-403 | A round that fails has a name that comes twice in the prototype, also when the object is its own prototype |
| `JsonSort.Shuffle.Settled` | json-builder.c:398-399 | Swapping entries leaves a valid forest and no other tree changed |
| `JsonSort.ObjectSort` | json-builder.c:373-404 | Sorting stays within the entries if and only if no name of the object comes twice in the prototype; then the entries stand in its order with all others behind; in any case each value keeps its name and no entry is lost |
| `JsonSort.TwiceFails` | json-builder.c:383-403 | An object with the name a and a prototype that has it twice fail the condition |
| `JsonSort.OrderExact` | json-builder.h:91-94 | When no name comes twice, sorted names begin with those of the prototype that the object has, one by one in its order, and no other name of it follows |
| `JsonDestructor.TreeIsUnder` | json-builder.c:929-988 | All nodes of a tree hang below its root |
| `JsonDestructor.RestIsForest` | json-builder.c:929-988 | What is not below a freed root is a forest of its own |
| `JsonDestructor.Walk.FreedDown` | json-builder.c:950-973 | Detaching a child frees exactly the name of its entry |
| `JsonDestructor.Walk.FreedUp` | json-builder.c:944-986 | An exhausted node gives back exactly its own blocks |
| `JsonDestructor.Walk.NoneLeft` | json-builder.c:938-987 | When no node is open, none is left |
| `JsonDestructor.BlocksExact` | json-builder.c:929-988 | The blocks of a set of nodes: each node, the values of arrays and objects, the characters of strings, and the name of each entry |
| `JsonDestructor.UnderExact` | json-builder.c:929-988 | A node is below another exactly if a way up over parents leads there |
| `JsonDestructor.BuilderFree` | json-builder.c:929-988 | The iterative destructor ends; it frees every node, values array, string and name below the root, each exactly once and none after its node, and nothing else |
| `GetoptSpec.MatchUnique` | compat/getopt.c:446-462 | Exact name before unambiguous abbreviation: this determines the long option |
| `GetoptSpec.LongMatch` | compat/getopt.c:446-462 | There always is such an answer |
| `GetoptSpec.OneCallMoves` | compat/getopt.c:329-615 | A call stays within the arguments, and reads on |
| `GetoptSpec.EofEnds` | compat/getopt.c:403-409 | EOF is returned exactly at the end of the scan |
| `GetoptSpec.PickPermutes` | compat/getopt.c:234-271 | Options and other arguments together are the arguments |
| `Getopt.Reverse` | compat/getopt.c:238-247 | Each loop of the exchange reverses its range in place |
| `Getopt.ThreeReversals` | compat/getopt.c:238-270 | Reversing all and then each part exchanges the parts |
| `Getopt.Scanner.Exchange` | compat/getopt.c:234-271 | The two groups trade places, each in its own order |
| `Getopt.LayoutExchange` | compat/getopt.c:365-368 | The exchange keeps the layout of options, skipped non-options, newer options and rest |
| `Getopt.LayoutRead` | compat/getopt.c:373-380 | Reading on keeps the layout |
| `Getopt.Scanner.SkipNonOptions` | compat/getopt.c:361-381 | In PERMUTE mode: options move in front of the skipped non-options, and the group grows |
| `Getopt.Scanner.EndOfOptions` | compat/getopt.c:388-398 | -- moves in front like an option, everything behind it is skipped like a non-option |
| `Getopt.Scanner.FindLong` | compat/getopt.c:446-471 | The loop over the long options finds what MatchUnique determines |
| `Getopt.Scanner.DecodeNext` | compat/getopt.c:431-614 | One option is decoded, with its argument or error |
| `Getopt.Scanner.ShortOption` | compat/getopt.c:546-614 | Letters with no, optional or required argument |
| `Getopt.Scanner.FoundLong` | compat/getopt.c:473-518 | Arguments of long options |
| `Getopt.Scanner.GetOpt` | compat/getopt.c:329-615 | Every call answers what reading the original arguments from left to right gives, and keeps the layout; at EOF the options stand in front of optind and everything else behind it, each in original order |
| `Getopt.Scanner.Again` | compat/getopt.c:329-615 | One more call after EOF: when no group of non-options is left, it returns EOF and leaves arguments and optind alone; otherwise it turns around as many elements in front of the group as the group has, counts them as non-options, and goes on with the group, so that without a -- it returns EOF with optind moved back over them |
| `Getopt.ReadAll` | lspcie.c:1174-1174 | The loop of a program ends; the answers are those of the original order, argv is permuted as getopt.h promises, with optind at the non-options |
| `GetoptInverse.RunBack` | compat/getopt.c:329-615 | A run over a command line rendered from what a user means by it (clusters of letters, known or not, the last one with an attached, a separate, no optional or no required argument; long options by name or abbreviation, with and without arguments, unknown, ambiguous or refusing theirs; operands; a double dash) answers exactly those options with those arguments, and an error exactly where one is meant |
| `GetoptInverse.ReadLine` | lspcie.c:1174-1174 | After the loop of a program over such a line, its options with their separate arguments stand in front of optind, and its operands, with everything behind a double dash, from there on |
| `GetoptInverse.Lookup` | compat/getopt.c:546-571 | A letter takes the argument that the option string says by its colons |
| `GetoptMode.ModeCharacter` | compat/getopt.c:348-353 | All runs are those in which every call skips the mode character if and only if the character means the same with and without itself in front, and no option can miss its argument when a colon follows; with long_only, if and only if no element can show the difference, which says which letters are reached in front of others and which at the end of an element |
| `GetoptMode.HarmlessAgrees` | compat/getopt.c:348-353 | For given arguments it is also enough that the character stands in no option element |
| `GetoptMode.PlusIsFound` | compat/getopt.c:547-571 | With the option string +a, the plus in -a+ is answered as an option |
| `GetoptMode.ColonIsHidden` | compat/getopt.c:601-605 | With the option string +:a:, a missing argument is answered with 0 by the second call |
| `BusScan.AllMarked` | lib/generic.c:13-75 | When all scans are over, every bus that can be reached is marked |
| `BusScan.CameBack` | lib/generic.c:52-59 | What is scanned behind a bridge does not disturb the bus it stands on |
| `BusScan.OthersSilent` | lib/generic.c:32-41 | Without several functions, none but function 0 answers |
| `BusScan.ScanFunction` | lib/generic.c:34-62 | A function that is there is listed once, and a bridge is followed |
| `BusScan.ScanDev` | lib/generic.c:28-64 | All functions of a device that answer are listed |
| `BusScan.ScanBus` | lib/generic.c:13-66 | A bus seen before is ignored; any other is covered, with everything behind its bridges |
| `BusScan.Scan` | lib/generic.c:68-75 | The scan ends on every configuration, also cyclic ones; it marks exactly the buses reachable from bus 0 through present bridges, and lists each responding function on them exactly once, with its registers |
| `BusMachine.SeenIdentified` | lib/generic.c:39-62 | What is read of a function laid out as bytes: its vendor, device, header type, whether there are several functions, and the bus behind it if it is a PCI or CardBus bridge |
| `BusMachine.SeenAnswers` | lib/generic.c:32-48 | The functions found on a bus are those that stand in the machine, function 0 or beside one that says there are several |
| `BusMachine.ReachedExactly` | lib/generic.c:52-59 | The buses reached are bus 0 and those behind chains of bridges of either kind |
| `BusMachine.ScanMachine` | lib/generic.c:13-75 | Of a described machine the scan marks exactly these buses, and lists exactly the functions there that answer, each once with its own vendor, device and header type |
| `BlockSplit.GreedyCovers` | lib/generic.c:182-213 | The split is a partition of the block into aligned accesses of 1, 2 or 4 bytes, in order |
| `BlockSplit.Fewest` | lib/generic.c:182-213 | No other aligned split has fewer accesses |
| `BlockSplit.BlockOp` | lib/generic.c:182-213 | The accesses made are those of the split, up to the first that fails, each from or to its place in the buffer: after success buffer and block hold the same bytes, after a failure those in front of the access that failed do, and nothing else has changed |
| `BlockSplit.AllMoved` | lib/generic.c:182-213 | After success byte i of the buffer is byte start + i of the block: that of the space when it is read, that of the buffer when it is written |
| `BusMap.MapBridge` | ls-map.c:28-50 | A bridge is put in front of its list, and a range that is upside down is put right |
| `BusMap.CanEnter` | ls-map.c:114-118 | A bridge to a new bus inside the range can be entered |
| `BusMap.Flagged` | ls-map.c:110-113 | Otherwise the bug says why not |
| `BusMap.DoMapBridges` | ls-map.c:101-120 | A visit ends, settles every bridge of its bus in turn, and leaves alone what was visited before |
| `BusMap.TellFlagged` | ls-map.c:110-113 | A bridge flagged now leads to a bus visited earlier, or else out of range, and no visit is made |
| `BusMap.TellEntered` | ls-map.c:114-118 | The next visit is that of the bus behind the bridge, and the next bridge is looked at when it is over |
| `BusMap.NextRoot` | ls-map.c:128-130 | A root is the first present bus that no earlier visit has entered |
| `BusMap.MapBridges` | ls-map.c:122-130 | Every present bus is entered exactly once, no bus twice; the entered bridges form a forest, each within the range its own bus was entered with. Roots come in the order of their numbers and bridges in that of their lists; a bridge to a bus visited before that has bug 1, any other out of range bug 2, and all others are entered |
| `BusMap.RangesNest` | ls-map.c:101-120 | Along the via links ranges only shrink, and no bus comes twice |
| `BusTidy.NoBugs` | ls-map.c:101-130 | When bridges stand on buses that are there and lead upward: none gets a bug if and only if no two lead to the same bus and none goes on beyond the one in front of it; each of the two kinds of bug is found only if its own condition fails |
| `BusTidy.MapUpward` | ls-map.c:122-130 | So it is for the table before, read off its registers alone; a bridge has no bug exactly if its bus is entered through it, and of two bridges on one bus that lead to the same bus the second has bug 1, unless the first is out of range |
| `Capabilities.ChainUnique` | lib/caps.c:31-81 | The entries of a chain are determined: in order, up to the first zero pointer, repetition or missing entry |
| `Capabilities.Quads` | lib/caps.c:43-53 | At most 63 or 1023 entries fit |
| `Capabilities.Device.ScanTradCaps` | lib/caps.c:31-54 | Appends exactly the entries of the traditional chain, at most 63, also when it is cyclic |
| `Capabilities.Device.ScanExtCaps` | lib/caps.c:56-81 | Appends exactly the entries of the extended chain, at most 1023, when there is an Express capability |
| `Capabilities.Device.FindCapNr` | lib/caps.c:123-147 | The n-th match in the list, and the number of matches |
| `Capabilities.MatchesExact` | lib/caps.c:134-142 | The matches are the capabilities of this identifier and type |
| `CapMachine.HeaderParts` | lib/caps.c:63-80 | Identifier and next address of a header that is laid out with 16, 4 and 12 bits |
| `CapMachine.PlainChain` | lib/caps.c:31-54 | The entries of a traditional list laid out in bytes are its chain, in order |
| `CapMachine.WideChain` | lib/caps.c:56-81 | So are those of an extended list |
| `CapMachine.ScanLists` | lib/caps.c:31-81 | The capabilities found are exactly those laid out, in order: the traditional ones and, when PCI Express with identifier 16 is among them, the extended ones |
| `ConfigCache.Device.Trim` | lspcie.c:105-110 | What is left to read is the gap of the range |
| `ConfigCache.GapEnds` | lspcie.c:105-110 | The gap begins with the first missing byte of the range and ends with the last; it is empty exactly when none is missing |
| `ConfigCache.Device.Grow` | lspcie.c:112-120 | The size doubles until the range fits; nothing new is present |
| `ConfigCache.Device.ConfigFetch` | lspcie.c:99-125 | Present bytes are those of the device. Without a missing byte nothing is read; otherwise exactly one read is made, of the gap, its outcome is the result, and the range becomes present exactly when it succeeds |
| `ConfigCache.Device.CheckConfRange` | lspcie.c:179-187 | Only bytes that are present may be used |
| `ConfigCache.Device.GetConfWord` | lspcie.c:196-201 | The little-endian word of the device |
| `ConfigCache.Device.GetConfLong` | lspcie.c:203-211 | The little-endian long word of the device |
| `ConfigCache.Device.ScanDevice` | lspcie.c:127-161 | The header is read; 64 bytes more are there exactly for CardBus bridges whose second read succeeds |
| `ConfigCache.Device.HexCount` | lspcie.c:907-913 | How many bytes there are to show, by the option, what is present and what the device gives |
| `ConfigCache.Device.ShowHexDump` | lspcie.c:902-923 | The dump shows the bytes of the device, 16 in a row: 256 or 4096 of them exactly when the option asks for them and the reads succeed, otherwise those of the header |
| `ConfigCache.DumpDevice` | lspcie.c:127-161 | Of a device with so many bytes 64 are shown, 128 for CardBus bridges, 256 with the option three times, 4096 with it four times, where it has them |
| `DumpReader.Validate` | lib/dump.c:44-54 | A format is checked character by character |
| `DumpReader.Device.StoreByte` | lib/dump.c:105-114 | A byte beyond the first 256 exchanges the buffer for one of 4096 and keeps the bytes |
| `DumpReader.Device.TakeRow` | lib/dump.c:95-124 | The bytes of a row go to their offsets; anything else is an error |
| `DumpReader.Access.Take` | lib/dump.c:77-124 | A line begins a device, ends one, belongs to one, or is ignored |
| `DumpReader.Access.Init` | lib/dump.c:56-127 | The whole file, line by line; no two devices share a buffer |
| `DumpReader.Device.Read` | lib/dump.c:139-156 | Reading succeeds exactly within the bytes given |
| `DumpReader.Access.ReadAt` | lib/dump.c:139-156 | A device that is not of the dump reads from the newest one at its address |
| `DumpInverse.PrintedIsRows` | lspcie.c:915-922 | The printing loop writes rows of 16 bytes |
| `DumpInverse.RowPlaces` | lspcie.c:915-922 | Each byte of a row takes three places: a blank and its digits, the higher one first |
| `DumpInverse.StoreNext` | lib/dump.c:105-114 | One more byte, also across the exchange of the buffer |
| `DumpInverse.RowBack` | lib/dump.c:96-118 | The bytes of a printed row are read behind those before |
| `DumpInverse.SlotBack` | lib/dump.c:82-88 | A printed slot name is read back, with and without domain |
| `DumpInverse.DumpBack` | lib/dump.c:56-127 | Any number of printed devices, with any descriptions, is read back to the same addresses and bytes if and only if every slot line fits the line buffer; otherwise the reader ends with its error for unterminated lines |
| `DumpInverse.ReadBack` | lib/dump.c:139-156 | From what is read back, reading succeeds exactly within the printed bytes, and gives them |
| `IdAlloc.BucketAlign` | lib/names-hash.c:28-28 | The rounding always moves on to a multiple of the alignment |
| `IdAlloc.Allocator.Alloc` | lib/names-hash.c:28-51 | Blocks are aligned and pairwise apart; a block lies inside its bucket exactly when its size fits a fresh one |
| `IdAlloc.LargestFit` | lib/names-hash.c:41-50 | 8168 bytes fit a bucket, and a block of 8169 ends outside of it |
| `IdHash.Table.Insert` | lib/names-hash.c:61-83 | The table refines a finite map: a key that is there is refused whatever its source, a new one is added, no other changes |
| `IdHash.Table.Lookup` | lib/names-hash.c:85-115 | The name stored under the key, exactly when its source is visible under the flags |
| `IdHash.ChainGrows` | lib/names-hash.c:80-81 | A new entry keeps every chain exact |
| `IdList.IdHex` | lib/names-parse.c:60-77 | Hexadecimal numbers of a fixed width, -1 for anything else |
| `Hex.HexBack` | lib/names-parse.c:60-77 | Printed digits are read back |
| `Hex.DigitExact` | lib/json-parser.c:57-71 | The digits are the sixteen with their values, in small and capital letters, and no other character is one |
| `Hex.HexTextAt` | lspcie.c:915-922 | Digits stand from the most significant on |
| `IdList.LineLength` | lib/names-parse.c:95-102 | What fgets reads of a line |
| `IdList.TakeLine` | lib/names-parse.c:97-211 | One line: ignored, a section, an entry, or an error |
| `IdList.ParseList` | lib/names-parse.c:85-214 | The whole file: the table holds what its lines say, up to the first error |
| `IdPrint.LineBack` | pci.ids.5:52-84 | Each line in the documented format is read back in its place |
| `IdInverse.ItemsChain` | pci.ids.5:57-81 | In a database every line stands in the section and entry it belongs to |
| `IdInverse.LinesLoad` | lib/names-parse.c:107-111 | Comments and blank lines do not matter |
| `IdInverse.FileLines` | lib/names-parse.c:95-105 | A file is its lines, each with either line end, the last one also without |
| `IdInverse.LoadExact` | lib/names-parse.c:131-211 | Loading succeeds exactly when no identifier comes twice and each generic section is for a vendor named before; then it names all items |
| `IdInverse.NamesExact` | lib/names-hash.c:85-115 | Exactly the entries of the database are named |
| `IdInverse.ListInverse` | pci.ids.5:52-84 | A file with the lines of a database, among comments, with any gaps and line ends and with or without an end of the last line, loads if and only if the database is consistent, and then the names are exactly those of the database |
| `IdInverse.LoadNameList` | lib/names-parse.c:216-234 | Loading starts from an empty table |
| `IdDatabase.NamesSay` | pci.ids.5:52-84 | An entry is named in a loaded table exactly when its section says so |
| `IdDatabase.LoadAndLookup` | lib/names-parse.c:216-234 | After loading a documented file, a lookup gives the name that the database says for these identifiers, unless local entries are to be skipped, and nothing for any others |
| `IdDatabase.ShownVisible` | lib/names-hash.c:92-108 | Which sources the four flags show: local entries unless they are skipped, those of the hardware database unless these or they are, and those of the network and of the cache exactly when asked for |
| `IdDatabase.InsertAndLookup` | lib/names-hash.c:85-115 | An entry from any source is found exactly when the flags show its source |
| `DmiTable.DmiString` | dmi_phy_slots/dmi_phy_slots.c:35-61 | String number n of a structure, filtered in place; only bytes of its strings change, and no zero among them |
| `DmiTable.DmiDecode` | dmi_phy_slots/dmi_phy_slots.c:83-96 | The item of a slot structure, by its length |
| `DmiTable.StructureSame` | dmi_phy_slots/dmi_phy_slots.c:99-166 | A structure reads the same after filtering before it |
| `DmiTable.TableDecode` | dmi_phy_slots/dmi_phy_slots.c:99-166 | On every table the walk stays inside, takes one structure at a time, and gives the slots of the table as it was before filtering |
| `DmiInverse.TailBack` | dmi_phy_slots/dmi_phy_slots.c:132-137 | The end of the strings is found, and nothing before it is taken for it |
| `DmiInverse.StringBack` | dmi_phy_slots/dmi_phy_slots.c:43-60 | Strings are found by their numbers |
| `DmiInverse.StructureBack` | dmi_phy_slots/dmi_phy_slots.c:113-164 | An encoded structure is read back |
| `DmiInverse.RecordsBack` | dmi_phy_slots/dmi_phy_slots.c:99-166 | A table laid out as section 6.1.3 of DSP0134 says is walked record by record, for every count and with or without the end marker |
| `DmiInverse.MeaningBack` | dmi_phy_slots/dmi_phy_slots.c:63-96 | An address laid out as segment, bus, and 8 * device + function in one byte is read as these numbers, and four bytes of ones as none; a designation is shown byte by byte where it is from 32 to 126, and as points elsewhere |
| `DmiInverse.TableInverse` | dmi_phy_slots/dmi_phy_slots.c:99-166 | A table laid out from slots with designation, segment, bus, device and function, and from other structures, decodes to exactly what its slots say, in order |
| `DnsPacket.State.DnsSkipName` | lib/names-net.c:60-81 | Skipping a name, with labels and pointers |
| `DnsPacket.NameWithin` | lib/names-net.c:60-81 | A name that ends before another end is the same with that end |
| `DnsPacket.State.ParsePacket` | lib/names-net.c:83-127 | A packet is accepted exactly when it is well-formed, and its sections are noted |
| `DnsPacket.State.ParseRr` | lib/names-net.c:136-157 | One record, the end of the section, or an error, with the fields read before it |
| `DnsPacket.RecordWithin` | lib/names-net.c:136-157 | A record reads the same up to the end of its section as up to the end of the packet |
| `DnsPacket.State.ReadSection` | lib/names-net.c:129-157 | Any section but the questions of an accepted packet gives as many records as the header says, each with its data inside the section, never an error, and stops at its end |
| `DnsInverse.LabelsBack` | lib/names-net.c:60-81 | An encoded name is skipped as a whole |
| `DnsInverse.ResourceBack` | lib/names-net.c:136-157 | An encoded record is read back |
| `DnsInverse.MessageBack` | lib/names-net.c:83-127 | A message laid out as section 4.1 of RFC 1035 says is accepted, and its sections read back as the records it was made of |
| `DnsInverse.AcceptsExactly` | lib/names-net.c:83-127 | A packet is accepted if and only if it is such a message, perhaps with something behind it |

## Left out

JSON:

- The numbers that doubles stand for: their printing (`%g`) and reading (`pow`) are floating point. A double is what `%g` prints of it when it is measured and written, and nothing is known of one that was read; `JsonPrinter.RoundTrip` is about trees without doubles.
- `INT64_MIN`: the serializer negates it, which overflows.
- Line and column numbers, texts of error messages, `max_memory` and failing allocation: the model accepts or rejects.
- JsonLayout.TextLaid: takes for a double what `%g` can print, digits, small letters, signs, a point and at most one comma.
- JsonStray.NoScalar: says nothing of what stands directly behind a number and could go on with it, or of characters behind NUL, at which the source stops reading.
- Sizes beyond the width of `values_size`: the sum of entry sizes is unbounded here.
- Reading past the end of the text: it is followed by NUL, which the look-ahead for words may read in the source.
- Freeing of parser values (`json_value_free_ex`), and parser values handed to the builder (`builderize`).
- JsonSort.ObjectSort: stops where the second index would go beyond the last entry, and does not say in which order the entries not in the prototype follow.

Topology and configuration space:

- `PCI_FILL_RESCAN` and the calls that scan capabilities on demand; capability claims are per scan.
- Capabilities.Device.FindCapNr: searches the list as it is, without the scan that the source may run first.
- Devices whose registers change between two reads.
- `do_map_bus`, `map_the_bus` (which hands it the address of its counter) and the printing in `map_bridges`: input and output. The bus map starts from a table filled by `map_bridge` with no bug set; the source does not initialise that field.
- `grow_tree` and the display of trees, tables and capabilities.
- Back-ends, sysfs, libkmod, hwdb, filters of the command line, and option handling in `main`.

Identifiers, dumps, network, SMBIOS, options:

- The caches and the network lookup behind the identifier table, and compressed lists. Entries of any source can be inserted, and lookups respect the flags.
- Line numbers of errors in the list, and I/O errors.
- The TXT records searched by `pci_id_net_lookup`, and the resolver.
- DmiInverse.TableInverse: the last address of all (segment 65535, bus 255, device 31, function 7) has the bytes that stand for no address.
- The entry points of SMBIOS, their checksums, and where the table comes from.
- DumpReader.Access.Take: after an error in a row says nothing about the bytes stored before it; the program ends there.
- The path of parent bridges that can stand before a slot name in a dump.
- Getopt.Scanner.Again: says nothing about a group of non-options that has as many elements as stand in front of it, with the program name, or more: the exchange then reaches the program name or elements in front of the array. Nor about a group that a -- has left in the other two modes.
- GetoptInverse.RunBack: does not cover letters of `getopt_long_only`, which are tried as long options first; `Getopt.ReadAll` does.
- Messages of getopt, and options introduced by a plus sign, which are not compiled in.
