# Verification of the web server's parsers and of the algorithms in its test library

This project models the two parsers of the server and the algorithmic parts of the Google Test
1.7.0 tree that is kept with it, and proves what they are for. Run `dafny verify dfyconfig.toml`
to check it.

| files | what they model |
|---|---|
| `ConfigLexer`, `ConfigSyntax`, `ConfigGrammar`, `ConfigRoundTrip`, `ConfigText`, `ConfigParser` | the nginx-style configuration: `ParseToken` over a stream with `unget`, the pretty-printer, the parser as a stack machine over tokens and over heap objects, the round trip of text and tree, and config text spelled out character by character |
| `Runs`, `RequestGrammar`, `RequestMachine`, `RequestParserClass`, `RequestDraft`, `RequestLanguage`, `RequestText` | the HTTP request state machine with its driver loop, the grammar that it recognises, and its requests spelled out byte by byte |
| `RegexSyntax`, `RegexSemantics`, `RegexMatcher`, `RegexFull`, `RegexClasses` | the simple regular expressions: validator, backtracking matcher, full-match rewriting, the languages they are about, and what each atom matches |
| `LinkedPtrSpec`, `LinkedPtrHistory`, `LinkedPtrHeap` | `linked_ptr`: the circular lists on the heap, who owns what over a run, and where it came from |
| `DeathTestProtocol`, `DeathTestObject`, `DeathTestFlag` | a death test: parent, child and pipe as a system of interleaved steps with interrupted and failing calls, the methods of the two sides, and the flag passed to a child |
| `Filters`, `FilterMeaning`, `Splitting`, `CommandLine`, `Flags`, `FlagValues` | glob filters, splitting at delimiters, taking flags out of the argument vector, which arguments are flags, and what they say character by character |
| `Shuffle`, `Generator`, `Arrangement`, `TestObjects`, `Rounds`, `Registration`, `Sharding`, `Execution`, `Program` | registration of tests, the random numbers and shuffling, sharding, and which tests the rounds of a whole program start |
| `WideToUtf8`, `Utf8Bits`, `LiteralPrinter`, `XmlOutput`, `Digits` | output that can be read back: UTF-8, C++ string literals, XML |
| `FloatingPoint`, `FloatBits` | comparison of floating-point numbers in units in the last place, on numbers and on bits |
| `BitNumbers` | bit patterns and the numbers that they stand for |
| `Basics` | an option type, C strings, division |

How the models are built:

* Code that changes state is a class or a method with a loop. It is tied by its postconditions to
  a function of its inputs, and the theorems are about that function. Where the heap code needs
  one, a ghost argument is the value that the heap holds (`v`, `st`, `lists`, `r`).
* A byte is a Dafny `char`; codes from 128 on are the negative values of a plain `char`. The end of
  a Dafny string stands for the NUL of a C string, except in `RegexFull` and `WideToUtf8`, where
  buffers are filled and ended by a NUL, and in `DeathTestFlag`, where a `std::string` is cut at one.
* A failed `GTEST_CHECK_` ends the program, so what it checks is a precondition.
* The parsers also accept things that their authors may not have meant. The model keeps them:
  `'\r'` does not end a plain token because the code tests for a tab twice; a plain word that the
  end of the file cuts off is dropped; blocks that are still open at the end of the file are
  accepted; one closing brace too many is accepted if only blanks and comments follow. When the
  stack is empty and its top is used, the model ends with the outcome `UndefinedBehaviour`;
  `UndefinedIff` says exactly when.

## Model

| member | source | states |
|---|---|---|
| ConfigLexer.ParseToken | config_parser.cc:67-166 | the loop with its state, its counter of backslashes and its `unget` returns the token, the text and the remaining input that a recursive scanner defines, for every input |
| ConfigLexer.ResumeIsLex | config_parser.cc:72-157 | the five-state tokenizer, resumed from any state with any text gathered, continues to the same token as the scanner that looks ahead |
| ConfigLexer.LexedIsLexable | config_parser.cc:111-155 | every normal token is plain, without delimiters, or quoted with its inner quotes escaped and its last quote not |
| ConfigLexer.LexableLexes | config_parser.cc:111-155 | such a word followed by a delimiter is scanned back as exactly that word |
| ConfigLexer.InputStream.Get | config_parser.cc:72-76 | reads one character; at the end it fails and the stream is no longer good |
| ConfigLexer.InputStream.Unget | config_parser.cc:148-152 | puts the character back, so that it is read again |
| ConfigParser.NginxConfig.ToString | config_parser.cc:20-26 | the text of a heap of statements is the printed form of the tree it holds |
| ConfigParser.NginxConfigStatement.ToString | config_parser.cc:28-51 | the same for one statement, with its indentation and its block at the next depth |
| ConfigSyntax.PrintReads | config_parser.cc:20-51 | printed statements tokenize to exactly the tokens of the statements, at every depth, and leave what follows |
| ConfigSyntax.IndentIs | config_parser.cc:28-32 | two blanks for each level, none below the first |
| ConfigSyntax.PrintedExample | config_parser.cc:28-51 | a block with one statement, as it is printed |
| ConfigParser.ConfigStack.constructor | config_parser.cc:169-171 | the stack starts with the root alone |
| ConfigParser.ConfigStack.NewStatement | config_parser.cc:195-200 | a new statement on the top block is the step of the machine, and the heap shape is kept |
| ConfigParser.ConfigStack.AddToken | config_parser.cc:199-200 | a further word goes to the last statement of the top block, which exists |
| ConfigParser.ConfigStack.OpenBlock | config_parser.cc:215-218 | the new block becomes the child of the last statement of the block below it, which had none |
| ConfigParser.ConfigStack.CloseBlock | config_parser.cc:219-224 | popping is the step that closes the innermost block |
| ConfigParser.ConfigStack.Take | config_parser.cc:189-236 | every token changes heap and stack as the machine does, with the same status, so each stack entry stays the child block of the last statement of the entry below |
| ConfigParser.Turn | config_parser.cc:173-237 | one turn of the loop uses up input, `unget` included, and leads to the same result as the rest of the parse |
| ConfigParser.Parse | config_parser.cc:168-243 | whatever the configuration object held before, the result is that of the grammar, and the object then owns exactly the tree of the grammar, appended to what it held |
| ConfigParser.ConfigStack.RootOwnsTree | config_parser.cc:168-243 | whenever parsing stops, the root holds the tree built so far, open blocks included |
| ConfigGrammar.RunWritten | config_parser.cc:168-243 | at every step, what the stack holds writes back exactly the tokens taken so far |
| ConfigGrammar.AcceptsIffSpells | config_parser.cc:205-231 | the parser accepts tokens with a given tree if and only if the tree is not empty, has only non-empty blocks and words, and the tokens are those of the tree, possibly without the last closing braces or with one brace too many |
| ConfigGrammar.PoppedIffOverClosed | config_parser.cc:219-224 | the root is popped exactly when the tokens so far are a complete tree and one more closing brace |
| ConfigGrammar.UndefinedIff | config_parser.cc:195-224 | the empty stack is used exactly when a word or another closing brace follows such a prefix |
| ConfigRoundTrip.AcceptedIsPrintable | config_parser.cc:168-243 | every accepted text gives a tree that is well-formed for printing |
| ConfigRoundTrip.PrintThenParse | config_parser.cc:20-243 | printing a tree at any depth and parsing it gives the same tree if and only if the tree is printable: not empty, no empty block or statement, all words lexable |
| ConfigRoundTrip.ParsePrintParse | config_parser.cc:20-243 | for every accepted text, printing its tree and parsing again gives the same result |
| ConfigRoundTrip.ParseIntoAppends | config_parser.cc:168-243 | parsing into an object that already has statements appends, with the same outcome |
| ConfigText.SameChars | config_parser.cc:101-150 | the blanks, the quotes, the eight characters that end a plain word and the two that end a comment |
| ConfigText.RemarkLexes | config_parser.cc:141-146 | a comment ends at the first newline or carriage return, whatever follows |
| ConfigText.OpenRemarkReads | config_parser.cc:141-166 | a comment that the input ends in is dropped, and the end is clean |
| ConfigText.PieceReads | config_parser.cc:72-157 | what each piece of text gives before any text that may follow it: blanks and comments nothing, a brace or a semicolon its token, a word itself, with its quotes if it has any |
| ConfigText.TokensOfText | config_parser.cc:67-166 | a text spelled out as blanks, punctuation, comments, quoted and plain words has the tokens of these pieces, and its end is clean unless a quote is open |
| ConfigText.EveryText | config_parser.cc:67-166 | every string is such a text |
| ConfigText.TokenizeIff | config_parser.cc:67-166 | so a string has the given tokens if and only if it can be spelled out in pieces with these tokens |
| ConfigText.ParseMeans | config_parser.cc:168-243 | a text is accepted with a tree if and only if no quote is open at its end and its pieces spell the tree |
| ConfigText.CommentChangesNothing | config_parser.cc:184-187 | a comment line or a blank put anywhere but right behind a plain word changes neither outcome nor tree |
| RequestParserClass.RequestParser.ConsumeByte | request_parser.cc:17-285 | one byte changes state and request as the transition table says, and a rejected byte changes nothing; `headers_.back()` is always defined |
| RequestParserClass.RequestParser.ParseData | request_handler.h:120-132 | the loop over a buffer gives the verdict, the state, the request and the number of bytes consumed of the run, for any start in which `headers_.back()` is defined |
| RequestParserClass.RequestParser.Reset | request_parser.cc:12-15 | goes back to the start state only |
| RequestMachine.ParseIsIncremental | request_handler.h:120-132 | parsing a first part and then, if indeterminate, a second part gives the same verdict, state, request and total consumed as one call on both |
| Runs.DriveIsIncremental | request_handler.h:120-132 | the same for every machine driven a byte at a time |
| Runs.FollowDrives | request_handler.h:120-132 | a machine that refuses bytes is driven on exactly while its path goes on |
| RequestDraft.EveryByteSteps | request_parser.cc:17-285 | from every state with a draft in order (`uri_start` never has one), whenever a byte is accepted the next draft is in order, has written that one byte more, and describes the request that the machine then holds |
| RequestLanguage.Sound | request_parser.cc:17-285 | accepted bytes have a derivation, and method, URI and unfolded headers are the ones it gives |
| RequestLanguage.Complete | request_parser.cc:17-285 | every derivable text is accepted after its last byte, whatever follows, with the request it derives |
| RequestLanguage.AcceptsIffDerivable | request_parser.cc:17-285 | parsing returns true after n bytes if and only if the first n bytes are derivable |
| RequestLanguage.PrefixFree | request_parser.cc:270-285 | no derivable text is a proper prefix of another, and a text has one derivation |
| RequestLanguage.ExtendsToText | request_parser.cc:17-285 | whatever is indeterminate can be completed to a request |
| RequestLanguage.IndeterminateIffViable | request_parser.cc:17-285 | indeterminate if and only if the input is a proper beginning of some derivable text |
| RequestLanguage.FailsAtFirstBadByte | request_parser.cc:17-285 | a rejection comes at the first byte after which no derivable text is possible, not later and not earlier |
| RequestLanguage.PrefixVerdict | request_handler.h:124-129 | a verdict depends on the consumed bytes only |
| RequestText.TokenChars | request_parser.cc:287-309 | a method or a header name consists of letters, digits and the fifteen marks that are not special |
| RequestText.SpecialChars | request_parser.cc:297-309 | the nineteen special characters |
| RequestText.OtherChars | request_parser.cc:292-295 | the codes of control characters, of blanks and of what a URI may hold |
| RequestText.RequestIsAccepted | request_parser.cc:17-285 | every request line with headers and folded lines, spelled out byte by byte in these codes, is accepted after its last byte with its method, its URI and its unfolded headers, whatever follows |
| RequestText.AcceptedIsRequest | request_parser.cc:17-285 | and nothing else is accepted |
| RequestText.BeforeUri | request_parser.cc:47-57 | what the branch of `uri_start` does with every byte |
| RegexSyntax.ValidateRegex | gtest-1.7.0/src/gtest-port.cc:257-311 | the loop with its flags accepts exactly what a one-character-ahead scan does, and no null pointer |
| RegexSyntax.ValidIffGrammar | gtest-1.7.0/src/gtest-port.cc:266-310 | the scan accepts exactly the texts of the grammar: an optional `^`, atoms each with an optional `?`, `*` or `+`, an optional `$` |
| RegexMatcher.MatchRepetitionAndRegexAtHead | gtest-1.7.0/src/gtest-port.cc:320-342 | finds a repetition that leaves a match for the rest exactly when some prefix is in the language |
| RegexMatcher.MatchRegexAtHead | gtest-1.7.0/src/gtest-port.cc:347-373 | true exactly when some prefix of the string, all of it before `$`, is in the language; the mutual recursion ends with the regex |
| RegexMatcher.MatchRegexAnywhere | gtest-1.7.0/src/gtest-port.cc:383-396 | true exactly when some substring, anchored as demanded, is in the language; false for null pointers |
| RegexMatcher.TextUnique | gtest-1.7.0/src/gtest-port.cc:266-310 | a valid pattern has one reading only |
| RegexSemantics.MatchesIsHead | gtest-1.7.0/src/gtest-port.cc:390-395 | a match anywhere is a match at the head of some end of the string |
| RegexSemantics.HeadSplits | gtest-1.7.0/src/gtest-port.cc:329-341 | a match at the head is one for some number of repetitions that the first item admits |
| RegexClasses.PlainAtoms | gtest-1.7.0/src/gtest-port.cc:246 | a plain character matches itself, and the dot all but the newline |
| RegexClasses.ClassAtoms | gtest-1.7.0/src/gtest-port.cc:231-237 | `\d` is the ten digits, `\s` the six blanks, and `\D` and `\S` are all others |
| RegexClasses.WordAtoms | gtest-1.7.0/src/gtest-port.cc:239-240 | `\w` is letters, digits and the underscore, and `\W` all others |
| RegexClasses.CodeAtoms | gtest-1.7.0/src/gtest-port.cc:233-238 | the five escapes of single codes |
| RegexClasses.EscapedAtoms | gtest-1.7.0/src/gtest-port.cc:243 | any other escaped character is a punctuation mark that matches itself |
| RegexClasses.ValidAtoms | gtest-1.7.0/src/gtest-port.cc:210-225 | which characters may stand in a valid pattern plainly, and which after a backslash |
| RegexClasses.Written | gtest-1.7.0/src/gtest-port.cc:266-310 | the marks of the repetitions, of escapes and of the anchors |
| RegexClasses.RepeatedAtom | gtest-1.7.0/src/gtest-port.cc:320-342 | a repeated atom matches the words of as many characters as its mark says, each in its class |
| RegexClasses.ItemsInARow | gtest-1.7.0/src/gtest-port.cc:347-373 | items in a row match a word of the first followed by a word of the others |
| RegexClasses.AnchorsMean | gtest-1.7.0/src/gtest-port.cc:383-396 | with both anchors the whole string is in the language, with one its beginning or its end, with none some part of it |
| RegexClasses.OneAtomFound | gtest-1.7.0/src/gtest-port.cc:383-396 | a pattern of one atom is found exactly in the strings with a character of its class |
| RegexFull.BuildFullPattern | gtest-1.7.0/src/gtest-port.cc:429-447 | the buffer of length + 3 bytes is filled within its bounds and holds the full pattern, ended by NUL |
| RegexFull.FullPatternIsRegex | gtest-1.7.0/src/gtest-port.cc:429-447 | the full pattern of a valid pattern is valid |
| RegexFull.FullMatchIsWholeMatch | gtest-1.7.0/src/gtest-port.cc:406-448 | full matching means that the whole string is in the language, for all strings, if and only if the pattern does not end in an escaped dollar |
| RegexFull.EscapedDollarFullMatch | gtest-1.7.0/src/gtest-port.cc:444-445 | for a pattern that ends in an escaped dollar, full matching means that some prefix is in the language |
| RegexFull.RE.constructor | gtest-1.7.0/src/gtest-port.cc:417-448 | validity and full pattern are those of the pattern given |
| RegexFull.RE.FullMatch | gtest-1.7.0/src/gtest-port.cc:406-408 | for a valid pattern, true exactly when the string matches the full regex |
| RegexFull.RE.PartialMatch | gtest-1.7.0/src/gtest-port.cc:412-414 | for a valid pattern, true exactly when some substring matches |
| LinkedPtrHeap.LinkedPtr.JoinNew | gtest-1.7.0/include/gtest/internal/gtest-linked_ptr.h:92-94 | a circle of one |
| LinkedPtrHeap.LinkedPtr.Join | gtest-1.7.0/include/gtest/internal/gtest-linked_ptr.h:108-116 | the search ends, and the newcomer stands last in the circle of the one it joins |
| LinkedPtrHeap.LinkedPtr.Depart | gtest-1.7.0/include/gtest/internal/gtest-linked_ptr.h:120-129 | the search ends, the rest stays one circle, and the answer is true exactly for the last member |
| LinkedPtrHeap.OnlyLastCloses | gtest-1.7.0/include/gtest/internal/gtest-linked_ptr.h:113-126 | in a circle only the predecessor points to a member, so the search loops stop there |
| LinkedPtrHeap.World.Construct | gtest-1.7.0/include/gtest/internal/gtest-linked_ptr.h:142-201 | constructing from a raw pointer keeps all circles and is the specified step of ownership; the new pointer holds the raw one and every other what it held |
| LinkedPtrHeap.World.CopyConstruct | gtest-1.7.0/include/gtest/internal/gtest-linked_ptr.h:146-150 | the same for a copy, which holds what its source held |
| LinkedPtrHeap.World.Assign | gtest-1.7.0/include/gtest/internal/gtest-linked_ptr.h:159-165 | the same for assignment, self-assignment included: the pointer then holds what the other one held, and all others what they held |
| LinkedPtrHeap.World.Reset | gtest-1.7.0/include/gtest/internal/gtest-linked_ptr.h:168-171 | the same for reset, after which the pointer holds the raw one given |
| LinkedPtrHeap.World.Destroy | gtest-1.7.0/include/gtest/internal/gtest-linked_ptr.h:143 | the same for the destructor, after which the pointer is not live |
| LinkedPtrHeap.World.Leave | gtest-1.7.0/include/gtest/internal/gtest-linked_ptr.h:194-196 | leaving deletes the object exactly when the last holder leaves |
| LinkedPtrHeap.World.Copy | gtest-1.7.0/include/gtest/internal/gtest-linked_ptr.h:203-209 | a copy joins the circle of its source, or starts its own for null |
| LinkedPtrSpec.ApplySound | gtest-1.7.0/include/gtest/internal/gtest-linked_ptr.h:142-209 | no operation leaves an object both held and deleted, or captured, not held and not deleted |
| LinkedPtrSpec.DeletesWithLastHolder | gtest-1.7.0/include/gtest/internal/gtest-linked_ptr.h:194-196 | an operation deletes an object once if it takes its last holder away, and else not |
| LinkedPtrSpec.DeletedExactlyOnce | gtest-1.7.0/include/gtest/internal/gtest-linked_ptr.h:142-209 | after every run, an object has been deleted once if it was captured and is no longer held, and otherwise never |
| LinkedPtrHistory.WhatEachHolds | gtest-1.7.0/include/gtest/internal/gtest-linked_ptr.h:142-171 | which pointers hold what after each operation, as a change to what they held before |
| LinkedPtrHistory.WhatIsCaptured | gtest-1.7.0/include/gtest/internal/gtest-linked_ptr.h:198-209 | only raw pointers given to a constructor or to reset are captured |
| LinkedPtrHistory.HoldsWhatWasCaptured | gtest-1.7.0/include/gtest/internal/gtest-linked_ptr.h:142-209 | after any run, a live pointer holds what was captured by the operation that copies and assignments lead back to |
| LinkedPtrHistory.SameObjectIffLinked | gtest-1.7.0/include/gtest/internal/gtest-linked_ptr.h:142-209 | after any run, two pointers hold the same object if and only if copies and assignments lead both back to the operation that captured it |
| DeathTestProtocol.StepKeepsInv | gtest-1.7.0/src/gtest-death-test.cc:820-863 | every step of parent, child and kernel keeps what is known of both sides, the pipe and its ends |
| DeathTestProtocol.StatusBytes | gtest-1.7.0/src/gtest-death-test.cc:230-232 | the three status bytes, what each is written for and read as, and that no other is known |
| DeathTestProtocol.WhereCallsFail | gtest-1.7.0/src/gtest-death-test.cc:289-296 | a call can be interrupted, which changes nothing, or fail, which ends the process, exactly where a process makes one |
| DeathTestProtocol.AtMostOneByte | gtest-1.7.0/src/gtest-death-test.cc:470-488 | in every interleaving at most one status byte is written, and only if the statement did not die |
| DeathTestProtocol.OutcomeIsEnding | gtest-1.7.0/src/gtest-death-test.cc:425-464 | the parent's outcome is how the statement ended if and only if no call of the child failed; after a failure it is DIED |
| DeathTestProtocol.BlockedParentHasLiveChild | gtest-1.7.0/src/gtest-death-test.cc:429-435 | a parent blocked in read has a live child that holds the only write end, and some step other than the read is possible |
| DeathTestProtocol.PassedIff | gtest-1.7.0/src/gtest-death-test.cc:530-577 | without a failed child call, a test passes if and only if the statement died with an accepted status and matching output |
| DeathTestProtocol.JudgedStatus | gtest-1.7.0/src/gtest-death-test.cc:470-488 | the status that is judged is the death of the statement, 1 after a report, and signal 6 after a failed call |
| DeathTestProtocol.PassedAfterFault | gtest-1.7.0/src/gtest-death-test.cc:478 | after a failed child call, a test passes if and only if the abort is accepted and the output matches |
| DeathTestProtocol.WrongPassIff | gtest-1.7.0/src/gtest-death-test.cc:530-577 | a test passes without the death that it asks for if and only if a call of the child failed, before or after the statement, and the abort is accepted; with that death it always passes |
| DeathTestProtocol.LivedPassesIfReportFails | gtest-1.7.0/src/gtest-death-test.cc:470-488 | a run in which a statement that lived passes, because its report could not be written |
| DeathTestProtocol.OnlyFailureIsFatal | gtest-1.7.0/src/gtest-death-test.cc:437-462 | no byte that the child writes makes the parent give up; only a failing call of its own does |
| DeathTestProtocol.NoDeadlock | gtest-1.7.0/src/gtest-death-test.cc:799-863 | until both sides are finished some step is possible that brings the end nearer |
| DeathTestProtocol.RunsEnd | gtest-1.7.0/src/gtest-death-test.cc:799-863 | the number of steps other than interrupted calls is bounded, so no run goes on for ever |
| DeathTestObject.Retry | gtest-1.7.0/src/gtest-death-test.cc:433-435 | the retry loop returns the first answer that is not an interruption |
| DeathTestObject.SettledIsFirst | gtest-1.7.0/src/gtest-death-test.cc:289-296 | what settles a call is the first answer that is no interruption, after any number of them |
| DeathTestObject.DeathTestImpl.AssumeRole | gtest-1.7.0/src/gtest-death-test.cc:841-862 | the child closes its read end; the parent closes its write end and then counts the child as spawned; a failed close ends the process |
| DeathTestObject.DeathTestImpl.ReadAndInterpretStatusByte | gtest-1.7.0/src/gtest-death-test.cc:425-464 | from the settled answers: the outcome is the one the byte, or the end of the pipe, stands for, and the read end is closed; fatal exactly for any other byte and for a failed call, with the outcome set if the byte was good |
| DeathTestObject.DeathTestImpl.Wait | gtest-1.7.0/src/gtest-death-test.cc:799-809 | nothing and 0 without a child; else the read, the close and the wait in this order decide outcome, read end and status, and the first to fail is fatal and leaves the rest as it was |
| DeathTestObject.DeathTestImpl.Oversee | gtest-1.7.0/include/gtest/internal/gtest-death-test-internal.h:198-202 | the parent's branch of the macro gives the verdict of the answers that it gets |
| DeathTestObject.DeathTestImpl.Judge | gtest-1.7.0/src/gtest-death-test.cc:530-577 | passed only if spawned, died, accepted and matched; fatal while in progress |
| DeathTestObject.DeathTestImpl.Abort | gtest-1.7.0/src/gtest-death-test.cc:470-488 | one byte for the reason and exit status 1, or no byte and an abort when the write fails |
| DeathTestObject.HeardStep | gtest-1.7.0/src/gtest-death-test.cc:425-464 | every step of the system, the parent's calls and retries as well as the child's steps, takes the parent's object where the kernel's answer takes it |
| DeathTestObject.ParentFollowsRun | gtest-1.7.0/src/gtest-death-test.cc:799-863 | in every interleaving, the parent's object with the answers of that run ends in the same fatal error or the same verdict as the parent of the system |
| DeathTestObject.HeardSettles | gtest-1.7.0/src/gtest-death-test.cc:433-435 | the answers of a run can be given to the methods, which want each call to be answered in the end |
| DeathTestObject.JudgeIsStep | gtest-1.7.0/src/gtest-death-test.cc:530-577 | the judging step of the system gives the object's verdict, or is fatal where the object is |
| DeathTestObject.ChildFollowsRun | gtest-1.7.0/src/gtest-death-test.cc:470-488 | in every interleaving in which the child has ended and the parent has not failed, finished ones included, the child's object writes as many bytes as the child of the system and ends with the same status, which is what the parent gets when it waits |
| DeathTestObject.ChildHeardSettles | gtest-1.7.0/src/gtest-death-test.cc:289-296 | the answers of a run to the child can be given to its methods too |
| DeathTestObject.FlagsReadBack | gtest-1.7.0/include/gtest/internal/gtest-death-test-internal.h:85-92 | the flag for a return, an exception or a surviving statement is read as that ending |
| DeathTestFlag.SplitString | gtest-1.7.0/src/gtest-death-test.cc:1208-1223 | the loop with its position gives the fields between the delimiters |
| Splitting.FieldsJoin | gtest-1.7.0/src/gtest-death-test.cc:1208-1223 | for all strings, splitting and then joining on the delimiter is the identity, and no field has a delimiter |
| Splitting.JoinedFields | gtest-1.7.0/src/gtest-death-test.cc:1208-1223 | splitting what was joined from fields without a delimiter gives the fields back |
| DeathTestFlag.ParsesExactly | gtest-1.7.0/src/gtest-internal-inl.h:1001-1040 | for `int`, exactly the strings are accepted that are digits up to their end or a NUL, with a value that fits an `int` or lies less than 2^31 below 2^64; the latter come out negative |
| DeathTestFlag.ParseInternalRunDeathTestFlag | gtest-1.7.0/src/gtest-death-test.cc:1296-1338 | nothing for an empty flag, an abort unless there are four fields and three numbers, and else the four values |
| DeathTestFlag.FlagReadsBack | gtest-1.7.0/src/gtest-death-test.cc:1121-1125 | the printed flag reads back as the same four values if and only if the file name has no bar and no NUL in it |
| DeathTestFlag.PrintedExample | gtest-1.7.0/src/gtest-death-test.cc:1121-1125 | a flag as it is printed |
| Digits.DecDigits | gtest-1.7.0/src/gtest-death-test.cc:1121-1125 | decimal text has the units last |
| Filters.PatternMatchesIsWild | gtest-1.7.0/src/gtest.cc:440-455 | the recursion holds if and only if the string can be cut into one piece for each pattern character up to the first colon |
| Filters.MatchesFilter | gtest-1.7.0/src/gtest.cc:457-476 | true if and only if one of the patterns between the colons matches |
| Filters.FilterMatchesTest | gtest-1.7.0/src/gtest.cc:480-506 | true if and only if the full name matches the part before the first dash, anything if that is empty, and not the part after it |
| Filters.EmptyAndUniversal | gtest-1.7.0/src/gtest.cc:490-505 | an empty negative filter excludes only the empty name, and the universal filter matches every name |
| Filters.DeathFilterMeans | gtest-1.7.0/src/gtest.cc:158 | a death test case is one whose name ends in DeathTest or has DeathTest before a slash |
| Filters.DisabledFilterMeans | gtest-1.7.0/src/gtest.cc:153 | a name is disabled if and only if it starts with DISABLED_ or has it after a slash |
| FilterMeaning.WildMeans | gtest-1.7.0/src/gtest.cc:440-455 | a question mark takes one character, a star any number, and every other character itself |
| FilterMeaning.PatternsMean | gtest-1.7.0/src/gtest.cc:457-476 | patterns put together with colons match what one of them matches |
| FilterMeaning.WantedMeans | gtest-1.7.0/src/gtest.cc:480-506 | with and without a dash: what is matched is the test case, a dot and the test, against the part before the first dash, or all if that is empty, and not against the part after it |
| FilterMeaning.DeathMeans | gtest-1.7.0/src/gtest.cc:158 | a death test case is named by any text and DeathTest, or any text, DeathTest, a slash and any text |
| FilterMeaning.RunnableMeans | gtest-1.7.0/src/gtest.cc:4476-4490 | a test may run exactly if it is wanted and, unless disabled tests run too, neither name starts with DISABLED_ or has it after a slash |
| FilterMeaning.MarkedMeans | gtest-1.7.0/src/gtest.cc:4482-4496 | the three marks of a test that has been filtered |
| CommandLine.ParseGoogleTestFlagsOnlyImpl | gtest-1.7.0/src/gtest.cc:4889-4955 | for any notion of a flag, the vector, shifted in place, keeps the program name and the arguments that are not flags in order, ended by the null pointer; all flags are stored in order; help is asked for by what stays |
| CommandLine.ShiftLeft | gtest-1.7.0/src/gtest.cc:4930-4932 | moves what follows, the null pointer included, and nothing else |
| CommandLine.NothingLost | gtest-1.7.0/src/gtest.cc:4889-4947 | flags and other arguments together are all the arguments, each as often as it was there |
| CommandLine.NoFlagsLeft | gtest-1.7.0/src/gtest.cc:4889-4947 | doing it again takes nothing and changes nothing |
| Flags.ParseGoogleTestFlagsOnly | gtest-1.7.0/src/gtest.cc:4959-4961 | the same with the flags of Google Test: what stays, what each flag is set to, and that help is asked for exactly by an argument that stays and asks for it |
| Flags.ParseFlagValueIff | gtest-1.7.0/src/gtest.cc:4677-4703 | an argument gives a flag a value exactly if it is two dashes, `gtest_`, the name, an equals sign and the value, or for an optional value the name alone |
| Flags.RecognizedIff | gtest-1.7.0/src/gtest.cc:4899-4924 | an argument sets one flag at most, so the order in which the seventeen flags are tried does not matter |
| Flags.PrefixIff | gtest-1.7.0/src/gtest.cc:4774-4781 | an argument has the prefix exactly if some dash or slash before it leaves a text that starts with `gtest_` or `gtest-` but not with `gtest_internal_` |
| Flags.LastOneCounts | gtest-1.7.0/src/gtest.cc:4889-4947 | each flag ends up as the last argument that sets it says |
| FlagValues.SetsIff | gtest-1.7.0/src/gtest.cc:4715-4764 | an argument gives a flag a value exactly as it is spelled out: a switch alone, `=` and text that says no by a first 0, f or F, a numeral with blanks and a sign that fits in 32 bits, any text |
| FlagValues.RecognizedAsGiven | gtest-1.7.0/src/gtest.cc:4899-4924 | and that flag is the only one it sets |
| FlagValues.SwitchIsSet | gtest-1.7.0/src/gtest.cc:4715-4724 | a switch alone is on; with a value it is off exactly if that starts with 0, f or F |
| FlagValues.NumberIff | gtest-1.7.0/src/gtest-port.cc:724-761 | a text is read as n exactly if n fits in 32 bits and the text is empty, for 0, or blanks, a sign and digits of n |
| FlagValues.NumberIsSet | gtest-1.7.0/src/gtest.cc:4735-4745 | the decimal text of a number sets it if it lies from -2147483648 to 2147483647, and nothing otherwise |
| FlagValues.LastGivenCounts | gtest-1.7.0/src/gtest.cc:4889-4947 | a flag ends up with what the last argument that gives it a value gives it |
| FlagValues.NotGivenKeeps | gtest-1.7.0/src/gtest.cc:4889-4947 | and with what it had if there is none |
| FlagValues.IsFlagIff | gtest-1.7.0/src/gtest.cc:4926-4941 | an argument is taken out exactly if it gives some flag a value |
| FlagValues.HelpIff | gtest-1.7.0/src/gtest.cc:4774-4781 | the four arguments that ask for help, and those that start with the prefix behind dashes or a slash |
| Flags.ChildIsTold | gtest-1.7.0/src/gtest-death-test.cc:1118-1129 | whatever arguments come before, the child of an exec-style death test reads its filter and the four values of its flag as the parent wrote them |
| Shuffle.Random.Generate | gtest-1.7.0/src/gtest.cc:291-305 | the next state of the generator in 32-bit arithmetic, reduced to the range |
| Shuffle.ShuffleRange | gtest-1.7.0/src/gtest-internal-inl.h:311-328 | the loop of swaps is the Fisher-Yates shuffle with the numbers drawn, and the generator advances once for each |
| Shuffle.ShuffledRearranges | gtest-1.7.0/src/gtest-internal-inl.h:311-328 | a shuffle keeps every element of its range as often as it was there, and moves nothing else |
| Shuffle.NoTwoDrawsAgree | gtest-1.7.0/src/gtest-internal-inl.h:321-327 | different series of draws give different orders of distinct elements |
| Shuffle.EveryOrderIsDrawn | gtest-1.7.0/src/gtest-internal-inl.h:321-327 | every order of the range comes out of some series of draws |
| Shuffle.LastIsFirstDraw | gtest-1.7.0/src/gtest-internal-inl.h:321-327 | the last place of the range goes to the element that the first draw names |
| Shuffle.FirstDraws | gtest-1.7.0/src/gtest.cc:291-305 | the first states from 0 and from 1, which fix multiplier and increment, and the first draws |
| Shuffle.ShuffledThree | gtest-1.7.0/src/gtest-internal-inl.h:321-327 | what the draws 0 and 1 do to three elements |
| Generator.NextStateIs | gtest-1.7.0/src/gtest.cc:293 | wrapping at 32 bits on the way changes nothing |
| Generator.ClosedForm | gtest-1.7.0/src/gtest.cc:293 | the state after n draws, in powers of the multiplier and their sum |
| Generator.SumHalves | gtest-1.7.0/src/gtest.cc:293 | the sum of the first n powers of a multiplier that is one more than a multiple of 4 is divisible by the same powers of two as n |
| Generator.FullPeriod | gtest-1.7.0/src/gtest.cc:293 | the generator has the full period: two states drawn are equal if and only if a multiple of 2^31 draws lies between them |
| Generator.DrawsAre | gtest-1.7.0/src/gtest-internal-inl.h:321-327 | which state of the generator each number drawn in a shuffle comes from, and which range it is reduced to |
| Generator.StateAtIs | gtest-1.7.0/src/gtest.cc:4610-4612 | the tests of each test case are shuffled with the numbers that follow those drawn for the test cases before it |
| Generator.StateAfterCasesIs | gtest-1.7.0/src/gtest.cc:4601-4607 | and before them the two ranges of test cases have drawn theirs |
| TestObjects.TestCase.AddTestInfo | gtest-1.7.0/src/gtest.cc:2423-2426 | the test is appended with the next index |
| TestObjects.TestCase.ShuffleTests | gtest-1.7.0/src/gtest.cc:2463-2465 | the index vector is shuffled and still holds every index once |
| TestObjects.TestCase.UnshuffleTests | gtest-1.7.0/src/gtest.cc:2468-2472 | the order of registration is back |
| TestObjects.TestCase.GetMutableTestInfo | gtest-1.7.0/src/gtest.cc:2416-2419 | null exactly out of range, and else the test at the shuffled index, which is in range |
| TestObjects.TestInfo.Run | gtest-1.7.0/src/gtest.cc:2300-2301 | a test is started exactly if it is to run |
| TestObjects.TestCase.Run | gtest-1.7.0/src/gtest.cc:2429-2445 | nothing if the test case is not to run; else the tests that are to run, in the current order |
| Registration.UnitTestImpl.GetTestCase | gtest-1.7.0/src/gtest.cc:4173-4206 | the test case of the name if there is one, and else a new one, placed so that death test cases come first and each kind is in order of registration |
| Registration.UnitTestImpl.DeathCasesFirst | gtest-1.7.0/src/gtest.cc:4189-4202 | over all registrations, death test cases are exactly at the positions up to `last_death_test_case_` |
| Registration.UnitTestImpl.AddTestInfo | gtest-1.7.0/src/gtest-internal-inl.h:654-674 | registering a test appends it to the test case of its name and changes no other; at most one test case is made, it is a new object, and its name is the last one registered |
| Rounds.CaseOrderArranges | gtest-1.7.0/src/gtest.cc:4601-4607 | shuffling the two ranges maps the positions of death test cases to themselves, each once, and those of the others too |
| Registration.UnitTestImpl.ShuffleTests | gtest-1.7.0/src/gtest.cc:4601-4613 | order of test cases, orders of tests and state of the generator are those that the draws give, for any seed |
| Registration.UnitTestImpl.UnshuffleTests | gtest-1.7.0/src/gtest.cc:4616-4623 | the order of registration is back everywhere |
| Registration.UnitTestImpl.GetMutableTestCase | gtest-1.7.0/src/gtest-internal-inl.h:593-596 | null exactly out of range, and else the test case at the shuffled index |
| Registration.UnitTestImpl.RunTestCases | gtest-1.7.0/src/gtest.cc:4312-4316 | the loop goes to the test cases in the current order, and from each that is to run starts the tests that are to run, in their current order |
| Registration.UnitTestImpl.RunRound | gtest-1.7.0/src/gtest.cc:4291-4342 | a round goes to every test case once with the death test cases first, starts of each what is to run of it, in orders given by the seed alone, and leaves everything in order of registration |
| Rounds.GetRandomSeedFromFlag | gtest-1.7.0/src/gtest-internal-inl.h:135-146 | the seed is in range for every flag and clock, and is the flag if that is in range |
| Rounds.SeedIs | gtest-1.7.0/src/gtest-internal-inl.h:135-146 | the flag, or the clock if that is 0, taken as an unsigned number keeps its remainder by 99999, and 0 turns into 10246 |
| Rounds.SeedsCount | gtest-1.7.0/src/gtest-internal-inl.h:151-157 | the seeds of the rounds count up from the first and go on with 1 after 99999; without shuffling they stay |
| Registration.UnitTestImpl.RunAllTests | gtest-1.7.0/src/gtest.cc:4268-4348 | so does every round of a run, each with the next seed; without tests to run, rounds are empty |
| Rounds.EveryRoundAt | gtest-1.7.0/src/gtest.cc:4284-4348 | the i-th round of a run is a round with the i-th seed, so it can be repeated without the ones before |
| Execution.RoundStarts | gtest-1.7.0/src/gtest.cc:2429-2445 | a round starts a test once if it and its test case are to run, and else never |
| Execution.RoundStartsNoOther | gtest-1.7.0/src/gtest.cc:4312-4316 | and it starts nothing else |
| Execution.RunFiltered | gtest-1.7.0/src/gtest.cc:4249-4348 | from the filter to the rounds: in every round of a process exactly the runnable tests whose number falls to its shard are started, each once |
| Execution.SameRows | gtest-1.7.0/src/gtest.cc:4467-4496 | processes with tests of the same names find the same tests runnable, so they number them alike |
| Execution.EveryTestOnce | gtest-1.7.0/src/gtest.cc:4444-4446 | over the processes of all the shards, each with its own objects for the same names, a test is started exactly once a round if it is runnable, and else never |
| Program.RegisterAll | gtest-1.7.0/src/gtest.cc:2216-2230 | registering any sequence of tests leads from nothing to a registry in order, with the names of the test cases in the order in which they first came up and in each test case its tests in the order of registration |
| Program.RegisteredOwned | gtest-1.7.0/src/gtest-internal-inl.h:654-674 | what is registered can be filtered and run: every test case has its own tests, each of them once |
| Program.RunProgram | gtest-1.7.0/src/gtest.cc:4249-4348 | from the first registration to the last round, in one process |
| Program.SamePlaces | gtest-1.7.0/src/gtest.cc:4173-4206 | programs that register the same names have tests of the same names at the same places |
| Program.EveryRegisteredTestOnce | gtest-1.7.0/src/gtest.cc:4444-4446 | if the processes of all the shards register the same names, each registered test is started by exactly one of them, once a round, if it is runnable under filter and flag, and else by none |
| Sharding.ShardsAreUsable | gtest-1.7.0/src/gtest.cc:4381-4421 | sharding is on exactly outside of a child process, with at least two shards and an index among them |
| Sharding.WhenToExit | gtest-1.7.0/src/gtest.cc:4391-4418 | the program ends exactly, outside of a child process, if one number is missing or the index is not among the shards |
| Sharding.ShardTakes | gtest-1.7.0/src/gtest.cc:4444-4446 | a shard takes the tests whose number is its own plus a multiple of the number of shards |
| Sharding.FilterTests | gtest-1.7.0/src/gtest.cc:4455-4506 | every test and test case is marked, and the number of tests marked to run is returned |
| Sharding.FilterTestCase | gtest-1.7.0/src/gtest.cc:4467-4503 | the marks and counts of one test case, from the number of runnable tests before it |
| Sharding.MarksMean | gtest-1.7.0/src/gtest.cc:4489-4502 | a test runs if and only if it is runnable and its number falls to the shard, and a test case if and only if one of its tests does |
| Sharding.IdsAreDistinct | gtest-1.7.0/src/gtest.cc:4493-4498 | runnable tests have different numbers, all below their total |
| Sharding.EveryIdIsUsed | gtest-1.7.0/src/gtest.cc:4493-4498 | every number below the total belongs to a runnable test |
| Sharding.SelectedOnOneShard | gtest-1.7.0/src/gtest.cc:4493-4496 | over all the shards, a runnable test is selected on exactly one, and another test on none |
| Sharding.MarkedOnOneShard | gtest-1.7.0/src/gtest.cc:4493-4502 | so in the process of that shard it is marked to run, and in no other |
| Sharding.SelectedIsShare | gtest-1.7.0/src/gtest.cc:4493-4505 | the count returned is the shard's share of the number of runnable tests |
| Sharding.ShareIs | gtest-1.7.0/src/gtest.cc:4444-4446 | the share is the quotient, and one more for the first shards up to the remainder |
| Sharding.SharesAreEven | gtest-1.7.0/src/gtest.cc:4444-4446 | two shards differ by at most one test |
| Sharding.SharesAddUp | gtest-1.7.0/src/gtest.cc:4444-4446 | all the shards together run all the runnable tests |
| Utf8Bits.ChopBits | gtest-1.7.0/src/gtest.cc:1424-1428 | chopping off the six lowest bits gives quotient and remainder by 64 of the number that any 32 bits stand for |
| Utf8Bits.EncodedBits | gtest-1.7.0/src/gtest.cc:1436-1462 | the bytes that masks, shifts and ors put together are those of the encoding, for every code point of up to 21 bits |
| Utf8Bits.PairBits | gtest-1.7.0/src/gtest.cc:1471-1474 | the two masks find exactly the surrogate pairs of the model |
| Utf8Bits.JoinedBits | gtest-1.7.0/src/gtest.cc:1477-1485 | the shift, the or and the sum give the code point of the model for any two characters |
| WideToUtf8.CodePointToUtf8 | gtest-1.7.0/src/gtest.cc:1436-1462 | the bytes written into the buffer, up to the NUL, are the encoding; too great a code point gives the message |
| WideToUtf8.EncodedIs | gtest-1.7.0/src/gtest.cc:1436-1462 | the bytes in numbers for one, two, three and four bytes |
| WideToUtf8.InvalidTextIs | gtest-1.7.0/src/gtest.cc:1437-1441 | the message byte by byte, with the number in hexadecimal |
| WideToUtf8.PairIs | gtest-1.7.0/src/gtest.cc:1471-1485 | which numbers are a surrogate pair and which code point they stand for |
| WideToUtf8.ConvertedIs | gtest-1.7.0/src/gtest.cc:1500-1507 | a limit of -1 is none, and nothing from the first NUL on is converted |
| WideToUtf8.WideStringToUtf8 | gtest-1.7.0/src/gtest.cc:1500-1521 | the encodings of the code points of the characters before the first NUL, at most `num_chars` of them |
| WideToUtf8.ReadOneIffEncoded | gtest-1.7.0/src/gtest.cc:1410-1462 | a reader of up to 21 bits that refuses forms longer than needed reads c exactly where the encoding of c stands |
| WideToUtf8.EncodingsArePrefixFree | gtest-1.7.0/src/gtest.cc:1410-1462 | no encoding starts another, so a text splits in one way |
| WideToUtf8.ReadAllIffEncoded | gtest-1.7.0/src/gtest.cc:1410-1462 | the reader accepts exactly the encodings and gives the code points back |
| WideToUtf8.NothingLost | gtest-1.7.0/src/gtest.cc:1500-1521 | reading the bytes and writing UTF-16 gives back every wide string, lone surrogates included |
| WideToUtf8.SameBytesSameCharacters | gtest-1.7.0/src/gtest.cc:1500-1521 | two buffers give the same bytes if and only if their converted characters are the same |
| LiteralPrinter.PrintCharsAsStringTo | gtest-1.7.0/src/gtest-printers.cc:254-271 | the loop with its flag prints each character and breaks the literal where a digit follows a hexadecimal escape |
| LiteralPrinter.StringCharIs | gtest-1.7.0/src/gtest-printers.cc:142-199 | the text of every code, and which ones are hexadecimal |
| LiteralPrinter.BreakIs | gtest-1.7.0/src/gtest-printers.cc:261-266 | where a literal is broken, and by which text |
| Digits.HexDigits | gtest-1.7.0/src/gtest.cc:1643-1647 | hexadecimal text is in capitals, with the units last |
| Digits.HexDigitsRead | gtest-1.7.0/include/gtest/internal/gtest-port.h:1677-1683 | hexadecimal digits are read in either case |
| LiteralPrinter.CharBack | gtest-1.7.0/src/gtest-printers.cc:142-206 | a printed character other than NUL is read back, whatever follows |
| LiteralPrinter.BodyReadBack | gtest-1.7.0/src/gtest-printers.cc:254-271 | what a C++ lexer reads of every printed string: a NUL runs together with up to two octal digits after it, and all else is itself |
| LiteralPrinter.ReadsBackIff | gtest-1.7.0/src/gtest-printers.cc:254-271 | a printed string, narrow or wide, reads back as itself if and only if no NUL is directly followed by an octal digit |
| XmlOutput.EscapeXml | gtest-1.7.0/src/gtest.cc:3139-3180 | the loop appends what each character turns into |
| XmlOutput.ValidCodes | gtest-1.7.0/src/gtest.cc:3021-3028 | the codes of valid characters: 9, 10, 13 and 32 to 127 |
| XmlOutput.EscapedCodes | gtest-1.7.0/src/gtest.cc:3145-3175 | what every code turns into, inside and outside of attributes |
| XmlOutput.EscapedInTwo | gtest-1.7.0/src/gtest.cc:3143-3177 | text is escaped piece by piece |
| XmlOutput.BareWhitespaceIsLost | gtest-1.7.0/src/gtest.cc:3030-3033 | white space written as itself would be read as a blank, which is why it is written as references |
| XmlOutput.AttributeBack | gtest-1.7.0/src/gtest.cc:3139-3180 | for every string, an XML reader, whether or not it normalizes line ends first, takes the escaped attribute as the string without its invalid characters, white space included |
| XmlOutput.RemoveInvalidXmlCharacters | gtest-1.7.0/src/gtest.cc:3185-3194 | keeps the valid characters in order |
| XmlOutput.ValidPartIsAll | gtest-1.7.0/src/gtest.cc:3185-3194 | nothing is removed if and only if all characters are valid |
| XmlOutput.OutputXmlCDataSection | gtest-1.7.0/src/gtest.cc:3246-3263 | the loop over segments cuts the data at each closing mark |
| XmlOutput.SectionsAre | gtest-1.7.0/src/gtest.cc:3246-3263 | what is written up to the first closing mark and in its place |
| XmlOutput.NoCloseMeans | gtest-1.7.0/src/gtest.cc:3251-3252 | a segment is the last one exactly if it has no two closing brackets and a greater-than sign in a row |
| XmlOutput.SegmentEnds | gtest-1.7.0/src/gtest.cc:3251-3257 | the mark written after a segment is the first one in it, even if the segment ends in brackets |
| XmlOutput.LineEndsOfCut | gtest-1.7.0/src/gtest.cc:3246-3263 | normalizing the line ends of what is written for some data gives what is written for the data with normalized line ends |
| XmlOutput.SectionsBack | gtest-1.7.0/src/gtest.cc:3246-3263 | for every data string, a reader that keeps line ends recovers exactly the data; one that normalizes them (section 2.11 of XML 1.0) recovers the data with its line ends normalized, which is the data if and only if it has no carriage return |
| FloatBits.BiasedBits32 | gtest-1.7.0/include/gtest/internal/gtest-internal.h:359-367 | for a float, the complement and one more, or the sign bit set, are 2^32 - b and 2^31 + b by the sign of the number b that the bits stand for |
| FloatBits.BiasedBits64 | gtest-1.7.0/include/gtest/internal/gtest-internal.h:359-367 | the same for a double with 2^64 - b and 2^63 + b |
| FloatBits.NanBits32 | gtest-1.7.0/include/gtest/internal/gtest-internal.h:306-320 | for a float, the two masks say NaN exactly for magnitudes above infinity |
| FloatBits.NanBits64 | gtest-1.7.0/include/gtest/internal/gtest-internal.h:306-320 | the same for a double |
| FloatBits.DistanceBits32 | gtest-1.7.0/include/gtest/internal/gtest-internal.h:371-376 | for a float, the comparison and the subtraction of biased bits give the distance of the numbers |
| FloatBits.DistanceBits64 | gtest-1.7.0/include/gtest/internal/gtest-internal.h:371-376 | the same for a double |
| FloatBits.AlmostEqualsBits32 | gtest-1.7.0/include/gtest/internal/gtest-internal.h:328-335 | for a float, the whole comparison on bits is the one on numbers that the theorems of `FloatingPoint` are about |
| FloatBits.AlmostEqualsBits64 | gtest-1.7.0/include/gtest/internal/gtest-internal.h:328-335 | the same for a double |
| FloatingPoint.RankIsOrder | gtest-1.7.0/include/gtest/internal/gtest-internal.h:344-367 | patterns are ranked exactly as the numbers they stand for, subnormal ones included |
| FloatingPoint.ScaledDoubles | gtest-1.7.0/include/gtest/internal/gtest-internal.h:344-358 | the numbers that magnitudes stand for: whole multiples of the smallest up to the second exponent, and doubled for each further one |
| FloatingPoint.DistanceIsRankDifference | gtest-1.7.0/include/gtest/internal/gtest-internal.h:359-376 | the distance is the difference of the ranks and nothing wraps around, in every format |
| FloatingPoint.AlmostEqualsIff | gtest-1.7.0/include/gtest/internal/gtest-internal.h:272-335 | almost equal means that neither is NaN and the ranks differ by at most 4 |
| FloatingPoint.DistanceZeroIffEqual | gtest-1.7.0/include/gtest/internal/gtest-internal.h:371-376 | the distance is 0 if and only if the values are equal: the same pattern, or two zeros |
| FloatingPoint.DistancesAddUp | gtest-1.7.0/include/gtest/internal/gtest-internal.h:371-376 | distances along the order of the values add up |
| FloatingPoint.AlmostEqualsIsSymmetric | gtest-1.7.0/include/gtest/internal/gtest-internal.h:328-335 | symmetric, and reflexive exactly off NaN |
| FloatingPoint.MovingCloser | gtest-1.7.0/include/gtest/internal/gtest-internal.h:328-335 | what lies between two almost equal numbers is almost equal to both |

## Left out

- `NginxConfigParser::Parse(const char*)`, the `printf` tracing and `TokenTypeAsString`: files and diagnostics.
- The counters of `ParseToken` are unbounded: a quoted token of more than 2^31 characters would overflow them.
- ConfigParser.Parse: its loop body is the helper methods `Turn`, `ActOn` and `ConfigStack.Take`, which the source has inline.
- `uri_start` cannot be reached in `request_parser.cc`; the model keeps the state and its branch, and a URI may be empty.
- Regular expressions: the texts of the error messages; strings longer than `size_t` can index are excluded, as the source says.
- `linked_ptr`: `link_` is one object with its `linked_ptr`, pointers to different types in one circle and the mutex are not modelled, and a raw pointer is captured once.
- Death tests: creation and factories, capturing and formatting of output, message texts, `DeathTestAbort` in an exec-style child, threads and Windows. A call that keeps being interrupted is assumed to be answered in the end.
- `DeathTestFlag`: the six-field flag of Windows.
- `UnitTest::Run`: set-up and tear-down of environments, listeners, results, clocks, repeating for ever, and fatal failures of a set-up, after which the tests do not start.
- `Flags`: the environment variables that give the flags their first values, the warnings about a bad number, and the help text.
- Shuffle.ShuffleRange: takes and returns the vector as a value; the callers assign it to their field.
- `GetTestCase(int)` on a const object ignores the shuffled index and is not modelled; nor are parameterized tests.
- Wide strings of 32-bit characters; the reader is for 16-bit ones, which is where surrogates matter.
- `LiteralPrinter`: trigraphs, and the array overloads that drop a final NUL.
- `XmlOutput`: escaping outside of attributes has no reader because the report does not use it.
- `FloatingPoint`: the infinities take part in the order as the next magnitudes.
- Sockets, threads, the handlers, the reply buffers and the MIME table: input and output, constants and lookups.
- `ConfigToHandlers`: a shadowed map leaks keys between handlers, so what it is meant to do does not hold.
- File paths, typed tests and parameter generators of Google Test: they would add only easier members.
