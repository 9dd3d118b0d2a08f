# HTCondor ClassAds and the connection broker, modelled in Dafny

This project models four parts of HTCondor and proves what they are for.

**Expressions.** `Values.dfy` has the ClassAd values (UNDEFINED, ERROR, booleans,
64-bit integers with wrap-around, strings) and every operator on them.
`Flatten.dfy` has evaluation and `Flatten`, the partial evaluator that
reassociates and commutes operators while it carries a pending (operator, value,
tree) triple. The main result is that the residual means what the original
means. Its condition on a node is shown to be exact: for a strict operator when
operands can be regrouped (`Regroup.dfy`), for a logical one when a value may be
moved or an operand dropped, and for the shape in which the code drops a value,
over all operands, when nothing is lost (`MixedOps.dfy`, with `Hiding.dfy` for
the integers). `FlattenLaws.dfy` says when flattening succeeds and what it
finishes, and `Laws.dfy` what the operators compute.

**Text.** `Syntax.dfy` has the trees, the tokens that the lexer makes of printed
text, the printer and the grammar; `Parser.dfy` is the parser as it runs.
`RoundTrip.dfy` and `ExactRoundTrip.dfy` prove that a printed tree is read back
exactly when the grammar can build it and its text still spells it. The printer
adds no parentheses and no quotes around selected names, and a minus sign before
a digit, or a dot after an integer, is read as part of the number. `Reading.dfy`
has precedence over the ten productions and proves that the grammar is
unambiguous, and `Words.dfy` reads names character by character. `Escapes.dfy`
and `RelTime.dfy` are the codecs of string literals and relative times, character
by character.

**Collections.** `Transactions.dfy` has the operations on the ad table and the
commit of a transaction with its undo, which runs forwards. `Recovery.dfy` has
the log, recovery and runs of calls: cutting the log anywhere recovers exactly
the calls that were wholly logged, if and only if no call changed the table
without logging it and no transaction name was logged twice. `Collection.dfy` is
the collection as it runs. `ViewOrder.dfy`, `Views.dfy` and `ViewTree.dfy` have
the tree of subordinate views, with the ordered member list and the index of
each view; `ViewNodes.dfy` is the same tree on the heap. `Truncation.dfy` writes
a collection out and replays it. `Storage.dfy` and `Cache.dfy` are the storage
file, byte by byte, and the two-level cache in front of it. `ExprCache.dfy` is
the cache of expressions shared between ads.

**The connection broker (CCB).** `CcbServer.dfy` has the tables of the broker and
one function per handler, `CcbBroker.dfy` the broker as it runs, `Reconnect.dfy`
the file of reconnect records, `CcbListener.dfy` and `CcbClient.dfy` the daemon
and the client. `CcbSafety.dfy` puts the three together: a success told to a
client means that a daemon has already written the hello the client waits for.

Where the code and its comments disagree the model follows the code: unary minus
of a boolean is ERROR; two literals under `&&` or `||` are folded without
short-circuiting; a full parse does not check for the end of the input after a
conditional; `LogViews` recreates siblings in the opposite order because new
children go to the front.

## Model

| member | source | states |
|---|---|---|
| Values.WrapAddAssociates | src/classad/operators.cpp:1169-1263 | 64-bit addition with wrap-around is associative, for all integers |
| Values.WrapMulAssociates | src/classad/operators.cpp:1169-1263 | 64-bit multiplication with wrap-around is associative, for all integers |
| Values.BitsCommute | src/classad/operators.cpp:1345-1413 | the bitwise operators commute on all two's complement integers |
| Values.BitsAssociate | src/classad/operators.cpp:1345-1413 | the bitwise operators associate on all two's complement integers |
| Values.ShiftRightNegative | src/classad/operators.cpp:1345-1413 | the loop that shifts a negative number bit by bit is the arithmetic shift |
| OperatorLaws.SumsDifferencesProducts | src/classad/operators.cpp:1169-1263 | sums, differences and products are the 64-bit numbers congruent to the exact ones, booleans counting as 0 and 1 |
| OperatorLaws.SubtractionUndoesAddition | src/classad/operators.cpp:1169-1263 | adding and subtracting a number undo each other, across wrap-around |
| OperatorLaws.DivisionWithRemainder | src/classad/operators.cpp:1169-1263 | quotient and remainder make up the dividend, the remainder is smaller than the divisor and has the sign of the dividend; by zero both are errors |
| OperatorLaws.ExceptionalOperands | src/classad/operators.cpp:400-552 | a strict operator passes on ERROR, then UNDEFINED, and makes an error of operands of a wrong type |
| OperatorLaws.NumbersCompare | src/classad/operators.cpp:1062-1167 | the eight comparisons of numbers are those of the integers they count as |
| OperatorLaws.StringsCompare | src/classad/operators.cpp:1603-1641 | strings are ordered as in a dictionary without regard to case |
| OperatorLaws.IdentityDecided | src/classad/operators.cpp:1062-1167 | `is` is true exactly of equal values and of numbers worth the same, and `isnt` is its opposite |
| OperatorLaws.TruthTables | src/classad/operators.cpp:1266-1343 | on truth values && is the lesser, || the greater operand of false < UNDEFINED < true, and ! turns the order round |
| OperatorLaws.LogicalErrors | src/classad/operators.cpp:608-654 | any other operand is an error, unless the left one settles the result first |
| OperatorLaws.BitwiseOperators | src/classad/operators.cpp:1345-1413 | every bit of a bitwise result is decided by the two bits in its place |
| OperatorLaws.ShiftsExact | src/classad/operators.cpp:1345-1413 | shifts by 0 to 63 are products and floored quotients with a power of two, `>>>` of the unsigned number |
| OperatorLaws.UnaryOperators | src/classad/operators.cpp:400-552 | minus and complement add up with their operand to 0 and -1 |
| OperatorLaws.UnaryErrors | src/classad/operators.cpp:400-552 | a unary operator keeps ERROR and UNDEFINED and makes an error of a wrong type |
| Flattening.EvalDeeper | src/classad/attrrefs.cpp:155-201 | an evaluation that succeeds gives the same value with more depth left |
| Flattening.FlatWellPending | src/classad/operators.cpp:822-912 | every pending triple that flattening returns is on a commutative operator |
| Flattening.CombineStrict | src/classad/operators.cpp:914-1058 | the combined residuals of a strict commutative operator mean the operator applied to what they mean, if and only if regrouping makes no type error meet or miss an UNDEFINED |
| Flattening.CombineLogical | src/classad/operators.cpp:914-1058 | the same of the logical operators, with short-circuiting and the don't-care rule, if and only if no value of a wrong type is moved in front of a settling operand and a dropped left operand is a truth value |
| Hiding.HidesExactly | src/classad/operators.cpp:1021-1052 | for which integers `a op (b op2 y)` equals `a op y` for every y, for + and * with wrap-around and the bitwise operators |
| MixedOperators.HarmlessExactly | src/classad/operators.cpp:1021-1052 | for all two distinct commutative operators, both orders and all values: dropping the second operator and its value loses nothing on every pair of operands if and only if it is harmless |
| Flattening.MixedCombines | src/classad/operators.cpp:1021-1052 | in the mixed shape the residual has neither the second operator nor its value |
| Flattening.MixedExactly | src/classad/operators.cpp:1021-1052 | over all trees, environments and depths with fitting operands the flattened mixed node evaluates as the original if and only if it is harmless |
| Flattening.FlattenPreservesMeaning | src/classad/operators.cpp:822-1058 | for every expression, scope and environment extending it, the residual evaluates to the value of the original, under the conditions of the three preceding results |
| Flattening.StaticallyUnmixed | src/classad/operators.cpp:822-912 | a node is mixed only if exactly one of its two commutative operands has its operator |
| Flattening.UnmixedPreservesMeaning | src/classad/operators.cpp:822-1058 | without such nodes, and with operands of the kinds the operators take, flattening preserves meaning; no condition mentions a residual |
| FlatteningLaws.EvalSucceeds | src/classad/attrrefs.cpp:155-201 | evaluation succeeds when every chain of references fits the depth |
| FlatteningLaws.FlatSucceeds | src/classad/attrrefs.cpp:262-349 | so does flattening |
| FlatteningLaws.FlatSucceedsExactly | src/classad/attrrefs.cpp:262-349 | without conditionals, flattening succeeds if and only if they fit |
| FlatteningLaws.DefinedFlattensToValue | src/classad/operators.cpp:822-1058 | an expression without conditionals whose references are all defined is flattened to a value |
| FlatteningLaws.FlatBringsInNone | src/classad/attrrefs.cpp:262-349 | a residual refers to nothing that the expression does not refer to |
| FlatteningLaws.InliningLeavesNone | src/classad/attrrefs.cpp:262-349 | inlining leaves no reference that the scope defines, unless a selector is known to be UNDEFINED |
| FlatteningLaws.ReferenceMeans | src/classad/attrrefs.cpp:155-201 | a missing attribute is UNDEFINED, any other is worth its definition, and depth 0 follows none |
| FlatteningLaws.ReplacedMeansSame | src/classad/attrrefs.cpp:155-201 | replacing an attribute by its definition everywhere keeps every value |
| FlatteningLaws.ConditionalMeans | src/classad/operators.cpp:554-603 | a truth value chooses an arm and its negation the other; UNDEFINED gives UNDEFINED and anything else ERROR |
| FlatteningLaws.ConditionalIsLogical | src/classad/operators.cpp:554-603 | on truth values `c ? t : f` is `c and t or !c and f` |
| Flattening.MixedSumFlattened | src/classad/operators.cpp:1021-1052 | `1 + x + 2 * y` is flattened to a residual without the 2 |
| Flattening.MixedSumValues | src/classad/operators.cpp:1021-1052 | that residual has a different value than the original |
| Regrouping.RotatesExactly | src/classad/operators.cpp:1005-1052 | `(a op b) op c` is `a op (b op c)` if and only if the same operands clash first |
| Regrouping.SwapsExactly | src/classad/operators.cpp:1005-1052 | the same for `(a op c) op b` |
| Regrouping.ExchangesExactly | src/classad/operators.cpp:993-1004 | the same for `(a op b) op (c op d)` and `(a op c) op (b op d)` |
| Flattening.StrictAssociatesExactly | src/classad/operators.cpp:400-552 | a strict commutative operator associates on three values if and only if UNDEFINED does not meet an error of type |
| Escapes.UnescapeEscapes | src/classad/util.cpp:106-195 | convert_escapes undoes the printer's escapes on every NUL-free string |
| Escapes.CloseFindsEnd | src/classad/lexer.cpp:503-568 | the backslash-parity scan of an escaped string stops at the closing delimiter and nowhere before |
| Escapes.StringRoundTrip | src/classad/sink.cpp:116-168 | every NUL-free string comes back from its literal, and the rest of the input is what follows |
| Escapes.UnparseString | src/classad/sink.cpp:116-168 | the loop over the characters writes the escaped string between quotes |
| Escapes.FindClose | src/classad/lexer.cpp:503-568 | the scanning loop finds the closing delimiter of the grammar of string literals |
| Escapes.ConvertEscapes | src/classad/util.cpp:106-195 | the two-index loop over the buffer computes the unescaped string or rejects a NUL |
| Escapes.TokenizeString | src/classad/lexer.cpp:503-568 | adjacent literals are joined and converted, and an unterminated one is rejected |
| Escapes.AdjacentLiterals | src/classad/lexer.cpp:503-568 | two literals next to each other, white space apart, are read as one string in their order |
| Escapes.WrittenPrintably | src/classad/sink.cpp:116-168 | whatever the string, only printable characters are written, and a plain string as it is |
| Escapes.ControlsShort | src/classad/sink.cpp:116-168 | the seven control characters with a letter are written with it |
| Escapes.OctalTakesLongest | src/classad/util.cpp:106-195 | an octal escape takes as many digits, up to three, as keep it below 256 |
| Escapes.OtherEscapes | src/classad/util.cpp:106-195 | a backslash before any other character stands for that character |
| RelativeTime.FieldsRead | src/classad/literals.cpp:269-357 | whichever of the four formats was chosen, reading backwards recovers days, hours, minutes and seconds |
| RelativeTime.RelTimeRoundTrip | src/classad/util.cpp:280-332 | every whole number of seconds that fits a 32-bit `int` comes back from its text with its sign |
| RelativeTime.PrevNonSpaceChar | src/classad/literals.cpp:376-424 | the index walks back over trailing spaces and no further |
| RelativeTime.TurnRound | src/classad/literals.cpp:376-424 | the digits collected backwards are turned round |
| RelativeTime.CollectDigits | src/classad/literals.cpp:376-424 | the digits ending at an index are exactly those taken off |
| RelativeTime.ReadMarked | src/classad/literals.cpp:269-357 | a number is taken off only in front of its mark |
| RelativeTime.ReadNumber | src/classad/literals.cpp:269-357 | whole seconds and a fraction are read as one number |
| RelativeTime.ReadSeconds | src/classad/literals.cpp:269-357 | an optional mark and the seconds are taken off the end |
| RelativeTime.ReadSign | src/classad/literals.cpp:269-357 | what is left may be a minus sign and nothing else |
| RelativeTime.ReadRelTime | src/classad/literals.cpp:269-357 | the whole backward walk computes the time of the text or rejects it |
| RelativeTime.FractionsRead | src/classad/literals.cpp:269-357 | seconds with a fraction are read to their exact worth, with or without a letter |
| RelativeTime.LettersRead | src/classad/literals.cpp:269-357 | fields marked by letters of either case or by signs are added up |
| RelativeTime.TrailingSpace | src/classad/literals.cpp:374-380 | white space after the text makes no difference |
| RelativeTime.JunkIsError | src/classad/literals.cpp:269-357 | anything but a sign in front of the fields is an error |
| RelativeTime.StrayEndIsError | src/classad/literals.cpp:269-357 | a text that ends with anything but a digit, a mark, a sign or white space is an error |
| Syntax.ParseExpression | src/classad/source.cpp:333-379 | a successful parse consumes at least one token, on every input |
| Syntax.ParseAttrs | src/classad/source.cpp:1149-1229 | the attribute loop of an ad consumes tokens whenever it succeeds |
| RoundTrip.InsertKeepsAd | src/classad/source.cpp:1190-1200 | inserting an attribute keeps names distinct up to case |
| RoundTrip.ExpressionShaped | src/classad/source.cpp:333-379 | every tree the parser returns has the precedence shape of the grammar |
| RoundTrip.LevelShaped | src/classad/source.cpp:381-776 | a tree parsed at a level binds at least as tightly as the level |
| RoundTrip.OperatorsShaped | src/classad/source.cpp:381-776 | the loop of a level builds left-associative trees only |
| RoundTrip.PrimaryShaped | src/classad/source.cpp:893-1090 | primary expressions are shaped, absTime and relTime of a string literal having been evaluated |
| RoundTrip.AttrsShaped | src/classad/source.cpp:1149-1229 | parsed ads have distinct, non-empty names and shaped values |
| RoundTrip.ExpressionReads | src/classad/sink.cpp:262-503 | the tokens of a good tree followed by a token that does not go on are parsed to that tree and leave the rest |
| RoundTrip.LevelReads | src/classad/sink.cpp:366-436 | a printed operator chain is rebuilt left-associatively at its own level |
| RoundTrip.CallReads | src/classad/sink.cpp:438-449 | printed calls are read back unless parsing evaluates them, as it does absTime and relTime of a string literal |
| RoundTrip.AttrsRead | src/classad/sink.cpp:451-485 | printed ads are read back with their attributes in order |
| RoundTrip.TimeReads | src/classad/sink.cpp:107-260 | a relative time printed as a call is evaluated back to the same time |
| ExactRoundTrip.ExpressionBounded | src/classad/source.cpp:333-379 | no parse gains names, selections or minus signs over its tokens |
| ExactRoundTrip.PrintLoses | src/classad/sink.cpp:262-522 | printing loses one of these exactly where the text does not spell the tree |
| ExactRoundTrip.RoundTripExactly | src/classad/sink.cpp:262-522 | a printed tree is read back if and only if the grammar can build it, so that it has no call that parsing evaluates, and its text spells it |
| ExactRoundTrip.TimeCallsEvaluated | src/classad/source.cpp:1294-1345 | the failing family: absTime and relTime of any string literal, spelled in any case, are read as a literal and not as the call that was printed |
| ExactRoundTrip.FullParseTrailing | src/classad/source.cpp:333-379 | a full parse of a printed tree rejects trailing tokens, except after a conditional |
| Reading.ChainReads | src/classad/source.cpp:381-776 | of `a op1 b op2 c` the second operator takes b if and only if its production is nested inside the first, for all operators and operands |
| Reading.ConditionalReads | src/classad/source.cpp:333-379 | a conditional takes a whole operation as its selector |
| Reading.OnlyPrintedTextReads | src/classad/source.cpp:333-1090 | the grammar is unambiguous: text that is read as a tree is the printed text of that tree |
| Reading.ReservedWordsRead | src/classad/lexer.cpp:452-497 | a reference spelled as a reserved word is read as what the word stands for |
| Reading.NegatedNumberReads | src/classad/lexer.cpp:274-300 | a minus sign before a number is read as its sign |
| Reading.SelectionFromInteger | src/classad/lexer.cpp:274-446 | a selection from a plain integer is not read |
| Reading.LaterValueKept | src/classad/source.cpp:1190-1200 | of two attributes with one name the later value is kept, and every other attribute as it was |
| Reading.SemicolonsSkipped | src/classad/source.cpp:1149-1229 | any number of semicolons after an attribute is as good as one, and a lone one is not read |
| Reading.LeadingSemicolons | src/classad/source.cpp:1149-1229 | semicolons in front of the first attribute are skipped |
| Reading.DigitFirst | src/classad/sink.cpp:366-436 | a text whose first token is a positive number begins with a digit, and the other way round |
| Words.UnquotedNamesRead | src/classad/sink.cpp:740-762 | a name is read whole, as one token, if and only if the printer writes it without quotes |
| Words.TokenizeAlphaHead | src/classad/lexer.cpp:452-497 | the two loops read the word at the head of the text |
| Parser.ClassAdParser.ReadExpression | src/classad/source.cpp:333-379 | consumes from the token stream what the grammar says, or yields no tree |
| Parser.ClassAdParser.ReadLevel | src/classad/source.cpp:381-776 | the while loop of each binary level computes its left-associative tree |
| Parser.ClassAdParser.ReadUnary | src/classad/source.cpp:778-821 | unary operators nest to the right |
| Parser.ClassAdParser.ReadPostfix | src/classad/source.cpp:823-890 | the loop of subscripts and selections follows the grammar |
| Parser.ClassAdParser.ReadPrimary | src/classad/source.cpp:893-1090 | literals, references, calls, parentheses, lists and ads follow the grammar |
| Parser.ClassAdParser.ReadAll | src/classad/source.cpp:1093-1143 | the loop of arguments or list elements reads the comma-separated sequence |
| Parser.ClassAdParser.ReadAttrs | src/classad/source.cpp:1149-1229 | the loop of an ad reads its attributes and allows stray semicolons |
| Parser.ClassAdParser.SkipSemicolons | src/classad/source.cpp:1209-1215 | extra semicolons are all consumed |
| Transactions.PlayTouchesOneKey | src/classad/collectionBase.cpp:613-851 | an operation changes nothing under any other key |
| Transactions.ModifyDecides | src/classad/classad.cpp:779-838 | per attribute: a deleted one is gone, otherwise an update decides, then a replacement, then the ad as it was |
| Transactions.UpdateDecides | src/classad/classad.cpp:766-777 | per attribute: the updated value, or the one before |
| Transactions.CommitPlaysInOrder | src/classad/transaction.cpp:85-121 | a commit succeeds if and only if every record plays on the table left by those before it, and then that is the table |
| Transactions.UndoLeaves | src/classad/transaction.cpp:118-166 | after an undo every key holds what its last played record had saved |
| Transactions.UndoFindsAll | src/classad/transaction.cpp:118-166 | the undo uses a missing ad if and only if some record does not find the ad standing at its turn |
| Transactions.FailsCleanly | src/classad/collectionBase.cpp:613-851 | when a failing operation leaves the table untouched, exactly |
| Transactions.AtomicExactly | src/classad/transaction.cpp:85-173 | a failed commit restores the table if and only if every record finds its ad and every key's last backup is its old value |
| Transactions.DistinctAtomic | src/classad/transaction.cpp:85-173 | over distinct keys a failed commit restores the table if and only if the failing record changed nothing and the views take removed ads back |
| Transactions.RepeatedKeyCrashes | src/classad/transaction.cpp:118-166 | adding and removing one key before a failing record makes the undo use an ad that is not there |
| Transactions.RepeatedKeyHalfUndone | src/classad/transaction.cpp:118-166 | updating one key twice before a failing record leaves the first update in place |
| Recovery.LogGrows | src/classad/transaction.cpp:176-240 | every call only appends to the log |
| Recovery.AddedIs | src/classad/collectionBase.cpp:1052-1442 | a call logs nothing, one operation that it played, or one whole committed transaction |
| Recovery.RecoverOpens | src/classad/collectionBase.cpp:290-484 | a log that can be replayed opened each transaction under a name not used before |
| Recovery.HalfLogged | src/classad/collectionBase.cpp:237-484 | the first records of a logged transaction leave the table alone |
| Recovery.WhollyLogged | src/classad/collectionBase.cpp:237-484 | all its records replay to the committed table |
| Recovery.UnloggedExactly | src/classad/collectionBase.cpp:1146-1442 | exactly which calls change the table without logging it |
| Recovery.CrashRecovery | src/classad/collectionBase.cpp:237-484 | for every run from any recovered log, every cut of the log recovers exactly the wholly logged calls, if and only if no call was unlogged and no name reused |
| Recovery.TransactionAsOne | src/classad/collectionBase.cpp:1378-1442 | the operations of a transaction show nowhere before it is closed; then all are committed in order and logged, or none is kept |
| Recovery.ChoosingKeeps | src/classad/collection.cpp:310-318 | choosing a transaction changes nothing else, and only an open one or none can be chosen |
| Recovery.EndsReplay | src/classad/collectionBase.cpp:237-484 | in recovery an aborted transaction leaves nothing behind, and a forgotten one only its changes |
| Recovery.OperationsLogged | src/classad/collectionBase.cpp:1010-1343 | outside transactions an operation is logged exactly when it succeeds, and then has done what recovery will do |
| Recovery.FailedRecordsFail | src/classad/collectionBase.cpp:237-484 | recovery goes on after an operation or a commit exactly when it can be done again |
| Recovery.StrayRecordsFail | src/classad/collectionBase.cpp:237-484 | recovery ends at a record for a transaction that is not open, or at an opening of one that is |
| Collection.ClassAdCollection.PlayClassAdOp | src/classad/collectionBase.cpp:613-851 | plays one operation in place, with its failures |
| Collection.ClassAdCollection.PlayAll | src/classad/transaction.cpp:93-117 | plays records up to the first that fails, saving what each overwrites |
| Collection.ClassAdCollection.UndoAll | src/classad/transaction.cpp:118-166 | undoes the played records first to last |
| Collection.ClassAdCollection.CommitRecords | src/classad/transaction.cpp:85-173 | commits or undoes, as the outcome of the transaction says |
| Collection.ClassAdCollection.LogTransaction | src/classad/transaction.cpp:176-240 | appends the whole transaction to the log |
| Collection.ClassAdCollection.AppendToCurrent | src/classad/collectionBase.cpp:1026-1050 | inside a transaction an operation is only recorded |
| Collection.ClassAdCollection.AddClassAd | src/classad/collectionBase.cpp:1010-1144 | replaces an ad, puts the old one back when the views refuse, logs on success; tells which |
| Collection.ClassAdCollection.ChangeClassAd | src/classad/collectionBase.cpp:1146-1279 | changes an ad in place and logs the change unless the views refuse it; tells whether the ad was there and the views took it |
| Collection.ClassAdCollection.RemoveClassAd | src/classad/collectionBase.cpp:1282-1343 | removes and logs an ad that is there; fails only inside a transaction that is gone |
| Collection.ClassAdCollection.OpenTransaction | src/classad/collectionBase.cpp:1378-1403 | opens a transaction under a name not in use and makes it current |
| Collection.ClassAdCollection.CloseTransaction | src/classad/collectionBase.cpp:1406-1442 | commits and logs or drops a transaction; succeeds if and only if it is there and its commit goes through |
| Collection.ClassAdCollection.SetCurrentTransaction | src/classad/collection.cpp:310-318 | switches to an active transaction or to none |
| Collection.ClassAdCollection.OperateInRecoveryMode | src/classad/collectionBase.cpp:237-484 | one log record as recovery takes it |
| Collection.ClassAdCollection.ReadLogFile | src/classad/collection.cpp:383-419 | the loop replays the log until a record fails |
| ViewOrder.LessIsAsymmetric | src/classad/view.cpp:88-125 | the member order is asymmetric |
| ViewOrder.NotLessChains | src/classad/view.cpp:88-125 | "not less" is transitive, so the order is a strict weak one |
| ViewOrder.AlikeExactly | src/classad/view.cpp:88-125 | two members are one to the container if and only if key and rank agree or both have the same untied rank |
| ViewOrder.KindsOrdered | src/classad/view.cpp:88-125 | members are ordered by the kind of their rank, then by rank, then by key |
| ViewOrder.InsertMember | src/classad/view.cpp:890-895 | inserting adds the member and nothing else |
| ViewOrder.EraseAlike | src/classad/view.cpp:950-964 | erasing by value removes exactly the members that are alike |
| ViewOrder.InsertKeepsOrder | src/classad/view.cpp:890-895 | the list stays ordered by rank and key |
| Views.InsertExact | src/classad/view.cpp:826-898 | after an insertion every view of the tree holds exactly the ads that satisfy it and the views above it |
| Views.DeleteExact | src/classad/view.cpp:1042-1077 | the same after a deletion |
| Views.ModifyExact | src/classad/view.cpp:924-1039 | the same after a modification, whatever views the ad enters or leaves |
| Views.InsertTidy | src/classad/view.cpp:826-898 | an insertion keeps every list and index in agreement |
| Views.DeleteTidy | src/classad/view.cpp:1042-1077 | a deletion keeps every list and index in agreement |
| Views.RerankAgrees | src/classad/view.cpp:947-964 | moving a member keeps list and index together if and only if its rank is no boolean turned into another number, and no other member is erased with it |
| Views.ModifyTidy | src/classad/view.cpp:924-1039 | a modification keeps the whole tree in agreement if and only if every view that reorders it does so safely |
| Views.BooleanRankListedTwice | src/classad/view.cpp:947-964 | a rank that changes from one truth value to the other is looked up as an integer, so the old member stays and the list holds the key twice |
| ViewTree.AddViewExact | src/classad/view.cpp:573-615 | a subordinate view added anywhere comes up with exactly its members |
| ViewTree.TableFollows | src/classad/collectionBase.cpp:1010-1343 | what each call does to the table of ads, key by key |
| ViewTree.AddViewExactly | src/classad/view.cpp:573-615 | whatever the lists hold, the new view is exact if and only if its parent's list names the same of the ads it takes as the parent's index |
| ViewTree.IndexesStayExact | src/classad/view.cpp:826-1077 | in every run, whatever the changes do to the ordered lists, all indexes stay exact if and only if every new view is filled from such a list |
| ViewTree.ViewsStayExact | src/classad/view.cpp:826-1077 | in every run all views stay exact and ordered, each key once, if and only if every change of a rank finds the member that moves and erases it alone |
| ViewNodes.ViewNode.constructor | src/classad/view.cpp:135-152 | a new view is empty and on its own |
| ViewNodes.ViewNode.InsertSubordinateView | src/classad/view.cpp:573-615 | the new view becomes the first child with the members it takes |
| ViewNodes.ViewNode.ClassAdInserted | src/classad/view.cpp:826-898 | on the heap, the insertion updates the tree as the value says |
| ViewNodes.ViewNode.ClassAdDeleted | src/classad/view.cpp:1042-1077 | on the heap, the deletion updates the tree as the value says |
| ViewNodes.ViewNode.ClassAdModified | src/classad/view.cpp:924-1039 | on the heap, the modification updates the tree as the value says, with the ranks promoted by the comparison |
| ViewNodes.FillView | src/classad/view.cpp:598-612 | the loop fills a new view from its parent's list |
| Truncation.SubtreeReplays | src/classad/collectionBase.cpp:1644-1692 | the records of a subtree, parents first, rebuild it below its parent |
| Truncation.ViewsReplay | src/classad/collectionBase.cpp:1644-1692 | all view records rebuild the mirror image of the tree |
| Truncation.MirroredReflects | src/classad/collectionBase.cpp:1559-1692 | exact views over the same table with mirrored shapes have the same constraints, ranks and members |
| Truncation.TruncationPreserves | src/classad/collectionBase.cpp:1559-1692 | replaying a truncated log recreates the table and every view with its constraint, rank and members, siblings in opposite order |
| Storage.LineAt | src/classad/indexfile.cpp:129-156 | reads exactly the bytes up to the next newline or the end |
| Storage.AppendIndex | src/classad/indexfile.cpp:173-187 | appending a line indexes it at the old end of the file and moves nothing |
| Storage.StarIndex | src/classad/indexfile.cpp:201-235 | starring a line takes its key out of the index and moves nothing |
| Storage.StarBytes | src/classad/indexfile.cpp:201-235 | overwriting the bytes in place is starring the line |
| Storage.ScanRebuilds | src/classad/collectionBase.cpp:1829-1859 | scanning the bytes rebuilds exactly the index |
| Storage.CompactHolds | src/classad/indexfile.cpp:45-103 | the live lines written in any order hold the same ads |
| Cache.IndexFile.ReadLine | src/classad/indexfile.cpp:129-156 | the character loop reads one line |
| Cache.IndexFile.GetClassadFromFile | src/classad/indexfile.cpp:129-156 | an indexed offset starts the one live line of its key |
| Cache.IndexFile.DeleteFromStorageFile | src/classad/indexfile.cpp:201-235 | the line of the key, if any, is gone and every other stays |
| Cache.IndexFile.WriteBack | src/classad/indexfile.cpp:173-187 | the key now has this line and every other stays |
| Cache.IndexFile.Rescan | src/classad/collectionBase.cpp:100-107 | the start-up scan yields the index |
| Cache.IndexFile.CopyLive | src/classad/indexfile.cpp:45-85 | the copy loop writes the live lines and their new offsets |
| Cache.IndexFile.TruncateStorageFile | src/classad/indexfile.cpp:45-103 | the new bytes and offsets hold the same lines |
| Cache.SwapOutKeeps | src/classad/collectionBase.cpp:1867-1902 | evicting any ad keeps the two levels coherent and changes no lookup |
| Cache.AddRefines | src/classad/collectionBase.cpp:1052-1144 | adding, with any eviction, is adding to one map |
| Cache.SwitchInRefines | src/classad/collectionBase.cpp:1694-1763 | switching in, with any eviction, changes nothing and brings in a clean ad |
| Cache.ChangeRefines | src/classad/collectionBase.cpp:1146-1197 | an update in memory is an update of the map |
| Cache.RemoveRefines | src/classad/collectionBase.cpp:1282-1343 | removing is removing from the map, even though the dirty mark stays |
| Cache.UnmarkedChange | src/classad/collectionBase.cpp:702-747 | a change played without marking the ad keeps the levels coherent if and only if the ad was dirty or did not change |
| Cache.CachedCollection.MaybeSwapOut | src/classad/collectionBase.cpp:1867-1902 | a full cache gives up one ad, written back when dirty |
| Cache.CachedCollection.AddClassAd | src/classad/collectionBase.cpp:1052-1144 | the ads are the old ones with this one added; a refused one leaves them as they were, except that an ad that was only in the file is lost |
| Cache.CachedCollection.SwitchInClassAd | src/classad/collectionBase.cpp:1694-1763 | the ad is in memory and the ads are the same |
| Cache.CachedCollection.ChangeClassAd | src/classad/collectionBase.cpp:1146-1279 | the ads are the old ones with this one changed, or the call fails; a refused change stays, and the levels still agree if and only if the ad was dirty or did not change |
| Cache.CachedCollection.RemoveClassAd | src/classad/collectionBase.cpp:1282-1343 | the ads are the old ones without this one |
| Cache.CachedCollection.GetClassAd | src/classad/collectionBase.cpp:1346-1375 | answers with the ad of the map, wherever it is |
| ExprCache.OneEntry | src/classad/classadCache.cpp:62-122 | at most one live entry for a name in any case and a text |
| ExprCache.LookFlushed | src/classad/classadCache.cpp:125-147 | a flush takes out the one pair it names, although a single value is not compared |
| ExprCache.HandleCoherent | src/classad/classadCache.cpp:62-147 | every event keeps the map and the live entries in agreement and the counters balanced |
| ExprCache.HitsShare | src/classad/classadCache.cpp:62-122 | a hit answers with the entry first cached and drops the new tree |
| ExprCache.EntriesStay | src/classad/classadCache.cpp:289-299 | an entry keeps its text and tree while it lives |
| ExprCache.LivesWhileHeld | src/classad/classadCache.cpp:289-299 | an entry goes if and only if its last envelope is dropped |
| ExprCache.AlwaysCoherent | src/classad/classadCache.cpp:62-147 | in every run the map holds exactly the live entries, and misses equal removals plus live entries |
| ExprCache.EnvelopesCounted | src/classad/classadCache.cpp:62-147 | every event counts the envelopes it hands out or takes back, and every request once |
| ExprCache.EntriesCountEnvelopes | src/classad/classadCache.cpp:289-299 | in every run an entry counts exactly the envelopes that are out, and lives exactly while there is one |
| ExprCache.ClassAdCache.CacheTree | src/classad/classadCache.cpp:62-122 | a hit shares the live entry, a miss enters a new one |
| ExprCache.ClassAdCache.CheckHit | src/classad/classadCache.cpp:362-381 | a check never enters anything |
| ExprCache.ClassAdCache.Flush | src/classad/classadCache.cpp:125-147 | the entry is found whenever it is flushed |
| ExprCache.ClassAdCache.Release | src/classad/classadCache.cpp:289-299 | the last release flushes the entry |
| CcbServer.AllocateFinds | src/ccb/ccb_server.cpp:892-918 | the allocation loop ends if and only if an identifier is free, and then yields a free one, across wrap-around |
| CcbServer.AllocateNearest | src/ccb/ccb_server.cpp:892-918 | the allocated identifier is the nearest free one going round, and the next allocation starts right after it |
| CcbServer.RoomByCount | src/ccb/ccb_server.cpp:892-918 | fewer records than identifiers leave a free one |
| CcbServer.LinkedMeans | src/ccb/ccb_server.h:49-64 | a request is in the global table if and only if its registered target holds it |
| CcbServer.RegisteredLinked | src/ccb/ccb_server.cpp:392-468 | registering or reclaiming keeps the tables linked and the target has a record |
| CcbServer.AddRequestLinked | src/ccb/ccb_server.cpp:968-1004 | a new request enters both tables under a new identifier |
| CcbServer.RemoveTargetLinked | src/ccb/ccb_server.cpp:937-966 | removing a target drops exactly its requests |
| CcbServer.SweepLinked | src/ccb/ccb_server.cpp:1339-1384 | a sweep prunes exactly the records of unregistered targets that are too old |
| CcbServer.SweepKeepsRecords | src/ccb/ccb_server.cpp:1339-1384 | with registered targets a sweep keeps their records if and only if the interval is not negative |
| CcbServer.HandleLinked | src/ccb/ccb_server.cpp:392-696 | every handler keeps requests, targets, records and watched sockets in agreement |
| CcbServer.AlwaysLinked | src/ccb/ccb_server.cpp:392-1131 | so does every run of handlers |
| CcbServer.RepliesTruly | src/ccb/ccb_server.cpp:583-696 | success is replied only for a request whose identifier and connect id a target gave back |
| CcbServer.ForwardsTruly | src/ccb/ccb_server.cpp:720-754 | what is forwarded is the request just asked, to the target asked for, under an identifier that was free and now is the request's |
| CcbServer.AskAnswered | src/ccb/ccb_server.cpp:480-572 | every request is answered: forwarded, refused because the target cannot be told, or rejected because it is not there |
| CcbServer.ResultAnswered | src/ccb/ccb_server.cpp:583-696 | a result with the right connect id is passed on as it is and finishes the request |
| CcbServer.ResultRefused | src/ccb/ccb_server.cpp:583-696 | a result that cannot be matched is not passed on; a wrong connect id or no identifier disowns the target |
| CcbServer.RegistrationAssigns | src/ccb/ccb_server.cpp:831-935 | a daemon gets its identifier back exactly with the address and cookie on record, and else a free one with a new record |
| CcbServer.DeparturesDrop | src/ccb/ccb_server.cpp:937-1060 | a target that goes takes along its requests and nothing else, and a client its own request |
| CcbServer.SweepKeeps | src/ccb/ccb_server.cpp:1339-1384 | a due sweep keeps exactly the records of registered targets and of those alive within two intervals |
| CcbServer.HoldsOnlyAsked | src/ccb/ccb_server.cpp:480-573 | the broker holds no request that nobody asked |
| CcbBroker.Broker.RemoveRequest | src/ccb/ccb_server.cpp:1015-1039 | leaves both tables without the request |
| CcbBroker.Broker.RemoveTarget | src/ccb/ccb_server.cpp:937-966 | the loop hangs up on every request and no removal fails |
| CcbBroker.Broker.TakeTargetId | src/ccb/ccb_server.cpp:892-918 | the loop skips taken identifiers and those kept for a reconnect |
| CcbBroker.Broker.AddTarget | src/ccb/ccb_server.cpp:892-933 | the new target has an identifier without target or record, and a record |
| CcbBroker.Broker.ReconnectTarget | src/ccb/ccb_server.cpp:831-889 | reclaims if and only if record, address and cookie agree; the insertion cannot fail |
| CcbBroker.Broker.HandleRegistration | src/ccb/ccb_server.cpp:392-468 | the record asserted before the reply is there |
| CcbBroker.Broker.TakeRequestId | src/ccb/ccb_server.cpp:968-988 | the loop skips request identifiers in use |
| CcbBroker.Broker.AddRequest | src/ccb/ccb_server.cpp:968-1004 | neither insertion can fail |
| CcbBroker.Broker.HandleRequest | src/ccb/ccb_server.cpp:480-573 | rejects, forwards or fails a request as the tables say |
| CcbBroker.Broker.HandleRequestResultsMsg | src/ccb/ccb_server.cpp:583-696 | a result finishes, drops or disowns a request as the tables say |
| CcbBroker.Broker.MarkAlive | src/ccb/ccb_server.cpp:1361-1366 | every registered target has a record to mark |
| CcbBroker.Broker.Prune | src/ccb/ccb_server.cpp:1368-1376 | the loop removes exactly the records too old |
| CcbBroker.Broker.SweepReconnectInfo | src/ccb/ccb_server.cpp:1339-1384 | the sweep keeps the tables linked |
| CcbSafety.ServedSafe | src/ccb/ccb_server.cpp:583-809 | the broker's part keeps the whole system safe |
| CcbSafety.NextSafe | src/ccb/ccb_listener.cpp:412-577 | every step of broker, daemon or client keeps the system safe; a daemon reports success after it wrote the hello |
| CcbSafety.EndToEnd | src/ccb/ccb_client.cpp:751-831 | in every run a success reply means the hello was written to the client's address with its connect id, and an attached connection carries the client's own id |
| CcbSafety.RequestForwarded | src/ccb/ccb_server.cpp:480-754 | a request for a registered target is forwarded, and no message that was out is lost |
| CcbSafety.ExchangeCompletes | src/ccb/ccb_client.cpp:485-831 | from every safe state a run leads to the client attached to its own connection and told of success |
| CcbSafety.AcceptedOnce | src/ccb/ccb_client.cpp:750-831 | a connection that was accepted or given up on is not attached again |
| CcbSafety.BrokerSteps | src/ccb/ccb_server.cpp:393-1060 | the broker's own steps do what its handlers do, and everything it says goes out |
| CcbSafety.FailuresReported | src/ccb/ccb_listener.cpp:501-577 | a daemon reports exactly whether it connected and wrote everything |
| Reconnect.LineReads | src/ccb/ccb_server.cpp:1269-1294 | a written record line reads back as its record |
| Reconnect.IdsSaturate | src/ccb/ccb_server.cpp:37-44 | a number is read up to the first character that is no digit, and from 2^64 on as 2^64 - 1 |
| Reconnect.LoadReads | src/ccb/ccb_server.cpp:1226-1267 | a file of records loads as the records in order, later ones over earlier ones |
| Reconnect.NextPasses | src/ccb/ccb_server.cpp:1226-1267 | the next identifier passes every loaded one, unless the largest identifier is among them |
| Reconnect.RewriteHolds | src/ccb/ccb_server.cpp:1296-1337 | a rewritten file holds the table it was written from |
| Reconnect.RecordsSurvive | src/ccb/ccb_server.cpp:1168-1384 | after any run of registrations and sweeps a restart reads back the same table, and the next identifier is a hundred past it if and only if none wraps around |
| Reconnect.RestartJumpsAhead | src/ccb/ccb_server.cpp:1226-1267 | when the first identifier and every one in use are more than a hundred below the largest, the next identifier after a restart is a hundred past all in use |
| Reconnect.LoadReconnectInfo | src/ccb/ccb_server.cpp:1226-1267 | the line loop loads the file and jumps ahead by a hundred, with wrap-around |
| Reconnect.SaveAllReconnectInfo | src/ccb/ccb_server.cpp:1296-1337 | the loop writes each record of the table |
| CcbClient.NextAsserts | src/ccb/ccb_client.cpp:485-510 | the insertion into the waiting table fails if and only if the next contact is malformed |
| CcbClient.NextSound | src/ccb/ccb_client.cpp:485-595 | trying a broker consumes one contact, or gives up when none is left |
| CcbClient.HandleSound | src/ccb/ccb_client.cpp:598-831 | no callback trips an assertion or loses count of references |
| CcbClient.CompletesOnce | src/ccb/ccb_client.cpp:485-831 | in every run the socket leaves the connecting state at most once; until then the deadline is armed, afterwards nothing is left |
| CcbClient.FailuresExhaust | src/ccb/ccb_client.cpp:605-654 | failures use up the contacts one by one, and only then does the client give up |
| CcbClient.EventsEnd | src/ccb/ccb_client.cpp:598-831 | an arriving connection is attached; the deadline, a cancel and the last failure give up; a success leaves the client waiting |
| CcbClient.MisuseAsserts | src/ccb/ccb_client.cpp:784-831 | the assertions fail exactly on entering the table twice, leaving it twice or ending twice |
| CcbClient.CCBClient.TryNextCcb | src/ccb/ccb_client.cpp:485-595 | with a well-formed contact next the insertion cannot fail and the client is left waiting or done |
| CcbClient.CCBClient.CCBResultsCallback | src/ccb/ccb_client.cpp:605-654 | a failed result moves on to the next broker |
| CcbClient.CCBClient.ReverseConnectCallback | src/ccb/ccb_client.cpp:784-831 | ends the attempt once and releases callback and table entry, with every reference accounted for |
| CcbClient.CCBClient.DeadlineExpired | src/ccb/ccb_client.cpp:724-733 | the deadline ends the attempt |
| CcbClient.CCBClient.ReverseConnectArrives | src/ccb/ccb_client.cpp:750-782 | an arriving connection ends the attempt |
| CcbListener.HandleSound | src/ccb/ccb_listener.cpp:74-262 | every event leaves exactly one thing under way, and only the connect callback releases a connect's reference |
| CcbListener.NeverWedges | src/ccb/ccb_listener.cpp:74-410 | so does every run after the first register call |
| CcbListener.CanRegister | src/ccb/ccb_listener.cpp:74-262 | from every sound state a run of possible events leads to being registered |
| CcbListener.EventsLead | src/ccb/ccb_listener.cpp:74-410 | what each event leads to: which ones register, and which ones hang up and retry |
| CcbListener.FirstCall | src/ccb/ccb_listener.cpp:74-160 | the first call connects, or waits to try again |
| CcbListener.HangingUp | src/ccb/ccb_listener.cpp:225-262 | hanging up leaves only the retry and lets go of an outstanding connect |
| CcbListener.CCBListener.RegisterWithCCBServer | src/ccb/ccb_listener.cpp:74-160 | the first call leaves exactly one thing under way; a later one changes nothing while something is |
| CcbListener.CCBListener.CCBConnectCallback | src/ccb/ccb_listener.cpp:178-199 | the socket is there, and the connect's reference is released |
| CcbListener.CCBListener.HangUp | src/ccb/ccb_listener.cpp:225-262 | hangs up and leaves only the retry under way |
| CcbListener.CCBListener.ReadMsgFromCCB | src/ccb/ccb_listener.cpp:349-387 | a message registers, starts a reversed connection or hangs up |
| CcbListener.CCBListener.ReverseConnected | src/ccb/ccb_listener.cpp:501-543 | the result is reported and the reference released |
| CcbListener.CCBListener.OnReconnectTime | src/ccb/ccb_listener.cpp:201-207 | the retry starts an attempt |
| CcbListener.CCBListener.OnHeartbeatTime | src/ccb/ccb_listener.cpp:324-340 | a silent broker is hung up on |

## Left out

- Real numbers, absolute times, lists and nested ads as values: the operators and `Flatten` are modelled on UNDEFINED, ERROR, booleans, integers and strings.
- References into other scopes (`expr.attr`, `.attr`) in evaluation and flattening; the grammar has them.
- Shift counts outside 0..63, which are undefined in the source, are taken modulo 64; the loop for `>>` of a negative number runs the full count.
- The rest of the lexer: the printer is modelled by the tokens its text is read as, with the rules that join a minus sign or a dot to a number; only string literals are modelled by characters.
- Reading.OnlyPrintedTextReads: trees with ads, which may have extra semicolons, and text that names `absTime` or `relTime` are excluded.
- ExactRoundTrip.RoundTripExactly: relative times are whole seconds below 2^31, because fractions are printed with a floating-point format; strings and quoted names are NUL-free, as the lexer rejects the text of others; trees that hold absolute time literals are excluded.
- What absolute time an `absTime` literal stands for, which depends on the calendar and the local time zone: the model keeps its text.
- Old ClassAd syntax, XML, pretty printing with minimal parentheses, and the functions of fnCall.cpp.
- Flattening.FlattenPreservesMeaning: a mixed node is taken only if it is harmless for all operands, not where two particular operands happen to agree.
- Escapes.StringRoundTrip: characters are single bytes and a following string literal is excluded, because the lexer joins adjacent literals.
- RelativeTime.RelTimeRoundTrip: seconds of a magnitude of 2^31 and more, whose conversion to `int` in the writer is undefined.
- Transactions are values in the table of the collection, not objects of their own; the ads they hold are copied, not shared.
- Adding the very object that is already in the table, log records that lack a key or an ad, and failing writes to the log.
- The `Context` attribute of `Modify` and malformed lists of deletions.
- Recovery.CrashRecovery: a line cut in the middle counts as not written, as the reader stops at a line it cannot parse; whether the views refuse an ad is a fixed function of key, old and new ad.
- Partitions of views, `SetViewInfo`, and deleting views; a view whose rank cannot be evaluated; ranks that are reals, lists or ads.
- ViewTree.IndexesStayExact: an index entry keeps its member when a change to another ad erased it from the list; in the source that entry is then a dangling iterator.
- Views.Exact says that a recorded rank is identical to the current one in the sense of `is`, which takes `true` and `1` to be the same.
- Cache mode with checkpoints.
- Cache.IndexFile.TruncateStorageFile: the contract is about the new bytes and offsets only; the source renames the new file without reopening it, so the open descriptor still reads the old one.
- Cache.CachedCollection.AddClassAd: the text of an ad in the storage file is any text that parses back to the key and the ad.
- Choosing the ad to evict at random: any ad in memory may be chosen.
- The spelling of a name in the expression cache, which is that of the first entry under it.
- The broker's sockets, polling, timers and authentication: a message or a failure to send one is part of an event; the clock of a sweep is read once.
- CcbServer.HandleLinked: a configured sweep interval that is negative is excluded; `CcbServer.SweepKeepsRecords` shows that it must be.
- CcbSafety.EndToEnd: participants do not invent messages, and a connect id belongs to one client at one address.
- Reconnect.RecordsSurvive: every write succeeds, and each line fits the 128-byte buffer.
- The blocking path of the client, and a client whose socket handler calls back into it.
- CcbListener.NeverWedges: the socket of a pending connect counts as not connected for the heartbeat; registering in blocking mode is not modelled.
