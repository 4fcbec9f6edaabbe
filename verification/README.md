# glsld-core: the preprocessor, the expression parser, constant evaluation, overloads and interning

glsld-core is a front end for the OpenGL Shading Language. This project models the parts of it that
carry the hardest obligations and proves what they are for.

* **Macro expansion** (`MacroSyntax`, `MacroExpansion`, `MacroRefinement`, `MacroArguments`,
  `MacroProcessor`, `MacroReplacement`, `MacroStandard`, `MacroDepartures`, `MacroFailures`, `MacroFed`). A processor
  withholds the name of a function-like macro, expands each argument with a nested processor as it is
  read, and rescans the body with the macro disabled. `MacroExpansion` has this transducer as functions
  and the recursive expander of whole token lists, `MacroRefinement` proves that they agree; `MacroProcessor` has the object with its
  buffers, proved against the functions. `MacroReplacement` and `MacroStandard` have the replacement and
  the expansion that the standard prescribes and prove when the code agrees; `MacroDepartures` and
  `MacroFailures` have when and where it does not. `MacroFed` is about what processors are fed.
* **Conditional compilation** (`Conditionals`, `ConditionalLines`, `ConditionalGroups`,
  `ConditionalSelection`, `Preprocessor`, `PPCondition`, `PreprocessedText`,
  `PreprocessedPieces`). A state machine collects directives token by token; a stack and a skip
  counter decide what is active. What lines and conditions do is left to a `Host`, so the results hold
  whatever macros are defined on the way. `PPCondition` is the condition of `#if` itself, and
  `PreprocessedText` and `PreprocessedPieces` put conditionals, conditions and macros together.
* **Two expression parsers** (`PPEval`, `PPStandard`, `PPUnique`, `PPIdentifiers`; `ParserState`, `Recovery`, `ExprAst`, `ExprParser`,
  `ExprRanges`, `ExprGrammar`, `ExprStandard`, `ExprComplete`, `ExprSound`, `ExprUnique`, `ExprLanguage`, `Parsers`; `ParserAgreement`). The preprocessor evaluates
  with two stacks; the parser climbs precedences and recovers from errors. Both are proved to accept
  exactly their grammars, which are unambiguous and those of the standard (`ExprStandard`, `PPStandard`:
  a production for each row, naming tokens), and to agree on what they share.
* **Constant evaluation** (`ConstEval`, `FullEval`, `LazyRefinement`, `AstBuilders`). Aggregates are evaluated lazily; nodes are
  numbered in build order, and the builder keeps references pointing backwards.
* **Overloads, types, names** (`Typing`, `Overload`, `SymbolTables`, `Redeclarations`, `OutputRanking`, `Types`, `AstContexts`).
* **Interning** (`Arenas`, `AtomTables`).

Where the source works in place, the model is a class whose methods are proved against functions, and
the laws are proved about the functions. Loops of the source are loops. Standard: sections 3.3, 4.1.9,
4.1.10, 4.3.3, 5.1 and 6.1 of the OpenGL Shading Language 4.60 specification.

## Where the code departs from its intent

The code is modelled as it is. In these places it does not do what it is for; each has a concrete
failure, an exact condition, or both among the lemmas.

* An argument starts in front of the comma that delimits it, so every argument but the first carries a
  comma into the text (`MacroArguments.SubstituteExactIff`, `SecondArgumentKeepsItsComma`).
* A replacement is rescanned on its own and not with the tokens behind it: `G(1)` is not a call if `G`
  is defined as the name of a function-like macro (`MacroDepartures.UseIsPrescribedIffSettled`,
  `MacroFailures.AliasIsNotCalled`).
* A name that was met in its own replacement is replaced again when an argument carries it elsewhere
  (`MacroFailures.BlockedNameIsReplacedAgain`).
* An unclosed call drops all its tokens but the name, and leaves a parenthesis counter behind that the
  assertions of the processor exclude (`MacroDepartures.CallIsPrescribedIffClosed`,
  `MacroArguments.UnclosedCallKeepsOnlyTheName`, `FinalizeResetsUnlessInArguments`).
* `#` in a macro body looks for its identifier one token too far and drops two tokens
  (`MacroSyntax.HashDropsTwoTokens`); `#` is no operand of `##` (`MacroFailures.HashesAreNotPasted`).
* A chain of `##` with an operand of several tokens vanishes, and one whose operands are all empty
  becomes an end-of-file token, which the processors assert they are never fed
  (`MacroReplacement.ReplacementIsPrescribedIff`, `MacroFed.NoEofIsFedIff`,
  `MacroFailures.LongOperandVanishes`, `EmptyPasteEndsFile`, `EmptyPasteIsFed`).
* Where none of these is met, expansion is as prescribed (`MacroStandard.RegularIsPrescribed`). That is
  no necessary condition, since a wrong replacement can be dropped later on
  (`MacroFailures.RegularityIsNotNecessary`).
* An identifier that is left in a condition is taken as 0 and not as an error
  (`PPIdentifiers.EvaluationIsPrescribedIff`, `UnknownNameIsZero`).
* `#elif` forgets branches taken earlier (`ConditionalSelection.SelectionIsPrescribedIff`,
  `TwoBranchesAreProcessed`).
* An `#ifdef` without a name opens no conditional, but its `#endif` closes one
  (`ConditionalGroups.StackAndSkippedAreTheDepthIff`).
* The assertion in front of the halt fails at the end of a file exactly in an inactive region
  (`ConditionalSelection.EndAssertionIff`, `UnclosedGroupFailsTheAssertion`).
* `()` and `a[]` are read as expressions without an error (`ExprLanguage.AcceptedIsSentenceIff`,
  `EmptyParensAreAccepted`, `EmptySubscriptIsAccepted`).
* Recovery in an argument list can stop at a comma inside a bracket opened since, if a bracket from
  before was closed first (`Recovery.CommaIsOutside`, `CommaInsideBracket`).
* Array sizes are folded from the wrong end (`Types.ArrayAsPrescribedIff`, `SizesAreReversed`).
* A function that is declared twice is never found by converting arguments
  (`Redeclarations.RedeclarationIsHarmlessIff`, `PrototypeHidesDefinition`).
* Conversions of `int` to `uint` are preferred to those to floating-point numbers, which section 6.1
  leaves unordered (`Typing.RankingIsPrescribedIff`). Another check in the ranking looks at the left
  conversion twice; this is harmless (`Typing.BetterIffLowerRank`).
* Conversions of output parameters are not ranked (`OutputRanking.OutputsResolveIffAlone`,
  `FloatOutputIsNotPreferred`).
* A string with a NUL is registered under its part before the NUL (`AtomTables.AtomsKeptIff`,
  `NulMovesAtom`).
* The names of a declaration become visible only behind the whole declaration, not each behind its own
  initializer (`AstBuilders.SeesDeclaratorsIff`, `DeclareTogether`).

## Model

| member | source | states |
|---|---|---|
| `MacroRefinement.StreamRefinesExpand` | glsld-core/src/Compiler/Preprocessor.cpp:13-300 | For every macro table, set of disabled macros and token list: feeding the tokens one at a time to a fresh processor and finalizing yields exactly what a recursive expander of the whole list yields (arguments expanded on their own, substituted, rescanned with the macro disabled). |
| `MacroExpansion.Feed` | glsld-core/include/Compiler/Preprocessor.h:254-312 | Every token keeps the state in which what is asserted of processors holds: a withheld name iff a pending macro, an open parenthesis iff arguments are read, a nested processor iff arguments are read. (What is asserted of the fed tokens is in MacroFed.) Recursion ends because the enabled macros shrink first and the nesting second. |
| `MacroFed.NoEofIsFedIff` | glsld-core/src/Compiler/Preprocessor.cpp:13-16 | From a token list and macro bodies without the end of the input, no macro processor is fed the end of the input, as asserted, if and only if no ## on the way pastes an empty text. |
| `MacroFailures.EmptyPasteIsFed` | glsld-core/src/Compiler/Preprocessor.cpp:254-262 | Concrete failure: with C(a, b) defined as a ## b, the tokens C ( , ) feed the end of the input. |
| `MacroExpansion.FeedAll` | glsld-core/src/Compiler/Preprocessor.cpp:13-23 | A whole list of tokens, fed to a processor in a valid state, leaves it in a valid state. |
| `MacroRefinement.FeedAllAppend` | glsld-core/src/Compiler/Preprocessor.cpp:13-23 | Feeding two lists one after the other is feeding their concatenation: outputs concatenate and the state is passed on. |
| `MacroRefinement.CollectRefines` | glsld-core/src/Compiler/Preprocessor.cpp:34-103 | From any point inside the argument list of a call, the streaming processor yields what the batch form makes of the whole call and of what follows it, also if the call is never closed. |
| `MacroRefinement.FinishArgumentExpands` | glsld-core/include/Compiler/Preprocessor.h:277-283 | When an argument is finished, the slices of withheld tokens are the expansions of the arguments read so far, all but the first with the comma in front. |
| `MacroRefinement.CloseExpands` | glsld-core/src/Compiler/Preprocessor.cpp:67-86 | The parenthesis that closes a call yields the rescan of the body with exactly the collected arguments, and nothing is pending afterwards. |
| `MacroRefinement.CommaKeepsCollecting` | glsld-core/src/Compiler/Preprocessor.cpp:87-92 | A comma at depth one ends an argument and starts the next one in front of that comma. |
| `MacroRefinement.TokenKeepsCollecting` | glsld-core/src/Compiler/Preprocessor.cpp:93-101 | Any other token only moves the nested processor and the parenthesis depth on. |
| `MacroExpansion.ReadCall` | glsld-core/src/Compiler/Preprocessor.cpp:34-103 | A call that is found leaves fewer tokens behind it than there were, and its arguments are no longer than the text. |
| `MacroExpansion.BuiltinsExpand` | glsld-core/src/Compiler/Preprocessor.cpp:104-152 | Whatever macros are defined, __LINE__ expands to the number literal of its line counted from one, __FILE__ to that of its file and __VERSION__ to that of the language, each located at the name. |
| `MacroSyntax.DisablingShrinks` | glsld-core/include/Compiler/Preprocessor.h:461-478 | Disabling an enabled macro strictly shrinks the set of enabled macros: the measure under which bodies and rescans end. |
| `MacroSyntax.SplitCallSpells` | glsld-core/src/Compiler/Preprocessor.cpp:34-103 | Splitting a call into arguments loses and reorders nothing: arguments, commas, the closing parenthesis and the rest spell the input. |
| `MacroSyntax.SubstituteSplits` | glsld-core/src/Compiler/Preprocessor.cpp:195-297 | A body without # and ## is replaced token by token, wherever it is cut: parameters by their arguments, all else by itself relocated to the use. |
| `MacroSyntax.PasteJoinsTexts` | glsld-core/src/Compiler/Preprocessor.cpp:213-268 | x ## y contributes the token that the two texts lex to, parameters standing for their unexpanded arguments, or nothing if an argument has several tokens. |
| `MacroArguments.ExpandPiecewise` | glsld-core/src/Compiler/Preprocessor.cpp:13-32 | Wherever no name or call is pending, the expansion of a list is the concatenation of the expansions of its parts. |
| `MacroArguments.SplitCallFailsIff` | glsld-core/src/Compiler/Preprocessor.cpp:57-86 | The argument list is unclosed exactly if no prefix closes more parentheses than it opens. |
| `MacroArguments.UnclosedCallKeepsOnlyTheName` | glsld-core/include/Compiler/Preprocessor.h:284-292 | In an unclosed call only the macro name is yielded; every token behind it is lost. |
| `MacroArguments.FinalizeResetsUnlessInArguments` | glsld-core/include/Compiler/Preprocessor.h:284-292 | A finalized processor is in a state its own assertions allow exactly if no argument list was open: the parenthesis counter is not reset. |
| `MacroArguments.SubstituteCountsCommas` | glsld-core/include/Compiler/Preprocessor.h:267-276 | Each use of an argument other than the first adds exactly one comma too many to the text. |
| `MacroArguments.SubstituteExactIff` | glsld-core/include/Compiler/Preprocessor.h:267-276 | The text of a call is the text without the delimiting commas if and only if the body uses no argument but the first outside ##. |
| `MacroArguments.CommasDoNotMatter` | glsld-core/src/Compiler/Preprocessor.cpp:87-92 | With a table whose bodies use only first arguments outside ##, every token list is expanded as by the same expander without the delimiting commas. |
| `MacroArguments.SecondArgumentKeepsItsComma` | glsld-core/src/Compiler/Preprocessor.cpp:87-92 | Concrete failure: with F(a, b) defined as b, F(x, y) becomes ", y". |
| `MacroReplacement.ReplacementIsPrescribedIff` | glsld-core/src/Compiler/Preprocessor.cpp:195-297 | Where the standard gives a macro use a replacement (as many arguments as parameters, every ## result one token), the code substitutes that text if and only if no # has an identifier two tokens behind it, each argument that is an operand of ## has at most one token, and no chain of ## is empty altogether. |
| `MacroStandard.RegularIsPrescribed` | glsld-core/src/Compiler/Preprocessor.cpp:13-300 | Every regular token list (each call closed, each replacement settling and fitting by that condition, no name that is being replaced inside an argument, only first arguments used outside ##) is expanded as section 3.3 prescribes, with the C++ reference: replacements rescanned together with the tokens behind them, names met in their own replacement never replaced again, ## with placemarkers, unclosed calls left as they are. |
| `MacroStandard.PrescribedIsUnique` | glsld-core/src/Compiler/Preprocessor.cpp:13-300 | That reference prescribes at most one result for a token list. |
| `MacroDepartures.UseIsPrescribedIffSettled` | glsld-core/src/Compiler/Preprocessor.cpp:296-300 | For every macro use, object-like or a call, with a regular replacement: whatever regular tokens follow, the code expands them as prescribed if and only if the replacement leaves no macro name open at its end. |
| `MacroDepartures.CallIsPrescribedIffClosed` | glsld-core/include/Compiler/Preprocessor.h:284-292 | If nothing else departs, a call with what follows it is expanded as prescribed if and only if it is closed. |
| `MacroFailures.AliasIsNotCalled` | glsld-core/src/Compiler/Preprocessor.cpp:296-300 | Concrete failure: with F(p) defined as p and G as F, the tokens G ( 1 ) become F ( 1 ) where 1 is prescribed. |
| `MacroFailures.LongOperandVanishes` | glsld-core/src/Compiler/Preprocessor.cpp:213-268 | Concrete failure: with C(a, b) defined as a ## b, the tokens C ( x y , z ) vanish where x yz is prescribed. |
| `MacroFailures.EmptyPasteEndsFile` | glsld-core/src/Compiler/Preprocessor.cpp:254-262 | Concrete failure: the tokens C ( , ) become an end-of-file token where nothing is prescribed. |
| `MacroFailures.HashesAreNotPasted` | glsld-core/src/Compiler/Preprocessor.cpp:205-213 | Concrete failure: a body # ## # stays as it is where ## is prescribed. |
| `MacroFailures.BlockedNameIsReplacedAgain` | glsld-core/include/Compiler/Preprocessor.h:461-478 | Concrete failure: with A defined as x A, the tokens F ( A ) become x x A where x A is prescribed. |
| `MacroFailures.RegularityIsNotNecessary` | glsld-core/src/Compiler/Preprocessor.cpp:13-300 | The converse of RegularIsPrescribed is false: with F(p) defined as nothing, F ( A ) is irregular and still expanded as prescribed. |
| `MacroSyntax.HashDropsTwoTokens` | glsld-core/src/Compiler/Preprocessor.cpp:205-213 | Concrete failure: in a body # p x the tokens # and p are dropped, and in # p none is. |
| `MacroProcessor.MacroExpansionProcessor.Feed` | glsld-core/src/Compiler/Preprocessor.cpp:13-23 | The object with its buffers and nested processor changes exactly as the transducer, appends exactly its yields to the output buffer, and restores the shared set of disabled macros. |
| `MacroProcessor.MacroExpansionProcessor.FeedMacroExpansion` | glsld-core/src/Compiler/Preprocessor.cpp:180-300 | Feeds the replaced body to a new processor while the macro is disabled; afterwards the set of disabled macros is exactly as before. |
| `MacroProcessor.MacroExpansionProcessor.FeedBody` | glsld-core/src/Compiler/Preprocessor.cpp:195-297 | The scanning loop over the body feeds precisely the substituted body. |
| `MacroProcessor.MacroExpansionProcessor.NextReplacement` | glsld-core/src/Compiler/Preprocessor.cpp:196-295 | One step of the scanner: the tokens fed and the position behind them are those of the recursive substitution. |
| `MacroProcessor.MacroExpansionProcessor.PasteTokens` | glsld-core/src/Compiler/Preprocessor.cpp:240-252 | The loop over a chain of ## collects the pasted text and stops behind the chain. |
| `MacroProcessor.MacroExpansionProcessor.FindParameter` | glsld-core/src/Compiler/Preprocessor.cpp:271-286 | The search loop finds the first parameter of that name. |
| `MacroProcessor.MacroExpansionProcessor.FeedArgument` | glsld-core/src/Compiler/Preprocessor.cpp:57-102 | A token of an argument list, in place: closes the call, starts the next argument or goes to the nested processor. |
| `MacroProcessor.MacroExpansionProcessor.Finalize` | glsld-core/src/Compiler/Preprocessor.cpp:24-33 | Puts out the withheld macro name only. |
| `MacroProcessor.ExpandTokens` | glsld-core/src/Compiler/Preprocessor.cpp:1085-1129 | One object fed a whole list computes its batch expansion, with the disabled macros as before. |
| `PPCondition.EvaluatePPExpression` | glsld-core/src/Compiler/Preprocessor.cpp:1083-1132 | For every token list: true exactly if the list consists of pieces defined X, defined ( X ) and other tokens, and with each of the first two kinds answered by 1 or 0 as X is in the macro table or not, its macro expansion is a condition of section 3.3 (own grammar, no table of the code) with a value other than zero. |
| `PPCondition.ExpandCondition` | glsld-core/src/Compiler/Preprocessor.cpp:1085-1128 | The scanning loop fails exactly if the list does not consist of such pieces (a malformed defined), and otherwise computes the expansion of the list with those answers. |
| `PPCondition.ResolvedToAnswers` | glsld-core/src/Compiler/Preprocessor.cpp:1090-1127 | For every table and token list: resolving defined fails exactly where there are no such pieces, and gives exactly their answers. |
| `PPCondition.DefinedHoldsIff` | glsld-core/src/Compiler/Preprocessor.cpp:1093-1117 | For every table and name: the conditions defined X and defined ( X ) hold if and only if X is in the macro table. |
| `PPCondition.NotDefinedHoldsIff` | glsld-core/src/Compiler/Preprocessor.cpp:1083-1132 | ! defined X and ! defined ( X ) hold exactly if the operator ! gives a value other than zero for 1 or 0, as X is in the macro table or not. |
| `PPEval.EvaluateCorrect` | glsld-core/src/Compiler/PPEval.cpp:7-101 | For every token list: the two-stack evaluator returns v exactly if the list is a sentence of the layered grammar with a parse tree of value v. In particular the value does not depend on the tree. |
| `PPStandard.EvaluateIsStandard` | glsld-core/src/Compiler/PPEval.cpp:7-168 | For every token list: the evaluator returns v exactly if the list is a condition in a grammar with one production for each row of the operator table of section 3.3 that names its tokens, and v is its meaning: 1 and 0 for the answers of defined, 0 for identifiers, each operator by its own token. |
| `PPStandard.StandardLayers` | glsld-core/src/Compiler/PPEval.cpp:126-168 | The layers of the operator tables of the code are these productions, each in both directions. |
| `PPEval.EvaluateComplete` | glsld-core/src/Compiler/PPEval.cpp:7-101 | The yield of every parse tree evaluates to the value of that tree. |
| `PPUnique.TreeIsUnique` | glsld-core/src/Compiler/PPEval.cpp:126-168 | A sentence of the layered grammar has exactly one parse tree. |
| `PPIdentifiers.EvaluationIsPrescribedIff` | glsld-core/src/Compiler/PPEval.cpp:7-101 | A value is prescribed for a condition if and only if the evaluator returns it and no identifier is left in the condition: section 3.3 makes those an error. |
| `PPIdentifiers.UnknownNameIsZero` | glsld-core/src/Compiler/PPEval.cpp:7-101 | Concrete failure: a name that is no macro evaluates to 0. |
| `PPEval.RunTree` | glsld-core/src/Compiler/PPEval.cpp:259-278 | Reading a subtree leaves the stacks as they were, with its value on top, up to operators that any later operator of an outer layer evaluates first. |
| `PPEval.RunSound` | glsld-core/src/Compiler/PPEval.cpp:7-101 | A run that returns a value has read the yield of a parse tree with that value. |
| `PPEval.ShadowSizes` | glsld-core/src/Compiler/PPEval.cpp:224-278 | Key invariant: the number of values is the number of binary operators on the stack, plus one iff a left operand has been parsed. |
| `PPEval.EvalTopSound` | glsld-core/src/Compiler/PPEval.cpp:224-257 | In any reachable state, evaluating the operator on top cannot fail and builds the tree of that operator. |
| `PPEval.PushSound` | glsld-core/src/Compiler/PPEval.cpp:259-278 | Pushing a binary operator first completes exactly the operands it must not capture. |
| `PPEval.CloseSound` | glsld-core/src/Compiler/PPEval.cpp:16-32 | A closing parenthesis completes the expression inside the innermost open one. |
| `PPEval.DrainSound` | glsld-core/src/Compiler/PPEval.cpp:88-100 | Evaluating what is left on the stack at the end gives one tree for the whole input. |
| `PPEval.PPExprEvaluator.EvalOperatorOnTop` | glsld-core/src/Compiler/PPEval.cpp:224-257 | In place: pops the operator and its operands, pushes the result; fails exactly if an operand is missing or a parenthesis is on top. |
| `PPEval.PPExprEvaluator.PushOperator` | glsld-core/src/Compiler/PPEval.cpp:259-278 | The reducing loop leaves the stacks as the recursive definition does. |
| `PPEval.PPExprEvaluator.Evaluate` | glsld-core/src/Compiler/PPEval.cpp:7-101 | On empty stacks the scanning loop returns v exactly if the tokens denote v. |
| `Conditionals.Dispatch` | glsld-core/src/Compiler/Preprocessor.cpp:349-463 | Dispatching a token keeps: resting in Inactive iff the innermost conditional is inactive, and a directive is collected only if it will be handled. A redirected token is dispatched at most once more, and no transition assertion fails. |
| `Conditionals.TransitionToDefault` | glsld-core/include/Compiler/Preprocessor.h:527-536 | Reached only from a state in which a directive was expected, with the innermost conditional active. |
| `Conditionals.TransitionToInactive` | glsld-core/include/Compiler/Preprocessor.h:541-549 | Reached only behind a directive other than #include, with the innermost conditional inactive. |
| `Conditionals.FeedPPToken` | glsld-core/include/Compiler/Preprocessor.h:423-447 | The machine halts exactly on the end of the main file. |
| `ConditionalLines.DispatchStart` | glsld-core/src/Compiler/Preprocessor.cpp:377-463 | A token that starts a line meets the conditionals as they are behind the directive that ends there. |
| `ConditionalLines.FeedLine` | glsld-core/src/Compiler/Preprocessor.cpp:377-463 | Token by token or line by line: the same conditionals and the same effects, for every line. |
| `ConditionalGroups.RunKeepsInvariant` | glsld-core/src/Compiler/Preprocessor.cpp:713-868 | On every run over any lines: only the innermost conditional can be inactive, conditionals are skipped only inside it, and what an entry remembers fits its activity. |
| `ConditionalGroups.NextBranchIsInactive` | glsld-core/src/Compiler/Preprocessor.cpp:777-844 | No two adjacent branches of a group are both active. |
| `ConditionalGroups.StackAndSkippedAreTheDepthIff` | glsld-core/src/Compiler/Preprocessor.cpp:713-868 | All along every run of lines, the height of the stack plus the skip counter is the nesting depth, if and only if no #ifdef or #ifndef without a name is met in an active region. |
| `ConditionalGroups.StackRefinesGroups` | glsld-core/src/Compiler/Preprocessor.cpp:713-868 | For every balanced text, its directives told by their spelled words: running its lines with the stack and the counter computes the meaning of its nested groups, where a line is processed iff every group around it has selected its branch (that of #ifdef X iff X is defined, of #ifndef X iff not), and restores stack and counter. |
| `ConditionalGroups.WordsOf` | glsld-core/src/Compiler/Preprocessor.cpp:472-502 | The machine takes a line as if, ifdef, ifndef, elif, else, endif or include exactly if the token behind the # is spelled so. |
| `ConditionalGroups.IfdefOpensIff` | glsld-core/src/Compiler/Preprocessor.cpp:738-775 | For every host and every active state: # ifdef X opens one entry, which is active if and only if X is defined, and # ifndef X one that is active if and only if it is not. |
| `ConditionalGroups.InactiveTextIsSkipped` | glsld-core/src/Compiler/Preprocessor.cpp:713-868 | A balanced text in an inactive region changes nothing at all. |
| `ConditionalGroups.TailRefinesGroups` | glsld-core/src/Compiler/Preprocessor.cpp:777-868 | The branches of a group up to its #endif pop exactly its entry. |
| `ConditionalSelection.SelectionIsPrescribedIff` | glsld-core/src/Compiler/Preprocessor.cpp:777-844 | The code selects the branches the language prescribes if and only if no true condition comes two or more branches behind another one and, in front of an #else, only the last condition is true. |
| `ConditionalSelection.CodedBranchAt` | glsld-core/src/Compiler/Preprocessor.cpp:801-802 | A branch is active iff its condition is true and the branch just before it is not active. |
| `ConditionalSelection.TakenBranchIsForgotten` | glsld-core/src/Compiler/Preprocessor.cpp:801-802 | Concrete failure on condition values: behind true, false an #else is still selected. |
| `ConditionalSelection.TwoBranchesAreProcessed` | glsld-core/src/Compiler/Preprocessor.cpp:801-802 | Concrete failure on lines: running #if 1, x, #elif 0, #else, y, #endif processes x and y where x alone is prescribed. |
| `ConditionalSelection.HarmlessTextIsPrescribed` | glsld-core/src/Compiler/Preprocessor.cpp:777-844 | A balanced text whose groups all meet that condition when reached means what the language prescribes. |
| `ConditionalSelection.NextBranchFollows` | glsld-core/src/Compiler/Preprocessor.cpp:777-844 | The stack entry of a group follows the selection by condition values. |
| `ConditionalSelection.FeedLines` | glsld-core/src/Compiler/Preprocessor.cpp:304-347 | Feeding the tokens of some lines is running the lines. |
| `ConditionalSelection.EndAssertionIff` | glsld-core/include/Compiler/Preprocessor.h:553-557 | At the end of any file, the assertion in front of the halt holds if and only if the innermost conditional is active. |
| `ConditionalSelection.UnclosedGroupFailsTheAssertion` | glsld-core/include/Compiler/Preprocessor.h:553-557 | Concrete failure: a file that consists of #if 0. |
| `PreprocessedText.FileIsExpanded` | glsld-core/src/Compiler/Preprocessor.cpp:304-463 | With one macro table, a balanced file is preprocessed to the expansion, as one list, of all tokens in selected branches, and one end-of-file token: the conditional machine, the conditions and the macro transducer taken together. |
| `PreprocessedPieces.FileIsExpandedInPieces` | glsld-core/src/Compiler/Preprocessor.cpp:304-524 | If directives change the macro table only where nothing is pending, a balanced file is preprocessed to the expansions of its pieces, each with the table in force for it, and one end-of-file token. |
| `PreprocessedText.ConditionHolds` | glsld-core/src/Compiler/Preprocessor.cpp:1083-1132 | The condition used there is the one that the condition evaluator of the object decides. |
| `PreprocessedText.IfdefSelects` | glsld-core/src/Compiler/Preprocessor.cpp:738-775 | In every group, with any further branches, the lines of #ifdef X are in the text that is expanded exactly if X is in the macro table, those of #ifndef X exactly if it is not, and the other branches are selected behind that. |
| `PreprocessedText.IfDefinedSelects` | glsld-core/src/Compiler/Preprocessor.cpp:713-736 | So are the lines of #if defined X and #if defined ( X ), exactly if X is in the macro table. |
| `ConditionalSelection.BalancedFile` | glsld-core/include/Compiler/Preprocessor.h:423-447 | A balanced file ends in Halt without conditionals; its nested groups have been processed, then macro expansion is finalized, then one end-of-file token is put out last. |
| `Preprocessor.PreprocessStateMachine.PreprocessSourceFile` | glsld-core/src/Compiler/Preprocessor.cpp:304-347 | The reading loop, which skips text in inactive regions, feeds the machine as if it saw every token. |
| `Preprocessor.PreprocessStateMachine.FeedPPToken` | glsld-core/include/Compiler/Preprocessor.h:423-447 | In place, the object takes exactly the step of the machine. |
| `Preprocessor.PreprocessStateMachine.DispatchTokenToHandler` | glsld-core/src/Compiler/Preprocessor.cpp:349-375 | The state switch, with the redirections, takes exactly the step of the machine. |
| `Preprocessor.PreprocessStateMachine.DispatchPPDirectiveToHandler` | glsld-core/src/Compiler/Preprocessor.cpp:465-524 | The chain of comparisons calls the handler that the spelled word asks for, and stack, counter and effects change as the machine has it, whose words are those of WordsOf. |
| `Preprocessor.PreprocessStateMachine.HandleIfDirective` | glsld-core/src/Compiler/Preprocessor.cpp:713-736 | Opens an entry in an active region, counts a skipped conditional otherwise. |
| `Preprocessor.PreprocessStateMachine.HandleIfdefDirective` | glsld-core/src/Compiler/Preprocessor.cpp:738-775 | The same for #ifdef and #ifndef; without a name it opens nothing. |
| `Preprocessor.PreprocessStateMachine.HandleElifDirective` | glsld-core/src/Compiler/Preprocessor.cpp:777-807 | Overwrites both flags of the innermost entry, unless skipped or behind an #else. |
| `Preprocessor.PreprocessStateMachine.HandleElseDirective` | glsld-core/src/Compiler/Preprocessor.cpp:809-844 | Activates the #else iff the entry has not seen an active branch, once. |
| `Preprocessor.PreprocessStateMachine.HandleEndifDirective` | glsld-core/src/Compiler/Preprocessor.cpp:846-868 | Undoes the matching skip or entry. |
| `Preprocessor.PreprocessFile` | glsld-core/src/Compiler/Preprocessor.cpp:304-347 | An object run over a balanced file halts with no conditional left and the effects of the nested groups. |
| `ParserState.RecoverStopsAtFirstSyncPoint` | glsld-core/src/Compiler/Parser.cpp:1967-2066 | For each mode, recovery only moves forward and stops at the end or at the first token where that mode may go on (stated mode by mode, apart from the code), under the depths behind the skipped prefix; it goes on with the depths that the mode prescribes, and the counted depth never falls below its entry value before. |
| `ParserState.StopsIffSync` | glsld-core/src/Compiler/Parser.cpp:2010-2062 | The switch over tokens stops exactly where the mode may go on, and adjusts the depths as it prescribes. |
| `Recovery.DepthsCount` | glsld-core/src/Compiler/Parser.cpp:2068-2105 | Behind any tokens each counter is what was open before and not closed since, none below zero, plus what was opened since and not closed. |
| `Recovery.CommaIsOutside` | glsld-core/src/Compiler/Parser.cpp:2036-2041 | In an argument list recovery stops at a comma only outside all parentheses and braces opened since; and outside all brackets opened since if and only if none was open before or none of those was closed meanwhile. |
| `Recovery.CommaInsideBracket` | glsld-core/src/Compiler/Parser.cpp:2036-2041 | Concrete failure: with ] [ , in the arguments of a call within brackets, recovery stops at the comma inside the bracket just opened. |
| `ParserState.Consume` | glsld-core/src/Compiler/Parser.cpp:2068-2105 | The end of the input is never passed; each delimiter changes its own counter only, saturating at zero. |
| `ParserState.RecoverFromError` | glsld-core/src/Compiler/Parser.cpp:1967-2066 | Ends in front of a token that the mode may stop at, with mode and errors unchanged. |
| `ExprParser.ParseExpr` | glsld-core/src/Compiler/Parser.cpp:1016-1026 | In recovery mode afterwards, the lookahead ends the statement, or nothing was read; the cursor never moves back. |
| `ExprParser.ParseCommaExpr` | glsld-core/src/Compiler/Parser.cpp:1040-1055 | Entered in parsing mode, it returns in parsing mode or in recovery mode in front of ; or an open } or the end, on every token stream; so do all productions below. |
| `ExprParser.ParseAssignmentExprWithLhs` | glsld-core/src/Compiler/Parser.cpp:1097-1113 | The assertion behind an assignment operator never fails. |
| `ExprParser.ParseBinaryExpr` | glsld-core/src/Compiler/Parser.cpp:1194-1232 | Terminates on every token stream: an operator that is taken is always consumed. |
| `ExprParser.ParsePostfixExpr` | glsld-core/src/Compiler/Parser.cpp:1271-1358 | The postfix loop makes progress each time and keeps the recovery invariant. |
| `ExprParser.ParseClosingParen` | glsld-core/src/Compiler/Parser.cpp:87-113 | Whatever happened inside, the lookahead invariant of recovery mode holds again behind a closing parenthesis. |
| `ExprParser.ParseClosingBracket` | glsld-core/src/Compiler/Parser.cpp:115-141 | The same for a closing bracket. |
| `ExprParser.ParseCommaInParen` | glsld-core/src/Compiler/Parser.cpp:64-85 | Another argument follows only if a comma was consumed and the parser is not recovering. |
| `ExprRanges.RangesExpr` | glsld-core/src/Compiler/Parser.cpp:1016-1055 | On every run, with or without recovery, the ranges of the nodes form a tree: each contains its children, siblings are in order and disjoint, and all lie between the cursors. |
| `ExprRanges.RangesBinary` | glsld-core/src/Compiler/Parser.cpp:1194-1232 | Precedence climbing extends the range of its left operand and keeps the ranges nested. |
| `ExprRanges.RangesPostfix` | glsld-core/src/Compiler/Parser.cpp:1271-1374 | Postfix chains, calls and constructors keep the ranges nested. |
| `ExprSound.ParsesExactlyTheGrammar` | glsld-core/src/Compiler/Parser.cpp:1016-1466 | Followed by a token that ends expressions, a list of tokens is read exactly, without an error, if and only if it is an expression of the standard (a grammar with one production for each operator row of section 5.1, naming tokens and using no table of the parser) or one with empty parentheses or subscripts, and the tree built is that of the derivation, operator by operator. |
| `ExprUnique.CstIsUnique` | glsld-core/src/Compiler/Parser.cpp:1016-1466 | A list of tokens has at most one derivation: the parse tree is the only normal one. |
| `ExprLanguage.AcceptedIsSentenceIff` | glsld-core/src/Compiler/Parser.cpp:1412-1438 | A list of tokens is an expression of the standard, by productions that name tokens and use no table of the parser, if and only if it is read without an error and the tree built has no error node; the tree is that of each of its derivations, and what is accepted in excess are exactly those with an empty () or an empty subscript. |
| `ExprStandard.StandardLevels` | glsld-core/src/Compiler/Parser.cpp:1148-1192 | For every derivation and each of the 16 productions, postfix, unary, the eleven binary rows of section 5.1, conditional, assignment and sequence: it is one of the standard exactly if it is in the grammar of the parser and binds at least as tightly as that row. |
| `ExprStandard.GrammarIsStandard` | glsld-core/src/Compiler/Parser.cpp:1016-1466 | The derivations that the parser accepts are those of the standard with the two gaps added, and those without a gap are those of the standard. |
| `ExprLanguage.GapsAreErrorNodes` | glsld-core/src/Compiler/Parser.cpp:1412-1438 | Empty parentheses and empty subscripts are exactly what error nodes of a silently built tree stand for. |
| `ExprLanguage.EmptyParensAreAccepted` | glsld-core/src/Compiler/Parser.cpp:1418-1421 | Concrete failure: () is read without an error and is no sentence. |
| `ExprLanguage.EmptySubscriptIsAccepted` | glsld-core/src/Compiler/Parser.cpp:1432-1435 | Concrete failure: a[] is read without an error and is no sentence. |
| `ExprSound.SoundExpr` | glsld-core/src/Compiler/Parser.cpp:1016-1026 | Without a reported error, the tokens read are the yield of a derivation, and the tree is that derivation. |
| `ExprSound.SoundBinary` | glsld-core/src/Compiler/Parser.cpp:1194-1232 | Precedence climbing builds a normal tree: left children bind at least as tightly as their operator, right children strictly tighter, by levels that StandardLevels proves to be the rows of section 5.1; the yield is exactly the tokens read; and reading stops only at an operator looser than the minimum. |
| `ExprSound.SoundArguments` | glsld-core/src/Compiler/Parser.cpp:1440-1466 | Argument lists without an error are sentences of their grammar, and the parentheses balance. |
| `ExprComplete.CompleteExpr` | glsld-core/src/Compiler/Parser.cpp:1016-1055 | The yield of every derivation is parsed back, without an error and to its end, into its tree. |
| `ExprComplete.AbsorbBinary` | glsld-core/src/Compiler/Parser.cpp:1194-1232 | Climbing from the first operand of a binary derivation reaches its end with its tree, whatever looser operator follows. |
| `ExprComplete.CompleteUnary` | glsld-core/src/Compiler/Parser.cpp:1254-1269 | The same for prefix operators and what they apply to. |
| `ExprComplete.CompleteList` | glsld-core/src/Compiler/Parser.cpp:1440-1466 | The same for lists of arguments. |
| `Parsers.Parser.RecoverFromError` | glsld-core/src/Compiler/Parser.cpp:1967-2066 | The skipping loop on the object does what the recursive definition does. |
| `Parsers.Parser.ConsumeToken` | glsld-core/src/Compiler/Parser.cpp:2068-2105 | In place: cursor and counters move as specified. |
| `Parsers.Parser.ParseBinaryExpr` | glsld-core/src/Compiler/Parser.cpp:1194-1232 | The outer climbing loop on the object computes the tree and the state of the function of the same name. |
| `Parsers.Parser.ParseOperand` | glsld-core/src/Compiler/Parser.cpp:1213-1224 | The inner climbing loop terminates and computes the right operand. |
| `Parsers.Parser.ParseCommaExpr` | glsld-core/src/Compiler/Parser.cpp:1040-1055 | The comma loop on the object. |
| `Parsers.Parser.ParseConditionalExpr` | glsld-core/src/Compiler/Parser.cpp:1115-1140 | The conditional expression on the object, with the missing colon inferred. |
| `Parsers.Parser.ParsePostfixExpr` | glsld-core/src/Compiler/Parser.cpp:1271-1358 | The postfix loop on the object. |
| `Parsers.Parser.ParseFunctionArgumentList` | glsld-core/src/Compiler/Parser.cpp:1440-1466 | The argument loop on the object. |
| `Parsers.Parser.ParseParenWrappedExpr` | glsld-core/include/Compiler/Parser.h:79-105 | The guard that consumes ( and closes on exit. |
| `Parsers.ParseWholeExpr` | glsld-core/src/Compiler/Parser.cpp:1016-1466 | A parser object run on a whole input accepts exactly the expressions of the standard, empty parentheses and subscripts added, and returns the trees of their derivations. |
| `ParserAgreement.ParsersAgree` | glsld-core/src/Compiler/Parser.cpp:1148-1232 | Whatever the preprocessor evaluator accepts (over tokens both know), the expression parser reads to its end without an error, and evaluating its tree under the same operator semantics gives the same value. |
| `ParserAgreement.TablesReverseOrder` | glsld-core/src/Compiler/PPEval.cpp:126-168 | On shared operators the two precedence tables order operators in opposite directions. |
| `ParserAgreement.BinaryTables` | glsld-core/src/Compiler/PPEval.cpp:126-168 | Shared binary operators stand for the same operation in both tables. |
| `LazyRefinement.LazyIsFull` | glsld-core/src/Ast/Eval.cpp:287-449 | For every node of every program: the lazy result is the constant, or an aggregate whose items denote the parts, of the value of an evaluator that builds aggregates in full and spells out operators, arities and lengths by itself. |
| `LazyRefinement.BinaryNode` | glsld-core/src/Ast/Eval.cpp:98-162 | For every constant binary node: its value is the operator applied to the value of the left and of the right operand, in that order, exactly if neither is an error and the operator is neither comma nor assignment, and otherwise an error. |
| `LazyRefinement.UnaryNode` | glsld-core/src/Ast/Eval.cpp:70-96 | For every constant unary node but .length(): its value is the operator applied to that of the operand, exactly if that is no error and the operator has no effect. |
| `LazyRefinement.LengthNode` | glsld-core/src/Ast/Eval.cpp:318-337 | .length() is the number of components of a vector, of columns of a matrix, of elements of a sized array, and an error for all else, whatever the operand evaluates to. |
| `ConstEval.EvalLazy` | glsld-core/src/Ast/Eval.cpp:287-437 | Terminates although it follows resolved names; a returned aggregate holds only nodes built before the evaluated one. |
| `ConstEval.Unwrap` | glsld-core/src/Ast/Eval.cpp:58-68 | Projecting keeps that bound, which the nested evaluation needs to end. |
| `LazyRefinement.UnwrapIsComponent` | glsld-core/src/Ast/Eval.cpp:58-68 | Projecting a lazy result denotes the component of the full value, out-of-range and negative indices included. |
| `AstBuilders.AstBuilder.constructor` | glsld-core/include/Compiler/SymbolTable.h:122-128 | A builder starts on top of the nodes and the declarations of a preamble, whose constants may have initializers. |
| `AstBuilders.AstBuilder.Create` | glsld-core/src/Compiler/AstBuilder.cpp:67-98 | Every node is built after all nodes it refers to. |
| `AstBuilders.AstBuilder.BuildNameAccessExpr` | glsld-core/src/Compiler/AstBuilder.cpp:128-168 | A name resolves to the innermost visible declaration, whose initializer has been built earlier; it is constant iff that is a const variable. |
| `AstBuilders.AstBuilder.BuildVariableDecl` | glsld-core/src/Compiler/AstBuilder.cpp:1005-1037 | Each declaration gets the given initializer, cast to its type, which is that of the initializer where the outermost size is open and the elements are the same, and the declared one otherwise; the struct of the type and then the names become visible together, behind all initializers, the first one of a level winning. |
| `AstBuilders.DeclareUnsized` | glsld-core/src/Compiler/AstBuilder.cpp:1014-1022 | Concretely: int a[] = int[3](x, x, x) declares a with the type int[3]. |
| `AstBuilders.SeesDeclaratorsIff` | glsld-core/src/Compiler/AstBuilder.cpp:1005-1037 | A name in the initializer of a declarator refers to what it should (the declarators in front of it included) if and only if none of those adds the name to the level. |
| `AstBuilders.DeclareTogether` | glsld-core/src/Compiler/AstBuilder.cpp:128-168 | Concrete failure: in int a = 1, b = a; the initializer of b refers to nothing and is no constant. |
| `AstBuilders.AstBuilder.TryMakeImplicitCast` | glsld-core/src/Compiler/AstBuilder.cpp:1140-1158 | Casts exactly expressions whose type differs from a context type that is no error. |
| `AstBuilders.AstBuilder.BuildBinaryExpr` | glsld-core/src/Compiler/AstBuilder.cpp:764-782 | The operands are the given ones, in order, cast to the deduced operand types; constant exactly if both are, the type is known and the operator is neither comma nor assignment. |
| `AstBuilders.AstBuilder.BuildSelectExpr` | glsld-core/src/Compiler/AstBuilder.cpp:784-813 | The type is that of both branches or the one that the other converts to; each branch is the given one, cast to it; constant exactly if all three operands are and the type is known. |
| `AstBuilders.AstBuilder.BuildInitializerList` | glsld-core/src/Compiler/AstBuilder.cpp:67-98 | The items are the given ones in order, each cast to the type of its position; constant exactly if all are. |
| `AstBuilders.AstBuilder.BuildConstructorCallExpr` | glsld-core/src/Compiler/AstBuilder.cpp:862-897 | The arguments are the given ones in order, each cast to the type of its position; constant exactly if all are. |
| `AstBuilders.AstBuilder.BuildFunctionCallExpr` | glsld-core/src/Compiler/AstBuilder.cpp:825-860 | The arguments are the given ones in order, cast to the parameter types if a function was found; constant exactly if that is evaluated at compile time and all arguments are constant. |
| `AstBuilders.EvaluationIsStable` | glsld-core/src/Compiler/AstBuilder.cpp:1005-1037 | Building more never changes what an earlier node evaluates to. |
| `SymbolTables.SymbolTable.FindFunction` | glsld-core/src/Compiler/SymbolTable.cpp:114-199 | Returns the first exact match of the global levels (structurally the same types), otherwise the one viable candidate better than every other, otherwise nothing; viable by the conversions of section 4.1.10 as a relation of its own, better by ranks from a table of its own. |
| `Overload.FilterCandidates` | glsld-core/src/Compiler/SymbolTable.cpp:114-149 | The first loop: an exact match as soon as it is met, otherwise all viable candidates in order (none if an exact match is required); both stated without the functions of the code. |
| `Overload.SelectBest` | glsld-core/src/Compiler/SymbolTable.cpp:151-198 | The second loop: the best candidate if there is one; the ambiguity branch is unreachable. |
| `Overload.IsBetter` | glsld-core/src/Compiler/SymbolTable.cpp:160-185 | The counters decide exactly: no conversion worse, at least one better. |
| `Overload.BestIsUnique` | glsld-core/src/Compiler/SymbolTable.cpp:187-196 | At most one candidate is better than all others. |
| `SymbolTables.ResolutionIgnoresOrder` | glsld-core/src/Compiler/SymbolTable.cpp:114-199 | Without an exact match, any permutation of the candidates resolves alike. |
| `SymbolTables.SoleExactMatchIsBest` | glsld-core/src/Compiler/SymbolTable.cpp:121-128 | For input parameters only, a sole exact match is also what the second pass would select. |
| `OutputRanking.OutputsResolveIffAlone` | glsld-core/src/Compiler/SymbolTable.cpp:160-185 | Conversions of output parameters are not ranked: among functions with output parameters only, a viable one is selected if and only if it is the only viable one. |
| `OutputRanking.FloatOutputIsNotPreferred` | glsld-core/src/Compiler/SymbolTable.cpp:160-185 | Concrete failure: for f(out int) and f(out float) and a double argument, neither is found, although section 6.1 prefers the conversion from float. |
| `Redeclarations.DeclaredTwiceIsNeverBest` | glsld-core/src/Compiler/SymbolTable.cpp:6-27 | A function that is declared twice is never found by converting arguments. |
| `Redeclarations.RedeclarationIsHarmlessIff` | glsld-core/src/Compiler/SymbolTable.cpp:6-27 | Without an exact match, a call resolves as if every function were declared once if and only if the function it would then resolve to is declared once. |
| `Redeclarations.PrototypeHidesDefinition` | glsld-core/src/Compiler/SymbolTable.cpp:6-27 | Concrete failure: f(float), declared and then defined, is not found for an int argument; declared once it is. |
| `SymbolTables.SymbolTableLevel.AddVariableDecl` | glsld-core/src/Compiler/SymbolTable.cpp:47-60 | Declares the struct of the type, then the declarators in order; what is declared already or has no name stays out. |
| `SymbolTables.SymbolTable.FindSymbol` | glsld-core/src/Compiler/SymbolTable.cpp:103-112 | The declaration of the innermost level that has one. |
| `SymbolTables.SymbolTableLevel.TryAddSymbol` | glsld-core/src/Compiler/SymbolTable.cpp:69-84 | Declares a new name; a declared one keeps its declaration. |
| `SymbolTables.SymbolTable.PopLevel` | glsld-core/src/Compiler/SymbolTable.cpp:86-101 | Restores the levels below; the global ones stay. |
| `Typing.BetterIffLowerRank` | glsld-core/src/Ast/Type.cpp:401-435 | One conversion is better than another exactly if its rank, read from a table by target and source, is lower: a strict weak order, although one check looks at the left conversion twice. |
| `Typing.ConvertibleIff` | glsld-core/src/Ast/Type.cpp:365-399 | For all types: the code converts exactly the same types, errors, scalars by the table of section 4.1.10 (int to uint, float and double, uint to float and double, float to double) extended by the rows of the added scalars, vectors of one size by that table, and matrices of one shape to double. |
| `Typing.MatrixConvertsIff` | glsld-core/src/Ast/Type.cpp:391-397 | Between matrices that exist, this is the table again, restricted to double. |
| `Typing.RankingIsPrescribedIff` | glsld-core/src/Language/Typing.cpp:224-262 | On the scalars without extensions, two conversions are ranked as section 6.1 does if and only if they are not int to uint and int to a floating-point type: those the standard leaves unordered. |
| `Typing.ConvertibleKinds` | glsld-core/src/Ast/Type.cpp:365-399 | A conversion that is not exact goes between types of one sort and different scalars, so ranking it is well defined and the assertions hold. |
| `Types.SameNameIffSameType` | glsld-core/src/Ast/Type.cpp:353-363 | Canonical names are equal exactly if the types are structurally equal with structs compared by linkage, however deeply arrays are nested. |
| `Types.LinkageNameInjective` | glsld-core/src/Compiler/AstContext.cpp:20-35 | Linkage names are equal exactly if name, translation unit and first token are. |
| `Types.SplitUnique` | glsld-core/src/Ast/Type.cpp:5-94 | A name splits at its last character that is no digit in only one way: what makes the mangling readable backwards. |
| `Types.ArrayNameSpellsSizes` | glsld-core/src/Compiler/AstContext.cpp:70-93 | The name of an array type spells its sizes in source order. |
| `Types.ArrayAsPrescribedIff` | glsld-core/src/Compiler/AstContext.cpp:70-93 | An array declared with several sizes has the type the language prescribes if and only if the sizes read the same backwards. |
| `Types.SizesAreReversed` | glsld-core/src/Compiler/AstContext.cpp:70-93 | Concrete failure: int a[2][3] comes out as three elements of two. |
| `AstContexts.AstContext.GetArrayType` | glsld-core/src/Compiler/AstContext.cpp:95-119 | The same element type and size give the same type object, cached forever; there are no arrays of the error type. |
| `AstContexts.AstContext.GetArrayTypeOfSpec` | glsld-core/src/Compiler/AstContext.cpp:70-93 | The folding loop over the sizes, none of the cached types changing. |
| `AtomTables.GetAtoms` | glsld-core/src/Basic/AtomTable.cpp:14-44 | After any sequence of NUL-free strings, two atoms are the same pointer exactly if the strings are equal, each still reads as its string, and earlier atoms are unchanged. |
| `AtomTables.AtomTable.GetAtom` | glsld-core/src/Basic/AtomTable.cpp:14-25 | Returns the known atom, or a pointer different from all others; a string is registered as it reads through its pointer. |
| `AtomTables.AtomTable.AddAtom` | glsld-core/src/Basic/AtomTable.cpp:37-44 | Writes the string into its own allocation and changes no other atom. |
| `AtomTables.AtomTable.constructor` | glsld-core/src/Basic/AtomTable.cpp:7-12 | A table on top of a preamble has its atoms. |
| `AtomTables.StoredUnique` | glsld-core/src/Basic/AtomTable.cpp:37-44 | A pointer determines the NUL-free string behind it. |
| `AtomTables.AtomsKeptIff` | glsld-core/src/Basic/AtomTable.cpp:14-25 | Adding a new string keeps all existing atoms exactly if it is NUL-free or its part before the NUL is new. |
| `AtomTables.NulMovesAtom` | glsld-core/src/Basic/AtomTable.cpp:14-25 | Concrete failure: after interning the three characters a, NUL, b, the string a has another atom than before. |
| `Arenas.MemoryArena.Allocate` | glsld-core/include/Support/MemoryArena.h:139-148 | The allocation is aligned, in bounds, large enough and disjoint from all earlier ones, whose bytes do not change. |
| `Arenas.MemoryArena.AllocateSmall` | glsld-core/include/Support/MemoryArena.h:243-253 | Cut from the current page at its end if the object fits there, else from the start of a new regular page in front of the others. |
| `Arenas.MemoryArena.AllocateLarge` | glsld-core/include/Support/MemoryArena.h:255-261 | A new page of its own and of its size; the current regular page stays. |
| `Arenas.AlignAllocationSize` | glsld-core/include/Support/MemoryArena.h:238-241 | The least multiple of the alignment that is large enough. |

## Left out

- OutputRanking.OutputsResolveIffAlone: candidates with input and output parameters are not compared with the ranking of section 6.1.
- MacroRefinement.StreamRefinesExpand: the macro table is fixed during an expansion; a `#define` or `#undef` while a macro name is withheld is not modelled.
- MacroStandard.RegularIsPrescribed: the reference is defined with a bound on its depth, and prescribes a result where some bound suffices; that it ends on every input is not proved.
- PreprocessedText.FileIsExpanded: directives other than the conditional ones do nothing there; in PreprocessedPieces they change the macro table by a function that is a parameter, since parsing `#define` is not modelled.
- MacroSyntax.PasteJoinsTexts: an argument that is missing in a `##` contributes the empty text; the code reads out of bounds there.
- Conditionals.FeedPPToken: main file only; comments, `#include` recursion, version scanning and the keyword fix-up of output tokens are not modelled, and the body of other directives is left to the host.
- PPEval.EvaluateCorrect: the value of a literal and the 64-bit operators are parameters, so overflow, shifts and division are not modelled.
- ExprParser.ParseBinaryExpr: input with `struct` is excluded, even where no operand starts with it; reading such operands needs declaration parsing.
- ExprSound.ParsesExactlyTheGrammar: expressions only; statements, declarations and translation units are not modelled, nor is their termination.
- ExprStandard.StandardLevels: as in the code, what is called is a name or a type, and the size in an array type is any expression; section 9 of the OpenGL Shading Language 4.60 specification has a postfix expression and a conditional expression there.
- ExprRanges.RangesExpr: ranges are token indices; line and column positions are not modelled.
- LazyRefinement.LazyIsFull: primitive operations on constants, including casts, swizzles, builtin functions and the constructors of arithmetic types, are parameters.
- AstBuilders.AstBuilder.BuildBinaryExpr: the deduced types of operators, of functions and of components are parameters.
- SymbolTables.SymbolTable.FindFunction: candidates of one level come in the order of their declaration; the hash table of the source leaves that order open, which matters only between several exact matches.
- Types.SameNameIffSameType: descriptors only; all sampler types of the source have the same descriptor, hence the same name.
- AtomTables.AtomTable.GetAtom: allocation never fails, and sizes do not overflow 32 bits.
- Arenas.MemoryArena.Allocate: pages come from the system aligned and apart from each other; destructors and moves of the arena are not modelled.
- The tokenizer, numbers in literals, file lookup, callbacks, diagnostics texts and the language server are not part of this model.
- `#version`, `#extension`, `#pragma`, `#line` and stringification do little in the source and are not modelled.
- Initializer lists are built and evaluated here but not parsed.
